# solid-spoon, modelled in Dafny

solid-spoon is a Telegram bot written in Go. It greets users on `/start`. When
a message holds a YouTube link, it offers one button per downloadable quality.
When a button is pressed, it downloads that quality with yt-dlp, sends the file
back as a document and records usage in SQLite.

This project models the sequential logic inside that shell and proves what it
promises:

- **Downloader** (`downloader.dfy`, from internal/downloader/youtube.go)
  - listing the formats of a video: the first pass (mp4 with video and audio,
    one format per height, with an explicit tie rule), the looser fallback
    pass, the error when nothing qualifies, and the ascending sort (an
    insertion sort over an `array`);
  - the `"<h>p"` label and the size description;
  - `parseQualityNum`, which follows `fmt.Sscanf` with `%d`;
  - the `-f` selector, the post-download size gate and the widest-format
    dimensions.
- **Video handler** (`youtube_handler.dfy`, from internal/handler/youtube.go)
  - `extractYouTubeID`, modelled as a leftmost scan for the three URL shapes;
  - `CanHandle`;
  - the callback payload `yt:<id>:<quality>` and its `strings.Split` parse;
  - the two-ceiling delivery gate and the byte-length caption;
  - the order of everything the two handling paths do, recorded as an effect
    log (`effects.dfy`).
- **Start handler** (`start_handler.dfy`, from internal/handler/start.go) and
  **standalone loop** (`standalone_main.dfy`, from main.go): the user name, the
  greeting, the `/start` predicate, and the order in which the handler stores
  the user and the command before it replies (store calls are effects in the
  log as well).
- **Dispatcher** (`bot.dfy`, from internal/bot/bot.go)
  - `RegisterHandler` appends;
  - `Run` skips empty updates and hands each other update to the first
    handler, in registration order, that accepts it.
- **Usage store** (`user_repository.dfy`, `stats_repository.dfy`,
  `video_repository.dfy`, with `aggregate.dfy` for the
  `COUNT`/`GROUP BY`/`ORDER BY`/`LIMIT` queries)
  - the users table is a map from Telegram id to row, plus the last
    AUTOINCREMENT id;
  - the command and download tables are append-only sequences;
  - each repository is a class whose methods update those fields.

Go strings are byte sequences (`Bytes.Str`), because `len` and slicing in Go
count bytes.

Everything outside the process is an input:
- The answers of the outside world during one update are a `World` value:
  - the clock;
  - whether each store write fails;
  - whether reading the user row back fails;
  - the downloader's results;
  - what `os.Stat` reports;
  - whether Telegram accepts the document.
- In `DownloadWithQualityInfo`, yt-dlp's outcome is a `YtdlpRun` value and the
  temporary directory is a map from path to size.

## Model

| member | source | states |
|---|---|---|
| Downloader.ParseQualityLabel | internal/downloader/youtube.go:319-323 | parseQualityNum reads every label `"<h>p"` back as `h`, for every 64-bit `h` |
| Downloader.ParseDigitsThenP | internal/downloader/youtube.go:319-323 | an optional minus, a run of digits and `p` scan as the signed value of the digits when it fits in 64 bits |
| Downloader.ParseQualityNumRejects | internal/downloader/youtube.go:319-323 | text that does not start with white space, a sign or a digit (such as "invalid" or "") reads as 0 |
| Downloader.PrimaryPassShape | internal/downloader/youtube.go:93-163 | every entry of the first pass is built from an mp4 format with video and audio, a non-zero height and a size within the ceiling, stored under that height; every such format's height is present |
| Downloader.FallbackPassShape | internal/downloader/youtube.go:166-206 | the same for the fallback pass, which accepts mp4 or webm with video and does not require audio |
| Downloader.SelectedShape | internal/downloader/youtube.go:165-210 | the first pass is used when some format qualifies for it, the fallback pass otherwise; every entry is keyed by its height, labelled `"<h>p"` and within the ceiling; the result is empty exactly when no format qualifies even for the fallback |
| Downloader.PrimaryTieRule | internal/downloader/youtube.go:141-162 | for each height the first pass keeps the first candidate when that one has no positive size, otherwise the earliest candidate with the least positive size |
| Downloader.FallbackFirstWins | internal/downloader/youtube.go:195-204 | in the fallback pass the first candidate seen for each height is kept |
| Downloader.FirstPassLoop | internal/downloader/youtube.go:93-163 | the in-place loop over `qualityMap` computes the first-pass fold |
| Downloader.FallbackPassLoop | internal/downloader/youtube.go:166-206 | the fallback loop computes the fallback fold |
| Downloader.MapValues | internal/downloader/youtube.go:212-215 | collecting the map's values gives one entry per key, with no two entries of the same height |
| Downloader.InsertAt | internal/downloader/youtube.go:217-219 | one insertion step extends the sorted prefix by one and permutes the array |
| Downloader.SortByQuality | internal/downloader/youtube.go:217-219 | the array ends sorted by `QualityNum` and is a permutation of its old contents |
| Downloader.SortedValues | internal/downloader/youtube.go:212-219 | the result is strictly ascending by height and holds exactly the map's entries |
| Downloader.GetAvailableFormats | internal/downloader/youtube.go:76-222 | yt-dlp failures give their errors; otherwise the result fails with "no suitable formats found" exactly when the selected pass is empty, and is otherwise exactly its entries, strictly ascending by height |
| Downloader.LabelSelectsItsHeight | internal/downloader/youtube.go:251-257 | a label produced by the lister selects the best combined stream at most that tall |
| Downloader.BuildArgs | internal/downloader/youtube.go:245-264 | the argument list holds the fixed flags, the output path, then the `-f` selector: "worst" for an empty quality, none for a quality that parses to at most 0 |
| Downloader.WidestDimensions | internal/downloader/youtube.go:299-306 | the loop returns `Widest(formats)`: the largest width of any format (0 if none is positive), with the height of the first format that has that width |
| Downloader.DownloadWithQualityInfo | internal/downloader/youtube.go:236-317 | each failure gives its error; the file is removed on a yt-dlp failure and when it is over the ceiling; a success leaves the file within the ceiling, uncompressed, with the decoded title, description and duration, and with the width and height of the widest format (`Widest`) |
| Bytes.SplitJoin | internal/handler/youtube.go:118 | splitting on a separator and joining back gives the input; there is one more part than there are separators, and no part holds the separator |
| Bytes.SplitCons | internal/handler/youtube.go:118 | a separator-free head followed by the separator splits off as the first part |
| Bytes.DecimalValueOfDigits | internal/downloader/youtube.go:125 | the decimal digits printed for `n` read back as `n` |
| YouTubeHandler.Capture | internal/handler/youtube.go:257 | a match captures exactly eleven bytes of `[A-Za-z0-9_-]` |
| YouTubeHandler.ScanFromNone | internal/handler/youtube.go:255-267 | the scan finds nothing exactly when the pattern matches at no position |
| YouTubeHandler.ScanFromFirst | internal/handler/youtube.go:255-267 | the scan returns the capture of the first position where the pattern matches |
| YouTubeHandler.ExtractSpec | internal/handler/youtube.go:255-267 | `extractYouTubeID` is "" exactly when the pattern matches nowhere, and is otherwise the leftmost match's eleven id bytes; the result never holds ':' |
| YouTubeHandler.NoMatchWithoutY | internal/handler/youtube.go:257 | the pattern can only start at a 'y', because every URL prefix starts with one |
| YouTubeHandler.ExtractAfterLead | internal/handler/youtube.go:255-267 | a link whose text before the URL prefix holds no 'y' yields the id that follows the prefix |
| YouTubeHandler.ExtractExamples | internal/handler/handler_test.go:74-105 | watch, youtu.be and shorts links give their id; the empty text gives "" |
| YouTubeHandler.CanHandleSpec | internal/handler/youtube.go:38-46 | a message is accepted exactly when the pattern matches in its text; a callback alone is accepted exactly when its data starts with "yt:"; anything else is refused |
| YouTubeHandler.CallbackRoundTrip | internal/handler/youtube.go:118-124 | parsing `yt:<id>:<quality>` built from a colon-free id and quality gives them back |
| YouTubeHandler.CallbackParseInverse | internal/handler/youtube.go:118-124 | data that starts with "yt:" and splits into three parts is exactly the payload built from the parsed id and quality |
| YouTubeHandler.QualityButtons | internal/handler/youtube.go:89-95 | one button per format, in order, each showing the format's description and carrying `yt:<id>:<quality>`, which parses back to the id and quality |
| YouTubeHandler.QualityLabelColonFree | internal/downloader/youtube.go:125 | a `"<h>p"` label holds no ':' |
| YouTubeHandler.KeyboardRoundTrip | internal/handler/youtube.go:89-124 | a button built from an extracted id and a `"<h>p"` label is accepted by the handler and parses back to that id and label |
| YouTubeHandler.DownloaderOutputPasses | internal/handler/youtube.go:170-192 | what the downloader delivers (within 2000 MiB, never compressed) always passes the two-ceiling gate |
| YouTubeHandler.CapCaptionFacts | internal/handler/youtube.go:218-221 | the capped caption is at most 1024 bytes; a caption that fits is unchanged; a longer one keeps its first 1021 bytes and ends in "..."; a short enough prefix survives |
| YouTubeHandler.FullCaptionStartsWithTitle | internal/handler/youtube.go:203-216 | the caption starts with the title |
| YouTubeHandler.BuildCaption | internal/handler/youtube.go:202-222 | the caption is exactly `CapCaption(FullCaption(title, desc, compressed))`: at most 1024 bytes, the full title/description/note text when that fits, its first 1021 bytes plus "..." otherwise, and starting with a title that fits |
| YouTubeHandler.YouTubeHandler.constructor | internal/handler/youtube.go:24-36 | the handler holds the three repositories it is given |
| YouTubeHandler.YouTubeHandler.HandleMessage | internal/handler/youtube.go:48-110 | `StoreOutcome`: the sender is upserted, the AUTOINCREMENT counter advances exactly when the Telegram id was new, and "youtube" is recorded only when both the upsert and the read-back of the row worked; no sender or a failed upsert write changes no table and not the counter; the log starts with those store calls, then "typing", then the error or the keyboard followed by deletion of the link message; button `i` shows format `i`'s description and carries `CallbackData(ExtractYouTubeID(text), quality_i)`, which parses back to both |
| YouTubeHandler.YouTubeHandler.HandleCallback | internal/handler/youtube.go:112-253 | `CallbackOutcome`: malformed data does nothing; otherwise the answer, the edit and the upload action come first; a failed download is reported and nothing is stored; a successful one follows the delivery rules below (including the exact capped caption) and removes the file only then; no download row is stored when reading the sender's row fails |
| YouTubeHandler.YouTubeHandler.AfterDownload | internal/handler/youtube.go:149-252 | the file is removed last on every path and nowhere else; a stat failure or a rejected size is reported; otherwise the upload action and the document, whose caption is exactly `CapCaption(FullCaption(title, description, compressed))`, then deletion or the send failure; a download row with the canonical URL is stored exactly when the send worked, the sender's row is read back, the sender is known and the write succeeds |
| YouTubeHandler.YouTubeHandler.Handle | internal/handler/youtube.go:48-53 | a callback has exactly the callback path's outcome (`CallbackOutcome`: effects and download row) and leaves the users table, its id counter and the command table alone; a message has exactly the message path's outcome (`StoreOutcome` for the users table, counter and command table, the store calls before `KeyboardReply`) and leaves the download table alone |
| StartHandler.GetUserName | internal/handler/start.go:49-54 | the first name when non-empty, else the username; "" exactly when both are empty |
| StartHandler.FormatGreeting | internal/handler/start.go:56-58 | the greeting's length is that of the fixed prefix, the name and the fixed suffix |
| StartHandler.GreetingRoundTrip | internal/handler/start.go:56-58 | the name can be read back from a greeting, and text with the greeting's frame is the greeting of the name inside it |
| StartHandler.GreetingInjective | internal/handler/start.go:56-58 | different names give different greetings |
| StartHandler.CanHandleCases | internal/handler/start.go:22-24 | the handler accepts exactly messages whose command is "start": not plain text, other commands, callbacks or empty updates |
| StartHandler.StartHandler.constructor | internal/handler/start.go:15-20 | the handler holds the two repositories it is given |
| StartHandler.StartHandler.Handle | internal/handler/start.go:26-47 | exactly one greeting is sent, whatever the store does, and it is the last effect: the store calls (the upsert, then the command when the user row was read back) come first; `StoreOutcome`: the users table is upserted and its AUTOINCREMENT counter advances exactly when the Telegram id was new, "start" is recorded only when the upsert and the read-back worked, and a failed upsert write changes no table and not the counter |
| StandaloneMain.MainLoop | main.go:39-54 | the loop's replies are the replies owed to the stream: a greeting per "/start" message, nothing for other updates |
| StandaloneMain.OneReplyPerStart | main.go:44-52 | exactly one reply per "/start" update, each a greeting |
| StandaloneMain.IgnoredUpdates | main.go:40-42 | updates without a message, or with another text or command, get no reply |
| StandaloneMain.RepliesAppend | main.go:39-54 | the replies to two streams in a row are the replies to each, in order |
| Bot.FirstAccepting | internal/bot/bot.go:111-119 | the position found accepts the update and no earlier handler does; none means no handler accepts it |
| Bot.FirstAcceptingAppend | internal/bot/bot.go:111-119 | with one more handler at the end, the choice is the old one, or else the newcomer if it accepts |
| Bot.RegisterKeepsEarlierChoices | internal/bot/bot.go:37-40 | registering a handler never takes an update from an earlier one and only gives the newcomer updates nobody accepted |
| Bot.ProgramWiring | cmd/bot/main.go:48-49 | with Start registered before YouTube, "/start" goes to Start even when it holds a link, links and "yt:" callbacks go to YouTube, and anything else non-empty is unhandled |
| Bot.Bot.constructor | internal/bot/bot.go:31-34 | a new bot has no handlers |
| Bot.Bot.RegisterHandler | internal/bot/bot.go:37-40 | appends one handler at the end; earlier handlers keep their positions |
| Bot.Bot.Run | internal/bot/bot.go:82-125 | one decision per update: empty updates are skipped, others go to the first accepting handler in registration order, or to none when no handler accepts |
| Aggregate.DistinctFacts | internal/database/repository/stats.go:53-55 | the groups of `GROUP BY` are exactly the keys that occur, each once |
| Aggregate.RankFacts | internal/database/repository/stats.go:56 | ranking by count keeps every group once, in non-increasing count order |
| Aggregate.TopFacts | internal/database/repository/stats.go:52-58 | the top-N result has `min(n, groups)` groups (all for a negative limit), each occurring, none twice, in non-increasing count, and no group left out has a larger count than one returned |
| Aggregate.CountsAddUp | internal/database/repository/stats.go:44-48 | the counts of all groups add up to the number of rows |
| UserRepository.UpsertFacts | internal/database/repository/user.go:31-53 | an upsert keeps one row per Telegram id with distinct ids; a known id keeps its row's id and creation time and takes the new names, language and update time; an unknown id adds one row with a fresh id; other rows are untouched |
| UserRepository.UpsertAllKeys | internal/database/repository/user.go:31-53 | after a series of upserts, the table's Telegram ids are the old ones plus those upserted |
| UserRepository.TotalUsersCountsDistinctIds | internal/database/repository/user.go:97-101 | starting from an empty table, the user count is the number of distinct Telegram ids upserted |
| UserRepository.UserRepository.constructor | internal/database/repository/user.go:18-20 | a new repository has an empty table |
| UserRepository.UserRepository.UpsertFromTelegram | internal/database/repository/user.go:23-57 | a nil user and a failed write give errors and change nothing; otherwise the table is upserted, and the stored row for that Telegram id is returned, or a read error when reading it back fails (the table stays changed) |
| UserRepository.UserRepository.GetByTelegramID | internal/database/repository/user.go:60-94 | a failed read gives a read error; otherwise the row for the id, or no user (and no error) when there is none |
| UserRepository.UserRepository.GetTotalUsers | internal/database/repository/user.go:97-101 | the number of rows |
| StatsRepository.RecordedRowCounts | internal/database/repository/stats.go:26-41 | one recorded command adds one to its user's count and leaves every other user's count alone |
| StatsRepository.TotalIsSumOfUserCounts | internal/database/repository/stats.go:44-48 | the total equals the sum of the per-user counts |
| StatsRepository.StatsRepository.constructor | internal/database/repository/stats.go:21-23 | a new repository has no rows |
| StatsRepository.StatsRepository.RecordCommand | internal/database/repository/stats.go:26-33 | appends exactly one row `(user, command, time)` unless the write fails, and changes nothing else |
| StatsRepository.StatsRepository.GetCommandCount | internal/database/repository/stats.go:36-41 | the number of the user's rows, at most the total |
| StatsRepository.StatsRepository.GetTotalCommands | internal/database/repository/stats.go:44-48 | the number of rows, equal to the sum of the per-user counts |
| StatsRepository.StatsRepository.GetPopularCommands | internal/database/repository/stats.go:51-76 | at most `limit` commands (all for a negative limit), each with its row count, none twice, in non-increasing count order; no command left out is more frequent than one returned |
| VideoRepository.GroupTitleFromGroup | internal/database/repository/video.go:71-73 | the title reported for a video comes from one of that video's rows |
| VideoRepository.RecordedRowCounts | internal/database/repository/video.go:21-52 | one recorded download adds one to its user's count and leaves every other user's count alone |
| VideoRepository.PopularVideosFacts | internal/database/repository/video.go:69-96 | copying the ranked groups with their counts and titles meets the top-N promise |
| VideoRepository.VideoRepository.constructor | internal/database/repository/video.go:16-18 | a new repository has no rows |
| VideoRepository.VideoRepository.RecordDownload | internal/database/repository/video.go:21-44 | appends exactly one row holding the given fields, with the next id, unless the write fails |
| VideoRepository.VideoRepository.GetUserDownloadCount | internal/database/repository/video.go:47-52 | the number of the user's rows, at most the total |
| VideoRepository.VideoRepository.GetTotalDownloads | internal/database/repository/video.go:55-59 | the number of rows, equal to the sum of the per-user counts |
| VideoRepository.VideoRepository.GetPopularVideos | internal/database/repository/video.go:69-96 | at most `limit` videos (all for a negative limit), each with its row count and a title from one of its rows, none twice, in non-increasing count order; no video left out is more downloaded than one returned |

## Left out

- Running yt-dlp and decoding its JSON (internal/downloader/youtube.go:79-91, 266-284). The model takes the outcome as a `YtdlpRun`. When the JSON does not decode, the model uses an empty document, whereas Go's `json.Unmarshal` may have filled some fields before failing.
- File-system calls. `os.TempDir` becomes a parameter, `os.Stat` an optional size, and `os.Remove` either a map update or a `RemoveFile` effect. `filepath.Join` is modelled as plain concatenation with '/', without path cleaning.
- Every Telegram API call. Sends, chat actions, edits, deletions, callback answers and keyboards are kept as entries of an effect log. Fixed reply texts are named by a `Notice` rather than spelled out, and only the document send can fail.
- Message command extraction (`IsCommand`/`Command()`, a library call). A message carries its command as an optional field.
- The downloader interface between the handler and the downloader. In the handler, `GetAvailableFormats` and `DownloadWithQualityInfo` results are given through the `World` value rather than computed.
- The `Download` and `DownloadWithQuality` wrappers (internal/downloader/youtube.go:224-234). They only forward to `DownloadWithQualityInfo`.
- The goroutine started per update in `Run` (internal/bot/bot.go:115). Dispatch is modelled as a sequential decision.
- Bot.Bot.Run: requires every message to have a sender, because the source's logging reads the sender's names before deciding.
- StartHandler.StartHandler.Handle: requires a sender, because the source reads the sender's names first.
- StandaloneMain.MainLoop: requires every "/start" message to have a sender, because the source reads the sender's names and panics otherwise (main.go:45).
- `SendStartupNotification` and the program bootstrap (environment, hostname, time formatting, database opening and migrations). Only the registration order of cmd/bot/main.go is modelled.
- Logging, and the floating-point MB figures used only in logs and error texts (internal/handler/youtube.go:173, internal/downloader/youtube.go:294-296).
- The SQL engine. The following are outside the model:
  - read errors of the count and ranking queries (a failed read-back of a user row is modelled);
  - foreign keys;
  - the AUTOINCREMENT id that SQLite spends on an upsert that becomes an update;
  - `time.Now()`, which becomes an opaque integer parameter.
- Downloader.ParseQualityNum: white space is limited to the ASCII spaces `fmt` skips. Unicode spaces are not modelled.
- The yt-dlp `duration` is taken as whole seconds already; the float-to-int truncation is not modelled.
- Aggregate.Top: SQLite leaves the order of groups with equal counts open. The model fixes it to the order of first occurrence, and all stated properties hold for any such order.
- VideoRepository.GroupTitle: SQLite takes the bare `video_title` of a group from some row of it. The model takes the last row, and GetPopularVideos only promises a title from some row of the group.
- A nil `callback.Message` (internal/handler/youtube.go:114) is not modelled. A callback carries its chat and message ids.
