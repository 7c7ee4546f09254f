/**
  The video handler of internal/handler/youtube.go: recognising YouTube links,
  the quality keyboard and its callback payload, the delivery size gate, the
  document caption, and the order of effects in both handling paths.
 */
module YouTubeHandler {
  import opened Wrappers
  import opened Bytes
  import opened Effects
  import Telegram
  import Downloader
  import UserRepository
  import StatsRepository
  import VideoRepository
  import Models

  // ---------------------------------------------------------------------------
  // extractYouTubeID: the pattern
  //   (?:youtube\.com/watch\?v=|youtu\.be/|youtube\.com/shorts/)([a-zA-Z0-9_-]{11})
  // as a leftmost scan. The three prefixes differ at a fixed position, so at
  // most one of them matches at any index.

  const WatchPath: Str := [121, 111, 117, 116, 117, 98, 101, 46, 99, 111, 109, 47, 119, 97, 116, 99, 104, 63, 118, 61] // "youtube.com/watch?v="
  const ShortPath: Str := [121, 111, 117, 116, 117, 46, 98, 101, 47]                                                  // "youtu.be/"
  const ShortsPath: Str := [121, 111, 117, 116, 117, 98, 101, 46, 99, 111, 109, 47, 115, 104, 111, 114, 116, 115, 47] // "youtube.com/shorts/"
  const LetterY: byte := 121
  const IdLength: nat := 11

  /** `[a-zA-Z0-9_-]` */
  predicate IsIdByte(b: byte)
  {
    (97 <= b <= 122) || (65 <= b <= 90) || (48 <= b <= 57) || b == 95 || b == 45
  }

  predicate PrefixAt(s: Str, i: nat, p: Str)
  {
    i + |p| <= |s| && s[i..i + |p|] == p
  }

  /** Length of the URL prefix that starts at `s[i]`, or 0 when none does. */
  function UrlPrefixAt(s: Str, i: nat): nat
  {
    if PrefixAt(s, i, WatchPath) then |WatchPath|
    else if PrefixAt(s, i, ShortPath) then |ShortPath|
    else if PrefixAt(s, i, ShortsPath) then |ShortsPath|
    else 0
  }

  /** The pattern matches starting at `s[i]`: a URL prefix followed by eleven id bytes. */
  predicate MatchAt(s: Str, i: nat)
  {
    var p := UrlPrefixAt(s, i);
    p > 0 && i + p + IdLength <= |s| && forall k | i + p <= k < i + p + IdLength :: IsIdByte(s[k])
  }

  /** The id captured by the leftmost match at or after `s[i]`. */
  function ScanFrom(s: Str, i: nat): Str
    requires i <= |s|
    decreases |s| - i
  {
    if i == |s| then []
    else if MatchAt(s, i) then
      var p := UrlPrefixAt(s, i);
      s[i + p..i + p + IdLength]
    else ScanFrom(s, i + 1)
  }

  function ExtractYouTubeID(text: Str): Str
  {
    ScanFrom(text, 0)
  }

  /** The id the pattern captures when it matches at `s[j]`. */
  function Capture(s: Str, j: nat): (id: Str)
    requires j < |s| && MatchAt(s, j)
    ensures |id| == IdLength && forall k | 0 <= k < |id| :: IsIdByte(id[k])
  {
    var p := UrlPrefixAt(s, j);
    var id := s[j + p..j + p + IdLength];
    assert forall k | 0 <= k < |id| :: id[k] == s[j + p + k];
    id
  }

  lemma {:induction false} ScanFromNone(s: Str, i: nat)
    requires i <= |s|
    ensures ScanFrom(s, i) == [] <==> forall j | i <= j < |s| :: !MatchAt(s, j)
    decreases |s| - i
  {
    if i < |s| && !MatchAt(s, i) {
      ScanFromNone(s, i + 1);
      assert ScanFrom(s, i) == ScanFrom(s, i + 1);
      assert (forall j | i <= j < |s| :: !MatchAt(s, j)) <==> (forall j | i + 1 <= j < |s| :: !MatchAt(s, j)) by {
        forall j | i <= j < |s| && (forall k | i + 1 <= k < |s| :: !MatchAt(s, k)) ensures !MatchAt(s, j) {
          if j > i { assert i + 1 <= j; }
        }
      }
    } else if i < |s| {
      var id := Capture(s, i);
      assert ScanFrom(s, i) == id && |id| == IdLength;
    }
  }

  lemma {:induction false} ScanFromFirst(s: Str, i: nat, j: nat)
    requires i <= j < |s| && MatchAt(s, j)
    requires forall k | i <= k < j :: !MatchAt(s, k)
    ensures ScanFrom(s, i) == Capture(s, j)
    decreases j - i
  {
    if i < j {
      ScanFromFirst(s, i + 1, j);
    }
  }

  lemma {:induction false} ScanFromShape(s: Str, i: nat)
    requires i <= |s|
    ensures |ScanFrom(s, i)| == 0 || |ScanFrom(s, i)| == IdLength
    ensures forall k | 0 <= k < |ScanFrom(s, i)| :: IsIdByte(ScanFrom(s, i)[k])
    decreases |s| - i
  {
    if i < |s| && !MatchAt(s, i) {
      ScanFromShape(s, i + 1);
    } else if i < |s| {
      assert ScanFrom(s, i) == Capture(s, i);
    }
  }

  /**
    `extractYouTubeID` returns the eleven bytes after the leftmost matching URL
    prefix, and "" exactly when the pattern matches nowhere; an id is made of
    `[A-Za-z0-9_-]` only, so it never holds ':'.
   */
  lemma ExtractSpec(text: Str)
    ensures ExtractYouTubeID(text) == [] <==> forall j | 0 <= j < |text| :: !MatchAt(text, j)
    ensures forall j | 0 <= j < |text| && MatchAt(text, j) && (forall k | 0 <= k < j :: !MatchAt(text, k)) ::
      ExtractYouTubeID(text) == Capture(text, j)
    ensures |ExtractYouTubeID(text)| == 0 || |ExtractYouTubeID(text)| == IdLength
    ensures forall k | 0 <= k < |ExtractYouTubeID(text)| :: IsIdByte(ExtractYouTubeID(text)[k])
    ensures Free(ExtractYouTubeID(text), Colon)
  {
    ScanFromNone(text, 0);
    forall j | 0 <= j < |text| && MatchAt(text, j) && (forall k | 0 <= k < j :: !MatchAt(text, k))
      ensures ExtractYouTubeID(text) == Capture(text, j)
    {
      ScanFromFirst(text, 0, j);
    }
    ScanFromShape(text, 0);
  }

  /** Every URL prefix starts with 'y', so nothing matches at a byte that is not 'y'. */
  lemma NoMatchWithoutY(s: Str, i: nat)
    requires i < |s| && s[i] != LetterY
    ensures !MatchAt(s, i)
  {
    PrefixHead(s, i, WatchPath);
    PrefixHead(s, i, ShortPath);
    PrefixHead(s, i, ShortsPath);
  }

  lemma PrefixHead(s: Str, i: nat, p: Str)
    requires |p| > 0
    ensures PrefixAt(s, i, p) ==> s[i] == p[0]
  {
    if PrefixAt(s, i, p) {
      assert s[i..i + |p|][0] == s[i];
    }
  }

  /**
    A link whose text before the URL prefix has no 'y' (a scheme and host
    such as "https://www.") yields the eleven-byte id that follows the prefix.
   */
  lemma ExtractAfterLead(lead: Str, prefix: Str, id: Str, rest: Str)
    requires prefix == WatchPath || prefix == ShortPath || prefix == ShortsPath
    requires Free(lead, LetterY)
    requires |id| == IdLength && forall k | 0 <= k < |id| :: IsIdByte(id[k])
    ensures ExtractYouTubeID(lead + prefix + id + rest) == id
  {
    var s := lead + prefix + id + rest;
    var i := |lead|;
    forall j | 0 <= j < i
      ensures !MatchAt(s, j)
    {
      assert s[j] == lead[j];
      NoMatchWithoutY(s, j);
    }
    assert s[i..i + |prefix|] == prefix;
    assert UrlPrefixAt(s, i) == |prefix| by {
      if prefix == ShortPath {
        assert !PrefixAt(s, i, WatchPath) by { assert s[i + 5] == ShortPath[5] != WatchPath[5]; }
      } else if prefix == ShortsPath {
        assert !PrefixAt(s, i, WatchPath) by { assert s[i + 12] == ShortsPath[12] != WatchPath[12]; }
        assert !PrefixAt(s, i, ShortPath) by { assert s[i + 5] == ShortsPath[5] != ShortPath[5]; }
      }
    }
    assert forall k | 0 <= k < IdLength :: s[i + |prefix| + k] == id[k];
    assert MatchAt(s, i);
    ScanFromFirst(s, 0, i);
    assert s[i + |prefix|..i + |prefix| + IdLength] == id;
  }

  /** The three shapes the handler's tests use, and a link with no YouTube URL. */
  lemma ExtractExamples(id: Str)
    requires |id| == IdLength && forall k | 0 <= k < |id| :: IsIdByte(id[k])
    ensures ExtractYouTubeID(Downloader.WatchPrefix + id) == id
    ensures ExtractYouTubeID(Https + ShortPath + id) == id
    ensures ExtractYouTubeID(Https + ShortsPath + id) == id
    ensures ExtractYouTubeID([]) == []
  {
    var www: Str := [104, 116, 116, 112, 115, 58, 47, 47, 119, 119, 119, 46];
    assert Downloader.WatchPrefix == www + WatchPath;
    ExtractAfterLead(www, WatchPath, id, []);
    assert www + WatchPath + id + [] == Downloader.WatchPrefix + id;
    ExtractAfterLead(Https, ShortPath, id, []);
    assert Https + ShortPath + id + [] == Https + ShortPath + id;
    ExtractAfterLead(Https, ShortsPath, id, []);
    assert Https + ShortsPath + id + [] == Https + ShortsPath + id;
  }

  const Https: Str := [104, 116, 116, 112, 115, 58, 47, 47]   // "https://"

  // ---------------------------------------------------------------------------
  // CanHandle and the callback payload

  const YtTag: Str := [121, 116]          // "yt"
  const YtPrefix: Str := [121, 116, 58]   // "yt:"

  /** `CanHandle`: a message with a YouTube link, or a callback whose data starts with "yt:". */
  predicate CanHandle(update: Telegram.Update)
  {
    if update.message.Some? then ExtractYouTubeID(update.message.value.text) != []
    else if update.callbackQuery.Some? then HasPrefix(update.callbackQuery.value.data, YtPrefix)
    else false
  }

  /**
    A message is accepted exactly when the link pattern matches somewhere in
    its text; a callback alone exactly when its data starts with "yt:"; an
    update with neither is refused.
   */
  lemma CanHandleSpec(update: Telegram.Update)
    ensures update.message.Some? ==>
      (CanHandle(update) <==> exists j | 0 <= j < |update.message.value.text| :: MatchAt(update.message.value.text, j))
    ensures update.message.None? && update.callbackQuery.Some? ==>
      (CanHandle(update) <==> HasPrefix(update.callbackQuery.value.data, YtPrefix))
    ensures update.message.None? && update.callbackQuery.None? ==> !CanHandle(update)
  {
    if update.message.Some? {
      ExtractSpec(update.message.value.text);
    }
  }

  /** `fmt.Sprintf("yt:%s:%s", videoID, quality)` */
  function CallbackData(videoId: Str, quality: Str): Str
  {
    YtTag + [Colon] + videoId + [Colon] + quality
  }

  /** `strings.Split(data, ":")` kept only when it has exactly three parts: (video id, quality). */
  function ParseCallbackData(data: Str): Option<(Str, Str)>
  {
    var parts := Split(data, Colon);
    if |parts| != 3 then None else Some((parts[1], parts[2]))
  }

  /** Parsing the payload of a button built from a colon-free id and quality gives them back. */
  lemma CallbackRoundTrip(videoId: Str, quality: Str)
    requires Free(videoId, Colon) && Free(quality, Colon)
    ensures ParseCallbackData(CallbackData(videoId, quality)) == Some((videoId, quality))
  {
    assert CallbackData(videoId, quality) == YtTag + [Colon] + (videoId + [Colon] + quality);
    SplitCons(YtTag, videoId + [Colon] + quality, Colon);
    SplitCons(videoId, quality, Colon);
    SplitFree(quality, Colon);
  }

  /**
    Conversely, data the handler accepts (it starts with "yt:" and parses) is
    exactly the payload built from the parsed id and quality.
   */
  lemma {:induction false} CallbackParseInverse(data: Str)
    requires HasPrefix(data, YtPrefix)
    requires ParseCallbackData(data).Some?
    ensures var (videoId, quality) := ParseCallbackData(data).value;
      Free(videoId, Colon) && Free(quality, Colon) && data == CallbackData(videoId, quality)
  {
    var parts := Split(data, Colon);
    SplitJoin(data, Colon);
    JoinThree(parts, Colon);
    assert data == parts[0] + [Colon] + (parts[1] + [Colon] + parts[2]);
    TaggedFirstPiece(parts[0], parts[1] + [Colon] + parts[2]);
  }

  lemma JoinThree(parts: seq<Str>, sep: byte)
    requires |parts| == 3
    ensures Join(parts, sep) == parts[0] + [sep] + (parts[1] + [sep] + parts[2])
  {
    assert parts[1..][1..] == [parts[2]];
    assert Join(parts[1..], sep) == parts[1] + [sep] + Join([parts[2]], sep);
  }

  /** A colon-free first piece of data that starts with "yt:" is "yt". */
  lemma TaggedFirstPiece(a: Str, rest: Str)
    requires Free(a, Colon)
    requires HasPrefix(a + [Colon] + rest, YtPrefix)
    ensures a == YtTag
  {
    var data := a + [Colon] + rest;
    assert data[0] == 121 && data[1] == 116 && data[2] == Colon by {
      assert forall k | 0 <= k < 3 :: data[k] == data[..3][k];
    }
    assert data[|a|] == Colon;
    assert forall k | 0 <= k < |a| :: data[k] == a[k];
    assert |a| == 2;
    assert a == data[..2];
  }

  /** One button per format, in order: the format's description over its callback payload. */
  method QualityButtons(videoId: Str, formats: seq<Downloader.VideoFormat>) returns (buttons: seq<Button>)
    ensures |buttons| == |formats|
    ensures forall i | 0 <= i < |formats| ::
      buttons[i] == Button(formats[i].description, CallbackData(videoId, formats[i].quality))
    ensures Free(videoId, Colon) ==> forall i | 0 <= i < |formats| && Free(formats[i].quality, Colon) ::
      ParseCallbackData(buttons[i].callbackData) == Some((videoId, formats[i].quality))
  {
    buttons := [];
    for i := 0 to |formats|
      invariant |buttons| == i
      invariant forall j | 0 <= j < i :: buttons[j] == Button(formats[j].description, CallbackData(videoId, formats[j].quality))
    {
      buttons := buttons + [Button(formats[i].description, CallbackData(videoId, formats[i].quality))];
    }
    if Free(videoId, Colon) {
      forall i | 0 <= i < |formats| && Free(formats[i].quality, Colon)
        ensures ParseCallbackData(buttons[i].callbackData) == Some((videoId, formats[i].quality))
      {
        CallbackRoundTrip(videoId, formats[i].quality);
      }
    }
  }

  /** A quality label "<h>p" holds no ':'. */
  lemma QualityLabelColonFree(h: int)
    ensures Free(Downloader.QualityLabel(h), Colon)
  {
    var n: nat := if h < 0 then -h else h;
    var d := Digits(n);
    assert forall k | 0 <= k < |d| :: d[k] != Colon by {
      forall k | 0 <= k < |d| ensures d[k] != Colon { assert IsDigit(d[k]); }
    }
  }

  // ---------------------------------------------------------------------------
  // The delivery size gate

  const MaxTelegramBotAPI: int := 50 * 1024 * 1024
  const MaxTelegramDocSize: int := 2000 * 1024 * 1024

  datatype Verdict = Deliver | RejectTooLarge | RejectCompressed

  /** Over 2000 MiB is refused; a compressed file over 50 MiB is refused; anything else is sent. */
  function SizeVerdict(size: int, compressed: bool): Verdict
  {
    if size > MaxTelegramDocSize then RejectTooLarge
    else if compressed && size > MaxTelegramBotAPI then RejectCompressed
    else Deliver
  }

  /** What the default downloader hands over (within its 2000 MiB ceiling, never compressed) always passes. */
  lemma DownloaderOutputPasses(d: Downloader.YouTubeDownloader, info: Downloader.VideoInfo, size: int)
    requires d.maxSize <= Downloader.MaxLocalAPIServer
    requires size <= d.maxSize && !info.compressed
    ensures SizeVerdict(size, info.compressed) == Deliver
  {
  }

  // ---------------------------------------------------------------------------
  // The caption

  const Paragraph: Str := [10, 10]     // "\n\n"
  const Ellipsis: Str := [46, 46, 46]  // "..."
  /** "⚙️ Видео сжато для отправки через Telegram" */
  const CompressedNote: Str := [226, 154, 153, 239, 184, 143, 32, 208, 146, 208, 184, 208, 180, 208, 181, 208, 190,
    32, 209, 129, 208, 182, 208, 176, 209, 130, 208, 190, 32, 208, 180, 208, 187, 209, 143, 32, 208, 190, 209, 130,
    208, 191, 209, 128, 208, 176, 208, 178, 208, 186, 208, 184, 32, 209, 135, 208, 181, 209, 128, 208, 181, 208, 183,
    32, 84, 101, 108, 101, 103, 114, 97, 109]
  const MaxDescription: nat := 200
  const MaxCaption: nat := 1024

  /** The description as shown: its first 200 bytes and "..." when longer. */
  function ShortDescription(desc: Str): Str
  {
    if |desc| > MaxDescription then desc[..MaxDescription] + Ellipsis else desc
  }

  /** The caption before the length cap. */
  function FullCaption(title: Str, desc: Str, compressed: bool): Str
  {
    title + (if desc != [] then Paragraph + ShortDescription(desc) else []) + (if compressed then Paragraph + CompressedNote else [])
  }

  /** Telegram's caption limit: a longer caption keeps its first 1021 bytes and gains "...". */
  function CapCaption(full: Str): Str
  {
    if |full| > MaxCaption then full[..MaxCaption - 3] + Ellipsis else full
  }

  /** The capped caption fits, is untouched when it already fitted, and keeps any short enough prefix. */
  lemma CapCaptionFacts(full: Str, title: Str)
    ensures |CapCaption(full)| <= MaxCaption
    ensures |full| <= MaxCaption ==> CapCaption(full) == full
    ensures |full| > MaxCaption ==>
      |CapCaption(full)| == MaxCaption && CapCaption(full)[..MaxCaption - 3] == full[..MaxCaption - 3] &&
      CapCaption(full)[MaxCaption - 3..] == Ellipsis
    ensures HasPrefix(full, title) && |title| <= MaxCaption - 3 ==> HasPrefix(CapCaption(full), title)
  {
    var c := CapCaption(full);
    if |full| > MaxCaption && HasPrefix(full, title) && |title| <= MaxCaption - 3 {
      assert c[..|title|] == full[..MaxCaption - 3][..|title|];
    }
  }

  lemma FullCaptionStartsWithTitle(title: Str, desc: Str, compressed: bool)
    ensures HasPrefix(FullCaption(title, desc, compressed), title)
  {
    var full := FullCaption(title, desc, compressed);
    assert full == title + (full[|title|..]);
  }

  /**
    The caption, built by successive reassignment as the source does. It never
    exceeds 1024 bytes; a caption that fits is left whole; a longer one keeps
    its first 1021 bytes and ends in "..."; a title that fits opens it.
   */
  method BuildCaption(title: Str, desc: Str, compressed: bool) returns (caption: Str)
    ensures caption == CapCaption(FullCaption(title, desc, compressed))
    ensures |caption| <= MaxCaption
    ensures |FullCaption(title, desc, compressed)| <= MaxCaption ==> caption == FullCaption(title, desc, compressed)
    ensures |FullCaption(title, desc, compressed)| > MaxCaption ==>
      |caption| == MaxCaption && caption[..MaxCaption - 3] == FullCaption(title, desc, compressed)[..MaxCaption - 3] &&
      caption[MaxCaption - 3..] == Ellipsis
    ensures |title| <= MaxCaption - 3 ==> HasPrefix(caption, title)
  {
    caption := title;
    if desc != [] {
      var d := desc;
      if |d| > MaxDescription {
        d := d[..MaxDescription] + Ellipsis;
      }
      caption := caption + (Paragraph + d);
    }
    assert caption == title + (if desc != [] then Paragraph + ShortDescription(desc) else []);
    if compressed {
      caption := caption + (Paragraph + CompressedNote);
    }
    ghost var full := caption;
    assert full == FullCaption(title, desc, compressed);
    FullCaptionStartsWithTitle(title, desc, compressed);
    CapCaptionFacts(full, title);
    if |caption| > MaxCaption {
      caption := caption[..MaxCaption - 3] + Ellipsis;
    }
    assert caption == CapCaption(full);
  }

  /**
    The keyboard round trip: a button built from an extracted id and a
    "<h>p" label routes back to this handler and parses to that id and label.
   */
  lemma KeyboardRoundTrip(text: Str, h: int)
    requires ExtractYouTubeID(text) != []
    ensures var data := CallbackData(ExtractYouTubeID(text), Downloader.QualityLabel(h));
      CanHandle(Telegram.Update(None, Some(Telegram.CallbackQuery([], Telegram.TgUser(0, [], [], [], []), 0, 0, data)))) &&
      ParseCallbackData(data) == Some((ExtractYouTubeID(text), Downloader.QualityLabel(h)))
  {
    var id, q := ExtractYouTubeID(text), Downloader.QualityLabel(h);
    ExtractSpec(text);
    QualityLabelColonFree(h);
    CallbackRoundTrip(id, q);
    assert CallbackData(id, q)[..3] == YtPrefix;
  }

  // ---------------------------------------------------------------------------
  // The handler

  const YouTubeCommand: Str := [121, 111, 117, 116, 117, 98, 101]   // "youtube"
  const RecordUrlPrefix: Str := [104, 116, 116, 112, 115, 58, 47, 47] + WatchPath   // "https://youtube.com/watch?v="

  /** Which notice a rejected file gets, or none when it is sent. */
  function RejectNotice(size: int, compressed: bool): Option<Notice>
  {
    match SizeVerdict(size, compressed)
    case Deliver => None
    case RejectTooLarge => Some(TooLargeForTelegram(size))
    case RejectCompressed => Some(CompressionFailed(size))
  }

  /** The download succeeded, `os.Stat` worked and the size gate lets the file through. */
  predicate Delivers(w: World)
  {
    w.download.Success? && w.fileSize.Some? && SizeVerdict(w.fileSize.value, w.download.value.compressed) == Deliver
  }

  /**
    The effects after a successful download: removal of the file last and
    only there; a failed `os.Stat` or a rejected size reported with its
    notice; otherwise the upload action, the document with the capped
    caption, then deletion of the keyboard message or the send failure.
   */
  ghost predicate AfterDownloadShape(cb: Telegram.CallbackQuery, w: World, tail: seq<Effect>)
    requires w.download.Success?
  {
    var info := w.download.value;
    |tail| >= 2 && tail[|tail| - 1] == RemoveFile(info.filePath) &&
    (forall i | 0 <= i < |tail| - 1 :: !tail[i].RemoveFile?) &&
    (w.fileSize.None? ==> tail == [EditMessage(cb.chatId, cb.messageId, FileCheckFailed), RemoveFile(info.filePath)]) &&
    (w.fileSize.Some? && RejectNotice(w.fileSize.value, info.compressed).Some? ==>
      tail == [EditMessage(cb.chatId, cb.messageId, RejectNotice(w.fileSize.value, info.compressed).value), RemoveFile(info.filePath)]) &&
    (!Delivers(w) ==> forall i | 0 <= i < |tail| :: !tail[i].SendDocument?) &&
    (Delivers(w) ==>
      |tail| == 4 && tail[0] == SendChatAction(cb.chatId, UploadDocument) &&
      tail[1].SendDocument? && tail[1].chatId == cb.chatId && tail[1].path == info.filePath &&
      tail[1].caption == CapCaption(FullCaption(info.title, info.description, info.compressed)) &&
      tail[2] == (if w.sendOk then DeleteMessage(cb.chatId, cb.messageId) else EditMessage(cb.chatId, cb.messageId, SendFailed)))
  }

  /**
    The download store gains a row exactly when the document was sent, the
    sender is read back as a known user and the write succeeds; the row holds the video,
    its canonical watch URL, the quality, the title and the file size.
   */
  ghost predicate RecordedAfterSend(cb: Telegram.CallbackQuery, videoId: Str, quality: Str, w: World,
                                    users: map<int, Models.User>, before: seq<Models.VideoDownload>, after: seq<Models.VideoDownload>)
    requires w.download.Success?
  {
    (after != before <==> Delivers(w) && w.sendOk && !w.readFails && cb.from.id in users && !w.recordFails) &&
    (after != before ==>
      after == before + [Models.VideoDownload(|before| + 1, users[cb.from.id].id, videoId, RecordUrlPrefix + videoId,
        w.download.value.title, quality, w.download.value.compressed, w.fileSize.value, w.now)])
  }

  /**
    The replies to a link message: "typing", then the downloader's error, or
    the keyboard with one button per format (its description over
    `yt:<id>:<quality>`, which parses back when the quality is colon-free)
    followed by deletion of the link message.
   */
  ghost predicate KeyboardReply(msg: Telegram.Message, w: World, reply: seq<Effect>)
  {
    |reply| >= 2 && reply[0] == SendChatAction(msg.chatId, Typing) &&
    (w.formats.Failure? ==> reply == [SendChatAction(msg.chatId, Typing), SendError(msg.chatId, w.formats.error)]) &&
    (w.formats.Success? ==>
      |reply| == 3 && reply[1].SendQualityKeyboard? && reply[1].chatId == msg.chatId &&
      reply[2] == DeleteMessage(msg.chatId, msg.messageId) &&
      |reply[1].buttons| == |w.formats.value| &&
      forall i | 0 <= i < |reply[1].buttons| ::
        reply[1].buttons[i] == Button(w.formats.value[i].description, CallbackData(ExtractYouTubeID(msg.text), w.formats.value[i].quality)) &&
        (Free(w.formats.value[i].quality, Colon) ==>
          ParseCallbackData(reply[1].buttons[i].callbackData) == Some((ExtractYouTubeID(msg.text), w.formats.value[i].quality))))
  }

  /**
    What `handleCallback` does with the callback `cb` (`users` is the users
    table, `before` and `after` the download table around the call): nothing
    for malformed data; otherwise the answer, the "downloading" edit and the
    upload action, then either the failure report with no row stored, or the
    delivery of `AfterDownloadShape` with the row of `RecordedAfterSend`. The
    file is removed only after a successful download.
   */
  ghost predicate CallbackOutcome(cb: Telegram.CallbackQuery, w: World, users: map<int, Models.User>,
                                  before: seq<Models.VideoDownload>, after: seq<Models.VideoDownload>, effects: seq<Effect>)
  {
    (ParseCallbackData(cb.data).None? ==> effects == [] && after == before) &&
    (ParseCallbackData(cb.data).Some? ==>
      var (videoId, quality) := ParseCallbackData(cb.data).value;
      |effects| >= 4 &&
      effects[..3] == [AnswerCallback(cb.id, quality), EditMessage(cb.chatId, cb.messageId, Downloading(quality)),
                       SendChatAction(cb.chatId, UploadVideo)] &&
      (w.download.Failure? ==>
        effects[3..] == [EditMessage(cb.chatId, cb.messageId, DownloadFailed(w.download.error))] && after == before) &&
      (w.download.Success? ==>
        AfterDownloadShape(cb, w, effects[3..]) && RecordedAfterSend(cb, videoId, quality, w, users, before, after))) &&
    (forall i | 0 <= i < |effects| :: effects[i].RemoveFile? ==> w.download.Success?)
  }

  class YouTubeHandler {
    const userRepo: UserRepository.UserRepository
    const statsRepo: StatsRepository.StatsRepository
    const videoRepo: VideoRepository.VideoRepository

    ghost predicate Valid()
      reads this, userRepo, statsRepo, videoRepo
    {
      userRepo.Valid() && statsRepo.Valid() && videoRepo.Valid()
    }

    constructor (userRepo: UserRepository.UserRepository, statsRepo: StatsRepository.StatsRepository,
                 videoRepo: VideoRepository.VideoRepository)
      ensures this.userRepo == userRepo && this.statsRepo == statsRepo && this.videoRepo == videoRepo
    {
      this.userRepo := userRepo;
      this.statsRepo := statsRepo;
      this.videoRepo := videoRepo;
    }

    /**
      `Handle` for a message: store the sender and record the "youtube"
      command when the upsert returned a user, then show "typing", then either
      report the downloader's error or offer one button per format and delete
      the user's link message. The store calls precede every reply.
     */
    method HandleMessage(msg: Telegram.Message, w: World) returns (effects: seq<Effect>)
      requires Valid()
      modifies userRepo, statsRepo
      ensures Valid()
      ensures StoreOutcome(msg.from, YouTubeCommand, w,
        old(userRepo.users), old(userRepo.lastId), old(statsRepo.rows), userRepo.users, userRepo.lastId, statsRepo.rows)
      ensures var pre := StoreEffects(msg.from, YouTubeCommand, w, userRepo.users);
        |effects| >= |pre| && effects[..|pre|] == pre && KeyboardReply(msg, w, effects[|pre|..])
    {
      var videoId := ExtractYouTubeID(msg.text);
      ExtractSpec(msg.text);
      effects := [];
      if msg.from.Some? {
        effects := [StoreUser(msg.from.value.id)];
      }
      var user := userRepo.UpsertFromTelegram(msg.from, w.now, w.upsertFails, w.readFails);
      if user.Success? {
        effects := effects + [StoreCommand(user.value.id, YouTubeCommand)];
        var _ := statsRepo.RecordCommand(user.value.id, YouTubeCommand, w.now, w.recordFails);
      }
      ghost var pre := effects;
      assert pre == StoreEffects(msg.from, YouTubeCommand, w, userRepo.users);
      var reply := [SendChatAction(msg.chatId, Typing)];
      if w.formats.Success? {
        var buttons := QualityButtons(videoId, w.formats.value);
        reply := reply + [SendQualityKeyboard(msg.chatId, buttons), DeleteMessage(msg.chatId, msg.messageId)];
      } else {
        reply := reply + [SendError(msg.chatId, w.formats.error)];
      }
      effects := effects + reply;
      assert effects[|pre|..] == reply;
    }

    /**
      `handleCallback`. Malformed data is dropped with no effect. Otherwise the
      download is announced and run; a failed download is reported and
      nothing else happens.
     */
    method HandleCallback(cb: Telegram.CallbackQuery, w: World) returns (effects: seq<Effect>)
      requires Valid()
      modifies videoRepo
      ensures Valid()
      ensures CallbackOutcome(cb, w, userRepo.users, old(videoRepo.rows), videoRepo.rows, effects)
    {
      var parsed := ParseCallbackData(cb.data);
      if parsed.None? {
        return [];
      }
      var (videoId, quality) := parsed.value;
      effects := [AnswerCallback(cb.id, quality), EditMessage(cb.chatId, cb.messageId, Downloading(quality)),
                  SendChatAction(cb.chatId, UploadVideo)];
      if w.download.Failure? {
        effects := effects + [EditMessage(cb.chatId, cb.messageId, DownloadFailed(w.download.error))];
        return;
      }
      var tail := AfterDownload(cb, videoId, quality, w.download.value, w);
      effects := effects + tail;
      assert effects[3..] == tail;
    }

    /**
      The part of `handleCallback` after a successful download, up to its
      deferred removal of the file. The removal is the last effect on every
      path and occurs nowhere else.
     */
    method AfterDownload(cb: Telegram.CallbackQuery, videoId: Str, quality: Str, info: Downloader.VideoInfo, w: World)
      returns (tail: seq<Effect>)
      requires Valid()
      requires w.download == Success(info)
      modifies videoRepo
      ensures Valid()
      ensures AfterDownloadShape(cb, w, tail)
      ensures RecordedAfterSend(cb, videoId, quality, w, userRepo.users, old(videoRepo.rows), videoRepo.rows)
    {
      // the deferred removal, appended on every return below
      var cleanup := [RemoveFile(info.filePath)];
      if w.fileSize.None? {
        return [EditMessage(cb.chatId, cb.messageId, FileCheckFailed)] + cleanup;
      }
      var size := w.fileSize.value;
      if size > MaxTelegramDocSize {
        return [EditMessage(cb.chatId, cb.messageId, TooLargeForTelegram(size))] + cleanup;
      }
      if info.compressed && size > MaxTelegramBotAPI {
        return [EditMessage(cb.chatId, cb.messageId, CompressionFailed(size))] + cleanup;
      }
      var caption := BuildCaption(info.title, info.description, info.compressed);
      tail := [SendChatAction(cb.chatId, UploadDocument), SendDocument(cb.chatId, info.filePath, caption)];
      if !w.sendOk {
        return tail + [EditMessage(cb.chatId, cb.messageId, SendFailed)] + cleanup;
      }
      var user := userRepo.GetByTelegramID(cb.from.id, w.readFails);
      if user.Success? && user.value.Some? {
        var download := Models.VideoDownload(0, user.value.value.id, videoId, RecordUrlPrefix + videoId,
          info.title, quality, info.compressed, size, w.now);
        var _ := videoRepo.RecordDownload(download, w.recordFails);
      }
      tail := tail + [DeleteMessage(cb.chatId, cb.messageId)] + cleanup;
    }

    /**
      `Handle`: a callback goes to `handleCallback`, anything else is a
      message (the source dereferences it, so the dispatcher only calls this
      for an update it accepted).
     */
    method Handle(update: Telegram.Update, w: World) returns (effects: seq<Effect>)
      requires Valid()
      requires update.callbackQuery.Some? || update.message.Some?
      modifies userRepo, statsRepo, videoRepo
      ensures Valid()
      ensures update.callbackQuery.Some? ==>
        userRepo.users == old(userRepo.users) && userRepo.lastId == old(userRepo.lastId) &&
        statsRepo.rows == old(statsRepo.rows) &&
        CallbackOutcome(update.callbackQuery.value, w, userRepo.users, old(videoRepo.rows), videoRepo.rows, effects)
      ensures update.callbackQuery.None? ==>
        videoRepo.rows == old(videoRepo.rows) &&
        StoreOutcome(update.message.value.from, YouTubeCommand, w,
          old(userRepo.users), old(userRepo.lastId), old(statsRepo.rows), userRepo.users, userRepo.lastId, statsRepo.rows) &&
        var pre := StoreEffects(update.message.value.from, YouTubeCommand, w, userRepo.users);
        |effects| >= |pre| && effects[..|pre|] == pre && KeyboardReply(update.message.value, w, effects[|pre|..])
    {
      if update.callbackQuery.Some? {
        effects := HandleCallback(update.callbackQuery.value, w);
        return;
      }
      effects := HandleMessage(update.message.value, w);
    }
  }
}
