/**
  The outside world as the handlers see it: every Telegram call, store write
  and temporary-file removal a handler makes, in order. Fixed reply texts are
  named rather than spelled out.
 */
module Effects {
  import opened Bytes
  import Wrappers
  import Downloader
  import Telegram
  import Models
  import UserRepository

  datatype ChatAction = Typing | UploadVideo | UploadDocument

  /** One inline-keyboard button (one per row). */
  datatype Button = Button(text: Str, callbackData: Str)

  /** The texts the download flow writes into its status message. */
  datatype Notice =
    | Downloading(quality: Str)            // "⏳ Скачиваю видео в качестве <q>..."
    | DownloadFailed(error: Downloader.Error)
    | FileCheckFailed                      // "❌ Ошибка при проверке файла"
    | TooLargeForTelegram(size: int)       // "❌ Видео слишком большое ..."
    | CompressionFailed(size: int)         // "❌ Не удалось сжать видео до 50 МБ ..."
    | SendFailed                           // "❌ Не удалось отправить видео: ..."

  datatype Effect =
    | SendMessage(chatId: int, text: Str)
    | SendError(chatId: int, error: Downloader.Error)        // "❌ Ошибка: <error>"
    | SendChatAction(chatId: int, action: ChatAction)
    | SendQualityKeyboard(chatId: int, buttons: seq<Button>) // "🎬 Выберите качество видео:"
    | DeleteMessage(chatId: int, messageId: int)
    | AnswerCallback(callbackId: Str, quality: Str)          // "Скачиваю <q>..."
    | EditMessage(chatId: int, messageId: int, notice: Notice)
    | SendDocument(chatId: int, path: Str, caption: Str)
    | RemoveFile(path: Str)
    | StoreUser(telegramUserId: int)                         // the users upsert is issued
    | StoreCommand(userId: int, command: Str)                // the command_stats INSERT is issued

  /**
    What the outside world answers during one update: the clock, whether each
    store write fails, whether the user read-back fails, what the downloader
    returns, what `os.Stat` reports for the downloaded file, and whether
    Telegram accepts the document.
   */
  datatype World = World(
    now: int,
    upsertFails: bool,
    recordFails: bool,
    readFails: bool,
    formats: Wrappers.Result<seq<Downloader.VideoFormat>, Downloader.Error>,
    download: Wrappers.Result<Downloader.VideoInfo, Downloader.Error>,
    fileSize: Wrappers.Option<int>,
    sendOk: bool)

  /**
    The store calls a message handler makes before it replies: the upsert of
    the sender (a missing sender never reaches the database), then the
    command record, issued only when the upsert returned a user. `users` is
    the table after the upsert.
   */
  function StoreEffects(from: Wrappers.Option<Telegram.TgUser>, command: Str, w: World,
                        users: map<int, Models.User>): seq<Effect>
  {
    if from.None? then []
    else if !w.upsertFails && !w.readFails && from.value.id in users then
      [StoreUser(from.value.id), StoreCommand(users[from.value.id].id, command)]
    else [StoreUser(from.value.id)]
  }

  /**
    The tables after a message handler's store calls for the sender `from`
    (`users0`, `lastId0`, `rows0` before, `users`, `lastId`, `rows` after):
    nothing changes when there is no sender or the upsert write fails;
    otherwise the users table is upserted, the AUTOINCREMENT counter advances
    exactly when the Telegram id was new, and one command row for the stored
    user is added unless the read-back or the command write fails.
   */
  ghost predicate StoreOutcome(from: Wrappers.Option<Telegram.TgUser>, command: Str, w: World,
                               users0: map<int, Models.User>, lastId0: int, rows0: seq<Models.CommandStat>,
                               users: map<int, Models.User>, lastId: int, rows: seq<Models.CommandStat>)
  {
    (from.Some? && !w.upsertFails ==>
      users == UserRepository.Upserted(users0, lastId0, from.value, w.now) &&
      lastId == UserRepository.NextLastId(users0, lastId0, from.value) &&
      rows == rows0 +
        (if w.readFails || w.recordFails then []
         else [Models.CommandStat(|rows0| + 1, users[from.value.id].id, command, w.now)])) &&
    (from.None? || w.upsertFails ==> users == users0 && lastId == lastId0 && rows == rows0)
  }
}
