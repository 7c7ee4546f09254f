/** The parts of a Telegram update the bot reads. */
module Telegram {
  import opened Wrappers
  import opened Bytes

  /** The sender of a message or callback. */
  datatype TgUser = TgUser(id: int, userName: Str, firstName: Str, lastName: Str, languageCode: Str)

  /** An incoming message; `command` is the bot command without the slash, when the text starts with one. */
  datatype Message = Message(messageId: int, chatId: int, from: Option<TgUser>, text: Str, command: Option<Str>)

  /** A press on an inline button; `chatId`/`messageId` locate the message that carried the keyboard. */
  datatype CallbackQuery = CallbackQuery(id: Str, from: TgUser, chatId: int, messageId: int, data: Str)

  datatype Update = Update(message: Option<Message>, callbackQuery: Option<CallbackQuery>)
}
