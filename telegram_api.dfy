/**
 * The fields of the Telegram Bot API objects that the core reads or fills.
 * The API classes themselves hold many more fields; only these take part in
 * routing and replying.
 */
module TelegramApi {
  import opened Wrappers

  /** Chat: only its identifier, used to address the reply. */
  datatype Chat = Chat(id: int)

  /** Message: only its (nullable) text. */
  datatype Message = Message(text: Option<string>)

  /** Update: only its (nullable) message. */
  datatype Update = Update(message: Option<Message>)

  /** The values of the ParseMode enumeration that the core produces. */
  datatype ParseMode = Markdown | Html

  /** The Telegram Bot API method name a SendMessage carries. */
  const METHOD_SENDMESSAGE: string := "sendMessage"

  /**
   * SendMessage with the fields it inherits from Send and SendText. Every
   * nullable field is an Option; `parseMode` holds the ParseMode whose text
   * form is sent.
   */
  datatype SendMessage = SendMessage(
    methodName: string,
    chatId: int,
    text: string,
    parseMode: Option<ParseMode>,
    disableNotification: Option<bool>,
    replyToMessageId: Option<string>,
    replyMarkup: Option<string>,
    disableWebPagePreview: Option<bool>)

  /** The bot configuration handed to Telegram handlers; the handlers modelled here never read it. */
  datatype TelegramBotConfiguration = TelegramBotConfiguration(name: string, token: string, atUsername: string)
}
