/**
 * Reply construction for Telegram: the `sendMessage` payload built by
 * SendMessageUtils, and the parse mode ParseModeUtils derives from the file
 * extension of a static command text.
 */
module SendMessages {
  import opened Wrappers
  import opened TelegramApi
  import Config = ChatbotsConfiguration

  /** compose(Chat, text, parseMode): a fresh SendMessage addressed to the chat. */
  function ComposeForChat(space: Chat, text: string, parseMode: Option<ParseMode>): (m: SendMessage)
    ensures m.methodName == METHOD_SENDMESSAGE
    ensures m.chatId == space.id && m.text == text && m.parseMode == parseMode
    ensures m.disableNotification.None? && m.replyToMessageId.None?
    ensures m.replyMarkup.None? && m.disableWebPagePreview.None?
  {
    SendMessage(METHOD_SENDMESSAGE, space.id, text, parseMode, None, None, None, None)
  }

  /** compose(spaceParser, update, text, parseMode): the chat the update came from, if any, gets the message. */
  function Compose(spaceParser: Update -> Option<Chat>, update: Update, text: string,
                   parseMode: Option<ParseMode>): (r: Option<SendMessage>)
    ensures r.Some? <==> spaceParser(update).Some?
    ensures r.Some? ==> r.value.chatId == spaceParser(update).value.id && r.value.text == text &&
                        r.value.parseMode == parseMode && r.value.methodName == METHOD_SENDMESSAGE
  {
    match spaceParser(update)
    case None => None
    case Some(space) => Some(ComposeForChat(space, text, parseMode))
  }

  /** compose(spaceParser, update, text): the four-argument form with no parse mode. */
  function ComposeText(spaceParser: Update -> Option<Chat>, update: Update, text: string): (r: Option<SendMessage>)
    ensures r.Some? <==> spaceParser(update).Some?
    ensures r.Some? ==> r.value.parseMode.None? && r.value.text == text
  {
    Compose(spaceParser, update, text, None)
  }

  /** parseModeOfFileExtension: HTML for HTML files, Markdown for everything else. */
  function ParseModeOfFileExtension(fileExtension: Config.FileExtension): (r: Option<ParseMode>)
    ensures r.Some?
    ensures r == Some(Html) <==> fileExtension == Config.Html
    ensures r == Some(Markdown) <==> fileExtension != Config.Html
  {
    if fileExtension == Config.Html then Some(Html) else Some(Markdown)
  }

  /** The payload carries everything it was built from: distinct inputs give distinct messages. */
  lemma ComposeForChatKeepsItsInputs(space1: Chat, text1: string, mode1: Option<ParseMode>,
                                     space2: Chat, text2: string, mode2: Option<ParseMode>)
    ensures ComposeForChat(space1, text1, mode1) == ComposeForChat(space2, text2, mode2) <==>
      space1.id == space2.id && text1 == text2 && mode1 == mode2
  {
  }

  /** A message is composed for an update exactly when one is composed for its chat directly. */
  lemma ComposeIsComposeForParsedChat(spaceParser: Update -> Option<Chat>, update: Update, text: string,
                                      parseMode: Option<ParseMode>, space: Chat)
    requires spaceParser(update) == Some(space)
    ensures Compose(spaceParser, update, text, parseMode) == Some(ComposeForChat(space, text, parseMode))
  {
  }

  /** The three-argument compose is the four-argument one with a null parse mode. */
  lemma ComposeTextHasNoParseMode(spaceParser: Update -> Option<Chat>, update: Update, text: string)
    ensures ComposeText(spaceParser, update, text) == Compose(spaceParser, update, text, None)
  {
  }

  /** Markdown and plain-text files are both sent as Markdown. */
  lemma ParseModeOfNonHtmlIsMarkdown()
    ensures ParseModeOfFileExtension(Config.Markdown) == Some(Markdown)
    ensures ParseModeOfFileExtension(Config.Txt) == Some(Markdown)
    ensures ParseModeOfFileExtension(Config.Html) == Some(Html)
  {
  }
}
