/**
 * CommandHandler: the Telegram handler that answers a slash command with a
 * static text. `canHandle` is a prefix test of the parsed command against
 * `getCommand()`; `handle` parses the command, asks the text resource loader
 * for it, finds the chat the update came from and builds the reply.
 */
module TelegramCommands {
  import opened Wrappers
  import opened JavaStrings
  import opened TelegramApi
  import opened SlashCommand
  import opened SendMessages
  import Dispatch
  import TextResources
  import Config = ChatbotsConfiguration

  /** The order every command handler reports. */
  const COMMAND_ORDER: int := -10

  /**
   * A concrete command handler: its `getCommand()`, the text resource
   * loader's `composeCommandResponse`, and the space parser that finds the
   * chat of an update.
   */
  datatype CommandHandler = CommandHandler(
    command: string,
    loader: string -> Option<TextResources.CommandResponse>,
    spaceParser: Update -> Option<Chat>)
  {
    /** canHandle: the parsed command starts with `command`; the bot is not consulted. */
    function CanHandle(bot: Option<TelegramBotConfiguration>, input: Update): (r: bool)
      ensures r ==> input.message.Some? && input.message.value.text.Some? && '/' in input.message.value.text.value
      ensures r ==> |command| <= |Parse(input).value|
      ensures r <==> Parse(input).Some? && StartsWith(Parse(input).value, command)
    {
      match Parse(input)
      case None => false
      case Some(parsed) => StartsWith(parsed, command)
    }

    /** handle: parse, load, find the chat, build the reply in the loaded file's parse mode. */
    function Handle(bot: Option<TelegramBotConfiguration>, input: Update): (r: Option<SendMessage>)
      ensures Parse(input).None? ==> r.None?
      ensures Parse(input).Some? && loader(Parse(input).value).None? ==> r.None?
      ensures spaceParser(input).None? ==> r.None?
      ensures r.Some? ==>
        var response := loader(Parse(input).value).value;
        && r.value.text == response.text
        && r.value.parseMode == ParseModeOfFileExtension(response.extension)
        && r.value.chatId == spaceParser(input).value.id
        && r.value.methodName == METHOD_SENDMESSAGE
    {
      match Parse(input)
      case None => None
      case Some(parsed) =>
        match loader(parsed)
        case None => None
        case Some(response) =>
          Compose(spaceParser, input, response.text, ParseModeOfFileExtension(response.extension))
    }

    /** getOrder. */
    function GetOrder(): (o: int)
      ensures o == COMMAND_ORDER && o < 0
    {
      COMMAND_ORDER
    }

    /** The handler as the dispatcher sees it. */
    function AsHandler(): (h: Dispatch.Handler<TelegramBotConfiguration, Update, SendMessage>)
      ensures h.order == GetOrder()
      ensures forall bot, input :: h.canHandle(bot, input) == CanHandle(bot, input)
      ensures forall bot, input :: h.handle(bot, input) == Handle(bot, input)
    {
      Dispatch.Handler((bot, input) => CanHandle(bot, input), (bot, input) => Handle(bot, input), GetOrder())
    }
  }

  /**
   * For text whose first '/' is at `i` and which has no '@' after it, the
   * handler accepts exactly when the text from the '/' on starts with its
   * command: arguments after the command do not stop the match, and neither
   * does a longer command ("/aboutus" is accepted by "/about").
   */
  lemma CanHandleIsPrefixTest(h: CommandHandler, bot: Option<TelegramBotConfiguration>, text: string, i: nat)
    requires i < |text| && text[i] == '/' && '/' !in text[..i] && '@' !in text[i..]
    ensures h.CanHandle(bot, UpdateWithText(text)) <==> StartsWith(text[i..], h.command)
  {
    IndexOfIsFirst(text, '/', i);
    assert IndexOf(text[i..], '@') == -1;
  }

  /**
   * A slash command extended by more characters is still accepted by the
   * shorter command, also when a bot mention follows: the parser cuts at the
   * first '@', which lies past the command.
   */
  lemma CanHandleAcceptsLongerCommand(h: CommandHandler, bot: Option<TelegramBotConfiguration>, rest: string)
    requires |h.command| > 0 && h.command[0] == '/' && '@' !in h.command
    ensures h.CanHandle(bot, UpdateWithText(h.command + rest))
  {
    var text := h.command + rest;
    if '@' in text {
      var i := IndexOf(text, '@');
      forall j | 0 <= j < |h.command| ensures text[j] != '@' {
        assert text[j] == h.command[j];
      }
      ParseStripsMention(text, i);
      assert text[..i][..|h.command|] == h.command;
    } else {
      ParseKeepsWholeCommandWithoutMention(text);
      assert text[..|h.command|] == h.command;
    }
  }

  /**
   * Text before the '/' of a mentioned command is never accepted: the parsed
   * command is cut from the start of the text, so it does not start with '/'
   * ("hi /about@bot" parses to "hi /ab").
   */
  lemma CanHandleRejectsMentionAfterLeadingText(h: CommandHandler, bot: Option<TelegramBotConfiguration>,
                                                 lead: string, name: string, rest: string)
    requires |h.command| > 0 && h.command[0] == '/'
    requires |lead| > 0 && '/' !in lead && '@' !in name
    ensures !h.CanHandle(bot, UpdateWithText(lead + "/" + name + "@" + rest))
  {
    ParseMentionAfterLeadingText(lead, name, rest);
  }

  /** Updates without a message, or without a slash, are never accepted. */
  lemma CanHandleNeedsASlash(h: CommandHandler, bot: Option<TelegramBotConfiguration>, text: string)
    requires '/' !in text
    ensures !h.CanHandle(bot, UpdateWithText(text))
    ensures !h.CanHandle(bot, Update(None))
    ensures !h.CanHandle(bot, Update(Some(Message(None))))
  {
  }

  /** Neither canHandle nor handle depends on the bot configuration. */
  lemma HandlerIgnoresBot(h: CommandHandler, bot1: Option<TelegramBotConfiguration>,
                          bot2: Option<TelegramBotConfiguration>, input: Update)
    ensures h.CanHandle(bot1, input) == h.CanHandle(bot2, input)
    ensures h.Handle(bot1, input) == h.Handle(bot2, input)
  {
  }

  /**
   * handle looks up the whole parsed command, leading '/' and any arguments
   * included, and not `getCommand()`: for text starting with '/' and free of
   * '@' the loader is asked for the text itself.
   */
  lemma HandleLooksUpParsedCommand(h: CommandHandler, bot: Option<TelegramBotConfiguration>, text: string)
    requires |text| > 0 && text[0] == '/' && '@' !in text
    ensures var input := UpdateWithText(text);
      h.Handle(bot, input) ==
        match h.loader(text)
        case None => None
        case Some(response) =>
          Compose(h.spaceParser, input, response.text, ParseModeOfFileExtension(response.extension))
  {
    ParseKeepsWholeCommandWithoutMention(text);
  }

  /** A reply is produced exactly when a command is parsed, has a text, and the chat is known. */
  lemma HandleAnswersWhenEveryStepSucceeds(h: CommandHandler, bot: Option<TelegramBotConfiguration>, input: Update)
    ensures h.Handle(bot, input).Some? <==>
      Parse(input).Some? && h.loader(Parse(input).value).Some? && h.spaceParser(input).Some?
  {
  }

  /** The loader a DefaultTextResourceLoader over the given configuration and resources amounts to. */
  function DefaultLoader(folder: string, fileExtensions: Option<seq<Config.FileExtension>>,
                         extensionsOf: Config.FileExtension -> seq<string>,
                         resource: string -> Option<string>): string -> Option<TextResources.CommandResponse>
  {
    command => TextResources.Compose(Some(folder), fileExtensions, extensionsOf, TextResources.TextsOf(resource), command)
  }

  /**
   * With the default loader, a reply is sent in HTML mode exactly when the
   * first non-empty candidate of the command was found under the HTML file
   * extension, and it is never empty.
   */
  lemma DefaultLoaderReplies(h: CommandHandler, bot: Option<TelegramBotConfiguration>, input: Update,
                             folder: string, fileExtensions: Option<seq<Config.FileExtension>>,
                             extensionsOf: Config.FileExtension -> seq<string>,
                             resource: string -> Option<string>)
    requires h.loader == DefaultLoader(folder, fileExtensions, extensionsOf, resource)
    ensures fileExtensions.None? ==> h.Handle(bot, input).None?
    ensures h.Handle(bot, input).Some? ==>
      var response := TextResources.Compose(Some(folder), fileExtensions, extensionsOf, TextResources.TextsOf(resource), Parse(input).value).value;
      && h.Handle(bot, input).value.text == response.text != ""
      && (h.Handle(bot, input).value.parseMode == Some(Html) <==> response.extension == Config.Html)
  {
    var r := h.Handle(bot, input);
    if r.Some? {
      TextResources.ComposeSpec(Some(folder), fileExtensions, extensionsOf, TextResources.TextsOf(resource), Parse(input).value);
      var response := TextResources.Compose(Some(folder), fileExtensions, extensionsOf, TextResources.TextsOf(resource), Parse(input).value).value;
      assert h.loader(Parse(input).value).value == response;
    }
  }
}
