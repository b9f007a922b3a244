/**
 * The Telegram test suite's bot: a static "/about"-style command handler,
 * HelloWorldHandler and the catch-all UnknownCommandHandler, dispatched by
 * DefaultDispatcher in the order the container sorts them. The lemmas are the
 * suite's scenarios, stated for every input of the shape each test uses.
 */
module TelegramScenarios {
  import opened Wrappers
  import opened JavaStrings
  import opened TelegramApi
  import opened SlashCommand
  import opened SendMessages
  import opened Dispatch
  import opened TelegramCommands

  /** The order of a handler that does not override getOrder (assumed Ordered's default). */
  const DEFAULT_ORDER: int := 0

  /** Ordered.LOWEST_PRECEDENCE (assumed Integer.MAX_VALUE). */
  const LOWEST_PRECEDENCE: int := 0x7fff_ffff

  const HELLO: string := "hello"
  const HELLO_REPLY: string := "Hello World"
  const UNKNOWN_PREFIX: string := "I don't how to handle your query: "

  /** HelloWorldHandler.canHandle: the message text contains "hello". */
  function HelloCanHandle(bot: Option<TelegramBotConfiguration>, input: Update): (r: bool)
    ensures r ==> input.message.Some? && input.message.value.text.Some?
    ensures r <==> input.message.Some? && input.message.value.text.Some? &&
                   exists i: nat :: OccursAt(input.message.value.text.value, HELLO, i)
  {
    match input.message
    case None => false
    case Some(message) =>
      match message.text
      case None => false
      case Some(text) => Contains(text, HELLO)
  }

  function HelloWorldHandler(spaceParser: Update -> Option<Chat>): (h: Handler<TelegramBotConfiguration, Update, SendMessage>)
    ensures h.order == DEFAULT_ORDER
    ensures forall bot, input :: h.canHandle(bot, input) == HelloCanHandle(bot, input)
    ensures forall bot, input :: h.handle(bot, input) == ComposeText(spaceParser, input, HELLO_REPLY)
  {
    Handler((bot, input) => HelloCanHandle(bot, input),
            (bot, input) => ComposeText(spaceParser, input, HELLO_REPLY),
            DEFAULT_ORDER)
  }

  /** The catch-all's reply: the fixed prefix and the message text ("null" when there is none). */
  function UnknownReply(input: Update): (r: string)
    ensures StartsWith(r, UNKNOWN_PREFIX)
    ensures input.message.Some? && input.message.value.text.Some? ==>
      r[|UNKNOWN_PREFIX|..] == input.message.value.text.value
  {
    var text := if input.message.Some? && input.message.value.text.Some? then input.message.value.text.value else "null";
    var r := UNKNOWN_PREFIX + text;
    assert r[..|UNKNOWN_PREFIX|] == UNKNOWN_PREFIX;
    assert r[|UNKNOWN_PREFIX|..] == text;
    r
  }

  function UnknownCommandHandler(spaceParser: Update -> Option<Chat>): (h: Handler<TelegramBotConfiguration, Update, SendMessage>)
    ensures h.order == LOWEST_PRECEDENCE
    ensures forall bot, input :: h.canHandle(bot, input)
    ensures forall bot, input :: h.handle(bot, input) == ComposeText(spaceParser, input, UnknownReply(input))
  {
    Handler((bot, input) => true,
            (bot, input) => ComposeText(spaceParser, input, UnknownReply(input)),
            LOWEST_PRECEDENCE)
  }

  /** The suite's dispatcher, with its handlers in the order the container sorts them. */
  function SuiteDispatcher(about: CommandHandler, spaceParser: Update -> Option<Chat>): (d: DefaultDispatcher<TelegramBotConfiguration, Update, SendMessage>)
    ensures |d.handlers| == 3
  {
    DefaultDispatcher([about.AsHandler(), HelloWorldHandler(spaceParser), UnknownCommandHandler(spaceParser)])
  }

  /** The list is sorted by getOrder: command handler, then HelloWorldHandler, then the catch-all. */
  lemma SuiteHandlersAreSorted(about: CommandHandler, spaceParser: Update -> Option<Chat>)
    ensures SortedByOrder(SuiteDispatcher(about, spaceParser).handlers)
  {
    var hs := SuiteDispatcher(about, spaceParser).handlers;
    assert hs[0].order == COMMAND_ORDER && hs[1].order == DEFAULT_ORDER && hs[2].order == LOWEST_PRECEDENCE;
  }

  /** Text without an 'h' cannot contain "hello". */
  lemma NoHelloWithoutH(text: string)
    requires 'h' !in text
    ensures !Contains(text, HELLO)
  {
    if exists i: nat :: OccursAt(text, HELLO, i) {
      var i: nat :| OccursAt(text, HELLO, i);
      assert text[i..i + |HELLO|][0] == 'h';
    }
  }

  /**
   * unknownCommandHandlerExists: plain text that is neither a command nor a
   * greeting is answered by the catch-all, quoting the text.
   */
  lemma PlainTextGoesToCatchAll(about: CommandHandler, spaceParser: Update -> Option<Chat>, text: string)
    requires '/' !in text && !Contains(text, HELLO)
    ensures var input := UpdateWithText(text);
      SuiteDispatcher(about, spaceParser).Dispatch(None, input) ==
        ComposeText(spaceParser, input, UNKNOWN_PREFIX + text)
  {
    var input := UpdateWithText(text);
    var d := SuiteDispatcher(about, spaceParser);
    CanHandleNeedsASlash(about, None, text);
    assert !d.handlers[0].canHandle(None, input);
    assert !d.handlers[1].canHandle(None, input);
    CatchAllAnswersTheRest(d, None, input);
  }

  const SOME_TEXT: string := "some text"

  /** The suite's "some text" message is neither a command nor a greeting. */
  lemma SomeTextIsPlain()
    ensures '/' !in SOME_TEXT && 'h' !in SOME_TEXT
    ensures UNKNOWN_PREFIX + SOME_TEXT == "I don't how to handle your query: some text"
  {
    forall k | 0 <= k < |SOME_TEXT| ensures SOME_TEXT[k] != '/' && SOME_TEXT[k] != 'h' {
    }
  }

  /** The suite's "some text" message gets "I don't how to handle your query: some text". */
  lemma SomeTextScenario(about: CommandHandler, spaceParser: Update -> Option<Chat>, chat: Chat)
    requires spaceParser(UpdateWithText(SOME_TEXT)) == Some(chat)
    ensures var reply := SuiteDispatcher(about, spaceParser).Dispatch(None, UpdateWithText(SOME_TEXT));
      reply.Some? && reply.value.text == "I don't how to handle your query: some text" && reply.value.chatId == chat.id
  {
    SomeTextIsPlain();
    NoHelloWithoutH(SOME_TEXT);
    PlainTextGoesToCatchAll(about, spaceParser, SOME_TEXT);
  }

  /** helloCommandHandlerExists: a greeting that is not a command is answered "Hello World". */
  lemma GreetingGetsHelloWorld(about: CommandHandler, spaceParser: Update -> Option<Chat>, before: string, after: string)
    requires '/' !in before + HELLO + after
    ensures var input := UpdateWithText(before + HELLO + after);
      SuiteDispatcher(about, spaceParser).Dispatch(None, input) == ComposeText(spaceParser, input, HELLO_REPLY)
  {
    var text := before + HELLO + after;
    var input := UpdateWithText(text);
    var d := SuiteDispatcher(about, spaceParser);
    CanHandleNeedsASlash(about, None, text);
    assert text[|before|..|before| + |HELLO|] == HELLO;
    assert OccursAt(text, HELLO, |before|);
    assert IsFirstMatch(d.handlers, None, input, 1);
    DispatchIsFirstMatch(d, None, input, 1);
  }

  /**
   * aboutCommandHandlerExists: a message that starts with the command handler's
   * command, with or without a bot mention after it, is answered by that
   * handler alone, with the text its loader finds for the parsed command
   * (the whole message when it has no '@'); when the loader finds nothing the
   * answer is empty, although the catch-all would have answered.
   */
  lemma CommandGoesToCommandHandler(about: CommandHandler, spaceParser: Update -> Option<Chat>, rest: string)
    requires |about.command| > 0 && about.command[0] == '/' && '@' !in about.command
    ensures var input := UpdateWithText(about.command + rest);
      SuiteDispatcher(about, spaceParser).Dispatch(None, input) == about.Handle(None, input)
    ensures var input := UpdateWithText(about.command + rest);
      Parse(input).Some? && about.loader(Parse(input).value).None? ==>
        SuiteDispatcher(about, spaceParser).Dispatch(None, input) == None
    ensures '@' !in rest && about.loader(about.command + rest).None? ==>
      SuiteDispatcher(about, spaceParser).Dispatch(None, UpdateWithText(about.command + rest)) == None
  {
    var text := about.command + rest;
    var input := UpdateWithText(text);
    var d := SuiteDispatcher(about, spaceParser);
    CanHandleAcceptsLongerCommand(about, None, rest);
    assert IsFirstMatch(d.handlers, None, input, 0);
    DispatchIsFirstMatch(d, None, input, 0);
    if '@' !in rest {
      HandleLooksUpParsedCommand(about, None, text);
    }
  }
}
