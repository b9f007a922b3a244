# micronaut-chatbots: routing and reply core in Dafny

This project models the part of micronaut-chatbots that sits between a decoded inbound chat message and the reply the bot sends back. It then proves what that part promises.

- **Dispatch.** `DefaultDispatcher.dispatch` walks a fixed list of handlers. It answers with the `handle` of the first handler whose `canHandle` accepts, and never falls through to a later one.
- **Slash commands.** `TelegramSlashCommandPaser` extracts the slash command from a Telegram update's message text.
- **Static command replies.** `CommandHandler` answers a slash command with a static text.
  - `DefaultTextResourceLoader` finds that text. It tries folder/command/extension candidates in order, through a path-to-text cache.
  - `SendMessageUtils` and `ParseModeUtils` turn the text into a `sendMessage` payload addressed to the chat.
- **Configuration.** `ChatbotsConfigurationProperties` and `ControllerConfigurationProperties` have setters that ignore null or empty strings.
- **Basecamp validation.** `BasecampUserAgentValidator` accepts a Basecamp webhook only when its User-Agent contains "Basecamp". The Basecamp Lambda handler applies the same rule.
- **Telegram test suite.** Its handlers (HelloWorldHandler, UnknownCommandHandler) and its three scenarios are stated as lemmas over the dispatcher.

## How the entities are modelled

| Java | Dafny |
|---|---|
| `String` | `seq<char>` |
| `null` | `Option.None` |
| the `Handler` interface | a datatype of function values (`canHandle`, `handle`, `order`) |
| `DefaultDispatcher` | a value holding the handler list, which `dispatch` only reads |
| `DefaultTextResourceLoader` | a class with a `map` cache field |
| the two configuration holders | classes whose setters are methods |

Collaborators whose code is not part of this model are parameters:

| Collaborator | Parameter |
|---|---|
| the classpath resource loader | `resource: string -> Option<string>` |
| `FileExtension.getExtensions()` | `extensionsOf` |
| the Telegram `SpaceParser` | `spaceParser: Update -> Option<Chat>` |
| `TextResourceLoader.composeCommandResponse` inside `CommandHandler` | `loader` |

`CommandHandler` depends on a type named `TelegramSlashCommandParser`, which is not part of this model. It is taken to behave as `TelegramSlashCommandPaser`.

The slash parser is modelled as the code behaves:

- It does no trimming and no case folding (chatbots-telegram-core/src/main/java/io/micronaut/chatbots/telegram/core/TelegramSlashCommandPaser.java:47-61).
- It cuts the whole text at the index of the first '@' computed on the suffix that starts at the first '/' (lines 50-55 of the same file).

The catch-all's reply "I don't how to handle your query: …" keeps the spelling of the test fixture (test-suite/src/test/java/io/micronaut/chatbots/telegram/UnknownCommandHandler.java:36).

The parser's cut is modelled as written. `SlashCommand.ParseCutsWholeTextAtSuffixIndex` and `SlashCommand.ParseMentionAfterLeadingText` state its consequences. For example, "hi /start@bot" gives "hi /st".

## Model

| member | source | states |
|---|---|---|
| Dispatch.Run | chatbots-core/src/main/java/io/micronaut/chatbots/core/DefaultDispatcher.java:46-49 | The lazy filter/findFirst/flatMap pipeline: the number of handlers asked is bounded by the list; a chosen handler is the last one asked; with none chosen every handler was asked and the answer is empty |
| Dispatch.DefaultDispatcher.Dispatch | chatbots-core/src/main/java/io/micronaut/chatbots/core/DefaultDispatcher.java:44-50 | dispatch answers with handle of the first handler in list order whose canHandle accepts, and with nothing when none accepts |
| Dispatch.RunSelectsFirstMatch | chatbots-core/src/main/java/io/micronaut/chatbots/core/DefaultDispatcher.java:46-49 | A handler is chosen iff it is the first in list order whose canHandle accepts; none is chosen iff none accepts; the chosen one's handle is the answer and nothing after it is asked |
| Dispatch.MatchesPastRejectingHead | chatbots-core/src/main/java/io/micronaut/chatbots/core/DefaultDispatcher.java:46-48 | When the first handler rejects, the first match of the list is the first match of its tail, one place further on, and no handler matches in the list iff none does in the tail |
| Dispatch.DispatchIsFirstMatch | chatbots-core/src/main/java/io/micronaut/chatbots/core/DefaultDispatcher.java:46-49 | dispatch returns exactly handle(bot, input) of the first accepting handler, having asked canHandle of it and of the handlers before it only |
| Dispatch.DispatchNoMatch | chatbots-core/src/main/java/io/micronaut/chatbots/core/DefaultDispatcher.java:46-48 | With no accepting handler the result is empty, no handle is invoked and every handler was asked |
| Dispatch.DispatchDoesNotFallThrough | chatbots-core/src/main/java/io/micronaut/chatbots/core/DefaultDispatcher.java:49 | When the selected handler answers empty, dispatch is empty even though a later handler accepts |
| Dispatch.DispatchPicksLowestOrder | chatbots-core/src/main/java/io/micronaut/chatbots/core/Handler.java:32 | Over a list sorted by getOrder, the answering handler has the lowest order among the accepting handlers |
| Dispatch.CatchAllAnswersTheRest | chatbots-core/src/main/java/io/micronaut/chatbots/core/DefaultDispatcher.java:46-49 | An always-accepting handler placed last answers every input that no earlier handler accepts |
| Dispatch.CatchAllAlwaysInvokesAHandler | chatbots-core/src/main/java/io/micronaut/chatbots/core/DefaultDispatcher.java:46-48 | Once any handler accepts, some handler at or before it is invoked |
| Dispatch.DispatchSeesOnlyItsArguments | chatbots-core/src/main/java/io/micronaut/chatbots/core/DefaultDispatcher.java:44-49 | dispatch observes handlers only through canHandle and handle applied to the very bot and input it was given |
| JavaStrings.IndexOf | chatbots-telegram-core/src/main/java/io/micronaut/chatbots/telegram/core/TelegramSlashCommandPaser.java:50 | String.indexOf(char): -1 iff absent, otherwise the position of the first occurrence |
| JavaStrings.Contains | chatbots-basecamp-core/src/main/java/io/micronaut/chatbots/basecamp/core/BasecampUserAgentValidator.java:48 | String.contains: true iff the substring occurs at some position |
| JavaStrings.Replace | chatbots-core/src/main/java/io/micronaut/chatbots/core/DefaultTextResourceLoader.java:105 | String.replace of one character: same length, every occurrence replaced, every other character kept |
| SlashCommand.ParseMessage | chatbots-telegram-core/src/main/java/io/micronaut/chatbots/telegram/core/TelegramSlashCommandPaser.java:47-61 | Empty iff the text is null or has no '/'; a present command is non-empty and is either the whole suffix from the first '/', free of '@', or a proper prefix of the text |
| SlashCommand.Parse | chatbots-telegram-core/src/main/java/io/micronaut/chatbots/telegram/core/TelegramSlashCommandPaser.java:36-44 | An update without a message yields empty |
| SlashCommand.ParseAbsentWhenNoSlash | chatbots-telegram-core/src/main/java/io/micronaut/chatbots/telegram/core/TelegramSlashCommandPaser.java:37-60 | No command iff no message, no text or no '/'; empty text gives no command |
| SlashCommand.ParseKeepsWholeCommandWithoutMention | chatbots-telegram-core/src/main/java/io/micronaut/chatbots/telegram/core/TelegramSlashCommandPaser.java:50-57 | Text starting with '/' and free of '@' is returned whole, arguments included, untrimmed |
| SlashCommand.ParseSuffixWithoutMention | chatbots-telegram-core/src/main/java/io/micronaut/chatbots/telegram/core/TelegramSlashCommandPaser.java:50-57 | With no '@' after the first '/', the command is the suffix from that '/', whatever text precedes it |
| SlashCommand.ParseStripsMention | chatbots-telegram-core/src/main/java/io/micronaut/chatbots/telegram/core/TelegramSlashCommandPaser.java:53-56 | Text starting with '/' with an '@' yields the part strictly before the first '@' |
| SlashCommand.ParseCutsWholeTextAtSuffixIndex | chatbots-telegram-core/src/main/java/io/micronaut/chatbots/telegram/core/TelegramSlashCommandPaser.java:50-57 | In general the command is text[..i] where i is the first '@' of the suffix from the first '/', and 1 <= i < \|text\| keeps the cut in bounds |
| SlashCommand.ParseMentionAfterLeadingText | chatbots-telegram-core/src/main/java/io/micronaut/chatbots/telegram/core/TelegramSlashCommandPaser.java:52-55 | With text before the '/', the command is cut from the start of the whole text: it is not the mentioned command and does not start with '/' |
| SlashCommand.ParseIdempotent | chatbots-telegram-core/src/main/java/io/micronaut/chatbots/telegram/core/TelegramSlashCommandPaser.java:50-57 | For text starting with '/', parsing the command again returns it unchanged |
| TelegramCommands.CommandHandler.CanHandle | chatbots-telegram-core/src/main/java/io/micronaut/chatbots/telegram/core/CommandHandler.java:55-60 | Accepts iff a command is parsed and it starts with getCommand(); accepting implies a message text with a '/' and a parsed command at least as long as getCommand() |
| TelegramCommands.CommandHandler.Handle | chatbots-telegram-core/src/main/java/io/micronaut/chatbots/telegram/core/CommandHandler.java:64-73 | Empty when no command is parsed, when the loader has no response or when no chat is found; otherwise the reply carries the loaded text, the parse mode of the loaded file extension, the chat id and method sendMessage |
| TelegramCommands.CommandHandler.GetOrder | chatbots-telegram-core/src/main/java/io/micronaut/chatbots/telegram/core/CommandHandler.java:76-78 | The order is -10, negative, so command handlers precede default-ordered handlers |
| TelegramCommands.CommandHandler.AsHandler | chatbots-telegram-core/src/main/java/io/micronaut/chatbots/telegram/core/CommandHandler.java:33 | The handler the dispatcher sees has this canHandle, handle and getOrder |
| TelegramCommands.CanHandleIsPrefixTest | chatbots-telegram-core/src/main/java/io/micronaut/chatbots/telegram/core/CommandHandler.java:57-59 | For '@'-free text, accepted iff the text from the first '/' starts with getCommand() |
| TelegramCommands.CanHandleAcceptsLongerCommand | chatbots-telegram-core/src/main/java/io/micronaut/chatbots/telegram/core/CommandHandler.java:57-59 | A prefix test: the command followed by anything, a bot mention included ("/aboutus", "/about@MyBot" for "/about"), is accepted |
| TelegramCommands.CanHandleRejectsMentionAfterLeadingText | chatbots-telegram-core/src/main/java/io/micronaut/chatbots/telegram/core/CommandHandler.java:57-59 | Text before the '/' of a mentioned command is never accepted, because the parsed command is cut from the start of the text ("hi /about@bot" parses to "hi /ab") |
| TelegramCommands.CanHandleNeedsASlash | chatbots-telegram-core/src/main/java/io/micronaut/chatbots/telegram/core/CommandHandler.java:57-59 | Slash-free text, a missing message and a missing text are never accepted |
| TelegramCommands.HandlerIgnoresBot | chatbots-telegram-core/src/main/java/io/micronaut/chatbots/telegram/core/CommandHandler.java:55-73 | canHandle and handle do not depend on the bot configuration |
| TelegramCommands.HandleLooksUpParsedCommand | chatbots-telegram-core/src/main/java/io/micronaut/chatbots/telegram/core/CommandHandler.java:66-68 | The loader is asked for the whole parsed command, leading '/' and arguments included, not getCommand() |
| TelegramCommands.HandleAnswersWhenEveryStepSucceeds | chatbots-telegram-core/src/main/java/io/micronaut/chatbots/telegram/core/CommandHandler.java:66-72 | A reply exists iff a command is parsed, the loader has a response and the chat is found |
| TelegramCommands.DefaultLoaderReplies | chatbots-telegram-core/src/main/java/io/micronaut/chatbots/telegram/core/CommandHandler.java:67-72 | With DefaultTextResourceLoader as the loader: no extension list gives no reply; a reply's text is the first non-empty candidate's text and is sent as HTML iff found under the HTML extension |
| SendMessages.ComposeForChat | chatbots-telegram-core/src/main/java/io/micronaut/chatbots/telegram/core/SendMessageUtils.java:55-63 | Method sendMessage, chat id of the space, the text exactly, the given parse mode; every other optional field unset |
| SendMessages.Compose | chatbots-telegram-core/src/main/java/io/micronaut/chatbots/telegram/core/SendMessageUtils.java:46-52 | Empty iff the space parser finds no chat; otherwise addressed to that chat with the given text and parse mode |
| SendMessages.ComposeText | chatbots-telegram-core/src/main/java/io/micronaut/chatbots/telegram/core/SendMessageUtils.java:39-43 | Empty iff no chat; a message has no parse mode and the given text |
| SendMessages.ParseModeOfFileExtension | chatbots-telegram-core/src/main/java/io/micronaut/chatbots/telegram/core/ParseModeUtils.java:40-45 | Never empty; HTML iff the extension is HTML, Markdown for every other extension |
| SendMessages.ComposeForChatKeepsItsInputs | chatbots-telegram-core/src/main/java/io/micronaut/chatbots/telegram/core/SendMessageUtils.java:58-62 | Two payloads are equal iff chat id, text and parse mode are |
| SendMessages.ComposeIsComposeForParsedChat | chatbots-telegram-core/src/main/java/io/micronaut/chatbots/telegram/core/SendMessageUtils.java:50-51 | Composing for an update is composing for the chat the space parser finds |
| SendMessages.ComposeTextHasNoParseMode | chatbots-telegram-core/src/main/java/io/micronaut/chatbots/telegram/core/SendMessageUtils.java:42 | The three-argument compose is the four-argument one with a null parse mode |
| SendMessages.ParseModeOfNonHtmlIsMarkdown | chatbots-telegram-core/src/main/java/io/micronaut/chatbots/telegram/core/ParseModeUtils.java:41-44 | MARKDOWN and TXT map to Markdown, HTML to HTML |
| TextResources.RemoveLeadingSlash | chatbots-core/src/main/java/io/micronaut/chatbots/core/DefaultTextResourceLoader.java:113-116 | Drops exactly one leading '/' when there is one and otherwise returns the input |
| TextResources.NormalizeFolder | chatbots-core/src/main/java/io/micronaut/chatbots/core/DefaultTextResourceLoader.java:101-111 | normalizeFolder: null read as "", backslashes turned into '/', one leading '/' dropped, a final '/' ensured; NormalizeFolderShape and the lemmas below state its properties |
| TextResources.NormalizeFolderShape | chatbots-core/src/main/java/io/micronaut/chatbots/core/DefaultTextResourceLoader.java:101-111 | A normalized folder is non-empty, ends with '/' and holds no backslash |
| TextResources.NormalizeNullFolder | chatbots-core/src/main/java/io/micronaut/chatbots/core/DefaultTextResourceLoader.java:102-109 | A null folder normalizes to "/" |
| TextResources.NormalizeFolderKeepsPlainFolder | chatbots-core/src/main/java/io/micronaut/chatbots/core/DefaultTextResourceLoader.java:106-110 | A forward-slash folder without a leading '/' is kept, with '/' appended unless present |
| TextResources.NormalizeFolderReadsBackslashAsSlash | chatbots-core/src/main/java/io/micronaut/chatbots/core/DefaultTextResourceLoader.java:105 | A folder and its forward-slash spelling normalize alike |
| TextResources.NormalizeFolderDropsOneLeadingSlash | chatbots-core/src/main/java/io/micronaut/chatbots/core/DefaultTextResourceLoader.java:106 | One leading '/' is dropped, a second one is kept |
| TextResources.CommandPath | chatbots-core/src/main/java/io/micronaut/chatbots/core/DefaultTextResourceLoader.java:62 | The candidate path: normalized folder, command without its leading '/', ".", extension string; CommandPathShape states its shape |
| TextResources.CommandPathShape | chatbots-core/src/main/java/io/micronaut/chatbots/core/DefaultTextResourceLoader.java:62 | A candidate path starts with the normalized folder and ends with "." + ext |
| TextResources.CommandPathIgnoresLeadingSlash | chatbots-core/src/main/java/io/micronaut/chatbots/core/DefaultTextResourceLoader.java:62 | "/about" and "about" share their resource paths |
| TextResources.ExtensionCandidates | chatbots-core/src/main/java/io/micronaut/chatbots/core/DefaultTextResourceLoader.java:61-62 | One candidate per extension string of a file extension, in that order, each tagged with the file extension |
| TextResources.Candidates | chatbots-core/src/main/java/io/micronaut/chatbots/core/DefaultTextResourceLoader.java:60-62 | All candidates in the nested loops' order, file extension by file extension; CandidatesStep, CandidatesPrefix, CandidatesThrough and CandidatesAreConfigured state that order and origin |
| TextResources.CandidatesAreConfigured | chatbots-core/src/main/java/io/micronaut/chatbots/core/DefaultTextResourceLoader.java:60-62 | Every candidate belongs to a configured file extension and is the path of one of its extension strings |
| TextResources.CandidatesStep | chatbots-core/src/main/java/io/micronaut/chatbots/core/DefaultTextResourceLoader.java:60-62 | The outer loop visits file extensions in list order: the candidates of the first i + 1 are those of the first i, then all of file extension i |
| TextResources.ExtensionCandidatesStep | chatbots-core/src/main/java/io/micronaut/chatbots/core/DefaultTextResourceLoader.java:61-62 | The inner loop visits extension strings in order: one more extension string adds its one candidate at the end |
| TextResources.CandidatesPrefix | chatbots-core/src/main/java/io/micronaut/chatbots/core/DefaultTextResourceLoader.java:60-62 | The candidates of the first n file extensions are a prefix of all candidates |
| TextResources.CandidatesThrough | chatbots-core/src/main/java/io/micronaut/chatbots/core/DefaultTextResourceLoader.java:60-62 | The candidates visited up to extension string j of file extension i are a prefix of all candidates, so the nested loops visit them in the flat order |
| TextResources.SplitLines | chatbots-core/src/main/java/io/micronaut/chatbots/core/DefaultTextResourceLoader.java:91-95 | readLine's lines, split at '\n', a last unterminated line included; SplitLinesHaveNoNewline and the round trips below state its properties |
| TextResources.SplitLinesHaveNoNewline | chatbots-core/src/main/java/io/micronaut/chatbots/core/DefaultTextResourceLoader.java:93 | readLine yields lines without '\n' |
| TextResources.Joined | chatbots-core/src/main/java/io/micronaut/chatbots/core/DefaultTextResourceLoader.java:90-97 | What the StringBuilder collects: every line followed by "\n"; JoinedShape and JoinedAppend state its properties |
| TextResources.JoinedShape | chatbots-core/src/main/java/io/micronaut/chatbots/core/DefaultTextResourceLoader.java:90-97 | Every line is followed by "\n": at least one character per line, ending in '\n' when there is a line |
| TextResources.JoinedAppend | chatbots-core/src/main/java/io/micronaut/chatbots/core/DefaultTextResourceLoader.java:93-94 | Appending one line appends it and its "\n" to the text built so far |
| TextResources.SplitJoinedLines | chatbots-core/src/main/java/io/micronaut/chatbots/core/DefaultTextResourceLoader.java:88-98 | Reading back joined lines gives the lines |
| TextResources.Terminated | chatbots-core/src/main/java/io/micronaut/chatbots/core/DefaultTextResourceLoader.java:88-98 | Adding a missing final '\n' leaves a text empty iff it was empty |
| TextResources.JoinSplitLines | chatbots-core/src/main/java/io/micronaut/chatbots/core/DefaultTextResourceLoader.java:88-98 | The text read from a resource is its content with a final '\n' added when missing, so it is empty iff the resource is |
| TextResources.ReadFromInputStream | chatbots-core/src/main/java/io/micronaut/chatbots/core/DefaultTextResourceLoader.java:88-98 | The StringBuilder loop builds exactly the joined lines |
| TextResources.TextAt | chatbots-core/src/main/java/io/micronaut/chatbots/core/DefaultTextResourceLoader.java:72-85 | textFromPath(path).orElse(""): "" for a missing or unreadable resource, otherwise its content with a final '\n' added when missing |
| TextResources.FirstHit | chatbots-core/src/main/java/io/micronaut/chatbots/core/DefaultTextResourceLoader.java:64-66 | The loops' early return: a hit is a candidate index whose text is non-empty |
| TextResources.FirstHitIsFirst | chatbots-core/src/main/java/io/micronaut/chatbots/core/DefaultTextResourceLoader.java:60-66 | The first hit has non-empty text and every candidate before it is empty; no hit means every candidate is empty |
| TextResources.FirstHitAfterEmpty | chatbots-core/src/main/java/io/micronaut/chatbots/core/DefaultTextResourceLoader.java:64-65 | A non-empty candidate after only empty ones is the first hit, and the lookup has tried exactly the candidates up to it |
| TextResources.NoHit | chatbots-core/src/main/java/io/micronaut/chatbots/core/DefaultTextResourceLoader.java:69 | Only empty candidates give no hit |
| TextResources.ComposeHit | chatbots-core/src/main/java/io/micronaut/chatbots/core/DefaultTextResourceLoader.java:63-66 | With every earlier candidate empty, a non-empty candidate answers with its file extension and text, after trying exactly the candidates up to it |
| TextResources.ComposeMiss | chatbots-core/src/main/java/io/micronaut/chatbots/core/DefaultTextResourceLoader.java:69 | With every candidate empty the lookup is empty after trying them all |
| TextResources.Compose | chatbots-core/src/main/java/io/micronaut/chatbots/core/DefaultTextResourceLoader.java:57-59 | A null extension list gives an empty answer |
| TextResources.ComposeSpec | chatbots-core/src/main/java/io/micronaut/chatbots/core/DefaultTextResourceLoader.java:56-70 | A response is found only under a configured extension list: its text is non-empty and is that of a candidate of its file extension, after only empty candidates; an empty answer means every candidate is empty |
| TextResources.NewLoadsOfKnown | chatbots-core/src/main/java/io/micronaut/chatbots/core/DefaultTextResourceLoader.java:63 | A lookup whose paths are all cached loads nothing |
| TextResources.SnocStep | chatbots-core/src/main/java/io/micronaut/chatbots/core/DefaultTextResourceLoader.java:63 | Trying one more candidate adds its path to the paths tried, and loads it only when it is neither cached nor tried before |
| TextResources.NewLoadsAreNewAndDistinct | chatbots-core/src/main/java/io/micronaut/chatbots/core/DefaultTextResourceLoader.java:63 | A lookup loads only uncached paths among those it tries, each at most once |
| TextResources.LoadedIsElements | chatbots-core/src/main/java/io/micronaut/chatbots/core/DefaultTextResourceLoader.java:63 | The paths recorded as loaded are exactly the elements of the load log, so the cache keys are the paths loaded |
| TextResources.NoRepeatsIsDistinct | chatbots-core/src/main/java/io/micronaut/chatbots/core/DefaultTextResourceLoader.java:63 | A load log without repeats holds pairwise distinct paths: no path is loaded twice |
| TextResources.DefaultTextResourceLoader.constructor | chatbots-core/src/main/java/io/micronaut/chatbots/core/DefaultTextResourceLoader.java:44-52 | Empty cache over the given configuration and resources |
| TextResources.DefaultTextResourceLoader.TextFromPath | chatbots-core/src/main/java/io/micronaut/chatbots/core/DefaultTextResourceLoader.java:72-85 | The resource's joined lines, or "" when it is missing or unreadable |
| TextResources.DefaultTextResourceLoader.CachedText | chatbots-core/src/main/java/io/micronaut/chatbots/core/DefaultTextResourceLoader.java:63 | computeIfAbsent: the path's text; the path joins the cache and is loaded only if it was not cached; cached texts stay the resources' texts |
| TextResources.DefaultTextResourceLoader.LoadCandidate | chatbots-core/src/main/java/io/micronaut/chatbots/core/DefaultTextResourceLoader.java:63 | One computeIfAbsent inside the loops: the path's text, with the cache and the load log advanced by exactly that candidate |
| TextResources.DefaultTextResourceLoader.LoadNext | chatbots-core/src/main/java/io/micronaut/chatbots/core/DefaultTextResourceLoader.java:61-64 | One inner-loop iteration: the text at the next extension string's path; the candidates tried grow by it and remain all empty when its text is empty |
| TextResources.DefaultTextResourceLoader.TryFileExtension | chatbots-core/src/main/java/io/micronaut/chatbots/core/DefaultTextResourceLoader.java:61-67 | The inner loop over one file extension: a hit returns exactly the lookup's answer with the state after trying up to it; otherwise every candidate of the file extension was tried and found empty |
| TextResources.DefaultTextResourceLoader.ComposeCommandResponse | chatbots-core/src/main/java/io/micronaut/chatbots/core/DefaultTextResourceLoader.java:54-70 | The nested loops answer exactly Compose of the configuration; the cache gains exactly the paths tried, and only the uncached ones among them are loaded |
| TextResources.ComposeTwice | chatbots-core/src/main/java/io/micronaut/chatbots/core/DefaultTextResourceLoader.java:63 | Two lookups of one command answer alike, and the second loads nothing |
| ChatbotsConfiguration.ChatbotsConfigurationProperties.constructor | chatbots-core/src/main/java/io/micronaut/chatbots/core/ChatbotsConfigurationProperties.java:37-52 | Enabled, folder "botcommands", extensions MARKDOWN, HTML, TXT |
| ChatbotsConfiguration.ChatbotsConfigurationProperties.SetEnabled | chatbots-core/src/main/java/io/micronaut/chatbots/core/ChatbotsConfigurationProperties.java:78-80 | Stores the flag, other fields unchanged |
| ChatbotsConfiguration.ChatbotsConfigurationProperties.SetFolder | chatbots-core/src/main/java/io/micronaut/chatbots/core/ChatbotsConfigurationProperties.java:87-91 | A non-empty folder replaces it, null or empty is ignored; the folder stays non-empty |
| ChatbotsConfiguration.ChatbotsConfigurationProperties.SetPossibleStaticCommandExtensions | chatbots-core/src/main/java/io/micronaut/chatbots/core/ChatbotsConfigurationProperties.java:103-105 | Stores the list verbatim, null included, other fields unchanged |
| ChatbotsConfiguration.ConfigureFolders | chatbots-core/src/main/java/io/micronaut/chatbots/core/ChatbotsConfigurationProperties.java:87-91 | After any sequence of setFolder calls the folder is non-empty, and still the default when every call was null or empty |
| ControllerConfiguration.ControllerConfigurationProperties.constructor | chatbots-http/src/main/java/io/micronaut/chatbots/http/ControllerConfigurationProperties.java:31-38 | Stores the path, enabled by default |
| ControllerConfiguration.ControllerConfigurationProperties.SetEnabled | chatbots-http/src/main/java/io/micronaut/chatbots/http/ControllerConfigurationProperties.java:58-60 | Stores the flag, path unchanged |
| ControllerConfiguration.ControllerConfigurationProperties.SetPath | chatbots-http/src/main/java/io/micronaut/chatbots/http/ControllerConfigurationProperties.java:66-70 | A non-empty path replaces it, null or empty is ignored |
| ControllerConfiguration.NewTelegramControllerConfiguration | chatbots-telegram-http/src/main/java/io/micronaut/chatbots/telegram/http/TelegramControllerConfiguration.java:37-41 | Path "/telegram", enabled |
| ControllerConfiguration.NewBasecampControllerConfiguration | chatbots-basecamp-http/src/main/java/io/micronaut/chatbots/basecamp/http/BasecampControllerConfiguration.java:42-46 | Path "/basecamp", enabled |
| ControllerConfiguration.ConfigurePaths | chatbots-http/src/main/java/io/micronaut/chatbots/http/ControllerConfigurationProperties.java:66-70 | A non-empty path stays non-empty under any setPath calls and is always the initial path or one that was set |
| Basecamp.ValidateUserAgent | chatbots-basecamp-core/src/main/java/io/micronaut/chatbots/basecamp/core/BasecampUserAgentValidator.java:41-58 | True iff the value is present and "Basecamp" occurs in it; null or empty is rejected |
| Basecamp.AcceptsBasecampAnywhere | chatbots-basecamp-core/src/main/java/io/micronaut/chatbots/basecamp/core/BasecampUserAgentValidator.java:48-57 | "Basecamp" anywhere in the value is accepted |
| Basecamp.RejectsWithoutCapitalB | chatbots-basecamp-core/src/main/java/io/micronaut/chatbots/basecamp/core/BasecampUserAgentValidator.java:48-53 | A value without a capital 'B' is rejected |
| Basecamp.RejectsLowerCaseWord | chatbots-basecamp-core/src/main/java/io/micronaut/chatbots/basecamp/core/BasecampUserAgentValidator.java:48 | The match is case-sensitive: "basecamp" is rejected |
| Basecamp.ToLowerAscii | chatbots-lambda/src/main/java/io/micronaut/chatbots/lambda/AbstractHandler.java:240 | Lower-cases ASCII capitals, keeps every other character and the length |
| Basecamp.ParseHeader | chatbots-lambda/src/main/java/io/micronaut/chatbots/lambda/AbstractHandler.java:231-241 | No headers gives empty; a non-null header under its own name wins, otherwise the value (possibly null) under the lower-cased name; empty iff neither name maps to a non-null value |
| Basecamp.NullHeaderFallsBack | chatbots-lambda/src/main/java/io/micronaut/chatbots/lambda/AbstractHandler.java:236-240 | A header whose own name is mapped to null is read from its lower-cased name |
| Basecamp.LambdaValidate | chatbots-basecamp-lambda/src/main/java/io/micronaut/chatbots/basecamp/lambda/Handler.java:73-88 | A missing User-Agent is rejected |
| Basecamp.UserAgentLowerCase | chatbots-lambda/src/main/java/io/micronaut/chatbots/lambda/AbstractHandler.java:240 | The fallback header name is "user-agent" |
| Basecamp.LambdaValidateAgreesWithValidator | chatbots-basecamp-lambda/src/main/java/io/micronaut/chatbots/basecamp/lambda/Handler.java:74-87 | The Lambda handler accepts exactly what BasecampUserAgentValidator accepts for the header it reads |
| TelegramScenarios.HelloCanHandle | test-suite/src/test/java/io/micronaut/chatbots/telegram/HelloWorldHandler.java:28-31 | Accepts iff the message text contains "hello" |
| TelegramScenarios.HelloWorldHandler | test-suite/src/test/java/io/micronaut/chatbots/telegram/HelloWorldHandler.java:28-36 | Default order, accepts greetings, replies "Hello World" without parse mode |
| TelegramScenarios.UnknownReply | test-suite/src/test/java/io/micronaut/chatbots/telegram/UnknownCommandHandler.java:36 | The fixed prefix followed by the message text |
| TelegramScenarios.UnknownCommandHandler | test-suite/src/test/java/io/micronaut/chatbots/telegram/UnknownCommandHandler.java:29-42 | Lowest precedence, accepts everything, replies the prefix and the text |
| TelegramScenarios.SuiteHandlersAreSorted | test-suite/src/test/java/io/micronaut/chatbots/telegram/UnknownCommandHandler.java:39-42 | The suite's list is sorted by getOrder |
| TelegramScenarios.PlainTextGoesToCatchAll | test-suite/src/test/java/io/micronaut/chatbots/telegram/HelloWorldHandlerTest.java:53-58 | Text without '/' that does not contain "hello" is answered by the catch-all quoting the text |
| TelegramScenarios.SomeTextScenario | test-suite/src/test/java/io/micronaut/chatbots/telegram/HelloWorldHandlerTest.java:53-58 | "some text" gets "I don't how to handle your query: some text" |
| TelegramScenarios.GreetingGetsHelloWorld | test-suite/src/test/java/io/micronaut/chatbots/telegram/HelloWorldHandlerTest.java:46-51 | A greeting without '/' is answered "Hello World" |
| TelegramScenarios.CommandGoesToCommandHandler | test-suite/src/test/java/io/micronaut/chatbots/telegram/HelloWorldHandlerTest.java:39-44 | A message starting with the command, with or without a bot mention after it, is answered by the command handler alone; when its loader has no text for the parsed command the answer is empty although the catch-all accepts |

## Left out

- Java strings are sequences of UTF-16 code units, and `indexOf` and `substring` in the slash parser count code units. Here a `char` is a Unicode scalar value. So the model cuts differently when the text before the first '@' holds a character outside the Basic Multilingual Plane: for "😀 /a@b" Java cuts at two code units and returns "😀", the model returns "😀 ". Java can also split a surrogate pair, which the model cannot express.
- `DefaultDispatcher` keeps the caller's `List` without copying it, and `final` fixes only the reference. A caller that changes that list after construction changes what `dispatch` walks. The model holds the list as a value and assumes nobody changes it after construction; under dependency injection the container owns it. `dispatch` itself never changes the list.
- Exceptions thrown by a handler's `canHandle` or `handle` are not modelled. In Java such an exception propagates out of `dispatch` and no later handler is asked. Here handlers are total functions, so that path does not exist.
- The Telegram, Google and Basecamp API DTOs. Only the fields the core reads or fills are modelled: `Update.message`, `Message.text`, `Chat.id`, and the `SendMessage` fields.
- The transport entry points: controllers, the Lambda, GCP and Azure handlers, and `AbstractHandler`. They are HTTP and serialization plumbing. Only the Basecamp Lambda `validate` and the `parseHeader` it uses are modelled.
- Classpath resource access through `ResourceResolver` and URL streams. It is the `resource` function parameter: `None` stands for a missing resource or an `IOException`.
- `BufferedReader.readLine` treats "\r" and "\r\n" as line ends too. `SplitLines` splits on '\n' only.
- The thread safety of `ConcurrentHashMap`. The cache is a plain `map`.
- Logging in the validators.
- `ParseMode.toString()` is not part of this model. `SendMessage.parseMode` holds the enum value whose text form is sent.
- `FileExtension.getExtensions()` is not part of this model. It is the `extensionsOf` parameter.
- Handler discovery and sorting by `getOrder` are done by the dependency-injection container. They are not modelled. Dispatch takes the list order as given, and sortedness is a precondition where a lemma needs it.
- `Ordered`'s default order (0) and `LOWEST_PRECEDENCE` (2147483647) are not part of this model. They are taken as those values.
- The Telegram `SpaceParser` implementation is not part of this model. It is the `spaceParser` parameter.
- TelegramScenarios.HelloCanHandle: does not model the exception HelloWorldHandler throws when it dereferences a null message (an update without a message) or the null text of a message without text. Both updates are treated as not accepted.
- TelegramScenarios.UnknownReply: does not model the exception thrown when it dereferences the null message of an update without one. It quotes "null" there as it does for a null text.
- `Config.FileExtension` has the three values documented by `ChatbotsConfigurationProperties` (MARKDOWN, HTML, TXT). The enumeration's source is not part of this model.
- The constructor of `ControllerConfigurationProperties` accepts any path, null included. The model takes a string.
- `HttpHeaders.USER_AGENT` is not part of this model. It is taken to be "User-Agent". `toLowerCase(Locale.ROOT)` is modelled on ASCII letters only, which covers that name.
- The Basecamp test-suite handlers are left out: their `HelloWorldHandler` accepts everything at the default order.
