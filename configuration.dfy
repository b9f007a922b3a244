/**
 * ChatbotsConfigurationProperties: whether chatbots are enabled, the folder
 * holding static command texts and the file extensions tried for them.
 * `setFolder` ignores null and empty strings, so the folder is never empty.
 */
module ChatbotsConfiguration {
  import opened Wrappers

  /** The FileExtension enumeration, whose values are listed as MARKDOWN, HTML, TXT. */
  datatype FileExtension = Markdown | Html | Txt

  /** FileExtension.values(), in declaration order. */
  const ALL_FILE_EXTENSIONS: seq<FileExtension> := [Markdown, Html, Txt]

  const DEFAULT_FOLDER: string := "botcommands"
  const DEFAULT_ENABLED: bool := true

  class ChatbotsConfigurationProperties {
    var enabled: bool
    var folder: string
    /** Nullable list: None stands for null. */
    var possibleStaticCommandExtensions: Option<seq<FileExtension>>

    /** The folder is never empty (it is annotated @NotBlank and setFolder guards it). */
    ghost predicate Valid()
      reads this
    {
      folder != ""
    }

    constructor ()
      ensures Valid()
      ensures enabled == DEFAULT_ENABLED && enabled
      ensures folder == DEFAULT_FOLDER
      ensures possibleStaticCommandExtensions == Some(ALL_FILE_EXTENSIONS)
    {
      enabled := DEFAULT_ENABLED;
      folder := DEFAULT_FOLDER;
      possibleStaticCommandExtensions := Some(ALL_FILE_EXTENSIONS);
    }

    method SetEnabled(enabled: bool)
      requires Valid()
      modifies this
      ensures Valid()
      ensures this.enabled == enabled
      ensures folder == old(folder) && possibleStaticCommandExtensions == old(possibleStaticCommandExtensions)
    {
      this.enabled := enabled;
    }

    /** A null (None) or empty folder leaves the configured folder in place. */
    method SetFolder(folder: Option<string>)
      requires Valid()
      modifies this
      ensures Valid()
      ensures folder.Some? && folder.value != "" ==> this.folder == folder.value
      ensures folder.None? || folder.value == "" ==> this.folder == old(this.folder)
      ensures enabled == old(enabled) && possibleStaticCommandExtensions == old(possibleStaticCommandExtensions)
    {
      if folder.Some? && folder.value != "" {
        this.folder := folder.value;
      }
    }

    /** Stored verbatim, null included. */
    method SetPossibleStaticCommandExtensions(extensions: Option<seq<FileExtension>>)
      requires Valid()
      modifies this
      ensures Valid()
      ensures possibleStaticCommandExtensions == extensions
      ensures enabled == old(enabled) && folder == old(folder)
    {
      possibleStaticCommandExtensions := extensions;
    }
  }

  /** Whatever sequence of setter calls follows construction, the folder stays non-empty. */
  method ConfigureFolders(folders: seq<Option<string>>) returns (c: ChatbotsConfigurationProperties)
    ensures fresh(c) && c.Valid() && c.folder != ""
    ensures (forall i :: 0 <= i < |folders| ==> folders[i].None? || folders[i].value == "") ==> c.folder == DEFAULT_FOLDER
  {
    c := new ChatbotsConfigurationProperties();
    for i := 0 to |folders|
      invariant c.Valid()
      invariant (forall j :: 0 <= j < i ==> folders[j].None? || folders[j].value == "") ==> c.folder == DEFAULT_FOLDER
    {
      c.SetFolder(folders[i]);
    }
  }
}

/**
 * ControllerConfigurationProperties: whether a webhook controller is enabled
 * and the path it listens on. `setPath` ignores null and empty strings. The
 * Telegram and Basecamp controller configurations construct it with the
 * paths "/telegram" and "/basecamp".
 */
module ControllerConfiguration {
  import opened Wrappers

  const DEFAULT_ENABLED: bool := true
  const TELEGRAM_DEFAULT_PATH: string := "/telegram"
  const BASECAMP_DEFAULT_PATH: string := "/basecamp"

  class ControllerConfigurationProperties {
    var enabled: bool
    var path: string

    constructor (path: string)
      ensures this.path == path
      ensures enabled == DEFAULT_ENABLED && enabled
    {
      enabled := DEFAULT_ENABLED;
      this.path := path;
    }

    method SetEnabled(enabled: bool)
      modifies this
      ensures this.enabled == enabled
      ensures path == old(path)
    {
      this.enabled := enabled;
    }

    /** A null (None) or empty path leaves the configured path in place. */
    method SetPath(path: Option<string>)
      modifies this
      ensures path.Some? && path.value != "" ==> this.path == path.value
      ensures path.None? || path.value == "" ==> this.path == old(this.path)
      ensures enabled == old(enabled)
    {
      if path.Some? && path.value != "" {
        this.path := path.value;
      }
    }
  }

  /** TelegramControllerConfiguration's constructor. */
  method NewTelegramControllerConfiguration() returns (c: ControllerConfigurationProperties)
    ensures fresh(c) && c.path == TELEGRAM_DEFAULT_PATH && c.enabled
  {
    c := new ControllerConfigurationProperties(TELEGRAM_DEFAULT_PATH);
  }

  /** BasecampControllerConfiguration's constructor. */
  method NewBasecampControllerConfiguration() returns (c: ControllerConfigurationProperties)
    ensures fresh(c) && c.path == BASECAMP_DEFAULT_PATH && c.enabled
  {
    c := new ControllerConfigurationProperties(BASECAMP_DEFAULT_PATH);
  }

  /** A non-empty path stays non-empty under any setter calls. */
  method ConfigurePaths(initial: string, paths: seq<Option<string>>) returns (c: ControllerConfigurationProperties)
    requires initial != ""
    ensures fresh(c) && c.path != ""
    ensures c.path == initial || exists i :: 0 <= i < |paths| && paths[i] == Some(c.path)
  {
    c := new ControllerConfigurationProperties(initial);
    for i := 0 to |paths|
      invariant c.path != ""
      invariant c.path == initial || exists j :: 0 <= j < i && paths[j] == Some(c.path)
    {
      c.SetPath(paths[i]);
    }
  }
}
