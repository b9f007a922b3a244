/**
 * TelegramSlashCommandPaser: extracts the slash command from the text of an
 * Update's message. It looks for the first '/', takes the text from there,
 * looks for the first '@' in that suffix, and when there is one cuts the
 * WHOLE text (not the suffix) at that suffix-relative index. It neither
 * trims nor folds case.
 */
module SlashCommand {
  import opened Wrappers
  import opened JavaStrings
  import opened TelegramApi

  /** The private parse(Message). */
  function ParseMessage(message: Message): (r: Option<string>)
    ensures r.None? <==> message.text.None? || '/' !in message.text.value
    ensures r.Some? ==> |r.value| > 0
    ensures r.Some? ==>
      var text := message.text.value;
      (r.value == text[IndexOf(text, '/')..] && '@' !in r.value) || (StartsWith(text, r.value) && |r.value| < |text|)
  {
    match message.text
    case None => None
    case Some(text) =>
      if text == "" then None
      else
        var index := IndexOf(text, '/');
        if index == -1 then None
        else
          var result := text[index..];
          var at := IndexOf(result, '@');
          if at == -1 then Some(result)
          else
            assert at >= 1 by { assert result[0] == '/'; }
            Some(text[..at])
  }

  /** parse(Update): the message's command, or empty when the update carries no message. */
  function Parse(update: Update): (r: Option<string>)
    ensures update.message.None? ==> r == None
  {
    match update.message
    case None => None
    case Some(message) => ParseMessage(message)
  }

  /** The Update whose message has the given text. */
  function UpdateWithText(text: string): Update {
    Update(Some(Message(Some(text))))
  }

  /** Absent, empty or slash-free text gives no command; any text with a '/' gives one. */
  lemma ParseAbsentWhenNoSlash(update: Update)
    ensures Parse(update).None? <==>
      update.message.None? || update.message.value.text.None? || '/' !in update.message.value.text.value
    ensures update.message.Some? && update.message.value.text == Some("") ==> Parse(update).None?
  {
  }

  /** Text that starts with '/' and has no '@' is returned whole, arguments included. */
  lemma ParseKeepsWholeCommandWithoutMention(text: string)
    requires |text| > 0 && text[0] == '/' && '@' !in text
    ensures Parse(UpdateWithText(text)) == Some(text)
  {
    assert IndexOf(text, '/') == 0;
    assert text[0..] == text;
  }

  /**
   * Without an '@' after the first '/', the command is the whole suffix from
   * that '/', whatever text comes before it.
   */
  lemma ParseSuffixWithoutMention(text: string, k: nat)
    requires k < |text| && text[k] == '/' && '/' !in text[..k] && '@' !in text[k..]
    ensures Parse(UpdateWithText(text)) == Some(text[k..])
  {
    IndexOfIsFirst(text, '/', k);
    assert IndexOf(text[k..], '@') == -1;
  }

  /**
   * Text that starts with '/' and has an '@' gives the part strictly before
   * the first '@': a command that still starts with '/' and has no '@'.
   */
  lemma ParseStripsMention(text: string, i: nat)
    requires |text| > 0 && text[0] == '/'
    requires i < |text| && text[i] == '@' && '@' !in text[..i]
    ensures Parse(UpdateWithText(text)) == Some(text[..i])
    ensures 1 <= i && text[..i][0] == '/' && '@' !in text[..i]
  {
    assert IndexOf(text, '/') == 0;
    assert text[0..] == text;
    IndexOfIsFirst(text, '@', i);
  }

  /**
   * The general case: with `k` the first '/' and `i` the first '@' of
   * `text[k..]`, the command is `text[..i]`, cut from the start of the whole
   * text, and `1 <= i < |text|` keeps the cut in bounds.
   */
  lemma ParseCutsWholeTextAtSuffixIndex(text: string, k: nat, i: nat)
    requires k < |text| && text[k] == '/' && '/' !in text[..k]
    requires k + i < |text| && text[k + i] == '@' && '@' !in text[k..k + i]
    ensures 1 <= i < |text|
    ensures Parse(UpdateWithText(text)) == Some(text[..i])
  {
    var suffix := text[k..];
    IndexOfIsFirst(text, '/', k);
    assert suffix[i] == '@' && suffix[..i] == text[k..k + i];
    IndexOfIsFirst(suffix, '@', i);
    assert i >= 1 by { assert suffix[0] == '/'; }
  }

  /**
   * Because the cut is taken from the start of the text, text before the
   * '/' leaks into the command: for "hi /start@bot" the command is "hi /st",
   * never "/start", and in general it does not even start with '/'.
   */
  lemma ParseMentionAfterLeadingText(lead: string, name: string, rest: string)
    requires |lead| > 0 && '/' !in lead && '@' !in name
    ensures var text := lead + "/" + name + "@" + rest;
      Parse(UpdateWithText(text)) == Some(text[..|name| + 1]) &&
      Parse(UpdateWithText(text)) != Some("/" + name) &&
      Parse(UpdateWithText(text)).value[0] != '/'
  {
    var text := lead + "/" + name + "@" + rest;
    var k := |lead|;
    assert text[..k] == lead && text[k] == '/';
    assert text[k + 1 + |name|] == '@' && text[k..k + 1 + |name|] == "/" + name;
    ParseCutsWholeTextAtSuffixIndex(text, k, |name| + 1);
    assert text[..|name| + 1][0] == lead[0];
  }

  /** For text beginning with '/', parsing the parsed command again returns it unchanged. */
  lemma ParseIdempotent(text: string)
    requires |text| > 0 && text[0] == '/'
    ensures Parse(UpdateWithText(text)).Some?
    ensures var c := Parse(UpdateWithText(text)).value; Parse(UpdateWithText(c)) == Some(c)
  {
    if '@' in text {
      var i := IndexOf(text, '@');
      ParseStripsMention(text, i);
      ParseKeepsWholeCommandWithoutMention(text[..i]);
    } else {
      ParseKeepsWholeCommandWithoutMention(text);
    }
  }
}
