/**
 * DefaultTextResourceLoader: finds the static text answering a command. For
 * each configured file extension, and for each of that extension's strings,
 * it builds the path `normalizeFolder(folder) + removeLeadingSlash(command) +
 * "." + ext`, loads it through a memo cache, and answers with the first
 * non-empty text, tagged with its file extension. A missing or unreadable
 * resource is cached as "" and is never loaded again.
 */
module TextResources {
  import opened Wrappers
  import opened JavaStrings
  import opened ChatbotsConfiguration

  /** CommandResponse: the text found and the file extension it was found under. */
  datatype CommandResponse = CommandResponse(extension: FileExtension, text: string)

  /** removeLeadingSlash: drops exactly one leading '/', if there is one. */
  function RemoveLeadingSlash(s: string): (r: string)
    ensures s == r || s == "/" + r
    ensures StartsWith(s, "/") <==> s == "/" + r
  {
    if StartsWith(s, "/") then s[1..] else s
  }

  /**
   * normalizeFolder: null becomes "", every backslash becomes '/', one
   * leading '/' is dropped and a trailing '/' is added when missing.
   */
  function NormalizeFolder(path: Option<string>): string {
    var slashed := Replace(path.GetOr(""), '\\', '/');
    var trimmed := RemoveLeadingSlash(slashed);
    if EndsWith(trimmed, "/") then trimmed else trimmed + "/"
  }

  /** A normalized folder ends with '/' and holds no backslash. */
  lemma {:induction false} NormalizeFolderShape(path: Option<string>)
    ensures var r := NormalizeFolder(path); |r| > 0 && r[|r| - 1] == '/' && '\\' !in r
  {
    var trimmed := RemoveLeadingSlash(Replace(path.GetOr(""), '\\', '/'));
    assert '\\' !in trimmed;
    if !EndsWith(trimmed, "/") {
      var r := trimmed + "/";
      assert r[|r| - 1] == '/';
      assert forall k :: 0 <= k < |trimmed| ==> r[k] == trimmed[k];
    }
  }

  /** A null folder normalizes to "/". */
  lemma {:induction false} NormalizeNullFolder()
    ensures NormalizeFolder(None) == "/"
  {
  }

  /**
   * A folder written with forward slashes and no leading '/' is kept, with a
   * '/' appended unless it already ends with one.
   */
  lemma {:induction false} NormalizeFolderKeepsPlainFolder(folder: string)
    requires '\\' !in folder && !StartsWith(folder, "/")
    ensures NormalizeFolder(Some(folder)) == if EndsWith(folder, "/") then folder else folder + "/"
  {
    var slashed := Replace(folder, '\\', '/');
    assert slashed == folder;
    if |folder| > 0 { assert folder[..1] != "/"; }
  }

  /** Backslashes are read as slashes: a folder and its forward-slash spelling normalize alike. */
  lemma {:induction false} NormalizeFolderReadsBackslashAsSlash(folder: string)
    ensures NormalizeFolder(Some(folder)) == NormalizeFolder(Some(Replace(folder, '\\', '/')))
  {
    var slashed := Replace(folder, '\\', '/');
    assert Replace(slashed, '\\', '/') == slashed;
  }

  /** Only one leading '/' is dropped: "/botcommands" normalizes like "botcommands", "//x" keeps one '/'. */
  lemma {:induction false} NormalizeFolderDropsOneLeadingSlash(folder: string)
    requires '\\' !in folder
    ensures !StartsWith(folder, "/") ==> NormalizeFolder(Some("/" + folder)) == NormalizeFolder(Some(folder))
    ensures StartsWith(folder, "/") ==> NormalizeFolder(Some("/" + folder))[0] == '/'
  {
    assert Replace(folder, '\\', '/') == folder;
    assert Replace("/" + folder, '\\', '/') == "/" + folder;
    assert StartsWith("/" + folder, "/");
    assert ("/" + folder)[1..] == folder;
  }

  /** The resource path of one candidate. */
  function CommandPath(folder: Option<string>, command: string, ext: string): string {
    NormalizeFolder(folder) + RemoveLeadingSlash(command) + "." + ext
  }

  /** A candidate path lies in the normalized folder and ends with "." and its extension string. */
  lemma {:induction false} CommandPathShape(folder: Option<string>, command: string, ext: string)
    ensures StartsWith(CommandPath(folder, command, ext), NormalizeFolder(folder))
    ensures EndsWith(CommandPath(folder, command, ext), "." + ext)
  {
    Affixes(NormalizeFolder(folder), RemoveLeadingSlash(command), "." + ext);
  }

  lemma {:induction false} Affixes(front: string, middle: string, back: string)
    ensures StartsWith(front + middle + back, front) && EndsWith(front + middle + back, back)
  {
    var p := front + middle + back;
    assert p[..|front|] == front;
    assert p[|p| - |back|..] == back;
  }

  /** The leading '/' of a command is not part of its path: "/about" and "about" share a resource. */
  lemma {:induction false} CommandPathIgnoresLeadingSlash(folder: Option<string>, name: string, ext: string)
    requires !StartsWith(name, "/")
    ensures CommandPath(folder, "/" + name, ext) == CommandPath(folder, name, ext)
  {
    assert StartsWith("/" + name, "/");
    assert ("/" + name)[1..] == name;
  }

  /** One path to try, with the file extension it stands for. */
  datatype Candidate = Candidate(fileExtension: FileExtension, path: string)

  /** The candidates of one file extension, in the order of its extension strings. */
  function ExtensionCandidates(folder: Option<string>, command: string, fe: FileExtension, exts: seq<string>): (r: seq<Candidate>)
    ensures |r| == |exts|
    ensures forall j :: 0 <= j < |exts| ==> r[j] == Candidate(fe, CommandPath(folder, command, exts[j]))
  {
    seq(|exts|, j requires 0 <= j < |exts| => Candidate(fe, CommandPath(folder, command, exts[j])))
  }

  /** All candidates, file extension by file extension: the order of the nested loops. */
  function Candidates(folder: Option<string>, command: string, fes: seq<FileExtension>,
                      extensionsOf: FileExtension -> seq<string>): (r: seq<Candidate>)
    decreases |fes|
  {
    if fes == [] then []
    else
      var last := fes[|fes| - 1];
      Candidates(folder, command, fes[..|fes| - 1], extensionsOf) + ExtensionCandidates(folder, command, last, extensionsOf(last))
  }

  /**
   * Every candidate is a configured file extension with one of its extension
   * strings, at `normalizeFolder(folder) + removeLeadingSlash(command) + "." + ext`.
   */
  lemma {:induction false} CandidatesAreConfigured(folder: Option<string>, command: string, fes: seq<FileExtension>,
                                                   extensionsOf: FileExtension -> seq<string>)
    ensures forall c :: c in Candidates(folder, command, fes, extensionsOf) ==> (c.fileExtension in fes &&
      exists e :: e in extensionsOf(c.fileExtension) && c.path == CommandPath(folder, command, e))
    decreases |fes|
  {
    if fes != [] {
      var init := fes[..|fes| - 1];
      var last := fes[|fes| - 1];
      CandidatesAreConfigured(folder, command, init, extensionsOf);
      var mine := ExtensionCandidates(folder, command, last, extensionsOf(last));
      forall c | c in Candidates(folder, command, fes, extensionsOf)
        ensures c.fileExtension in fes && exists e :: e in extensionsOf(c.fileExtension) && c.path == CommandPath(folder, command, e)
      {
        if c in mine {
          var j :| 0 <= j < |mine| && mine[j] == c;
          assert extensionsOf(last)[j] in extensionsOf(c.fileExtension);
        } else {
          assert c in Candidates(folder, command, init, extensionsOf);
          assert forall f :: f in init ==> f in fes;
        }
      }
    }
  }

  /** The candidates of the first `n` file extensions are a prefix of all candidates. */
  lemma {:induction false} CandidatesPrefix(folder: Option<string>, command: string, fes: seq<FileExtension>,
                                            extensionsOf: FileExtension -> seq<string>, n: nat)
    requires n <= |fes|
    ensures var pre := Candidates(folder, command, fes[..n], extensionsOf);
      var all := Candidates(folder, command, fes, extensionsOf);
      |pre| <= |all| && all[..|pre|] == pre
    decreases |fes| - n
  {
    if n < |fes| {
      var pre := Candidates(folder, command, fes[..n], extensionsOf);
      var next := Candidates(folder, command, fes[..n + 1], extensionsOf);
      CandidatesPrefix(folder, command, fes, extensionsOf, n + 1);
      CandidatesStep(folder, command, fes, extensionsOf, n);
      assert next[..|pre|] == pre;
      PrefixOfPrefix(pre, next, Candidates(folder, command, fes, extensionsOf));
    } else {
      assert fes[..n] == fes;
    }
  }

  /** The candidates of the first `i + 1` file extensions: those of the first `i`, then those of `fes[i]`. */
  lemma {:induction false} CandidatesStep(folder: Option<string>, command: string, fes: seq<FileExtension>,
                       extensionsOf: FileExtension -> seq<string>, i: nat)
    requires i < |fes|
    ensures Candidates(folder, command, fes[..i + 1], extensionsOf) ==
      Candidates(folder, command, fes[..i], extensionsOf) + ExtensionCandidates(folder, command, fes[i], extensionsOf(fes[i]))
  {
    assert fes[..i + 1][..i] == fes[..i];
  }

  /** A prefix of a prefix is a prefix. */
  lemma {:induction false} PrefixOfPrefix<T>(a: seq<T>, b: seq<T>, c: seq<T>)
    requires |a| <= |b| <= |c| && b[..|a|] == a && c[..|b|] == b
    ensures c[..|a|] == a
  {
    assert c[..|a|] == c[..|b|][..|a|];
  }

  /** Putting the same sequence in front keeps a prefix a prefix. */
  lemma {:induction false} PrefixAfter<T>(x: seq<T>, y: seq<T>, z: seq<T>)
    requires |y| <= |z| && z[..|y|] == y
    ensures (x + z)[..|x| + |y|] == x + y
  {
    assert (x + z)[..|x| + |y|] == x + z[..|y|];
  }

  /** The candidates of the first `j + 1` extension strings: those of the first `j`, then the j-th. */
  lemma {:induction false} ExtensionCandidatesStep(folder: Option<string>, command: string, fe: FileExtension, exts: seq<string>, j: nat)
    requires j < |exts|
    ensures ExtensionCandidates(folder, command, fe, exts[..j + 1]) ==
      ExtensionCandidates(folder, command, fe, exts[..j]) + [Candidate(fe, CommandPath(folder, command, exts[j]))]
  {
    var longer := ExtensionCandidates(folder, command, fe, exts[..j + 1]);
    var shorter := ExtensionCandidates(folder, command, fe, exts[..j]);
    var both := shorter + [Candidate(fe, CommandPath(folder, command, exts[j]))];
    forall k | 0 <= k < j + 1 ensures longer[k] == both[k] {
      if k < j {
        assert exts[..j + 1][k] == exts[k] == exts[..j][k];
      }
    }
    assert longer == both;
  }

  /** One more extension string tried after the candidates `base`. */
  lemma {:induction false} TriedNext(base: seq<Candidate>, folder: Option<string>, command: string, fe: FileExtension,
                  exts: seq<string>, j: nat)
    requires j < |exts|
    ensures base + ExtensionCandidates(folder, command, fe, exts[..j + 1]) ==
      base + ExtensionCandidates(folder, command, fe, exts[..j]) + [Candidate(fe, CommandPath(folder, command, exts[j]))]
  {
    ExtensionCandidatesStep(folder, command, fe, exts, j);
    var front := ExtensionCandidates(folder, command, fe, exts[..j]);
    var c := Candidate(fe, CommandPath(folder, command, exts[j]));
    assert base + (front + [c]) == (base + front) + [c];
  }

  /**
   * What the nested loops have tried once extension string `j` of `fes[i]`
   * is done (the candidates of the earlier file extensions, then the first
   * `j` of `fes[i]`) is a prefix of all candidates.
   */
  lemma {:induction false} CandidatesThrough(folder: Option<string>, command: string, fes: seq<FileExtension>,
                          extensionsOf: FileExtension -> seq<string>, i: nat, j: nat)
    requires i < |fes| && j <= |extensionsOf(fes[i])|
    ensures var tried := Candidates(folder, command, fes[..i], extensionsOf) +
                         ExtensionCandidates(folder, command, fes[i], extensionsOf(fes[i])[..j]);
      var all := Candidates(folder, command, fes, extensionsOf);
      |tried| <= |all| && all[..|tried|] == tried
  {
    var exts := extensionsOf(fes[i]);
    var base := Candidates(folder, command, fes[..i], extensionsOf);
    var mine := ExtensionCandidates(folder, command, fes[i], exts);
    var part := ExtensionCandidates(folder, command, fes[i], exts[..j]);
    forall k | 0 <= k < j ensures mine[k] == part[k] {
      assert exts[..j][k] == exts[k];
    }
    assert mine[..j] == part;
    PrefixAfter(base, part, mine);
    CandidatesStep(folder, command, fes, extensionsOf, i);
    CandidatesPrefix(folder, command, fes, extensionsOf, i + 1);
    PrefixOfPrefix(base + part, base + mine, Candidates(folder, command, fes, extensionsOf));
  }

  /** readLine: the lines of a text, split at '\n'; a last line without '\n' still counts. */
  function SplitLines(raw: string): seq<string>
    decreases |raw|
  {
    if raw == [] then []
    else
      var i := IndexOf(raw, '\n');
      if i == -1 then [raw] else [raw[..i]] + SplitLines(raw[i + 1..])
  }

  /** No line read holds a '\n'. */
  lemma {:induction false} SplitLinesHaveNoNewline(raw: string)
    ensures forall l :: l in SplitLines(raw) ==> '\n' !in l
    decreases |raw|
  {
    if raw != [] {
      var i := IndexOf(raw, '\n');
      if i != -1 {
        SplitLinesUnfold(raw, i);
        SplitLinesHaveNoNewline(raw[i + 1..]);
      }
    }
  }

  /** What readFromInputStream builds: every line followed by "\n". */
  function Joined(lines: seq<string>): string {
    if lines == [] then "" else lines[0] + "\n" + Joined(lines[1..])
  }

  /** Every line adds at least its '\n', and joined lines end with one. */
  lemma {:induction false} JoinedShape(lines: seq<string>)
    ensures |Joined(lines)| >= |lines|
    ensures |lines| > 0 ==> Joined(lines)[|Joined(lines)| - 1] == '\n'
    decreases |lines|
  {
    if lines != [] {
      JoinedShape(lines[1..]);
    }
  }

  lemma {:induction false} JoinedAppend(lines: seq<string>, line: string)
    ensures Joined(lines + [line]) == Joined(lines) + line + "\n"
    decreases |lines|
  {
    if lines == [] {
      assert [] + [line] == [line];
    } else {
      assert (lines + [line])[1..] == lines[1..] + [line];
      JoinedAppend(lines[1..], line);
    }
  }

  /** Splitting joined lines gives the lines back, when no line holds a '\n'. */
  lemma {:induction false} SplitJoinedLines(lines: seq<string>)
    requires forall l :: l in lines ==> '\n' !in l
    ensures SplitLines(Joined(lines)) == lines
    decreases |lines|
  {
    if lines != [] {
      var text := Joined(lines);
      var l := lines[0];
      assert text == l + "\n" + Joined(lines[1..]);
      assert text[|l|] == '\n' && text[..|l|] == l;
      IndexOfIsFirst(text, '\n', |l|);
      assert text[|l| + 1..] == Joined(lines[1..]);
      SplitJoinedLines(lines[1..]);
    }
  }

  /** A text with a final '\n' added when it is non-empty and lacks one. */
  function Terminated(s: string): (r: string)
    ensures r == "" <==> s == ""
  {
    if s == "" || s[|s| - 1] == '\n' then s else s + "\n"
  }

  /** Terminating a text after its first line only affects the rest. */
  lemma {:induction false} TerminatedAfterLine(line: string, rest: string)
    ensures Terminated(line + "\n" + rest) == line + "\n" + Terminated(rest)
  {
    var t := line + "\n" + rest;
    assert t[|t| - 1] == if rest == "" then '\n' else rest[|rest| - 1];
    if rest != "" && rest[|rest| - 1] != '\n' {
      assert t + "\n" == line + "\n" + (rest + "\n");
    }
  }

  /** A text is its part before a '\n', the '\n', and its part after. */
  lemma {:induction false} SplitAround(raw: string, i: nat)
    requires i < |raw| && raw[i] == '\n'
    ensures raw == raw[..i] + "\n" + raw[i + 1..]
  {
    assert raw == raw[..i] + [raw[i]] + raw[i + 1..];
  }

  /** One step of readLine: the first line, then the lines of the rest, joined. */
  lemma {:induction false} SplitLinesStep(raw: string, i: nat)
    requires i < |raw| && IndexOf(raw, '\n') == i
    ensures Joined(SplitLines(raw)) == raw[..i] + "\n" + Joined(SplitLines(raw[i + 1..]))
  {
    SplitLinesUnfold(raw, i);
    JoinedCons(raw[..i], SplitLines(raw[i + 1..]));
  }

  lemma {:induction false} SplitLinesUnfold(raw: string, i: nat)
    requires i < |raw| && IndexOf(raw, '\n') == i
    ensures SplitLines(raw) == [raw[..i]] + SplitLines(raw[i + 1..])
  {
  }

  lemma {:induction false} JoinedCons(line: string, rest: seq<string>)
    ensures Joined([line] + rest) == line + "\n" + Joined(rest)
  {
    assert ([line] + rest)[1..] == rest;
  }

  /**
   * Joining the lines read from a text gives the text back, with a final
   * '\n' added when it was missing; so the text is empty only when the
   * resource is.
   */
  lemma {:induction false} JoinSplitLines(raw: string)
    ensures Joined(SplitLines(raw)) == Terminated(raw)
    ensures Joined(SplitLines(raw)) == "" <==> raw == ""
    decreases |raw|
  {
    if raw != [] {
      var i := IndexOf(raw, '\n');
      if i == -1 {
        assert SplitLines(raw) == [raw];
        assert Joined([raw]) == raw + "\n" + Joined([]);
      } else {
        SplitLinesStep(raw, i);
        SplitAround(raw, i);
        JoinSplitLines(raw[i + 1..]);
        TerminatedAfterLine(raw[..i], raw[i + 1..]);
      }
    }
  }

  /** The text a resource yields: its joined lines, or "" when it is missing or unreadable. */
  function TextAt(resource: string -> Option<string>, path: string): (r: string)
    ensures resource(path).None? ==> r == ""
    ensures resource(path).Some? ==> r == Terminated(resource(path).value)
  {
    match resource(path)
    case None => ""
    case Some(raw) =>
      JoinSplitLines(raw);
      Joined(SplitLines(raw))
  }

  /** textFromPath as a function: the text each path yields. */
  function TextsOf(resource: string -> Option<string>): string -> string {
    path => TextAt(resource, path)
  }

  /** The index of the first candidate whose text is not empty. */
  function FirstHit(cands: seq<Candidate>, text: string -> string): (r: Option<nat>)
    ensures r.Some? ==> r.value < |cands| && text(cands[r.value].path) != ""
    decreases |cands|
  {
    if cands == [] then None
    else if text(cands[0].path) != "" then Some(0)
    else
      var r := FirstHit(cands[1..], text);
      if r.Some? then Some(r.value + 1) else None
  }

  /** The first hit is non-empty with only empty candidates before it; no hit means every candidate is empty. */
  lemma {:induction false} FirstHitIsFirst(cands: seq<Candidate>, text: string -> string)
    ensures var r := FirstHit(cands, text);
      r.Some? ==> (text(cands[r.value].path) != "" &&
        forall m :: 0 <= m < r.value ==> text(cands[m].path) == "")
    ensures FirstHit(cands, text).None? ==> forall m :: 0 <= m < |cands| ==> text(cands[m].path) == ""
    decreases |cands|
  {
    if cands != [] && text(cands[0].path) == "" {
      var tail := cands[1..];
      FirstHitIsFirst(tail, text);
      var r := FirstHit(tail, text);
      var n := if r.Some? then r.value + 1 else |cands|;
      forall m | 0 <= m < n ensures text(cands[m].path) == "" {
        if m > 0 {
          assert cands[m] == tail[m - 1];
        }
      }
      if r.Some? {
        assert cands[r.value + 1] == tail[r.value];
      }
    }
  }

  /** Every candidate has empty text (stated one candidate at a time, from the back). */
  ghost predicate AllEmpty(cands: seq<Candidate>, text: string -> string)
    decreases |cands|
  {
    cands == [] || (AllEmpty(cands[..|cands| - 1], text) && text(cands[|cands| - 1].path) == "")
  }

  lemma {:induction false} AllEmptyMeans(cands: seq<Candidate>, text: string -> string)
    requires AllEmpty(cands, text)
    ensures forall m :: 0 <= m < |cands| ==> text(cands[m].path) == ""
    decreases |cands|
  {
    if cands != [] {
      var init := cands[..|cands| - 1];
      AllEmptyMeans(init, text);
      forall m | 0 <= m < |cands| - 1 ensures text(cands[m].path) == "" {
        assert cands[m] == init[m];
      }
    }
  }

  /** One more empty candidate keeps every candidate empty. */
  lemma {:induction false} AllEmptySnoc(cands: seq<Candidate>, c: Candidate, text: string -> string)
    requires AllEmpty(cands, text) && text(c.path) == ""
    ensures AllEmpty(cands + [c], text)
  {
    assert (cands + [c])[..|cands|] == cands;
  }

  /** Empty candidates and then a non-empty one, at the front of a sequence: that one is the first hit. */
  lemma {:induction false} FirstHitAfterEmpty(cands: seq<Candidate>, text: string -> string, tried: seq<Candidate>, c: Candidate)
    requires |tried| < |cands| && cands[..|tried| + 1] == tried + [c]
    requires AllEmpty(tried, text) && text(c.path) != ""
    ensures FirstHit(cands, text) == Some(|tried|) && cands[|tried|] == c
    ensures Tried(cands, text) == tried + [c]
  {
    var k := |tried|;
    AllEmptyMeans(tried, text);
    FirstHitIsFirst(cands, text);
    assert cands[k] == cands[..k + 1][k] == c;
    forall m | 0 <= m < k ensures text(cands[m].path) == "" {
      assert cands[m] == cands[..k + 1][m] == tried[m];
    }
  }

  /** Only empty candidates: no hit. */
  lemma {:induction false} NoHit(cands: seq<Candidate>, text: string -> string)
    requires AllEmpty(cands, text)
    ensures FirstHit(cands, text) == None
  {
    AllEmptyMeans(cands, text);
    FirstHitIsFirst(cands, text);
  }

  /**
   * A lookup whose candidates up to extension string `j` of `fes[i]` were
   * empty, and whose next candidate is not, answers with that candidate
   * and has tried exactly the candidates up to it.
   */
  lemma {:induction false} ComposeHit(folder: Option<string>, fes: seq<FileExtension>, extensionsOf: FileExtension -> seq<string>,
                   text: string -> string, command: string, i: nat, j: nat)
    requires i < |fes| && j < |extensionsOf(fes[i])|
    requires AllEmpty(Candidates(folder, command, fes[..i], extensionsOf) +
                      ExtensionCandidates(folder, command, fes[i], extensionsOf(fes[i])[..j]), text)
    requires text(CommandPath(folder, command, extensionsOf(fes[i])[j])) != ""
    ensures var path := CommandPath(folder, command, extensionsOf(fes[i])[j]);
      Compose(folder, Some(fes), extensionsOf, text, command) ==
        Some(CommandResponse(fes[i], text(path))) &&
      Tried(Candidates(folder, command, fes, extensionsOf), text) ==
        Candidates(folder, command, fes[..i], extensionsOf) +
        ExtensionCandidates(folder, command, fes[i], extensionsOf(fes[i])[..j + 1])
  {
    var exts := extensionsOf(fes[i]);
    var base := Candidates(folder, command, fes[..i], extensionsOf);
    var tried := base + ExtensionCandidates(folder, command, fes[i], exts[..j]);
    var c := Candidate(fes[i], CommandPath(folder, command, exts[j]));
    CandidatesThrough(folder, command, fes, extensionsOf, i, j + 1);
    TriedNext(base, folder, command, fes[i], exts, j);
    FirstHitAfterEmpty(Candidates(folder, command, fes, extensionsOf), text, tried, c);
  }

  /** A lookup whose candidates are all empty answers nothing and tries them all. */
  lemma {:induction false} ComposeMiss(folder: Option<string>, fes: seq<FileExtension>, extensionsOf: FileExtension -> seq<string>,
                    text: string -> string, command: string)
    requires AllEmpty(Candidates(folder, command, fes, extensionsOf), text)
    ensures Compose(folder, Some(fes), extensionsOf, text, command) == None
    ensures Tried(Candidates(folder, command, fes, extensionsOf), text) == Candidates(folder, command, fes, extensionsOf)
  {
    NoHit(Candidates(folder, command, fes, extensionsOf), text);
  }

  /** The candidates a lookup touches: up to and including the first hit, or all of them. */
  function Tried(cands: seq<Candidate>, text: string -> string): seq<Candidate> {
    match FirstHit(cands, text)
    case Some(k) => cands[..k + 1]
    case None => cands
  }

  function PathsOf(cands: seq<Candidate>): set<string> {
    set c | c in cands :: c.path
  }

  /** The paths a lookup loads, in order: those of `cands` not already known, each once. */
  function NewLoads(cands: seq<Candidate>, known: set<string>): seq<string>
    decreases |cands|
  {
    if cands == [] then []
    else
      var init := cands[..|cands| - 1];
      var p := cands[|cands| - 1].path;
      if p in known || p in PathsOf(init) then NewLoads(init, known) else NewLoads(init, known) + [p]
  }

  /** What composeCommandResponse answers, whatever the cache holds. */
  function Compose(folder: Option<string>, fileExtensions: Option<seq<FileExtension>>,
                   extensionsOf: FileExtension -> seq<string>, text: string -> string,
                   command: string): (r: Option<CommandResponse>)
    ensures fileExtensions.None? ==> r.None?
  {
    match fileExtensions
    case None => None
    case Some(fes) =>
      var all := Candidates(folder, command, fes, extensionsOf);
      match FirstHit(all, text)
      case None => None
      case Some(k) => Some(CommandResponse(all[k].fileExtension, text(all[k].path)))
  }

  /**
   * A response holds non-empty text found at some candidate of its file
   * extension after only empty candidates; no response means every
   * candidate is empty.
   */
  lemma {:induction false} ComposeSpec(folder: Option<string>, fileExtensions: Option<seq<FileExtension>>,
                    extensionsOf: FileExtension -> seq<string>, text: string -> string, command: string)
    ensures var r := Compose(folder, fileExtensions, extensionsOf, text, command);
      r.Some? ==> (fileExtensions.Some? && r.value.text != "" &&
        var all := Candidates(folder, command, fileExtensions.value, extensionsOf);
        exists k :: 0 <= k < |all| && all[k].fileExtension == r.value.extension &&
          text(all[k].path) == r.value.text &&
          forall m :: 0 <= m < k ==> text(all[m].path) == "")
    ensures var r := Compose(folder, fileExtensions, extensionsOf, text, command);
      r.None? && fileExtensions.Some? ==>
        var all := Candidates(folder, command, fileExtensions.value, extensionsOf);
        forall m :: 0 <= m < |all| ==> text(all[m].path) == ""
  {
    if fileExtensions.Some? {
      var all := Candidates(folder, command, fileExtensions.value, extensionsOf);
      FirstHitIsFirst(all, text);
      var h := FirstHit(all, text);
      if h.Some? {
        var r := Compose(folder, fileExtensions, extensionsOf, text, command);
        assert all[h.value].fileExtension == r.value.extension && text(all[h.value].path) == r.value.text;
      }
    }
  }

  /** A lookup whose candidates are all cached loads nothing. */
  lemma {:induction false} NewLoadsOfKnown(cands: seq<Candidate>, known: set<string>)
    requires PathsOf(cands) <= known
    ensures NewLoads(cands, known) == []
    decreases |cands|
  {
    if cands != [] {
      var init := cands[..|cands| - 1];
      assert cands[|cands| - 1] in cands;
      assert PathsOf(init) <= PathsOf(cands) by {
        forall c | c in init ensures c in cands { }
      }
      NewLoadsOfKnown(init, known);
    }
  }

  /** Appending one element after a concatenation. */
  lemma {:induction false} SnocAssoc<T>(a: seq<T>, b: seq<T>, x: T)
    ensures a + (b + [x]) == a + b + [x]
  {
  }

  /** One more candidate tried: its path joins the tried paths, and is loaded when it is new. */
  lemma {:induction false} SnocStep(cands: seq<Candidate>, c: Candidate, known: set<string>)
    ensures PathsOf(cands + [c]) == PathsOf(cands) + {c.path}
    ensures NewLoads(cands + [c], known) ==
      if c.path in known || c.path in PathsOf(cands) then NewLoads(cands, known)
      else NewLoads(cands, known) + [c.path]
  {
    var next := cands + [c];
    assert next[..|cands|] == cands && next[|cands|] == c;
  }

  /** Every path is loaded at most once per lookup. */
  lemma {:induction false} NewLoadsAreNewAndDistinct(cands: seq<Candidate>, known: set<string>)
    ensures var l := NewLoads(cands, known);
      (forall i :: 0 <= i < |l| ==> l[i] !in known && l[i] in PathsOf(cands)) &&
      (forall i, j :: 0 <= i < j < |l| ==> l[i] != l[j])
    decreases |cands|
  {
    if cands != [] {
      var n := |cands| - 1;
      var init := cands[..n];
      var p := cands[n].path;
      NewLoadsAreNewAndDistinct(init, known);
      assert cands == init + [cands[n]];
      SnocStep(init, cands[n], known);
    }
  }

  /** The paths a load log holds. */
  ghost function Loaded(log: seq<string>): set<string>
    decreases |log|
  {
    if log == [] then {} else Loaded(log[..|log| - 1]) + {log[|log| - 1]}
  }

  /** No path appears twice in a load log. */
  ghost predicate NoRepeats(log: seq<string>)
    decreases |log|
  {
    log == [] || (log[|log| - 1] !in Loaded(log[..|log| - 1]) && NoRepeats(log[..|log| - 1]))
  }

  /** Loaded is the set of the log's elements. */
  lemma {:induction false} LoadedIsElements(log: seq<string>)
    ensures forall p :: p in Loaded(log) <==> p in log
    decreases |log|
  {
    if log != [] {
      var init := log[..|log| - 1];
      LoadedIsElements(init);
      assert log == init + [log[|log| - 1]];
    }
  }

  /** A log without repeats holds every path at most once. */
  lemma {:induction false} NoRepeatsIsDistinct(log: seq<string>)
    requires NoRepeats(log)
    ensures forall i, j :: 0 <= i < j < |log| ==> log[i] != log[j]
    decreases |log|
  {
    if log != [] {
      var n := |log| - 1;
      var init := log[..n];
      NoRepeatsIsDistinct(init);
      LoadedIsElements(init);
      forall i, j | 0 <= i < j < |log| ensures log[i] != log[j] {
        if j < n {
          assert log[i] == init[i] && log[j] == init[j];
        } else {
          assert log[i] == init[i];
        }
      }
    }
  }

  /** readFromInputStream: appends every line and a "\n" to a StringBuilder. */
  method ReadFromInputStream(lines: seq<string>) returns (text: string)
    ensures text == Joined(lines)
  {
    text := "";
    for i := 0 to |lines|
      invariant text == Joined(lines[..i])
    {
      JoinedAppend(lines[..i], lines[i]);
      assert lines[..i + 1] == lines[..i] + [lines[i]];
      text := text + lines[i] + "\n";
    }
    assert lines[..|lines|] == lines;
  }

  class DefaultTextResourceLoader {
    const config: ChatbotsConfigurationProperties
    /** The classpath resource at a path: its content, or None when it is missing or unreadable. */
    const resource: string -> Option<string>
    /** FileExtension.getExtensions(): the extension strings of each file extension. */
    const extensionsOf: FileExtension -> seq<string>
    /** The commandText cache: path to text, "" for a missing resource. */
    var commandText: map<string, string>
    /** Every path handed to the resource loader, in order. */
    ghost var loads: seq<string>

    /** Cached texts are the resources' texts, and every cached path was loaded exactly once. */
    ghost predicate Valid()
      reads this
    {
      && (forall p :: p in commandText ==> commandText[p] == TextAt(resource, p))
      && commandText.Keys == Loaded(loads)
      && NoRepeats(loads)
    }

    constructor (config: ChatbotsConfigurationProperties, resource: string -> Option<string>,
                 extensionsOf: FileExtension -> seq<string>)
      ensures Valid()
      ensures this.config == config && this.resource == resource && this.extensionsOf == extensionsOf
      ensures commandText == map[] && loads == []
    {
      this.config := config;
      this.resource := resource;
      this.extensionsOf := extensionsOf;
      commandText := map[];
      loads := [];
    }

    /** textFromPath: the resource's lines, joined, or "" when it cannot be read. */
    method TextFromPath(path: string) returns (text: string)
      ensures text == TextAt(resource, path)
    {
      match resource(path)
      case None => text := "";
      case Some(raw) => text := ReadFromInputStream(SplitLines(raw));
    }

    /** commandText.computeIfAbsent(path, textFromPath or ""). */
    method CachedText(path: string) returns (text: string)
      requires Valid()
      modifies this
      ensures Valid()
      ensures text == TextAt(resource, path)
      ensures commandText.Keys == old(commandText.Keys) + {path}
      ensures loads == if path in old(commandText) then old(loads) else old(loads) + [path]
    {
      if path in commandText {
        text := commandText[path];
      } else {
        text := TextFromPath(path);
        commandText := commandText[path := text];
        assert (loads + [path])[..|loads|] == loads;
        loads := loads + [path];
      }
    }

    /**
     * The cache and the load log once a lookup has tried the candidates
     * `tried`, starting from the cached paths `known` and the load log `loads0`.
     */
    ghost predicate After(tried: seq<Candidate>, known: set<string>, loads0: seq<string>)
      reads this
    {
      && Valid()
      && commandText.Keys == known + PathsOf(tried)
      && loads == loads0 + NewLoads(tried, known)
    }

    /** The text of one candidate, through the cache, after the candidates `tried`. */
    method LoadCandidate(path: string, ghost fe: FileExtension, ghost tried: seq<Candidate>,
                         ghost known: set<string>, ghost loads0: seq<string>)
      returns (text: string)
      requires After(tried, known, loads0)
      modifies this
      ensures After(tried + [Candidate(fe, path)], known, loads0)
      ensures text == TextsOf(resource)(path)
    {
      SnocStep(tried, Candidate(fe, path), known);
      SnocAssoc(loads0, NewLoads(tried, known), path);
      text := CachedText(path);
    }

    /**
     * One step of the inner loop: the text of extension string `j` of `fe`,
     * through the cache, after the candidates `base` and the first `j`
     * extension strings have been tried.
     */
    method LoadNext(folder: Option<string>, command: string, fe: FileExtension, exts: seq<string>, j: nat,
                    ghost base: seq<Candidate>, ghost known: set<string>, ghost loads0: seq<string>)
      returns (text: string)
      requires j < |exts|
      requires After(base + ExtensionCandidates(folder, command, fe, exts[..j]), known, loads0)
      requires AllEmpty(base + ExtensionCandidates(folder, command, fe, exts[..j]), TextsOf(resource))
      modifies this
      ensures text == TextsOf(resource)(CommandPath(folder, command, exts[j]))
      ensures After(base + ExtensionCandidates(folder, command, fe, exts[..j + 1]), known, loads0)
      ensures text == "" ==> AllEmpty(base + ExtensionCandidates(folder, command, fe, exts[..j + 1]), TextsOf(resource))
    {
      var path := CommandPath(folder, command, exts[j]);
      ghost var tried := base + ExtensionCandidates(folder, command, fe, exts[..j]);
      TriedNext(base, folder, command, fe, exts, j);
      text := LoadCandidate(path, fe, tried, known, loads0);
      if text == "" {
        AllEmptySnoc(tried, Candidate(fe, path), TextsOf(resource));
      }
    }

    /** The inner loop of composeCommandResponse: the extension strings of the file extension `fes[i]`. */
    method TryFileExtension(folder: Option<string>, command: string, fe: FileExtension, ghost fes: seq<FileExtension>,
                            ghost i: nat, ghost known: set<string>, ghost loads0: seq<string>)
      returns (r: Option<CommandResponse>)
      requires i < |fes| && fes[i] == fe
      requires After(Candidates(folder, command, fes[..i], extensionsOf), known, loads0)
      requires AllEmpty(Candidates(folder, command, fes[..i], extensionsOf), TextsOf(resource))
      modifies this
      ensures r.None? ==> After(Candidates(folder, command, fes[..i + 1], extensionsOf), known, loads0)
      ensures r.None? ==> AllEmpty(Candidates(folder, command, fes[..i + 1], extensionsOf), TextsOf(resource))
      ensures r.Some? ==> r == Compose(folder, Some(fes), extensionsOf, TextsOf(resource), command)
      ensures r.Some? ==> After(Tried(Candidates(folder, command, fes, extensionsOf), TextsOf(resource)), known, loads0)
    {
      var exts := extensionsOf(fe);
      ghost var base := Candidates(folder, command, fes[..i], extensionsOf);
      assert exts[..0] == [] && base + ExtensionCandidates(folder, command, fe, []) == base;
      for j := 0 to |exts|
        invariant After(base + ExtensionCandidates(folder, command, fe, exts[..j]), known, loads0)
        invariant AllEmpty(base + ExtensionCandidates(folder, command, fe, exts[..j]), TextsOf(resource))
      {
        var text := LoadNext(folder, command, fe, exts, j, base, known, loads0);
        if text != "" {
          ComposeHit(folder, fes, extensionsOf, TextsOf(resource), command, i, j);
          return Some(CommandResponse(fe, text));
        }
      }
      assert exts[..|exts|] == exts;
      CandidatesStep(folder, command, fes, extensionsOf, i);
      return None;
    }

    method ComposeCommandResponse(command: string) returns (r: Option<CommandResponse>)
      requires Valid()
      modifies this
      ensures Valid()
      ensures r == Compose(Some(config.folder), config.possibleStaticCommandExtensions, extensionsOf, TextsOf(resource), command)
      ensures config.possibleStaticCommandExtensions.None? ==> commandText == old(commandText) && loads == old(loads)
      ensures config.possibleStaticCommandExtensions.Some? ==>
        var tried := Tried(Candidates(Some(config.folder), command, config.possibleStaticCommandExtensions.value,
                                      extensionsOf), TextsOf(resource));
        commandText.Keys == old(commandText.Keys) + PathsOf(tried) &&
        loads == old(loads) + NewLoads(tried, old(commandText.Keys))
    {
      var folder := Some(config.folder);
      if config.possibleStaticCommandExtensions.None? {
        return None;
      }
      var fes := config.possibleStaticCommandExtensions.value;
      ghost var known := commandText.Keys;
      ghost var loads0 := loads;
      assert fes[..0] == [];
      assert PathsOf([]) == {};
      for i := 0 to |fes|
        invariant folder == Some(config.folder) && config.possibleStaticCommandExtensions == Some(fes)
        invariant After(Candidates(folder, command, fes[..i], extensionsOf), known, loads0)
        invariant AllEmpty(Candidates(folder, command, fes[..i], extensionsOf), TextsOf(resource))
      {
        r := TryFileExtension(folder, command, fes[i], fes, i, known, loads0);
        if r.Some? {
          return;
        }
      }
      assert fes[..|fes|] == fes;
      ComposeMiss(folder, fes, extensionsOf, TextsOf(resource), command);
      return None;
    }
  }

  /**
   * Repeated lookups of one command answer alike, and the second loads
   * nothing: every path the first one tried is now cached.
   */
  method ComposeTwice(loader: DefaultTextResourceLoader, command: string) returns (r1: Option<CommandResponse>, r2: Option<CommandResponse>)
    requires loader.Valid()
    modifies loader
    ensures r1 == r2
    ensures loader.loads == old(loader.loads) + (
      if loader.config.possibleStaticCommandExtensions.None? then []
      else NewLoads(Tried(Candidates(Some(loader.config.folder), command,
                                     loader.config.possibleStaticCommandExtensions.value, loader.extensionsOf),
                          TextsOf(loader.resource)), old(loader.commandText.Keys)))
  {
    r1 := loader.ComposeCommandResponse(command);
    ghost var mid := loader.loads;
    r2 := loader.ComposeCommandResponse(command);
    if loader.config.possibleStaticCommandExtensions.Some? {
      var tried := Tried(Candidates(Some(loader.config.folder), command,
                                    loader.config.possibleStaticCommandExtensions.value, loader.extensionsOf),
                         TextsOf(loader.resource));
      NewLoadsOfKnown(tried, old(loader.commandText.Keys) + PathsOf(tried));
    }
  }
}
