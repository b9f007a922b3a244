/**
 * Basecamp webhook validation: a request is accepted only when its
 * User-Agent header contains the word "Basecamp", compared case-sensitively.
 * BasecampUserAgentValidator states the rule; the Basecamp Lambda handler
 * applies it to the header it reads from the request.
 */
module Basecamp {
  import opened Wrappers
  import opened JavaStrings

  /** The word a Basecamp User-Agent must contain. */
  const BASECAMP: string := "Basecamp"

  /** HttpHeaders.USER_AGENT. */
  const USER_AGENT: string := "User-Agent"

  /** validateUserAgent: false for a null or empty value, else whether it contains "Basecamp". */
  function ValidateUserAgent(userAgent: Option<string>): (r: bool)
    ensures r <==> userAgent.Some? && exists i: nat :: OccursAt(userAgent.value, BASECAMP, i)
    ensures userAgent.None? || userAgent == Some("") ==> !r
  {
    match userAgent
    case None => false
    case Some(value) =>
      if value == "" then false
      else Contains(value, BASECAMP)
  }

  /** The word anywhere in the value, whatever surrounds it, is accepted. */
  lemma AcceptsBasecampAnywhere(before: string, after: string)
    ensures ValidateUserAgent(Some(before + BASECAMP + after))
  {
    var value := before + BASECAMP + after;
    assert value[|before|..|before| + |BASECAMP|] == BASECAMP;
    assert OccursAt(value, BASECAMP, |before|);
  }

  /** A value without a capital 'B' cannot contain the word. */
  lemma RejectsWithoutCapitalB(value: string)
    requires 'B' !in value
    ensures !ValidateUserAgent(Some(value))
  {
    if exists i: nat :: OccursAt(value, BASECAMP, i) {
      var i: nat :| OccursAt(value, BASECAMP, i);
      assert value[i..i + |BASECAMP|][0] == 'B';
    }
  }

  /** The match is case-sensitive: "basecamp" alone is rejected. */
  lemma RejectsLowerCaseWord()
    ensures !ValidateUserAgent(Some("basecamp"))
  {
    var lower := "basecamp";
    assert 'B' !in lower by {
      forall k | 0 <= k < |lower| ensures lower[k] != 'B' {
      }
    }
    RejectsWithoutCapitalB(lower);
  }

  /** String.toLowerCase(Locale.ROOT) on the ASCII letters a header name is made of. */
  function ToLowerAscii(s: string): (r: string)
    ensures |r| == |s|
    ensures forall k :: 0 <= k < |s| ==> r[k] == if 'A' <= s[k] <= 'Z' then s[k] - 'A' + 'a' else s[k]
  {
    seq(|s|, k requires 0 <= k < |s| => if 'A' <= s[k] <= 'Z' then s[k] - 'A' + 'a' else s[k])
  }

  /**
   * Request headers as API Gateway gives them: a header name may be mapped to
   * null, which `None` stands for.
   */
  type Headers = map<string, Option<string>>

  /** headers.get(name) != null: the name is mapped to a value that is not null. */
  predicate HasValue(h: Headers, name: string) {
    name in h && h[name].Some?
  }

  /**
   * AbstractHandler.parseHeader: no headers at all give nothing; otherwise the
   * non-null header under its own name, or failing that whatever is under its
   * lower-cased name.
   */
  function ParseHeader(headers: Option<Headers>, headerName: string): (r: Option<string>)
    ensures headers.None? ==> r.None?
    ensures headers.Some? && HasValue(headers.value, headerName) ==> r == headers.value[headerName]
    ensures headers.Some? && !HasValue(headers.value, headerName) && ToLowerAscii(headerName) in headers.value ==>
      r == headers.value[ToLowerAscii(headerName)]
    ensures r.None? <==>
      headers.None? || (!HasValue(headers.value, headerName) && !HasValue(headers.value, ToLowerAscii(headerName)))
  {
    match headers
    case None => None
    case Some(h) =>
      if HasValue(h, headerName) then h[headerName]
      else if ToLowerAscii(headerName) in h then h[ToLowerAscii(headerName)]
      else None
  }

  /** A header whose own name is mapped to null is looked up again under its lower-cased name. */
  lemma NullHeaderFallsBack(h: Headers, headerName: string, value: string)
    requires headerName != ToLowerAscii(headerName)
    ensures ParseHeader(Some(h[headerName := None][ToLowerAscii(headerName) := Some(value)]), headerName) == Some(value)
  {
  }

  /** The Basecamp Lambda handler's validate: a missing header is rejected, else contains("Basecamp"). */
  function LambdaValidate(headers: Option<Headers>): (r: bool)
    ensures ParseHeader(headers, USER_AGENT).None? ==> !r
  {
    match ParseHeader(headers, USER_AGENT)
    case None => false
    case Some(value) => Contains(value, BASECAMP)
  }

  /** The lower-cased header name the Lambda handler falls back to. */
  lemma UserAgentLowerCase()
    ensures ToLowerAscii(USER_AGENT) == "user-agent"
  {
    var lower := ToLowerAscii(USER_AGENT);
    assert lower[0] == 'u' && lower[5] == 'a';
  }

  /** The Lambda handler accepts exactly the requests whose User-Agent the validator accepts. */
  lemma LambdaValidateAgreesWithValidator(headers: Option<Headers>)
    ensures LambdaValidate(headers) == ValidateUserAgent(ParseHeader(headers, USER_AGENT))
  {
    match ParseHeader(headers, USER_AGENT)
    case None =>
    case Some(value) =>
      if value == "" {
        assert !exists i: nat :: OccursAt(value, BASECAMP, i);
      }
  }
}
