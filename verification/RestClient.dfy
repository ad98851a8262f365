/**
 * The string handling and decisions of the REST client of a Postchain node:
 * the base-URL normalisation of its constructor, the status-request path, the
 * message-hash check, the splicing of the query name into a query's JSON text,
 * the per-character hex rendering of a string, and the outcome chosen for each
 * transaction status the node reports.
 *
 * A C# `string` that may be `null` where the client tests for `null` is an
 * `Option<string>`; `None` is `null`.
 */
module Rest {
  import opened Wrappers
  import Numerals

  /** The value C# concatenation uses for a possibly-null string: `null` reads as "". */
  function OrEmpty(s: Option<string>): string {
    if s.Some? then s.value else ""
  }

  // ---------------------------------------------------------------------------
  // The base URL

  /** The exception `Last()` throws on an empty URL. */
  datatype UrlError = EmptyUrl

  /** True of a string whose last character is '/'. */
  predicate EndsWithSlash(s: string) {
    |s| > 0 && s[|s| - 1] == '/'
  }

  /**
   * The URL the constructor keeps: the given one if it already ends with '/',
   * otherwise the given one followed by a single '/'. An empty URL throws.
   */
  function WithTrailingSlash(url: string): (r: Result<string, UrlError>)
    ensures r.Failure? <==> url == []
    ensures r.Success? ==> EndsWithSlash(r.value) && url <= r.value && |r.value| <= |url| + 1
    ensures r.Success? && EndsWithSlash(url) ==> r.value == url
  {
    if url == [] then Failure(EmptyUrl)
    else if url[|url| - 1] != '/' then Success(url + "/")
    else Success(url)
  }

  /** The kept URL is the shortest extension of the given one that ends with '/'. */
  lemma TrailingSlashIsShortest(url: string, t: string)
    requires url != [] && url <= t && EndsWithSlash(t)
    ensures |WithTrailingSlash(url).value| <= |t|
  {
  }

  /** Normalising an already normalised URL changes nothing. */
  lemma TrailingSlashIdempotent(url: string)
    requires url != []
    ensures WithTrailingSlash(WithTrailingSlash(url).value) == WithTrailingSlash(url)
  {
  }

  // ---------------------------------------------------------------------------
  // The message hash and the status path

  /** The exceptions `ValidateMessageHash` throws. */
  datatype HashError = NotABuffer | WrongLength(got: nat)
  {
    function Message(): string {
      match this
      case NotABuffer => "messageHash is not a Buffer"
      case WrongLength(n) => "expected length 64 of messageHash, but got " + Numerals.Numeral(n, 10)
    }
  }

  /** Passes a non-null hash of exactly 64 characters; throws for `null` and for any other length. */
  function ValidateMessageHash(messageHash: Option<string>): (r: Outcome<HashError>)
    ensures r.Pass? <==> messageHash.Some? && |messageHash.value| == 64
    ensures messageHash.None? ==> r == Fail(NotABuffer)
    ensures messageHash.Some? && |messageHash.value| != 64 ==> r == Fail(WrongLength(|messageHash.value|))
  {
    if messageHash.None? then Fail(NotABuffer)
    else if |messageHash.value| != 64 then Fail(WrongLength(|messageHash.value|))
    else Pass
  }

  /** The two exceptions, and the wrong-length exceptions for different lengths, have different messages. */
  lemma HashErrorMessagesDistinct(e1: HashError, e2: HashError)
    requires e1.Message() == e2.Message()
    ensures e1 == e2
  {
    var prefix := "expected length 64 of messageHash, but got ";
    if e1.WrongLength? && e2.WrongLength? {
      var n1, n2 := Numerals.Numeral(e1.got, 10), Numerals.Numeral(e2.got, 10);
      assert n1 == e1.Message()[|prefix|..] == e2.Message()[|prefix|..] == n2;
      Numerals.NumeralInjective(e1.got, e2.got, 10);
    }
  }

  // ---------------------------------------------------------------------------
  // The JSON text of a query

  /** The member `"type": "<queryName>"` that a query's text gains. */
  function TypeMember(queryName: string): string {
    "\"type\": \"" + queryName + "\""
  }

  /**
   * Adds the member `"type": "<queryName>"` to the JSON object text of a
   * query's arguments. A `null` or empty text gives an object with that member
   * alone; otherwise the text's last character (its closing brace) is replaced
   * by the member and a closing brace.
   */
  function AppendQueryName(queryName: string, queryString: Option<string>): (r: string)
    ensures |r| > 0 && r[|r| - 1] == '}'
    ensures OrEmpty(queryString) == "" ==> r == "{" + TypeMember(queryName) + "}"
    ensures OrEmpty(queryString) != "" ==>
      var s := OrEmpty(queryString);
      r == s[..|s| - 1] + ", " + TypeMember(queryName) + " }"
  {
    var s := OrEmpty(queryString);
    if s != "" then
      s[..|s| - 1] + ", \"type\": \"" + queryName + "\"" + " }"
    else
      "{\"type\": \"" + queryName + "\"}"
  }

  /** The query name can be read back from the text, so different names give different texts. */
  lemma AppendQueryNameInjective(n1: string, n2: string, queryString: Option<string>)
    requires AppendQueryName(n1, queryString) == AppendQueryName(n2, queryString)
    ensures n1 == n2
  {
    var r1, r2 := AppendQueryName(n1, queryString), AppendQueryName(n2, queryString);
    var s := OrEmpty(queryString);
    // The name sits after a fixed-length head and before a fixed-length tail.
    var head, tail := if s == "" then 10 else |s| + 10, if s == "" then 2 else 3;
    assert |r1| == head + |n1| + tail && |r2| == head + |n2| + tail;
    assert r1[head..|r1| - tail] == n1;
    assert r2[head..|r2| - tail] == n2;
  }

  /** The object text MiniJSON writes for a dictionary whose members render as `members`. */
  function ObjectText(members: seq<string>): string {
    "{" + Joined(members) + "}"
  }

  /** The members separated by commas. */
  function Joined(members: seq<string>): string {
    if members == [] then ""
    else if |members| == 1 then members[0]
    else members[0] + "," + Joined(members[1..])
  }

  /** True of the rendering of a JSON object member: it starts with its key's opening quote. */
  predicate IsMemberText(m: string) {
    |m| > 0 && m[0] == '"'
  }

  /** Joining non-empty members starts with the first member's first character. */
  lemma JoinedStartsWithFirst(members: seq<string>)
    requires members != [] && IsMemberText(members[0])
    ensures |Joined(members)| > 0 && Joined(members)[0] == '"'
  {
  }

  /**
   * As written, the text of an empty dictionary, "{}", becomes "{, ...": the
   * added member follows a comma with no member before it.
   */
  lemma AppendQueryNameOnEmptyObject(queryName: string)
    ensures AppendQueryName(queryName, Some(ObjectText([])))[1] == ','
  {
  }

  /**
   * Given the text of an object with members, the type member is added after
   * the existing members, inside the same braces.
   */
  lemma AppendQueryNameAddsTypeMember(queryName: string, members: seq<string>)
    requires members != []
    ensures AppendQueryName(queryName, Some(ObjectText(members))) ==
      "{" + Joined(members) + ", " + TypeMember(queryName) + " }"
  {
    var s := ObjectText(members);
    assert s[..|s| - 1] == "{" + Joined(members);
  }

  /** `AppendQueryName` with the empty object text "{}" treated like the empty text. */
  function AppendQueryNameCorrected(queryName: string, queryString: Option<string>): (r: string)
    ensures OrEmpty(queryString) in {"", "{}"} ==> r == "{" + TypeMember(queryName) + "}"
    ensures OrEmpty(queryString) !in {"", "{}"} ==> r == AppendQueryName(queryName, queryString)
  {
    if queryString == Some("{}") then AppendQueryName(queryName, None)
    else AppendQueryName(queryName, queryString)
  }

  /**
   * The corrected splice adds the type member to every object text: after the
   * existing members when there are some, as the only member otherwise.
   */
  lemma CorrectedAddsTypeMember(queryName: string, members: seq<string>)
    requires forall i :: 0 <= i < |members| ==> IsMemberText(members[i])
    ensures AppendQueryNameCorrected(queryName, Some(ObjectText(members))) ==
      if members == [] then "{" + TypeMember(queryName) + "}"
      else "{" + Joined(members) + ", " + TypeMember(queryName) + " }"
  {
    if members == [] {
      assert ObjectText(members) == "{}";
    } else {
      AppendQueryNameAddsTypeMember(queryName, members);
      JoinedStartsWithFirst(members);
      assert ObjectText(members)[1] == '"';
    }
  }

  /** For every object text, the corrected result's first member is a real member. */
  lemma CorrectedStartsWithMember(queryName: string, members: seq<string>)
    requires forall i :: 0 <= i < |members| ==> IsMemberText(members[i])
    ensures var r := AppendQueryNameCorrected(queryName, Some(ObjectText(members)));
      |r| > 1 && r[0] == '{' && r[1] == '"'
  {
    var s := ObjectText(members);
    var r := AppendQueryNameCorrected(queryName, Some(s));
    if members == [] {
      assert s == "{}";
    } else {
      JoinedStartsWithFirst(members);
      assert s[..|s| - 1] <= r;
      assert s[..|s| - 1][0] == '{' && s[..|s| - 1][1] == '"';
    }
  }

  // ---------------------------------------------------------------------------
  // Hex rendering of a string

  /** The upper-case hex numeral of a character's code, without padding. */
  function CharHex(c: char): (h: string)
    ensures 1 <= |h| && Numerals.IsNumeralIn(h, 16)
    ensures Numerals.NumeralValue(h, 16) == c as int
  {
    Numerals.NumeralRoundTrip(c as int, 16);
    Numerals.Numeral(c as int, 16)
  }

  /** The hex numerals of the characters of `s`, one after another. */
  function HexOf(s: string): string {
    if s == [] then "" else HexOf(s[..|s| - 1]) + CharHex(s[|s| - 1])
  }

  /** `StringToHex`: appends each character's hex numeral to a buffer, in order. */
  method StringToHex(stringValue: string) returns (r: string)
    ensures r == HexOf(stringValue)
  {
    var sb := "";
    for i := 0 to |stringValue|
      invariant sb == HexOf(stringValue[..i])
    {
      assert stringValue[..i + 1][..i] == stringValue[..i];
      sb := sb + CharHex(stringValue[i]);
    }
    assert stringValue[..|stringValue|] == stringValue;
    r := sb;
  }

  /** The hex of a concatenation is the concatenation of the hexes. */
  lemma {:induction false} HexOfAppend(a: string, b: string)
    ensures HexOf(a + b) == HexOf(a) + HexOf(b)
    decreases |b|
  {
    if b != [] {
      var b' := b[..|b| - 1];
      assert (a + b)[..|a + b| - 1] == a + b';
      HexOfAppend(a, b');
    } else {
      assert a + b == a;
    }
  }

  /** The hex of a string uses only '0'-'9' and 'A'-'F', at least one per character. */
  lemma {:induction false} HexOfShape(s: string)
    ensures |HexOf(s)| >= |s|
    ensures forall i :: 0 <= i < |HexOf(s)| ==> Numerals.IsDigit(HexOf(s)[i])
    decreases |s|
  {
    if s != [] {
      HexOfShape(s[..|s| - 1]);
    }
  }

  /** Without padding, different strings can share a hex rendering: [U+0001, U+0002] and [U+0012] both give "12". */
  lemma HexOfIsNotInjective()
    ensures HexOf([1 as char, 2 as char]) == HexOf([18 as char]) == "12"
  {
  }

  // ---------------------------------------------------------------------------
  // Transaction status

  /** The error report the client returns (`PostchainErrorControl`). */
  datatype PostchainErrorControl = PostchainErrorControl(Error: bool, ErrorMessage: string)

  /** What `WaitConfirmation` does with one status response: finish with a report, or poll again. */
  datatype Decision = Done(control: PostchainErrorControl) | Retry

  /** The status strings after which the client polls again. */
  predicate IsPending(status: Option<string>) {
    status == Some("unknown") || status == Some("waiting")
  }

  /** The decision for one status response, given its `status` and `message` fields. */
  function StatusDecision(status: Option<string>, message: Option<string>): (d: Decision)
    ensures d.Retry? <==> IsPending(status)
    ensures d.Done? && !d.control.Error <==> status == Some("confirmed")
    ensures d.Done? && !d.control.Error ==> d.control.ErrorMessage == ""
    ensures status == Some("rejected") ==> d == Done(PostchainErrorControl(true, "Message was rejected"))
    ensures status == Some("exception") ==> d == Done(PostchainErrorControl(true, "HTTP Exception: " + OrEmpty(message)))
    ensures status !in {Some("confirmed"), Some("rejected"), Some("unknown"), Some("waiting"), Some("exception")} ==>
      d == Done(PostchainErrorControl(true, "Got unexpected response from server: " + OrEmpty(status)))
  {
    // A null status falls through to the default case, where it reads as "".
    var st := OrEmpty(status);
    if st == "confirmed" then Done(PostchainErrorControl(false, ""))
    else if st == "rejected" then Done(PostchainErrorControl(true, "Message was rejected"))
    else if st == "unknown" || st == "waiting" then Retry
    else if st == "exception" then Done(PostchainErrorControl(true, "HTTP Exception: " + OrEmpty(message)))
    else Done(PostchainErrorControl(true, "Got unexpected response from server: " + st))
  }

  // ---------------------------------------------------------------------------
  // The client object

  class RESTClient {
    var UrlBase: string
    var BlockchainRID: string

    /** Keeps the URL with a trailing '/', and the blockchain RID as given. */
    constructor(urlBase: string, blockchainRID: string)
      requires urlBase != []
      ensures UrlBase == WithTrailingSlash(urlBase).value
      ensures EndsWithSlash(UrlBase)
      ensures BlockchainRID == blockchainRID
    {
      var url := urlBase;
      if url[|url| - 1] != '/' {
        url := url + "/";
      }
      UrlBase := url;
      BlockchainRID := blockchainRID;
    }

    /**
     * The path `Status` requests: "tx/<RID>/<hash>/status", built only once the
     * hash has passed `ValidateMessageHash`.
     */
    function StatusPath(messageHash: Option<string>): (r: Result<string, HashError>)
      reads this
      ensures r.Failure? <==> ValidateMessageHash(messageHash).Fail?
      ensures r.Failure? ==> r.error == ValidateMessageHash(messageHash).error
      ensures r.Success? ==>
        var n := |BlockchainRID|;
        && |r.value| == n + 75
        && r.value[..n + 4] == "tx/" + BlockchainRID + "/"
        && r.value[n + 4..n + 68] == messageHash.value
        && r.value[n + 68..] == "/status"
    {
      var check := ValidateMessageHash(messageHash);
      if check.Fail? then Failure(check.error)
      else Success("tx/" + BlockchainRID + "/" + messageHash.value + "/status")
    }
  }

  /** Different hashes give different status paths for the same client. */
  lemma StatusPathInjective(client: RESTClient, h1: Option<string>, h2: Option<string>)
    requires client.StatusPath(h1).Success? && client.StatusPath(h1) == client.StatusPath(h2)
    ensures h1 == h2
  {
  }
}
