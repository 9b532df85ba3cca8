/**
 * The Pages middleware in front of every function: which requests pass
 * straight through, and which need a verified session token from the cookie.
 * Checking the token's signature and expiry is a parameter (`verify`).
 */
module Middleware {
  import opened Base
  import opened Text

  const TokenName: string := "session-token="

  /** `/session-token=([^;]+)/` can match at `i`: the name, then at least one character other than `;`. */
  predicate MatchesAt(s: string, i: int)
  {
    0 <= i && i + |TokenName| < |s| && s[i..i + |TokenName|] == TokenName && s[i + |TokenName|] != ';'
  }

  /** `[^;]+` taken greedily: the longest prefix without `;`. */
  function ValueRun(s: string): (r: string)
    ensures |r| <= |s| && r == s[..|r|] && ';' !in r
    ensures |r| == |s| || s[|r|] == ';'
  {
    if s == [] || s[0] == ';' then []
    else
      var rest := ValueRun(s[1..]);
      assert s[..1 + |rest|] == [s[0]] + s[1..][..|rest|];
      [s[0]] + rest
  }

  /** The leftmost position at or after `from` where the pattern matches. */
  function FindMatch(s: string, from: nat): (r: Option<nat>)
    ensures r.Some? ==> from <= r.value && MatchesAt(s, r.value)
    ensures r.Some? ==> forall j :: from <= j < r.value ==> !MatchesAt(s, j)
    ensures r.None? ==> forall j :: from <= j ==> !MatchesAt(s, j)
    decreases |s| - from
  {
    if from + |TokenName| >= |s| then None
    else if MatchesAt(s, from) then Some(from)
    else FindMatch(s, from + 1)
  }

  /** `cookieHeader.match(/session-token=([^;]+)/)?.[1]`: the first capture, never empty. */
  function ExtractToken(cookie: string): (r: Option<string>)
    ensures r.Some? ==> r.value != [] && ';' !in r.value
    ensures r.None? <==> forall j :: !MatchesAt(cookie, j)
  {
    match FindMatch(cookie, 0)
    case None => None
    case Some(i) => Some(ValueRun(cookie[i + |TokenName|..]))
  }

  /**
   * A cookie whose first match is `session-token=<tok>`, with `tok` running up
   * to a `;` or the end, yields exactly `tok`.
   */
  lemma {:induction false} ExtractTokenOf(pre: string, tok: string, rest: string)
    requires tok != [] && ';' !in tok && (rest == [] || rest[0] == ';')
    requires forall j :: 0 <= j < |pre| ==> !MatchesAt(pre + TokenName + tok + rest, j)
    ensures ExtractToken(pre + TokenName + tok + rest) == Some(tok)
  {
    var s := pre + TokenName + tok + rest;
    var i := |pre|;
    assert s[i..i + |TokenName|] == TokenName;
    assert s[i + |TokenName|] == tok[0];
    assert MatchesAt(s, i);
    assert FindMatch(s, 0) == Some(i) by {
      FindMatchFirst(s, 0, i);
    }
    var after := s[i + |TokenName|..];
    assert after == tok + rest;
    ValueRunOf(tok, rest);
  }

  lemma {:induction false} FindMatchFirst(s: string, from: nat, i: nat)
    requires from <= i && MatchesAt(s, i) && forall j :: from <= j < i ==> !MatchesAt(s, j)
    ensures FindMatch(s, from) == Some(i)
    decreases i - from
  {
    if from < i {
      FindMatchFirst(s, from + 1, i);
    }
  }

  lemma {:induction false} ValueRunOf(tok: string, rest: string)
    requires ';' !in tok && (rest == [] || rest[0] == ';')
    ensures ValueRun(tok + rest) == tok
  {
    if tok != [] {
      assert (tok + rest)[1..] == tok[1..] + rest;
      ValueRunOf(tok[1..], rest);
    }
  }

  datatype Outcome = Forward | Unauthorized(message: string)

  predicate Protected(path: string)
  {
    StartsWith(path, "/api/summary") || StartsWith(path, "/api/schedules") || StartsWith(path, "/api/teachers")
  }

  /**
   * `onRequest`: `cookie` is the `Cookie` header (`None` when absent) and
   * `verify` says whether `verifyToken` accepts a token.
   */
  function Decide(verb: string, path: string, cookie: Option<string>, verify: string -> bool): (r: Outcome)
  {
    if verb == "GET" && !StartsWith(path, "/api/summary") then Forward
    else if Protected(path) then
      match ExtractToken(cookie.GetOr(""))
      case None => Unauthorized("Unauthorized: No token")
      case Some(token) => if verify(token) then Forward else Unauthorized("Unauthorized: Invalid token")
    else Forward
  }

  /**
   * The access rule: a request is refused exactly when it is a non-GET request
   * to a protected path or a GET to the summary, and it lacks a token that
   * verifies; a missing token and a rejected one get different messages.
   */
  lemma {:induction false} DecideMeans(verb: string, path: string, cookie: Option<string>, verify: string -> bool)
    ensures var needsToken := Protected(path) && (verb != "GET" || StartsWith(path, "/api/summary"));
      var token := ExtractToken(cookie.GetOr(""));
      (Decide(verb, path, cookie, verify) == Forward <==> !needsToken || (token.Some? && verify(token.value))) &&
      (Decide(verb, path, cookie, verify) == Unauthorized("Unauthorized: No token") <==> needsToken && token.None?) &&
      (Decide(verb, path, cookie, verify) == Unauthorized("Unauthorized: Invalid token") <==>
        needsToken && token.Some? && !verify(token.value))
  {
  }

  /** A missing header behaves as an empty one, which holds no token. */
  lemma {:induction false} NoCookieNoToken()
    ensures ExtractToken("") == None
  {
  }
}
