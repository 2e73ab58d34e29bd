/**
 * The session-cookie lookup of `isAuthenticated` (main.ts): the Cookie header
 * is searched with the unanchored pattern `api_proxy_auth_token=([^;]+)`, and
 * the captured group of the leftmost match is the received token.
 */
module CookieToken {
  import opened Wrappers

  const AuthCookieName: string := "api_proxy_auth_token"

  /** The literal part of the pattern: the cookie name and its `=`. */
  const Needle: string := AuthCookieName + "="

  /**
   * The pattern matches at position `i`: the needle sits there and is
   * followed by at least one character other than `;`.
   */
  predicate MatchesAt(s: string, i: nat)
  {
    i + |Needle| < |s| && s[i..i + |Needle|] == Needle && s[i + |Needle|] != ';'
  }

  /** The greedy `[^;]+` group: the longest prefix of `s` holding no `;`. */
  function RunUntilSemicolon(s: string): (v: string)
    ensures v <= s
    ensures forall k :: 0 <= k < |v| ==> v[k] != ';'
    ensures |v| == |s| || s[|v|] == ';'
  {
    if s == [] || s[0] == ';' then ""
    else [s[0]] + RunUntilSemicolon(s[1..])
  }

  /** The leftmost position at or after `from` where the pattern matches. */
  function FirstMatch(s: string, from: nat): (k: Option<nat>)
    ensures k.Some? ==> from <= k.value && MatchesAt(s, k.value)
    ensures k.Some? ==> forall j: nat :: from <= j < k.value ==> !MatchesAt(s, j)
    ensures k.None? ==> forall j: nat :: from <= j ==> !MatchesAt(s, j)
    decreases |s| - from
  {
    if |s| <= from + |Needle| then None
    else if MatchesAt(s, from) then Some(from)
    else FirstMatch(s, from + 1)
  }

  /**
   * `cookies.match(pattern)?.[1]`: the token of the leftmost match, or `None`
   * when the pattern does not occur.
   */
  function ExtractToken(cookies: string): (t: Option<string>)
    ensures t.None? <==> forall i: nat :: !MatchesAt(cookies, i)
    ensures t.Some? ==> |t.value| > 0 && forall k :: 0 <= k < |t.value| ==> t.value[k] != ';'
  {
    match FirstMatch(cookies, 0)
    case None => None
    case Some(i) => Some(RunUntilSemicolon(cookies[i + |Needle|..]))
  }

  /** The token is the maximal `;`-free run after the LEFTMOST match. */
  lemma ExtractTokenLeftmost(cookies: string, i: nat)
    requires MatchesAt(cookies, i)
    requires forall j: nat :: j < i ==> !MatchesAt(cookies, j)
    ensures ExtractToken(cookies) == Some(RunUntilSemicolon(cookies[i + |Needle|..]))
  {
    var k := FirstMatch(cookies, 0);
    assert k.Some? && k.value == i;
  }

  /** A `;`-free run is read back whole when a `;` or the end follows it. */
  lemma {:induction false} RunUntilSemicolonOf(v: string, rest: string)
    requires forall k :: 0 <= k < |v| ==> v[k] != ';'
    requires rest == [] || rest[0] == ';'
    ensures RunUntilSemicolon(v + rest) == v
  {
    if v != [] {
      assert (v + rest)[1..] == v[1..] + rest;
      RunUntilSemicolonOf(v[1..], rest);
      assert [v[0]] + v[1..] == v;
    }
  }

  /**
   * A cookie pair `api_proxy_auth_token=<t>`, followed by nothing or by `;`,
   * yields `t` when the pattern matches nowhere in the text `pre` before it.
   * Whatever comes after the pair, including other pairs with the same
   * name, is not looked at.
   */
  lemma PairYieldsToken(pre: string, token: string, rest: string)
    requires |token| > 0 && forall k :: 0 <= k < |token| ==> token[k] != ';'
    requires rest == [] || rest[0] == ';'
    requires forall j: nat :: j < |pre| ==> !MatchesAt(pre + Needle + token + rest, j)
    ensures ExtractToken(pre + Needle + token + rest) == Some(token)
  {
    var s := pre + Needle + token + rest;
    var i := |pre|;
    assert s[i..i + |Needle|] == Needle;
    assert s[i + |Needle|] == token[0];
    assert MatchesAt(s, i);
    var tail := token + rest;
    assert s == pre + Needle + tail;
    assert s[i + |Needle|..] == tail;
    ExtractTokenLeftmost(s, i);
    RunUntilSemicolonOf(token, rest);
  }

  /**
   * The pattern is not anchored at a cookie boundary: the name can also be
   * found inside another cookie's value, here the value of a cookie `a`.
   */
  lemma ValueHoldingNeedleIsRead(token: string, rest: string)
    requires |token| > 0 && forall k :: 0 <= k < |token| ==> token[k] != ';'
    requires rest == [] || rest[0] == ';'
    ensures ExtractToken("a=" + Needle + token + rest) == Some(token)
  {
    var s := "a=" + Needle + token + rest;
    assert s[1] == '=' != Needle[1];
    assert !MatchesAt(s, 0);
    assert s[1] != Needle[0];
    assert !MatchesAt(s, 1);
    PairYieldsToken("a=", token, rest);
  }

  /**
   * The pattern is not anchored at a cookie boundary: a cookie whose name
   * merely ends in `api_proxy_auth_token` (one extra leading character here)
   * is read as the session cookie.
   */
  lemma LongerCookieNameIsRead(c: char, token: string)
    requires |token| > 0 && forall k :: 0 <= k < |token| ==> token[k] != ';'
    ensures ExtractToken([c] + Needle + token) == Some(token)
  {
    var s := [c] + Needle + token;
    assert s[1..1 + |Needle|] == Needle;
    assert s[1 + |Needle|] == token[0];
    assert MatchesAt(s, 1);
    assert s[|Needle| - 1] == AuthCookieName[|AuthCookieName| - 1] != Needle[|Needle| - 1];
    assert !MatchesAt(s, 0);
    ExtractTokenLeftmost(s, 1);
    assert s[1 + |Needle|..] == token + [];
    RunUntilSemicolonOf(token, []);
  }
}
