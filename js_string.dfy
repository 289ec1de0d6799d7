/**
 * The few JavaScript string primitives the application relies on:
 * `String.prototype.trim`, `toLowerCase`/`toUpperCase` (as ASCII case
 * folding), `includes`, and the character classes `\s` and `\w` of
 * JavaScript regular expressions.
 */
module JsString {

  /** The characters that `trim` removes and that `\s` matches:
      WhiteSpace and LineTerminator of ECMAScript. */
  predicate IsWhitespace(c: char) {
    || c == '\t' || c == '\n' || c == '\U{000B}' || c == '\U{000C}' || c == '\r'
    || c == ' ' || c == '\U{00A0}' || c == '\U{1680}'
    || ('\U{2000}' <= c <= '\U{200A}')
    || c == '\U{2028}' || c == '\U{2029}' || c == '\U{202F}' || c == '\U{205F}'
    || c == '\U{3000}' || c == '\U{FEFF}'
  }

  /** The characters that `\w` matches. */
  predicate IsWordChar(c: char) {
    ('a' <= c <= 'z') || ('A' <= c <= 'Z') || ('0' <= c <= '9') || c == '_'
  }

  ghost predicate AllWhitespace(s: string) {
    forall i :: 0 <= i < |s| ==> IsWhitespace(s[i])
  }

  /** No whitespace at either end. */
  predicate IsTrimmed(s: string) {
    s == [] || (!IsWhitespace(s[0]) && !IsWhitespace(s[|s| - 1]))
  }

  /** Removes leading whitespace: the result is a suffix of `s`, what was
      dropped is all whitespace, and the result does not start with whitespace. */
  function TrimStart(s: string): (r: string)
    ensures |r| <= |s| && r == s[|s| - |r|..]
    ensures AllWhitespace(s[..|s| - |r|])
    ensures r == [] || !IsWhitespace(r[0])
    decreases |s|
  {
    if s != [] && IsWhitespace(s[0]) then
      var r := TrimStart(s[1..]);
      assert s[..|s| - |r|] == [s[0]] + s[1..][..|s| - 1 - |r|];
      r
    else s
  }

  /** Removes trailing whitespace: the result is a prefix of `s`, what was
      dropped is all whitespace, and the result does not end with whitespace. */
  function TrimEnd(s: string): (r: string)
    ensures |r| <= |s| && r == s[..|r|]
    ensures AllWhitespace(s[|r|..])
    ensures r == [] || !IsWhitespace(r[|r| - 1])
    decreases |s|
  {
    if s != [] && IsWhitespace(s[|s| - 1]) then
      var r := TrimEnd(s[..|s| - 1]);
      assert s[|r|..] == s[..|s| - 1][|r|..] + [s[|s| - 1]];
      r
    else s
  }

  /** `String.prototype.trim`. */
  function Trim(s: string): (r: string)
    ensures IsTrimmed(r)
    ensures IsTrimmed(s) ==> r == s
    ensures r == [] <==> AllWhitespace(s)
  {
    var t := TrimStart(s);
    var r := TrimEnd(t);
    assert IsTrimmed(s) && s != [] ==> t == s;
    r
  }

  /** Trimming twice is trimming once. */
  lemma TrimIdempotent(s: string)
    ensures Trim(Trim(s)) == Trim(s)
  {
  }

  function LowerChar(c: char): char {
    if 'A' <= c <= 'Z' then (c as int + 32) as char else c
  }

  function UpperChar(c: char): char {
    if 'a' <= c <= 'z' then (c as int - 32) as char else c
  }

  /** `toLowerCase`, restricted to ASCII letters. */
  function ToLowerCase(s: string): string {
    seq(|s|, i requires 0 <= i < |s| => LowerChar(s[i]))
  }

  /** `toUpperCase`, restricted to ASCII letters. */
  function ToUpperCase(s: string): string {
    seq(|s|, i requires 0 <= i < |s| => UpperChar(s[i]))
  }

  /** Upper-casing forgets a previous lower-casing, and the other way round:
      two strings agree after `toUpperCase` exactly when they agree after
      `toLowerCase`. */
  lemma CaseFoldingAgrees(a: string, b: string)
    ensures ToUpperCase(ToLowerCase(a)) == ToUpperCase(a)
    ensures ToUpperCase(a) == ToUpperCase(b) <==> ToLowerCase(a) == ToLowerCase(b)
  {
    assert forall i :: 0 <= i < |a| ==> UpperChar(LowerChar(a[i])) == UpperChar(a[i]);
    if ToUpperCase(a) == ToUpperCase(b) {
      assert forall i :: 0 <= i < |a| ==> LowerChar(a[i]) == LowerChar(UpperChar(a[i]));
      assert forall i :: 0 <= i < |a| ==> ToLowerCase(a)[i] == LowerChar(ToUpperCase(a)[i]) == ToLowerCase(b)[i];
    }
    if ToLowerCase(a) == ToLowerCase(b) {
      assert forall i :: 0 <= i < |a| ==> ToUpperCase(a)[i] == UpperChar(ToLowerCase(a)[i]) == ToUpperCase(b)[i];
    }
  }

  /** `t` occurs in `s` at position `i`. */
  predicate OccursAt(s: string, t: string, i: nat) {
    i + |t| <= |s| && s[i..i + |t|] == t
  }

  /** `String.prototype.includes`. */
  predicate Includes(s: string, t: string) {
    exists i: nat | i <= |s| :: OccursAt(s, t, i)
  }

  /** A piece of a concatenation occurs where the part before it ends. */
  lemma InfixOccurs(before: string, t: string, after: string)
    ensures OccursAt(before + t + after, t, |before|)
  {
    assert (before + t + after)[|before|..|before| + |t|] == t;
  }

  /** A string cannot include a substring holding a character it lacks. */
  lemma LacksCharacter(s: string, t: string, c: char)
    requires c in t && c !in s
    ensures !Includes(s, t)
  {
  }
}
