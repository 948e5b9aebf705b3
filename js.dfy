/**
 * The few pieces of the JavaScript runtime that the backend's logic leans on:
 * values produced by `JSON.parse`, truthiness, the whitespace that
 * `String.prototype.trim` removes, `toLowerCase` and case-insensitive
 * literal search (both restricted to ASCII letters).
 */
module Js {

  datatype Option<+T> = None | Some(value: T)

  /**
   * A value as `JSON.parse` returns it. `JSON.parse` itself is an abstract
   * partial function wherever it is used, and a number it yields is kept as
   * the real it stands for.
   */
  datatype Json =
    | JNull
    | JBool(b: bool)
    | JNumber(n: real)
    | JString(s: string)
    | JArray(items: seq<Json>)
    | JObject(members: seq<(string, Json)>)

  /** What `if (v)` decides for a parsed value: null, false, 0 and "" are falsy; arrays and objects never are. */
  predicate Truthy(v: Json) {
    match v
    case JNull => false
    case JBool(b) => b
    case JNumber(n) => n != 0.0
    case JString(s) => s != ""
    case _ => true
  }

  /** A string field of a request body (`None` is `undefined`) that `if (field)` accepts. */
  predicate Given(f: Option<string>) {
    f.Some? && f.value != ""
  }

  // ---------------------------------------------------------------------------
  // Decimal digits: `toString` of a non-negative integer

  predicate IsDigit(c: char) {
    '0' <= c <= '9'
  }

  predicate AllDigits(s: string) {
    forall i :: 0 <= i < |s| ==> IsDigit(s[i])
  }

  function DigitChar(d: nat): char
    requires d < 10
  {
    ('0' as int + d) as char
  }

  /** The number a string of decimal digits spells. */
  function DecimalValue(s: string): nat
    requires AllDigits(s)
    decreases |s|
  {
    if s == [] then 0 else 10 * DecimalValue(s[..|s| - 1]) + (s[|s| - 1] as int - '0' as int)
  }

  /** `toString()` of a non-negative integer: digits without a leading zero, spelling `n`. */
  function DecimalDigits(n: nat): (s: string)
    ensures s != [] && AllDigits(s)
    ensures |s| == 1 <==> n < 10
    ensures |s| > 1 ==> s[0] != '0'
    ensures DecimalValue(s) == n
    decreases n
  {
    if n < 10 then
      [DigitChar(n)]
    else
      var s := DecimalDigits(n / 10) + [DigitChar(n % 10)];
      assert s[..|s| - 1] == DecimalDigits(n / 10);
      s
  }

  // ---------------------------------------------------------------------------
  // Whitespace and trim

  /** LineTerminator of the ECMAScript grammar. */
  predicate IsLineTerminator(c: char) {
    c == '\n' || c == '\r' || c == '\U{2028}' || c == '\U{2029}'
  }

  /** WhiteSpace or LineTerminator of the ECMAScript grammar: what `trim` removes. */
  predicate IsWhiteSpace(c: char) {
    || IsLineTerminator(c)
    || c == '\t' || c == '\U{000B}' || c == '\U{000C}' || c == ' '
    || c == '\U{00A0}' || c == '\U{FEFF}' || c == '\U{1680}'
    || ('\U{2000}' <= c <= '\U{200A}')
    || c == '\U{202F}' || c == '\U{205F}' || c == '\U{3000}'
  }

  predicate AllWhiteSpace(s: string) {
    forall i :: 0 <= i < |s| ==> IsWhiteSpace(s[i])
  }

  /** `trimStart`: drops the whitespace at the front; what is left does not begin with whitespace. */
  function TrimStart(s: string): (r: string)
    ensures |r| <= |s|
    ensures r != [] ==> !IsWhiteSpace(r[0])
  {
    if s != [] && IsWhiteSpace(s[0]) then TrimStart(s[1..]) else s
  }

  /** What `trimStart` drops is whitespace, and what it keeps is the rest of the text. */
  lemma {:induction false} TrimStartSplits(s: string)
    ensures TrimStart(s) == s[|s| - |TrimStart(s)|..]
    ensures AllWhiteSpace(s[..|s| - |TrimStart(s)|])
    decreases |s|
  {
    if s != [] && IsWhiteSpace(s[0]) {
      var r := TrimStart(s[1..]);
      assert TrimStart(s) == r;
      TrimStartSplits(s[1..]);
      var k := |s| - |r|;
      assert r == s[1..][k - 1..] == s[k..];
      forall i | 0 <= i < k
        ensures IsWhiteSpace(s[..k][i])
      {
        if i > 0 {
          assert s[..k][i] == s[1..][..k - 1][i - 1];
        }
      }
    } else {
      assert s[0..] == s;
    }
  }

  /** `trimEnd`: drops the whitespace at the back; what is left does not end with whitespace. */
  function TrimEnd(s: string): (r: string)
    ensures |r| <= |s|
    ensures r != [] ==> !IsWhiteSpace(r[|r| - 1])
  {
    if s != [] && IsWhiteSpace(s[|s| - 1]) then TrimEnd(s[..|s| - 1]) else s
  }

  /** What `trimEnd` drops is whitespace, and what it keeps is the start of the text. */
  lemma {:induction false} TrimEndSplits(s: string)
    ensures TrimEnd(s) == s[..|TrimEnd(s)|]
    ensures AllWhiteSpace(s[|TrimEnd(s)|..])
    decreases |s|
  {
    if s != [] && IsWhiteSpace(s[|s| - 1]) {
      var p := s[..|s| - 1];
      assert TrimEnd(s) == TrimEnd(p);
      TrimEndSplits(p);
      var k := |TrimEnd(p)|;
      assert TrimEnd(p) == p[..k] == s[..k];
      forall i | 0 <= i < |s| - k
        ensures IsWhiteSpace(s[k..][i])
      {
        if i < |s| - 1 - k {
          assert s[k..][i] == p[k..][i];
        }
      }
    } else {
      assert s[..|s|] == s;
    }
  }

  /** `String.prototype.trim`. */
  function Trim(s: string): (r: string)
    ensures |r| <= |s|
    ensures r != [] ==> !IsWhiteSpace(r[0]) && !IsWhiteSpace(r[|r| - 1])
    ensures AllWhiteSpace(s) <==> r == []
  {
    var t := TrimStart(s);
    TrimStartSplits(s);
    TrimEndSplits(t);
    assert t != [] ==> t[0] == s[|s| - |t|];
    assert s == s[..|s| - |t|] + t;
    TrimEnd(t)
  }

  lemma {:induction false} TrimStartSkipsWhiteSpace(w: string, x: string)
    requires AllWhiteSpace(w)
    ensures TrimStart(w + x) == TrimStart(x)
    decreases |w|
  {
    if w != [] {
      assert (w + x)[1..] == w[1..] + x;
      TrimStartSkipsWhiteSpace(w[1..], x);
    } else {
      assert w + x == x;
    }
  }

  lemma {:induction false} TrimStartKeepsTail(s: string, t: string)
    requires TrimStart(s) != []
    ensures TrimStart(s + t) == TrimStart(s) + t
    decreases |s|
  {
    assert (s + t)[0] == s[0];
    if IsWhiteSpace(s[0]) {
      assert TrimStart(s) == TrimStart(s[1..]);
      assert (s + t)[1..] == s[1..] + t;
      TrimStartKeepsTail(s[1..], t);
    } else {
      assert TrimStart(s) == s;
    }
  }

  lemma {:induction false} TrimEndSkipsWhiteSpace(x: string, w: string)
    requires AllWhiteSpace(w)
    ensures TrimEnd(x + w) == TrimEnd(x)
    decreases |w|
  {
    if w != [] {
      assert (x + w)[..|x + w| - 1] == x + w[..|w| - 1];
      TrimEndSkipsWhiteSpace(x, w[..|w| - 1]);
    } else {
      assert x + w == x;
    }
  }

  /** Whitespace around a text never reaches the trimmed result. */
  lemma {:induction false} TrimIgnoresPadding(w1: string, s: string, w2: string)
    requires AllWhiteSpace(w1) && AllWhiteSpace(w2)
    ensures Trim(w1 + s + w2) == Trim(s)
  {
    assert w1 + s + w2 == w1 + (s + w2);
    TrimStartSkipsWhiteSpace(w1, s + w2);
    var t := TrimStart(s);
    if t != [] {
      TrimStartKeepsTail(s, w2);
      TrimEndSkipsWhiteSpace(t, w2);
    } else {
      TrimStartSplits(s);
      assert s[..|s|] == s;
      assert AllWhiteSpace(s + w2);
      TrimStartSkipsWhiteSpace(s + w2, []);
      assert s + w2 + [] == s + w2;
    }
  }

  // ---------------------------------------------------------------------------
  // Letter case

  /** `toLowerCase` on one character, for the ASCII letters. */
  function LowerChar(c: char): char {
    if 'A' <= c <= 'Z' then (c as int + 32) as char else c
  }

  function Lower(s: string): (r: string)
    ensures |r| == |s| && forall i :: 0 <= i < |s| ==> r[i] == LowerChar(s[i])
  {
    seq(|s|, i requires 0 <= i < |s| => LowerChar(s[i]))
  }

  /** `text` begins with `lit` when letters are compared without regard to case. */
  predicate StartsWithIgnoringCase(text: string, lit: string) {
    |lit| <= |text| && Lower(text[..|lit|]) == Lower(lit)
  }

  /** The test `/lit/i.test(text)` makes for a pattern that stands for the literal `lit`. */
  function ContainsIgnoringCase(text: string, lit: string): (b: bool)
    ensures b <==> exists i :: 0 <= i <= |text| && StartsWithIgnoringCase(text[i..], lit)
    decreases |text|
  {
    if StartsWithIgnoringCase(text, lit) then
      assert text[0..] == text;
      true
    else if text == [] then
      false
    else
      var b := ContainsIgnoringCase(text[1..], lit);
      assert forall i :: 1 <= i <= |text| ==> text[1..][i - 1..] == text[i..];
      b
  }
}
