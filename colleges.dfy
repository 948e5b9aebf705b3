/**
 * backend/routes/colleges.js: the `GET /colleges` handler. It checks the
 * district against an allow-list, builds the directory URL, normalises the
 * program term through an alias table, escapes it into a case-insensitive
 * regular expression and keeps, in order, the colleges one of whose
 * programs the expression finds.
 *
 * The college directory is an oracle `fetch` from URL to what it returns.
 */
module Colleges {
  import opened Js

  const BaseUrl: string := "http://3.35.197.61:5000/colleges"

  const AllowedDistricts: seq<string> := ["Kalaburagi", "Koppal"]

  /** Common program names and the terms searched for in their place. */
  const ProgramAliases: map<string, string> := map[
    "puc" := "PUC",
    "commerce" := "Commerce",
    "science" := "Science",
    "arts" := "Arts",
    "iti" := "ITI",
    "diploma" := "Diploma",
    "cs" := "Computer Science",
    "cse" := "Computer Science"
  ]

  /**
   * A record of the directory. `programs` is `None` when the record has no
   * array there; `info` stands for all its other fields, passed on untouched.
   */
  datatype College = College(info: Json, programs: Option<seq<string>>)

  // ---------------------------------------------------------------------------
  // District and URL

  /** `district && !ALLOWED_DISTRICTS.includes(district)`. */
  predicate DistrictRejected(district: Option<string>) {
    Given(district) && district.value !in AllowedDistricts
  }

  /** The characters `encodeURIComponent` leaves as they are. */
  predicate UriUnreserved(c: char) {
    || ('A' <= c <= 'Z') || ('a' <= c <= 'z') || ('0' <= c <= '9')
    || c in "-_.!~*'()"
  }

  /** The allowed district names come out of `encodeURIComponent` unchanged. */
  lemma AllowedDistrictsNeedNoEncoding()
    ensures forall d :: d in AllowedDistricts ==> forall i :: 0 <= i < |d| ==> UriUnreserved(d[i])
  {
  }

  /** The UTF-8 bytes of a character, one to four of them. */
  function Utf8(c: char): (bytes: seq<nat>)
    ensures 1 <= |bytes| <= 4
    ensures forall i :: 0 <= i < |bytes| ==> bytes[i] < 256
    ensures |bytes| == 1 <==> (c as int) < 0x80
  {
    var n := c as int;
    if n < 0x80 then [n]
    else if n < 0x800 then [0xC0 + n / 0x40, 0x80 + n % 0x40]
    else if n < 0x10000 then [0xE0 + n / 0x1000, 0x80 + (n / 0x40) % 0x40, 0x80 + n % 0x40]
    else [0xF0 + n / 0x40000, 0x80 + (n / 0x1000) % 0x40, 0x80 + (n / 0x40) % 0x40, 0x80 + n % 0x40]
  }

  /** A UTF-8 continuation byte, `10xxxxxx`. */
  predicate IsContinuation(b: nat) {
    0x80 <= b < 0xC0
  }

  /** The code point a well-formed one- to four-byte UTF-8 sequence spells, read from its lead byte's payload bits and six bits per continuation byte. */
  function Utf8Value(bytes: seq<nat>): int
    requires 1 <= |bytes| <= 4
  {
    var b := seq(|bytes|, i requires 0 <= i < |bytes| => bytes[i] as int);
    if |b| == 1 then b[0]
    else if |b| == 2 then (b[0] - 0xC0) * 0x40 + (b[1] - 0x80)
    else if |b| == 3 then (b[0] - 0xE0) * 0x1000 + (b[1] - 0x80) * 0x40 + (b[2] - 0x80)
    else (b[0] - 0xF0) * 0x40000 + (b[1] - 0x80) * 0x1000 + (b[2] - 0x80) * 0x40 + (b[3] - 0x80)
  }

  /** Well-formed UTF-8 for one code point: the lead byte announces the length, every other byte is a continuation byte, the bytes decode to `n`, and no shorter sequence could hold `n` (no overlong form). */
  predicate EncodesCodePoint(b: seq<nat>, n: int) {
    && 1 <= |b| <= 4
    && Utf8Value(b) == n
    && (forall i :: 1 <= i < |b| ==> IsContinuation(b[i]))
    && (|b| == 1 ==> b[0] < 0x80)
    && (|b| == 2 ==> 0xC0 <= b[0] < 0xE0)
    && (|b| == 3 ==> 0xE0 <= b[0] < 0xF0)
    && (|b| == 4 ==> 0xF0 <= b[0] < 0xF8)
    && (|b| == 2 ==> n >= 0x80)
    && (|b| == 3 ==> n >= 0x800)
    && (|b| == 4 ==> n >= 0x10000)
  }

  /** The bytes of `Utf8` are well-formed UTF-8 for the character and decode back to its code point. */
  lemma Utf8Decodes(c: char)
    ensures EncodesCodePoint(Utf8(c), c as int)
  {
    var n := c as int;
    if n < 0x80 {
    } else if n < 0x800 {
      var q, r := n / 0x40, n % 0x40;
      assert n == q * 0x40 + r;
      assert q < 0x20;
    } else if n < 0x10000 {
      var q, r := n / 0x40, n % 0x40;
      var q2, r2 := q / 0x40, q % 0x40;
      assert n == q * 0x40 + r && q == q2 * 0x40 + r2;
      assert n / 0x1000 == q2;
      assert q2 < 0x10;
    } else {
      var q, r := n / 0x40, n % 0x40;
      var q2, r2 := q / 0x40, q % 0x40;
      var q3, r3 := q2 / 0x40, q2 % 0x40;
      assert n == q * 0x40 + r && q == q2 * 0x40 + r2 && q2 == q3 * 0x40 + r3;
      assert n / 0x1000 == q2;
      assert n / 0x40000 == q3;
      assert q3 < 0x8;
    }
  }

  /** An upper-case hexadecimal digit, which is itself unreserved. */
  function HexDigit(d: nat): (c: char)
    requires d < 16
    ensures ('0' <= c <= '9') || ('A' <= c <= 'F')
  {
    if d < 10 then '0' + d as char else 'A' + (d - 10) as char
  }

  /** Each byte written as `%` and two upper-case hexadecimal digits. */
  function PercentBytes(bytes: seq<nat>): (r: string)
    requires forall i :: 0 <= i < |bytes| ==> bytes[i] < 256
    ensures |r| == 3 * |bytes|
    ensures forall i :: 0 <= i < |r| ==> UriUnreserved(r[i]) || r[i] == '%'
  {
    if bytes == [] then []
    else
      var head, rest := ['%', HexDigit(bytes[0] / 16), HexDigit(bytes[0] % 16)], PercentBytes(bytes[1..]);
      assert forall i :: 3 <= i < 3 + |rest| ==> (head + rest)[i] == rest[i - 3];
      head + rest
  }

  /** Byte `i` of the input is spelled at positions `3*i` to `3*i+2` of `PercentBytes`: a `%`, then its high and low hexadecimal digit. */
  lemma {:induction false} PercentBytesSpells(bytes: seq<nat>, i: nat)
    requires forall k :: 0 <= k < |bytes| ==> bytes[k] < 256
    requires i < |bytes|
    ensures var r := PercentBytes(bytes);
      && r[3 * i] == '%'
      && r[3 * i + 1] == HexDigit(bytes[i] / 16)
      && r[3 * i + 2] == HexDigit(bytes[i] % 16)
  {
    if i > 0 {
      PercentBytesSpells(bytes[1..], i - 1);
    }
  }

  /** `HexDigit` writes the digit `encodeURIComponent` uses: the upper-case hexadecimal alphabet, in order. */
  lemma HexDigitIsUpperHex(d: nat)
    requires d < 16
    ensures HexDigit(d) == "0123456789ABCDEF"[d]
  {
  }

  /** `encodeURIComponent`: unreserved characters stay, every other character becomes its percent-encoded UTF-8 bytes. */
  function EncodeUriComponent(s: string): (r: string)
    ensures |r| >= |s|
    ensures forall i :: 0 <= i < |r| ==> UriUnreserved(r[i]) || r[i] == '%'
  {
    if s == [] then []
    else
      var head := if UriUnreserved(s[0]) then [s[0]] else PercentBytes(Utf8(s[0]));
      head + EncodeUriComponent(s[1..])
  }

  /** `encodeURIComponent` leaves a string unchanged exactly when all of its characters are unreserved. */
  lemma {:induction false} EncodeUriComponentIdentity(s: string)
    ensures EncodeUriComponent(s) == s <==> forall i :: 0 <= i < |s| ==> UriUnreserved(s[i])
  {
    if s != [] {
      EncodeUriComponentIdentity(s[1..]);
      assert s == [s[0]] + s[1..];
      if UriUnreserved(s[0]) {
        assert forall i :: 1 <= i < |s| ==> s[i] == s[1..][i - 1];
      } else {
        assert |EncodeUriComponent(s)| >= 3 + |s[1..]|;
      }
    }
  }

  /** `encodeURIComponent` encodes a string one character at a time, so it distributes over concatenation. */
  lemma {:induction false} EncodeUriComponentAppend(s: string, t: string)
    ensures EncodeUriComponent(s + t) == EncodeUriComponent(s) + EncodeUriComponent(t)
  {
    if s == [] {
      assert s + t == t;
    } else {
      assert (s + t)[0] == s[0];
      assert (s + t)[1..] == s[1..] + t;
      EncodeUriComponentAppend(s[1..], t);
    }
  }

  /** A reserved character becomes `%` and two hexadecimal digits for each of its UTF-8 bytes, an unreserved one stays itself. */
  lemma EncodeUriComponentChar(c: char)
    ensures UriUnreserved(c) ==> EncodeUriComponent([c]) == [c]
    ensures !UriUnreserved(c) ==> EncodeUriComponent([c]) == PercentBytes(Utf8(c))
  {
    assert [c][1..] == [];
  }

  /** The URL fetched for an accepted district: the bare base URL, or the base URL with a `district` query parameter. */
  function QueryUrl(district: Option<string>): (url: string)
    requires !DistrictRejected(district)
    ensures !Given(district) ==> url == BaseUrl
    ensures Given(district) ==> district.value in AllowedDistricts && url == BaseUrl + "?district=" + district.value
  {
    if Given(district) then
      AllowedDistrictsNeedNoEncoding();
      EncodeUriComponentIdentity(district.value);
      BaseUrl + "?district=" + EncodeUriComponent(district.value)
    else BaseUrl
  }

  // ---------------------------------------------------------------------------
  // escapeRegex and the regular expression built from it

  /** The characters `escapeRegex` puts a backslash before: `. * + ? ^ $ { } ( ) | [ ] \`. */
  predicate IsSyntaxChar(c: char) {
    c in ".*+?^${}()|[]\\"
  }

  function CountSyntaxChars(s: string): nat
    decreases |s|
  {
    if s == [] then 0 else (if IsSyntaxChar(s[0]) then 1 else 0) + CountSyntaxChars(s[1..])
  }

  /**
   * The literal text a regular expression matches when it is made of
   * ordinary characters and backslash-escaped syntax characters; `None` for
   * any other pattern (an unescaped syntax character, another escape, a
   * trailing backslash), whose meaning is not modelled.
   */
  function PatternLiteral(pattern: string): Option<string>
    decreases |pattern|
  {
    if pattern == [] then Some([])
    else if pattern[0] == '\\' then
      if |pattern| >= 2 && IsSyntaxChar(pattern[1]) then
        match PatternLiteral(pattern[2..])
        case None => None
        case Some(rest) => Some([pattern[1]] + rest)
      else None
    else if IsSyntaxChar(pattern[0]) then None
    else
      match PatternLiteral(pattern[1..])
      case None => None
      case Some(rest) => Some([pattern[0]] + rest)
  }

  /** What `escapeRegex` puts in place of one character. */
  function EscapeChar(c: char): string {
    if IsSyntaxChar(c) then ['\\', c] else [c]
  }

  /** `escapeRegex`: a backslash before each syntax character. */
  function EscapeRegex(s: string): string
    decreases |s|
  {
    if s == [] then [] else EscapeChar(s[0]) + EscapeRegex(s[1..])
  }

  /** One backslash more for each syntax character, and no other change in length. */
  lemma {:induction false} EscapeRegexLength(s: string)
    ensures |EscapeRegex(s)| == |s| + CountSyntaxChars(s)
    decreases |s|
  {
    if s != [] {
      EscapeRegexLength(s[1..]);
    }
  }

  /** The pattern `escapeRegex` builds matches exactly the original text, as a literal. */
  lemma {:induction false} EscapeRegexIsLiteral(s: string)
    ensures PatternLiteral(EscapeRegex(s)) == Some(s)
    decreases |s|
  {
    if s != [] {
      EscapeRegexIsLiteral(s[1..]);
      var rest := EscapeRegex(s[1..]);
      assert [s[0]] + s[1..] == s;
      if IsSyntaxChar(s[0]) {
        assert (['\\', s[0]] + rest)[2..] == rest;
      } else {
        assert ([s[0]] + rest)[1..] == rest;
      }
    }
  }

  /** Escaping works character by character. */
  lemma {:induction false} EscapeRegexAppend(a: string, b: string)
    ensures EscapeRegex(a + b) == EscapeRegex(a) + EscapeRegex(b)
    decreases |a|
  {
    if a == [] {
      assert a + b == b;
    } else {
      assert (a + b)[0] == a[0];
      assert (a + b)[1..] == a[1..] + b;
      EscapeRegexAppend(a[1..], b);
      var head, ra, rb := EscapeChar(a[0]), EscapeRegex(a[1..]), EscapeRegex(b);
      assert EscapeRegex(a + b) == head + (ra + rb);
      assert head + (ra + rb) == (head + ra) + rb;
    }
  }

  /** `new RegExp(pattern, 'i').test(text)` for a pattern that stands for a literal. */
  function RegexTestIgnoreCase(pattern: string, text: string): bool
    requires PatternLiteral(pattern).Some?
  {
    ContainsIgnoringCase(text, PatternLiteral(pattern).value)
  }

  // ---------------------------------------------------------------------------
  // The program term

  /** `program.toLowerCase().trim()`. */
  function SearchTerm(program: string): string {
    Trim(Lower(program))
  }

  /** Every alias value is a non-empty string, so `||` never falls back on a key of the table. */
  lemma AliasValuesAreTruthy()
    ensures forall k :: k in ProgramAliases ==> ProgramAliases[k] != ""
  {
  }

  /**
   * `PROGRAM_ALIASES[searchTerm] || searchTerm`, over the table's own keys:
   * the alias when the normalised term is one, the normalised term otherwise.
   */
  function EffectiveTerm(program: string): (t: string)
    ensures SearchTerm(program) in ProgramAliases ==> t == ProgramAliases[SearchTerm(program)]
    ensures SearchTerm(program) !in ProgramAliases ==> t == SearchTerm(program)
  {
    var key := SearchTerm(program);
    AliasValuesAreTruthy();
    if key in ProgramAliases && ProgramAliases[key] != "" then ProgramAliases[key] else key
  }

  lemma LowerAppend(a: string, b: string)
    ensures Lower(a + b) == Lower(a) + Lower(b)
  {
  }

  lemma LowerOfWhiteSpace(w: string)
    requires AllWhiteSpace(w)
    ensures Lower(w) == w
  {
    assert forall i :: 0 <= i < |w| ==> !('A' <= w[i] <= 'Z');
  }

  /** Surrounding whitespace in the query does not change the term searched for. */
  lemma {:induction false} EffectiveTermIgnoresPadding(w1: string, program: string, w2: string)
    requires AllWhiteSpace(w1) && AllWhiteSpace(w2)
    ensures EffectiveTerm(w1 + program + w2) == EffectiveTerm(program)
  {
    LowerOfWhiteSpace(w1);
    LowerOfWhiteSpace(w2);
    LowerAppend(w1 + program, w2);
    LowerAppend(w1, program);
    TrimIgnoresPadding(w1, Lower(program), w2);
    assert SearchTerm(w1 + program + w2) == SearchTerm(program);
  }

  /** Nor does the letter case of the query. */
  lemma EffectiveTermIgnoresCase(program: string)
    ensures EffectiveTerm(Lower(program)) == EffectiveTerm(program)
  {
    assert Lower(Lower(program)) == Lower(program);
  }

  // ---------------------------------------------------------------------------
  // The filter

  /** `Array.isArray(college.programs) && college.programs.some(p => regex.test(p))`. */
  predicate MatchesPattern(c: College, pattern: string)
    requires PatternLiteral(pattern).Some?
  {
    c.programs.Some? && exists i :: 0 <= i < |c.programs.value| && RegexTestIgnoreCase(pattern, c.programs.value[i])
  }

  /** What the route is for: the college has a program list, and one entry contains `term` with letter case ignored. */
  predicate OffersProgram(c: College, term: string) {
    c.programs.Some? && exists i :: 0 <= i < |c.programs.value| && ContainsIgnoringCase(c.programs.value[i], term)
  }

  /** `a` is `b` with some elements left out and the rest in their order. */
  predicate IsSubsequence<T(==)>(a: seq<T>, b: seq<T>)
    decreases |b|
  {
    if a == [] then true
    else if b == [] then false
    else if a[0] == b[0] then IsSubsequence(a[1..], b[1..])
    else IsSubsequence(a, b[1..])
  }

  lemma {:induction false} IsSubsequenceOfItself<T>(a: seq<T>)
    ensures IsSubsequence(a, a)
    decreases |a|
  {
    if a != [] {
      IsSubsequenceOfItself(a[1..]);
    }
  }

  /**
   * `colleges.filter(...)` with the escaped term's expression: it keeps
   * exactly the colleges that offer the term, in their original order.
   */
  function FilterColleges(colleges: seq<College>, pattern: string): (r: seq<College>)
    requires PatternLiteral(pattern).Some?
    ensures forall c :: c in r <==> c in colleges && OffersProgram(c, PatternLiteral(pattern).value)
    ensures forall c :: multiset(r)[c] == if OffersProgram(c, PatternLiteral(pattern).value) then multiset(colleges)[c] else 0
    ensures IsSubsequence(r, colleges)
    decreases |colleges|
  {
    if colleges == [] then []
    else
      var rest := FilterColleges(colleges[1..], pattern);
      assert colleges == [colleges[0]] + colleges[1..];
      if MatchesPattern(colleges[0], pattern) then
        assert ([colleges[0]] + rest)[1..] == rest;
        [colleges[0]] + rest
      else
        assert rest != [] ==> rest[0] in rest;
        rest
  }

  /** The filter distributes over concatenation, so it never reorders. */
  lemma {:induction false} FilterAppend(a: seq<College>, b: seq<College>, pattern: string)
    requires PatternLiteral(pattern).Some?
    ensures FilterColleges(a + b, pattern) == FilterColleges(a, pattern) + FilterColleges(b, pattern)
    decreases |a|
  {
    if a == [] {
      assert a + b == b;
    } else {
      assert (a + b)[1..] == a[1..] + b;
      FilterAppend(a[1..], b, pattern);
    }
  }

  // ---------------------------------------------------------------------------
  // The handler

  /** What the directory answers: a failed request, or the list of records. */
  datatype Fetch = FetchFailed | Fetched(colleges: seq<College>)

  datatype Response = BadRequest(message: string) | ServerError(message: string) | Ok(colleges: seq<College>)

  /**
   * `GET /colleges?district=...&program=...`: a district outside the
   * allow-list is refused before anything is fetched; a failed fetch is a
   * server error; with a program term and a non-empty list, the colleges
   * offering the effective term are returned in their order, and otherwise
   * the fetched list itself.
   */
  function ListColleges(district: Option<string>, program: Option<string>, fetch: string -> Fetch): (r: Response)
    ensures DistrictRejected(district) <==> r.BadRequest?
    ensures r.BadRequest? ==> r.message == "Only Kalaburagi and Koppal are supported."
    ensures !DistrictRejected(district) ==>
      var fetched := fetch(QueryUrl(district));
      && (fetched.FetchFailed? <==> r.ServerError?)
      && (r.Ok? ==> IsSubsequence(r.colleges, fetched.colleges))
      && (r.Ok? && (!Given(program) || fetched.colleges == []) ==> r.colleges == fetched.colleges)
      && (r.Ok? && Given(program) ==>
            forall c :: c in r.colleges <==> c in fetched.colleges && OffersProgram(c, EffectiveTerm(program.value)))
      && (r.Ok? && Given(program) ==>
            forall c :: multiset(r.colleges)[c] ==
              if OffersProgram(c, EffectiveTerm(program.value)) then multiset(fetched.colleges)[c] else 0)
  {
    if DistrictRejected(district) then
      BadRequest("Only Kalaburagi and Koppal are supported.")
    else
      match fetch(QueryUrl(district))
      case FetchFailed => ServerError("Failed to fetch colleges")
      case Fetched(colleges) =>
        if Given(program) && colleges != [] then
          var pattern := EscapeRegex(EffectiveTerm(program.value));
          EscapeRegexIsLiteral(EffectiveTerm(program.value));
          Ok(FilterColleges(colleges, pattern))
        else
          IsSubsequenceOfItself(colleges);
          Ok(colleges)
  }
}
