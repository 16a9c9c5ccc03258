/**
  The codec between relative file paths and record keys (src/rkey.ts).

  `FilepathToRkey` validates and normalises a path, rewrites every UTF-16 code
  unit (keeping `[A-Za-z0-9.-]`, turning `/` into `:` and escaping everything
  else as `_<base 36>_`), lowercases the result and bounds its length.
  `RkeyToFilepath` turns `:` back into `/` and decodes the escape runs.
  The main theorem, `RoundTrip`, says that decoding a key gives back the
  normalised path with ASCII letters lowercased.
*/
module Rkey {
  import opened Wrappers

  /** One UTF-16 code unit: JavaScript strings are sequences of these. */
  type CodeUnit = c: int | 0 <= c < 0x1_0000

  type Str = seq<CodeUnit>

  const Backslash: CodeUnit := '\\' as int
  const Slash: CodeUnit := '/' as int
  const Colon: CodeUnit := ':' as int
  const Dot: CodeUnit := '.' as int
  const Hyphen: CodeUnit := '-' as int
  const Underscore: CodeUnit := '_' as int

  /** Keys longer than this are refused. */
  const MaxRkeyLength := 512

  /** The four errors `filepathToRkey` throws, in the order it checks for them. */
  datatype RkeyError =
    | EmptyPath     // "File path is empty!"
    | ColonInPath   // "`:` character not allowed in file path!"
    | Traversal     // "Backwards directory navigation not supported in rkey"
    | TooLong       // "File path too long!"

  /** The code units of a string literal (all below 0x10000). */
  function Units(s: string): Str
    requires forall i :: 0 <= i < |s| ==> s[i] as int < 0x1_0000
  {
    seq(|s|, i requires 0 <= i < |s| => s[i] as int)
  }

  // ---------------------------------------------------------------------------
  // Character classes

  predicate IsAsciiUpper(c: CodeUnit) { 'A' as int <= c <= 'Z' as int }
  predicate IsAsciiLower(c: CodeUnit) { 'a' as int <= c <= 'z' as int }
  predicate IsAsciiDigit(c: CodeUnit) { '0' as int <= c <= '9' as int }

  /** The class `[A-Za-z0-9.\-]` of units the encoder keeps as they are. */
  predicate IsKept(c: CodeUnit) {
    IsAsciiUpper(c) || IsAsciiLower(c) || IsAsciiDigit(c) || c == Dot || c == Hyphen
  }

  /** The digits `Number.prototype.toString(36)` emits and the decoder's `[0-9a-z]` matches. */
  predicate IsBase36Digit(c: CodeUnit) { IsAsciiDigit(c) || IsAsciiLower(c) }

  /** The alphabet of every key the encoder returns: `[a-z0-9.\-:_]`. */
  predicate IsRkeyUnit(c: CodeUnit) {
    IsAsciiLower(c) || IsAsciiDigit(c) || c == Dot || c == Hyphen || c == Colon || c == Underscore
  }

  // ---------------------------------------------------------------------------
  // String primitives: startsWith, includes, replace of one unit, toLowerCase

  predicate StartsWith(s: Str, prefix: Str) {
    |prefix| <= |s| && s[..|prefix|] == prefix
  }

  /** `String.prototype.includes`: `pattern` occurs somewhere in `s`. */
  predicate Includes(s: Str, pattern: Str)
    decreases |s|
  {
    StartsWith(s, pattern) || (s != [] && Includes(s[1..], pattern))
  }

  /** `Includes` is the substring test: some suffix of `s` starts with `pattern`. */
  lemma {:induction false} IncludesIffOccurs(s: Str, pattern: Str)
    ensures Includes(s, pattern) <==> exists i :: 0 <= i <= |s| && StartsWith(s[i..], pattern)
  {
    assert s[0..] == s;
    if s != [] {
      IncludesIffOccurs(s[1..], pattern);
      if Includes(s[1..], pattern) {
        var i :| 0 <= i <= |s[1..]| && StartsWith(s[1..][i..], pattern);
        assert s[1..][i..] == s[i + 1..];
      }
      if i :| 0 < i <= |s| && StartsWith(s[i..], pattern) {
        assert s[1..][i - 1..] == s[i..];
      }
    }
  }

  /** For a one-unit pattern, `includes` is membership. */
  lemma {:induction false} IncludesUnit(s: Str, c: CodeUnit)
    ensures Includes(s, [c]) <==> c in s
  {
    if s != [] {
      IncludesUnit(s[1..], c);
      assert s == [s[0]] + s[1..];
    }
  }

  /** `s.replace(/from/g, to)` for a single code unit `from`. */
  function ReplaceUnit(s: Str, from: CodeUnit, to: CodeUnit): (r: Str)
    ensures |r| == |s|
    ensures forall i :: 0 <= i < |s| ==> r[i] == (if s[i] == from then to else s[i])
  {
    if s == [] then [] else [if s[0] == from then to else s[0]] + ReplaceUnit(s[1..], from, to)
  }

  function LowerUnit(c: CodeUnit): CodeUnit {
    if IsAsciiUpper(c) then c + 32 else c
  }

  /** `toLowerCase` restricted to ASCII: `A`-`Z` become `a`-`z`, every other unit stays. */
  function LowerAscii(s: Str): (r: Str)
    ensures |r| == |s|
    ensures forall i :: 0 <= i < |s| ==> r[i] == LowerUnit(s[i])
  {
    if s == [] then [] else [LowerUnit(s[0])] + LowerAscii(s[1..])
  }

  lemma LowerAsciiConcat(a: Str, b: Str)
    ensures LowerAscii(a + b) == LowerAscii(a) + LowerAscii(b)
  {
  }

  lemma ReplaceUnitConcat(a: Str, b: Str, from: CodeUnit, to: CodeUnit)
    ensures ReplaceUnit(a + b, from, to) == ReplaceUnit(a, from, to) + ReplaceUnit(b, from, to)
  {
  }

  // ---------------------------------------------------------------------------
  // Base 36

  function DigitChar(d: nat): (c: CodeUnit)
    requires d < 36
    ensures IsBase36Digit(c) && DigitValue(c) == d
  {
    if d < 10 then '0' as int + d else 'a' as int + (d - 10)
  }

  function DigitValue(c: CodeUnit): nat
    requires IsBase36Digit(c)
  {
    if IsAsciiDigit(c) then c - '0' as int else c - 'a' as int + 10
  }

  /** `parseInt(digits, 36)` of a run of lowercase base-36 digits. */
  function ParseBase36(digits: Str): nat
    requires forall i :: 0 <= i < |digits| ==> IsBase36Digit(digits[i])
  {
    if digits == [] then 0
    else ParseBase36(digits[..|digits| - 1]) * 36 + DigitValue(digits[|digits| - 1])
  }

  /**
    `n.toString(36)`: lowercase digits, most significant first, no leading zero.
    Every code unit (at most 0xFFFF = `1ekf`) takes one to four digits.
  */
  function ToBase36(n: nat): (r: Str)
    ensures 1 <= |r|
    ensures forall i :: 0 <= i < |r| ==> IsBase36Digit(r[i])
    ensures ParseBase36(r) == n
    ensures n < 36 ==> |r| == 1
    ensures n < 36 * 36 ==> |r| <= 2
    ensures n < 36 * 36 * 36 ==> |r| <= 3
    ensures n < 36 * 36 * 36 * 36 ==> |r| <= 4
    ensures |r| > 1 ==> r[0] != '0' as int
    decreases n
  {
    if n < 36 then [DigitChar(n)]
    else
      var q, d := n / 36, n % 36;
      DivideBy36(n);
      var r := ToBase36(q) + [DigitChar(d)];
      assert r[..|r| - 1] == ToBase36(q);
      r
  }

  lemma DivideBy36(n: nat)
    requires 36 <= n
    ensures 1 <= n / 36 && (n / 36) * 36 + n % 36 == n && n % 36 < 36
    ensures n < 36 * 36 ==> n / 36 < 36
    ensures n < 36 * 36 * 36 ==> n / 36 < 36 * 36
    ensures n < 36 * 36 * 36 * 36 ==> n / 36 < 36 * 36 * 36
  {
  }

  // ---------------------------------------------------------------------------
  // Encoding: filepathToRkey

  /** Strip `prefix` from `s` when `s` starts with it (`startsWith` then `slice`). */
  function StripPrefix(s: Str, prefix: Str): (r: Str)
    ensures |s| - |prefix| <= |r| <= |s| && r == s[|s| - |r|..]
  {
    if StartsWith(s, prefix) then s[|prefix|..] else s
  }

  /**
    The path after `src/rkey.ts` lines 6-14: every `\` made `/`, then one
    leading `./` removed, then one leading `/` removed.
  */
  function Normalize(filepath: Str): (n: Str)
    ensures Backslash !in n
    ensures var m := ReplaceUnit(filepath, Backslash, Slash);
      |m| - 3 <= |n| <= |m| && n == m[|m| - |n|..]
  {
    var m := ReplaceUnit(filepath, Backslash, Slash);
    var a := StripPrefix(m, [Dot, Slash]);
    var n := StripPrefix(a, [Slash]);
    ReplacedAbsent(filepath, Backslash, Slash);
    SuffixOfSuffix(m, a, n);
    AbsentFromSuffix(m, n, Backslash);
    n
  }

  lemma ReplacedAbsent(s: Str, from: CodeUnit, to: CodeUnit)
    requires from != to
    ensures from !in ReplaceUnit(s, from, to)
  {
    var r := ReplaceUnit(s, from, to);
    forall i | 0 <= i < |r|
      ensures r[i] != from
    {
    }
  }

  lemma SuffixOfSuffix(s: Str, a: Str, b: Str)
    requires |a| <= |s| && a == s[|s| - |a|..]
    requires |b| <= |a| && b == a[|a| - |b|..]
    ensures b == s[|s| - |b|..]
  {
  }

  lemma AbsentFromSuffix(s: Str, t: Str, c: CodeUnit)
    requires c !in s
    requires |t| <= |s| && t == s[|s| - |t|..]
    ensures c !in t
  {
  }

  /** The traversal test of line 16: `../` or `/..` occurs as a substring. */
  predicate HasTraversal(n: Str) {
    Includes(n, [Dot, Dot, Slash]) || Includes(n, [Slash, Dot, Dot])
  }

  /** The replacement the regex callback of lines 23-28 returns for one unit. */
  function EscapeUnit(c: CodeUnit): Str {
    if IsKept(c) then [c]
    else if c == Backslash || c == Slash then [Colon]
    else [Underscore] + ToBase36(c) + [Underscore]
  }

  /** `replace(/[^A-Za-z0-9.\-]/g, …)`: every unit replaced by its `EscapeUnit`. */
  function Escape(s: Str): Str {
    if s == [] then [] else EscapeUnit(s[0]) + Escape(s[1..])
  }

  /** Lines 20-30: escape every unit, then lowercase. */
  function Transform(n: Str): Str {
    LowerAscii(Escape(n))
  }

  /** `filepathToRkey`: a record key for `filepath`, or the error it throws. */
  function FilepathToRkey(filepath: Str): (r: Result<Str, RkeyError>)
    ensures r.Ok? ==> |r.value| <= MaxRkeyLength
    ensures r.Ok? ==> forall i :: 0 <= i < |r.value| ==> IsRkeyUnit(r.value[i])
  {
    if filepath == [] then Err(EmptyPath)
    else if Includes(filepath, [Colon]) then Err(ColonInPath)
    else
      var n := Normalize(filepath);
      if HasTraversal(n) then Err(Traversal)
      else
        var key := Transform(n);
        TransformAlphabet(n);
        if |key| > MaxRkeyLength then Err(TooLong) else Ok(key)
  }

  // ---------------------------------------------------------------------------
  // Decoding: rkeyToFilepath

  /** The number of base-36 digits at the start of `s`. */
  function LeadingDigits(s: Str): (k: nat)
    ensures k <= |s|
    ensures forall i :: 0 <= i < k ==> IsBase36Digit(s[i])
    ensures k < |s| ==> !IsBase36Digit(s[k])
  {
    if s != [] && IsBase36Digit(s[0]) then 1 + LeadingDigits(s[1..]) else 0
  }

  /** The pattern `_([0-9a-z]{1,4})_` matches at the start of `s` with `k` digits. */
  predicate MatchesEscape(s: Str, k: nat) {
    1 <= k <= 4 && k + 2 <= |s| && s[0] == Underscore && s[k + 1] == Underscore &&
    forall i :: 1 <= i <= k ==> IsBase36Digit(s[i])
  }

  /**
    How the regex engine matches `_([0-9a-z]{1,4})_` at the start of `s`: the
    number of digits of the match, or 0 when there is none. Since `_` is not a
    digit, greedy matching and backtracking find at most one digit count.
  */
  function EscapeRunAt(s: Str): (k: nat)
    ensures k > 0 ==> MatchesEscape(s, k)
    ensures k == 0 ==> forall j :: !MatchesEscape(s, j)
  {
    if s != [] && s[0] == Underscore then
      var k := LeadingDigits(s[1..]);
      if 1 <= k <= 4 && k + 1 < |s| && s[k + 1] == Underscore then k else 0
    else 0
  }

  /** `String.fromCharCode`: the code is reduced to 16 bits. */
  function FromCharCode(code: nat): CodeUnit {
    code % 0x1_0000
  }

  lemma FromCharCodeOfUnit(c: CodeUnit)
    ensures FromCharCode(c) == c
  {
  }

  /** The second `replace` of `rkeyToFilepath`: escape runs decoded left to right, without overlap. */
  function DecodeEscapes(s: Str): (r: Str)
    ensures |r| <= |s|
    decreases |s|
  {
    if s == [] then []
    else
      var k := EscapeRunAt(s);
      if k > 0 then [FromCharCode(ParseBase36(s[1..k + 1]))] + DecodeEscapes(s[k + 2..])
      else [s[0]] + DecodeEscapes(s[1..])
  }

  /** `rkeyToFilepath`: total; `:` becomes `/`, then escape runs are decoded. */
  function RkeyToFilepath(rkey: Str): (r: Str)
    ensures |r| <= |rkey|
    ensures Underscore !in rkey ==> r == ReplaceUnit(rkey, Colon, Slash)
  {
    var s := ReplaceUnit(rkey, Colon, Slash);
    DecodeNoUnderscore(s);
    DecodeEscapes(s)
  }

  // ---------------------------------------------------------------------------
  // Properties of the decoder

  /** Without `_` there is nothing to decode. */
  lemma {:induction false} DecodeNoUnderscore(s: Str)
    ensures Underscore !in s ==> DecodeEscapes(s) == s
  {
    if s != [] && Underscore !in s {
      DecodeNoUnderscore(s[1..]);
    }
  }

  /** A unit other than `_` passes through the decoder. */
  lemma DecodePlain(x: CodeUnit, rest: Str)
    requires x != Underscore
    ensures DecodeEscapes([x] + rest) == [x] + DecodeEscapes(rest)
  {
    assert ([x] + rest)[1..] == rest;
  }

  /** An escape run of one to four digits decodes to one unit, its value modulo 2^16. */
  lemma DecodeEscapeRun(digits: Str, rest: Str)
    requires 1 <= |digits| <= 4
    requires forall i :: 0 <= i < |digits| ==> IsBase36Digit(digits[i])
    ensures DecodeEscapes([Underscore] + digits + [Underscore] + rest)
         == [FromCharCode(ParseBase36(digits))] + DecodeEscapes(rest)
  {
    var s := [Underscore] + digits + [Underscore] + rest;
    var k := |digits|;
    assert MatchesEscape(s, k);
    assert s[1..k + 1] == digits;
    assert s[k + 2..] == rest;
  }

  // ---------------------------------------------------------------------------
  // Properties of the encoder

  /** Escaping works unit by unit. */
  lemma {:induction false} EscapeConcat(a: Str, b: Str)
    ensures Escape(a + b) == Escape(a) + Escape(b)
  {
    if a == [] {
      assert a + b == b;
    } else {
      assert (a + b)[0] == a[0];
      assert (a + b)[1..] == a[1..] + b;
      EscapeConcat(a[1..], b);
      calc {
        Escape(a + b);
        EscapeUnit(a[0]) + Escape(a[1..] + b);
        EscapeUnit(a[0]) + (Escape(a[1..]) + Escape(b));
        Escape(a) + Escape(b);
      }
    }
  }

  /** The per-unit rule of lines 23-30, after lowercasing. */
  lemma EncodeUnitRule(c: CodeUnit)
    requires c != Backslash
    ensures IsKept(c) ==> Transform([c]) == [LowerUnit(c)]
    ensures c == Slash ==> Transform([c]) == [Colon]
    ensures !IsKept(c) && c != Slash ==>
      var d := ToBase36(c);
      Transform([c]) == [Underscore] + d + [Underscore] && 1 <= |d| <= 4
  {
    TransformUnit(c);
    if !IsKept(c) && c != Slash {
      var d := ToBase36(c);
      LowerAbsent([Underscore] + d + [Underscore]);
    }
  }

  lemma TransformUnit(c: CodeUnit)
    ensures Transform([c]) == LowerAscii(EscapeUnit(c))
  {
    assert Escape([c]) == EscapeUnit(c) + Escape([]);
    assert EscapeUnit(c) + [] == EscapeUnit(c);
  }

  lemma LowerAbsent(s: Str)
    requires forall i :: 0 <= i < |s| ==> !IsAsciiUpper(s[i])
    ensures LowerAscii(s) == s
  {
  }

  /** `Transform` distributes over concatenation, so each unit is rewritten on its own. */
  lemma TransformConcat(a: Str, b: Str)
    ensures Transform(a + b) == Transform(a) + Transform(b)
  {
    EscapeConcat(a, b);
    LowerAsciiConcat(Escape(a), Escape(b));
  }

  /** Every unit `Escape` produces is ASCII from `[A-Za-z0-9.\-:_]`. */
  lemma {:induction false} EscapeAlphabet(s: Str)
    ensures forall i :: 0 <= i < |Escape(s)| ==> var c := Escape(s)[i];
      c < 128 && (IsKept(c) || c == Colon || c == Underscore)
  {
    if s != [] {
      EscapeAlphabet(s[1..]);
    }
  }

  /** After lowercasing, every unit is in the key alphabet `[a-z0-9.\-:_]`. */
  lemma TransformAlphabet(n: Str)
    ensures forall i :: 0 <= i < |Transform(n)| ==> IsRkeyUnit(Transform(n)[i])
  {
    EscapeAlphabet(n);
  }

  /** An empty path is refused before anything else. */
  lemma EmptyPathRejected()
    ensures FilepathToRkey([]) == Err(EmptyPath)
  {
  }

  /** A raw `:` anywhere is refused, on the input as given (before `\` is rewritten). */
  lemma ColonRejected(filepath: Str)
    requires filepath != []
    ensures FilepathToRkey(filepath) == Err(ColonInPath) <==> Colon in filepath
  {
    IncludesUnit(filepath, Colon);
    if Colon !in filepath && !HasTraversal(Normalize(filepath)) {
      LengthBound(filepath);
    }
  }

  /** Past the first two checks, the path is refused as traversal exactly when its normal form contains `../` or `/..`. */
  lemma TraversalRejected(filepath: Str)
    requires filepath != [] && Colon !in filepath
    ensures FilepathToRkey(filepath) == Err(Traversal) <==> HasTraversal(Normalize(filepath))
  {
    IncludesUnit(filepath, Colon);
    if !HasTraversal(Normalize(filepath)) {
      LengthBound(filepath);
    }
  }

  /** Past the first three checks, the path is refused as too long exactly when its key would exceed 512 units; otherwise the key is `Transform` of the normal form. */
  lemma LengthBound(filepath: Str)
    requires filepath != [] && Colon !in filepath && !HasTraversal(Normalize(filepath))
    ensures var key := Transform(Normalize(filepath));
      FilepathToRkey(filepath) == if |key| > MaxRkeyLength then Err(TooLong) else Ok(key)
  {
    IncludesUnit(filepath, Colon);
  }

  /** Decoding one encoded unit (with `:` already turned back into `/`). */
  lemma DecodeEncodedUnit(c: CodeUnit, rest: Str)
    requires c != Backslash
    ensures DecodeEscapes(ReplaceUnit(Transform([c]), Colon, Slash) + rest) == [LowerUnit(c)] + DecodeEscapes(rest)
  {
    EncodeUnitRule(c);
    if IsKept(c) {
      assert ReplaceUnit([LowerUnit(c)], Colon, Slash) == [LowerUnit(c)];
      DecodePlain(LowerUnit(c), rest);
    } else if c == Slash {
      assert ReplaceUnit([Colon], Colon, Slash) == [Slash];
      DecodePlain(Slash, rest);
    } else {
      DecodeEscapedUnit(c, rest);
    }
  }

  lemma DecodeEscapedUnit(c: CodeUnit, rest: Str)
    requires !IsKept(c) && c != Slash && c != Backslash
    ensures DecodeEscapes(ReplaceUnit(Transform([c]), Colon, Slash) + rest) == [c] + DecodeEscapes(rest)
  {
    var d := ToBase36(c);
    var run := [Underscore] + d + [Underscore];
    assert Transform([c]) == run by { EncodeUnitRule(c); }
    assert Colon !in run by {
      assert forall i :: 0 <= i < |run| ==> run[i] == Underscore || IsBase36Digit(run[i]);
    }
    ReplaceAbsent(run, Colon, Slash);
    DecodeEscapeRun(d, rest);
    FromCharCodeOfUnit(c);
  }

  lemma ReplaceAbsent(s: Str, from: CodeUnit, to: CodeUnit)
    requires from !in s
    ensures ReplaceUnit(s, from, to) == s
  {
  }

  /** Decoding inverts `Transform` up to ASCII case. */
  lemma {:induction false} DecodeTransform(n: Str)
    requires Backslash !in n
    ensures RkeyToFilepath(Transform(n)) == LowerAscii(n)
  {
    if n != [] {
      var c, rest := n[0], n[1..];
      assert n == [c] + rest;
      TransformConcat([c], rest);
      ReplaceUnitConcat(Transform([c]), Transform(rest), Colon, Slash);
      DecodeEncodedUnit(c, ReplaceUnit(Transform(rest), Colon, Slash));
      DecodeTransform(rest);
      LowerAsciiConcat([c], rest);
    }
  }

  /** Round trip: decoding a key gives back the normalised path with `A`-`Z` lowercased. */
  lemma RoundTrip(filepath: Str)
    requires FilepathToRkey(filepath).Ok?
    ensures RkeyToFilepath(FilepathToRkey(filepath).value) == LowerAscii(Normalize(filepath))
  {
    IncludesUnit(filepath, Colon);
    var n := Normalize(filepath);
    assert !HasTraversal(n);
    LengthBound(filepath);
    DecodeTransform(n);
  }

  /** The round trip is exact for paths without uppercase ASCII letters. */
  lemma RoundTripExact(filepath: Str)
    requires FilepathToRkey(filepath).Ok?
    requires forall i :: 0 <= i < |Normalize(filepath)| ==> !IsAsciiUpper(Normalize(filepath)[i])
    ensures RkeyToFilepath(FilepathToRkey(filepath).value) == Normalize(filepath)
  {
    RoundTrip(filepath);
  }

  /** Two paths with the same key have the same normal form up to ASCII case. */
  lemma KeysDetermineLoweredPath(p: Str, q: Str)
    requires FilepathToRkey(p).Ok? && FilepathToRkey(q).Ok?
    requires FilepathToRkey(p).value == FilepathToRkey(q).value
    ensures LowerAscii(Normalize(p)) == LowerAscii(Normalize(q))
  {
    RoundTrip(p);
    RoundTrip(q);
  }

  /** A path of lowercase kept units and `/` encodes to itself with `/` made `:`. */
  lemma {:induction false} PlainPathEncoding(n: Str)
    requires IsPlainPath(n)
    ensures Transform(n) == ReplaceUnit(n, Slash, Colon)
  {
    if n != [] {
      assert n == [n[0]] + n[1..];
      TransformConcat([n[0]], n[1..]);
      EncodeUnitRule(n[0]);
      PlainPathEncoding(n[1..]);
      ReplaceUnitConcat([n[0]], n[1..], Slash, Colon);
    }
  }

  /** Examples of the per-unit rule: space is `_w_`, `_` is `_2n_`, 0xFFFF is `_1ekf_`. */
  lemma EscapeExamples()
    ensures Transform([' ' as int]) == Units("_w_")
    ensures Transform([Underscore]) == Units("_2n_")
    ensures Transform([0xFFFF]) == Units("_1ekf_")
  {
    SpaceEscape();
    UnderscoreEscape();
    LargestEscape();
  }

  lemma SpaceEscape()
    ensures Transform([' ' as int]) == Units("_w_")
  {
    EncodeUnitRule(' ' as int);
    assert ToBase36(' ' as int) == ['w' as int];
  }

  lemma UnderscoreEscape()
    ensures Transform([Underscore]) == Units("_2n_")
  {
    EncodeUnitRule(Underscore);
    assert ToBase36(2) == ['2' as int];
    assert ToBase36(Underscore) == ToBase36(2) + [DigitChar(23)];
  }

  lemma LargestEscape()
    ensures Transform([0xFFFF]) == Units("_1ekf_")
  {
    EncodeUnitRule(0xFFFF);
    assert ToBase36(1) == ['1' as int];
    assert ToBase36(50) == ToBase36(1) + [DigitChar(14)];
    assert ToBase36(1820) == ToBase36(50) + [DigitChar(20)];
    assert ToBase36(0xFFFF) == ToBase36(1820) + [DigitChar(15)];
  }

  /** A unit the encoder escapes and that passes the `:` check. */
  predicate IsEscaped(c: CodeUnit) {
    !IsKept(c) && c != Slash && c != Backslash && c != Colon
  }

  /** Every escaped unit takes at least three units of the key. */
  lemma {:induction false} EscapedLength(n: Str)
    requires forall i :: 0 <= i < |n| ==> IsEscaped(n[i])
    ensures |Escape(n)| >= 3 * |n|
  {
    if n != [] {
      EscapedLength(n[1..]);
    }
  }

  /** Without `.` there is no traversal. */
  lemma NoTraversalWithoutDots(n: Str)
    requires Dot !in n
    ensures !HasTraversal(n)
  {
    IncludesIffOccurs(n, [Dot, Dot, Slash]);
    IncludesIffOccurs(n, [Slash, Dot, Dot]);
    forall i | 0 <= i <= |n|
      ensures !StartsWith(n[i..], [Slash, Dot, Dot]) && !StartsWith(n[i..], [Dot, Dot, Slash])
    {
      if i + 3 <= |n| {
        assert n[i..][..3][0] == n[i] && n[i..][..3][1] == n[i + 1];
        assert n[i + 1] != Dot && n[i] != Dot;
      }
    }
  }

  /** A path of more than 170 escaped units (each at least three key units) is refused as too long. */
  lemma LongEscapedPathRejected(p: Str)
    requires |p| > MaxRkeyLength / 3
    requires forall i :: 0 <= i < |p| ==> IsEscaped(p[i])
    ensures FilepathToRkey(p) == Err(TooLong)
  {
    assert Colon !in p && Backslash !in p && Dot !in p by {
      assert forall i :: 0 <= i < |p| ==> p[i] != Colon && p[i] != Backslash && p[i] != Dot;
    }
    DiffersAt(p, [Dot, Slash], 0);
    DiffersAt(p, [Slash], 0);
    NormalizeUnchanged(p);
    NoTraversalWithoutDots(p);
    EscapedLength(p);
    LengthBound(p);
  }

  /** A path that starts with neither `./` nor `/` and has no `\` is its own normal form. */
  lemma NormalizeUnchanged(p: Str)
    requires Backslash !in p && !StartsWith(p, [Dot, Slash]) && !StartsWith(p, [Slash])
    ensures Normalize(p) == p
  {
    ReplaceAbsent(p, Backslash, Slash);
  }

  /** A string that differs from a prefix at position `i` does not start with it. */
  lemma DiffersAt(s: Str, prefix: Str, i: nat)
    requires i < |prefix| && i < |s| && s[i] != prefix[i]
    ensures !StartsWith(s, prefix)
  {
    if |prefix| <= |s| {
      assert s[..|prefix|][i] == s[i];
    }
  }

  /** A pattern longer than the string cannot occur in it. */
  lemma IncludesNeedsRoom(s: Str, pattern: Str)
    requires |s| < |pattern|
    ensures !Includes(s, pattern)
  {
    IncludesIffOccurs(s, pattern);
  }

  /** A pattern that starts some suffix of the string occurs in it. */
  lemma IncludesAt(s: Str, pattern: Str, i: nat)
    requires i <= |s| && StartsWith(s[i..], pattern)
    ensures Includes(s, pattern)
  {
    IncludesIffOccurs(s, pattern);
  }

  /** Traversal is found by substring: `a/../b` is refused. */
  lemma TraversalInsidePath()
    ensures FilepathToRkey(Units("a/../b")) == Err(Traversal)
  {
    var p := Units("a/../b");
    assert p == ['a' as int, Slash, Dot, Dot, Slash, 'b' as int];
    DiffersAt(p, [Dot, Slash], 0);
    DiffersAt(p, [Slash], 0);
    NormalizeUnchanged(p);
    IncludesAt(p, [Slash, Dot, Dot], 1);
    TraversalRejected(p);
  }

  /** `../x` is refused. */
  lemma TraversalAtStart()
    ensures FilepathToRkey(Units("../x")) == Err(Traversal)
  {
    var p := Units("../x");
    assert p == [Dot, Dot, Slash, 'x' as int];
    DiffersAt(p, [Dot, Slash], 1);
    DiffersAt(p, [Slash], 0);
    NormalizeUnchanged(p);
    IncludesAt(p, [Dot, Dot, Slash], 0);
    TraversalRejected(p);
  }

  /** The substring test also refuses a name merely ending in `..`, such as `a../b`. */
  lemma TraversalFalsePositive()
    ensures FilepathToRkey(Units("a../b")) == Err(Traversal)
  {
    var p := Units("a../b");
    assert p == ['a' as int, Dot, Dot, Slash, 'b' as int];
    DiffersAt(p, [Dot, Slash], 0);
    DiffersAt(p, [Slash], 0);
    NormalizeUnchanged(p);
    IncludesAt(p, [Dot, Dot, Slash], 1);
    TraversalRejected(p);
  }

  /** The substring test accepts a bare `..`, which encodes to itself. */
  lemma BareDotDotAccepted()
    ensures FilepathToRkey(Units("..")) == Ok(Units(".."))
  {
    var p := Units("..");
    assert p == [Dot, Dot];
    DiffersAt(p, [Dot, Slash], 1);
    DiffersAt(p, [Slash], 0);
    IncludesNeedsRoom(p, [Dot, Dot, Slash]);
    IncludesNeedsRoom(p, [Slash, Dot, Dot]);
    PlainPathRoundTrip(p);
    ReplaceAbsent(p, Slash, Colon);
  }

  /** `/` passes the emptiness check and encodes to the empty key. */
  lemma SlashOnly()
    ensures FilepathToRkey(Units("/")) == Ok([])
  {
    var p := Units("/");
    assert p == [Slash];
    assert Normalize(p) == [] by {
      ReplaceAbsent(p, Backslash, Slash);
      assert StartsWith(p, [Slash]) && p[1..] == [];
    }
    assert !HasTraversal([]) by {
      IncludesNeedsRoom([], [Dot, Dot, Slash]);
      IncludesNeedsRoom([], [Slash, Dot, Dot]);
    }
    LengthBound(p);
  }

  /** `./` passes the emptiness check and encodes to the empty key. */
  lemma DotSlashOnly()
    ensures FilepathToRkey(Units("./")) == Ok([])
  {
    var p := Units("./");
    assert p == [Dot, Slash];
    assert Normalize(p) == [] by {
      ReplaceAbsent(p, Backslash, Slash);
      assert StartsWith(p, [Dot, Slash]) && p[2..] == [];
    }
    assert !HasTraversal([]) by {
      IncludesNeedsRoom([], [Dot, Dot, Slash]);
      IncludesNeedsRoom([], [Slash, Dot, Dot]);
    }
    LengthBound(p);
  }

  /** `../:` is refused for its `:`, which is checked before traversal. */
  lemma ColonBeforeTraversal()
    ensures FilepathToRkey(Units("../:")) == Err(ColonInPath)
  {
    var p := Units("../:");
    assert p == [Dot, Dot, Slash, Colon];
    ColonRejected(p);
  }

  /** The shape of a path the identity case covers: lowercase kept units and `/`. */
  predicate IsPlainPath(p: Str) {
    forall i :: 0 <= i < |p| ==> (IsKept(p[i]) && !IsAsciiUpper(p[i])) || p[i] == Slash
  }

  /**
    The identity case: a plain path (not starting with `./` or `/`, without
    traversal, short enough) encodes to itself with `/` made `:`, and decodes
    back exactly.
  */
  lemma PlainPathRoundTrip(p: Str)
    requires p != [] && |p| <= MaxRkeyLength && IsPlainPath(p)
    requires !StartsWith(p, [Dot, Slash]) && !StartsWith(p, [Slash]) && !HasTraversal(p)
    ensures FilepathToRkey(p) == Ok(ReplaceUnit(p, Slash, Colon))
    ensures RkeyToFilepath(ReplaceUnit(p, Slash, Colon)) == p
  {
    PlainPathEncodes(p);
    PlainPathDecodes(p);
  }

  lemma PlainPathEncodes(p: Str)
    requires p != [] && |p| <= MaxRkeyLength && IsPlainPath(p)
    requires !StartsWith(p, [Dot, Slash]) && !StartsWith(p, [Slash]) && !HasTraversal(p)
    ensures FilepathToRkey(p) == Ok(ReplaceUnit(p, Slash, Colon))
  {
    assert Colon !in p && Backslash !in p by {
      assert forall i :: 0 <= i < |p| ==> p[i] != Colon && p[i] != Backslash;
    }
    NormalizeUnchanged(p);
    assert Transform(p) == ReplaceUnit(p, Slash, Colon) by { PlainPathEncoding(p); }
    LengthBound(p);
  }

  lemma PlainPathDecodes(p: Str)
    requires IsPlainPath(p)
    ensures RkeyToFilepath(ReplaceUnit(p, Slash, Colon)) == p
  {
    assert Backslash !in p by {
      assert forall i :: 0 <= i < |p| ==> p[i] != Backslash;
    }
    PlainPathEncoding(p);
    DecodeTransform(p);
    assert LowerAscii(p) == p;
  }

  /** A space is escaped as `_w_`: `a b` is the key `a_w_b`. */
  lemma SpaceEncodes()
    ensures FilepathToRkey(Units("a b")) == Ok(Units("a_w_b"))
  {
    assert Units("a b") == ['a' as int, ' ' as int, 'b' as int];
    assert Units("a_w_b") == ['a' as int, Underscore, 'w' as int, Underscore, 'b' as int];
    SpaceKey();
    SpaceTransform();
  }

  /** The key `a_w_b` decodes back to `a b`. */
  lemma SpaceDecodes()
    ensures RkeyToFilepath(Units("a_w_b")) == Units("a b")
  {
    var p := ['a' as int, ' ' as int, 'b' as int];
    assert Units("a b") == p;
    assert Units("a_w_b") == ['a' as int, Underscore, 'w' as int, Underscore, 'b' as int];
    SpaceTransform();
    DecodeTransform(p);
    assert LowerAscii(p) == p;
  }

  lemma SpaceKey()
    ensures FilepathToRkey(['a' as int, ' ' as int, 'b' as int]) == Ok(Transform(['a' as int, ' ' as int, 'b' as int]))
  {
    var p := ['a' as int, ' ' as int, 'b' as int];
    DiffersAt(p, [Dot, Slash], 0);
    DiffersAt(p, [Slash], 0);
    NormalizeUnchanged(p);
    assert !HasTraversal(p) by {
      IncludesNeedsRoom(p[1..], [Dot, Dot, Slash]);
      IncludesNeedsRoom(p[1..], [Slash, Dot, Dot]);
    }
    assert |Transform(p)| <= MaxRkeyLength by {
      SpaceTransform();
    }
    LengthBound(p);
  }

  lemma SpaceTransform()
    ensures Transform(['a' as int, ' ' as int, 'b' as int]) == ['a' as int, Underscore, 'w' as int, Underscore, 'b' as int]
  {
    var a, b, w, sp := 'a' as int, 'b' as int, 'w' as int, ' ' as int;
    EncodeUnitRule(a);
    EncodeUnitRule(sp);
    EncodeUnitRule(b);
    assert ToBase36(sp) == [w];
    TransformConcat([a], [sp]);
    TransformConcat([a, sp], [b]);
    assert [a] + [sp] == [a, sp] && [a, sp] + [b] == [a, sp, b];
  }
}
