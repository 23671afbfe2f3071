/**
 * The JavaScript string built-ins the player relies on: `trim`, `split` with a
 * string separator (and the `join` it undoes), `toLowerCase` / `endsWith` on file
 * keys, `Number.prototype.toString` for whole numbers, `padStart` and `padEnd`.
 * Strings are sequences of characters.
 */
module Text {

  // ---------------------------------------------------------------- digits

  /** ASCII decimal digit: what a regular expression `\d` matches without the `u` flag. */
  predicate IsDigit(c: char) {
    '0' <= c <= '9'
  }

  predicate AllDigits(s: string) {
    forall i :: 0 <= i < |s| ==> IsDigit(s[i])
  }

  function DigitValue(c: char): (d: nat)
    requires IsDigit(c)
    ensures d < 10
  {
    (c as int) - ('0' as int)
  }

  function DigitChar(d: nat): (c: char)
    requires d < 10
    ensures IsDigit(c) && DigitValue(c) == d
  {
    (('0' as int) + d) as char
  }

  /** The value of a string of decimal digits, as `parseInt(s, 10)` reads it (0 for the empty string). */
  function DecimalValue(s: string): (v: nat)
    requires AllDigits(s)
    ensures v < Pow10(|s|)
  {
    if s == [] then 0 else 10 * DecimalValue(s[..|s| - 1]) + DigitValue(s[|s| - 1])
  }

  function Pow10(k: nat): (p: nat)
    ensures p >= 1
  {
    if k == 0 then 1 else 10 * Pow10(k - 1)
  }

  /** Only a string of zeros is worth zero. */
  lemma {:induction false} DecimalValueZero(s: string)
    requires AllDigits(s) && DecimalValue(s) == 0
    ensures forall i :: 0 <= i < |s| ==> s[i] == '0'
  {
    if s != [] {
      var init := s[..|s| - 1];
      DecimalValueZero(init);
      assert forall i :: 0 <= i < |s| - 1 ==> s[i] == init[i];
    }
  }

  /**
   * `toString` reads back a digit string `parseInt` was given, as long as that string
   * has no leading zero: the two are inverse on canonical decimal numerals.
   */
  lemma {:induction false} NatToStringOfDecimal(s: string)
    requires s != [] && AllDigits(s)
    requires s[0] != '0' || s == "0"
    ensures NatToString(DecimalValue(s)) == s
    decreases |s|
  {
    var n := DecimalValue(s);
    var last := s[|s| - 1];
    assert DigitChar(DigitValue(last)) == last;
    if |s| == 1 {
      assert s == [last];
      assert s[..0] == [];
    } else {
      var init := s[..|s| - 1];
      assert init[0] == s[0];
      NatToStringOfDecimal(init);
      if DecimalValue(init) == 0 {
        DecimalValueZero(init);
        assert false;
      }
      assert n / 10 == DecimalValue(init) && n % 10 == DigitValue(last);
      assert s == init + [last];
    }
  }

  /** The value of a two- or three-digit string, digit by digit. */
  lemma DecimalValueShort(s: string)
    requires AllDigits(s)
    ensures |s| == 2 ==> DecimalValue(s) == 10 * DigitValue(s[0]) + DigitValue(s[1])
    ensures |s| == 3 ==> DecimalValue(s) == 100 * DigitValue(s[0]) + 10 * DigitValue(s[1]) + DigitValue(s[2])
  {
    if |s| == 2 || |s| == 3 {
      var one := s[..1];
      assert one[..0] == [] && one[0] == s[0];
      assert DecimalValue(one) == DigitValue(s[0]);
      var two := s[..2];
      assert two[..1] == one && two[1] == s[1];
      assert DecimalValue(two) == 10 * DigitValue(s[0]) + DigitValue(s[1]);
      if |s| == 2 {
        assert s == two;
      }
    }
  }

  /** `n.toString()` for a whole number `n >= 0`: decimal digits without leading zeros. */
  function NatToString(n: nat): (s: string)
    ensures s != [] && AllDigits(s)
    ensures DecimalValue(s) == n
    ensures s[0] != '0' || s == "0"
    decreases n
  {
    if n < 10 then [DigitChar(n)]
    else
      var prefix := NatToString(n / 10);
      var s := prefix + [DigitChar(n % 10)];
      assert s[..|s| - 1] == prefix;
      s
  }

  // ------------------------------------------------------------ whitespace

  /**
   * The ECMAScript WhiteSpace and LineTerminator code points (TAB, LF, VT, FF, CR,
   * SPACE, NBSP, the other Unicode `Zs` spaces, LS, PS and ZWNBSP): exactly the
   * characters `String.prototype.trim` removes.
   */
  const Whitespace: set<char> := {
    '\t', '\n', '\U{000B}', '\U{000C}', '\r', ' ', '\U{00A0}', '\U{1680}',
    '\U{2000}', '\U{2001}', '\U{2002}', '\U{2003}', '\U{2004}', '\U{2005}',
    '\U{2006}', '\U{2007}', '\U{2008}', '\U{2009}', '\U{200A}',
    '\U{2028}', '\U{2029}', '\U{202F}', '\U{205F}', '\U{3000}', '\U{FEFF}'
  }

  predicate IsWhitespace(c: char) {
    c in Whitespace
  }

  predicate AllWhitespace(s: string) {
    forall i :: 0 <= i < |s| ==> IsWhitespace(s[i])
  }

  /** Neither end of `s` is whitespace. */
  predicate IsTrimmed(s: string) {
    s == [] || (!IsWhitespace(s[0]) && !IsWhitespace(s[|s| - 1]))
  }

  function TrimStart(s: string): (r: string)
    ensures |r| <= |s| && r == s[|s| - |r|..]
    ensures AllWhitespace(s[..|s| - |r|])
    ensures r == [] || !IsWhitespace(r[0])
    decreases |s|
  {
    if s != [] && IsWhitespace(s[0]) then TrimStart(s[1..]) else s
  }

  function TrimEnd(s: string): (r: string)
    ensures |r| <= |s| && r == s[..|r|]
    ensures AllWhitespace(s[|r|..])
    ensures r == [] || !IsWhitespace(r[|r| - 1])
    decreases |s|
  {
    if s != [] && IsWhitespace(s[|s| - 1]) then TrimEnd(s[..|s| - 1]) else s
  }

  /** `String.prototype.trim`: `s` without its leading and trailing whitespace. */
  function Trim(s: string): (r: string)
    ensures IsTrimmed(r) && |r| <= |s|
    ensures InnerSlice(s, r)
  {
    var t := TrimStart(s);
    var r := TrimEnd(t);
    TrimIsSlice(s, t, r);
    r
  }

  /** `r` is a slice of `s` with nothing but whitespace around it. */
  predicate InnerSlice(s: string, r: string) {
    exists i :: 0 <= i <= |s| - |r| && r == s[i..i + |r|]
                && AllWhitespace(s[..i]) && AllWhitespace(s[i + |r|..])
  }

  /** The trim of `s` is a slice of `s` with only whitespace around it. */
  lemma TrimIsSlice(s: string, t: string, r: string)
    requires t == TrimStart(s) && r == TrimEnd(t)
    ensures InnerSlice(s, r)
  {
    var i := |s| - |t|;
    assert t == s[i..];
    SliceOfSuffix(s, i, |r|);
    WhitespaceAround(s, r, i);
  }

  lemma SliceOfSuffix(s: string, i: nat, n: nat)
    requires i + n <= |s|
    ensures s[i..][..n] == s[i..i + n] && s[i..][n..] == s[i + n..]
  {
    forall k | 0 <= k < n ensures s[i..][..n][k] == s[i..i + n][k] {
    }
  }

  lemma WhitespaceAround(s: string, r: string, i: nat)
    requires i <= |s| - |r| && r == s[i..i + |r|]
    requires AllWhitespace(s[..i]) && AllWhitespace(s[i + |r|..])
    ensures InnerSlice(s, r)
  {
  }

  // ----------------------------------------------------------------- split

  /** `sep` occurs in `s` starting at position `p`. */
  predicate OccursAt(s: string, sep: string, p: int) {
    0 <= p && p + |sep| <= |s| && s[p..p + |sep|] == sep
  }

  /**
   * `s.split(sep)` for a non-empty string separator: scanning left to right, cut at
   * each occurrence of `sep` and resume after it; `""` splits into `[""]`.
   */
  function Split(s: string, sep: string): (parts: seq<string>)
    requires sep != []
    ensures |parts| >= 1
    decreases |s|
  {
    if |s| < |sep| then [s]
    else if s[..|sep|] == sep then [[]] + Split(s[|sep|..], sep)
    else
      var rest := Split(s[1..], sep);
      [[s[0]] + rest[0]] + rest[1..]
  }

  /** `parts.join(sep)`. */
  function Join(parts: seq<string>, sep: string): string
    requires |parts| >= 1
  {
    if |parts| == 1 then parts[0] else parts[0] + sep + Join(parts[1..], sep)
  }

  /** A join is as long as its pieces together plus one separator between each two. */
  lemma {:induction false} JoinLength(parts: seq<string>, sep: string)
    requires |parts| >= 1
    ensures |Join(parts, sep)| == TotalLength(parts) + (|parts| - 1) * |sep|
    decreases |parts|
  {
    if |parts| == 1 {
      assert parts[1..] == [];
    } else {
      JoinLength(parts[1..], sep);
      assert (|parts| - 1) * |sep| == |sep| + (|parts| - 2) * |sep|;
    }
  }

  /** The summed length of the pieces. */
  function TotalLength(parts: seq<string>): nat {
    if parts == [] then 0 else |parts[0]| + TotalLength(parts[1..])
  }

  /** Splitting on a one-character separator gives one piece more than there are separators. */
  lemma {:induction false} SplitCount(s: string, sep: string)
    requires |sep| == 1
    ensures |Split(s, sep)| == Count(s, sep[0]) + 1
    decreases |s|
  {
    if |s| >= 1 {
      SplitCount(s[1..], sep);
      assert s[..1] == sep <==> s[0] == sep[0];
    }
  }

  // ------------------------------------------------------------- lowercase

  /** `toLowerCase` on the ASCII letters; every other character is left alone. */
  function LowerChar(c: char): (l: char)
    ensures 'A' <= c <= 'Z' ==> l as int == c as int + 32
    ensures !('A' <= c <= 'Z') ==> l == c
  {
    if 'A' <= c <= 'Z' then (c as int + 32) as char else c
  }

  function Lower(s: string): (r: string)
    ensures |r| == |s|
    ensures forall i :: 0 <= i < |s| ==> r[i] == LowerChar(s[i])
  {
    seq(|s|, i requires 0 <= i < |s| => LowerChar(s[i]))
  }

  predicate EndsWith(s: string, suffix: string) {
    |suffix| <= |s| && s[|s| - |suffix|..] == suffix
  }

  // --------------------------------------------------------------- padding

  /** `s.padStart(width, fill)` for a one-character `fill`. */
  function PadStart(s: string, width: nat, fill: char): (r: string)
    ensures |r| == if |s| >= width then |s| else width
    ensures r[|r| - |s|..] == s
    ensures forall i :: 0 <= i < |r| - |s| ==> r[i] == fill
    decreases width - |s|
  {
    if |s| >= width then s else PadStart([fill] + s, width, fill)
  }

  /** `s.padEnd(width, fill)` for a one-character `fill`. */
  function PadEnd(s: string, width: nat, fill: char): (r: string)
    ensures |r| == if |s| >= width then |s| else width
    ensures r[..|s|] == s
    ensures forall i :: |s| <= i < |r| ==> r[i] == fill
    decreases width - |s|
  {
    if |s| >= width then s else PadEnd(s + [fill], width, fill)
  }

  /** Number of occurrences of `c` in `s`. */
  function Count(s: string, c: char): nat
  {
    if s == [] then 0 else (if s[0] == c then 1 else 0) + Count(s[1..], c)
  }

  // ---------------------------------------------------------------- lemmas

  /** Trimming leaves nothing exactly when the string is all whitespace. */
  lemma TrimEmptyIff(s: string)
    ensures Trim(s) == [] <==> AllWhitespace(s)
  {
    var t := TrimStart(s);
    TrimStartEmptyIff(s);
    if t != [] {
      assert t[0..] == t;
      assert !IsWhitespace(t[0]);
    }
  }

  lemma {:induction false} TrimStartEmptyIff(s: string)
    ensures TrimStart(s) == [] <==> AllWhitespace(s)
    decreases |s|
  {
    if s != [] {
      AllWhitespaceCons(s);
      if IsWhitespace(s[0]) {
        TrimStartEmptyIff(s[1..]);
      }
    }
  }

  /** A string that already has no whitespace at either end is its own trim. */
  lemma {:induction false} TrimOfTrimmed(s: string)
    requires IsTrimmed(s)
    ensures Trim(s) == s
  {
    assert TrimStart(s) == s;
    assert TrimEnd(s) == s;
  }

  /** `trim` is idempotent. */
  lemma TrimIdempotent(s: string)
    ensures Trim(Trim(s)) == Trim(s)
  {
    TrimOfTrimmed(Trim(s));
  }

  lemma {:induction false} TrimStartAppend(s: string, c: char)
    requires IsWhitespace(c)
    ensures TrimStart(s + [c]) == if AllWhitespace(s) then [] else TrimStart(s) + [c]
    decreases |s|
  {
    if s == [] {
      assert [] + [c] == [c];
      assert [c][1..] == [];
    } else {
      assert (s + [c])[0] == s[0] && (s + [c])[1..] == s[1..] + [c];
      AllWhitespaceCons(s);
      if IsWhitespace(s[0]) {
        TrimStartAppend(s[1..], c);
      }
    }
  }

  lemma AllWhitespaceCons(s: string)
    requires s != []
    ensures AllWhitespace(s) <==> IsWhitespace(s[0]) && AllWhitespace(s[1..])
  {
    if IsWhitespace(s[0]) && AllWhitespace(s[1..]) {
      forall k | 0 <= k < |s| ensures IsWhitespace(s[k]) {
        if k > 0 { assert s[k] == s[1..][k - 1]; }
      }
    }
  }

  /** Whitespace added at the end of a string does not change its trim. */
  lemma TrimTrailingWhitespace(s: string, c: char)
    requires IsWhitespace(c)
    ensures Trim(s + [c]) == Trim(s)
  {
    TrimStartAppend(s, c);
    TrimStartEmptyIff(s);
    TrimEndAppend(TrimStart(s), c);
  }

  lemma TrimEndAppend(t: string, c: char)
    requires IsWhitespace(c)
    ensures TrimEnd(t + [c]) == TrimEnd(t)
  {
    var u := t + [c];
    assert u[|u| - 1] == c && u[..|u| - 1] == t;
  }

  /** Every character of `Trim(s)` is a character of `s`. */
  lemma TrimChars(s: string, c: char)
    requires c in Trim(s)
    ensures c in s
  {
    TrimEndChars(TrimStart(s), c);
    TrimStartChars(s, c);
  }

  lemma {:induction false} TrimStartChars(s: string, c: char)
    requires c in TrimStart(s)
    ensures c in s
    decreases |s|
  {
    if s != [] && IsWhitespace(s[0]) {
      TrimStartChars(s[1..], c);
    }
  }

  lemma {:induction false} TrimEndChars(s: string, c: char)
    requires c in TrimEnd(s)
    ensures c in s
    decreases |s|
  {
    if s != [] && IsWhitespace(s[|s| - 1]) {
      TrimEndChars(s[..|s| - 1], c);
    }
  }

  lemma JoinConsHead(c: char, parts: seq<string>, sep: string)
    requires |parts| >= 1
    ensures Join([[c] + parts[0]] + parts[1..], sep) == [c] + Join(parts, sep)
  {
    var ps := [[c] + parts[0]] + parts[1..];
    assert ps[1..] == parts[1..];
  }

  /** Joining the pieces of a split with the same separator gives back the string. */
  lemma {:induction false} JoinSplit(s: string, sep: string)
    requires sep != []
    ensures Join(Split(s, sep), sep) == s
    decreases |s|
  {
    if |s| < |sep| {
      assert Split(s, sep) == [s];
    } else if s[..|sep|] == sep {
      var rest := Split(s[|sep|..], sep);
      var parts := [[]] + rest;
      assert Split(s, sep) == parts;
      assert parts[1..] == rest;
      assert Join(parts, sep) == [] + sep + Join(rest, sep);
      JoinSplit(s[|sep|..], sep);
      assert s == s[..|sep|] + s[|sep|..];
    } else {
      var rest := Split(s[1..], sep);
      assert Split(s, sep) == [[s[0]] + rest[0]] + rest[1..];
      JoinConsHead(s[0], rest, sep);
      JoinSplit(s[1..], sep);
      assert s == [s[0]] + s[1..];
    }
  }

  /** Without any occurrence of the separator, `split` returns the whole string. */
  lemma {:induction false} SplitNoOccurrence(s: string, sep: string)
    requires sep != []
    requires forall p :: !OccursAt(s, sep, p)
    ensures Split(s, sep) == [s]
    decreases |s|
  {
    if |s| < |sep| {
    } else {
      assert !OccursAt(s, sep, 0);
      forall p ensures !OccursAt(s[1..], sep, p) {
        if OccursAt(s[1..], sep, p) {
          assert s[1..][p..p + |sep|] == s[p + 1..p + 1 + |sep|];
          assert OccursAt(s, sep, p + 1);
        }
      }
      SplitNoOccurrence(s[1..], sep);
      assert [s[0]] + s[1..] == s;
    }
  }

  /** `split` cuts at the first occurrence of the separator it meets scanning from the left. */
  lemma {:induction false} SplitAtFirst(a: string, b: string, sep: string)
    requires sep != []
    requires forall p :: 0 <= p < |a| ==> !OccursAt(a + sep, sep, p)
    ensures Split(a + sep + b, sep) == [a] + Split(b, sep)
    decreases |a|
  {
    var s := a + sep + b;
    if a == [] {
      assert s[..|sep|] == sep;
      assert s[|sep|..] == b;
    } else {
      assert !OccursAt(a + sep, sep, 0);
      assert s[..|sep|] == (a + sep)[..|sep|];
      NoOccurrenceAfterFirst(a, sep);
      SplitAtFirst(a[1..], b, sep);
      assert s[1..] == a[1..] + sep + b;
      var rest := Split(s[1..], sep);
      assert rest == [a[1..]] + Split(b, sep);
      assert [s[0]] + rest[0] == a;
    }
  }

  lemma NoOccurrenceAfterFirst(a: string, sep: string)
    requires a != []
    requires forall p :: 0 <= p < |a| ==> !OccursAt(a + sep, sep, p)
    ensures forall p :: 0 <= p < |a| - 1 ==> !OccursAt(a[1..] + sep, sep, p)
  {
    forall p | 0 <= p < |a| - 1 ensures !OccursAt(a[1..] + sep, sep, p) {
      if OccursAt(a[1..] + sep, sep, p) {
        assert (a[1..] + sep)[p..p + |sep|] == (a + sep)[p + 1..p + 1 + |sep|];
        assert OccursAt(a + sep, sep, p + 1);
      }
    }
  }

  /** With a one-character separator, no piece of a split contains it. */
  lemma {:induction false} SplitPartsAvoidSeparator(s: string, sep: string)
    requires |sep| == 1
    ensures forall i :: 0 <= i < |Split(s, sep)| ==> sep[0] !in Split(s, sep)[i]
    decreases |s|
  {
    if |s| < |sep| {
    } else if s[..|sep|] == sep {
      SplitPartsAvoidSeparator(s[|sep|..], sep);
    } else {
      SplitPartsAvoidSeparator(s[1..], sep);
      assert s[0] != sep[0] by { assert s[..1] == [s[0]]; }
    }
  }

  /**
   * With a one-character separator that no piece contains, splitting the joined
   * pieces gives back the pieces.
   */
  lemma {:induction false} SplitJoin(parts: seq<string>, sep: string)
    requires |sep| == 1 && |parts| >= 1
    requires forall i :: 0 <= i < |parts| ==> sep[0] !in parts[i]
    ensures Split(Join(parts, sep), sep) == parts
    decreases |parts|
  {
    var a := parts[0];
    if |parts| == 1 {
      forall p | 0 <= p < |a| ensures !OccursAt(a, sep, p) {
        assert a[p..p + 1][0] == a[p];
        assert a[p] in a;
      }
      SplitNoOccurrence(a, sep);
    } else {
      forall p | 0 <= p < |a| ensures !OccursAt(a + sep, sep, p) {
        assert (a + sep)[p..p + 1][0] == a[p];
        assert a[p] in a;
      }
      SplitJoin(parts[1..], sep);
      SplitAtFirst(a, Join(parts[1..], sep), sep);
      assert [a] + parts[1..] == parts;
    }
  }

  lemma {:induction false} CountAppend(a: string, b: string, c: char)
    ensures Count(a + b, c) == Count(a, c) + Count(b, c)
    decreases |a|
  {
    if a == [] {
      assert a + b == b;
    } else {
      CountAppend(a[1..], b, c);
      assert (a + b)[1..] == a[1..] + b;
    }
  }

  /** A string in which `c` does not appear counts zero occurrences of it. */
  lemma {:induction false} CountAbsent(s: string, c: char)
    requires c !in s
    ensures Count(s, c) == 0
    decreases |s|
  {
    if s != [] {
      CountAbsent(s[1..], c);
    }
  }
}
