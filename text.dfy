/**
 * String helpers shared by the report printers and the SQL generators:
 * Java's left-justified `%-Ns` format, `String.repeat`, integer to text,
 * Java's truncating `/` and `%`, Java's `String.trim`, and Python's
 * code-point ordering of strings and clipped slices.
 */
module Text {

  function Max(a: int, b: int): int { if a >= b then a else b }

  function Min(a: int, b: int): int { if a <= b then a else b }

  /** `n` copies of `c`, as Java's `String.valueOf(c).repeat(n)`. */
  function Repeat(c: char, n: nat): (r: string)
    ensures |r| == n
    ensures forall k :: 0 <= k < n ==> r[k] == c
  {
    if n == 0 then "" else Repeat(c, n - 1) + [c]
  }

  /**
   * Java's `String.format("%-" + n + "s", s)`: `s` left-justified in a field
   * of `n` characters, padded with spaces and never truncated.
   */
  function PadRight(s: string, n: int): (r: string)
    ensures |r| == Max(|s|, n)
    decreases n - |s|
  {
    if |s| >= n then s else PadRight(s + " ", n)
  }

  /** Padding appends exactly the missing number of spaces. */
  lemma {:induction false} PadRightSpaces(s: string, n: int)
    ensures PadRight(s, n) == s + Repeat(' ', if |s| >= n then 0 else n - |s|)
    decreases n - |s|
  {
    if |s| < n {
      var k := n - |s|;
      PadRightSpaces(s + " ", n);
      assert " " + Repeat(' ', k - 1) == Repeat(' ', k);
      assert (s + " ") + Repeat(' ', k - 1) == s + (" " + Repeat(' ', k - 1));
    } else {
      assert s + Repeat(' ', 0) == s;
    }
  }

  /** The padded text starts with `s` untouched and continues with spaces only. */
  lemma PadRightContents(s: string, n: int)
    ensures PadRight(s, n)[..|s|] == s
    ensures forall k :: |s| <= k < |PadRight(s, n)| ==> PadRight(s, n)[k] == ' '
  {
    PadRightSpaces(s, n);
  }

  /** Python's `sep.join(ws)` and Java's `String.join(sep, ws)`. */
  function Join(ws: seq<string>, sep: string): string
  {
    if ws == [] then ""
    else if |ws| == 1 then ws[0]
    else Join(ws[..|ws| - 1], sep) + sep + ws[|ws| - 1]
  }

  /** Appending one word to a join: the separator and the word (or the word alone). */
  lemma JoinSnoc(ws: seq<string>, w: string, sep: string)
    ensures Join(ws + [w], sep) == if ws == [] then w else Join(ws, sep) + sep + w
  {
    assert (ws + [w])[..|ws + [w]| - 1] == ws;
  }

  /** A character that is in neither the words nor the separator is not in their join. */
  lemma {:induction false} JoinAvoids(ws: seq<string>, sep: string, c: char)
    requires c !in sep && forall k :: 0 <= k < |ws| ==> c !in ws[k]
    ensures c !in Join(ws, sep)
  {
    if |ws| > 1 {
      JoinAvoids(ws[..|ws| - 1], sep, c);
    }
  }

  // ---------------------------------------------------------------------
  // Decimal text of integers (Java `"" + n`, Python `str(n)`)
  // ---------------------------------------------------------------------

  predicate IsDigit(c: char) { '0' <= c <= '9' }

  predicate AllDigits(s: string) { forall k :: 0 <= k < |s| ==> IsDigit(s[k]) }

  function DigitChar(d: nat): (c: char)
    requires d < 10
    ensures IsDigit(c)
  {
    "0123456789"[d]
  }

  function DigitValue(c: char): nat
    requires IsDigit(c)
  {
    (c as int - '0' as int) as nat
  }

  lemma DigitRoundTrip(d: nat)
    requires d < 10
    ensures DigitValue(DigitChar(d)) == d
  {
  }

  /** The decimal text of `n`, without sign and without leading zeros. */
  function NatToString(n: nat): (r: string)
    ensures |r| >= 1 && AllDigits(r)
    ensures r[0] == '0' ==> n == 0 && r == "0"
  {
    if n < 10 then [DigitChar(n)] else NatToString(n / 10) + [DigitChar(n % 10)]
  }

  /** Java's `Integer.toString`: a minus sign in front of negative numbers. */
  function IntToString(i: int): (r: string)
    ensures |r| >= 1
    ensures (r[0] == '-') == (i < 0)
  {
    if i < 0 then "-" + NatToString(-i) else NatToString(i)
  }

  /** The value of a string of decimal digits (the empty string reads as 0). */
  function ParseNat(s: string): nat
    requires AllDigits(s)
  {
    if s == [] then 0 else ParseNat(s[..|s| - 1]) * 10 + DigitValue(s[|s| - 1])
  }

  /** Reading back the decimal text of `n` gives `n`. */
  lemma {:induction false} ParseNatToString(n: nat)
    ensures ParseNat(NatToString(n)) == n
  {
    var s := NatToString(n);
    if n < 10 {
      DigitRoundTrip(n);
    } else {
      ParseNatToString(n / 10);
      DigitRoundTrip(n % 10);
      assert s[..|s| - 1] == NatToString(n / 10);
    }
  }

  /** Different numbers have different decimal texts. */
  lemma NatToStringInjective(m: nat, n: nat)
    requires NatToString(m) == NatToString(n)
    ensures m == n
  {
    ParseNatToString(m);
    ParseNatToString(n);
  }

  function Pow10(k: nat): (r: nat)
    ensures r >= 1
  {
    if k == 0 then 1 else 10 * Pow10(k - 1)
  }

  /** A string of `k` digits reads as a number below `10^k`. */
  lemma {:induction false} ParseNatBound(s: string)
    requires AllDigits(s)
    ensures ParseNat(s) < Pow10(|s|)
  {
    if s != [] {
      ParseNatBound(s[..|s| - 1]);
    }
  }

  /** Reading a digit string from the front: the first digit weighs `10^(k-1)`. */
  lemma {:induction false} ParseNatFront(s: string)
    requires AllDigits(s) && |s| >= 1
    ensures ParseNat(s) == DigitValue(s[0]) * Pow10(|s| - 1) + ParseNat(s[1..])
  {
    if |s| > 1 {
      var init := s[..|s| - 1];
      ParseNatFront(init);
      assert init[1..] == s[1..][..|s[1..]| - 1];
      assert init[0] == s[0];
      var d, p, x, e := DigitValue(s[0]), Pow10(|s| - 2), ParseNat(init[1..]), DigitValue(s[|s| - 1]);
      assert ParseNat(s[1..]) == x * 10 + e;
      assert ParseNat(s) == (d * p + x) * 10 + e;
      ShiftDigit(d, p, x);
    } else {
      assert s[..0] == [];
    }
  }

  lemma ShiftDigit(d: int, p: int, x: int)
    ensures (d * p + x) * 10 == d * (10 * p) + x * 10
  {
  }

  // ---------------------------------------------------------------------
  // Java integer division and remainder (truncating toward zero)
  // ---------------------------------------------------------------------

  /** Java's `a / b` for a positive divisor: rounds toward zero. */
  function JavaDiv(a: int, b: int): int
    requires b > 0
  {
    if a >= 0 then a / b else -((-a) / b)
  }

  /** Java's `a % b` for a positive divisor: takes the sign of `a`. */
  function JavaRem(a: int, b: int): (r: int)
    requires b > 0
    ensures -b < r < b
    ensures a >= 0 ==> 0 <= r
    ensures a < 0 ==> r <= 0
  {
    if a >= 0 then a % b else -((-a) % b)
  }

  lemma JavaDivRem(a: int, b: int)
    requires b > 0
    ensures JavaDiv(a, b) * b + JavaRem(a, b) == a
  {
  }

  // ---------------------------------------------------------------------
  // Java's String.trim: strips characters up to U+0020 from both ends
  // ---------------------------------------------------------------------

  predicate IsTrimmable(c: char) { c <= ' ' }

  function TrimLeft(s: string): (r: string)
    ensures |r| <= |s| && r == s[|s| - |r|..]
    ensures forall k :: 0 <= k < |s| - |r| ==> IsTrimmable(s[k])
    ensures r == [] || !IsTrimmable(r[0])
  {
    if s == [] || !IsTrimmable(s[0]) then s else TrimLeft(s[1..])
  }

  function TrimRight(s: string): (r: string)
    ensures |r| <= |s| && r == s[..|r|]
    ensures forall k :: |r| <= k < |s| ==> IsTrimmable(s[k])
    ensures r == [] || !IsTrimmable(r[|r| - 1])
  {
    if s == [] || !IsTrimmable(s[|s| - 1]) then s else TrimRight(s[..|s| - 1])
  }

  /** Java's `s.trim()`. */
  function Trim(s: string): (r: string)
    ensures r == [] || Trimmed(r)
  {
    TrimRight(TrimLeft(s))
  }

  /** `r` is `s` with the first `i` and the characters from `j` on cut off, all of them trimmable. */
  predicate TrimCut(s: string, i: int, j: int, r: string)
  {
    && 0 <= i <= j <= |s|
    && r == s[i..j]
    && (forall k :: 0 <= k < i ==> IsTrimmable(s[k]))
    && (forall k :: j <= k < |s| ==> IsTrimmable(s[k]))
  }

  /**
   * `trim` only cuts characters up to U+0020 off the two ends: its result is
   * a contiguous part of `s`, and everything before and after it is
   * trimmable.
   */
  lemma TrimCutsEnds(s: string)
    ensures exists i, j :: TrimCut(s, i, j, Trim(s))
  {
    var left := TrimLeft(s);
    var r := TrimRight(left);
    TrimCutWitness(s, left, r);
    assert TrimCut(s, |s| - |left|, |s| - |left| + |r|, Trim(s));
  }

  /** Cutting trimmable characters from the front, then from the back, is one cut of `s`. */
  lemma TrimCutWitness(s: string, left: string, r: string)
    requires |left| <= |s| && left == s[|s| - |left|..]
    requires forall k :: 0 <= k < |s| - |left| ==> IsTrimmable(s[k])
    requires |r| <= |left| && r == left[..|r|]
    requires forall k :: |r| <= k < |left| ==> IsTrimmable(left[k])
    ensures TrimCut(s, |s| - |left|, |s| - |left| + |r|, r)
  {
    var i := |s| - |left|;
    assert r == s[i..i + |r|];
    forall k | i + |r| <= k < |s| ensures IsTrimmable(s[k]) {
      assert s[k] == left[k - i];
    }
  }

  /** Non-empty, and neither end is whitespace or a control character. */
  predicate Trimmed(t: string)
  {
    t != [] && !IsTrimmable(t[0]) && !IsTrimmable(t[|t| - 1])
  }

  /** A string that already starts and ends with a visible character is its own trim. */
  lemma TrimOfTrimmed(s: string)
    requires Trimmed(s)
    ensures Trim(s) == s
  {
  }

  /** Trailing spaces disappear under trim. */
  lemma {:induction false} TrimDropsTrailingSpace(s: string)
    requires Trimmed(s)
    ensures Trim(s + " ") == s
  {
    var t := s + " ";
    assert TrimLeft(t) == t;
    assert t[..|t| - 1] == s;
    assert TrimRight(t) == TrimRight(s);
  }

  // ---------------------------------------------------------------------
  // Python string comparison and slicing
  // ---------------------------------------------------------------------

  /** Python's `a < b` on strings: code-point order, a proper prefix first. */
  predicate LexLess(a: string, b: string)
  {
    if a == [] then b != []
    else if b == [] then false
    else if a[0] != b[0] then a[0] < b[0]
    else LexLess(a[1..], b[1..])
  }

  /** Python's `a >= b` on strings. */
  predicate LexAtLeast(a: string, b: string)
  {
    a == b || LexLess(b, a)
  }

  /** Python's `s[:n]`: the first `n` characters, or all of `s` if shorter. */
  function Take(s: string, n: nat): (r: string)
    ensures |r| == Min(n, |s|) && r == s[..|r|]
  {
    if n <= |s| then s[..n] else s
  }

  /** Python's `s[i:j]` for `0 <= i <= j`, clipped to the length of `s`. */
  function Slice(s: string, i: nat, j: nat): (r: string)
    requires i <= j
    ensures |r| == Min(j, |s|) - Min(i, |s|)
    ensures forall k :: 0 <= k < |r| ==> r[k] == s[i + k]
  {
    s[Min(i, |s|)..Min(j, |s|)]
  }

  /** Python's `s[n:]`. */
  function Drop(s: string, n: nat): (r: string)
    ensures Take(s, n) + r == s
  {
    if n <= |s| then s[n..] else ""
  }

  /**
   * For digit strings of equal length, Python's string order is the order of
   * the numbers they spell (this is why comparing a year "2019" against
   * "2012" as text works).
   */
  lemma {:induction false} LexLessDigits(a: string, b: string)
    requires AllDigits(a) && AllDigits(b) && |a| == |b|
    ensures LexLess(a, b) <==> ParseNat(a) < ParseNat(b)
  {
    if a != [] {
      ParseNatFront(a);
      ParseNatFront(b);
      var p := Pow10(|a| - 1);
      var x, y := ParseNat(a[1..]), ParseNat(b[1..]);
      var da, db := DigitValue(a[0]), DigitValue(b[0]);
      if da < db {
        ParseNatBound(a[1..]);
        LeadingDigitDominates(da, db, p, x, y);
      } else if db < da {
        ParseNatBound(b[1..]);
        LeadingDigitDominates(db, da, p, y, x);
      } else {
        LexLessDigits(a[1..], b[1..]);
      }
    }
  }

  /** A smaller leading digit wins whatever the digits after it. */
  lemma {:induction false} LeadingDigitDominates(da: nat, db: nat, p: nat, x: nat, y: nat)
    requires da < db && x < p
    ensures da * p + x < db * p + y
  {
    assert db * p == (db - 1) * p + p;
    if da < db - 1 {
      LeadingDigitDominates(da, db - 1, p, x, y);
    }
  }

  /** Equal-length digit strings are equal exactly when their numbers are. */
  lemma {:induction false} DigitsEqual(a: string, b: string)
    requires AllDigits(a) && AllDigits(b) && |a| == |b|
    ensures a == b <==> ParseNat(a) == ParseNat(b)
  {
    if a != b {
      LexTotal(a, b);
      LexLessDigits(a, b);
      LexLessDigits(b, a);
    }
  }

  /** Two different strings of equal length are ordered one way or the other. */
  lemma {:induction false} LexTotal(a: string, b: string)
    requires |a| == |b| && a != b
    ensures LexLess(a, b) || LexLess(b, a)
  {
    if a[0] == b[0] {
      assert a == [a[0]] + a[1..] && b == [b[0]] + b[1..];
      LexTotal(a[1..], b[1..]);
    }
  }
}
