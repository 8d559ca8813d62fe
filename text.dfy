/** The string operations the dashboard relies on: Python's `str.lower()`
    and `in` for the column search, and the `,` and `.0%` format codes
    for the funnel labels. */
module Text {

  /** Python `str.lower()` on one character, for the letters A to Z. No other
      character lower-cases to a lone letter of "freemail", so the column
      search below is exact with this mapping. */
  function LowerChar(c: char): (r: char)
    ensures 'A' <= c <= 'Z' ==> r as int == c as int + 32
    ensures !('A' <= c <= 'Z') ==> r == c
  {
    if 'A' <= c <= 'Z' then (c as int + 32) as char else c
  }

  function Lower(s: string): (r: string)
    ensures |r| == |s|
    ensures forall i :: 0 <= i < |s| ==> r[i] == LowerChar(s[i])
  {
    if s == [] then [] else [LowerChar(s[0])] + Lower(s[1..])
  }

  /** Python `w in s` for strings, by scanning the start positions of `s`. */
  function Contains(s: string, w: string): bool
    decreases |s|
  {
    if |w| <= |s| && s[..|w|] == w then true
    else if s == [] then false
    else Contains(s[1..], w)
  }

  /** `w` occurs in `s` starting at position `i`. */
  predicate OccursAt(s: string, w: string, i: int) {
    0 <= i && i + |w| <= |s| && s[i..i + |w|] == w
  }

  /** An occurrence anywhere is found by the scan. */
  lemma {:induction false} OccurrenceFound(s: string, w: string, i: nat)
    requires OccursAt(s, w, i)
    ensures Contains(s, w)
    decreases i
  {
    if i > 0 && !(|w| <= |s| && s[..|w|] == w) {
      assert s[1..][i - 1..i - 1 + |w|] == s[i..i + |w|];
      OccurrenceFound(s[1..], w, i - 1);
    }
  }

  /** What the scan finds is an occurrence. */
  lemma {:induction false} FoundIsOccurrence(s: string, w: string) returns (i: nat)
    requires Contains(s, w)
    ensures OccursAt(s, w, i)
    decreases |s|
  {
    if |w| <= |s| && s[..|w|] == w {
      i := 0;
      assert s[0..|w|] == s[..|w|];
    } else {
      var j := FoundIsOccurrence(s[1..], w);
      assert s[1..][j..j + |w|] == s[j + 1..j + 1 + |w|];
      i := j + 1;
    }
  }

  /** The scan finds `w` exactly when `w` occurs at some position of `s`. */
  lemma ContainsIff(s: string, w: string)
    ensures Contains(s, w) <==> exists i :: OccursAt(s, w, i)
  {
    if Contains(s, w) {
      var i := FoundIsOccurrence(s, w);
    }
    forall i | OccursAt(s, w, i)
      ensures Contains(s, w)
    {
      OccurrenceFound(s, w, i);
    }
  }

  /** A word longer than the text never occurs in it. */
  lemma {:induction false} TooLongNotContained(s: string, w: string)
    requires |s| < |w|
    ensures !Contains(s, w)
    decreases |s|
  {
    if s != [] {
      TooLongNotContained(s[1..], w);
    }
  }

  // ---------------------------------------------------------------------
  // Decimal digits and Python's `,` thousands separator

  function DigitChar(d: nat): (c: char)
    requires d < 10
    ensures '0' <= c <= '9'
    ensures DigitValue(c) == d
  {
    ('0' as int + d) as char
  }

  function DigitValue(c: char): nat {
    if '0' <= c <= '9' then c as int - '0' as int else 0
  }

  /** `str(n)` for a non-negative integer: digits only, and no leading zero
      unless `n` is 0 itself. */
  function Decimal(n: nat): (s: string)
    ensures |s| > 0
    ensures forall i :: 0 <= i < |s| ==> '0' <= s[i] <= '9'
    ensures n >= 10 ==> s[0] != '0'
    decreases n
  {
    if n < 10 then [DigitChar(n)] else Decimal(n / 10) + [DigitChar(n % 10)]
  }

  /** Numbers below one thousand have at most three digits. */
  lemma DecimalShort(n: nat)
    requires n < 1000
    ensures |Decimal(n)| <= 3
  {
    if n >= 10 {
      assert |Decimal(n)| == |Decimal(n / 10)| + 1;
      if n >= 100 {
        assert |Decimal(n / 10)| == |Decimal(n / 100)| + 1;
      }
    }
  }

  /** `n` written as exactly three digits, with leading zeros. */
  function Pad3(n: nat): (s: string)
    requires n < 1000
    ensures |s| == 3
  {
    [DigitChar(n / 100), DigitChar(n / 10 % 10), DigitChar(n % 10)]
  }

  /** From one thousand up, the digits of `n` are those of `n / 1000`
      followed by `n % 1000` padded to three digits. */
  lemma DecimalThousands(n: nat)
    requires n >= 1000
    ensures Decimal(n) == Decimal(n / 1000) + Pad3(n % 1000)
  {
    var q, k := n / 1000, n % 1000;
    var a, b := 100 * q + k / 10, 10 * q + k / 100;
    assert n / 10 == a && n % 10 == k % 10;
    assert a / 10 == b && a % 10 == k / 10 % 10;
    assert b / 10 == q && b % 10 == k / 100;
    assert Decimal(n) == Decimal(a) + [DigitChar(k % 10)];
    assert Decimal(a) == Decimal(b) + [DigitChar(k / 10 % 10)];
    assert Decimal(b) == Decimal(q) + [DigitChar(k / 100)];
  }

  /** Counted from the right, every fourth character is a comma and no
      other character is. */
  predicate CommaEveryFourth(s: string) {
    forall i :: 0 <= i < |s| ==> (s[i] == ',' <==> (|s| - i) % 4 == 0)
  }

  lemma ShortDigitsHaveNoComma(s: string)
    requires |s| <= 3
    requires forall i :: 0 <= i < |s| ==> '0' <= s[i] <= '9'
    ensures CommaEveryFourth(s)
  {
  }

  lemma CommaBeforeGroup(g: string, p: string)
    requires CommaEveryFourth(g)
    requires |p| == 3 && forall i :: 0 <= i < 3 ==> p[i] != ','
    ensures CommaEveryFourth(g + "," + p)
  {
    var s := g + "," + p;
    forall i | 0 <= i < |s|
      ensures s[i] == ',' <==> (|s| - i) % 4 == 0
    {
      if i < |g| {
        assert s[i] == g[i];
        assert |s| - i == (|g| - i) + 4;
      } else if i > |g| {
        assert s[i] == p[i - |g| - 1];
      }
    }
  }

  /** `f"{n:,}"` for a non-negative integer: the digits of `n` with a comma
      before every group of three digits counted from the right
      (`GroupedDigits` and `GroupedCommas` prove that this is what it
      writes). */
  function Grouped(n: nat): (s: string)
    ensures |s| > 0 && '0' <= s[0] <= '9'
    decreases n
  {
    if n < 1000 then Decimal(n) else Grouped(n / 1000) + "," + Pad3(n % 1000)
  }

  /** Dropping the commas from `f"{n:,}"` leaves `str(n)`. */
  lemma {:induction false} GroupedDigits(n: nat)
    ensures Ungroup(Grouped(n)) == Decimal(n)
    decreases n
  {
    if n < 1000 {
      UngroupDigits(Decimal(n));
    } else {
      var g := Grouped(n / 1000);
      GroupedDigits(n / 1000);
      UngroupStep(g, n % 1000);
      DecimalThousands(n);
    }
  }

  /** The commas of `f"{n:,}"` sit exactly at every fourth place counted
      from the right. */
  lemma {:induction false} GroupedCommas(n: nat)
    ensures CommaEveryFourth(Grouped(n))
    decreases n
  {
    if n < 1000 {
      DecimalShort(n);
      ShortDigitsHaveNoComma(Decimal(n));
    } else {
      GroupedCommas(n / 1000);
      CommaBeforeGroup(Grouped(n / 1000), Pad3(n % 1000));
    }
  }

  /** Reading a string back: drop the commas, then take the decimal value. */
  function Ungroup(s: string): string {
    if s == [] then []
    else if s[|s| - 1] == ',' then Ungroup(s[..|s| - 1])
    else Ungroup(s[..|s| - 1]) + [s[|s| - 1]]
  }

  function Value(s: string): nat {
    if s == [] then 0 else 10 * Value(s[..|s| - 1]) + DigitValue(s[|s| - 1])
  }

  lemma {:induction false} DecimalValue(n: nat)
    ensures Value(Decimal(n)) == n
    decreases n
  {
    if n >= 10 {
      DecimalValue(n / 10);
      var s := Decimal(n);
      assert s[..|s| - 1] == Decimal(n / 10);
    }
  }

  lemma {:induction false} UngroupAppend(a: string, b: string)
    ensures Ungroup(a + b) == Ungroup(a) + Ungroup(b)
    decreases |b|
  {
    if b == [] {
      assert a + b == a;
    } else {
      var b' := b[..|b| - 1];
      assert (a + b)[..|a + b| - 1] == a + b';
      UngroupAppend(a, b');
    }
  }

  lemma UngroupDigits(s: string)
    requires forall i :: 0 <= i < |s| ==> s[i] != ','
    ensures Ungroup(s) == s
  {
  }

  /** The step of Grouped above one thousand, with the separator removed. */
  lemma UngroupStep(g: string, k: nat)
    requires k < 1000
    ensures Ungroup(g + "," + Pad3(k)) == Ungroup(g) + Pad3(k)
  {
    var p := Pad3(k);
    UngroupAppend(g + ",", p);
    UngroupAppend(g, ",");
    UngroupDigits(p);
    assert Ungroup(",") == [];
  }

  /** Removing the separators from `f"{n:,}"` and reading the digits gives
      back `n`: the separators never change the number shown. */
  lemma GroupedValue(n: nat)
    ensures Value(Ungroup(Grouped(n))) == n
  {
    GroupedDigits(n);
    DecimalValue(n);
  }

  /** Below one thousand no separator is written. */
  lemma GroupedSmall(n: nat)
    requires n < 1000
    ensures Grouped(n) == Decimal(n)
  {
  }

  // ---------------------------------------------------------------------
  // Python's `.0%` format code on an exact rational

  /** Python rounds to the nearest integer, ties to the even neighbour. */
  function RoundHalfEven(y: real): (r: int)
    requires y >= 0.0
    ensures r >= 0
    ensures -0.5 <= r as real - y <= 0.5
    ensures r as real - y == 0.5 || y - r as real == 0.5 ==> r % 2 == 0
  {
    var f := y.Floor;
    var d := y - f as real;
    if d < 0.5 then f
    else if d > 0.5 then f + 1
    else if f % 2 == 0 then f else f + 1
  }

  /** `f"{x:.0%}"` for a finite `x`: `100 * x` rounded to an integer, the sign
      written whenever `x` is negative (so -0.1% prints as "-0%"). */
  function PercentOf(x: real): (s: string)
    ensures |s| >= 2 && s[|s| - 1] == '%'
    ensures (s[0] == '-') <==> x < 0.0
  {
    var mag := RoundHalfEven(if x < 0.0 then -100.0 * x else 100.0 * x);
    (if x < 0.0 then "-" else "") + Decimal(mag) + "%"
  }
}
