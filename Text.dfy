/** The string operations the report is built from: repetition, joining
    with a separator, and decimal rendering of counts. */
module Text {

  /** `s` repeated `n` times; a count of zero or less gives the empty
      string, as string repetition by a non-positive count does in the
      source language. */
  function Repeat(s: string, n: int): (r: string)
    ensures |r| == (if n > 0 then n else 0) * |s|
    ensures forall i :: 0 <= i < |r| ==> r[i] in s
    decreases n
  {
    if n <= 0 then "" else s + Repeat(s, n - 1)
  }

  /** The strings of `parts` with `sep` between each two neighbours. */
  function JoinWith(parts: seq<string>, sep: string): string
  {
    if parts == [] then ""
    else if |parts| == 1 then parts[0]
    else parts[0] + sep + JoinWith(parts[1..], sep)
  }

  /** Joining two nonempty lists of parts is joining each and putting one
      separator between the two results. */
  lemma {:induction false} JoinWithAppend(a: seq<string>, b: seq<string>, sep: string)
    requires a != [] && b != []
    ensures JoinWith(a + b, sep) == JoinWith(a, sep) + sep + JoinWith(b, sep)
    decreases |a|
  {
    var ab := a + b;
    assert ab[0] == a[0];
    if |a| == 1 {
      assert ab[1..] == b;
    } else {
      assert ab[1..] == a[1..] + b;
      JoinWithAppend(a[1..], b, sep);
      var x, y, z := JoinWith(a[1..], sep), JoinWith(b, sep), a[0] + sep;
      assert JoinWith(ab, sep) == z + (x + sep + y);
      assert JoinWith(a, sep) == z + x;
      assert z + (x + sep + y) == z + x + sep + y;
    }
  }

  /** Joining three nonempty lists of parts puts exactly one separator
      between the joins of each. */
  lemma JoinWithThree(a: seq<string>, b: seq<string>, c: seq<string>, sep: string)
    requires a != [] && b != [] && c != []
    ensures JoinWith(a + b + c, sep) == JoinWith(a, sep) + sep + JoinWith(b, sep) + sep + JoinWith(c, sep)
  {
    JoinWithAppend(a + b, c, sep);
    JoinWithAppend(a, b, sep);
  }

  /** A single part joins to itself; two parts join with one separator
      between them. */
  lemma JoinWithSmall(p: string, q: string, sep: string)
    ensures JoinWith([p], sep) == p
    ensures JoinWith([p, q], sep) == p + sep + q
  {
    assert [p, q][1..] == [q];
  }

  predicate IsDigit(c: char)
  {
    '0' <= c <= '9'
  }

  function DigitChar(d: nat): (c: char)
    requires d < 10
    ensures IsDigit(c)
  {
    "0123456789"[d]
  }

  function DigitValue(c: char): (d: nat)
    requires IsDigit(c)
    ensures d < 10
  {
    (c as int - '0' as int) as nat
  }

  /** The decimal rendering of a count: digits only, never empty, and with
      a leading zero only for zero itself. */
  function NatToString(n: nat): (s: string)
    ensures |s| >= 1
    ensures forall i :: 0 <= i < |s| ==> IsDigit(s[i])
    ensures s[0] == '0' <==> n == 0
    ensures n == 0 ==> s == "0"
    ensures |s| == 1 <==> n < 10
    decreases n
  {
    if n < 10 then [DigitChar(n)] else NatToString(n / 10) + [DigitChar(n % 10)]
  }

  /** Reads a string of digits back as a number. */
  function ParseDecimal(s: string): nat
    requires forall i :: 0 <= i < |s| ==> IsDigit(s[i])
    decreases |s|
  {
    if s == [] then 0 else ParseDecimal(s[..|s| - 1]) * 10 + DigitValue(s[|s| - 1])
  }

  lemma DigitRoundTrip(d: nat)
    requires d < 10
    ensures DigitValue(DigitChar(d)) == d
  {
    assert "0123456789"[d] as int - '0' as int == d;
  }

  /** Reading a rendered count gives the count back. */
  lemma {:induction false} DecimalRoundTrip(n: nat)
    ensures ParseDecimal(NatToString(n)) == n
    decreases n
  {
    var s := NatToString(n);
    if n < 10 {
      DigitRoundTrip(n);
      assert s[..0] == [];
    } else {
      DecimalRoundTrip(n / 10);
      DigitRoundTrip(n % 10);
      assert s[..|s| - 1] == NatToString(n / 10);
    }
  }

  /** Different counts render differently. */
  lemma DecimalInjective(a: nat, b: nat)
    requires NatToString(a) == NatToString(b)
    ensures a == b
  {
    DecimalRoundTrip(a);
    DecimalRoundTrip(b);
  }
}
