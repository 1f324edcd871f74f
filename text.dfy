/**
  The string operations the era table uses: `str(int)`, `str.zfill`, `int(str)`
  (pandas `astype(int)`) and Python's ordering of strings.
*/
module Text {
  import opened Wrappers
  import Sorting

  predicate IsDigit(ch: char) {
    '0' <= ch <= '9'
  }

  function DigitValue(ch: char): int
    requires IsDigit(ch)
  {
    ch as int - '0' as int
  }

  function DigitChar(d: int): (ch: char)
    requires 0 <= d < 10
    ensures IsDigit(ch) && DigitValue(ch) == d
  {
    (d + '0' as int) as char
  }

  predicate AllDigits(s: string) {
    forall i :: 0 <= i < |s| ==> IsDigit(s[i])
  }

  /** The number a string of decimal digits denotes (leading zeros allowed). */
  function DigitsValue(s: string): nat
    requires AllDigits(s)
    decreases |s|
  {
    if s == [] then 0 else DigitsValue(s[..|s| - 1]) * 10 + DigitValue(s[|s| - 1])
  }

  /** `str(n)` for a non-negative `n`. */
  function NatToString(n: nat): string
    decreases n
  {
    if n < 10 then [DigitChar(n)] else NatToString(n / 10) + [DigitChar(n % 10)]
  }

  /** `str(i)`. */
  function IntToString(i: int): string {
    if i < 0 then "-" + NatToString(-i) else NatToString(i)
  }

  function Zeros(k: nat): (z: string)
    ensures |z| == k && AllDigits(z)
  {
    seq(k, _ => '0')
  }

  /** `s.zfill(width)`: pads with zeros on the left, after a leading sign, up to `width`. */
  function ZFill(s: string, width: nat): (r: string)
    ensures |r| == if |s| >= width then |s| else width
  {
    if |s| >= width then s
    else if |s| > 0 && (s[0] == '-' || s[0] == '+') then [s[0]] + Zeros(width - |s|) + s[1..]
    else Zeros(width - |s|) + s
  }

  /** `int(s)`: an optional sign followed by at least one decimal digit; anything else
      raises (None). */
  function ParseInt(s: string): Option<int> {
    if |s| >= 2 && s[0] == '-' && AllDigits(s[1..]) then Some(-(DigitsValue(s[1..]) as int))
    else if |s| >= 2 && s[0] == '+' && AllDigits(s[1..]) then Some(DigitsValue(s[1..]))
    else if |s| >= 1 && AllDigits(s) then Some(DigitsValue(s))
    else None
  }

  /** `str(n)` is a non-empty string of digits that denotes `n`. */
  lemma {:induction false} NatToStringDigits(n: nat)
    ensures |NatToString(n)| >= 1 && AllDigits(NatToString(n))
    ensures DigitsValue(NatToString(n)) == n
    decreases n
  {
    var s := NatToString(n);
    if n >= 10 {
      NatToStringDigits(n / 10);
      assert s[..|s| - 1] == NatToString(n / 10);
    }
  }

  /** Leading zeros do not change the number a digit string denotes. */
  lemma {:induction false} LeadingZeros(k: nat, s: string)
    requires AllDigits(s)
    ensures AllDigits(Zeros(k) + s) && DigitsValue(Zeros(k) + s) == DigitsValue(s)
    decreases |s|
  {
    var z := Zeros(k) + s;
    if s == [] {
      assert z == Zeros(k);
      AllZeros(k);
    } else {
      LeadingZeros(k, s[..|s| - 1]);
      assert z[..|z| - 1] == Zeros(k) + s[..|s| - 1];
    }
  }

  lemma {:induction false} AllZeros(k: nat)
    ensures DigitsValue(Zeros(k)) == 0
    decreases k
  {
    if k > 0 {
      AllZeros(k - 1);
      assert Zeros(k)[..k - 1] == Zeros(k - 1);
    }
  }

  /** `int(str(i).zfill(w)) == i`: zero padding survives parsing, for every integer. */
  lemma ParseZFill(i: int, width: nat)
    ensures ParseInt(ZFill(IntToString(i), width)) == Some(i)
  {
    if i < 0 {
      ParseZFillNegative(i, width);
    } else {
      ParseZFillNonNegative(i, width);
    }
  }

  lemma ParseZFillNegative(i: int, width: nat)
    requires i < 0
    ensures ParseInt(ZFill(IntToString(i), width)) == Some(i)
  {
    var digits := NatToString(-i);
    NatToStringDigits(-i);
    var s := IntToString(i);
    var padded := if |s| < width then Zeros(width - |s|) + digits else digits;
    var r := ZFill(s, width);
    assert r == "-" + padded by {
      assert s == "-" + digits;
      assert s[1..] == digits;
    }
    assert AllDigits(padded) && DigitsValue(padded) == -i by {
      if |s| < width {
        LeadingZeros(width - |s|, digits);
      }
    }
    assert r[1..] == padded;
  }

  lemma ParseZFillNonNegative(i: int, width: nat)
    requires i >= 0
    ensures ParseInt(ZFill(IntToString(i), width)) == Some(i)
  {
    var s := NatToString(i);
    NatToStringDigits(i);
    assert IntToString(i) == s;
    var r := ZFill(s, width);
    if |s| < width {
      LeadingZeros(width - |s|, s);
      assert r == Zeros(width - |s|) + s;
    }
    assert AllDigits(r) && DigitsValue(r) == i;
    assert IsDigit(r[0]);
  }

  /** Python's `a < b` on strings: code-point lexicographic order, a proper prefix first. */
  predicate StrLess(a: string, b: string)
    decreases |a|
  {
    if a == [] then b != []
    else if b == [] then false
    else if a[0] != b[0] then a[0] < b[0]
    else StrLess(a[1..], b[1..])
  }

  lemma {:induction false} StrLessIrreflexive(a: string)
    ensures !StrLess(a, a)
    decreases |a|
  {
    if a != [] {
      StrLessIrreflexive(a[1..]);
    }
  }

  lemma {:induction false} StrLessTransitive(a: string, b: string, c: string)
    requires StrLess(a, b) && StrLess(b, c)
    ensures StrLess(a, c)
    decreases |a|
  {
    if a != [] && b != [] && c != [] && a[0] == b[0] && b[0] == c[0] {
      StrLessTransitive(a[1..], b[1..], c[1..]);
    }
  }

  lemma {:induction false} StrLessTotal(a: string, b: string)
    requires a != b
    ensures StrLess(a, b) || StrLess(b, a)
    decreases |a|
  {
    if a != [] && b != [] && a[0] == b[0] {
      assert a == [a[0]] + a[1..] && b == [b[0]] + b[1..];
      StrLessTotal(a[1..], b[1..]);
    }
  }

  /** Python's string order is a strict total order. */
  lemma StrLessOrder()
    ensures Sorting.StrictTotalOrder(StrLess)
  {
    forall a {
      StrLessIrreflexive(a);
    }
    forall a, b, c | StrLess(a, b) && StrLess(b, c) {
      StrLessTransitive(a, b, c);
    }
    forall a, b | a != b {
      StrLessTotal(a, b);
    }
  }

  /** The distinct names of `cols` in Python's string order (pandas sorts the result of
      `Index.difference` this way). */
  function SortColumns(cols: seq<string>): (r: seq<string>)
    ensures Sorting.StrictlySorted(r, StrLess)
    ensures forall c :: c in r <==> c in cols
  {
    StrLessOrder();
    Sorting.SortUnique(cols, StrLess)
  }
}
