/** Byte strings and their lexicographic order, the order of the key-value store and of Go's `<` on strings. */
module Lex {

  type byte = x: int | 0 <= x < 256
  type bytes = seq<byte>

  /** The bytes of an ASCII literal. */
  function Ascii(s: string): (bs: bytes)
    ensures |bs| == |s|
  {
    seq(|s|, i requires 0 <= i < |s| => s[i] as int % 256)
  }

  predicate Less(a: seq<int>, b: seq<int>) {
    b != [] && (a == [] || a[0] < b[0] || (a[0] == b[0] && Less(a[1..], b[1..])))
  }

  lemma {:induction false} LessIrreflexive(a: seq<int>)
    ensures !Less(a, a)
  {
    if a != [] { LessIrreflexive(a[1..]); }
  }

  lemma {:induction false} LessTransitive(a: seq<int>, b: seq<int>, c: seq<int>)
    requires Less(a, b) && Less(b, c)
    ensures Less(a, c)
  {
    if a != [] && a[0] == b[0] && b[0] == c[0] { LessTransitive(a[1..], b[1..], c[1..]); }
  }

  lemma {:induction false} LessTotal(a: seq<int>, b: seq<int>)
    ensures Less(a, b) || a == b || Less(b, a)
  {
    if a != [] && b != [] && a[0] == b[0] {
      LessTotal(a[1..], b[1..]);
      assert a == [a[0]] + a[1..] && b == [b[0]] + b[1..];
    }
  }

  lemma LessAsymmetric(a: seq<int>, b: seq<int>)
    requires Less(a, b)
    ensures !Less(b, a) && a != b
  {
    LessIrreflexive(a);
    if Less(b, a) { LessTransitive(a, b, a); }
  }

  /** A difference inside fixed-width fields decides, whatever follows. */
  lemma {:induction false} LessField(a: seq<int>, b: seq<int>, x: seq<int>, y: seq<int>)
    requires |a| == |b| && Less(a, b)
    ensures Less(a + x, b + y)
  {
    assert (a + x)[0] == a[0] && (b + y)[0] == b[0];
    if a[0] == b[0] {
      LessField(a[1..], b[1..], x, y);
      assert (a + x)[1..] == a[1..] + x && (b + y)[1..] == b[1..] + y;
    }
  }

  /** Equal leading fields leave the decision to what follows. */
  lemma {:induction false} LessAfter(a: seq<int>, x: seq<int>, y: seq<int>)
    ensures Less(a + x, a + y) <==> Less(x, y)
  {
    if a == [] {
      assert a + x == x && a + y == y;
    } else {
      LessAfter(a[1..], x, y);
      assert (a + x)[1..] == a[1..] + x && (a + y)[1..] == a[1..] + y;
    }
  }

  function Pow10(n: nat): (p: nat)
    ensures p > 0
  {
    if n == 0 then 1 else 10 * Pow10(n - 1)
  }

  /** `width` ASCII decimal digits of `n`, most significant first. */
  function Digits(n: nat, width: nat): (d: bytes)
    ensures |d| == width
  {
    if width == 0 then [] else Digits(n / 10, width - 1) + [48 + n % 10]
  }

  /** Fixed-width decimal text is ordered like the numbers it writes. */
  lemma {:induction false} DigitsLess(m: nat, n: nat, width: nat)
    requires m < n < Pow10(width)
    ensures Less(Digits(m, width), Digits(n, width))
  {
    assert width > 0;
    if m / 10 < n / 10 {
      DigitsLess(m / 10, n / 10, width - 1);
      LessField(Digits(m / 10, width - 1), Digits(n / 10, width - 1), [48 + m % 10], [48 + n % 10]);
    } else {
      LessAfter(Digits(m / 10, width - 1), [48 + m % 10], [48 + n % 10]);
    }
  }
}
