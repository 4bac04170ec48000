// Decimal numbers in text, as printf writes them and strtoul and sscanf read
// them.
module Digits {
  import opened Bytes

  const ZERO: byte := 48

  predicate Digit(c: byte) { ZERO <= c <= ZERO + 9 }

  function DigitValue(c: byte): nat
    requires Digit(c)
  {
    (c - ZERO) as int
  }

  predicate AllDigits(s: seq<byte>) {
    forall k :: 0 <= k < |s| ==> Digit(s[k])
  }

  function Decimal(n: nat): (r: seq<byte>)
    ensures |r| >= 1 && AllDigits(r)
  {
    (if n < 10 then [] else Decimal(n / 10)) + [ZERO + (n % 10) as byte]
  }

  /** The number that a run of digits stands for. */
  function Number(s: seq<byte>): nat
    requires AllDigits(s)
  {
    if s == [] then 0 else 10 * Number(s[..|s| - 1]) + DigitValue(s[|s| - 1])
  }

  lemma NumberSnoc(s: seq<byte>, c: byte)
    requires AllDigits(s) && Digit(c)
    ensures AllDigits(s + [c]) && Number(s + [c]) == 10 * Number(s) + DigitValue(c)
  {
    assert (s + [c])[..|s + [c]| - 1] == s;
  }

  lemma NumberNothing()
    ensures Number([]) == 0
  {
  }

  lemma {:induction false} NumberDecimal(n: nat)
    ensures Number(Decimal(n)) == n
  {
    hide Number;
    var c := ZERO + (n % 10) as byte;
    if n >= 10 {
      NumberDecimal(n / 10);
      NumberSnoc(Decimal(n / 10), c);
    } else {
      NumberSnoc([], c);
      NumberNothing();
    }
  }

  function Power10(k: nat): (r: nat)
    ensures r > 0
  {
    if k == 0 then 1 else 10 * Power10(k - 1)
  }

  lemma {:induction false} DecimalLength(n: nat, k: nat)
    requires k > 0
    ensures |Decimal(n)| <= k <==> n < Power10(k)
    decreases k
  {
    if n >= 10 {
      if k > 1 { DecimalLength(n / 10, k - 1); }
    }
  }

  lemma ThreeDigits(n: nat)
    requires 100 <= n < 1000
    ensures var d := Decimal(n);
            |d| == 3 && 100 * DigitValue(d[0]) + 10 * DigitValue(d[1]) + DigitValue(d[2]) == n
  {
    assert Decimal(n / 100) == [ZERO + (n / 100) as byte];
    assert Decimal(n / 10) == Decimal(n / 10 / 10) + [ZERO + (n / 10 % 10) as byte];
  }
}
