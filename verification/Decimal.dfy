/** Decimal strings and big-endian bytes: the two encodings in which the
    ingester stores and reads unsigned 256-bit numbers. */
module Decimal {
  import opened Wrappers

  type byte = x: int | 0 <= x < 256

  predicate IsDigit(c: char) {
    '0' <= c <= '9'
  }

  predicate AllDigits(s: string) {
    forall i | 0 <= i < |s| :: IsDigit(s[i])
  }

  function Digit(d: nat): (c: char)
    requires d < 10
    ensures IsDigit(c) && DigitValue(c) == d
  {
    ('0' as int + d) as char
  }

  function DigitValue(c: char): (d: nat)
    requires IsDigit(c)
    ensures d < 10
  {
    c as int - '0' as int
  }

  // Python's str(n) for n >= 0.
  function ToDecimal(n: nat): (s: string)
    ensures s != "" && AllDigits(s)
  {
    if n < 10 then [Digit(n)] else ToDecimal(n / 10) + [Digit(n % 10)]
  }

  function DigitsValue(s: string): nat
    requires AllDigits(s)
  {
    if s == "" then 0 else DigitsValue(s[..|s| - 1]) * 10 + DigitValue(s[|s| - 1])
  }

  // Python's int(s), None where it raises ValueError.
  function ParseDecimal(s: string): Option<nat> {
    if s == "" || !AllDigits(s) then None else Some(DigitsValue(s))
  }

  lemma {:induction false} DecimalRoundTrip(n: nat)
    ensures ParseDecimal(ToDecimal(n)) == Some(n)
  {
    var s := ToDecimal(n);
    if n < 10 {
      assert s[..0] == "" && DigitsValue(s[..0]) == 0;
      assert DigitsValue(s) == DigitsValue(s[..|s| - 1]) * 10 + n;
    } else {
      DecimalRoundTrip(n / 10);
      assert s[..|s| - 1] == ToDecimal(n / 10);
    }
  }

  lemma DecimalInjective(m: nat, n: nat)
    requires ToDecimal(m) == ToDecimal(n)
    ensures m == n
  {
    DecimalRoundTrip(m);
    DecimalRoundTrip(n);
  }

  // The primary key of a kami_action row.
  function RowId(txHash: string, subIndex: nat): string {
    txHash + ":" + ToDecimal(subIndex)
  }

  // The separator cannot occur in the decimal part, so the key determines both parts,
  // whatever the hash looks like.
  lemma RowIdInjective(h1: string, i1: nat, h2: string, i2: nat)
    requires RowId(h1, i1) == RowId(h2, i2)
    ensures h1 == h2 && i1 == i2
  {
    var id, d1, d2 := RowId(h1, i1), ToDecimal(i1), ToDecimal(i2);
    assert id[|h1|] == ':' && id[|h2|] == ':';
    // After its separator, an id holds digits only.
    forall j | |h1| < j < |id| ensures id[j] != ':' {
      assert id[j] == d1[j - |h1| - 1];
    }
    forall j | |h2| < j < |id| ensures id[j] != ':' {
      assert id[j] == d2[j - |h2| - 1];
    }
    assert |h1| == |h2|;
    assert id[|h1| + 1..] == d1 && id[|h2| + 1..] == d2;
    assert id[..|h1|] == h1 && id[..|h2|] == h2;
    DecimalInjective(i1, i2);
  }

  function Pow256(n: nat): (p: nat)
    ensures p > 0
  {
    if n == 0 then 1 else 256 * Pow256(n - 1)
  }

  // int.from_bytes(b, "big").
  function FromBigEndian(b: seq<byte>): nat {
    if b == [] then 0 else FromBigEndian(b[..|b| - 1]) * 256 + b[|b| - 1]
  }

  // n.to_bytes(size, "big").
  function ToBigEndian(n: nat, size: nat): (b: seq<byte>)
    requires n < Pow256(size)
    ensures |b| == size
  {
    if size == 0 then [] else ToBigEndian(n / 256, size - 1) + [n % 256]
  }

  lemma {:induction false} BigEndianRoundTrip(n: nat, size: nat)
    requires n < Pow256(size)
    ensures FromBigEndian(ToBigEndian(n, size)) == n
  {
    if size > 0 {
      BigEndianRoundTrip(n / 256, size - 1);
      assert ToBigEndian(n, size)[..size - 1] == ToBigEndian(n / 256, size - 1);
    }
  }
}
