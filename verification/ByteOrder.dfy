/** Big-endian numbers of any width, and `bytes.Buffer`. */
module ByteOrder {
  import opened Common

  type byte = n: int | 0 <= n < 256
  type Bytes = seq<byte>

  /** A byte as bits, and bits as a byte. */
  function Bits(b: byte): bv8 { b as bv8 }
  function Octet(v: bv8): byte { v as int }

  lemma OctetBits(v: bv8)
    ensures Bits(Octet(v)) == v
  {
  }

  /** Every byte is some bits, found by counting up to it. */
  lemma {:induction false} BitsFor(b: byte) returns (v: bv8)
    ensures Octet(v) == b
  {
    if b == 0 {
      v := 0;
    } else {
      v := BitsFor(b - 1);
      v := v + 1;
    }
  }

  lemma ByteOfBits(b: byte)
    ensures Octet(Bits(b)) == b
  {
    var v := BitsFor(b);
    OctetBits(v);
  }

  function Pow256(k: nat): (p: nat)
    ensures p > 0
  {
    if k == 0 then 1 else 256 * Pow256(k - 1)
  }

  /** The last k base-256 digits of n; higher digits are cut off. */
  function BigEndian(n: nat, k: nat): (s: Bytes)
    ensures |s| == k
    decreases k, n
  {
    if k == 0 then [] else BigEndian(n / 256, k - 1) + [n % 256]
  }

  function Number(s: Bytes): nat {
    if s == [] then 0 else 256 * Number(s[..|s| - 1]) + s[|s| - 1]
  }

  lemma {:induction false} NumberBound(s: Bytes)
    ensures Number(s) < Pow256(|s|)
  {
    if s != [] { NumberBound(s[..|s| - 1]); }
  }

  /** Reading back what was written gives the number modulo the width. */
  lemma {:induction false} NumberOfBigEndian(n: nat, k: nat)
    ensures Number(BigEndian(n, k)) == n % Pow256(k)
  {
    if k > 0 {
      NumberOfBigEndian(n / 256, k - 1);
      assert BigEndian(n, k)[..k - 1] == BigEndian(n / 256, k - 1);
      ModStep(n, Pow256(k - 1));
    }
  }

  /** Digit by digit: the i-th byte from the end is the i-th digit to base 256. */
  lemma {:induction false} DigitAt(n: nat, k: nat, i: nat)
    requires i < k
    ensures BigEndian(n, k)[k - 1 - i] == n / Pow256(i) % 256
  {
    if i > 0 {
      DigitAt(n / 256, k - 1, i - 1);
      assert BigEndian(n, k)[k - 1 - i] == BigEndian(n / 256, k - 1)[k - 2 - (i - 1)];
      DivTwice(n, Pow256(i - 1));
    }
  }

  lemma DivTwice(n: nat, b: nat)
    requires b > 0
    ensures n / 256 / b == n / (256 * b)
  {
    var x, d := n / 256, n % 256;
    var q, r := x / b, x % b;
    assert q * (256 * b) == 256 * (q * b);
    DivIs(n, q, 256 * r + d, 256 * b);
  }

  lemma DivIs(x: nat, q: nat, r: nat, n: nat)
    requires 0 < n && r < n && x == q * n + r
    ensures x / n == q
  {
    ModIs(x, q, r, n);
    Cancel(x / n, q, n);
  }

  lemma Cancel(a: nat, b: nat, n: nat)
    requires 0 < n && a * n == b * n
    ensures a == b
  {
    Distribute(a, b, n);
    if a > b { Multiple(a - b, n); } else if b > a { Multiple(b - a, n); }
  }

  lemma ModStep(n: nat, p: nat)
    requires p > 0
    ensures n % (256 * p) == 256 * ((n / 256) % p) + n % 256
  {
    var q, r := (n / 256) / p, (n / 256) % p;
    var low := n % 256;
    assert n / 256 == q * p + r;
    assert n == 256 * (q * p + r) + low;
    assert 256 * (q * p) == q * (256 * p);
    assert r <= p - 1;
    ModIs(n, q, 256 * r + low, 256 * p);
  }

  lemma LowDigit(high: nat, d: nat)
    requires d < 256
    ensures (256 * high + d) / 256 == high && (256 * high + d) % 256 == d
  {
  }

  /** Every byte string is what its number writes as. */
  lemma {:induction false} BigEndianOfNumber(s: Bytes)
    ensures BigEndian(Number(s), |s|) == s
  {
    if s != [] {
      BigEndianOfNumber(s[..|s| - 1]);
      var last := s[|s| - 1];
      LowDigit(Number(s[..|s| - 1]), last);
      assert s == s[..|s| - 1] + [s[|s| - 1]];
    }
  }

  lemma {:induction false} Small(n: nat, k: nat)
    requires n < Pow256(k)
    ensures Number(BigEndian(n, k)) == n
  {
    NumberOfBigEndian(n, k);
    ModIs(n, 0, n, Pow256(k));
  }
}
