/** Bytes as integers below 256, the bit operations the daemon applies to them, and addresses. */
module Bytes {

  type byte = x: int | 0 <= x < 256

  const I64_MAX: int := 0x7FFF_FFFF_FFFF_FFFF
  type i64 = x: int | -I64_MAX - 1 <= x <= I64_MAX

  /** Bitwise conjunction of the low `n` bits. */
  function AndBits(x: nat, y: nat, n: nat): (r: nat)
    ensures r < Pow2(n)
  {
    if n == 0 then 0
    else (if x % 2 == 1 && y % 2 == 1 then 1 else 0) + 2 * AndBits(x / 2, y / 2, n - 1)
  }

  /** Bitwise disjunction of the low `n` bits. */
  function OrBits(x: nat, y: nat, n: nat): (r: nat)
    ensures r < Pow2(n)
  {
    if n == 0 then 0
    else (if x % 2 == 1 || y % 2 == 1 then 1 else 0) + 2 * OrBits(x / 2, y / 2, n - 1)
  }

  function And(x: byte, y: byte): (r: byte) {
    Pow2Of8();
    AndBits(x, y, 8)
  }

  function Or(x: byte, y: byte): (r: byte) {
    Pow2Of8();
    OrBits(x, y, 8)
  }

  lemma Pow2Of8()
    ensures Pow2(8) == 256
  {
    assert Pow2(4) == 16;
  }

  function Pow2(k: nat): (r: nat)
    ensures r >= 1
  {
    if k == 0 then 1 else 2 * Pow2(k - 1)
  }

  /** An 8-bit left shift: bits pushed past the top are lost. */
  function Shl(x: byte, k: nat): (r: byte) {
    x * Pow2(k) % 256
  }

  lemma QuotientIsUnique(d: nat, q: nat, r: nat, q': nat, r': nat)
    requires q * d + r == q' * d + r' && r < d && r' < d
    ensures q == q' && r == r'
  {
    if q' < q {
      AtLeastOne(q - q', d);
    } else if q < q' {
      AtLeastOne(q' - q, d);
    }
  }

  lemma AtLeastOne(a: nat, d: nat)
    requires a >= 1
    ensures a * d >= d
  {}

  lemma Divide(n: nat, d: nat)
    requires d >= 1
    ensures n == (n / d) * d + n % d && 0 <= n % d < d && n / d >= 0
  {}

  lemma DivisionIsUnique(n: nat, d: nat, q: nat, r: nat)
    requires n == q * d + r && r < d
    ensures n / d == q && n % d == r
  {
    Divide(n, d);
    QuotientIsUnique(d, q, r, n / d, n % d);
  }

  lemma ModDouble(x: nat, p: nat)
    requires p >= 1
    ensures x % (2 * p) == 2 * (x / 2 % p) + x % 2
  {
    var h := x / 2;
    Divide(h, p);
    var q, m := h / p, h % p;
    assert q * (2 * p) == 2 * (q * p);
    DivisionIsUnique(x, 2 * p, q, 2 * m + x % 2);
  }

  /** A mask of high ones over `k` low zeros rounds an `n`-bit number down to a multiple of `2^k`. */
  lemma {:induction false} AndHighMask(x: nat, k: nat, n: nat)
    requires x < Pow2(n) && k <= n
    ensures Pow2(k) <= Pow2(n)
    ensures AndBits(x, Pow2(n) - Pow2(k), n) == x - x % Pow2(k)
  {
    Pow2Monotone(k, n);
    if n > 0 {
      var k' := if k == 0 then 0 else k - 1;
      AndHighMask(x / 2, k', n - 1);
      HalfMask(n, k);
      RoundDownDoubles(x, k);
    }
  }

  lemma RoundDownDoubles(x: nat, k: nat)
    ensures k == 0 ==> x % Pow2(k) == 0 && x / 2 % Pow2(k) == 0
    ensures k > 0 ==> x - x % Pow2(k) == 2 * (x / 2 - x / 2 % Pow2(k - 1))
  {
    if k > 0 { ModDouble(x, Pow2(k - 1)); }
  }

  lemma HalfMask(n: nat, k: nat)
    requires k <= n && n > 0
    ensures var k' := if k == 0 then 0 else k - 1;
            var mask := Pow2(n) - Pow2(k);
            mask >= 0 && mask / 2 == Pow2(n - 1) - Pow2(k') && mask % 2 == if k == 0 then 1 else 0
  {
    Pow2Monotone(k, n);
  }

  lemma {:induction false} Pow2Monotone(k: nat, n: nat)
    requires k <= n
    ensures Pow2(k) <= Pow2(n)
  {
    if k < n { Pow2Monotone(k, n - 1); }
  }

  lemma {:induction false} Pow2Adds(a: nat, b: nat)
    ensures Pow2(a + b) == Pow2(a) * Pow2(b)
  {
    if a > 0 { Pow2Adds(a - 1, b); }
  }

  /** Masking a byte with `0xFF << k` clears its low `k` bits. */
  lemma MaskRoundsDown(x: byte, k: nat)
    requires k <= 8
    ensures And(x, Shl(0xFF, k)) == x - x % Pow2(k)
  {
    Pow2Of8();
    Pow2Monotone(k, 8);
    var p := Pow2(k);
    assert 0xFF * p == (p - 1) * 256 + (256 - p);
    DivisionIsUnique(0xFF * p, 256, p - 1, 256 - p);
    AndHighMask(x, k, 8);
  }

  type Octets4 = s: seq<byte> | |s| == 4 witness [0, 0, 0, 0]
  type Octets16 = s: seq<byte> | |s| == 16 witness [0, 0, 0, 0, 0, 0, 0, 0, 0, 0, 0, 0, 0, 0, 0, 0]

  datatype IpAddr = V4(v4: Octets4) | V6(v6: Octets16)
}
