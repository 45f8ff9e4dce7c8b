/** Source keying with IPv6 prefix masking (crates/fwknox-ratelimit/src/key.rs). */
module SourceKeys {
  import opened Bytes

  datatype Family = FamilyV4 | FamilyV6

  datatype SourceKey = SourceKey(family: Family, bytes: Octets16)

  function Clamp(prefixLen: nat): (p: nat)
    ensures 1 <= p <= 128
    ensures (prefixLen <= p || p == 128) && (prefixLen >= p || p == 1)
  {
    if prefixLen < 1 then 1 else if prefixLen > 128 then 128 else prefixLen
  }

  /** Byte `i` of a masked address: kept, cut inside the prefix's last byte, or cleared. */
  function MaskedByte(octets: Octets16, p: nat, i: nat): (b: byte)
    requires 1 <= p <= 128 && i < 16
  {
    if i < p / 8 then octets[i]
    else if i == p / 8 && p % 8 > 0 then And(octets[i], Shl(0xFF, 8 - p % 8))
    else 0
  }

  function Masked(octets: Octets16, p: nat): (r: Octets16)
    requires 1 <= p <= 128
  {
    seq(16, i requires 0 <= i < 16 => MaskedByte(octets, p, i))
  }

  function FromIp(ip: IpAddr, prefixLen: nat): (k: SourceKey) {
    match ip
    case V4(o) => SourceKey(FamilyV4, o + [0, 0, 0, 0, 0, 0, 0, 0, 0, 0, 0, 0])
    case V6(o) => SourceKey(FamilyV6, Masked(o, Clamp(prefixLen)))
  }

  method FromIpv4(octets: Octets4) returns (k: SourceKey)
    ensures forall prefixLen: nat :: k == FromIp(V4(octets), prefixLen)
  {
    var bytes := new byte[16](_ => 0);
    for i := 0 to 4
      invariant forall j | 0 <= j < 16 :: bytes[j] == if j < i then octets[j] else 0
    {
      bytes[i] := octets[i];
    }
    assert bytes[..] == octets + [0, 0, 0, 0, 0, 0, 0, 0, 0, 0, 0, 0];
    k := SourceKey(FamilyV4, bytes[..]);
  }

  method FromIpv6Masked(octets: Octets16, prefixLen: nat) returns (k: SourceKey)
    ensures k == FromIp(V6(octets), prefixLen)
  {
    var p := Clamp(prefixLen);
    var bytes := new byte[16](i requires 0 <= i < 16 => octets[i]);
    var fullBytes := p / 8;
    var remainingBits := p % 8;
    if fullBytes < 16 {
      if remainingBits > 0 {
        var mask := Shl(0xFF, 8 - remainingBits);
        bytes[fullBytes] := And(bytes[fullBytes], mask);
        ZeroFrom(bytes, fullBytes + 1);
      } else {
        ZeroFrom(bytes, fullBytes);
      }
    }
    assert bytes[..] == Masked(octets, p);
    k := SourceKey(FamilyV6, bytes[..]);
  }

  method ZeroFrom(bytes: array<byte>, start: nat)
    requires start <= bytes.Length
    modifies bytes
    ensures forall j | 0 <= j < bytes.Length :: bytes[j] == if j < start then old(bytes[j]) else 0
  {
    for i := start to bytes.Length
      invariant forall j | 0 <= j < bytes.Length :: bytes[j] == if start <= j < i then 0 else old(bytes[j])
    {
      bytes[i] := 0;
    }
  }

  // ----- what the masking means -----

  /** An octet string as a big-endian number. */
  function Number(s: seq<byte>): (n: nat) {
    if s == [] then 0 else Number(s[..|s| - 1]) * 256 + s[|s| - 1]
  }

  /** `256^k`, the weight of the byte before the last `k`. */
  function Weight(k: nat): (w: nat)
    ensures w >= 1
  {
    if k == 0 then 1 else 256 * Weight(k - 1)
  }

  lemma {:induction false} WeightIsPow2(k: nat)
    ensures Weight(k) == Pow2(8 * k)
  {
    if k > 0 {
      WeightIsPow2(k - 1);
      Pow2Of8();
      Pow2Adds(8, 8 * (k - 1));
      assert 8 + 8 * (k - 1) == 8 * k;
    }
  }

  lemma {:induction false} NumberBelow(s: seq<byte>)
    ensures Number(s) < Weight(|s|)
  {
    if s != [] { NumberBelow(s[..|s| - 1]); }
  }

  lemma {:induction false} NumberConcat(a: seq<byte>, b: seq<byte>)
    ensures Number(a + b) == Number(a) * Weight(|b|) + Number(b)
  {
    if b == [] {
      assert a + b == a;
    } else {
      var init, last := b[..|b| - 1], b[|b| - 1];
      assert (a + b)[..|a + b| - 1] == a + init;
      NumberConcat(a, init);
      Shift(Number(a), Weight(|init|));
    }
  }

  lemma Shift(a: nat, w: nat)
    ensures a * (256 * w) == a * w * 256
  {}

  lemma {:induction false} NumberInjective(a: seq<byte>, b: seq<byte>)
    requires |a| == |b| && Number(a) == Number(b)
    ensures a == b
  {
    if a != [] {
      NumberInjective(a[..|a| - 1], b[..|b| - 1]);
      assert a == a[..|a| - 1] + [a[|a| - 1]] && b == b[..|b| - 1] + [b[|b| - 1]];
    }
  }

  lemma {:induction false} NumberOfZeros(s: seq<byte>)
    requires forall i | 0 <= i < |s| :: s[i] == 0
    ensures Number(s) == 0
  {
    if s != [] { NumberOfZeros(s[..|s| - 1]); }
  }

  lemma Distributes(a: int, b: int, w: int)
    ensures (a + b) * w == a * w + b * w && (a - b) * w == a * w - b * w
  {}

  lemma Regroup(a: int, b: int, c: int)
    ensures a * b * c == a * (b * c)
  {}

  lemma RemainderFits(c: nat, lo: nat, d: nat, w: nat)
    requires c < d && lo < w
    ensures c * w + lo < d * w
  {
    AtLeastOne(d - c, w);
    Distributes(d, c, w);
  }

  /** `hi * w + lo` rounded down to a multiple of `d * w`, when the mask cuts inside `hi`. */
  lemma RoundDownInside(hi: nat, lo: nat, d: nat, w: nat)
    requires lo < w && d >= 1
    ensures d * w >= 1
    ensures (hi * w + lo) - (hi * w + lo) % (d * w) == (hi - hi % d) * w
  {
    Divide(hi, d);
    var q, c := hi / d, hi % d;
    AtLeastOne(d, w);
    RemainderFits(c, lo, d, w);
    Distributes(q * d, c, w);
    Regroup(q, d, w);
    DivisionIsUnique(hi * w + lo, d * w, q, c * w + lo);
    Distributes(hi, c, w);
  }

  lemma {:induction false} LowBitsOfLastByte(pre: nat, b: byte, k: nat)
    requires k <= 8
    ensures (pre * 256 + b) % Pow2(k) == b % Pow2(k)
  {
    Pow2Of8();
    Pow2Adds(8 - k, k);
    var d := Pow2(k);
    Divide(b, d);
    assert pre * 256 == pre * Pow2(8 - k) * d;
    assert pre * 256 + b == (pre * Pow2(8 - k) + b / d) * d + b % d;
    DivisionIsUnique(pre * 256 + b, d, pre * Pow2(8 - k) + b / d, b % d);
  }

  /** Clearing the low `k` bits of `b` and everything after it, on numbers. */
  lemma RoundDownAfterByte(pre: nat, b: byte, lo: nat, k: nat, w: nat)
    requires k <= 8 && lo < w
    ensures Pow2(k) * w >= 1
    ensures var n := (pre * 256 + b) * w + lo;
            n - n % (Pow2(k) * w) == (pre * 256 + (b - b % Pow2(k))) * w
  {
    LowBitsOfLastByte(pre, b, k);
    RoundDownInside(pre * 256 + b, lo, Pow2(k), w);
  }

  lemma {:induction false} NumberAfterByte(pre: seq<byte>, b: byte, suf: seq<byte>)
    ensures Number(pre + [b] + suf) == (Number(pre) * 256 + b) * Weight(|suf|) + Number(suf)
  {
    NumberConcat(pre + [b], suf);
    assert (pre + [b])[..|pre|] == pre;
  }

  /** The same on octet strings: `b` loses its low `k` bits and `suf` becomes zeros. */
  lemma {:induction false} MaskSplitAt(pre: seq<byte>, b: byte, suf: seq<byte>, b': byte, zeros: seq<byte>, k: nat)
    requires k <= 8 && b' == b - b % Pow2(k) && |zeros| == |suf|
    requires forall i | 0 <= i < |zeros| :: zeros[i] == 0
    ensures Pow2(k) * Weight(|suf|) >= 1
    ensures var n := Number(pre + [b] + suf);
            Number(pre + [b'] + zeros) == n - n % (Pow2(k) * Weight(|suf|))
  {
    NumberBelow(suf);
    NumberOfZeros(zeros);
    NumberAfterByte(pre, b, suf);
    NumberAfterByte(pre, b', zeros);
    RoundDownAfterByte(Number(pre), b, Number(suf), k, Weight(|suf|));
  }

  /** The byte that holds the last bit of the prefix loses the bits past it. */
  lemma MaskedLastByte(octets: Octets16, p: nat, f: nat, k: nat)
    requires 1 <= p <= 128 && f == (p - 1) / 8 && k == 8 * (f + 1) - p
    ensures Masked(octets, p)[f] == octets[f] - octets[f] % Pow2(k)
  {
    hide And;
    if k > 0 { MaskRoundsDown(octets[f], k); }
  }

  /** The byte loops compute the address rounded down to a multiple of `2^(128 - p)`. */
  lemma MaskRoundsAddressDown(octets: Octets16, p: nat)
    requires 1 <= p <= 128
    ensures Number(Masked(octets, p)) == Number(octets) - Number(octets) % Pow2(128 - p)
  {
    hide Number, Pow2, Weight, And;
    var m := Masked(octets, p);
    var f := (p - 1) / 8;
    var k := 8 * (f + 1) - p;
    var pre, suf := octets[..f], octets[f + 1..];
    assert octets == pre + [octets[f]] + suf && m == pre + [m[f]] + m[f + 1..];
    MaskedLastByte(octets, p, f, k);
    MaskSplitAt(pre, octets[f], suf, m[f], m[f + 1..], k);
    WeightIsPow2(15 - f);
    Pow2Adds(k, 8 * (15 - f));
    assert k + 8 * (15 - f) == 128 - p;
  }

  /** The leading `p` bits of an address. */
  function Leading(octets: seq<byte>, p: nat): nat
    requires p <= 8 * |octets|
  {
    Divide(Number(octets), Pow2(8 * |octets| - p));
    Number(octets) / Pow2(8 * |octets| - p)
  }

  /** Two IPv6 addresses are masked alike exactly when their leading `p` bits agree. */
  lemma MaskedAgree(a: Octets16, b: Octets16, p: nat)
    requires 1 <= p <= 128
    ensures Masked(a, p) == Masked(b, p) <==> Leading(a, p) == Leading(b, p)
  {
    var w := Pow2(128 - p);
    MaskRoundsAddressDown(a, p);
    MaskRoundsAddressDown(b, p);
    Divide(Number(a), w);
    Divide(Number(b), w);
    if Leading(a, p) == Leading(b, p) {
      NumberInjective(Masked(a, p), Masked(b, p));
    } else if Masked(a, p) == Masked(b, p) {
      QuotientIsUnique(w, Leading(a, p), 0, Leading(b, p), 0);
      assert false;
    }
  }

  lemma MaskIdempotent(a: Octets16, p: nat)
    requires 1 <= p <= 128
    ensures Masked(Masked(a, p), p) == Masked(a, p)
  {
    var w := Pow2(128 - p);
    MaskRoundsAddressDown(a, p);
    Divide(Number(a), w);
    DivisionIsUnique(Number(Masked(a, p)), w, Leading(a, p), 0);
    MaskedAgree(Masked(a, p), a, p);
  }

  /**
    Source keying: the keys of two addresses are equal if and only if both are IPv4 and equal,
    or both are IPv6 and agree on the configured prefix.
   */
  lemma KeysAgree(a: IpAddr, b: IpAddr, prefixLen: nat)
    ensures FromIp(a, prefixLen) == FromIp(b, prefixLen) <==>
              || (a.V4? && a == b)
              || (a.V6? && b.V6? && Leading(a.v6, Clamp(prefixLen)) == Leading(b.v6, Clamp(prefixLen)))
  {
    if a.V6? && b.V6? {
      MaskedAgree(a.v6, b.v6, Clamp(prefixLen));
    } else if a.V4? && b.V4? {
      assert FromIp(a, prefixLen).bytes[..4] == a.v4 && FromIp(b, prefixLen).bytes[..4] == b.v4;
    }
  }
}
