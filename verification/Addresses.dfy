/**
 Network addresses as numbers, and what it means for one to match a prefix: agreement on
 the leading bits. The listed private and local ranges are shown to be intervals.
 */
module Addresses {
  import opened Arithmetic

  function Pow2(n: nat): (p: nat)
    ensures p >= 1
  {
    if n == 0 then 1 else 2 * Pow2(n - 1)
  }

  type Num4 = x: nat | x < 0x1_0000_0000

  type Num6 = x: nat | x < 0x1_0000_0000_0000_0000_0000_0000_0000_0000

  datatype Addr = V4(n: Num4) | V6(m: Num6)

  datatype Prefix = Prefix4(net4: Num4, len4: nat) | Prefix6(net6: Num6, len6: nat)

  /** Bit i of a w-bit number, counting from the most significant one. */
  predicate Bit(w: nat, a: nat, i: nat)
    requires i < w
  {
    a / Pow2(w - 1 - i) % 2 == 1
  }

  predicate SameLeadingBits(w: nat, a: nat, b: nat, len: nat) {
    forall i :: 0 <= i < len && i < w ==> Bit(w, a, i) == Bit(w, b, i)
  }

  predicate Matches(p: Prefix, a: Addr) {
    match p
    case Prefix4(net, len) => a.V4? && SameLeadingBits(32, a.n, net, len)
    case Prefix6(net, len) => a.V6? && SameLeadingBits(128, a.m, net, len)
  }

  // ----- prefixes are intervals -----

  lemma DivHalf(a: nat, k: nat)
    ensures a / Pow2(k) == 2 * (a / Pow2(k + 1)) + a / Pow2(k) % 2
  {
    HalvesOfQuotient(a, Pow2(k));
  }

  lemma HalvesOfQuotient(a: nat, p: nat)
    requires p >= 1
    ensures a / (2 * p) == a / p / 2
  {
    var q, r := a / p, a % p;
    var h := q / 2;
    assert a == q * p + r;
    if q % 2 == 0 {
      Scale(q, 2 * h, h, p);
      QuotientUnique(a, 2 * p, h, r);
    } else {
      Scale(q - 1, 2 * h, h, p);
      assert q * p == (q - 1) * p + p;
      QuotientUnique(a, 2 * p, h, p + r);
    }
  }

  lemma Scale(x: nat, y: nat, h: nat, p: nat)
    requires x == y == 2 * h
    ensures x * p == h * (2 * p)
  {
  }

  lemma DivMonotone(a: nat, p: nat)
    requires p >= 1 && a < p
    ensures a / p == 0
  {
    QuotientUnique(a, p, 0, a);
  }

  /** Agreeing on the first `len` bits is having the same quotient by 2^(w - len). */
  lemma {:induction false} LeadingBitsAreQuotient(w: nat, a: nat, b: nat, len: nat)
    requires len <= w && a < Pow2(w) && b < Pow2(w)
    ensures SameLeadingBits(w, a, b, len) <==> a / Pow2(w - len) == b / Pow2(w - len)
  {
    if len == 0 {
      DivMonotone(a, Pow2(w));
      DivMonotone(b, Pow2(w));
    } else {
      var k := w - len;
      LeadingBitsAreQuotient(w, a, b, len - 1);
      DivHalf(a, k);
      DivHalf(b, k);
      assert Bit(w, a, len - 1) == (a / Pow2(k) % 2 == 1);
      assert Bit(w, b, len - 1) == (b / Pow2(k) % 2 == 1);
      if SameLeadingBits(w, a, b, len) {
        assert SameLeadingBits(w, a, b, len - 1);
      } else if SameLeadingBits(w, a, b, len - 1) {
        assert Bit(w, a, len - 1) != Bit(w, b, len - 1);
      }
    }
  }

  /** A prefix whose remaining bits are zero matches exactly one interval of addresses. */
  lemma PrefixIsInterval(w: nat, a: nat, net: nat, len: nat)
    requires len <= w && a < Pow2(w) && net < Pow2(w) && net % Pow2(w - len) == 0
    ensures SameLeadingBits(w, a, net, len) <==> net <= a < net + Pow2(w - len)
  {
    LeadingBitsAreQuotient(w, a, net, len);
    QuotientIsInterval(a, net, Pow2(w - len));
  }

  lemma QuotientIsInterval(a: nat, net: nat, p: nat)
    requires p >= 1 && net % p == 0
    ensures a / p == net / p <==> net <= a < net + p
  {
    var q := net / p;
    assert net == q * p;
    if a / p == q {
      assert a == q * p + a % p;
    }
    if net <= a < net + p {
      QuotientUnique(a, p, q, a - net);
    }
  }

  // ----- the ranges the redirect leaves alone -----

  const LOCAL4: seq<Prefix> := [
    Prefix4(0x7F00_0000, 8), Prefix4(0x0A00_0000, 8), Prefix4(0xAC10_0000, 12), Prefix4(0xC0A8_0000, 16)]

  const LOCAL6: seq<Prefix> := [
    Prefix6(1, 128),
    Prefix6(0xFC00_0000_0000_0000_0000_0000_0000_0000, 7),
    Prefix6(0xFE80_0000_0000_0000_0000_0000_0000_0000, 10)]

  predicate InAny(ps: seq<Prefix>, a: Addr) {
    exists p :: p in ps && Matches(p, a)
  }

  /** 127.0.0.0 to 127.255.255.255, and the private ranges of section 3 of RFC 1918. */
  predicate LocalNumber4(n: nat) {
    || 0x7F00_0000 <= n <= 0x7FFF_FFFF
    || 0x0A00_0000 <= n <= 0x0AFF_FFFF
    || 0xAC10_0000 <= n <= 0xAC1F_FFFF
    || 0xC0A8_0000 <= n <= 0xC0A8_FFFF
  }

  /** The loopback address, the unique local addresses of section 3.1 of RFC 4193 and the
      link-local addresses of section 2.5.6 of RFC 4291. */
  predicate LocalNumber6(n: nat) {
    || n == 1
    || 0xFC00_0000_0000_0000_0000_0000_0000_0000 <= n <= 0xFDFF_FFFF_FFFF_FFFF_FFFF_FFFF_FFFF_FFFF
    || 0xFE80_0000_0000_0000_0000_0000_0000_0000 <= n <= 0xFEBF_FFFF_FFFF_FFFF_FFFF_FFFF_FFFF_FFFF
  }

  predicate Local(a: Addr) {
    match a
    case V4(n) => LocalNumber4(n)
    case V6(m) => LocalNumber6(m)
  }

  lemma {:induction false} PowAdd(a: nat, b: nat)
    ensures Pow2(a + b) == Pow2(a) * Pow2(b)
  {
    if b > 0 {
      PowAdd(a, b - 1);
      assert Pow2(a + b) == 2 * Pow2(a + b - 1);
      assert 2 * (Pow2(a) * Pow2(b - 1)) == Pow2(a) * (2 * Pow2(b - 1));
    }
  }

  lemma PowersOfTwo()
    ensures Pow2(8) == 0x100 && Pow2(16) == 0x1_0000
    ensures Pow2(20) == 0x10_0000 && Pow2(24) == 0x100_0000 && Pow2(32) == 0x1_0000_0000
  {
    assert Pow2(4) == 16;
    PowAdd(4, 4);
    PowAdd(8, 8);
    PowAdd(16, 4);
    PowAdd(16, 8);
    PowAdd(16, 16);
  }

  lemma LargePowersOfTwo()
    ensures Pow2(118) == 0x40_0000_0000_0000_0000_0000_0000_0000
    ensures Pow2(121) == 0x200_0000_0000_0000_0000_0000_0000_0000
    ensures Pow2(128) == 0x1_0000_0000_0000_0000_0000_0000_0000_0000
  {
    PowersOfTwo();
    assert Pow2(3) == 8 && Pow2(2) == 4;
    PowAdd(32, 32);
    PowAdd(64, 32);
    PowAdd(96, 20);
    PowAdd(116, 2);
    PowAdd(118, 3);
    PowAdd(96, 32);
  }

  lemma LocalPrefixes4(n: Num4)
    ensures (exists p :: p in LOCAL4 && Matches(p, V4(n))) <==> LocalNumber4(n)
  {
    PowersOfTwo();
    PrefixIsInterval(32, n, 0x7F00_0000, 8);
    PrefixIsInterval(32, n, 0x0A00_0000, 8);
    PrefixIsInterval(32, n, 0xAC10_0000, 12);
    PrefixIsInterval(32, n, 0xC0A8_0000, 16);
    hide SameLeadingBits, Pow2;
    assert LOCAL4[0] in LOCAL4 && LOCAL4[1] in LOCAL4 && LOCAL4[2] in LOCAL4 && LOCAL4[3] in LOCAL4;
  }

  lemma LocalPrefixes6(m: Num6)
    ensures (exists p :: p in LOCAL6 && Matches(p, V6(m))) <==> LocalNumber6(m)
  {
    LargePowersOfTwo();
    assert Pow2(0) == 1;
    PrefixIsInterval(128, m, 1, 128);
    PrefixIsInterval(128, m, 0xFC00_0000_0000_0000_0000_0000_0000_0000, 7);
    PrefixIsInterval(128, m, 0xFE80_0000_0000_0000_0000_0000_0000_0000, 10);
    hide SameLeadingBits, Pow2;
    assert LOCAL6[0] in LOCAL6 && LOCAL6[1] in LOCAL6 && LOCAL6[2] in LOCAL6;
  }

  /** Matching one of the listed prefixes is lying in one of the listed ranges. */
  lemma ListedPrefixesAreTheLocalRanges(a: Addr)
    ensures InAny(LOCAL4, a) <==> a.V4? && Local(a)
    ensures InAny(LOCAL6, a) <==> a.V6? && Local(a)
  {
    match a
    case V4(n) =>
      LocalPrefixes4(n);
    case V6(m) =>
      LocalPrefixes6(m);
  }
}
