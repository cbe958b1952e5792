/** Addresses as bytes, as bits and as numbers. */
module IpBits {

  type Bits = seq<bool>

  type Byte = x: int | 0 <= x < 256

  type Address = seq<Byte>

  function Pow2(n: nat): (p: nat)
    ensures p > 0
  {
    if n == 0 then 1 else 2 * Pow2(n - 1)
  }

  /** `x >> n`: one bit dropped `n` times. */
  function Shift(x: nat, n: nat): nat {
    if n == 0 then x else Shift(x / 2, n - 1)
  }

  /** `(b >> n) & 1`. */
  function BitOf(b: Byte, n: nat): bool {
    Shift(b, n) % 2 == 1
  }

  /** Bit `i` of an address, counted from the most significant bit of its first byte. */
  function BitAt(ip: Address, i: nat): bool
    requires i < 8 * |ip|
  {
    BitOf(ip[i / 8], 7 - i % 8)
  }

  function AddressBits(ip: Address): (bits: Bits)
    ensures |bits| == 8 * |ip|
    ensures forall i | 0 <= i < |bits| :: bits[i] == BitAt(ip, i)
  {
    seq(8 * |ip|, i requires 0 <= i < 8 * |ip| => BitAt(ip, i))
  }

  /** The number the bytes spell, the first byte being the most significant. */
  function AddressNumber(ip: Address): nat {
    if ip == [] then 0 else AddressNumber(ip[..|ip| - 1]) * 256 + ip[|ip| - 1]
  }

  // ----- shifts -----

  lemma {:induction false} ShiftSum(x: nat, a: nat, b: nat)
    ensures Shift(x, a + b) == Shift(Shift(x, a), b)
  {
    if a > 0 {
      ShiftSum(x / 2, a - 1, b);
    }
  }

  lemma {:induction false} ShiftSmall(x: nat, n: nat)
    requires x < Pow2(n)
    ensures Shift(x, n) == 0
  {
    if n > 0 {
      ShiftSmall(x / 2, n - 1);
    }
  }

  lemma Doubled(h: nat, n: nat)
    requires n > 0
    ensures h * Pow2(n) == 2 * (h * Pow2(n - 1))
  {
    var p := Pow2(n - 1);
    assert h * (2 * p) == 2 * (h * p);
  }

  /** A multiple of a higher power stays apart from what is below it. */
  lemma {:induction false} ShiftSplit(high: nat, low: nat, k: nat, n: nat)
    requires n <= k
    ensures Shift(high * Pow2(k) + low, n) == high * Pow2(k - n) + Shift(low, n)
  {
    if n > 0 {
      Doubled(high, k);
      ShiftSplit(high, low / 2, k - 1, n - 1);
    }
  }

  /** Shifting right is dividing by a power of two. */
  lemma {:induction false} ShiftIsQuotient(x: nat, n: nat) returns (r: nat)
    ensures r < Pow2(n) && x == Shift(x, n) * Pow2(n) + r
  {
    if n == 0 {
      r := 0;
    } else {
      r := ShiftIsQuotient(x / 2, n - 1);
      Doubled(Shift(x, n), n);
      r := 2 * r + x % 2;
    }
  }

  // ----- the bits of the number -----

  lemma Pow2Of8()
    ensures Pow2(8) == 256
  {
    assert Pow2(4) == 16 && Pow2(6) == 64;
  }

  lemma LowBits(high: nat, low: nat, k: nat, p: nat, n: nat)
    requires n < k && p == Pow2(k)
    ensures Shift(high * p + low, n) % 2 == Shift(low, n) % 2
  {
    ShiftSplit(high, low, k, n);
    Doubled(high, k - n);
    EvenPlus(high * Pow2(k - n - 1), Shift(low, n));
  }

  lemma EvenPlus(x: nat, y: nat)
    ensures (2 * x + y) % 2 == y % 2
  {
  }

  /** Within the last byte the high part of the number does not show. */
  lemma LastByteBit(high: nat, b: Byte, n: nat)
    requires n < 8
    ensures Shift(high * 256 + b, n) % 2 == Shift(b, n) % 2
  {
    Pow2Of8();
    LowBits(high, b, 8, 256, n);
  }

  /** Above it the last byte does not. */
  lemma HigherBit(high: nat, b: Byte, n: nat)
    requires n >= 8
    ensures Shift(high * 256 + b, n) == Shift(high, n - 8)
  {
    Pow2Of8();
    ShiftSplit(high, b, 8, 8);
    ShiftSmall(b, 8);
    ShiftSum(high * 256 + b, 8, n - 8);
  }

  /** Bit `i` of an address is the bit of that weight of its number. */
  lemma {:induction false} BitOfNumber(ip: Address, i: nat)
    requires i < 8 * |ip|
    ensures BitAt(ip, i) <==> Shift(AddressNumber(ip), 8 * |ip| - 1 - i) % 2 == 1
    decreases |ip|
  {
    var m, n := |ip| - 1, 8 * |ip| - 1 - i;
    var front := ip[..m];
    if i >= 8 * m {
      assert i / 8 == m && n == 7 - i % 8;
      LastByteBit(AddressNumber(front), ip[m], n);
    } else {
      BitOfNumber(front, i);
      assert front[i / 8] == ip[i / 8] && BitAt(front, i) == BitAt(ip, i);
      HigherBit(AddressNumber(front), ip[m], n);
    }
  }

  // ----- prefixes are quotients -----

  function Value(bits: Bits): nat {
    if bits == [] then 0 else 2 * Value(bits[..|bits| - 1]) + if bits[|bits| - 1] then 1 else 0
  }

  /** The bits are those of the number with the last `rest` dropped. */
  ghost predicate Spells(bits: Bits, x: nat, rest: nat) {
    forall n: nat | n == rest :: Shift(x, n) == Value(bits)
  }

  ghost predicate HasBit(x: nat, n: nat, bit: bool) {
    bit <==> Shift(x, n) % 2 == 1
  }

  lemma SpellsNothing(x: nat, rest: nat)
    requires x < Pow2(rest)
    ensures Spells([], x, rest)
  {
    ShiftSmall(x, rest);
  }

  lemma SpellsOneMore(bits: Bits, bit: bool, x: nat, rest: nat)
    requires Spells(bits, x, rest + 1) && HasBit(x, rest, bit)
    ensures Spells(bits + [bit], x, rest)
  {
    assert (bits + [bit])[..|bits|] == bits;
    assert Shift(x, rest + 1) == Value(bits);
    ShiftSum(x, rest, 1);
    assert Shift(Shift(x, rest), 1) == Shift(x, rest) / 2;
  }

  lemma NextBit(bits: Bits, n: nat)
    requires n < |bits|
    ensures bits[..n + 1] == bits[..n] + [bits[n]]
  {
  }

  /** All the bits of the number, the most significant first. */
  ghost predicate AreBitsOf(bits: Bits, x: nat) {
    x < Pow2(|bits|) && forall i | 0 <= i < |bits| :: HasBit(x, |bits| - 1 - i, bits[i])
  }

  lemma {:induction false} PrefixSpells(bits: Bits, x: nat, n: nat)
    requires AreBitsOf(bits, x) && n <= |bits|
    ensures Spells(bits[..n], x, |bits| - n)
  {
    if n == 0 {
      SpellsNothing(x, |bits|);
    } else {
      PrefixSpells(bits, x, n - 1);
      assert HasBit(x, |bits| - n, bits[n - 1]);
      SpellsOneMore(bits[..n - 1], bits[n - 1], x, |bits| - n);
      NextBit(bits, n - 1);
    }
  }

  /** The bits of an address are those of its number. */
  lemma AddressBitsOfNumber(ip: Address)
    ensures AreBitsOf(AddressBits(ip), AddressNumber(ip))
  {
    NumberIsBounded(ip);
    forall i | 0 <= i < 8 * |ip|
      ensures HasBit(AddressNumber(ip), 8 * |ip| - 1 - i, AddressBits(ip)[i])
    {
      BitOfNumber(ip, i);
    }
  }

  lemma {:induction false} NumberIsBounded(ip: Address)
    ensures AddressNumber(ip) < Pow2(8 * |ip|)
  {
    if ip != [] {
      var m := |ip| - 1;
      NumberIsBounded(ip[..m]);
      EightMoreBits(8 * m);
    }
  }

  lemma EightMoreBits(n: nat)
    ensures Pow2(n + 8) == 256 * Pow2(n)
  {
    assert Pow2(n + 2) == 4 * Pow2(n);
    assert Pow2(n + 4) == 4 * Pow2(n + 2);
    assert Pow2(n + 6) == 4 * Pow2(n + 4);
  }

  lemma {:induction false} ValueIsInjective(a: Bits, b: Bits)
    requires |a| == |b|
    ensures Value(a) == Value(b) <==> a == b
  {
    if a != [] {
      var n := |a| - 1;
      ValueIsInjective(a[..n], b[..n]);
      assert a == a[..n] + [a[n]] && b == b[..n] + [b[n]];
    }
  }

  /** The numbers agree but for the last `rest` bits: however many more are dropped. */
  ghost predicate AgreeAbove(a: nat, b: nat, rest: nat) {
    forall n: nat | n >= rest :: Shift(a, n) == Shift(b, n)
  }

  lemma AgreeAboveIff(a: nat, b: nat, rest: nat)
    ensures AgreeAbove(a, b, rest) <==> Shift(a, rest) == Shift(b, rest)
  {
    if Shift(a, rest) == Shift(b, rest) {
      forall n: nat | n >= rest
        ensures Shift(a, n) == Shift(b, n)
      {
        ShiftSum(a, rest, n - rest);
        ShiftSum(b, rest, n - rest);
      }
    }
  }

  lemma AgreeAboveIffQuotients(a: nat, b: nat, rest: nat)
    ensures AgreeAbove(a, b, rest) <==> a / Pow2(rest) == b / Pow2(rest)
  {
    AgreeAboveIff(a, b, rest);
    ShiftedIsQuotient(a, rest);
    ShiftedIsQuotient(b, rest);
  }

  lemma ShiftedIsQuotient(x: nat, n: nat)
    ensures x / Pow2(n) == Shift(x, n)
  {
    var r := ShiftIsQuotient(x, n);
    QuotientIs(x, Pow2(n), Shift(x, n), r);
  }

  lemma QuotientIs(n: nat, d: nat, q: nat, r: nat)
    requires d > 0 && n == q * d + r && r < d
    ensures n / d == q
  {
    var e := n / d - q;
    assert n == n / d * d + n % d;
    assert e * d == n / d * d - q * d;
    SmallMultiple(e, d);
  }

  lemma SmallMultiple(e: int, d: int)
    requires -d < e * d < d
    ensures e == 0
  {
  }

  /** Two addresses of one family share their first `n` bits exactly when their numbers agree
      under a mask of `n` bits. */
  lemma PrefixIffMask(a: Address, b: Address, n: nat)
    requires |a| == |b| && n <= 8 * |a|
    ensures AddressBits(a)[..n] == AddressBits(b)[..n] <==>
            AgreeAbove(AddressNumber(a), AddressNumber(b), 8 * |a| - n)
  {
    AddressBitsOfNumber(a);
    AddressBitsOfNumber(b);
    PrefixSpells(AddressBits(a), AddressNumber(a), n);
    PrefixSpells(AddressBits(b), AddressNumber(b), n);
    EqualIffAgree(AddressBits(a)[..n], AddressBits(b)[..n], AddressNumber(a), AddressNumber(b), 8 * |a| - n);
  }

  lemma EqualIffAgree(x: Bits, y: Bits, u: nat, v: nat, rest: nat)
    requires |x| == |y| && Spells(x, u, rest) && Spells(y, v, rest)
    ensures x == y <==> AgreeAbove(u, v, rest)
  {
    ValueIsInjective(x, y);
    AgreeAboveIff(u, v, rest);
    assert Shift(u, rest) == Value(x) && Shift(v, rest) == Value(y);
  }

  /** And all their bits exactly when they are the same number, and the same bytes. */
  lemma {:induction false} NumberIsInjective(a: Address, b: Address)
    requires |a| == |b|
    ensures AddressNumber(a) == AddressNumber(b) <==> a == b
  {
    if a != [] {
      var n := |a| - 1;
      NumberIsInjective(a[..n], b[..n]);
      assert a == a[..n] + [a[n]] && b == b[..n] + [b[n]];
    }
  }
}
