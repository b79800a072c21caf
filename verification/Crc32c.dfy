// The bitwise CRC-32C of the StrategyHost bridge on Python's unbounded
// integers, and two classes of damage it always detects: every burst of at
// most 32 bits, and every odd number of flipped bits.
module Crc32c {
  import opened Bytes

  const POLYNOMIAL: nat := 0x82F63B78
  const ALL_ONES: nat := 0xFFFF_FFFF
  const REGISTER_SIZE: nat := 0x1_0000_0000

  // One turn of the inner loop: shift right and fold the dropped bit back in.
  function Shift(crc: nat): nat {
    Xor(crc / 2, if crc % 2 == 1 then POLYNOMIAL else 0)
  }

  function Shifts(crc: nat, n: nat): nat {
    if n == 0 then crc else Shift(Shifts(crc, n - 1))
  }

  // The register after the bytes of data, starting from crc.
  function Register(crc: nat, data: seq<byte>): nat {
    if data == [] then crc
    else Shifts(Xor(Register(crc, data[..|data| - 1]), data[|data| - 1] as nat), 8)
  }

  function Checksum(data: seq<byte>): nat {
    Xor(Register(ALL_ONES, data), ALL_ONES)
  }

  method Compute(data: seq<byte>) returns (crc: nat)
    ensures crc == Checksum(data)
  {
    crc := ALL_ONES;
    for i := 0 to |data|
      invariant crc == Register(ALL_ONES, data[..i])
    {
      crc := Xor(crc, data[i] as nat);
      ghost var folded := crc;
      for k := 0 to 8
        invariant crc == Shifts(folded, k)
      {
        crc := Xor(crc / 2, if crc % 2 == 1 then POLYNOMIAL else 0);
      }
      assert data[..i + 1][..i] == data[..i];
    }
    assert data[..|data|] == data;
    crc := Xor(crc, ALL_ONES);
  }

  // ----- The message as a stream of bits, least significant bit of each byte first

  function Word(bit: bool): nat {
    if bit then 1 else 0
  }

  // v with its lowest n bits shifted out.
  function Down(v: nat, n: nat): nat {
    if n == 0 then v else Down(v, n - 1) / 2
  }

  function LowBits(v: nat, n: nat): (bits: seq<bool>)
    ensures |bits| == n
  {
    if n == 0 then [] else LowBits(v, n - 1) + [Down(v, n - 1) % 2 == 1]
  }

  function Bits(data: seq<byte>): (bits: seq<bool>)
    ensures |bits| == 8 * |data|
  {
    if data == [] then [] else Bits(data[..|data| - 1]) + LowBits(data[|data| - 1] as nat, 8)
  }

  // The register clocked one message bit at a time.
  function Clock(crc: nat, bits: seq<bool>): nat {
    if bits == [] then crc
    else Shift(Xor(Clock(crc, bits[..|bits| - 1]), Word(bits[|bits| - 1])))
  }

  lemma {:induction false} ClockConcat(crc: nat, a: seq<bool>, b: seq<bool>)
    ensures Clock(crc, a + b) == Clock(Clock(crc, a), b)
    decreases |b|
  {
    if b == [] {
      assert a + b == a;
    } else {
      var n := |b| - 1;
      assert (a + b)[..|a + b| - 1] == a + b[..n];
      ClockConcat(crc, a, b[..n]);
    }
  }

  function Feedback(low: nat, p: nat): nat {
    if low % 2 == 1 then p else 0
  }

  lemma FeedbackLinear(a: nat, b: nat, x: nat, p: nat)
    requires x % 2 == (a + b) % 2
    ensures Feedback(x, p) == Xor(Feedback(a, p), Feedback(b, p))
  {
    XorSame(p, p);
    XorZero(p);
    XorZero(0);
  }

  lemma ShiftLinear(a: nat, b: nat)
    ensures Shift(Xor(a, b)) == Xor(Shift(a), Shift(b))
  {
    XorHalves(a, b);
    FeedbackLinear(a, b, Xor(a, b), POLYNOMIAL);
    XorMedial(a / 2, Feedback(a, POLYNOMIAL), b / 2, Feedback(b, POLYNOMIAL));
  }

  // The part of a word not yet shifted out is the part not yet clocked in.
  lemma ClockBit(crc: nat, rest: nat)
    ensures Shift(Xor(crc, rest)) == Xor(Shift(Xor(crc, Word(rest % 2 == 1))), rest / 2)
  {
    var bit, high := Word(rest % 2 == 1), 2 * (rest / 2);
    XorZero(rest / 2);
    XorHalves(bit, high);
    assert Xor(bit, high) == rest;
    XorAssoc(crc, bit, high);
    ShiftLinear(Xor(crc, bit), high);
  }

  // Xoring in a whole word and then shifting is clocking its bits one by one.
  lemma {:induction false} ShiftsAreClocks(crc: nat, v: nat, n: nat)
    ensures Shifts(Xor(crc, v), n) == Xor(Clock(crc, LowBits(v, n)), Down(v, n))
  {
    if n > 0 {
      ShiftsAreClocks(crc, v, n - 1);
      assert LowBits(v, n)[..n - 1] == LowBits(v, n - 1);
      ClockBit(Clock(crc, LowBits(v, n - 1)), Down(v, n - 1));
    }
  }

  lemma {:induction false} DownBound(v: nat, n: nat, m: nat)
    requires v < Pow2(n + m)
    ensures Down(v, n) < Pow2(m)
  {
    if n > 0 { DownBound(v, n - 1, m + 1); }
  }

  lemma ByteIsClocked(crc: nat, b: byte)
    ensures Shifts(Xor(crc, b as nat), 8) == Clock(crc, LowBits(b as nat, 8))
  {
    assert Pow2(4) == 16 && Pow2(8) == 256;
    DownBound(b as nat, 8, 0);
    ShiftsAreClocks(crc, b as nat, 8);
    XorZero(Clock(crc, LowBits(b as nat, 8)));
  }

  // The register over bytes is the register over the bit stream.
  lemma {:induction false} RegisterIsClocked(crc: nat, data: seq<byte>)
    ensures Register(crc, data) == Clock(crc, Bits(data))
  {
    if data != [] {
      var n := |data| - 1;
      RegisterIsClocked(crc, data[..n]);
      ByteIsClocked(Clock(crc, Bits(data[..n])), data[n]);
      ClockConcat(crc, Bits(data[..n]), LowBits(data[n] as nat, 8));
    }
  }

  // ----- Linearity: the registers of two equally long messages differ by the difference clocked alone

  ghost predicate Differ(a: seq<bool>, b: seq<bool>, d: seq<bool>) {
    |a| == |b| == |d| && forall i :: 0 <= i < |a| ==> d[i] == (a[i] != b[i])
  }

  lemma {:induction false} ClockLinear(crc: nat, a: seq<bool>, b: seq<bool>, d: seq<bool>)
    requires Differ(a, b, d)
    ensures Xor(Clock(crc, a), Clock(crc, b)) == Clock(0, d)
  {
    if a == [] {
      XorSame(crc, crc);
    } else {
      var n := |a| - 1;
      ClockLinear(crc, a[..n], b[..n], d[..n]);
      var x, y := Clock(crc, a[..n]), Clock(crc, b[..n]);
      XorMedial(x, Word(a[n]), y, Word(b[n]));
      assert Xor(Word(a[n]), Word(b[n])) == Word(d[n]) by { XorZero(1); XorZero(0); XorSame(1, 1); }
      ShiftLinear(Xor(x, Word(a[n])), Xor(y, Word(b[n])));
    }
  }

  lemma RegisterWidth()
    ensures Pow2(32) == REGISTER_SIZE
  {
    assert Pow2(8) == 256 && Pow2(16) == 65536 && Pow2(24) == 0x100_0000;
  }

  lemma ShiftBound(crc: nat)
    requires crc < REGISTER_SIZE
    ensures Shift(crc) < REGISTER_SIZE
    ensures Shift(crc) == 0 ==> crc == 0
  {
    RegisterWidth();
    var p := if crc % 2 == 1 then POLYNOMIAL else 0;
    XorBound(crc / 2, p, 32);
    XorSame(crc / 2, p);
  }

  lemma {:induction false} ClockBound(crc: nat, bits: seq<bool>)
    requires crc < REGISTER_SIZE
    ensures Clock(crc, bits) < REGISTER_SIZE
  {
    if bits != [] {
      var n := |bits| - 1;
      ClockBound(crc, bits[..n]);
      var before := Clock(crc, bits[..n]);
      RegisterWidth();
      XorBound(before, Word(bits[n]), 32);
      ShiftBound(Xor(before, Word(bits[n])));
    }
  }

  ghost predicate Quiet(d: seq<bool>) {
    forall i :: 0 <= i < |d| ==> !d[i]
  }

  // Clocking zeros keeps a zero register zero and a non-zero register non-zero.
  lemma {:induction false} ClockQuiet(crc: nat, d: seq<bool>)
    requires crc < REGISTER_SIZE && Quiet(d)
    ensures Clock(crc, d) == 0 <==> crc == 0
  {
    if d != [] {
      var n := |d| - 1;
      ClockQuiet(crc, d[..n]);
      ClockBound(crc, d[..n]);
      XorZero(Clock(crc, d[..n]));
      ShiftBound(Clock(crc, d[..n]));
      XorZero(0);
    }
  }

  // A checksum is 32 bits wide.
  lemma ChecksumFits(data: seq<byte>)
    ensures Checksum(data) < REGISTER_SIZE
  {
    RegisterIsClocked(ALL_ONES, data);
    RegisterWidth();
    ClockBound(ALL_ONES, Bits(data));
    XorBound(Register(ALL_ONES, data), ALL_ONES, 32);
  }

  // ----- What the checksum tells apart

  // Bit strings of one length with different registers have different checksums.
  lemma DifferenceDecides(a: seq<byte>, b: seq<byte>, d: seq<bool>)
    requires Differ(Bits(a), Bits(b), d)
    ensures Checksum(a) == Checksum(b) <==> Clock(0, d) == 0
  {
    RegisterIsClocked(ALL_ONES, a);
    RegisterIsClocked(ALL_ONES, b);
    ClockLinear(ALL_ONES, Bits(a), Bits(b), d);
    var x, y := Register(ALL_ONES, a), Register(ALL_ONES, b);
    XorSame(x, y);
    XorMedial(x, ALL_ONES, y, ALL_ONES);
    XorSame(ALL_ONES, ALL_ONES);
    XorZero(Xor(x, y));
    XorSame(Xor(x, ALL_ONES), Xor(y, ALL_ONES));
  }

  // The number whose bits are d, least significant first.
  function Pack(d: seq<bool>): nat {
    if d == [] then 0 else Word(d[0]) + 2 * Pack(d[1..])
  }

  lemma {:induction false} DownFront(v: nat, n: nat)
    ensures Down(v, n + 1) == Down(v / 2, n)
  {
    if n > 0 { DownFront(v, n - 1); }
  }

  lemma {:induction false} LowBitsFront(v: nat, n: nat)
    ensures LowBits(v, n + 1) == [v % 2 == 1] + LowBits(v / 2, n)
  {
    if n > 0 {
      LowBitsFront(v, n - 1);
      DownFront(v, n - 1);
    }
  }

  lemma {:induction false} PackUnpacks(d: seq<bool>)
    ensures LowBits(Pack(d), |d|) == d
    ensures Pack(d) < Pow2(|d|)
    ensures Pack(d) == 0 <==> Quiet(d)
  {
    if d != [] {
      PackUnpacks(d[1..]);
      LowBitsFront(Pack(d), |d| - 1);
      assert d == [d[0]] + d[1..];
      assert Quiet(d) <==> !d[0] && Quiet(d[1..]);
    }
  }

  lemma {:induction false} ShiftsKeepNonZero(v: nat, n: nat)
    requires v < REGISTER_SIZE
    ensures Shifts(v, n) < REGISTER_SIZE
    ensures Shifts(v, n) == 0 ==> v == 0
  {
    if n > 0 {
      ShiftsKeepNonZero(v, n - 1);
      ShiftBound(Shifts(v, n - 1));
    }
  }

  lemma {:induction false} Pow2Monotone(m: nat, n: nat)
    requires m <= n
    ensures Pow2(m) <= Pow2(n)
  {
    if m < n { Pow2Monotone(m, n - 1); }
  }

  // At most 32 bits, not all zero, leave a non-zero register.
  lemma ClockWord(d: seq<bool>)
    requires |d| <= 32 && !Quiet(d)
    ensures Clock(0, d) != 0
  {
    var v := Pack(d);
    PackUnpacks(d);
    DownBound(v, |d|, 0);
    ShiftsAreClocks(0, v, |d|);
    XorZero(v);
    XorZero(Clock(0, d));
    assert Clock(0, d) == Shifts(v, |d|);
    Pow2Monotone(|d|, 32);
    RegisterWidth();
    ShiftsKeepNonZero(v, |d|);
  }

  lemma BurstRegister(before: seq<bool>, burst: seq<bool>, after: seq<bool>)
    requires Quiet(before) && Quiet(after)
    requires |burst| <= 32 && !Quiet(burst)
    ensures Clock(0, before + burst + after) != 0
  {
    ClockConcat(0, before + burst, after);
    ClockConcat(0, before, burst);
    ClockQuiet(0, before);
    ClockWord(burst);
    ClockBound(0, burst);
    ClockQuiet(Clock(0, burst), after);
  }

  function Difference(a: seq<bool>, b: seq<bool>): (d: seq<bool>)
    requires |a| == |b|
    ensures Differ(a, b, d)
  {
    seq(|a|, i requires 0 <= i < |a| => a[i] != b[i])
  }

  lemma DamageShows(a: seq<byte>, b: seq<byte>)
    requires |a| == |b| && a != b
    ensures !Quiet(Difference(Bits(a), Bits(b)))
  {
    hide Bits;
    var d := Difference(Bits(a), Bits(b));
    if Quiet(d) {
      assert forall i :: 0 <= i < |d| ==> !d[i] && Bits(a)[i] == Bits(b)[i];
      assert Bits(a) == Bits(b);
      BitsInjective(a, b);
    }
  }

  lemma BurstWithin(d: seq<bool>, first: nat)
    requires !Quiet(d)
    requires forall i :: 0 <= i < |d| && !(first <= i < first + 32) ==> !d[i]
    ensures Clock(0, d) != 0
  {
    hide Clock;
    var n := |d|;
    var s := if first < n then first else n;
    var e := if s + 32 < n then s + 32 else n;
    var k :| 0 <= k < n && d[k];
    assert d[s..e][k - s];
    assert Quiet(d[..s]) && Quiet(d[e..]);
    BurstRegister(d[..s], d[s..e], d[e..]);
    assert d == d[..s] + d[s..e] + d[e..];
  }

  // Two messages of one length that differ, and differ only inside 32
  // consecutive bits anywhere in the stream, have different checksums.
  lemma DetectsEveryBurst(a: seq<byte>, b: seq<byte>, first: nat)
    requires |a| == |b| && a != b
    requires forall i :: 0 <= i < 8 * |a| && !(first <= i < first + 32) ==> Bits(a)[i] == Bits(b)[i]
    ensures Checksum(a) != Checksum(b)
  {
    hide Bits, Checksum, Clock;
    var d := Difference(Bits(a), Bits(b));
    DamageShows(a, b);
    BurstWithin(d, first);
    DifferenceDecides(a, b, d);
  }

  lemma {:induction false} LowBitsInjective(u: nat, v: nat, n: nat)
    requires u < Pow2(n) && v < Pow2(n)
    requires LowBits(u, n) == LowBits(v, n)
    ensures u == v
  {
    if n > 0 {
      LowBitsFront(u, n - 1);
      LowBitsFront(v, n - 1);
      assert LowBits(u, n)[1..] == LowBits(u / 2, n - 1);
      assert LowBits(v, n)[1..] == LowBits(v / 2, n - 1);
      LowBitsInjective(u / 2, v / 2, n - 1);
      assert LowBits(u, n)[0] == (u % 2 == 1) && LowBits(v, n)[0] == (v % 2 == 1);
    }
  }

  lemma {:induction false} BitsInjective(a: seq<byte>, b: seq<byte>)
    requires |a| == |b| && Bits(a) == Bits(b)
    ensures a == b
  {
    if a != [] {
      var n := |a| - 1;
      assert Bits(a)[..8 * n] == Bits(a[..n]) && Bits(b)[..8 * n] == Bits(b[..n]);
      BitsInjective(a[..n], b[..n]);
      assert Bits(a)[8 * n..] == LowBits(a[n] as nat, 8) && Bits(b)[8 * n..] == LowBits(b[n] as nat, 8);
      assert Pow2(4) == 16 && Pow2(8) == 256;
      LowBitsInjective(a[n] as nat, b[n] as nat, 8);
    }
  }

  // Four consecutive bytes are one such burst.
  lemma DetectsFourByteBurst(before: seq<byte>, x: seq<byte>, y: seq<byte>, after: seq<byte>)
    requires |x| == |y| <= 4 && x != y
    ensures Checksum(before + x + after) != Checksum(before + y + after)
  {
    hide Bits, Checksum;
    var a, b := before + x + after, before + y + after;
    assert a[|before|..|before| + |x|] == x && b[|before|..|before| + |x|] == y;
    BitsAround(before, x, after);
    BitsAround(before, y, after);
    DetectsEveryBurst(a, b, 8 * |before|);
  }

  lemma BitsAround(before: seq<byte>, x: seq<byte>, after: seq<byte>)
    ensures Bits(before + x + after) == Bits(before) + Bits(x) + Bits(after)
  {
    BitsConcat(before + x, after);
    BitsConcat(before, x);
  }

  lemma {:induction false} BitsConcat(a: seq<byte>, b: seq<byte>)
    ensures Bits(a + b) == Bits(a) + Bits(b)
  {
    if b == [] {
      assert a + b == a;
    } else {
      var n := |b| - 1;
      assert (a + b)[..|a + b| - 1] == a + b[..n];
      BitsConcat(a, b[..n]);
    }
  }

  // ----- Odd numbers of flipped bits

  function Count(d: seq<bool>): nat {
    if d == [] then 0 else Count(d[..|d| - 1]) + Word(d[|d| - 1])
  }

  // Whether the binary expansion of a has an odd number of ones.
  predicate Odd(a: nat) {
    a != 0 && (a % 2 == 1) != Odd(a / 2)
  }

  lemma OddHalf(a: nat)
    ensures Odd(a) == ((a % 2 == 1) != Odd(a / 2))
    ensures a == 0 ==> !Odd(a)
  {
  }

  lemma OddParts(a: nat, b: nat, x: nat)
    requires x % 2 == (a + b) % 2
    ensures (x % 2 == 1) == ((a % 2 == 1) != (b % 2 == 1))
  {
  }

  lemma {:induction false} OddXor(a: nat, b: nat)
    ensures Odd(Xor(a, b)) == (Odd(a) != Odd(b))
    decreases a + b
  {
    hide Odd, Xor;
    var x := Xor(a, b);
    if a == 0 && b == 0 {
      XorZero(0);
      OddHalf(0);
    } else {
      XorHalves(a, b);
      OddXor(a / 2, b / 2);
      OddParts(a, b, x);
      OddHalf(a);
      OddHalf(b);
      OddHalf(x);
    }
  }

  // The generator has 17 feedback taps, so a shift keeps the parity of the register.
  lemma OddShift(crc: nat)
    ensures Odd(Shift(crc)) == Odd(crc)
  {
    assert Odd(0x2) && Odd(0x8) && Odd(0x20) && !Odd(0x82);
    assert !Odd(0x20B) && !Odd(0x82F) && Odd(0x20BD) && !Odd(0x82F6);
    assert !Odd(0x20BD8) && !Odd(0x82F63) && Odd(0x20BD8E) && Odd(0x82F63B);
    assert !Odd(0x20BD8ED) && !Odd(0x82F63B7) && Odd(0x20BD8EDE) && Odd(0x82F63B78);
    OddXor(crc / 2, if crc % 2 == 1 then POLYNOMIAL else 0);
  }

  lemma {:induction false} OddClock(d: seq<bool>)
    ensures Odd(Clock(0, d)) == (Count(d) % 2 == 1)
  {
    if d != [] {
      var n := |d| - 1;
      OddClock(d[..n]);
      OddXor(Clock(0, d[..n]), Word(d[n]));
      OddShift(Xor(Clock(0, d[..n]), Word(d[n])));
    }
  }

  // Two messages of one length that differ in an odd number of bits, wherever
  // these lie, have different checksums.
  lemma DetectsOddDamage(a: seq<byte>, b: seq<byte>, d: seq<bool>)
    requires Differ(Bits(a), Bits(b), d) && Count(d) % 2 == 1
    ensures Checksum(a) != Checksum(b)
  {
    OddClock(d);
    DifferenceDecides(a, b, d);
  }
}
