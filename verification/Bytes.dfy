// Bytes, bitwise exclusive or on natural numbers, and little-endian integers.
module Bytes {

  newtype byte = x: int | 0 <= x < 256

  function Pow2(n: nat): (p: nat)
    ensures p >= 1
  {
    if n == 0 then 1 else 2 * Pow2(n - 1)
  }

  // ----- Exclusive or of two non-negative integers of any width

  function Xor(a: nat, b: nat): nat
    decreases a + b
  {
    if a == 0 && b == 0 then 0 else 2 * Xor(a / 2, b / 2) + (a + b) % 2
  }

  lemma XorHalves(a: nat, b: nat)
    ensures Xor(a, b) / 2 == Xor(a / 2, b / 2)
    ensures Xor(a, b) % 2 == (a + b) % 2
  {
  }

  lemma {:induction false} XorComm(a: nat, b: nat)
    ensures Xor(a, b) == Xor(b, a)
    decreases a + b
  {
    if a + b > 0 { XorComm(a / 2, b / 2); }
  }

  lemma {:induction false} XorZero(a: nat)
    ensures Xor(a, 0) == a == Xor(0, a)
  {
    if a > 0 { XorZero(a / 2); }
  }

  lemma SameHalves(x: nat, y: nat)
    requires x / 2 == y / 2 && x % 2 == y % 2
    ensures x == y
  {
  }

  lemma XorParity(a: nat, b: nat, c: nat, x: nat, y: nat)
    requires x % 2 == (a + b) % 2 && y % 2 == (b + c) % 2
    ensures (x + c) % 2 == (a + y) % 2
  {
  }

  lemma {:induction false} XorAssoc(a: nat, b: nat, c: nat)
    ensures Xor(Xor(a, b), c) == Xor(a, Xor(b, c))
    decreases a + b + c
  {
    if a == 0 && b == 0 && c == 0 {
    } else {
      var x, y := Xor(a, b), Xor(b, c);
      XorHalves(a, b);
      XorHalves(b, c);
      XorHalves(x, c);
      XorHalves(a, y);
      XorParity(a, b, c, x, y);
      XorAssoc(a / 2, b / 2, c / 2);
      SameHalves(Xor(x, c), Xor(a, y));
    }
  }

  lemma {:induction false} XorSame(a: nat, b: nat)
    ensures Xor(a, b) == 0 <==> a == b
    decreases a + b
  {
    if a + b > 0 { XorSame(a / 2, b / 2); }
  }

  lemma {:induction false} XorBound(a: nat, b: nat, n: nat)
    requires a < Pow2(n) && b < Pow2(n)
    ensures Xor(a, b) < Pow2(n)
  {
    if n > 0 { XorBound(a / 2, b / 2, n - 1); }
  }

  lemma XorMedial(a: nat, b: nat, c: nat, d: nat)
    ensures Xor(Xor(a, b), Xor(c, d)) == Xor(Xor(a, c), Xor(b, d))
  {
    XorAssoc(a, b, Xor(c, d));
    XorAssoc(b, c, d);
    XorComm(b, c);
    XorAssoc(c, b, d);
    XorAssoc(a, c, Xor(b, d));
  }

  // ----- Little-endian integers

  function Pow256(n: nat): (p: nat)
    ensures p >= 1
  {
    if n == 0 then 1 else 256 * Pow256(n - 1)
  }

  function Little(value: nat, width: nat): (bytes: seq<byte>)
    ensures |bytes| == width
  {
    if width == 0 then [] else [(value % 256) as byte] + Little(value / 256, width - 1)
  }

  function FromLittle(bytes: seq<byte>): (value: nat) {
    if bytes == [] then 0 else bytes[0] as nat + 256 * FromLittle(bytes[1..])
  }

  lemma {:induction false} LittleRoundTrip(value: nat, width: nat)
    requires value < Pow256(width)
    ensures FromLittle(Little(value, width)) == value
  {
    if width > 0 {
      LittleRoundTrip(value / 256, width - 1);
      assert Little(value, width)[1..] == Little(value / 256, width - 1);
    }
  }

  lemma {:induction false} FromLittleRoundTrip(bytes: seq<byte>)
    ensures FromLittle(bytes) < Pow256(|bytes|)
    ensures Little(FromLittle(bytes), |bytes|) == bytes
  {
    if bytes != [] {
      FromLittleRoundTrip(bytes[1..]);
      var v := FromLittle(bytes);
      assert v / 256 == FromLittle(bytes[1..]) && v % 256 == bytes[0] as nat;
      assert bytes == [bytes[0]] + bytes[1..];
    }
  }

  function Zeros(n: nat): (bytes: seq<byte>)
    ensures |bytes| == n
    ensures forall i :: 0 <= i < n ==> bytes[i] == 0
  {
    seq(n, _ => 0 as byte)
  }

  // Two's complement, sixteen bytes wide.
  function LittleSigned(value: i128): (bytes: seq<byte>)
    ensures |bytes| == 16
  {
    Little(if value < 0 then value + 2 * (I128_MAX + 1) else value, 16)
  }

  function GetSigned(bytes: seq<byte>, offset: nat): (value: i128)
    requires offset + 16 <= |bytes|
  {
    var unsigned := Get(bytes, offset, 16);
    FromLittleRoundTrip(bytes[offset..offset + 16]);
    Widths();
    if unsigned > I128_MAX then unsigned - 2 * (I128_MAX + 1) else unsigned
  }

  lemma SignedRoundTrip(value: i128, bytes: seq<byte>, offset: nat)
    requires offset + 16 <= |bytes| && bytes[offset..offset + 16] == LittleSigned(value)
    ensures GetSigned(bytes, offset) == value
  {
    Widths();
    LittleRoundTrip(if value < 0 then value + 2 * (I128_MAX + 1) else value, 16);
  }

  lemma GetSignedRoundTrip(bytes: seq<byte>, offset: nat)
    requires offset + 16 <= |bytes|
    ensures LittleSigned(GetSigned(bytes, offset)) == bytes[offset..offset + 16]
  {
    FromLittleRoundTrip(bytes[offset..offset + 16]);
    Widths();
  }

  // The unsigned integer of the given width stored at an offset.
  function Get(bytes: seq<byte>, offset: nat, width: nat): nat
    requires offset + width <= |bytes|
  {
    FromLittle(bytes[offset..offset + width])
  }

  type u8 = x: nat | x < 0x100
  type u16 = x: nat | x < 0x1_0000
  type u32 = x: nat | x < 0x1_0000_0000
  type u64 = x: nat | x < 0x1_0000_0000_0000_0000
  type u128 = x: nat | x < 0x1_0000_0000_0000_0000_0000_0000_0000_0000

  const I128_MAX: int := 0x7FFF_FFFF_FFFF_FFFF_FFFF_FFFF_FFFF_FFFF
  type i128 = x: int | -I128_MAX - 1 <= x <= I128_MAX

  lemma Widths()
    ensures Pow256(1) == 0x100 && Pow256(2) == 0x1_0000 && Pow256(4) == 0x1_0000_0000
    ensures Pow256(8) == 0x1_0000_0000_0000_0000
    ensures Pow256(16) == 0x1_0000_0000_0000_0000_0000_0000_0000_0000
  {
    assert Pow256(6) == 0x1_0000_0000_0000;
    assert Pow256(10) == 0x1_0000_0000_0000_0000_0000;
    assert Pow256(12) == 0x1_0000_0000_0000_0000_0000_0000;
    assert Pow256(14) == 0x1_0000_0000_0000_0000_0000_0000_0000;
  }

  // ----- Buffers

  // A buffer with bytes written at an offset.
  function Spliced(buffer: seq<byte>, at: nat, bytes: seq<byte>): (after: seq<byte>)
    requires at + |bytes| <= |buffer|
    ensures |after| == |buffer| && after[at..at + |bytes|] == bytes
  {
    buffer[..at] + bytes + buffer[at + |bytes|..]
  }

  lemma SplicedKeeps(buffer: seq<byte>, at: nat, bytes: seq<byte>, lo: nat, hi: nat)
    requires at + |bytes| <= |buffer| && lo <= hi <= |buffer| && (hi <= at || at + |bytes| <= lo)
    ensures Spliced(buffer, at, bytes)[lo..hi] == buffer[lo..hi]
  {
    var after := Spliced(buffer, at, bytes);
    forall i | lo <= i < hi
      ensures after[i] == buffer[i]
    {
      if i >= at { assert after[i] == buffer[at + |bytes|..][i - at - |bytes|]; }
    }
  }

  // Writes bytes into the destination and nowhere else.
  method Put(destination: array<byte>, at: nat, bytes: seq<byte>)
    requires at + |bytes| <= destination.Length
    modifies destination
    ensures destination[..] == Spliced(old(destination[..]), at, bytes)
  {
    for i := 0 to |bytes|
      invariant destination[..at] == old(destination[..at])
      invariant destination[at..at + i] == bytes[..i]
      invariant destination[at + i..] == old(destination[at + i..])
    {
      destination[at + i] := bytes[i];
    }
    assert destination[..] == destination[..at] + destination[at..at + |bytes|] + destination[at + |bytes|..];
  }
}
