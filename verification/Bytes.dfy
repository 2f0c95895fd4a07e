/** Fixed-width little-endian integers and the XOR byte checksum of SIFT streams. */
module Bytes {

  type byte = x: int | 0 <= x < 0x100
  type u16 = x: int | 0 <= x < 0x1_0000
  type u32 = x: int | 0 <= x < 0x1_0000_0000
  type u64 = x: int | 0 <= x < 0x1_0000_0000_0000_0000

  const TWO64: int := 0x1_0000_0000_0000_0000
  const TWO32: int := 0x1_0000_0000

  /** 64-bit addition wraps around. */
  function Add64(a: u64, b: nat): u64 {
    (a + b) % TWO64
  }

  lemma AddTwice(a: u64, m: nat, n: nat)
    ensures Add64(Add64(a, m), n) == Add64(a, m + n)
  {
    Wrapped(a + m, n);
  }

  lemma Wrapped(x: nat, y: nat)
    ensures (x % TWO64 + y) % TWO64 == (x + y) % TWO64
  {
    var q := x / TWO64;
    assert x == q * TWO64 + x % TWO64;
    assert x + y == q * TWO64 + (x % TWO64 + y);
  }

  // ----- little-endian integers

  function Pow256(k: nat): (p: nat)
    ensures p > 0
  {
    if k == 0 then 1 else 256 * Pow256(k - 1)
  }

  function LE(n: nat, k: nat): (s: seq<byte>)
    ensures |s| == k
    decreases k, n
  {
    if k == 0 then [] else [n % 256] + LE(n / 256, k - 1)
  }

  function FromLE(s: seq<byte>): (n: nat)
    ensures n < Pow256(|s|)
  {
    if s == [] then 0 else s[0] + 256 * FromLE(s[1..])
  }

  lemma {:induction false} LERoundTrip(n: nat, k: nat)
    requires n < Pow256(k)
    ensures FromLE(LE(n, k)) == n
    decreases k
  {
    if k > 0 {
      LERoundTrip(n / 256, k - 1);
      assert LE(n, k)[1..] == LE(n / 256, k - 1);
    }
  }

  lemma Pow256Values()
    ensures Pow256(1) == 0x100 && Pow256(2) == 0x1_0000 && Pow256(4) == TWO32 && Pow256(8) == TWO64
  {
    assert Pow256(3) == 256 * Pow256(2);
    assert Pow256(5) == 256 * Pow256(4);
    assert Pow256(6) == 256 * Pow256(5);
    assert Pow256(7) == 256 * Pow256(6);
  }

  function LE16(n: u16): (s: seq<byte>) { LE(n, 2) }
  function LE32(n: u32): (s: seq<byte>) { LE(n, 4) }
  function LE64(n: u64): (s: seq<byte>) { LE(n, 8) }

  function U16(s: seq<byte>): u16
    requires |s| == 2
  {
    Pow256Values(); FromLE(s)
  }

  function U32(s: seq<byte>): u32
    requires |s| == 4
  {
    Pow256Values(); FromLE(s)
  }

  function U64(s: seq<byte>): u64
    requires |s| == 8
  {
    Pow256Values(); FromLE(s)
  }

  lemma LE16RoundTrip(n: u16)
    ensures U16(LE16(n)) == n
  {
    Pow256Values(); LERoundTrip(n, 2);
  }

  lemma LE32RoundTrip(n: u32)
    ensures U32(LE32(n)) == n
  {
    Pow256Values(); LERoundTrip(n, 4);
  }

  lemma LE64RoundTrip(n: u64)
    ensures U64(LE64(n)) == n
  {
    Pow256Values(); LERoundTrip(n, 8);
  }

  // ----- exclusive or

  function Xor(a: nat, b: nat): (x: nat)
    decreases a + b
  {
    if a == 0 && b == 0 then 0
    else (if a % 2 == b % 2 then 0 else 1) + 2 * Xor(a / 2, b / 2)
  }

  function Pow2(k: nat): (p: nat)
    ensures p > 0
  {
    if k == 0 then 1 else 2 * Pow2(k - 1)
  }

  lemma {:induction false} XorBound(a: nat, b: nat, k: nat)
    requires a < Pow2(k) && b < Pow2(k)
    ensures Xor(a, b) < Pow2(k)
    decreases k
  {
    if k > 0 && (a > 0 || b > 0) {
      XorBound(a / 2, b / 2, k - 1);
    }
  }

  lemma {:induction false} XorZero(a: nat)
    ensures Xor(a, 0) == a
  {
    if a > 0 {
      XorZero(a / 2);
    }
  }

  lemma {:induction false} XorSelf(a: nat)
    ensures Xor(a, a) == 0
  {
    if a > 0 {
      XorSelf(a / 2);
    }
  }

  lemma {:induction false} XorCommutes(a: nat, b: nat)
    ensures Xor(a, b) == Xor(b, a)
    decreases a + b
  {
    if a > 0 || b > 0 {
      XorCommutes(a / 2, b / 2);
    }
  }

  /** The low bit and the remaining bits of an exclusive or. */
  lemma XorSplit(a: nat, b: nat)
    ensures Xor(a, b) % 2 == if a % 2 == b % 2 then 0 else 1
    ensures Xor(a, b) / 2 == Xor(a / 2, b / 2)
  {
  }

  lemma {:induction false} XorAssociates(a: nat, b: nat, c: nat)
    ensures Xor(Xor(a, b), c) == Xor(a, Xor(b, c))
    decreases a + b + c
  {
    if a > 0 || b > 0 || c > 0 {
      XorAssociates(a / 2, b / 2, c / 2);
      XorSplit(a, b);
      XorSplit(b, c);
      XorSplit(Xor(a, b), c);
      XorSplit(a, Xor(b, c));
    }
  }

  /** XORing the same value in twice leaves the original: this is what undoes the header bytes. */
  lemma XorCancels(a: nat, b: nat)
    ensures Xor(Xor(a, b), b) == a
  {
    XorAssociates(a, b, b);
    XorSelf(b);
    XorZero(a);
  }

  // ----- the running checksum of ChecksumVostream and ChecksumVistream

  /** The checksum register after folding the bytes `s` into `c`. */
  function Checksum(c: byte, s: seq<byte>): (r: byte)
    decreases |s|
  {
    if s == [] then c
    else Checksum(XorByte(c, s[0]), s[1..])
  }

  function XorByte(a: byte, b: byte): byte {
    assert Xor(a, b) < 256 by { assert Pow2(8) == 256; XorBound(a, b, 8); }
    Xor(a, b)
  }

  lemma {:induction false} ChecksumConcat(c: byte, s: seq<byte>, t: seq<byte>)
    ensures Checksum(c, s + t) == Checksum(Checksum(c, s), t)
    decreases |s|
  {
    if s == [] {
      assert s + t == t;
    } else {
      assert (s + t)[1..] == s[1..] + t;
      ChecksumConcat(XorByte(c, s[0]), s[1..], t);
    }
  }

  /** Folding a fixed string into the register loses no information about the register. */
  lemma {:induction false} ChecksumInjective(c: byte, d: byte, s: seq<byte>)
    requires Checksum(c, s) == Checksum(d, s)
    ensures c == d
    decreases |s|
  {
    if s != [] {
      ChecksumInjective(XorByte(c, s[0]), XorByte(d, s[0]), s[1..]);
      XorCancels(c, s[0]);
      XorCancels(d, s[0]);
    }
  }

  /** Replacing exactly one byte always changes the checksum. */
  lemma ChecksumDetectsOneByte(c: byte, s: seq<byte>, i: nat, b: byte)
    requires i < |s| && b != s[i]
    ensures Checksum(c, s[i := b]) != Checksum(c, s)
  {
    var t := s[i := b];
    assert s == s[..i] + ([s[i]] + s[i + 1..]) && t == s[..i] + ([b] + s[i + 1..]);
    var m := Checksum(c, s[..i]);
    ChecksumConcat(c, s[..i], [s[i]] + s[i + 1..]);
    ChecksumConcat(c, s[..i], [b] + s[i + 1..]);
    assert ([s[i]] + s[i + 1..])[1..] == s[i + 1..] && ([b] + s[i + 1..])[1..] == s[i + 1..];
    if Checksum(c, t) == Checksum(c, s) {
      ChecksumInjective(XorByte(m, s[i]), XorByte(m, b), s[i + 1..]);
      XorCommutes(m, s[i]);
      XorCommutes(m, b);
      XorCancels(s[i], m);
      XorCancels(b, m);
    }
  }

  /** Folding a string in and then XORing each of its bytes out again restores the register. */
  lemma {:induction false} ChecksumUndo(c: byte, s: seq<byte>)
    ensures Checksum(Checksum(c, s), s) == c
    decreases |s|
  {
    if s != [] {
      ChecksumUndoStep(c, s[0], s[1..]);
      ChecksumUndo(c, s[1..]);
    }
  }

  lemma ChecksumUndoStep(c: byte, b: byte, t: seq<byte>)
    ensures Checksum(XorByte(Checksum(XorByte(c, b), t), b), t) == Checksum(Checksum(c, t), t)
  {
    ChecksumShift(c, b, t);
    XorCancels(Checksum(c, t), b);
  }

  /** A byte folded in first can as well be folded in last. */
  lemma {:induction false} ChecksumShift(c: byte, b: byte, t: seq<byte>)
    ensures Checksum(XorByte(c, b), t) == XorByte(Checksum(c, t), b)
    decreases |t|
  {
    if t != [] {
      XorAssociates(c, b, t[0]);
      XorCommutes(b, t[0]);
      XorAssociates(c, t[0], b);
      ChecksumShift(XorByte(c, t[0]), b, t[1..]);
    }
  }

  lemma EmptySum(c: byte)
    ensures Checksum(c, []) == c
  {
  }

  lemma SumSnoc(c: byte, s: seq<byte>, b: byte)
    ensures Checksum(c, s + [b]) == XorByte(Checksum(c, s), b)
  {
    ChecksumConcat(c, s, [b]);
    assert [b][1..] == [];
  }

  /** The loop of the checksum streams: XORs the bytes into a register one by one. */
  method Fold(c: byte, s: seq<byte>) returns (r: byte)
    ensures r == Checksum(c, s)
  {
    hide Checksum;
    r := c;
    EmptySum(c);
    assert s[..0] == [];
    for i := 0 to |s|
      invariant r == Checksum(c, s[..i])
    {
      SumSnoc(c, s[..i], s[i]);
      assert s[..i + 1] == s[..i] + [s[i]];
      r := XorByte(r, s[i]);
    }
    assert s[..|s|] == s;
  }

  /** The uninitialised bytes inside a record. */
  method Uninitialised(n: nat) returns (s: seq<byte>)
    ensures |s| == n
  {
    var a := new byte[n];
    s := a[..];
  }
}
