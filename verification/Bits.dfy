/** Bits packed eight to a byte: the bit operations of kernel/buddy.c, and the free map of
    kernel/fs.c, which uses the same masks. */
module Bits {

  function Mask(i: nat): bv8 {
    1 as bv8 << (i % 8)
  }

  predicate Bit(x: bv8, i: nat) {
    x & Mask(i) == Mask(i)
  }

  function Raise(x: bv8, i: nat): bv8 {
    x | Mask(i)
  }

  function Lower(x: bv8, i: nat): bv8 {
    x & !Mask(i)
  }

  /** The bits that an array of bytes holds. */
  ghost function Unpacked(bytes: seq<bv8>): (r: seq<bool>)
    ensures |r| == 8 * |bytes|
  {
    seq(8 * |bytes|, i requires 0 <= i < 8 * |bytes| => Bit(bytes[i / 8], i))
  }

  lemma MasksApart(i: nat, k: nat)
    requires i % 8 != k % 8
    ensures Mask(i) & Mask(k) == 0
  {
    var a, b: bv8 := (i % 8) as bv8, (k % 8) as bv8;
    assert a < 8 && b < 8 && a != b;
    assert Mask(i) == 1 as bv8 << a && Mask(k) == 1 as bv8 << b;
  }

  /** What setting and clearing one mask does to another. */
  lemma OtherMask(x: bv8, m: bv8, o: bv8)
    requires m & o == 0
    ensures (x | m) & o == x & o && (x & !m) & o == x & o
  {
  }

  lemma OwnMask(x: bv8, i: nat)
    ensures (x | Mask(i)) & Mask(i) == Mask(i) && (x & !Mask(i)) & Mask(i) == 0 && Mask(i) != 0
  {
    var a: bv8 := (i % 8) as bv8;
    assert a < 8 && Mask(i) == 1 as bv8 << a;
    BothSides(x, Mask(i));
  }

  lemma BothSides(x: bv8, m: bv8)
    ensures (x | m) & m == m && (x & !m) & m == 0
  {
  }

  lemma OtherRaised(x: bv8, i: nat, k: nat)
    requires i % 8 != k % 8
    ensures Bit(Raise(x, i), k) == Bit(x, k)
  {
    hide Mask;
    MasksApart(i, k);
    OtherMask(x, Mask(i), Mask(k));
  }

  lemma OtherLowered(x: bv8, i: nat, k: nat)
    requires i % 8 != k % 8
    ensures Bit(Lower(x, i), k) == Bit(x, k)
  {
    hide Mask;
    MasksApart(i, k);
    OtherMask(x, Mask(i), Mask(k));
  }

  lemma OwnBit(x: bv8, i: nat)
    ensures Bit(Raise(x, i), i) && !Bit(Lower(x, i), i)
  {
    OwnMask(x, i);
  }

  /** A byte changed in bit i only. */
  lemma ByteChanged(bytes: seq<bv8>, i: nat, x: bv8, v: bool)
    requires i < 8 * |bytes| && Bit(x, i) == v
    requires forall k: nat :: k % 8 != i % 8 ==> Bit(x, k) == Bit(bytes[i / 8], k)
    ensures Unpacked(bytes[i / 8 := x]) == Unpacked(bytes)[i := v]
  {
    hide Bit;
    var was, now := Unpacked(bytes)[i := v], Unpacked(bytes[i / 8 := x]);
    forall k | 0 <= k < 8 * |bytes|
      ensures now[k] == was[k]
    {
      if k / 8 == i / 8 && k != i {
        assert k % 8 != i % 8;
      }
    }
  }

  lemma SetOne(bytes: seq<bv8>, i: nat)
    requires i < 8 * |bytes|
    ensures Unpacked(bytes[i / 8 := Raise(bytes[i / 8], i)]) == Unpacked(bytes)[i := true]
  {
    hide Raise, Lower, Bit, Unpacked;
    var x := Raise(bytes[i / 8], i);
    forall k: nat | k % 8 != i % 8
      ensures Bit(x, k) == Bit(bytes[i / 8], k)
    {
      OtherRaised(bytes[i / 8], i, k);
    }
    OwnBit(bytes[i / 8], i);
    ByteChanged(bytes, i, x, true);
  }

  lemma ClearOne(bytes: seq<bv8>, i: nat)
    requires i < 8 * |bytes|
    ensures Unpacked(bytes[i / 8 := Lower(bytes[i / 8], i)]) == Unpacked(bytes)[i := false]
  {
    hide Raise, Lower, Bit, Unpacked;
    var x := Lower(bytes[i / 8], i);
    forall k: nat | k % 8 != i % 8
      ensures Bit(x, k) == Bit(bytes[i / 8], k)
    {
      OtherLowered(bytes[i / 8], i, k);
    }
    OwnBit(bytes[i / 8], i);
    ByteChanged(bytes, i, x, false);
  }

  method IsSet(bytes: array<bv8>, i: nat) returns (r: bool)
    requires i < 8 * bytes.Length
    ensures r == Unpacked(bytes[..])[i]
  {
    r := Bit(bytes[i / 8], i);
  }

  method Set(bytes: array<bv8>, i: nat)
    requires i < 8 * bytes.Length
    modifies bytes
    ensures Unpacked(bytes[..]) == Unpacked(old(bytes[..]))[i := true]
  {
    SetOne(bytes[..], i);
    ghost var was := bytes[..];
    bytes[i / 8] := Raise(bytes[i / 8], i);
    assert bytes[..] == was[i / 8 := Raise(was[i / 8], i)];
  }

  method Clear(bytes: array<bv8>, i: nat)
    requires i < 8 * bytes.Length
    modifies bytes
    ensures Unpacked(bytes[..]) == Unpacked(old(bytes[..]))[i := false]
  {
    ClearOne(bytes[..], i);
    ghost var was := bytes[..];
    bytes[i / 8] := Lower(bytes[i / 8], i);
    assert bytes[..] == was[i / 8 := Lower(was[i / 8], i)];
  }
}
