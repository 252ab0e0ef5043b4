/** The bound on the blocks that a chunk of filewrite logs is reached: a file system and
    a write for which ten blocks cannot be avoided. */
module TightWrite {
  import opened ByteSeq
  import opened Inode

  const OFF := 11265   // the second byte of block 11

  /** Exactly four data blocks are free, under four different map blocks; file `inum` ends
      inside its twelfth block and has no indirect block.  Its last block and the free
      ones are zero. */
  ghost predicate Crowded(fs: Fs, owner: Owners, inum: nat) {
    && FsOk(fs, owner) && inum in fs.inodes && fs.inodes[inum].size == OFF && Addr(fs, inum, 12) == 0
    && (forall j :: 0 <= j < 256 ==> Ptr(fs, Entry(inum, j)) == 0)
    && Frees(fs.used) == 4
    && (forall b, c :: 0 <= b < c < |fs.used| && !fs.used[b] && !fs.used[c] ==> b / 8192 != c / 8192)
    && (forall b :: 0 <= b < |fs.used| && !fs.used[b] ==> BlockAt(fs, b) == Zeros(1024))
    && BlockAt(fs, Addr(fs, inum, 11)) == Zeros(1024)
  }

  /** The write takes three data blocks and the indirect block. */
  lemma FourAreEnough(fs: Fs, owner: Owners, inum: nat)
    requires Crowded(fs, owner, inum)
    ensures Frees(fs.used) > Allocated(OFF, 3072)
  {
    assert Touched(OFF, 3072) == 4;
  }

  /** A write of 3072 nonzero bytes there. */
  predicate Ones(src: seq<nat>) {
    |src| == 3072 && forall i :: 0 <= i < 3072 ==> src[i] == 1
  }

  /** A used block stays in its slot. */
  lemma UsedStays(fs: Fs, owner: Owners, fs': Fs, owner': Owners, b: nat)
    requires Ownership(fs, owner) && Ownership(fs', owner') && Keeps(fs, fs')
    requires fs.start <= b < |fs.used| && fs.used[b]
    ensures b in owner && b in owner' && owner'[b] == owner[b] && Ptr(fs, owner[b]) == b != 0
  {
    assert OwnerOk(fs, owner, b);
    assert SlotOk(fs', owner', owner[b]);
  }

  /** A slot that was empty and is not any more holds a block that was free. */
  lemma NewIsFree(fs: Fs, owner: Owners, fs': Fs, owner': Owners, s: Slot)
    requires Ownership(fs, owner) && Ownership(fs', owner') && Keeps(fs, fs')
    requires IsSlot(fs, s) && Ptr(fs, s) == 0 && Ptr(fs', s) != 0
    ensures fs.start <= Ptr(fs', s) < |fs.used| && !fs.used[Ptr(fs', s)] && fs'.used[Ptr(fs', s)]
  {
    var b := Ptr(fs', s);
    PtrInside(fs', owner', s);
    if fs.used[b] {
      UsedStays(fs, owner, fs', owner', b);
    }
  }

  /** The byte at a position written. */
  lemma Written(fs: Fs, fs': Fs, inum: nat, src: seq<nat>, k: nat)
    requires inum in fs.inodes && fs.inodes[inum].size == OFF && Ones(src) && OFF <= k < OFF + 3072
    requires Splices(fs, fs', inum, OFF, src)
    ensures inum in fs'.inodes && fs'.inodes[inum].size == OFF + 3072 && ByteIn(fs', inum, k) == 1
  {
    assert Content(fs', inum) == Spliced(Content(fs, inum), OFF, src);
    assert Content(fs', inum)[k] == src[k - OFF];
    assert Content(fs', inum)[k] == ByteIn(fs', inum, k);
  }

  /** Block bn of the file, zero before, has been written. */
  lemma BlockChanged(fs: Fs, fs': Fs, owner': Owners, inum: nat, src: seq<nat>, bn: nat, k: nat)
    requires inum in fs.inodes && fs.inodes[inum].size == OFF && Ones(src) && OFF <= k < OFF + 3072 && bn == k / 1024
    requires FsOk(fs', owner') && Splices(fs, fs', inum, OFF, src)
    ensures inum in fs'.inodes && Ptr(fs', SlotOf(inum, bn)) != 0
    ensures BlockAt(fs', Ptr(fs', SlotOf(inum, bn))) != Zeros(1024)
  {
    Written(fs, fs', inum, src, k);
    FsParts(fs', owner', inum);
    BelowSize(fs', inum, k);
    assert ByteOf(BlockAt(fs', Ptr(fs', SlotOf(inum, bn))), k % 1024) == 1;
  }

  /** The blocks of slots 11 to 14 and the indirect block. */
  function Changed(fs: Fs, inum: nat): set<nat> {
    {Addr(fs, inum, 11), Addr(fs, inum, 12), Ptr(fs, Entry(inum, 0)), Ptr(fs, Entry(inum, 1)), Ptr(fs, Entry(inum, 2))}
  }

  lemma FiveBlocks(fs: Fs, owner: Owners, inum: nat)
    requires Ownership(fs, owner) && inum in fs.inodes
    requires Addr(fs, inum, 11) != 0 && Addr(fs, inum, 12) != 0
    requires Ptr(fs, Entry(inum, 0)) != 0 && Ptr(fs, Entry(inum, 1)) != 0 && Ptr(fs, Entry(inum, 2)) != 0
    ensures |Changed(fs, inum)| == 5 && forall b :: b in Changed(fs, inum) ==> fs.start <= b
  {
    var slots := [Direct(inum, 11), Direct(inum, 12), Entry(inum, 0), Entry(inum, 1), Entry(inum, 2)];
    forall i | 0 <= i < 5
      ensures fs.start <= Ptr(fs, slots[i]) && Ptr(fs, slots[i]) in owner && owner[Ptr(fs, slots[i])] == slots[i]
    {
      PtrInside(fs, owner, slots[i]);
    }
    var a, b, c, d, e := Ptr(fs, slots[0]), Ptr(fs, slots[1]), Ptr(fs, slots[2]), Ptr(fs, slots[3]), Ptr(fs, slots[4]);
    assert Changed(fs, inum) == {a, b, c, d, e};
    assert a != b && a != c && a != d && a != e && b != c && b != d && b != e && c != d && c != e && d != e;
  }

  /** All five are logged. */
  lemma FiveLogged(fs: Fs, owner: Owners, fs': Fs, owner': Owners, inum: nat, src: seq<nat>, bmapstart: nat,
                   logged: set<nat>)
    requires Crowded(fs, owner, inum) && Ones(src) && FsOk(fs', owner') && Keeps(fs, fs')
    requires Splices(fs, fs', inum, OFF, src) && Recorded(fs, fs', bmapstart, logged)
    ensures inum in fs'.inodes && Addr(fs', inum, 11) != 0 && Addr(fs', inum, 12) != 0
    ensures Ptr(fs', Entry(inum, 0)) != 0 && Ptr(fs', Entry(inum, 1)) != 0 && Ptr(fs', Entry(inum, 2)) != 0
    ensures Changed(fs', inum) <= logged
  {
    hide FsOk, Ownership, Splices, Recorded, ByteIn, Keeps;
    FsParts(fs, owner, inum);
    BlockChanged(fs, fs', owner', inum, src, 11, OFF);
    FsParts(fs', owner', inum);
    BlockChanged(fs, fs', owner', inum, src, 12, 12288);
    BlockChanged(fs, fs', owner', inum, src, 13, 13312);
    BlockChanged(fs, fs', owner', inum, src, 14, 14336);
    assert Addr(fs', inum, 12) != 0;
    IndirectChanged(fs, owner, fs', owner', inum);
    OldChanged(fs, owner, fs', owner', inum, bmapstart, logged);
    NewChanged(fs, owner, fs', owner', Direct(inum, 12), bmapstart, logged);
    NewChanged(fs, owner, fs', owner', Entry(inum, 0), bmapstart, logged);
    NewChanged(fs, owner, fs', owner', Entry(inum, 1), bmapstart, logged);
    NewChanged(fs, owner, fs', owner', Entry(inum, 2), bmapstart, logged);
  }

  lemma IndirectChanged(fs: Fs, owner: Owners, fs': Fs, owner': Owners, inum: nat)
    requires Ownership(fs', owner') && inum in fs'.inodes && Addr(fs', inum, 12) != 0 && Ptr(fs', Entry(inum, 0)) != 0
    ensures BlockAt(fs', Addr(fs', inum, 12)) != Zeros(1024)
  {
    ZeroWord(0);
  }

  /** Block 11 was there and zero. */
  lemma OldChanged(fs: Fs, owner: Owners, fs': Fs, owner': Owners, inum: nat, bmapstart: nat, logged: set<nat>)
    requires Crowded(fs, owner, inum) && Ownership(fs', owner')
    requires Keeps(fs, fs') && Recorded(fs, fs', bmapstart, logged)
    requires BlockAt(fs', Addr(fs', inum, 11)) != Zeros(1024)
    ensures Addr(fs', inum, 11) != 0 && Addr(fs', inum, 11) in logged
  {
    BelowSize(fs, inum, 11264);
    assert Ptr(fs, Direct(inum, 11)) == Addr(fs, inum, 11) != 0;
    PtrInside(fs, owner, Direct(inum, 11));
    assert Ptr(fs', Direct(inum, 11)) == Addr(fs, inum, 11);
  }

  /** A block that was free and zero. */
  lemma NewChanged(fs: Fs, owner: Owners, fs': Fs, owner': Owners, s: Slot, bmapstart: nat, logged: set<nat>)
    requires Ownership(fs, owner) && Ownership(fs', owner') && Keeps(fs, fs') && Recorded(fs, fs', bmapstart, logged)
    requires IsSlot(fs, s) && Ptr(fs, s) == 0 && Ptr(fs', s) != 0
    requires forall b :: 0 <= b < |fs.used| && !fs.used[b] ==> BlockAt(fs, b) == Zeros(1024)
    requires BlockAt(fs', Ptr(fs', s)) != Zeros(1024)
    ensures Ptr(fs', s) in logged
  {
    NewIsFree(fs, owner, fs', owner', s);
  }

  function MapOf(bmapstart: nat, b: nat): nat {
    b / 8192 + bmapstart
  }

  /** The map blocks of the four new blocks. */
  function Maps(fs: Fs, inum: nat, bmapstart: nat): set<nat> {
    {MapOf(bmapstart, Addr(fs, inum, 12)), MapOf(bmapstart, Ptr(fs, Entry(inum, 0))),
     MapOf(bmapstart, Ptr(fs, Entry(inum, 1))), MapOf(bmapstart, Ptr(fs, Entry(inum, 2)))}
  }

  lemma NewMap(fs: Fs, owner: Owners, fs': Fs, owner': Owners, s: Slot, bmapstart: nat, logged: set<nat>)
    requires Ownership(fs, owner) && Ownership(fs', owner') && Keeps(fs, fs') && Recorded(fs, fs', bmapstart, logged)
    requires IsSlot(fs, s) && Ptr(fs, s) == 0 && Ptr(fs', s) != 0
    ensures var b := Ptr(fs', s);
      && fs.start <= b < |fs.used| && !fs.used[b] && MapOf(bmapstart, b) in logged && b in owner' && owner'[b] == s
  {
    NewIsFree(fs, owner, fs', owner', s);
    PtrInside(fs', owner', s);
  }

  lemma FourMaps(fs: Fs, owner: Owners, fs': Fs, owner': Owners, inum: nat, bmapstart: nat, logged: set<nat>)
    requires Crowded(fs, owner, inum) && Ownership(fs', owner')
    requires Keeps(fs, fs') && Recorded(fs, fs', bmapstart, logged)
    requires Addr(fs', inum, 12) != 0
    requires Ptr(fs', Entry(inum, 0)) != 0 && Ptr(fs', Entry(inum, 1)) != 0 && Ptr(fs', Entry(inum, 2)) != 0
    ensures |Maps(fs', inum, bmapstart)| == 4 && Maps(fs', inum, bmapstart) <= logged
    ensures forall b :: b in Maps(fs', inum, bmapstart) ==> bmapstart <= b < bmapstart + |fs.used| / 8192 + 1
  {
    hide FsOk, Ownership, Keeps, Recorded, Addr;
    CrowdedParts(fs, owner, inum);
    NewMap(fs, owner, fs', owner', Direct(inum, 12), bmapstart, logged);
    NewMap(fs, owner, fs', owner', Entry(inum, 0), bmapstart, logged);
    NewMap(fs, owner, fs', owner', Entry(inum, 1), bmapstart, logged);
    NewMap(fs, owner, fs', owner', Entry(inum, 2), bmapstart, logged);
    hide Ptr, Crowded;
    var a, b := Addr(fs', inum, 12), Ptr(fs', Entry(inum, 0));
    var c, d := Ptr(fs', Entry(inum, 1)), Ptr(fs', Entry(inum, 2));
    assert a != b && a != c && a != d && b != c && b != d && c != d;
    Apart(fs, owner, inum, a, b);
    Apart(fs, owner, inum, a, c);
    Apart(fs, owner, inum, a, d);
    Apart(fs, owner, inum, b, c);
    Apart(fs, owner, inum, b, d);
    Apart(fs, owner, inum, c, d);
    FourOf(MapOf(bmapstart, a), MapOf(bmapstart, b), MapOf(bmapstart, c), MapOf(bmapstart, d));
  }

  lemma FourOf(a: nat, b: nat, c: nat, d: nat)
    requires a != b && a != c && a != d && b != c && b != d && c != d
    ensures |{a, b, c, d}| == 4
  {
  }

  lemma CrowdedParts(fs: Fs, owner: Owners, inum: nat)
    requires Crowded(fs, owner, inum)
    ensures Ownership(fs, owner) && inum in fs.inodes && Ptr(fs, Direct(inum, 12)) == 0
    ensures forall j :: 0 <= j < 256 ==> Ptr(fs, Entry(inum, j)) == 0
  {
  }

  lemma Apart(fs: Fs, owner: Owners, inum: nat, a: nat, b: nat)
    requires Crowded(fs, owner, inum) && a < |fs.used| && b < |fs.used| && a != b && !fs.used[a] && !fs.used[b]
    ensures a / 8192 != b / 8192
  {
    hide FsOk;
  }

  /** Whatever writei does from there, if it keeps to its contract it logs ten blocks. */
  lemma LogsTen(fs: Fs, owner: Owners, fs': Fs, owner': Owners, inum: nat, src: seq<nat>, bmapstart: nat, inode: nat,
                logged: set<nat>)
    requires Crowded(fs, owner, inum) && Ones(src) && FsOk(fs', owner') && Keeps(fs, fs')
    requires Splices(fs, fs', inum, OFF, src) && Recorded(fs, fs', bmapstart, logged)
    requires inode in logged && inode < bmapstart && bmapstart + |fs.used| / 8192 < fs.start
    ensures |logged| >= 10
  {
    hide FsOk, Ownership, Splices, Recorded, Crowded, Changed, Maps;
    FiveLogged(fs, owner, fs', owner', inum, src, bmapstart, logged);
    FsParts(fs', owner', inum);
    FiveBlocks(fs', owner', inum);
    FourMaps(fs, owner, fs', owner', inum, bmapstart, logged);
    var data, maps := Changed(fs', inum), Maps(fs', inum, bmapstart);
    assert fs'.start == fs.start;
    assert data !! maps && inode !in data && inode !in maps;
    SubsetCount(data + maps + {inode}, logged);
  }

  // ----- Such a file system -----

  /** Free are the last blocks under map blocks 0 and 3, and the first under 1 and 2. */
  predicate Unused(b: nat) {
    b == 8191 || b == 8192 || b == 16384 || b == 24576
  }

  /** The t-th used data block. */
  function Nth(t: nat): nat {
    if t < 10 then 8181 + t else if t < 8201 then 8183 + t else 8184 + t
  }

  function Rank(b: nat): nat
    requires b >= 8181
  {
    if b < 8191 then b - 8181 else if b < 8193 then 0
    else if b < 16384 then b - 8183 else if b < 16385 then 0
    else b - 8184
  }

  /** Each of 1366 files has twelve blocks. */
  function Pointer(n: nat, i: nat): nat {
    if i < 12 then Nth(12 * n + i) else 0
  }

  function Twelve(n: nat): seq<nat> {
    seq<nat>(13, i requires 0 <= i => Pointer(n, i))
  }

  function Cleared(b: nat): seq<nat> {
    Zeros(1024)
  }

  ghost function Example(): Fs {
    Fs(seq(24577, b requires 0 <= b < 24577 => !Unused(b)),
       map b: nat | 0 <= b < 24577 :: Cleared(b),
       map n: nat | 0 <= n < 1366 :: Dinode(Twelve(n), if n == 0 then OFF else 12288),
       8181)
  }

  ghost function ExampleOwners(): Owners {
    map b: nat | 8181 <= b < 24577 && !Unused(b) :: Direct(Rank(b) / 12, Rank(b) % 12)
  }

  lemma RankOfNth(t: nat)
    requires t < 16392
    ensures 8181 <= Nth(t) < 24577 && !Unused(Nth(t)) && Rank(Nth(t)) == t
  {
  }

  lemma NthOfRank(b: nat)
    requires 8181 <= b < 24577 && !Unused(b)
    ensures Rank(b) < 16392 && Nth(Rank(b)) == b
  {
  }

  lemma ExamplePtr(s: Slot)
    requires IsSlot(Example(), s)
    ensures Ptr(Example(), s) == if s.Direct? && s.i < 12 then Nth(12 * s.inum + s.i) else 0
  {
  }

  lemma ExampleSlot(s: Slot)
    ensures SlotOk(Example(), ExampleOwners(), s)
  {
    if IsSlot(Example(), s) {
      ExamplePtr(s);
      if s.Direct? && s.i < 12 {
        var t := 12 * s.inum + s.i;
        RankOfNth(t);
        assert t / 12 == s.inum && t % 12 == s.i;
      }
    }
  }

  lemma ExampleOwner(b: nat)
    requires b in ExampleOwners()
    ensures OwnerOk(Example(), ExampleOwners(), b)
  {
    NthOfRank(b);
    var s := ExampleOwners()[b];
    assert s.inum < 1366 && 12 * s.inum + s.i == Rank(b);
    ExamplePtr(s);
  }

  lemma ExampleMapped(n: nat)
    requires n in Example().inodes
    ensures Mapped(Example(), n)
  {
    forall bn: nat | bn * 1024 < Example().inodes[n].size
      ensures Ptr(Example(), SlotOf(n, bn)) != 0
    {
      ExamplePtr(Direct(n, bn));
    }
  }

  /** There is one, and so ten blocks are reached. */
  lemma CrowdedExists()
    ensures Crowded(Example(), ExampleOwners(), 0)
  {
    hide SlotOk, OwnerOk, Mapped;
    var fs, owner := Example(), ExampleOwners();
    forall s
      ensures SlotOk(fs, owner, s)
    {
      ExampleSlot(s);
    }
    forall b | b in owner
      ensures OwnerOk(fs, owner, b)
    {
      ExampleOwner(b);
    }
    forall n | n in fs.inodes
      ensures Mapped(fs, n)
    {
      ExampleMapped(n);
    }
    assert FreeBlocks(fs.used) == {8191, 8192, 16384, 24576};
    ExamplePtr(Direct(0, 11));
    ExamplePtr(Direct(0, 12));
    forall j | 0 <= j < 256
      ensures Ptr(fs, Entry(0, j)) == 0
    {
      ExamplePtr(Entry(0, j));
    }
  }
}
