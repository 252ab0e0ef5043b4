/** balloc, bfree, bmap, readi, writei and itrunc of kernel/fs.c, and the chunks of
    filewrite in kernel/file.c.  The free map is kept in packed bytes, as on the disk. */
module FileSystem {
  import opened ByteSeq
  import opened Inode
  import opened FileWrites
  import T = TightWrite
  import X = FileCrash
  import B = Bits
  import P = LogProtocol

  class FileSystem {
    const bitmap: array<bv8>         // the bytes of the map blocks, one after the other
    const size: nat
    var blocks: map<nat, seq<nat>>
    var inodes: map<nat, Dinode>     // in memory
    var dinodes: map<nat, Dinode>    // on disk
    ghost var calls: seq<nat>        // the arguments of log_write since begin_op
    const start: nat
    const bmapstart: nat
    const inodestart: nat

    constructor (bitmap: array<bv8>, size: nat, start: nat, bmapstart: nat, inodestart: nat,
                 blocks: map<nat, seq<nat>>, dinodes: map<nat, Dinode>)
      ensures this.bitmap == bitmap && this.size == size && this.start == start
      ensures this.bmapstart == bmapstart && this.inodestart == inodestart
      ensures View() == Fs(Used(), blocks, dinodes, start) && this.dinodes == dinodes && calls == []
    {
      this.bitmap, this.size, this.start, this.bmapstart, this.inodestart := bitmap, size, start, bmapstart, inodestart;
      this.blocks, this.inodes, this.dinodes, this.calls := blocks, dinodes, dinodes, [];
    }

    /** One bit for each block of the disk. */
    ghost function Used(): seq<bool>
      reads bitmap
    {
      if size <= 8 * bitmap.Length then B.Unpacked(bitmap[..])[..size] else []
    }

    lemma UsedSize()
      ensures Used() != [] ==> |Used()| == size && size <= 8 * bitmap.Length
    {
    }

    ghost function View(): Fs
      reads this, bitmap
    {
      Fs(Used(), blocks, inodes, start)
    }

    ghost function Logged(): set<nat>
      reads this
    {
      P.Elements(calls)
    }

    ghost method LogBlock(b: nat)
      modifies this`calls
      ensures calls == old(calls) + [b] && Logged() == old(Logged()) + {b}
    {
      P.ElementsOfMore(calls, b);
      calls := calls + [b];
    }

    /** The bit of a block in the map: read, set and cleared with its mask. */
    method IsUsed(b: nat) returns (r: bool)
      requires b < |Used()|
      ensures r == Used()[b]
    {
      r := B.IsSet(bitmap, b);
    }

    method Mark(b: nat)
      requires b < |Used()|
      modifies bitmap
      ensures Used() == old(Used())[b := true]
    {
      B.Set(bitmap, b);
    }

    method Unmark(b: nat)
      requires b < |Used()|
      modifies bitmap
      ensures Used() == old(Used())[b := false]
    {
      B.Clear(bitmap, b);
    }

    /** BBLOCK and IBLOCK */
    function MapBlock(b: nat): nat {
      b / 8192 + bmapstart
    }

    function InodeBlock(inum: nat): nat {
      inum / 16 + inodestart
    }

    lemma SameMapBlock(base: nat, bi: nat)
      requires base % 8192 == 0 && bi < 8192
      ensures MapBlock(base + bi) == MapBlock(base) && (base + 8192) % 8192 == 0
    {
      var q := base / 8192;
      assert base == q * 8192 && base + bi == q * 8192 + bi;
    }

    /** balloc: the first free block, marked Used() and cleared; not ok when there is none
        and the kernel panics. */
    method Balloc() returns (ok: bool, b: nat)
      requires Shape(View())
      modifies this, bitmap
      ensures !ok ==> View() == old(View()) && Full(Used()) && Frees(old(Used())) == 0
      ensures ok ==> Frees(old(Used())) == Frees(Used()) + 1
      ensures ok ==> b < |old(Used())| && !old(Used())[b] && forall c :: 0 <= c < b ==> old(Used())[c]
      ensures ok ==> View() == Fs(old(Used())[b := true], old(blocks)[b := Zeros(1024)], old(inodes), start)
      ensures ok ==> Logged() == old(Logged()) + {MapBlock(b), b}
      ensures dinodes == old(dinodes)
    {
      hide Used, P.Elements, Frees, MapBlock;
      UsedSize();
      var base := 0;
      while base < size
        invariant base % 8192 == 0
        invariant View() == old(View()) && calls == old(calls) && dinodes == old(dinodes)
        invariant forall c :: 0 <= c < base && c < |Used()| ==> Used()[c]
      {
        var bi := 0;
        while bi < 8192 && base + bi < size
          invariant 0 <= bi <= 8192 && base % 8192 == 0
          invariant View() == old(View()) && calls == old(calls) && dinodes == old(dinodes)
          invariant forall c :: 0 <= c < base + bi && c < |Used()| ==> Used()[c]
        {
          var used := IsUsed(base + bi);
          if !used {
            b := base + bi;
            FreesTaken(Used(), b);
            Mark(b);
            LogBlock(MapBlock(base));
            SameMapBlock(base, bi);
            blocks := blocks[b := Zeros(1024)];
            LogBlock(b);
            return true, b;
          }
          bi := bi + 1;
        }
        SameMapBlock(base, 0);
        base := base + 8192;
      }
      FullHasNone(Used());
      ok, b := false, 0;
    }

    /** bfree: not ok (a panic) when the block is free already. */
    method Bfree(b: nat) returns (ok: bool)
      requires b < |Used()|
      modifies this, bitmap
      ensures ok == old(Used())[b]
      ensures ok ==> Used() == old(Used())[b := false] && Logged() == old(Logged()) + {MapBlock(b)}
      ensures blocks == old(blocks) && inodes == old(inodes) && dinodes == old(dinodes)
    {
      var used := IsUsed(b);
      if !used {
        return false;
      }
      Unmark(b);
      LogBlock(MapBlock(b));
      ok := true;
    }

    /** Store the number of a newly allocated block in its slot. */
    method Hook(s: Slot, b: nat, ghost fs: Fs)
      requires Shape(fs) && IsSlot(fs, s) && b < |fs.used| && (s.Entry? ==> Addr(fs, s.inum, 12) < |fs.used|)
      requires View() == Fs(fs.used[b := true], fs.blocks[b := Zeros(1024)], fs.inodes, fs.start)
      modifies this
      ensures View() == Attach(fs, s, b) && dinodes == old(dinodes)
      ensures Logged() == old(Logged()) + (if s.Entry? then {Addr(fs, s.inum, 12)} else {})
    {
      hide Used, P.Elements;
      match s {
        case Direct(inum, i) =>
          var addrs: seq<nat> := inodes[inum].addrs[i := b];
          inodes := inodes[inum := inodes[inum].(addrs := addrs)];
        case Entry(inum, j) =>
          var a := inodes[inum].addrs[12];
          var block: seq<nat> := WithWord(blocks[a], j, b);
          blocks := blocks[a := block];
          LogBlock(a);
      }
    }

    /** Give a new block to an empty slot. */
    method Fill(ghost owner: Owners, s: Slot) returns (ok: bool, b: nat, ghost owner': Owners)
      requires Ownership(View(), owner) && IsSlot(View(), s) && Ptr(View(), s) == 0
      requires s.Entry? ==> Addr(View(), s.inum, 12) != 0
      modifies this, bitmap
      ensures ok ==> Ownership(View(), owner') && Grows(old(View()), View()) && SameView(old(View()), View())
      ensures ok ==> b != 0 && b !in owner && owner' == owner[b := s] && Ptr(View(), s) == b
      ensures ok ==>
        Logged() == old(Logged()) + {MapBlock(b), b} + (if s.Entry? then {Addr(old(View()), s.inum, 12)} else {})
      ensures ok ==> forall t :: IsSlot(old(View()), t) && t != s ==> Ptr(View(), t) == Ptr(old(View()), t)
      ensures ok ==> Recorded(old(View()), View(), bmapstart, Logged())
      ensures !ok ==> Full(Used())
      ensures Frees(old(Used())) == if ok then Frees(Used()) + 1 else 0
      ensures dinodes == old(dinodes) && OnlyInode(old(View()), View(), s.inum)
    {
      hide Used, P.Elements, Ownership, Grows, SameView, Frees, Recorded, Attach, Full, OnlyInode;
      ghost var fs := View();
      OnlySelf(fs, s.inum);
      OwnershipShape(fs, owner);
      if s.Entry? {
        PtrInside(fs, owner, Direct(s.inum, 12));
      }
      owner' := owner;
      ok, b := Balloc();
      if !ok {
        return;
      }
      Hook(s, b, fs);
      owner' := owner[b := s];
      AttachKeeps(fs, owner, s, b);
      AttachGrows(fs, owner, s, b);
      AttachView(fs, owner, s, b);
      AttachPtrs(fs, owner, s, b);
      AttachRecorded(fs, s, b, bmapstart, Logged());
      FreeIsData(fs, owner, b);
      AttachUsed(fs, s, b);
      AttachOnly(fs, s, b);
    }

    /** bmap: the block of a file, allocated if need be; no file reads differently after. */
    method Bmap(inum: nat, bn: nat, ghost owner: Owners)
      returns (ok: bool, addr: nat, ghost owner': Owners, ghost bits: set<nat>)
      requires Ownership(View(), owner) && inum in inodes
      modifies this, bitmap
      ensures bn >= MAXFILE ==> !ok
      ensures !ok ==> bn >= MAXFILE || Full(Used())
      ensures ok ==> Ownership(View(), owner') && Grows(old(View()), View()) && SameView(old(View()), View())
      ensures ok ==> addr != 0 && addr == Ptr(View(), SlotOf(inum, bn))
      ensures bn < MAXFILE && Ptr(old(View()), SlotOf(inum, bn)) != 0 ==>
        ok && View() == old(View()) && Logged() == old(Logged()) && owner' == owner
      ensures ok ==> Recorded(old(View()), View(), bmapstart, Logged())
      ensures ok ==> |bits| <= NewBlocks(old(View()), inum, bn)
      ensures ok ==> old(Logged()) <= Logged()
      ensures ok ==> Logged() <= old(Logged()) + bits + {addr} + (if bn < 12 then {} else {Addr(View(), inum, 12)})
      ensures ok && bn < 12 ==> Addr(View(), inum, 12) == Addr(old(View()), inum, 12)
      ensures ok && bn >= 12 ==> Addr(View(), inum, 12) != 0
      ensures ok ==> Frees(old(Used())) == Frees(Used()) + NewBlocks(old(View()), inum, bn)
      ensures !ok && bn < MAXFILE ==> Frees(old(Used())) < NewBlocks(old(View()), inum, bn)
      ensures dinodes == old(dinodes) && OnlyInode(old(View()), View(), inum)
    {
      hide Used, P.Elements, Ownership, Grows, SameView, Recorded, Frees, OnlyInode;
      ghost var fs := View();
      GrowsSelf(fs);
      OnlySelf(fs, inum);
      RecordedNone(fs, bmapstart, Logged());
      OwnershipShape(fs, owner);
      owner' := owner;
      bits := {};
      ok := true;
      if bn < 12 {
        addr := inodes[inum].addrs[bn];
        if addr == 0 {
          ok, addr, owner' := Fill(owner, Direct(inum, bn));
          assert IsSlot(fs, Direct(inum, 12)) && Ptr(fs, Direct(inum, 12)) == Addr(fs, inum, 12);
          bits := {MapBlock(addr)};
        }
      } else if bn - 12 < 256 {
        ok, addr, owner', bits := BmapIndirect(inum, bn - 12, owner);
      } else {
        ok, addr := false, 0;
      }
    }

    /** The entry of an indirect block that is there. */
    method BmapEntry(inum: nat, j: nat, ghost owner: Owners)
      returns (ok: bool, addr: nat, ghost owner': Owners, ghost bits: set<nat>)
      requires Ownership(View(), owner) && inum in inodes && j < 256 && Addr(View(), inum, 12) != 0
      modifies this, bitmap
      ensures ok ==> Ownership(View(), owner') && Grows(old(View()), View()) && SameView(old(View()), View())
      ensures !ok ==> Full(Used()) && Frees(old(Used())) == 0 && Ptr(old(View()), Entry(inum, j)) == 0
      ensures ok ==> addr != 0 && addr == Ptr(View(), Entry(inum, j))
      ensures ok ==> Addr(View(), inum, 12) == Addr(old(View()), inum, 12)
      ensures Ptr(old(View()), Entry(inum, j)) != 0 ==>
        ok && View() == old(View()) && Logged() == old(Logged()) && owner' == owner
      ensures ok ==> Recorded(old(View()), View(), bmapstart, Logged())
      ensures ok ==> |bits| <= NewData(old(View()), inum, j + 12)
      ensures ok ==> old(Logged()) <= Logged() <= old(Logged()) + bits + {addr, Addr(View(), inum, 12)}
      ensures ok ==> Frees(old(Used())) == Frees(Used()) + NewData(old(View()), inum, j + 12)
      ensures dinodes == old(dinodes) && OnlyInode(old(View()), View(), inum)
    {
      hide Used, P.Elements, Ownership, Grows, SameView, Recorded, Full, Word, Shape, Frees, OnlyInode;
      ghost var fs := View();
      GrowsSelf(fs);
      OnlySelf(fs, inum);
      RecordedNone(fs, bmapstart, Logged());
      InodeShape(fs, owner, inum);
      PtrInside(fs, owner, Direct(inum, 12));
      owner', bits, ok := owner, {}, true;
      addr := Word(blocks[inodes[inum].addrs[12]], j);
      if addr == 0 {
        ok, addr, owner' := Fill(owner, Entry(inum, j));
        bits := {MapBlock(addr)};
        assert Ptr(fs, Direct(inum, 12)) == Addr(fs, inum, 12) && IsSlot(fs, Direct(inum, 12));
      }
    }

    /** The indirect half of bmap. */
    method BmapIndirect(inum: nat, j: nat, ghost owner: Owners)
      returns (ok: bool, addr: nat, ghost owner': Owners, ghost bits: set<nat>)
      requires Ownership(View(), owner) && inum in inodes && j < 256
      modifies this, bitmap
      ensures ok ==> Ownership(View(), owner') && Grows(old(View()), View()) && SameView(old(View()), View())
      ensures !ok ==> Full(Used())
      ensures ok ==> addr != 0 && addr == Ptr(View(), Entry(inum, j)) && Addr(View(), inum, 12) != 0
      ensures Ptr(old(View()), Entry(inum, j)) != 0 ==>
        ok && View() == old(View()) && Logged() == old(Logged()) && owner' == owner
      ensures ok ==> Recorded(old(View()), View(), bmapstart, Logged())
      ensures ok ==> |bits| <= NewBlocks(old(View()), inum, j + 12)
      ensures ok ==> old(Logged()) <= Logged() <= old(Logged()) + bits + {addr, Addr(View(), inum, 12)}
      ensures ok ==> Frees(old(Used())) == Frees(Used()) + NewBlocks(old(View()), inum, j + 12)
      ensures !ok ==> Frees(old(Used())) < NewBlocks(old(View()), inum, j + 12)
      ensures dinodes == old(dinodes) && OnlyInode(old(View()), View(), inum)
    {
      hide Used, P.Elements, Ownership, Grows, SameView, Recorded, Full, Word, Shape, Frees, OnlyInode;
      ghost var fs := View();
      GrowsSelf(fs);
      OnlySelf(fs, inum);
      RecordedNone(fs, bmapstart, Logged());
      InodeShape(fs, owner, inum);
      owner' := owner;
      bits := {};
      var ind := inodes[inum].addrs[12];
      if ind == 0 {
        ok, ind, owner' := Fill(owner, Direct(inum, 12));
        if !ok {
          addr := 0;
          return;
        }
        bits := {MapBlock(ind)};
      }
      ghost var fs1, l1 := View(), Logged();
      SlotKept(fs, fs1, Entry(inum, j));
      ghost var more;
      ok, addr, owner', more := BmapEntry(inum, j, owner');
      OnlyTwice(fs, fs1, View(), inum);
      if ok {
        bits := bits + more;
        GrowsBoth(fs, fs1, View());
        ViewTwice(fs, fs1, View());
        RecordedBoth(fs, fs1, View(), bmapstart, l1, Logged());
      }
    }

    /** One turn of writei's loop.  The block is found, and allocated if need be, before
        the copy from the source is tried. */
    method WriteChunk(inum: nat, pos: nat, part: seq<nat>, readable: bool, ghost owner: Owners)
      returns (ok: bool, ghost owner': Owners, ghost d: nat, ghost bits: set<nat>)
      requires Ownership(View(), owner) && inum in inodes && pos < MAXFILE * 1024 && pos % 1024 + |part| <= 1024
      modifies this, bitmap
      ensures ok ==> Ownership(View(), owner') && Grows(old(View()), View())
      ensures ok ==> Wrote(old(View()), View(), inum, pos, if readable then part else [])
      ensures ok ==> Recorded(old(View()), View(), bmapstart, Logged())
      ensures !ok ==> Full(Used())
      ensures ok ==> Ptr(View(), SlotOf(inum, pos / 1024)) != 0
      ensures ok ==> old(Logged()) <= Logged() <= old(Logged()) + {d} + bits + IndirectOf(View(), inum)
      ensures ok ==>
        |bits| <= NewData(old(View()), inum, pos / 1024) + IndirectMade(old(View()), View(), inum)
      ensures ok ==>
        Frees(old(Used()))
        == Frees(Used()) + NewData(old(View()), inum, pos / 1024) + IndirectMade(old(View()), View(), inum)
      ensures !ok ==> Frees(old(Used())) < NewBlocks(old(View()), inum, pos / 1024)
      ensures dinodes == old(dinodes) && OnlyInode(old(View()), View(), inum)
    {
      hide Used, P.Elements, Ownership, Grows, SameView, Recorded, Wrote, Frees;
      ghost var fs := View();
      var addr;
      ok, addr, owner', bits := Bmap(inum, pos / 1024, owner);
      d := addr;
      if !ok {
        return;
      }
      ghost var fs1, l1, bn := View(), Logged(), pos / 1024;
      SameInodes(fs, fs1);
      assert IsSlot(fs1, SlotOf(inum, bn));
      if !readable {
        WroteNone(fs, fs1, inum, pos);
        return;
      }
      PtrInside(fs1, owner', SlotOf(inum, bn));
      PatchKeeps(fs1, owner', inum, bn, pos % 1024, part);
      PatchWrote(fs1, owner', inum, bn, pos % 1024, part);
      PatchRecorded(fs1, addr, pos % 1024, part, bmapstart, Logged() + {addr});
      blocks := blocks[addr := Patched(blocks[addr], pos % 1024, part)];
      LogBlock(addr);
      assert View() == PatchBlock(fs1, addr, pos % 1024, part);
      GrowsBoth(fs, fs1, View());
      ViewThenWrote(fs, fs1, View(), inum, pos, part);
      RecordedBoth(fs, fs1, View(), bmapstart, l1, Logged());
      SlotKept(fs1, View(), SlotOf(inum, bn));
      IndirectStays(fs1, View(), inum);
    }

    /** What one turn needs to know of the loop so far. */
    ghost predicate Underway(fs: Fs, l0: set<nat>, owner: Owners, data: set<nat>, bits: set<nat>, inum: nat, off: nat,
                             done: seq<nat>, n: nat)
      reads this, bitmap
    {
      && Progress(fs, View(), owner, l0, Logged(), data, bits, bmapstart, inum, off, done, n)
      && Spent(fs, View(), inum, off, n)
    }

    /** One turn of writei's loop, with `done` bytes written. */
    method WriteTurn(inum: nat, off: nat, src: seq<nat>, done: nat, readable: bool,
                     ghost fs: Fs, ghost l0: set<nat>, ghost owner: Owners, ghost data: set<nat>, ghost bits: set<nat>)
      returns (ok: bool, ghost owner': Owners, ghost data': set<nat>, ghost bits': set<nat>)
      requires inum in fs.inodes && |fs.inodes[inum].addrs| == 13 && Mapped(fs, inum)
      requires off <= fs.inodes[inum].size && off + |src| <= MAXFILE * 1024
      requires done < |src| && (done > 0 ==> (off + done) % 1024 == 0)
      requires Underway(fs, l0, owner, data, bits, inum, off, src[..done], done)
      modifies this, bitmap
      ensures !ok ==> Full(Used()) && Frees(fs.used) <= Allocated(off, |src|)
      ensures ok ==> var m := Piece(off + done, |src| - done);
        m <= |src| - done
        && Underway(fs, l0, owner', data', bits', inum, off, src[..if readable then done + m else done], done + m)
      ensures dinodes == old(dinodes) && OnlyInode(old(View()), View(), inum)
    {
      hide Used, P.Elements, Ownership, Progress, Grows, Recorded, Wrote, Mapped, NewData, IndirectOf, IndirectMade,
           Spent, Frees, Allocated, NewBlocks, Piece;
      data', bits' := data, bits;
      var pos := off + done;
      var m := Piece(pos, |src| - done);
      PieceFits(pos, |src| - done);
      ghost var fs1, l1 := View(), Logged();
      ghost var d, more;
      ghost var part := src[done..done + m];
      ProgressInode(fs, fs1, owner, l0, l1, data, bits, bmapstart, inum, off, src[..done], done);
      ProgressGrows(fs, fs1, owner, l0, l1, data, bits, bmapstart, inum, off, src[..done], done);
      AllocStep(fs, fs1, inum, off, done, m);
      ok, owner', d, more := WriteChunk(inum, pos, src[done..done + m], readable, owner);
      if !ok {
        SpentAll(fs, fs1, inum, off, done, m, |src|);
        return;
      }
      SpentMore(fs, fs1, View(), inum, off, done, m);
      ghost var stored := if readable then part else [];
      ProgressMore(fs, fs1, View(), owner, owner', l0, l1, Logged(), data, bits, d, more, bmapstart, inum, off,
                   src[..done], part, stored);
      data', bits' := data + {d}, bits + more;
      assert src[..done] + stored == src[..if readable then done + m else done];
    }

    /** The loop of writei: `done` bytes are written before it ends. */
    method WriteAll(inum: nat, off: nat, addr: nat, src: seq<nat>, bad: set<nat>, ghost owner: Owners)
      returns (ok: bool, done: nat, ghost owner': Owners, ghost data: set<nat>, ghost bits: set<nat>, ghost n: nat)
      requires Ownership(View(), owner) && inum in inodes && Mapped(View(), inum)
      requires off <= inodes[inum].size && off + |src| <= MAXFILE * 1024
      modifies this, bitmap
      ensures !ok ==> Full(Used()) && Frees(old(Used())) <= Allocated(off, |src|)
      ensures ok ==> done == Copied(off, addr, |src|, bad) && n <= |src|
      ensures ok ==>
        Progress(old(View()), View(), owner', old(Logged()), Logged(), data, bits, bmapstart, inum, off, src[..done], n)
      ensures dinodes == old(dinodes) && OnlyInode(old(View()), View(), inum)
    {
      hide Used, P.Elements, Ownership, Progress, Mapped, Readable, Copied, Piece, Spent, Frees, Allocated, OnlyInode;
      ghost var fs, l0 := View(), Logged();
      OnlySelf(fs, inum);
      OwnershipShape(fs, owner);
      ProgressNone(fs, owner, l0, bmapstart, inum, off);
      SpentNone(fs, inum, off);
      owner', data, bits := owner, {}, {};
      done, n := 0, 0;
      assert src[..0] == [];
      while done < |src|
        invariant 0 <= done <= |src| && n == done && (0 < done < |src| ==> (off + done) % 1024 == 0)
        invariant Underway(fs, l0, owner', data, bits, inum, off, src[..done], done) && OnlyInode(fs, View(), inum)
        invariant Copied(off, addr, |src|, bad) == done + Copied(off + done, addr + done, |src| - done, bad)
        invariant dinodes == old(dinodes)
      {
        var m := Piece(off + done, |src| - done);
        var readable := Readable(bad, addr + done, m);
        CopiedTurn(off + done, addr + done, |src| - done, bad);
        PieceEnds(off + done, |src| - done);
        ghost var fs1 := View();
        ok, owner', data, bits := WriteTurn(inum, off, src, done, readable, fs, l0, owner', data, bits);
        OnlyTwice(fs, fs1, View(), inum);
        if !ok {
          return;
        }
        n := done + m;
        if !readable {
          return;
        }
        done := done + m;
      }
      CopiedTurn(off + done, addr + done, 0, bad);
      ok := true;
    }

    method Iupdate(inum: nat)
      requires inum in inodes
      modifies this, bitmap
      ensures View() == old(View()) && dinodes == old(dinodes)[inum := inodes[inum]]
      ensures calls == old(calls) + [InodeBlock(inum)] && Logged() == old(Logged()) + {InodeBlock(inum)}
    {
      hide Used, P.Elements;
      dinodes := dinodes[inum := inodes[inum]];
      LogBlock(InodeBlock(inum));
    }

    /** writei, from memory at `addr` that holds src, where copyin refuses the addresses in
        `bad` (none if the source is kernel memory).  -1 and no change; or |src|, with src
        in the file from `off` on as far as it was copied.  Not ok when balloc panics,
        which it does only on a full disk. */
    method Writei(inum: nat, off: nat, addr: nat, src: seq<nat>, bad: set<nat>, ghost owner: Owners)
      returns (ok: bool, r: int, ghost owner': Owners, ghost sofar: seq<nat>, ghost touched: set<nat>)
      requires FsOk(View(), owner) && inum in inodes && off < 0x1_0000_0000 && |src| < 0x1_0000_0000
      modifies this, bitmap
      ensures !ok ==> Full(Used()) && Frees(old(Used())) <= Allocated(off, |src|)
      ensures ok ==> r == -1 || r == |src|
      ensures ok ==> (r == -1 <==> off > old(inodes)[inum].size || off + |src| > MAXFILE * 1024)
      ensures ok && r <= 0 ==> View() == old(View()) && owner' == owner
      ensures ok && r >= 0 ==> FsOk(View(), owner') && Keeps(old(View()), View())
      ensures ok && r >= 0 ==> OnlyInode(old(View()), View(), inum)
      ensures ok && r >= 0 ==> Splices(old(View()), View(), inum, off, src[..Copied(off, addr, |src|, bad)])
      ensures ok && r >= 0 ==> Recorded(old(View()), View(), bmapstart, Logged())
      ensures ok && r > 0 ==> dinodes == old(dinodes)[inum := inodes[inum]]
      ensures ok && r <= 0 ==> calls == old(calls) && dinodes == old(dinodes)
      ensures ok && r > 0 ==> calls == sofar + [InodeBlock(inum)] && |touched| < WriteCost(off, |src|)
      ensures ok && r > 0 ==> old(Logged()) <= P.Elements(sofar) <= old(Logged()) + touched
    {
      hide Used, P.Elements, FsOk, Ownership, Progress, Splices, Recorded, Account, Mapped, IndirectOf, Copied,
           WriteCost, Keeps, Frees;
      owner', sofar, touched := owner, [], {};
      var size := inodes[inum].size;
      if off > size || (off + |src|) % 0x1_0000_0000 < off {
        SizeBound(View(), owner, inum);
        return true, -1, owner', sofar, touched;
      }
      if off + |src| > MAXFILE * 1024 {
        return true, -1, owner', sofar, touched;
      }
      ghost var fs, l0 := View(), Logged();
      if |src| == 0 {
        NothingWritten(fs, inum, off, addr, bad, bmapstart, l0);
        assert src[..0] == [];
        OnlySelf(fs, inum);
        return true, 0, owner', sofar, touched;
      }
      ghost var data, bits, n;
      FsParts(fs, owner, inum);
      var done;
      ok, done, owner', data, bits, n := WriteAll(inum, off, addr, src, bad, owner);
      r := |src|;
      if !ok {
        return;
      }
      ghost var fs1, l1 := View(), Logged();
      WriteDone(fs, fs1, owner, owner', l0, l1, data, bits, bmapstart, inum, off, src[..done], n);
      ProgressKeeps(fs, fs1, owner', l0, l1, data, bits, bmapstart, inum, off, src[..done], n, off + done);
      ProgressAccount(fs, fs1, owner', l0, l1, data, bits, bmapstart, inum, off, src[..done], n);
      CostOf(fs, fs1, l0, l1, data, bits, inum, off, n);
      CostGrows(off, n, |src|);
      touched := data + bits + IndirectOf(fs1, inum);
      if off + done > inodes[inum].size {
        inodes := inodes[inum := inodes[inum].(size := off + done)];
      }
      assert View() == Resized(fs1, inum, off + done);
      sofar := calls;
      Iupdate(inum);
      RecordedMore(fs, View(), bmapstart, l1, Logged());
    }

    /** bmap and bread of one turn of readi's loop: m bytes of the file from `pos` on. */
    method ReadPiece(inum: nat, pos: nat, m: nat, ghost owner: Owners) returns (part: seq<nat>)
      requires FsOk(View(), owner) && inum in inodes && 0 < m && pos % 1024 + m <= 1024 && pos + m <= inodes[inum].size
      modifies this, bitmap
      ensures View() == old(View()) && Logged() == old(Logged()) && dinodes == old(dinodes)
      ensures part == Content(View(), inum)[pos..pos + m]
    {
      hide Used, P.Elements, FsOk, Ownership, Mapped, ByteIn, SameView, Grows, Recorded, Content, Ptr, NewBlocks,
           Frees, Full;
      FsParts(View(), owner, inum);
      BelowSize(View(), inum, pos);
      var ok, block;
      ghost var same, bits;
      ok, block, same, bits := Bmap(inum, pos / 1024, owner);
      PtrInside(View(), owner, SlotOf(inum, pos / 1024));
      BlockSlice(View(), inum, pos, m);
      part := blocks[block][pos % 1024..pos % 1024 + m];
    }

    /** readi, to memory at `addr` where copyout refuses the addresses in `bad`: the slice
        of the contents from `off`, cut at the size, as far as it was copied. */
    method Readi(inum: nat, off: nat, n: nat, addr: nat, bad: set<nat>, ghost owner: Owners)
      returns (r: int, dst: seq<nat>)
      requires FsOk(View(), owner) && inum in inodes && off < 0x1_0000_0000 && n < 0x1_0000_0000
      modifies this, bitmap
      ensures View() == old(View()) && Logged() == old(Logged()) && dinodes == old(dinodes)
      ensures r == -1 <==> off > inodes[inum].size || off + n >= 0x1_0000_0000
      ensures r != -1 ==> r == if off + n > inodes[inum].size then inodes[inum].size - off else n
      ensures r != -1 ==> |dst| == Copied(off, addr, r, bad) && dst == Content(View(), inum)[off..off + |dst|]
    {
      hide Used, P.Elements, FsOk, Content, Readable, Copied, Piece;
      dst := [];
      var size := inodes[inum].size;
      if off > size || (off + n) % 0x1_0000_0000 < off {
        return -1, dst;
      }
      var len := if off + n > size then size - off else n;
      r := len;
      ghost var content := Content(View(), inum);
      SizeBound(View(), owner, inum);
      while |dst| < len
        invariant |dst| <= len && View() == old(View()) && Logged() == old(Logged()) && dinodes == old(dinodes)
        invariant dst == content[off..off + |dst|]
        invariant Copied(off, addr, len, bad) == |dst| + Copied(off + |dst|, addr + |dst|, len - |dst|, bad)
      {
        var pos := off + |dst|;
        var m := Piece(pos, len - |dst|);
        CopiedTurn(pos, addr + |dst|, len - |dst|, bad);
        var part := ReadPiece(inum, pos, m, owner);
        if !Readable(bad, addr + |dst|, m) {
          return;
        }
        SliceJoin(content, off, pos, pos + m);
        dst := dst + part;
      }
      CopiedTurn(off + len, addr + len, 0, bad);
    }

    /** One turn of the loop of filewrite, a transaction of its own: it logs every block it
        changes, at most MAXOPBLOCKS of them, and they fit what begin_op has reserved. */
    method WriteOnce(inum: nat, off: nat, addr: nat, src: seq<nat>, bad: set<nat>, ghost owner: Owners)
      returns (ok: bool, r: int, ghost owner': Owners)
      requires FsOk(View(), owner) && inum in inodes && off < 0x1_0000_0000 && |src| <= CHUNK && calls == []
      modifies this, bitmap
      ensures !ok ==> Full(Used()) && Frees(old(Used())) <= Allocated(off, |src|)
      ensures ok ==> r == if off > old(inodes)[inum].size || off + |src| > MAXFILE * 1024 then -1 else |src|
      ensures ok && r == -1 ==> View() == old(View()) && owner' == owner
      ensures ok && r >= 0 ==> FsOk(View(), owner') && Keeps(old(View()), View())
      ensures ok && r >= 0 ==> Splices(old(View()), View(), inum, off, src[..Copied(off, addr, |src|, bad)])
      ensures ok ==> |Logged()| <= P.MAXOPBLOCKS && P.Fits(calls) && Recorded(old(View()), View(), bmapstart, Logged())
      ensures ok && (r > 0 || dinodes != old(dinodes)) ==> InodeBlock(inum) in Logged()
      ensures ok && r >= 0 ==>
        X.Chunk(old(View()), View(), inum, off, src[..Copied(off, addr, |src|, bad)], bmapstart, inodestart, Logged())
      ensures ok && old(dinodes) == old(inodes) ==> dinodes == inodes
    {
      hide Used, P.Elements, FsOk, Ownership, Splices, Recorded, Copied, WriteCost, Keeps, Frees;
      ghost var fs, sofar, touched := View(), [], {};
      ok, r, owner', sofar, touched := Writei(inum, off, addr, src, bad, owner);
      if ok && r > 0 {
        ChunkFits(off, |src|);
        P.NoElements();
        P.ElementsOfMore(sofar, InodeBlock(inum));
        SubsetCount(P.Elements(sofar), touched);
        assert calls[..|calls| - 1] == sofar;
      } else if ok {
        P.NoElements();
        RecordedNone(fs, bmapstart, Logged());
      }
      if ok && r >= 0 {
        SameOthers(fs, View(), inum);
      }
    }

    /** Ten blocks are reached: in a crowded file system a chunk that starts inside the
        twelfth block of a file logs exactly that many. */
    method WriteTen(inum: nat, addr: nat, src: seq<nat>, ghost owner: Owners) returns (r: int, ghost owner': Owners)
      requires T.Crowded(View(), owner, inum) && T.Ones(src) && calls == []
      requires InodeBlock(inum) < bmapstart && bmapstart + |Used()| / 8192 < start
      modifies this, bitmap
      ensures r == |src| && |Logged()| == P.MAXOPBLOCKS
    {
      hide Used, P.Elements, FsOk, Splices, Recorded, Copied, Keeps, Frees;
      ghost var fs := View();
      var ok;
      CopiedAllIff(T.OFF, addr, |src|, {});
      ok, r, owner' := WriteOnce(inum, T.OFF, addr, src, {}, owner);
      T.FourAreEnough(fs, owner, inum);
      assert src[..|src|] == src;
      T.LogsTen(fs, owner, View(), owner', inum, src, bmapstart, InodeBlock(inum), Logged());
    }

    /** filewrite of a file that is an inode: chunk by chunk, as Chunks says. */
    method FileWrite(inum: nat, off: nat, addr: nat, src: seq<nat>, bad: set<nat>, ghost owner: Owners)
      returns (ok: bool, ret: int, off': nat, ghost owner': Owners)
      requires FsOk(View(), owner) && inum in inodes && off < 0x1_0000_0000 && |src| < 0x8000_0000
      modifies this, bitmap
      ensures !ok ==> Full(Used())
      ensures ok ==> FsOk(View(), owner') && inodes.Keys == old(inodes.Keys)
      ensures ok ==> var o := Chunks(old(Content(View(), inum)), off, addr, src, bad);
        Content(View(), inum) == o.content && off' == o.off && ret == if o.finished then |src| else -1
      ensures ok ==> forall n :: n in inodes && n != inum ==> Content(View(), n) == old(Content(View(), n))
    {
      hide Used, P.Elements, FsOk, Recorded, Copied, Spliced, Content, Chunks, X.Chunk, Full;
      owner', off' := owner, off;
      ghost var fs := View();
      var i := 0;
      assert src[0..] == src;
      while i < |src|
        invariant 0 <= i <= |src| && off' == off + i && (i > 0 ==> off' <= MAXFILE * 1024)
        invariant FsOk(View(), owner') && inodes.Keys == fs.inodes.Keys
        invariant forall n :: n in inodes && n != inum ==> Content(View(), n) == Content(fs, n)
        invariant Ends(Chunks(Content(fs, inum), off, addr, src, bad),
                       Chunks(Content(View(), inum), off', addr + i, src[i..], bad))
      {
        var n1 := ChunkOf(|src| - i);
        ghost var fs1 := View();
        SizeBound(fs1, owner', inum);
        calls := [];
        var r;
        ok, r, owner' := WriteOnce(inum, off', addr + i, src[i..i + n1], bad, owner');
        if !ok {
          ret := 0;
          return;
        }
        ghost var content, rest := Content(fs1, inum), src[i..];
        if r < 0 {
          ChunksStop(content, off', addr + i, rest, bad);
          break;
        }
        ghost var w := Copied(off', addr + i, n1, bad);
        assert src[i..i + n1][..w] == rest[..w] && rest[n1..] == src[i + n1..];
        ChunksTurn(content, off', addr + i, rest, bad);
        off' := off' + r;
        i := i + r;
      }
      if i == |src| {
        ChunksStop(Content(View(), inum), off', addr + i, src[i..], bad);
      }
      ok := true;
      ret := if i == |src| then |src| else -1;
    }

    /** itrunc: exactly the blocks of the inode go back, and bfree never panics. */
    method Itrunc(inum: nat, ghost owner: Owners)
      requires FsOk(View(), owner) && inum in inodes
      modifies this, bitmap
      ensures View() == Truncated(old(View()), owner, inum) && FsOk(View(), KeptOwners(owner, inum))
      ensures dinodes == old(dinodes)[inum := inodes[inum]]
    {
      hide Used, P.Elements, FsOk, Ownership, UsedAfter, ClearedTo;
      ghost var fs := View();
      FsParts(fs, owner, inum);
      OwnershipShape(fs, owner);
      UsedAfterNone(Used(), owner, inum);
      ClearedNone(fs, inum);
      var i := 0;
      while i < 12
        invariant 0 <= i <= 12 && blocks == fs.blocks && dinodes == old(dinodes)
        invariant Used() == UsedAfter(fs.used, owner, inum, i, 0) && inodes == ClearedTo(fs, inum, i) && inum in inodes
      {
        ClearedMore(fs, inum, i);
        UsedAfterSlot(fs, owner, Direct(inum, i), i, 0, i + 1, 0);
        var b := inodes[inum].addrs[i];
        if b != 0 {
          var ok := Bfree(b);
          assert ok;
          var addrs: seq<nat> := inodes[inum].addrs[i := 0];
          inodes := inodes[inum := inodes[inum].(addrs := addrs)];
        }
        i := i + 1;
      }
      ClearedMore(fs, inum, 12);
      FreeIndirect(inum, fs, owner);
      ClearedAll(fs, inum);
      inodes := inodes[inum := inodes[inum].(size := 0)];
      Iupdate(inum);
      TruncatedOk(fs, owner, inum);
    }

    /** The second half of itrunc: the entries of the indirect block, then the block itself. */
    method FreeIndirect(inum: nat, ghost fs: Fs, ghost owner: Owners)
      requires Ownership(fs, owner) && inum in fs.inodes && blocks == fs.blocks
      requires inum in inodes && |inodes[inum].addrs| == 13 && inodes[inum].addrs[12] == Addr(fs, inum, 12)
      requires Used() == UsedAfter(fs.used, owner, inum, 12, 0)
      modifies this, bitmap
      ensures blocks == old(blocks) && Used() == UsedAfter(fs.used, owner, inum, 13, 256) && dinodes == old(dinodes)
      ensures inodes == old(inodes)[inum := old(inodes)[inum].(addrs := old(inodes)[inum].addrs[12 := 0])]
    {
      hide Used, P.Elements, Ownership, UsedAfter;
      var ind := inodes[inum].addrs[12];
      if ind == 0 {
        NoEntries(fs, owner, inum);
        assert inodes[inum].addrs == inodes[inum].addrs[12 := 0];
        return;
      }
      PtrInside(fs, owner, Direct(inum, 12));
      var j := 0;
      while j < 256
        invariant 0 <= j <= 256 && blocks == old(blocks) && inodes == old(inodes) && dinodes == old(dinodes)
        invariant Used() == UsedAfter(fs.used, owner, inum, 12, j)
      {
        var b := Word(blocks[ind], j);
        UsedAfterSlot(fs, owner, Entry(inum, j), 12, j, 12, j + 1);
        if b != 0 {
          var ok := Bfree(b);
          assert ok;
        }
        j := j + 1;
      }
      UsedAfterSlot(fs, owner, Direct(inum, 12), 12, 256, 13, 256);
      var ok := Bfree(ind);
      assert ok;
      var addrs: seq<nat> := inodes[inum].addrs[12 := 0];
      inodes := inodes[inum := inodes[inum].(addrs := addrs)];
    }
  }
}
