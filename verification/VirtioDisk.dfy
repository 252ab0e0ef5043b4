/** The driver's side of kernel/virtio_disk.c: its loops over the descriptors and rings,
    each section run under the lock. */
module VirtioDisk {
  import opened Virtio

  class Driver {
    var disk: Disk

    method AllocDesc() returns (i: int)
      requires Sizes(disk)
      modifies this
      ensures i == -1 ==> disk == old(disk) && Count(disk.free) == 0
      ensures i != -1 ==> 0 <= i < 8 && old(disk).free[i] && disk == old(disk).(free := old(disk).free[i := false])
      ensures Sizes(disk)
    {
      i := 0;
      while i < 8
        invariant 0 <= i <= 8 && disk == old(disk) && Sizes(disk)
        invariant forall k :: 0 <= k < i ==> !disk.free[k]
      {
        if disk.free[i] {
          disk := disk.(free := disk.free[i := false]);
          return;
        }
        i := i + 1;
      }
      NoneFree(disk.free);
      i := -1;
    }

    /** free_desc; not ok where the kernel panics. */
    method Free(i: nat) returns (ok: bool)
      requires Sizes(disk)
      modifies this
      ensures ok <==> i < 8 && !old(disk).free[i]
      ensures if ok then disk == FreeDesc(old(disk), i) else disk == old(disk)
    {
      if i >= 8 {
        return false;
      }
      if disk.free[i] {
        return false;
      }
      disk := disk.(desc := disk.desc[i := disk.desc[i].(addr := Nothing)], free := disk.free[i := true]);
      ok := true;
    }

    /** free_chain along the links of a chain. */
    method FreeChain(h: nat, ghost r: Req) returns (ok: bool)
      requires Sizes(disk) && ChainOk(disk, h, r)
      requires !disk.free[h] && !disk.free[r.mid] && !disk.free[r.tail]
      modifies this
      ensures ok && disk == FreeDesc(FreeDesc(FreeDesc(old(disk), h), r.mid), r.tail)
    {
      ghost var d := disk;
      ghost var turn := 0;
      var i := h;
      while true
        invariant 0 <= turn <= 2
        invariant turn == 0 ==> i == h && disk == d
        invariant turn == 1 ==> i == r.mid && disk == FreeDesc(d, h)
        invariant turn == 2 ==> i == r.tail && disk == FreeDesc(FreeDesc(d, h), r.mid)
        decreases 2 - turn
      {
        ok := Free(i);
        if !ok {
          return;
        }
        if disk.desc[i].hasNext {
          i := disk.desc[i].next;
          turn := turn + 1;
        } else {
          return;
        }
      }
    }

    /** alloc3_desc: three descriptors or none. */
    method Alloc3() returns (ok: bool, idx: seq<nat>)
      requires Sizes(disk)
      modifies this
      ensures Sizes(disk)
      ensures ok <==> Count(old(disk).free) >= 3
      ensures ok ==> |idx| == 3 && Taken(old(disk), idx, disk)
      ensures !ok ==> disk.free == old(disk).free && OnlyFreeDescs(old(disk), disk)
    {
      ghost var d := disk;
      idx := [];
      TakenNone(d);
      while |idx| < 3
        invariant Sizes(disk) && |idx| <= 3 && Taken(d, idx, disk) && Count(disk.free) + |idx| == Count(d.free)
      {
        ghost var d1 := disk;
        var i := AllocDesc();
        if i < 0 {
          UndoAlloc(d, idx);
          return false, [];
        }
        CountUpdate(d1.free, i, false);
        TakenMore(d, idx, d1, i);
        idx := idx + [i];
      }
      ok := true;
    }

    /** The failure path of alloc3_desc. */
    method UndoAlloc(ghost d: Disk, idx: seq<nat>)
      requires Sizes(d) && Sizes(disk) && Taken(d, idx, disk)
      modifies this
      ensures Sizes(disk) && disk.free == d.free && OnlyFreeDescs(d, disk)
    {
      var j := 0;
      while j < |idx|
        invariant 0 <= j <= |idx| && Sizes(disk) && Undone(d, idx, j, disk)
      {
        NextTaken(d, idx, j, disk);
        ghost var d1 := disk;
        var ok := Free(idx[j]);
        assert ok;
        UndoneMore(d, idx, j, d1);
        j := j + 1;
      }
      UndoneAll(d, idx, disk);
    }

    /** virtio_disk_rw up to its wait: with three descriptors free the request is offered to
        the device; otherwise nothing is and the caller sleeps. */
    method Submit(buf: nat, write: bool, sector: nat, ghost s: State) returns (ok: bool, h: nat, ghost s': State)
      requires Inv(s) && s.disk == disk && s.pending == None && forall g :: g in s.req ==> s.req[g].buf != buf
      modifies this
      ensures Inv(s') && s'.disk == disk && s'.pending == None
      ensures ok <==> Count(old(disk).free) >= 3
      ensures !ok ==> s' == s.(disk := disk) && disk.free == old(disk).free
      ensures ok ==> h in s'.req && s'.req[h].buf == buf && s'.req[h].write == write && s'.req[h].sector == sector
      ensures ok ==> s'.offered == s.offered + [h] && s'.finished == s.finished
      ensures ok ==> s'.seen == s.seen && s'.working == s.working
    {
      hide Inv, Count;
      InvSizes(s);
      var idx;
      ok, idx := Alloc3();
      h := 0;
      s' := s.(disk := disk);
      if !ok {
        FreeDescsIrrelevant(s, disk);
        return;
      }
      var a, b, c := idx[0], idx[1], idx[2];
      TakenThree(s.disk, idx, disk);
      PrepareKeeps(s, a, b, c, buf, write, sector);
      disk := disk.(desc := disk.desc[a := Desc(Header(write, sector), b, true, false)]);
      disk := disk.(desc := disk.desc[b := Desc(Data(buf), c, true, !write)]);
      disk := disk.(status := disk.status[a := 0]);
      disk := disk.(desc := disk.desc[c := Desc(Status(a), 0, false, true)]);
      disk := disk.(busy := disk.busy + {buf});
      disk := disk.(info := disk.info[a := Some(buf)]);
      disk := disk.(avail := disk.avail[disk.availIdx % 8 := a]);
      s' := Prepared(s, a, b, c, buf, write, sector);
      assert disk == s'.disk;
      PublishKeeps(s');
      disk := disk.(availIdx := (disk.availIdx + 1) % 65536);
      s' := Published(s');
      h := a;
    }

    /** virtio_disk_intr: every completion reported so far is handled, without a panic. */
    method Interrupt(ghost s: State) returns (ok: bool, ghost s': State)
      requires Inv(s) && s.disk == disk && s.pending == None
      modifies this
      ensures ok && Inv(s') && s'.disk == disk && s'.finished == [] && s'.pending == None
      ensures s'.req.Keys == s.req.Keys
      ensures forall g :: g in s.req ==>
        s'.req[g] == (if g in s.finished then s.req[g].(phase := Handled) else s.req[g])
    {
      hide Inv;
      s' := s;
      InvSizes(s);
      while disk.usedIdx % 8 != disk.usedId % 8
        invariant Inv(s') && s'.disk == disk && s'.pending == None && Sizes(disk)
        invariant s'.req.Keys == s.req.Keys
        invariant forall g :: g in s'.finished ==> g in s.finished
        invariant forall g :: g in s.req ==>
          s'.req[g] == (if g in s.finished && g !in s'.finished then s.req[g].(phase := Handled) else s.req[g])
        decreases |s'.finished|
      {
        HandlesOldest(s');
        HandleKeeps(s');
        HandleRest(s');
        var id := disk.used[disk.usedIdx];
        if disk.status[id] != 0 {
          return false, s';
        }
        disk := disk.(busy := disk.busy - {disk.info[id].value});
        disk := disk.(usedIdx := (disk.usedIdx + 1) % 8);
        s' := HandledOne(s');
        InvSizes(s');
      }
      IndexTestExact(s');
      ok := true;
    }

    /** virtio_disk_rw after its wait. */
    method Retire(h: nat, ghost s: State) returns (ok: bool, ghost s': State)
      requires Inv(s) && s.disk == disk && s.pending == None && h in s.req && s.req[h].buf !in disk.busy
      modifies this
      ensures ok && Inv(s') && s'.disk == disk && s'.req == s.req - {h} && s'.pending == None
      ensures Count(disk.free) == Count(old(disk).free) + 3
    {
      hide Inv, Count;
      InvSizes(s);
      FinishKeeps(s, h);
      InvTaken(s, h);
      FinishCounts(s, h);
      disk := disk.(info := disk.info[h := None]);
      ok := FreeChain(h, s.req[h]);
      s' := FinishedOne(s, h);
    }
  }

  lemma {:induction false} NoneFree(free: seq<bool>)
    requires forall k :: 0 <= k < |free| ==> !free[k]
    ensures Count(free) == 0
    decreases |free|
  {
    if free != [] {
      NoneFree(free[..|free| - 1]);
    }
  }

  /** d' is d with the descriptors idx taken. */
  ghost predicate Taken(d: Disk, idx: seq<nat>, d': Disk) {
    && |d.free| == 8 && |d'.free| == 8 && d' == d.(free := d'.free) && Distinct(idx)
    && (forall k :: 0 <= k < |idx| ==> idx[k] < 8 && d.free[idx[k]])
    && (forall i :: 0 <= i < 8 ==> d'.free[i] == (d.free[i] && i !in idx))
  }

  lemma TakenNone(d: Disk)
    requires Sizes(d)
    ensures Taken(d, [], d)
  {
  }

  lemma TakenMore(d: Disk, idx: seq<nat>, d1: Disk, i: nat)
    requires Taken(d, idx, d1) && i < 8 && d1.free[i]
    ensures Taken(d, idx + [i], d1.(free := d1.free[i := false]))
  {
    DistinctMore(idx, i);
  }

  /** Contents of free descriptors may differ, and nothing else. */
  ghost predicate OnlyFreeDescs(d: Disk, d': Disk) {
    && |d.free| == 8 && |d.desc| == 8 && |d'.desc| == 8 && d' == d.(desc := d'.desc)
    && (forall i :: 0 <= i < 8 && !d.free[i] ==> d'.desc[i] == d.desc[i])
  }

  /** Half way through giving idx back. */
  ghost predicate Undone(d: Disk, idx: seq<nat>, j: nat, d': Disk) {
    && Sizes(d) && Sizes(d') && j <= |idx| && Distinct(idx) && d' == d.(free := d'.free, desc := d'.desc)
    && (forall k :: 0 <= k < |idx| ==> idx[k] < 8 && d.free[idx[k]])
    && (forall i :: 0 <= i < 8 ==> d'.free[i] == (d.free[i] && i !in idx[j..]))
    && (forall i :: 0 <= i < 8 && !d.free[i] ==> d'.desc[i] == d.desc[i])
  }

  lemma NextTaken(d: Disk, idx: seq<nat>, j: nat, d': Disk)
    requires Undone(d, idx, j, d') && j < |idx|
    ensures idx[j] < 8 && !d'.free[idx[j]]
  {
    assert idx[j..][0] == idx[j];
  }

  lemma UndoneMore(d: Disk, idx: seq<nat>, j: nat, d1: Disk)
    requires Undone(d, idx, j, d1) && j < |idx| && idx[j] < 8
    ensures Undone(d, idx, j + 1, FreeDesc(d1, idx[j]))
  {
    var d2 := FreeDesc(d1, idx[j]);
    DistinctRest(idx[j..]);
    assert idx[j..][1..] == idx[j + 1..];
    forall i | 0 <= i < 8
      ensures d2.free[i] == (d.free[i] && i !in idx[j + 1..])
    {
    }
  }

  lemma UndoneAll(d: Disk, idx: seq<nat>, d': Disk)
    requires Undone(d, idx, |idx|, d')
    ensures d'.free == d.free && OnlyFreeDescs(d, d')
  {
  }

  lemma TakenThree(d: Disk, idx: seq<nat>, d': Disk)
    requires Taken(d, idx, d') && |idx| == 3
    ensures idx[0] < 8 && idx[1] < 8 && idx[2] < 8 && idx[0] != idx[1] && idx[0] != idx[2] && idx[1] != idx[2]
    ensures d.free[idx[0]] && d.free[idx[1]] && d.free[idx[2]]
    ensures d' == d.(free := d.free[idx[0] := false][idx[1] := false][idx[2] := false])
  {
    assert idx == [idx[0], idx[1], idx[2]];
  }

  lemma InvSizes(s: State)
    requires Inv(s)
    ensures Sizes(s.disk)
  {
  }

  lemma InvTaken(s: State, h: nat)
    requires Inv(s) && h in s.req
    ensures ChainOk(s.disk, h, s.req[h])
    ensures !s.disk.free[h] && !s.disk.free[s.req[h].mid] && !s.disk.free[s.req[h].tail]
  {
    ChainTaken(s, h);
  }

  lemma FinishCounts(s: State, h: nat)
    requires Inv(s) && h in s.req && ChainOk(s.disk, h, s.req[h]) && Inv(FinishedOne(s, h))
    ensures Count(FinishedOne(s, h).disk.free) == Count(s.disk.free) + 3
  {
    hide Reqs, Descs, Bufs, Queues, Count, FinishDisk;
    assert s.req.Keys == FinishedOne(s, h).req.Keys + {h};
  }

  lemma HandleRest(s: State)
    requires Inv(s) && s.finished != []
    ensures s.finished[0] !in s.finished[1..]
    ensures forall h :: h != s.finished[0] ==> (h in s.finished <==> h in s.finished[1..])
  {
    DistinctRest(s.finished);
  }

  /** The chain of a request has no free descriptor. */
  lemma RequestStays(s: State, d: Disk, h: nat)
    requires Inv(s) && Sizes(d) && OnlyFreeDescs(s.disk, d) && h in s.req
    ensures ReqOk(s.(disk := d), h)
  {
    hide Counted, Queues, Bufs;
    ChainTaken(s, h);
    assert ReqOk(s, h);
  }

  lemma FreeDescsIrrelevant(s: State, d: Disk)
    requires Inv(s) && Sizes(d) && OnlyFreeDescs(s.disk, d)
    ensures Inv(s.(disk := d))
  {
    hide ReqOk, RingHolds, Sizes, Count, Distinct;
    var s' := s.(disk := d);
    forall h | h in s'.req
      ensures ReqOk(s', h)
    {
      RequestStays(s, d, h);
    }
    forall i | 0 <= i < 8
      ensures DescOk(s', i)
    {
      assert DescOk(s, i);
    }
  }
}
