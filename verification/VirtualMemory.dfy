/** kernel/vm.c at work on physical memory. */
module VirtualMemory {
  import opened ByteSeq
  import opened PageTable
  import opened PageTree
  import opened PageCopy
  import opened UserMemory

  /** Stuck: a loop of the source that does not end; memory is as the loop finds it. */
  datatype Outcome = Done | Failed | Panicked | Stuck

  const ENOVMA := -2
  const ENOMEM := -4
  const EMAPFAILED := -16
  const EBADPERM := -32

  /** get_memory_area: the first area of the list that holds an address, or |areas|. */
  method GetMemoryArea(areas: seq<Area>, addr: nat) returns (j: nat)
    ensures IsArea(areas, addr, j)
  {
    j := 0;
    while j < |areas|
      invariant j <= |areas| && forall i :: 0 <= i < j ==> !Covers(areas[i], addr)
    {
      if Covers(areas[j], addr) {
        return;
      }
      j := j + 1;
    }
  }

  class Memory {
    var tables: map<nat, seq<nat>>
    var data: map<nat, seq<nat>>
    var free: set<nat>

    ghost function View(): Mem
      reads this
    {
      Mem(tables, data, free)
    }

    ghost predicate Ok(root: nat, at: Tree)
      reads this
    {
      MemOk(View()) && IsTree(View(), root, at)
    }

    /** Two page tables with no page in common. */
    ghost predicate Both(root1: nat, at1: Tree, root2: nat, at2: Tree)
      reads this
    {
      Ok(root1, at1) && Ok(root2, at2) && at1.Values !! at2.Values
    }

    /** kalloc: some frame of the allocator, cleared; or 0 when it has none. */
    method Kalloc() returns (f: nat)
      requires MemOk(View())
      modifies this
      ensures MemOk(View())
      ensures f == 0 <==> old(free) == {}
      ensures f == 0 ==> View() == old(View())
      ensures f != 0 ==> |free| == |old(free)| - 1
      ensures f != 0 ==>
        f in old(free) && View() == Mem(old(tables), old(data)[f := Zeros(4096)], old(free) - {f})
    {
      if free == {} {
        f := 0;
      } else {
        f :| f in free;
        data := data[f := Zeros(4096)];
        free := free - {f};
      }
    }

    /** kfree of an allocated frame. */
    method Kfree(f: nat)
      requires MemOk(View()) && (f in tables || f in data)
      modifies this
      ensures MemOk(View())
      ensures View() == Mem(old(tables) - {f}, old(data) - {f}, old(free) + {f})
    {
      tables := tables - {f};
      data := data - {f};
      free := free + {f};
    }

    method StorePte(table: nat, i: nat, pte: nat)
      requires table in tables && i < |tables[table]|
      modifies this
      ensures View() == Set(old(View()), table, i, pte)
    {
      var entries: seq<nat> := tables[table][i := pte];
      tables := tables[table := entries];
    }

    /** The allocating branch of walk: a cleared page-table page hung under an entry. */
    method NewTable(root: nat, table: nat, i: nat, ghost at: Tree, ghost n: Node)
      returns (next: nat, ghost at': Tree)
      requires Ok(root, at) && n in at && 0 < n.level && i < 512
      requires table == at[n] && !V(Entry(View(), table, i))
      modifies this
      ensures Ok(root, at') && Extends(old(View()), at, View(), at')
      ensures next != 0 ==> at' == at[Child(n, i) := next] && |free| == |old(free)| - 1
      ensures next == 0 ==> old(free) == {} && View() == old(View()) && at' == at
    {
      hide Inside, SameLeaves, IsTree, MemOk;
      NodeTable(View(), root, at, n);
      at' := at;
      ExtendsSelf(View(), root, at);
      next := Kalloc();
      if next != 0 {
        HungKeepsTree(old(View()), root, at, n, i, next);
        HungExtends(old(View()), root, at, n, i, next);
        data := data - {next};
        tables := tables[next := Zeros(512)][table := tables[table][i := Pa2Pte(next * 4096) + 1]];
        at' := at[Child(n, i) := next];
        assert old(data)[next := Zeros(4096)] - {next} == old(data);
        assert View() == Hung(old(View()), table, i, next);
      }
    }

    /** One turn of walk's loop: the page-table page below entry Px(level, va) of one. */
    method Descend(root: nat, va: nat, level: nat, table: nat, alloc: bool, ghost at: Tree)
      returns (next: nat, ghost at': Tree)
      requires Ok(root, at) && va < MAXVA && 0 < level <= 2
      requires Above(level, va / 4096) in at && table == at[Above(level, va / 4096)]
      modifies this
      ensures Ok(root, at') && Extends(old(View()), at, View(), at')
      ensures !alloc ==> View() == old(View()) && at' == at
      ensures next != 0 ==> Above(level - 1, va / 4096) in at' && next == at'[Above(level - 1, va / 4096)]
      ensures next == 0 ==> Above(level - 1, va / 4096) !in at && at' == at && (alloc ==> old(free) == {} && free == {})
      ensures next != 0 && alloc ==>
        |free| - Missing(at', level - 1, va / 4096) == |old(free)| - Missing(at, level, va / 4096)
    {
      hide Inside, SameLeaves, IsTree, MemOk, Above, Px, Pte2Pa, V;
      DescendFacts(View(), root, at, va, level);
      ExtendsSelf(View(), root, at);
      at' := at;
      var i := Px(level, va);
      var pte := tables[table][i];
      if V(pte) {
        next := Pte2Pa(pte) / 4096;
      } else if !alloc {
        next := 0;
      } else {
        next, at' := NewTable(root, table, i, at, Above(level, va / 4096));
        MissingAfter(at, level, va / 4096, next);
      }
    }

    /** walk: the page-table page and index of the entry for va, or page 0 for none. */
    method Walk(root: nat, va: nat, alloc: bool, ghost at: Tree)
      returns (table: nat, index: nat, ghost at': Tree)
      requires Ok(root, at)
      modifies this
      ensures Ok(root, at') && Extends(old(View()), at, View(), at')
      ensures !alloc ==> View() == old(View()) && at' == at
      ensures va >= MAXVA ==> table == 0
      ensures table != 0 ==> Above(0, va / 4096) in at' && table == at'[Above(0, va / 4096)]
      ensures table == 0 && va < MAXVA ==> Above(0, va / 4096) !in at' && (alloc ==> free == {})
      ensures alloc && va < MAXVA ==> (table == 0 <==> Missing(at, 2, va / 4096) > |old(free)|)
      ensures |free| + 2 >= |old(free)|
      ensures alloc && table != 0 ==> |free| == |old(free)| - Missing(at, 2, va / 4096)
      ensures index == Index(0, va / 4096)
    {
      hide Inside, SameLeaves;
      at' := at;
      PxOfPage(0, va);
      index := Px(0, va);
      ExtendsSelf(View(), root, at);
      if va >= MAXVA {
        return 0, index, at';
      }
      table := root;
      var level := 2;
      while level > 0
        invariant 0 <= level <= 2
        invariant Ok(root, at') && Extends(old(View()), at, View(), at')
        invariant !alloc ==> View() == old(View()) && at' == at
        invariant Above(level, va / 4096) in at' && table == at'[Above(level, va / 4096)]
        invariant alloc ==> |free| - Missing(at', level, va / 4096) == |old(free)| - Missing(at, 2, va / 4096)
        decreases level
      {
        ghost var m, was := View(), at';
        assert Missing(was, level, va / 4096) >= if Above(level - 1, va / 4096) in was then 0 else 1;
        table, at' := Descend(root, va, level, table, alloc, at');
        ExtendsBoth(old(View()), at, m, was, View(), at');
        if table == 0 {
          NoDescendant(View(), root, at', level, va / 4096);
          return table, index, at';
        }
        level := level - 1;
      }
    }

    /** walkaddr: the physical address of the page of a user address, or 0. */
    method WalkAddr(root: nat, va: nat, ghost at: Tree) returns (pa: nat)
      requires Ok(root, at)
      modifies this
      ensures View() == old(View())
      ensures pa == (
        if va < MAXVA && Leaf(View(), at, va / 4096).Mapped? && U(Leaf(View(), at, va / 4096).flags)
        then Leaf(View(), at, va / 4096).frame * 4096 else 0)
    {
      if va >= MAXVA {
        return 0;
      }
      var table, index;
      ghost var same;
      table, index, same := Walk(root, va, false, at);
      if table == 0 {
        return 0;
      }
      LowPage(va / 4096);
      assert NodeOk(View(), at, Above(0, va / 4096));
      var pte := tables[table][index];
      LeafFlags(pte);
      if !V(pte) || !U(pte) {
        return 0;
      }
      pa := Pte2Pa(pte);
    }

    /** One page of mappages. */
    method MapOne(root: nat, va: nat, pa: nat, perm: nat, ghost at: Tree) returns (r: Outcome, ghost at': Tree)
      requires Ok(root, at) && perm < 1024
      modifies this
      ensures Ok(root, at') && data == old(data) && Inside(old(View()), at, View(), at')
      ensures r.Done? ==> va < MAXVA && Leaf(old(View()), at, va / 4096).Unmapped?
      ensures r.Done? ==>
        MapsRun(old(View()), at, View(), at', va / 4096, 1, pa / 4096, WithV(perm))
      ensures r.Panicked? <==> va < MAXVA && Leaf(old(View()), at, va / 4096).Mapped?
      ensures !r.Done? ==> SameLeaves(old(View()), at, View(), at')
      ensures r.Failed? <==> va >= MAXVA || Missing(at, 2, va / 4096) > |old(free)|
      ensures r.Failed? && va < MAXVA ==> free == {} && Above(0, va / 4096) !in at'
      ensures r.Done? ==> |free| == |old(free)| - Missing(at, 2, va / 4096)
      ensures !r.Stuck? && |free| + 2 >= |old(free)|
    {
      var table, index;
      table, index, at' := Walk(root, va, true, at);
      if va < MAXVA && Leaf(old(View()), at, va / 4096).Mapped? {
        NothingMissing(old(View()), root, at, va / 4096);
      }
      if table == 0 {
        return Failed, at';
      }
      ghost var m, v := View(), va / 4096;
      ghost var n := Above(0, v);
      LowPage(v);
      assert NodeOk(m, at', n);
      assert Leaf(m, at', v) == Leaf(old(View()), at, v) == Decode(tables[table][index]);
      if V(tables[table][index]) {
        return Panicked, at';
      }
      var pte := Pa2Pte(pa) + WithV(perm);
      SetKeepsTree(m, root, at', n, index, pte);
      SetMapsRun(m, root, at', v, pa, perm);
      SetInside(m, root, at', n, index, pte);
      StorePte(table, index, pte);
      hide *;
      InsideBoth(old(View()), at, m, at', View(), at');
      MapsAfterSame(old(View()), at, m, at', View(), at', v, 1, pa / 4096, WithV(perm));
      r := Done;
    }

    /** The loop of mappages, from one page to another. */
    method MapFrom(root: nat, first: nat, last: nat, frame: nat, perm: nat, ghost at: Tree)
      returns (r: Outcome, ghost at': Tree, ghost n: nat)
      requires Ok(root, at) && perm < 1024
      modifies this
      ensures Ok(root, at') && data == old(data) && Inside(old(View()), at, View(), at')
      ensures MapsRun(old(View()), at, View(), at', first, n, frame, WithV(perm))
      ensures n > 0 ==> first + n <= PAGES
      ensures Clear(old(View()), at, first, n)
      ensures r.Done? ==> n > 0 && first + n == last + 1
      ensures !r.Done? ==> !(first <= last < first + n)
      ensures !r.Done? ==> (r.Panicked? <==> first + n < PAGES && Leaf(old(View()), at, first + n).Mapped?)
      ensures r.Failed? ==> first + n >= PAGES || free == {}
      ensures n == 0 && first < PAGES ==> (r.Failed? <==> Missing(at, 2, first) > |old(free)|)
      ensures n > 0 ==> Missing(at, 2, first) <= |old(free)|
      ensures r.Done? && n == 1 ==> |free| == |old(free)| - Missing(at, 2, first)
      ensures n == 0 && r.Failed? && first < PAGES ==> Above(0, first) !in at'
      ensures !r.Stuck? && |free| + 2 * n + (if r.Done? then 0 else 2) >= |old(free)|
    {
      hide Inside, MapsRun, SameLeaves, IsTree, MemOk, Leaf, Clear, Missing;
      ghost var m0 := View();
      var a, p := first * 4096, frame * 4096;
      at' := at;
      n := 0;
      ghost var flags := WithV(perm);
      InsideSelf(root, at);
      MapsNone(View(), at, first, frame, flags);
      ClearNone(View(), at, first);
      while true
        invariant Ok(root, at') && data == old(data) && Inside(m0, at, View(), at')
        invariant MapsRun(m0, at, View(), at', first, n, frame, flags)
        invariant a == (first + n) * 4096 && p == (frame + n) * 4096
        invariant n > 0 ==> first + n <= PAGES
        invariant Clear(m0, at, first, n)
        invariant !(first <= last < first + n)
        invariant if n == 0 then View() == m0 && at' == at else Missing(at, 2, first) <= |old(free)|
        invariant |free| + 2 * n >= |old(free)|
        decreases MAXVA - a
      {
        ghost var m, was := View(), at';
        BaseOf(first + n);
        BaseOf(frame + n);
        PastRun(m0, at, m, was, first, n, frame, flags);
        r, at' := MapOne(root, a, p, perm, at');
        InsideBoth(m0, at, m, was, View(), at');
        if !r.Done? {
          MapsNoMore(m0, at, m, was, View(), at', first, n, frame, flags);
          return;
        }
        MapsOneMore(m0, at, m, was, View(), at', first, n, frame, flags);
        ClearOneMore(m0, at, first, n);
        n := n + 1;
        if a == last * 4096 {
          return;
        }
        a := a + 4096;
        p := p + 4096;
      }
    }

    /** mappages: n pages from va get mapped; all of them, unless a page-table page could
        not be had or a page was mapped already. */
    method MapPages(root: nat, va: nat, size: nat, pa: nat, perm: nat, ghost at: Tree)
      returns (r: Outcome, ghost at': Tree, ghost n: nat)
      requires Ok(root, at) && perm < 1024 && va < WORD && size < WORD
      modifies this
      ensures Ok(root, at') && data == old(data) && Inside(old(View()), at, View(), at')
      ensures MapsRun(old(View()), at, View(), at', va / 4096, n, pa / 4096, WithV(perm))
      ensures n > 0 ==> va / 4096 + n <= PAGES
      ensures Clear(old(View()), at, va / 4096, n)
      ensures r.Done? ==> n > 0 && va / 4096 + n == LastPage(va, size) + 1
      ensures !r.Done? ==> !(va / 4096 <= LastPage(va, size) < va / 4096 + n)
      ensures !r.Done? ==>
        (r.Panicked? <==> va / 4096 + n < PAGES && Leaf(old(View()), at, va / 4096 + n).Mapped?)
      ensures r.Failed? ==> va / 4096 + n >= PAGES || free == {}
      ensures n == 0 && va / 4096 < PAGES ==> (r.Failed? <==> Missing(at, 2, va / 4096) > |old(free)|)
      ensures n > 0 ==> Missing(at, 2, va / 4096) <= |old(free)|
      ensures r.Done? && n == 1 ==> |free| == |old(free)| - Missing(at, 2, va / 4096)
      ensures n == 0 && r.Failed? && va / 4096 < PAGES ==> Above(0, va / 4096) !in at'
      ensures !r.Stuck? && |free| + 2 * n + (if r.Done? then 0 else 2) >= |old(free)|
    {
      hide *;
      r, at', n := MapFrom(root, va / 4096, LastPage(va, size), pa / 4096, perm, at);
    }

    /** One page of uvmunmap. */
    method UnmapOne(root: nat, va: nat, doFree: bool, ghost at: Tree) returns (r: Outcome)
      requires Ok(root, at)
      requires doFree && HasPage(View(), at, va / 4096) ==> Leaf(View(), at, va / 4096).frame in data
      modifies this
      ensures Ok(root, at) && TablesKept(old(View()), at, View())
      ensures r.Panicked? <==> HasPage(old(View()), at, va / 4096) && Leaf(old(View()), at, va / 4096).flags == 1
      ensures r.Panicked? || r.Done?
      ensures r.Done? ==> Unmaps(old(View()), at, View(), va / 4096, 1)
      ensures r.Done? ==> data == old(data) - (if doFree then FramesOf(old(View()), at, va / 4096, 1) else {})
      ensures r.Done? ==> free == old(free) + (if doFree then FramesOf(old(View()), at, va / 4096, 1) else {})
    {
      hide Inside, IsTree, MemOk, FramesOf, Unmaps, TablesKept, V, Pte2Pa, Leaf, SameLeaves;
      ghost var m, v := View(), va / 4096;
      FrameOfOne(m, at, v);
      UnchangedUnmaps(m, at, v);
      BaseOf(v);
      var table, index;
      ghost var same;
      table, index, same := Walk(root, va, false, at);
      if table == 0 {
        NoTable(m, at, v);
        return Done;
      }
      LeafRead(m, root, at, v);
      var pte := tables[table][index];
      if !V(pte) {
        return Done;
      }
      if PteFlags(pte) == 1 {
        return Panicked;
      }
      var frame := Pte2Pa(pte) / 4096;
      if doFree {
        ReleaseKeepsTree(m, root, at, frame);
        Kfree(frame);
      }
      ghost var m1 := View();
      SetKeepsTree(m1, root, at, Above(0, v), index, 0);
      ClearUnmaps(m1, root, at, v);
      StorePte(table, index, 0);
      AfterRelease(m, at, m1, View(), v);
      r := Done;
    }

    /** The loop of uvmunmap over `total` pages. */
    method UnmapFrom(root: nat, first: nat, total: nat, doFree: bool, ghost at: Tree) returns (r: Outcome)
      requires Ok(root, at) && (doFree ==> Owned(View(), at, first, total))
      modifies this
      ensures Ok(root, at) && TablesKept(old(View()), at, View())
      ensures r.Done? <==> NoBareV(old(View()), at, first, total)
      ensures r.Done? || r.Panicked?
      ensures r.Done? ==> Unmaps(old(View()), at, View(), first, total)
      ensures r.Done? ==> data == old(data) - (if doFree then FramesOf(old(View()), at, first, total) else {})
      ensures r.Done? ==> free == old(free) + (if doFree then FramesOf(old(View()), at, first, total) else {})
    {
      hide IsTree, MemOk, FramesOf, Unmaps, TablesKept, Owned, Leaf;
      ghost var m := View();
      var a := first * 4096;
      ghost var n := 0;
      UnmapsNone(m, at, first);
      UnchangedUnmaps(m, at, first);
      while a < (first + total) * 4096
        invariant 0 <= n <= total && a == (first + n) * 4096
        invariant Ok(root, at) && TablesKept(m, at, View())
        invariant NoBareV(m, at, first, n) && Unmaps(m, at, View(), first, n)
        invariant data == m.data - (if doFree then FramesOf(m, at, first, n) else {})
        invariant free == m.free + (if doFree then FramesOf(m, at, first, n) else {})
      {
        ghost var m1 := View();
        BaseOf(first + n);
        NextUnmapped(m, at, m1, first, n);
        FramesOneMore(m, at, first, n);
        if doFree && HasPage(m, at, first + n) {
          NextOwned(m, at, m1, first, n, total);
        }
        r := UnmapOne(root, a, doFree, at);
        TablesKeptBoth(m, at, m1, View());
        if r.Panicked? {
          return;
        }
        UnmapsOneMore(m, at, m1, View(), first, n);
        n := n + 1;
        a := a + 4096;
      }
      r := Done;
    }

    /** uvmunmap.  When the range ends at the very last page of the 64-bit address space the
        loop of the source never ends; see UnmapEndsIff. */
    method UvmUnmap(root: nat, va: nat, size: nat, doFree: bool, ghost at: Tree) returns (r: Outcome)
      requires Ok(root, at) && va < WORD && size < WORD && UnmapEnds(va, size)
      requires doFree ==> Owned(View(), at, va / 4096, PagesIn(va, size))
      modifies this
      ensures Ok(root, at) && TablesKept(old(View()), at, View())
      ensures r.Done? <==> NoBareV(old(View()), at, va / 4096, PagesIn(va, size))
      ensures r.Done? || r.Panicked?
      ensures r.Done? ==> Unmaps(old(View()), at, View(), va / 4096, PagesIn(va, size))
      ensures r.Done? ==>
        data == old(data) - (if doFree then FramesOf(old(View()), at, va / 4096, PagesIn(va, size)) else {})
      ensures r.Done? ==>
        free == old(free) + (if doFree then FramesOf(old(View()), at, va / 4096, PagesIn(va, size)) else {})
    {
      hide IsTree, MemOk, FramesOf, Unmaps, TablesKept, Owned, Leaf, NoBareV, PagesIn;
      var first := va / 4096;
      var last := (va + size + WORD - 1) % WORD / 4096;
      LoopPages(va, size);
      r := UnmapFrom(root, first, if last < first then 0 else last - first + 1, doFree, at);
    }

    /** freewalk of the page-table page at node n: it fails (panics) exactly when some page
        is still mapped below, and otherwise frees each page-table page once. */
    method FreeWalk(table: nat, ghost at: Tree, ghost n: Node) returns (ok: bool)
      requires MemOk(View()) && Closed(at) && n in at && n.level <= 2 && table == at[n] && SubOk(View(), at, n)
      modifies this
      ensures ok <==> NoLeaf(old(View()), at, n)
      ensures ok ==> MemOk(View()) && data == old(data)
      ensures ok ==> free == old(free) + FramesUnder(at, n) && tables == old(tables) - FramesUnder(at, n)
      decreases n.level
    {
      hide MemOk, Closed, SubOk, NoLeaf, FramesUnder, Partly;
      ghost var m := View();
      RootOfSub(m, at, n);
      PartlyNone(m, at, n);
      var i := 0;
      while i < 512
        invariant 0 <= i <= 512
        invariant MemOk(View()) && Partly(m, View(), at, n, i) && NoLeafBelow(m, at, n, i)
      {
        ghost var m1 := View();
        NextEntry(m, m1, at, n, i);
        var pte := tables[table][i];
        if V(pte) && !R(pte) && !W(pte) && !X(pte) {
          PartlySubOk(m, m1, at, n, i);
          PartlyNoLeaf(m, m1, at, n, i);
          var child := Pte2Pa(pte) / 4096;
          var sub := FreeWalk(child, at, Child(n, i));
          if !sub {
            NotEmptyAt(m, at, n, i);
            return false;
          }
          PartlyNext(m, m1, View(), at, n, i);
          ClearMemOk(View(), table, i);
          StorePte(table, i, 0);
        } else if V(pte) {
          NotEmptyAt(m, at, n, i);
          return false;
        } else {
          PartlySkip(m, m1, at, n, i);
        }
        i := i + 1;
      }
      NoLeafBelowAll(m, at, n);
      ghost var m1 := View();
      PartlyRoot(m, m1, at, n, 512);
      Kfree(table);
      PartlyAll(m, m1, View(), at, n);
      ok := true;
    }

    /** uvmfree: every user frame and every page-table page goes back once, unless a page
        at or above sz is still mapped. */
    method UvmFree(root: nat, sz: nat, ghost at: Tree) returns (ok: bool)
      requires Ok(root, at) && 0 < sz <= MAXVA && Permitted(View(), at)
      requires Owned(View(), at, 0, PagesIn(0, sz))
      modifies this
      ensures ok <==> OnlyBelow(old(View()), at, PagesIn(0, sz))
      ensures ok ==> MemOk(View()) && tables == old(tables) - at.Values
      ensures ok ==> data == old(data) - FramesOf(old(View()), at, 0, PagesIn(0, sz))
      ensures ok ==> free == old(free) + FramesOf(old(View()), at, 0, PagesIn(0, sz)) + at.Values
    {
      hide MemOk, IsTree, Permitted, OnlyBelow, Owned, FramesOf, FramesUnder, Unmaps, TablesKept, NoBareV, Leaf;
      ghost var m, n := View(), PagesIn(0, sz);
      SizePages(sz);
      UnmapEndsIff(0, sz);
      PermittedNotBare(m, at, 0, n);
      var r := UvmUnmap(root, 0, sz, true, at);
      ghost var m1 := View();
      AfterUnmap(m, at, m1, n);
      TreeIsClosed(m1, root, at);
      WholeSubOk(m1, root, at);
      WholeNoLeaf(m1, root, at);
      WholeFrames(m1, root, at);
      ok := FreeWalk(root, at, ROOT);
      AfterTeardown(m, at, m1);
    }

    /** proc_freepagetable: with sz > 0 exactly the user frames below sz and the page-table
        pages go back, so never the trampoline's or the trapframe's; freewalk panics only
        if something else is mapped.  With sz == 0 nothing goes back at all. */
    method ProcFreePagetable(root: nat, sz: nat, ghost at: Tree) returns (ok: bool)
      requires Ok(root, at) && sz <= MAXVA - 8192 && Permitted(View(), at)
      requires sz > 0 ==> Owned(View(), at, 0, PagesIn(0, sz))
      modifies this
      ensures sz > 0 ==> (ok <==> UserAndTop(old(View()), at, PagesIn(0, sz)))
      ensures sz > 0 && ok ==> MemOk(View()) && tables == old(tables) - at.Values
      ensures sz > 0 && ok ==> data == old(data) - FramesOf(old(View()), at, 0, PagesIn(0, sz))
      ensures sz > 0 && ok ==> free == old(free) + FramesOf(old(View()), at, 0, PagesIn(0, sz)) + at.Values
      ensures sz == 0 ==> ok && MemOk(View()) && TablesKept(old(View()), at, View())
      ensures sz == 0 ==> data == old(data) && free == old(free)
    {
      hide MemOk, IsTree, Permitted, OnlyBelow, Owned, FramesOf, FramesUnder, Unmaps, NoBareV, Leaf, UserAndTop;
      ghost var m, n := View(), PagesIn(0, sz);
      TopPages();
      PermittedNotBare(m, at, PAGES - 1, 1);
      var r := UvmUnmap(root, MAXVA - 4096, 4096, false, at);
      ghost var m1 := View();
      PermittedAfterOne(m, at, m1, PAGES - 1);
      PermittedNotBare(m1, at, PAGES - 2, 1);
      r := UvmUnmap(root, MAXVA - 8192, 4096, false, at);
      ghost var m2 := View();
      TablesKeptBoth(m, at, m1, m2);
      ok := true;
      if sz > 0 {
        SizePages(sz);
        AfterTop(m, at, m1, m2, n);
        AfterTeardown(m, at, m2);
        ok := UvmFree(root, sz, at);
      }
    }

    /** Map one fresh data frame at an unmapped page, or give the frame back. */
    method MapFresh(root: nat, v: nat, f: nat, perm: nat, ghost at: Tree) returns (ok: bool, ghost at': Tree)
      requires Ok(root, at) && v < PAGES && perm < 1024 && f in data && Leaf(View(), at, v).Unmapped?
      modifies this
      ensures Ok(root, at') && Inside(old(View()), at, Mem(tables, data, free - {f}), at')
      ensures ok ==> data == old(data) && f !in free
      ensures ok ==> MapsRun(old(View()), at, View(), at', v, 1, f, WithV(perm))
      ensures !ok ==> data == old(data) - {f} && f in free && SameLeaves(old(View()), at, View(), at')
      ensures !ok ==> free == {f}
      ensures ok <==> Missing(at, 2, v) <= |old(free)|
      ensures |free| + 2 >= |old(free)|
    {
      hide Inside, IsTree, MapsRun, SameLeaves, Leaf, LastPage, Clear, WithV, MemOk, Missing;
      OnePage(v);
      BaseOf(f);
      ghost var m := View();
      ghost var n;
      var r;
      r, at', n := MapPages(root, v * 4096, 4096, f * 4096, perm, at);
      ok := r.Done?;
      ghost var m1 := View();
      NotMapped(m, at, m1, at', v, n, f, WithV(perm));
      DataNotFree(m1, f);
      assert Inside(m, at, Mem(tables, data, free - {f}), at') by {
        assert free - {f} == free;
      }
      if !ok {
        ReleaseKeepsTree(m1, root, at', f);
        Kfree(f);
        SameTwice(m, at, m1, at', View(), at');
        assert tables == m1.tables && free - {f} == m1.free;
        InsideIgnoresData(m, at, m1, at', Mem(tables, data, free - {f}));
      }
    }

    /** One page of uvmcopy. */
    method CopyOne(root1: nat, root2: nat, v: nat, ghost at1: Tree, ghost at2: Tree)
      returns (ok: bool, ghost at2': Tree, ghost f: nat)
      requires Both(root1, at1, root2, at2) && v < PAGES
      requires Leaf(View(), at2, v).Unmapped? && (HasPage(View(), at1, v) ==> Leaf(View(), at1, v).frame in data)
      modifies this
      ensures Both(root1, at1, root2, at2')
      ensures ok && !HasPage(old(View()), at1, v) ==> View() == old(View()) && at2' == at2
      ensures ok && HasPage(old(View()), at1, v) ==> OneCopied(old(View()), at1, at2, View(), at2', v, f)
      ensures !ok ==> HasPage(old(View()), at1, v) && OneRefused(old(View()), at1, at2, View(), at2') && |free| <= 1
      ensures ok <==> !HasPage(old(View()), at1, v) || Missing(at2, 2, v) < |old(free)|
      ensures |free| + 3 >= |old(free)|
    {
      hide Inside, IsTree, MapsRun, SameLeaves, MemOk, V, Pte2Pa, Missing;
      ghost var m := View();
      at2' := at2;
      f := 0;
      SameTables(m, m, root1, at1);
      SameTables(m, m, root2, at2);
      BaseOf(v);
      var table, index;
      ghost var same;
      table, index, same := Walk(root1, v * 4096, false, at1);
      if table == 0 {
        return true, at2', f;
      }
      LeafRead(m, root1, at1, v);
      var pte := tables[table][index];
      LeafHasV(m, at1, v);
      if !V(pte) {
        return true, at2', f;
      }
      var mem := Kalloc();
      if mem == 0 {
        return false, at2', f;
      }
      f := mem;
      NotAllocated(m, mem);
      FilledMemOk(View(), mem, Pte2Pa(pte) / 4096);
      data := data[mem := data[Pte2Pa(pte) / 4096]];
      ghost var m1 := View();
      SameTables(m, m1, root1, at1);
      SameTables(m, m1, root2, at2);
      SameLeaf(m, at2, m1, at2, v);
      ok, at2' := MapFresh(root2, v, mem, PteFlags(pte), at2);
      CopyOneDone(m, at1, at2, m1, View(), at2', root1, root2, v, mem, PteFlags(pte), ok);
    }

    /** uvmcopy: the child comes to see the parent's bytes, on frames of its own; or, on the
        error path, nothing is left of the copy but page-table pages.  When the copy of the
        very first page fails, the error path calls uvmunmap with size 0 and gets stuck; its
        loop meets every page of the child (PageTable.EndlessLoopMeetsAll) and so passes the
        frames of all that the child had mapped to kfree. */
    method UvmCopy(root1: nat, root2: nat, sz: nat, ghost at1: Tree, ghost at2: Tree)
      returns (r: Outcome, ghost at2': Tree)
      requires Both(root1, at1, root2, at2) && sz <= MAXVA
      requires Owned(View(), at1, 0, PagesUp(sz)) && Permitted(View(), at1)
      requires Clear(View(), at2, 0, PagesUp(sz))
      modifies this
      ensures !r.Panicked?
      ensures r.Stuck? <==> NoFirstCopy(old(View()), at1, at2, sz)
      ensures Both(root1, at1, root2, at2') && SameLeaves(old(View()), at1, View(), at1)
      ensures r.Done? ==> Forked(old(View()), at1, View(), at2', PagesUp(sz)) && Owned(View(), at2', 0, PagesUp(sz))
      ensures r.Done? ==> SameFrom(old(View()), at2, View(), at2', PagesUp(sz))
      ensures r.Done? && Permitted(old(View()), at2) ==> Permitted(View(), at2')
      ensures r.Done? && UserAndTop(old(View()), at2, 0) ==> UserAndTop(View(), at2', PagesUp(sz))
      ensures r.Failed? ==> data == old(data) && SameLeaves(old(View()), at2, View(), at2')
      ensures r.Stuck? ==> FramesOf(View(), at2', 0, PAGES) == FramesOf(old(View()), at2, 0, PAGES)
      ensures r.Failed? ==> free <= old(free) <= free + at2'.Values
      ensures r.Failed? ==> at2.Values <= at2'.Values <= at2.Values + old(free)
      ensures !r.Done? ==> |old(free)| <= 3 * PagesUp(sz) + 1
    {
      hide IsTree, MemOk, SameLeaves, Clear, Owned, Permitted, Forked, HasPage, CopyState, PagesUp, SameFrom,
           UserAndTop, NoFirstCopy, FramesOf;
      ghost var m, n := View(), PagesUp(sz);
      PagesUpMax(sz);
      PagesUpBound(sz, 0);
      var ok, i;
      ghost var v;
      ok, i, at2', v := CopyPages(root1, root2, sz, at1, at2);
      if ok {
        CopyResult(m, at1, at2, View(), at2', n);
        ForkedChild(m, at1, at2, View(), at2', n);
        r := Done;
      } else if i == 0 {
        NothingCopied(m, at1, at2, View(), at2', n);
        r := Stuck;
      } else {
        r := UndoCopy(root1, root2, i, m, at1, at2, at2', v, n);
      }
    }

    /** One turn of uvmcopy's loop, the v-th. */
    method CopyTurn(root1: nat, root2: nat, i: nat, ghost m: Mem, ghost at1: Tree, ghost at0: Tree, ghost at2: Tree,
                    ghost v: nat, ghost n: nat)
      returns (ok: bool, ghost at2': Tree)
      requires MemOk(m) && Owned(m, at1, 0, n) && Both(root1, at1, root2, at2) && i == v * 4096 && v < n <= PAGES
      requires CopyState(m, at1, at0, View(), at2, v, n)
      modifies this
      ensures Both(root1, at1, root2, at2') && |free| + 3 >= |old(free)|
      ensures CopyState(m, at1, at0, View(), at2', if ok then v + 1 else v, n)
      ensures ok <==> !HasPage(m, at1, v) || Missing(at2, 2, v) < |old(free)|
      ensures !ok ==> |free| <= 1
    {
      hide Both, IsTree, MemOk, Owned, Leaf, HasPage, CopyState, OneCopied, OneRefused, Missing;
      ghost var m1 := View();
      BaseOf(v);
      CopyNext(m, at1, at0, m1, at2, v, n);
      ghost var f;
      ok, at2', f := CopyOne(root1, root2, i / 4096, at1, at2);
      if !ok {
        CopyUndone(m, at1, at0, m1, at2, View(), at2', v, n);
      } else if HasPage(m, at1, v) {
        CopyMade(m, at1, at0, m1, at2, View(), at2', v, n, f);
      } else {
        CopySkipped(m, at1, at0, m1, at2, v, n);
      }
    }

    /** The loop of uvmcopy: all pages, or up to the first that cannot be copied. */
    method CopyPages(root1: nat, root2: nat, sz: nat, ghost at1: Tree, ghost at2: Tree)
      returns (ok: bool, i: nat, ghost at2': Tree, ghost v: nat)
      requires Both(root1, at1, root2, at2) && sz <= MAXVA
      requires Owned(View(), at1, 0, PagesUp(sz)) && Clear(View(), at2, 0, PagesUp(sz))
      modifies this
      ensures Both(root1, at1, root2, at2') && i == v * 4096
      ensures CopyState(old(View()), at1, at2, View(), at2', v, PagesUp(sz))
      ensures ok ==> v == PagesUp(sz)
      ensures !ok ==> v < PagesUp(sz) && HasPage(old(View()), at1, v) && |old(free)| <= 3 * v + 4
      ensures !ok && v == 0 <==> NoFirstCopy(old(View()), at1, at2, sz)
    {
      hide Both, IsTree, MemOk, Clear, Owned, Leaf, HasPage, CopyState, PagesUp, NoFirstCopy;
      FirstCopy(View(), at1, at2, sz);
      ghost var m, n := View(), PagesUp(sz);
      i, v, at2', ok := 0, 0, at2, true;
      CopyStart(m, at1, at2, n);
      PagesUpMax(sz);
      BothMemOk(root1, at1, root2, at2);
      while i < sz
        invariant i == v * 4096 && v <= n && ok
        invariant Both(root1, at1, root2, at2')
        invariant CopyState(m, at1, at2, View(), at2', v, n) && |free| + 3 * v >= |old(free)|
        invariant if v == 0 then View() == m && at2' == at2 else !NoFirstCopy(m, at1, at2, sz)
      {
        PagesUpBound(sz, v);
        ok, at2' := CopyTurn(root1, root2, i, m, at1, at2, at2', v, n);
        if !ok {
          return;
        }
        v := v + 1;
        i := i + 4096;
      }
      PagesUpBound(sz, v);
    }

    lemma BothMemOk(root1: nat, at1: Tree, root2: nat, at2: Tree)
      requires Both(root1, at1, root2, at2)
      ensures MemOk(View())
    {
    }

    /** The error path of uvmcopy. */
    method UndoCopy(root1: nat, root2: nat, i: nat, ghost m: Mem, ghost at1: Tree, ghost at0: Tree, ghost at2: Tree,
                    ghost v: nat, ghost n: nat)
      returns (r: Outcome)
      requires MemOk(m) && Both(root1, at1, root2, at2) && i == v * 4096
      requires 0 < v <= n <= PAGES && CopyState(m, at1, at0, View(), at2, v, n)
      requires Permitted(m, at1) && Clear(m, at0, 0, n)
      modifies this
      ensures r.Failed? && Ok(root1, at1) && Ok(root2, at2) && SameLeaves(m, at1, View(), at1)
      ensures data == m.data && SameLeaves(m, at0, View(), at2)
      ensures free <= m.free <= free + at2.Values && at0.Values <= at2.Values <= at0.Values + m.free
    {
      hide IsTree, MemOk, MapsRun, SameLeaves, Clear, Owned, Permitted, Copied, FramesOf, Leaf, HasPage, CopyState,
           NoBareV;
      ghost var m1 := View();
      SizePages(i);
      UnmapEndsIff(0, i);
      PermittedNotBare(m, at1, 0, v);
      CopyStateParts(m, at1, at0, m1, at2, v, n);
      CopiedNotBare(m, at1, m1, at2, v);
      r := UvmUnmap(root2, 0, i, true, at2);
      CopyFreed(m, at1, at0, m1, at2, View(), v, n);
      OtherTreeUnmapped(m1, at2, View(), root1, at1);
      SameTwice(m, at1, m1, at1, View(), at1);
      r := Failed;
    }

    /** The allocating half of do_allocate. */
    method Back(root: nat, v: nat, perm: nat, ghost at: Tree) returns (code: int, ghost at': Tree)
      requires Ok(root, at) && Space(View(), at) && v < USER_PAGES && !HasPage(View(), at, v)
      requires perm < 1024 && U(WithV(perm)) && HasPermission(WithV(perm))
      modifies this
      ensures Ok(root, at') && Backs(old(View()), at, View(), at') && Space(View(), at')
      ensures code == 0 || code == ENOMEM || code == EMAPFAILED
      ensures code == 0 ==> HasPage(View(), at', v) && Leaf(View(), at', v).flags == WithV(perm)
      ensures code != 0 ==> SameLeaves(old(View()), at, View(), at')
      ensures code == ENOMEM <==> old(free) == {}
      ensures code == EMAPFAILED <==> old(free) != {} && Missing(at, 2, v) >= |old(free)|
      ensures code != 0 ==> |free| <= 1
    {
      hide IsTree, MemOk, Inside, MapsRun, SameLeaves, Space, Backs, WithV, Missing, HasPermission;
      ghost var m := View();
      at' := at;
      InsideSelf(root, at);
      SameTables(m, m, root, at);
      ExtendsBacks(m, at, m, at);
      var f := Kalloc();
      if f == 0 {
        return ENOMEM, at';
      }
      ghost var m1 := View();
      NotAllocated(m, f);
      SameTables(m, m1, root, at);
      SameLeaf(m, at, m1, at, v);
      var ok;
      ok, at' := MapFresh(root, v, f, perm, at);
      if ok {
        assert Mem(tables, data, free - {f}) == View();
        FreshAllBacks(m, at, m1, View(), at', v, f, WithV(perm));
        code := 0;
      } else {
        assert data == m.data;
        InsideAgain(m, at, m1, View(), root, at', f);
        SameTwice(m, at, m1, at, View(), at');
        ExtendsBacks(m, at, View(), at');
        code := EMAPFAILED;
      }
    }

    /** do_allocate without a file.  Area j decides on the error codes; what the program
        sees of its memory never changes. */
    method DoAllocate(root: nat, areas: seq<Area>, addr: nat, cause: Cause, ghost at: Tree)
      returns (code: int, ghost at': Tree, ghost j: nat)
      requires Ok(root, at) && Space(View(), at) && AreasBelow(areas)
      modifies this
      ensures Ok(root, at') && Backs(old(View()), at, View(), at') && Space(View(), at')
      ensures IsArea(areas, addr, j) && (code == ENOVMA <==> j == |areas|)
      ensures j < |areas| ==>
        (code == EBADPERM <==> Refused(old(View()), at, areas[j], cause, addr / 4096))
      ensures j < |areas| && Allows(areas[j], cause) && Open(old(View()), at, addr / 4096) ==>
        code == 0 && View() == old(View()) && at' == at
      ensures code == ENOMEM <==> Wanted(old(View()), at, areas, j, cause, addr / 4096) && old(free) == {}
      ensures code == EMAPFAILED <==>
        && Wanted(old(View()), at, areas, j, cause, addr / 4096) && old(free) != {}
        && Missing(at, 2, addr / 4096) >= |old(free)|
      ensures code == ENOMEM || code == EMAPFAILED ==> |free| <= 1
      ensures Permitted(old(View()), at) ==> Permitted(View(), at')
      ensures code == 0 || code == ENOVMA || code == EBADPERM || code == ENOMEM || code == EMAPFAILED
      ensures code == 0 ==> Open(View(), at', addr / 4096) && j < |areas|
      ensures code == 0 && !HasPage(old(View()), at, addr / 4096) ==>
        Leaf(View(), at', addr / 4096).flags == WithV(AreaPerm(areas[j]))
      ensures code != 0 ==> SameLeaves(old(View()), at, View(), at')
    {
      hide IsTree, MemOk, Inside, SameLeaves, Space, Backs, WithV, Allows, AreaPerm, Missing, Permitted, HasPermission;
      ghost var m, v := View(), addr / 4096;
      at' := at;
      InsideSelf(root, at);
      SameTables(m, m, root, at);
      ExtendsBacks(m, at, m, at);
      var table, index;
      ghost var same;
      table, index, same := Walk(root, addr, false, at);
      var area := GetMemoryArea(areas, addr);
      j := area;
      if area == |areas| {
        return ENOVMA, at', j;
      }
      assert areas[area].end <= MAXVA - 8192;
      if !Allows(areas[area], cause) {
        return EBADPERM, at', j;
      }
      if table != 0 {
        NodeTable(m, root, at, Above(0, v));
        LowPage(v);
        var pte := tables[table][index];
        LeafFlags(pte);
        if V(pte) && !U(pte) {
          return EBADPERM, at', j;
        }
        if V(pte) && U(pte) {
          return 0, at', j;
        }
      }
      AreaPermBits(areas[area]);
      code, at' := Back(root, addr / 4096, AreaPerm(areas[area]), at);
      BacksPermitted(m, at, View(), at');
    }

    /** do_allocate_range */
    method DoAllocateRange(root: nat, areas: seq<Area>, addr: nat, len: nat, cause: Cause, ghost at: Tree)
      returns (code: int, ghost at': Tree)
      requires Ok(root, at) && Space(View(), at) && AreasBelow(areas) && addr < WORD && len < WORD
      modifies this
      ensures Ok(root, at') && Backs(old(View()), at, View(), at') && Space(View(), at')
      ensures Permitted(old(View()), at) ==> Permitted(View(), at')
      ensures code <= 0
      ensures code == 0 ==> AllOpen(View(), at', addr / 4096, RangeEnd(addr, len))
      ensures code != 0 ==> |free| <= 1 || !AllFine(old(View()), at, areas, cause, addr / 4096, RangeEnd(addr, len))
    {
      hide IsTree, MemOk, Inside, SameLeaves, Space, Backs, AllOpen, AreasBelow, Open, Leaf, Allows, Permitted, Missing;
      ghost var m, first := View(), addr / 4096;
      ghost var v := first;
      at' := at;
      InsideSelf(root, at);
      SameTables(m, m, root, at);
      ExtendsBacks(m, at, m, at);
      NoneOpen(m, at, first);
      var a := addr / 4096 * 4096;
      var end := ((addr + len) % WORD + 4095) % WORD / 4096 * 4096;
      while a < end
        invariant a == v * 4096 && first <= v
        invariant v > first ==> v <= RangeEnd(addr, len)
        invariant Ok(root, at') && Space(View(), at') && Backs(m, at, View(), at')
        invariant AllOpen(View(), at', first, v) && (Permitted(m, at) ==> Permitted(View(), at'))
      {
        ghost var m1, was := View(), at';
        BaseOf(v);
        ghost var j;
        code, at', j := DoAllocate(root, areas, a, cause, at');
        BacksBoth(m, at, m1, was, View(), at');
        if code != 0 {
          NotFine(m, at, m1, was, areas, cause, v, j, code == ENOVMA || code == EBADPERM);
          return;
        }
        BacksKeepsOpen(m1, was, View(), at', first, v);
        v := v + 1;
        a := a + 4096;
      }
      FewerOpen(View(), at', first, v, RangeEnd(addr, len));
      code := 0;
    }

    /** The copying loop of copyout: k bytes reach the space, all of them unless a page on
        the way is not open to the user. */
    method PutBytes(root: nat, dst: nat, src: seq<nat>, ghost at: Tree) returns (r: int, ghost k: nat)
      requires Ok(root, at) && Space(View(), at)
      modifies this
      ensures Ok(root, at) && Space(View(), at) && SameLeaves(old(View()), at, View(), at)
      ensures k <= |src| && Wrote(old(View()), at, View(), at, dst, src[..k]) && Patches(old(View()), at, View())
      ensures r == 0 || r == -1
      ensures r == 0 ==> k == |src|
      ensures r == -1 ==> k < |src| && !Open(old(View()), at, (dst + k) / 4096)
    {
      hide IsTree, MemOk, SameLeaves, Space, Wrote, Patches, Leaf, FramesOf;
      ghost var m := View();
      var d, done := dst, 0;
      SameTables(m, m, root, at);
      PatchNone(m, at, dst);
      assert src[..0] == [];
      while done < |src|
        invariant 0 <= done <= |src| && (done < |src| ==> d == dst + done)
        invariant Ok(root, at) && Space(View(), at) && SameLeaves(m, at, View(), at)
        invariant Wrote(m, at, View(), at, dst, src[..done]) && Patches(m, at, View())
      {
        var va0 := d / 4096 * 4096;
        BaseOf(d / 4096);
        ghost var v, m1 := d / 4096, View();
        SameOpen(m, at, m1, at, v);
        PageFrame(m1, at, v);
        var pa0 := WalkAddr(root, va0, at);
        if pa0 == 0 {
          k := done;
          return -1, k;
        }
        var off := d - va0;
        var n := 4096 - off;
        if n > |src| - done {
          n := |src| - done;
        }
        var frame := pa0 / 4096;
        BaseOf(Leaf(m1, at, v).frame);
        var part := src[done..done + n];
        data := data[frame := Patched(data[frame], off, part)];
        ChunkWrote(m1, root, at, v, off, part, View());
        SameTwice(m, at, m1, at, View(), at);
        WroteBoth(m, at, m1, at, View(), at, dst, src[..done], part);
        PatchBoth(m, at, m1, View());
        assert src[..done] + part == src[..done + n];
        done := done + n;
        d := va0 + 4096;
      }
      assert src[..done] == src;
      r, k := 0, done;
    }

    /** copyout: on success exactly the range changes in what the program sees.  On an
        error nothing does, unless the end of the range wraps around 64 bits. */
    method CopyOut(root: nat, areas: seq<Area>, dst: nat, src: seq<nat>, ghost at: Tree)
      returns (r: int, ghost at': Tree, ghost k: nat)
      requires Ok(root, at) && Space(View(), at) && AreasBelow(areas) && dst < WORD && |src| < WORD
      modifies this
      ensures Ok(root, at') && Space(View(), at')
      ensures k <= |src| && Wrote(old(View()), at, View(), at', dst, src[..k])
      ensures r == 0 || r == -1
      ensures r == 0 ==> k == |src|
      ensures r == -1 && dst + |src| + 4095 < WORD ==> k == 0
      ensures r == -1 && dst + |src| + 4095 < WORD ==>
        |free| <= 1 || !AllFine(old(View()), at, areas, Write, dst / 4096, RangeEnd(dst, |src|))
      ensures Touches(old(View()), at, View(), at')
      ensures Permitted(old(View()), at) ==> Permitted(View(), at')
    {
      hide IsTree, MemOk, SameLeaves, Space, Wrote, Patches, Leaf, FramesOf, Backs, AllOpen, Open, Touches, RangeEnd,
           AreasBelow, Permitted;
      ghost var m := View();
      var code;
      code, at' := DoAllocateRange(root, areas, dst, |src|, Write, at);
      ghost var m1 := View();
      BackedView(m, at, m1, at', dst);
      PatchNone(m1, at', dst);
      SameTables(m1, m1, root, at');
      BacksPatches(m, at, m1, at', m1);
      if code < 0 {
        assert src[..0] == [];
        return -1, at', 0;
      }
      r, k := PutBytes(root, dst, src, at');
      SamePermitted(m1, at', View(), at');
      WroteBoth(m, at, m1, at', View(), at', dst, [], src[..k]);
      assert [] + src[..k] == src[..k];
      BacksPatches(m, at, m1, at', View());
      if r == -1 && dst + |src| + 4095 < WORD {
        RangeCovers(dst, |src|, dst + k);
        OneOpen(m1, at', dst / 4096, RangeEnd(dst, |src|), (dst + k) / 4096);
      }
    }

    /** The copying loop of copyin. */
    method GetBytes(root: nat, src: nat, len: nat, ghost at: Tree) returns (r: int, dst: seq<nat>)
      requires Ok(root, at) && Space(View(), at)
      modifies this
      ensures View() == old(View())
      ensures |dst| <= len && dst == Bytes(View(), at, src, |dst|)
      ensures r == 0 || r == -1
      ensures r == 0 ==> |dst| == len
      ensures r == -1 ==> |dst| < len && !Open(View(), at, (src + |dst|) / 4096)
    {
      hide IsTree, MemOk, SameLeaves, Space, Leaf, FramesOf, ByteAt;
      var s := src;
      dst := [];
      while |dst| < len
        invariant View() == old(View()) && |dst| <= len && (|dst| < len ==> s == src + |dst|)
        invariant dst == Bytes(View(), at, src, |dst|)
      {
        var va0 := s / 4096 * 4096;
        ghost var v := s / 4096;
        BaseOf(v);
        PageFrame(View(), at, v);
        var pa0 := WalkAddr(root, va0, at);
        if pa0 == 0 {
          return -1, dst;
        }
        BaseOf(Leaf(View(), at, v).frame);
        var off := s - va0;
        var n := 4096 - off;
        if n > len - |dst| {
          n := len - |dst|;
        }
        ChunkReads(View(), at, v, off, n);
        BytesBoth(View(), at, src, |dst|, n);
        dst := dst + data[pa0 / 4096][off..off + n];
        s := va0 + 4096;
      }
      r := 0;
    }

    /** copyin: on success exactly the bytes that the program sees in the range. */
    method CopyIn(root: nat, areas: seq<Area>, src: nat, len: nat, ghost at: Tree)
      returns (r: int, dst: seq<nat>, ghost at': Tree)
      requires Ok(root, at) && Space(View(), at) && AreasBelow(areas) && src < WORD && len < WORD
      modifies this
      ensures Ok(root, at') && Space(View(), at') && Backs(old(View()), at, View(), at')
      ensures Permitted(old(View()), at) ==> Permitted(View(), at')
      ensures dst == Bytes(old(View()), at, src, |dst|)
      ensures r == 0 || r == -1
      ensures r == 0 ==> |dst| == len
      ensures r == -1 && src + len + 4095 < WORD ==> dst == []
      ensures r == -1 && src + len + 4095 < WORD ==>
        |free| <= 1 || !AllFine(old(View()), at, areas, Read, src / 4096, RangeEnd(src, len))
    {
      hide IsTree, MemOk, SameLeaves, Space, Leaf, FramesOf, Backs, AllOpen, Open, RangeEnd, AreasBelow, ByteAt,
           Permitted;
      ghost var m := View();
      var code;
      code, at' := DoAllocateRange(root, areas, src, len, Read, at);
      BackedView(m, at, View(), at', src);
      if code < 0 {
        return -1, [], at';
      }
      r, dst := GetBytes(root, src, len, at');
      SameViewBytes(m, at, View(), at', src, |dst|);
      if r == -1 && src + len + 4095 < WORD {
        RangeCovers(src, len, src + |dst|);
        OneOpen(View(), at', src / 4096, RangeEnd(src, len), (src + |dst|) / 4096);
      }
    }

    /** copyout and then copyin of the same range: what went out comes back. */
    method ThereAndBack(root: nat, areas: seq<Area>, addr: nat, src: seq<nat>, ghost at: Tree)
      returns (ok: bool, dst: seq<nat>, ghost at': Tree)
      requires Ok(root, at) && Space(View(), at) && AreasBelow(areas) && addr < WORD && |src| < WORD
      modifies this
      ensures Ok(root, at') && Space(View(), at')
      ensures ok ==> dst == src
    {
      hide IsTree, MemOk, Space, Wrote, Touches, Backs, Permitted, ByteAt, RangeEnd, AllFine;
      ghost var m, k := View(), 0;
      var r;
      r, at', k := CopyOut(root, areas, addr, src, at);
      if r != 0 {
        return false, [], at';
      }
      assert src[..|src|] == src;
      BytesWritten(m, at, View(), at', addr, src);
      r, dst, at' := CopyIn(root, areas, addr, |src|, at');
      ok := r == 0;
    }

    /** uvmcreate: an empty page table, or a panic. */
    method UvmCreate() returns (r: Outcome, root: nat, ghost at: Tree)
      requires MemOk(View())
      modifies this
      ensures r == if old(free) == {} then Panicked else Done
      ensures r.Panicked? ==> View() == old(View())
      ensures r.Done? ==> Ok(root, at) && OnlyBelow(View(), at, 0) && at == map[ROOT := root] && root in old(free)
      ensures r.Done? ==> View() == Mem(old(tables)[root := Zeros(512)], old(data), old(free) - {root})
      ensures r.Done? ==> Inside(old(View()), map[], View(), at)
    {
      ghost var m := View();
      at := map[];
      root := Kalloc();
      if root == 0 {
        return Panicked, root, at;
      }
      NotAllocated(m, root);
      data := data - {root};
      tables := tables[root := Zeros(512)];
      at := map[ROOT := root];
      NewTree(m, root);
      r := Done;
    }

    /** proc_pagetable: only the trampoline and the trapframe are mapped, or one or both
        are missing when a page-table page could not be had. */
    method ProcPagetable(trampoline: nat, trapframe: nat) returns (r: Outcome, root: nat, ghost at: Tree)
      requires MemOk(View())
      modifies this
      ensures r == if old(free) == {} then Panicked else Done
      ensures r.Panicked? ==> View() == old(View())
      ensures r.Done? ==> Ok(root, at) && data == old(data)
      ensures r.Done? ==> UserAndTop(View(), at, 0) && Permitted(View(), at)
      ensures r.Done? ==> Inside(old(View()), map[], View(), at)
      ensures r.Done? ==> Leaf(View(), at, PAGES - 1) in {Unmapped, Mapped(trampoline / 4096, 11)}
      ensures r.Done? ==> Leaf(View(), at, PAGES - 2) in {Unmapped, Mapped(trapframe / 4096, 7)}
      ensures r.Done? ==> (Leaf(View(), at, PAGES - 1).Mapped? <==> |old(free)| >= 3)
      ensures r.Done? ==> (Leaf(View(), at, PAGES - 2).Mapped? <==> |old(free)| >= 3)
      ensures r.Done? ==> |free| == if |old(free)| <= 3 then 0 else |old(free)| - 3
      ensures r.Done? && |old(free)| >= 3 ==> Missing(at, 2, 0) == 2
      ensures r.Done? ==>
        FramesOf(View(), at, 0, PAGES) == if |old(free)| <= 2 then {} else {trampoline / 4096, trapframe / 4096}
    {
      hide IsTree, MemOk, Inside, OnlyBelow, UserAndTop, Permitted, MapsRun, Leaf, Clear, LastPage, Missing, FramesOf;
      ghost var start := View();
      r, root, at := UvmCreate();
      if r.Panicked? {
        return;
      }
      OnePage(PAGES - 1);
      OnePage(PAGES - 2);
      ghost var m := View();
      ghost var at0, n1, n2 := at, 0, 0;
      RootAlone(root, PAGES - 1);
      r, at, n1 := MapPages(root, MAXVA - 4096, 4096, trampoline, 2 + 8, at);
      ghost var m1, at1 := View(), at;
      TopUnmapped(m, at0, m1, at1, n1, trampoline / 4096, WithV(10));
      if n1 == 1 {
        TopTables(m, at0, m1, root, at1, trampoline / 4096, WithV(10));
      } else {
        TopTableMissing(at1);
      }
      r, at, n2 := MapPages(root, MAXVA - 8192, 4096, trapframe, 2 + 4, at);
      FewerFree(m1, at1, View(), at);
      InsideBoth(start, map[], m, at0, m1, at1);
      InsideBoth(start, map[], m1, at1, View(), at);
      TopMapped(m, at0, m1, at1, View(), at, n1, n2, trampoline / 4096, trapframe / 4096);
      TopFrames(View(), at, trampoline / 4096, trapframe / 4096);
      if n1 == 1 {
        TopAlone(start, View(), root, at);
      }
      r := Done;
    }

    /** The memory of allocproc: a trapframe and a page table. */
    method AllocProc(trampoline: nat, root1: nat, ghost at1: Tree, ghost sz: nat)
      returns (r: Outcome, root2: nat, tf: nat, ghost at2: Tree)
      requires Ok(root1, at1) && sz <= MAXVA - 8192 && Permitted(View(), at1) && Owned(View(), at1, 0, PagesUp(sz))
      modifies this
      ensures !r.Stuck? && (r.Panicked? <==> |old(free)| == 1) && (r.Failed? <==> old(free) == {})
      ensures r.Failed? ==> View() == old(View())
      ensures r.Done? ==> Both(root1, at1, root2, at2) && Allocated(old(View()), View(), at2, tf)
      ensures r.Done? ==> Permitted(View(), at2) && UserAndTop(View(), at2, 0) && Clear(View(), at2, 0, PagesUp(sz))
      ensures r.Done? ==> Permitted(View(), at1) && Owned(View(), at1, 0, PagesUp(sz))
      ensures r.Done? ==> SameLeaves(old(View()), at1, View(), at1)
      ensures r.Done? ==> SameBytes(old(View()), at1, View(), at1, PagesUp(sz))
      ensures r.Done? ==> |free| == if |old(free)| <= 4 then 0 else |old(free)| - 4
      ensures r.Done? && |old(free)| >= 4 ==> Missing(at2, 2, 0) == 2
      ensures r.Done? ==> FramesOf(View(), at2, 0, PAGES) == if |old(free)| <= 3 then {} else {trampoline / 4096, tf}
    {
      hide Missing, IsTree, MemOk, SameLeaves, Owned, Permitted, Clear, UserAndTop, Inside, PagesUp, Leaf, SameBytes,
           FramesOf;
      ghost var m := View();
      at2, root2 := map[], 0;
      tf := Kalloc();
      if tf == 0 {
        return Failed, root2, tf, at2;
      }
      ghost var m1 := View();
      NotAllocated(m, tf);
      SameTables(m, m1, root1, at1);
      r, root2, at2 := ProcPagetable(trampoline, tf * 4096);
      if r.Panicked? {
        return;
      }
      ReadyToCopy(m, m1, View(), root1, at1, at2, tf, sz);
    }

    /** The memory of freeproc for a child that has no memory area yet: the trapframe goes
        back, and of the page table nothing. */
    method FreeProc(root2: nat, tf: nat, root1: nat, ghost at1: Tree, ghost at2: Tree)
      requires Both(root1, at1, root2, at2) && tf in data && Permitted(View(), at2)
      modifies this
      ensures Ok(root1, at1) && SameLeaves(old(View()), at1, View(), at1)
      ensures data == old(data) - {tf} && free == old(free) + {tf}
    {
      hide IsTree, MemOk, SameLeaves, Permitted, Leaf, UserAndTop, FramesOf, Owned;
      ghost var m3 := View();
      ReleaseKeepsTree(m3, root1, at1, tf);
      ReleaseKeepsTree(m3, root2, at2, tf);
      Kfree(tf);
      ghost var m4 := View();
      SamePermitted(m3, at2, m4, at2);
      var ok := ProcFreePagetable(root2, 0, at2);
      OtherTreeUnmapped(m4, at2, View(), root1, at1);
      SameTwice(m3, at1, m4, at1, View(), at1);
    }

    /** The memory of fork: allocproc, uvmcopy, and freeproc when that fails.  Then every
        page-table page of the child is lost.  When uvmcopy gets stuck, its loop passes the
        trampoline and the trapframe to kfree if they are mapped. */
    method Fork(root1: nat, sz: nat, trampoline: nat, ghost at1: Tree)
      returns (r: Outcome, root2: nat, tf: nat, ghost at2: Tree)
      requires Ok(root1, at1) && sz <= MAXVA - 8192 && Permitted(View(), at1) && Owned(View(), at1, 0, PagesUp(sz))
      modifies this
      ensures r.Done? ==> Both(root1, at1, root2, at2) && SameLeaves(old(View()), at1, View(), at1)
      ensures r.Done? ==> Born(old(View()), at1, View(), at2, PagesUp(sz))
      ensures r.Failed? ==> Ok(root1, at1) && SameLeaves(old(View()), at1, View(), at1) && data == old(data)
      ensures r.Failed? ==> at2.Values <= old(free) && free == old(free) - at2.Values
      ensures r.Failed? ==> (at2.Values == {} <==> old(free) == {})
      ensures r.Panicked? <==> |old(free)| == 1
      ensures r.Stuck? <==> 2 <= |old(free)| <= 6 && sz > 0 && HasPage(old(View()), at1, 0)
      ensures r.Stuck? ==> Both(root1, at1, root2, at2)
      ensures r.Stuck? ==> FramesOf(View(), at2, 0, PAGES) == if |old(free)| <= 3 then {} else {trampoline / 4096, tf}
      ensures !r.Done? ==> |old(free)| <= 3 * PagesUp(sz) + 5
    {
      hide Missing, IsTree, MemOk, SameLeaves, Owned, Permitted, Forked, Clear, UserAndTop, SameFrom, NoFirstCopy,
           PagesUp, Born, Leaf, Allocated, SameBytes, FramesOf;
      ghost var m, n := View(), PagesUp(sz);
      SameTables(m, m, root1, at1);
      r, root2, tf, at2 := AllocProc(trampoline, root1, at1, sz);
      if !r.Done? {
        at2 := map[];
        return;
      }
      ghost var m2, at0 := View(), at2;
      FirstCopy(m2, at1, at0, sz);
      SameFirst(m, m2, at1);
      r, at2 := UvmCopy(root1, root2, sz, at1, at2);
      ghost var m3 := View();
      if r.Done? {
        ChildOf(m, m2, m3, at1, at2, n);
        SameTwice(m, at1, m2, at1, m3, at1);
      } else if r.Failed? {
        SamePermitted(m2, at0, m3, at2);
        TrapframeThere(m, m2, at0, tf);
        LostTables(m, m2, m3, root2, at0, at2, tf);
        FreeProc(root2, tf, root1, at1, at2);
        SameTwice(m, at1, m2, at1, m3, at1);
        SameTwice(m, at1, m3, at1, View(), at1);
      }
    }

    lemma InsideSelf(root: nat, at: Tree)
      requires Ok(root, at)
      ensures Inside(View(), at, View(), at)
    {
      ExtendsSelf(View(), root, at);
    }
  }
}
