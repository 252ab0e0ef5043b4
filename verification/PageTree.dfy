/** Subtrees of a page table, for the recursion of freewalk in kernel/vm.c. */
module PageTree {
  import opened ByteSeq
  import opened PageTable

  function Ancestor(k: Node, level: nat): Node
    decreases level - k.level
  {
    if k.level >= level then k else Ancestor(Parent(k), level)
  }

  predicate Under(k: Node, n: Node) {
    k.level <= n.level && Ancestor(k, n.level) == n
  }

  /** The entry of n through which k hangs. */
  function Slot(k: Node, n: Node): nat
    requires k.level < n.level
  {
    Ancestor(k, n.level - 1).prefix % 512
  }

  lemma {:induction false} AncestorLevel(k: Node, level: nat)
    requires k.level <= level
    ensures Ancestor(k, level).level == level
    ensures Ancestor(k, level + 1) == Parent(Ancestor(k, level))
    decreases level - k.level
  {
    if k.level < level {
      AncestorLevel(Parent(k), level);
    }
  }

  /** Below n means at n or below the child in one slot. */
  lemma UnderChild(k: Node, n: Node)
    requires k.level < n.level && Under(k, n)
    ensures Slot(k, n) < 512 && Under(k, Child(n, Slot(k, n)))
  {
    AncestorLevel(k, n.level - 1);
  }

  lemma ChildUnder(k: Node, n: Node, i: nat)
    requires n.level > 0 && i < 512 && Under(k, Child(n, i))
    ensures k.level < n.level && Under(k, n) && Slot(k, n) == i
  {
    AncestorLevel(k, n.level - 1);
  }

  /** Every node but the root hangs under another, and no frame serves two nodes. */
  ghost predicate Closed(at: Tree) {
    && (forall k :: k in at && k.level < 2 ==> Parent(k) in at)
    && (forall k, l :: k in at && l in at && at[k] == at[l] ==> k == l)
  }

  lemma {:induction false} AncestorIn(at: Tree, k: Node, level: nat)
    requires Closed(at) && k in at && k.level <= level <= 2
    ensures Ancestor(k, level) in at
    decreases level - k.level
  {
    if k.level < level {
      AncestorIn(at, Parent(k), level);
    }
  }

  ghost function FramesUnder(at: Tree, n: Node): set<nat> {
    set k | k in at && Under(k, n) :: at[k]
  }

  /** The frames below the first i entries of n. */
  ghost function FramesBelow(at: Tree, n: Node, i: nat): set<nat> {
    set k | k in at && k.level < n.level && Under(k, n) && Slot(k, n) < i :: at[k]
  }

  lemma BelowNone(at: Tree, n: Node)
    ensures FramesBelow(at, n, 0) == {}
  {
  }

  lemma BelowOneMore(at: Tree, n: Node, i: nat)
    requires Closed(at) && 0 < n.level <= 2 && i < 512
    ensures FramesBelow(at, n, i + 1)
         == FramesBelow(at, n, i) + (if Child(n, i) in at then FramesUnder(at, Child(n, i)) else {})
  {
    var c := Child(n, i);
    forall k | k in at && k.level < n.level && Under(k, n) && Slot(k, n) == i
      ensures c in at && Under(k, c)
    {
      UnderChild(k, n);
      AncestorIn(at, k, n.level - 1);
    }
    forall k | k in at && Under(k, c)
      ensures k.level < n.level && Under(k, n) && Slot(k, n) == i
    {
      ChildUnder(k, n, i);
    }
  }

  lemma BelowAll(at: Tree, n: Node)
    requires n in at
    ensures FramesUnder(at, n) == FramesBelow(at, n, 512) + {at[n]}
  {
    forall k | k in at && Under(k, n) && k != n
      ensures k.level < n.level && Slot(k, n) < 512
    {
      if k.level < n.level {
        UnderChild(k, n);
      }
    }
    assert Under(n, n);
  }

  lemma BelowLeafTable(at: Tree, n: Node, i: nat)
    requires n.level == 0
    ensures FramesBelow(at, n, i) == {}
  {
  }

  // ----- What freewalk needs of a subtree, and what is left of it half way -----

  ghost predicate TableOk(m: Mem, at: Tree, k: Node)
    requires k in at
  {
    && at[k] in m.tables && |m.tables[at[k]]| == 512
    && (k.level > 0 ==> forall i :: 0 <= i < 512 ==> EntryOk(m, at, k, i))
    && (k.level == 0 ==> forall i: nat :: i < 512 && V(Entry(m, at[k], i)) ==> HasPermission(Entry(m, at[k], i)))
  }

  predicate HasPermission(pte: nat) {
    R(pte) || W(pte) || X(pte)
  }

  ghost predicate SubOk(m: Mem, at: Tree, n: Node) {
    forall k :: k in at && Under(k, n) ==> TableOk(m, at, k)
  }

  /** No page is mapped below n. */
  ghost predicate NoLeaf(m: Mem, at: Tree, n: Node) {
    forall k, i :: k in at && Under(k, n) && k.level == 0 && 0 <= i < 512 ==> !V(Entry(m, at[k], i))
  }

  /** m1 is m with all that hangs below the first i entries of n freed. */
  ghost predicate Partly(m: Mem, m1: Mem, at: Tree, n: Node, i: nat)
    requires n in at
  {
    && m1.data == m.data
    && m1.free == m.free + FramesBelow(at, n, i)
    && m1.tables.Keys == m.tables.Keys - FramesBelow(at, n, i)
    && (forall f :: f in m1.tables && f != at[n] ==> m1.tables[f] == m.tables[f])
    && at[n] in m1.tables && |m1.tables[at[n]]| == 512
    && (forall j :: i <= j < 512 ==> Entry(m1, at[n], j) == Entry(m, at[n], j))
  }

  lemma PartlyNone(m: Mem, at: Tree, n: Node)
    requires n in at && at[n] in m.tables && |m.tables[at[n]]| == 512
    ensures Partly(m, m, at, n, 0)
  {
    BelowNone(at, n);
  }

  /** The subtree of the next child is still whole. */
  lemma PartlyLeavesChild(m: Mem, m1: Mem, at: Tree, n: Node, i: nat, k: Node)
    requires Closed(at) && n in at && 0 < n.level <= 2 && i < 512 && Partly(m, m1, at, n, i)
    requires SubOk(m, at, n) && k in at && Under(k, Child(n, i))
    ensures at[k] in m1.tables && at[k] != at[n] && m1.tables[at[k]] == m.tables[at[k]]
  {
    ChildUnder(k, n, i);
    assert TableOk(m, at, k);
    assert at[k] !in FramesBelow(at, n, i);
  }

  lemma PartlySubOk(m: Mem, m1: Mem, at: Tree, n: Node, i: nat)
    requires Closed(at) && n in at && 0 < n.level <= 2 && i < 512 && Partly(m, m1, at, n, i) && SubOk(m, at, n)
    ensures SubOk(m1, at, Child(n, i))
  {
    forall k | k in at && Under(k, Child(n, i))
      ensures TableOk(m1, at, k)
    {
      PartlyLeavesChild(m, m1, at, n, i, k);
      ChildUnder(k, n, i);
      assert TableOk(m, at, k);
      SameTableOk(m, m1, at, k);
    }
  }

  lemma PartlyNoLeaf(m: Mem, m1: Mem, at: Tree, n: Node, i: nat)
    requires Closed(at) && n in at && 0 < n.level <= 2 && i < 512 && Partly(m, m1, at, n, i) && SubOk(m, at, n)
    ensures NoLeaf(m1, at, Child(n, i)) <==> NoLeaf(m, at, Child(n, i))
  {
    forall k, j | k in at && Under(k, Child(n, i)) && 0 <= j < 512
      ensures Entry(m1, at[k], j) == Entry(m, at[k], j)
    {
      PartlyLeavesChild(m, m1, at, n, i, k);
      ChildUnder(k, n, i);
      assert TableOk(m, at, k);
    }
  }

  lemma SameTableOk(m: Mem, m1: Mem, at: Tree, k: Node)
    requires k in at && TableOk(m, at, k) && at[k] in m1.tables && m1.tables[at[k]] == m.tables[at[k]]
    ensures TableOk(m1, at, k)
  {
    forall i: nat | i < 512
      ensures Entry(m1, at[k], i) == Entry(m, at[k], i)
    {
    }
    if k.level > 0 {
      forall i | 0 <= i < 512
        ensures EntryOk(m1, at, k, i)
      {
        assert EntryOk(m, at, k, i);
      }
    }
  }

  /** NoLeaf, one entry at a time. */
  ghost predicate NoLeafBelow(m: Mem, at: Tree, n: Node, i: nat)
    requires n in at
  {
    forall j :: 0 <= j < i ==> EntryEmpty(m, at, n, j)
  }

  ghost predicate EntryEmpty(m: Mem, at: Tree, n: Node, j: nat)
    requires n in at
  {
    if n.level == 0 then !V(Entry(m, at[n], j)) else Child(n, j) in at ==> NoLeaf(m, at, Child(n, j))
  }

  lemma NoLeafBelowAll(m: Mem, at: Tree, n: Node)
    requires Closed(at) && n in at && n.level <= 2
    ensures NoLeafBelow(m, at, n, 512) <==> NoLeaf(m, at, n)
  {
    if NoLeafBelow(m, at, n, 512) {
      forall k, i | k in at && Under(k, n) && k.level == 0 && 0 <= i < 512
        ensures !V(Entry(m, at[k], i))
      {
        if n.level == 0 {
          assert EntryEmpty(m, at, n, i);
        } else {
          UnderChild(k, n);
          AncestorIn(at, k, n.level - 1);
          assert EntryEmpty(m, at, n, Slot(k, n));
        }
      }
    }
    if NoLeaf(m, at, n) {
      forall j | 0 <= j < 512
        ensures EntryEmpty(m, at, n, j)
      {
        NoLeafAt(m, at, n, j);
      }
    }
  }

  lemma NoLeafAt(m: Mem, at: Tree, n: Node, j: nat)
    requires n in at && n.level <= 2 && NoLeaf(m, at, n) && j < 512
    ensures EntryEmpty(m, at, n, j)
  {
    assert Under(n, n);
    if n.level > 0 {
      forall k, i | k in at && Under(k, Child(n, j)) && k.level == 0 && 0 <= i < 512
        ensures !V(Entry(m, at[k], i))
      {
        ChildUnder(k, n, j);
      }
    }
  }

  lemma TreeIsClosed(m: Mem, root: nat, at: Tree)
    requires IsTree(m, root, at)
    ensures Closed(at) && (forall k :: k in at ==> k.level <= 2) && ROOT in at && at[ROOT] == root
  {
    forall k | k in at
      ensures k.level <= 2 && (k.level < 2 ==> Parent(k) in at)
    {
      assert NodeOk(m, at, k);
    }
  }

  /** Half way through n, after the child in entry i has been freed as well. */
  lemma PartlyNext(m: Mem, m1: Mem, m2: Mem, at: Tree, n: Node, i: nat)
    requires Closed(at) && n in at && 0 < n.level <= 2 && i < 512 && Partly(m, m1, at, n, i) && SubOk(m, at, n)
    requires Child(n, i) in at
    requires m2.data == m1.data && m2.free == m1.free + FramesUnder(at, Child(n, i))
    requires m2.tables == m1.tables - FramesUnder(at, Child(n, i))
    ensures at[n] in m2.tables && |m2.tables[at[n]]| == 512
    ensures Partly(m, Set(m2, at[n], i, 0), at, n, i + 1)
  {
    hide FramesBelow, FramesUnder, Under, Closed, SubOk;
    BelowOneMore(at, n, i);
    RootApart(at, n, i);
  }

  lemma RootApart(at: Tree, n: Node, i: nat)
    requires Closed(at) && n in at && n.level > 0 && i < 512
    ensures at[n] !in FramesUnder(at, Child(n, i))
  {
    forall k | k in at && Under(k, Child(n, i))
      ensures at[k] != at[n]
    {
      ChildUnder(k, n, i);
    }
  }

  lemma PartlySkip(m: Mem, m1: Mem, at: Tree, n: Node, i: nat)
    requires Closed(at) && n in at && n.level <= 2 && i < 512 && Partly(m, m1, at, n, i)
    requires n.level > 0 ==> Child(n, i) !in at
    ensures Partly(m, m1, at, n, i + 1)
  {
    if n.level > 0 {
      BelowOneMore(at, n, i);
    } else {
      BelowLeafTable(at, n, i);
      BelowLeafTable(at, n, i + 1);
    }
  }

  lemma PartlyAll(m: Mem, m1: Mem, m2: Mem, at: Tree, n: Node)
    requires Closed(at) && n in at && MemOk(m) && SubOk(m, at, n) && Partly(m, m1, at, n, 512)
    requires m2 == Released(m1, at[n])
    ensures m2.data == m.data && m2.free == m.free + FramesUnder(at, n) && m2.tables == m.tables - FramesUnder(at, n)
  {
    BelowAll(at, n);
    assert Under(n, n) && TableOk(m, at, n);
    assert m1.data - {at[n]} == m1.data;
  }

  lemma RootOfSub(m: Mem, at: Tree, n: Node)
    requires n in at && SubOk(m, at, n)
    ensures TableOk(m, at, n)
  {
    assert Under(n, n);
  }

  /** What freewalk reads in entry i of n. */
  lemma NextEntry(m: Mem, m1: Mem, at: Tree, n: Node, i: nat)
    requires n in at && SubOk(m, at, n) && Partly(m, m1, at, n, i) && i < 512
    ensures at[n] in m1.tables && |m1.tables[at[n]]| == 512
    ensures n.level == 0 ==>
      var pte := m1.tables[at[n]][i];
      EntryEmpty(m, at, n, i) == !V(pte) && (V(pte) ==> HasPermission(pte))
    ensures n.level > 0 ==>
      var pte := m1.tables[at[n]][i];
      && (V(pte) <==> Child(n, i) in at) && (!V(pte) ==> EntryEmpty(m, at, n, i))
      && (V(pte) ==> !HasPermission(pte) && Pte2Pa(pte) / 4096 == at[Child(n, i)])
  {
    RootOfSub(m, at, n);
    var pte := m1.tables[at[n]][i];
    assert Entry(m1, at[n], i) == Entry(m, at[n], i) == pte;
    if n.level > 0 {
      assert EntryOk(m, at, n, i);
      if Child(n, i) in at {
        FlagBits(at[Child(n, i)], 1);
        Unpack(at[Child(n, i)], 1);
      }
    }
  }

  lemma NotEmptyAt(m: Mem, at: Tree, n: Node, i: nat)
    requires n in at && n.level <= 2 && i < 512 && !EntryEmpty(m, at, n, i)
    ensures !NoLeaf(m, at, n)
  {
    if NoLeaf(m, at, n) {
      NoLeafAt(m, at, n, i);
    }
  }

  lemma PartlyRoot(m: Mem, m1: Mem, at: Tree, n: Node, i: nat)
    requires n in at && Partly(m, m1, at, n, i)
    ensures at[n] in m1.tables
  {
  }

  // ----- The whole tree -----

  /** Every mapping has a permission, so its entry cannot be taken for a pointer. */
  ghost predicate Permitted(m: Mem, at: Tree) {
    forall v: nat :: Leaf(m, at, v).Mapped? ==> HasPermission(Leaf(m, at, v).flags)
  }

  lemma AllUnderRoot(m: Mem, root: nat, at: Tree, k: Node)
    requires IsTree(m, root, at) && k in at
    ensures k.level <= 2 && Under(k, ROOT)
  {
    TreeIsClosed(m, root, at);
    AncestorIn(at, k, 2);
    AncestorLevel(k, 2);
    assert NodeOk(m, at, Ancestor(k, 2));
  }

  lemma WholeFrames(m: Mem, root: nat, at: Tree)
    requires IsTree(m, root, at)
    ensures FramesUnder(at, ROOT) == at.Values
  {
    forall k | k in at
      ensures Under(k, ROOT)
    {
      AllUnderRoot(m, root, at, k);
    }
  }

  lemma LeafOfEntry(m: Mem, at: Tree, k: Node, i: nat)
    requires k in at && k.level == 0 && i < 512
    ensures Leaf(m, at, k.prefix * 512 + i) == Decode(Entry(m, at[k], i))
  {
    var v := k.prefix * 512 + i;
    LowPage(v);
    assert v / 512 == k.prefix;
  }

  lemma WholeNoLeaf(m: Mem, root: nat, at: Tree)
    requires IsTree(m, root, at)
    ensures NoLeaf(m, at, ROOT) <==> forall v: nat :: Leaf(m, at, v).Unmapped?
  {
    if NoLeaf(m, at, ROOT) {
      forall v: nat
        ensures Leaf(m, at, v).Unmapped?
      {
        LowPage(v);
        if Above(0, v) in at {
          AllUnderRoot(m, root, at, Above(0, v));
        }
      }
    }
    if forall v: nat :: Leaf(m, at, v).Unmapped? {
      forall k, i | k in at && Under(k, ROOT) && k.level == 0 && 0 <= i < 512
        ensures !V(Entry(m, at[k], i))
      {
        LeafOfEntry(m, at, k, i);
      }
    }
  }

  lemma WholeSubOk(m: Mem, root: nat, at: Tree)
    requires MemOk(m) && IsTree(m, root, at) && Permitted(m, at)
    ensures SubOk(m, at, ROOT)
  {
    forall k | k in at && Under(k, ROOT)
      ensures TableOk(m, at, k)
    {
      NodeTable(m, root, at, k);
      if k.level == 0 {
        forall i: nat | i < 512 && V(Entry(m, at[k], i))
          ensures HasPermission(Entry(m, at[k], i))
        {
          LeafOfEntry(m, at, k, i);
          LeafFlags(Entry(m, at[k], i));
        }
      }
    }
  }

  /** Pages are mapped only below page n. */
  ghost predicate OnlyBelow(m: Mem, at: Tree, n: nat) {
    forall v: nat :: Leaf(m, at, v).Mapped? ==> v < n
  }

  lemma AfterUnmap(m: Mem, at: Tree, m1: Mem, n: nat)
    requires Unmaps(m, at, m1, 0, n) && Permitted(m, at) && n <= PAGES
    ensures Permitted(m1, at)
    ensures OnlyBelow(m, at, n) <==> forall v: nat :: Leaf(m1, at, v).Unmapped?
  {
  }

  lemma PermittedNotBare(m: Mem, at: Tree, first: nat, n: nat)
    requires Permitted(m, at)
    ensures NoBareV(m, at, first, n)
  {
    assert !HasPermission(1);
  }

  lemma AfterTeardown(m: Mem, at: Tree, m1: Mem)
    requires TablesKept(m, at, m1)
    ensures m1.tables - at.Values == m.tables - at.Values
  {
  }

  /** Pages are mapped only below page n or at the top two pages. */
  ghost predicate UserAndTop(m: Mem, at: Tree, n: nat) {
    forall v: nat :: Leaf(m, at, v).Mapped? ==> v < n || PAGES - 2 <= v < PAGES
  }

  /** Dropping the trampoline and trapframe mappings leaves the user's as they are. */
  lemma AfterTop(m: Mem, at: Tree, m1: Mem, m2: Mem, n: nat)
    requires Unmaps(m, at, m1, PAGES - 1, 1) && Unmaps(m1, at, m2, PAGES - 2, 1)
    requires Permitted(m, at) && n <= PAGES - 2 && Owned(m, at, 0, n) && m2.data == m.data
    ensures Permitted(m2, at) && Owned(m2, at, 0, n) && FramesOf(m2, at, 0, n) == FramesOf(m, at, 0, n)
    ensures OnlyBelow(m2, at, n) <==> UserAndTop(m, at, n)
  {
    forall v: nat
      ensures Leaf(m2, at, v) == if PAGES - 2 <= v < PAGES then Unmapped else Leaf(m, at, v)
    {
    }
    SameFramesOf(m, at, m2, n);
    if UserAndTop(m, at, n) {
      assert OnlyBelow(m2, at, n);
    }
    if OnlyBelow(m2, at, n) {
      forall v: nat | Leaf(m, at, v).Mapped?
        ensures v < n || PAGES - 2 <= v < PAGES
      {
        assert PAGES - 2 <= v < PAGES || Leaf(m2, at, v).Mapped?;
      }
    }
  }

  lemma SameFramesOf(m: Mem, at: Tree, m2: Mem, n: nat)
    requires forall v: nat :: v < n ==> Leaf(m2, at, v) == Leaf(m, at, v)
    ensures FramesOf(m2, at, 0, n) == FramesOf(m, at, 0, n)
  {
  }

  lemma PermittedAfterOne(m: Mem, at: Tree, m1: Mem, v: nat)
    requires Unmaps(m, at, m1, v, 1) && Permitted(m, at)
    ensures Permitted(m1, at)
  {
  }

  lemma NewTree(m: Mem, f: nat)
    requires MemOk(m) && f in m.free
    ensures var m' := Mem(m.tables[f := Zeros(512)], m.data, m.free - {f});
      && MemOk(m') && IsTree(m', f, map[ROOT := f]) && OnlyBelow(m', map[ROOT := f], 0)
      && (map[ROOT := f]).Values == {f} && Inside(m, map[], m', map[ROOT := f])
  {
    var m', at := Mem(m.tables[f := Zeros(512)], m.data, m.free - {f}), map[ROOT := f];
    forall n, i | n in at && n.level > 0 && 0 <= i < 512
      ensures EntryOk(m', at, n, i)
    {
      assert Entry(m', f, i) == 0;
    }
    assert NodeOk(m', at, ROOT);
    assert at[ROOT] == f && at.Values == {f};
  }

  /** The two mappings of proc_pagetable, each made or not. */
  lemma TopMapped(m: Mem, at: Tree, m1: Mem, at1: Tree, m2: Mem, at2: Tree, n1: nat, n2: nat, f1: nat, f2: nat)
    requires OnlyBelow(m, at, 0) && n1 <= 1 && n2 <= 1
    requires MapsRun(m, at, m1, at1, PAGES - 1, n1, f1, WithV(10))
    requires MapsRun(m1, at1, m2, at2, PAGES - 2, n2, f2, WithV(6))
    ensures UserAndTop(m2, at2, 0) && Permitted(m2, at2)
    ensures Leaf(m2, at2, PAGES - 1) in {Unmapped, Mapped(f1, 11)}
    ensures Leaf(m2, at2, PAGES - 2) in {Unmapped, Mapped(f2, 7)}
    ensures Leaf(m2, at2, PAGES - 1).Mapped? <==> n1 == 1
    ensures Leaf(m2, at2, PAGES - 2).Mapped? <==> n2 == 1
  {
    assert HasPermission(11) && HasPermission(7);
    forall v: nat
      ensures Leaf(m2, at2, v).Mapped? ==>
        || (v == PAGES - 1 && Leaf(m2, at2, v) == Mapped(f1, 11))
        || (v == PAGES - 2 && Leaf(m2, at2, v) == Mapped(f2, 7))
    {
    }
  }

  lemma TopUnmapped(m: Mem, at: Tree, m1: Mem, at1: Tree, n: nat, frame: nat, flags: nat)
    requires OnlyBelow(m, at, 0) && MapsRun(m, at, m1, at1, PAGES - 1, n, frame, flags)
    ensures Leaf(m, at, PAGES - 1).Unmapped? && Leaf(m1, at1, PAGES - 2).Unmapped?
  {
  }

  /** With only the top pages mapped, every page below the user's end is free for a copy. */
  lemma ClearBelowTop(m: Mem, at: Tree, n: nat)
    requires UserAndTop(m, at, 0) && n <= PAGES - 2
    ensures Clear(m, at, 0, n)
  {
  }

  /** The frames that the top pages map to. */
  lemma TopFrames(m: Mem, at: Tree, f1: nat, f2: nat)
    requires UserAndTop(m, at, 0)
    requires Leaf(m, at, PAGES - 1) in {Unmapped, Mapped(f1, 11)} && Leaf(m, at, PAGES - 2) in {Unmapped, Mapped(f2, 7)}
    requires Leaf(m, at, PAGES - 1).Mapped? <==> Leaf(m, at, PAGES - 2).Mapped?
    ensures FramesOf(m, at, 0, PAGES) == if Leaf(m, at, PAGES - 1).Mapped? then {f1, f2} else {}
  {
    if Leaf(m, at, PAGES - 1).Mapped? {
      assert HasPage(m, at, PAGES - 1) && HasPage(m, at, PAGES - 2);
    }
  }

  /** The last two pages lie under one page-table page. */
  lemma TopTableMissing(at: Tree)
    ensures Above(0, PAGES - 1) !in at ==> Missing(at, 2, PAGES - 2) >= 1
  {
    assert Above(0, PAGES - 1) !in at ==> Missing(at, 1, PAGES - 2) >= 1;
  }

  lemma RootAlone(root: nat, v: nat)
    ensures Missing(map[ROOT := root], 2, v) == 2
  {
    assert Missing(map[ROOT := root], 1, v) == 1;
  }

  /** Once the last page is mapped, the page below it needs no further page-table page. */
  lemma TopTables(m0: Mem, at0: Tree, m: Mem, root: nat, at: Tree, frame: nat, flags: nat)
    requires IsTree(m, root, at) && MapsRun(m0, at0, m, at, PAGES - 1, 1, frame, flags)
    ensures Missing(at, 2, PAGES - 2) == 0
  {
    NothingMissing(m, root, at, PAGES - 1);
    assert Missing(at, 1, PAGES - 1) == 0;
    assert Missing(at, 1, PAGES - 2) == 0;
  }

  /** The three page-table pages on the way to the last page are all there are, so that
      page 0 lacks two. */
  lemma TopAlone(m: Mem, m': Mem, root: nat, at: Tree)
    requires Inside(m, map[], m', at) && IsTree(m', root, at) && Leaf(m', at, PAGES - 1).Mapped?
    requires |m.free| <= |m'.free| + 3
    ensures Missing(at, 2, 0) == 2
  {
    NothingMissing(m', root, at, PAGES - 1);
    assert Missing(at, 1, PAGES - 1) == 0;
    NotAFourth(m, m', root, at, Above(0, 0));
    NotAFourth(m, m', root, at, Above(1, 0));
    assert Missing(at, 1, 0) == 1;
  }

  lemma NotAFourth(m: Mem, m': Mem, root: nat, at: Tree, n: Node)
    requires Inside(m, map[], m', at) && IsTree(m', root, at)
    requires Above(0, PAGES - 1) in at && Above(1, PAGES - 1) in at
    requires n !in {ROOT, Above(0, PAGES - 1), Above(1, PAGES - 1)} && |m.free| <= |m'.free| + 3
    ensures n !in at
  {
    if n in at {
      FourTaken(m, m', at, ROOT, Above(0, PAGES - 1), Above(1, PAGES - 1), n);
    }
  }

  lemma FourTaken(m: Mem, m': Mem, at: Tree, a: Node, b: Node, c: Node, d: Node)
    requires Inside(m, map[], m', at) && a in at && b in at && c in at && d in at
    requires a != b && a != c && a != d && b != c && b != d && c != d
    requires forall n, k :: n in at && k in at && at[n] == at[k] ==> n == k
    ensures |m.free| >= |m'.free| + 4
  {
    assert at[a] in at.Values && at[b] in at.Values && at[c] in at.Values && at[d] in at.Values;
    var one := m'.free + {at[a]};
    var two := one + {at[b]};
    var three := two + {at[c]};
    var four := three + {at[d]};
    assert four + (m.free - four) == m.free;
  }

  lemma FewerFree(m: Mem, at: Tree, m': Mem, at': Tree)
    requires Inside(m, at, m', at')
    ensures m'.free <= m.free
  {
  }
}
