/** Sv39 page tables as kernel/vm.c builds them: three levels of 512-entry pages in
    physical memory, and the flat map from pages to frames that they stand for.
    Pages and frames are 4096 bytes (PGSIZE); a frame is named by its number. */
module PageTable {
  import opened ByteSeq

  const MAXVA := 0x40_0000_0000
  const PAGES := 0x400_0000            // pages below MAXVA
  const WORD := 0x1_0000_0000_0000_0000

  // ----- The encodings of kernel/riscv.h -----

  function Pa2Pte(pa: nat): nat {
    pa / 4096 * 1024
  }

  function Pte2Pa(pte: nat): nat {
    pte / 1024 * 4096
  }

  function PteFlags(pte: nat): nat {
    pte % 1024
  }

  // The flag bits of an entry, or of its flags.
  predicate V(pte: nat) { PteFlags(pte) % 2 == 1 }
  predicate R(pte: nat) { PteFlags(pte) % 4 >= 2 }
  predicate W(pte: nat) { PteFlags(pte) % 8 >= 4 }
  predicate X(pte: nat) { PteFlags(pte) % 16 >= 8 }
  predicate U(pte: nat) { PteFlags(pte) % 32 >= 16 }

  /** perm | PTE_V */
  function WithV(perm: nat): nat {
    if V(perm) then perm else perm + 1
  }

  /** PXSHIFT as a divisor. */
  function PxUnit(level: nat): nat
    requires level <= 2
  {
    if level == 0 then 4096 else if level == 1 then 0x20_0000 else 0x4000_0000
  }

  function Px(level: nat, va: nat): nat
    requires level <= 2
  {
    va / PxUnit(level) % 512
  }

  lemma Unpack(q: nat, low: nat)
    requires low < 1024
    ensures (q * 1024 + low) / 1024 == q && (q * 1024 + low) % 1024 == low
  {
  }

  /** The flag bits of an entry are those of its low ten bits. */
  lemma FlagBits(q: nat, low: nat)
    requires low < 1024
    ensures V(q * 1024 + low) == V(low) && R(q * 1024 + low) == R(low) && W(q * 1024 + low) == W(low)
    ensures X(q * 1024 + low) == X(low) && U(q * 1024 + low) == U(low)
  {
    Unpack(q, low);
    Unpack(0, low);
  }

  lemma PteRoundTrip(pa: nat, perm: nat)
    requires perm < 1024
    ensures Pte2Pa(Pa2Pte(pa) + WithV(perm)) == pa / 4096 * 4096
    ensures PteFlags(Pa2Pte(pa) + WithV(perm)) == WithV(perm) && V(Pa2Pte(pa) + WithV(perm))
    ensures Decode(Pa2Pte(pa) + WithV(perm)) == Mapped(pa / 4096, WithV(perm))
  {
    Unpack(pa / 4096, WithV(perm));
    FlagBits(pa / 4096, WithV(perm));
  }

  // ----- Physical memory -----

  /** Frames used as page-table pages, frames of bytes, and frames the allocator has. */
  datatype Mem = Mem(tables: map<nat, seq<nat>>, data: map<nat, seq<nat>>, free: set<nat>)

  ghost predicate MemOk(m: Mem) {
    && (forall f :: f in m.tables ==> f > 0 && |m.tables[f]| == 512 && f !in m.data && f !in m.free)
    && (forall f :: f in m.data ==> f > 0 && |m.data[f]| == 4096 && f !in m.free)
    && (forall f :: f in m.free ==> f > 0)
  }

  function Entry(m: Mem, f: nat, i: nat): nat {
    if f in m.tables && i < |m.tables[f]| then m.tables[f][i] else 0
  }

  // ----- The tree -----

  /** A page-table page of the tree: its level and the high bits of the pages below it. */
  datatype Node = Node(level: nat, prefix: nat)

  type Tree = map<Node, nat>

  const ROOT := Node(2, 0)

  function Child(n: Node, i: nat): Node
    requires n.level > 0
  {
    Node(n.level - 1, n.prefix * 512 + i)
  }

  function Parent(n: Node): Node {
    Node(n.level + 1, n.prefix / 512)
  }

  /** The node above page v at a level, and the index that leads on towards v. */
  function Above(level: nat, v: nat): Node
    requires level <= 2
  {
    if level == 0 then Node(0, v / 512)
    else if level == 1 then Node(1, v / 512 / 512)
    else ROOT
  }

  function Index(level: nat, v: nat): nat
    requires level <= 2
  {
    Px(level, v * 4096)
  }

  ghost predicate NodeOk(m: Mem, at: Tree, n: Node)
    requires n in at
  {
    && n.level <= 2 && (n.level == 2 ==> n == ROOT)
    && at[n] in m.tables
    && (n.level < 2 ==> Parent(n) in at)
  }

  ghost predicate EntryOk(m: Mem, at: Tree, n: Node, i: nat)
    requires n in at && n.level > 0
  {
    var pte := Entry(m, at[n], i);
    && (V(pte) <==> Child(n, i) in at)
    && (Child(n, i) in at ==> pte == at[Child(n, i)] * 1024 + 1)
  }

  /** `at` names the page-table pages that hang off root, each once. */
  ghost predicate IsTree(m: Mem, root: nat, at: Tree) {
    && ROOT in at && at[ROOT] == root
    && (forall n :: n in at ==> NodeOk(m, at, n))
    && (forall n, i :: n in at && n.level > 0 && 0 <= i < 512 ==> EntryOk(m, at, n, i))
    && (forall n, k :: n in at && k in at && at[n] == at[k] ==> n == k)
  }

  // ----- The flat map -----

  datatype Mapping = Unmapped | Mapped(frame: nat, flags: nat)

  function Decode(pte: nat): Mapping {
    if V(pte) then Mapped(pte / 1024, PteFlags(pte)) else Unmapped
  }

  function Leaf(m: Mem, at: Tree, v: nat): Mapping {
    if Above(0, v) in at then Decode(Entry(m, at[Above(0, v)], Index(0, v))) else Unmapped
  }

  /** Address translation as section 4.3.2 of the RISC-V privileged specification has it. */
  function Translate(m: Mem, table: nat, level: nat, v: nat): Mapping
    requires level <= 2
    decreases level
  {
    var pte := Entry(m, table, Index(level, v));
    if !V(pte) || (W(pte) && !R(pte)) then Unmapped
    else if R(pte) || X(pte) then
      if (pte / 1024) % (PxUnit(level) / 4096) != 0 then Unmapped
      else Mapped(pte / 1024 + v % (PxUnit(level) / 4096), PteFlags(pte))
    else if level == 0 then Unmapped
    else Translate(m, pte / 1024, level - 1, v)
  }

  /** Permissions that make an entry a leaf rather than a pointer or a reserved form. */
  predicate IsLeaf(flags: nat) {
    R(flags) || (X(flags) && !W(flags))
  }

  lemma Path(level: nat, v: nat)
    requires 0 < level <= 2 && v < 2 * PAGES
    ensures Child(Above(level, v), Index(level, v)) == Above(level - 1, v)
    ensures Parent(Above(level - 1, v)) == Above(level, v)
    ensures Index(level, v) < 512
  {
    var a := v / 512;
    assert a / 512 * 512 + a % 512 == a;
    assert v * 4096 / (0x20_0000) == a;
    if level == 2 {
      assert v * 4096 / (0x4000_0000) == a / 512;
    }
  }

  lemma LeafFlags(pte: nat)
    ensures R(PteFlags(pte)) == R(pte) && W(PteFlags(pte)) == W(pte) && X(PteFlags(pte)) == X(pte)
    ensures V(PteFlags(pte)) == V(pte) && U(PteFlags(pte)) == U(pte)
  {
    Unpack(0, pte % 1024);
  }

  /** What Translate does at one entry of a tree. */
  lemma TranslateStep(m: Mem, table: nat, level: nat, v: nat, next: nat)
    requires 0 < level <= 2 && Entry(m, table, Index(level, v)) == next * 1024 + 1
    ensures Translate(m, table, level, v) == Translate(m, next, level - 1, v)
  {
    hide V, R, W, X, Index, PxUnit, Entry;
    PointerEntry(next);
  }

  /** An entry that walk writes: a pointer, not a leaf. */
  lemma PointerEntry(f: nat)
    ensures V(f * 1024 + 1) && !R(f * 1024 + 1) && !W(f * 1024 + 1) && !X(f * 1024 + 1)
    ensures (f * 1024 + 1) / 1024 == f && PteFlags(f * 1024 + 1) == 1
  {
    Unpack(f, 1);
  }

  /** The hardware's translation is the flat map, on pages mapped with leaf permissions. */
  lemma {:induction false} TranslateIsLeaf(m: Mem, root: nat, at: Tree, level: nat, v: nat)
    requires IsTree(m, root, at) && level <= 2 && v < 2 * PAGES && Above(level, v) in at
    ensures Translate(m, at[Above(level, v)], level, v)
         == if Leaf(m, at, v).Mapped? && IsLeaf(Leaf(m, at, v).flags) then Leaf(m, at, v) else Unmapped
    decreases level
  {
    var n, i := Above(level, v), Index(level, v);
    if level == 0 {
      LeafFlags(Entry(m, at[n], i));
    } else {
      Path(level, v);
      assert EntryOk(m, at, n, i);
      if Child(n, i) in at {
        TranslateStep(m, at[n], level, v, at[Child(n, i)]);
        TranslateIsLeaf(m, root, at, level - 1, v);
      } else {
        NoDescendant(m, root, at, level, v);
      }
    }
  }

  /** The page-table pages that walk has to add below level `level` on its way to page v. */
  function Missing(at: Tree, level: nat, v: nat): (n: nat)
    requires level <= 2
    ensures n <= level
  {
    if level == 0 then 0 else (if Above(level - 1, v) in at then 0 else 1) + Missing(at, level - 1, v)
  }

  lemma MissingAfter(at: Tree, level: nat, v: nat, f: nat)
    requires 0 < level <= 2 && Above(level - 1, v) !in at
    ensures Missing(at[Above(level - 1, v) := f], level - 1, v) == Missing(at, level, v) - 1
  {
    assert level == 1 || level == 2;
  }

  lemma NothingMissing(m: Mem, root: nat, at: Tree, v: nat)
    requires IsTree(m, root, at) && v < PAGES && Leaf(m, at, v).Mapped?
    ensures Missing(at, 2, v) == 0
  {
    Path(1, v);
    assert Above(0, v) in at && Above(1, v) in at;
    assert Missing(at, 1, v) == 0;
  }

  lemma NoDescendant(m: Mem, root: nat, at: Tree, level: nat, v: nat)
    requires IsTree(m, root, at) && 0 < level <= 2 && v < 2 * PAGES && Above(level - 1, v) !in at
    ensures Above(0, v) !in at
  {
    Path(1, v);
  }

  // ----- Adding a page-table page -----

  /** Frame f, cleared, hung under entry i of a table. */
  function Hung(m: Mem, table: nat, i: nat, f: nat): Mem
    requires table in m.tables && i < |m.tables[table]|
  {
    m.(tables := m.tables[f := Zeros(512)][table := m.tables[table][i := f * 1024 + 1]], free := m.free - {f})
  }

  lemma HungEntry(m: Mem, table: nat, i: nat, f: nat, g: nat, j: nat)
    requires table in m.tables && |m.tables[table]| == 512 && i < 512 && j < 512 && f !in m.tables
    ensures Entry(Hung(m, table, i, f), g, j)
         == if g == table && j == i then f * 1024 + 1 else if g == f then 0 else Entry(m, g, j)
  {
  }

  lemma ChildApart(n: Node, i: nat, k: Node, j: nat)
    requires n.level > 0 && k.level > 0 && i < 512 && j < 512 && Child(n, i) == Child(k, j)
    ensures n == k && i == j
  {
  }

  lemma HungNode(m: Mem, root: nat, at: Tree, n: Node, i: nat, f: nat, k: Node, j: nat)
    requires MemOk(m) && IsTree(m, root, at) && n in at && n.level > 0 && i < 512
    requires !V(Entry(m, at[n], i)) && f in m.free
    requires k in at[Child(n, i) := f] && k.level > 0 && j < 512
    ensures EntryOk(Hung(m, at[n], i, f), at[Child(n, i) := f], k, j)
  {
    var c := Child(n, i);
    assert NodeOk(m, at, n) && EntryOk(m, at, n, i);
    if k != c {
      HungEntry(m, at[n], i, f, at[k], j);
      assert NodeOk(m, at, k) && EntryOk(m, at, k, j);
      if Child(k, j) == c {
        ChildApart(n, i, k, j);
        FlagBits(f, 1);
      }
    } else {
      HungEntry(m, at[n], i, f, f, j);
      assert Parent(Child(k, j)) == k;
    }
  }

  lemma HungKeepsTree(m: Mem, root: nat, at: Tree, n: Node, i: nat, f: nat)
    requires MemOk(m) && IsTree(m, root, at) && n in at && n.level > 0 && i < 512
    requires !V(Entry(m, at[n], i)) && f in m.free
    ensures MemOk(Hung(m, at[n], i, f)) && IsTree(Hung(m, at[n], i, f), root, at[Child(n, i) := f])
  {
    var m', c := Hung(m, at[n], i, f), Child(n, i);
    var at' := at[c := f];
    assert EntryOk(m, at, n, i);
    forall k | k in at'
      ensures NodeOk(m', at', k)
    {
      assert NodeOk(m, at, n);
      if k == c {
        assert Parent(c) == n;
      } else {
        assert NodeOk(m, at, k);
      }
    }
    forall k, j | k in at' && k.level > 0 && 0 <= j < 512
      ensures EntryOk(m', at', k, j)
    {
      HungNode(m, root, at, n, i, f, k, j);
    }
    forall k, l | k in at' && l in at' && at'[k] == at'[l]
      ensures k == l
    {
      assert k in at ==> NodeOk(m, at, k);
      assert l in at ==> NodeOk(m, at, l);
    }
  }

  lemma HungKeepsLeaf(m: Mem, root: nat, at: Tree, n: Node, i: nat, f: nat, v: nat)
    requires MemOk(m) && IsTree(m, root, at) && n in at && n.level > 0 && i < 512
    requires !V(Entry(m, at[n], i)) && f in m.free
    ensures Leaf(Hung(m, at[n], i, f), at[Child(n, i) := f], v) == Leaf(m, at, v)
  {
    var c, k, j := Child(n, i), Above(0, v), Index(0, v);
    assert EntryOk(m, at, n, i) && NodeOk(m, at, n);
    if k == c {
      HungEntry(m, at[n], i, f, f, j);
    } else if k in at {
      assert NodeOk(m, at, k);
      HungEntry(m, at[n], i, f, at[k], j);
    }
  }

  /** Only page-table pages of the tree change, and pages may be added to it. */
  ghost predicate Inside(m: Mem, at: Tree, m': Mem, at': Tree) {
    && (forall n :: n in at ==> n in at' && at'[n] == at[n])
    && (forall n :: n in at' && n !in at ==> at'[n] in m.free)
    && (forall f :: f in m'.free <==> f in m.free && f !in at'.Values)
    && (forall f :: f in m'.tables <==> f in m.tables || f in at'.Values)
    && (forall f :: f in m.tables && f !in at.Values ==> m'.tables[f] == m.tables[f])
  }

  ghost predicate SameLeaves(m: Mem, at: Tree, m': Mem, at': Tree) {
    forall v :: Leaf(m', at', v) == Leaf(m, at, v)
  }

  /** What walk may do to a tree: add page-table pages, leaving the flat map alone and
      touching no other frame. */
  ghost predicate Extends(m: Mem, at: Tree, m': Mem, at': Tree) {
    m'.data == m.data && Inside(m, at, m', at') && SameLeaves(m, at, m', at')
  }

  lemma ExtendsSelf(m: Mem, root: nat, at: Tree)
    requires MemOk(m) && IsTree(m, root, at)
    ensures Extends(m, at, m, at)
  {
    forall f | f in at.Values
      ensures f in m.tables
    {
      var n :| n in at && at[n] == f;
      assert NodeOk(m, at, n);
    }
  }

  lemma HungExtends(m: Mem, root: nat, at: Tree, n: Node, i: nat, f: nat)
    requires MemOk(m) && IsTree(m, root, at) && n in at && n.level > 0 && i < 512
    requires !V(Entry(m, at[n], i)) && f in m.free
    ensures Extends(m, at, Hung(m, at[n], i, f), at[Child(n, i) := f])
  {
    var m', c := Hung(m, at[n], i, f), Child(n, i);
    var at' := at[c := f];
    assert EntryOk(m, at, n, i);
    assert at'.Values == at.Values + {f} by {
      assert at'[c] == f;
      forall g | g in at.Values
        ensures g in at'.Values
      {
        var k :| k in at && at[k] == g;
        assert at'[k] == g;
      }
    }
    ExtendsSelf(m, root, at);
    forall v: nat
      ensures Leaf(m', at', v) == Leaf(m, at, v)
    {
      HungKeepsLeaf(m, root, at, n, i, f, v);
    }
  }

  lemma ExtendsBoth(m: Mem, at: Tree, m1: Mem, at1: Tree, m2: Mem, at2: Tree)
    requires MemOk(m) && Extends(m, at, m1, at1) && Extends(m1, at1, m2, at2)
    ensures Extends(m, at, m2, at2)
  {
    InsideBoth(m, at, m1, at1, m2, at2);
  }

  lemma InsideBoth(m: Mem, at: Tree, m1: Mem, at1: Tree, m2: Mem, at2: Tree)
    requires MemOk(m) && Inside(m, at, m1, at1) && Inside(m1, at1, m2, at2)
    ensures Inside(m, at, m2, at2)
  {
    forall f | f in at1.Values
      ensures f in at2.Values
    {
      var n :| n in at1 && at1[n] == f;
      assert at2[n] == f;
    }
  }

  // ----- Writing a leaf entry -----

  function Set(m: Mem, table: nat, i: nat, pte: nat): Mem
    requires table in m.tables && i < |m.tables[table]|
  {
    var entries: seq<nat> := m.tables[table][i := pte];
    m.(tables := m.tables[table := entries])
  }

  lemma ClearMemOk(m: Mem, table: nat, i: nat)
    requires MemOk(m) && table in m.tables && i < |m.tables[table]|
    ensures MemOk(Set(m, table, i, 0))
  {
  }

  lemma SetKeepsTree(m: Mem, root: nat, at: Tree, n: Node, i: nat, pte: nat)
    requires MemOk(m) && IsTree(m, root, at) && n in at && n.level == 0 && i < 512
    ensures at[n] in m.tables && |m.tables[at[n]]| == 512
    ensures MemOk(Set(m, at[n], i, pte)) && IsTree(Set(m, at[n], i, pte), root, at)
  {
    assert NodeOk(m, at, n);
    var m' := Set(m, at[n], i, pte);
    forall k | k in at
      ensures NodeOk(m', at, k)
    {
      assert NodeOk(m, at, k);
    }
    forall k, j | k in at && k.level > 0 && 0 <= j < 512
      ensures EntryOk(m', at, k, j)
    {
      assert EntryOk(m, at, k, j);
      assert at[k] != at[n];
    }
  }

  lemma SetLeaf(m: Mem, root: nat, at: Tree, n: Node, i: nat, pte: nat, v: nat)
    requires MemOk(m) && IsTree(m, root, at) && n in at && n.level == 0 && i < 512
    requires at[n] in m.tables && |m.tables[at[n]]| == 512
    ensures Leaf(Set(m, at[n], i, pte), at, v)
         == if v == n.prefix * 512 + i then Decode(pte) else Leaf(m, at, v)
  {
    LowPage(v);
    var k := Above(0, v);
    if k in at && k != n {
      assert at[k] != at[n];
    }
  }

  lemma LowPage(v: nat)
    ensures Index(0, v) < 512 && v == Above(0, v).prefix * 512 + Index(0, v)
  {
    assert v * 4096 / 4096 == v;
  }

  lemma SetInside(m: Mem, root: nat, at: Tree, n: Node, i: nat, pte: nat)
    requires MemOk(m) && IsTree(m, root, at) && n in at && i < 512
    requires at[n] in m.tables && |m.tables[at[n]]| == 512
    ensures Inside(m, at, Set(m, at[n], i, pte), at)
  {
    ExtendsSelf(m, root, at);
    assert at[n] in at.Values;
  }

  lemma PxOfPage(level: nat, va: nat)
    requires level <= 2
    ensures Px(level, va) == Index(level, va / 4096)
  {
    var v := va / 4096;
    assert v * 4096 / 4096 == v;
    assert va / (0x20_0000) == v / 512;
    assert v * 4096 / (0x20_0000) == v / 512;
    assert va / (0x4000_0000) == v / 512 / 512;
    assert v * 4096 / (0x4000_0000) == v / 512 / 512;
  }

  /** n pages from `first` now map to consecutive frames; the flat map is otherwise as it was. */
  ghost predicate MapsRun(m: Mem, at: Tree, m': Mem, at': Tree, first: nat, n: nat, frame: nat, flags: nat) {
    forall v: nat :: Leaf(m', at', v)
      == if first <= v < first + n then Mapped(frame + v - first, flags) else Leaf(m, at, v)
  }

  lemma MapsNone(m: Mem, at: Tree, first: nat, frame: nat, flags: nat)
    ensures MapsRun(m, at, m, at, first, 0, frame, flags)
  {
  }

  lemma MapsOneMore(m: Mem, at: Tree, m1: Mem, at1: Tree, m2: Mem, at2: Tree,
                    first: nat, n: nat, frame: nat, flags: nat)
    requires MapsRun(m, at, m1, at1, first, n, frame, flags)
    requires MapsRun(m1, at1, m2, at2, first + n, 1, frame + n, flags)
    ensures MapsRun(m, at, m2, at2, first, n + 1, frame, flags)
  {
  }

  lemma MapsNoMore(m: Mem, at: Tree, m1: Mem, at1: Tree, m2: Mem, at2: Tree,
                   first: nat, n: nat, frame: nat, flags: nat)
    requires MapsRun(m, at, m1, at1, first, n, frame, flags) && SameLeaves(m1, at1, m2, at2)
    ensures MapsRun(m, at, m2, at2, first, n, frame, flags)
  {
  }

  lemma MapsAfterSame(m: Mem, at: Tree, m1: Mem, at1: Tree, m2: Mem, at2: Tree,
                      first: nat, n: nat, frame: nat, flags: nat)
    requires SameLeaves(m, at, m1, at1) && MapsRun(m1, at1, m2, at2, first, n, frame, flags)
    ensures MapsRun(m, at, m2, at2, first, n, frame, flags)
  {
  }

  /** The n pages from `first` are unmapped. */
  ghost predicate Clear(m: Mem, at: Tree, first: nat, n: nat) {
    forall v: nat :: first <= v < first + n ==> Leaf(m, at, v).Unmapped?
  }

  lemma ClearNone(m: Mem, at: Tree, first: nat)
    ensures Clear(m, at, first, 0)
  {
  }

  lemma ClearOneMore(m: Mem, at: Tree, first: nat, n: nat)
    requires Clear(m, at, first, n) && Leaf(m, at, first + n).Unmapped?
    ensures Clear(m, at, first, n + 1)
  {
  }

  lemma PastRun(m: Mem, at: Tree, m': Mem, at': Tree, first: nat, n: nat, frame: nat, flags: nat)
    requires MapsRun(m, at, m', at', first, n, frame, flags)
    ensures Leaf(m', at', first + n) == Leaf(m, at, first + n)
  {
  }

  lemma SetMapsRun(m: Mem, root: nat, at: Tree, v: nat, pa: nat, perm: nat)
    requires MemOk(m) && IsTree(m, root, at) && Above(0, v) in at && perm < 1024
    requires at[Above(0, v)] in m.tables && |m.tables[at[Above(0, v)]]| == 512 && Index(0, v) < 512
    ensures MapsRun(m, at, Set(m, at[Above(0, v)], Index(0, v), Pa2Pte(pa) + WithV(perm)), at,
                    v, 1, pa / 4096, WithV(perm))
  {
    var n, i, pte := Above(0, v), Index(0, v), Pa2Pte(pa) + WithV(perm);
    PteRoundTrip(pa, perm);
    LowPage(v);
    forall w: nat
      ensures Leaf(Set(m, at[n], i, pte), at, w)
           == if v <= w < v + 1 then Mapped(pa / 4096 + w - v, WithV(perm)) else Leaf(m, at, w)
    {
      SetLeaf(m, root, at, n, i, pte, w);
    }
  }

  /** The last page that mappages and uvmunmap work on; the subtraction wraps at 64 bits. */
  function LastPage(va: nat, size: nat): nat {
    (va + size + WORD - 1) % WORD / 4096
  }

  lemma BaseOf(v: nat)
    ensures v * 4096 / 4096 == v && (v * 4096 < MAXVA <==> v < PAGES)
  {
  }

  // ----- Removing mappings -----

  ghost predicate Unmaps(m: Mem, at: Tree, m': Mem, first: nat, n: nat) {
    forall v: nat :: Leaf(m', at, v) == if first <= v < first + n && v < PAGES then Unmapped else Leaf(m, at, v)
  }

  predicate HasPage(m: Mem, at: Tree, v: nat) {
    v < PAGES && Leaf(m, at, v).Mapped?
  }

  /** The frames that pages [first, first + n) map to. */
  ghost function FramesOf(m: Mem, at: Tree, first: nat, n: nat): set<nat> {
    set v | first <= v < first + n && HasPage(m, at, v) :: Leaf(m, at, v).frame
  }

  /** Pages [first, first + n) map to frames of bytes, no two to the same. */
  ghost predicate Owned(m: Mem, at: Tree, first: nat, n: nat) {
    && (forall v: nat :: first <= v < first + n && HasPage(m, at, v) ==> Leaf(m, at, v).frame in m.data)
    && (forall v: nat, w: nat :: first <= v < w < first + n && HasPage(m, at, v) && HasPage(m, at, w) ==>
          Leaf(m, at, v).frame != Leaf(m, at, w).frame)
  }

  lemma UnmapsNone(m: Mem, at: Tree, first: nat)
    ensures Unmaps(m, at, m, first, 0) && FramesOf(m, at, first, 0) == {}
  {
  }

  lemma UnmapsOneMore(m: Mem, at: Tree, m1: Mem, m2: Mem, first: nat, n: nat)
    requires Unmaps(m, at, m1, first, n) && Unmaps(m1, at, m2, first + n, 1)
    ensures Unmaps(m, at, m2, first, n + 1)
  {
  }

  lemma FramesOneMore(m: Mem, at: Tree, first: nat, n: nat)
    ensures FramesOf(m, at, first, n + 1) == FramesOf(m, at, first, n) + FramesOf(m, at, first + n, 1)
  {
  }

  lemma FrameOfOne(m: Mem, at: Tree, v: nat)
    ensures FramesOf(m, at, v, 1)
         == if HasPage(m, at, v) then {Leaf(m, at, v).frame} else {}
  {
  }

  /** A page past those unmapped still has its mapping, and its frame is not yet freed. */
  lemma NextOwned(m: Mem, at: Tree, m1: Mem, first: nat, n: nat, total: nat)
    requires Owned(m, at, first, total) && Unmaps(m, at, m1, first, n) && n < total
    requires HasPage(m, at, first + n)
    ensures Leaf(m1, at, first + n) == Leaf(m, at, first + n)
    ensures Leaf(m, at, first + n).frame in m.data && Leaf(m, at, first + n).frame !in FramesOf(m, at, first, n)
  {
  }

  /** The tables that do not belong to a tree stay as they are, and its own stay tables. */
  ghost predicate TablesKept(m: Mem, at: Tree, m': Mem) {
    && m'.tables.Keys == m.tables.Keys
    && (forall f :: f in m.tables && f !in at.Values ==> m'.tables[f] == m.tables[f])
  }

  /** Frame f handed back to the allocator. */
  function Released(m: Mem, f: nat): Mem {
    Mem(m.tables - {f}, m.data - {f}, m.free + {f})
  }

  lemma ReleaseKeepsTree(m: Mem, root: nat, at: Tree, f: nat)
    requires MemOk(m) && IsTree(m, root, at) && f in m.data
    ensures MemOk(Released(m, f)) && IsTree(Released(m, f), root, at)
    ensures Released(m, f).tables == m.tables && SameLeaves(m, at, Released(m, f), at)
  {
    var m' := Released(m, f);
    assert m'.tables == m.tables;
    forall n, i | n in at && n.level > 0 && 0 <= i < 512
      ensures EntryOk(m', at, n, i)
    {
      assert EntryOk(m, at, n, i);
    }
    forall n | n in at
      ensures NodeOk(m', at, n)
    {
      assert NodeOk(m, at, n);
    }
  }

  lemma NodeTable(m: Mem, root: nat, at: Tree, n: Node)
    requires MemOk(m) && IsTree(m, root, at) && n in at
    ensures at[n] in m.tables && |m.tables[at[n]]| == 512 && at[n] > 0 && at[n] !in m.data && at[n] !in m.free
    ensures n.level <= 2
  {
    assert NodeOk(m, at, n);
  }

  lemma ClearUnmaps(m: Mem, root: nat, at: Tree, v: nat)
    requires MemOk(m) && IsTree(m, root, at) && Above(0, v) in at && v < PAGES
    requires at[Above(0, v)] in m.tables && |m.tables[at[Above(0, v)]]| == 512 && Index(0, v) < 512
    ensures Unmaps(m, at, Set(m, at[Above(0, v)], Index(0, v), 0), v, 1)
    ensures TablesKept(m, at, Set(m, at[Above(0, v)], Index(0, v), 0))
  {
    LowPage(v);
    var n, i := Above(0, v), Index(0, v);
    forall w: nat
      ensures Leaf(Set(m, at[n], i, 0), at, w) == if v <= w < v + 1 && w < PAGES then Unmapped else Leaf(m, at, w)
    {
      SetLeaf(m, root, at, n, i, 0, w);
    }
    assert at[n] in at.Values;
  }

  lemma UnchangedUnmaps(m: Mem, at: Tree, v: nat)
    ensures !HasPage(m, at, v) ==> Unmaps(m, at, m, v, 1)
    ensures TablesKept(m, at, m)
  {
  }

  lemma AfterRelease(m: Mem, at: Tree, m1: Mem, m2: Mem, v: nat)
    requires m1.tables == m.tables && Unmaps(m1, at, m2, v, 1) && TablesKept(m1, at, m2)
    ensures Unmaps(m, at, m2, v, 1) && TablesKept(m, at, m2)
  {
    forall w: nat
      ensures Leaf(m1, at, w) == Leaf(m, at, w)
    {
    }
  }

  /** No page of the range maps with PTE_V as its only flag. */
  ghost predicate NoBareV(m: Mem, at: Tree, first: nat, n: nat) {
    forall v: nat :: first <= v < first + n && HasPage(m, at, v) ==> Leaf(m, at, v).flags != 1
  }

  lemma NextUnmapped(m: Mem, at: Tree, m1: Mem, first: nat, n: nat)
    requires Unmaps(m, at, m1, first, n)
    ensures Leaf(m1, at, first + n) == Leaf(m, at, first + n)
    ensures FramesOf(m1, at, first + n, 1) == FramesOf(m, at, first + n, 1)
  {
    FrameOfOne(m, at, first + n);
    FrameOfOne(m1, at, first + n);
  }

  lemma TablesKeptBoth(m: Mem, at: Tree, m1: Mem, m2: Mem)
    requires TablesKept(m, at, m1) && TablesKept(m1, at, m2)
    ensures TablesKept(m, at, m2)
  {
  }

  /** The number of pages the loop of uvmunmap visits. */
  function PagesIn(va: nat, size: nat): nat {
    if LastPage(va, size) < va / 4096 then 0 else LastPage(va, size) - va / 4096 + 1
  }

  lemma LoopPages(va: nat, size: nat)
    ensures PagesIn(va, size) == if LastPage(va, size) < va / 4096 then 0 else LastPage(va, size) - va / 4096 + 1
    ensures LastPage(va, size) == (va + size + WORD - 1) % WORD / 4096
  {
  }

  /** The address register of uvmunmap's loop after some turns; the sum wraps at 64 bits. */
  function LoopAddress(va: nat, turns: nat): nat {
    (va / 4096 * 4096 + turns * 4096) % WORD
  }

  predicate UnmapEnds(va: nat, size: nat) {
    LastPage(va, size) < WORD / 4096 - 1
  }

  /** uvmunmap's loop test fails at some turn exactly if the range stops short of the last
      page of the address space; with va and size zero it does not. */
  lemma UnmapEndsIff(va: nat, size: nat)
    requires va < WORD && size < WORD
    ensures UnmapEnds(va, size) <==> exists turns: nat :: LoopAddress(va, turns) > LastPage(va, size) * 4096
    ensures !UnmapEnds(0, 0) && (size > 0 && va + size <= MAXVA ==> UnmapEnds(va, size))
  {
    if UnmapEnds(va, size) {
      var turns := WORD / 4096 - 1 - va / 4096;
      assert LoopAddress(va, turns) > LastPage(va, size) * 4096;
    } else {
      assert forall turns: nat :: LoopAddress(va, turns) % 4096 == 0;
      forall turns: nat
        ensures LoopAddress(va, turns) <= LastPage(va, size) * 4096
      {
        AlignedBelowWord(LoopAddress(va, turns));
      }
    }
  }

  /** That loop meets every page that can be mapped. */
  lemma EndlessLoopMeetsAll(v: nat)
    requires v < PAGES
    ensures exists turns: nat :: LoopAddress(0, turns) == v * 4096 < MAXVA
  {
    assert LoopAddress(0, v) == v * 4096;
  }

  lemma AlignedBelowWord(a: nat)
    requires a < WORD && a % 4096 == 0
    ensures a <= (WORD / 4096 - 1) * 4096
  {
  }

  /** A size in bytes takes so many pages. */
  lemma SizePages(sz: nat)
    requires 0 < sz <= MAXVA
    ensures PagesIn(0, sz) == PagesUp(sz) <= PAGES
  {
  }

  /** The trampoline's and the trapframe's page. */
  lemma TopPages()
    ensures (MAXVA - 4096) / 4096 == PAGES - 1 && PagesIn(MAXVA - 4096, 4096) == 1 && UnmapEnds(MAXVA - 4096, 4096)
    ensures (MAXVA - 8192) / 4096 == PAGES - 2 && PagesIn(MAXVA - 8192, 4096) == 1 && UnmapEnds(MAXVA - 8192, 4096)
  {
  }

  lemma OnePage(v: nat)
    requires v < PAGES
    ensures LastPage(v * 4096, 4096) == v && v * 4096 / 4096 == v && v * 4096 < MAXVA
  {
    assert (v * 4096 + 4096 + WORD - 1) % WORD == v * 4096 + 4095;
  }

  lemma LeafHasV(m: Mem, at: Tree, v: nat)
    ensures Leaf(m, at, v).Mapped? ==> V(Leaf(m, at, v).flags) && Leaf(m, at, v).flags < 1024
  {
    if Leaf(m, at, v).Mapped? {
      LeafFlags(Entry(m, at[Above(0, v)], Index(0, v)));
    }
  }

  /** What a turn of walk's loop reads. */
  lemma DescendFacts(m: Mem, root: nat, at: Tree, va: nat, level: nat)
    requires MemOk(m) && IsTree(m, root, at) && va < MAXVA && 0 < level <= 2 && Above(level, va / 4096) in at
    ensures var v := va / 4096;
      var table, i := at[Above(level, v)], Px(level, va);
      && i < 512 && table in m.tables && |m.tables[table]| == 512 && Above(level, v).level > 0
      && Child(Above(level, v), i) == Above(level - 1, v) && Entry(m, table, i) == m.tables[table][i]
      && (V(m.tables[table][i]) <==> Above(level - 1, v) in at)
      && (Above(level - 1, v) in at ==>
            at[Above(level - 1, v)] > 0 && Pte2Pa(m.tables[table][i]) / 4096 == at[Above(level - 1, v)])
  {
    hide Above, Px, Index, IsTree, V, Pte2Pa;
    var v := va / 4096;
    var n, c, i := Above(level, v), Above(level - 1, v), Px(level, va);
    PxOfPage(level, va);
    Path(level, v);
    NodeTable(m, root, at, n);
    LevelOf(level, v);
    EntryReads(m, root, at, n, i);
    if c in at {
      NodeTable(m, root, at, c);
    }
  }

  lemma LevelOf(level: nat, v: nat)
    requires level <= 2
    ensures Above(level, v).level == level
  {
  }

  lemma EntryReads(m: Mem, root: nat, at: Tree, n: Node, i: nat)
    requires IsTree(m, root, at) && n in at && n.level > 0 && i < 512
    ensures V(Entry(m, at[n], i)) <==> Child(n, i) in at
    ensures Child(n, i) in at ==> Pte2Pa(Entry(m, at[n], i)) / 4096 == at[Child(n, i)]
  {
    assert EntryOk(m, at, n, i);
    if Child(n, i) in at {
      Unpack(at[Child(n, i)], 1);
      BaseOf(at[Child(n, i)]);
    }
  }

  /** The pages that a size in bytes takes up. */
  function PagesUp(sz: nat): nat {
    (sz + 4095) / 4096
  }

  lemma PagesUpBound(sz: nat, v: nat)
    ensures v * 4096 < sz <==> v < PagesUp(sz)
  {
  }

  lemma PagesUpMax(sz: nat)
    requires sz <= MAXVA
    ensures PagesUp(sz) <= PAGES
  {
  }

  /** What the level-0 entry of a page says. */
  lemma LeafRead(m: Mem, root: nat, at: Tree, v: nat)
    requires MemOk(m) && IsTree(m, root, at) && Above(0, v) in at
    ensures var table, i := at[Above(0, v)], Index(0, v);
      && table in m.tables && i < |m.tables[table]| == 512
      && Leaf(m, at, v) == (
        if V(m.tables[table][i]) then Mapped(Pte2Pa(m.tables[table][i]) / 4096, PteFlags(m.tables[table][i]))
        else Unmapped)
      && PteFlags(m.tables[table][i]) < 1024
  {
    NodeTable(m, root, at, Above(0, v));
    LowPage(v);
    BaseOf(Entry(m, at[Above(0, v)], Index(0, v)) / 1024);
  }

  lemma NoTable(m: Mem, at: Tree, v: nat)
    ensures Above(0, v) !in at ==> Leaf(m, at, v).Unmapped?
  {
  }
}
