/** The buffer cache of kernel/bio.c.

    Buffers are numbered 0..n-1 and the list head is node n.  The critical sections
    under `bcache.lock` are methods of one class; what they do to the cache is
    stated by functions on its value, and what every run keeps is proved on those. */
module BufferCache {
  import opened CircularList
  import D = Disk

  const UINT := 0x1_0000_0000

  /** `refcnt` is a C unsigned int: it wraps both ways. */
  type Count = x: nat | x < UINT

  function Inc(x: Count): Count {
    if x == UINT - 1 then 0 else x + 1
  }

  function Dec(x: Count): Count {
    if x == 0 then UINT - 1 else x - 1
  }

  datatype Cache = Cache(
    order: seq<nat>,          // from head.next (most recently released) to head.prev
    key: seq<D.Key>,
    refcnt: seq<Count>,
    valid: seq<bool>,
    data: seq<D.Block>)

  predicate Sized(c: Cache) {
    |c.key| == |c.order| && |c.refcnt| == |c.order| && |c.valid| == |c.order| && |c.data| == |c.order|
  }

  /** The list is a permutation of the buffers. */
  predicate Permutation(c: Cache) {
    && Distinct(c.order)
    && (forall i :: 0 <= i < |c.order| ==> c.order[i] < |c.order|)
    && (forall b :: 0 <= b < |c.order| ==> b in c.order)
  }

  /** No buffer earlier in the list has the key of the j-th one. */
  predicate FirstAt(c: Cache, j: nat)
    requires Sized(c) && Permutation(c) && j < |c.order|
  {
    forall i :: 0 <= i < j ==> c.key[c.order[i]] != c.key[c.order[j]]
  }

  /** Of several buffers with one key, only the first in the list may be referenced
      or hold data.  (At boot all of them carry the key (0,0).) */
  predicate OnlyFirstUsed(c: Cache)
    requires Sized(c) && Permutation(c)
  {
    forall j :: 0 <= j < |c.order| ==>
      FirstAt(c, j) || (c.refcnt[c.order[j]] == 0 && !c.valid[c.order[j]])
  }

  predicate Inv(c: Cache) {
    Sized(c) && Permutation(c) && OnlyFirstUsed(c)
  }

  /** Where buffer b stands in the list. */
  lemma PositionOf(c: Cache, b: nat) returns (i: nat)
    requires Permutation(c) && b < |c.order|
    ensures i < |c.order| && c.order[i] == b
  {
    assert b in c.order;
    i :| 0 <= i < |c.order| && c.order[i] == b;
  }

  // ----- What the operations do -----

  /** Position i holds the first buffer with key k. */
  predicate HitAt(c: Cache, k: D.Key, i: nat)
    requires Inv(c)
  {
    && i < |c.order| && c.key[c.order[i]] == k
    && forall j :: 0 <= j < i ==> c.key[c.order[j]] != k
  }

  /** No buffer has key k, and position i holds the last unused buffer. */
  predicate VictimAt(c: Cache, k: D.Key, i: nat)
    requires Inv(c)
  {
    && i < |c.order| && c.refcnt[c.order[i]] == 0
    && (forall b :: 0 <= b < |c.key| ==> c.key[b] != k)
    && (forall j :: i < j < |c.order| ==> c.refcnt[c.order[j]] > 0)
  }

  function Claimed(c: Cache, k: D.Key, b: nat): Cache
    requires Sized(c) && b < |c.order|
  {
    if c.key[b] == k then c.(refcnt := c.refcnt[b := Inc(c.refcnt[b])])
    else c.(key := c.key[b := k], valid := c.valid[b := false], refcnt := c.refcnt[b := 1])
  }

  /** The first read of a claimed buffer brings its block in. */
  function Filled(c: Cache, b: nat, d: D.Block): Cache
    requires Sized(c) && b < |c.order|
  {
    if c.valid[b] then c else c.(valid := c.valid[b := true], data := c.data[b := d])
  }

  function MovedToFront(order: seq<nat>, i: nat): seq<nat>
    requires i < |order|
  {
    [order[i]] + Without(order, i)
  }

  function Recount(c: Cache, b: nat, r: Count): Cache
    requires b < |c.refcnt|
  {
    c.(refcnt := c.refcnt[b := r])
  }

  function Dropped(c: Cache, i: nat): Cache
    requires Inv(c) && i < |c.order|
  {
    var b := c.order[i];
    var d := Recount(c, b, Dec(c.refcnt[b]));
    if d.refcnt[b] == 0 then d.(order := MovedToFront(c.order, i)) else d
  }

  // ----- Every operation keeps the invariant -----

  lemma ClaimKeeps(c: Cache, k: D.Key, i: nat)
    requires Inv(c) && (HitAt(c, k, i) || VictimAt(c, k, i))
    ensures Inv(Claimed(c, k, c.order[i])) && FirstAt(Claimed(c, k, c.order[i]), i)
  {
    var d := Claimed(c, k, c.order[i]);
    assert Permutation(d);
    forall j | 0 <= j < |d.order|
      ensures FirstAt(d, j) || (d.refcnt[d.order[j]] == 0 && !d.valid[d.order[j]])
    {
      assert j != i ==> c.order[j] != c.order[i];
      assert FirstAt(c, j) ==> FirstAt(d, j);
    }
  }

  lemma FillKeeps(c: Cache, i: nat, d: D.Block)
    requires Inv(c) && i < |c.order| && FirstAt(c, i)
    ensures Inv(Filled(c, c.order[i], d)) && FirstAt(Filled(c, c.order[i], d), i)
  {
    var e := Filled(c, c.order[i], d);
    assert Permutation(e);
    forall j | 0 <= j < |e.order|
      ensures FirstAt(e, j) || (e.refcnt[e.order[j]] == 0 && !e.valid[e.order[j]])
    {
      assert FirstAt(c, j) ==> FirstAt(e, j);
    }
  }

  /** Where the q-th buffer stood before the i-th was moved to the front. */
  function Origin(i: nat, q: nat): nat {
    if q == 0 then i else if q <= i then q - 1 else q
  }

  lemma FrontAt(o: seq<nat>, i: nat)
    requires i < |o|
    ensures |MovedToFront(o, i)| == |o|
    ensures forall q :: 0 <= q < |o| ==> Origin(i, q) < |o| && MovedToFront(o, i)[q] == o[Origin(i, q)]
  {
  }

  lemma FrontIsPermutation(c: Cache, i: nat)
    requires Permutation(c) && i < |c.order|
    ensures Permutation(c.(order := MovedToFront(c.order, i)))
    ensures |MovedToFront(c.order, i)| == |c.order|
  {
    hide MovedToFront;
    var o, m := c.order, MovedToFront(c.order, i);
    FrontAt(o, i);
    forall p, q | 0 <= p < q < |m|
      ensures m[p] != m[q]
    {
      assert Origin(i, p) != Origin(i, q);
    }
    forall b | 0 <= b < |o|
      ensures b in m
    {
      var k := PositionOf(c, b);
      var q := if k == i then 0 else if k < i then k + 1 else k;
      assert Origin(i, q) == k && m[q] == b;
    }
  }

  /** Moving a first buffer to the front leaves every first buffer first. */
  lemma FrontKeepsFirst(c: Cache, i: nat, q: nat)
    requires Sized(c) && Permutation(c) && i < |c.order| && FirstAt(c, i) && q < |c.order|
    ensures var d := c.(order := MovedToFront(c.order, i));
      && Sized(d) && Permutation(d) && d.order[q] == c.order[Origin(i, q)]
      && (FirstAt(c, Origin(i, q)) ==> FirstAt(d, q))
  {
    FrontIsPermutation(c, i);
    var o := c.order;
    var d := c.(order := MovedToFront(o, i));
    var m := d.order;
    assert forall k :: 0 <= k < |m| ==> m[k] == o[Origin(i, k)];
    if FirstAt(c, Origin(i, q)) {
      forall p | 0 <= p < q
        ensures d.key[m[p]] != d.key[m[q]]
      {
        assert Origin(i, p) != Origin(i, q);
      }
    }
  }

  lemma RecountKeeps(c: Cache, i: nat, r: Count)
    requires Inv(c) && i < |c.order| && FirstAt(c, i)
    ensures Inv(Recount(c, c.order[i], r))
    ensures forall j :: 0 <= j < |c.order| && FirstAt(c, j) ==> FirstAt(Recount(c, c.order[i], r), j)
  {
    var e := Recount(c, c.order[i], r);
    assert Permutation(e);
    forall j | 0 <= j < |e.order|
      ensures FirstAt(e, j) || (e.refcnt[e.order[j]] == 0 && !e.valid[e.order[j]])
    {
      assert FirstAt(c, j) ==> FirstAt(e, j);
    }
  }

  lemma DropKeeps(c: Cache, i: nat)
    requires Inv(c) && i < |c.order| && FirstAt(c, i)
    ensures Inv(Dropped(c, i))
  {
    var b := c.order[i];
    var e := Recount(c, b, Dec(c.refcnt[b]));
    RecountKeeps(c, i, Dec(c.refcnt[b]));
    if e.refcnt[b] == 0 {
      assert FirstAt(e, i);
      FrontIsPermutation(e, i);
      var d := e.(order := MovedToFront(e.order, i));
      forall q | 0 <= q < |e.order|
        ensures FirstAt(d, q) || (d.refcnt[d.order[q]] == 0 && !d.valid[d.order[q]])
      {
        FrontKeepsFirst(e, i, q);
        assert FirstAt(e, Origin(i, q)) || (e.refcnt[e.order[Origin(i, q)]] == 0 && !e.valid[e.order[Origin(i, q)]]);
      }
    }
  }

  lemma UniqueInUse(c: Cache, a: nat, b: nat)
    requires Inv(c) && a < |c.order| && b < |c.order|
    requires c.refcnt[a] > 0 && c.refcnt[b] > 0 && c.key[a] == c.key[b]
    ensures a == b
  {
    var i := PositionOf(c, a);
    var j := PositionOf(c, b);
    assert FirstAt(c, i) && FirstAt(c, j);
  }

  /** A buffer in use is the one a lookup of its key finds. */
  lemma InUseIsHit(c: Cache, b: nat, i: nat)
    requires Inv(c) && b < |c.order| && (c.refcnt[b] > 0 || c.valid[b])
    requires HitAt(c, c.key[b], i) || VictimAt(c, c.key[b], i)
    ensures HitAt(c, c.key[b], i) && c.order[i] == b
  {
    var j := PositionOf(c, b);
    assert FirstAt(c, j);
  }

  // ----- Runs -----

  /** The cache with its references split into holders (between bget and brelse)
      and pins (between bpin and bunpin).  A stray unpin is one with no pin to undo;
      install_trans makes them when it runs for recovery. */
  datatype Sys = Sys(cache: Cache, held: seq<nat>, pins: seq<nat>, stray: seq<nat>)

  predicate SysSized(s: Sys) {
    && Inv(s.cache)
    && |s.held| == |s.cache.order| && |s.pins| == |s.cache.order| && |s.stray| == |s.cache.order|
  }

  /** The j-th buffer's count agrees with its references, and only a first buffer has any. */
  predicate CountedAt(s: Sys, j: nat)
    requires SysSized(s) && j < |s.cache.order|
  {
    var b := s.cache.order[j];
    && s.cache.refcnt[b] == (s.held[b] + s.pins[b] - s.stray[b]) % UINT
    && (s.held[b] + s.pins[b] > 0 ==> FirstAt(s.cache, j))
  }

  ghost predicate Counted(s: Sys) {
    SysSized(s) && forall j :: 0 <= j < |s.cache.order| ==> CountedAt(s, j)
  }

  /** One critical section, or one access of a holder to its buffer; i is the
      position of buffer b in the list. */
  datatype Step =
    | Get(b: nat, i: nat, k: D.Key)
    | Fill(b: nat, i: nat, d: D.Block)
    | Modify(b: nat, i: nat, d: D.Block)
    | Release(b: nat, i: nat)
    | Pin(b: nat, i: nat)
    | Unpin(b: nat, i: nat)
    | StrayUnpin(b: nat, i: nat)

  /** bget finds or recycles b; the other steps are for a holder of b, except that
      unpinning needs a pin.  No buffer ever has 2^32 references. */
  predicate Enabled(s: Sys, a: Step) {
    && SysSized(s) && a.i < |s.cache.order| && s.cache.order[a.i] == a.b
    && (a.Get? || a.Pin? ==> s.held[a.b] + s.pins[a.b] + 1 < UINT)
    && match a
       case Get(_, i, k) => HitAt(s.cache, k, i) || VictimAt(s.cache, k, i)
       case Unpin(b, _) => s.pins[b] > 0
       case _ => s.held[a.b] > 0
  }

  function Apply(s: Sys, a: Step): Sys
    requires Enabled(s, a)
  {
    var c, b := s.cache, a.b;
    match a
    case Get(_, i, k) => s.(cache := Claimed(c, k, b), held := s.held[b := s.held[b] + 1])
    case Fill(_, i, d) => s.(cache := Filled(c, b, d))
    case Modify(_, i, d) => s.(cache := c.(data := c.data[b := d]))
    case Release(_, i) => s.(cache := Dropped(c, i), held := s.held[b := s.held[b] - 1])
    case Pin(_, i) => s.(cache := Recount(c, b, Inc(c.refcnt[b])), pins := s.pins[b := s.pins[b] + 1])
    case Unpin(_, i) => s.(cache := Recount(c, b, Dec(c.refcnt[b])), pins := s.pins[b := s.pins[b] - 1])
    case StrayUnpin(_, i) => s.(cache := Recount(c, b, Dec(c.refcnt[b])), stray := s.stray[b := s.stray[b] + 1])
  }

  lemma ClaimKeepsCount(s: Sys, b: nat, i: nat, k: D.Key)
    requires Counted(s) && Enabled(s, Get(b, i, k))
    ensures Counted(Apply(s, Get(b, i, k)))
  {
    ClaimKeeps(s.cache, k, i);
    var t := Apply(s, Get(b, i, k));
    forall j | 0 <= j < |t.cache.order|
      ensures CountedAt(t, j)
    {
      assert CountedAt(s, j);
      assert j != i ==> s.cache.order[j] != s.cache.order[i];
      assert j != i && FirstAt(s.cache, j) ==> FirstAt(t.cache, j);
    }
  }

  lemma RecountKeepsCount(s: Sys, t: Sys, i: nat, r: Count)
    requires Counted(s) && i < |s.cache.order| && FirstAt(s.cache, i)
    requires t.cache == Recount(s.cache, s.cache.order[i], r)
    requires |t.held| == |s.held| && |t.pins| == |s.pins| && |t.stray| == |s.stray|
    requires forall b :: 0 <= b < |s.held| && b != s.cache.order[i] ==>
      t.held[b] == s.held[b] && t.pins[b] == s.pins[b] && t.stray[b] == s.stray[b]
    requires var b := s.cache.order[i]; r == (t.held[b] + t.pins[b] - t.stray[b]) % UINT
    ensures Counted(t)
  {
    RecountKeeps(s.cache, i, r);
    forall j | 0 <= j < |t.cache.order|
      ensures CountedAt(t, j)
    {
      assert CountedAt(s, j);
      assert j != i ==> s.cache.order[j] != s.cache.order[i];
    }
  }

  lemma FrontKeepsCount(s: Sys, i: nat)
    requires Counted(s) && i < |s.cache.order| && FirstAt(s.cache, i)
    requires s.cache.refcnt[s.cache.order[i]] == 0
    requires Inv(s.cache.(order := MovedToFront(s.cache.order, i)))
    ensures Counted(s.(cache := s.cache.(order := MovedToFront(s.cache.order, i))))
  {
    var t := s.(cache := s.cache.(order := MovedToFront(s.cache.order, i)));
    forall q | 0 <= q < |t.cache.order|
      ensures CountedAt(t, q)
    {
      FrontKeepsFirst(s.cache, i, q);
      assert CountedAt(s, Origin(i, q));
    }
  }

  lemma FillKeepsCount(s: Sys, i: nat, d: D.Block)
    requires Counted(s) && i < |s.cache.order| && FirstAt(s.cache, i)
    ensures Counted(s.(cache := Filled(s.cache, s.cache.order[i], d)))
  {
    FillKeeps(s.cache, i, d);
    var t := s.(cache := Filled(s.cache, s.cache.order[i], d));
    forall j | 0 <= j < |t.cache.order|
      ensures CountedAt(t, j)
    {
      assert CountedAt(s, j);
      assert FirstAt(s.cache, j) ==> FirstAt(t.cache, j);
    }
  }

  lemma ModifyKeepsCount(s: Sys, i: nat, d: D.Block)
    requires Counted(s) && i < |s.cache.order|
    ensures var c := s.cache; Counted(s.(cache := c.(data := c.data[c.order[i] := d])))
  {
    var c := s.cache;
    var t := s.(cache := c.(data := c.data[c.order[i] := d]));
    assert Permutation(t.cache);
    forall j | 0 <= j < |c.order|
      ensures FirstAt(t.cache, j) || (t.cache.refcnt[t.cache.order[j]] == 0 && !t.cache.valid[t.cache.order[j]])
    {
      assert FirstAt(c, j) ==> FirstAt(t.cache, j);
    }
    forall j | 0 <= j < |c.order|
      ensures CountedAt(t, j)
    {
      assert CountedAt(s, j);
      assert FirstAt(c, j) ==> FirstAt(t.cache, j);
    }
  }

  lemma ReleaseKeepsCount(s: Sys, b: nat, i: nat)
    requires Counted(s) && Enabled(s, Release(b, i)) && FirstAt(s.cache, i)
    ensures Counted(Apply(s, Release(b, i)))
  {
    hide FirstAt, MovedToFront;
    assert CountedAt(s, i);
    DropKeeps(s.cache, i);
    var r := Dec(s.cache.refcnt[b]);
    var t := s.(cache := Recount(s.cache, b, r), held := s.held[b := s.held[b] - 1]);
    RecountKeepsCount(s, t, i, r);
    if r == 0 {
      RecountKeeps(s.cache, i, r);
      FrontKeepsCount(t, i);
    }
  }

  lemma StepKeeps(s: Sys, a: Step)
    requires Counted(s) && Enabled(s, a)
    ensures Counted(Apply(s, a))
  {
    hide FirstAt, HitAt, VictimAt, MovedToFront, Distinct;
    var b, i := a.b, a.i;
    assert CountedAt(s, i);
    match a
    case Get(_, _, k) => ClaimKeepsCount(s, b, i, k);
    case Fill(_, _, d) => FillKeepsCount(s, i, d);
    case Modify(_, _, d) => ModifyKeepsCount(s, i, d);
    case Release(_, _) => ReleaseKeepsCount(s, b, i);
    case Pin(_, _) => RecountKeepsCount(s, Apply(s, a), i, Inc(s.cache.refcnt[b]));
    case Unpin(_, _) => RecountKeepsCount(s, Apply(s, a), i, Dec(s.cache.refcnt[b]));
    case StrayUnpin(_, _) => RecountKeepsCount(s, Apply(s, a), i, Dec(s.cache.refcnt[b]));
  }

  ghost predicate Reaches(s: Sys, acts: seq<Step>, t: Sys)
    decreases |acts|
  {
    if acts == [] then s == t
    else Enabled(s, acts[0]) && Reaches(Apply(s, acts[0]), acts[1..], t)
  }

  lemma {:induction false} RunKeeps(s: Sys, acts: seq<Step>, t: Sys)
    requires Counted(s) && Reaches(s, acts, t)
    ensures Counted(t)
    decreases |acts|
  {
    if acts != [] {
      StepKeeps(s, acts[0]);
      RunKeeps(Apply(s, acts[0]), acts[1..], t);
    }
  }

  /** In every run, recovery included, the list stays a permutation of the buffers
      and two counted references to one block are to one buffer. */
  lemma OneBufferPerBlock(s: Sys, acts: seq<Step>, t: Sys, a: nat, b: nat)
    requires Counted(s) && Reaches(s, acts, t)
    requires a < |t.cache.refcnt| && b < |t.cache.refcnt| && b < |t.cache.key| && a < |t.cache.key|
    requires t.cache.refcnt[a] > 0 && t.cache.refcnt[b] > 0 && t.cache.key[a] == t.cache.key[b]
    ensures a == b && Permutation(t.cache)
  {
    RunKeeps(s, acts, t);
    UniqueInUse(t.cache, a, b);
  }

  /** Exactly when bget may recycle a buffer: its references are all cancelled by
      stray unpins.  Without stray unpins, when it has none. */
  lemma RecyclableIff(s: Sys, b: nat)
    requires Counted(s) && b < |s.held|
    requires s.held[b] + s.pins[b] < UINT && s.stray[b] < UINT
    ensures s.cache.refcnt[b] == 0 <==> s.held[b] + s.pins[b] == s.stray[b]
  {
    var i := PositionOf(s.cache, b);
    assert CountedAt(s, i);
  }

  /** The step does not unpin b, nor change its data through a holder. */
  predicate Spares(a: Step, b: nat) {
    a.b == b ==> !a.Unpin? && !a.StrayUnpin? && !a.Modify?
  }

  ghost predicate KeepsPinned(s: Sys, t: Sys, b: nat) {
    && Counted(t) && b < |t.pins| && b < |s.cache.key| && b < |s.cache.data|
    && t.pins[b] > 0 && t.stray[b] == 0 && t.cache.valid[b] && t.held[b] + t.pins[b] < UINT
    && t.cache.key[b] == s.cache.key[b] && t.cache.data[b] == s.cache.data[b]
  }

  lemma PinnedStep(s: Sys, a: Step, b: nat)
    requires KeepsPinned(s, s, b) && Enabled(s, a) && Spares(a, b)
    ensures KeepsPinned(s, Apply(s, a), b)
  {
    StepKeeps(s, a);
    RecyclableIff(s, b);
  }

  /** A pinned buffer is never recycled: whatever blocks are read, evicted and
      released, it keeps its block and its data until it is unpinned. */
  lemma {:induction false} PinnedIsNeverRecycled(s: Sys, acts: seq<Step>, t: Sys, b: nat)
    requires KeepsPinned(s, s, b) && Reaches(s, acts, t)
    requires forall j :: 0 <= j < |acts| ==> Spares(acts[j], b)
    ensures KeepsPinned(s, t, b)
    decreases |acts|
  {
    if acts != [] {
      assert Spares(acts[0], b);
      PinnedStep(s, acts[0], b);
      PinnedIsNeverRecycled(Apply(s, acts[0]), acts[1..], t, b);
    }
  }

  /** Buffer b is the first of its key, at position i, with these references. */
  ghost predicate Spot(s: Sys, b: nat, i: nat, held: nat, pins: nat, stray: nat) {
    && Counted(s) && i < |s.cache.order| && s.cache.order[i] == b && FirstAt(s.cache, i)
    && s.held[b] == held && s.pins[b] == pins && s.stray[b] == stray && b < |s.cache.key|
  }

  lemma UnpinStray(s: Sys, b: nat, i: nat) returns (t: Sys)
    requires Spot(s, b, i, 1, 0, 0)
    ensures Enabled(s, StrayUnpin(b, i)) && t == Apply(s, StrayUnpin(b, i)) && Spot(t, b, i, 1, 0, 1)
    ensures t.cache.key == s.cache.key
  {
    t := Apply(s, StrayUnpin(b, i));
    StepKeeps(s, StrayUnpin(b, i));
  }

  lemma LetGoStray(s: Sys, b: nat, i: nat) returns (t: Sys)
    requires Spot(s, b, i, 1, 0, 1)
    ensures Enabled(s, Release(b, i)) && t == Apply(s, Release(b, i)) && Spot(t, b, i, 0, 0, 1)
    ensures t.cache.key == s.cache.key
  {
    assert CountedAt(s, i);
    t := Apply(s, Release(b, i));
    StepKeeps(s, Release(b, i));
  }

  lemma GetAgain(s: Sys, b: nat, i: nat) returns (t: Sys)
    requires Spot(s, b, i, 0, 0, 1)
    ensures Enabled(s, Get(b, i, s.cache.key[b])) && t == Apply(s, Get(b, i, s.cache.key[b])) && Spot(t, b, i, 1, 0, 1)
  {
    var k := s.cache.key[b];
    assert HitAt(s.cache, k, i);
    t := Apply(s, Get(b, i, k));
    StepKeeps(s, Get(b, i, k));
  }

  lemma PinAndLetGo(s: Sys, b: nat, i: nat) returns (t: Sys)
    requires Spot(s, b, i, 1, 0, 1)
    ensures Reaches(s, [Pin(b, i), Release(b, i)], t) && Counted(t)
    ensures b < |t.pins| && t.pins[b] == 1 && t.cache.refcnt[b] == 0
  {
    var u := Apply(s, Pin(b, i));
    StepKeeps(s, Pin(b, i));
    t := Apply(u, Release(b, i));
    StepKeeps(u, Release(b, i));
    RecyclableIff(t, b);
    hide Counted, Enabled, Apply;
    assert Reaches(t, [], t);
    Prepend(u, Release(b, i), [], t);
    Prepend(s, Pin(b, i), [Release(b, i)], t);
  }

  /** Recovery breaks that: install_trans unpins a block that was never pinned, and
      afterwards a logged block is left pinned with a zero count, free to recycle. */
  lemma RecoveryUndoesAPin(s: Sys, b: nat, i: nat)
    requires Spot(s, b, i, 1, 0, 0)
    ensures exists acts, t ::
      Reaches(s, acts, t) && Counted(t) && b < |t.pins| && t.pins[b] == 1 && t.cache.refcnt[b] == 0
  {
    hide CountedAt, Inv, Apply;
    var k := s.cache.key[b];
    var s1 := UnpinStray(s, b, i);
    var s2 := LetGoStray(s1, b, i);
    var s3 := GetAgain(s2, b, i);
    var t := PinAndLetGo(s3, b, i);
    Prepend(s2, Get(b, i, k), [Pin(b, i), Release(b, i)], t);
    Prepend(s1, Release(b, i), [Get(b, i, k), Pin(b, i), Release(b, i)], t);
    Prepend(s, StrayUnpin(b, i), [Release(b, i), Get(b, i, k), Pin(b, i), Release(b, i)], t);
  }

  /** Whatever runs after the recoveries are over, a pinned buffer is in use. */
  ghost predicate PinsProtect(s: Sys) {
    forall acts, t :: Reaches(s, acts, t) && NoStray(acts) ==> PinnedInUse(t)
  }

  predicate NoStray(acts: seq<Step>) {
    forall j :: 0 <= j < |acts| ==> !acts[j].StrayUnpin?
  }

  ghost predicate PinnedInUse(s: Sys) {
    && |s.pins| == |s.cache.refcnt|
    && forall b :: 0 <= b < |s.pins| && s.pins[b] > 0 ==> s.cache.refcnt[b] > 0
  }

  /** No reference count is off, and none has wrapped. */
  ghost predicate Unstrayed(s: Sys) {
    Counted(s) && forall b :: 0 <= b < |s.held| ==> s.stray[b] == 0 && s.held[b] + s.pins[b] < UINT
  }

  lemma {:induction false} RunUnstrayed(s: Sys, acts: seq<Step>, t: Sys)
    requires Unstrayed(s) && Reaches(s, acts, t) && NoStray(acts)
    ensures Unstrayed(t)
    decreases |acts|
  {
    if acts != [] {
      StepKeeps(s, acts[0]);
      RunUnstrayed(Apply(s, acts[0]), acts[1..], t);
    }
  }

  lemma UnstrayedPinnedInUse(s: Sys)
    requires Unstrayed(s)
    ensures PinnedInUse(s)
  {
    forall b | 0 <= b < |s.pins| && s.pins[b] > 0
      ensures s.cache.refcnt[b] > 0
    {
      var i := PositionOf(s.cache, b);
      assert CountedAt(s, i);
    }
  }

  lemma StrayFailsPin(s: Sys, b: nat)
    requires Counted(s) && b < |s.held| && s.held[b] == 0 && s.pins[b] == 0 && s.stray[b] == 1
    ensures !PinsProtect(s)
  {
    var i := PositionOf(s.cache, b);
    assert CountedAt(s, i);
    assert FirstAt(s.cache, i);
    var k := s.cache.key[b];
    var u := GetAgain(s, b, i);
    var t := PinAndLetGo(u, b, i);
    Prepend(s, Get(b, i, k), [Pin(b, i), Release(b, i)], t);
    assert NoStray([Get(b, i, k)] + [Pin(b, i), Release(b, i)]);
    assert !PinnedInUse(t);
  }

  /** Exactly when pins protect, once nothing is in use any more: if and only if no
      stray unpin is left, that is, if and only if recovery found nothing to install. */
  lemma PinsProtectIff(s: Sys)
    requires Counted(s)
    requires forall b :: 0 <= b < |s.held| ==> s.held[b] == 0 && s.pins[b] == 0 && s.stray[b] <= 1
    ensures PinsProtect(s) <==> forall b :: 0 <= b < |s.stray| ==> s.stray[b] == 0
  {
    if forall b :: 0 <= b < |s.stray| ==> s.stray[b] == 0 {
      forall acts, t | Reaches(s, acts, t) && NoStray(acts)
        ensures PinnedInUse(t)
      {
        RunUnstrayed(s, acts, t);
        UnstrayedPinnedInUse(t);
      }
    } else {
      var b :| 0 <= b < |s.stray| && s.stray[b] != 0;
      StrayFailsPin(s, b);
    }
  }

  lemma Prepend(s: Sys, a: Step, acts: seq<Step>, t: Sys)
    requires Enabled(s, a) && Reaches(Apply(s, a), acts, t)
    ensures Reaches(s, [a] + acts, t)
  {
    assert ([a] + acts)[1..] == acts;
  }

  /** The list that binit builds: each buffer is put in front of the earlier ones. */
  function Countdown(n: nat): (s: seq<nat>)
    ensures |s| == n && forall i :: 0 <= i < n ==> s[i] == n - 1 - i
  {
    if n == 0 then [] else [n - 1] + Countdown(n - 1)
  }

  lemma BootCounted(s: Sys)
    requires Sized(s.cache) && s.cache.order == Countdown(|s.cache.order|)
    requires |s.held| == |s.cache.order| && |s.pins| == |s.cache.order| && |s.stray| == |s.cache.order|
    requires forall b :: 0 <= b < |s.held| ==>
      s.cache.refcnt[b] == 0 && !s.cache.valid[b] && s.held[b] == 0 && s.pins[b] == 0 && s.stray[b] == 0
    ensures Counted(s)
  {
    BootInv(s.cache);
  }

  lemma BootInv(c: Cache)
    requires Sized(c) && c.order == Countdown(|c.order|)
    requires forall b :: 0 <= b < |c.order| ==> c.refcnt[b] == 0 && !c.valid[b]
    ensures Inv(c)
  {
    var n := |c.order|;
    forall b | 0 <= b < n
      ensures b in c.order
    {
      assert c.order[n - 1 - b] == b;
    }
  }

  // ----- The cache in memory -----

  class BCache {
    const n: nat
    const links: Links
    const disk: D.Device
    ghost var order: seq<nat>
    var key: seq<D.Key>
    var refcnt: seq<Count>
    var valid: seq<bool>
    var data: seq<D.Block>
    ghost var held: seq<nat>
    ghost var pins: seq<nat>
    ghost var stray: seq<nat>

    ghost function View(): Sys
      reads this
    {
      Sys(Cache(order, key, refcnt, valid, data), held, pins, stray)
    }

    ghost predicate Valid()
      reads this, links
    {
      |order| == n && Counted(View()) && links.Lists(n, order)
    }

    /** Every buffer can take some more references without wrapping its count. */
    ghost predicate Room(more: nat)
      reads this
    {
      |held| == n && |pins| == n && forall b :: 0 <= b < n ==> held[b] + pins[b] + more < UINT
    }

    /** binit */
    constructor (n: nat, disk: D.Device)
      ensures Valid() && this.n == n && this.disk == disk && fresh(links)
      ensures forall b :: 0 <= b < n ==>
        refcnt[b] == 0 && !valid[b] && key[b] == D.Key(0, 0) && held[b] == 0 && pins[b] == 0 && stray[b] == 0
    {
      this.n := n;
      this.disk := disk;
      links := new Links();
      key := seq(n, _ => D.Key(0, 0));
      refcnt := seq(n, _ => 0);
      valid := seq(n, _ => false);
      data := seq(n, _ => seq(D.WORDS, _ => 0));
      order := [];
      held, pins, stray := seq(n, _ => 0), seq(n, _ => 0), seq(n, _ => 0);
      new;
      links.Init(n);
      var b := 0;
      ghost var before := View();
      while b < n
        invariant 0 <= b <= n && order == Countdown(b)
        invariant links.Lists(n, order)
        invariant View() == before.(cache := before.cache.(order := order))
      {
        assert b !in Nodes(n, order);
        LinkKeepsRing(links.next, links.prev, n, order, b);
        links.Push(n, b);
        order := [b] + order;
        b := b + 1;
      }
      BootCounted(View());
    }

    /** The first loop of bget, forward along the list. */
    method FindCached(k: D.Key) returns (found: bool, b: nat, ghost i: nat)
      requires Valid()
      ensures found ==> i < n && b == order[i] && HitAt(View().cache, k, i)
      ensures !found ==> forall c :: 0 <= c < n ==> key[c] != k
    {
      i := 0;
      EmptyRing(links.next, links.prev, n, order);
      b := links.next[n];
      while b != n
        invariant 0 <= i <= n && b == (if i < n then order[i] else n)
        invariant forall j :: 0 <= j < i ==> key[order[j]] != k
        decreases n - i
      {
        if key[b] == k {
          return true, b, i;
        }
        assert LinkedAt(links.next, links.prev, Nodes(n, order), i + 1);
        b := links.next[b];
        i := i + 1;
      }
      NoneMatches(View().cache, k);
      return false, n, n;
    }

    /** The second loop of bget, backward from the least recently used. */
    method FindUnused() returns (found: bool, b: nat, ghost i: nat)
      requires Valid()
      ensures found ==> i < n && b == order[i] && refcnt[b] == 0
      ensures found ==> forall j :: i < j < n ==> refcnt[order[j]] > 0
      ensures !found ==> forall c :: 0 <= c < n ==> refcnt[c] > 0
    {
      assert LinkedAt(links.next, links.prev, Nodes(n, order), 0);
      b := links.prev[n];
      i := n;
      while b != n
        invariant 0 <= i <= n && b == (if i > 0 then order[i - 1] else n)
        invariant forall j :: i <= j < n ==> refcnt[order[j]] > 0
        decreases i
      {
        if refcnt[b] == 0 {
          return true, b, i - 1;
        }
        assert LinkedAt(links.next, links.prev, Nodes(n, order), i);
        b := links.prev[b];
        i := i - 1;
      }
      NoneUnused(View().cache);
      return false, n, n;
    }

    /** bget: a cached buffer, or the least recently used unused one; none when
        every buffer is in use (the kernel panics). */
    method Bget(k: D.Key) returns (ok: bool, b: nat, ghost i: nat)
      requires Valid() && Room(1)
      modifies this
      ensures Valid() && unchanged(links)
      ensures !ok ==> unchanged(this) && forall c :: 0 <= c < n ==> key[c] != k && refcnt[c] > 0
      ensures ok ==> Enabled(old(View()), Get(b, i, k)) && View() == Apply(old(View()), Get(b, i, k))
    {
      hide CountedAt, FirstAt, Distinct;
      ok, b, i := FindCached(k);
      if ok {
        StepKeeps(View(), Get(b, i, k));
        refcnt := refcnt[b := Inc(refcnt[b])];
        held := held[b := held[b] + 1];
        return;
      }
      ok, b, i := FindUnused();
      if ok {
        StepKeeps(View(), Get(b, i, k));
        key := key[b := k];
        valid := valid[b := false];
        refcnt := refcnt[b := 1];
        held := held[b := held[b] + 1];
      }
    }

    /** bread: the claimed buffer, read in from the disk unless already valid. */
    method Bread(k: D.Key) returns (ok: bool, b: nat, ghost i: nat)
      requires Valid() && Room(1) && k in disk.image
      modifies this
      ensures Valid() && unchanged(links)
      ensures !ok ==> unchanged(this) && forall c :: 0 <= c < n ==> key[c] != k && refcnt[c] > 0
      ensures ok ==> Enabled(old(View()), Get(b, i, k))
      ensures ok ==> Enabled(Apply(old(View()), Get(b, i, k)), Fill(b, i, disk.image[k]))
      ensures ok ==> View() == Apply(Apply(old(View()), Get(b, i, k)), Fill(b, i, disk.image[k]))
    {
      hide CountedAt, FirstAt, Distinct, HitAt, VictimAt;
      ok, b, i := Bget(k);
      if ok {
        StepKeeps(View(), Fill(b, i, disk.image[k]));
        if !valid[b] {
          var d := disk.Read(k);
          data := data[b := d];
          valid := valid[b := true];
        }
      }
    }

    /** bwrite: the caller holds the buffer. */
    method Bwrite(b: nat)
      requires Valid() && b < n && held[b] > 0
      modifies disk
      ensures disk.image == old(disk.image)[key[b] := data[b]]
      ensures disk.history == old(disk.history) + [D.Write(key[b], data[b])]
    {
      disk.Put(key[b], data[b]);
    }

    /** The holder changes b->data. */
    method Store(b: nat, ghost i: nat, d: D.Block)
      requires Valid() && Enabled(View(), Modify(b, i, d))
      modifies this`data
      ensures Valid() && View() == Apply(old(View()), Modify(b, i, d))
    {
      StepKeeps(View(), Modify(b, i, d));
      data := data[b := d];
    }

    /** brelse: drop a reference; the last one moves the buffer to the front. */
    method Brelse(b: nat, ghost i: nat)
      requires Valid() && Enabled(View(), Release(b, i))
      modifies this, links
      ensures Valid() && View() == Apply(old(View()), Release(b, i))
    {
      StepKeeps(View(), Release(b, i));
      refcnt := refcnt[b := Dec(refcnt[b])];
      held := held[b := held[b] - 1];
      if refcnt[b] == 0 {
        UnlinkKeepsRing(links.next, links.prev, n, order, i);
        links.Remove(b);
        order := Without(order, i);
        assert b !in Nodes(n, order);
        LinkKeepsRing(links.next, links.prev, n, order, b);
        links.Push(n, b);
        order := [b] + order;
      }
    }

    method Bpin(b: nat, ghost i: nat)
      requires Valid() && Enabled(View(), Pin(b, i))
      modifies this`refcnt, this`pins
      ensures Valid() && View() == Apply(old(View()), Pin(b, i))
    {
      hide CountedAt, FirstAt, Distinct, HitAt, VictimAt;
      StepKeeps(View(), Pin(b, i));
      refcnt := refcnt[b := Inc(refcnt[b])];
      pins := pins[b := pins[b] + 1];
    }

    /** bunpin: undoes a pin, or is a stray one made by a holder. */
    method Bunpin(b: nat, ghost i: nat)
      requires Valid() && (Enabled(View(), Unpin(b, i)) || Enabled(View(), StrayUnpin(b, i)))
      modifies this`refcnt, this`pins, this`stray
      ensures Valid()
      ensures if old(pins[b]) > 0 then Enabled(old(View()), Unpin(b, i)) && View() == Apply(old(View()), Unpin(b, i))
              else Enabled(old(View()), StrayUnpin(b, i)) && View() == Apply(old(View()), StrayUnpin(b, i))
    {
      hide CountedAt, FirstAt, Distinct, HitAt, VictimAt;
      StepKeeps(View(), if pins[b] > 0 then Unpin(b, i) else StrayUnpin(b, i));
      refcnt := refcnt[b := Dec(refcnt[b])];
      if pins[b] > 0 {
        pins := pins[b := pins[b] - 1];
      } else {
        stray := stray[b := stray[b] + 1];
      }
    }
  }

  lemma NoneMatches(c: Cache, k: D.Key)
    requires Inv(c) && forall j :: 0 <= j < |c.order| ==> c.key[c.order[j]] != k
    ensures forall b :: 0 <= b < |c.order| ==> c.key[b] != k
  {
    forall b | 0 <= b < |c.order|
      ensures c.key[b] != k
    {
      var j := PositionOf(c, b);
    }
  }

  lemma NoneUnused(c: Cache)
    requires Inv(c) && forall j :: 0 <= j < |c.order| ==> c.refcnt[c.order[j]] > 0
    ensures forall b :: 0 <= b < |c.order| ==> c.refcnt[b] > 0
  {
    forall b | 0 <= b < |c.order|
      ensures c.refcnt[b] > 0
    {
      var j := PositionOf(c, b);
    }
  }
}
