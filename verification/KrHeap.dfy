/** The storage allocator of user/umalloc.c, on values.  Addresses and sizes count units of
    sizeof(Header).  The free list is circular, in address order from `base`. */
module KrHeap {

  /** Headers, the free list's start, and a record of the blocks: free nodes (with base),
      live blocks by size, and the units obtained from sbrk. */
  datatype Heap = Heap(
    ptr: map<nat, nat>, size: map<nat, nat>, freep: nat,
    base: nat, free: set<nat>, live: map<nat, nat>, granted: set<nat>, brk: nat)

  predicate Apart(a: nat, n: nat, b: nat, m: nat) {
    a + n <= b || b + m <= a
  }

  predicate InBlock(u: nat, a: nat, n: nat) {
    a <= u < a + n
  }

  /** n is the next node after a: the next higher, or base from the highest; and the block
      at a does not reach into it. */
  ghost predicate Follows(h: Heap, a: nat, n: nat)
    requires a in h.size
  {
    if n == h.base then forall c :: c in h.free ==> c <= a
    else a < n && a + h.size[a] <= n && forall c :: c in h.free ==> c <= a || n <= c
  }

  ghost predicate NodeOk(h: Heap, a: nat) {
    && a in h.ptr && a in h.size && h.base <= a && a + h.size[a] <= h.brk
    && (a == h.base <==> h.size[a] == 0)
    && h.ptr[a] in h.free && Follows(h, a, h.ptr[a])
  }

  ghost predicate LiveOk(h: Heap, b: nat)
    requires b in h.live
  {
    && h.base < b && b !in h.free && b in h.size && h.size[b] == h.live[b] > 0 && b + h.live[b] <= h.brk
    && (forall a :: a in h.free && a in h.size ==> Apart(a, h.size[a], b, h.live[b]))
    && (forall c :: c in h.live && c != b ==> Apart(c, h.live[c], b, h.live[b]))
  }

  ghost predicate InFree(h: Heap, u: nat) {
    exists a :: a in h.free && a in h.size && InBlock(u, a, h.size[a])
  }

  ghost predicate InLive(h: Heap, u: nat) {
    exists b :: b in h.live && InBlock(u, b, h.live[b])
  }

  ghost predicate UnitOk(h: Heap, u: nat) {
    u in h.granted <==> InFree(h, u) || InLive(h, u)
  }

  /** The list and the blocks are sound, though free blocks may touch. */
  ghost predicate Sound(h: Heap) {
    && h.base in h.free && h.freep in h.free && h.base < h.brk
    && (forall a {:trigger NodeOk(h, a)} :: a in h.free ==> NodeOk(h, a))
    && (forall b {:trigger LiveOk(h, b)} :: b in h.live ==> LiveOk(h, b))
    && (forall u: nat :: UnitOk(h, u))
  }

  predicate Touches(h: Heap, a: nat) {
    a in h.size && a in h.ptr && a + h.size[a] == h.ptr[a]
  }

  ghost predicate Inv(h: Heap) {
    Sound(h) && forall a :: a in h.free && a != h.base ==> !Touches(h, a)
  }

  // Sound, unfolded where needed.

  lemma Node(h: Heap, a: nat)
    requires Sound(h) && a in h.free
    ensures NodeOk(h, a)
  {
  }

  lemma Live(h: Heap, b: nat)
    requires Sound(h) && b in h.live
    ensures LiveOk(h, b)
  {
  }

  lemma Unit(h: Heap, u: nat)
    requires Sound(h)
    ensures UnitOk(h, u)
  {
  }

  lemma Ends(h: Heap)
    requires Sound(h)
    ensures h.base in h.free && h.freep in h.free && h.base < h.brk
  {
  }

  // ----- What the invariant says -----

  /** Free blocks do not overlap and do not touch. */
  lemma FreeApart(h: Heap, a: nat, c: nat)
    requires Sound(h) && a in h.free && c in h.free && a < c
    ensures a in h.size && a + h.size[a] <= c
    ensures Inv(h) ==> a + h.size[a] < c
  {
    hide Sound;
    Node(h, a);
  }

  /** A unit of a free block is in no other block, free or live. */
  lemma OneBlock(h: Heap, u: nat, a: nat)
    requires Sound(h) && a in h.free && a in h.size && InBlock(u, a, h.size[a])
    ensures forall c :: c in h.free && c in h.size && c != a ==> !InBlock(u, c, h.size[c])
    ensures forall b :: b in h.live ==> !InBlock(u, b, h.live[b])
  {
    hide Sound;
    forall c | c in h.free && c in h.size && c != a
      ensures !InBlock(u, c, h.size[c])
    {
      if a < c {
        FreeApart(h, a, c);
      } else {
        FreeApart(h, c, a);
      }
    }
    forall b | b in h.live
      ensures !InBlock(u, b, h.live[b])
    {
      Live(h, b);
      assert Apart(a, h.size[a], b, h.live[b]);
    }
  }

  // ----- free -----

  /** The node after which a block belongs. */
  ghost predicate Precedes(h: Heap, p: nat, bp: nat) {
    p in h.free && p < bp && forall c :: c in h.free ==> c <= p || bp < c
  }

  /** What free's search stops at, in the source's own terms. */
  predicate Stops(h: Heap, p: nat, bp: nat)
    requires p in h.ptr
  {
    (bp > p && bp < h.ptr[p]) || (p >= h.ptr[p] && (bp > p || bp < h.ptr[p]))
  }

  lemma StopsIffPrecedes(h: Heap, p: nat, bp: nat)
    requires Sound(h) && p in h.free && bp in h.live
    ensures p in h.ptr && (Stops(h, p, bp) <==> Precedes(h, p, bp))
  {
    hide Sound;
    Node(h, p);
    Live(h, bp);
    if !Stops(h, p, bp) && h.ptr[p] != h.base && p < bp {
      assert h.ptr[p] in h.free && h.ptr[p] != bp;
    }
  }

  /** The block and the gaps around it. */
  lemma Gaps(h: Heap, p: nat, bp: nat)
    requires Sound(h) && bp in h.live && Precedes(h, p, bp)
    ensures p in h.ptr && p in h.size && bp in h.size && h.size[bp] == h.live[bp] > 0 && h.base < bp && bp !in h.free
    ensures p + h.size[p] <= bp && NodeOk(h, p) && LiveOk(h, bp)
    ensures h.ptr[p] != h.base ==> bp + h.size[bp] <= h.ptr[p] && bp < h.ptr[p]
    ensures bp + h.size[bp] == h.ptr[p] ==> h.ptr[p] != h.base && h.ptr[p] != p
  {
    hide Sound;
    Node(h, p);
    Live(h, bp);
    assert Apart(p, h.size[p], bp, h.live[bp]);
    if h.ptr[p] != h.base {
      Node(h, h.ptr[p]);
      assert Apart(h.ptr[p], h.size[h.ptr[p]], bp, h.live[bp]);
    }
  }

  /** The block becomes a node of its own after p. */
  function Linked(h: Heap, p: nat, bp: nat): Heap
    requires p in h.ptr
  {
    h.(ptr := h.ptr[bp := h.ptr[p]][p := bp], freep := p, free := h.free + {bp}, live := h.live - {bp})
  }

  /** The block at a node grows over the next one, which it touches. */
  function Absorbed(h: Heap, a: nat): Heap
    requires a in h.ptr && a in h.size && h.ptr[a] in h.ptr && h.ptr[a] in h.size
  {
    var n := h.ptr[a];
    h.(size := h.size[a := h.size[a] + h.size[n]], ptr := h.ptr[a := h.ptr[n]], free := h.free - {n})
  }

  lemma LinkedNode(h: Heap, p: nat, bp: nat, a: nat)
    requires Sound(h) && bp in h.live && Precedes(h, p, bp) && p in h.ptr && a in h.free + {bp}
    ensures NodeOk(Linked(h, p, bp), a)
  {
    hide Sound;
    Gaps(h, p, bp);
    var h' := Linked(h, p, bp);
    if a == p {
      assert Follows(h', p, bp);
    } else if a == bp {
      assert Follows(h', bp, h.ptr[p]);
    } else {
      Node(h, a);
      LinkedBetween(h, p, bp, a);
      assert Follows(h', a, h.ptr[a]);
    }
  }

  lemma LinkedBetween(h: Heap, p: nat, bp: nat, a: nat)
    requires NodeOk(h, a) && Precedes(h, p, bp) && a in h.free && a != p
    ensures h.ptr[a] == h.base ==> bp <= a
    ensures h.ptr[a] != h.base ==> bp <= a || h.ptr[a] <= bp
  {
  }

  lemma LinkedLive(h: Heap, p: nat, bp: nat, b: nat)
    requires Sound(h) && bp in h.live && Precedes(h, p, bp) && p in h.ptr && b in h.live && b != bp
    ensures LiveOk(Linked(h, p, bp), b)
  {
    hide Sound;
    Live(h, b);
    Live(h, bp);
  }

  lemma LinkedUnit(h: Heap, p: nat, bp: nat, u: nat)
    requires Sound(h) && bp in h.live && Precedes(h, p, bp) && p in h.ptr
    ensures UnitOk(Linked(h, p, bp), u)
  {
    hide Sound;
    var h' := Linked(h, p, bp);
    Unit(h, u);
    Live(h, bp);
    if InFree(h, u) {
      var a :| a in h.free && a in h.size && InBlock(u, a, h.size[a]);
      assert a in h'.free && InBlock(u, a, h'.size[a]);
    }
    if InLive(h, u) {
      var b :| b in h.live && InBlock(u, b, h.live[b]);
      if b == bp {
        assert bp in h'.free && InBlock(u, bp, h'.size[bp]);
      } else {
        assert b in h'.live && InBlock(u, b, h'.live[b]);
      }
    }
    if InFree(h', u) {
      var a :| a in h'.free && a in h'.size && InBlock(u, a, h'.size[a]);
      assert if a == bp then InBlock(u, bp, h.live[bp]) else InBlock(u, a, h.size[a]);
    }
  }

  lemma LinkedSound(h: Heap, p: nat, bp: nat)
    requires Inv(h) && bp in h.live && Precedes(h, p, bp)
    ensures p in h.ptr && Sound(Linked(h, p, bp)) && Linked(h, p, bp).ptr[bp] == h.ptr[p]
    ensures forall a :: a in h.free && a != h.base && a != p ==> !Touches(Linked(h, p, bp), a)
  {
    hide NodeOk, LiveOk, UnitOk;
    Gaps(h, p, bp);
    var h' := Linked(h, p, bp);
    forall a | a in h'.free
      ensures NodeOk(h', a)
    {
      LinkedNode(h, p, bp, a);
    }
    forall b | b in h'.live
      ensures LiveOk(h', b)
    {
      LinkedLive(h, p, bp, b);
    }
    forall u: nat
      ensures UnitOk(h', u)
    {
      LinkedUnit(h, p, bp, u);
    }
    forall a | a in h.free && a != h.base && a != p
      ensures !Touches(h', a)
    {
      assert !Touches(h, a);
    }
  }

  lemma AbsorbedNode(h: Heap, a: nat, c: nat)
    requires Sound(h) && a in h.free && a != h.base && Touches(h, a) && c in h.free && c != h.ptr[a]
    ensures h.ptr[a] in h.ptr && h.ptr[a] in h.size && NodeOk(Absorbed(h, a), c)
  {
    hide Sound;
    Node(h, a);
    Node(h, h.ptr[a]);
    Node(h, c);
  }

  lemma AbsorbedLive(h: Heap, a: nat, b: nat)
    requires Sound(h) && a in h.free && a != h.base && Touches(h, a) && b in h.live
    ensures h.ptr[a] in h.ptr && h.ptr[a] in h.size && LiveOk(Absorbed(h, a), b)
  {
    hide Sound;
    var n := h.ptr[a];
    Node(h, a);
    Node(h, n);
    Live(h, b);
    assert Apart(a, h.size[a], b, h.live[b]) && Apart(n, h.size[n], b, h.live[b]);
  }

  lemma AbsorbedUnit(h: Heap, a: nat, u: nat)
    requires Sound(h) && a in h.free && a != h.base && Touches(h, a)
    ensures h.ptr[a] in h.ptr && h.ptr[a] in h.size && UnitOk(Absorbed(h, a), u)
  {
    hide Sound;
    var n := h.ptr[a];
    Node(h, a);
    Node(h, n);
    var h' := Absorbed(h, a);
    Unit(h, u);
    if InFree(h, u) {
      var c :| c in h.free && c in h.size && InBlock(u, c, h.size[c]);
      var c' := if c == n then a else c;
      assert c' in h'.free && InBlock(u, c', h'.size[c']);
    }
    if InFree(h', u) {
      var c :| c in h'.free && c in h'.size && InBlock(u, c, h'.size[c]);
      var c' := if c == a && u >= n then n else c;
      assert c' in h.free && InBlock(u, c', h.size[c']);
    }
  }

  lemma TouchedNext(h: Heap, a: nat)
    requires Sound(h) && a in h.free && a != h.base && Touches(h, a)
    ensures h.ptr[a] in h.ptr && h.ptr[a] in h.size && h.ptr[a] in h.free && h.ptr[a] != h.base && h.ptr[a] > a
  {
    hide Sound;
    Node(h, a);
    Node(h, h.ptr[a]);
  }

  lemma AbsorbedSound(h: Heap, a: nat)
    requires Sound(h) && a in h.free && a != h.base && Touches(h, a) && h.freep != h.ptr[a]
    ensures h.ptr[a] in h.ptr && h.ptr[a] in h.size && h.ptr[a] in h.free && h.ptr[a] != h.base && h.ptr[a] > a
    ensures Sound(Absorbed(h, a))
    ensures Touches(Absorbed(h, a), a) <==> Touches(h, h.ptr[a])
    ensures forall c :: c in h.free && c != a ==> (Touches(Absorbed(h, a), c) <==> Touches(h, c))
  {
    hide NodeOk, LiveOk, UnitOk;
    TouchedNext(h, a);
    var h' := Absorbed(h, a);
    forall c | c in h'.free
      ensures NodeOk(h', c)
    {
      AbsorbedNode(h, a, c);
    }
    forall b | b in h'.live
      ensures LiveOk(h', b)
    {
      AbsorbedLive(h, a, b);
    }
    forall u: nat
      ensures UnitOk(h', u)
    {
      AbsorbedUnit(h, a, u);
    }
  }

  lemma NodeFields(h: Heap, a: nat)
    requires Sound(h) && a in h.free
    ensures a in h.ptr && a in h.size && h.ptr[a] in h.free && h.ptr[a] in h.ptr && h.ptr[a] in h.size && h.base <= a
  {
    hide Sound;
    Node(h, a);
    Node(h, h.ptr[a]);
  }

  /** The node at `a` takes in the next one if they touch. */
  ghost function Joined(h: Heap, a: nat): Heap
    requires Sound(h) && a in h.free
  {
    NodeFields(h, a);
    if Touches(h, a) then Absorbed(h, a) else h
  }

  /** free's linking: the block is put in place and joined with the neighbours it touches. */
  ghost function Freed(h: Heap, p: nat, bp: nat): Heap
    requires Inv(h) && bp in h.live && Precedes(h, p, bp)
  {
    LinkedSound(h, p, bp);
    JoinedAbove(h, p, bp);
    Joined(Joined(Linked(h, p, bp), bp), p)
  }

  lemma JoinedAbove(h: Heap, p: nat, bp: nat)
    requires Inv(h) && bp in h.live && Precedes(h, p, bp)
    ensures p in h.ptr && Sound(Linked(h, p, bp)) && bp in Linked(h, p, bp).free
    ensures var h2 := Joined(Linked(h, p, bp), bp);
      Sound(h2) && p in h2.free && bp in h2.free && h2.freep == p && h2.base == h.base && h2.ptr[p] == bp
      && forall a :: a in h2.free && a != h.base && a != p ==> !Touches(h2, a)
  {
    hide Sound;
    LinkedSound(h, p, bp);
    Gaps(h, p, bp);
    var h1 := Linked(h, p, bp);
    NodeFields(h1, bp);
    if Touches(h1, bp) {
      TouchedNext(h1, bp);
      AbsorbedSound(h1, bp);
    }
  }

  lemma FreedInv(h: Heap, p: nat, bp: nat)
    requires Inv(h) && bp in h.live && Precedes(h, p, bp)
    ensures Inv(Freed(h, p, bp))
  {
    hide Sound;
    LinkedSound(h, p, bp);
    JoinedAbove(h, p, bp);
    var h2 := Joined(Linked(h, p, bp), bp);
    NodeFields(h2, p);
    if Touches(h2, p) {
      BaseTouchesNone(h2);
      AbsorbedSound(h2, p);
    }
  }

  lemma BaseTouchesNone(h: Heap)
    requires Sound(h)
    ensures Touches(h, h.base) ==> h.ptr[h.base] == h.base
  {
    hide Sound;
    Ends(h);
    Node(h, h.base);
  }

  // ----- The search of free -----

  ghost function Above(h: Heap, a: nat): set<nat> {
    set c | c in h.free && c > a
  }

  lemma AboveShrinks(h: Heap, a: nat, b: nat)
    requires a < b && b in h.free
    ensures |Above(h, b)| < |Above(h, a)|
  {
    Smaller(Above(h, b), Above(h, a), b);
  }

  lemma Smaller(s: set<nat>, t: set<nat>, x: nat)
    requires s <= t && x in t && x !in s
    ensures |s| < |t|
  {
    assert |t| == |s| + |t - s| by {
      assert s + (t - s) == t;
    }
    assert x in t - s;
  }

  /** Where the search does not stop it moves up towards the block, or from above it on to
      the wrap at base. */
  lemma SearchStep(h: Heap, p: nat, bp: nat)
    requires Sound(h) && p in h.free && bp in h.live && p in h.ptr && !Stops(h, p, bp)
    ensures p != bp && h.ptr[p] in h.free
    ensures p < bp ==> p < h.ptr[p] < bp
    ensures p > bp ==> h.ptr[p] > p || (h.ptr[p] == h.base && h.base < bp)
  {
    hide Sound;
    Node(h, p);
    Live(h, bp);
  }

  // ----- malloc -----

  /** A block of exactly the size asked for leaves the list. */
  function TakeWhole(h: Heap, prev: nat, p: nat): Heap
    requires p in h.ptr && p in h.size
  {
    h.(ptr := h.ptr[prev := h.ptr[p]], freep := prev, free := h.free - {p}, live := h.live[p := h.size[p]])
  }

  /** A larger block gives its tail. */
  function TakeTail(h: Heap, prev: nat, p: nat, n: nat): Heap
    requires p in h.size && n < h.size[p]
  {
    var q := p + (h.size[p] - n);
    h.(size := h.size[p := h.size[p] - n][q := n], freep := prev, live := h.live[q := n])
  }

  lemma WholeNode(h: Heap, prev: nat, p: nat, a: nat)
    requires Sound(h) && prev in h.free && p in h.free && p != h.base && prev in h.ptr && h.ptr[prev] == p
    requires a in h.free && a != p && p in h.ptr && p in h.size
    ensures NodeOk(TakeWhole(h, prev, p), a)
  {
    hide Sound;
    Node(h, prev);
    Node(h, p);
    Node(h, a);
  }

  lemma WholeLive(h: Heap, prev: nat, p: nat, b: nat)
    requires Sound(h) && prev in h.free && p in h.free && p != h.base && p in h.ptr && p in h.size
    requires b in TakeWhole(h, prev, p).live
    ensures LiveOk(TakeWhole(h, prev, p), b)
  {
    hide Sound;
    Node(h, p);
    if b != p {
      Live(h, b);
      assert Apart(p, h.size[p], b, h.live[b]);
    } else {
      WholeApart(h, p);
    }
  }

  /** A free block is apart from all others. */
  lemma WholeApart(h: Heap, p: nat)
    requires Sound(h) && p in h.free && p in h.size
    ensures forall a :: a in h.free && a in h.size && a != p ==> Apart(a, h.size[a], p, h.size[p])
    ensures forall c :: c in h.live ==> Apart(c, h.live[c], p, h.size[p])
    ensures p !in h.live
  {
    hide Sound;
    forall a | a in h.free && a in h.size && a != p
      ensures Apart(a, h.size[a], p, h.size[p])
    {
      if a < p {
        FreeApart(h, a, p);
      } else {
        FreeApart(h, p, a);
      }
    }
    forall c | c in h.live
      ensures Apart(c, h.live[c], p, h.size[p]) && c != p
    {
      Live(h, c);
      assert Apart(p, h.size[p], c, h.live[c]);
    }
  }

  lemma WholeUnit(h: Heap, prev: nat, p: nat, u: nat)
    requires Sound(h) && p in h.free && p in h.ptr && p in h.size
    ensures UnitOk(TakeWhole(h, prev, p), u)
  {
    hide Sound;
    Unit(h, u);
    WholeApart(h, p);
    var h' := TakeWhole(h, prev, p);
    if InFree(h, u) {
      var a :| a in h.free && a in h.size && InBlock(u, a, h.size[a]);
      assert if a == p then p in h'.live && InBlock(u, p, h'.live[p]) else a in h'.free && InBlock(u, a, h'.size[a]);
    }
    if InLive(h, u) {
      var b :| b in h.live && InBlock(u, b, h.live[b]);
      assert b in h'.live && InBlock(u, b, h'.live[b]);
    }
    if InLive(h', u) {
      var b :| b in h'.live && InBlock(u, b, h'.live[b]);
      assert if b == p then p in h.free && InBlock(u, p, h.size[p]) else b in h.live && InBlock(u, b, h.live[b]);
    }
  }

  lemma WholeInv(h: Heap, prev: nat, p: nat)
    requires Inv(h) && prev in h.free && p in h.free && p != h.base && prev in h.ptr && h.ptr[prev] == p && prev != p
    ensures p in h.ptr && p in h.size && p !in h.live && Inv(TakeWhole(h, prev, p))
  {
    hide NodeOk, LiveOk, UnitOk;
    NodeFields(h, p);
    NodeFields(h, prev);
    WholeApart(h, p);
    var h' := TakeWhole(h, prev, p);
    forall a | a in h'.free
      ensures NodeOk(h', a)
    {
      WholeNode(h, prev, p, a);
    }
    forall b | b in h'.live
      ensures LiveOk(h', b)
    {
      WholeLive(h, prev, p, b);
    }
    forall u: nat
      ensures UnitOk(h', u)
    {
      WholeUnit(h, prev, p, u);
    }
    forall a | a in h'.free && a != h.base
      ensures !Touches(h', a)
    {
      assert !Touches(h, a);
      if a == prev {
        WholeNoTouch(h, prev, p);
      }
    }
  }

  lemma WholeNoTouch(h: Heap, prev: nat, p: nat)
    requires Sound(h) && prev in h.free && p in h.free && p != h.base && p in h.ptr && p in h.size && prev in h.ptr
    requires h.ptr[prev] == p && prev != p && prev != h.base
    ensures !Touches(TakeWhole(h, prev, p), prev)
  {
    hide Sound;
    Node(h, prev);
    Node(h, p);
  }

  lemma TailNode(h: Heap, prev: nat, p: nat, n: nat, a: nat)
    requires Sound(h) && p in h.free && p != h.base && p in h.size && 0 < n < h.size[p] && a in h.free
    ensures NodeOk(TakeTail(h, prev, p, n), a)
  {
    hide Sound;
    Node(h, p);
    Node(h, a);
    TailApart(h, p, n);
  }

  /** The tail's address is no node's and no live block's. */
  lemma TailApart(h: Heap, p: nat, n: nat)
    requires Sound(h) && p in h.free && p in h.size && 0 < n < h.size[p]
    ensures var q := p + (h.size[p] - n);
      q !in h.free && q !in h.live
      && (forall a :: a in h.free && a in h.size && a != p ==> Apart(a, h.size[a], q, n))
      && (forall c :: c in h.live ==> Apart(c, h.live[c], q, n))
  {
    hide Sound;
    WholeApart(h, p);
    var q := p + (h.size[p] - n);
    forall a | a in h.free
      ensures a != q
    {
      Node(h, a);
      if a > p {
        FreeApart(h, p, a);
      }
    }
    forall c | c in h.live
      ensures c != q && Apart(c, h.live[c], q, n)
    {
      Live(h, c);
    }
  }

  lemma TailLive(h: Heap, prev: nat, p: nat, n: nat, b: nat)
    requires Sound(h) && p in h.free && p != h.base && p in h.size && 0 < n < h.size[p]
    requires b in TakeTail(h, prev, p, n).live
    ensures LiveOk(TakeTail(h, prev, p, n), b)
  {
    hide Sound;
    Node(h, p);
    TailApart(h, p, n);
    WholeApart(h, p);
    if b in h.live {
      Live(h, b);
    }
  }

  lemma TailUnit(h: Heap, prev: nat, p: nat, n: nat, u: nat)
    requires Sound(h) && p in h.free && p != h.base && p in h.size && 0 < n < h.size[p]
    ensures UnitOk(TakeTail(h, prev, p, n), u)
  {
    hide Sound;
    Unit(h, u);
    TailApart(h, p, n);
    var h', q := TakeTail(h, prev, p, n), p + (h.size[p] - n);
    if InFree(h, u) {
      var a :| a in h.free && a in h.size && InBlock(u, a, h.size[a]);
      if a == p && u >= q {
        assert q in h'.live && InBlock(u, q, h'.live[q]);
      } else {
        assert a in h'.free && InBlock(u, a, h'.size[a]);
      }
    }
    if InLive(h, u) {
      var b :| b in h.live && InBlock(u, b, h.live[b]);
      assert b in h'.live && InBlock(u, b, h'.live[b]);
    }
    if InFree(h', u) {
      var a :| a in h'.free && a in h'.size && InBlock(u, a, h'.size[a]);
      assert a in h.size && InBlock(u, a, h.size[a]);
    }
    if InLive(h', u) {
      var b :| b in h'.live && InBlock(u, b, h'.live[b]);
      assert if b == q then InBlock(u, p, h.size[p]) else b in h.live && InBlock(u, b, h.live[b]);
    }
  }

  lemma TailInv(h: Heap, prev: nat, p: nat, n: nat)
    requires Inv(h) && prev in h.free && p in h.free && p != h.base && p in h.size && 0 < n < h.size[p]
    ensures Inv(TakeTail(h, prev, p, n)) && p + (h.size[p] - n) !in h.live
  {
    hide NodeOk, LiveOk, UnitOk;
    TailApart(h, p, n);
    var h' := TakeTail(h, prev, p, n);
    forall a | a in h'.free
      ensures NodeOk(h', a)
    {
      TailNode(h, prev, p, n, a);
    }
    forall b | b in h'.live
      ensures LiveOk(h', b)
    {
      TailLive(h, prev, p, n, b);
    }
    forall u: nat
      ensures UnitOk(h', u)
    {
      TailUnit(h, prev, p, n, u);
    }
    forall a | a in h'.free && a != h.base
      ensures !Touches(h', a)
    {
      assert !Touches(h, a);
      TailNoTouch(h, prev, p, n, a);
    }
  }

  lemma TailNoTouch(h: Heap, prev: nat, p: nat, n: nat, a: nat)
    requires Sound(h) && p in h.free && p in h.size && 0 < n < h.size[p] && a in h.free && !Touches(h, a)
    requires p != h.base && a != h.base
    ensures !Touches(TakeTail(h, prev, p, n), a)
  {
    hide Sound;
    Node(h, a);
    Node(h, p);
    TailApart(h, p, n);
  }

  // ----- morecore -----

  /** Units p .. p + nu from sbrk, set up as a block about to be freed. */
  ghost function Granted(h: Heap, p: nat, nu: nat): Heap {
    h.(size := h.size[p := nu], live := h.live[p := nu],
       granted := h.granted + (set u | p <= u < p + nu && InBlock(u, p, nu)), brk := p + nu)
  }

  lemma GrantedNode(h: Heap, p: nat, nu: nat, a: nat)
    requires Sound(h) && h.brk <= p && nu > 0 && a in h.free
    ensures a != p && NodeOk(Granted(h, p, nu), a)
  {
    hide Sound;
    Ends(h);
    Node(h, a);
  }

  lemma GrantedLive(h: Heap, p: nat, nu: nat, b: nat)
    requires Sound(h) && h.brk <= p && nu > 0 && b in Granted(h, p, nu).live
    ensures LiveOk(Granted(h, p, nu), b)
  {
    hide Sound;
    Ends(h);
    forall a | a in h.free
      ensures a != p && a in h.size && Apart(a, h.size[a], p, nu)
    {
      GrantedNode(h, p, nu, a);
      Node(h, a);
    }
    if b == p {
      forall c | c in h.live && c != p
        ensures Apart(c, h.live[c], p, nu)
      {
        Live(h, c);
      }
    } else {
      Live(h, b);
    }
  }

  lemma GrantedUnit(h: Heap, p: nat, nu: nat, u: nat)
    requires Sound(h) && h.brk <= p && nu > 0
    ensures UnitOk(Granted(h, p, nu), u)
  {
    hide Sound;
    Unit(h, u);
    var h' := Granted(h, p, nu);
    if InFree(h, u) {
      var a :| a in h.free && a in h.size && InBlock(u, a, h.size[a]);
      GrantedNode(h, p, nu, a);
      assert a in h'.free && InBlock(u, a, h'.size[a]);
    }
    if InLive(h, u) {
      var b :| b in h.live && InBlock(u, b, h.live[b]);
      Live(h, b);
      assert b in h'.live && InBlock(u, b, h'.live[b]);
    }
    if InFree(h', u) {
      var a :| a in h'.free && a in h'.size && InBlock(u, a, h'.size[a]);
      GrantedNode(h, p, nu, a);
      assert a in h.size && InBlock(u, a, h.size[a]);
    }
    if InLive(h', u) {
      var b :| b in h'.live && InBlock(u, b, h'.live[b]);
      assert b != p ==> b in h.live && InBlock(u, b, h.live[b]);
    }
    if InBlock(u, p, nu) {
      assert p in h'.live && InBlock(u, p, h'.live[p]);
    }
  }

  lemma GrantedInv(h: Heap, p: nat, nu: nat)
    requires Inv(h) && h.brk <= p && nu > 0
    ensures p !in h.live && Inv(Granted(h, p, nu))
  {
    hide NodeOk, LiveOk, UnitOk;
    var h' := Granted(h, p, nu);
    forall a | a in h'.free
      ensures NodeOk(h', a)
    {
      GrantedNode(h, p, nu, a);
    }
    forall b | b in h'.live
      ensures LiveOk(h', b)
    {
      GrantedLive(h, p, nu, b);
    }
    forall u: nat
      ensures UnitOk(h', u)
    {
      GrantedUnit(h, p, nu, u);
    }
    forall a | a in h'.free && a != h.base
      ensures !Touches(h', a)
    {
      GrantedNode(h, p, nu, a);
      assert !Touches(h, a);
    }
    NotLive(h, p);
  }

  lemma NotLive(h: Heap, p: nat)
    requires Sound(h) && h.brk <= p
    ensures p !in h.live
  {
    hide Sound;
    if p in h.live {
      Live(h, p);
    }
  }

  /** Freeing a block leaves a free block at least as large. */
  lemma FreedRoom(h: Heap, p: nat, bp: nat)
    requires Inv(h) && bp in h.live && Precedes(h, p, bp)
    ensures var h' := Freed(h, p, bp);
      exists a :: a in h'.free && a in h'.size && h'.size[a] >= h.live[bp]
  {
    hide Sound;
    LinkedSound(h, p, bp);
    JoinedAbove(h, p, bp);
    Gaps(h, p, bp);
    var h1 := Linked(h, p, bp);
    NodeFields(h1, bp);
    var h2 := Joined(h1, bp);
    NodeFields(h2, p);
    NodeFields(h2, bp);
    var h' := Freed(h, p, bp);
    if Touches(h2, p) {
      BaseTouchesNone(h2);
      AbsorbedSound(h2, p);
      assert p in h'.free && p in h'.size && h'.size[p] >= h.live[bp];
    } else {
      assert bp in h'.free && bp in h'.size && h'.size[bp] >= h.live[bp];
    }
  }

  // ----- The lap of malloc's search -----

  /** Nodes that the search from freep has been through when it stands at p. */
  predicate Passed(h: Heap, p: nat, c: nat) {
    if p > h.freep then h.freep < c < p else c > h.freep || c < p
  }

  /** All of those are too small. */
  ghost predicate TooSmall(h: Heap, p: nat, n: nat) {
    forall c :: c in h.free && c in h.size && Passed(h, p, c) ==> h.size[c] < n
  }

  lemma LapStart(h: Heap, n: nat)
    requires Sound(h)
    ensures h.freep in h.free && h.freep in h.ptr && h.ptr[h.freep] in h.free && TooSmall(h, h.ptr[h.freep], n)
  {
    hide Sound;
    Ends(h);
    Node(h, h.freep);
    forall c | c in h.free
      ensures !Passed(h, h.ptr[h.freep], c)
    {
      Node(h, c);
    }
  }

  lemma LapStep(h: Heap, p: nat, n: nat)
    requires Sound(h) && p in h.free && p in h.size && h.size[p] < n && p != h.freep && TooSmall(h, p, n)
    ensures p in h.ptr && h.ptr[p] in h.free && TooSmall(h, h.ptr[p], n)
    ensures p > h.freep ==> h.ptr[p] > p || h.ptr[p] == h.base <= h.freep
    ensures p < h.freep ==> p < h.ptr[p] <= h.freep
  {
    hide Sound;
    Ends(h);
    Node(h, p);
    Node(h, h.freep);
    forall c | c in h.free && c in h.size && Passed(h, h.ptr[p], c)
      ensures h.size[c] < n
    {
      Node(h, c);
      assert c == p || Passed(h, p, c);
    }
  }

  /** Back at freep without success, every free block is too small. */
  lemma LapEnd(h: Heap, n: nat, a: nat)
    requires TooSmall(h, h.freep, n) && h.freep in h.size && h.size[h.freep] < n
    requires a in h.free && a in h.size
    ensures h.size[a] < n
  {
  }

  // ----- The argument of sbrk -----

  /** A size in bytes passed as a 32-bit int. */
  function AsInt(x: nat): int {
    var r := x % 0x1_0000_0000;
    if r < 0x8000_0000 then r else r - 0x1_0000_0000
  }

  /** morecore asks sbrk for what it means to exactly below 2^27 units. */
  lemma SbrkArgument(nu: nat)
    requires nu < 0x1_0000_0000
    ensures AsInt(nu * 16) == nu * 16 <==> nu < 0x800_0000
  {
  }
}
