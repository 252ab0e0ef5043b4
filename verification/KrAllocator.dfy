/** malloc, free and morecore of user/umalloc.c on the headers in memory. */
module KrAllocator {
  import opened KrHeap

  class Allocator {
    var ptr: map<nat, nat>      // s.ptr of the header at an address
    var size: map<nat, nat>     // s.size
    var freep: nat              // 0 before the first malloc
    const base: nat             // the header that starts the list
    ghost var free: set<nat>
    ghost var live: map<nat, nat>
    ghost var granted: set<nat>
    var brk: nat                // the end of the process's memory, kept by the kernel

    ghost function View(): Heap
      reads this
    {
      Heap(ptr, size, freep, base, free, live, granted, brk)
    }

    /** Before the first malloc nothing is set up; after it the heap is good. */
    ghost predicate Valid()
      reads this
    {
      && 0 < base < brk
      && if freep == 0 then live == map[] && granted == {} else Inv(View())
    }

    constructor (base: nat, brk: nat)
      requires 0 < base < brk
      ensures Valid() && live == map[] && granted == {}
    {
      ptr, size, freep := map[], map[], 0;
      this.base, this.brk := base, brk;
      free, live, granted := {}, map[], {};
    }

    /** sbrk: memory above all there was so far, possibly after a gap that others took; or
        a failure. */
    method Sbrk(nu: nat) returns (ok: bool, p: nat)
      modifies this`brk
      ensures !ok ==> brk == old(brk)
      ensures ok ==> old(brk) <= p && brk == p + nu
    {
      var fail: bool, gap: nat := *, *;
      if fail {
        return false, 0;
      }
      p := brk + gap;
      brk := p + nu;
      ok := true;
    }

    /** The search of free: once round the list at most, to the node before the block. */
    method FindPlace(bp: nat) returns (p: nat)
      requires Inv(View()) && bp in live
      ensures Precedes(View(), p, bp)
    {
      hide Sound;
      ghost var h := View();
      Ends(h);
      p := freep;
      StopsIffPrecedes(h, p, bp);
      while !(bp > p && bp < ptr[p]) && !(p >= ptr[p] && (bp > p || bp < ptr[p]))
        invariant p in free && p in ptr && (Stops(h, p, bp) <==> Precedes(h, p, bp))
        decreases if p > bp then 1 else 0, |Above(h, p)|
      {
        SearchStep(h, p, bp);
        if ptr[p] > p {
          AboveShrinks(h, p, ptr[p]);
        }
        p := ptr[p];
        StopsIffPrecedes(h, p, bp);
      }
    }

    /** free of a live block. */
    method Free(ap: nat) returns (ghost p': nat)
      requires Valid() && ap > 0 && ap - 1 in live
      modifies this
      ensures Valid() && freep != 0 && live == old(live) - {ap - 1} && granted == old(granted) && brk == old(brk)
      ensures Precedes(old(View()), p', ap - 1) && View() == Freed(old(View()), p', ap - 1)
    {
      hide Sound;
      var bp := ap - 1;
      ghost var h := View();
      var p := FindPlace(bp);
      p' := p;
      Gaps(h, p, bp);
      LinkedSound(h, p, bp);
      JoinedAbove(h, p, bp);
      FreedInv(h, p, bp);
      NodeFields(h, p);
      NodeFields(Joined(Linked(h, p, bp), bp), p);
      NodeFields(Linked(h, p, bp), bp);
      var n := ptr[p];
      if bp + size[bp] == n {
        var joined: nat := size[bp] + size[n];
        size := size[bp := joined];
        ptr := ptr[bp := ptr[n]];
      } else {
        ptr := ptr[bp := n];
      }
      if p + size[p] == bp {
        var joined: nat := size[p] + size[bp];
        size := size[p := joined];
        ptr := ptr[p := ptr[bp]];
      } else {
        ptr := ptr[p := bp];
      }
      freep := p;
      live := live - {bp};
      free := Freed(h, p, bp).free;
      SameMaps(h, p, bp);
      assert View() == Freed(h, p, bp);
      PositiveNode(View(), p);
    }

    /** morecore: on success some free block is large enough, and the live blocks are as
        they were. */
    method MoreCore(nunits: nat) returns (p: nat)
      requires freep != 0 && Valid() && 0 < nunits < 0x800_0000
      modifies this
      ensures Valid() && freep != 0 && live == old(live) && old(granted) <= granted
      ensures p == 0 ==> View() == old(View())
      ensures p != 0 ==> p == freep && exists a :: a in free && a in size && size[a] >= nunits
    {
      hide Sound, Freed, Precedes;
      var nu := if nunits < 4096 then 4096 else nunits;
      SbrkArgument(nu);
      ghost var h := View();
      var ok;
      ok, p := Sbrk(nu);
      if !ok {
        return 0;
      }
      GrantedInv(h, p, nu);
      size := size[p := nu];
      live := live[p := nu];
      granted := granted + (set u | p <= u < p + nu && InBlock(u, p, nu));
      assert View() == Granted(h, p, nu);
      ghost var place := Free(p + 1);
      FreedRoom(Granted(h, p, nu), place, p);
      assert live == h.live[p := nu] - {p} == h.live;
      p := freep;
    }

    /** The units of a request: its bytes and a header. */
    function Units(nbytes: nat): nat {
      (nbytes + 15) / 16 + 1
    }

    /** Some free block can serve the request. */
    ghost predicate Served(nunits: nat)
      reads this
    {
      freep != 0 && exists a :: a in free && a in size && size[a] >= nunits
    }

    /** malloc: a block of Units(nbytes) units apart from all other blocks; or 0, only when no
        free block is large enough and sbrk has failed. */
    method Malloc(nbytes: nat) returns (r: nat)
      requires Valid() && (Units(nbytes) < 0x800_0000 || Served(Units(nbytes)))
      modifies this
      ensures Valid() && freep != 0 && old(granted) <= granted
      ensures r == 0 ==> live == old(live) && forall a :: a in free && a in size ==> size[a] < Units(nbytes)
      ensures r != 0 ==> r - 1 !in old(live) && live == old(live)[r - 1 := Units(nbytes)]
      ensures (Units(nbytes) - 1) * 16 >= nbytes
    {
      hide Sound;
      var nunits := (nbytes + 15) / 16 + 1;
      if freep == 0 {
        Init();
      }
      ghost var grown := false;
      ghost var h := View();
      LapStart(h, nunits);
      var prevp := freep;
      var p := ptr[prevp];
      while true
        invariant Inv(View()) && base > 0 && base < brk && freep != 0 && h == View()
        invariant live == old(live) && old(granted) <= granted
        invariant prevp in free && prevp in ptr && ptr[prevp] == p && p in free
        invariant TooSmall(h, p, nunits)
        invariant grown ==> exists a :: a in free && a in size && size[a] >= nunits
        invariant !grown && old(freep) != 0 ==> View() == old(View())
        decreases if grown then 0 else 1, if p > freep then 1 else 0, |Above(h, p)|
      {
        NodeFields(h, p);
        if size[p] >= nunits {
          r := Take(prevp, p, nunits);
          return;
        }
        if p == freep {
          EndOfLap(h, nunits, grown);
          p := MoreCore(nunits);
          if p == 0 {
            return 0;
          }
          grown := true;
          h := View();
          LapStart(h, nunits);
        } else {
          LapStep(h, p, nunits);
          if ptr[p] > p {
            AboveShrinks(h, p, ptr[p]);
          }
        }
        prevp, p := p, ptr[p];
        NodeFields(h, prevp);
      }
    }

    method Init()
      requires Valid() && freep == 0
      modifies this
      ensures Valid() && freep == base && Inv(View()) && live == old(live) && granted == old(granted) && brk == old(brk)
    {
      ptr := map[base := base];
      freep := base;
      size := map[base := 0];
      free := {base};
      assert NodeOk(View(), base);
    }

    /** The successful end of malloc's search. */
    method Take(prevp: nat, p: nat, nunits: nat) returns (r: nat)
      requires Inv(View()) && 0 < base < brk && prevp in free
      requires prevp in ptr && ptr[prevp] == p && p in free && p in size
      requires 0 < nunits <= size[p]
      modifies this
      ensures Valid() && freep != 0 && granted == old(granted)
      ensures r != 0 && r - 1 !in old(live) && live == old(live)[r - 1 := nunits]
    {
      hide Sound;
      ghost var h := View();
      NotBase(h, prevp, p);
      PositiveNode(h, prevp);
      if size[p] == nunits {
        WholeInv(h, prevp, p);
        ptr := ptr[prevp := ptr[p]];
        live := live[p := nunits];
        free := free - {p};
        freep := prevp;
        assert View() == TakeWhole(h, prevp, p);
        r := p + 1;
      } else {
        TailInv(h, prevp, p, nunits);
        var rest: nat := size[p] - nunits;
        size := size[p := rest];
        var q := p + rest;
        size := size[q := nunits];
        live := live[q := nunits];
        freep := prevp;
        assert View() == TakeTail(h, prevp, p, nunits);
        r := q + 1;
      }
    }
  }

  /** The order in which free writes the links does not matter. */
  lemma SameMaps(h: Heap, p: nat, bp: nat)
    requires Inv(h) && bp in h.live && Precedes(h, p, bp)
    requires p in h.ptr && p in h.size && bp in h.size && h.ptr[p] in h.ptr && h.ptr[p] in h.size
    ensures var n := h.ptr[p];
      var up := bp + h.size[bp] == n;
      var size1 := if up then h.size[bp := h.size[bp] + h.size[n]] else h.size;
      var ptr1 := if up then h.ptr[bp := h.ptr[n]] else h.ptr[bp := n];
      var down := p + size1[p] == bp;
      && Freed(h, p, bp).size == (if down then size1[p := size1[p] + size1[bp]] else size1)
      && Freed(h, p, bp).ptr == (if down then ptr1[p := ptr1[bp]] else ptr1[p := bp])
      && Freed(h, p, bp).freep == p && Freed(h, p, bp).live == h.live - {bp} && Freed(h, p, bp).base == h.base
      && Freed(h, p, bp).granted == h.granted && Freed(h, p, bp).brk == h.brk
  {
    hide Sound;
    Gaps(h, p, bp);
    LinkedSound(h, p, bp);
    JoinedAbove(h, p, bp);
    NodeFields(Linked(h, p, bp), bp);
    NodeFields(Joined(Linked(h, p, bp), bp), p);
  }

  lemma PositiveNode(h: Heap, a: nat)
    requires Inv(h) && a in h.free && h.base > 0
    ensures a > 0
  {
    NodeFields(h, a);
  }

  lemma NotBase(h: Heap, prev: nat, p: nat)
    requires Inv(h) && p in h.free && p in h.size && h.size[p] > 0
    requires prev in h.free && prev in h.ptr && h.ptr[prev] == p
    ensures p != h.base && prev != p
  {
    Node(h, p);
    Node(h, prev);
  }

  /** A lap that ends without success shows that morecore has not been called yet. */
  lemma EndOfLap(h: Heap, n: nat, grown: bool)
    requires Sound(h) && TooSmall(h, h.freep, n) && h.freep in h.size && h.size[h.freep] < n
    requires grown ==> exists a :: a in h.free && a in h.size && h.size[a] >= n
    ensures !grown && forall a :: a in h.free && a in h.size ==> h.size[a] < n
  {
    forall a | a in h.free && a in h.size
      ensures h.size[a] < n
    {
      LapEnd(h, n, a);
    }
  }
}
