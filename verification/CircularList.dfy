/** The intrusive circular doubly linked list of kernel/list.c.

    Nodes are addresses and the link fields of all nodes live in two maps, so one
    heap can hold any number of lists.  A list is abstracted by the sequence of
    nodes met from its head. */
module CircularList {

  type Address = nat

  predicate Distinct(s: seq<Address>) {
    forall i, j :: 0 <= i < j < |s| ==> s[i] != s[j]
  }

  /** The nodes of the ring, the head first. */
  function Nodes(head: Address, items: seq<Address>): seq<Address> {
    [head] + items
  }

  function After(r: seq<Address>, k: nat): Address
    requires k < |r|
  {
    if k + 1 < |r| then r[k + 1] else r[0]
  }

  function Before(r: seq<Address>, k: nat): Address
    requires k < |r|
  {
    if k > 0 then r[k - 1] else r[|r| - 1]
  }

  /** The links of the k-th node lead to its neighbours. */
  predicate LinkedAt(next: map<Address, Address>, prev: map<Address, Address>, r: seq<Address>, k: nat) {
    && k < |r| && r[k] in next && r[k] in prev
    && next[r[k]] == After(r, k) && prev[r[k]] == Before(r, k)
  }

  /** `next` and `prev` thread exactly the head and then the items, both ways round. */
  predicate IsRing(next: map<Address, Address>, prev: map<Address, Address>, head: Address, items: seq<Address>) {
    var r := Nodes(head, items);
    Distinct(r) && forall k :: 0 <= k < |r| ==> LinkedAt(next, prev, r, k)
  }

  /** The items without the one at position i. */
  function Without(items: seq<Address>, i: nat): seq<Address>
    requires i < |items|
  {
    items[..i] + items[i + 1..]
  }

  // ----- What the link writes do to the maps -----

  function UnlinkNext(next: map<Address, Address>, prev: map<Address, Address>, e: Address): map<Address, Address>
    requires e in next && e in prev
  {
    next[prev[e] := next[e]]
  }

  function UnlinkPrev(next: map<Address, Address>, prev: map<Address, Address>, e: Address): map<Address, Address>
    requires e in next && e in prev
  {
    prev[next[e] := prev[e]]
  }

  function LinkNext(next: map<Address, Address>, head: Address, e: Address): map<Address, Address>
    requires head in next
  {
    next[e := next[head]][head := e]
  }

  function LinkPrev(next: map<Address, Address>, prev: map<Address, Address>, head: Address, e: Address)
    : map<Address, Address>
    requires head in next
  {
    prev[e := head][next[head] := e]
  }

  lemma DistinctWithout(r: seq<Address>, i: nat)
    requires i < |r| && Distinct(r)
    ensures Distinct(Without(r, i))
    ensures forall k :: 0 <= k < |r| - 1 ==> Without(r, i)[k] == r[if k < i then k else k + 1]
  {
  }

  lemma UnlinkedAt(next: map<Address, Address>, prev: map<Address, Address>, r: seq<Address>, i: nat, k: nat)
    requires 0 < i < |r| && k < |r| - 1 && Distinct(r)
    requires LinkedAt(next, prev, r, i) && LinkedAt(next, prev, r, if k < i then k else k + 1)
    ensures LinkedAt(UnlinkNext(next, prev, r[i]), UnlinkPrev(next, prev, r[i]), Without(r, i), k)
  {
    DistinctWithout(r, i);
    var j := if k < i then k else k + 1;
    assert r[j] != r[i];
  }

  lemma UnlinkKeepsRing(next: map<Address, Address>, prev: map<Address, Address>,
                        head: Address, items: seq<Address>, i: nat)
    requires IsRing(next, prev, head, items) && i < |items|
    ensures items[i] in next && items[i] in prev
    ensures IsRing(UnlinkNext(next, prev, items[i]), UnlinkPrev(next, prev, items[i]), head, Without(items, i))
  {
    var r := Nodes(head, items);
    assert LinkedAt(next, prev, r, i + 1);
    var r' := Nodes(head, Without(items, i));
    assert r' == Without(r, i + 1);
    DistinctWithout(r, i + 1);
    forall k | 0 <= k < |r'|
      ensures LinkedAt(UnlinkNext(next, prev, items[i]), UnlinkPrev(next, prev, items[i]), r', k)
    {
      assert LinkedAt(next, prev, r, if k < i + 1 then k else k + 1);
      UnlinkedAt(next, prev, r, i + 1, k);
    }
  }

  lemma NewlyLinkedAt(next: map<Address, Address>, prev: map<Address, Address>, r: seq<Address>, e: Address, k: nat)
    requires |r| > 0 && k <= |r| && Distinct(r) && e !in r
    requires LinkedAt(next, prev, r, 0) && LinkedAt(next, prev, r, if k > 0 then k - 1 else 0)
    ensures LinkedAt(LinkNext(next, r[0], e), LinkPrev(next, prev, r[0], e), [r[0], e] + r[1..], k)
  {
    var r' := [r[0], e] + r[1..];
    assert forall m :: 2 <= m < |r'| ==> r'[m] == r[m - 1];
  }

  lemma LinkKeepsRing(next: map<Address, Address>, prev: map<Address, Address>,
                      head: Address, items: seq<Address>, e: Address)
    requires IsRing(next, prev, head, items) && e !in Nodes(head, items)
    ensures head in next
    ensures IsRing(LinkNext(next, head, e), LinkPrev(next, prev, head, e), head, [e] + items)
  {
    var r := Nodes(head, items);
    assert LinkedAt(next, prev, r, 0);
    var r' := Nodes(head, [e] + items);
    assert r' == [r[0], e] + r[1..];
    forall k | 0 <= k < |r'|
      ensures LinkedAt(LinkNext(next, head, e), LinkPrev(next, prev, head, e), r', k)
    {
      assert LinkedAt(next, prev, r, if k > 0 then k - 1 else 0);
      NewlyLinkedAt(next, prev, r, e, k);
    }
  }

  /** A ring with no node touched by the writes is still a ring. */
  lemma OtherRingKept(next: map<Address, Address>, prev: map<Address, Address>,
                      next': map<Address, Address>, prev': map<Address, Address>,
                      head: Address, items: seq<Address>)
    requires IsRing(next, prev, head, items)
    requires forall a :: a in Nodes(head, items) ==>
      a in next' && a in prev' && a in next && a in prev && next'[a] == next[a] && prev'[a] == prev[a]
    ensures IsRing(next', prev', head, items)
  {
    var r := Nodes(head, items);
    forall k | 0 <= k < |r|
      ensures LinkedAt(next', prev', r, k)
    {
      assert LinkedAt(next, prev, r, k);
      assert r[k] in r;
    }
  }

  /** The neighbours of a node of the ring are in the ring. */
  lemma NeighboursInRing(next: map<Address, Address>, prev: map<Address, Address>,
                         head: Address, items: seq<Address>, a: Address)
    requires IsRing(next, prev, head, items) && a in Nodes(head, items)
    ensures a in next && a in prev && next[a] in Nodes(head, items) && prev[a] in Nodes(head, items)
  {
    var r := Nodes(head, items);
    var k :| 0 <= k < |r| && r[k] == a;
    assert LinkedAt(next, prev, r, k);
  }

  lemma EmptyRing(next: map<Address, Address>, prev: map<Address, Address>, head: Address, items: seq<Address>)
    requires IsRing(next, prev, head, items)
    ensures head in next && (next[head] == head <==> items == [])
    ensures items != [] ==> next[head] == items[0]
  {
    var r := Nodes(head, items);
    assert LinkedAt(next, prev, r, 0);
  }

  // ----- Several lists in one memory -----

  predicate Apart(heads: seq<Address>, lists: seq<seq<Address>>, j: nat, k: nat)
    requires |heads| == |lists| && j < |heads| && k < |heads|
  {
    forall a :: a in Nodes(heads[j], lists[j]) ==> a !in Nodes(heads[k], lists[k])
  }

  /** Each head has its list, and no node is on two. */
  ghost predicate Rings(next: map<Address, Address>, prev: map<Address, Address>,
                        heads: seq<Address>, lists: seq<seq<Address>>) {
    && |heads| == |lists|
    && (forall k :: 0 <= k < |heads| ==> IsRing(next, prev, heads[k], lists[k]))
    && (forall j, k :: 0 <= j < |heads| && 0 <= k < |heads| && j != k ==> Apart(heads, lists, j, k))
  }

  lemma UnlinkKeepsRings(next: map<Address, Address>, prev: map<Address, Address>,
                         heads: seq<Address>, lists: seq<seq<Address>>, k: nat, n: nat)
    requires Rings(next, prev, heads, lists) && k < |heads| && n < |lists[k]|
    ensures lists[k][n] in next && lists[k][n] in prev
    ensures Rings(UnlinkNext(next, prev, lists[k][n]), UnlinkPrev(next, prev, lists[k][n]),
                  heads, lists[k := Without(lists[k], n)])
  {
    var e := lists[k][n];
    UnlinkKeepsRing(next, prev, heads[k], lists[k], n);
    NeighboursInRing(next, prev, heads[k], lists[k], e);
    var next', prev', lists' := UnlinkNext(next, prev, e), UnlinkPrev(next, prev, e), lists[k := Without(lists[k], n)];
    forall j | 0 <= j < |heads|
      ensures IsRing(next', prev', heads[j], lists'[j])
    {
      if j != k {
        assert Apart(heads, lists, k, j);
        assert forall a :: a in Nodes(heads[j], lists[j]) ==> a in next && a in prev by {
          forall a | a in Nodes(heads[j], lists[j])
            ensures a in next && a in prev
          {
            NeighboursInRing(next, prev, heads[j], lists[j], a);
          }
        }
        OtherRingKept(next, prev, next', prev', heads[j], lists[j]);
      }
    }
    assert forall a :: a in lists'[k] ==> a in lists[k];
    forall i, j | 0 <= i < |heads| && 0 <= j < |heads| && i != j
      ensures Apart(heads, lists', i, j)
    {
      assert Apart(heads, lists, i, j);
    }
  }

  lemma LinkKeepsRings(next: map<Address, Address>, prev: map<Address, Address>,
                       heads: seq<Address>, lists: seq<seq<Address>>, k: nat, e: Address)
    requires Rings(next, prev, heads, lists) && k < |heads|
    requires forall j :: 0 <= j < |heads| ==> e !in Nodes(heads[j], lists[j])
    ensures heads[k] in next
    ensures Rings(LinkNext(next, heads[k], e), LinkPrev(next, prev, heads[k], e), heads, lists[k := [e] + lists[k]])
  {
    LinkKeepsRing(next, prev, heads[k], lists[k], e);
    assert heads[k] == Nodes(heads[k], lists[k])[0];
    NeighboursInRing(next, prev, heads[k], lists[k], heads[k]);
    var next', prev' := LinkNext(next, heads[k], e), LinkPrev(next, prev, heads[k], e);
    var lists' := lists[k := [e] + lists[k]];
    forall j | 0 <= j < |heads|
      ensures IsRing(next', prev', heads[j], lists'[j])
    {
      if j != k {
        assert Apart(heads, lists, k, j);
        assert forall a :: a in Nodes(heads[j], lists[j]) ==> a in next && a in prev by {
          forall a | a in Nodes(heads[j], lists[j])
            ensures a in next && a in prev
          {
            NeighboursInRing(next, prev, heads[j], lists[j], a);
          }
        }
        OtherRingKept(next, prev, next', prev', heads[j], lists[j]);
      }
    }
    assert forall a :: a in lists'[k] <==> a == e || a in lists[k];
    forall i, j | 0 <= i < |heads| && 0 <= j < |heads| && i != j
      ensures Apart(heads, lists', i, j)
    {
      assert Apart(heads, lists, i, j);
    }
  }

  /** The memory that holds the link fields. */
  class Links {
    var next: map<Address, Address>
    var prev: map<Address, Address>

    constructor ()
      ensures next == map[] && prev == map[]
    {
      next := map[];
      prev := map[];
    }

    /** The list at `head` as the sequence of its items. */
    ghost predicate Lists(head: Address, items: seq<Address>)
      reads this
    {
      IsRing(next, prev, head, items)
    }

    method Init(head: Address)
      modifies this
      ensures Lists(head, [])
      ensures next == old(next)[head := head] && prev == old(prev)[head := head]
    {
      next := next[head := head];
      prev := prev[head := head];
      assert Nodes(head, []) == [head] && LinkedAt(next, prev, [head], 0);
    }

    method IsEmpty(head: Address, ghost items: seq<Address>) returns (b: bool)
      requires Lists(head, items)
      ensures b <==> items == []
    {
      EmptyRing(next, prev, head, items);
      b := next[head] == head;
    }

    method Remove(e: Address)
      requires e in next && e in prev
      modifies this
      ensures next == UnlinkNext(old(next), old(prev), e)
      ensures prev == UnlinkPrev(old(next), old(prev), e)
    {
      next := next[prev[e] := next[e]];
      prev := prev[next[e] := prev[e]];
    }

    method Push(head: Address, e: Address)
      requires head in next
      modifies this
      ensures next == LinkNext(old(next), head, e)
      ensures prev == LinkPrev(old(next), old(prev), head, e)
    {
      next := next[e := next[head]];
      prev := prev[e := head];
      prev := prev[next[head] := e];
      next := next[head := e];
    }
  }
}
