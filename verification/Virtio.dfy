/** The virtqueue of kernel/virtio_disk.c: driver and device take turns over one split
    queue of NUM = 8 descriptors (section 2.6 of VirtIO 1.1).  Requests use chains of three
    descriptors. */
module Virtio {

  /** What a descriptor points the device at. */
  datatype Target = Nothing | Header(write: bool, sector: nat) | Data(buf: nat) | Status(head: nat)

  datatype Desc = Desc(addr: Target, next: nat, hasNext: bool, deviceWrites: bool)

  datatype Option<T> = None | Some(value: T)

  /** The memory that driver and device share, and the driver's own book-keeping. */
  datatype Disk = Disk(
    free: seq<bool>, desc: seq<Desc>,
    avail: seq<nat>, availIdx: nat,        // driver to device; the index counts modulo 65536
    used: seq<nat>, usedId: nat,           // device to driver; likewise
    usedIdx: nat,                          // how far the driver has looked, modulo NUM
    info: seq<Option<nat>>,                // buffer of the request at a head
    status: seq<nat>,
    busy: set<nat>)                        // buffers with b->disk set

  datatype Phase = Ready | Offered | Working | Finished | Handled

  /** A request in flight: its chain, its buffer and how far it has come. */
  datatype Req = Req(mid: nat, tail: nat, buf: nat, write: bool, sector: nat, phase: Phase)

  /** The disk, what the device keeps to itself (seen, working), and a record of the
      requests: by head, by descriptor, and in the order of the two rings. */
  datatype State = State(
    disk: Disk, seen: nat, working: set<nat>,
    req: map<nat, Req>, owner: map<nat, nat>, offered: seq<nat>, finished: seq<nat>, pending: Option<nat>)

  function Count(free: seq<bool>): nat {
    if free == [] then 0 else Count(free[..|free| - 1]) + (if free[|free| - 1] then 1 else 0)
  }

  lemma {:induction false} CountUpdate(free: seq<bool>, i: nat, v: bool)
    requires i < |free|
    ensures Count(free[i := v]) + (if free[i] then 1 else 0) == Count(free) + (if v then 1 else 0)
  {
    var n := |free| - 1;
    if i < n {
      CountUpdate(free[..n], i, v);
      assert free[i := v][..n] == free[..n][i := v];
    } else {
      assert free[i := v][..n] == free[..n];
    }
  }

  // ----- The invariant -----

  ghost predicate Sizes(d: Disk) {
    && |d.free| == 8 && |d.desc| == 8 && |d.avail| == 8 && |d.used| == 8 && |d.info| == 8 && |d.status| == 8
    && d.availIdx < 65536 && d.usedId < 65536 && d.usedIdx < 8
  }

  predicate InChain(h: nat, r: Req, i: nat) {
    i == h || i == r.mid || i == r.tail
  }

  /** The chain as the device reads it. */
  predicate ChainOk(d: Disk, h: nat, r: Req)
    requires |d.desc| == 8
  {
    && h < 8 && r.mid < 8 && r.tail < 8 && h != r.mid && h != r.tail && r.mid != r.tail
    && d.desc[h] == Desc(Header(r.write, r.sector), r.mid, true, false)
    && d.desc[r.mid] == Desc(Data(r.buf), r.tail, true, !r.write)
    && d.desc[r.tail].addr == Status(h) && !d.desc[r.tail].hasNext && d.desc[r.tail].deviceWrites
  }

  ghost predicate ReqOk(s: State, h: nat)
    requires Sizes(s.disk) && h in s.req
  {
    var d, r := s.disk, s.req[h];
    && ChainOk(d, h, r)
    && h in s.owner && s.owner[h] == h && r.mid in s.owner && s.owner[r.mid] == h
    && r.tail in s.owner && s.owner[r.tail] == h
    && d.info[h] == Some(r.buf) && d.status[h] == 0
    && (r.buf in d.busy <==> r.phase != Handled)
    && (r.phase == Working <==> h in s.working)
    && (r.phase == Ready <==> s.pending == Some(h))
    && (r.phase == Offered <==> h in s.offered)
    && (r.phase == Finished <==> h in s.finished)
  }

  ghost predicate DescOk(s: State, i: nat)
    requires Sizes(s.disk) && i < 8
  {
    && (s.disk.free[i] <==> i !in s.owner)
    && (i in s.owner ==> s.owner[i] in s.req && InChain(s.owner[i], s.req[s.owner[i]], i))
  }

  /** A ring holds a queue: element k at slot (from + k) mod 8. */
  ghost predicate RingHolds(ring: seq<nat>, from: nat, queue: seq<nat>) {
    |ring| == 8 && forall k :: 0 <= k < |queue| ==> ring[(from + k) % 8] == queue[k]
  }

  predicate Distinct(q: seq<nat>) {
    forall i, j :: 0 <= i < j < |q| ==> q[i] != q[j]
  }

  ghost predicate Queues(s: State) {
    && Sizes(s.disk) && s.seen < 65536
    && Distinct(s.offered) && Distinct(s.finished)
    && (forall h :: h in s.offered || h in s.finished || h in s.working || s.pending == Some(h) ==> h in s.req)
    && s.disk.availIdx == (s.seen + |s.offered|) % 65536
    && RingHolds(s.disk.avail, s.seen, s.offered)
    && s.disk.usedId % 8 == (s.disk.usedIdx + |s.finished|) % 8
    && RingHolds(s.disk.used, s.disk.usedIdx, s.finished)
    && (s.pending.Some? ==> s.disk.avail[s.disk.availIdx % 8] == s.pending.value)
  }

  ghost predicate Reqs(s: State) {
    Sizes(s.disk) && forall h :: h in s.req ==> ReqOk(s, h)
  }

  ghost predicate Descs(s: State) {
    Sizes(s.disk) && (forall i :: 0 <= i < 8 ==> DescOk(s, i)) && (forall i :: i in s.owner ==> i < 8)
  }

  ghost predicate Bufs(s: State) {
    forall h, g :: h in s.req && g in s.req && s.req[h].buf == s.req[g].buf ==> h == g
  }

  /** Free descriptors and those in chains are all there are. */
  ghost predicate Counted(s: State) {
    Count(s.disk.free) + 3 * |s.req| == 8
  }

  ghost predicate Inv(s: State) {
    Sizes(s.disk) && Reqs(s) && Descs(s) && Bufs(s) && Counted(s) && Queues(s)
  }

  // ----- What the invariant gives -----

  lemma {:induction false} SeqBound(q: seq<nat>, keys: set<nat>)
    requires Distinct(q) && forall k :: 0 <= k < |q| ==> q[k] in keys
    ensures |q| <= |keys|
    decreases |q|
  {
    if q != [] {
      var n := |q| - 1;
      SeqBound(q[..n], keys - {q[n]});
    }
  }

  /** At most two requests are in flight, so the rings never come near full. */
  lemma AtMostTwo(s: State)
    requires Inv(s)
    ensures |s.req| <= 2 && |s.offered| <= 2 && |s.finished| <= 2
  {
    forall k | 0 <= k < |s.offered|
      ensures s.offered[k] in s.req.Keys
    {
      assert s.offered[k] in s.offered;
    }
    forall k | 0 <= k < |s.finished|
      ensures s.finished[k] in s.req.Keys
    {
      assert s.finished[k] in s.finished;
    }
    SeqBound(s.offered, s.req.Keys);
    SeqBound(s.finished, s.req.Keys);
  }

  /** The interrupt handler's test tells an empty used ring from one with entries. */
  lemma IndexTestExact(s: State)
    requires Inv(s)
    ensures s.disk.usedIdx % 8 != s.disk.usedId % 8 <==> s.finished != []
  {
    AtMostTwo(s);
  }

  /** Chains of different requests share no descriptor. */
  lemma ChainsDisjoint(s: State, h: nat, g: nat, i: nat)
    requires Inv(s) && h in s.req && g in s.req && InChain(h, s.req[h], i) && InChain(g, s.req[g], i)
    ensures h == g
  {
    assert ReqOk(s, h) && ReqOk(s, g);
  }

  // ----- Steps -----

  /** The first part of virtio_disk_rw: take three descriptors, format them, note the
      buffer, and put the head in the available ring. */
  function PrepareDisk(d: Disk, a: nat, b: nat, c: nat, buf: nat, write: bool, sector: nat): Disk
    requires Sizes(d) && a < 8 && b < 8 && c < 8
  {
    d.(free := d.free[a := false][b := false][c := false],
       desc := d.desc[a := Desc(Header(write, sector), b, true, false)][b := Desc(Data(buf), c, true, !write)]
                     [c := Desc(Status(a), 0, false, true)],
       status := d.status[a := 0], busy := d.busy + {buf}, info := d.info[a := Some(buf)],
       avail := d.avail[d.availIdx % 8 := a])
  }

  function PublishDisk(d: Disk): Disk {
    d.(availIdx := (d.availIdx + 1) % 65536)
  }

  /** The device reports a chain done, with status 0. */
  function CompleteDisk(d: Disk, h: nat): Disk
    requires Sizes(d) && h < 8
  {
    d.(status := d.status[h := 0], used := d.used[d.usedId % 8 := h], usedId := (d.usedId + 1) % 65536)
  }

  /** One turn of virtio_disk_intr's loop. */
  function HandleDisk(d: Disk): Disk
    requires Sizes(d) && d.used[d.usedIdx] < 8 && d.info[d.used[d.usedIdx]].Some?
  {
    d.(busy := d.busy - {d.info[d.used[d.usedIdx]].value}, usedIdx := (d.usedIdx + 1) % 8)
  }

  function FreeDesc(d: Disk, i: nat): Disk
    requires Sizes(d) && i < 8
  {
    d.(desc := d.desc[i := d.desc[i].(addr := Nothing)], free := d.free[i := true])
  }

  /** The last part of virtio_disk_rw: forget the buffer and free the chain. */
  function FinishDisk(d: Disk, a: nat, b: nat, c: nat): Disk
    requires Sizes(d) && a < 8 && b < 8 && c < 8
  {
    FreeDesc(FreeDesc(FreeDesc(d.(info := d.info[a := None]), a), b), c)
  }

  datatype Step =
    | Prepare(a: nat, b: nat, c: nat, buf: nat, write: bool, sector: nat)
    | Publish
    | Fetch
    | Complete(h: nat)
    | Handle
    | Finish(h: nat)

  /** Guards: those of the driver, and for the device that it takes what is offered and
      reports only what it has taken.  The driver's steps exclude each other by the lock. */
  ghost predicate Enabled(s: State, st: Step) {
    && Inv(s)
    && match st
       case Prepare(a, b, c, buf, _, _) =>
         && s.pending == None && a < 8 && b < 8 && c < 8 && a != b && a != c && b != c
         && s.disk.free[a] && s.disk.free[b] && s.disk.free[c]
         && (forall h :: h in s.req ==> s.req[h].buf != buf)
       case Publish => s.pending.Some?
       case Fetch => s.seen != s.disk.availIdx
       case Complete(h) => h in s.working
       case Handle => s.pending == None && s.disk.usedIdx % 8 != s.disk.usedId % 8
       case Finish(h) => s.pending == None && h in s.req && s.req[h].buf !in s.disk.busy
  }

  function Moved(req: map<nat, Req>, h: nat, p: Phase): map<nat, Req>
    requires h in req
  {
    req[h := req[h].(phase := p)]
  }

  /** What the device fetches is the oldest request offered. */
  lemma FetchesOldest(s: State)
    requires Inv(s) && s.seen != s.disk.availIdx
    ensures s.offered != [] && s.disk.avail[s.seen % 8] == s.offered[0] && s.offered[0] in s.req
    ensures ReqOk(s, s.offered[0]) && s.req[s.offered[0]].phase == Offered
  {
    assert s.offered != [];
    assert s.disk.avail[(s.seen + 0) % 8] == s.offered[0];
    assert s.offered[0] in s.offered;
  }

  /** What the interrupt handler finds is the oldest completion; its status is 0 and its
      buffer is known, so neither panic nor null pointer. */
  lemma HandlesOldest(s: State)
    requires Inv(s) && s.disk.usedIdx % 8 != s.disk.usedId % 8
    ensures s.finished != [] && s.disk.used[s.disk.usedIdx] == s.finished[0]
    ensures s.finished[0] in s.req && s.finished[0] < 8
    ensures ReqOk(s, s.finished[0]) && s.req[s.finished[0]].phase == Finished
    ensures s.disk.status[s.finished[0]] == 0 && s.disk.info[s.finished[0]] == Some(s.req[s.finished[0]].buf)
  {
    IndexTestExact(s);
    assert s.disk.used[(s.disk.usedIdx + 0) % 8] == s.finished[0];
    assert s.finished[0] in s.finished;
    assert ReqOk(s, s.finished[0]);
  }

  function Prepared(s: State, a: nat, b: nat, c: nat, buf: nat, write: bool, sector: nat): State
    requires Sizes(s.disk) && a < 8 && b < 8 && c < 8
  {
    s.(disk := PrepareDisk(s.disk, a, b, c, buf, write, sector),
       req := s.req[a := Req(b, c, buf, write, sector, Ready)],
       owner := s.owner[a := a][b := a][c := a], pending := Some(a))
  }

  function Published(s: State): State
    requires s.pending.Some? && s.pending.value in s.req
  {
    s.(disk := PublishDisk(s.disk), req := Moved(s.req, s.pending.value, Offered),
       offered := s.offered + [s.pending.value], pending := None)
  }

  function Fetched(s: State): State
    requires s.offered != [] && s.offered[0] in s.req
  {
    s.(seen := (s.seen + 1) % 65536, working := s.working + {s.offered[0]},
       req := Moved(s.req, s.offered[0], Working), offered := s.offered[1..])
  }

  function Completed(s: State, h: nat): State
    requires Sizes(s.disk) && h < 8 && h in s.req
  {
    s.(disk := CompleteDisk(s.disk, h), working := s.working - {h},
       req := Moved(s.req, h, Finished), finished := s.finished + [h])
  }

  function HandledOne(s: State): State
    requires Sizes(s.disk) && s.finished != [] && s.finished[0] in s.req
    requires s.disk.used[s.disk.usedIdx] < 8 && s.disk.info[s.disk.used[s.disk.usedIdx]].Some?
  {
    s.(disk := HandleDisk(s.disk), req := Moved(s.req, s.finished[0], Handled), finished := s.finished[1..])
  }

  function FinishedOne(s: State, h: nat): State
    requires Sizes(s.disk) && h in s.req && h < 8 && s.req[h].mid < 8 && s.req[h].tail < 8
  {
    var r := s.req[h];
    s.(disk := FinishDisk(s.disk, h, r.mid, r.tail), req := s.req - {h}, owner := s.owner - {h, r.mid, r.tail})
  }

  // ----- Every step keeps the invariant -----

  lemma PrepareReq(s: State, a: nat, b: nat, c: nat, buf: nat, write: bool, sector: nat, h: nat)
    requires Sizes(s.disk) && a < 8 && b < 8 && c < 8 && h in s.req && ReqOk(s, h) && s.req[h].buf != buf
    requires a !in s.owner && b !in s.owner && c !in s.owner && s.pending == None
    ensures Sizes(Prepared(s, a, b, c, buf, write, sector).disk) && h in Prepared(s, a, b, c, buf, write, sector).req
    ensures ReqOk(Prepared(s, a, b, c, buf, write, sector), h)
  {
  }

  lemma PrepareNew(s: State, a: nat, b: nat, c: nat, buf: nat, write: bool, sector: nat)
    requires Sizes(s.disk) && a < 8 && b < 8 && c < 8 && a != b && a != c && b != c
    requires a !in s.offered && a !in s.finished && a !in s.working
    ensures Sizes(Prepared(s, a, b, c, buf, write, sector).disk)
    ensures ReqOk(Prepared(s, a, b, c, buf, write, sector), a)
  {
  }

  lemma PrepareDesc(s: State, a: nat, b: nat, c: nat, buf: nat, write: bool, sector: nat, i: nat)
    requires Sizes(s.disk) && a < 8 && b < 8 && c < 8 && i < 8 && DescOk(s, i) && a !in s.req
    requires a !in s.owner && b !in s.owner && c !in s.owner
    ensures Sizes(Prepared(s, a, b, c, buf, write, sector).disk)
    ensures DescOk(Prepared(s, a, b, c, buf, write, sector), i)
  {
  }

  /** The slot that is written next holds no request that the other side has yet to see. */
  lemma SlotFree(ring: seq<nat>, from: nat, q: seq<nat>, i: nat, x: nat)
    requires RingHolds(ring, from, q) && |q| <= 2 && i % 8 == (from + |q|) % 8
    ensures RingHolds(ring[i % 8 := x], from, q) && RingHolds(ring[i % 8 := x], from, q + [x])
  {
  }

  lemma PrepareReqs(s: State, a: nat, b: nat, c: nat, buf: nat, write: bool, sector: nat)
    requires Inv(s) && s.pending == None && a < 8 && b < 8 && c < 8 && a != b && a != c && b != c
    requires a !in s.owner && b !in s.owner && c !in s.owner
    requires forall h :: h in s.req ==> s.req[h].buf != buf
    ensures a !in s.req && Reqs(Prepared(s, a, b, c, buf, write, sector))
    ensures Bufs(Prepared(s, a, b, c, buf, write, sector))
  {
    hide ReqOk, Descs, Counted;
    var s' := Prepared(s, a, b, c, buf, write, sector);
    HeadOwned(s, a);
    forall h | h in s'.req
      ensures Sizes(s'.disk) && ReqOk(s', h)
    {
      if h == a {
        PrepareNew(s, a, b, c, buf, write, sector);
      } else {
        assert ReqOk(s, h);
        PrepareReq(s, a, b, c, buf, write, sector, h);
      }
    }
  }

  lemma HeadOwned(s: State, h: nat)
    requires Reqs(s)
    ensures h in s.req ==> h < 8 && h in s.owner && s.owner[h] == h
  {
    if h in s.req {
      assert ReqOk(s, h);
    }
  }

  lemma PrepareDescs(s: State, a: nat, b: nat, c: nat, buf: nat, write: bool, sector: nat)
    requires Descs(s) && a !in s.req && a < 8 && b < 8 && c < 8
    requires a !in s.owner && b !in s.owner && c !in s.owner
    ensures Descs(Prepared(s, a, b, c, buf, write, sector))
  {
    hide DescOk;
    var s' := Prepared(s, a, b, c, buf, write, sector);
    forall i | 0 <= i < 8
      ensures Sizes(s'.disk) && DescOk(s', i)
    {
      assert DescOk(s, i);
      PrepareDesc(s, a, b, c, buf, write, sector, i);
    }
  }

  lemma PrepareCount(s: State, a: nat, b: nat, c: nat, buf: nat, write: bool, sector: nat)
    requires Sizes(s.disk) && Counted(s) && a !in s.req && a < 8 && b < 8 && c < 8 && a != b && a != c && b != c
    requires s.disk.free[a] && s.disk.free[b] && s.disk.free[c]
    ensures Counted(Prepared(s, a, b, c, buf, write, sector))
  {
    hide Count;
    CountThree(s.disk.free, a, b, c);
    KeyAdded(s.req, a, Req(b, c, buf, write, sector, Ready));
  }

  lemma CountThree(free: seq<bool>, a: nat, b: nat, c: nat)
    requires a < |free| && b < |free| && c < |free| && a != b && a != c && b != c && free[a] && free[b] && free[c]
    ensures Count(free[a := false][b := false][c := false]) + 3 == Count(free)
  {
    hide Count;
    CountUpdate(free, a, false);
    CountUpdate(free[a := false], b, false);
    CountUpdate(free[a := false][b := false], c, false);
  }

  lemma KeyAdded(req: map<nat, Req>, h: nat, r: Req)
    requires h !in req
    ensures |req[h := r]| == |req| + 1
  {
    assert req[h := r].Keys == req.Keys + {h};
  }

  lemma PrepareQueues(s: State, a: nat, b: nat, c: nat, buf: nat, write: bool, sector: nat)
    requires Queues(s) && |s.offered| <= 2 && s.pending == None && a < 8 && b < 8 && c < 8
    ensures Queues(Prepared(s, a, b, c, buf, write, sector))
  {
    SlotFree(s.disk.avail, s.seen, s.offered, s.disk.availIdx, a);
  }

  lemma PrepareKeeps(s: State, a: nat, b: nat, c: nat, buf: nat, write: bool, sector: nat)
    requires Inv(s) && s.pending == None && a < 8 && b < 8 && c < 8 && a != b && a != c && b != c
    requires s.disk.free[a] && s.disk.free[b] && s.disk.free[c]
    requires forall h :: h in s.req ==> s.req[h].buf != buf
    ensures Inv(Prepared(s, a, b, c, buf, write, sector))
  {
    hide Reqs, Bufs, Counted, Queues;
    assert DescOk(s, a) && DescOk(s, b) && DescOk(s, c);
    AtMostTwo(s);
    PrepareReqs(s, a, b, c, buf, write, sector);
    PrepareDescs(s, a, b, c, buf, write, sector);
    PrepareCount(s, a, b, c, buf, write, sector);
    PrepareQueues(s, a, b, c, buf, write, sector);
  }

  lemma Mod8(n: nat)
    ensures n % 65536 % 8 == n % 8
  {
  }

  lemma DistinctMore(q: seq<nat>, x: nat)
    requires Distinct(q) && x !in q
    ensures Distinct(q + [x])
  {
  }

  lemma DistinctRest(q: seq<nat>)
    requires Distinct(q) && q != []
    ensures Distinct(q[1..]) && q[0] !in q[1..] && forall h :: h != q[0] ==> (h in q <==> h in q[1..])
  {
    forall h | h != q[0] && h in q
      ensures h in q[1..]
    {
      var k :| 0 <= k < |q| && q[k] == h;
      assert q[1..][k - 1] == h;
    }
  }

  lemma RingMore(ring: seq<nat>, from: nat, q: seq<nat>, x: nat)
    requires RingHolds(ring, from, q) && ring[(from + |q|) % 8] == x
    ensures RingHolds(ring, from, q + [x])
  {
  }

  lemma RingRest(ring: seq<nat>, from: nat, q: seq<nat>, next: nat)
    requires RingHolds(ring, from, q) && q != [] && next % 8 == (from + 1) % 8
    ensures RingHolds(ring, next, q[1..])
  {
    var rest := q[1..];
    forall k | 0 <= k < |rest|
      ensures ring[(next + k) % 8] == rest[k]
    {
      assert (next + k) % 8 == (from + (k + 1)) % 8;
    }
  }

  // A change of one request's phase, seen from that request and from the others.

  lemma PublishReq(s: State, h: nat)
    requires Sizes(s.disk) && s.pending.Some? && s.pending.value in s.req && h in s.req && ReqOk(s, h)
    ensures Sizes(Published(s).disk) && ReqOk(Published(s), h)
  {
  }

  lemma FetchReq(s: State, h: nat)
    requires Sizes(s.disk) && s.offered != [] && s.offered[0] in s.req && h in s.req && ReqOk(s, h)
    requires Distinct(s.offered)
    ensures ReqOk(Fetched(s), h)
  {
    DistinctRest(s.offered);
  }

  lemma CompleteReq(s: State, x: nat, h: nat)
    requires Sizes(s.disk) && x < 8 && x in s.req && x in s.working && h in s.req && ReqOk(s, h)
    ensures Sizes(Completed(s, x).disk) && ReqOk(Completed(s, x), h)
  {
  }

  lemma HandleReq(s: State, h: nat)
    requires Sizes(s.disk) && s.finished != [] && s.finished[0] in s.req && h in s.req && ReqOk(s, h)
    requires ReqOk(s, s.finished[0]) && s.disk.used[s.disk.usedIdx] == s.finished[0] && s.finished[0] < 8
    requires Distinct(s.finished) && (s.req[h].buf == s.req[s.finished[0]].buf ==> h == s.finished[0])
    ensures Sizes(HandledOne(s).disk) && ReqOk(HandledOne(s), h)
  {
    DistinctRest(s.finished);
  }

  lemma MovedDescs(s: State, s': State, x: nat, p: Phase)
    requires Descs(s) && Counted(s) && x in s.req && Sizes(s'.disk)
    requires s'.disk.free == s.disk.free && s'.owner == s.owner && s'.req == Moved(s.req, x, p)
    ensures Descs(s') && Counted(s')
  {
    forall i | 0 <= i < 8
      ensures DescOk(s', i)
    {
      assert DescOk(s, i);
    }
    assert s'.req.Keys == s.req.Keys;
  }

  lemma PublishKeeps(s: State)
    requires Inv(s) && s.pending.Some?
    ensures s.pending.value in s.req && Inv(Published(s))
  {
    hide ReqOk, Descs, Counted;
    var s', x := Published(s), s.pending.value;
    forall h | h in s'.req
      ensures ReqOk(s', h)
    {
      assert ReqOk(s, h);
      PublishReq(s, h);
    }
    MovedDescs(s, s', x, Offered);
    AtMostTwo(s);
    PublishQueues(s);
  }

  lemma PublishQueues(s: State)
    requires Queues(s) && s.pending.Some? && s.pending.value in s.req && ReqOk(s, s.pending.value)
    ensures Queues(Published(s))
  {
    var n := s.seen + |s.offered|;
    Mod8(n);
    RingMore(s.disk.avail, s.seen, s.offered, s.pending.value);
    DistinctMore(s.offered, s.pending.value);
    assert (n % 65536 + 1) % 65536 == (n + 1) % 65536;
  }

  lemma FetchKeeps(s: State)
    requires Inv(s) && s.offered != []
    ensures s.offered[0] in s.req && Inv(Fetched(s))
  {
    hide ReqOk, Descs, Counted;
    assert s.offered[0] in s.offered;
    var s', x := Fetched(s), s.offered[0];
    forall h | h in s'.req
      ensures ReqOk(s', h)
    {
      assert ReqOk(s, h);
      FetchReq(s, h);
    }
    MovedDescs(s, s', x, Working);
    FetchQueues(s);
  }

  lemma FetchQueues(s: State)
    requires Queues(s) && s.offered != [] && s.offered[0] in s.req
    ensures Queues(Fetched(s))
  {
    DistinctRest(s.offered);
    Mod8(s.seen + 1);
    RingRest(s.disk.avail, s.seen, s.offered, (s.seen + 1) % 65536);
  }

  lemma CompleteKeeps(s: State, x: nat)
    requires Inv(s) && x in s.working
    ensures x in s.req && x < 8 && Inv(Completed(s, x))
  {
    hide ReqOk, Descs, Counted;
    HeadOwned(s, x);
    var s' := Completed(s, x);
    forall h | h in s'.req
      ensures ReqOk(s', h)
    {
      assert ReqOk(s, h);
      CompleteReq(s, x, h);
    }
    MovedDescs(s, s', x, Finished);
    AtMostTwo(s);
    CompleteQueues(s, x);
  }

  lemma CompleteQueues(s: State, x: nat)
    requires Queues(s) && x in s.req && x in s.working && x < 8 && ReqOk(s, x) && |s.finished| <= 2
    ensures Queues(Completed(s, x))
  {
    hide RingHolds, Distinct;
    SlotFree(s.disk.used, s.disk.usedIdx, s.finished, s.disk.usedId, x);
    DistinctMore(s.finished, x);
    NextId(s.disk.usedId, s.disk.usedIdx, |s.finished|);
  }

  lemma NextId(id: nat, idx: nat, n: nat)
    requires id % 8 == (idx + n) % 8
    ensures (id + 1) % 65536 % 8 == (idx + (n + 1)) % 8
  {
    Mod8(id + 1);
    NextMod8(id);
    NextMod8(idx + n);
  }

  lemma NextMod8(a: nat)
    ensures (a + 1) % 8 == if a % 8 == 7 then 0 else a % 8 + 1
  {
    var q, r := a / 8, a % 8;
    assert a == q * 8 + r;
    if r == 7 {
      assert a + 1 == (q + 1) * 8;
    } else {
      assert a + 1 == q * 8 + (r + 1);
    }
  }

  lemma HandleKeeps(s: State)
    requires Inv(s) && s.disk.usedIdx % 8 != s.disk.usedId % 8
    ensures s.finished != [] && s.finished[0] in s.req && s.disk.used[s.disk.usedIdx] < 8
    ensures s.disk.info[s.disk.used[s.disk.usedIdx]].Some? && Inv(HandledOne(s))
  {
    hide ReqOk, Descs, Counted;
    HandlesOldest(s);
    var s', x := HandledOne(s), s.finished[0];
    forall h | h in s'.req
      ensures ReqOk(s', h)
    {
      assert ReqOk(s, h);
      HandleReq(s, h);
    }
    MovedDescs(s, s', x, Handled);
    HandleQueues(s);
  }

  lemma HandleQueues(s: State)
    requires Queues(s) && s.finished != [] && s.finished[0] in s.req
    requires s.disk.used[s.disk.usedIdx] < 8 && s.disk.info[s.disk.used[s.disk.usedIdx]].Some?
    ensures Queues(HandledOne(s))
  {
    DistinctRest(s.finished);
    RingRest(s.disk.used, s.disk.usedIdx, s.finished, (s.disk.usedIdx + 1) % 8);
  }

  lemma FinishReq(s: State, x: nat, h: nat)
    requires Sizes(s.disk) && x in s.req && ReqOk(s, x) && h in s.req && h != x && ReqOk(s, h)
    ensures Sizes(FinishedOne(s, x).disk) && ReqOk(FinishedOne(s, x), h)
  {
  }

  lemma FinishDesc(s: State, x: nat, i: nat)
    requires Sizes(s.disk) && x in s.req && ReqOk(s, x) && i < 8 && DescOk(s, i)
    requires i in s.owner ==> s.owner[i] in s.req && ReqOk(s, s.owner[i])
    ensures Sizes(FinishedOne(s, x).disk) && DescOk(FinishedOne(s, x), i)
  {
  }

  lemma FinishDescs(s: State, x: nat)
    requires Reqs(s) && Descs(s) && x in s.req && ReqOk(s, x) && ChainOk(s.disk, x, s.req[x])
    ensures Descs(FinishedOne(s, x))
  {
    hide DescOk, ReqOk;
    var s' := FinishedOne(s, x);
    forall i | 0 <= i < 8
      ensures Sizes(s'.disk) && DescOk(s', i)
    {
      assert DescOk(s, i);
      OwnerReq(s, i);
      FinishDesc(s, x, i);
    }
  }

  lemma OwnerReq(s: State, i: nat)
    requires Reqs(s) && i < 8 && DescOk(s, i)
    ensures i in s.owner ==> s.owner[i] in s.req && ReqOk(s, s.owner[i])
  {
  }

  lemma FinishCount(s: State, x: nat)
    requires Counted(s) && Sizes(s.disk) && x in s.req && ChainOk(s.disk, x, s.req[x])
    requires !s.disk.free[x] && !s.disk.free[s.req[x].mid] && !s.disk.free[s.req[x].tail]
    ensures Counted(FinishedOne(s, x))
  {
    var s', r := FinishedOne(s, x), s.req[x];
    CountUpdate(s.disk.free, x, true);
    CountUpdate(s.disk.free[x := true], r.mid, true);
    CountUpdate(s.disk.free[x := true][r.mid := true], r.tail, true);
    assert s.req.Keys == s'.req.Keys + {x};
  }

  lemma FinishQueues(s: State, x: nat)
    requires Queues(s) && x in s.req && ReqOk(s, x) && s.req[x].phase == Handled && s.pending == None
    ensures Queues(FinishedOne(s, x))
  {
  }

  /** The descriptors of a chain are distinct and not free, so freeing them in turn meets
      neither panic of free_desc. */
  lemma ChainTaken(s: State, x: nat)
    requires Reqs(s) && Descs(s) && x in s.req
    ensures ChainOk(s.disk, x, s.req[x])
    ensures !s.disk.free[x] && !s.disk.free[s.req[x].mid] && !s.disk.free[s.req[x].tail]
  {
    assert ReqOk(s, x);
    assert DescOk(s, x) && DescOk(s, s.req[x].mid) && DescOk(s, s.req[x].tail);
  }

  lemma FinishReqs(s: State, x: nat)
    requires Reqs(s) && Bufs(s) && x in s.req && ReqOk(s, x) && ChainOk(s.disk, x, s.req[x])
    ensures Reqs(FinishedOne(s, x)) && Bufs(FinishedOne(s, x))
  {
    hide ReqOk;
    var s' := FinishedOne(s, x);
    forall h | h in s'.req
      ensures Sizes(s'.disk) && ReqOk(s', h)
    {
      assert ReqOk(s, h);
      FinishReq(s, x, h);
    }
  }

  lemma FinishKeeps(s: State, x: nat)
    requires Inv(s) && s.pending == None && x in s.req && s.req[x].buf !in s.disk.busy
    ensures ChainOk(s.disk, x, s.req[x]) && Inv(FinishedOne(s, x))
  {
    hide Descs, Counted, Queues, Bufs;
    ChainTaken(s, x);
    assert ReqOk(s, x);
    FinishReqs(s, x);
    FinishDescs(s, x);
    FinishCount(s, x);
    FinishQueues(s, x);
  }

  // ----- Runs -----

  ghost function Next(s: State, st: Step): State
    requires Enabled(s, st)
  {
    match st
    case Prepare(a, b, c, buf, write, sector) => Prepared(s, a, b, c, buf, write, sector)
    case Publish => Published(s)
    case Fetch => FetchesOldest(s); Fetched(s)
    case Complete(h) => HeadOwned(s, h); Completed(s, h)
    case Handle => HandlesOldest(s); HandledOne(s)
    case Finish(h) => ChainTaken(s, h); FinishedOne(s, h)
  }

  lemma StepKeeps(s: State, st: Step)
    requires Enabled(s, st)
    ensures Inv(Next(s, st))
  {
    match st {
      case Prepare(a, b, c, buf, write, sector) => PrepareKeeps(s, a, b, c, buf, write, sector);
      case Publish => PublishKeeps(s);
      case Fetch => FetchesOldest(s); FetchKeeps(s);
      case Complete(h) => CompleteKeeps(s, h);
      case Handle => HandleKeeps(s);
      case Finish(h) => FinishKeeps(s, h);
    }
  }

  ghost predicate Reaches(s: State, steps: seq<Step>, t: State)
    decreases |steps|
  {
    if steps == [] then s == t
    else Enabled(s, steps[0]) && Reaches(Next(s, steps[0]), steps[1..], t)
  }

  lemma {:induction false} RunKeeps(s: State, steps: seq<Step>, t: State)
    requires Inv(s) && Reaches(s, steps, t)
    ensures Inv(t)
    decreases |steps|
  {
    if steps != [] {
      StepKeeps(s, steps[0]);
      RunKeeps(Next(s, steps[0]), steps[1..], t);
    }
  }

  /** The heads that the device reports in a run, and those that the interrupt handler
      finds in the used ring. */
  function Reported(steps: seq<Step>): seq<nat> {
    if steps == [] then []
    else (if steps[0].Complete? then [steps[0].h] else []) + Reported(steps[1..])
  }

  ghost function Found(s: State, steps: seq<Step>, t: State): seq<nat>
    requires Reaches(s, steps, t)
    decreases |steps|
  {
    if steps == [] then []
    else (if steps[0] == Handle then [s.disk.used[s.disk.usedIdx]] else []) + Found(Next(s, steps[0]), steps[1..], t)
  }

  /** In every run each completion is handled once, in order: what the handler found,
      followed by what still waits, is what waited at first followed by what was reported. */
  lemma {:induction false} EachHandledOnce(s: State, steps: seq<Step>, t: State)
    requires Inv(s) && Reaches(s, steps, t)
    ensures Found(s, steps, t) + t.finished == s.finished + Reported(steps)
    decreases |steps|
  {
    hide Inv, Enabled, Next;
    if steps != [] {
      var st := steps[0];
      var s1 := Next(s, st);
      StepKeeps(s, st);
      EachHandledOnce(s1, steps[1..], t);
      StepQueue(s, st);
      FoundStep(s, steps, t);
      var handled := if st == Handle then [s.finished[0]] else [];
      var completed := if st.Complete? then [st.h] else [];
      Shift(handled, Found(s1, steps[1..], t), t.finished, s1.finished, s.finished, completed, Reported(steps[1..]));
    }
  }

  /** Conservation over one step of the queue of completions. */
  lemma Shift(handled: seq<nat>, found: seq<nat>, left: seq<nat>, after: seq<nat>, before: seq<nat>,
              completed: seq<nat>, reported: seq<nat>)
    requires found + left == after + reported && before + completed == handled + after
    ensures (handled + found) + left == before + (completed + reported)
  {
    Associates(handled, found, left);
    Associates(handled, after, reported);
    Associates(before, completed, reported);
  }

  lemma FoundStep(s: State, steps: seq<Step>, t: State)
    requires Reaches(s, steps, t) && steps != []
    ensures steps[0] == Handle ==> s.finished != []
    ensures Found(s, steps, t)
         == (if steps[0] == Handle then [s.finished[0]] else []) + Found(Next(s, steps[0]), steps[1..], t)
  {
    hide Inv, Enabled, Next;
    if steps[0] == Handle {
      HandleFinds(s);
    }
  }

  lemma Associates(a: seq<nat>, b: seq<nat>, c: seq<nat>)
    ensures (a + b) + c == a + (b + c)
  {
  }

  lemma HandleFinds(s: State)
    requires Enabled(s, Handle)
    ensures Sizes(s.disk) && s.finished != [] && s.disk.used[s.disk.usedIdx] == s.finished[0]
  {
    HandlesOldest(s);
  }

  lemma StepQueue(s: State, st: Step)
    requires Enabled(s, st)
    ensures st == Handle ==> s.finished != []
    ensures s.finished + (if st.Complete? then [st.h] else [])
         == (if st == Handle then [s.finished[0]] else []) + Next(s, st).finished
  {
    hide Inv, Sizes, ReqOk;
    if st == Handle {
      HandlesOldest(s);
    }
  }

  /** The state after virtio_disk_init. */
  function Booted(desc: seq<Desc>): State
    requires |desc| == 8
  {
    var zeros: seq<nat> := [0, 0, 0, 0, 0, 0, 0, 0];
    State(Disk([true, true, true, true, true, true, true, true], desc, zeros, 0, zeros, 0, 0,
               [None, None, None, None, None, None, None, None], zeros, {}),
          0, {}, map[], map[], [], [], None)
  }

  lemma BootedInv(desc: seq<Desc>)
    requires |desc| == 8
    ensures Inv(Booted(desc))
  {
    var s := Booted(desc);
    var all := s.disk.free;
    assert all[..7] == [true, true, true, true, true, true, true];
    assert all[..7][..6] == [true, true, true, true, true, true];
    assert all[..7][..6][..5] == [true, true, true, true, true];
    CountEight();
  }

  lemma CountEight()
    ensures Count([true, true, true, true, true, true, true, true]) == 8
  {
    CountAll(8);
    assert seq(8, _ => true) == [true, true, true, true, true, true, true, true];
  }

  lemma {:induction false} CountAll(n: nat)
    ensures Count(seq(n, _ => true)) == n
  {
    if n > 0 {
      CountAll(n - 1);
      assert seq(n, _ => true)[..n - 1] == seq(n - 1, _ => true);
    }
  }
}
