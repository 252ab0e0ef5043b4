/** The log in memory, working through the buffer cache: log_write, write_log,
    write_head, install_trans, commit and recover_from_log of kernel/log.c. */
module Log {
  import opened Disk
  import opened BufferCache
  import W = LogWrites
  import P = LogProtocol
  import R = Readers

  // ----- What the cache holds while blocks are logged -----

  /** Buffer b is pinned for block `blockno` and holds data d. */
  predicate PinnedAt(s: Sys, l: W.Layout, blockno: nat, b: nat, d: Block)
    requires SysSized(s)
  {
    && b < |s.pins| && s.cache.key[b] == W.HomeKey(l, blockno) && s.cache.valid[b] && s.cache.data[b] == d
    && s.pins[b] > 0 && s.stray[b] == 0 && s.held[b] + s.pins[b] < UINT
  }

  ghost predicate PinnedAll(s: Sys, l: W.Layout, blocks: seq<nat>, pinned: seq<nat>, data: seq<Block>)
    requires SysSized(s)
  {
    && |pinned| == |blocks| && |data| == |blocks|
    && forall i :: 0 <= i < |blocks| ==> PinnedAt(s, l, blocks[i], pinned[i], data[i])
  }

  /** Buffer b, unless it holds a listed block, agrees with the disk. */
  predicate CoherentAt(s: Sys, image: Image, l: W.Layout, blocks: seq<nat>, b: nat)
    requires SysSized(s) && b < |s.pins|
  {
    s.cache.valid[b] && s.cache.key[b].dev == l.dev && s.cache.key[b].blockno !in blocks ==>
      s.cache.key[b] in image && s.cache.data[b] == image[s.cache.key[b]]
  }

  ghost predicate Coherent(s: Sys, image: Image, l: W.Layout, blocks: seq<nat>)
    requires SysSized(s)
  {
    forall b :: 0 <= b < |s.pins| ==> CoherentAt(s, image, l, blocks, b)
  }

  /** Listed blocks are pinned with their new data; every other cached block of the
      device is as on disk. */
  ghost predicate Good(s: Sys, image: Image, l: W.Layout, blocks: seq<nat>, pinned: seq<nat>, data: seq<Block>) {
    Counted(s) && PinnedAll(s, l, blocks, pinned, data) && Coherent(s, image, l, blocks)
  }

  /** Buffer b is pinned for block `blockno`; unless it has been changed since, it
      holds d. */
  predicate LoggedAt(s: Sys, l: W.Layout, blockno: nat, b: nat, d: Block, dirty: set<nat>)
    requires SysSized(s)
  {
    b < |s.pins| && PinnedAt(s, l, blockno, b, if b in dirty then s.cache.data[b] else d)
  }

  ghost predicate LoggedAll(s: Sys, l: W.Layout, blocks: seq<nat>, pinned: seq<nat>, data: seq<Block>, dirty: set<nat>)
    requires SysSized(s)
  {
    && |pinned| == |blocks| && |data| == |blocks|
    && forall i :: 0 <= i < |blocks| ==> LoggedAt(s, l, blocks[i], pinned[i], data[i], dirty)
  }

  /** Good, while operations hold buffers they have changed and not yet logged: those
      in `dirty`. */
  ghost predicate Sound(s: Sys, image: Image, l: W.Layout, blocks: seq<nat>, pinned: seq<nat>, data: seq<Block>,
                        dirty: set<nat>)
  {
    && Counted(s) && LoggedAll(s, l, blocks, pinned, data, dirty)
    && forall b :: 0 <= b < |s.pins| && b !in dirty ==> CoherentAt(s, image, l, blocks, b)
  }

  /** With no buffer dirty the two agree. */
  lemma SoundIsGood(s: Sys, image: Image, l: W.Layout, blocks: seq<nat>, pinned: seq<nat>, data: seq<Block>)
    ensures Sound(s, image, l, blocks, pinned, data, {}) <==> Good(s, image, l, blocks, pinned, data)
  {
    if Good(s, image, l, blocks, pinned, data) {
      forall i | 0 <= i < |blocks|
        ensures LoggedAt(s, l, blocks[i], pinned[i], data[i], {})
      {
        assert PinnedAt(s, l, blocks[i], pinned[i], data[i]);
      }
    }
    if Sound(s, image, l, blocks, pinned, data, {}) {
      forall i | 0 <= i < |blocks|
        ensures PinnedAt(s, l, blocks[i], pinned[i], data[i])
      {
        assert LoggedAt(s, l, blocks[i], pinned[i], data[i], {});
      }
    }
  }

  /** A buffer is pinned once if it is among the pinned ones, else not at all. */
  predicate PinnedOnceAt(pins: seq<nat>, pinned: seq<nat>, b: nat)
    requires b < |pins|
  {
    pins[b] == if b in pinned then 1 else 0
  }

  ghost predicate PinnedOnce(pins: seq<nat>, pinned: seq<nat>) {
    forall b :: 0 <= b < |pins| ==> PinnedOnceAt(pins, pinned, b)
  }

  /** An open transaction: what a commit will need holds but for the dirty buffers. */
  ghost predicate Open(s: Sys, image: Image, l: W.Layout, blocks: seq<nat>, pinned: seq<nat>, data: seq<Block>,
                       dirty: set<nat>)
  {
    && Sound(s, image, l, blocks, pinned, data, dirty)
    && W.Ready(l, image, blocks, data) && PinnedOnce(s.pins, pinned)
  }

  /** A step that a process outside any transaction may take. */
  predicate Reading(s: Sys, a: Step, image: Image) {
    && Enabled(s, a)
    && match a
       case Get(_, _, _) => true
       case Fill(b, _, d) => s.cache.key[b] in image && d == image[s.cache.key[b]]
       case Release(_, _) => true
       case _ => false
  }

  lemma ReadKeepsPinned(s: Sys, a: Step, image: Image, l: W.Layout, blocks: seq<nat>, pinned: seq<nat>,
                        data: seq<Block>)
    requires Counted(s) && PinnedAll(s, l, blocks, pinned, data) && Reading(s, a, image)
    ensures Counted(Apply(s, a)) && PinnedAll(Apply(s, a), l, blocks, pinned, data)
  {
    StepKeeps(s, a);
    var t := Apply(s, a);
    forall i | 0 <= i < |blocks|
      ensures PinnedAt(t, l, blocks[i], pinned[i], data[i])
    {
      assert PinnedAt(s, l, blocks[i], pinned[i], data[i]);
      PinnedStep(s, a, pinned[i]);
    }
  }

  lemma ReadKeepsCoherent(s: Sys, a: Step, image: Image, l: W.Layout, blocks: seq<nat>)
    requires Counted(s) && Coherent(s, image, l, blocks) && Reading(s, a, image)
    ensures Counted(Apply(s, a)) && Coherent(Apply(s, a), image, l, blocks)
  {
    StepKeeps(s, a);
    var t := Apply(s, a);
    forall b | 0 <= b < |t.pins|
      ensures CoherentAt(t, image, l, blocks, b)
    {
      assert CoherentAt(s, image, l, blocks, b);
    }
  }

  lemma ReadKeepsGood(s: Sys, a: Step, image: Image, l: W.Layout, blocks: seq<nat>, pinned: seq<nat>, data: seq<Block>)
    requires Good(s, image, l, blocks, pinned, data) && Reading(s, a, image)
    ensures Good(Apply(s, a), image, l, blocks, pinned, data)
    ensures Apply(s, a).stray == s.stray && Apply(s, a).pins == s.pins
  {
    ReadKeepsPinned(s, a, image, l, blocks, pinned, data);
    ReadKeepsCoherent(s, a, image, l, blocks);
  }

  /** The step of the cache in a reader's step. */
  lemma ReaderKeepsGood(s: Sys, r: R.Readers, a: R.Step, image: Image, l: W.Layout,
                        blocks: seq<nat>, pinned: seq<nat>, data: seq<Block>)
    requires Good(s, image, l, blocks, pinned, data) && R.Enabled(s, r, a, image)
    ensures Good(R.Cached(s, r, a, image), image, l, blocks, pinned, data)
    ensures R.Cached(s, r, a, image).stray == s.stray && R.Cached(s, r, a, image).pins == s.pins
  {
    hide Good;
    match a
    case Get(p, b, i, k) => ReadKeepsGood(s, Get(b, i, k), image, l, blocks, pinned, data);
    case Lock(p, b) =>
    case Fill(p, b, i) => ReadKeepsGood(s, Fill(b, i, image[s.cache.key[b]]), image, l, blocks, pinned, data);
    case Unlock(p, b) =>
    case Drop(p, b, i) => ReadKeepsGood(s, Release(b, i), image, l, blocks, pinned, data);
  }

  /** Whatever other processes read, evict and release in the meantime, the logged
      blocks stay pinned with their data. */
  lemma {:induction false} ReadRunKeepsGood(s: Sys, r: R.Readers, acts: seq<R.Step>, t: Sys, q: R.Readers, image: Image,
                                            l: W.Layout, blocks: seq<nat>, pinned: seq<nat>, data: seq<Block>)
    requires Good(s, image, l, blocks, pinned, data) && R.Tallied(s.held, r) && R.Run(s, r, acts, t, q, image)
    ensures Good(t, image, l, blocks, pinned, data) && t.stray == s.stray && t.pins == s.pins
    ensures R.Tallied(t.held, q) && |q.refs| == |r.refs|
    decreases |acts|
  {
    if acts != [] {
      ReaderKeepsGood(s, r, acts[0], image, l, blocks, pinned, data);
      R.StepTallied(s, r, acts[0], image);
      ReadRunKeepsGood(R.Cached(s, r, acts[0], image), R.Moved(s, r, acts[0], image), acts[1..], t, q, image, l,
                       blocks, pinned, data);
    }
  }

  /** Two valid buffers never hold one block. */
  lemma ValidUnique(s: Sys, a: nat, b: nat)
    requires Counted(s) && a < |s.pins| && b < |s.pins|
    requires s.cache.valid[a] && s.cache.valid[b] && s.cache.key[a] == s.cache.key[b]
    ensures a == b
  {
    var i := PositionOf(s.cache, a);
    var j := PositionOf(s.cache, b);
    assert FirstAt(s.cache, i) && FirstAt(s.cache, j);
  }

  /** memmove into a held buffer of an unlisted block, then bwrite. */
  lemma WriteThroughKeepsGood(s: Sys, image: Image, l: W.Layout, blocks: seq<nat>, pinned: seq<nat>, data: seq<Block>,
                              b: nat, i: nat, d: Block)
    requires Good(s, image, l, blocks, pinned, data) && Enabled(s, Modify(b, i, d)) && s.cache.valid[b]
    requires s.cache.key[b].dev == l.dev && s.cache.key[b].blockno !in blocks
    ensures Good(Apply(s, Modify(b, i, d)), image[s.cache.key[b] := d], l, blocks, pinned, data)
  {
    StepKeeps(s, Modify(b, i, d));
    var t, m := Apply(s, Modify(b, i, d)), image[s.cache.key[b] := d];
    forall c | 0 <= c < |t.pins|
      ensures CoherentAt(t, m, l, blocks, c)
    {
      assert CoherentAt(s, image, l, blocks, c);
      if c != b && s.cache.valid[c] && s.cache.key[c] == s.cache.key[b] {
        ValidUnique(s, b, c);
      }
    }
    forall j | 0 <= j < |blocks|
      ensures PinnedAt(t, l, blocks[j], pinned[j], data[j])
    {
      assert PinnedAt(s, l, blocks[j], pinned[j], data[j]);
      assert blocks[j] in blocks;
    }
  }

  /** The first listed block goes home and is unpinned: it counts as unlisted then,
      and agrees with the disk. */
  lemma InstallKeepsGood(s: Sys, image: Image, l: W.Layout, blocks: seq<nat>, pinned: seq<nat>, data: seq<Block>,
                         i: nat)
    requires Good(s, image, l, blocks, pinned, data) && P.NoRepeats(blocks) && blocks != []
    requires Enabled(s, Unpin(pinned[0], i))
    ensures Good(Apply(s, Unpin(pinned[0], i)), image[W.HomeKey(l, blocks[0]) := data[0]], l,
                 blocks[1..], pinned[1..], data[1..])
  {
    var b := pinned[0];
    assert PinnedAt(s, l, blocks[0], b, data[0]);
    StepKeeps(s, Unpin(b, i));
    var t, m := Apply(s, Unpin(b, i)), image[W.HomeKey(l, blocks[0]) := data[0]];
    forall c | 0 <= c < |t.pins|
      ensures CoherentAt(t, m, l, blocks[1..], c)
    {
      assert CoherentAt(s, image, l, blocks, c);
      if s.cache.valid[c] && s.cache.key[c] == s.cache.key[b] {
        ValidUnique(s, b, c);
      }
    }
    forall j | 0 <= j < |blocks[1..]|
      ensures PinnedAt(t, l, blocks[1..][j], pinned[1..][j], data[1..][j])
    {
      assert PinnedAt(s, l, blocks[j + 1], pinned[j + 1], data[j + 1]);
    }
  }

  function Tail<T>(s: seq<T>): seq<T> {
    if s == [] then [] else s[1..]
  }

  /** memmove, bwrite and bunpin of a home buffer, on the values. */
  lemma PutHomeKeepsGood(s: Sys, image: Image, l: W.Layout, rest: seq<nat>, pinned: seq<nat>, data: seq<Block>,
                         b: nat, i: nat, d: Block)
    requires Good(s, image, l, rest, pinned, data) && P.NoRepeats(rest)
    requires Enabled(s, Modify(b, i, d)) && s.cache.valid[b] && s.cache.key[b].dev == l.dev
    requires rest != [] ==> b == pinned[0] && d == data[0]
    requires rest == [] ==> s.pins[b] == 0
    ensures var t := Apply(s, Modify(b, i, d));
      var a := if rest != [] then Unpin(b, i) else StrayUnpin(b, i);
      Enabled(t, a) && Good(Apply(t, a), image[s.cache.key[b] := d], l, Tail(rest), Tail(pinned), Tail(data))
  {
    if rest != [] {
      assert PinnedAt(s, l, rest[0], b, d);
      assert s == Apply(s, Modify(b, i, d));
      InstallKeepsGood(s, image, l, rest, pinned, data, i);
    } else {
      WriteThroughKeepsGood(s, image, l, [], [], [], b, i, d);
      StrayKeepsGood(Apply(s, Modify(b, i, d)), image[s.cache.key[b] := d], l, b, i);
    }
  }

  // ----- The log of one device -----

  class FsLog {
    const lay: W.Layout
    const cache: BCache
    var outstanding: int
    var committing: bool
    var n: nat
    var block: seq<nat>

    /** The log of initlog before recovery, all in zeroed memory. */
    constructor (lay: W.Layout, cache: BCache)
      ensures this.lay == lay && this.cache == cache
      ensures n == 0 && |block| == W.LOGSIZE && View() == P.State(lay.size, 0, false, [])
    {
      this.lay := lay;
      this.cache := cache;
      outstanding, committing, n := 0, false, 0;
      block := seq(W.LOGSIZE, _ => 0);
    }

    ghost function View(): P.State
      requires n <= |block|
      reads this
    {
      P.State(lay.size, outstanding, committing, block[..n])
    }

    /** All is ready for commit, with r the other processes and what they hold. */
    ghost predicate Ok(blocks: seq<nat>, pinned: seq<nat>, data: seq<Block>, r: R.Readers)
      reads this, cache, cache.links, cache.disk
    {
      && cache.Valid() && (forall b :: 0 <= b < cache.n ==> cache.stray[b] == 0)
      && R.Tallied(cache.held, r) && |r.refs| + 5 < UINT
      && |pinned| == |blocks| && |data| == |blocks| && PinnedOnce(cache.pins, pinned)
      && Good(cache.View(), cache.disk.image, lay, blocks, pinned, data)
    }

    /** One block write has happened since the disk was as given. */
    ghost predicate Wrote(k: Key, d: Block, image: Image, history: seq<Write>)
      reads this, cache, cache.disk
    {
      cache.disk.image == image[k := d] && cache.disk.history == history + [Write(k, d)]
    }

    /** Every buffer is in use, so that bget panics. */
    ghost predicate Exhausted()
      reads this, cache
    {
      forall c :: 0 <= c < cache.n && c < |cache.refcnt| ==> cache.refcnt[c] > 0
    }

    /** Each buffer has one holder for a process at most, and one pin at most. */
    lemma HasRoom(blocks: seq<nat>, pinned: seq<nat>, data: seq<Block>, r: R.Readers)
      requires Ok(blocks, pinned, data, r)
      ensures cache.Room(4)
    {
      forall b | 0 <= b < cache.n
        ensures cache.held[b] + cache.pins[b] + 4 < UINT
      {
        assert R.TallyAt(cache.held, r, b) && PinnedOnceAt(cache.pins, pinned, b);
      }
    }

    /** Other processes run: outside a transaction they can only read. */
    method Others(ghost r: R.Readers) returns (ghost r': R.Readers)
      requires cache.Valid() && R.Tallied(cache.held, r)
      modifies cache, cache.links
      ensures cache.Valid()
      ensures exists acts :: R.Run(old(cache.View()), r, acts, cache.View(), r', cache.disk.image)
    {
      r' := r;
      assert R.Run(cache.View(), r, [], cache.View(), r', cache.disk.image);
    }

    method Interleave(ghost blocks: seq<nat>, ghost pinned: seq<nat>, ghost data: seq<Block>, ghost r: R.Readers)
      returns (ghost r': R.Readers)
      requires Ok(blocks, pinned, data, r)
      modifies cache, cache.links
      ensures Ok(blocks, pinned, data, r') && |r'.refs| == |r.refs|
      ensures cache.stray == old(cache.stray) && cache.pins == old(cache.pins)
    {
      ghost var s := cache.View();
      r' := Others(r);
      ghost var acts :| R.Run(s, r, acts, cache.View(), r', cache.disk.image);
      ReadRunKeepsGood(s, r, acts, cache.View(), r', cache.disk.image, lay, blocks, pinned, data);
    }

    /** bread, seen by the log: an unlisted block comes as on disk, a listed one as
        pinned. */
    method Read(k: Key, ghost blocks: seq<nat>, ghost pinned: seq<nat>, ghost data: seq<Block>)
      returns (ok: bool, b: nat, ghost i: nat)
      requires cache.Valid() && cache.Room(1) && k.dev == lay.dev && k in cache.disk.image
      requires Good(cache.View(), cache.disk.image, lay, blocks, pinned, data)
      modifies cache
      ensures !ok ==> Exhausted()
      ensures cache.Valid() && unchanged(cache.links)
      ensures ok ==> Good(cache.View(), cache.disk.image, lay, blocks, pinned, data)
      ensures ok ==> Enabled(old(cache.View()), Get(b, i, k))
      ensures ok ==> b < cache.n && i < cache.n && cache.order[i] == b && cache.key[b] == k && cache.valid[b]
      ensures ok ==> cache.held == old(cache.held)[b := old(cache.held[b]) + 1]
      ensures cache.stray == old(cache.stray) && cache.pins == old(cache.pins)
      ensures ok && k.blockno !in blocks ==> cache.data[b] == cache.disk.image[k]
      ensures ok ==> forall j :: 0 <= j < |blocks| && blocks[j] == k.blockno ==>
        b == pinned[j] && cache.data[b] == data[j]
      ensures ok ==> old(cache.key[b]) == k || old(cache.refcnt[b]) == 0
      ensures ok ==> forall c :: 0 <= c < cache.n && c != b ==>
        && cache.key[c] == old(cache.key[c]) && cache.data[c] == old(cache.data[c])
        && cache.valid[c] == old(cache.valid[c])
      ensures cache.order == old(cache.order)
    {
      ghost var s := cache.View();
      ok, b, i := cache.Bread(k);
      if ok {
        ghost var s1 := Apply(s, Get(b, i, k));
        ReadKeepsGood(s, Get(b, i, k), cache.disk.image, lay, blocks, pinned, data);
        ReadKeepsGood(s1, Fill(b, i, cache.disk.image[k]), cache.disk.image, lay, blocks, pinned, data);
        assert CoherentAt(cache.View(), cache.disk.image, lay, blocks, b);
        forall j | 0 <= j < |blocks| && blocks[j] == k.blockno
          ensures b == pinned[j] && cache.data[b] == data[j]
        {
          assert PinnedAt(cache.View(), lay, blocks[j], pinned[j], data[j]);
          ValidUnique(cache.View(), b, pinned[j]);
        }
      }
    }

    /** memmove into a held, unlisted buffer, then bwrite. */
    method WriteThrough(b: nat, ghost i: nat, d: Block,
                        ghost blocks: seq<nat>, ghost pinned: seq<nat>, ghost data: seq<Block>)
      requires cache.Valid() && Good(cache.View(), cache.disk.image, lay, blocks, pinned, data)
      requires Enabled(cache.View(), Modify(b, i, d)) && cache.valid[b]
      requires cache.key[b].dev == lay.dev && cache.key[b].blockno !in blocks
      modifies cache`data, cache.disk
      ensures cache.Valid() && cache.View() == Apply(old(cache.View()), Modify(b, i, d))
      ensures Good(cache.View(), cache.disk.image, lay, blocks, pinned, data)
      ensures cache.disk.image == old(cache.disk.image)[cache.key[b] := d]
      ensures cache.disk.history == old(cache.disk.history) + [Write(cache.key[b], d)]
    {
      WriteThroughKeepsGood(cache.View(), cache.disk.image, lay, blocks, pinned, data, b, i, d);
      cache.Store(b, i, d);
      cache.Bwrite(b);
    }

    method Drop(b: nat, ghost blocks: seq<nat>, ghost pinned: seq<nat>, ghost data: seq<Block>)
      requires cache.Valid() && b < cache.n && cache.held[b] > 0
      requires Good(cache.View(), cache.disk.image, lay, blocks, pinned, data)
      modifies cache, cache.links
      ensures cache.Valid() && Good(cache.View(), cache.disk.image, lay, blocks, pinned, data)
      ensures cache.held == old(cache.held)[b := old(cache.held[b]) - 1] && cache.key == old(cache.key)
      ensures cache.stray == old(cache.stray) && cache.pins == old(cache.pins)
    {
      ghost var i := PositionOf(cache.View().cache, b);
      ReadKeepsGood(cache.View(), Release(b, i), cache.disk.image, lay, blocks, pinned, data);
      cache.Brelse(b, i);
    }

    /** No buffer's count is off, except buffers left behind by recovery, which hold
        neither of the two blocks and can not be recycled. */
    ghost predicate StraysAside(k1: Key, k2: Key)
      reads cache
    {
      && |cache.stray| == cache.n && |cache.held| == cache.n && |cache.pins| == cache.n && |cache.key| == cache.n
      && forall b :: 0 <= b < cache.n ==> AsideAt(cache.View(), b, k1, k2)
    }

    /** The two breads that start each turn of write_log and install_trans: a block
        of the log and a home block. */
    method ReadPair(slot: Key, home: Key, ghost blocks: seq<nat>, ghost pinned: seq<nat>, ghost data: seq<Block>)
      returns (ok: bool, lbuf: nat, dbuf: nat, ghost li: nat, ghost di: nat)
      requires cache.Valid() && cache.Room(2) && Good(cache.View(), cache.disk.image, lay, blocks, pinned, data)
      requires slot.dev == lay.dev && home.dev == lay.dev && slot != home && slot.blockno !in blocks
      requires slot in cache.disk.image && home in cache.disk.image && StraysAside(slot, home)
      modifies cache
      ensures !ok ==> Exhausted()
      ensures cache.Valid() && unchanged(cache.links)
      ensures cache.stray == old(cache.stray) && cache.pins == old(cache.pins)
      ensures ok ==> Good(cache.View(), cache.disk.image, lay, blocks, pinned, data)
      ensures ok ==> li < cache.n && cache.order[li] == lbuf && di < cache.n && cache.order[di] == dbuf
      ensures ok ==> lbuf < cache.n && cache.key[lbuf] == slot && cache.valid[lbuf] && cache.stray[lbuf] == 0
      ensures ok ==> dbuf < cache.n && cache.key[dbuf] == home && cache.valid[dbuf] && cache.stray[dbuf] == 0
      ensures ok ==> cache.data[lbuf] == cache.disk.image[slot] && lbuf != dbuf
      ensures ok ==> forall j :: 0 <= j < |blocks| && blocks[j] == home.blockno ==>
        dbuf == pinned[j] && cache.data[dbuf] == data[j]
      ensures ok ==> cache.held == old(cache.held)[lbuf := old(cache.held[lbuf]) + 1][dbuf := old(cache.held[dbuf]) + 1]
      ensures ok ==> forall c :: 0 <= c < cache.n && c != lbuf && c != dbuf ==> cache.key[c] == old(cache.key[c])
    {
      ghost var s0 := cache.View();
      ok, lbuf, li := Read(slot, blocks, pinned, data);
      dbuf, di := 0, 0;
      if !ok { return; }
      ClaimedNotStray(s0, lbuf, li, slot, slot, home);
      RefcntIs(cache.View(), lbuf);
      ghost var s1 := cache.View();
      ok, dbuf, di := Read(home, blocks, pinned, data);
      if !ok { return; }
      assert AsideAt(s0, dbuf, slot, home);
      ClaimedNotStray(s1, dbuf, di, home, slot, home);
    }

    /** The two brelses that end a turn. */
    method DropPair(a: nat, b: nat, ghost blocks: seq<nat>, ghost pinned: seq<nat>, ghost data: seq<Block>)
      requires cache.Valid() && a < cache.n && b < cache.n && a != b && cache.held[a] > 0 && cache.held[b] > 0
      requires Good(cache.View(), cache.disk.image, lay, blocks, pinned, data)
      modifies cache, cache.links
      ensures cache.Valid() && Good(cache.View(), cache.disk.image, lay, blocks, pinned, data)
      ensures cache.held == old(cache.held)[a := old(cache.held[a]) - 1][b := old(cache.held[b]) - 1]
      ensures cache.key == old(cache.key)
      ensures cache.stray == old(cache.stray) && cache.pins == old(cache.pins)
    {
      Drop(a, blocks, pinned, data);
      Drop(b, blocks, pinned, data);
    }

    /** One turn of the loop in write_log. */
    method CopyToSlot(tail: nat, ghost blocks: seq<nat>, ghost pinned: seq<nat>, ghost data: seq<Block>,
                      ghost r: R.Readers)
      returns (ok: bool, ghost r': R.Readers)
      requires Ok(blocks, pinned, data, r) && W.SlotKey(lay, tail).blockno !in blocks
      requires tail < |blocks| && tail < |block| && block[tail] == blocks[tail]
      requires W.SlotKey(lay, tail) in cache.disk.image && W.HomeKey(lay, blocks[tail]) in cache.disk.image
      modifies cache, cache.links, cache.disk
      ensures !ok ==> Exhausted()
      ensures ok ==> Ok(blocks, pinned, data, r') && |r'.refs| == |r.refs|
      ensures ok ==> Wrote(W.SlotKey(lay, tail), data[tail], old(cache.disk.image), old(cache.disk.history))
      ensures !ok ==> unchanged(cache.disk)
      ensures cache.stray == old(cache.stray) && cache.pins == old(cache.pins)
    {
      r' := Interleave(blocks, pinned, data, r);
      HasRoom(blocks, pinned, data, r');
      ghost var held := cache.held;
      var slot, home := W.SlotKey(lay, tail), W.HomeKey(lay, block[tail]);
      var to, from;
      ghost var ti, fi;
      ok, to, from, ti, fi := ReadPair(slot, home, blocks, pinned, data);
      if !ok { return; }
      WriteThrough(to, ti, cache.data[from], blocks, pinned, data);
      DropPair(from, to, blocks, pinned, data);
      assert cache.held == held;
    }

    /** memmove, bwrite and bunpin of install_trans, with both buffers held. */
    method PutHome(lbuf: nat, dbuf: nat, ghost di: nat, ghost commit: bool,
                   ghost rest: seq<nat>, ghost pinned: seq<nat>, ghost data: seq<Block>)
      requires cache.Valid() && Good(cache.View(), cache.disk.image, lay, rest, pinned, data)
      requires lbuf < cache.n && dbuf < cache.n && lbuf != dbuf && di < cache.n && cache.order[di] == dbuf
      requires cache.valid[dbuf] && cache.held[dbuf] > 0 && cache.held[lbuf] > 0 && cache.key[dbuf].dev == lay.dev
      requires P.NoRepeats(rest)
      requires if commit then rest != [] && cache.key[dbuf] == W.HomeKey(lay, rest[0]) && dbuf == pinned[0]
                              && data[0] == cache.data[lbuf] && cache.data[dbuf] == data[0]
               else rest == [] && cache.pins[dbuf] == 0
      modifies cache`data, cache`refcnt, cache`pins, cache`stray, cache.disk
      ensures cache.Valid()
      ensures Good(cache.View(), cache.disk.image, lay, Tail(rest), Tail(pinned), Tail(data))
      ensures commit ==> cache.stray == old(cache.stray)
      ensures commit ==> cache.pins == old(cache.pins)[dbuf := old(cache.pins[dbuf]) - 1]
      ensures !commit ==> cache.pins == old(cache.pins)
      ensures !commit ==> cache.stray == old(cache.stray)[dbuf := old(cache.stray[dbuf]) + 1]
      ensures Wrote(cache.key[dbuf], old(cache.data[lbuf]), old(cache.disk.image), old(cache.disk.history))
    {
      var d := cache.data[lbuf];
      PutHomeKeepsGood(cache.View(), cache.disk.image, lay, rest, pinned, data, dbuf, di, d);
      cache.Store(dbuf, di, d);
      cache.Bwrite(dbuf);
      cache.Bunpin(dbuf, di);
    }

    /** A turn of install_trans from its memmove on. */
    method InstallHeld(lbuf: nat, dbuf: nat, ghost di: nat, ghost commit: bool,
                       ghost rest: seq<nat>, ghost pinned: seq<nat>, ghost data: seq<Block>)
      requires cache.Valid() && Good(cache.View(), cache.disk.image, lay, rest, pinned, data)
      requires lbuf < cache.n && dbuf < cache.n && lbuf != dbuf && di < cache.n && cache.order[di] == dbuf
      requires cache.valid[dbuf] && cache.held[dbuf] > 0 && cache.held[lbuf] > 0 && cache.key[dbuf].dev == lay.dev
      requires P.NoRepeats(rest)
      requires if commit then rest != [] && cache.key[dbuf] == W.HomeKey(lay, rest[0]) && dbuf == pinned[0]
                              && data[0] == cache.data[lbuf] && cache.data[dbuf] == data[0]
               else rest == [] && cache.pins[dbuf] == 0
      modifies cache, cache.links, cache.disk
      ensures cache.Valid() && Good(cache.View(), cache.disk.image, lay, Tail(rest), Tail(pinned), Tail(data))
      ensures cache.held == old(cache.held)[lbuf := old(cache.held[lbuf]) - 1][dbuf := old(cache.held[dbuf]) - 1]
      ensures cache.key == old(cache.key)
      ensures cache.pins == if commit then old(cache.pins)[dbuf := old(cache.pins[dbuf]) - 1] else old(cache.pins)
      ensures cache.stray == if commit then old(cache.stray) else old(cache.stray)[dbuf := old(cache.stray[dbuf]) + 1]
      ensures Wrote(cache.key[dbuf], old(cache.data[lbuf]), old(cache.disk.image), old(cache.disk.history))
    {
      PutHome(lbuf, dbuf, di, commit, rest, pinned, data);
      DropPair(lbuf, dbuf, Tail(rest), Tail(pinned), Tail(data));
    }

    /** One turn of the loop in install_trans.  In a commit the first remaining block
        goes home and loses its pin; in recovery nothing is pinned, and the unpin is
        a stray one. */
    method InstallOne(tail: nat, ghost commit: bool, ghost rest: seq<nat>, ghost pinned: seq<nat>,
                      ghost data: seq<Block>)
      returns (ok: bool, ghost slot: nat, ghost home: nat)
      requires cache.Valid() && cache.Room(4) && Good(cache.View(), cache.disk.image, lay, rest, pinned, data)
      requires tail < |block| && W.SlotKey(lay, tail) in cache.disk.image
      requires W.HomeKey(lay, block[tail]) in cache.disk.image && !W.InLog(lay, W.HomeKey(lay, block[tail]))
      requires P.NoRepeats(rest) && W.SlotKey(lay, tail).blockno !in rest && tail + 1 < lay.size
      requires StraysAside(W.SlotKey(lay, tail), W.HomeKey(lay, block[tail]))
      requires if commit then rest != [] && rest[0] == block[tail] && data[0] == cache.disk.image[W.SlotKey(lay, tail)]
               else rest == [] && forall b :: 0 <= b < cache.n ==> cache.pins[b] == 0
      modifies cache, cache.links, cache.disk
      ensures !ok ==> Exhausted()
      ensures ok ==> cache.Valid() && cache.Room(4)
      ensures ok ==> Good(cache.View(), cache.disk.image, lay, Tail(rest), Tail(pinned), Tail(data))
      ensures ok && commit ==> cache.stray == old(cache.stray)
      ensures ok && commit ==> cache.pins == old(cache.pins)[pinned[0] := old(cache.pins[pinned[0]]) - 1]
      ensures ok && !commit ==> cache.pins == old(cache.pins)
      ensures ok ==> cache.held == old(cache.held)
      ensures ok && !commit ==> home < cache.n && cache.stray == old(cache.stray)[home := 1]
      ensures ok ==> home < cache.n && cache.key[home] == W.HomeKey(lay, block[tail])
      ensures ok ==> slot < cache.n && old(cache.stray[slot]) == 0 && slot != home && old(cache.stray[home]) == 0
      ensures ok ==> forall c :: 0 <= c < cache.n && c != slot && c != home ==> cache.key[c] == old(cache.key[c])
      ensures ok ==> Wrote(W.HomeKey(lay, block[tail]), old(cache.disk.image)[W.SlotKey(lay, tail)],
                           old(cache.disk.image), old(cache.disk.history))
      ensures !ok ==> unchanged(cache.disk)
    {
      var from, to := W.SlotKey(lay, tail), W.HomeKey(lay, block[tail]);
      slot, home := 0, 0;
      var lbuf, dbuf;
      ghost var li, di;
      ok, lbuf, dbuf, li, di := ReadPair(from, to, rest, pinned, data);
      if !ok { return; }
      InstallHeld(lbuf, dbuf, di, commit, rest, pinned, data);
      assert cache.held == old(cache.held);
      slot, home := lbuf, dbuf;
    }

    /** write_log, stopped by a panic after m writes if not ok. */
    method WriteLog(ghost blocks: seq<nat>, ghost pinned: seq<nat>, ghost data: seq<Block>, ghost r: R.Readers)
      returns (ok: bool, ghost m: nat, ghost r': R.Readers)
      requires Ok(blocks, pinned, data, r) && W.Loggable(lay, blocks)
      requires n == |blocks| && n <= |block| && block[..n] == blocks && OnDisk(blocks, cache.disk.image)
      modifies cache, cache.links, cache.disk
      ensures !ok ==> Exhausted()
      ensures ok ==> Ok(blocks, pinned, data, r') && |r'.refs| == |r.refs| && m == |blocks|
      ensures m <= |blocks| && |data| == |blocks|
      ensures Issued(W.SlotWrites(lay, data)[..m], old(cache.disk.image), old(cache.disk.history))
      ensures cache.stray == old(cache.stray) && cache.pins == old(cache.pins)
    {
      hide Good, PinnedOnce, R.Tallied, After, W.SlotWrites, W.Loggable;
      m, r' := 0, r;
      var tail := 0;
      SlotWriteCount(lay, data);
      NoWrites(cache.disk.image, W.SlotWrites(lay, data));
      LoggableBounds(lay, blocks);
      LogBlocksUnlisted(lay, blocks);
      while tail < n
        invariant 0 <= tail <= n && m == tail
        invariant Ok(blocks, pinned, data, r') && |r'.refs| == |r.refs| && OnDisk(blocks, cache.disk.image)
        invariant Issued(W.SlotWrites(lay, data)[..tail], old(cache.disk.image), old(cache.disk.history))
        invariant cache.stray == old(cache.stray) && cache.pins == old(cache.pins)
      {
        assert block[..n][tail] == block[tail];
        ghost var image := cache.disk.image;
        ok, r' := CopyToSlot(tail, blocks, pinned, data, r');
        if !ok { return; }
        SlotWriteAt(lay, data, tail);
        NextWrite(W.SlotWrites(lay, data), tail, old(cache.disk.image), image);
        tail, m := tail + 1, m + 1;
      }
      ok := true;
    }

    /** The log area and the home blocks exist on the disk. */
    ghost predicate OnDisk(blocks: seq<nat>, image: Image)
      reads this
    {
      && W.HeadKey(lay) in image && (forall i :: 0 <= i < lay.size - 1 ==> W.SlotKey(lay, i) in image)
      && forall i :: 0 <= i < |blocks| ==> W.HomeKey(lay, blocks[i]) in image
    }

    /** Exactly these writes have been issued since the disk was as given. */
    ghost predicate Issued(writes: seq<Write>, image: Image, history: seq<Write>)
      reads this, cache, cache.disk
    {
      cache.disk.image == After(image, writes) && cache.disk.history == history + writes
    }

    /** write_head */
    method WriteHead(ghost blocks: seq<nat>, ghost pinned: seq<nat>, ghost data: seq<Block>) returns (ok: bool)
      requires cache.Valid() && cache.Room(4) && Good(cache.View(), cache.disk.image, lay, blocks, pinned, data)
      requires n <= |block| == W.LOGSIZE && W.HeadKey(lay) in cache.disk.image && lay.start !in blocks
      modifies cache, cache.links, cache.disk
      ensures !ok ==> Exhausted()
      ensures ok ==> cache.Valid() && cache.Room(4)
      ensures ok ==> Good(cache.View(), cache.disk.image, lay, blocks, pinned, data)
      ensures ok ==> Issued(W.HeadWrite(lay, old(cache.disk.image)[W.HeadKey(lay)], block[..n]),
                            old(cache.disk.image), old(cache.disk.history))
      ensures !ok ==> unchanged(cache.disk)
      ensures cache.stray == old(cache.stray) && cache.pins == old(cache.pins)
      ensures ok ==> cache.held == old(cache.held)
      ensures ok ==> forall c :: 0 <= c < cache.n && old(cache.refcnt[c]) > 0 ==> cache.key[c] == old(cache.key[c])
    {
      var key := W.HeadKey(lay);
      var buf;
      ghost var i;
      ok, buf, i := Read(key, blocks, pinned, data);
      if !ok { return; }
      var head := StampHead(cache.data[buf]);
      WriteThrough(buf, i, head, blocks, pinned, data);
      Drop(buf, blocks, pinned, data);
      assert cache.held == old(cache.held);
      OneWrite(old(cache.disk.image), key, head);
    }

    /** The loop of write_head over the header's words. */
    method StampHead(old_: Block) returns (head: Block)
      requires n <= |block| == W.LOGSIZE
      ensures head == W.Stamped(old_, block[..n])
    {
      var words: seq<nat> := old_[0 := n];
      var i := 0;
      while i < n
        invariant 0 <= i <= n && |words| == WORDS
        invariant words == [n] + block[..i] + old_[1 + i..]
      {
        words := words[1 + i := block[i]];
        i := i + 1;
      }
      head := words;
    }

    /** A turn of install_trans in a commit, after other processes have run. */
    method InstallNext(tail: nat, ghost rest: seq<nat>, ghost pinned: seq<nat>, ghost data: seq<Block>,
                       ghost r: R.Readers)
      returns (ok: bool, ghost r': R.Readers)
      requires Ok(rest, pinned, data, r) && rest != [] && tail < |block| && rest[0] == block[tail]
      requires P.NoRepeats(rest) && W.SlotKey(lay, tail).blockno !in rest && tail + 1 < lay.size
      requires W.SlotKey(lay, tail) in cache.disk.image && data[0] == cache.disk.image[W.SlotKey(lay, tail)]
      requires W.HomeKey(lay, block[tail]) in cache.disk.image && !W.InLog(lay, W.HomeKey(lay, block[tail]))
      modifies cache, cache.links, cache.disk
      ensures !ok ==> Exhausted()
      ensures ok ==> |pinned| > 0 && |data| > 0 && Ok(rest[1..], pinned[1..], data[1..], r') && |r'.refs| == |r.refs|
      ensures ok ==> Wrote(W.HomeKey(lay, rest[0]), data[0], old(cache.disk.image), old(cache.disk.history))
      ensures !ok ==> unchanged(cache.disk)
      ensures ok ==> cache.stray == old(cache.stray)
    {
      hide Good, R.Tallied, PinnedOnce;
      r' := Interleave(rest, pinned, data, r);
      HasRoom(rest, pinned, data, r');
      UnpinsFirst(cache.View(), cache.disk.image, lay, rest, pinned, data);
      ghost var slot, home;
      ok, slot, home := InstallOne(tail, true, rest, pinned, data);
    }

    /** install_trans in a commit: every listed block goes home and loses its pin. */
    method InstallTrans(ghost blocks: seq<nat>, ghost pinned: seq<nat>, ghost data: seq<Block>, ghost r: R.Readers)
      returns (ok: bool, ghost m: nat, ghost r': R.Readers)
      requires Ok(blocks, pinned, data, r) && W.Loggable(lay, blocks)
      requires n == |blocks| && n <= |block| && block[..n] == blocks && OnDisk(blocks, cache.disk.image)
      requires forall i :: 0 <= i < n ==> cache.disk.image[W.SlotKey(lay, i)] == data[i]
      modifies cache, cache.links, cache.disk
      ensures !ok ==> Exhausted()
      ensures m <= |blocks| == |data| && (ok ==> m == |blocks| && Ok([], [], [], r') && |r'.refs| == |r.refs|)
      ensures Issued(W.HomeWrites(lay, blocks, data)[..m], old(cache.disk.image), old(cache.disk.history))
      ensures ok ==> cache.stray == old(cache.stray)
    {
      hide Good, PinnedOnce, R.Tallied, After, W.HomeWrites, W.Loggable;
      m, r' := 0, r;
      var tail := 0;
      HomeWriteCount(lay, blocks, data);
      NoWrites(cache.disk.image, W.HomeWrites(lay, blocks, data));
      LoggableBounds(lay, blocks);
      assert blocks[0..] == blocks && pinned[0..] == pinned && data[0..] == data;
      while tail < n
        invariant 0 <= tail <= n && m == tail
        invariant Ok(blocks[tail..], pinned[tail..], data[tail..], r') && |r'.refs| == |r.refs|
        invariant OnDisk(blocks, cache.disk.image)
        invariant forall i :: tail <= i < n ==> cache.disk.image[W.SlotKey(lay, i)] == data[i]
        invariant Issued(W.HomeWrites(lay, blocks, data)[..tail], old(cache.disk.image), old(cache.disk.history))
        invariant cache.stray == old(cache.stray)
      {
        assert block[..n][tail] == block[tail];
        ghost var image := cache.disk.image;
        RestOf(lay, blocks, tail);
        ok, r' := InstallNext(tail, blocks[tail..], pinned[tail..], data[tail..], r');
        if !ok { return; }
        HomeWriteAt(lay, blocks, data, tail);
        NextWrite(W.HomeWrites(lay, blocks, data), tail, old(cache.disk.image), image);
        assert blocks[tail..][1..] == blocks[tail + 1..] && pinned[tail..][1..] == pinned[tail + 1..]
          && data[tail..][1..] == data[tail + 1..];
        tail, m := tail + 1, m + 1;
      }
      assert blocks[n..] == [] && pinned[n..] == [] && data[n..] == [];
      ok := true;
    }

    /** write_log and the write_head that commits. */
    method LogAndStamp(ghost blocks: seq<nat>, ghost pinned: seq<nat>, ghost data: seq<Block>, ghost r: R.Readers)
      returns (ok: bool, ghost k: nat, ghost r': R.Readers)
      requires n == |blocks| && n <= |block| == W.LOGSIZE && block[..n] == blocks && Ok(blocks, pinned, data, r)
      requires W.Ready(lay, cache.disk.image, blocks, data)
      modifies cache, cache.links, cache.disk
      ensures !ok ==> Exhausted()
      ensures ok ==> Ok(blocks, pinned, data, r') && |r'.refs| == |r.refs|
      ensures var writes := W.SlotWrites(lay, data) + W.HeadWrite(lay, old(cache.disk.image)[W.HeadKey(lay)], blocks);
        k <= |writes| && (ok ==> k == |writes|)
        && Issued(writes[..k], old(cache.disk.image), old(cache.disk.history))
    {
      hide Good;
      ghost var image, slots := cache.disk.image, W.SlotWrites(lay, data);
      ghost var stamp := W.HeadWrite(lay, image[W.HeadKey(lay)], blocks);
      ok, k, r' := WriteLog(blocks, pinned, data, r);
      assert (slots + stamp)[..k] == slots[..k];
      if !ok { return; }
      assert slots[..k] == slots;
      SlotsLogged(lay, image, blocks, data);
      HasRoom(blocks, pinned, data, r');
      ok := WriteHead(blocks, pinned, data);
      if !ok { return; }
      k := k + 1;
      assert (slots + stamp)[..k] == slots + stamp;
      AfterBoth(image, slots, stamp);
    }

    /** install_trans and the write_head that erases the log. */
    method InstallAndErase(ghost blocks: seq<nat>, ghost pinned: seq<nat>, ghost data: seq<Block>, ghost r: R.Readers)
      returns (ok: bool, ghost k: nat, ghost r': R.Readers)
      requires n == |blocks| && n <= |block| == W.LOGSIZE && block[..n] == blocks && Ok(blocks, pinned, data, r)
      requires W.Loggable(lay, blocks) && OnDisk(blocks, cache.disk.image)
      requires forall i :: 0 <= i < n ==> cache.disk.image[W.SlotKey(lay, i)] == data[i]
      modifies this`n, cache, cache.links, cache.disk
      ensures !ok ==> Exhausted()
      ensures ok ==> Ok([], [], [], r') && |r'.refs| == |r.refs| && n == 0
      ensures var head := old(cache.disk.image)[W.HeadKey(lay)];
        var writes := W.HomeWrites(lay, blocks, data) + W.HeadWrite(lay, head, []);
        k <= |writes| && (ok ==> k == |writes|)
        && Issued(writes[..k], old(cache.disk.image), old(cache.disk.history))
    {
      hide Good;
      ghost var image, homes := cache.disk.image, W.HomeWrites(lay, blocks, data);
      ghost var clear := W.HeadWrite(lay, image[W.HeadKey(lay)], []);
      ok, k, r' := InstallTrans(blocks, pinned, data, r);
      assert (homes + clear)[..k] == homes[..k];
      if !ok { return; }
      assert homes[..k] == homes;
      HeadKept(lay, image, blocks, data);
      n := 0;
      assert block[..n] == [];
      HasRoom([], [], [], r');
      ok := WriteHead([], [], []);
      if !ok { return; }
      k := k + 1;
      assert (homes + clear)[..k] == homes + clear;
      AfterBoth(image, homes, clear);
    }

    /** commit: exactly CommitWrites reach the disk, or a prefix of k of them when a
        buffer shortage panics. */
    method Commit(ghost pinned: seq<nat>, ghost data: seq<Block>, ghost r: R.Readers)
      returns (ok: bool, ghost k: nat, ghost r': R.Readers)
      requires n <= |block| == W.LOGSIZE && Ok(block[..n], pinned, data, r)
      requires W.Ready(lay, cache.disk.image, block[..n], data)
      modifies this`n, cache, cache.links, cache.disk
      ensures !ok ==> Exhausted()
      ensures ok ==> Ok([], [], [], r') && |r'.refs| == |r.refs| && n == 0
      ensures var writes := W.CommitWrites(lay, old(cache.disk.image)[W.HeadKey(lay)], old(block[..n]), data);
        k <= |writes| && (ok ==> k == |writes|)
        && Issued(writes[..k], old(cache.disk.image), old(cache.disk.history))
    {
      hide Good, After, W.SlotWrites, W.HomeWrites;
      ghost var blocks, image, head := block[..n], cache.disk.image, cache.disk.image[W.HeadKey(lay)];
      ok, k, r' := true, 0, r;
      if n > 0 {
        ghost var first := W.SlotWrites(lay, data) + W.HeadWrite(lay, head, blocks);
        ghost var second := W.HomeWrites(lay, blocks, data) + W.HeadWrite(lay, W.Stamped(head, blocks), []);
        assert W.CommitWrites(lay, head, blocks, data) == first + second;
        ok, k, r' := LogAndStamp(blocks, pinned, data, r);
        PrefixOfBoth(image, first, second, k);
        assert Issued((first + second)[..k], image, old(cache.disk.history));
        if !ok { return; }
        Stamped(lay, image, blocks, data);
        ghost var m;
        ok, m, r' := InstallAndErase(blocks, pinned, data, r');
        k := k + m;
        PrefixOfBoth(image, first, second, k);
        Associates(old(cache.disk.history), first, second[..m]);
        assert Issued((first + second)[..k], image, old(cache.disk.history));
      } else {
        NoWrites(image, W.CommitWrites(lay, head, blocks, data));
        assert blocks == [] && pinned == [] && data == [];
        assert W.CommitWrites(lay, head, blocks, data)[..0] == [];
        assert Issued([], image, old(cache.disk.history));
      }
    }

    /** begin_op, one turn of its loop: go on, or sleep. */
    method BeginOp() returns (admitted: bool)
      requires n <= |block|
      modifies this`outstanding
      ensures admitted == P.CanBegin(old(View()))
      ensures View() == if admitted then P.Begun(old(View())) else old(View())
    {
      admitted := !committing && n + (outstanding + 1) * P.MAXOPBLOCKS <= W.LOGSIZE;
      if admitted {
        outstanding := outstanding + 1;
      }
    }

    /** end_op.  A commit, if one is due, issues the first k of its writes: all of them
        unless a buffer shortage panics. */
    method EndOp(ghost pinned: seq<nat>, ghost data: seq<Block>, ghost r: R.Readers)
      returns (ok: bool, ghost k: nat, ghost r': R.Readers)
      requires n <= |block| == W.LOGSIZE && |data| == n
      requires !committing && outstanding == 1 ==>
        Ok(block[..n], pinned, data, r) && W.Ready(lay, cache.disk.image, block[..n], data)
      modifies this, cache, cache.links, cache.disk
      ensures |block| == W.LOGSIZE
      ensures !ok ==> P.EndPanics(old(View())) || Exhausted()
      ensures P.EndPanics(old(View())) ==> !ok && unchanged(cache.disk)
      ensures !P.EndPanics(old(View())) && old(outstanding) != 1 ==>
        ok && n <= |block| && View() == P.Ended(old(View())) && unchanged(cache, cache.links, cache.disk)
      ensures !P.EndPanics(old(View())) && old(outstanding) == 1 ==> (
        var writes := W.CommitWrites(lay, old(cache.disk.image)[W.HeadKey(lay)], old(block[..n]), data);
        && k <= |writes| && (ok ==> k == |writes|)
        && Issued(writes[..k], old(cache.disk.image), old(cache.disk.history)))
      ensures ok && old(outstanding) == 1 ==>
        && n <= |block| && View() == P.Finished(P.Erased(P.Ended(old(View()))))
        && Ok([], [], [], r') && |r'.refs| == |r.refs|
    {
      k, r' := 0, r;
      outstanding := outstanding - 1;
      if committing {
        return false, 0, r';
      }
      ok := true;
      if outstanding == 0 {
        committing := true;
        ok, k, r' := Commit(pinned, data, r);
        if ok {
          committing := false;
        }
      }
    }

    /** The test of log_write, made without the lock.  Not ok is the panic. */
    method LogTest() returns (ok: bool)
      requires n <= |block|
      ensures ok <==> !P.WritePanics(View())
    {
      ok := !(n >= W.LOGSIZE || n >= lay.size - 1 || outstanding < 1);
    }

    /** log_write from there on, whatever other processes have listed in the meantime: the
        block is listed and pinned, or already was. */
    method LogAppend(b: nat, ghost i: nat)
      requires n <= |block| == W.LOGSIZE && cache.Valid()
      requires Enabled(cache.View(), Release(b, i)) && cache.held[b] + cache.pins[b] + 1 < UINT
      requires n < W.LOGSIZE || cache.key[b].blockno in block[..n]
      modifies this`n, this`block, cache`refcnt, cache`pins
      ensures n <= |block| == W.LOGSIZE && View() == P.Logged(old(View()), cache.key[b].blockno)
      ensures cache.Valid() && if cache.key[b].blockno in old(block[..n]) then cache.View() == old(cache.View())
        else Enabled(old(cache.View()), Pin(b, i)) && cache.View() == Apply(old(cache.View()), Pin(b, i))
    {
      var blockno := cache.key[b].blockno;
      var j := FindListed(blockno);
      if j < n {
        block := block[j := blockno];
        assert block == old(block);
      } else {
        block := block[j := blockno];
        cache.Bpin(b, i);
        n := n + 1;
        assert block[..n] == old(block[..n]) + [blockno];
      }
    }

    /** A whole log_write for a held buffer, while any number of buffers, this one among
        them or not, are changed and not yet logged: the block's data will be the buffer's. */
    method LogWrite(b: nat, ghost i: nat, ghost pinned: seq<nat>, ghost data: seq<Block>, ghost dirty: set<nat>)
      returns (ok: bool)
      requires n <= |block| == W.LOGSIZE && cache.Valid() && cache.Room(1)
      requires Enabled(cache.View(), Release(b, i)) && cache.valid[b] && cache.stray[b] == 0
      requires cache.key[b].dev == lay.dev && cache.key[b] in cache.disk.image && !W.InLog(lay, cache.key[b])
      requires Open(cache.View(), cache.disk.image, lay, block[..n], pinned, data, dirty)
      modifies this`n, this`block, cache`refcnt, cache`pins
      ensures ok <==> !P.WritePanics(old(View()))
      ensures ok ==> n <= |block| == W.LOGSIZE && View() == P.Logged(old(View()), cache.key[b].blockno)
      ensures |data| == old(n)
      ensures ok ==> cache.Valid() && if cache.key[b].blockno in old(block[..n]) then cache.View() == old(cache.View())
        else Enabled(old(cache.View()), Pin(b, i)) && cache.View() == Apply(old(cache.View()), Pin(b, i))
      ensures ok ==>
        Open(cache.View(), cache.disk.image, lay, block[..n], Holding(old(block[..n]), pinned, cache.key[b].blockno, b),
                Stored(old(block[..n]), data, cache.key[b].blockno, cache.data[b]), dirty - {b})
    {
      hide Sound, PinnedOnce, W.WellFormed;
      ok := LogTest();
      if !ok { return; }
      ghost var s := cache.View();
      if cache.key[b].blockno in block[..n] {
        AbsorbKeepsOpen(s, cache.disk.image, lay, block[..n], pinned, data, dirty, b);
      } else {
        ListKeepsOpen(s, cache.disk.image, lay, block[..n], pinned, data, dirty, b, i);
      }
      LogAppend(b, i);
    }

    /** The loop of log_write. */
    method FindListed(blockno: nat) returns (j: nat)
      requires n <= |block|
      ensures j <= n && blockno !in block[..j]
      ensures j < n ==> block[j] == blockno && blockno in block[..n]
    {
      j := 0;
      while j < n && block[j] != blockno
        invariant 0 <= j <= n && blockno !in block[..j]
      {
        j := j + 1;
      }
      assert j < n ==> block[..n][j] == block[j];
    }

    /** A cache in which nothing is logged or in use. */
    ghost predicate Idle()
      reads this, cache, cache.links, cache.disk
    {
      && cache.Valid() && Good(cache.View(), cache.disk.image, lay, [], [], [])
      && forall b :: 0 <= b < cache.n ==> cache.held[b] == 0 && cache.pins[b] == 0
    }

    /** The buffers with a stray unpin, one each, are exactly those of the first `tail`
        recovered blocks. */
    ghost predicate StraysAre(blocks: seq<nat>, tail: nat)
      requires tail <= |blocks|
      reads this, cache
    {
      && |cache.stray| == cache.n && |cache.key| == cache.n
      && (forall b :: 0 <= b < cache.n && cache.stray[b] != 0 ==>
           cache.stray[b] == 1 && cache.key[b].dev == lay.dev && cache.key[b].blockno in blocks[..tail])
      && forall j :: 0 <= j < tail ==> StrayFor(W.HomeKey(lay, blocks[j]))
    }

    ghost predicate StrayFor(k: Key)
      reads cache
    {
      && |cache.stray| == cache.n && |cache.key| == cache.n
      && exists b :: 0 <= b < cache.n && cache.stray[b] == 1 && cache.key[b] == k
    }

    /** read_head */
    method ReadHead() returns (ok: bool)
      requires Idle() && W.WellFormed(lay, cache.disk.image) && |block| == W.LOGSIZE
      requires StraysAre([], 0)
      modifies this`n, this`block, cache, cache.links
      ensures !ok ==> Exhausted()
      ensures ok ==> Idle() && StraysAre([], 0)
      ensures ok ==> |block| == W.LOGSIZE && n <= |block| && block[..n] == W.Listed(cache.disk.image[W.HeadKey(lay)])
    {
      var buf;
      ghost var i;
      ok, buf, i := Read(W.HeadKey(lay), [], [], []);
      if !ok { return; }
      CopyHead(cache.data[buf]);
      Drop(buf, [], [], []);
      assert cache.held == old(cache.held);
    }

    /** The loop of read_head over the header's words. */
    method CopyHead(head: Block)
      requires head[0] <= W.LOGSIZE && |block| == W.LOGSIZE
      modifies this`n, this`block
      ensures n == head[0] && |block| == W.LOGSIZE && block[..n] == W.Listed(head)
    {
      n := head[0];
      var j := 0;
      while j < n
        invariant 0 <= j <= n && n == head[0] && |block| == W.LOGSIZE
        invariant forall m :: 0 <= m < j ==> block[m] == head[1 + m]
      {
        block := block[j := head[1 + j]];
        j := j + 1;
      }
      assert block[..n] == head[1..1 + n];
    }

    /** install_trans in recovery: nothing is pinned, so every unpin is a stray one. */
    method InstallRecovered(ghost blocks: seq<nat>, ghost data: seq<Block>) returns (ok: bool, ghost m: nat)
      requires Idle() && StraysAre(blocks, 0) && W.Loggable(lay, blocks)
      requires n == |blocks| && n <= |block| && block[..n] == blocks && OnDisk(blocks, cache.disk.image)
      requires |data| == n && forall i :: 0 <= i < n ==> cache.disk.image[W.SlotKey(lay, i)] == data[i]
      modifies cache, cache.links, cache.disk
      ensures !ok ==> Exhausted()
      ensures m <= |blocks| && (ok ==> m == |blocks| && Idle() && StraysAre(blocks, |blocks|))
      ensures Issued(W.HomeWrites(lay, blocks, data)[..m], old(cache.disk.image), old(cache.disk.history))
    {
      hide Good, Idle, StraysAre, After, W.HomeWrites;
      m := 0;
      var tail := 0;
      HomeWriteCount(lay, blocks, data);
      NoWrites(cache.disk.image, W.HomeWrites(lay, blocks, data));
      while tail < n
        invariant 0 <= tail <= n && m == tail
        invariant Idle() && StraysAre(blocks, tail) && OnDisk(blocks, cache.disk.image)
        invariant forall i :: tail <= i < n ==> cache.disk.image[W.SlotKey(lay, i)] == data[i]
        invariant Issued(W.HomeWrites(lay, blocks, data)[..tail], old(cache.disk.image), old(cache.disk.history))
      {
        assert block[..n][tail] == block[tail];
        ghost var image := cache.disk.image;
        RestOf(lay, blocks, tail);
        ok := RecoverOne(tail, blocks);
        if !ok { return; }
        HomeWriteAt(lay, blocks, data, tail);
        NextWrite(W.HomeWrites(lay, blocks, data), tail, old(cache.disk.image), image);
        tail, m := tail + 1, m + 1;
      }
      ok := true;
    }

    method RecoverOne(tail: nat, ghost blocks: seq<nat>) returns (ok: bool)
      requires Idle() && W.Loggable(lay, blocks) && tail < |blocks| && StraysAre(blocks, tail)
      requires tail < |block| && block[tail] == blocks[tail] && W.SlotKey(lay, tail) in cache.disk.image
      requires W.HomeKey(lay, block[tail]) in cache.disk.image && !W.InLog(lay, W.HomeKey(lay, block[tail]))
      modifies cache, cache.links, cache.disk
      ensures !ok ==> Exhausted()
      ensures ok ==> Idle() && StraysAre(blocks, tail + 1)
      ensures ok ==> Wrote(W.HomeKey(lay, blocks[tail]), old(cache.disk.image)[W.SlotKey(lay, tail)],
                           old(cache.disk.image), old(cache.disk.history))
      ensures !ok ==> unchanged(cache.disk)
    {
      StraysElsewhere(blocks, tail);
      ghost var slot, home;
      ok, slot, home := InstallOne(tail, false, [], [], []);
      assert blocks[..tail + 1] == blocks[..tail] + [blocks[tail]];
      if ok {
        forall j | 0 <= j < tail + 1
          ensures StrayFor(W.HomeKey(lay, blocks[j]))
        {
          if j < tail {
            assert old(StrayFor(W.HomeKey(lay, blocks[j])));
          }
        }
      }
    }

    lemma StraysElsewhere(blocks: seq<nat>, tail: nat)
      requires Idle() && W.Loggable(lay, blocks) && tail < |blocks| && StraysAre(blocks, tail)
      ensures cache.Room(4) && StraysAside(W.SlotKey(lay, tail), W.HomeKey(lay, blocks[tail]))
    {
      LogBlocksUnlisted(lay, blocks);
      forall b | 0 <= b < cache.n
        ensures AsideAt(cache.View(), b, W.SlotKey(lay, tail), W.HomeKey(lay, blocks[tail]))
      {
        if cache.stray[b] != 0 {
          var j :| 0 <= j < tail && blocks[j] == cache.key[b].blockno;
        }
      }
    }

    /** The write_head that ends recovery. */
    method EraseRecovered(ghost blocks: seq<nat>) returns (ok: bool)
      requires Idle() && StraysAre(blocks, |blocks|) && n == 0 && |block| == W.LOGSIZE
      requires W.HeadKey(lay) in cache.disk.image
      modifies cache, cache.links, cache.disk
      ensures !ok ==> Exhausted() && unchanged(cache.disk)
      ensures ok ==> Idle() && StraysAre(blocks, |blocks|)
      ensures ok ==> Issued(W.HeadWrite(lay, old(cache.disk.image)[W.HeadKey(lay)], []),
                            old(cache.disk.image), old(cache.disk.history))
    {
      assert block[..n] == [];
      forall b | 0 <= b < cache.n && cache.stray[b] != 0
        ensures cache.refcnt[b] > 0
      {
        var i := PositionOf(cache.View().cache, b);
        assert CountedAt(cache.View(), i);
      }
      ok := WriteHead([], [], []);
      if ok {
        forall j | 0 <= j < |blocks|
          ensures StrayFor(W.HomeKey(lay, blocks[j]))
        {
          assert old(StrayFor(W.HomeKey(lay, blocks[j])));
        }
      }
    }

    /** recover_from_log: exactly RecoverWrites reach the disk, or a prefix of k of
        them when a buffer shortage panics. */
    method Recover() returns (ok: bool, ghost k: nat)
      requires Idle() && W.WellFormed(lay, cache.disk.image) && |block| == W.LOGSIZE && StraysAre([], 0)
      modifies this`n, this`block, cache, cache.links, cache.disk
      ensures !ok ==> Exhausted()
      ensures var writes := W.RecoverWrites(lay, old(cache.disk.image));
        k <= |writes| && (ok ==> k == |writes|)
        && Issued(writes[..k], old(cache.disk.image), old(cache.disk.history))
      ensures ok ==> n == 0 && |block| == W.LOGSIZE && Idle()
      ensures ok ==> var blocks := W.Listed(old(cache.disk.image)[W.HeadKey(lay)]); StraysAre(blocks, |blocks|)
    {
      hide Good, After, W.HomeWrites;
      ghost var image, history := cache.disk.image, cache.disk.history;
      ghost var head := image[W.HeadKey(lay)];
      ghost var blocks := W.Listed(head);
      ghost var data := W.Slots(lay, image, |blocks|);
      ghost var homes, clear := W.HomeWrites(lay, blocks, data), W.HeadWrite(lay, head, []);
      k := 0;
      HomeWriteCount(lay, blocks, data);
      NoWrites(image, homes + clear);
      ok := ReadHead();
      assert Issued((homes + clear)[..k], image, history);
      if !ok { return; }
      ok, k := InstallRecovered(blocks, data);
      PrefixOfBoth(image, homes, clear, k);
      assert Issued((homes + clear)[..k], image, history);
      if !ok { return; }
      HeadKept(lay, image, blocks, data);
      n := 0;
      ok := EraseRecovered(blocks);
      if !ok { return; }
      k := k + 1;
      PrefixOfBoth(image, homes, clear, k);
      assert clear[..1] == clear;
      Associates(history, homes, clear);
      assert Issued((homes + clear)[..k], image, history);
    }
  }

  /** Reading leaves changed buffers, and everything else, as they are. */
  lemma ReadKeepsSound(s: Sys, a: Step, image: Image, l: W.Layout, blocks: seq<nat>, pinned: seq<nat>, data: seq<Block>,
                       dirty: set<nat>)
    requires Sound(s, image, l, blocks, pinned, data, dirty) && Reading(s, a, image)
    ensures Sound(Apply(s, a), image, l, blocks, pinned, data, dirty)
    ensures Apply(s, a).stray == s.stray && Apply(s, a).pins == s.pins
  {
    StepKeeps(s, a);
    var t := Apply(s, a);
    forall b | 0 <= b < |t.pins| && b !in dirty
      ensures CoherentAt(t, image, l, blocks, b)
    {
      assert CoherentAt(s, image, l, blocks, b);
    }
    forall i | 0 <= i < |blocks|
      ensures LoggedAt(t, l, blocks[i], pinned[i], data[i], dirty)
    {
      assert LoggedAt(s, l, blocks[i], pinned[i], data[i], dirty);
      PinnedStep(s, a, pinned[i]);
    }
  }

  /** A holder changes its buffer, which is dirty from then on. */
  lemma ModifyKeepsSound(s: Sys, image: Image, l: W.Layout, blocks: seq<nat>, pinned: seq<nat>, data: seq<Block>,
                         dirty: set<nat>, b: nat, i: nat, d: Block)
    requires Sound(s, image, l, blocks, pinned, data, dirty) && Enabled(s, Modify(b, i, d))
    ensures Sound(Apply(s, Modify(b, i, d)), image, l, blocks, pinned, data, dirty + {b})
  {
    StepKeeps(s, Modify(b, i, d));
    var t := Apply(s, Modify(b, i, d));
    forall c | 0 <= c < |t.pins| && c !in dirty + {b}
      ensures CoherentAt(t, image, l, blocks, c)
    {
      assert CoherentAt(s, image, l, blocks, c);
    }
    forall j | 0 <= j < |blocks|
      ensures LoggedAt(t, l, blocks[j], pinned[j], data[j], dirty + {b})
    {
      assert LoggedAt(s, l, blocks[j], pinned[j], data[j], dirty);
    }
  }

  /** A block that is already listed stays pinned, with its new data. */
  lemma AbsorbKeepsSound(s: Sys, image: Image, l: W.Layout, blocks: seq<nat>, pinned: seq<nat>, data: seq<Block>,
                         dirty: set<nat>, b: nat, j: nat)
    requires Sound(s, image, l, blocks, pinned, data, dirty) && P.NoRepeats(blocks)
    requires b < |s.pins| && s.cache.valid[b] && s.cache.key[b].dev == l.dev
    requires j < |blocks| && blocks[j] == s.cache.key[b].blockno
    ensures |data| == |blocks| && Sound(s, image, l, blocks, pinned, data[j := s.cache.data[b]], dirty - {b})
  {
    forall c | 0 <= c < |s.pins| && c !in dirty - {b}
      ensures CoherentAt(s, image, l, blocks, c)
    {
      assert c !in dirty ==> CoherentAt(s, image, l, blocks, c);
      assert blocks[j] in blocks;
    }
    forall k | 0 <= k < |blocks|
      ensures LoggedAt(s, l, blocks[k], pinned[k], data[j := s.cache.data[b]][k], dirty - {b})
    {
      assert LoggedAt(s, l, blocks[k], pinned[k], data[k], dirty);
      if k == j {
        ValidUnique(s, b, pinned[k]);
      }
    }
  }

  /** Listing and pinning a block. */
  lemma ListKeepsSound(s: Sys, image: Image, l: W.Layout, blocks: seq<nat>, pinned: seq<nat>, data: seq<Block>,
                       dirty: set<nat>, b: nat, i: nat)
    requires Sound(s, image, l, blocks, pinned, data, dirty) && Enabled(s, Pin(b, i))
    requires s.cache.valid[b] && s.cache.key[b].dev == l.dev && s.cache.key[b].blockno !in blocks && s.stray[b] == 0
    ensures Sound(Apply(s, Pin(b, i)), image, l, blocks + [s.cache.key[b].blockno], pinned + [b],
                  data + [s.cache.data[b]], dirty - {b})
  {
    var t := Apply(s, Pin(b, i));
    StepKeeps(s, Pin(b, i));
    var blocks', pinned', data' := blocks + [s.cache.key[b].blockno], pinned + [b], data + [s.cache.data[b]];
    assert s.cache.key[b].blockno == blocks'[|blocks|];
    forall c | 0 <= c < |t.pins| && c !in dirty - {b}
      ensures CoherentAt(t, image, l, blocks', c)
    {
      assert c !in dirty ==> CoherentAt(s, image, l, blocks, c);
    }
    forall k | 0 <= k < |blocks'|
      ensures LoggedAt(t, l, blocks'[k], pinned'[k], data'[k], dirty - {b})
    {
      if k < |blocks| {
        assert LoggedAt(s, l, blocks[k], pinned[k], data[k], dirty);
        assert blocks[k] in blocks;
      }
    }
  }

  /** The pinned buffers, and the data to commit, once block `blockno` is logged from
      buffer b holding d. */
  function Holding(blocks: seq<nat>, pinned: seq<nat>, blockno: nat, b: nat): seq<nat> {
    if blockno in blocks then pinned else pinned + [b]
  }

  function Stored(blocks: seq<nat>, data: seq<Block>, blockno: nat, d: Block): seq<Block>
    requires |data| == |blocks|
  {
    if blockno in blocks then seq(|data|, j requires 0 <= j < |data| => if blocks[j] == blockno then d else data[j])
    else data + [d]
  }

  lemma StoredIs(blocks: seq<nat>, data: seq<Block>, j: nat, d: Block)
    requires |data| == |blocks| && P.NoRepeats(blocks) && j < |blocks|
    ensures Stored(blocks, data, blocks[j], d) == data[j := d]
  {
  }

  /** log_write of a listed block. */
  lemma AbsorbKeepsOpen(s: Sys, image: Image, l: W.Layout, blocks: seq<nat>, pinned: seq<nat>, data: seq<Block>,
                        dirty: set<nat>, b: nat)
    requires Open(s, image, l, blocks, pinned, data, dirty)
    requires b < |s.pins| && s.cache.valid[b] && s.cache.key[b].dev == l.dev && s.cache.key[b].blockno in blocks
    ensures Open(s, image, l, blocks, pinned, Stored(blocks, data, s.cache.key[b].blockno, s.cache.data[b]),
                 dirty - {b})
  {
    var j :| 0 <= j < |blocks| && blocks[j] == s.cache.key[b].blockno;
    AbsorbKeepsSound(s, image, l, blocks, pinned, data, dirty, b, j);
    StoredIs(blocks, data, j, s.cache.data[b]);
  }

  /** log_write of an unlisted block, which the log has room for. */
  lemma ListKeepsOpen(s: Sys, image: Image, l: W.Layout, blocks: seq<nat>, pinned: seq<nat>, data: seq<Block>,
                      dirty: set<nat>, b: nat, i: nat)
    requires Open(s, image, l, blocks, pinned, data, dirty) && Enabled(s, Pin(b, i)) && s.stray[b] == 0
    requires s.cache.valid[b] && s.cache.key[b].dev == l.dev && s.cache.key[b].blockno !in blocks
    requires s.cache.key[b] in image && !W.InLog(l, s.cache.key[b]) && |blocks| < W.LOGSIZE && |blocks| < l.size - 1
    ensures Open(Apply(s, Pin(b, i)), image, l, blocks + [s.cache.key[b].blockno], pinned + [b],
                 data + [s.cache.data[b]], dirty - {b})
  {
    ListKeepsSound(s, image, l, blocks, pinned, data, dirty, b, i);
    NotYetPinned(s, l, blocks, pinned, data, dirty, b);
    assert s.cache.key[b] == W.HomeKey(l, s.cache.key[b].blockno);
    LoggedIsReady(l, image, blocks, data, s.cache.key[b].blockno, s.cache.data[b]);
    hide Sound;
    forall c | 0 <= c < |s.pins|
      ensures PinnedOnceAt(Apply(s, Pin(b, i)).pins, pinned + [b], c)
    {
      assert PinnedOnceAt(s.pins, pinned, c);
    }
  }

  lemma NotYetPinned(s: Sys, l: W.Layout, blocks: seq<nat>, pinned: seq<nat>, data: seq<Block>, dirty: set<nat>, b: nat)
    requires SysSized(s) && LoggedAll(s, l, blocks, pinned, data, dirty)
    requires b < |s.pins| && s.cache.key[b].blockno !in blocks
    ensures b !in pinned
  {
    forall j | 0 <= j < |pinned|
      ensures pinned[j] != b
    {
      assert LoggedAt(s, l, blocks[j], pinned[j], data[j], dirty);
      assert blocks[j] in blocks;
    }
  }

  lemma LoggedIsReady(l: W.Layout, image: Image, blocks: seq<nat>, data: seq<Block>, blockno: nat, d: Block)
    requires W.Ready(l, image, blocks, data) && |blocks| < W.LOGSIZE && |blocks| < l.size - 1
    requires W.HomeKey(l, blockno) in image && !W.InLog(l, W.HomeKey(l, blockno)) && blockno !in blocks
    ensures W.Ready(l, image, blocks + [blockno], data + [d])
  {
    assert forall i :: 0 <= i < |blocks| ==> blocks[i] in blocks;
  }

  lemma PrefixOfBoth(image: Image, first: seq<Write>, second: seq<Write>, k: nat)
    requires k <= |first + second|
    ensures k <= |first| ==> (first + second)[..k] == first[..k]
    ensures k >= |first| ==> (first + second)[..k] == first + second[..k - |first|]
    ensures k >= |first| ==> After(image, (first + second)[..k]) == After(After(image, first), second[..k - |first|])
    ensures first[..|first|] == first
  {
    if k >= |first| {
      assert (first + second)[..k] == first + second[..k - |first|];
      AfterBoth(image, first, second[..k - |first|]);
    }
  }

  lemma Associates(a: seq<Write>, b: seq<Write>, c: seq<Write>)
    ensures (a + b) + c == a + (b + c)
  {
  }

  lemma SlotsLogged(l: W.Layout, image: Image, blocks: seq<nat>, data: seq<Block>)
    requires W.Ready(l, image, blocks, data)
    ensures var d := After(image, W.SlotWrites(l, data));
      W.HeadKey(l) in d && d[W.HeadKey(l)] == image[W.HeadKey(l)] && l.start !in blocks
  {
    assert W.SlotWrites(l, data)[..|data|] == W.SlotWrites(l, data);
    W.SlotsWritten(l, image, data, |data|);
    LogBlocksUnlisted(l, blocks);
  }

  /** After the committing header write the log holds the whole transaction. */
  lemma Stamped(l: W.Layout, image: Image, blocks: seq<nat>, data: seq<Block>)
    requires W.Ready(l, image, blocks, data)
    ensures var d := After(image, W.SlotWrites(l, data) + W.HeadWrite(l, image[W.HeadKey(l)], blocks));
      && W.HeadKey(l) in d && d[W.HeadKey(l)] == W.Stamped(image[W.HeadKey(l)], blocks)
      && (forall i :: 0 <= i < l.size - 1 ==> W.SlotKey(l, i) in d)
      && (forall i :: 0 <= i < |blocks| ==> d[W.SlotKey(l, i)] == data[i] && W.HomeKey(l, blocks[i]) in d)
  {
    var slots, stamp := W.SlotWrites(l, data), W.HeadWrite(l, image[W.HeadKey(l)], blocks);
    assert slots[..|data|] == slots;
    W.SlotsWritten(l, image, data, |data|);
    AfterBoth(image, slots, stamp);
    OneWrite(After(image, slots), W.HeadKey(l), W.Stamped(image[W.HeadKey(l)], blocks));
  }

  lemma HeadKept(l: W.Layout, image: Image, blocks: seq<nat>, data: seq<Block>)
    requires W.Loggable(l, blocks) && |data| == |blocks| && W.HeadKey(l) in image
    ensures var d := After(image, W.HomeWrites(l, blocks, data));
      W.HeadKey(l) in d && d[W.HeadKey(l)] == image[W.HeadKey(l)]
  {
    var homes := W.HomeWrites(l, blocks, data);
    assert homes[..|blocks|] == homes;
    W.HomeWritesDistinct(l, blocks, data, |blocks|);
    W.AfterUnwritten(image, homes, W.HeadKey(l));
  }

  /** The first pinned buffer loses its only pin. */
  lemma UnpinsFirst(s: Sys, image: Image, l: W.Layout, blocks: seq<nat>, pinned: seq<nat>, data: seq<Block>)
    requires Good(s, image, l, blocks, pinned, data) && P.NoRepeats(blocks) && blocks != []
    requires PinnedOnce(s.pins, pinned)
    ensures |pinned| == |blocks| == |data| && pinned[0] < |s.pins| && s.pins[pinned[0]] == 1
    ensures PinnedOnce(s.pins[pinned[0] := 0], pinned[1..])
  {
    assert PinnedAt(s, l, blocks[0], pinned[0], data[0]);
    assert PinnedOnceAt(s.pins, pinned, pinned[0]);
    forall j | 1 <= j < |pinned|
      ensures pinned[j] != pinned[0]
    {
      assert PinnedAt(s, l, blocks[j], pinned[j], data[j]);
    }
    var pins: seq<nat> := s.pins[pinned[0] := 0];
    forall b | 0 <= b < |pins|
      ensures PinnedOnceAt(pins, pinned[1..], b)
    {
      assert PinnedOnceAt(s.pins, pinned, b);
    }
  }

  /** No block of the log area is ever listed. */
  lemma LogBlocksUnlisted(l: W.Layout, blocks: seq<nat>)
    requires W.Loggable(l, blocks)
    ensures l.start !in blocks
    ensures forall i :: 0 <= i < l.size - 1 ==> W.SlotKey(l, i).blockno !in blocks
  {
    forall j | 0 <= j < |blocks|
      ensures blocks[j] < l.start || blocks[j] >= l.start + l.size
    {
      assert !W.InLog(l, W.HomeKey(l, blocks[j]));
    }
  }

  lemma RestOf(l: W.Layout, blocks: seq<nat>, tail: nat)
    requires W.Loggable(l, blocks) && tail < |blocks|
    ensures P.NoRepeats(blocks[tail..]) && W.SlotKey(l, tail).blockno !in blocks[tail..]
    ensures !W.InLog(l, W.HomeKey(l, blocks[tail]))
  {
    LogBlocksUnlisted(l, blocks);
    assert forall b :: b in blocks[tail..] ==> b in blocks;
  }

  lemma HomeWriteAt(l: W.Layout, blocks: seq<nat>, data: seq<Block>, i: nat)
    requires |blocks| == |data| && i < |blocks|
    ensures |W.HomeWrites(l, blocks, data)| == |blocks|
    ensures W.HomeWrites(l, blocks, data)[i] == Write(W.HomeKey(l, blocks[i]), data[i])
  {
  }

  lemma HomeWriteCount(l: W.Layout, blocks: seq<nat>, data: seq<Block>)
    requires |blocks| == |data|
    ensures |W.HomeWrites(l, blocks, data)| == |blocks|
  {
  }

  lemma SlotWriteAt(l: W.Layout, data: seq<Block>, i: nat)
    requires i < |data|
    ensures |W.SlotWrites(l, data)| == |data| && W.SlotWrites(l, data)[i] == Write(W.SlotKey(l, i), data[i])
  {
  }

  lemma SlotWriteCount(l: W.Layout, data: seq<Block>)
    ensures |W.SlotWrites(l, data)| == |data|
  {
  }

  lemma LoggableBounds(l: W.Layout, blocks: seq<nat>)
    requires W.Loggable(l, blocks)
    ensures |blocks| <= W.LOGSIZE && |blocks| < l.size
  {
  }

  lemma NoWrites(image: Image, writes: seq<Write>)
    ensures writes[..0] == [] && After(image, []) == image
  {
  }

  lemma NextWrite(writes: seq<Write>, k: nat, image: Image, before: Image)
    requires k < |writes| && before == After(image, writes[..k])
    ensures writes[..k + 1] == writes[..k] + [writes[k]]
    ensures After(image, writes[..k + 1]) == before[writes[k].key := writes[k].data]
  {
    assert writes[..k + 1][..k] == writes[..k];
  }

  lemma OneWrite(image: Image, k: Key, d: Block)
    ensures After(image, [Write(k, d)]) == image[k := d]
  {
    assert [Write(k, d)][..0] == [];
  }

  lemma StrayKeepsGood(s: Sys, image: Image, l: W.Layout, b: nat, i: nat)
    requires Good(s, image, l, [], [], []) && Enabled(s, StrayUnpin(b, i))
    ensures Good(Apply(s, StrayUnpin(b, i)), image, l, [], [], [])
  {
    StepKeeps(s, StrayUnpin(b, i));
    var t := Apply(s, StrayUnpin(b, i));
    forall c | 0 <= c < |t.pins|
      ensures CoherentAt(t, image, l, [], c)
    {
      assert CoherentAt(s, image, l, [], c);
    }
  }

  /** Buffer b has no stray unpin; or it is unreferenced but for one, and holds
      neither of two blocks. */
  predicate AsideAt(s: Sys, b: nat, k1: Key, k2: Key)
    requires b < |s.stray| && b < |s.held| && b < |s.pins| && b < |s.cache.key|
  {
    || s.stray[b] == 0
    || (s.stray[b] == 1 && s.held[b] + s.pins[b] == 0 && s.cache.key[b] != k1 && s.cache.key[b] != k2)
  }

  /** A buffer that bget returns for one of the two blocks has no stray unpin. */
  lemma ClaimedNotStray(s: Sys, b: nat, i: nat, k: Key, k1: Key, k2: Key)
    requires Counted(s) && Enabled(s, Get(b, i, k)) && (k == k1 || k == k2)
    requires AsideAt(s, b, k1, k2)
    ensures s.stray[b] == 0
  {
    assert CountedAt(s, i);
  }

  /** Without stray unpins the count is the number of references. */
  lemma RefcntIs(s: Sys, b: nat)
    requires Counted(s) && b < |s.held| && s.stray[b] == 0 && s.held[b] + s.pins[b] < UINT
    ensures s.cache.refcnt[b] == s.held[b] + s.pins[b]
  {
    var i := PositionOf(s.cache, b);
    assert CountedAt(s, i);
  }
}
