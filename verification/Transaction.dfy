/** File-system operations of any number of processes, running side by side in one
    transaction, and the commit that follows: begin_op, bread, changes to the buffer,
    log_write in two steps, brelse and end_op, then the writes of commit one by one, with
    other processes reading in between.  Under them are the buffer cache of kernel/bio.c, the
    log of kernel/log.c and the disk. */
module Transaction {
  import opened Disk
  import C = BufferCache
  import S = CommitSteps
  import L = Log
  import P = LogProtocol
  import R = Readers
  import W = LogWrites

  /** Operations gather blocks; or process `who` commits them, k writes of the commit have
      been issued, and the disk was `base` when it began. */
  datatype Phase = Gathering | Committing(base: Image, k: nat, who: nat)

  /** A dirty buffer has been changed since it was last logged.  pinned and data are the
      buffers of the listed blocks and what was last logged from them. */
  datatype Sys = Sys(lay: W.Layout, cache: C.Sys, image: Image, log: P.Sys, readers: R.Readers,
                     dirty: set<nat>, pinned: seq<nat>, data: seq<Block>, phase: Phase)

  /** Check is the test of log_write, LogWrite the rest of it.
      Copy, Stamp and Install are the disk writes of a commit, each with the memmove before
      it: a slot of the log from the cache, the header, and a home block from its slot,
      with the bunpin after it. */
  datatype Step =
    | Begin(p: nat)
    | Read(a: R.Step)
    | Modify(p: nat, b: nat, i: nat, d: Block)
    | Check(p: nat, b: nat)
    | LogWrite(p: nat, b: nat, i: nat)
    | End(p: nat)
    | Copy(to: nat, i: nat, from: nat)
    | Stamp(b: nat, i: nat)
    | Install(to: nat, i: nat, from: nat)
    | Finish

  /** Process p holds the lock of buffer b, whose contents are valid. */
  predicate Holds(s: Sys, p: nat, b: nat) {
    && R.Has(s.readers, p, b) && b < |s.cache.cache.key| && b < |s.cache.cache.valid| && b < |s.cache.cache.data|
    && s.cache.cache.valid[b]
  }

  /** and belong to a block of the log's device outside the log. */
  predicate HoldsHome(s: Sys, p: nat, b: nat) {
    && Holds(s, p, b) && s.cache.cache.key[b].dev == s.lay.dev && s.cache.cache.key[b] in s.image
    && !W.InLog(s.lay, s.cache.cache.key[b])
  }

  predicate InOperation(s: Sys, p: nat) {
    p < |s.log.ops| && s.log.ops[p] != P.NONE
  }

  function Blocks(s: Sys): seq<nat> {
    s.log.log.blocks
  }

  /** The committing process has locked a buffer that holds block `key`. */
  predicate Ready(s: Sys, b: nat, key: Key) {
    s.phase.Committing? && Holds(s, s.phase.who, b) && s.cache.cache.key[b] == key
  }

  /** Operations keep to the rules: buffers are changed only inside an operation, and a
      changed buffer is logged before it is released and before the operation ends. */
  ghost predicate Enabled(s: Sys, a: Step) {
    var n := |Blocks(s)|;
    match a
    case Begin(p) => P.Enabled(s.log, P.Begin(p))
    case Read(a) => R.Enabled(s.cache, s.readers, a, s.image) && (a.Unlock? ==> a.b !in s.dirty)
    case Modify(p, b, i, d) => InOperation(s, p) && HoldsHome(s, p, b) && C.Enabled(s.cache, C.Modify(b, i, d))
    case Check(p, b) => HoldsHome(s, p, b) && P.Enabled(s.log, P.Check(p))
    case LogWrite(p, b, i) =>
      && HoldsHome(s, p, b) && P.Enabled(s.log, P.Write(p, s.cache.cache.key[b].blockno))
      && (s.cache.cache.key[b].blockno !in Blocks(s) ==> C.Enabled(s.cache, C.Pin(b, i)))
      && |s.data| == n
    case End(p) =>
      && P.Enabled(s.log, P.End(p))
      && forall b :: b in s.dirty ==> !R.Has(s.readers, p, b)
    case Copy(to, i, from) =>
      && s.phase.Committing? && s.phase.k < n
      && Ready(s, to, W.SlotKey(s.lay, s.phase.k)) && Ready(s, from, W.HomeKey(s.lay, Blocks(s)[s.phase.k]))
      && C.Enabled(s.cache, C.Modify(to, i, s.cache.cache.data[from]))
    case Stamp(b, i) =>
      && s.phase.Committing? && 0 < n < WORDS && (s.phase.k == n || s.phase.k == 2 * n + 1)
      && Ready(s, b, W.HeadKey(s.lay)) && C.Enabled(s.cache, C.Modify(b, i, NewHead(s, b)))
    case Install(to, i, from) =>
      && s.phase.Committing? && n < s.phase.k <= 2 * n
      && Ready(s, from, W.SlotKey(s.lay, s.phase.k - n - 1))
      && Ready(s, to, W.HomeKey(s.lay, Blocks(s)[s.phase.k - n - 1]))
      && C.Enabled(s.cache, C.Modify(to, i, s.cache.cache.data[from]))
      && C.Enabled(C.Apply(s.cache, C.Modify(to, i, s.cache.cache.data[from])), C.Unpin(to, i))
    case Finish => s.phase.Committing? && (n == 0 || s.phase.k == 2 * n + 2)
  }

  /** write_head: the listed blocks, or none once lh.n is zero. */
  function NewHead(s: Sys, b: nat): Block
    requires s.phase.Committing? && b < |s.cache.cache.data| && |Blocks(s)| < WORDS
  {
    W.Stamped(s.cache.cache.data[b], if s.phase.k == |Blocks(s)| then Blocks(s) else [])
  }

  /** One disk write of the commit. */
  function Wrote(s: Sys, cache: C.Sys, key: Key, d: Block): Sys
    requires s.phase.Committing?
  {
    s.(cache := cache, image := s.image[key := d], phase := s.phase.(k := s.phase.k + 1))
  }

  ghost function Apply(s: Sys, a: Step): Sys
    requires Enabled(s, a)
  {
    match a
    case Begin(p) => s.(log := P.Apply(s.log, P.Begin(p)))
    case Read(a) =>
      s.(cache := R.Cached(s.cache, s.readers, a, s.image), readers := R.Moved(s.cache, s.readers, a, s.image))
    case Modify(p, b, i, d) => s.(cache := C.Apply(s.cache, C.Modify(b, i, d)), dirty := s.dirty + {b})
    case Check(p, b) => s.(log := P.Apply(s.log, P.Check(p)))
    case LogWrite(p, b, i) =>
      var blockno := s.cache.cache.key[b].blockno;
      s.(cache := if blockno in Blocks(s) then s.cache else C.Apply(s.cache, C.Pin(b, i)),
         log := P.Apply(s.log, P.Write(p, blockno)),
         dirty := s.dirty - {b},
         pinned := L.Holding(Blocks(s), s.pinned, blockno, b),
         data := L.Stored(Blocks(s), s.data, blockno, s.cache.cache.data[b]))
    case End(p) =>
      var log := P.Apply(s.log, P.End(p));
      s.(log := log, phase := if log.log.committing then Committing(s.image, 0, p) else s.phase)
    case Copy(to, i, from) =>
      var d := s.cache.cache.data[from];
      Wrote(s, C.Apply(s.cache, C.Modify(to, i, d)), s.cache.cache.key[to], d)
    case Stamp(b, i) =>
      Wrote(s, C.Apply(s.cache, C.Modify(b, i, NewHead(s, b))), s.cache.cache.key[b], NewHead(s, b))
    case Install(to, i, from) =>
      var d := s.cache.cache.data[from];
      Wrote(s, C.Apply(C.Apply(s.cache, C.Modify(to, i, d)), C.Unpin(to, i)), s.cache.cache.key[to], d)
    case Finish =>
      s.(log := s.log.(log := P.Finished(P.Erased(s.log.log))), pinned := [], data := [], phase := Gathering)
  }

  // ----- The invariant -----

  /** A changed buffer is locked by a process inside an operation. */
  ghost predicate DirtyHeld(s: Sys) {
    forall b :: b in s.dirty ==> b in s.readers.lock && InOperation(s, s.readers.lock[b])
  }

  ghost predicate NoStray(s: Sys) {
    forall b :: 0 <= b < |s.cache.stray| ==> s.cache.stray[b] == 0
  }

  /** What keeps a list longer than the log from being written: there is none, since nobody
      appends between test and append or the log is long enough; or there are too few
      buffers to commit it. */
  ghost predicate Safe(s: Sys) {
    if P.Alone(s.log) then P.Guarded(s.log) else s.lay.size > W.LOGSIZE || |s.cache.held| <= s.lay.size
  }

  ghost predicate Frame(s: Sys) {
    && P.Inv(s.log) && Safe(s) && s.log.log.size == s.lay.size && |s.readers.refs| == |s.log.ops|
    && (s.log.log.committing <==> s.phase.Committing?)
    && R.Tallied(s.cache.held, s.readers) && NoStray(s) && DirtyHeld(s)
  }

  /** How many blocks have gone home after k writes of a commit of n blocks. */
  function Home(n: nat, k: nat): (h: nat)
    ensures h <= n
  {
    if k <= n + 1 then 0 else if k <= 2 * n + 1 then k - n - 1 else n
  }

  /** The cache in the middle of a commit: blocks that are not home yet are pinned with
      their data, all others are as on disk. */
  ghost predicate Midway(s: Sys, h: nat)
    requires h <= |Blocks(s)| == |s.pinned| == |s.data|
  {
    && L.Good(s.cache, s.image, s.lay, Blocks(s)[h..], s.pinned[h..], s.data[h..])
    && L.PinnedOnce(s.cache.pins, s.pinned[h..])
  }

  ghost predicate CommitInv(s: Sys)
    requires s.phase.Committing?
  {
    && S.Reached(s.lay, s.phase.base, Blocks(s), s.data, s.phase.k, s.image)
    && s.dirty == {} && |Blocks(s)| == |s.pinned| == |s.data| && Midway(s, Home(|Blocks(s)|, s.phase.k))
  }

  ghost predicate Inv(s: Sys) {
    && Frame(s)
    && if s.phase.Gathering? then L.Open(s.cache, s.image, s.lay, Blocks(s), s.pinned, s.data, s.dirty)
       else CommitInv(s)
  }

  /** Buffer b is pinned for a listed block. */
  predicate PinnedHome(s: Sys, b: nat)
    requires C.SysSized(s.cache) && b < |s.cache.held|
  {
    && s.cache.pins[b] == 1 && s.cache.cache.key[b].dev == s.lay.dev && s.cache.cache.key[b].blockno in Blocks(s)
    && !W.InLog(s.lay, s.cache.cache.key[b])
  }

  /** More blocks are listed than the log can take, and every buffer is pinned for one of
      them: none is left to commit with. */
  ghost predicate Stalled(s: Sys) {
    && Frame(s) && 2 <= s.lay.size <= |Blocks(s)| == |s.data|
    && W.WellFormed(s.lay, s.image) && W.Listed(s.image[W.HeadKey(s.lay)]) == []
    && C.Counted(s.cache) && (forall b :: 0 <= b < |s.cache.held| ==> PinnedHome(s, b))
    && (s.phase.Committing? ==> s.phase.k == 0 && s.phase.base == s.image && s.dirty == {})
  }

  /** What every run keeps. */
  ghost predicate Kept(s: Sys) {
    Inv(s) || Stalled(s)
  }

  // ----- Operations -----

  lemma LogStepSafe(s: Sys, a: P.Act)
    requires P.Inv(s.log) && Safe(s) && P.Enabled(s.log, a)
    ensures P.Inv(P.Apply(s.log, a)) && Safe(s.(log := P.Apply(s.log, a)))
    ensures |P.Apply(s.log, a).ops| == |s.log.ops| && P.Apply(s.log, a).log.size == s.log.log.size
  {
    hide P.Inv;
    P.StepKeeps(s.log, a);
    if P.Alone(s.log) {
      P.StepGuarded(s.log, a);
    }
  }

  /** Whoever is in an operation, no commit is running. */
  lemma InOperationGathering(s: Sys, p: nat)
    requires Frame(s) && InOperation(s, p)
    ensures s.phase.Gathering?
  {
    P.OneCounts(s.log.ops, p);
  }

  lemma BeginKeeps(s: Sys, p: nat)
    requires Inv(s) && Enabled(s, Begin(p))
    ensures Inv(Apply(s, Begin(p)))
  {
    hide L.Open, R.Tallied, CommitInv;
    LogStepSafe(s, P.Begin(p));
  }

  lemma CheckKeeps(s: Sys, p: nat, b: nat)
    requires Inv(s) && Enabled(s, Check(p, b))
    ensures Inv(Apply(s, Check(p, b)))
  {
    hide L.Open, R.Tallied, CommitInv;
    LogStepSafe(s, P.Check(p));
  }

  lemma ReadKeepsCache(s: Sys, a: R.Step)
    requires Inv(s) && Enabled(s, Read(a))
    ensures var t := Apply(s, Read(a));
      && C.Counted(s.cache) && t.cache.stray == s.cache.stray && |t.cache.held| == |s.cache.held|
      && if s.phase.Gathering? then L.Open(t.cache, t.image, t.lay, Blocks(t), t.pinned, t.data, t.dirty)
         else CommitInv(t)
  {
    hide R.Tallied, L.PinnedOnce, S.Reached;
    if s.phase.Gathering? {
      match a
      case Get(p, b, i, k) =>
        L.ReadKeepsSound(s.cache, C.Get(b, i, k), s.image, s.lay, Blocks(s), s.pinned, s.data, s.dirty);
      case Lock(p, b) =>
      case Fill(p, b, i) =>
        var d := s.image[s.cache.cache.key[b]];
        L.ReadKeepsSound(s.cache, C.Fill(b, i, d), s.image, s.lay, Blocks(s), s.pinned, s.data, s.dirty);
      case Unlock(p, b) =>
      case Drop(p, b, i) =>
        L.ReadKeepsSound(s.cache, C.Release(b, i), s.image, s.lay, Blocks(s), s.pinned, s.data, s.dirty);
    } else {
      var h := Home(|Blocks(s)|, s.phase.k);
      L.ReaderKeepsGood(s.cache, s.readers, a, s.image, s.lay, Blocks(s)[h..], s.pinned[h..], s.data[h..]);
    }
  }

  lemma ReadKeeps(s: Sys, a: R.Step)
    requires Inv(s) && Enabled(s, Read(a))
    ensures Inv(Apply(s, Read(a))) && |Apply(s, Read(a)).readers.refs| == |s.readers.refs|
  {
    hide L.Open, R.Tallied, CommitInv, C.Counted, C.Enabled, C.Apply;
    ReadKeepsCache(s, a);
    R.StepTallied(s.cache, s.readers, a, s.image);
  }

  lemma ModifyKeeps(s: Sys, p: nat, b: nat, i: nat, d: Block)
    requires Inv(s) && Enabled(s, Modify(p, b, i, d))
    ensures Inv(Apply(s, Modify(p, b, i, d)))
  {
    hide R.Tallied, L.Sound;
    InOperationGathering(s, p);
    L.ModifyKeepsSound(s.cache, s.image, s.lay, Blocks(s), s.pinned, s.data, s.dirty, b, i, d);
  }

  lemma OpenSized(s: Sys)
    requires L.Open(s.cache, s.image, s.lay, Blocks(s), s.pinned, s.data, s.dirty)
    ensures C.Counted(s.cache) && |s.data| == |Blocks(s)|
  {
  }

  lemma LogWriteFrame(s: Sys, p: nat, b: nat, i: nat)
    requires Frame(s) && s.phase.Gathering? && Enabled(s, LogWrite(p, b, i))
    ensures Frame(Apply(s, LogWrite(p, b, i)))
    ensures |Blocks(Apply(s, LogWrite(p, b, i)))| <= W.LOGSIZE
  {
    hide R.Tallied;
    var a := P.Write(p, s.cache.cache.key[b].blockno);
    LogStepSafe(s, a);
    P.SumBounds(P.Apply(s.log, a).ops);
  }

  /** log_write keeps the transaction ready to commit, unless it lists one block more than
      the log can take; then no buffer is left. */
  lemma LogWriteKeeps(s: Sys, p: nat, b: nat, i: nat)
    requires Inv(s) && Enabled(s, LogWrite(p, b, i))
    ensures var t := Apply(s, LogWrite(p, b, i)); if |Blocks(t)| < t.lay.size then Inv(t) else Stalled(t)
  {
    hide Frame, L.Sound, W.Ready, L.PinnedOnce;
    var t, blockno := Apply(s, LogWrite(p, b, i)), s.cache.cache.key[b].blockno;
    InOperationGathering(s, p);
    OpenSized(s);
    LogWriteFrame(s, p, b, i);
    ListFits(s);
    if blockno in Blocks(s) {
      L.AbsorbKeepsOpen(s.cache, s.image, s.lay, Blocks(s), s.pinned, s.data, s.dirty, b);
    } else {
      NoStrayAt(s, b);
      if |Blocks(t)| < t.lay.size {
        L.ListKeepsOpen(s.cache, s.image, s.lay, Blocks(s), s.pinned, s.data, s.dirty, b, i);
      } else {
        LastStalls(s, p, b, i);
      }
    }
  }

  lemma NoStrayAt(s: Sys, b: nat)
    requires Frame(s) && b < |s.cache.stray|
    ensures s.cache.stray[b] == 0
  {
  }

  /** The block that is one too many takes the last buffer. */
  lemma LastStalls(s: Sys, p: nat, b: nat, i: nat)
    requires Inv(s) && s.phase.Gathering? && Enabled(s, LogWrite(p, b, i)) && Frame(Apply(s, LogWrite(p, b, i)))
    requires s.cache.cache.key[b].blockno !in Blocks(s) && |Blocks(s)| + 1 >= s.lay.size
    requires |Blocks(s)| < W.LOGSIZE
    ensures Stalled(Apply(s, LogWrite(p, b, i)))
  {
    hide Frame, L.Sound, L.PinnedOnce, C.CountedAt, W.WellFormed;
    var t := Apply(s, LogWrite(p, b, i));
    FewBuffers(s, p);
    OpenSized(s);
    C.StepKeeps(s.cache, C.Pin(b, i));
    forall c | 0 <= c < |t.cache.held|
      ensures PinnedHome(t, c)
    {
      PinnedNow(s, b, i, c);
      assert forall j :: 0 <= j < |Blocks(s)| ==> Blocks(t)[j] == Blocks(s)[j];
      assert Blocks(t)[|Blocks(s)|] == s.cache.cache.key[b].blockno;
    }
  }

  lemma FewBuffers(s: Sys, p: nat)
    requires Frame(s) && p in s.log.tested && |Blocks(s)| < W.LOGSIZE && |Blocks(s)| + 1 >= s.lay.size
    ensures s.lay.size >= 2 && |s.cache.held| <= |Blocks(s)| + 1
  {
  }

  lemma PinnedNow(s: Sys, b: nat, i: nat, c: nat)
    requires L.Open(s.cache, s.image, s.lay, Blocks(s), s.pinned, s.data, s.dirty) && C.Enabled(s.cache, C.Pin(b, i))
    requires s.cache.cache.key[b].blockno !in Blocks(s) && c < |s.cache.held| <= |Blocks(s)| + 1
    ensures b !in s.pinned && C.Apply(s.cache, C.Pin(b, i)).pins[c] == 1
    ensures c == b || (s.cache.cache.key[c].blockno in Blocks(s) && s.cache.cache.key[c].dev == s.lay.dev
                       && !W.InLog(s.lay, s.cache.cache.key[c]))
  {
    L.NotYetPinned(s.cache, s.lay, Blocks(s), s.pinned, s.data, s.dirty, b);
    PinnedDistinct(s);
    AllPinned(s.pinned + [b], |s.cache.held|);
    assert L.PinnedOnceAt(s.cache.pins, s.pinned, c);
    if c != b {
      assert c in s.pinned + [b];
      var j :| 0 <= j < |s.pinned| && s.pinned[j] == c;
      assert L.LoggedAt(s.cache, s.lay, Blocks(s)[j], s.pinned[j], s.data[j], s.dirty);
    }
  }

  lemma PinnedDistinct(s: Sys)
    requires L.Open(s.cache, s.image, s.lay, Blocks(s), s.pinned, s.data, s.dirty)
    ensures P.NoRepeats(s.pinned) && forall j :: 0 <= j < |s.pinned| ==> s.pinned[j] < |s.cache.held|
  {
    forall j | 0 <= j < |s.pinned|
      ensures s.pinned[j] < |s.cache.held| && s.cache.cache.key[s.pinned[j]] == W.HomeKey(s.lay, Blocks(s)[j])
    {
      assert L.LoggedAt(s.cache, s.lay, Blocks(s)[j], s.pinned[j], s.data[j], s.dirty);
    }
  }

  /** As many different buffers as there are, or more, are all of them. */
  lemma AllPinned(pinned: seq<nat>, n: nat)
    requires P.NoRepeats(pinned) && (forall j :: 0 <= j < |pinned| ==> pinned[j] < n) && |pinned| >= n
    ensures forall c :: 0 <= c < n ==> c in pinned
  {
    var all, these := P.Elements(P.Numbers(0, n)), P.Elements(pinned);
    DistinctElements(P.Numbers(0, n));
    DistinctElements(pinned);
    forall c | c in these
      ensures c in all
    {
      assert P.Numbers(0, n)[c] == c;
    }
    assert these <= all && these + (all - these) == all;
    assert |all - these| == 0 && all <= these;
    forall c | 0 <= c < n
      ensures c in pinned
    {
      assert P.Numbers(0, n)[c] == c;
      assert c in all && c in these;
    }
  }

  lemma {:induction false} DistinctElements(s: seq<nat>)
    requires P.NoRepeats(s)
    ensures |P.Elements(s)| == |s|
  {
    if s != [] {
      var n := |s| - 1;
      DistinctElements(s[..n]);
      P.ElementsOfMore(s[..n], s[n]);
      assert s == s[..n] + [s[n]];
    }
  }

  /** With nobody in an operation nothing is dirty: whoever held a dirty buffer would
      still be in one. */
  lemma NothingDirty(s: Sys)
    requires DirtyHeld(s) && P.Inv(s.log) && s.log.log.committing
    ensures s.dirty == {}
  {
    forall b | b in s.dirty
      ensures false
    {
      P.OneCounts(s.log.ops, s.readers.lock[b]);
    }
  }

  /** The cache when a commit begins. */
  lemma OpenIsMidway(s: Sys)
    requires s.dirty == {} && L.Open(s.cache, s.image, s.lay, Blocks(s), s.pinned, s.data, {})
    ensures |Blocks(s)| == |s.pinned| == |s.data| && Midway(s, 0)
  {
    L.SoundIsGood(s.cache, s.image, s.lay, Blocks(s), s.pinned, s.data);
    assert Blocks(s)[0..] == Blocks(s) && s.pinned[0..] == s.pinned && s.data[0..] == s.data;
  }

  lemma EndKeeps(s: Sys, p: nat)
    requires Inv(s) && Enabled(s, End(p))
    ensures Inv(Apply(s, End(p)))
  {
    hide R.Tallied, L.Open, S.Reached, Midway;
    var t := Apply(s, End(p));
    InOperationGathering(s, p);
    LogStepSafe(s, P.End(p));
    assert DirtyHeld(t);
    if t.log.log.committing {
      NothingDirty(t);
      OpenIsMidway(t);
      OpenReady(s);
      S.Starts(s.lay, s.image, Blocks(s), s.data);
    }
  }

  lemma OpenReady(s: Sys)
    requires L.Open(s.cache, s.image, s.lay, Blocks(s), s.pinned, s.data, s.dirty)
    ensures W.Ready(s.lay, s.image, Blocks(s), s.data)
  {
  }

  // ----- The commit -----

  /** A valid buffer of a block that is not home yet is the pinned one, and has the data to
      commit; that of a block of the log is as on disk. */
  lemma BufferOf(s: Sys, h: nat, b: nat, j: nat)
    requires h <= |Blocks(s)| == |s.pinned| == |s.data| && Midway(s, h) && h <= j < |Blocks(s)|
    requires b < |s.cache.cache.valid| && b < |s.cache.cache.key| && b < |s.cache.cache.data|
    requires s.cache.cache.valid[b] && s.cache.cache.key[b] == W.HomeKey(s.lay, Blocks(s)[j])
    ensures b == s.pinned[j] && s.cache.cache.data[b] == s.data[j]
  {
    assert L.PinnedAt(s.cache, s.lay, Blocks(s)[h..][j - h], s.pinned[h..][j - h], s.data[h..][j - h]);
    L.ValidUnique(s.cache, b, s.pinned[j]);
  }

  lemma LogBufferOf(s: Sys, h: nat, b: nat)
    requires h <= |Blocks(s)| == |s.pinned| == |s.data| && Midway(s, h) && W.Loggable(s.lay, Blocks(s))
    requires b < |s.cache.cache.valid| && b < |s.cache.cache.key| && b < |s.cache.cache.data|
    requires s.cache.cache.valid[b] && W.InLog(s.lay, s.cache.cache.key[b])
    ensures s.cache.cache.key[b].blockno !in Blocks(s)[h..]
    ensures s.cache.cache.key[b] in s.image && s.cache.cache.data[b] == s.image[s.cache.cache.key[b]]
  {
    forall j | 0 <= j < |Blocks(s)[h..]|
      ensures Blocks(s)[h..][j] != s.cache.cache.key[b].blockno
    {
      assert !W.InLog(s.lay, W.HomeKey(s.lay, Blocks(s)[h + j]));
    }
    assert L.CoherentAt(s.cache, s.image, s.lay, Blocks(s)[h..], b);
  }

  /** The data to commit and the log are as the state of the commit says. */
  lemma CommitParts(s: Sys)
    requires Inv(s) && s.phase.Committing?
    ensures W.Ready(s.lay, s.phase.base, Blocks(s), s.data) && W.Loggable(s.lay, Blocks(s))
    ensures |Blocks(s)| == |s.pinned| == |s.data| <= W.LOGSIZE && P.NoRepeats(Blocks(s))
    ensures S.SlotsAfter(s.lay, s.data, s.phase.k, s.image) && W.HeadKey(s.lay) in s.image
    ensures s.image[W.HeadKey(s.lay)] == S.HeadAfter(s.phase.base[W.HeadKey(s.lay)], Blocks(s), s.phase.k)
  {
  }

  /** One write through a buffer of the log, which leaves the blocks of h on to go home. */
  lemma WriteMidway(s: Sys, h: nat, b: nat, i: nat, d: Block)
    requires h <= |Blocks(s)| == |s.pinned| == |s.data| && Midway(s, h) && W.Loggable(s.lay, Blocks(s))
    requires C.Enabled(s.cache, C.Modify(b, i, d)) && s.cache.cache.valid[b] && W.InLog(s.lay, s.cache.cache.key[b])
    requires s.phase.Committing?
    ensures Midway(Wrote(s, C.Apply(s.cache, C.Modify(b, i, d)), s.cache.cache.key[b], d), h)
  {
    LogBufferOf(s, h, b);
    L.WriteThroughKeepsGood(s.cache, s.image, s.lay, Blocks(s)[h..], s.pinned[h..], s.data[h..], b, i, d);
  }

  lemma CopyKeeps(s: Sys, to: nat, i: nat, from: nat)
    requires Inv(s) && Enabled(s, Copy(to, i, from))
    ensures Inv(Apply(s, Copy(to, i, from)))
  {
    hide R.Tallied, Midway, P.Inv, S.Reached, W.Ready;
    var k, n := s.phase.k, |Blocks(s)|;
    CommitParts(s);
    BufferOf(s, 0, from, k);
    WriteMidway(s, 0, to, i, s.cache.cache.data[from]);
    S.GoesOn(s.lay, s.phase.base, Blocks(s), s.data, k, s.image);
  }

  lemma StampKeeps(s: Sys, b: nat, i: nat)
    requires Inv(s) && Enabled(s, Stamp(b, i))
    ensures Inv(Apply(s, Stamp(b, i)))
  {
    hide R.Tallied, Midway, P.Inv, S.Reached, W.Ready;
    var k, n := s.phase.k, |Blocks(s)|;
    CommitParts(s);
    LogBufferOf(s, Home(n, k), b);
    WriteMidway(s, Home(n, k), b, i, NewHead(s, b));
    S.GoesOn(s.lay, s.phase.base, Blocks(s), s.data, k, s.image);
  }

  lemma InstallMidway(s: Sys, h: nat, to: nat, i: nat, d: Block)
    requires s.phase.Committing? && h < |Blocks(s)| == |s.pinned| == |s.data| && Midway(s, h) && P.NoRepeats(Blocks(s))
    requires C.Enabled(s.cache, C.Modify(to, i, d)) && s.cache.cache.valid[to] && d == s.data[h] && to == s.pinned[h]
    requires s.cache.cache.key[to] == W.HomeKey(s.lay, Blocks(s)[h])
    ensures C.Enabled(C.Apply(s.cache, C.Modify(to, i, d)), C.Unpin(to, i))
    ensures var cache := C.Apply(C.Apply(s.cache, C.Modify(to, i, d)), C.Unpin(to, i));
      Midway(Wrote(s, cache, s.cache.cache.key[to], d), h + 1)
  {
    hide L.Good, L.PinnedOnce;
    var rest, pins, data := Blocks(s)[h..], s.pinned[h..], s.data[h..];
    L.PutHomeKeepsGood(s.cache, s.image, s.lay, rest, pins, data, to, i, d);
    L.UnpinsFirst(s.cache, s.image, s.lay, rest, pins, data);
    assert L.Tail(rest) == Blocks(s)[h + 1..] && L.Tail(pins) == s.pinned[h + 1..] == pins[1..];
    assert L.Tail(data) == s.data[h + 1..];
  }

  lemma InstallKeeps(s: Sys, to: nat, i: nat, from: nat)
    requires Inv(s) && Enabled(s, Install(to, i, from))
    ensures Inv(Apply(s, Install(to, i, from)))
  {
    hide R.Tallied, Midway, P.Inv, S.Reached, W.Ready;
    var k, n := s.phase.k, |Blocks(s)|;
    var h := k - n - 1;
    CommitParts(s);
    assert Home(n, k) == h && Home(n, k + 1) == h + 1;
    LogBufferOf(s, h, from);
    BufferOf(s, h, to, h);
    InstallMidway(s, h, to, i, s.cache.cache.data[from]);
    S.GoesOn(s.lay, s.phase.base, Blocks(s), s.data, k, s.image);
  }

  /** What a commit leaves: its writes on the disk, an empty log, no block pinned, and
      other processes with whatever references their reading gave them. */
  ghost predicate Committed(s: Sys, t: Sys)
    requires s.phase.Committing?
  {
    && t.lay == s.lay && t.log == s.log.(log := P.Finished(P.Erased(s.log.log))) && t.phase.Gathering?
    && |t.cache.held| == |s.cache.held|
    && |s.data| == |Blocks(s)| < WORDS && W.HeadKey(s.lay) in s.phase.base
    && t.image == After(s.phase.base, W.CommitWrites(s.lay, s.phase.base[W.HeadKey(s.lay)], Blocks(s), s.data))
    && t.dirty == {} && t.pinned == [] && t.data == []
    && L.Good(t.cache, t.image, t.lay, [], [], []) && L.PinnedOnce(t.cache.pins, []) && NoStray(t)
    && R.Tallied(t.cache.held, t.readers) && |t.readers.refs| == |s.readers.refs|
  }

  lemma FinishCommits(s: Sys)
    requires Inv(s) && Enabled(s, Finish)
    ensures Committed(s, Apply(s, Finish))
  {
    hide R.Tallied, P.Inv, L.Good, L.PinnedOnce, S.Reached;
    var n := |Blocks(s)|;
    CommitParts(s);
    S.Ends(s.lay, s.phase.base, Blocks(s), s.data, s.phase.k, s.image);
    assert Home(n, s.phase.k) == n;
    assert Blocks(s)[n..] == [] && s.pinned[n..] == [] && s.data[n..] == [];
  }

  /** After a commit the next transaction can begin. */
  lemma CommittedInv(s: Sys, t: Sys)
    requires Inv(s) && s.phase.Committing? && Committed(s, t)
    ensures Inv(t)
  {
    hide R.Tallied, L.Good, S.Reached;
    CommitParts(s);
    LogStepSafe(s, P.Erase);
    LogStepSafe(s.(log := P.Apply(s.log, P.Erase)), P.Finish);
    L.SoundIsGood(t.cache, t.image, t.lay, [], [], []);
    W.CommitDone(s.lay, s.phase.base, Blocks(s), s.data);
  }

  /** A holder can always change its buffer. */
  lemma HolderMayWrite(s: Sys, b: nat, d: Block) returns (i: nat)
    requires Inv(s) && s.phase.Committing? && Holds(s, s.phase.who, b)
    ensures C.Enabled(s.cache, C.Modify(b, i, d))
  {
    hide P.Inv, S.Reached, L.PinnedOnce;
    i := C.PositionOf(s.cache.cache, b);
    assert R.TallyAt(s.cache.held, s.readers, b);
    R.HoldersAfter(s.readers.refs, s.readers.lock[b], {}, b);
  }

  /** The buffers that the next write of a commit goes to and comes from. */
  predicate Fetched(s: Sys, to: nat, from: nat)
    requires s.phase.Committing?
  {
    var k, n := s.phase.k, |Blocks(s)|;
    if k < n then Ready(s, to, W.SlotKey(s.lay, k)) && Ready(s, from, W.HomeKey(s.lay, Blocks(s)[k]))
    else if n < k <= 2 * n then
      Ready(s, to, W.HomeKey(s.lay, Blocks(s)[k - n - 1])) && Ready(s, from, W.SlotKey(s.lay, k - n - 1))
    else Ready(s, to, W.HeadKey(s.lay))
  }

  function NextWrite(s: Sys, to: nat, from: nat, i: nat): Step
    requires s.phase.Committing?
  {
    var k, n := s.phase.k, |Blocks(s)|;
    if k < n then Copy(to, i, from) else if n < k <= 2 * n then Install(to, i, from) else Stamp(to, i)
  }

  /** Once the committing process has the buffers of its next write, nothing keeps it from
      that write. */
  lemma CommitGoesOn(s: Sys, to: nat, from: nat) returns (i: nat)
    requires Inv(s) && s.phase.Committing? && !Enabled(s, Finish) && Fetched(s, to, from)
    ensures Enabled(s, NextWrite(s, to, from, i))
  {
    hide Inv, P.Inv, R.Tallied, S.Reached, W.Ready, Midway;
    var k, n := s.phase.k, |Blocks(s)|;
    CommitParts(s);
    CommitBound(s);
    if n < k <= 2 * n {
      i := InstallGoesOn(s, to, from);
    } else {
      var d := if k < n then s.cache.cache.data[from] else NewHead(s, to);
      i := HolderMayWrite(s, to, d);
    }
  }

  lemma InstallGoesOn(s: Sys, to: nat, from: nat) returns (i: nat)
    requires Inv(s) && s.phase.Committing? && |Blocks(s)| < s.phase.k <= 2 * |Blocks(s)| && Fetched(s, to, from)
    ensures Enabled(s, Install(to, i, from))
  {
    hide P.Inv, R.Tallied, S.Reached, W.Ready, Midway;
    var h := s.phase.k - |Blocks(s)| - 1;
    CommitParts(s);
    i := HolderMayWrite(s, to, s.cache.cache.data[from]);
    LogBufferOf(s, h, from);
    BufferOf(s, h, to, h);
    InstallMidway(s, h, to, i, s.cache.cache.data[from]);
  }

  lemma CommitBound(s: Sys)
    requires Inv(s) && s.phase.Committing?
    ensures s.phase.k <= if Blocks(s) == [] then 0 else 2 * |Blocks(s)| + 2
  {
    if Blocks(s) != [] {
      S.NthIs(s.lay, s.phase.base[W.HeadKey(s.lay)], Blocks(s), s.data, 0);
    }
  }

  lemma StepOfInv(s: Sys, a: Step)
    requires Inv(s) && Enabled(s, a)
    ensures var t := Apply(s, a); if |Blocks(t)| < t.lay.size then Inv(t) else Stalled(t)
    ensures Apply(s, a).lay == s.lay && |Apply(s, a).readers.refs| == |s.readers.refs|
  {
    hide Inv, Committed, Stalled;
    match a {
      case Begin(p) => BeginKeeps(s, p);
      case Read(a) => ReadKeeps(s, a);
      case Modify(p, b, i, d) => ModifyKeeps(s, p, b, i, d);
      case Check(p, b) => CheckKeeps(s, p, b);
      case LogWrite(p, b, i) => LogWriteKeeps(s, p, b, i);
      case End(p) => EndKeeps(s, p);
      case Copy(to, i, from) => CopyKeeps(s, to, i, from);
      case Stamp(b, i) => StampKeeps(s, b, i);
      case Install(to, i, from) => InstallKeeps(s, to, i, from);
      case Finish =>
        FinishCommits(s);
        CommittedInv(s, Apply(s, a));
    }
    ListFits(Apply(s, a));
  }

  lemma ListFits(s: Sys)
    ensures Inv(s) ==> |Blocks(s)| < s.lay.size
  {
  }

  // ----- Without a buffer to commit with -----

  /** No buffer can be recycled and none holds a block of the log. */
  lemma StalledCache(s: Sys, b: nat)
    requires Stalled(s) && b < |s.cache.held| && s.cache.held[b] + s.cache.pins[b] < C.UINT
    ensures b < |s.cache.cache.refcnt| && s.cache.cache.refcnt[b] > 0
    ensures b < |s.cache.cache.key| && !W.InLog(s.lay, s.cache.cache.key[b])
  {
    assert PinnedHome(s, b);
    L.RefcntIs(s.cache, b);
  }

  lemma StalledRead(s: Sys, a: R.Step)
    requires Stalled(s) && Enabled(s, Read(a))
    ensures Stalled(Apply(s, Read(a))) && |Apply(s, Read(a)).readers.refs| == |s.readers.refs|
  {
    hide P.Inv, R.Tallied, C.CountedAt, W.WellFormed;
    var t := Apply(s, Read(a));
    R.StepTallied(s.cache, s.readers, a, s.image);
    if a.Get? {
      StalledCache(s, a.b);
    }
    forall b | 0 <= b < |t.cache.held|
      ensures PinnedHome(t, b)
    {
      assert PinnedHome(s, b);
    }
  }

  lemma StalledModify(s: Sys, p: nat, b: nat, i: nat, d: Block)
    requires Stalled(s) && Enabled(s, Modify(p, b, i, d))
    ensures Stalled(Apply(s, Modify(p, b, i, d)))
  {
    hide P.Inv, R.Tallied, C.CountedAt, W.WellFormed;
    var t := Apply(s, Modify(p, b, i, d));
    InOperationGathering(s, p);
    C.StepKeeps(s.cache, C.Modify(b, i, d));
    forall c | 0 <= c < |t.cache.held|
      ensures PinnedHome(t, c)
    {
      assert PinnedHome(s, c);
    }
  }

  lemma StalledLogWrite(s: Sys, p: nat, b: nat, i: nat)
    requires Stalled(s) && Enabled(s, LogWrite(p, b, i))
    ensures Stalled(Apply(s, LogWrite(p, b, i)))
  {
    hide Frame, C.CountedAt, W.WellFormed;
    InOperationGathering(s, p);
    LockIsBuffer(s, b);
    assert PinnedHome(s, b);
    LogWriteFrame(s, p, b, i);
    var t := Apply(s, LogWrite(p, b, i));
    forall c | 0 <= c < |t.cache.held|
      ensures PinnedHome(t, c)
    {
      assert PinnedHome(s, c);
    }
  }

  lemma LockIsBuffer(s: Sys, b: nat)
    requires Frame(s) && b in s.readers.lock
    ensures b < |s.cache.held|
  {
  }

  /** begin_op, the test of log_write and end_op. */
  lemma StalledLog(s: Sys, a: Step)
    requires Stalled(s) && Enabled(s, a) && (a.Begin? || a.Check? || a.End?)
    ensures Stalled(Apply(s, a))
  {
    hide R.Tallied, C.CountedAt, W.WellFormed;
    var t := Apply(s, a);
    var act := match a {
      case Begin(p) => P.Begin(p)
      case Check(p, _) => P.Check(p)
      case End(p) => P.End(p)
      case _ => P.Erase
    };
    LogStepSafe(s, act);
    if a.End? {
      InOperationGathering(s, a.p);
      assert DirtyHeld(t);
      if t.log.log.committing {
        NothingDirty(t);
      }
    }
    forall c | 0 <= c < |t.cache.held|
      ensures PinnedHome(t, c)
    {
      assert PinnedHome(s, c);
    }
  }

  lemma StalledHolds(s: Sys, b: nat)
    requires Stalled(s) && b in s.readers.lock
    ensures b < |s.cache.cache.key| && !W.InLog(s.lay, s.cache.cache.key[b])
  {
    LockIsBuffer(s, b);
    assert PinnedHome(s, b);
  }

  /** The commit cannot even begin: whoever has a buffer has none of the log. */
  lemma StalledCommit(s: Sys, a: Step)
    requires Stalled(s) && Enabled(s, a)
    ensures !a.Copy? && !a.Stamp? && !a.Install? && !a.Finish?
  {
    hide P.Inv, R.Tallied, C.CountedAt, W.WellFormed;
    if a.Copy? {
      StalledHolds(s, a.to);
    }
  }

  lemma StepOfStalled(s: Sys, a: Step)
    requires Stalled(s) && Enabled(s, a)
    ensures Stalled(Apply(s, a)) && Apply(s, a).lay == s.lay && |Apply(s, a).readers.refs| == |s.readers.refs|
  {
    hide Stalled;
    StalledCommit(s, a);
    match a
    case Read(a) => StalledRead(s, a);
    case Modify(p, b, i, d) => StalledModify(s, p, b, i, d);
    case LogWrite(p, b, i) => StalledLogWrite(s, p, b, i);
    case _ => StalledLog(s, a);
  }

  lemma StepKeeps(s: Sys, a: Step)
    requires Kept(s) && Enabled(s, a)
    ensures Kept(Apply(s, a)) && Apply(s, a).lay == s.lay && |Apply(s, a).readers.refs| == |s.readers.refs|
  {
    hide Inv, Stalled;
    if Inv(s) {
      StepOfInv(s, a);
    } else {
      StepOfStalled(s, a);
    }
  }

  // ----- Whole runs -----

  ghost predicate Reaches(s: Sys, acts: seq<Step>, t: Sys)
    decreases |acts|
  {
    if acts == [] then s == t
    else Enabled(s, acts[0]) && Reaches(Apply(s, acts[0]), acts[1..], t)
  }

  lemma {:induction false} RunKeeps(s: Sys, acts: seq<Step>, t: Sys)
    requires Kept(s) && Reaches(s, acts, t)
    ensures Kept(t) && t.lay == s.lay && |t.readers.refs| == |s.readers.refs|
    decreases |acts|
  {
    hide Kept, Enabled, Apply;
    if acts != [] {
      StepKeeps(s, acts[0]);
      RunKeeps(Apply(s, acts[0]), acts[1..], t);
    }
  }

  lemma {:induction false} Join(s: Sys, first: seq<Step>, t: Sys, second: seq<Step>, u: Sys)
    requires Reaches(s, first, t) && Reaches(t, second, u)
    ensures Reaches(s, first + second, u)
    decreases |first|
  {
    hide Enabled, Apply;
    if first == [] {
      assert first + second == second;
    } else {
      assert (first + second)[1..] == first[1..] + second;
      Join(Apply(s, first[0]), first[1..], t, second, u);
    }
  }

  /** The system once an empty log has been recovered: nobody has a buffer, the cache
      agrees with the disk, and no unpin has been a stray one. */
  ghost predicate Booted(s: Sys, procs: nat) {
    && s.log == P.Start(s.lay.size, procs) && s.readers == R.Nobody(procs) && s.phase == Gathering
    && s.dirty == {} && s.pinned == [] && s.data == []
    && W.WellFormed(s.lay, s.image) && W.Listed(s.image[W.HeadKey(s.lay)]) == []
    && L.Good(s.cache, s.image, s.lay, [], [], [])
    && forall b :: 0 <= b < |s.cache.held| ==> s.cache.held[b] == 0 && s.cache.pins[b] == 0 && s.cache.stray[b] == 0
  }

  /** A log and a cache with which crashes are harmless.  The log that mkfs makes has LOGSIZE
      blocks, and kernel/param.h has as many buffers. */
  predicate Protected(size: nat, procs: nat, buffers: nat) {
    size <= 1 || procs <= 1 || size > W.LOGSIZE || buffers <= size
  }

  lemma BootedInv(s: Sys, procs: nat)
    requires Booted(s, procs) && Protected(s.lay.size, procs, |s.cache.held|)
    ensures Inv(s)
  {
    P.StartSafe(s.lay.size, procs);
    L.SoundIsGood(s.cache, s.image, s.lay, [], [], []);
    R.NobodyTallied(s.cache.held, procs);
  }

  /** What every block outside the log will hold after a crash now and recovery: in a
      commit, what it held before or what the commit gives it, the latter just when the
      committing header write has been issued. */
  ghost function Survives(s: Sys): Image
    requires |s.data| == |Blocks(s)|
  {
    if s.phase.Gathering? then s.image else W.Outcome(s.lay, s.phase.base, Blocks(s), s.data, s.phase.k)
  }

  /** Crash in state s, and any number of times in the recoveries after it, up to disk e: the
      next recovery gives all of the transaction or nothing. */
  ghost predicate Atomic(s: Sys, e: Image) {
    |s.data| == |Blocks(s)| && W.WellFormed(s.lay, e) && W.SameHome(s.lay, W.Recovered(s.lay, e), Survives(s))
  }

  lemma KeptCrash(s: Sys, cuts: seq<nat>, e: Image)
    requires Kept(s) && W.Interrupted(s.lay, s.image, cuts, e)
    ensures Atomic(s, e)
  {
    if s.phase.Gathering? || Stalled(s) {
      EmptyLog(s);
      W.RecoverNothing(s.lay, s.image);
      W.InterruptionsDoNotMatter(s.lay, s.image, cuts, e);
      W.SameHomeTrans(s.lay, W.Recovered(s.lay, e), W.Recovered(s.lay, s.image), s.image);
    } else {
      S.Cut(s.lay, s.phase.base, Blocks(s), s.data, s.phase.k, s.image, cuts, e);
    }
  }

  lemma EmptyLog(s: Sys)
    requires Kept(s) && (s.phase.Gathering? || Stalled(s))
    ensures W.WellFormed(s.lay, s.image) && W.Listed(s.image[W.HeadKey(s.lay)]) == []
    ensures |s.data| == |Blocks(s)| && Survives(s) == s.image
  {
  }

  /** In every run of any number of processes, from boot through any number of
      transactions, a crash at any moment, and any crashes in the recoveries that follow,
      leave each transaction whole or not at all; ShortLog.CrashesAtomicIff shows that the
      condition on the log is exact. */
  lemma EveryCrashIsAtomic(s: Sys, procs: nat, acts: seq<Step>, t: Sys, cuts: seq<nat>, e: Image)
    requires Booted(s, procs) && Protected(s.lay.size, procs, |s.cache.held|)
    requires Reaches(s, acts, t) && W.Interrupted(t.lay, t.image, cuts, e)
    ensures Atomic(t, e)
  {
    BootedInv(s, procs);
    RunKeeps(s, acts, t);
    KeptCrash(t, cuts, e);
  }

  lemma BootedKept(s: Sys, procs: nat, acts: seq<Step>, t: Sys)
    requires Booted(s, procs) && Protected(s.lay.size, procs, |s.cache.held|) && Reaches(s, acts, t)
    ensures Kept(t)
  {
    BootedInv(s, procs);
    RunKeeps(s, acts, t);
  }

  lemma StalledWritesNothing(s: Sys)
    requires Kept(s) && s.phase.Committing? && s.phase.k > 0
    ensures |Blocks(s)| < s.lay.size
  {
    ListFits(s);
  }

  /** In such a run a list that is too long for the log has taken every buffer: its commit
      issues no write, since no buffer can be had for the first block of the log. */
  lemma OverrunStalls(s: Sys, procs: nat, acts: seq<Step>, t: Sys, a: Step, b: nat)
    requires Booted(s, procs) && Protected(s.lay.size, procs, |s.cache.held|) && procs + 5 < C.UINT
    requires Reaches(s, acts, t) && t.phase.Committing? && |Blocks(t)| >= t.lay.size
    ensures t.image == t.phase.base && (Enabled(t, a) ==> a.Read?)
    ensures b < |t.cache.held| ==>
      && b < |t.cache.cache.refcnt| && t.cache.cache.refcnt[b] > 0
      && b < |t.cache.cache.key| && t.cache.cache.key[b] != W.SlotKey(t.lay, 0)
  {
    hide Inv;
    BootedInv(s, procs);
    RunKeeps(s, acts, t);
    ListFits(t);
    if Enabled(t, a) {
      StalledCommit(t, a);
      CommittingReads(t, a);
    }
    if b < |t.cache.held| {
      CountsNeverWrap(s, procs, acts, t, b);
      StalledCache(t, b);
      assert W.InLog(t.lay, W.SlotKey(t.lay, 0));
    }
  }

  /** During a commit there are only the steps of the commit and readers. */
  lemma CommittingReads(s: Sys, a: Step)
    requires Frame(s) && s.phase.Committing? && Enabled(s, a)
    ensures a.Read? || a.Copy? || a.Stamp? || a.Install? || a.Finish?
  {
    hide R.Tallied;
    match a
    case Modify(p, b, i, d) => InOperationGathering(s, p);
    case Check(p, b) => InOperationGathering(s, p);
    case LogWrite(p, b, i) => InOperationGathering(s, p);
    case End(p) => InOperationGathering(s, p);
    case _ =>
  }

  /** The data to commit for the j-th listed block is what its buffer holds. */
  predicate LastStored(s: Sys, j: nat) {
    && j < |Blocks(s)| && j < |s.data| && j < |s.pinned| && s.pinned[j] < |s.cache.cache.data|
    && s.pinned[j] < |s.cache.cache.key| && s.cache.cache.key[s.pinned[j]] == W.HomeKey(s.lay, Blocks(s)[j])
    && s.data[j] == s.cache.cache.data[s.pinned[j]]
  }

  /** No buffer is changed and unlogged; and unless the commit is stalled, what it writes for
      a block that has not gone home is what operations last stored in its buffer, which
      stays pinned. */
  lemma EveryCommitHasTheData(s: Sys, procs: nat, acts: seq<Step>, t: Sys)
    requires Booted(s, procs) && Protected(s.lay.size, procs, |s.cache.held|)
    requires Reaches(s, acts, t) && t.phase.Committing?
    ensures t.dirty == {} && (|Blocks(t)| >= t.lay.size ==> t.phase.k == 0)
    ensures |Blocks(t)| < t.lay.size ==> W.Ready(t.lay, t.phase.base, Blocks(t), t.data)
    ensures |Blocks(t)| < t.lay.size ==>
      forall j :: Home(|Blocks(t)|, t.phase.k) <= j < |Blocks(t)| ==> LastStored(t, j)
  {
    BootedInv(s, procs);
    RunKeeps(s, acts, t);
    if |Blocks(t)| < t.lay.size {
      CommitData(t);
    } else {
      ListFits(t);
    }
  }

  lemma CommitData(s: Sys)
    requires Inv(s) && s.phase.Committing?
    ensures W.Ready(s.lay, s.phase.base, Blocks(s), s.data)
    ensures forall j :: Home(|Blocks(s)|, s.phase.k) <= j < |Blocks(s)| ==> LastStored(s, j)
  {
    CommitParts(s);
    var h := Home(|Blocks(s)|, s.phase.k);
    forall j | h <= j < |Blocks(s)|
      ensures LastStored(s, j)
    {
      assert L.PinnedAt(s.cache, s.lay, Blocks(s)[h..][j - h], s.pinned[h..][j - h], s.data[h..][j - h]);
    }
  }

  predicate NoFinish(acts: seq<Step>) {
    forall j :: 0 <= j < |acts| ==> !acts[j].Finish?
  }

  /** The blocks that the log_write calls of a run are for. */
  ghost function Called(s: Sys, acts: seq<Step>): set<nat>
    decreases |acts|
  {
    if acts == [] || !Enabled(s, acts[0]) then {}
    else (if acts[0].LogWrite? then {s.cache.cache.key[acts[0].b].blockno} else {})
         + Called(Apply(s, acts[0]), acts[1..])
  }

  /** They stay listed until the transaction is committed. */
  lemma {:induction false} CalledListed(s: Sys, acts: seq<Step>, t: Sys)
    requires Reaches(s, acts, t) && NoFinish(acts)
    ensures forall b :: b in Called(s, acts) || b in Blocks(s) ==> b in Blocks(t)
    decreases |acts|
  {
    if acts != [] {
      StepLists(s, acts[0]);
      hide Apply, Enabled;
      CalledListed(Apply(s, acts[0]), acts[1..], t);
    }
  }

  lemma StepLists(s: Sys, a: Step)
    requires Enabled(s, a) && !a.Finish?
    ensures forall b :: b in Blocks(s) ==> b in Blocks(Apply(s, a))
    ensures a.LogWrite? ==> s.cache.cache.key[a.b].blockno in Blocks(Apply(s, a))
  {
    if a.LogWrite? && s.cache.cache.key[a.b].blockno !in Blocks(s) {
      assert Blocks(Apply(s, a))[|Blocks(s)|] == s.cache.cache.key[a.b].blockno;
    }
  }

  /** A commit keeps to the transaction it began with. */
  lemma {:induction false} CommitRun(s: Sys, acts: seq<Step>, t: Sys)
    requires Kept(s) && s.phase.Committing? && Reaches(s, acts, t) && NoFinish(acts)
    ensures Kept(t) && t.phase.Committing? && t.phase.base == s.phase.base && t.log == s.log && t.data == s.data
    ensures t.lay == s.lay && |t.readers.refs| == |s.readers.refs| && |t.cache.held| == |s.cache.held|
    decreases |acts|
  {
    if acts != [] {
      hide Kept;
      var a := acts[0];
      StepKeeps(s, a);
      CommitSteps(s, a);
      CommitRun(Apply(s, a), acts[1..], t);
    }
  }

  lemma CommitSteps(s: Sys, a: Step)
    requires Kept(s) && s.phase.Committing? && Enabled(s, a) && !a.Finish?
    ensures var t := Apply(s, a);
      && t.phase.Committing? && t.phase.base == s.phase.base && t.log == s.log && t.data == s.data
      && |t.cache.held| == |s.cache.held|
  {
    hide CommitInv, R.Tallied;
    CommittingReads(s, a);
  }

  /** So from the end_op that begins it to its end, whatever is read meanwhile, it issues
      exactly its writes and leaves the system ready for the next transaction. */
  lemma EveryCommitLeaves(s: Sys, acts: seq<Step>, t: Sys)
    requires Kept(s) && s.phase.Committing? && Reaches(s, acts, t) && NoFinish(acts) && Enabled(t, Finish)
    ensures Committed(s, Apply(t, Finish)) && Inv(Apply(t, Finish))
  {
    hide Inv;
    CommitRun(s, acts, t);
    if Stalled(t) {
      StalledCommit(t, Finish);
    }
    FinishCommits(t);
    CommittedInv(t, Apply(t, Finish));
  }

  /** The cache never runs out of reference count: the bound that its steps ask for
      excludes nothing. */
  lemma CountsNeverWrap(s: Sys, procs: nat, acts: seq<Step>, t: Sys, b: nat)
    requires Booted(s, procs) && Protected(s.lay.size, procs, |s.cache.held|)
    requires Reaches(s, acts, t) && procs + 5 < C.UINT && b < |t.cache.held|
    ensures b < |t.cache.pins| && t.cache.held[b] + t.cache.pins[b] <= procs + 1
    ensures b < |t.cache.cache.refcnt| && t.cache.cache.refcnt[b] == t.cache.held[b] + t.cache.pins[b]
  {
    BootedInv(s, procs);
    RunKeeps(s, acts, t);
    PinnedAtMostOnce(t, b);
    assert R.TallyAt(t.cache.held, t.readers, b);
    L.RefcntIs(t.cache, b);
  }

  lemma PinnedAtMostOnce(s: Sys, b: nat)
    requires Kept(s) && b < |s.cache.held|
    ensures C.Counted(s.cache) && s.cache.pins[b] <= 1
  {
    if Stalled(s) {
      assert PinnedHome(s, b);
    } else {
      var h := if s.phase.Committing? then Home(|Blocks(s)|, s.phase.k) else 0;
      assert s.phase.Gathering? ==> s.pinned[h..] == s.pinned;
      assert L.PinnedOnceAt(s.cache.pins, s.pinned[h..], b);
    }
  }

  // ----- The system in memory -----

  /** The log object, with its cache and disk, is in state s. */
  ghost predicate Shows(log: L.FsLog, s: Sys)
    reads log, log.cache, log.cache.links, log.cache.disk
  {
    && log.cache.Valid() && log.cache.View() == s.cache && log.cache.disk.image == s.image && log.lay == s.lay
    && log.n <= |log.block| == W.LOGSIZE && log.View() == s.log.log
  }

  /** The log object after recovery has found an empty log is where runs start. */
  lemma RecoveredIsBooted(log: L.FsLog, image: Image, procs: nat) returns (s: Sys)
    requires W.WellFormed(log.lay, image) && W.Listed(image[W.HeadKey(log.lay)]) == []
    requires log.cache.disk.image == After(image, W.RecoverWrites(log.lay, image))
    requires log.Idle() && log.StraysAre([], 0)
    requires log.n <= |log.block| == W.LOGSIZE && log.View() == P.State(log.lay.size, 0, false, [])
    ensures Shows(log, s) && Booted(s, procs)
  {
    var l, head := log.lay, image[W.HeadKey(log.lay)];
    assert W.RecoverWrites(l, image) == [Write(W.HeadKey(l), W.Stamped(head, []))];
    L.OneWrite(image, W.HeadKey(l), W.Stamped(head, []));
    s := Sys(l, log.cache.View(), log.cache.disk.image, P.Start(l.size, procs), R.Nobody(procs), {}, [], [], Gathering);
  }

  /** recover_from_log in memory, at boot: if the log was empty, runs can start. */
  method RunRecover(log: L.FsLog, ghost procs: nat) returns (ok: bool, ghost s: Sys)
    requires log.Idle() && log.StraysAre([], 0) && |log.block| == W.LOGSIZE && log.outstanding == 0 && !log.committing
    requires W.WellFormed(log.lay, log.cache.disk.image) && W.Listed(log.cache.disk.image[W.HeadKey(log.lay)]) == []
    modifies log`n, log`block, log.cache, log.cache.links, log.cache.disk
    ensures !ok ==> log.Exhausted()
    ensures ok ==> Shows(log, s) && Booted(s, procs)
  {
    hide Booted, W.RecoverWrites;
    s := Sys(log.lay, log.cache.View(), map[], P.Start(0, 0), R.Nobody(0), {}, [], [], Gathering);
    ghost var image, k := log.cache.disk.image, 0;
    ok, k := log.Recover();
    if ok {
      ghost var writes := W.RecoverWrites(log.lay, image);
      assert writes[..k] == writes;
      s := RecoveredIsBooted(log, image, procs);
    }
  }

  /** What end_op asks of the log object holds whenever its commit is due: the operations
      have left nothing changed and unlogged. */
  lemma EndOpMayCommit(log: L.FsLog, s: Sys, p: nat)
    requires Inv(s) && |s.readers.refs| + 5 < C.UINT
    requires Enabled(s, End(p)) && s.log.log.outstanding == 1 && Shows(log, s)
    ensures s.dirty == {} && |s.data| == log.n && log.Ok(log.block[..log.n], s.pinned, s.data, s.readers)
    ensures W.Ready(log.lay, log.cache.disk.image, log.block[..log.n], s.data)
  {
    EndKeeps(s, p);
    var t := Apply(s, End(p));
    CommitParts(t);
    assert Blocks(t)[0..] == Blocks(t) && t.pinned[0..] == t.pinned && t.data[0..] == t.data;
  }

  /** begin_op in memory, one turn of its loop: it takes the step, or sleeps when the step
      is not enabled. */
  method RunBeginOp(log: L.FsLog, ghost s: Sys, ghost p: nat) returns (admitted: bool)
    requires Shows(log, s) && p < |s.log.ops| && s.log.ops[p] == P.NONE
    modifies log`outstanding
    ensures admitted <==> Enabled(s, Begin(p))
    ensures Shows(log, if admitted then Apply(s, Begin(p)) else s)
  {
    admitted := log.BeginOp();
  }

  /** The test of log_write in memory: it takes the step, or panics when that is not enabled. */
  method RunLogTest(log: L.FsLog, ghost s: Sys, ghost p: nat, ghost b: nat) returns (ok: bool)
    requires Shows(log, s) && InOperation(s, p) && p !in s.log.tested && HoldsHome(s, p, b)
    ensures ok <==> Enabled(s, Check(p, b))
    ensures ok ==> Shows(log, Apply(s, Check(p, b)))
  {
    ok := log.LogTest();
  }

  /** The rest of log_write in memory, with any number of buffers changed and unlogged, and
      whatever has been listed since the test: it takes the step. */
  method RunLogAppend(log: L.FsLog, ghost s: Sys, ghost p: nat, b: nat, ghost i: nat)
    requires Kept(s) && |s.readers.refs| + 5 < C.UINT && Shows(log, s) && HoldsHome(s, p, b)
    requires i < |s.cache.cache.order| && s.cache.cache.order[i] == b
    requires P.Enabled(s.log, P.Write(p, s.cache.cache.key[b].blockno))
    modifies log`n, log`block, log.cache`refcnt, log.cache`pins
    ensures Enabled(s, LogWrite(p, b, i)) && Shows(log, Apply(s, LogWrite(p, b, i)))
  {
    hide Kept, P.Inv;
    OperationInv(s, p, b);
    log.LogAppend(b, i);
  }

  /** A whole log_write in memory with nothing in between: it panics exactly when the
      protocol says so, and else takes both steps. */
  method RunLogWrite(log: L.FsLog, ghost s: Sys, ghost p: nat, b: nat, ghost i: nat) returns (ok: bool)
    requires Kept(s) && |s.readers.refs| + 5 < C.UINT && Shows(log, s) && InOperation(s, p) && HoldsHome(s, p, b)
    requires i < |s.cache.cache.order| && s.cache.cache.order[i] == b && p !in s.log.tested
    requires s.log.ops[p] < P.MAXOPBLOCKS || s.cache.cache.key[b].blockno in Blocks(s)
    modifies log`n, log`block, log.cache`refcnt, log.cache`pins
    ensures ok <==> !P.WritePanics(s.log.log)
    ensures ok ==> Enabled(s, Check(p, b)) && Enabled(Apply(s, Check(p, b)), LogWrite(p, b, i))
    ensures ok ==> Shows(log, Apply(Apply(s, Check(p, b)), LogWrite(p, b, i)))
  {
    hide Kept;
    ok := RunLogTest(log, s, p, b);
    if ok {
      StepKeeps(s, Check(p, b));
      RunLogAppend(log, Apply(s, Check(p, b)), p, b, i);
    }
  }

  /** What the append of log_write finds: its list has room for what the operation reserved. */
  lemma OperationInv(s: Sys, p: nat, b: nat)
    requires Kept(s) && |s.readers.refs| + 5 < C.UINT && HoldsHome(s, p, b)
    requires P.Enabled(s.log, P.Write(p, s.cache.cache.key[b].blockno))
    ensures |s.data| == |Blocks(s)| && (|Blocks(s)| < W.LOGSIZE || s.cache.cache.key[b].blockno in Blocks(s))
    ensures C.SysSized(s.cache) && b < |s.cache.held| && s.cache.held[b] > 0
    ensures s.cache.held[b] + s.cache.pins[b] + 1 < C.UINT
  {
    InOperationGathering(s, p);
    P.OneCounts(s.log.ops, p);
    assert R.TallyAt(s.cache.held, s.readers, b);
    R.HoldersAfter(s.readers.refs, s.readers.lock[b], {}, b);
    PinnedAtMostOnce(s, b);
    DataSized(s);
  }

  lemma DataSized(s: Sys)
    requires Kept(s)
    ensures |s.data| == |Blocks(s)|
  {
  }

  /** From the object after a commit to the state of the system. */
  lemma CommitShown(log: L.FsLog, u: Sys, readers: R.Readers, writes: seq<Write>) returns (t: Sys)
    requires Inv(u) && u.phase.Committing? && |readers.refs| == |u.readers.refs| && log.lay == u.lay
    requires |u.data| == |Blocks(u)| < WORDS && W.HeadKey(u.lay) in u.phase.base
    requires writes == W.CommitWrites(u.lay, u.phase.base[W.HeadKey(u.lay)], Blocks(u), u.data)
    requires log.cache.disk.image == After(u.phase.base, writes) && log.Ok([], [], [], readers)
    requires log.n <= |log.block| == W.LOGSIZE && log.View() == P.Finished(P.Erased(u.log.log))
    requires |u.cache.held| == log.cache.n
    ensures Shows(log, t) && Inv(t) && Committed(u, t)
  {
    hide Inv, L.Good, L.PinnedOnce, R.Tallied;
    t := Sys(u.lay, log.cache.View(), log.cache.disk.image, u.log.(log := log.View()), readers, {}, [], [], Gathering);
    CommittedInv(u, t);
  }

  /** end_op in memory takes the system, from any state that runs can reach, through the
      last End and a whole commit, unless it runs out of buffers. */
  method RunEndOp(log: L.FsLog, ghost s: Sys, ghost p: nat) returns (ok: bool, ghost t: Sys)
    requires Inv(s) && |s.readers.refs| + 5 < C.UINT && Shows(log, s) && Enabled(s, End(p))
    modifies log, log.cache, log.cache.links, log.cache.disk
    ensures !ok ==> log.Exhausted()
    ensures ok ==> Shows(log, t) && Inv(t)
    ensures ok && s.log.log.outstanding != 1 ==> t == Apply(s, End(p))
    ensures ok && s.log.log.outstanding == 1 ==> Apply(s, End(p)).phase.Committing? && Committed(Apply(s, End(p)), t)
  {
    hide Inv, W.Ready, Committed, L.Good, L.PinnedOnce, R.Tallied, After, W.CommitWrites;
    t := Apply(s, End(p));
    EndKeeps(s, p);
    InvSizes(s, t);
    if log.outstanding == 1 {
      EndOpMayCommit(log, s, p);
    }
    ghost var k, readers;
    ok, k, readers := log.EndOp(s.pinned, s.data, s.readers);
    if ok && t.phase.Committing? {
      ghost var writes := W.CommitWrites(s.lay, s.image[W.HeadKey(s.lay)], Blocks(s), s.data);
      assert writes[..k] == writes;
      t := CommitShown(log, t, readers, writes);
    }
  }

  lemma InvSizes(s: Sys, t: Sys)
    requires Inv(s) && Inv(t)
    ensures |s.data| == |Blocks(s)| < WORDS && !P.EndPanics(s.log.log) == s.phase.Gathering?
    ensures t.phase.Committing? ==> W.HeadKey(t.lay) in t.phase.base && |t.data| == |Blocks(t)| < WORDS
    ensures t.phase.Committing? <==> t.log.log.committing
  {
  }
}
