/** A log that is too short: two processes test the length of the list in log_write one after
    the other, both append, and the commit writes past the end of the log. */
module ShortLog {
  import opened Disk
  import C = BufferCache
  import L = Log
  import P = LogProtocol
  import R = Readers
  import S = CommitSteps
  import T = Transaction
  import W = LogWrites

  /** The same state with a log that is long enough. */
  function Wide(s: T.Sys): T.Sys {
    s.(lay := s.lay.(size := W.LOGSIZE + 1), log := s.log.(log := s.log.log.(size := W.LOGSIZE + 1)))
  }

  /** A step whose buffer lies outside the longer log too is a step with that log. */
  lemma WideStep(s: T.Sys, a: T.Step)
    requires T.Inv(Wide(s)) && T.Enabled(s, a)
    requires a.Modify? || a.Check? || a.LogWrite? ==> T.HoldsHome(Wide(s), a.p, a.b)
    ensures T.Inv(Wide(T.Apply(s, a)))
  {
    hide T.Inv, T.Stalled, C.Enabled, C.Apply, R.Enabled, R.Cached, R.Moved, L.Stored, L.Holding;
    assert T.Enabled(Wide(s), a);
    assert Wide(T.Apply(s, a)) == T.Apply(Wide(s), a);
    T.StepOfInv(Wide(s), a);
    NeverStalled(Wide(T.Apply(s, a)));
  }

  lemma NeverStalled(s: T.Sys)
    requires s.lay.size == W.LOGSIZE + 1
    ensures !T.Stalled(s)
  {
    if T.Stalled(s) {
      P.SumBounds(s.log.ops);
    }
  }

  // ----- Runs -----

  ghost predicate Leads(s: T.Sys, t: T.Sys) {
    exists acts :: T.Reaches(s, acts, t)
  }

  lemma LeadsOn(s: T.Sys, t: T.Sys, u: T.Sys)
    requires Leads(s, t) && Leads(t, u)
    ensures Leads(s, u)
  {
    var first :| T.Reaches(s, first, t);
    var second :| T.Reaches(t, second, u);
    T.Join(s, first, t, second, u);
  }

  lemma LeadsNowhere(s: T.Sys)
    ensures Leads(s, s)
  {
    assert T.Reaches(s, [], s);
  }

  /** One more step of a run. */
  lemma Goes(s: T.Sys, t: T.Sys, a: T.Step)
    requires Leads(s, t) && T.Inv(Wide(t)) && T.Enabled(t, a)
    requires a.Modify? || a.Check? || a.LogWrite? ==> T.HoldsHome(Wide(t), a.p, a.b)
    ensures Leads(s, T.Apply(t, a)) && T.Inv(Wide(T.Apply(t, a)))
  {
    hide T.Inv, T.Enabled, T.Apply;
    WideStep(t, a);
    assert T.Reaches(t, [a], T.Apply(t, a)) by {
      assert [a][1..] == [];
    }
    LeadsOn(s, t, T.Apply(t, a));
  }

  // ----- bread and brelse -----

  /** Whoever has a buffer holds its lock. */
  ghost predicate Tidy(r: R.Readers) {
    forall p, b :: 0 <= p < |r.refs| && b in r.refs[p] ==> b in r.lock && r.lock[b] == p
  }

  /** No block of the transaction has gone home. */
  predicate Early(s: T.Sys) {
    s.phase.Committing? ==> s.phase.k <= |T.Blocks(s)|
  }

  /** Two states that differ in the cache and its readers only. */
  predicate SameBut(s: T.Sys, t: T.Sys) {
    t == s.(cache := t.cache, readers := t.readers) && |t.cache.held| == |s.cache.held|
  }

  /** The holders of buffers still have them, with the same contents. */
  ghost predicate StillHeld(s: T.Sys, t: T.Sys) {
    forall p: nat, b: nat :: T.Holds(s, p, b) && b in t.readers.lock ==>
      && T.Holds(t, p, b) && t.cache.cache.key[b] == s.cache.cache.key[b]
      && t.cache.cache.data[b] == s.cache.cache.data[b]
  }

  lemma Counts(s: T.Sys, b: nat)
    requires T.Inv(Wide(s)) && Tidy(s.readers) && Early(s) && b < |s.cache.held|
    ensures C.Counted(s.cache) && s.cache.held[b] == (if b in s.readers.lock then 1 else 0)
    ensures s.cache.pins[b] == (if b in s.pinned then 1 else 0)
    ensures s.cache.cache.refcnt[b] == s.cache.held[b] + s.cache.pins[b]
  {
    var refs := s.readers.refs;
    assert R.TallyAt(s.cache.held, s.readers, b);
    if b in s.readers.lock {
      var p := s.readers.lock[b];
      R.HoldersAfter(refs, p, refs[p] - {b}, b);
      R.NoHolders(refs[p := refs[p] - {b}], b);
    } else {
      R.NoHolders(refs, b);
    }
    assert s.pinned[0..] == s.pinned;
    assert L.PinnedOnceAt(s.cache.pins, s.pinned, b);
    T.NoStrayAt(Wide(s), b);
    L.RefcntIs(s.cache, b);
  }

  /** With fewer buffers pinned and held than there are, one is unused. */
  lemma Unused(s: T.Sys) returns (b: nat)
    requires T.Inv(Wide(s)) && Tidy(s.readers) && Early(s)
    requires |s.pinned| + |s.readers.lock| < |s.cache.held|
    ensures b < |s.cache.held| == |s.cache.cache.refcnt| && s.cache.cache.refcnt[b] == 0
  {
    hide T.Inv, Tidy, C.CountedAt;
    FewElements(s.pinned);
    b := Missing(P.Elements(s.pinned) + s.readers.lock.Keys, |s.cache.held|);
    Counts(s, b);
  }

  lemma Missing(busy: set<nat>, n: nat) returns (b: nat)
    requires |busy| < n
    ensures b < n && b !in busy
  {
    var all := P.Elements(P.Numbers(0, n));
    T.DistinctElements(P.Numbers(0, n));
    if all <= busy {
      P.SubsetSize(all, busy);
    }
    b :| b in all && b !in busy;
  }

  lemma {:induction false} FewElements(s: seq<nat>)
    ensures |P.Elements(s)| <= |s|
  {
    if s != [] {
      var n := |s| - 1;
      FewElements(s[..n]);
      P.ElementsOfMore(s[..n], s[n]);
      assert s == s[..n] + [s[n]];
    }
  }

  lemma Lookup(c: C.Cache, k: Key, b: nat) returns (i: nat)
    requires C.Inv(c) && b < |c.key| && (c.key[b] == k || c.refcnt[b] == 0)
    ensures C.HitAt(c, k, i) || C.VictimAt(c, k, i)
  {
    if h :| 0 <= h < |c.key| && c.key[h] == k {
      var j := C.PositionOf(c, h);
      i := 0;
      while c.key[c.order[i]] != k
        invariant 0 <= i <= j && forall q :: 0 <= q < i ==> c.key[c.order[q]] != k
        decreases j - i
      {
        i := i + 1;
      }
    } else {
      var j := C.PositionOf(c, b);
      i := |c.order| - 1;
      while c.refcnt[c.order[i]] > 0
        invariant j <= i < |c.order| && forall q :: i < q < |c.order| ==> c.refcnt[c.order[q]] > 0
        decreases i
      {
        i := i - 1;
      }
    }
  }

  /** bget of block k finds a buffer. */
  ghost predicate Available(s: T.Sys, k: Key) {
    && (forall b :: b in s.readers.lock ==> b < |s.cache.cache.key| && s.cache.cache.key[b] != k)
    && (|s.pinned| + |s.readers.lock| < |s.cache.held| || k in s.cache.cache.key)
  }

  lemma GetsBuffer(s: T.Sys, p: nat, k: Key) returns (b: nat, i: nat)
    requires T.Inv(Wide(s)) && Tidy(s.readers) && Early(s) && p < |s.readers.refs| && Available(s, k)
    ensures T.Enabled(s, T.Read(R.Get(p, b, i, k))) && b !in s.readers.lock && b < |s.cache.held|
  {
    var c := s.cache.cache;
    if k in c.key {
      b :| 0 <= b < |c.key| && c.key[b] == k;
    } else {
      b := Unused(s);
    }
    CountedNow(s);
    i := Lookup(c, k, b);
    b := c.order[i];
    Counts(s, b);
  }

  lemma CountedNow(s: T.Sys)
    requires T.Inv(Wide(s)) && Early(s)
    ensures C.Counted(s.cache) && C.SysSized(s.cache)
  {
  }

  /** The second half of bget, and the rest of bread. */
  lemma LocksAndFills(s0: T.Sys, s: T.Sys, p: nat, b: nat, i: nat) returns (t: T.Sys)
    requires Leads(s0, s) && T.Inv(Wide(s)) && C.SysSized(s.cache)
    requires p < |s.readers.refs| && b in s.readers.refs[p] && b !in s.readers.lock
    requires b < |s.cache.held| && s.cache.held[b] > 0 && i < |s.cache.cache.order| && s.cache.cache.order[i] == b
    requires s.cache.cache.key[b] in s.image
    ensures Leads(s0, t) && T.Inv(Wide(t)) && SameBut(s, t) && T.Holds(t, p, b)
    ensures t.readers == s.readers.(lock := s.readers.lock[b := p])
    ensures t.cache.cache.key == s.cache.cache.key && |t.cache.cache.valid| == |s.cache.cache.valid|
    ensures |t.cache.cache.data| == |s.cache.cache.data|
    ensures forall c :: 0 <= c < |s.cache.held| && c != b ==>
      t.cache.cache.valid[c] == s.cache.cache.valid[c] && t.cache.cache.data[c] == s.cache.cache.data[c]
  {
    hide T.Inv, C.Permutation, C.OnlyFirstUsed;
    var s1 := T.Apply(s, T.Read(R.Lock(p, b)));
    Goes(s0, s, T.Read(R.Lock(p, b)));
    t := T.Apply(s1, T.Read(R.Fill(p, b, i)));
    Goes(s0, s1, T.Read(R.Fill(p, b, i)));
  }

  /** bread: process p comes to hold block k. */
  lemma Reads(s0: T.Sys, s: T.Sys, p: nat, k: Key) returns (t: T.Sys, b: nat)
    requires Leads(s0, s) && T.Inv(Wide(s)) && Tidy(s.readers) && Early(s)
    requires p < |s.readers.refs| && k in s.image && Available(s, k)
    ensures Leads(s0, t) && T.Inv(Wide(t)) && Tidy(t.readers) && SameBut(s, t) && StillHeld(s, t)
    ensures b !in s.readers.lock && T.Holds(t, p, b) && t.cache.cache.key[b] == k
    ensures t.readers == R.Readers(s.readers.refs[p := s.readers.refs[p] + {b}], s.readers.lock[b := p])
  {
    hide T.Inv, Tidy, Available, C.HitAt, C.VictimAt, C.Counted, C.Permutation, C.OnlyFirstUsed;
    var i;
    b, i := GetsBuffer(s, p, k);
    assert C.SysSized(s.cache);
    var s1 := T.Apply(s, T.Read(R.Get(p, b, i, k)));
    Goes(s0, s, T.Read(R.Get(p, b, i, k)));
    CountedNow(s1);
    t := LocksAndFills(s0, s1, p, b, i);
    TidyTaken(s.readers, p, b);
  }

  lemma TidyTaken(r: R.Readers, p: nat, b: nat)
    requires Tidy(r) && p < |r.refs| && b !in r.lock
    ensures Tidy(R.Readers(r.refs[p := r.refs[p] + {b}], r.lock[b := p]))
  {
  }

  /** A holder can change its buffer, pin it and give it back. */
  lemma HeldAt(s: T.Sys, p: nat, b: nat) returns (i: nat)
    requires T.Inv(Wide(s)) && Tidy(s.readers) && Early(s) && R.Has(s.readers, p, b)
    ensures C.SysSized(s.cache) && b < |s.cache.held| && i < |s.cache.cache.order| && s.cache.cache.order[i] == b
    ensures s.cache.held[b] == 1 && s.cache.pins[b] <= 1 && p < |s.readers.refs| && b in s.readers.refs[p]
  {
    T.LockIsBuffer(Wide(s), b);
    Counts(s, b);
    i := C.PositionOf(s.cache.cache, b);
  }

  /** brelse. */
  lemma Releases(s0: T.Sys, s: T.Sys, p: nat, b: nat) returns (t: T.Sys)
    requires Leads(s0, s) && T.Inv(Wide(s)) && Tidy(s.readers) && Early(s)
    requires p < |s.readers.refs| && R.Has(s.readers, p, b) && b !in s.dirty
    ensures Leads(s0, t) && T.Inv(Wide(t)) && Tidy(t.readers) && SameBut(s, t) && StillHeld(s, t)
    ensures t.readers == R.Readers(s.readers.refs[p := s.readers.refs[p] - {b}], s.readers.lock - {b})
    ensures t.cache.cache.key == s.cache.cache.key
  {
    hide T.Inv, C.Permutation, C.OnlyFirstUsed;
    var i := HeldAt(s, p, b);
    var unlock, drop := T.Read(R.Unlock(p, b)), T.Read(R.Drop(p, b, i));
    var s1 := T.Apply(s, unlock);
    Goes(s0, s, unlock);
    t := T.Apply(s1, drop);
    Goes(s0, s1, drop);
  }

  // ----- The disk, and log_write -----

  const FROM := 100   // the first of the blocks that are logged, outside the log
  const END := 200

  function Filled(v: nat): Block {
    seq(WORDS, _ => v)
  }

  /** The blocks that will be logged hold ones, all others zeros. */
  function Original(): Image {
    map b | 0 <= b < END :: Key(1, b) := if b >= FROM then Filled(1) else Filled(0)
  }

  predicate AllOnes(data: seq<Block>) {
    forall j :: 0 <= j < |data| ==> data[j] == Filled(1)
  }

  /** Operations gather blocks on that disk. */
  ghost predicate Gathers(s: T.Sys, size: nat) {
    && T.Inv(Wide(s)) && s.lay == W.Layout(1, 2, size) && Tidy(s.readers) && s.phase.Gathering? && s.dirty == {}
    && s.image == Original() && AllOnes(s.data)
  }

  predicate HoldsOne(s: T.Sys, p: nat, b: nat, blockno: nat) {
    T.Holds(s, p, b) && s.cache.cache.key[b] == Key(1, blockno) && FROM <= blockno < END
  }

  lemma HeldIsHome(s: T.Sys, size: nat, p: nat, b: nat, blockno: nat)
    requires Gathers(s, size) && size <= W.LOGSIZE + 1 && HoldsOne(s, p, b, blockno)
    ensures T.HoldsHome(s, p, b) && T.HoldsHome(Wide(s), p, b)
    ensures blockno !in T.Blocks(s) ==> s.cache.cache.data[b] == Filled(1)
  {
    assert Key(1, blockno) in Original() && Original()[Key(1, blockno)] == Filled(1);
    T.LockIsBuffer(Wide(s), b);
    assert L.CoherentAt(s.cache, s.image, Wide(s).lay, T.Blocks(s), b);
  }

  /** The test of log_write. */
  lemma Tests(s0: T.Sys, s: T.Sys, size: nat, p: nat, b: nat, blockno: nat) returns (t: T.Sys)
    requires Leads(s0, s) && Gathers(s, size) && size <= W.LOGSIZE + 1 && HoldsOne(s, p, b, blockno)
    requires P.Enabled(s.log, P.Check(p))
    ensures Leads(s0, t) && Gathers(t, size) && t == s.(log := P.Apply(s.log, P.Check(p)))
  {
    hide T.Inv, Tidy;
    HeldIsHome(s, size, p, b, blockno);
    t := T.Apply(s, T.Check(p, b));
    Goes(s0, s, T.Check(p, b));
  }

  /** Its append. */
  lemma Appends(s0: T.Sys, s: T.Sys, size: nat, p: nat, b: nat, blockno: nat) returns (t: T.Sys)
    requires Leads(s0, s) && Gathers(s, size) && size <= W.LOGSIZE + 1 && HoldsOne(s, p, b, blockno)
    requires P.Enabled(s.log, P.Write(p, blockno)) && blockno !in T.Blocks(s)
    ensures Leads(s0, t) && Gathers(t, size) && t.log == P.Apply(s.log, P.Write(p, blockno))
    ensures t.readers == s.readers && |t.cache.held| == |s.cache.held|
    ensures t.cache.cache.key == s.cache.cache.key && t.cache.cache.valid == s.cache.cache.valid
    ensures t.cache.cache.data == s.cache.cache.data
  {
    hide T.Inv, Tidy, C.Permutation, C.OnlyFirstUsed;
    HeldIsHome(s, size, p, b, blockno);
    var i := HeldAt(s, p, b);
    DataCount(s);
    t := T.Apply(s, T.LogWrite(p, b, i));
    Goes(s0, s, T.LogWrite(p, b, i));
  }

  lemma DataCount(s: T.Sys)
    requires T.Inv(Wide(s))
    ensures |s.data| == |T.Blocks(s)| == |s.pinned|
  {
  }

  // ----- One block after the other -----

  /** Nobody has a buffer. */
  ghost predicate Stage(s: T.Sys, size: nat, procs: nat, buffers: nat) {
    Gathers(s, size) && s.readers == R.Nobody(procs) && |s.cache.held| == buffers
  }

  lemma NoneLeft(r: R.Readers, procs: nat, p: nat, b: nat)
    requires r == R.Nobody(procs) && p < procs
    ensures R.Readers(r.refs[p := r.refs[p] + {b}][p := r.refs[p] + {b} - {b}], r.lock[b := p] - {b}) == r
  {
    assert r.refs[p := r.refs[p] + {b}][p := r.refs[p] + {b} - {b}] == r.refs;
    assert r.lock[b := p] - {b} == r.lock;
  }

  /** An operation reads, logs and releases one more block. */
  lemma ListsOne(s0: T.Sys, s: T.Sys, size: nat, procs: nat, buffers: nat, p: nat, blockno: nat) returns (t: T.Sys)
    requires Leads(s0, s) && Stage(s, size, procs, buffers) && size <= W.LOGSIZE + 1 && |T.Blocks(s)| < buffers
    requires p < procs && FROM <= blockno < END && blockno !in T.Blocks(s)
    requires P.Enabled(s.log, P.Check(p)) && P.Enabled(P.Apply(s.log, P.Check(p)), P.Write(p, blockno))
    ensures Leads(s0, t) && Stage(t, size, procs, buffers)
    ensures t.log == P.Apply(P.Apply(s.log, P.Check(p)), P.Write(p, blockno))
  {
    hide T.Inv, Tidy, P.Enabled, P.Apply;
    DataCount(s);
    assert Key(1, blockno) in Original();
    var t1, b := Reads(s0, s, p, Key(1, blockno));
    var t2 := Tests(s0, t1, size, p, b, blockno);
    assert T.Blocks(t2) == T.Blocks(s) by { CheckLists(s.log, p); }
    var t3 := Appends(s0, t2, size, p, b, blockno);
    t := Releases(s0, t3, p, b);
    NoneLeft(s.readers, procs, p, b);
  }

  lemma CheckLists(s: P.Sys, p: nat)
    requires P.Enabled(s, P.Check(p))
    ensures P.Apply(s, P.Check(p)).log == s.log
  {
  }

  /** begin_op or end_op, up to the commit. */
  lemma LogStep(s0: T.Sys, s: T.Sys, size: nat, procs: nat, buffers: nat, a: P.Act) returns (t: T.Sys)
    requires Leads(s0, s) && Stage(s, size, procs, buffers) && (a.Begin? || a.End?) && P.Enabled(s.log, a)
    requires !P.Apply(s.log, a).log.committing
    ensures Leads(s0, t) && Stage(t, size, procs, buffers) && t.log == P.Apply(s.log, a)
  {
    hide T.Inv, Tidy;
    var step := if a.Begin? then T.Begin(a.p) else T.End(a.p);
    t := T.Apply(s, step);
    Goes(s0, s, step);
  }

  /** The first operation lists m blocks. */
  lemma {:induction false} FillsFirst(s0: T.Sys, size: nat, procs: nat, buffers: nat, m: nat) returns (t: T.Sys)
    requires Stage(s0, size, procs, buffers) && s0.log == P.Start(size, procs) && procs >= 2
    requires m <= P.MAXOPBLOCKS && m < size <= W.LOGSIZE && m < buffers
    ensures Leads(s0, t) && Stage(t, size, procs, buffers) && t.log == P.Filling(size, procs, FROM, m, m, 0)
    decreases m
  {
    hide Stage, P.Enabled, P.Apply, P.Start;
    if m == 0 {
      P.BeginTwo(size, procs, FROM);
      LeadsNowhere(s0);
      BeginsOnly(s0.log, 0);
      t := LogStep(s0, s0, size, procs, buffers, P.Begin(0));
      BeginsOnly(t.log, 1);
      t := LogStep(s0, t, size, procs, buffers, P.Begin(1));
    } else {
      t := FillsFirst(s0, size, procs, buffers, m - 1);
      P.ListsOne(size, procs, FROM, m - 1, m - 1, 0, 0);
      t := ListsOne(s0, t, size, procs, buffers, 0, FROM + m - 1);
    }
  }

  lemma BeginsOnly(s: P.Sys, p: nat)
    requires P.Enabled(s, P.Begin(p))
    ensures !P.Apply(s, P.Begin(p)).log.committing
  {
  }

  /** m blocks get listed, by two processes. */
  lemma {:induction false} Fills(s0: T.Sys, size: nat, procs: nat, buffers: nat, m: nat) returns (t: T.Sys)
    requires Stage(s0, size, procs, buffers) && s0.log == P.Start(size, procs) && procs >= 2
    requires m < size <= W.LOGSIZE && m < buffers
    ensures Leads(s0, t) && Stage(t, size, procs, buffers) && t.log == P.Filled(size, procs, FROM, m)
    decreases m
  {
    hide Stage, P.Enabled, P.Start;
    if m <= P.MAXOPBLOCKS {
      t := FillsFirst(s0, size, procs, buffers, m);
      P.Renews(size, procs, FROM, m);
      t := LogStep(s0, t, size, procs, buffers, P.End(0));
      t := LogStep(s0, t, size, procs, buffers, P.Begin(0));
    } else {
      t := Fills(s0, size, procs, buffers, m - 1);
      var p := P.FillsNext(size, procs, FROM, m - 1);
      t := ListsOne(s0, t, size, procs, buffers, p, FROM + m - 1);
    }
  }

  // ----- The race -----

  /** Two processes hold the blocks that they will log. */
  lemma BothRead(s0: T.Sys, s: T.Sys, size: nat, procs: nat, buffers: nat, m: nat)
    returns (t: T.Sys, a: nat, b: nat)
    requires Leads(s0, s) && Stage(s, size, procs, buffers) && procs >= 2 && |T.Blocks(s)| + 1 < buffers
    requires FROM + m + 1 < END
    ensures Leads(s0, t) && Gathers(t, size) && t.log == s.log && |t.cache.held| == buffers && a != b
    ensures HoldsOne(t, 0, a, FROM + m) && HoldsOne(t, 1, b, FROM + m + 1)
    ensures t.readers == R.Readers(R.Nobody(procs).refs[0 := {a}][1 := {b}], map[a := 0, b := 1])
  {
    hide T.Inv, Tidy, P.Enabled, P.Apply;
    DataCount(s);
    assert Key(1, FROM + m) in Original() && Key(1, FROM + m + 1) in Original();
    var t1;
    t1, a := Reads(s0, s, 0, Key(1, FROM + m));
    assert t1.readers.lock == map[a := 0];
    t, b := Reads(s0, t1, 1, Key(1, FROM + m + 1));
    assert t.readers.lock == map[a := 0, b := 1];
  }

  /** Both test and then both append. */
  lemma BothLog(s0: T.Sys, s: T.Sys, size: nat, procs: nat, m: nat, x: int, y: int, a: nat, b: nat)
    returns (t: T.Sys)
    requires Leads(s0, s) && Gathers(s, size) && procs >= 2 && m + 1 < size <= W.LOGSIZE
    requires s.log == P.Filling(size, procs, FROM, m, x, y) && 0 <= x < P.MAXOPBLOCKS && 0 <= y < P.MAXOPBLOCKS
    requires HoldsOne(s, 0, a, FROM + m) && HoldsOne(s, 1, b, FROM + m + 1)
    ensures Leads(s0, t) && Gathers(t, size) && t.log == P.Filling(size, procs, FROM, m + 2, x + 1, y + 1)
    ensures t.readers == s.readers && |t.cache.held| == |s.cache.held|
  {
    hide Gathers, P.Enabled, P.Apply, P.Filling;
    P.Races(size, procs, FROM, m, x, y);
    NotListed(size, procs, m, x, y);
    var t1 := Tests(s0, s, size, 0, a, FROM + m);
    CheckLists(s.log, 0);
    CheckLists(t1.log, 1);
    var t2 := Tests(s0, t1, size, 1, b, FROM + m + 1);
    t := BothAppend(s0, t2, size, m, a, b);
  }

  lemma NotListed(size: nat, procs: nat, m: nat, x: int, y: int)
    requires procs >= 2
    ensures forall b :: b >= FROM + m ==> b !in P.Filling(size, procs, FROM, m, x, y).log.blocks
  {
  }

  lemma BothAppend(s0: T.Sys, s: T.Sys, size: nat, m: nat, a: nat, b: nat) returns (t: T.Sys)
    requires Leads(s0, s) && Gathers(s, size) && size <= W.LOGSIZE
    requires FROM + m !in T.Blocks(s) && FROM + m + 1 !in T.Blocks(s)
    requires HoldsOne(s, 0, a, FROM + m) && HoldsOne(s, 1, b, FROM + m + 1)
    requires P.Enabled(s.log, P.Write(0, FROM + m))
    requires P.Enabled(P.Apply(s.log, P.Write(0, FROM + m)), P.Write(1, FROM + m + 1))
    ensures Leads(s0, t) && Gathers(t, size)
    ensures t.log == P.Apply(P.Apply(s.log, P.Write(0, FROM + m)), P.Write(1, FROM + m + 1))
    ensures t.readers == s.readers && |t.cache.held| == |s.cache.held|
  {
    hide Gathers, P.Enabled, P.Apply;
    WriteLists(s.log, 0, FROM + m);
    var t1 := Appends(s0, s, size, 0, a, FROM + m);
    t := Appends(s0, t1, size, 1, b, FROM + m + 1);
  }

  lemma WriteLists(s: P.Sys, p: nat, blockno: nat)
    requires P.Enabled(s, P.Write(p, blockno))
    ensures forall b :: b in P.Apply(s, P.Write(p, blockno)).log.blocks ==> b in s.log.blocks || b == blockno
  {
  }

  lemma BothRelease(s0: T.Sys, s: T.Sys, size: nat, procs: nat, a: nat, b: nat) returns (t: T.Sys)
    requires Leads(s0, s) && Gathers(s, size) && procs >= 2 && a != b
    requires s.readers == R.Readers(R.Nobody(procs).refs[0 := {a}][1 := {b}], map[a := 0, b := 1])
    ensures Leads(s0, t) && Stage(t, size, procs, |s.cache.held|) && t.log == s.log
  {
    hide T.Inv, Tidy;
    var refs := R.Nobody(procs).refs;
    assert {a} - {a} == refs[0] && {b} - {b} == refs[1];
    assert refs[0 := {a}][1 := {b}][0 := {a} - {a}][1 := {b} - {b}] == refs;
    assert map[a := 0, b := 1] - {a} == map[b := 1] && map[b := 1] - {b} == map[];
    var t1 := Releases(s0, s, 0, a);
    t := Releases(s0, t1, 1, b);
  }

  lemma FilledIs(size: nat, procs: nat, m: nat)
    requires procs >= 2
    ensures var rest := if m <= P.MAXOPBLOCKS then 0 else m - P.MAXOPBLOCKS;
      P.Filled(size, procs, FROM, m) == P.Filling(size, procs, FROM, m, (rest + 1) / 2, rest / 2)
    ensures |P.Filled(size, procs, FROM, m).log.blocks| == m
  {
  }

  /** As many blocks are listed as the log has, its header included: one too many. */
  lemma Overruns(s0: T.Sys, size: nat, procs: nat, buffers: nat) returns (t: T.Sys, x: int, y: int)
    requires Stage(s0, size, procs, buffers) && s0.log == P.Start(size, procs)
    requires procs >= 2 && 2 <= size <= W.LOGSIZE && size < buffers
    ensures Leads(s0, t) && Stage(t, size, procs, buffers) && x >= 0 && y >= 0
    ensures t.log == P.Filling(size, procs, FROM, size, x, y)
  {
    hide Stage, Gathers, HoldsOne, P.Start, P.Filled, P.Filling;
    var m := size - 2;
    var rest := if m <= P.MAXOPBLOCKS then 0 else m - P.MAXOPBLOCKS;
    var s := Fills(s0, size, procs, buffers, m);
    FilledIs(size, procs, m);
    var t1, a, b := BothRead(s0, s, size, procs, buffers, m);
    var t2 := BothLog(s0, t1, size, procs, m, (rest + 1) / 2, rest / 2, a, b);
    t := BothRelease(s0, t2, size, procs, a, b);
    x, y := (rest + 1) / 2 + 1, rest / 2 + 1;
  }

  // ----- The commit -----

  /** k blocks of a transaction as long as the log have been written to it. */
  ghost predicate Writes(s: T.Sys, size: nat, procs: nat, buffers: nat, k: nat) {
    && T.Inv(Wide(s)) && s.lay == W.Layout(1, 2, size) && s.readers == R.Nobody(procs) && s.dirty == {}
    && s.phase == T.Committing(Original(), k, 1) && |T.Blocks(s)| == |s.pinned| == size && AllOnes(s.data)
    && |s.cache.held| == buffers
  }

  /** Both operations end, the second with a commit. */
  lemma CommitBegins(s0: T.Sys, s: T.Sys, size: nat, procs: nat, buffers: nat, x: int, y: int) returns (t: T.Sys)
    requires Leads(s0, s) && Stage(s, size, procs, buffers) && procs >= 2 && x >= 0 && y >= 0
    requires s.log == P.Filling(size, procs, FROM, size, x, y)
    ensures Leads(s0, t) && Writes(t, size, procs, buffers, 0)
  {
    hide T.Inv, Tidy;
    P.EndsBoth(size, procs, FROM, size, x, y);
    var t1 := LogStep(s0, s, size, procs, buffers, P.End(0));
    t := T.Apply(t1, T.End(1));
    Goes(s0, t1, T.End(1));
    DataCount(t);
  }

  lemma CommitKeys(s: T.Sys, size: nat, procs: nat, buffers: nat, done: nat, k: nat)
    requires Writes(s, size, procs, buffers, done) && done <= size && k < size
    ensures !W.InLog(Wide(s).lay, W.HomeKey(s.lay, T.Blocks(s)[k]))
    ensures W.HomeKey(s.lay, T.Blocks(s)[k]) in s.image && W.HomeKey(s.lay, T.Blocks(s)[k]) in s.cache.cache.key
    ensures forall j :: j in Original() ==> j in s.image
    ensures |T.Blocks(s)| <= W.LOGSIZE
  {
    T.CommitParts(Wide(s));
    assert s.pinned[0..] == s.pinned && T.Blocks(s)[0..] == T.Blocks(s) && s.data[0..] == s.data;
    assert L.PinnedAt(s.cache, Wide(s).lay, T.Blocks(s)[k], s.pinned[k], s.data[k]);
  }

  /** The readers while the committing process holds two buffers. */
  function Pair(procs: nat, a: nat, b: nat): R.Readers
    requires procs >= 2
  {
    R.Readers(R.Nobody(procs).refs[1 := {a, b}], map[a := 1, b := 1])
  }

  lemma PairTaken(procs: nat, a: nat, b: nat)
    requires procs >= 2
    ensures var refs := R.Nobody(procs).refs;
      R.Readers(refs[1 := refs[1] + {a}][1 := refs[1] + {a} + {b}], map[][a := 1][b := 1]) == Pair(procs, a, b)
  {
    var refs := R.Nobody(procs).refs;
    assert refs[1] + {a} + {b} == {a, b};
  }

  lemma PairBack(procs: nat, a: nat, b: nat)
    requires procs >= 2 && a != b
    ensures var r := Pair(procs, a, b); R.Readers(r.refs[1 := {a, b} - {b}][1 := {a, b} - {b} - {a}],
                                                 r.lock - {b} - {a}) == R.Nobody(procs)
  {
    var r := Pair(procs, a, b);
    assert {a, b} - {b} - {a} == R.Nobody(procs).refs[1];
    assert r.refs[1 := {a, b} - {b}][1 := {a, b} - {b} - {a}] == R.Nobody(procs).refs;
    assert r.lock - {b} == map[a := 1] && map[a := 1] - {a} == map[];
  }

  lemma SlotAvailable(s: T.Sys, size: nat, procs: nat, buffers: nat, k: nat)
    requires Writes(s, size, procs, buffers, k) && k < size < buffers && size <= W.LOGSIZE
    ensures W.SlotKey(s.lay, k) in s.image && Available(s, W.SlotKey(s.lay, k))
  {
    CommitKeys(s, size, procs, buffers, k, k);
    assert W.SlotKey(s.lay, k) in Original();
  }

  /** With the block of the log held too. */
  lemma HomeAvailable(s: T.Sys, t: T.Sys, size: nat, procs: nat, buffers: nat, k: nat, to: nat)
    requires Writes(s, size, procs, buffers, k) && k < size <= W.LOGSIZE && SameBut(s, t) && T.Inv(Wide(t))
    requires T.Holds(t, 1, to) && t.cache.cache.key[to] == W.SlotKey(s.lay, k) && t.readers.lock == map[][to := 1]
    ensures W.HomeKey(s.lay, T.Blocks(s)[k]) in t.image && Available(t, W.HomeKey(s.lay, T.Blocks(s)[k]))
    ensures W.HomeKey(s.lay, T.Blocks(s)[k]) != W.SlotKey(s.lay, k)
  {
    CommitKeys(s, size, procs, buffers, k, k);
    HomeCached(s, t, size, procs, buffers, k);
    assert W.InLog(Wide(s).lay, W.SlotKey(s.lay, k));
  }

  /** The committing process holds the next block of the log and the block that goes there. */
  lemma ReadsPair(s0: T.Sys, s: T.Sys, size: nat, procs: nat, buffers: nat, k: nat)
    returns (t: T.Sys, to: nat, from: nat)
    requires Leads(s0, s) && Writes(s, size, procs, buffers, k) && k < size < buffers && procs >= 2
    requires size <= W.LOGSIZE
    ensures Leads(s0, t) && T.Inv(Wide(t)) && Tidy(t.readers) && SameBut(s, t) && to != from
    ensures T.Ready(t, to, W.SlotKey(s.lay, k)) && T.Ready(t, from, W.HomeKey(s.lay, T.Blocks(s)[k]))
    ensures t.readers == Pair(procs, to, from)
  {
    hide T.Inv, Tidy, Available, W.InLog, Pair, W.SlotKey, W.HomeKey;
    TidyNobody(procs);
    SlotAvailable(s, size, procs, buffers, k);
    var t1;
    t1, to := Reads(s0, s, 1, W.SlotKey(s.lay, k));
    HomeAvailable(s, t1, size, procs, buffers, k, to);
    t, from := Reads(s0, t1, 1, W.HomeKey(s.lay, T.Blocks(s)[k]));
    PairTaken(procs, to, from);
  }

  lemma TidyNobody(procs: nat)
    ensures Tidy(R.Nobody(procs))
  {
  }

  /** The block to be logged is pinned, whatever else has been read. */
  lemma HomeCached(s: T.Sys, t: T.Sys, size: nat, procs: nat, buffers: nat, k: nat)
    requires Writes(s, size, procs, buffers, k) && k < size && SameBut(s, t) && T.Inv(Wide(t))
    ensures W.HomeKey(s.lay, T.Blocks(s)[k]) in t.cache.cache.key
  {
    assert t.pinned[0..] == t.pinned && T.Blocks(t)[0..] == T.Blocks(t) && t.data[0..] == t.data;
    assert L.PinnedAt(t.cache, Wide(t).lay, T.Blocks(t)[k], t.pinned[k], t.data[k]);
  }

  /** memmove and bwrite. */
  lemma Copies(s0: T.Sys, s: T.Sys, to: nat, from: nat) returns (t: T.Sys)
    requires Leads(s0, s) && T.Inv(Wide(s)) && Tidy(s.readers) && s.phase.Committing?
    requires s.phase.k < |T.Blocks(s)| && T.Ready(s, to, W.SlotKey(s.lay, s.phase.k))
    requires T.Ready(s, from, W.HomeKey(s.lay, T.Blocks(s)[s.phase.k]))
    ensures Leads(s0, t) && T.Inv(Wide(t)) && |t.cache.held| == |s.cache.held|
    ensures t == s.(cache := t.cache, image := t.image, phase := s.phase.(k := s.phase.k + 1))
  {
    hide T.Inv, Tidy, C.Permutation, C.OnlyFirstUsed;
    var i := HeldAt(s, s.phase.who, to);
    t := T.Apply(s, T.Copy(to, i, from));
    Goes(s0, s, T.Copy(to, i, from));
  }

  lemma PairReleased(s0: T.Sys, s: T.Sys, procs: nat, to: nat, from: nat) returns (t: T.Sys)
    requires Leads(s0, s) && T.Inv(Wide(s)) && Tidy(s.readers) && Early(s) && s.dirty == {} && procs >= 2 && to != from
    requires s.readers == Pair(procs, to, from)
    ensures Leads(s0, t) && T.Inv(Wide(t)) && SameBut(s, t) && t.readers == R.Nobody(procs)
  {
    hide T.Inv, Tidy;
    PairBack(procs, to, from);
    var t1 := Releases(s0, s, 1, from);
    t := Releases(s0, t1, 1, to);
  }

  /** One turn of write_log. */
  lemma WritesNext(s0: T.Sys, s: T.Sys, size: nat, procs: nat, buffers: nat, k: nat) returns (t: T.Sys)
    requires Leads(s0, s) && Writes(s, size, procs, buffers, k) && k < size < buffers && procs >= 2
    requires size <= W.LOGSIZE
    ensures Leads(s0, t) && Writes(t, size, procs, buffers, k + 1)
  {
    hide T.Inv, Tidy, T.Ready, Pair;
    var t1, to, from := ReadsPair(s0, s, size, procs, buffers, k);
    var t2 := Copies(s0, t1, to, from);
    t := PairReleased(s0, t2, procs, to, from);
  }

  lemma {:induction false} WritesAll(s0: T.Sys, s: T.Sys, size: nat, procs: nat, buffers: nat, k: nat)
    returns (t: T.Sys)
    requires Leads(s0, s) && Writes(s, size, procs, buffers, k) && k <= size < buffers && procs >= 2
    requires size <= W.LOGSIZE
    ensures Leads(s0, t) && Writes(t, size, procs, buffers, size)
    decreases size - k
  {
    hide Writes;
    t := s;
    if k < size {
      t := WritesNext(s0, s, size, procs, buffers, k);
      t := WritesAll(s0, t, size, procs, buffers, k + 1);
    }
  }

  // ----- The crash -----

  /** Then the block after the log has been overwritten. */
  lemma Overwritten(s: T.Sys, size: nat, procs: nat, buffers: nat)
    requires Writes(s, size, procs, buffers, size) && 2 <= size <= W.LOGSIZE
    ensures var past := W.SlotKey(s.lay, size - 1);
      !W.InLog(s.lay, past) && past in s.image && past in Original() && s.image[past] != Original()[past]
    ensures W.WellFormed(s.lay, s.image) && W.Listed(s.image[W.HeadKey(s.lay)]) == []
  {
    hide T.Inv;
    var past := W.SlotKey(s.lay, size - 1);
    T.CommitParts(Wide(s));
    assert past == W.SlotKey(Wide(s).lay, size - 1);
    assert s.image[past] == s.data[size - 1] == Filled(1);
    assert past in Original() && Original()[past] == Filled(0) && Filled(0)[0] != Filled(1)[0];
    assert W.HeadKey(s.lay) in Original();
    assert s.image[W.HeadKey(s.lay)] == Original()[W.HeadKey(s.lay)] == Filled(0);
    CommitKeys(s, size, procs, buffers, size, size - 1);
    assert forall i :: 0 <= i < size - 1 ==> W.SlotKey(s.lay, i) in Original();
  }

  /** And recovery does not undo that. */
  lemma NotAtomic(s: T.Sys, size: nat, procs: nat, buffers: nat)
    requires Writes(s, size, procs, buffers, size) && 2 <= size <= W.LOGSIZE
    ensures !T.Atomic(s, s.image)
  {
    hide T.Inv, Original, W.WellFormed;
    Overwritten(s, size, procs, buffers);
    W.RecoverNothing(s.lay, s.image);
    assert W.SlotKey(s.lay, size - 1) in W.Recovered(s.lay, s.image);
  }

  // ----- From boot -----

  /** A system that has booted on that disk. */
  function Boot(size: nat, procs: nat, buffers: nat): T.Sys {
    var zeros := seq(buffers, _ => 0);
    var cache := C.Cache(C.Countdown(buffers), seq(buffers, _ => Key(0, 0)), seq(buffers, _ => 0),
                         seq(buffers, _ => false), seq(buffers, _ => Filled(0)));
    T.Sys(W.Layout(1, 2, size), C.Sys(cache, zeros, zeros, zeros), Original(), P.Start(size, procs), R.Nobody(procs),
          {}, [], [], T.Gathering)
  }

  lemma BootIsBooted(size: nat, procs: nat, buffers: nat)
    requires 1 <= size <= W.LOGSIZE + 1
    ensures T.Booted(Boot(size, procs, buffers), procs)
  {
    var s := Boot(size, procs, buffers);
    C.BootCounted(s.cache);
    assert Original()[W.HeadKey(s.lay)] == Filled(0);
  }

  lemma BootStage(size: nat, procs: nat, buffers: nat)
    requires 1 <= size <= W.LOGSIZE
    ensures Stage(Boot(size, procs, buffers), size, procs, buffers)
  {
    BootIsBooted(W.LOGSIZE + 1, procs, buffers);
    T.BootedInv(Boot(W.LOGSIZE + 1, procs, buffers), procs);
    assert Wide(Boot(size, procs, buffers)) == Boot(W.LOGSIZE + 1, procs, buffers);
    TidyNobody(procs);
  }

  /** Whatever runs from boot, a crash at any moment is atomic. */
  ghost predicate CrashesAtomic(size: nat, procs: nat, buffers: nat) {
    forall s, acts, t, cuts, e ::
      T.Booted(s, procs) && s.lay.size == size && |s.cache.held| == buffers
      && T.Reaches(s, acts, t) && W.Interrupted(t.lay, t.image, cuts, e) ==>
        T.Atomic(t, e)
  }

  lemma ShortLogFails(size: nat, procs: nat, buffers: nat)
    requires procs >= 2 && 2 <= size <= W.LOGSIZE && size < buffers
    ensures !CrashesAtomic(size, procs, buffers)
  {
    hide Writes, Stage, T.Booted, T.Atomic, Boot;
    var s := Boot(size, procs, buffers);
    BootIsBooted(size, procs, buffers);
    BootStage(size, procs, buffers);
    BootParts(size, procs, buffers);
    var t, x, y := Overruns(s, size, procs, buffers);
    t := CommitBegins(s, t, size, procs, buffers, x, y);
    t := WritesAll(s, t, size, procs, buffers, 0);
    NotAtomic(t, size, procs, buffers);
    var acts :| T.Reaches(s, acts, t);
    assert W.Interrupted(t.lay, t.image, [], t.image);
  }

  lemma BootParts(size: nat, procs: nat, buffers: nat)
    ensures var s := Boot(size, procs, buffers);
      s.lay.size == size && |s.cache.held| == buffers && s.log == P.Start(size, procs)
  {
  }

  /** Exactly when a crash at any moment of any run is atomic: one process only, a log in
      which log_write always panics, a log with room for LOGSIZE blocks, or no more buffers
      than the log has blocks. */
  lemma CrashesAtomicIff(size: nat, procs: nat, buffers: nat)
    ensures CrashesAtomic(size, procs, buffers) <==> T.Protected(size, procs, buffers)
  {
    hide T.Atomic;
    if T.Protected(size, procs, buffers) {
      forall s, acts, t, cuts, e
        | T.Booted(s, procs) && s.lay.size == size && |s.cache.held| == buffers
          && T.Reaches(s, acts, t) && W.Interrupted(t.lay, t.image, cuts, e)
        ensures T.Atomic(t, e)
      {
        T.EveryCrashIsAtomic(s, procs, acts, t, cuts, e);
      }
    } else {
      ShortLogFails(size, procs, buffers);
    }
  }

  const NBUF := 30

  /** On the log that mkfs makes the list can become too long; that crashes are atomic all the
      same is owed to the number of buffers, of which there must not be one more. */
  lemma MkfsLogIsSaved(procs: nat)
    requires procs >= 2
    ensures !P.ListFits(W.LOGSIZE, procs)
    ensures CrashesAtomic(W.LOGSIZE, procs, NBUF) && !CrashesAtomic(W.LOGSIZE, procs, NBUF + 1)
  {
    P.ListFitsIff(W.LOGSIZE, procs);
    CrashesAtomicIff(W.LOGSIZE, procs, NBUF);
    CrashesAtomicIff(W.LOGSIZE, procs, NBUF + 1);
  }
}
