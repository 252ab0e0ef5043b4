/** Which operations may be in a transaction, and how much of the log they may use:
    begin_op, end_op and log_write of kernel/log.c, interleaved in any order. */
module LogProtocol {
  import W = LogWrites

  const MAXOPBLOCKS := 10

  /** The fields of `struct log` that the protocol turns on.  `size` is the number of
      blocks of the on-disk log, its header included. */
  datatype State = State(size: nat, outstanding: int, committing: bool, blocks: seq<nat>)

  /** begin_op goes on instead of sleeping. */
  predicate CanBegin(s: State) {
    !s.committing && |s.blocks| + (s.outstanding + 1) * MAXOPBLOCKS <= W.LOGSIZE
  }

  function Begun(s: State): State {
    s.(outstanding := s.outstanding + 1)
  }

  /** The test of log_write, which it makes before it takes the lock. */
  predicate WritePanics(s: State) {
    |s.blocks| >= W.LOGSIZE || |s.blocks| >= s.size - 1 || s.outstanding < 1
  }

  /** log_write once it has the lock: a block already listed is absorbed. */
  function Logged(s: State, b: nat): State {
    if b in s.blocks then s else s.(blocks := s.blocks + [b])
  }

  predicate EndPanics(s: State) {
    s.committing
  }

  /** end_op, up to the release of the lock: the last operation starts the commit. */
  function Ended(s: State): State {
    s.(outstanding := s.outstanding - 1, committing := s.outstanding == 1)
  }

  /** The log as commit leaves it, before `committing` is cleared. */
  function Erased(s: State): State {
    s.(blocks := [])
  }

  function Finished(s: State): State {
    s.(committing := false)
  }

  // ----- Any number of processes -----

  /** ops[p] is NONE when process p is in no operation, else the number of blocks
      its operation has newly listed.  The processes in `tested` are in log_write, past its
      test and not yet past its append. */
  datatype Sys = Sys(log: State, ops: seq<int>, tested: set<nat>)

  const NONE := -1

  datatype Act = Begin(p: nat) | Check(p: nat) | Write(p: nat, b: nat) | End(p: nat) | Erase | Finish

  /** An operation lists at most MAXOPBLOCKS new blocks; a panic stops the system. */
  predicate Enabled(s: Sys, a: Act) {
    match a
    case Begin(p) => p < |s.ops| && s.ops[p] == NONE && CanBegin(s.log)
    case Check(p) => p < |s.ops| && s.ops[p] != NONE && p !in s.tested && !WritePanics(s.log)
    case Write(p, b) =>
      p < |s.ops| && s.ops[p] != NONE && p in s.tested && (b !in s.log.blocks ==> s.ops[p] < MAXOPBLOCKS)
    case End(p) => p < |s.ops| && s.ops[p] != NONE && p !in s.tested && !EndPanics(s.log)
    case Erase => s.log.committing
    case Finish => s.log.committing && s.log.blocks == []
  }

  function Apply(s: Sys, a: Act): Sys
    requires Enabled(s, a)
  {
    match a
    case Begin(p) => s.(log := Begun(s.log), ops := s.ops[p := 0])
    case Check(p) => s.(tested := s.tested + {p})
    case Write(p, b) =>
      Sys(Logged(s.log, b), if b in s.log.blocks then s.ops else s.ops[p := s.ops[p] + 1], s.tested - {p})
    case End(p) => s.(log := Ended(s.log), ops := s.ops[p := NONE])
    case Erase => s.(log := Erased(s.log))
    case Finish => s.(log := Finished(s.log))
  }

  /** Blocks that the running operations may still list. */
  function Unused(ops: seq<int>): int {
    if ops == [] then 0 else (if ops[0] == NONE then 0 else MAXOPBLOCKS - ops[0]) + Unused(ops[1..])
  }

  function Active(ops: seq<int>): nat {
    if ops == [] then 0 else (if ops[0] == NONE then 0 else 1) + Active(ops[1..])
  }

  predicate NoRepeats(blocks: seq<nat>) {
    forall i, j :: 0 <= i < j < |blocks| ==> blocks[i] != blocks[j]
  }

  ghost predicate Inv(s: Sys) {
    && (forall p :: 0 <= p < |s.ops| ==> s.ops[p] == NONE || 0 <= s.ops[p] <= MAXOPBLOCKS)
    && s.log.outstanding == Active(s.ops)
    && |s.log.blocks| + Unused(s.ops) <= W.LOGSIZE
    && NoRepeats(s.log.blocks)
    && (s.log.committing ==> s.log.outstanding == 0)
    && forall p :: p in s.tested ==> p < |s.ops| && s.ops[p] != NONE
  }

  lemma {:induction false} SumsAfter(ops: seq<int>, p: nat, v: int)
    requires p < |ops|
    ensures Unused(ops[p := v]) == Unused(ops)
      - (if ops[p] == NONE then 0 else MAXOPBLOCKS - ops[p]) + (if v == NONE then 0 else MAXOPBLOCKS - v)
    ensures Active(ops[p := v]) == Active(ops) - (if ops[p] == NONE then 0 else 1) + (if v == NONE then 0 else 1)
  {
    if p == 0 {
      assert ops[p := v][1..] == ops[1..];
    } else {
      assert ops[p := v][1..] == ops[1..][p - 1 := v];
      SumsAfter(ops[1..], p - 1, v);
    }
  }

  lemma {:induction false} SumBounds(ops: seq<int>)
    requires forall p :: 0 <= p < |ops| ==> ops[p] == NONE || 0 <= ops[p] <= MAXOPBLOCKS
    ensures 0 <= Unused(ops) <= Active(ops) * MAXOPBLOCKS
  {
    if ops != [] {
      SumBounds(ops[1..]);
    }
  }

  /** A process in an operation counts, and what it may still list is reserved. */
  lemma {:induction false} OneCounts(ops: seq<int>, p: nat)
    requires p < |ops| && ops[p] != NONE
    requires forall q :: 0 <= q < |ops| ==> ops[q] == NONE || 0 <= ops[q] <= MAXOPBLOCKS
    ensures Active(ops) >= 1 && Unused(ops) >= MAXOPBLOCKS - ops[p]
  {
    SumBounds(ops[1..]);
    if p > 0 {
      OneCounts(ops[1..], p - 1);
    }
  }

  lemma StepKeeps(s: Sys, a: Act)
    requires Inv(s) && Enabled(s, a)
    ensures Inv(Apply(s, a))
  {
    SumBounds(s.ops);
    match a
    case Begin(p) => SumsAfter(s.ops, p, 0);
    case Write(p, b) => SumsAfter(s.ops, p, s.ops[p] + 1);
    case End(p) =>
      OneCounts(s.ops, p);
      SumsAfter(s.ops, p, NONE);
    case _ =>
  }

  ghost predicate Reaches(s: Sys, acts: seq<Act>, t: Sys)
    decreases |acts|
  {
    if acts == [] then s == t
    else Enabled(s, acts[0]) && Reaches(Apply(s, acts[0]), acts[1..], t)
  }

  lemma {:induction false} RunKeeps(s: Sys, acts: seq<Act>, t: Sys)
    requires Inv(s) && Reaches(s, acts, t)
    ensures Inv(t) && t.log.size == s.log.size && |t.ops| == |s.ops|
    decreases |acts|
  {
    if acts != [] {
      StepKeeps(s, acts[0]);
      RunKeeps(Apply(s, acts[0]), acts[1..], t);
    }
  }

  function Start(size: nat, procs: nat): Sys {
    Sys(State(size, 0, false, []), seq(procs, _ => NONE), {})
  }

  lemma {:induction false} NothingActive(ops: seq<int>)
    requires forall p :: 0 <= p < |ops| ==> ops[p] == NONE
    ensures Unused(ops) == 0 && Active(ops) == 0
  {
    if ops != [] {
      NothingActive(ops[1..]);
    }
  }

  lemma StartSafe(size: nat, procs: nat)
    ensures Inv(Start(size, procs))
  {
    NothingActive(Start(size, procs).ops);
  }

  /** In every interleaving, other appends between the test and the append of a log_write
      included: the listed blocks and all unused reservations fit LOGSIZE, no block is
      listed twice, nothing is outstanding during a commit, so no log_write lands in one
      and end_op never finds `committing` set. */
  lemma ProtocolSafe(size: nat, procs: nat, acts: seq<Act>, t: Sys)
    requires Reaches(Start(size, procs), acts, t)
    ensures |t.log.blocks| + Unused(t.ops) <= W.LOGSIZE && NoRepeats(t.log.blocks)
    ensures t.log.committing ==> forall p :: 0 <= p < |t.ops| ==> t.ops[p] == NONE
    ensures forall p :: 0 <= p < |t.ops| && t.ops[p] != NONE ==> !EndPanics(t.log) && t.log.outstanding >= 1
  {
    StartSafe(size, procs);
    RunKeeps(Start(size, procs), acts, t);
    forall p | 0 <= p < |t.ops| && t.ops[p] != NONE
      ensures !t.log.committing && t.log.outstanding >= 1
    {
      OneCounts(t.ops, p);
    }
  }

  /** Some operation wants to list a new block it has reserved, and log_write panics. */
  predicate ReservedWritePanics(s: Sys) {
    exists p :: 0 <= p < |s.ops| && s.ops[p] != NONE && p !in s.tested && s.ops[p] < MAXOPBLOCKS && WritePanics(s.log)
  }

  /** A reserved block never makes log_write panic when the on-disk log has room for
      LOGSIZE data blocks after its header. */
  lemma ReservedWriteIsSafe(size: nat, procs: nat, acts: seq<Act>, t: Sys)
    requires size >= W.LOGSIZE + 1 && Reaches(Start(size, procs), acts, t)
    ensures !ReservedWritePanics(t)
  {
    StartSafe(size, procs);
    RunKeeps(Start(size, procs), acts, t);
    forall p | 0 <= p < |t.ops| && t.ops[p] != NONE && t.ops[p] < MAXOPBLOCKS
      ensures !WritePanics(t.log)
    {
      OneCounts(t.ops, p);
    }
  }

  /** With such a log the only panic left to an operation is a full log: even a block
      that would be absorbed is refused then. */
  lemma PanicsOnlyWhenFull(size: nat, procs: nat, acts: seq<Act>, t: Sys, p: nat)
    requires size >= W.LOGSIZE + 1 && Reaches(Start(size, procs), acts, t)
    requires p < |t.ops| && t.ops[p] != NONE
    ensures WritePanics(t.log) <==> |t.log.blocks| == W.LOGSIZE
    ensures WritePanics(t.log) ==> Unused(t.ops) == 0
  {
    StartSafe(size, procs);
    RunKeeps(Start(size, procs), acts, t);
    OneCounts(t.ops, p);
    SumBounds(t.ops);
  }

  // ----- The log_write calls of one operation -----

  function Elements(s: seq<nat>): set<nat> {
    set x | x in s
  }

  /** The blocks that process p has passed to log_write since its last begin_op, in
      order, when `sofar` were passed before. */
  function Calls(acts: seq<Act>, p: nat, sofar: seq<nat>): seq<nat>
    decreases |acts|
  {
    if acts == [] then sofar else
    var next :=
      match acts[0]
      case Begin(q) => if q == p then [] else sofar
      case Write(q, b) => if q == p then sofar + [b] else sofar
      case _ => sofar;
    Calls(acts[1..], p, next)
  }

  /** All calls but the last are for fewer than MAXOPBLOCKS blocks; the last may be
      for one more, and any of them may repeat. */
  predicate Fits(calls: seq<nat>) {
    calls != [] ==> |Elements(calls[..|calls| - 1])| < MAXOPBLOCKS
  }

  /** What an operation has listed, it has listed by its calls. */
  predicate Accounted(s: Sys, p: nat, calls: seq<nat>) {
    p < |s.ops| && s.ops[p] != NONE ==>
      s.ops[p] <= |Elements(calls)| && forall b :: b in calls ==> b in s.log.blocks
  }

  lemma ElementsOfMore(calls: seq<nat>, b: nat)
    ensures Elements(calls + [b]) == Elements(calls) + {b}
  {
  }

  lemma NoElements()
    ensures Elements([]) == {}
  {
  }

  lemma CallAccounted(s: Sys, p: nat, b: nat, calls: seq<nat>)
    requires Inv(s) && Enabled(s, Write(p, b)) && Accounted(s, p, calls)
    ensures Accounted(Apply(s, Write(p, b)), p, calls + [b])
  {
    ElementsOfMore(calls, b);
    assert b !in s.log.blocks ==> |Elements(calls) + {b}| == |Elements(calls)| + 1;
    assert b in calls ==> Elements(calls) + {b} == Elements(calls);
    assert b !in calls ==> |Elements(calls) + {b}| == |Elements(calls)| + 1;
  }

  lemma {:induction false} RunAccounted(s: Sys, acts: seq<Act>, t: Sys, p: nat, sofar: seq<nat>)
    requires Inv(s) && Accounted(s, p, sofar) && Reaches(s, acts, t)
    ensures Accounted(t, p, Calls(acts, p, sofar))
    decreases |acts|
  {
    if acts != [] {
      StepKeeps(s, acts[0]);
      var u := Apply(s, acts[0]);
      match acts[0]
      case Begin(q) =>
        RunAccounted(u, acts[1..], t, p, if q == p then [] else sofar);
      case Write(q, b) =>
        if q == p {
          CallAccounted(s, p, b, sofar);
          RunAccounted(u, acts[1..], t, p, sofar + [b]);
        } else {
          RunAccounted(u, acts[1..], t, p, sofar);
        }
      case Erase =>
        if p < |s.ops| && s.ops[p] != NONE {
          OneCounts(s.ops, p);
        }
        RunAccounted(u, acts[1..], t, p, sofar);
      case _ => RunAccounted(u, acts[1..], t, p, sofar);
    }
  }

  lemma FewerElements(a: seq<nat>, b: seq<nat>)
    requires a <= b
    ensures |Elements(a)| <= |Elements(b)|
  {
    assert forall x :: x in a ==> x in b;
    SubsetSize(Elements(a), Elements(b));
  }

  lemma SubsetSize(a: set<nat>, b: set<nat>)
    requires a <= b
    ensures |a| <= |b|
  {
    assert a + (b - a) == b;
  }

  /** With room for LOGSIZE blocks after the header, an operation whose calls fit can
      always make the next of them, its test and then its append, whatever the other
      processes are doing. */
  lemma OperationNeverPanics(size: nat, procs: nat, acts: seq<Act>, t: Sys, p: nat, calls: seq<nat>, i: nat)
    requires size >= W.LOGSIZE + 1 && Reaches(Start(size, procs), acts, t)
    requires p < |t.ops| && t.ops[p] != NONE
    requires Fits(calls) && i < |calls| && Calls(acts, p, []) == calls[..i]
    ensures Enabled(t, if p in t.tested then Write(p, calls[i]) else Check(p))
  {
    StartSafe(size, procs);
    RunKeeps(Start(size, procs), acts, t);
    RunAccounted(Start(size, procs), acts, t, p, []);
    FewerElements(calls[..i], calls[..|calls| - 1]);
    OneCounts(t.ops, p);
  }

  // ----- The list and the length of the log -----

  /** The list is shorter than the log, and stays so if the process past its test appends. */
  predicate Guarded(s: Sys) {
    |s.log.blocks| < s.log.size && (s.tested != {} ==> |s.log.blocks| + 1 < s.log.size)
  }

  /** Nobody can append between the test and the append of a log_write: there is no other
      process, or the test never succeeds. */
  predicate Alone(s: Sys) {
    |s.ops| <= 1 || s.log.size <= 1
  }

  lemma StepGuarded(s: Sys, a: Act)
    requires Inv(s) && Alone(s) && Guarded(s) && Enabled(s, a)
    ensures Guarded(Apply(s, a))
  {
    if a.Write? && |s.ops| <= 1 {
      assert forall q :: q in s.tested ==> q == a.p;
      assert s.tested - {a.p} == {};
    }
  }

  lemma {:induction false} RunGuarded(s: Sys, acts: seq<Act>, t: Sys)
    requires Inv(s) && Alone(s) && Guarded(s) && Reaches(s, acts, t)
    ensures Guarded(t)
    decreases |acts|
  {
    if acts != [] {
      StepKeeps(s, acts[0]);
      StepGuarded(s, acts[0]);
      RunGuarded(Apply(s, acts[0]), acts[1..], t);
    }
  }

  /** The numbers from, from + 1, ... */
  function Numbers(from: nat, m: nat): seq<nat> {
    seq(m, i => from + i)
  }

  /** The first two processes are in operations, which have listed a and b blocks; there are
      m listed in all. */
  function Filling(size: nat, procs: nat, from: nat, m: nat, a: int, b: int): Sys
    requires procs >= 2
  {
    Sys(State(size, 2, false, Numbers(from, m)), [a, b] + seq(procs - 2, _ => NONE), {})
  }

  /** m blocks listed: up to MAXOPBLOCKS by an operation that has ended, the others in turn by
      the two that are running. */
  function Filled(size: nat, procs: nat, from: nat, m: nat): Sys
    requires procs >= 2
  {
    var rest := if m <= MAXOPBLOCKS then 0 else m - MAXOPBLOCKS;
    Filling(size, procs, from, m, (rest + 1) / 2, rest / 2)
  }

  lemma {:induction false} Join(s: Sys, first: seq<Act>, t: Sys, second: seq<Act>, u: Sys)
    requires Reaches(s, first, t) && Reaches(t, second, u)
    ensures Reaches(s, first + second, u)
    decreases |first|
  {
    if first == [] {
      assert first + second == second;
    } else {
      assert (first + second)[1..] == first[1..] + second;
      Join(Apply(s, first[0]), first[1..], t, second, u);
    }
  }

  lemma TwoActs(s: Sys, a: Act, b: Act)
    requires Enabled(s, a) && Enabled(Apply(s, a), b)
    ensures Reaches(s, [a, b], Apply(Apply(s, a), b))
  {
    assert [a, b][1..] == [b] && [b][1..] == [];
  }

  /** A whole log_write of the first or the second process. */
  lemma ListsOne(size: nat, procs: nat, from: nat, m: nat, a: int, b: int, p: nat)
    requires procs >= 2 && m + 1 < size && m < W.LOGSIZE && p < 2 && a >= 0 && b >= 0
    requires (if p == 0 then a else b) < MAXOPBLOCKS
    ensures var s := Filling(size, procs, from, m, a, b);
      && Enabled(s, Check(p)) && Enabled(Apply(s, Check(p)), Write(p, from + m))
      && Apply(Apply(s, Check(p)), Write(p, from + m))
         == Filling(size, procs, from, m + 1, if p == 0 then a + 1 else a, if p == 0 then b else b + 1)
  {
    var s := Filling(size, procs, from, m, a, b);
    var t := Apply(Apply(s, Check(p)), Write(p, from + m));
    var u := Filling(size, procs, from, m + 1, if p == 0 then a + 1 else a, if p == 0 then b else b + 1);
    assert from + m !in s.log.blocks;
    assert t.log.blocks == u.log.blocks && t.ops == u.ops && t.tested == u.tested;
  }

  lemma BeginTwo(size: nat, procs: nat, from: nat)
    requires procs >= 2
    ensures var s := Start(size, procs);
      && Enabled(s, Begin(0)) && Enabled(Apply(s, Begin(0)), Begin(1))
      && Apply(Apply(s, Begin(0)), Begin(1)) == Filling(size, procs, from, 0, 0, 0)
  {
    var t := Apply(Apply(Start(size, procs), Begin(0)), Begin(1));
    assert t.ops == Filling(size, procs, from, 0, 0, 0).ops && Numbers(from, 0) == [];
  }

  /** The first operation, with up to MAXOPBLOCKS blocks listed, ends, and another begins. */
  lemma Renews(size: nat, procs: nat, from: nat, m: nat)
    requires procs >= 2 && m <= MAXOPBLOCKS
    ensures var s := Filling(size, procs, from, m, m, 0);
      && Enabled(s, End(0)) && Enabled(Apply(s, End(0)), Begin(0))
      && Apply(Apply(s, End(0)), Begin(0)) == Filled(size, procs, from, m)
  {
    var s := Filling(size, procs, from, m, m, 0);
    assert Apply(Apply(s, End(0)), Begin(0)).ops == Filled(size, procs, from, m).ops;
  }

  lemma {:induction false} FillsFirst(size: nat, procs: nat, from: nat, m: nat) returns (acts: seq<Act>)
    requires procs >= 2 && m <= MAXOPBLOCKS && (m == 0 || m < size)
    ensures Reaches(Start(size, procs), acts, Filling(size, procs, from, m, m, 0))
    decreases m
  {
    hide Filling, Start, Enabled, Apply;
    if m == 0 {
      BeginTwo(size, procs, from);
      TwoActs(Start(size, procs), Begin(0), Begin(1));
      acts := [Begin(0), Begin(1)];
    } else {
      var before := FillsFirst(size, procs, from, m - 1);
      var s := Filling(size, procs, from, m - 1, m - 1, 0);
      ListsOne(size, procs, from, m - 1, m - 1, 0, 0);
      TwoActs(s, Check(0), Write(0, from + m - 1));
      acts := before + [Check(0), Write(0, from + m - 1)];
      Join(Start(size, procs), before, s, [Check(0), Write(0, from + m - 1)], Filling(size, procs, from, m, m, 0));
    }
  }

  /** The next block after Filled is listed by one of the two in turn. */
  lemma FillsNext(size: nat, procs: nat, from: nat, m: nat) returns (p: nat)
    requires procs >= 2 && MAXOPBLOCKS <= m < W.LOGSIZE && m + 1 < size
    ensures var s := Filled(size, procs, from, m);
      && p < 2 && Enabled(s, Check(p)) && Enabled(Apply(s, Check(p)), Write(p, from + m))
      && Apply(Apply(s, Check(p)), Write(p, from + m)) == Filled(size, procs, from, m + 1)
  {
    var rest := m - MAXOPBLOCKS;
    p := rest % 2;
    ListsOne(size, procs, from, m, (rest + 1) / 2, rest / 2, p);
  }

  lemma {:induction false} Fills(size: nat, procs: nat, from: nat, m: nat) returns (acts: seq<Act>)
    requires procs >= 2 && m <= W.LOGSIZE && (m == 0 || m < size)
    ensures Reaches(Start(size, procs), acts, Filled(size, procs, from, m))
    decreases m
  {
    if m <= MAXOPBLOCKS {
      var before := FillsFirst(size, procs, from, m);
      var s := Filling(size, procs, from, m, m, 0);
      Renews(size, procs, from, m);
      TwoActs(s, End(0), Begin(0));
      acts := before + [End(0), Begin(0)];
      Join(Start(size, procs), before, s, [End(0), Begin(0)], Filled(size, procs, from, m));
    } else {
      var before := Fills(size, procs, from, m - 1);
      var s := Filled(size, procs, from, m - 1);
      var p := FillsNext(size, procs, from, m - 1);
      TwoActs(s, Check(p), Write(p, from + m - 1));
      acts := before + [Check(p), Write(p, from + m - 1)];
      Join(Start(size, procs), before, s, [Check(p), Write(p, from + m - 1)], Filled(size, procs, from, m));
    }
  }

  ghost predicate ReservationsProtect(size: nat, procs: nat) {
    forall acts, t :: Reaches(Start(size, procs), acts, t) ==> !ReservedWritePanics(t)
  }

  /** Exactly when reservations protect log_write: with two processes or more, no
      interleaving makes a reserved write panic if and only if the on-disk log has at
      least LOGSIZE + 1 blocks. */
  lemma ReservationsProtectIff(size: nat, procs: nat)
    requires procs >= 2
    ensures ReservationsProtect(size, procs) <==> size >= W.LOGSIZE + 1
  {
    if size >= W.LOGSIZE + 1 {
      forall acts, t | Reaches(Start(size, procs), acts, t)
        ensures !ReservedWritePanics(t)
      {
        ReservedWriteIsSafe(size, procs, acts, t);
      }
    } else {
      var m := if size == 0 then 0 else size - 1;
      var acts := Fills(size, procs, 0, m);
      var t := Filled(size, procs, 0, m);
      assert 0 <= 1 < |t.ops| && t.ops[1] != NONE && t.ops[1] < MAXOPBLOCKS && WritePanics(t.log);
      assert ReservedWritePanics(t);
    }
  }

  /** The last call may not repeat once all MAXOPBLOCKS blocks are listed: with operations
      that have used their reservations up, even a block that would be absorbed panics. */
  lemma AbsorbedWriteCanPanic(size: nat, procs: nat)
    requires procs >= 2 && size >= W.LOGSIZE + 1
    ensures exists acts, t ::
      && Reaches(Start(size, procs), acts, t) && |t.ops| > 0 && t.ops[0] == MAXOPBLOCKS
      && 0 in t.log.blocks && WritePanics(t.log)
  {
    var acts := Fills(size, procs, 0, W.LOGSIZE);
    var t := Filled(size, procs, 0, W.LOGSIZE);
    assert t.log.blocks[0] == 0;
    assert Reaches(Start(size, procs), acts, t);
  }

  /** mkfs makes the on-disk log LOGSIZE blocks long, header included: one too few. */
  lemma MkfsLogTooSmall(procs: nat)
    requires procs >= 2
    ensures !ReservationsProtect(W.LOGSIZE, procs)
  {
    ReservationsProtectIff(W.LOGSIZE, procs);
  }

  ghost predicate ListFits(size: nat, procs: nat) {
    forall acts, t :: Reaches(Start(size, procs), acts, t) ==> |t.log.blocks| < size
  }

  /** Two processes make the test of log_write one after the other and then both append. */
  lemma Races(size: nat, procs: nat, from: nat, m: nat, a: int, b: int)
    requires procs >= 2 && m < W.LOGSIZE && m + 1 < size && 0 <= a < MAXOPBLOCKS && 0 <= b < MAXOPBLOCKS
    ensures var s := Filling(size, procs, from, m, a, b);
      && Enabled(s, Check(0)) && Enabled(Apply(s, Check(0)), Check(1))
      && var t := Apply(Apply(s, Check(0)), Check(1));
      && Enabled(t, Write(0, from + m)) && Enabled(Apply(t, Write(0, from + m)), Write(1, from + m + 1))
      && Apply(Apply(t, Write(0, from + m)), Write(1, from + m + 1))
         == Filling(size, procs, from, m + 2, a + 1, b + 1)
  {
    var s := Filling(size, procs, from, m, a, b);
    assert from + m !in s.log.blocks && from + m + 1 !in s.log.blocks;
    var t := Apply(Apply(s, Check(0)), Check(1));
    var u := Apply(t, Write(0, from + m));
    assert u == Filling(size, procs, from, m + 1, a + 1, b).(tested := {1}) by {
      assert u.log.blocks == Numbers(from, m + 1) && u.ops == Filling(size, procs, from, m + 1, a + 1, b).ops;
    }
    var v := Apply(u, Write(1, from + m + 1));
    assert v.log.blocks == Numbers(from, m + 2) && v.ops == Filling(size, procs, from, m + 2, a + 1, b + 1).ops;
  }

  /** Then both operations end. */
  lemma EndsBoth(size: nat, procs: nat, from: nat, m: nat, a: int, b: int)
    requires procs >= 2 && a >= 0 && b >= 0
    ensures var s := Filling(size, procs, from, m, a, b);
      && Enabled(s, End(0)) && Enabled(Apply(s, End(0)), End(1))
      && Apply(Apply(s, End(0)), End(1)).log == State(size, 0, true, Numbers(from, m))
  {
  }

  lemma RaceOverruns(size: nat, procs: nat) returns (acts: seq<Act>, t: Sys)
    requires procs >= 2 && 2 <= size <= W.LOGSIZE
    ensures Reaches(Start(size, procs), acts, t) && |t.log.blocks| == size
  {
    var m := size - 2;
    var rest := if m <= MAXOPBLOCKS then 0 else m - MAXOPBLOCKS;
    var s := Filled(size, procs, 0, m);
    acts := Fills(size, procs, 0, m);
    Races(size, procs, 0, m, (rest + 1) / 2, rest / 2);
    var u := Apply(Apply(s, Check(0)), Check(1));
    t := Apply(Apply(u, Write(0, 0 + m)), Write(1, 0 + m + 1));
    TwoActs(s, Check(0), Check(1));
    TwoActs(u, Write(0, 0 + m), Write(1, 0 + m + 1));
    hide Apply, Enabled, Start, Filled;
    Join(Start(size, procs), acts, s, [Check(0), Check(1)], u);
    Join(Start(size, procs), acts + [Check(0), Check(1)], u, [Write(0, 0 + m), Write(1, 0 + m + 1)], t);
    acts := acts + [Check(0), Check(1)] + [Write(0, 0 + m), Write(1, 0 + m + 1)];
  }

  /** log_write tests the length of the list before it takes the lock and not after: exactly
      when the list is nevertheless always shorter than the on-disk log, and so fits the
      blocks after the header. */
  lemma ListFitsIff(size: nat, procs: nat)
    ensures ListFits(size, procs) <==> size >= 1 && (procs <= 1 || size == 1 || size >= W.LOGSIZE + 1)
  {
    var start := Start(size, procs);
    StartSafe(size, procs);
    if size == 0 {
      assert Reaches(start, [], start) && |start.log.blocks| >= size;
    } else if 2 <= size <= W.LOGSIZE && procs >= 2 {
      var acts, t := RaceOverruns(size, procs);
      assert Reaches(start, acts, t) && |t.log.blocks| >= size;
    } else {
      forall acts, t | Reaches(start, acts, t)
        ensures |t.log.blocks| < size
      {
        RunKeeps(start, acts, t);
        SumBounds(t.ops);
        if size <= W.LOGSIZE {
          RunGuarded(start, acts, t);
        }
      }
    }
  }
}
