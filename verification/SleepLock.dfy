/** Sleep locks over sleep/wakeup and the scheduler hand-off of `p->lock`
    (kernel/sleeplock.c, kernel/proc.c).

    Any number of processes, CPUs and sleep locks run as one interleaved step
    system.  A step is one access to shared state: taking or dropping a spin lock,
    one field write, one `swtch`, or one turn of the scan in `wakeup`.  A spin
    lock that is taken simply disables the steps that want it. */
module SleepLock {

  datatype Status = Sleeping | Runnable | Running

  /** Who holds a spin lock. */
  datatype Holder = Nobody | Proc(p: nat) | Cpu(c: nat)

  /** What a process does next; `l` is a sleep lock, `i` another process. */
  datatype Pc =
    | Idle                      // anywhere else in the kernel or in user code
    | Acquire(l: nat)           // acquire(&lk->lk), first time or after sleep()
    | Test(l: nat)              // while (lk->locked)
    | Enter(l: nat)             // sleep: acquire(&p->lock)
    | LetGo(l: nat)             // sleep: release(lk)
    | SetChan(l: nat)           // sleep: p->chan = chan
    | SetState(l: nat)          // sleep: p->state = SLEEPING
    | Sched(l: nat)             // sched: swtch to the CPU's scheduler
    | Off(l: nat)               // switched out, inside sleep()
    | Woken(l: nat)             // sleep: p->chan = 0
    | Leave(l: nat)             // sleep: release(&p->lock)
    | Take(l: nat)              // lk->locked = 1
    | Sign(l: nat)              // lk->pid = myproc()->pid
    | Done(l: nat)              // release(&lk->lk)
    | GiveUp(l: nat)            // releasesleep: acquire(&lk->lk)
    | Clear(l: nat)             // lk->locked = 0
    | Unsign(l: nat)            // lk->pid = 0
    | Scan(l: nat, i: nat)      // wakeup: acquire(&proc[i].lock), or loop end
    | Wake(l: nat, i: nat)      // wakeup: test and set RUNNABLE
    | Drop(l: nat, i: nat)      // wakeup: release(&proc[i].lock)
    | KillGet(i: nat)           // kill: acquire(&proc[i].lock)
    | KillHit(i: nat)           // kill: SLEEPING becomes RUNNABLE
    | KillPut(i: nat)           // kill: release(&proc[i].lock)
    | YieldGet(back: Pc)        // yield: acquire(&p->lock)
    | YieldSet(back: Pc)        // yield: p->state = RUNNABLE
    | YieldSched(back: Pc)      // sched: swtch
    | YieldOff(back: Pc)        // switched out, inside yield()
    | YieldPut(back: Pc)        // yield: release(&p->lock)

  /** The loop of `scheduler` on one CPU. */
  datatype CpuPc = Looking | Checking(p: nat) | Executing(p: nat) | Returned(p: nat)

  datatype Sys = Sys(
    pc: seq<Pc>, st: seq<Status>, chan: seq<int>, plock: seq<Holder>, on: seq<nat>,
    lk: seq<Holder>, locked: seq<bool>, pid: seq<int>,
    cpus: seq<CpuPc>,
    owns: seq<set<nat>>)      // history: the sleep locks each process has

  const NONE := -1

  /** The inner spin lock that a process at `pc` holds, or NONE. */
  function SpinOf(pc: Pc): int {
    match pc
    case Test(l) => l case Enter(l) => l case LetGo(l) => l
    case Take(l) => l case Sign(l) => l case Done(l) => l
    case Clear(l) => l case Unsign(l) => l
    case Scan(l, _) => l case Wake(l, _) => l case Drop(l, _) => l
    case _ => NONE
  }

  /** The process whose `p->lock` a process `p` at `pc` holds, or NONE. */
  function PLockOf(pc: Pc, p: nat): int {
    match pc
    case LetGo(_) => p case SetChan(_) => p case SetState(_) => p
    case Sched(_) => p case Woken(_) => p case Leave(_) => p
    case Wake(_, i) => i case Drop(_, i) => i
    case KillHit(i) => i case KillPut(i) => i
    case YieldSet(_) => p case YieldSched(_) => p case YieldPut(_) => p
    case _ => NONE
  }

  predicate OffCpu(pc: Pc) {
    pc.Off? || pc.YieldOff?
  }

  /** Interrupts are on, so a timer may force a yield here. */
  predicate Preemptible(pc: Pc) {
    pc.Idle? || pc.Acquire? || pc.GiveUp? || pc.KillGet?
  }

  /** Where a preempted process comes back to. */
  predicate BackInRange(b: Pc, n: nat, m: nat) {
    && Preemptible(b)
    && (b.Acquire? || b.GiveUp? ==> b.l < m)
    && (b.KillGet? ==> b.i < n)
  }

  predicate InRange(pc: Pc, n: nat, m: nat) {
    match pc
    case Idle => true
    case Scan(l, i) => l < m && i <= n
    case Wake(l, i) => l < m && i < n
    case Drop(l, i) => l < m && i < n
    case KillGet(i) => i < n case KillHit(i) => i < n case KillPut(i) => i < n
    case YieldGet(b) => BackInRange(b, n, m)
    case YieldSet(b) => BackInRange(b, n, m)
    case YieldSched(b) => BackInRange(b, n, m)
    case YieldOff(b) => BackInRange(b, n, m)
    case YieldPut(b) => BackInRange(b, n, m)
    case _ => pc.l < m
  }

  predicate Sized(s: Sys) {
    && |s.st| == |s.pc| && |s.chan| == |s.pc| && |s.plock| == |s.pc|
    && |s.on| == |s.pc| && |s.owns| == |s.pc|
    && |s.locked| == |s.lk| && |s.pid| == |s.lk|
  }

  /** Process p of s is well placed. */
  predicate Placed(s: Sys, p: nat) {
    && Sized(s) && p < |s.pc|
    && InRange(s.pc[p], |s.pc|, |s.lk|) && s.on[p] < |s.cpus|
  }

  predicate Shape(s: Sys) {
    && Sized(s)
    && (forall p :: 0 <= p < |s.pc| ==> Placed(s, p))
    && (forall c :: 0 <= c < |s.cpus| && !s.cpus[c].Looking? ==> s.cpus[c].p < |s.pc|)
  }

  // ----- Steps -----

  datatype Act =
    | BeginAcquire(p: nat, l: nat)   // a process calls acquiresleep
    | BeginRelease(p: nat, l: nat)   // the owner calls releasesleep
    | BeginKill(p: nat, i: nat)
    | BeginYield(p: nat)
    | Advance(p: nat)                // the next access of the code at pc
    | Look(c: nat, p: nat)           // scheduler: acquire(&p->lock)
    | Switch(c: nat)                 // scheduler: p->state = RUNNING; swtch
    | Pass(c: nat)                   // scheduler: release(&p->lock)

  predicate Enabled(s: Sys, a: Act)
    requires Shape(s)
  {
    match a
    case BeginAcquire(p, l) => p < |s.pc| && l < |s.lk| && s.pc[p].Idle?
    case BeginRelease(p, l) => p < |s.pc| && l < |s.lk| && s.pc[p].Idle? && l in s.owns[p]
    case BeginKill(p, i) => p < |s.pc| && i < |s.pc| && s.pc[p].Idle?
    case BeginYield(p) => p < |s.pc| && Preemptible(s.pc[p])
    case Advance(p) => p < |s.pc| && CanAdvance(s, p)
    case Look(c, p) => c < |s.cpus| && p < |s.pc| && s.cpus[c].Looking? && s.plock[p].Nobody?
    case Switch(c) => c < |s.cpus| && s.cpus[c].Checking? && s.st[s.cpus[c].p].Runnable?
    case Pass(c) =>
      && c < |s.cpus|
      && (s.cpus[c].Returned? || (s.cpus[c].Checking? && !s.st[s.cpus[c].p].Runnable?))
  }

  predicate CanAdvance(s: Sys, p: nat)
    requires Placed(s, p)
  {
    match s.pc[p]
    case Idle => false
    case Acquire(l) => s.lk[l].Nobody?
    case GiveUp(l) => s.lk[l].Nobody?
    case Enter(_) => s.plock[p].Nobody?
    case YieldGet(_) => s.plock[p].Nobody?
    case Scan(_, i) => i < |s.pc| ==> s.plock[i].Nobody?
    case KillGet(i) => s.plock[i].Nobody?
    case Off(_) => false
    case YieldOff(_) => false
    case _ => true
  }

  /** One access to shared state by process p. */
  datatype Effect =
    | Nothing
    | TakeSpin(l: nat) | DropSpin(l: nat)
    | TakeProc(i: nat) | DropProc(i: nat)
    | WriteChan(v: int) | WriteStatus(i: nat, st: Status)
    | WriteLocked(l: nat, b: bool) | WritePid(l: nat, v: int)
    | SwitchOut

  predicate EffectInRange(e: Effect, n: nat, m: nat) {
    match e
    case TakeSpin(l) => l < m case DropSpin(l) => l < m
    case WriteLocked(l, _) => l < m case WritePid(l, _) => l < m
    case TakeProc(i) => i < n case DropProc(i) => i < n
    case WriteStatus(i, _) => i < n
    case _ => true
  }

  /** The access that the code at p's pc makes. */
  function EffectOf(s: Sys, p: nat): Effect
    requires Placed(s, p)
  {
    match s.pc[p]
    case Acquire(l) => TakeSpin(l)
    case GiveUp(l) => TakeSpin(l)
    case LetGo(l) => DropSpin(l)
    case Done(l) => DropSpin(l)
    case Enter(_) => TakeProc(p)
    case YieldGet(_) => TakeProc(p)
    case KillGet(i) => TakeProc(i)
    case Scan(_, i) => if i < |s.pc| then TakeProc(i) else Nothing
    case Leave(_) => DropProc(p)
    case YieldPut(_) => DropProc(p)
    case Drop(_, i) => DropProc(i)
    case KillPut(i) => DropProc(i)
    case SetChan(l) => WriteChan(l)
    case Woken(_) => WriteChan(NONE)
    case SetState(_) => WriteStatus(p, Sleeping)
    case YieldSet(_) => WriteStatus(p, Runnable)
    case Wake(l, i) => if s.st[i].Sleeping? && s.chan[i] == l then WriteStatus(i, Runnable) else Nothing
    case KillHit(i) => if s.st[i].Sleeping? then WriteStatus(i, Runnable) else Nothing
    case Take(l) => WriteLocked(l, true)
    case Clear(l) => WriteLocked(l, false)
    case Sign(l) => WritePid(l, p)
    case Unsign(l) => WritePid(l, NONE)
    case Sched(_) => SwitchOut
    case YieldSched(_) => SwitchOut
    case _ => Nothing
  }

  /** Where the code at p's pc goes next. */
  function NextPc(s: Sys, p: nat): Pc
    requires Placed(s, p)
  {
    match s.pc[p]
    case Acquire(l) => Test(l)
    case Test(l) => if s.locked[l] then Enter(l) else Take(l)
    case Enter(l) => LetGo(l)
    case LetGo(l) => SetChan(l)
    case SetChan(l) => SetState(l)
    case SetState(l) => Sched(l)
    case Sched(l) => Off(l)
    case Woken(l) => Leave(l)
    case Leave(l) => Acquire(l)
    case Take(l) => Sign(l)
    case Sign(l) => Done(l)
    case Done(_) => Idle
    case GiveUp(l) => Clear(l)
    case Clear(l) => Unsign(l)
    case Unsign(l) => Scan(l, 0)
    case Scan(l, i) => if i < |s.pc| then Wake(l, i) else Done(l)
    case Wake(l, i) => Drop(l, i)
    case Drop(l, i) => Scan(l, i + 1)
    case KillGet(i) => KillHit(i)
    case KillHit(i) => KillPut(i)
    case KillPut(_) => Idle
    case YieldGet(b) => YieldSet(b)
    case YieldSet(b) => YieldSched(b)
    case YieldSched(b) => YieldOff(b)
    case YieldPut(b) => b
    case pc => pc
  }

  /** The state after an access: each field changes under its own effects only.
      The `owns` history follows `locked`; `swtch` passes `p->lock` to the
      scheduler of p's CPU. */
  function Perform(s: Sys, p: nat, e: Effect, to: Pc): Sys
    requires Placed(s, p) && EffectInRange(e, |s.pc|, |s.lk|)
  {
    var t := s.(pc := s.pc[p := to]);
    match e
    case Nothing => t
    case TakeSpin(l) => t.(lk := s.lk[l := Proc(p)])
    case DropSpin(l) => t.(lk := s.lk[l := Nobody])
    case TakeProc(i) => t.(plock := s.plock[i := Proc(p)])
    case DropProc(i) => t.(plock := s.plock[i := Nobody])
    case WriteChan(v) => t.(chan := s.chan[p := v])
    case WriteStatus(i, st) => t.(st := s.st[i := st])
    case WriteLocked(l, b) =>
      t.(locked := s.locked[l := b],
         owns := s.owns[p := if b then s.owns[p] + {l} else s.owns[p] - {l}])
    case WritePid(l, v) => t.(pid := s.pid[l := v])
    case SwitchOut =>
      t.(cpus := s.cpus[s.on[p] := Returned(p)], plock := s.plock[p := Cpu(s.on[p])])
  }

  function Advanced(s: Sys, p: nat): Sys
    requires Placed(s, p) && CanAdvance(s, p)
  {
    Perform(s, p, EffectOf(s, p), NextPc(s, p))
  }

  function Apply(s: Sys, a: Act): Sys
    requires Shape(s) && Enabled(s, a)
  {
    match a
    case BeginAcquire(p, l) => Perform(s, p, Nothing, Acquire(l))
    case BeginRelease(p, l) => Perform(s, p, Nothing, GiveUp(l))
    case BeginKill(p, i) => Perform(s, p, Nothing, KillGet(i))
    case BeginYield(p) => Perform(s, p, Nothing, YieldGet(s.pc[p]))
    case Advance(p) => Advanced(s, p)
    case Look(c, p) =>
      s.(cpus := s.cpus[c := Checking(p)], plock := s.plock[p := Cpu(c)])
    case Switch(c) =>
      var p := s.cpus[c].p;
      var to := match s.pc[p]
        case Off(l) => Woken(l)
        case YieldOff(b) => YieldPut(b)
        case pc => pc;             // never: the context would run on two CPUs
      s.(cpus := s.cpus[c := Executing(p)], st := s.st[p := Running], on := s.on[p := c],
         plock := s.plock[p := Proc(p)], pc := s.pc[p := to])
    case Pass(c) => s.(cpus := s.cpus[c := Looking], plock := s.plock[s.cpus[c].p := Nobody])
  }

  // ----- Invariant, one predicate for each group of fields -----

  ghost predicate SpinLocksAgree(pc: seq<Pc>, lk: seq<Holder>) {
    && (forall p :: 0 <= p < |pc| && SpinOf(pc[p]) != NONE ==>
          SpinOf(pc[p]) < |lk| && lk[SpinOf(pc[p])] == Proc(p))
    && (forall l :: 0 <= l < |lk| && !lk[l].Nobody? ==>
          lk[l].Proc? && lk[l].p < |pc| && SpinOf(pc[lk[l].p]) == l)
  }

  ghost predicate ProcLocksAgree(pc: seq<Pc>, plock: seq<Holder>, cpus: seq<CpuPc>) {
    && (forall p :: 0 <= p < |pc| && PLockOf(pc[p], p) != NONE ==>
          PLockOf(pc[p], p) < |plock| && plock[PLockOf(pc[p], p)] == Proc(p))
    && (forall c :: 0 <= c < |cpus| && (cpus[c].Checking? || cpus[c].Returned?) ==>
          cpus[c].p < |plock| && plock[cpus[c].p] == Cpu(c))
    && (forall i :: 0 <= i < |plock| && plock[i].Proc? ==>
          plock[i].p < |pc| && PLockOf(pc[plock[i].p], plock[i].p) == i)
    && (forall i :: 0 <= i < |plock| && plock[i].Cpu? ==>
          && plock[i].c < |cpus| && (cpus[plock[i].c].Checking? || cpus[plock[i].c].Returned?)
          && cpus[plock[i].c].p == i)
  }

  /** A process runs on exactly one CPU, or is switched out and on none. */
  ghost predicate CpusAgree(pc: seq<Pc>, on: seq<nat>, cpus: seq<CpuPc>)
    requires |on| == |pc|
  {
    && (forall p :: 0 <= p < |pc| && !OffCpu(pc[p]) ==> on[p] < |cpus| && cpus[on[p]] == Executing(p))
    && (forall c :: 0 <= c < |cpus| && cpus[c].Executing? ==>
          cpus[c].p < |pc| && !OffCpu(pc[cpus[c].p]) && on[cpus[c].p] == c)
  }

  predicate StatusFits(pc: Pc, st: Status, chan: int) {
    match pc
    case Off(l) => !st.Running? && chan == l
    case Sched(l) => st.Sleeping? && chan == l
    case SetState(l) => st.Running? && chan == l
    case Woken(l) => st.Running? && chan == l
    case YieldOff(_) => st.Runnable? && chan == NONE
    case YieldSched(_) => st.Runnable? && chan == NONE
    case _ => st.Running? && chan == NONE
  }

  ghost predicate StatusAgrees(s: Sys)
    requires Sized(s)
  {
    forall p :: 0 <= p < |s.pc| ==> StatusFits(s.pc[p], s.st[p], s.chan[p])
  }

  /** The sleep lock that `pc` belongs to the owner of, or NONE. */
  function OwnerOf(pc: Pc): int {
    match pc
    case Sign(l) => l case GiveUp(l) => l case Clear(l) => l
    case YieldGet(b) => if b.GiveUp? then b.l else NONE
    case YieldSet(b) => if b.GiveUp? then b.l else NONE
    case YieldSched(b) => if b.GiveUp? then b.l else NONE
    case YieldOff(b) => if b.GiveUp? then b.l else NONE
    case YieldPut(b) => if b.GiveUp? then b.l else NONE
    case _ => NONE
  }

  ghost predicate HasOwner(owns: seq<set<nat>>, l: nat) {
    exists p {:trigger l in owns[p]} :: 0 <= p < |owns| && l in owns[p]
  }

  ghost predicate OwnersAgree(pc: seq<Pc>, locked: seq<bool>, pid: seq<int>, owns: seq<set<nat>>)
    requires |owns| == |pc| && |pid| == |locked|
  {
    && (forall p, l {:trigger l in owns[p]} :: 0 <= p < |pc| && l in owns[p] ==> l < |locked| && locked[l])
    && (forall p, q, l {:trigger l in owns[p], l in owns[q]} ::
          0 <= p < |pc| && 0 <= q < |pc| && l in owns[p] && l in owns[q] ==> p == q)
    && (forall l :: 0 <= l < |locked| && locked[l] ==> HasOwner(owns, l))
    && (forall p, l {:trigger l in owns[p]} ::
          0 <= p < |pc| && l in owns[p] && l < |pid| && pc[p] != Sign(l) ==> pid[l] == p)
    && (forall p :: 0 <= p < |pc| && OwnerOf(pc[p]) != NONE ==> OwnerOf(pc[p]) in owns[p])
  }

  /** While it holds the inner spin lock, a process knows whether `locked` is set. */
  ghost predicate Knowing(pc: Pc, locked: seq<bool>) {
    && ((pc.Enter? || pc.LetGo?) ==> pc.l < |locked| && locked[pc.l])
    && ((pc.Take? || pc.Unsign? || pc.Scan? || pc.Wake? || pc.Drop?) ==> pc.l < |locked| && !locked[pc.l])
  }

  ghost predicate KnowledgeHolds(pc: seq<Pc>, locked: seq<bool>) {
    forall p :: 0 <= p < |pc| ==> Knowing(pc[p], locked)
  }

  /** The process has tested `locked` and is on its way to, or in, its sleep. */
  predicate Committed(pc: Pc, st: Status) {
    pc.SetChan? || pc.SetState? || pc.Sched? || (pc.Off? && st.Sleeping?)
  }

  /** The scan of a wakeup on l has not yet passed process p. */
  predicate ScanAhead(pc: Pc, l: nat, p: nat) {
    match pc
    case Unsign(m) => m == l
    case Scan(m, i) => m == l && i <= p
    case Wake(m, i) => m == l && i <= p
    case Drop(m, i) => m == l && i < p
    case _ => false
  }

  /** The lock is taken, or the holder of its spin lock is a waker still to reach p. */
  predicate WakeupDue(pc: seq<Pc>, locked: seq<bool>, lk: seq<Holder>, l: nat, p: nat) {
    && l < |locked| && l < |lk|
    && (locked[l] || (lk[l].Proc? && lk[l].p < |pc| && ScanAhead(pc[lk[l].p], l, p)))
  }

  ghost predicate WakeupsPending(pc: seq<Pc>, st: seq<Status>, locked: seq<bool>, lk: seq<Holder>)
    requires |st| == |pc|
  {
    forall p :: 0 <= p < |pc| && Committed(pc[p], st[p]) ==> WakeupDue(pc, locked, lk, pc[p].l, p)
  }

  ghost predicate Inv(s: Sys) {
    && Shape(s)
    && SpinLocksAgree(s.pc, s.lk)
    && ProcLocksAgree(s.pc, s.plock, s.cpus)
    && CpusAgree(s.pc, s.on, s.cpus)
    && StatusAgrees(s)
    && OwnersAgree(s.pc, s.locked, s.pid, s.owns)
    && KnowledgeHolds(s.pc, s.locked)
    && WakeupsPending(s.pc, s.st, s.locked, s.lk)
  }

  // ----- Spin locks -----

  predicate SpinFits(from: Pc, to: Pc, e: Effect) {
    match e
    case TakeSpin(l) => SpinOf(from) == NONE && SpinOf(to) == l
    case DropSpin(l) => SpinOf(from) == l && SpinOf(to) == NONE
    case _ => SpinOf(from) == SpinOf(to)
  }

  lemma SpinTable(s: Sys, p: nat)
    requires Placed(s, p) && CanAdvance(s, p)
    ensures SpinFits(s.pc[p], NextPc(s, p), EffectOf(s, p))
    ensures EffectOf(s, p).TakeSpin? ==> s.lk[EffectOf(s, p).l].Nobody?
  {
  }

  lemma SpinSame(pc: seq<Pc>, lk: seq<Holder>, p: nat, to: Pc)
    requires SpinLocksAgree(pc, lk) && p < |pc| && SpinOf(to) == SpinOf(pc[p])
    ensures SpinLocksAgree(pc[p := to], lk)
  {
  }

  lemma SpinTaken(pc: seq<Pc>, lk: seq<Holder>, p: nat, to: Pc, l: nat)
    requires SpinLocksAgree(pc, lk) && p < |pc| && l < |lk|
    requires SpinOf(pc[p]) == NONE && SpinOf(to) == l && lk[l].Nobody?
    ensures SpinLocksAgree(pc[p := to], lk[l := Proc(p)])
  {
  }

  lemma SpinDropped(pc: seq<Pc>, lk: seq<Holder>, p: nat, to: Pc, l: nat)
    requires SpinLocksAgree(pc, lk) && p < |pc| && l < |lk|
    requires SpinOf(pc[p]) == l && SpinOf(to) == NONE
    ensures SpinLocksAgree(pc[p := to], lk[l := Nobody])
  {
  }

  lemma SpinKept(s: Sys, p: nat, e: Effect, to: Pc)
    requires Placed(s, p) && EffectInRange(e, |s.pc|, |s.lk|) && SpinLocksAgree(s.pc, s.lk)
    requires SpinFits(s.pc[p], to, e) && (e.TakeSpin? ==> s.lk[e.l].Nobody?)
    ensures var t := Perform(s, p, e, to); SpinLocksAgree(t.pc, t.lk)
  {
    match e
    case TakeSpin(l) => SpinTaken(s.pc, s.lk, p, to, l);
    case DropSpin(l) => SpinDropped(s.pc, s.lk, p, to, l);
    case _ => SpinSame(s.pc, s.lk, p, to);
  }

  // ----- Process locks, and their hand-off through swtch -----

  predicate PLockFits(from: Pc, to: Pc, e: Effect, p: nat) {
    match e
    case TakeProc(i) => PLockOf(from, p) == NONE && PLockOf(to, p) == i
    case DropProc(i) => PLockOf(from, p) == i && PLockOf(to, p) == NONE
    case SwitchOut => PLockOf(from, p) == p && PLockOf(to, p) == NONE
    case _ => PLockOf(from, p) == PLockOf(to, p)
  }

  lemma PLockTable(s: Sys, p: nat)
    requires Placed(s, p) && CanAdvance(s, p)
    ensures PLockFits(s.pc[p], NextPc(s, p), EffectOf(s, p), p)
    ensures EffectOf(s, p).TakeProc? ==> s.plock[EffectOf(s, p).i].Nobody?
  {
  }

  lemma PLockSame(pc: seq<Pc>, plock: seq<Holder>, cpus: seq<CpuPc>, p: nat, to: Pc)
    requires ProcLocksAgree(pc, plock, cpus) && p < |pc| && PLockOf(to, p) == PLockOf(pc[p], p)
    ensures ProcLocksAgree(pc[p := to], plock, cpus)
  {
  }

  lemma PLockTaken(pc: seq<Pc>, plock: seq<Holder>, cpus: seq<CpuPc>, p: nat, to: Pc, i: nat)
    requires ProcLocksAgree(pc, plock, cpus) && p < |pc| && i < |plock| && plock[i].Nobody?
    requires PLockOf(pc[p], p) == NONE && PLockOf(to, p) == i
    ensures ProcLocksAgree(pc[p := to], plock[i := Proc(p)], cpus)
  {
  }

  lemma PLockDropped(pc: seq<Pc>, plock: seq<Holder>, cpus: seq<CpuPc>, p: nat, to: Pc, i: nat)
    requires ProcLocksAgree(pc, plock, cpus) && p < |pc| && i < |plock|
    requires PLockOf(pc[p], p) == i && PLockOf(to, p) == NONE
    ensures ProcLocksAgree(pc[p := to], plock[i := Nobody], cpus)
  {
  }

  lemma PLockHandedOut(pc: seq<Pc>, plock: seq<Holder>, cpus: seq<CpuPc>, p: nat, to: Pc, c: nat)
    requires ProcLocksAgree(pc, plock, cpus) && p < |pc| && p < |plock|
    requires PLockOf(pc[p], p) == p && PLockOf(to, p) == NONE
    requires c < |cpus| && cpus[c].Executing?
    ensures ProcLocksAgree(pc[p := to], plock[p := Cpu(c)], cpus[c := Returned(p)])
  {
  }

  lemma PLockHandedIn(pc: seq<Pc>, plock: seq<Holder>, cpus: seq<CpuPc>, p: nat, to: Pc, c: nat)
    requires ProcLocksAgree(pc, plock, cpus) && p < |pc| && p < |plock|
    requires PLockOf(pc[p], p) == NONE && PLockOf(to, p) == p
    requires c < |cpus| && cpus[c] == Checking(p)
    ensures ProcLocksAgree(pc[p := to], plock[p := Proc(p)], cpus[c := Executing(p)])
  {
  }

  lemma PLockKept(s: Sys, p: nat, e: Effect, to: Pc)
    requires Placed(s, p) && EffectInRange(e, |s.pc|, |s.lk|)
    requires ProcLocksAgree(s.pc, s.plock, s.cpus) && s.cpus[s.on[p]].Executing?
    requires PLockFits(s.pc[p], to, e, p) && (e.TakeProc? ==> s.plock[e.i].Nobody?)
    ensures var t := Perform(s, p, e, to); ProcLocksAgree(t.pc, t.plock, t.cpus)
  {
    match e
    case TakeProc(i) => PLockTaken(s.pc, s.plock, s.cpus, p, to, i);
    case DropProc(i) => PLockDropped(s.pc, s.plock, s.cpus, p, to, i);
    case SwitchOut => PLockHandedOut(s.pc, s.plock, s.cpus, p, to, s.on[p]);
    case _ => PLockSame(s.pc, s.plock, s.cpus, p, to);
  }

  // ----- CPUs and ranges -----

  lemma CpusTable(s: Sys, p: nat)
    requires Placed(s, p) && CanAdvance(s, p)
    ensures !OffCpu(s.pc[p]) && (OffCpu(NextPc(s, p)) <==> EffectOf(s, p).SwitchOut?)
    ensures EffectInRange(EffectOf(s, p), |s.pc|, |s.lk|)
    ensures InRange(NextPc(s, p), |s.pc|, |s.lk|)
  {
  }

  lemma CpusKept(s: Sys, p: nat, e: Effect, to: Pc)
    requires Placed(s, p) && EffectInRange(e, |s.pc|, |s.lk|) && CpusAgree(s.pc, s.on, s.cpus)
    requires !OffCpu(s.pc[p]) && (OffCpu(to) <==> e.SwitchOut?)
    ensures var t := Perform(s, p, e, to); |t.on| == |t.pc| && CpusAgree(t.pc, t.on, t.cpus)
  {
  }

  lemma ShapeKept(s: Sys, p: nat, e: Effect, to: Pc)
    requires Shape(s) && p < |s.pc| && EffectInRange(e, |s.pc|, |s.lk|) && InRange(to, |s.pc|, |s.lk|)
    ensures Shape(Perform(s, p, e, to))
  {
    var t := Perform(s, p, e, to);
    forall q | 0 <= q < |t.pc|
      ensures Placed(t, q)
    {
      assert Placed(s, q);
    }
  }

  // ----- Process status -----

  /** A process found asleep under its lock by someone else is switched out. */
  lemma SleeperIsOff(s: Sys, p: nat, i: nat)
    requires Sized(s) && ProcLocksAgree(s.pc, s.plock, s.cpus) && StatusAgrees(s)
    requires p < |s.pc| && i < |s.pc| && PLockOf(s.pc[p], p) == i
    requires s.st[i].Sleeping? && (s.pc[p].Wake? || s.pc[p].KillHit?)
    ensures s.pc[i].Off? && i != p
  {
    assert StatusFits(s.pc[i], s.st[i], s.chan[i]);
    assert StatusFits(s.pc[p], s.st[p], s.chan[p]);
  }

  predicate StatusStep(s: Sys, p: nat, e: Effect, to: Pc)
    requires Placed(s, p) && EffectInRange(e, |s.pc|, |s.lk|)
  {
    match e
    case WriteChan(v) => StatusFits(to, s.st[p], v)
    case WriteStatus(i, st) =>
      if i == p then StatusFits(to, st, s.chan[p])
      else StatusFits(to, s.st[p], s.chan[p]) && StatusFits(s.pc[i], st, s.chan[i])
    case _ => StatusFits(to, s.st[p], s.chan[p])
  }

  lemma StatusTable(s: Sys, p: nat)
    requires Placed(s, p) && CanAdvance(s, p) && EffectInRange(EffectOf(s, p), |s.pc|, |s.lk|)
    requires StatusFits(s.pc[p], s.st[p], s.chan[p])
    requires (s.pc[p].Wake? || s.pc[p].KillHit?) && s.st[s.pc[p].i].Sleeping? ==>
      s.pc[s.pc[p].i].Off? && s.pc[p].i != p
      && StatusFits(s.pc[s.pc[p].i], s.st[s.pc[p].i], s.chan[s.pc[p].i])
    ensures StatusStep(s, p, EffectOf(s, p), NextPc(s, p))
  {
  }

  lemma StatusKept(s: Sys, p: nat, e: Effect, to: Pc)
    requires Placed(s, p) && EffectInRange(e, |s.pc|, |s.lk|) && StatusAgrees(s)
    requires StatusStep(s, p, e, to)
    ensures var t := Perform(s, p, e, to); Sized(t) && StatusAgrees(t)
  {
    var t := Perform(s, p, e, to);
    forall q | 0 <= q < |t.pc|
      ensures StatusFits(t.pc[q], t.st[q], t.chan[q])
    {
      assert StatusFits(s.pc[q], s.st[q], s.chan[q]);
    }
  }

  // ----- Owners -----

  predicate OwnersFit(from: Pc, to: Pc, e: Effect, p: nat) {
    match e
    case WriteLocked(l, true) => from == Take(l) && to == Sign(l)
    case WriteLocked(l, false) => from == Clear(l) && to == Unsign(l)
    case WritePid(l, v) =>
      || (from == Sign(l) && v == p && to == Done(l))
      || (from == Unsign(l) && to == Scan(l, 0))
    case _ => !from.Sign? && (OwnerOf(to) == NONE || OwnerOf(to) == OwnerOf(from))
  }

  lemma OwnersTable(s: Sys, p: nat)
    requires Placed(s, p) && CanAdvance(s, p)
    ensures OwnersFit(s.pc[p], NextPc(s, p), EffectOf(s, p), p)
  {
  }

  lemma OwnersSame(pc: seq<Pc>, locked: seq<bool>, pid: seq<int>, owns: seq<set<nat>>, p: nat, to: Pc)
    requires |owns| == |pc| && |pid| == |locked| && OwnersAgree(pc, locked, pid, owns) && p < |pc|
    requires OwnerOf(to) != NONE ==> OwnerOf(to) in owns[p]
    requires !pc[p].Sign?
    ensures OwnersAgree(pc[p := to], locked, pid, owns)
  {
  }

  lemma OwnersTake(pc: seq<Pc>, locked: seq<bool>, pid: seq<int>, owns: seq<set<nat>>, p: nat, l: nat)
    requires |owns| == |pc| && |pid| == |locked| && OwnersAgree(pc, locked, pid, owns) && p < |pc|
    requires pc[p] == Take(l) && l < |locked| && !locked[l]
    ensures OwnersAgree(pc[p := Sign(l)], locked[l := true], pid, owns[p := owns[p] + {l}])
  {
    var owns' := owns[p := owns[p] + {l}];
    forall m | 0 <= m < |locked| && locked[l := true][m]
      ensures HasOwner(owns', m)
    {
      if m == l {
        assert m in owns'[p];
      } else {
        var q :| 0 <= q < |owns| && m in owns[q];
        assert m in owns'[q];
      }
    }
  }

  lemma OwnersSign(pc: seq<Pc>, locked: seq<bool>, pid: seq<int>, owns: seq<set<nat>>, p: nat, l: nat)
    requires |owns| == |pc| && |pid| == |locked| && OwnersAgree(pc, locked, pid, owns) && p < |pc|
    requires pc[p] == Sign(l) && l < |locked|
    ensures OwnersAgree(pc[p := Done(l)], locked, pid[l := p], owns)
  {
    assert OwnerOf(pc[p]) == l;
  }

  lemma OwnersClear(pc: seq<Pc>, locked: seq<bool>, pid: seq<int>, owns: seq<set<nat>>, p: nat, l: nat)
    requires |owns| == |pc| && |pid| == |locked| && OwnersAgree(pc, locked, pid, owns) && p < |pc|
    requires pc[p] == Clear(l) && l < |locked|
    ensures OwnersAgree(pc[p := Unsign(l)], locked[l := false], pid, owns[p := owns[p] - {l}])
  {
    assert OwnerOf(pc[p]) == l;
    var owns' := owns[p := owns[p] - {l}];
    forall m | 0 <= m < |locked| && locked[l := false][m]
      ensures HasOwner(owns', m)
    {
      var q :| 0 <= q < |owns| && m in owns[q];
      assert m in owns'[q];
    }
  }

  lemma OwnersUnsign(pc: seq<Pc>, locked: seq<bool>, pid: seq<int>, owns: seq<set<nat>>, p: nat, l: nat, v: int)
    requires |owns| == |pc| && |pid| == |locked| && OwnersAgree(pc, locked, pid, owns) && p < |pc|
    requires pc[p] == Unsign(l) && l < |locked| && !locked[l]
    ensures OwnersAgree(pc[p := Scan(l, 0)], locked, pid[l := v], owns)
  {
  }

  lemma OwnersKept(s: Sys, p: nat, e: Effect, to: Pc)
    requires Placed(s, p) && EffectInRange(e, |s.pc|, |s.lk|)
    requires OwnersAgree(s.pc, s.locked, s.pid, s.owns) && Knowing(s.pc[p], s.locked)
    requires OwnersFit(s.pc[p], to, e, p)
    ensures var t := Perform(s, p, e, to);
      Sized(t) && OwnersAgree(t.pc, t.locked, t.pid, t.owns)
  {
    match e
    case WriteLocked(l, b) =>
      if b { OwnersTake(s.pc, s.locked, s.pid, s.owns, p, l); }
      else { OwnersClear(s.pc, s.locked, s.pid, s.owns, p, l); }
    case WritePid(l, v) =>
      if s.pc[p].Sign? { OwnersSign(s.pc, s.locked, s.pid, s.owns, p, l); }
      else { OwnersUnsign(s.pc, s.locked, s.pid, s.owns, p, l, v); }
    case _ => OwnersSame(s.pc, s.locked, s.pid, s.owns, p, to);
  }

  // ----- What the holder of the inner spin lock knows -----

  lemma KnowledgeTable(s: Sys, p: nat)
    requires Placed(s, p) && CanAdvance(s, p) && Knowing(s.pc[p], s.locked)
    ensures var e := EffectOf(s, p);
      (if e.WriteLocked? then e.l < |s.lk| && SpinOf(s.pc[p]) == e.l && Knowing(NextPc(s, p), s.locked[e.l := e.b])
       else Knowing(NextPc(s, p), s.locked))
  {
  }

  /** Only the holder of the spin lock changes `locked`, so no one else is misled. */
  lemma KnowledgeKept(s: Sys, p: nat, e: Effect, to: Pc)
    requires Placed(s, p) && EffectInRange(e, |s.pc|, |s.lk|)
    requires SpinLocksAgree(s.pc, s.lk) && KnowledgeHolds(s.pc, s.locked)
    requires if e.WriteLocked? then SpinOf(s.pc[p]) == e.l && Knowing(to, s.locked[e.l := e.b])
             else Knowing(to, s.locked)
    ensures var t := Perform(s, p, e, to); KnowledgeHolds(t.pc, t.locked)
  {
    var t := Perform(s, p, e, to);
    forall q | 0 <= q < |t.pc|
      ensures Knowing(t.pc[q], t.locked)
    {
      assert Knowing(s.pc[q], s.locked);
      if q != p && e.WriteLocked? {
        assert SpinOf(s.pc[q]) != e.l;
      }
    }
  }

  // ----- No wakeup is lost -----

  /** Every sleeper still ahead of the scan at `from` is still ahead at `to`. */
  ghost predicate Carries(from: Pc, to: Pc, n: nat) {
    forall l, q :: 0 <= q < n && ScanAhead(from, l, q) ==> ScanAhead(to, l, q)
  }

  /** The same, except for process i, which the scan is passing. */
  ghost predicate CarriesBut(from: Pc, to: Pc, n: nat, i: nat) {
    forall l, q :: 0 <= q < n && q != i && ScanAhead(from, l, q) ==> ScanAhead(to, l, q)
  }

  ghost predicate NotScanning(from: Pc) {
    forall l, q :: !ScanAhead(from, l, q)
  }

  lemma WakeupsMove(pc: seq<Pc>, st: seq<Status>, locked: seq<bool>, lk: seq<Holder>, p: nat, to: Pc, st': Status)
    requires |st| == |pc| && p < |pc| && WakeupsPending(pc, st, locked, lk)
    requires Committed(to, st') ==> Committed(pc[p], st[p]) && to.l == pc[p].l
    requires Carries(pc[p], to, |pc|)
    ensures WakeupsPending(pc[p := to], st[p := st'], locked, lk)
  {
    var pc', st2 := pc[p := to], st[p := st'];
    forall q | 0 <= q < |pc'| && Committed(pc'[q], st2[q])
      ensures WakeupDue(pc', locked, lk, pc'[q].l, q)
    {
      assert WakeupDue(pc, locked, lk, pc[q].l, q);
    }
  }

  /** The inner spin lock changes hands; no waker was scanning under it. */
  lemma WakeupsRelock(pc: seq<Pc>, st: seq<Status>, locked: seq<bool>, lk: seq<Holder>, p: nat, to: Pc,
                      l: nat, h: Holder)
    requires |st| == |pc| && p < |pc| && WakeupsPending(pc, st, locked, lk) && l < |lk|
    requires NotScanning(pc[p]) && (lk[l].Nobody? || lk[l] == Proc(p))
    requires Committed(to, st[p]) ==> to.l == l && l < |locked| && locked[l]
    ensures WakeupsPending(pc[p := to], st, locked, lk[l := h])
  {
    var pc', lk' := pc[p := to], lk[l := h];
    forall q | 0 <= q < |pc'| && Committed(pc'[q], st[q])
      ensures WakeupDue(pc', locked, lk', pc'[q].l, q)
    {
      if q != p {
        assert WakeupDue(pc, locked, lk, pc[q].l, q);
      }
    }
  }

  /** Clearing `locked` leaves a full scan due to every sleeper; setting it is safe. */
  lemma WakeupsRelabel(pc: seq<Pc>, st: seq<Status>, locked: seq<bool>, lk: seq<Holder>, p: nat, l: nat, b: bool)
    requires |st| == |pc| && p < |pc| && WakeupsPending(pc, st, locked, lk)
    requires l < |lk| && |locked| == |lk| && lk[l] == Proc(p)
    requires pc[p] == if b then Take(l) else Clear(l)
    ensures WakeupsPending(pc[p := if b then Sign(l) else Unsign(l)], st, locked[l := b], lk)
  {
    var pc', locked' := pc[p := if b then Sign(l) else Unsign(l)], locked[l := b];
    forall q | 0 <= q < |pc'| && Committed(pc'[q], st[q])
      ensures WakeupDue(pc', locked', lk, pc'[q].l, q)
    {
      assert WakeupDue(pc, locked, lk, pc[q].l, q);
    }
  }

  /** The scan passes process i, which is then not committed to what it scans for. */
  lemma WakeupsPass(pc: seq<Pc>, st: seq<Status>, locked: seq<bool>, lk: seq<Holder>,
                    p: nat, to: Pc, i: nat, st': Status)
    requires |st| == |pc| && p < |pc| && i < |pc| && WakeupsPending(pc, st, locked, lk)
    requires !Committed(to, st[p]) && !Committed(to, st') && CarriesBut(pc[p], to, |pc|, i)
    requires Committed(pc[i], st') ==> Committed(pc[i], st[i]) && !ScanAhead(pc[p], pc[i].l, i)
    ensures WakeupsPending(pc[p := to], st[i := st'], locked, lk)
  {
    var pc', st2 := pc[p := to], st[i := st'];
    forall q | 0 <= q < |pc'| && Committed(pc'[q], st2[q])
      ensures WakeupDue(pc', locked, lk, pc'[q].l, q)
    {
      assert WakeupDue(pc, locked, lk, pc[q].l, q);
    }
  }

  /** A process whose lock another process holds, and which that process would not
      wake, is not committed to sleep on the lock being scanned for. */
  lemma PassedOver(s: Sys, p: nat)
    requires Placed(s, p) && ProcLocksAgree(s.pc, s.plock, s.cpus) && StatusAgrees(s)
    requires s.pc[p].Wake? || s.pc[p].KillHit?
    requires EffectOf(s, p).Nothing?
    ensures var i := s.pc[p].i;
      Committed(s.pc[i], s.st[i]) ==> !ScanAhead(s.pc[p], s.pc[i].l, i)
  {
    var i := s.pc[p].i;
    assert StatusFits(s.pc[i], s.st[i], s.chan[i]);
    assert s.plock[i] == Proc(p);
    assert PLockOf(s.pc[i], i) == i ==> i == p;
  }

  lemma WakeupsScan(s: Sys, p: nat)
    requires Placed(s, p) && CanAdvance(s, p)
    requires ProcLocksAgree(s.pc, s.plock, s.cpus) && StatusAgrees(s)
    requires WakeupsPending(s.pc, s.st, s.locked, s.lk)
    requires s.pc[p].Wake? || s.pc[p].KillHit?
    ensures var t := Advanced(s, p); Sized(t) && WakeupsPending(t.pc, t.st, t.locked, t.lk)
  {
    var i, to, e := s.pc[p].i, NextPc(s, p), EffectOf(s, p);
    if e.Nothing? {
      PassedOver(s, p);
      WakeupsPass(s.pc, s.st, s.locked, s.lk, p, to, i, s.st[i]);
      assert s.st[i := s.st[i]] == s.st;
    } else {
      SleeperIsOff(s, p, i);
      WakeupsPass(s.pc, s.st, s.locked, s.lk, p, to, i, Runnable);
    }
  }

  predicate WakeupsFit(s: Sys, p: nat, e: Effect, to: Pc)
    requires Placed(s, p)
  {
    match e
    case TakeSpin(l) => !Committed(to, s.st[p])
    case DropSpin(l) => l < |s.lk| && (Committed(to, s.st[p]) ==> to.l == l && s.locked[l])
    case WriteLocked(l, b) =>
      s.pc[p] == (if b then Take(l) else Clear(l)) && to == (if b then Sign(l) else Unsign(l))
    case WriteStatus(i, st) => i == p && (Committed(to, st) ==> Committed(s.pc[p], s.st[p]) && to.l == s.pc[p].l)
    case _ => Committed(to, s.st[p]) ==> Committed(s.pc[p], s.st[p]) && to.l == s.pc[p].l
  }

  lemma WakeupsTable(s: Sys, p: nat)
    requires Placed(s, p) && CanAdvance(s, p) && Knowing(s.pc[p], s.locked)
    requires StatusFits(s.pc[p], s.st[p], s.chan[p])
    requires !s.pc[p].Wake? && !s.pc[p].KillHit?
    ensures WakeupsFit(s, p, EffectOf(s, p), NextPc(s, p))
  {
  }

  lemma CarryTable(s: Sys, p: nat)
    requires Placed(s, p) && CanAdvance(s, p)
    requires !s.pc[p].Wake? && !s.pc[p].KillHit?
    ensures EffectOf(s, p).TakeSpin? || EffectOf(s, p).DropSpin? ==> NotScanning(s.pc[p])
    ensures !EffectOf(s, p).WriteLocked? ==> Carries(s.pc[p], NextPc(s, p), |s.pc|)
  {
  }

  lemma WakeupsKept(s: Sys, p: nat, e: Effect, to: Pc)
    requires Placed(s, p) && EffectInRange(e, |s.pc|, |s.lk|) && SpinLocksAgree(s.pc, s.lk)
    requires SpinFits(s.pc[p], to, e) && (e.TakeSpin? ==> s.lk[e.l].Nobody?)
    requires WakeupsPending(s.pc, s.st, s.locked, s.lk)
    requires WakeupsFit(s, p, e, to)
    requires e.TakeSpin? || e.DropSpin? ==> NotScanning(s.pc[p])
    requires !e.WriteLocked? ==> Carries(s.pc[p], to, |s.pc|)
    ensures var t := Perform(s, p, e, to); Sized(t) && WakeupsPending(t.pc, t.st, t.locked, t.lk)
  {
    match e
    case TakeSpin(l) => WakeupsRelock(s.pc, s.st, s.locked, s.lk, p, to, l, Proc(p));
    case DropSpin(l) => WakeupsRelock(s.pc, s.st, s.locked, s.lk, p, to, l, Nobody);
    case WriteLocked(l, b) => WakeupsRelabel(s.pc, s.st, s.locked, s.lk, p, l, b);
    case WriteStatus(i, st) => WakeupsMove(s.pc, s.st, s.locked, s.lk, p, to, st);
    case _ =>
      WakeupsMove(s.pc, s.st, s.locked, s.lk, p, to, s.st[p]);
      assert s.st[p := s.st[p]] == s.st;
  }

  // ----- Every step keeps the invariant -----

  lemma AdvanceKeeps(s: Sys, p: nat)
    requires Inv(s) && p < |s.pc| && CanAdvance(s, p)
    ensures Inv(Advanced(s, p))
  {
    var e, to := EffectOf(s, p), NextPc(s, p);
    assert Placed(s, p) && StatusFits(s.pc[p], s.st[p], s.chan[p]) && Knowing(s.pc[p], s.locked);
    CpusTable(s, p);
    CpusKept(s, p, e, to);
    ShapeKept(s, p, e, to);
    AdvanceKeepsLocks(s, p);
    AdvanceKeepsStatus(s, p);
    AdvanceKeepsOwners(s, p);
    AdvanceKeepsWakeups(s, p);
  }

  lemma AdvanceKeepsLocks(s: Sys, p: nat)
    requires Placed(s, p) && CanAdvance(s, p)
    requires SpinLocksAgree(s.pc, s.lk) && ProcLocksAgree(s.pc, s.plock, s.cpus) && CpusAgree(s.pc, s.on, s.cpus)
    ensures var t := Advanced(s, p); SpinLocksAgree(t.pc, t.lk) && ProcLocksAgree(t.pc, t.plock, t.cpus)
  {
    var e, to := EffectOf(s, p), NextPc(s, p);
    CpusTable(s, p);
    SpinTable(s, p);
    SpinKept(s, p, e, to);
    PLockTable(s, p);
    PLockKept(s, p, e, to);
  }

  lemma AdvanceKeepsStatus(s: Sys, p: nat)
    requires Placed(s, p) && CanAdvance(s, p)
    requires ProcLocksAgree(s.pc, s.plock, s.cpus) && StatusAgrees(s)
    ensures var t := Advanced(s, p); Sized(t) && StatusAgrees(t)
  {
    CpusTable(s, p);
    if (s.pc[p].Wake? || s.pc[p].KillHit?) && s.st[s.pc[p].i].Sleeping? {
      SleeperIsOff(s, p, s.pc[p].i);
    }
    StatusTable(s, p);
    StatusKept(s, p, EffectOf(s, p), NextPc(s, p));
  }

  lemma AdvanceKeepsOwners(s: Sys, p: nat)
    requires Placed(s, p) && CanAdvance(s, p) && SpinLocksAgree(s.pc, s.lk)
    requires OwnersAgree(s.pc, s.locked, s.pid, s.owns) && KnowledgeHolds(s.pc, s.locked)
    ensures var t := Advanced(s, p);
      Sized(t) && OwnersAgree(t.pc, t.locked, t.pid, t.owns) && KnowledgeHolds(t.pc, t.locked)
  {
    var e, to := EffectOf(s, p), NextPc(s, p);
    assert Knowing(s.pc[p], s.locked);
    CpusTable(s, p);
    OwnersTable(s, p);
    OwnersKept(s, p, e, to);
    KnowledgeTable(s, p);
    KnowledgeKept(s, p, e, to);
  }

  lemma AdvanceKeepsWakeups(s: Sys, p: nat)
    requires Placed(s, p) && CanAdvance(s, p) && SpinLocksAgree(s.pc, s.lk)
    requires ProcLocksAgree(s.pc, s.plock, s.cpus) && StatusAgrees(s)
    requires KnowledgeHolds(s.pc, s.locked) && WakeupsPending(s.pc, s.st, s.locked, s.lk)
    ensures var t := Advanced(s, p); Sized(t) && WakeupsPending(t.pc, t.st, t.locked, t.lk)
  {
    if s.pc[p].Wake? || s.pc[p].KillHit? {
      WakeupsScan(s, p);
    } else {
      assert StatusFits(s.pc[p], s.st[p], s.chan[p]) && Knowing(s.pc[p], s.locked);
      CpusTable(s, p);
      SpinTable(s, p);
      WakeupsTable(s, p);
      CarryTable(s, p);
      WakeupsKept(s, p, EffectOf(s, p), NextPc(s, p));
    }
  }

  /** Starting a call moves the pc and nothing else. */
  lemma BeginKeeps(s: Sys, p: nat, to: Pc)
    requires Inv(s) && p < |s.pc| && Preemptible(s.pc[p]) && InRange(to, |s.pc|, |s.lk|)
    requires (s.pc[p].Idle? && (to.Acquire? || to.GiveUp? || to.KillGet?)) || to == YieldGet(s.pc[p])
    requires to.GiveUp? ==> to.l in s.owns[p]
    ensures Inv(Perform(s, p, Nothing, to))
  {
    hide SpinLocksAgree, ProcLocksAgree, WakeupsPending;
    assert Placed(s, p) && StatusFits(s.pc[p], s.st[p], s.chan[p]) && Knowing(s.pc[p], s.locked);
    CpusKept(s, p, Nothing, to);
    ShapeKept(s, p, Nothing, to);
    SpinSame(s.pc, s.lk, p, to);
    PLockSame(s.pc, s.plock, s.cpus, p, to);
    StatusKept(s, p, Nothing, to);
    OwnersSame(s.pc, s.locked, s.pid, s.owns, p, to);
    KnowledgeKept(s, p, Nothing, to);
    WakeupsMove(s.pc, s.st, s.locked, s.lk, p, to, s.st[p]);
    assert s.st[p := s.st[p]] == s.st;
  }

  /** A RUNNABLE process whose lock the scheduler holds is really switched out. */
  lemma RunnableIsOff(s: Sys, c: nat)
    requires Inv(s) && c < |s.cpus| && s.cpus[c].Checking? && s.st[s.cpus[c].p].Runnable?
    ensures OffCpu(s.pc[s.cpus[c].p])
  {
    var p := s.cpus[c].p;
    assert StatusFits(s.pc[p], s.st[p], s.chan[p]);
    assert s.plock[p] == Cpu(c);
  }

  lemma SwitchKeeps(s: Sys, c: nat)
    requires Inv(s) && Enabled(s, Switch(c))
    ensures Inv(Apply(s, Switch(c)))
  {
    hide SpinLocksAgree, ProcLocksAgree, WakeupsPending, StatusAgrees, KnowledgeHolds;
    var p := s.cpus[c].p;
    RunnableIsOff(s, c);
    var to := Apply(s, Switch(c)).pc[p];
    PLockHandedIn(s.pc, s.plock, s.cpus, p, to, c);
    SpinSame(s.pc, s.lk, p, to);
    OwnersSame(s.pc, s.locked, s.pid, s.owns, p, to);
    WakeupsMove(s.pc, s.st, s.locked, s.lk, p, to, Running);
    SwitchKeepsCpus(s, c, to);
    SwitchKeepsProcess(s, c);
  }

  lemma SwitchKeepsProcess(s: Sys, c: nat)
    requires Shape(s) && Enabled(s, Switch(c)) && StatusAgrees(s) && KnowledgeHolds(s.pc, s.locked)
    requires OffCpu(s.pc[s.cpus[c].p])
    ensures var t := Apply(s, Switch(c)); Shape(t) && StatusAgrees(t) && KnowledgeHolds(t.pc, t.locked)
  {
    var t := Apply(s, Switch(c));
    forall q | 0 <= q < |t.pc|
      ensures Placed(t, q) && StatusFits(t.pc[q], t.st[q], t.chan[q]) && Knowing(t.pc[q], t.locked)
    {
      assert Placed(s, q) && StatusFits(s.pc[q], s.st[q], s.chan[q]) && Knowing(s.pc[q], s.locked);
    }
  }

  lemma SwitchKeepsCpus(s: Sys, c: nat, to: Pc)
    requires Shape(s) && c < |s.cpus| && s.cpus[c].Checking? && OffCpu(s.pc[s.cpus[c].p]) && !OffCpu(to)
    requires CpusAgree(s.pc, s.on, s.cpus)
    ensures var p := s.cpus[c].p;
      CpusAgree(s.pc[p := to], s.on[p := c], s.cpus[c := Executing(p)])
  {
  }

  lemma LookKeeps(s: Sys, c: nat, p: nat)
    requires Inv(s) && Enabled(s, Look(c, p))
    ensures Inv(Apply(s, Look(c, p)))
  {
    var t := Apply(s, Look(c, p));
    CpuRelock(s.pc, s.plock, s.cpus, c, p, Checking(p), Cpu(c));
    CpuMoves(s, c, p, Checking(p), Cpu(c));
  }

  lemma PassKeeps(s: Sys, c: nat)
    requires Inv(s) && Enabled(s, Pass(c))
    ensures Inv(Apply(s, Pass(c)))
  {
    var p := s.cpus[c].p;
    assert s.plock[p] == Cpu(c);
    CpuRelock(s.pc, s.plock, s.cpus, c, p, Looking, Nobody);
    CpuMoves(s, c, p, Looking, Nobody);
  }

  lemma CpuRelock(pc: seq<Pc>, plock: seq<Holder>, cpus: seq<CpuPc>, c: nat, p: nat, to: CpuPc, h: Holder)
    requires ProcLocksAgree(pc, plock, cpus) && c < |cpus| && p < |plock|
    requires
      || (cpus[c].Looking? && plock[p].Nobody? && to == Checking(p) && h == Cpu(c))
      || ((cpus[c] == Checking(p) || cpus[c] == Returned(p)) && to == Looking && h == Nobody)
    ensures ProcLocksAgree(pc, plock[p := h], cpus[c := to])
  {
  }

  lemma CpuMoves(s: Sys, c: nat, p: nat, to: CpuPc, h: Holder)
    requires Shape(s) && c < |s.cpus| && p < |s.pc| && CpusAgree(s.pc, s.on, s.cpus) && StatusAgrees(s)
    requires !s.cpus[c].Executing? && (to == Looking || to == Checking(p))
    ensures var t := s.(cpus := s.cpus[c := to], plock := s.plock[p := h]);
      Shape(t) && CpusAgree(t.pc, t.on, t.cpus) && StatusAgrees(t)
  {
    var t := s.(cpus := s.cpus[c := to], plock := s.plock[p := h]);
    forall q | 0 <= q < |t.pc|
      ensures Placed(t, q)
    {
      assert Placed(s, q);
    }
  }

  lemma StepKeeps(s: Sys, a: Act)
    requires Inv(s) && Enabled(s, a)
    ensures Inv(Apply(s, a))
  {
    hide SpinLocksAgree, ProcLocksAgree, WakeupsPending, StatusAgrees, KnowledgeHolds, OwnersAgree, CpusAgree;
    match a
    case BeginAcquire(p, l) => BeginKeeps(s, p, Acquire(l));
    case BeginRelease(p, l) => BeginKeeps(s, p, GiveUp(l));
    case BeginKill(p, i) => BeginKeeps(s, p, KillGet(i));
    case BeginYield(p) =>
      assert Placed(s, p);
      BeginKeeps(s, p, YieldGet(s.pc[p]));
    case Advance(p) => AdvanceKeeps(s, p);
    case Look(c, p) => LookKeeps(s, c, p);
    case Switch(c) => SwitchKeeps(s, c);
    case Pass(c) => PassKeeps(s, c);
  }

  // ----- Runs -----

  /** Every process is about to be scheduled for the first time, all locks free. */
  ghost predicate Init(s: Sys) {
    && Shape(s)
    && (forall p :: 0 <= p < |s.pc| ==>
          s.pc[p] == YieldOff(Idle) && s.st[p].Runnable? && s.chan[p] == NONE
          && s.plock[p].Nobody? && s.owns[p] == {})
    && (forall l :: 0 <= l < |s.lk| ==> s.lk[l].Nobody? && !s.locked[l])
    && (forall c :: 0 <= c < |s.cpus| ==> s.cpus[c].Looking?)
  }

  lemma InitOwners(s: Sys)
    requires Init(s)
    ensures OwnersAgree(s.pc, s.locked, s.pid, s.owns) && KnowledgeHolds(s.pc, s.locked)
  {
  }

  lemma InitLocks(s: Sys)
    requires Init(s)
    ensures SpinLocksAgree(s.pc, s.lk) && ProcLocksAgree(s.pc, s.plock, s.cpus)
  {
  }

  lemma InitWakeups(s: Sys)
    requires Init(s)
    ensures WakeupsPending(s.pc, s.st, s.locked, s.lk)
  {
  }

  lemma InitSafe(s: Sys)
    requires Init(s)
    ensures Inv(s)
  {
    hide OwnersAgree, KnowledgeHolds, SpinLocksAgree, ProcLocksAgree, WakeupsPending;
    InitOwners(s);
    InitLocks(s);
    InitWakeups(s);
  }

  /** The states that some sequence of enabled steps leads to. */
  ghost predicate Reaches(s: Sys, acts: seq<Act>, t: Sys)
    decreases |acts|
  {
    if acts == [] then s == t
    else Shape(s) && Enabled(s, acts[0]) && Reaches(Apply(s, acts[0]), acts[1..], t)
  }

  lemma {:induction false} RunsKeep(s: Sys, acts: seq<Act>, t: Sys)
    requires Inv(s) && Reaches(s, acts, t)
    ensures Inv(t)
    decreases |acts|
  {
    if acts != [] {
      StepKeeps(s, acts[0]);
      RunsKeep(Apply(s, acts[0]), acts[1..], t);
    }
  }

  /** Mutual exclusion: in every reachable state at most one process has a sleep
      lock, `locked` says whether one has, and `pid` names it for `holdingsleep`
      as soon as the owner is out of acquiresleep. */
  lemma MutualExclusion(s: Sys, acts: seq<Act>, t: Sys)
    requires Init(s) && Reaches(s, acts, t)
    ensures Sized(t)
    ensures forall p, q :: 0 <= p < q < |t.pc| ==> t.owns[p] !! t.owns[q]
    ensures forall l :: 0 <= l < |t.lk| ==> (t.locked[l] <==> HasOwner(t.owns, l))
    ensures forall p, l :: 0 <= p < |t.pc| && 0 <= l < |t.lk| && l in t.owns[p] && t.pc[p].Idle? ==> t.pid[l] == p
  {
    InitSafe(s);
    RunsKeep(s, acts, t);
  }

  /** No lost wakeup: whenever a sleep lock is free and its spin lock is not held,
      no process is still SLEEPING on it. */
  lemma NoLostWakeup(s: Sys, acts: seq<Act>, t: Sys)
    requires Init(s) && Reaches(s, acts, t)
    ensures Sized(t)
    ensures forall p, l :: 0 <= p < |t.pc| && 0 <= l < |t.lk| && !t.locked[l] && t.lk[l].Nobody?
              ==> !(t.st[p].Sleeping? && t.chan[p] == l)
  {
    InitSafe(s);
    RunsKeep(s, acts, t);
    forall p, l | 0 <= p < |t.pc| && 0 <= l < |t.lk| && !t.locked[l] && t.lk[l].Nobody?
      ensures !(t.st[p].Sleeping? && t.chan[p] == l)
    {
      assert StatusFits(t.pc[p], t.st[p], t.chan[p]);
    }
  }

  /** What `sched` checks on entry: the process holds its own lock and no other
      spin lock, and has left the RUNNING state. */
  ghost predicate MayEnterSched(t: Sys, p: nat) {
    && Sized(t) && p < |t.pc| && t.plock[p] == Proc(p) && !t.st[p].Running?
    && (forall l :: 0 <= l < |t.lk| ==> t.lk[l] != Proc(p))
    && (forall i :: 0 <= i < |t.plock| && i != p ==> t.plock[i] != Proc(p))
  }

  lemma EntersSchedSafely(t: Sys, p: nat)
    requires Sized(t) && p < |t.pc| && (t.pc[p].Sched? || t.pc[p].YieldSched?)
    requires SpinLocksAgree(t.pc, t.lk) && ProcLocksAgree(t.pc, t.plock, t.cpus) && StatusAgrees(t)
    ensures MayEnterSched(t, p)
  {
    assert StatusFits(t.pc[p], t.st[p], t.chan[p]);
    assert PLockOf(t.pc[p], p) == p;
  }

  /** The scheduler hand-off is sound: no process runs on two CPUs, and none of
      the panics in `sched` is reachable. */
  lemma HandOffSound(s: Sys, acts: seq<Act>, t: Sys)
    requires Init(s) && Reaches(s, acts, t)
    ensures forall c, d :: 0 <= c < d < |t.cpus| && t.cpus[c].Executing? && t.cpus[d].Executing?
              ==> t.cpus[c].p != t.cpus[d].p
    ensures forall p :: 0 <= p < |t.pc| && (t.pc[p].Sched? || t.pc[p].YieldSched?) ==> MayEnterSched(t, p)
  {
    InitSafe(s);
    RunsKeep(s, acts, t);
    forall p | 0 <= p < |t.pc| && (t.pc[p].Sched? || t.pc[p].YieldSched?)
      ensures MayEnterSched(t, p)
    {
      EntersSchedSafely(t, p);
    }
  }
}
