/** Processes that read blocks through the buffer cache of kernel/bio.c: who has a
    reference to which buffer, and who holds its sleep lock. */
module Readers {
  import opened Disk
  import C = BufferCache

  /** refs[p] are the buffers process p has a reference to, from bget to brelse; lock maps a
      buffer to the process that holds its sleep lock. */
  datatype Readers = Readers(refs: seq<set<nat>>, lock: map<nat, nat>)

  /** Get and Lock are the two halves of bget, Fill the rest of bread, Unlock and Drop the two
      halves of brelse. */
  datatype Step =
    | Get(p: nat, b: nat, i: nat, k: Key)
    | Lock(p: nat, b: nat)
    | Fill(p: nat, b: nat, i: nat)
    | Unlock(p: nat, b: nat)
    | Drop(p: nat, b: nat, i: nat)

  predicate Has(r: Readers, p: nat, b: nat) {
    b in r.lock && r.lock[b] == p
  }

  /** A process does not get a buffer it already has. */
  predicate Enabled(s: C.Sys, r: Readers, a: Step, image: Image) {
    match a
    case Get(p, b, i, k) => p < |r.refs| && b !in r.refs[p] && C.Enabled(s, C.Get(b, i, k))
    case Lock(p, b) => p < |r.refs| && b < |s.held| && b in r.refs[p] && b !in r.lock
    case Fill(p, b, i) =>
      && Has(r, p, b) && b < |s.cache.key| && s.cache.key[b] in image
      && C.Enabled(s, C.Fill(b, i, image[s.cache.key[b]]))
    case Unlock(p, b) => Has(r, p, b)
    case Drop(p, b, i) => p < |r.refs| && b in r.refs[p] && !Has(r, p, b) && C.Enabled(s, C.Release(b, i))
  }

  function Cached(s: C.Sys, r: Readers, a: Step, image: Image): C.Sys
    requires Enabled(s, r, a, image)
  {
    match a
    case Get(p, b, i, k) => C.Apply(s, C.Get(b, i, k))
    case Lock(_, _) => s
    case Unlock(_, _) => s
    case Fill(p, b, i) => C.Apply(s, C.Fill(b, i, image[s.cache.key[b]]))
    case Drop(p, b, i) => C.Apply(s, C.Release(b, i))
  }

  function Moved(s: C.Sys, r: Readers, a: Step, image: Image): Readers
    requires Enabled(s, r, a, image)
  {
    match a
    case Get(p, b, i, k) => r.(refs := r.refs[p := r.refs[p] + {b}])
    case Lock(p, b) => r.(lock := r.lock[b := p])
    case Fill(_, _, _) => r
    case Unlock(p, b) => r.(lock := r.lock - {b})
    case Drop(p, b, i) => r.(refs := r.refs[p := r.refs[p] - {b}])
  }

  ghost predicate Run(s: C.Sys, r: Readers, acts: seq<Step>, t: C.Sys, q: Readers, image: Image)
    decreases |acts|
  {
    if acts == [] then s == t && r == q
    else
      && Enabled(s, r, acts[0], image)
      && Run(Cached(s, r, acts[0], image), Moved(s, r, acts[0], image), acts[1..], t, q, image)
  }

  // ----- Counts -----

  function Holders(refs: seq<set<nat>>, b: nat): (n: nat)
    ensures n <= |refs|
  {
    if refs == [] then 0 else (if b in refs[0] then 1 else 0) + Holders(refs[1..], b)
  }

  lemma {:induction false} HoldersAfter(refs: seq<set<nat>>, p: nat, r: set<nat>, b: nat)
    requires p < |refs|
    ensures Holders(refs[p := r], b) == Holders(refs, b) - (if b in refs[p] then 1 else 0) + (if b in r then 1 else 0)
  {
    if p == 0 {
      assert refs[p := r][1..] == refs[1..];
    } else {
      assert refs[p := r][1..] == refs[1..][p - 1 := r];
      HoldersAfter(refs[1..], p - 1, r, b);
    }
  }

  predicate TallyAt(held: seq<nat>, r: Readers, b: nat)
    requires b < |held|
  {
    held[b] == Holders(r.refs, b)
  }

  /** The held count of every buffer is the number of processes with a reference, and only
      a process with a reference has the lock. */
  ghost predicate Tallied(held: seq<nat>, r: Readers) {
    && (forall b :: 0 <= b < |held| ==> TallyAt(held, r, b))
    && (forall b :: b in r.lock ==> b < |held| && r.lock[b] < |r.refs| && b in r.refs[r.lock[b]])
  }

  /** Every step keeps that. */
  lemma StepTallied(s: C.Sys, r: Readers, a: Step, image: Image)
    requires C.Counted(s) && Tallied(s.held, r) && Enabled(s, r, a, image)
    ensures C.Counted(Cached(s, r, a, image)) && Tallied(Cached(s, r, a, image).held, Moved(s, r, a, image))
    ensures |Moved(s, r, a, image).refs| == |r.refs|
  {
    hide C.Counted;
    var t, q := Cached(s, r, a, image), Moved(s, r, a, image);
    match a {
      case Get(p, b, i, k) => C.StepKeeps(s, C.Get(b, i, k));
      case Lock(p, b) =>
      case Fill(p, b, i) => C.StepKeeps(s, C.Fill(b, i, image[s.cache.key[b]]));
      case Unlock(p, b) =>
      case Drop(p, b, i) => C.StepKeeps(s, C.Release(b, i));
    }
    forall c | 0 <= c < |t.held|
      ensures TallyAt(t.held, q, c)
    {
      assert TallyAt(s.held, r, c);
      match a {
        case Get(p, b, i, k) => HoldersAfter(r.refs, p, r.refs[p] + {b}, c);
        case Drop(p, b, i) => HoldersAfter(r.refs, p, r.refs[p] - {b}, c);
        case _ =>
      }
    }
  }

  lemma {:induction false} NoHolders(refs: seq<set<nat>>, b: nat)
    requires forall p :: 0 <= p < |refs| ==> b !in refs[p]
    ensures Holders(refs, b) == 0
  {
    if refs != [] {
      NoHolders(refs[1..], b);
    }
  }

  function Nobody(procs: nat): Readers {
    Readers(seq(procs, _ => {}), map[])
  }

  lemma NobodyTallied(held: seq<nat>, procs: nat)
    requires forall b :: 0 <= b < |held| ==> held[b] == 0
    ensures Tallied(held, Nobody(procs))
  {
    forall b | 0 <= b < |held|
      ensures TallyAt(held, Nobody(procs), b)
    {
      NoHolders(Nobody(procs).refs, b);
    }
  }
}
