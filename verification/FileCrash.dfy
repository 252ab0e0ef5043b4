/** A chunk of filewrite and a crash: what the file system on the disk is afterwards. */
module FileCrash {
  import opened Disk
  import opened Inode
  import T = Transaction
  import W = LogWrites

  /** Block b of the disk concerns the same of two file systems: its data, the bits of the
      free map in it, and the inodes in it. */
  ghost predicate SameAt(f: Fs, g: Fs, b: nat, bmapstart: nat, inodestart: nat) {
    && (b in f.blocks <==> b in g.blocks) && (b in f.blocks ==> f.blocks[b] == g.blocks[b])
    && |f.used| == |g.used| && f.start == g.start && f.inodes.Keys == g.inodes.Keys
    && (forall c :: 0 <= c < |f.used| && c / 8192 + bmapstart == b ==> f.used[c] == g.used[c])
    && (forall n :: n in f.inodes && n / 16 + inodestart == b ==> f.inodes[n] == g.inodes[n])
  }

  /** A layout on disk, whichever: the contents of a block depend on no more than that. */
  ghost predicate Local(enc: (Fs, nat) -> Block, bmapstart: nat, inodestart: nat) {
    forall f, g, b :: SameAt(f, g, b, bmapstart, inodestart) ==> enc(f, b) == enc(g, b)
  }

  /** The blocks outside the log hold file system f. */
  ghost predicate Stores(l: W.Layout, enc: (Fs, nat) -> Block, image: Image, f: Fs) {
    forall b: nat :: W.HomeKey(l, b) in image && !W.InLog(l, W.HomeKey(l, b)) ==> image[W.HomeKey(l, b)] == enc(f, b)
  }

  /** From f to g only what is logged has changed, of the inodes only `inum`, and of the
      contents only a range of that file. */
  ghost predicate Chunk(f: Fs, g: Fs, inum: nat, off: nat, src: seq<nat>, bmapstart: nat, inodestart: nat,
                        logged: set<nat>) {
    && inum in f.inodes && off <= f.inodes[inum].size && Splices(f, g, inum, off, src)
    && f.start == g.start && Recorded(f, g, bmapstart, logged) && OnlyInode(f, g, inum)
    && (g.inodes[inum] != f.inodes[inum] ==> inum / 16 + inodestart in logged)
  }

  /** A block that is not logged stays right. */
  lemma UnloggedSame(f: Fs, g: Fs, inum: nat, off: nat, src: seq<nat>, bmapstart: nat, inodestart: nat,
                     logged: set<nat>, b: nat)
    requires Chunk(f, g, inum, off, src, bmapstart, inodestart, logged) && b !in logged
    ensures SameAt(f, g, b, bmapstart, inodestart)
  {
    hide Splices;
  }

  /** What the commit of the chunk's transaction writes. */
  ghost predicate Carries(enc: (Fs, nat) -> Block, g: Fs, logged: set<nat>, blocks: seq<nat>, data: seq<Block>) {
    && |data| == |blocks| && (forall b :: b in logged ==> b in blocks)
    && forall j :: 0 <= j < |blocks| ==> data[j] == enc(g, blocks[j])
  }

  /** Once every block is home the disk holds the new file system. */
  lemma HomeStores(l: W.Layout, enc: (Fs, nat) -> Block, f: Fs, g: Fs, inum: nat, off: nat, src: seq<nat>,
                   bmapstart: nat, inodestart: nat, logged: set<nat>, image: Image, blocks: seq<nat>, data: seq<Block>)
    requires Local(enc, bmapstart, inodestart) && Chunk(f, g, inum, off, src, bmapstart, inodestart, logged)
    requires W.Ready(l, image, blocks, data) && Carries(enc, g, logged, blocks, data) && Stores(l, enc, image, f)
    ensures Stores(l, enc, After(image, W.HomeWrites(l, blocks, data)), g)
  {
    var writes := W.HomeWrites(l, blocks, data);
    var now := After(image, writes);
    W.HomeWritesDistinct(l, blocks, data, |blocks|);
    assert writes[..|blocks|] == writes;
    forall b: nat | W.HomeKey(l, b) in now && !W.InLog(l, W.HomeKey(l, b))
      ensures now[W.HomeKey(l, b)] == enc(g, b)
    {
      if b in blocks {
        var j :| 0 <= j < |blocks| && blocks[j] == b;
        W.AfterWritten(image, writes, j);
      } else {
        W.AfterUnwritten(image, writes, W.HomeKey(l, b));
        UnloggedSame(f, g, inum, off, src, bmapstart, inodestart, logged, b);
      }
    }
  }

  lemma SameStores(l: W.Layout, enc: (Fs, nat) -> Block, a: Image, b: Image, f: Fs)
    requires W.SameHome(l, a, b) && Stores(l, enc, b, f)
    ensures Stores(l, enc, a, f)
  {
  }

  /** Crash anywhere in the commit of a chunk of filewrite, and in the recoveries that
      follow: the disk holds the old file system, or the new one, in which the file has
      the chunk in its range and every other file is as before; the latter just when the
      committing header write was issued. */
  lemma ChunkIsAtomic(l: W.Layout, enc: (Fs, nat) -> Block, f: Fs, g: Fs, inum: nat, off: nat, src: seq<nat>,
                      bmapstart: nat, inodestart: nat, logged: set<nat>,
                      image: Image, blocks: seq<nat>, data: seq<Block>, k: nat, cuts: seq<nat>, e: Image)
    requires Local(enc, bmapstart, inodestart) && Chunk(f, g, inum, off, src, bmapstart, inodestart, logged)
    requires W.Ready(l, image, blocks, data) && Carries(enc, g, logged, blocks, data) && Stores(l, enc, image, f)
    requires k <= |W.CommitWrites(l, image[W.HeadKey(l)], blocks, data)|
    requires W.Interrupted(l, After(image, W.CommitWrites(l, image[W.HeadKey(l)], blocks, data)[..k]), cuts, e)
    ensures W.WellFormed(l, e) && Stores(l, enc, W.Recovered(l, e), if k <= |blocks| then f else g)
    ensures Content(g, inum) == Spliced(Content(f, inum), off, src)
    ensures forall n :: n in f.inodes && n != inum ==> Content(g, n) == Content(f, n)
  {
    W.CrashAtomic(l, image, blocks, data, k, cuts, e);
    if k > |blocks| {
      HomeStores(l, enc, f, g, inum, off, src, bmapstart, inodestart, logged, image, blocks, data);
    }
    SameStores(l, enc, W.Recovered(l, e), W.Outcome(l, image, blocks, data, k), if k <= |blocks| then f else g);
  }

  // ----- In a run of the system -----

  /** The pinned buffers hold the blocks of file system g. */
  ghost predicate LeftInBuffers(s: T.Sys, enc: (Fs, nat) -> Block, g: Fs) {
    forall c :: c in s.pinned && c < |s.cache.cache.key| && c < |s.cache.cache.data| ==>
      s.cache.cache.data[c] == enc(g, s.cache.cache.key[c].blockno)
  }

  /** A commit writes what its operations passed to log_write and left in the buffers. */
  lemma RunCarries(enc: (Fs, nat) -> Block, g: Fs, s: T.Sys, procs: nat, before: seq<T.Step>, v: T.Sys,
                   ops: seq<T.Step>, u: T.Sys)
    requires T.Booted(s, procs) && T.Protected(s.lay.size, procs, |s.cache.held|) && T.Reaches(s, before, v)
    requires T.Reaches(v, ops, u) && T.NoFinish(ops) && LeftInBuffers(u, enc, g)
    requires u.phase.Committing? && u.phase.k == 0 && |T.Blocks(u)| < u.lay.size
    ensures Carries(enc, g, T.Called(v, ops), T.Blocks(u), u.data)
    ensures W.Ready(u.lay, u.phase.base, T.Blocks(u), u.data)
  {
    T.Join(s, before, v, ops, u);
    T.EveryCommitHasTheData(s, procs, before + ops, u);
    T.CalledListed(v, ops, u);
    forall j | 0 <= j < |T.Blocks(u)|
      ensures u.data[j] == enc(g, T.Blocks(u)[j])
    {
      assert T.LastStored(u, j);
      assert u.pinned[j] in u.pinned;
    }
  }

  /** In any run of the system: when an operation has passed the blocks of a chunk to
      log_write, the buffers hold them, and its end_op commits, then a crash at any later
      moment up to the end of the commit leaves the old file system or the new one. */
  lemma ChunkInRunIsAtomic(enc: (Fs, nat) -> Block, f: Fs, g: Fs, inum: nat, off: nat, src: seq<nat>,
                           bmapstart: nat, inodestart: nat, s: T.Sys, procs: nat, before: seq<T.Step>, v: T.Sys,
                           ops: seq<T.Step>, u: T.Sys, commit: seq<T.Step>, t: T.Sys, cuts: seq<nat>, e: Image)
    requires Local(enc, bmapstart, inodestart)
    requires Chunk(f, g, inum, off, src, bmapstart, inodestart, T.Called(v, ops))
    requires T.Booted(s, procs) && T.Protected(s.lay.size, procs, |s.cache.held|) && T.Reaches(s, before, v)
    requires T.Reaches(v, ops, u) && T.NoFinish(ops) && LeftInBuffers(u, enc, g)
    requires u.phase.Committing? && u.phase.k == 0 && Stores(u.lay, enc, u.phase.base, f)
    requires T.Reaches(u, commit, t) && T.NoFinish(commit) && W.Interrupted(t.lay, t.image, cuts, e)
    ensures W.WellFormed(t.lay, e) && t.phase.Committing?
    ensures Stores(t.lay, enc, W.Recovered(t.lay, e), if t.phase.k <= |T.Blocks(u)| then f else g)
    ensures Content(g, inum) == Spliced(Content(f, inum), off, src)
    ensures forall n :: n in f.inodes && n != inum ==> Content(g, n) == Content(f, n)
  {
    hide T.Booted, T.Kept, Local, Chunk;
    T.Join(s, before, v, ops, u);
    T.BootedKept(s, procs, before + ops, u);
    T.CommitRun(u, commit, t);
    T.KeptCrash(t, cuts, e);
    if t.phase.k > |T.Blocks(u)| {
      T.StalledWritesNothing(t);
      RunCarries(enc, g, s, procs, before, v, ops, u);
      HomeStores(u.lay, enc, f, g, inum, off, src, bmapstart, inodestart, T.Called(v, ops), u.phase.base,
                 T.Blocks(u), u.data);
    }
    SameStores(t.lay, enc, W.Recovered(t.lay, e), T.Survives(t), if t.phase.k <= |T.Blocks(u)| then f else g);
    ChunkContent(f, g, inum, off, src, bmapstart, inodestart, T.Called(v, ops));
  }

  lemma ChunkContent(f: Fs, g: Fs, inum: nat, off: nat, src: seq<nat>, bmapstart: nat, inodestart: nat,
                     logged: set<nat>)
    requires Chunk(f, g, inum, off, src, bmapstart, inodestart, logged)
    ensures Content(g, inum) == Spliced(Content(f, inum), off, src)
    ensures forall n :: n in f.inodes && n != inum ==> Content(g, n) == Content(f, n)
  {
  }
}
