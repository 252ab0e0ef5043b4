/** writei and filewrite on values, when the source is user memory: what reaches the
    file, and what the caller is told. */
module FileWrites {
  import opened Inode

  /** copyin of m bytes from `addr` succeeds; `bad` are the addresses it refuses. */
  predicate Readable(bad: set<nat>, addr: nat, m: nat) {
    forall a :: addr <= a < addr + m ==> a !in bad
  }

  /** The length of the piece that one turn of the loop in readi or writei copies. */
  function Piece(off: nat, n: nat): nat {
    if n < 1024 - off % 1024 then n else 1024 - off % 1024
  }

  /** How many of n bytes are copied before the first piece that is refused. */
  function Copied(off: nat, addr: nat, n: nat, bad: set<nat>): (w: nat)
    ensures w <= n
    decreases n
  {
    if n == 0 then 0 else
    var m := Piece(off, n);
    if Readable(bad, addr, m) then m + Copied(off + m, addr + m, n - m, bad) else 0
  }

  lemma PieceFits(off: nat, n: nat)
    ensures Piece(off, n) <= n && off % 1024 + Piece(off, n) <= 1024 && (n > 0 ==> Piece(off, n) > 0)
  {
  }

  /** A piece that is not the last ends with its block. */
  lemma PieceEnds(off: nat, n: nat)
    ensures Piece(off, n) < n ==> (off + Piece(off, n)) % 1024 == 0
  {
  }

  lemma CopiedTurn(off: nat, addr: nat, n: nat, bad: set<nat>)
    ensures n == 0 ==> Copied(off, addr, n, bad) == 0
    ensures n > 0 ==> 0 < Piece(off, n) <= n && off % 1024 + Piece(off, n) <= 1024
    ensures n > 0 && !Readable(bad, addr, Piece(off, n)) ==> Copied(off, addr, n, bad) == 0
    ensures n > 0 && Readable(bad, addr, Piece(off, n)) ==>
      Copied(off, addr, n, bad)
      == Piece(off, n) + Copied(off + Piece(off, n), addr + Piece(off, n), n - Piece(off, n), bad)
  {
  }

  /** Everything is copied exactly when no byte is refused. */
  lemma {:induction false} CopiedAllIff(off: nat, addr: nat, n: nat, bad: set<nat>)
    ensures Copied(off, addr, n, bad) == n <==> Readable(bad, addr, n)
    decreases n
  {
    if n > 0 {
      var m := Piece(off, n);
      CopiedAllIff(off + m, addr + m, n - m, bad);
      assert Readable(bad, addr, n) ==> Readable(bad, addr, m) && Readable(bad, addr + m, n - m);
      assert Readable(bad, addr, m) && Readable(bad, addr + m, n - m) ==> Readable(bad, addr, n);
    }
  }

  /** When the first refused byte is the k-th, copying stops where its block begins. */
  lemma {:induction false} CopiedUpToBlock(off: nat, addr: nat, n: nat, bad: set<nat>, k: nat)
    requires k < n && addr + k in bad && Readable(bad, addr, k)
    ensures var block := (off + k) / 1024 * 1024;
      Copied(off, addr, n, bad) == if block <= off then 0 else block - off
    decreases n
  {
    hide Copied, Piece, Readable;
    var m := Piece(off, n);
    CopiedTurn(off, addr, n, bad);
    PieceEnds(off, n);
    if k < m {
      RefusedWithin(bad, addr, k, m);
      InOneBlock(off, k, m);
    } else {
      ReadableSplit(bad, addr, m, k - m);
      CopiedUpToBlock(off + m, addr + m, n - m, bad, k - m);
      AtBoundary(off + m, k - m);
    }
  }

  lemma RefusedWithin(bad: set<nat>, addr: nat, k: nat, m: nat)
    requires k < m && addr + k in bad
    ensures !Readable(bad, addr, m)
  {
  }

  lemma InOneBlock(off: nat, k: nat, m: nat)
    requires k < m <= 1024 - off % 1024
    ensures (off + k) / 1024 * 1024 <= off
  {
    assert off == off / 1024 * 1024 + off % 1024;
  }

  lemma AtBoundary(pos: nat, k: nat)
    requires pos % 1024 == 0
    ensures (pos + k) / 1024 * 1024 >= pos
  {
    assert pos == pos / 1024 * 1024;
  }

  /** What filewrite leaves and reports: the contents, the file offset, how many bytes
      reached the file, and whether it got to the end of its source. */
  datatype Outcome = Outcome(content: seq<nat>, off: nat, written: nat, finished: bool)

  /** (MAXOPBLOCKS - 1 - 1 - 2) / 2 blocks */
  const CHUNK := 3072

  function ChunkOf(n: nat): nat {
    if n > CHUNK then CHUNK else n
  }

  /** The loop of filewrite: a chunk goes in as far as it can be copied, and the offset
      moves past all of it; a chunk that starts beyond the end of the file, or would
      make it too long, ends the loop. */
  function Chunks(content: seq<nat>, off: nat, addr: nat, src: seq<nat>, bad: set<nat>): Outcome
    decreases |src|
  {
    if src == [] then Outcome(content, off, 0, true) else
    var n := ChunkOf(|src|);
    if off > |content| || off + n > MAXFILE * 1024 then Outcome(content, off, 0, false) else
    var w := Copied(off, addr, n, bad);
    var rest := Chunks(Spliced(content, off, src[..w]), off + n, addr + n, src[n..], bad);
    rest.(written := w + rest.written)
  }

  lemma ChunksTurn(content: seq<nat>, off: nat, addr: nat, src: seq<nat>, bad: set<nat>)
    requires src != [] && off <= |content| && off + ChunkOf(|src|) <= MAXFILE * 1024
    ensures var n := ChunkOf(|src|);
      var next := Spliced(content, off, src[..Copied(off, addr, n, bad)]);
      Ends(Chunks(content, off, addr, src, bad), Chunks(next, off + n, addr + n, src[n..], bad))
  {
  }

  lemma ChunksStop(content: seq<nat>, off: nat, addr: nat, src: seq<nat>, bad: set<nat>)
    requires src == [] || off > |content| || off + ChunkOf(|src|) > MAXFILE * 1024
    ensures Chunks(content, off, addr, src, bad) == Outcome(content, off, 0, src == [])
  {
  }

  /** With a readable source, what is written is a prefix of it, the offset and the count
      agree with it, and it is the whole source exactly when the file does not grow
      too long. */
  lemma {:induction false} ChunksReadable(content: seq<nat>, off: nat, addr: nat, src: seq<nat>, bad: set<nat>)
    requires Readable(bad, addr, |src|) && off <= |content|
    ensures var o := Chunks(content, off, addr, src, bad);
      && o.written <= |src| && o.off == off + o.written
      && o.content == Spliced(content, off, src[..o.written])
      && (o.finished <==> o.written == |src|)
      && (o.finished <==> src == [] || off + |src| <= MAXFILE * 1024)
    decreases |src|
  {
    hide Readable, Copied, Spliced;
    SplicedNothing(content, off);
    assert src[..0] == [];
    if src != [] {
      var n := ChunkOf(|src|);
      if off + n <= MAXFILE * 1024 {
        ReadableSplit(bad, addr, n, |src| - n);
        CopiedAllIff(off, addr, n, bad);
        SplicedTwice(content, off, src[..n], []);
        var next := Spliced(content, off, src[..n]);
        ChunksReadable(next, off + n, addr + n, src[n..], bad);
        var w := Chunks(next, off + n, addr + n, src[n..], bad).written;
        SplicedTwice(content, off, src[..n], src[n..][..w]);
        assert src[..n] + src[n..][..w] == src[..n + w];
      }
    }
  }

  lemma SplicedNothing(content: seq<nat>, off: nat)
    requires off <= |content|
    ensures Spliced(content, off, []) == content
  {
  }

  lemma {:induction false} WrittenBound(content: seq<nat>, off: nat, addr: nat, src: seq<nat>, bad: set<nat>)
    ensures Chunks(content, off, addr, src, bad).written <= |src|
    decreases |src|
  {
    if src != [] {
      var n := ChunkOf(|src|);
      if off <= |content| && off + n <= MAXFILE * 1024 {
        var w := Copied(off, addr, n, bad);
        WrittenBound(Spliced(content, off, src[..w]), off + n, addr + n, src[n..], bad);
      }
    }
  }

  /** The count that filewrite reports at the end is the number of bytes that reached the
      file if and only if no byte of the source was refused. */
  lemma {:induction false} ReportedIsWrittenIff(content: seq<nat>, off: nat, addr: nat, src: seq<nat>, bad: set<nat>)
    requires Chunks(content, off, addr, src, bad).finished
    ensures Chunks(content, off, addr, src, bad).written == |src| <==> Readable(bad, addr, |src|)
    decreases |src|
  {
    hide Copied, Spliced, Readable;
    if src == [] {
      ReadableSplit(bad, addr, 0, 0);
    } else {
      var n := ChunkOf(|src|);
      var w := Copied(off, addr, n, bad);
      var next := Spliced(content, off, src[..w]);
      CopiedAllIff(off, addr, n, bad);
      WrittenBound(next, off + n, addr + n, src[n..], bad);
      ReportedIsWrittenIff(next, off + n, addr + n, src[n..], bad);
      ReadableSplit(bad, addr, n, |src| - n);
    }
  }

  lemma ReadableSplit(bad: set<nat>, addr: nat, m: nat, n: nat)
    ensures Readable(bad, addr, m + n) <==> Readable(bad, addr, m) && Readable(bad, addr + m, n)
    ensures Readable(bad, addr, 0)
  {
  }

  /** So a short write whose first byte is refused writes nothing, moves the offset all
      the same, and reports success. */
  lemma RefusedWriteReportsSuccess(content: seq<nat>, off: nat, addr: nat, src: seq<nat>, bad: set<nat>)
    requires 0 < |src| <= CHUNK && off <= |content| && off + |src| <= MAXFILE * 1024 && addr in bad
    ensures Chunks(content, off, addr, src, bad) == Outcome(content, off + |src|, 0, true)
  {
    CopiedUpToBlock(off, addr, |src|, bad, 0);
    assert src[|src|..] == [];
    assert Spliced(content, off, src[..0]) == content;
  }

  /** One chunk further, if the file ends before the offset has got there, and the
      report is an error. */
  lemma RefusedAtEndFails(content: seq<nat>, addr: nat, src: seq<nat>, bad: set<nat>)
    requires |src| > CHUNK && |content| + CHUNK <= MAXFILE * 1024 && addr in bad
    ensures Chunks(content, |content|, addr, src, bad) == Outcome(content, |content| + CHUNK, 0, false)
  {
    hide Copied;
    CopiedUpToBlock(|content|, addr, 3072, bad, 0);
    assert |content| / 1024 * 1024 <= |content|;
    assert Spliced(content, |content|, src[..0]) == content;
    var rest := src[3072..];
    assert Chunks(content, |content| + 3072, addr + 3072, rest, bad) == Outcome(content, |content| + 3072, 0, false);
  }

  /** What is left of a filewrite ends as the whole does. */
  predicate Ends(whole: Outcome, rest: Outcome) {
    rest.content == whole.content && rest.off == whole.off && rest.finished == whole.finished
  }

  /** writei of no bytes. */
  lemma NothingWritten(fs: Fs, inum: nat, off: nat, addr: nat, bad: set<nat>, bmapstart: nat, logged: set<nat>)
    requires inum in fs.inodes && off <= fs.inodes[inum].size
    ensures Copied(off, addr, 0, bad) == 0 && Splices(fs, fs, inum, off, [])
    ensures Recorded(fs, fs, bmapstart, logged) && Keeps(fs, fs)
  {
    SplicesNone(fs, inum, off);
    RecordedNone(fs, bmapstart, logged);
  }
}
