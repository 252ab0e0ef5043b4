/** A commit of kernel/log.c one disk write at a time: what the disk holds after the first
    k of them. */
module CommitSteps {
  import opened Disk
  import W = LogWrites

  /** The k-th write of a commit: a slot, the header that commits, a home block, or the
      header that erases the log. */
  function Nth(l: W.Layout, head: Block, blocks: seq<nat>, data: seq<Block>, k: nat): Write
    requires |blocks| == |data| < WORDS && k < 2 * |blocks| + 2
  {
    var n := |blocks|;
    if k < n then Write(W.SlotKey(l, k), data[k])
    else if k == n then Write(W.HeadKey(l), W.Stamped(head, blocks))
    else if k <= 2 * n then Write(W.HomeKey(l, blocks[k - n - 1]), data[k - n - 1])
    else Write(W.HeadKey(l), W.Stamped(W.Stamped(head, blocks), []))
  }

  lemma NthIs(l: W.Layout, head: Block, blocks: seq<nat>, data: seq<Block>, k: nat)
    requires 0 < |blocks| == |data| < WORDS && k < 2 * |blocks| + 2
    ensures |W.CommitWrites(l, head, blocks, data)| == 2 * |blocks| + 2
    ensures W.CommitWrites(l, head, blocks, data)[k] == Nth(l, head, blocks, data, k)
  {
  }

  /** What the header block holds after k writes. */
  function HeadAfter(head: Block, blocks: seq<nat>, k: nat): Block
    requires |blocks| < WORDS
  {
    if k <= |blocks| then head
    else if k <= 2 * |blocks| + 1 then W.Stamped(head, blocks)
    else W.Stamped(W.Stamped(head, blocks), [])
  }

  ghost predicate SlotsAfter(l: W.Layout, data: seq<Block>, k: nat, image: Image) {
    forall i :: 0 <= i < |data| && i < k ==> W.SlotKey(l, i) in image && image[W.SlotKey(l, i)] == data[i]
  }

  /** The disk is `image` after k writes of the commit of a transaction on the disk `base`. */
  ghost predicate Reached(l: W.Layout, base: Image, blocks: seq<nat>, data: seq<Block>, k: nat, image: Image) {
    && W.Ready(l, base, blocks, data)
    && var writes := W.CommitWrites(l, base[W.HeadKey(l)], blocks, data);
    && k <= |writes| && image == After(base, writes[..k])
    && SlotsAfter(l, data, k, image)
    && W.HeadKey(l) in image && image[W.HeadKey(l)] == HeadAfter(base[W.HeadKey(l)], blocks, k)
    && forall key :: key in base ==> key in image
  }

  /** A commit starts. */
  lemma Starts(l: W.Layout, image: Image, blocks: seq<nat>, data: seq<Block>)
    requires W.Ready(l, image, blocks, data)
    ensures Reached(l, image, blocks, data, 0, image)
  {
    assert W.CommitWrites(l, image[W.HeadKey(l)], blocks, data)[..0] == [];
  }

  /** It goes on with its next write. */
  lemma GoesOn(l: W.Layout, base: Image, blocks: seq<nat>, data: seq<Block>, k: nat, image: Image)
    requires Reached(l, base, blocks, data, k, image) && blocks != [] && k < 2 * |blocks| + 2
    ensures |blocks| == |data| < WORDS
    ensures var w := Nth(l, base[W.HeadKey(l)], blocks, data, k);
      Reached(l, base, blocks, data, k + 1, image[w.key := w.data])
  {
    var head := base[W.HeadKey(l)];
    var writes, w := W.CommitWrites(l, head, blocks, data), Nth(l, head, blocks, data, k);
    NthIs(l, head, blocks, data, k);
    assert writes[..k + 1][..k] == writes[..k];
    if |blocks| < k <= 2 * |blocks| {
      assert !W.InLog(l, W.HomeKey(l, blocks[k - |blocks| - 1]));
    }
  }

  /** It ends, with an empty log and every block at home. */
  lemma Ends(l: W.Layout, base: Image, blocks: seq<nat>, data: seq<Block>, k: nat, image: Image)
    requires Reached(l, base, blocks, data, k, image) && (blocks == [] || k == 2 * |blocks| + 2)
    ensures |blocks| == |data| < WORDS && image == After(base, W.CommitWrites(l, base[W.HeadKey(l)], blocks, data))
    ensures W.Ready(l, image, [], [])
  {
    var writes := W.CommitWrites(l, base[W.HeadKey(l)], blocks, data);
    if blocks != [] {
      NthIs(l, base[W.HeadKey(l)], blocks, data, 0);
    }
    assert writes[..k] == writes;
    W.CommitDone(l, base, blocks, data);
  }

  /** Cut short there, and after any recoveries that are cut short too, it leaves all or
      nothing. */
  lemma Cut(l: W.Layout, base: Image, blocks: seq<nat>, data: seq<Block>, k: nat, image: Image, cuts: seq<nat>,
            e: Image)
    requires Reached(l, base, blocks, data, k, image) && W.Interrupted(l, image, cuts, e)
    ensures |blocks| == |data| && W.WellFormed(l, e)
    ensures W.SameHome(l, W.Recovered(l, e), W.Outcome(l, base, blocks, data, k))
  {
    W.CrashAtomic(l, base, blocks, data, k, cuts, e);
  }
}
