/** The redo log of kernel/log.c: what reaches the disk, and what survives a crash.

    A commit and a recovery are given as the block writes they issue, in order.
    A crash keeps some prefix of them.  The header block holds the number of logged
    blocks in word 0 and their block numbers from word 1 on. */
module LogWrites {
  import opened Disk

  const LOGSIZE := 30

  /** Where the log lies: a header block at `start`, then `size - 1` data blocks. */
  datatype Layout = Layout(dev: nat, start: nat, size: nat)

  function HeadKey(l: Layout): Key {
    Key(l.dev, l.start)
  }

  function SlotKey(l: Layout, i: nat): Key {
    Key(l.dev, l.start + 1 + i)
  }

  function HomeKey(l: Layout, blockno: nat): Key {
    Key(l.dev, blockno)
  }

  predicate InLog(l: Layout, k: Key) {
    k.dev == l.dev && l.start <= k.blockno < l.start + l.size
  }

  /** A list of home blocks that the log can carry: it fits, has no block twice, and
      none inside the log itself. */
  predicate Loggable(l: Layout, blocks: seq<nat>) {
    && |blocks| <= LOGSIZE && |blocks| < l.size
    && (forall i, j :: 0 <= i < j < |blocks| ==> blocks[i] != blocks[j])
    && (forall i :: 0 <= i < |blocks| ==> !InLog(l, HomeKey(l, blocks[i])))
  }

  /** The block numbers in a header block. */
  function Listed(head: Block): seq<nat> {
    if head[0] < WORDS then head[1..1 + head[0]] else []
  }

  /** write_head: the count and the numbers; the rest of the block is left as it was. */
  function Stamped(head: Block, blocks: seq<nat>): (r: Block)
    requires |blocks| < WORDS
    ensures Listed(r) == blocks
  {
    [|blocks|] + blocks + head[1 + |blocks|..]
  }

  predicate WellFormed(l: Layout, image: Image) {
    && HeadKey(l) in image && (forall i :: 0 <= i < l.size - 1 ==> SlotKey(l, i) in image)
    && 0 < l.size
    && image[HeadKey(l)][0] < WORDS && Loggable(l, Listed(image[HeadKey(l)]))
    && (forall i :: 0 <= i < |Listed(image[HeadKey(l)])| ==> HomeKey(l, Listed(image[HeadKey(l)])[i]) in image)
  }

  /** write_log */
  function SlotWrites(l: Layout, data: seq<Block>): seq<Write> {
    seq(|data|, i requires 0 <= i < |data| => Write(SlotKey(l, i), data[i]))
  }

  /** install_trans */
  function HomeWrites(l: Layout, blocks: seq<nat>, data: seq<Block>): seq<Write>
    requires |blocks| == |data|
  {
    seq(|blocks|, i requires 0 <= i < |blocks| => Write(HomeKey(l, blocks[i]), data[i]))
  }

  function HeadWrite(l: Layout, head: Block, blocks: seq<nat>): seq<Write>
    requires |blocks| < WORDS
  {
    [Write(HeadKey(l), Stamped(head, blocks))]
  }

  /** commit */
  function CommitWrites(l: Layout, head: Block, blocks: seq<nat>, data: seq<Block>): seq<Write>
    requires |blocks| == |data| && |blocks| < WORDS
  {
    if blocks == [] then [] else
    SlotWrites(l, data) + HeadWrite(l, head, blocks)
    + HomeWrites(l, blocks, data) + HeadWrite(l, Stamped(head, blocks), [])
  }

  function Slots(l: Layout, image: Image, n: nat): seq<Block>
    requires forall i :: 0 <= i < n ==> SlotKey(l, i) in image
  {
    seq(n, i requires 0 <= i < n => image[SlotKey(l, i)])
  }

  /** recover_from_log */
  function RecoverWrites(l: Layout, image: Image): seq<Write>
    requires WellFormed(l, image)
  {
    var head := image[HeadKey(l)];
    var blocks := Listed(head);
    HomeWrites(l, blocks, Slots(l, image, |blocks|)) + HeadWrite(l, head, [])
  }

  function Recovered(l: Layout, image: Image): Image
    requires WellFormed(l, image)
  {
    After(image, RecoverWrites(l, image))
  }

  /** Two images agree on every block outside the log. */
  ghost predicate SameHome(l: Layout, a: Image, b: Image) {
    forall k {:trigger k in a} {:trigger k in b} :: !InLog(l, k) ==>
      (k in a <==> k in b) && (k in a && k in b ==> a[k] == b[k])
  }

  // ----- Reading an image after writes -----

  predicate Unwritten(writes: seq<Write>, k: Key) {
    forall i :: 0 <= i < |writes| ==> writes[i].key != k
  }

  lemma {:induction false} AfterUnwritten(image: Image, writes: seq<Write>, k: Key)
    requires Unwritten(writes, k)
    ensures k in After(image, writes) <==> k in image
    ensures k in image ==> After(image, writes)[k] == image[k]
    decreases |writes|
  {
    if writes != [] {
      AfterUnwritten(image, writes[..|writes| - 1], k);
    }
  }

  predicate DistinctKeys(writes: seq<Write>) {
    forall i, j :: 0 <= i < j < |writes| ==> writes[i].key != writes[j].key
  }

  lemma {:induction false} AfterWritten(image: Image, writes: seq<Write>, i: nat)
    requires i < |writes| && DistinctKeys(writes)
    ensures writes[i].key in After(image, writes)
    ensures After(image, writes)[writes[i].key] == writes[i].data
    decreases |writes|
  {
    var n := |writes| - 1;
    if i < n {
      AfterWritten(image, writes[..n], i);
    }
  }

  // ----- Commit, cut short anywhere -----

  lemma HomeWritesDistinct(l: Layout, blocks: seq<nat>, data: seq<Block>, m: nat)
    requires Loggable(l, blocks) && |data| == |blocks| && m <= |blocks|
    ensures DistinctKeys(HomeWrites(l, blocks, data)[..m])
    ensures forall k :: InLog(l, k) ==> Unwritten(HomeWrites(l, blocks, data)[..m], k)
  {
  }

  /** What a block outside the log holds after the first m home writes. */
  lemma Installed(l: Layout, image: Image, blocks: seq<nat>, data: seq<Block>, m: nat, k: Key)
    requires Loggable(l, blocks) && |data| == |blocks| && m <= |blocks|
    ensures var r := After(image, HomeWrites(l, blocks, data)[..m]);
      && (forall i :: 0 <= i < m && k == HomeKey(l, blocks[i]) ==> k in r && r[k] == data[i])
      && ((forall i :: 0 <= i < m ==> k != HomeKey(l, blocks[i])) ==>
            (k in r <==> k in image) && (k in image ==> r[k] == image[k]))
  {
    var writes := HomeWrites(l, blocks, data)[..m];
    HomeWritesDistinct(l, blocks, data, m);
    forall i | 0 <= i < m && k == HomeKey(l, blocks[i])
      ensures k in After(image, writes) && After(image, writes)[k] == data[i]
    {
      assert writes[i] == Write(k, data[i]);
      AfterWritten(image, writes, i);
    }
    if forall i :: 0 <= i < m ==> k != HomeKey(l, blocks[i]) {
      assert Unwritten(writes, k);
      AfterUnwritten(image, writes, k);
    }
  }

  /** Recovery puts slot i into the i-th listed block and changes no other home block. */
  lemma RecoveredAt(l: Layout, image: Image, k: Key)
    requires WellFormed(l, image) && !InLog(l, k)
    ensures var r, blocks := Recovered(l, image), Listed(image[HeadKey(l)]);
      && (forall i :: 0 <= i < |blocks| && k == HomeKey(l, blocks[i]) ==> k in r && r[k] == image[SlotKey(l, i)])
      && ((forall i :: 0 <= i < |blocks| ==> k != HomeKey(l, blocks[i])) ==>
            (k in r <==> k in image) && (k in image ==> r[k] == image[k]))
  {
    var head := image[HeadKey(l)];
    var blocks := Listed(head);
    var data := Slots(l, image, |blocks|);
    var homes := HomeWrites(l, blocks, data);
    AfterBoth(image, homes, HeadWrite(l, head, []));
    assert Unwritten(HeadWrite(l, head, []), k);
    AfterUnwritten(After(image, homes), HeadWrite(l, head, []), k);
    assert homes[..|blocks|] == homes;
    Installed(l, image, blocks, data, |blocks|, k);
  }

  /** A log whose header, slots and home blocks stand as a commit leaves them. */
  ghost predicate Carries(l: Layout, d: Image, blocks: seq<nat>, data: seq<Block>) {
    && WellFormed(l, d) && Listed(d[HeadKey(l)]) == blocks && |data| == |blocks|
    && forall i :: 0 <= i < |blocks| ==> d[SlotKey(l, i)] == data[i]
  }

  /** d differs from `image` at home only in listed blocks. */
  ghost predicate ElsewhereAs(l: Layout, d: Image, image: Image, blocks: seq<nat>) {
    forall k {:trigger k in d} {:trigger k in image} ::
      !InLog(l, k) && (forall i :: 0 <= i < |blocks| ==> k != HomeKey(l, blocks[i])) ==>
      (k in d <==> k in image) && (k in d && k in image ==> d[k] == image[k])
  }

  /** Recovery of a committed log gives the transaction, whatever the listed home
      blocks held before. */
  lemma RecoverGivesTransaction(l: Layout, d: Image, image: Image, blocks: seq<nat>, data: seq<Block>)
    requires Carries(l, d, blocks, data) && Loggable(l, blocks) && ElsewhereAs(l, d, image, blocks)
    ensures SameHome(l, Recovered(l, d), After(image, HomeWrites(l, blocks, data)))
  {
    var homes := HomeWrites(l, blocks, data);
    assert homes[..|blocks|] == homes;
    forall k | !InLog(l, k)
      ensures var r, p := Recovered(l, d), After(image, homes);
        (k in r <==> k in p) && (k in r && k in p ==> r[k] == p[k])
    {
      RecoveredAt(l, d, k);
      Installed(l, image, blocks, data, |blocks|, k);
      if i :| 0 <= i < |blocks| && k == HomeKey(l, blocks[i]) {
      } else {
        assert k in d <==> k in image;
      }
    }
  }

  /** The disk just before a commit of these blocks: the log is empty. */
  ghost predicate Ready(l: Layout, image: Image, blocks: seq<nat>, data: seq<Block>) {
    && WellFormed(l, image) && Listed(image[HeadKey(l)]) == []
    && Loggable(l, blocks) && |data| == |blocks|
    && forall i :: 0 <= i < |blocks| ==> HomeKey(l, blocks[i]) in image
  }

  /** Recovery of an empty log changes nothing at home. */
  lemma RecoverNothing(l: Layout, d: Image)
    requires WellFormed(l, d) && Listed(d[HeadKey(l)]) == []
    ensures SameHome(l, Recovered(l, d), d)
  {
    forall k | !InLog(l, k)
      ensures var r := Recovered(l, d); (k in r <==> k in d) && (k in r && k in d ==> r[k] == d[k])
    {
      RecoveredAt(l, d, k);
    }
  }

  lemma SlotsWritten(l: Layout, image: Image, data: seq<Block>, m: nat)
    requires WellFormed(l, image) && |data| < l.size && m <= |data|
    ensures var d := After(image, SlotWrites(l, data)[..m]);
      && SameHome(l, d, image) && HeadKey(l) in d && d[HeadKey(l)] == image[HeadKey(l)]
      && (forall i :: 0 <= i < l.size - 1 ==> SlotKey(l, i) in d)
      && (forall i :: 0 <= i < m ==> d[SlotKey(l, i)] == data[i])
  {
    var writes := SlotWrites(l, data)[..m];
    var d := After(image, writes);
    assert DistinctKeys(writes);
    assert forall i :: 0 <= i < m ==> writes[i] == Write(SlotKey(l, i), data[i]);
    forall i | 0 <= i < m
      ensures d[SlotKey(l, i)] == data[i]
    {
      AfterWritten(image, writes, i);
    }
    forall k | !InLog(l, k)
      ensures (k in d <==> k in image) && (k in d && k in image ==> d[k] == image[k])
    {
      AfterUnwritten(image, writes, k);
    }
    AfterUnwritten(image, writes, HeadKey(l));
  }

  lemma CutBeforeCommitPoint(l: Layout, image: Image, blocks: seq<nat>, data: seq<Block>, m: nat)
    requires Ready(l, image, blocks, data) && m <= |blocks|
    ensures var d := After(image, SlotWrites(l, data)[..m]);
      WellFormed(l, d) && SameHome(l, Recovered(l, d), image)
  {
    SlotsWritten(l, image, data, m);
    RecoverNothing(l, After(image, SlotWrites(l, data)[..m]));
  }

  /** The state from the header write on, with m blocks already home. */
  function Committed(l: Layout, image: Image, blocks: seq<nat>, data: seq<Block>, m: nat): Image
    requires HeadKey(l) in image && |blocks| == |data| && |blocks| < WORDS && m <= |blocks|
  {
    var head := image[HeadKey(l)];
    After(After(After(image, SlotWrites(l, data)), HeadWrite(l, head, blocks)), HomeWrites(l, blocks, data)[..m])
  }

  lemma CommittedCarries(l: Layout, image: Image, blocks: seq<nat>, data: seq<Block>, m: nat)
    requires Ready(l, image, blocks, data) && m <= |blocks|
    ensures var d := Committed(l, image, blocks, data, m);
      Carries(l, d, blocks, data) && ElsewhereAs(l, d, image, blocks)
  {
    var slots := SlotWrites(l, data);
    assert slots[..|data|] == slots;
    SlotsWritten(l, image, data, |data|);
    var d1 := After(image, slots);
    var stamp := HeadWrite(l, image[HeadKey(l)], blocks);
    var d2 := After(d1, stamp);
    assert stamp[..0] == [] && After(d1, []) == d1;
    assert d2 == d1[HeadKey(l) := Stamped(image[HeadKey(l)], blocks)];
    var homes := HomeWrites(l, blocks, data)[..m];
    var d := After(d2, homes);
    HomeWritesDistinct(l, blocks, data, m);
    AfterUnwritten(d2, homes, HeadKey(l));
    forall i | 0 <= i < l.size - 1
      ensures SlotKey(l, i) in d && d[SlotKey(l, i)] == d1[SlotKey(l, i)]
    {
      assert InLog(l, SlotKey(l, i));
      AfterUnwritten(d2, homes, SlotKey(l, i));
    }
    forall k | !InLog(l, k) && (forall i :: 0 <= i < |blocks| ==> k != HomeKey(l, blocks[i]))
      ensures (k in d <==> k in image) && (k in d && k in image ==> d[k] == image[k])
    {
      Installed(l, d2, blocks, data, m, k);
      assert k in d1 <==> k in image;
    }
    assert forall i :: 0 <= i < |blocks| ==> HomeKey(l, blocks[i]) in image;
  }

  lemma CutAfterCommitPoint(l: Layout, image: Image, blocks: seq<nat>, data: seq<Block>, m: nat)
    requires Ready(l, image, blocks, data) && m <= |blocks|
    ensures var d := Committed(l, image, blocks, data, m);
      WellFormed(l, d) && SameHome(l, Recovered(l, d), After(image, HomeWrites(l, blocks, data)))
  {
    CommittedCarries(l, image, blocks, data, m);
    RecoverGivesTransaction(l, Committed(l, image, blocks, data, m), image, blocks, data);
  }

  /** Recovery cut after j writes leaves a disk that recovers to the same contents. */
  lemma RecoveryCut(l: Layout, d: Image, j: nat)
    requires WellFormed(l, d) && j <= |RecoverWrites(l, d)|
    ensures var e := After(d, RecoverWrites(l, d)[..j]);
      WellFormed(l, e) && SameHome(l, Recovered(l, e), Recovered(l, d))
  {
    var head := d[HeadKey(l)];
    var blocks := Listed(head);
    var data := Slots(l, d, |blocks|);
    var homes := HomeWrites(l, blocks, data);
    var e := After(d, RecoverWrites(l, d)[..j]);
    if j <= |blocks| {
      assert RecoverWrites(l, d)[..j] == homes[..j];
      PartlyInstalled(l, d, j);
      RecoverGivesTransaction(l, d, d, blocks, data);
      RecoverGivesTransaction(l, e, d, blocks, data);
    } else {
      assert RecoverWrites(l, d)[..j] == RecoverWrites(l, d);
      ClearedLog(l, d);
      RecoverNothing(l, e);
    }
  }

  lemma PartlyInstalled(l: Layout, d: Image, j: nat)
    requires WellFormed(l, d) && j <= |Listed(d[HeadKey(l)])|
    ensures var blocks := Listed(d[HeadKey(l)]); var data := Slots(l, d, |blocks|);
      var e := After(d, HomeWrites(l, blocks, data)[..j]);
      Carries(l, e, blocks, data) && ElsewhereAs(l, e, d, blocks)
  {
    var blocks := Listed(d[HeadKey(l)]);
    var data := Slots(l, d, |blocks|);
    var homes := HomeWrites(l, blocks, data)[..j];
    var e := After(d, homes);
    HomeWritesDistinct(l, blocks, data, j);
    AfterUnwritten(d, homes, HeadKey(l));
    forall i | 0 <= i < l.size - 1
      ensures SlotKey(l, i) in e && e[SlotKey(l, i)] == d[SlotKey(l, i)]
    {
      assert InLog(l, SlotKey(l, i));
      AfterUnwritten(d, homes, SlotKey(l, i));
    }
    forall k | !InLog(l, k) && (forall i :: 0 <= i < |blocks| ==> k != HomeKey(l, blocks[i]))
      ensures (k in e <==> k in d) && (k in e && k in d ==> e[k] == d[k])
    {
      Installed(l, d, blocks, data, j, k);
    }
  }

  /** A finished recovery leaves an empty, well-formed log. */
  lemma ClearedLog(l: Layout, d: Image)
    requires WellFormed(l, d)
    ensures WellFormed(l, Recovered(l, d)) && Listed(Recovered(l, d)[HeadKey(l)]) == []
  {
    var head := d[HeadKey(l)];
    var blocks := Listed(head);
    var data := Slots(l, d, |blocks|);
    var homes := HomeWrites(l, blocks, data);
    AfterBoth(d, homes, HeadWrite(l, head, []));
    assert HeadWrite(l, head, [])[..0] == [];
    assert Recovered(l, d) == After(d, homes)[HeadKey(l) := Stamped(head, [])];
  }

  // ----- Crash atomicity -----

  /** Any number of recoveries, each cut short after the given number of writes. */
  ghost predicate Interrupted(l: Layout, d: Image, cuts: seq<nat>, e: Image)
    decreases |cuts|
  {
    if cuts == [] then d == e
    else
      && WellFormed(l, d) && cuts[0] <= |RecoverWrites(l, d)|
      && Interrupted(l, After(d, RecoverWrites(l, d)[..cuts[0]]), cuts[1..], e)
  }

  lemma {:induction false} InterruptionsDoNotMatter(l: Layout, d: Image, cuts: seq<nat>, e: Image)
    requires WellFormed(l, d) && Interrupted(l, d, cuts, e)
    ensures WellFormed(l, e) && SameHome(l, Recovered(l, e), Recovered(l, d))
    decreases |cuts|
  {
    if cuts != [] {
      var d1 := After(d, RecoverWrites(l, d)[..cuts[0]]);
      RecoveryCut(l, d, cuts[0]);
      InterruptionsDoNotMatter(l, d1, cuts[1..], e);
    }
  }

  lemma CommittedHome(l: Layout, image: Image, blocks: seq<nat>, data: seq<Block>)
    requires Ready(l, image, blocks, data)
    ensures SameHome(l, Committed(l, image, blocks, data, |blocks|), After(image, HomeWrites(l, blocks, data)))
  {
    var d := Committed(l, image, blocks, data, |blocks|);
    CommittedCarries(l, image, blocks, data, |blocks|);
    var homes := HomeWrites(l, blocks, data);
    assert homes[..|blocks|] == homes;
    forall k | !InLog(l, k)
      ensures var p := After(image, homes); (k in d <==> k in p) && (k in d && k in p ==> d[k] == p[k])
    {
      var d2 := After(After(image, SlotWrites(l, data)), HeadWrite(l, image[HeadKey(l)], blocks));
      Installed(l, d2, blocks, data, |blocks|, k);
      Installed(l, image, blocks, data, |blocks|, k);
      if i :| 0 <= i < |blocks| && k == HomeKey(l, blocks[i]) {
      } else {
        assert k in d <==> k in image;
      }
    }
  }

  /** The disk after the first k writes of a commit. */
  lemma CommitPrefix(l: Layout, image: Image, blocks: seq<nat>, data: seq<Block>, k: nat)
    requires Ready(l, image, blocks, data) && blocks != []
    requires k <= |CommitWrites(l, image[HeadKey(l)], blocks, data)|
    ensures var head, n := image[HeadKey(l)], |blocks|;
      var d := After(image, CommitWrites(l, head, blocks, data)[..k]);
      if k <= n then d == After(image, SlotWrites(l, data)[..k])
      else if k <= 2 * n + 1 then d == Committed(l, image, blocks, data, k - n - 1)
      else d == Committed(l, image, blocks, data, n)[HeadKey(l) := Stamped(Stamped(head, blocks), [])]
  {
    var head, n := image[HeadKey(l)], |blocks|;
    var slots, stamp, homes := SlotWrites(l, data), HeadWrite(l, head, blocks), HomeWrites(l, blocks, data);
    var clear := HeadWrite(l, Stamped(head, blocks), []);
    var all := CommitWrites(l, head, blocks, data);
    if k <= n {
      assert all[..k] == slots[..k];
    } else if k <= 2 * n + 1 {
      assert all[..k] == slots + (stamp + homes[..k - n - 1]);
      AfterBoth(image, slots, stamp + homes[..k - n - 1]);
      AfterBoth(After(image, slots), stamp, homes[..k - n - 1]);
    } else {
      assert all[..k] == slots + (stamp + (homes + clear)) && homes[..n] == homes;
      AfterBoth(image, slots, stamp + (homes + clear));
      AfterBoth(After(image, slots), stamp, homes + clear);
      AfterBoth(After(After(image, slots), stamp), homes, clear);
      assert clear[..0] == [];
    }
  }

  lemma SameHomeTrans(l: Layout, a: Image, b: Image, c: Image)
    requires SameHome(l, a, b) && SameHome(l, b, c)
    ensures SameHome(l, a, c)
  {
    forall k | !InLog(l, k)
      ensures (k in a <==> k in c) && (k in a && k in c ==> a[k] == c[k])
    {
      assert k in a <==> k in b;
    }
  }

  /** Erasing the header empties the log and touches nothing else. */
  lemma Erased(l: Layout, c: Image, head: Block)
    requires WellFormed(l, c) && Listed(head) == [] && head[0] < WORDS
    ensures var d := c[HeadKey(l) := head];
      WellFormed(l, d) && Listed(d[HeadKey(l)]) == [] && SameHome(l, d, c)
  {
  }

  lemma WholeCommit(l: Layout, image: Image, blocks: seq<nat>, data: seq<Block>)
    requires Ready(l, image, blocks, data) && blocks != []
    ensures var head := image[HeadKey(l)];
      var d := Committed(l, image, blocks, data, |blocks|)[HeadKey(l) := Stamped(Stamped(head, blocks), [])];
      WellFormed(l, d) && Listed(d[HeadKey(l)]) == [] && SameHome(l, d, After(image, HomeWrites(l, blocks, data)))
  {
    CommittedCarries(l, image, blocks, data, |blocks|);
    CommittedHome(l, image, blocks, data);
    var c := Committed(l, image, blocks, data, |blocks|);
    var head := Stamped(Stamped(image[HeadKey(l)], blocks), []);
    Erased(l, c, head);
    SameHomeTrans(l, c[HeadKey(l) := head], c, After(image, HomeWrites(l, blocks, data)));
  }

  /** The home contents that a commit cut after k writes leads to: all of the
      transaction if its header write happened, none of it otherwise. */
  ghost function Outcome(l: Layout, image: Image, blocks: seq<nat>, data: seq<Block>, k: nat): Image
    requires |blocks| == |data|
  {
    if k <= |blocks| then image else After(image, HomeWrites(l, blocks, data))
  }

  lemma CommitCutEarly(l: Layout, image: Image, blocks: seq<nat>, data: seq<Block>, k: nat)
    requires Ready(l, image, blocks, data) && blocks != [] && k <= |blocks|
    ensures var d := After(image, CommitWrites(l, image[HeadKey(l)], blocks, data)[..k]);
      WellFormed(l, d) && SameHome(l, Recovered(l, d), image)
  {
    CommitPrefix(l, image, blocks, data, k);
    CutBeforeCommitPoint(l, image, blocks, data, k);
  }

  lemma CommitCutLate(l: Layout, image: Image, blocks: seq<nat>, data: seq<Block>, k: nat)
    requires Ready(l, image, blocks, data) && blocks != [] && |blocks| < k <= 2 * |blocks| + 1
    ensures var d := After(image, CommitWrites(l, image[HeadKey(l)], blocks, data)[..k]);
      WellFormed(l, d) && SameHome(l, Recovered(l, d), After(image, HomeWrites(l, blocks, data)))
  {
    CommitPrefix(l, image, blocks, data, k);
    CutAfterCommitPoint(l, image, blocks, data, k - |blocks| - 1);
  }

  lemma CommitCut(l: Layout, image: Image, blocks: seq<nat>, data: seq<Block>, k: nat)
    requires Ready(l, image, blocks, data) && k <= |CommitWrites(l, image[HeadKey(l)], blocks, data)|
    ensures var d := After(image, CommitWrites(l, image[HeadKey(l)], blocks, data)[..k]);
      WellFormed(l, d) && SameHome(l, Recovered(l, d), Outcome(l, image, blocks, data, k))
  {
    var writes := CommitWrites(l, image[HeadKey(l)], blocks, data);
    if blocks == [] {
      assert writes[..k] == [] && k == 0;
      RecoverNothing(l, image);
    } else if k <= |blocks| {
      CommitCutEarly(l, image, blocks, data, k);
    } else if k <= 2 * |blocks| + 1 {
      CommitCutLate(l, image, blocks, data, k);
    } else {
      assert writes[..k] == writes;
      CommitNotCut(l, image, blocks, data);
    }
  }

  lemma CommitNotCut(l: Layout, image: Image, blocks: seq<nat>, data: seq<Block>)
    requires Ready(l, image, blocks, data) && blocks != []
    ensures var d := After(image, CommitWrites(l, image[HeadKey(l)], blocks, data));
      WellFormed(l, d) && SameHome(l, Recovered(l, d), After(image, HomeWrites(l, blocks, data)))
  {
    CommitDone(l, image, blocks, data);
    var d := After(image, CommitWrites(l, image[HeadKey(l)], blocks, data));
    RecoverNothing(l, d);
    SameHomeTrans(l, Recovered(l, d), d, After(image, HomeWrites(l, blocks, data)));
  }

  /** Crash atomicity.  Cut a commit after any k of its writes, cut any number of
      recoveries short anywhere, then let one recovery finish: every block outside
      the log holds exactly its contents from before the transaction, or exactly
      those after it, the latter just when the committing header write was among
      the k. */
  lemma CrashAtomic(l: Layout, image: Image, blocks: seq<nat>, data: seq<Block>, k: nat, cuts: seq<nat>, e: Image)
    requires Ready(l, image, blocks, data) && k <= |CommitWrites(l, image[HeadKey(l)], blocks, data)|
    requires Interrupted(l, After(image, CommitWrites(l, image[HeadKey(l)], blocks, data)[..k]), cuts, e)
    ensures WellFormed(l, e) && SameHome(l, Recovered(l, e), Outcome(l, image, blocks, data, k))
  {
    var d := After(image, CommitWrites(l, image[HeadKey(l)], blocks, data)[..k]);
    CommitCut(l, image, blocks, data, k);
    InterruptionsDoNotMatter(l, d, cuts, e);
    SameHomeTrans(l, Recovered(l, e), Recovered(l, d), Outcome(l, image, blocks, data, k));
  }

  /** A commit that runs to its end leaves the log ready for the next one. */
  lemma CommitDone(l: Layout, image: Image, blocks: seq<nat>, data: seq<Block>)
    requires Ready(l, image, blocks, data)
    ensures var d := After(image, CommitWrites(l, image[HeadKey(l)], blocks, data));
      && WellFormed(l, d) && Listed(d[HeadKey(l)]) == []
      && SameHome(l, d, After(image, HomeWrites(l, blocks, data)))
  {
    var head, n := image[HeadKey(l)], |blocks|;
    var all := CommitWrites(l, head, blocks, data);
    assert all[..|all|] == all;
    if blocks == [] {
      assert HomeWrites(l, blocks, data) == [];
    } else {
      CommitPrefix(l, image, blocks, data, |all|);
      WholeCommit(l, image, blocks, data);
    }
  }
}
