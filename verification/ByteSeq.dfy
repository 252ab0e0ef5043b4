/** Memory as a sequence of bytes: memset and memmove. */
module ByteSeq {

  function Zeros(n: nat): seq<nat> {
    seq(n, _ => 0)
  }

  /** `bytes` copied into a page or block at an offset. */
  function Patched(block: seq<nat>, off: nat, bytes: seq<nat>): (r: seq<nat>)
    requires off + |bytes| <= |block|
    ensures |r| == |block|
    ensures forall i :: 0 <= i < |r| ==> r[i] == if off <= i < off + |bytes| then bytes[i - off] else block[i]
  {
    block[..off] + bytes + block[off + |bytes|..]
  }
}
