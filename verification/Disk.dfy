/** Disk blocks and the disk itself, as far as kernel/bio.c and kernel/log.c see it. */
module Disk {

  /** A block is BSIZE = 1024 bytes, read here as 256 32-bit words. */
  const WORDS := 256

  type Block = b: seq<nat> | |b| == WORDS witness seq(WORDS, _ => 0)

  datatype Key = Key(dev: nat, blockno: nat)

  /** One block write; the disk performs it completely or not at all. */
  datatype Write = Write(key: Key, data: Block)

  type Image = map<Key, Block>

  /** The image after some writes, in order. */
  function After(image: Image, writes: seq<Write>): (r: Image)
    ensures image.Keys <= r.Keys
    decreases |writes|
  {
    if writes == [] then image
    else After(image, writes[..|writes| - 1])[writes[|writes| - 1].key := writes[|writes| - 1].data]
  }

  lemma {:induction false} AfterBoth(image: Image, first: seq<Write>, second: seq<Write>)
    ensures After(image, first + second) == After(After(image, first), second)
    decreases |second|
  {
    if second == [] {
      assert first + second == first;
    } else {
      var n := |second| - 1;
      assert (first + second)[..|first + second| - 1] == first + second[..n];
      AfterBoth(image, first, second[..n]);
    }
  }

  class Device {
    var image: Image
    ghost var history: seq<Write>   // every write since boot

    constructor (image: Image)
      ensures this.image == image && history == []
    {
      this.image := image;
      history := [];
    }

    method Read(k: Key) returns (d: Block)
      requires k in image
      ensures d == image[k]
    {
      d := image[k];
    }

    method Put(k: Key, d: Block)
      modifies this
      ensures image == old(image)[k := d] && history == old(history) + [Write(k, d)]
    {
      image := image[k := d];
      history := history + [Write(k, d)];
    }
  }
}
