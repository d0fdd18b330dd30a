/**
 * Audio samples and the bounded queue between an instance thread and the
 * sound wave that plays its audio.
 *
 * A frame is one interleaved left/right pair of signed 16-bit samples; the
 * host reads each pair as one signed 32-bit word (`((int32*)buf)[i]`), which on
 * the little-endian targets the plugin builds for holds the left sample in its
 * low half and the right sample in its high half.
 */
module Audio {
  import opened Wrappers

  type Int16 = x: int | -0x8000 <= x < 0x8000
  type Int32 = x: int | -0x8000_0000 <= x < 0x8000_0000

  /** The 32-bit word that a left/right sample pair occupies in memory. */
  function PackFrame(left: Int16, right: Int16): (w: Int32)
    ensures w % 0x1_0000 == left % 0x1_0000
  {
    right * 0x1_0000 + left % 0x1_0000
  }

  /** The left sample of a packed frame: its low 16 bits, sign-extended. */
  function LeftOf(w: Int32): Int16
  {
    var lo := w % 0x1_0000;
    if lo < 0x8000 then lo else lo - 0x1_0000
  }

  /** The right sample of a packed frame: its high 16 bits. */
  function RightOf(w: Int32): Int16
  {
    w / 0x1_0000
  }

  /** Packing loses nothing: both samples come back out of the word. */
  lemma UnpackPack(left: Int16, right: Int16)
    ensures LeftOf(PackFrame(left, right)) == left
    ensures RightOf(PackFrame(left, right)) == right
  {
  }

  /** Every 32-bit word is the packing of exactly its two halves. */
  lemma PackUnpack(w: Int32)
    ensures PackFrame(LeftOf(w), RightOf(w)) == w
  {
  }

  /** The first `frames` frames of an interleaved sample buffer, as packed words. */
  function Frames(buf: seq<Int16>, frames: nat): (r: seq<Int32>)
    requires 2 * frames <= |buf|
    ensures |r| == frames
    ensures forall i :: 0 <= i < frames ==> r[i] == PackFrame(buf[2 * i], buf[2 * i + 1])
  {
    seq(frames, i requires 0 <= i < frames => PackFrame(buf[2 * i], buf[2 * i + 1]))
  }

  /**
   * The engine's `TCircularQueue<int32>` seen as a FIFO that holds at most
   * `capacity` words and refuses an enqueue when full.
   */
  class AudioQueue {
    var items: seq<Int32>
    const capacity: nat

    ghost predicate Valid()
      reads this
    {
      |items| <= capacity
    }

    constructor (capacity: nat)
      ensures Valid() && items == [] && this.capacity == capacity
    {
      items := [];
      this.capacity := capacity;
    }

    /** Appends `x` unless the queue is full; says whether it did. */
    method Enqueue(x: Int32) returns (ok: bool)
      requires Valid()
      modifies this
      ensures Valid()
      ensures ok <==> |old(items)| < capacity
      ensures items == if ok then old(items) + [x] else old(items)
    {
      ok := |items| < capacity;
      if ok {
        items := items + [x];
      }
    }

    /** The consumer side: removes and returns the oldest word, if any. */
    method Dequeue() returns (r: Option<Int32>)
      requires Valid()
      modifies this
      ensures Valid()
      ensures old(items) == [] ==> r == None && items == []
      ensures old(items) != [] ==> r == Some(old(items)[0]) && items == old(items)[1..]
    {
      if items == [] {
        r := None;
      } else {
        r := Some(items[0]);
        items := items[1..];
      }
    }
  }
}
