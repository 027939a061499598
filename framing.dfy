/**
 * The framing discipline of the speaker's playback routine, stated on values:
 * a decoded sample stream is cut, in order, into frames of exactly
 * FrameSize samples, and a tail shorter than one frame is never sent.
 */
module Framing {

  /** Samples per Opus frame: 10 ms of 48 kHz mono audio. */
  const FrameSize: nat := 480

  /** The concatenation of a sequence of frames, in order. */
  function Flatten<T>(frames: seq<seq<T>>): (s: seq<T>)
  {
    if frames == [] then [] else frames[0] + Flatten(frames[1..])
  }

  /** Every frame holds exactly FrameSize samples. */
  predicate AllFull<T>(frames: seq<seq<T>>)
  {
    forall i | 0 <= i < |frames| :: |frames[i]| == FrameSize
  }

  /** The reference framing: consecutive FrameSize-sample frames of `s`, dropping the short tail. */
  function Frames<T>(s: seq<T>): (frames: seq<seq<T>>)
    ensures AllFull(frames)
    ensures |frames| == |s| / FrameSize
    decreases |s|
  {
    if |s| < FrameSize then [] else [s[..FrameSize]] + Frames(s[FrameSize..])
  }

  /** The number of samples of `s` that the reference framing sends. */
  function SentLength(n: nat): (m: nat)
    ensures m <= n && n - m < FrameSize
    ensures m % FrameSize == 0
  {
    n - n % FrameSize
  }

  lemma {:induction false} FlattenAppend<T>(a: seq<seq<T>>, b: seq<seq<T>>)
    ensures Flatten(a + b) == Flatten(a) + Flatten(b)
    decreases |a|
  {
    if a == [] {
      assert a + b == b;
    } else {
      assert (a + b)[1..] == a[1..] + b;
      FlattenAppend(a[1..], b);
    }
  }

  lemma {:induction false} FlattenFullLength<T>(frames: seq<seq<T>>)
    requires AllFull(frames)
    ensures |Flatten(frames)| == FrameSize * |frames|
    decreases |frames|
  {
    if frames != [] {
      FlattenFullLength(frames[1..]);
    }
  }

  /** The reference framing sends the stream in order, truncated to a whole number of frames. */
  lemma {:induction false} FramesCover<T>(s: seq<T>)
    ensures Flatten(Frames(s)) == s[..SentLength(|s|)]
    decreases |s|
  {
    if |s| >= FrameSize {
      var rest := s[FrameSize..];
      FramesCover(rest);
      assert |rest| % FrameSize == |s| % FrameSize;
      calc {
        Flatten(Frames(s));
        s[..FrameSize] + Flatten(Frames(rest));
        s[..FrameSize] + rest[..SentLength(|rest|)];
        s[..SentLength(|s|)];
      }
    }
  }

  /**
   * Any way of writing `s` as full frames followed by a tail shorter than a
   * frame is the reference framing: the frames and the tail are determined.
   */
  lemma {:induction false} FramingUnique<T>(frames: seq<seq<T>>, tail: seq<T>, s: seq<T>)
    requires AllFull(frames) && |tail| < FrameSize
    requires Flatten(frames) + tail == s
    ensures frames == Frames(s)
    ensures tail == s[SentLength(|s|)..]
    decreases |frames|
  {
    if frames == [] {
      assert s == tail;
    } else {
      var rest := Flatten(frames[1..]) + tail;
      assert s == frames[0] + rest;
      assert |frames[0]| == FrameSize;
      FramingUnique(frames[1..], tail, rest);
      assert s[..FrameSize] == frames[0];
      assert s[FrameSize..] == rest;
      assert |rest| % FrameSize == |s| % FrameSize;
      assert frames == [frames[0]] + frames[1..];
    }
  }
}
