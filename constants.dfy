/** The wire constants shared by the transmitter and the receiver. */
module Constants {
  import opened Binary

  /** The tone frequency, in hertz, whose magnitude the receiver measures. */
  const Frequency: real := 300.0

  /** Samples per second, for both playback and capture. */
  const SampleRate: int := 44_100

  /** Milliseconds each on/off signal lasts. */
  const BitDuration: int := 256

  /** The preamble that opens every frame. */
  const FrameStart: seq<bool> := [true, true, true, false, false, false]

  /** The trailer that closes every frame. */
  const FrameEnd: seq<bool> := [false, false, false, true, true, true]

  /** A fixed marker after the payload; it is not computed from the payload. */
  const FrameChecksum: seq<bool> := [true, false, true, false]

  /** Width of the size field, in bits. */
  const FrameSizeBits: nat := 3

  /** The largest payload, in bytes, a size field of `FrameSizeBits` bits can announce. */
  const MaxDataLength: int := Pow2(FrameSizeBits) - 1

  lemma MaxDataLengthIsSeven()
    ensures MaxDataLength == Pow2(FrameSizeBits) - 1 == 7
  {
  }

  lemma TrailerNegatesPreamble()
    ensures |FrameStart| == |FrameEnd| == 6
    ensures forall i :: 0 <= i < |FrameStart| ==> FrameEnd[i] == !FrameStart[i]
  {
  }

  lemma SamplesPerBit()
    ensures SampleRate / 1000 * BitDuration == 44 * 256 == 11264
  {
  }
}
