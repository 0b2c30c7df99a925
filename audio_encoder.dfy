/**
 * The transmitter's payload splitter: a payload of any length is sent as a
 * sequence of audio frames of at most seven bytes each.
 */
module AudioEncoding {
  import opened Binary
  import opened Constants
  import opened AudioFrames

  /**
   * `Arrays.copyOfRange(data, from, to)`: the elements from `from` up to `to`,
   * padded with zero bytes past the end of `data`.
   */
  function CopyOfRange(data: seq<int8>, from: nat, to: nat): (r: seq<int8>)
    requires from <= |data| && from <= to
    ensures |r| == to - from
    ensures forall i :: 0 <= i < |r| && from + i < |data| ==> r[i] == data[from + i]
    ensures forall i :: 0 <= i < |r| && from + i >= |data| ==> r[i] == 0
  {
    if to <= |data| then data[from..to] else data[from..] + Repeat(0, to - |data|)
  }

  /** The chunk length at `offset`: the smaller of the frame capacity and one more than what remains. */
  function ChunkLength(total: nat, offset: nat): (n: nat)
    requires offset < total
    ensures 2 <= n <= MaxDataLength
    ensures n == MaxDataLength || n == total - offset + 1
  {
    if MaxDataLength < total - offset + 1 then MaxDataLength else total - offset + 1
  }

  /** The chunks `send` hands to frames, from `offset` on. */
  function SentChunks(data: seq<int8>, offset: nat): seq<seq<int8>>
    decreases |data| - offset
  {
    if offset >= |data| then []
    else
      var length := ChunkLength(|data|, offset);
      [CopyOfRange(data, offset, offset + length)] + SentChunks(data, offset + length)
  }

  /**
   * `send`, with each frame's own sending reduced to appending its payload to
   * `sent`. The frame constructor never throws: every chunk fits.
   */
  method Send(data: seq<int8>) returns (sent: seq<seq<int8>>)
    ensures sent == SentChunks(data, 0)
  {
    sent := [];
    var offset := 0;
    while offset < |data|
      invariant 0 <= offset
      invariant sent + SentChunks(data, offset) == SentChunks(data, 0)
      decreases |data| - offset
    {
      var length := if MaxDataLength < |data| - offset + 1 then MaxDataLength else |data| - offset + 1;
      var chunk := CopyOfRange(data, offset, offset + length);
      var frame := NewAudioFrame(chunk);
      SentChunksStep(data, offset);
      assert sent + SentChunks(data, offset) == (sent + [chunk]) + SentChunks(data, offset + length);
      sent := sent + [frame.value.data];
      offset := offset + length;
    }
  }

  /** From an offset inside the data, the next chunk comes first. */
  lemma SentChunksStep(data: seq<int8>, offset: nat)
    requires offset < |data|
    ensures var length := ChunkLength(|data|, offset);
      SentChunks(data, offset) == [CopyOfRange(data, offset, offset + length)] + SentChunks(data, offset + length)
  {
  }

  /** Every chunk is two to seven bytes, and every chunk but the last is seven. */
  lemma {:induction false} ChunkSizes(data: seq<int8>, offset: nat)
    ensures forall i :: 0 <= i < |SentChunks(data, offset)| ==> 2 <= |SentChunks(data, offset)[i]| <= MaxDataLength
    ensures forall i :: 0 <= i < |SentChunks(data, offset)| - 1 ==> |SentChunks(data, offset)[i]| == MaxDataLength
    decreases |data| - offset
  {
    if offset < |data| {
      var length := ChunkLength(|data|, offset);
      var next := offset + length;
      ChunkSizes(data, next);
      if next >= |data| {
        assert SentChunks(data, next) == [];
      } else {
        assert length == MaxDataLength;
      }
    }
  }

  /** Empty data sends no frame; otherwise one frame per started seven bytes. */
  lemma {:induction false} ChunkCount(data: seq<int8>, offset: nat)
    requires offset <= |data|
    ensures |SentChunks(data, offset)| == (|data| - offset + MaxDataLength - 1) / MaxDataLength
    decreases |data| - offset
  {
    if offset < |data| {
      var length := ChunkLength(|data|, offset);
      if offset + length <= |data| {
        ChunkCount(data, offset + length);
      }
    }
  }

  /**
   * The chunks, concatenated, are the data followed by one zero byte exactly
   * when the length is not a multiple of seven: the last chunk asks for one
   * byte more than remains.
   */
  lemma {:induction false} SentChunksPad(data: seq<int8>, offset: nat)
    requires offset <= |data|
    ensures Flatten(SentChunks(data, offset))
      == data[offset..] + (if (|data| - offset) % MaxDataLength == 0 then [] else [0])
    decreases |data| - offset
  {
    if offset == |data| {
      assert data[offset..] == [];
    } else {
      var length := ChunkLength(|data|, offset);
      var next := offset + length;
      var chunk := CopyOfRange(data, offset, next);
      var rest := SentChunks(data, next);
      SentChunksStep(data, offset);
      assert ([chunk] + rest)[1..] == rest;
      assert Flatten(SentChunks(data, offset)) == chunk + Flatten(rest);
      if next <= |data| {
        SentChunksPad(data, next);
        assert chunk == data[offset..next];
        assert (|data| - offset) % MaxDataLength == (|data| - next) % MaxDataLength;
        assert data[offset..] == data[offset..next] + data[next..];
      } else {
        assert rest == [];
        LastChunkPadded(data, offset);
      }
    }
  }

  /** A last chunk that asks for more than remains is the rest of the data and one zero byte. */
  lemma LastChunkPadded(data: seq<int8>, offset: nat)
    requires offset < |data| && |data| < offset + ChunkLength(|data|, offset)
    ensures CopyOfRange(data, offset, offset + ChunkLength(|data|, offset)) == data[offset..] + [0]
    ensures (|data| - offset) % MaxDataLength != 0
  {
  }

  /** One byte of data goes out as the two-byte frame payload [b, 0]. */
  lemma OneByteSentPadded(b: int8)
    ensures SentChunks([b], 0) == [[b, 0]]
  {
    assert CopyOfRange([b], 0, 2) == [b, 0];
  }

  /** The splitting evidently intended: chunks of at most seven bytes, with no byte added. */
  function IntendedChunks(data: seq<int8>, offset: nat): seq<seq<int8>>
    requires offset <= |data|
    decreases |data| - offset
  {
    if offset == |data| then []
    else
      var length := if MaxDataLength < |data| - offset then MaxDataLength else |data| - offset;
      [data[offset..offset + length]] + IntendedChunks(data, offset + length)
  }

  /** The intended chunks are one to seven bytes and concatenate to exactly the data. */
  lemma {:induction false} IntendedChunksExact(data: seq<int8>, offset: nat)
    requires offset <= |data|
    ensures Flatten(IntendedChunks(data, offset)) == data[offset..]
    ensures forall i :: 0 <= i < |IntendedChunks(data, offset)| ==> 1 <= |IntendedChunks(data, offset)[i]| <= MaxDataLength
    decreases |data| - offset
  {
    if offset == |data| {
      assert data[offset..] == [];
    } else {
      var length := if MaxDataLength < |data| - offset then MaxDataLength else |data| - offset;
      IntendedChunksExact(data, offset + length);
      assert data[offset..] == data[offset..offset + length] + data[offset + length..];
    }
  }
}
