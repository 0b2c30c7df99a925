/**
 * The older transmitter frame: a payload of at most seven bytes, sent as the
 * same wire bits a data frame produces. Its list builders are copies of the
 * frame helpers and are modelled once, in `Frames`.
 */
module AudioFrames {
  import opened Wrappers
  import opened Binary
  import opened Constants
  import opened Frames
  import opened FrameWatching
  import opened EndToEnd

  /** An audio frame; its two waves only choose how segments sound and are not modelled. */
  datatype AudioFrame = AudioFrame(data: seq<int8>)

  /** The constructor: the length check, then the frame. */
  function NewAudioFrame(data: seq<int8>): (r: Result<AudioFrame, IllegalArgument>)
    ensures r.Ok? <==> |data| <= MaxDataLength
    ensures r.Ok? ==> r.value.data == data
    ensures r.Err? ==> r.error == IllegalArgumentException(Some("Data must be less than 7 bytes."))
  {
    if |data| > MaxDataLength then Err(IllegalArgumentException(Some("Data must be less than 7 bytes.")))
    else Ok(AudioFrame(data))
  }

  /** The signal list `send` builds: preamble, coded size, coded payload, checksum, trailer. */
  function SendSignals(f: AudioFrame): seq<bool>
    requires |f.data| <= MaxDataLength
  {
    FrameStart + ManchesterEncode(SizeField(|f.data|)) + ManchesterEncode(PayloadBits(f.data))
      + FrameChecksum + FrameEnd
  }

  /** `send` puts on the wire exactly what a data frame with the same payload does, whatever its target. */
  lemma SendSignalsAreDataFrameSignals(f: AudioFrame, target: int)
    requires |f.data| <= MaxDataLength
    ensures SendSignals(f) == GetSignals(DataFrame(target, f.data))
    ensures |SendSignals(f)| == 6 + 6 + 16 * |f.data| + 4 + 6
  {
    DataSignalsLength(target, f.data);
  }

  /**
   * `send` with the player reduced to its segment log: one segment per
   * maximal run of the signal list, in order.
   */
  method Send(f: AudioFrame, player: AudioPlayer)
    requires |f.data| <= MaxDataLength
    modifies player
    ensures player.segments == old(player.segments) + Runs(SendSignals(f))
  {
    var sizeBits := CreateBooleanListFromNumber(|f.data|, FrameSizeBits);
    SizeFieldGuardPasses(|f.data|);
    var size := CreateOutput(sizeBits.value);
    var payloadBits := ByteArrayToBooleanList(f.data);
    var payload := CreateOutput(payloadBits);
    PlayOutput(FrameStart + size + payload + FrameChecksum + FrameEnd, player);
  }

  /**
   * What the player sounds is what a receiver outside a frame needs: the
   * segments expand back to the signal list, and that list makes the watcher
   * hand the payload, less trailing zero bytes, to its listener once.
   */
  lemma SentFrameReceived(f: AudioFrame, w: Watcher)
    requires 1 <= |f.data| <= MaxDataLength && !w.inFrame
    ensures Expand(Runs(SendSignals(f))) == SendSignals(f)
    ensures WatcherFeed(w, SendSignals(f)).1 == [TrimZeros(f.data)]
  {
    ExpandRuns(SendSignals(f));
    SendSignalsAreDataFrameSignals(f, 0);
    DataFrameDelivered(w, 0, f.data);
  }
}
