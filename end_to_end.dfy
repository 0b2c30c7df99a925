/**
 * Round trips across the two sides: what the transmitter puts on the wire,
 * fed bit by bit into the receiver's Manchester decoder, frame parser and
 * frame watcher, and what comes out.
 */
module EndToEnd {
  import opened Wrappers
  import opened Binary
  import opened Constants
  import M = Manchester
  import opened FrameParsing
  import opened Frames
  import opened FrameWatching

  // ---------------------------------------------------------------------------
  // Manchester coding

  /** Decoding the encoding of `bits` never throws, appends exactly `bits` and leaves no pending bit. */
  lemma {:induction false} ManchesterRoundTrip(decoded: seq<bool>, bits: seq<bool>)
    ensures M.Feed(M.ManchesterState(decoded, None), ManchesterEncode(bits)) == Ok(M.ManchesterState(decoded + bits, None))
    decreases |bits|
  {
    if bits == [] {
      assert decoded + bits == decoded;
    } else {
      var b := bits[0];
      var rest := ManchesterEncode(bits[1..]);
      var raw := [b, !b] + rest;
      assert ManchesterEncode(bits) == raw;
      var s1 := M.ManchesterState(decoded, Some(b));
      var s2 := M.ManchesterState(decoded + [b], None);
      assert raw[0] == b && raw[1..] == [!b] + rest;
      assert M.Feed(M.ManchesterState(decoded, None), raw) == M.Feed(s1, [!b] + rest);
      assert ([!b] + rest)[0] == !b && ([!b] + rest)[1..] == rest;
      assert M.Feed(s1, [!b] + rest) == M.Feed(s2, rest);
      ManchesterRoundTrip(decoded + [b], bits[1..]);
      assert decoded + [b] + bits[1..] == decoded + bits;
    }
  }

  /** Conversely, raw bits that decode without an exception and leave no pending bit are the encoding of what they decode to. */
  lemma {:induction false} ManchesterAcceptsOnlyEncodings(decoded: seq<bool>, raw: seq<bool>)
    requires M.Feed(M.ManchesterState(decoded, None), raw).Ok?
    requires M.Feed(M.ManchesterState(decoded, None), raw).value.lastValue.None?
    ensures var out := M.Feed(M.ManchesterState(decoded, None), raw).value.data;
      decoded <= out && raw == ManchesterEncode(out[|decoded|..])
    decreases |raw|
  {
    var s := M.ManchesterState(decoded, None);
    if raw == [] {
      assert M.Feed(s, raw).value.data[|decoded|..] == [];
    } else {
      var b := raw[0];
      var s1 := M.ManchesterState(decoded, Some(b));
      assert M.Step(s, b) == Ok(s1);
      assert M.Feed(s, raw) == M.Feed(s1, raw[1..]);
      M.FeedAccounts(s, raw);
      assert |raw| >= 2;
      var c := raw[1];
      assert raw[1..][0] == c;
      assert M.Step(s1, c).Ok?;
      var s2 := M.ManchesterState(decoded + [b], None);
      assert M.Feed(s1, raw[1..]) == M.Feed(s2, raw[2..]) by {
        assert raw[1..][1..] == raw[2..];
      }
      ManchesterAcceptsOnlyEncodings(decoded + [b], raw[2..]);
      var out := M.Feed(s, raw).value.data;
      assert out[|decoded|..] == [b] + out[|decoded| + 1..];
      assert raw == [b, !b] + raw[2..];
    }
  }

  /** The six raw size bits of a frame decode to the three-bit, most-significant-first size. */
  lemma SizeSectionDecodes(n: int)
    requires 0 <= n <= MaxDataLength
    ensures M.Feed(M.Fresh, ManchesterEncode(SizeField(n))) == Ok(M.ManchesterState(SizeField(n), None))
    ensures BitsValue(M.Feed(M.Fresh, ManchesterEncode(SizeField(n))).value.data) == n
  {
    ManchesterRoundTrip([], SizeField(n));
    assert [] + SizeField(n) == SizeField(n);
  }

  // ---------------------------------------------------------------------------
  // Payload bytes

  /** Packing the sender's payload bits into bytes gives the payload back. */
  lemma {:induction false} PackPayloadBits(data: seq<int8>)
    ensures PackBits(PayloadBits(data)) == data
  {
    if data != [] {
      var u := Unsigned(data[0]);
      var bits := PayloadBits(data);
      assert bits == LowBits(u, 8) + PayloadBits(data[1..]);
      assert bits[..8] == LowBits(u, 8);
      assert bits[8..] == PayloadBits(data[1..]);
      assert Pow2(8) == 256;
      LowBitsRoundTrip(u, 8);
      SignedOfUnsigned(data[0]);
      PackPayloadBits(data[1..]);
    }
  }

  /** The listener's bytes for the sender's payload bits: the payload without its trailing zero bytes. */
  lemma PayloadToByteArray(data: seq<int8>)
    ensures ToByteArray(PayloadBits(data)) == TrimZeros(data)
    ensures |data| > 0 && data[|data| - 1] != 0 ==> ToByteArray(PayloadBits(data)) == data
  {
    PackPayloadBits(data);
  }

  // ---------------------------------------------------------------------------
  // The frame parser, stage by stage

  /** One Manchester pair of the size field: the decoder takes it, and the size is set once three bits are in. */
  lemma SizePair(prefix: seq<bool>, b: bool)
    requires |prefix| < FrameSizeBits
    ensures var p := ParserState(M.ManchesterState(prefix, None), M.Fresh, None, 0, 0);
      QuietRun(p, [b, !b]) == Some(ParserState(M.ManchesterState(prefix + [b], None), M.Fresh,
        if |prefix| + 1 == FrameSizeBits then Some(BitsValue(prefix + [b])) else None, 0, 0))
  {
    var p := ParserState(M.ManchesterState(prefix, None), M.Fresh, None, 0, 0);
    var p1 := ParserState(M.ManchesterState(prefix, Some(b)), M.Fresh, None, 0, 0);
    var sp := M.ManchesterState(prefix + [b], None);
    var p2 := ParserState(sp, M.Fresh, if |prefix| + 1 == FrameSizeBits then Some(BitsValue(prefix + [b])) else None, 0, 0);
    assert M.Step(p.sizeParser, b) == Ok(p1.sizeParser);
    assert Step(p, b) == Ok(p1);
    assert M.Step(p1.sizeParser, !b) == Ok(sp);
    assert Step(p1, !b) == Ok(p2);
    assert QuietRun(p1, [!b]) == QuietRun(p2, []) by {
      assert [!b][1..] == [];
    }
    assert QuietRun(p, [b, !b]) == QuietRun(p1, [!b]) by {
      assert [b, !b][1..] == [!b];
    }
  }

  /** The rest of the size field, Manchester coded, completes the size quietly. */
  lemma {:induction false} SizeStage(prefix: seq<bool>, rest: seq<bool>)
    requires |prefix| + |rest| == FrameSizeBits && rest != []
    ensures QuietRun(ParserState(M.ManchesterState(prefix, None), M.Fresh, None, 0, 0), ManchesterEncode(rest))
      == Some(ParserState(M.ManchesterState(prefix + rest, None), M.Fresh, Some(BitsValue(prefix + rest)), 0, 0))
    decreases |rest|
  {
    var p := ParserState(M.ManchesterState(prefix, None), M.Fresh, None, 0, 0);
    var b := rest[0];
    assert ManchesterEncode(rest) == [b, !b] + ManchesterEncode(rest[1..]);
    SizePair(prefix, b);
    QuietRunAppend(p, [b, !b], ManchesterEncode(rest[1..]));
    if rest[1..] == [] {
      assert prefix + [b] == prefix + rest;
    } else {
      SizeStage(prefix + [b], rest[1..]);
      assert prefix + [b] + rest[1..] == prefix + rest;
    }
  }

  /** One Manchester pair of the payload. */
  lemma DataPair(p: ParserState, b: bool)
    requires p.size.Some? && p.size.value > 0 && p.checksumIndex == 0 && p.endIndex == 0
    requires p.dataParser.lastValue.None? && |p.dataParser.data| < 8 * p.size.value
    requires |p.sizeParser.data| == FrameSizeBits
    ensures Inv(p) && !IsFrameFinished(p)
    ensures QuietRun(p, [b, !b]) == Some(p.(dataParser := M.ManchesterState(p.dataParser.data + [b], None)))
  {
    var p1 := p.(dataParser := M.ManchesterState(p.dataParser.data, Some(b)));
    var p2 := p.(dataParser := M.ManchesterState(p.dataParser.data + [b], None));
    assert Step(p, b) == Ok(p1);
    assert Step(p1, !b) == Ok(p2);
    assert QuietRun(p1, [!b]) == QuietRun(p2, []) by {
      assert [!b][1..] == [];
    }
    assert QuietRun(p, [b, !b]) == QuietRun(p1, [!b]) by {
      assert [b, !b][1..] == [!b];
    }
  }

  /** The rest of the payload, Manchester coded, fills the data decoder quietly. */
  lemma {:induction false} DataStage(p: ParserState, rest: seq<bool>)
    requires p.size.Some? && p.size.value > 0 && p.checksumIndex == 0 && p.endIndex == 0
    requires p.dataParser.lastValue.None? && |p.dataParser.data| + |rest| == 8 * p.size.value
    requires |p.sizeParser.data| == FrameSizeBits
    ensures Inv(p) && !IsFrameFinished(p)
    ensures QuietRun(p, ManchesterEncode(rest)) == Some(p.(dataParser := M.ManchesterState(p.dataParser.data + rest, None)))
    decreases |rest|
  {
    if rest == [] {
      assert p.dataParser.data + rest == p.dataParser.data;
    } else {
      var b := rest[0];
      assert ManchesterEncode(rest) == [b, !b] + ManchesterEncode(rest[1..]);
      DataPair(p, b);
      QuietRunAppend(p, [b, !b], ManchesterEncode(rest[1..]));
      var q := p.(dataParser := M.ManchesterState(p.dataParser.data + [b], None));
      DataStage(q, rest[1..]);
      assert p.dataParser.data + [b] + rest[1..] == p.dataParser.data + rest;
    }
  }

  /** After a full payload, the remaining checksum bits are matched quietly. */
  lemma {:induction false} ChecksumStage(p: ParserState)
    requires p.size.Some? && p.size.value > 0 && |p.dataParser.data| == 8 * p.size.value
    requires 0 <= p.checksumIndex <= |FrameChecksum| && p.endIndex == 0
    requires |p.sizeParser.data| == FrameSizeBits
    ensures Inv(p) && !IsFrameFinished(p)
    ensures QuietRun(p, FrameChecksum[p.checksumIndex..]) == Some(p.(checksumIndex := |FrameChecksum|))
    decreases |FrameChecksum| - p.checksumIndex
  {
    var k := p.checksumIndex;
    if k < |FrameChecksum| {
      var q := p.(checksumIndex := k + 1);
      assert Step(p, FrameChecksum[k]) == Ok(q);
      ChecksumStage(q);
      assert FrameChecksum[k..][1..] == FrameChecksum[k + 1..];
    }
  }

  /** Once the trailer is due, all but its last bit are matched quietly. */
  lemma {:induction false} EndStage(p: ParserState)
    requires p.size.Some?
    requires p.size.value == 0 || (|p.dataParser.data| == 8 * p.size.value && p.checksumIndex == |FrameChecksum|)
    requires 0 <= p.checksumIndex <= |FrameChecksum| && 0 <= p.endIndex < |FrameEnd|
    requires |p.sizeParser.data| == FrameSizeBits
    requires p.size.value == 0 ==> p.checksumIndex == 0 && p.dataParser.data == []
    ensures Inv(p) && !IsFrameFinished(p)
    ensures QuietRun(p, FrameEnd[p.endIndex..|FrameEnd| - 1]) == Some(p.(endIndex := |FrameEnd| - 1))
    decreases |FrameEnd| - p.endIndex
  {
    var e := p.endIndex;
    if e < |FrameEnd| - 1 {
      var q := p.(endIndex := e + 1);
      assert Step(p, FrameEnd[e]) == Ok(q);
      EndStage(q);
      assert FrameEnd[e..|FrameEnd| - 1][1..] == FrameEnd[e + 1..|FrameEnd| - 1];
    }
  }

  /** The size field of a frame, from a fresh parser: the size is set to `n` and nothing is thrown. */
  lemma SizeFieldParses(n: int)
    requires 0 <= n <= MaxDataLength
    ensures QuietRun(FreshParser, ManchesterEncode(SizeField(n)))
      == Some(ParserState(M.ManchesterState(SizeField(n), None), M.Fresh, Some(n), 0, 0))
  {
    SizeSectionDecodes(n);
    SizeStage([], SizeField(n));
    assert [] + SizeField(n) == SizeField(n);
  }

  /** The finished parser state a data frame with payload `data` leaves. */
  function DataFrameParsed(data: seq<int8>): ParserState
    requires |data| <= MaxDataLength
  {
    ParserState(M.ManchesterState(SizeField(|data|), None), M.ManchesterState(PayloadBits(data), None),
      Some(|data|), |FrameChecksum|, |FrameEnd|)
  }

  /**
   * Everything of a data frame after its preamble but its last bit, fed to a
   * fresh parser, is taken without an exception and without finishing; the
   * last bit finishes the frame, which is not an ACK and whose data are the
   * sender's payload bits.
   */
  lemma {:induction false} DataFrameParses(data: seq<int8>)
    requires 1 <= |data| <= MaxDataLength
    ensures var body := ManchesterEncode(SizeField(|data|)) + ManchesterEncode(PayloadBits(data)) + FrameChecksum + FrameEnd[..|FrameEnd| - 1];
      && QuietRun(FreshParser, body) == Some(DataFrameParsed(data).(endIndex := |FrameEnd| - 1))
      && Step(DataFrameParsed(data).(endIndex := |FrameEnd| - 1), FrameEnd[|FrameEnd| - 1]) == Ok(DataFrameParsed(data))
    ensures IsFrameFinished(DataFrameParsed(data))
    ensures DataOf(DataFrameParsed(data)) == Some(PayloadBits(data))
    ensures IsAckOf(DataFrameParsed(data)) == Some(false)
  {
    var n := |data|;
    var a := ManchesterEncode(SizeField(n));
    var b := ManchesterEncode(PayloadBits(data));
    var c := FrameChecksum;
    var d := FrameEnd[..|FrameEnd| - 1];
    var q1 := ParserState(M.ManchesterState(SizeField(n), None), M.Fresh, Some(n), 0, 0);
    var q2 := q1.(dataParser := M.ManchesterState(PayloadBits(data), None));
    var q3 := q2.(checksumIndex := |FrameChecksum|);
    var q4 := q3.(endIndex := |FrameEnd| - 1);
    SizeFieldParses(n);
    DataStage(q1, PayloadBits(data));
    assert [] + PayloadBits(data) == PayloadBits(data);
    ChecksumStage(q2);
    assert FrameChecksum[0..] == c;
    EndStage(q3);
    assert FrameEnd[0..|FrameEnd| - 1] == d;
    QuietRunAppend(FreshParser, a, b);
    QuietRunAppend(FreshParser, a + b, c);
    QuietRunAppend(FreshParser, a + b + c, d);
    assert q4 == DataFrameParsed(data).(endIndex := |FrameEnd| - 1);
  }

  /** The finished parser state an ACK frame leaves. */
  const AckFrameParsed: ParserState := ParserState(M.ManchesterState(SizeField(0), None), M.Fresh, Some(0), 0, |FrameEnd|)

  /** An ACK frame after its preamble finishes on its last bit as an ACK with no data. */
  lemma AckFrameParses()
    ensures var body := ManchesterEncode(SizeField(0)) + FrameEnd[..|FrameEnd| - 1];
      && QuietRun(FreshParser, body) == Some(AckFrameParsed.(endIndex := |FrameEnd| - 1))
      && Step(AckFrameParsed.(endIndex := |FrameEnd| - 1), FrameEnd[|FrameEnd| - 1]) == Ok(AckFrameParsed)
    ensures IsFrameFinished(AckFrameParsed)
    ensures DataOf(AckFrameParsed) == Some([])
    ensures IsAckOf(AckFrameParsed) == Some(true)
  {
    var a := ManchesterEncode(SizeField(0));
    var q1 := ParserState(M.ManchesterState(SizeField(0), None), M.Fresh, Some(0), 0, 0);
    SizeFieldParses(0);
    EndStage(q1);
    assert FrameEnd[0..|FrameEnd| - 1] == FrameEnd[..|FrameEnd| - 1];
    QuietRunAppend(FreshParser, a, FrameEnd[..|FrameEnd| - 1]);
  }

  /**
   * A data frame with an empty payload announces size 0, so the parser takes
   * the ACK path and its first checksum bit is compared with the trailer: the
   * frame is lost with "Bad end".
   */
  lemma EmptyDataFrameRejected()
    ensures QuietRun(FreshParser, ManchesterEncode(SizeField(0)) + ManchesterEncode(PayloadBits([])))
      == Some(ParserState(M.ManchesterState(SizeField(0), None), M.Fresh, Some(0), 0, 0))
    ensures Step(ParserState(M.ManchesterState(SizeField(0), None), M.Fresh, Some(0), 0, 0), FrameChecksum[0])
      == Err(FrameLossException("Bad end"))
  {
    SizeFieldParses(0);
    assert ManchesterEncode(PayloadBits([])) == [];
    assert ManchesterEncode(SizeField(0)) + [] == ManchesterEncode(SizeField(0));
  }

  // ---------------------------------------------------------------------------
  // The frame watcher

  /** The preamble cannot be completed by a proper prefix of itself: it does not overlap itself. */
  lemma NoEarlyPreamble(t: seq<bool>, k: nat)
    requires 1 <= k < |FrameStart|
    ensures Newest(t + FrameStart[..k], |FrameStart|) != FrameStart
  {
    var s := t + FrameStart[..k];
    var window := Newest(s, |FrameStart|);
    if |window| == |FrameStart| {
      var i := if k <= 3 then k - 1 else 2;
      assert window == s[|s| - |FrameStart|..];
      assert window[|FrameStart| - k + i] == s[|s| - k + i] == FrameStart[i];
      assert FrameStart[i] != FrameStart[|FrameStart| - k + i];
    }
  }

  /** One bit outside a frame: the window moves, and a frame opens exactly when it now holds the preamble. */
  lemma OutsideStep(w: Watcher, value: bool)
    requires !w.inFrame
    ensures var window := Newest(w.tracker + [value], |FrameStart|);
      WatcherFeed(w, [value]) ==
        if window == FrameStart then (WatcherState(FrameStart, true, Some(FreshParser)), [])
        else (w.(tracker := window), [])
  {
    assert [value][1..] == [];
  }

  /** Feeding a prefix and then one more bit outside a frame, when the window does not become the preamble. */
  lemma OutsideShift(w: Watcher, bits: seq<bool>, value: bool)
    requires WatcherFeed(w, bits) == (w.(tracker := Newest(w.tracker + bits, |FrameStart|)), [])
    requires !w.inFrame && Newest(w.tracker + bits + [value], |FrameStart|) != FrameStart
    ensures WatcherFeed(w, bits + [value]) == (w.(tracker := Newest(w.tracker + bits + [value], |FrameStart|)), [])
  {
    var w1: Watcher := w.(tracker := Newest(w.tracker + bits, |FrameStart|));
    WatcherFeedAppend(w, bits, [value]);
    OutsideStep(w1, value);
    NewestAppend(w.tracker + bits, [value], |FrameStart|);
  }

  /** Feeding a prefix and then one more bit outside a frame, when the window becomes the preamble. */
  lemma OutsideOpen(w: Watcher, bits: seq<bool>, value: bool)
    requires WatcherFeed(w, bits) == (w.(tracker := Newest(w.tracker + bits, |FrameStart|)), [])
    requires !w.inFrame && Newest(w.tracker + bits + [value], |FrameStart|) == FrameStart
    ensures WatcherFeed(w, bits + [value]) == (WatcherState(FrameStart, true, Some(FreshParser)), [])
  {
    var w1: Watcher := w.(tracker := Newest(w.tracker + bits, |FrameStart|));
    WatcherFeedAppend(w, bits, [value]);
    OutsideStep(w1, value);
    NewestAppend(w.tracker + bits, [value], |FrameStart|);
  }

  /** The newest |s| bits of t + s, with s split at its last bit, are s. */
  lemma SplitLast(t: seq<bool>, s: seq<bool>)
    requires s != []
    ensures s[..|s| - 1] + [s[|s| - 1]] == s
    ensures Newest(t + s[..|s| - 1] + [s[|s| - 1]], |s|) == s
  {
    assert t + s[..|s| - 1] + [s[|s| - 1]] == t + s;
    assert (t + s)[|t|..] == s;
  }

  /** Outside a frame, a proper prefix of the preamble only shifts the window. */
  lemma {:induction false} PreamblePrefix(w: Watcher, k: nat)
    requires !w.inFrame && k < |FrameStart|
    ensures WatcherFeed(w, FrameStart[..k]) == (w.(tracker := Newest(w.tracker + FrameStart[..k], |FrameStart|)), [])
  {
    if k == 0 {
      assert w.tracker + FrameStart[..0] == w.tracker;
    } else {
      var prefix := FrameStart[..k - 1];
      var x := FrameStart[k - 1];
      PreamblePrefix(w, k - 1);
      assert prefix + [x] == FrameStart[..k];
      assert w.tracker + prefix + [x] == w.tracker + FrameStart[..k];
      NoEarlyPreamble(w.tracker, k);
      OutsideShift(w, prefix, x);
    }
  }

  /** Outside a frame, whatever the window held, the preamble opens a frame on its last bit with a fresh parser. */
  lemma PreambleDetected(w: Watcher)
    requires !w.inFrame
    ensures WatcherFeed(w, FrameStart) == (WatcherState(FrameStart, true, Some(FreshParser)), [])
  {
    var k := |FrameStart| - 1;
    var prefix := FrameStart[..k];
    var x := FrameStart[k];
    assert WatcherFeed(w, prefix) == (w.(tracker := Newest(w.tracker + prefix, |FrameStart|)), []) by {
      PreamblePrefix(w, k);
    }
    SplitLast(w.tracker, FrameStart);
    OutsideOpen(w, prefix, x);
  }

  /** Inside a frame, bits the parser takes quietly only advance the parser. */
  lemma {:induction false} InFrameQuiet(w: Watcher, bits: seq<bool>)
    requires w.inFrame && QuietRun(w.parser.value, bits).Some?
    ensures WatcherFeed(w, bits) == (w.(parser := QuietRun(w.parser.value, bits)), [])
    decreases |bits|
  {
    if bits != [] {
      var q := Step(w.parser.value, bits[0]).value;
      var w1: Watcher := w.(parser := Some(q));
      assert WatcherStep(w, bits[0]) == (w1, None);
      InFrameQuiet(w1, bits[1..]);
    }
  }

  /** Inside a frame, the bit that finishes the parser hands its data to the listener and leaves the frame. */
  lemma FinishingBit(w: Watcher, value: bool, f: ParserState)
    requires w.inFrame && Step(w.parser.value, value) == Ok(f) && IsFrameFinished(f)
    ensures WatcherFeed(w, [value]) == (w.(parser := Some(f), inFrame := false), [ToByteArray(f.dataParser.data)])
  {
    var first := WatcherStep(w, value);
    assert first.0 == w.(parser := Some(f), inFrame := false);
    assert first.1 == Some(ToByteArray(f.dataParser.data));
    assert [value][0] == value && [value][1..] == [];
    assert WatcherFeed(first.0, []) == (first.0, []);
    assert WatcherFeed(w, [value]) == (first.0, Delivered(first.1) + []);
    assert Delivered(first.1) + [] == [ToByteArray(f.dataParser.data)];
  }

  /** No window over `tracker` followed by a nonempty prefix of `bits` is the preamble. */
  ghost predicate PreambleFree(tracker: seq<bool>, bits: seq<bool>)
  {
    forall k :: 1 <= k <= |bits| ==> Newest(tracker + bits[..k], |FrameStart|) != FrameStart
  }

  /** Outside a frame, bits that never complete the preamble only move the window. */
  lemma {:induction false} OutsideQuiet(w: Watcher, bits: seq<bool>)
    requires !w.inFrame && PreambleFree(w.tracker, bits)
    ensures WatcherFeed(w, bits) == (w.(tracker := Newest(w.tracker + bits, |FrameStart|)), [])
    decreases |bits|
  {
    if bits == [] {
      assert w.tracker + bits == w.tracker;
    } else {
      var k := |bits| - 1;
      var init := bits[..k];
      assert PreambleFree(w.tracker, init) by {
        forall j | 1 <= j <= |init|
          ensures Newest(w.tracker + init[..j], |FrameStart|) != FrameStart
        {
          assert init[..j] == bits[..j];
        }
      }
      var x := bits[k];
      assert WatcherFeed(w, init) == (w.(tracker := Newest(w.tracker + init, |FrameStart|)), []) by {
        OutsideQuiet(w, init);
      }
      assert init + [x] == bits;
      assert w.tracker + init + [x] == w.tracker + bits;
      assert Newest(w.tracker + bits, |FrameStart|) != FrameStart by {
        assert bits[..|bits|] == bits;
      }
      OutsideShift(w, init, x);
    }
  }

  /** Three consecutive feeds, the first two of which call no listener. */
  lemma FeedThree(w: Watcher, a: seq<bool>, b: seq<bool>, c: seq<bool>, w1: Watcher, w2: Watcher)
    requires WatcherFeed(w, a) == (w1, []) && WatcherFeed(w1, b) == (w2, [])
    ensures WatcherFeed(w, a + (b + c)) == WatcherFeed(w2, c)
  {
    var r := WatcherFeed(w2, c);
    WatcherFeedAppend(w1, b, c);
    assert [] + r.1 == r.1;
    assert WatcherFeed(w1, b + c) == r;
    WatcherFeedAppend(w, a, b + c);
  }

  /**
   * The round trip: outside a frame, the signals of a data frame with a
   * payload of 1 to 7 bytes make the watcher call the listener exactly once,
   * with the payload less its trailing zero bytes, and leave the frame.
   */
  lemma DataFrameDelivered(w: Watcher, target: int, data: seq<int8>)
    requires !w.inFrame && 1 <= |data| <= MaxDataLength
    ensures WatcherFeed(w, GetSignals(DataFrame(target, data)))
      == (WatcherState(FrameStart, false, Some(DataFrameParsed(data))), [TrimZeros(data)])
    ensures data[|data| - 1] != 0 ==> WatcherFeed(w, GetSignals(DataFrame(target, data))).1 == [data]
  {
    var body := DataBody(data);
    var last := FrameEnd[|FrameEnd| - 1];
    var w1: Watcher := WatcherState(FrameStart, true, Some(FreshParser));
    var w2: Watcher := w1.(parser := Some(DataFrameParsed(data).(endIndex := |FrameEnd| - 1)));
    DataSignalsSplit(target, data);
    PreambleDetected(w);
    DataBodyQuiet(data);
    DataLastBit(data);
    FeedThree(w, FrameStart, body, [last], w1, w2);
    PayloadToByteArray(data);
  }

  /** A data frame's signals after the preamble, but for the last bit. */
  function DataBody(data: seq<int8>): seq<bool>
    requires |data| <= MaxDataLength
  {
    ManchesterEncode(SizeField(|data|)) + ManchesterEncode(PayloadBits(data)) + FrameChecksum + FrameEnd[..|FrameEnd| - 1]
  }

  /** A data frame's signals are the preamble, the body and the last bit. */
  lemma DataSignalsSplit(target: int, data: seq<int8>)
    requires 1 <= |data| <= MaxDataLength
    ensures GetSignals(DataFrame(target, data)) == FrameStart + (DataBody(data) + [FrameEnd[|FrameEnd| - 1]])
  {
    assert FrameEnd == FrameEnd[..|FrameEnd| - 1] + [FrameEnd[|FrameEnd| - 1]];
  }

  /** Inside a frame with a fresh parser, a data frame's body only advances the parser. */
  lemma DataBodyQuiet(data: seq<int8>)
    requires 1 <= |data| <= MaxDataLength
    ensures var w1: Watcher := WatcherState(FrameStart, true, Some(FreshParser));
      WatcherFeed(w1, DataBody(data)) == (w1.(parser := Some(DataFrameParsed(data).(endIndex := |FrameEnd| - 1))), [])
  {
    var w1: Watcher := WatcherState(FrameStart, true, Some(FreshParser));
    DataFrameParses(data);
    InFrameQuiet(w1, DataBody(data));
  }

  /** The last end bit takes a data frame's parser to its finished state. */
  lemma DataLastStep(data: seq<int8>)
    requires 1 <= |data| <= MaxDataLength
    ensures Inv(DataFrameParsed(data).(endIndex := |FrameEnd| - 1)) && !IsFrameFinished(DataFrameParsed(data).(endIndex := |FrameEnd| - 1))
    ensures Step(DataFrameParsed(data).(endIndex := |FrameEnd| - 1), FrameEnd[|FrameEnd| - 1]) == Ok(DataFrameParsed(data))
    ensures IsFrameFinished(DataFrameParsed(data))
  {
  }

  /** Just after a preamble, the last end bit that finishes the parser hands its data to the listener. */
  lemma LastEndBit(f: ParserState)
    requires Inv(f.(endIndex := |FrameEnd| - 1)) && !IsFrameFinished(f.(endIndex := |FrameEnd| - 1))
    requires Step(f.(endIndex := |FrameEnd| - 1), FrameEnd[|FrameEnd| - 1]) == Ok(f) && IsFrameFinished(f)
    ensures WatcherFeed(WatcherState(FrameStart, true, Some(f.(endIndex := |FrameEnd| - 1))), [FrameEnd[|FrameEnd| - 1]])
      == (WatcherState(FrameStart, false, Some(f)), [ToByteArray(f.dataParser.data)])
  {
    FinishingBit(WatcherState(FrameStart, true, Some(f.(endIndex := |FrameEnd| - 1))), FrameEnd[|FrameEnd| - 1], f);
  }

  /** The last bit of a data frame finishes it and hands its trimmed data to the listener. */
  lemma DataLastBit(data: seq<int8>)
    requires 1 <= |data| <= MaxDataLength
    ensures var w2: Watcher := WatcherState(FrameStart, true, Some(DataFrameParsed(data).(endIndex := |FrameEnd| - 1)));
      WatcherFeed(w2, [FrameEnd[|FrameEnd| - 1]])
        == (WatcherState(FrameStart, false, Some(DataFrameParsed(data))), [TrimZeros(data)])
  {
    DataLastStep(data);
    LastEndBit(DataFrameParsed(data));
    PayloadToByteArray(data);
  }

  /** Outside a frame, the signals of an ACK make the watcher call the listener once, with an empty array. */
  lemma AckFrameDelivered(w: Watcher, target: int)
    requires !w.inFrame
    ensures WatcherFeed(w, GetSignals(AckFrame(target))) == (WatcherState(FrameStart, false, Some(AckFrameParsed)), [[]])
  {
    var body := ManchesterEncode(SizeField(0)) + FrameEnd[..|FrameEnd| - 1];
    var last := FrameEnd[|FrameEnd| - 1];
    var q := AckFrameParsed.(endIndex := |FrameEnd| - 1);
    assert GetSignals(AckFrame(target)) == FrameStart + (body + [last]) by {
      assert FrameEnd == FrameEnd[..|FrameEnd| - 1] + [last];
    }
    var w1: Watcher := WatcherState(FrameStart, true, Some(FreshParser));
    assert WatcherFeed(w, FrameStart) == (w1, []) by {
      PreambleDetected(w);
    }
    var w2: Watcher := w1.(parser := Some(q));
    assert WatcherFeed(w1, body) == (w2, []) by {
      AckFrameParses();
      InFrameQuiet(w1, body);
    }
    assert WatcherFeed(w2, [last]) == (w2.(parser := Some(AckFrameParsed), inFrame := false), [ToByteArray([])]) by {
      AckFrameParses();
      LastEndBit(AckFrameParsed);
    }
    assert ToByteArray([]) == [];
    FeedThree(w, FrameStart, body, [last], w1, w2);
  }

  /** Inside a frame, a bit the parser throws on leaves the frame and enters the window; the listener is not called. */
  lemma LosingBit(w: Watcher, value: bool)
    requires w.inFrame && Step(w.parser.value, value).Err?
    ensures WatcherFeed(w, [value]) == (w.(inFrame := false, tracker := Newest(w.tracker + [value], |FrameStart|)), [])
  {
    var first := WatcherStep(w, value);
    assert [value][0] == value && [value][1..] == [];
    assert WatcherFeed(w, [value]) == (first.0, Delivered(first.1) + []);
  }

  /** The bits after the lost first checksum bit of an empty data frame, behind the window it left, hold no preamble. */
  lemma EmptyFrameTailPreambleFree()
    ensures PreambleFree(WindowAfterLoss, FrameChecksum[1..] + FrameEnd)
  {
    var t := WindowAfterLoss;
    var bits := FrameChecksum[1..] + FrameEnd;
    assert bits == [false, true, false, false, false, false, true, true, true];
    forall k | 1 <= k <= |bits|
      ensures Newest(t + bits[..k], |FrameStart|) != FrameStart
    {
      var s := t + bits[..k];
      assert Newest(s, |FrameStart|) == s[k..];
      // The preamble has true at positions 1 and 2; no window here does.
      assert s[k + 1] == false || s[k + 2] == false;
    }
  }

  /** The parser state after the size field of an empty data frame or an ACK: size 0, nothing else yet. */
  const SizeZeroParsed: ParserState := ParserState(M.ManchesterState(SizeField(0), None), M.Fresh, Some(0), 0, 0)

  /** The window the watcher keeps after losing an empty data frame on its first checksum bit. */
  const WindowAfterLoss: seq<bool> := [true, true, false, false, false, true]

  /** Right after the preamble, the coded size 0 is taken quietly and records size 0. */
  lemma EmptyFrameSize(w1: Watcher)
    requires w1 == WatcherState(FrameStart, true, Some(FreshParser))
    ensures WatcherFeed(w1, ManchesterEncode(SizeField(0))) == (w1.(parser := Some(SizeZeroParsed)), [])
  {
    EmptyDataFrameRejected();
    assert ManchesterEncode(SizeField(0)) + ManchesterEncode(PayloadBits([])) == ManchesterEncode(SizeField(0));
    InFrameQuiet(w1, ManchesterEncode(SizeField(0)));
  }

  /** With size 0 recorded, the first checksum bit loses the frame and enters the window. */
  lemma EmptyFrameLoss(w2: Watcher)
    requires w2 == WatcherState(FrameStart, true, Some(SizeZeroParsed))
    ensures WatcherFeed(w2, [FrameChecksum[0]]) == (w2.(inFrame := false, tracker := WindowAfterLoss), [])
  {
    EmptyDataFrameRejected();
    LosingBit(w2, FrameChecksum[0]);
    assert FrameStart + [FrameChecksum[0]] == [true, true, true, false, false, false, true];
  }

  /** After the loss, the rest of the checksum and the trailer open no frame and deliver nothing. */
  lemma EmptyFrameTail(w3: Watcher)
    requires !w3.inFrame && w3.tracker == WindowAfterLoss
    ensures WatcherFeed(w3, FrameChecksum[1..] + FrameEnd).1 == []
    ensures !WatcherFeed(w3, FrameChecksum[1..] + FrameEnd).0.inFrame
  {
    EmptyFrameTailPreambleFree();
    OutsideQuiet(w3, FrameChecksum[1..] + FrameEnd);
  }

  /**
   * Right after a preamble, the rest of a data frame with an empty payload
   * loses the frame on its first checksum bit, and the bits after it never
   * complete a preamble.
   */
  lemma EmptyDataFrameBodyLost()
    ensures var r := WatcherFeed(WatcherState(FrameStart, true, Some(FreshParser)),
      ManchesterEncode(SizeField(0)) + ([FrameChecksum[0]] + (FrameChecksum[1..] + FrameEnd)));
      !r.0.inFrame && r.1 == []
  {
    var w1: Watcher := WatcherState(FrameStart, true, Some(FreshParser));
    var w2: Watcher := w1.(parser := Some(SizeZeroParsed));
    var w3: Watcher := w2.(inFrame := false, tracker := WindowAfterLoss);
    EmptyFrameSize(w1);
    EmptyFrameLoss(w2);
    EmptyFrameTail(w3);
    FeedThree(w1, ManchesterEncode(SizeField(0)), [FrameChecksum[0]], FrameChecksum[1..] + FrameEnd, w2, w3);
  }

  /**
   * Outside a frame, the signals of a data frame with an empty payload lose
   * the frame on its first checksum bit; the bits after it never complete a
   * preamble, so the listener is never called.
   */
  lemma EmptyDataFrameLost(w: Watcher, target: int)
    requires !w.inFrame
    ensures !WatcherFeed(w, GetSignals(DataFrame(target, []))).0.inFrame
    ensures WatcherFeed(w, GetSignals(DataFrame(target, []))).1 == []
  {
    var body := ManchesterEncode(SizeField(0)) + ([FrameChecksum[0]] + (FrameChecksum[1..] + FrameEnd));
    assert GetSignals(DataFrame(target, [])) == FrameStart + body by {
      assert ManchesterEncode(PayloadBits([])) == [];
      assert FrameChecksum == [FrameChecksum[0]] + FrameChecksum[1..];
    }
    PreambleDetected(w);
    EmptyDataFrameBodyLost();
    WatcherFeedAppend(w, FrameStart, body);
  }
}
