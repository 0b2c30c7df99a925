/**
 * The receive side's frame detector: a six-bit sliding window that looks for
 * the preamble, hands the bits after it to a fresh frame parser, passes the
 * payload of each completed frame to the listener as bytes, and falls back to
 * watching for the preamble when a frame is lost.
 */
module FrameWatching {
  import opened Wrappers
  import opened Binary
  import opened Constants
  import opened FrameParsing

  // ---------------------------------------------------------------------------
  // The preamble tracker

  /** The newest `n` elements of `s` (all of them when there are fewer). */
  function Newest(s: seq<bool>, n: nat): (r: seq<bool>)
    ensures |r| == if |s| < n then |s| else n
  {
    if |s| <= n then s else s[|s| - n..]
  }

  /**
   * `addValueToTracker`: drop the oldest bit when the window is already full,
   * append the new one, and report whether the window is full now. The window
   * keeps the newest six bits, in the order they came.
   */
  function TrackerAdd(tracker: seq<bool>, value: bool): (r: (seq<bool>, bool))
    requires |tracker| <= |FrameStart|
    ensures r.0 == Newest(tracker + [value], |FrameStart|)
    ensures r.1 <==> |r.0| == |FrameStart|
  {
    var sizeDifference := |FrameStart| - |tracker|;
    if sizeDifference == 0 then
      assert tracker[1..] + [value] == (tracker + [value])[1..];
      (tracker[1..] + [value], sizeDifference <= 1)
    else (tracker + [value], sizeDifference <= 1)
  }

  function TrackerFeed(tracker: seq<bool>, bits: seq<bool>): seq<bool>
    requires |tracker| <= |FrameStart|
    decreases |bits|
  {
    if bits == [] then tracker else TrackerFeed(TrackerAdd(tracker, bits[0]).0, bits[1..])
  }

  lemma NewestAppend(s: seq<bool>, x: seq<bool>, n: nat)
    ensures Newest(Newest(s, n) + x, n) == Newest(s + x, n)
  {
    if |s| > n {
      var k := |s| - n;
      assert s[k..] + x == (s + x)[k..];
      assert (s + x)[k..][|x|..] == (s + x)[k + |x|..];
    }
  }

  /** The tracker is a FIFO window: it holds the newest six bits it has been given, in order. */
  lemma {:induction false} TrackerIsWindow(tracker: seq<bool>, bits: seq<bool>)
    requires |tracker| <= |FrameStart|
    ensures TrackerFeed(tracker, bits) == Newest(tracker + bits, |FrameStart|)
    decreases |bits|
  {
    if bits == [] {
      assert tracker + bits == tracker;
    } else {
      var t := TrackerAdd(tracker, bits[0]).0;
      TrackerIsWindow(t, bits[1..]);
      NewestAppend(tracker + [bits[0]], bits[1..], |FrameStart|);
      assert tracker + [bits[0]] + bits[1..] == tracker + bits;
    }
  }

  // ---------------------------------------------------------------------------
  // Bit list to bytes

  /**
   * The bytes of a `BitSet` whose bit i is `bits[i]`: bit 8k + j of the list is
   * bit j of byte k, and a last partial byte is padded with zero bits.
   */
  function PackBits(bits: seq<bool>): (r: seq<int8>)
    ensures |r| == (|bits| + 7) / 8
    decreases |bits|
  {
    if bits == [] then []
    else
      var chunk := if |bits| < 8 then bits else bits[..8];
      Pow2Monotonic(|chunk|, 8);
      [Signed(LowBitsValue(chunk))] + PackBits(bits[|chunk|..])
  }

  /** Bit j of byte k of the packed bytes is element 8k + j of the list. */
  lemma {:induction false} PackBitsAt(bits: seq<bool>, i: nat)
    requires i < |bits|
    ensures BitOf(PackBits(bits)[i / 8], i % 8) == bits[i]
    decreases |bits|
  {
    var chunk := if |bits| < 8 then bits else bits[..8];
    if i < |chunk| {
      Pow2Monotonic(|chunk|, 8);
      var v := LowBitsValue(chunk);
      assert PackBits(bits)[0] == Signed(v);
      LowBitsAt(v, |chunk|, i);
      ValueLowBits(chunk);
    } else {
      PackBitsAt(bits[8..], i - 8);
      assert (i - 8) / 8 == i / 8 - 1 && (i - 8) % 8 == i % 8;
    }
  }

  /** `BitSet.toByteArray` drops trailing zero bytes. */
  function TrimZeros(bytes: seq<int8>): (r: seq<int8>)
    ensures |r| <= |bytes| && r == bytes[..|r|]
    ensures forall i :: |r| <= i < |bytes| ==> bytes[i] == 0
    ensures r == [] || r[|r| - 1] != 0
  {
    if bytes == [] || bytes[|bytes| - 1] != 0 then bytes
    else TrimZeros(bytes[..|bytes| - 1])
  }

  /** The byte array the listener receives for a payload bit list. */
  function ToByteArray(bits: seq<bool>): (r: seq<int8>)
  {
    TrimZeros(PackBits(bits))
  }

  /**
   * The conversion in `handleNewBitWhileInFrame`: copy the list into a bit set
   * of its size, then take the set's byte array.
   */
  method BitListToBytes(data: seq<bool>) returns (bytes: seq<int8>)
    ensures bytes == ToByteArray(data)
    ensures |bytes| <= (|data| + 7) / 8 && (bytes == [] || bytes[|bytes| - 1] != 0)
    ensures forall i :: 0 <= i < 8 * |bytes| && i < |data| ==> BitOf(bytes[i / 8], i % 8) == data[i]
  {
    var bitSet := new bool[|data|];
    var i := 0;
    while i < |data|
      invariant 0 <= i <= |data|
      invariant bitSet[..i] == data[..i]
    {
      bitSet[i] := data[i];
      i := i + 1;
    }
    assert bitSet[..] == data;
    bytes := ToByteArray(bitSet[..]);
    forall i | 0 <= i < 8 * |bytes| && i < |data|
      ensures BitOf(bytes[i / 8], i % 8) == data[i]
    {
      PackBitsAt(data, i);
    }
  }

  // ---------------------------------------------------------------------------
  // The watcher as a state machine

  /** The watcher's fields; `parser` is None until the first preamble. */
  datatype WatcherState = WatcherState(tracker: seq<bool>, inFrame: bool, parser: Option<ParserState>)

  const FreshWatcher: WatcherState := WatcherState([], false, None)

  ghost predicate WatcherInv(w: WatcherState)
  {
    && |w.tracker| <= |FrameStart|
    && (w.parser.Some? ==> Inv(w.parser.value))
    && (w.inFrame ==> w.parser.Some? && !IsFrameFinished(w.parser.value))
  }

  /** The fields a watcher can have: a tracker of at most six bits, and an unfinished parser while in a frame. */
  type Watcher = w: WatcherState | WatcherInv(w) witness FreshWatcher

  /**
   * One call of `addBit(value)`: the new fields and the bytes handed to the
   * listener, if any.
   */
  function WatcherStep(w: Watcher, value: bool): (Watcher, Option<seq<int8>>)
  {
    if w.inFrame then
      match Step(w.parser.value, value)
      case Err(_) =>
        (w.(inFrame := false, tracker := TrackerAdd(w.tracker, value).0), None)
      case Ok(p) =>
        if !IsFrameFinished(p) then (w.(parser := Some(p)), None)
        else (w.(parser := Some(p), inFrame := false), Some(ToByteArray(DataOf(p).value)))
    else
      var (window, full) := TrackerAdd(w.tracker, value);
      if full && window == FrameStart then (WatcherState(window, true, Some(FreshParser)), None)
      else (w.(tracker := window), None)
  }

  /** Outside a frame, a frame starts with a fresh parser exactly when the six newest bits are the preamble. */
  lemma PreambleStartsFrame(w: Watcher, value: bool)
    requires !w.inFrame
    ensures var r := WatcherStep(w, value);
      && r.1.None?
      && r.0.tracker == Newest(w.tracker + [value], |FrameStart|)
      && (r.0.inFrame <==> Newest(w.tracker + [value], |FrameStart|) == FrameStart)
      && (r.0.inFrame ==> r.0.parser == Some(FreshParser))
  {
  }

  /** Inside a frame every bit goes to the parser; the tracker is untouched unless the frame is lost. */
  lemma InFrameBitGoesToParser(w: Watcher, value: bool)
    requires w.inFrame
    ensures var r := WatcherStep(w, value);
      match Step(w.parser.value, value)
      case Ok(p) =>
        && r.0.tracker == w.tracker
        && r.0.parser == Some(p)
        && (r.0.inFrame <==> !IsFrameFinished(p))
        && (r.1.Some? <==> IsFrameFinished(p))
        && (r.1.Some? ==> r.1.value == ToByteArray(p.dataParser.data))
      case Err(_) =>
        && !r.0.inFrame
        && r.1.None?
        && r.0.tracker == Newest(w.tracker + [value], |FrameStart|)
  {
  }

  function Delivered(frame: Option<seq<int8>>): seq<seq<int8>>
  {
    if frame.Some? then [frame.value] else []
  }

  /** Feeding bits one at a time: the final fields and every byte array handed to the listener, in order. */
  function WatcherFeed(w: Watcher, bits: seq<bool>): (r: (Watcher, seq<seq<int8>>))
    ensures |r.1| <= |bits|
    decreases |bits|
  {
    if bits == [] then (w, [])
    else
      var first := WatcherStep(w, bits[0]);
      var rest := WatcherFeed(first.0, bits[1..]);
      (rest.0, Delivered(first.1) + rest.1)
  }

  /** Feeding bits one at a time through any step function, collecting what it delivers. */
  function FeedWith(step: (Watcher, bool) -> (Watcher, Option<seq<int8>>), w: Watcher, bits: seq<bool>): (Watcher, seq<seq<int8>>)
    decreases |bits|
  {
    if bits == [] then (w, [])
    else
      var first := step(w, bits[0]);
      var rest := FeedWith(step, first.0, bits[1..]);
      (rest.0, Delivered(first.1) + rest.1)
  }

  /** Feeding a concatenation through any step function is feeding one part after the other. */
  lemma {:induction false} FeedWithAppend(step: (Watcher, bool) -> (Watcher, Option<seq<int8>>), w: Watcher, a: seq<bool>, b: seq<bool>)
    ensures FeedWith(step, w, a + b).0 == FeedWith(step, FeedWith(step, w, a).0, b).0
    ensures FeedWith(step, w, a + b).1 == FeedWith(step, w, a).1 + FeedWith(step, FeedWith(step, w, a).0, b).1
    decreases |a|
  {
    if a == [] {
      assert a + b == b;
    } else {
      assert (a + b)[0] == a[0];
      assert (a + b)[1..] == a[1..] + b;
      var first := step(w, a[0]);
      var d := Delivered(first.1);
      FeedWithAppend(step, first.0, a[1..], b);
      var mid := FeedWith(step, first.0, a[1..]);
      var tail := FeedWith(step, mid.0, b);
      assert d + (mid.1 + tail.1) == (d + mid.1) + tail.1;
    }
  }

  /** The watcher's feed is the feed through its own step function. */
  lemma {:induction false} WatcherFeedWith(w: Watcher, bits: seq<bool>)
    ensures WatcherFeed(w, bits) == FeedWith(WatcherStep, w, bits)
    decreases |bits|
  {
    if bits != [] {
      WatcherFeedWith(WatcherStep(w, bits[0]).0, bits[1..]);
    }
  }

  /** Feeding a concatenation is feeding one part after the other. */
  lemma WatcherFeedAppend(w: Watcher, a: seq<bool>, b: seq<bool>)
    ensures WatcherFeed(w, a + b).0 == WatcherFeed(WatcherFeed(w, a).0, b).0
    ensures WatcherFeed(w, a + b).1 == WatcherFeed(w, a).1 + WatcherFeed(WatcherFeed(w, a).0, b).1
  {
    WatcherFeedWith(w, a + b);
    WatcherFeedWith(w, a);
    WatcherFeedWith(WatcherFeed(w, a).0, b);
    FeedWithAppend(WatcherStep, w, a, b);
  }

  /** Feeding one more bit is one more step. */
  lemma WatcherFeedSnoc(w: Watcher, bits: seq<bool>, value: bool)
    ensures WatcherFeed(w, bits + [value]).0 == WatcherStep(WatcherFeed(w, bits).0, value).0
    ensures WatcherFeed(w, bits + [value]).1 ==
      WatcherFeed(w, bits).1 + Delivered(WatcherStep(WatcherFeed(w, bits).0, value).1)
  {
    WatcherFeedAppend(w, bits, [value]);
    var last := WatcherStep(WatcherFeed(w, bits).0, value);
    assert [value][1..] == [];
    assert WatcherFeed(WatcherFeed(w, bits).0, [value]) == (last.0, Delivered(last.1) + []);
  }

  /** The loop step of `AddBitRepeated`. */
  lemma FeedOneMore(w: Watcher, value: bool, i: nat)
    ensures WatcherFeed(w, Repeat(value, i + 1)).0 == WatcherStep(WatcherFeed(w, Repeat(value, i)).0, value).0
    ensures WatcherFeed(w, Repeat(value, i + 1)).1 ==
      WatcherFeed(w, Repeat(value, i)).1 + Delivered(WatcherStep(WatcherFeed(w, Repeat(value, i)).0, value).1)
  {
    WatcherFeedSnoc(w, Repeat(value, i), value);
    assert Repeat(value, i) + [value] == Repeat(value, i + 1);
  }

  // ---------------------------------------------------------------------------
  // The watcher object

  /**
   * The watcher. The listener is reduced to `delivered`, the list of byte
   * arrays it has been handed so far.
   */
  class FrameWatcher {
    var frameStartTracker: seq<bool>
    var isInFrame: bool
    var frameParser: FrameParser?
    var delivered: seq<seq<int8>>
    ghost var Repr: set<object>

    ghost predicate Valid()
      reads this, Repr
    {
      && this in Repr
      && |frameStartTracker| <= |FrameStart|
      && (frameParser != null ==>
            && frameParser.Repr() <= Repr
            && this !in frameParser.Repr()
            && frameParser.Valid())
      && (isInFrame ==> frameParser != null && !IsFrameFinished(frameParser.State()))
    }

    ghost function State(): Watcher
      requires Valid()
      reads this, Repr
    {
      WatcherState(frameStartTracker, isInFrame,
        if frameParser == null then None else Some(frameParser.State()))
    }

    constructor ()
      ensures Valid() && fresh(Repr)
      ensures State() == FreshWatcher && delivered == []
    {
      frameStartTracker := [];
      isInFrame := false;
      frameParser := null;
      delivered := [];
      Repr := {this};
    }

    /** `addBit(value)`. */
    method AddBit(value: bool)
      requires Valid()
      modifies Repr
      ensures Valid() && fresh(Repr - old(Repr))
      ensures State() == WatcherStep(old(State()), value).0
      ensures delivered == old(delivered) + Delivered(WatcherStep(old(State()), value).1)
    {
      if isInFrame {
        HandleNewBitWhileInFrame(value);
      } else {
        HandleNewBitWhileNotInFrame(value);
      }
    }

    /** `addBit(value, bitLength)`: `bitLength` successive calls of `addBit(value)`. */
    method AddBitRepeated(value: bool, bitLength: int)
      requires Valid()
      modifies Repr
      ensures Valid() && fresh(Repr - old(Repr))
      ensures var n := if bitLength < 0 then 0 else bitLength;
        && State() == WatcherFeed(old(State()), Repeat(value, n)).0
        && delivered == old(delivered) + WatcherFeed(old(State()), Repeat(value, n)).1
    {
      ghost var start := State();
      ghost var before := delivered;
      var i := 0;
      while i < bitLength
        invariant 0 <= i && (i <= bitLength || i == 0)
        invariant Valid() && fresh(Repr - old(Repr))
        invariant State() == WatcherFeed(start, Repeat(value, i)).0
        invariant delivered == before + WatcherFeed(start, Repeat(value, i)).1
      {
        AddRepeatedBit(value, start, before, i);
        i := i + 1;
      }
    }

    /** One turn of the loop of `addBit(value, bitLength)`: the watcher moves from `i` to `i + 1` copies of `value` fed. */
    method AddRepeatedBit(value: bool, ghost start: Watcher, ghost before: seq<seq<int8>>, ghost i: nat)
      requires Valid()
      requires State() == WatcherFeed(start, Repeat(value, i)).0
      requires delivered == before + WatcherFeed(start, Repeat(value, i)).1
      modifies Repr
      ensures Valid() && fresh(Repr - old(Repr))
      ensures State() == WatcherFeed(start, Repeat(value, i + 1)).0
      ensures delivered == before + WatcherFeed(start, Repeat(value, i + 1)).1
    {
      FeedOneMore(start, value, i);
      AddBit(value);
    }

    /** `handleNewBitWhileNotInFrame`. */
    method HandleNewBitWhileNotInFrame(value: bool)
      requires Valid() && !isInFrame
      modifies this
      ensures Valid() && fresh(Repr - old(Repr))
      ensures State() == WatcherStep(old(State()), value).0 && delivered == old(delivered)
    {
      var isTrackerFull := AddValueToTracker(value);
      if isTrackerFull && frameStartTracker == FrameStart {
        isInFrame := true;
        frameParser := new FrameParser();
        Repr := Repr + frameParser.Repr();
      }
    }

    /** `handleNewBitWhileInFrame`; the frame-loss message is diagnostic output only. */
    method HandleNewBitWhileInFrame(value: bool)
      requires Valid() && isInFrame
      modifies Repr
      ensures Valid() && Repr == old(Repr)
      ensures State() == WatcherStep(old(State()), value).0
      ensures delivered == old(delivered) + Delivered(WatcherStep(old(State()), value).1)
    {
      var r := frameParser.AddBit(value);
      if r.Err? {
        isInFrame := false;
        var _ := AddValueToTracker(value);
        return;
      }
      if !r.value {
        return;
      }
      var data := frameParser.GetData();
      var bytes := BitListToBytes(data.value);
      delivered := delivered + [bytes];
      isInFrame := false;
    }

    /** `addValueToTracker`. */
    method AddValueToTracker(value: bool) returns (isTrackerFull: bool)
      requires |frameStartTracker| <= |FrameStart|
      modifies this`frameStartTracker
      ensures (frameStartTracker, isTrackerFull) == TrackerAdd(old(frameStartTracker), value)
    {
      var sizeDifference := |FrameStart| - |frameStartTracker|;
      if sizeDifference == 0 {
        frameStartTracker := frameStartTracker[1..];
      }
      frameStartTracker := frameStartTracker + [value];
      return sizeDifference <= 1;
    }
  }
}
