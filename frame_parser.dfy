/**
 * The per-frame state machine that runs after the preamble: a Manchester-coded
 * size, a Manchester-coded payload, the fixed checksum marker and the fixed
 * trailer, each consumed one raw bit at a time. A size of zero is an ACK and
 * goes straight to the trailer.
 */
module FrameParsing {
  import opened Wrappers
  import opened Binary
  import opened Constants
  import M = Manchester

  /** A `FrameLossException` and its message. */
  datatype FrameLoss = FrameLossException(message: string)

  /** The fields of a FrameParser. */
  datatype ParserState = ParserState(
    sizeParser: M.ManchesterState,
    dataParser: M.ManchesterState,
    size: Option<int>,
    checksumIndex: int,
    endIndex: int)

  const FreshParser: ParserState := ParserState(M.Fresh, M.Fresh, None, 0, 0)

  /** The number a list of bits spells, most significant bit first: the sum of b_i * 2^(n-1-i). */
  function BitsValue(booleans: seq<bool>): (r: nat)
    ensures r < Pow2(|booleans|)
    ensures |booleans| > 0 && booleans[0] ==> r >= Pow2(|booleans| - 1)
  {
    if booleans == [] then 0
    else (if booleans[0] then Pow2(|booleans| - 1) else 0) + BitsValue(booleans[1..])
  }

  /** `convertBooleansToNumber`: add 2^(n-1-i) for every true element i. */
  method ConvertBooleansToNumber(booleans: seq<bool>) returns (number: nat)
    ensures number == BitsValue(booleans)
  {
    number := 0;
    var i := 0;
    while i < |booleans|
      invariant 0 <= i <= |booleans|
      invariant number + BitsValue(booleans[i..]) == BitsValue(booleans)
    {
      assert booleans[i..][1..] == booleans[i + 1..];
      if booleans[i] {
        number := number + Pow2(|booleans| - i - 1);
      }
      i := i + 1;
    }
    assert booleans[i..] == [];
  }

  /** Appending a bit doubles the value and adds the bit (the Horner form of the same sum). */
  lemma {:induction false} ConvertSnoc(bits: seq<bool>, b: bool)
    ensures BitsValue(bits + [b]) == 2 * BitsValue(bits) + (if b then 1 else 0)
  {
    if bits != [] {
      assert (bits + [b])[1..] == bits[1..] + [b];
      ConvertSnoc(bits[1..], b);
    } else {
      assert bits + [b] == [b];
    }
  }

  /** Leading zero bits do not change the value. */
  lemma {:induction false} ConvertLeadingZeros(k: nat, bits: seq<bool>)
    ensures BitsValue(Repeat(false, k) + bits) == BitsValue(bits)
  {
    if k > 0 {
      assert (Repeat(false, k) + bits)[1..] == Repeat(false, k - 1) + bits;
      ConvertLeadingZeros(k - 1, bits);
    } else {
      assert Repeat(false, k) + bits == bits;
    }
  }

  /** Two bit lists of one length with the same value are the same list. */
  lemma {:induction false} ConvertInjective(a: seq<bool>, b: seq<bool>)
    requires |a| == |b|
    requires BitsValue(a) == BitsValue(b)
    ensures a == b
  {
    if a != [] {
      assert a[0] == b[0];
      ConvertInjective(a[1..], b[1..]);
    }
  }

  /**
   * The fields a parser can reach: the size is read from exactly three
   * decoded bits, no payload bit arrives before it, the payload never
   * outgrows eight bits per announced byte, and the checksum starts only
   * after the whole payload.
   */
  ghost predicate Inv(p: ParserState)
  {
    && 0 <= p.checksumIndex <= |FrameChecksum|
    && 0 <= p.endIndex <= |FrameEnd|
    && (p.size.None? ==> p.checksumIndex == 0 && p.endIndex == 0)
    && |p.sizeParser.data| <= FrameSizeBits
    && (p.size.None? <==> |p.sizeParser.data| < FrameSizeBits)
    && (p.size.None? ==> p.dataParser.data == [] && p.dataParser.lastValue.None?)
    && (p.size.Some? ==> 0 <= p.size.value && |p.dataParser.data| <= 8 * p.size.value)
    && (p.checksumIndex > 0 ==> p.size.Some? && |p.dataParser.data| == 8 * p.size.value)
  }

  predicate IsFrameFinished(p: ParserState)
  {
    p.endIndex == |FrameEnd|
  }

  /** `handleNewFrameEndBit`: compare with the trailer bit at `endIndex`. */
  function EndBit(p: ParserState, value: bool): Result<ParserState, FrameLoss>
    requires 0 <= p.endIndex < |FrameEnd|
  {
    if FrameEnd[p.endIndex] != value then Err(FrameLossException("Bad end"))
    else Ok(p.(endIndex := p.endIndex + 1))
  }

  /** One call of `addBit` on an unfinished frame: the new fields, or the frame loss. */
  function Step(p: ParserState, value: bool): (r: Result<ParserState, FrameLoss>)
    requires Inv(p) && !IsFrameFinished(p)
    ensures r.Ok? ==> Inv(r.value)
  {
    if p.size.None? then
      match M.Step(p.sizeParser, value)
      case Err(_) => Err(FrameLossException("Misinterpreted size encoding"))
      case Ok(sp) =>
        Ok(p.(sizeParser := sp,
              size := if |sp.data| == FrameSizeBits then Some(BitsValue(sp.data)) else None))
    else if p.size.value == 0 then
      EndBit(p, value)
    else if |p.dataParser.data| != p.size.value * 8 then
      match M.Step(p.dataParser, value)
      case Err(_) => Err(FrameLossException("Misinterpreted data encoding"))
      case Ok(dp) => Ok(p.(dataParser := dp))
    else if p.checksumIndex != |FrameChecksum| then
      if FrameChecksum[p.checksumIndex] != value then Err(FrameLossException("Bad checksum"))
      else Ok(p.(checksumIndex := p.checksumIndex + 1))
    else
      EndBit(p, value)
  }

  /** `getData`: the payload bits once the trailer has matched; None stands for IllegalStateException. */
  function DataOf(p: ParserState): (r: Option<seq<bool>>)
    ensures r.Some? <==> IsFrameFinished(p)
  {
    if IsFrameFinished(p) then Some(p.dataParser.data) else None
  }

  /** `isAckFrame`: whether the size was zero, once the trailer has matched; None stands for IllegalStateException. */
  function IsAckOf(p: ParserState): (r: Option<bool>)
    requires Inv(p)
    ensures r.Some? <==> IsFrameFinished(p)
  {
    if IsFrameFinished(p) then Some(p.size.value == 0) else None
  }

  /**
   * Feeding `bits` one at a time, every step succeeds and leaves the frame
   * unfinished, so `addBit` returns false each time: the final fields, or None
   * when some step throws or finishes the frame.
   */
  ghost function QuietRun(p: ParserState, bits: seq<bool>): Option<ParserState>
    requires Inv(p) && !IsFrameFinished(p)
    decreases |bits|
  {
    if bits == [] then Some(p)
    else match Step(p, bits[0])
      case Err(_) => None
      case Ok(q) => if IsFrameFinished(q) then None else QuietRun(q, bits[1..])
  }

  /** A quiet run leaves a state that is still valid and unfinished. */
  lemma {:induction false} QuietRunValid(p: ParserState, bits: seq<bool>)
    requires Inv(p) && !IsFrameFinished(p)
    requires QuietRun(p, bits).Some?
    ensures Inv(QuietRun(p, bits).value) && !IsFrameFinished(QuietRun(p, bits).value)
    decreases |bits|
  {
    if bits != [] {
      QuietRunValid(Step(p, bits[0]).value, bits[1..]);
    }
  }

  /** Quiet runs compose. */
  lemma {:induction false} QuietRunAppend(p: ParserState, a: seq<bool>, b: seq<bool>)
    requires Inv(p) && !IsFrameFinished(p)
    requires QuietRun(p, a).Some?
    ensures QuietRunValidAt(p, a)
    ensures QuietRun(p, a + b) == QuietRun(QuietRun(p, a).value, b)
    decreases |a|
  {
    QuietRunValid(p, a);
    if a == [] {
      assert a + b == b;
    } else {
      assert (a + b)[0] == a[0];
      assert (a + b)[1..] == a[1..] + b;
      QuietRunAppend(Step(p, a[0]).value, a[1..], b);
    }
  }

  ghost predicate QuietRunValidAt(p: ParserState, a: seq<bool>)
    requires Inv(p) && !IsFrameFinished(p)
  {
    QuietRun(p, a).Some? ==> Inv(QuietRun(p, a).value) && !IsFrameFinished(QuietRun(p, a).value)
  }

  /** The parser object; the two Manchester decoders are its own. */
  class FrameParser {
    const sizeParser: M.ManchesterParser
    const dataParser: M.ManchesterParser
    var size: Option<int>
    var checksumIndex: int
    var endIndex: int

    ghost predicate Valid()
      reads this, sizeParser, dataParser
    {
      sizeParser != dataParser && Inv(State())
    }

    function State(): ParserState
      reads this, sizeParser, dataParser
    {
      ParserState(sizeParser.State(), dataParser.State(), size, checksumIndex, endIndex)
    }

    ghost function Repr(): set<object>
    {
      {this, sizeParser, dataParser}
    }

    constructor ()
      ensures Valid() && State() == FreshParser
      ensures fresh(sizeParser) && fresh(dataParser)
    {
      sizeParser := new M.ManchesterParser();
      dataParser := new M.ManchesterParser();
      size := None;
      checksumIndex := 0;
      endIndex := 0;
    }

    /**
     * `addBit`: `Ok(finished)` is the returned flag, `Err` the thrown
     * FrameLossException. Calling it on a finished frame would read past the
     * trailer, so that is excluded.
     */
    method AddBit(value: bool) returns (r: Result<bool, FrameLoss>)
      requires Valid() && !IsFrameFinished(State())
      modifies this, sizeParser, dataParser
      ensures Valid()
      ensures Step(old(State()), value) == if r.Ok? then Ok(State()) else Err(r.error)
      ensures r.Ok? ==> r.value == IsFrameFinished(State())
      ensures r.Err? ==> State() == old(State())
    {
      if size.None? {
        var ok := HandleNewSizeBit(value);
        if !ok {
          return Err(FrameLossException("Misinterpreted size encoding"));
        }
        return Ok(false);
      }
      if size.value == 0 {
        var loss := HandleNewFrameEndBit(value);
        if loss.Some? {
          return Err(loss.value);
        }
        return Ok(endIndex == |FrameEnd|);
      }
      if dataParser.Size() != size.value * 8 {
        var ok := HandleNewDataBit(value);
        if !ok {
          return Err(FrameLossException("Misinterpreted data encoding"));
        }
        return Ok(false);
      }
      if checksumIndex != |FrameChecksum| {
        var loss := HandleNewChecksumBit(value);
        if loss.Some? {
          return Err(loss.value);
        }
        return Ok(false);
      }
      var loss := HandleNewFrameEndBit(value);
      if loss.Some? {
        return Err(loss.value);
      }
      return Ok(endIndex == |FrameEnd|);
    }

    /** `getData`; None stands for IllegalStateException. */
    function GetData(): (r: Option<seq<bool>>)
      reads this, sizeParser, dataParser
      ensures r == DataOf(State())
    {
      if endIndex == |FrameEnd| then Some(dataParser.GetData()) else None
    }

    /** `isAckFrame`; None stands for IllegalStateException. */
    function IsAckFrame(): (r: Option<bool>)
      requires Valid()
      reads this, sizeParser, dataParser
      ensures r == IsAckOf(State())
    {
      if endIndex == |FrameEnd| then Some(size.value == 0) else None
    }

    method HandleNewSizeBit(value: bool) returns (ok: bool)
      requires Valid() && size.None?
      modifies sizeParser, this
      ensures Valid() && dataParser.State() == old(dataParser.State())
      ensures checksumIndex == old(checksumIndex) && endIndex == old(endIndex)
      ensures M.Step(old(sizeParser.State()), value) == if ok then Ok(sizeParser.State()) else Err(M.ManchesterEncodingException)
      ensures ok ==> size == if |sizeParser.data| == FrameSizeBits then Some(BitsValue(sizeParser.data)) else None
      ensures !ok ==> State() == old(State())
    {
      ok := sizeParser.AddBit(value);
      if !ok {
        return;
      }
      if sizeParser.Size() != FrameSizeBits {
        return;
      }
      var number := ConvertBooleansToNumber(sizeParser.GetData());
      size := Some(number);
    }

    method HandleNewDataBit(value: bool) returns (ok: bool)
      requires Valid() && size.Some? && |dataParser.data| < 8 * size.value
      modifies dataParser
      ensures Valid()
      ensures M.Step(old(dataParser.State()), value) == if ok then Ok(dataParser.State()) else Err(M.ManchesterEncodingException)
      ensures !ok ==> dataParser.State() == old(dataParser.State())
    {
      ok := dataParser.AddBit(value);
    }

    /** `handleNewChecksumBit`; `Some` is the thrown "Bad checksum". */
    method HandleNewChecksumBit(value: bool) returns (loss: Option<FrameLoss>)
      requires Valid() && size.Some? && 0 <= checksumIndex < |FrameChecksum|
      requires |dataParser.data| == 8 * size.value
      modifies this`checksumIndex
      ensures Valid()
      ensures loss.Some? <==> FrameChecksum[old(checksumIndex)] != value
      ensures loss.Some? ==> loss.value == FrameLossException("Bad checksum") && checksumIndex == old(checksumIndex)
      ensures loss.None? ==> checksumIndex == old(checksumIndex) + 1
    {
      if FrameChecksum[checksumIndex] != value {
        return Some(FrameLossException("Bad checksum"));
      }
      checksumIndex := checksumIndex + 1;
      return None;
    }

    /** `handleNewFrameEndBit`; `Some` is the thrown "Bad end". */
    method HandleNewFrameEndBit(value: bool) returns (loss: Option<FrameLoss>)
      requires Valid() && size.Some? && 0 <= endIndex < |FrameEnd|
      modifies this`endIndex
      ensures Valid()
      ensures EndBit(old(State()), value) == if loss.Some? then Err(loss.value) else Ok(State())
      ensures loss.Some? ==> endIndex == old(endIndex)
    {
      if FrameEnd[endIndex] != value {
        return Some(FrameLossException("Bad end"));
      }
      endIndex := endIndex + 1;
      return None;
    }
  }
}
