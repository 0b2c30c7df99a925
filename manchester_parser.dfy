/**
 * The receiver's Manchester decoder: raw bits arrive one at a time and every
 * complementary pair (b, !b) yields the logical bit b.
 */
module Manchester {
  import opened Wrappers

  /** What `addBit` throws when the two bits of a pair are equal. */
  datatype EncodingException = ManchesterEncodingException

  /** The fields of a parser: the decoded bits and the cached first bit of an unfinished pair. */
  datatype ManchesterState = ManchesterState(data: seq<bool>, lastValue: Option<bool>)

  const Fresh: ManchesterState := ManchesterState([], None)

  /** One call of `addBit`: the new fields, or the exception (the fields then stay as they were). */
  function Step(s: ManchesterState, value: bool): Result<ManchesterState, EncodingException>
  {
    match s.lastValue
    case None => Ok(s.(lastValue := Some(value)))
    case Some(last) =>
      if last == value then Err(ManchesterEncodingException)
      else Ok(ManchesterState(s.data + [last], None))
  }

  /** `addBit` called on each of `raw` in turn, stopping at the first exception. */
  function Feed(s: ManchesterState, raw: seq<bool>): Result<ManchesterState, EncodingException>
    decreases |raw|
  {
    if raw == [] then Ok(s)
    else match Step(s, raw[0])
      case Err(e) => Err(e)
      case Ok(t) => Feed(t, raw[1..])
  }

  /** Raw bits a state accounts for: two per decoded bit, one for a cached first bit. */
  function Absorbed(s: ManchesterState): nat
  {
    2 * |s.data| + (if s.lastValue.Some? then 1 else 0)
  }

  /**
   * Feeding never loses or invents raw bits: every raw bit is either part of a
   * decoded pair or the cached first bit, and earlier decoded bits are kept.
   */
  lemma {:induction false} FeedAccounts(s: ManchesterState, raw: seq<bool>)
    ensures Feed(s, raw).Ok? ==>
      && Absorbed(Feed(s, raw).value) == Absorbed(s) + |raw|
      && s.data <= Feed(s, raw).value.data
    decreases |raw|
  {
    if raw != [] {
      match Step(s, raw[0])
      case Err(_) =>
      case Ok(t) => FeedAccounts(t, raw[1..]);
    }
  }

  /**
   * From a fresh parser, `size()` (the length of `getData()`) is the number of
   * completed pairs, and a first bit is cached exactly when the count of raw
   * bits is odd.
   */
  lemma SizeCountsPairs(raw: seq<bool>)
    requires Feed(Fresh, raw).Ok?
    ensures |Feed(Fresh, raw).value.data| == |raw| / 2
    ensures Feed(Fresh, raw).value.lastValue.Some? <==> |raw| % 2 == 1
  {
    FeedAccounts(Fresh, raw);
  }

  /** A pair of equal bits is rejected whatever was decoded before it. */
  lemma {:induction false} EqualPairRejected(s: ManchesterState, b: bool, rest: seq<bool>)
    requires s.lastValue.None?
    ensures Feed(s, [b, b] + rest) == Err(ManchesterEncodingException)
  {
    assert ([b, b] + rest)[1..] == [b] + rest;
    assert ([b] + rest)[1..] == rest;
  }

  /** The parser object. `getData` hands out the decoded bits. */
  class ManchesterParser {
    var data: seq<bool>
    var lastValue: Option<bool>

    constructor ()
      ensures State() == Fresh
    {
      data := [];
      lastValue := None;
    }

    function State(): ManchesterState
      reads this
    {
      ManchesterState(data, lastValue)
    }

    /** `ok == false` stands for the thrown ManchesterEncodingException. */
    method AddBit(value: bool) returns (ok: bool)
      modifies this
      ensures Step(old(State()), value) == if ok then Ok(State()) else Err(ManchesterEncodingException)
      ensures old(lastValue).None? ==> data == old(data) && lastValue == Some(value) && ok
      ensures old(lastValue) == Some(value) ==> !ok && data == old(data) && lastValue == old(lastValue)
      ensures old(lastValue) == Some(!value) ==> ok && data == old(data) + [!value] && lastValue == None
    {
      if lastValue.None? {
        lastValue := Some(value);
        return true;
      }
      if lastValue.value == value {
        return false;
      }
      data := data + [lastValue.value];
      lastValue := None;
      return true;
    }

    function GetData(): seq<bool>
      reads this
    {
      data
    }

    function Size(): (n: nat)
      reads this
      ensures n == |GetData()|
    {
      |data|
    }
  }
}
