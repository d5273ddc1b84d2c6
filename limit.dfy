/** Limit: the mutable offset/row-count pair of a paged listing, with its
    externalised form. */
module Limits {
  import opened Outcomes

  class Limit {
    var offset: int32
    var limit: int32

    /** `new Limit()`: from the start, at most 100 rows. */
    constructor Default()
      ensures offset == 0 && limit == 100
    {
      offset := 0;
      limit := 100;
    }

    /** `new Limit(limit)`, which is `new Limit(0, limit)`. */
    constructor WithLimit(limit: int32)
      ensures offset == 0 && this.limit == limit
    {
      offset := 0;
      this.limit := limit;
    }

    /** `new Limit(offset, limit)`: both kept as given, unchecked. */
    constructor (offset: int32, limit: int32)
      ensures this.offset == offset && this.limit == limit
    {
      this.offset := offset;
      this.limit := limit;
    }

    /** `Limit.UNLIMITED`: from the start, `Integer.MAX_VALUE` rows. */
    static method Unlimited() returns (l: Limit)
      ensures fresh(l) && l.offset == 0 && l.limit == MaxInt
    {
      l := new Limit(0, MaxInt);
    }

    method SetOffset(offset: int32)
      modifies this
      ensures this.offset == offset && limit == old(limit)
    {
      this.offset := offset;
    }

    method SetLimit(limit: int32)
      modifies this
      ensures this.limit == limit && offset == old(offset)
    {
      this.limit := limit;
    }

    /** `writeExternal`: what it writes to the stream. */
    function External(): seq<int32>
      reads this
    {
      Write(offset, limit)
    }

    /** `readExternal`: the offset then the limit are read from the stream;
        a stream that runs out leaves what was read so far in place. */
    method ReadExternal(input: seq<int32>) returns (r: Result<seq<int32>>)
      modifies this
      ensures r == (if |input| < 2 then Failure(EndOfStream) else Success(input[2..]))
      ensures |input| >= 1 ==> offset == input[0]
      ensures |input| >= 2 ==> limit == input[1]
      ensures |input| == 0 ==> offset == old(offset)
      ensures |input| < 2 ==> limit == old(limit)
    {
      if |input| == 0 {
        return Failure(EndOfStream);
      }
      offset := input[0];
      if |input| == 1 {
        return Failure(EndOfStream);
      }
      limit := input[1];
      r := Success(input[2..]);
    }
  }

  /** The externalised form: offset first, then limit. */
  function Write(offset: int32, limit: int32): (r: seq<int32>)
    ensures |r| == 2
  {
    [offset, limit]
  }

  /** Reading two ints back, in the order they were written. */
  function Read(input: seq<int32>): (r: Result<(int32, int32, seq<int32>)>)
    ensures r.Success? <==> |input| >= 2
    ensures r.Success? ==> input == [r.value.0, r.value.1] + r.value.2
  {
    if |input| < 2 then Failure(EndOfStream) else Success((input[0], input[1], input[2..]))
  }

  /** Reading what was written restores both fields and leaves the rest of the stream. */
  lemma ReadWrite(offset: int32, limit: int32, rest: seq<int32>)
    ensures Read(Write(offset, limit) + rest) == Success((offset, limit, rest))
  {
    assert (Write(offset, limit) + rest)[2..] == rest;
  }

  /** Writing what was read gives back the consumed prefix. */
  lemma WriteRead(input: seq<int32>)
    requires |input| >= 2
    ensures var (o, l, rest) := Read(input).value; Write(o, l) + rest == input
  {
  }

  /** Round trip through the object: writing one Limit and reading the
      stream into another copies both fields. */
  method CopyThroughStream(from: Limit, to: Limit, rest: seq<int32>) returns (left: seq<int32>)
    modifies to
    ensures to.offset == old(from.offset) && to.limit == old(from.limit)
    ensures left == rest
  {
    var out := from.External() + rest;
    ReadWrite(from.offset, from.limit, rest);
    var r := to.ReadExternal(out);
    left := r.value;
  }
}
