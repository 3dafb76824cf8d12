/**
 The lazy item stream of a column: buffers are opened one at a time, items decoded one per pull.
 */
module Stream {
  import opened Prelude
  import opened Bytes
  import opened Types
  import opened Read
  import opened Stats
  import opened Column
  import opened Query

  /** The decoder of one buffer. */
  datatype Decode =
    | One(item: Val, left: nat)       // one item, repeated
    | Std(cursor: Cursor, left: nat)  // decoded item by item
    | Fault(error: Option<Error>)     // a framing error, yielded once

  predicate Fit(ty: Type, d: Decode) {
    d.Std? ==> Fits(ty, d.cursor)
  }

  /** The items a decoder has yet to yield. */
  function Yields(ty: Type, d: Decode): seq<Result<Val>>
    requires Fit(ty, d)
  {
    match d
    case One(item, left) => seq(left, _ => Ok(item))
    case Std(cursor, left) => Pull(ty, cursor, left)
    case Fault(error) => if error.Some? then [Err(error.value)] else []
  }

  function OpenBuffer(ty: Type, b: Stats.Buffer, mmap: seq<Byte>): (d: Decode)
    ensures Fit(ty, d)
  {
    match b.sector.Slice(mmap)
    case Err(e) => Fault(Some(e))
    case Ok(bytes) =>
      if b.Compact? then
        match Read.One(ty, bytes)
        case Err(e) => Fault(Some(e))
        case Ok(item) => One(item, b.count)
      else
        match Open(ty, bytes)
        case Err(e) => Fault(Some(e))
        case Ok(cursor) => Std(cursor, b.count)
  }

  lemma {:induction false} OpenedYields(ty: Type, b: Stats.Buffer, mmap: seq<Byte>)
    ensures Yields(ty, OpenBuffer(ty, b, mmap)) == ReadBuffer(ty, b, mmap)
  {
  }

  /** Everything the buffers yield, read one after another. */
  function ReadsOf(ty: Type, bufs: seq<Stats.Buffer>, mmap: seq<Byte>): seq<Result<Val>> {
    if bufs == [] then [] else ReadBuffer(ty, bufs[0], mmap) + ReadsOf(ty, bufs[1..], mmap)
  }

  /** The buffers whose bit is set. */
  function Retained(bufs: seq<Stats.Buffer>, mask: seq<bool>): seq<Stats.Buffer>
    requires |bufs| == |mask|
  {
    if mask == [] then [] else (if mask[0] then [bufs[0]] else []) + Retained(bufs[1..], mask[1..])
  }

  lemma {:induction false} FromReadsConcat(a: seq<Result<Val>>, b: seq<Result<Val>>)
    ensures FromReads(a + b) == FromReads(a) + FromReads(b)
  {
    if a == [] {
      assert a + b == b;
    } else {
      assert (a + b)[1..] == a[1..] + b;
      FromReadsConcat(a[1..], b);
    }
  }

  /** Reading the retained buffers is the stream of the column under the mask. */
  lemma {:induction false} RetainedIsStream(ty: Type, bufs: seq<Stats.Buffer>, mmap: seq<Byte>, mask: seq<bool>)
    requires |bufs| == |mask|
    ensures FromReads(ReadsOf(ty, Retained(bufs, mask), mmap)) == Query.Stream(ty, bufs, mmap, mask)
  {
    if mask != [] {
      RetainedIsStream(ty, bufs[1..], mmap, mask[1..]);
      var rest := Retained(bufs[1..], mask[1..]);
      if mask[0] {
        assert ([bufs[0]] + rest)[1..] == rest;
        FromReadsConcat(ReadBuffer(ty, bufs[0], mmap), ReadsOf(ty, rest, mmap));
      } else {
        assert [] + rest == rest;
      }
    }
  }

  lemma {:induction false} OneYields(ty: Type, item: Val, left: nat)
    ensures Yields(ty, One(item, left + 1)) == [Ok(item)] + Yields(ty, One(item, left))
  {
  }

  /** A pull from a cursor: the next item, or the end. */
  lemma {:induction false} StdYields(ty: Type, cursor: Cursor, left: nat)
    requires Fits(ty, cursor)
    ensures var (item, rest) := Read.Next(ty, cursor);
            && Fits(ty, rest)
            && Yields(ty, Std(cursor, left + 1)) == (if item.None? then [] else [item.value] + Yields(ty, Std(rest, left)))
            && Yields(ty, Std(rest, 0)) == []
  {
  }

  lemma {:induction false} RestAdvances<T>(now: seq<T>, item: T, later: seq<T>, pending: seq<T>)
    requires now == [item] + later
    ensures now + pending == [item] + (later + pending)
  {
  }

  class ItemSource {
    const ty: Type
    const mmap: seq<Byte>
    var pending: seq<Stats.Buffer>
    var current: Decode

    ghost predicate Valid()
      reads this
    {
      Fit(ty, current)
    }

    /** The items still to come. */
    ghost function Rest(): seq<Result<Val>>
      reads this
      requires Valid()
    {
      Yields(ty, current) + ReadsOf(ty, pending, mmap)
    }

    constructor (ty: Type, bufs: seq<Stats.Buffer>, mmap: seq<Byte>)
      ensures Valid() && Rest() == ReadsOf(ty, bufs, mmap) && this.ty == ty
    {
      this.ty, this.mmap, pending, current := ty, mmap, bufs, Fault(None);
    }

    /** Yields the next item, opening further buffers as needed; `None` only when all are read. */
    method Next() returns (o: Option<Result<Val>>)
      requires Valid()
      modifies this
      ensures Valid()
      ensures o.Some? ==> old(Rest()) == [o.value] + Rest()
      ensures o.None? ==> old(Rest()) == [] && Rest() == []
    {
      o := Step();
      while o.None? && pending != []
        invariant Valid()
        invariant if o.None? then Yields(ty, current) == [] && old(Rest()) == Rest() else old(Rest()) == [o.value] + Rest()
        decreases |pending|
      {
        OpenedYields(ty, pending[0], mmap);
        ghost var before := Rest();
        current, pending := OpenBuffer(ty, pending[0], mmap), pending[1..];
        assert before == Rest();
        o := Step();
      }
    }

    /** Advances the current decoder. */
    method Step() returns (o: Option<Result<Val>>)
      requires Valid()
      modifies this`current
      ensures Valid()
      ensures match o
              case Some(r) => Yields(ty, old(current)) == [r] + Yields(ty, current) && old(Rest()) == [r] + Rest()
              case None => Yields(ty, old(current)) == [] && Yields(ty, current) == [] && old(Rest()) == Rest()
    {
      match current
      case One(item, left) =>
        if left == 0 {
          return None;
        }
        OneYields(ty, item, left - 1);
        RestAdvances(Yields(ty, current), Ok(item), Yields(ty, One(item, left - 1)), ReadsOf(ty, pending, mmap));
        current := One(item, left - 1);
        o := Some(Ok(item));
      case Std(cursor, left) =>
        if left == 0 {
          return None;
        }
        var (item, advanced) := Read.Next(ty, cursor);
        StdYields(ty, cursor, left - 1);
        if item.None? {
          current := Std(advanced, 0);
          return None;
        }
        RestAdvances(Yields(ty, current), item.value, Yields(ty, Std(advanced, left - 1)), ReadsOf(ty, pending, mmap));
        current := Std(advanced, left - 1);
        o := item;
      case Fault(error) =>
        if error.None? {
          return None;
        }
        RestAdvances(Yields(ty, current), Err(error.value), Yields(ty, Fault(None)), ReadsOf(ty, pending, mmap));
        current := Fault(None);
        o := Some(Err(error.value));
    }
  }
}
