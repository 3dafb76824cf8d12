/**
 One column of an accumulator: the state machine that coalesces a run of identical items, and the
 buffer it becomes on disk.
 */
module Column {
  import opened Prelude
  import opened Bytes
  import opened Types
  import opened Accumulate
  import opened Read
  import opened RoundTrip
  import opened Stats

  datatype State =
    | Vacant
    | Repeated(item: Val, count: nat)
    | Many(acc: Acc)

  /** All rows are bit-identical. */
  predicate Uniform(rows: seq<Val>) {
    forall i :: 0 <= i < |rows| ==> rows[i] == rows[0]
  }

  /** The state after pushing `rows` into a vacant column. */
  function StateOf(ty: Type, rows: seq<Val>): State
    requires AllAre(rows, ty)
  {
    if rows == [] then Vacant
    else if Uniform(rows) then Repeated(rows[0], |rows|)
    else Many(AccOf(ty, rows))
  }

  function Repeat(v: Val, n: nat): seq<Val> {
    seq(n, _ => v)
  }

  class Buffer {
    const ty: Type
    var state: State
    ghost var pushed: seq<Val>

    ghost predicate Valid()
      reads this
    {
      AllAre(pushed, ty) && state == StateOf(ty, pushed)
    }

    constructor (ty: Type)
      ensures Valid() && pushed == [] && this.ty == ty
    {
      this.ty := ty;
      state, pushed := Vacant, [];
    }

    method Push(v: Val)
      requires Valid() && v.Is(ty)
      modifies this
      ensures Valid() && pushed == old(pushed) + [v]
      ensures old(state).Many? ==> state.Many?
    {
      match state {
        case Vacant =>
          state := Repeated(v, 1);
        case Repeated(item, count) =>
          BitMatchIsEquality(v, item);
          if BitMatch(v, item) {
            state := Repeated(item, count + 1);
          } else {
            assert pushed == Repeat(item, count);
            var acc := Upgrade(item, count, v);
            assert (pushed + [v])[|pushed|] != (pushed + [v])[0];
            state := Many(acc);
          }
        case Many(acc) =>
          PushAllConcat(ty, Empty(ty), pushed, [v]);
          NotUniform(pushed, v);
          state := Many(Accumulate.Push(ty, acc, v));
      }
      pushed := pushed + [v];
    }

    /** Materialises a run of one item followed by a different item. */
    method Upgrade(item: Val, count: nat, v: Val) returns (acc: Acc)
      requires item.Is(ty) && v.Is(ty)
      ensures AllAre(Repeat(item, count) + [v], ty) && acc == AccOf(ty, Repeat(item, count) + [v])
    {
      acc := Empty(ty);
      for i := 0 to count
        invariant AllAre(Repeat(item, i), ty) && acc == AccOf(ty, Repeat(item, i))
      {
        PushAllConcat(ty, Empty(ty), Repeat(item, i), [item]);
        assert Repeat(item, i) + [item] == Repeat(item, i + 1);
        acc := Accumulate.Push(ty, acc, item);
      }
      PushAllConcat(ty, Empty(ty), Repeat(item, count), [v]);
      acc := Accumulate.Push(ty, acc, v);
    }

    method Discard()
      modifies this
      ensures Valid() && pushed == []
    {
      state, pushed := Vacant, [];
    }

    method Count() returns (n: nat)
      requires Valid()
      ensures n == |pushed|
    {
      match state
      case Vacant => n := 0;
      case Repeated(_, count) => n := count;
      case Many(acc) =>
        CountOfPushes(ty, Empty(ty), pushed);
        n := acc.Count();
    }

    method IsEmpty() returns (b: bool)
      requires Valid()
      ensures b <==> pushed == []
    {
      match state
      case Vacant => b := true;
      case Repeated(_, _) => b := false;
      case Many(acc) =>
        CountOfPushes(ty, Empty(ty), pushed);
        b := acc.IsEmpty();
    }
  }

  lemma {:induction false} NotUniform(rows: seq<Val>, v: Val)
    requires !Uniform(rows)
    ensures !Uniform(rows + [v])
  {
    var i :| 0 <= i < |rows| && rows[i] != rows[0];
    assert (rows + [v])[i] != (rows + [v])[0];
  }

  lemma {:induction false} CountOfPushes(ty: Type, acc: Acc, rows: seq<Val>)
    requires Shape(ty, acc) && AllAre(rows, ty)
    ensures PushAll(ty, acc, rows).Count() == acc.Count() + |rows|
    decreases |rows|
  {
    if rows != [] {
      assert rows[0].Is(ty);
      CountOfPushes(ty, Push(ty, acc, rows[0]), rows[1..]);
    }
  }

  /** Once materialised, a column stays materialised whatever is pushed. */
  lemma {:induction false} ManyIsFinal(ty: Type, rows: seq<Val>, more: seq<Val>)
    requires AllAre(rows, ty) && AllAre(more, ty) && StateOf(ty, rows).Many?
    ensures AllAre(rows + more, ty) && StateOf(ty, rows + more).Many?
  {
    var i :| 0 <= i < |rows| && rows[i] != rows[0];
    assert (rows + more)[i] != (rows + more)[0];
  }

  /* ---------------------------------------------------------------- Columns on disk */

  /** The accumulator whose bytes represent the column: a run is represented by its one item. */
  function Written(state: State, ty: Type): Result<Acc>
    requires state.Repeated? ==> state.item.Is(ty)
  {
    match state
    case Vacant => Err(Zero)
    case Repeated(item, _) => Ok(AccOf(ty, [item]))
    case Many(acc) => Ok(acc)
  }

  function ColumnSize(state: State, ty: Type): Result<nat>
    requires state.Repeated? ==> state.item.Is(ty)
  {
    var acc :- Written(state, ty);
    Size(acc)
  }

  function ColumnBytes(state: State, ty: Type): Result<seq<Byte>>
    requires state.Repeated? ==> state.item.Is(ty)
  {
    var acc :- Written(state, ty);
    Serialize(acc)
  }

  function ColumnBuffer(state: State, sector: Sector, count: nat): Result<Stats.Buffer> {
    match state
    case Vacant => Err(Zero)
    case Repeated(_, _) => Ok(Compact(sector, count))
    case Many(acc) => Describe(acc, sector, count)
  }

  /** A descriptor keeps the sector and the count it is made of. */
  lemma {:induction false} DescriptorKeeps(state: State, s: Sector, n: nat)
    requires ColumnBuffer(state, s, n).Ok?
    ensures ColumnBuffer(state, s, n).value.sector == s && ColumnBuffer(state, s, n).value.count == n
  {
  }

  /** The rows whose serialized form is on disk. */
  function Kept(rows: seq<Val>): seq<Val>
    requires rows != []
  {
    if Uniform(rows) then [rows[0]] else rows
  }

  /** Rows a column can represent: typed, countable, and small enough for the size check to pass. */
  predicate Storable(ty: Type, rows: seq<Val>) {
    rows != [] && AllAre(rows, ty) && Counted(ty, Kept(rows)) && Size(AccOf(ty, Kept(rows))).Ok?
  }

  lemma {:induction false} StorableColumn(ty: Type, rows: seq<Val>)
    requires Storable(ty, rows)
    ensures var s := StateOf(ty, rows);
            && Written(s, ty) == Ok(AccOf(ty, Kept(rows)))
            && ColumnSize(s, ty) == Ok(|Body(ty, Kept(rows))|)
            && ColumnBytes(s, ty) == Ok(Body(ty, Kept(rows)))
            && 0 < |Body(ty, Kept(rows))| <= U64_MAX
  {
    SizeIsExact(AccOf(ty, Kept(rows)));
    SizeRange(AccOf(ty, Kept(rows)));
  }

  /** Buffer `b` records `rows` and its sector locates their serialized form. */
  predicate Stored(ty: Type, b: Stats.Buffer, mmap: seq<Byte>, rows: seq<Val>) {
    && Storable(ty, rows)
    && b.sector.Slice(mmap) == Ok(Body(ty, Kept(rows)))
    && ColumnBuffer(StateOf(ty, rows), b.sector, |rows|) == Ok(b)
  }

  /** Items read from one buffer; a framing error is the only item of its buffer. */
  function ReadBuffer(ty: Type, b: Stats.Buffer, mmap: seq<Byte>): seq<Result<Val>> {
    match b.sector.Slice(mmap)
    case Err(e) => [Err(e)]
    case Ok(bytes) =>
      if b.Compact? then
        (match One(ty, bytes)
         case Err(e) => [Err(e)]
         case Ok(v) => seq(b.count, _ => Ok(v)))
      else ReadAll(ty, bytes, b.count)
  }

  lemma {:induction false} FlatMembers(rows: seq<Val>)
    ensures forall x :: x in Flat(rows) <==> exists r :: r in rows && x in Elements(r)
  {
    if rows != [] {
      FlatMembers(rows[1..]);
      assert rows == [rows[0]] + rows[1..];
    }
  }

  /** Whether rows can be read back depends only on which rows there are, not on how often. */
  lemma {:induction false} DecodableByMembers(ty: Type, xs: seq<Val>, ys: seq<Val>)
    requires forall x :: x in xs <==> x in ys
    ensures Decodable(ty, xs) <==> Decodable(ty, ys)
    decreases ty
  {
    if ty.Seq? || ty.OptSeq? {
      FlatMembers(xs);
      FlatMembers(ys);
      assert forall x :: x in Flat(xs) <==> x in Flat(ys);
      assert Flat(xs) == [] <==> Flat(ys) == [] by {
        if Flat(xs) != [] { assert Flat(xs)[0] in Flat(ys); }
        if Flat(ys) != [] { assert Flat(ys)[0] in Flat(xs); }
      }
      DecodableByMembers(ty.elem, Flat(xs), Flat(ys));
    }
  }

  lemma {:induction false} KeptMembers(rows: seq<Val>)
    requires rows != []
    ensures forall x :: x in Kept(rows) <==> x in rows
  {
  }

  lemma {:induction false} OksOfRepeat(v: Val, n: nat)
    ensures Oks(Repeat(v, n)) == seq(n, _ => Ok(v))
  {
    if n > 0 {
      OksOfRepeat(v, n - 1);
      assert Repeat(v, n)[1..] == Repeat(v, n - 1);
    }
  }

  /**
   A stored buffer, whether compact or materialised, reads back as the pushed rows exactly when the
   rows are decodable.
   */
  lemma {:induction false} StoredReadsBack(ty: Type, b: Stats.Buffer, mmap: seq<Byte>, rows: seq<Val>)
    requires Stored(ty, b, mmap, rows)
    ensures ReadBuffer(ty, b, mmap) == Oks(rows) <==> Decodable(ty, rows)
  {
    if Uniform(rows) {
      UniformReadsBack(ty, b, mmap, rows);
    } else {
      ManyIsRead(ty, b, mmap, rows);
      ColumnRoundTrip(ty, rows);
    }
  }

  lemma {:induction false} UniformReadsBack(ty: Type, b: Stats.Buffer, mmap: seq<Byte>, rows: seq<Val>)
    requires Stored(ty, b, mmap, rows) && Uniform(rows)
    ensures ReadBuffer(ty, b, mmap) == Oks(rows) <==> Decodable(ty, rows)
  {
    CompactIsUniform(ty, b, mmap, rows);
    KeptMembers(rows);
    DecodableByMembers(ty, [rows[0]], rows);
    OneRoundTrip(ty, rows[0]);
    assert rows == Repeat(rows[0], |rows|);
    OksOfRepeat(rows[0], |rows|);
    CompactIsRead(ty, b, mmap, Body(ty, [rows[0]]));
    assert Oks(rows)[0] == Ok(rows[0]);
  }

  lemma {:induction false} CompactIsUniform(ty: Type, b: Stats.Buffer, mmap: seq<Byte>, rows: seq<Val>)
    requires Stored(ty, b, mmap, rows) && (b.Compact? || Uniform(rows))
    ensures Uniform(rows) && b == Compact(b.sector, |rows|)
    ensures rows[0].Is(ty) && AllAre([rows[0]], ty) && Counted(ty, [rows[0]]) && Size(AccOf(ty, [rows[0]])).Ok?
    ensures b.sector.Slice(mmap) == Ok(Body(ty, [rows[0]])) && Kept(rows) == [rows[0]]
  {
    BufferOf(ty, rows, b.sector);
    assert rows[0].Is(ty);
  }

  /** The variant of a descriptor tells whether all rows are equal. */
  lemma {:induction false} BufferOf(ty: Type, rows: seq<Val>, sector: Sector)
    requires rows != [] && AllAre(rows, ty)
    ensures Uniform(rows) ==> ColumnBuffer(StateOf(ty, rows), sector, |rows|) == Ok(Compact(sector, |rows|))
    ensures !Uniform(rows) ==>
              var r := ColumnBuffer(StateOf(ty, rows), sector, |rows|);
              r == Describe(AccOf(ty, rows), sector, |rows|) && (r.Ok? ==> !r.value.Compact? && r.value.count == |rows|)
  {
  }

  lemma {:induction false} CompactIsRead(ty: Type, b: Stats.Buffer, mmap: seq<Byte>, bytes: seq<Byte>)
    requires b.Compact? && b.sector.Slice(mmap) == Ok(bytes)
    ensures One(ty, bytes).Ok? ==> ReadBuffer(ty, b, mmap) == seq(b.count, _ => One(ty, bytes))
    ensures One(ty, bytes).Err? ==> ReadBuffer(ty, b, mmap) == [One(ty, bytes)]
  {
  }

  lemma {:induction false} ManyIsRead(ty: Type, b: Stats.Buffer, mmap: seq<Byte>, rows: seq<Val>)
    requires Stored(ty, b, mmap, rows) && !Uniform(rows)
    ensures Counted(ty, rows) && Size(AccOf(ty, rows)).Ok? && b.count == |rows|
    ensures ReadBuffer(ty, b, mmap) == ReadAll(ty, Body(ty, rows), |rows|)
  {
    BufferOf(ty, rows, b.sector);
    assert Kept(rows) == rows;
  }
}
