/**
 The exact condition of two-phase reading, spelled out for the filters that may break it, and inputs for
 which they do.
 */
module Limits {
  import opened Prelude
  import opened Bytes
  import opened Types
  import opened Accumulate
  import opened RoundTrip
  import opened Stats
  import opened Column
  import opened Query
  import opened Narrowing
  import opened Pruning
  import opened Window
  import opened Meaning

  /* ---------------------------------------------------------------- One filter */

  /** A chain of one filter. */
  lemma {:induction false} SingleFilter(ty: Type, op: Op)
    requires Fitting(ty, op)
    ensures Applicable(ty, [op])
    ensures forall b, rows :: SparesAll(ty, [op], b, rows) <==> Spares(ty, ty, op, b, rows)
    ensures forall v :: Passes(KindOf(ty), [op], v) <==> Evaluate(KindOf(ty), op, v)
  {
    assert [op][..0] == [] && [op][0] == op && Narrowed(ty, []) == ty && Applicable(ty, []);
    forall v ensures Passes(KindOf(ty), [op], v) <==> Evaluate(KindOf(ty), op, v) {
      assert Image([op][..0], v) == v;
    }
  }

  /** The part holds one of the wanted numbers. */
  predicate Holding(part: seq<Val>, qs: seq<nat>) {
    exists k, v :: 0 <= k < |qs| && v in part && (v == Num(qs[k]) || v == Just(Num(qs[k])))
  }

  /** Which buffers of a window an equality or membership filter must find. */
  lemma {:induction false} HoldingIsPassing(ty: Type, op: Op, qs: seq<nat>, part: seq<Val>)
    requires ty.Numeric() && (op == OneOf(Operands(ty.kind, qs)) || (|qs| == 1 && op == Match(Num(qs[0]))))
    requires AllAre(part, ty)
    ensures (forall v :: v in part ==> !Evaluate(ty.kind, op, v)) <==> !Holding(part, qs)
  {
    forall v | v in part
      ensures Evaluate(ty.kind, op, v) <==> exists k :: 0 <= k < |qs| && (v == Num(qs[k]) || v == Just(Num(qs[k])))
    {
      assert v.Is(ty);
      var x := if v.Just? then v.item else v;
      if op.Match? {
        BitMatchIsEquality(op.item, x);
      } else {
        forall k | 0 <= k < |qs| ensures BitMatch(x, Operands(ty.kind, qs)[k]) <==> x == Num(qs[k]) {
          BitMatchIsEquality(x, Num(qs[k]));
        }
      }
    }
  }

  lemma {:induction false} PartIsTyped(src: Src, window: Chain, rows: seq<seq<Val>>, i: nat)
    requires Holds(src, rows) && OneWindow(window) && i < |rows|
    ensures AllAre(Windowed(window, rows)[i], src.ty)
    ensures src.buffers[i].Detailed? ==> src.ty.Numeric() && Scalars(src.ty, rows[i]) != []
  {
    var (lo, hi) := Extent(window, |Concat(rows)|);
    var part := Windowed(window, rows)[i];
    SharesHeld(rows, lo, hi, i);
    assert Stored(src.ty, src.buffers[i], src.mmap, rows[i]);
    forall k | 0 <= k < |part| ensures part[k].Is(src.ty) {
      assert part[k] in rows[i];
    }
    if src.buffers[i].Detailed? {
      var _, _ := StoredStatistics(src.ty, src.buffers[i], src.mmap, rows[i]);
    }
  }

  /** One filter above any window finds everything exactly when it spares every buffer it must. */
  lemma {:induction false} FilterExact(src: Src, window: Chain, op: Op, rows: seq<seq<Val>>)
    requires Holds(src, rows) && OneWindow(window) && |Concat(rows)| <= U64_MAX && Fitting(src.ty, op)
    ensures FindsAll(src, window, [op], rows) <==>
              forall i :: 0 <= i < |rows| ==> MissesNone(src.ty, op, src.buffers[i], rows[i], Windowed(window, rows)[i])
  {
    SingleFilter(src.ty, op);
    TwoPhaseExact(src, window, [op], rows);
    var parts := Windowed(window, rows);
    forall i | 0 <= i < |rows|
      ensures MissesNone(src.ty, op, src.buffers[i], rows[i], parts[i])
         <==> (!NonePass(KindOf(src.ty), [op], parts[i]) ==> SparesAll(src.ty, [op], src.buffers[i], rows[i]))
    {
    }
  }

  /** If the wanted part of a buffer holds an accepted row, the filter spares the buffer. */
  predicate MissesNone(ty: Type, op: Op, b: Stats.Buffer, rows: seq<Val>, part: seq<Val>) {
    (exists v :: v in part && Evaluate(KindOf(ty), op, v)) ==> Spares(ty, ty, op, b, rows)
  }

  /** The buffer is not judged by statistics, opens with an ordered item, or its wanted part lacks `q`. */
  predicate MatchSafe(ty: Type, q: nat, b: Stats.Buffer, rows: seq<Val>, part: seq<Val>) {
    b.Detailed? && Scalars(ty, rows) != [] && Holding(part, [q]) ==>
      Ordered(KindOf(ty), q) && Ordered(KindOf(ty), Scalars(ty, rows)[0])
  }

  lemma {:induction false} MatchOneBuffer(ty: Type, q: nat, b: Stats.Buffer, rows: seq<Val>, part: seq<Val>)
    requires ty.Numeric() && AllAre(part, ty) && (b.Detailed? ==> Scalars(ty, rows) != [])
    ensures MissesNone(ty, Match(Num(q)), b, rows, part) <==> MatchSafe(ty, q, b, rows, part)
  {
    HoldingIsPassing(ty, Match(Num(q)), [q], part);
  }

  /**
   An equality filter on numbers, above any window, finds every match exactly when, in each buffer that is
   judged by its statistics and of which the window holds the wanted item, both the wanted item and the
   first item of the buffer are ordered.
   */
  lemma {:induction false} MatchExact(src: Src, window: Chain, q: nat, rows: seq<seq<Val>>)
    requires Holds(src, rows) && OneWindow(window) && |Concat(rows)| <= U64_MAX
    requires src.ty.Numeric() && src.ty.kind.Valid(q)
    ensures FindsAll(src, window, [Match(Num(q))], rows) <==>
              forall i :: 0 <= i < |rows| ==> MatchSafe(src.ty, q, src.buffers[i], rows[i], Windowed(window, rows)[i])
  {
    var op := Match(Num(q));
    FilterExact(src, window, op, rows);
    forall i | 0 <= i < |rows|
      ensures MissesNone(src.ty, op, src.buffers[i], rows[i], Windowed(window, rows)[i])
         <==> MatchSafe(src.ty, q, src.buffers[i], rows[i], Windowed(window, rows)[i])
    {
      PartIsTyped(src, window, rows, i);
      MatchOneBuffer(src.ty, q, src.buffers[i], rows[i], Windowed(window, rows)[i]);
    }
  }

  /** The buffer is not judged by statistics, encloses some candidate, or its wanted part holds none. */
  predicate MembershipSafe(ty: Type, qs: seq<nat>, b: Stats.Buffer, rows: seq<Val>, part: seq<Val>) {
    b.Detailed? && Scalars(ty, rows) != [] && Holding(part, qs) ==> exists q :: q in qs && Bracketed(KindOf(ty), Scalars(ty, rows), q)
  }

  lemma {:induction false} MembersOneBuffer(ty: Type, qs: seq<nat>, b: Stats.Buffer, rows: seq<Val>, part: seq<Val>)
    requires ty.Numeric() && AllAre(part, ty) && (b.Detailed? ==> Scalars(ty, rows) != [])
    ensures MissesNone(ty, OneOf(Operands(ty.kind, qs)), b, rows, part) <==> MembershipSafe(ty, qs, b, rows, part)
  {
    HoldingIsPassing(ty, OneOf(Operands(ty.kind, qs)), qs, part);
    OperandsDiscerned(ty.kind, qs, Scalars(ty, rows));
  }

  /**
   A membership filter on numbers, above any window, finds every match exactly when each buffer that is
   judged by its statistics and of which the window holds a candidate opens with an ordered item and has
   two items around some candidate.
   */
  lemma {:induction false} MembershipExact(src: Src, window: Chain, qs: seq<nat>, rows: seq<seq<Val>>)
    requires Holds(src, rows) && OneWindow(window) && |Concat(rows)| <= U64_MAX
    requires src.ty.Numeric() && forall q :: q in qs ==> src.ty.kind.Valid(q)
    ensures FindsAll(src, window, [OneOf(Operands(src.ty.kind, qs))], rows) <==>
              forall i :: 0 <= i < |rows| ==> MembershipSafe(src.ty, qs, src.buffers[i], rows[i], Windowed(window, rows)[i])
  {
    var op := OneOf(Operands(src.ty.kind, qs));
    FilterExact(src, window, op, rows);
    forall i | 0 <= i < |rows|
      ensures MissesNone(src.ty, op, src.buffers[i], rows[i], Windowed(window, rows)[i])
         <==> MembershipSafe(src.ty, qs, src.buffers[i], rows[i], Windowed(window, rows)[i])
    {
      PartIsTyped(src, window, rows, i);
      MembersOneBuffer(src.ty, qs, src.buffers[i], rows[i], Windowed(window, rows)[i]);
    }
  }

  lemma {:induction false} OperandsDiscerned(kind: Kind, qs: seq<nat>, items: seq<nat>)
    ensures (exists k :: 0 <= k < |qs| && Enclosed(kind, items, Operands(kind, qs)[k])) <==> exists q :: q in qs && Bracketed(kind, items, q)
  {
    if q :| q in qs && Bracketed(kind, items, q) {
      var k :| 0 <= k < |qs| && qs[k] == q;
      assert Enclosed(kind, items, Operands(kind, qs)[k]);
    }
    if k :| 0 <= k < |qs| && Enclosed(kind, items, Operands(kind, qs)[k]) {
      assert qs[k] in qs;
    }
  }

  /* ---------------------------------------------------------------- Behind IsSome */

  lemma {:induction false} PassesNarrowed(ty: Type, op: Op)
    requires ty.Optional() && Fitting(ty.Inner(), op)
    ensures forall v :: Passes(KindOf(ty), [IsSome, op], v) <==> v.Just? && Evaluate(KindOf(ty), op, v.item)
    ensures forall v :: Image([IsSome, op], v) == if v.Just? then v.item else v
  {
    assert [IsSome, op][..1] == [IsSome];
    IsSomeAlone(ty);
    forall v
      ensures Passes(KindOf(ty), [IsSome, op], v) <==> v.Just? && Evaluate(KindOf(ty), op, v.item)
      ensures Image([IsSome, op], v) == if v.Just? then v.item else v
    {
      assert Image([IsSome, op][..1], v) == if v.Just? then v.item else v;
    }
  }

  lemma {:induction false} IsSomeAlone(ty: Type)
    requires ty.Optional()
    ensures Applicable(ty, [IsSome]) && Narrowed(ty, [IsSome]) == ty.Inner()
    ensures forall b, rows :: SparesAll(ty, [IsSome], b, rows)
    ensures forall v :: (Passes(KindOf(ty), [IsSome], v) <==> v.Just?) && Image([IsSome], v) == if v.Just? then v.item else v
  {
    SingleFilter(ty, IsSome);
    assert [IsSome][..0] == [];
    forall v ensures Image([IsSome], v) == if v.Just? then v.item else v {
      assert Image([IsSome][..0], v) == v;
    }
  }

  lemma {:induction false} SparesNarrowed(ty: Type, op: Op)
    requires ty.Optional() && Fitting(ty.Inner(), op)
    ensures Applicable(ty, [IsSome, op])
    ensures forall b, rows :: SparesAll(ty, [IsSome, op], b, rows) <==> Spares(ty, ty.Inner(), op, b, rows)
  {
    assert [IsSome, op][..1] == [IsSome];
    IsSomeAlone(ty);
    forall b, rows ensures SparesAll(ty, [IsSome, op], b, rows) <==> Spares(ty, ty.Inner(), op, b, rows) {
      assert SparesAll(ty, [IsSome, op][..1], b, rows);
    }
  }

  /**
   A filter behind `IsSome` on an option next to a mask, above any window, finds every match exactly when it
   accepts the misread item wherever it accepts the item of a compact buffer, and the statistics discern
   every match.
   */
  lemma {:induction false} NarrowedExact(src: Src, window: Chain, op: Op, rows: seq<seq<Val>>)
    requires Holds(src, rows) && OneWindow(window) && |Concat(rows)| <= U64_MAX
    requires src.ty.Masked() && Fitting(src.ty.Inner(), op)
    ensures FindsAll(src, window, [IsSome, op], rows) <==>
              forall i :: 0 <= i < |rows| ==> NarrowedMissesNone(src.ty, op, src.buffers[i], rows[i], Windowed(window, rows)[i])
  {
    SparesNarrowed(src.ty, op);
    TwoPhaseExact(src, window, [IsSome, op], rows);
    forall i | 0 <= i < |rows|
      ensures NarrowedMissesNone(src.ty, op, src.buffers[i], rows[i], Windowed(window, rows)[i])
         <==> (!NonePass(KindOf(src.ty), [IsSome, op], Windowed(window, rows)[i]) ==> SparesAll(src.ty, [IsSome, op], src.buffers[i], rows[i]))
    {
      NarrowedOneBuffer(src.ty, op, src.buffers[i], rows[i], Windowed(window, rows)[i]);
    }
  }

  lemma {:induction false} NarrowedOneBuffer(ty: Type, op: Op, b: Stats.Buffer, rows: seq<Val>, part: seq<Val>)
    requires ty.Masked() && Fitting(ty.Inner(), op)
    ensures NarrowedMissesNone(ty, op, b, rows, part)
       <==> (!NonePass(KindOf(ty), [IsSome, op], part) ==> SparesAll(ty, [IsSome, op], b, rows))
  {
    PassesNarrowed(ty, op);
    SparesNarrowed(ty, op);
  }

  /** If the wanted part of a buffer holds an accepted item, the buffer is safe. */
  predicate NarrowedMissesNone(ty: Type, op: Op, b: Stats.Buffer, rows: seq<Val>, part: seq<Val>)
    requires ty.Masked()
  {
    (exists v: Val :: v in part && v.Just? && Evaluate(KindOf(ty), op, v.item)) ==> NarrowedSafe(ty, op, b, rows)
  }

  /** The misread item of a compact buffer is accepted, and statistics discern matches. */
  predicate NarrowedSafe(ty: Type, op: Op, b: Stats.Buffer, rows: seq<Val>)
    requires ty.Masked()
  {
    && (b.Compact? ==> Evaluate(KindOf(ty), op, Misread(ty)))
    && (b.Detailed? && Scalars(ty, rows) != [] ==> Discerns(KindOf(ty), op, Scalars(ty, rows)))
  }

  /* ---------------------------------------------------------------- Whole options */

  /** If the wanted part of a buffer with statistics holds an accepted row, present or absent, there is room for it. */
  predicate WholeSafe(ty: Type, test: Op, b: Stats.Buffer, rows: seq<Val>, part: seq<Val>) {
    b.Detailed? && Scalars(ty, rows) != [] && (exists v :: v in part && Accepts(Lifted(KindOf(ty)), test, v)) ==>
      Leaves(Lifted(KindOf(ty)), test, Scalars(ty, rows))
  }

  /**
   A filter that takes whole options, above any window, finds everything exactly when each buffer that is
   judged by its statistics and of which the window holds an accepted row, the absent one included, has room
   for the filter among its present items.
   */
  lemma {:induction false} WholeExact(src: Src, window: Chain, test: Op, rows: seq<seq<Val>>)
    requires Holds(src, rows) && OneWindow(window) && |Concat(rows)| <= U64_MAX
    requires src.ty.Optional() && FittingWhole(src.ty, test)
    ensures FindsAll(src, window, [Entire(test)], rows) <==>
              forall i :: 0 <= i < |rows| ==> WholeSafe(src.ty, test, src.buffers[i], rows[i], Windowed(window, rows)[i])
  {
    var op := Entire(test);
    FilterExact(src, window, op, rows);
    forall i | 0 <= i < |rows|
      ensures MissesNone(src.ty, op, src.buffers[i], rows[i], Windowed(window, rows)[i])
         <==> WholeSafe(src.ty, test, src.buffers[i], rows[i], Windowed(window, rows)[i])
    {
      WholeOneBuffer(src.ty, test, src.buffers[i], rows[i], Windowed(window, rows)[i]);
    }
  }

  lemma {:induction false} WholeOneBuffer(ty: Type, test: Op, b: Stats.Buffer, rows: seq<Val>, part: seq<Val>)
    ensures MissesNone(ty, Entire(test), b, rows, part) <==> WholeSafe(ty, test, b, rows, part)
  {
    forall v ensures Evaluate(KindOf(ty), Entire(test), v) <==> Accepts(Lifted(KindOf(ty)), test, v) {
    }
  }

  /** The buffer is not judged by statistics, or its wanted part holds no absent row. */
  predicate NoneAbsent(b: Stats.Buffer, part: seq<Val>) {
    b.Detailed? ==> Nil !in part
  }

  /**
   Looking for a whole option above any window finds every match exactly when the option is present, or no
   buffer judged by its statistics has an absent row in the window.
   */
  lemma {:induction false} WholeMatchExact(src: Src, window: Chain, v: Val, rows: seq<seq<Val>>)
    requires Holds(src, rows) && OneWindow(window) && |Concat(rows)| <= U64_MAX && Niched(src.ty) && v.Is(src.ty)
    ensures FindsAll(src, window, [Entire(Match(v))], rows) <==>
              v.Just? || forall i :: 0 <= i < |rows| ==> NoneAbsent(src.buffers[i], Windowed(window, rows)[i])
  {
    WholeExact(src, window, Match(v), rows);
    forall i | 0 <= i < |rows|
      ensures WholeSafe(src.ty, Match(v), src.buffers[i], rows[i], Windowed(window, rows)[i])
         <==> v.Just? || NoneAbsent(src.buffers[i], Windowed(window, rows)[i])
    {
      PartIsHeld(src, window, rows, i);
      WholeMatchOneBuffer(src.ty, v, src.buffers[i], rows[i], Windowed(window, rows)[i]);
    }
  }

  lemma {:induction false} PartIsHeld(src: Src, window: Chain, rows: seq<seq<Val>>, i: nat)
    requires Holds(src, rows) && OneWindow(window) && i < |rows|
    ensures AllAre(rows[i], src.ty) && forall v :: v in Windowed(window, rows)[i] ==> v in rows[i]
    ensures src.buffers[i].Detailed? ==> Scalars(src.ty, rows[i]) != []
  {
    var (lo, hi) := Extent(window, |Concat(rows)|);
    SharesHeld(rows, lo, hi, i);
    assert Stored(src.ty, src.buffers[i], src.mmap, rows[i]);
    PartIsTyped(src, window, rows, i);
  }

  lemma {:induction false} WholeMatchOneBuffer(ty: Type, v: Val, b: Stats.Buffer, rows: seq<Val>, part: seq<Val>)
    requires Niched(ty) && v.Is(ty) && AllAre(rows, ty) && (b.Detailed? ==> Scalars(ty, rows) != [])
    requires forall w :: w in part ==> w in rows
    ensures WholeSafe(ty, Match(v), b, rows, part) <==> v.Just? || NoneAbsent(b, part)
  {
    forall w ensures Accepts(Lifted(ty.kind), Match(v), w) <==> w == v {
      BitMatchIsEquality(v, w);
    }
    if v in part && Scalars(ty, rows) != [] { WholeMatchAdmitted(ty, rows, v); }
  }

  /** A present key between two stored items. */
  predicate KeyEnclosed(kind: Kind, items: seq<nat>, keys: set<Val>) {
    exists v :: v in keys && v.Just? && v.item.Num? && Bracketed(kind, items, v.item.num)
  }

  predicate KeysSafe(ty: Type, keys: set<Val>, b: Stats.Buffer, rows: seq<Val>, part: seq<Val>) {
    b.Detailed? && Scalars(ty, rows) != [] && (exists v :: v in part && v in keys) ==> KeyEnclosed(KindOf(ty), Scalars(ty, rows), keys)
  }

  /**
   A semi join of whole options above any window finds every match exactly when each buffer that is judged by
   its statistics and of which the window holds a key has a present key between two of its items.
   */
  lemma {:induction false} WholeKeysExact(src: Src, window: Chain, keys: set<Val>, rows: seq<seq<Val>>)
    requires Holds(src, rows) && OneWindow(window) && |Concat(rows)| <= U64_MAX
    requires Niched(src.ty) && forall v :: v in keys ==> v.Is(src.ty)
    ensures FindsAll(src, window, [Entire(SemiJoin(keys))], rows) <==>
              forall i :: 0 <= i < |rows| ==> KeysSafe(src.ty, keys, src.buffers[i], rows[i], Windowed(window, rows)[i])
  {
    WholeExact(src, window, SemiJoin(keys), rows);
    forall i | 0 <= i < |rows|
      ensures WholeSafe(src.ty, SemiJoin(keys), src.buffers[i], rows[i], Windowed(window, rows)[i])
         <==> KeysSafe(src.ty, keys, src.buffers[i], rows[i], Windowed(window, rows)[i])
    {
      PartIsHeld(src, window, rows, i);
      ScalarsAreValid(src.ty, rows[i]);
      KeysLeave(src.ty.kind, Scalars(src.ty, rows[i]), keys);
    }
  }

  /** Only present keys leave room, and they do as among the items themselves. */
  lemma {:induction false} KeysLeave(kind: Kind, items: seq<nat>, keys: set<Val>)
    requires kind.Niche() && (forall x :: x in items ==> kind.Valid(x)) && forall v :: v in keys ==> v.Is(OptFixed(kind))
    ensures items != [] ==> (Leaves(Lifted(kind), SemiJoin(keys), items) <==> KeyEnclosed(kind, items, keys))
  {
    forall v | v in keys && items != []
      ensures Enclosed(Lifted(kind), items, v) <==> v.Just? && Bracketed(kind, items, v.item.num)
    {
      if v.Nil? { AbsentIsOutside(kind, items); } else { LiftedBrackets(kind, items, v.item.num); }
    }
  }

  lemma {:induction false} LiftedBrackets(kind: Kind, items: seq<nat>, q: nat)
    requires kind.Niche() && kind.Valid(q) && items != [] && forall x :: x in items ==> kind.Valid(x)
    ensures Bracketed(Lifted(kind), items, q) <==> Bracketed(kind, items, q)
  {
    forall x | x in items
      ensures Le(Lifted(kind), x, q) <==> Le(kind, x, q)
      ensures Le(Lifted(kind), q, x) <==> Le(kind, q, x)
      ensures Ordered(Lifted(kind), x) && Ordered(kind, x)
    {
      LiftedCompares(kind, x, q);
      LiftedCompares(kind, q, x);
      LiftedCompares(kind, x, x);
    }
    assert items[0] in items;
  }

  /** Some item reaches up to the start, and some item down to the end. */
  predicate BothSides(order: Order, items: seq<nat>, start: Bound, end: Bound) {
    (exists x :: x in items && WithinStart(order, start, x)) && (exists x :: x in items && WithinEnd(order, end, x))
  }

  predicate RangeSafe(ty: Type, start: Bound, end: Bound, b: Stats.Buffer, rows: seq<Val>, part: seq<Val>) {
    b.Detailed? && Scalars(ty, rows) != [] && (exists v :: v in part && Accepts(Lifted(KindOf(ty)), Range(start, end), v)) ==>
      BothSides(Lifted(KindOf(ty)), Scalars(ty, rows), start, end)
  }

  /**
   A range over whole options above any window finds everything exactly when each buffer that is judged by its
   statistics and of which the window holds a row in the range has present items on the inner side of both
   bounds; the absent row, which sorts below all others, lies in every range without a start.
   */
  lemma {:induction false} WholeRangeExact(src: Src, window: Chain, start: Bound, end: Bound, rows: seq<seq<Val>>)
    requires Holds(src, rows) && OneWindow(window) && |Concat(rows)| <= U64_MAX && Niched(src.ty)
    ensures FindsAll(src, window, [Entire(Range(start, end))], rows) <==>
              forall i :: 0 <= i < |rows| ==> RangeSafe(src.ty, start, end, src.buffers[i], rows[i], Windowed(window, rows)[i])
  {
    WholeExact(src, window, Range(start, end), rows);
    forall i | 0 <= i < |rows|
      ensures WholeSafe(src.ty, Range(start, end), src.buffers[i], rows[i], Windowed(window, rows)[i])
         <==> RangeSafe(src.ty, start, end, src.buffers[i], rows[i], Windowed(window, rows)[i])
    {
      RangeReaches(Lifted(src.ty.kind), Scalars(src.ty, rows[i]), start, end);
    }
  }

  lemma {:induction false} RangeReaches(order: Order, items: seq<nat>, start: Bound, end: Bound)
    requires order.Total()
    ensures items != [] ==> (Leaves(order, Range(start, end), items) <==> BothSides(order, items, start, end))
  {
    forall x ensures Ordered(order, x) {
      TotalOrders(order, x);
    }
  }

  /* ---------------------------------------------------------------- Concrete departures */

  /** A source of one buffer holding `rows` at the start of the segment region. */
  function Alone(ty: Type, rows: seq<Val>): Src
    requires Storable(ty, rows)
  {
    var body := Body(ty, Kept(rows));
    match ColumnBuffer(StateOf(ty, rows), Sector(0, |body|), |rows|)
    case Ok(b) => Src(ty, [b], body)
    case Err(_) => Src(ty, [], [])
  }

  lemma {:induction false} AloneHolds(ty: Type, rows: seq<Val>)
    requires Storable(ty, rows) && Decodable(ty, rows)
    requires ColumnBuffer(StateOf(ty, rows), Sector(0, |Body(ty, Kept(rows))|), |rows|).Ok?
    ensures Holds(Alone(ty, rows), [rows])
  {
    StorableColumn(ty, rows);
    var body := Body(ty, Kept(rows));
    var b := ColumnBuffer(StateOf(ty, rows), Sector(0, |body|), |rows|).value;
    assert b.sector == Sector(0, |body|);
    assert body[0..|body|] == body;
  }

  const NAN: nat := 0x7FF8_0000_0000_0000
  const ONE: nat := 0x3FF0_0000_0000_0000

  /** The 64-bit floats NaN and one, in this order: looking for one finds nothing. */
  lemma {:induction false} OpeningNaNHidesMatch()
    ensures var ty, rows, ops := Fixed(Float(true)), [Num(NAN), Num(ONE)], [Match(Num(ONE))];
            && Storable(ty, rows)
            && var src := Alone(ty, rows); var r := Run(src, Filters(Whole, ops));
               && Holds(src, [rows]) && Num(ONE) in Concat([rows])
               && r.Ok? && IncludedItems(r.value) != Select(ty.kind, ops, Concat([rows]))
  {
    var ty, rows := Fixed(Float(true)), [Num(NAN), Num(ONE)];
    var kind := ty.kind;
    assert kind.Valid(NAN) && kind.Valid(ONE) by { U64Range(); }
    assert AllAre(rows, ty) && rows[1] != rows[0];
    assert rows[1..] == [Num(ONE)] && rows[1..][1..] == [];
    assert Nums(rows[1..]) == [ONE] + Nums(rows[1..][1..]) == [ONE];
    assert Scalars(ty, rows) == [NAN, ONE];
    AccIsColumnar(ty, rows);
    assert AccOf(ty, rows) == Vector(kind, [NAN, ONE]);
    assert StateOf(ty, rows) == Many(AccOf(ty, rows));
    AloneDetailed(ty, rows);
    AloneHolds(ty, rows);
    var src := Alone(ty, rows);
    NaNHides(src, rows);
  }

  lemma {:induction false} NaNHides(src: Src, rows: seq<Val>)
    requires Holds(src, [rows]) && src.ty == Fixed(Float(true)) && src.buffers[0].Detailed? && src.ty.kind.Valid(ONE)
    requires Scalars(src.ty, rows) == [NAN, ONE] && |rows| == 2 && rows[1] == Num(ONE)
    ensures var ops := [Match(Num(ONE))]; var r := Run(src, Filters(Whole, ops));
            && Num(ONE) in Concat([rows])
            && r.Ok? && IncludedItems(r.value) != Select(src.ty.kind, ops, Concat([rows]))
  {
    WholeWindow(rows);
    assert Concat([rows]) == rows + Concat([rows][1..]) == rows;
    MatchExact(src, Whole, ONE, [rows]);
    FilterRuns(src, Match(Num(ONE)), [rows]);
    HoldsOne(rows, ONE);
    assert !Ordered(src.ty.kind, NAN);
    assert !MatchSafe(src.ty, ONE, src.buffers[0], [rows][0], Windowed(Whole, [rows])[0]);
  }

  lemma {:induction false} HoldsOne(part: seq<Val>, q: nat)
    requires Num(q) in part
    ensures Holding(part, [q])
  {
    assert Num(q) == Num([q][0]);
  }

  lemma {:induction false} FilterRuns(src: Src, op: Op, rows: seq<seq<Val>>)
    requires Holds(src, rows) && |Concat(rows)| <= U64_MAX && Fitting(src.ty, op)
    ensures Run(src, Filters(Whole, [op])).Ok?
  {
    SingleFilter(src.ty, op);
    TwoPhaseExact(src, Whole, [op], rows);
  }

  lemma {:induction false} AloneDetailed(ty: Type, rows: seq<Val>)
    requires Storable(ty, rows) && !Uniform(rows) && ty.Numeric() && Scalars(ty, rows) != []
    ensures var sector := Sector(0, |Body(ty, Kept(rows))|);
            ColumnBuffer(StateOf(ty, rows), sector, |rows|).Ok? && ColumnBuffer(StateOf(ty, rows), sector, |rows|).value.Detailed?
  {
    StorableColumn(ty, rows);
    NumbersAreDetailed(ty, rows, Sector(0, |Body(ty, Kept(rows))|), |rows|);
  }

  lemma {:induction false} OneFalse()
    ensures Storable(OptBool, [Just(Bit(false))]) && Kept([Just(Bit(false))]) == [Just(Bit(false))]
  {
    var ty, rows := OptBool, [Just(Bit(false))];
    assert rows[0].Is(ty);
    AccIsColumnar(ty, rows);
    assert rows[1..] == [] && Somes(rows) == [Bit(false)] && Presence(rows) == [true];
    assert AccOf(ty, rows) == MaskData([true], Bits([false]));
  }

  /** A single buffer, all of it wanted. */
  lemma {:induction false} WholeWindow(rows: seq<Val>)
    ensures Windowed(Whole, [rows]) == [rows]
  {
    assert [rows][1..] == [] && Concat([rows]) == rows + Concat([rows][1..]) == rows;
    assert Slice(rows, 0, |rows|) == rows;
  }

  /** One present `false` in an optional boolean column: looking for `false` behind `IsSome` finds nothing. */
  lemma {:induction false} NarrowingHidesMatch()
    ensures var ty, rows, ops := OptBool, [Just(Bit(false))], [IsSome, Match(Bit(false))];
            && Storable(ty, rows)
            && var src := Alone(ty, rows); var r := Run(src, Filters(Whole, ops));
               && Holds(src, [rows]) && Select(KindOf(ty), ops, Concat([rows])) == [Bit(false)]
               && r.Ok? && IncludedItems(r.value) != [Bit(false)]
  {
    var ty, rows, op := OptBool, [Just(Bit(false))], Match(Bit(false));
    OneFalse();
    AloneHolds(ty, rows);
    var src := Alone(ty, rows);
    assert src.buffers == [Compact(src.buffers[0].sector, 1)];
    OneFalseMissed(src, rows, op);
  }

  lemma {:induction false} OneFalseMissed(src: Src, rows: seq<Val>, op: Op)
    requires rows == [Just(Bit(false))] && op == Match(Bit(false)) && src.ty == OptBool
    requires Holds(src, [rows]) && src.buffers[0].Compact?
    ensures var ops := [IsSome, op]; var r := Run(src, Filters(Whole, ops));
            && Select(KindOf(OptBool), ops, Concat([rows])) == [Bit(false)]
            && r.Ok? && IncludedItems(r.value) != [Bit(false)]
  {
    WholeWindow(rows);
    assert Concat([rows]) == rows + Concat([rows][1..]) == rows;
    NarrowedExact(src, Whole, op, [rows]);
    NarrowedRuns(src, op, [rows]);
    FalseIsMisread(src.buffers[0], rows);
    assert !NarrowedMissesNone(OptBool, op, src.buffers[0], [rows][0], Windowed(Whole, [rows])[0]);
    FalseIsSelected(rows);
  }

  lemma {:induction false} NarrowedRuns(src: Src, op: Op, rows: seq<seq<Val>>)
    requires Holds(src, rows) && |Concat(rows)| <= U64_MAX && src.ty.Optional() && Fitting(src.ty.Inner(), op)
    ensures Run(src, Filters(Whole, [IsSome, op])).Ok?
  {
    SparesNarrowed(src.ty, op);
    TwoPhaseExact(src, Whole, [IsSome, op], rows);
  }

  lemma {:induction false} FalseIsMisread(b: Stats.Buffer, rows: seq<Val>)
    requires rows == [Just(Bit(false))] && b.Compact?
    ensures !NarrowedMissesNone(OptBool, Match(Bit(false)), b, rows, rows)
  {
    assert rows[0] in rows && rows[0].Just? && Evaluate(KindOf(OptBool), Match(Bit(false)), rows[0].item);
  }

  lemma {:induction false} FalseIsSelected(rows: seq<Val>)
    requires rows == [Just(Bit(false))]
    ensures Select(KindOf(OptBool), [IsSome, Match(Bit(false))], rows) == [Bit(false)]
  {
    var ops := [IsSome, Match(Bit(false))];
    PassesNarrowed(OptBool, Match(Bit(false)));
    assert Select(KindOf(OptBool), ops, rows) == [Bit(false)] + Select(KindOf(OptBool), ops, rows[1..]);
  }

  const COUNTS: Type := OptFixed(UInt(4, true))

  /**
   An absent row, five and seven in a column of optional nonzero numbers: a semi join with a key set that
   holds only the absent option finds nothing.
   */
  lemma {:induction false} AbsentKeyMissed()
    ensures var rows, ops := [Nil, Just(Num(5)), Just(Num(7))], [Entire(SemiJoin({Nil}))];
            && Storable(COUNTS, rows)
            && var src := Alone(COUNTS, rows); var r := Run(src, Filters(Whole, ops));
               && Holds(src, [rows]) && Nil in Concat([rows]) && Passes(KindOf(COUNTS), ops, Nil)
               && r.Ok? && IncludedItems(r.value) != Select(KindOf(COUNTS), ops, Concat([rows]))
  {
    var rows := [Nil, Just(Num(5)), Just(Num(7))];
    AbsentRowStored(rows);
    AloneDetailed(COUNTS, rows);
    AloneHolds(COUNTS, rows);
    AbsentHides(Alone(COUNTS, rows), rows);
  }

  lemma {:induction false} AbsentRowStored(rows: seq<Val>)
    requires rows == [Nil, Just(Num(5)), Just(Num(7))]
    ensures Storable(COUNTS, rows) && Decodable(COUNTS, rows) && !Uniform(rows) && Scalars(COUNTS, rows) == [5, 7]
  {
    assert UInt(4, true).Valid(5) && UInt(4, true).Valid(7) by { assert Pow256(4) == 256 * Pow256(3) && Pow256(3) == 256 * Pow256(2); }
    assert AllAre(rows, COUNTS) && rows[1] != rows[0];
    var a, b := rows[1..], rows[1..][1..];
    assert a == [Just(Num(5)), Just(Num(7))] && b == [Just(Num(7))] && b[1..] == [];
    assert Somes(b) == [Num(7)] + Somes(b[1..]) == [Num(7)];
    assert Somes(a) == [Num(5)] + Somes(b) == [Num(5), Num(7)];
    assert Somes(rows) == [Num(5), Num(7)];
    assert [Num(5), Num(7)][1..] == [Num(7)] && [Num(7)][1..] == [];
    assert Nums([Num(7)]) == [7] + Nums([]);
    assert Nums([Num(5), Num(7)]) == [5] + Nums([Num(7)]);
    AccIsColumnar(COUNTS, rows);
    assert Slots(b) == [Some(7)] + Slots(b[1..]) == [Some(7)];
    assert Slots(a) == [Some(5)] + Slots(b) && Slots(rows) == [None] + Slots(a);
    assert |Slots(rows)| == 3;
    assert AccOf(COUNTS, rows) == InSitu(UInt(4, true), Slots(rows));
  }

  lemma {:induction false} AbsentHides(src: Src, rows: seq<Val>)
    requires src.ty == COUNTS && Holds(src, [rows]) && src.buffers[0].Detailed? && |rows| == 3 && rows[0] == Nil
    requires Scalars(COUNTS, rows) == [5, 7]
    ensures var ops := [Entire(SemiJoin({Nil}))]; var r := Run(src, Filters(Whole, ops));
            && Nil in Concat([rows]) && Passes(KindOf(COUNTS), ops, Nil)
            && r.Ok? && IncludedItems(r.value) != Select(KindOf(COUNTS), ops, Concat([rows]))
  {
    var keys: set<Val> := {Nil};
    WholeWindow(rows);
    assert Concat([rows]) == rows + Concat([rows][1..]) == rows && rows[0] in rows;
    WholeKeysExact(src, Whole, keys, [rows]);
    FilterRuns(src, Entire(SemiJoin(keys)), [rows]);
    SingleFilter(COUNTS, Entire(SemiJoin(keys)));
    AbsentIsUnsafe(src.buffers[0], rows);
    assert !KeysSafe(COUNTS, keys, src.buffers[0], [rows][0], Windowed(Whole, [rows])[0]);
  }

  lemma {:induction false} AbsentIsUnsafe(b: Stats.Buffer, rows: seq<Val>)
    requires b.Detailed? && Nil in rows && Scalars(COUNTS, rows) != []
    ensures !KeysSafe(COUNTS, {Nil}, b, rows, rows)
  {
  }
}
