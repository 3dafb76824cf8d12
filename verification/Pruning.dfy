/**
 Pruning preserves meaning: what a chain of filters reads from the buffers left in the mask is what it
 would read from every buffer.
 */
module Pruning {
  import opened Prelude
  import opened Bytes
  import opened Types
  import opened Accumulate
  import opened Read
  import opened RoundTrip
  import opened Stats
  import opened Column
  import opened Narrowing
  import opened Query

  /** The buffers of `src` hold `rows`, one row sequence per buffer, all of them readable. */
  ghost predicate Holds(src: Src, rows: seq<seq<Val>>) {
    && |rows| == |src.buffers|
    && forall i :: 0 <= i < |rows| ==> Stored(src.ty, src.buffers[i], src.mmap, rows[i]) && Decodable(src.ty, rows[i])
  }

  /** What the operand types of a filter guarantee, for items of type `ty`. */
  predicate Fitting(ty: Type, op: Op) {
    match op
    case Where(_) => true
    case Range(_, _) => ty.Numeric()
    case Match(item) => item.Is(ty.Inner())
    case OneOf(items) => AllAre(items, ty.Inner())
    case OneOfSorted(sorted) => ty.Numeric() && !ty.kind.Float? && Sorted(ty.kind, sorted)
    case OneOfSet(members) => !KindOf(ty).Float? && forall v :: v in members ==> v.Is(ty.Inner())
    case SemiJoin(keys) => !KindOf(ty).Float? && forall v :: v in keys ==> v.Is(ty.Inner())
    case AntiJoin(others) => !KindOf(ty).Float?
    case IsSome => ty.Optional()
    case IsNone => ty.Optional()
    case Entire(test) => ty.Optional() && FittingWhole(ty, test)
  }

  /** A whole option can be read from statistics only if it is held in a niche. */
  predicate FittingWhole(ty: Type, test: Op)
    requires ty.Optional()
  {
    match test
    case Where(_) => true
    case AntiJoin(others) => !KindOf(ty).Float?
    case Range(_, _) => Niched(ty)
    case Match(item) => Niched(ty) && item.Is(ty)
    case OneOf(items) => Niched(ty) && AllAre(items, ty)
    case OneOfSorted(sorted) => Niched(ty) && Sorted(Lifted(ty.kind), sorted)
    case OneOfSet(members) => Niched(ty) && forall v :: v in members ==> v.Is(ty)
    case SemiJoin(keys) => Niched(ty) && forall v :: v in keys ==> v.Is(ty)
    case _ => false
  }

  /** Options of numbers whose absence fits into an unused bit pattern. */
  predicate Niched(ty: Type) {
    ty.OptFixed? && ty.kind.Niche()
  }

  /* ---------------------------------------------------------------- Reading statistics */

  /** The item a filter sees of row `v` when the chain below has type `cur`. */
  function Seen(ty: Type, cur: Type, v: Val): Val {
    if cur != ty && v.Just? then v.item else v
  }

  lemma {:induction false} SubSlice(m: seq<Byte>, lo: nat, hi: nat, from: nat, to: nat)
    requires lo <= hi <= |m| && from <= to <= hi - lo
    ensures m[lo..hi][from..to] == m[lo + from..lo + to]
  {
    forall k | 0 <= k < to - from ensures m[lo..hi][from..to][k] == m[lo + from..lo + to][k] {
      assert m[lo..hi][from + k] == m[lo + from + k];
    }
  }

  lemma {:induction false} StatisticRead(kind: Kind, sector: Sector, s: Sector, mmap: seq<Byte>, body: seq<Byte>, n: nat)
    requires sector.Slice(mmap) == Ok(body) && sector.offset <= s.offset && s.size == kind.Width()
    requires HoldsAt(body, s.offset - sector.offset, kind.Width(), n) && kind.Valid(n)
    ensures Statistic(kind, s, mmap) == Ok(n)
  {
    var at := s.offset - sector.offset;
    assert body == mmap[sector.offset..sector.End()];
    SubSlice(mmap, sector.offset, sector.End(), at, at + s.size);
    assert s.Slice(mmap) == Ok(body[at..at + s.size]);
    assert body[at..at + s.size][..s.size] == body[at..at + s.size];
  }

  lemma {:induction false} DetailedIsMany(ty: Type, b: Stats.Buffer, mmap: seq<Byte>, rows: seq<Val>)
    requires Stored(ty, b, mmap, rows) && b.Detailed?
    ensures Size(AccOf(ty, rows)).Ok? && b.sector.Slice(mmap) == Ok(Body(ty, rows))
    ensures Describe(AccOf(ty, rows), b.sector, b.count) == Ok(b) && b.count == |rows|
  {
  }

  /** The statistics of a stored buffer decode to stored items that enclose the ordered ones. */
  lemma {:induction false} StoredStatistics(ty: Type, b: Stats.Buffer, mmap: seq<Byte>, rows: seq<Val>) returns (lo: nat, hi: nat)
    requires Stored(ty, b, mmap, rows) && b.Detailed?
    ensures ty.Numeric() && Scalars(ty, rows) != [] && Encloses(ty.kind, Scalars(ty, rows), lo, hi)
    ensures Statistic(ty.kind, b.min, mmap) == Ok(lo) && Statistic(ty.kind, b.max, mmap) == Ok(hi)
  {
    DetailedIsMany(ty, b, mmap, rows);
    lo, hi := StatisticsEnclose(ty, rows, b);
    ScalarsValid(ty, rows);
    assert lo in Scalars(ty, rows) && hi in Scalars(ty, rows);
    ReadStatistics(ty.kind, b, mmap, Body(ty, rows), lo, hi);
  }

  lemma {:induction false} ReadStatistics(kind: Kind, b: Stats.Buffer, mmap: seq<Byte>, body: seq<Byte>, lo: nat, hi: nat)
    requires b.Detailed? && b.sector.Slice(mmap) == Ok(body) && kind.Valid(lo) && kind.Valid(hi)
    requires b.min.size == kind.Width() == b.max.size && b.sector.offset <= b.min.offset && b.sector.offset <= b.max.offset
    requires HoldsAt(body, b.min.offset - b.sector.offset, kind.Width(), lo)
    requires HoldsAt(body, b.max.offset - b.sector.offset, kind.Width(), hi)
    ensures Statistic(kind, b.min, mmap) == Ok(lo) && Statistic(kind, b.max, mmap) == Ok(hi)
  {
    StatisticRead(kind, b.sector, b.min, mmap, body, lo);
    StatisticRead(kind, b.sector, b.max, mmap, body, hi);
  }

  lemma {:induction false} RowIsScalar(ty: Type, rows: seq<Val>, v: Val)
    requires ty.Numeric() && AllAre(rows, ty) && v in rows
    ensures v.Num? ==> v.num in Scalars(ty, rows)
    ensures v.Just? ==> v.item.Num? && v.item.num in Scalars(ty, rows)
  {
    assert rows[0].Is(ty);
    if ty.OptFixed? && rows[0].Just? {
      assert Somes(rows)[1..] == Somes(rows[1..]);
    }
    if v != rows[0] {
      RowIsScalar(ty, rows[1..], v);
    }
  }

  /* ---------------------------------------------------------------- Options compared as a whole */

  /** Among present items a lifted kind compares as the kind does. */
  lemma {:induction false} LiftedCompares(kind: Kind, a: nat, b: nat)
    requires kind.Valid(a) && kind.Valid(b) && kind.Niche()
    ensures Ordered(Lifted(kind), a) && Ordered(kind, a)
    ensures (Le(Lifted(kind), a, b) <==> Le(kind, a, b)) && (Lt(Lifted(kind), a, b) <==> Lt(kind, a, b))
  {
  }

  /** The absent item sorts below every present one. */
  lemma {:induction false} AbsentIsLeast(kind: Kind, x: nat)
    requires kind.Niche() && kind.Valid(x)
    ensures Lt(Lifted(kind), kind.Absent(), x) && !Le(Lifted(kind), x, kind.Absent())
  {
  }

  /** Statistics of present items are statistics of the options. */
  lemma {:induction false} LiftedEncloses(kind: Kind, items: seq<nat>, lo: nat, hi: nat)
    requires kind.Niche() && items != [] && Encloses(kind, items, lo, hi) && forall x :: x in items ==> kind.Valid(x)
    ensures Encloses(Lifted(kind), items, lo, hi)
  {
    assert items[0] in items;
    LiftedCompares(kind, items[0], items[0]);
    forall x | x in items ensures Le(Lifted(kind), lo, x) && Le(Lifted(kind), x, hi) && Ordered(Lifted(kind), x) {
      LiftedCompares(kind, lo, x);
      LiftedCompares(kind, x, hi);
      LiftedCompares(kind, x, x);
    }
  }

  /** What a statistic of a present item reads as, of the item or of the option. */
  lemma {:induction false} StatisticLifts(kind: Kind, s: Sector, mmap: seq<Byte>, n: nat)
    requires Statistic(kind, s, mmap) == Ok(n)
    ensures Statistic(Lifted(kind), s, mmap) == Ok(n)
  {
  }

  /* ---------------------------------------------------------------- What judging sees */

  /** `cur` is the item type of a column of type `ty`, narrowed by `IsSome` or not. */
  predicate Narrows(ty: Type, cur: Type) {
    cur == ty || (ty.Optional() && cur == ty.Inner())
  }

  /** The item phase one takes the row of a compact buffer for. */
  function Shown(ty: Type, cur: Type, row: Val): Val {
    if cur != ty && ty.Masked() then Misread(ty) else Seen(ty, cur, row)
  }

  /** A value that two stored items enclose, in a buffer that opens with an ordered item. */
  predicate Enclosed(order: Order, items: seq<nat>, v: Val) {
    Pattern(order, v).Some? && Bracketed(order, items, Pattern(order, v).value)
  }

  /** Whether the stored items `items` leave room for an item that `op` accepts. */
  predicate Leaves(kind: Order, op: Op, items: seq<nat>)
    requires items != []
  {
    match op
    case Range(start, end) => !(Ordered(kind, items[0]) && AllMiss(kind, items, start, end))
    case Match(item) => Enclosed(kind, items, item)
    case OneOf(vs) => exists i :: 0 <= i < |vs| && Enclosed(kind, items, vs[i])
    case OneOfSorted(sorted) => exists q :: q in sorted && Bracketed(kind, items, q)
    case OneOfSet(members) => exists v :: v in members && Enclosed(kind, items, v)
    case SemiJoin(keys) => exists v :: v in keys && Enclosed(kind, items, v)
    case _ => true
  }

  /** Whether `op` keeps a buffer holding `rows`, in terms of the rows alone. */
  predicate Room(ty: Type, cur: Type, op: Op, b: Stats.Buffer, rows: seq<Val>)
    requires rows != []
  {
    match b
    case Basic(_, _) => true
    case Compact(_, _) => Evaluate(KindOf(ty), op, Shown(ty, cur, rows[0]))
    case Detailed(_, _, _, _) => Scalars(ty, rows) != [] ==> Leaves(OrderOf(KindOf(ty), op), Core(op), Scalars(ty, rows))
  }

  lemma {:induction false} SpanLeaves(kind: Order, op: Op, items: seq<nat>, lo: nat, hi: nat)
    requires items != [] && Encloses(kind, items, lo, hi)
    requires op.OneOfSorted? ==> kind.Total() && Sorted(kind, op.sorted)
    ensures SpanAdmits(kind, op, lo, hi) <==> Leaves(kind, op, items)
  {
    forall q ensures Spans(kind, lo, hi, q) <==> Bracketed(kind, items, q) {
      SpannedIsBracketed(kind, items, lo, hi, q);
    }
    match op
    case Range(start, end) => DisjointExactly(kind, items, lo, hi, start, end);
    case OneOfSorted(sorted) =>
      TotalOrders(kind, lo);
      TotalOrders(kind, hi);
      BisectionAgreesWithScan(kind, sorted, lo, hi);
    case _ =>
  }

  /** The reader of a chain takes the row of a compact buffer for what is shown. */
  lemma {:induction false} CompactShown(ty: Type, cur: Type, b: Stats.Buffer, mmap: seq<Byte>, rows: seq<Val>)
    requires Stored(ty, b, mmap, rows) && Decodable(ty, rows) && b.Compact?
    requires Narrows(ty, cur) && (cur != ty ==> rows[0].Just?)
    ensures Uniform(rows) && b.sector.Slice(mmap) == Ok(Body(ty, [rows[0]]))
    ensures One(cur, Body(ty, [rows[0]])) == Ok(Shown(ty, cur, rows[0]))
  {
    CompactIsUniform(ty, b, mmap, rows);
    KeptMembers(rows);
    DecodableByMembers(ty, [rows[0]], rows);
    if cur == ty {
      OneRoundTrip(ty, rows[0]);
    } else {
      assert rows[0] == Just(rows[0].item);
      if ty.Masked() { PlainReadsPrefix(ty, rows[0].item); } else { NarrowedBody(ty, rows[0].item); }
    }
  }

  lemma {:induction false} JudgeCompact(ty: Type, op: Op, b: Stats.Buffer, mmap: seq<Byte>, body: seq<Byte>, item: Val)
    requires b.Compact? && b.sector.Slice(mmap) == Ok(body) && One(ty, body) == Ok(item)
    ensures Judge(ty, op, b, mmap) == Ok(Evaluate(KindOf(ty), op, item))
  {
  }

  lemma {:induction false} JudgeDetailed(ty: Type, op: Op, b: Stats.Buffer, mmap: seq<Byte>, lo: nat, hi: nat)
    requires b.Detailed? && UsesStatistics(op)
    requires var order := OrderOf(KindOf(ty), op); Statistic(order, b.min, mmap) == Ok(lo) && Statistic(order, b.max, mmap) == Ok(hi)
    ensures Judge(ty, op, b, mmap) == Ok(SpanAdmits(OrderOf(KindOf(ty), op), Core(op), lo, hi))
  {
  }

  lemma {:induction false} SameFit(ty: Type, cur: Type, op: Op)
    requires Narrows(ty, cur) && Fitting(cur, op)
    ensures KindOf(cur) == KindOf(ty)
    ensures Core(op).OneOfSorted? ==> OrderOf(KindOf(ty), op).Total() && Sorted(OrderOf(KindOf(ty), op), Core(op).sorted)
    ensures op.Entire? && UsesStatistics(op) ==> cur == ty && Niched(ty)
  {
  }

  /**
   Judging a stored buffer never fails, and keeps it exactly when its rows leave room for the filter. A
   compact buffer is judged behind `IsSome` only if its row is present.
   */
  lemma {:induction false} JudgeIsRoom(ty: Type, cur: Type, op: Op, b: Stats.Buffer, mmap: seq<Byte>, rows: seq<Val>)
    requires Stored(ty, b, mmap, rows) && Decodable(ty, rows) && Narrows(ty, cur) && Fitting(cur, op)
    requires cur != ty && b.Compact? ==> rows[0].Just?
    ensures Judge(cur, op, b, mmap) == Ok(Room(ty, cur, op, b, rows))
  {
    SameFit(ty, cur, op);
    if b.Compact? {
      CompactShown(ty, cur, b, mmap, rows);
      JudgeCompact(cur, op, b, mmap, Body(ty, [rows[0]]), Shown(ty, cur, rows[0]));
    } else if b.Detailed? {
      DetailedIsRoom(ty, cur, op, b, mmap, rows);
    }
  }

  lemma {:induction false} DetailedIsRoom(ty: Type, cur: Type, op: Op, b: Stats.Buffer, mmap: seq<Byte>, rows: seq<Val>)
    requires Stored(ty, b, mmap, rows) && b.Detailed? && Narrows(ty, cur) && Fitting(cur, op)
    ensures Judge(cur, op, b, mmap) == Ok(Room(ty, cur, op, b, rows))
  {
    var lo, hi := StoredStatistics(ty, b, mmap, rows);
    ScalarsAreValid(ty, rows);
    SpanIsRoom(ty, cur, op, b, mmap, rows, lo, hi);
  }

  lemma {:induction false} ScalarsAreValid(ty: Type, rows: seq<Val>)
    requires ty.Numeric() && AllAre(rows, ty)
    ensures forall x :: x in Scalars(ty, rows) ==> ty.kind.Valid(x)
  {
    ScalarsValid(ty, rows);
  }

  lemma {:induction false} SpanIsRoom(ty: Type, cur: Type, op: Op, b: Stats.Buffer, mmap: seq<Byte>, rows: seq<Val>, lo: nat, hi: nat)
    requires b.Detailed? && Narrows(ty, cur) && Fitting(cur, op) && rows != []
    requires ty.Numeric() && Scalars(ty, rows) != [] && Encloses(ty.kind, Scalars(ty, rows), lo, hi)
    requires Statistic(ty.kind, b.min, mmap) == Ok(lo) && Statistic(ty.kind, b.max, mmap) == Ok(hi)
    requires forall x :: x in Scalars(ty, rows) ==> ty.kind.Valid(x)
    ensures Judge(cur, op, b, mmap) == Ok(Room(ty, cur, op, b, rows))
  {
    SameFit(ty, cur, op);
    var order, items := OrderOf(ty.kind, op), Scalars(ty, rows);
    if UsesStatistics(op) {
      if op.Entire? {
        LiftedEncloses(ty.kind, items, lo, hi);
        StatisticLifts(ty.kind, b.min, mmap, lo);
        StatisticLifts(ty.kind, b.max, mmap, hi);
      }
      SpanLeaves(order, Core(op), items, lo, hi);
      JudgeDetailed(cur, op, b, mmap, lo, hi);
    }
  }

  /* ---------------------------------------------------------------- Buffers that must be kept */

  /**
   Whether the statistics of `items` can tell that the buffer holds an accepted item. Only equality and
   membership compare candidates with the statistics bit pattern by bit pattern yet in a partial order.
   */
  predicate Discerns(kind: Order, op: Op, items: seq<nat>)
    requires items != []
  {
    match op
    case Match(item) => item.Num? && Ordered(kind, item.num) && Ordered(kind, items[0])
    case OneOf(vs) => exists i :: 0 <= i < |vs| && Enclosed(kind, items, vs[i])
    case _ => true
  }

  /**
   Whether `op` spares a buffer that holds a row passing it: the misread item of a compact buffer must
   pass as well, and the statistics must discern the match. A filter that takes the whole option must find
   room among the present items, which alone have statistics.
   */
  predicate Spares(ty: Type, cur: Type, op: Op, b: Stats.Buffer, rows: seq<Val>) {
    match b
    case Basic(_, _) => true
    case Compact(_, _) => cur != ty && ty.Masked() ==> Evaluate(KindOf(ty), op, Misread(ty))
    case Detailed(_, _, _, _) =>
      Scalars(ty, rows) != [] ==>
        if op.Entire? then Leaves(Lifted(KindOf(ty)), op.op, Scalars(ty, rows)) else Discerns(KindOf(ty), op, Scalars(ty, rows))
  }

  /** A buffer holding an accepted item has room for the filter exactly when the statistics discern the item. */
  lemma {:induction false} AcceptedIsAdmitted(kind: Kind, op: Op, items: seq<nat>, x: nat)
    requires x in items && !op.Entire? && Accepts(kind, op, Num(x))
    requires op.OneOfSorted? || op.OneOfSet? || op.SemiJoin? ==> !kind.Float?
    ensures Leaves(kind, op, items) <==> Discerns(kind, op, items)
  {
    var first := items[0];
    assert first in items;
    match op
    case Match(item) => BitMatchIsEquality(item, Num(x));
    case OneOfSorted(sorted) => assert x in sorted && Bracketed(kind, items, x);
    case OneOfSet(members) => assert Num(x) in members && Enclosed(kind, items, Num(x));
    case SemiJoin(keys) => assert Num(x) in keys && Enclosed(kind, items, Num(x));
    case _ =>
  }

  /** A buffer holding a row that passes the filter has room for it exactly when the filter spares it. */
  lemma {:induction false} PassingIsSpared(ty: Type, cur: Type, op: Op, b: Stats.Buffer, rows: seq<Val>, v: Val)
    requires AllAre(rows, ty) && v in rows && (b.Compact? ==> Uniform(rows)) && Narrows(ty, cur) && Fitting(cur, op)
    requires (cur != ty ==> v.Just?) && Evaluate(KindOf(ty), op, Seen(ty, cur, v))
    ensures Room(ty, cur, op, b, rows) <==> Spares(ty, cur, op, b, rows)
  {
    if b.Detailed? && Scalars(ty, rows) != [] && UsesStatistics(op) && !op.Entire? {
      RowIsScalar(ty, rows, v);
      assert v.Is(ty);
      AcceptedIsAdmitted(ty.kind, op, Scalars(ty, rows), if v.Just? then v.item.num else v.num);
    }
  }

  /** The candidates of an equality filter are ordered. */
  predicate OrderedCandidates(kind: Kind, op: Op) {
    match op
    case Match(item) => item.Num? ==> Ordered(kind, item.num)
    case OneOf(items) => forall i :: 0 <= i < |items| && items[i].Num? ==> Ordered(kind, items[i].num)
    case _ => true
  }

  /**
   Equality over floats is safe with ordered candidates in a buffer that opens with an ordered item; a filter
   that takes whole options is safe where no row is absent.
   */
  predicate Unambiguous(ty: Type, op: Op, b: Stats.Buffer, rows: seq<Val>) {
    b.Detailed? && Scalars(ty, rows) != [] ==>
      && (op.Match? || op.OneOf? ==> OrderedCandidates(KindOf(ty), op) && Ordered(KindOf(ty), Scalars(ty, rows)[0]))
      && (op.Entire? && UsesStatistics(op) ==> Nil !in rows)
  }

  /** A sufficient condition on one filter: it is unambiguous and does not see a misread item. */
  lemma {:induction false} UnambiguousIsSpared(ty: Type, cur: Type, op: Op, b: Stats.Buffer, rows: seq<Val>, v: Val)
    requires AllAre(rows, ty) && v in rows && Narrows(ty, cur) && Fitting(cur, op)
    requires (cur != ty ==> v.Just? && !ty.Masked()) && Evaluate(KindOf(ty), op, Seen(ty, cur, v))
    requires Unambiguous(ty, op, b, rows)
    ensures Spares(ty, cur, op, b, rows)
  {
    if b.Detailed? && Scalars(ty, rows) != [] && (op.Match? || op.OneOf?) {
      RowIsScalar(ty, rows, v);
      assert v.Is(ty);
      DiscernsOrdered(ty.kind, op, Scalars(ty, rows), if v.Just? then v.item.num else v.num);
    } else if b.Detailed? && Scalars(ty, rows) != [] && op.Entire? && UsesStatistics(op) {
      SameFit(ty, cur, op);
      PresentIsAdmitted(ty, op.op, rows, v);
    }
  }

  /** A present row that passes a filter on whole options is admitted by the statistics. */
  lemma {:induction false} PresentIsAdmitted(ty: Type, test: Op, rows: seq<Val>, v: Val)
    requires Niched(ty) && AllAre(rows, ty) && v in rows && v.Just? && FittingWhole(ty, test)
    requires Accepts(Lifted(ty.kind), test, v)
    ensures Scalars(ty, rows) != [] && Leaves(Lifted(ty.kind), test, Scalars(ty, rows))
  {
    RowIsScalar(ty, rows, v);
    ScalarsAreValid(ty, rows);
    LiftedAdmits(ty.kind, test, Scalars(ty, rows), v);
  }

  lemma {:induction false} LiftedAdmits(kind: Kind, test: Op, items: seq<nat>, v: Val)
    requires kind.Niche() && (forall x :: x in items ==> kind.Valid(x))
    requires v.Just? && v.item.Num? && v.item.num in items && Accepts(Lifted(kind), test, v)
    ensures items != [] && Leaves(Lifted(kind), test, items)
  {
    var order, x := Lifted(kind), v.item.num;
    LiftedCompares(kind, x, x);
    LiftedCompares(kind, items[0], items[0]);
    assert Bracketed(order, items, x) && Enclosed(order, items, v);
    match test
    case Match(item) => BitMatchIsEquality(item, v);
    case OneOf(vs) =>
      var i :| 0 <= i < |vs| && BitMatch(v, vs[i]);
      BitMatchIsEquality(v, vs[i]);
    case OneOfSorted(sorted) => assert x in sorted;
    case _ =>
  }

  /**
   The statistics of a stored buffer of options admit a wanted row of the buffer exactly when that row is
   present.
   */
  lemma {:induction false} WholeMatchAdmitted(ty: Type, rows: seq<Val>, v: Val)
    requires Niched(ty) && AllAre(rows, ty) && v in rows && Scalars(ty, rows) != []
    ensures Leaves(Lifted(ty.kind), Match(v), Scalars(ty, rows)) <==> v.Just?
  {
    assert v.Is(ty);
    if v.Just? {
      BitMatchIsEquality(v, v);
      PresentIsAdmitted(ty, Match(v), rows, v);
    } else {
      ScalarsAreValid(ty, rows);
      AbsentIsOutside(ty.kind, Scalars(ty, rows));
    }
  }

  /** Present items never enclose the absent one. */
  lemma {:induction false} AbsentIsOutside(kind: Kind, items: seq<nat>)
    requires kind.Niche() && forall x :: x in items ==> kind.Valid(x)
    ensures !Bracketed(Lifted(kind), items, kind.Absent())
  {
    forall x | x in items ensures !Le(Lifted(kind), x, kind.Absent()) {
      AbsentIsLeast(kind, x);
    }
  }

  lemma {:induction false} DiscernsOrdered(kind: Kind, op: Op, items: seq<nat>, x: nat)
    requires x in items && (op.Match? || op.OneOf?) && Accepts(kind, op, Num(x))
    requires OrderedCandidates(kind, op) && Ordered(kind, items[0])
    ensures Discerns(kind, op, items)
  {
    match op
    case Match(item) => BitMatchIsEquality(item, Num(x));
    case OneOf(vs) =>
      var i :| 0 <= i < |vs| && BitMatch(Num(x), vs[i]);
      BitMatchIsEquality(Num(x), vs[i]);
      assert Enclosed(kind, items, vs[i]);
  }

  /** A range over the items, or over the options as a whole. */
  function RangeOver(whole: bool, start: Bound, end: Bound): Op {
    if whole then Entire(Range(start, end)) else Range(start, end)
  }

  /**
   A range clears a stored buffer judged by statistics exactly when its first item is ordered and every
   ordered item lies behind an ordered end, or every one before an ordered start.
   */
  lemma {:induction false} RangeClearsExactly(ty: Type, b: Stats.Buffer, mmap: seq<Byte>, rows: seq<Val>, whole: bool, start: Bound, end: Bound)
    requires Stored(ty, b, mmap, rows) && b.Detailed? && (whole ==> Niched(ty))
    ensures Judge(ty, RangeOver(whole, start, end), b, mmap).Ok? && Scalars(ty, rows) != []
    ensures var order, items := OrderOf(KindOf(ty), RangeOver(whole, start, end)), Scalars(ty, rows);
            !Judge(ty, RangeOver(whole, start, end), b, mmap).value
            <==> Ordered(order, items[0]) && AllMiss(order, items, start, end)
  {
    var lo, hi := StoredStatistics(ty, b, mmap, rows);
    DetailedIsRoom(ty, ty, RangeOver(whole, start, end), b, mmap, rows);
  }

  /**
   If statistics are disjoint from a range, no row lies in it, absent rows included. If they are disjoint
   from a range of whole options, at most the absent row does, which sorts below every statistic.
   */
  lemma {:induction false} DisjointRows(ty: Type, rows: seq<Val>, lo: nat, hi: nat, whole: bool, start: Bound, end: Bound)
    requires ty.Numeric() && AllAre(rows, ty) && (whole ==> Niched(ty))
    requires Scalars(ty, rows) != [] && Encloses(ty.kind, Scalars(ty, rows), lo, hi)
    requires Disjoint(OrderOf(ty.kind, RangeOver(whole, start, end)), lo, hi, start, end)
    ensures forall v :: v in rows && Evaluate(ty.kind, RangeOver(whole, start, end), v) ==>
              whole && v.Nil? && Contains(Lifted(ty.kind), start, end, ty.kind.Absent())
  {
    var order := OrderOf(ty.kind, RangeOver(whole, start, end));
    ScalarsAreValid(ty, rows);
    if whole { LiftedEncloses(ty.kind, Scalars(ty, rows), lo, hi); }
    forall v | v in rows && Evaluate(ty.kind, RangeOver(whole, start, end), v)
      ensures whole && v.Nil? && Contains(Lifted(ty.kind), start, end, ty.kind.Absent())
    {
      assert v.Is(ty);
      RowIsScalar(ty, rows, v);
      if !v.Nil? {
        DisjointIsSound(order, Scalars(ty, rows), lo, hi, start, end, if v.Just? then v.item.num else v.num);
      }
    }
  }

  /* ---------------------------------------------------------------- Sorted candidates */

  /** The operand that is compared by the bit pattern `n`. */
  function Operand(order: Order, n: nat): (v: Val)
    ensures Pattern(order, v) == Some(n)
  {
    match order
    case Lifted(item) => if n == item.Absent() then Nil else Just(Num(n))
    case _ => Num(n)
  }

  function Operands(order: Order, items: seq<nat>): (vs: seq<Val>)
    ensures |vs| == |items|
  {
    seq(|items|, i requires 0 <= i < |items| => Operand(order, items[i]))
  }

  /** Options do not nest. */
  predicate Single(order: Order) {
    order.Lifted? ==> !order.item.Lifted?
  }

  /** Among kinds without unordered items, equal rank means equal bits. */
  lemma {:induction false} RankIsExact(kind: Order, a: nat, b: nat)
    requires kind.Total() && Single(kind) && a < Pow256(kind.Width()) && b < Pow256(kind.Width())
    ensures Ordered(kind, a) && Ordered(kind, b) && (Rank(kind, a) == Rank(kind, b) <==> a == b)
  {
  }

  lemma {:induction false} FoundIsMember(kind: Order, items: seq<nat>, x: nat)
    requires kind.Total() && Single(kind) && Sorted(kind, items) && x < Pow256(kind.Width())
    requires forall i :: 0 <= i < |items| ==> items[i] < Pow256(kind.Width())
    ensures Found(kind, items, x) <==> x in items
  {
    var below := (i: nat) => Lt(kind, i, x);
    var k := Leading(items, below);
    if x in items {
      var j :| 0 <= j < |items| && items[j] == x;
      RankIsExact(kind, x, x);
      assert !below(items[j]);
      assert k <= j;
      assert !below(items[k]);
      RankIsExact(kind, items[k], x);
      assert Le(kind, items[k], items[j]) || k == j;
    }
  }

  /**
   A sorted candidate list prunes and filters exactly as the same list scanned in full, on every type
   whose items are all ordered.
   */
  lemma {:induction false} SortedAgreesWithScan(kind: Order, items: seq<nat>, lo: nat, hi: nat, x: nat)
    requires kind.Total() && Single(kind) && Sorted(kind, items) && x < Pow256(kind.Width())
    requires forall i :: 0 <= i < |items| ==> items[i] < Pow256(kind.Width())
    ensures SpanAdmits(kind, OneOfSorted(items), lo, hi) <==> SpanAdmits(kind, OneOf(Operands(kind, items)), lo, hi)
    ensures Accepts(kind, OneOfSorted(items), Operand(kind, x)) <==> Accepts(kind, OneOf(Operands(kind, items)), Operand(kind, x))
  {
    FoundIsMember(kind, items, x);
    MemberMatches(kind, items, x);
    BisectionAdmits(kind, items, lo, hi);
  }

  lemma {:induction false} BisectionAdmits(kind: Order, items: seq<nat>, lo: nat, hi: nat)
    requires kind.Total() && Sorted(kind, items)
    ensures SpanAdmits(kind, OneOfSorted(items), lo, hi) <==> SpanAdmits(kind, OneOf(Operands(kind, items)), lo, hi)
  {
    TotalOrders(kind, lo);
    TotalOrders(kind, hi);
    BisectionAgreesWithScan(kind, items, lo, hi);
    MemberAdmitted(kind, items, lo, hi);
  }

  lemma {:induction false} MemberMatches(order: Order, items: seq<nat>, x: nat)
    ensures x in items <==> exists i :: 0 <= i < |items| && BitMatch(Operand(order, x), Operands(order, items)[i])
  {
    var vs := Operands(order, items);
    forall i | 0 <= i < |items| ensures BitMatch(Operand(order, x), vs[i]) <==> x == items[i] {
      BitMatchIsEquality(Operand(order, x), vs[i]);
    }
    if x in items {
      var j :| 0 <= j < |items| && items[j] == x;
      assert BitMatch(Operand(order, x), vs[j]);
    }
  }

  lemma {:induction false} MemberAdmitted(kind: Order, items: seq<nat>, lo: nat, hi: nat)
    ensures (exists q :: q in items && Spans(kind, lo, hi, q))
       <==> exists i :: 0 <= i < |Operands(kind, items)| && Admits(kind, lo, hi, Operands(kind, items)[i])
  {
    var vs := Operands(kind, items);
    if q :| q in items && Spans(kind, lo, hi, q) {
      var i :| 0 <= i < |items| && items[i] == q;
      assert Admits(kind, lo, hi, vs[i]);
    }
    if i :| 0 <= i < |vs| && Admits(kind, lo, hi, vs[i]) {
      assert items[i] in items && Spans(kind, lo, hi, items[i]);
    }
  }
}
