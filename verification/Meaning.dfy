/**
 Two-phase reading preserves meaning: reading only the buffers left in the resolved mask and testing
 their items yields what decoding every row, applying the window and then filtering would yield.
 */
module Meaning {
  import opened Prelude
  import opened Bytes
  import opened Types
  import opened RoundTrip
  import opened Stats
  import opened Column
  import opened Query
  import opened Pruning
  import opened Window

  /* ---------------------------------------------------------------- The naive meaning */

  /** The item a row is yielded as: `IsSome` unwraps it. */
  function Image(ops: seq<Op>, v: Val): Val {
    if ops == [] then v
    else
      var n := |ops| - 1; var image := Image(ops[..n], v);
      if ops[n].IsSome? && image.Just? then image.item else image
  }

  /** Whether a row satisfies every filter. */
  predicate Passes(kind: Kind, ops: seq<Op>, v: Val) {
    ops == [] || (var n := |ops| - 1; Passes(kind, ops[..n], v) && Evaluate(kind, ops[n], Image(ops[..n], v)))
  }

  /** Decode everything, then filter. */
  function Select(kind: Kind, ops: seq<Op>, rows: seq<Val>): seq<Val> {
    if rows == [] then []
    else (if Passes(kind, ops, rows[0]) then [Image(ops, rows[0])] else []) + Select(kind, ops, rows[1..])
  }

  /** The rows a window selects from all rows. */
  function Naive<T>(window: Chain, rows: seq<T>): seq<T>
    requires OneWindow(window)
  {
    match window
    case Whole => rows
    case Skip(source, n) => Drop(n, Naive(source, rows))
    case Take(source, n) => First(n, Naive(source, rows))
  }

  /** At most one skip and one take, in either order. */
  predicate OneWindow(chain: Chain) {
    match chain
    case Whole => true
    case Skip(source, _) => source.Whole? || (source.Take? && source.source.Whole?)
    case Take(source, _) => source.Whole? || (source.Skip? && source.source.Whole?)
    case Filter(_, _) => false
  }

  /** `ops` applied in order above `base`. */
  function Filters(base: Chain, ops: seq<Op>): Chain {
    if ops == [] then base else Filter(Filters(base, ops[..|ops| - 1]), ops[|ops| - 1])
  }

  /* ---------------------------------------------------------------- Phase two is a map */

  function Includes(rows: seq<Val>): (os: seq<Outcome>)
    ensures |os| == |rows|
  {
    seq(|rows|, i requires 0 <= i < |rows| => Include(rows[i]))
  }

  function Through(kind: Kind, ops: seq<Op>, o: Outcome): Outcome {
    if ops == [] then o else Apply(kind, ops[|ops| - 1], Through(kind, ops[..|ops| - 1], o))
  }

  function ThroughAll(kind: Kind, ops: seq<Op>, os: seq<Outcome>): (r: seq<Outcome>)
    ensures |r| == |os|
  {
    seq(|os|, i requires 0 <= i < |os| => Through(kind, ops, os[i]))
  }

  function FilterItems(base: Items, ops: seq<Op>): Items {
    if ops == [] then base else Filtered(FilterItems(base, ops[..|ops| - 1]), ops[|ops| - 1])
  }

  lemma {:induction false} ApplyAllAt(kind: Kind, op: Op, os: seq<Outcome>)
    ensures forall i :: 0 <= i < |os| ==> ApplyAll(kind, op, os)[i] == Apply(kind, op, os[i])
  {
    if os != [] {
      ApplyAllAt(kind, op, os[1..]);
    }
  }

  lemma {:induction false} FilteredOutcomes(src: Src, base: Items, ops: seq<Op>, mask: seq<bool>)
    requires |mask| == |src.buffers|
    ensures Outcomes(src, FilterItems(base, ops), mask) == ThroughAll(KindOf(src.ty), ops, Outcomes(src, base, mask))
    ensures Query.Origin(FilterItems(base, ops), mask) == Query.Origin(base, mask)
  {
    if ops != [] {
      var init := ops[..|ops| - 1];
      FilteredOutcomes(src, base, init, mask);
      ApplyAllAt(KindOf(src.ty), ops[|ops| - 1], Outcomes(src, FilterItems(base, init), mask));
    }
  }

  /** Whether some `IsSome` finds no item in the row: the row is then neither included nor excluded. */
  predicate Lost(ops: seq<Op>, v: Val) {
    ops != [] && (var n := |ops| - 1; Lost(ops[..n], v) || (ops[n].IsSome? && !Image(ops[..n], v).Just?))
  }

  /**
   A row comes through the filters included, as its image, exactly when it passes them all; otherwise it is
   excluded as its image, unless an `IsSome` has lost it.
   */
  lemma {:induction false} ThroughMeans(kind: Kind, ops: seq<Op>, v: Val)
    ensures Through(kind, ops, Include(v))
         == if Lost(ops, v) then Absent else if Passes(kind, ops, v) then Include(Image(ops, v)) else Exclude(Image(ops, v))
    ensures Lost(ops, v) ==> !Passes(kind, ops, v)
  {
    if ops != [] {
      ThroughMeans(kind, ops[..|ops| - 1], v);
    }
  }

  /** Testing rows one by one in phase two is the naive filter. */
  lemma {:induction false} IncludedIsSelect(kind: Kind, ops: seq<Op>, rows: seq<Val>)
    ensures IncludedItems(ThroughAll(kind, ops, Includes(rows))) == Select(kind, ops, rows)
    ensures forall o :: o in ThroughAll(kind, ops, Includes(rows)) ==> !o.Failure?
  {
    if rows != [] {
      var os := ThroughAll(kind, ops, Includes(rows));
      IncludedIsSelect(kind, ops, rows[1..]);
      assert os[1..] == ThroughAll(kind, ops, Includes(rows[1..]));
      assert os[0] == Through(kind, ops, Include(rows[0]));
      ThroughMeans(kind, ops, rows[0]);
      assert os == [os[0]] + os[1..];
    }
  }

  /* ---------------------------------------------------------------- Phase one, buffer by buffer */

  /** The item type behind the filters. */
  function Narrowed(ty: Type, ops: seq<Op>): Type {
    if ops == [] then ty
    else if ops[|ops| - 1].IsSome? then Narrowed(ty, ops[..|ops| - 1]).Inner()
    else Narrowed(ty, ops[..|ops| - 1])
  }

  /**
   The filters fit the column, each for the item type the filters below it leave.
   */
  predicate Applicable(ty: Type, ops: seq<Op>) {
    ops == [] ||
    (var n := |ops| - 1; Applicable(ty, ops[..n]) && Fitting(Narrowed(ty, ops[..n]), ops[n]))
  }

  lemma {:induction false} NarrowedTypes(ty: Type, ops: seq<Op>)
    requires Applicable(ty, ops)
    ensures Narrows(ty, Narrowed(ty, ops)) && KindOf(Narrowed(ty, ops)) == KindOf(ty)
  {
    if ops != [] {
      NarrowedTypes(ty, ops[..|ops| - 1]);
    }
  }

  /** A row that passes is seen by the next filter as its image. */
  lemma {:induction false} ImageIsSeen(ty: Type, ops: seq<Op>, v: Val)
    requires Applicable(ty, ops) && v.Is(ty) && Passes(KindOf(ty), ops, v)
    ensures Narrowed(ty, ops) != ty ==> v.Just?
    ensures Image(ops, v) == Seen(ty, Narrowed(ty, ops), v)
  {
    if ops != [] {
      ImageIsSeen(ty, ops[..|ops| - 1], v);
      NarrowedTypes(ty, ops[..|ops| - 1]);
    }
  }

  /** Whether every filter has room for the rows of a buffer. */
  predicate RoomAll(ty: Type, ops: seq<Op>, b: Stats.Buffer, rows: seq<Val>)
    requires rows != []
  {
    ops == [] ||
    (var n := |ops| - 1; RoomAll(ty, ops[..n], b, rows) && Room(ty, Narrowed(ty, ops[..n]), ops[n], b, rows))
  }

  /** Whether every filter spares a buffer that holds a row passing all of them. */
  predicate SparesAll(ty: Type, ops: seq<Op>, b: Stats.Buffer, rows: seq<Val>) {
    ops == [] ||
    (var n := |ops| - 1; SparesAll(ty, ops[..n], b, rows) && Spares(ty, Narrowed(ty, ops[..n]), ops[n], b, rows))
  }

  /** A compact buffer that has passed `IsSome` holds a present row. */
  lemma {:induction false} KeptIsPresent(ty: Type, ops: seq<Op>, b: Stats.Buffer, rows: seq<Val>)
    requires rows != [] && Applicable(ty, ops) && RoomAll(ty, ops, b, rows) && b.Compact?
    ensures Narrowed(ty, ops) != ty ==> rows[0].Just?
  {
    if ops != [] {
      KeptIsPresent(ty, ops[..|ops| - 1], b, rows);
      NarrowedTypes(ty, ops[..|ops| - 1]);
    }
  }

  /** A buffer holding a row that passes all filters is kept exactly when each of them spares it. */
  lemma {:induction false} PassingSpares(ty: Type, ops: seq<Op>, b: Stats.Buffer, rows: seq<Val>, v: Val)
    requires rows != [] && AllAre(rows, ty) && (b.Compact? ==> Uniform(rows)) && Applicable(ty, ops)
    requires v in rows && Passes(KindOf(ty), ops, v)
    ensures RoomAll(ty, ops, b, rows) <==> SparesAll(ty, ops, b, rows)
  {
    if ops != [] {
      var n := |ops| - 1;
      assert v.Is(ty);
      PassingSpares(ty, ops[..n], b, rows, v);
      NarrowedTypes(ty, ops[..n]);
      ImageIsSeen(ty, ops[..n], v);
      PassingIsSpared(ty, Narrowed(ty, ops[..n]), ops[n], b, rows, v);
    }
  }

  lemma {:induction false} PrunedAt(ty: Type, op: Op, bufs: seq<Stats.Buffer>, mmap: seq<Byte>, mask: seq<bool>)
    requires |bufs| == |mask| && forall i :: 0 <= i < |mask| && mask[i] ==> Judge(ty, op, bufs[i], mmap).Ok?
    ensures Pruned(ty, op, bufs, mmap, mask).Ok?
    ensures forall i :: 0 <= i < |mask| ==>
              Pruned(ty, op, bufs, mmap, mask).value[i] == (mask[i] && Judge(ty, op, bufs[i], mmap).value)
  {
    if mask != [] {
      forall i | 0 <= i < |mask| - 1 && mask[1..][i] ensures Judge(ty, op, bufs[1..][i], mmap).Ok? {
        assert mask[i + 1];
      }
      PrunedAt(ty, op, bufs[1..], mmap, mask[1..]);
      PrunedHead(ty, op, bufs, mmap, mask);
    }
  }

  /** The buffers of `m0` whose rows leave room for every filter. */
  ghost function Roomy(src: Src, ops: seq<Op>, rows: seq<seq<Val>>, m0: seq<bool>): (m: seq<bool>)
    requires Holds(src, rows) && |m0| == |rows|
    ensures |m| == |m0| && forall i :: 0 <= i < |m| ==> m[i] == (m0[i] && RoomAll(src.ty, ops, src.buffers[i], rows[i]))
  {
    seq(|m0|, i requires 0 <= i < |m0| => m0[i] && RoomAll(src.ty, ops, src.buffers[i], rows[i]))
  }

  /** One filter judging one buffer that the filters `ops` have kept. */
  lemma {:induction false} JudgeAfter(src: Src, ops: seq<Op>, op: Op, rows: seq<seq<Val>>, i: nat)
    requires Holds(src, rows) && i < |rows| && Applicable(src.ty, ops) && Fitting(Narrowed(src.ty, ops), op)
    requires RoomAll(src.ty, ops, src.buffers[i], rows[i])
    ensures var cur := Narrowed(src.ty, ops);
            Judge(cur, op, src.buffers[i], src.mmap) == Ok(Room(src.ty, cur, op, src.buffers[i], rows[i]))
  {
    NarrowedTypes(src.ty, ops);
    assert Stored(src.ty, src.buffers[i], src.mmap, rows[i]);
    if src.buffers[i].Compact? { KeptIsPresent(src.ty, ops, src.buffers[i], rows[i]); }
    JudgeIsRoom(src.ty, Narrowed(src.ty, ops), op, src.buffers[i], src.mmap, rows[i]);
  }

  /** One filter more narrows the mask to the buffers with room for it as well. */
  lemma {:induction false} PrunedRoomy(src: Src, ops: seq<Op>, rows: seq<seq<Val>>, m0: seq<bool>)
    requires Holds(src, rows) && |m0| == |rows| && ops != [] && Applicable(src.ty, ops)
    ensures var init, op := ops[..|ops| - 1], ops[|ops| - 1];
            Pruned(Narrowed(src.ty, init), op, src.buffers, src.mmap, Roomy(src, init, rows, m0)) == Ok(Roomy(src, ops, rows, m0))
  {
    var init, op := ops[..|ops| - 1], ops[|ops| - 1];
    var cur, m := Narrowed(src.ty, init), Roomy(src, init, rows, m0);
    forall i | 0 <= i < |m| && m[i]
      ensures Judge(cur, op, src.buffers[i], src.mmap) == Ok(Room(src.ty, cur, op, src.buffers[i], rows[i]))
    {
      JudgeAfter(src, init, op, rows, i);
    }
    PrunedAt(cur, op, src.buffers, src.mmap, m);
    assert Pruned(cur, op, src.buffers, src.mmap, m).value == Roomy(src, ops, rows, m0);
  }

  lemma {:induction false} ItemTypeOfFilters(ty: Type, window: Chain, ops: seq<Op>)
    requires OneWindow(window)
    ensures ItemType(ty, Filters(window, ops)) == Narrowed(ty, ops)
  {
    if ops != [] {
      ItemTypeOfFilters(ty, window, ops[..|ops| - 1]);
    } else if !window.Whole? {
      assert ItemType(ty, window.source) == ty;
    }
  }

  /**
   Phase one over a chain of filters: it never fails, and leaves exactly the buffers whose rows leave
   room for every filter. It may begin from any mask that the chain below the filters resolves to.
   */
  lemma {:induction false} ChainMask(src: Src, base: Chain, ops: seq<Op>, rows: seq<seq<Val>>, start: seq<bool>, items: Items, m0: seq<bool>)
    requires Holds(src, rows) && Applicable(src.ty, ops) && OneWindow(base) && |start| == |m0| == |rows|
    requires Query.Resolve(src, base, start) == Ok((items, m0))
    ensures Query.Resolve(src, Filters(base, ops), start) == Ok((FilterItems(items, ops), Roomy(src, ops, rows, m0)))
  {
    if ops == [] {
      assert Roomy(src, ops, rows, m0) == m0;
    } else {
      var init := ops[..|ops| - 1];
      ChainMask(src, base, init, rows, start, items, m0);
      ItemTypeOfFilters(src.ty, base, init);
      PrunedRoomy(src, ops, rows, m0);
      ResolveFilter(src, Filters(base, init), ops[|ops| - 1], start, FilterItems(items, init), Roomy(src, init, rows, m0));
    }
  }

  lemma {:induction false} ResolveFilter(src: Src, source: Chain, op: Op, start: seq<bool>, items: Items, m: seq<bool>)
    requires |start| == |m| == |src.buffers| && Query.Resolve(src, source, start) == Ok((items, m))
    requires Pruned(ItemType(src.ty, source), op, src.buffers, src.mmap, m).Ok?
    ensures Query.Resolve(src, Filter(source, op), start)
         == Ok((Filtered(items, op), Pruned(ItemType(src.ty, source), op, src.buffers, src.mmap, m).value))
  {
  }

  /* ---------------------------------------------------------------- Phase two reads the rows left */

  lemma {:induction false} OksAreIncluded(rows: seq<Val>)
    ensures FromReads(Oks(rows)) == Includes(rows)
  {
    if rows != [] {
      OksAreIncluded(rows[1..]);
      assert Oks(rows)[1..] == Oks(rows[1..]);
    }
  }

  lemma {:induction false} StreamIsRows(ty: Type, bufs: seq<Stats.Buffer>, mmap: seq<Byte>, mask: seq<bool>, rows: seq<seq<Val>>)
    requires |bufs| == |mask| == |rows|
    requires forall i :: 0 <= i < |rows| ==> ReadBuffer(ty, bufs[i], mmap) == Oks(rows[i])
    ensures Stream(ty, bufs, mmap, mask) == Includes(RowsOf(mask, rows))
  {
    if mask != [] {
      StreamIsRows(ty, bufs[1..], mmap, mask[1..], rows[1..]);
      OksAreIncluded(rows[0]);
      assert ReadBuffer(ty, bufs[0], mmap) == Oks(rows[0]);
      StreamHead(ty, bufs, mmap, mask);
      IncludesPart(mask, rows);
    }
  }

  lemma {:induction false} StreamHead(ty: Type, bufs: seq<Stats.Buffer>, mmap: seq<Byte>, mask: seq<bool>)
    requires |bufs| == |mask| > 0
    ensures Stream(ty, bufs, mmap, mask)
         == (if mask[0] then FromReads(ReadBuffer(ty, bufs[0], mmap)) else []) + Stream(ty, bufs[1..], mmap, mask[1..])
  {
  }

  lemma {:induction false} IncludesPart(mask: seq<bool>, rows: seq<seq<Val>>)
    requires |mask| == |rows| > 0
    ensures Includes(RowsOf(mask, rows)) == (if mask[0] then Includes(rows[0]) else []) + Includes(RowsOf(mask[1..], rows[1..]))
  {
  }

  /** Every stored buffer of the source yields its rows, and its recorded count is their number. */
  lemma {:induction false} HeldReads(src: Src, rows: seq<seq<Val>>)
    requires Holds(src, rows)
    ensures forall i :: 0 <= i < |rows| ==> ReadBuffer(src.ty, src.buffers[i], src.mmap) == Oks(rows[i])
    ensures Counts(src.buffers) == Lens(rows)
  {
    forall i | 0 <= i < |rows|
      ensures ReadBuffer(src.ty, src.buffers[i], src.mmap) == Oks(rows[i]) && src.buffers[i].count == |rows[i]|
    {
      StoredReadsBack(src.ty, src.buffers[i], src.mmap, rows[i]);
      StoredCount(src.ty, src.buffers[i], src.mmap, rows[i]);
    }
  }

  lemma {:induction false} StoredCount(ty: Type, b: Stats.Buffer, mmap: seq<Byte>, rows: seq<Val>)
    requires Stored(ty, b, mmap, rows)
    ensures b.count == |rows|
  {
    DescriptorKeeps(StateOf(ty, rows), b.sector, |rows|);
  }

  lemma {:induction false} SelectConcat(kind: Kind, ops: seq<Op>, xs: seq<Val>, ys: seq<Val>)
    ensures Select(kind, ops, xs + ys) == Select(kind, ops, xs) + Select(kind, ops, ys)
  {
    if xs == [] {
      assert xs + ys == ys;
    } else {
      SelectConcat(kind, ops, xs[1..], ys);
      assert (xs + ys)[1..] == xs[1..] + ys;
      var head := if Passes(kind, ops, xs[0]) then [Image(ops, xs[0])] else [];
      assert Select(kind, ops, xs + ys) == head + Select(kind, ops, xs[1..] + ys);
      assert Select(kind, ops, xs) == head + Select(kind, ops, xs[1..]);
      Assoc(head, Select(kind, ops, xs[1..]), Select(kind, ops, ys));
    }
  }

  lemma {:induction false} SelectNone(kind: Kind, ops: seq<Op>, rows: seq<Val>)
    requires NonePass(kind, ops, rows)
    ensures Select(kind, ops, rows) == []
  {
    if rows != [] {
      assert rows[0] in rows;
      SelectNone(kind, ops, rows[1..]);
    }
  }

  predicate NonePass(kind: Kind, ops: seq<Op>, rows: seq<Val>) {
    forall v :: v in rows ==> !Passes(kind, ops, v)
  }

  /** Buffers without passing rows make no difference to the selection. */
  lemma {:induction false} SelectAgrees(kind: Kind, ops: seq<Op>, m: seq<bool>, other: seq<bool>, parts: seq<seq<Val>>)
    requires |m| == |other| == |parts| && forall i :: 0 <= i < |m| && m[i] != other[i] ==> NonePass(kind, ops, parts[i])
    ensures Select(kind, ops, RowsOf(m, parts)) == Select(kind, ops, RowsOf(other, parts))
  {
    if m != [] {
      SelectAgrees(kind, ops, m[1..], other[1..], parts[1..]);
      SelectPart(kind, ops, m, parts);
      SelectPart(kind, ops, other, parts);
      if m[0] != other[0] { SelectNone(kind, ops, parts[0]); }
    }
  }

  lemma {:induction false} SelectPart(kind: Kind, ops: seq<Op>, m: seq<bool>, parts: seq<seq<Val>>)
    requires |m| == |parts| > 0
    ensures Select(kind, ops, RowsOf(m, parts))
         == (if m[0] then Select(kind, ops, parts[0]) else []) + Select(kind, ops, RowsOf(m[1..], parts[1..]))
  {
    var rest := RowsOf(m[1..], parts[1..]);
    if m[0] {
      SelectConcat(kind, ops, parts[0], rest);
    } else {
      assert RowsOf(m, parts) == [] + rest == rest;
    }
  }

  lemma {:induction false} SelectedCounts(kind: Kind, ops: seq<Op>, rows: seq<Val>)
    requires exists v :: v in rows && Passes(kind, ops, v)
    ensures |Select(kind, ops, rows)| > 0
  {
    if !Passes(kind, ops, rows[0]) {
      SelectedCounts(kind, ops, rows[1..]);
    }
  }

  /** A cleared buffer with a passing row makes the selection shorter. */
  lemma {:induction false} FewerSelected(kind: Kind, ops: seq<Op>, m: seq<bool>, parts: seq<seq<Val>>)
    requires |m| == |parts|
    ensures var some, all := |Select(kind, ops, RowsOf(m, parts))|, |Select(kind, ops, Concat(parts))|;
            && some <= all
            && ((exists i :: 0 <= i < |m| && !m[i] && !NonePass(kind, ops, parts[i])) ==> some < all)
  {
    if m != [] {
      FewerSelected(kind, ops, m[1..], parts[1..]);
      SelectConcat(kind, ops, parts[0], Concat(parts[1..]));
      SelectPart(kind, ops, m, parts);
      if !m[0] && !NonePass(kind, ops, parts[0]) { SelectedCounts(kind, ops, parts[0]); }
      if i :| 0 <= i < |m| && !m[i] && !NonePass(kind, ops, parts[i]) {
        if i > 0 { assert !m[1..][i - 1] && !NonePass(kind, ops, parts[1..][i - 1]); }
      }
    }
  }

  /** Selecting from some buffers is selecting from all exactly when the others hold no passing row. */
  lemma {:induction false} SelectExact(kind: Kind, ops: seq<Op>, m: seq<bool>, parts: seq<seq<Val>>)
    requires |m| == |parts|
    ensures Select(kind, ops, RowsOf(m, parts)) == Select(kind, ops, Concat(parts))
       <==> forall i :: 0 <= i < |m| && !m[i] ==> NonePass(kind, ops, parts[i])
  {
    FewerSelected(kind, ops, m, parts);
    if forall i :: 0 <= i < |m| && !m[i] ==> NonePass(kind, ops, parts[i]) {
      SelectAgrees(kind, ops, m, Trues(|m|), parts);
      AllRows(Trues(|m|), parts);
    }
  }

  /* ---------------------------------------------------------------- Windows */

  /** Positions of the first row of a window and of the row behind its last, among `total` rows. */
  function Extent(window: Chain, total: nat): (nat, nat)
    requires OneWindow(window)
  {
    match window
    case Whole => (0, total)
    case Skip(source, n) => (Extent(source, total).0 + n, Extent(source, total).1)
    case Take(source, n) =>
      (Extent(source, total).0, Least(Extent(source, total).1, Extent(source, total).0 + n))
  }

  lemma {:induction false} ExtentIsNaive<T>(window: Chain, rows: seq<T>)
    requires OneWindow(window)
    ensures var (lo, hi) := Extent(window, |rows|); Slice(rows, lo, hi) == Naive(window, rows)
  {
    if !window.Whole? {
      ExtentIsNaive(window.source, rows);
      var (lo, hi) := Extent(window.source, |rows|);
      SliceAgain(rows, lo, hi, window.n);
    }
  }

  lemma {:induction false} SliceAgain<T>(rows: seq<T>, lo: nat, hi: nat, n: nat)
    ensures Drop(n, Slice(rows, lo, hi)) == Slice(rows, lo + n, hi)
    ensures First(n, Slice(rows, lo, hi)) == Slice(rows, lo, Least(hi, lo + n))
  {
  }

  /** The remainders a window resolves to: first buffer and items dropped, last buffer and items kept. */
  datatype Cut = Cut(a: nat, o: nat, l: nat, k: nat)

  predicate Carries(items: Items, c: Cut, n: nat) {
    match items
    case Every => c.a == 0 && c.o == 0 && c.l == n
    case Skipped(Every, a, o) => c.a == a && c.o == o && c.l == n
    case Taken(Every, l, k) => c.a == 0 && c.o == 0 && c.l == l && c.k == k
    case Skipped(Taken(Every, l, k), a, o) => c == Cut(a, o, l, k)
    case Taken(Skipped(Every, a, o), l, k) => c == Cut(a, o, l, k)
    case _ => false
  }

  lemma {:induction false} FirstOfIncludes(n: nat, rows: seq<Val>)
    ensures First(n, Includes(rows)) == Includes(First(n, rows))
    ensures Drop(n, Includes(rows)) == Includes(Drop(n, rows))
  {
  }

  lemma {:induction false} CarriedOrigin(items: Items, c: Cut, m: seq<bool>)
    requires Carries(items, c, |m|) && At(m, c.a, c.o) <= U64_MAX
    ensures Query.Origin(items, m) == At(m, c.a, c.o)
  {
    if !items.Every? { assert Query.Origin(items.source, m) == if items.source.Skipped? then At(m, c.a, c.o) else 0; }
  }

  lemma {:induction false} CarriedOutcomes(src: Src, items: Items, c: Cut, m: seq<bool>)
    requires |m| == |src.buffers| && Carries(items, c, |m|)
    ensures var os := Stream(src.ty, src.buffers, src.mmap, m);
            || Outcomes(src, items, m) == First(Quota(Counts(src.buffers), m, c.l, c.k), os)
            || (c.l == |m| && Outcomes(src, items, m) == os)
  {
    if !items.Every? {
      var inner := Outcomes(src, items.source, m);
      assert items.source.Every? ==> inner == Stream(src.ty, src.buffers, src.mmap, m);
      assert !items.source.Every? ==> Outcomes(src, items.source.source, m) == Stream(src.ty, src.buffers, src.mmap, m);
    }
  }

  lemma {:induction false} CarriedReads(src: Src, items: Items, c: Cut, m: seq<bool>, rows: seq<seq<Val>>)
    requires |m| == |rows| == |src.buffers| && Counts(src.buffers) == Lens(rows)
    requires Carries(items, c, |m|) && At(m, c.a, c.o) <= U64_MAX
    requires Stream(src.ty, src.buffers, src.mmap, m) == Includes(RowsOf(m, rows))
    ensures Drop(Query.Origin(items, m), Outcomes(src, items, m))
         == Includes(Drop(At(m, c.a, c.o), First(Quota(Lens(rows), m, c.l, c.k), RowsOf(m, rows))))
  {
    var quota := Quota(Lens(rows), m, c.l, c.k);
    CarriedOrigin(items, c, m);
    CarriedOutcomes(src, items, c, m);
    if c.l == |m| { QuotaSelects(m, rows, rows, c.l, c.k); }
    FirstOfIncludes(quota, RowsOf(m, rows));
    FirstOfIncludes(At(m, c.a, c.o), First(quota, RowsOf(m, rows)));
  }

  /** What a window over all buffers resolves to, in terms of positions among all rows. */
  lemma {:induction false} WindowMarks(src: Src, window: Chain, counts: seq<nat>) returns (items: Items, m0: seq<bool>, c: Cut)
    requires OneWindow(window) && counts == Counts(src.buffers) && Total(counts) <= U64_MAX
    ensures Query.Resolve(src, window, Trues(|src.buffers|)) == Ok((items, m0)) && |m0| == |counts|
    ensures Carries(items, c, |m0|)
    ensures var (lo, hi) := Extent(window, Total(counts)); Marks(counts, m0, lo, hi, c.a, c.o, c.l, c.k)
  {
    if !window.Whole? {
      assert Extent(window.source, Total(counts)) ==
        match window.source
        case Whole => (0, Total(counts))
        case Skip(_, n) => (n, Total(counts))
        case Take(_, n) => (0, Least(Total(counts), n));
    }
    match window
    case Whole =>
      items, m0, c := Every, Trues(|counts|), Cut(0, 0, |counts|, 0);
      WholeMarks(counts);
    case Skip(_, n) =>
      if window.source.Whole? {
        items, m0, c := SkipResolved(src, n, counts);
      } else {
        items, m0, c := TakeSkipResolved(src, window.source.n, n, counts);
      }
    case Take(_, n) =>
      if window.source.Whole? {
        items, m0, c := TakeResolved(src, n, counts);
      } else {
        items, m0, c := SkipTakeResolved(src, window.source.n, n, counts);
      }
  }

  lemma {:induction false} SkipResolved(src: Src, n: nat, counts: seq<nat>) returns (items: Items, m0: seq<bool>, c: Cut)
    requires counts == Counts(src.buffers)
    ensures Query.Resolve(src, Skip(Whole, n), Trues(|src.buffers|)) == Ok((items, m0)) && |m0| == |counts|
    ensures Carries(items, c, |m0|) && items == Skipped(Every, c.a, c.o)
    ensures (m0, c.a, c.o) == SkipFrom(counts, Trues(|counts|), n)
    ensures Marks(counts, m0, n, Total(counts), c.a, c.o, c.l, c.k)
  {
    SkipMarks(counts, n);
    var (m, a, o) := SkipFrom(counts, Trues(|counts|), n);
    items, m0, c := Skipped(Every, a, o), m, Cut(a, o, |counts|, 0);
  }

  lemma {:induction false} TakeResolved(src: Src, n: nat, counts: seq<nat>) returns (items: Items, m0: seq<bool>, c: Cut)
    requires counts == Counts(src.buffers) && Total(counts) <= U64_MAX
    ensures Query.Resolve(src, Take(Whole, n), Trues(|src.buffers|)) == Ok((items, m0)) && |m0| == |counts|
    ensures Carries(items, c, |m0|) && items == Taken(Every, c.l, c.k)
    ensures (m0, c.l, c.k) == TakeFrom(counts, Trues(|counts|), SatAdd(n, 0))
    ensures Marks(counts, m0, 0, Least(Total(counts), n), c.a, c.o, c.l, c.k)
  {
    TakeMarks(counts, SatAdd(n, 0));
    var (m, l, k) := TakeFrom(counts, Trues(|counts|), SatAdd(n, 0));
    items, m0, c := Taken(Every, l, k), m, Cut(0, 0, l, k);
  }

  lemma {:induction false} TakeSkipResolved(src: Src, t: nat, n: nat, counts: seq<nat>) returns (items: Items, m0: seq<bool>, c: Cut)
    requires counts == Counts(src.buffers) && Total(counts) <= U64_MAX
    ensures Query.Resolve(src, Skip(Take(Whole, t), n), Trues(|src.buffers|)) == Ok((items, m0)) && |m0| == |counts|
    ensures Carries(items, c, |m0|)
    ensures Marks(counts, m0, n, Least(Total(counts), t), c.a, c.o, c.l, c.k)
  {
    TakeSkipMarks(counts, SatAdd(t, 0), n);
    var inner, m1, c1 := TakeResolved(src, t, counts);
    var (m, a, o) := SkipFrom(counts, m1, n);
    items, m0, c := Skipped(inner, a, o), m, Cut(a, o, c1.l, c1.k);
  }

  lemma {:induction false} SkipTakeResolved(src: Src, n: nat, t: nat, counts: seq<nat>) returns (items: Items, m0: seq<bool>, c: Cut)
    requires counts == Counts(src.buffers) && Total(counts) <= U64_MAX
    ensures Query.Resolve(src, Take(Skip(Whole, n), t), Trues(|src.buffers|)) == Ok((items, m0)) && |m0| == |counts|
    ensures Carries(items, c, |m0|)
    ensures Marks(counts, m0, n, Least(Total(counts), n + t), c.a, c.o, c.l, c.k)
  {
    var inner, m1, c1 := SkipResolved(src, n, counts);
    var t' := SaturatedTake(counts, n, t);
    SkipTakeMarks(counts, n, t');
    assert Query.Origin(inner, m1) == SatAdd(0, At(m1, c1.a, c1.o));
    var (m, l, k) := TakeFrom(counts, m1, At(m1, c1.a, c1.o) + t');
    items, m0, c := Taken(inner, l, k), m, Cut(c1.a, c1.o, l, k);
  }

  /** A take that saturates when the skipped remainder is added reaches past the last row all the same. */
  lemma {:induction false} SaturatedTake(counts: seq<nat>, n: nat, t: nat) returns (t': nat)
    requires Total(counts) <= U64_MAX
    ensures var (m, a, o) := SkipFrom(counts, Trues(|counts|), n);
            && At(m, a, o) <= U64_MAX && SatAdd(t, SatAdd(0, At(m, a, o))) == At(m, a, o) + t'
            && Least(Total(counts), n + t) == Least(Total(counts), n + t')
  {
    var all := Trues(|counts|);
    SkipEnds(counts, all, n);
    var (m, a, o) := SkipFrom(counts, all, n);
    if a < |counts| { Around(counts, a, a); }
    t' := if t + At(m, a, o) <= U64_MAX then t else U64_MAX - At(m, a, o);
  }

  lemma {:induction false} WholeMarks(counts: seq<nat>)
    ensures Marks(counts, Trues(|counts|), 0, Total(counts), 0, 0, |counts|, 0)
  {
    forall i | 0 <= i < |counts| ensures MarksAt(counts, Trues(|counts|), i, 0, Total(counts), 0, 0, |counts|, 0) {
      Around(counts, i, i);
    }
  }

  lemma {:induction false} TotalIsLength<T>(parts: seq<seq<T>>)
    ensures Total(Lens(parts)) == |Concat(parts)|
  {
    if parts != [] {
      BeforeTail(parts, |parts|);
      TotalIsLength(parts[1..]);
    }
  }

  /** Phase two tests the rows of the window that lie in the buffers left. */
  lemma {:induction false} WindowOutcomes(src: Src, items: Items, m0: seq<bool>, m: seq<bool>, c: Cut, ops: seq<Op>,
                       rows: seq<seq<Val>>, extent: (nat, nat))
    requires |m0| == |rows| == |src.buffers| && Within(m, m0)
    requires forall i :: 0 <= i < |rows| ==> ReadBuffer(src.ty, src.buffers[i], src.mmap) == Oks(rows[i])
    requires Carries(items, c, |m0|) && Counts(src.buffers) == Lens(rows) && |Concat(rows)| <= U64_MAX
    requires Marks(Lens(rows), m0, extent.0, extent.1, c.a, c.o, c.l, c.k)
    ensures var fs := FilterItems(items, ops);
            Drop(Query.Origin(fs, m), Outcomes(src, fs, m))
            == ThroughAll(KindOf(src.ty), ops, Includes(RowsOf(m, Shares(rows, extent.0, extent.1))))
  {
    FilteredOutcomes(src, items, ops, m);
    StreamIsRows(src.ty, src.buffers, src.mmap, m, rows);
    RemainderFits(rows, m0, m, c, extent);
    CarriedReads(src, items, c, m, rows);
    MarksSelect(rows, m0, m, extent.0, extent.1, c.a, c.o, c.l, c.k);
    DropThrough(KindOf(src.ty), ops, Query.Origin(items, m), Outcomes(src, items, m));
  }

  lemma {:induction false} DropThrough(kind: Kind, ops: seq<Op>, n: nat, os: seq<Outcome>)
    ensures Drop(n, ThroughAll(kind, ops, os)) == ThroughAll(kind, ops, Drop(n, os))
  {
  }

  lemma {:induction false} RemainderFits(rows: seq<seq<Val>>, m0: seq<bool>, m: seq<bool>, c: Cut, extent: (nat, nat))
    requires |m0| == |rows| && Within(m, m0) && |Concat(rows)| <= U64_MAX
    requires Marks(Lens(rows), m0, extent.0, extent.1, c.a, c.o, c.l, c.k)
    ensures At(m, c.a, c.o) <= U64_MAX
  {
    if c.a < |m| && m[c.a] {
      assert MarksAt(Lens(rows), m0, c.a, extent.0, extent.1, c.a, c.o, c.l, c.k);
      Around(Lens(rows), c.a, c.a);
      TotalIsLength(rows);
    }
  }

  /* ---------------------------------------------------------------- Main results */

  /** The rows of the window that lie in each buffer. */
  function Windowed<T>(window: Chain, rows: seq<seq<T>>): (parts: seq<seq<T>>)
    requires OneWindow(window)
    ensures |parts| == |rows|
  {
    var (lo, hi) := Extent(window, |Concat(rows)|);
    Shares(rows, lo, hi)
  }

  lemma {:induction false} WindowedAddUp<T>(window: Chain, rows: seq<seq<T>>)
    requires OneWindow(window)
    ensures Concat(Windowed(window, rows)) == Naive(window, Concat(rows))
  {
    var (lo, hi) := Extent(window, |Concat(rows)|);
    SharesAddUp(rows, lo, hi);
    ExtentIsNaive(window, Concat(rows));
  }

  lemma {:induction false} SharesHeld<T>(rows: seq<seq<T>>, lo: nat, hi: nat, i: nat)
    requires i < |rows|
    ensures forall v :: v in Shares(rows, lo, hi)[i] ==> v in rows[i]
  {
    SharesAt(rows, lo, hi, i);
  }

  /** The buffers that every filter would spare if they held a passing row. */
  function Spared(src: Src, ops: seq<Op>, rows: seq<seq<Val>>): (m: seq<bool>)
    requires |rows| == |src.buffers|
    ensures |m| == |rows| && forall i :: 0 <= i < |m| ==> m[i] == SparesAll(src.ty, ops, src.buffers[i], rows[i])
  {
    seq(|rows|, i requires 0 <= i < |rows| => SparesAll(src.ty, ops, src.buffers[i], rows[i]))
  }

  /** Of the window, the buffers left select what the spared buffers select. */
  lemma {:induction false} RoomySelects(src: Src, ops: seq<Op>, rows: seq<seq<Val>>, m0: seq<bool>, parts: seq<seq<Val>>)
    requires Holds(src, rows) && |m0| == |rows| == |parts| && Applicable(src.ty, ops)
    requires forall i, v :: 0 <= i < |rows| && v in parts[i] ==> v in rows[i]
    requires forall i :: 0 <= i < |rows| && !m0[i] ==> parts[i] == []
    ensures Select(KindOf(src.ty), ops, RowsOf(Roomy(src, ops, rows, m0), parts))
         == Select(KindOf(src.ty), ops, RowsOf(Spared(src, ops, rows), parts))
  {
    var m, other := Roomy(src, ops, rows, m0), Spared(src, ops, rows);
    forall i | 0 <= i < |m| && m[i] != other[i] ensures NonePass(KindOf(src.ty), ops, parts[i]) {
      RoomyDiffers(src, ops, rows, m0, parts[i], i);
    }
    SelectAgrees(KindOf(src.ty), ops, m, other, parts);
  }

  lemma {:induction false} RoomyDiffers(src: Src, ops: seq<Op>, rows: seq<seq<Val>>, m0: seq<bool>, part: seq<Val>, i: nat)
    requires Holds(src, rows) && i < |m0| == |rows| && Applicable(src.ty, ops)
    requires (forall v :: v in part ==> v in rows[i]) && (!m0[i] ==> part == [])
    requires Roomy(src, ops, rows, m0)[i] != Spared(src, ops, rows)[i]
    ensures NonePass(KindOf(src.ty), ops, part)
  {
    if m0[i] {
      assert Stored(src.ty, src.buffers[i], src.mmap, rows[i]);
      DifferHoldsNone(src.ty, ops, src.buffers[i], rows[i], part);
    }
  }

  /** A buffer kept but not spared, or spared but not kept, holds no passing row. */
  lemma {:induction false} DifferHoldsNone(ty: Type, ops: seq<Op>, b: Stats.Buffer, rows: seq<Val>, part: seq<Val>)
    requires rows != [] && AllAre(rows, ty) && (b.Compact? ==> Uniform(rows)) && Applicable(ty, ops)
    requires (forall v :: v in part ==> v in rows) && RoomAll(ty, ops, b, rows) != SparesAll(ty, ops, b, rows)
    ensures NonePass(KindOf(ty), ops, part)
  {
    forall v | v in part ensures !Passes(KindOf(ty), ops, v) {
      if Passes(KindOf(ty), ops, v) { PassingSpares(ty, ops, b, rows, v); }
    }
  }

  /** The query succeeds and yields what decoding all rows, applying the window and then filtering yields. */
  predicate FindsAll(src: Src, window: Chain, ops: seq<Op>, rows: seq<seq<Val>>)
    requires OneWindow(window)
  {
    var r := Run(src, Filters(window, ops));
    r.Ok? && IncludedItems(r.value) == Select(KindOf(src.ty), ops, Naive(window, Concat(rows)))
  }

  /**
   Two-phase reading, exactly: a chain of filters above at most one skip and one take never fails, and
   yields, in order, the passing rows of the naive window that lie in buffers every filter spares. This is
   what decoding all rows, applying the window and then filtering yields, if and only if every buffer that
   holds a passing row of the window is spared by every filter.
   */
  lemma {:induction false} TwoPhaseExact(src: Src, window: Chain, ops: seq<Op>, rows: seq<seq<Val>>)
    requires Holds(src, rows) && OneWindow(window) && |Concat(rows)| <= U64_MAX && Applicable(src.ty, ops)
    ensures var r := Run(src, Filters(window, ops)); var kind, parts := KindOf(src.ty), Windowed(window, rows);
            && r.Ok?
            && (forall o :: o in r.value ==> !o.Failure?)
            && IncludedItems(r.value) == Select(kind, ops, RowsOf(Spared(src, ops, rows), parts))
            && (FindsAll(src, window, ops, rows)
                <==> forall i :: 0 <= i < |rows| && !NonePass(kind, ops, parts[i]) ==> SparesAll(src.ty, ops, src.buffers[i], rows[i]))
  {
    WindowRuns(src, window, ops, rows);
    var kind, parts := KindOf(src.ty), Windowed(window, rows);
    WindowedAddUp(window, rows);
    SelectExact(kind, ops, Spared(src, ops, rows), parts);
  }

  lemma {:induction false} WindowRuns(src: Src, window: Chain, ops: seq<Op>, rows: seq<seq<Val>>)
    requires Holds(src, rows) && OneWindow(window) && |Concat(rows)| <= U64_MAX && Applicable(src.ty, ops)
    ensures var r := Run(src, Filters(window, ops));
            && r.Ok?
            && (forall o :: o in r.value ==> !o.Failure?)
            && IncludedItems(r.value) == Select(KindOf(src.ty), ops, RowsOf(Spared(src, ops, rows), Windowed(window, rows)))
  {
    HeldReads(src, rows);
    TotalIsLength(rows);
    var items, m0, c := WindowMarks(src, window, Lens(rows));
    ChainMask(src, window, ops, rows, Trues(|rows|), items, m0);
    var extent, m := Extent(window, |Concat(rows)|), Roomy(src, ops, rows, m0);
    WindowOutcomes(src, items, m0, m, c, ops, rows, extent);
    var parts := Windowed(window, rows);
    IncludedIsSelect(KindOf(src.ty), ops, RowsOf(m, parts));
    MarksLoseNothing(rows, m0, extent.0, extent.1, c.a, c.o, c.l, c.k);
    forall i | 0 <= i < |rows| ensures forall v :: v in parts[i] ==> v in rows[i] {
      SharesHeld(rows, extent.0, extent.1, i);
    }
    RoomySelects(src, ops, rows, m0, parts);
  }

  /** No filter stands behind `IsSome` on an option next to a mask. */
  predicate Direct(ty: Type, ops: seq<Op>) {
    ops == [] || (var n := |ops| - 1; Direct(ty, ops[..n]) && (Narrowed(ty, ops[..n]) != ty ==> !ty.Masked()))
  }

  /** Equality filters meet only ordered candidates and buffers opening with an ordered item. */
  predicate AllUnambiguous(src: Src, ops: seq<Op>, rows: seq<seq<Val>>)
    requires |rows| == |src.buffers|
  {
    forall i, j :: 0 <= i < |rows| && 0 <= j < |ops| ==> Unambiguous(src.ty, ops[j], src.buffers[i], rows[i])
  }

  /** A chain without misread or ambiguous filters spares every buffer with a passing row. */
  lemma {:induction false} DirectSpares(ty: Type, ops: seq<Op>, b: Stats.Buffer, rows: seq<Val>, v: Val)
    requires AllAre(rows, ty) && Applicable(ty, ops) && Direct(ty, ops) && v in rows && Passes(KindOf(ty), ops, v)
    requires forall j :: 0 <= j < |ops| ==> Unambiguous(ty, ops[j], b, rows)
    ensures SparesAll(ty, ops, b, rows)
  {
    if ops != [] {
      var n := |ops| - 1;
      assert v.Is(ty);
      forall j | 0 <= j < n ensures Unambiguous(ty, ops[..n][j], b, rows) {
        assert ops[..n][j] == ops[j];
      }
      DirectSpares(ty, ops[..n], b, rows, v);
      NarrowedTypes(ty, ops[..n]);
      ImageIsSeen(ty, ops[..n], v);
      UnambiguousIsSpared(ty, Narrowed(ty, ops[..n]), ops[n], b, rows, v);
    }
  }

  /**
   Two-phase reading is naive reading for every chain whose equality filters meet no unordered items and
   which does not look behind `IsSome` on an option next to a mask.
   */
  lemma {:induction false} TwoPhaseMeaning(src: Src, window: Chain, ops: seq<Op>, rows: seq<seq<Val>>)
    requires Holds(src, rows) && OneWindow(window) && |Concat(rows)| <= U64_MAX
    requires Applicable(src.ty, ops) && Direct(src.ty, ops) && AllUnambiguous(src, ops, rows)
    ensures FindsAll(src, window, ops, rows) && forall o :: o in Run(src, Filters(window, ops)).value ==> !o.Failure?
  {
    TwoPhaseExact(src, window, ops, rows);
    var parts, extent := Windowed(window, rows), Extent(window, |Concat(rows)|);
    forall i | 0 <= i < |rows| && !NonePass(KindOf(src.ty), ops, parts[i])
      ensures SparesAll(src.ty, ops, src.buffers[i], rows[i])
    {
      var v :| v in parts[i] && Passes(KindOf(src.ty), ops, v);
      SharesHeld(rows, extent.0, extent.1, i);
      assert Stored(src.ty, src.buffers[i], src.mmap, rows[i]);
      DirectSpares(src.ty, ops, src.buffers[i], rows[i], v);
    }
  }
}
