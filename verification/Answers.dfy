/**
 What queries answer, stated on the rows: each filter by what it looks for, numbers by what they encode, and
 Boolean trees by what their parts answer alone.
 */
module Answers {
  import opened Prelude
  import opened Bytes
  import opened Types
  import opened Numbers
  import opened RoundTrip
  import opened Stats
  import opened Column
  import opened Query
  import opened Pruning
  import opened Window
  import opened Meaning
  import opened Limits
  import opened Joins
  import opened Composite

  /** The items a chain of filters above a window yields. */
  function Answer(src: Src, window: Chain, ops: seq<Op>): Result<seq<Val>> {
    var os :- Run(src, Filters(window, ops));
    Ok(IncludedItems(os))
  }

  /** The wanted rows of the window. */
  function AllWanted(window: Chain, rows: seq<seq<Val>>, test: Val -> bool): seq<Val>
    requires OneWindow(window)
  {
    Sift(test, Naive(window, Concat(rows)))
  }

  /** The wanted rows of the window that lie in buffers every filter spares. */
  function SparedWanted(src: Src, window: Chain, ops: seq<Op>, rows: seq<seq<Val>>, test: Val -> bool): seq<Val>
    requires OneWindow(window) && |rows| == |src.buffers|
  {
    Sift(test, RowsOf(Spared(src, ops, rows), Windowed(window, rows)))
  }

  /** The column holds the rows, and they are few enough to be counted. */
  ghost predicate Answerable(src: Src, window: Chain, rows: seq<seq<Val>>) {
    Holds(src, rows) && OneWindow(window) && |Concat(rows)| <= U64_MAX
  }

  /* ---------------------------------------------------------------- Chains */

  /** The tests accept the rows that the filters accept. */
  ghost predicate Tests(ty: Type, ops: seq<Op>, tests: seq<Val -> bool>) {
    && |tests| == |ops|
    && forall j, v: Val :: 0 <= j < |ops| && v.Is(ty) ==> !ops[j].IsSome? && (Evaluate(KindOf(ty), ops[j], v) <==> tests[j](v))
  }

  function All(tests: seq<Val -> bool>): Val -> bool {
    v => forall j :: 0 <= j < |tests| ==> tests[j](v)
  }

  /** A row passes a chain exactly when it satisfies every test, and is then seen as it is. */
  lemma {:induction false} PassesAll(ty: Type, ops: seq<Op>, tests: seq<Val -> bool>, v: Val)
    requires Tests(ty, ops, tests) && v.Is(ty)
    ensures Image(ops, v) == v && (Passes(KindOf(ty), ops, v) <==> All(tests)(v))
  {
    if ops != [] {
      var n := |ops| - 1;
      FewerTests(ty, ops, tests);
      PassesAll(ty, ops[..n], tests[..n], v);
      LastOfAll(tests, v);
    }
  }

  lemma {:induction false} FewerTests(ty: Type, ops: seq<Op>, tests: seq<Val -> bool>)
    requires Tests(ty, ops, tests) && ops != []
    ensures Tests(ty, ops[..|ops| - 1], tests[..|ops| - 1])
  {
  }

  lemma {:induction false} LastOfAll(tests: seq<Val -> bool>, v: Val)
    requires tests != []
    ensures var n := |tests| - 1; All(tests)(v) <==> All(tests[..n])(v) && tests[n](v)
  {
    var n := |tests| - 1;
    assert forall j :: 0 <= j < n ==> tests[..n][j] == tests[j];
  }

  lemma {:induction false} SelectIsSift(ty: Type, ops: seq<Op>, test: Val -> bool, rows: seq<Val>)
    requires AllAre(rows, ty)
    requires forall v: Val :: v.Is(ty) ==> Image(ops, v) == v && (Passes(KindOf(ty), ops, v) <==> test(v))
    ensures Select(KindOf(ty), ops, rows) == Sift(test, rows)
  {
    if rows != [] {
      assert rows[0].Is(ty);
      SelectIsSift(ty, ops, test, rows[1..]);
    }
  }

  /**
   A chain of filters yields, in order, the rows of the window that satisfy every test and lie in spared
   buffers; it finds all it should exactly when these are all such rows.
   */
  lemma {:induction false} ChainFinds(src: Src, window: Chain, ops: seq<Op>, tests: seq<Val -> bool>, rows: seq<seq<Val>>)
    requires Answerable(src, window, rows) && Applicable(src.ty, ops) && Tests(src.ty, ops, tests)
    ensures Answer(src, window, ops) == Ok(SparedWanted(src, window, ops, rows, All(tests)))
    ensures FindsAll(src, window, ops, rows) <==> Answer(src, window, ops) == Ok(AllWanted(window, rows, All(tests)))
  {
    forall v: Val | v.Is(src.ty) ensures Image(ops, v) == v && (Passes(KindOf(src.ty), ops, v) <==> All(tests)(v)) {
      PassesAll(src.ty, ops, tests, v);
    }
    AnswerIs(src, window, ops, All(tests), rows);
  }

  lemma {:induction false} AnswerIs(src: Src, window: Chain, ops: seq<Op>, test: Val -> bool, rows: seq<seq<Val>>)
    requires Answerable(src, window, rows) && Applicable(src.ty, ops)
    requires forall v: Val :: v.Is(src.ty) ==> Image(ops, v) == v && (Passes(KindOf(src.ty), ops, v) <==> test(v))
    ensures Answer(src, window, ops) == Ok(SparedWanted(src, window, ops, rows, test))
    ensures FindsAll(src, window, ops, rows) <==> Answer(src, window, ops) == Ok(AllWanted(window, rows, test))
  {
    TwoPhaseExact(src, window, ops, rows);
    WindowTyped(src, window, rows, Spared(src, ops, rows));
    SelectIsSift(src.ty, ops, test, RowsOf(Spared(src, ops, rows), Windowed(window, rows)));
    SelectIsSift(src.ty, ops, test, Naive(window, Concat(rows)));
  }

  /** The rows of a window have the type of the column. */
  lemma {:induction false} WindowTyped(src: Src, window: Chain, rows: seq<seq<Val>>, m: seq<bool>)
    requires Answerable(src, window, rows) && |m| == |rows|
    ensures AllAre(RowsOf(m, Windowed(window, rows)), src.ty) && AllAre(Naive(window, Concat(rows)), src.ty)
  {
    var parts := Windowed(window, rows);
    forall i | 0 <= i < |rows| ensures AllAre(parts[i], src.ty) {
      PartIsTyped(src, window, rows, i);
    }
    PartsTyped(m, parts, src.ty);
    PartsTyped(Trues(|m|), parts, src.ty);
    AllRows(Trues(|m|), parts);
    WindowedAddUp(window, rows);
  }

  lemma {:induction false} PartsTyped(m: seq<bool>, parts: seq<seq<Val>>, ty: Type)
    requires |m| == |parts| && forall i :: 0 <= i < |parts| ==> AllAre(parts[i], ty)
    ensures AllAre(RowsOf(m, parts), ty)
  {
    if m != [] {
      PartsTyped(m[1..], parts[1..], ty);
    }
  }

  /** One filter. */
  lemma {:induction false} FilterFinds(src: Src, window: Chain, op: Op, test: Val -> bool, rows: seq<seq<Val>>)
    requires Answerable(src, window, rows) && Fitting(src.ty, op) && !op.IsSome?
    requires forall v: Val :: v.Is(src.ty) ==> (Evaluate(KindOf(src.ty), op, v) <==> test(v))
    ensures Answer(src, window, [op]) == Ok(SparedWanted(src, window, [op], rows, test))
    ensures FindsAll(src, window, [op], rows) <==> Answer(src, window, [op]) == Ok(AllWanted(window, rows, test))
    ensures Thorough(op) ==> Answer(src, window, [op]) == Ok(AllWanted(window, rows, test))
  {
    SingleFilter(src.ty, op);
    assert [op][..0] == [];
    forall v: Val | v.Is(src.ty) ensures Image([op], v) == v && (Passes(KindOf(src.ty), [op], v) <==> test(v)) {
      assert Image([op][..0], v) == v;
    }
    AnswerIs(src, window, [op], test, rows);
    if Thorough(op) { ThoroughFinds(src, window, op, rows); }
  }

  /** Filters that consult no statistics, or for which statistics never lie. */
  predicate Thorough(op: Op) {
    if op.Entire? then op.op.Where? || op.op.AntiJoin? else !op.Match? && !op.OneOf?
  }

  lemma {:induction false} ThoroughFinds(src: Src, window: Chain, op: Op, rows: seq<seq<Val>>)
    requires Answerable(src, window, rows) && Fitting(src.ty, op) && Thorough(op)
    ensures FindsAll(src, window, [op], rows)
  {
    FilterExact(src, window, op, rows);
    forall i | 0 <= i < |rows| ensures MissesNone(src.ty, op, src.buffers[i], rows[i], Windowed(window, rows)[i]) {
      assert Spares(src.ty, src.ty, op, src.buffers[i], rows[i]);
    }
  }

  /* ---------------------------------------------------------------- Filters on items */

  /** The item of a row: absent rows have none, and rows of a plain column are their own items. */
  function Item(v: Val): Option<Val> {
    match v
    case Nil => None
    case Just(x) => Some(x)
    case _ => Some(v)
  }

  function OfItem(wanted: Val -> bool): Val -> bool {
    v => Item(v).Some? && wanted(Item(v).value)
  }

  /** Filters that take the item of a row for their operand. */
  predicate OnItems(op: Op) {
    !op.IsSome? && !op.IsNone? && !op.Entire?
  }

  lemma {:induction false} ItemTested(ty: Type, op: Op, wanted: Val -> bool, v: Val)
    requires v.Is(ty) && OnItems(op)
    requires Item(v).Some? ==> (Accepts(KindOf(ty), op, Item(v).value) <==> wanted(Item(v).value))
    ensures Evaluate(KindOf(ty), op, v) <==> OfItem(wanted)(v)
  {
    assert OfItem(wanted)(v) <==> Item(v).Some? && wanted(Item(v).value);
  }

  /** One filter on items. */
  lemma {:induction false} ItemsFound(src: Src, window: Chain, op: Op, wanted: Val -> bool, rows: seq<seq<Val>>)
    requires Answerable(src, window, rows) && Fitting(src.ty, op) && OnItems(op)
    requires forall x: Val :: x.Is(src.ty.Inner()) ==> (Accepts(KindOf(src.ty), op, x) <==> wanted(x))
    ensures Answer(src, window, [op]) == Ok(SparedWanted(src, window, [op], rows, OfItem(wanted)))
    ensures FindsAll(src, window, [op], rows) <==> Answer(src, window, [op]) == Ok(AllWanted(window, rows, OfItem(wanted)))
    ensures Thorough(op) ==> Answer(src, window, [op]) == Ok(AllWanted(window, rows, OfItem(wanted)))
  {
    forall v: Val | v.Is(src.ty) ensures Evaluate(KindOf(src.ty), op, v) <==> OfItem(wanted)(v) {
      if Item(v).Some? { ItemTyped(src.ty, v); }
      ItemTested(src.ty, op, wanted, v);
    }
    FilterFinds(src, window, op, OfItem(wanted), rows);
  }

  lemma {:induction false} ItemTyped(ty: Type, v: Val)
    requires v.Is(ty) && Item(v).Some?
    ensures Item(v).value.Is(ty.Inner())
  {
  }

  function Anything(): Val -> bool {
    _ => true
  }

  function Among(keys: set<Val>): Val -> bool {
    v => v in keys
  }

  function Without(keys: set<Val>): Val -> bool {
    v => v !in keys
  }

  function InList(items: seq<Val>): Val -> bool {
    v => v in items
  }

  function Equal(item: Val): Val -> bool {
    v => v == item
  }

  /** A predicate yields exactly the present rows whose item satisfies it. */
  lemma {:induction false} WhereFinds(src: Src, window: Chain, wanted: Val -> bool, rows: seq<seq<Val>>)
    requires Answerable(src, window, rows)
    ensures Answer(src, window, [Where(wanted)]) == Ok(AllWanted(window, rows, OfItem(wanted)))
  {
    ItemsFound(src, window, Where(wanted), wanted, rows);
  }

  /** The number lies between the bounds, as numbers. */
  predicate Between(kind: Kind, start: Bound, end: Bound, n: nat) {
    && (match start
        case Unbounded => true
        case Included(s) => NoMore(kind, s, n)
        case Excluded(s) => Less(kind, s, n))
    && (match end
        case Unbounded => true
        case Included(e) => NoMore(kind, n, e)
        case Excluded(e) => Less(kind, n, e))
  }

  function BetweenTest(kind: Kind, start: Bound, end: Bound): Val -> bool {
    (v: Val) => v.Num? && Between(kind, start, end, v.num)
  }

  lemma {:induction false} ContainsIsBetween(kind: Kind, start: Bound, end: Bound, n: nat)
    ensures Contains(kind, start, end, n) <==> Between(kind, start, end, n)
  {
    if !start.Unbounded? { OrderIsNumeric(kind, start.at, n); }
    if !end.Unbounded? { OrderIsNumeric(kind, n, end.at); }
  }

  /** A range yields exactly the rows whose number lies between its bounds, as numbers, above any window. */
  lemma {:induction false} RangeFinds(src: Src, window: Chain, start: Bound, end: Bound, rows: seq<seq<Val>>)
    requires Answerable(src, window, rows) && src.ty.Numeric()
    ensures Answer(src, window, [Range(start, end)]) == Ok(AllWanted(window, rows, OfItem(BetweenTest(src.ty.kind, start, end))))
  {
    var kind := src.ty.kind;
    forall x: Val | x.Is(src.ty.Inner()) ensures Accepts(kind, Range(start, end), x) <==> BetweenTest(kind, start, end)(x) {
      ContainsIsBetween(kind, start, end, x.num);
    }
    ItemsFound(src, window, Range(start, end), BetweenTest(kind, start, end), rows);
  }

  function HalfOpen(lo: nat, hi: nat): Val -> bool {
    (v: Val) => v.Num? && lo <= v.num < hi
  }

  /** Over unsigned integers, a half-open range yields exactly the rows with `lo <= n < hi`. */
  lemma {:induction false} UnsignedRange(src: Src, window: Chain, lo: nat, hi: nat, rows: seq<seq<Val>>)
    requires Answerable(src, window, rows) && src.ty.Numeric() && src.ty.kind.UInt?
    ensures Answer(src, window, [Range(Included(lo), Excluded(hi))]) == Ok(AllWanted(window, rows, OfItem(HalfOpen(lo, hi))))
  {
    RangeFinds(src, window, Included(lo), Excluded(hi), rows);
    BetweenIsHalfOpen(src.ty.kind, lo, hi);
    OfItemAgrees(BetweenTest(src.ty.kind, Included(lo), Excluded(hi)), HalfOpen(lo, hi), Naive(window, Concat(rows)));
  }

  lemma {:induction false} BetweenIsHalfOpen(kind: Kind, lo: nat, hi: nat)
    requires kind.UInt?
    ensures forall x :: BetweenTest(kind, Included(lo), Excluded(hi))(x) == HalfOpen(lo, hi)(x)
  {
  }

  lemma {:induction false} OfItemAgrees(p: Val -> bool, q: Val -> bool, s: seq<Val>)
    requires forall x :: p(x) == q(x)
    ensures Sift(OfItem(p), s) == Sift(OfItem(q), s)
  {
    forall i | 0 <= i < |s| ensures OfItem(p)(s[i]) == OfItem(q)(s[i]) {
      if Item(s[i]).Some? { assert p(Item(s[i]).value) == q(Item(s[i]).value); }
    }
    SiftAgrees(OfItem(p), OfItem(q), s);
  }

  lemma {:induction false} SiftAgrees<T>(p: T -> bool, q: T -> bool, s: seq<T>)
    requires forall i :: 0 <= i < |s| ==> p(s[i]) == q(s[i])
    ensures Sift(p, s) == Sift(q, s)
  {
    if s != [] {
      assert forall i :: 0 <= i < |s| - 1 ==> s[1..][i] == s[i + 1];
      SiftAgrees(p, q, s[1..]);
    }
  }

  /**
   A semi join yields exactly the present rows whose item is a key, an anti join those whose item is none:
   together they split the present rows of the window.
   */
  lemma {:induction false} JoinsSplit(src: Src, window: Chain, keys: set<Val>, rows: seq<seq<Val>>)
    requires Answerable(src, window, rows) && Fitting(src.ty, SemiJoin(keys))
    ensures Answer(src, window, [SemiJoin(keys)]) == Ok(AllWanted(window, rows, OfItem(Among(keys))))
    ensures Answer(src, window, [AntiJoin(keys)]) == Ok(AllWanted(window, rows, OfItem(Without(keys))))
    ensures var some, none := Answer(src, window, [SemiJoin(keys)]), Answer(src, window, [AntiJoin(keys)]);
            && some.Ok? && none.Ok? && multiset(some.value) + multiset(none.value) == multiset(AllWanted(window, rows, OfItem(Anything())))
            && (forall v :: v in some.value ==> v !in none.value)
  {
    ItemsFound(src, window, SemiJoin(keys), Among(keys), rows);
    ItemsFound(src, window, AntiJoin(keys), Without(keys), rows);
    OfItemSplits(keys, Naive(window, Concat(rows)));
  }

  lemma {:induction false} OfItemSplits(keys: set<Val>, s: seq<Val>)
    ensures var some, none := Sift(OfItem(Among(keys)), s), Sift(OfItem(Without(keys)), s);
            multiset(some) + multiset(none) == multiset(Sift(OfItem(Anything()), s)) && forall v :: v in some ==> v !in none
  {
    forall i | 0 <= i < |s|
      ensures (OfItem(Anything())(s[i]) <==> OfItem(Among(keys))(s[i]) || OfItem(Without(keys))(s[i]))
      ensures !(OfItem(Among(keys))(s[i]) && OfItem(Without(keys))(s[i]))
    {
    }
    SiftSplits(OfItem(Among(keys)), OfItem(Without(keys)), OfItem(Anything()), s);
  }

  /** Two tests that exclude each other split what either accepts. */
  lemma {:induction false} SiftSplits<T>(p: T -> bool, q: T -> bool, r: T -> bool, s: seq<T>)
    requires forall i :: 0 <= i < |s| ==> (r(s[i]) <==> p(s[i]) || q(s[i])) && !(p(s[i]) && q(s[i]))
    ensures multiset(Sift(p, s)) + multiset(Sift(q, s)) == multiset(Sift(r, s))
    ensures forall x :: x in Sift(p, s) ==> p(x)
    ensures forall x :: x in Sift(p, s) ==> x !in Sift(q, s)
  {
    SiftedPass(p, s);
    SiftedPass(q, s);
    if s != [] {
      forall i | 0 <= i < |s| - 1 ensures (r(s[1..][i]) <==> p(s[1..][i]) || q(s[1..][i])) && !(p(s[1..][i]) && q(s[1..][i])) {
        assert s[1..][i] == s[i + 1];
      }
      SiftSplits(p, q, r, s[1..]);
      SiftHeadCount(p, s);
      SiftHeadCount(q, s);
      SiftHeadCount(r, s);
    }
  }

  lemma {:induction false} SiftedPass<T>(p: T -> bool, s: seq<T>)
    ensures forall x :: x in Sift(p, s) ==> p(x) && x in s
  {
    if s != [] {
      SiftedPass(p, s[1..]);
    }
  }

  lemma {:induction false} SiftHeadCount<T>(p: T -> bool, s: seq<T>)
    requires s != []
    ensures multiset(Sift(p, s)) == (if p(s[0]) then multiset{s[0]} else multiset{}) + multiset(Sift(p, s[1..]))
  {
  }

  /** A set filter yields exactly the present rows whose item is a member. */
  lemma {:induction false} MembersFound(src: Src, window: Chain, members: set<Val>, rows: seq<seq<Val>>)
    requires Answerable(src, window, rows) && Fitting(src.ty, OneOfSet(members))
    ensures Answer(src, window, [OneOfSet(members)]) == Ok(AllWanted(window, rows, OfItem(Among(members))))
  {
    ItemsFound(src, window, OneOfSet(members), Among(members), rows);
  }

  function NumbersIn(numbers: seq<nat>): Val -> bool {
    (v: Val) => v.Num? && v.num in numbers
  }

  /** A sorted filter, which searches by bisection, yields exactly the present rows whose number is listed. */
  lemma {:induction false} SortedFound(src: Src, window: Chain, sorted: seq<nat>, rows: seq<seq<Val>>)
    requires Answerable(src, window, rows) && Fitting(src.ty, OneOfSorted(sorted)) && forall q :: q in sorted ==> src.ty.kind.Valid(q)
    ensures Answer(src, window, [OneOfSorted(sorted)]) == Ok(AllWanted(window, rows, OfItem(NumbersIn(sorted))))
  {
    var kind := src.ty.kind;
    forall x: Val | x.Is(src.ty.Inner()) ensures Accepts(kind, OneOfSorted(sorted), x) <==> NumbersIn(sorted)(x) {
      assert forall i :: 0 <= i < |sorted| ==> sorted[i] in sorted;
      FoundIsMember(kind, sorted, x.num);
    }
    ItemsFound(src, window, OneOfSorted(sorted), NumbersIn(sorted), rows);
  }

  /**
   An equality filter yields exactly the rows holding the wanted item in the buffers it spares; a list filter
   those holding a listed item. `Limits` says when these are all of them.
   */
  lemma {:induction false} EqualFound(src: Src, window: Chain, item: Val, rows: seq<seq<Val>>)
    requires Answerable(src, window, rows) && item.Is(src.ty.Inner())
    ensures Answer(src, window, [Match(item)]) == Ok(SparedWanted(src, window, [Match(item)], rows, OfItem(Equal(item))))
    ensures FindsAll(src, window, [Match(item)], rows) <==> Answer(src, window, [Match(item)]) == Ok(AllWanted(window, rows, OfItem(Equal(item))))
  {
    forall x: Val ensures Accepts(KindOf(src.ty), Match(item), x) <==> Equal(item)(x) {
      BitMatchIsEquality(item, x);
    }
    ItemsFound(src, window, Match(item), Equal(item), rows);
  }

  lemma {:induction false} ListedFound(src: Src, window: Chain, items: seq<Val>, rows: seq<seq<Val>>)
    requires Answerable(src, window, rows) && AllAre(items, src.ty.Inner())
    ensures Answer(src, window, [OneOf(items)]) == Ok(SparedWanted(src, window, [OneOf(items)], rows, OfItem(InList(items))))
    ensures FindsAll(src, window, [OneOf(items)], rows) <==> Answer(src, window, [OneOf(items)]) == Ok(AllWanted(window, rows, OfItem(InList(items))))
  {
    forall x: Val ensures Accepts(KindOf(src.ty), OneOf(items), x) <==> InList(items)(x) {
      ListedMatches(items, x);
    }
    ItemsFound(src, window, OneOf(items), InList(items), rows);
  }

  lemma {:induction false} ListedMatches(items: seq<Val>, x: Val)
    ensures x in items <==> exists i :: 0 <= i < |items| && BitMatch(x, items[i])
  {
    forall i | 0 <= i < |items| ensures BitMatch(x, items[i]) <==> x == items[i] {
      BitMatchIsEquality(x, items[i]);
    }
  }

  /** `is_none` yields exactly the absent rows. */
  lemma {:induction false} AbsentFound(src: Src, window: Chain, rows: seq<seq<Val>>)
    requires Answerable(src, window, rows) && src.ty.Optional()
    ensures Answer(src, window, [IsNone]) == Ok(AllWanted(window, rows, Equal(Nil)))
  {
    FilterFinds(src, window, IsNone, Equal(Nil), rows);
  }

  /** The items of the present rows, in order. */
  function ItemsIn(rows: seq<Val>): seq<Val> {
    if rows == [] then []
    else (if rows[0].Just? then [rows[0].item] else []) + ItemsIn(rows[1..])
  }

  /** `is_some` yields exactly the items of the present rows. */
  lemma {:induction false} PresentFound(src: Src, window: Chain, rows: seq<seq<Val>>)
    requires Answerable(src, window, rows) && src.ty.Optional()
    ensures Answer(src, window, [IsSome]) == Ok(ItemsIn(Naive(window, Concat(rows))))
  {
    IsSomeAlone(src.ty);
    TwoPhaseExact(src, window, [IsSome], rows);
    SelectUnwraps(src.ty, Naive(window, Concat(rows)));
    assert forall i :: 0 <= i < |rows| ==> SparesAll(src.ty, [IsSome], src.buffers[i], rows[i]);
  }

  lemma {:induction false} SelectUnwraps(ty: Type, rows: seq<Val>)
    requires ty.Optional()
    ensures Select(KindOf(ty), [IsSome], rows) == ItemsIn(rows)
  {
    IsSomeAlone(ty);
    if rows != [] {
      SelectUnwraps(ty, rows[1..]);
    }
  }

  /* ---------------------------------------------------------------- Filters on whole options */

  /** Among whole options, the absent one lies below all others. */
  predicate WholeStart(kind: Kind, start: Bound, v: Val) {
    match start
    case Unbounded => true
    case Included(s) => s == kind.Absent() || (v.Just? && v.item.Num? && NoMore(kind, s, v.item.num))
    case Excluded(s) => v.Just? && v.item.Num? && (s == kind.Absent() || Less(kind, s, v.item.num))
  }

  predicate WholeEnd(kind: Kind, end: Bound, v: Val) {
    match end
    case Unbounded => true
    case Included(e) => v.Nil? || (v.Just? && v.item.Num? && e != kind.Absent() && NoMore(kind, v.item.num, e))
    case Excluded(e) => e != kind.Absent() && (v.Nil? || (v.Just? && v.item.Num? && Less(kind, v.item.num, e)))
  }

  predicate WholeBetween(kind: Kind, start: Bound, end: Bound, v: Val) {
    WholeStart(kind, start, v) && WholeEnd(kind, end, v)
  }

  function WholeBetweenTest(kind: Kind, start: Bound, end: Bound): Val -> bool {
    v => WholeBetween(kind, start, end, v)
  }

  /** A bound that is a whole option: its pattern is the absent one or that of an item. */
  predicate OptionBound(kind: Kind, b: Bound) {
    b.Unbounded? || b.at == kind.Absent() || kind.Valid(b.at)
  }

  lemma {:induction false} LiftedOrder(kind: Kind, a: nat, b: nat)
    requires kind.Niche() && (a == kind.Absent() || kind.Valid(a)) && (b == kind.Absent() || kind.Valid(b))
    ensures Le(Lifted(kind), a, b) <==> a == kind.Absent() || (b != kind.Absent() && NoMore(kind, a, b))
    ensures Lt(Lifted(kind), a, b) <==> b != kind.Absent() && (a == kind.Absent() || Less(kind, a, b))
  {
    OrderIsNumeric(kind, a, b);
    if a != kind.Absent() {
      AbsentIsLeast(kind, a);
      if b != kind.Absent() { LiftedCompares(kind, a, b); }
    } else if b != kind.Absent() {
      AbsentIsLeast(kind, b);
    }
  }

  lemma {:induction false} LiftedContains(kind: Kind, start: Bound, end: Bound, v: Val)
    requires kind.Niche() && OptionBound(kind, start) && OptionBound(kind, end) && v.Is(OptFixed(kind))
    ensures Accepts(Lifted(kind), Range(start, end), v) <==> WholeBetween(kind, start, end, v)
  {
    var n := OptionPattern(kind, v);
    LiftedAccepts(kind, start, end, v, n);
    LiftedStart(kind, start, v, n);
    LiftedEnd(kind, end, v, n);
  }

  /** The pattern of an option: that of its item, or the one that encodes absence. */
  predicate OptionIs(kind: Kind, v: Val, n: nat) {
    if v.Nil? then n == kind.Absent() else v == Just(Num(n)) && n != kind.Absent() && kind.Valid(n)
  }

  lemma {:induction false} OptionPattern(kind: Kind, v: Val) returns (n: nat)
    requires kind.Niche() && v.Is(OptFixed(kind))
    ensures OptionIs(kind, v, n)
  {
    n := if v.Nil? then kind.Absent() else v.item.num;
    ItemsOfKind(kind, n);
  }

  lemma {:induction false} LiftedAccepts(kind: Kind, start: Bound, end: Bound, v: Val, n: nat)
    requires OptionIs(kind, v, n)
    ensures Accepts(Lifted(kind), Range(start, end), v) <==> WithinStart(Lifted(kind), start, n) && WithinEnd(Lifted(kind), end, n)
  {
  }

  lemma {:induction false} LiftedStart(kind: Kind, start: Bound, v: Val, n: nat)
    requires kind.Niche() && OptionBound(kind, start) && OptionIs(kind, v, n)
    ensures WithinStart(Lifted(kind), start, n) <==> WholeStart(kind, start, v)
  {
    if !start.Unbounded? { LiftedOrder(kind, start.at, n); }
  }

  lemma {:induction false} LiftedEnd(kind: Kind, end: Bound, v: Val, n: nat)
    requires kind.Niche() && OptionBound(kind, end) && OptionIs(kind, v, n)
    ensures WithinEnd(Lifted(kind), end, n) <==> WholeEnd(kind, end, v)
  {
    if !end.Unbounded? { LiftedOrder(kind, n, end.at); }
  }

  /** What a filter on whole options asks for. */
  ghost predicate AsksFor(kind: Kind, op: Op, wanted: Val -> bool) {
    match op
    case Where(test) => wanted == test
    case AntiJoin(keys) => wanted == Without(keys)
    case SemiJoin(keys) => wanted == Among(keys)
    case Match(item) => wanted == Equal(item)
    case Range(start, end) => wanted == WholeBetweenTest(kind, start, end) && OptionBound(kind, start) && OptionBound(kind, end)
    case _ => false
  }

  lemma {:induction false} WholeTested(ty: Type, op: Op, wanted: Val -> bool, v: Val)
    requires ty.Optional() && FittingWhole(ty, op) && AsksFor(KindOf(ty), op, wanted) && v.Is(ty)
    ensures Accepts(Lifted(KindOf(ty)), op, v) <==> wanted(v)
  {
    if op.Match? {
      BitMatchIsEquality(op.item, v);
    } else if op.Range? {
      LiftedContains(ty.kind, op.start, op.end, v);
    }
  }

  /**
   Filters on whole options yield, absent rows included, exactly the rows they ask for in the buffers they
   spare; a predicate and an anti join find them all.
   */
  lemma {:induction false} WholeFound(src: Src, window: Chain, op: Op, wanted: Val -> bool, rows: seq<seq<Val>>)
    requires Answerable(src, window, rows) && src.ty.Optional() && FittingWhole(src.ty, op) && AsksFor(KindOf(src.ty), op, wanted)
    ensures Answer(src, window, [Entire(op)]) == Ok(SparedWanted(src, window, [Entire(op)], rows, wanted))
    ensures FindsAll(src, window, [Entire(op)], rows) <==> Answer(src, window, [Entire(op)]) == Ok(AllWanted(window, rows, wanted))
    ensures op.Where? || op.AntiJoin? ==> Answer(src, window, [Entire(op)]) == Ok(AllWanted(window, rows, wanted))
  {
    forall v: Val | v.Is(src.ty) ensures Evaluate(KindOf(src.ty), Entire(op), v) <==> wanted(v) {
      WholeTested(src.ty, op, wanted, v);
    }
    FilterFinds(src, window, Entire(op), wanted, rows);
  }

  /* ---------------------------------------------------------------- Statistics */

  /** The number of a row. */
  function NumberOf(v: Val): Option<nat> {
    match v
    case Num(n) => Some(n)
    case Just(Num(n)) => Some(n)
    case _ => None
  }

  /** Some row has this number. */
  predicate HasNumber(rows: seq<Val>, n: nat) {
    exists v :: v in rows && NumberOf(v) == Some(n)
  }

  /** Every number of the rows but NaN lies between the two. */
  predicate Extremes(kind: Kind, rows: seq<Val>, lo: nat, hi: nat) {
    forall v :: v in rows && NumberOf(v).Some? && Value(kind, NumberOf(v).value).Some? ==>
      NoMore(kind, lo, NumberOf(v).value) && NoMore(kind, NumberOf(v).value, hi)
  }

  /**
   The recorded statistics of a stored buffer read as numbers of its rows. If its first number is one, and
   not NaN, they are its least and greatest, as numbers.
   */
  lemma {:induction false} StatisticsAreExtremes(ty: Type, b: Stats.Buffer, mmap: seq<Byte>, rows: seq<Val>) returns (lo: nat, hi: nat)
    requires Stored(ty, b, mmap, rows) && b.Detailed?
    ensures ty.Numeric() && Statistic(ty.kind, b.min, mmap) == Ok(lo) && Statistic(ty.kind, b.max, mmap) == Ok(hi)
    ensures HasNumber(rows, lo) && HasNumber(rows, hi)
    ensures Scalars(ty, rows) != [] && (Value(ty.kind, Scalars(ty, rows)[0]).Some? ==> Extremes(ty.kind, rows, lo, hi))
  {
    lo, hi := StoredStatistics(ty, b, mmap, rows);
    EnclosedNumbers(ty, rows, lo, hi);
  }

  lemma {:induction false} EnclosedNumbers(ty: Type, rows: seq<Val>, lo: nat, hi: nat)
    requires ty.Numeric() && AllAre(rows, ty) && Scalars(ty, rows) != [] && Encloses(ty.kind, Scalars(ty, rows), lo, hi)
    ensures HasNumber(rows, lo) && HasNumber(rows, hi)
    ensures Value(ty.kind, Scalars(ty, rows)[0]).Some? ==> Extremes(ty.kind, rows, lo, hi)
  {
    var _ := RowWith(ty, rows, lo);
    var _ := RowWith(ty, rows, hi);
    if Value(ty.kind, Scalars(ty, rows)[0]).Some? {
      forall v | v in rows && NumberOf(v).Some? && Value(ty.kind, NumberOf(v).value).Some?
        ensures NoMore(ty.kind, lo, NumberOf(v).value) && NoMore(ty.kind, NumberOf(v).value, hi)
      {
        RowIsScalar(ty, rows, v);
        ScalarBetween(ty.kind, Scalars(ty, rows), lo, hi, NumberOf(v).value);
      }
    }
  }

  lemma {:induction false} ScalarBetween(kind: Kind, items: seq<nat>, lo: nat, hi: nat, x: nat)
    requires items != [] && Encloses(kind, items, lo, hi) && Value(kind, items[0]).Some? && x in items && Value(kind, x).Some?
    ensures NoMore(kind, lo, x) && NoMore(kind, x, hi)
  {
    OrderIsNumeric(kind, items[0], x);
    OrderIsNumeric(kind, lo, x);
    OrderIsNumeric(kind, x, hi);
  }

  /** Every scalar is the number of some row. */
  lemma {:induction false} RowWith(ty: Type, rows: seq<Val>, x: nat) returns (v: Val)
    requires ty.Numeric() && AllAre(rows, ty) && x in Scalars(ty, rows)
    ensures v in rows && NumberOf(v) == Some(x)
  {
    assert rows[0].Is(ty);
    if NumberOf(rows[0]) == Some(x) {
      v := rows[0];
    } else {
      if ty.OptFixed? && rows[0].Just? { assert Somes(rows)[1..] == Somes(rows[1..]); }
      v := RowWith(ty, rows[1..], x);
    }
  }

  /* ---------------------------------------------------------------- Boolean trees */

  /** No leg unwraps an option, misreads items or is ambiguous. */
  ghost predicate Plain(cols: seq<Src>, data: seq<seq<seq<Val>>>, t: Tree, n: nat) {
    && Aligned(cols, data, n) && Covers(cols, n, t) && Suits(cols, data, t) && PlainLegs(cols, data, Legs(t))
    && forall l :: 0 <= l < |Legs(t)| ==> WithoutIsSome(Legs(t)[l].ops)
  }

  lemma {:induction false} PlainParts(cols: seq<Src>, data: seq<seq<seq<Val>>>, t: Tree, n: nat)
    requires Plain(cols, data, t, n) && t.Node?
    ensures Plain(cols, data, t.a, n) && Plain(cols, data, t.b, n)
  {
    CoversParts(cols, n, t);
    SuitsParts(cols, data, t);
    var k := |Legs(t.a)|;
    assert forall l :: 0 <= l < k ==> Legs(t)[l] == Legs(t.a)[l];
    assert forall l :: 0 <= l < |Legs(t.b)| ==> Legs(t)[k + l] == Legs(t.b)[l];
  }

  /** All rows of the legs' columns, read across. */
  function AllRowsAcross(data: seq<seq<seq<Val>>>, legs: seq<Joins.Leg>): seq<seq<Val>>
    requires forall l :: 0 <= l < |legs| ==> legs[l].column < |data|
    requires var columns := AllAcross(data, legs); columns != [] && forall l :: 0 <= l < |columns| ==> |columns[l]| == |columns[0]|
  {
    Zip(AllAcross(data, legs))
  }

  /** The legs' columns are equally long. */
  predicate EquallyLong(cols: seq<Src>, data: seq<seq<seq<Val>>>, t: Tree, n: nat) {
    && Covers(cols, n, t) && |data| == |cols|
    && forall l :: 0 <= l < |Legs(t)| ==> |AllAcross(data, Legs(t))[l]| == |AllAcross(data, Legs(t))[0]|
  }

  lemma {:induction false} AcrossEquallyLong(cols: seq<Src>, data: seq<seq<seq<Val>>>, t: Tree, n: nat)
    requires Aligned(cols, data, n) && Covers(cols, n, t)
    ensures EquallyLong(cols, data, t, n)
  {
    PickedEven(cols, data, t, n);
    AcrossIsConcat(data, Legs(t), n);
  }

  /** The rows that satisfy a tree, among all rows read across. */
  function Satisfying(cols: seq<Src>, data: seq<seq<seq<Val>>>, t: Tree, n: nat): seq<seq<Val>>
    requires Covers(cols, n, t) && |data| == |cols|
    requires forall l :: 0 <= l < |Legs(t)| ==> |AllAcross(data, Legs(t))[l]| == |AllAcross(data, Legs(t))[0]|
  {
    Sift(Test(cols, n, t), AllRowsAcross(data, Legs(t)))
  }

  lemma {:induction false} ImagesAreRows(legs: seq<Joins.Leg>, rows: seq<seq<Val>>)
    requires forall l :: 0 <= l < |legs| ==> WithoutIsSome(legs[l].ops)
    ensures Images(legs, rows) == rows
  {
    if rows != [] {
      ImagesAreRows(legs, rows[1..]);
      forall l | 0 <= l < |rows[0]| && l < |legs| ensures Image(legs[l].ops, rows[0][l]) == rows[0][l] {
        NothingLost(legs[l].ops, rows[0][l]);
      }
      assert ImageRow(legs, rows[0]) == rows[0];
    }
  }

  /** A tree over plain legs answers with the rows that satisfy it. */
  lemma {:induction false} PlainAnswer(cols: seq<Src>, data: seq<seq<seq<Val>>>, t: Tree, n: nat)
    requires Plain(cols, data, t, n)
    ensures EquallyLong(cols, data, t, n) && ReadAcross(cols, t, n) == Ok(Satisfying(cols, data, t, n))
  {
    CompositeMeaning(cols, data, t, n);
    AcrossIsConcat(data, Legs(t), n);
    ImagesAreRows(Legs(t), Satisfying(cols, data, t, n));
  }

  /** What an operator makes of the answers of its two sides: intersection, union, symmetric difference. */
  function Sides(join: Join, k: nat, left: seq<seq<Val>>, right: seq<seq<Val>>): seq<Val> -> bool {
    (row: seq<Val>) =>
      |row| >= k
      && match join
         case And => row[..k] in left && row[k..] in right
         case Or => row[..k] in left || row[k..] in right
         case Xor => (row[..k] in left) != (row[k..] in right)
  }

  /**
   Whatever its legs are, the rows that satisfy a tree are those whose parts satisfy its sides: both for a
   conjunction, either for a disjunction, exactly one for an exclusive one.
   */
  lemma {:induction false} SidesSatisfy(cols: seq<Src>, data: seq<seq<seq<Val>>>, t: Tree, n: nat)
    requires Aligned(cols, data, n) && Covers(cols, n, t) && t.Node?
    ensures EquallyLong(cols, data, t, n) && EquallyLong(cols, data, t.a, n) && EquallyLong(cols, data, t.b, n)
    ensures Satisfying(cols, data, t, n)
         == Sift(Sides(t.join, |Legs(t.a)|, Satisfying(cols, data, t.a, n), Satisfying(cols, data, t.b, n)), AllRowsAcross(data, Legs(t)))
  {
    CoversParts(cols, n, t);
    AcrossEquallyLong(cols, data, t, n);
    AcrossEquallyLong(cols, data, t.a, n);
    AcrossEquallyLong(cols, data, t.b, n);
    var left, right := Satisfying(cols, data, t.a, n), Satisfying(cols, data, t.b, n);
    var rows, sides := AllRowsAcross(data, Legs(t)), Sides(t.join, |Legs(t.a)|, left, right);
    forall p | 0 <= p < |rows| ensures Test(cols, n, t)(rows[p]) == sides(rows[p]) {
      SidesDecide(cols, data, t, n, p, left, right);
    }
    SiftAgrees(Test(cols, n, t), sides, rows);
  }

  /**
   A tree answers with the rows whose one part its first side answers with alone, and whose other part its
   second side does: both for a conjunction, either for a disjunction, exactly one for an exclusive one.
   */
  lemma {:induction false} OperatorsCombine(cols: seq<Src>, data: seq<seq<seq<Val>>>, t: Tree, n: nat)
    requires Plain(cols, data, t, n) && t.Node?
    ensures Plain(cols, data, t.a, n) && Plain(cols, data, t.b, n) && EquallyLong(cols, data, t, n)
    ensures var left, right := ReadAcross(cols, t.a, n), ReadAcross(cols, t.b, n);
            && left.Ok? && right.Ok?
            && ReadAcross(cols, t, n)
               == Ok(Sift(Sides(t.join, |Legs(t.a)|, left.value, right.value), AllRowsAcross(data, Legs(t))))
  {
    PlainParts(cols, data, t, n);
    PlainAnswer(cols, data, t, n);
    PlainAnswer(cols, data, t.a, n);
    PlainAnswer(cols, data, t.b, n);
    SidesSatisfy(cols, data, t, n);
  }

  lemma {:induction false} SidesDecide(cols: seq<Src>, data: seq<seq<seq<Val>>>, t: Tree, n: nat, p: nat, left: seq<seq<Val>>, right: seq<seq<Val>>)
    requires t.Node? && EquallyLong(cols, data, t, n) && EquallyLong(cols, data, t.a, n) && EquallyLong(cols, data, t.b, n)
    requires left == Satisfying(cols, data, t.a, n) && right == Satisfying(cols, data, t.b, n)
    requires p < |AllRowsAcross(data, Legs(t))|
    ensures Test(cols, n, t)(AllRowsAcross(data, Legs(t))[p]) == Sides(t.join, |Legs(t.a)|, left, right)(AllRowsAcross(data, Legs(t))[p])
  {
    var row, k := AllRowsAcross(data, Legs(t))[p], |Legs(t.a)|;
    RowAcross(data, Legs(t.a), Legs(t.b), p);
    SatisfiesParts(cols, n, t, row);
    SiftMember(Test(cols, n, t.a), AllRowsAcross(data, Legs(t.a)), p);
    SiftMember(Test(cols, n, t.b), AllRowsAcross(data, Legs(t.b)), p);
  }

  /** A row across all legs is a row across the first and one across the others. */
  lemma {:induction false} RowAcross(data: seq<seq<seq<Val>>>, xs: seq<Joins.Leg>, ys: seq<Joins.Leg>, p: nat)
    requires xs != [] && ys != [] && forall l :: 0 <= l < |xs + ys| ==> (xs + ys)[l].column < |data|
    requires (forall l :: 0 <= l < |xs| ==> xs[l].column < |data|) && forall l :: 0 <= l < |ys| ==> ys[l].column < |data|
    requires forall l :: 0 <= l < |xs + ys| ==> |AllAcross(data, xs + ys)[l]| == |AllAcross(data, xs + ys)[0]|
    requires forall l :: 0 <= l < |xs| ==> |AllAcross(data, xs)[l]| == |AllAcross(data, xs)[0]|
    requires forall l :: 0 <= l < |ys| ==> |AllAcross(data, ys)[l]| == |AllAcross(data, ys)[0]|
    requires p < |AllRowsAcross(data, xs + ys)|
    ensures p < |AllRowsAcross(data, xs)| && p < |AllRowsAcross(data, ys)|
    ensures var row := AllRowsAcross(data, xs + ys)[p];
            |row| == |xs| + |ys| && row[..|xs|] == AllRowsAcross(data, xs)[p] && row[|xs|..] == AllRowsAcross(data, ys)[p]
  {
    var all, k := AllAcross(data, xs + ys), |xs|;
    assert forall l :: 0 <= l < k ==> all[l] == AllAcross(data, xs)[l];
    assert forall l :: 0 <= l < |ys| ==> all[k + l] == AllAcross(data, ys)[l];
    var row := AllRowsAcross(data, xs + ys)[p];
    assert row[..k] == AllRowsAcross(data, xs)[p];
    assert row[k..] == AllRowsAcross(data, ys)[p];
  }

  lemma {:induction false} SiftMember<T>(test: T -> bool, s: seq<T>, p: nat)
    requires p < |s|
    ensures s[p] in Sift(test, s) <==> test(s[p])
  {
    SiftedPass(test, s);
    if test(s[p]) { SiftHolds(test, s, p); }
  }

  lemma {:induction false} SiftHolds<T>(test: T -> bool, s: seq<T>, p: nat)
    requires p < |s| && test(s[p])
    ensures s[p] in Sift(test, s)
  {
    if p > 0 { SiftHolds(test, s[1..], p - 1); }
  }
}
