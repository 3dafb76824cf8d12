/**
 Boolean combinations of filtered columns of one query, and their resolution to one buffer mask.
 */
module Joins {
  import opened Prelude
  import opened Types
  import opened Column
  import opened Query
  import opened Pruning
  import opened Window
  import opened Meaning

  datatype Join = And | Or | Xor

  /** A filtered column of the query. */
  datatype Leg = Leg(column: nat, ops: seq<Op>)

  datatype Tree =
    | Leaf(leg: Leg)
    | Node(join: Join, a: Tree, b: Tree)

  /** The operator a join node contributes. */
  predicate Combine(join: Join, a: bool, b: bool) {
    match join
    case And => a && b
    case Or => a || b
    case Xor => a != b
  }

  function Legs(t: Tree): (legs: seq<Leg>)
    ensures |legs| > 0
  {
    match t
    case Leaf(leg) => [leg]
    case Node(_, a, b) => Legs(a) + Legs(b)
  }

  /** The tree's verdict on one verdict per leg. */
  predicate Decide(t: Tree, keeps: seq<bool>)
    requires |keeps| == |Legs(t)|
  {
    match t
    case Leaf(_) => keeps[0]
    case Node(join, a, b) => Combine(join, Decide(a, keeps[..|Legs(a)|]), Decide(b, keeps[|Legs(a)|..]))
  }

  /** Every node applies `join`. */
  predicate Throughout(t: Tree, join: Join) {
    t.Node? ==> t.join == join && Throughout(t.a, join) && Throughout(t.b, join)
  }

  lemma {:induction false} OnesConcat(a: seq<bool>, b: seq<bool>)
    ensures Ones(a + b) == Ones(a) + Ones(b)
  {
    if a == [] {
      assert a + b == b;
    } else {
      assert (a + b)[1..] == a[1..] + b;
      OnesConcat(a[1..], b);
    }
  }

  /** One operator over any number of legs asks for all of them, for some, or for an odd number. */
  lemma {:induction false} OneOperator(t: Tree, join: Join, keeps: seq<bool>)
    requires Throughout(t, join) && |keeps| == |Legs(t)|
    ensures join.And? ==> (Decide(t, keeps) <==> forall l :: 0 <= l < |keeps| ==> keeps[l])
    ensures join.Or? ==> (Decide(t, keeps) <==> exists l :: 0 <= l < |keeps| && keeps[l])
    ensures join.Xor? ==> (Decide(t, keeps) <==> Ones(keeps) % 2 == 1)
  {
    match join
    case And => AllDecide(t, keeps);
    case Or => SomeDecide(t, keeps);
    case Xor => OddDecide(t, keeps);
  }

  lemma {:induction false} AllDecide(t: Tree, keeps: seq<bool>)
    requires Throughout(t, And) && |keeps| == |Legs(t)|
    ensures Decide(t, keeps) <==> forall l :: 0 <= l < |keeps| ==> keeps[l]
    decreases t
  {
    if t.Node? {
      var k := |Legs(t.a)|;
      AllDecide(t.a, keeps[..k]);
      AllDecide(t.b, keeps[k..]);
      TwoSides(keeps, k);
    }
  }

  lemma {:induction false} SomeDecide(t: Tree, keeps: seq<bool>)
    requires Throughout(t, Or) && |keeps| == |Legs(t)|
    ensures Decide(t, keeps) <==> exists l :: 0 <= l < |keeps| && keeps[l]
    decreases t
  {
    if t.Node? {
      var k := |Legs(t.a)|;
      SomeDecide(t.a, keeps[..k]);
      SomeDecide(t.b, keeps[k..]);
      TwoSides(keeps, k);
    }
  }

  lemma {:induction false} OddDecide(t: Tree, keeps: seq<bool>)
    requires Throughout(t, Xor) && |keeps| == |Legs(t)|
    ensures Decide(t, keeps) <==> Ones(keeps) % 2 == 1
    decreases t
  {
    if t.Leaf? {
      assert keeps[1..] == [];
    } else {
      var k := |Legs(t.a)|;
      assert keeps == keeps[..k] + keeps[k..];
      OddDecide(t.a, keeps[..k]);
      OddDecide(t.b, keeps[k..]);
      OnesConcat(keeps[..k], keeps[k..]);
    }
  }

  lemma {:induction false} TwoSides(keeps: seq<bool>, k: nat)
    requires k <= |keeps|
    ensures (forall l :: 0 <= l < |keeps| ==> keeps[l])
       <==> (forall l :: 0 <= l < k ==> keeps[..k][l]) && forall l :: 0 <= l < |keeps| - k ==> keeps[k..][l]
    ensures (exists l :: 0 <= l < |keeps| && keeps[l])
       <==> (exists l :: 0 <= l < k && keeps[..k][l]) || exists l :: 0 <= l < |keeps| - k && keeps[k..][l]
  {
    assert forall l :: 0 <= l < k ==> keeps[..k][l] == keeps[l];
    assert forall l :: k <= l < |keeps| ==> keeps[l] == keeps[k..][l - k];
    assert forall l :: 0 <= l < |keeps| - k ==> keeps[k..][l] == keeps[k + l];
  }

  /** Every leg names a column, and the columns have one buffer per segment. */
  predicate Covers(cols: seq<Src>, n: nat, t: Tree) {
    && (forall c :: 0 <= c < |cols| ==> |cols[c].buffers| == n)
    && forall l :: 0 <= l < |Legs(t)| ==> Legs(t)[l].column < |cols|
  }

  lemma {:induction false} CoversParts(cols: seq<Src>, n: nat, t: Tree)
    requires Covers(cols, n, t) && t.Node?
    ensures Covers(cols, n, t.a) && Covers(cols, n, t.b)
  {
    assert forall l :: 0 <= l < |Legs(t.a)| ==> Legs(t)[l] == Legs(t.a)[l];
    assert forall l :: 0 <= l < |Legs(t.b)| ==> Legs(t)[|Legs(t.a)| + l] == Legs(t.b)[l];
  }

  /* ---------------------------------------------------------------- Resolution, specified */

  function Both(f: (bool, bool) -> bool, x: seq<bool>, y: seq<bool>): (z: seq<bool>)
    requires |x| == |y|
    ensures |z| == |x|
  {
    seq(|x|, i requires 0 <= i < |x| => f(x[i], y[i]))
  }

  function Differ(x: seq<bool>, y: seq<bool>): (z: seq<bool>)
    requires |x| == |y|
    ensures |z| == |x|
  {
    Both((p, q) => p != q, x, y)
  }

  function Either(x: seq<bool>, y: seq<bool>): (z: seq<bool>)
    requires |x| == |y|
    ensures |z| == |x|
  {
    Both((p, q) => p || q, x, y)
  }

  /** Resolution of one chain over a mask that earlier legs may have reduced. */
  function ResolveLeg(src: Src, ops: seq<Op>, mask: seq<bool>): (r: Result<seq<bool>>)
    requires |mask| == |src.buffers|
    ensures r.Ok? ==> |r.value| == |mask|
  {
    var (_, m) :- Query.Resolve(src, Filters(Whole, ops), mask);
    Ok(m)
  }

  /**
   A conjunction hands the mask from leg to leg. A disjunction resolves its first leg on a copy, its
   second only on the buffers the first has cleared, and unites the two.
   */
  function ResolveTree(cols: seq<Src>, t: Tree, mask: seq<bool>): (r: Result<seq<bool>>)
    requires Covers(cols, |mask|, t)
    ensures r.Ok? ==> |r.value| == |mask|
    decreases t
  {
    match t
    case Leaf(leg) => assert Legs(t)[0] == leg; ResolveLeg(cols[leg.column], leg.ops, mask)
    case Node(And, a, b) =>
      CoversParts(cols, |mask|, t);
      var m :- ResolveTree(cols, a, mask);
      ResolveTree(cols, b, m)
    case Node(_, a, b) =>
      CoversParts(cols, |mask|, t);
      var other :- ResolveTree(cols, a, mask);
      var m :- ResolveTree(cols, b, Differ(mask, other));
      Ok(Either(m, other))
  }

  /* ---------------------------------------------------------------- Resolution, in place */

  method ResolveInto(cols: seq<Src>, t: Tree, mask: array<bool>) returns (r: Result<()>)
    requires Covers(cols, mask.Length, t)
    modifies mask
    ensures match ResolveTree(cols, t, old(mask[..]))
            case Ok(m) => r.Ok? && mask[..] == m
            case Err(e) => r == Err(e)
    decreases t
  {
    match t
    case Leaf(leg) =>
      assert Legs(t)[0] == leg;
      var items := ResolveChain(cols[leg.column], Filters(Whole, leg.ops), mask);
      r := if items.Ok? then Ok(()) else Err(items.error);
    case Node(And, a, b) =>
      CoversParts(cols, mask.Length, t);
      r := ResolveInto(cols, a, mask);
      if r.Ok? {
        r := ResolveInto(cols, b, mask);
      }
    case Node(_, a, b) =>
      CoversParts(cols, mask.Length, t);
      var other := Clone(mask);
      r := ResolveInto(cols, a, other);
      if r.Ok? {
        XorAssign(mask, other);
        r := ResolveInto(cols, b, mask);
        if r.Ok? {
          OrAssign(mask, other);
        }
      }
  }

  method Clone(mask: array<bool>) returns (copy: array<bool>)
    ensures fresh(copy) && copy[..] == mask[..]
  {
    copy := new bool[mask.Length];
    for i := 0 to mask.Length
      invariant copy[..i] == mask[..i]
    {
      copy[i] := mask[i];
      assert copy[..i + 1] == copy[..i] + [mask[i]] == mask[..i + 1];
    }
    assert copy[..] == copy[..mask.Length] == mask[..];
  }

  method XorAssign(mask: array<bool>, other: array<bool>)
    requires mask.Length == other.Length && mask != other
    modifies mask
    ensures mask[..] == Differ(old(mask[..]), other[..])
  {
    for i := 0 to mask.Length
      invariant forall k :: 0 <= k < i ==> mask[k] == (old(mask[k]) != other[k])
      invariant forall k :: i <= k < mask.Length ==> mask[k] == old(mask[k])
    {
      mask[i] := mask[i] != other[i];
    }
  }

  method OrAssign(mask: array<bool>, other: array<bool>)
    requires mask.Length == other.Length && mask != other
    modifies mask
    ensures mask[..] == Either(old(mask[..]), other[..])
  {
    for i := 0 to mask.Length
      invariant forall k :: 0 <= k < i ==> mask[k] == (old(mask[k]) || other[k])
      invariant forall k :: i <= k < mask.Length ==> mask[k] == old(mask[k])
    {
      mask[i] := mask[i] || other[i];
    }
  }

  /* ---------------------------------------------------------------- What resolution keeps */

  /** The columns hold rows: buffer `i` of every column holds the same number of them. */
  ghost predicate Aligned(cols: seq<Src>, data: seq<seq<seq<Val>>>, n: nat) {
    && |cols| == |data|
    && (forall c :: 0 <= c < |cols| ==> |data[c]| == n && Holds(cols[c], data[c]))
    && forall c, d, i :: 0 <= c < |cols| && 0 <= d < |cols| && 0 <= i < n ==> |data[c][i]| == |data[d][i]|
  }

  /** The legs of the tree fit their columns. */
  ghost predicate Suits(cols: seq<Src>, data: seq<seq<seq<Val>>>, t: Tree)
    requires |cols| == |data|
  {
    forall l :: 0 <= l < |Legs(t)| ==> SuitsLeg(cols, data, Legs(t)[l])
  }

  ghost predicate SuitsLeg(cols: seq<Src>, data: seq<seq<seq<Val>>>, leg: Leg)
    requires |cols| == |data|
  {
    leg.column < |cols| && |data[leg.column]| == |cols[leg.column].buffers| && Applicable(cols[leg.column].ty, leg.ops)
  }

  /** Whether the rows of buffer `i` leave room for every filter of one leg. */
  predicate LegRoom(src: Src, ops: seq<Op>, rows: seq<seq<Val>>, i: nat) {
    i < |src.buffers| && i < |rows| && rows[i] != [] && RoomAll(src.ty, ops, src.buffers[i], rows[i])
  }

  /** The keep set of a tree, in terms of the rows; a symmetric difference keeps what either side keeps. */
  predicate Keeps(cols: seq<Src>, data: seq<seq<seq<Val>>>, t: Tree, n: nat, i: nat)
    requires Covers(cols, n, t) && |data| == |cols| && i < n
    decreases t
  {
    match t
    case Leaf(leg) => assert Legs(t)[0] == leg; LegRoom(cols[leg.column], leg.ops, data[leg.column], i)
    case Node(join, a, b) =>
      CoversParts(cols, n, t);
      if join.And? then Keeps(cols, data, a, n, i) && Keeps(cols, data, b, n, i)
      else Keeps(cols, data, a, n, i) || Keeps(cols, data, b, n, i)
  }

  /** A leg resolves to the buffers of the mask that have room for its filters. */
  lemma {:induction false} LegKeeps(src: Src, ops: seq<Op>, rows: seq<seq<Val>>, mask: seq<bool>)
    requires Holds(src, rows) && |mask| == |rows| && Applicable(src.ty, ops)
    ensures ResolveLeg(src, ops, mask).Ok?
    ensures forall i :: 0 <= i < |mask| ==> ResolveLeg(src, ops, mask).value[i] == (mask[i] && LegRoom(src, ops, rows, i))
  {
    ChainMask(src, Whole, ops, rows, mask, Every, mask);
    forall i | 0 <= i < |mask| ensures Roomy(src, ops, rows, mask)[i] == (mask[i] && LegRoom(src, ops, rows, i)) {
      assert Stored(src.ty, src.buffers[i], src.mmap, rows[i]);
    }
  }

  lemma {:induction false} SuitsParts(cols: seq<Src>, data: seq<seq<seq<Val>>>, t: Tree)
    requires |cols| == |data| && Suits(cols, data, t) && t.Node?
    ensures Suits(cols, data, t.a) && Suits(cols, data, t.b)
  {
    assert forall l :: 0 <= l < |Legs(t.a)| ==> Legs(t)[l] == Legs(t.a)[l];
    assert forall l :: 0 <= l < |Legs(t.b)| ==> Legs(t)[|Legs(t.a)| + l] == Legs(t.b)[l];
  }

  /** A resolved tree intersects the mask with its keep set; no cleared bit is ever set. */
  lemma {:induction false} TreeKeeps(cols: seq<Src>, data: seq<seq<seq<Val>>>, t: Tree, mask: seq<bool>)
    requires Aligned(cols, data, |mask|) && Covers(cols, |mask|, t) && Suits(cols, data, t)
    ensures ResolveTree(cols, t, mask).Ok?
    ensures forall i :: 0 <= i < |mask| ==> ResolveTree(cols, t, mask).value[i] == (mask[i] && Keeps(cols, data, t, |mask|, i))
    decreases t
  {
    match t
    case Leaf(leg) =>
      assert Legs(t)[0] == leg && SuitsLeg(cols, data, leg);
      LegKeeps(cols[leg.column], leg.ops, data[leg.column], mask);
    case Node(join, a, b) =>
      CoversParts(cols, |mask|, t);
      SuitsParts(cols, data, t);
      TreeKeeps(cols, data, a, mask);
      var first := ResolveTree(cols, a, mask).value;
      if join.And? {
        TreeKeeps(cols, data, b, first);
      } else {
        TreeKeeps(cols, data, b, Differ(mask, first));
      }
  }

  /* ---------------------------------------------------------------- Rows */

  /** Verdicts of the legs on one row, given one item per leg. */
  function Verdicts(cols: seq<Src>, legs: seq<Leg>, row: seq<Val>): (r: seq<bool>)
    requires |row| == |legs| && forall l :: 0 <= l < |legs| ==> legs[l].column < |cols|
    ensures |r| == |legs|
  {
    seq(|legs|, l requires 0 <= l < |legs| => Passes(KindOf(cols[legs[l].column].ty), legs[l].ops, row[l]))
  }

  /** Whether a row satisfies the tree: the operators applied to what each leg says of its item. */
  predicate Satisfies(cols: seq<Src>, n: nat, t: Tree, row: seq<Val>)
    requires Covers(cols, n, t) && |row| == |Legs(t)|
  {
    Decide(t, Verdicts(cols, Legs(t), row))
  }

  lemma {:induction false} SatisfiesParts(cols: seq<Src>, n: nat, t: Tree, row: seq<Val>)
    requires Covers(cols, n, t) && |row| == |Legs(t)| && t.Node?
    requires Covers(cols, n, t.a) && Covers(cols, n, t.b)
    ensures var k := |Legs(t.a)|;
            Satisfies(cols, n, t, row) == Combine(t.join, Satisfies(cols, n, t.a, row[..k]), Satisfies(cols, n, t.b, row[k..]))
  {
    var k := |Legs(t.a)|;
    var all := Verdicts(cols, Legs(t), row);
    assert all[..k] == Verdicts(cols, Legs(t.a), row[..k]);
    assert all[k..] == Verdicts(cols, Legs(t.b), row[k..]);
  }

  /** Every leg that accepts its item of the row spares the buffer the row lies in. */
  predicate SparesRow(cols: seq<Src>, data: seq<seq<seq<Val>>>, legs: seq<Leg>, i: nat, row: seq<Val>)
    requires |row| == |legs| && |data| == |cols|
  {
    forall l :: 0 <= l < |legs| ==> SparesItem(cols, data, legs[l], i, row[l])
  }

  predicate SparesItem(cols: seq<Src>, data: seq<seq<seq<Val>>>, leg: Leg, i: nat, v: Val)
    requires |data| == |cols|
  {
    leg.column < |cols| && i < |cols[leg.column].buffers| && i < |data[leg.column]|
    && var src := cols[leg.column];
       Passes(KindOf(src.ty), leg.ops, v) ==> SparesAll(src.ty, leg.ops, src.buffers[i], data[leg.column][i])
  }

  /** A buffer holding a row that satisfies the tree is kept if the accepting legs spare it. */
  lemma {:induction false} SparedIsKept(cols: seq<Src>, data: seq<seq<seq<Val>>>, t: Tree, n: nat, i: nat, row: seq<Val>)
    requires Aligned(cols, data, n) && Covers(cols, n, t) && Suits(cols, data, t) && i < n && RowOf(data, Legs(t), i, row)
    requires SparesRow(cols, data, Legs(t), i, row)
    ensures Satisfies(cols, n, t, row) ==> Keeps(cols, data, t, n, i)
    decreases t
  {
    match t
    case Leaf(leg) => LegDecides(cols, data, leg, n, i, row);
    case Node(_, a, b) =>
      RowSplits(cols, data, n, t, i, row);
      SparesParts(cols, data, Legs(a), Legs(b), i, row);
      SparedIsKept(cols, data, a, n, i, row[..|Legs(a)|]);
      SparedIsKept(cols, data, b, n, i, row[|Legs(a)|..]);
  }

  /** What holds of a row and a node holds of its parts. */
  lemma {:induction false} RowSplits(cols: seq<Src>, data: seq<seq<seq<Val>>>, n: nat, t: Tree, i: nat, row: seq<Val>)
    requires |cols| == |data| && Covers(cols, n, t) && Suits(cols, data, t) && t.Node? && RowOf(data, Legs(t), i, row)
    ensures Covers(cols, n, t.a) && Covers(cols, n, t.b) && Suits(cols, data, t.a) && Suits(cols, data, t.b)
    ensures var k := |Legs(t.a)|;
            && |row| == k + |Legs(t.b)| && RowOf(data, Legs(t.a), i, row[..k]) && RowOf(data, Legs(t.b), i, row[k..])
            && Satisfies(cols, n, t, row) == Combine(t.join, Satisfies(cols, n, t.a, row[..k]), Satisfies(cols, n, t.b, row[k..]))
  {
    CoversParts(cols, n, t);
    SuitsParts(cols, data, t);
    SatisfiesParts(cols, n, t, row);
    RowOfParts(data, Legs(t.a), Legs(t.b), i, row);
  }

  lemma {:induction false} RowOfParts(data: seq<seq<seq<Val>>>, xs: seq<Leg>, ys: seq<Leg>, i: nat, row: seq<Val>)
    requires RowOf(data, xs + ys, i, row)
    ensures RowOf(data, xs, i, row[..|xs|]) && RowOf(data, ys, i, row[|xs|..])
  {
    assert forall l :: 0 <= l < |xs| ==> (xs + ys)[l] == xs[l];
    assert forall l :: 0 <= l < |ys| ==> (xs + ys)[|xs| + l] == ys[l];
  }

  /** One leg accepting its item has room for the buffer exactly when it spares it. */
  lemma {:induction false} LegDecides(cols: seq<Src>, data: seq<seq<seq<Val>>>, leg: Leg, n: nat, i: nat, row: seq<Val>)
    requires Aligned(cols, data, n) && Covers(cols, n, Leaf(leg)) && Suits(cols, data, Leaf(leg)) && i < n && RowOf(data, [leg], i, row)
    ensures Satisfies(cols, n, Leaf(leg), row) ==>
              (Keeps(cols, data, Leaf(leg), n, i) <==> SparesRow(cols, data, [leg], i, row))
  {
    assert Legs(Leaf(leg))[0] == leg && SuitsLeg(cols, data, leg);
    var src, rows := cols[leg.column], data[leg.column];
    assert row[0] in rows[i];
    assert Verdicts(cols, [leg], row)[0] == Passes(KindOf(src.ty), leg.ops, row[0]);
    assert Stored(src.ty, src.buffers[i], src.mmap, rows[i]);
    if Passes(KindOf(src.ty), leg.ops, row[0]) {
      PassingSpares(src.ty, leg.ops, src.buffers[i], rows[i], row[0]);
      OneLegSpares(cols, data, leg, i, row);
    }
  }

  lemma {:induction false} OneLegSpares(cols: seq<Src>, data: seq<seq<seq<Val>>>, leg: Leg, i: nat, row: seq<Val>)
    requires |data| == |cols| && |row| == 1
    ensures SparesRow(cols, data, [leg], i, row) <==> SparesItem(cols, data, leg, i, row[0])
  {
    assert [leg][0] == leg;
  }

  /** Only conjunctions. */
  predicate Conjunctive(t: Tree) {
    t.Node? ==> t.join.And? && Conjunctive(t.a) && Conjunctive(t.b)
  }

  /** Under conjunctions only, a buffer holding a satisfying row is kept exactly when every leg spares it. */
  lemma {:induction false} ConjunctionKeeps(cols: seq<Src>, data: seq<seq<seq<Val>>>, t: Tree, n: nat, i: nat, row: seq<Val>)
    requires Aligned(cols, data, n) && Covers(cols, n, t) && Suits(cols, data, t) && i < n && RowOf(data, Legs(t), i, row)
    requires Conjunctive(t) && Satisfies(cols, n, t, row)
    ensures Keeps(cols, data, t, n, i) <==> SparesRow(cols, data, Legs(t), i, row)
    decreases t
  {
    match t
    case Leaf(leg) => LegDecides(cols, data, leg, n, i, row);
    case Node(_, a, b) =>
      RowSplits(cols, data, n, t, i, row);
      ConjunctionKeeps(cols, data, a, n, i, row[..|Legs(a)|]);
      ConjunctionKeeps(cols, data, b, n, i, row[|Legs(a)|..]);
      SparesParts(cols, data, Legs(a), Legs(b), i, row);
  }

  lemma {:induction false} SparesParts(cols: seq<Src>, data: seq<seq<seq<Val>>>, xs: seq<Leg>, ys: seq<Leg>, i: nat, row: seq<Val>)
    requires |data| == |cols| && |row| == |xs| + |ys|
    ensures SparesRow(cols, data, xs + ys, i, row) <==> SparesRow(cols, data, xs, i, row[..|xs|]) && SparesRow(cols, data, ys, i, row[|xs|..])
  {
    var all := xs + ys;
    if SparesRow(cols, data, all, i, row) {
      forall l | 0 <= l < |xs| ensures SparesItem(cols, data, xs[l], i, row[..|xs|][l]) {
        assert SparesItem(cols, data, all[l], i, row[l]);
      }
      forall l | 0 <= l < |ys| ensures SparesItem(cols, data, ys[l], i, row[|xs|..][l]) {
        assert SparesItem(cols, data, all[|xs| + l], i, row[|xs| + l]);
      }
    }
    if SparesRow(cols, data, xs, i, row[..|xs|]) && SparesRow(cols, data, ys, i, row[|xs|..]) {
      forall l | 0 <= l < |all| ensures SparesItem(cols, data, all[l], i, row[l]) {
        if l < |xs| {
          assert SparesItem(cols, data, xs[l], i, row[..|xs|][l]);
        } else {
          assert SparesItem(cols, data, ys[l - |xs|], i, row[|xs|..][l - |xs|]);
        }
      }
    }
  }

  /**
   Boolean trees: resolution fails nowhere, sets no bit that was clear, and retains every buffer of the
   mask that holds a row satisfying the tree and is spared by the legs that accept it, also when exactly
   one leg of a symmetric difference does.
   */
  lemma {:induction false} TreeRetains(cols: seq<Src>, data: seq<seq<seq<Val>>>, t: Tree, mask: seq<bool>)
    requires Aligned(cols, data, |mask|) && Covers(cols, |mask|, t) && Suits(cols, data, t)
    ensures ResolveTree(cols, t, mask).Ok? && Within(ResolveTree(cols, t, mask).value, mask)
    ensures forall i, row | 0 <= i < |mask| && mask[i] && RowOf(data, Legs(t), i, row) ::
              Satisfies(cols, |mask|, t, row) && SparesRow(cols, data, Legs(t), i, row) ==> ResolveTree(cols, t, mask).value[i]
  {
    TreeKeeps(cols, data, t, mask);
    forall i, row | 0 <= i < |mask| && mask[i] && RowOf(data, Legs(t), i, row)
                    && Satisfies(cols, |mask|, t, row) && SparesRow(cols, data, Legs(t), i, row)
      ensures ResolveTree(cols, t, mask).value[i]
    {
      SparedIsKept(cols, data, t, |mask|, i, row);
    }
  }

  /** No leg misreads items or is ambiguous. */
  ghost predicate PlainLegs(cols: seq<Src>, data: seq<seq<seq<Val>>>, legs: seq<Leg>)
    requires |cols| == |data|
  {
    forall l :: 0 <= l < |legs| ==>
      SuitsLeg(cols, data, legs[l]) && Direct(cols[legs[l].column].ty, legs[l].ops)
      && AllUnambiguous(cols[legs[l].column], legs[l].ops, data[legs[l].column])
  }

  /** Such legs spare every buffer that holds a row they accept. */
  lemma {:induction false} PlainSpares(cols: seq<Src>, data: seq<seq<seq<Val>>>, legs: seq<Leg>, n: nat, i: nat, row: seq<Val>)
    requires Aligned(cols, data, n) && PlainLegs(cols, data, legs) && i < n && RowOf(data, legs, i, row)
    ensures SparesRow(cols, data, legs, i, row)
  {
    forall l | 0 <= l < |legs| ensures SparesItem(cols, data, legs[l], i, row[l]) {
      var src, rows, ops := cols[legs[l].column], data[legs[l].column], legs[l].ops;
      assert Stored(src.ty, src.buffers[i], src.mmap, rows[i]);
      if Passes(KindOf(src.ty), ops, row[l]) {
        forall j | 0 <= j < |ops| ensures Unambiguous(src.ty, ops[j], src.buffers[i], rows[i]) {
        }
        DirectSpares(src.ty, ops, src.buffers[i], rows[i], row[l]);
      }
    }
  }

  /** `row` takes each leg's item from buffer `i` of its column. */
  predicate RowOf(data: seq<seq<seq<Val>>>, legs: seq<Leg>, i: nat, row: seq<Val>) {
    && |row| == |legs|
    && forall l :: 0 <= l < |legs| ==>
         && legs[l].column < |data| && i < |data[legs[l].column]| && row[l] in data[legs[l].column][i]
  }
}
