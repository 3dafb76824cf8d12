/**
 Reading back what was pushed.

 The accumulator is first brought into closed form; then a relation between a cursor and the items it
 still owes is shown to hold after opening and to survive every pull.
 */
module RoundTrip {
  import opened Prelude
  import opened Bytes
  import opened Types
  import opened Accumulate
  import opened Read

  /* ---------------------------------------------------------------- Flattening */

  /** The elements of all rows, end to end; absent rows have none. */
  function Flat(rows: seq<Val>): seq<Val> {
    if rows == [] then [] else Elements(rows[0]) + Flat(rows[1..])
  }

  function Elements(row: Val): seq<Val> {
    if row.List? then row.items else if row.Just? && row.item.List? then row.item.items else []
  }

  /** Present items, unwrapped. */
  function Somes(rows: seq<Val>): seq<Val> {
    if rows == [] then []
    else if rows[0].Just? then [rows[0].item] + Somes(rows[1..])
    else Somes(rows[1..])
  }

  function Presence(rows: seq<Val>): seq<bool> {
    if rows == [] then [] else [rows[0].Just?] + Presence(rows[1..])
  }

  function Nums(rows: seq<Val>): seq<nat> {
    if rows == [] then [] else [if rows[0].Num? then rows[0].num else 0] + Nums(rows[1..])
  }

  function BitsIn(rows: seq<Val>): seq<bool> {
    if rows == [] then [] else [rows[0].Bit? && rows[0].bit] + BitsIn(rows[1..])
  }

  function Slots(rows: seq<Val>): seq<Option<nat>> {
    if rows == [] then []
    else [if rows[0].Just? && rows[0].item.Num? then Some(rows[0].item.num) else None] + Slots(rows[1..])
  }

  /** Cumulative ends of `rows` counted on from `start`; absent rows carry the marker. */
  function Ends(start: nat, rows: seq<Val>): seq<nat>
    decreases |rows|
  {
    if rows == [] then []
    else if rows[0].Nil? then [SENTINEL] + Ends(start, rows[1..])
    else
      var end := start + |Elements(rows[0])|;
      [end] + Ends(end, rows[1..])
  }

  lemma {:induction false} FlatTyped(rows: seq<Val>, ty: Type)
    requires (ty.Seq? || ty.OptSeq?) && AllAre(rows, ty)
    ensures AllAre(Flat(rows), ty.elem)
  {
    if rows != [] {
      assert rows[0].Is(ty);
      assert AllAre(Elements(rows[0]), ty.elem);
      FlatTyped(rows[1..], ty);
    }
  }

  lemma {:induction false} SomesTyped(rows: seq<Val>, ty: Type)
    requires ty.Optional() && AllAre(rows, ty)
    ensures AllAre(Somes(rows), ty.Inner())
  {
    if rows != [] {
      assert rows[0].Is(ty);
      SomesTyped(rows[1..], ty);
    }
  }

  /**
   Every level holds fewer elements than the absence marker can be mistaken for. Rust caps the length
   of one allocation at half of this bound.
   */
  predicate Counted(ty: Type, rows: seq<Val>) {
    match ty
    case Seq(elem) => |Flat(rows)| < SENTINEL && Counted(elem, Flat(rows))
    case OptSeq(elem) => |Flat(rows)| < SENTINEL && Counted(elem, Flat(rows))
    case _ => true
  }

  /* ---------------------------------------------------------------- Accumulators in closed form */

  lemma {:induction false} PushAllConcat(ty: Type, acc: Acc, xs: seq<Val>, ys: seq<Val>)
    requires Shape(ty, acc) && AllAre(xs, ty) && AllAre(ys, ty)
    ensures AllAre(xs + ys, ty)
    ensures PushAll(ty, acc, xs + ys) == PushAll(ty, PushAll(ty, acc, xs), ys)
    decreases |xs|
  {
    if xs == [] {
      assert xs + ys == ys;
    } else {
      assert (xs + ys)[1..] == xs[1..] + ys;
      PushAllConcat(ty, Push(ty, acc, xs[0]), xs[1..], ys);
    }
  }

  lemma {:induction false} Assoc<T>(a: seq<T>, b: seq<T>, c: seq<T>)
    ensures a + b + c == a + (b + c)
  {
  }

  lemma {:induction false} GrowBool(acc: Acc, rows: seq<Val>)
    requires acc.Bits? && AllAre(rows, Bool)
    ensures PushAll(Bool, acc, rows) == Bits(acc.bits + BitsIn(rows))
    decreases |rows|
  {
    if rows == [] {
      assert acc.bits + [] == acc.bits;
    } else {
      var step := [rows[0].bit];
      GrowBool(Bits(acc.bits + step), rows[1..]);
      assert acc.bits + step + BitsIn(rows[1..]) == acc.bits + (step + BitsIn(rows[1..]));
    }
  }

  lemma {:induction false} GrowFixed(kind: Kind, acc: Acc, rows: seq<Val>)
    requires acc.Vector? && acc.kind == kind && AllAre(rows, Fixed(kind))
    ensures PushAll(Fixed(kind), acc, rows) == Vector(kind, acc.items + Nums(rows))
    decreases |rows|
  {
    if rows == [] {
      assert acc.items + [] == acc.items;
    } else {
      var step := [rows[0].num];
      GrowFixed(kind, Vector(kind, acc.items + step), rows[1..]);
      assert acc.items + step + Nums(rows[1..]) == acc.items + (step + Nums(rows[1..]));
    }
  }

  lemma {:induction false} GrowNiche(kind: Kind, acc: Acc, rows: seq<Val>)
    requires kind.Niche() && acc.InSitu? && acc.kind == kind && AllAre(rows, OptFixed(kind))
    ensures PushAll(OptFixed(kind), acc, rows) == InSitu(kind, acc.slots + Slots(rows))
    decreases |rows|
  {
    if rows == [] {
      assert acc.slots + [] == acc.slots;
    } else {
      assert rows[0].Is(OptFixed(kind));
      var step := Slots(rows)[..1];
      GrowNiche(kind, InSitu(kind, acc.slots + step), rows[1..]);
      assert acc.slots + step + Slots(rows[1..]) == acc.slots + Slots(rows);
    }
  }

  lemma {:induction false} GrowOptBool(acc: Acc, rows: seq<Val>)
    requires Shape(OptBool, acc) && AllAre(rows, OptBool)
    ensures PushAll(OptBool, acc, rows)
         == MaskData(acc.mask + Presence(rows), Bits(acc.data.bits + BitsIn(Somes(rows))))
    decreases |rows|
  {
    if rows == [] {
      assert acc.mask + [] == acc.mask && acc.data.bits + [] == acc.data.bits;
    } else {
      assert rows[0].Is(OptBool);
      var v, rest := rows[0], rows[1..];
      var step := if v.Just? then [v.item.bit] else [];
      var acc' := MaskData(acc.mask + [v.Just?], Bits(acc.data.bits + step));
      assert acc' == Push(OptBool, acc, v) by {
        assert acc.data.bits + [] == acc.data.bits;
      }
      assert PushAll(OptBool, acc, rows) == PushAll(OptBool, acc', rest);
      GrowOptBool(acc', rest);
      assert BitsIn(Somes(rows)) == step + BitsIn(Somes(rest)) by {
        if v.Just? { assert Somes(rows)[1..] == Somes(rest); }
      }
      Assoc(acc.mask, [v.Just?], Presence(rest));
      Assoc(acc.data.bits, step, BitsIn(Somes(rest)));
    }
  }

  lemma {:induction false} GrowMasked(kind: Kind, acc: Acc, rows: seq<Val>)
    requires !kind.Niche() && Shape(OptFixed(kind), acc) && AllAre(rows, OptFixed(kind))
    ensures PushAll(OptFixed(kind), acc, rows)
         == MaskData(acc.mask + Presence(rows), Vector(kind, acc.data.items + Nums(Somes(rows))))
    decreases |rows|
  {
    if rows == [] {
      assert acc.mask + [] == acc.mask && acc.data.items + [] == acc.data.items;
    } else {
      assert rows[0].Is(OptFixed(kind));
      var v, rest := rows[0], rows[1..];
      var step := if v.Just? then [v.item.num] else [];
      var acc' := MaskData(acc.mask + [v.Just?], Vector(kind, acc.data.items + step));
      assert acc' == Push(OptFixed(kind), acc, v) by {
        assert acc.data.items + [] == acc.data.items;
      }
      assert PushAll(OptFixed(kind), acc, rows) == PushAll(OptFixed(kind), acc', rest);
      GrowMasked(kind, acc', rest);
      assert Nums(Somes(rows)) == step + Nums(Somes(rest)) by {
        if v.Just? { assert Somes(rows)[1..] == Somes(rest); }
      }
      Assoc(acc.mask, [v.Just?], Presence(rest));
      Assoc(acc.data.items, step, Nums(Somes(rest)));
    }
  }

  lemma {:induction false} GrowSeq(elem: Type, acc: Acc, rows: seq<Val>)
    requires Shape(Seq(elem), acc) && AllAre(rows, Seq(elem))
    requires Last(acc.ends) + |Flat(rows)| < SENTINEL
    ensures AllAre(Flat(rows), elem)
    ensures PushAll(Seq(elem), acc, rows)
         == EndsData(acc.ends + Ends(Last(acc.ends), rows), PushAll(elem, acc.data, Flat(rows)))
    decreases |rows|
  {
    FlatTyped(rows, Seq(elem));
    if rows == [] {
      assert acc.ends + [] == acc.ends;
    } else {
      var acc' := SeqRowPushed(elem, acc, rows);
      GrowSeq(elem, acc', rows[1..]);
      FlatPushed(elem, acc.data, rows);
      EndsShift(acc.ends, Last(acc.ends), rows);
    }
  }

  /** The accumulator after the first of several rows. */
  lemma {:induction false} SeqRowPushed(elem: Type, acc: Acc, rows: seq<Val>) returns (acc': Acc)
    requires Shape(Seq(elem), acc) && AllAre(rows, Seq(elem)) && rows != []
    requires Last(acc.ends) + |Flat(rows)| < SENTINEL
    ensures rows[0].List? && AllAre(Elements(rows[0]), elem) && AllAre(rows[1..], Seq(elem)) && Shape(Seq(elem), acc')
    ensures var end := Last(acc.ends) + |Elements(rows[0])|;
            acc' == EndsData(acc.ends + [end], PushAll(elem, acc.data, Elements(rows[0]))) && Last(acc'.ends) == end
    ensures PushAll(Seq(elem), acc, rows) == PushAll(Seq(elem), acc', rows[1..])
  {
    PushAllStep(Seq(elem), acc, rows);
    PushRow(elem, acc, rows[0]);
    acc' := Push(Seq(elem), acc, rows[0]);
  }

  lemma {:induction false} PushRow(elem: Type, acc: Acc, v: Val)
    requires Shape(Seq(elem), acc) && v.Is(Seq(elem)) && Last(acc.ends) + |Elements(v)| < SENTINEL
    ensures v.List? && AllAre(Elements(v), elem)
    ensures var end := Last(acc.ends) + |Elements(v)|; var acc' := Push(Seq(elem), acc, v);
            && acc' == EndsData(acc.ends + [end], PushAll(elem, acc.data, Elements(v))) && Last(acc'.ends) == end
            && Shape(Seq(elem), acc')
  {
  }

  lemma {:induction false} LastEndOfAppended(ends: seq<nat>, end: nat)
    ensures LastEnd(ends + [end]) == if end == SENTINEL then LastEnd(ends) else end
  {
    assert (ends + [end])[..|ends|] == ends;
  }

  /** One row appended to an optional sequence column. */
  lemma {:induction false} PushOptRow(elem: Type, acc: Acc, v: Val)
    requires Shape(OptSeq(elem), acc) && v.Is(OptSeq(elem))
    requires LastEnd(acc.ends) + |Elements(v)| < SENTINEL
    ensures AllAre(Elements(v), elem)
    ensures var end := LastEnd(acc.ends) + |Elements(v)|; var acc' := Push(OptSeq(elem), acc, v);
            && acc' == OptEndsData(acc.ends + [if v.Nil? then SENTINEL else end], PushAll(elem, acc.data, Elements(v)))
            && LastEnd(acc'.ends) == end
  {
    LastEndOfAppended(acc.ends, Push(OptSeq(elem), acc, v).ends[|acc.ends|]);
  }

  lemma {:induction false} GrowOptSeq(elem: Type, acc: Acc, rows: seq<Val>)
    requires Shape(OptSeq(elem), acc) && AllAre(rows, OptSeq(elem))
    requires LastEnd(acc.ends) + |Flat(rows)| < SENTINEL
    ensures AllAre(Flat(rows), elem)
    ensures PushAll(OptSeq(elem), acc, rows)
         == OptEndsData(acc.ends + Ends(LastEnd(acc.ends), rows), PushAll(elem, acc.data, Flat(rows)))
    decreases |rows|
  {
    FlatTyped(rows, OptSeq(elem));
    if rows == [] {
      assert acc.ends + [] == acc.ends;
    } else {
      var acc' := OptRowPushed(elem, acc, rows);
      GrowOptSeq(elem, acc', rows[1..]);
      OptRowJoins(elem, acc, acc', rows);
      SameOptEnds(PushAll(OptSeq(elem), acc', rows[1..]),
                  acc'.ends + Ends(LastEnd(acc'.ends), rows[1..]), PushAll(elem, acc'.data, Flat(rows[1..])),
                  acc.ends + Ends(LastEnd(acc.ends), rows), PushAll(elem, acc.data, Flat(rows)));
    }
  }

  lemma {:induction false} OptRowJoins(elem: Type, acc: Acc, acc': Acc, rows: seq<Val>)
    requires acc.OptEndsData? && Shape(elem, acc.data) && rows != [] && AllAre(Elements(rows[0]), elem) && AllAre(Flat(rows[1..]), elem)
    requires var v := rows[0]; var end := LastEnd(acc.ends) + |Elements(v)|;
             && acc' == OptEndsData(acc.ends + [if v.Nil? then SENTINEL else end], PushAll(elem, acc.data, Elements(v)))
             && LastEnd(acc'.ends) == end
    ensures acc'.ends + Ends(LastEnd(acc'.ends), rows[1..]) == acc.ends + Ends(LastEnd(acc.ends), rows)
    ensures AllAre(Flat(rows), elem) && PushAll(elem, acc'.data, Flat(rows[1..])) == PushAll(elem, acc.data, Flat(rows))
  {
    FlatPushed(elem, acc.data, rows);
    EndsShift(acc.ends, LastEnd(acc.ends), rows);
  }

  lemma {:induction false} SameOptEnds(acc: Acc, ends: seq<nat>, data: Acc, ends': seq<nat>, data': Acc)
    requires acc == OptEndsData(ends, data) && ends == ends' && data == data'
    ensures acc == OptEndsData(ends', data')
  {
  }

  /** The first of several ends moved over to those already recorded. */
  lemma {:induction false} EndsShift(ends: seq<nat>, start: nat, rows: seq<Val>)
    requires rows != []
    ensures var end := start + |Elements(rows[0])|;
            ends + Ends(start, rows) == ends + [if rows[0].Nil? then SENTINEL else end] + Ends(end, rows[1..])
  {
    EndsStep(start, rows);
    Assoc(ends, [if rows[0].Nil? then SENTINEL else start + |Elements(rows[0])|], Ends(start + |Elements(rows[0])|, rows[1..]));
  }

  lemma {:induction false} FlatPushed(elem: Type, data: Acc, rows: seq<Val>)
    requires Shape(elem, data) && rows != [] && AllAre(Elements(rows[0]), elem) && AllAre(Flat(rows[1..]), elem)
    ensures AllAre(Flat(rows), elem)
    ensures PushAll(elem, data, Flat(rows)) == PushAll(elem, PushAll(elem, data, Elements(rows[0])), Flat(rows[1..]))
  {
    PushAllConcat(elem, data, Elements(rows[0]), Flat(rows[1..]));
  }

  /** The accumulator after the first of several rows. */
  lemma {:induction false} OptRowPushed(elem: Type, acc: Acc, rows: seq<Val>) returns (acc': Acc)
    requires Shape(OptSeq(elem), acc) && AllAre(rows, OptSeq(elem)) && rows != []
    requires LastEnd(acc.ends) + |Flat(rows)| < SENTINEL
    ensures AllAre(Elements(rows[0]), elem) && AllAre(rows[1..], OptSeq(elem)) && Shape(OptSeq(elem), acc')
    ensures var v := rows[0]; var end := LastEnd(acc.ends) + |Elements(v)|;
            && acc' == OptEndsData(acc.ends + [if v.Nil? then SENTINEL else end], PushAll(elem, acc.data, Elements(v)))
            && LastEnd(acc'.ends) == end
    ensures PushAll(OptSeq(elem), acc, rows) == PushAll(OptSeq(elem), acc', rows[1..])
  {
    PushAllStep(OptSeq(elem), acc, rows);
    PushOptRow(elem, acc, rows[0]);
    acc' := Push(OptSeq(elem), acc, rows[0]);
  }

  lemma {:induction false} EndsStep(start: nat, rows: seq<Val>)
    requires rows != []
    ensures var end := start + |Elements(rows[0])|;
            Ends(start, rows) == [if rows[0].Nil? then SENTINEL else end] + Ends(end, rows[1..])
  {
  }

  lemma {:induction false} PushAllStep(ty: Type, acc: Acc, rows: seq<Val>)
    requires Shape(ty, acc) && AllAre(rows, ty) && rows != []
    ensures rows[0].Is(ty) && AllAre(rows[1..], ty)
    ensures PushAll(ty, acc, rows) == PushAll(ty, Push(ty, acc, rows[0]), rows[1..])
  {
  }

  /** The accumulator of `rows` written directly: columnar parts of the rows, side by side. */
  function Columnar(ty: Type, rows: seq<Val>): Acc
    requires AllAre(rows, ty)
  {
    match ty
    case Bool => Bits(BitsIn(rows))
    case Fixed(kind) => Vector(kind, Nums(rows))
    case OptBool => MaskData(Presence(rows), Bits(BitsIn(Somes(rows))))
    case OptFixed(kind) =>
      if kind.Niche() then InSitu(kind, Slots(rows))
      else MaskData(Presence(rows), Vector(kind, Nums(Somes(rows))))
    case Seq(elem) =>
      FlatTyped(rows, ty);
      EndsData(Ends(0, rows), AccOf(elem, Flat(rows)))
    case OptSeq(elem) =>
      FlatTyped(rows, ty);
      OptEndsData(Ends(0, rows), AccOf(elem, Flat(rows)))
  }

  /** Pushing items one at a time builds exactly the columnar layout of all of them. */
  lemma {:induction false} AccIsColumnar(ty: Type, rows: seq<Val>)
    requires AllAre(rows, ty) && Counted(ty, rows)
    ensures AccOf(ty, rows) == Columnar(ty, rows)
  {
    match ty
    case Bool => GrowBool(Empty(ty), rows); assert [] + BitsIn(rows) == BitsIn(rows);
    case Fixed(kind) => GrowFixed(kind, Empty(ty), rows); assert [] + Nums(rows) == Nums(rows);
    case OptBool =>
      GrowOptBool(Empty(ty), rows);
      assert [] + Presence(rows) == Presence(rows) && [] + BitsIn(Somes(rows)) == BitsIn(Somes(rows));
    case OptFixed(kind) =>
      if kind.Niche() {
        GrowNiche(kind, Empty(ty), rows);
        assert [] + Slots(rows) == Slots(rows);
      } else {
        GrowMasked(kind, Empty(ty), rows);
        assert [] + Presence(rows) == Presence(rows) && [] + Nums(Somes(rows)) == Nums(Somes(rows));
      }
    case Seq(elem) => GrowSeq(elem, Empty(ty), rows); assert [] + Ends(0, rows) == Ends(0, rows);
    case OptSeq(elem) => GrowOptSeq(elem, Empty(ty), rows); assert [] + Ends(0, rows) == Ends(0, rows);
  }

  lemma {:induction false} EmptyOnlyWithoutRows(ty: Type, rows: seq<Val>)
    requires AllAre(rows, ty) && Counted(ty, rows)
    ensures AccOf(ty, rows).IsEmpty() <==> rows == []
    ensures AccOf(ty, rows).Count() == |rows|
  {
    AccIsColumnar(ty, rows);
    ColumnLengths(rows, 0);
  }

  lemma {:induction false} ColumnLengths(rows: seq<Val>, start: nat)
    ensures |BitsIn(rows)| == |Nums(rows)| == |Presence(rows)| == |Slots(rows)| == |Ends(start, rows)| == |rows|
    decreases |rows|
  {
    if rows != [] {
      ColumnLengths(rows[1..], if rows[0].Nil? then start else start + |Elements(rows[0])|);
      ColumnLengths(rows[1..], start);
    }
  }

  lemma {:induction false} FlatSnoc(rows: seq<Val>, k: nat)
    requires k < |rows|
    ensures |Flat(rows[..k + 1])| == |Flat(rows[..k])| + |Elements(rows[k])|
  {
    if k == 0 {
      assert rows[..1][1..] == [];
    } else {
      FlatSnoc(rows[1..], k - 1);
      assert rows[..k + 1][1..] == rows[1..][..k] && rows[..k][1..] == rows[1..][..k - 1];
    }
  }

  lemma {:induction false} EndAt(start: nat, rows: seq<Val>, k: nat)
    requires k < |rows|
    ensures |Ends(start, rows)| == |rows|
    ensures Ends(start, rows)[k] == if rows[k].Nil? then SENTINEL else start + |Flat(rows[..k + 1])|
    decreases k
  {
    ColumnLengths(rows, start);
    EndsStep(start, rows);
    if k == 0 {
      FlatSnoc(rows, 0);
    } else {
      EndAt(start + |Elements(rows[0])|, rows[1..], k - 1);
      assert rows[..k + 1][1..] == rows[1..][..k];
    }
  }

  lemma {:induction false} FlatGrows(rows: seq<Val>, j: nat, k: nat)
    requires j <= k <= |rows|
    ensures |Flat(rows[..j])| <= |Flat(rows[..k])|
    decreases k
  {
    if j < k {
      FlatGrows(rows, j, k - 1);
      FlatSnoc(rows, k - 1);
    }
  }

  /**
   Ends of an optional sequence column, after any pushes: a present row's end is the number of elements
   pushed up to and including it, an absent row carries the marker; so ends of present rows never
   decrease, the last of them is the number of flattened elements, and each row's share of the elements
   lies between the end before it and its own.
   */
  lemma {:induction false} OptionalEnds(elem: Type, rows: seq<Val>)
    requires AllAre(rows, OptSeq(elem)) && Counted(OptSeq(elem), rows)
    ensures var acc := AccOf(OptSeq(elem), rows);
            && acc.OptEndsData? && |acc.ends| == |rows|
            && (forall k :: 0 <= k < |rows| ==> acc.ends[k] == if rows[k].Nil? then SENTINEL else |Flat(rows[..k + 1])|)
            && (forall j, k :: 0 <= j < k < |rows| && rows[j].Just? && rows[k].Just? ==> acc.ends[j] <= acc.ends[k] - |Elements(rows[k])|)
            && LastEnd(acc.ends) == |Flat(rows)|
            && AllAre(Flat(rows), elem) && acc.data == AccOf(elem, Flat(rows))
  {
    AccIsColumnar(OptSeq(elem), rows);
    FlatTyped(rows, OptSeq(elem));
    ColumnLengths(rows, 0);
    forall k | 0 <= k < |rows| ensures Ends(0, rows)[k] == if rows[k].Nil? then SENTINEL else |Flat(rows[..k + 1])| {
      EndAt(0, rows, k);
    }
    forall j, k | 0 <= j < k < |rows| && rows[j].Just? && rows[k].Just?
      ensures Ends(0, rows)[j] <= Ends(0, rows)[k] - |Elements(rows[k])|
    {
      FlatGrows(rows, j + 1, k);
      FlatSnoc(rows, k);
    }
    LastEndIsTotal(rows);
  }

  lemma {:induction false} LastEndIsTotal(rows: seq<Val>)
    requires |Flat(rows)| < SENTINEL && forall k :: 0 <= k < |rows| ==> rows[k].Nil? || rows[k].Just?
    ensures LastEnd(Ends(0, rows)) == |Flat(rows)|
    decreases |rows|
  {
    ColumnLengths(rows, 0);
    if rows != [] {
      var n := |rows| - 1;
      EndAt(0, rows, n);
      FlatSnoc(rows, n);
      assert rows[..n + 1] == rows;
      EndsPrefix(0, rows, n);
      LastEndIsTotal(rows[..n]);
    }
  }

  lemma {:induction false} EndsPrefix(start: nat, rows: seq<Val>, n: nat)
    requires n <= |rows|
    ensures |Ends(start, rows)| == |rows| && Ends(start, rows[..n]) == Ends(start, rows)[..n]
    decreases n
  {
    ColumnLengths(rows, start);
    if n > 0 {
      EndsStep(start, rows);
      EndsStep(start, rows[..n]);
      EndsPrefix(start + |Elements(rows[0])|, rows[1..], n - 1);
      assert rows[..n][1..] == rows[1..][..n - 1];
    }
  }

  /* ---------------------------------------------------------------- Cursors */

  /** The cursor still owes exactly `rows`; bit cursors may carry zero fill behind them. */
  predicate Owes(ty: Type, c: Cursor, rows: seq<Val>)
    requires Fits(ty, c)
  {
    match ty
    case Bool => BitsIn(rows) <= c.bits
    case Fixed(kind) => c.src == NumberBytes(kind.Width(), Nums(rows))
    case OptBool => Presence(rows) <= c.mask && BitsIn(Somes(rows)) <= c.data.bits
    case OptFixed(kind) =>
      if kind.Niche() then c.src == NumberBytes(kind.Width(), SlotNumbers(kind, Slots(rows)))
      else Presence(rows) <= c.mask && c.data.src == NumberBytes(kind.Width(), Nums(Somes(rows)))
    case Seq(elem) =>
      && c.start + |Flat(rows)| < SENTINEL
      && c.ends == NumberBytes(8, Ends(c.start, rows))
      && Owes(elem, c.data, Flat(rows))
    case OptSeq(elem) =>
      && c.start + |Flat(rows)| < SENTINEL
      && c.ends == NumberBytes(8, Ends(c.start, rows))
      && Owes(elem, c.data, Flat(rows))
  }

  lemma {:induction false} NumberBytesHead(w: nat, ns: seq<nat>)
    requires ns != [] && w > 0 && ns[0] < Pow256(w)
    ensures var b := NumberBytes(w, ns);
            |b| >= w && FromLe(b[..w]) == ns[0] && b[w..] == NumberBytes(w, ns[1..])
  {
    LeRoundTrip(ns[0], w);
    assert NumberBytes(w, ns)[..w] == ToLe(ns[0], w);
  }

  lemma {:induction false} NextNumberPays(kind: Kind, c: Cursor, rows: seq<Val>)
    requires rows != [] && AllAre(rows, Fixed(kind)) && c.Numbers?
    requires c.src == NumberBytes(kind.Width(), Nums(rows))
    ensures NextNumber(kind, false, c).0 == Some(Ok(rows[0]))
    ensures NextNumber(kind, false, c).1.src == NumberBytes(kind.Width(), Nums(rows[1..]))
  {
    assert rows[0].Is(Fixed(kind));
    NumberBytesHead(kind.Width(), Nums(rows));
  }

  lemma {:induction false} NextNichePays(kind: Kind, c: Cursor, rows: seq<Val>)
    requires rows != [] && AllAre(rows, OptFixed(kind)) && c.Numbers? && kind.Niche()
    requires c.src == NumberBytes(kind.Width(), SlotNumbers(kind, Slots(rows)))
    ensures NextNumber(kind, true, c).0 == Some(Ok(rows[0]))
    ensures NextNumber(kind, true, c).1.src == NumberBytes(kind.Width(), SlotNumbers(kind, Slots(rows[1..])))
  {
    assert rows[0].Is(OptFixed(kind));
    var ns := SlotNumbers(kind, Slots(rows));
    assert ns[1..] == SlotNumbers(kind, Slots(rows[1..]));
    assert kind.Absent() < Pow256(kind.Width()) by { assert Pow256(4) == 0x1_0000_0000; }
    NumberBytesHead(kind.Width(), ns);
  }

  /** A pull yields the next owed row, and the advanced cursor owes the others. */
  lemma {:induction false} NextPays(ty: Type, c: Cursor, rows: seq<Val>)
    requires rows != [] && AllAre(rows, ty) && Fits(ty, c) && Owes(ty, c, rows)
    ensures Next(ty, c).0 == Some(Ok(rows[0]))
    ensures Owes(ty, Next(ty, c).1, rows[1..])
    decreases ty, 1
  {
    assert rows[0].Is(ty);
    match ty
    case Bool => assert BitsIn(rows)[1..] == BitsIn(rows[1..]);
    case Fixed(kind) => NextNumberPays(kind, c, rows);
    case OptBool =>
      assert Presence(rows)[1..] == Presence(rows[1..]);
      if rows[0].Just? {
        assert Somes(rows)[1..] == Somes(rows[1..]);
      }
    case OptFixed(kind) =>
      if kind.Niche() {
        NextNichePays(kind, c, rows);
      } else {
        assert Presence(rows)[1..] == Presence(rows[1..]);
        if rows[0].Just? {
          SomesTyped(rows, ty);
          assert Somes(rows)[1..] == Somes(rows[1..]);
          NextNumberPays(kind, c.data, Somes(rows));
        }
      }
    case Seq(elem) => NextRowPays(ty, c, rows);
    case OptSeq(elem) => NextRowPays(ty, c, rows);
  }

  /** The first recorded end of a row cursor. */
  lemma {:induction false} EndsHead(start: nat, rows: seq<Val>)
    requires rows != [] && start + |Flat(rows)| < SENTINEL
    ensures var b := NumberBytes(8, Ends(start, rows)); var end := start + |Elements(rows[0])|;
            && |b| >= 8
            && FromLe(b[..8]) == (if rows[0].Nil? then SENTINEL else end)
            && b[8..] == NumberBytes(8, Ends(end, rows[1..]))
            && end + |Flat(rows[1..])| < SENTINEL
  {
    U64Range();
    NumberBytesHead(8, Ends(start, rows));
    assert |Flat(rows)| == |Elements(rows[0])| + |Flat(rows[1..])|;
  }

  lemma {:induction false} NextRowPays(ty: Type, c: Cursor, rows: seq<Val>)
    requires ty.Seq? || ty.OptSeq?
    requires rows != [] && AllAre(rows, ty) && Fits(ty, c) && Owes(ty, c, rows)
    ensures Next(ty, c).0 == Some(Ok(rows[0]))
    ensures Owes(ty, Next(ty, c).1, rows[1..])
    decreases ty, 0
  {
    var v, rest := rows[0], rows[1..];
    assert v.Is(ty);
    EndsHead(c.start, rows);
    FlatTyped(rows, ty);
    FlatTyped(rest, ty);
    assert Flat(rows) == Elements(v) + Flat(rest);
    CollectPays(ty.elem, c.data, Elements(v), Flat(rest));
    var data := Collect(ty.elem, c.data, |Elements(v)|).1;
    NextRowIs(ty, c, v, data);
  }

  /** One step of a row cursor, given its next end and what its elements decode to. */
  lemma {:induction false} NextRowIs(ty: Type, c: Cursor, v: Val, data: Cursor)
    requires (ty.Seq? || ty.OptSeq?) && v.Is(ty) && Fits(ty, c) && |c.ends| >= 8 && c.start + |Elements(v)| < SENTINEL
    requires FromLe(c.ends[..8]) == if v.Nil? then SENTINEL else c.start + |Elements(v)|
    requires Fits(ty.elem, data) && Collect(ty.elem, c.data, |Elements(v)|) == (Ok(Elements(v)), data)
    ensures Next(ty, c) == (Some(Ok(v)), Rows(c.ends[8..], c.start + |Elements(v)|, data))
  {
  }

  lemma {:induction false} CollectPays(ty: Type, c: Cursor, vs: seq<Val>, rest: seq<Val>)
    requires AllAre(vs, ty) && AllAre(rest, ty) && Fits(ty, c) && Owes(ty, c, vs + rest)
    ensures Collect(ty, c, |vs|).0 == Ok(vs)
    ensures Owes(ty, Collect(ty, c, |vs|).1, rest)
    decreases ty, |vs| + 1
  {
    if vs == [] {
      assert vs + rest == rest;
    } else {
      NextPays(ty, c, vs + rest);
      assert (vs + rest)[1..] == vs[1..] + rest;
      CollectPays(ty, Next(ty, c).1, vs[1..], rest);
      CollectStep(ty, c, vs[0], vs[1..]);
      assert [vs[0]] + vs[1..] == vs;
    }
  }

  lemma {:induction false} CollectStep(ty: Type, c: Cursor, v: Val, vs: seq<Val>)
    requires Fits(ty, c) && Next(ty, c).0 == Some(Ok(v)) && Collect(ty, Next(ty, c).1, |vs|).0 == Ok(vs)
    ensures Collect(ty, c, |vs| + 1) == (Ok([v] + vs), Collect(ty, Next(ty, c).1, |vs|).1)
  {
  }

  /** A sequence of successful reads. */
  function Oks(rows: seq<Val>): seq<Result<Val>> {
    if rows == [] then [] else [Ok(rows[0])] + Oks(rows[1..])
  }

  lemma {:induction false} PullPays(ty: Type, c: Cursor, rows: seq<Val>)
    requires AllAre(rows, ty) && Fits(ty, c) && Owes(ty, c, rows)
    ensures Pull(ty, c, |rows|) == Oks(rows)
    decreases |rows|
  {
    if rows != [] {
      var rest := PaidOne(ty, c, rows);
      PullPays(ty, rest, rows[1..]);
    }
  }

  /** A pull pays the first row; the cursor behind it owes the others. */
  lemma {:induction false} PaidOne(ty: Type, c: Cursor, rows: seq<Val>) returns (rest: Cursor)
    requires AllAre(rows, ty) && Fits(ty, c) && Owes(ty, c, rows) && rows != []
    ensures Fits(ty, rest) && AllAre(rows[1..], ty) && Owes(ty, rest, rows[1..])
    ensures Pull(ty, c, |rows|) == [Ok(rows[0])] + Pull(ty, rest, |rows| - 1)
  {
    NextPays(ty, c, rows);
    rest := Next(ty, c).1;
    PullStep(ty, c, Ok(rows[0]), rest, |rows| - 1);
  }

  lemma {:induction false} PullStep(ty: Type, c: Cursor, item: Result<Val>, rest: Cursor, n: nat)
    requires Fits(ty, c) && Fits(ty, rest) && Next(ty, c) == (Some(item), rest)
    ensures Pull(ty, c, n + 1) == [item] + Pull(ty, rest, n)
  {
  }

  /* ---------------------------------------------------------------- Framing */

  lemma {:induction false} FrameRoundTrip(body: seq<Byte>, rest: seq<Byte>)
    requires 0 < |body| <= U64_MAX
    ensures ReadFrame(Region(body) + rest) == Ok((body, rest))
  {
    U64Range();
    LeRoundTrip(|body|, 8);
    FrameParts(ToLe(|body|, 8), body, Zeros(Pad(|body|)), rest);
  }

  lemma {:induction false} FrameParts(a: seq<Byte>, b: seq<Byte>, c: seq<Byte>, d: seq<Byte>)
    ensures var src := a + b + c + d;
            && |src| == |a| + |b| + |c| + |d| && src[..|a|] == a
            && src[|a|..][..|b|] == b && src[|a|..][|b| + |c|..] == d
  {
    var rest := (a + b + c + d)[|a|..];
    assert rest[..|b|] == b;
    assert rest[|b| + |c|..] == d;
  }

  lemma {:induction false} PairRoundTrip(head: seq<Byte>, data: seq<Byte>)
    requires 0 < |head| <= U64_MAX && 0 < |data| <= U64_MAX
    ensures ReadPair(Region(head)) == Ok((head, []))
    ensures ReadPair(Region(head) + Region(data)) == Ok((head, data))
  {
    FrameRoundTrip(head, []);
    FrameRoundTrip(head, Region(data));
    FrameRoundTrip(data, []);
    assert Region(head) + [] == Region(head) && Region(data) + [] == Region(data);
  }

  /* ---------------------------------------------------------------- The round trip */

  /**
   A column can be read back unless some level of sequences is empty while its elements are framed: the
   writer omits the empty data region, and the reader then looks for a length prefix that is not there.
   */
  predicate Decodable(ty: Type, rows: seq<Val>) {
    match ty
    case Seq(elem) => if Flat(rows) == [] then !elem.Framed() else Decodable(elem, Flat(rows))
    case OptSeq(elem) => if Flat(rows) == [] then !elem.Framed() else Decodable(elem, Flat(rows))
    case _ => true
  }

  /** What the accumulator of `rows` serializes to; defined when its size check passes. */
  function Body(ty: Type, rows: seq<Val>): seq<Byte>
    requires AllAre(rows, ty) && Size(AccOf(ty, rows)).Ok?
  {
    SizeIsExact(AccOf(ty, rows));
    Serialize(AccOf(ty, rows)).value
  }

  lemma {:induction false} NoBody(elem: Type)
    ensures !elem.Framed() ==> Open(elem, []).Ok? && Owes(elem, Open(elem, []).value, [])
    ensures elem.Framed() ==> Open(elem, []) == Err(Truncated)
  {
  }

  lemma {:induction false} EndsBody(ends: seq<nat>, data: Acc)
    requires ends != [] && Joined(EndsSize(ends), data.IsEmpty(), Size(data)).Ok?
    ensures var r := SerializeEnds(ends, data.IsEmpty(), Size(data), Serialize(data));
            && r.Ok? && (!data.IsEmpty() ==> Size(data).Ok? && Serialize(data).Ok?)
            && ReadPair(r.value) == Ok((NumberBytes(8, ends), if data.IsEmpty() then [] else Serialize(data).value))
  {
    EndsExact(ends, data);
    var head := NumberBytes(8, ends);
    assert 0 < |head| <= U64_MAX by { assert EndsSize(ends).Ok?; }
    if data.IsEmpty() {
      PairRoundTrip(head, head);
    } else {
      SizeIsExact(data);
      var body := Serialize(data).value;
      assert 0 < |body| <= U64_MAX by { SizeRange(data); }
      PairRoundTrip(head, body);
    }
  }

  /** The two regions of a sequence column. */
  lemma {:induction false} RowsBody(ty: Type, rows: seq<Val>)
    requires ty.Seq? || ty.OptSeq?
    requires rows != [] && AllAre(rows, ty) && Counted(ty, rows) && Size(AccOf(ty, rows)).Ok?
    ensures AllAre(Flat(rows), ty.elem)
    ensures Flat(rows) != [] ==> Size(AccOf(ty.elem, Flat(rows))).Ok?
    ensures var data := if Flat(rows) == [] then [] else Body(ty.elem, Flat(rows));
            ReadPair(Body(ty, rows)) == Ok((NumberBytes(8, Ends(0, rows)), data))
  {
    AccIsColumnar(ty, rows);
    FlatTyped(rows, ty);
    EmptyOnlyWithoutRows(ty.elem, Flat(rows));
    ColumnLengths(rows, 0);
    EndsBody(Ends(0, rows), AccOf(ty.elem, Flat(rows)));
  }

  /** The two regions of a masked column. */
  lemma {:induction false} MaskedBody(ty: Type, rows: seq<Val>)
    requires ty.Masked() && rows != [] && AllAre(rows, ty) && Size(AccOf(ty, rows)).Ok?
    ensures AllAre(Somes(rows), ty.Inner())
    ensures var data := if ty.OptBool? then PackBits(BitsIn(Somes(rows)))
                        else NumberBytes(ty.kind.Width(), Nums(Somes(rows)));
            ReadPair(Body(ty, rows)) == Ok((PackBits(Presence(rows)), data))
  {
    AccIsColumnar(ty, rows);
    SomesTyped(rows, ty);
    ColumnLengths(rows, 0);
    ColumnLengths(Somes(rows), 0);
    var acc := AccOf(ty, rows);
    var mask := PackBits(Presence(rows));
    SizeIsExact(acc);
    FrameExact(MaskSize(acc.mask), Ok(mask));
    if acc.data.IsEmpty() {
      PairRoundTrip(mask, mask);
    } else {
      SizeIsExact(acc.data);
      FrameExact(Size(acc.data), Serialize(acc.data));
      PairRoundTrip(mask, Serialize(acc.data).value);
    }
  }

  lemma {:induction false} OpenPays(ty: Type, rows: seq<Val>)
    requires rows != [] && AllAre(rows, ty) && Counted(ty, rows) && Size(AccOf(ty, rows)).Ok?
    ensures Decodable(ty, rows) ==>
              var c := Open(ty, Body(ty, rows)); c.Ok? && Owes(ty, c.value, rows)
    ensures !Decodable(ty, rows) ==> Open(ty, Body(ty, rows)) == Err(Truncated)
    decreases ty
  {
    AccIsColumnar(ty, rows);
    match ty
    case Bool => BitsRoundTrip(BitsIn(rows));
    case Fixed(_) =>
    case OptBool =>
      MaskedBody(ty, rows);
      BitsRoundTrip(Presence(rows));
      BitsRoundTrip(BitsIn(Somes(rows)));
    case OptFixed(kind) =>
      if !kind.Niche() {
        MaskedBody(ty, rows);
        BitsRoundTrip(Presence(rows));
      }
    case Seq(elem) => OpenRowsPays(ty, rows);
    case OptSeq(elem) => OpenRowsPays(ty, rows);
  }

  lemma {:induction false} OpenRowsPays(ty: Type, rows: seq<Val>)
    requires ty.Seq? || ty.OptSeq?
    requires rows != [] && AllAre(rows, ty) && Counted(ty, rows) && Size(AccOf(ty, rows)).Ok?
    ensures Decodable(ty, rows) ==>
              var c := Open(ty, Body(ty, rows)); c.Ok? && Owes(ty, c.value, rows)
    ensures !Decodable(ty, rows) ==> Open(ty, Body(ty, rows)) == Err(Truncated)
    decreases ty, 0
  {
    RowsBody(ty, rows);
    if Flat(rows) == [] {
      NoBody(ty.elem);
    } else {
      OpenPays(ty.elem, Flat(rows));
    }
  }

  /**
   Codec round trip: reading `|rows|` items back from the serialized accumulator returns the pushed
   rows exactly when the column is decodable, for every column type at any nesting depth.
   */
  lemma {:induction false} ColumnRoundTrip(ty: Type, rows: seq<Val>)
    requires rows != [] && AllAre(rows, ty) && Counted(ty, rows) && Size(AccOf(ty, rows)).Ok?
    ensures ReadAll(ty, Body(ty, rows), |rows|) == Oks(rows) <==> Decodable(ty, rows)
    ensures !Decodable(ty, rows) ==> ReadAll(ty, Body(ty, rows), |rows|) == [Err(Truncated)]
  {
    OpenPays(ty, rows);
    if Decodable(ty, rows) {
      PullPays(ty, Open(ty, Body(ty, rows)).value, rows);
    }
  }

  lemma {:induction false} OneMasked(ty: Type, v: Val)
    requires ty.Masked() && v.Is(ty) && AllAre([v], ty) && Size(AccOf(ty, [v])).Ok?
    ensures One(ty, Body(ty, [v])) == Ok(v)
  {
    MaskedBody(ty, [v]);
    BitsRoundTrip(Presence([v]));
    assert Presence([v])[0] == v.Just?;
    if v.Just? {
      assert Somes([v]) == [v.item];
      if ty.OptBool? {
        BitsRoundTrip(BitsIn([v.item]));
        assert BitsIn([v.item])[0] == v.item.bit;
      } else {
        NextNumberPays(ty.kind, Numbers(NumberBytes(ty.kind.Width(), Nums([v.item]))), [v.item]);
      }
    }
  }

  /** The single item of a compact body is read back exactly when it is decodable. */
  lemma {:induction false} OneRoundTrip(ty: Type, v: Val)
    requires v.Is(ty) && AllAre([v], ty) && Counted(ty, [v]) && Size(AccOf(ty, [v])).Ok?
    ensures One(ty, Body(ty, [v])) == Ok(v) <==> Decodable(ty, [v])
  {
    if ty.Masked() {
      OneMasked(ty, v);
    } else {
      OpenPays(ty, [v]);
      if Decodable(ty, [v]) {
        NextPays(ty, Open(ty, Body(ty, [v])).value, [v]);
      }
    }
  }

  /** An empty list of lists is written but cannot be read back. */
  lemma {:induction false} EmptyNestedRowIsLost()
    ensures var ty, rows := Seq(Seq(Bool)), [List([])];
            && AllAre(rows, ty) && Counted(ty, rows) && Size(AccOf(ty, rows)).Ok?
            && ReadAll(ty, Body(ty, rows), 1) == [Err(Truncated)]
  {
    var ty, rows := Seq(Seq(Bool)), [List([])];
    assert rows[0].Is(ty);
    assert Flat(rows) == [];
    AccIsColumnar(ty, rows);
    ColumnRoundTrip(ty, rows);
  }
}
