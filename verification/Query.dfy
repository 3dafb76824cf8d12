/**
 Reading a column in two phases.

 `Resolve` walks a chain of adapters over a mask with one bit per buffer and clears the bits of buffers
 that cannot contribute. `Outcomes` then decodes the buffers whose bit is left and tests every item.
 */
module Query {
  import opened Prelude
  import opened Bytes
  import opened Types
  import opened Read
  import opened Stats
  import opened Column

  /** A column and the mapped bytes its buffers point into. Buffers are in sector order. */
  datatype Src = Src(ty: Type, buffers: seq<Stats.Buffer>, mmap: seq<Byte>)

  datatype Op =
    | Where(test: Val -> bool)
    | Range(start: Bound, end: Bound)
    | Match(item: Val)
    | OneOf(items: seq<Val>)
    | OneOfSorted(sorted: seq<nat>)
    | OneOfSet(members: set<Val>)
    | SemiJoin(keys: set<Val>)
    | AntiJoin(others: set<Val>)
    | IsSome
    | IsNone
    | Entire(op: Op)

  /** Adapters over a column, innermost first. */
  datatype Chain =
    | Whole
    | Filter(source: Chain, op: Op)
    | Skip(source: Chain, n: nat)
    | Take(source: Chain, n: nat)

  /** The resolved form of a chain. */
  datatype Items =
    | Every
    | Filtered(source: Items, op: Op)
    | Skipped(source: Items, buffer: nat, origin: nat)
    | Taken(source: Items, limit: nat, keep: nat)

  datatype Outcome =
    | Include(item: Val)
    | Exclude(item: Val)
    | Absent
    | Failure(error: Error)

  /** The item type behind a chain: `IsSome` narrows an option to its item. */
  function ItemType(ty: Type, chain: Chain): Type {
    match chain
    case Whole => ty
    case Filter(source, op) => if op.IsSome? then ItemType(ty, source).Inner() else ItemType(ty, source)
    case Skip(source, _) => ItemType(ty, source)
    case Take(source, _) => ItemType(ty, source)
  }

  function KindOf(ty: Type): Kind {
    if ty.Fixed? || ty.OptFixed? then ty.kind else Char
  }

  /* ---------------------------------------------------------------- Tests */

  /** Binary search in a sorted list. */
  predicate Found(order: Order, items: seq<nat>, x: nat) {
    var k := Leading(items, (i: nat) => Lt(order, i, x));
    k < |items| && items[k] == x
  }

  /** How a filter compares numbers: one that takes the whole option sees absent items as well. */
  function OrderOf(kind: Kind, op: Op): Order {
    if op.Entire? then Lifted(kind) else kind
  }

  /** The bit pattern an operand is compared by; an absent operand is compared by the pattern it is stored as. */
  function Pattern(order: Order, v: Val): Option<nat> {
    match order
    case Lifted(item) =>
      if v.Nil? then Some(item.Absent()) else if v.Just? && v.item.Num? then Some(v.item.num) else None
    case _ => if v.Num? then Some(v.num) else None
  }

  /** The test of `op` on one operand. Bounds and sorted candidates are given as bit patterns. */
  predicate Accepts(order: Order, op: Op, v: Val) {
    match op
    case Where(test) => test(v)
    case Range(start, end) => Pattern(order, v).Some? && Contains(order, start, end, Pattern(order, v).value)
    case Match(item) => BitMatch(item, v)
    case OneOf(items) => exists i :: 0 <= i < |items| && BitMatch(v, items[i])
    case OneOfSorted(sorted) => Pattern(order, v).Some? && Found(order, sorted, Pattern(order, v).value)
    case OneOfSet(members) => v in members
    case SemiJoin(keys) => v in keys
    case AntiJoin(others) => v !in others
    case _ => false
  }

  /**
   The test of `op` on one row. A filter takes the item of an option for its operand, which absent rows do
   not have, or the option as a whole; only `IsNone` and the latter can be satisfied by an absent row.
   */
  predicate Evaluate(kind: Kind, op: Op, row: Val) {
    match op
    case IsSome => row.Just?
    case IsNone => row.Nil?
    case Entire(test) => Accepts(Lifted(kind), test, row)
    case _ => if row.Nil? then false else if row.Just? then Accepts(kind, op, row.item) else Accepts(kind, op, row)
  }

  predicate Admits(order: Order, lo: nat, hi: nat, v: Val) {
    Pattern(order, v).Some? && Spans(order, lo, hi, Pattern(order, v).value)
  }

  /** Whether statistics `lo ..= hi` leave room for an accepted item. */
  predicate SpanAdmits(order: Order, op: Op, lo: nat, hi: nat) {
    match op
    case Range(start, end) => !Disjoint(order, lo, hi, start, end)
    case Match(item) => Admits(order, lo, hi, item)
    case OneOf(items) => exists i :: 0 <= i < |items| && Admits(order, lo, hi, items[i])
    case OneOfSorted(sorted) =>
      Leading(sorted, (i: nat) => Lt(order, i, lo)) < Leading(sorted, (i: nat) => Le(order, i, hi))
    case OneOfSet(members) => exists v :: v in members && Admits(order, lo, hi, v)
    case SemiJoin(keys) => exists v :: v in keys && Admits(order, lo, hi, v)
    case _ => true
  }

  /** The test itself, whatever it takes for its operand. */
  function Core(op: Op): Op {
    if op.Entire? then op.op else op
  }

  /** Filters that consult statistics; the others can only judge compact buffers. */
  predicate UsesStatistics(op: Op) {
    !Core(op).Where? && !Core(op).AntiJoin? && !Core(op).IsSome? && !Core(op).IsNone?
  }

  /** One item read where a statistic points; a whole option reads the absent pattern as absence. */
  function Statistic(order: Order, s: Sector, mmap: seq<Byte>): Result<nat> {
    var bytes :- s.Slice(mmap);
    var (n, _) :- ReadNumber(order.Width(), bytes);
    var _ :- Need(order.Valid(n), Invalid);
    Ok(n)
  }

  /** Whether a buffer may hold rows that pass `op`, for a chain whose items have type `ty`. */
  function Judge(ty: Type, op: Op, b: Stats.Buffer, mmap: seq<Byte>): Result<bool> {
    var kind := KindOf(ty);
    match b
    case Compact(sector, _) =>
      var bytes :- sector.Slice(mmap);
      var item :- One(ty, bytes);
      Ok(Evaluate(kind, op, item))
    case Basic(_, _) => Ok(true)
    case Detailed(_, _, min, max) =>
      if !UsesStatistics(op) then Ok(true)
      else
        var lo :- Statistic(OrderOf(kind, op), min, mmap);
        var hi :- Statistic(OrderOf(kind, op), max, mmap);
        Ok(SpanAdmits(OrderOf(kind, op), Core(op), lo, hi))
  }

  /* ---------------------------------------------------------------- Phase one, specified */

  /** The mask after `op` has judged every buffer whose bit is set. */
  function Pruned(ty: Type, op: Op, bufs: seq<Stats.Buffer>, mmap: seq<Byte>, mask: seq<bool>): (r: Result<seq<bool>>)
    requires |bufs| == |mask|
    ensures r.Ok? ==> |r.value| == |mask|
  {
    if mask == [] then Ok([])
    else
      var bit :- if mask[0] then Judge(ty, op, bufs[0], mmap) else Ok(false);
      var rest :- Pruned(ty, op, bufs[1..], mmap, mask[1..]);
      Ok([bit] + rest)
  }

  /** Clears the buffers a skip covers whole; returns the mask, the buffer it ends in and the rest. */
  function SkipFrom(counts: seq<nat>, mask: seq<bool>, n: nat): (r: (seq<bool>, nat, nat))
    requires |counts| == |mask|
    ensures |r.0| == |mask| && r.1 <= |mask|
  {
    if mask == [] then ([], 0, n)
    else if !mask[0] then
      var (m, b, o) := SkipFrom(counts[1..], mask[1..], n);
      ([false] + m, b + 1, o)
    else if counts[0] <= n then
      var (m, b, o) := SkipFrom(counts[1..], mask[1..], n - counts[0]);
      ([false] + m, b + 1, o)
    else (mask, 0, n)
  }

  /** Clears the buffers behind a take; returns the mask, the last buffer and the items kept of it. */
  function TakeFrom(counts: seq<nat>, mask: seq<bool>, n: nat): (r: (seq<bool>, nat, nat))
    requires |counts| == |mask|
    ensures |r.0| == |mask| && r.1 <= |mask|
  {
    if mask == [] then ([], 0, n)
    else if !mask[0] then
      var (m, b, k) := TakeFrom(counts[1..], mask[1..], n);
      ([false] + m, b + 1, k)
    else if counts[0] < n then
      var (m, b, k) := TakeFrom(counts[1..], mask[1..], n - counts[0]);
      ([true] + m, b + 1, k)
    else ([true] + Falses(|mask| - 1), 0, n)
  }

  function Counts(bufs: seq<Stats.Buffer>): (c: seq<nat>)
    ensures |c| == |bufs|
  {
    seq(|bufs|, i requires 0 <= i < |bufs| => bufs[i].count)
  }

  /** Position of the first wanted item among the items of the buffers left in `mask`. */
  function Origin(items: Items, mask: seq<bool>): nat {
    match items
    case Every => 0
    case Filtered(source, _) => Origin(source, mask)
    case Skipped(source, buffer, origin) =>
      SatAdd(Origin(source, mask), if buffer < |mask| && mask[buffer] then origin else 0)
    case Taken(source, _, _) => Origin(source, mask)
  }

  function Resolve(src: Src, chain: Chain, mask: seq<bool>): (r: Result<(Items, seq<bool>)>)
    requires |mask| == |src.buffers|
    ensures r.Ok? ==> |r.value.1| == |mask|
  {
    match chain
    case Whole => Ok((Every, mask))
    case Filter(source, op) =>
      var (items, m) :- Resolve(src, source, mask);
      var m' :- Pruned(ItemType(src.ty, source), op, src.buffers, src.mmap, m);
      Ok((Filtered(items, op), m'))
    case Skip(source, n) =>
      var (items, m) :- Resolve(src, source, mask);
      var (m', buffer, origin) := SkipFrom(Counts(src.buffers), m, n);
      Ok((Skipped(items, buffer, origin), m'))
    case Take(source, n) =>
      var (items, m) :- Resolve(src, source, mask);
      var (m', limit, keep) := TakeFrom(Counts(src.buffers), m, SatAdd(n, Origin(items, m)));
      Ok((Taken(items, limit, keep), m'))
  }

  /* ---------------------------------------------------------------- Phase one, in place */

  method TryExclude(ty: Type, op: Op, bufs: seq<Stats.Buffer>, mmap: seq<Byte>, mask: array<bool>)
    returns (r: Result<nat>)
    requires mask.Length == |bufs|
    modifies mask
    ensures match Pruned(ty, op, bufs, mmap, old(mask[..]))
            case Ok(m) => mask[..] == m && r == Ok(Ones(m))
            case Err(e) => r == Err(e)
  {
    var n := 0;
    ghost var before, done := mask[..], [];
    ghost var all := Pruned(ty, op, bufs, mmap, before);
    PrunedStart(ty, op, bufs, mmap, before);
    for i := 0 to mask.Length
      invariant |done| == i && n == Ones(done)
      invariant forall k :: 0 <= k < i ==> mask[k] == done[k]
      invariant forall k :: i <= k < mask.Length ==> mask[k] == before[k]
      invariant all == PrunedOn(ty, op, bufs, mmap, before, done)
    {
      PrunedAdvances(ty, op, bufs, mmap, before, done);
      if mask[i] {
        var keep := Judge(ty, op, bufs[i], mmap);
        if keep.Err? {
          return Err(keep.error);
        }
        if keep.value {
          n := n + 1;
        } else {
          mask[i] := false;
        }
      }
      OnesOfAppended(done, mask[i]);
      done := done + [mask[i]];
    }
    PrunedEnd(ty, op, bufs, mmap, before, done);
    assert mask[..] == done;
    return Ok(n);
  }

  /** The result of a pass whose first bits are `done`. */
  function PrunedOn(ty: Type, op: Op, bufs: seq<Stats.Buffer>, mmap: seq<Byte>, mask: seq<bool>, done: seq<bool>): Result<seq<bool>>
    requires |done| <= |bufs| == |mask|
  {
    Prefixed(done, Pruned(ty, op, bufs[|done|..], mmap, mask[|done|..]))
  }

  lemma {:induction false} PrunedStart(ty: Type, op: Op, bufs: seq<Stats.Buffer>, mmap: seq<Byte>, mask: seq<bool>)
    requires |bufs| == |mask|
    ensures PrunedOn(ty, op, bufs, mmap, mask, []) == Pruned(ty, op, bufs, mmap, mask)
  {
    assert mask[0..] == mask && bufs[0..] == bufs;
    PrefixedNone(Pruned(ty, op, bufs, mmap, mask));
  }

  lemma {:induction false} PrunedEnd(ty: Type, op: Op, bufs: seq<Stats.Buffer>, mmap: seq<Byte>, mask: seq<bool>, done: seq<bool>)
    requires |bufs| == |mask| == |done|
    ensures PrunedOn(ty, op, bufs, mmap, mask, done) == Ok(done)
  {
    assert done + [] == done;
  }

  /** One buffer judged: its bit joins what is done, or its error ends the pass. */
  lemma {:induction false} PrunedAdvances(ty: Type, op: Op, bufs: seq<Stats.Buffer>, mmap: seq<Byte>, mask: seq<bool>, done: seq<bool>)
    requires |done| < |bufs| == |mask|
    ensures var i, rest := |done|, PrunedOn(ty, op, bufs, mmap, mask, done);
            if !mask[i] then rest == PrunedOn(ty, op, bufs, mmap, mask, done + [false])
            else
              match Judge(ty, op, bufs[i], mmap)
              case Err(e) => rest == Err(e)
              case Ok(bit) => rest == PrunedOn(ty, op, bufs, mmap, mask, done + [bit])
  {
    var i := |done|;
    PrunedHead(ty, op, bufs[i..], mmap, mask[i..]);
    assert bufs[i..][0] == bufs[i] && bufs[i..][1..] == bufs[i + 1..] && mask[i..][0] == mask[i] && mask[i..][1..] == mask[i + 1..];
    var rest := Pruned(ty, op, bufs[i + 1..], mmap, mask[i + 1..]);
    PrefixedTwice(done, true, rest);
    PrefixedTwice(done, false, rest);
  }

  lemma {:induction false} PrunedHead(ty: Type, op: Op, bufs: seq<Stats.Buffer>, mmap: seq<Byte>, mask: seq<bool>)
    requires |bufs| == |mask| > 0
    ensures var rest := Pruned(ty, op, bufs[1..], mmap, mask[1..]);
            Pruned(ty, op, bufs, mmap, mask)
            == if !mask[0] then Prefixed([false], rest)
               else
                 match Judge(ty, op, bufs[0], mmap)
                 case Err(e) => Err(e)
                 case Ok(bit) => Prefixed([bit], rest)
  {
  }

  function Ones(mask: seq<bool>): nat {
    if mask == [] then 0 else (if mask[0] then 1 else 0) + Ones(mask[1..])
  }

  lemma {:induction false} OnesOfAppended(mask: seq<bool>, bit: bool)
    ensures Ones(mask + [bit]) == Ones(mask) + if bit then 1 else 0
  {
    if mask != [] {
      OnesOfAppended(mask[1..], bit);
      assert (mask + [bit])[1..] == mask[1..] + [bit];
    }
  }

  /** The result of a skip over all buffers, given the one over the buffers from `i` on. */
  function SkipOn(i: nat, r: (seq<bool>, nat, nat)): (seq<bool>, nat, nat) {
    (Falses(i) + r.0, i + r.1, r.2)
  }

  /** The result of a skip whose walk has come to buffer `i` with `n` items left to skip. */
  function SkipAfter(counts: seq<nat>, mask: seq<bool>, i: nat, n: nat): (seq<bool>, nat, nat)
    requires i <= |counts| == |mask|
  {
    SkipOn(i, SkipFrom(counts[i..], mask[i..], n))
  }

  lemma {:induction false} SkipBegins(counts: seq<nat>, mask: seq<bool>, n: nat)
    requires |counts| == |mask|
    ensures SkipAfter(counts, mask, 0, n) == SkipFrom(counts, mask, n)
  {
    assert counts[0..] == counts && mask[0..] == mask && Falses(0) + SkipFrom(counts, mask, n).0 == SkipFrom(counts, mask, n).0;
  }

  lemma {:induction false} SkipAdvances(counts: seq<nat>, mask: seq<bool>, i: nat, n: nat)
    requires |counts| == |mask| && i < |mask| && (mask[i] ==> counts[i] <= n)
    ensures SkipAfter(counts, mask, i, n) == SkipAfter(counts, mask, i + 1, if mask[i] then n - counts[i] else n)
  {
    assert counts[i..][0] == counts[i] && counts[i..][1..] == counts[i + 1..];
    assert mask[i..][0] == mask[i] && mask[i..][1..] == mask[i + 1..];
    var rest := SkipFrom(counts[i + 1..], mask[i + 1..], if mask[i] then n - counts[i] else n);
    assert Falses(i) + ([false] + rest.0) == Falses(i + 1) + rest.0;
  }

  lemma {:induction false} SkipStops(counts: seq<nat>, mask: seq<bool>, i: nat, n: nat)
    requires |counts| == |mask| && i <= |mask| && (i < |mask| ==> mask[i] && counts[i] > n)
    ensures SkipAfter(counts, mask, i, n) == (Falses(i) + mask[i..], i, n)
  {
    if i < |mask| { assert counts[i..][0] == counts[i] && mask[i..][0] == mask[i]; }
  }

  method SkipBuffers(bufs: seq<Stats.Buffer>, mask: array<bool>, skip: nat) returns (buffer: nat, origin: nat)
    requires mask.Length == |bufs|
    modifies mask
    ensures (mask[..], buffer, origin) == SkipFrom(Counts(bufs), old(mask[..]), skip)
  {
    origin := skip;
    buffer := 0;
    ghost var counts, before := Counts(bufs), mask[..];
    SkipBegins(counts, before, skip);
    while buffer < mask.Length
      invariant 0 <= buffer <= mask.Length
      invariant forall k :: 0 <= k < buffer ==> !mask[k]
      invariant forall k :: buffer <= k < mask.Length ==> mask[k] == before[k]
      invariant SkipFrom(counts, before, skip) == SkipAfter(counts, before, buffer, origin)
    {
      if mask[buffer] && bufs[buffer].count > origin {
        break;
      }
      SkipAdvances(counts, before, buffer, origin);
      if mask[buffer] {
        origin := origin - bufs[buffer].count;
        mask[buffer] := false;
      }
      buffer := buffer + 1;
    }
    SkipStops(counts, before, buffer, origin);
    assert mask[..] == Falses(buffer) + before[buffer..];
  }

  /** The result of a take over all buffers, given the one over the buffers behind `done`. */
  function TakeOn(done: seq<bool>, r: (seq<bool>, nat, nat)): (seq<bool>, nat, nat) {
    (done + r.0, |done| + r.1, r.2)
  }

  lemma {:induction false} TakeAdvances(counts: seq<nat>, mask: seq<bool>, i: nat, n: nat)
    requires |counts| == |mask| && i < |mask| && (mask[i] ==> counts[i] < n)
    ensures TakeOn(mask[..i], TakeFrom(counts[i..], mask[i..], n))
         == TakeOn(mask[..i + 1], TakeFrom(counts[i + 1..], mask[i + 1..], if mask[i] then n - counts[i] else n))
  {
    assert counts[i..][0] == counts[i] && counts[i..][1..] == counts[i + 1..];
    assert mask[i..][0] == mask[i] && mask[i..][1..] == mask[i + 1..];
    var rest := TakeFrom(counts[i + 1..], mask[i + 1..], if mask[i] then n - counts[i] else n);
    assert mask[..i] + ([mask[i]] + rest.0) == mask[..i + 1] + rest.0;
  }

  lemma {:induction false} TakeStops(counts: seq<nat>, mask: seq<bool>, i: nat, n: nat)
    requires |counts| == |mask| && i < |mask| && mask[i] && counts[i] >= n
    ensures TakeOn(mask[..i], TakeFrom(counts[i..], mask[i..], n)) == (mask[..i + 1] + Falses(|mask| - i - 1), i, n)
  {
    assert counts[i..][0] == counts[i] && mask[i..][0] == mask[i];
    assert mask[..i] + ([true] + Falses(|mask| - i - 1)) == mask[..i + 1] + Falses(|mask| - i - 1);
  }

  method TakeBuffers(bufs: seq<Stats.Buffer>, mask: array<bool>, take: nat) returns (limit: nat, keep: nat)
    requires mask.Length == |bufs|
    modifies mask
    ensures (mask[..], limit, keep) == TakeFrom(Counts(bufs), old(mask[..]), take)
  {
    keep := take;
    limit := 0;
    ghost var counts, before := Counts(bufs), mask[..];
    assert counts[0..] == counts && before[0..] == before && before[..0] + TakeFrom(counts, before, take).0 == TakeFrom(counts, before, take).0;
    while limit < mask.Length
      invariant 0 <= limit <= mask.Length && mask[..] == before
      invariant TakeFrom(counts, before, take) == TakeOn(before[..limit], TakeFrom(counts[limit..], before[limit..], keep))
    {
      assert mask[limit] == before[limit] && counts[limit] == bufs[limit].count;
      if mask[limit] {
        if bufs[limit].count < keep {
          TakeAdvances(counts, before, limit, keep);
          keep := keep - bufs[limit].count;
        } else {
          TakeStops(counts, before, limit, keep);
          ClearBehind(mask, limit);
          return;
        }
      } else {
        TakeAdvances(counts, before, limit, keep);
      }
      limit := limit + 1;
    }
    assert before[..limit] + [] == before;
  }

  /** Clears every bit behind position `at`. */
  method ClearBehind(mask: array<bool>, at: nat)
    requires at < mask.Length
    modifies mask
    ensures mask[..] == old(mask[..at + 1]) + Falses(mask.Length - at - 1)
  {
    for i := at + 1 to mask.Length
      invariant mask[..i] == old(mask[..at + 1]) + Falses(i - at - 1)
    {
      mask[i] := false;
      assert mask[..i + 1] == mask[..i] + [false];
    }
    assert mask[..] == mask[..mask.Length];
  }

  method ResolveChain(src: Src, chain: Chain, mask: array<bool>) returns (r: Result<Items>)
    requires mask.Length == |src.buffers|
    modifies mask
    ensures match Resolve(src, chain, old(mask[..]))
            case Ok((items, m)) => r == Ok(items) && mask[..] == m
            case Err(e) => r == Err(e)
    decreases chain
  {
    match chain
    case Whole =>
      r := Ok(Every);
    case Filter(source, op) =>
      r := ResolveChain(src, source, mask);
      if r.Ok? {
        var n := TryExclude(ItemType(src.ty, source), op, src.buffers, src.mmap, mask);
        r := if n.Ok? then Ok(Filtered(r.value, op)) else Err(n.error);
      }
    case Skip(source, n) =>
      r := ResolveChain(src, source, mask);
      if r.Ok? {
        var buffer, origin := SkipBuffers(src.buffers, mask, n);
        r := Ok(Skipped(r.value, buffer, origin));
      }
    case Take(source, n) =>
      r := ResolveChain(src, source, mask);
      if r.Ok? {
        var limit, keep := TakeBuffers(src.buffers, mask, SatAdd(n, Origin(r.value, mask[..])));
        r := Ok(Taken(r.value, limit, keep));
      }
  }

  /* ---------------------------------------------------------------- Phase two */

  function FromRead(r: Result<Val>): Outcome {
    match r
    case Ok(v) => Include(v)
    case Err(e) => Failure(e)
  }

  function FromReads(rs: seq<Result<Val>>): seq<Outcome> {
    if rs == [] then [] else [FromRead(rs[0])] + FromReads(rs[1..])
  }

  /** The items of the buffers whose bit is set, in buffer order. */
  function Stream(ty: Type, bufs: seq<Stats.Buffer>, mmap: seq<Byte>, mask: seq<bool>): seq<Outcome>
    requires |bufs| == |mask|
  {
    if mask == [] then []
    else
      (if mask[0] then FromReads(ReadBuffer(ty, bufs[0], mmap)) else [])
      + Stream(ty, bufs[1..], mmap, mask[1..])
  }

  /** One filter applied to one outcome; only included items are tested. */
  function Apply(kind: Kind, op: Op, o: Outcome): Outcome {
    match o
    case Include(v) =>
      if op.IsSome? then (if v.Just? then Include(v.item) else Absent)
      else if Evaluate(kind, op, v) then o
      else Exclude(v)
    case Exclude(v) =>
      if op.IsSome? then (if v.Just? then Exclude(v.item) else Absent) else o
    case _ => o
  }

  function ApplyAll(kind: Kind, op: Op, os: seq<Outcome>): (r: seq<Outcome>)
    ensures |r| == |os|
  {
    if os == [] then [] else [Apply(kind, op, os[0])] + ApplyAll(kind, op, os[1..])
  }

  /** Items wanted up to the end of a take, counted over the buffers left in `mask`. */
  function Quota(counts: seq<nat>, mask: seq<bool>, limit: nat, keep: nat): nat
    requires |counts| == |mask|
  {
    if mask == [] then 0
    else if limit == 0 then (if mask[0] then keep else 0)
    else (if mask[0] then counts[0] else 0) + Quota(counts[1..], mask[1..], limit - 1, keep)
  }

  function First<T>(n: nat, s: seq<T>): seq<T> {
    if n < |s| then s[..n] else s
  }

  function Drop<T>(n: nat, s: seq<T>): seq<T> {
    if n < |s| then s[n..] else []
  }

  function Outcomes(src: Src, items: Items, mask: seq<bool>): seq<Outcome>
    requires |mask| == |src.buffers|
  {
    match items
    case Every => Stream(src.ty, src.buffers, src.mmap, mask)
    case Filtered(source, op) => ApplyAll(KindOf(src.ty), op, Outcomes(src, source, mask))
    case Skipped(source, _, _) => Outcomes(src, source, mask)
    case Taken(source, limit, keep) => First(Quota(Counts(src.buffers), mask, limit, keep), Outcomes(src, source, mask))
  }

  /** A full mask. */
  function Trues(n: nat): (m: seq<bool>)
    ensures |m| == n
  {
    seq(n, _ => true)
  }

  /** The stream a query yields. */
  function Run(src: Src, chain: Chain): Result<seq<Outcome>> {
    var (items, mask) :- Resolve(src, chain, Trues(|src.buffers|));
    Ok(Drop(Origin(items, mask), Outcomes(src, items, mask)))
  }

  function IncludedItems(os: seq<Outcome>): seq<Val> {
    if os == [] then []
    else if os[0].Include? then [os[0].item] + IncludedItems(os[1..])
    else IncludedItems(os[1..])
  }
}
