/**
 Reading composite rows: one item stream per leg of a Boolean tree, all built from one settled mask and
 pulled in lockstep, with one verdict per row.
 */
module Composite {
  import opened Prelude
  import opened Types
  import opened RoundTrip
  import opened Query
  import opened Pruning
  import opened Window
  import opened Meaning
  import opened Joins

  datatype RowOutcome =
    | Accepted(row: seq<Val>)
    | Rejected(row: seq<Val>)
    | Missing
    | Broken(error: Error)

  /* ---------------------------------------------------------------- One pull */

  /** The first outcome without an item, in field order. */
  function Interrupt(heads: seq<Outcome>): Option<RowOutcome> {
    if heads == [] then None
    else
      match heads[0]
      case Failure(e) => Some(Broken(e))
      case Absent => Some(Missing)
      case _ => Interrupt(heads[1..])
  }

  predicate Carried(o: Outcome) {
    o.Include? || o.Exclude?
  }

  /** What one row becomes, given the outcome of every field. */
  function Judged(t: Tree, heads: seq<Outcome>): RowOutcome
    requires |heads| == |Legs(t)|
  {
    var interrupt := Interrupt(heads);
    if interrupt.Some? then interrupt.value
    else
      InterruptsOnly(heads);
      var row := seq(|heads|, l requires 0 <= l < |heads| => heads[l].item);
      if Decide(t, seq(|heads|, l requires 0 <= l < |heads| => heads[l].Include?)) then Accepted(row) else Rejected(row)
  }

  lemma {:induction false} InterruptsOnly(heads: seq<Outcome>)
    ensures Interrupt(heads).None? <==> forall l :: 0 <= l < |heads| ==> Carried(heads[l])
  {
    if heads != [] {
      InterruptsOnly(heads[1..]);
      assert forall l :: 0 < l < |heads| ==> heads[l] == heads[1..][l - 1];
    }
  }

  /** The generated reader: one stream per field. */
  class Reader {
    const t: Tree
    var streams: seq<seq<Outcome>>

    constructor (t: Tree, streams: seq<seq<Outcome>>)
      ensures this.t == t && this.streams == streams
    {
      this.t, this.streams := t, streams;
    }

    /**
     Pulls every field before inspecting any, so that an item missing from one field leaves no other
     field behind.
     */
    method Next() returns (o: Option<RowOutcome>)
      requires |streams| == |Legs(t)|
      modifies this
      ensures |streams| == |Legs(t)|
      ensures o.None? <==> exists l :: 0 <= l < |streams| && old(streams)[l] == []
      ensures o.Some? ==> streams == Tails(old(streams)) && o.value == Judged(t, Heads(old(streams)))
    {
      var heads: seq<Outcome> := [];
      ghost var before := streams;
      for l := 0 to |streams|
        invariant |streams| == |before| && |heads| == l
        invariant forall k :: 0 <= k < l ==> before[k] != [] && heads[k] == before[k][0] && streams[k] == before[k][1..]
        invariant forall k :: l <= k < |before| ==> streams[k] == before[k]
      {
        if streams[l] == [] {
          return None;
        }
        heads := heads + [streams[l][0]];
        streams := streams[l := streams[l][1..]];
      }
      assert heads == Heads(before) && streams == Tails(before);
      return Some(Judged(t, heads));
    }
  }

  predicate Running(streams: seq<seq<Outcome>>) {
    forall l :: 0 <= l < |streams| ==> streams[l] != []
  }

  function Heads(streams: seq<seq<Outcome>>): (r: seq<Outcome>)
    requires Running(streams)
    ensures |r| == |streams|
  {
    seq(|streams|, l requires 0 <= l < |streams| => streams[l][0])
  }

  function Tails(streams: seq<seq<Outcome>>): (r: seq<seq<Outcome>>)
    requires Running(streams)
    ensures |r| == |streams|
  {
    seq(|streams|, l requires 0 <= l < |streams| => streams[l][1..])
  }

  /** The outcomes of all pulls. */
  function Drain(t: Tree, streams: seq<seq<Outcome>>): seq<RowOutcome>
    requires |streams| == |Legs(t)|
    decreases |streams[0]|
  {
    if !Running(streams) then [] else [Judged(t, Heads(streams))] + Drain(t, Tails(streams))
  }

  method DrainAll(reader: Reader) returns (os: seq<RowOutcome>)
    requires |reader.streams| == |Legs(reader.t)|
    modifies reader
    ensures os == Drain(reader.t, old(reader.streams))
  {
    os := [];
    assert reader.streams[0] == old(reader.streams)[0];
    ghost var all := Drain(reader.t, reader.streams);
    var going := true;
    while going
      invariant |reader.streams| == |Legs(reader.t)|
      invariant if going then all == os + Drain(reader.t, reader.streams) else all == os
      decreases going, |reader.streams[0]|
    {
      ghost var before := reader.streams;
      var o := reader.Next();
      if o.Some? {
        assert Running(before);
        os := os + [o.value];
      } else {
        assert !Running(before);
        going := false;
      }
    }
  }

  /* ---------------------------------------------------------------- Rows across columns */

  /** Columns of equal length, read across. */
  function Zip(columns: seq<seq<Val>>): (rows: seq<seq<Val>>)
    requires columns != [] && forall l :: 0 <= l < |columns| ==> |columns[l]| == |columns[0]|
    ensures |rows| == |columns[0]|
  {
    seq(|columns[0]|, k requires 0 <= k < |columns[0]| =>
      seq(|columns|, l requires 0 <= l < |columns| => columns[l][k]))
  }

  function Sift<T>(test: T -> bool, s: seq<T>): seq<T> {
    if s == [] then [] else (if test(s[0]) then [s[0]] else []) + Sift(test, s[1..])
  }

  lemma {:induction false} SiftConcat<T>(test: T -> bool, a: seq<T>, b: seq<T>)
    ensures Sift(test, a + b) == Sift(test, a) + Sift(test, b)
  {
    if a == [] {
      assert a + b == b;
    } else {
      SiftConcat(test, a[1..], b);
      assert (a + b)[1..] == a[1..] + b;
      var head := if test(a[0]) then [a[0]] else [];
      Assoc(head, Sift(test, a[1..]), Sift(test, b));
    }
  }

  /** A stronger test accepts no more, and the same only if it accepts everything the weaker one does. */
  lemma {:induction false} SiftStronger<T(!new)>(strong: T -> bool, weak: T -> bool, s: seq<T>)
    requires forall x :: x in s && strong(x) ==> weak(x)
    ensures |Sift(strong, s)| <= |Sift(weak, s)|
    ensures if forall x :: x in s && weak(x) ==> strong(x) then Sift(strong, s) == Sift(weak, s)
            else |Sift(strong, s)| < |Sift(weak, s)|
  {
    if s != [] {
      assert s == [s[0]] + s[1..] && s[0] in s;
      SiftStronger(strong, weak, s[1..]);
    }
  }

  lemma {:induction false} SiftPart<T>(test: T -> bool, m: seq<bool>, parts: seq<seq<T>>)
    requires |m| == |parts| > 0
    ensures Sift(test, RowsOf(m, parts)) == (if m[0] then Sift(test, parts[0]) else []) + Sift(test, RowsOf(m[1..], parts[1..]))
  {
    var rest := RowsOf(m[1..], parts[1..]);
    if m[0] {
      SiftConcat(test, parts[0], rest);
    } else {
      assert RowsOf(m, parts) == [] + rest == rest;
    }
  }

  /** If the weaker test accepts `x`, its part is retained and the stronger test accepts it as well. */
  predicate NotLacking<T>(strong: T -> bool, weak: T -> bool, retained: bool, x: T) {
    weak(x) ==> retained && strong(x)
  }

  /** Whether the weaker test accepts only rows of retained parts that the stronger one accepts as well. */
  ghost predicate NoneLacking<T(!new)>(strong: T -> bool, weak: T -> bool, m: seq<bool>, parts: seq<seq<T>>)
    requires |m| == |parts|
  {
    forall i, x :: 0 <= i < |m| && x in parts[i] ==> NotLacking(strong, weak, m[i], x)
  }

  /** A stronger test on some parts selects the same as a weaker test on all exactly when nothing is lacking. */
  lemma {:induction false} SiftExact<T(!new)>(strong: T -> bool, weak: T -> bool, m: seq<bool>, parts: seq<seq<T>>)
    requires |m| == |parts| && forall i, x :: 0 <= i < |m| && x in parts[i] && strong(x) ==> weak(x)
    ensures |Sift(strong, RowsOf(m, parts))| <= |Sift(weak, Concat(parts))|
    ensures if NoneLacking(strong, weak, m, parts) then Sift(strong, RowsOf(m, parts)) == Sift(weak, Concat(parts))
            else |Sift(strong, RowsOf(m, parts))| < |Sift(weak, Concat(parts))|
  {
    if m != [] {
      SiftTail(strong, weak, m, parts);
      SiftExact(strong, weak, m[1..], parts[1..]);
      SiftPart(strong, m, parts);
      SiftConcat(weak, parts[0], Concat(parts[1..]));
      SiftStronger(strong, weak, parts[0]);
      if !m[0] { SiftHead(weak, parts[0]); }
    }
  }

  lemma {:induction false} SiftTail<T(!new)>(strong: T -> bool, weak: T -> bool, m: seq<bool>, parts: seq<seq<T>>)
    requires |m| == |parts| > 0 && forall i, x :: 0 <= i < |m| && x in parts[i] && strong(x) ==> weak(x)
    ensures forall i, x :: 0 <= i < |m| - 1 && x in parts[1..][i] && strong(x) ==> weak(x)
    ensures NoneLacking(strong, weak, m, parts) <==>
              && NoneLacking(strong, weak, m[1..], parts[1..])
              && forall x :: x in parts[0] ==> NotLacking(strong, weak, m[0], x)
  {
    forall i, x | 0 <= i < |m| - 1 && x in parts[1..][i] ensures strong(x) ==> weak(x) {
      assert x in parts[i + 1];
    }
    if NoneLacking(strong, weak, m, parts) {
      forall i, x | 0 <= i < |m| - 1 && x in parts[1..][i] ensures NotLacking(strong, weak, m[1..][i], x) {
        assert x in parts[i + 1] && m[1..][i] == m[i + 1];
      }
    }
    if NoneLacking(strong, weak, m[1..], parts[1..]) && forall x :: x in parts[0] ==> NotLacking(strong, weak, m[0], x) {
      forall i, x | 0 <= i < |m| && x in parts[i] ensures NotLacking(strong, weak, m[i], x) {
        if i > 0 { assert x in parts[1..][i - 1] && m[1..][i - 1] == m[i]; }
      }
    }
  }

  lemma {:induction false} SiftHead<T(!new)>(test: T -> bool, s: seq<T>)
    ensures Sift(test, s) == [] <==> forall x :: x in s ==> !test(x)
  {
    if s != [] {
      assert s == [s[0]] + s[1..] && s[0] in s;
      SiftHead(test, s[1..]);
    }
  }

  /** The columns of the legs, buffer by buffer. */
  function Picked(data: seq<seq<seq<Val>>>, legs: seq<Joins.Leg>): (r: seq<seq<seq<Val>>>)
    requires forall l :: 0 <= l < |legs| ==> legs[l].column < |data|
    ensures |r| == |legs|
  {
    seq(|legs|, l requires 0 <= l < |legs| => data[legs[l].column])
  }

  /** Equally long columns, buffer by buffer. */
  predicate Even(picked: seq<seq<seq<Val>>>, n: nat) {
    && picked != []
    && (forall l :: 0 <= l < |picked| ==> |picked[l]| == n)
    && forall l, i :: 0 <= l < |picked| && 0 <= i < n ==> |picked[l][i]| == |picked[0][i]|
  }

  /** The rows of each buffer. */
  function RowParts(picked: seq<seq<seq<Val>>>, n: nat): (r: seq<seq<seq<Val>>>)
    requires Even(picked, n)
    ensures |r| == n
  {
    seq(n, i requires 0 <= i < n => Zip(At(picked, n, i)))
  }

  function At(picked: seq<seq<seq<Val>>>, n: nat, i: nat): (r: seq<seq<Val>>)
    requires Even(picked, n) && i < n
    ensures |r| == |picked| && forall l :: 0 <= l < |r| ==> r[l] == picked[l][i] && |r[l]| == |r[0]|
  {
    assert forall l :: 0 <= l < |picked| ==> |picked[l][i]| == |picked[0][i]|;
    seq(|picked|, l requires 0 <= l < |picked| => picked[l][i])
  }

  function Rest(picked: seq<seq<seq<Val>>>, n: nat): (r: seq<seq<seq<Val>>>)
    requires Even(picked, n) && n > 0
    ensures Even(r, n - 1)
  {
    seq(|picked|, l requires 0 <= l < |picked| => picked[l][1..])
  }

  function RowsOfAll(m: seq<bool>, picked: seq<seq<seq<Val>>>): (r: seq<seq<Val>>)
    requires Even(picked, |m|)
    ensures |r| == |picked|
  {
    seq(|picked|, l requires 0 <= l < |picked| => RowsOf(m, picked[l]))
  }

  /** Columns cut at the same buffers stay equally long under any mask, and line up row by row. */
  lemma {:induction false} ZipRows(m: seq<bool>, picked: seq<seq<seq<Val>>>)
    requires Even(picked, |m|)
    ensures forall l :: 0 <= l < |picked| ==> |RowsOf(m, picked[l])| == |RowsOf(m, picked[0])|
    ensures Zip(RowsOfAll(m, picked)) == RowsOf(m, RowParts(picked, |m|))
  {
    var all := RowsOfAll(m, picked);
    if m == [] {
      assert forall l :: 0 <= l < |picked| ==> all[l] == [];
    } else {
      var rest, head := Rest(picked, |m|), At(picked, |m|, 0);
      ZipRows(m[1..], rest);
      var behind := RowsOfAll(m[1..], rest);
      assert forall l :: 0 <= l < |picked| ==> rest[l] == picked[l][1..];
      RestParts(picked, |m|);
      if m[0] {
        assert forall l :: 0 <= l < |picked| ==> all[l] == head[l] + behind[l];
        ZipConcat(head, behind, all);
      } else {
        assert forall l :: 0 <= l < |picked| ==> all[l] == [] + behind[l] == behind[l];
        assert all == behind;
      }
    }
  }

  lemma {:induction false} RestParts(picked: seq<seq<seq<Val>>>, n: nat)
    requires Even(picked, n) && n > 0
    ensures RowParts(picked, n)[1..] == RowParts(Rest(picked, n), n - 1)
    ensures RowParts(picked, n)[0] == Zip(At(picked, n, 0))
  {
    forall i | 0 <= i < n - 1 ensures RowParts(picked, n)[1..][i] == RowParts(Rest(picked, n), n - 1)[i] {
      assert At(picked, n, i + 1) == At(Rest(picked, n), n - 1, i);
    }
  }

  lemma {:induction false} ZipConcat(a: seq<seq<Val>>, b: seq<seq<Val>>, ab: seq<seq<Val>>)
    requires |a| == |b| == |ab| > 0
    requires forall l :: 0 <= l < |a| ==> |a[l]| == |a[0]| && |b[l]| == |b[0]| && ab[l] == a[l] + b[l]
    ensures forall l :: 0 <= l < |ab| ==> |ab[l]| == |ab[0]|
    ensures Zip(ab) == Zip(a) + Zip(b)
  {
    forall k | 0 <= k < |ab[0]| ensures Zip(ab)[k] == (Zip(a) + Zip(b))[k] {
      assert forall l :: 0 <= l < |ab| ==> ab[l][k] == (a[l] + b[l])[k];
    }
  }

  /* ---------------------------------------------------------------- Lockstep */

  /** The stream of one leg. */
  function LegStream(cols: seq<Src>, leg: Joins.Leg, m: seq<bool>): seq<Outcome>
    requires leg.column < |cols| && |m| == |cols[leg.column].buffers|
  {
    var src := cols[leg.column];
    Outcomes(src, FilterItems(Every, leg.ops), m)
  }

  /** What a leg makes of one item. */
  function Tested(cols: seq<Src>, leg: Joins.Leg, v: Val): Outcome
    requires leg.column < |cols|
  {
    if Lost(leg.ops, v) then Absent
    else if Passes(KindOf(cols[leg.column].ty), leg.ops, v) then Include(Image(leg.ops, v))
    else Exclude(Image(leg.ops, v))
  }

  /** A leg's stream is its column's rows in the buffers left, each tested. */
  lemma {:induction false} LegStreamIs(cols: seq<Src>, leg: Joins.Leg, rows: seq<seq<Val>>, m: seq<bool>)
    requires leg.column < |cols| && |m| == |cols[leg.column].buffers| && Holds(cols[leg.column], rows)
    ensures |LegStream(cols, leg, m)| == |RowsOf(m, rows)|
    ensures forall k :: 0 <= k < |RowsOf(m, rows)| ==> LegStream(cols, leg, m)[k] == Tested(cols, leg, RowsOf(m, rows)[k])
  {
    var src := cols[leg.column];
    HeldReads(src, rows);
    FilteredOutcomes(src, Every, leg.ops, m);
    StreamIsRows(src.ty, src.buffers, src.mmap, m, rows);
    forall k | 0 <= k < |RowsOf(m, rows)| ensures LegStream(cols, leg, m)[k] == Tested(cols, leg, RowsOf(m, rows)[k]) {
      ThroughMeans(KindOf(src.ty), leg.ops, RowsOf(m, rows)[k]);
    }
  }

  /** No leg loses its item of the row. */
  predicate Present(legs: seq<Joins.Leg>, row: seq<Val>)
    requires |row| == |legs|
  {
    forall l :: 0 <= l < |legs| ==> !Lost(legs[l].ops, row[l])
  }

  /** The row a composite yields: every field as its leg's image of the item. */
  function ImageRow(legs: seq<Joins.Leg>, row: seq<Val>): seq<Val> {
    seq(|row|, l requires 0 <= l < |row| => if l < |legs| then Image(legs[l].ops, row[l]) else row[l])
  }

  function Images(legs: seq<Joins.Leg>, rows: seq<seq<Val>>): (r: seq<seq<Val>>)
    ensures |r| == |rows|
  {
    if rows == [] then [] else [ImageRow(legs, rows[0])] + Images(legs, rows[1..])
  }

  /** What one row becomes: missing if a leg loses its item, else accepted exactly when it satisfies the tree. */
  function RowJudged(cols: seq<Src>, n: nat, t: Tree, row: seq<Val>): RowOutcome
    requires Covers(cols, n, t)
  {
    if |row| != |Legs(t)| || !Present(Legs(t), row) then Missing
    else if Satisfies(cols, n, t, row) then Accepted(ImageRow(Legs(t), row))
    else Rejected(ImageRow(Legs(t), row))
  }

  /** The rows that satisfy the tree. */
  function Test(cols: seq<Src>, n: nat, t: Tree): seq<Val> -> bool
    requires Covers(cols, n, t)
  {
    row => |row| == |Legs(t)| && Satisfies(cols, n, t, row)
  }

  /** The rows that satisfy the tree and that no leg loses. */
  function PresentTest(cols: seq<Src>, n: nat, t: Tree): seq<Val> -> bool
    requires Covers(cols, n, t)
  {
    row => |row| == |Legs(t)| && Present(Legs(t), row) && Satisfies(cols, n, t, row)
  }

  function AcceptedRows(os: seq<RowOutcome>): seq<seq<Val>> {
    if os == [] then []
    else (if os[0].Accepted? then [os[0].row] else []) + AcceptedRows(os[1..])
  }

  /** The streams of all legs test the items of equally long columns. */
  predicate Streaming(cols: seq<Src>, t: Tree, columns: seq<seq<Val>>, streams: seq<seq<Outcome>>) {
    && |columns| == |streams| == |Legs(t)|
    && forall l :: 0 <= l < |columns| ==>
         && Legs(t)[l].column < |cols|
         && |columns[l]| == |streams[l]| == |columns[0]|
         && forall k :: 0 <= k < |columns[l]| ==> streams[l][k] == Tested(cols, Legs(t)[l], columns[l][k])
  }

  /** An absent item, and no failure, makes the row missing. */
  lemma {:induction false} InterruptMissing(heads: seq<Outcome>)
    requires forall l :: 0 <= l < |heads| ==> !heads[l].Failure?
    ensures Interrupt(heads) == if forall l :: 0 <= l < |heads| ==> Carried(heads[l]) then None else Some(Missing)
  {
    InterruptsOnly(heads);
    if heads != [] {
      InterruptMissing(heads[1..]);
    }
  }

  lemma {:induction false} OneRow(cols: seq<Src>, n: nat, t: Tree, columns: seq<seq<Val>>, streams: seq<seq<Outcome>>)
    requires Covers(cols, n, t) && Streaming(cols, t, columns, streams) && Running(streams)
    ensures Judged(t, Heads(streams)) == RowJudged(cols, n, t, seq(|columns|, l requires 0 <= l < |columns| => columns[l][0]))
  {
    var heads := Heads(streams);
    var row := seq(|columns|, l requires 0 <= l < |columns| => columns[l][0]);
    assert forall l :: 0 <= l < |heads| ==> heads[l] == Tested(cols, Legs(t)[l], row[l]);
    HeadsJudged(cols, n, t, heads, row);
  }

  lemma {:induction false} HeadsJudged(cols: seq<Src>, n: nat, t: Tree, heads: seq<Outcome>, row: seq<Val>)
    requires Covers(cols, n, t) && |heads| == |row| == |Legs(t)|
    requires forall l :: 0 <= l < |heads| ==> heads[l] == Tested(cols, Legs(t)[l], row[l])
    ensures Judged(t, heads) == RowJudged(cols, n, t, row)
  {
    InterruptMissing(heads);
    assert forall l :: 0 <= l < |heads| ==> (Carried(heads[l]) <==> !Lost(Legs(t)[l].ops, row[l]));
    if Present(Legs(t), row) {
      assert seq(|heads|, l requires 0 <= l < |heads| => heads[l].Include?) == Verdicts(cols, Legs(t), row);
      assert seq(|heads|, l requires 0 <= l < |heads| => heads[l].item) == ImageRow(Legs(t), row);
    }
  }

  function Labelled(cols: seq<Src>, n: nat, t: Tree, rows: seq<seq<Val>>): (os: seq<RowOutcome>)
    requires Covers(cols, n, t)
    ensures |os| == |rows|
  {
    if rows == [] then [] else [RowJudged(cols, n, t, rows[0])] + Labelled(cols, n, t, rows[1..])
  }

  lemma {:induction false} LabelledRows(cols: seq<Src>, n: nat, t: Tree, rows: seq<seq<Val>>)
    requires Covers(cols, n, t)
    ensures AcceptedRows(Labelled(cols, n, t, rows)) == Images(Legs(t), Sift(PresentTest(cols, n, t), rows))
    ensures forall o :: o in Labelled(cols, n, t, rows) ==> !o.Broken?
  {
    if rows != [] {
      LabelledRows(cols, n, t, rows[1..]);
      ImagesMore(Legs(t), rows[0], Sift(PresentTest(cols, n, t), rows[1..]));
    }
  }

  lemma {:induction false} ImagesMore(legs: seq<Joins.Leg>, row: seq<Val>, rest: seq<seq<Val>>)
    ensures Images(legs, [row] + rest) == [ImageRow(legs, row)] + Images(legs, rest)
    ensures [] + rest == rest && [] + Images(legs, rest) == Images(legs, rest)
  {
    assert ([row] + rest)[1..] == rest;
  }

  /**
   Lockstep: the k-th pull takes the k-th item of every column, yields exactly one outcome per row, and
   accepts a row exactly when no leg loses its item and the row satisfies the tree.
   */
  lemma {:induction false} DrainJudges(cols: seq<Src>, n: nat, t: Tree, columns: seq<seq<Val>>, streams: seq<seq<Outcome>>)
    requires Covers(cols, n, t) && Streaming(cols, t, columns, streams)
    ensures Drain(t, streams) == Labelled(cols, n, t, Zip(columns))
    decreases |columns[0]|
  {
    if columns[0] == [] {
      assert streams[0] == [];
      assert !Running(streams);
    } else {
      StreamingTails(cols, t, columns, streams);
      OneRow(cols, n, t, columns, streams);
      DrainJudges(cols, n, t, Behind(columns), Tails(streams));
      ZipBehind(columns);
      LabelledTail(cols, n, t, Zip(columns), Zip(Behind(columns)));
      DrainHead(t, streams);
    }
  }

  lemma {:induction false} DrainHead(t: Tree, streams: seq<seq<Outcome>>)
    requires |streams| == |Legs(t)| && Running(streams)
    ensures Drain(t, streams) == [Judged(t, Heads(streams))] + Drain(t, Tails(streams))
  {
  }

  lemma {:induction false} LabelledTail(cols: seq<Src>, n: nat, t: Tree, rows: seq<seq<Val>>, rest: seq<seq<Val>>)
    requires Covers(cols, n, t) && rows != [] && rows == [rows[0]] + rest
    ensures Labelled(cols, n, t, rows) == [RowJudged(cols, n, t, rows[0])] + Labelled(cols, n, t, rest)
  {
    assert rows[1..] == rest;
  }

  function Behind(columns: seq<seq<Val>>): (r: seq<seq<Val>>)
    requires forall l :: 0 <= l < |columns| ==> columns[l] != []
    ensures |r| == |columns|
  {
    seq(|columns|, l requires 0 <= l < |columns| => columns[l][1..])
  }

  lemma {:induction false} StreamingTails(cols: seq<Src>, t: Tree, columns: seq<seq<Val>>, streams: seq<seq<Outcome>>)
    requires Streaming(cols, t, columns, streams) && columns[0] != []
    ensures forall l :: 0 <= l < |columns| ==> columns[l] != []
    ensures Running(streams) && Streaming(cols, t, Behind(columns), Tails(streams))
  {
    forall l | 0 <= l < |columns|
      ensures columns[l] != [] && streams[l] != []
      ensures forall k :: 0 <= k < |columns[l]| - 1 ==> streams[l][1..][k] == Tested(cols, Legs(t)[l], columns[l][1..][k])
    {
    }
  }

  lemma {:induction false} ZipBehind(columns: seq<seq<Val>>)
    requires columns != [] && columns[0] != [] && forall l :: 0 <= l < |columns| ==> |columns[l]| == |columns[0]|
    ensures Zip(columns) == [seq(|columns|, l requires 0 <= l < |columns| => columns[l][0])] + Zip(Behind(columns))
  {
    forall k | 0 < k < |columns[0]| ensures Zip(columns)[k] == Zip(Behind(columns))[k - 1] {
      assert forall l :: 0 <= l < |columns| ==> columns[l][k] == Behind(columns)[l][k - 1];
    }
  }

  /* ---------------------------------------------------------------- Main result */

  /** The streams a composite reader is built from. */
  function Streams(cols: seq<Src>, t: Tree, m: seq<bool>): (r: seq<seq<Outcome>>)
    requires Covers(cols, |m|, t)
    ensures |r| == |Legs(t)|
  {
    seq(|Legs(t)|, l requires 0 <= l < |Legs(t)| => LegStream(cols, Legs(t)[l], m))
  }

  /** All rows of the legs' columns, read across. */
  function AllAcross(data: seq<seq<seq<Val>>>, legs: seq<Joins.Leg>): (columns: seq<seq<Val>>)
    requires forall l :: 0 <= l < |legs| ==> legs[l].column < |data|
    ensures |columns| == |legs|
  {
    seq(|legs|, l requires 0 <= l < |legs| => Concat(data[legs[l].column]))
  }

  /** The buffers a tree keeps. */
  function KeepMask(cols: seq<Src>, data: seq<seq<seq<Val>>>, t: Tree, n: nat): (m: seq<bool>)
    requires Covers(cols, n, t) && |data| == |cols|
    ensures |m| == n
  {
    seq(n, i requires 0 <= i < n => Keeps(cols, data, t, n, i))
  }

  /** Whether every row that satisfies the tree lies in a buffer the tree keeps and is lost by no leg. */
  ghost predicate NoRowLacking(cols: seq<Src>, data: seq<seq<seq<Val>>>, t: Tree, n: nat)
    requires |data| == |cols| && Covers(cols, n, t) && Even(Picked(data, Legs(t)), n)
  {
    NoneLacking(PresentTest(cols, n, t), Test(cols, n, t), KeepMask(cols, data, t, n), RowParts(Picked(data, Legs(t)), n))
  }

  /** The rows a composite reader accepts over the buffers left in the settled mask. */
  function ReadAcross(cols: seq<Src>, t: Tree, n: nat): Result<seq<seq<Val>>>
    requires Covers(cols, n, t)
  {
    var m :- ResolveTree(cols, t, Trues(n));
    Ok(AcceptedRows(Drain(t, Streams(cols, t, m))))
  }

  /** The rows of the kept buffers that satisfy the tree and that no leg loses, as they are yielded. */
  function KeptRows(cols: seq<Src>, data: seq<seq<seq<Val>>>, t: Tree, n: nat): seq<seq<Val>>
    requires |data| == |cols| && Covers(cols, n, t) && Even(Picked(data, Legs(t)), n)
  {
    Images(Legs(t), Sift(PresentTest(cols, n, t), RowsOf(KeepMask(cols, data, t, n), RowParts(Picked(data, Legs(t)), n))))
  }

  /** All rows that satisfy the tree, among all rows read across. */
  function NaiveRows(cols: seq<Src>, data: seq<seq<seq<Val>>>, t: Tree, n: nat): seq<seq<Val>>
    requires |data| == |cols| && Covers(cols, n, t) && Even(Picked(data, Legs(t)), n)
  {
    AcrossIsConcat(data, Legs(t), n);
    Images(Legs(t), Sift(Test(cols, n, t), Zip(AllAcross(data, Legs(t)))))
  }

  /**
   Composite reading, exactly: it never fails, and accepts, in order, the rows of the kept buffers that
   satisfy the tree and that no leg loses. These are all rows that satisfy the tree, among all rows read
   across, if and only if every such row lies in a kept buffer and none is lost.
   */
  lemma {:induction false} CompositeExact(cols: seq<Src>, data: seq<seq<seq<Val>>>, t: Tree, n: nat)
    requires Aligned(cols, data, n) && Covers(cols, n, t) && Suits(cols, data, t)
    ensures Even(Picked(data, Legs(t)), n) && ReadAcross(cols, t, n) == Ok(KeptRows(cols, data, t, n))
    ensures forall o :: o in Drain(t, Streams(cols, t, KeepMask(cols, data, t, n))) ==> !o.Broken?
    ensures KeptRows(cols, data, t, n) == NaiveRows(cols, data, t, n) <==> NoRowLacking(cols, data, t, n)
  {
    PickedEven(cols, data, t, n);
    TreeResolves(cols, data, t, n);
    ReadsAcross(cols, data, t, KeepMask(cols, data, t, n));
    AcrossIsConcat(data, Legs(t), n);
    TakenExact(cols, n, t, KeepMask(cols, data, t, n), RowParts(Picked(data, Legs(t)), n));
  }

  lemma {:induction false} TreeResolves(cols: seq<Src>, data: seq<seq<seq<Val>>>, t: Tree, n: nat)
    requires Aligned(cols, data, n) && Covers(cols, n, t) && Suits(cols, data, t)
    ensures ResolveTree(cols, t, Trues(n)) == Ok(KeepMask(cols, data, t, n))
  {
    TreeKeeps(cols, data, t, Trues(n));
    assert ResolveTree(cols, t, Trues(n)).value == KeepMask(cols, data, t, n);
  }

  lemma {:induction false} TakenExact(cols: seq<Src>, n: nat, t: Tree, m: seq<bool>, parts: seq<seq<seq<Val>>>)
    requires Covers(cols, n, t) && |m| == |parts|
    ensures Images(Legs(t), Sift(PresentTest(cols, n, t), RowsOf(m, parts))) == Images(Legs(t), Sift(Test(cols, n, t), Concat(parts)))
       <==> NoneLacking(PresentTest(cols, n, t), Test(cols, n, t), m, parts)
  {
    var taken, test := PresentTest(cols, n, t), Test(cols, n, t);
    forall i, row | 0 <= i < |m| && row in parts[i] && taken(row) ensures test(row) {
    }
    SiftExact(taken, test, m, parts);
  }

  /** What pulling every leg from the buffers of a mask accepts. */
  lemma {:induction false} ReadsAcross(cols: seq<Src>, data: seq<seq<seq<Val>>>, t: Tree, m: seq<bool>)
    requires Aligned(cols, data, |m|) && Covers(cols, |m|, t) && Suits(cols, data, t) && Even(Picked(data, Legs(t)), |m|)
    ensures var os := Drain(t, Streams(cols, t, m)); var n := |m|;
            && (forall o :: o in os ==> !o.Broken?)
            && AcceptedRows(os) == Images(Legs(t), Sift(PresentTest(cols, n, t), RowsOf(m, RowParts(Picked(data, Legs(t)), n))))
  {
    var picked, n := Picked(data, Legs(t)), |m|;
    ZipRows(m, picked);
    StreamsStream(cols, data, t, m);
    DrainJudges(cols, n, t, RowsOfAll(m, picked), Streams(cols, t, m));
    LabelledRows(cols, n, t, Zip(RowsOfAll(m, picked)));
  }

  /** Under conjunctions only, a row that satisfies the tree is lost by no leg. */
  lemma {:induction false} ConjunctionLosesNone(cols: seq<Src>, n: nat, t: Tree, row: seq<Val>)
    requires Covers(cols, n, t) && |row| == |Legs(t)| && Conjunctive(t) && Satisfies(cols, n, t, row)
    ensures Present(Legs(t), row)
    decreases t
  {
    match t
    case Leaf(leg) =>
      assert Verdicts(cols, Legs(t), row)[0] == Passes(KindOf(cols[leg.column].ty), leg.ops, row[0]);
      ThroughMeans(KindOf(cols[leg.column].ty), leg.ops, row[0]);
    case Node(_, a, b) =>
      var k := |Legs(a)|;
      CoversParts(cols, n, t);
      SatisfiesParts(cols, n, t, row);
      ConjunctionLosesNone(cols, n, a, row[..k]);
      ConjunctionLosesNone(cols, n, b, row[k..]);
      forall l | 0 <= l < |row| ensures !Lost(Legs(t)[l].ops, row[l]) {
        if l < k { assert row[..k][l] == row[l]; } else { assert row[k..][l - k] == row[l]; }
      }
  }

  predicate WithoutIsSome(ops: seq<Op>) {
    forall k :: 0 <= k < |ops| ==> !ops[k].IsSome?
  }

  lemma {:induction false} NothingLost(ops: seq<Op>, v: Val)
    requires WithoutIsSome(ops)
    ensures !Lost(ops, v) && Image(ops, v) == v
  {
    if ops != [] {
      NothingLost(ops[..|ops| - 1], v);
    }
  }

  /** The tree gives every absent item a naive meaning: conjunctions only, or no leg unwraps an option. */
  predicate Naively(t: Tree) {
    Conjunctive(t) || forall l :: 0 <= l < |Legs(t)| ==> WithoutIsSome(Legs(t)[l].ops)
  }

  lemma {:induction false} NaivelyPresent(cols: seq<Src>, n: nat, t: Tree, row: seq<Val>)
    requires Covers(cols, n, t) && |row| == |Legs(t)| && Naively(t) && Satisfies(cols, n, t, row)
    ensures Present(Legs(t), row)
  {
    if Conjunctive(t) {
      ConjunctionLosesNone(cols, n, t, row);
    } else {
      forall l | 0 <= l < |row| ensures !Lost(Legs(t)[l].ops, row[l]) {
        NothingLost(Legs(t)[l].ops, row[l]);
      }
    }
  }

  /**
   Composite reading preserves meaning: the rows accepted by pulling every leg from the buffers left in
   the settled mask are, in order, the rows that satisfy the tree among all rows read across.
   */
  lemma {:induction false} CompositeMeaning(cols: seq<Src>, data: seq<seq<seq<Val>>>, t: Tree, n: nat)
    requires Aligned(cols, data, n) && Covers(cols, n, t) && Suits(cols, data, t)
    requires Naively(t) && PlainLegs(cols, data, Legs(t))
    ensures Even(Picked(data, Legs(t)), n) && ReadAcross(cols, t, n) == Ok(NaiveRows(cols, data, t, n))
  {
    CompositeExact(cols, data, t, n);
    PlainRowsFound(cols, data, t, n);
  }

  lemma {:induction false} PlainRowsFound(cols: seq<Src>, data: seq<seq<seq<Val>>>, t: Tree, n: nat)
    requires Aligned(cols, data, n) && Covers(cols, n, t) && Suits(cols, data, t) && Even(Picked(data, Legs(t)), n)
    requires Naively(t) && PlainLegs(cols, data, Legs(t))
    ensures NoRowLacking(cols, data, t, n)
  {
    var taken, test, kept, parts := PresentTest(cols, n, t), Test(cols, n, t), KeepMask(cols, data, t, n), RowParts(Picked(data, Legs(t)), n);
    forall i, row | 0 <= i < n && row in parts[i] ensures NotLacking(taken, test, kept[i], row) {
      PlainRowFound(cols, data, t, n, i, row);
    }
  }

  lemma {:induction false} PlainRowFound(cols: seq<Src>, data: seq<seq<seq<Val>>>, t: Tree, n: nat, i: nat, row: seq<Val>)
    requires Aligned(cols, data, n) && Covers(cols, n, t) && Suits(cols, data, t)
    requires Naively(t) && PlainLegs(cols, data, Legs(t))
    requires Even(Picked(data, Legs(t)), n) && i < n && row in RowParts(Picked(data, Legs(t)), n)[i]
    ensures NotLacking(PresentTest(cols, n, t), Test(cols, n, t), KeepMask(cols, data, t, n)[i], row)
  {
    RowInPart(Picked(data, Legs(t)), n, i, row);
    PlainSpares(cols, data, Legs(t), n, i, row);
    SparedIsKept(cols, data, t, n, i, row);
    if Satisfies(cols, n, t, row) { NaivelyPresent(cols, n, t, row); }
  }

  /** Under a disjunction, a leg that unwraps an absent item drops a row its sibling accepts. */
  lemma {:induction false} AbsenceDropsRow(cols: seq<Src>, n: nat, v: Val)
    requires |cols| == 2 && |cols[0].buffers| == |cols[1].buffers| == n
    ensures var t, row := Node(Or, Leaf(Leg(0, [IsSome])), Leaf(Leg(1, []))), [Nil, v];
            Covers(cols, n, t) && Test(cols, n, t)(row) && RowJudged(cols, n, t, row) == Missing
  {
    var a, b := Leg(0, [IsSome]), Leg(1, []);
    var t, row := Node(Or, Leaf(a), Leaf(b)), [Nil, v];
    assert Legs(t) == [a, b] && [IsSome][..0] == [] && Image([], Nil) == Nil;
    assert Lost(Legs(t)[0].ops, row[0]);
    var keeps := Verdicts(cols, Legs(t), row);
    assert keeps[1..][0] == Passes(KindOf(cols[1].ty), [], v);
    assert Decide(t, keeps) == Combine(Or, Decide(t.a, keeps[..1]), Decide(t.b, keeps[1..]));
  }


  /** Reading whole columns across is reading buffer after buffer across. */
  lemma {:induction false} AcrossIsConcat(data: seq<seq<seq<Val>>>, legs: seq<Joins.Leg>, n: nat)
    requires forall l :: 0 <= l < |legs| ==> legs[l].column < |data|
    requires Even(Picked(data, legs), n)
    ensures var columns := AllAcross(data, legs); forall l :: 0 <= l < |columns| ==> |columns[l]| == |columns[0]|
    ensures Zip(AllAcross(data, legs)) == Concat(RowParts(Picked(data, legs), n))
  {
    var picked := Picked(data, legs);
    ZipRows(Trues(n), picked);
    AllRows(Trues(n), RowParts(picked, n));
    forall l | 0 <= l < |picked| ensures RowsOf(Trues(n), picked[l]) == Concat(picked[l]) {
      AllRows(Trues(n), picked[l]);
    }
    assert RowsOfAll(Trues(n), picked) == AllAcross(data, legs);
  }

  lemma {:induction false} PickedEven(cols: seq<Src>, data: seq<seq<seq<Val>>>, t: Tree, n: nat)
    requires Aligned(cols, data, n) && Covers(cols, n, t)
    ensures Even(Picked(data, Legs(t)), n)
  {
  }

  lemma {:induction false} StreamsStream(cols: seq<Src>, data: seq<seq<seq<Val>>>, t: Tree, m: seq<bool>)
    requires Aligned(cols, data, |m|) && Covers(cols, |m|, t) && Suits(cols, data, t) && Even(Picked(data, Legs(t)), |m|)
    requires forall l :: 0 <= l < |Legs(t)| ==> |RowsOf(m, Picked(data, Legs(t))[l])| == |RowsOf(m, Picked(data, Legs(t))[0])|
    ensures Streaming(cols, t, RowsOfAll(m, Picked(data, Legs(t))), Streams(cols, t, m))
  {
    forall l | 0 <= l < |Legs(t)|
      ensures var rows := RowsOf(m, data[Legs(t)[l].column]); var stream := LegStream(cols, Legs(t)[l], m);
              |stream| == |rows| && forall k :: 0 <= k < |rows| ==> stream[k] == Tested(cols, Legs(t)[l], rows[k])
    {
      assert SuitsLeg(cols, data, Legs(t)[l]);
      LegStreamIs(cols, Legs(t)[l], data[Legs(t)[l].column], m);
    }
  }

  lemma {:induction false} RowInPart(picked: seq<seq<seq<Val>>>, n: nat, i: nat, row: seq<Val>)
    requires Even(picked, n) && i < n && row in RowParts(picked, n)[i]
    ensures |row| == |picked| && forall l :: 0 <= l < |row| ==> row[l] in picked[l][i]
  {
    var columns := At(picked, n, i);
    var k :| 0 <= k < |Zip(columns)| && Zip(columns)[k] == row;
    assert forall l :: 0 <= l < |row| ==> row[l] == columns[l][k];
  }
}