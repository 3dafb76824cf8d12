/**
 The generated reader as a whole: its bindings, its streams and its verdict are those of the Boolean tree.
 */
module Generated {
  import opened Prelude
  import opened Query
  import opened Joins
  import opened Composite
  import opened Derive

  /** The generated constructor binds every field by unpacking the resolved tree. */
  function Bindings(t: Tree, count: nat): Option<map<nat, Tree>>
    requires count > 0
  {
    Execute(if count == 1 then [Only] else StepsFrom(count - 1), t, map[])
  }

  /** One stream per field, each built from the leg bound to it. */
  function BoundStreams(cols: seq<Src>, bound: map<nat, Tree>, count: nat, m: seq<bool>): (r: Option<seq<seq<Outcome>>>)
    ensures r.Some? ==> |r.value| == count
  {
    if forall k :: 0 <= k < count ==> Streamable(cols, bound, k, m) then
      Some(seq(count, k requires 0 <= k < count => assert Streamable(cols, bound, k, m); LegStream(cols, bound[k].leg, m)))
    else None
  }

  predicate Streamable(cols: seq<Src>, bound: map<nat, Tree>, k: nat, m: seq<bool>) {
    k in bound && bound[k].Leaf? && bound[k].leg.column < |cols| && |cols[bound[k].leg.column].buffers| == |m|
  }

  /** One row, decided by the verdict expression; `None` if the expression has no value. */
  function JudgedBy(verdict: Expr, env: map<Name, Tree>, heads: seq<Outcome>): Option<RowOutcome> {
    var interrupt := Interrupt(heads);
    if interrupt.Some? then interrupt
    else
      InterruptsOnly(heads);
      var row := seq(|heads|, l requires 0 <= l < |heads| => heads[l].item);
      match Value(verdict, env, seq(|heads|, l requires 0 <= l < |heads| => heads[l].Include?))
      case None => None
      case Some(keep) => Some(if keep then Accepted(row) else Rejected(row))
  }

  /** The outcomes of all pulls of the generated iterator. */
  function DrainBy(verdict: Expr, env: map<Name, Tree>, streams: seq<seq<Outcome>>): Option<seq<RowOutcome>>
    requires streams != []
    decreases |streams[0]|
  {
    if !Running(streams) then Some([])
    else
      match (JudgedBy(verdict, env, Heads(streams)), DrainBy(verdict, env, Tails(streams)))
      case (Some(o), Some(rest)) => Some([o] + rest)
      case _ => None
  }

  /** Everything the generated code reads from a resolved tree and its settled mask. */
  function GeneratedRows(cols: seq<Src>, env: map<Name, Tree>, count: nat, m: seq<bool>): Option<seq<RowOutcome>>
    requires count > 0 && Root in env
  {
    match Bindings(env[Root], count)
    case None => None
    case Some(bound) =>
      match BoundStreams(cols, bound, count, m)
      case None => None
      case Some(streams) => DrainBy(FoldUpTo(count, count - 1), env, streams)
  }

  lemma {:induction false} BoundStreamsAreLegs(cols: seq<Src>, t: Tree, m: seq<bool>)
    requires LeftNested(t) && Covers(cols, |m|, t)
    ensures var bound := Bindings(t, |Legs(t)|); bound.Some? && BoundStreams(cols, bound.value, |Legs(t)|, m) == Some(Streams(cols, t, m))
  {
    var count := |Legs(t)|;
    UnpackBinds(t, map[]);
    if count == 1 { assert t.Leaf?; }
    var bound := Bindings(t, count).value;
    assert bound == Fields(Legs(t));
    forall k | 0 <= k < count ensures Streamable(cols, bound, k, m) && bound[k] == Leaf(Legs(t)[k]) {
    }
    assert BoundStreams(cols, bound, count, m).value == Streams(cols, t, m);
  }

  /** Judging by the folded verdict is judging by the tree. */
  lemma {:induction false} VerdictJudges(env: map<Name, Tree>, t: Tree, heads: seq<Outcome>)
    requires LeftNested(t) && |heads| == |Legs(t)| && (t.Node? ==> Root in env && env[Root] == t)
    requires MeetsAll(env, AscentFrom(Root, |Legs(t)| - 1))
    ensures JudgedBy(FoldUpTo(|heads|, |heads| - 1), env, heads) == Some(Judged(t, heads))
  {
    var keeps := seq(|heads|, l requires 0 <= l < |heads| => heads[l].Include?);
    if |heads| > 1 { assert t.Node?; }
    VerdictDecides(env, t, |heads|, |heads| - 1, keeps);
    assert keeps[..|heads|] == keeps;
  }

  /**
   The generated verdict over one operator: all legs for a conjunction, some leg for a disjunction, an odd
   number of legs for an exclusive disjunction, at every number of fields.
   */
  lemma {:induction false} OneOperatorVerdict(env: map<Name, Tree>, t: Tree, join: Join, keeps: seq<bool>)
    requires LeftNested(t) && Throughout(t, join) && |keeps| == |Legs(t)| && (t.Node? ==> Root in env && env[Root] == t)
    requires MeetsAll(env, AscentFrom(Root, |Legs(t)| - 1))
    ensures var verdict := Value(FoldUpTo(|keeps|, |keeps| - 1), env, keeps);
            && verdict.Some?
            && (join.And? ==> (verdict.value <==> forall l :: 0 <= l < |keeps| ==> keeps[l]))
            && (join.Or? ==> (verdict.value <==> exists l :: 0 <= l < |keeps| && keeps[l]))
            && (join.Xor? ==> (verdict.value <==> Ones(keeps) % 2 == 1))
  {
    if |keeps| > 1 { assert t.Node?; }
    VerdictDecides(env, t, |keeps|, |keeps| - 1, keeps);
    assert keeps[..|keeps|] == keeps;
    OneOperator(t, join, keeps);
  }

  lemma {:induction false} VerdictDrains(env: map<Name, Tree>, t: Tree, streams: seq<seq<Outcome>>)
    requires LeftNested(t) && |streams| == |Legs(t)| && (t.Node? ==> Root in env && env[Root] == t)
    requires MeetsAll(env, AscentFrom(Root, |Legs(t)| - 1))
    ensures DrainBy(FoldUpTo(|streams|, |streams| - 1), env, streams) == Some(Drain(t, streams))
    decreases |streams[0]|
  {
    if Running(streams) {
      VerdictJudges(env, t, Heads(streams));
      VerdictDrains(env, t, Tails(streams));
    }
  }

  /**
   Whatever source meets the generated bounds is a left-nested tree with one leg per field, and the
   generated bindings, streams and verdict read from it exactly what the tree asks for, at every number of
   fields.
   */
  lemma {:induction false} GeneratedIsComposite(cols: seq<Src>, env: map<Name, Tree>, count: nat, m: seq<bool>)
    requires count > 0 && Root in env && MeetsAll(env, DescentFrom(Root, count - 1))
    requires forall k :: 0 <= k < count && Build(k) in env ==> env[Build(k)].Leaf?
    requires count == 1 ==> env[Root].Leaf?
    requires Covers(cols, |m|, env[Root])
    ensures LeftNested(env[Root]) && |Legs(env[Root])| == count
    ensures GeneratedRows(cols, env, count, m) == Some(Drain(env[Root], Streams(cols, env[Root], m)))
  {
    DescentFixesLegs(env, Root, count - 1);
    DescentImpliesAscent(env, Root, count - 1);
    BoundStreamsAreLegs(cols, env[Root], m);
    VerdictDrains(env, env[Root], Streams(cols, env[Root], m));
  }
}
