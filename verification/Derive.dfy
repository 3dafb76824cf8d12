/**
 The code generated for reading composite rows, as a function of the number of fields.

 A composite reads one leg per field, combined by a Boolean tree that leans to the left. Generated code
 never sees the tree: it names the tree's levels through type parameters and trait bounds. Three
 generator loops must agree on these names: the bounds, the unpacking statements and the verdict.
 */
module Derive {
  import opened Prelude
  import opened Joins

  /** The second side of every node is a single leg. */
  predicate LeftNested(t: Tree) {
    t.Node? ==> t.b.Leaf? && LeftNested(t.a)
  }

  /** Type parameters of the generated code: the tree, its inner levels, and its legs. */
  datatype Name = Root | Inner(level: nat) | Build(field: nat)

  /** `owner: Combine<L0 = first, L1 = second>`, either side left open if absent. */
  datatype Constraint = Constraint(owner: Name, first: Option<Name>, second: Option<Name>)

  ghost predicate Meets(env: map<Name, Tree>, b: Constraint) {
    && b.owner in env && env[b.owner].Node?
    && (b.first.Some? ==> b.first.value in env && env[b.first.value] == env[b.owner].a)
    && (b.second.Some? ==> b.second.value in env && env[b.second.value] == env[b.owner].b)
  }

  ghost predicate MeetsAll(env: map<Name, Tree>, bounds: seq<Constraint>) {
    forall i :: 0 <= i < |bounds| ==> Meets(env, bounds[i])
  }

  /** What owns everything below `depth`. */
  function Below(depth: nat): Name
    requires depth > 0
  {
    if depth == 1 then Build(0) else Inner(depth - 1)
  }

  /* ---------------------------------------------------------------- Bounds of the constructor */

  /** Bounds from `depth` down, for a subtree known as `owner`. */
  function DescentFrom(owner: Name, depth: nat): seq<Constraint>
    decreases depth
  {
    if depth == 0 then []
    else [Constraint(owner, Some(Below(depth)), Some(Build(depth)))] + DescentFrom(Below(depth), depth - 1)
  }

  method Descent(count: nat) returns (bounds: seq<Constraint>)
    requires count > 0
    ensures bounds == DescentFrom(Root, count - 1)
  {
    var owner := Root;
    bounds := [];
    for depth := count downto 1
      invariant bounds + DescentFrom(owner, depth - 1) == DescentFrom(Root, count - 1)
    {
      var next := if depth == 1 then Build(0) else Inner(depth - 1);
      bounds := bounds + [Constraint(owner, Some(next), Some(Build(depth)))];
      owner := next;
    }
  }

  /**
   Only left-nested trees of the right size meet the bounds, and each leg parameter is then the leg at
   the position of its field.
   */
  lemma {:induction false} DescentFixesLegs(env: map<Name, Tree>, owner: Name, depth: nat)
    requires owner in env && MeetsAll(env, DescentFrom(owner, depth))
    requires forall k :: 0 <= k <= depth && Build(k) in env ==> env[Build(k)].Leaf?
    requires depth == 0 ==> env[owner].Leaf?
    ensures var t := env[owner];
            && LeftNested(t) && |Legs(t)| == depth + 1
            && (depth > 0 ==> forall k :: 0 <= k <= depth ==> Build(k) in env && env[Build(k)] == Leaf(Legs(t)[k]))
            && (depth == 0 ==> t == Leaf(Legs(t)[0]))
    decreases depth
  {
    if depth > 0 {
      var bounds := DescentFrom(owner, depth);
      assert Meets(env, bounds[0]);
      forall i | 0 <= i < |bounds| - 1 ensures Meets(env, bounds[1..][i]) {
        assert Meets(env, bounds[i + 1]);
      }
      DescentFixesLegs(env, Below(depth), depth - 1);
      var t := env[owner];
      assert Legs(t) == Legs(t.a) + [t.b.leg];
    }
  }

  /** Conversely every left-nested tree meets the bounds under some reading of the names. */
  function Reading(owner: Name, t: Tree): map<Name, Tree>
    requires LeftNested(t)
    decreases t
  {
    if t.Leaf? then map[owner := t]
    else Reading(Below(|Legs(t)| - 1), t.a)[Build(|Legs(t)| - 1) := t.b][owner := t]
  }

  lemma {:induction false} ReadingNames(owner: Name, t: Tree)
    requires LeftNested(t)
    ensures forall x :: x in Reading(owner, t) ==>
              x == owner || (x.Build? && x.field < |Legs(t)|) || (x.Inner? && x.level < |Legs(t)| - 1)
    ensures owner in Reading(owner, t) && Reading(owner, t)[owner] == t
    decreases t
  {
    if t.Node? {
      assert Legs(t) == Legs(t.a) + [t.b.leg];
      ReadingNames(Below(|Legs(t)| - 1), t.a);
    }
  }

  lemma {:induction false} LeftNestedMeets(owner: Name, t: Tree)
    requires LeftNested(t) && (t.Node? ==> owner == Root || (owner.Inner? && owner.level >= |Legs(t)| - 1))
    ensures MeetsAll(Reading(owner, t), DescentFrom(owner, |Legs(t)| - 1))
    decreases t
  {
    if t.Node? {
      assert Legs(t) == Legs(t.a) + [t.b.leg];
      var depth := |Legs(t)| - 1;
      var env, inner := Reading(owner, t), Reading(Below(depth), t.a);
      LeftNestedMeets(Below(depth), t.a);
      ReadingNames(Below(depth), t.a);
      MeetsMore(env, inner, Constraint(owner, Some(Below(depth)), Some(Build(depth))), DescentFrom(Below(depth), depth - 1));
    }
  }

  /** More names do no harm, and allow for one bound more. */
  lemma {:induction false} MeetsMore(env: map<Name, Tree>, inner: map<Name, Tree>, b: Constraint, rest: seq<Constraint>)
    requires MeetsAll(inner, rest) && Meets(env, b) && forall x :: x in inner ==> x in env && env[x] == inner[x]
    ensures MeetsAll(env, [b] + rest)
  {
    forall i | 0 <= i < |[b] + rest| ensures Meets(env, ([b] + rest)[i]) {
      if i > 0 { assert Meets(inner, rest[i - 1]); }
    }
  }

  /* ---------------------------------------------------------------- Unpacking */

  /** Statements of the generated constructor; the variable `node` is shadowed by each of them. */
  datatype Step =
    | Only              // field 0 is the node itself
    | Descend(leg: nat) // the node's first side becomes the node, its second side the field
    | Bottom(leg: nat)  // the node's first side is field 0, its second side the field

  function StepsFrom(depth: nat): seq<Step> {
    if depth == 0 then []
    else [if depth == 1 then Bottom(depth) else Descend(depth)] + StepsFrom(depth - 1)
  }

  method Unpack(count: nat) returns (steps: seq<Step>)
    requires count > 0
    ensures steps == if count == 1 then [Only] else StepsFrom(count - 1)
  {
    steps := [];
    for depth := count downto 1
      invariant steps + StepsFrom(depth - 1) == StepsFrom(count - 1)
    {
      steps := steps + [if depth == 1 then Bottom(depth) else Descend(depth)];
    }
    if count == 1 {
      steps := [Only];
    }
  }

  /** The bindings the statements leave behind; `None` if a statement unpacks a leg. */
  function Execute(steps: seq<Step>, node: Tree, bound: map<nat, Tree>): Option<map<nat, Tree>> {
    if steps == [] then Some(bound)
    else
      match steps[0]
      case Only => Execute(steps[1..], node, bound[0 := node])
      case Descend(leg) => if node.Node? then Execute(steps[1..], node.a, bound[leg := node.b]) else None
      case Bottom(leg) => if node.Node? then Execute(steps[1..], node, bound[0 := node.a][leg := node.b]) else None
  }

  function Fields(legs: seq<Joins.Leg>): map<nat, Tree> {
    map k: nat | k < |legs| :: Leaf(legs[k])
  }

  /** Unpacking binds every field to the leg at its position in the tree, at every field count. */
  lemma {:induction false} UnpackBinds(t: Tree, bound: map<nat, Tree>)
    requires LeftNested(t)
    ensures Execute(if t.Leaf? then [Only] else StepsFrom(|Legs(t)| - 1), t, bound) == Some(bound + Fields(Legs(t)))
    decreases t
  {
    if t.Node? {
      var n := |Legs(t)| - 1;
      assert Legs(t) == Legs(t.a) + [t.b.leg];
      assert StepsFrom(n)[1..] == StepsFrom(n - 1);
      FieldsMore(Legs(t.a), t.b.leg, bound);
      if t.a.Leaf? {
        FieldsOne(t.a.leg, bound[1 := t.b]);
        assert bound[0 := t.a][1 := t.b] == bound[1 := t.b][0 := t.a];
      } else {
        UnpackBinds(t.a, bound[n := t.b]);
      }
    } else {
      FieldsOne(t.leg, bound);
    }
  }

  lemma {:induction false} FieldsOne(leg: Joins.Leg, bound: map<nat, Tree>)
    ensures bound[0 := Leaf(leg)] == bound + Fields([leg])
  {
  }

  lemma {:induction false} FieldsMore(legs: seq<Joins.Leg>, leg: Joins.Leg, bound: map<nat, Tree>)
    ensures bound[|legs| := Leaf(leg)] + Fields(legs) == bound + Fields(legs + [leg])
  {
  }

  /* ---------------------------------------------------------------- The verdict */

  function AscentFrom(owner: Name, depth: nat): seq<Constraint>
    decreases depth
  {
    if depth == 0 then []
    else
      [Constraint(owner, if depth == 1 then None else Some(Inner(depth - 1)), None)]
      + AscentFrom(if depth == 1 then owner else Inner(depth - 1), depth - 1)
  }

  /** Bounds of the generated iterator, which names no legs. */
  method Ascent(count: nat) returns (bounds: seq<Constraint>)
    requires count > 0
    ensures bounds == AscentFrom(Root, count - 1)
  {
    var owner := Root;
    bounds := [];
    for depth := count downto 1
      invariant bounds + AscentFrom(owner, depth - 1) == AscentFrom(Root, count - 1)
    {
      var next := if depth == 1 then owner else Inner(depth - 1);
      bounds := bounds + [Constraint(owner, if depth == 1 then None else Some(next), None)];
      owner := next;
    }
  }

  datatype Expr = Keep(field: nat) | Apply(node: Name, a: Expr, b: Expr)

  /** The level whose second side is the leg of field `depth`. */
  function Level(count: nat, depth: nat): Name {
    if depth + 1 == count then Root else Inner(depth)
  }

  function FoldUpTo(count: nat, depth: nat): Expr {
    if depth == 0 then Keep(0) else Apply(Level(count, depth), FoldUpTo(count, depth - 1), Keep(depth))
  }

  /** The verdict expression: per-field verdicts folded innermost pair first. */
  method Verdict(count: nat) returns (folded: Expr)
    requires count > 0
    ensures folded == FoldUpTo(count, count - 1)
  {
    folded := Keep(0);
    for depth := 1 to count
      invariant folded == FoldUpTo(count, depth - 1)
    {
      var node := if depth == count - 1 then Root else Inner(depth);
      folded := Apply(node, folded, Keep(depth));
    }
  }

  /** The value of a verdict expression; names stand for the operators of their nodes. */
  function Value(e: Expr, env: map<Name, Tree>, keeps: seq<bool>): Option<bool> {
    match e
    case Keep(k) => if k < |keeps| then Some(keeps[k]) else None
    case Apply(node, a, b) =>
      match (Value(a, env, keeps), Value(b, env, keeps))
      case (Some(x), Some(y)) =>
        if node in env && env[node].Node? then Some(Combine(env[node].join, x, y)) else None
      case _ => None
  }

  /**
   The folded verdict is the tree's decision, for every way of naming levels that meets the bounds. The
   single field of a tree of one leg needs no name.
   */
  lemma {:induction false} VerdictDecides(env: map<Name, Tree>, t: Tree, count: nat, depth: nat, keeps: seq<bool>)
    requires depth < count == |keeps| && LeftNested(t) && |Legs(t)| == depth + 1
    requires depth > 0 ==> Level(count, depth) in env && env[Level(count, depth)] == t
    requires MeetsAll(env, AscentFrom(Level(count, depth), depth))
    ensures Value(FoldUpTo(count, depth), env, keeps) == Some(Decide(t, keeps[..depth + 1]))
    decreases depth
  {
    if depth > 0 {
      var bounds := AscentFrom(Level(count, depth), depth);
      assert Meets(env, bounds[0]);
      assert Legs(t) == Legs(t.a) + [t.b.leg];
      assert keeps[..depth + 1][..depth] == keeps[..depth] && keeps[..depth + 1][depth..] == [keeps[depth]];
      forall i | 0 <= i < |bounds| - 1 ensures Meets(env, bounds[1..][i]) {
        assert Meets(env, bounds[i + 1]);
      }
      VerdictDecides(env, t.a, count, depth - 1, keeps);
    } else {
      assert t.Leaf?;
    }
  }

  /** Names that meet the bounds of the constructor meet the bounds of the iterator. */
  lemma {:induction false} DescentImpliesAscent(env: map<Name, Tree>, owner: Name, depth: nat)
    requires MeetsAll(env, DescentFrom(owner, depth))
    ensures MeetsAll(env, AscentFrom(owner, depth))
    decreases depth
  {
    if depth > 0 {
      var down, up := DescentFrom(owner, depth), AscentFrom(owner, depth);
      assert Meets(env, down[0]);
      if depth > 1 {
        forall i | 0 <= i < |down| - 1 ensures Meets(env, down[1..][i]) {
          assert Meets(env, down[i + 1]);
        }
        DescentImpliesAscent(env, Inner(depth - 1), depth - 1);
      }
      forall i | 0 <= i < |up| ensures Meets(env, up[i]) {
        if i > 0 { assert up[i] == AscentFrom(Inner(depth - 1), depth - 1)[i - 1]; }
      }
    }
  }
}
