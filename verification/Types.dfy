/**
 Column types, the items they hold, and the order on numbers.

 A number is held by its bit pattern, read as an unsigned little-endian integer. Signed integers and
 IEEE 754 floats differ from unsigned integers only in how two bit patterns compare.
 */
module Types {
  import opened Prelude
  import opened Bytes

  type ByteWidth = w: nat | w in {1, 2, 4, 8, 16} witness 1

  /**
   How bit patterns are read and compared. Absent items sort below all others where an option held in a niche
   is compared as a whole.
   */
  datatype Order =
    | UInt(bytes: ByteWidth, nonZero: bool)
    | Int(bytes: ByteWidth, nonZero: bool)
    | Float(double: bool)
    | Char
    | Lifted(item: Order)
  {
    function Width(): ByteWidth {
      match this
      case UInt(w, _) => w
      case Int(w, _) => w
      case Float(double) => if double then 8 else 4
      case Char => 4
      case Lifted(item) => item.Width()
    }

    /** Whether absence fits into an unused bit pattern of the item itself. */
    predicate Niche() {
      Char? || ((UInt? || Int?) && nonZero)
    }

    /** The bit pattern that encodes absence in a niche. */
    function Absent(): nat {
      if Char? then 0xFFFF_FFFF else 0
    }

    /** Whether the bit pattern `n` is an item of this kind; a lifted kind adds the absent item. */
    predicate Valid(n: nat) {
      if Lifted? then n < Pow256(Width()) && (n == item.Absent() || item.Valid(n))
      else
        && n < Pow256(Width())
        && (Char? ==> n < 0x11_0000 && !(0xD800 <= n <= 0xDFFF))
        && (!Char? && Niche() ==> n != 0)
    }

    /** Whether every bit pattern has a place in the order. */
    predicate Total() {
      if Lifted? then item.Total() else !Float?
    }
  }

  /** The kinds of numbers a column holds. */
  type Kind = k: Order | !k.Lifted? witness Char

  /** The column types a reader exists for; options do not nest directly. */
  datatype Type =
    | Bool
    | Fixed(kind: Kind)
    | Seq(elem: Type)
    | OptBool
    | OptFixed(kind: Kind)
    | OptSeq(elem: Type)
  {
    predicate Optional() {
      OptBool? || OptFixed? || OptSeq?
    }

    /** The item type of an option. */
    function Inner(): Type {
      match this
      case OptBool => Bool
      case OptFixed(kind) => Fixed(kind)
      case OptSeq(elem) => Seq(elem)
      case _ => this
    }

    /** Options held next to a bit mask, as their item has no unused bit pattern. */
    predicate Masked() {
      OptBool? || (OptFixed? && !kind.Niche())
    }

    /** Columns whose items, when present, are numbers of one kind. */
    predicate Numeric() {
      Fixed? || OptFixed?
    }

    /** Types whose serialized form starts with a length-prefixed region. */
    predicate Framed() {
      Seq? || OptSeq? || Masked()
    }
  }

  datatype Val =
    | Bit(bit: bool)
    | Num(num: nat)
    | Nil
    | Just(item: Val)
    | List(items: seq<Val>)
  {
    predicate Is(ty: Type)
      decreases ty, 0
    {
      match ty
      case Bool => Bit?
      case Fixed(kind) => Num? && kind.Valid(num)
      case Seq(elem) => List? && AllAre(items, elem)
      case OptBool => Nil? || (Just? && item.Bit?)
      case OptFixed(kind) => Nil? || (Just? && item.Num? && kind.Valid(item.num))
      case OptSeq(elem) => Nil? || (Just? && item.List? && AllAre(item.items, elem))
    }
  }

  predicate AllAre(items: seq<Val>, ty: Type)
    decreases ty, 1
  {
    forall i :: 0 <= i < |items| ==> items[i].Is(ty)
  }

  /** Bit identity, compared component by component. */
  predicate BitMatch(a: Val, b: Val)
    decreases a
  {
    match a
    case Bit(x) => b.Bit? && x == b.bit
    case Num(n) => b.Num? && n == b.num
    case Nil => b.Nil?
    case Just(x) => b.Just? && BitMatch(x, b.item)
    case List(xs) => b.List? && |xs| == |b.items| && forall i :: 0 <= i < |xs| ==> BitMatch(xs[i], b.items[i])
  }

  /** Bit identity is equality of items: it never confuses two, and NaN matches itself. */
  lemma {:induction false} BitMatchIsEquality(a: Val, b: Val)
    ensures BitMatch(a, b) <==> a == b
    decreases a
  {
    match a
    case Just(x) =>
      if b.Just? { BitMatchIsEquality(x, b.item); }
    case List(xs) =>
      if b.List? && |xs| == |b.items| {
        forall i | 0 <= i < |xs| ensures BitMatch(xs[i], b.items[i]) <==> xs[i] == b.items[i] {
          BitMatchIsEquality(xs[i], b.items[i]);
        }
        if BitMatch(a, b) { assert xs == b.items; }
      }
    case _ =>
  }

  /* ---------------------------------------------------------------- Order */

  /** Position of a bit pattern in the order of its kind; unordered patterns (NaN) have none. */
  function Rank(kind: Order, n: nat): Option<int> {
    match kind
    case Lifted(item) =>
      var bound: int := Pow256(kind.Width());
      if n == item.Absent() then Some(-bound - 1) else Rank(item, n)
    case UInt(_, _) => Some(n)
    case Char => Some(n)
    case Int(w, _) => Some(if 2 * n < Pow256(w) then n else n - Pow256(w))
    case Float(double) =>
      var infinity := if double then 0x7FF0_0000_0000_0000 else 0x7F80_0000;
      var sign := if double then 0x8000_0000_0000_0000 else 0x8000_0000;
      var magnitude := n % sign;
      if magnitude > infinity then None
      else Some(if n < sign then magnitude else -magnitude)
  }

  predicate Ordered(kind: Order, n: nat) {
    Rank(kind, n).Some?
  }

  /** In a total order every bit pattern has a place. */
  lemma {:induction false} TotalOrders(order: Order, n: nat)
    requires order.Total()
    ensures Ordered(order, n)
  {
    if order.Lifted? { TotalOrders(order.item, n); }
  }

  /** The partial comparison `a < b`; false when either side is unordered. */
  predicate Lt(kind: Order, a: nat, b: nat) {
    Ordered(kind, a) && Ordered(kind, b) && Rank(kind, a).value < Rank(kind, b).value
  }

  predicate Le(kind: Order, a: nat, b: nat) {
    Ordered(kind, a) && Ordered(kind, b) && Rank(kind, a).value <= Rank(kind, b).value
  }
}
