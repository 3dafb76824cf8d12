/**
 In-memory accumulators and their serialized form.

 An accumulator is built by pushing items one at a time. `Size` predicts the number of serialized
 bytes with checked arithmetic; `Serialize` then writes them. The two are computed separately.
 */
module Accumulate {
  import opened Prelude
  import opened Bytes
  import opened Types

  /** Absence marker among the ends of an optional sequence. */
  const SENTINEL: nat := U64_MAX

  datatype Acc =
    | Bits(bits: seq<bool>)
    | Vector(kind: Kind, items: seq<nat>)
    | InSitu(kind: Kind, slots: seq<Option<nat>>)
    | MaskData(mask: seq<bool>, data: Acc)
    | EndsData(ends: seq<nat>, data: Acc)
    | OptEndsData(ends: seq<nat>, data: Acc)
  {
    function Count(): nat {
      match this
      case Bits(bits) => |bits|
      case Vector(_, items) => |items|
      case InSitu(_, slots) => |slots|
      case MaskData(mask, _) => |mask|
      case EndsData(ends, _) => |ends|
      case OptEndsData(ends, _) => |ends|
    }

    predicate IsEmpty() {
      match this
      case MaskData(mask, data) => mask == [] && data.IsEmpty()
      case EndsData(ends, data) => ends == [] && data.IsEmpty()
      case OptEndsData(ends, data) => ends == [] && data.IsEmpty()
      case _ => Count() == 0
    }
  }

  /* ---------------------------------------------------------------- Accumulation */

  /** The accumulator layout chosen for a column type, without items. */
  function Empty(ty: Type): (r: Acc)
    ensures Shape(ty, r) && r.IsEmpty()
  {
    match ty
    case Bool => Bits([])
    case Fixed(kind) => Vector(kind, [])
    case Seq(elem) => EndsData([], Empty(elem))
    case OptBool => MaskData([], Bits([]))
    case OptFixed(kind) => if kind.Niche() then InSitu(kind, []) else MaskData([], Vector(kind, []))
    case OptSeq(elem) => OptEndsData([], Empty(elem))
  }

  predicate Shape(ty: Type, acc: Acc) {
    match ty
    case Bool => acc.Bits?
    case Fixed(kind) => acc.Vector? && acc.kind == kind
    case Seq(elem) => acc.EndsData? && Shape(elem, acc.data)
    case OptBool => acc.MaskData? && acc.data.Bits?
    case OptFixed(kind) =>
      if kind.Niche() then acc.InSitu? && acc.kind == kind
      else acc.MaskData? && acc.data.Vector? && acc.data.kind == kind
    case OptSeq(elem) => acc.OptEndsData? && Shape(elem, acc.data)
  }

  /** The last cumulative end that is not the absence marker. */
  function LastEnd(ends: seq<nat>): nat {
    if ends == [] then 0
    else if ends[|ends| - 1] != SENTINEL then ends[|ends| - 1]
    else LastEnd(ends[..|ends| - 1])
  }

  /** The last cumulative end of a sequence without absent rows. */
  function Last(ends: seq<nat>): nat {
    if ends == [] then 0 else ends[|ends| - 1]
  }

  function Push(ty: Type, acc: Acc, v: Val): (r: Acc)
    requires Shape(ty, acc) && v.Is(ty)
    ensures Shape(ty, r)
    decreases ty, 0
  {
    match ty
    case Bool => Bits(acc.bits + [v.bit])
    case Fixed(kind) => Vector(kind, acc.items + [v.num])
    case Seq(elem) =>
      EndsData(acc.ends + [SatAdd(Last(acc.ends), |v.items|)], PushAll(elem, acc.data, v.items))
    case OptBool =>
      if v.Nil? then MaskData(acc.mask + [false], acc.data)
      else MaskData(acc.mask + [true], Bits(acc.data.bits + [v.item.bit]))
    case OptFixed(kind) =>
      if kind.Niche() then InSitu(kind, acc.slots + [if v.Nil? then None else Some(v.item.num)])
      else if v.Nil? then MaskData(acc.mask + [false], acc.data)
      else MaskData(acc.mask + [true], Vector(kind, acc.data.items + [v.item.num]))
    case OptSeq(elem) =>
      if v.Nil? then OptEndsData(acc.ends + [SENTINEL], acc.data)
      else
        OptEndsData(acc.ends + [SatAdd(LastEnd(acc.ends), |v.item.items|)],
                    PushAll(elem, acc.data, v.item.items))
  }

  function PushAll(ty: Type, acc: Acc, vs: seq<Val>): (r: Acc)
    requires Shape(ty, acc) && AllAre(vs, ty)
    ensures Shape(ty, r)
    decreases ty, |vs|
  {
    if vs == [] then acc else PushAll(ty, Push(ty, acc, vs[0]), vs[1..])
  }

  /** The accumulator holding `vs`, pushed in order. */
  function AccOf(ty: Type, vs: seq<Val>): (r: Acc)
    requires AllAre(vs, ty)
    ensures Shape(ty, r)
  {
    PushAll(ty, Empty(ty), vs)
  }

  /* ---------------------------------------------------------------- Serialization */

  /** Predicted size of `acc` in bytes; empty regions are never written. */
  function Size(acc: Acc): Result<nat> {
    match acc
    case Bits(bits) => MaskSize(bits)
    case Vector(kind, items) => NonZero(kind.Width() * |items|)
    case InSitu(kind, slots) => NonZero(kind.Width() * |slots|)
    case MaskData(mask, data) => Joined(MaskSize(mask), data.IsEmpty(), Size(data))
    case EndsData(ends, data) => Joined(EndsSize(ends), data.IsEmpty(), Size(data))
    case OptEndsData(ends, data) => Joined(EndsSize(ends), data.IsEmpty(), Size(data))
  }

  function MaskSize(bits: seq<bool>): Result<nat> {
    NonZero((|bits| + 7) / 8)
  }

  function EndsSize(ends: seq<nat>): Result<nat> {
    NonZero(8 * |ends|)
  }

  function NonZero(n: nat): Result<nat> {
    if 0 < n <= U64_MAX then Ok(n) else Err(Zero)
  }

  /** Footprint of a length-prefixed region: prefix, body, padding to a multiple of eight. */
  function FramedSize(body: Result<nat>): Result<nat> {
    var n :- body;
    var aligned :- CheckedAlign(n);
    CheckedAdd(aligned, 8)
  }

  /** Footprint of a leading region and, unless it is empty, a data region after it. */
  function Joined(head: Result<nat>, omitted: bool, data: Result<nat>): Result<nat> {
    var h :- FramedSize(head);
    if omitted then Ok(h)
    else
      var d :- FramedSize(data);
      CheckedAdd(d, h)
  }

  function Serialize(acc: Acc): Result<seq<Byte>> {
    match acc
    case Bits(bits) => Ok(PackBits(bits))
    case Vector(kind, items) => Ok(NumberBytes(kind.Width(), items))
    case InSitu(kind, slots) => Ok(NumberBytes(kind.Width(), SlotNumbers(kind, slots)))
    case MaskData(mask, data) =>
      var head :- Frame(MaskSize(mask), Ok(PackBits(mask)));
      if data.IsEmpty() then Ok(head)
      else
        var rest :- Frame(Size(data), Serialize(data));
        Ok(head + rest)
    case EndsData(ends, data) => SerializeEnds(ends, data.IsEmpty(), Size(data), Serialize(data))
    case OptEndsData(ends, data) => SerializeEnds(ends, data.IsEmpty(), Size(data), Serialize(data))
  }

  function SerializeEnds(ends: seq<nat>, omitted: bool, size: Result<nat>, data: Result<seq<Byte>>): Result<seq<Byte>> {
    var head :- Frame(EndsSize(ends), Ok(NumberBytes(8, ends)));
    if omitted then Ok(head)
    else
      var rest :- Frame(size, data);
      Ok(head + rest)
  }

  /** A length-prefixed region; both the prefix and the padding follow the predicted size. */
  function Frame(size: Result<nat>, body: Result<seq<Byte>>): Result<seq<Byte>> {
    var n :- size;
    var aligned :- CheckedAlign(n);
    var b :- body;
    Ok(ToLe(n, 8) + b + Zeros(aligned - n))
  }

  function NumberBytes(width: nat, items: seq<nat>): (b: seq<Byte>)
    ensures |b| == width * |items|
  {
    if items == [] then [] else ToLe(items[0], width) + NumberBytes(width, items[1..])
  }

  function SlotNumbers(kind: Kind, slots: seq<Option<nat>>): (ns: seq<nat>)
    ensures |ns| == |slots|
  {
    seq(|slots|, i requires 0 <= i < |slots| => if slots[i].None? then kind.Absent() else slots[i].value)
  }

  lemma {:induction false} SizeRange(acc: Acc)
    requires Size(acc).Ok?
    ensures 0 < Size(acc).value <= U64_MAX
  {
  }

  /** Region bytes in closed form: the prefix records the exact body length. */
  function Region(body: seq<Byte>): (r: seq<Byte>)
    ensures |r| == 8 + Align(|body|)
  {
    ToLe(|body|, 8) + body + Zeros(Pad(|body|))
  }

  lemma {:induction false} FrameExact(size: Result<nat>, body: Result<seq<Byte>>)
    requires FramedSize(size).Ok? && body.Ok? && |body.value| == size.value
    ensures Frame(size, body) == Ok(Region(body.value))
    ensures |Region(body.value)| == FramedSize(size).value
  {
  }

  /**
   Exact size prediction: whenever the checked prediction succeeds, serialization succeeds and writes
   exactly the predicted number of bytes, at any nesting depth.
   */
  lemma {:induction false} SizeIsExact(acc: Acc)
    requires Size(acc).Ok?
    ensures Serialize(acc).Ok? && |Serialize(acc).value| == Size(acc).value
    decreases acc, 0
  {
    match acc
    case MaskData(mask, data) =>
      FrameExact(MaskSize(mask), Ok(PackBits(mask)));
      if !data.IsEmpty() {
        SizeIsExact(data);
        FrameExact(Size(data), Serialize(data));
      }
    case EndsData(ends, data) => EndsExact(ends, data);
    case OptEndsData(ends, data) => EndsExact(ends, data);
    case _ =>
  }

  lemma {:induction false} EndsExact(ends: seq<nat>, data: Acc)
    requires Joined(EndsSize(ends), data.IsEmpty(), Size(data)).Ok?
    ensures var r := SerializeEnds(ends, data.IsEmpty(), Size(data), Serialize(data));
            r.Ok? && |r.value| == Joined(EndsSize(ends), data.IsEmpty(), Size(data)).value
    ensures data.IsEmpty() ==>
              SerializeEnds(ends, true, Size(data), Serialize(data)) == Ok(Region(NumberBytes(8, ends)))
    ensures !data.IsEmpty() ==>
              && Size(data).Ok? && Serialize(data).Ok?
              && SerializeEnds(ends, false, Size(data), Serialize(data))
                 == Ok(Region(NumberBytes(8, ends)) + Region(Serialize(data).value))
    decreases data, 1
  {
    FrameExact(EndsSize(ends), Ok(NumberBytes(8, ends)));
    if !data.IsEmpty() {
      SizeIsExact(data);
      FrameExact(Size(data), Serialize(data));
    }
  }

  /** A masked accumulator with data serializes to two regions, mask first. */
  lemma {:induction false} MaskExact(mask: seq<bool>, data: Acc)
    requires Size(MaskData(mask, data)).Ok? && !data.IsEmpty()
    ensures Size(data).Ok? && Serialize(data).Ok?
    ensures Serialize(MaskData(mask, data)) == Ok(Region(PackBits(mask)) + Region(Serialize(data).value))
    ensures FramedSize(MaskSize(mask)) == Ok(|Region(PackBits(mask))|)
  {
    FrameExact(MaskSize(mask), Ok(PackBits(mask)));
    SizeIsExact(data);
    FrameExact(Size(data), Serialize(data));
  }
}
