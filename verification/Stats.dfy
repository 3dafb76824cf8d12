/**
 Sectors, buffer descriptors and the statistics recorded in them.
 */
module Stats {
  import opened Prelude
  import opened Bytes
  import opened Types
  import opened Accumulate
  import opened RoundTrip

  /** A byte region of the file. */
  datatype Sector = Sector(offset: nat, size: nat) {
    function End(): nat {
      offset + size
    }

    function Next(): Result<nat> {
      CheckedAdd(offset, size)
    }

    /** The same region counted from `origin`. */
    function Relative(origin: nat): Result<Sector> {
      var o :- CheckedAdd(offset, origin);
      Ok(Sector(o, size))
    }

    /** The bytes of this region within the mapped segment region. */
    function Slice(mmap: seq<Byte>): Result<seq<Byte>> {
      var end :- Next();
      if end <= |mmap| then Ok(mmap[offset..end]) else Err(Truncated)
    }
  }

  /** What the manifest records about one column of one data segment. */
  datatype Buffer =
    | Compact(sector: Sector, count: nat)
    | Basic(sector: Sector, count: nat)
    | Detailed(sector: Sector, count: nat, min: Sector, max: Sector)

  /* ---------------------------------------------------------------- Locating extremes */

  /** Whether `a` displaces `b` as the extreme found so far. */
  predicate Better(kind: Kind, greatest: bool, a: nat, b: nat) {
    if greatest then Lt(kind, b, a) else Lt(kind, a, b)
  }

  /** Index of the extreme present item of `slots`, scanning from the front. */
  function FindIndex(kind: Kind, greatest: bool, slots: seq<Option<nat>>): (r: Option<nat>)
    ensures r.Some? ==> r.value < |slots| && slots[r.value].Some?
    ensures r.None? ==> forall j :: 0 <= j < |slots| ==> slots[j].None?
  {
    if slots == [] then None
    else
      var n := |slots| - 1;
      match FindIndex(kind, greatest, slots[..n])
      case None => if slots[n].Some? then Some(n) else None
      case Some(best) =>
        if slots[n].Some? && Better(kind, greatest, slots[n].value, slots[best].value) then Some(n) else Some(best)
  }

  /** The first present item. */
  function Opening(slots: seq<Option<nat>>): Option<nat> {
    if slots == [] then None else if slots[0].Some? then slots[0] else Opening(slots[1..])
  }

  lemma {:induction false} OpeningOfPrefix(slots: seq<Option<nat>>)
    requires slots != []
    ensures var prefix := slots[..|slots| - 1];
            Opening(slots) == if Opening(prefix).Some? then Opening(prefix) else slots[|slots| - 1]
  {
    if |slots| > 1 && slots[0].None? {
      OpeningOfPrefix(slots[1..]);
      assert slots[1..][..|slots| - 2] == slots[..|slots| - 1][1..];
    }
  }

  /**
   The located item is an extreme: no ordered item lies beyond it. An unordered item wins only by
   opening the scan, and then is never displaced.
   */
  lemma {:induction false} FindIndexIsExtreme(kind: Kind, greatest: bool, slots: seq<Option<nat>>)
    ensures var r := FindIndex(kind, greatest, slots); var first := Opening(slots);
            && (r.None? <==> first.None?)
            && (r.Some? && !Ordered(kind, first.value) ==> slots[r.value] == first)
            && (r.Some? && Ordered(kind, first.value) ==>
                  && Ordered(kind, slots[r.value].value)
                  && forall j :: 0 <= j < |slots| && slots[j].Some? ==> !Better(kind, greatest, slots[j].value, slots[r.value].value))
  {
    if slots != [] {
      var n := |slots| - 1;
      FindIndexIsExtreme(kind, greatest, slots[..n]);
      OpeningOfPrefix(slots);
      assert forall j :: 0 <= j < n ==> slots[..n][j] == slots[j];
    }
  }

  /** The fixed-width items an accumulator stores contiguously; `None` for any other layout. */
  function StoredSlots(acc: Acc): Option<(Kind, seq<Option<nat>>)> {
    match acc
    case Vector(kind, items) => Some((kind, Present(items)))
    case InSitu(kind, slots) => Some((kind, slots))
    case MaskData(_, Vector(kind, items)) => Some((kind, Present(items)))
    case _ => None
  }

  function Present(items: seq<nat>): (slots: seq<Option<nat>>)
    ensures |slots| == |items|
  {
    seq(|items|, i requires 0 <= i < |items| => Some(items[i]))
  }

  /** Byte offset of the contiguous items within the serialized accumulator. */
  function Origin(acc: Acc): Result<nat> {
    match acc
    case MaskData(mask, _) =>
      var head :- FramedSize(MaskSize(mask));
      CheckedAdd(head, 8)
    case _ => Ok(0)
  }

  /** Region of the extreme item, relative to the serialized accumulator. */
  function Find(acc: Acc, greatest: bool): Option<Sector> {
    match StoredSlots(acc)
    case None => None
    case Some((kind, slots)) =>
      match FindIndex(kind, greatest, slots)
      case None => None
      case Some(i) =>
        match Origin(acc)
        case Err(_) => None
        case Ok(origin) =>
          if origin + i * kind.Width() > U64_MAX then None
          else Some(Sector(origin + i * kind.Width(), kind.Width()))
  }

  /** The descriptor of a materialised column stored at `sector`. */
  function Describe(acc: Acc, sector: Sector, count: nat): Result<Buffer> {
    match (Find(acc, false), Find(acc, true))
    case (Some(lo), Some(hi)) =>
      var min :- lo.Relative(sector.offset);
      var max :- hi.Relative(sector.offset);
      Ok(Detailed(sector, count, min, max))
    case _ => Ok(Basic(sector, count))
  }

  /* ---------------------------------------------------------------- Statistics on disk */

  /** The number `n` is stored in `w` bytes from `at`. */
  predicate HoldsAt(b: seq<Byte>, at: int, w: nat, n: nat) {
    0 <= at && at + w <= |b| && FromLe(b[at..at + w]) == n
  }

  lemma {:induction false} NumberAt(w: nat, ns: seq<nat>, k: nat)
    requires k < |ns| && 0 < w && ns[k] < Pow256(w)
    ensures HoldsAt(NumberBytes(w, ns), k * w, w, ns[k])
  {
    var b := NumberBytes(w, ns);
    if k == 0 {
      LeRoundTrip(ns[0], w);
      assert b[..w] == ToLe(ns[0], w);
    } else {
      NumberAt(w, ns[1..], k - 1);
      Scaled(k, w);
      TailLies(w, ns);
      HoldsWithin(b, w, NumberBytes(w, ns[1..]), (k - 1) * w, w, ns[k]);
    }
  }

  lemma {:induction false} TailLies(w: nat, ns: seq<nat>)
    requires ns != []
    ensures LieAt(NumberBytes(w, ns), w, NumberBytes(w, ns[1..]))
  {
  }

  lemma {:induction false} Scaled(k: nat, w: nat)
    requires k > 0
    ensures k * w == (k - 1) * w + w
  {
  }

  /** What a region holds, any bytes the region lies in hold behind its start. */
  lemma {:induction false} HoldsWithin(m: seq<Byte>, start: nat, b: seq<Byte>, at: nat, w: nat, n: nat)
    requires LieAt(m, start, b) && HoldsAt(b, at, w, n)
    ensures HoldsAt(m, start + at, w, n)
  {
    SliceLies(m, start, b, at, at + w);
  }

  /** The present scalar items of a column, in order. */
  function Scalars(ty: Type, rows: seq<Val>): seq<nat> {
    match ty
    case Fixed(_) => Nums(rows)
    case OptFixed(_) => Nums(Somes(rows))
    case _ => []
  }

  /** `lo` and `hi` are stored items that enclose every ordered item, unless an unordered item comes first. */
  predicate Encloses(kind: Order, items: seq<nat>, lo: nat, hi: nat) {
    && lo in items && hi in items
    && (if Ordered(kind, items[0]) then
          && Ordered(kind, lo) && Ordered(kind, hi)
          && forall x :: x in items && Ordered(kind, x) ==> Le(kind, lo, x) && Le(kind, x, hi)
        else lo == items[0] && hi == items[0])
  }

  lemma {:induction false} SlotsHoldScalars(rows: seq<Val>, kind: Kind)
    requires AllAre(rows, OptFixed(kind))
    ensures Opening(Slots(rows)) == (if Nums(Somes(rows)) == [] then None else Some(Nums(Somes(rows))[0]))
    ensures forall x :: x in Nums(Somes(rows)) <==> Some(x) in Slots(rows)
  {
    if rows != [] {
      assert rows[0].Is(OptFixed(kind));
      SlotsHoldScalars(rows[1..], kind);
      if rows[0].Just? {
        assert Somes(rows)[1..] == Somes(rows[1..]);
      }
      assert Slots(rows) == [Slots(rows)[0]] + Slots(rows[1..]);
    }
  }

  /** Scalar items and slots of an accumulator are two views of the same items. */
  lemma {:induction false} SlotsOfColumn(ty: Type, rows: seq<Val>)
    requires ty.Numeric() && AllAre(rows, ty)
    ensures var s := StoredSlots(AccOf(ty, rows)); var items := Scalars(ty, rows);
            && s.Some? && s.value.0 == ty.kind
            && Opening(s.value.1) == (if items == [] then None else Some(items[0]))
            && forall x :: x in items <==> Some(x) in s.value.1
  {
    AccIsColumnar(ty, rows);
    if ty.OptFixed? && ty.kind.Niche() {
      SlotsHoldScalars(rows, ty.kind);
    } else {
      var items := Scalars(ty, rows);
      assert forall i :: 0 <= i < |items| ==> Present(items)[i] == Some(items[i]);
    }
  }

  lemma {:induction false} ScalarsValid(ty: Type, rows: seq<Val>)
    requires ty.Numeric() && AllAre(rows, ty)
    ensures forall x :: x in Scalars(ty, rows) ==> ty.kind.Valid(x)
  {
    if rows != [] {
      assert rows[0].Is(ty);
      ScalarsValid(ty, rows[1..]);
      if ty.OptFixed? && rows[0].Just? {
        assert Somes(rows)[1..] == Somes(rows[1..]);
      }
    }
  }

  /** The located extremes enclose the items of the column. */
  lemma {:induction false} ExtremesEnclose(ty: Type, rows: seq<Val>)
    requires ty.Numeric() && AllAre(rows, ty) && Scalars(ty, rows) != []
    ensures var (kind, slots) := StoredSlots(AccOf(ty, rows)).value;
            var i, j := FindIndex(kind, false, slots), FindIndex(kind, true, slots);
            i.Some? && j.Some? && Encloses(kind, Scalars(ty, rows), slots[i.value].value, slots[j.value].value)
  {
    SlotsOfColumn(ty, rows);
    var (kind, slots) := StoredSlots(AccOf(ty, rows)).value;
    FindIndexIsExtreme(kind, false, slots);
    FindIndexIsExtreme(kind, true, slots);
    var i, j := FindIndex(kind, false, slots).value, FindIndex(kind, true, slots).value;
    var items := Scalars(ty, rows);
    assert slots[i] in slots && slots[j] in slots;
    forall x | x in items && Ordered(kind, x) && Ordered(kind, items[0])
      ensures Le(kind, slots[i].value, x) && Le(kind, x, slots[j].value)
    {
      var k :| 0 <= k < |slots| && slots[k] == Some(x);
      assert !Better(kind, false, slots[k].value, slots[i].value) && !Better(kind, true, slots[k].value, slots[j].value);
    }
  }

  /** The items of a masked column lie behind its origin. */
  lemma {:induction false} MaskedLayout(mask: seq<bool>, data: Acc)
    requires !data.IsEmpty() && Size(MaskData(mask, data)).Ok?
    ensures Serialize(data).Ok? && Serialize(MaskData(mask, data)).Ok? && Origin(MaskData(mask, data)).Ok?
    ensures LieAt(Serialize(MaskData(mask, data)).value, Origin(MaskData(mask, data)).value, Serialize(data).value)
  {
    MaskExact(mask, data);
    OriginFits(mask, data);
    var acc := MaskData(mask, data);
    RegionLies(Serialize(acc).value, Origin(acc).value, Region(PackBits(mask)), Serialize(data).value);
  }

  lemma {:induction false} RegionLies(bytes: seq<Byte>, at: nat, front: seq<Byte>, body: seq<Byte>)
    requires bytes == front + Region(body) && at == |front| + 8
    ensures LieAt(bytes, at, body)
  {
    LieThroughout(front + ToLe(|body|, 8), body, Zeros(Pad(|body|)));
    assert front + Region(body) == front + ToLe(|body|, 8) + body + Zeros(Pad(|body|));
  }

  lemma {:induction false} OriginFits(mask: seq<bool>, data: Acc)
    requires !data.IsEmpty() && Size(MaskData(mask, data)).Ok?
    ensures FramedSize(MaskSize(mask)).Ok? && Origin(MaskData(mask, data)) == Ok(FramedSize(MaskSize(mask)).value + 8)
  {
    SizeRange(data);
  }

  /** The accumulator serializes, and holds `x` as item `k` of width `w` behind its origin. */
  predicate HoldsSlot(acc: Acc, w: nat, k: nat, x: nat) {
    Serialize(acc).Ok? && Origin(acc).Ok? && HoldsAt(Serialize(acc).value, Origin(acc).value + k * w, w, x)
  }

  /** Slot `k` is stored `k` item widths behind the origin. */
  lemma {:induction false} SlotBytes(acc: Acc, of: Kind, stored: seq<Option<nat>>, k: nat)
    requires Size(acc).Ok? && StoredSlots(acc) == Some((of, stored))
    requires k < |stored| && stored[k].Some? && stored[k].value < Pow256(of.Width())
    ensures HoldsSlot(acc, of.Width(), k, stored[k].value)
  {
    match acc
    case Vector(kind, items) => VectorSlotBytes(kind, items, k);
    case InSitu(kind, slots) => InSituSlotBytes(kind, slots, k);
    case MaskData(mask, data) => MaskedSlotBytes(mask, data, k);
  }

  lemma {:induction false} SlotIs(acc: Acc, bytes: seq<Byte>, at: nat, offset: nat, w: nat, k: nat, x: nat)
    requires Serialize(acc) == Ok(bytes) && Origin(acc) == Ok(at) && offset == k * w && HoldsAt(bytes, at + offset, w, x)
    ensures HoldsSlot(acc, w, k, x)
  {
  }

  lemma {:induction false} VectorSlotBytes(kind: Kind, items: seq<nat>, k: nat)
    requires k < |items| && items[k] < Pow256(kind.Width())
    ensures HoldsSlot(Vector(kind, items), kind.Width(), k, items[k])
  {
    NumberAt(kind.Width(), items, k);
    SlotIs(Vector(kind, items), NumberBytes(kind.Width(), items), 0, k * kind.Width(), kind.Width(), k, items[k]);
  }

  lemma {:induction false} InSituSlotBytes(kind: Kind, slots: seq<Option<nat>>, k: nat)
    requires k < |slots| && slots[k].Some? && slots[k].value < Pow256(kind.Width())
    ensures HoldsSlot(InSitu(kind, slots), kind.Width(), k, slots[k].value)
  {
    var ns := SlotNumbers(kind, slots);
    NumberAt(kind.Width(), ns, k);
    SlotIs(InSitu(kind, slots), NumberBytes(kind.Width(), ns), 0, k * kind.Width(), kind.Width(), k, slots[k].value);
  }

  lemma {:induction false} SlotWithin(acc: Acc, bytes: seq<Byte>, at: nat, items: seq<Byte>, offset: nat, w: nat, k: nat, x: nat)
    requires Serialize(acc) == Ok(bytes) && Origin(acc) == Ok(at) && LieAt(bytes, at, items)
    requires offset == k * w && HoldsAt(items, offset, w, x)
    ensures HoldsSlot(acc, w, k, x)
  {
    HoldsWithin(bytes, at, items, offset, w, x);
    SlotIs(acc, bytes, at, offset, w, k, x);
  }

  lemma {:induction false} VectorBytes(data: Acc)
    requires data.Vector?
    ensures Serialize(data) == Ok(NumberBytes(data.kind.Width(), data.items))
  {
  }

  lemma {:induction false} MaskedSlotBytes(mask: seq<bool>, data: Acc, k: nat)
    requires data.Vector? && k < |data.items| && data.items[k] < Pow256(data.kind.Width())
    requires Size(MaskData(mask, data)).Ok?
    ensures HoldsSlot(MaskData(mask, data), data.kind.Width(), k, data.items[k])
  {
    MaskedLayout(mask, data);
    VectorBytes(data);
    var acc, w := MaskData(mask, data), data.kind.Width();
    NumberAt(w, data.items, k);
    SlotWithin(acc, Serialize(acc).value, Origin(acc).value, NumberBytes(w, data.items), k * w, w, k, data.items[k]);
  }

  /** `Find` points at the slot of the located item. */
  lemma {:induction false} FindSector(acc: Acc, greatest: bool)
    requires StoredSlots(acc).Some? && Find(acc, greatest).Some?
    ensures var (kind, slots) := StoredSlots(acc).value; var k := FindIndex(kind, greatest, slots);
            && k.Some? && Origin(acc).Ok?
            && Find(acc, greatest).value == Sector(Origin(acc).value + k.value * kind.Width(), kind.Width())
  {
  }

  /** The bytes `Find` points at hold the located item. */
  lemma {:induction false} FoundBytes(acc: Acc, greatest: bool)
    requires Size(acc).Ok? && StoredSlots(acc).Some? && Find(acc, greatest).Some?
    requires forall x :: Some(x) in StoredSlots(acc).value.1 ==> StoredSlots(acc).value.0.Valid(x)
    ensures var s := Find(acc, greatest).value; var (kind, slots) := StoredSlots(acc).value;
            && s.size == kind.Width() && FindIndex(kind, greatest, slots).Some? && Serialize(acc).Ok?
            && HoldsAt(Serialize(acc).value, s.offset, s.size, slots[FindIndex(kind, greatest, slots).value].value)
  {
    FindSector(acc, greatest);
    var (kind, slots) := StoredSlots(acc).value;
    var k := FindIndex(kind, greatest, slots).value;
    assert slots[k] in slots && slots[k] == Some(slots[k].value);
    assert kind.Valid(slots[k].value);
    SlotBytes(acc, kind, slots, k);
    SlotAt(acc, kind.Width(), k, slots[k].value, Find(acc, greatest).value);
  }

  lemma {:induction false} SlotAt(acc: Acc, w: nat, k: nat, x: nat, s: Sector)
    requires HoldsSlot(acc, w, k, x) && s == Sector(Origin(acc).value + k * w, w)
    ensures HoldsAt(Serialize(acc).value, s.offset, s.size, x)
  {
  }

  lemma {:induction false} DetailedParts(acc: Acc, b: Buffer)
    requires Describe(acc, b.sector, b.count) == Ok(b) && b.Detailed?
    ensures Find(acc, false).Some? && Find(acc, true).Some? && StoredSlots(acc).Some?
    ensures var lo, hi := Find(acc, false).value, Find(acc, true).value;
            && b.min == Sector(b.sector.offset + lo.offset, lo.size) && b.max == Sector(b.sector.offset + hi.offset, hi.size)
  {
  }

  /** One of the two recorded sectors points at the located item. */
  predicate Records(acc: Acc, b: Buffer, s: Sector, greatest: bool, x: nat) {
    && StoredSlots(acc).Some? && Serialize(acc).Ok?
    && var (kind, slots) := StoredSlots(acc).value; var i := FindIndex(kind, greatest, slots);
       && i.Some? && slots[i.value] == Some(x) && s.size == kind.Width() && b.sector.offset <= s.offset
       && HoldsAt(Serialize(acc).value, s.offset - b.sector.offset, kind.Width(), x)
  }

  lemma {:induction false} RecordedBytes(acc: Acc, b: Buffer) returns (lo: nat, hi: nat)
    requires Size(acc).Ok? && Describe(acc, b.sector, b.count) == Ok(b) && b.Detailed? && StoredSlots(acc).Some?
    requires forall x :: Some(x) in StoredSlots(acc).value.1 ==> StoredSlots(acc).value.0.Valid(x)
    ensures Records(acc, b, b.min, false, lo) && Records(acc, b, b.max, true, hi)
  {
    DetailedParts(acc, b);
    FoundBytes(acc, false);
    FoundBytes(acc, true);
    var (kind, slots) := StoredSlots(acc).value;
    lo := slots[FindIndex(kind, false, slots).value].value;
    hi := slots[FindIndex(kind, true, slots).value].value;
  }

  /**
   Statistics on disk: the sectors recorded in a detailed descriptor lie inside the column body and
   hold two stored items that enclose every ordered item of the column.
   */
  lemma {:induction false} StatisticsEnclose(ty: Type, rows: seq<Val>, b: Buffer) returns (lo: nat, hi: nat)
    requires rows != [] && AllAre(rows, ty) && Size(AccOf(ty, rows)).Ok?
    requires Describe(AccOf(ty, rows), b.sector, b.count) == Ok(b) && b.Detailed?
    ensures ty.Numeric() && Scalars(ty, rows) != [] && Encloses(ty.kind, Scalars(ty, rows), lo, hi)
    ensures var w := ty.kind.Width();
            && b.min.size == w && b.max.size == w
            && b.sector.offset <= b.min.offset && b.sector.offset <= b.max.offset
            && HoldsAt(Body(ty, rows), b.min.offset - b.sector.offset, w, lo)
            && HoldsAt(Body(ty, rows), b.max.offset - b.sector.offset, w, hi)
  {
    DetailedHasScalars(ty, rows, b);
    StoredValid(ty, rows);
    lo, hi := RecordedBytes(AccOf(ty, rows), b);
    RecordedEnclose(ty, rows, b, lo, hi);
    BodyIs(ty, rows);
  }

  lemma {:induction false} BodyIs(ty: Type, rows: seq<Val>)
    requires AllAre(rows, ty) && Size(AccOf(ty, rows)).Ok?
    ensures Serialize(AccOf(ty, rows)) == Ok(Body(ty, rows))
  {
    SizeIsExact(AccOf(ty, rows));
  }

  lemma {:induction false} RecordedEnclose(ty: Type, rows: seq<Val>, b: Buffer, lo: nat, hi: nat)
    requires ty.Numeric() && AllAre(rows, ty) && Scalars(ty, rows) != [] && b.Detailed?
    requires Records(AccOf(ty, rows), b, b.min, false, lo) && Records(AccOf(ty, rows), b, b.max, true, hi)
    ensures Encloses(ty.kind, Scalars(ty, rows), lo, hi)
  {
    SlotsOfColumn(ty, rows);
    ExtremesEnclose(ty, rows);
  }

  lemma {:induction false} DetailedHasScalars(ty: Type, rows: seq<Val>, b: Buffer)
    requires AllAre(rows, ty) && Describe(AccOf(ty, rows), b.sector, b.count) == Ok(b) && b.Detailed?
    ensures ty.Numeric() && Scalars(ty, rows) != []
  {
    var acc := AccOf(ty, rows);
    DetailedParts(acc, b);
    OnlyScalarsAreDetailed(ty, rows);
    SlotsOfColumn(ty, rows);
    FindSector(acc, false);
    FindIndexIsExtreme(ty.kind, false, StoredSlots(acc).value.1);
  }

  /** Everything stored contiguously is a valid item. */
  lemma {:induction false} StoredValid(ty: Type, rows: seq<Val>)
    requires ty.Numeric() && AllAre(rows, ty)
    ensures StoredSlots(AccOf(ty, rows)).Some? && StoredSlots(AccOf(ty, rows)).value.0 == ty.kind
    ensures forall x :: Some(x) in StoredSlots(AccOf(ty, rows)).value.1 ==> ty.kind.Valid(x)
  {
    SlotsOfColumn(ty, rows);
    ScalarsValid(ty, rows);
  }

  /** Statistics are recorded for every column of numbers that has a present item. */
  lemma {:induction false} NumbersAreDetailed(ty: Type, rows: seq<Val>, sector: Sector, count: nat)
    requires ty.Numeric() && AllAre(rows, ty) && Scalars(ty, rows) != []
    requires Size(AccOf(ty, rows)) == Ok(sector.size) && sector.Next().Ok?
    ensures Describe(AccOf(ty, rows), sector, count).Ok? && Describe(AccOf(ty, rows), sector, count).value.Detailed?
  {
    var acc := AccOf(ty, rows);
    StoredValid(ty, rows);
    ExtremesEnclose(ty, rows);
    SizeIsExact(acc);
    FindFits(acc, false);
    FindFits(acc, true);
  }

  lemma {:induction false} FindFits(acc: Acc, greatest: bool)
    requires StoredSlots(acc).Some? && Size(acc).Ok? && Serialize(acc).Ok? && |Serialize(acc).value| == Size(acc).value
    requires forall x :: Some(x) in StoredSlots(acc).value.1 ==> StoredSlots(acc).value.0.Valid(x)
    requires FindIndex(StoredSlots(acc).value.0, greatest, StoredSlots(acc).value.1).Some?
    ensures Find(acc, greatest).Some? && Find(acc, greatest).value.End() <= Size(acc).value
  {
    var (kind, slots) := StoredSlots(acc).value;
    var k := FindIndex(kind, greatest, slots).value;
    assert slots[k] in slots && slots[k] == Some(slots[k].value);
    SlotBytes(acc, kind, slots, k);
    SizeRange(acc);
    var at := Origin(acc).value + k * kind.Width();
    assert 0 <= at && at + kind.Width() <= Size(acc).value <= U64_MAX;
    FindAt(acc, greatest, kind, slots, k, at);
  }

  lemma {:induction false} FindAt(acc: Acc, greatest: bool, kind: Kind, slots: seq<Option<nat>>, k: nat, at: nat)
    requires StoredSlots(acc) == Some((kind, slots)) && FindIndex(kind, greatest, slots) == Some(k)
    requires Origin(acc).Ok? && at == Origin(acc).value + k * kind.Width() && at <= U64_MAX
    ensures Find(acc, greatest) == Some(Sector(at, kind.Width()))
  {
  }

  lemma {:induction false} OnlyScalarsAreDetailed(ty: Type, rows: seq<Val>)
    requires AllAre(rows, ty)
    ensures StoredSlots(AccOf(ty, rows)).Some? ==> ty.Numeric()
  {
    assert Shape(ty, AccOf(ty, rows));
  }

  /* ---------------------------------------------------------------- Ranges and candidates */

  datatype Bound = Unbounded | Included(at: nat) | Excluded(at: nat)

  predicate WithinStart(kind: Order, start: Bound, x: nat) {
    match start
    case Unbounded => true
    case Included(s) => Le(kind, s, x)
    case Excluded(s) => Lt(kind, s, x)
  }

  predicate WithinEnd(kind: Order, end: Bound, x: nat) {
    match end
    case Unbounded => true
    case Included(e) => Le(kind, x, e)
    case Excluded(e) => Lt(kind, x, e)
  }

  /** Range membership of one item. */
  predicate Contains(kind: Order, start: Bound, end: Bound, x: nat) {
    WithinStart(kind, start, x) && WithinEnd(kind, end, x)
  }

  predicate OrderedBound(kind: Order, b: Bound) {
    b.Unbounded? || Ordered(kind, b.at)
  }

  /** Every ordered item lies behind an ordered end, or every one before an ordered start. */
  predicate AllMiss(kind: Order, items: seq<nat>, start: Bound, end: Bound) {
    || (OrderedBound(kind, end) && forall x :: x in items && Ordered(kind, x) ==> !WithinEnd(kind, end, x))
    || (OrderedBound(kind, start) && forall x :: x in items && Ordered(kind, x) ==> !WithinStart(kind, start, x))
  }

  /** Whether the span `min ..= max` provably misses the range. */
  predicate Disjoint(kind: Order, min: nat, max: nat, start: Bound, end: Bound) {
    || (match end
        case Unbounded => false
        case Included(e) => Lt(kind, e, min)
        case Excluded(e) => Le(kind, e, min))
    || (match start
        case Unbounded => false
        case Included(s) => Lt(kind, max, s)
        case Excluded(s) => Le(kind, max, s))
  }

  /** Range pruning is sound, also with unordered items, statistics or bounds. */
  lemma {:induction false} DisjointIsSound(kind: Order, items: seq<nat>, lo: nat, hi: nat, start: Bound, end: Bound, x: nat)
    requires items != [] && Encloses(kind, items, lo, hi) && x in items
    requires Disjoint(kind, lo, hi, start, end)
    ensures !Contains(kind, start, end, x)
  {
  }

  /**
   A range is pruned exactly when the statistics are ordered and every ordered item lies behind an ordered
   end, or every one before an ordered start.
   */
  lemma {:induction false} DisjointExactly(kind: Order, items: seq<nat>, lo: nat, hi: nat, start: Bound, end: Bound)
    requires items != [] && Encloses(kind, items, lo, hi)
    ensures Disjoint(kind, lo, hi, start, end) <==> Ordered(kind, items[0]) && AllMiss(kind, items, start, end)
  {
    if Ordered(kind, items[0]) {
      assert lo in items && hi in items;
      forall x | x in items && Ordered(kind, x) ensures Le(kind, lo, x) && Le(kind, x, hi) {
      }
    }
  }

  /** Whether the statistics admit the candidate `q`. */
  predicate Spans(kind: Order, lo: nat, hi: nat, q: nat) {
    Le(kind, lo, q) && Le(kind, q, hi)
  }

  /**
   A stored item is found again by an equality test on the statistics exactly when the item is ordered
   and the buffer does not open with an unordered item.
   */
  lemma {:induction false} StoredItemSpanned(kind: Order, items: seq<nat>, lo: nat, hi: nat, q: nat)
    requires items != [] && Encloses(kind, items, lo, hi) && q in items
    ensures Spans(kind, lo, hi, q) <==> Ordered(kind, q) && Ordered(kind, items[0])
  {
  }

  /** Two stored items enclose the candidate `q`, and the first item is ordered. */
  predicate Bracketed(kind: Order, items: seq<nat>, q: nat) {
    && items != [] && Ordered(kind, items[0])
    && exists x, y :: x in items && y in items && Le(kind, x, q) && Le(kind, q, y)
  }

  /** Any candidate, stored or not, lies between the statistics exactly when two stored items bracket it. */
  lemma {:induction false} SpannedIsBracketed(kind: Order, items: seq<nat>, lo: nat, hi: nat, q: nat)
    requires items != [] && Encloses(kind, items, lo, hi)
    ensures Spans(kind, lo, hi, q) <==> Bracketed(kind, items, q)
  {
    assert lo in items && hi in items;
    if Bracketed(kind, items, q) {
      var x, y :| x in items && y in items && Le(kind, x, q) && Le(kind, q, y);
      assert Le(kind, lo, x) && Le(kind, y, hi);
    }
  }

  /* ---------------------------------------------------------------- Bisection */

  /** Length of the longest prefix satisfying `test`. */
  function Leading(items: seq<nat>, test: nat -> bool): (n: nat)
    ensures n <= |items|
    ensures forall i :: 0 <= i < n ==> test(items[i])
    ensures n < |items| ==> !test(items[n])
  {
    if items == [] || !test(items[0]) then 0 else 1 + Leading(items[1..], test)
  }

  predicate Sorted(kind: Order, items: seq<nat>) {
    && (forall i :: 0 <= i < |items| ==> Ordered(kind, items[i]))
    && (forall i, j :: 0 <= i < j < |items| ==> Le(kind, items[i], items[j]))
  }

  /** Bisection over a partitioned list finds the end of its leading part. */
  method PartitionPoint(items: seq<nat>, test: nat -> bool) returns (n: nat)
    requires forall i, j :: 0 <= i < j < |items| && test(items[j]) ==> test(items[i])
    ensures n == Leading(items, test)
  {
    var lo, hi := 0, |items|;
    while lo < hi
      invariant 0 <= lo <= hi <= |items|
      invariant forall i :: 0 <= i < lo ==> test(items[i])
      invariant forall i :: hi <= i < |items| ==> !test(items[i])
    {
      var mid := lo + (hi - lo) / 2;
      if test(items[mid]) {
        lo := mid + 1;
      } else {
        hi := mid;
      }
    }
    n := lo;
    LeadingIs(items, test, n);
  }

  lemma {:induction false} LeadingIs(items: seq<nat>, test: nat -> bool, n: nat)
    requires n <= |items|
    requires forall i :: 0 <= i < n ==> test(items[i])
    requires n < |items| ==> !test(items[n])
    ensures Leading(items, test) == n
  {
    if n > 0 {
      assert test(items[0]);
      LeadingIs(items[1..], test, n - 1);
    }
  }

  /** Comparing two partition points decides whether a sorted list has a candidate in `lb ..= ub`. */
  lemma {:induction false} BisectionAgreesWithScan(kind: Order, items: seq<nat>, lb: nat, ub: nat)
    requires Sorted(kind, items) && Ordered(kind, lb) && Ordered(kind, ub)
    ensures Leading(items, (i: nat) => Lt(kind, i, lb)) < Leading(items, (i: nat) => Le(kind, i, ub))
       <==> exists q :: q in items && Spans(kind, lb, ub, q)
  {
    PartitionsBracket(kind, items, lb, ub, (i: nat) => Lt(kind, i, lb), (i: nat) => Le(kind, i, ub));
  }

  lemma {:induction false} PartitionsBracket(kind: Order, items: seq<nat>, lb: nat, ub: nat, below: nat -> bool, upTo: nat -> bool)
    requires Sorted(kind, items) && Ordered(kind, lb) && Ordered(kind, ub)
    requires forall i :: below(i) == Lt(kind, i, lb) && upTo(i) == Le(kind, i, ub)
    ensures Leading(items, below) < Leading(items, upTo) <==> exists q :: q in items && Spans(kind, lb, ub, q)
  {
    if Leading(items, below) < Leading(items, upTo) {
      BracketHolds(kind, items, lb, ub, below, upTo);
    }
    if q :| q in items && Spans(kind, lb, ub, q) {
      HeldIsBracketed(kind, items, lb, ub, below, upTo, q);
    }
  }

  lemma {:induction false} BracketHolds(kind: Order, items: seq<nat>, lb: nat, ub: nat, below: nat -> bool, upTo: nat -> bool)
    requires Sorted(kind, items) && Ordered(kind, lb) && Ordered(kind, ub)
    requires forall i :: below(i) == Lt(kind, i, lb) && upTo(i) == Le(kind, i, ub)
    requires Leading(items, below) < Leading(items, upTo)
    ensures exists q :: q in items && Spans(kind, lb, ub, q)
  {
    var q := items[Leading(items, below)];
    assert upTo(q) && !below(q);
    assert q in items && Spans(kind, lb, ub, q);
  }

  lemma {:induction false} HeldIsBracketed(kind: Order, items: seq<nat>, lb: nat, ub: nat, below: nat -> bool, upTo: nat -> bool, q: nat)
    requires Sorted(kind, items) && Ordered(kind, lb) && Ordered(kind, ub)
    requires forall i :: below(i) == Lt(kind, i, lb) && upTo(i) == Le(kind, i, ub)
    requires q in items && Spans(kind, lb, ub, q)
    ensures Leading(items, below) < Leading(items, upTo)
  {
    var k :| 0 <= k < |items| && items[k] == q;
    assert !below(items[k]) && upTo(items[k]);
    assert Leading(items, below) <= k;
    assert Leading(items, upTo) > k;
  }
}
