/**
 The layout of a data segment: columns framed one after another, and the separate walk that computes
 where each of them lies.

 Layout is generic over columns, as it is in the engine: it sees a column's predicted size, the bytes it
 serializes to, its item count, and the descriptor it makes of a sector.
 */
module Layout {
  import opened Prelude
  import opened Bytes
  import opened Accumulate
  import opened Stats

  datatype Piece = Piece(count: nat, size: Result<nat>, bytes: Result<seq<Byte>>,
                         describe: (Sector, nat) -> Result<Buffer>)
  {
    /** Size prediction is exact, empty bodies do not exist, and descriptors keep their sector and count. */
    ghost predicate Valid() {
      && (size.Ok? ==> 0 < size.value <= U64_MAX && bytes.Ok? && |bytes.value| == size.value)
      && forall s, n :: describe(s, n).Ok? ==> describe(s, n).value.sector == s && describe(s, n).value.count == n
    }

    function Body(): seq<Byte> {
      if bytes.Ok? then bytes.value else []
    }
  }

  ghost predicate AllValid(cols: seq<Piece>) {
    forall i :: 0 <= i < |cols| ==> cols[i].Valid()
  }

  /* ---------------------------------------------------------------- Size and bytes */

  /** Predicted footprint of all columns, added to `sum` with overflow checks. */
  function FoldSizes(cols: seq<Piece>, sum: nat): Result<nat> {
    if cols == [] then Ok(sum)
    else
      var n :- FramedSize(cols[0].size);
      var total :- CheckedAdd(sum, n);
      FoldSizes(cols[1..], total)
  }

  function DataSize(cols: seq<Piece>): Result<nat> {
    var total :- FoldSizes(cols, 0);
    NonZero(total)
  }

  /** The columns' regions, one after another. */
  function DataBytes(cols: seq<Piece>): Result<seq<Byte>> {
    if cols == [] then Ok([])
    else
      var head :- Frame(cols[0].size, cols[0].bytes);
      var rest :- DataBytes(cols[1..]);
      Ok(head + rest)
  }

  /* ---------------------------------------------------------------- Descriptors */

  /** Where the body of a column lies whose region starts at `offset`. */
  function ColumnSector(col: Piece, offset: nat): Result<Sector> {
    var start :- CheckedAdd(offset, 8);
    var size :- col.size;
    Ok(Sector(start, size))
  }

  function DescribeAt(col: Piece, sector: Sector): Result<Buffer> {
    var _ :- Need(col.count > 0, Zero);
    col.describe(sector, col.count)
  }

  /** The offset behind the region whose body lies at `sector`. */
  function OffsetBehind(sector: Sector): Result<nat> {
    var end :- sector.Next();
    CheckedAlign(end)
  }

  /** The descriptor of one column whose region starts at `offset`, and the offset behind that region. */
  function DescribeColumn(col: Piece, offset: nat): Result<(Buffer, nat)> {
    var sector :- ColumnSector(col, offset);
    var buffer :- DescribeAt(col, sector);
    var next :- OffsetBehind(sector);
    Ok((buffer, next))
  }

  /** The descriptors of all columns, the offset threaded from one to the next. */
  function WalkColumns(cols: seq<Piece>, offset: nat): Result<(seq<Buffer>, nat)> {
    if cols == [] then Ok(([], offset))
    else
      var (buffer, next) :- DescribeColumn(cols[0], offset);
      var (rest, end) :- WalkColumns(cols[1..], next);
      Ok(([buffer] + rest, end))
  }

  /* ---------------------------------------------------------------- Regions in closed form */

  function Regions(cols: seq<Piece>): seq<Byte> {
    if cols == [] then [] else Region(cols[0].Body()) + Regions(cols[1..])
  }

  /** Where the body of region `i` starts when the first region starts at `offset`. */
  function Place(cols: seq<Piece>, offset: nat, i: nat): nat
    requires i < |cols|
  {
    if i == 0 then offset + 8 else Place(cols[1..], offset + |Region(cols[0].Body())|, i - 1)
  }

  lemma {:induction false} AlignedSum(a: nat, b: nat)
    requires a % 8 == 0 && b % 8 == 0
    ensures (a + b) % 8 == 0
  {
    assert a == 8 * (a / 8) && b == 8 * (b / 8);
    assert a + b == 8 * (a / 8 + b / 8);
  }

  lemma {:induction false} RegionAligned(body: seq<Byte>)
    ensures |Region(body)| % 8 == 0
  {
    AlignedSum(8, Align(|body|));
  }

  lemma {:induction false} RegionsAligned(cols: seq<Piece>)
    ensures |Regions(cols)| % 8 == 0
  {
    if cols != [] {
      RegionAligned(cols[0].Body());
      RegionsAligned(cols[1..]);
      AlignedSum(|Region(cols[0].Body())|, |Regions(cols[1..])|);
    }
  }

  /** Every body lies on an eight-byte boundary. */
  lemma {:induction false} PlaceAligned(cols: seq<Piece>, offset: nat, i: nat)
    requires offset % 8 == 0 && i < |cols|
    ensures Place(cols, offset, i) % 8 == 0
    decreases i
  {
    if i == 0 {
      AlignedSum(offset, 8);
    } else {
      RegionAligned(cols[0].Body());
      AlignedSum(offset, |Region(cols[0].Body())|);
      PlaceAligned(cols[1..], offset + |Region(cols[0].Body())|, i - 1);
    }
  }

  /** Every body lies where its place says. */
  lemma {:induction false} PlaceHolds(cols: seq<Piece>, offset: nat, m: seq<Byte>, i: nat)
    requires i < |cols| && LieAt(m, offset, Regions(cols))
    ensures LieAt(m, Place(cols, offset, i), cols[i].Body())
    decreases i
  {
    if i == 0 {
      FirstLies(cols, offset, m);
    } else {
      OthersLie(cols, offset, m);
      PlaceStep(cols, offset, i);
      PlaceHolds(cols[1..], offset + |Region(cols[0].Body())|, m, i - 1);
    }
  }

  /** Every place lies inside the regions. */
  lemma {:induction false} PlaceInside(cols: seq<Piece>, offset: nat, i: nat)
    requires i < |cols|
    ensures offset + 8 <= Place(cols, offset, i) && Place(cols, offset, i) + |cols[i].Body()| <= offset + |Regions(cols)|
    decreases i
  {
    var next := NextRegion(cols, offset, i, i);
    if i > 0 {
      PlaceInside(cols[1..], next, i - 1);
    }
  }

  /** Where the second region starts; the places of the other regions count from there. */
  lemma {:induction false} NextRegion(cols: seq<Piece>, offset: nat, i: nat, j: nat) returns (next: nat)
    requires i <= j < |cols|
    ensures offset + 8 + |cols[0].Body()| <= next && next + |Regions(cols[1..])| == offset + |Regions(cols)|
    ensures Place(cols, offset, i) == if i == 0 then offset + 8 else Place(cols[1..], next, i - 1)
    ensures Place(cols, offset, j) == if j == 0 then offset + 8 else Place(cols[1..], next, j - 1)
    ensures (i > 0 ==> cols[i] == cols[1..][i - 1]) && (j > 0 ==> cols[j] == cols[1..][j - 1])
  {
    RegionCovers(cols[0].Body());
    next := offset + |Region(cols[0].Body())|;
  }

  /** The first body lies eight bytes behind the start of its region. */
  lemma {:induction false} FirstLies(cols: seq<Piece>, offset: nat, m: seq<Byte>)
    requires cols != [] && LieAt(m, offset, Regions(cols))
    ensures LieAt(m, offset + 8, cols[0].Body())
  {
    BodyLies(m, offset, cols[0].Body(), Regions(cols[1..]));
  }

  /** The other regions lie behind the first. */
  lemma {:induction false} OthersLie(cols: seq<Piece>, offset: nat, m: seq<Byte>)
    requires cols != [] && LieAt(m, offset, Regions(cols))
    ensures LieAt(m, offset + |Region(cols[0].Body())|, Regions(cols[1..]))
  {
    RestLies(m, offset, cols[0].Body(), Regions(cols[1..]));
  }

  lemma {:induction false} RestLies(m: seq<Byte>, at: nat, body: seq<Byte>, rest: seq<Byte>)
    requires LieAt(m, at, Region(body) + rest)
    ensures LieAt(m, at + |Region(body)|, rest)
  {
    PartsLie(m, at, Region(body), rest);
  }

  lemma {:induction false} BodyLies(m: seq<Byte>, at: nat, body: seq<Byte>, rest: seq<Byte>)
    requires LieAt(m, at, Region(body) + rest)
    ensures LieAt(m, at + 8, body)
  {
    PartsLie(m, at, Region(body), rest);
    PartsLie(m, at, ToLe(|body|, 8) + body, Zeros(Pad(|body|)));
    PartsLie(m, at, ToLe(|body|, 8), body);
  }

  /** Every body ends before the length prefix of the next begins. */
  lemma {:induction false} PlaceApart(cols: seq<Piece>, offset: nat, i: nat, j: nat)
    requires i < j < |cols|
    ensures offset + 8 <= Place(cols, offset, i) && Place(cols, offset, i) + |cols[i].Body()| + 8 <= Place(cols, offset, j)
    decreases j
  {
    var next := NextRegion(cols, offset, i, j);
    if i > 0 {
      PlaceApart(cols[1..], next, i - 1, j - 1);
    } else if j > 1 {
      PlaceApart(cols[1..], next, 0, j - 1);
    }
  }

  lemma {:induction false} RegionCovers(body: seq<Byte>)
    ensures 8 + |body| <= |Region(body)|
  {
  }

  /* ---------------------------------------------------------------- They agree */

  /** Every column is nonempty and serializes. */
  predicate Sized(cols: seq<Piece>) {
    forall i :: 0 <= i < |cols| ==> cols[i].size == Ok(|cols[i].Body()|) && cols[i].bytes == Ok(cols[i].Body()) && cols[i].Body() != []
  }

  /** The fold predicts the number of bytes exactly, and the bytes are the columns' regions in order. */
  lemma {:induction false} DataIsExact(cols: seq<Piece>, sum: nat)
    requires AllValid(cols) && FoldSizes(cols, sum).Ok?
    ensures DataBytes(cols) == Ok(Regions(cols)) && FoldSizes(cols, sum) == Ok(sum + |Regions(cols)|) && Sized(cols)
  {
    if cols != [] {
      assert cols[0].Valid();
      FrameExact(cols[0].size, cols[0].bytes);
      DataIsExact(cols[1..], sum + |Region(cols[0].Body())|);
      forall i | 0 < i < |cols|
        ensures cols[i].size == Ok(|cols[i].Body()|) && cols[i].bytes == Ok(cols[i].Body()) && cols[i].Body() != []
      {
        assert cols[i] == cols[1..][i - 1];
      }
    }
  }

  lemma {:induction false} RegionEnds(offset: nat, size: nat)
    requires offset % 8 == 0
    ensures Align(offset + 8 + size) == offset + 8 + Align(size)
  {
    AlignedSum(offset, 8);
    PadOfSum(offset + 8, size);
  }

  lemma {:induction false} PadOfSum(a: nat, n: nat)
    requires a % 8 == 0
    ensures Pad(a + n) == Pad(n)
  {
    ModOfSum(a / 8, n);
  }

  lemma {:induction false} ModOfSum(q: nat, n: nat)
    ensures (8 * q + n) % 8 == n % 8
  {
  }

  /** The descriptor of `col` whose body starts at `at`. */
  predicate PlacedBuffer(b: Buffer, col: Piece, at: nat) {
    && b.sector == Sector(at, |col.Body()|) && b.count == col.count > 0
    && b.sector.End() <= U64_MAX && col.describe(b.sector, col.count).Ok? && col.describe(b.sector, col.count).value == b
  }

  /** One step of the walk. */
  lemma {:induction false} WalkStep(cols: seq<Piece>, offset: nat)
    requires AllValid(cols) && Sized(cols) && cols != [] && WalkColumns(cols, offset).Ok? && offset % 8 == 0
    ensures var next := offset + |Region(cols[0].Body())|;
            && next % 8 == 0 && WalkColumns(cols[1..], next).Ok? && WalkColumns(cols, offset).value.0 != []
            && PlacedBuffer(WalkColumns(cols, offset).value.0[0], cols[0], offset + 8)
            && AllValid(cols[1..]) && Sized(cols[1..])
            && WalkColumns(cols, offset).value.0[1..] == WalkColumns(cols[1..], next).value.0
            && WalkColumns(cols, offset).value.1 == WalkColumns(cols[1..], next).value.1
  {
    assert cols[0].Valid();
    RegionEnds(offset, |cols[0].Body()|);
    RegionAligned(cols[0].Body());
    AlignedSum(offset, |Region(cols[0].Body())|);
  }

  /** The walk ends where the regions end. */
  lemma {:induction false} WalkEnds(cols: seq<Piece>, offset: nat)
    requires AllValid(cols) && Sized(cols) && WalkColumns(cols, offset).Ok? && offset % 8 == 0
    ensures |WalkColumns(cols, offset).value.0| == |cols|
    ensures WalkColumns(cols, offset).value.1 == offset + |Regions(cols)|
  {
    if cols != [] {
      WalkStep(cols, offset);
      WalkEnds(cols[1..], offset + |Region(cols[0].Body())|);
    }
  }

  /** The walk as its first descriptor and the rest of the walk. */
  lemma {:induction false} WalkSplit(cols: seq<Piece>, offset: nat) returns (b: Buffer, rest: seq<Buffer>, next: nat)
    requires AllValid(cols) && Sized(cols) && cols != [] && WalkColumns(cols, offset).Ok? && offset % 8 == 0
    ensures WalkColumns(cols, offset).value.0 == [b] + rest && PlacedBuffer(b, cols[0], offset + 8)
    ensures next == offset + |Region(cols[0].Body())| && next % 8 == 0
    ensures AllValid(cols[1..]) && Sized(cols[1..]) && WalkColumns(cols[1..], next).Ok? && WalkColumns(cols[1..], next).value.0 == rest
  {
    WalkStep(cols, offset);
    var bs := WalkColumns(cols, offset).value.0;
    b, rest, next := bs[0], bs[1..], offset + |Region(cols[0].Body())|;
  }

  /** The walk puts every column's descriptor where the regions put its bytes. */
  lemma {:induction false} WalkPlaces(cols: seq<Piece>, offset: nat, bs: seq<Buffer>, i: nat)
    requires AllValid(cols) && Sized(cols) && WalkColumns(cols, offset).Ok? && offset % 8 == 0
    requires i < |cols| == |bs| && WalkColumns(cols, offset).value.0 == bs
    ensures PlacedBuffer(bs[i], cols[i], Place(cols, offset, i))
    decreases i
  {
    var b, rest, next := WalkSplit(cols, offset);
    if i > 0 {
      WalkPlaces(cols[1..], next, rest, i - 1);
      PlaceStep(cols, offset, i);
    }
  }

  lemma {:induction false} PlaceStep(cols: seq<Piece>, offset: nat, i: nat)
    requires 0 < i < |cols|
    ensures Place(cols, offset, i) == Place(cols[1..], offset + |Region(cols[0].Body())|, i - 1) && cols[i] == cols[1..][i - 1]
  {
  }

  /** Descriptor `b` locates the bytes of `col` in `m`, on an eight-byte boundary. */
  predicate Locates(b: Buffer, col: Piece, m: seq<Byte>) {
    && col.size.Ok? && col.bytes.Ok? && b.sector.Slice(m) == col.bytes && b.sector.offset % 8 == 0 && b.count == col.count > 0
    && col.describe(b.sector, col.count).Ok? && col.describe(b.sector, col.count).value == b
  }

  /**
   Descriptors and bytes agree: wherever the regions of a data segment lie in the mapped file, the walk
   locates each column's bytes exactly, in column order, on eight-byte boundaries and without overlap.
   */
  lemma {:induction false} WalkLocates(cols: seq<Piece>, offset: nat, m: seq<Byte>)
    requires AllValid(cols) && FoldSizes(cols, 0).Ok? && WalkColumns(cols, offset).Ok? && offset % 8 == 0
    requires var size := FoldSizes(cols, 0).value;
             offset + size <= |m| && DataBytes(cols) == Ok(m[offset..offset + size])
    ensures var (bs, end) := WalkColumns(cols, offset).value;
            && |bs| == |cols| && end == offset + FoldSizes(cols, 0).value
            && (forall i :: 0 <= i < |bs| ==> Locates(bs[i], cols[i], m) && offset < bs[i].sector.offset && bs[i].sector.End() <= end)
            && (forall i, j :: 0 <= i < j < |bs| ==> bs[i].sector.End() < bs[j].sector.offset)
  {
    DataIsExact(cols, 0);
    WalkEnds(cols, offset);
    var bs := WalkColumns(cols, offset).value.0;
    forall i | 0 <= i < |cols|
      ensures Locates(bs[i], cols[i], m) && offset < bs[i].sector.offset && bs[i].sector.End() <= offset + |Regions(cols)|
    {
      OneLocated(cols, offset, m, i);
    }
    forall i, j | 0 <= i < j < |cols| ensures bs[i].sector.End() < bs[j].sector.offset {
      TwoApart(cols, offset, i, j);
    }
  }

  lemma {:induction false} OneLocated(cols: seq<Piece>, offset: nat, m: seq<Byte>, i: nat)
    requires AllValid(cols) && Sized(cols) && WalkColumns(cols, offset).Ok? && offset % 8 == 0
    requires i < |cols| == |WalkColumns(cols, offset).value.0| && LieAt(m, offset, Regions(cols))
    ensures var b := WalkColumns(cols, offset).value.0[i];
            Locates(b, cols[i], m) && offset < b.sector.offset && b.sector.End() <= offset + |Regions(cols)|
  {
    WalkPlaces(cols, offset, WalkColumns(cols, offset).value.0, i);
    PlaceHolds(cols, offset, m, i);
    PlaceInside(cols, offset, i);
    PlaceAligned(cols, offset, i);
  }

  lemma {:induction false} TwoApart(cols: seq<Piece>, offset: nat, i: nat, j: nat)
    requires AllValid(cols) && Sized(cols) && WalkColumns(cols, offset).Ok? && offset % 8 == 0
    requires i < j < |cols| == |WalkColumns(cols, offset).value.0|
    ensures WalkColumns(cols, offset).value.0[i].sector.End() < WalkColumns(cols, offset).value.0[j].sector.offset
  {
    WalkPlaces(cols, offset, WalkColumns(cols, offset).value.0, i);
    WalkPlaces(cols, offset, WalkColumns(cols, offset).value.0, j);
    PlaceApart(cols, offset, i, j);
  }
}
