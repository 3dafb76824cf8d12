/**
 When commits succeed: the sizes of columns, segments and manifests in closed form, and the 64 bits they have
 to stay within.
 */
module Capacity {
  import opened Prelude
  import opened Bytes
  import opened Types
  import opened Accumulate
  import opened RoundTrip
  import opened Stats
  import opened Column
  import opened Layout
  import opened Pieces
  import opened Segment
  import opened Registry
  import opened File
  import opened EndToEnd

  /* ---------------------------------------------------------------- Columns */

  /** The bytes of a framed region: prefix, body and padding. */
  function Framed(n: nat): nat {
    8 + Align(n)
  }

  /** Two framed regions; an empty second one is omitted. */
  function Pair(head: nat, data: nat): nat {
    Framed(head) + if data == 0 then 0 else Framed(data)
  }

  /** The bytes of a column with rows. */
  function Length(ty: Type, rows: seq<Val>): nat
    decreases ty
  {
    match ty
    case Bool => (|rows| + 7) / 8
    case Fixed(kind) => kind.Width() * |rows|
    case OptBool => Pair((|rows| + 7) / 8, (|Somes(rows)| + 7) / 8)
    case OptFixed(kind) =>
      if kind.Niche() then kind.Width() * |rows| else Pair((|rows| + 7) / 8, kind.Width() * |Somes(rows)|)
    case Seq(elem) => Pair(8 * |rows|, if Flat(rows) == [] then 0 else Length(elem, Flat(rows)))
    case OptSeq(elem) => Pair(8 * |rows|, if Flat(rows) == [] then 0 else Length(elem, Flat(rows)))
  }

  lemma {:induction false} Product(w: nat, n: nat)
    requires w > 0
    ensures w * n == 0 <==> n == 0
  {
    if n > 0 { StepUp(w, 0, n); }
  }

  lemma {:induction false} LengthPositive(ty: Type, rows: seq<Val>)
    requires rows != []
    ensures Length(ty, rows) > 0
  {
    if ty.Fixed? || ty.OptFixed? { Product(ty.kind.Width(), |rows|); }
  }

  /** Checked sizes of two regions add up exactly when their sum stays within 64 bits. */
  lemma {:induction false} JoinedLength(head: nat, data: nat, size: Result<nat>)
    requires head > 0 && (data > 0 ==> size == NonZero(data))
    ensures Joined(NonZero(head), data == 0, size) == NonZero(Pair(head, data))
  {
  }

  /** The checked size of a column is its length, if that stays within 64 bits. */
  lemma {:induction false} SizeIsLength(ty: Type, rows: seq<Val>)
    requires rows != [] && AllAre(rows, ty) && Counted(ty, rows)
    ensures Size(AccOf(ty, rows)) == NonZero(Length(ty, rows))
    decreases ty
  {
    AccIsColumnar(ty, rows);
    ColumnLengths(rows, 0);
    ColumnLengths(Somes(rows), 0);
    match ty
    case OptBool => JoinedLength((|rows| + 7) / 8, (|Somes(rows)| + 7) / 8, MaskSize(BitsIn(Somes(rows))));
    case OptFixed(kind) =>
      if !kind.Niche() {
        Product(kind.Width(), |Somes(rows)|);
        JoinedLength((|rows| + 7) / 8, kind.Width() * |Somes(rows)|, NonZero(kind.Width() * |Nums(Somes(rows))|));
      }
    case Seq(elem) => RowsLength(ty, rows);
    case OptSeq(elem) => RowsLength(ty, rows);
    case _ =>
  }

  lemma {:induction false} RowsLength(ty: Type, rows: seq<Val>)
    requires (ty.Seq? || ty.OptSeq?) && rows != [] && AllAre(rows, ty) && Counted(ty, rows)
    ensures Size(AccOf(ty, rows)) == NonZero(Length(ty, rows))
    decreases ty, 0
  {
    AccIsColumnar(ty, rows);
    ColumnLengths(rows, 0);
    FlatTyped(rows, ty);
    EmptyOnlyWithoutRows(ty.elem, Flat(rows));
    if Flat(rows) != [] {
      SizeIsLength(ty.elem, Flat(rows));
      LengthPositive(ty.elem, Flat(rows));
    }
    JoinedLength(8 * |rows|, if Flat(rows) == [] then 0 else Length(ty.elem, Flat(rows)), Size(AccOf(ty.elem, Flat(rows))));
  }

  /** A column that stays within 64 bits can be described wherever it lies within them. */
  lemma {:induction false} Described(ty: Type, rows: seq<Val>, sector: Sector)
    requires rows != [] && AllAre(rows, ty) && Counted(ty, Kept(rows))
    requires Size(AccOf(ty, Kept(rows))) == Ok(sector.size) && sector.Next().Ok?
    ensures ColumnBuffer(StateOf(ty, rows), sector, |rows|).Ok?
  {
    BufferOf(ty, rows, sector);
    if !Uniform(rows) {
      var acc := AccOf(ty, rows);
      OnlyScalarsAreDetailed(ty, rows);
      if ty.Numeric() {
        SlotsOfColumn(ty, rows);
        if Scalars(ty, rows) != [] {
          NumbersAreDetailed(ty, rows, sector, |rows|);
        } else {
          FindIndexIsExtreme(ty.kind, false, StoredSlots(acc).value.1);
        }
      }
    }
  }

  /* ---------------------------------------------------------------- Pieces */

  /** The piece takes `n` bytes, and can be described wherever it lies within 64 bits. */
  ghost predicate Measures(p: Piece, n: nat) {
    && p.size == NonZero(n) && n > 0 && p.count > 0
    && forall s: Sector :: s.size == n && s.Next().Ok? ==> p.describe(s, p.count).Ok?
  }

  ghost predicate AllMeasure(pieces: seq<Piece>, lengths: seq<nat>) {
    |pieces| == |lengths| && forall c :: 0 <= c < |pieces| ==> Measures(pieces[c], lengths[c])
  }

  /** The bytes of the regions of pieces of these lengths. */
  function Regional(lengths: seq<nat>): nat {
    if lengths == [] then 0 else Framed(lengths[0]) + Regional(lengths[1..])
  }

  lemma {:induction false} RegionalAligned(lengths: seq<nat>)
    ensures Regional(lengths) % 8 == 0 && (lengths != [] ==> Regional(lengths) > 0)
  {
    if lengths != [] {
      RegionalAligned(lengths[1..]);
      AlignedSum(8, Align(lengths[0]));
      AlignedSum(Framed(lengths[0]), Regional(lengths[1..]));
    }
  }

  /** The checked sum of the pieces' footprints. */
  lemma {:induction false} FoldIsSum(pieces: seq<Piece>, lengths: seq<nat>, sum: nat)
    requires AllMeasure(pieces, lengths) && sum <= U64_MAX
    ensures FoldSizes(pieces, sum) == if sum + Regional(lengths) <= U64_MAX then Ok(sum + Regional(lengths)) else Err(Zero)
  {
    if pieces != [] {
      var n := lengths[0];
      assert Measures(pieces[0], n);
      FoldStep(pieces, n, sum);
      if sum + Framed(n) <= U64_MAX {
        FoldIsSum(pieces[1..], lengths[1..], sum + Framed(n));
      }
    }
  }

  lemma {:induction false} FoldStep(pieces: seq<Piece>, n: nat, sum: nat)
    requires pieces != [] && pieces[0].size == NonZero(n) && n > 0 && sum <= U64_MAX
    ensures FoldSizes(pieces, sum) == if sum + Framed(n) <= U64_MAX then FoldSizes(pieces[1..], sum + Framed(n)) else Err(Zero)
  {
  }

  /** Every column is registered if the regions end within 64 bits. */
  lemma {:induction false} ColumnsRegistered(pieces: seq<Piece>, lengths: seq<nat>, columns: seq<ColumnEntry>, at: nat)
    requires AllMeasure(pieces, lengths) && |columns| == |pieces| && at % 8 == 0 && at + Regional(lengths) <= U64_MAX
    ensures RegisterColumns(columns, pieces, at).Ok?
    decreases |pieces|
  {
    if pieces != [] {
      var n := lengths[0];
      assert Measures(pieces[0], n);
      OneDescribed(pieces[0], n, at);
      ColumnsRegistered(pieces[1..], lengths[1..], columns[1..], at + Framed(n));
      RegisterStep(columns, pieces, at, at + Framed(n));
    }
  }

  lemma {:induction false} RegisterStep(columns: seq<ColumnEntry>, pieces: seq<Piece>, at: nat, next: nat)
    requires columns != [] && pieces != [] && DescribeColumn(pieces[0], at).Ok? && DescribeColumn(pieces[0], at).value.1 == next
    requires RegisterColumns(columns[1..], pieces[1..], next).Ok?
    ensures RegisterColumns(columns, pieces, at).Ok?
  {
  }

  lemma {:induction false} OneDescribed(p: Piece, n: nat, at: nat)
    requires Measures(p, n) && at % 8 == 0 && at + Framed(n) <= U64_MAX
    ensures var r := DescribeColumn(p, at); r.Ok? && r.value.1 == at + Framed(n) && r.value.1 % 8 == 0
  {
    RegionEnds(at, n);
    AlignedSum(at, 8);
    AlignedSum(at + 8, Align(n));
    assert Sector(at + 8, n).Next().Ok?;
  }

  /* ---------------------------------------------------------------- Batches */

  /** The bytes on disk of every field of a batch. */
  ghost function Lengths(types: seq<Type>, rows: seq<seq<Val>>): (lengths: seq<nat>)
    requires BatchFits(types, rows)
    ensures |lengths| == |types|
  {
    seq(|types|, c requires 0 <= c < |types| => FieldFits(types, rows, c); Length(types[c], Kept(Field(rows, c))))
  }

  /** The pieces of a batch have these lengths. */
  lemma {:induction false} BatchMeasures(types: seq<Type>, rows: seq<seq<Val>>)
    requires BatchFits(types, rows)
    ensures AllMeasure(PiecesOf(types, rows), Lengths(types, rows))
  {
    PiecesCount(types, rows);
    forall c | 0 <= c < |types| ensures Measures(PiecesOf(types, rows)[c], Lengths(types, rows)[c]) {
      assert CountedField(types, rows, c);
      PieceAt(types, rows, c);
      FieldMeasures(types[c], Field(rows, c));
    }
  }

  lemma {:induction false} FieldMeasures(ty: Type, rows: seq<Val>)
    requires rows != [] && AllAre(rows, ty) && Counted(ty, Kept(rows))
    ensures Measures(PieceOf(ty, StateOf(ty, rows)), Length(ty, Kept(rows)))
  {
    SizeIsLength(ty, Kept(rows));
    LengthPositive(ty, Kept(rows));
    PieceCounts(ty, rows);
    var p, n := PieceOf(ty, StateOf(ty, rows)), Length(ty, Kept(rows));
    forall s: Sector | s.size == n && s.Next().Ok? ensures p.describe(s, p.count).Ok? {
      Described(ty, rows, s);
    }
  }

  /* ---------------------------------------------------------------- Commits */

  /** The manifest encodes to some bytes, and stays within 64 bits with head and checksum. */
  predicate ManifestFits(codec: Codec, m: Manifest) {
    0 < |codec.manifestBytes(m)| <= U64_MAX - 17
  }

  lemma {:induction false} ManifestWraps(codec: Codec, m: Manifest)
    ensures WrapManifest(codec, m).Ok? <==> ManifestFits(codec, m)
  {
  }

  /** A commit succeeds exactly when each of its phases does. */
  lemma {:induction false} CommitPhases(codec: Codec, d: Disk, seg: Segment)
    ensures var w := Wrap(codec, seg, d.header.offset);
            Committed(codec, d, seg).Ok?
            <==> && Entry(d.manifest, seg).Ok? && w.Ok? && d.header.offset + |w.value| <= U64_MAX
                 && var m := Register(d.manifest, seg, Sector(d.header.offset, |w.value|)); m.Ok? && ManifestFits(codec, m.value)
    ensures Entry(d.manifest, seg).Err? ==> Committed(codec, d, seg) == Err(Entry(d.manifest, seg).error)
  {
    Phases(codec, d.header, d.manifest, seg);
    var w := Wrap(codec, seg, d.header.offset);
    if w.Ok? {
      var m := Register(d.manifest, seg, Sector(d.header.offset, |w.value|));
      if m.Ok? { ManifestWraps(codec, m.value); }
    }
  }

  /** A file can be created exactly when the empty manifest fits. */
  lemma {:induction false} CreationSucceeds(codec: Codec)
    ensures Created(codec).Ok? <==> ManifestFits(codec, Manifest(map[], map[]))
  {
  }

  /**
   Registering a schema succeeds exactly when its name is free, its document is not empty, the segment ends
   within 64 bits, and the manifest it leads to fits.
   */
  lemma {:induction false} SchemaCommits(codec: Codec, d: Disk, name: string, columns: seq<(string, Type)>)
    ensures var size := |codec.schemaBytes(name, columns)|;
            Committed(codec, d, SchemaSegment(name, columns)).Ok?
            <==> && name !in d.manifest.schemas && 0 < size && d.header.offset + size + 17 <= U64_MAX
                 && ManifestFits(codec, d.manifest.(schemas := d.manifest.schemas[name := SchemaEntry(Sector(d.header.offset, size + 17), Blank(columns))]))
    ensures name in d.manifest.schemas ==> Committed(codec, d, SchemaSegment(name, columns)) == Err(Collision)
  {
    var seg := SchemaSegment(name, columns);
    CommitPhases(codec, d, seg);
    if Wrap(codec, seg, d.header.offset).Ok? { PlainSize(codec, SCHEMA, codec.schemaBytes(name, columns)); }
  }

  /**
   Writing a binary succeeds exactly when its name is free, its payload is not empty, the segment ends within
   64 bits, and the manifest it leads to fits.
   */
  lemma {:induction false} BinaryCommits(codec: Codec, d: Disk, name: string, data: seq<Byte>)
    requires HEADER <= d.header.offset
    ensures var body := Align(d.header.offset + 9);
            Committed(codec, d, BinSegment(name, data)).Ok?
            <==> && name !in d.manifest.bins && data != [] && body + |data| + 8 <= U64_MAX
                 && ManifestFits(codec, d.manifest.(bins := d.manifest.bins[name := Sector(body - HEADER, |data|)]))
    ensures name in d.manifest.bins ==> Committed(codec, d, BinSegment(name, data)) == Err(Collision)
  {
    var seg, offset := BinSegment(name, data), d.header.offset;
    CommitPhases(codec, d, seg);
    BinaryWraps(codec, data, offset);
    var w := Wrap(codec, seg, offset);
    if w.Ok? { BinaryRegistered(d.manifest, name, data, offset, |w.value|); }
  }

  lemma {:induction false} BinaryWraps(codec: Codec, data: seq<Byte>, offset: nat)
    ensures var w, end := WrapBin(codec, data, offset), Align(offset + 9) + |data| + 8;
            (data != [] && end <= U64_MAX ==> w.Ok?) && (w.Ok? ==> data != [] && offset + |w.value| == end && Align(offset + 9) <= U64_MAX)
  {
  }

  lemma {:induction false} BinaryRegistered(m: Manifest, name: string, data: seq<Byte>, offset: nat, size: nat)
    requires HEADER <= offset && 0 < |data| <= U64_MAX && Align(offset + 9) <= U64_MAX
    ensures Register(m, BinSegment(name, data), Sector(offset, size))
         == Ok(m.(bins := m.bins[name := Sector(Align(offset + 9) - HEADER, |data|)]))
  {
  }

  /** The end of a data segment that begins at `offset`. */
  function DataEnd(lengths: seq<nat>, offset: nat): (end: nat)
    ensures offset <= end
  {
    Align(offset + 25) + Regional(lengths) + 8
  }

  /** The bytes of a data segment, if they stay within 64 bits. */
  lemma {:induction false} PiecesWrap(codec: Codec, schema: Sector, pieces: seq<Piece>, lengths: seq<nat>, offset: nat)
    requires AllValid(pieces) && AllMeasure(pieces, lengths) && pieces != []
    ensures var w, end := WrapData(codec, schema, pieces, offset), DataEnd(lengths, offset);
            (end <= U64_MAX ==> w.Ok?) && (w.Ok? ==> offset + |w.value| == end)
  {
    FoldIsSum(pieces, lengths, 0);
    RegionalAligned(lengths);
    DataExtends(pieces, Regional(lengths), offset);
    if DataExtent(pieces, offset).Ok? {
      DataFills(pieces, offset);
      var head, tail := DataShape(codec, schema, pieces, offset);
      DataIsExact(pieces, 0);
    }
  }

  lemma {:induction false} DataExtends(pieces: seq<Piece>, total: nat, offset: nat)
    requires FoldSizes(pieces, 0) == (if total <= U64_MAX then Ok(total) else Err(Zero)) && total > 0 && total % 8 == 0
    ensures Align(offset + 25) + total + 8 <= U64_MAX ==> DataExtent(pieces, offset).Ok?
    ensures DataExtent(pieces, offset).Ok? ==> total <= U64_MAX
  {
    assert Pad(total) == 0;
  }

  /** A data segment is registered if it ends within 64 bits. */
  lemma {:induction false} DataRegistered(m: Manifest, seg: Segment, lengths: seq<nat>, offset: nat, size: nat)
    requires HEADER <= offset && seg.DataSegment? && AllMeasure(seg.pieces, lengths)
    requires seg.name in m.schemas && |m.schemas[seg.name].columns| == |seg.pieces|
    requires DataEnd(lengths, offset) <= U64_MAX
    ensures Register(m, seg, Sector(offset, size)).Ok?
  {
    var at := Align(offset + 25) - HEADER;
    AlignedMinus(Align(offset + 25));
    ColumnsRegistered(seg.pieces, lengths, m.schemas[seg.name].columns, at);
    RegisteredAt(m, seg, Sector(offset, size), at);
  }

  lemma {:induction false} RegisteredAt(m: Manifest, seg: Segment, sector: Sector, at: nat)
    requires seg.DataSegment? && seg.name in m.schemas && BodyOffset(sector, 25) == Ok(at)
    requires RegisterColumns(m.schemas[seg.name].columns, seg.pieces, at).Ok?
    ensures Register(m, seg, sector).Ok?
  {
  }

  /** The data segment commits exactly if its schema is known, `end` is within 64 bits, and the manifest it leads to fits. */
  predicate CommitsTo(codec: Codec, d: Disk, seg: Segment, end: nat)
    requires seg.DataSegment? && d.header.offset <= end
  {
    var m := Register(d.manifest, seg, Sector(d.header.offset, end - d.header.offset));
    && (seg.name in d.manifest.schemas && end <= U64_MAX ==> m.Ok?)
    && (Committed(codec, d, seg).Ok? <==> seg.name in d.manifest.schemas && end <= U64_MAX && ManifestFits(codec, m.value))
    && (seg.name !in d.manifest.schemas ==> Committed(codec, d, seg) == Err(NotFound))
  }

  lemma {:induction false} DataCommits(codec: Codec, d: Disk, seg: Segment, end: nat)
    requires seg.DataSegment? && d.header.offset <= end
    requires var w := Wrap(codec, seg, d.header.offset); (end <= U64_MAX ==> w.Ok?) && (w.Ok? ==> d.header.offset + |w.value| == end)
    requires seg.name in d.manifest.schemas && end <= U64_MAX ==> Register(d.manifest, seg, Sector(d.header.offset, end - d.header.offset)).Ok?
    ensures CommitsTo(codec, d, seg, end)
  {
    CommitPhases(codec, d, seg);
  }

  /**
   Writing a batch of typed rows succeeds exactly when its schema is known, its segment ends within 64 bits, and
   the manifest it leads to fits.
   */
  lemma {:induction false} BatchCommits(codec: Codec, d: Disk, seg: Segment, types: seq<Type>, rows: seq<seq<Val>>)
    requires HEADER <= d.header.offset && BatchFits(types, rows) && HoldsRows(seg, types, rows)
    requires seg.name in d.manifest.schemas ==> |d.manifest.schemas[seg.name].columns| == |types|
    ensures CommitsTo(codec, d, seg, DataEnd(Lengths(types, rows), d.header.offset))
  {
    BatchMeasures(types, rows);
    PiecesCount(types, rows);
    PiecesCommit(codec, d, seg, Lengths(types, rows));
  }

  lemma {:induction false} PiecesCommit(codec: Codec, d: Disk, seg: Segment, lengths: seq<nat>)
    requires HEADER <= d.header.offset && seg.DataSegment? && AllValid(seg.pieces) && AllMeasure(seg.pieces, lengths) && seg.pieces != []
    requires seg.name in d.manifest.schemas ==> |d.manifest.schemas[seg.name].columns| == |seg.pieces|
    ensures CommitsTo(codec, d, seg, DataEnd(lengths, d.header.offset))
  {
    var end := DataEnd(lengths, d.header.offset);
    PiecesWrap(codec, seg.schema, seg.pieces, lengths, d.header.offset);
    if seg.name in d.manifest.schemas && end <= U64_MAX {
      DataRegistered(d.manifest, seg, lengths, d.header.offset, end - d.header.offset);
    }
    DataCommits(codec, d, seg, end);
  }
}
