/**
 Recording segments in the manifest, and what the manifest says of the segments committed so far.
 */
module Registry {
  import opened Prelude
  import opened Bytes
  import opened Types
  import opened Accumulate
  import opened Stats
  import opened Layout
  import opened Segment

  /* ---------------------------------------------------------------- Sector order */

  predicate Precedes(a: Sector, b: Sector) {
    a.offset < b.offset || (a.offset == b.offset && a.size < b.size)
  }

  /** Insertion into a set ordered by sector; a sector already present is not inserted again. */
  function Insert(bs: seq<Buffer>, b: Buffer): seq<Buffer> {
    if bs == [] || Precedes(b.sector, bs[0].sector) then [b] + bs
    else if b.sector == bs[0].sector then bs
    else [bs[0]] + Insert(bs[1..], b)
  }

  /** A buffer behind all others joins at the end: its position is the number of segments before it. */
  lemma {:induction false} InsertAppends(bs: seq<Buffer>, b: Buffer)
    requires forall i :: 0 <= i < |bs| ==> bs[i].sector.offset < b.sector.offset
    ensures Insert(bs, b) == bs + [b]
  {
    if bs != [] {
      InsertAppends(bs[1..], b);
    }
  }

  predicate InOrder(bs: seq<Buffer>) {
    forall i, j :: 0 <= i < j < |bs| ==> Precedes(bs[i].sector, bs[j].sector)
  }

  /** Wherever a sector lies, insertion keeps the order, all buffers, and the sector of the new one. */
  lemma {:induction false} InsertKeepsOrder(bs: seq<Buffer>, b: Buffer)
    requires InOrder(bs)
    ensures InOrder(Insert(bs, b)) && forall x :: x in Insert(bs, b) ==> x in bs || x == b
    ensures (forall x :: x in bs ==> x in Insert(bs, b)) && exists x :: x in Insert(bs, b) && x.sector == b.sector
  {
    if bs == [] || Precedes(b.sector, bs[0].sector) {
      assert b in Insert(bs, b);
    } else if b.sector == bs[0].sector {
      assert bs[0] in bs;
    } else {
      InsertKeepsOrder(bs[1..], b);
      InsertBehind(bs, b, Insert(bs[1..], b));
    }
  }

  lemma {:induction false} InsertBehind(bs: seq<Buffer>, b: Buffer, rest: seq<Buffer>)
    requires bs != [] && InOrder(bs) && InOrder(rest) && Precedes(bs[0].sector, b.sector)
    requires (forall x :: x in rest ==> x in bs[1..] || x == b) && (forall x :: x in bs[1..] ==> x in rest)
    requires exists x :: x in rest && x.sector == b.sector
    ensures var r := [bs[0]] + rest;
            && InOrder(r) && (forall x :: x in r ==> x in bs || x == b) && (forall x :: x in bs ==> x in r)
            && exists x :: x in r && x.sector == b.sector
  {
    var r := [bs[0]] + rest;
    forall j | 0 <= j < |rest| ensures Precedes(bs[0].sector, rest[j].sector) {
      assert rest[j] in rest;
    }
    var x :| x in rest && x.sector == b.sector;
    assert x in r;
  }

  /* ---------------------------------------------------------------- Registration */

  /** Reserves the manifest entry of a segment, before anything is written. */
  function Entry(m: Manifest, seg: Segment): Result<()> {
    match seg
    case SchemaSegment(name, _) => Need(name !in m.schemas, Collision)
    case DataSegment(name, _, _) => Need(name in m.schemas, NotFound)
    case BinSegment(name, _) => Need(name !in m.bins, Collision)
  }

  /** Adds one descriptor to each column in turn. */
  function RegisterColumns(columns: seq<ColumnEntry>, pieces: seq<Piece>, offset: nat): Result<seq<ColumnEntry>> {
    if pieces == [] then Ok(columns)
    else
      var _ :- Need(columns != [], NotFound);
      var (b, next) :- DescribeColumn(pieces[0], offset);
      var rest :- RegisterColumns(columns[1..], pieces[1..], next);
      Ok([columns[0].(buffers := Insert(columns[0].buffers, b))] + rest)
  }

  /** Offset of what follows `fixed` bytes behind a segment's start, aligned and counted from the segment region. */
  function BodyOffset(sector: Sector, fixed: nat): Result<nat> {
    var at :- CheckedAdd(sector.offset, fixed);
    var aligned :- CheckedAlign(at);
    if aligned < HEADER then Err(Zero) else Ok(aligned - HEADER)
  }

  function Blank(columns: seq<(string, Type)>): (r: seq<ColumnEntry>)
    ensures |r| == |columns|
  {
    seq(|columns|, i requires 0 <= i < |columns| => ColumnEntry(columns[i].0, columns[i].1, []))
  }

  function Register(m: Manifest, seg: Segment, sector: Sector): Result<Manifest> {
    match seg
    case SchemaSegment(name, columns) =>
      Ok(m.(schemas := m.schemas[name := SchemaEntry(sector, Blank(columns))]))
    case DataSegment(name, _, pieces) =>
      var _ :- Need(name in m.schemas, NotFound);
      var offset :- BodyOffset(sector, 25);
      var entry := m.schemas[name];
      var columns :- RegisterColumns(entry.columns, pieces, offset);
      Ok(m.(schemas := m.schemas[name := entry.(columns := columns)]))
    case BinSegment(name, data) =>
      var offset :- BodyOffset(sector, 9);
      var size :- NonZero(|data|);
      Ok(m.(bins := m.bins[name := Sector(offset, size)]))
  }

  /* ---------------------------------------------------------------- What the manifest records */

  /** The descriptors `bs` trace `pieces` through the region, one per piece and in order. */
  predicate Traces(bs: seq<Buffer>, pieces: seq<Piece>, region: seq<Byte>) {
    && |bs| == |pieces|
    && (forall k :: 0 <= k < |bs| ==> Locates(bs[k], pieces[k], region))
    && (forall j, k :: 0 <= j < k < |bs| ==> bs[j].sector.End() < bs[k].sector.offset)
  }

  /** The pieces written for one column of a schema, in commit order. */
  function ColumnLog(segs: seq<Segment>, name: string, c: nat): seq<Piece> {
    if segs == [] then []
    else
      var n := |segs| - 1;
      ColumnLog(segs[..n], name, c)
      + (match segs[n]
         case DataSegment(of, _, pieces) => if of == name && c < |pieces| then [pieces[c]] else []
         case _ => [])
  }

  /** The bytes committed under a binary name. */
  function BinLog(segs: seq<Segment>, name: string): Option<seq<Byte>> {
    if segs == [] then None
    else
      var n := |segs| - 1;
      if segs[n].BinSegment? && segs[n].name == name then Some(segs[n].data) else BinLog(segs[..n], name)
  }

  /** The layout registered under a schema name. */
  function SchemaLog(segs: seq<Segment>, name: string): Option<seq<(string, Type)>> {
    if segs == [] then None
    else
      var n := |segs| - 1;
      if segs[n].SchemaSegment? && segs[n].name == name then Some(segs[n].columns) else SchemaLog(segs[..n], name)
  }

  /**
   The manifest describes the committed segments: every column traces exactly what was written for it,
   every binary name slices to its payload, and nothing else is recorded.
   */
  ghost predicate Describes(m: Manifest, segs: seq<Segment>, region: seq<Byte>) {
    && (forall name :: name in m.schemas <==> SchemaLog(segs, name).Some?)
    && (forall name :: name in m.schemas ==> DescribesSchema(m.schemas[name], segs, name, region))
    && (forall name :: name in m.bins <==> BinLog(segs, name).Some?)
    && (forall name :: name in m.bins ==> m.bins[name].Slice(region) == Ok(BinLog(segs, name).value) && m.bins[name].offset % 8 == 0)
  }

  predicate DescribesSchema(entry: SchemaEntry, segs: seq<Segment>, name: string, region: seq<Byte>) {
    && SchemaLog(segs, name).Some?
    && |entry.columns| == |SchemaLog(segs, name).value|
    && forall c :: 0 <= c < |entry.columns| ==>
         && entry.columns[c].name == SchemaLog(segs, name).value[c].0
         && entry.columns[c].ty == SchemaLog(segs, name).value[c].1
         && Traces(entry.columns[c].buffers, ColumnLog(segs, name, c), region)
  }

  /* ---------------------------------------------------------------- Growing the region */

  lemma {:induction false} SliceGrows(s: Sector, region: seq<Byte>, more: seq<Byte>)
    requires s.Slice(region).Ok?
    ensures s.Slice(region + more) == s.Slice(region)
  {
    assert (region + more)[s.offset..s.End()] == region[s.offset..s.End()];
  }

  lemma {:induction false} TracesGrow(bs: seq<Buffer>, pieces: seq<Piece>, region: seq<Byte>, more: seq<Byte>)
    requires Traces(bs, pieces, region)
    ensures Traces(bs, pieces, region + more)
  {
    forall k | 0 <= k < |bs| ensures Locates(bs[k], pieces[k], region + more) {
      assert Locates(bs[k], pieces[k], region);
      SliceGrows(bs[k].sector, region, more);
    }
  }

  /** A descriptor behind the old region extends the trace. */
  lemma {:induction false} TracesExtend(bs: seq<Buffer>, pieces: seq<Piece>, region: seq<Byte>, more: seq<Byte>, b: Buffer, piece: Piece)
    requires Traces(bs, pieces, region) && Locates(b, piece, region + more) && |region| < b.sector.offset
    ensures Insert(bs, b) == bs + [b] && Traces(bs + [b], pieces + [piece], region + more)
  {
    forall k | 0 <= k < |bs| ensures bs[k].sector.End() <= |region| {
      assert Locates(bs[k], pieces[k], region);
    }
    InsertAppends(bs, b);
    TracesGrow(bs, pieces, region, more);
    var all, log := bs + [b], pieces + [piece];
    forall k | 0 <= k < |all| ensures Locates(all[k], log[k], region + more) {
      if k < |bs| { assert Locates(bs[k], pieces[k], region + more); }
    }
  }

  /** Registering a data segment adds to each column exactly the descriptor the walk makes of its piece. */
  lemma {:induction false} RegisterWalks(columns: seq<ColumnEntry>, pieces: seq<Piece>, offset: nat)
    requires RegisterColumns(columns, pieces, offset).Ok?
    ensures WalkColumns(pieces, offset).Ok? && |pieces| <= |columns|
    ensures var r := RegisterColumns(columns, pieces, offset).value; var bs := WalkColumns(pieces, offset).value.0;
            && |r| == |columns| && |bs| == |pieces|
            && forall c :: 0 <= c < |columns| ==>
                 r[c] == if c < |pieces| then columns[c].(buffers := Insert(columns[c].buffers, bs[c])) else columns[c]
  {
    if pieces != [] {
      var next := DescribeColumn(pieces[0], offset).value.1;
      RegisterWalks(columns[1..], pieces[1..], next);
    }
  }

  lemma {:induction false} Snoc<T>(s: seq<T>, x: T)
    ensures (s + [x])[..|s|] == s && (s + [x])[|s|] == x
  {
  }

  /** The region a data segment occupies, and where its columns start in it. */
  lemma {:induction false} DataBodyAt(codec: Codec, schema: Sector, pieces: seq<Piece>, region: seq<Byte>)
    requires AllValid(pieces) && WrapData(codec, schema, pieces, HEADER + |region|).Ok?
    requires BodyOffset(Sector(HEADER + |region|, 1), 25).Ok?
    ensures var at := BodyOffset(Sector(HEADER + |region|, 1), 25).value;
            var all := region + WrapData(codec, schema, pieces, HEADER + |region|).value;
            && at % 8 == 0 && |region| < at && FoldSizes(pieces, 0) == Ok(|Regions(pieces)|)
            && at + |Regions(pieces)| <= |all| && all[at..at + |Regions(pieces)|] == Regions(pieces)
            && DataBytes(pieces) == Ok(Regions(pieces))
  {
    var offset := HEADER + |region|;
    var head, tail := DataShape(codec, schema, pieces, offset);
    AlignedMinus(Align(offset + 25));
    Between(region, head, Regions(pieces), tail);
  }

  lemma {:induction false} Between(a: seq<Byte>, b: seq<Byte>, c: seq<Byte>, d: seq<Byte>)
    ensures var all := a + (b + c + d); var at := |a| + |b|; at + |c| <= |all| && all[at..at + |c|] == c
  {
  }

  /** A wrapped data segment: fixed fields and padding, the columns' regions, the checksum. */
  lemma {:induction false} DataShape(codec: Codec, schema: Sector, pieces: seq<Piece>, offset: nat) returns (head: seq<Byte>, tail: seq<Byte>)
    requires AllValid(pieces) && WrapData(codec, schema, pieces, offset).Ok?
    ensures WrapData(codec, schema, pieces, offset) == Ok(head + Regions(pieces) + tail)
    ensures |head| == 25 + Pad(offset + 25) && |tail| == 8
    ensures FoldSizes(pieces, 0) == Ok(|Regions(pieces)|) && DataBytes(pieces) == Ok(Regions(pieces))
    ensures |Regions(pieces)| + 16 + Pad(offset + 25) <= U64_MAX
    ensures head[..9] == Head(DATA, |Regions(pieces)| + 16 + Pad(offset + 25))
  {
    DataFills(pieces, offset);
    DataIsExact(pieces, 0);
    var (pad, size, _) := DataExtent(pieces, offset).value;
    head := Head(DATA, size) + ToLe(schema.offset, 8) + ToLe(ItemCount(pieces), 8) + Zeros(pad);
    tail := ToLe(codec.hash(head + Regions(pieces)), 8);
  }

  lemma {:induction false} AlignedMinus(a: nat)
    requires a % 8 == 0 && a >= HEADER
    ensures (a - HEADER) % 8 == 0
  {
  }

  /** A data segment records where its schema lies and how many items it holds. */
  lemma {:induction false} DataPointsBack(codec: Codec, schema: Sector, pieces: seq<Piece>, offset: nat)
    requires WrapData(codec, schema, pieces, offset).Ok? && schema.offset <= U64_MAX && ItemCount(pieces) <= U64_MAX
    ensures var w := WrapData(codec, schema, pieces, offset).value;
            |w| >= 25 && FromLe(w[9..17]) == schema.offset && FromLe(w[17..25]) == ItemCount(pieces)
  {
    U64Range();
    LeRoundTrip(schema.offset, 8);
    LeRoundTrip(ItemCount(pieces), 8);
    var (pad, size, _) := DataExtent(pieces, offset).value;
    var a, b, c := Head(DATA, size), ToLe(schema.offset, 8), ToLe(ItemCount(pieces), 8);
    Fields(a, b, c, Zeros(pad), DataBytes(pieces).value, ToLe(codec.hash(a + b + c + Zeros(pad) + DataBytes(pieces).value), 8));
  }

  lemma {:induction false} Fields(a: seq<Byte>, b: seq<Byte>, c: seq<Byte>, d: seq<Byte>, e: seq<Byte>, f: seq<Byte>)
    ensures var w := a + b + c + d + e + f; var i, j, k := |a|, |a| + |b|, |a| + |b| + |c|;
            k <= |w| && w[i..j] == b && w[j..k] == c
  {
  }

  /* ---------------------------------------------------------------- One commit */

  /** A data segment comes from the accumulator of its schema: one valid piece per column. */
  ghost predicate Fits(m: Manifest, seg: Segment) {
    seg.DataSegment? && seg.name in m.schemas ==>
      AllValid(seg.pieces) && |seg.pieces| == |m.schemas[seg.name].columns|
  }

  lemma {:induction false} LogsOfAppended(segs: seq<Segment>, seg: Segment, name: string)
    ensures SchemaLog(segs + [seg], name) ==
              if seg.SchemaSegment? && seg.name == name then Some(seg.columns) else SchemaLog(segs, name)
    ensures BinLog(segs + [seg], name) ==
              if seg.BinSegment? && seg.name == name then Some(seg.data) else BinLog(segs, name)
    ensures forall c: nat :: ColumnLog(segs + [seg], name, c) ==
              ColumnLog(segs, name, c) + if seg.DataSegment? && seg.name == name && c < |seg.pieces| then [seg.pieces[c]] else []
  {
    Snoc(segs, seg);
  }

  /** Schemas the segment does not touch keep their description as the region grows. */
  lemma {:induction false} UntouchedSchema(entry: SchemaEntry, segs: seq<Segment>, seg: Segment, name: string, region: seq<Byte>, more: seq<Byte>)
    requires DescribesSchema(entry, segs, name, region)
    requires seg.BinSegment? || seg.name != name
    ensures DescribesSchema(entry, segs + [seg], name, region + more)
  {
    LogsOfAppended(segs, seg, name);
    forall c | 0 <= c < |entry.columns|
      ensures Traces(entry.columns[c].buffers, ColumnLog(segs + [seg], name, c), region + more)
    {
      TracesGrow(entry.columns[c].buffers, ColumnLog(segs, name, c), region, more);
    }
  }

  /** Without a schema there is no data under its name. */
  ghost predicate DataHasSchema(segs: seq<Segment>) {
    forall name, c: nat :: SchemaLog(segs, name).None? ==> ColumnLog(segs, name, c) == []
  }

  lemma {:induction false} NewSchema(segs: seq<Segment>, seg: Segment, sector: Sector, region: seq<Byte>)
    requires seg.SchemaSegment? && SchemaLog(segs, seg.name).None? && DataHasSchema(segs)
    ensures DescribesSchema(SchemaEntry(sector, Blank(seg.columns)), segs + [seg], seg.name, region)
  {
    LogsOfAppended(segs, seg, seg.name);
    var entry := SchemaEntry(sector, Blank(seg.columns));
    forall c | 0 <= c < |entry.columns|
      ensures Traces(entry.columns[c].buffers, ColumnLog(segs + [seg], seg.name, c), region)
    {
      assert ColumnLog(segs, seg.name, c) == [];
      assert ColumnLog(segs + [seg], seg.name, c) == ColumnLog(segs, seg.name, c) + [];
    }
  }

  /** The schema a data segment belongs to gains one traced buffer per column. */
  lemma {:induction false} GrownSchema(codec: Codec, entry: SchemaEntry, columns: seq<ColumnEntry>, segs: seq<Segment>, seg: Segment,
                    region: seq<Byte>, more: seq<Byte>)
    requires seg.DataSegment? && AllValid(seg.pieces) && |seg.pieces| == |entry.columns|
    requires DescribesSchema(entry, segs, seg.name, region)
    requires WrapData(codec, seg.schema, seg.pieces, HEADER + |region|) == Ok(more)
    requires var at := BodyOffset(Sector(HEADER + |region|, |more|), 25);
             at.Ok? && RegisterColumns(entry.columns, seg.pieces, at.value) == Ok(columns)
    ensures DescribesSchema(entry.(columns := columns), segs + [seg], seg.name, region + more)
  {
    var at := BodyOffset(Sector(HEADER + |region|, |more|), 25).value;
    var log := segs + [seg];
    LogsOfAppended(segs, seg, seg.name);
    RegisterWalks(entry.columns, seg.pieces, at);
    var bs := NewBuffers(codec, seg.schema, seg.pieces, region, more);
    forall c | 0 <= c < |columns|
      ensures columns[c].name == entry.columns[c].name && columns[c].ty == entry.columns[c].ty
      ensures Traces(columns[c].buffers, ColumnLog(log, seg.name, c), region + more)
    {
      TracesExtend(entry.columns[c].buffers, ColumnLog(segs, seg.name, c), region, more, bs[c], seg.pieces[c]);
    }
  }

  /** The walk over a new segment locates its columns in the grown region, behind all that was there. */
  lemma {:induction false} NewBuffers(codec: Codec, schema: Sector, pieces: seq<Piece>, region: seq<Byte>, more: seq<Byte>) returns (bs: seq<Buffer>)
    requires AllValid(pieces) && WrapData(codec, schema, pieces, HEADER + |region|) == Ok(more)
    requires var at := BodyOffset(Sector(HEADER + |region|, |more|), 25); at.Ok? && WalkColumns(pieces, at.value).Ok?
    ensures bs == WalkColumns(pieces, BodyOffset(Sector(HEADER + |region|, |more|), 25).value).value.0 && |bs| == |pieces|
    ensures forall c :: 0 <= c < |bs| ==> Locates(bs[c], pieces[c], region + more) && |region| < bs[c].sector.offset
  {
    var at := BodyOffset(Sector(HEADER + |region|, |more|), 25).value;
    RegionsLie(codec, schema, pieces, region, more, at);
    bs := WalkColumns(pieces, at).value.0;
    BuffersAt(pieces, at, |region|, region + more);
  }

  lemma {:induction false} RegionsLie(codec: Codec, schema: Sector, pieces: seq<Piece>, region: seq<Byte>, more: seq<Byte>, at: nat)
    requires AllValid(pieces) && WrapData(codec, schema, pieces, HEADER + |region|) == Ok(more)
    requires BodyOffset(Sector(HEADER + |region|, |more|), 25) == Ok(at)
    ensures at % 8 == 0 && |region| < at && FoldSizes(pieces, 0) == Ok(|Regions(pieces)|) && DataBytes(pieces) == Ok(Regions(pieces))
    ensures at + |Regions(pieces)| <= |region + more| && (region + more)[at..at + |Regions(pieces)|] == Regions(pieces)
  {
    BodyOffsetAt(HEADER + |region|, |more|, 1, 25);
    DataBodyAt(codec, schema, pieces, region);
  }

  lemma {:induction false} BodyOffsetAt(offset: nat, size: nat, other: nat, fixed: nat)
    ensures BodyOffset(Sector(offset, size), fixed) == BodyOffset(Sector(offset, other), fixed)
  {
  }

  lemma {:induction false} BuffersAt(pieces: seq<Piece>, at: nat, start: nat, all: seq<Byte>)
    requires AllValid(pieces) && FoldSizes(pieces, 0) == Ok(|Regions(pieces)|) && WalkColumns(pieces, at).Ok? && at % 8 == 0
    requires start < at && at + |Regions(pieces)| <= |all| && all[at..at + |Regions(pieces)|] == Regions(pieces)
    requires DataBytes(pieces) == Ok(Regions(pieces))
    ensures var bs := WalkColumns(pieces, at).value.0;
            |bs| == |pieces| && forall c :: 0 <= c < |bs| ==> Locates(bs[c], pieces[c], all) && start < bs[c].sector.offset
  {
    WalkLocates(pieces, at, all);
  }

  /** A binary payload lies where its entry says. */
  lemma {:induction false} BinBodyAt(codec: Codec, data: seq<Byte>, region: seq<Byte>)
    requires WrapBin(codec, data, HEADER + |region|).Ok? && BodyOffset(Sector(HEADER + |region|, 1), 9).Ok?
    requires |region| + |WrapBin(codec, data, HEADER + |region|).value| <= U64_MAX
    ensures var at := BodyOffset(Sector(HEADER + |region|, 1), 9).value;
            && at % 8 == 0
            && Sector(at, |data|).Slice(region + WrapBin(codec, data, HEADER + |region|).value) == Ok(data)
  {
    var offset := HEADER + |region|;
    var pad := PadBehind(offset, 9).value;
    var head := Head(BINARY, |data|) + Zeros(pad);
    var tail := ToLe(codec.hash(head + data), 8);
    AlignedMinus(Align(offset + 9));
    Between(region, head, data, tail);
  }

  /** Committing a segment keeps the manifest describing everything committed, the new segment included. */
  lemma {:induction false} RegisterDescribes(codec: Codec, m: Manifest, segs: seq<Segment>, region: seq<Byte>, seg: Segment,
                                             more: seq<Byte>, m': Manifest)
    requires Describes(m, segs, region) && DataHasSchema(segs) && Entry(m, seg).Ok? && Fits(m, seg)
    requires Wrap(codec, seg, HEADER + |region|) == Ok(more)
    requires |region| + |more| <= U64_MAX
    requires Register(m, seg, Sector(HEADER + |region|, |more|)) == Ok(m')
    ensures Describes(m', segs + [seg], region + more)
    ensures DataHasSchema(segs + [seg])
  {
    forall name
      ensures name in m'.schemas <==> SchemaLog(segs + [seg], name).Some?
      ensures name in m'.schemas ==> DescribesSchema(m'.schemas[name], segs + [seg], name, region + more)
    {
      RegisterSchema(codec, m, segs, region, seg, more, name, m');
    }
    forall name
      ensures name in m'.bins <==> BinLog(segs + [seg], name).Some?
      ensures name in m'.bins ==> m'.bins[name].Slice(region + more) == Ok(BinLog(segs + [seg], name).value) && m'.bins[name].offset % 8 == 0
    {
      RegisterBin(codec, m, segs, region, seg, more, name, m');
    }
    forall name, c: nat | SchemaLog(segs + [seg], name).None? ensures ColumnLog(segs + [seg], name, c) == [] {
      LogsOfAppended(segs, seg, name);
    }
  }

  lemma {:induction false} RegisterSchema(codec: Codec, m: Manifest, segs: seq<Segment>, region: seq<Byte>, seg: Segment,
                                          more: seq<Byte>, name: string, m': Manifest)
    requires Describes(m, segs, region) && DataHasSchema(segs) && Entry(m, seg).Ok? && Fits(m, seg)
    requires Wrap(codec, seg, HEADER + |region|) == Ok(more)
    requires Register(m, seg, Sector(HEADER + |region|, |more|)) == Ok(m')
    ensures name in m'.schemas <==> SchemaLog(segs + [seg], name).Some?
    ensures name in m'.schemas ==> DescribesSchema(m'.schemas[name], segs + [seg], name, region + more)
  {
    LogsOfAppended(segs, seg, name);
    assert name in m.schemas <==> SchemaLog(segs, name).Some?;
    if seg.BinSegment? || seg.name != name {
      assert name in m'.schemas <==> name in m.schemas;
      if name in m.schemas {
        assert m'.schemas[name] == m.schemas[name];
        UntouchedSchema(m.schemas[name], segs, seg, name, region, more);
      }
    } else if seg.SchemaSegment? {
      assert m'.schemas[name] == SchemaEntry(Sector(HEADER + |region|, |more|), Blank(seg.columns));
      NewSchema(segs, seg, Sector(HEADER + |region|, |more|), region + more);
    } else {
      RegisterData(codec, m, segs, region, seg, more, m');
    }
  }

  lemma {:induction false} RegisterData(codec: Codec, m: Manifest, segs: seq<Segment>, region: seq<Byte>, seg: Segment,
                                        more: seq<Byte>, m': Manifest)
    requires seg.DataSegment? && seg.name in m.schemas && DescribesSchema(m.schemas[seg.name], segs, seg.name, region) && Fits(m, seg)
    requires WrapData(codec, seg.schema, seg.pieces, HEADER + |region|) == Ok(more)
    requires Register(m, seg, Sector(HEADER + |region|, |more|)) == Ok(m')
    ensures seg.name in m'.schemas && DescribesSchema(m'.schemas[seg.name], segs + [seg], seg.name, region + more)
  {
    GrownSchema(codec, m.schemas[seg.name], m'.schemas[seg.name].columns, segs, seg, region, more);
  }

  lemma {:induction false} RegisterBin(codec: Codec, m: Manifest, segs: seq<Segment>, region: seq<Byte>, seg: Segment,
                                       more: seq<Byte>, name: string, m': Manifest)
    requires forall name :: name in m.bins <==> BinLog(segs, name).Some?
    requires name in m.bins ==> m.bins[name].Slice(region) == Ok(BinLog(segs, name).value) && m.bins[name].offset % 8 == 0
    requires Wrap(codec, seg, HEADER + |region|) == Ok(more) && |region| + |more| <= U64_MAX
    requires Register(m, seg, Sector(HEADER + |region|, |more|)) == Ok(m')
    ensures name in m'.bins <==> BinLog(segs + [seg], name).Some?
    ensures name in m'.bins ==> m'.bins[name].Slice(region + more) == Ok(BinLog(segs + [seg], name).value) && m'.bins[name].offset % 8 == 0
  {
    LogsOfAppended(segs, seg, name);
    if seg.BinSegment? && seg.name == name {
      BinBodyAt(codec, seg.data, region);
    } else if name in m.bins {
      SliceGrows(m.bins[name], region, more);
    }
  }
}
