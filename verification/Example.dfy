/**
 One small file, from creation to query: the statements about reachable files have instances.
 */
module Example {
  import opened Prelude
  import opened Bytes
  import opened Types
  import opened Accumulate
  import opened RoundTrip
  import opened Stats
  import opened Column
  import opened Layout
  import opened Pieces
  import opened Segment
  import opened Registry
  import opened File
  import opened History
  import opened Query
  import opened Window
  import opened Meaning
  import opened Pruning
  import opened Limits
  import opened Joins
  import opened Composite
  import opened EndToEnd
  import opened Runs

  const BYTE: Type := Fixed(UInt(1, false))

  /** Every document is one byte long and every checksum zero. */
  function Terse(): Codec {
    Codec((n: string, c: seq<(string, Type)>) => [0], (m: Manifest) => [0], (b: seq<Byte>) => Err(Truncated), (b: seq<Byte>) => 0)
  }

  const ROWS: seq<Val> := [Num(7)]

  function Opening(): Segment {
    SchemaSegment("t", [("a", BYTE)])
  }

  function Seven(): Piece {
    PieceOf(BYTE, Repeated(Num(7), 1))
  }

  function Batch(): Segment {
    DataSegment("t", Sector(24, 18), [Seven()])
  }

  lemma {:induction false} PlainLength(variant: Byte)
    ensures WrapPlain(Terse(), variant, [0]).Ok? && |WrapPlain(Terse(), variant, [0]).value| == 18
  {
  }

  lemma {:induction false} OneByte()
    ensures NumberBytes(1, [7]) == [7]
  {
    assert [7][1..] == [];
    assert ToLe(7, 1) == [7] + ToLe(0, 0) == [7];
    assert NumberBytes(1, [7]) == ToLe(7, 1) + NumberBytes(1, []) == [7] + [];
  }

  /** The piece of a single row. */
  lemma {:induction false} SevenIs()
    ensures Num(7).Is(BYTE) && AllAre(ROWS, BYTE) && StateOf(BYTE, ROWS) == Repeated(Num(7), 1)
    ensures Seven().Valid() && Seven().count == 1 && Seven().size == Ok(1) && Seven().bytes == Ok([7])
    ensures Counted(BYTE, Kept(ROWS)) && Decodable(BYTE, ROWS)
  {
    assert Num(7).Is(BYTE);
    assert ROWS[1..] == [];
    assert AccOf(BYTE, [Num(7)]) == Vector(UInt(1, false), [7]) by {
      assert PushAll(BYTE, Empty(BYTE), [Num(7)]) == PushAll(BYTE, Push(BYTE, Empty(BYTE), Num(7)), []);
    }
    OneByte();
    PieceIsValid(BYTE, Repeated(Num(7), 1));
  }

  lemma {:induction false} FirstCommit() returns (d: Disk)
    ensures After(Terse(), [Opening()]) == Ok(d) && d.header == Sector(42, 18)
    ensures d.manifest.schemas == map["t" := SchemaEntry(Sector(24, 18), [ColumnEntry("a", BYTE, [])])]
    ensures AllFit(Terse(), [Opening()])
  {
    var codec, segs := Terse(), [Opening()];
    PlainLength(MANIFEST);
    PlainLength(SCHEMA);
    var empty := Manifest(map[], map[]);
    CreatedBytes(codec, WrapManifest(codec, empty).value);
    var start := Created(codec).value;
    Phases(codec, start.header, start.manifest, Opening());
    assert Blank([("a", BYTE)]) == [ColumnEntry("a", BYTE, [])];
    assert segs[..0] == [] && segs[0] == Opening();
    assert AllFit(codec, []);
    PlanParts(codec, start.header, start.manifest, Opening());
    d := Committed(codec, start, Opening()).value;
  }

  /** A segment of one piece of one byte, placed behind the first commit. */
  lemma {:induction false} OnePieceFits(p: Piece, columns: seq<ColumnEntry>)
    requires p.Valid() && p.count == 1 && p.size == Ok(1) && p.bytes == Ok([7]) && p.describe(Sector(56, 1), 1).Ok?
    requires |columns| == 1
    ensures WrapData(Terse(), Sector(24, 18), [p], 42).Ok? && |WrapData(Terse(), Sector(24, 18), [p], 42).value| == 54
    ensures RegisterColumns(columns, [p], 48).Ok?
  {
    OnePieceExtent(p);
    DataFills([p], 42);
    OnePieceRegistered(p, columns);
    assert [p][1..] == [];
    assert Regions([p]) == Region(p.Body()) + Regions([p][1..]);
  }

  lemma {:induction false} OnePieceExtent(p: Piece)
    requires p.size == Ok(1)
    ensures DataExtent([p], 42) == Ok((5, 37, 54))
  {
    assert [p][1..] == [];
    assert FoldSizes([p], 0) == FoldSizes([p][1..], 16);
  }

  lemma {:induction false} OnePieceRegistered(p: Piece, columns: seq<ColumnEntry>)
    requires p.count == 1 && p.size == Ok(1) && p.describe(Sector(56, 1), 1).Ok? && |columns| == 1
    ensures RegisterColumns(columns, [p], 48).Ok?
  {
    assert DescribeColumn(p, 48).Ok?;
    assert [p][1..] == [] && columns[1..] == [];
  }

  lemma {:induction false} DataFits(columns: seq<ColumnEntry>)
    requires |columns| == 1
    ensures WrapData(Terse(), Sector(24, 18), [Seven()], 42).Ok?
    ensures |WrapData(Terse(), Sector(24, 18), [Seven()], 42).value| == 54
    ensures RegisterColumns(columns, [Seven()], 48).Ok? && AllValid([Seven()])
  {
    SevenIs();
    OnePieceFits(Seven(), columns);
  }

  /** The commits: a schema of one byte column, then one row holding seven. */
  function Commits(): seq<Commit> {
    [NewSchema("t", [("a", BYTE)]), NewBatch("t", [[Num(7)]])]
  }

  lemma {:induction false} SevenBatch(m: Manifest)
    requires m.schemas == map["t" := SchemaEntry(Sector(24, 18), [ColumnEntry("a", BYTE, [])])]
    ensures Typed(m, Commits()[1]) && SegmentOf(m, Commits()[1]) == Some(Batch())
    ensures BatchFits([BYTE], [[Num(7)]]) && AllBatchesFit([BYTE], [[[Num(7)]]]) && AllReadable([BYTE], [[[Num(7)]]])
  {
    var types, rows := [BYTE], [[Num(7)]];
    SevenIs();
    assert TypesOf(m.schemas["t"]) == types;
    assert RowFits(types, rows[0]);
    FieldFits(types, rows, 0);
    assert Field(rows, 0) == ROWS;
    assert CountedField(types, rows, 0);
    assert PiecesOf(types, rows) == [Seven()];
    assert FieldOfAll(types, [rows], 0) == [ROWS];
  }

  lemma {:induction false} TwoWritten(codec: Codec, c: Commit, d: Commit, seg: Segment, last: Segment, before: Disk)
    requires c.NewSchema? && seg == SchemaSegment(c.name, c.columns) && !Silent(d)
    requires After(codec, [seg]) == Ok(before) && After(codec, [seg, last]).Ok?
    requires Typed(before.manifest, d) && SegmentOf(before.manifest, d) == Some(last)
    ensures Wrote(codec, [c, d], [seg, last])
  {
    assert [seg][..0] == [];
    WroteFirst(codec, c, seg);
    assert [c] + [d] == [c, d] && [seg] + [last] == [seg, last];
    WroteMore(codec, [c], [seg], d, last);
  }

  /** The commits wrote a schema segment and a data segment. */
  lemma {:induction false} SevenWritten() returns (before: Disk)
    ensures After(Terse(), [Opening()]) == Ok(before)
    ensures before.manifest.schemas == map["t" := SchemaEntry(Sector(24, 18), [ColumnEntry("a", BYTE, [])])]
    ensures Wrote(Terse(), Commits(), [Opening(), Batch()]) && After(Terse(), [Opening(), Batch()]).Ok?
    ensures "t" in Final(Terse(), [Opening(), Batch()]).schemas
    ensures TypesOf(Final(Terse(), [Opening(), Batch()]).schemas["t"]) == [BYTE]
  {
    before := FirstCommit();
    var after := SecondCommit(before);
    SevenBatch(before.manifest);
    TwoWritten(Terse(), Commits()[0], Commits()[1], Opening(), Batch(), before);
    assert [Commits()[0], Commits()[1]] == Commits();
  }

  lemma {:induction false} SevenBatches()
    ensures BatchesOf(Commits(), "t") == [[[Num(7)]]] && RowsOfRun(Commits(), "t") == [[Num(7)]]
  {
    var commits := Commits();
    assert commits[..1] == [commits[0]] && [commits[0]][..0] == [];
    assert BatchesOf([commits[0]], "t") == [] + [] == [];
    assert BatchesOf(commits, "t") == [] + [[[Num(7)]]];
    assert [[[Num(7)]]][1..] == [];
  }

  /**
   The commits are a run that meets the preconditions of the statements about runs; reading all rows
   yields the row, and so do reading its column and looking for seven there.
   */
  lemma {:induction false} SevenIsReadBack()
    ensures var codec, segs, commits := Terse(), [Opening(), Batch()], Commits();
            && Reached(codec, commits, segs, "t") && RunReadable(codec, commits, segs, "t")
            && TypesOf(Final(codec, segs).schemas["t"]) == [BYTE] && |Final(codec, segs).schemas["t"].columns| == 1
            && LegsFit([BYTE], [Joins.Leg(0, [Match(Num(7))])])
            && var cols := SourcesIn(Final(codec, segs), MappedBytes(codec, commits, segs, "t"), "t");
               && Covers(cols, 1, Unfiltered(1)) && ReadAcross(cols, Unfiltered(1), 1) == Ok([[Num(7)]])
               && Run(cols[0], Whole) == Ok([Include(Num(7))])
               && Run(cols[0], Filters(Whole, [Match(Num(7))])).Ok?
               && IncludedItems(Run(cols[0], Filters(Whole, [Match(Num(7))])).value) == [Num(7)]
  {
    var codec, segs, commits := Terse(), [Opening(), Batch()], Commits();
    var before := SevenWritten();
    SevenBatch(before.manifest);
    SevenBatches();
    RunHoldsBatches(codec, commits, segs, "t");
    RunReadsBack(codec, commits, segs, "t");
    SevenFits();
    SevenInColumn(codec, commits, segs);
  }

  lemma {:induction false} SevenInColumn(codec: Codec, commits: seq<Commit>, segs: seq<Segment>)
    requires Reached(codec, commits, segs, "t") && RunReadable(codec, commits, segs, "t")
    requires TypesOf(Final(codec, segs).schemas["t"]) == [BYTE] && BatchesOf(commits, "t") == [[[Num(7)]]]
    ensures var src := SourceIn(Final(codec, segs), MappedBytes(codec, commits, segs, "t"), "t", 0);
            && Run(src, Whole) == Ok([Include(Num(7))])
            && var r := Run(src, Filters(Whole, [Match(Num(7))])); r.Ok? && IncludedItems(r.value) == [Num(7)]
  {
    RunHoldsBatches(codec, commits, segs, "t");
    ValuesHeld(codec, commits, segs, "t", 0);
    SevenValues(Values(codec, commits, segs, "t", 0));
    SevenFound(SourceIn(Final(codec, segs), MappedBytes(codec, commits, segs, "t"), "t", 0), Values(codec, commits, segs, "t", 0));
  }

  lemma {:induction false} SevenFound(src: Src, values: seq<seq<Val>>)
    requires src.ty == BYTE && Holds(src, values) && values == [ROWS]
    ensures var r := Run(src, Filters(Whole, [Match(Num(7))])); r.Ok? && IncludedItems(r.value) == [Num(7)]
  {
    var ops := [Match(Num(7))];
    SevenIs();
    assert [ROWS][1..] == [] && Concat([ROWS]) == ROWS + Concat([]) == ROWS && ROWS[1..] == [];
    assert Stored(BYTE, src.buffers[0], src.mmap, values[0]) && Uniform(ROWS);
    CompactIsUniform(BYTE, src.buffers[0], src.mmap, ROWS);
    MatchExact(src, Whole, 7, values);
    SevenSelected(ops);
  }

  lemma {:induction false} SevenSelected(ops: seq<Op>)
    requires ops == [Match(Num(7))]
    ensures Select(KindOf(BYTE), ops, ROWS) == [Num(7)]
  {
    SevenFits();
    SingleFilter(BYTE, Match(Num(7)));
    BitMatchIsEquality(Num(7), Num(7));
    assert Image(ops, Num(7)) == Image(ops[..0], Num(7)) == Num(7);
    assert ROWS[1..] == [] && Select(KindOf(BYTE), ops, ROWS) == [Num(7)] + Select(KindOf(BYTE), ops, []);
  }

  lemma {:induction false} SevenFits()
    ensures LegsFit([BYTE], [Joins.Leg(0, [Match(Num(7))])])
  {
    var ops := [Match(Num(7))];
    SevenIs();
    assert ops[..0] == [] && Narrowed(BYTE, []) == BYTE && Applicable(BYTE, []);
  }

  lemma {:induction false} SevenValues(values: seq<seq<Val>>)
    requires AllBatchesFit([BYTE], [[[Num(7)]]]) && values == FieldOfAll([BYTE], [[[Num(7)]]], 0)
    ensures Includes(Concat(values)) == [Include(Num(7))] && values == [ROWS]
  {
    assert BatchFits([BYTE], [[[Num(7)]]][0]);
    FieldFits([BYTE], [[Num(7)]], 0);
    assert Field([[Num(7)]], 0) == [Num(7)];
    assert values == [ROWS] && [ROWS][1..] == [];
    assert Concat([ROWS]) == ROWS + Concat([]) == ROWS;
  }

  lemma {:induction false} SecondCommit(before: Disk) returns (after: Disk)
    requires After(Terse(), [Opening()]) == Ok(before) && before.header == Sector(42, 18)
    requires before.manifest.schemas == map["t" := SchemaEntry(Sector(24, 18), [ColumnEntry("a", BYTE, [])])]
    ensures After(Terse(), [Opening(), Batch()]) == Ok(after)
    ensures "t" in after.manifest.schemas && TypesOf(after.manifest.schemas["t"]) == [BYTE]
  {
    var columns := [ColumnEntry("a", BYTE, [])];
    DataFits(columns);
    var plan := SecondPlan(before, [Seven()], columns);
    after := Disk(WriteAll(before.bytes, plan.writes), plan.header, plan.manifest);
    Committing(Terse(), Opening(), Batch(), before, plan);
  }

  lemma {:induction false} Committing(codec: Codec, seg: Segment, last: Segment, before: Disk, plan: Plan)
    requires After(codec, [seg]) == Ok(before) && Planned(codec, before.header, before.manifest, last) == Ok(plan)
    ensures After(codec, [seg, last]) == Ok(Disk(WriteAll(before.bytes, plan.writes), plan.header, plan.manifest))
  {
    assert [seg, last][..1] == [seg];
    assert After(codec, [seg, last]) == Continued(codec, After(codec, [seg]), last);
  }

  lemma {:induction false} SecondPlan(before: Disk, pieces: seq<Piece>, columns: seq<ColumnEntry>) returns (plan: Plan)
    requires before.header == Sector(42, 18) && |columns| == 1
    requires before.manifest.schemas == map["t" := SchemaEntry(Sector(24, 18), columns)]
    requires WrapData(Terse(), Sector(24, 18), pieces, 42).Ok? && |WrapData(Terse(), Sector(24, 18), pieces, 42).value| == 54
    requires RegisterColumns(columns, pieces, 48).Ok?
    ensures Planned(Terse(), before.header, before.manifest, DataSegment("t", Sector(24, 18), pieces)) == Ok(plan)
    ensures "t" in plan.manifest.schemas && |plan.manifest.schemas["t"].columns| == 1
    ensures plan.manifest.schemas["t"].columns[0].ty == columns[0].ty
  {
    var seg := DataSegment("t", Sector(24, 18), pieces);
    var m := SecondRegister(before.manifest, pieces, columns);
    PlainLength(MANIFEST);
    assert Wrap(Terse(), seg, 42) == WrapData(Terse(), Sector(24, 18), pieces, 42);
    assert Sector(42, 54).Next() == Ok(96);
    Phases(Terse(), before.header, before.manifest, seg);
    plan := Planned(Terse(), before.header, before.manifest, seg).value;
  }

  lemma {:induction false} SecondRegister(m: Manifest, pieces: seq<Piece>, columns: seq<ColumnEntry>) returns (m': Manifest)
    requires m.schemas == map["t" := SchemaEntry(Sector(24, 18), columns)] && |columns| == 1
    requires RegisterColumns(columns, pieces, 48).Ok?
    ensures Register(m, DataSegment("t", Sector(24, 18), pieces), Sector(42, 54)) == Ok(m')
    ensures "t" in m'.schemas && |m'.schemas["t"].columns| == 1 && m'.schemas["t"].columns[0].ty == columns[0].ty
  {
    RegisterWalks(columns, pieces, 48);
    assert BodyOffset(Sector(42, 54), 25) == Ok(48);
    m' := Register(m, DataSegment("t", Sector(24, 18), pieces), Sector(42, 54)).value;
  }
}
