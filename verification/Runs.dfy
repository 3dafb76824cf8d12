/**
 Runs of commits: schemas registered, batches of rows and binaries written, in any order and number. What
 is read afterwards is stated in terms of the rows alone.
 */
module Runs {
  import opened Prelude
  import opened Bytes
  import opened Types
  import opened Pieces
  import opened Segment
  import opened Registry
  import opened File
  import opened History
  import opened Query
  import opened Pruning
  import opened Window
  import opened Meaning
  import opened Joins
  import opened Composite
  import opened EndToEnd

  /** One commit. A batch holds the rows pushed into one accumulator of its schema. */
  datatype Commit =
    | NewSchema(name: string, columns: seq<(string, Type)>)
    | NewBatch(name: string, rows: seq<seq<Val>>)
    | NewBinary(name: string, data: seq<Byte>)

  /** The segment a commit writes; a batch without rows, or without a schema, writes none. */
  ghost function SegmentOf(m: Manifest, c: Commit): Option<Segment>
    requires Typed(m, c)
  {
    match c
    case NewSchema(name, columns) => Some(SchemaSegment(name, columns))
    case NewBatch(name, rows) =>
      if rows == [] || name !in m.schemas then None
      else Some(DataSegment(name, m.schemas[name].sector, PiecesOf(TypesOf(m.schemas[name]), rows)))
    case NewBinary(name, data) => Some(BinSegment(name, data))
  }

  /** The rows of a batch have the types of its schema, and are few enough to be counted. */
  ghost predicate Typed(m: Manifest, c: Commit) {
    c.NewBatch? && c.name in m.schemas && c.rows != [] ==> BatchFits(TypesOf(m.schemas[c.name]), c.rows)
  }

  /** The commits went well one after another, from a new file on, and wrote `segs`. */
  ghost predicate Wrote(codec: Codec, commits: seq<Commit>, segs: seq<Segment>) {
    if commits == [] then segs == [] && Created(codec).Ok?
    else
      var n, last := |segs| - 1, commits[|commits| - 1];
      var init := commits[..|commits| - 1];
      if Silent(last) then Wrote(codec, init, segs)
      else
        && segs != [] && Wrote(codec, init, segs[..n]) && After(codec, segs).Ok? && After(codec, segs[..n]).Ok?
        && var m := After(codec, segs[..n]).value.manifest; Typed(m, last) && SegmentOf(m, last) == Some(segs[n])
  }

  /** A batch without rows. */
  predicate Silent(c: Commit) {
    c.NewBatch? && c.rows == []
  }

  /** One commit more. */
  lemma {:induction false} WroteMore(codec: Codec, commits: seq<Commit>, segs: seq<Segment>, c: Commit, seg: Segment)
    requires Wrote(codec, commits, segs) && !Silent(c) && After(codec, segs).Ok? && After(codec, segs + [seg]).Ok?
    requires var m := After(codec, segs).value.manifest; Typed(m, c) && SegmentOf(m, c) == Some(seg)
    ensures Wrote(codec, commits + [c], segs + [seg])
  {
    Snoc(commits, c);
    Snoc(segs, seg);
  }

  /** The first commit. */
  lemma {:induction false} WroteFirst(codec: Codec, c: Commit, seg: Segment)
    requires Created(codec).Ok? && !Silent(c) && After(codec, [seg]).Ok?
    requires Typed(Created(codec).value.manifest, c) && SegmentOf(Created(codec).value.manifest, c) == Some(seg)
    ensures Wrote(codec, [c], [seg])
  {
    assert [] + [c] == [c] && [] + [seg] == [seg];
    WroteMore(codec, [], [], c, seg);
  }

  /** The batches of a schema, in commit order. */
  function BatchesOf(commits: seq<Commit>, name: string): seq<seq<seq<Val>>> {
    if commits == [] then []
    else
      BatchesOf(commits[..|commits| - 1], name) + Added(commits[|commits| - 1], name)
  }

  /** All rows of a schema, in commit order. */
  function RowsOfRun(commits: seq<Commit>, name: string): seq<seq<Val>> {
    Concat(BatchesOf(commits, name))
  }

  /** Committing leaves the types of a schema that is already there as they are. */
  lemma {:induction false} TypesStay(codec: Codec, d: Disk, seg: Segment, name: string)
    requires Committed(codec, d, seg).Ok? && name in d.manifest.schemas
    ensures var m := Committed(codec, d, seg).value.manifest;
            name in m.schemas && TypesOf(m.schemas[name]) == TypesOf(d.manifest.schemas[name])
  {
    PlanParts(codec, d.header, d.manifest, seg);
    var sector := Planned(codec, d.header, d.manifest, seg).value.sector;
    if seg.DataSegment? && seg.name == name {
      RegisterWalks(d.manifest.schemas[name].columns, seg.pieces, BodyOffset(sector, 25).value);
    }
  }

  /** A schema appears with the segment that registers it. */
  lemma {:induction false} NamesGrow(codec: Codec, d: Disk, seg: Segment, name: string)
    requires Committed(codec, d, seg).Ok? && name !in d.manifest.schemas
    ensures var m := Committed(codec, d, seg).value.manifest;
            && (name in m.schemas <==> seg.SchemaSegment? && seg.name == name)
            && !(seg.DataSegment? && seg.name == name)
  {
    PlanParts(codec, d.header, d.manifest, seg);
  }

  /** What a commit adds to the batches of a schema. */
  function Added(c: Commit, name: string): seq<seq<seq<Val>>> {
    if c.NewBatch? && c.name == name && c.rows != [] then [c.rows] else []
  }

  /** One commit accounts for one batch more of its schema, and for nothing else. */
  lemma {:induction false} OneCommitMore(codec: Codec, d: Disk, c: Commit, segs: seq<Segment>, seg: Segment, name: string,
                                         batches: seq<seq<seq<Val>>>)
    requires Typed(d.manifest, c) && SegmentOf(d.manifest, c) == Some(seg) && Committed(codec, d, seg).Ok?
    requires Accounts(d.manifest, segs, name, batches)
    ensures Accounts(Committed(codec, d, seg).value.manifest, segs + [seg], name, batches + Added(c, name))
  {
    assert (segs + [seg])[..|segs|] == segs && batches + [] == batches;
    if name in d.manifest.schemas {
      TypesStay(codec, d, seg, name);
      if seg.DataSegment? && seg.name == name { assert (batches + [c.rows])[..|batches|] == batches; }
    } else {
      NamesGrow(codec, d, seg, name);
      assert NoData(segs + [seg], name);
      var m := Committed(codec, d, seg).value.manifest;
      if name in m.schemas { NoDataIsEmpty(segs + [seg], name, TypesOf(m.schemas[name])); }
    }
  }

  /** The segment of a batch fits its schema. */
  lemma {:induction false} SegmentFits(m: Manifest, c: Commit)
    requires Typed(m, c) && SegmentOf(m, c).Some?
    ensures Fits(m, SegmentOf(m, c).value)
  {
    if c.NewBatch? {
      PiecesCount(TypesOf(m.schemas[c.name]), c.rows);
    }
  }

  /** After any run the file is sound, and its segments hold the batches of every schema. */
  lemma {:induction false} RunAccounts(codec: Codec, commits: seq<Commit>, segs: seq<Segment>, name: string)
    requires codec.Valid() && Wrote(codec, commits, segs)
    ensures AllFit(codec, segs) && After(codec, segs).Ok?
    ensures Accounts(After(codec, segs).value.manifest, segs, name, BatchesOf(commits, name))
    decreases |commits|
  {
    if commits != [] {
      var n, last, init := |segs| - 1, commits[|commits| - 1], commits[..|commits| - 1];
      if Silent(last) {
        RunAccounts(codec, init, segs, name);
        assert BatchesOf(init, name) + [] == BatchesOf(init, name);
      } else {
        RunAccounts(codec, init, segs[..n], name);
        SegmentFits(After(codec, segs[..n]).value.manifest, last);
        LastCommit(codec, segs);
        OneCommitMore(codec, After(codec, segs[..n]).value, last, segs[..n], segs[n], name, BatchesOf(init, name));
      }
    }
  }

  /* ---------------------------------------------------------------- Reading after a run */

  /** A run that wrote `segs`, and the name of a schema it registered. */
  ghost predicate Reached(codec: Codec, commits: seq<Commit>, segs: seq<Segment>, name: string) {
    codec.Valid() && Wrote(codec, commits, segs) && After(codec, segs).Ok? && name in After(codec, segs).value.manifest.schemas
  }

  /** The manifest after the run. */
  ghost function Final(codec: Codec, segs: seq<Segment>): Manifest
    requires After(codec, segs).Ok?
  {
    After(codec, segs).value.manifest
  }

  /** The bytes mapped after the run. */
  ghost function MappedBytes(codec: Codec, commits: seq<Commit>, segs: seq<Segment>, name: string): seq<Byte>
    requires Reached(codec, commits, segs, name)
  {
    RunAccounts(codec, commits, segs, name);
    RunSound(codec, segs);
    Mapped(After(codec, segs).value)
  }

  /** After any run, the manifest locates exactly the batches of every schema in the mapped region. */
  lemma {:induction false} RunHoldsBatches(codec: Codec, commits: seq<Commit>, segs: seq<Segment>, name: string)
    requires Reached(codec, commits, segs, name)
    ensures HoldsBatches(Final(codec, segs), segs, MappedBytes(codec, commits, segs, name), name, BatchesOf(commits, name))
    ensures AllBatchesFit(TypesOf(Final(codec, segs).schemas[name]), BatchesOf(commits, name))
  {
    RunAccounts(codec, commits, segs, name);
    RunSound(codec, segs);
    BatchedFit(segs, name, TypesOf(Final(codec, segs).schemas[name]), BatchesOf(commits, name));
  }

  /** Every field of every batch of the schema is decodable. */
  ghost predicate RunReadable(codec: Codec, commits: seq<Commit>, segs: seq<Segment>, name: string)
    requires Reached(codec, commits, segs, name)
  {
    RunHoldsBatches(codec, commits, segs, name);
    AllReadable(TypesOf(Final(codec, segs).schemas[name]), BatchesOf(commits, name))
  }

  /** The values of field `c`, in commit order. */
  ghost function Values(codec: Codec, commits: seq<Commit>, segs: seq<Segment>, name: string, c: nat): seq<seq<Val>>
    requires Reached(codec, commits, segs, name) && c < |Final(codec, segs).schemas[name].columns|
  {
    RunHoldsBatches(codec, commits, segs, name);
    FieldOfAll(TypesOf(Final(codec, segs).schemas[name]), BatchesOf(commits, name), c)
  }

  /**
   Lockstep after any run: every column of a schema has one buffer per nonempty batch, counting its rows,
   with strictly increasing sectors on eight-byte boundaries.
   */
  lemma {:induction false} RunInLockstep(codec: Codec, commits: seq<Commit>, segs: seq<Segment>, name: string, c: nat)
    requires Reached(codec, commits, segs, name) && c < |Final(codec, segs).schemas[name].columns|
    ensures var bs, batches := SourceIn(Final(codec, segs), MappedBytes(codec, commits, segs, name), name, c).buffers, BatchesOf(commits, name);
            && |bs| == |batches|
            && (forall k :: 0 <= k < |bs| ==> bs[k].count == |batches[k]| > 0 && bs[k].sector.offset % 8 == 0)
            && (forall j, k :: 0 <= j < k < |bs| ==> bs[j].sector.End() < bs[k].sector.offset)
  {
    RunHoldsBatches(codec, commits, segs, name);
    ColumnsInLockstep(Final(codec, segs), segs, MappedBytes(codec, commits, segs, name), name, BatchesOf(commits, name), c);
  }

  /**
   A query over one column after any run, exactly: it never fails, and yields, from the values pushed in
   commit order, those in its window that pass its filters, if and only if every buffer with such a value
   is spared by every filter.
   */
  lemma {:induction false} QueryOverRun(codec: Codec, commits: seq<Commit>, segs: seq<Segment>, name: string, c: nat, window: Chain, ops: seq<Op>)
    requires Reached(codec, commits, segs, name) && c < |Final(codec, segs).schemas[name].columns|
    requires RunReadable(codec, commits, segs, name)
    requires OneWindow(window) && |Concat(Values(codec, commits, segs, name, c))| <= U64_MAX
    requires Applicable(Final(codec, segs).schemas[name].columns[c].ty, ops)
    ensures var src := SourceIn(Final(codec, segs), MappedBytes(codec, commits, segs, name), name, c);
            var values := Values(codec, commits, segs, name, c); var r := Run(src, Filters(window, ops));
            && r.Ok? && (forall o :: o in r.value ==> !o.Failure?) && |values| == |src.buffers|
            && IncludedItems(r.value) == Select(KindOf(src.ty), ops, RowsOf(Spared(src, ops, values), Windowed(window, values)))
            && (FindsAll(src, window, ops, values)
                <==> forall i :: 0 <= i < |values| && !NonePass(KindOf(src.ty), ops, Windowed(window, values)[i]) ==>
                       SparesAll(src.ty, ops, src.buffers[i], values[i]))
  {
    ValuesHeld(codec, commits, segs, name, c);
    TwoPhaseExact(SourceIn(Final(codec, segs), MappedBytes(codec, commits, segs, name), name, c), window, ops, Values(codec, commits, segs, name, c));
  }

  /** The values pushed are what the column holds, and all it holds. */
  lemma {:induction false} ValuesHeld(codec: Codec, commits: seq<Commit>, segs: seq<Segment>, name: string, c: nat)
    requires Reached(codec, commits, segs, name) && c < |Final(codec, segs).schemas[name].columns|
    requires RunReadable(codec, commits, segs, name)
    ensures var src := SourceIn(Final(codec, segs), MappedBytes(codec, commits, segs, name), name, c);
            var values := Values(codec, commits, segs, name, c);
            && Holds(src, values) && Run(src, Whole) == Ok(Includes(Concat(values))) && RecordedItems(src.buffers) == |Concat(values)|
  {
    var m, region := Final(codec, segs), MappedBytes(codec, commits, segs, name);
    RunHoldsBatches(codec, commits, segs, name);
    ColumnRecorded(m, segs, region, name, BatchesOf(commits, name), c);
    CommittedColumnHolds(m, segs, region, name, c, Values(codec, commits, segs, name, c));
    RecordedIsPushed(m, segs, region, name, c, Values(codec, commits, segs, name, c));
  }

  /**
   Composite reading after any run, exactly: it never fails, and accepts, in order, the pushed rows that
   satisfy the Boolean tree, if and only if none of them lies in a buffer the tree clears and none is lost
   to an absent item.
   */
  lemma {:induction false} CompositeOverRun(codec: Codec, commits: seq<Commit>, segs: seq<Segment>, name: string, t: Tree)
    requires Reached(codec, commits, segs, name) && RunReadable(codec, commits, segs, name)
    requires LegsFit(TypesOf(Final(codec, segs).schemas[name]), Legs(t))
    ensures var types, batches := TypesOf(Final(codec, segs).schemas[name]), BatchesOf(commits, name);
            var cols, n, rows := SourcesIn(Final(codec, segs), MappedBytes(codec, commits, segs, name), name), |batches|, RowsOfRun(commits, name);
            && AllBatchesFit(types, batches) && RowsFit(types, rows) && Covers(cols, n, t)
            && Even(Picked(ColumnsOf(types, batches), Legs(t)), n)
            && ReadAcross(cols, t, n) == Ok(KeptRows(cols, ColumnsOf(types, batches), t, n))
            && (KeptRows(cols, ColumnsOf(types, batches), t, n)
                == Images(Legs(t), Sift(Test(cols, n, t), ProjectAll(types, Legs(t), rows)))
                <==> NoRowLacking(cols, ColumnsOf(types, batches), t, n))
  {
    RunHoldsBatches(codec, commits, segs, name);
    CompositeOver(Final(codec, segs), segs, MappedBytes(codec, commits, segs, name), name, BatchesOf(commits, name), t);
  }

  /** Reading whole rows after any run yields the pushed rows in commit order. */
  lemma {:induction false} RunReadsBack(codec: Codec, commits: seq<Commit>, segs: seq<Segment>, name: string)
    requires Reached(codec, commits, segs, name) && RunReadable(codec, commits, segs, name)
    requires |Final(codec, segs).schemas[name].columns| > 0
    ensures var cols, t := SourcesIn(Final(codec, segs), MappedBytes(codec, commits, segs, name), name), Unfiltered(|Final(codec, segs).schemas[name].columns|);
            Covers(cols, |BatchesOf(commits, name)|, t) && ReadAcross(cols, t, |BatchesOf(commits, name)|) == Ok(RowsOfRun(commits, name))
  {
    RunHoldsBatches(codec, commits, segs, name);
    RowsReadBack(Final(codec, segs), segs, MappedBytes(codec, commits, segs, name), name, BatchesOf(commits, name));
  }
}
