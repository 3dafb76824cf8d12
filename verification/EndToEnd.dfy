/**
 From pushed rows to query results, across the codec, the file and the two-phase reader: what may be read
 from a mapped region that a manifest describes.
 */
module EndToEnd {
  import opened Prelude
  import opened Bytes
  import opened Types
  import opened Accumulate
  import opened RoundTrip
  import opened Stats
  import opened Column
  import opened Layout
  import opened Pieces
  import opened Segment
  import opened Registry
  import opened Query
  import opened Pruning
  import opened Window
  import opened Meaning
  import opened Joins
  import opened Composite

  /** A located piece is a stored buffer. */
  lemma {:induction false} LocatedIsStored(ty: Type, rows: seq<Val>, b: Stats.Buffer, region: seq<Byte>)
    requires AllAre(rows, ty) && Locates(b, PieceOf(ty, StateOf(ty, rows)), region)
    requires rows != [] ==> Counted(ty, Kept(rows))
    ensures Stored(ty, b, region, rows)
  {
    PieceCounts(ty, rows);
    var acc := Written(StateOf(ty, rows), ty).value;
    SizeIsExact(acc);
  }

  /* ---------------------------------------------------------------- One column */

  /** The pieces committed for a column of type `ty` are what pushing `batches` into it builds. */
  ghost predicate Pushed(pieces: seq<Piece>, ty: Type, batches: seq<seq<Val>>) {
    |pieces| == |batches| && forall k :: 0 <= k < |pieces| ==> PushedOne(pieces[k], ty, batches[k])
  }

  /** Fewer rows and elements than the 64-bit counters can tell from the absence marker. */
  ghost predicate PushedOne(piece: Piece, ty: Type, rows: seq<Val>) {
    AllAre(rows, ty) && piece == PieceOf(ty, StateOf(ty, rows)) && (rows != [] ==> Counted(ty, Kept(rows)))
  }

  predicate Readable(ty: Type, batches: seq<seq<Val>>) {
    forall k :: 0 <= k < |batches| ==> Decodable(ty, batches[k])
  }

  /** One column of a schema, over the mapped region. */
  function SourceIn(m: Manifest, region: seq<Byte>, name: string, c: nat): Src
    requires name in m.schemas && c < |m.schemas[name].columns|
  {
    var column := m.schemas[name].columns[c];
    Src(column.ty, column.buffers, region)
  }

  /** The manifest describes the region and records the column; `batches` were pushed into it. */
  ghost predicate Recorded(m: Manifest, segs: seq<Segment>, region: seq<Byte>, name: string, c: nat, batches: seq<seq<Val>>) {
    && Describes(m, segs, region) && name in m.schemas && c < |m.schemas[name].columns|
    && Pushed(ColumnLog(segs, name, c), m.schemas[name].columns[c].ty, batches)
  }

  lemma {:induction false} ColumnTraced(m: Manifest, segs: seq<Segment>, region: seq<Byte>, name: string, c: nat)
    requires Describes(m, segs, region) && name in m.schemas && c < |m.schemas[name].columns|
    ensures Traces(SourceIn(m, region, name, c).buffers, ColumnLog(segs, name, c), region)
  {
    assert DescribesSchema(m.schemas[name], segs, name, region);
  }

  /**
   Column round trip through the file: each buffer recorded for a column reads back as the rows pushed for
   that commit, exactly when those rows are decodable.
   */
  lemma {:induction false} CommittedColumnReads(m: Manifest, segs: seq<Segment>, region: seq<Byte>, name: string, c: nat, batches: seq<seq<Val>>)
    requires Recorded(m, segs, region, name, c, batches)
    ensures var src := SourceIn(m, region, name, c);
            && |src.buffers| == |batches|
            && (forall k :: 0 <= k < |batches| ==> Stored(src.ty, src.buffers[k], region, batches[k]))
            && (forall k :: 0 <= k < |batches| ==>
                  (ReadBuffer(src.ty, src.buffers[k], region) == Oks(batches[k]) <==> Decodable(src.ty, batches[k])))
  {
    var src := SourceIn(m, region, name, c);
    ColumnTraced(m, segs, region, name, c);
    forall k | 0 <= k < |batches|
      ensures Stored(src.ty, src.buffers[k], region, batches[k])
      ensures ReadBuffer(src.ty, src.buffers[k], region) == Oks(batches[k]) <==> Decodable(src.ty, batches[k])
    {
      BatchReads(src.ty, batches[k], src.buffers[k], region, ColumnLog(segs, name, c)[k]);
    }
  }

  lemma {:induction false} BatchReads(ty: Type, rows: seq<Val>, b: Stats.Buffer, region: seq<Byte>, piece: Piece)
    requires Locates(b, piece, region) && PushedOne(piece, ty, rows)
    ensures Stored(ty, b, region, rows)
    ensures ReadBuffer(ty, b, region) == Oks(rows) <==> Decodable(ty, rows)
  {
    LocatedIsStored(ty, rows, b, region);
    StoredReadsBack(ty, b, region, rows);
  }

  /** The rows of all commits, in commit order, is what reading the whole column yields. */
  lemma {:induction false} CommittedColumnHolds(m: Manifest, segs: seq<Segment>, region: seq<Byte>, name: string, c: nat, batches: seq<seq<Val>>)
    requires Recorded(m, segs, region, name, c, batches) && Readable(m.schemas[name].columns[c].ty, batches)
    ensures Holds(SourceIn(m, region, name, c), batches)
    ensures Run(SourceIn(m, region, name, c), Whole) == Ok(Includes(Concat(batches)))
  {
    var src := SourceIn(m, region, name, c);
    CommittedColumnReads(m, segs, region, name, c, batches);
    StreamIsRows(src.ty, src.buffers, src.mmap, Trues(|batches|), batches);
    AllRows(Trues(|batches|), batches);
    FirstOfIncludes(0, Concat(batches));
    WholeRun(src);
  }

  lemma {:induction false} WholeRun(src: Src)
    ensures Run(src, Whole) == Ok(Drop(0, Stream(src.ty, src.buffers, src.mmap, Trues(|src.buffers|))))
  {
  }

  /** Items recorded for a schema: the counts of its first column, added up. */
  function RecordedItems(bs: seq<Stats.Buffer>): nat {
    if bs == [] then 0 else bs[0].count + RecordedItems(bs[1..])
  }

  /** The recorded count of any column is the number of rows pushed into it over all commits. */
  lemma {:induction false} RecordedIsPushed(m: Manifest, segs: seq<Segment>, region: seq<Byte>, name: string, c: nat, batches: seq<seq<Val>>)
    requires Recorded(m, segs, region, name, c, batches)
    ensures RecordedItems(SourceIn(m, region, name, c).buffers) == |Concat(batches)|
  {
    var src := SourceIn(m, region, name, c);
    CommittedColumnReads(m, segs, region, name, c, batches);
    forall k | 0 <= k < |batches| ensures src.buffers[k].count == |batches[k]| {
      StoredCount(src.ty, src.buffers[k], src.mmap, batches[k]);
    }
    CountsAddUp(src.buffers, batches);
  }

  lemma {:induction false} CountsAddUp(bs: seq<Stats.Buffer>, batches: seq<seq<Val>>)
    requires |bs| == |batches| && forall k :: 0 <= k < |bs| ==> bs[k].count == |batches[k]|
    ensures RecordedItems(bs) == |Concat(batches)|
  {
    if bs != [] {
      CountsAddUp(bs[1..], batches[1..]);
    }
  }

  /* ---------------------------------------------------------------- Batches of rows */

  /** A batch of rows an accumulator for fields of these types can hold and a data segment record. */
  ghost predicate BatchFits(types: seq<Type>, rows: seq<seq<Val>>) {
    && RowsFit(types, rows) && rows != []
    && forall c :: 0 <= c < |types| ==> CountedField(types, rows, c)
  }

  predicate CountedField(types: seq<Type>, rows: seq<seq<Val>>, c: nat)
    requires RowsFit(types, rows) && rows != [] && c < |types|
  {
    FieldFits(types, rows, c);
    Counted(types[c], Kept(Field(rows, c)))
  }

  /** The data segments of a schema hold `batches`, one each and in order. */
  ghost predicate Batched(segs: seq<Segment>, name: string, types: seq<Type>, batches: seq<seq<seq<Val>>>) {
    if segs == [] then batches == []
    else
      var n, m := |segs| - 1, |batches| - 1;
      if segs[n].DataSegment? && segs[n].name == name then
        && batches != [] && BatchFits(types, batches[m]) && segs[n].pieces == PiecesOf(types, batches[m])
        && Batched(segs[..n], name, types, batches[..m])
      else Batched(segs[..n], name, types, batches)
  }

  /** The data segment of these rows. */
  ghost predicate HoldsRows(seg: Segment, types: seq<Type>, rows: seq<seq<Val>>) {
    seg.DataSegment? && types != [] && RowsFit(types, rows) && seg.pieces == PiecesOf(types, rows)
  }

  ghost predicate AllBatchesFit(types: seq<Type>, batches: seq<seq<seq<Val>>>) {
    forall k :: 0 <= k < |batches| ==> BatchFits(types, batches[k])
  }

  /** Field `c` of every batch. */
  ghost function FieldOfAll(types: seq<Type>, batches: seq<seq<seq<Val>>>, c: nat): (r: seq<seq<Val>>)
    requires AllBatchesFit(types, batches) && c < |types|
    ensures |r| == |batches|
  {
    seq(|batches|, k requires 0 <= k < |batches| =>
      assert BatchFits(types, batches[k]); FieldFits(types, batches[k], c); Field(batches[k], c))
  }

  lemma {:induction false} BatchedFit(segs: seq<Segment>, name: string, types: seq<Type>, batches: seq<seq<seq<Val>>>)
    requires Batched(segs, name, types, batches)
    ensures AllBatchesFit(types, batches)
  {
    if segs != [] {
      var n, m := |segs| - 1, |batches| - 1;
      if segs[n].DataSegment? && segs[n].name == name {
        BatchedFit(segs[..n], name, types, batches[..m]);
        OneBatchMore(types, batches);
      } else {
        BatchedFit(segs[..n], name, types, batches);
      }
    }
  }

  lemma {:induction false} OneBatchMore(types: seq<Type>, batches: seq<seq<seq<Val>>>)
    requires batches != [] && AllBatchesFit(types, batches[..|batches| - 1]) && BatchFits(types, batches[|batches| - 1])
    ensures AllBatchesFit(types, batches)
  {
    forall k | 0 <= k < |batches| ensures BatchFits(types, batches[k]) {
      if k < |batches| - 1 { assert batches[..|batches| - 1][k] == batches[k]; }
    }
  }

  /** Field by field, the segments hold what pushing the batches builds. */
  lemma {:induction false} BatchedPushed(segs: seq<Segment>, name: string, types: seq<Type>, batches: seq<seq<seq<Val>>>, c: nat)
    requires Batched(segs, name, types, batches) && AllBatchesFit(types, batches) && c < |types|
    ensures Pushed(ColumnLog(segs, name, c), types[c], FieldOfAll(types, batches, c))
  {
    if segs != [] {
      var n, m := |segs| - 1, |batches| - 1;
      if segs[n].DataSegment? && segs[n].name == name {
        var before, last := batches[..m], batches[m];
        BatchedFit(segs[..n], name, types, before);
        BatchedPushed(segs[..n], name, types, before, c);
        BatchPushed(types, last, c);
        forall k | 0 <= k <= m
          ensures PushedOne(ColumnLog(segs, name, c)[k], types[c], FieldOfAll(types, batches, c)[k])
        {
          if k < m { assert PushedOne(ColumnLog(segs[..n], name, c)[k], types[c], FieldOfAll(types, before, c)[k]); }
        }
      } else {
        BatchedPushed(segs[..n], name, types, batches, c);
      }
    }
  }

  lemma {:induction false} BatchPushed(types: seq<Type>, rows: seq<seq<Val>>, c: nat)
    requires BatchFits(types, rows) && c < |types|
    ensures (forall i :: 0 <= i < |rows| ==> c < |rows[i]|) && PushedOne(PiecesOf(types, rows)[c], types[c], Field(rows, c))
  {
    FieldFits(types, rows, c);
    assert CountedField(types, rows, c);
  }

  /** Without a schema there are no batches. */
  predicate NoData(segs: seq<Segment>, name: string) {
    forall i :: 0 <= i < |segs| ==> !(segs[i].DataSegment? && segs[i].name == name)
  }

  lemma {:induction false} NoDataIsEmpty(segs: seq<Segment>, name: string, types: seq<Type>)
    requires NoData(segs, name)
    ensures Batched(segs, name, types, [])
  {
    if segs != [] {
      NoDataIsEmpty(segs[..|segs| - 1], name, types);
    }
  }

  /* ---------------------------------------------------------------- All columns of a schema */

  function TypesOf(entry: SchemaEntry): (types: seq<Type>)
    ensures |types| == |entry.columns|
  {
    seq(|entry.columns|, c requires 0 <= c < |entry.columns| => entry.columns[c].ty)
  }

  /** The manifest describes the region, and `batches` are the rows pushed for the schema, commit by commit. */
  ghost predicate HoldsBatches(m: Manifest, segs: seq<Segment>, region: seq<Byte>, name: string, batches: seq<seq<seq<Val>>>) {
    && Describes(m, segs, region) && name in m.schemas
    && Batched(segs, name, TypesOf(m.schemas[name]), batches)
  }

  /** The segments hold the batches of a schema, or nothing under its name. */
  ghost predicate Accounts(m: Manifest, segs: seq<Segment>, name: string, batches: seq<seq<seq<Val>>>) {
    if name in m.schemas then Batched(segs, name, TypesOf(m.schemas[name]), batches) else NoData(segs, name) && batches == []
  }

  /** The sources of all columns of a schema. */
  function SourcesIn(m: Manifest, region: seq<Byte>, name: string): (r: seq<Src>)
    requires name in m.schemas
    ensures |r| == |m.schemas[name].columns|
  {
    seq(|m.schemas[name].columns|, c requires 0 <= c < |m.schemas[name].columns| => SourceIn(m, region, name, c))
  }

  /** Every field of every batch is decodable. */
  ghost predicate AllReadable(types: seq<Type>, batches: seq<seq<seq<Val>>>)
    requires AllBatchesFit(types, batches)
  {
    forall c :: 0 <= c < |types| ==> Readable(types[c], FieldOfAll(types, batches, c))
  }

  /** The columns of the batches: field by field, commit by commit. */
  ghost function ColumnsOf(types: seq<Type>, batches: seq<seq<seq<Val>>>): (data: seq<seq<seq<Val>>>)
    requires AllBatchesFit(types, batches)
    ensures |data| == |types| && forall c :: 0 <= c < |data| ==> data[c] == FieldOfAll(types, batches, c)
  {
    seq(|types|, c requires 0 <= c < |types| => FieldOfAll(types, batches, c))
  }

  lemma {:induction false} ColumnRecorded(m: Manifest, segs: seq<Segment>, region: seq<Byte>, name: string, batches: seq<seq<seq<Val>>>, c: nat)
    requires HoldsBatches(m, segs, region, name, batches) && c < |m.schemas[name].columns|
    ensures AllBatchesFit(TypesOf(m.schemas[name]), batches)
    ensures Recorded(m, segs, region, name, c, FieldOfAll(TypesOf(m.schemas[name]), batches, c))
  {
    BatchedFit(segs, name, TypesOf(m.schemas[name]), batches);
    BatchedPushed(segs, name, TypesOf(m.schemas[name]), batches, c);
  }

  /**
   Lockstep: the columns of a schema have one buffer per commit, each counting the rows of that commit, with
   strictly increasing sectors on eight-byte boundaries.
   */
  lemma {:induction false} ColumnsInLockstep(m: Manifest, segs: seq<Segment>, region: seq<Byte>, name: string, batches: seq<seq<seq<Val>>>, c: nat)
    requires HoldsBatches(m, segs, region, name, batches) && c < |m.schemas[name].columns|
    ensures var bs := SourceIn(m, region, name, c).buffers;
            && |bs| == |batches|
            && (forall k :: 0 <= k < |bs| ==> bs[k].count == |batches[k]| > 0 && bs[k].sector.offset % 8 == 0)
            && (forall j, k :: 0 <= j < k < |bs| ==> bs[j].sector.End() < bs[k].sector.offset)
  {
    var src, types := SourceIn(m, region, name, c), TypesOf(m.schemas[name]);
    ColumnRecorded(m, segs, region, name, batches, c);
    ColumnTraced(m, segs, region, name, c);
    CommittedColumnReads(m, segs, region, name, c, FieldOfAll(types, batches, c));
    forall k | 0 <= k < |batches| ensures src.buffers[k].count == |batches[k]| > 0 && src.buffers[k].sector.offset % 8 == 0 {
      StoredCount(src.ty, src.buffers[k], region, FieldOfAll(types, batches, c)[k]);
      assert Locates(src.buffers[k], ColumnLog(segs, name, c)[k], region);
    }
  }

  /** The columns hold the batches, buffer by buffer and in lockstep. */
  lemma {:induction false} ColumnsAligned(m: Manifest, segs: seq<Segment>, region: seq<Byte>, name: string, batches: seq<seq<seq<Val>>>)
    requires HoldsBatches(m, segs, region, name, batches)
    requires var types := TypesOf(m.schemas[name]); AllBatchesFit(types, batches) && AllReadable(types, batches)
    ensures Aligned(SourcesIn(m, region, name), ColumnsOf(TypesOf(m.schemas[name]), batches), |batches|)
  {
    var types, cols := TypesOf(m.schemas[name]), SourcesIn(m, region, name);
    forall c | 0 <= c < |cols| ensures Holds(cols[c], ColumnsOf(types, batches)[c]) {
      ColumnRecorded(m, segs, region, name, batches, c);
      CommittedColumnHolds(m, segs, region, name, c, FieldOfAll(types, batches, c));
    }
    ColumnsLevel(types, batches);
  }

  lemma {:induction false} ColumnsLevel(types: seq<Type>, batches: seq<seq<seq<Val>>>)
    requires AllBatchesFit(types, batches)
    ensures forall c :: 0 <= c < |types| ==> |ColumnsOf(types, batches)[c]| == |batches|
    ensures forall c, i :: 0 <= c < |types| && 0 <= i < |batches| ==> |ColumnsOf(types, batches)[c][i]| == |batches[i]|
  {
  }

  /* ---------------------------------------------------------------- Rows read across */

  /** The items the legs take from a row. */
  function Project(legs: seq<Joins.Leg>, row: seq<Val>): seq<Val>
    requires forall l :: 0 <= l < |legs| ==> legs[l].column < |row|
  {
    seq(|legs|, l requires 0 <= l < |legs| => row[legs[l].column])
  }

  function ProjectAll(types: seq<Type>, legs: seq<Joins.Leg>, rows: seq<seq<Val>>): (r: seq<seq<Val>>)
    requires RowsFit(types, rows) && forall l :: 0 <= l < |legs| ==> legs[l].column < |types|
    ensures |r| == |rows|
  {
    seq(|rows|, k requires 0 <= k < |rows| => assert RowFits(types, rows[k]); Project(legs, rows[k]))
  }

  lemma {:induction false} AllRowsFit(types: seq<Type>, batches: seq<seq<seq<Val>>>)
    requires AllBatchesFit(types, batches)
    ensures RowsFit(types, Concat(batches))
  {
    if batches != [] {
      assert BatchFits(types, batches[0]);
      AllRowsFit(types, batches[1..]);
    }
  }

  /** Reading the columns of one batch across gives the rows as they were pushed. */
  lemma {:induction false} BatchAcross(types: seq<Type>, batches: seq<seq<seq<Val>>>, legs: seq<Joins.Leg>, k: nat)
    requires AllBatchesFit(types, batches) && legs != [] && forall l :: 0 <= l < |legs| ==> legs[l].column < |types|
    requires Even(Picked(ColumnsOf(types, batches), legs), |batches|) && k < |batches|
    ensures RowsFit(types, batches[k])
    ensures RowParts(Picked(ColumnsOf(types, batches), legs), |batches|)[k] == ProjectAll(types, legs, batches[k])
  {
    var picked := Picked(ColumnsOf(types, batches), legs);
    assert BatchFits(types, batches[k]);
    var across, rows := RowParts(picked, |batches|)[k], ProjectAll(types, legs, batches[k]);
    forall i | 0 <= i < |rows| ensures across[i] == rows[i] {
      assert RowFits(types, batches[k][i]);
      forall l | 0 <= l < |legs| ensures across[i][l] == rows[i][l] {
        assert picked[l][k][i] == batches[k][i][legs[l].column];
      }
    }
  }

  lemma {:induction false} ProjectConcat(types: seq<Type>, legs: seq<Joins.Leg>, batches: seq<seq<seq<Val>>>, parts: seq<seq<seq<Val>>>)
    requires AllBatchesFit(types, batches) && forall l :: 0 <= l < |legs| ==> legs[l].column < |types|
    requires |parts| == |batches| && RowsFit(types, Concat(batches))
    requires forall k :: 0 <= k < |batches| ==> RowsFit(types, batches[k]) && parts[k] == ProjectAll(types, legs, batches[k])
    ensures Concat(parts) == ProjectAll(types, legs, Concat(batches))
  {
    if batches != [] {
      assert BatchFits(types, batches[0]);
      AllRowsFit(types, batches[1..]);
      ProjectConcat(types, legs, batches[1..], parts[1..]);
    }
  }

  /** The naive rows of a composite read are the pushed rows that satisfy the tree. */
  lemma {:induction false} NaiveRowsArePushed(cols: seq<Src>, types: seq<Type>, batches: seq<seq<seq<Val>>>, t: Tree)
    requires |cols| == |types| && AllBatchesFit(types, batches) && Covers(cols, |batches|, t)
    requires Even(Picked(ColumnsOf(types, batches), Legs(t)), |batches|)
    ensures RowsFit(types, Concat(batches))
    ensures NaiveRows(cols, ColumnsOf(types, batches), t, |batches|)
         == Images(Legs(t), Sift(Test(cols, |batches|, t), ProjectAll(types, Legs(t), Concat(batches))))
  {
    var data, n := ColumnsOf(types, batches), |batches|;
    var parts := RowParts(Picked(data, Legs(t)), n);
    AllRowsFit(types, batches);
    AcrossIsConcat(data, Legs(t), n);
    forall k | 0 <= k < n ensures RowsFit(types, batches[k]) && parts[k] == ProjectAll(types, Legs(t), batches[k]) {
      BatchAcross(types, batches, Legs(t), k);
    }
    ProjectConcat(types, Legs(t), batches, parts);
  }

  /** The legs fit the columns, whatever the columns hold. */
  predicate LegsFit(types: seq<Type>, legs: seq<Joins.Leg>) {
    forall l :: 0 <= l < |legs| ==> legs[l].column < |types| && Applicable(types[legs[l].column], legs[l].ops)
  }

  lemma {:induction false} LegsSuit(m: Manifest, region: seq<Byte>, name: string, data: seq<seq<seq<Val>>>, n: nat, t: Tree)
    requires name in m.schemas && LegsFit(TypesOf(m.schemas[name]), Legs(t))
    requires Aligned(SourcesIn(m, region, name), data, n)
    ensures Covers(SourcesIn(m, region, name), n, t) && Suits(SourcesIn(m, region, name), data, t)
  {
    var cols := SourcesIn(m, region, name);
    forall l | 0 <= l < |Legs(t)| ensures SuitsLeg(cols, data, Legs(t)[l]) {
    }
  }

  /**
   End to end over several columns: reading composite rows never fails, and accepts, in order, exactly the
   pushed rows that satisfy the Boolean tree if and only if none of them lies in a buffer the tree clears
   and none is lost to an absent item.
   */
  lemma {:induction false} CompositeOver(m: Manifest, segs: seq<Segment>, region: seq<Byte>, name: string, batches: seq<seq<seq<Val>>>, t: Tree)
    requires HoldsBatches(m, segs, region, name, batches) && LegsFit(TypesOf(m.schemas[name]), Legs(t))
    requires var types := TypesOf(m.schemas[name]); AllBatchesFit(types, batches) && AllReadable(types, batches)
    ensures var types, cols, n := TypesOf(m.schemas[name]), SourcesIn(m, region, name), |batches|;
            && RowsFit(types, Concat(batches)) && Covers(cols, n, t)
            && Even(Picked(ColumnsOf(types, batches), Legs(t)), n)
            && ReadAcross(cols, t, n) == Ok(KeptRows(cols, ColumnsOf(types, batches), t, n))
            && (KeptRows(cols, ColumnsOf(types, batches), t, n)
                == Images(Legs(t), Sift(Test(cols, n, t), ProjectAll(types, Legs(t), Concat(batches))))
                <==> NoRowLacking(cols, ColumnsOf(types, batches), t, n))
  {
    var types, cols, n := TypesOf(m.schemas[name]), SourcesIn(m, region, name), |batches|;
    var data := ColumnsOf(types, batches);
    ColumnsAligned(m, segs, region, name, batches);
    LegsSuit(m, region, name, data, n, t);
    CompositeExact(cols, data, t, n);
    NaiveRowsArePushed(cols, types, batches, t);
  }

  /* ---------------------------------------------------------------- Reading whole rows */

  /** The conjunction of the first `count` columns, none of them filtered. */
  function Unfiltered(count: nat): (t: Tree)
    requires count > 0
    ensures |Legs(t)| == count && forall l :: 0 <= l < count ==> Legs(t)[l] == Joins.Leg(l, [])
    ensures Conjunctive(t)
  {
    if count == 1 then Leaf(Joins.Leg(0, []))
    else Node(And, Unfiltered(count - 1), Leaf(Joins.Leg(count - 1, [])))
  }

  lemma {:induction false} AllTrue(t: Tree, keeps: seq<bool>)
    requires Conjunctive(t) && |keeps| == |Legs(t)| && forall l :: 0 <= l < |keeps| ==> keeps[l]
    ensures Decide(t, keeps)
    decreases t
  {
    if t.Node? {
      AllTrue(t.a, keeps[..|Legs(t.a)|]);
      AllTrue(t.b, keeps[|Legs(t.a)|..]);
    }
  }

  lemma {:induction false} SiftAll<T(!new)>(test: T -> bool, s: seq<T>)
    requires forall x :: x in s ==> test(x)
    ensures Sift(test, s) == s
  {
    if s != [] {
      assert s == [s[0]] + s[1..] && s[0] in s;
      SiftAll(test, s[1..]);
    }
  }

  /** Without filters every row is taken as it is. */
  lemma {:induction false} UnfilteredTakes(cols: seq<Src>, n: nat, t: Tree, row: seq<Val>)
    requires Covers(cols, n, t) && t == Unfiltered(|Legs(t)|) && |row| == |Legs(t)|
    ensures Test(cols, n, t)(row) && PresentTest(cols, n, t)(row) && ImageRow(Legs(t), row) == row && Project(Legs(t), row) == row
  {
    AllTrue(t, Verdicts(cols, Legs(t), row));
  }

  lemma {:induction false} UnfilteredKeeps(cols: seq<Src>, data: seq<seq<seq<Val>>>, t: Tree, n: nat, i: nat)
    requires Aligned(cols, data, n) && Covers(cols, n, t) && i < n && Conjunctive(t)
    requires forall l :: 0 <= l < |Legs(t)| ==> Legs(t)[l].ops == []
    ensures Keeps(cols, data, t, n, i)
    decreases t
  {
    match t
    case Leaf(leg) =>
      assert Legs(t)[0] == leg;
      assert Stored(cols[leg.column].ty, cols[leg.column].buffers[i], cols[leg.column].mmap, data[leg.column][i]);
    case Node(_, a, b) =>
      CoversParts(cols, n, t);
      assert forall l :: 0 <= l < |Legs(a)| ==> Legs(a)[l] == Legs(t)[l];
      assert forall l :: 0 <= l < |Legs(b)| ==> Legs(b)[l] == Legs(t)[|Legs(a)| + l];
      UnfilteredKeeps(cols, data, a, n, i);
      UnfilteredKeeps(cols, data, b, n, i);
  }

  /** Reading all columns of a schema across, without filters, yields the pushed rows in commit order. */
  lemma {:induction false} RowsReadBack(m: Manifest, segs: seq<Segment>, region: seq<Byte>, name: string, batches: seq<seq<seq<Val>>>)
    requires HoldsBatches(m, segs, region, name, batches) && |m.schemas[name].columns| > 0
    requires var types := TypesOf(m.schemas[name]); AllBatchesFit(types, batches) && AllReadable(types, batches)
    ensures var cols, t := SourcesIn(m, region, name), Unfiltered(|m.schemas[name].columns|);
            Covers(cols, |batches|, t) && ReadAcross(cols, t, |batches|) == Ok(Concat(batches))
  {
    var types, cols, n := TypesOf(m.schemas[name]), SourcesIn(m, region, name), |batches|;
    var t, data := Unfiltered(|types|), ColumnsOf(types, batches);
    CompositeOver(m, segs, region, name, batches, t);
    ColumnsAligned(m, segs, region, name, batches);
    UnfilteredLacks(cols, data, t, n);
    UnfilteredRows(cols, n, t, types, Concat(batches));
  }

  lemma {:induction false} UnfilteredLacks(cols: seq<Src>, data: seq<seq<seq<Val>>>, t: Tree, n: nat)
    requires Aligned(cols, data, n) && Covers(cols, n, t) && t == Unfiltered(|Legs(t)|) && Even(Picked(data, Legs(t)), n)
    ensures NoRowLacking(cols, data, t, n)
  {
    var taken, test, kept, parts := PresentTest(cols, n, t), Test(cols, n, t), KeepMask(cols, data, t, n), RowParts(Picked(data, Legs(t)), n);
    forall i, row | 0 <= i < n && row in parts[i] ensures NotLacking(taken, test, kept[i], row) {
      RowInPart(Picked(data, Legs(t)), n, i, row);
      UnfilteredTakes(cols, n, t, row);
      UnfilteredKeeps(cols, data, t, n, i);
    }
  }

  lemma {:induction false} UnfilteredRows(cols: seq<Src>, n: nat, t: Tree, types: seq<Type>, rows: seq<seq<Val>>)
    requires Covers(cols, n, t) && |types| > 0 && t == Unfiltered(|types|) && RowsFit(types, rows)
    ensures Images(Legs(t), Sift(Test(cols, n, t), ProjectAll(types, Legs(t), rows))) == rows
  {
    var all, test := ProjectAll(types, Legs(t), rows), Test(cols, n, t);
    forall k | 0 <= k < |rows| ensures all[k] == rows[k] && test(rows[k]) && ImageRow(Legs(t), rows[k]) == rows[k] {
      assert RowFits(types, rows[k]);
      UnfilteredTakes(cols, n, t, rows[k]);
    }
    assert all == rows;
    SiftAll(test, rows);
    SameImages(Legs(t), rows);
  }

  lemma {:induction false} SameImages(legs: seq<Joins.Leg>, rows: seq<seq<Val>>)
    requires forall k :: 0 <= k < |rows| ==> ImageRow(legs, rows[k]) == rows[k]
    ensures Images(legs, rows) == rows
  {
    if rows != [] {
      assert forall k :: 0 <= k < |rows| - 1 ==> rows[1..][k] == rows[k + 1];
      SameImages(legs, rows[1..]);
    }
  }
}
