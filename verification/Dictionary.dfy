/**
 Interning over a file: rows of a schema get stable indices, which are their positions in the file.
 */
module Dictionary {
  import opened Prelude
  import opened Bytes
  import opened Types
  import opened RoundTrip
  import opened Stats
  import opened Pieces
  import opened Segment
  import opened Registry
  import opened File
  import opened Query
  import opened Window
  import opened Joins
  import opened Composite
  import opened EndToEnd
  import opened Compose
  import opened Dataset
  import opened Intern

  /* ---------------------------------------------------------------- Reading whole rows */

  /** What iterating over included rows yields; errors come through, other rows are passed over. */
  function RowResults(os: seq<RowOutcome>): seq<Result<seq<Val>>> {
    if os == [] then []
    else
      (match os[0]
       case Accepted(row) => [Ok(row)]
       case Broken(e) => [Err(e)]
       case _ => [])
      + RowResults(os[1..])
  }

  lemma {:induction false} RowResultsOk(os: seq<RowOutcome>)
    requires forall o :: o in os ==> !o.Broken?
    ensures forall i :: 0 <= i < |RowResults(os)| ==> RowResults(os)[i].Ok?
    ensures Unwrapped(RowResults(os)) == AcceptedRows(os)
  {
    if os != [] {
      assert os[0] in os;
      RowResultsOk(os[1..]);
      if os[0].Accepted? {
        UnwrappedMore(os[0].row, RowResults(os[1..]));
      } else {
        assert RowResults(os) == [] + RowResults(os[1..]) == RowResults(os[1..]);
        assert AcceptedRows(os) == [] + AcceptedRows(os[1..]) == AcceptedRows(os[1..]);
      }
    }
  }

  lemma {:induction false} UnwrappedMore<T>(x: T, rest: seq<Result<T>>)
    requires forall i :: 0 <= i < |rest| ==> rest[i].Ok?
    ensures forall i :: 0 <= i < |[Ok(x)] + rest| ==> ([Ok(x)] + rest)[i].Ok?
    ensures Unwrapped([Ok(x)] + rest) == [x] + Unwrapped(rest)
  {
  }

  /** Settles the mask and builds one stream per leg. */
  method OpenReader(cols: seq<Src>, t: Tree, n: nat) returns (r: Result<Reader>)
    requires Covers(cols, n, t)
    ensures match ResolveTree(cols, t, Trues(n))
            case Err(e) => r == Err(e)
            case Ok(m) => r.Ok? && fresh(r.value) && r.value.t == t && r.value.streams == Streams(cols, t, m)
  {
    var mask := new bool[n](i => true);
    assert mask[..] == Trues(n);
    var resolved := ResolveInto(cols, t, mask);
    if resolved.Err? {
      return Err(resolved.error);
    }
    var reader := new Reader(t, Streams(cols, t, mask[..]));
    return Ok(reader);
  }

  /** Reading all rows of a schema yields the rows of its batches, and its recorded count is their number. */
  lemma {:induction false} RowsAreRead(m: Manifest, segs: seq<Segment>, region: seq<Byte>, name: string, batches: seq<seq<seq<Val>>>)
    requires HoldsBatches(m, segs, region, name, batches) && |m.schemas[name].columns| > 0
    requires var types := TypesOf(m.schemas[name]); AllBatchesFit(types, batches) && AllReadable(types, batches)
    ensures var cols, t, n := SourcesIn(m, region, name), Unfiltered(|m.schemas[name].columns|), |batches|;
            && Covers(cols, n, t) && |cols[0].buffers| == n && ResolveTree(cols, t, Trues(n)).Ok?
            && var read := RowResults(Drain(t, Streams(cols, t, ResolveTree(cols, t, Trues(n)).value)));
               && (forall i :: 0 <= i < |read| ==> read[i].Ok?) && Unwrapped(read) == Concat(batches)
               && RecordedItems(cols[0].buffers) == |read|
  {
    var types, cols, n := TypesOf(m.schemas[name]), SourcesIn(m, region, name), |batches|;
    var t, data := Unfiltered(|types|), ColumnsOf(types, batches);
    RowsReadBack(m, segs, region, name, batches);
    ColumnsAligned(m, segs, region, name, batches);
    LegsSuit(m, region, name, data, n, t);
    NothingBroken(cols, data, t, n);
    CountIsRows(m, segs, region, name, batches);
  }

  /** A composite reader over aligned columns yields its accepted rows, and no errors. */
  lemma {:induction false} NothingBroken(cols: seq<Src>, data: seq<seq<seq<Val>>>, t: Tree, n: nat)
    requires Aligned(cols, data, n) && Covers(cols, n, t) && Suits(cols, data, t)
    ensures ResolveTree(cols, t, Trues(n)).Ok?
    ensures var read := RowResults(Drain(t, Streams(cols, t, ResolveTree(cols, t, Trues(n)).value)));
            (forall i :: 0 <= i < |read| ==> read[i].Ok?) && ReadAcross(cols, t, n) == Ok(Unwrapped(read))
  {
    CompositeExact(cols, data, t, n);
    TreeResolves(cols, data, t, n);
    RowResultsOk(Drain(t, Streams(cols, t, KeepMask(cols, data, t, n))));
  }

  /** The count recorded in the first column is the number of rows. */
  lemma {:induction false} CountIsRows(m: Manifest, segs: seq<Segment>, region: seq<Byte>, name: string, batches: seq<seq<seq<Val>>>)
    requires HoldsBatches(m, segs, region, name, batches) && |m.schemas[name].columns| > 0
    requires AllBatchesFit(TypesOf(m.schemas[name]), batches)
    ensures RecordedItems(SourceIn(m, region, name, 0).buffers) == |Concat(batches)|
    ensures |SourceIn(m, region, name, 0).buffers| == |batches|
  {
    var values := FieldOfAll(TypesOf(m.schemas[name]), batches, 0);
    ColumnRecorded(m, segs, region, name, batches, 0);
    RecordedIsPushed(m, segs, region, name, 0, values);
    CommittedColumnReads(m, segs, region, name, 0, values);
    SameTotals(values, batches);
  }

  lemma {:induction false} SameTotals<T, U>(xs: seq<seq<T>>, ys: seq<seq<U>>)
    requires |xs| == |ys| && forall k :: 0 <= k < |xs| ==> |xs[k]| == |ys[k]|
    ensures |Concat(xs)| == |Concat(ys)|
  {
    if xs != [] {
      SameTotals(xs[1..], ys[1..]);
    }
  }

  /* ---------------------------------------------------------------- Batches behind a schema */

  function TypesIn(columns: seq<(string, Type)>): (types: seq<Type>)
    ensures |types| == |columns|
  {
    seq(|columns|, c requires 0 <= c < |columns| => columns[c].1)
  }

  /** A batch that can be stored and read back. */
  ghost predicate Sturdy(types: seq<Type>, rows: seq<seq<Val>>) {
    BatchFits(types, rows) && forall c :: 0 <= c < |types| ==> FieldDecodable(types, rows, c)
  }

  predicate FieldDecodable(types: seq<Type>, rows: seq<seq<Val>>, c: nat)
    requires RowsFit(types, rows) && c < |types|
  {
    FieldFits(types, rows, c);
    Decodable(types[c], Field(rows, c))
  }

  /** The file holds `batches` under the name, all of them readable; without the schema there are none. */
  ghost predicate Backs(m: Manifest, segs: seq<Segment>, name: string, types: seq<Type>, batches: seq<seq<seq<Val>>>) {
    && Accounts(m, segs, name, batches)
    && (name in m.schemas && TypesOf(m.schemas[name]) == types ==> forall k :: 0 <= k < |batches| ==> Sturdy(types, batches[k]))
  }

  lemma {:induction false} SturdyReads(types: seq<Type>, batches: seq<seq<seq<Val>>>)
    requires forall k :: 0 <= k < |batches| ==> Sturdy(types, batches[k])
    ensures AllBatchesFit(types, batches) && AllReadable(types, batches)
  {
    forall k | 0 <= k < |batches| ensures BatchFits(types, batches[k]) {
      assert Sturdy(types, batches[k]);
    }
    forall c | 0 <= c < |types| ensures Readable(types[c], FieldOfAll(types, batches, c)) {
      forall k | 0 <= k < |batches| ensures Decodable(types[c], FieldOfAll(types, batches, c)[k]) {
        assert Sturdy(types, batches[k]) && FieldDecodable(types, batches[k], c);
      }
    }
  }

  /** Registering the schema begins an empty log of batches. */
  lemma {:induction false} SchemaBacks(m: Manifest, segs: seq<Segment>, name: string, columns: seq<(string, Type)>, sector: Sector)
    requires NoData(segs, name) && name in m.schemas && m.schemas[name] == SchemaEntry(sector, Blank(columns))
    ensures Backs(m, segs + [SchemaSegment(name, columns)], name, TypesIn(columns), [])
    ensures TypesOf(m.schemas[name]) == TypesIn(columns)
  {
    var after := segs + [SchemaSegment(name, columns)];
    assert NoData(after, name);
    NoDataIsEmpty(after, name, TypesIn(columns));
    assert TypesOf(m.schemas[name]) == TypesIn(columns);
  }

  /** Writing a batch adds it to the log. */
  lemma {:induction false} BatchBacks(m: Manifest, segs: seq<Segment>, region: seq<Byte>, m': Manifest, region': seq<Byte>, name: string,
                                      types: seq<Type>, batches: seq<seq<seq<Val>>>, rows: seq<seq<Val>>, sector: Sector)
    requires Describes(m, segs, region) && name in m.schemas && TypesOf(m.schemas[name]) == types
    requires Backs(m, segs, name, types, batches) && BatchFits(types, rows)
    requires Describes(m', segs + [DataSegment(name, sector, PiecesOf(types, rows))], region')
    ensures name in m'.schemas && TypesOf(m'.schemas[name]) == types
    ensures Accounts(m', segs + [DataSegment(name, sector, PiecesOf(types, rows))], name, batches + [rows])
    ensures Sturdy(types, rows) ==> Backs(m', segs + [DataSegment(name, sector, PiecesOf(types, rows))], name, types, batches + [rows])
    ensures Concat(batches + [rows]) == Concat(batches) + rows
  {
    var seg := DataSegment(name, sector, PiecesOf(types, rows));
    LogsOfAppended(segs, seg, name);
    assert DescribesSchema(m.schemas[name], segs, name, region);
    assert SchemaLog(segs + [seg], name).Some? && DescribesSchema(m'.schemas[name], segs + [seg], name, region');
    assert TypesOf(m'.schemas[name]) == types;
    assert (segs + [seg])[..|segs|] == segs && (batches + [rows])[..|batches|] == batches;
    ConcatSnoc(batches, rows);
  }

  lemma {:induction false} ConcatSnoc<T>(parts: seq<seq<T>>, last: seq<T>)
    ensures Concat(parts + [last]) == Concat(parts) + last
  {
    if parts == [] {
      assert [last][1..] == [] && [] + [last] == [last];
    } else {
      assert (parts + [last])[1..] == parts[1..] + [last];
      ConcatSnoc(parts[1..], last);
      Assoc(parts[0], Concat(parts[1..]), last);
    }
  }

  /* ---------------------------------------------------------------- When requests succeed */

  /** The file once the schema is known to be there. */
  function WithSchema(codec: Codec, d: Disk, name: string, columns: seq<(string, Type)>): Result<Disk> {
    if name !in d.manifest.schemas then Committed(codec, d, SchemaSegment(name, columns))
    else if SameLayout(d.manifest.schemas[name], columns) then Ok(d)
    else Err(Collision)
  }

  /** Whether the file can take the unseen rows as one batch. */
  predicate TakesBatch(codec: Codec, d: Disk, name: string, types: seq<Type>, unseen: seq<seq<Val>>)
  {
    unseen == [] ||
    (name in d.manifest.schemas && RowsFit(types, unseen)
     && Committed(codec, d, DataSegment(name, d.manifest.schemas[name].sector, PiecesOf(types, unseen))).Ok?)
  }

  /** Whether the schema is there or can be registered, the indices suffice, and the file can take the unseen rows. */
  predicate Granted(codec: Codec, d: Disk, name: string, columns: seq<(string, Type)>, rows: seq<seq<Val>>, items: seq<seq<Val>>, max: nat) {
    var unseen, after := Fresh(rows, items), WithSchema(codec, d, name, columns);
    after.Ok? && |rows| + |unseen| <= max + 1 && TakesBatch(codec, after.value, name, TypesIn(columns), unseen)
  }

  /* ---------------------------------------------------------------- The dictionary */

  class Dictionary {
    const dataset: Dataset
    const name: string
    const columns: seq<(string, Type)>
    ghost var batches: seq<seq<seq<Val>>>

    ghost predicate Valid()
      reads this, dataset, dataset.file
    {
      && dataset.Valid() && columns != []
      && Backs(dataset.file.manifest, dataset.file.segs, name, TypesIn(columns), batches)
    }

    /** The file holds the batches, which may not all be readable. */
    ghost predicate Held()
      reads this, dataset, dataset.file
    {
      dataset.Valid() && columns != [] && Accounts(dataset.file.manifest, dataset.file.segs, name, batches)
    }

    /** The committed rows, in commit order. */
    ghost function Rows(): seq<seq<Val>>
      reads this
    {
      Concat(batches)
    }

    constructor (dataset: Dataset, name: string, columns: seq<(string, Type)>, ghost batches: seq<seq<seq<Val>>>)
      requires dataset.Valid() && columns != []
      requires Backs(dataset.file.manifest, dataset.file.segs, name, TypesIn(columns), batches)
      ensures Valid() && this.dataset == dataset && this.name == name && this.columns == columns && this.batches == batches
    {
      this.dataset, this.name, this.columns, this.batches := dataset, name, columns, batches;
    }

    /** Reads all committed rows; opening the reader over a valid file cannot fail. */
    method Read() returns (rows: seq<Result<seq<Val>>>, count: nat)
      requires Valid() && name in dataset.file.manifest.schemas && TypesOf(dataset.file.manifest.schemas[name]) == TypesIn(columns)
      ensures count == |rows| && forall i :: 0 <= i < |rows| ==> rows[i].Ok?
      ensures Unwrapped(rows) == Rows()
    {
      var m, width := dataset.file.manifest, |columns|;
      SturdyReads(TypesIn(columns), batches);
      RowsAreRead(m, dataset.file.segs, dataset.mmap, name, batches);
      var cols := SourcesIn(m, dataset.mmap, name);
      var reader := OpenReader(cols, Unfiltered(width), |cols[0].buffers|);
      var os := DrainAll(reader.value);
      return RowResults(os), RecordedItems(cols[0].buffers);
    }

    /**
     Returns one index per requested row and commits the unseen ones as one batch. The index of a row is
     its position among all committed rows. The dictionary stays valid if the batch can be read back. If the
     greatest index cannot name every committed and every unseen row, nothing is written but, if it was missing,
     the schema; a request without unseen rows writes nothing either.
     */
    method GetOrInsert(items: seq<seq<Val>>, max: nat) returns (r: Result<seq<nat>>)
      requires Valid() && RowsFit(TypesIn(columns), items)
      requires Fresh(Rows(), items) != [] ==> BatchFits(TypesIn(columns), Fresh(Rows(), items))
      modifies this, dataset, dataset.file
      ensures r.Ok? ==>
                && Held() && Rows() == old(Rows()) + Fresh(old(Rows()), items) && |Rows()| <= max + 1 && |r.value| == |items|
                && name in dataset.file.manifest.schemas && TypesOf(dataset.file.manifest.schemas[name]) == TypesIn(columns)
                && forall k :: 0 <= k < |items| ==> items[k] in Rows() && r.value[k] == FirstIndex(Rows(), items[k])
      ensures r.Ok? && (Fresh(old(Rows()), items) == [] || Sturdy(TypesIn(columns), Fresh(old(Rows()), items))) ==> Valid()
      ensures r.Err? ==> Rows() == old(Rows()) && Unwritten(old(dataset.file.segs), dataset.file.segs)
      ensures r.Ok? <==> Granted(dataset.file.codec, old(dataset.file.State()), name, columns, old(Rows()), items, max)
      ensures old(Registered()) ==>
                && (|old(Rows())| + |Fresh(old(Rows()), items)| > max + 1 ==> r == Err(Zero) && Valid() && unchanged(dataset.file))
                && (|old(Rows())| <= max + 1 && Fresh(old(Rows()), items) == [] ==> r.Ok? && unchanged(dataset.file))
    {
      FreshFit(Rows(), items, TypesIn(columns));
      var schema := Prepare();
      if schema.Err? {
        return Err(schema.error);
      }
      var rows, count := Read();
      var request := Request(rows, count, items, max);
      if request.Err? {
        RequestFails(rows, max, request.error);
        return Err(request.error);
      }
      var (unseen, out) := request.value;
      var written := Commit(schema.value, unseen);
      return if written.Ok? then Ok(out) else Err(written.error);
    }

    /** Finds the schema, or registers it. */
    method Prepare() returns (r: Result<Sector>)
      requires Valid()
      modifies dataset.file
      ensures match WithSchema(dataset.file.codec, old(dataset.file.State()), name, columns)
              case Ok(d) => r.Ok? && dataset.file.State() == d && name in d.manifest.schemas && d.manifest.schemas[name].sector == r.value
              case Err(_) => r.Err?
      ensures r.Ok? ==>
                && Valid() && Unwritten(old(dataset.file.segs), dataset.file.segs)
                && TypesOf(dataset.file.manifest.schemas[name]) == TypesIn(columns)
      ensures r.Err? ==> dataset.file.segs == old(dataset.file.segs)
      ensures old(Registered()) ==> r.Ok? && unchanged(dataset.file)
    {
      if name in dataset.file.manifest.schemas {
        LayoutIsLogged(dataset.file.manifest, dataset.file.segs, dataset.mmap, name, columns);
      }
      r := dataset.Schema(name, columns);
      if r.Ok? {
        SchemaKnown(old(dataset.file.manifest), old(dataset.file.segs), r.value);
      }
    }

    /** The schema is there, with this layout. */
    ghost predicate Registered()
      reads this, dataset, dataset.file
    {
      name in dataset.file.manifest.schemas && SchemaLog(dataset.file.segs, name) == Some(columns)
    }

    /** No data was committed, only perhaps the schema. */
    ghost predicate Unwritten(before: seq<Segment>, after: seq<Segment>) {
      after == before || after == before + [SchemaSegment(name, columns)]
    }

    /** After the schema was found or registered, the dictionary is valid and its types are recorded. */
    ghost method SchemaKnown(before: Manifest, segs: seq<Segment>, sector: Sector)
      requires dataset.Valid() && columns != [] && Accounts(before, segs, name, batches)
      requires name in before.schemas ==>
                 && dataset.file.manifest == before && dataset.file.segs == segs && SchemaLog(segs, name) == Some(columns)
                 && Backs(before, segs, name, TypesIn(columns), batches)
      requires name !in before.schemas ==>
                 && dataset.file.segs == segs + [SchemaSegment(name, columns)]
                 && name in dataset.file.manifest.schemas && dataset.file.manifest.schemas[name] == SchemaEntry(sector, Blank(columns))
      ensures Valid() && name in dataset.file.manifest.schemas && TypesOf(dataset.file.manifest.schemas[name]) == TypesIn(columns)
    {
      if name in before.schemas {
        LayoutIsLogged(before, segs, dataset.mmap, name, columns);
        assert TypesOf(before.schemas[name]) == TypesIn(columns);
      } else {
        SchemaBacks(dataset.file.manifest, segs, name, columns, sector);
      }
    }

    /** Commits rows as one batch. */
    method Commit(schema: Sector, unseen: seq<seq<Val>>) returns (r: Result<()>)
      requires Valid() && name in dataset.file.manifest.schemas && TypesOf(dataset.file.manifest.schemas[name]) == TypesIn(columns)
      requires unseen != [] ==> BatchFits(TypesIn(columns), unseen)
      modifies this, dataset, dataset.file
      ensures unseen != [] ==>
                (r.Ok? <==> Committed(dataset.file.codec, old(dataset.file.State()), DataSegment(name, schema, PiecesOf(TypesIn(columns), unseen))).Ok?)
      ensures unseen == [] ==> r.Ok? && Valid() && unchanged(dataset) && unchanged(dataset.file) && Rows() == old(Rows())
      ensures r.Ok? && Sturdy(TypesIn(columns), unseen) ==> Valid()
      ensures r.Ok? ==>
                && Held() && Rows() == old(Rows()) + unseen
                && name in dataset.file.manifest.schemas && TypesOf(dataset.file.manifest.schemas[name]) == TypesIn(columns)
      ensures r.Err? ==> Rows() == old(Rows()) && dataset.file.segs == old(dataset.file.segs)
    {
      var types := TypesIn(columns);
      var acc := Accumulator.Holding(types, unseen);
      var pieces := acc.Pieces();
      var seg := DataSegment(name, schema, pieces);
      ghost var m, segs, mmap := dataset.file.manifest, dataset.file.segs, dataset.mmap;
      var count := dataset.Write(seg);
      if count.Err? {
        return Err(count.error);
      }
      if unseen != [] {
        BatchBacks(m, segs, mmap, dataset.file.manifest, dataset.mmap, name, types, batches, unseen, schema);
        batches := batches + [unseen];
      } else {
        assert Rows() + [] == Rows();
      }
      return Ok(());
    }
  }

  /** The unseen rows have the types of the requested ones. */
  lemma {:induction false} FreshFit(rows: seq<seq<Val>>, items: seq<seq<Val>>, types: seq<Type>)
    requires RowsFit(types, items)
    ensures RowsFit(types, Fresh(rows, items))
  {
    FreshMembers(rows, items);
    var unseen := Fresh(rows, items);
    forall i | 0 <= i < |unseen| ensures RowFits(types, unseen[i]) {
      assert unseen[i] in items;
      var k :| 0 <= k < |items| && items[k] == unseen[i];
      assert RowFits(types, items[k]);
    }
  }

  /** All rows read, a request fails for want of an index alone. */
  lemma {:induction false} RequestFails<T>(read: seq<Result<T>>, max: nat, e: Error)
    requires forall i :: 0 <= i < |read| ==> read[i].Ok?
    requires e == Zero || exists k :: StopsAt(read, max, k, e)
    ensures e == Zero
  {
  }

  /**
   Indices are positions in the file: reading back all rows of the dictionary's schema yields, at the index
   returned for a row, that row.
   */
  lemma {:induction false} IndexIsPosition(m: Manifest, segs: seq<Segment>, region: seq<Byte>, name: string, types: seq<Type>,
                                           batches: seq<seq<seq<Val>>>, row: seq<Val>)
    requires Describes(m, segs, region) && name in m.schemas && TypesOf(m.schemas[name]) == types && types != []
    requires Backs(m, segs, name, types, batches) && row in Concat(batches)
    ensures var cols, t := SourcesIn(m, region, name), Unfiltered(|types|);
            && Covers(cols, |batches|, t) && ReadAcross(cols, t, |batches|).Ok?
            && var read := ReadAcross(cols, t, |batches|).value;
               row in read && FirstIndex(read, row) == FirstIndex(Concat(batches), row) < |read| && read[FirstIndex(read, row)] == row
  {
    SturdyReads(types, batches);
    RowsReadBack(m, segs, region, name, batches);
    FirstIndexPrefix(Concat(batches), [], row);
  }
}
