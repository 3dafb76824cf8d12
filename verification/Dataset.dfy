/**
 An open dataset: the file and the bytes mapped for its readers.
 */
module Dataset {
  import opened Prelude
  import opened Bytes
  import opened Types
  import opened Stats
  import opened Segment
  import opened Registry
  import opened File
  import opened Pieces
  import opened EndToEnd

  predicate SameLayout(entry: SchemaEntry, columns: seq<(string, Type)>) {
    && |entry.columns| == |columns|
    && forall c :: 0 <= c < |columns| ==> entry.columns[c].name == columns[c].0 && entry.columns[c].ty == columns[c].1
  }

  /** Items of an accumulator; schemas are registered, never accumulated. */
  function ItemsOf(seg: Segment): nat
    requires !seg.SchemaSegment?
  {
    match seg
    case DataSegment(_, _, pieces) => ItemCount(pieces)
    case BinSegment(_, data) => |data|
  }

  /** A batch counts its rows. */
  lemma {:induction false} RowsAreItems(seg: Segment, types: seq<Type>, rows: seq<seq<Val>>)
    requires HoldsRows(seg, types, rows)
    ensures ItemsOf(seg) == |rows|
  {
    PiecesCount(types, rows);
  }

  lemma {:induction false} ItemsAreRows(seg: Segment)
    requires !seg.SchemaSegment?
    ensures forall types, rows :: HoldsRows(seg, types, rows) ==> ItemsOf(seg) == |rows|
  {
    forall types, rows | HoldsRows(seg, types, rows) ensures ItemsOf(seg) == |rows| {
      RowsAreItems(seg, types, rows);
    }
  }

  /** Behind its head, the data segment of a batch records where its schema lies and how many rows it holds. */
  lemma {:induction false} BatchPointsBack(codec: Codec, seg: Segment, types: seq<Type>, rows: seq<seq<Val>>, offset: nat)
    requires HoldsRows(seg, types, rows) && |rows| <= U64_MAX && seg.schema.offset <= U64_MAX && Wrap(codec, seg, offset).Ok?
    ensures var w := Wrap(codec, seg, offset).value;
            && |w| >= 25 && w[0] == DATA
            && FromLe(w[9..17]) == seg.schema.offset && FromLe(w[17..25]) == |rows|
  {
    PiecesCount(types, rows);
    DataPointsBack(codec, seg.schema, seg.pieces, offset);
  }

  /** The layout of an entry is the one registered under its name. */
  lemma {:induction false} LayoutIsLogged(m: Manifest, segs: seq<Segment>, region: seq<Byte>, name: string, columns: seq<(string, Type)>)
    requires Describes(m, segs, region) && name in m.schemas
    ensures SameLayout(m.schemas[name], columns) <==> SchemaLog(segs, name) == Some(columns)
  {
    assert DescribesSchema(m.schemas[name], segs, name, region);
    var logged := SchemaLog(segs, name).value;
    if SameLayout(m.schemas[name], columns) {
      assert forall c :: 0 <= c < |columns| ==> logged[c] == (logged[c].0, logged[c].1) == columns[c];
      assert logged == columns;
    }
  }

  /** A schema segment adds nothing to read: the manifest keeps describing the region as mapped before. */
  lemma {:induction false} SchemaAddsNoData(m: Manifest, segs: seq<Segment>, region: seq<Byte>, seg: Segment, sector: Sector)
    requires Describes(m, segs, region) && DataHasSchema(segs) && seg.SchemaSegment? && Entry(m, seg).Ok?
    ensures Register(m, seg, sector).Ok? && Describes(Register(m, seg, sector).value, segs + [seg], region)
  {
    var m' := Register(m, seg, sector).value;
    assert region + [] == region;
    forall name
      ensures name in m'.schemas <==> SchemaLog(segs + [seg], name).Some?
      ensures name in m'.schemas ==> DescribesSchema(m'.schemas[name], segs + [seg], name, region)
      ensures BinLog(segs + [seg], name) == BinLog(segs, name)
    {
      LogsOfAppended(segs, seg, name);
      if name == seg.name {
        NewSchema(segs, seg, sector, region);
      } else if name in m.schemas {
        UntouchedSchema(m.schemas[name], segs, seg, name, region, []);
      }
    }
  }

  /** Committing a schema leaves what was mapped before a valid map of everything recorded. */
  lemma {:induction false} SchemaCommitted(codec: Codec, d: Disk, segs: seq<Segment>, seg: Segment, mmap: seq<Byte>)
    requires codec.Valid() && Sound(codec, d, segs) && seg.SchemaSegment? && Committed(codec, d, seg).Ok?
    requires mmap <= Mapped(d) && Describes(d.manifest, segs, mmap)
    ensures var after := Committed(codec, d, seg).value; var sector := Sector(d.header.offset, after.header.offset - d.header.offset);
            && Sound(codec, after, segs + [seg]) && mmap <= Mapped(after)
            && Describes(after.manifest, segs + [seg], mmap)
            && after.header.offset >= d.header.offset
            && seg.name in after.manifest.schemas && after.manifest.schemas[seg.name] == SchemaEntry(sector, Blank(seg.columns))
  {
    CommitSound(codec, d, segs, seg);
    PlanParts(codec, d.header, d.manifest, seg);
    var plan := Planned(codec, d.header, d.manifest, seg).value;
    SchemaAddsNoData(d.manifest, segs, mmap, seg, plan.sector);
  }

  class Dataset {
    const file: Handle
    var mmap: seq<Byte>

    /**
     The mapped bytes are a prefix of the segment region that holds everything the manifest locates.
     Registering a schema does not map the file again.
     */
    ghost predicate Valid()
      reads this, file
    {
      && file.Valid() && mmap <= Mapped(file.State())
      && Describes(file.manifest, file.segs, mmap)
    }

    constructor (file: Handle)
      requires file.Valid()
      ensures Valid() && this.file == file && mmap == Mapped(file.State())
    {
      this.file := file;
      mmap := file.bytes[HEADER..file.header.offset];
    }

    /**
     Registers a schema under a name. The same layout under the same name returns the schema already
     there and touches nothing; another layout is rejected and touches nothing.
     */
    method Schema(name: string, columns: seq<(string, Type)>) returns (r: Result<Sector>)
      requires Valid()
      modifies file
      ensures mmap == old(mmap)
      ensures name in old(file.manifest).schemas ==>
                && Valid() && unchanged(file)
                && r == if SchemaLog(file.segs, name) == Some(columns) then Ok(file.manifest.schemas[name].sector) else Err(Collision)
      ensures name !in old(file.manifest).schemas ==>
                (r.Ok? <==> Committed(file.codec, old(file.State()), SchemaSegment(name, columns)).Ok?)
      ensures name !in old(file.manifest).schemas && r.Ok? ==>
                && Committed(file.codec, old(file.State()), SchemaSegment(name, columns)) == Ok(file.State())
                && Valid() && file.segs == old(file.segs) + [SchemaSegment(name, columns)]
                && name in file.manifest.schemas && file.manifest.schemas[name] == SchemaEntry(r.value, Blank(columns))
      ensures r.Err? ==> file.segs == old(file.segs) && file.header == old(file.header) && |file.bytes| >= |old(file.bytes)|
                         && file.bytes[..file.header.offset] == old(file.bytes)[..file.header.offset]
    {
      if name in file.manifest.schemas {
        var entry := file.manifest.schemas[name];
        LayoutIsLogged(file.manifest, file.segs, mmap, name, columns);
        return if SameLayout(entry, columns) then Ok(entry.sector) else Err(Collision);
      }
      ghost var before := file.State();
      var seg := SchemaSegment(name, columns);
      r := file.Append(seg);
      if r.Ok? {
        SchemaCommitted(file.codec, before, old(file.segs), seg, mmap);
      }
    }

    /**
     Commits an accumulator and maps the grown region, exactly if the segment can be committed, and returns the
     number of items. An accumulator without items is ignored.
     */
    method Write(seg: Segment) returns (r: Result<nat>)
      requires Valid() && Fits(file.manifest, seg) && !seg.SchemaSegment?
      modifies this, file
      ensures ItemsOf(seg) == 0 ==> r == Ok(0) && Valid() && unchanged(this) && unchanged(file)
      ensures ItemsOf(seg) != 0 ==> (r.Ok? <==> Committed(file.codec, old(file.State()), seg).Ok?)
      ensures r.Ok? && seg.BinSegment? ==> r.value == |seg.data|
      ensures forall types, rows :: r.Ok? && HoldsRows(seg, types, rows) ==> r.value == |rows|
      ensures ItemsOf(seg) != 0 && r.Ok? ==>
                && Committed(file.codec, old(file.State()), seg) == Ok(file.State())
                && r.value == ItemsOf(seg) && Valid() && file.segs == old(file.segs) + [seg]
                && mmap == Mapped(file.State()) && old(mmap) <= mmap
      ensures ItemsOf(seg) != 0 && (Entry(old(file.manifest), seg).Err? || Wrap(file.codec, seg, old(file.header).offset).Err?) ==>
                r.Err? && Valid() && unchanged(this) && unchanged(file)
      ensures r.Err? ==> mmap == old(mmap) && file.segs == old(file.segs)
                         && file.header == old(file.header) && |file.bytes| >= |old(file.bytes)|
                         && file.bytes[..file.header.offset] == old(file.bytes)[..file.header.offset]
    {
      var count := ItemsOf(seg);
      ItemsAreRows(seg);
      if count == 0 {
        return Ok(0);
      }
      ghost var before := file.State();
      var sector := file.Append(seg);
      if sector.Err? {
        return Err(sector.error);
      }
      CommitSound(file.codec, before, old(file.segs), seg);
      mmap := file.bytes[HEADER..file.header.offset];
      return Ok(count);
    }

    /** The payload committed under a binary name. */
    method Binary(name: string) returns (r: Result<seq<Byte>>)
      requires Valid()
      ensures r == match BinLog(file.segs, name)
                   case Some(data) => Ok(data)
                   case None => Err(NotFound)
    {
      if name in file.manifest.bins {
        r := file.manifest.bins[name].Slice(mmap);
      } else {
        r := Err(NotFound);
      }
    }
  }
}
