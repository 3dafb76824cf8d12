/**
 Whole runs: any sequence of schema registrations, data commits and binary commits from a new file.
 */
module History {
  import opened Prelude
  import opened Bytes
  import opened RoundTrip
  import opened Stats
  import opened Layout
  import opened Segment
  import opened Registry
  import opened File

  /** The file after committing `segs` in order to a new file. */
  function After(codec: Codec, segs: seq<Segment>): Result<Disk> {
    if segs == [] then Created(codec) else Continued(codec, After(codec, segs[..|segs| - 1]), segs[|segs| - 1])
  }

  function Continued(codec: Codec, before: Result<Disk>, seg: Segment): Result<Disk> {
    var d :- before;
    Committed(codec, d, seg)
  }

  /** Every data segment comes from the accumulator of a schema registered before it. */
  ghost predicate AllFit(codec: Codec, segs: seq<Segment>) {
    segs == [] ||
    (var init := segs[..|segs| - 1];
     AllFit(codec, init) && (After(codec, init).Ok? ==> Fits(After(codec, init).value.manifest, segs[|segs| - 1])))
  }

  /** The last commit of a run. */
  lemma {:induction false} LastCommit(codec: Codec, segs: seq<Segment>)
    requires AllFit(codec, segs) && After(codec, segs).Ok? && segs != []
    ensures var init, last := segs[..|segs| - 1], segs[|segs| - 1];
            && segs == init + [last] && AllFit(codec, init) && After(codec, init).Ok?
            && Fits(After(codec, init).value.manifest, last)
            && Committed(codec, After(codec, init).value, last) == After(codec, segs)
  {
    var init, last := segs[..|segs| - 1], segs[|segs| - 1];
    LastSplit(segs);
    LastFits(codec, segs);
    AfterContinues(codec, segs);
    ContinuedOk(codec, After(codec, init), last);
  }

  lemma {:induction false} LastSplit<T>(s: seq<T>)
    requires s != []
    ensures s == s[..|s| - 1] + [s[|s| - 1]]
  {
  }

  lemma {:induction false} LastFits(codec: Codec, segs: seq<Segment>)
    requires AllFit(codec, segs) && segs != []
    ensures var init := segs[..|segs| - 1];
            AllFit(codec, init) && (After(codec, init).Ok? ==> Fits(After(codec, init).value.manifest, segs[|segs| - 1]))
  {
  }

  lemma {:induction false} AfterContinues(codec: Codec, segs: seq<Segment>)
    requires segs != []
    ensures After(codec, segs) == Continued(codec, After(codec, segs[..|segs| - 1]), segs[|segs| - 1])
  {
  }

  lemma {:induction false} ContinuedOk(codec: Codec, before: Result<Disk>, seg: Segment)
    requires Continued(codec, before, seg).Ok?
    ensures before.Ok? && Continued(codec, before, seg) == Committed(codec, before.value, seg)
  {
  }

  /** Every reachable file is sound. */
  lemma {:induction false} RunSound(codec: Codec, segs: seq<Segment>)
    requires codec.Valid() && AllFit(codec, segs) && After(codec, segs).Ok?
    ensures Sound(codec, After(codec, segs).value, segs)
  {
    if segs == [] {
      CreatedSound(codec);
    } else {
      var init, last := segs[..|segs| - 1], segs[|segs| - 1];
      LastCommit(codec, segs);
      RunSound(codec, init);
      CommitSound(codec, After(codec, init).value, init, last);
    }
  }

  /** Prefixes of a successful run are successful. */
  lemma {:induction false} PrefixRuns(codec: Codec, segs: seq<Segment>, k: nat)
    requires AllFit(codec, segs) && After(codec, segs).Ok? && k <= |segs|
    ensures AllFit(codec, segs[..k]) && After(codec, segs[..k]).Ok?
    decreases |segs|
  {
    if k == |segs| {
      assert segs[..k] == segs;
    } else {
      var init := segs[..|segs| - 1];
      LastCommit(codec, segs);
      PrefixRuns(codec, init, k);
      assert init[..k] == segs[..k];
    }
  }

  lemma {:induction false} LaidGrows(codec: Codec, segs: seq<Segment>, k: nat)
    requires k <= |segs|
    ensures Laid(codec, segs[..k]) <= Laid(codec, segs)
    decreases |segs|
  {
    if k == |segs| {
      assert segs[..k] == segs;
    } else {
      var init := segs[..|segs| - 1];
      LaidGrows(codec, init, k);
      assert init[..k] == segs[..k];
    }
  }

  /** Prefixes of a successful run are successful, and their segment regions are prefixes of the final one. */
  lemma {:induction false} RegionGrows(codec: Codec, segs: seq<Segment>, k: nat)
    requires codec.Valid() && AllFit(codec, segs) && After(codec, segs).Ok? && k <= |segs|
    ensures AllFit(codec, segs[..k]) && After(codec, segs[..k]).Ok?
    ensures Sound(codec, After(codec, segs).value, segs) && Sound(codec, After(codec, segs[..k]).value, segs[..k])
    ensures Mapped(After(codec, segs[..k]).value) <= Mapped(After(codec, segs).value)
  {
    PrefixRuns(codec, segs, k);
    RunSound(codec, segs);
    RunSound(codec, segs[..k]);
    LaidGrows(codec, segs, k);
  }

  /** Whatever a sector located after some commits, it locates the same bytes after any further commits. */
  lemma {:induction false} SlicesPersist(codec: Codec, segs: seq<Segment>, k: nat, s: Sector)
    requires codec.Valid() && AllFit(codec, segs) && After(codec, segs).Ok? && k <= |segs|
    ensures After(codec, segs[..k]).Ok? && HEADER <= After(codec, segs[..k]).value.header.offset <= |After(codec, segs[..k]).value.bytes|
    ensures HEADER <= After(codec, segs).value.header.offset <= |After(codec, segs).value.bytes|
    ensures var first, now := Mapped(After(codec, segs[..k]).value), Mapped(After(codec, segs).value);
            s.Slice(first).Ok? ==> s.Slice(now) == s.Slice(first)
  {
    RegionGrows(codec, segs, k);
    SliceOfPrefix(s, Mapped(After(codec, segs[..k]).value), Mapped(After(codec, segs).value));
  }

  lemma {:induction false} SliceOfPrefix(s: Sector, first: seq<Byte>, now: seq<Byte>)
    requires first <= now
    ensures s.Slice(first).Ok? ==> s.Slice(now) == s.Slice(first)
  {
    if s.Slice(first).Ok? {
      assert now == first + now[|first|..];
      SliceGrows(s, first, now[|first|..]);
    }
  }

  /* ---------------------------------------------------------------- A self-describing region */

  datatype Visit = Visit(offset: nat, variant: Byte)

  /** Length of the segment at position `at` of the region, as its own header tells. */
  function Footprint(region: seq<Byte>, at: nat): nat
    requires at + 9 <= |region|
  {
    17 + FromLe(region[at + 1..at + 9]) + if region[at] == BINARY then Pad(HEADER + at + 9) else 0
  }

  /** Walks from segment to segment; `None` if a segment is cut short. */
  function WalkRegion(region: seq<Byte>, at: nat): Option<seq<Visit>>
    requires at <= |region|
    decreases |region| - at
  {
    if at == |region| then Some([])
    else if at + 9 > |region| || at + Footprint(region, at) > |region| then None
    else
      match WalkRegion(region, at + Footprint(region, at))
      case None => None
      case Some(rest) => Some([Visit(HEADER + at, region[at])] + rest)
  }

  function VariantOf(seg: Segment): Byte {
    match seg
    case SchemaSegment(_, _) => SCHEMA
    case DataSegment(_, _, _) => DATA
    case BinSegment(_, _) => BINARY
  }

  /** Where each segment was committed. */
  function Visits(codec: Codec, segs: seq<Segment>): seq<Visit> {
    if segs == [] then []
    else
      var init := segs[..|segs| - 1];
      Visits(codec, init) + [Visit(HEADER + |Laid(codec, init)|, VariantOf(segs[|segs| - 1]))]
  }

  /** The header of a wrapped segment tells its length. */
  lemma {:induction false} WrapDescribesItself(codec: Codec, seg: Segment, offset: nat)
    requires Wrap(codec, seg, offset).Ok? && (seg.DataSegment? ==> AllValid(seg.pieces))
    ensures var w := Wrap(codec, seg, offset).value;
            && |w| >= 17 && w[0] == VariantOf(seg)
            && |w| == 17 + FromLe(w[1..9]) + if seg.BinSegment? then Pad(offset + 9) else 0
  {
    match seg
    case SchemaSegment(name, columns) => PlainDescribesItself(codec, SCHEMA, codec.schemaBytes(name, columns));
    case BinSegment(_, data) => BinDescribesItself(codec, data, offset);
    case DataSegment(_, schema, pieces) => DataDescribesItself(codec, schema, pieces, offset);
  }

  lemma {:induction false} DataDescribesItself(codec: Codec, schema: Sector, pieces: seq<Piece>, offset: nat)
    requires AllValid(pieces) && WrapData(codec, schema, pieces, offset).Ok?
    ensures var w := WrapData(codec, schema, pieces, offset).value;
            |w| >= 17 && w[0] == DATA && |w| == 17 + FromLe(w[1..9])
  {
    var head, tail := DataShape(codec, schema, pieces, offset);
    var w := head + Regions(pieces) + tail;
    FrontOf(head, Regions(pieces), tail, 9);
    HeadReads(w, DATA, |Regions(pieces)| + 16 + Pad(offset + 25));
  }

  lemma {:induction false} FrontOf(a: seq<Byte>, b: seq<Byte>, c: seq<Byte>, n: nat)
    requires n <= |a|
    ensures (a + b + c)[..n] == a[..n]
  {
  }

  lemma {:induction false} PlainDescribesItself(codec: Codec, variant: Byte, body: seq<Byte>)
    requires WrapPlain(codec, variant, body).Ok?
    ensures var w := WrapPlain(codec, variant, body).value;
            |w| >= 17 && w[0] == variant && |w| == 17 + FromLe(w[1..9])
  {
    HeadReads(WrapPlain(codec, variant, body).value, variant, |body|);
  }

  lemma {:induction false} BinDescribesItself(codec: Codec, data: seq<Byte>, offset: nat)
    requires WrapBin(codec, data, offset).Ok?
    ensures var w := WrapBin(codec, data, offset).value;
            |w| >= 17 && w[0] == BINARY && |w| == 17 + FromLe(w[1..9]) + Pad(offset + 9)
  {
    HeadReads(WrapBin(codec, data, offset).value, BINARY, |data|);
  }

  lemma {:induction false} HeadReads(w: seq<Byte>, variant: Byte, size: nat)
    requires |w| >= 9 && w[..9] == Head(variant, size) && size <= U64_MAX
    ensures w[0] == variant && FromLe(w[1..9]) == size
  {
    U64Range();
    LeRoundTrip(size, 8);
    assert w[0] == w[..9][0] && w[1..9] == w[..9][1..] == ToLe(size, 8);
  }

  /** One more segment is one more visit. */
  lemma {:induction false} WalkExtends(region: seq<Byte>, w: seq<Byte>, at: nat)
    requires at <= |region| && WalkRegion(region, at).Some? && |w| >= 17
    requires |w| == 17 + FromLe(w[1..9]) + if w[0] == BINARY then Pad(HEADER + |region| + 9) else 0
    ensures WalkRegion(region + w, at) == Some(WalkRegion(region, at).value + [Visit(HEADER + |region|, w[0])])
    decreases |region| - at
  {
    var all := region + w;
    if at == |region| {
      assert all[at + 1..at + 9] == w[1..9] && all[at] == w[0];
      assert at + Footprint(all, at) == |all| && WalkRegion(all, |all|) == Some([]);
      var visit: seq<Visit> := [Visit(HEADER + at, w[0])];
      assert WalkRegion(all, at) == Some(visit + []);
      assert WalkRegion(region, at) == Some([]) && visit + [] == [] + visit;
    } else {
      assert all[at + 1..at + 9] == region[at + 1..at + 9];
      var next := at + Footprint(region, at);
      WalkExtends(region, w, next);
      Assoc([Visit(HEADER + at, region[at])], WalkRegion(region, next).value, [Visit(HEADER + |region|, w[0])]);
    }
  }

  /**
   The region describes itself: walking from the file header by each segment's own header visits exactly
   the committed segments, in order, and ends at the manifest.
   */
  lemma {:induction false} WalkVisitsSegments(codec: Codec, segs: seq<Segment>)
    requires codec.Valid() && AllFit(codec, segs) && After(codec, segs).Ok?
    ensures Sound(codec, After(codec, segs).value, segs)
    ensures WalkRegion(Mapped(After(codec, segs).value), 0) == Some(Visits(codec, segs))
  {
    RunSound(codec, segs);
    if segs != [] {
      var init, last := segs[..|segs| - 1], segs[|segs| - 1];
      LastCommit(codec, segs);
      WalkVisitsSegments(codec, init);
      var d := After(codec, init).value;
      CommitSound(codec, d, init, last);
      PlanParts(codec, d.header, d.manifest, last);
      WrapDescribesItself(codec, last, d.header.offset);
      WalkExtends(Mapped(d), Wrap(codec, last, d.header.offset).value, 0);
    }
  }
}
