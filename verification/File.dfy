/**
 The file as a state machine: a header that locates the manifest, an append-only region of segments, and
 the manifest behind it.
 */
module File {
  import opened Prelude
  import opened Bytes
  import opened Stats
  import opened Layout
  import opened Segment
  import opened Registry

  const MAGIC: seq<Byte> := [0x6D, 0x73, 0x63, 0x61]
  const VERSION: Byte := 0

  /** Where the header keeps the manifest sector. */
  const MUTABLE: nat := 5

  /** Bytes of a file, with the header and manifest held in memory beside them. */
  datatype Disk = Disk(bytes: seq<Byte>, header: Sector, manifest: Manifest)

  /** One write call: seek to `offset`, then write all of `data`. */
  datatype Write = Write(offset: nat, data: seq<Byte>)

  /** Bytes after a write; a gap behind the end of the file reads as zeros. */
  function WriteAt(bytes: seq<Byte>, w: Write): (r: seq<Byte>)
    ensures |r| == if |bytes| < w.offset + |w.data| then w.offset + |w.data| else |bytes|
  {
    var gap := if |bytes| < w.offset then Zeros(w.offset - |bytes|) else [];
    var base := bytes + gap;
    var end := w.offset + |w.data|;
    base[..w.offset] + w.data + if end < |base| then base[end..] else []
  }

  function WriteAll(bytes: seq<Byte>, ws: seq<Write>): seq<Byte>
    decreases |ws|
  {
    if ws == [] then bytes else WriteAll(WriteAt(bytes, ws[0]), ws[1..])
  }

  function SectorBytes(s: Sector): (b: seq<Byte>)
    ensures |b| == 16
  {
    ToLe(s.offset, 8) + ToLe(s.size, 8)
  }

  /* ---------------------------------------------------------------- Creating and opening */

  /** A new file holds the header and an empty manifest. */
  function Created(codec: Codec): Result<Disk> {
    var empty := Manifest(map[], map[]);
    var packed :- WrapManifest(codec, empty);
    var header := Sector(HEADER, |packed|);
    Ok(Disk(WriteAll([], [Write(0, MAGIC), Write(4, [VERSION]), Write(HEADER, packed),
                          Write(MUTABLE, SectorBytes(header)), Write(21, Zeros(3))]), header, empty))
  }

  /** Reads the header and the manifest it locates. */
  function Opened(codec: Codec, bytes: seq<Byte>): Result<(Sector, Manifest)> {
    var _ :- Need(|bytes| >= HEADER, Truncated);
    var _ :- Need(bytes[..4] == MAGIC, Magic);
    var _ :- Need(bytes[4] == VERSION, Version);
    var s := Sector(FromLe(bytes[5..13]), FromLe(bytes[13..21]));
    var _ :- Need(s.size != 0, Zero);
    var _ :- Need(s.End() <= |bytes|, Truncated);
    var covered :- Verify(codec, bytes[s.offset..s.End()]);
    var _ :- Need(|covered| >= 9, Truncated);
    var m :- codec.manifestFrom(covered[9..]);
    Ok((s, m))
  }

  /** The mapped region: everything between the header and the manifest. */
  function Mapped(d: Disk): seq<Byte>
    requires HEADER <= d.header.offset <= |d.bytes|
  {
    d.bytes[HEADER..d.header.offset]
  }

  /* ---------------------------------------------------------------- One commit */

  datatype Plan = Plan(writes: seq<Write>, header: Sector, manifest: Manifest, sector: Sector)

  /** The writes of one commit, in order: segment, manifest, header. */
  function Planned(codec: Codec, header: Sector, manifest: Manifest, seg: Segment): Result<Plan> {
    var _ :- Entry(manifest, seg);
    var packed :- Wrap(codec, seg, header.offset);
    var sector := Sector(header.offset, |packed|);
    var m :- Register(manifest, seg, sector);
    var next :- sector.Next();
    var tail :- WrapManifest(codec, m);
    var located := Sector(next, |tail|);
    Ok(Plan([Write(header.offset, packed), Write(next, tail), Write(MUTABLE, SectorBytes(located))], located, m, sector))
  }

  function Committed(codec: Codec, d: Disk, seg: Segment): Result<Disk> {
    var plan :- Planned(codec, d.header, d.manifest, seg);
    Ok(Disk(WriteAll(d.bytes, plan.writes), plan.header, plan.manifest))
  }

  /** The state after some of the writes and part of the next, as a stop at any byte would leave it. */
  function Torn(bytes: seq<Byte>, ws: seq<Write>, done: nat, part: nat): seq<Byte>
    requires done < |ws| && part <= |ws[done].data|
  {
    WriteAt(WriteAll(bytes, ws[..done]), Write(ws[done].offset, ws[done].data[..part]))
  }

  /* ---------------------------------------------------------------- Soundness */

  /** The segments' bytes, each wrapped for the place it is at. */
  function Laid(codec: Codec, segs: seq<Segment>): seq<Byte> {
    if segs == [] then [] else Extended(codec, Laid(codec, segs[..|segs| - 1]), segs[|segs| - 1])
  }

  function Extended(codec: Codec, before: seq<Byte>, seg: Segment): seq<Byte> {
    match Wrap(codec, seg, HEADER + |before|)
    case Ok(packed) => before + packed
    case Err(_) => before
  }

  /** What every committed state satisfies, `segs` being the segments committed so far. */
  ghost predicate Sound(codec: Codec, d: Disk, segs: seq<Segment>) {
    && HEADER <= d.header.offset <= U64_MAX && 0 < d.header.size <= U64_MAX && d.header.End() <= |d.bytes|
    && d.bytes[..4] == MAGIC && d.bytes[4] == VERSION
    && d.bytes[MUTABLE..21] == SectorBytes(d.header) && d.bytes[21..HEADER] == Zeros(3)
    && WrapManifest(codec, d.manifest) == Ok(d.bytes[d.header.offset..d.header.End()])
    && Mapped(d) == Laid(codec, segs)
    && Describes(d.manifest, segs, Mapped(d)) && DataHasSchema(segs)
  }

  lemma {:induction false} WriteKeeps(bytes: seq<Byte>, w: Write, from: nat, to: nat)
    requires from <= to <= |bytes| && (to <= w.offset || w.offset + |w.data| <= from)
    ensures WriteAt(bytes, w)[from..to] == bytes[from..to]
  {
    var r := WriteAt(bytes, w);
    forall k | from <= k < to ensures r[k] == bytes[k] {
    }
  }

  lemma {:induction false} WriteHolds(bytes: seq<Byte>, w: Write)
    ensures WriteAt(bytes, w)[w.offset..w.offset + |w.data|] == w.data
  {
    var gap := if |bytes| < w.offset then Zeros(w.offset - |bytes|) else [];
    assert |(bytes + gap)[..w.offset]| == w.offset;
  }

  /** Writes of a commit start at or behind `limit`, or stay within the header. */
  predicate Avoids(w: Write, limit: nat) {
    limit <= w.offset || (MUTABLE <= w.offset && w.offset + |w.data| <= HEADER)
  }

  lemma {:induction false} AllSpare(bytes: seq<Byte>, ws: seq<Write>, limit: nat)
    requires HEADER <= limit <= |bytes| && forall i :: 0 <= i < |ws| ==> Avoids(ws[i], limit)
    ensures |WriteAll(bytes, ws)| >= |bytes|
    ensures WriteAll(bytes, ws)[HEADER..limit] == bytes[HEADER..limit]
    ensures WriteAll(bytes, ws)[..MUTABLE] == bytes[..MUTABLE]
    decreases |ws|
  {
    if ws != [] {
      assert Avoids(ws[0], limit);
      WriteKeeps(bytes, ws[0], HEADER, limit);
      WriteKeeps(bytes, ws[0], 0, MUTABLE);
      AllSpare(WriteAt(bytes, ws[0]), ws[1..], limit);
    }
  }

  lemma {:induction false} PlanSpares(codec: Codec, header: Sector, manifest: Manifest, seg: Segment)
    requires HEADER <= header.offset && Planned(codec, header, manifest, seg).Ok?
    ensures forall i :: 0 <= i < 3 ==> Avoids(Planned(codec, header, manifest, seg).value.writes[i], header.offset)
    ensures |Planned(codec, header, manifest, seg).value.writes| == 3
  {
  }

  /**
   Committed bytes are never touched: whatever write of a commit a stop falls into, and at whichever of
   its bytes, the segment region up to the old manifest and the file's identity are unchanged.
   */
  lemma {:induction false} CommittedBytesStay(codec: Codec, d: Disk, seg: Segment, done: nat, part: nat)
    requires HEADER <= d.header.offset <= |d.bytes|
    requires Planned(codec, d.header, d.manifest, seg).Ok?
    requires var ws := Planned(codec, d.header, d.manifest, seg).value.writes; done < |ws| && part <= |ws[done].data|
    ensures var torn := Torn(d.bytes, Planned(codec, d.header, d.manifest, seg).value.writes, done, part);
            |torn| >= |d.bytes| && torn[HEADER..d.header.offset] == Mapped(d) && torn[..MUTABLE] == d.bytes[..MUTABLE]
  {
    var ws := Planned(codec, d.header, d.manifest, seg).value.writes;
    PlanSpares(codec, d.header, d.manifest, seg);
    AllSpare(d.bytes, ws[..done], d.header.offset);
    assert Avoids(ws[done], d.header.offset);
    AllSpare(WriteAll(d.bytes, ws[..done]), [Write(ws[done].offset, ws[done].data[..part])], d.header.offset);
  }

  /**
   The header is written last: until the segment and the new manifest are complete it is unchanged, and
   at every stop within the last write everything it is about to locate is in place.
   */
  lemma {:induction false} HeaderIsWrittenLast(codec: Codec, d: Disk, seg: Segment, plan: Plan, done: nat, part: nat)
    requires HEADER <= d.header.offset <= |d.bytes|
    requires Planned(codec, d.header, d.manifest, seg) == Ok(plan)
    requires done < |plan.writes| && part <= |plan.writes[done].data|
    ensures var torn := Torn(d.bytes, plan.writes, done, part);
            && |torn| >= |d.bytes|
            && (done < 2 ==> torn[..HEADER] == d.bytes[..HEADER])
            && (done == 2 ==>
                  && plan.header.End() <= |torn|
                  && torn[HEADER..plan.header.offset] == Mapped(d) + Wrap(codec, seg, d.header.offset).value
                  && Ok(torn[plan.header.offset..plan.header.End()]) == WrapManifest(codec, plan.manifest))
  {
    var _, packed, tail := PlanWrites(codec, d.header, d.manifest, seg);
    TornDisk(d, plan, packed, tail, done, part);
  }

  lemma {:induction false} TornDisk(d: Disk, plan: Plan, packed: seq<Byte>, tail: seq<Byte>, done: nat, part: nat)
    requires HEADER <= d.header.offset <= |d.bytes| && plan.header == Sector(d.header.offset + |packed|, |tail|)
    requires plan.writes == [Write(d.header.offset, packed), Write(d.header.offset + |packed|, tail), Write(MUTABLE, SectorBytes(plan.header))]
    requires done < |plan.writes| && part <= |plan.writes[done].data|
    ensures var torn := Torn(d.bytes, plan.writes, done, part);
            && |torn| >= |d.bytes|
            && (done < 2 ==> torn[..HEADER] == d.bytes[..HEADER])
            && (done == 2 ==>
                  && plan.header.End() <= |torn|
                  && torn[HEADER..plan.header.offset] == Mapped(d) + packed && torn[plan.header.offset..plan.header.End()] == tail)
  {
    StopsInOrder(d.bytes, d.header.offset, packed, tail, SectorBytes(plan.header), done, part);
  }

  lemma {:induction false} StopsInOrder(bytes: seq<Byte>, at: nat, packed: seq<Byte>, tail: seq<Byte>, head: seq<Byte>, done: nat, part: nat)
    requires HEADER <= at <= |bytes| && |head| == 16
    requires var ws := [Write(at, packed), Write(at + |packed|, tail), Write(MUTABLE, head)]; done < 3 && part <= |ws[done].data|
    ensures var ws := [Write(at, packed), Write(at + |packed|, tail), Write(MUTABLE, head)];
            var torn, end := Torn(bytes, ws, done, part), at + |packed|;
            && |torn| >= |bytes|
            && (done < 2 ==> torn[..HEADER] == bytes[..HEADER])
            && (done == 2 ==>
                  end + |tail| <= |torn| && torn[HEADER..end] == bytes[HEADER..at] + packed && torn[end..end + |tail|] == tail)
  {
    var w0, w1, w2 := Write(at, packed), Write(at + |packed|, tail), Write(MUTABLE, head);
    var ws := [w0, w1, w2];
    if done == 0 {
      assert ws[..0] == [];
      WriteKeeps(bytes, Write(at, packed[..part]), 0, HEADER);
    } else if done == 1 {
      assert ws[..1] == [w0];
      OneWrite(bytes, w0);
      WriteKeeps(bytes, w0, 0, HEADER);
      WriteKeeps(WriteAt(bytes, w0), Write(w1.offset, tail[..part]), 0, HEADER);
    } else {
      assert ws[..2] == [w0, w1];
      TwoWrites(bytes, w0, w1);
      LastWriteLocates(bytes, at, packed, tail, head[..part]);
    }
  }

  lemma {:induction false} OneWrite(bytes: seq<Byte>, a: Write)
    ensures WriteAll(bytes, [a]) == WriteAt(bytes, a)
  {
    assert WriteAll(WriteAt(bytes, a), []) == WriteAt(bytes, a);
  }

  lemma {:induction false} TwoWrites(bytes: seq<Byte>, a: Write, b: Write)
    ensures WriteAll(bytes, [a, b]) == WriteAt(WriteAt(bytes, a), b)
  {
    assert [a, b][1..] == [b];
    OneWrite(WriteAt(bytes, a), b);
  }

  lemma {:induction false} LastWriteLocates(bytes: seq<Byte>, at: nat, packed: seq<Byte>, tail: seq<Byte>, part: seq<Byte>)
    requires HEADER <= at <= |bytes| && |part| <= 16
    ensures var end := at + |packed|;
            var r := WriteAt(WriteAt(WriteAt(bytes, Write(at, packed)), Write(end, tail)), Write(MUTABLE, part));
            && |r| >= |bytes| && end + |tail| <= |r|
            && r[HEADER..end] == bytes[HEADER..at] + packed && r[end..end + |tail|] == tail
  {
    var end := at + |packed|;
    var w0, w1, w2 := Write(at, packed), Write(end, tail), Write(MUTABLE, part);
    var b1 := WriteAt(bytes, w0);
    var b2 := WriteAt(b1, w1);
    WriteHolds(bytes, w0);
    WriteHolds(b1, w1);
    WriteKeeps(bytes, w0, 0, at);
    WriteKeeps(b1, w1, 0, end);
    WriteKeeps(b2, w2, 0, MUTABLE);
    WriteKeeps(b2, w2, 21, end + |tail|);
    Windows(bytes, b1, b2, WriteAt(b2, w2), at, end, end + |tail|);
  }

  /** What a commit leaves behind: the region extended by the segment, the manifest after it, the header pointing there. */
  lemma {:induction false} WritesExtend(bytes: seq<Byte>, at: nat, packed: seq<Byte>, tail: seq<Byte>, head: seq<Byte>)
    requires HEADER <= at <= |bytes| && |head| == 16
    ensures var end := at + |packed|;
            var r := WriteAll(bytes, [Write(at, packed), Write(end, tail), Write(MUTABLE, head)]);
            && end + |tail| <= |r|
            && r[HEADER..end] == bytes[HEADER..at] + packed && r[end..end + |tail|] == tail
            && r[MUTABLE..21] == head && r[21..HEADER] == bytes[21..HEADER] && r[..MUTABLE] == bytes[..MUTABLE]
  {
    var end := at + |packed|;
    var w0, w1, w2 := Write(at, packed), Write(end, tail), Write(MUTABLE, head);
    var b1 := WriteAt(bytes, w0);
    var b2 := WriteAt(b1, w1);
    ThreeWrites(bytes, w0, w1, w2);
    WriteHolds(bytes, w0);
    WriteHolds(b1, w1);
    WriteHolds(b2, w2);
    WriteKeeps(bytes, w0, 0, at);
    WriteKeeps(b1, w1, 0, end);
    WriteKeeps(b2, w2, 0, MUTABLE);
    WriteKeeps(b2, w2, 21, end + |tail|);
    Windows(bytes, b1, b2, WriteAt(b2, w2), at, end, end + |tail|);
  }

  /** Slices of slices, for the four states of a commit. */
  lemma {:induction false} Windows(b0: seq<Byte>, b1: seq<Byte>, b2: seq<Byte>, b3: seq<Byte>, at: nat, end: nat, last: nat)
    requires HEADER <= at <= end <= last && at <= |b0| && end <= |b1| && last <= |b2| <= |b3|
    requires b1[..at] == b0[..at] && b2[..end] == b1[..end] && b3[21..last] == b2[21..last] && b3[..MUTABLE] == b2[..MUTABLE]
    ensures b3[HEADER..end] == b0[HEADER..at] + b1[at..end] && b3[end..last] == b2[end..last]
    ensures b3[21..HEADER] == b0[21..HEADER] && b3[..MUTABLE] == b0[..MUTABLE]
  {
    assert forall k :: 21 <= k < last ==> b3[k] == b3[21..last][k - 21] == b2[21..last][k - 21] == b2[k];
    assert forall k :: 0 <= k < end ==> b2[k] == b2[..end][k] == b1[..end][k] == b1[k];
    assert forall k :: 0 <= k < at ==> b1[k] == b1[..at][k] == b0[..at][k] == b0[k];
    assert forall k :: 0 <= k < MUTABLE ==> b3[k] == b3[..MUTABLE][k] == b2[..MUTABLE][k] == b2[k];
  }

  lemma {:induction false} ThreeWrites(bytes: seq<Byte>, a: Write, b: Write, c: Write)
    ensures WriteAll(bytes, [a, b, c]) == WriteAt(WriteAt(WriteAt(bytes, a), b), c)
  {
    assert [a, b, c][1..] == [b, c] && [b, c][1..] == [c] && [c][1..] == [];
    var x := WriteAt(bytes, a);
    var y := WriteAt(x, b);
    assert WriteAll(y, [c]) == WriteAll(WriteAt(y, c), []) == WriteAt(y, c);
    assert WriteAll(x, [b, c]) == WriteAll(y, [c]);
  }

  /** A successful plan writes the wrapped segment, then the manifest it led to, then its sector. */
  lemma {:induction false} PlanParts(codec: Codec, header: Sector, manifest: Manifest, seg: Segment)
    requires Planned(codec, header, manifest, seg).Ok?
    ensures var plan := Planned(codec, header, manifest, seg).value;
            && Entry(manifest, seg).Ok?
            && Wrap(codec, seg, header.offset).Ok? && WrapManifest(codec, plan.manifest).Ok?
            && var packed := Wrap(codec, seg, header.offset).value; var tail := WrapManifest(codec, plan.manifest).value;
               && plan.sector == Sector(header.offset, |packed|)
               && Register(manifest, seg, plan.sector) == Ok(plan.manifest)
               && plan.header == Sector(header.offset + |packed|, |tail|) && plan.header.offset <= U64_MAX
               && 0 < |tail| <= U64_MAX
               && plan.writes == [Write(header.offset, packed), Write(plan.header.offset, tail), Write(MUTABLE, SectorBytes(plan.header))]
  {
    var plan := Planned(codec, header, manifest, seg).value;
    PlainSize(codec, MANIFEST, codec.manifestBytes(plan.manifest));
  }

  /** The three writes of a plan, by what they write. */
  lemma {:induction false} PlanWrites(codec: Codec, header: Sector, manifest: Manifest, seg: Segment)
    returns (plan: Plan, packed: seq<Byte>, tail: seq<Byte>)
    requires Planned(codec, header, manifest, seg).Ok?
    ensures Planned(codec, header, manifest, seg) == Ok(plan)
    ensures Wrap(codec, seg, header.offset) == Ok(packed) && WrapManifest(codec, plan.manifest) == Ok(tail)
    ensures plan.header == Sector(header.offset + |packed|, |tail|) && plan.header.offset <= U64_MAX && 0 < |tail| <= U64_MAX
    ensures plan.writes == [Write(header.offset, packed), Write(header.offset + |packed|, tail), Write(MUTABLE, SectorBytes(plan.header))]
  {
    PlanParts(codec, header, manifest, seg);
    plan := Planned(codec, header, manifest, seg).value;
    packed, tail := Wrap(codec, seg, header.offset).value, WrapManifest(codec, plan.manifest).value;
  }

  lemma {:induction false} PlainSize(codec: Codec, variant: Byte, body: seq<Byte>)
    requires WrapPlain(codec, variant, body).Ok?
    ensures 0 < |WrapPlain(codec, variant, body).value| == |body| + 17 <= U64_MAX
  {
  }

  /** Soundness survives every commit. */
  lemma {:induction false} CommitSound(codec: Codec, d: Disk, segs: seq<Segment>, seg: Segment)
    requires codec.Valid() && Sound(codec, d, segs) && Fits(d.manifest, seg) && Committed(codec, d, seg).Ok?
    ensures Sound(codec, Committed(codec, d, seg).value, segs + [seg])
    ensures Mapped(Committed(codec, d, seg).value) == Mapped(d) + Wrap(codec, seg, d.header.offset).value
  {
    var after, packed, tail := CommitBytes(codec, d, seg);
    SoundIdentity(codec, d, segs);
    CommitDescribes(codec, d, segs, seg, after);
    LaidExtends(codec, segs, seg, packed);
    SoundParts(codec, after, segs + [seg], Mapped(d) + packed, tail);
  }

  lemma {:induction false} CommitBytes(codec: Codec, d: Disk, seg: Segment) returns (after: Disk, packed: seq<Byte>, tail: seq<Byte>)
    requires HEADER <= d.header.offset <= |d.bytes| && Committed(codec, d, seg).Ok?
    ensures Committed(codec, d, seg) == Ok(after)
    ensures Wrap(codec, seg, d.header.offset) == Ok(packed) && WrapManifest(codec, after.manifest) == Ok(tail)
    ensures after.header == Sector(d.header.offset + |packed|, |tail|)
    ensures after.header.offset <= U64_MAX && 0 < |tail| <= U64_MAX && after.header.End() <= |after.bytes|
    ensures after.bytes[..MUTABLE] == d.bytes[..MUTABLE] && after.bytes[21..HEADER] == d.bytes[21..HEADER]
    ensures after.bytes[MUTABLE..21] == SectorBytes(after.header)
    ensures after.bytes[HEADER..after.header.offset] == Mapped(d) + packed
    ensures after.bytes[after.header.offset..after.header.End()] == tail
  {
    var plan: Plan;
    plan, packed, tail := PlanWrites(codec, d.header, d.manifest, seg);
    after := Disk(WriteAll(d.bytes, plan.writes), plan.header, plan.manifest);
    DiskExtended(d, packed, tail, after);
  }

  /** The three writes of a commit, on a disk. */
  lemma {:induction false} DiskExtended(d: Disk, packed: seq<Byte>, tail: seq<Byte>, after: Disk)
    requires HEADER <= d.header.offset <= |d.bytes| && after.header == Sector(d.header.offset + |packed|, |tail|)
    requires after.bytes == WriteAll(d.bytes, [Write(d.header.offset, packed), Write(d.header.offset + |packed|, tail), Write(MUTABLE, SectorBytes(after.header))])
    ensures after.header.End() <= |after.bytes|
    ensures after.bytes[..MUTABLE] == d.bytes[..MUTABLE] && after.bytes[21..HEADER] == d.bytes[21..HEADER]
    ensures after.bytes[MUTABLE..21] == SectorBytes(after.header)
    ensures after.bytes[HEADER..after.header.offset] == Mapped(d) + packed
    ensures after.bytes[after.header.offset..after.header.End()] == tail
  {
    WritesExtend(d.bytes, d.header.offset, packed, tail, SectorBytes(after.header));
  }

  lemma {:induction false} SoundIdentity(codec: Codec, d: Disk, segs: seq<Segment>)
    requires Sound(codec, d, segs)
    ensures d.bytes[..MUTABLE] == MAGIC + [VERSION] && d.bytes[21..HEADER] == Zeros(3)
    ensures d.header.offset == HEADER + |Mapped(d)| && Mapped(d) == Laid(codec, segs)
  {
    assert d.bytes[..MUTABLE] == d.bytes[..4] + [d.bytes[4]];
  }

  lemma {:induction false} CommitDescribes(codec: Codec, d: Disk, segs: seq<Segment>, seg: Segment, after: Disk)
    requires Sound(codec, d, segs) && Fits(d.manifest, seg) && Committed(codec, d, seg) == Ok(after)
    ensures Wrap(codec, seg, d.header.offset).Ok?
    ensures Describes(after.manifest, segs + [seg], Mapped(d) + Wrap(codec, seg, d.header.offset).value)
    ensures DataHasSchema(segs + [seg])
  {
    PlanParts(codec, d.header, d.manifest, seg);
    SoundIdentity(codec, d, segs);
    RegisterDescribes(codec, d.manifest, segs, Mapped(d), seg, Wrap(codec, seg, d.header.offset).value, after.manifest);
  }

  lemma {:induction false} LaidExtends(codec: Codec, segs: seq<Segment>, seg: Segment, packed: seq<Byte>)
    requires Wrap(codec, seg, HEADER + |Laid(codec, segs)|) == Ok(packed)
    ensures Laid(codec, segs + [seg]) == Laid(codec, segs) + packed
  {
    Snoc(segs, seg);
    assert Laid(codec, segs + [seg]) == Extended(codec, Laid(codec, segs), seg);
  }

  lemma {:induction false} SoundParts(codec: Codec, d: Disk, segs: seq<Segment>, region: seq<Byte>, tail: seq<Byte>)
    requires d.header.offset == HEADER + |region| <= U64_MAX && d.header.size == |tail| && 0 < |tail| <= U64_MAX
    requires d.header.End() <= |d.bytes|
    requires d.bytes[..MUTABLE] == MAGIC + [VERSION]
    requires d.bytes[MUTABLE..21] == SectorBytes(d.header) && d.bytes[21..HEADER] == Zeros(3)
    requires d.bytes[HEADER..d.header.offset] == region && d.bytes[d.header.offset..d.header.End()] == tail
    requires WrapManifest(codec, d.manifest) == Ok(tail)
    requires region == Laid(codec, segs) && Describes(d.manifest, segs, region) && DataHasSchema(segs)
    ensures Sound(codec, d, segs)
  {
    assert d.bytes[..4] == d.bytes[..MUTABLE][..4] && d.bytes[4] == d.bytes[..MUTABLE][4];
  }

  /** The bytes of a new file. */
  lemma {:induction false} CreatedBytes(codec: Codec, packed: seq<Byte>)
    requires WrapManifest(codec, Manifest(map[], map[])) == Ok(packed)
    ensures Created(codec) == Ok(Disk(MAGIC + [VERSION] + SectorBytes(Sector(HEADER, |packed|)) + Zeros(3) + packed,
                                      Sector(HEADER, |packed|), Manifest(map[], map[])))
  {
    var id, head := MAGIC + [VERSION], SectorBytes(Sector(HEADER, |packed|));
    var w0, w1, w2, w3, w4 := Write(0, MAGIC), Write(4, [VERSION]), Write(HEADER, packed), Write(MUTABLE, head), Write(21, Zeros(3));
    WriteBehind([], 0, MAGIC);
    WriteBehind(MAGIC, 0, [VERSION]);
    WriteBehind(id, 19, packed);
    assert [] + Zeros(0) + MAGIC == MAGIC && MAGIC + Zeros(0) + [VERSION] == id;
    assert id + Zeros(19) + packed == id + Zeros(16) + (Zeros(3) + packed);
    WriteInside(id, Zeros(16), Zeros(3) + packed, head);
    assert id + head + (Zeros(3) + packed) == (id + head) + Zeros(3) + packed;
    WriteInside(id + head, Zeros(3), packed, Zeros(3));
    ThreeWrites(id, w2, w3, w4);
    var ws := [w0, w1, w2, w3, w4];
    assert ws[1..] == [w1, w2, w3, w4] && ws[1..][1..] == [w2, w3, w4];
    assert WriteAll([], ws) == WriteAll(MAGIC, ws[1..]) == WriteAll(id, ws[1..][1..]);
  }

  lemma {:induction false} WriteBehind(a: seq<Byte>, gap: nat, data: seq<Byte>)
    ensures WriteAt(a, Write(|a| + gap, data)) == a + Zeros(gap) + data
  {
  }

  lemma {:induction false} WriteInside(a: seq<Byte>, b: seq<Byte>, c: seq<Byte>, data: seq<Byte>)
    requires |data| == |b|
    ensures WriteAt(a + b + c, Write(|a|, data)) == a + data + c
  {
  }

  lemma {:induction false} CreatedSound(codec: Codec)
    requires codec.Valid() && Created(codec).Ok?
    ensures Sound(codec, Created(codec).value, [])
  {
    var packed := WrapManifest(codec, Manifest(map[], map[])).value;
    CreatedBytes(codec, packed);
    PlainSize(codec, MANIFEST, codec.manifestBytes(Manifest(map[], map[])));
    var d := Created(codec).value;
    var id, head := MAGIC + [VERSION], SectorBytes(d.header);
    FourParts(id, head, Zeros(3), packed);
    assert d.bytes[HEADER..HEADER] == [];
    EmptyDescribes();
    SoundParts(codec, d, [], [], packed);
  }

  lemma {:induction false} FourParts(a: seq<Byte>, b: seq<Byte>, c: seq<Byte>, d: seq<Byte>)
    ensures var all := a + b + c + d; var i, j, k := |a|, |a| + |b|, |a| + |b| + |c|;
            all[..i] == a && all[i..j] == b && all[j..k] == c && all[k..k + |d|] == d && |all| == k + |d|
  {
  }

  lemma {:induction false} EmptyDescribes()
    ensures Describes(Manifest(map[], map[]), [], []) && DataHasSchema([])
  {
  }

  /** Opening the bytes of any sound state recovers its header and manifest. */
  lemma {:induction false} Reopens(codec: Codec, d: Disk, segs: seq<Segment>)
    requires codec.Valid() && Sound(codec, d, segs) && codec.Decodes(d.manifest)
    ensures Opened(codec, d.bytes) == Ok((d.header, d.manifest))
  {
    var b := d.bytes;
    U64Range();
    LeRoundTrip(d.header.offset, 8);
    LeRoundTrip(d.header.size, 8);
    assert b[5..13] == b[MUTABLE..21][..8] == ToLe(d.header.offset, 8);
    assert b[13..21] == b[MUTABLE..21][8..] == ToLe(d.header.size, 8);
    var body := codec.manifestBytes(d.manifest);
    var covered := Head(MANIFEST, |body|) + body;
    ChecksumVerifies(codec, covered);
    assert covered[9..] == body;
  }

  /* ---------------------------------------------------------------- The open file */

  /** The phases of a commit, up to the first that fails. */
  lemma {:induction false} Phases(codec: Codec, header: Sector, manifest: Manifest, seg: Segment)
    ensures var plan := Planned(codec, header, manifest, seg);
            && (Entry(manifest, seg).Err? ==> plan == Err(Entry(manifest, seg).error))
            && (Entry(manifest, seg).Ok? ==>
                  var packed := Wrap(codec, seg, header.offset);
                  && (packed.Err? ==> plan == Err(packed.error))
                  && (packed.Ok? ==>
                        var sector := Sector(header.offset, |packed.value|); var m := Register(manifest, seg, sector);
                        && (m.Err? ==> plan == Err(m.error))
                        && (m.Ok? ==>
                              && (sector.Next().Err? ==> plan == Err(sector.Next().error))
                              && (sector.Next().Ok? && WrapManifest(codec, m.value).Err? ==> plan == Err(WrapManifest(codec, m.value).error))
                              && (sector.Next().Ok? && WrapManifest(codec, m.value).Ok? ==> plan.Ok?))))
  {
  }

  /** Three completed writes with a successful plan are the commit. */
  lemma {:induction false} FinishedIsCommitted(codec: Codec, d: Disk, seg: Segment, after: Disk)
    requires Planned(codec, d.header, d.manifest, seg).Ok?
    requires var plan := Planned(codec, d.header, d.manifest, seg).value;
             var packed := Wrap(codec, seg, d.header.offset); var tail := WrapManifest(codec, plan.manifest);
             && after.header == plan.header && after.manifest == plan.manifest && packed.Ok? && tail.Ok?
             && after.bytes == WriteAt(WriteAt(WriteAt(d.bytes, Write(d.header.offset, packed.value)),
                                               Write(after.header.offset, tail.value)), Write(MUTABLE, SectorBytes(after.header)))
    ensures Committed(codec, d, seg) == Ok(after)
  {
    PlanParts(codec, d.header, d.manifest, seg);
    ThreeWrites(d.bytes, Write(d.header.offset, Wrap(codec, seg, d.header.offset).value),
                Write(after.header.offset, WrapManifest(codec, after.manifest).value), Write(MUTABLE, SectorBytes(after.header)));
  }

  /** Registration when the first columns have become `done` and the next region starts at `at`. */
  function RegisterOn(entries: seq<ColumnEntry>, pieces: seq<Piece>, done: seq<ColumnEntry>, at: nat): Result<seq<ColumnEntry>>
    requires |done| <= |entries| && |done| <= |pieces|
  {
    Prefixed(done, RegisterColumns(entries[|done|..], pieces[|done|..], at))
  }

  lemma {:induction false} RegisterBegins(entries: seq<ColumnEntry>, pieces: seq<Piece>, offset: nat)
    ensures RegisterOn(entries, pieces, [], offset) == RegisterColumns(entries, pieces, offset)
  {
    assert entries[0..] == entries && pieces[0..] == pieces;
    PrefixedNone(RegisterColumns(entries, pieces, offset));
  }

  /** A list taken over up to a point and kept from there. */
  lemma {:induction false} RestKept(columns: seq<ColumnEntry>, entries: seq<ColumnEntry>, done: seq<ColumnEntry>)
    requires |done| <= |columns| == |entries|
    requires forall k :: 0 <= k < |done| ==> columns[k] == done[k]
    requires forall k :: |done| <= k < |columns| ==> columns[k] == entries[k]
    ensures columns == done + entries[|done|..]
  {
  }

  /** Registering one column more, or failing at it. */
  lemma {:induction false} RegisterAdvances(entries: seq<ColumnEntry>, pieces: seq<Piece>, done: seq<ColumnEntry>, at: nat)
    requires |done| < |pieces| && |done| <= |entries|
    ensures var c, all := |done|, RegisterOn(entries, pieces, done, at);
            if c == |entries| then all == Err(NotFound)
            else
              match DescribeColumn(pieces[c], at)
              case Err(e) => all == Err(e)
              case Ok((b, next)) => all == RegisterOn(entries, pieces, done + [entries[c].(buffers := Insert(entries[c].buffers, b))], next)
  {
    var c := |done|;
    assert pieces[c..][0] == pieces[c] && pieces[c..][1..] == pieces[c + 1..];
    if c < |entries| {
      assert entries[c..][0] == entries[c] && entries[c..][1..] == entries[c + 1..];
      var d := DescribeColumn(pieces[c], at);
      if d.Ok? {
        PrefixedTwice(done, entries[c].(buffers := Insert(entries[c].buffers, d.value.0)),
                      RegisterColumns(entries[c + 1..], pieces[c + 1..], d.value.1));
      }
    }
  }

  class Handle {
    const codec: Codec
    var bytes: seq<Byte>
    var header: Sector
    var manifest: Manifest
    ghost var segs: seq<Segment>

    ghost function State(): Disk
      reads this
    {
      Disk(bytes, header, manifest)
    }

    ghost predicate Valid()
      reads this
    {
      codec.Valid() && Sound(codec, State(), segs)
    }

    constructor Over(codec: Codec, d: Disk)
      requires codec.Valid() && Created(codec) == Ok(d)
      ensures Valid() && this.codec == codec && segs == [] && State() == d
    {
      this.codec := codec;
      bytes, header, manifest, segs := d.bytes, d.header, d.manifest, [];
      new;
      CreatedSound(codec);
    }

    static method Create(codec: Codec) returns (r: Result<Handle>)
      requires codec.Valid()
      ensures r.Ok? <==> Created(codec).Ok?
      ensures r.Ok? ==> fresh(r.value) && r.value.Valid() && r.value.codec == codec && r.value.segs == []
    {
      var d := Created(codec);
      if d.Err? {
        return Err(d.error);
      }
      var h := new Handle.Over(codec, d.value);
      return Ok(h);
    }

    /**
     Appends a segment: reserve its entry, write it over the old manifest, register it, write the new
     manifest behind it, and last let the header point there. Every failure leaves the header and all
     committed bytes as they were; a failure before the first write leaves everything as it was.
     */
    method Append(seg: Segment) returns (r: Result<Sector>)
      requires Valid() && Fits(manifest, seg)
      modifies this
      ensures r.Ok? <==> Committed(codec, old(State()), seg).Ok?
      ensures r.Ok? ==>
                && Valid() && segs == old(segs) + [seg] && Committed(codec, old(State()), seg) == Ok(State())
                && r.value == Sector(old(header).offset, header.offset - old(header).offset)
      ensures r.Err? ==>
                && header == old(header) && segs == old(segs) && |bytes| >= |old(bytes)|
                && bytes[..header.offset] == old(bytes)[..header.offset]
      ensures Entry(old(manifest), seg).Err? ==> r == Err(Entry(old(manifest), seg).error)
      ensures Entry(old(manifest), seg).Err? || Wrap(codec, seg, old(header).offset).Err? ==> r.Err? && unchanged(this) && Valid()
    {
      ghost var before := State();
      r := Commit(seg);
      if r.Ok? {
        segs := segs + [seg];
        CommitSound(codec, before, old(segs), seg);
      }
    }

    /** The phases of a commit, whatever was committed before. */
    method Commit(seg: Segment) returns (r: Result<Sector>)
      requires HEADER <= header.offset <= |bytes| && Fits(manifest, seg)
      modifies this`bytes, this`header, this`manifest
      ensures match r
              case Ok(sector) =>
                && Committed(codec, old(State()), seg) == Ok(State())
                && sector == Sector(old(header).offset, header.offset - old(header).offset)
              case Err(e) =>
                && Committed(codec, old(State()), seg) == Err(e) && header == old(header)
                && |bytes| >= |old(bytes)| && bytes[..header.offset] == old(bytes)[..header.offset]
      ensures Entry(old(manifest), seg).Err? ==> r == Err(Entry(old(manifest), seg).error)
      ensures Entry(old(manifest), seg).Err? || Wrap(codec, seg, old(header).offset).Err? ==> r.Err? && unchanged(this)
    {
      ghost var before := State();
      Phases(codec, header, manifest, seg);
      var sector := Begin(seg);
      if sector.Err? {
        return Err(sector.error);
      }
      var next := sector.value.Next();
      if next.Err? {
        return Err(next.error);
      }
      var tail := WrapManifest(codec, manifest);
      if tail.Err? {
        return Err(tail.error);
      }
      Finish(next.value, tail.value);
      PlanParts(codec, before.header, before.manifest, seg);
      FinishedIsCommitted(codec, before, seg, State());
      return Ok(sector.value);
    }

    /** Reserves the entry, writes the segment over the old manifest and registers it. */
    method Begin(seg: Segment) returns (r: Result<Sector>)
      requires header.offset <= |bytes| && Fits(manifest, seg)
      modifies this`bytes, this`manifest
      ensures Entry(old(manifest), seg).Err? ==> r == Err(Entry(old(manifest), seg).error)
      ensures Entry(old(manifest), seg).Err? || Wrap(codec, seg, header.offset).Err? ==> r.Err? && unchanged(this)
      ensures |bytes| >= |old(bytes)| && bytes[..header.offset] == old(bytes)[..header.offset]
      ensures match r
              case Err(e) => Planned(codec, header, old(manifest), seg) == Err(e)
              case Ok(sector) =>
                && Entry(old(manifest), seg).Ok? && Wrap(codec, seg, header.offset).Ok?
                && var packed := Wrap(codec, seg, header.offset).value;
                   && sector == Sector(header.offset, |packed|) && bytes == WriteAt(old(bytes), Write(header.offset, packed))
                   && Register(old(manifest), seg, sector) == Ok(manifest)
    {
      Phases(codec, header, manifest, seg);
      var entry := Entry(manifest, seg);
      if entry.Err? {
        return Err(entry.error);
      }
      var packed := Pack(seg);
      if packed.Err? {
        return Err(packed.error);
      }
      var sector := Sector(header.offset, |packed.value|);
      WriteKeeps(bytes, Write(header.offset, packed.value), 0, header.offset);
      bytes := WriteAt(bytes, Write(header.offset, packed.value));
      var m := Record(seg, sector);
      return if m.Ok? then Ok(sector) else Err(m.error);
    }

    method Pack(seg: Segment) returns (r: Result<seq<Byte>>)
      requires seg.DataSegment? ==> AllValid(seg.pieces)
      ensures r == Wrap(codec, seg, header.offset)
    {
      if seg.DataSegment? {
        var buf := FillData(codec, seg.schema, seg.pieces, header.offset);
        r := if buf.Ok? then Ok(buf.value[..]) else Err(buf.error);
      } else {
        r := Wrap(codec, seg, header.offset);
      }
    }

    /** Appends the new manifest and lets the header point at it. */
    method Finish(next: nat, tail: seq<Byte>)
      modifies this`bytes, this`header
      ensures header == Sector(next, |tail|)
      ensures bytes == WriteAt(WriteAt(old(bytes), Write(next, tail)), Write(MUTABLE, SectorBytes(header)))
    {
      bytes := WriteAt(bytes, Write(next, tail));
      header := Sector(next, |tail|);
      bytes := WriteAt(bytes, Write(MUTABLE, SectorBytes(header)));
    }

    /** Registers a segment in the manifest; columns are updated one by one, also when a later one fails. */
    method Record(seg: Segment, sector: Sector) returns (r: Result<()>)
      modifies this`manifest
      ensures match Register(old(manifest), seg, sector)
              case Ok(m) => r.Ok? && manifest == m
              case Err(e) => r == Err(e)
    {
      if seg.DataSegment? {
        if seg.name !in manifest.schemas {
          return Err(NotFound);
        }
        var offset := BodyOffset(sector, 25);
        if offset.Err? {
          return Err(offset.error);
        }
        var entry := manifest.schemas[seg.name];
        var columns, done := RecordColumns(entry.columns, seg.pieces, offset.value);
        manifest := manifest.(schemas := manifest.schemas[seg.name := entry.(columns := columns)]);
        r := done;
      } else {
        var m := Register(manifest, seg, sector);
        if m.Err? {
          return Err(m.error);
        }
        manifest := m.value;
        r := Ok(());
      }
    }

    /** Inserts one descriptor, then computes the offset behind its region. */
    static method RecordColumn(entry: ColumnEntry, piece: Piece, at: nat) returns (recorded: ColumnEntry, next: Result<nat>)
      ensures match DescribeColumn(piece, at)
              case Ok((b, behind)) => recorded == entry.(buffers := Insert(entry.buffers, b)) && next == Ok(behind)
              case Err(e) => next == Err(e)
    {
      recorded := entry;
      var sector := ColumnSector(piece, at);
      if sector.Err? {
        return recorded, Err(sector.error);
      }
      var b := DescribeAt(piece, sector.value);
      if b.Err? {
        return recorded, Err(b.error);
      }
      recorded := entry.(buffers := Insert(entry.buffers, b.value));
      next := OffsetBehind(sector.value);
    }

    static method RecordColumns(entries: seq<ColumnEntry>, pieces: seq<Piece>, offset: nat)
      returns (columns: seq<ColumnEntry>, r: Result<()>)
      ensures |columns| == |entries|
      ensures match RegisterColumns(entries, pieces, offset)
              case Ok(cs) => r.Ok? && columns == cs
              case Err(e) => r == Err(e)
    {
      columns := entries;
      var at := offset;
      ghost var done: seq<ColumnEntry> := [];
      ghost var all := RegisterColumns(entries, pieces, offset);
      RegisterBegins(entries, pieces, offset);
      for c := 0 to |pieces|
        invariant |done| == c <= |columns| == |entries|
        invariant forall k :: 0 <= k < c ==> columns[k] == done[k]
        invariant forall k :: c <= k < |columns| ==> columns[k] == entries[k]
        invariant all == RegisterOn(entries, pieces, done, at)
      {
        RegisterAdvances(entries, pieces, done, at);
        if c == |columns| {
          return columns, Err(NotFound);
        }
        var entry, next := RecordColumn(columns[c], pieces[c], at);
        columns := columns[c := entry];
        done := done + [entry];
        if next.Err? {
          return columns, Err(next.error);
        }
        at := next.value;
      }
      RestKept(columns, entries, done);
      return columns, Ok(());
    }
  }
}
