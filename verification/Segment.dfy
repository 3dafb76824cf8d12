/**
 Segments: the self-describing pieces a file is appended from.
 */
module Segment {
  import opened Prelude
  import opened Bytes
  import opened Types
  import opened Accumulate
  import opened RoundTrip
  import opened Stats
  import opened Layout

  /** Length of the file header: magic, version, manifest sector, alignment. */
  const HEADER: nat := 24

  const SCHEMA: Byte := 0x01
  const DATA: Byte := 0x02
  const BINARY: Byte := 0x03
  const MANIFEST: Byte := 0x00

  datatype ColumnEntry = ColumnEntry(name: string, ty: Type, buffers: seq<Buffer>)

  datatype SchemaEntry = SchemaEntry(sector: Sector, columns: seq<ColumnEntry>)

  /** The in-memory manifest. Columns are in name order, buffers in sector order. */
  datatype Manifest = Manifest(schemas: map<string, SchemaEntry>, bins: map<string, Sector>)

  datatype Segment =
    | SchemaSegment(name: string, columns: seq<(string, Type)>)
    | DataSegment(name: string, schema: Sector, pieces: seq<Piece>)
    | BinSegment(name: string, data: seq<Byte>)

  /** Encodings the engine takes from elsewhere: CBOR documents and the 64-bit checksum. */
  datatype Codec = Codec(
    schemaBytes: (string, seq<(string, Type)>) -> seq<Byte>,
    manifestBytes: Manifest -> seq<Byte>,
    manifestFrom: seq<Byte> -> Result<Manifest>,
    hash: seq<Byte> -> nat)
  {
    /** A checksum has 64 bits. */
    ghost predicate Valid() {
      forall b :: hash(b) <= U64_MAX
    }

    /** An encoded manifest decodes to itself. */
    predicate Decodes(m: Manifest) {
      manifestFrom(manifestBytes(m)) == Ok(m)
    }
  }

  /* ---------------------------------------------------------------- Wrapping */

  function Checksummed(codec: Codec, bytes: seq<Byte>): (r: seq<Byte>)
    ensures |r| == |bytes| + 8
  {
    bytes + ToLe(codec.hash(bytes), 8)
  }

  function Head(variant: Byte, size: nat): (r: seq<Byte>)
    ensures |r| == 9
  {
    [variant] + ToLe(size, 8)
  }

  /** A segment packed without padding. */
  function WrapPlain(codec: Codec, variant: Byte, body: seq<Byte>): Result<seq<Byte>> {
    var size :- NonZero(|body|);
    var _ :- CheckedAdd(size, 17);
    Ok(Checksummed(codec, Head(variant, size) + body))
  }

  /** Padding that aligns what follows `fixed` bytes behind `offset`. */
  function PadBehind(offset: nat, fixed: nat): Result<nat> {
    var at :- CheckedAdd(offset, fixed);
    var aligned :- CheckedAlign(at);
    Ok(aligned - at)
  }

  function WrapBin(codec: Codec, data: seq<Byte>, offset: nat): Result<seq<Byte>> {
    var pad :- PadBehind(offset, 9);
    var size :- NonZero(|data|);
    var prefixed :- CheckedAdd(size, 17);
    var _ :- CheckedAdd(prefixed, pad);
    Ok(Checksummed(codec, Head(BINARY, size) + Zeros(pad) + data))
  }

  /** Items in a composite, counted in its first column. */
  function ItemCount(pieces: seq<Piece>): nat {
    if pieces == [] then 0 else pieces[0].count
  }

  /** Padding, recorded size and total length of a data segment. */
  function DataExtent(pieces: seq<Piece>, offset: nat): Result<(nat, nat, nat)> {
    var pad :- PadBehind(offset, 25);
    var body :- DataSize(pieces);
    var aligned :- CheckedAlign(body);
    var described :- CheckedAdd(aligned, 16);
    var size :- CheckedAdd(described, pad);
    var full :- CheckedAdd(size, 17);
    Ok((pad, size, full))
  }

  function WrapData(codec: Codec, schema: Sector, pieces: seq<Piece>, offset: nat): Result<seq<Byte>> {
    var (pad, size, _) :- DataExtent(pieces, offset);
    var body :- DataBytes(pieces);
    Ok(Checksummed(codec, Head(DATA, size) + ToLe(schema.offset, 8) + ToLe(ItemCount(pieces), 8) + Zeros(pad) + body))
  }

  function Wrap(codec: Codec, seg: Segment, offset: nat): Result<seq<Byte>> {
    match seg
    case SchemaSegment(name, columns) => WrapPlain(codec, SCHEMA, codec.schemaBytes(name, columns))
    case DataSegment(_, schema, pieces) => WrapData(codec, schema, pieces, offset)
    case BinSegment(_, data) => WrapBin(codec, data, offset)
  }

  function WrapManifest(codec: Codec, m: Manifest): Result<seq<Byte>> {
    WrapPlain(codec, MANIFEST, codec.manifestBytes(m))
  }

  /** The bytes before a matching checksum. */
  function Verify(codec: Codec, bytes: seq<Byte>): Result<seq<Byte>> {
    if |bytes| < 8 then Err(Truncated)
    else
      var n := |bytes| - 8;
      if FromLe(bytes[n..]) == codec.hash(bytes[..n]) then Ok(bytes[..n]) else Err(Checksum)
  }

  lemma {:induction false} ChecksumVerifies(codec: Codec, bytes: seq<Byte>)
    requires codec.Valid()
    ensures Verify(codec, Checksummed(codec, bytes)) == Ok(bytes)
  {
    LeRoundTrip(codec.hash(bytes), 8);
    U64Range();
    var all := Checksummed(codec, bytes);
    assert all[..|all| - 8] == bytes && all[|all| - 8..] == ToLe(codec.hash(bytes), 8);
  }

  /* ---------------------------------------------------------------- Wrapping a data segment in place */

  /** Writes `bytes` at position `at` and returns the position behind them. */
  method Put(buf: array<Byte>, at: nat, bytes: seq<Byte>) returns (next: nat)
    requires at + |bytes| <= buf.Length
    modifies buf
    ensures next == at + |bytes|
    ensures buf[..next] == old(buf[..at]) + bytes && buf[next..] == old(buf[next..])
  {
    for i := 0 to |bytes|
      invariant forall k :: 0 <= k < at || at + i <= k < buf.Length ==> buf[k] == old(buf[k])
      invariant forall k :: 0 <= k < i ==> buf[at + k] == bytes[k]
    {
      buf[at + i] := bytes[i];
    }
    next := at + |bytes|;
  }

  /** Frames every column into the buffer, one after another. */
  method PutPieces(buf: array<Byte>, start: nat, pieces: seq<Piece>) returns (at: nat)
    requires AllValid(pieces) && Sized(pieces) && |Regions(pieces)| <= U64_MAX && start + |Regions(pieces)| <= buf.Length
    modifies buf
    ensures at == start + |Regions(pieces)| && buf[..at] == old(buf[..start]) + Regions(pieces)
  {
    at := start;
    for i := 0 to |pieces|
      invariant at == start + |Regions(pieces[..i])| <= start + |Regions(pieces)|
      invariant buf[..at] == old(buf[..start]) + Regions(pieces[..i])
    {
      PieceFrames(pieces, i);
      Assoc(old(buf[..start]), Regions(pieces[..i]), Region(pieces[i].Body()));
      at := Put(buf, at, Frame(pieces[i].size, pieces[i].bytes).value);
    }
    assert pieces[..|pieces|] == pieces;
  }

  method FillData(codec: Codec, schema: Sector, pieces: seq<Piece>, offset: nat) returns (r: Result<array<Byte>>)
    requires AllValid(pieces)
    ensures match WrapData(codec, schema, pieces, offset)
            case Ok(bytes) => r.Ok? && fresh(r.value) && r.value[..] == bytes
            case Err(e) => r == Err(e)
  {
    var extent := DataExtent(pieces, offset);
    if extent.Err? {
      return Err(extent.error);
    }
    var (pad, size, full) := extent.value;
    DataFills(pieces, offset);
    var buf := new Byte[full](_ => 0);
    var head := Head(DATA, size) + ToLe(schema.offset, 8) + ToLe(ItemCount(pieces), 8);
    var at := Put(buf, 0, head);
    assert buf[..at] == head;
    at := Put(buf, at, Zeros(pad));
    at := PutPieces(buf, at, pieces);
    ghost var covered := head + Zeros(pad) + Regions(pieces);
    assert buf[..at] == covered;
    at := Put(buf, at, ToLe(codec.hash(buf[..at]), 8));
    assert buf[..] == buf[..at] == Checksummed(codec, covered);
    return Ok(buf);
  }

  /** The recorded sizes of a data segment leave exactly the room its columns need. */
  lemma {:induction false} DataFills(pieces: seq<Piece>, offset: nat)
    requires AllValid(pieces) && DataExtent(pieces, offset).Ok?
    ensures var (pad, size, full) := DataExtent(pieces, offset).value;
            && pad == Pad(offset + 25) && size == |Regions(pieces)| + 16 + pad && full == size + 17
            && DataBytes(pieces) == Ok(Regions(pieces)) && Sized(pieces) && pieces != []
  {
    DataIsExact(pieces, 0);
    RegionsAligned(pieces);
  }

  lemma {:induction false} PieceFrames(pieces: seq<Piece>, i: nat)
    requires AllValid(pieces) && Sized(pieces) && i < |pieces|
    requires |Regions(pieces)| <= U64_MAX
    ensures Frame(pieces[i].size, pieces[i].bytes) == Ok(Region(pieces[i].Body()))
    ensures Regions(pieces[..i + 1]) == Regions(pieces[..i]) + Region(pieces[i].Body())
    ensures |Regions(pieces[..i + 1])| <= |Regions(pieces)|
  {
    RegionsSplit(pieces, i + 1);
    RegionsSnoc(pieces, i);
    FrameExact(pieces[i].size, pieces[i].bytes);
  }

  lemma {:induction false} RegionsSplit(pieces: seq<Piece>, i: nat)
    requires i <= |pieces|
    ensures Regions(pieces) == Regions(pieces[..i]) + Regions(pieces[i..])
  {
    if i > 0 {
      var head, rest := Region(pieces[0].Body()), pieces[1..];
      RegionsSplit(rest, i - 1);
      assert pieces[..i][0] == pieces[0] && pieces[..i][1..] == rest[..i - 1] && rest[i - 1..] == pieces[i..];
      Assoc(head, Regions(rest[..i - 1]), Regions(pieces[i..]));
    } else {
      assert pieces[0..] == pieces && Regions(pieces[..0]) == [];
    }
  }

  lemma {:induction false} RegionsSnoc(pieces: seq<Piece>, i: nat)
    requires i < |pieces|
    ensures Regions(pieces[..i + 1]) == Regions(pieces[..i]) + Region(pieces[i].Body())
  {
    RegionsSplit(pieces[..i + 1], i);
    assert pieces[..i + 1][..i] == pieces[..i] && pieces[..i + 1][i..] == [pieces[i]];
    assert [pieces[i]][1..] == [];
  }
}
