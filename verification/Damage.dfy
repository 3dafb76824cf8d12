/**
 What is refused and what is reported: files, checksums and bodies that are not what was written, and rows that
 cannot be decoded.
 */
module Damage {
  import opened Prelude
  import opened Bytes
  import opened Types
  import opened Read
  import opened RoundTrip
  import opened Stats
  import opened Column
  import opened Stream
  import opened Query
  import opened Meaning
  import opened Joins
  import opened Composite
  import opened Segment
  import opened File
  import opened Dictionary

  /* ---------------------------------------------------------------- Checksums and headers */

  lemma {:induction false} NumberIsBytes(b: seq<Byte>, n: nat)
    requires |b| == 8 && n <= U64_MAX
    ensures FromLe(b) == n <==> b == ToLe(n, 8)
  {
    U64Range();
    LeInverse(b);
    LeRoundTrip(n, 8);
  }

  /** Verification accepts exactly the bytes that checksumming produces; all others are refused. */
  lemma {:induction false} VerifyExactly(codec: Codec, bytes: seq<Byte>, covered: seq<Byte>)
    requires codec.Valid()
    ensures Verify(codec, bytes) == Ok(covered) <==> bytes == Checksummed(codec, covered)
    ensures Verify(codec, bytes).Err? ==> Verify(codec, bytes).error == if |bytes| < 8 then Truncated else Checksum
  {
    if bytes == Checksummed(codec, covered) {
      ChecksumVerifies(codec, covered);
    } else if |bytes| >= 8 {
      var n := |bytes| - 8;
      NumberIsBytes(bytes[n..], codec.hash(bytes[..n]));
      assert bytes == bytes[..n] + bytes[n..];
    }
  }

  /** The bytes between identity and alignment hold the sector of the manifest. */
  predicate Heads(bytes: seq<Byte>, s: Sector) {
    && |bytes| >= HEADER && bytes[..4] == MAGIC && bytes[4] == VERSION
    && s.offset <= U64_MAX && s.size <= U64_MAX && bytes[MUTABLE..21] == SectorBytes(s)
  }

  /** The sector holds head, document and checksum of the manifest. */
  predicate Manifests(codec: Codec, bytes: seq<Byte>, s: Sector, m: Manifest) {
    && 17 <= s.size && s.End() <= |bytes|
    && var covered := bytes[s.offset..s.End() - 8];
       bytes[s.End() - 8..s.End()] == ToLe(codec.hash(covered), 8) && codec.manifestFrom(covered[9..]) == Ok(m)
  }

  /**
   A file opens with a header and a manifest exactly when it begins with the identity of the format and its header
   locates the checksummed document of that manifest.
   */
  lemma {:induction false} OpensExactly(codec: Codec, bytes: seq<Byte>, s: Sector, m: Manifest)
    requires codec.Valid()
    ensures Opened(codec, bytes) == Ok((s, m)) <==> Heads(bytes, s) && Manifests(codec, bytes, s, m)
  {
    if |bytes| >= HEADER && bytes[..4] == MAGIC && bytes[4] == VERSION {
      HeadIsSector(bytes, s);
      if s == Sector(FromLe(bytes[5..13]), FromLe(bytes[13..21])) { LocatedOpens(codec, bytes, s, m); }
    }
  }

  lemma {:induction false} LocatedOpens(codec: Codec, bytes: seq<Byte>, s: Sector, m: Manifest)
    requires codec.Valid() && |bytes| >= HEADER && bytes[..4] == MAGIC && bytes[4] == VERSION
    requires s == Sector(FromLe(bytes[5..13]), FromLe(bytes[13..21]))
    ensures Opened(codec, bytes) == Ok((s, m)) <==> Manifests(codec, bytes, s, m)
  {
    if s.size != 0 && s.End() <= |bytes| {
      if s.size >= 8 {
        SealedSlice(codec, bytes, s);
      } else {
        assert Verify(codec, bytes[s.offset..s.End()]) == Err(Truncated);
      }
    }
  }

  lemma {:induction false} HeadIsSector(bytes: seq<Byte>, s: Sector)
    requires |bytes| >= HEADER
    ensures s == Sector(FromLe(bytes[5..13]), FromLe(bytes[13..21]))
       <==> s.offset <= U64_MAX && s.size <= U64_MAX && bytes[MUTABLE..21] == SectorBytes(s)
  {
    U64Range();
    FromLeBound(bytes[5..13]);
    FromLeBound(bytes[13..21]);
    if s.offset <= U64_MAX && s.size <= U64_MAX {
      NumberIsBytes(bytes[5..13], s.offset);
      NumberIsBytes(bytes[13..21], s.size);
      assert bytes[MUTABLE..21] == bytes[5..13] + bytes[13..21];
      assert SectorBytes(s)[..8] == ToLe(s.offset, 8) && SectorBytes(s)[8..] == ToLe(s.size, 8);
      assert (bytes[5..13] + bytes[13..21])[..8] == bytes[5..13] && (bytes[5..13] + bytes[13..21])[8..] == bytes[13..21];
    }
  }

  /** A region verifies exactly if its last eight bytes are the checksum of those before. */
  lemma {:induction false} SealedSlice(codec: Codec, bytes: seq<Byte>, s: Sector)
    requires codec.Valid() && 8 <= s.size && s.End() <= |bytes|
    ensures var region, covered := bytes[s.offset..s.End()], bytes[s.offset..s.End() - 8];
            if bytes[s.End() - 8..s.End()] == ToLe(codec.hash(covered), 8) then Verify(codec, region) == Ok(covered)
            else Verify(codec, region) == Err(Checksum)
  {
    var region, covered := bytes[s.offset..s.End()], bytes[s.offset..s.End() - 8];
    assert region[..s.size - 8] == covered && region[s.size - 8..] == bytes[s.End() - 8..s.End()];
    NumberIsBytes(region[s.size - 8..], codec.hash(covered));
  }

  /** A file that is too short, of another format or of another version is refused as such. */
  lemma {:induction false} OpenRefuses(codec: Codec, bytes: seq<Byte>)
    ensures |bytes| < HEADER ==> Opened(codec, bytes) == Err(Truncated)
    ensures |bytes| >= HEADER && bytes[..4] != MAGIC ==> Opened(codec, bytes) == Err(Magic)
    ensures |bytes| >= HEADER && bytes[..4] == MAGIC && bytes[4] != VERSION ==> Opened(codec, bytes) == Err(Version)
  {
  }

  /* ---------------------------------------------------------------- Numbers from any bytes */

  /** What a pattern decodes to, in a plain column or in one of options held in a niche. */
  function Decoded(kind: Kind, niche: bool, n: nat): Result<Val> {
    if niche && n == kind.Absent() then Ok(Nil)
    else if !kind.Valid(n) then Err(Invalid)
    else Ok(if niche then Just(Num(n)) else Num(n))
  }

  /**
   Whatever bytes a column of numbers is read from, each complete group of bytes yields its number, or an error if
   that is no item of the kind; what is left over is an error at every further pull, and nothing else ends the
   stream but the end of the bytes.
   */
  lemma {:induction false} AnyBytes(ty: Type, kind: Kind, src: seq<Byte>, count: nat, k: nat, at: nat)
    requires ty == Fixed(kind) || (ty == OptFixed(kind) && kind.Niche())
    requires at == kind.Width() * k
    ensures var w, got := kind.Width(), Pull(ty, Numbers(src), count);
            && |got| == (if |src| % w == 0 && |src| / w < count then |src| / w else count)
            && (k < |got| && k < |src| / w ==> at + w <= |src| && got[k] == Decoded(kind, ty.OptFixed?, FromLe(src[at..at + w])))
            && (k < |got| && k >= |src| / w ==> got[k] == Err(Truncated))
  {
    PullCounts(ty, kind, src, count);
    if k < |Pull(ty, Numbers(src), count)| {
      if k < |src| / kind.Width() {
        GroupPulled(ty, kind, src, count, k);
        GroupAt(src, kind.Width(), k, at);
      } else {
        RemnantPulled(ty, kind, src, count, k);
      }
    }
  }

  lemma {:induction false} PullCounts(ty: Type, kind: Kind, src: seq<Byte>, count: nat)
    requires ty == Fixed(kind) || (ty == OptFixed(kind) && kind.Niche())
    ensures var w := kind.Width();
            |Pull(ty, Numbers(src), count)| == if |src| % w == 0 && |src| / w < count then |src| / w else count
    decreases count
  {
    var w := kind.Width();
    if count > 0 {
      PullNumber(ty, kind, src, count);
      if |src| >= w {
        PullCounts(ty, kind, src[w..], count - 1);
        Groups(|src|, w);
      } else {
        QuotientIs(|src|, w, 0, |src|);
        if src != [] { PullCounts(ty, kind, src, count - 1); }
      }
    }
  }

  /** The group of `w` bytes behind `k` others. */
  function Group(src: seq<Byte>, w: nat, k: nat): seq<Byte>
    requires 0 < w && k < |src| / w
  {
    Shorter(|src|, w, k);
    if k == 0 then src[..w] else Group(src[w..], w, k - 1)
  }

  lemma {:induction false} Shorter(n: nat, w: nat, k: nat)
    requires 0 < w && k < n / w
    ensures w <= n && (k > 0 ==> k - 1 < (n - w) / w)
  {
    if n < w { QuotientIs(n, w, 0, n); }
    Groups(n, w);
  }

  /** A group lies where `k` groups end. */
  lemma {:induction false} GroupAt(src: seq<Byte>, w: nat, k: nat, at: nat)
    requires 0 < w && k < |src| / w && at == w * k
    ensures at + w <= |src| && Group(src, w, k) == src[at..at + w]
    decreases k
  {
    StepUp(w, k, |src| / w);
    Remainder(|src|, w);
    if k > 0 {
      Shorter(|src|, w, k);
      Expand(w, k - 1, 1);
      GroupAt(src[w..], w, k - 1, at - w);
      DropSlice(src, w, at, at + w);
    }
  }

  lemma {:induction false} Remainder(n: nat, w: nat)
    requires w > 0
    ensures w * (n / w) <= n
  {
  }

  lemma {:induction false} GroupPulled(ty: Type, kind: Kind, src: seq<Byte>, count: nat, k: nat)
    requires ty == Fixed(kind) || (ty == OptFixed(kind) && kind.Niche())
    requires k < |Pull(ty, Numbers(src), count)| && k < |src| / kind.Width()
    ensures Pull(ty, Numbers(src), count)[k] == Decoded(kind, ty.OptFixed?, FromLe(Group(src, kind.Width(), k)))
    decreases count
  {
    PullNumber(ty, kind, src, count);
    Shorter(|src|, kind.Width(), k);
    if k > 0 {
      GroupPulled(ty, kind, src[kind.Width()..], count - 1, k - 1);
      LaterPull(ty, kind, src, count, k);
    }
  }

  lemma {:induction false} LaterPull(ty: Type, kind: Kind, src: seq<Byte>, count: nat, k: nat)
    requires ty == Fixed(kind) || (ty == OptFixed(kind) && kind.Niche())
    requires 0 < k < |Pull(ty, Numbers(src), count)| && |src| >= kind.Width()
    ensures var behind := Pull(ty, Numbers(src[kind.Width()..]), count - 1);
            k - 1 < |behind| && Pull(ty, Numbers(src), count)[k] == behind[k - 1]
  {
    PullNumber(ty, kind, src, count);
  }

  lemma {:induction false} RemnantPulled(ty: Type, kind: Kind, src: seq<Byte>, count: nat, k: nat)
    requires ty == Fixed(kind) || (ty == OptFixed(kind) && kind.Niche())
    requires |src| / kind.Width() <= k < |Pull(ty, Numbers(src), count)|
    ensures Pull(ty, Numbers(src), count)[k] == Err(Truncated)
    decreases count
  {
    PullNumber(ty, kind, src, count);
    PastGroups(|src|, kind.Width(), k);
    if k > 0 {
      RemnantPulled(ty, kind, if |src| >= kind.Width() then src[kind.Width()..] else src, count - 1, k - 1);
    }
  }

  lemma {:induction false} PastGroups(n: nat, w: nat, k: nat)
    requires 0 < w && n / w <= k
    ensures if n < w then n / w == 0 else k > 0 && (n - w) / w <= k - 1
  {
    if n < w { QuotientIs(n, w, 0, n); } else { Groups(n, w); }
  }

  lemma {:induction false} DropSlice(src: seq<Byte>, w: nat, from: nat, to: nat)
    requires w <= from <= to <= |src|
    ensures src[w..][from - w..to - w] == src[from..to]
  {
  }

  lemma {:induction false} Groups(n: nat, w: nat)
    requires 0 < w <= n
    ensures n / w == (n - w) / w + 1 && n % w == (n - w) % w
  {
    var q, r := (n - w) / w, (n - w) % w;
    Expand(w, q, 1);
    QuotientIs(n, w, q + 1, r);
  }

  lemma {:induction false} PullNumber(ty: Type, kind: Kind, src: seq<Byte>, count: nat)
    requires ty == Fixed(kind) || (ty == OptFixed(kind) && kind.Niche())
    requires count > 0
    ensures var w := kind.Width();
            Pull(ty, Numbers(src), count)
            == if src == [] then []
               else if |src| < w then [Err(Truncated)] + Pull(ty, Numbers(src), count - 1)
               else [Decoded(kind, ty.OptFixed?, FromLe(src[..w]))] + Pull(ty, Numbers(src[w..]), count - 1)
  {
  }

  /* ---------------------------------------------------------------- Regions and rows from any bytes */

  /** A region is read exactly where a nonzero length prefix is followed by that many bytes and their padding. */
  lemma {:induction false} FramesExactly(src: seq<Byte>, body: seq<Byte>, rest: seq<Byte>)
    ensures ReadFrame(src) == Ok((body, rest))
       <==> && 0 < |body| <= U64_MAX && |src| == 8 + Align(|body|) + |rest|
            && src[..8] == ToLe(|body|, 8) && src[8..8 + |body|] == body && src[8 + Align(|body|)..] == rest
  {
    if |src| >= 8 {
      var size, behind := FromLe(src[..8]), src[8..];
      U64Range();
      FromLeBound(src[..8]);
      if |body| <= U64_MAX { NumberIsBytes(src[..8], |body|); }
      if size + Pad(size) <= |behind| {
        BehindPrefix(src, 0, size);
        BehindPrefix(src, size + Pad(size), |behind|);
      }
    }
  }

  lemma {:induction false} BehindPrefix(src: seq<Byte>, from: nat, to: nat)
    requires |src| >= 8 && from <= to <= |src| - 8
    ensures src[8..][from..to] == src[8 + from..8 + to] && src[8 + from..] == src[8..][from..]
  {
  }

  /** No type reads an item from nothing. */
  lemma {:induction false} NothingToRead(ty: Type)
    ensures Read.One(ty, []) == Err(Truncated)
  {
  }

  /**
   A row whose end lies before that of the row above it is an error, and the rows below it are read as if it were not
   there; rows that may be absent take it for an empty one. A remnant of an end is an error at every further pull.
   */
  lemma {:induction false} EndsInDisorder(ty: Type, c: Cursor)
    requires (ty.Seq? || ty.OptSeq?) && Fits(ty, c) && c.ends != []
    ensures |c.ends| < 8 ==> Next(ty, c) == (Some(Err(Truncated)), c)
    ensures |c.ends| >= 8 && FromLe(c.ends[..8]) < c.start ==>
              var end, left := FromLe(c.ends[..8]), c.ends[8..];
              && (ty.Seq? ==> Next(ty, c) == (Some(Err(Zero)), Rows(left, c.start, c.data)))
              && (ty.OptSeq? && end != U64_MAX ==> Next(ty, c) == (Some(Ok(Just(List([])))), Rows(left, end, c.data)))
  {
  }

  /** Outcomes of pulls up to the first error, which stands for all of them. */
  function FirstError(got: seq<Result<Val>>): Result<seq<Val>> {
    if got == [] then Ok([])
    else
      var v :- got[0];
      var rest :- FirstError(got[1..]);
      Ok([v] + rest)
  }

  /** Gathering items is pulling them; the first error among them is the result. */
  lemma {:induction false} CollectIsPull(ty: Type, c: Cursor, n: nat)
    requires Fits(ty, c)
    ensures Collect(ty, c, n).0 == FirstError(Pull(ty, c, n))
    decreases n
  {
    if n > 0 && Next(ty, c).0.Some? {
      CollectIsPull(ty, Next(ty, c).1, n - 1);
      var item, rest := Next(ty, c).0.value, Pull(ty, Next(ty, c).1, n - 1);
      assert Pull(ty, c, n) == [item] + rest && ([item] + rest)[1..] == rest;
    }
  }

  /**
   A row of a sequence column holds the elements pulled from its end on back to the previous one, or fails with
   the first error among them.
   */
  lemma {:induction false} RowIsPulled(ty: Type, c: Cursor)
    requires (ty.Seq? || ty.OptSeq?) && Fits(ty, c) && |c.ends| >= 8 && c.start <= FromLe(c.ends[..8])
    requires ty.OptSeq? ==> FromLe(c.ends[..8]) < U64_MAX
    ensures var elements := FirstError(Pull(ty.elem, c.data, FromLe(c.ends[..8]) - c.start));
            Next(ty, c).0 == match elements
                             case Err(e) => Some(Err(e))
                             case Ok(vs) => Some(Ok(if ty.Seq? then List(vs) else Just(List(vs))))
  {
    CollectIsPull(ty.elem, c.data, FromLe(c.ends[..8]) - c.start);
  }

  /** Reading the one item of a body, which most types do without a stream, is the first pull of its stream. */
  lemma {:induction false} OneIsFirst(ty: Type, body: seq<Byte>)
    ensures Read.One(ty, body) == match Open(ty, body)
                                  case Err(e) => Err(e)
                                  case Ok(c) => (match Next(ty, c).0 case None => Err(Truncated) case Some(item) => item)
  {
  }

  /** A statistic is read exactly where its sector lies in the mapped bytes and begins with an item of its kind. */
  lemma {:induction false} StatisticExactly(order: Order, s: Sector, mmap: seq<Byte>, n: nat)
    ensures Statistic(order, s, mmap) == Ok(n)
       <==> && s.End() <= U64_MAX && s.End() <= |mmap| && order.Width() <= s.size
            && FromLe(mmap[s.offset..s.offset + order.Width()]) == n && order.Valid(n)
  {
    if s.End() <= |mmap| && order.Width() <= s.size {
      assert mmap[s.offset..s.End()][..order.Width()] == mmap[s.offset..s.offset + order.Width()];
    }
  }

  /* ---------------------------------------------------------------- Errors come through */

  lemma {:induction false} FromReadsAt(got: seq<Result<Val>>, k: nat)
    ensures |FromReads(got)| == |got|
    ensures k < |got| ==> FromReads(got)[k] == match got[k] case Ok(v) => Include(v) case Err(e) => Failure(e)
  {
    if got != [] {
      FromReadsAt(got[1..], if k > 0 then k - 1 else 0);
    }
  }

  lemma {:induction false} ThroughFailure(kind: Kind, ops: seq<Op>, o: Outcome)
    ensures Through(kind, ops, o).Failure? <==> o.Failure?
    ensures o.Failure? ==> Through(kind, ops, o) == o
  {
    if ops != [] {
      ThroughFailure(kind, ops[..|ops| - 1], o);
    }
  }

  /**
   Whatever the buffers hold, the stream of a chain of filters has one outcome per item read from the buffers left,
   and fails exactly where reading fails, with the same error.
   */
  lemma {:induction false} ErrorsSurface(src: Src, ops: seq<Op>, mask: seq<bool>, k: nat)
    requires |mask| == |src.buffers|
    ensures var got, os := ReadsOf(src.ty, Retained(src.buffers, mask), src.mmap), Outcomes(src, FilterItems(Every, ops), mask);
            && |os| == |got|
            && (k < |got| ==> (os[k].Failure? <==> got[k].Err?) && (got[k].Err? ==> os[k] == Failure(got[k].error)))
  {
    var got := ReadsOf(src.ty, Retained(src.buffers, mask), src.mmap);
    RetainedIsStream(src.ty, src.buffers, src.mmap, mask);
    FilteredOutcomes(src, Every, ops, mask);
    FromReadsAt(got, k);
    if k < |got| { ThroughFailure(KindOf(src.ty), ops, FromReads(got)[k]); }
  }

  /** Rows that cannot be decoded make their buffer yield one error, whether it is compact or not. */
  lemma {:induction false} UndecodableReads(ty: Type, b: Stats.Buffer, mmap: seq<Byte>, rows: seq<Val>)
    requires Stored(ty, b, mmap, rows) && !Decodable(ty, rows)
    ensures ReadBuffer(ty, b, mmap) == [Err(Truncated)]
  {
    if Uniform(rows) {
      CompactIsUniform(ty, b, mmap, rows);
      KeptMembers(rows);
      DecodableByMembers(ty, [rows[0]], rows);
      OpenPays(ty, [rows[0]]);
      CompactIsRead(ty, b, mmap, Body(ty, [rows[0]]));
    } else {
      ManyIsRead(ty, b, mmap, rows);
      ColumnRoundTrip(ty, rows);
    }
  }

  ghost predicate AllStored(ty: Type, bufs: seq<Stats.Buffer>, mmap: seq<Byte>, rows: seq<seq<Val>>) {
    |rows| == |bufs| && forall i :: 0 <= i < |rows| ==> Stored(ty, bufs[i], mmap, rows[i])
  }

  predicate Failing(os: seq<Outcome>) {
    exists k :: 0 <= k < |os| && os[k].Failure?
  }

  predicate SomeUndecodable(ty: Type, rows: seq<seq<Val>>) {
    exists i :: 0 <= i < |rows| && !Decodable(ty, rows[i])
  }

  lemma {:induction false} FailingConcat(a: seq<Outcome>, b: seq<Outcome>)
    ensures Failing(a + b) <==> Failing(a) || Failing(b)
  {
    if k :| 0 <= k < |a| && a[k].Failure? { assert (a + b)[k].Failure?; }
    if k :| 0 <= k < |b| && b[k].Failure? { assert (a + b)[|a| + k].Failure?; }
  }

  lemma {:induction false} OneBufferFails(ty: Type, b: Stats.Buffer, mmap: seq<Byte>, rows: seq<Val>)
    requires Stored(ty, b, mmap, rows)
    ensures Failing(FromReads(ReadBuffer(ty, b, mmap))) <==> !Decodable(ty, rows)
  {
    if Decodable(ty, rows) {
      StoredReadsBack(ty, b, mmap, rows);
      OksAreIncluded(rows);
    } else {
      UndecodableReads(ty, b, mmap, rows);
      FromReadsAt([Err(Truncated)], 0);
    }
  }

  lemma {:induction false} StreamFails(ty: Type, bufs: seq<Stats.Buffer>, mmap: seq<Byte>, rows: seq<seq<Val>>)
    requires AllStored(ty, bufs, mmap, rows)
    ensures Failing(Query.Stream(ty, bufs, mmap, Trues(|bufs|))) <==> SomeUndecodable(ty, rows)
  {
    if bufs != [] {
      var mask := Trues(|bufs|);
      assert mask[1..] == Trues(|bufs| - 1);
      assert Stored(ty, bufs[0], mmap, rows[0]);
      StreamFails(ty, bufs[1..], mmap, rows[1..]);
      OneBufferFails(ty, bufs[0], mmap, rows[0]);
      StreamHead(ty, bufs, mmap, mask);
      FailingConcat(FromReads(ReadBuffer(ty, bufs[0], mmap)), Query.Stream(ty, bufs[1..], mmap, mask[1..]));
      UndecodableTail(ty, rows);
    }
  }

  lemma {:induction false} UndecodableTail(ty: Type, rows: seq<seq<Val>>)
    requires rows != []
    ensures SomeUndecodable(ty, rows) <==> !Decodable(ty, rows[0]) || SomeUndecodable(ty, rows[1..])
  {
    if i :| 0 <= i < |rows| && !Decodable(ty, rows[i]) {
      if i > 0 { assert !Decodable(ty, rows[1..][i - 1]); }
    }
  }

  /** Reading a whole column reports a failure exactly when some of its buffers hold rows that cannot be decoded. */
  lemma {:induction false} NothingPassedOver(src: Src, rows: seq<seq<Val>>)
    requires AllStored(src.ty, src.buffers, src.mmap, rows)
    ensures Run(src, Whole).Ok? && (Failing(Run(src, Whole).value) <==> SomeUndecodable(src.ty, rows))
  {
    StreamFails(src.ty, src.buffers, src.mmap, rows);
  }

  /** A row is what its first field without an item makes it: broken if that field failed, missing if it is absent. */
  lemma {:induction false} FirstInterrupts(t: Tree, heads: seq<Outcome>, k: nat)
    requires |heads| == |Legs(t)| && k < |heads| && !Carried(heads[k]) && forall l :: 0 <= l < k ==> Carried(heads[l])
    ensures Judged(t, heads) == match heads[k] case Failure(e) => Broken(e) case _ => Missing
  {
    InterruptIs(heads, k);
  }

  lemma {:induction false} InterruptIs(heads: seq<Outcome>, k: nat)
    requires k < |heads| && !Carried(heads[k]) && forall l :: 0 <= l < k ==> Carried(heads[l])
    ensures Interrupt(heads) == Some(match heads[k] case Failure(e) => Broken(e) case _ => Missing)
  {
    if k > 0 {
      assert Carried(heads[0]);
      InterruptIs(heads[1..], k - 1);
    }
  }

  lemma {:induction false} RowResultsConcat(a: seq<RowOutcome>, b: seq<RowOutcome>)
    ensures RowResults(a + b) == RowResults(a) + RowResults(b)
  {
    if a == [] {
      assert a + b == b;
    } else {
      assert (a + b)[1..] == a[1..] + b && (a + b)[0] == a[0];
      RowResultsConcat(a[1..], b);
    }
  }

  /** Iterating over rows yields the error of a broken row in its place. */
  lemma {:induction false} ErrorInPlace(before: seq<RowOutcome>, e: Error, after: seq<RowOutcome>)
    ensures RowResults(before + [Broken(e)] + after) == RowResults(before) + [Err(e)] + RowResults(after)
  {
    RowResultsConcat(before + [Broken(e)], after);
    RowResultsConcat(before, [Broken(e)]);
    assert [Broken(e)][1..] == [] && RowResults([Broken(e)]) == [Err(e)] + RowResults([]);
  }
}
