/**
 Lazy decoding of a serialized column.

 A cursor is the state captured by a column iterator. `Next` pulls one item and returns the advanced
 cursor; nested cursors advance with the one that owns them.
 */
module Read {
  import opened Prelude
  import opened Bytes
  import opened Types
  import opened Accumulate

  datatype Cursor =
    | Numbers(src: seq<Byte>)
    | Flags(bits: seq<bool>)
    | Masked(mask: seq<bool>, data: Cursor)
    | Rows(ends: seq<Byte>, start: nat, data: Cursor)

  predicate Fits(ty: Type, c: Cursor) {
    match ty
    case Bool => c.Flags?
    case Fixed(_) => c.Numbers?
    case OptBool => c.Masked? && c.data.Flags?
    case OptFixed(kind) => if kind.Niche() then c.Numbers? else c.Masked? && c.data.Numbers?
    case Seq(elem) => c.Rows? && Fits(elem, c.data)
    case OptSeq(elem) => c.Rows? && Fits(elem, c.data)
  }

  /* ---------------------------------------------------------------- Primitives */

  /** Removes a number of `w` bytes from the front; a short source is left as it is. */
  function ReadNumber(w: nat, src: seq<Byte>): Result<(nat, seq<Byte>)> {
    if |src| < w then Err(Truncated) else Ok((FromLe(src[..w]), src[w..]))
  }

  function Scalar(kind: Kind, n: nat): Result<Val> {
    if kind.Valid(n) then Ok(Num(n)) else Err(Invalid)
  }

  function NicheScalar(kind: Kind, n: nat): Result<Val> {
    if n == kind.Absent() then Ok(Nil)
    else
      var v :- Scalar(kind, n);
      Ok(Just(v))
  }

  /** Removes one length-prefixed region and its padding, returning its body and what follows. */
  function ReadFrame(src: seq<Byte>): Result<(seq<Byte>, seq<Byte>)> {
    var (size, rest) :- ReadNumber(8, src);
    var _ :- Need(size != 0, Invalid);
    var _ :- Need(size <= |rest|, Truncated);
    var _ :- Need(size + Pad(size) <= |rest|, Truncated);
    Ok((rest[..size], rest[size + Pad(size)..]))
  }

  /* ---------------------------------------------------------------- Streams */

  /** Prepares a column body for reading. Framing errors surface here, before the first item. */
  function Open(ty: Type, src: seq<Byte>): (r: Result<Cursor>)
    ensures r.Ok? ==> Fits(ty, r.value)
  {
    match ty
    case Bool => Ok(Flags(UnpackBits(src)))
    case Fixed(_) => Ok(Numbers(src))
    case OptFixed(kind) =>
      if kind.Niche() then Ok(Numbers(src))
      else
        var (mask, data) :- ReadPair(src);
        Ok(Masked(UnpackBits(mask), Numbers(data)))
    case OptBool =>
      var (mask, data) :- ReadPair(src);
      Ok(Masked(UnpackBits(mask), Flags(UnpackBits(data))))
    case Seq(elem) =>
      var (ends, data) :- ReadPair(src);
      var inner :- Open(elem, data);
      Ok(Rows(ends, 0, inner))
    case OptSeq(elem) =>
      var (ends, data) :- ReadPair(src);
      var inner :- Open(elem, data);
      Ok(Rows(ends, 0, inner))
  }

  /** A leading region and the data region after it, which is empty when it was omitted. */
  function ReadPair(src: seq<Byte>): Result<(seq<Byte>, seq<Byte>)> {
    var (head, rest) :- ReadFrame(src);
    if rest == [] then Ok((head, []))
    else
      var (data, _) :- ReadFrame(rest);
      Ok((head, data))
  }

  /** Pulls one item; `None` is the end of the stream. */
  function Next(ty: Type, c: Cursor): (r: (Option<Result<Val>>, Cursor))
    requires Fits(ty, c)
    ensures Fits(ty, r.1)
    decreases ty, 0
  {
    match ty
    case Bool =>
      NextFlag(c)
    case Fixed(kind) => NextNumber(kind, false, c)
    case OptFixed(kind) =>
      if kind.Niche() then NextNumber(kind, true, c)
      else if c.mask == [] then (None, c)
      else if c.mask[0] then
        var (item, data) := NextNumber(kind, false, c.data);
        (Present(item), Masked(c.mask[1..], data))
      else (Some(Ok(Nil)), Masked(c.mask[1..], c.data))
    case OptBool =>
      if c.mask == [] then (None, c)
      else if c.mask[0] then
        var (item, data) := NextFlag(c.data);
        (Present(item), Masked(c.mask[1..], data))
      else (Some(Ok(Nil)), Masked(c.mask[1..], c.data))
    case Seq(elem) =>
      if c.ends == [] then (None, c)
      else if |c.ends| < 8 then (Some(Err(Truncated)), c)
      else
        var end, ends := FromLe(c.ends[..8]), c.ends[8..];
        if end < c.start then (Some(Err(Zero)), Rows(ends, c.start, c.data))
        else
          var (items, data) := Collect(elem, c.data, end - c.start);
          (Some(Listed(items)), Rows(ends, end, data))
    case OptSeq(elem) =>
      if c.ends == [] then (None, c)
      else if |c.ends| < 8 then (Some(Err(Truncated)), c)
      else
        var end, ends := FromLe(c.ends[..8]), c.ends[8..];
        if end == SENTINEL then (Some(Ok(Nil)), Rows(ends, c.start, c.data))
        else
          var n := if end < c.start then 0 else end - c.start;
          var (items, data) := Collect(elem, c.data, n);
          (Present(Some(Listed(items))), Rows(ends, end, data))
  }

  function NextFlag(c: Cursor): (r: (Option<Result<Val>>, Cursor))
    requires c.Flags?
    ensures r.1.Flags?
  {
    if c.bits == [] then (None, c) else (Some(Ok(Bit(c.bits[0]))), Flags(c.bits[1..]))
  }

  function NextNumber(kind: Kind, niche: bool, c: Cursor): (r: (Option<Result<Val>>, Cursor))
    requires c.Numbers?
    ensures r.1.Numbers?
  {
    if c.src == [] then (None, c)
    else
      match ReadNumber(kind.Width(), c.src)
      case Err(e) => (Some(Err(e)), c)
      case Ok((n, rest)) => (Some(if niche then NicheScalar(kind, n) else Scalar(kind, n)), Numbers(rest))
  }

  function Present(item: Option<Result<Val>>): Option<Result<Val>> {
    match item
    case Some(Ok(v)) => Some(Ok(Just(v)))
    case other => other
  }

  function Listed(items: Result<seq<Val>>): Result<Val> {
    match items
    case Ok(vs) => Ok(List(vs))
    case Err(e) => Err(e)
  }

  /** Gathers up to `n` items; the first error ends the gathering and becomes its result. */
  function Collect(ty: Type, c: Cursor, n: nat): (r: (Result<seq<Val>>, Cursor))
    requires Fits(ty, c)
    ensures Fits(ty, r.1)
    decreases ty, n + 1
  {
    if n == 0 then (Ok([]), c)
    else
      var (item, c') := Next(ty, c);
      match item
      case None => (Ok([]), c')
      case Some(Err(e)) => (Err(e), c')
      case Some(Ok(v)) =>
        var (rest, c'') := Collect(ty, c', n - 1);
        match rest
        case Err(e) => (Err(e), c'')
        case Ok(vs) => (Ok([v] + vs), c'')
  }

  /** The outcomes of up to `n` pulls. */
  function Pull(ty: Type, c: Cursor, n: nat): seq<Result<Val>>
    requires Fits(ty, c)
    decreases n
  {
    if n == 0 then []
    else
      var (item, c') := Next(ty, c);
      if item.None? then [] else [item.value] + Pull(ty, c', n - 1)
  }

  /** Everything a reader sees of a column body holding `count` items. */
  function ReadAll(ty: Type, body: seq<Byte>, count: nat): seq<Result<Val>> {
    match Open(ty, body)
    case Err(e) => [Err(e)]
    case Ok(c) => Pull(ty, c, count)
  }

  /** The first item of a body; fixed-width and masked bodies are read without building a stream. */
  function One(ty: Type, body: seq<Byte>): Result<Val> {
    match ty
    case Bool => OneFlag(UnpackBits(body))
    case Fixed(kind) => OneNumber(kind, body)
    case OptFixed(kind) =>
      if kind.Niche() then
        var (n, _) :- ReadNumber(kind.Width(), body);
        NicheScalar(kind, n)
      else
        var (mask, data) :- ReadPair(body);
        var present :- OneFlag(UnpackBits(mask));
        if present == Bit(true) then
          var v :- OneNumber(kind, data);
          Ok(Just(v))
        else Ok(Nil)
    case OptBool =>
      var (mask, data) :- ReadPair(body);
      var present :- OneFlag(UnpackBits(mask));
      if present == Bit(true) then
        var v :- OneFlag(UnpackBits(data));
        Ok(Just(v))
      else Ok(Nil)
    case _ =>
      var c :- Open(ty, body);
      match Next(ty, c).0
      case None => Err(Truncated)
      case Some(item) => item
  }

  function OneFlag(bits: seq<bool>): Result<Val> {
    if bits == [] then Err(Truncated) else Ok(Bit(bits[0]))
  }

  function OneNumber(kind: Kind, body: seq<Byte>): Result<Val> {
    var (n, _) :- ReadNumber(kind.Width(), body);
    Scalar(kind, n)
  }
}
