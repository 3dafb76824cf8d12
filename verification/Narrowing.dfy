/**
 What the plain reader of an item sees of a stored option.

 `IsSome` narrows the item type of a chain, and with it the reader: the body of an option is then read as
 if it were one of plain items. Options held in a niche and optional sequences are written exactly as their
 items are. Options next to a bit mask are not: their body opens with the length of the mask.
 */
module Narrowing {
  import opened Prelude
  import opened Bytes
  import opened Types
  import opened Accumulate
  import opened Read
  import opened RoundTrip

  /* ---------------------------------------------------------------- Options written as their items */

  /** Behind `IsSome`, a niche or sequence option is written exactly as its plain item. */
  lemma {:induction false} NarrowedBody(ty: Type, v: Val)
    requires ty.Optional() && !ty.Masked() && Just(v).Is(ty) && AllAre([Just(v)], ty)
    requires Counted(ty, [Just(v)]) && Size(AccOf(ty, [Just(v)])).Ok? && Decodable(ty, [Just(v)])
    ensures One(ty.Inner(), Body(ty, [Just(v)])) == Ok(v)
  {
    if ty.OptSeq? {
      NarrowedRows(ty, v);
    } else {
      NarrowedNiche(ty.kind, v);
    }
  }

  lemma {:induction false} NarrowedRows(ty: Type, v: Val)
    requires ty.OptSeq? && Just(v).Is(ty) && AllAre([Just(v)], ty)
    requires Counted(ty, [Just(v)]) && Size(AccOf(ty, [Just(v)])).Ok? && Decodable(ty, [Just(v)])
    ensures One(ty.Inner(), Body(ty, [Just(v)])) == Ok(v)
  {
    var wide, plain, inner := [Just(v)], [v], ty.Inner();
    NarrowedFlat(ty, v);
    AccIsColumnar(ty, wide);
    AccIsColumnar(inner, plain);
    SameBytes(AccOf(ty, wide), AccOf(inner, plain));
    OneRoundTrip(inner, v);
  }

  lemma {:induction false} NarrowedFlat(ty: Type, v: Val)
    requires ty.OptSeq? && Just(v).Is(ty) && Counted(ty, [Just(v)]) && Decodable(ty, [Just(v)])
    ensures v.Is(ty.Inner()) && AllAre([v], ty.Inner()) && Counted(ty.Inner(), [v]) && Decodable(ty.Inner(), [v])
    ensures Flat([Just(v)]) == Flat([v]) && Ends(0, [Just(v)]) == Ends(0, [v])
  {
    assert Elements(Just(v)) == v.items == Elements(v);
    SingleRow(Just(v));
    SingleRow(v);
  }

  lemma {:induction false} SingleRow(v: Val)
    ensures [v][1..] == [] && Flat([v]) == Elements(v)
    ensures Ends(0, [v]) == if v.Nil? then [SENTINEL] else [|Elements(v)|]
  {
    assert Flat([v]) == Elements(v) + Flat([v][1..]) == Elements(v) + [];
  }

  lemma {:induction false} NarrowedNiche(kind: Kind, v: Val)
    requires kind.Niche() && Just(v).Is(OptFixed(kind)) && AllAre([Just(v)], OptFixed(kind))
    requires Size(AccOf(OptFixed(kind), [Just(v)])).Ok?
    ensures One(Fixed(kind), Body(OptFixed(kind), [Just(v)])) == Ok(v)
  {
    var wide, plain := [Just(v)], [v];
    assert AllAre(plain, Fixed(kind)) && wide[1..] == [] && plain[1..] == [];
    AccIsColumnar(OptFixed(kind), wide);
    NextNumberPays(kind, Numbers(NumberBytes(kind.Width(), Nums(plain))), plain);
    assert SlotNumbers(kind, Slots(wide)) == Nums(plain);
  }

  lemma {:induction false} SameBytes(a: Acc, b: Acc)
    requires a.OptEndsData? && b.EndsData? && a.ends == b.ends && a.data == b.data
    ensures Size(a) == Size(b) && Serialize(a) == Serialize(b)
  {
  }

  /* ---------------------------------------------------------------- Options next to a mask */

  /**
   What a filter behind `IsSome` sees of any compact buffer of a masked option: the plain reader takes
   the length prefix of the mask, which is one, and the mask byte after it for the item.
   */
  function Misread(ty: Type): Val
    requires ty.Masked()
  {
    if ty.OptBool? then Bit(true)
    else Num(if ty.kind.Width() == 16 then 1 + Pow256(8) else 1)
  }

  lemma {:induction false} FromLeZeros(n: nat)
    ensures FromLe(Zeros(n)) == 0
  {
    if n > 0 {
      assert Zeros(n)[1..] == Zeros(n - 1);
      FromLeZeros(n - 1);
    }
  }

  lemma {:induction false} FromLeOne(n: nat)
    ensures FromLe([1] + Zeros(n)) == 1
  {
    FromLeZeros(n);
    assert ([1] + Zeros(n))[1..] == Zeros(n);
  }

  lemma {:induction false} FromLeConcat(a: seq<Byte>, b: seq<Byte>)
    ensures FromLe(a + b) == FromLe(a) + Pow256(|a|) * FromLe(b)
  {
    if a == [] {
      assert a + b == b;
    } else {
      FromLeConcat(a[1..], b);
      assert (a + b)[1..] == a[1..] + b;
      Distribute(Pow256(|a| - 1), FromLe(b));
    }
  }

  lemma {:induction false} Distribute(p: nat, x: nat)
    ensures 256 * (p * x) == (256 * p) * x
  {
  }

  lemma {:induction false} PrefixBytes(ty: Type, v: Val)
    requires ty.Masked() && AllAre([Just(v)], ty) && Size(AccOf(ty, [Just(v)])).Ok?
    ensures [1] + Zeros(7) + ([1] + Zeros(7)) <= Body(ty, [Just(v)])
  {
    var rows := [Just(v)];
    AccIsColumnar(ty, rows);
    assert rows[1..] == [] && Somes(rows) == [v] && Presence(rows) == [true];
    ColumnLengths([v], 0);
    var acc := AccOf(ty, rows);
    assert acc.mask == [true] && !acc.data.IsEmpty();
    MaskExact(acc.mask, acc.data);
    OnePresent();
  }

  /** The region of a mask with a single set bit. */
  lemma {:induction false} OnePresent()
    ensures Region(PackBits([true])) == [1] + Zeros(7) + ([1] + Zeros(7))
  {
    assert PackBits([true]) == [1] by { assert [true][1..] == []; }
    ToLeOne();
  }

  lemma {:induction false} ToLeOne()
    ensures ToLe(1, 8) == [1] + Zeros(7)
  {
    assert ToLe(0, 7) == [0] + ToLe(0, 6);
    assert ToLe(0, 5) == [0] + ToLe(0, 4);
    assert ToLe(0, 3) == [0] + ToLe(0, 2);
  }

  /** The plain reader of the item type sees the length prefix, whatever the item is. */
  lemma {:induction false} PlainReadsPrefix(ty: Type, v: Val)
    requires ty.Masked() && Just(v).Is(ty) && AllAre([Just(v)], ty) && Size(AccOf(ty, [Just(v)])).Ok?
    ensures One(ty.Inner(), Body(ty, [Just(v)])) == Ok(Misread(ty))
  {
    PrefixBytes(ty, v);
    PlainReads(ty, Body(ty, [Just(v)]));
  }

  lemma {:induction false} PlainReads(ty: Type, body: seq<Byte>)
    requires ty.Masked() && [1] + Zeros(7) + ([1] + Zeros(7)) <= body
    ensures One(ty.Inner(), body) == Ok(Misread(ty))
  {
    if ty.OptBool? {
      assert body[0] == 1 && UnpackBits(body) == BitsOf(1, 8) + UnpackBits(body[1..]);
    } else {
      NumberInPrefix(ty.kind, body);
    }
  }

  lemma {:induction false} NumberInPrefix(kind: Kind, body: seq<Byte>)
    requires !kind.Niche() && [1] + Zeros(7) + ([1] + Zeros(7)) <= body
    ensures OneNumber(kind, body) == Ok(Misread(OptFixed(kind)))
  {
    var one, w: nat := [1] + Zeros(7), kind.Width();
    assert body[..16] == one + one;
    if w == 16 {
      FromLeOne(7);
      FromLeConcat(one, one);
    } else {
      assert body[..w] == body[..16][..w] == [1] + Zeros(w - 1);
      FromLeOne(w - 1);
    }
    MisreadIsValid(kind);
  }

  lemma {:induction false} MisreadIsValid(kind: Kind)
    requires !kind.Niche()
    ensures kind.Valid(Misread(OptFixed(kind)).num)
  {
    var w: nat := kind.Width();
    assert Pow256(w) == 256 * Pow256(w - 1);
    if w == 16 { Pow256Grows(9, 16); assert Pow256(9) == 256 * Pow256(8); }
  }

  lemma {:induction false} Pow256Grows(a: nat, b: nat)
    requires a <= b
    ensures Pow256(a) <= Pow256(b)
  {
    if a < b { Pow256Grows(a, b - 1); }
  }
}
