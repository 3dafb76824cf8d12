/**
 Columns as a data segment sees them, and batches of rows as columns.
 */
module Pieces {
  import opened Types
  import opened Accumulate
  import opened Stats
  import opened Column
  import opened Layout

  /** A column of an accumulator, as the data segment sees it. */
  function PieceOf(ty: Type, state: State): Piece
    requires state.Repeated? ==> state.item.Is(ty)
  {
    var count := match state case Vacant => 0 case Repeated(_, n) => n case Many(acc) => acc.Count();
    Piece(count, ColumnSize(state, ty), ColumnBytes(state, ty), (s: Sector, n: nat) => ColumnBuffer(state, s, n))
  }

  /** Columns predict their size exactly, so layout may rely on them. */
  lemma {:induction false} PieceIsValid(ty: Type, state: State)
    requires state.Repeated? ==> state.item.Is(ty)
    ensures PieceOf(ty, state).Valid()
  {
    var piece := PieceOf(ty, state);
    if piece.size.Ok? {
      var acc := Written(state, ty).value;
      SizeIsExact(acc);
      SizeRange(acc);
    }
    forall s, n | piece.describe(s, n).Ok? ensures piece.describe(s, n).value.sector == s && piece.describe(s, n).value.count == n {
      DescriptorKeeps(state, s, n);
    }
  }

  /** The piece of a column into which `rows` were pushed counts them. */
  lemma {:induction false} PieceCounts(ty: Type, rows: seq<Val>)
    requires AllAre(rows, ty)
    ensures PieceOf(ty, StateOf(ty, rows)).count == |rows|
  {
    CountOfPushes(ty, Empty(ty), rows);
  }

  /* ---------------------------------------------------------------- Rows and columns */

  predicate RowFits(types: seq<Type>, row: seq<Val>) {
    |row| == |types| && forall c :: 0 <= c < |row| ==> row[c].Is(types[c])
  }

  predicate RowsFit(types: seq<Type>, rows: seq<seq<Val>>) {
    forall i :: 0 <= i < |rows| ==> RowFits(types, rows[i])
  }

  /** Field `c` of every row. */
  function Field(rows: seq<seq<Val>>, c: nat): (r: seq<Val>)
    requires forall i :: 0 <= i < |rows| ==> c < |rows[i]|
    ensures |r| == |rows|
  {
    seq(|rows|, i requires 0 <= i < |rows| => rows[i][c])
  }

  lemma {:induction false} FieldFits(types: seq<Type>, rows: seq<seq<Val>>, c: nat)
    requires RowsFit(types, rows) && c < |types|
    ensures (forall i :: 0 <= i < |rows| ==> c < |rows[i]|) && AllAre(Field(rows, c), types[c])
  {
    forall i | 0 <= i < |rows| ensures c < |rows[i]| && rows[i][c].Is(types[c]) {
      assert RowFits(types, rows[i]);
    }
  }

  /** What pushing `rows` into a composite accumulator builds: one piece per field. */
  function PiecesOf(types: seq<Type>, rows: seq<seq<Val>>): (pieces: seq<Piece>)
    requires RowsFit(types, rows)
    ensures |pieces| == |types|
  {
    seq(|types|, c requires 0 <= c < |types| =>
      FieldFits(types, rows, c); PieceOf(types[c], StateOf(types[c], Field(rows, c))))
  }

  lemma {:induction false} PieceAt(types: seq<Type>, rows: seq<seq<Val>>, c: nat)
    requires RowsFit(types, rows) && c < |types|
    ensures (forall i :: 0 <= i < |rows| ==> c < |rows[i]|) && AllAre(Field(rows, c), types[c])
    ensures PiecesOf(types, rows)[c] == PieceOf(types[c], StateOf(types[c], Field(rows, c)))
  {
    FieldFits(types, rows, c);
  }

  /** The pieces of a batch are valid and count its rows. */
  lemma {:induction false} PiecesCount(types: seq<Type>, rows: seq<seq<Val>>)
    requires RowsFit(types, rows)
    ensures AllValid(PiecesOf(types, rows)) && forall c :: 0 <= c < |types| ==> PiecesOf(types, rows)[c].count == |rows|
  {
    forall c | 0 <= c < |types| ensures PiecesOf(types, rows)[c].Valid() && PiecesOf(types, rows)[c].count == |rows| {
      FieldFits(types, rows, c);
      PieceIsValid(types[c], StateOf(types[c], Field(rows, c)));
      PieceCounts(types[c], Field(rows, c));
    }
  }
}
