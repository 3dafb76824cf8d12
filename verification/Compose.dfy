/**
 Composite accumulators: one column accumulator per field, fed row by row.
 */
module Compose {
  import opened Types
  import opened Column
  import opened Layout
  import opened Pieces

  class Accumulator {
    const types: seq<Type>
    const columns: seq<Column.Buffer>
    ghost var rows: seq<seq<Val>>

    ghost predicate Shaped() {
      && |columns| == |types| > 0
      && (forall c :: 0 <= c < |columns| ==> columns[c].ty == types[c])
      && forall c, d :: 0 <= c < d < |columns| ==> columns[c] != columns[d]
    }

    /** Every field has taken its part of every row. */
    ghost predicate Valid()
      reads this, columns
    {
      && Shaped()
      && RowsFit(types, rows)
      && forall c :: 0 <= c < |columns| ==> columns[c].Valid() && columns[c].pushed == Field(rows, c)
    }

    constructor (types: seq<Type>)
      requires |types| > 0
      ensures Valid() && rows == [] && this.types == types && fresh(columns)
    {
      var cs: seq<Column.Buffer> := [];
      for c := 0 to |types|
        invariant |cs| == c
        invariant forall i :: 0 <= i < c ==> cs[i].ty == types[i] && fresh(cs[i]) && cs[i].Valid() && cs[i].pushed == []
        invariant forall i, j :: 0 <= i < j < c ==> cs[i] != cs[j]
      {
        var b := new Column.Buffer(types[c]);
        cs := cs + [b];
      }
      this.types, columns, rows := types, cs, [];
    }

    /** Distributes the fields of one row. */
    method Push(row: seq<Val>)
      requires Valid() && RowFits(types, row)
      modifies this`rows, columns
      ensures Valid() && rows == old(rows) + [row]
    {
      ghost var before := rows;
      for c := 0 to |columns|
        invariant Shaped() && rows == before
        invariant forall d :: 0 <= d < |columns| ==>
                    columns[d].Valid() && columns[d].pushed == Field(before, d) + if d < c then [row[d]] else []
      {
        columns[c].Push(row[c]);
      }
      rows := rows + [row];
      forall d | 0 <= d < |columns| ensures columns[d].pushed == Field(rows, d) {
        assert Field(rows, d) == Field(before, d) + [row[d]];
      }
    }

    /** A new accumulator into which rows were pushed one after another. */
    static method Holding(types: seq<Type>, rows: seq<seq<Val>>) returns (acc: Accumulator)
      requires |types| > 0 && RowsFit(types, rows)
      ensures fresh(acc) && fresh(acc.columns) && acc.Valid() && acc.types == types && acc.rows == rows
    {
      acc := new Accumulator(types);
      for i := 0 to |rows|
        invariant fresh(acc) && fresh(acc.columns) && acc.Valid() && acc.types == types && acc.rows == rows[..i]
      {
        assert RowFits(types, rows[i]);
        acc.Push(rows[i]);
        assert rows[..i + 1] == rows[..i] + [rows[i]];
      }
      assert rows[..|rows|] == rows;
    }

    method Discard()
      requires Shaped()
      modifies this`rows, columns
      ensures Valid() && rows == []
    {
      for c := 0 to |columns|
        invariant Shaped()
        invariant forall d :: 0 <= d < c ==> columns[d].Valid() && columns[d].pushed == []
      {
        columns[c].Discard();
      }
      rows := [];
    }

    /** Items are counted in the first field alone. */
    method Count() returns (n: nat)
      requires Valid()
      ensures n == |rows|
    {
      n := columns[0].Count();
    }

    method IsEmpty() returns (b: bool)
      requires Valid()
      ensures b <==> rows == []
    {
      b := columns[0].IsEmpty();
    }

    /** The accumulator as a data segment sees it. */
    method Pieces() returns (pieces: seq<Piece>)
      requires Valid()
      ensures pieces == PiecesOf(types, rows) && AllValid(pieces)
      ensures forall c :: 0 <= c < |pieces| ==> pieces[c].count == |rows|
    {
      pieces := [];
      ghost var all := PiecesOf(types, rows);
      for c := 0 to |columns|
        invariant pieces == all[..c]
      {
        PieceAt(types, rows, c);
        pieces := pieces + [PieceOf(columns[c].ty, columns[c].state)];
      }
      PiecesCount(types, rows);
    }
  }
}
