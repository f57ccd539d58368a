/**
 The walk over a row image (`appendRowFormatChanges`): each column that is not null is read where the
 one before it ended.

 The walk does not depend on what a cell looks like, so it is stated for any reader of one cell, and
 then for `CellValue`.
 */
module RowWalk {
  import opened Bytes
  import opened Cells

  type Reader = (Octets, Column) -> Read

  /** A cell of a row as the source wrote it: nothing for a null. */
  type RowCell = Option<Octets>

  /** The reader takes these bytes, whatever follows them, and no others. */
  ghost predicate Delimits(read: Reader, bs: Octets, c: Column) {
    && read(bs, c).Some? && read(bs, c).value.0 == |bs|
    && forall more :: read(bs + more, c) == read(bs, c)
  }

  ghost predicate IsRow(read: Reader, cells: seq<RowCell>, cs: seq<Column>) {
    |cells| == |cs| && forall i :: 0 <= i < |cells| ==> cells[i].Some? ==> Delimits(read, cells[i].value, cs[i])
  }

  function CellBytes(cell: RowCell): Octets {
    if cell.Some? then cell.value else []
  }

  /** The row image: the cells that are not null, one after another. */
  function Image(cells: seq<RowCell>): Octets {
    if cells == [] then [] else Image(cells[..|cells| - 1]) + CellBytes(cells[|cells| - 1])
  }

  function Nulls(cells: seq<RowCell>): seq<bool> {
    seq(|cells|, i requires 0 <= i < |cells| => cells[i].None?)
  }

  /** What a cell holds, read by itself. */
  function Meaning(read: Reader, cell: RowCell, c: Column): Value {
    if cell.None? then NullValue
    else
      match read(cell.value, c)
      case None => NullValue
      case Some(r) => r.1
  }

  function Meanings(read: Reader, cells: seq<RowCell>, cs: seq<Column>): seq<Value>
    requires |cells| == |cs|
  {
    seq(|cs|, i requires 0 <= i < |cs| => Meaning(read, cells[i], cs[i]))
  }

  /** The columns read in order; how far, and what they hold. */
  function Walk(read: Reader, data: Octets, nulls: seq<bool>, cs: seq<Column>): Option<(nat, seq<Value>)>
    requires |nulls| == |cs|
  {
    if cs == [] then Some((0, []))
    else
      var n := |cs| - 1;
      match Walk(read, data, nulls[..n], cs[..n])
      case None => None
      case Some(sofar) =>
        if nulls[n] then Some((sofar.0, sofar.1 + [NullValue]))
        else if sofar.0 > |data| then None
        else
          match read(data[sofar.0..], cs[n])
          case None => None
          case Some(r) => Some((sofar.0 + r.0, sofar.1 + [r.1]))
  }

  lemma {:induction false} WalkFails(read: Reader, data: Octets, nulls: seq<bool>, cs: seq<Column>, i: nat)
    requires |nulls| == |cs| && i <= |cs|
    requires Walk(read, data, nulls[..i], cs[..i]).None?
    ensures Walk(read, data, nulls, cs).None?
    decreases |cs|
  {
    if i == |cs| {
      assert nulls[..i] == nulls && cs[..i] == cs;
    } else {
      var n := |cs| - 1;
      assert nulls[..n][..i] == nulls[..i] && cs[..n][..i] == cs[..i];
      WalkFails(read, data, nulls[..n], cs[..n], i);
    }
  }

  /** The loop over the columns of one row; stops at the first cell that cannot be read. */
  method ReadRow(read: Reader, data: Octets, nulls: seq<bool>, cs: seq<Column>)
    returns (r: Option<(nat, seq<Value>)>)
    requires |nulls| == |cs|
    ensures r == Walk(read, data, nulls, cs)
  {
    var pos, values: seq<Value> := 0, [];
    for i := 0 to |cs|
      invariant Walk(read, data, nulls[..i], cs[..i]) == Some((pos, values))
    {
      assert nulls[..i + 1][..i] == nulls[..i] && cs[..i + 1][..i] == cs[..i];
      if nulls[i] {
        values := values + [NullValue];
        continue;
      }
      var cell := if pos > |data| then None else read(data[pos..], cs[i]);
      if cell.None? {
        WalkFails(read, data, nulls, cs, i + 1);
        return None;
      }
      pos, values := pos + cell.value.0, values + [cell.value.1];
    }
    assert nulls[..|cs|] == nulls && cs[..|cs|] == cs;
    return Some((pos, values));
  }

  /** Walking the first cells of an image does not depend on what follows them. */
  lemma {:induction false} WalkFront(read: Reader, cells: seq<RowCell>, cs: seq<Column>, more: Octets)
    requires IsRow(read, cells, cs)
    ensures Walk(read, Image(cells) + more, Nulls(cells), cs)
            == Some((|Image(cells)|, Meanings(read, cells, cs)))
    decreases |cs|
  {
    if cs != [] {
      var n := |cs| - 1;
      var front, bs := cells[..n], CellBytes(cells[n]);
      assert Image(cells) + more == Image(front) + (bs + more);
      WalkFront(read, front, cs[..n], bs + more);
      assert Nulls(cells)[..n] == Nulls(front);
      assert (Image(cells) + more)[|Image(front)|..] == bs + more;
      assert Meanings(read, cells, cs) == Meanings(read, front, cs[..n]) + [Meaning(read, cells[n], cs[n])];
      if cells[n].Some? {
        assert Delimits(read, bs, cs[n]);
      }
    }
  }

  /** Every cell of every column is delimited by `CellValue` itself. */
  lemma {:induction false} CellsAreDelimited(bs: Octets, c: Column)
    requires IsCell(bs, c) && PlainFraction(c)
    ensures Delimits(CellValue, bs, c)
  {
    ReadsCellLength(bs, c);
    forall more ensures CellValue(bs + more, c) == CellValue(bs, c) {
      CellIsLocal(bs, more, c);
    }
  }

  /**
   For every schema, null bitmap and row image laid out cell after cell, the walk reads each column
   that is not null from its own bytes and ends at the end of the row.
   */
  lemma {:induction false} RowAlignment(cells: seq<RowCell>, cs: seq<Column>)
    requires |cells| == |cs|
    requires forall i :: 0 <= i < |cs| ==> cells[i].Some? ==> IsCell(cells[i].value, cs[i]) && PlainFraction(cs[i])
    ensures IsRow(CellValue, cells, cs)
    ensures Walk(CellValue, Image(cells), Nulls(cells), cs)
            == Some((|Image(cells)|, Meanings(CellValue, cells, cs)))
  {
    forall i | 0 <= i < |cs| && cells[i].Some? ensures Delimits(CellValue, cells[i].value, cs[i]) {
      CellsAreDelimited(cells[i].value, cs[i]);
    }
    WalkFront(CellValue, cells, cs, []);
    assert Image(cells) + [] == Image(cells);
  }
}
