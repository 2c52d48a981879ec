/** The column widths of the screen report: each column is as wide as its
    header and its widest cell, and the two date columns are at least as wide
    as a formatted `YYYY-MM-DD HH:MM:SS` timestamp. */
module Screen {
  import opened Wrappers
  import opened Records

  /** Length of `YYYY-MM-DD HH:MM:SS`. */
  const MIN_DATE_WIDTH := 19

  predicate IsDateColumn(c: string) {
    c == FECHA_ORIGEN || c == FECHA_PAGO
  }

  function Max(a: nat, b: nat): nat {
    if a < b then b else a
  }

  /** Length of the cell in column `c`, or 0 when the row has no such cell. */
  function CellLen(r: Record, c: string): nat {
    if c in r then |r[c]| else 0
  }

  /** The widest cell of column `c` over all rows (0 if there is none). */
  function MaxCell(rows: seq<Record>, c: string): nat {
    if rows == [] then 0
    else Max(MaxCell(rows[..|rows| - 1], c), CellLen(rows[|rows| - 1], c))
  }

  /** The width the report gives column `c`. */
  function ColumnWidth(rows: seq<Record>, c: string): nat {
    var w := Max(|c|, MaxCell(rows, c));
    if IsDateColumn(c) then Max(w, MIN_DATE_WIDTH) else w
  }

  lemma {:induction false} MaxCellIsMaximum(rows: seq<Record>, c: string)
    ensures forall i :: 0 <= i < |rows| ==> CellLen(rows[i], c) <= MaxCell(rows, c)
    ensures MaxCell(rows, c) == 0 ||
            exists i :: 0 <= i < |rows| && c in rows[i] && MaxCell(rows, c) == |rows[i][c]|
  {
    if rows != [] {
      var front := rows[..|rows| - 1];
      MaxCellIsMaximum(front, c);
      forall i | 0 <= i < |rows| - 1 ensures CellLen(rows[i], c) <= MaxCell(rows, c) {
        assert rows[i] == front[i];
      }
      if MaxCell(rows, c) != 0 && MaxCell(rows, c) == MaxCell(front, c) {
        var i :| 0 <= i < |front| && c in front[i] && MaxCell(front, c) == |front[i][c]|;
        assert rows[i] == front[i];
      }
    }
  }

  /** Each width is the largest of the header length, the cell lengths of its
      column and, for a date column, 19: it bounds all of them and equals one
      of them. */
  lemma ColumnWidthIsMaximum(rows: seq<Record>, c: string)
    ensures |c| <= ColumnWidth(rows, c)
    ensures forall i :: 0 <= i < |rows| && c in rows[i] ==> |rows[i][c]| <= ColumnWidth(rows, c)
    ensures IsDateColumn(c) ==> MIN_DATE_WIDTH <= ColumnWidth(rows, c)
    ensures || ColumnWidth(rows, c) == |c|
            || (IsDateColumn(c) && ColumnWidth(rows, c) == MIN_DATE_WIDTH)
            || exists i :: 0 <= i < |rows| && c in rows[i] && ColumnWidth(rows, c) == |rows[i][c]|
  {
    MaxCellIsMaximum(rows, c);
    assert forall i :: 0 <= i < |rows| && c in rows[i] ==> CellLen(rows[i], c) == |rows[i][c]|;
  }

  /** Widens every column to the length of this row's cell in it (lines
      46-47, the inner loop over `fila.items()`). */
  method WidenToRow(widths: map<string, nat>, fila: Record) returns (wider: map<string, nat>)
    requires fila.Keys <= widths.Keys
    ensures wider.Keys == widths.Keys
    ensures forall c :: c in wider ==> wider[c] == Max(widths[c], CellLen(fila, c))
  {
    wider := widths;
    var pendientes := fila.Keys;
    while pendientes != {}
      invariant pendientes <= fila.Keys
      invariant wider.Keys == widths.Keys
      invariant forall c :: c in wider ==>
        wider[c] == (if c in fila && c !in pendientes then Max(widths[c], |fila[c]|) else widths[c])
    {
      var columna :| columna in pendientes;
      wider := wider[columna := Max(wider[columna], |fila[columna]|)];
      pendientes := pendientes - {columna};
    }
  }

  /** Raises the two date columns to at least 19 (lines 50-52). */
  method WidenDates(widths: map<string, nat>) returns (wider: map<string, nat>)
    ensures wider.Keys == widths.Keys
    ensures forall c :: c in wider ==>
      wider[c] == (if IsDateColumn(c) then Max(widths[c], MIN_DATE_WIDTH) else widths[c])
  {
    wider := widths;
    var pendientes := widths.Keys;
    while pendientes != {}
      invariant pendientes <= widths.Keys
      invariant wider.Keys == widths.Keys
      invariant forall c :: c in wider ==>
        wider[c] == (if IsDateColumn(c) && c !in pendientes then Max(widths[c], MIN_DATE_WIDTH) else widths[c])
    {
      var columna :| columna in pendientes;
      if IsDateColumn(columna) {
        wider := wider[columna := Max(wider[columna], MIN_DATE_WIDTH)];
      }
      pendientes := pendientes - {columna};
    }
  }

  /** The width computation of `mostrar_en_columnas`: no widths for an empty
      listing, otherwise one width per column of the first row. */
  method ColumnWidths(notas: seq<Record>) returns (anchos: Option<map<string, nat>>)
    requires forall i :: 0 <= i < |notas| ==> notas[i].Keys <= notas[0].Keys
    ensures anchos.None? <==> notas == []
    ensures anchos.Some? ==> anchos.value.Keys == notas[0].Keys
    ensures anchos.Some? ==> forall c :: c in anchos.value ==> anchos.value[c] == ColumnWidth(notas, c)
  {
    if notas == [] {
      return None;
    }
    var columnas := notas[0].Keys;
    var widths: map<string, nat> := map c | c in columnas :: |c|;
    for i := 0 to |notas|
      invariant widths.Keys == columnas
      invariant forall c :: c in widths ==> widths[c] == Max(|c|, MaxCell(notas[..i], c))
    {
      assert notas[..i + 1][..i] == notas[..i];
      widths := WidenToRow(widths, notas[i]);
    }
    assert notas[..|notas|] == notas;
    widths := WidenDates(widths);
    return Some(widths);
  }
}
