/**
  `procesar_datos` step by step on a mutable DataFrame, as the script
  writes it, proved to produce the frame that Transform.Reshape and
  Transform.Process describe row by row. Line numbers in the comments
  are those of `procesar_datos` in tabla24900optimizado.py.
*/
module Pipeline {
  import opened Wrappers
  import opened Text
  import opened Frames
  import opened Transform

  /** The columns json_normalize makes of a point's keys, in the order the API sends them. */
  const PointColumns: seq<string> := ["Anyo", "Valor", "Secreto"]

  /** The columns kept by the selection, before renaming. */
  const Selection: seq<string> := LabelColumns + PointColumns

  /** The renaming `{'Anyo': 'anyo', 'Valor': 'valor', 'Secreto': 'secreto'}`. */
  const Lowercase: map<string, string> := map["Anyo" := "anyo", "Valor" := "valor", "Secreto" := "secreto"]

  // ---------------------------------------------------------------------
  // Cells
  // ---------------------------------------------------------------------

  /** An optional string as a cell: None is a missing value. */
  function TextCell(o: Option<string>): (c: Cell)
    ensures c.Null? <==> o.None?
  {
    match o
    case None => Null
    case Some(s) => Str(s)
  }

  /** An optional number as a cell: a null `Valor` is a missing value. */
  function ValueCell(o: Option<real>): (c: Cell)
    ensures c.Null? <==> o.None?
  {
    match o
    case None => Null
    case Some(v) => Real(v)
  }

  /** The cells json_normalize makes of a point, in the order of PointColumns. */
  function PointCells(p: Point): (cells: seq<Cell>)
    ensures |cells| == |PointColumns|
  {
    [Int(p.anyo), ValueCell(p.valor), Bool(p.secreto)]
  }

  /** The cells of a row of the result, in the order of Schema. */
  function RecordCells(r: Record): (cells: seq<Cell>)
    ensures |cells| == |Schema|
  {
    [TextCell(r.indice), TextCell(r.dato), TextCell(r.tipoDato), TextCell(r.descripcion), TextCell(r.quintil)]
      + PointCells(Point(r.anyo, r.valor, r.secreto))
  }

  /** Strings as a column of cells. */
  function TextCells(ss: seq<string>): (col: seq<Cell>)
    ensures |col| == |ss|
  {
    seq(|ss|, i requires 0 <= i < |ss| => Str(ss[i]))
  }

  /** Column `j` of a batch of rows. */
  function ColumnOf(records: seq<Record>, j: nat): (col: seq<Cell>)
    requires j < |Schema|
    ensures |col| == |records|
  {
    seq(|records|, i requires 0 <= i < |records| => RecordCells(records[i])[j])
  }

  /** The frame `procesar_datos` returns, read off a Table: Schema, one column per field, labels as index. */
  function TableFrame(t: Table): (f: Frame)
    requires |t.index| == |t.records|
    ensures f.WellFormed() && f.columns == Schema
  {
    Frame(Schema, seq(|Schema|, j requires 0 <= j < |Schema| => ColumnOf(t.records, j)), TextCells(t.index))
  }

  // ---------------------------------------------------------------------
  // Flattening the response (json_normalize over the `Data` lists, `Nombre` as meta)
  // ---------------------------------------------------------------------

  /** Column `k` of the point columns of a batch of rows. */
  function PointColumn(rows: seq<FlatRow>, k: nat): (col: seq<Cell>)
    requires k < |PointColumns|
    ensures |col| == |rows|
  {
    seq(|rows|, i requires 0 <= i < |rows| => PointCells(rows[i].point)[k])
  }

  /** The `Nombre` column of a batch of rows: each row's table label. */
  function NombreColumn(rows: seq<FlatRow>): (col: seq<Cell>)
    ensures |col| == |rows|
  {
    seq(|rows|, i requires 0 <= i < |rows| => Str(rows[i].nombre))
  }

  /** The default row index 0, 1, 2, ... of `n` rows. */
  function RowNumbers(n: nat): (index: seq<Cell>)
    ensures |index| == n
  {
    seq(n, i requires 0 <= i < n => Int(i))
  }

  /** The frame of a nonempty batch of rows: the point columns, then `Nombre`. */
  function PointsFrame(rows: seq<FlatRow>): (f: Frame)
    ensures f.WellFormed() && |f.index| == |rows| && "Nombre" in f.columns
    ensures Column(f, "Nombre") == Some(NombreColumn(rows))
    ensures forall k :: 0 <= k < |PointColumns| ==> Column(f, PointColumns[k]) == Some(PointColumn(rows, k))
  {
    var f := Frame(PointColumns + ["Nombre"],
                   [PointColumn(rows, 0), PointColumn(rows, 1), PointColumn(rows, 2), NombreColumn(rows)],
                   RowNumbers(|rows|));
    assert f.columns == ["Anyo", "Valor", "Secreto", "Nombre"];
    FindFirst(f.columns, "Nombre", 3);
    FindFirst(f.columns, "Anyo", 0);
    FindFirst(f.columns, "Valor", 1);
    FindFirst(f.columns, "Secreto", 2);
    f
  }

  /**
    The flattened frame: one row per point with the point's keys and the
    table's `Nombre` last, on a 0, 1, 2, ... index. Without tables there are
    no columns at all; without points there is only `Nombre`.
  */
  function Normalized(ts: seq<RawTable>): (f: Frame)
    ensures f.WellFormed() && |f.index| == |Flatten(ts)|
    ensures ts == [] <==> "Nombre" !in f.columns
    ensures ts != [] ==> Column(f, "Nombre") == Some(NombreColumn(Flatten(ts)))
    ensures Flatten(ts) != [] ==>
      forall k :: 0 <= k < |PointColumns| ==> Column(f, PointColumns[k]) == Some(PointColumn(Flatten(ts), k))
  {
    var rows := Flatten(ts);
    if ts == [] then Frame([], [], [])
    else if rows == [] then
      var f := Frame(["Nombre"], [NombreColumn(rows)], RowNumbers(0));
      FindFirst(f.columns, "Nombre", 0);
      f
    else PointsFrame(rows)
  }

  // ---------------------------------------------------------------------
  // The .str accessor, cell by cell (a non-string cell gives a missing value)
  // ---------------------------------------------------------------------

  /** The label cleaning of CleanLabel on a column, through the `.str` accessor. */
  function CleanCells(col: seq<Cell>): (r: seq<Cell>)
    ensures |r| == |col|
    ensures forall i :: 0 <= i < |col| ==> (r[i].Str? <==> col[i].Str?)
    ensures forall i :: 0 <= i < |col| && r[i].Str? ==>
      r[i].text == [] || (r[i].text[0] !in Whitespace && r[i].text[|r[i].text| - 1] !in Whitespace)
  {
    seq(|col|, i requires 0 <= i < |col| => if col[i].Str? then Str(CleanLabel(col[i].text)) else Null)
  }

  /** The fields of one cell: those of the string, none for a missing value. */
  function CellFields(c: Cell): seq<string> {
    if c.Str? then SplitN(c.text, Dot, MaxSplit) else []
  }

  /**
    The split of SplitN at the first four dots, expanded: as many columns as the longest
    split; column `k` holds field `k` of each cell, missing past its end.
  */
  function SplitCells(col: seq<Cell>): (parts: seq<seq<Cell>>)
    ensures forall k :: 0 <= k < |parts| ==> |parts[k]| == |col|
  {
    var splits := seq(|col|, i requires 0 <= i < |col| => CellFields(col[i]));
    seq(Width(splits), k requires 0 <= k < Width(splits) =>
      seq(|col|, i requires 0 <= i < |col| => if k < |splits[i]| then Str(splits[i][k]) else Null))
  }

  /** TidyQuintil on the quintile column, through the `.str` accessor. */
  function TidyCells(col: seq<Cell>): (r: seq<Cell>)
    ensures |r| == |col|
    ensures forall i :: 0 <= i < |col| && !col[i].Str? ==> r[i].Null?
    ensures forall i :: 0 <= i < |col| && r[i].Str? ==>
      r[i].text != [] && r[i].text[0] != Dot && r[i].text[|r[i].text| - 1] != Dot
  {
    seq(|col|, i requires 0 <= i < |col| => if col[i].Str? then TextCell(TidyQuintil(Some(col[i].text))) else Null)
  }

  // ---------------------------------------------------------------------
  // The columns the steps compute, against the rows of Transform.Reshape
  // ---------------------------------------------------------------------

  /** Cleaning the `Nombre` column gives the cleaned labels. */
  lemma CleanedNombre(rows: seq<FlatRow>)
    ensures CleanCells(NombreColumn(rows)) == TextCells(Labels(rows))
  {
  }

  /** The split of a column of labels is as wide as the widest split of a label. */
  lemma SplitWidth(labels: seq<string>)
    ensures |SplitCells(TextCells(labels))| == Width(Splits(labels))
  {
    var col := TextCells(labels);
    assert seq(|col|, i requires 0 <= i < |col| => CellFields(col[i])) == Splits(labels);
  }

  /** The split of a column of labels holds their fields, missing past the end of each. */
  lemma SplitOfLabels(labels: seq<string>)
    ensures |SplitCells(TextCells(labels))| == Width(Splits(labels))
    ensures forall k, i :: 0 <= k < |SplitCells(TextCells(labels))| && 0 <= i < |labels| ==>
      SplitCells(TextCells(labels))[k][i] == if k < |Splits(labels)[i]| then Str(Splits(labels)[i][k]) else Null
  {
    var col := TextCells(labels);
    assert seq(|col|, i requires 0 <= i < |col| => CellFields(col[i])) == Splits(labels);
  }

  /** The label cells of a row of the result: its split fields, the quintile tidied. */
  lemma RecordLabelCells(row: FlatRow, k: nat)
    requires k < |LabelColumns|
    ensures var cells := SplitLabel(CleanLabel(row.nombre));
      RecordCells(ToRecord(row))[k] == if k < |LabelColumns| - 1 then TextCell(cells[k]) else TextCell(TidyQuintil(cells[k]))
  {
  }

  /** One cell of the split of a column of labels: field `k` of label `i`, or missing. */
  lemma SplitCell(labels: seq<string>, k: nat, i: nat)
    requires k < |SplitCells(TextCells(labels))| && i < |labels|
    ensures SplitCells(TextCells(labels))[k][i] == TextCell(Padded(SplitN(labels[i], Dot, MaxSplit), |LabelColumns|)[k])
  {
    SplitOfLabels(labels);
  }

  /** Tidying a column tidies each optional quintile in it. */
  lemma TidyCell(col: seq<Cell>, i: nat, q: Option<string>)
    requires i < |col| && col[i] == TextCell(q)
    ensures TidyCells(col)[i] == TextCell(TidyQuintil(q))
  {
  }

  /** Cell `i` of label column `k < 4`, computed by the split, is that of row `i` of the result. */
  lemma LabelCell(rows: seq<FlatRow>, records: seq<Record>, k: nat, i: nat)
    requires k < |LabelColumns| - 1 && i < |rows| == |records| && records[i] == ToRecord(rows[i])
    requires k < |SplitCells(TextCells(Labels(rows)))|
    ensures SplitCells(TextCells(Labels(rows)))[k][i] == ColumnOf(records, k)[i]
  {
    SplitCell(Labels(rows), k, i);
    RecordLabelCells(rows[i], k);
  }

  /** Cell `i` of the quintile column, split and tidied, is that of row `i` of the result. */
  lemma QuintilCell(rows: seq<FlatRow>, records: seq<Record>, i: nat)
    requires i < |rows| == |records| && records[i] == ToRecord(rows[i])
    requires |LabelColumns| == |SplitCells(TextCells(Labels(rows)))|
    ensures TidyCells(SplitCells(TextCells(Labels(rows)))[|LabelColumns| - 1])[i] == ColumnOf(records, |LabelColumns| - 1)[i]
  {
    var labels := Labels(rows);
    var k := |LabelColumns| - 1;
    var part := SplitCells(TextCells(labels))[k];
    SplitCell(labels, k, i);
    RecordLabelCells(rows[i], k);
    TidyCell(part, i, Padded(SplitN(labels[i], Dot, MaxSplit), |LabelColumns|)[k]);
  }

  /** Label column `k` of the split, for the four columns before the quintile, is column `k` of the rows. */
  lemma LabelColumnOfRecords(rows: seq<FlatRow>, records: seq<Record>, k: nat)
    requires |records| == |rows| && forall i :: 0 <= i < |rows| ==> records[i] == ToRecord(rows[i])
    requires k < |LabelColumns| - 1 && |LabelColumns| == |SplitCells(TextCells(Labels(rows)))|
    ensures SplitCells(TextCells(Labels(rows)))[k] == ColumnOf(records, k)
  {
    var part := SplitCells(TextCells(Labels(rows)))[k];
    var target := ColumnOf(records, k);
    forall i | 0 <= i < |rows| ensures part[i] == target[i] {
      LabelCell(rows, records, k, i);
    }
  }

  /** The quintile column of the split, tidied, is the quintile column of the rows. */
  lemma QuintilColumnOfRecords(rows: seq<FlatRow>, records: seq<Record>)
    requires |records| == |rows| && forall i :: 0 <= i < |rows| ==> records[i] == ToRecord(rows[i])
    requires |LabelColumns| == |SplitCells(TextCells(Labels(rows)))|
    ensures TidyCells(SplitCells(TextCells(Labels(rows)))[|LabelColumns| - 1]) == ColumnOf(records, |LabelColumns| - 1)
  {
    var k := |LabelColumns| - 1;
    var col := TidyCells(SplitCells(TextCells(Labels(rows)))[k]);
    var target := ColumnOf(records, k);
    forall i | 0 <= i < |rows| ensures col[i] == target[i] {
      QuintilCell(rows, records, i);
    }
  }

  /**
    When the labels split five wide, the five label columns of the split
    are the first four fields of the rows and, tidied, their quintile.
  */
  lemma LabelColumnsOfRecords(rows: seq<FlatRow>, records: seq<Record>)
    requires |records| == |rows| && forall i :: 0 <= i < |rows| ==> records[i] == ToRecord(rows[i])
    requires Width(Splits(Labels(rows))) == |LabelColumns|
    ensures var parts := SplitCells(TextCells(Labels(rows)));
      && |parts| == |LabelColumns|
      && (forall k :: 0 <= k < |LabelColumns| - 1 ==> parts[k] == ColumnOf(records, k))
      && TidyCells(parts[|LabelColumns| - 1]) == ColumnOf(records, |LabelColumns| - 1)
  {
    SplitOfLabels(Labels(rows));
    forall k | 0 <= k < |LabelColumns| - 1 {
      LabelColumnOfRecords(rows, records, k);
    }
    QuintilColumnOfRecords(rows, records);
  }

  /** A point's cells are the last three cells of its row of the result. */
  lemma PointCell(row: FlatRow, k: nat)
    requires k < |PointColumns|
    ensures RecordCells(ToRecord(row))[|LabelColumns| + k] == PointCells(row.point)[k]
  {
    var r := ToRecord(row);
    assert Point(r.anyo, r.valor, r.secreto) == row.point;
    RecordPointCell(r, k);
  }

  /** The last three cells of a row of the result are the cells of its point. */
  lemma RecordPointCell(r: Record, k: nat)
    requires k < |PointColumns|
    ensures RecordCells(r)[|LabelColumns| + k] == PointCells(Point(r.anyo, r.valor, r.secreto))[k]
  {
  }

  /** The point columns json_normalize made are the last three columns of the rows. */
  lemma PointColumnsOfRecords(rows: seq<FlatRow>, records: seq<Record>)
    requires |records| == |rows| && forall i :: 0 <= i < |rows| ==> records[i] == ToRecord(rows[i])
    ensures forall j :: |LabelColumns| <= j < |Schema| ==> PointColumn(rows, j - |LabelColumns|) == ColumnOf(records, j)
  {
    forall j, i | |LabelColumns| <= j < |Schema| && 0 <= i < |rows|
      ensures PointColumn(rows, j - |LabelColumns|)[i] == ColumnOf(records, j)[i]
    {
      PointCell(rows[i], j - |LabelColumns|);
    }
  }

  /** Renaming a frame whose labels are the selection gives the labels of the result. */
  lemma LowercaseSelection(g: Frame)
    requires g.WellFormed() && g.columns == Selection
    ensures Renamed(g, Lowercase).columns == Schema
  {
    var h := Renamed(g, Lowercase);
    forall j | 0 <= j < |Selection| ensures h.columns[j] == Schema[j] {
      if j < |LabelColumns| {
        assert Selection[j] == LabelColumns[j] == Schema[j];
        assert Selection[j] !in Lowercase.Keys by {
          assert |Selection[j]| > 0 && 'a' <= Selection[j][0] <= 'z';
        }
      } else {
        assert Lowercase[Selection[j]] == Schema[j];
      }
    }
  }

  /**
    A frame holding, under the names of Selection, the columns of a table's
    rows on its labels becomes, once selected and renamed, that table's frame.
  */
  lemma SelectRename(f: Frame, t: Table)
    requires f.WellFormed() && |t.index| == |t.records| && f.index == TextCells(t.index)
    requires forall j :: 0 <= j < |Selection| ==> Column(f, Selection[j]) == Some(ColumnOf(t.records, j))
    ensures Selected(f, Selection).Success?
    ensures Renamed(Selected(f, Selection).value, Lowercase) == TableFrame(t)
  {
    assert forall j :: 0 <= j < |Selection| ==> Selection[j] in f.columns;
    var g := Selected(f, Selection).value;
    assert forall j :: 0 <= j < |Selection| ==> g.values[j] == ColumnOf(t.records, j);
    RenamedSelection(g, t);
  }

  /** The selected columns, renamed, are the table's frame. */
  lemma RenamedSelection(g: Frame, t: Table)
    requires g.WellFormed() && |t.index| == |t.records| && g.index == TextCells(t.index)
    requires g.columns == Selection
    requires forall j :: 0 <= j < |Selection| ==> g.values[j] == ColumnOf(t.records, j)
    ensures Renamed(g, Lowercase) == TableFrame(t)
  {
    var h := Renamed(g, Lowercase);
    var target := TableFrame(t);
    LowercaseSelection(g);
    assert h.values == target.values;
  }

  /** `Nombre` is none of the label columns. */
  lemma NombreIsNoLabel()
    ensures "Nombre" !in LabelColumns
  {
  }

  /** The label columns have distinct names, the quintile last. */
  lemma LabelNames()
    ensures Distinct(LabelColumns)
    ensures LabelColumns[|LabelColumns| - 1] == "quintil"
  {
  }

  /** Selection is the label columns, then the point columns, none of them `Nombre`. */
  lemma SelectionLayout()
    ensures |Selection| == |LabelColumns| + |PointColumns|
    ensures forall j :: 0 <= j < |LabelColumns| ==> Selection[j] == LabelColumns[j]
    ensures forall j :: |LabelColumns| <= j < |Selection| ==> Selection[j] == PointColumns[j - |LabelColumns|]
    ensures forall k :: 0 <= k < |PointColumns| ==> PointColumns[k] != "Nombre" && PointColumns[k] !in LabelColumns
  {
  }

  /** The frame after lines 23-24, when the split is five columns wide. */
  function SplitAssigned(f: Frame, parts: seq<seq<Cell>>): (g: Frame)
    requires f.WellFormed() && |parts| == |LabelColumns|
    requires forall k :: 0 <= k < |parts| ==> |parts[k]| == |f.index|
    ensures g.WellFormed() && g.index == f.index
  {
    WithColumn(Assigned(f, LabelColumns, parts), "quintil", TidyCells(parts[|LabelColumns| - 1]))
  }

  /**
    After lines 23-24 the first four label columns hold the first four
    fields, the quintile column the tidied fifth, and every other column is
    as before.
  */
  lemma SplitAssignedColumns(f: Frame, parts: seq<seq<Cell>>)
    requires f.WellFormed() && |parts| == |LabelColumns|
    requires forall k :: 0 <= k < |parts| ==> |parts[k]| == |f.index|
    ensures Column(Assigned(f, LabelColumns, parts), "quintil") == Some(parts[|LabelColumns| - 1])
    ensures forall k :: 0 <= k < |LabelColumns| - 1 ==> Column(SplitAssigned(f, parts), LabelColumns[k]) == Some(parts[k])
    ensures Column(SplitAssigned(f, parts), "quintil") == Some(TidyCells(parts[|LabelColumns| - 1]))
    ensures forall other :: other !in LabelColumns ==> Column(SplitAssigned(f, parts), other) == Column(f, other)
  {
    LabelNames();
    AssignedReadsBack(f, LabelColumns, parts);
  }

  /**
    Line 25 after lines 23-24: `Nombre` is still there to drop, and
    dropping it leaves the label columns and every other column as they were.
  */
  lemma DropNombre(f: Frame, parts: seq<seq<Cell>>)
    requires f.WellFormed() && "Nombre" in f.columns && |parts| == |LabelColumns|
    requires forall k :: 0 <= k < |parts| ==> |parts[k]| == |f.index|
    ensures Dropped(SplitAssigned(f, parts), "Nombre").Success?
    ensures var g := Dropped(SplitAssigned(f, parts), "Nombre").value;
      && g.index == f.index
      && (forall k :: 0 <= k < |LabelColumns| - 1 ==> Column(g, LabelColumns[k]) == Some(parts[k]))
      && Column(g, "quintil") == Some(TidyCells(parts[|LabelColumns| - 1]))
      && forall other :: other != "Nombre" && other !in LabelColumns ==> Column(g, other) == Column(f, other)
  {
    NombreIsNoLabel();
    SplitAssignedColumns(f, parts);
    var s := SplitAssigned(f, parts);
    assert "Nombre" in s.columns by {
      assert Column(s, "Nombre") == Column(f, "Nombre");
    }
    var g := Dropped(s, "Nombre").value;
    forall k | 0 <= k < |LabelColumns| - 1 ensures Column(g, LabelColumns[k]) == Some(parts[k]) {
      assert Column(g, LabelColumns[k]) == Column(s, LabelColumns[k]);
    }
    assert Column(g, "quintil") == Column(s, "quintil");
    forall other | other != "Nombre" && other !in LabelColumns ensures Column(g, other) == Column(f, other) {
      assert Column(g, other) == Column(s, other);
    }
  }

  /**
    The frame left by lines 19-24 holds, once `Nombre` is dropped, every
    column of the rows under its name in Selection: the label columns from
    the split, the point columns from json_normalize.
  */
  lemma BeforeSelect(rows: seq<FlatRow>, records: seq<Record>, normalized: Frame, indexed: Frame, parts: seq<seq<Cell>>)
    requires |records| == |rows| && forall i :: 0 <= i < |rows| ==> records[i] == ToRecord(rows[i])
    requires Width(Splits(Labels(rows))) == |LabelColumns|
    requires normalized.WellFormed() && indexed.WellFormed() && "Nombre" in indexed.columns
    requires forall k :: 0 <= k < |PointColumns| ==> Column(normalized, PointColumns[k]) == Some(PointColumn(rows, k))
    requires forall k :: 0 <= k < |PointColumns| ==> Column(indexed, PointColumns[k]) == Column(normalized, PointColumns[k])
    requires parts == SplitCells(TextCells(Labels(rows))) && |parts| == |LabelColumns|
    requires forall k :: 0 <= k < |parts| ==> |parts[k]| == |indexed.index|
    ensures Dropped(SplitAssigned(indexed, parts), "Nombre").Success?
    ensures var dropped := Dropped(SplitAssigned(indexed, parts), "Nombre").value;
      && dropped.index == indexed.index
      && forall j :: 0 <= j < |Selection| ==> Column(dropped, Selection[j]) == Some(ColumnOf(records, j))
  {
    DropNombre(indexed, parts);
    var dropped := Dropped(SplitAssigned(indexed, parts), "Nombre").value;
    LabelColumnsOfRecords(rows, records);
    SelectedLabels(dropped, records, parts);
    SelectedPoints(rows, records, normalized, indexed, dropped);
  }

  /** The label columns under their names in Selection. */
  lemma SelectedLabels(g: Frame, records: seq<Record>, parts: seq<seq<Cell>>)
    requires g.WellFormed() && |parts| == |LabelColumns|
    requires forall k :: 0 <= k < |LabelColumns| - 1 ==> parts[k] == ColumnOf(records, k)
    requires TidyCells(parts[|LabelColumns| - 1]) == ColumnOf(records, |LabelColumns| - 1)
    requires forall k :: 0 <= k < |LabelColumns| - 1 ==> Column(g, LabelColumns[k]) == Some(parts[k])
    requires Column(g, "quintil") == Some(TidyCells(parts[|LabelColumns| - 1]))
    ensures forall j :: 0 <= j < |LabelColumns| ==> Column(g, Selection[j]) == Some(ColumnOf(records, j))
  {
    SelectionLayout();
    LabelNames();
  }

  /** The point columns json_normalize made, kept through lines 20-25, under their names in Selection. */
  lemma SelectedPoints(rows: seq<FlatRow>, records: seq<Record>, normalized: Frame, indexed: Frame, dropped: Frame)
    requires |records| == |rows| && forall i :: 0 <= i < |rows| ==> records[i] == ToRecord(rows[i])
    requires normalized.WellFormed() && indexed.WellFormed() && dropped.WellFormed()
    requires forall k :: 0 <= k < |PointColumns| ==> Column(normalized, PointColumns[k]) == Some(PointColumn(rows, k))
    requires forall k :: 0 <= k < |PointColumns| ==> Column(indexed, PointColumns[k]) == Column(normalized, PointColumns[k])
    requires forall other :: other != "Nombre" && other !in LabelColumns ==> Column(dropped, other) == Column(indexed, other)
    ensures forall j :: |LabelColumns| <= j < |Selection| ==> Column(dropped, Selection[j]) == Some(ColumnOf(records, j))
  {
    SelectionLayout();
    PointColumnsOfRecords(rows, records);
  }

  // ---------------------------------------------------------------------
  // The steps of procesar_datos on a DataFrame
  // ---------------------------------------------------------------------

  /** The labels json_normalize gives a nonempty response: the point columns when there are points, then `Nombre`. */
  lemma NormalizedColumns(ts: seq<RawTable>)
    requires ts != []
    ensures Normalized(ts).columns == (if Flatten(ts) == [] then [] else PointColumns) + ["Nombre"]
  {
  }

  /**
    Lines 20-22 leave the labels as they were: `Nombre` is overwritten in
    place, removed by set_index, and appended again where it stood, last.
  */
  lemma LabelColumnsKept(ts: seq<RawTable>, cleaned: Frame, indexed: Frame, copied: Frame)
    requires ts != [] && cleaned.WellFormed() && |cleaned.index| == |Flatten(ts)|
    requires cleaned == WithColumn(Normalized(ts), "Nombre", TextCells(Labels(Flatten(ts))))
    requires IndexedBy(cleaned, "Nombre") == Success(indexed)
    requires copied == WithColumn(indexed, "Nombre", indexed.index)
    ensures copied.columns == Normalized(ts).columns
  {
    var front: seq<string> := if Flatten(ts) == [] then [] else PointColumns;
    NormalizedColumns(ts);
    assert "Nombre" !in front by {
      SelectionLayout();
    }
    assert cleaned.columns == front + ["Nombre"];
    FindFirst(cleaned.columns, "Nombre", |front|);
    assert indexed.columns == front;
  }

  /**
    Lines 20-22 on frames: once the cleaned `Nombre` column has become the
    index and been copied back, the index and `Nombre` hold the cleaned
    labels and the point columns are as json_normalize made them.
  */
  lemma LabelIndexed(ts: seq<RawTable>, cleaned: Frame, indexed: Frame, copied: Frame)
    requires ts != [] && cleaned.WellFormed() && |cleaned.index| == |Flatten(ts)|
    requires cleaned == WithColumn(Normalized(ts), "Nombre", TextCells(Labels(Flatten(ts))))
    requires IndexedBy(cleaned, "Nombre") == Success(indexed)
    requires copied == WithColumn(indexed, "Nombre", indexed.index)
    ensures copied.index == TextCells(Labels(Flatten(ts)))
    ensures Column(copied, "Nombre") == Some(TextCells(Labels(Flatten(ts))))
    ensures forall k :: 0 <= k < |PointColumns| ==> Column(copied, PointColumns[k]) == Column(Normalized(ts), PointColumns[k])
  {
    SelectionLayout();
  }

  /**
    Lines 20-22: clean the labels, make them the index, and copy the index
    back into a `Nombre` column. The point columns are left as they were.
  */
  method IndexByLabel(df: DataFrame, ghost ts: seq<RawTable>)
    requires ts != [] && df.Valid() && df.Snapshot() == Normalized(ts)
    modifies df
    ensures df.Valid() && df.index == TextCells(Labels(Flatten(ts))) && df.columns == old(df.columns)
    ensures Column(df.Snapshot(), "Nombre") == Some(TextCells(Labels(Flatten(ts))))
    ensures forall k :: 0 <= k < |PointColumns| ==>
      Column(df.Snapshot(), PointColumns[k]) == Column(old(df.Snapshot()), PointColumns[k])
  {
    // line 20: clean the labels in place
    var nombre := df.Get("Nombre");
    CleanedNombre(Flatten(ts));
    df.SetColumn("Nombre", CleanCells(nombre.value));
    ghost var cleaned := df.Snapshot();
    // line 21: the labels become the index
    var err := df.SetIndex("Nombre");
    assert err.None?;
    ghost var indexed := df.Snapshot();
    // line 22: the index is copied back into a column
    df.SetColumn("Nombre", df.index);
    LabelIndexed(ts, cleaned, indexed, df.Snapshot());
    LabelColumnsKept(ts, cleaned, indexed, df.Snapshot());
  }

  /**
    Lines 23-24: split the `Nombre` column at its first four dots into the
    five label columns, then tidy the quintile. ValueError, and no change,
    unless the split is five columns wide. The other columns and the index
    are left as they were.
  */
  method SplitNombre(df: DataFrame, ghost labels: seq<string>) returns (parts: seq<seq<Cell>>, err: Option<Error>)
    requires df.Valid() && Column(df.Snapshot(), "Nombre") == Some(TextCells(labels))
    modifies df
    ensures parts == SplitCells(TextCells(labels)) && |parts| == Width(Splits(labels))
    ensures df.Valid() && df.index == old(df.index)
    ensures err.Some? <==> |parts| != |LabelColumns|
    ensures err.Some? ==> err.value == ColumnCountMismatch(|LabelColumns|, |parts|) && df.Snapshot() == old(df.Snapshot())
    ensures err.None? ==> df.Snapshot() == SplitAssigned(old(df.Snapshot()), parts)
  {
    // line 23: assign the expanded split to the five label columns
    var named := df.Get("Nombre");
    parts := SplitCells(named.value);
    SplitWidth(labels);
    err := df.SetColumns(LabelColumns, parts);
    if err.Some? {
      return;
    }
    SplitAssignedColumns(old(df.Snapshot()), parts);
    // line 24: tidy the quintile column
    var quintil := df.Get("quintil");
    df.SetColumn("quintil", TidyCells(quintil.value));
  }

  /**
    Lines 19-28: flatten, clean `Nombre`, make it the index and copy it back,
    split it into the five label columns, tidy the quintile, drop `Nombre`,
    select and rename. The frame returned, or the exception raised, is the
    one Transform.Reshape describes.
  */
  method ReshapeFrame(ts: seq<RawTable>) returns (r: Result<DataFrame, Error>)
    ensures match Transform.Reshape(ts)
      case Failure(e) => r == Failure(e)
      case Success(t) => r.Success? && fresh(r.value) && r.value.Valid() && r.value.Snapshot() == TableFrame(t)
  {
    ghost var labels := Labels(Flatten(ts));
    // line 19: flatten the response
    var df := new DataFrame(Normalized(ts));
    if "Nombre" !in df.columns {
      // reading the missing `Nombre` column raises KeyError
      return Failure(MissingColumn("Nombre"));
    }
    IndexByLabel(df, ts);
    ghost var indexed := df.Snapshot();
    var parts, err := SplitNombre(df, labels);
    if err.Some? {
      ReshapeOnWidth(ts);
      return Failure(err.value);
    }
    ghost var t := Transform.Reshape(ts).value;
    ReshapeTable(ts);
    BeforeSelect(Flatten(ts), t.records, Normalized(ts), indexed, parts);
    // line 25: drop the label column
    err := df.Drop("Nombre");
    assert err.None?;
    // lines 26-27: keep the eight columns in order, then lower-case the point columns
    SelectRename(df.Snapshot(), t);
    var selected := df.Select(Selection);
    df := selected.value;
    df.Rename(Lowercase);
    r := Success(df);
  }

  /**
    `procesar_datos(data)`: None when there is no data or an empty list
    (lines 17-18); otherwise the frame of lines 19-28, or the exception
    they raise. This is what Transform.Process describes.
  */
  method ProcessData(data: Option<seq<RawTable>>) returns (r: Option<Result<DataFrame, Error>>)
    ensures r.None? <==> Process(data).NoFrame?
    ensures Process(data).Raised? ==> r == Some(Failure(Process(data).error))
    ensures Process(data).Produced? ==>
      && r.Some? && r.value.Success? && fresh(r.value.value) && r.value.value.Valid()
      && r.value.value.Snapshot() == TableFrame(Process(data).table)
  {
    if data.None? || data.value == [] {
      return None;
    }
    var result := ReshapeFrame(data.value);
    r := Some(result);
  }
}
