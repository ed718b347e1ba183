/**
  The label-reshaping transform of table 24900 as a specification on values.

  The statistics API answers with a list of tables; each has a composite
  label `Nombre` and a list `Data` of points (`Anyo`, `Valor`, `Secreto`).
  `procesar_datos` turns that into one row per point with the eight columns
  `indice, dato, tipo_dato, descripcion, quintil, anyo, valor, secreto`, the
  first five cut out of the cleaned label. This module says, row by row,
  what the resulting frame holds; the DataFrame steps that compute it are in
  module Pipeline and are proved to agree with Reshape and Process here.
*/
module Transform {
  import opened Wrappers
  import opened Text
  import Frames

  /** One element of a table's `Data`: year, value (null allowed) and the secrecy flag. */
  datatype Point = Point(anyo: int, valor: Option<real>, secreto: bool)

  /** One element of the API response: a composite label and its points. */
  datatype RawTable = RawTable(nombre: string, data: seq<Point>)

  /** A row of the flattened frame: one point, tagged with its table's label. */
  datatype FlatRow = FlatRow(nombre: string, point: Point)

  /** A row of the frame `procesar_datos` returns, fields in the order of Schema. */
  datatype Record = Record(
    indice: Option<string>,
    dato: Option<string>,
    tipoDato: Option<string>,
    descripcion: Option<string>,
    quintil: Option<string>,
    anyo: int,
    valor: Option<real>,
    secreto: bool)

  /** The returned frame: its row index (the cleaned labels, left there by set_index) and its rows. */
  datatype Table = Table(index: seq<string>, records: seq<Record>)

  /** The exceptions the transform can raise: pandas' KeyError and ValueError. */
  type Error = Frames.Error

  /** What `procesar_datos` ends with: None, an exception, or the frame. */
  datatype Outcome = NoFrame | Raised(error: Error) | Produced(table: Table)

  /** The literal cut out of every label. */
  const BasePrefix: string := "Base 2006. Anual."

  /** The characters Python's `str.strip()` cuts: those for which `str.isspace()` holds. */
  const Whitespace: set<char> := {
    '\t', '\n', '\U{0B}', '\U{0C}', '\r', '\U{1C}', '\U{1D}', '\U{1E}', '\U{1F}', ' ',
    '\U{85}', '\U{A0}', '\U{1680}',
    '\U{2000}', '\U{2001}', '\U{2002}', '\U{2003}', '\U{2004}', '\U{2005}',
    '\U{2006}', '\U{2007}', '\U{2008}', '\U{2009}', '\U{200A}',
    '\U{2028}', '\U{2029}', '\U{202F}', '\U{205F}', '\U{3000}'
  }

  /** The separator of the label's parts, and the number of cuts made. */
  const Dot: char := '.'
  const MaxSplit: nat := 4

  /** The columns the label is split into, and the columns of the result. */
  const LabelColumns: seq<string> := ["indice", "dato", "tipo_dato", "descripcion", "quintil"]
  const Schema: seq<string> := LabelColumns + ["anyo", "valor", "secreto"]

  // ---------------------------------------------------------------------
  // Flattening: json_normalize over each table's `Data`, `Nombre` as meta
  // ---------------------------------------------------------------------

  /** The number of points in all tables. */
  function TotalPoints(ts: seq<RawTable>): nat {
    if ts == [] then 0 else |ts[0].data| + TotalPoints(ts[1..])
  }

  /** The rows of one table: each of its points with the table's label. */
  function Tag(t: RawTable): seq<FlatRow> {
    seq(|t.data|, j requires 0 <= j < |t.data| => FlatRow(t.nombre, t.data[j]))
  }

  /** One row per point, tables in order and, inside a table, points in order. */
  function Flatten(ts: seq<RawTable>): (rows: seq<FlatRow>)
    ensures |rows| == TotalPoints(ts)
  {
    if ts == [] then [] else Tag(ts[0]) + Flatten(ts[1..])
  }

  /**
    Point `j` of table `i` becomes the row right after all points of the
    tables before it, and carries table `i`'s label.
  */
  lemma {:induction false} FlattenAt(ts: seq<RawTable>, i: nat, j: nat)
    requires i < |ts| && j < |ts[i].data|
    ensures TotalPoints(ts[..i]) + j < |Flatten(ts)|
    ensures Flatten(ts)[TotalPoints(ts[..i]) + j] == FlatRow(ts[i].nombre, ts[i].data[j])
  {
    if i == 0 {
      assert ts[..0] == [];
    } else {
      FlattenAt(ts[1..], i - 1, j);
      assert ts[..i][1..] == ts[1..][..i - 1];
      assert ts[..i][0] == ts[0];
    }
  }

  /** Flattening works table by table: the rows of `a + b` are those of `a`, then those of `b`. */
  lemma {:induction false} FlattenAppend(a: seq<RawTable>, b: seq<RawTable>)
    ensures Flatten(a + b) == Flatten(a) + Flatten(b)
  {
    if a == [] {
      assert a + b == b;
    } else {
      var tail := a[1..];
      FlattenAppend(tail, b);
      FlattenAppendStep(a, b, tail);
    }
  }

  /** The step of FlattenAppend: the first table's rows come first on both sides. */
  lemma FlattenAppendStep(a: seq<RawTable>, b: seq<RawTable>, tail: seq<RawTable>)
    requires a != [] && tail == a[1..] && Flatten(tail + b) == Flatten(tail) + Flatten(b)
    ensures Flatten(a + b) == Flatten(a) + Flatten(b)
  {
    TablesCons(a, b, tail);
    FlattenCons(a + b);
    FlattenCons(a);
    RowsAssociate(Tag(a[0]), Flatten(tail), Flatten(b));
  }

  lemma TablesCons(a: seq<RawTable>, b: seq<RawTable>, tail: seq<RawTable>)
    requires a != [] && tail == a[1..]
    ensures a + b != [] && (a + b)[0] == a[0] && (a + b)[1..] == tail + b
  {
  }

  /** Flatten unfolded once: the first table's rows, then the rest. */
  lemma FlattenCons(ts: seq<RawTable>)
    requires ts != []
    ensures Flatten(ts) == Tag(ts[0]) + Flatten(ts[1..])
  {
  }

  lemma RowsAssociate(x: seq<FlatRow>, y: seq<FlatRow>, z: seq<FlatRow>)
    ensures x + (y + z) == (x + y) + z
  {
  }

  // ---------------------------------------------------------------------
  // Cleaning the label: every BasePrefix removed, then whitespace trimmed
  // ---------------------------------------------------------------------

  /** The label with every occurrence of BasePrefix removed, then whitespace trimmed. */
  function CleanLabel(nombre: string): (text: string)
    ensures text == [] || (text[0] !in Whitespace && text[|text| - 1] !in Whitespace)
  {
    Strip(RemoveAll(nombre, BasePrefix), Whitespace)
  }

  /**
    A label that starts with BasePrefix and holds it nowhere else is cleaned
    to its rest, whitespace trimmed.
  */
  lemma CleanLabelDropsPrefix(rest: string)
    requires !Contains(rest, BasePrefix)
    ensures CleanLabel(BasePrefix + rest) == Strip(rest, Whitespace)
  {
    var s := BasePrefix + rest;
    assert StartsWith(s, BasePrefix) && s[|BasePrefix|..] == rest;
    RemoveAllWithoutOccurrence(rest, BasePrefix);
  }

  /** Cleaning a cleaned label changes nothing more when the prefix is gone. */
  lemma CleanLabelIdempotent(nombre: string)
    requires !Contains(CleanLabel(nombre), BasePrefix)
    ensures CleanLabel(CleanLabel(nombre)) == CleanLabel(nombre)
  {
    var text := CleanLabel(nombre);
    RemoveAllWithoutOccurrence(text, BasePrefix);
    StripIdempotent(RemoveAll(nombre, BasePrefix), Whitespace);
  }

  // ---------------------------------------------------------------------
  // Splitting the label at its first four dots
  // ---------------------------------------------------------------------

  /** The fields of one label, as split(expand=True) lays them out in a five-column batch. */
  function Padded(fields: seq<string>, width: nat): (cells: seq<Option<string>>)
    requires |fields| <= width
  {
    seq(width, k requires 0 <= k < width => if k < |fields| then Some(fields[k]) else None)
  }

  /** The five label columns of one row: the fields of the cleaned label, None past its last field. */
  function SplitLabel(text: string): (cells: seq<Option<string>>)
    ensures |cells| == |LabelColumns| && cells[0].Some?
  {
    Padded(SplitN(text, Dot, MaxSplit), |LabelColumns|)
  }

  /** The values in front of the first None. */
  function Present(cells: seq<Option<string>>): seq<string> {
    if cells == [] || cells[0].None? then [] else [cells[0].value] + Present(cells[1..])
  }

  lemma {:induction false} PresentOfPadded(fields: seq<string>, width: nat)
    requires |fields| <= width
    ensures Present(Padded(fields, width)) == fields
    decreases width
  {
    var cells := Padded(fields, width);
    if fields != [] {
      assert cells[1..] == Padded(fields[1..], width - 1);
      PresentOfPadded(fields[1..], width - 1);
      assert fields == [fields[0]] + fields[1..];
    } else if width > 0 {
      assert cells[0] == None;
    }
  }

  /**
    The split cuts at the leftmost four dots only: the present fields join
    back, with dots, to the label; every field but the last holds no dot;
    and a label with fewer than four dots leaves the remaining columns None.
  */
  lemma SplitLabelSpec(text: string)
    ensures var fields := Present(SplitLabel(text));
      && 1 <= |fields| <= |LabelColumns|
      && JoinWith(fields, [Dot]) == text
      && (forall k :: 0 <= k < |fields| - 1 ==> Dot !in fields[k])
      && |fields| == Min(multiset(text)[Dot], MaxSplit) + 1
      && (|fields| < |LabelColumns| ==> Dot !in fields[|fields| - 1])
      && (forall k :: |fields| <= k < |LabelColumns| ==> SplitLabel(text)[k] == None)
  {
    var fs := SplitN(text, Dot, MaxSplit);
    PresentOfPadded(fs, |LabelColumns|);
    SplitNSpec(text, Dot, MaxSplit);
  }

  /**
    The other direction: a label put together from one to five parts (the
    first four, and a last one short of five, without dots) splits back into
    exactly those parts, with None after them.
  */
  lemma SplitLabelOfParts(parts: seq<string>)
    requires 1 <= |parts| <= |LabelColumns|
    requires forall k :: 0 <= k < |parts| - 1 ==> Dot !in parts[k]
    requires |parts| < |LabelColumns| ==> Dot !in parts[|parts| - 1]
    ensures forall k :: 0 <= k < |LabelColumns| ==>
      SplitLabel(JoinWith(parts, [Dot]))[k] == if k < |parts| then Some(parts[k]) else None
  {
    SplitNJoin(parts, Dot, MaxSplit);
  }

  // ---------------------------------------------------------------------
  // Tidying the quintile: dots trimmed, an empty result made None
  // ---------------------------------------------------------------------

  /** Dots cut from both ends; what is left empty becomes None; None stays None. */
  function TidyQuintil(q: Option<string>): (r: Option<string>)
    ensures q.None? ==> r.None?
    ensures r.Some? ==> r.value != [] && r.value[0] != Dot && r.value[|r.value| - 1] != Dot
  {
    match q
    case None => None
    case Some(s) =>
      var t := Strip(s, {Dot});
      if t == [] then None else Some(t)
  }

  /**
    A quintile becomes None exactly when it is made of dots only; otherwise
    it is the stretch of it between the leading and trailing dots.
  */
  lemma TidyQuintilSpec(s: string)
    ensures TidyQuintil(Some(s)).None? <==> forall k :: 0 <= k < |s| ==> s[k] == Dot
    ensures TidyQuintil(Some(s)).Some? ==>
      exists i, j :: 0 <= i <= j <= |s| && TidyQuintil(Some(s)).value == s[i..j]
        && (forall k :: 0 <= k < i ==> s[k] == Dot) && (forall k :: j <= k < |s| ==> s[k] == Dot)
  {
    StripEmptyIff(s, {Dot});
    var i, j := StripBounds(s, {Dot});
  }

  /** Tidying a tidied quintile changes nothing. */
  lemma TidyQuintilIdempotent(q: Option<string>)
    ensures TidyQuintil(TidyQuintil(q)) == TidyQuintil(q)
  {
    if q.Some? {
      StripIdempotent(q.value, {Dot});
    }
  }

  // ---------------------------------------------------------------------
  // One row of the result
  // ---------------------------------------------------------------------

  /** The row of the result for one flattened row. */
  function ToRecord(row: FlatRow): (r: Record)
    ensures r.anyo == row.point.anyo && r.valor == row.point.valor && r.secreto == row.point.secreto
    ensures r.indice.Some?
  {
    var cells := SplitLabel(CleanLabel(row.nombre));
    Record(cells[0], cells[1], cells[2], cells[3], TidyQuintil(cells[4]),
           row.point.anyo, row.point.valor, row.point.secreto)
  }

  /** A cleaned label of four dot-free parts gives those four fields and no quintile. */
  lemma RecordOfFourParts(row: FlatRow, a: string, b: string, c: string, d: string)
    requires Dot !in a && Dot !in b && Dot !in c && Dot !in d
    requires CleanLabel(row.nombre) == JoinWith([a, b, c, d], [Dot])
    ensures ToRecord(row) == Record(Some(a), Some(b), Some(c), Some(d), None,
                                    row.point.anyo, row.point.valor, row.point.secreto)
  {
    SplitLabelOfParts([a, b, c, d]);
  }

  /**
    A cleaned label of four dot-free parts and a rest gives those four
    fields, and the rest, tidied, as quintile.
  */
  lemma RecordOfFiveParts(row: FlatRow, a: string, b: string, c: string, d: string, e: string)
    requires Dot !in a && Dot !in b && Dot !in c && Dot !in d
    requires CleanLabel(row.nombre) == JoinWith([a, b, c, d, e], [Dot])
    ensures ToRecord(row) == Record(Some(a), Some(b), Some(c), Some(d), TidyQuintil(Some(e)),
                                    row.point.anyo, row.point.valor, row.point.secreto)
  {
    SplitLabelOfParts([a, b, c, d, e]);
  }

  // ---------------------------------------------------------------------
  // The whole transform
  // ---------------------------------------------------------------------

  /** The widest split in a batch: the number of columns split(expand=True) returns. */
  function Width(splits: seq<seq<string>>): (w: nat)
    ensures forall i :: 0 <= i < |splits| ==> |splits[i]| <= w
    ensures splits == [] ==> w == 0
    ensures splits != [] ==> exists i :: 0 <= i < |splits| && |splits[i]| == w
  {
    if splits == [] then 0
    else
      var rest := Width(splits[1..]);
      assert forall i :: 1 <= i < |splits| ==> splits[i] == splits[1..][i - 1];
      if |splits[0]| >= rest then |splits[0]| else rest
  }

  /** The cleaned label of every row: the frame's index after set_index('Nombre'). */
  function Labels(rows: seq<FlatRow>): (labels: seq<string>)
    ensures |labels| == |rows|
  {
    seq(|rows|, i requires 0 <= i < |rows| => CleanLabel(rows[i].nombre))
  }

  /** The row of the result for each flattened row. */
  function Records(rows: seq<FlatRow>): (records: seq<Record>)
    ensures |records| == |rows|
  {
    seq(|rows|, i requires 0 <= i < |rows| => ToRecord(rows[i]))
  }

  /** The split of every cleaned label. */
  function Splits(labels: seq<string>): (splits: seq<seq<string>>)
    ensures |splits| == |labels|
  {
    seq(|labels|, i requires 0 <= i < |labels| => SplitN(labels[i], Dot, MaxSplit))
  }

  /**
    Lines 19-28 of the optimised script (and the script's own copy): flatten,
    clean the labels, split them into the five label columns, tidy the
    quintile and keep the eight columns of Schema. json_normalize of an empty
    list has no `Nombre` column; the five-column assignment raises unless some
    label of the batch splits into five fields.
  */
  function Reshape(ts: seq<RawTable>): (r: Result<Table, Error>)
    ensures r.Success? ==> |r.value.index| == |r.value.records| == TotalPoints(ts)
  {
    if ts == [] then Failure(Frames.MissingColumn("Nombre"))
    else
      var rows := Flatten(ts);
      var labels := Labels(rows);
      var width := Width(Splits(labels));
      if width != |LabelColumns| then Failure(Frames.ColumnCountMismatch(|LabelColumns|, width))
      else Success(Table(labels, Records(rows)))
  }

  /** `procesar_datos`: no frame for missing or empty data, otherwise Reshape. */
  function Process(data: Option<seq<RawTable>>): (r: Outcome)
    ensures r.NoFrame? <==> data.None? || data.value == []
    ensures r.Produced? ==> |r.table.index| == |r.table.records| == TotalPoints(data.value)
  {
    if data.None? || data.value == [] then NoFrame
    else
      match Reshape(data.value)
      case Failure(e) => Raised(e)
      case Success(t) => Produced(t)
  }

  /** A batch of splits is five wide exactly when one of them has five fields. */
  lemma WidthFive(splits: seq<seq<string>>)
    requires forall i :: 0 <= i < |splits| ==> |splits[i]| <= |LabelColumns|
    ensures Width(splits) == |LabelColumns| <==> exists i :: 0 <= i < |splits| && |splits[i]| == |LabelColumns|
  {
  }

  /** A cleaned label fills all five label columns: it holds at least four dots. */
  predicate FillsQuintil(text: string) {
    multiset(text)[Dot] >= MaxSplit
  }

  /** The labels of a batch split five wide exactly when one of them fills the quintile column. */
  lemma {:induction false} SplitsWidthFive(labels: seq<string>)
    ensures Width(Splits(labels)) == |LabelColumns| <==> exists i :: 0 <= i < |labels| && FillsQuintil(labels[i])
    ensures Width(Splits(labels)) <= |LabelColumns|
  {
    var splits := Splits(labels);
    forall i | 0 <= i < |labels|
      ensures |splits[i]| <= |LabelColumns|
      ensures |splits[i]| == |LabelColumns| <==> FillsQuintil(labels[i])
    {
      SplitNCount(labels[i], Dot, MaxSplit);
    }
    WidthFive(splits);
    if splits != [] {
      var i :| 0 <= i < |splits| && |splits[i]| == Width(splits);
    }
  }

  /** A nonempty input fails exactly on a batch that is not five wide, and then with the width found. */
  lemma ReshapeOnWidth(ts: seq<RawTable>)
    requires ts != []
    ensures var w := Width(Splits(Labels(Flatten(ts))));
      && (Reshape(ts).Failure? <==> w != |LabelColumns|)
      && (Reshape(ts).Failure? ==> Reshape(ts).error == Frames.ColumnCountMismatch(|LabelColumns|, w))
  {
  }

  /**
    The transform fails exactly when the input is empty (no `Nombre` column)
    or no cleaned label has four dots (no label fills the fifth column).
  */
  lemma ReshapeFailsIff(ts: seq<RawTable>)
    ensures Reshape(ts).Failure? <==>
      ts == [] || forall i :: 0 <= i < |Flatten(ts)| ==> !FillsQuintil(CleanLabel(Flatten(ts)[i].nombre))
    ensures ts != [] && Reshape(ts).Failure? ==>
      Reshape(ts).error.ColumnCountMismatch? && Reshape(ts).error.columns < |LabelColumns|
  {
    if ts != [] {
      var rows := Flatten(ts);
      var labels := Labels(rows);
      SplitsWidthFive(labels);
      ReshapeOnWidth(ts);
      assert forall i :: 0 <= i < |rows| ==> labels[i] == CleanLabel(rows[i].nombre);
    }
  }

  /** A produced frame: the cleaned labels as index and one row per flattened row, the batch five wide. */
  lemma ReshapeTable(ts: seq<RawTable>)
    requires Reshape(ts).Success?
    ensures ts != [] && Width(Splits(Labels(Flatten(ts)))) == |LabelColumns|
    ensures Reshape(ts).value.index == Labels(Flatten(ts))
    ensures |Reshape(ts).value.records| == |Flatten(ts)|
    ensures forall i :: 0 <= i < |Flatten(ts)| ==> Reshape(ts).value.records[i] == ToRecord(Flatten(ts)[i])
  {
    ReshapeOnWidth(ts);
  }

  /**
    Row `k` of a produced frame comes from flattened row `k`: its index
    entry is that row's cleaned label and the row is ToRecord of it.
  */
  lemma ReshapeRows(ts: seq<RawTable>, k: nat)
    requires Reshape(ts).Success? && k < TotalPoints(ts)
    ensures Reshape(ts).value.index[k] == CleanLabel(Flatten(ts)[k].nombre)
    ensures Reshape(ts).value.records[k] == ToRecord(Flatten(ts)[k])
  {
  }

  /**
    Point `j` of table `i` is row TotalPoints(ts[..i]) + j of a produced
    frame: rows follow table order, then point order, and each carries its
    own table's label and its own point's year, value and flag.
  */
  lemma ReshapeOrder(ts: seq<RawTable>, i: nat, j: nat)
    requires Reshape(ts).Success? && i < |ts| && j < |ts[i].data|
    ensures var k := TotalPoints(ts[..i]) + j;
      && k < |Reshape(ts).value.records|
      && Reshape(ts).value.index[k] == CleanLabel(ts[i].nombre)
      && Reshape(ts).value.records[k] == ToRecord(FlatRow(ts[i].nombre, ts[i].data[j]))
  {
    FlattenAt(ts, i, j);
    ReshapeRows(ts, TotalPoints(ts[..i]) + j);
  }

  /** A string that neither starts nor ends with a character of `cs` is its own strip. */
  lemma StripUntrimmed(s: string, cs: set<char>)
    requires s != [] && s[0] !in cs && s[|s| - 1] !in cs
    ensures Strip(s, cs) == s
  {
    assert s[LeadCount(s, cs)..] == s;
  }

  /** The label of the worked example is cleaned to what follows BasePrefix. */
  lemma ExampleClean(rest: string)
    requires rest == "1.2.3.4.Total."
    ensures CleanLabel(BasePrefix + rest) == rest
  {
    ShortContainsNothing(rest, BasePrefix);
    CleanLabelDropsPrefix(rest);
    ExampleUntrimmed(rest);
  }

  /** Text shorter than a pattern does not contain it. */
  lemma ShortContainsNothing(s: string, pat: string)
    requires |s| < |pat|
    ensures !Contains(s, pat)
  {
  }

  /** The cleaned label of the worked example has no whitespace to trim. */
  lemma ExampleUntrimmed(rest: string)
    requires rest == "1.2.3.4.Total."
    ensures Strip(rest, Whitespace) == rest
  {
    assert rest[0] == '1' && rest[|rest| - 1] == Dot;
    StripUntrimmed(rest, Whitespace);
  }

  /** The cleaned label of the worked example is five parts joined by dots. */
  lemma ExampleParts(rest: string)
    requires rest == "1.2.3.4.Total."
    ensures rest == JoinWith(["1", "2", "3", "4", "Total."], [Dot])
  {
    JoinWithCons("1", ["2", "3", "4", "Total."], [Dot]);
    JoinWithCons("2", ["3", "4", "Total."], [Dot]);
    JoinWithCons("3", ["4", "Total."], [Dot]);
    JoinWithCons("4", ["Total."], [Dot]);
  }

  /** The cleaned label of the worked example splits into five fields. */
  lemma ExampleSplit(rest: string)
    requires rest == "1.2.3.4.Total."
    ensures |SplitN(rest, Dot, MaxSplit)| == |LabelColumns|
  {
    var parts := ["1", "2", "3", "4", "Total."];
    assert forall k :: 0 <= k < |parts| - 1 ==> |parts[k]| == 1 && parts[k][0] != Dot;
    ExampleParts(rest);
    SplitNJoin(parts, Dot, MaxSplit);
  }

  /** The quintile of the worked example loses its trailing dot. */
  lemma ExampleQuintil(q: string)
    requires q == "Total."
    ensures TidyQuintil(Some(q)) == Some("Total")
  {
    assert LeadCount(q, {Dot}) == 0;
    assert q[0..] == q;
    var t := q[..|q| - 1];
    assert t == "Total";
    assert TrailCount(t, {Dot}) == 0;
    assert TrailCount(q, {Dot}) == 1;
  }

  /** The row of the worked example. */
  lemma ExampleRecord(rest: string, p: Point)
    requires rest == "1.2.3.4.Total."
    ensures ToRecord(FlatRow(BasePrefix + rest, p))
      == Record(Some("1"), Some("2"), Some("3"), Some("4"), Some("Total"), p.anyo, p.valor, p.secreto)
  {
    ExampleClean(rest);
    ExampleParts(rest);
    ExampleQuintil("Total.");
    RecordOfFiveParts(FlatRow(BasePrefix + rest, p), "1", "2", "3", "4", "Total.");
  }

  /** A single table with a single point flattens to a single row. */
  lemma FlattenSingle(t: RawTable, p: Point, row: FlatRow)
    requires t.data == [p] && row == FlatRow(t.nombre, p)
    ensures Flatten([t]) == [row]
  {
    var ts := [t];
    FlattenCons(ts);
    assert ts[1..] == [];
    assert Tag(t) == [row];
  }

  /** A single row is five wide when its label splits five wide. */
  lemma SingleWidth(row: FlatRow)
    requires |SplitN(CleanLabel(row.nombre), Dot, MaxSplit)| == |LabelColumns|
    ensures Labels([row]) == [CleanLabel(row.nombre)]
    ensures Width(Splits(Labels([row]))) == |LabelColumns|
    ensures Records([row]) == [ToRecord(row)]
  {
    var text := CleanLabel(row.nombre);
    assert Labels([row]) == [text];
    SplitNCount(text, Dot, MaxSplit);
    SplitsWidthFive([text]);
    assert Records([row]) == [ToRecord(row)];
  }

  /** A single table with a single point gives a single row, when its label splits five wide. */
  lemma ProcessSingle(t: RawTable, p: Point, row: FlatRow)
    requires t.data == [p] && row == FlatRow(t.nombre, p)
    requires |SplitN(CleanLabel(t.nombre), Dot, MaxSplit)| == |LabelColumns|
    ensures Process(Some([t])) == Produced(Table([CleanLabel(t.nombre)], [ToRecord(row)]))
  {
    FlattenSingle(t, p, row);
    SingleWidth(row);
    ReshapeOnWidth([t]);
  }

  /**
    The worked example: one table labelled "Base 2006. Anual.1.2.3.4.Total."
    with one point becomes one row with the five parts, the trailing dot of
    the quintile gone, and the point's year, value and flag.
  */
  lemma WorkedExample(rest: string, p: Point)
    requires rest == "1.2.3.4.Total."
    ensures Process(Some([RawTable(BasePrefix + rest, [p])]))
      == Produced(Table([rest],
                        [Record(Some("1"), Some("2"), Some("3"), Some("4"), Some("Total"), p.anyo, p.valor, p.secreto)]))
  {
    ExampleClean(rest);
    ExampleSplit(rest);
    ExampleRecord(rest, p);
    ProcessSingle(RawTable(BasePrefix + rest, [p]), p, FlatRow(BasePrefix + rest, p));
  }
}
