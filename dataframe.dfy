/**
  The part of a pandas DataFrame that `procesar_datos` touches: labelled
  columns of cells over a row index, and the column operations it calls
  (`df[name]`, `df[name] = col`, `set_index`, `df[keys] = cols`, `drop`,
  `df[keys]`, `rename`).

  `Frame` is the frame as a value and its operations are pure functions
  with their contracts; `DataFrame` is the mutable object the script works
  on, whose methods change it in place and are proved against them.
*/
module Frames {
  import opened Wrappers

  /** A cell: a string, a number, a flag, or a missing value (None / NaN). */
  datatype Cell = Str(text: string) | Int(number: int) | Real(amount: real) | Bool(flag: bool) | Null

  /** The exceptions pandas raises in these operations. */
  datatype Error =
    | MissingColumn(name: string)                 // KeyError
    | ColumnCountMismatch(keys: nat, columns: nat) // ValueError: "Columns must be same length as key"

  /** A frame as a value: column labels, the cells of each column, and the row index. */
  datatype Frame = Frame(columns: seq<string>, values: seq<seq<Cell>>, index: seq<Cell>)
  {
    /** One cell sequence per label, each as long as the index. */
    ghost predicate WellFormed() {
      |values| == |columns| && forall j :: 0 <= j < |values| ==> |values[j]| == |index|
    }
  }

  /** The position of the first label equal to `key`: how pandas looks a column up. */
  function Find(names: seq<string>, key: string): (r: Option<nat>)
    ensures r.None? <==> key !in names
    ensures r.Some? ==> r.value < |names| && names[r.value] == key && key !in names[..r.value]
  {
    if names == [] then None
    else if names[0] == key then Some(0)
    else
      match Find(names[1..], key)
      case None => None
      case Some(j) =>
        assert names[..j + 1] == [names[0]] + names[1..][..j];
        Some(j + 1)
  }

  /** Find is pinned down by its contract: any first occurrence is the one it returns. */
  lemma FindFirst(names: seq<string>, key: string, j: nat)
    requires j < |names| && names[j] == key && key !in names[..j]
    ensures Find(names, key) == Some(j)
  {
  }

  /** The sequence without its element at `j`. */
  function RemoveAt<T>(s: seq<T>, j: nat): (r: seq<T>)
    requires j < |s|
    ensures |r| == |s| - 1
    ensures forall i :: 0 <= i < j ==> r[i] == s[i]
    ensures forall i :: j <= i < |r| ==> r[i] == s[i + 1]
  {
    s[..j] + s[j + 1..]
  }

  /** Removing a label other than `key` keeps the first `key` where it was, shifted past the gap. */
  lemma FindRemoveAt(names: seq<string>, j: nat, key: string)
    requires j < |names| && names[j] != key
    ensures var r := Find(RemoveAt(names, j), key);
      match Find(names, key)
      case None => r.None?
      case Some(i) => r == Some(if i < j then i else i - 1)
  {
    var rest := RemoveAt(names, j);
    match Find(names, key)
    case None =>
      assert key !in rest;
    case Some(i) =>
      var k := if i < j then i else i - 1;
      assert rest[k] == key;
      forall m | 0 <= m < k ensures rest[..k][m] != key {
        assert m < j ==> rest[m] == names[..i][m];
        assert m >= j ==> rest[m] == names[..i][m + 1];
      }
      FindFirst(rest, key, k);
  }

  /** Appending a label other than `key` does not move the first `key`. */
  lemma FindAppend(names: seq<string>, name: string, key: string)
    requires name != key
    ensures Find(names + [name], key) == Find(names, key)
  {
    var all := names + [name];
    match Find(names, key)
    case None =>
      assert key !in all;
    case Some(i) =>
      assert all[..i] == names[..i];
      FindFirst(all, key, i);
  }

  /** `df[name]`: the cells of the first column called `name`, None when there is none. */
  function Column(f: Frame, name: string): (r: Option<seq<Cell>>)
    requires f.WellFormed()
    ensures r.None? <==> name !in f.columns
    ensures r.Some? ==> |r.value| == |f.index|
  {
    match Find(f.columns, name)
    case None => None
    case Some(j) => Some(f.values[j])
  }

  /**
    `df[name] = col`: the first column called `name` gets the new cells, or
    a column of that name is appended. Reading it back gives the new cells;
    every other column and the index stay as they were.
  */
  function WithColumn(f: Frame, name: string, col: seq<Cell>): (g: Frame)
    requires f.WellFormed() && |col| == |f.index|
    ensures g.WellFormed() && g.index == f.index
    ensures g.columns == if name in f.columns then f.columns else f.columns + [name]
    ensures Column(g, name) == Some(col)
    ensures forall other :: other != name ==> Column(g, other) == Column(f, other)
  {
    match Find(f.columns, name)
    case Some(j) =>
      var g := Frame(f.columns, f.values[j := col], f.index);
      ColumnReplaced(f, name, col, j, g);
      g
    case None =>
      var g := Frame(f.columns + [name], f.values + [col], f.index);
      ColumnAppended(f, name, col, g);
      g
  }

  /** Replacing the cells of the first column called `name`: it reads the new cells, the others as before. */
  lemma ColumnReplaced(f: Frame, name: string, col: seq<Cell>, j: nat, g: Frame)
    requires f.WellFormed() && |col| == |f.index| && Find(f.columns, name) == Some(j)
    requires g == Frame(f.columns, f.values[j := col], f.index)
    ensures g.WellFormed() && Column(g, name) == Some(col)
    ensures forall other :: other != name ==> Column(g, other) == Column(f, other)
  {
  }

  /** Appending a column called `name` that was not there: it reads the new cells, the others as before. */
  lemma ColumnAppended(f: Frame, name: string, col: seq<Cell>, g: Frame)
    requires f.WellFormed() && |col| == |f.index| && name !in f.columns
    requires g == Frame(f.columns + [name], f.values + [col], f.index)
    ensures g.WellFormed() && Column(g, name) == Some(col)
    ensures forall other :: other != name ==> Column(g, other) == Column(f, other)
  {
    FindFirst(g.columns, name, |f.columns|);
    assert g.columns[..|f.columns|] == f.columns;
    forall other | other != name ensures Column(g, other) == Column(f, other) {
      FindAppend(f.columns, name, other);
      match Find(f.columns, other)
      case None =>
      case Some(i) => assert g.values[i] == f.values[i];
    }
  }

  /** The frame without its column at `j`; every other name reads back as before. */
  function WithoutColumn(f: Frame, j: nat): (g: Frame)
    requires f.WellFormed() && j < |f.columns|
    ensures g.WellFormed() && g.index == f.index && g.columns == RemoveAt(f.columns, j)
    ensures forall other :: other != f.columns[j] ==> Column(g, other) == Column(f, other)
  {
    var g := Frame(RemoveAt(f.columns, j), RemoveAt(f.values, j), f.index);
    forall other | other != f.columns[j] ensures Column(g, other) == Column(f, other) {
      ColumnRemoveAt(f, j, g, other);
    }
    g
  }

  /** Removing column `j` leaves what another name reads. */
  lemma ColumnRemoveAt(f: Frame, j: nat, g: Frame, other: string)
    requires f.WellFormed() && j < |f.columns| && other != f.columns[j]
    requires g == Frame(RemoveAt(f.columns, j), RemoveAt(f.values, j), f.index)
    ensures g.WellFormed() && Column(g, other) == Column(f, other)
  {
    FindRemoveAt(f.columns, j, other);
    match Find(f.columns, other)
    case None =>
    case Some(i) =>
      var k := if i < j then i else i - 1;
      assert Find(g.columns, other) == Some(k);
      assert g.values[k] == f.values[i];
  }

  /**
    `df.set_index(name)`: the column becomes the row index and leaves the
    columns; KeyError when there is no such column.
  */
  function IndexedBy(f: Frame, name: string): (r: Result<Frame, Error>)
    requires f.WellFormed()
    ensures r.Failure? <==> name !in f.columns
    ensures r.Failure? ==> r.error == MissingColumn(name)
    ensures r.Success? ==> r.value.WellFormed() && Some(r.value.index) == Column(f, name)
    ensures r.Success? ==> r.value.columns == RemoveAt(f.columns, Find(f.columns, name).value)
    ensures r.Success? ==> forall other :: other != name ==> Column(r.value, other) == Column(f, other)
  {
    match Find(f.columns, name)
    case None => Failure(MissingColumn(name))
    case Some(j) =>
      var g := WithoutColumn(f, j);
      var h := Frame(g.columns, g.values, f.values[j]);
      assert forall other :: Column(h, other) == Column(g, other);
      Success(h)
  }

  /** `df.drop(columns=[name])`: the column goes; KeyError when there is none. */
  function Dropped(f: Frame, name: string): (r: Result<Frame, Error>)
    requires f.WellFormed()
    ensures r.Failure? <==> name !in f.columns
    ensures r.Failure? ==> r.error == MissingColumn(name)
    ensures r.Success? ==> r.value.WellFormed() && r.value.index == f.index
    ensures r.Success? ==> r.value.columns == RemoveAt(f.columns, Find(f.columns, name).value)
    ensures r.Success? ==> forall other :: other != name ==> Column(r.value, other) == Column(f, other)
  {
    match Find(f.columns, name)
    case None => Failure(MissingColumn(name))
    case Some(j) => Success(WithoutColumn(f, j))
  }

  /** `df[keys] = cols` with as many columns as keys: each key assigned in turn. */
  function Assigned(f: Frame, keys: seq<string>, cols: seq<seq<Cell>>): (g: Frame)
    requires f.WellFormed() && |cols| == |keys|
    requires forall k :: 0 <= k < |cols| ==> |cols[k]| == |f.index|
    ensures g.WellFormed() && g.index == f.index
    ensures forall other :: other !in keys ==> Column(g, other) == Column(f, other)
    decreases |keys|
  {
    if keys == [] then f
    else Assigned(WithColumn(f, keys[0], cols[0]), keys[1..], cols[1..])
  }

  /** Labels that are pairwise different. */
  predicate Distinct(names: seq<string>) {
    forall i, j :: 0 <= i < j < |names| ==> names[i] != names[j]
  }

  /** With distinct keys, every key reads back the cells assigned to it. */
  lemma {:induction false} AssignedReadsBack(f: Frame, keys: seq<string>, cols: seq<seq<Cell>>)
    requires f.WellFormed() && |cols| == |keys| && Distinct(keys)
    requires forall k :: 0 <= k < |cols| ==> |cols[k]| == |f.index|
    ensures forall k :: 0 <= k < |keys| ==> Column(Assigned(f, keys, cols), keys[k]) == Some(cols[k])
    decreases |keys|
  {
    if keys != [] {
      var g := WithColumn(f, keys[0], cols[0]);
      AssignedReadsBack(g, keys[1..], cols[1..]);
      forall k | 0 <= k < |keys| ensures Column(Assigned(f, keys, cols), keys[k]) == Some(cols[k]) {
        if k == 0 {
          assert keys[0] !in keys[1..];
        } else {
          assert keys[k] == keys[1..][k - 1];
        }
      }
    }
  }

  /**
    `df[keys]`: a new frame of the named columns, in the order of `keys`, on
    the same index; KeyError naming the first key that is not a column.
  */
  function Selected(f: Frame, keys: seq<string>): (r: Result<Frame, Error>)
    requires f.WellFormed()
    ensures r.Success? <==> forall k :: 0 <= k < |keys| ==> keys[k] in f.columns
    ensures r.Failure? ==> exists k :: FirstMissing(f, keys, k) && r.error == MissingColumn(keys[k])
    ensures r.Success? ==>
      && r.value.WellFormed() && r.value.columns == keys && r.value.index == f.index
      && forall k :: 0 <= k < |keys| ==> Some(r.value.values[k]) == Column(f, keys[k])
  {
    if keys == [] then Success(Frame([], [], f.index))
    else
      var rest := keys[1..];
      match Column(f, keys[0])
      case None =>
        assert FirstMissing(f, keys, 0);
        Failure(MissingColumn(keys[0]))
      case Some(c) =>
        match Selected(f, rest)
        case Failure(e) =>
          SelectedFailureStep(f, keys, rest, e);
          Failure(e)
        case Success(g) =>
          var h := Frame([keys[0]] + g.columns, [c] + g.values, f.index);
          SelectedSuccessStep(f, keys, rest, c, g, h);
          Success(h)
  }

  /** `keys[k]` is the first of `keys` that is not a column of `f`. */
  predicate FirstMissing(f: Frame, keys: seq<string>, k: int) {
    0 <= k < |keys| && keys[k] !in f.columns && forall i :: 0 <= i < k ==> keys[i] in f.columns
  }

  /** The first missing key of the tail, when the head is a column, is the first missing key. */
  lemma SelectedFailureStep(f: Frame, keys: seq<string>, rest: seq<string>, e: Error)
    requires keys != [] && rest == keys[1..] && keys[0] in f.columns
    requires exists k :: FirstMissing(f, rest, k) && e == MissingColumn(rest[k])
    ensures exists k :: FirstMissing(f, keys, k) && e == MissingColumn(keys[k])
    ensures !forall k :: 0 <= k < |keys| ==> keys[k] in f.columns
  {
    var k :| FirstMissing(f, rest, k) && e == MissingColumn(rest[k]);
    assert keys[k + 1] == rest[k];
    forall i | 0 <= i < k + 1
      ensures keys[i] in f.columns
    {
      if i > 0 {
        assert keys[i] == rest[i - 1];
      }
    }
    assert FirstMissing(f, keys, k + 1);
  }

  /** The selection of the tail, behind the head's column, is the selection of `keys`. */
  lemma SelectedSuccessStep(f: Frame, keys: seq<string>, rest: seq<string>, c: seq<Cell>, g: Frame, h: Frame)
    requires f.WellFormed() && keys != [] && rest == keys[1..] && Column(f, keys[0]) == Some(c)
    requires g.WellFormed() && g.columns == rest && g.index == f.index
    requires forall k :: 0 <= k < |rest| ==> Some(g.values[k]) == Column(f, rest[k])
    requires forall k :: 0 <= k < |rest| ==> rest[k] in f.columns
    requires h == Frame([keys[0]] + g.columns, [c] + g.values, f.index)
    ensures h.WellFormed() && h.columns == keys && h.index == f.index
    ensures forall k :: 0 <= k < |keys| ==> Some(h.values[k]) == Column(f, keys[k]) && keys[k] in f.columns
  {
    assert keys == [keys[0]] + rest;
    forall k | 0 < k < |keys|
      ensures Some(h.values[k]) == Column(f, keys[k]) && keys[k] in f.columns
    {
      assert keys[k] == rest[k - 1] && h.values[k] == g.values[k - 1];
    }
  }

  /** `df.rename(columns=m)`: every label found in `m` replaced by its image; the cells stay. */
  function Renamed(f: Frame, m: map<string, string>): (g: Frame)
    requires f.WellFormed()
    ensures g.WellFormed() && g.values == f.values && g.index == f.index && |g.columns| == |f.columns|
    ensures forall j :: 0 <= j < |f.columns| && f.columns[j] in m ==> g.columns[j] == m[f.columns[j]]
    ensures forall j :: 0 <= j < |f.columns| && f.columns[j] !in m ==> g.columns[j] == f.columns[j]
  {
    Frame(seq(|f.columns|, j requires 0 <= j < |f.columns| =>
      if f.columns[j] in m then m[f.columns[j]] else f.columns[j]), f.values, f.index)
  }

  /** The DataFrame object the script holds in `df` and changes in place. */
  class DataFrame {
    var columns: seq<string>
    var values: seq<seq<Cell>>
    var index: seq<Cell>

    /** The frame's current contents as a value. */
    function Snapshot(): Frame
      reads this
    {
      Frame(columns, values, index)
    }

    ghost predicate Valid()
      reads this
    {
      Snapshot().WellFormed()
    }

    constructor (f: Frame)
      requires f.WellFormed()
      ensures Valid() && Snapshot() == f
    {
      columns, values, index := f.columns, f.values, f.index;
    }

    /** The position of the first column called `name`, found by scanning the labels. */
    method Locate(name: string) returns (r: Option<nat>)
      ensures r == Find(columns, name)
    {
      var j := 0;
      while j < |columns| && columns[j] != name
        invariant 0 <= j <= |columns| && name !in columns[..j]
      {
        j := j + 1;
      }
      if j < |columns| {
        FindFirst(columns, name, j);
        r := Some(j);
      } else {
        assert columns[..j] == columns;
        r := None;
      }
    }

    /** `df[name]`: the column's cells, or KeyError. */
    method Get(name: string) returns (r: Result<seq<Cell>, Error>)
      requires Valid()
      ensures r.Success? <==> name in columns
      ensures r.Success? ==> Some(r.value) == Column(Snapshot(), name)
      ensures r.Failure? ==> r.error == MissingColumn(name)
    {
      var j := Locate(name);
      match j
      case None => r := Failure(MissingColumn(name));
      case Some(j) => r := Success(values[j]);
    }

    /** `df[name] = col`: overwrite the column called `name`, or append one. */
    method SetColumn(name: string, col: seq<Cell>)
      requires Valid() && |col| == |index|
      modifies this
      ensures Valid() && Snapshot() == WithColumn(old(Snapshot()), name, col)
    {
      var j := Locate(name);
      match j
      case Some(j) =>
        values := values[j := col];
      case None =>
        columns, values := columns + [name], values + [col];
    }

    /** `df.set_index(name, inplace=True)`: the column becomes the index, or KeyError and no change. */
    method SetIndex(name: string) returns (err: Option<Error>)
      requires Valid()
      modifies this
      ensures Valid()
      ensures match IndexedBy(old(Snapshot()), name)
        case Failure(e) => err == Some(e) && Snapshot() == old(Snapshot())
        case Success(g) => err == None && Snapshot() == g
    {
      var j := Locate(name);
      match j
      case None =>
        err := Some(MissingColumn(name));
      case Some(j) =>
        columns, values, index := RemoveAt(columns, j), RemoveAt(values, j), values[j];
        err := None;
    }

    /** `df.drop(columns=[name], inplace=True)`: the column goes, or KeyError and no change. */
    method Drop(name: string) returns (err: Option<Error>)
      requires Valid()
      modifies this
      ensures Valid()
      ensures match Dropped(old(Snapshot()), name)
        case Failure(e) => err == Some(e) && Snapshot() == old(Snapshot())
        case Success(g) => err == None && Snapshot() == g
    {
      var j := Locate(name);
      match j
      case None =>
        err := Some(MissingColumn(name));
      case Some(j) =>
        columns, values := RemoveAt(columns, j), RemoveAt(values, j);
        err := None;
    }

    /**
      `df[keys] = cols`: ValueError, and no change, unless there are as many
      columns as keys; otherwise each key is assigned its column in turn.
    */
    method SetColumns(keys: seq<string>, cols: seq<seq<Cell>>) returns (err: Option<Error>)
      requires Valid() && forall k :: 0 <= k < |cols| ==> |cols[k]| == |index|
      modifies this
      ensures Valid()
      ensures |cols| != |keys| ==> err == Some(ColumnCountMismatch(|keys|, |cols|)) && Snapshot() == old(Snapshot())
      ensures |cols| == |keys| ==> err == None && Snapshot() == Assigned(old(Snapshot()), keys, cols)
    {
      if |cols| != |keys| {
        return Some(ColumnCountMismatch(|keys|, |cols|));
      }
      var k := 0;
      while k < |keys|
        invariant 0 <= k <= |keys| && Valid() && index == old(index)
        invariant Assigned(Snapshot(), keys[k..], cols[k..]) == Assigned(old(Snapshot()), keys, cols)
      {
        assert keys[k..][1..] == keys[k + 1..] && cols[k..][1..] == cols[k + 1..];
        SetColumn(keys[k], cols[k]);
        k := k + 1;
      }
      err := None;
    }

    /** `df[keys]`: a new frame of the named columns in that order, or KeyError for the first missing one. */
    method Select(keys: seq<string>) returns (r: Result<DataFrame, Error>)
      requires Valid()
      ensures match Selected(Snapshot(), keys)
        case Failure(e) => r == Failure(e)
        case Success(g) => r.Success? && fresh(r.value) && r.value.Valid() && r.value.Snapshot() == g
    {
      var cols: seq<seq<Cell>> := [];
      var k := 0;
      while k < |keys|
        invariant 0 <= k <= |keys| && |cols| == k
        invariant forall i :: 0 <= i < k ==> keys[i] in columns && Some(cols[i]) == Column(Snapshot(), keys[i])
      {
        var c := Get(keys[k]);
        if c.Failure? {
          return Failure(c.error);
        }
        cols := cols + [c.value];
        k := k + 1;
      }
      var g := new DataFrame(Frame(keys, cols, index));
      r := Success(g);
    }

    /** `df.rename(columns=m, inplace=True)`: each label found in `m` replaced by its image. */
    method Rename(m: map<string, string>)
      requires Valid()
      modifies this
      ensures Valid() && Snapshot() == Renamed(old(Snapshot()), m)
    {
      var j := 0;
      while j < |columns|
        invariant 0 <= j <= |columns| == |old(columns)|
        invariant values == old(values) && index == old(index)
        invariant forall i :: 0 <= i < j ==> columns[i] == Renamed(old(Snapshot()), m).columns[i]
        invariant forall i :: j <= i < |columns| ==> columns[i] == old(columns)[i]
      {
        if columns[j] in m {
          columns := columns[j := m[columns[j]]];
        }
        j := j + 1;
      }
    }
  }
}
