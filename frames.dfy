/** The part of a pandas DataFrame that `process_file` uses: named columns,
    rows of cells, renaming a column, assigning a whole column, reading a
    row's cells under a label and writing one cell (`df.at`). */
module Frames {
  import opened Wrappers

  /** One cell as read from the CSV: its text, or `None` for a missing value (NaN). */
  type Cell = Option<string>

  /** The value of a DataFrame: column labels and rows of cells, in order. The
      row labels are the positions (the default index `read_csv` gives). */
  datatype Table = Table(columns: seq<string>, rows: seq<seq<Cell>>)

  /** Every row has one cell per column. */
  predicate WellFormed(t: Table) {
    forall i :: 0 <= i < |t.rows| ==> |t.rows[i]| == |t.columns|
  }

  /** No label occurs twice (`read_csv` renames repeated header labels). */
  predicate Distinct(names: seq<string>) {
    forall k, k' :: 0 <= k < k' < |names| ==> names[k] != names[k']
  }

  /** The position of the first column labelled `name`. */
  function IndexOf(names: seq<string>, name: string): (r: Option<nat>)
    ensures r.None? <==> name !in names
    ensures r.Some? ==> r.value < |names| && names[r.value] == name && name !in names[..r.value]
  {
    if names == [] then None
    else if names[0] == name then Some(0)
    else
      match IndexOf(names[1..], name)
      case None => None
      case Some(k) =>
        assert names[..k + 1] == [names[0]] + names[1..][..k];
        Some(k + 1)
  }

  /** The labels after `df.rename(columns={from: to})`: every label `from`
      becomes `to`. */
  function Renamed(names: seq<string>, from: string, to: string): (r: seq<string>)
    ensures |r| == |names|
    ensures forall k :: 0 <= k < |names| ==> r[k] == (if names[k] == from then to else names[k])
  {
    if names == [] then []
    else [if names[0] == from then to else names[0]] + Renamed(names[1..], from, to)
  }

  /** `df[name] = v`: every row holds `v` under the first column labelled
      `name`; a new column is appended when there is none. pandas writes
      every column that carries a repeated label; only the first is written
      here, which is the same for the labels `process_file` assigns: they
      never occur twice (`PreparedColumns`). */
  function Assign(t: Table, name: string, v: Cell): (r: Table)
    requires WellFormed(t)
    ensures WellFormed(r) && |r.rows| == |t.rows|
  {
    match IndexOf(t.columns, name)
    case Some(k) => Table(t.columns, seq(|t.rows|, i requires 0 <= i < |t.rows| => t.rows[i][k := v]))
    case None => Table(t.columns + [name], seq(|t.rows|, i requires 0 <= i < |t.rows| => t.rows[i] + [v]))
  }

  /** A row after `df.at[index, name] = v`, for a label that exists: the
      cell under the label holds `v`, and every cell under another label is
      as it was. */
  function SetNamed(columns: seq<string>, row: seq<Cell>, name: string, v: Cell): (r: seq<Cell>)
    requires |row| == |columns| && name in columns
    ensures |r| == |row|
    ensures Get(columns, r, name) == v
    ensures forall other :: other in columns && other != name ==> Get(columns, r, other) == Get(columns, row, other)
    ensures forall k :: 0 <= k < |columns| && columns[k] != name ==> r[k] == row[k]
  {
    row[IndexOf(columns, name).value := v]
  }

  /** The cell of `row` under the first column labelled `name`. */
  function Get(columns: seq<string>, row: seq<Cell>, name: string): Cell
    requires |row| == |columns| && name in columns
  {
    row[IndexOf(columns, name).value]
  }

  /** `row[name]` on a row of `iterrows()`: every cell under the label
      `name`, in column order; pandas gives a scalar for one and a Series for
      several. There is none exactly when no column has the label. */
  function Lookup(columns: seq<string>, row: seq<Cell>, name: string): (r: seq<Cell>)
    requires |row| == |columns|
    ensures r == [] <==> name !in columns
  {
    if columns == [] then []
    else
      var n := |columns| - 1;
      assert name in columns <==> name in columns[..n] || columns[n] == name;
      Lookup(columns[..n], row[..n], name) + (if columns[n] == name then [row[n]] else [])
  }

  /** The positions of the columns labelled `name`, in increasing order. */
  function LabelPositions(columns: seq<string>, name: string): seq<nat> {
    if columns == [] then []
    else
      var n := |columns| - 1;
      LabelPositions(columns[..n], name) + (if columns[n] == name then [n] else [])
  }

  /** The labels after `df[name] = ...`: unchanged when `name` is one of
      them, with `name` appended otherwise. */
  function WithLabel(names: seq<string>, name: string): seq<string> {
    if name in names then names else names + [name]
  }

  /** `df[name] = v` adds the label `name` when it is new, puts `v` in every
      row under it, and leaves every cell under another label alone. */
  lemma AssignSpec(t: Table, name: string, v: Cell)
    requires WellFormed(t)
    ensures Assign(t, name, v).columns == WithLabel(t.columns, name)
    ensures name in Assign(t, name, v).columns
    ensures forall i :: 0 <= i < |t.rows| ==>
      Get(Assign(t, name, v).columns, Assign(t, name, v).rows[i], name) == v
    ensures forall i, k :: 0 <= i < |t.rows| && 0 <= k < |t.columns| && t.columns[k] != name ==>
      Assign(t, name, v).rows[i][k] == t.rows[i][k]
  {
    if name !in t.columns {
      assert IndexOf(t.columns + [name], name) == Some(|t.columns|) by {
        assert (t.columns + [name])[..|t.columns|] == t.columns;
      }
    }
  }

  /** `df[n] = v` for each label `n` of `names`, in order. */
  function AssignAll(t: Table, names: seq<string>, v: Cell): (r: Table)
    requires WellFormed(t)
    ensures WellFormed(r) && |r.rows| == |t.rows|
    decreases |names|
  {
    if names == [] then t else AssignAll(Assign(t, names[0], v), names[1..], v)
  }

  /** The labels of `labels` that `names` lacks, in order. */
  function MissingLabels(labels: seq<string>, names: seq<string>): seq<string> {
    if labels == [] then []
    else (if labels[0] in names then [] else [labels[0]]) + MissingLabels(labels[1..], names)
  }

  /** A missing label is one of `labels` and not one of `names`. */
  lemma {:induction false} MissingLabelsIn(labels: seq<string>, names: seq<string>)
    ensures forall x :: x in MissingLabels(labels, names) ==> x in labels && x !in names
  {
    if labels != [] {
      MissingLabelsIn(labels[1..], names);
    }
  }

  /** Only whether each of `labels` is present matters. */
  lemma {:induction false} MissingLabelsSame(labels: seq<string>, a: seq<string>, b: seq<string>)
    requires forall x :: x in labels ==> (x in a <==> x in b)
    ensures MissingLabels(labels, a) == MissingLabels(labels, b)
  {
    if labels != [] {
      MissingLabelsSame(labels[1..], a, b);
    }
  }

  /** The labels after the rest of `names` once the first is assigned. */
  lemma DistinctTail(names: seq<string>)
    requires names != [] && Distinct(names)
    ensures Distinct(names[1..]) && names[0] !in names[1..]
  {
    assert forall k :: 0 <= k < |names[1..]| ==> names[1..][k] == names[k + 1];
  }

  /** Assigning the distinct labels `names` one after the other appends those
      that are new, in order. */
  lemma {:induction false} AssignAllColumns(t: Table, names: seq<string>, v: Cell)
    requires WellFormed(t) && Distinct(names)
    ensures AssignAll(t, names, v).columns == t.columns + MissingLabels(names, t.columns)
    ensures forall x :: x in names ==> x in AssignAll(t, names, v).columns
    decreases |names|
  {
    if names == [] {
      assert t.columns + [] == t.columns;
    } else {
      var name, rest := names[0], names[1..];
      var t1 := Assign(t, name, v);
      AssignSpec(t, name, v);
      DistinctTail(names);
      AssignAllColumns(t1, rest, v);
      var m0 := if name in t.columns then [] else [name];
      assert t1.columns == t.columns + m0;
      MissingLabelsSame(rest, t1.columns, t.columns);
      assert AssignAll(t, names, v).columns == t.columns + m0 + MissingLabels(rest, t.columns);
    }
  }

  /** A column under a label other than `names` keeps its place, its label
      and its cells. */
  lemma {:induction false} AssignAllKeeps(t: Table, names: seq<string>, v: Cell, i: nat, k: nat)
    requires WellFormed(t) && i < |t.rows| && k < |t.columns| && t.columns[k] !in names
    ensures k < |AssignAll(t, names, v).columns| && AssignAll(t, names, v).columns[k] == t.columns[k]
    ensures AssignAll(t, names, v).rows[i][k] == t.rows[i][k]
    decreases |names|
  {
    if names != [] {
      var name, rest := names[0], names[1..];
      var t1 := Assign(t, name, v);
      AssignSpec(t, name, v);
      assert t.columns[k] != name;
      assert forall x :: x in rest ==> x in names;
      AssignAllKeeps(t1, rest, v, i, k);
    }
  }

  /** Every row holds `v` under each of the distinct labels `names`. */
  lemma {:induction false} AssignAllGet(t: Table, names: seq<string>, v: Cell)
    requires WellFormed(t) && Distinct(names)
    ensures forall x :: x in names ==> x in AssignAll(t, names, v).columns
    ensures forall i, x :: 0 <= i < |t.rows| && x in names ==>
      Get(AssignAll(t, names, v).columns, AssignAll(t, names, v).rows[i], x) == v
    decreases |names|
  {
    AssignAllColumns(t, names, v);
    if names != [] {
      DistinctTail(names);
      AssignAllGet(Assign(t, names[0], v), names[1..], v);
      assert AssignAll(t, names, v) == AssignAll(Assign(t, names[0], v), names[1..], v);
      assert forall x :: x in names ==> x == names[0] || x in names[1..];
      forall i | 0 <= i < |t.rows|
        ensures Get(AssignAll(t, names, v).columns, AssignAll(t, names, v).rows[i], names[0]) == v
      {
        AssignAllGetFirst(t, names, v, i);
      }
    }
  }

  /** The first of the labels keeps the value assigned to it. */
  lemma AssignAllGetFirst(t: Table, names: seq<string>, v: Cell, i: nat)
    requires WellFormed(t) && Distinct(names) && names != [] && i < |t.rows|
    ensures names[0] in AssignAll(t, names, v).columns
    ensures Get(AssignAll(t, names, v).columns, AssignAll(t, names, v).rows[i], names[0]) == v
  {
    var name, rest := names[0], names[1..];
    var t1 := Assign(t, name, v);
    var r := AssignAll(t1, rest, v);
    AssignSpec(t, name, v);
    DistinctTail(names);
    AssignAllColumns(t1, rest, v);
    var k := IndexOf(t1.columns, name).value;
    AssignAllKeeps(t1, rest, v, i, k);
    IndexOfPrefix(t1.columns, MissingLabels(rest, t1.columns), name);
  }

  /** Appending labels does not move a label already there. */
  lemma IndexOfPrefix(names: seq<string>, extra: seq<string>, name: string)
    requires name in names
    ensures IndexOf(names + extra, name) == IndexOf(names, name)
  {
    var k := IndexOf(names, name).value;
    assert (names + extra)[..k] == names[..k];
    IndexOfFirst(names + extra, name, k);
  }

  /** The first position holding `name` is what `IndexOf` finds. */
  lemma {:induction false} IndexOfFirst(names: seq<string>, name: string, k: nat)
    requires k < |names| && names[k] == name && name !in names[..k]
    ensures IndexOf(names, name) == Some(k)
  {
    if k > 0 {
      assert names[0] in names[..k];
      assert names[1..][..k - 1] == names[..k][1..];
      IndexOfFirst(names[1..], name, k - 1);
    }
  }

  /** `row[name]` is positional: its m-th cell is the cell at the m-th
      position of `LabelPositions`, which holds, in increasing order, exactly
      the positions labelled `name`. */
  lemma LookupIsFilter(columns: seq<string>, row: seq<Cell>, name: string)
    requires |row| == |columns|
    ensures |LabelPositions(columns, name)| == |Lookup(columns, row, name)|
    ensures forall m :: 0 <= m < |Lookup(columns, row, name)| ==>
      LabelPositions(columns, name)[m] < |columns| && Lookup(columns, row, name)[m] == row[LabelPositions(columns, name)[m]]
    ensures forall m, m' :: 0 <= m < m' < |LabelPositions(columns, name)| ==>
      LabelPositions(columns, name)[m] < LabelPositions(columns, name)[m']
    ensures forall p :: 0 <= p < |columns| ==> (p in LabelPositions(columns, name) <==> columns[p] == name)
  {
    LookupAtPositions(columns, row, name);
    LabelPositionsSpec(columns, name);
  }

  lemma {:induction false} LookupAtPositions(columns: seq<string>, row: seq<Cell>, name: string)
    requires |row| == |columns|
    ensures |LabelPositions(columns, name)| == |Lookup(columns, row, name)|
    ensures forall m :: 0 <= m < |Lookup(columns, row, name)| ==>
      LabelPositions(columns, name)[m] < |columns| && Lookup(columns, row, name)[m] == row[LabelPositions(columns, name)[m]]
  {
    if columns != [] {
      var n := |columns| - 1;
      LookupAtPositions(columns[..n], row[..n], name);
      assert forall p :: 0 <= p < n ==> row[..n][p] == row[p];
    }
  }

  lemma {:induction false} LabelPositionsSpec(columns: seq<string>, name: string)
    ensures forall m :: 0 <= m < |LabelPositions(columns, name)| ==> LabelPositions(columns, name)[m] < |columns|
    ensures forall m, m' :: 0 <= m < m' < |LabelPositions(columns, name)| ==>
      LabelPositions(columns, name)[m] < LabelPositions(columns, name)[m']
    ensures forall p :: 0 <= p < |columns| ==> (p in LabelPositions(columns, name) <==> columns[p] == name)
  {
    if columns != [] {
      var n := |columns| - 1;
      LabelPositionsSpec(columns[..n], name);
      assert forall p :: 0 <= p < n ==> columns[..n][p] == columns[p];
    }
  }

  /** With the label in front, `row[name]` is that one cell when no other
      column has the label, and holds at least two cells otherwise. */
  lemma {:induction false} LookupFront(columns: seq<string>, row: seq<Cell>, name: string)
    requires |row| == |columns| && columns != [] && columns[0] == name
    ensures name !in columns[1..] ==> Lookup(columns, row, name) == [row[0]]
    ensures name in columns[1..] ==> |Lookup(columns, row, name)| >= 2
  {
    var n := |columns| - 1;
    if n > 0 {
      var init := columns[..n];
      LookupFront(init, row[..n], name);
      assert init[1..] == columns[1..n];
      assert name in columns[1..] <==> name in init[1..] || columns[n] == name;
      assert init[0] == name;
    }
  }

  /** A DataFrame held in place: the labels and an array of rows. */
  class Frame {
    var columns: seq<string>
    const rows: array<seq<Cell>>

    ghost predicate Valid()
      reads this, rows
    {
      forall i :: 0 <= i < rows.Length ==> |rows[i]| == |columns|
    }

    ghost function Value(): (t: Table)
      reads this, rows
    {
      Table(columns, rows[..])
    }

    /** The frame `read_csv` produces for a table. */
    constructor (t: Table)
      requires WellFormed(t)
      ensures Valid() && Value() == t && fresh(rows)
    {
      columns := t.columns;
      rows := new seq<Cell>[|t.rows|](i requires 0 <= i < |t.rows| => t.rows[i]);
    }

    /** `df.rename(columns={from: to}, inplace=True)`. */
    method Rename(from: string, to: string)
      requires Valid()
      modifies this
      ensures Valid()
      ensures columns == Renamed(old(columns), from, to) && rows[..] == old(rows[..])
    {
      columns := Renamed(columns, from, to);
    }

    /** `df[name] = v`. */
    method AssignColumn(name: string, v: Cell)
      requires Valid()
      modifies this, rows
      ensures Valid()
      ensures Value() == Assign(old(Value()), name, v)
    {
      var k := IndexOf(columns, name);
      match k {
        case Some(c) =>
          forall i | 0 <= i < rows.Length {
            rows[i] := rows[i][c := v];
          }
        case None =>
          forall i | 0 <= i < rows.Length {
            rows[i] := rows[i] + [v];
          }
          columns := columns + [name];
      }
    }

    /** `df.at[index, name] = v` for a label that exists. */
    method SetAt(index: nat, name: string, v: Cell)
      requires Valid() && index < rows.Length && name in columns
      modifies rows
      ensures Valid()
      ensures rows[..] == old(rows[..])[index := SetNamed(columns, old(rows[index]), name, v)]
    {
      rows[index] := SetNamed(columns, rows[index], name, v);
    }

    /** `row[name]` for the row at `index` of `iterrows()`: the cells of that
        row at the positions labelled `name`, in order; none when the label
        is absent, and the single first cell when only the first column
        carries it. */
    method LookupAt(index: nat, name: string) returns (cells: seq<Cell>)
      requires Valid() && index < rows.Length
      ensures |cells| == |LabelPositions(columns, name)|
      ensures forall m :: 0 <= m < |cells| ==>
        LabelPositions(columns, name)[m] < |columns| && cells[m] == rows[index][LabelPositions(columns, name)[m]]
      ensures cells == [] <==> name !in columns
      ensures columns != [] && columns[0] == name ==>
        (name !in columns[1..] ==> cells == [rows[index][0]]) && (name in columns[1..] ==> |cells| >= 2)
    {
      cells := Lookup(columns, rows[index], name);
      LookupIsFilter(columns, rows[index], name);
      if columns != [] && columns[0] == name {
        LookupFront(columns, rows[index], name);
      }
    }
  }
}
