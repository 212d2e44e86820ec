/** The in-memory table the splitter works on: a pandas DataFrame reduced to
    a header and rows of loosely typed cells, the few DataFrame operations
    the splitter uses, and the pandas facts it relies on (rows are as wide as
    the header, column names are distinct). */
module Frames {
  import opened Wrappers
  import opened Dates

  type ColumnName = string

  /** A cell: a missing value, text, a number, or a datetime64 value, where
      `When(None)` is pandas' NaT. Floating-point cells are not modelled. */
  datatype Cell = Null | Text(text: string) | Number(number: int) | When(stamp: Option<Timestamp>)

  /** The cells of one row, one per column, in header order. */
  type Row = seq<Cell>

  datatype Table = Table(columns: seq<ColumnName>, rows: seq<Row>)

  predicate Distinct(s: seq<ColumnName>) {
    forall i, j :: 0 <= i < j < |s| ==> s[i] != s[j]
  }

  /** What pandas guarantees of every frame `read_csv` builds: distinct
      column names and rows exactly as wide as the header. */
  predicate WellFormed(t: Table) {
    && Distinct(t.columns)
    && forall i :: 0 <= i < |t.rows| ==> |t.rows[i]| == |t.columns|
  }

  /** `df.empty`: true when either axis has length zero. */
  predicate IsEmpty(t: Table) {
    |t.rows| == 0 || |t.columns| == 0
  }

  /** The position of column `name`, or `|cols|` when there is none. */
  function Find(cols: seq<ColumnName>, name: ColumnName): (k: nat)
    ensures k <= |cols|
    ensures k < |cols| <==> name in cols
    ensures k < |cols| ==> cols[k] == name
    ensures forall i :: 0 <= i < k ==> cols[i] != name
  {
    if |cols| == 0 then 0
    else if cols[0] == name then 0
    else 1 + Find(cols[1..], name)
  }

  /** In a header without repeats, the one position holding `name` is where
      `Find` stops. */
  lemma FindDistinct(cols: seq<ColumnName>, j: nat)
    requires Distinct(cols) && j < |cols|
    ensures Find(cols, cols[j]) == j
  {
  }

  /** The cell of row `i` under column `c`, if both exist. */
  function CellAt(t: Table, i: int, c: ColumnName): Option<Cell> {
    var k := Find(t.columns, c);
    if 0 <= i < |t.rows| && k < |t.columns| && k < |t.rows[i]| then Some(t.rows[i][k]) else None
  }

  function RemoveAt<T>(s: seq<T>, k: nat): (r: seq<T>)
    requires k < |s|
    ensures |r| == |s| - 1
    ensures forall i :: 0 <= i < |r| ==> r[i] == if i < k then s[i] else s[i + 1]
  {
    s[..k] + s[k + 1..]
  }

  /** The names other than `name`, in their original order. */
  function Without(cols: seq<ColumnName>, name: ColumnName): seq<ColumnName> {
    if cols == [] then []
    else (if cols[0] == name then [] else [cols[0]]) + Without(cols[1..], name)
  }

  lemma {:induction false} WithoutAbsent(cols: seq<ColumnName>, name: ColumnName)
    requires name !in cols
    ensures Without(cols, name) == cols
  {
    if cols != [] {
      WithoutAbsent(cols[1..], name);
    }
  }

  lemma {:induction false} WithoutExcludes(cols: seq<ColumnName>, name: ColumnName)
    ensures name !in Without(cols, name)
    ensures forall c :: c in Without(cols, name) <==> c in cols && c != name
  {
    if cols != [] {
      WithoutExcludes(cols[1..], name);
    }
  }

  /** Removing the one occurrence of `name` from a header without repeats
      leaves exactly the other names, in order. */
  lemma {:induction false} RemoveAtIsWithout(cols: seq<ColumnName>, name: ColumnName)
    requires Distinct(cols) && name in cols
    ensures RemoveAt(cols, Find(cols, name)) == Without(cols, name)
  {
    if cols[0] == name {
      assert name !in cols[1..];
      WithoutAbsent(cols[1..], name);
      assert RemoveAt(cols, 0) == cols[1..];
    } else {
      var k := Find(cols, name);
      var tail := cols[1..];
      assert Find(tail, name) == k - 1;
      RemoveAtIsWithout(tail, name);
      assert RemoveAt(cols, k) == [cols[0]] + RemoveAt(tail, k - 1);
    }
  }

  // ---------------------------------------------------------------------
  // DataFrame operations on values

  /** `df.iloc[:, k]`: the cells of column `k`, top to bottom. */
  function ColumnCells(t: Table, k: nat): seq<Cell>
    requires WellFormed(t) && k < |t.columns|
  {
    seq(|t.rows|, i requires 0 <= i < |t.rows| => t.rows[i][k])
  }

  /** The table with column `k` replaced by `col`. */
  function WithColumn(t: Table, k: nat, col: seq<Cell>): (r: Table)
    requires WellFormed(t) && k < |t.columns| && |col| == |t.rows|
    ensures WellFormed(r) && r.columns == t.columns && |r.rows| == |t.rows|
    ensures forall i, j :: 0 <= i < |t.rows| && 0 <= j < |t.columns| ==>
              r.rows[i][j] == if j == k then col[i] else t.rows[i][j]
  {
    Table(t.columns, seq(|t.rows|, i requires 0 <= i < |t.rows| => t.rows[i][k := col[i]]))
  }

  /** Replacing column `k` changes the cells under that column's name and no
      other cell. */
  lemma WithColumnCell(t: Table, k: nat, col: seq<Cell>, i: int, c: ColumnName)
    requires WellFormed(t) && k < |t.columns| && |col| == |t.rows|
    ensures CellAt(WithColumn(t, k, col), i, c) ==
              if c == t.columns[k] && 0 <= i < |t.rows| then Some(col[i]) else CellAt(t, i, c)
  {
    if c == t.columns[k] {
      FindDistinct(t.columns, k);
    }
  }

  /** `df.drop(columns=[name])` for a column that is present. */
  function DropColumn(t: Table, name: ColumnName): (r: Table)
    requires WellFormed(t) && name in t.columns
    ensures WellFormed(r) && |r.rows| == |t.rows|
  {
    var k := Find(t.columns, name);
    Table(RemoveAt(t.columns, k), seq(|t.rows|, i requires 0 <= i < |t.rows| => RemoveAt(t.rows[i], k)))
  }

  /** Dropping a column removes that name and keeps every other name in its
      relative order. */
  lemma DropColumnColumns(t: Table, name: ColumnName)
    requires WellFormed(t) && name in t.columns
    ensures DropColumn(t, name).columns == Without(t.columns, name)
    ensures name !in DropColumn(t, name).columns
    ensures forall c :: c in DropColumn(t, name).columns <==> c in t.columns && c != name
  {
    RemoveAtIsWithout(t.columns, name);
    WithoutExcludes(t.columns, name);
  }

  /** Where a kept column sits once another one is dropped. */
  lemma DropColumnPosition(t: Table, name: ColumnName, c: ColumnName)
    requires WellFormed(t) && name in t.columns && c in t.columns && c != name
    ensures var k, j := Find(t.columns, name), Find(t.columns, c);
            Find(DropColumn(t, name).columns, c) == if j < k then j else j - 1
  {
    var r := DropColumn(t, name);
    var k, j := Find(t.columns, name), Find(t.columns, c);
    var j' := if j < k then j else j - 1;
    assert r.columns[j'] == c;
    FindDistinct(r.columns, j');
  }

  /** A cell of a kept column, at its new position. */
  lemma DropColumnShift(t: Table, name: ColumnName, i: int, j: nat)
    requires WellFormed(t) && name in t.columns
    requires 0 <= i < |t.rows| && j < |t.columns| && j != Find(t.columns, name)
    ensures var k := Find(t.columns, name);
            DropColumn(t, name).rows[i][if j < k then j else j - 1] == t.rows[i][j]
  {
    var k := Find(t.columns, name);
    assert DropColumn(t, name).rows[i] == RemoveAt(t.rows[i], k);
  }

  /** Dropping a column changes no other cell of any row. */
  lemma DropColumnCell(t: Table, name: ColumnName, i: int, c: ColumnName)
    requires WellFormed(t) && name in t.columns
    ensures CellAt(DropColumn(t, name), i, c) == if c == name then None else CellAt(t, i, c)
  {
    var r := DropColumn(t, name);
    if c == name || c !in t.columns {
      DropColumnColumns(t, name);
      assert Find(r.columns, c) == |r.columns|;
      assert CellAt(r, i, c) == None;
    } else {
      var k, j := Find(t.columns, name), Find(t.columns, c);
      var j' := if j < k then j else j - 1;
      DropColumnPosition(t, name, c);
      assert Find(r.columns, c) == j';
      if 0 <= i < |t.rows| {
        DropColumnShift(t, name, i, j);
        assert |r.rows[i]| == |r.columns|;
        assert CellAt(r, i, c) == Some(r.rows[i][j']);
      } else {
        assert CellAt(r, i, c) == None;
      }
    }
  }

  // ---------------------------------------------------------------------
  // A DataFrame object

  /** A DataFrame the splitter holds and updates: `df[name] = ...` replaces
      a column of this object, while `df.drop` builds a new one. */
  class Frame {
    var columns: seq<ColumnName>
    var rows: seq<Row>

    /** The table this frame currently holds. */
    function Value(): Table
      reads this
    {
      Table(columns, rows)
    }

    constructor (t: Table)
      ensures Value() == t
    {
      columns := t.columns;
      rows := t.rows;
    }

    /** `df[name] = col` for the existing column at position `k`. */
    method SetColumn(k: nat, col: seq<Cell>)
      requires WellFormed(Value()) && k < |columns| && |col| == |rows|
      modifies this
      ensures Value() == WithColumn(old(Value()), k, col)
    {
      var t := Value();
      rows := WithColumn(t, k, col).rows;
    }

    /** `df.drop(columns=[name])`: a new frame; this one is left as it was. */
    method Drop(name: ColumnName) returns (f: Frame)
      requires WellFormed(Value()) && name in columns
      ensures fresh(f) && f.Value() == DropColumn(Value(), name)
    {
      f := new Frame(DropColumn(Value(), name));
    }
  }
}
