/** The splitter: `read_raw_csv` (load the table, coerce the date column,
    report bad dates, drop the stray index column, report an empty table),
    the `groupby` on the calendar date, `save_grouped_data_to_csvs` (one file
    per day) and `split_by_day`, which chains them and returns the number of
    days. */
module Splitter {
  import opened Wrappers
  import opened Dates
  import opened Frames
  import opened Storage

  /** The date column; the source names it literally and takes no parameter. */
  const DateColumn: ColumnName := "trans_date_trans_time"

  /** The index column an earlier `to_csv` with its index left in writes. */
  const IndexArtifact: ColumnName := "Unnamed: 0"

  /** Why loading stops: `read_csv` finds no file, or the date column is
      missing and looking it up raises `KeyError`. */
  datatype LoadError = NotFound(path: Path) | MissingColumn(column: ColumnName)

  /** The log lines, as events: the bad-date warning with its count, the note
      that the index column was dropped, the empty-input warning, and one line
      per saved file with its row count and path. */
  datatype Event =
    | InvalidDates(count: nat)
    | DroppedIndexColumn
    | EmptyInput(path: Path)
    | Saved(rows: nat, path: Path)

  /** How `pd.to_datetime` reads a text or numeric cell: library behaviour,
      left as a parameter. `None` is the NaT that `errors="coerce"` produces
      in place of raising. */
  type Parser = Cell -> Option<Timestamp>

  // =====================================================================
  // Loading: read_raw_csv

  /** `pd.to_datetime(..., errors="coerce")` on one cell: a missing cell is
      NaT, a timestamp stays as it is, anything else goes to the parser, and
      nothing raises. */
  function Coerce(parse: Parser, c: Cell): Option<Timestamp> {
    match c
    case Null => None
    case When(stamp) => stamp
    case _ => parse(c)
  }

  /** The coerced column: one datetime64 cell per input cell. */
  function ToDatetime(parse: Parser, col: seq<Cell>): seq<Cell>
  {
    seq(|col|, i requires 0 <= i < |col| => When(Coerce(parse, col[i])))
  }

  /** `isnull()`: a missing value or NaT. */
  predicate IsNull(c: Cell) {
    c == Null || c == When(None)
  }

  /** `.isnull().any()` */
  predicate AnyNull(col: seq<Cell>) {
    exists i :: 0 <= i < |col| && IsNull(col[i])
  }

  /** `len(df[df[...].isnull()])`: the number of null cells. */
  function CountNull(col: seq<Cell>): nat {
    if col == [] then 0
    else CountNull(col[..|col| - 1]) + (if IsNull(col[|col| - 1]) then 1 else 0)
  }

  /** The positions of the null cells. */
  function NullRows(col: seq<Cell>): set<int> {
    set i | 0 <= i < |col| && IsNull(col[i])
  }

  lemma {:induction false} CountNullIsSize(col: seq<Cell>)
    ensures CountNull(col) == |NullRows(col)|
    ensures AnyNull(col) <==> CountNull(col) > 0
  {
    if col != [] {
      var n := |col| - 1;
      CountNullIsSize(col[..n]);
      assert n !in NullRows(col[..n]);
      if IsNull(col[n]) {
        assert NullRows(col) == NullRows(col[..n]) + {n};
      } else {
        assert NullRows(col) == NullRows(col[..n]);
      }
    }
    if AnyNull(col) {
      var i :| 0 <= i < |col| && IsNull(col[i]);
      assert i in NullRows(col);
    }
  }

  /** A table `read_csv` could have produced and that has the date column. */
  predicate Loadable(raw: Table) {
    WellFormed(raw) && DateColumn in raw.columns
  }

  function DateIndex(t: Table): nat {
    Find(t.columns, DateColumn)
  }

  /** The raw cell in the date column of row `i`. */
  function RawDate(raw: Table, i: nat): Cell
    requires Loadable(raw) && i < |raw.rows|
  {
    raw.rows[i][DateIndex(raw)]
  }

  /** The rows whose date the parser could not read. */
  function InvalidRows(raw: Table, parse: Parser): set<int>
    requires Loadable(raw)
  {
    set i | 0 <= i < |raw.rows| && Coerce(parse, RawDate(raw, i)) == None
  }

  /** The table after the date column is overwritten in place. */
  function Coerced(raw: Table, parse: Parser): Table
    requires Loadable(raw)
  {
    var k := DateIndex(raw);
    WithColumn(raw, k, ToDatetime(parse, ColumnCells(raw, k)))
  }

  /** The table `read_raw_csv` returns. */
  function Loaded(raw: Table, parse: Parser): Table
    requires Loadable(raw)
  {
    var c := Coerced(raw, parse);
    if IndexArtifact in c.columns then DropColumn(c, IndexArtifact) else c
  }

  /** The log lines `read_raw_csv` emits, in order. */
  function LoadWarnings(path: Path, raw: Table, parse: Parser): seq<Event>
    requires Loadable(raw)
  {
    var dates := ColumnCells(Coerced(raw, parse), DateIndex(raw));
    (if AnyNull(dates) then [InvalidDates(CountNull(dates))] else [])
    + (if IndexArtifact in raw.columns then [DroppedIndexColumn] else [])
    + (if IsEmpty(Loaded(raw, parse)) then [EmptyInput(path)] else [])
  }

  /** `read_raw_csv(path)` on a filesystem: the loaded table or why it failed. */
  function Load(files: map<Path, Table>, path: Path, parse: Parser): Result<Table, LoadError>
    requires path in files ==> WellFormed(files[path])
  {
    match Open(files, path)
    case None => Failure(NotFound(path))
    case Some(raw) =>
      if DateColumn !in raw.columns then Failure(MissingColumn(DateColumn))
      else Success(Loaded(raw, parse))
  }

  /** The log lines of `read_raw_csv(path)`; none when it fails. */
  function LoadEvents(files: map<Path, Table>, path: Path, parse: Parser): seq<Event>
    requires path in files ==> WellFormed(files[path])
  {
    if path in files && DateColumn in files[path].columns
    then LoadWarnings(path, files[path], parse)
    else []
  }

  /** `read_raw_csv`: builds the frame, overwrites its date column, warns about
      bad dates, replaces it by a copy without the index column when that is
      present, and warns when the result is empty. */
  method ReadRawCsv(disk: Disk, path: Path, parse: Parser) returns (r: Result<Frame, LoadError>, events: seq<Event>)
    requires disk.Valid()
    ensures r.Failure? ==> Load(disk.files, path, parse) == Failure(r.error)
    ensures r.Success? ==> fresh(r.value) && Load(disk.files, path, parse) == Success(r.value.Value())
    ensures events == LoadEvents(disk.files, path, parse)
  {
    var raw := Open(disk.files, path);
    if raw.None? {
      return Failure(NotFound(path)), [];
    }
    var df := new Frame(raw.value);
    var k := Find(df.columns, DateColumn);
    if k == |df.columns| {
      return Failure(MissingColumn(DateColumn)), [];
    }
    df.SetColumn(k, ToDatetime(parse, ColumnCells(df.Value(), k)));
    events := [];
    var dates := ColumnCells(df.Value(), k);
    if AnyNull(dates) {
      events := events + [InvalidDates(CountNull(dates))];
    }
    if IndexArtifact in df.columns {
      events := events + [DroppedIndexColumn];
      df := df.Drop(IndexArtifact);
    }
    if IsEmpty(df.Value()) {
      events := events + [EmptyInput(path)];
    }
    r := Success(df);
  }

  /** Loading fails only for a missing file or a missing date column, and
      then logs nothing. */
  lemma LoadOutcome(files: map<Path, Table>, path: Path, parse: Parser)
    requires path in files ==> WellFormed(files[path])
    ensures Load(files, path, parse) == Failure(NotFound(path)) <==> path !in files
    ensures (Load(files, path, parse) == Failure(MissingColumn(DateColumn))) <==>
              (path in files && DateColumn !in files[path].columns)
    ensures Load(files, path, parse).Success? <==> path in files && Loadable(files[path])
    ensures Load(files, path, parse).Failure? ==> LoadEvents(files, path, parse) == []
  {
  }

  /** Loading keeps every row, including those whose date did not parse, and
      the result still has the date column. */
  lemma LoadKeepsRows(raw: Table, parse: Parser)
    requires Loadable(raw)
    ensures Loadable(Loaded(raw, parse))
    ensures |Loaded(raw, parse).rows| == |raw.rows|
  {
    var c := Coerced(raw, parse);
    if IndexArtifact in c.columns {
      DropColumnColumns(c, IndexArtifact);
    }
  }

  /** `"Unnamed: 0"` is gone afterwards, every other column stays in its
      relative order, and a table without it keeps its header as it was. */
  lemma LoadedColumns(raw: Table, parse: Parser)
    requires Loadable(raw)
    ensures Loaded(raw, parse).columns == Without(raw.columns, IndexArtifact)
    ensures IndexArtifact !in Loaded(raw, parse).columns
    ensures IndexArtifact !in raw.columns ==> Loaded(raw, parse).columns == raw.columns
  {
    var c := Coerced(raw, parse);
    if IndexArtifact in c.columns {
      DropColumnColumns(c, IndexArtifact);
    } else {
      WithoutAbsent(raw.columns, IndexArtifact);
    }
  }

  /** Cell by cell: the date column holds the coerced date, the index column
      is gone, and every other cell is the one that was read. */
  lemma LoadedCell(raw: Table, parse: Parser, i: int, c: ColumnName)
    requires Loadable(raw)
    ensures CellAt(Loaded(raw, parse), i, c) ==
              if c == IndexArtifact then None
              else if c == DateColumn && 0 <= i < |raw.rows| then Some(When(Coerce(parse, RawDate(raw, i))))
              else CellAt(raw, i, c)
  {
    var k := DateIndex(raw);
    var col := ToDatetime(parse, ColumnCells(raw, k));
    var co := Coerced(raw, parse);
    WithColumnCell(raw, k, col, i, c);
    if IndexArtifact in co.columns {
      DropColumnCell(co, IndexArtifact, i, c);
    } else if c == IndexArtifact {
      assert Find(co.columns, c) == |co.columns|;
    }
  }

  /** The bad-date warning appears exactly when some date failed to parse, and
      it reports how many did. */
  lemma InvalidDateWarning(path: Path, raw: Table, parse: Parser)
    requires Loadable(raw)
    ensures (exists n :: InvalidDates(n) in LoadWarnings(path, raw, parse)) <==> InvalidRows(raw, parse) != {}
    ensures forall n :: InvalidDates(n) in LoadWarnings(path, raw, parse) ==> n == |InvalidRows(raw, parse)|
  {
    var k := DateIndex(raw);
    var dates := ColumnCells(Coerced(raw, parse), k);
    assert NullRows(dates) == InvalidRows(raw, parse);
    CountNullIsSize(dates);
  }

  /** The index-column note appears exactly when the column was there, and the
      empty-input warning exactly when there are no rows. */
  lemma LoadNotes(path: Path, raw: Table, parse: Parser)
    requires Loadable(raw)
    ensures DroppedIndexColumn in LoadWarnings(path, raw, parse) <==> IndexArtifact in raw.columns
    ensures EmptyInput(path) in LoadWarnings(path, raw, parse) <==> |raw.rows| == 0
  {
    LoadKeepsRows(raw, parse);
  }

  // =====================================================================
  // Grouping: df.groupby(df[DateColumn].dt.date)

  /** `.dt.date` on one cell of the coerced date column: the calendar date of
      a timestamp. NaT has none, and `groupby` leaves rows without a key out. */
  function DayKey(c: Cell): Option<Date> {
    if c.When? then StampDay(c.stamp) else None
  }

  /** The calendar date of a parsed timestamp, if any. */
  function StampDay(stamp: Option<Timestamp>): Option<Date> {
    if stamp.Some? then Some(stamp.value.date) else None
  }

  /** The grouping key of every row, in row order. */
  function DayKeys(t: Table): seq<Option<Date>>
    requires Loadable(t)
  {
    seq(|t.rows|, i requires 0 <= i < |t.rows| => DayKey(t.rows[i][DateIndex(t)]))
  }

  /** The grouping as one pass over the rows: each row with a key appends its
      position to the list kept for that day. */
  function GroupIndices(keys: seq<Option<Date>>): map<Date, seq<nat>> {
    if keys == [] then map[]
    else
      var n := |keys| - 1;
      var g := GroupIndices(keys[..n]);
      match keys[n]
      case None => g
      case Some(d) => g[d := (if d in g then g[d] else []) + [n]]
  }

  /** The distinct days among the rows that have one. */
  function ValidDates(keys: seq<Option<Date>>): set<Date> {
    set i | 0 <= i < |keys| && keys[i].Some? :: keys[i].value
  }

  predicate Increasing(s: seq<nat>) {
    forall i, j :: 0 <= i < j < |s| ==> s[i] < s[j]
  }

  /** The days that get a group are exactly the valid days. */
  ghost predicate GroupsKeyed(keys: seq<Option<Date>>, g: map<Date, seq<nat>>) {
    g.Keys == ValidDates(keys)
  }

  /** Every listed position is a row of that day. */
  ghost predicate GroupsSound(keys: seq<Option<Date>>, g: map<Date, seq<nat>>) {
    forall d, j :: d in g && 0 <= j < |g[d]| ==> g[d][j] < |keys| && keys[g[d][j]] == Some(d)
  }

  /** Every group is non-empty and lists its rows in input order. */
  ghost predicate GroupsOrdered(g: map<Date, seq<nat>>) {
    forall d :: d in g ==> |g[d]| > 0 && Increasing(g[d])
  }

  /** Every row with a day is listed under it. */
  ghost predicate GroupsComplete(keys: seq<Option<Date>>, g: map<Date, seq<nat>>) {
    forall i :: 0 <= i < |keys| && keys[i].Some? ==> keys[i].value in g && i in g[keys[i].value]
  }

  /** What the pass builds: the groups partition the rows with a valid day. */
  ghost predicate GroupsPartition(keys: seq<Option<Date>>, g: map<Date, seq<nat>>) {
    GroupsKeyed(keys, g) && GroupsSound(keys, g) && GroupsOrdered(g) && GroupsComplete(keys, g)
  }

  lemma PrefixKeys(keys: seq<Option<Date>>, n: nat)
    requires n <= |keys|
    ensures forall i :: 0 <= i < n ==> keys[..n][i] == keys[i]
  {
  }

  lemma {:induction false} GroupIndicesKeyed(keys: seq<Option<Date>>)
    ensures GroupsKeyed(keys, GroupIndices(keys))
  {
    if keys != [] {
      var n := |keys| - 1;
      var prefix := keys[..n];
      GroupIndicesKeyed(prefix);
      PrefixKeys(keys, n);
      if keys[n].None? {
        assert ValidDates(keys) == ValidDates(prefix);
      } else {
        assert ValidDates(keys) == ValidDates(prefix) + {keys[n].value};
      }
    }
  }

  lemma {:induction false} GroupIndicesSound(keys: seq<Option<Date>>)
    ensures GroupsSound(keys, GroupIndices(keys))
  {
    if keys != [] {
      var n := |keys| - 1;
      var prefix := keys[..n];
      var g0 := GroupIndices(prefix);
      GroupIndicesSound(prefix);
      PrefixKeys(keys, n);
      if keys[n].Some? {
        var e := keys[n].value;
        var g := GroupIndices(keys);
        forall d, j | d in g && 0 <= j < |g[d]|
          ensures g[d][j] < |keys| && keys[g[d][j]] == Some(d)
        {
          if d != e || j < |g[d]| - 1 {
            assert g[d][j] == g0[d][j];
          }
        }
      }
    }
  }

  lemma {:induction false} GroupIndicesOrdered(keys: seq<Option<Date>>)
    ensures GroupsOrdered(GroupIndices(keys))
  {
    if keys != [] {
      var n := |keys| - 1;
      var prefix := keys[..n];
      var g0 := GroupIndices(prefix);
      GroupIndicesOrdered(prefix);
      GroupIndicesSound(prefix);
      if keys[n].Some? {
        var e := keys[n].value;
        var l := (if e in g0 then g0[e] else []) + [n];
        assert forall j :: 0 <= j < |l| - 1 ==> l[j] < n;
        assert Increasing(l);
      }
    }
  }

  lemma {:induction false} GroupIndicesComplete(keys: seq<Option<Date>>)
    ensures GroupsComplete(keys, GroupIndices(keys))
  {
    if keys != [] {
      var n := |keys| - 1;
      var prefix := keys[..n];
      var g0 := GroupIndices(prefix);
      GroupIndicesComplete(prefix);
      PrefixKeys(keys, n);
      var g := GroupIndices(keys);
      forall i | 0 <= i < |keys| && keys[i].Some?
        ensures keys[i].value in g && i in g[keys[i].value]
      {
        if i < n {
          assert prefix[i] == keys[i];
          var d := keys[i].value;
          assert d in g0 && i in g0[d];
          if keys[n] == Some(d) {
            assert g[d] == g0[d] + [n];
          }
        }
      }
    }
  }

  lemma GroupIndicesPartition(keys: seq<Option<Date>>)
    ensures GroupsPartition(keys, GroupIndices(keys))
  {
    GroupIndicesKeyed(keys);
    GroupIndicesSound(keys);
    GroupIndicesOrdered(keys);
    GroupIndicesComplete(keys);
  }

  /** Every row with a valid date is in exactly one group, the one of its own
      day; a row whose date is NaT is in none. */
  lemma RowInOneGroup(keys: seq<Option<Date>>, i: int)
    requires 0 <= i < |keys|
    ensures keys[i].None? ==> forall d :: d in GroupIndices(keys) ==> i !in GroupIndices(keys)[d]
    ensures keys[i].Some? ==> keys[i].value in GroupIndices(keys) && i in GroupIndices(keys)[keys[i].value]
    ensures forall d :: d in GroupIndices(keys) && i in GroupIndices(keys)[d] ==> keys[i] == Some(d)
  {
    GroupIndicesPartition(keys);
  }

  lemma ValidDatesKept(keys: seq<Option<Date>>, i: nat, d: Date)
    requires i < |keys| && keys[i] == None && d in ValidDates(keys)
    ensures d in ValidDates(RemoveAt(keys, i))
  {
    var keys' := RemoveAt(keys, i);
    var j :| 0 <= j < |keys| && keys[j] == Some(d);
    var j' := if j < i then j else j - 1;
    assert keys'[j'] == Some(d);
  }

  lemma ValidDatesNotAdded(keys: seq<Option<Date>>, i: nat, d: Date)
    requires i < |keys| && keys[i] == None && d in ValidDates(RemoveAt(keys, i))
    ensures d in ValidDates(keys)
  {
    var keys' := RemoveAt(keys, i);
    var j' :| 0 <= j' < |keys'| && keys'[j'] == Some(d);
    var j := if j' < i then j' else j' + 1;
    assert keys[j] == Some(d);
  }

  /** A row whose date is NaT changes neither which groups there are nor how
      many. */
  lemma InvalidRowsDoNotCount(keys: seq<Option<Date>>, i: nat)
    requires i < |keys| && keys[i] == None
    ensures GroupIndices(RemoveAt(keys, i)).Keys == GroupIndices(keys).Keys
    ensures |GroupIndices(RemoveAt(keys, i))| == |GroupIndices(keys)|
  {
    var keys' := RemoveAt(keys, i);
    GroupIndicesKeyed(keys);
    GroupIndicesKeyed(keys');
    forall d | d in ValidDates(keys)
      ensures d in ValidDates(keys')
    {
      ValidDatesKept(keys, i, d);
    }
    forall d | d in ValidDates(keys')
      ensures d in ValidDates(keys)
    {
      ValidDatesNotAdded(keys, i, d);
    }
    assert ValidDates(keys') == ValidDates(keys);
  }

  /** The rows of day `d` in input order: the reference for what one group
      holds. */
  function OnDay(rows: seq<Row>, keys: seq<Option<Date>>, d: Date): seq<Row>
    requires |rows| == |keys|
  {
    if rows == [] then []
    else (if keys[0] == Some(d) then [rows[0]] else []) + OnDay(rows[1..], keys[1..], d)
  }

  lemma {:induction false} OnDayAppend(rows: seq<Row>, keys: seq<Option<Date>>, r: Row, k: Option<Date>, d: Date)
    requires |rows| == |keys|
    ensures OnDay(rows + [r], keys + [k], d) == OnDay(rows, keys, d) + (if k == Some(d) then [r] else [])
  {
    if rows == [] {
      assert rows + [r] == [r] && keys + [k] == [k];
    } else {
      assert (rows + [r])[1..] == rows[1..] + [r];
      assert (keys + [k])[1..] == keys[1..] + [k];
      OnDayAppend(rows[1..], keys[1..], r, k, d);
    }
  }

  /** `df.take(idx)` on the rows: the rows at the given positions. */
  function Select(rows: seq<Row>, idx: seq<nat>): seq<Row>
    requires forall j :: 0 <= j < |idx| ==> idx[j] < |rows|
  {
    seq(|idx|, j requires 0 <= j < |idx| => rows[idx[j]])
  }

  /** The rows the pass collects for a day are exactly that day's rows, in
      input order; a day with no rows gets no group. */
  lemma {:induction false} GroupIndicesOnDay(rows: seq<Row>, keys: seq<Option<Date>>, d: Date)
    requires |rows| == |keys|
    ensures GroupsSound(keys, GroupIndices(keys))
    ensures d in GroupIndices(keys) ==> Select(rows, GroupIndices(keys)[d]) == OnDay(rows, keys, d)
    ensures d !in GroupIndices(keys) ==> OnDay(rows, keys, d) == []
  {
    GroupIndicesSound(keys);
    if keys != [] {
      var n := |keys| - 1;
      var rows', keys' := rows[..n], keys[..n];
      var g := GroupIndices(keys');
      GroupIndicesOnDay(rows', keys', d);
      OnDayAppend(rows', keys', rows[n], keys[n], d);
      assert rows' + [rows[n]] == rows && keys' + [keys[n]] == keys;
      var before := if d in g then g[d] else [];
      assert Select(rows, before) == Select(rows', before);
      assert Select(rows', before) == OnDay(rows', keys', d);
      if keys[n] == Some(d) {
        assert GroupIndices(keys)[d] == before + [n];
        assert Select(rows, before + [n]) == Select(rows, before) + [rows[n]];
      }
    }
  }

  /** `df.groupby(df[DateColumn].dt.date)`: for each day with at least one
      valid row, the sub-frame of those rows under the full header. */
  function GroupByDate(t: Table): (groups: map<Date, Table>)
    requires Loadable(t)
    ensures groups.Keys == ValidDates(DayKeys(t))
    ensures forall d :: d in groups ==>
              && WellFormed(groups[d])
              && groups[d].columns == t.columns
              && |groups[d].rows| > 0
  {
    var keys := DayKeys(t);
    var g := GroupIndices(keys);
    GroupIndicesPartition(keys);
    map d | d in g :: Table(t.columns, Select(t.rows, g[d]))
  }

  /** Each group holds exactly the rows of its day, in input order, with the
      loaded header. */
  lemma GroupByDateContents(t: Table, d: Date)
    requires Loadable(t)
    ensures d in GroupByDate(t) ==> GroupByDate(t)[d] == Table(t.columns, OnDay(t.rows, DayKeys(t), d))
    ensures d !in GroupByDate(t) ==> OnDay(t.rows, DayKeys(t), d) == []
  {
    GroupIndicesOnDay(t.rows, DayKeys(t), d);
  }

  // =====================================================================
  // Writing: save_grouped_data_to_csvs

  /** `os.path.join(output_dir, f"{date.strftime('%Y-%m-%d')}.csv")` */
  function OutputPath(dir: Path, d: Date): Path {
    Join(dir, FormatDate(d) + ".csv")
  }

  /** The file name ends in `.csv` after the day written as `YYYY-MM-DD`, and
      that day can be read back from it. */
  lemma OutputPathNamesDay(dir: Path, d: Date)
    ensures |OutputPath(dir, d)| >= 14
    ensures var p := OutputPath(dir, d);
            p[|p| - 4..] == ".csv" && ParseDate(p[|p| - 14..|p| - 4]) == Some(d)
  {
    var name := FormatDate(d) + ".csv";
    JoinEndsWith(dir, name);
    FormatDateRoundTrip(d);
    var p := OutputPath(dir, d);
    assert p[|p| - 14..] == name;
    assert p[|p| - 14..|p| - 4] == name[..10] == FormatDate(d);
  }

  /** Distinct days get distinct files. */
  lemma OutputPathInjective(dir: Path, a: Date, b: Date)
    ensures OutputPath(dir, a) == OutputPath(dir, b) <==> a == b
  {
    OutputPathNamesDay(dir, a);
    OutputPathNamesDay(dir, b);
  }

  /** A naming of days by paths that gives no two days the same path. */
  ghost predicate Injective(name: Date -> Path) {
    forall a, b :: name(a) == name(b) ==> a == b
  }

  /** The day-to-file naming used for the output directory `dir`. */
  function FileFor(dir: Path): Date -> Path {
    (d: Date) => OutputPath(dir, d)
  }

  lemma FileForInjective(dir: Path)
    ensures Injective(FileFor(dir))
  {
    forall a, b ensures FileFor(dir)(a) == FileFor(dir)(b) ==> a == b {
      OutputPathInjective(dir, a, b);
    }
  }

  /** The groups keyed by their names instead of their days. */
  function Renamed(grouped: map<Date, Table>, name: Date -> Path): map<Path, Table>
    requires Injective(name)
  {
    map d | d in grouped :: name(d) := grouped[d]
  }

  lemma RenamedLookup(grouped: map<Date, Table>, name: Date -> Path)
    requires Injective(name)
    ensures forall d :: d in grouped ==>
              name(d) in Renamed(grouped, name) && Renamed(grouped, name)[name(d)] == grouped[d]
    ensures forall p :: p in Renamed(grouped, name) ==> exists d :: d in grouped && p == name(d)
  {
  }

  lemma RenamedUpdate(grouped: map<Date, Table>, name: Date -> Path, d: Date, t: Table)
    requires Injective(name)
    ensures Renamed(grouped[d := t], name) == Renamed(grouped, name)[name(d) := t]
  {
    var lhs := Renamed(grouped[d := t], name);
    var rhs := Renamed(grouped, name)[name(d) := t];
    assert lhs.Keys == rhs.Keys;
  }

  lemma {:induction false} ImageSize(days: set<Date>, name: Date -> Path)
    requires Injective(name)
    ensures |set d | d in days :: name(d)| == |days|
  {
    if days != {} {
      var x :| x in days;
      var rest := days - {x};
      ImageSize(rest, name);
      var image := set d | d in days :: name(d);
      var image' := set d | d in rest :: name(d);
      assert image == image' + {name(x)};
      assert name(x) !in image';
    }
  }

  lemma RenamedCount(grouped: map<Date, Table>, name: Date -> Path)
    requires Injective(name)
    ensures Renamed(grouped, name).Keys == set d | d in grouped :: name(d)
    ensures |Renamed(grouped, name)| == |grouped|
  {
    ImageSize(grouped.Keys, name);
    assert (set d | d in grouped.Keys :: name(d)) == set d | d in grouped :: name(d);
  }

  /** The files the groups become: each day's table under that day's name. */
  function Outputs(dir: Path, grouped: map<Date, Table>): map<Path, Table> {
    FileForInjective(dir);
    Renamed(grouped, FileFor(dir))
  }

  /** Each group's file holds that group's table, and every file is some
      group's. */
  lemma OutputsLookup(dir: Path, grouped: map<Date, Table>)
    ensures forall d :: d in grouped ==>
              OutputPath(dir, d) in Outputs(dir, grouped) && Outputs(dir, grouped)[OutputPath(dir, d)] == grouped[d]
    ensures forall p :: p in Outputs(dir, grouped) ==> exists d :: d in grouped && p == OutputPath(dir, d)
  {
    FileForInjective(dir);
    RenamedLookup(grouped, FileFor(dir));
  }

  /** One file per group: as many files as groups. */
  lemma OutputsCount(dir: Path, grouped: map<Date, Table>)
    ensures |Outputs(dir, grouped)| == |grouped|
  {
    FileForInjective(dir);
    RenamedCount(grouped, FileFor(dir));
  }

  /** The part of `grouped` whose days are listed in `days`. */
  function Restrict(grouped: map<Date, Table>, days: seq<Date>): map<Date, Table> {
    map d | d in grouped && d in days :: grouped[d]
  }

  lemma RestrictAdd(grouped: map<Date, Table>, days: seq<Date>, d: Date)
    requires d in grouped
    ensures Restrict(grouped, days + [d]) == Restrict(grouped, days)[d := grouped[d]]
  {
    var lhs := Restrict(grouped, days + [d]);
    var rhs := Restrict(grouped, days)[d := grouped[d]];
    assert forall e :: e in days + [d] <==> e in days || e == d;
    assert lhs.Keys == rhs.Keys;
  }

  /** Writing one more group adds its file to those of the groups before. */
  lemma OutputsAdd(dir: Path, grouped: map<Date, Table>, days: seq<Date>, d: Date)
    requires d in grouped
    ensures Outputs(dir, Restrict(grouped, days + [d]))
              == Outputs(dir, Restrict(grouped, days))[OutputPath(dir, d) := grouped[d]]
  {
    RestrictAdd(grouped, days, d);
    FileForInjective(dir);
    RenamedUpdate(Restrict(grouped, days), FileFor(dir), d, grouped[d]);
  }

  lemma OverwriteUnion(files: map<Path, Table>, written: map<Path, Table>, p: Path, t: Table)
    ensures (files + written)[p := t] == files + written[p := t]
  {
  }

  /** The filesystem after writing the groups of `days` one after the other,
      each write replacing whatever its path held (a day without a group
      writes nothing). */
  function Writes(files: map<Path, Table>, dir: Path, grouped: map<Date, Table>, days: seq<Date>): map<Path, Table> {
    if days == [] then files
    else
      var n := |days| - 1;
      var before := Writes(files, dir, grouped, days[..n]);
      if days[n] in grouped then before[OutputPath(dir, days[n]) := grouped[days[n]]] else before
  }

  /** Writing the groups one by one leaves every written group's file in
      place, over whatever was there before, and touches nothing else. */
  lemma {:induction false} WritesAreOutputs(files: map<Path, Table>, dir: Path, grouped: map<Date, Table>, days: seq<Date>)
    requires forall i :: 0 <= i < |days| ==> days[i] in grouped
    ensures Writes(files, dir, grouped, days) == files + Outputs(dir, Restrict(grouped, days))
  {
    if days == [] {
      assert Restrict(grouped, days) == map[];
    } else {
      var n := |days| - 1;
      var prefix := days[..n];
      WritesAreOutputs(files, dir, grouped, prefix);
      assert prefix + [days[n]] == days;
      OutputsAdd(dir, grouped, prefix, days[n]);
      OverwriteUnion(files, Outputs(dir, Restrict(grouped, prefix)), OutputPath(dir, days[n]), grouped[days[n]]);
    }
  }

  /** Writing every group, in any order that lists each day once, gives each
      group its file over the files already there. */
  lemma WritesAll(files: map<Path, Table>, dir: Path, grouped: map<Date, Table>, days: seq<Date>)
    requires forall d :: d in days <==> d in grouped
    ensures Writes(files, dir, grouped, days) == files + Outputs(dir, grouped)
  {
    WritesAreOutputs(files, dir, grouped, days);
    assert Restrict(grouped, days) == grouped;
  }

  /** The log lines for files written for the days of `days`, in that order. */
  function SavedEvents(dir: Path, grouped: map<Date, Table>, days: seq<Date>): seq<Event> {
    if days == [] then []
    else
      var n := |days| - 1;
      var before := SavedEvents(dir, grouped, days[..n]);
      if days[n] in grouped then before + [Saved(|grouped[days[n]].rows|, OutputPath(dir, days[n]))] else before
  }

  /** One more day of the loop: its write and its log line follow those of
      the days before it. */
  lemma SaveStep(files: map<Path, Table>, dir: Path, grouped: map<Date, Table>, days: seq<Date>, i: nat)
    requires i < |days| && days[i] in grouped
    ensures Writes(files, dir, grouped, days[..i + 1])
              == Writes(files, dir, grouped, days[..i])[OutputPath(dir, days[i]) := grouped[days[i]]]
    ensures SavedEvents(dir, grouped, days[..i + 1])
              == SavedEvents(dir, grouped, days[..i]) + [Saved(|grouped[days[i]].rows|, OutputPath(dir, days[i]))]
  {
    assert days[..i + 1][..i] == days[..i];
  }

  /** One iteration of the write loop for day `d`: `group.to_csv(output_path,
      index=False)` and the log line with the row count and path. */
  method SaveGroup(disk: Disk, outputDir: Path, d: Date, group: Table) returns (e: Event)
    requires disk.Valid() && WellFormed(group) && outputDir in disk.dirs
    modifies disk
    ensures disk.Valid() && disk.dirs == old(disk.dirs)
    ensures disk.files == old(disk.files)[OutputPath(outputDir, d) := group]
    ensures e == Saved(|group.rows|, OutputPath(outputDir, d))
  {
    var dateStr := FormatDate(d);
    disk.WriteCsv(outputDir, dateStr + ".csv", group);
    e := Saved(|group.rows|, Join(outputDir, dateStr + ".csv"));
  }

  /** `save_grouped_data_to_csvs`: creates the output directory, then writes
      the groups earliest day first, one file each, logging each write. */
  method SaveGroupedDataToCsvs(disk: Disk, grouped: map<Date, Table>, outputDir: Path)
    returns (events: seq<Event>)
    requires disk.Valid()
    requires forall d :: d in grouped ==> WellFormed(grouped[d])
    modifies disk
    ensures disk.Valid()
    ensures disk.dirs == old(disk.dirs) + {outputDir}
    ensures disk.files == old(disk.files) + Outputs(outputDir, grouped)
    ensures events == SavedEvents(outputDir, grouped, Ascending(grouped.Keys))
  {
    disk.MakeDirs(outputDir);
    var days := Ascending(grouped.Keys);
    events := [];
    for i := 0 to |days|
      invariant disk.Valid()
      invariant disk.dirs == old(disk.dirs) + {outputDir}
      invariant disk.files == Writes(old(disk.files), outputDir, grouped, days[..i])
      invariant events == SavedEvents(outputDir, grouped, days[..i])
    {
      var d := days[i];
      SaveStep(old(disk.files), outputDir, grouped, days, i);
      var e := SaveGroup(disk, outputDir, d, grouped[d]);
      events := events + [e];
    }
    assert days[..|days|] == days;
    WritesAll(old(disk.files), outputDir, grouped, days);
  }

  // =====================================================================
  // split_by_day: load, group, write, count

  /** `split_by_day(input_path, output_dir)`: the number of days written, or
      the reason loading failed (in which case nothing is written). */
  method SplitByDay(disk: Disk, inputPath: Path, outputDir: Path, parse: Parser)
    returns (r: Result<nat, LoadError>, events: seq<Event>)
    requires disk.Valid()
    modifies disk
    ensures disk.Valid()
    ensures r.Failure? ==>
              && Load(old(disk.files), inputPath, parse) == Failure(r.error)
              && disk.files == old(disk.files) && disk.dirs == old(disk.dirs)
              && events == []
    ensures r.Success? ==>
              && Load(old(disk.files), inputPath, parse).Success?
              && var t := Load(old(disk.files), inputPath, parse).value;
                 && Loadable(t)
                 && r.value == |GroupByDate(t)|
                 && disk.dirs == old(disk.dirs) + {outputDir}
                 && disk.files == old(disk.files) + Outputs(outputDir, GroupByDate(t))
                 && events == LoadEvents(old(disk.files), inputPath, parse)
                              + SavedEvents(outputDir, GroupByDate(t), Ascending(GroupByDate(t).Keys))
  {
    var loaded, loadEvents := ReadRawCsv(disk, inputPath, parse);
    if loaded.Failure? {
      return Failure(loaded.error), [];
    }
    var t := loaded.value.Value();
    LoadOutcome(disk.files, inputPath, parse);
    LoadKeepsRows(disk.files[inputPath], parse);
    var grouped := GroupByDate(t);
    var saved := SaveGroupedDataToCsvs(disk, grouped, outputDir);
    r := Success(|grouped|);
    events := loadEvents + saved;
  }

  /** The day key the loaded table gives row `i`: the calendar date of the
      parsed timestamp, or none when the date did not parse. */
  lemma LoadedDayKey(raw: Table, parse: Parser, i: int)
    requires Loadable(raw) && 0 <= i < |raw.rows|
    ensures Loadable(Loaded(raw, parse)) && |DayKeys(Loaded(raw, parse))| == |raw.rows|
    ensures DayKeys(Loaded(raw, parse))[i] == StampDay(Coerce(parse, RawDate(raw, i)))
  {
    LoadKeepsRows(raw, parse);
    LoadedCell(raw, parse, i, DateColumn);
  }

  /** The days that get a file are the calendar dates of the rows whose date
      parsed. */
  lemma LoadedDays(raw: Table, parse: Parser)
    requires Loadable(raw)
    ensures Loadable(Loaded(raw, parse))
    ensures GroupByDate(Loaded(raw, parse)).Keys ==
              set i | 0 <= i < |raw.rows| && Coerce(parse, RawDate(raw, i)).Some? :: Coerce(parse, RawDate(raw, i)).value.date
  {
    LoadKeepsRows(raw, parse);
    var keys := DayKeys(Loaded(raw, parse));
    forall i | 0 <= i < |raw.rows|
      ensures keys[i] == StampDay(Coerce(parse, RawDate(raw, i)))
    {
      LoadedDayKey(raw, parse, i);
    }
  }

  /** End to end, for row `i` of the file read: it is listed in the group of
      exactly the day its date parsed to (so in none when it did not parse),
      and that day's file holds it. */
  lemma RowLandsInItsFile(raw: Table, parse: Parser, dir: Path, i: int)
    requires Loadable(raw) && 0 <= i < |raw.rows|
    ensures Loadable(Loaded(raw, parse))
    ensures var g := GroupIndices(DayKeys(Loaded(raw, parse)));
            forall d :: (d in g && i in g[d]) <==> StampDay(Coerce(parse, RawDate(raw, i))) == Some(d)
    ensures var day := StampDay(Coerce(parse, RawDate(raw, i)));
            var files := Outputs(dir, GroupByDate(Loaded(raw, parse)));
            day.Some? ==>
              && OutputPath(dir, day.value) in files
              && Loaded(raw, parse).rows[i] in files[OutputPath(dir, day.value)].rows
  {
    var t := Loaded(raw, parse);
    LoadedDayKey(raw, parse, i);
    var keys := DayKeys(t);
    var g := GroupIndices(keys);
    RowInOneGroup(keys, i);
    var day := StampDay(Coerce(parse, RawDate(raw, i)));
    if day.Some? {
      var d := day.value;
      GroupIndicesPartition(keys);
      var groups := GroupByDate(t);
      assert groups[d].rows == Select(t.rows, g[d]);
      var j :| 0 <= j < |g[d]| && g[d][j] == i;
      assert groups[d].rows[j] == t.rows[i];
      OutputsLookup(dir, groups);
    }
  }

  /** `split_by_day`'s count is the number of distinct days among the rows
      whose date parsed, and there are as many files as that. */
  lemma SplitCount(raw: Table, parse: Parser, dir: Path)
    requires Loadable(raw)
    ensures Loadable(Loaded(raw, parse))
    ensures var days := set i | 0 <= i < |raw.rows| && Coerce(parse, RawDate(raw, i)).Some? :: Coerce(parse, RawDate(raw, i)).value.date;
            && |GroupByDate(Loaded(raw, parse))| == |days|
            && |Outputs(dir, GroupByDate(Loaded(raw, parse)))| == |days|
  {
    LoadedDays(raw, parse);
    OutputsCount(dir, GroupByDate(Loaded(raw, parse)));
  }

  /** A table with no rows, or whose dates all failed to parse, makes no
      groups and no files. */
  lemma NothingToWrite(raw: Table, parse: Parser, dir: Path)
    requires Loadable(raw)
    requires forall i :: 0 <= i < |raw.rows| ==> Coerce(parse, RawDate(raw, i)) == None
    ensures Loadable(Loaded(raw, parse))
    ensures GroupByDate(Loaded(raw, parse)) == map[]
    ensures Outputs(dir, GroupByDate(Loaded(raw, parse))) == map[]
  {
    LoadedDays(raw, parse);
    OutputsCount(dir, GroupByDate(Loaded(raw, parse)));
  }

  /** Writing the groups over a filesystem keeps every file whose name is not
      one of the groups' days as it was. */
  lemma OtherFilesUntouched(files: map<Path, Table>, dir: Path, grouped: map<Date, Table>, p: Path)
    requires p in files && forall d :: d in grouped ==> p != OutputPath(dir, d)
    ensures p in files + Outputs(dir, grouped) && (files + Outputs(dir, grouped))[p] == files[p]
  {
    OutputsLookup(dir, grouped);
  }

  // =====================================================================
  // The repository's test: four rows over three days

  const Day10: Date := CalendarDate(2025, 4, 10)
  const Day11: Date := CalendarDate(2025, 4, 11)
  const Day12: Date := CalendarDate(2025, 4, 12)

  /** The table the test writes: no index column, the date first. */
  function TestTable(): Table {
    Table(
      [DateColumn, "cc_num", "merchant"],
      [ [Text("2025-04-10 13:01:00"), Number(1), Text("A")],
        [Text("2025-04-10 14:02:00"), Number(2), Text("B")],
        [Text("2025-04-11 09:30:00"), Number(3), Text("C")],
        [Text("2025-04-12 10:00:00"), Number(4), Text("D")] ])
  }

  /** The test's table can be loaded and its date cells are the four strings. */
  lemma TestRawDates()
    ensures Loadable(TestTable()) && |TestTable().rows| == 4
    ensures RawDate(TestTable(), 0) == Text("2025-04-10 13:01:00")
    ensures RawDate(TestTable(), 1) == Text("2025-04-10 14:02:00")
    ensures RawDate(TestTable(), 2) == Text("2025-04-11 09:30:00")
    ensures RawDate(TestTable(), 3) == Text("2025-04-12 10:00:00")
  {
    assert Loadable(TestTable());
    assert DateIndex(TestTable()) == 0;
  }

  /** The test's four date strings, as the loaded table keys them. */
  lemma TestKeys(parse: Parser)
    requires StampDay(parse(Text("2025-04-10 13:01:00"))) == Some(Day10)
    requires StampDay(parse(Text("2025-04-10 14:02:00"))) == Some(Day10)
    requires StampDay(parse(Text("2025-04-11 09:30:00"))) == Some(Day11)
    requires StampDay(parse(Text("2025-04-12 10:00:00"))) == Some(Day12)
    ensures Loadable(TestTable()) && Loadable(Loaded(TestTable(), parse))
    ensures DayKeys(Loaded(TestTable(), parse)) == [Some(Day10), Some(Day10), Some(Day11), Some(Day12)]
  {
    var raw := TestTable();
    TestRawDates();
    LoadedDayKey(raw, parse, 0);
    LoadedDayKey(raw, parse, 1);
    LoadedDayKey(raw, parse, 2);
    LoadedDayKey(raw, parse, 3);
  }

  lemma ValidDatesOfFour(a: Date, b: Date, c: Date)
    ensures ValidDates([Some(a), Some(a), Some(b), Some(c)]) == {a, b, c}
  {
    var keys := [Some(a), Some(a), Some(b), Some(c)];
    assert keys[0].value == a && keys[2].value == b && keys[3].value == c;
  }

  /** With a parser that reads the four date strings as their days, the
      split makes three groups and writes exactly the three expected files. */
  lemma TestSplitByDayCreatesExpectedFiles(parse: Parser, dir: Path)
    requires StampDay(parse(Text("2025-04-10 13:01:00"))) == Some(Day10)
    requires StampDay(parse(Text("2025-04-10 14:02:00"))) == Some(Day10)
    requires StampDay(parse(Text("2025-04-11 09:30:00"))) == Some(Day11)
    requires StampDay(parse(Text("2025-04-12 10:00:00"))) == Some(Day12)
    requires dir != "" && dir[|dir| - 1] != '/'
    ensures Loadable(TestTable()) && Loadable(Loaded(TestTable(), parse))
    ensures |GroupByDate(Loaded(TestTable(), parse))| == 3
    ensures Outputs(dir, GroupByDate(Loaded(TestTable(), parse))).Keys
              == {dir + "/2025-04-10.csv", dir + "/2025-04-11.csv", dir + "/2025-04-12.csv"}
  {
    TestKeys(parse);
    ValidDatesOfFour(Day10, Day11, Day12);
    var groups := GroupByDate(Loaded(TestTable(), parse));
    assert groups.Keys == {Day10, Day11, Day12};
    ThreeDays(Day10, Day11, Day12);
    assert |groups| == |groups.Keys|;
    TestOutputs(groups, dir);
  }

  /** Three groups for the test's days become exactly the three expected files. */
  lemma TestOutputs(groups: map<Date, Table>, dir: Path)
    requires groups.Keys == {Day10, Day11, Day12}
    requires dir != "" && dir[|dir| - 1] != '/'
    ensures Outputs(dir, groups).Keys
              == {dir + "/2025-04-10.csv", dir + "/2025-04-11.csv", dir + "/2025-04-12.csv"}
  {
    var name := FileFor(dir);
    FileForInjective(dir);
    RenamedCount(groups, name);
    TestFileNames(dir);
    ImageOfThree(groups, name, Day10, Day11, Day12);
  }

  lemma ThreeDays(a: Date, b: Date, c: Date)
    requires a != b && a != c && b != c
    ensures |{a, b, c}| == 3
  {
    assert {a, b, c} == {a, b} + {c};
  }

  lemma ImageOfThree(groups: map<Date, Table>, name: Date -> Path, a: Date, b: Date, c: Date)
    requires groups.Keys == {a, b, c}
    ensures (set d | d in groups :: name(d)) == {name(a), name(b), name(c)}
  {
    var image := set d | d in groups :: name(d);
    assert a in groups && b in groups && c in groups;
    assert name(a) in image && name(b) in image && name(c) in image;
    forall p | p in image
      ensures p == name(a) || p == name(b) || p == name(c)
    {
      var d :| d in groups && p == name(d);
      assert d in {a, b, c};
    }
  }

  /** The digits `strftime("%Y-%m-%d")` writes for the test's days. */
  lemma TestDigits()
    ensures Padded(2025, 4) == "2025" && Padded(4, 2) == "04"
    ensures Padded(10, 2) == "10" && Padded(11, 2) == "11" && Padded(12, 2) == "12"
  {
    assert Padded(2, 1) == "2";
    assert Padded(20, 2) == "20";
    assert Padded(202, 3) == "202";
    assert Padded(0, 1) == "0";
    assert Padded(1, 1) == "1";
  }

  /** Under a directory not ending in `/`, a day's file is the directory, a
      `/` and the file name. */
  lemma InDirectory(dir: Path, d: Date)
    requires dir != "" && dir[|dir| - 1] != '/'
    ensures OutputPath(dir, d) == dir + ("/" + FormatDate(d) + ".csv")
  {
    var name := FormatDate(d) + ".csv";
    assert name[0] == FormatDate(d)[0];
  }

  /** The names the test expects are the ones `strftime` and `os.path.join`
      give the three days, under any output directory not ending in `/`. */
  lemma TestFileNames(dir: Path)
    requires dir != "" && dir[|dir| - 1] != '/'
    ensures OutputPath(dir, Day10) == dir + "/2025-04-10.csv"
    ensures OutputPath(dir, Day11) == dir + "/2025-04-11.csv"
    ensures OutputPath(dir, Day12) == dir + "/2025-04-12.csv"
  {
    TestDayNames();
    InDirectory(dir, Day10);
    InDirectory(dir, Day11);
    InDirectory(dir, Day12);
    TestNameText();
  }

  lemma TestNameText()
    ensures "/" + "2025-04-10" + ".csv" == "/2025-04-10.csv"
    ensures "/" + "2025-04-11" + ".csv" == "/2025-04-11.csv"
    ensures "/" + "2025-04-12" + ".csv" == "/2025-04-12.csv"
  {
  }

  lemma TestDayNames()
    ensures FormatDate(Day10) == "2025-04-10"
    ensures FormatDate(Day11) == "2025-04-11"
    ensures FormatDate(Day12) == "2025-04-12"
  {
    TestDigits();
  }
}
