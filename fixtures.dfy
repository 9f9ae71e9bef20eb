/** The fixture and data loaders: `_installFixture`, `installAFixture` and
    `FixtureMixin.setUp` of MySQLPlugin.py and `importData` of
    MySQLPlugin/__init__.py. They insert rows, one INSERT per row, into a
    database that enforces a unique key per table.

    The database is a class holding each table's rows, the log of every
    INSERT the loaders executed, and the names of the applications whose
    fixtures were handed off to the operator. The functions `After...` say
    what a loader leaves behind; each method is proved to leave exactly that,
    and the lemmas state what the loaders promise about it. */
module Fixtures {
  import opened Wrappers
  import SqlText

  /** A JSON scalar in a fixture row. */
  datatype Value = Null | Int(i: int) | Str(s: string)

  /** A fixture row: a JSON object, its fields in key order. */
  type Row = seq<(string, Value)>

  /** The keys of a list of pairs, in order: `row.keys()` of a row, or the
      application names of a per-application document. */
  function Names<V>(pairs: seq<(string, V)>): (names: seq<string>)
    ensures |names| == |pairs| && forall i :: 0 <= i < |pairs| ==> names[i] == pairs[i].0
  {
    seq(|pairs|, i requires 0 <= i < |pairs| => pairs[i].0)
  }

  /** `tuple(row.values())`. */
  function Values(row: Row): (vs: seq<Value>)
    ensures |vs| == |row| && forall i :: 0 <= i < |row| ==> vs[i] == row[i].1
  {
    seq(|row|, i requires 0 <= i < |row| => row[i].1)
  }

  function Lookup(row: Row, column: string): Option<Value>
  {
    if row == [] then None
    else if row[0].0 == column then Some(row[0].1)
    else Lookup(row[1..], column)
  }

  /** The values a row has in the columns of a unique key (absent columns as `None`). */
  function KeyOf(row: Row, key: seq<string>): seq<Option<Value>>
  {
    seq(|key|, i requires 0 <= i < |key| => Lookup(row, key[i]))
  }

  /** The unique key of each table that has one. */
  type Keys = map<string, seq<string>>

  /** A key value with a NULL part: a JSON null, or a column the row leaves
      out (which the database fills with NULL). */
  predicate HasNull(k: seq<Option<Value>>)
  {
    exists i :: 0 <= i < |k| && (k[i] == None || k[i] == Some(Null))
  }

  /** Some row already in the table has the same unique key as `row`. As in
      a MySQL unique index, a key with a NULL part never conflicts. */
  predicate Conflicts(existing: seq<Row>, row: Row, key: seq<string>)
  {
    !HasNull(KeyOf(row, key)) &&
    exists i :: 0 <= i < |existing| && KeyOf(existing[i], key) == KeyOf(row, key)
  }

  /** No two rows of a table agree on a NULL-free unique key. */
  predicate UniqueRows(rows: seq<Row>, key: seq<string>)
  {
    forall i, j :: 0 <= i < j < |rows| && !HasNull(KeyOf(rows[i], key)) ==>
      KeyOf(rows[i], key) != KeyOf(rows[j], key)
  }

  /** Every table with a unique key satisfies it. */
  predicate Consistent(tables: map<string, seq<Row>>, keys: Keys)
  {
    forall t :: t in tables && t in keys ==> UniqueRows(tables[t], keys[t])
  }

  /** One executed INSERT, for `row` into `table`. */
  datatype Attempt = Attempt(table: string, row: Row)
  {
    /** The statement text: the row's columns and one positional
        placeholder per column. */
    function Query(): string
    {
      SqlText.PositionalInsertQuery(table, Names(row))
    }

    /** The statement's arguments: the row's values, in column order. */
    function Args(): seq<Value>
    {
      Values(row)
    }
  }

  /** A non-empty row's statement has one placeholder per argument it is
      executed with; an empty row's statement has one placeholder and no
      argument, which is why its execution fails (`ArgumentMismatch`). */
  lemma StatementTakesRowValues(a: Attempt)
    ensures |a.row| > 0 ==>
              a.Query() == "INSERT INTO " + a.table + " (" + SqlText.Join(",", Names(a.row)) + ") VALUES ("
                           + SqlText.MakePlaceholderList(a.Args()) + ")"
    ensures |a.row| == 0 ==> a.Query() == "INSERT INTO " + a.table + " () VALUES (%s)" && a.Args() == []
  {
    assert |Names(a.row)| == |a.Args()|;
  }

  /** What the database state holds: the rows of each existing table, the
      INSERTs executed so far, and the applications handed off so far. */
  datatype Db = Db(tables: map<string, seq<Row>>, attempts: seq<Attempt>, handedOff: seq<string>)

  /** How the execution of one INSERT ends. An empty row's statement carries
      one placeholder and no argument, which the driver refuses before
      sending it; a missing table is a ProgrammingError; a duplicate unique
      key is an IntegrityError. */
  datatype Status = Inserted | IntegrityConflict | NoSuchTable | ArgumentMismatch

  function ExecStatus(tables: map<string, seq<Row>>, keys: Keys, t: string, row: Row): Status
  {
    if |row| == 0 then ArgumentMismatch
    else if t !in tables then NoSuchTable
    else if t in keys && Conflicts(tables[t], row, keys[t]) then IntegrityConflict
    else Inserted
  }

  /** Executing the INSERT for `row`: it is logged, and the row is appended
      to the table exactly when the database accepts it. */
  function Execute(d: Db, keys: Keys, t: string, row: Row): (Db, Status)
  {
    var st := ExecStatus(d.tables, keys, t, row);
    var tables := if st == Inserted then d.tables[t := d.tables[t] + [row]] else d.tables;
    (Db(tables, d.attempts + [Attempt(t, row)], d.handedOff), st)
  }

  /** The exceptions that end a load. */
  datatype LoadError =
    | IntegrityError(table: string)       // a duplicate key, when conflicts are not ignored
    | ProgrammingError(table: string)     // the table does not exist
    | ArgumentError(table: string)        // an empty row
    | MissingRows(table: string)          // `fixture[tableName]` for a table in `tableOrder` without rows
    | FixtureFileMissing(path: string)
    | IllegalArgument                     // 'fixture must be a dictionary'

  /** The database a load leaves and the exception it ended with, if any. */
  datatype Run = Run(db: Db, error: Option<LoadError>)

  // ---------------------------------------------------------------------
  // Specification of the loaders

  /** One iteration of the row loop: once an exception was raised nothing
      more happens; a conflict is skipped when conflicts are ignored. */
  function AfterRow(r: Run, keys: Keys, t: string, row: Row, ignoreConflicts: bool): Run
  {
    if r.error.Some? then r
    else
      var res := Execute(r.db, keys, t, row);
      match res.1
      case Inserted => Run(res.0, None)
      case IntegrityConflict => if ignoreConflicts then Run(res.0, None) else Run(res.0, Some(IntegrityError(t)))
      case NoSuchTable => Run(res.0, Some(ProgrammingError(t)))
      case ArgumentMismatch => Run(res.0, Some(ArgumentError(t)))
  }

  /** The row loop over one table's rows, in list order. */
  function AfterRows(r: Run, keys: Keys, t: string, rows: seq<Row>, ignoreConflicts: bool): Run
    decreases |rows|
  {
    if rows == [] then r
    else AfterRow(AfterRows(r, keys, t, rows[..|rows| - 1], ignoreConflicts), keys, t, rows[|rows| - 1], ignoreConflicts)
  }

  /** A fixture for one application: the optional `tableOrder` entry and the
      rows of each table. */
  datatype Fixture = Fixture(tableOrder: Option<seq<string>>, tables: map<string, seq<Row>>)

  /** The table loop of `_installFixture` over `order`. */
  function AfterTables(r: Run, keys: Keys, f: Fixture, order: seq<string>, ignoreConflicts: bool): Run
    decreases |order|
  {
    if order == [] then r
    else
      var prev := AfterTables(r, keys, f, order[..|order| - 1], ignoreConflicts);
      var t := order[|order| - 1];
      if prev.error.Some? then prev
      else if t !in f.tables then Run(prev.db, Some(MissingRows(t)))
      else AfterRows(prev, keys, t, f.tables[t], ignoreConflicts)
  }

  /** `_installFixture`: nothing at all without a `tableOrder` entry. */
  function AfterFixture(r: Run, keys: Keys, f: Fixture, ignoreConflicts: bool): Run
  {
    if f.tableOrder.None? then r else AfterTables(r, keys, f, f.tableOrder.value, ignoreConflicts)
  }

  /** A fixture document: without a `self` key it is the current
      application's fixture; with one it maps application names (`self`
      among them) to their fixtures, listed in the dict's iteration order. */
  datatype Document = Flat(fixture: Fixture) | PerApp(apps: seq<(string, Fixture)>)

  /** The documents a JSON dict can be: a flat fixture has no `self` key,
      and a per-application document has exactly one `self` entry among
      distinct application names. */
  predicate WellFormed(doc: Document)
  {
    match doc
    case Flat(f) => "self" !in f.tables
    case PerApp(apps) =>
      (exists i :: 0 <= i < |apps| && apps[i].0 == "self") &&
      forall i, j :: 0 <= i < j < |apps| ==> apps[i].0 != apps[j].0
  }

  /** The application loop of `installAFixture`: the `self` fixture is
      installed, every other one is handed off to the operator. */
  function AfterApps(r: Run, keys: Keys, apps: seq<(string, Fixture)>, ignoreConflicts: bool): Run
    decreases |apps|
  {
    if apps == [] then r
    else
      var prev := AfterApps(r, keys, apps[..|apps| - 1], ignoreConflicts);
      var app := apps[|apps| - 1];
      if prev.error.Some? then prev
      else if app.0 == "self" then AfterFixture(prev, keys, app.1, ignoreConflicts)
      else Run(prev.db.(handedOff := prev.db.handedOff + [app.0]), None)
  }

  /** `installAFixture`. */
  function AfterDocument(r: Run, keys: Keys, doc: Document, ignoreConflicts: bool): Run
    requires WellFormed(doc)
  {
    match doc
    case Flat(f) => AfterFixture(r, keys, f, ignoreConflicts)
    case PerApp(apps) => AfterApps(r, keys, apps, ignoreConflicts)
  }

  /** The loop of `importData` over a list of named tables. */
  function AfterImport(r: Run, keys: Keys, tables: seq<(string, seq<Row>)>, ignoreConflicts: bool): Run
    decreases |tables|
  {
    if tables == [] then r
    else
      var prev := AfterImport(r, keys, tables[..|tables| - 1], ignoreConflicts);
      var table := tables[|tables| - 1];
      if prev.error.Some? then prev
      else AfterRows(prev, keys, table.0, table.1, ignoreConflicts)
  }

  /** What a test's `_getFixture` returns: a dictionary, a string (a JSON
      file path), or anything else. */
  datatype FixtureValue = FixtureDict(doc: Document) | FixturePath(path: string) | NotADict

  predicate WellFormedValue(v: FixtureValue)
  {
    v.FixtureDict? ==> WellFormed(v.doc)
  }

  /** `FixtureMixin.setUp`, with the readable JSON files as `files`: a path is
      loaded first; anything that is not then a dictionary is refused before
      any insert; a dictionary is installed without ignoring conflicts. */
  function AfterSetUp(d: Db, keys: Keys, v: FixtureValue, files: map<string, FixtureValue>): (r: Run)
    requires WellFormedValue(v) && forall path :: path in files && files[path].FixtureDict? ==> WellFormed(files[path].doc)
    ensures v.NotADict? ==> r == Run(d, Some(IllegalArgument))
    ensures v.FixturePath? && v.path !in files ==> r == Run(d, Some(FixtureFileMissing(v.path)))
    ensures v.FixtureDict? ==> r == AfterDocument(Run(d, None), keys, v.doc, false)
    ensures v.FixturePath? && v.path in files ==>
              r == if files[v.path].FixtureDict? then AfterDocument(Run(d, None), keys, files[v.path].doc, false)
                   else Run(d, Some(IllegalArgument))
    ensures r.error.None? ==> v.FixtureDict? || (v.FixturePath? && v.path in files && files[v.path].FixtureDict?)
  {
    if v.FixturePath? && v.path !in files then Run(d, Some(FixtureFileMissing(v.path)))
    else
      var loaded := if v.FixturePath? then files[v.path] else v;
      if !loaded.FixtureDict? then Run(d, Some(IllegalArgument))
      else AfterDocument(Run(d, None), keys, loaded.doc, false)
  }

  // ---------------------------------------------------------------------
  // The database and the loaders

  class Database {
    var tables: map<string, seq<Row>>
    var attempts: seq<Attempt>
    var handedOff: seq<string>
    const keys: Keys

    function State(): Db
      reads this
    {
      Db(tables, attempts, handedOff)
    }

    constructor (tables: map<string, seq<Row>>, keys: Keys)
      ensures State() == Db(tables, [], []) && this.keys == keys
    {
      this.tables := tables;
      this.attempts := [];
      this.handedOff := [];
      this.keys := keys;
    }

    /** `cursor.execute(query, tuple(row.values()))`. */
    method ExecuteInsert(t: string, row: Row) returns (st: Status)
      modifies this
      ensures (State(), st) == Execute(old(State()), keys, t, row)
    {
      st := ExecStatus(tables, keys, t, row);
      attempts := attempts + [Attempt(t, row)];
      if st == Inserted {
        tables := tables[t := tables[t] + [row]];
      }
    }

    /** The inner loop of `_installFixture` and `importData`. */
    method InsertRows(t: string, rows: seq<Row>, ignoreConflicts: bool) returns (error: Option<LoadError>)
      modifies this
      ensures Run(State(), error) == AfterRows(Run(old(State()), None), keys, t, rows, ignoreConflicts)
    {
      var i := 0;
      while i < |rows|
        invariant 0 <= i <= |rows|
        invariant Run(State(), None) == AfterRows(Run(old(State()), None), keys, t, rows[..i], ignoreConflicts)
      {
        assert rows[..i + 1][..i] == rows[..i];
        var st := ExecuteInsert(t, rows[i]);
        if st != Inserted && !(st == IntegrityConflict && ignoreConflicts) {
          error := Some(match st
                        case IntegrityConflict => IntegrityError(t)
                        case NoSuchTable => ProgrammingError(t)
                        case _ => ArgumentError(t));
          AfterRowsStops(Run(old(State()), None), keys, t, rows, i + 1, ignoreConflicts);
          return;
        }
        i := i + 1;
      }
      assert rows[..i] == rows;
      error := None;
    }

    /** `_installFixture`. */
    method InstallFixture(fixture: Fixture, ignoreConflicts: bool) returns (error: Option<LoadError>)
      modifies this
      ensures Run(State(), error) == AfterFixture(Run(old(State()), None), keys, fixture, ignoreConflicts)
    {
      if fixture.tableOrder.None? {
        return None;
      }
      var order := fixture.tableOrder.value;
      var i := 0;
      while i < |order|
        invariant 0 <= i <= |order|
        invariant Run(State(), None) == AfterTables(Run(old(State()), None), keys, fixture, order[..i], ignoreConflicts)
      {
        assert order[..i + 1][..i] == order[..i];
        var t := order[i];
        if t !in fixture.tables {
          error := Some(MissingRows(t));
          AfterTablesStops(Run(old(State()), None), keys, fixture, order, i + 1, ignoreConflicts);
          return;
        }
        error := InsertRows(t, fixture.tables[t], ignoreConflicts);
        if error.Some? {
          AfterTablesStops(Run(old(State()), None), keys, fixture, order, i + 1, ignoreConflicts);
          return;
        }
        i := i + 1;
      }
      assert order[..i] == order;
      error := None;
    }

    /** `installAFixture`: handing a fixture off (writing it to a temporary
        file and waiting for the operator) is recorded in `handedOff`. */
    method InstallAFixture(doc: Document, ignoreConflicts: bool) returns (error: Option<LoadError>)
      requires WellFormed(doc)
      modifies this
      ensures Run(State(), error) == AfterDocument(Run(old(State()), None), keys, doc, ignoreConflicts)
    {
      match doc
      case Flat(f) =>
        error := InstallFixture(f, ignoreConflicts);
      case PerApp(apps) =>
        var i := 0;
        while i < |apps|
          invariant 0 <= i <= |apps|
          invariant Run(State(), None) == AfterApps(Run(old(State()), None), keys, apps[..i], ignoreConflicts)
        {
          assert apps[..i + 1][..i] == apps[..i];
          var app := apps[i];
          if app.0 == "self" {
            error := InstallFixture(app.1, ignoreConflicts);
            if error.Some? {
              AfterAppsStops(Run(old(State()), None), keys, apps, i + 1, ignoreConflicts);
              return;
            }
          } else {
            handedOff := handedOff + [app.0];
          }
          i := i + 1;
        }
        assert apps[..i] == apps;
        error := None;
    }

    /** `importData`. */
    method ImportData(namedTables: seq<(string, seq<Row>)>, ignoreConflicts: bool) returns (error: Option<LoadError>)
      modifies this
      ensures Run(State(), error) == AfterImport(Run(old(State()), None), keys, namedTables, ignoreConflicts)
    {
      var i := 0;
      while i < |namedTables|
        invariant 0 <= i <= |namedTables|
        invariant Run(State(), None) == AfterImport(Run(old(State()), None), keys, namedTables[..i], ignoreConflicts)
      {
        assert namedTables[..i + 1][..i] == namedTables[..i];
        error := InsertRows(namedTables[i].0, namedTables[i].1, ignoreConflicts);
        if error.Some? {
          AfterImportStops(Run(old(State()), None), keys, namedTables, i + 1, ignoreConflicts);
          return;
        }
        i := i + 1;
      }
      assert namedTables[..i] == namedTables;
      error := None;
    }

    /** `FixtureMixin.setUp`. */
    method SetUp(v: FixtureValue, files: map<string, FixtureValue>) returns (error: Option<LoadError>)
      requires WellFormedValue(v) && forall path :: path in files && files[path].FixtureDict? ==> WellFormed(files[path].doc)
      modifies this
      ensures Run(State(), error) == AfterSetUp(old(State()), keys, v, files)
    {
      var fixture := v;
      if v.FixturePath? {
        if v.path !in files {
          return Some(FixtureFileMissing(v.path));
        }
        fixture := files[v.path];
      }
      if !fixture.FixtureDict? {
        return Some(IllegalArgument);
      }
      error := InstallAFixture(fixture.doc, false);
    }
  }

  // ---------------------------------------------------------------------
  // An exception ends the load

  lemma {:induction false} AfterRowsKeepsError(r: Run, keys: Keys, t: string, rows: seq<Row>, ignoreConflicts: bool)
    requires r.error.Some?
    ensures AfterRows(r, keys, t, rows, ignoreConflicts) == r
    decreases |rows|
  {
    if rows != [] {
      AfterRowsKeepsError(r, keys, t, rows[..|rows| - 1], ignoreConflicts);
    }
  }

  /** Once the rows up to `k` raised, the later rows are never attempted. */
  lemma {:induction false} AfterRowsStops(r: Run, keys: Keys, t: string, rows: seq<Row>, k: nat, ignoreConflicts: bool)
    requires k <= |rows|
    requires AfterRows(r, keys, t, rows[..k], ignoreConflicts).error.Some?
    ensures AfterRows(r, keys, t, rows, ignoreConflicts) == AfterRows(r, keys, t, rows[..k], ignoreConflicts)
    decreases |rows|
  {
    if k < |rows| {
      assert rows[..|rows| - 1][..k] == rows[..k];
      AfterRowsStops(r, keys, t, rows[..|rows| - 1], k, ignoreConflicts);
    } else {
      assert rows[..k] == rows;
    }
  }

  /** Once the tables up to `k` raised, the later tables are never touched. */
  lemma {:induction false} AfterTablesStops(r: Run, keys: Keys, f: Fixture, order: seq<string>, k: nat, ignoreConflicts: bool)
    requires k <= |order|
    requires AfterTables(r, keys, f, order[..k], ignoreConflicts).error.Some?
    ensures AfterTables(r, keys, f, order, ignoreConflicts) == AfterTables(r, keys, f, order[..k], ignoreConflicts)
    decreases |order|
  {
    if k < |order| {
      assert order[..|order| - 1][..k] == order[..k];
      AfterTablesStops(r, keys, f, order[..|order| - 1], k, ignoreConflicts);
    } else {
      assert order[..k] == order;
    }
  }

  lemma {:induction false} AfterAppsStops(r: Run, keys: Keys, apps: seq<(string, Fixture)>, k: nat, ignoreConflicts: bool)
    requires k <= |apps|
    requires AfterApps(r, keys, apps[..k], ignoreConflicts).error.Some?
    ensures AfterApps(r, keys, apps, ignoreConflicts) == AfterApps(r, keys, apps[..k], ignoreConflicts)
    decreases |apps|
  {
    if k < |apps| {
      assert apps[..|apps| - 1][..k] == apps[..k];
      AfterAppsStops(r, keys, apps[..|apps| - 1], k, ignoreConflicts);
    } else {
      assert apps[..k] == apps;
    }
  }

  lemma {:induction false} AfterImportStops(r: Run, keys: Keys, tables: seq<(string, seq<Row>)>, k: nat, ignoreConflicts: bool)
    requires k <= |tables|
    requires AfterImport(r, keys, tables[..k], ignoreConflicts).error.Some?
    ensures AfterImport(r, keys, tables, ignoreConflicts) == AfterImport(r, keys, tables[..k], ignoreConflicts)
    decreases |tables|
  {
    if k < |tables| {
      assert tables[..|tables| - 1][..k] == tables[..k];
      AfterImportStops(r, keys, tables[..|tables| - 1], k, ignoreConflicts);
    } else {
      assert tables[..k] == tables;
    }
  }
}
