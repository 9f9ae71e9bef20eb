/** What the fixture and data loaders promise: inserts follow the table order
    and the row order and stop at the first exception; ignored conflicts never
    end a load; the database's unique keys stay satisfied; and of a document
    with several applications, only the `self` fixture is inserted. */
module FixtureProperties {
  import opened Wrappers
  import opened Fixtures

  // ---------------------------------------------------------------------
  // Sequence prefixes

  lemma PrefixTransitive<T>(a: seq<T>, b: seq<T>, c: seq<T>)
    requires a <= b && b <= c
    ensures a <= c
  {
    assert a == b[..|a|] == c[..|b|][..|a|];
  }

  lemma PrefixAppend<T>(a: seq<T>, x: seq<T>, y: seq<T>)
    requires x <= y
    ensures a + x <= a + y
  {
    assert (a + y)[..|a + x|] == a + y[..|x|];
  }

  // ---------------------------------------------------------------------
  // Inserts follow the table order and the row order

  /** The INSERTs for a table's rows, in row order. */
  function RowAttempts(t: string, rows: seq<Row>): (r: seq<Attempt>)
    ensures |r| == |rows| && forall i :: 0 <= i < |rows| ==> r[i] == Attempt(t, rows[i])
    decreases |rows|
  {
    if rows == [] then []
    else RowAttempts(t, rows[..|rows| - 1]) + [Attempt(t, rows[|rows| - 1])]
  }

  /** The INSERTs for the tables of `order`, table by table, each in row order. */
  function PlannedAttempts(f: Fixture, order: seq<string>): seq<Attempt>
    decreases |order|
  {
    if order == [] then []
    else
      var before := PlannedAttempts(f, order[..|order| - 1]);
      var t := order[|order| - 1];
      if t in f.tables then before + RowAttempts(t, f.tables[t]) else before
  }

  /** One iteration of the row loop logs the row's INSERT, unless an
      exception already ended the loop, and hands nothing off. */
  lemma {:induction false} AfterRowLogsOneAttempt(r: Run, keys: Keys, t: string, row: Row, ignoreConflicts: bool)
    ensures AfterRow(r, keys, t, row, ignoreConflicts).db.attempts ==
              if r.error.Some? then r.db.attempts else r.db.attempts + [Attempt(t, row)]
    ensures AfterRow(r, keys, t, row, ignoreConflicts).db.handedOff == r.db.handedOff
    ensures AfterRow(r, keys, t, row, ignoreConflicts).error.None? ==> r.error.None?
  {
  }

  /** An exception of the row loop was raised by one row `k`: the rows
      before it raised nothing, the loop ends with that row's step, and that
      row's INSERT is the last one logged. */
  lemma {:induction false} RowLoopErrorFromOneRow(d: Db, keys: Keys, t: string, rows: seq<Row>, ignoreConflicts: bool)
    ensures var r := AfterRows(Run(d, None), keys, t, rows, ignoreConflicts);
            r.error.Some? ==>
              exists k :: 0 <= k < |rows| &&
                var before := AfterRows(Run(d, None), keys, t, rows[..k], ignoreConflicts);
                before.error.None? &&
                r == AfterRow(before, keys, t, rows[k], ignoreConflicts) &&
                r.db.attempts == before.db.attempts + [Attempt(t, rows[k])]
    decreases |rows|
  {
    var r := AfterRows(Run(d, None), keys, t, rows, ignoreConflicts);
    if rows != [] && r.error.Some? {
      var init := rows[..|rows| - 1];
      var p := AfterRows(Run(d, None), keys, t, init, ignoreConflicts);
      if p.error.Some? {
        RowLoopErrorFromOneRow(d, keys, t, init, ignoreConflicts);
        var k :| 0 <= k < |init| &&
          var before := AfterRows(Run(d, None), keys, t, init[..k], ignoreConflicts);
          before.error.None? &&
          p == AfterRow(before, keys, t, init[k], ignoreConflicts) &&
          p.db.attempts == before.db.attempts + [Attempt(t, init[k])];
        assert init[..k] == rows[..k] && init[k] == rows[k];
        assert r == p;
      } else {
        var k := |rows| - 1;
        assert rows[..k] == init;
        AfterRowLogsOneAttempt(p, keys, t, rows[k], ignoreConflicts);
      }
    }
  }

  /** The row loop executes the INSERTs of the rows in row order: what it
      logs is an initial part of them, and all of them when it raises
      nothing. Which row raised is `RowLoopErrorFromOneRow`. */
  lemma {:induction false} RowsFollowRowOrder(d: Db, keys: Keys, t: string, rows: seq<Row>, ignoreConflicts: bool)
    ensures d.attempts <= AfterRows(Run(d, None), keys, t, rows, ignoreConflicts).db.attempts
    ensures AfterRows(Run(d, None), keys, t, rows, ignoreConflicts).db.attempts <= d.attempts + RowAttempts(t, rows)
    ensures AfterRows(Run(d, None), keys, t, rows, ignoreConflicts).error.None? ==>
              AfterRows(Run(d, None), keys, t, rows, ignoreConflicts).db.attempts == d.attempts + RowAttempts(t, rows)
    ensures AfterRows(Run(d, None), keys, t, rows, ignoreConflicts).db.handedOff == d.handedOff
    decreases |rows|
  {
    if rows != [] {
      var init := rows[..|rows| - 1];
      var last := rows[|rows| - 1];
      RowsFollowRowOrder(d, keys, t, init, ignoreConflicts);
      var p := AfterRows(Run(d, None), keys, t, init, ignoreConflicts);
      AfterRowLogsOneAttempt(p, keys, t, last, ignoreConflicts);
      if p.error.None? {
        assert d.attempts + RowAttempts(t, rows) == p.db.attempts + [Attempt(t, last)];
      } else {
        PrefixAppend(d.attempts, RowAttempts(t, init), RowAttempts(t, rows));
        PrefixTransitive(p.db.attempts, d.attempts + RowAttempts(t, init), d.attempts + RowAttempts(t, rows));
      }
    }
  }

  lemma PlannedAttemptsGrow(f: Fixture, order: seq<string>)
    requires order != []
    ensures PlannedAttempts(f, order[..|order| - 1]) <= PlannedAttempts(f, order)
  {
  }

  /** The table loop executes the INSERTs table by table in `order`, each
      table's in row order: what it logs is an initial part of them, and all
      of them when it raises nothing; nothing runs after an exception. */
  lemma {:induction false} TablesFollowTableOrder(d: Db, keys: Keys, f: Fixture, order: seq<string>, ignoreConflicts: bool)
    ensures d.attempts <= AfterTables(Run(d, None), keys, f, order, ignoreConflicts).db.attempts
    ensures AfterTables(Run(d, None), keys, f, order, ignoreConflicts).db.attempts <= d.attempts + PlannedAttempts(f, order)
    ensures AfterTables(Run(d, None), keys, f, order, ignoreConflicts).error.None? ==>
              AfterTables(Run(d, None), keys, f, order, ignoreConflicts).db.attempts == d.attempts + PlannedAttempts(f, order)
    decreases |order|
  {
    if order != [] {
      var init := order[..|order| - 1];
      var t := order[|order| - 1];
      TablesFollowTableOrder(d, keys, f, init, ignoreConflicts);
      var p := AfterTables(Run(d, None), keys, f, init, ignoreConflicts);
      if p.error.Some? || t !in f.tables {
        PlannedAttemptsGrow(f, order);
        PrefixAppend(d.attempts, PlannedAttempts(f, init), PlannedAttempts(f, order));
        PrefixTransitive(p.db.attempts, d.attempts + PlannedAttempts(f, init), d.attempts + PlannedAttempts(f, order));
      } else {
        assert order == init + [t];
        TableStepFollowsOrder(d, keys, f, init, t, p, ignoreConflicts);
      }
    }
  }

  /** One more table of the loop, after the earlier tables raised nothing. */
  lemma {:induction false} TableStepFollowsOrder(d: Db, keys: Keys, f: Fixture, init: seq<string>, t: string, p: Run, ignoreConflicts: bool)
    requires p == AfterTables(Run(d, None), keys, f, init, ignoreConflicts)
    requires p.error.None? && t in f.tables
    requires p.db.attempts == d.attempts + PlannedAttempts(f, init)
    ensures d.attempts <= AfterTables(Run(d, None), keys, f, init + [t], ignoreConflicts).db.attempts
    ensures AfterTables(Run(d, None), keys, f, init + [t], ignoreConflicts).db.attempts <= d.attempts + PlannedAttempts(f, init + [t])
    ensures AfterTables(Run(d, None), keys, f, init + [t], ignoreConflicts).error.None? ==>
              AfterTables(Run(d, None), keys, f, init + [t], ignoreConflicts).db.attempts == d.attempts + PlannedAttempts(f, init + [t])
  {
    var order := init + [t];
    assert order[..|order| - 1] == init && order[|order| - 1] == t;
    var rows := f.tables[t];
    assert p == Run(p.db, None);
    RowsFollowRowOrder(p.db, keys, t, rows, ignoreConflicts);
    var r := AfterTables(Run(d, None), keys, f, order, ignoreConflicts);
    assert r == AfterRows(Run(p.db, None), keys, t, rows, ignoreConflicts);
    assert PlannedAttempts(f, order) == PlannedAttempts(f, init) + RowAttempts(t, rows);
    assert d.attempts + PlannedAttempts(f, order) == p.db.attempts + RowAttempts(t, rows);
    PrefixTransitive(d.attempts, p.db.attempts, r.db.attempts);
  }

  /** `_installFixture` executes nothing at all without a `tableOrder`
      entry; with one, it executes the INSERTs in table order and row order
      and stops at the first exception. */
  lemma FixtureFollowsTableOrder(d: Db, keys: Keys, f: Fixture, ignoreConflicts: bool)
    ensures f.tableOrder.None? ==> AfterFixture(Run(d, None), keys, f, ignoreConflicts) == Run(d, None)
    ensures f.tableOrder.Some? ==>
              var r := AfterFixture(Run(d, None), keys, f, ignoreConflicts);
              d.attempts <= r.db.attempts &&
              r.db.attempts <= d.attempts + PlannedAttempts(f, f.tableOrder.value) &&
              (r.error.None? ==> r.db.attempts == d.attempts + PlannedAttempts(f, f.tableOrder.value))
  {
    if f.tableOrder.Some? {
      TablesFollowTableOrder(d, keys, f, f.tableOrder.value, ignoreConflicts);
    }
  }

  // ---------------------------------------------------------------------
  // Ignored conflicts never end a load

  predicate NoIntegrityError(r: Run)
  {
    r.error.None? || !r.error.value.IntegrityError?
  }

  lemma {:induction false} IgnoredConflictsRows(r: Run, keys: Keys, t: string, rows: seq<Row>)
    requires NoIntegrityError(r)
    ensures NoIntegrityError(AfterRows(r, keys, t, rows, true))
    decreases |rows|
  {
    if rows != [] {
      IgnoredConflictsRows(r, keys, t, rows[..|rows| - 1]);
    }
  }

  lemma {:induction false} IgnoredConflictsTables(r: Run, keys: Keys, f: Fixture, order: seq<string>)
    requires NoIntegrityError(r)
    ensures NoIntegrityError(AfterTables(r, keys, f, order, true))
    decreases |order|
  {
    if order != [] {
      var init := order[..|order| - 1];
      IgnoredConflictsTables(r, keys, f, init);
      var p := AfterTables(r, keys, f, init, true);
      var t := order[|order| - 1];
      if p.error.None? && t in f.tables {
        IgnoredConflictsRows(p, keys, t, f.tables[t]);
      }
    }
  }

  lemma {:induction false} IgnoredConflictsImport(r: Run, keys: Keys, tables: seq<(string, seq<Row>)>)
    requires NoIntegrityError(r)
    ensures NoIntegrityError(AfterImport(r, keys, tables, true))
    decreases |tables|
  {
    if tables != [] {
      var init := tables[..|tables| - 1];
      IgnoredConflictsImport(r, keys, init);
      var p := AfterImport(r, keys, init, true);
      var table := tables[|tables| - 1];
      if p.error.None? {
        IgnoredConflictsRows(p, keys, table.0, table.1);
      }
    }
  }

  lemma {:induction false} IgnoredConflictsApps(r: Run, keys: Keys, apps: seq<(string, Fixture)>)
    requires NoIntegrityError(r)
    ensures NoIntegrityError(AfterApps(r, keys, apps, true))
    decreases |apps|
  {
    if apps != [] {
      var init := apps[..|apps| - 1];
      IgnoredConflictsApps(r, keys, init);
      var p := AfterApps(r, keys, init, true);
      var app := apps[|apps| - 1];
      if p.error.None? && app.0 == "self" && app.1.tableOrder.Some? {
        IgnoredConflictsTables(p, keys, app.1, app.1.tableOrder.value);
      }
    }
  }

  /** With `ignoreConflicts`, neither `installAFixture` nor `importData`
      ever ends with an IntegrityError. */
  lemma IgnoredConflictsNeverRaise(d: Db, keys: Keys, doc: Document, tables: seq<(string, seq<Row>)>)
    requires WellFormed(doc)
    ensures NoIntegrityError(AfterDocument(Run(d, None), keys, doc, true))
    ensures NoIntegrityError(AfterImport(Run(d, None), keys, tables, true))
  {
    IgnoredConflictsImport(Run(d, None), keys, tables);
    match doc
    case Flat(f) =>
      if f.tableOrder.Some? {
        IgnoredConflictsTables(Run(d, None), keys, f, f.tableOrder.value);
      }
    case PerApp(apps) =>
      IgnoredConflictsApps(Run(d, None), keys, apps);
  }

  // ---------------------------------------------------------------------
  // The unique keys stay satisfied

  lemma ExecuteKeepsConsistent(d: Db, keys: Keys, t: string, row: Row)
    requires Consistent(d.tables, keys)
    ensures Consistent(Execute(d, keys, t, row).0.tables, keys)
  {
    var res := Execute(d, keys, t, row);
    if res.1 == Inserted && t in keys {
      var rows := d.tables[t] + [row];
      assert !Conflicts(d.tables[t], row, keys[t]);
      forall i, j | 0 <= i < j < |rows| && !HasNull(KeyOf(rows[i], keys[t]))
        ensures KeyOf(rows[i], keys[t]) != KeyOf(rows[j], keys[t])
      {
        if j == |rows| - 1 {
          assert rows[i] == d.tables[t][i];
          if KeyOf(rows[i], keys[t]) == KeyOf(row, keys[t]) {
            assert !HasNull(KeyOf(row, keys[t]));
            assert Conflicts(d.tables[t], row, keys[t]);
          }
        } else {
          assert rows[i] == d.tables[t][i] && rows[j] == d.tables[t][j];
        }
      }
      assert UniqueRows(res.0.tables[t], keys[t]);
    }
  }

  lemma {:induction false} RowsKeepConsistent(r: Run, keys: Keys, t: string, rows: seq<Row>, ignoreConflicts: bool)
    requires Consistent(r.db.tables, keys)
    ensures Consistent(AfterRows(r, keys, t, rows, ignoreConflicts).db.tables, keys)
    decreases |rows|
  {
    if rows != [] {
      RowsKeepConsistent(r, keys, t, rows[..|rows| - 1], ignoreConflicts);
      var p := AfterRows(r, keys, t, rows[..|rows| - 1], ignoreConflicts);
      if p.error.None? {
        ExecuteKeepsConsistent(p.db, keys, t, rows[|rows| - 1]);
      }
    }
  }

  lemma {:induction false} TablesKeepConsistent(r: Run, keys: Keys, f: Fixture, order: seq<string>, ignoreConflicts: bool)
    requires Consistent(r.db.tables, keys)
    ensures Consistent(AfterTables(r, keys, f, order, ignoreConflicts).db.tables, keys)
    decreases |order|
  {
    if order != [] {
      var init := order[..|order| - 1];
      TablesKeepConsistent(r, keys, f, init, ignoreConflicts);
      var p := AfterTables(r, keys, f, init, ignoreConflicts);
      var t := order[|order| - 1];
      if p.error.None? && t in f.tables {
        RowsKeepConsistent(p, keys, t, f.tables[t], ignoreConflicts);
      }
    }
  }

  lemma {:induction false} AppsKeepConsistent(r: Run, keys: Keys, apps: seq<(string, Fixture)>, ignoreConflicts: bool)
    requires Consistent(r.db.tables, keys)
    ensures Consistent(AfterApps(r, keys, apps, ignoreConflicts).db.tables, keys)
    decreases |apps|
  {
    if apps != [] {
      var init := apps[..|apps| - 1];
      AppsKeepConsistent(r, keys, init, ignoreConflicts);
      var p := AfterApps(r, keys, init, ignoreConflicts);
      var app := apps[|apps| - 1];
      if p.error.None? && app.0 == "self" && app.1.tableOrder.Some? {
        TablesKeepConsistent(p, keys, app.1, app.1.tableOrder.value, ignoreConflicts);
      }
    }
  }

  lemma {:induction false} ImportKeepsConsistent(r: Run, keys: Keys, tables: seq<(string, seq<Row>)>, ignoreConflicts: bool)
    requires Consistent(r.db.tables, keys)
    ensures Consistent(AfterImport(r, keys, tables, ignoreConflicts).db.tables, keys)
    decreases |tables|
  {
    if tables != [] {
      var init := tables[..|tables| - 1];
      ImportKeepsConsistent(r, keys, init, ignoreConflicts);
      var p := AfterImport(r, keys, init, ignoreConflicts);
      var table := tables[|tables| - 1];
      if p.error.None? {
        RowsKeepConsistent(p, keys, table.0, table.1, ignoreConflicts);
      }
    }
  }

  /** Whatever a loader inserts, and wherever it stops, every table still
      satisfies its unique key afterwards. */
  lemma LoadersKeepConsistent(d: Db, keys: Keys, v: FixtureValue, files: map<string, FixtureValue>,
                              tables: seq<(string, seq<Row>)>, ignoreConflicts: bool)
    requires Consistent(d.tables, keys)
    requires WellFormedValue(v) && forall path :: path in files && files[path].FixtureDict? ==> WellFormed(files[path].doc)
    ensures Consistent(AfterSetUp(d, keys, v, files).db.tables, keys)
    ensures Consistent(AfterImport(Run(d, None), keys, tables, ignoreConflicts).db.tables, keys)
  {
    var loaded := if v.FixturePath? && v.path in files then files[v.path] else v;
    if loaded.FixtureDict? {
      match loaded.doc
      case Flat(f) =>
        if f.tableOrder.Some? {
          TablesKeepConsistent(Run(d, None), keys, f, f.tableOrder.value, false);
        }
      case PerApp(apps) =>
        AppsKeepConsistent(Run(d, None), keys, apps, false);
    }
    ImportKeepsConsistent(Run(d, None), keys, tables, ignoreConflicts);
  }

  // ---------------------------------------------------------------------
  // Only the `self` fixture is inserted

  predicate NoSelf(apps: seq<(string, Fixture)>)
  {
    forall i :: 0 <= i < |apps| ==> apps[i].0 != "self"
  }

  lemma {:induction false} AfterAppsKeepsError(r: Run, keys: Keys, apps: seq<(string, Fixture)>, ignoreConflicts: bool)
    requires r.error.Some?
    ensures AfterApps(r, keys, apps, ignoreConflicts) == r
    decreases |apps|
  {
    if apps != [] {
      AfterAppsKeepsError(r, keys, apps[..|apps| - 1], ignoreConflicts);
    }
  }

  /** The fixtures of other applications are only handed off. */
  lemma {:induction false} OtherAppsHandedOff(r: Run, keys: Keys, apps: seq<(string, Fixture)>, ignoreConflicts: bool)
    requires r.error.None? && NoSelf(apps)
    ensures AfterApps(r, keys, apps, ignoreConflicts) == Run(r.db.(handedOff := r.db.handedOff + Names(apps)), None)
    decreases |apps|
  {
    if apps != [] {
      var init := apps[..|apps| - 1];
      OtherAppsHandedOff(r, keys, init, ignoreConflicts);
      assert Names(apps) == Names(init) + [apps[|apps| - 1].0];
    }
  }

  lemma {:induction false} AfterAppsConcat(r: Run, keys: Keys, a: seq<(string, Fixture)>, b: seq<(string, Fixture)>, ignoreConflicts: bool)
    ensures AfterApps(r, keys, a + b, ignoreConflicts) == AfterApps(AfterApps(r, keys, a, ignoreConflicts), keys, b, ignoreConflicts)
    decreases |b|
  {
    if b == [] {
      assert a + b == a;
    } else {
      assert (a + b)[..|a + b| - 1] == a + b[..|b| - 1];
      assert (a + b)[|a + b| - 1] == b[|b| - 1];
      AfterAppsConcat(r, keys, a, b[..|b| - 1], ignoreConflicts);
    }
  }

  /** In a document with several applications, the database sees exactly
      what installing the `self` fixture alone does; the applications before
      it are handed off first, and those after it only when it raised
      nothing. */
  lemma OnlySelfFixtureInserted(d: Db, keys: Keys, before: seq<(string, Fixture)>, f: Fixture,
                                after: seq<(string, Fixture)>, ignoreConflicts: bool)
    requires WellFormed(PerApp(before + [("self", f)] + after))
    ensures var selfRun := AfterFixture(Run(d.(handedOff := d.handedOff + Names(before)), None), keys, f, ignoreConflicts);
            AfterDocument(Run(d, None), keys, PerApp(before + [("self", f)] + after), ignoreConflicts) ==
              if selfRun.error.Some? then selfRun
              else Run(selfRun.db.(handedOff := selfRun.db.handedOff + Names(after)), None)
  {
    var apps := before + [("self", f)] + after;
    forall i | 0 <= i < |before| ensures before[i].0 != "self" {
      assert apps[i] == before[i] && apps[|before|].0 == "self";
    }
    forall i | 0 <= i < |after| ensures after[i].0 != "self" {
      assert apps[|before| + 1 + i] == after[i] && apps[|before|].0 == "self";
    }
    var start := Run(d, None);
    var selfApp := [("self", f)];
    AfterAppsConcat(start, keys, before + selfApp, after, ignoreConflicts);
    AfterAppsConcat(start, keys, before, selfApp, ignoreConflicts);
    OtherAppsHandedOff(start, keys, before, ignoreConflicts);
    var handed := Run(d.(handedOff := d.handedOff + Names(before)), None);
    assert selfApp[..0] == [];
    var selfRun := AfterApps(handed, keys, selfApp, ignoreConflicts);
    assert selfRun == AfterFixture(handed, keys, f, ignoreConflicts);
    if selfRun.error.Some? {
      AfterAppsKeepsError(selfRun, keys, after, ignoreConflicts);
    } else {
      OtherAppsHandedOff(selfRun, keys, after, ignoreConflicts);
    }
  }

  // ---------------------------------------------------------------------
  // Worked examples

  function RowAB(): Row
  {
    [("a", Int(1)), ("b", Int(2))]
  }

  /** `{"t": [{"a":1,"b":2}, {"a":1,"b":2}], "tableOrder": ["t"]}` into an
      empty table `t` with a unique key on `(a, b)`: both rows are attempted,
      the first is inserted, and the second raises an IntegrityError unless
      conflicts are ignored, in which case it is skipped. */
  lemma DuplicateRowExample(ignoreConflicts: bool)
    ensures var keys := map["t" := ["a", "b"]];
            var f := Fixture(Some(["t"]), map["t" := [RowAB(), RowAB()]]);
            var r := AfterFixture(Run(Db(map["t" := []], [], []), None), keys, f, ignoreConflicts);
            r.db.tables == map["t" := [RowAB()]] &&
            r.db.attempts == [Attempt("t", RowAB()), Attempt("t", RowAB())] &&
            r.error == (if ignoreConflicts then None else Some(IntegrityError("t")))
  {
    var keys := map["t" := ["a", "b"]];
    var rows := [RowAB(), RowAB()];
    var f := Fixture(Some(["t"]), map["t" := rows]);
    var d := Db(map["t" := []], [], []);
    var order := ["t"];
    assert order[..0] == [];
    assert rows[..1] == [RowAB()] && rows[..1][..0] == [];
    assert !Conflicts([], RowAB(), keys["t"]);
    assert ExecStatus(d.tables, keys, "t", RowAB()) == Inserted;
    assert AfterRows(Run(d, None), keys, "t", rows[..1][..0], ignoreConflicts) == Run(d, None);
    var first := AfterRows(Run(d, None), keys, "t", rows[..1], ignoreConflicts);
    assert first == AfterRow(Run(d, None), keys, "t", RowAB(), ignoreConflicts);
    assert d.tables["t"] + [RowAB()] == [RowAB()];
    assert d.tables["t" := [RowAB()]] == map["t" := [RowAB()]];
    assert first == Run(Db(map["t" := [RowAB()]], [Attempt("t", RowAB())], []), None);
    assert Conflicts([RowAB()], RowAB(), keys["t"]) by {
      assert KeyOf([RowAB()][0], keys["t"]) == KeyOf(RowAB(), keys["t"]);
    }
  }

  /** `{"t": [{"a":1}, {"a":1}], "tableOrder": ["t"]}` into an empty table
      `t` with a unique key on `(a, b)`: neither row gives `b`, so their keys
      hold a NULL and both rows are inserted without an error. */
  lemma NullKeyRowsExample(ignoreConflicts: bool)
    ensures var keys := map["t" := ["a", "b"]];
            var row := [("a", Int(1))];
            var f := Fixture(Some(["t"]), map["t" := [row, row]]);
            var r := AfterFixture(Run(Db(map["t" := []], [], []), None), keys, f, ignoreConflicts);
            r.db.tables == map["t" := [row, row]] && r.error.None?
  {
    var keys := map["t" := ["a", "b"]];
    var row := [("a", Int(1))];
    var rows := [row, row];
    var d := Db(map["t" := []], [], []);
    var order := ["t"];
    assert order[..0] == [];
    assert rows[..1] == [row] && rows[..1][..0] == [];
    assert KeyOf(row, keys["t"])[1] == None;
    assert !Conflicts([], row, keys["t"]) && !Conflicts([row], row, keys["t"]);
    assert AfterRows(Run(d, None), keys, "t", rows[..1][..0], ignoreConflicts) == Run(d, None);
    var first := AfterRows(Run(d, None), keys, "t", rows[..1], ignoreConflicts);
    assert first == AfterRow(Run(d, None), keys, "t", row, ignoreConflicts);
    assert d.tables["t"] + [row] == [row];
    assert d.tables["t" := [row]] == map["t" := [row]];
    assert first == Run(Db(map["t" := [row]], [Attempt("t", row)], []), None);
    assert [row] + [row] == rows;
    assert map["t" := [row]]["t" := rows] == map["t" := rows];
  }

  /** `{"self": {"t": [{"a":1}]}, "otherApp": {"u": [{"b":2}]}}`: the
      `self` fixture has no `tableOrder`, so nothing at all is inserted, and
      `otherApp`'s fixture is only handed off. */
  lemma SelfFixtureWithoutOrderExample(d: Db, keys: Keys)
    ensures var doc := PerApp([("self", Fixture(None, map["t" := [[("a", Int(1))]]])),
                               ("otherApp", Fixture(None, map["u" := [[("b", Int(2))]]]))]);
            WellFormed(doc) &&
            AfterDocument(Run(d, None), keys, doc, false) == Run(d.(handedOff := d.handedOff + ["otherApp"]), None)
  {
    var selfFix := Fixture(None, map["t" := [[("a", Int(1))]]]);
    var other := Fixture(None, map["u" := [[("b", Int(2))]]]);
    var apps := [("self", selfFix), ("otherApp", other)];
    assert [] + [("self", selfFix)] + [("otherApp", other)] == apps;
    assert apps[0].0 == "self" && apps[1].0 != "self";
    OnlySelfFixtureInserted(d, keys, [], selfFix, [("otherApp", other)], false);
  }
}
