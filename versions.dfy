/** The version registry of a schema package and the version inspector that
    reads the installed schema version from the `metadata` table. */
module Versions {
  import opened Wrappers

  /** A schema version as stored in the `value` column of the metadata table. */
  type Version = string

  /** The operations a version module may expose. */
  datatype Operation = Upgrade | Overlay | Trim

  /** The module `<package>.v<version>` of a schema package: which of the
      three functions it defines, and its `previousVersion` attribute
      (`None` when the module has no such attribute). */
  datatype VersionModule = VersionModule(
    upgrade: bool,
    overlay: bool,
    trim: bool,
    previousVersion: Option<Version>)
  {
    predicate Supports(op: Operation) {
      match op
      case Upgrade => upgrade
      case Overlay => overlay
      case Trim => trim
    }
  }

  /** A schema package: its `versions` list, oldest first, and the version
      modules that can be imported from it. */
  datatype Registry = Registry(versions: seq<Version>, modules: map<Version, VersionModule>)

  /** The kinds of driver exception a query can raise. */
  datatype DbErrorKind = ProgrammingError | OperationalError | OtherDatabaseError

  /** What the version query `SELECT * FROM metadata WHERE attribute = 'version'`
      produced: a driver exception with its error number, or the result rows,
      each a mapping from column name to value (`None` for SQL NULL). */
  datatype QueryOutcome =
    | QueryFailed(kind: DbErrorKind, code: int)
    | QueryRows(rows: seq<map<string, Option<Version>>>)

  /** MySQL's error number for "table does not exist". */
  const NoSuchTableCode := 1146

  /** Everything the inspector, the registry and the migration commands raise. */
  datatype Error =
    | DatabaseError(kind: DbErrorKind, code: int)        // a query exception, re-raised unchanged
    | VersionUnreadable                                  // 'Could not read current database version'
    | MissingValueColumn                                 // the row has no `value` column
    | NoSchemaInstalled
    | AlreadyInstalled(version: Version)
    | NoVersionsDeclared                                 // `versions[-1]` of an empty list
    | UnknownVersion(version: Version)                   // the version module cannot be imported
    | Unsupported(version: Version, op: Operation)
    | NoPreviousVersion(version: Version)                // the module has no `previousVersion`
    | SchemaVersionMismatch(installed: Option<Version>, expected: Version)
    | InputExhausted                                     // the confirmation prompt hit end of input

  /** The outcome for a schema whose metadata row holds `v`. */
  function VersionRow(v: Version): QueryOutcome
  {
    QueryRows([map["attribute" := Some("version"), "value" := Some(v)]])
  }

  /** `versions[-1]`, the latest version of the package. */
  function Latest(reg: Registry): (r: Result<Version, Error>)
    ensures r.Ok? <==> |reg.versions| > 0
    ensures r.Ok? ==> r.value == reg.versions[|reg.versions| - 1]
    ensures r.Err? ==> r.error == NoVersionsDeclared
  {
    if |reg.versions| == 0 then Err(NoVersionsDeclared)
    else Ok(reg.versions[|reg.versions| - 1])
  }

  /** `importlib.import_module(package + '.v' + version)`. */
  function Resolve(reg: Registry, v: Version): (r: Result<VersionModule, Error>)
    ensures r.Ok? <==> v in reg.modules
    ensures r.Ok? ==> r.value == reg.modules[v]
    ensures r.Err? ==> r.error == UnknownVersion(v)
  {
    if v in reg.modules then Ok(reg.modules[v]) else Err(UnknownVersion(v))
  }

  /** getSchemaVersion / getCurrentVersion / getCurrDbSchemaVersion: a missing
      metadata table means no schema is installed; any other query exception
      propagates unchanged; an empty result is an inconsistent schema; and
      otherwise the first row's `value` is the installed version, where a
      NULL `value` reads as no version at all. */
  function GetSchemaVersion(q: QueryOutcome): (r: Result<Option<Version>, Error>)
    ensures r == Ok(None) <==>
              q == QueryFailed(ProgrammingError, NoSuchTableCode) ||
              (q.QueryRows? && q.rows != [] && "value" in q.rows[0] && q.rows[0]["value"] == None)
    ensures q.QueryFailed? && q != QueryFailed(ProgrammingError, NoSuchTableCode) ==>
              r == Err(DatabaseError(q.kind, q.code))
    ensures q.QueryRows? && (q.rows == [] || q.rows[0] == map[]) ==> r == Err(VersionUnreadable)
    ensures q.QueryRows? && q.rows != [] && q.rows[0] != map[] && "value" !in q.rows[0] ==>
              r == Err(MissingValueColumn)
    ensures r.Ok? && r.value.Some? <==>
              q.QueryRows? && q.rows != [] && "value" in q.rows[0] && q.rows[0]["value"].Some?
    ensures r.Ok? && r.value.Some? ==> r.value == q.rows[0]["value"]
  {
    match q
    case QueryFailed(kind, code) =>
      if kind == ProgrammingError && code == NoSuchTableCode then Ok(None)
      else Err(DatabaseError(kind, code))
    case QueryRows(rows) =>
      if rows == [] || rows[0] == map[] then Err(VersionUnreadable)
      else if "value" !in rows[0] then Err(MissingValueColumn)
      else Ok(rows[0]["value"])
  }

  /** checkDbSchemaVersion: the application starts only when the installed
      version is exactly the latest version of its schema package; an
      uninstalled schema is a mismatch too. */
  function CheckDbSchemaVersion(reg: Registry, q: QueryOutcome): (r: Result<(), Error>)
    ensures r.Ok? <==> |reg.versions| > 0 && GetSchemaVersion(q) == Ok(Some(reg.versions[|reg.versions| - 1]))
    ensures GetSchemaVersion(q).Err? ==> r == Err(GetSchemaVersion(q).error)
    ensures GetSchemaVersion(q).Ok? && |reg.versions| == 0 ==> r == Err(NoVersionsDeclared)
    ensures GetSchemaVersion(q).Ok? && |reg.versions| > 0 &&
            GetSchemaVersion(q).value != Some(reg.versions[|reg.versions| - 1]) ==>
              r == Err(SchemaVersionMismatch(GetSchemaVersion(q).value, reg.versions[|reg.versions| - 1]))
  {
    var installed :- GetSchemaVersion(q);
    var expected :- Latest(reg);
    if installed != Some(expected) then Err(SchemaVersionMismatch(installed, expected))
    else Ok(())
  }

  /** The metadata row round trip: a schema whose row holds `v` reads back as `v`,
      and passes the startup check exactly when `v` is the latest version. */
  lemma VersionRowReadsBack(reg: Registry, v: Version)
    ensures GetSchemaVersion(VersionRow(v)) == Ok(Some(v))
    ensures CheckDbSchemaVersion(reg, VersionRow(v)).Ok? <==>
              |reg.versions| > 0 && v == reg.versions[|reg.versions| - 1]
  {
    var row := map["attribute" := Some("version"), "value" := Some(v)];
    assert "value" in row && row["value"] == Some(v);
    assert row != map[] by { assert "value" in row; }
  }
}
