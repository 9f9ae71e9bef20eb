# Coronado MySQL plugin: a Dafny model of its core

The MySQL plugin for the Coronado application framework has four parts:

- **An application plugin.** `AppPlugin.start` makes sure the shared context holds a database connection and a connection factory. It refuses to start unless the installed schema version is the latest version of the application's schema package. It then publishes two shortcut attributes.
- **A version inspector.** It reads the installed version from the `metadata` table:
  - a missing table (MySQL error 1146) means no schema is installed;
  - any other query error propagates;
  - an empty result is an error;
  - otherwise the result is the `value` column of the first row.
- **Three migration commands: `upgrade`, `overlay` and `trim`.** `upgrade` and `overlay` read the installed version; `trim` reads it only when no reference version is given. Each resolves a version module `<package>.v<version>`. Each then either rejects the request or dispatches exactly one call into that module. `trim` asks the operator for a `y`/`n` confirmation after its checks; when the operator declines, it does nothing and returns normally.
- **Fixture and data loaders.** `_installFixture`, `installAFixture`, `importData` and `FixtureMixin.setUp` turn JSON-like documents into positional `INSERT` statements. They run the inserts row by row and table by table. A duplicate-key conflict either ends the load or, with `ignoreConflicts`, is skipped. The SQL string builders of `Util.py` belong to this part.

The model is split into these files:

| file | module | what it holds |
|---|---|---|
| `wrappers.dfy` | `Wrappers` | `Option` and `Result` |
| `sql_text.dfy` | `SqlText` | Python's `str.join`, `makePlaceholderList`, `buildInsertQuery`, `whereEquals`, and the positional insert text of the loaders |
| `versions.dfy` | `Versions` | the version registry, the query outcome of the version `SELECT`, the inspector and `checkDbSchemaVersion` |
| `migration.dfy` | `Migration` | `upgrade`, `overlay`, `trim`, `askYesOrNoQuestion` and the rejection messages |
| `app_plugin.dfy` | `AppPlugin` | the mutable application context and `start` |
| `fixtures.dfy` | `Fixtures` | the database as a class (table contents, log of insert attempts, fixtures handed off to the operator), a specification function for each loader, and the loaders as methods proved against it |
| `fixture_properties.dfy` | `FixtureProperties` | what the loaders promise: insert order, stopping at the first exception, ignored conflicts, unique keys kept, only `self` inserted |

The pure parts are functions:
- the dispatch of the three commands, and what the inspector and `checkDbSchemaVersion` decide, are functions of:
  - the outcome of the version query (`QueryOutcome`);
  - the registry (the `versions` list and the importable version modules with their `upgrade`/`overlay`/`trim` functions and `previousVersion`);
  - the arguments;
- a command's result is the single call it dispatches (`Action`) or the error it raises;
- the string builders are functions on strings.

The stateful parts are imperative:
- the loaders are methods of `Fixtures.Database`. Each is proved to leave the database and the raised exception that the matching `After...` function describes;
- `askYesOrNoQuestion` is a loop over the operator's successive responses;
- `start` updates the fields of `AppPlugin.AppContext`.

Undefined names in the source are modelled as their evident intent. As written, each of them would raise a `NameError` when reached:
- `getConnection()` in `trim` (`MySQLPlugin/__init__.py:419`), `database` in `importData` (`:216`), and the unqualified `getCurrentVersion`/`installSchema` of `MySQLPlugin.py` (`:238`, `:316`, `:371`, `:426`) are taken as the connection or method the command evidently meant.
- `DatabaseError` (`MySQLPlugin/__init__.py:95`, `MySQLPlugin.py:132`) is never imported or defined. The model raises the evident "version unreadable" error there (the `VersionUnreadable` case of `Versions.Error`).
- `MySQLPlugin.py:121` catches `pymysql.ProgrammingError`, but that file imports only `MySQLdb` (`MySQLPlugin.py:14-15`). As written, its `getCurrDbSchemaVersion` cannot reach the error-1146 branch. The model gives it the behaviour of `MySQLPlugin/__init__.py:84-91`.
- `SchemaVersionMismatch` (`MySQLPlugin.py:146`) is defined only in `MySQLPlugin/__init__.py:49`.
- `IllegalArgument` (`MySQLPlugin.py:552`) is defined nowhere. The model raises the evident error (the `IllegalArgument` case of `Fixtures.LoadError`).
- `getConnection()` in the older `trim` (`MySQLPlugin.py:451`) is undefined too, as in the package module.
- `MySQLPlugin/__init__.py` mixes Python versions: `open(path, encoding='utf-8')` in `importData` (`:207`) exists only in Python 3, while `raw_input` in `askYesOrNoQuestion` (`:429`, `:431`) exists only in Python 2. As written, either `importData` or the trim confirmation fails, whichever interpreter runs it. The model gives both their evident behaviour.

With these intents, the version inspectors `getSchemaVersion`, `getCurrentVersion` and `getCurrDbSchemaVersion` do the same thing, so one function models all of them.

`MySQLPlugin.py` is an older copy of the package module. Where both define a command, the rows below cite `MySQLPlugin/__init__.py`. `_installFixture`, `installAFixture` and `FixtureMixin` exist only in `MySQLPlugin.py`. `importData` exists only in `MySQLPlugin/__init__.py:197-225`.

Where the code and the written design disagree, the model follows the code:
- **The "already installed" test runs before an omitted target is defaulted.** `upgrade` and `overlay` compare the installed version with the target as the caller gave it (`MySQLPlugin/__init__.py:282`). Only afterwards do they replace an omitted target by the latest version (`:289-290`). So with no target, a schema already at the latest version is not rejected: the module's function is called with `fromVersion` equal to the target (`Migration.OmittedTargetAtLatestStillDispatches`).
- **A conflict that is not ignored ends the whole load, not just the current table.** The `raise` leaves every enclosing loop (`Fixtures.AfterTablesStops`, `FixtureProperties.TablesFollowTableOrder`).
- **A `self` fixture without `tableOrder` inserts nothing.** This holds for a document with per-application fixtures too (`FixtureProperties.SelfFixtureWithoutOrderExample`).

## Model

| member | source | states |
|---|---|---|
| SqlText.MakePlaceholderList | MySQLPlugin/Util.py:20-21 | an empty list gives the empty string; a list of n > 0 items gives the 3n-1 characters `%s,%s,…,%s` |
| SqlText.RepeatedPlaceholders | MySQLPlugin.py:478 | for n ≥ 1, the loaders' `'%s' + ',%s' * (n-1)` is the `,`-join of n copies of `%s`, the same text `makePlaceholderList` builds |
| SqlText.PositionalInsertQuery | MySQLPlugin.py:476-478 | a row with columns gives `INSERT INTO t (c1,…,cn) VALUES (%s,…,%s)` with one placeholder per column; a row with no columns still gets one `%s` |
| SqlText.BuildInsertQuery | MySQLPlugin/Util.py:1-7 | the query names each key as a column, in order, and gives each key its own named placeholder `%(k)s`; no keys give `() VALUES(%()s)` |
| SqlText.NamedPlaceholderJoin | MySQLPlugin/Util.py:6-7 | for a non-empty key list, joining with `)s,%(` and adding the outer brackets equals the comma-join of the per-key placeholders |
| SqlText.WhereEquals | MySQLPlugin/Util.py:10-17 | no conditions give the empty clause; one key gives `k = %(k)s ` |
| SqlText.WhereEqualsConcat | MySQLPlugin/Util.py:15-17 | the clause for `a + b` is the clause for `a`, the coordinator and a space, then the clause for `b` |
| SqlText.WhereEqualsDefaultCons | MySQLPlugin/Util.py:10-17 | with the default coordinator, each further key is attached by `AND ` |
| Versions.Latest | MySQLPlugin/__init__.py:289-290 | `versions[-1]` is the last declared version; an empty list is an error |
| Versions.Resolve | MySQLPlugin/__init__.py:292-295 | importing the module of a version succeeds exactly when the package has it |
| Versions.GetSchemaVersion | MySQLPlugin/__init__.py:228-253 | "not installed" exactly on a ProgrammingError with code 1146 or a NULL `value`; any other query error is re-raised unchanged; no row or an empty row is an error; a version is read exactly when the first row has a non-NULL `value`, and it is that value |
| Versions.CheckDbSchemaVersion | MySQLPlugin/__init__.py:102-112 | the check passes exactly when the installed version equals the latest declared one; read errors propagate; a readable version with no declared versions is the `versions[-1]` error; any other installed version, including none, is a mismatch naming both versions |
| Versions.VersionRowReadsBack | MySQLPlugin/__init__.py:247-251 | a metadata row holding v reads back as v, and passes the startup check exactly when v is the latest version |
| Migration.Upgrade | MySQLPlugin/__init__.py:276-308 | read errors propagate; no schema is rejected; an explicit target equal to the installed version is rejected, an omitted one never is; after those checks, an empty version list, a target without a module and a target module without `upgrade` are each rejected, and exactly in those cases; otherwise exactly one call of the target's `upgrade` with the installed version as `fromVersion` |
| Migration.Overlay | MySQLPlugin/__init__.py:335-365 | the same checks, defaults and rejections as upgrade, requiring and dispatching `overlay` |
| Migration.OmittedTargetAtLatestStillDispatches | MySQLPlugin/__init__.py:282-290 | with no target and the latest version installed, the command dispatches a migration from the latest version to itself |
| Migration.InstalledTargetRejected | MySQLPlugin/__init__.py:276-284 | with v recorded in the metadata row, `upgrade` and `overlay` to v are rejected as already installed |
| Migration.NullVersionReadsAsNotInstalled | MySQLPlugin/__init__.py:251-253 | a metadata row whose `value` is NULL reads as no schema: `upgrade` and `overlay` reject it, and the startup check fails |
| Migration.FirstAnswer | MySQLPlugin/__init__.py:428-432 | the prompt settles exactly when some response is `y` or `n`, and then on the first such response |
| Migration.AskYesOrNoQuestion | MySQLPlugin/__init__.py:428-432 | the loop reads responses until the first `y` or `n` and returns it; it reads nothing after it; it ends without an answer only after reading all input |
| Migration.FirstAnswerAt | MySQLPlugin/__init__.py:429-432 | a `y`/`n` response preceded only by other responses is the answer |
| Migration.Trim | MySQLPlugin/__init__.py:392-424 | the reference defaults to the installed version; no schema is rejected; a reference without a module, and a reference module without `trim`, are rejected exactly in those cases; the trim version defaults to `previousVersion`, and a missing one is rejected; input that ends before a `y`/`n` raises; after confirmation, `y` dispatches exactly one `trim(reference, trimVersion)` call and anything else dispatches nothing |
| Migration.TrimWithReferenceIgnoresInstalledVersion | MySQLPlugin/__init__.py:392-393 | with an explicit reference version, the installed version is never read |
| Migration.DeclinedTrimDispatchesNothing | MySQLPlugin/__init__.py:414-424 | a first `n`, after any number of invalid responses, performs no trim |
| Migration.UnsupportedMessage | MySQLPlugin/__init__.py:357-359 | the rejection for a missing operation always says the version does not support it |
| Migration.OverlayMessageAsWrittenClaimsSupport | MySQLPlugin/__init__.py:357-359 | the overlay rejection as written says the version does support overlay, which differs from the corrected message |
| AppPlugin.AppContext.Start | MySQLPlugin/__init__.py:59-72 | an existing connection is kept, else the new one is stored; the connection factory is present afterwards; the result is the schema version check; the two shortcut attributes are appended only when the check passes |
| Fixtures.AfterSetUp | MySQLPlugin.py:539-555 | a value that is not a dictionary raises IllegalArgument; a path without a file raises; a path whose file holds a dictionary installs it without ignoring conflicts, and one whose file holds anything else raises IllegalArgument; a dictionary given directly is installed the same way; a successful setUp always installed a dictionary |
| Fixtures.StatementTakesRowValues | MySQLPlugin.py:476-481 | a non-empty row's INSERT has one placeholder per value it is executed with; an empty row's INSERT has one placeholder and no value, so it fails |
| Fixtures.Database.ExecuteInsert | MySQLPlugin.py:476-481 | one INSERT is logged, and the row is added to its table exactly when the database accepts it |
| Fixtures.Database.InsertRows | MySQLPlugin.py:475-487 | the row loop leaves the database and the exception that the row-by-row specification describes, stopping at the first exception |
| Fixtures.Database.InstallFixture | MySQLPlugin.py:468-487 | `_installFixture` leaves what the table-by-table specification describes; with no `tableOrder` it leaves the database unchanged |
| Fixtures.Database.InstallAFixture | MySQLPlugin.py:490-510 | a flat fixture is installed; for per-application fixtures, `self` is installed and every other application's fixture is handed off, in the dict's iteration order |
| Fixtures.Database.ImportData | MySQLPlugin/__init__.py:210-225 | `importData` inserts the named tables' rows in order and stops at the first exception that is not an ignored conflict |
| Fixtures.Database.SetUp | MySQLPlugin.py:539-555 | `setUp` leaves exactly what its specification describes |
| Fixtures.AfterRowsStops | MySQLPlugin.py:482-487 | after the first exception of the row loop, later rows change nothing |
| Fixtures.AfterTablesStops | MySQLPlugin.py:473-487 | after the first exception, later tables change nothing |
| Fixtures.AfterAppsStops | MySQLPlugin.py:497-499 | after the `self` fixture raises, later applications are not handed off |
| Fixtures.AfterImportStops | MySQLPlugin/__init__.py:210-225 | after the first exception of `importData`, later tables change nothing |
| FixtureProperties.RowsFollowRowOrder | MySQLPlugin.py:475-487 | the INSERTs executed are an initial part of the rows' INSERTs in row order, and all of them when nothing was raised |
| FixtureProperties.RowLoopErrorFromOneRow | MySQLPlugin.py:479-487 | an exception of the row loop was raised by a single row: the rows before it raised nothing, the loop ends with that row's step, and its INSERT is the last one logged |
| FixtureProperties.TablesFollowTableOrder | MySQLPlugin.py:473-487 | the INSERTs executed follow `tableOrder` table by table and each table's rows in order; all of them when nothing was raised, otherwise an initial part |
| FixtureProperties.FixtureFollowsTableOrder | MySQLPlugin.py:468-473 | without `tableOrder` nothing is executed; with it, the INSERTs follow the table order and row order |
| FixtureProperties.IgnoredConflictsRows | MySQLPlugin.py:482-485 | with conflicts ignored, the row loop never raises an IntegrityError |
| FixtureProperties.IgnoredConflictsTables | MySQLPlugin.py:473-487 | with conflicts ignored, the table loop never raises an IntegrityError |
| FixtureProperties.IgnoredConflictsImport | MySQLPlugin/__init__.py:219-225 | with conflicts ignored, `importData` never raises an IntegrityError |
| FixtureProperties.IgnoredConflictsApps | MySQLPlugin.py:497-499 | with conflicts ignored, installing per-application fixtures never raises an IntegrityError |
| FixtureProperties.IgnoredConflictsNeverRaise | MySQLPlugin.py:490-499 | `installAFixture` and `importData` with `ignoreConflicts` never end with an IntegrityError |
| FixtureProperties.ExecuteKeepsConsistent | MySQLPlugin.py:479-482 | an INSERT never breaks a table's unique key; keys with a NULL part are exempt, as in a MySQL unique index |
| FixtureProperties.RowsKeepConsistent | MySQLPlugin.py:475-487 | the row loop keeps every unique key satisfied |
| FixtureProperties.TablesKeepConsistent | MySQLPlugin.py:473-487 | the table loop keeps every unique key satisfied |
| FixtureProperties.AppsKeepConsistent | MySQLPlugin.py:497-510 | installing per-application fixtures keeps every unique key satisfied |
| FixtureProperties.ImportKeepsConsistent | MySQLPlugin/__init__.py:210-225 | `importData` keeps every unique key satisfied |
| FixtureProperties.LoadersKeepConsistent | MySQLPlugin.py:539-555 | `setUp` and `importData` leave every table satisfying its unique key, whatever they insert and wherever they stop |
| FixtureProperties.OtherAppsHandedOff | MySQLPlugin.py:500-510 | fixtures of applications other than `self` are only handed off, in order, and touch no table |
| FixtureProperties.OnlySelfFixtureInserted | MySQLPlugin.py:490-510 | in a per-application document, the database sees exactly what installing the `self` fixture alone does; the applications before it are handed off first, and those after it only if it raised nothing |
| FixtureProperties.DuplicateRowExample | MySQLPlugin.py:479-487 | two identical rows under a unique key: both are attempted, one is stored, and the second raises an IntegrityError unless conflicts are ignored |
| FixtureProperties.NullKeyRowsExample | MySQLPlugin.py:479-487 | two identical rows whose unique key has a NULL part (an omitted column) are both stored, with no IntegrityError |
| FixtureProperties.SelfFixtureWithoutOrderExample | MySQLPlugin.py:468-510 | a `self` fixture without `tableOrder` inserts nothing; the other application is handed off |

## Left out

- **Connections and their closing** are not modelled. A connection appears only as the connection that `AppPlugin.AppContext.Start` stores (`getMysqlConnection`), or as the `Invoke` action that stands for "open one connection, copy the context, call the module function".
- **The context copy handed to the version module, and the module function itself**, are not modelled; the version module's code is not part of this model.
- **The metadata table name parameter and the text of the version `SELECT`** are not modelled. The query's outcome is an input (`QueryOutcome`).
- **Shell execution** is left out: `execute`, `installSchema` and `FixtureMixin.tearDown`. They only run the external `mysql` client.
- **`installFixture` and `mergeFixture` of the older command set** (`MySQLPlugin.py:235-266`) are not modelled as separate members. They are command-line wiring around `installAFixture`: they open a connection, decode the JSON file and call `Fixtures.Database.InstallAFixture`, with `ignoreConflicts` for `mergeFixture`. `installFixture` first reinstalls the schema through the shell.
- **JSON decoding, files and temporary files** are not modelled. A fixture path is resolved through a map from paths to decoded values. A handed-off fixture is recorded only by its application's name.
- **Terminal I/O** is not modelled: `raw_input` and the ENTER wait after a hand-off. The prompt texts are not modelled either; the operator's responses are an input sequence.
- **Logging, `argh` argument declarations, the `Config` getters, `setup`/`getConfig`/`getId` and `setup.py`** are left out. They carry no behaviour of the core.
- **A fixture document for several applications** is represented as a list of (application, fixture) pairs, listed in the dict's iteration order (Python's `dict.items()`, whose order the model does not fix). `Fixtures.WellFormed` keeps to the documents a dict can be: a flat fixture has no table named `self`, which the source would treat as a per-application document, and a per-application document has exactly one `self` among distinct names.
- **Column defaults** are not modelled: a unique-key column that a row leaves out counts as NULL, and a key with a NULL part never conflicts.
- **`previousVersion` set explicitly to Python `None`** cannot be represented. The model's `None` means that the attribute is missing, which raises.
- **Column-level database errors** (unknown column, wrong type) are not modelled. An INSERT fails only for a missing table, an empty row (one `%s` and no arguments) or a unique-key conflict.
- **Integrity errors other than duplicate keys** are not modelled. `except IntegrityError` (`MySQLPlugin.py:482`, `MySQLPlugin/__init__.py:219`) also catches foreign-key and NOT NULL violations. With `ignoreConflicts`, the source therefore also skips, for example, a row whose parent row is missing. The model's only integrity error is a unique-key conflict.
- **`AppPlugin.setup` of the older `MySQLPlugin.py`** is not modelled. Its `addToContextFlatten` call is framework code outside this model.

## Findings

| source | as written | input that shows it | evidently intended | confidence | as-written member | corrected member |
|---|---|---|---|---|---|---|
| MySQLPlugin/__init__.py:357-359 (also MySQLPlugin.py:391-393) | the rejection for a target module without `overlay` says "Version v does support the overlay operation." | `overlay` with a target whose module defines no `overlay` function | "Version v does not support the overlay operation.", like the upgrade and trim rejections | not executed | Migration.OverlayMessageAsWrittenClaimsSupport | Migration.UnsupportedMessage |
