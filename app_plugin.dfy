/** The application side of the plugin: `AppPlugin.start`, which fills in the
    shared application context and refuses to start against a schema that is
    not at the latest version. */
module AppPlugin {
  import opened Wrappers
  import opened Versions

  /** A database connection, identified abstractly. */
  type Connection = nat

  /** The parts of the shared context dictionary the plugin reads and writes. */
  class AppContext {
    /** `context['database']`, absent until some plugin opens one. */
    var database: Option<Connection>
    /** Whether `context['getNewDbConnection']` is present. */
    var hasConnectionFactory: bool
    /** `context['shortcutAttrs']`. */
    var shortcutAttrs: seq<string>

    constructor (database: Option<Connection>, hasConnectionFactory: bool, shortcutAttrs: seq<string>)
      ensures this.database == database
      ensures this.hasConnectionFactory == hasConnectionFactory
      ensures this.shortcutAttrs == shortcutAttrs
    {
      this.database := database;
      this.hasConnectionFactory := hasConnectionFactory;
      this.shortcutAttrs := shortcutAttrs;
    }

    /** start: keeps an existing connection or stores `newConnection`, installs the
        connection factory if missing, runs the schema version check on the
        context's connection (whose version query produced `q`), and only
        when that check passes publishes the two shortcut attributes. */
    method Start(reg: Registry, newConnection: Connection, q: QueryOutcome) returns (r: Result<(), Error>)
      modifies this
      ensures database == if old(database).Some? then old(database) else Some(newConnection)
      ensures hasConnectionFactory
      ensures r == CheckDbSchemaVersion(reg, q)
      ensures shortcutAttrs ==
                if r.Ok? then old(shortcutAttrs) + ["database", "getNewDbConnection"]
                else old(shortcutAttrs)
    {
      if database.None? {
        database := Some(newConnection);
      }
      if !hasConnectionFactory {
        hasConnectionFactory := true;
      }
      r := CheckDbSchemaVersion(reg, q);
      if r.Err? {
        return;
      }
      shortcutAttrs := shortcutAttrs + ["database", "getNewDbConnection"];
    }
  }
}
