/** The migration transaction: a state blob and its mirror tables, written all or not at all. */
module SqliteMigration {
  import opened Wrappers
  import opened Json
  import opened Readiness
  import opened StateNormalization

  /** What the script takes from its platform: JSON.stringify, SHA-256 in base64url, and the text
      SQLite stores for a number in a TEXT column. */
  datatype Platform = Platform(stringify: Value -> string, sha256: string -> string, numberText: real -> string)

  /** A table row besides its key: the extra columns in order, and the data column. */
  datatype Stored = Stored(columns: seq<Value>, data: string)
  type Table = map<string, Stored>
  type Tables = map<string, Table>

  datatype Mirror = Mirror(table: string, collection: string, columns: seq<string>)

  const MIRRORS: seq<Mirror> := [
    Mirror("users", "users", []),
    Mirror("device_inventory", "deviceInventory", []),
    Mirror("refresh_tokens", "refreshTokens", ["userId", "familyId", "revokedAt", "expiresAt"]),
    Mirror("tenants", "tenants", []),
    Mirror("vaults", "vaults", ["tenantId"]),
    Mirror("secrets", "secrets", ["vaultId", "risk", "deletedAt"]),
    Mirror("service_tokens", "serviceTokens", ["revokedAt"]),
    Mirror("secret_imports", "secretImports", ["status"]),
    Mirror("access_requests", "accessRequests", ["secretId", "requesterId", "status"]),
    Mirror("integration_outbox", "integrationOutbox", ["target", "status"]),
    Mirror("audit_events", "audit", ["ts", "action", "actor"])]

  // ---------------------------------------------------------------- one row

  /** Binding a value to a TEXT column: null, strings and numbers only. */
  function AsText(p: Platform, v: Value): Option<Value> {
    match v
    case Null => Some(Null)
    case Str(s) => Some(v)
    case Number(n) => Some(Str(p.numberText(n)))
    case _ => None
  }

  /** row.id || sha256(JSON.stringify(row)), as the TEXT key it becomes. */
  function KeyOf(p: Platform, row: Value): Option<string> {
    var id := Get(row, "id");
    if row == Null then None
    else if !Truthy(id) then Some(p.sha256(p.stringify(row)))
    else match AsText(p, id.value)
      case Some(Str(s)) => Some(s)
      case _ => None
  }

  /** row[column] ?? null */
  function ColumnValue(p: Platform, row: Value, column: string): Option<Value> {
    AsText(p, Get(row, column).GetOr(Null))
  }

  predicate Bindable(p: Platform, row: Value, columns: seq<string>) {
    KeyOf(p, row).Some? && forall c | c in columns :: ColumnValue(p, row, c).Some?
  }

  function ColumnValues(p: Platform, row: Value, columns: seq<string>): seq<Value> {
    if columns == [] then []
    else [ColumnValue(p, row, columns[0]).GetOr(Null)] + ColumnValues(p, row, columns[1..])
  }

  function StoredOf(p: Platform, row: Value, columns: seq<string>): Stored {
    Stored(ColumnValues(p, row, columns), p.stringify(row))
  }

  // ---------------------------------------------------------------- one table

  /** Inserting the rows in order succeeds: every value binds and no key repeats. */
  predicate Insertable(p: Platform, rows: seq<Value>, columns: seq<string>) {
    && (forall i | 0 <= i < |rows| :: Bindable(p, rows[i], columns))
    && (forall i, j | 0 <= i < j < |rows| :: KeyOf(p, rows[i]) != KeyOf(p, rows[j]))
  }

  function TableOf(p: Platform, rows: seq<Value>, columns: seq<string>): Table {
    if rows == [] then map[]
    else
      var last := rows[|rows| - 1];
      TableOf(p, rows[..|rows| - 1], columns)[KeyOf(p, last).GetOr("") := StoredOf(p, last, columns)]
  }

  lemma {:induction false} TableKeys(p: Platform, rows: seq<Value>, columns: seq<string>, key: string)
    requires forall i | 0 <= i < |rows| :: KeyOf(p, rows[i]).Some?
    ensures key in TableOf(p, rows, columns) <==> exists i :: 0 <= i < |rows| && KeyOf(p, rows[i]) == Some(key)
  {
    if rows != [] {
      var init := rows[..|rows| - 1];
      TableKeys(p, init, columns, key);
      assert forall i | 0 <= i < |init| :: init[i] == rows[i];
    }
  }

  /** A mirror table holds exactly the rows it was given: as many, each under its key. */
  lemma {:induction false} TableExact(p: Platform, rows: seq<Value>, columns: seq<string>)
    requires Insertable(p, rows, columns)
    ensures var t := TableOf(p, rows, columns);
            && |t| == |rows|
            && (forall i | 0 <= i < |rows| ::
                  KeyOf(p, rows[i]).Some? && KeyOf(p, rows[i]).value in t
                  && t[KeyOf(p, rows[i]).value] == StoredOf(p, rows[i], columns))
            && (forall key | key in t :: exists i :: 0 <= i < |rows| && KeyOf(p, rows[i]) == Some(key))
  {
    hide Bindable, StoredOf, KeyOf;
    if rows != [] {
      var n := |rows| - 1;
      var init := rows[..n];
      assert forall i | 0 <= i < n :: init[i] == rows[i];
      TableExact(p, init, columns);
      BindableHasKey(p, rows[n], columns);
      assert KeyOf(p, rows[n]).value !in TableOf(p, init, columns);
      LastRowAdded(p, rows, columns);
    }
  }

  lemma {:induction false} LastRowAdded(p: Platform, rows: seq<Value>, columns: seq<string>)
    requires rows != [] && KeyOf(p, rows[|rows| - 1]).Some?
    ensures TableOf(p, rows, columns) ==
            TableOf(p, rows[..|rows| - 1], columns)
              [KeyOf(p, rows[|rows| - 1]).value := StoredOf(p, rows[|rows| - 1], columns)]
  {
  }

  lemma {:induction false} BindableHasKey(p: Platform, row: Value, columns: seq<string>)
    requires Bindable(p, row, columns)
    ensures KeyOf(p, row).Some?
  {
  }

  // ---------------------------------------------------------------- the whole database

  function RowsFor(persisted: State, m: Mirror): seq<Value> {
    match Iterated(Lookup(persisted, m.collection))
    case Success(rows) => rows
    case Failure(_) => []
  }

  predicate MirrorInsertable(p: Platform, persisted: State, m: Mirror) {
    Iterated(Lookup(persisted, m.collection)).Success? && Insertable(p, RowsFor(persisted, m), m.columns)
  }

  predicate AllInsertable(p: Platform, persisted: State, mirrors: seq<Mirror>) {
    forall m | m in mirrors :: MirrorInsertable(p, persisted, m)
  }

  function WithMirrors(p: Platform, persisted: State, mirrors: seq<Mirror>, tables: Tables): Tables {
    if mirrors == [] then tables
    else
      var m := mirrors[|mirrors| - 1];
      WithMirrors(p, persisted, mirrors[..|mirrors| - 1], tables)[m.table := TableOf(p, RowsFor(persisted, m),
          m.columns)]
  }

  /** Statements that fill the mirrors: one DELETE and an INSERT per row for each. */
  function MirrorStatements(persisted: State, mirrors: seq<Mirror>): nat {
    if mirrors == [] then 0
    else MirrorStatements(persisted, mirrors[..|mirrors| - 1]) + 1 + |RowsFor(persisted, mirrors[|mirrors| - 1])|
  }

  function WithTables(tables: Tables, mirrors: seq<Mirror>): Tables {
    if mirrors == [] then tables
    else
      var rest := WithTables(tables, mirrors[..|mirrors| - 1]);
      var name := mirrors[|mirrors| - 1].table;
      if name in rest then rest else rest[name := map[]]
  }

  /** DROP and CREATE of the state table, CREATE IF NOT EXISTS of the others. */
  function Schema(tables: Tables): Tables {
    var mirrored := WithTables(tables["sentinel_state" := map[]], MIRRORS);
    if "policies" in mirrored then mirrored else mirrored["policies" := map[]]
  }

  function StateRow(p: Platform, persisted: State, migratedAt: string): Stored {
    Stored([STATE_VERSION, Str(migratedAt)], p.stringify(Object(persisted)))
  }

  function PoliciesRow(p: Platform, persisted: State): Stored {
    Stored([], p.stringify(Lookup(persisted, "policies").GetOr(Null)))
  }

  /** The database after a migration. */
  function Migrated(p: Platform, persisted: State, migratedAt: string, before: Tables): Tables {
    var blob := Schema(before)["sentinel_state" := map["main" := StateRow(p, persisted, migratedAt)]];
    WithMirrors(p, persisted, MIRRORS, blob)["policies" := map["main" := PoliciesRow(p, persisted)]]
  }

  /** Statements up to and including COMMIT: pragmas, BEGIN, schema, blob, mirrors, two for policies. */
  function Statements(persisted: State): nat {
    MirrorStatements(persisted, MIRRORS) + 7
  }

  // ---------------------------------------------------------------- the database object

  datatype Outcome = Completed | Failed | Refused

  class Database {
    var committed: Tables
    var working: Tables
    var inTransaction: bool
    /** Statements the storage will still carry out before it fails. */
    var budget: nat

    constructor (tables: Tables, budget: nat)
      ensures committed == tables && !inTransaction && this.budget == budget
    {
      committed, working, inTransaction, this.budget := tables, map[], false, budget;
    }

    method Execute() returns (ok: bool)
      modifies this`budget
      ensures ok <==> old(budget) > 0
      ensures budget == if ok then old(budget) - 1 else 0
    {
      ok := budget > 0;
      if ok {
        budget := budget - 1;
      }
    }

    method DeleteAll(table: string) returns (ok: bool)
      modifies this`budget, this`working
      ensures ok <==> old(budget) > 0
      ensures budget == if ok then old(budget) - 1 else 0
      ensures working == if ok then old(working)[table := map[]] else old(working)
    {
      ok := Execute();
      if ok {
        working := working[table := map[]];
      }
    }

    method Insert(table: string, key: string, row: Stored) returns (ok: bool)
      requires table in working
      modifies this`budget, this`working
      ensures ok <==> old(budget) > 0 && key !in old(working)[table]
      ensures ok ==> budget == old(budget) - 1
      ensures working == if ok then old(working)[table := old(working)[table][key := row]] else old(working)
    {
      ok := Execute();
      if ok {
        ok := key !in working[table];
      }
      if ok {
        working := working[table := working[table][key := row]];
      }
    }

    /** replaceJsonRows */
    method ReplaceJsonRows(p: Platform, table: string, rows: seq<Value>, columns: seq<string>) returns (ok: bool)
      modifies this`budget, this`working
      ensures ok <==> Insertable(p, rows, columns) && old(budget) > |rows|
      ensures ok ==> budget == old(budget) - 1 - |rows|
      ensures ok ==> working == old(working)[table := TableOf(p, rows, columns)]
    {
      hide Bindable, KeyOf, StoredOf, TableOf;
      ok := DeleteAll(table);
      if !ok {
        return;
      }
      TableOfNone(p, columns);
      assert rows[..0] == [];
      for i := 0 to |rows|
        invariant ok
        invariant old(budget) == budget + 1 + i
        invariant Insertable(p, rows[..i], columns)
        invariant working == old(working)[table := TableOf(p, rows[..i], columns)]
      {
        var row := rows[i];
        ExtendInsertable(p, rows, columns, i);
        if !Bindable(p, row, columns) {
          return false;
        }
        BindableHasKey(p, row, columns);
        ok := Insert(table, KeyOf(p, row).value, StoredOf(p, row, columns));
        if !ok {
          return;
        }
      }
      assert rows[..|rows|] == rows;
    }

    /** syncMirrorTables, the eleven calls read from a table, then the policies row. */
    method SyncMirrorTables(p: Platform, persisted: State) returns (ok: bool)
      modifies this`budget, this`working
      ensures ok <==> AllInsertable(p, persisted, MIRRORS) && old(budget) >= MirrorStatements(persisted, MIRRORS) + 2
      ensures ok ==> budget == old(budget) - MirrorStatements(persisted, MIRRORS) - 2
      ensures ok ==>
        working == WithMirrors(p, persisted, MIRRORS, old(working))["policies" := map["main" := PoliciesRow(p,
            persisted)]]
    {
      hide MIRRORS, MirrorInsertable, TableOf, RowsFor;
      assert MIRRORS[..0] == [];
      for i := 0 to |MIRRORS|
        invariant AllInsertable(p, persisted, MIRRORS[..i])
        invariant old(budget) == budget + MirrorStatements(persisted, MIRRORS[..i])
        invariant working == WithMirrors(p, persisted, MIRRORS[..i], old(working))
      {
        var m := MIRRORS[i];
        ExtendMirrors(p, persisted, old(working), i);
        MirrorRows(p, persisted, m);
        if Iterated(Lookup(persisted, m.collection)).Failure? {
          return false;
        }
        ok := ReplaceJsonRows(p, m.table, RowsFor(persisted, m), m.columns);
        if !ok {
          StatementsGrow(persisted, i + 1);
          return;
        }
      }
      assert MIRRORS[..|MIRRORS|] == MIRRORS;
      ok := DeleteAll("policies");
      if ok {
        ok := Insert("policies", "main", PoliciesRow(p, persisted));
      }
    }

    /** The transaction and the checkpoint after it. On any error the script rolls back and fails. */
    method Migrate(p: Platform, persisted: State, migratedAt: string) returns (outcome: Outcome)
      requires !inTransaction
      modifies this
      ensures !inTransaction
      ensures outcome != Refused
      ensures outcome == Completed <==> AllInsertable(p, persisted, MIRRORS) && old(budget) > Statements(persisted)
      ensures committed == if AllInsertable(p, persisted, MIRRORS) && old(budget) >= Statements(persisted)
                           then Migrated(p, persisted, migratedAt, old(committed)) else old(committed)
    {
      var ok := Transact(p, persisted, migratedAt);
      if ok {
        ok := Execute();   // PRAGMA wal_checkpoint
      }
      if !ok {
        working, inTransaction := map[], false;   // ROLLBACK
        return Failed;
      }
      return Completed;
    }

    method Transact(p: Platform, persisted: State, migratedAt: string) returns (ok: bool)
      modifies this
      ensures ok <==> AllInsertable(p, persisted, MIRRORS) && old(budget) >= Statements(persisted)
      ensures ok ==> !inTransaction && budget == old(budget) - Statements(persisted)
      ensures committed == if ok then Migrated(p, persisted, migratedAt, old(committed)) else old(committed)
    {
      hide MIRRORS, AllInsertable, WithMirrors, WithTables, StateRow, PoliciesRow;
      ok := Execute();   // PRAGMA journal_mode, synchronous
      if !ok { return; }
      ok := Execute();   // BEGIN IMMEDIATE TRANSACTION
      if !ok { return; }
      working, inTransaction := committed, true;
      ok := Execute();   // DROP TABLE, CREATE TABLE
      if !ok { return; }
      working := Schema(working);
      SchemaHasState(committed);
      ok := Insert("sentinel_state", "main", StateRow(p, persisted, migratedAt));
      if !ok { return; }
      ok := SyncMirrorTables(p, persisted);
      if !ok { return; }
      ok := Execute();   // COMMIT
      if !ok { return; }
      committed, inTransaction := working, false;
    }
  }

  /** The whole script on a parsed state: the checks come before the database is opened. */
  method RunMigration(db: Database, p: Platform, seed: State, parsed: State,
        migratedAt: string) returns (outcome: Outcome)
    requires SeedState(seed) && !db.inTransaction
    modifies db
    ensures outcome == Refused <==> !Passes(CheckMigration(seed, parsed))
    ensures outcome == Refused ==> db.committed == old(db.committed)
    ensures outcome != Refused ==>
      && Normalize(seed, parsed).Success?
      && var persisted := ToPersisted(Normalize(seed, parsed).value, migratedAt);
         var fits := AllInsertable(p, persisted, MIRRORS);
         && (outcome == Completed <==> fits && old(db.budget) > Statements(persisted))
         && db.committed == if fits && old(db.budget) >= Statements(persisted)
                            then Migrated(p, persisted, migratedAt, old(db.committed)) else old(db.committed)
  {
    hide MIRRORS, AllInsertable, Migrated, Statements, Check, Overrides;
    if !Passes(CheckMigration(seed, parsed)) {
      return Refused;
    }
    outcome := db.Migrate(p, ToPersisted(Normalize(seed, parsed).value, migratedAt), migratedAt);
  }

  // ---------------------------------------------------------------- steps of the loops

  lemma {:induction false} TableOfNone(p: Platform, columns: seq<string>)
    ensures TableOf(p, [], columns) == map[] && Insertable(p, [], columns)
  {
  }

  lemma {:induction false} ExtendInsertable(p: Platform, rows: seq<Value>, columns: seq<string>, i: nat)
    requires i < |rows| && Insertable(p, rows[..i], columns)
    ensures !Bindable(p, rows[i], columns) ==> !Insertable(p, rows, columns)
    ensures Bindable(p, rows[i], columns) ==>
            var key := KeyOf(p, rows[i]);
            && key.Some?
            && (Insertable(p, rows[..i + 1], columns) <==> key.value !in TableOf(p, rows[..i], columns))
            && (key.value in TableOf(p, rows[..i], columns) ==> !Insertable(p, rows, columns))
            && TableOf(p, rows[..i + 1], columns)
               == TableOf(p, rows[..i], columns)[key.value := StoredOf(p, rows[i], columns)]
  {
    hide Bindable, KeyOf, StoredOf;
    var init, next := rows[..i], rows[..i + 1];
    assert next[..|next| - 1] == init && next[|next| - 1] == rows[i];
    forall k | 0 <= k < i
      ensures KeyOf(p, init[k]).Some?
    {
      BindableHasKey(p, init[k], columns);
    }
    if Bindable(p, rows[i], columns) {
      BindableHasKey(p, rows[i], columns);
      TableKeys(p, init, columns, KeyOf(p, rows[i]).value);
      assert forall k | 0 <= k < i :: init[k] == rows[k] && next[k] == rows[k];
    }
  }

  lemma {:induction false} MirrorRows(p: Platform, persisted: State, m: Mirror)
    ensures MirrorInsertable(p, persisted, m) <==>
            Iterated(Lookup(persisted, m.collection)).Success? && Insertable(p, RowsFor(persisted, m), m.columns)
  {
  }

  lemma {:induction false} ExtendMirrors(p: Platform, persisted: State, tables: Tables, i: nat)
    requires i < |MIRRORS| && AllInsertable(p, persisted, MIRRORS[..i])
    ensures var m := MIRRORS[i];
            && (AllInsertable(p, persisted, MIRRORS[..i + 1]) <==> MirrorInsertable(p, persisted, m))
            && (!MirrorInsertable(p, persisted, m) ==> !AllInsertable(p, persisted, MIRRORS))
            && WithMirrors(p, persisted, MIRRORS[..i + 1], tables)
               == WithMirrors(p, persisted, MIRRORS[..i], tables)[
                    m.table := TableOf(p, RowsFor(persisted, m), m.columns)]
            && MirrorStatements(persisted, MIRRORS[..i + 1])
               == MirrorStatements(persisted, MIRRORS[..i]) + 1 + |RowsFor(persisted, m)|
  {
    hide MIRRORS, MirrorInsertable, TableOf, RowsFor;
    var m := MIRRORS[i];
    var next := MIRRORS[..i + 1];
    assert next[..|next| - 1] == MIRRORS[..i] && next[|next| - 1] == m;
    assert next == MIRRORS[..i] + [m];
    assert m in MIRRORS;
  }

  lemma {:induction false} StatementsGrow(persisted: State, count: nat)
    requires count <= |MIRRORS|
    ensures MirrorStatements(persisted, MIRRORS[..count]) <= MirrorStatements(persisted, MIRRORS)
    decreases |MIRRORS| - count
  {
    hide MIRRORS, RowsFor;
    if count == |MIRRORS| {
      assert MIRRORS[..count] == MIRRORS;
    } else {
      var next := MIRRORS[..count + 1];
      assert next[..|next| - 1] == MIRRORS[..count];
      StatementsGrow(persisted, count + 1);
    }
  }

  lemma {:induction false} SchemaHasState(tables: Tables)
    ensures "sentinel_state" in Schema(tables) && Schema(tables)["sentinel_state"] == map[]
  {
    hide MIRRORS;
    KeepsTables(tables["sentinel_state" := map[]], MIRRORS);
  }

  lemma {:induction false} KeepsTables(tables: Tables, mirrors: seq<Mirror>)
    ensures forall t | t in tables :: t in WithTables(tables, mirrors) && WithTables(tables, mirrors)[t] == tables[t]
  {
    if mirrors != [] {
      KeepsTables(tables, mirrors[..|mirrors| - 1]);
    }
  }
}
