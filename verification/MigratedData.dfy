/** What a committed migration contains: exact mirrors and resolved references. */
module MigratedData {
  import opened Wrappers
  import opened Json
  import opened Readiness
  import opened StateNormalization
  import opened SqliteMigration

  predicate DistinctTables(mirrors: seq<Mirror>) {
    && (forall i, j | 0 <= i < j < |mirrors| :: mirrors[i].table != mirrors[j].table)
    && (forall i | 0 <= i < |mirrors| :: mirrors[i].table != "sentinel_state" && mirrors[i].table != "policies")
  }

  const TABLE_LENGTHS: seq<nat> := [5, 16, 14, 7, 6, 7, 14, 14, 15, 18, 12]
  const THIRD_LETTERS: string := "evfnucrcctd"

  lemma {:induction false} TableSpelling()
    ensures |MIRRORS| == |TABLE_LENGTHS| == |THIRD_LETTERS| == 11
    ensures forall i | 0 <= i < 11 :: |MIRRORS[i].table| == TABLE_LENGTHS[i] >= 3
  {
  }

  lemma {:induction false} TableThirdLetters()
    ensures |MIRRORS| == |THIRD_LETTERS| == 11
    ensures forall i | 0 <= i < 11 :: |MIRRORS[i].table| > 2 && MIRRORS[i].table[2] == THIRD_LETTERS[i]
  {
  }

  /** Length and third letter tell the table names apart. */
  lemma {:induction false} SpellingsDiffer()
    ensures |TABLE_LENGTHS| == |THIRD_LETTERS| == 11
    ensures forall i, j | 0 <= i < j < 11 ::
              TABLE_LENGTHS[i] != TABLE_LENGTHS[j] || THIRD_LETTERS[i] != THIRD_LETTERS[j]
    ensures forall i | 0 <= i < 11 :: TABLE_LENGTHS[i] != 8 && (TABLE_LENGTHS[i] != 14 || THIRD_LETTERS[i] != 'n')
  {
  }

  lemma {:induction false} MirrorTablesAreDistinct()
    ensures DistinctTables(MIRRORS)
  {
    hide MIRRORS, TABLE_LENGTHS, THIRD_LETTERS;
    TableSpelling();
    TableThirdLetters();
    SpellingsDiffer();
    assert |"policies"| == 8 && |"sentinel_state"| == 14 && "sentinel_state"[2] == 'n';
  }

  lemma {:induction false} MirrorWritten(p: Platform, persisted: State, mirrors: seq<Mirror>, tables: Tables, i: nat)
    requires i < |mirrors| && DistinctTables(mirrors)
    ensures var t := WithMirrors(p, persisted, mirrors, tables);
            mirrors[i].table in t && t[mirrors[i].table] == TableOf(p, RowsFor(persisted, mirrors[i]),
                mirrors[i].columns)
  {
    hide TableOf, RowsFor;
    var init := mirrors[..|mirrors| - 1];
    if i < |init| {
      assert init[i] == mirrors[i];
      MirrorWritten(p, persisted, init, tables, i);
    }
  }

  lemma {:induction false} OthersKept(p: Platform, persisted: State, mirrors: seq<Mirror>, tables: Tables, name: string)
    requires forall i | 0 <= i < |mirrors| :: mirrors[i].table != name
    ensures name in tables <==> name in WithMirrors(p, persisted, mirrors, tables)
    ensures name in tables ==> WithMirrors(p, persisted, mirrors, tables)[name] == tables[name]
  {
    hide TableOf, RowsFor;
    if mirrors != [] {
      OthersKept(p, persisted, mirrors[..|mirrors| - 1], tables, name);
    }
  }

  predicate Managed(name: string) {
    name == "sentinel_state" || name == "policies" || exists m | m in MIRRORS :: m.table == name
  }

  /** After the migration every mirror table holds exactly its collection of the persisted state, the
      state row holds that same state, and this does not depend on what the database held before.
      Tables the migration does not manage are untouched. */
  lemma {:induction false} MirrorsExact(p: Platform, persisted: State, migratedAt: string, before: Tables)
    ensures var after := Migrated(p, persisted, migratedAt, before);
            && (forall i | 0 <= i < |MIRRORS| ::
                  MIRRORS[i].table in after
                  && after[MIRRORS[i].table] == TableOf(p, RowsFor(persisted, MIRRORS[i]), MIRRORS[i].columns))
            && "sentinel_state" in after
            && after["sentinel_state"] == map["main" := StateRow(p, persisted, migratedAt)]
            && "policies" in after && after["policies"] == map["main" := PoliciesRow(p, persisted)]
            && (forall name | name in before && !Managed(name) :: name in after && after[name] == before[name])
  {
    hide MIRRORS, TableOf, RowsFor, StateRow, PoliciesRow, Schema;
    MirrorTablesAreDistinct();
    var blob := Schema(before)["sentinel_state" := map["main" := StateRow(p, persisted, migratedAt)]];
    var mirrored := WithMirrors(p, persisted, MIRRORS, blob);
    forall i | 0 <= i < |MIRRORS|
      ensures MIRRORS[i].table in mirrored
      ensures mirrored[MIRRORS[i].table] == TableOf(p, RowsFor(persisted, MIRRORS[i]), MIRRORS[i].columns)
    {
      MirrorWritten(p, persisted, MIRRORS, blob, i);
    }
    OthersKept(p, persisted, MIRRORS, blob, "sentinel_state");
    forall name | name in before && !Managed(name)
      ensures name in mirrored && mirrored[name] == before[name]
    {
      SchemaKeeps(before, name);
      OthersKept(p, persisted, MIRRORS, blob, name);
    }
  }

  lemma {:induction false} SchemaKeeps(before: Tables, name: string)
    requires name in before && name != "sentinel_state"
    ensures name in Schema(before) && Schema(before)[name] == before[name]
  {
    hide MIRRORS;
    KeepsTables(before["sentinel_state" := map[]], MIRRORS);
  }

  // ---------------------------------------------------------------- the tables by name

  /** What a TEXT column holds for an optional value: null, the string itself, or the number's text. */
  predicate HoldsText(p: Platform, v: Option<Value>, held: Value) {
    match v
    case None => held == Null
    case Some(Null) => held == Null
    case Some(Str(s)) => held == Str(s)
    case Some(Number(n)) => held == Str(p.numberText(n))
    case _ => false
  }

  /** The table holds the row under its id, or under its content hash where it has none, with its JSON text and
      the texts of these properties. */
  ghost predicate HoldsRow(p: Platform, table: Table, row: Value, columns: seq<string>) {
    exists key :: key in table && HoldsRowAt(p, key, table[key], row, columns)
  }

  predicate HoldsRowAt(p: Platform, key: string, stored: Stored, row: Value, columns: seq<string>) {
    && (if Truthy(Get(row, "id")) then HoldsText(p, Get(row, "id"), Str(key)) else key == p.sha256(p.stringify(row)))
    && stored.data == p.stringify(row)
    && |stored.columns| == |columns|
    && forall k | 0 <= k < |columns| :: HoldsText(p, Get(row, columns[k]), stored.columns[k])
  }

  /** The table holds the collection: as many rows, each of them held. */
  ghost predicate Mirrored(
    p: Platform, persisted: State, tables: Tables, table: string, collection: string, columns: seq<string>)
  {
    var rows := Iterated(Lookup(persisted, collection));
    && rows.Success? && table in tables && |tables[table]| == |rows.value|
    && forall row | row in rows.value :: HoldsRow(p, tables[table], row, columns)
  }

  lemma {:induction false} ColumnsHeld(p: Platform, row: Value, columns: seq<string>)
    requires forall c | c in columns :: ColumnValue(p, row, c).Some?
    ensures |ColumnValues(p, row, columns)| == |columns|
    ensures forall k | 0 <= k < |columns| :: HoldsText(p, Get(row, columns[k]), ColumnValues(p, row, columns)[k])
  {
    if columns != [] {
      assert columns[0] in columns;
      ColumnsHeld(p, row, columns[1..]);
    }
  }

  lemma {:induction false} StoredHolds(p: Platform, row: Value, columns: seq<string>)
    requires Bindable(p, row, columns)
    ensures KeyOf(p, row).Some? && HoldsRowAt(p, KeyOf(p, row).value, StoredOf(p, row, columns), row, columns)
  {
    ColumnsHeld(p, row, columns);
    hide ColumnValues;
  }

  lemma {:induction false} TableHolds(p: Platform, rows: seq<Value>, columns: seq<string>)
    requires Insertable(p, rows, columns)
    ensures |TableOf(p, rows, columns)| == |rows|
    ensures forall row | row in rows :: HoldsRow(p, TableOf(p, rows, columns), row, columns)
  {
    hide KeyOf, StoredOf, TableOf, Bindable, HoldsRowAt;
    TableExact(p, rows, columns);
    forall row | row in rows
      ensures HoldsRow(p, TableOf(p, rows, columns), row, columns)
    {
      StoredHolds(p, row, columns);
    }
  }

  lemma {:induction false} MirrorAt(p: Platform, persisted: State, migratedAt: string, before: Tables, i: nat)
    requires AllInsertable(p, persisted, MIRRORS) && i < |MIRRORS|
    ensures Mirrored(p, persisted, Migrated(p, persisted, migratedAt, before), MIRRORS[i].table, MIRRORS[i].collection,
                     MIRRORS[i].columns)
  {
    hide MIRRORS, TableOf, Insertable, Migrated, StateRow, PoliciesRow, HoldsRow;
    MirrorsExact(p, persisted, migratedAt, before);
    assert MirrorInsertable(p, persisted, MIRRORS[i]);
    TableHolds(p, RowsFor(persisted, MIRRORS[i]), MIRRORS[i].columns);
  }

  /** After a committed migration each of the eleven tables holds its collection, row by row, with the columns
      it is searched by; the policies and the state have a row of their own. */
  lemma {:induction false} MirrorsByName(p: Platform, persisted: State, migratedAt: string, before: Tables)
    requires AllInsertable(p, persisted, MIRRORS)
    ensures var after := Migrated(p, persisted, migratedAt, before);
            && Mirrored(p, persisted, after, "users", "users", [])
            && Mirrored(p, persisted, after, "device_inventory", "deviceInventory", [])
            && Mirrored(p, persisted, after, "refresh_tokens", "refreshTokens",
                        ["userId", "familyId", "revokedAt", "expiresAt"])
            && Mirrored(p, persisted, after, "tenants", "tenants", [])
            && Mirrored(p, persisted, after, "vaults", "vaults", ["tenantId"])
            && Mirrored(p, persisted, after, "secrets", "secrets", ["vaultId", "risk", "deletedAt"])
            && Mirrored(p, persisted, after, "service_tokens", "serviceTokens", ["revokedAt"])
            && Mirrored(p, persisted, after, "secret_imports", "secretImports", ["status"])
            && Mirrored(p, persisted, after, "access_requests", "accessRequests", ["secretId", "requesterId", "status"])
            && Mirrored(p, persisted, after, "integration_outbox", "integrationOutbox", ["target", "status"])
            && Mirrored(p, persisted, after, "audit_events", "audit", ["ts", "action", "actor"])
    ensures var after := Migrated(p, persisted, migratedAt, before);
            && "policies" in after
            && after["policies"] == map["main" := Stored([], p.stringify(Lookup(persisted, "policies").GetOr(Null)))]
            && "sentinel_state" in after
            && after["sentinel_state"]
               == map["main" := Stored([Number(3.0), Str(migratedAt)], p.stringify(Object(persisted)))]
  {
    MirrorsAt();
    hide MIRRORS, Mirrored, AllInsertable, Migrated;
    MirrorsExact(p, persisted, migratedAt, before);
    forall i: nat | i < |MIRRORS|
      ensures Mirrored(p, persisted, Migrated(p, persisted, migratedAt, before), MIRRORS[i].table,
                       MIRRORS[i].collection, MIRRORS[i].columns)
    {
      MirrorAt(p, persisted, migratedAt, before, i);
    }
  }

  lemma {:induction false} MirrorsAt()
    ensures var m := MIRRORS;
            && |m| == 11
            && m[0] == Mirror("users", "users", []) && m[1] == Mirror("device_inventory", "deviceInventory", [])
            && m[2] == Mirror("refresh_tokens", "refreshTokens", ["userId", "familyId", "revokedAt", "expiresAt"])
            && m[3] == Mirror("tenants", "tenants", []) && m[4] == Mirror("vaults", "vaults", ["tenantId"])
            && m[5] == Mirror("secrets", "secrets", ["vaultId", "risk", "deletedAt"])
            && m[6] == Mirror("service_tokens", "serviceTokens", ["revokedAt"])
            && m[7] == Mirror("secret_imports", "secretImports", ["status"])
            && m[8] == Mirror("access_requests", "accessRequests", ["secretId", "requesterId", "status"])
            && m[9] == Mirror("integration_outbox", "integrationOutbox", ["target", "status"])
            && m[10] == Mirror("audit_events", "audit", ["ts", "action", "actor"])
  {
  }

  // ---------------------------------------------------------------- references

  /** SHA-256 in base64url has 43 characters; the text of zero is shorter. */
  ghost predicate RealisticPlatform(p: Platform) {
    (forall text :: |p.sha256(text)| == 43) && |p.numberText(0.0)| < 43
  }

  /** The table holds, under the text of this id, the row of an element with this id. */
  predicate NamesRow(p: Platform, table: Table, items: seq<Value>, columns: seq<string>, id: Option<Value>) {
    && id.Some?
    && AsText(p, id.value).Some?
    && AsText(p, id.value).value.Str?
    && var key := AsText(p, id.value).value.s;
       exists i :: 0 <= i < |items| && Get(items[i], "id") == id && KeyOf(p, items[i]) == Some(key)
                   && key in table && table[key] == StoredOf(p, items[i], columns)
  }

  /** A reference that was checked against the ids of a collection resolves to the row keyed by that id
      exactly when the id is not empty: an element with an empty id is keyed by its content hash. */
  lemma {:induction false} ReferenceResolves(
      p: Platform, items: seq<Value>, columns: seq<string>, id: Option<Value>)
    requires RealisticPlatform(p) && Insertable(p, items, columns)
    requires Has(Property(items, "id"), id)
    ensures NamesRow(p, TableOf(p, items, columns), items, columns, id) <==> Truthy(id)
  {
    hide TableOf, StoredOf, Insertable, Property;
    TableExact(p, items, columns);
    var ids := Property(items, "id");
    var i :| 0 <= i < |ids| && ids[i] == id;
    assert Get(items[i], "id") == id;
    if Truthy(id) {
      assert KeyOf(p, items[i]).Some?;
    }
  }

  /** In a committed migration of a state that passes the checks, a secret's vault id names a vault
      row, and a vault member names a user row, exactly when that id is not empty. */
  lemma {:induction false} ReferentialIntegrity(
      p: Platform, seed: State, parsed: State, migratedAt: string, before: Tables)
    requires RealisticPlatform(p) && SeedState(seed) && Passes(CheckMigration(seed, parsed))
    requires AllInsertable(p, ToPersisted(Normalize(seed, parsed).value, migratedAt), MIRRORS)
    ensures var persisted := ToPersisted(Normalize(seed, parsed).value, migratedAt);
            var after := Migrated(p, persisted, migratedAt, before);
            && IsList(persisted, "secrets") && IsList(persisted, "vaults") && IsList(persisted, "users")
            && "vaults" in after && "users" in after
            && (forall s | s in persisted["secrets"].items ::
                  NamesRow(p, after["vaults"], persisted["vaults"].items, ["tenantId"], Get(s, "vaultId"))
                  <==> Truthy(Get(s, "vaultId")))
            && (forall v | v in persisted["vaults"].items ::
                  && ArrayItems(Get(v, "members")).Success?
                  && forall m | m in ArrayItems(Get(v, "members")).value ::
                       NamesRow(p, after["users"], persisted["users"].items, [], Some(m)) <==> Truthy(Some(m)))
  {
    hide MIRRORS, TableOf, Insertable, Sound, Migrated, Normalize, NamesRow, Check, RealisticPlatform;
    NoSeedRows(seed, parsed, migratedAt);
    CollectionNames();
    var normalized := Normalize(seed, parsed).value;
    var persisted := ToPersisted(normalized, migratedAt);
    MirrorsExact(p, persisted, migratedAt, before);
    ReferenceMirrors(p, persisted);
    NormalizedLookups(seed, parsed);
    PassesExactly(true, NoTransientCollections(parsed), normalized);
    SoundReferences(p, persisted["secrets"].items, persisted["vaults"].items, persisted["users"].items);
  }

  lemma {:induction false} ReferenceMirrors(p: Platform, persisted: State)
    ensures |MIRRORS| == 11
    ensures MIRRORS[0] == Mirror("users", "users", []) && MIRRORS[4] == Mirror("vaults", "vaults", ["tenantId"])
    ensures IsList(persisted, "users") ==> RowsFor(persisted, MIRRORS[0]) == persisted["users"].items
    ensures IsList(persisted, "vaults") ==> RowsFor(persisted, MIRRORS[4]) == persisted["vaults"].items
    ensures AllInsertable(p, persisted, MIRRORS) && IsList(persisted, "users") && IsList(persisted, "vaults") ==>
            Insertable(p, persisted["users"].items, []) && Insertable(p, persisted["vaults"].items, ["tenantId"])
  {
    hide Insertable;
    assert MIRRORS[0] in MIRRORS && MIRRORS[4] in MIRRORS;
  }

  lemma {:induction false} SoundReferences(p: Platform, secrets: seq<Value>, vaults: seq<Value>, users: seq<Value>)
    requires RealisticPlatform(p) && Sound(secrets, vaults, users)
    requires Insertable(p, users, []) && Insertable(p, vaults, ["tenantId"])
    ensures forall s | s in secrets ::
              NamesRow(p, TableOf(p, vaults, ["tenantId"]), vaults, ["tenantId"], Get(s, "vaultId"))
              <==> Truthy(Get(s, "vaultId"))
    ensures forall v | v in vaults ::
              && ArrayItems(Get(v, "members")).Success?
              && forall m | m in ArrayItems(Get(v, "members")).value ::
                   NamesRow(p, TableOf(p, users, []), users, [], Some(m)) <==> Truthy(Some(m))
  {
    hide Insertable, TableOf, RealisticPlatform, NamesRow, HasPlaintext, HasEncryptedPayload, ArrayItems;
    forall s | s in secrets
      ensures NamesRow(p, TableOf(p, vaults, ["tenantId"]), vaults, ["tenantId"], Get(s, "vaultId"))
              <==> Truthy(Get(s, "vaultId"))
    {
      ReferenceResolves(p, vaults, ["tenantId"], Get(s, "vaultId"));
    }
    forall v, m | v in vaults && m in ArrayItems(Get(v, "members")).value
      ensures NamesRow(p, TableOf(p, users, []), users, [], Some(m)) <==> Truthy(Some(m))
    {
      assert MembersKnown(v, Property(users, "id"));
      ReferenceResolves(p, users, [], Some(m));
    }
  }

  // ---------------------------------------------------------------- a reference to nothing

  function UnnamedVault(): Value {
    Object(map["id" := Str("")])
  }

  function SecretOfUnnamedVault(): Value {
    Object(map["vaultId" := Str(""),
               "encrypted" := Object(map["iv" := Str("iv"), "tag" := Str("tag"), "ciphertext" := Str("text")])])
  }

  /** One vault with an empty id and one secret in it. */
  function UnnamedState(): State {
    (map c | c in REQUIRED_COLLECTIONS :: List([]))[
      "vaults" := List([UnnamedVault()])]["secrets" := List([SecretOfUnnamedVault()])]["refreshTokens" := List([])]
  }

  /** The state passes all checks and is migrated, but the secret's vault id names no row. */
  lemma {:induction false} EmptyIdDangles(p: Platform, seed: State, migratedAt: string, before: Tables)
    requires RealisticPlatform(p) && SeedState(seed)
    ensures Passes(CheckMigration(seed, UnnamedState())) && Normalize(seed, UnnamedState()).Success?
    ensures var persisted := ToPersisted(Normalize(seed, UnnamedState()).value, migratedAt);
            var after := Migrated(p, persisted, migratedAt, before);
            && AllInsertable(p, persisted, MIRRORS) && "vaults" in after && IsList(persisted, "vaults")
            && !NamesRow(p, after["vaults"], persisted["vaults"].items, ["tenantId"], Some(Str("")))
  {
    hide MIRRORS, Migrated, Normalize, NamesRow, Check, RealisticPlatform, AllInsertable, UnnamedState,
      REQUIRED_COLLECTIONS,
      NoTransientCollections, SecretOfUnnamedVault;
    UnnamedPasses(seed);
    UnnamedInsertable(p, seed, migratedAt);
    ReferentialIntegrity(p, seed, UnnamedState(), migratedAt, before);
    NoSeedRows(seed, UnnamedState(), migratedAt);
    CollectionNames();
    UnnamedLists();
    assert Get(SecretOfUnnamedVault(), "vaultId") == Some(Str("")) by {
      UnnamedSecret();
    }
    assert SecretOfUnnamedVault() in UnnamedState()["secrets"].items;
  }

  lemma {:induction false} UnnamedSecret()
    ensures Get(SecretOfUnnamedVault(), "vaultId") == Some(Str(""))
    ensures !HasPlaintext(SecretOfUnnamedVault()) && HasEncryptedPayload(SecretOfUnnamedVault())
    ensures Get(SecretOfUnnamedVault(), "risk") == None && Get(SecretOfUnnamedVault(), "deletedAt") == None
    ensures Get(SecretOfUnnamedVault(), "id") == None
  {
  }

  lemma {:induction false} UnnamedLists()
    ensures var s := UnnamedState();
            && IsList(s, "vaults") && s["vaults"].items == [UnnamedVault()]
            && IsList(s, "secrets") && s["secrets"].items == [SecretOfUnnamedVault()]
            && (forall c | c in REQUIRED_COLLECTIONS && c != "vaults" && c != "secrets" :: c in s && s[c] == List([]))
            && "refreshTokens" in s && s["refreshTokens"] == List([])
            && HasAllCollections(s) && NoTransientCollections(s)
  {
    hide UnnamedVault, SecretOfUnnamedVault;
    TransientNames();
  }

  lemma {:induction false} UnnamedPasses(seed: State)
    requires SeedState(seed)
    ensures Passes(CheckMigration(seed, UnnamedState())) && Normalize(seed, UnnamedState()).Success?
  {
    hide UnnamedState, SecretOfUnnamedVault, REQUIRED_COLLECTIONS, Normalize, Check, HasPlaintext, HasEncryptedPayload;
    UnnamedLists();
    UnnamedSecret();
    CollectionNames();
    assert Property([UnnamedVault()], "id") == [Some(Str(""))];
    PassesExactly(true, true, UnnamedState());
    ReadinessAgrees(seed, UnnamedState());
    NormalizedLookups(seed, UnnamedState());
  }

  lemma {:induction false} MirrorCollections()
    ensures forall i | 0 <= i < |MIRRORS| ::
              MIRRORS[i].collection in REQUIRED_COLLECTIONS || MIRRORS[i].collection == "refreshTokens"
  {
    var r := REQUIRED_COLLECTIONS;
    assert |MIRRORS| == 11 && |r| == 10;
    assert MIRRORS[0].collection == r[0] && MIRRORS[1].collection == r[1] && MIRRORS[3].collection == r[2];
    assert MIRRORS[4].collection == r[3] && MIRRORS[5].collection == r[4] && MIRRORS[6].collection == r[5];
    assert MIRRORS[7].collection == r[6] && MIRRORS[8].collection == r[7] && MIRRORS[9].collection == r[8];
    assert MIRRORS[10].collection == r[9] && MIRRORS[2].collection == "refreshTokens";
    hide REQUIRED_COLLECTIONS, MIRRORS;
  }

  lemma {:induction false} SecretColumns()
    ensures forall i | 0 <= i < |MIRRORS| && MIRRORS[i].collection == "secrets" ::
              MIRRORS[i].columns == ["vaultId", "risk", "deletedAt"]
  {
    var s := "secrets";
    assert |s| == 7 && s[1] == 'e' && s[0] == 's';
  }

  lemma {:induction false} UnnamedPersisted(seed: State, migratedAt: string)
    requires SeedState(seed)
    ensures Normalize(seed, UnnamedState()).Success?
    ensures var persisted := ToPersisted(Normalize(seed, UnnamedState()).value, migratedAt);
            && Lookup(persisted, "vaults") == Some(List([WithTenant(Str("t1"), UnnamedVault())]))
            && Lookup(persisted, "secrets") == Some(List([SecretOfUnnamedVault()]))
            && (forall c | c in REQUIRED_COLLECTIONS && c != "vaults" && c != "secrets" ::
                  Lookup(persisted, c) == Some(List([])))
            && Lookup(persisted, "refreshTokens") == Some(List([]))
  {
    hide UnnamedState, SecretOfUnnamedVault, UnnamedVault, WithTenant, REQUIRED_COLLECTIONS, Normalize,
      NoTransientCollections;
    UnnamedLists();
    CollectionNames();
    TransientNames();
    NormalizedLookups(seed, UnnamedState());
    TokensKept(seed, UnnamedState());
    assert DefaultTenant(List([])) == Str("t1");
    assert WithTenants(Str("t1"), [UnnamedVault()]) == [WithTenant(Str("t1"), UnnamedVault())];
  }

  lemma {:induction false} TokensNotRequired()
    ensures "refreshTokens" !in REQUIRED_COLLECTIONS
  {
  }

  lemma {:induction false} TokensKept(seed: State, candidate: State)
    requires SeedState(seed) && "refreshTokens" in candidate && Normalize(seed, candidate).Success?
    ensures Lookup(Normalize(seed, candidate).value, "refreshTokens") == Some(candidate["refreshTokens"])
  {
    TokensNotRequired();
    hide REQUIRED_COLLECTIONS, Truthy, Spread, WithTenants, DefaultTenant, ObjectOf;
  }

  lemma {:induction false} UnnamedInsertable(p: Platform, seed: State, migratedAt: string)
    requires SeedState(seed) && Normalize(seed, UnnamedState()).Success?
    ensures AllInsertable(p, ToPersisted(Normalize(seed, UnnamedState()).value, migratedAt), MIRRORS)
  {
    hide UnnamedState, SecretOfUnnamedVault, UnnamedVault, WithTenant, REQUIRED_COLLECTIONS, Normalize, MIRRORS,
      ToPersisted, Bindable,
      KeyOf;
    var persisted := ToPersisted(Normalize(seed, UnnamedState()).value, migratedAt);
    UnnamedPersisted(seed, migratedAt);
    MirrorCollections();
    SecretColumns();
    forall m | m in MIRRORS
      ensures MirrorInsertable(p, persisted, m)
    {
      var i :| 0 <= i < |MIRRORS| && MIRRORS[i] == m;
      UnnamedBindable(p, m.columns);
    }
  }

  lemma {:induction false} UnnamedBindable(p: Platform, columns: seq<string>)
    ensures Bindable(p, WithTenant(Str("t1"), UnnamedVault()), columns)
    ensures Bindable(p, SecretOfUnnamedVault(), ["vaultId", "risk", "deletedAt"])
  {
    assert Get(WithTenant(Str("t1"), UnnamedVault()), "id") == Some(Str(""));
    UnnamedSecret();
    hide SecretOfUnnamedVault;
  }
}
