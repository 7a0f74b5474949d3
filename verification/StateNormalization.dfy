/** normalizeState and toPersistedState of the JSON to SQLite migration, and its readiness checks. */
module StateNormalization {
  import opened Wrappers
  import opened Json
  import opened Readiness

  const STATE_VERSION: Value := Number(3.0)

  /** A seed state as createSeedState builds it: every required collection, and policies. */
  predicate SeedState(seed: State) {
    && HasAllCollections(seed) && "tenants" in seed && "vaults" in seed
    && "policies" in seed && seed["policies"].Object?
  }

  /** candidate?.name || seeded.name */
  function Either(candidate: State, seed: State, name: string): Value
    requires name in seed
  {
    if Truthy(Lookup(candidate, name)) then candidate[name] else seed[name]
  }

  /** tenants[0]?.id || "t1" */
  function DefaultTenant(tenants: Value): Value {
    var first := match tenants
      case List(items) => if items == [] then None else Some(items[0])
      case Object(fields) => Lookup(fields, "0")
      case _ => None;
    var id := if first.Some? then Get(first.value, "id") else None;
    if Truthy(id) then id.value else Str("t1")
  }

  function WithTenant(tenant: Value, vault: Value): Value {
    Object(map["tenantId" := tenant] + Spread(vault))
  }

  function WithTenants(tenant: Value, vaults: seq<Value>): (r: seq<Value>)
    ensures |r| == |vaults| && forall i | 0 <= i < |r| :: r[i] == WithTenant(tenant, vaults[i])
  {
    if vaults == [] then [] else [WithTenant(tenant, vaults[0])] + WithTenants(tenant, vaults[1..])
  }

  function ObjectOf(v: Option<Value>): State {
    if Truthy(v) then Spread(v.value) else map[]
  }

  /** The properties normalizeState sets after spreading the seed and the candidate. */
  function Overrides(seed: State, candidate: State, vaults: seq<Value>): State
    requires SeedState(seed)
  {
    var tenant := DefaultTenant(Either(candidate, seed, "tenants"));
    (map c | c in REQUIRED_COLLECTIONS :: Either(candidate, seed, c))
    + map[
      "metadata" := Object(ObjectOf(Lookup(candidate, "metadata"))["version" := STATE_VERSION]),
      "vaults" := List(WithTenants(tenant, vaults)),
      "policies" := Object(Spread(seed["policies"]) + ObjectOf(Lookup(candidate, "policies")))]
  }

  function Normalize(seed: State, candidate: State): Result<State>
    requires SeedState(seed)
  {
    match Either(candidate, seed, "vaults")
    case List(vaults) => Success(seed + candidate + Overrides(seed, candidate, vaults))
    case _ => Failure("vaults.map is not a function")
  }

  function ToPersisted(state: State, migratedAt: string): State {
    (state - {"sessions", "loginFailures"})["metadata" := Object(map[
      "version" := STATE_VERSION, "migratedAt" := Str(migratedAt), "source" := Str("json-to-sqlite")])]
  }

  /** The migrator's checks: presence on the parsed state, everything else on the normalized state. */
  function CheckMigration(seed: State, parsed: State): Result<Checks>
    requires SeedState(seed)
  {
    match Normalize(seed, parsed)
    case Failure(e) => Failure(e)
    case Success(normalized) => Check(HasAllCollections(parsed), NoTransientCollections(parsed), normalized)
  }

  // ---------------------------------------------------------------- what normalization keeps

  lemma {:induction false} NormalizedLookups(seed: State, candidate: State)
    requires SeedState(seed) && HasAllCollections(candidate)
    ensures var r := Normalize(seed, candidate);
            && r.Success?
            && (forall c | c in REQUIRED_COLLECTIONS && c != "vaults" ::
                  c in candidate && Lookup(r.value, c) == Some(candidate[c]))
            && "vaults" in candidate && candidate["vaults"].List?
            && Lookup(r.value, "vaults")
               == Some(List(WithTenants(DefaultTenant(candidate["tenants"]), candidate["vaults"].items)))
  {
    hide REQUIRED_COLLECTIONS, WithTenants, DefaultTenant;
    CollectionNames();
  }

  lemma {:induction false} CollectionNames()
    ensures "users" in REQUIRED_COLLECTIONS && "tenants" in REQUIRED_COLLECTIONS && "vaults" in REQUIRED_COLLECTIONS
    ensures "secrets" in REQUIRED_COLLECTIONS
    ensures "metadata" !in REQUIRED_COLLECTIONS && "policies" !in REQUIRED_COLLECTIONS
  {
    assert REQUIRED_COLLECTIONS[0] == "users" && REQUIRED_COLLECTIONS[2] == "tenants";
    assert REQUIRED_COLLECTIONS[3] == "vaults" && REQUIRED_COLLECTIONS[4] == "secrets";
  }

  /** The tenant of vaults that name none: the first tenant's id, or "t1" where there is no tenant with an id. */
  predicate IsDefaultTenant(tenants: seq<Value>, tenant: Value) {
    if tenants != [] && Truthy(Get(tenants[0], "id")) then Get(tenants[0], "id") == Some(tenant)
    else tenant == Str("t1")
  }

  /** No row of the required collections comes from the seed: a state that passes the checks is
      persisted with its own rows; a vault only gets a tenant where it has none. */
  lemma {:induction false} NoSeedRows(seed: State, parsed: State, migratedAt: string)
    requires SeedState(seed) && Passes(CheckMigration(seed, parsed))
    ensures HasAllCollections(parsed) && Normalize(seed, parsed).Success?
    ensures var persisted := ToPersisted(Normalize(seed, parsed).value, migratedAt);
            && (forall c | c in REQUIRED_COLLECTIONS && c != "vaults" ::
                  c in parsed && Lookup(persisted, c) == Some(parsed[c]))
            && "vaults" in parsed && parsed["vaults"].List?
            && "vaults" in persisted && persisted["vaults"].List?
            && |persisted["vaults"].items| == |parsed["vaults"].items|
            && forall i | 0 <= i < |parsed["vaults"].items| ::
                 var before, after := parsed["vaults"].items[i], persisted["vaults"].items[i];
                 forall name | name != "tenantId" :: Get(after, name) == Lookup(Spread(before), name)
  {
    hide REQUIRED_COLLECTIONS, Normalize;
    CollectionNames();
    assert HasAllCollections(parsed) by { hide NoTransientCollections; }
    NormalizedLookups(seed, parsed);
    TransientNames();
  }

  /** The vault as it is persisted has the tenant it had, or the default tenant where it had none. */
  predicate TenantKept(tenants: seq<Value>, before: Value, after: Value) {
    if "tenantId" in Spread(before) then Get(after, "tenantId") == Some(Spread(before)["tenantId"])
    else Get(after, "tenantId").Some? && IsDefaultTenant(tenants, Get(after, "tenantId").value)
  }

  /** A state that passes the checks has no sessions and no login failures, and its vaults keep their tenants. */
  lemma {:induction false} TenantsOfVaults(seed: State, parsed: State, migratedAt: string)
    requires SeedState(seed) && Passes(CheckMigration(seed, parsed))
    ensures "sessions" !in parsed && "loginFailures" !in parsed
    ensures Normalize(seed, parsed).Success?
    ensures var persisted := ToPersisted(Normalize(seed, parsed).value, migratedAt);
            && IsList(parsed, "vaults") && IsList(parsed, "tenants") && IsList(persisted, "vaults")
            && |persisted["vaults"].items| == |parsed["vaults"].items|
            && forall i | 0 <= i < |parsed["vaults"].items| ::
                 TenantKept(parsed["tenants"].items, parsed["vaults"].items[i], persisted["vaults"].items[i])
  {
    hide REQUIRED_COLLECTIONS, Normalize, WithTenant, TenantKept, Check;
    CollectionNames();
    PassedParts(seed, parsed);
    NormalizedLookups(seed, parsed);
    forall i | 0 <= i < |parsed["vaults"].items|
      ensures TenantKept(parsed["tenants"].items, parsed["vaults"].items[i],
                         WithTenant(DefaultTenant(parsed["tenants"]), parsed["vaults"].items[i]))
    {
      TenantGiven(parsed["tenants"].items, parsed["vaults"].items[i]);
    }
  }

  lemma {:induction false} PassedParts(seed: State, parsed: State)
    requires SeedState(seed) && Passes(CheckMigration(seed, parsed))
    ensures HasAllCollections(parsed) && "sessions" !in parsed && "loginFailures" !in parsed
  {
    hide REQUIRED_COLLECTIONS, Normalize;
  }

  lemma {:induction false} TenantGiven(tenants: seq<Value>, vault: Value)
    ensures TenantKept(tenants, vault, WithTenant(DefaultTenant(List(tenants)), vault))
  {
    hide Spread;
  }

  /** The policies as they are persisted: the state's own where it has them, the seed's otherwise. */
  ghost predicate PoliciesKept(seed: State, parsed: State, policies: Value) {
    && policies.Object? && "policies" in seed
    && forall name: string ::
         Get(policies, name) ==
         if name in ObjectOf(Lookup(parsed, "policies")) then Some(ObjectOf(Lookup(parsed, "policies"))[name])
         else Lookup(Spread(seed["policies"]), name)
  }

  /** The state that is persisted, property by property: no sessions and login failures, new metadata, the
      policies of both, the vaults with tenants, for the other nine collections what the state has or else what
      the seed has, and everything else as it was, the seed filling in. */
  lemma {:induction false} PersistedExactly(seed: State, parsed: State, migratedAt: string, name: string)
    requires SeedState(seed) && Normalize(seed, parsed).Success?
    ensures var value := Lookup(ToPersisted(Normalize(seed, parsed).value, migratedAt), name);
            if name == "sessions" || name == "loginFailures" then value == None
            else if name == "metadata" then
              value == Some(Object(map[
                "version" := Number(3.0), "migratedAt" := Str(migratedAt), "source" := Str("json-to-sqlite")]))
            else if name == "policies" then value.Some? && PoliciesKept(seed, parsed, value.value)
            else if name == "vaults" then value.Some? && value.value.List?
            else if name in {"users", "deviceInventory", "tenants", "secrets", "serviceTokens", "secretImports",
                             "accessRequests", "integrationOutbox", "audit"} then
              name in seed && value == Some(if Truthy(Lookup(parsed, name)) then parsed[name] else seed[name])
            else value == if name in parsed then Some(parsed[name]) else Lookup(seed, name)
  {
    hide WithTenants, DefaultTenant, REQUIRED_COLLECTIONS, Spread;
    NineCollections(name);
    CollectionNames();
  }

  lemma {:induction false} NineCollections(name: string)
    ensures name in REQUIRED_COLLECTIONS <==>
            || name == "vaults"
            || name in {"users", "deviceInventory", "tenants", "secrets", "serviceTokens", "secretImports",
                        "accessRequests", "integrationOutbox", "audit"}
  {
    var c := REQUIRED_COLLECTIONS;
    assert c[0] == "users" && c[1] == "deviceInventory" && c[2] == "tenants" && c[3] == "vaults" && c[4] == "secrets";
    assert c[5] == "serviceTokens" && c[6] == "secretImports" && c[7] == "accessRequests";
    assert c[8] == "integrationOutbox" && c[9] == "audit" && |c| == 10;
    hide REQUIRED_COLLECTIONS;
  }

  lemma {:induction false} TransientNames()
    ensures forall c | c in REQUIRED_COLLECTIONS :: c != "sessions" && c != "loginFailures" && c != "metadata"
  {
  }

  /** Normalizing a normalized state changes nothing, even against a freshly generated seed. */
  lemma {:induction false} NormalizeIdempotent(seed: State, reseed: State, candidate: State)
    requires SeedState(seed) && SeedState(reseed)
    requires seed.Keys == reseed.Keys && seed["policies"].fields.Keys == reseed["policies"].fields.Keys
    ensures var once := Normalize(seed, candidate);
            once.Success? ==> Normalize(reseed, once.value) == once
  {
    hide REQUIRED_COLLECTIONS, DefaultTenant, WithTenants, Overrides, HasAllCollections;
    var once := Normalize(seed, candidate);
    if once.Success? {
      var state := once.value;
      OverridesSet(seed, reseed, candidate);
      OverridesStay(seed, reseed, candidate);
      assert reseed + state == state;
    }
  }

  lemma {:induction false} OverridesFields(seed: State, candidate: State, vaults: seq<Value>)
    requires SeedState(seed)
    ensures var o := Overrides(seed, candidate, vaults);
            && (forall k :: k in o <==> k in REQUIRED_COLLECTIONS || k in {"metadata", "vaults", "policies"})
            && o["metadata"] == Object(ObjectOf(Lookup(candidate, "metadata"))["version" := STATE_VERSION])
            && o["vaults"] == List(WithTenants(DefaultTenant(Either(candidate, seed, "tenants")), vaults))
            && o["policies"] == Object(Spread(seed["policies"]) + ObjectOf(Lookup(candidate, "policies")))
            && (forall c | c in REQUIRED_COLLECTIONS && c != "vaults" ::
                 c in seed && o[c] == Either(candidate, seed, c))
  {
    hide REQUIRED_COLLECTIONS, DefaultTenant, WithTenants, Spread, ObjectOf, Either;
    CollectionNames();
  }

  /** What Overrides leaves in the normalized state. */
  lemma {:induction false} OverridesSet(seed: State, reseed: State, candidate: State)
    requires SeedState(seed) && SeedState(reseed) && Either(candidate, seed, "vaults").List?
    ensures var vaults := Either(candidate, seed, "vaults").items;
            var state := Normalize(seed, candidate).value;
            && seed.Keys <= state.Keys
            && "vaults" in state
            && state["vaults"] == List(WithTenants(DefaultTenant(Either(candidate, seed, "tenants")), vaults))
            && "tenants" in state && state["tenants"] == Either(candidate, seed, "tenants")
            && (forall c | c in REQUIRED_COLLECTIONS && c != "vaults" ::
                  c in seed && c in state && state[c] == Either(candidate, seed, c))
            && (forall c | c in REQUIRED_COLLECTIONS :: c in reseed && Truthy(Some(reseed[c])))
  {
    hide REQUIRED_COLLECTIONS, DefaultTenant, WithTenants, Spread, ObjectOf, Overrides;
    CollectionNames();
    OverridesFields(seed, candidate, Either(candidate, seed, "vaults").items);
  }

  lemma {:induction false} OverridesStay(seed: State, reseed: State, candidate: State)
    requires SeedState(seed) && SeedState(reseed) && Either(candidate, seed, "vaults").List?
    requires seed.Keys == reseed.Keys && seed["policies"].fields.Keys == reseed["policies"].fields.Keys
    ensures var state := Normalize(seed, candidate).value;
            && "vaults" in state && state["vaults"].List?
            && Either(state, reseed, "vaults") == state["vaults"]
            && state + Overrides(reseed, state, state["vaults"].items) == state
  {
    hide REQUIRED_COLLECTIONS, DefaultTenant, WithTenants, Spread, ObjectOf, Either, HasAllCollections, Overrides;
    CollectionNames();
    OverridesSet(seed, reseed, candidate);
    var state := Normalize(seed, candidate).value;
    CollectionsStay(seed, reseed, candidate);
    TenantsStay(DefaultTenant(state["tenants"]), Either(candidate, seed, "vaults").items);
    OverridesFields(seed, candidate, Either(candidate, seed, "vaults").items);
    OverridesFields(reseed, state, state["vaults"].items);
    MetadataStays(candidate);
    PoliciesStay(seed, reseed, candidate);
    var again := Overrides(reseed, state, state["vaults"].items);
    assert forall k | k in again :: k in state && again[k] == state[k];
  }

  lemma {:induction false} CollectionsStay(seed: State, reseed: State, candidate: State)
    requires SeedState(seed) && SeedState(reseed) && Either(candidate, seed, "vaults").List?
    ensures var state := Normalize(seed, candidate).value;
            forall c | c in REQUIRED_COLLECTIONS :: c in state && c in reseed && Either(state, reseed, c) == state[c]
  {
    hide REQUIRED_COLLECTIONS, DefaultTenant, WithTenants, Overrides;
    OverridesSet(seed, reseed, candidate);
    var state := Normalize(seed, candidate).value;
    forall c | c in REQUIRED_COLLECTIONS && c != "vaults"
      ensures Truthy(Some(state[c]))
    {
      assert state[c] == Either(candidate, seed, c);
    }
  }

  lemma {:induction false} MetadataStays(candidate: State)
    ensures var metadata := Object(ObjectOf(Lookup(candidate, "metadata"))["version" := STATE_VERSION]);
            Object(ObjectOf(Some(metadata))["version" := STATE_VERSION]) == metadata
  {
    var fields := ObjectOf(Lookup(candidate, "metadata"))["version" := STATE_VERSION];
    assert fields["version" := STATE_VERSION] == fields;
  }

  lemma {:induction false} PoliciesStay(seed: State, reseed: State, candidate: State)
    requires SeedState(seed) && SeedState(reseed)
    requires seed["policies"].fields.Keys == reseed["policies"].fields.Keys
    ensures var policies := Object(Spread(seed["policies"]) + ObjectOf(Lookup(candidate, "policies")));
            Object(Spread(reseed["policies"]) + ObjectOf(Some(policies))) == policies
  {
    var fields := Spread(seed["policies"]) + ObjectOf(Lookup(candidate, "policies"));
    assert Spread(reseed["policies"]) + fields == fields;
  }

  lemma {:induction false} TenantsStay(tenant: Value, vaults: seq<Value>)
    ensures WithTenants(tenant, WithTenants(tenant, vaults)) == WithTenants(tenant, vaults)
  {
    hide WithTenant;
    forall i | 0 <= i < |vaults|
      ensures WithTenant(tenant, WithTenant(tenant, vaults[i])) == WithTenant(tenant, vaults[i])
    {
      TenantStays(tenant, vaults[i]);
    }
  }

  lemma {:induction false} TenantStays(tenant: Value, vault: Value)
    ensures WithTenant(tenant, WithTenant(tenant, vault)) == WithTenant(tenant, vault)
  {
    var fields := map["tenantId" := tenant] + Spread(vault);
    assert map["tenantId" := tenant] + fields == fields;
  }

  // ---------------------------------------------------------------- the three scripts agree

  /** The inspector and the planner always agree; the migrator agrees with them on every state whose
      vault list holds no null. */
  lemma {:induction false} ReadinessAgrees(seed: State, state: State)
    requires SeedState(seed)
    ensures Passes(Inspect(state)) <==> Passes(PlanPostgres(state))
    ensures Passes(Inspect(state)) <==>
            Passes(CheckMigration(seed, state)) && NoNullVault(state)
  {
    hide Check, REQUIRED_COLLECTIONS, Normalize, NoTransientCollections, Overrides;
    if HasAllCollections(state) {
      FilledComplete(state);
      SameVerdict(seed, state);
    } else {
      IncompleteFails(Filled(state), NoTransientCollections(Filled(state)));
      IncompleteFails(state, NoTransientCollections(state));
      var normalized := Normalize(seed, state);
      if normalized.Success? {
        IncompleteFails(normalized.value, NoTransientCollections(state));
      }
    }
  }

  /** The one disagreement: a null vault stops the inspector, while the migrator reads it as an object. */
  lemma {:induction false} NullVaultDisagrees(seed: State)
    requires SeedState(seed)
    ensures var state := (map c | c in REQUIRED_COLLECTIONS :: List([]))["vaults" := List([Null])];
            Passes(CheckMigration(seed, state)) && !Passes(Inspect(state))
  {
    var state := (map c | c in REQUIRED_COLLECTIONS :: List([]))["vaults" := List([Null])];
    hide REQUIRED_COLLECTIONS, Normalize, NoTransientCollections, Check;
    CollectionNames();
    TransientNames();
    ReadinessAgrees(seed, state);
    assert NoTransientCollections(state) by { NoTransient(state); }
    NormalizedLookups(seed, state);
    var normalized := Normalize(seed, state).value;
    PassesExactly(true, true, normalized);
    VaultsReadAlike(DefaultTenant(state["tenants"]), [Null]);
    var vaults := normalized["vaults"].items;
    assert MembersKnown(vaults[0], []) && vaults == [vaults[0]];
    assert Property([], "id") == [];
    assert Null in state["vaults"].items;
  }

  lemma {:induction false} NoTransient(state: State)
    requires forall k | k in state :: k in REQUIRED_COLLECTIONS
    ensures NoTransientCollections(state)
  {
    TransientNames();
  }

  lemma {:induction false} IncompleteFails(state: State, transientFree: bool)
    ensures !Passes(Check(false, transientFree, state))
  {
  }

  lemma {:induction false} FilledComplete(state: State)
    requires HasAllCollections(state)
    ensures Filled(state) == state
  {
    hide REQUIRED_COLLECTIONS;
  }

  lemma {:induction false} SameVerdict(seed: State, state: State)
    requires SeedState(seed) && HasAllCollections(state)
    ensures Passes(PlanPostgres(state)) <==> Passes(CheckMigration(seed, state)) && NoNullVault(state)
  {
    hide REQUIRED_COLLECTIONS, NoTransientCollections, DefaultTenant, Normalize, Sound, Passes, Check;
    CollectionNames();
    NormalizedLookups(seed, state);
    var normalized := Normalize(seed, state).value;
    var transientFree := NoTransientCollections(state);
    assert IsList(state, "secrets") && IsList(state, "vaults") && IsList(state, "users");
    PassesExactly(true, transientFree, state);
    PassesExactly(true, transientFree, normalized);
    VaultsReadAlike(DefaultTenant(state["tenants"]), state["vaults"].items);
    SoundAlike(state["secrets"].items, state["vaults"].items, normalized["vaults"].items, state["users"].items);
  }

  lemma {:induction false} SoundAlike(secrets: seq<Value>, raw: seq<Value>, vaults: seq<Value>, users: seq<Value>)
    requires |raw| == |vaults| && Property(vaults, "id") == Property(raw, "id")
    requires forall i | 0 <= i < |raw| :: Get(vaults[i], "members") == Get(raw[i], "members")
    ensures Sound(secrets, raw, users) <==> Sound(secrets, vaults, users)
  {
    hide HasPlaintext, HasEncryptedPayload, Has, Property, ArrayItems, Get;
    var userIds := Property(users, "id");
    assert forall i | 0 <= i < |raw| :: MembersKnown(raw[i], userIds) <==> MembersKnown(vaults[i], userIds);
    assert (forall v | v in raw :: MembersKnown(v, userIds)) <==> (forall i | 0 <= i < |raw| :: MembersKnown(raw[i],
           userIds));
    assert (forall v | v in vaults :: MembersKnown(v, userIds))
           <==> (forall i | 0 <= i < |raw| :: MembersKnown(vaults[i], userIds));
  }

  /** Completing a vault with a tenant leaves its id and its members; null alone becomes an object. */
  lemma {:induction false} VaultsReadAlike(tenant: Value, raw: seq<Value>)
    ensures var vaults := WithTenants(tenant, raw);
            && |vaults| == |raw|
            && Null !in vaults
            && Property(vaults, "id") == Property(raw, "id")
            && forall i | 0 <= i < |raw| :: Get(vaults[i], "members") == Get(raw[i], "members")
  {
    var vaults := WithTenants(tenant, raw);
    forall i | 0 <= i < |raw|
      ensures Get(vaults[i], "id") == Get(raw[i], "id") && Get(vaults[i], "members") == Get(raw[i], "members")
    {
      SpreadReadsAlike(tenant, raw[i], "id");
      SpreadReadsAlike(tenant, raw[i], "members");
    }
  }

  lemma {:induction false} SpreadReadsAlike(tenant: Value, vault: Value, name: string)
    requires name == "id" || name == "members"
    ensures Get(WithTenant(tenant, vault), name) == Get(vault, name)
  {
    match vault
    case List(items) => IndexedNames(items, name);
    case Str(s) => IndexedNames(Characters(s), name);
    case _ =>
  }

  lemma {:induction false} IndexedNames(items: seq<Value>, name: string)
    requires name == "id" || name == "members"
    ensures name !in IndexedFields(items)
  {
    if items != [] {
      IndexedNames(items[..|items| - 1], name);
    }
  }
}
