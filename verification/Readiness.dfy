/** The readiness checks that the storage inspector, the SQLite migrator and the Postgres planner repeat. */
module Readiness {
  import opened Wrappers
  import opened Json

  type State = map<string, Value>

  const REQUIRED_COLLECTIONS: seq<string> := [
    "users", "deviceInventory", "tenants", "vaults", "secrets",
    "serviceTokens", "secretImports", "accessRequests", "integrationOutbox", "audit"]

  datatype Checks = Checks(
    requiredCollectionsPresent: bool, transientCollectionsExcluded: bool, plaintextSecretsAbsent: bool,
    encryptedSecretPayloadsPresent: bool, orphanSecretsAbsent: bool, orphanVaultMembersAbsent: bool)

  predicate Passes(r: Result<Checks>) {
    r == Success(Checks(true, true, true, true, true, true))
  }

  predicate IsList(state: State, name: string) {
    name in state && state[name].List?
  }

  predicate HasAllCollections(state: State) {
    forall c | c in REQUIRED_COLLECTIONS :: IsList(state, c)
  }

  predicate NoTransientCollections(state: State) {
    "sessions" !in state && "loginFailures" !in state
  }

  predicate HasPlaintext(secret: Value) {
    Truthy(Get(secret, "password"))
  }

  predicate HasEncryptedPayload(secret: Value) {
    var encrypted := Get(secret, "encrypted");
    && encrypted.Some?
    && Truthy(Get(encrypted.value, "iv")) && Truthy(Get(encrypted.value, "tag"))
    && (Truthy(Get(encrypted.value, "ciphertext")) || Truthy(Get(encrypted.value, "value")))
  }

  predicate MembersKnown(vault: Value, userIds: seq<Option<Value>>) {
    var members := ArrayItems(Get(vault, "members"));
    members.Success? && forall m | m in members.value :: Has(userIds, Some(m))
  }

  predicate MembersReadable(vault: Value) {
    ArrayItems(Get(vault, "members")).Success?
  }

  /** The checks over one choice of collections. Reading a property of null, or filtering a value that
      is not an array, stops the script. */
  function Check(required: bool, transientFree: bool, state: State): Result<Checks> {
    var secrets := ArrayItems(Lookup(state, "secrets"));
    var vaults := ArrayItems(Lookup(state, "vaults"));
    var users := ArrayItems(Lookup(state, "users"));
    if secrets.Failure? || vaults.Failure? || users.Failure? then Failure("not an array")
    else if Null in secrets.value || Null in vaults.value || Null in users.value then Failure("property of null")
    else if exists v | v in vaults.value :: !MembersReadable(v) then Failure("members is not an array")
    else
      var vaultIds := Property(vaults.value, "id");
      var userIds := Property(users.value, "id");
      Success(Checks(
        required,
        transientFree,
        forall s | s in secrets.value :: !HasPlaintext(s),
        forall s | s in secrets.value :: HasEncryptedPayload(s),
        forall s | s in secrets.value :: Has(vaultIds, Get(s, "vaultId")),
        forall v | v in vaults.value :: MembersKnown(v, userIds)))
  }

  /** What passing all six checks says about the collections read. */
  predicate Sound(secrets: seq<Value>, vaults: seq<Value>, users: seq<Value>) {
    && Null !in secrets && Null !in users
    && (forall s | s in secrets ::
          !HasPlaintext(s) && HasEncryptedPayload(s) && Has(Property(vaults, "id"), Get(s, "vaultId")))
    && (forall v | v in vaults :: MembersKnown(v, Property(users, "id")))
  }

  predicate NoNullVault(state: State) {
    "vaults" in state && state["vaults"].List? ==> Null !in state["vaults"].items
  }

  lemma {:induction false} PassesExactly(required: bool, transientFree: bool, state: State)
    requires IsList(state, "secrets") && IsList(state, "vaults") && IsList(state, "users")
    ensures Passes(Check(required, transientFree, state)) <==>
            && required && transientFree
            && Sound(state["secrets"].items, state["vaults"].items, state["users"].items)
            && Null !in state["vaults"].items
  {
    hide HasPlaintext, HasEncryptedPayload, Has;
    var vaults, userIds := state["vaults"].items, Property(state["users"].items, "id");
    assert forall v | v in vaults :: MembersKnown(v, userIds) ==> MembersReadable(v);
  }

  /** An encrypted payload with its initialization vector, its tag and its text, under either name. */
  predicate Encrypted(secret: Value) {
    match Get(secret, "encrypted")
    case Some(e) =>
      && Truthy(Get(e, "iv")) && Truthy(Get(e, "tag")) && (Truthy(Get(e, "ciphertext")) || Truthy(Get(e, "value")))
    case None => false
  }

  /** One of the elements has this id; objects and lists are no ids. */
  predicate HasId(items: seq<Value>, id: Option<Value>) {
    && (id.Some? ==> !id.value.List? && !id.value.Object?)
    && exists item | item in items :: Get(item, "id") == id
  }

  lemma {:induction false} HasIdExactly(items: seq<Value>, id: Option<Value>)
    ensures Has(Property(items, "id"), id) <==> HasId(items, id)
  {
    var ids := Property(items, "id");
    assert forall i | 0 <= i < |items| :: ids[i] == Get(items[i], "id") && items[i] in items && ids[i] in ids;
  }

  /** A list of elements, or something that counts as none. */
  predicate ListOrNothing(v: Option<Value>) {
    !Truthy(v) || v.value.List?
  }

  /** On lists the checks stop exactly at a null or at a vault whose members are not a list; otherwise each of
      them says what it is named after. */
  lemma {:induction false} ChecksExactly(required: bool, transientFree: bool, state: State)
    requires IsList(state, "secrets") && IsList(state, "vaults") && IsList(state, "users")
    ensures var secrets, vaults, users := state["secrets"].items, state["vaults"].items, state["users"].items;
            match Check(required, transientFree, state)
            case Failure(_) =>
              Null in secrets || Null in vaults || Null in users
              || exists v | v in vaults :: !ListOrNothing(Get(v, "members"))
            case Success(c) =>
              && Null !in secrets && Null !in vaults && Null !in users
              && (forall v | v in vaults :: ListOrNothing(Get(v, "members")))
              && c.requiredCollectionsPresent == required && c.transientCollectionsExcluded == transientFree
              && (c.plaintextSecretsAbsent <==> forall s | s in secrets :: !Truthy(Get(s, "password")))
              && (c.encryptedSecretPayloadsPresent <==> forall s | s in secrets :: Encrypted(s))
              && (c.orphanSecretsAbsent <==> forall s | s in secrets :: HasId(vaults, Get(s, "vaultId")))
              && (c.orphanVaultMembersAbsent <==> forall v | v in vaults && Truthy(Get(v, "members")) ::
                    forall m | m in Get(v, "members").value.items :: HasId(users, Some(m)))
  {
    hide Has, HasId, Property;
    forall items, id
      ensures Has(Property(items, "id"), id) <==> HasId(items, id)
    {
      HasIdExactly(items, id);
    }
  }

  // ---------------------------------------------------------------- the storage inspector

  /** The state with an empty list for every required collection that is not a list. */
  function Filled(state: State): State {
    map k | k in state.Keys + (set c | c in REQUIRED_COLLECTIONS) ::
      if k in REQUIRED_COLLECTIONS && !IsList(state, k) then List([]) else state[k]
  }

  /** The inspector's loop: it replaces collections in the parsed state and notes which. */
  method FillCollections(state: State) returns (filled: State, defaulted: seq<string>)
    ensures filled == Filled(state)
    ensures forall c :: c in defaulted <==> c in REQUIRED_COLLECTIONS && !IsList(state, c)
  {
    hide REQUIRED_COLLECTIONS;
    filled, defaulted := state, [];
    for i := 0 to |REQUIRED_COLLECTIONS|
      invariant filled.Keys == state.Keys + (set c | c in REQUIRED_COLLECTIONS[..i])
      invariant forall k | k in filled ::
        filled[k] == if k in REQUIRED_COLLECTIONS[..i] && !IsList(state, k) then List([]) else state[k]
      invariant forall c :: c in defaulted <==> c in REQUIRED_COLLECTIONS[..i] && !IsList(state, c)
    {
      var collection := REQUIRED_COLLECTIONS[i];
      assert REQUIRED_COLLECTIONS[..i + 1] == REQUIRED_COLLECTIONS[..i] + [collection];
      if !(collection in filled && filled[collection].List?) {
        filled := filled[collection := List([])];
        defaulted := defaulted + [collection];
      }
    }
    assert REQUIRED_COLLECTIONS[..|REQUIRED_COLLECTIONS|] == REQUIRED_COLLECTIONS;
  }

  function Inspect(state: State): Result<Checks> {
    Check(HasAllCollections(state), NoTransientCollections(Filled(state)), Filled(state))
  }

  /** The same six checks in the Postgres plan, over the raw state. */
  function PlanPostgres(state: State): Result<Checks> {
    Check(HasAllCollections(state), NoTransientCollections(state), state)
  }
}
