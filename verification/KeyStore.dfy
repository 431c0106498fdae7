/** The in-memory key store and its indexes. */
module KeyStore {

  import opened Prelude

  type KeyId = string

  datatype ApiKey = ApiKey(
    id: KeyId, name: string, keyPrefix: string, keyHash: string, tenant: string, roles: seq<string>,
    enabled: bool, expiresAt: Option<real>, lastUsedAt: Option<real>, usageCount: nat)
  {
    predicate IsExpired(now: real) {
      expiresAt.Some? && now > expiresAt.value
    }
  }

  // ---------------------------------------------------------------------------
  // Indexes as values
  // ---------------------------------------------------------------------------

  type Index = map<string, seq<KeyId>>

  function IdsAt(index: Index, at: string): seq<KeyId> {
    if at in index then index[at] else []
  }

  /** `entry(at).or_default().push(id)`. */
  function Pushed(index: Index, at: string, id: KeyId): Index {
    index[at := IdsAt(index, at) + [id]]
  }

  /** `retain(|i| i != id)`. */
  function Without(ids: seq<KeyId>, id: KeyId): (kept: seq<KeyId>)
    ensures forall i :: i in kept <==> i in ids && i != id
  {
    if ids == [] then []
    else if ids[0] == id then Without(ids[1..], id)
    else [ids[0]] + Without(ids[1..], id)
  }

  ghost predicate NoDuplicates<T>(s: seq<T>) {
    forall i, j :: 0 <= i < j < |s| ==> s[i] != s[j]
  }

  lemma {:induction false} WithoutKeepsDistinct(ids: seq<KeyId>, id: KeyId)
    requires NoDuplicates(ids)
    ensures NoDuplicates(Without(ids, id))
  {
    if ids != [] {
      var rest := Without(ids[1..], id);
      assert forall i, j :: 0 <= i < j < |ids[1..]| ==> ids[1..][i] != ids[1..][j];
      WithoutKeepsDistinct(ids[1..], id);
      assert ids[0] !in ids[1..];
      forall j | 0 <= j < |rest|
        ensures rest[j] != ids[0]
      {
        assert rest[j] in ids[1..];
      }
    }
  }

  function Retained(index: Index, at: string, id: KeyId): Index {
    if at in index then index[at := Without(index[at], id)] else index
  }

  /** The keys an index entry lists, in its order; an id with no key is skipped. */
  function KeysOf(keys: map<KeyId, ApiKey>, ids: seq<KeyId>): seq<ApiKey> {
    if ids == [] then []
    else if ids[0] in keys then [keys[ids[0]]] + KeysOf(keys, ids[1..])
    else KeysOf(keys, ids[1..])
  }

  /** An index lists every key once, under the attribute it indexes, and nothing else. */
  ghost predicate Indexes(keys: map<KeyId, ApiKey>, index: Index, attribute: ApiKey -> string) {
    forall at ::
      && NoDuplicates(IdsAt(index, at))
      && forall id :: id in IdsAt(index, at) <==> id in keys && attribute(keys[id]) == at
  }

  const BY_PREFIX: ApiKey -> string := (k: ApiKey) => k.keyPrefix
  const BY_TENANT: ApiKey -> string := (k: ApiKey) => k.tenant

  datatype State = State(keys: map<KeyId, ApiKey>, prefixes: Index, tenants: Index, usage: map<KeyId, nat>)
  {
    /** Every key is filed under its id, found through both indexes, and counted. */
    ghost predicate Sound() {
      && (forall id :: id in keys ==> keys[id].id == id)
      && Indexes(keys, prefixes, BY_PREFIX) && Indexes(keys, tenants, BY_TENANT)
      && usage.Keys == keys.Keys
    }
  }

  // ---------------------------------------------------------------------------
  // The operations as functions of the state
  // ---------------------------------------------------------------------------

  function Stored(s: State, key: ApiKey): State {
    State(s.keys[key.id := key], Pushed(s.prefixes, key.keyPrefix, key.id),
          Pushed(s.tenants, key.tenant, key.id), s.usage[key.id := 0])
  }

  function Updated(s: State, key: ApiKey): State {
    if key.id in s.keys then s.(keys := s.keys[key.id := key]) else s
  }

  function Deleted(s: State, id: KeyId): State {
    if id !in s.keys then s
    else
      State(s.keys - {id}, Retained(s.prefixes, s.keys[id].keyPrefix, id),
            Retained(s.tenants, s.keys[id].tenant, id), s.usage - {id})
  }

  function Used(s: State, id: KeyId, now: real): State {
    if id !in s.usage then s
    else
      var n := s.usage[id] + 1;
      State(if id in s.keys then s.keys[id := s.keys[id].(lastUsedAt := Some(now), usageCount := n)] else s.keys,
            s.prefixes, s.tenants, s.usage[id := n])
  }

  function Switched(s: State, id: KeyId, enabled: bool): State {
    if id in s.keys then s.(keys := s.keys[id := s.keys[id].(enabled := enabled)]) else s
  }

  datatype Operation =
    | Store(key: ApiKey)
    | Update(key: ApiKey)
    | Delete(id: KeyId)
    | RecordUsage(id: KeyId, now: real)
    | SetEnabled(id: KeyId, enabled: bool)

  function Apply(s: State, op: Operation): State {
    match op
    case Store(key) => Stored(s, key)
    case Update(key) => Updated(s, key)
    case Delete(id) => Deleted(s, id)
    case RecordUsage(id, now) => Used(s, id, now)
    case SetEnabled(id, enabled) => Switched(s, id, enabled)
  }

  function After(s: State, ops: seq<Operation>): State {
    if ops == [] then s else Apply(After(s, ops[..|ops| - 1]), ops[|ops| - 1])
  }

  /** The id is new, or the update leaves what the indexes are built from. */
  predicate Disciplined(s: State, op: Operation) {
    && (op.Store? ==> op.key.id !in s.keys)
    && (op.Update? && op.key.id in s.keys ==>
          op.key.keyPrefix == s.keys[op.key.id].keyPrefix && op.key.tenant == s.keys[op.key.id].tenant)
  }

  // ---------------------------------------------------------------------------
  // The store in place
  // ---------------------------------------------------------------------------

  class InMemoryApiKeyStore {
    var keysById: map<KeyId, ApiKey>
    var keysByPrefix: Index
    var keysByTenant: Index
    var usageCounters: map<KeyId, nat>

    ghost function Contents(): State
      reads this
    {
      State(keysById, keysByPrefix, keysByTenant, usageCounters)
    }

    constructor ()
      ensures Contents() == State(map[], map[], map[], map[])
    {
      keysById := map[];
      keysByPrefix := map[];
      keysByTenant := map[];
      usageCounters := map[];
    }

    method Lookup(ids: seq<KeyId>) returns (found: seq<ApiKey>)
      ensures found == KeysOf(keysById, ids)
    {
      found := [];
      for i := 0 to |ids|
        invariant found + KeysOf(keysById, ids[i..]) == KeysOf(keysById, ids)
      {
        if ids[i] in keysById {
          found := found + [keysById[ids[i]]];
        }
        assert ids[i..][1..] == ids[i + 1..];
      }
    }

    method GetByPrefix(keyPrefix: string) returns (found: seq<ApiKey>)
      ensures found == KeysOf(Contents().keys, IdsAt(Contents().prefixes, keyPrefix))
    {
      found := Lookup(IdsAt(keysByPrefix, keyPrefix));
    }

    method ListForTenant(tenant: string) returns (found: seq<ApiKey>)
      ensures found == KeysOf(Contents().keys, IdsAt(Contents().tenants, tenant))
    {
      found := Lookup(IdsAt(keysByTenant, tenant));
    }

    method Store(key: ApiKey)
      modifies this
      ensures Contents() == Stored(old(Contents()), key)
    {
      keysById := keysById[key.id := key];
      keysByPrefix := Pushed(keysByPrefix, key.keyPrefix, key.id);
      usageCounters := usageCounters[key.id := 0];
      keysByTenant := Pushed(keysByTenant, key.tenant, key.id);
    }

    method Update(key: ApiKey) returns (ok: bool)
      modifies this
      ensures ok == (key.id in old(keysById))
      ensures Contents() == Updated(old(Contents()), key)
    {
      ok := key.id in keysById;
      if ok {
        keysById := keysById[key.id := key];
      }
    }

    method Delete(id: KeyId) returns (ok: bool)
      modifies this
      ensures ok == (id in old(keysById))
      ensures Contents() == Deleted(old(Contents()), id)
    {
      if id !in keysById {
        return false;
      }
      var key := keysById[id];
      keysById := keysById - {id};
      keysByPrefix := Retained(keysByPrefix, key.keyPrefix, id);
      keysByTenant := Retained(keysByTenant, key.tenant, id);
      usageCounters := usageCounters - {id};
      ok := true;
    }

    method RecordUsage(id: KeyId, now: real) returns (ok: bool)
      modifies this
      ensures ok == (id in old(usageCounters))
      ensures Contents() == Used(old(Contents()), id, now)
    {
      ok := id in usageCounters;
      if ok {
        usageCounters := usageCounters[id := usageCounters[id] + 1];
        if id in keysById {
          keysById := keysById[id := keysById[id].(lastUsedAt := Some(now), usageCount := usageCounters[id])];
        }
      }
    }

    method SetEnabled(id: KeyId, enabled: bool) returns (ok: bool)
      modifies this
      ensures ok == (id in old(keysById))
      ensures Contents() == Switched(old(Contents()), id, enabled)
    {
      ok := id in keysById;
      if ok {
        keysById := keysById[id := keysById[id].(enabled := enabled)];
      }
    }
  }

  // ---------------------------------------------------------------------------
  // The indexes agree with the keys
  // ---------------------------------------------------------------------------

  lemma PushIndexes(keys: map<KeyId, ApiKey>, index: Index, attribute: ApiKey -> string, key: ApiKey)
    requires Indexes(keys, index, attribute) && key.id !in keys
    ensures Indexes(keys[key.id := key], Pushed(index, attribute(key), key.id), attribute)
  {
    var keys', index' := keys[key.id := key], Pushed(index, attribute(key), key.id);
    forall at
      ensures NoDuplicates(IdsAt(index', at))
      ensures forall id :: id in IdsAt(index', at) <==> id in keys' && attribute(keys'[id]) == at
    {
      assert NoDuplicates(IdsAt(index, at));
      assert forall id :: id in IdsAt(index, at) <==> id in keys && attribute(keys[id]) == at;
    }
  }

  lemma ReplaceIndexes(keys: map<KeyId, ApiKey>, index: Index, attribute: ApiKey -> string, id: KeyId, key: ApiKey)
    requires Indexes(keys, index, attribute) && id in keys && attribute(key) == attribute(keys[id])
    ensures Indexes(keys[id := key], index, attribute)
  {
    forall at
      ensures forall i :: i in IdsAt(index, at) <==> i in keys[id := key] && attribute(keys[id := key][i]) == at
    {
      assert forall i :: i in IdsAt(index, at) <==> i in keys && attribute(keys[i]) == at;
    }
  }

  lemma RetainIndexes(keys: map<KeyId, ApiKey>, index: Index, attribute: ApiKey -> string, id: KeyId)
    requires Indexes(keys, index, attribute) && id in keys
    ensures Indexes(keys - {id}, Retained(index, attribute(keys[id]), id), attribute)
  {
    var keys', index' := keys - {id}, Retained(index, attribute(keys[id]), id);
    forall at
      ensures NoDuplicates(IdsAt(index', at))
      ensures forall i :: i in IdsAt(index', at) <==> i in keys' && attribute(keys'[i]) == at
    {
      assert NoDuplicates(IdsAt(index, at));
      assert forall i :: i in IdsAt(index, at) <==> i in keys && attribute(keys[i]) == at;
      WithoutKeepsDistinct(IdsAt(index, at), id);
    }
  }

  lemma StepKeepsSound(s: State, op: Operation)
    requires s.Sound() && Disciplined(s, op)
    ensures Apply(s, op).Sound()
  {
    match op
    case Store(key) =>
      PushIndexes(s.keys, s.prefixes, BY_PREFIX, key);
      PushIndexes(s.keys, s.tenants, BY_TENANT, key);
    case Update(key) =>
      if key.id in s.keys {
        ReplaceIndexes(s.keys, s.prefixes, BY_PREFIX, key.id, key);
        ReplaceIndexes(s.keys, s.tenants, BY_TENANT, key.id, key);
      }
    case Delete(id) =>
      if id in s.keys {
        RetainIndexes(s.keys, s.prefixes, BY_PREFIX, id);
        RetainIndexes(s.keys, s.tenants, BY_TENANT, id);
      }
    case RecordUsage(id, now) =>
      if id in s.keys {
        var used := Used(s, id, now).keys[id];
        ReplaceIndexes(s.keys, s.prefixes, BY_PREFIX, id, used);
        ReplaceIndexes(s.keys, s.tenants, BY_TENANT, id, used);
      }
    case SetEnabled(id, enabled) =>
      if id in s.keys {
        var switched := s.keys[id].(enabled := enabled);
        ReplaceIndexes(s.keys, s.prefixes, BY_PREFIX, id, switched);
        ReplaceIndexes(s.keys, s.tenants, BY_TENANT, id, switched);
      }
  }

  /** An index is broken by a second push of an id it already lists, and by a key that moved away from its entry. */
  lemma StaleIndex(keys: map<KeyId, ApiKey>, index: Index, attribute: ApiKey -> string, id: KeyId, key: ApiKey)
    requires Indexes(keys, index, attribute) && id in keys
    ensures !Indexes(keys[id := key], Pushed(index, attribute(key), id), attribute)
    ensures attribute(key) != attribute(keys[id]) ==> !Indexes(keys[id := key], index, attribute)
  {
    var at := attribute(keys[id]);
    var ids := IdsAt(index, at);
    assert id in ids;
    var i :| 0 <= i < |ids| && ids[i] == id;
    var pushed := Pushed(index, attribute(key), id);
    if attribute(key) == at {
      assert IdsAt(pushed, at) == ids + [id];
      assert IdsAt(pushed, at)[i] == IdsAt(pushed, at)[|ids|];
      assert !NoDuplicates(IdsAt(pushed, at));
    } else {
      assert IdsAt(pushed, at) == ids;
      assert id in IdsAt(pushed, at);
    }
  }

  /**
   * Exactly the disciplined operations keep the indexes in step: storing an id twice leaves it listed twice or under
   * an attribute it no longer has, and an update that moves a key leaves it where it was.
   */
  lemma StepKeepsSoundIff(s: State, op: Operation)
    requires s.Sound()
    ensures Apply(s, op).Sound() <==> Disciplined(s, op)
  {
    if Disciplined(s, op) {
      StepKeepsSound(s, op);
    } else {
      var key := op.key;
      StaleIndex(s.keys, s.prefixes, BY_PREFIX, key.id, key);
      StaleIndex(s.keys, s.tenants, BY_TENANT, key.id, key);
    }
  }

  const EMPTY_STORE := State(map[], map[], map[], map[])

  /** A run from the empty store of disciplined operations. */
  ghost predicate IsDisciplinedRun(ops: seq<Operation>) {
    forall i :: 0 <= i < |ops| ==> Disciplined(After(EMPTY_STORE, ops[..i]), ops[i])
  }

  lemma RunBefore(ops: seq<Operation>)
    requires IsDisciplinedRun(ops) && ops != []
    ensures IsDisciplinedRun(ops[..|ops| - 1])
    ensures Disciplined(After(EMPTY_STORE, ops[..|ops| - 1]), ops[|ops| - 1])
  {
    var n := |ops| - 1;
    forall i | 0 <= i < n
      ensures Disciplined(After(EMPTY_STORE, ops[..n][..i]), ops[..n][i])
    {
      assert ops[..n][..i] == ops[..i] && ops[..n][i] == ops[i];
    }
  }

  /** Every disciplined run from the empty store keeps the indexes and the keys in agreement. */
  lemma {:induction false} RunsStaySound(ops: seq<Operation>)
    requires IsDisciplinedRun(ops)
    ensures After(EMPTY_STORE, ops).Sound()
    decreases |ops|
  {
    if ops != [] {
      var n := |ops| - 1;
      RunBefore(ops);
      RunsStaySound(ops[..n]);
      StepKeepsSound(After(EMPTY_STORE, ops[..n]), ops[n]);
    }
  }

  lemma {:induction false} KeysOfAre(keys: map<KeyId, ApiKey>, ids: seq<KeyId>)
    requires forall id :: id in ids ==> id in keys
    requires forall id :: id in keys ==> keys[id].id == id
    ensures |KeysOf(keys, ids)| == |ids|
    ensures forall i :: 0 <= i < |ids| ==> KeysOf(keys, ids)[i] == keys[ids[i]]
  {
    if ids != [] {
      KeysOfAre(keys, ids[1..]);
    }
  }

  /** What an index lists: exactly the stored keys with the attribute, each once. */
  ghost predicate Lists(keys: map<KeyId, ApiKey>, attribute: ApiKey -> string, at: string, found: seq<ApiKey>) {
    && NoDuplicates(found)
    && forall k :: k in found <==> k.id in keys && keys[k.id] == k && attribute(k) == at
  }

  lemma IndexListsTheKeys(keys: map<KeyId, ApiKey>, index: Index, attribute: ApiKey -> string, at: string)
    requires Indexes(keys, index, attribute) && forall id :: id in keys ==> keys[id].id == id
    ensures Lists(keys, attribute, at, KeysOf(keys, IdsAt(index, at)))
  {
    var ids := IdsAt(index, at);
    var found := KeysOf(keys, ids);
    assert NoDuplicates(ids);
    assert forall id :: id in ids <==> id in keys && attribute(keys[id]) == at;
    KeysOfAre(keys, ids);
    forall i, j | 0 <= i < j < |found|
      ensures found[i] != found[j]
    {
      assert keys[ids[i]].id == ids[i] && keys[ids[j]].id == ids[j];
    }
    forall k: ApiKey | k.id in keys && keys[k.id] == k && attribute(k) == at
      ensures k in found
    {
      assert k.id in ids;
      var i :| 0 <= i < |ids| && ids[i] == k.id;
      assert found[i] == k;
    }
  }

  /** A lookup by prefix or by tenant finds exactly the stored keys that a scan of them all would, each once. */
  lemma LookupsAreScans(s: State, at: string)
    requires s.Sound()
    ensures Lists(s.keys, BY_PREFIX, at, KeysOf(s.keys, IdsAt(s.prefixes, at)))
    ensures Lists(s.keys, BY_TENANT, at, KeysOf(s.keys, IdsAt(s.tenants, at)))
  {
    IndexListsTheKeys(s.keys, s.prefixes, BY_PREFIX, at);
    IndexListsTheKeys(s.keys, s.tenants, BY_TENANT, at);
  }

  // ---------------------------------------------------------------------------
  // The order of storing
  // ---------------------------------------------------------------------------

  /** Under the prefix of `a`, its id is listed before that of `b`. */
  ghost predicate ListedBefore(s: State, a: KeyId, b: KeyId) {
    a in s.keys && var ids := IdsAt(s.prefixes, s.keys[a].keyPrefix);
                   exists i, j :: 0 <= i < j < |ids| && ids[i] == a && ids[j] == b
  }

  /** A key is listed after every key of its prefix that was there when it was stored. */
  lemma StoredIsListedLast(s: State, key: ApiKey, a: KeyId)
    requires s.Sound() && key.id !in s.keys && a in s.keys && s.keys[a].keyPrefix == key.keyPrefix
    ensures ListedBefore(Stored(s, key), a, key.id)
  {
    var ids := IdsAt(s.prefixes, key.keyPrefix);
    assert forall id :: id in ids <==> id in s.keys && BY_PREFIX(s.keys[id]) == key.keyPrefix;
    assert a in ids;
    var i :| 0 <= i < |ids| && ids[i] == a;
    var pushed := ids + [key.id];
    assert IdsAt(Stored(s, key).prefixes, key.keyPrefix) == pushed;
    assert pushed[i] == a && pushed[|ids|] == key.id;
  }

  lemma {:induction false} WithoutKeepsOrder(ids: seq<KeyId>, id: KeyId, i: nat, j: nat)
    requires i < j < |ids| && ids[i] != id && ids[j] != id
    ensures exists x, y ::
              0 <= x < y < |Without(ids, id)| && Without(ids, id)[x] == ids[i] && Without(ids, id)[y] == ids[j]
  {
    var rest := Without(ids[1..], id);
    if i > 0 {
      WithoutKeepsOrder(ids[1..], id, i - 1, j - 1);
      var x, y :| 0 <= x < y < |rest| && rest[x] == ids[i] && rest[y] == ids[j];
      if ids[0] == id {
        assert Without(ids, id) == rest;
      } else {
        assert Without(ids, id)[x + 1] == ids[i] && Without(ids, id)[y + 1] == ids[j];
      }
    } else {
      assert ids[j] == ids[1..][j - 1] && ids[j] in ids[1..];
      var y :| 0 <= y < |rest| && rest[y] == ids[j];
      assert Without(ids, id)[0] == ids[0] && Without(ids, id)[y + 1] == ids[j];
    }
  }

  /** No disciplined operation changes the order in which keys that stay are listed. */
  lemma StepKeepsOrder(s: State, op: Operation, a: KeyId, b: KeyId)
    requires s.Sound() && Disciplined(s, op) && ListedBefore(s, a, b)
    requires a in Apply(s, op).keys && b in Apply(s, op).keys
    ensures ListedBefore(Apply(s, op), a, b)
  {
    var prefix := s.keys[a].keyPrefix;
    var ids, ids' := IdsAt(s.prefixes, prefix), IdsAt(Apply(s, op).prefixes, prefix);
    var i, j :| 0 <= i < j < |ids| && ids[i] == a && ids[j] == b;
    assert Apply(s, op).keys[a].keyPrefix == prefix;
    if op.Delete? && op.id in s.keys && s.keys[op.id].keyPrefix == prefix {
      WithoutKeepsOrder(ids, op.id, i, j);
    } else {
      assert ids <= ids';
      assert ids'[i] == a && ids'[j] == b;
    }
  }

  /** When in a run an id was last stored. */
  function LastStore(ops: seq<Operation>, id: KeyId): (at: Option<nat>)
    ensures at.Some? ==> at.value < |ops| && ops[at.value].Store? && ops[at.value].key.id == id
  {
    if ops == [] then None
    else
      var n := |ops| - 1;
      if ops[n].Store? && ops[n].key.id == id then Some(n) else LastStore(ops[..n], id)
  }

  lemma {:induction false} LiveKeysWereStored(ops: seq<Operation>, id: KeyId)
    requires id in After(EMPTY_STORE, ops).keys
    ensures LastStore(ops, id).Some?
    decreases |ops|
  {
    var n := |ops| - 1;
    if !(ops[n].Store? && ops[n].key.id == id) {
      LiveKeysWereStored(ops[..n], id);
    }
  }

  ghost predicate StoredBefore(ops: seq<Operation>, a: KeyId, b: KeyId) {
    && LastStore(ops, a).Some? && LastStore(ops, b).Some?
    && LastStore(ops, a).value < LastStore(ops, b).value
  }

  /** Two keys of one prefix, both there. */
  predicate SharePrefix(s: State, a: KeyId, b: KeyId) {
    a in s.keys && b in s.keys && s.keys[a].keyPrefix == s.keys[b].keyPrefix
  }

  lemma {:induction false} EarlierIsListedFirst(ops: seq<Operation>, a: KeyId, b: KeyId)
    requires IsDisciplinedRun(ops) && SharePrefix(After(EMPTY_STORE, ops), a, b) && StoredBefore(ops, a, b)
    ensures ListedBefore(After(EMPTY_STORE, ops), a, b)
    decreases |ops|
  {
    var n := |ops| - 1;
    var s, op := After(EMPTY_STORE, ops[..n]), ops[n];
    RunBefore(ops);
    RunsStaySound(ops[..n]);
    if op.Store? && op.key.id == b {
      StoredIsListedLast(s, op.key, a);
    } else {
      KeysStay(s, op, a);
      KeysStay(s, op, b);
      EarlierIsListedFirst(ops[..n], a, b);
      StepKeepsOrder(s, op, a, b);
    }
  }

  /** A key that an operation did not store was there before it, under its prefix. */
  lemma KeysStay(s: State, op: Operation, id: KeyId)
    requires s.Sound() && Disciplined(s, op) && id in Apply(s, op).keys && !(op.Store? && op.key.id == id)
    ensures id in s.keys && s.keys[id].keyPrefix == Apply(s, op).keys[id].keyPrefix
  {
  }

  lemma ListedOnce(s: State, a: KeyId, b: KeyId)
    requires s.Sound() && SharePrefix(s, a, b) && ListedBefore(s, a, b)
    ensures a != b && !ListedBefore(s, b, a)
  {
    assert NoDuplicates(IdsAt(s.prefixes, s.keys[a].keyPrefix));
  }

  /** In every disciplined run, of two keys of one prefix the one stored earlier is listed first. */
  lemma ListedInOrderOfStoring(ops: seq<Operation>, a: KeyId, b: KeyId)
    requires IsDisciplinedRun(ops) && SharePrefix(After(EMPTY_STORE, ops), a, b)
    ensures ListedBefore(After(EMPTY_STORE, ops), a, b) <==> StoredBefore(ops, a, b)
  {
    var s := After(EMPTY_STORE, ops);
    RunsStaySound(ops);
    LiveKeysWereStored(ops, a);
    LiveKeysWereStored(ops, b);
    if StoredBefore(ops, a, b) {
      EarlierIsListedFirst(ops, a, b);
    } else if ListedBefore(s, a, b) {
      ListedOnce(s, a, b);
      EarlierIsListedFirst(ops, b, a);
    }
  }
}
