/** Whom an accepted API key stands for, after any run of the store. */
module Principals {

  import opened Prelude
  import opened Text
  import opened AuthErrors
  import opened KeyStore
  import opened Authn

  // ---------------------------------------------------------------------------
  // What a run leaves of a key
  // ---------------------------------------------------------------------------

  /** The operation writes the whole key. */
  predicate Writes(op: Operation, id: KeyId) {
    (op.Store? || op.Update?) && op.key.id == id
  }

  /** When in a run the key was last written as a whole. */
  function LastWrite(ops: seq<Operation>, id: KeyId): (at: Option<nat>)
    ensures at.Some? ==> at.value < |ops| && Writes(ops[at.value], id)
    ensures at.Some? ==> forall i :: at.value < i < |ops| ==> !Writes(ops[i], id)
    ensures at.None? ==> forall i :: 0 <= i < |ops| ==> !Writes(ops[i], id)
  {
    if ops == [] then None
    else
      var n := |ops| - 1;
      if Writes(ops[n], id) then Some(n) else LastWrite(ops[..n], id)
  }

  /** The key as it was last written. */
  function Written(ops: seq<Operation>, id: KeyId): ApiKey
    requires LastWrite(ops, id).Some?
  {
    ops[LastWrite(ops, id).value].key
  }

  /** What no operation but a write changes. */
  predicate SameIdentity(a: ApiKey, b: ApiKey) {
    && a.id == b.id && a.name == b.name && a.keyPrefix == b.keyPrefix && a.keyHash == b.keyHash
    && a.tenant == b.tenant && a.roles == b.roles && a.expiresAt == b.expiresAt
  }

  lemma StepOnKey(s: State, op: Operation, id: KeyId)
    requires id in Apply(s, op).keys
    ensures Writes(op, id) ==> Apply(s, op).keys[id] == op.key
    ensures !Writes(op, id) ==> id in s.keys && SameIdentity(Apply(s, op).keys[id], s.keys[id])
    ensures !Writes(op, id) && !(op.SetEnabled? && op.id == id) ==> Apply(s, op).keys[id].enabled == s.keys[id].enabled
    ensures op.SetEnabled? && op.id == id ==> Apply(s, op).keys[id].enabled == op.enabled
  {
  }

  /** A key that is there is the key last written under its id. */
  lemma {:induction false} LiveKeyIsLastWritten(ops: seq<Operation>, id: KeyId)
    requires id in After(EMPTY_STORE, ops).keys
    ensures LastWrite(ops, id).Some? && SameIdentity(After(EMPTY_STORE, ops).keys[id], Written(ops, id))
    decreases |ops|
  {
    var n := |ops| - 1;
    StepOnKey(After(EMPTY_STORE, ops[..n]), ops[n], id);
    if !Writes(ops[n], id) {
      LiveKeyIsLastWritten(ops[..n], id);
    }
  }

  /** The key was last left enabled: by the write that made it so, or by a switch since. */
  ghost predicate LastEnabled(ops: seq<Operation>, id: KeyId) {
    exists i ::
      && 0 <= i < |ops|
      && ((Writes(ops[i], id) && ops[i].key.enabled) || ops[i] == SetEnabled(id, true))
      && forall k :: i < k < |ops| ==> !Writes(ops[k], id) && ops[k] != SetEnabled(id, false)
  }

  lemma LastEnabledSnoc(ops: seq<Operation>, id: KeyId)
    requires ops != []
    ensures var n := |ops| - 1;
            LastEnabled(ops, id) <==>
            || (Writes(ops[n], id) && ops[n].key.enabled) || ops[n] == SetEnabled(id, true)
            || (LastEnabled(ops[..n], id) && !Writes(ops[n], id) && ops[n] != SetEnabled(id, false))
  {
    var n := |ops| - 1;
    var before := ops[..n];
    if LastEnabled(before, id) && !Writes(ops[n], id) && ops[n] != SetEnabled(id, false) {
      var i :| && 0 <= i < |before|
               && ((Writes(before[i], id) && before[i].key.enabled) || before[i] == SetEnabled(id, true))
               && forall k :: i < k < |before| ==> !Writes(before[k], id) && before[k] != SetEnabled(id, false);
      assert ops[i] == before[i];
      assert forall k :: i < k < |ops| ==> !Writes(ops[k], id) && ops[k] != SetEnabled(id, false);
    }
    if LastEnabled(ops, id) {
      var i :| && 0 <= i < |ops|
               && ((Writes(ops[i], id) && ops[i].key.enabled) || ops[i] == SetEnabled(id, true))
               && forall k :: i < k < |ops| ==> !Writes(ops[k], id) && ops[k] != SetEnabled(id, false);
      if i < n {
        assert before[i] == ops[i];
        assert forall k :: i < k < |before| ==> before[k] == ops[k];
      }
    }
  }

  lemma {:induction false} LiveKeyIsEnabledIff(ops: seq<Operation>, id: KeyId)
    requires id in After(EMPTY_STORE, ops).keys
    ensures After(EMPTY_STORE, ops).keys[id].enabled <==> LastEnabled(ops, id)
    decreases |ops|
  {
    var n := |ops| - 1;
    StepOnKey(After(EMPTY_STORE, ops[..n]), ops[n], id);
    LastEnabledSnoc(ops, id);
    if !Writes(ops[n], id) {
      LiveKeyIsEnabledIff(ops[..n], id);
    }
  }

  /** The uses recorded of a key since it was last stored. */
  function Uses(ops: seq<Operation>, id: KeyId): nat {
    if ops == [] then 0
    else
      var n := |ops| - 1;
      if ops[n].Store? && ops[n].key.id == id then 0
      else Uses(ops[..n], id) + (if ops[n].RecordUsage? && ops[n].id == id then 1 else 0)
  }

  /** A counter holds the uses since its key was stored, and the key's own count follows it. */
  lemma {:induction false} UsesAreCounted(ops: seq<Operation>, id: KeyId)
    requires IsDisciplinedRun(ops) && id in After(EMPTY_STORE, ops).keys
    ensures var s := After(EMPTY_STORE, ops);
            && id in s.usage && s.usage[id] == Uses(ops, id)
            && (ops[|ops| - 1].RecordUsage? && ops[|ops| - 1].id == id ==>
                  s.keys[id].usageCount == Uses(ops, id) && s.keys[id].lastUsedAt == Some(ops[|ops| - 1].now))
    decreases |ops|
  {
    var n := |ops| - 1;
    RunBefore(ops);
    RunsStaySound(ops[..n]);
    if !(ops[n].Store? && ops[n].key.id == id) {
      UsesAreCounted(ops[..n], id);
    }
  }

  // ---------------------------------------------------------------------------
  // The presented credential
  // ---------------------------------------------------------------------------

  /** The key header is read as it is; without it, what follows a bearer scheme and a space, trimmed. */
  lemma PresentedKey(apiKey: string, authorization: Option<string>, scheme: string, token: string)
    requires ' ' !in scheme
    ensures ExtractKey(Some(apiKey), authorization) == Some(apiKey)
    ensures ExtractKey(None, None) == None
    ensures ExtractKey(None, Some(scheme)) == None
    ensures ExtractKey(None, Some(scheme + " " + token)) ==
            if ToLower(scheme) == ['b', 'e', 'a', 'r', 'e', 'r'] then Some(Trim(token)) else None
  {
    SplitsAtTheSpace(scheme, token, scheme + " " + token);
    assert "bearer" == ['b', 'e', 'a', 'r', 'e', 'r'];
  }

  /** Eleven to sixty-four characters: `rb_`, and then letters, digits, dashes and underscores. */
  predicate LooksLikeKey(raw: string) {
    && 11 <= |raw| <= 64 && raw[..3] == "rb_"
    && forall i :: 3 <= i < |raw| ==>
         'a' <= raw[i] <= 'z' || 'A' <= raw[i] <= 'Z' || '0' <= raw[i] <= '9' || raw[i] == '-' || raw[i] == '_'
  }

  lemma LooksLikeKeyIff(raw: string)
    ensures raw != "" && IsValidFormat(raw) && ExtractKeyPrefix(raw).Some? <==> LooksLikeKey(raw)
    ensures LooksLikeKey(raw) ==> ExtractKeyPrefix(raw) == Some(raw[3..11])
  {
    if |raw| >= 3 && raw[..3] == "rb_" {
      assert API_KEY_PREFIX <= raw;
    }
  }

  // ---------------------------------------------------------------------------
  // The answer
  // ---------------------------------------------------------------------------

  /** Of the keys there with this hash, the one stored earliest. */
  ghost predicate IsEarliest(ops: seq<Operation>, digest: string, id: KeyId) {
    var keys := After(EMPTY_STORE, ops).keys;
    && id in keys && keys[id].keyHash == digest
    && forall other :: other in keys && keys[other].keyHash == digest && other != id ==> StoredBefore(ops, id, other)
  }

  /** The key's expiry, as it was last written, has not passed. */
  predicate Current(ops: seq<Operation>, id: KeyId, now: real)
    requires LastWrite(ops, id).Some?
  {
    Written(ops, id).expiresAt.Some? ==> now <= Written(ops, id).expiresAt.value
  }

  lemma EarliestIs(hash: Hash, ops: seq<Operation>, digest: string, k: ApiKey)
    requires IsDisciplinedRun(ops)
    ensures IsFirstStored(ops, digest, k) <==>
            IsEarliest(ops, digest, k.id) && After(EMPTY_STORE, ops).keys[k.id] == k
  {
    RunsStaySound(ops);
    var s := After(EMPTY_STORE, ops);
    if IsFirstStored(ops, digest, k) {
      forall other | other in s.keys && s.keys[other].keyHash == digest && other != k.id
        ensures StoredBefore(ops, k.id, other)
      {
        assert ScanFinds(s, digest, s.keys[other]);
      }
    }
  }

  /** Some key there has the hash. */
  ghost predicate IsKnown(ops: seq<Operation>, digest: string) {
    var keys := After(EMPTY_STORE, ops).keys;
    exists id :: id in keys && keys[id].keyHash == digest
  }

  lemma KnownHasAFirst(hash: Hash, ops: seq<Operation>, raw: string) returns (id: KeyId)
    requires IsDisciplinedRun(ops) && CollisionFree(hash) && AllMade(hash, After(EMPTY_STORE, ops))
    requires LooksLikeKey(raw) && IsKnown(ops, hash(raw))
    ensures IsEarliest(ops, hash(raw), id)
    ensures FirstMatch(KeysOf(After(EMPTY_STORE, ops).keys, IdsAt(After(EMPTY_STORE, ops).prefixes, raw[3..11])),
                       hash(raw))
            == Some(After(EMPTY_STORE, ops).keys[id])
  {
    var s := After(EMPTY_STORE, ops);
    RunsStaySound(ops);
    LooksLikeKeyIff(raw);
    var any :| any in s.keys && s.keys[any].keyHash == hash(raw);
    PrefixLookupIsScan(hash, s, raw, s.keys[any]);
    var k := FirstMatch(KeysOf(s.keys, IdsAt(s.prefixes, raw[3..11])), hash(raw)).value;
    FirstMatchIsFirstListed(hash, s, raw, k);
    FirstListedIsFirstStored(hash, ops, hash(raw), k);
    EarliestIs(hash, ops, hash(raw), k);
    id := k.id;
  }

  lemma UnknownHasNone(hash: Hash, ops: seq<Operation>, raw: string)
    requires IsDisciplinedRun(ops) && CollisionFree(hash) && AllMade(hash, After(EMPTY_STORE, ops))
    requires LooksLikeKey(raw) && !IsKnown(ops, hash(raw))
    ensures FirstMatch(KeysOf(After(EMPTY_STORE, ops).keys, IdsAt(After(EMPTY_STORE, ops).prefixes, raw[3..11])),
                       hash(raw))
            == None
  {
    var s := After(EMPTY_STORE, ops);
    RunsStaySound(ops);
    LooksLikeKeyIff(raw);
    var first := FirstMatch(KeysOf(s.keys, IdsAt(s.prefixes, raw[3..11])), hash(raw));
    if first.Some? {
      PrefixLookupIsScan(hash, s, raw, first.value);
    }
  }

  lemma EarliestIsUnique(ops: seq<Operation>, digest: string, a: KeyId, b: KeyId)
    requires IsEarliest(ops, digest, a) && IsEarliest(ops, digest, b)
    ensures a == b
  {
  }

  /** What the store answers to a well-formed key, in terms of the run that filled it. */
  ghost predicate AnsweredBy(ops: seq<Operation>, id: KeyId, now: real, answer: Answer)
    requires LastWrite(ops, id).Some?
  {
    if !LastEnabled(ops, id) then answer == Err(ApiKeyDisabled)
    else if !Current(ops, id, now) then answer == Err(TokenExpired)
    else
      && answer.Ok?
      && answer.value.name == Written(ops, id).name && answer.value.tenant == Written(ops, id).tenant
      && answer.value.roles == Written(ops, id).roles && answer.value.expiresAt == Written(ops, id).expiresAt
  }

  lemma JudgedKey(hash: Hash, ops: seq<Operation>, raw: string, apiKey: Option<string>, authorization: Option<string>,
                  now: real, id: KeyId)
    requires id in After(EMPTY_STORE, ops).keys && LooksLikeKey(raw) && ExtractKey(apiKey, authorization) == Some(raw)
    requires FirstMatch(KeysOf(After(EMPTY_STORE, ops).keys, IdsAt(After(EMPTY_STORE, ops).prefixes, raw[3..11])),
                        hash(raw)) == Some(After(EMPTY_STORE, ops).keys[id])
    ensures LastWrite(ops, id).Some?
    ensures AnsweredBy(ops, id, now, KeyAnswer(hash, After(EMPTY_STORE, ops), apiKey, authorization, now))
  {
    LooksLikeKeyIff(raw);
    LiveKeyIsLastWritten(ops, id);
    LiveKeyIsEnabledIff(ops, id);
  }

  /**
   * After any disciplined run: no credential is no answer, a credential that looks like no key or that no key there was
   * made from is rejected, and any other is answered by the earliest stored key it was made into. That key must have
   * been last left enabled and be unexpired, and the caller is whom its last write says, in the tenant it says.
   */
  lemma AnswerOfRun(hash: Hash, ops: seq<Operation>, apiKey: Option<string>, authorization: Option<string>, now: real)
    requires IsDisciplinedRun(ops) && CollisionFree(hash) && AllMade(hash, After(EMPTY_STORE, ops))
    ensures var answer, presented := KeyAnswer(hash, After(EMPTY_STORE, ops), apiKey, authorization, now),
                                     ExtractKey(apiKey, authorization);
            if presented.None? then answer == Err(Unauthenticated)
            else if !LooksLikeKey(presented.value) then answer == Err(InvalidCredentials)
            else if !IsKnown(ops, hash(presented.value)) then answer == Err(ApiKeyNotFound)
            else exists id :: IsEarliest(ops, hash(presented.value), id)
                              && LastWrite(ops, id).Some? && AnsweredBy(ops, id, now, answer)
  {
    var presented := ExtractKey(apiKey, authorization);
    if presented.Some? {
      LooksLikeKeyIff(presented.value);
      if LooksLikeKey(presented.value) {
        if IsKnown(ops, hash(presented.value)) {
          var id := KnownHasAFirst(hash, ops, presented.value);
          JudgedKey(hash, ops, presented.value, apiKey, authorization, now, id);
        } else {
          UnknownHasNone(hash, ops, presented.value);
        }
      }
    }
  }

  /** A switch turned the key off, and nothing has turned it on or written it since. */
  ghost predicate SwitchedOff(ops: seq<Operation>, id: KeyId) {
    exists i ::
      && 0 <= i < |ops| && ops[i] == SetEnabled(id, false)
      && forall k :: i < k < |ops| ==> !Writes(ops[k], id) && ops[k] != SetEnabled(id, true)
  }

  lemma SwitchedOffIsNotEnabled(ops: seq<Operation>, id: KeyId)
    requires SwitchedOff(ops, id)
    ensures !LastEnabled(ops, id)
  {
  }

  /** A key last switched off is never accepted, whatever it is presented in. */
  lemma SwitchedOffIsRefused(hash: Hash, ops: seq<Operation>, apiKey: Option<string>, authorization: Option<string>,
                             now: real, raw: string, id: KeyId)
    requires IsDisciplinedRun(ops) && CollisionFree(hash) && AllMade(hash, After(EMPTY_STORE, ops))
    requires ExtractKey(apiKey, authorization) == Some(raw) && IsEarliest(ops, hash(raw), id) && SwitchedOff(ops, id)
    ensures KeyAnswer(hash, After(EMPTY_STORE, ops), apiKey, authorization, now).Err?
  {
    AnswerOfRun(hash, ops, apiKey, authorization, now);
    SwitchedOffIsNotEnabled(ops, id);
    var answer := KeyAnswer(hash, After(EMPTY_STORE, ops), apiKey, authorization, now);
    if answer.Ok? {
      var other :| IsEarliest(ops, hash(raw), other) && LastWrite(ops, other).Some?
          && AnsweredBy(ops, other, now, answer);
      EarliestIsUnique(ops, hash(raw), id, other);
    }
  }

  /** Nobody is put in a tenant under which no key with the credential's hash is listed. */
  lemma TenantListsTheKey(hash: Hash, ops: seq<Operation>, apiKey: Option<string>, authorization: Option<string>,
                          now: real) returns (id: KeyId)
    requires IsDisciplinedRun(ops) && CollisionFree(hash) && AllMade(hash, After(EMPTY_STORE, ops))
    requires KeyAnswer(hash, After(EMPTY_STORE, ops), apiKey, authorization, now).Ok?
    ensures var s, answer := After(EMPTY_STORE, ops),
            KeyAnswer(hash, After(EMPTY_STORE, ops), apiKey, authorization, now);
            && ExtractKey(apiKey, authorization).Some? && answer.Ok?
            && id in s.keys && s.keys[id].keyHash == hash(ExtractKey(apiKey, authorization).value)
            && answer.value.tenant in s.tenants && id in s.tenants[answer.value.tenant]
  {
    AnswerOfRun(hash, ops, apiKey, authorization, now);
    var s, answer := After(EMPTY_STORE, ops), KeyAnswer(hash, After(EMPTY_STORE, ops), apiKey, authorization, now);
    var raw := ExtractKey(apiKey, authorization).value;
    id :| IsEarliest(ops, hash(raw), id) && LastWrite(ops, id).Some? && AnsweredBy(ops, id, now, answer);
    LiveKeyIsLastWritten(ops, id);
    RunsStaySound(ops);
    var tenant := answer.value.tenant;
    assert id in IdsAt(s.tenants, tenant) <==> id in s.keys && BY_TENANT(s.keys[id]) == tenant;
  }
}
