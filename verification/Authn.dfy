/** Authenticating an API key by its prefix, and trying several authenticators in turn. */
module Authn {

  import opened Prelude
  import opened Text
  import opened AuthErrors
  import opened KeyStore

  /** Stands for SHA-256 in `hash_api_key`. */
  type Hash = string -> string

  const API_KEY_PREFIX := "rb_"
  const KEY_PREFIX_LENGTH := 8
  const MAX_API_KEY_LENGTH := 64
  const MIN_API_KEY_LENGTH := 10

  datatype Principal = Principal(name: string, tenant: string, roles: seq<string>, expiresAt: Option<real>)

  type Answer = Result<Principal, AuthError>

  function KeyToPrincipal(k: ApiKey): Principal {
    Principal(k.name, k.tenant, k.roles, k.expiresAt)
  }

  // ---------------------------------------------------------------------------
  // The presented key
  // ---------------------------------------------------------------------------

  predicate IsKeyChar(c: char) {
    'A' <= c <= 'Z' || 'a' <= c <= 'z' || '0' <= c <= '9' || c == '-' || c == '_'
  }

  predicate IsValidFormat(key: string) {
    && MIN_API_KEY_LENGTH <= |key| <= MAX_API_KEY_LENGTH
    && API_KEY_PREFIX <= key
    && forall i :: |API_KEY_PREFIX| <= i < |key| ==> IsKeyChar(key[i])
  }

  function ExtractKeyPrefix(key: string): Option<string> {
    if API_KEY_PREFIX <= key && |key| >= 3 + KEY_PREFIX_LENGTH then Some(key[3..3 + KEY_PREFIX_LENGTH]) else None
  }

  /** The key a request presents: its own header first, then a bearer token. */
  function ExtractKey(apiKey: Option<string>, authorization: Option<string>): Option<string> {
    if apiKey.Some? then apiKey
    else
      match authorization
      case None => None
      case Some(value) =>
        match IndexOf(value, ' ')
        case None => None
        case Some(i) => if ToLower(value[..i]) == "bearer" then Some(Trim(value[i + 1..])) else None
  }

  // ---------------------------------------------------------------------------
  // The decision
  // ---------------------------------------------------------------------------

  /** The first candidate whose hash is the key's. */
  function FirstMatch(candidates: seq<ApiKey>, digest: string): (k: Option<ApiKey>)
    ensures k.Some? ==> k.value in candidates && k.value.keyHash == digest
    ensures k.None? ==> forall c :: c in candidates ==> c.keyHash != digest
  {
    if candidates == [] then None
    else if candidates[0].keyHash == digest then Some(candidates[0])
    else FirstMatch(candidates[1..], digest)
  }

  function Usable(k: ApiKey, now: real): Result<ApiKey, AuthError> {
    if !k.enabled then Err(ApiKeyDisabled)
    else if k.IsExpired(now) then Err(TokenExpired)
    else Ok(k)
  }

  function Judge(hash: Hash, s: State, presented: Option<string>, now: real): Result<ApiKey, AuthError> {
    match presented
    case None => Err(Unauthenticated)
    case Some(raw) =>
      if raw == "" || !IsValidFormat(raw) || ExtractKeyPrefix(raw).None? then Err(InvalidCredentials)
      else
        match FirstMatch(KeysOf(s.keys, IdsAt(s.prefixes, ExtractKeyPrefix(raw).value)), hash(raw))
        case None => Err(ApiKeyNotFound)
        case Some(k) => Usable(k, now)
  }

  function KeyAnswer(hash: Hash, s: State, apiKey: Option<string>, authorization: Option<string>, now: real): Answer {
    match Judge(hash, s, ExtractKey(apiKey, authorization), now)
    case Ok(k) => Ok(KeyToPrincipal(k))
    case Err(e) => Err(e)
  }

  method Authenticate(hash: Hash, store: InMemoryApiKeyStore, apiKey: Option<string>, authorization: Option<string>,
                      now: real)
    returns (result: Answer)
    modifies store
    ensures var verdict := Judge(hash, old(store.Contents()), ExtractKey(apiKey, authorization), now);
            && result == KeyAnswer(hash, old(store.Contents()), apiKey, authorization, now)
            && (result.Ok? <==> verdict.Ok?)
            && (result.Ok? ==>
                  && result.value.name == verdict.value.name && result.value.tenant == verdict.value.tenant
                  && result.value.roles == verdict.value.roles && result.value.expiresAt == verdict.value.expiresAt)
            && store.Contents() == (if verdict.Ok? then Used(old(store.Contents()), verdict.value.id, now)
                                    else old(store.Contents()))
  {
    var presented := ExtractKey(apiKey, authorization);
    if presented.None? {
      return Err(Unauthenticated);
    }
    var raw := presented.value;
    if raw == "" || !IsValidFormat(raw) {
      return Err(InvalidCredentials);
    }
    var prefix := ExtractKeyPrefix(raw);
    if prefix.None? {
      return Err(InvalidCredentials);
    }
    var candidates := store.GetByPrefix(prefix.value);
    var i := 0;
    while i < |candidates| && candidates[i].keyHash != hash(raw)
      invariant 0 <= i <= |candidates|
      invariant FirstMatch(candidates, hash(raw)) == FirstMatch(candidates[i..], hash(raw))
    {
      assert candidates[i..][1..] == candidates[i + 1..];
      i := i + 1;
    }
    if i == |candidates| {
      return Err(ApiKeyNotFound);
    }
    var found := candidates[i];
    if !found.enabled {
      return Err(ApiKeyDisabled);
    }
    if found.IsExpired(now) {
      return Err(TokenExpired);
    }
    var _ := store.RecordUsage(found.id, now);
    result := Ok(KeyToPrincipal(found));
  }

  // ---------------------------------------------------------------------------
  // Lookup by prefix is a scan of every key
  // ---------------------------------------------------------------------------

  ghost predicate CollisionFree(hash: Hash) {
    forall a, b :: hash(a) == hash(b) ==> a == b
  }

  /** The key was made from `plaintext`: its hash, filed under its own prefix. */
  ghost predicate MadeFrom(hash: Hash, k: ApiKey, plaintext: string) {
    k.keyHash == hash(plaintext) && "rb_" <= plaintext && |plaintext| >= 11 && k.keyPrefix == plaintext[3..11]
  }

  ghost predicate AllMade(hash: Hash, s: State) {
    forall id :: id in s.keys ==> exists plaintext :: MadeFrom(hash, s.keys[id], plaintext)
  }

  /** Some stored key, wherever it is filed, carries the hash. */
  ghost predicate ScanFinds(s: State, digest: string, k: ApiKey) {
    k.id in s.keys && s.keys[k.id] == k && k.keyHash == digest
  }

  /** Candidates by prefix that match are exactly the stored keys that match. */
  lemma PrefixLookupIsScan(hash: Hash, s: State, raw: string, k: ApiKey)
    requires s.Sound() && CollisionFree(hash) && AllMade(hash, s) && ExtractKeyPrefix(raw).Some?
    ensures k in KeysOf(s.keys, IdsAt(s.prefixes, ExtractKeyPrefix(raw).value)) && k.keyHash == hash(raw) <==>
            ScanFinds(s, hash(raw), k)
  {
    var prefix := ExtractKeyPrefix(raw).value;
    LookupsAreScans(s, prefix);
    if ScanFinds(s, hash(raw), k) {
      var plaintext :| MadeFrom(hash, s.keys[k.id], plaintext);
      assert plaintext == raw;
    }
  }

  /** The first match stands before every other. */
  lemma FirstMatchIs(candidates: seq<ApiKey>, digest: string, i: nat)
    requires i < |candidates| && candidates[i].keyHash == digest
    requires forall j :: 0 <= j < i ==> candidates[j].keyHash != digest
    ensures FirstMatch(candidates, digest) == Some(candidates[i])
  {
    if i > 0 {
      FirstMatchIs(candidates[1..], digest, i - 1);
    }
  }

  lemma {:induction false} MatchHasAFirst(candidates: seq<ApiKey>, digest: string) returns (i: nat)
    requires FirstMatch(candidates, digest).Some?
    ensures i < |candidates| && candidates[i].keyHash == digest && FirstMatch(candidates, digest) == Some(candidates[i])
    ensures forall j :: 0 <= j < i ==> candidates[j].keyHash != digest
  {
    if candidates[0].keyHash == digest {
      i := 0;
    } else {
      var k := MatchHasAFirst(candidates[1..], digest);
      i := k + 1;
    }
  }

  /** The stored key with this hash that is listed before every other. */
  ghost predicate IsFirstListed(s: State, digest: string, k: ApiKey) {
    && ScanFinds(s, digest, k)
    && forall other :: ScanFinds(s, digest, other) && other != k ==> ListedBefore(s, k.id, other.id)
  }

  lemma CandidateAt(s: State, prefix: string, i: nat)
    requires s.Sound() && i < |IdsAt(s.prefixes, prefix)|
    ensures var ids := IdsAt(s.prefixes, prefix);
            && ids[i] in s.keys && s.keys[ids[i]].id == ids[i] && s.keys[ids[i]].keyPrefix == prefix
            && |KeysOf(s.keys, ids)| == |ids| && KeysOf(s.keys, ids)[i] == s.keys[ids[i]]
  {
    var ids := IdsAt(s.prefixes, prefix);
    assert forall id :: id in ids <==> id in s.keys && BY_PREFIX(s.keys[id]) == prefix;
    KeysOfAre(s.keys, ids);
    assert ids[i] in ids;
  }

  /** Among the candidates the first match is the first listed key with the hash. */
  lemma FirstMatchIsFirstListed(hash: Hash, s: State, raw: string, k: ApiKey)
    requires s.Sound() && CollisionFree(hash) && AllMade(hash, s) && ExtractKeyPrefix(raw).Some?
    ensures FirstMatch(KeysOf(s.keys, IdsAt(s.prefixes, ExtractKeyPrefix(raw).value)), hash(raw)) == Some(k) <==>
            IsFirstListed(s, hash(raw), k)
  {
    var prefix := ExtractKeyPrefix(raw).value;
    var ids := IdsAt(s.prefixes, prefix);
    var candidates := KeysOf(s.keys, ids);
    if FirstMatch(candidates, hash(raw)) == Some(k) {
      var i := MatchHasAFirst(candidates, hash(raw));
      PrefixLookupIsScan(hash, s, raw, k);
      KeysAtAre(s, prefix);
      CandidateAt(s, prefix, i);
      forall other | ScanFinds(s, hash(raw), other) && other != k ensures ListedBefore(s, k.id, other.id) {
        PrefixLookupIsScan(hash, s, raw, other);
        var j :| 0 <= j < |candidates| && candidates[j] == other;
        CandidateAt(s, prefix, j);
        assert ids[i] == k.id && ids[j] == other.id && i < j;
      }
    }
    if IsFirstListed(s, hash(raw), k) {
      PrefixLookupIsScan(hash, s, raw, k);
      KeysAtAre(s, prefix);
      var i :| 0 <= i < |candidates| && candidates[i] == k;
      CandidateAt(s, prefix, i);
      forall j | 0 <= j < i ensures candidates[j].keyHash != hash(raw) {
        CandidateAt(s, prefix, j);
        if candidates[j].keyHash == hash(raw) {
          EarlierIsBefore(s, prefix, hash(raw), j, i);
        }
      }
      FirstMatchIs(candidates, hash(raw), i);
    }
  }

  lemma KeysAtAre(s: State, prefix: string)
    requires s.Sound()
    ensures |KeysOf(s.keys, IdsAt(s.prefixes, prefix))| == |IdsAt(s.prefixes, prefix)|
  {
    assert forall id :: id in IdsAt(s.prefixes, prefix) <==> id in s.keys && BY_PREFIX(s.keys[id]) == prefix;
    KeysOfAre(s.keys, IdsAt(s.prefixes, prefix));
  }

  /** An earlier key with the hash would have to be listed after a later one. */
  lemma EarlierIsBefore(s: State, prefix: string, digest: string, j: nat, i: nat)
    requires s.Sound() && j < i < |IdsAt(s.prefixes, prefix)|
    requires var ids := IdsAt(s.prefixes, prefix);
             ids[i] in s.keys && ids[j] in s.keys && s.keys[ids[i]].keyPrefix == prefix
    ensures var ids := IdsAt(s.prefixes, prefix); ids[i] != ids[j] && !ListedBefore(s, ids[i], ids[j])
  {
    var ids := IdsAt(s.prefixes, prefix);
    assert NoDuplicates(ids);
  }

  /** Authentication accepts a key exactly when it is well formed and the first listed key with its hash is usable. */
  lemma AuthenticatesIff(hash: Hash, s: State, raw: string, now: real, k: ApiKey)
    requires s.Sound() && CollisionFree(hash) && AllMade(hash, s)
    ensures Judge(hash, s, Some(raw), now) == Ok(k) <==>
            IsValidFormat(raw) && IsFirstListed(s, hash(raw), k) && k.enabled && !k.IsExpired(now)
  {
    if ExtractKeyPrefix(raw).Some? {
      var first := FirstMatch(KeysOf(s.keys, IdsAt(s.prefixes, ExtractKeyPrefix(raw).value)), hash(raw));
      FirstMatchIsFirstListed(hash, s, raw, k);
      if first.Some? {
        FirstMatchIsFirstListed(hash, s, raw, first.value);
      }
    }
  }

  /** Of the keys a run left with this hash, the one stored before every other. */
  ghost predicate IsFirstStored(ops: seq<Operation>, digest: string, k: ApiKey) {
    var s := After(EMPTY_STORE, ops);
    && ScanFinds(s, digest, k)
    && forall other :: ScanFinds(s, digest, other) && other != k ==> StoredBefore(ops, k.id, other.id)
  }

  /** Keys with one hash are made from one plaintext, and so filed under one prefix. */
  lemma TwinsSharePrefix(hash: Hash, s: State, digest: string, k: ApiKey, other: ApiKey)
    requires CollisionFree(hash) && AllMade(hash, s) && ScanFinds(s, digest, k) && ScanFinds(s, digest, other)
    ensures SharePrefix(s, k.id, other.id)
  {
    var p :| MadeFrom(hash, s.keys[k.id], p);
    var q :| MadeFrom(hash, s.keys[other.id], q);
    assert p == q;
  }

  lemma FirstListedIsFirstStored(hash: Hash, ops: seq<Operation>, digest: string, k: ApiKey)
    requires IsDisciplinedRun(ops) && CollisionFree(hash) && AllMade(hash, After(EMPTY_STORE, ops))
    ensures IsFirstListed(After(EMPTY_STORE, ops), digest, k) <==> IsFirstStored(ops, digest, k)
  {
    var s := After(EMPTY_STORE, ops);
    if ScanFinds(s, digest, k) {
      forall other | ScanFinds(s, digest, other)
        ensures ListedBefore(s, k.id, other.id) <==> StoredBefore(ops, k.id, other.id)
      {
        TwinsSharePrefix(hash, s, digest, k, other);
        ListedInOrderOfStoring(ops, k.id, other.id);
      }
    }
  }

  /**
   * After any disciplined run of the store a key is accepted exactly when it is well formed and, of the keys still
   * there with its hash, the one stored earliest is enabled and unexpired.
   */
  lemma RunAuthenticatesIff(hash: Hash, ops: seq<Operation>, raw: string, now: real, k: ApiKey)
    requires IsDisciplinedRun(ops) && CollisionFree(hash) && AllMade(hash, After(EMPTY_STORE, ops))
    ensures Judge(hash, After(EMPTY_STORE, ops), Some(raw), now) == Ok(k) <==>
            IsValidFormat(raw) && IsFirstStored(ops, hash(raw), k) && k.enabled && !k.IsExpired(now)
  {
    RunsStaySound(ops);
    AuthenticatesIff(hash, After(EMPTY_STORE, ops), raw, now, k);
    FirstListedIsFirstStored(hash, ops, hash(raw), k);
  }

  /** A disabled key imported first hides an enabled one made from the same plaintext. */
  lemma DisabledTwinHides(hash: Hash, raw: string, id: KeyId, twin: KeyId)
    requires IsValidFormat(raw) && ExtractKeyPrefix(raw).Some? && id != twin
    ensures var k := ApiKey(id, "", ExtractKeyPrefix(raw).value, hash(raw), "", [], false, None, None, 0);
            var s := Stored(Stored(EMPTY_STORE, k), k.(id := twin, enabled := true));
            s.Sound() && AllMade(hash, s) && Judge(hash, s, Some(raw), 0.0) == Err(ApiKeyDisabled)
  {
    var prefix := ExtractKeyPrefix(raw).value;
    var k := ApiKey(id, "", prefix, hash(raw), "", [], false, None, None, 0);
    var s1 := Stored(EMPTY_STORE, k);
    var s := Stored(s1, k.(id := twin, enabled := true));
    StepKeepsSound(EMPTY_STORE, Store(k));
    StepKeepsSound(s1, Store(k.(id := twin, enabled := true)));
    assert MadeFrom(hash, s.keys[id], raw) && MadeFrom(hash, s.keys[twin], raw);
    assert IdsAt(s.prefixes, prefix) == [id, twin];
    assert KeysOf(s.keys, [id, twin])[0] == s.keys[id];
  }

  // ---------------------------------------------------------------------------
  // Several authenticators
  // ---------------------------------------------------------------------------

  /** What the last authenticator that saw a credential had against it. */
  function LastComplaint(answers: seq<Answer>): AuthError {
    if answers == [] then Unauthenticated
    else
      var last := answers[|answers| - 1];
      if last.Err? && last.error != Unauthenticated then last.error else LastComplaint(answers[..|answers| - 1])
  }

  /** Authenticators in order: `answers[i]` is what the one at `i` answers when it is asked. */
  method AuthenticateChain(answers: seq<Answer>) returns (result: Answer, asked: nat)
    ensures asked <= |answers|
    ensures result.Ok? ==> 0 < asked && answers[asked - 1] == result
    ensures forall i :: 0 <= i < (if result.Ok? then asked - 1 else |answers|) ==> answers[i].Err?
    ensures result.Err? ==> asked == |answers| && result.error == LastComplaint(answers)
  {
    var lastError := Unauthenticated;
    asked := 0;
    while asked < |answers|
      invariant asked <= |answers|
      invariant forall i :: 0 <= i < asked ==> answers[i].Err?
      invariant lastError == LastComplaint(answers[..asked])
    {
      var answer := answers[asked];
      assert answers[..asked + 1][..asked] == answers[..asked];
      asked := asked + 1;
      if answer.Ok? {
        return answer, asked;
      }
      if answer.error != Unauthenticated {
        lastError := answer.error;
      }
    }
    assert answers[..asked] == answers;
    result := Err(lastError);
  }

  /** The complaint is the last one that is not merely the absence of a credential. */
  lemma {:induction false} LastComplaintIs(answers: seq<Answer>, i: nat)
    requires i < |answers| && answers[i].Err? && answers[i].error != Unauthenticated
    requires forall k :: i < k < |answers| ==> answers[k] == Err(Unauthenticated)
    ensures LastComplaint(answers) == answers[i].error
    decreases |answers|
  {
    if i < |answers| - 1 {
      LastComplaintIs(answers[..|answers| - 1], i);
    }
  }

  /** Presenting nothing is what every authenticator saw, or the chain complains of something. */
  lemma {:induction false} UnauthenticatedIff(answers: seq<Answer>)
    requires forall i :: 0 <= i < |answers| ==> answers[i].Err?
    ensures LastComplaint(answers) == Unauthenticated <==>
            forall i :: 0 <= i < |answers| ==> answers[i] == Err(Unauthenticated)
    decreases |answers|
  {
    if answers != [] {
      var n := |answers| - 1;
      UnauthenticatedIff(answers[..n]);
      assert forall i :: 0 <= i < n ==> answers[..n][i] == answers[i];
    }
  }

  /**
   * A refusal is counted exactly when some authenticator rejected the credential and every later one saw none;
   * what happened before, server faults included, plays no part.
   */
  lemma {:induction false} CountedIff(answers: seq<Answer>)
    requires forall i :: 0 <= i < |answers| ==> answers[i].Err?
    ensures LastComplaint(answers).CredentialWasRejected() <==>
            exists i :: 0 <= i < |answers| && answers[i].error.CredentialWasRejected() && SawNothingAfter(answers, i)
    decreases |answers|
  {
    if answers != [] {
      var n := |answers| - 1;
      CountedIff(answers[..n]);
      if answers[n].error == Unauthenticated {
        forall i | 0 <= i < n ensures SawNothingAfter(answers, i) <==> SawNothingAfter(answers[..n], i) {
        }
        if LastComplaint(answers).CredentialWasRejected() {
          var i :| 0 <= i < n && answers[..n][i].error.CredentialWasRejected() && SawNothingAfter(answers[..n], i);
          assert answers[i].error.CredentialWasRejected() && SawNothingAfter(answers, i);
        }
        if exists i :: 0 <= i < |answers| && answers[i].error.CredentialWasRejected() && SawNothingAfter(answers, i) {
          var i :| 0 <= i < |answers| && answers[i].error.CredentialWasRejected() && SawNothingAfter(answers, i);
          assert answers[..n][i].error.CredentialWasRejected() && SawNothingAfter(answers[..n], i);
        }
      } else {
        assert SawNothingAfter(answers, n);
      }
    }
  }

  ghost predicate SawNothingAfter(answers: seq<Answer>, i: nat) {
    forall k :: i < k < |answers| ==> answers[k] == Err(Unauthenticated)
  }

  /** The API key authenticator sees no credential, accepts one, or rejects it: it never reports a fault. */
  lemma KeyAnswerIs(hash: Hash, s: State, apiKey: Option<string>, authorization: Option<string>, now: real)
    ensures var answer := KeyAnswer(hash, s, apiKey, authorization, now);
            answer.Err? ==>
              if ExtractKey(apiKey, authorization).None? then answer.error == Unauthenticated
              else answer.error.CredentialWasRejected()
  {
  }

  /**
   * Behind an authenticator for tokens the server asks the one for API keys, which reads the same bearer token. So
   * a token that could not be checked, the keys of its issuer being out of reach, is counted as a rejected
   * credential whenever it is not itself a usable API key.
   */
  lemma OutageIsCounted(hash: Hash, s: State, apiKey: Option<string>, authorization: Option<string>, now: real,
                        fault: AuthError)
    requires fault != Unauthenticated && !fault.CredentialWasRejected()
    requires KeyAnswer(hash, s, apiKey, authorization, now).Err?
    ensures LastComplaint([Err(fault), KeyAnswer(hash, s, apiKey, authorization, now)]).CredentialWasRejected() <==>
            ExtractKey(apiKey, authorization).Some?
  {
    var answer := KeyAnswer(hash, s, apiKey, authorization, now);
    KeyAnswerIs(hash, s, apiKey, authorization, now);
    if ExtractKey(apiKey, authorization).Some? {
      LastComplaintIs([Err(fault), answer], 1);
    } else {
      LastComplaintIs([Err(fault), answer], 0);
    }
  }

  /** A bearer token with a dot, as every signed token has, is such a credential. */
  lemma BearerTokenIsPresented(hash: Hash, s: State, scheme: string, token: string, now: real)
    requires ' ' !in scheme && ToLower(scheme) == "bearer" && IsTrimmed(token) && '.' in token
    ensures ExtractKey(None, Some(scheme + " " + token)) == Some(token)
    ensures KeyAnswer(hash, s, None, Some(scheme + " " + token), now) == Err(InvalidCredentials)
  {
    SplitsAtTheSpace(scheme, token, scheme + " " + token);
    assert Trim(token) == token;
  }

  lemma SplitsAtTheSpace(scheme: string, token: string, value: string)
    requires ' ' !in scheme && value == scheme + " " + token
    ensures IndexOf(value, ' ') == Some(|scheme|) && value[..|scheme|] == scheme && value[|scheme| + 1..] == token
  {
    assert value[|scheme|] == ' ' && forall i :: 0 <= i < |scheme| ==> value[i] == scheme[i];
  }
}
