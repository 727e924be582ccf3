/**
 The provider's cache in front of the secret store
 (pkg/bootstrap/secret/secure.go). The cache may hold part of a secret: it is
 filled by keyed reads, passed by in keyless reads, and dropped by writes.
 */
module SecretCache {
  import opened Options
  import opened SecretStore

  const WILDCARD_NAME := "*"

  /** One call to the store: its first reply, the token reload after a refusal, and the second reply. */
  datatype Attempt = Attempt(first: Reply, loaded: bool, accepted: bool, second: Reply)

  /** Update callbacks by the secret they are registered for. */
  type Callbacks = map<string, nat>

  datatype State = State(cache: Store, store: Store, callbacks: Callbacks)

  // ------------------------------------------------------------------- cache

  function Lookup(cache: Store, name: string, keys: seq<string>): Option<Secret> {
    if name in cache && keys != [] && forall key :: key in keys ==> key in cache[name]
    then Some(Restrict(cache[name], keys))
    else None
  }

  function Fill(cache: Store, name: string, secret: Secret): Store {
    cache[name := if name in cache then cache[name] + secret else secret]
  }

  /** The values of the keys in `served` have been written over those in `before`. */
  ghost predicate MergedSoFar(before: Secret, secrets: Secret, served: set<string>, entry: Secret)
    requires served <= secrets.Keys
  {
    && (forall k :: k in entry <==> k in before || k in served)
    && (forall k :: k in entry ==> entry[k] == if k in served then secrets[k] else before[k])
  }

  lemma MergedAll(before: Secret, secrets: Secret, entry: Secret)
    requires MergedSoFar(before, secrets, secrets.Keys, entry)
    ensures entry == before + secrets
    ensures before == secrets ==> entry == secrets
  {
  }

  // ------------------------------------------------------------------- calls

  /** Whether a call is made again after its first reply, and what it ends with if not. */
  function Reload(r: Result, a: Attempt): (bool, Result) {
    if r.Ok? || r.error != Forbidden then (false, r)
    else if !a.loaded then (false, Err(TokenNotLoaded))
    else if !a.accepted then (false, Err(TokenNotAccepted))
    else (true, Ok(map[]))
  }

  function FetchRetry(store: Store, name: string, keys: seq<string>, a: Attempt): Result {
    var first := Fetch(store, name, keys, a.first);
    if Reload(first, a).0 then Fetch(store, name, keys, a.second) else Reload(first, a).1
  }

  /** Whether a request of the call is served: the first, or after a refusal and a new token the second. */
  predicate Reached(a: Attempt) {
    || a.first == Served
    || (a.first == Denied && a.loaded && a.accepted && a.second == Served)
  }

  function PostRetry(store: Store, name: string, secret: Secret, a: Attempt): (Store, Result) {
    var first := Post(store, name, secret, a.first);
    if Reload(first.1, a).0 then Post(first.0, name, secret, a.second) else (first.0, Reload(first.1, a).1)
  }

  datatype Query = Query(name: string, keys: seq<string>, a: Attempt)

  function ReadStep(s: State, q: Query): (State, Result) {
    match Lookup(s.cache, q.name, q.keys)
    case Some(secret) => (s, Ok(secret))
    case None =>
      var r := FetchRetry(s.store, q.name, q.keys, q.a);
      (if r.Ok? then s.(cache := Fill(s.cache, q.name, r.secret)) else s, r)
  }

  /**
   What a caller can do with the provider. A write comes with what the update
   callback does, should one be called: callbacks use the provider in turn.
   */
  datatype Act =
    | ReadAct(q: Query)
    | WriteAct(name: string, secret: Secret, a: Attempt, inner: Behaviour)
    | RegisterAct(name: string, callback: nat)
    | DeregisterAct(name: string)

  /**
   What an update callback does with the provider: its next use given the answers
   so far, with bounds on how many more uses it makes and on how deep the
   callbacks of its own writes nest.
   */
  datatype Behaviour = Behaviour(depth: nat, next: seq<Result> -> Option<Act>, left: seq<Result> -> nat)

  /** The callback ends, and so do those of its writes. */
  ghost predicate Sound(b: Behaviour)
    decreases b.depth
  {
    forall h: seq<Result> :: b.next(h).Some? ==>
      && (forall r :: b.left(h + [r]) < b.left(h))
      && (b.next(h).value.WriteAct? ==> b.next(h).value.inner.depth < b.depth && Sound(b.next(h).value.inner))
  }

  ghost predicate ActSound(act: Act) {
    act.WriteAct? ==> Sound(act.inner)
  }

  /** How deep callbacks nest below a use of the provider. */
  function Depth(act: Act): nat {
    if act.WriteAct? then act.inner.depth else 0
  }

  function Idle(): Behaviour {
    Behaviour(0, (h: seq<Result>) => None, (h: seq<Result>) => 0)
  }

  /** The callback to run for an updated secret: its own, else the wildcard one. */
  function CallbackFor(callbacks: Callbacks, name: string): Option<nat> {
    if name in callbacks then Some(callbacks[name])
    else if WILDCARD_NAME in callbacks then Some(callbacks[WILDCARD_NAME])
    else None
  }

  function Register(callbacks: Callbacks, name: string, callback: nat): (Callbacks, Result) {
    if name in callbacks then (callbacks, Err(AlreadyRegistered)) else (callbacks[name := callback], Ok(map[]))
  }

  /** The callback goes on from the answers `h`; the result includes all its answers. */
  function CallbackRun(s: State, b: Behaviour, h: seq<Result>): (State, seq<Result>)
    requires Sound(b)
    decreases b.depth, 1, b.left(h)
  {
    match b.next(h)
    case None => (s, h)
    case Some(act) =>
      var first := Step(s, act);
      CallbackRun(first.0, b, h + [first.1])
  }

  function CallbackSteps(s: State, name: string, inner: Behaviour): (State, seq<Result>)
    requires Sound(inner)
    decreases inner.depth, 2, 0
  {
    if CallbackFor(s.callbacks, name).Some? then CallbackRun(s, inner, []) else (s, [])
  }

  /** The store is written, the callback runs, and then the cache is dropped. */
  function WriteStep(s: State, name: string, secret: Secret, a: Attempt, inner: Behaviour): (State, Result)
    requires Sound(inner)
    decreases inner.depth, 3, 0
  {
    var posted := PostRetry(s.store, name, secret, a);
    if posted.1.Err? then (s.(store := posted.0), posted.1)
    else (CallbackSteps(s.(store := posted.0), name, inner).0.(cache := map[]), posted.1)
  }

  function Step(s: State, act: Act): (State, Result)
    requires ActSound(act)
    decreases Depth(act), if act.WriteAct? then 4 else 0, 0
  {
    match act
    case ReadAct(q) => ReadStep(s, q)
    case WriteAct(name, secret, a, inner) => WriteStep(s, name, secret, a, inner)
    case RegisterAct(name, callback) =>
      var registered := Register(s.callbacks, name, callback);
      (s.(callbacks := registered.0), registered.1)
    case DeregisterAct(name) => (s.(callbacks := s.callbacks - {name}), Ok(map[]))
  }

  function Run(s: State, acts: seq<Act>): (State, seq<Result>)
    requires forall act :: act in acts ==> ActSound(act)
    decreases |acts|
  {
    if |acts| == 0 then (s, [])
    else
      var first := Step(s, acts[0]);
      var rest := Run(first.0, acts[1..]);
      (rest.0, [first.1] + rest.1)
  }

  // -------------------------------------------------------------- the provider

  class SecureProvider {
    var client: Client?
    var secretsCache: Store
    var lastUpdated: nat
    var registeredSecretCallbacks: map<string, nat>

    constructor (now: nat)
      ensures client == null && secretsCache == map[] && registeredSecretCallbacks == map[] && lastUpdated == now
    {
      client := null;
      secretsCache := map[];
      lastUpdated := now;
      registeredSecretCallbacks := map[];
    }

    method GetSecretsCache(name: string, keys: seq<string>) returns (cached: Option<Secret>)
      ensures cached == Lookup(secretsCache, name, keys)
    {
      var secureSecrets: Secret := map[];
      var allKeysExistInCache := false;
      if name in secretsCache {
        for i := 0 to |keys|
          invariant allKeysExistInCache == (i > 0)
          invariant forall key :: key in keys[..i] ==> key in secretsCache[name]
          invariant secureSecrets == Restrict(secretsCache[name], keys[..i])
        {
          assert keys[..i + 1] == keys[..i] + [keys[i]];
          allKeysExistInCache := keys[i] in secretsCache[name];
          if !allKeysExistInCache {
            assert keys[i] in keys;
            return None;
          }
          secureSecrets := secureSecrets[keys[i] := secretsCache[name][keys[i]]];
        }
        assert keys[..|keys|] == keys;
        if allKeysExistInCache {
          return Some(secureSecrets);
        }
      }
      return None;
    }

    method UpdateSecretsCache(name: string, secrets: Secret)
      modifies this`secretsCache
      ensures secretsCache == Fill(old(secretsCache), name, secrets)
      ensures secretsCache.Keys == old(secretsCache).Keys + {name}
      ensures forall n :: n in old(secretsCache) && n != name ==> secretsCache[n] == old(secretsCache)[n]
      ensures forall key :: key in secretsCache[name] <==>
                            key in secrets || (name in old(secretsCache) && key in old(secretsCache)[name])
      ensures forall key :: key in secretsCache[name] ==>
                secretsCache[name][key] == if key in secrets then secrets[key] else old(secretsCache)[name][key]
    {
      if name !in secretsCache {
        secretsCache := secretsCache[name := secrets];
      }
      ghost var start := secretsCache;
      ghost var entry := secretsCache[name];
      var rest := secrets.Keys;
      while rest != {}
        invariant rest <= secrets.Keys
        invariant secretsCache == start[name := entry]
        invariant MergedSoFar(start[name], secrets, secrets.Keys - rest, entry)
      {
        var key :| key in rest;
        rest := rest - {key};
        entry := entry[key := secrets[key]];
        secretsCache := secretsCache[name := secretsCache[name][key := secrets[key]]];
      }
      MergedAll(start[name], secrets, entry);
    }

    method ReloadTokenOnAuthError(err: Result, a: Attempt) returns (retry: bool, r: Result)
      ensures (retry, r) == Reload(err, a)
    {
      if err.Ok? {
        return false, err;
      }
      if err.error != Forbidden {
        return false, err;
      }
      if !a.loaded {
        return false, Err(TokenNotLoaded);
      }
      if !a.accepted {
        return false, Err(TokenNotAccepted);
      }
      return true, Ok(map[]);
    }

    method GetSecret(q: Query) returns (r: Result)
      modifies this`secretsCache
      ensures client == null ==>
                && secretsCache == old(secretsCache)
                && r == match Lookup(old(secretsCache), q.name, q.keys)
                        case Some(secret) => Ok(secret)
                        case None => Err(NotInitialized)
      ensures client != null ==>
                (Value(), r) == ReadStep(old(Value()), q)
      ensures r.Ok? ==>
                forall key :: key in r.secret ==>
                  q.name in secretsCache && key in secretsCache[q.name] && secretsCache[q.name][key] == r.secret[key]
    {
      var cachedSecrets := GetSecretsCache(q.name, q.keys);
      if cachedSecrets.Some? {
        return Ok(cachedSecrets.value);
      }
      if client == null {
        return Err(NotInitialized);
      }
      var secureSecrets := client.GetSecret(q.name, q.keys, q.a.first);
      var retry, err := ReloadTokenOnAuthError(secureSecrets, q.a);
      if retry {
        err := client.GetSecret(q.name, q.keys, q.a.second);
      }
      if err.Err? {
        return err;
      }
      UpdateSecretsCache(q.name, err.secret);
      return err;
    }

    method RegisterSecretUpdatedCallback(name: string, callback: nat) returns (r: Result)
      modifies this`registeredSecretCallbacks
      ensures (registeredSecretCallbacks, r) == Register(old(registeredSecretCallbacks), name, callback)
    {
      if name in registeredSecretCallbacks {
        return Err(AlreadyRegistered);
      }
      registeredSecretCallbacks := registeredSecretCallbacks[name := callback];
      return Ok(map[]);
    }

    method DeregisterSecretUpdatedCallback(name: string)
      modifies this`registeredSecretCallbacks
      ensures registeredSecretCallbacks == old(registeredSecretCallbacks) - {name}
    {
      registeredSecretCallbacks := registeredSecretCallbacks - {name};
    }

    function Value(): State
      requires client != null
      reads this, client
    {
      State(secretsCache, client.store, registeredSecretCallbacks)
    }

    /** One use of the provider by a callback. */
    method Perform(act: Act, now: nat) returns (r: Result)
      requires ActSound(act)
      modifies this`secretsCache, this`lastUpdated, this`registeredSecretCallbacks, client
      ensures client != null ==> (Value(), r) == Step(old(Value()), act)
      ensures lastUpdated == old(lastUpdated) || lastUpdated == now
      decreases Depth(act), if act.WriteAct? then 4 else 0, 0
    {
      match act
      case ReadAct(q) => r := GetSecret(q);
      case WriteAct(name, secret, a, inner) =>
        var called, seen;
        r, called, seen := StoreSecret(name, secret, a, now, inner);
      case RegisterAct(name, callback) => r := RegisterSecretUpdatedCallback(name, callback);
      case DeregisterAct(name) =>
        DeregisterSecretUpdatedCallback(name);
        r := Ok(map[]);
    }

    /** Runs the callback, which may use this provider in turn; `seen` is what it is told. */
    method SecretUpdatedAtSecretName(name: string, now: nat, inner: Behaviour)
      returns (called: Option<nat>, seen: seq<Result>)
      requires Sound(inner)
      modifies this`secretsCache, this`lastUpdated, this`registeredSecretCallbacks, client
      ensures called == CallbackFor(old(registeredSecretCallbacks), name) && lastUpdated == now
      ensures client != null ==> (Value(), seen) == CallbackSteps(old(Value()), name, inner)
      decreases inner.depth, 2, 0
    {
      lastUpdated := now;
      called, seen := CallbackFor(registeredSecretCallbacks, name), [];
      if called.Some? {
        while inner.next(seen).Some?
          invariant lastUpdated == now
          invariant client != null ==> CallbackRun(Value(), inner, seen) == CallbackRun(old(Value()), inner, [])
          decreases inner.left(seen)
        {
          var r := Perform(inner.next(seen).value, now);
          seen := seen + [r];
        }
      }
    }

    method StoreSecret(name: string, secret: Secret, a: Attempt, now: nat, inner: Behaviour)
      returns (r: Result, called: Option<nat>, seen: seq<Result>)
      requires Sound(inner)
      modifies this`secretsCache, this`lastUpdated, this`registeredSecretCallbacks, client
      ensures client == null ==>
                r == Err(NotInitialized) && secretsCache == old(secretsCache) &&
                registeredSecretCallbacks == old(registeredSecretCallbacks)
      ensures client != null ==> (Value(), r) == WriteStep(old(Value()), name, secret, a, inner)
      ensures lastUpdated == if r.Ok? then now else old(lastUpdated)
      ensures called == if r.Ok? then CallbackFor(old(registeredSecretCallbacks), name) else None
      ensures r.Ok? ==>
                var written := PostRetry(old(Value()).store, name, secret, a).0;
                seen == CallbackSteps(old(Value()).(store := written), name, inner).1
      decreases inner.depth, 3, 0
    {
      called, seen := None, [];
      if client == null {
        return Err(NotInitialized), called, seen;
      }
      var err := client.StoreSecret(name, secret, a.first);
      var retry;
      retry, err := ReloadTokenOnAuthError(err, a);
      if retry {
        err := client.StoreSecret(name, secret, a.second);
      }
      if err.Err? {
        return err, called, seen;
      }
      PostIsPlain(old(client.store), name, secret, a);
      called, seen := SecretUpdatedAtSecretName(name, now, inner);
      secretsCache := map[];
      lastUpdated := now;
      return Ok(map[]), called, seen;
    }
  }

  lemma PostIsPlain(store: Store, name: string, secret: Secret, a: Attempt)
    ensures PostRetry(store, name, secret, a).1.Ok? ==> PostRetry(store, name, secret, a).1 == Ok(map[])
  {
  }

  // ------------------------------------------------------------- one call

  /** What a read call ends with: an answer if a request is served, else the failing stage. */
  lemma FetchOutcome(store: Store, name: string, keys: seq<string>, a: Attempt)
    ensures FetchRetry(store, name, keys, a) ==
            match a.first
            case Served => Read(store, name, keys)
            case Lost => Err(Unavailable)
            case Denied =>
              if !a.loaded then Err(TokenNotLoaded)
              else if !a.accepted then Err(TokenNotAccepted)
              else match a.second
                   case Served => Read(store, name, keys)
                   case Lost => Err(Unavailable)
                   case Denied => Err(Forbidden)
  {
    if a.first == Served {
      ReadOutcome(store, name, keys);
    }
  }

  /**
   What a write call ends with: one that is served replaces the secret and no
   other, a failing one changes nothing, and an empty secret is not sent.
   */
  lemma PostCallOutcome(store: Store, name: string, secret: Secret, a: Attempt)
    ensures PostRetry(store, name, secret, a) ==
            if secret.Keys == {} then (store, Ok(map[]))
            else match a.first
                 case Served => (store[name := secret], Ok(map[]))
                 case Lost => (store, Err(Unavailable))
                 case Denied =>
                   if !a.loaded then (store, Err(TokenNotLoaded))
                   else if !a.accepted then (store, Err(TokenNotAccepted))
                   else match a.second
                        case Served => (store[name := secret], Ok(map[]))
                        case Lost => (store, Err(Unavailable))
                        case Denied => (store, Err(Forbidden))
  {
  }

  // -------------------------------------------------------------- callbacks

  /** Which callback a name has after registering one: its own before the wildcard one. */
  lemma AfterRegistering(callbacks: Callbacks, name: string, callback: nat, other: string)
    ensures var (after, r) := Register(callbacks, name, callback);
            && (r.Ok? <==> name !in callbacks)
            && (r.Err? ==> r.error == AlreadyRegistered && after == callbacks)
            && (r.Ok? ==>
                  && CallbackFor(after, name) == Some(callback)
                  && (other != name ==>
                        CallbackFor(after, other) ==
                        if name == "*" && other !in callbacks then Some(callback) else CallbackFor(callbacks, other)))
  {
  }

  /** And after deregistering one: the wildcard one if there still is one. */
  lemma AfterDeregistering(callbacks: Callbacks, name: string, other: string)
    ensures CallbackFor(callbacks - {name}, name) ==
            if name != "*" && "*" in callbacks then Some(callbacks["*"]) else None
    ensures other != name ==>
              CallbackFor(callbacks - {name}, other) ==
              if name == "*" && other !in callbacks then None else CallbackFor(callbacks, other)
  {
  }

  // ------------------------------------------------- cached reads refine direct reads

  /** Everything in the cache is in the store, with the same value. */
  ghost predicate Coherent(s: State) {
    forall name, key :: name in s.cache && key in s.cache[name] ==>
                          name in s.store && key in s.store[name] && s.store[name][key] == s.cache[name][key]
  }

  predicate IsFault(e: Error) {
    e in {Forbidden, Unavailable, TokenNotLoaded, TokenNotAccepted}
  }

  lemma LookupIsRead(s: State, name: string, keys: seq<string>)
    requires Coherent(s) && Lookup(s.cache, name, keys).Some?
    ensures Read(s.store, name, keys) == Ok(Lookup(s.cache, name, keys).value)
  {
    assert keys[0] in keys && keys[0] in s.store[name];
    MissingKeys(s.store[name], keys);
    assert Restrict(s.store[name], keys) == Restrict(s.cache[name], keys);
  }

  /** A successful answer is the store's: everything without keys, else exactly the requested keys. */
  lemma ReadAnswers(store: Store, name: string, keys: seq<string>)
    requires Read(store, name, keys).Ok?
    ensures name in store
    ensures var secret := Read(store, name, keys).secret;
            if keys == [] then secret == store[name]
            else forall key :: (key in secret <==> key in keys) &&
                               (key in keys ==> key in store[name] && secret[key] == store[name][key])
  {
    MissingKeys(store[name], keys);
  }

  /**
   One read: the state stays coherent; the answer is the store's if the call gets
   through or the cache serves it, and reports the failed call otherwise.
   */
  lemma ReadRefines(s: State, q: Query)
    requires Coherent(s)
    ensures Coherent(ReadStep(s, q).0) && ReadStep(s, q).0.store == s.store
    ensures ReadStep(s, q).0.callbacks == s.callbacks
    ensures var r := ReadStep(s, q).1;
            if Reached(q.a) || Lookup(s.cache, q.name, q.keys).Some?
            then r == Read(s.store, q.name, q.keys)
            else r.Err? && IsFault(r.error)
  {
    if Lookup(s.cache, q.name, q.keys).Some? {
      LookupIsRead(s, q.name, q.keys);
    } else if ReadStep(s, q).1.Ok? {
      ReadAnswers(s.store, q.name, q.keys);
    }
  }

  // The reference: no cache, and reads that always reach the store.

  datatype Direct = Direct(store: Store, callbacks: Callbacks)

  function DirectCallback(d: Direct, b: Behaviour, h: seq<Result>): (Direct, seq<Result>)
    requires Sound(b)
    decreases b.depth, 1, b.left(h)
  {
    match b.next(h)
    case None => (d, h)
    case Some(act) =>
      var first := DirectStep(d, act);
      DirectCallback(first.0, b, h + [first.1])
  }

  function DirectWrite(d: Direct, name: string, secret: Secret, a: Attempt, inner: Behaviour): (Direct, Result)
    requires Sound(inner)
    decreases inner.depth, 3, 0
  {
    var posted := PostRetry(d.store, name, secret, a);
    var written := d.(store := posted.0);
    if posted.1.Err? || CallbackFor(d.callbacks, name).None? then (written, posted.1)
    else (DirectCallback(written, inner, []).0, posted.1)
  }

  function DirectStep(d: Direct, act: Act): (Direct, Result)
    requires ActSound(act)
    decreases Depth(act), if act.WriteAct? then 4 else 0, 0
  {
    match act
    case ReadAct(q) => (d, Read(d.store, q.name, q.keys))
    case WriteAct(name, secret, a, inner) => DirectWrite(d, name, secret, a, inner)
    case RegisterAct(name, callback) =>
      var registered := Register(d.callbacks, name, callback);
      (d.(callbacks := registered.0), registered.1)
    case DeregisterAct(name) => (d.(callbacks := d.callbacks - {name}), Ok(map[]))
  }

  function DirectRun(d: Direct, acts: seq<Act>): (Direct, seq<Result>)
    requires forall act :: act in acts ==> ActSound(act)
    decreases |acts|
  {
    if |acts| == 0 then (d, [])
    else
      var first := DirectStep(d, acts[0]);
      var rest := DirectRun(first.0, acts[1..]);
      (rest.0, [first.1] + rest.1)
  }

  function Uncached(s: State): Direct {
    Direct(s.store, s.callbacks)
  }

  // ------------------------------------------------ whatever the callbacks do

  lemma StepKeepsCoherent(s: State, act: Act)
    requires Coherent(s) && ActSound(act)
    ensures Coherent(Step(s, act).0)
  {
    if act.ReadAct? {
      ReadRefines(s, act.q);
    }
  }

  /**
   In every run, whatever the update callbacks do: between any two uses of the
   provider the cache agrees with the store, and a read answers what the store
   holds at that moment or reports that the call did not get through.
   */
  lemma {:induction false} AnswersOfTheMoment(s: State, acts: seq<Act>, i: nat)
    requires Coherent(s) && i < |acts| && forall act :: act in acts ==> ActSound(act)
    ensures |Run(s, acts).1| == |acts|
    ensures var before := Run(s, acts[..i]).0;
            && Coherent(before)
            && Run(s, acts).1[i] == Step(before, acts[i]).1
            && (acts[i].ReadAct? ==>
                  var q := acts[i].q;
                  if Reached(q.a) || Lookup(before.cache, q.name, q.keys).Some?
                  then Run(s, acts).1[i] == Read(before.store, q.name, q.keys)
                  else Run(s, acts).1[i].Err? && IsFault(Run(s, acts).1[i].error))
    decreases |acts|
  {
    RunLength(s, acts);
    if i == 0 {
      assert acts[..0] == [];
      if acts[0].ReadAct? {
        ReadRefines(s, acts[0].q);
      }
    } else {
      StepKeepsCoherent(s, acts[0]);
      AnswersOfTheMoment(Step(s, acts[0]).0, acts[1..], i - 1);
      assert acts[..i][0] == acts[0] && acts[..i][1..] == acts[1..][..i - 1];
    }
  }

  lemma {:induction false} RunLength(s: State, acts: seq<Act>)
    requires forall act :: act in acts ==> ActSound(act)
    ensures |Run(s, acts).1| == |acts|
    decreases |acts|
  {
    if |acts| > 0 {
      RunLength(Step(s, acts[0]).0, acts[1..]);
    }
  }

  // --------------------------------------- callbacks that do not use the answers

  /** The callback's uses are fixed in advance, and so are those of the callbacks of its writes. */
  ghost predicate Oblivious(b: Behaviour)
    requires Sound(b)
    decreases b.depth
  {
    && (forall g: seq<Result>, h: seq<Result> :: |g| == |h| ==> b.next(g) == b.next(h))
    && (forall h: seq<Result> :: b.next(h).Some? && b.next(h).value.WriteAct? ==> Oblivious(b.next(h).value.inner))
  }

  ghost predicate ActOblivious(act: Act)
    requires ActSound(act)
  {
    act.WriteAct? ==> Oblivious(act.inner)
  }

  /** Then store and callbacks do not depend on the cache, not even on a stale one. */
  lemma {:induction false} StepIgnoresCache(s: State, act: Act)
    requires ActSound(act) && ActOblivious(act)
    ensures Uncached(Step(s, act).0) == DirectStep(Uncached(s), act).0
    ensures !act.ReadAct? ==> Step(s, act).1 == DirectStep(Uncached(s), act).1
    decreases Depth(act), if act.WriteAct? then 4 else 0, 0
  {
    if act.WriteAct? {
      WriteIgnoresCache(s, act.name, act.secret, act.a, act.inner);
    }
  }

  lemma {:induction false} WriteIgnoresCache(s: State, name: string, secret: Secret, a: Attempt, inner: Behaviour)
    requires Sound(inner) && Oblivious(inner)
    ensures Uncached(WriteStep(s, name, secret, a, inner).0) == DirectWrite(Uncached(s), name, secret, a, inner).0
    ensures WriteStep(s, name, secret, a, inner).1 == DirectWrite(Uncached(s), name, secret, a, inner).1
    decreases inner.depth, 3, 0
  {
    var written := s.(store := PostRetry(s.store, name, secret, a).0);
    assert Uncached(written) == Uncached(s).(store := written.store);
    CallbackIgnoresCache(written, inner, [], []);
  }

  lemma {:induction false} CallbackIgnoresCache(s: State, b: Behaviour, h: seq<Result>, g: seq<Result>)
    requires Sound(b) && Oblivious(b) && |h| == |g|
    ensures Uncached(CallbackRun(s, b, h).0) == DirectCallback(Uncached(s), b, g).0
    decreases b.depth, 1, b.left(h)
  {
    assert b.next(h) == b.next(g);
    if b.next(h).Some? {
      var act := b.next(h).value;
      StepIgnoresCache(s, act);
      CallbackIgnoresCache(Step(s, act).0, b, h + [Step(s, act).1], g + [DirectStep(Uncached(s), act).1]);
    }
  }

  lemma {:induction false} RunIgnoresCache(s: State, acts: seq<Act>)
    requires forall act :: act in acts ==> ActSound(act) && ActOblivious(act)
    ensures Uncached(Run(s, acts).0) == DirectRun(Uncached(s), acts).0
    decreases |acts|
  {
    if |acts| > 0 {
      StepIgnoresCache(s, acts[0]);
      RunIgnoresCache(Step(s, acts[0]).0, acts[1..]);
    }
  }

  // ------------------------------------------- callbacks that use the answers

  /** The cache does not contradict a secret to be written under `name`. */
  ghost predicate Agrees(cache: Store, name: string, secret: Secret) {
    secret == map[] || name !in cache ||
    forall key :: key in cache[name] ==> key in secret && secret[key] == cache[name][key]
  }

  /**
   A read gets through or is cached; a write's callback is fixed in advance, or
   it finds the cache in agreement with what was written and is untroubled itself.
   */
  ghost predicate Untroubled(s: State, act: Act)
    requires ActSound(act)
    decreases Depth(act), if act.WriteAct? then 4 else 0, 0
  {
    match act
    case ReadAct(q) => Reached(q.a) || Lookup(s.cache, q.name, q.keys).Some?
    case WriteAct(name, secret, a, inner) =>
      var posted := PostRetry(s.store, name, secret, a);
      posted.1.Ok? && CallbackFor(s.callbacks, name).Some? ==>
        || Oblivious(inner)
        || (Agrees(s.cache, name, secret) && UntroubledFrom(s.(store := posted.0), inner, []))
    case _ => true
  }

  ghost predicate UntroubledFrom(s: State, b: Behaviour, h: seq<Result>)
    requires Sound(b)
    decreases b.depth, 1, b.left(h)
  {
    match b.next(h)
    case None => true
    case Some(act) => Untroubled(s, act) && UntroubledFrom(Step(s, act).0, b, h + [Step(s, act).1])
  }

  lemma {:induction false} StepRefines(s: State, act: Act)
    requires Coherent(s) && ActSound(act) && Untroubled(s, act)
    ensures Uncached(Step(s, act).0) == DirectStep(Uncached(s), act).0
    ensures Step(s, act).1 == DirectStep(Uncached(s), act).1
    decreases Depth(act), if act.WriteAct? then 4 else 0, 0
  {
    match act {
      case ReadAct(q) => ReadRefines(s, q);
      case WriteAct(name, secret, a, inner) =>
        if Oblivious(inner) {
          StepIgnoresCache(s, act);
        } else {
          WriteRefines(s, name, secret, a, inner);
        }
      case _ =>
    }
  }

  lemma {:induction false} WriteRefines(s: State, name: string, secret: Secret, a: Attempt, inner: Behaviour)
    requires Coherent(s) && Sound(inner) && !Oblivious(inner) && Untroubled(s, WriteAct(name, secret, a, inner))
    ensures Uncached(WriteStep(s, name, secret, a, inner).0) == DirectWrite(Uncached(s), name, secret, a, inner).0
    ensures WriteStep(s, name, secret, a, inner).1 == DirectWrite(Uncached(s), name, secret, a, inner).1
    decreases inner.depth, 3, 0
  {
    var posted := PostRetry(s.store, name, secret, a);
    var written := s.(store := posted.0);
    assert Uncached(written) == Uncached(s).(store := posted.0);
    if posted.1.Ok? && CallbackFor(s.callbacks, name).Some? {
      CallbackRefines(written, inner, []);
    }
  }

  lemma {:induction false} CallbackRefines(s: State, b: Behaviour, h: seq<Result>)
    requires Coherent(s) && Sound(b) && UntroubledFrom(s, b, h)
    ensures Uncached(CallbackRun(s, b, h).0) == DirectCallback(Uncached(s), b, h).0
    ensures CallbackRun(s, b, h).1 == DirectCallback(Uncached(s), b, h).1
    decreases b.depth, 1, b.left(h)
  {
    if b.next(h).Some? {
      var act := b.next(h).value;
      StepRefines(s, act);
      StepKeepsCoherent(s, act);
      CallbackRefines(Step(s, act).0, b, h + [Step(s, act).1]);
    }
  }

  /** Every write of the run is untroubled; its reads may fail. */
  ghost predicate WritesUntroubled(s: State, acts: seq<Act>)
    requires forall act :: act in acts ==> ActSound(act)
    decreases |acts|
  {
    |acts| > 0 ==>
      && (acts[0].WriteAct? ==> Untroubled(s, acts[0]))
      && WritesUntroubled(Step(s, acts[0]).0, acts[1..])
  }

  /** The reference's answer, unless a read did not get through: then a cached answer or the failure. */
  ghost predicate Answers(act: Act, r: Result, direct: Result) {
    || r == direct
    || (act.ReadAct? && !Reached(act.q.a) && r.Err? && IsFault(r.error))
  }

  lemma StepAnswers(s: State, act: Act)
    requires Coherent(s) && ActSound(act) && (act.WriteAct? ==> Untroubled(s, act))
    ensures Coherent(Step(s, act).0) && Uncached(Step(s, act).0) == DirectStep(Uncached(s), act).0
    ensures Answers(act, Step(s, act).1, DirectStep(Uncached(s), act).1)
  {
    StepKeepsCoherent(s, act);
    if act.ReadAct? {
      ReadRefines(s, act.q);
    } else {
      StepRefines(s, act);
    }
  }

  /**
   In every run with untroubled writes the cached provider answers as the direct
   reference does, except for reads that report a failed call, and leaves the
   same store and callbacks.
   */
  lemma {:induction false} CachedRunRefinesDirectRun(s: State, acts: seq<Act>)
    requires Coherent(s) && forall act :: act in acts ==> ActSound(act)
    requires WritesUntroubled(s, acts)
    ensures Coherent(Run(s, acts).0) && Uncached(Run(s, acts).0) == DirectRun(Uncached(s), acts).0
    ensures |Run(s, acts).1| == |DirectRun(Uncached(s), acts).1| == |acts|
    ensures forall i :: 0 <= i < |acts| ==> Answers(acts[i], Run(s, acts).1[i], DirectRun(Uncached(s), acts).1[i])
    decreases |acts|
  {
    if |acts| > 0 {
      StepAnswers(s, acts[0]);
      CachedRunRefinesDirectRun(Step(s, acts[0]).0, acts[1..]);
    }
  }

  /** A callback whose reads get through and whose own writes have callbacks fixed in advance. */
  ghost predicate Calm(b: Behaviour) {
    && Sound(b)
    && forall h: seq<Result> :: b.next(h).Some? ==>
         var act := b.next(h).value;
         (act.ReadAct? ==> Reached(act.q.a)) && (act.WriteAct? ==> Oblivious(act.inner))
  }

  lemma {:induction false} CalmIsUntroubled(s: State, b: Behaviour, h: seq<Result>)
    requires Calm(b)
    ensures UntroubledFrom(s, b, h)
    decreases b.left(h)
  {
    if b.next(h).Some? {
      CalmIsUntroubled(Step(s, b.next(h).value).0, b, h + [Step(s, b.next(h).value).1]);
    }
  }

  /** Reads one key of a secret and stores what it is given under another name. */
  function Copying(name: string, key: string, target: string): Behaviour {
    var served := Attempt(Served, true, true, Served);
    Behaviour(1,
              (h: seq<Result>) =>
                if |h| == 0 then Some(ReadAct(Query(name, [key], served)))
                else if |h| == 1 && h[0].Ok? then Some(WriteAct(target, h[0].secret, served, Idle()))
                else None,
              (h: seq<Result>) => if |h| < 2 then 2 - |h| else 0)
  }

  lemma CopyingIsCalm(name: string, key: string, target: string)
    ensures Calm(Copying(name, key, target))
  {
    assert Oblivious(Idle());
  }

  lemma ReadOneKey(data: Secret, key: string)
    ensures Select(data, [key]) == if key in data then Ok(map[key := data[key]]) else Err(KeysNotFound([key]))
  {
    MissingAppend(data, [], key);
    assert [] + [key] == [key];
    if key in data {
      RestrictToOneKey(data, key);
    }
  }

  lemma RestrictToOneKey(data: Secret, key: string)
    requires key in data
    ensures Restrict(data, [key]) == map[key := data[key]] != map[]
  {
    assert key in [key] && forall k :: k in [key] ==> k == key;
    assert key in Restrict(data, [key]);
  }

  /** What the copying callback leaves, with the cache and without. */
  lemma WhatIsCopied(s: State, name: string, key: string, target: string)
    requires name in s.store && s.store[name] != map[] && name in s.cache && key in s.cache[name]
    ensures Uncached(CallbackRun(s, Copying(name, key, target), []).0) ==
            Uncached(s).(store := s.store[target := map[key := s.cache[name][key]]])
    ensures DirectCallback(Uncached(s), Copying(name, key, target), []).0 ==
            if key in s.store[name]
            then Uncached(s).(store := s.store[target := map[key := s.store[name][key]]])
            else Uncached(s)
  {
    var b := Copying(name, key, target);
    var q := b.next([]).value.q;
    CopyingIsCalm(name, key, target);
    RestrictToOneKey(s.cache[name], key);
    assert Lookup(s.cache, name, [key]) == Some(map[key := s.cache[name][key]]);
    CopyEnds(s, b, map[key := s.cache[name][key]], target);
    assert [] + [ReadStep(s, q).1] == [Ok(map[key := s.cache[name][key]])];
    ReadOneKey(s.store[name], key);
    assert [] + [Read(s.store, name, [key])] == [Read(s.store, name, [key])];
    if key in s.store[name] {
      RestrictToOneKey(s.store[name], key);
      DirectCopyEnds(Uncached(s), b, map[key := s.store[name][key]], target);
    }
  }

  lemma CopyEnds(s: State, b: Behaviour, secret: Secret, target: string)
    requires Sound(b) && secret != map[]
    requires b.next([Ok(secret)]) == Some(WriteAct(target, secret, Attempt(Served, true, true, Served), Idle()))
    requires forall h: seq<Result> :: |h| == 2 ==> b.next(h) == None
    ensures Uncached(CallbackRun(s, b, [Ok(secret)]).0) == Uncached(s).(store := s.store[target := secret])
  {
    var act := b.next([Ok(secret)]).value;
    var written := s.(store := s.store[target := secret]);
    assert CallbackRun(written, Idle(), []) == (written, []);
    assert Uncached(Step(s, act).0) == Uncached(written);
    assert |[Ok(secret)] + [Step(s, act).1]| == 2;
  }

  lemma DirectCopyEnds(d: Direct, b: Behaviour, secret: Secret, target: string)
    requires Sound(b) && secret != map[]
    requires b.next([Ok(secret)]) == Some(WriteAct(target, secret, Attempt(Served, true, true, Served), Idle()))
    requires forall h: seq<Result> :: |h| == 2 ==> b.next(h) == None
    ensures DirectCallback(d, b, [Ok(secret)]).0 == d.(store := d.store[target := secret])
  {
    var act := b.next([Ok(secret)]).value;
    var written := d.(store := d.store[target := secret]);
    assert DirectCallback(written, Idle(), []) == (written, []);
    assert DirectStep(d, act).0 == written;
    assert |[Ok(secret)] + [DirectStep(d, act).1]| == 2;
  }

  /** With the cache a write and its callback leave what they leave without it. */
  ghost predicate SameEffect(s: State, name: string, secret: Secret, a: Attempt, b: Behaviour)
    requires Sound(b)
  {
    Uncached(WriteStep(s, name, secret, a, b).0) == DirectWrite(Uncached(s), name, secret, a, b).0
  }

  /**
   A successful write with a registered callback has the effect it would have
   without the cache, whichever calm callback runs, exactly if the cache does not
   contradict what is written.
   */
  lemma WhenCallbacksIgnoreTheCache(s: State, name: string, secret: Secret, a: Attempt)
    requires Coherent(s) && PostRetry(s.store, name, secret, a).1.Ok? && CallbackFor(s.callbacks, name).Some?
    ensures (forall b: Behaviour :: Calm(b) ==> SameEffect(s, name, secret, a, b)) <==> Agrees(s.cache, name, secret)
  {
    if Agrees(s.cache, name, secret) {
      forall b: Behaviour | Calm(b)
        ensures SameEffect(s, name, secret, a, b)
      {
        CalmHasTheSameEffect(s, name, secret, a, b);
      }
    } else {
      var key :| key in s.cache[name] && (key !in secret || secret[key] != s.cache[name][key]);
      CopyingIsCalm(name, key, name);
      CopyBackDiffers(s, name, secret, a, key);
    }
  }

  /** What a write with the copying callback leaves in the store, with the cache and without. */
  lemma CopyEffect(s: State, name: string, secret: Secret, a: Attempt, key: string, target: string)
    requires PostRetry(s.store, name, secret, a).1.Ok? && CallbackFor(s.callbacks, name).Some?
    requires secret != map[] && name in s.cache && key in s.cache[name]
    requires Sound(Copying(name, key, target))
    ensures WriteStep(s, name, secret, a, Copying(name, key, target)).0.store ==
            s.store[name := secret][target := map[key := s.cache[name][key]]]
    ensures DirectWrite(Uncached(s), name, secret, a, Copying(name, key, target)).0.store ==
            if key in secret then s.store[name := secret][target := map[key := secret[key]]]
            else s.store[name := secret]
  {
    var written := s.(store := s.store[name := secret]);
    assert PostRetry(s.store, name, secret, a).0 == written.store;
    assert Uncached(written) == Uncached(s).(store := written.store);
    WhatIsCopied(written, name, key, target);
  }

  lemma CopyBackDiffers(s: State, name: string, secret: Secret, a: Attempt, key: string)
    requires PostRetry(s.store, name, secret, a).1.Ok? && CallbackFor(s.callbacks, name).Some?
    requires secret != map[] && name in s.cache && key in s.cache[name]
    requires key !in secret || secret[key] != s.cache[name][key]
    requires Sound(Copying(name, key, name))
    ensures !SameEffect(s, name, secret, a, Copying(name, key, name))
  {
    CopyEffect(s, name, secret, a, key, name);
    var copied := map[key := s.cache[name][key]];
    assert copied[key] == s.cache[name][key];
    assert WriteStep(s, name, secret, a, Copying(name, key, name)).0.store[name] == copied;
  }

  lemma CalmHasTheSameEffect(s: State, name: string, secret: Secret, a: Attempt, b: Behaviour)
    requires Coherent(s) && Calm(b) && Agrees(s.cache, name, secret)
    ensures SameEffect(s, name, secret, a, b)
  {
    CalmIsUntroubled(s.(store := PostRetry(s.store, name, secret, a).0), b, []);
    StepRefines(s, WriteAct(name, secret, a, b));
  }

  /** For instance a callback that keeps a copy of the new password copies the old one. */
  lemma StaleCopy(first: string, second: string)
    ensures var before := map["db" := map["password" := first]];
            var written := map["password" := second];
            var s := State(before, before, map["*" := 0]);
            var served := Attempt(Served, true, true, Served);
            var b := Copying("db", "password", "copy");
            && Coherent(s) && Sound(b)
            && WriteStep(s, "db", written, served, b).0.store == before["db" := written]["copy" := before["db"]]
            && DirectWrite(Uncached(s), "db", written, served, b).0.store == before["db" := written]["copy" := written]
  {
    var before := map["db" := map["password" := first]];
    var written := map["password" := second];
    var s := State(before, before, map["*" := 0]);
    CopyingIsCalm("db", "password", "copy");
    assert "password" in written;
    CopyEffect(s, "db", written, Attempt(Served, true, true, Served), "password", "copy");
  }

  // ------------------------------------------------------- reading what was written

  /** A callback that stores no secrets of its own. */
  ghost predicate WritesNothing(b: Behaviour) {
    forall h: seq<Result> :: b.next(h).Some? ==> !b.next(h).value.WriteAct?
  }

  lemma {:induction false} StoreIsKept(s: State, b: Behaviour, h: seq<Result>)
    requires Sound(b) && WritesNothing(b)
    ensures CallbackRun(s, b, h).0.store == s.store
    decreases b.left(h)
  {
    if b.next(h).Some? {
      var first := Step(s, b.next(h).value);
      StoreIsKept(first.0, b, h + [first.1]);
    }
  }

  /** A keyless read after a successful write gets exactly what was written; other secrets are as before. */
  lemma ReadAfterWrite(s: State, name: string, secret: Secret, a: Attempt, inner: Behaviour, q: Query)
    requires Sound(inner) && WritesNothing(inner) && WriteStep(s, name, secret, a, inner).1.Ok? && Reached(q.a)
    ensures var r := ReadStep(WriteStep(s, name, secret, a, inner).0, q).1;
            && (q.name == name && q.keys == [] && secret.Keys != {} ==> r == Ok(secret))
            && (q.name != name || secret.Keys == {} ==> r == Read(s.store, q.name, q.keys))
  {
    AfterWrite(s, name, secret, a, inner);
    var after := WriteStep(s, name, secret, a, inner).0;
    FetchOutcome(after.store, q.name, q.keys, q.a);
    ReadOutcome(after.store, q.name, q.keys);
  }

  lemma AfterWrite(s: State, name: string, secret: Secret, a: Attempt, inner: Behaviour)
    requires Sound(inner) && WritesNothing(inner) && WriteStep(s, name, secret, a, inner).1.Ok?
    ensures var after := WriteStep(s, name, secret, a, inner).0;
            after.cache == map[] && after.store == if secret.Keys == {} then s.store else s.store[name := secret]
  {
    PostCallOutcome(s.store, name, secret, a);
    StoreIsKept(s.(store := PostRetry(s.store, name, secret, a).0), inner, []);
  }

  /** A successful write drops the whole cache: nothing is answered during an outage any more. */
  lemma WriteDropsCache(s: State, name: string, secret: Secret, a: Attempt, inner: Behaviour, q: Query)
    requires Sound(inner) && WriteStep(s, name, secret, a, inner).1.Ok? && !Reached(q.a)
    ensures ReadStep(WriteStep(s, name, secret, a, inner).0, q).1.Err?
  {
    var after := WriteStep(s, name, secret, a, inner).0;
    assert Lookup(after.cache, q.name, q.keys).None?;
  }

  // --------------------------------------------------------- what stays cached

  ghost predicate Cached(s: State, name: string, key: string, value: string) {
    name in s.cache && key in s.cache[name] && s.cache[name][key] == value
  }

  /** A successful read adds what it returned to what was cached, and nothing leaves the cache. */
  lemma ReadFills(s: State, q: Query)
    requires Coherent(s) && ReadStep(s, q).1.Ok?
    ensures var (after, r) := ReadStep(s, q);
            forall name, key, value ::
              Cached(after, name, key, value) <==>
              Cached(s, name, key, value) || (name == q.name && key in r.secret && r.secret[key] == value)
  {
    ReadRefines(s, q);
    ReadAnswers(s.store, q.name, q.keys);
    if Lookup(s.cache, q.name, q.keys).None? && q.name in s.cache {
      var secret := ReadStep(s, q).1.secret;
      forall key | key in s.cache[q.name] && key in secret
        ensures s.cache[q.name][key] == secret[key]
      {
      }
    }
  }

  lemma StepKeepsCached(s: State, act: Act, name: string, key: string, value: string)
    requires Coherent(s) && Cached(s, name, key, value) && ActSound(act)
    requires act.WriteAct? ==> Step(s, act).1.Err?
    ensures Cached(Step(s, act).0, name, key, value)
  {
    match act {
      case ReadAct(q) =>
        if ReadStep(s, q).1.Ok? {
          ReadFills(s, q);
        }
      case WriteAct(n, secret, a, inner) => assert WriteStep(s, n, secret, a, inner).0.cache == s.cache;
      case _ =>
    }
  }

  /** Only a successful write takes anything out of the cache. */
  lemma {:induction false} StaysCached(s: State, acts: seq<Act>, name: string, key: string, value: string)
    requires Coherent(s) && Cached(s, name, key, value)
    requires forall act :: act in acts ==> ActSound(act)
    requires |Run(s, acts).1| == |acts|
    requires forall i :: 0 <= i < |acts| && acts[i].WriteAct? ==> Run(s, acts).1[i].Err?
    ensures Coherent(Run(s, acts).0) && Cached(Run(s, acts).0, name, key, value)
    decreases |acts|
  {
    if |acts| > 0 {
      var first := Step(s, acts[0]);
      StepKeepsCoherent(s, acts[0]);
      assert first.1 == Run(s, acts).1[0];
      StepKeepsCached(s, acts[0], name, key, value);
      RunLength(first.0, acts[1..]);
      forall i | 0 <= i < |acts[1..]| && acts[1..][i].WriteAct?
        ensures Run(first.0, acts[1..]).1[i].Err?
      {
        assert Run(s, acts).1[i + 1] == Run(first.0, acts[1..]).1[i];
      }
      StaysCached(first.0, acts[1..], name, key, value);
    }
  }

  /**
   After a successful read, any later read of some of the keys it returned is
   answered with the values it returned, whether or not its call gets through and
   whatever was done meanwhile, as long as no write has succeeded.
   */
  lemma ReadServesOutages(s: State, q: Query, acts: seq<Act>, later: Query)
    requires Coherent(s) && ReadStep(s, q).1.Ok?
    requires forall act :: act in acts ==> ActSound(act)
    requires var run := Run(ReadStep(s, q).0, acts);
             |run.1| == |acts| && forall i :: 0 <= i < |acts| && acts[i].WriteAct? ==> run.1[i].Err?
    requires later.name == q.name && later.keys != []
    requires forall key :: key in later.keys ==> key in ReadStep(s, q).1.secret
    ensures var returned := ReadStep(s, q).1.secret;
            var answer := ReadStep(Run(ReadStep(s, q).0, acts).0, later).1;
            answer.Ok? && forall key :: (key in answer.secret <==> key in later.keys) &&
                                        (key in later.keys ==> answer.secret[key] == returned[key])
  {
    var (after, r) := ReadStep(s, q);
    var final := Run(after, acts).0;
    ReadRefines(s, q);
    ReadFills(s, q);
    forall key | key in later.keys
      ensures Cached(final, q.name, key, r.secret[key])
    {
      StaysCached(after, acts, q.name, key, r.secret[key]);
    }
    assert later.keys[0] in later.keys;
  }

  /** For instance when the connection is lost between two reads of a password. */
  lemma SecondReadIsServed(password: string)
    ensures var store := map["db" := map["password" := password]];
            var (s, first) := ReadStep(State(map[], store, map[]),
                                       Query("db", ["password"], Attempt(Served, false, false, Lost)));
            var second := ReadStep(s, Query("db", ["password"], Attempt(Lost, false, false, Lost))).1;
            first == second == Ok(map["password" := password])
  {
    var data := map["password" := password];
    ReadOneKey(data, "password");
    RestrictToOneKey(data, "password");
    assert "password" in data;
  }

  /** A read that does not get through succeeds exactly when all its keys are cached, and changes nothing. */
  lemma OutageRead(s: State, q: Query)
    requires !Reached(q.a)
    ensures ReadStep(s, q).1.Ok? <==>
            q.name in s.cache && q.keys != [] && forall key :: key in q.keys ==> key in s.cache[q.name]
    ensures ReadStep(s, q).0 == s
  {
  }

  // ------------------------------------------- reads made by an update callback

  /**
   The callback runs after the store has the new secret and before the cache is
   dropped. A read it makes that gets through is up to date exactly when
   the cache does not answer it, or answers for another secret, or holds the
   values just written.
   */
  lemma CallbackReadIsFresh(s: State, name: string, secret: Secret, q: Query)
    requires Coherent(s) && secret != map[] && Reached(q.a)
    ensures var written := s.(store := s.store[name := secret]);
            ReadStep(written, q).1 == Read(written.store, q.name, q.keys) <==>
            || Lookup(s.cache, q.name, q.keys).None?
            || q.name != name
            || forall key :: key in q.keys ==> key in secret && secret[key] == s.cache[name][key]
  {
    if Lookup(s.cache, q.name, q.keys).Some? {
      if q.name != name {
        LookupIsRead(s, q.name, q.keys);
      } else {
        var cached := Restrict(s.cache[name], q.keys);
        MissingKeys(secret, q.keys);
        if Missing(secret, q.keys) == [] {
          assert forall key :: key in q.keys ==> key in secret;
          if cached == Restrict(secret, q.keys) {
            assert forall key :: key in q.keys ==> cached[key] == Restrict(secret, q.keys)[key];
          }
        } else {
          assert Missing(secret, q.keys)[0] in Missing(secret, q.keys);
        }
      }
    }
  }

  /** So the callback of a password change that asks for the password can be given the old one. */
  lemma StaleCallbackRead()
    ensures var cached := map["db" := map["password" := "first"]];
            var q := Query("db", ["password"], Attempt(Served, true, true, Served));
            var written := State(cached, map["db" := map["password" := "second"]], map["*" := 0]);
            Coherent(State(cached, cached, map["*" := 0])) &&
            ReadStep(written, q).1 == Ok(map["password" := "first"]) &&
            Read(written.store, q.name, q.keys) == Ok(map["password" := "second"])
  {
    var one := map["password" := "first"];
    var two := map["password" := "second"];
    assert Restrict(one, ["password"]) == one;
    assert Restrict(two, ["password"]) == two;
    MissingAppend(two, [], "password");
    assert [] + ["password"] == ["password"];
  }
}
