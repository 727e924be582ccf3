/**
 Seeding a secret store from a service's secrets file
 (pkg/bootstrap/secret/secure.go and types.go). A run stores the entries that
 are not yet imported, marks the ones it stored and scrubs their data; after a
 failure the rewritten file is used for the next run.
 */
module Seeding {
  import opened SecretStore
  import opened SecretCache
  import CommaList

  datatype KeyValue = KeyValue(key: string, value: string)

  datatype ServiceSecret = ServiceSecret(secretName: string, imported: bool, secretData: seq<KeyValue>)

  // -------------------------------------------------------------- validation

  predicate EntryValid(e: ServiceSecret) {
    && CommaList.Trim(e.secretName) != ""
    && (forall kv :: kv in e.secretData ==> kv.key != "" && kv.value != "")
  }

  predicate FileValid(entries: seq<ServiceSecret>) {
    && entries != []
    && (forall e :: e in entries ==> EntryValid(e))
    && (forall e :: e in entries && !e.imported ==> e.secretData != [])
  }

  /** The check that the struct tags cannot express; `bad` names the entries that fail it. */
  method CheckSecretData(entries: seq<ServiceSecret>) returns (bad: seq<string>)
    ensures bad == [] <==> forall e :: e in entries && !e.imported ==> e.secretData != []
    ensures forall name :: name in bad <==>
                             exists e :: e in entries && !e.imported && e.secretData == [] && e.secretName == name
  {
    bad := [];
    for i := 0 to |entries|
      invariant forall name :: name in bad ==>
                  exists e :: e in entries[..i] && !e.imported && e.secretData == [] && e.secretName == name
      invariant forall e :: e in entries[..i] && !e.imported && e.secretData == [] ==> e.secretName in bad
    {
      var e := entries[i];
      assert entries[..i + 1] == entries[..i] + [e];
      if !e.imported && |e.secretData| == 0 {
        bad := bad + [e.secretName];
      }
    }
    assert entries[..|entries|] == entries;
    if bad != [] {
      assert bad[0] in bad;
    }
  }

  // -------------------------------------------------------------- one entry

  /** The last value given for a key counts. */
  function DataMap(data: seq<KeyValue>): Secret {
    if data == [] then map[]
    else DataMap(data[..|data| - 1])[data[|data| - 1].key := data[|data| - 1].value]
  }

  /** The secret has the keys of the pairs, each with the value of the last pair that has it. */
  ghost predicate HasPairs(secret: Secret, data: seq<KeyValue>) {
    && (forall key :: key in secret <==> exists i :: 0 <= i < |data| && data[i].key == key)
    && (forall i :: 0 <= i < |data| && (forall j :: i < j < |data| ==> data[j].key != data[i].key) ==>
          data[i].key in secret && secret[data[i].key] == data[i].value)
  }

  lemma {:induction false} DataMapHasPairs(data: seq<KeyValue>)
    ensures forall key :: key in DataMap(data) <==> exists i :: 0 <= i < |data| && data[i].key == key
    ensures forall i :: 0 <= i < |data| && (forall j :: i < j < |data| ==> data[j].key != data[i].key) ==>
              data[i].key in DataMap(data) && DataMap(data)[data[i].key] == data[i].value
  {
    if data != [] {
      var before, last := data[..|data| - 1], data[|data| - 1];
      DataMapHasPairs(before);
      forall key
        ensures key in DataMap(data) <==> exists i :: 0 <= i < |data| && data[i].key == key
      {
        if i :| 0 <= i < |data| && data[i].key == key {
          assert i < |before| ==> before[i].key == key;
        }
        if key in DataMap(before) {
          var i :| 0 <= i < |before| && before[i].key == key;
          assert data[i].key == key;
        }
        assert data[|before|] == last;
      }
      forall i | 0 <= i < |data| && forall j :: i < j < |data| ==> data[j].key != data[i].key
        ensures data[i].key in DataMap(data) && DataMap(data)[data[i].key] == data[i].value
      {
        if i < |before| {
          assert data[|before|].key != data[i].key;
          forall j | i < j < |before|
            ensures before[j].key != before[i].key
          {
            assert data[j].key != data[i].key;
          }
          assert before[i] == data[i];
        }
      }
    }
  }

  /** There is one such secret. */
  lemma PairsDetermine(one: Secret, two: Secret, data: seq<KeyValue>)
    requires HasPairs(one, data) && HasPairs(two, data)
    ensures one == two
  {
    forall key | key in one
      ensures key in two && one[key] == two[key]
    {
      var i := LastPair(data, key);
      assert data[i].key == key;
    }
    forall key | key in two
      ensures key in one
    {
      assert exists i :: 0 <= i < |data| && data[i].key == key;
    }
  }

  lemma {:induction false} LastPair(data: seq<KeyValue>, key: string) returns (i: nat)
    requires exists i :: 0 <= i < |data| && data[i].key == key
    ensures i < |data| && data[i].key == key && forall j :: i < j < |data| ==> data[j].key != key
  {
    i := |data| - 1;
    if data[i].key != key {
      var k :| 0 <= k < |data| && data[k].key == key;
      assert data[..i][k].key == key;
      i := LastPair(data[..i], key);
    }
  }

  lemma SomeData(data: seq<KeyValue>)
    requires data != []
    ensures DataMap(data) != map[]
  {
    assert data[|data| - 1].key in DataMap(data);
  }

  function Name(e: ServiceSecret): string {
    CommaList.Trim(e.secretName)
  }

  method PrepareSecret(e: ServiceSecret) returns (name: string, secretsKV: Secret)
    ensures name == CommaList.Trim(e.secretName)
    ensures forall key :: key in secretsKV <==> exists i :: 0 <= i < |e.secretData| && e.secretData[i].key == key
    ensures forall i :: 0 <= i < |e.secretData| &&
                        (forall j :: i < j < |e.secretData| ==> e.secretData[j].key != e.secretData[i].key) ==>
              e.secretData[i].key in secretsKV && secretsKV[e.secretData[i].key] == e.secretData[i].value
    ensures secretsKV == DataMap(e.secretData)
  {
    secretsKV := map[];
    for i := 0 to |e.secretData|
      invariant secretsKV == DataMap(e.secretData[..i])
    {
      assert e.secretData[..i + 1][..i] == e.secretData[..i];
      secretsKV := secretsKV[e.secretData[i].key := e.secretData[i].value];
    }
    assert e.secretData[..|e.secretData|] == e.secretData;
    DataMapHasPairs(e.secretData);
    name := CommaList.Trim(e.secretName);
  }

  function Scrubbed(e: ServiceSecret): ServiceSecret {
    e.(imported := true, secretData := [])
  }

  /** A store call goes through if it is served, or if there is nothing to send. */
  predicate Delivered(secret: Secret, a: Attempt) {
    secret == map[] || Reached(a)
  }

  function Stored(store: Store, name: string, secret: Secret): Store {
    if secret == map[] then store else store[name := secret]
  }

  lemma PostOutcome(store: Store, name: string, secret: Secret, a: Attempt)
    ensures PostRetry(store, name, secret, a).1.Ok? <==> Delivered(secret, a)
    ensures PostRetry(store, name, secret, a).0 == if Delivered(secret, a) then Stored(store, name, secret) else store
  {
  }

  // ------------------------------------------------------------------ one run

  /** Store and entries after the first `n` entries; `oks[i]` says whether storing entry `i` succeeds. */
  function SeedUpTo(store: Store, entries: seq<ServiceSecret>, oks: seq<bool>, n: nat): (Store, seq<ServiceSecret>)
    requires n <= |entries| == |oks|
    ensures |SeedUpTo(store, entries, oks, n).1| == |entries|
  {
    if n == 0 then (store, entries)
    else
      var (st, es) := SeedUpTo(store, entries, oks, n - 1);
      var e := entries[n - 1];
      if e.imported || !oks[n - 1] then (st, es)
      else (Stored(st, Name(e), DataMap(e.secretData)), es[n - 1 := Scrubbed(e)])
  }

  function SeedRun(store: Store, entries: seq<ServiceSecret>, oks: seq<bool>): (Store, seq<ServiceSecret>)
    requires |entries| == |oks|
  {
    SeedUpTo(store, entries, oks, |entries|)
  }

  function FailedUpTo(entries: seq<ServiceSecret>, oks: seq<bool>, n: nat): seq<string>
    requires n <= |entries| == |oks|
  {
    if n == 0 then []
    else FailedUpTo(entries, oks, n - 1) +
         if !entries[n - 1].imported && !oks[n - 1] then [entries[n - 1].secretName] else []
  }

  datatype Call = Call(a: Attempt, inner: Behaviour)

  lemma SeedNext(store: Store, entries: seq<ServiceSecret>, oks: seq<bool>, n: nat)
    requires n < |entries| == |oks| && !entries[n].imported
    ensures var (st, es) := SeedUpTo(store, entries, oks, n);
            SeedUpTo(store, entries, oks, n + 1) ==
            if oks[n] then (Stored(st, Name(entries[n]), DataMap(entries[n].secretData)), es[n := Scrubbed(entries[n])])
            else (st, es)
  {
  }

  lemma QuietCall(s: State, name: string, secret: Secret, call: Call)
    requires Sound(call.inner) && WritesNothing(call.inner)
    ensures WriteStep(s, name, secret, call.a, call.inner).0.store ==
            if Delivered(secret, call.a) then Stored(s.store, name, secret) else s.store
  {
    PostOutcome(s.store, name, secret, call.a);
    StoreIsKept(s.(store := PostRetry(s.store, name, secret, call.a).0), call.inner, []);
  }

  /** Which entries a run of calls stores, or would if they were not imported. */
  function Outcomes(connected: bool, entries: seq<ServiceSecret>, calls: seq<Call>): (oks: seq<bool>)
    requires |calls| == |entries|
    ensures |oks| == |entries|
    ensures forall i :: 0 <= i < |oks| ==>
              (oks[i] <==> connected && (entries[i].secretData == [] || Reached(calls[i].a)))
  {
    seq(|entries|, i requires 0 <= i < |entries| => connected && (entries[i].secretData == [] || Reached(calls[i].a)))
  }

  /** The last entry stored under each name has its pairs in the store. */
  ghost predicate HoldsStored(store: Store, entries: seq<ServiceSecret>, oks: seq<bool>)
    requires |entries| == |oks|
  {
    forall k :: 0 <= k < |entries| && !entries[k].imported && oks[k] && entries[k].secretData != [] &&
                (forall j :: k < j < |entries| && !entries[j].imported && oks[j] ==>
                               CommaList.Trim(entries[j].secretName) != CommaList.Trim(entries[k].secretName)) ==>
      var name := CommaList.Trim(entries[k].secretName);
      name in store && HasPairs(store[name], entries[k].secretData)
  }

  lemma RunHoldsStored(store: Store, entries: seq<ServiceSecret>, oks: seq<bool>)
    requires |entries| == |oks|
    ensures HoldsStored(SeedRun(store, entries, oks).0, entries, oks)
  {
    forall k: nat | k < |entries| && !entries[k].imported && oks[k] && entries[k].secretData != [] &&
                    (forall j :: k < j < |entries| && !entries[j].imported && oks[j] ==>
                                   CommaList.Trim(entries[j].secretName) != CommaList.Trim(entries[k].secretName))
      ensures var st, name := SeedRun(store, entries, oks).0, CommaList.Trim(entries[k].secretName);
              name in st && HasPairs(st[name], entries[k].secretData)
    {
      StoreHoldsPairs(store, entries, oks, k);
    }
  }

  /** One entry of the loop below. */
  method StoreEntry(p: SecureProvider, secrets: array<ServiceSecret>, index: nat, call: Call, now: nat)
    returns (stored: bool)
    requires Sound(call.inner) && index < secrets.Length
    modifies secrets, p`secretsCache, p`lastUpdated, p`registeredSecretCallbacks, p.client
    ensures var secret := old(secrets[index]);
            var data := DataMap(secret.secretData);
            && (stored <==> p.client != null && (secret.secretData == [] || Reached(call.a)))
            && secrets[..] == (if stored then old(secrets[..])[index := Scrubbed(secret)] else old(secrets[..]))
            && (p.client != null && WritesNothing(call.inner) ==>
                  p.client.store == if stored then Stored(old(p.client.store), Name(secret), data)
                                    else old(p.client.store))
  {
    var secret := secrets[index];
    var name, data := PrepareSecret(secret);
    if secret.secretData != [] {
      SomeData(secret.secretData);
    }
    if p.client != null {
      PostOutcome(p.client.store, name, data, call.a);
      if WritesNothing(call.inner) {
        QuietCall(p.Value(), name, data, call);
      }
    }
    var r, called, seen := p.StoreSecret(name, data, call.a, now, call.inner);
    stored := r.Ok?;
    if stored {
      secrets[index] := Scrubbed(secret);
    }
  }

  /** The reported failures are the names of the entries that were not stored, in order and one for each. */
  lemma {:induction false} FailuresReported(entries: seq<ServiceSecret>, oks: seq<bool>, n: nat)
    returns (places: seq<nat>)
    requires n <= |entries| == |oks|
    ensures forall i: nat :: i in places <==> i < n && !entries[i].imported && !oks[i]
    ensures forall j, k :: 0 <= j < k < |places| ==> places[j] < places[k]
    ensures |FailedUpTo(entries, oks, n)| == |places|
    ensures forall k :: 0 <= k < |places| ==>
              places[k] < |entries| && FailedUpTo(entries, oks, n)[k] == entries[places[k]].secretName
  {
    places := [];
    if n > 0 {
      places := FailuresReported(entries, oks, n - 1);
      forall k | 0 <= k < |places|
        ensures places[k] < n - 1
      {
        assert places[k] in places;
      }
      if !entries[n - 1].imported && !oks[n - 1] {
        places := places + [n - 1];
      }
    }
  }

  method SeedSecrets(p: SecureProvider, secrets: array<ServiceSecret>, calls: seq<Call>, now: nat)
    returns (failed: seq<string>, ghost oks: seq<bool>)
    requires |calls| == secrets.Length && forall call :: call in calls ==> Sound(call.inner)
    modifies secrets, p`secretsCache, p`lastUpdated, p`registeredSecretCallbacks, p.client
    ensures |oks| == secrets.Length
    ensures forall i :: 0 <= i < |oks| && !old(secrets[i]).imported ==>
              (oks[i] <==> p.client != null && (old(secrets[i]).secretData == [] || Reached(calls[i].a)))
    ensures failed == FailedUpTo(old(secrets[..]), oks, |oks|)
    ensures p.client != null ==> secrets[..] == SeedRun(old(p.client.store), old(secrets[..]), oks).1
    ensures p.client != null && (forall call :: call in calls ==> WritesNothing(call.inner)) ==>
              p.client.store == SeedRun(old(p.client.store), old(secrets[..]), oks).0 &&
              HoldsStored(p.client.store, old(secrets[..]), oks)
    ensures p.client == null ==> secrets[..] == old(secrets[..])
  {
    ghost var entries := secrets[..];
    ghost var store := if p.client != null then p.client.store else map[];
    ghost var quiet := forall call :: call in calls ==> WritesNothing(call.inner);
    oks := Outcomes(p.client != null, entries, calls);
    failed := [];
    for index := 0 to secrets.Length
      invariant p.client == old(p.client)
      invariant failed == FailedUpTo(entries, oks, index)
      invariant secrets[..] == SeedUpTo(store, entries, oks, index).1
      invariant p.client != null && quiet ==> p.client.store == SeedUpTo(store, entries, oks, index).0
      invariant p.client == null ==> secrets[..] == entries
    {
      SeedEntry(store, entries, oks, index, index);
      assert secrets[..][index] == entries[index];
      if !secrets[index].imported {
        assert calls[index] in calls;
        SeedNext(store, entries, oks, index);
        var stored := StoreEntry(p, secrets, index, calls[index], now);
        if !stored {
          failed := failed + [secrets[index].secretName];
        }
      }
    }
    RunHoldsStored(store, entries, oks);
  }

  /** What a run does to each entry: stored ones are marked and scrubbed, all others are untouched. */
  lemma {:induction false} SeedEntry(store: Store, entries: seq<ServiceSecret>, oks: seq<bool>, n: nat, i: nat)
    requires i < |entries| == |oks| && n <= |entries|
    ensures SeedUpTo(store, entries, oks, n).1[i] ==
            if i < n && !entries[i].imported && oks[i] then ServiceSecret(entries[i].secretName, true, [])
            else entries[i]
  {
    if n > 0 {
      SeedEntry(store, entries, oks, n - 1, i);
    }
  }

  /** The rewritten file passes the checks that the original passed. */
  lemma SeedKeepsFileValid(store: Store, entries: seq<ServiceSecret>, oks: seq<bool>)
    requires FileValid(entries) && |entries| == |oks|
    ensures FileValid(SeedRun(store, entries, oks).1)
  {
    var after := SeedRun(store, entries, oks).1;
    forall i | 0 <= i < |after|
      ensures EntryValid(after[i]) && (!after[i].imported ==> after[i].secretData != [])
    {
      SeedEntry(store, entries, oks, |entries|, i);
      assert entries[i] in entries;
    }
  }

  // ------------------------------------------------------------- many runs

  /** The entries a run stores, in order. */
  function StoredUpTo(entries: seq<ServiceSecret>, oks: seq<bool>, n: nat): seq<nat>
    requires n <= |entries| == |oks|
  {
    if n == 0 then []
    else StoredUpTo(entries, oks, n - 1) + if !entries[n - 1].imported && oks[n - 1] then [n - 1] else []
  }

  datatype Seeded = Seeded(store: Store, entries: seq<ServiceSecret>, log: seq<nat>)

  ghost predicate Schedule(runs: seq<seq<bool>>, n: nat) {
    forall oks :: oks in runs ==> |oks| == n
  }

  /** Each run starts from the file and the store that the run before it left. */
  function Seeds(store: Store, entries: seq<ServiceSecret>, runs: seq<seq<bool>>): Seeded
    requires Schedule(runs, |entries|)
    ensures |Seeds(store, entries, runs).entries| == |entries|
    decreases runs
  {
    if runs == [] then Seeded(store, entries, [])
    else
      assert runs[0] in runs;
      var (st, es) := SeedRun(store, entries, runs[0]);
      var rest := Seeds(st, es, runs[1..]);
      Seeded(rest.store, rest.entries, StoredUpTo(entries, runs[0], |entries|) + rest.log)
  }

  ghost predicate NoDuplicates(log: seq<nat>) {
    forall j, k :: 0 <= j < k < |log| ==> log[j] != log[k]
  }

  lemma NoDuplicatesAppend(a: seq<nat>, b: seq<nat>)
    requires NoDuplicates(a) && NoDuplicates(b) && forall i :: i in a ==> i !in b
    ensures NoDuplicates(a + b)
  {
    forall j, k | 0 <= j < |a| && 0 <= k < |b|
      ensures a[j] != b[k]
    {
      assert a[j] in a && b[k] in b;
    }
  }

  lemma {:induction false} StoredEntries(entries: seq<ServiceSecret>, oks: seq<bool>, n: nat)
    requires n <= |entries| == |oks|
    ensures forall i: nat :: i in StoredUpTo(entries, oks, n) <==> i < n && !entries[i].imported && oks[i]
    ensures NoDuplicates(StoredUpTo(entries, oks, n))
  {
    if n > 0 {
      StoredEntries(entries, oks, n - 1);
      NoDuplicatesAppend(StoredUpTo(entries, oks, n - 1), [n - 1]);
    }
  }

  /** Entry `i` became imported. */
  predicate Imports(before: seq<ServiceSecret>, after: seq<ServiceSecret>, i: nat) {
    i < |before| == |after| && !before[i].imported && after[i].imported
  }

  /** `log` lists the entries that changed from unimported to stored and scrubbed; the others did not change. */
  ghost predicate Accounts(log: seq<nat>, before: seq<ServiceSecret>, after: seq<ServiceSecret>) {
    && |before| == |after|
    && (forall i :: i in log ==> i < |before| && !before[i].imported)
    && (forall i: nat :: i < |before| ==> after[i] == if i in log then Scrubbed(before[i]) else before[i])
  }

  lemma RunAccounts(store: Store, entries: seq<ServiceSecret>, oks: seq<bool>)
    requires |entries| == |oks|
    ensures Accounts(StoredUpTo(entries, oks, |entries|), entries, SeedRun(store, entries, oks).1)
  {
    StoredEntries(entries, oks, |entries|);
    forall i: nat | i < |entries|
      ensures SeedRun(store, entries, oks).1[i] ==
              if i in StoredUpTo(entries, oks, |entries|) then Scrubbed(entries[i]) else entries[i]
    {
      SeedEntry(store, entries, oks, |entries|, i);
    }
  }

  /**
   Over any sequence of runs with any failures no entry is stored twice; the
   entries stored are exactly those that became imported; all others, imported
   before or never stored, are unchanged.
   */
  lemma {:induction false} StoredAtMostOnce(store: Store, entries: seq<ServiceSecret>, runs: seq<seq<bool>>)
    requires Schedule(runs, |entries|)
    ensures var r := Seeds(store, entries, runs);
            && NoDuplicates(r.log)
            && Accounts(r.log, entries, r.entries)
            && (forall i: nat :: i in r.log <==> Imports(entries, r.entries, i))
    decreases runs
  {
    if runs != [] {
      assert runs[0] in runs;
      var (st, es) := SeedRun(store, entries, runs[0]);
      var log := StoredUpTo(entries, runs[0], |entries|);
      StoredEntries(entries, runs[0], |entries|);
      RunAccounts(store, entries, runs[0]);
      StoredAtMostOnce(st, es, runs[1..]);
      var rest := Seeds(st, es, runs[1..]);
      forall i | i in log
        ensures i !in rest.log
      {
        assert es[i] == Scrubbed(entries[i]);
      }
      NoDuplicatesAppend(log, rest.log);
      AccountsTrans(log, rest.log, entries, es, rest.entries);
    }
  }

  lemma AccountsTrans(log: seq<nat>, more: seq<nat>, before: seq<ServiceSecret>, between: seq<ServiceSecret>,
                      after: seq<ServiceSecret>)
    requires Accounts(log, before, between) && Accounts(more, between, after)
    ensures Accounts(log + more, before, after)
    ensures forall i: nat :: i in log + more <==> Imports(before, after, i)
  {
    forall i | i in log + more
      ensures i < |before| && !before[i].imported
    {
      if i !in log {
        assert between[i] == before[i];
      }
    }
    forall i: nat | i < |before|
      ensures after[i] == if i in log + more then Scrubbed(before[i]) else before[i]
    {
      assert between[i] == if i in log then Scrubbed(before[i]) else before[i];
      assert after[i] == if i in more then Scrubbed(between[i]) else between[i];
    }
  }

  lemma {:induction false} SeedsKeepFileValid(store: Store, entries: seq<ServiceSecret>, runs: seq<seq<bool>>)
    requires FileValid(entries) && Schedule(runs, |entries|)
    ensures FileValid(Seeds(store, entries, runs).entries)
    decreases runs
  {
    if runs != [] {
      assert runs[0] in runs;
      SeedKeepsFileValid(store, entries, runs[0]);
      var (st, es) := SeedRun(store, entries, runs[0]);
      SeedsKeepFileValid(st, es, runs[1..]);
    }
  }

  // ------------------------------------------- resuming and not having failed

  ghost predicate HasData(entries: seq<ServiceSecret>) {
    forall e :: e in entries && !e.imported ==> e.secretData != []
  }

  /** Entries still to be imported under one name carry the same data. */
  ghost predicate SameNameSameData(entries: seq<ServiceSecret>) {
    forall i, j :: 0 <= i < |entries| && 0 <= j < |entries| && !entries[i].imported && !entries[j].imported &&
                   Name(entries[i]) == Name(entries[j])
                   ==> DataMap(entries[i].secretData) == DataMap(entries[j].secretData)
  }

  /** Store contents after any runs, pair by pair. */
  lemma SeedsHoldPairs(store: Store, entries: seq<ServiceSecret>, runs: seq<seq<bool>>)
    requires Schedule(runs, |entries|) && HasData(entries) && SameNameSameData(entries)
    ensures var r := Seeds(store, entries, runs);
            forall i :: 0 <= i < |entries| && !entries[i].imported && r.entries[i].imported ==>
              var name := CommaList.Trim(entries[i].secretName);
              name in r.store && HasPairs(r.store[name], entries[i].secretData)
  {
    SeedsReflect(store, entries, runs);
    var r := Seeds(store, entries, runs);
    forall i: nat | i < |entries| && !entries[i].imported && r.entries[i].imported
      ensures var name := CommaList.Trim(entries[i].secretName);
              name in r.store && HasPairs(r.store[name], entries[i].secretData)
    {
      assert Imports(entries, r.entries, i);
      DataMapHasPairs(entries[i].secretData);
    }
  }

  /** The store has the newly imported entries' data and is otherwise as it was. */
  ghost predicate Reflects(store: Store, before: seq<ServiceSecret>, after: seq<ServiceSecret>, result: Store) {
    && (forall i: nat :: Imports(before, after, i) ==>
          Name(before[i]) in result && result[Name(before[i])] == DataMap(before[i].secretData))
    && (forall name :: (forall i: nat :: Imports(before, after, i) ==> Name(before[i]) != name) ==>
          (name in result <==> name in store) && (name in store ==> result[name] == store[name]))
  }

  lemma ReflectsOneMore(store: Store, before: seq<ServiceSecret>, after: seq<ServiceSecret>, result: Store, k: nat)
    requires Reflects(store, before, after, result) && SameNameSameData(before)
    requires k < |before| == |after| && !before[k].imported && !after[k].imported
    ensures Reflects(store, before, after[k := Scrubbed(before[k])],
                     result[Name(before[k]) := DataMap(before[k].secretData)])
  {
    var more := after[k := Scrubbed(before[k])];
    var next := result[Name(before[k]) := DataMap(before[k].secretData)];
    assert Imports(before, more, k);
    forall i: nat | Imports(before, more, i)
      ensures Name(before[i]) in next && next[Name(before[i])] == DataMap(before[i].secretData)
    {
      assert i == k || Imports(before, after, i);
    }
    forall name | forall i: nat :: Imports(before, more, i) ==> Name(before[i]) != name
      ensures (name in next <==> name in store) && (name in store ==> next[name] == store[name])
    {
      NotImportedBefore(before, after, more, name);
    }
  }

  lemma NotImportedBefore(before: seq<ServiceSecret>, after: seq<ServiceSecret>, more: seq<ServiceSecret>, name: string)
    requires forall i: nat :: Imports(before, after, i) ==> Imports(before, more, i)
    requires forall i: nat :: Imports(before, more, i) ==> Name(before[i]) != name
    ensures forall i: nat :: Imports(before, after, i) ==> Name(before[i]) != name
  {
  }

  /** One entry of a run, when there is data to store. */
  lemma SeedOneMore(store: Store, entries: seq<ServiceSecret>, oks: seq<bool>, n: nat)
    requires n < |entries| == |oks| && HasData(entries)
    ensures var prev := SeedUpTo(store, entries, oks, n);
            var e := entries[n];
            SeedUpTo(store, entries, oks, n + 1) ==
            if e.imported || !oks[n] then prev
            else (prev.0[Name(e) := DataMap(e.secretData)], prev.1[n := Scrubbed(e)])
  {
    assert entries[n] in entries;
    if !entries[n].imported {
      SomeData(entries[n].secretData);
    }
  }

  lemma ReflectsNothing(store: Store, entries: seq<ServiceSecret>)
    ensures Reflects(store, entries, entries, store)
  {
  }

  lemma SeedReflectsStep(store: Store, entries: seq<ServiceSecret>, oks: seq<bool>, n: nat,
                         prev: (Store, seq<ServiceSecret>))
    requires n < |entries| == |oks| && HasData(entries) && SameNameSameData(entries)
    requires prev == SeedUpTo(store, entries, oks, n) && Reflects(store, entries, prev.1, prev.0)
    ensures Reflects(store, entries, SeedUpTo(store, entries, oks, n + 1).1, SeedUpTo(store, entries, oks, n + 1).0)
  {
    SeedOneMore(store, entries, oks, n);
    if !entries[n].imported && oks[n] {
      SeedEntry(store, entries, oks, n, n);
      ReflectsOneMore(store, entries, prev.1, prev.0, n);
    }
  }

  lemma {:induction false} SeedReflects(store: Store, entries: seq<ServiceSecret>, oks: seq<bool>, n: nat)
    requires n <= |entries| == |oks| && HasData(entries) && SameNameSameData(entries)
    ensures Reflects(store, entries, SeedUpTo(store, entries, oks, n).1, SeedUpTo(store, entries, oks, n).0)
  {
    if n == 0 {
      ReflectsNothing(store, entries);
    } else {
      SeedReflects(store, entries, oks, n - 1);
      SeedReflectsStep(store, entries, oks, n - 1, SeedUpTo(store, entries, oks, n - 1));
    }
  }

  lemma {:induction false} SeedsReflect(store: Store, entries: seq<ServiceSecret>, runs: seq<seq<bool>>)
    requires Schedule(runs, |entries|) && HasData(entries) && SameNameSameData(entries)
    ensures Reflects(store, entries, Seeds(store, entries, runs).entries, Seeds(store, entries, runs).store)
    decreases runs
  {
    if runs != [] {
      assert runs[0] in runs;
      var (st, es) := SeedRun(store, entries, runs[0]);
      forall i | 0 <= i < |entries|
        ensures es[i] == entries[i] || (Imports(entries, es, i) && es[i] == Scrubbed(entries[i]))
      {
        SeedEntry(store, entries, runs[0], |entries|, i);
      }
      SeedReflects(store, entries, runs[0], |entries|);
      assert HasData(es);
      SeedsReflect(st, es, runs[1..]);
      StoredAtMostOnce(st, es, runs[1..]);
      ReflectsTrans(store, entries, es, Seeds(st, es, runs[1..]).entries, st, Seeds(st, es, runs[1..]).store);
    }
  }

  lemma ReflectsTrans(store: Store, before: seq<ServiceSecret>, between: seq<ServiceSecret>, after: seq<ServiceSecret>,
                      st: Store, result: Store)
    requires |before| == |between| == |after| && SameNameSameData(before)
    requires forall i: nat :: i < |before| ==> between[i] == before[i] || Imports(before, between, i)
    requires forall i: nat :: i < |before| && between[i].imported ==> after[i].imported
    requires Reflects(store, before, between, st) && Reflects(st, between, after, result)
    ensures Reflects(store, before, after, result)
  {
    forall i: nat | i < |before|
      ensures Imports(before, after, i) <==> Imports(before, between, i) || Imports(between, after, i)
    {
    }
    forall i: nat | Imports(before, after, i)
      ensures Name(before[i]) in result && result[Name(before[i])] == DataMap(before[i].secretData)
    {
      if !Imports(between, after, i) {
        if j: nat :| Imports(between, after, j) && Name(between[j]) == Name(before[i]) {
          assert between[j] == before[j];
        }
      }
    }
  }

  predicate AllImported(entries: seq<ServiceSecret>) {
    forall e :: e in entries ==> e.imported
  }

  function NoFailures(n: nat): seq<bool> {
    seq(n, i => true)
  }

  /** Whatever failed on the way, once every entry is imported the store is that of one run without failures. */
  ghost predicate ResumeIsFaithful(store: Store, entries: seq<ServiceSecret>) {
    forall runs :: Schedule(runs, |entries|) && AllImported(Seeds(store, entries, runs).entries) ==>
                     Seeds(store, entries, runs).store == SeedRun(store, entries, NoFailures(|entries|)).0
  }

  /** Which entries were imported determines the store. */
  lemma ReflectsIsUnique(store: Store, before: seq<ServiceSecret>, one: seq<ServiceSecret>, two: seq<ServiceSecret>,
                         st1: Store, st2: Store)
    requires Reflects(store, before, one, st1) && Reflects(store, before, two, st2)
    requires forall i: nat :: Imports(before, one, i) <==> Imports(before, two, i)
    ensures st1 == st2
  {
    forall name: string
      ensures name in st1 <==> name in st2
      ensures name in st1 ==> st1[name] == st2[name]
    {
      if i: nat :| Imports(before, one, i) && Name(before[i]) == name {
        assert Imports(before, two, i);
      }
    }
  }

  lemma SameDataResumes(store: Store, entries: seq<ServiceSecret>, runs: seq<seq<bool>>)
    requires HasData(entries) && SameNameSameData(entries)
    requires Schedule(runs, |entries|) && AllImported(Seeds(store, entries, runs).entries)
    ensures Seeds(store, entries, runs).store == SeedRun(store, entries, NoFailures(|entries|)).0
  {
    var after := Seeds(store, entries, runs).entries;
    var (st, es) := SeedRun(store, entries, NoFailures(|entries|));
    SeedsReflect(store, entries, runs);
    SeedReflects(store, entries, NoFailures(|entries|), |entries|);
    forall i: nat
      ensures Imports(entries, es, i) <==> Imports(entries, after, i)
    {
      if i < |entries| {
        SeedEntry(store, entries, NoFailures(|entries|), |entries|, i);
        assert after[i] in after;
      }
    }
    ReflectsIsUnique(store, entries, after, es, Seeds(store, entries, runs).store, st);
  }

  /** The last entry stored under a name decides its value. */
  lemma {:induction false} LastStoredWins(store: Store, entries: seq<ServiceSecret>, oks: seq<bool>, n: nat, k: nat)
    requires k < n <= |entries| == |oks| && !entries[k].imported && oks[k] && entries[k].secretData != []
    requires forall j :: k < j < n && !entries[j].imported && oks[j] ==> Name(entries[j]) != Name(entries[k])
    ensures var st := SeedUpTo(store, entries, oks, n).0;
            Name(entries[k]) in st && st[Name(entries[k])] == DataMap(entries[k].secretData)
  {
    SomeData(entries[k].secretData);
    if n - 1 > k {
      LastStoredWins(store, entries, oks, n - 1, k);
    }
  }

  /**
   Pair by pair: after a run the store has, under the trimmed name of the last
   entry stored with that name, the keys of that entry's pairs and each key's last
   value; a name that no stored entry has is as it was.
   */
  lemma StoreHoldsPairs(store: Store, entries: seq<ServiceSecret>, oks: seq<bool>, k: nat)
    requires k < |entries| == |oks| && !entries[k].imported && oks[k] && entries[k].secretData != []
    requires forall j :: k < j < |entries| && !entries[j].imported && oks[j] ==>
               CommaList.Trim(entries[j].secretName) != CommaList.Trim(entries[k].secretName)
    ensures var st := SeedRun(store, entries, oks).0;
            var name := CommaList.Trim(entries[k].secretName);
            name in st && HasPairs(st[name], entries[k].secretData)
  {
    LastStoredWins(store, entries, oks, |entries|, k);
    DataMapHasPairs(entries[k].secretData);
  }

  lemma {:induction false} OtherNamesAreKept(store: Store, entries: seq<ServiceSecret>, oks: seq<bool>, n: nat,
                                             name: string)
    requires n <= |entries| == |oks|
    requires forall j :: 0 <= j < n && !entries[j].imported && oks[j] ==> CommaList.Trim(entries[j].secretName) != name
    ensures var st := SeedUpTo(store, entries, oks, n).0;
            (name in st <==> name in store) && (name in store ==> st[name] == store[name])
  {
    if n > 0 {
      OtherNamesAreKept(store, entries, oks, n - 1, name);
    }
  }

  lemma {:induction false} LastOfName(entries: seq<ServiceSecret>, name: string, n: nat) returns (k: nat)
    requires n <= |entries| && exists i :: 0 <= i < n && !entries[i].imported && Name(entries[i]) == name
    ensures k < n && !entries[k].imported && Name(entries[k]) == name
    ensures forall j :: k < j < n && !entries[j].imported ==> Name(entries[j]) != name
  {
    k := n - 1;
    if entries[k].imported || Name(entries[k]) != name {
      k := LastOfName(entries, name, n - 1);
    }
  }

  /** If only entry `i` fails in a first run and a second run completes, entry `i` is stored last. */
  lemma DelayedEntryWins(store: Store, entries: seq<ServiceSecret>, i: nat) returns (runs: seq<seq<bool>>)
    requires i < |entries| && !entries[i].imported && entries[i].secretData != []
    ensures Schedule(runs, |entries|) && AllImported(Seeds(store, entries, runs).entries)
    ensures var st := Seeds(store, entries, runs).store;
            Name(entries[i]) in st && st[Name(entries[i])] == DataMap(entries[i].secretData)
  {
    var all := NoFailures(|entries|);
    var butOne := all[i := false];
    runs := [butOne, all];
    assert runs[1..] == [all] && [all][1..] == [];
    var (st, es) := SeedRun(store, entries, butOne);
    forall j | 0 <= j < |entries|
      ensures es[j].imported <==> j != i
      ensures j == i ==> es[j] == entries[j]
    {
      SeedEntry(store, entries, butOne, |entries|, j);
    }
    LastStoredWins(st, es, all, |entries|, i);
    var (st2, es2) := SeedRun(st, es, all);
    forall j | 0 <= j < |entries|
      ensures es2[j].imported
    {
      SeedEntry(st, es, all, |entries|, j);
    }
    assert Seeds(st, es, [all]).store == st2 && Seeds(st, es, [all]).entries == es2;
  }

  /**
   Resuming is faithful exactly when entries that share a name share their
   data; in particular when trimmed names are distinct.
   */
  lemma ResumeTheorem(store: Store, entries: seq<ServiceSecret>)
    requires HasData(entries)
    ensures ResumeIsFaithful(store, entries) <==> SameNameSameData(entries)
  {
    if SameNameSameData(entries) {
      forall runs | Schedule(runs, |entries|) && AllImported(Seeds(store, entries, runs).entries)
        ensures Seeds(store, entries, runs).store == SeedRun(store, entries, NoFailures(|entries|)).0
      {
        SameDataResumes(store, entries, runs);
      }
    }
    if ResumeIsFaithful(store, entries) {
      forall i: nat, j: nat | i < |entries| && j < |entries| && !entries[i].imported && !entries[j].imported &&
                              Name(entries[i]) == Name(entries[j])
        ensures DataMap(entries[i].secretData) == DataMap(entries[j].secretData)
      {
        EveryEntryIsLast(store, entries, i);
        EveryEntryIsLast(store, entries, j);
      }
    }
  }

  /** An entry with two keys keeps both. */
  lemma BothKeysAreStored(user: string, password: string)
    ensures var entries := [ServiceSecret("db", false, [KeyValue("username", user), KeyValue("password", password)])];
            && SeedRun(map[], entries, [true]).0 == map["db" := map["username" := user, "password" := password]]
            && SeedRun(map[], entries, [true]).1 == [ServiceSecret("db", true, [])]
  {
    var pairs := [KeyValue("username", user), KeyValue("password", password)];
    var e := ServiceSecret("db", false, pairs);
    TrimDb();
    assert pairs[..1] == [pairs[0]] && [pairs[0]][..0] == [];
    assert DataMap([pairs[0]]) == map["username" := user];
    assert DataMap(pairs) == map["username" := user, "password" := password];
    SomeData(pairs);
    assert SeedUpTo(map[], [e], [true], 0) == (map[], [e]);
    SeedNext(map[], [e], [true], 0);
    assert [e][0 := Scrubbed(e)] == [Scrubbed(e)];
    assert SeedRun(map[], [e], [true]) == SeedUpTo(map[], [e], [true], 1);
  }

  /** Two entries for one name, the first failing in a first run: the first one's data is there in the end. */
  lemma ResumingOutOfOrder()
    ensures var entries := [ServiceSecret("db", false, [KeyValue("user", "a")]),
                            ServiceSecret(" db", false, [KeyValue("user", "b")])];
            && AllImported(Seeds(map[], entries, [[false, true], [true, true]]).entries)
            && Seeds(map[], entries, [[false, true], [true, true]]).store == map["db" := map["user" := "a"]]
            && SeedRun(map[], entries, NoFailures(2)).0 == map["db" := map["user" := "b"]]
  {
    var one := ServiceSecret("db", false, [KeyValue("user", "a")]);
    var two := ServiceSecret(" db", false, [KeyValue("user", "b")]);
    TrimDb();
    assert DataMap(one.secretData) == map["user" := "a"] && DataMap(two.secretData) == map["user" := "b"];
    var none: Store := map[];
    var a := map["db" := map["user" := "a"]];
    var b := map["db" := map["user" := "b"]];
    SeedTwo(none, one, two, [false, true]);
    SeedTwo(b, one, Scrubbed(two), [true, true]);
    SeedTwo(none, one, two, [true, true]);
    var runs := [[false, true], [true, true]];
    assert runs[1..] == [[true, true]] && [[true, true]][1..] == [];
    assert NoFailures(2) == [true, true];
    assert none["db" := map["user" := "b"]] == b && b["db" := map["user" := "a"]] == a;
    assert Seeds(a, [Scrubbed(one), Scrubbed(two)], []) == Seeded(a, [Scrubbed(one), Scrubbed(two)], []);
  }

  lemma TrimDb()
    ensures CommaList.Trim("db") == "db" && CommaList.Trim(" db") == "db"
  {
    assert " db"[1..] == "db";
    assert CommaList.TrimLeft(" db") == "db";
  }

  /** A run over two entries, spelled out. */
  lemma SeedTwo(store: Store, one: ServiceSecret, two: ServiceSecret, oks: seq<bool>)
    requires |oks| == 2 && one.secretData != [] && (two.imported || two.secretData != [])
    ensures var st := if one.imported || !oks[0] then store else store[Name(one) := DataMap(one.secretData)];
            var es := [if one.imported || !oks[0] then one else Scrubbed(one), two];
            SeedRun(store, [one, two], oks) ==
            if two.imported || !oks[1] then (st, es)
            else (st[Name(two) := DataMap(two.secretData)], [es[0], Scrubbed(two)])
  {
    SomeData(one.secretData);
    if !two.imported {
      SomeData(two.secretData);
    }
    var entries := [one, two];
    var first := SeedUpTo(store, entries, oks, 1);
    assert SeedUpTo(store, entries, oks, 0) == (store, entries);
    assert first.1 == [if one.imported || !oks[0] then one else Scrubbed(one), two];
    assert first.1[1 := Scrubbed(two)] == [first.1[0], Scrubbed(two)];
    var second := SeedUpTo(store, entries, oks, 2);
    assert second == if two.imported || !oks[1] then first
                     else (Stored(first.0, Name(two), DataMap(two.secretData)), first.1[1 := Scrubbed(two)]);
  }

  lemma EveryEntryIsLast(store: Store, entries: seq<ServiceSecret>, i: nat)
    requires HasData(entries) && ResumeIsFaithful(store, entries)
    requires i < |entries| && !entries[i].imported
    ensures var st := SeedRun(store, entries, NoFailures(|entries|)).0;
            Name(entries[i]) in st && st[Name(entries[i])] == DataMap(entries[i].secretData)
  {
    assert entries[i] in entries;
    var runs := DelayedEntryWins(store, entries, i);
  }
}
