/**
 The secret store and the client that talks to it
 (pkg/secrets/openbao/secrets.go): a POST replaces a whole secret, a GET
 returns it, and the client picks the requested keys. What the network and the
 server do with a request is an argument of the call.
 */
module SecretStore {
  type Secret = map<string, string>

  type Store = map<string, Secret>

  datatype Error =
    | NotInitialized
    | NameNotFound
    | NoKeyValues
    | KeysNotFound(keys: seq<string>)
    | Forbidden
    | Unavailable
    | TokenNotLoaded
    | TokenNotAccepted
    | AlreadyRegistered

  datatype Result = Ok(secret: Secret) | Err(error: Error)

  /** What becomes of one request: served, refused with status 403, or lost to any other failure. */
  datatype Reply = Served | Denied | Lost

  function Missing(data: Secret, keys: seq<string>): seq<string> {
    if keys == [] then []
    else (if keys[0] in data then [] else [keys[0]]) + Missing(data, keys[1..])
  }

  function Restrict(data: Secret, keys: seq<string>): Secret {
    map key | key in keys && key in data :: data[key]
  }

  /** All values without keys; the requested values, or the list of those that are not there. */
  function Select(data: Secret, keys: seq<string>): Result {
    if keys == [] then Ok(data)
    else if Missing(data, keys) == [] then Ok(Restrict(data, keys))
    else Err(KeysNotFound(Missing(data, keys)))
  }

  lemma {:induction false} MissingKeys(data: Secret, keys: seq<string>)
    ensures forall key :: key in Missing(data, keys) <==> key in keys && key !in data
    ensures Missing(data, keys) == [] <==> forall key :: key in keys ==> key in data
  {
    if keys != [] {
      MissingKeys(data, keys[1..]);
    }
  }

  lemma {:induction false} MissingAppend(data: Secret, keys: seq<string>, key: string)
    ensures Missing(data, keys + [key]) == Missing(data, keys) + if key in data then [] else [key]
  {
    if keys == [] {
      assert Missing(data, [key]) == (if key in data then [] else [key]) + Missing(data, []);
    } else {
      MissingAppend(data, keys[1..], key);
      assert (keys + [key])[1..] == keys[1..] + [key];
    }
  }

  method SelectKeys(data: Secret, keys: seq<string>) returns (r: Result)
    ensures r == Select(data, keys)
  {
    if |keys| <= 0 {
      return Ok(data);
    }
    var values: Secret := map[];
    var notFound := [];
    for i := 0 to |keys|
      invariant values == Restrict(data, keys[..i])
      invariant notFound == Missing(data, keys[..i])
    {
      assert keys[..i + 1] == keys[..i] + [keys[i]];
      MissingAppend(data, keys[..i], keys[i]);
      if keys[i] !in data {
        notFound := notFound + [keys[i]];
      } else {
        values := values[keys[i] := data[keys[i]]];
      }
    }
    assert keys[..|keys|] == keys;
    r := if |notFound| > 0 then Err(KeysNotFound(notFound)) else Ok(values);
  }

  /** What an undisturbed read of the store answers. */
  function Read(store: Store, name: string, keys: seq<string>): Result {
    if name !in store then Err(NameNotFound)
    else if store[name] == map[] then Err(NoKeyValues)
    else Select(store[name], keys)
  }

  /** When a read succeeds, with what, and why it fails otherwise. */
  lemma ReadOutcome(store: Store, name: string, keys: seq<string>)
    ensures var r := Read(store, name, keys);
            if name !in store then r == Err(NameNotFound)
            else if store[name].Keys == {} then r == Err(NoKeyValues)
            else if keys == [] then r == Ok(store[name])
            else if forall key :: key in keys ==> key in store[name] then
              r.Ok? && forall key :: (key in r.secret <==> key in keys) &&
                                     (key in keys ==> r.secret[key] == store[name][key])
            else
              r.Err? && r.error.KeysNotFound? &&
              forall key :: key in r.error.keys <==> key in keys && key !in store[name]
  {
    if name in store {
      MissingKeys(store[name], keys);
    }
  }

  function Fetch(store: Store, name: string, keys: seq<string>, reply: Reply): Result {
    match reply
    case Served => Read(store, name, keys)
    case Denied => Err(Forbidden)
    case Lost => Err(Unavailable)
  }

  /** Nothing is sent for an empty secret, so nothing can fail and nothing changes. */
  function Post(store: Store, name: string, secret: Secret, reply: Reply): (Store, Result) {
    if secret == map[] then (store, Ok(map[]))
    else
      match reply
      case Served => (store[name := secret], Ok(map[]))
      case Denied => (store, Err(Forbidden))
      case Lost => (store, Err(Unavailable))
  }

  class Client {
    var store: Store

    constructor (store: Store)
      ensures this.store == store
    {
      this.store := store;
    }

    method GetSecret(name: string, keys: seq<string>, reply: Reply) returns (r: Result)
      ensures r == Fetch(store, name, keys, reply)
    {
      match reply
      case Denied => return Err(Forbidden);
      case Lost => return Err(Unavailable);
      case Served =>
        if name !in store {
          return Err(NameNotFound);
        }
        if |store[name]| <= 0 {
          return Err(NoKeyValues);
        }
        r := SelectKeys(store[name], keys);
    }

    method StoreSecret(name: string, secret: Secret, reply: Reply) returns (r: Result)
      modifies this
      ensures (store, r) == Post(old(store), name, secret, reply)
    {
      if |secret| == 0 {
        return Ok(map[]);
      }
      match reply
      case Denied => r := Err(Forbidden);
      case Lost => r := Err(Unavailable);
      case Served =>
        store := store[name := secret];
        r := Ok(map[]);
    }
  }
}
