/**
 The in-place form of the configuration overrides: a configuration is a
 structure of mutable maps, as `map[string]any` is in Go, and the methods below
 walk and update it through a cursor. Each is proved against the functions of
 ConfigTree.dfy and ConfigOverride.dfy.
 */
module ConfigMap {
  import opened Options
  import opened ConfigTree
  import opened ConfigOverride
  import Split

  datatype Slot = Value(item: Item) | Submap(m: Map)

  class Map {
    var slots: map<string, Slot>
    /** The value that this map and the maps below it stand for. */
    ghost var kids: Kids
    /** The one place this map sits in: a key of another map, or nowhere for a root. */
    ghost const parent: Map?
    ghost const place: string

    constructor (ghost parent: Map?, ghost place: string)
      ensures slots == map[] && kids == map[]
      ensures this.parent == parent && this.place == place
    {
      slots := map[];
      kids := map[];
      this.parent := parent;
      this.place := place;
    }
  }

  /** The slot of `m` at `k` stands for `item`, and a map found there sits nowhere else. */
  ghost predicate SlotHolds(m: Map, k: string, item: Item, maps: set<Map>)
    requires k in m.slots
    reads m, maps
  {
    match m.slots[k]
    case Value(i) => i == item && !i.Dir?
    case Submap(c) => c in maps && c.parent == m && c.place == k && item == Dir(c.kids)
  }

  ghost predicate Faithful(m: Map, maps: set<Map>)
    reads m, maps
  {
    && m.parent != m
    && m.slots.Keys == m.kids.Keys
    && forall k :: k in m.slots ==> SlotHolds(m, k, m.kids[k], maps)
  }

  ghost predicate Valid(root: Map, maps: set<Map>)
    reads maps
  {
    root in maps && root.parent == null && forall m :: m in maps ==> Faithful(m, maps)
  }

  // ------------------------------------------------------------------ loading

  /** Puts a value, or the maps `below` that stand for one, at a new key of a map that sits in none of `maps`. */
  method Attach(m: Map, k: string, slot: Slot, ghost item: Item, ghost maps: set<Map>, ghost below: set<Map>)
    requires m in maps && m !in below && (m.parent == null || m.parent !in maps + below)
    requires k !in m.slots
    requires match slot
             case Value(i) => i == item && !i.Dir?
             case Submap(c) => c in below && c.parent == m && c.place == k && item == Dir(c.kids)
    requires forall n :: n in maps ==> Faithful(n, maps)
    requires forall n :: n in below ==> Faithful(n, below)
    modifies m
    ensures m.kids == old(m.kids)[k := item] && m.slots == old(m.slots)[k := slot]
    ensures forall n :: n in maps + below ==> Faithful(n, maps + below)
  {
    m.slots := m.slots[k := slot];
    m.kids := m.kids[k := item];
    forall n | n in maps + below
      ensures Faithful(n, maps + below)
    {
      assert if n in maps then old(Faithful(n, maps)) else old(Faithful(n, below));
    }
  }

  /** Builds the maps for a decoded value; every configuration has such a form. */
  method Load(kids: Kids, ghost parent: Map?, ghost place: string) returns (m: Map, ghost maps: set<Map>)
    ensures fresh(maps) && m in maps && m.kids == kids && m.parent == parent && m.place == place
    ensures forall n :: n in maps ==> Faithful(n, maps)
    decreases Dir(kids)
  {
    m := new Map(parent, place);
    maps := {m};
    var rest := kids.Keys;
    while rest != {}
      invariant rest <= kids.Keys && fresh(maps) && m in maps
      invariant m.parent == parent && m.place == place
      invariant m.slots.Keys == m.kids.Keys
      invariant m.kids == map k | k in kids && k !in rest :: kids[k]
      invariant forall n :: n in maps ==> Faithful(n, maps)
    {
      var k :| k in rest;
      rest := rest - {k};
      var slot := Value(kids[k]);
      ghost var below := {};
      if kids[k].Dir? {
        var child;
        child, below := Load(kids[k].kids, m, k);
        slot := Submap(child);
      }
      Attach(m, k, slot, kids[k], maps, below);
      maps := maps + below;
    }
    assert m.kids == kids;
  }

  // ------------------------------------------------------------ read and write

  ghost predicate Stands(slot: Slot, item: Item, maps: set<Map>)
    reads maps
  {
    match slot
    case Value(i) => i == item && !i.Dir?
    case Submap(c) => c in maps && item == Dir(c.kids)
  }

  method GetConfigMapValue(path: string, configMap: Map, ghost maps: set<Map>) returns (value: Slot)
    requires Valid(configMap, maps)
    ensures Stands(value, Get(configMap.kids, path), maps)
  {
    assert Faithful(configMap, maps);
    if path in configMap.slots {
      assert SlotHolds(configMap, path, configMap.kids[path], maps);
      return configMap.slots[path];
    }
    var keys := Split.Cut(path, PATH_SEPARATOR);
    var currentMap := configMap;
    for i := 0 to |keys|
      invariant currentMap in maps
      invariant GetKeys(configMap.kids, keys) == GetKeys(currentMap.kids, keys[i..])
    {
      assert Faithful(currentMap, maps);
      assert keys[i..][1..] == keys[i + 1..];
      if keys[i] !in currentMap.slots || currentMap.slots[keys[i]] == Value(Null) {
        return Value(Null);
      }
      var item := currentMap.slots[keys[i]];
      assert SlotHolds(currentMap, keys[i], currentMap.kids[keys[i]], maps);
      if item.Value? {
        return item;
      }
      currentMap := item.m;
    }
    return Value(Null);
  }

  /**
   While the cursor is at `cur`, every map is faithful except that the place
   where `cur` sits already stands for what `cur` is going to be.
   */
  ghost predicate Awaiting(m: Map, cur: Map, keys: Walk, value: Item, maps: set<Map>)
    reads m, cur, maps
  {
    && m.parent != m
    && m.slots.Keys == m.kids.Keys
    && forall k :: k in m.slots ==>
         if m == cur.parent && k == cur.place && m.slots[k] == Submap(cur)
         then m.kids[k] == Dir(SetKeys(cur.kids, keys, value))
         else SlotHolds(m, k, m.kids[k], maps)
  }

  /** The cursor's map takes its future value, and the map it leads to becomes the awaited one. */
  ghost method Foresee(cur: Map, next: Map, keys: Walk, value: Item, maps: set<Map>)
    requires cur in maps && keys != [] && keys[0] in cur.slots && cur.slots[keys[0]] == Submap(next)
    requires forall m :: m in maps ==> Awaiting(m, cur, keys, value, maps)
    modifies cur`kids
    ensures next in maps && next.parent == cur
    ensures cur.kids == SetKeys(old(cur.kids), keys, value)
    ensures forall m :: m in maps ==> Awaiting(m, next, keys[1..], value, maps)
  {
    assert Awaiting(cur, cur, keys, value, maps);
    assert SlotHolds(cur, keys[0], cur.kids[keys[0]], maps);
    cur.kids := SetKeys(cur.kids, keys, value);
    forall m | m in maps
      ensures Awaiting(m, next, keys[1..], value, maps)
    {
      assert old(Awaiting(m, cur, keys, value, maps));
      forall k | k in m.slots && (m != cur || k != keys[0])
        ensures SlotHolds(m, k, m.kids[k], maps)
      {
        if !(m == cur.parent && k == cur.place && m.slots[k] == Submap(cur)) {
          assert old(SlotHolds(m, k, m.kids[k], maps));
        }
      }
    }
  }

  /** The write at the end of the walk; the awaited value is reached. */
  method Write(cur: Map, key: string, ghost keys: Walk, value: Item, ghost maps: set<Map>)
    requires cur in maps && keys != [] && keys[0] == key && !value.Dir?
    requires key in cur.slots ==> cur.slots[key].Value?
    requires forall m :: m in maps ==> Awaiting(m, cur, keys, value, maps)
    modifies cur
    ensures cur.kids == SetKeys(old(cur.kids), keys, value)
    ensures forall m :: m in maps ==> Faithful(m, maps)
  {
    assert Awaiting(cur, cur, keys, value, maps);
    cur.slots := cur.slots[key := Value(value)];
    cur.kids := cur.kids[key := value];
    forall m | m in maps
      ensures Faithful(m, maps)
    {
      assert old(Awaiting(m, cur, keys, value, maps));
    }
  }

  /** The write of a key of the root that is the path itself. */
  method Replace(configMap: Map, path: string, value: Item, ghost maps: set<Map>)
    requires Valid(configMap, maps) && !value.Dir?
    modifies configMap
    ensures Valid(configMap, maps)
    ensures configMap.kids == old(configMap.kids)[path := value]
  {
    configMap.slots := configMap.slots[path := Value(value)];
    configMap.kids := configMap.kids[path := value];
    forall m | m in maps
      ensures Faithful(m, maps)
    {
      assert old(Faithful(m, maps));
    }
  }

  method SetConfigMapValue(path: string, value: Item, configMap: Map, ghost maps: set<Map>)
    requires Valid(configMap, maps) && !value.Dir?
    modifies maps
    ensures Valid(configMap, maps)
    ensures configMap.kids == Set(old(configMap.kids), path, value)
  {
    if path in configMap.slots {
      Replace(configMap, path, value, maps);
      return;
    }
    var keys := Split.Cut(path, PATH_SEPARATOR);
    var currentMap := configMap;
    for i := 0 to |keys|
      invariant currentMap in maps
      invariant forall m :: m in maps ==> Awaiting(m, currentMap, keys[i..], value, maps)
      invariant if i == 0 then currentMap == configMap && configMap.kids == old(configMap.kids)
                else currentMap != configMap && configMap.kids == SetKeys(old(configMap.kids), keys, value)
    {
      var key := keys[i];
      assert keys[i..][1..] == keys[i + 1..];
      assert Awaiting(currentMap, currentMap, keys[i..], value, maps);
      if key !in currentMap.slots || currentMap.slots[key].Value? {
        Write(currentMap, key, keys[i..], value, maps);
        return;
      }
      var next := currentMap.slots[key].m;
      Foresee(currentMap, next, keys[i..], value, maps);
      currentMap := next;
    }
  }

  // --------------------------------------------------------- path enumeration

  /** `walks` lists every leaf that starts with one of the keys in `tops` once, and nothing else. */
  ghost predicate Lists(walks: seq<Walk>, kids: Kids, tops: set<string>) {
    && (forall w :: w in walks <==> IsLeaf(Dir(kids), w) && w[0] in tops)
    && (forall i, j :: 0 <= i < j < |walks| ==> walks[i] != walks[j])
  }

  ghost predicate ListsAll(walks: seq<Walk>, kids: Kids) {
    Lists(walks, kids, kids.Keys)
  }

  ghost function PathsOf(walks: seq<Walk>): seq<string> {
    seq(|walks|, i requires 0 <= i < |walks| => PathOf(walks[i]))
  }

  ghost function Under(key: string, walks: seq<Walk>): seq<Walk> {
    seq(|walks|, i requires 0 <= i < |walks| => [key] + walks[i])
  }

  lemma PathBelow(key: string, w: Walk)
    requires w != []
    ensures PathOf([key] + w) == key + [PATH_SEPARATOR] + PathOf(w)
  {
    assert ([key] + w)[1..] == w;
  }

  lemma ListLeaf(walks: seq<Walk>, kids: Kids, tops: set<string>, key: string)
    requires Lists(walks, kids, tops) && key in kids && key !in tops && !kids[key].Dir?
    ensures Lists(walks + [[key]], kids, tops + {key})
  {
    assert IsLeaf(Dir(kids), [key]) by {
      assert [key][1..] == [] && IsLeaf(kids[key], []);
    }
    forall w
      ensures w in walks + [[key]] <==> IsLeaf(Dir(kids), w) && w[0] in tops + {key}
    {
      assert w in walks + [[key]] <==> w in walks || w == [key];
      if IsLeaf(Dir(kids), w) && w[0] == key {
        assert IsLeaf(kids[key], w[1..]);
        assert w == [key] + w[1..] && w[1..] == [];
      }
    }
    assert [key] !in walks by {
      assert [key][0] == key;
    }
  }

  lemma ListBelow(walks: seq<Walk>, kids: Kids, tops: set<string>, key: string, below: seq<Walk>)
    requires Lists(walks, kids, tops) && key in kids && key !in tops
    requires kids[key].Dir? && ListsAll(below, kids[key].kids)
    ensures Lists(walks + Under(key, below), kids, tops + {key})
  {
    var more := Under(key, below);
    forall w
      ensures w in more <==> IsLeaf(Dir(kids), w) && w[0] == key
    {
      if w in more {
        var i :| 0 <= i < |more| && more[i] == w;
        assert w[1..] == below[i] && below[i] in below;
      }
      if IsLeaf(Dir(kids), w) && w[0] == key {
        assert w == [key] + w[1..];
        assert IsLeaf(Dir(kids[key].kids), w[1..]);
        var i :| 0 <= i < |below| && below[i] == w[1..];
        assert more[i] == w;
      }
    }
    forall i, j | 0 <= i < j < |more|
      ensures more[i] != more[j]
    {
      assert more[i][1..] == below[i] && more[j][1..] == below[j];
    }
    forall i, j | 0 <= i < |walks| && 0 <= j < |more|
      ensures walks[i] != more[j]
    {
      assert walks[i] in walks && more[j] in more;
    }
  }

  lemma {:induction false} CountListed(walks: seq<Walk>, all: set<Walk>)
    requires forall w :: w in walks <==> w in all
    requires forall i, j :: 0 <= i < j < |walks| ==> walks[i] != walks[j]
    ensures |walks| == |all|
    decreases walks
  {
    if walks != [] {
      var rest := walks[1..];
      forall w
        ensures w in rest <==> w in all - {walks[0]}
      {
        assert walks == [walks[0]] + rest;
      }
      CountListed(rest, all - {walks[0]});
    }
  }

  lemma ListedPaths(walks: seq<Walk>, kids: Kids)
    requires ListsAll(walks, kids)
    ensures |PathsOf(walks)| == |Leaves(Dir(kids))|
    ensures forall path :: path in PathsOf(walks) <==> exists w :: IsLeaf(Dir(kids), w) && PathOf(w) == path
  {
    forall w
      ensures w in walks <==> w in Leaves(Dir(kids))
    {
      LeavesAreLeaves(Dir(kids), w);
    }
    CountListed(walks, Leaves(Dir(kids)));
    forall path
      ensures path in PathsOf(walks) <==> exists w :: IsLeaf(Dir(kids), w) && PathOf(w) == path
    {
      PathListed(walks, path);
      if w :| IsLeaf(Dir(kids), w) && PathOf(w) == path {
        assert w in walks;
      }
    }
  }

  /** The paths below `key`, prefixed with it, behind those found before. */
  method AppendBelow(before: seq<string>, ghost walks: seq<Walk>, key: string, subPaths: seq<string>,
                     ghost subWalks: seq<Walk>)
    returns (paths: seq<string>)
    requires before == PathsOf(walks) && subPaths == PathsOf(subWalks)
    requires forall w :: w in subWalks ==> w != []
    ensures paths == PathsOf(walks + Under(key, subWalks))
  {
    paths := before;
    for j := 0 to |subPaths|
      invariant paths == PathsOf(walks + Under(key, subWalks)[..j])
    {
      assert subWalks[j] in subWalks;
      PathBelow(key, subWalks[j]);
      paths := paths + [key + [PATH_SEPARATOR] + subPaths[j]];
    }
  }

  /** The paths of the settings, as many as there are settings, in whatever order the maps are visited. */
  method BuildPaths(keyMap: Map, ghost maps: set<Map>) returns (paths: seq<string>, ghost walks: seq<Walk>)
    requires keyMap in maps && forall m :: m in maps ==> Faithful(m, maps)
    ensures |paths| == |Leaves(Dir(keyMap.kids))|
    ensures forall path :: path in paths <==> exists w :: IsLeaf(Dir(keyMap.kids), w) && PathOf(w) == path
    ensures ListsAll(walks, keyMap.kids) && paths == PathsOf(walks)
    decreases Dir(keyMap.kids)
  {
    paths, walks := [], [];
    var rest := keyMap.slots.Keys;
    assert Faithful(keyMap, maps);
    while rest != {}
      invariant rest <= keyMap.slots.Keys
      invariant Lists(walks, keyMap.kids, keyMap.slots.Keys - rest)
      invariant paths == PathsOf(walks)
    {
      var key :| key in rest;
      ghost var tops := keyMap.slots.Keys - rest;
      rest := rest - {key};
      assert keyMap.slots.Keys - rest == tops + {key};
      assert SlotHolds(keyMap, key, keyMap.kids[key], maps);
      match keyMap.slots[key]
      case Value(_) =>
        ListLeaf(walks, keyMap.kids, tops, key);
        paths, walks := paths + [key], walks + [[key]];
      case Submap(subMap) =>
        var subPaths, subWalks := BuildPaths(subMap, maps);
        ListBelow(walks, keyMap.kids, tops, key, subWalks);
        paths := AppendBelow(paths, walks, key, subPaths, subWalks);
        walks := walks + Under(key, subWalks);
    }
    assert keyMap.slots.Keys - rest == keyMap.kids.Keys;
    ListedPaths(walks, keyMap.kids);
  }

  // ---------------------------------------------------------------- overriding

  datatype Report = Count(n: nat) | Error | Panic

  method ConvertToType(prior: Slot, value: string, p: Platform, ghost item: Item, ghost maps: set<Map>)
    returns (c: Conversion)
    requires Stands(prior, item, maps)
    ensures c == Convert(item, value, p)
  {
    c := if prior.Submap? then Rejected else Convert(prior.item, value, p);
  }

  lemma {:induction false} ApplyMore(kids: Kids, count: nat, done: seq<string>, more: seq<string>, vars: Vars,
                                     names: map<string, string>, p: Platform)
    requires forall v :: v in done + more ==> v in vars
    ensures var r := Apply(kids, count, done, vars, names, p);
            Apply(kids, count, done + more, vars, names, p) ==
            if r.Done? then Apply(r.kids, r.count, more, vars, names, p) else r
    decreases done
  {
    if done == [] {
      assert done + more == more;
    } else {
      assert (done + more)[1..] == done[1..] + more;
      if done[0] !in names {
        ApplyMore(kids, count, done[1..], more, vars, names, p);
      } else {
        match Convert(Get(kids, names[done[0]]), vars[done[0]], p)
        case Converted(updated) =>
          ApplyMore(Set(kids, names[done[0]], updated), count + 1, done[1..], more, vars, names, p);
        case _ =>
      }
    }
  }

  lemma {:induction false} Listing(s: set<string>) returns (order: seq<string>)
    ensures forall v :: v in order <==> v in s
    ensures forall i, j :: 0 <= i < j < |order| ==> order[i] != order[j]
    decreases s
  {
    if s == {} {
      order := [];
    } else {
      var v :| v in s;
      var rest := Listing(s - {v});
      order := [v] + rest;
    }
  }

  lemma PathListed(walks: seq<Walk>, path: string)
    ensures path in PathsOf(walks) <==> exists w :: w in walks && PathOf(w) == path
  {
    var paths := PathsOf(walks);
    if path in paths {
      var i :| 0 <= i < |paths| && paths[i] == path;
      assert walks[i] in walks;
    }
    if w :| w in walks && PathOf(w) == path {
      var i :| 0 <= i < |walks| && walks[i] == w;
      assert paths[i] == path;
    }
  }

  /** The name table of a complete listing leads every variable that names a leaf to a leaf that it names. */
  lemma ListedTable(walks: seq<Walk>, kids: Kids, vars: Vars, p: Platform)
    requires ListsAll(walks, kids)
    ensures FromLeaves(kids, NameTable(PathsOf(walks), p), vars, p)
  {
    var paths := PathsOf(walks);
    var names := NameTable(paths, p);
    NameTableEntries(paths, p);
    forall n | n in names
      ensures exists u :: IsLeaf(Dir(kids), u) && NameOf(u, p) == n && names[n] == PathOf(u)
    {
      PathListed(walks, names[n]);
      var u :| u in walks && PathOf(u) == names[n];
      assert NameOf(u, p) == n;
    }
    forall w | IsLeaf(Dir(kids), w)
      ensures NameOf(w, p) in names
    {
      assert w in walks;
      PathListed(walks, PathOf(w));
      assert PathOf(w) in paths;
    }
  }

  lemma DistinctTable(kids: Kids, names: map<string, string>, vars: Vars, p: Platform)
    requires FromLeaves(kids, names, vars, p) && DistinctNames(kids, Named(p), vars)
    ensures IsTable(kids, Named(p), names, vars)
  {
    forall w | IsLeaf(Dir(kids), w) && Hit(Named(p)(w), vars)
      ensures NameOf(w, p) in names && names[NameOf(w, p)] == PathOf(w)
    {
      assert OwnName(kids, w, Named(p));
      var u :| IsLeaf(Dir(kids), u) && NameOf(u, p) == NameOf(w, p) && names[NameOf(w, p)] == PathOf(u);
      assert Named(p)(u) == Named(p)(w);
    }
    forall n | n in names && n in vars
      ensures exists w :: IsLeaf(Dir(kids), w) && Named(p)(w) == Some(n)
    {
      var w :| IsLeaf(Dir(kids), w) && NameOf(w, p) == n;
      assert Named(p)(w) == Some(n);
    }
  }

  /** What a run comes to when the leaves whose variables are set can be addressed. */
  ghost predicate Concluded(kids: Kids, names: map<string, string>, vars: Vars, p: Platform, r: Outcome) {
    Addressed(kids, Named(p), vars) ==>
      && Overrides(kids, Chosen(names, p), vars, p, r)
      && (DistinctNames(kids, Named(p), vars) ==>
            Overrides(kids, Named(p), vars, p, r) && (r.Done? ==> OverridesSpelled(kids, vars, p, r)))
  }

  lemma ConcludeRun(kids: Kids, walks: seq<Walk>, order: seq<string>, vars: Vars, p: Platform)
    requires ListsAll(walks, kids) && Enumerates(order, vars)
    ensures var names := NameTable(PathsOf(walks), p);
            var r := Apply(kids, 0, order, vars, names, p);
            Concluded(kids, names, vars, p, r)
  {
    var names := NameTable(PathsOf(walks), p);
    ListedTable(walks, kids, vars, p);
    if Addressed(kids, Named(p), vars) {
      RunFollowsTable(kids, order, vars, names, p);
    }
    if Addressed(kids, Named(p), vars) && DistinctNames(kids, Named(p), vars) {
      DistinctTable(kids, names, vars, p);
      OverrideIsOrderFree(kids, Named(p), order, vars, names, p);
      if Apply(kids, 0, order, vars, names, p).Done? {
        OverridesBySpelling(kids, vars, p, Apply(kids, 0, order, vars, names, p));
      }
    }
  }

  /** One variable that matches a path: read, convert, and write if the conversion succeeded. */
  method OverrideOne(path: string, envValue: string, p: Platform, configMap: Map, ghost maps: set<Map>)
    returns (c: Conversion)
    requires Valid(configMap, maps)
    modifies maps
    ensures Valid(configMap, maps)
    ensures c == Convert(Get(old(configMap.kids), path), envValue, p)
    ensures configMap.kids == if c.Converted? then Set(old(configMap.kids), path, c.value) else old(configMap.kids)
  {
    var oldValue := GetConfigMapValue(path, configMap, maps);
    ghost var prior := Get(configMap.kids, path);
    c := ConvertToType(oldValue, envValue, p, prior, maps);
    if c.Converted? {
      ConvertIsStable(prior, envValue, p);
      SetConfigMapValue(path, c.value, configMap, maps);
    }
  }

  lemma DistinctAppend(a: seq<string>, b: seq<string>)
    requires forall i, j :: 0 <= i < j < |a| ==> a[i] != a[j]
    requires forall i, j :: 0 <= i < j < |b| ==> b[i] != b[j]
    requires forall v :: v in a ==> v !in b
    ensures forall i, j :: 0 <= i < j < |a + b| ==> (a + b)[i] != (a + b)[j]
  {
    forall i, j | 0 <= i < |a| && 0 <= j < |b|
      ensures a[i] != b[j]
    {
      assert a[i] in a && b[j] in b;
    }
  }

  /** The loop over the environment, in whatever order it is visited. */
  method ApplyVariables(configMap: Map, vars: Vars, overrideNames: map<string, string>, p: Platform,
                        ghost maps: set<Map>)
    returns (report: Report, ghost order: seq<string>)
    requires Valid(configMap, maps)
    modifies maps
    ensures Valid(configMap, maps)
    ensures Enumerates(order, vars)
    ensures var r := Apply(old(configMap.kids), 0, order, vars, overrideNames, p);
            && configMap.kids == r.kids
            && report == match r
                         case Done(_, count) => Count(count)
                         case Failed(_) => Error
                         case Crashed(_) => Panic
  {
    ghost var kids := configMap.kids;
    order := [];
    var count := 0;
    var rest := vars.Keys;
    while rest != {}
      invariant rest <= vars.Keys
      invariant Valid(configMap, maps)
      invariant forall v :: v in order <==> v in vars.Keys - rest
      invariant forall i, j :: 0 <= i < j < |order| ==> order[i] != order[j]
      invariant Apply(kids, 0, order, vars, overrideNames, p) == Done(configMap.kids, count)
    {
      var envVar :| envVar in rest;
      rest := rest - {envVar};
      ApplyMore(kids, 0, order, [envVar], vars, overrideNames, p);
      DistinctAppend(order, [envVar]);
      order := order + [envVar];
      if envVar in overrideNames {
        var c := OverrideOne(overrideNames[envVar], vars[envVar], p, configMap, maps);
        if !c.Converted? {
          report := if c.Rejected? then Error else Panic;
          ghost var unseen := Listing(rest);
          ApplyMore(kids, 0, order, unseen, vars, overrideNames, p);
          DistinctAppend(order, unseen);
          order := order + unseen;
          return;
        }
        count := count + 1;
      }
    }
    report := Count(count);
  }

  /**
   One run over some enumeration of the leaves and some order of the variables.
   On every input it does what `Apply` says for that enumeration and order. When
   the leaves whose variables are set can be addressed, it overrides those that
   the enumeration left in the name table; when they share no name, neither
   enumeration nor order matters.
   */
  method OverrideConfigMapValues(configMap: Map, vars: Vars, p: Platform, ghost maps: set<Map>)
    returns (report: Report, ghost walks: seq<Walk>, ghost order: seq<string>)
    requires Valid(configMap, maps)
    modifies maps
    ensures Valid(configMap, maps)
    ensures ListsAll(walks, old(configMap.kids)) && Enumerates(order, vars)
    ensures var r := Apply(old(configMap.kids), 0, order, vars, NameTable(PathsOf(walks), p), p);
            && configMap.kids == r.kids
            && (report == match r
                          case Done(_, count) => Count(count)
                          case Failed(_) => Error
                          case Crashed(_) => Panic)
            && Concluded(old(configMap.kids), NameTable(PathsOf(walks), p), vars, p, r)
  {
    ghost var kids := configMap.kids;
    var paths;
    paths, walks := BuildPaths(configMap, maps);
    var overrideNames := BuildOverrideNames(paths, p);
    report, order := ApplyVariables(configMap, vars, overrideNames, p, maps);
    ConcludeRun(kids, walks, order, vars, p);
  }
}
