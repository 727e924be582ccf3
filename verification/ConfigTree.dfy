/**
 The values a decoded configuration holds, the two ways its leaves are named
 (by the walk of keys that leads to them and by a `/`-separated path), and the
 reads and writes of pkg/bootstrap/environment/variables.go as functions on
 values. The in-place versions are in ConfigMap.dfy.
 */
module ConfigTree {
  import Split

  /** The Go basic types that strconv can produce. */
  datatype Kind =
    | Bool
    | Int | Int8 | Int16 | Int32 | Int64
    | Uint | Uint8 | Uint16 | Uint32 | Uint64
    | Float32 | Float64

  datatype Item =
    | Null
    | Text(text: string)
    | Strings(elements: seq<string>)
    | List(items: seq<Item>)
    | Basic(kind: Kind, code: int)
    | Unsupported(goType: string)
    | Dir(kids: map<string, Item>)

  type Kids = map<string, Item>

  type Walk = seq<string>

  const PATH_SEPARATOR := '/'

  // ---------------------------------------------------------------- leaves

  predicate IsLeaf(t: Item, w: Walk) {
    if w == [] then !t.Dir?
    else t.Dir? && w[0] in t.kids && IsLeaf(t.kids[w[0]], w[1..])
  }

  function At(t: Item, w: Walk): Item
    requires IsLeaf(t, w)
  {
    if w == [] then t else At(t.kids[w[0]], w[1..])
  }

  function Put(t: Item, w: Walk, v: Item): Item
    requires IsLeaf(t, w)
  {
    if w == [] then v else Dir(t.kids[w[0] := Put(t.kids[w[0]], w[1..], v)])
  }

  function Leaves(t: Item): set<Walk> {
    if t.Dir? then set k, w | k in t.kids && w in Leaves(t.kids[k]) :: [k] + w else {[]}
  }

  lemma {:induction false} LeavesAreLeaves(t: Item, w: Walk)
    ensures w in Leaves(t) <==> IsLeaf(t, w)
  {
    if t.Dir? && w != [] && w[0] in t.kids {
      LeavesAreLeaves(t.kids[w[0]], w[1..]);
      assert w == [w[0]] + w[1..];
      if w in Leaves(t) {
        var k, v :| k in t.kids && v in Leaves(t.kids[k]) && w == [k] + v;
        assert v == w[1..];
      }
    }
  }

  function PathOf(w: Walk): string {
    Split.Glue(w, PATH_SEPARATOR)
  }

  // ------------------------------------------------------ reading by a path

  function GetKeys(kids: Kids, keys: Walk): Item
    decreases keys
  {
    if keys == [] || keys[0] !in kids || kids[keys[0]].Null? then Null
    else if kids[keys[0]].Dir? then GetKeys(kids[keys[0]].kids, keys[1..])
    else kids[keys[0]]
  }

  function Get(kids: Kids, path: string): Item {
    if path in kids then kids[path] else GetKeys(kids, Split.Cut(path, PATH_SEPARATOR))
  }

  // ------------------------------------------------------ writing by a path

  function SetKeys(kids: Kids, keys: Walk, v: Item): Kids
    decreases keys
  {
    if keys == [] then kids
    else if keys[0] in kids && kids[keys[0]].Dir? then
      kids[keys[0] := Dir(SetKeys(kids[keys[0]].kids, keys[1..], v))]
    else kids[keys[0] := v]
  }

  function Set(kids: Kids, path: string, v: Item): Kids {
    if path in kids then kids[path := v] else SetKeys(kids, Split.Cut(path, PATH_SEPARATOR), v)
  }

  /** Where reads and writes of a path end up. */
  function LocateKeys(kids: Kids, keys: Walk): Walk
    decreases keys
  {
    if keys == [] then []
    else if keys[0] in kids && kids[keys[0]].Dir? then
      [keys[0]] + LocateKeys(kids[keys[0]].kids, keys[1..])
    else [keys[0]]
  }

  function Locate(kids: Kids, path: string): Walk {
    if path in kids then [path] else LocateKeys(kids, Split.Cut(path, PATH_SEPARATOR))
  }

  /** All keys lead into maps, so the walk ends at a map and not at a setting. */
  predicate NamesMap(kids: Kids, keys: Walk)
    decreases keys
  {
    keys == [] || (keys[0] in kids && kids[keys[0]].Dir? && NamesMap(kids[keys[0]].kids, keys[1..]))
  }

  /** The walk falls off the tree at a key that is not there. */
  predicate Missing(kids: Kids, keys: Walk)
    decreases keys
  {
    keys != [] &&
    (keys[0] !in kids || (kids[keys[0]].Dir? && Missing(kids[keys[0]].kids, keys[1..])))
  }

  // -------------------------------------------------------------- lens laws

  lemma {:induction false} SetKeysGetKeys(kids: Kids, keys: Walk, v: Item)
    requires !v.Dir?
    ensures NamesMap(kids, keys) ==> SetKeys(kids, keys, v) == kids && GetKeys(kids, keys) == Null
    ensures !NamesMap(kids, keys) ==> GetKeys(SetKeys(kids, keys, v), keys) == v
    decreases keys
  {
    if keys != [] && keys[0] in kids && kids[keys[0]].Dir? {
      SetKeysGetKeys(kids[keys[0]].kids, keys[1..], v);
    }
  }

  /** A path without its own top-level key can only become one if it has no separator. */
  lemma FreshTopKey(kids: Kids, path: string, v: Item)
    requires path !in kids && path in Set(kids, path, v)
    ensures Split.Cut(path, PATH_SEPARATOR) == [path]
  {
    var keys := Split.Cut(path, PATH_SEPARATOR);
    Split.GlueCut(path, PATH_SEPARATOR);
    assert path == keys[0];
    assert |keys| == 1;
  }

  /** A written value is read back exactly when the path does not name a map. */
  lemma SetThenGet(kids: Kids, path: string, v: Item)
    requires !v.Dir? && !v.Null?
    ensures Get(Set(kids, path, v), path) == v <==>
            path in kids || !NamesMap(kids, Split.Cut(path, PATH_SEPARATOR))
  {
    if path !in kids {
      SetKeysGetKeys(kids, Split.Cut(path, PATH_SEPARATOR), v);
      if path in Set(kids, path, v) {
        FreshTopKey(kids, path, v);
      }
    }
  }

  lemma {:induction false} SetKeysTwice(kids: Kids, keys: Walk, v: Item, w: Item)
    requires !v.Dir?
    ensures SetKeys(SetKeys(kids, keys, v), keys, w) == SetKeys(kids, keys, w)
    decreases keys
  {
    if keys != [] && keys[0] in kids && kids[keys[0]].Dir? {
      SetKeysTwice(kids[keys[0]].kids, keys[1..], v, w);
    }
  }

  /** Of two writes to one path the second wins, whatever the tree and the path. */
  lemma SetTwice(kids: Kids, path: string, v: Item, w: Item)
    requires !v.Dir?
    ensures Set(Set(kids, path, v), path, w) == Set(kids, path, w)
  {
    if path !in kids {
      SetKeysTwice(kids, Split.Cut(path, PATH_SEPARATOR), v, w);
      if path in Set(kids, path, v) {
        FreshTopKey(kids, path, v);
      }
    }
  }

  lemma {:induction false} SetKeysSame(kids: Kids, keys: Walk)
    ensures SetKeys(kids, keys, GetKeys(kids, keys)) == kids <==> !Missing(kids, keys)
    decreases keys
  {
    if keys != [] && keys[0] in kids && kids[keys[0]].Dir? {
      SetKeysSame(kids[keys[0]].kids, keys[1..]);
      assert SetKeys(kids, keys, GetKeys(kids, keys))[keys[0]] ==
             Dir(SetKeys(kids[keys[0]].kids, keys[1..], GetKeys(kids, keys)));
    }
  }

  /** Writing back what was read changes nothing exactly when the path was there. */
  lemma SetSame(kids: Kids, path: string)
    ensures Set(kids, path, Get(kids, path)) == kids <==>
            path in kids || !Missing(kids, Split.Cut(path, PATH_SEPARATOR))
  {
    SetKeysSame(kids, Split.Cut(path, PATH_SEPARATOR));
  }

  lemma {:induction false} SetKeysFrame(kids: Kids, keys: Walk, v: Item, w: Walk)
    requires !v.Dir? && w != LocateKeys(kids, keys)
    ensures IsLeaf(Dir(SetKeys(kids, keys, v)), w) <==> IsLeaf(Dir(kids), w)
    ensures IsLeaf(Dir(kids), w) ==> At(Dir(SetKeys(kids, keys, v)), w) == At(Dir(kids), w)
    decreases keys
  {
    if keys != [] && w != [] && w[0] == keys[0] {
      if keys[0] in kids && kids[keys[0]].Dir? {
        assert w == [w[0]] + w[1..];
        SetKeysFrame(kids[keys[0]].kids, keys[1..], v, w[1..]);
      } else {
        assert w == [w[0]] + w[1..];
      }
    }
  }

  /**
   A write touches one leaf: every other walk is a leaf after iff it was one
   before, with the same value; but a top-level key that holds a map and is
   written as a path takes everything below it away.
   */
  lemma SetFrame(kids: Kids, path: string, v: Item, w: Walk)
    requires !v.Dir? && w != Locate(kids, path)
    ensures var replaced := path in kids && kids[path].Dir? && w != [] && w[0] == path;
            IsLeaf(Dir(Set(kids, path, v)), w) <==> IsLeaf(Dir(kids), w) && !replaced
    ensures IsLeaf(Dir(Set(kids, path, v)), w) ==> At(Dir(Set(kids, path, v)), w) == At(Dir(kids), w)
  {
    if path !in kids {
      SetKeysFrame(kids, Split.Cut(path, PATH_SEPARATOR), v, w);
    } else if w != [] {
      assert w == [w[0]] + w[1..];
    }
  }

  // ------------------------------------------------- paths and their leaves

  lemma {:induction false} LocateKeysPrefix(kids: Kids, keys: Walk)
    ensures |LocateKeys(kids, keys)| <= |keys|
    ensures LocateKeys(kids, keys) == keys[..|LocateKeys(kids, keys)|]
    decreases keys
  {
    if keys != [] && keys[0] in kids && kids[keys[0]].Dir? {
      LocateKeysPrefix(kids[keys[0]].kids, keys[1..]);
    }
  }

  lemma {:induction false} LocateLeaf(kids: Kids, w: Walk)
    requires IsLeaf(Dir(kids), w)
    ensures LocateKeys(kids, w) == w
    ensures GetKeys(kids, w) == At(Dir(kids), w)
    ensures forall v :: Dir(SetKeys(kids, w, v)) == Put(Dir(kids), w, v)
    decreases w
  {
    assert w == [w[0]] + w[1..];
    if kids[w[0]].Dir? {
      LocateLeaf(kids[w[0]].kids, w[1..]);
    } else {
      assert w[1..] == [];
    }
  }

  lemma {:induction false} LocateKeysShortest(kids: Kids, keys: Walk)
    ensures LocateKeys(kids, keys) <= keys
    ensures forall n :: 0 <= n < |LocateKeys(kids, keys)| ==> NamesMap(kids, keys[..n])
    ensures NamesMap(kids, LocateKeys(kids, keys)) ==> LocateKeys(kids, keys) == keys
    decreases keys
  {
    if keys != [] && keys[0] in kids && kids[keys[0]].Dir? {
      var below := kids[keys[0]].kids;
      LocateKeysShortest(below, keys[1..]);
      forall n | 0 < n < |LocateKeys(kids, keys)|
        ensures NamesMap(kids, keys[..n])
      {
        assert keys[..n][1..] == keys[1..][..n - 1];
      }
      assert LocateKeys(kids, keys)[1..] == LocateKeys(below, keys[1..]);
      assert keys == [keys[0]] + keys[1..];
    }
  }

  lemma {:induction false} SetKeysPlaces(kids: Kids, keys: Walk, v: Item)
    requires !v.Dir? && !NamesMap(kids, keys)
    ensures var w, after := LocateKeys(kids, keys), Dir(SetKeys(kids, keys, v));
            IsLeaf(after, w) && At(after, w) == v
    decreases keys
  {
    if kids != map[] && keys[0] in kids && kids[keys[0]].Dir? {
      SetKeysPlaces(kids[keys[0]].kids, keys[1..], v);
      assert LocateKeys(kids, keys)[1..] == LocateKeys(kids[keys[0]].kids, keys[1..]);
    }
  }

  /**
   Where a write of a setting puts it: at the top-level key that is the path, or
   else at the first key on the way that does not lead into a map, and there only.
   */
  lemma SetPlaces(kids: Kids, path: string, v: Item)
    requires !v.Dir?
    ensures var keys, w := Split.Cut(path, '/'), Locate(kids, path);
            var after := Dir(Set(kids, path, v));
            if path in kids then w == [path] && IsLeaf(after, w) && At(after, w) == v
            else if NamesMap(kids, keys) then after == Dir(kids)
            else
              && w <= keys && !NamesMap(kids, w) && (forall n :: 0 <= n < |w| ==> NamesMap(kids, keys[..n]))
              && IsLeaf(after, w) && At(after, w) == v
  {
    var keys := Split.Cut(path, '/');
    if path in kids {
      assert [path][1..] == [];
    } else if NamesMap(kids, keys) {
      SetKeysGetKeys(kids, keys, v);
    } else {
      LocateKeysShortest(kids, keys);
      SetKeysPlaces(kids, keys, v);
    }
  }

  /** The leaf that the path of `w` is meant to name is the one it is resolved to. */
  ghost predicate Resolves(kids: Kids, w: Walk) {
    Locate(kids, PathOf(w)) == w
  }

  /**
   An enumerated path leads back to its own leaf exactly when the leaf is at the
   top, or no key on the way contains the separator and the joined path is not
   itself a top-level key.
   */
  lemma WalkResolves(kids: Kids, w: Walk)
    requires IsLeaf(Dir(kids), w)
    ensures Resolves(kids, w) <==> |w| == 1 || (Split.Free(w, PATH_SEPARATOR) && PathOf(w) !in kids)
  {
    var path := PathOf(w);
    if |w| == 1 {
      assert w == [path];
    } else if path in kids {
      assert |[path]| == 1;
    } else {
      var keys := Split.Cut(path, PATH_SEPARATOR);
      Split.CutIsFree(path, PATH_SEPARATOR);
      Split.CutUndoesGlue(w, PATH_SEPARATOR);
      LocateLeaf(kids, w);
      if Resolves(kids, w) {
        LocateKeysPrefix(kids, keys);
        forall key | key in w
          ensures PATH_SEPARATOR !in key
        {
          assert key in keys;
        }
      }
    }
  }

  /** A path that is also a top-level key hides the leaf it was enumerated for: the other one is read and written. */
  lemma HiddenLeaf()
    ensures var kids := map["a/b" := Text("flat"), "a" := Dir(map["b" := Text("nested")])];
            && IsLeaf(Dir(kids), ["a", "b"]) && At(Dir(kids), ["a", "b"]) == Text("nested")
            && !Resolves(kids, ["a", "b"])
            && Get(kids, PathOf(["a", "b"])) == Text("flat")
            && Set(kids, PathOf(["a", "b"]), Text("changed")) == kids["a/b" := Text("changed")]
  {
    var kids := map["a/b" := Text("flat"), "a" := Dir(map["b" := Text("nested")])];
    assert PathOf(["a", "b"]) == "a/b";
    assert Locate(kids, "a/b") == ["a/b"];
    assert ["a", "b"][1..] == ["b"] && ["b"][1..] == [];
    assert IsLeaf(kids["a"], ["b"]);
  }

  /** A resolving path reads the leaf's value and writes that leaf and nothing else. */
  lemma ResolvedAccess(kids: Kids, w: Walk, v: Item)
    requires IsLeaf(Dir(kids), w) && Resolves(kids, w)
    ensures Get(kids, PathOf(w)) == At(Dir(kids), w)
    ensures Dir(Set(kids, PathOf(w), v)) == Put(Dir(kids), w, v)
  {
    WalkResolves(kids, w);
    if |w| == 1 {
      assert w == [PathOf(w)];
    } else {
      Split.CutGlue(w, PATH_SEPARATOR);
      LocateLeaf(kids, w);
    }
  }

  lemma {:induction false} PutKeepsLeaves(t: Item, w: Walk, v: Item, u: Walk)
    requires IsLeaf(t, w) && !v.Dir?
    ensures IsLeaf(Put(t, w, v), u) <==> IsLeaf(t, u)
    ensures IsLeaf(t, u) ==> At(Put(t, w, v), u) == if u == w then v else At(t, u)
  {
    if w != [] {
      assert w == [w[0]] + w[1..];
      if u != [] && u[0] == w[0] {
        assert u == [u[0]] + u[1..];
        PutKeepsLeaves(t.kids[w[0]], w[1..], v, u[1..]);
      }
    }
  }

  // ------------------------------------------ the two forms the code accepts

  /** Every leaf can be addressed by its path. */
  ghost predicate Addressable(kids: Kids) {
    forall w :: IsLeaf(Dir(kids), w) ==> Resolves(kids, w)
  }

  /** Flattened form: the paths are the keys. */
  predicate Flat(kids: Kids) {
    forall k :: k in kids ==> !kids[k].Dir?
  }

  /** Nested form: no key contains the separator. */
  predicate Nested(t: Item) {
    t.Dir? ==> forall k :: k in t.kids ==> PATH_SEPARATOR !in k && Nested(t.kids[k])
  }

  lemma FlatIsAddressable(kids: Kids)
    requires Flat(kids)
    ensures Addressable(kids)
    ensures forall w :: IsLeaf(Dir(kids), w) <==> |w| == 1 && w[0] in kids
  {
    forall w | IsLeaf(Dir(kids), w)
      ensures |w| == 1 && Resolves(kids, w)
    {
      assert IsLeaf(kids[w[0]], w[1..]);
      WalkResolves(kids, w);
    }
  }

  lemma {:induction false} NestedWalksAreFree(t: Item, w: Walk)
    requires Nested(t) && IsLeaf(t, w)
    ensures Split.Free(w, PATH_SEPARATOR)
  {
    if w != [] {
      NestedWalksAreFree(t.kids[w[0]], w[1..]);
    }
  }

  lemma NestedIsAddressable(kids: Kids)
    requires Nested(Dir(kids))
    ensures Addressable(kids)
  {
    forall w | IsLeaf(Dir(kids), w)
      ensures Resolves(kids, w)
    {
      NestedWalksAreFree(Dir(kids), w);
      WalkResolves(kids, w);
      if |w| >= 2 {
        Split.GlueContainsSeparator(w, PATH_SEPARATOR);
      }
    }
  }

  /** Distinct leaves of an addressable tree have distinct paths. */
  lemma AddressableIsInjective(kids: Kids, v: Walk, w: Walk)
    requires Addressable(kids) && IsLeaf(Dir(kids), v) && IsLeaf(Dir(kids), w)
    requires PathOf(v) == PathOf(w)
    ensures v == w
  {
    assert Resolves(kids, v) && Resolves(kids, w);
  }
}
