/**
 Environment overrides of a configuration, as functions on values: override
 names, conversion, one run of `OverrideConfigMapValues` for a given iteration
 order, and what that run amounts to whatever the order was.
 */
module ConfigOverride {
  import opened Options
  import opened ConfigTree
  import CommaList
  import Split

  /** What the Go library contributes: `unicode.ToUpper` and `strconv`. */
  datatype Platform = Platform(upper: char -> char, parse: (Kind, string) -> Option<int>)

  type Vars = map<string, string>

  // ---------------------------------------------------------- override names

  function ReplaceChar(s: string, from: char, to: char): string {
    seq(|s|, i requires 0 <= i < |s| => if s[i] == from then to else s[i])
  }

  function OverrideName(path: string, p: Platform): string {
    var underscored := ReplaceChar(ReplaceChar(path, PATH_SEPARATOR, '_'), '-', '_');
    seq(|path|, i requires 0 <= i < |path| => p.upper(underscored[i]))
  }

  /** `name` is `path` in upper case with `/` and `-` made underscores. */
  ghost predicate Spells(name: string, path: string, p: Platform) {
    && |name| == |path|
    && forall i :: 0 <= i < |path| ==> name[i] == p.upper(if path[i] in {'/', '-'} then '_' else path[i])
  }

  /** The name of every path, character by character. */
  lemma NameIsSpelled(path: string, p: Platform)
    ensures |OverrideName(path, p)| == |path|
    ensures forall i :: 0 <= i < |path| ==>
              OverrideName(path, p)[i] == p.upper(if path[i] == '/' || path[i] == '-' then '_' else path[i])
    ensures forall name :: Spells(name, path, p) <==> name == OverrideName(path, p)
  {
    forall name | Spells(name, path, p)
      ensures name == OverrideName(path, p)
    {
      assert forall i :: 0 <= i < |path| ==> name[i] == OverrideName(path, p)[i];
    }
  }

  /** Upper-casing leaves `/`, `-` and `_` alone and makes them of nothing else, as Go's does. */
  ghost predicate PlainUpper(p: Platform) {
    forall c ::
      && (p.upper(c) == '/' <==> c == '/')
      && (p.upper(c) == '-' <==> c == '-')
      && (p.upper(c) == '_' <==> c == '_')
  }

  /** Two paths share a name exactly if they agree place by place up to case and up to `/`, `-` and `_`. */
  lemma WhenNamesCollide(a: string, b: string, p: Platform)
    requires PlainUpper(p)
    ensures OverrideName(a, p) == OverrideName(b, p) <==>
            && |a| == |b|
            && forall i :: 0 <= i < |a| ==>
                 (a[i] in {'/', '-', '_'} && b[i] in {'/', '-', '_'}) || p.upper(a[i]) == p.upper(b[i])
  {
    NameIsSpelled(a, p);
    NameIsSpelled(b, p);
    var one, two := OverrideName(a, p), OverrideName(b, p);
    if |a| == |b| {
      forall i | 0 <= i < |a|
        ensures one[i] == two[i] <==>
                (a[i] in {'/', '-', '_'} && b[i] in {'/', '-', '_'}) || p.upper(a[i]) == p.upper(b[i])
      {
        assert p.upper('_') == '_';
      }
      assert one == two <==> forall i :: 0 <= i < |a| ==> one[i] == two[i];
    }
  }

  function NameOf(w: Walk, p: Platform): string {
    OverrideName(PathOf(w), p)
  }

  function NameTable(paths: seq<string>, p: Platform): map<string, string> {
    if paths == [] then map[]
    else
      var last := paths[|paths| - 1];
      NameTable(paths[..|paths| - 1], p)[OverrideName(last, p) := last]
  }

  /** The table has the names of the paths, and each leads to the last path that has it. */
  ghost predicate LeadsToLast(names: map<string, string>, paths: seq<string>, p: Platform) {
    && (forall i :: 0 <= i < |paths| ==> exists n :: n in names && Spells(n, paths[i], p))
    && (forall n :: n in names ==>
          exists i :: 0 <= i < |paths| && paths[i] == names[n] && Spells(n, paths[i], p) &&
                      forall j :: i < j < |paths| ==> !Spells(n, paths[j], p))
  }

  lemma {:induction false} LastOfName(paths: seq<string>, p: Platform, n: string) returns (i: nat)
    requires n in NameTable(paths, p)
    ensures i < |paths| && paths[i] == NameTable(paths, p)[n] && OverrideName(paths[i], p) == n
    ensures forall j :: i < j < |paths| ==> OverrideName(paths[j], p) != n
  {
    i := |paths| - 1;
    if OverrideName(paths[i], p) != n {
      i := LastOfName(paths[..i], p, n);
    }
  }

  lemma TableLeadsToLast(paths: seq<string>, p: Platform)
    ensures LeadsToLast(NameTable(paths, p), paths, p)
  {
    forall path: string
      ensures forall n :: Spells(n, path, p) <==> n == OverrideName(path, p)
    {
      NameIsSpelled(path, p);
    }
    NameTableEntries(paths, p);
    forall i | 0 <= i < |paths|
      ensures exists n :: n in NameTable(paths, p) && Spells(n, paths[i], p)
    {
      assert paths[i] in paths && Spells(OverrideName(paths[i], p), paths[i], p);
    }
    forall n | n in NameTable(paths, p)
      ensures exists i :: 0 <= i < |paths| && paths[i] == NameTable(paths, p)[n] && Spells(n, paths[i], p) &&
                          forall j :: i < j < |paths| ==> !Spells(n, paths[j], p)
    {
      var i := LastOfName(paths, p, n);
      assert Spells(n, paths[i], p);
    }
  }

  method BuildOverrideNames(paths: seq<string>, p: Platform) returns (names: map<string, string>)
    ensures names == NameTable(paths, p)
    ensures LeadsToLast(names, paths, p)
  {
    names := map[];
    for i := 0 to |paths|
      invariant names == NameTable(paths[..i], p)
    {
      assert paths[..i + 1][..i] == paths[..i];
      names := names[OverrideName(paths[i], p) := paths[i]];
    }
    assert paths[..|paths|] == paths;
    TableLeadsToLast(paths, p);
  }

  /** Each name in the table leads to one of the paths that have it, and no path is left out. */
  lemma {:induction false} NameTableEntries(paths: seq<string>, p: Platform)
    ensures forall n :: n in NameTable(paths, p) ==>
                          NameTable(paths, p)[n] in paths && OverrideName(NameTable(paths, p)[n], p) == n
    ensures forall path :: path in paths ==> OverrideName(path, p) in NameTable(paths, p)
  {
    if paths != [] {
      NameTableEntries(paths[..|paths| - 1], p);
      assert paths == paths[..|paths| - 1] + [paths[|paths| - 1]];
    }
  }

  ghost predicate NamesDiffer(paths: seq<string>, p: Platform) {
    forall a, b :: a in paths && b in paths && OverrideName(a, p) == OverrideName(b, p) ==> a == b
  }

  ghost predicate OrderFree(paths: seq<string>, p: Platform) {
    forall other: seq<string> :: multiset(other) == multiset(paths) ==>
                                   NameTable(other, p) == NameTable(paths, p)
  }

  lemma MovedIsPermutation(paths: seq<string>, i: nat)
    requires i < |paths|
    ensures multiset(paths[..i] + paths[i + 1..] + [paths[i]]) == multiset(paths)
  {
    assert paths == paths[..i] + [paths[i]] + paths[i + 1..];
  }

  lemma LastWins(paths: seq<string>, i: nat, p: Platform)
    requires i < |paths| && OrderFree(paths, p)
    ensures OverrideName(paths[i], p) in NameTable(paths, p)
    ensures NameTable(paths, p)[OverrideName(paths[i], p)] == paths[i]
  {
    var rest := paths[..i] + paths[i + 1..];
    var moved := rest + [paths[i]];
    MovedIsPermutation(paths, i);
    assert NameTable(moved, p) == NameTable(rest, p)[OverrideName(paths[i], p) := paths[i]] by {
      assert moved[..|moved| - 1] == rest;
    }
  }

  /** The name table does not depend on the order of enumeration exactly when names differ. */
  lemma NameTableOrder(paths: seq<string>, p: Platform)
    ensures OrderFree(paths, p) <==> NamesDiffer(paths, p)
  {
    if OrderFree(paths, p) {
      forall a, b | a in paths && b in paths && OverrideName(a, p) == OverrideName(b, p)
        ensures a == b
      {
        var i :| 0 <= i < |paths| && paths[i] == a;
        var j :| 0 <= j < |paths| && paths[j] == b;
        LastWins(paths, i, p);
        LastWins(paths, j, p);
      }
    }
    if NamesDiffer(paths, p) {
      forall other: seq<string> | multiset(other) == multiset(paths)
        ensures NameTable(other, p) == NameTable(paths, p)
      {
        NameTableEntries(paths, p);
        NameTableEntries(other, p);
        forall path
          ensures path in other <==> path in paths
        {
          assert path in multiset(other) <==> path in multiset(paths);
        }
      }
    }
  }

  // -------------------------------------------------------------- conversion

  datatype Conversion = Converted(value: Item) | Rejected | Panicked

  function TextItems(texts: seq<string>): seq<Item> {
    seq(|texts|, i requires 0 <= i < |texts| => Text(texts[i]))
  }

  function Convert(prior: Item, value: string, p: Platform): Conversion {
    match prior
    case Strings(_) => Converted(List(TextItems(CommaList.Parse(value))))
    case List(_) => Converted(List(TextItems(CommaList.Parse(value))))
    case Text(_) => Converted(Text(value))
    case Basic(kind, _) =>
      (match p.parse(kind, value)
       case Some(code) => Converted(Basic(kind, code))
       case None => Rejected)
    case Unsupported(_) => Rejected
    case Dir(_) => Rejected
    // the error message asks for the type of a nil value
    case Null => Panicked
  }

  /** A converted value is a setting of a supported type, and converting it again changes nothing. */
  lemma ConvertIsStable(prior: Item, value: string, p: Platform)
    requires Convert(prior, value, p).Converted?
    ensures var updated := Convert(prior, value, p).value;
            !updated.Dir? && !updated.Null? && Convert(updated, value, p) == Converted(updated)
  {
  }

  /** What a value becomes, by its type: in terms of comma-joined lists and of what parsing gives. */
  lemma ConvertsByType(prior: Item, value: string, p: Platform)
    ensures match prior
            case Text(_) => Convert(prior, value, p) == Converted(Text(value))
            case Basic(kind, _) =>
              && (p.parse(kind, value).None? <==> Convert(prior, value, p) == Rejected)
              && (forall code :: p.parse(kind, value) == Some(code) <==>
                                 Convert(prior, value, p) == Converted(Basic(kind, code)))
            case Null => Convert(prior, value, p) == Panicked
            case Unsupported(_) => Convert(prior, value, p) == Rejected
            case Dir(_) => Convert(prior, value, p) == Rejected
            case _ =>
              forall entries: seq<string> :: value == Split.Glue(entries, ',') ==>
                var texts := seq(|entries|, i requires 0 <= i < |entries| => Text(entries[i]));
                (Convert(prior, value, p) == Converted(List(texts)) <==> CommaList.Normal(entries))
  {
    if prior.Strings? || prior.List? {
      forall entries: seq<string> | value == Split.Glue(entries, ',')
        ensures Convert(prior, value, p) == Converted(List(TextItems(entries))) <==> CommaList.Normal(entries)
      {
        CommaList.ParseUndoesGlue(entries);
        SameTexts(CommaList.Parse(value), entries);
      }
    }
  }

  lemma SameTexts(a: seq<string>, b: seq<string>)
    ensures TextItems(a) == TextItems(b) <==> a == b
  {
    if TextItems(a) == TextItems(b) {
      assert |TextItems(a)| == |a|;
      forall i | 0 <= i < |a|
        ensures a[i] == b[i]
      {
        assert TextItems(a)[i] == TextItems(b)[i];
      }
    }
  }

  // ----------------------------------------------------------------- one run

  datatype Outcome = Done(kids: Kids, count: nat) | Failed(kids: Kids) | Crashed(kids: Kids)

  function Apply(kids: Kids, count: nat, order: seq<string>, vars: Vars, names: map<string, string>,
                 p: Platform): Outcome
    requires forall v :: v in order ==> v in vars
    decreases order
  {
    if order == [] then Done(kids, count)
    else if order[0] !in names then Apply(kids, count, order[1..], vars, names, p)
    else
      match Convert(Get(kids, names[order[0]]), vars[order[0]], p)
      case Converted(updated) =>
        Apply(Set(kids, names[order[0]], updated), count + 1, order[1..], vars, names, p)
      case Rejected => Failed(kids)
      case Panicked => Crashed(kids)
  }

  // --------------------------------------------- what a run comes to

  /** The variable that overrides each leaf, if any. */
  type Naming = Walk -> Option<string>

  /** Every leaf by the variable of its own name. */
  function Named(p: Platform): Naming {
    w => Some(NameOf(w, p))
  }

  predicate Hit(name: Option<string>, vars: Vars) {
    name.Some? && name.value in vars
  }

  function NewValue(t: Item, name: Option<string>, vars: Vars, p: Platform): Item {
    if Hit(name, vars) && Convert(t, vars[name.value], p).Converted? then Convert(t, vars[name.value], p).value else t
  }

  /** Every leaf replaced by its converted variable, if that variable is set. */
  function Overridden(t: Item, above: Walk, naming: Naming, vars: Vars, p: Platform): Item {
    match t
    case Dir(kids) => Dir(map k | k in kids :: Overridden(kids[k], above + [k], naming, vars, p))
    case _ => NewValue(t, naming(above), vars, p)
  }

  /** No leaf but `w` has the name of `w`. */
  ghost predicate OwnName(kids: Kids, w: Walk, naming: Naming) {
    forall u :: IsLeaf(Dir(kids), u) && naming(u) == naming(w) ==> u == w
  }

  /** A variable that is set names at most one leaf. */
  ghost predicate DistinctNames(kids: Kids, naming: Naming, vars: Vars) {
    forall w :: IsLeaf(Dir(kids), w) && Hit(naming(w), vars) ==> OwnName(kids, w, naming)
  }

  /** A leaf whose variable is set can be addressed by its path. */
  ghost predicate Addressed(kids: Kids, naming: Naming, vars: Vars) {
    forall w :: IsLeaf(Dir(kids), w) && Hit(naming(w), vars) ==> Resolves(kids, w)
  }

  ghost predicate Convertible(kids: Kids, naming: Naming, vars: Vars, p: Platform) {
    forall w :: IsLeaf(Dir(kids), w) && Hit(naming(w), vars) ==>
                  Convert(At(Dir(kids), w), vars[naming(w).value], p).Converted?
  }

  function Matching(kids: Kids, naming: Naming, vars: Vars): set<Walk> {
    set w | w in Leaves(Dir(kids)) && Hit(naming(w), vars)
  }

  /** The table leads each variable that is set and names a leaf to that leaf's path, and no other one anywhere. */
  ghost predicate IsTable(kids: Kids, naming: Naming, names: map<string, string>, vars: Vars) {
    && (forall w :: IsLeaf(Dir(kids), w) && Hit(naming(w), vars) ==>
          naming(w).value in names && names[naming(w).value] == PathOf(w))
    && (forall n :: n in names && n in vars ==> exists w :: IsLeaf(Dir(kids), w) && naming(w) == Some(n))
  }

  ghost predicate Enumerates(order: seq<string>, vars: Vars) {
    && (forall v :: v in order <==> v in vars)
    && (forall i, j :: 0 <= i < j < |order| ==> order[i] != order[j])
  }

  /** What a run comes to if it overrides every leaf by the variable that `naming` gives it. */
  ghost predicate Overrides(kids: Kids, naming: Naming, vars: Vars, p: Platform, r: Outcome) {
    if Convertible(kids, naming, vars, p)
    then r == Done(Overridden(Dir(kids), [], naming, vars, p).kids, |Matching(kids, naming, vars)|)
    else !r.Done?
  }

  /** Leaf by leaf, and in the same places. */
  lemma {:induction false} OverriddenLeaf(t: Item, above: Walk, naming: Naming, vars: Vars, p: Platform, w: Walk)
    ensures IsLeaf(Overridden(t, above, naming, vars, p), w) <==> IsLeaf(t, w)
    ensures IsLeaf(t, w) ==>
              At(Overridden(t, above, naming, vars, p), w) == NewValue(At(t, w), naming(above + w), vars, p)
    decreases w
  {
    if w == [] {
      assert above + w == above;
    } else if t.Dir? && w[0] in t.kids {
      OverriddenLeaf(t.kids[w[0]], above + [w[0]], naming, vars, p, w[1..]);
      assert above + [w[0]] + w[1..] == above + w;
    }
  }

  lemma {:induction false} OverriddenUnnamed(t: Item, above: Walk, naming: Naming, vars: Vars, p: Platform,
                                             name: string, value: string)
    requires forall u :: IsLeaf(t, u) ==> naming(above + u) != Some(name)
    ensures Overridden(t, above, naming, vars[name := value], p) == Overridden(t, above, naming, vars, p)
    decreases t
  {
    if t.Dir? {
      forall k | k in t.kids
        ensures Overridden(t.kids[k], above + [k], naming, vars[name := value], p) ==
                Overridden(t.kids[k], above + [k], naming, vars, p)
      {
        forall u | IsLeaf(t.kids[k], u)
          ensures naming(above + [k] + u) != Some(name)
        {
          assert IsLeaf(t, [k] + u);
          assert above + [k] + u == above + ([k] + u);
        }
        OverriddenUnnamed(t.kids[k], above + [k], naming, vars, p, name, value);
      }
    } else {
      assert IsLeaf(t, []);
      assert above + [] == above;
    }
  }

  lemma {:induction false} OverriddenNothing(t: Item, above: Walk, naming: Naming, p: Platform)
    ensures Overridden(t, above, naming, map[], p) == t
    decreases t
  {
    if t.Dir? {
      forall k | k in t.kids
        ensures Overridden(t.kids[k], above + [k], naming, map[], p) == t.kids[k]
      {
        OverriddenNothing(t.kids[k], above + [k], naming, p);
      }
    }
  }

  /** Of the leaves of `t`, which hangs below `above`, only `w` can have the name of `w`. */
  ghost predicate OnlyNamed(t: Item, above: Walk, w: Walk, naming: Naming) {
    forall u :: IsLeaf(t, u) && naming(above + u) == naming(above + w) ==> u == w
  }

  lemma OnlyNamedBelow(t: Item, above: Walk, w: Walk, naming: Naming, k: string)
    requires w != [] && IsLeaf(t, w) && OnlyNamed(t, above, w, naming) && k in t.kids
    ensures above + [w[0]] + w[1..] == above + w
    ensures k == w[0] ==> OnlyNamed(t.kids[k], above + [k], w[1..], naming)
    ensures k != w[0] ==> forall u :: IsLeaf(t.kids[k], u) ==> naming(above + [k] + u) != naming(above + w)
  {
    assert above + [w[0]] + w[1..] == above + w;
    forall u | IsLeaf(t.kids[k], u) && naming(above + [k] + u) == naming(above + w)
      ensures k == w[0] && u == w[1..]
    {
      assert IsLeaf(t, [k] + u);
      assert above + [k] + u == above + ([k] + u);
    }
  }

  /** Trees that differ in one kid differ by a write below it. */
  lemma PutBelow(before: Item, after: Item, w: Walk, v: Item)
    requires before.Dir? && after.Dir? && w != [] && IsLeaf(before, w)
    requires before.kids.Keys == after.kids.Keys
    requires after.kids[w[0]] == Put(before.kids[w[0]], w[1..], v)
    requires forall k :: k in before.kids && k != w[0] ==> after.kids[k] == before.kids[k]
    ensures Put(before, w, v) == after
  {
    assert before.kids[w[0] := after.kids[w[0]]] == after.kids;
  }

  /** Writing one more variable's value into an overridden tree overrides that variable too. */
  lemma {:induction false} PutOverridden(t: Item, above: Walk, naming: Naming, vars: Vars, p: Platform, w: Walk,
                                         name: string, value: string)
    requires IsLeaf(t, w) && OnlyNamed(t, above, w, naming)
    requires Some(name) == naming(above + w) && name !in vars
    ensures IsLeaf(Overridden(t, above, naming, vars, p), w)
    ensures Put(Overridden(t, above, naming, vars, p), w, NewValue(At(t, w), Some(name), vars[name := value], p)) ==
            Overridden(t, above, naming, vars[name := value], p)
    decreases w
  {
    var more := vars[name := value];
    OverriddenLeaf(t, above, naming, vars, p, w);
    if w == [] {
      assert above + w == above;
    } else {
      var before := Overridden(t, above, naming, vars, p);
      var after := Overridden(t, above, naming, more, p);
      forall k | k in t.kids && k != w[0]
        ensures after.kids[k] == before.kids[k]
      {
        OnlyNamedBelow(t, above, w, naming, k);
        OverriddenUnnamed(t.kids[k], above + [k], naming, vars, p, name, value);
      }
      OnlyNamedBelow(t, above, w, naming, w[0]);
      PutOverridden(t.kids[w[0]], above + [w[0]], naming, vars, p, w[1..], name, value);
      PutBelow(before, after, w, NewValue(At(t, w), Some(name), more, p));
    }
  }

  lemma OverriddenResolves(kids: Kids, naming: Naming, vars: Vars, p: Platform, w: Walk)
    requires IsLeaf(Dir(kids), w)
    ensures var updated := Overridden(Dir(kids), [], naming, vars, p).kids;
            IsLeaf(Dir(updated), w) && (Resolves(updated, w) <==> Resolves(kids, w))
  {
    var updated := Overridden(Dir(kids), [], naming, vars, p).kids;
    OverriddenLeaf(Dir(kids), [], naming, vars, p, w);
    WalkResolves(kids, w);
    WalkResolves(updated, w);
  }

  lemma MatchingGrows(kids: Kids, naming: Naming, vars: Vars, w: Walk, value: string)
    requires IsLeaf(Dir(kids), w) && OwnName(kids, w, naming) && naming(w).Some? && naming(w).value !in vars
    ensures |Matching(kids, naming, vars[naming(w).value := value])| == |Matching(kids, naming, vars)| + 1
  {
    var grown := vars[naming(w).value := value];
    LeavesAreLeaves(Dir(kids), w);
    forall u | u in Leaves(Dir(kids))
      ensures IsLeaf(Dir(kids), u)
    {
      LeavesAreLeaves(Dir(kids), u);
    }
    assert Matching(kids, naming, grown) == Matching(kids, naming, vars) + {w};
  }

  /** A variable that names no leaf changes neither the result nor the count. */
  lemma ServeUnnamed(kids: Kids, naming: Naming, done: Vars, p: Platform, name: string, value: string)
    requires forall w :: IsLeaf(Dir(kids), w) ==> naming(w) != Some(name)
    ensures Overridden(Dir(kids), [], naming, done[name := value], p) == Overridden(Dir(kids), [], naming, done, p)
    ensures Matching(kids, naming, done[name := value]) == Matching(kids, naming, done)
    ensures Convertible(kids, naming, done, p) ==> Convertible(kids, naming, done[name := value], p)
  {
    forall u | IsLeaf(Dir(kids), u)
      ensures naming([] + u) != Some(name)
    {
      assert [] + u == u;
    }
    OverriddenUnnamed(Dir(kids), [], naming, done, p, name, value);
    forall u | u in Leaves(Dir(kids))
      ensures naming(u) != Some(name)
    {
      LeavesAreLeaves(Dir(kids), u);
    }
  }

  /** A variable that names the leaf `w` reads that leaf's value as it was before the run, and writes it. */
  lemma ServeNamed(kids: Kids, naming: Naming, done: Vars, p: Platform, w: Walk, value: string)
    requires IsLeaf(Dir(kids), w) && Resolves(kids, w) && OwnName(kids, w, naming)
    requires naming(w).Some? && naming(w).value !in done
    ensures var cur := Overridden(Dir(kids), [], naming, done, p).kids;
            var name := naming(w).value;
            var prior := At(Dir(kids), w);
            && Get(cur, PathOf(w)) == prior
            && (Convert(prior, value, p).Converted? ==>
                  && Dir(Set(cur, PathOf(w), Convert(prior, value, p).value)) ==
                     Overridden(Dir(kids), [], naming, done[name := value], p)
                  && |Matching(kids, naming, done[name := value])| == |Matching(kids, naming, done)| + 1
                  && (Convertible(kids, naming, done, p) ==> Convertible(kids, naming, done[name := value], p)))
  {
    var cur := Overridden(Dir(kids), [], naming, done, p).kids;
    var name := naming(w).value;
    var prior := At(Dir(kids), w);
    assert [] + w == w;
    OverriddenLeaf(Dir(kids), [], naming, done, p, w);
    OverriddenResolves(kids, naming, done, p, w);
    ResolvedAccess(cur, w, NewValue(prior, Some(name), done[name := value], p));
    if Convert(prior, value, p).Converted? {
      assert OnlyNamed(Dir(kids), [], w, naming) by {
        forall u | IsLeaf(Dir(kids), u) && naming([] + u) == naming([] + w)
          ensures u == w
        {
          assert [] + u == u;
        }
      }
      PutOverridden(Dir(kids), [], naming, done, p, w, name, value);
      MatchingGrows(kids, naming, done, w, value);
    }
  }

  /** The first variable of the rest of a run, when it names no leaf or its leaf can be converted. */
  lemma ServeFirst(kids: Kids, naming: Naming, done: Vars, order: seq<string>, vars: Vars, names: map<string, string>,
                   p: Platform, w: Walk)
    requires Addressed(kids, naming, vars) && DistinctNames(kids, naming, vars) && IsTable(kids, naming, names, vars)
    requires order != [] && order[0] !in done && forall v :: v in order ==> v in vars
    requires Convertible(kids, naming, done, p)
    requires order[0] in names ==>
               IsLeaf(Dir(kids), w) && naming(w) == Some(order[0]) &&
               Convert(At(Dir(kids), w), vars[order[0]], p).Converted?
    ensures var more := done[order[0] := vars[order[0]]];
            && Convertible(kids, naming, more, p)
            && Apply(Overridden(Dir(kids), [], naming, done, p).kids, |Matching(kids, naming, done)|,
                     order, vars, names, p) ==
               Apply(Overridden(Dir(kids), [], naming, more, p).kids, |Matching(kids, naming, more)|,
                     order[1..], vars, names, p)
  {
    if order[0] in names {
      ServeNamed(kids, naming, done, p, w, vars[order[0]]);
    } else {
      ServeUnnamed(kids, naming, done, p, order[0], vars[order[0]]);
    }
  }

  /** The variables in `served` alone. */
  function Only(vars: Vars, served: seq<string>): Vars {
    map v | v in vars && v in served :: vars[v]
  }

  /** The run has overridden what `served` says and then met a leaf that cannot be converted. */
  ghost predicate StopsAt(kids: Kids, naming: Naming, served: Vars, p: Platform, w: Walk, value: string, r: Outcome)
    requires IsLeaf(Dir(kids), w)
  {
    && Convertible(kids, naming, served, p)
    && !Convert(At(Dir(kids), w), value, p).Converted?
    && var reached := Overridden(Dir(kids), [], naming, served, p).kids;
       r == if At(Dir(kids), w) == Null then Crashed(reached) else Failed(reached)
  }

  lemma StopsNow(kids: Kids, naming: Naming, done: Vars, order: seq<string>, vars: Vars, names: map<string, string>,
                 p: Platform, w: Walk)
    requires Addressed(kids, naming, vars) && DistinctNames(kids, naming, vars) && IsTable(kids, naming, names, vars)
    requires order != [] && order[0] !in done && (forall v :: v in order ==> v in vars) && order[0] in names
    requires Convertible(kids, naming, done, p) && IsLeaf(Dir(kids), w) && naming(w) == Some(order[0])
    requires !Convert(At(Dir(kids), w), vars[order[0]], p).Converted?
    ensures StopsAt(kids, naming, done, p, w, vars[order[0]],
                    Apply(Overridden(Dir(kids), [], naming, done, p).kids, |Matching(kids, naming, done)|,
                          order, vars, names, p))
  {
    ServeNamed(kids, naming, done, p, w, vars[order[0]]);
    ConvertsByType(At(Dir(kids), w), vars[order[0]], p);
    LeafIsNoMap(Dir(kids), w);
  }

  lemma OnlyOneMore(vars: Vars, order: seq<string>, k: nat)
    requires k < |order| && order[k] in vars
    ensures Only(vars, order[..k])[order[k] := vars[order[k]]] == Only(vars, order[..k + 1])
  {
    assert order[..k + 1] == order[..k] + [order[k]];
    var one, two := Only(vars, order[..k])[order[k] := vars[order[k]]], Only(vars, order[..k + 1]);
    assert forall v :: v in one <==> v in two;
  }

  /** The leaf that the variable names, if there is one, can be converted. */
  ghost predicate Converts(kids: Kids, naming: Naming, vars: Vars, p: Platform, name: string) {
    forall w :: IsLeaf(Dir(kids), w) && naming(w) == Some(name) && name in vars ==>
                  Convert(At(Dir(kids), w), vars[name], p).Converted?
  }

  /** The run from the `k`th variable on, with those before it served. */
  ghost function RestOfRun(kids: Kids, naming: Naming, order: seq<string>, vars: Vars, names: map<string, string>,
                           p: Platform, k: nat): Outcome
    requires k <= |order| && forall v :: v in order ==> v in vars
  {
    var served := Only(vars, order[..k]);
    Apply(Overridden(Dir(kids), [], naming, served, p).kids, |Matching(kids, naming, served)|,
          order[k..], vars, names, p)
  }

  lemma ServedOneMore(kids: Kids, naming: Naming, order: seq<string>, vars: Vars, names: map<string, string>,
                      p: Platform, k: nat)
    requires Addressed(kids, naming, vars) && DistinctNames(kids, naming, vars) && IsTable(kids, naming, names, vars)
    requires Enumerates(order, vars) && k < |order| && Convertible(kids, naming, Only(vars, order[..k]), p)
    requires Converts(kids, naming, vars, p, order[k])
    ensures Convertible(kids, naming, Only(vars, order[..k + 1]), p)
    ensures RestOfRun(kids, naming, order, vars, names, p, k) == RestOfRun(kids, naming, order, vars, names, p, k + 1)
  {
    var rest := order[k..];
    assert rest[0] == order[k] && rest[1..] == order[k + 1..];
    NotYetServed(vars, order, k);
    OnlyOneMore(vars, order, k);
    var w: Walk := [];
    if order[k] in names {
      w :| IsLeaf(Dir(kids), w) && naming(w) == Some(order[k]);
    }
    ServeFirst(kids, naming, Only(vars, order[..k]), rest, vars, names, p, w);
  }

  /** A run up to the `k`th variable, if the variables before it can all be served. */
  lemma {:induction false} ServedUpTo(kids: Kids, naming: Naming, order: seq<string>, vars: Vars,
                                      names: map<string, string>, p: Platform, k: nat)
    requires Addressed(kids, naming, vars) && DistinctNames(kids, naming, vars) && IsTable(kids, naming, names, vars)
    requires Enumerates(order, vars) && k <= |order|
    requires forall i :: 0 <= i < k ==> Converts(kids, naming, vars, p, order[i])
    ensures Convertible(kids, naming, Only(vars, order[..k]), p)
    ensures Apply(kids, 0, order, vars, names, p) == RestOfRun(kids, naming, order, vars, names, p, k)
  {
    if k == 0 {
      assert order[..0] == [] && order[0..] == order && Only(vars, []) == map[];
      OverriddenNothing(Dir(kids), [], naming, p);
      assert Matching(kids, naming, map[]) == {};
    } else {
      ServedUpTo(kids, naming, order, vars, names, p, k - 1);
      assert Converts(kids, naming, vars, p, order[k - 1]);
      ServedOneMore(kids, naming, order, vars, names, p, k - 1);
    }
  }

  lemma NotYetServed(vars: Vars, order: seq<string>, k: nat)
    requires Enumerates(order, vars) && k < |order|
    ensures order[k] in vars && order[k] !in Only(vars, order[..k]) && forall v :: v in order[k..] ==> v in vars
  {
  }

  lemma FirstRefused(kids: Kids, naming: Naming, order: seq<string>, vars: Vars, p: Platform) returns (n: nat)
    requires Enumerates(order, vars) && !Convertible(kids, naming, vars, p)
    ensures n < |order| && !Converts(kids, naming, vars, p, order[n])
    ensures forall i :: 0 <= i < n ==> Converts(kids, naming, vars, p, order[i])
  {
    var w :| IsLeaf(Dir(kids), w) && Hit(naming(w), vars) &&
             !Convert(At(Dir(kids), w), vars[naming(w).value], p).Converted?;
    var m :| 0 <= m < |order| && order[m] == naming(w).value;
    assert !Converts(kids, naming, vars, p, order[m]);
    n := 0;
    while Converts(kids, naming, vars, p, order[n])
      invariant n <= m && forall i :: 0 <= i < n ==> Converts(kids, naming, vars, p, order[i])
      decreases m - n
    {
      n := n + 1;
    }
  }

  lemma StopsAtFirstRefused(kids: Kids, naming: Naming, order: seq<string>, vars: Vars, names: map<string, string>,
                            p: Platform) returns (n: nat, w: Walk)
    requires Addressed(kids, naming, vars) && DistinctNames(kids, naming, vars) && IsTable(kids, naming, names, vars)
    requires Enumerates(order, vars) && !Convertible(kids, naming, vars, p)
    ensures n < |order| && IsLeaf(Dir(kids), w) && naming(w) == Some(order[n])
    ensures StopsAt(kids, naming, Only(vars, order[..n]), p, w, vars[order[n]],
                    Apply(kids, 0, order, vars, names, p))
  {
    n := FirstRefused(kids, naming, order, vars, p);
    w :| IsLeaf(Dir(kids), w) && naming(w) == Some(order[n]) &&
         !Convert(At(Dir(kids), w), vars[order[n]], p).Converted?;
    ServedUpTo(kids, naming, order, vars, names, p, n);
    NotYetServed(vars, order, n);
    assert Hit(naming(w), vars);
    assert order[n] in names;
    StopsNow(kids, naming, Only(vars, order[..n]), order[n..], vars, names, p, w);
  }

  /**
   Confluence: if the leaves named by variables that are set can be addressed and
   share no name, then whatever order the variables are visited in and whatever
   name table the paths produced, the run succeeds exactly when every overridden
   leaf can be converted, and then result and count are fixed.
   */
  lemma OverrideIsOrderFree(kids: Kids, naming: Naming, order: seq<string>, vars: Vars, names: map<string, string>,
                            p: Platform)
    requires Addressed(kids, naming, vars) && DistinctNames(kids, naming, vars) && IsTable(kids, naming, names, vars)
    requires Enumerates(order, vars)
    ensures Overrides(kids, naming, vars, p, Apply(kids, 0, order, vars, names, p))
  {
    if Convertible(kids, naming, vars, p) {
      forall i | 0 <= i < |order|
        ensures Converts(kids, naming, vars, p, order[i])
      {
        assert forall w :: naming(w) == Some(order[i]) ==> Hit(naming(w), vars);
      }
      ServedUpTo(kids, naming, order, vars, names, p, |order|);
      assert order[..|order|] == order && Only(vars, order) == vars && order[|order|..] == [];
    } else {
      var n, w := StopsAtFirstRefused(kids, naming, order, vars, names, p);
    }
  }

  /** The leaves whose paths spell a variable that is set. */
  ghost function SpelledLeaves(kids: Kids, vars: Vars, p: Platform): set<Walk> {
    set w | w in Leaves(Dir(kids)) && exists name :: name in vars && Spells(name, PathOf(w), p)
  }

  /** The leaves of a finished run, by the spelling of their paths. */
  ghost predicate OverridesSpelled(kids: Kids, vars: Vars, p: Platform, r: Outcome) {
    && r.Done?
    && (forall w :: IsLeaf(Dir(r.kids), w) <==> IsLeaf(Dir(kids), w))
    && (forall w, name :: IsLeaf(Dir(kids), w) && name in vars && Spells(name, PathOf(w), p) ==>
          Convert(At(Dir(kids), w), vars[name], p) == Converted(At(Dir(r.kids), w)))
    && (forall w :: IsLeaf(Dir(kids), w) && (forall name :: name in vars ==> !Spells(name, PathOf(w), p)) ==>
          At(Dir(r.kids), w) == At(Dir(kids), w))
    && r.count == |SpelledLeaves(kids, vars, p)|
  }

  /**
   A finished run gives every leaf the converted value of the variable whose name
   its path spells, if that is set, leaves all others alone, and counts the former.
   */
  lemma OverridesBySpelling(kids: Kids, vars: Vars, p: Platform, r: Outcome)
    requires Overrides(kids, Named(p), vars, p, r) && r.Done?
    ensures OverridesSpelled(kids, vars, p, r)
  {
    forall w
      ensures NameOf(w, p) in vars <==> exists name :: name in vars && Spells(name, PathOf(w), p)
      ensures forall name :: Spells(name, PathOf(w), p) <==> name == NameOf(w, p)
    {
      NameIsSpelled(PathOf(w), p);
    }
    assert SpelledLeaves(kids, vars, p) == Matching(kids, Named(p), vars);
    forall w
      ensures IsLeaf(Dir(r.kids), w) <==> IsLeaf(Dir(kids), w)
      ensures IsLeaf(Dir(kids), w) ==>
                At(Dir(r.kids), w) == NewValue(At(Dir(kids), w), Some(NameOf(w, p)), vars, p)
      ensures IsLeaf(Dir(kids), w) && NameOf(w, p) in vars ==>
                Convert(At(Dir(kids), w), vars[NameOf(w, p)], p).Converted?
    {
      OverriddenLeaf(Dir(kids), [], Named(p), vars, p, w);
      assert [] + w == w;
      assert Named(p)(w) == Some(NameOf(w, p));
    }
  }

  /**
   A run that fails or panics does so at the first variable visited whose leaf
   cannot be converted, with exactly the leaves of the variables before it
   overridden; it panics if that leaf is null, and fails otherwise.
   */
  lemma WhereARunStops(kids: Kids, naming: Naming, order: seq<string>, vars: Vars, names: map<string, string>,
                       p: Platform) returns (n: nat, w: Walk)
    requires Addressed(kids, naming, vars) && DistinctNames(kids, naming, vars) && IsTable(kids, naming, names, vars)
    requires Enumerates(order, vars) && !Apply(kids, 0, order, vars, names, p).Done?
    ensures n < |order| && IsLeaf(Dir(kids), w) && naming(w) == Some(order[n])
    ensures StopsAt(kids, naming, Only(vars, order[..n]), p, w, vars[order[n]],
                    Apply(kids, 0, order, vars, names, p))
  {
    OverrideIsOrderFree(kids, naming, order, vars, names, p);
    n, w := StopsAtFirstRefused(kids, naming, order, vars, names, p);
  }

  // ------------------------------------------------- flat and nested agree

  /** The flattened form of a nested configuration. */
  function Flatten(kids: Kids): Kids
    requires Nested(Dir(kids))
  {
    map path | path in (set w | w in Leaves(Dir(kids)) :: PathOf(w)) ::
      (LeafOfPath(kids, path); At(Dir(kids), Split.Cut(path, PATH_SEPARATOR)))
  }

  lemma LeafOfPath(kids: Kids, path: string)
    requires Nested(Dir(kids))
    requires path in (set w | w in Leaves(Dir(kids)) :: PathOf(w))
    ensures IsLeaf(Dir(kids), Split.Cut(path, PATH_SEPARATOR))
  {
    var w :| w in Leaves(Dir(kids)) && PathOf(w) == path;
    LeavesAreLeaves(Dir(kids), w);
    NestedWalksAreFree(Dir(kids), w);
    Split.CutGlue(w, PATH_SEPARATOR);
  }

  /** The flattened form has exactly the paths of the leaves as keys, with the leaves' values. */
  lemma FlattenEntry(kids: Kids, path: string)
    requires Nested(Dir(kids))
    ensures path in Flatten(kids) <==> IsLeaf(Dir(kids), Split.Cut(path, PATH_SEPARATOR))
    ensures path in Flatten(kids) ==>
              Flatten(kids)[path] == At(Dir(kids), Split.Cut(path, PATH_SEPARATOR)) && !Flatten(kids)[path].Dir?
  {
    var w := Split.Cut(path, PATH_SEPARATOR);
    Split.GlueCut(path, PATH_SEPARATOR);
    LeavesAreLeaves(Dir(kids), w);
    if path in Flatten(kids) {
      LeafOfPath(kids, path);
      LeafIsNoMap(Dir(kids), w);
    }
  }

  lemma {:induction false} LeafIsNoMap(t: Item, w: Walk)
    requires IsLeaf(t, w)
    ensures !At(t, w).Dir?
  {
    if w != [] {
      LeafIsNoMap(t.kids[w[0]], w[1..]);
    }
  }

  lemma {:induction false} OverriddenStaysNested(t: Item, above: Walk, naming: Naming, vars: Vars, p: Platform)
    requires Nested(t)
    ensures Nested(Overridden(t, above, naming, vars, p))
    decreases t
  {
    if t.Dir? {
      forall k | k in t.kids
        ensures Nested(Overridden(t.kids[k], above + [k], naming, vars, p))
      {
        OverriddenStaysNested(t.kids[k], above + [k], naming, vars, p);
      }
    }
  }

  lemma FlattenOverriddenEntry(kids: Kids, vars: Vars, p: Platform, path: string)
    requires Nested(Dir(kids)) && Nested(Overridden(Dir(kids), [], Named(p), vars, p))
    ensures var one := Flatten(Overridden(Dir(kids), [], Named(p), vars, p).kids);
            var two := Overridden(Dir(Flatten(kids)), [], Named(p), vars, p).kids;
            (path in one <==> path in two) && (path in two ==> one[path] == two[path])
  {
    var w := Split.Cut(path, PATH_SEPARATOR);
    var flat := Flatten(kids);
    FlattenEntry(kids, path);
    FlattenEntry(Overridden(Dir(kids), [], Named(p), vars, p).kids, path);
    OverriddenLeaf(Dir(kids), [], Named(p), vars, p, w);
    assert [] + w == w;
    if path in flat {
      Split.GlueCut(path, PATH_SEPARATOR);
      assert [] + [path] == [path];
      assert NameOf([path], p) == NameOf(w, p);
    }
  }

  lemma FlattenOverridden(kids: Kids, vars: Vars, p: Platform)
    requires Nested(Dir(kids))
    ensures Nested(Overridden(Dir(kids), [], Named(p), vars, p))
    ensures Flatten(Overridden(Dir(kids), [], Named(p), vars, p).kids) ==
            Overridden(Dir(Flatten(kids)), [], Named(p), vars, p).kids
  {
    OverriddenStaysNested(Dir(kids), [], Named(p), vars, p);
    var one := Flatten(Overridden(Dir(kids), [], Named(p), vars, p).kids);
    var two := Overridden(Dir(Flatten(kids)), [], Named(p), vars, p).kids;
    forall path: string
      ensures path in one <==> path in two
      ensures path in two ==> one[path] == two[path]
    {
      FlattenOverriddenEntry(kids, vars, p, path);
    }
    SameEntries(one, two);
  }

  lemma SameEntries(one: Kids, two: Kids)
    requires forall path :: path in one <==> path in two
    requires forall path :: path in two ==> one[path] == two[path]
    ensures one == two
  {
  }

  /** A leaf of the flattened form has the name and the value of a leaf of the nested form. */
  lemma FlatLeaf(kids: Kids, p: Platform, u: Walk)
    requires Nested(Dir(kids)) && IsLeaf(Dir(Flatten(kids)), u)
    ensures |u| == 1
    ensures var w := Split.Cut(u[0], PATH_SEPARATOR);
            && IsLeaf(Dir(kids), w) && PathOf(w) == u[0]
            && NameOf(w, p) == NameOf(u, p) && At(Dir(kids), w) == At(Dir(Flatten(kids)), u)
  {
    var flat := Flatten(kids);
    FlattenIsFlat(kids);
    FlatIsAddressable(flat);
    FlattenEntry(kids, u[0]);
    Split.GlueCut(u[0], PATH_SEPARATOR);
    assert At(Dir(flat), u) == flat[u[0]];
  }

  lemma NestedLeaf(kids: Kids, p: Platform, w: Walk)
    requires Nested(Dir(kids)) && IsLeaf(Dir(kids), w)
    ensures var u := [PathOf(w)];
            && IsLeaf(Dir(Flatten(kids)), u)
            && NameOf(w, p) == NameOf(u, p) && At(Dir(kids), w) == At(Dir(Flatten(kids)), u)
  {
    NestedWalksAreFree(Dir(kids), w);
    Split.CutGlue(w, PATH_SEPARATOR);
    FlattenEntry(kids, PathOf(w));
  }

  lemma FlattenIsFlat(kids: Kids)
    requires Nested(Dir(kids))
    ensures Flat(Flatten(kids))
  {
    forall path | path in Flatten(kids)
      ensures !Flatten(kids)[path].Dir?
    {
      FlattenEntry(kids, path);
    }
  }

  lemma FlattenKeepsNames(kids: Kids, vars: Vars, p: Platform)
    requires Nested(Dir(kids)) && DistinctNames(kids, Named(p), vars)
    ensures DistinctNames(Flatten(kids), Named(p), vars)
  {
    var flat := Flatten(kids);
    forall u, v | IsLeaf(Dir(flat), u) && Hit(Named(p)(u), vars) && IsLeaf(Dir(flat), v) && Named(p)(v) == Named(p)(u)
      ensures v == u
    {
      FlatLeaf(kids, p, u);
      FlatLeaf(kids, p, v);
      assert Hit(Named(p)(Split.Cut(u[0], PATH_SEPARATOR)), vars);
      assert OwnName(kids, Split.Cut(u[0], PATH_SEPARATOR), Named(p));
    }
  }

  lemma FlattenKeepsConversion(kids: Kids, vars: Vars, p: Platform)
    requires Nested(Dir(kids))
    ensures Convertible(kids, Named(p), vars, p) <==> Convertible(Flatten(kids), Named(p), vars, p)
  {
    var flat := Flatten(kids);
    if Convertible(kids, Named(p), vars, p) {
      forall u | IsLeaf(Dir(flat), u) && Hit(Named(p)(u), vars)
        ensures Convert(At(Dir(flat), u), vars[NameOf(u, p)], p).Converted?
      {
        FlatLeaf(kids, p, u);
        assert Hit(Named(p)(Split.Cut(u[0], PATH_SEPARATOR)), vars);
      }
    }
    if Convertible(flat, Named(p), vars, p) {
      forall w | IsLeaf(Dir(kids), w) && Hit(Named(p)(w), vars)
        ensures Convert(At(Dir(kids), w), vars[NameOf(w, p)], p).Converted?
      {
        NestedLeaf(kids, p, w);
        assert Hit(Named(p)([PathOf(w)]), vars);
      }
    }
  }

  lemma FlattenKeepsCount(kids: Kids, vars: Vars, p: Platform)
    requires Nested(Dir(kids))
    ensures |Matching(kids, Named(p), vars)| == |Matching(Flatten(kids), Named(p), vars)|
  {
    var flat := Flatten(kids);
    var image := set w | w in Matching(kids, Named(p), vars) :: [PathOf(w)];
    forall w | w in Leaves(Dir(kids))
      ensures Split.Cut(PathOf(w), PATH_SEPARATOR) == w && IsLeaf(Dir(kids), w)
    {
      LeavesAreLeaves(Dir(kids), w);
      NestedWalksAreFree(Dir(kids), w);
      Split.CutGlue(w, PATH_SEPARATOR);
    }
    FlattenIsFlat(kids);
    FlatIsAddressable(flat);
    forall u
      ensures u in image <==> u in Matching(flat, Named(p), vars)
    {
      LeavesAreLeaves(Dir(flat), u);
      if u in Matching(flat, Named(p), vars) {
        FlattenEntry(kids, u[0]);
        Split.GlueCut(u[0], PATH_SEPARATOR);
        LeavesAreLeaves(Dir(kids), Split.Cut(u[0], PATH_SEPARATOR));
      }
      if u in image {
        var w :| w in Matching(kids, Named(p), vars) && u == [PathOf(w)];
        FlattenEntry(kids, PathOf(w));
      }
    }
    assert image == Matching(flat, Named(p), vars);
    SameSize(Matching(kids, Named(p), vars), image);
  }

  lemma {:induction false} SameSize(walks: set<Walk>, image: set<Walk>)
    requires image == set w | w in walks :: [PathOf(w)]
    requires forall w :: w in walks ==> Split.Cut(PathOf(w), PATH_SEPARATOR) == w
    ensures |walks| == |image|
    decreases walks
  {
    if walks != {} {
      var w :| w in walks;
      var rest := walks - {w};
      var restImage := set v | v in rest :: [PathOf(v)];
      forall v | v in rest
        ensures [PathOf(v)] != [PathOf(w)]
      {
        assert Split.Cut([PathOf(v)][0], PATH_SEPARATOR) == v;
      }
      assert image == restImage + {[PathOf(w)]};
      SameSize(rest, restImage);
    }
  }

  /**
   Overriding the nested form and then flattening gives what overriding the
   flattened form gives, for any two visiting orders; either both runs succeed
   or neither does, and they report the same number of overrides.
   */
  lemma FlatAndNestedAgree(kids: Kids, order: seq<string>, flatOrder: seq<string>, vars: Vars,
                           names: map<string, string>, flatNames: map<string, string>, p: Platform)
    requires Nested(Dir(kids)) && DistinctNames(kids, Named(p), vars)
    requires IsTable(kids, Named(p), names, vars) && IsTable(Flatten(kids), Named(p), flatNames, vars)
    requires Enumerates(order, vars) && Enumerates(flatOrder, vars)
    ensures var nested := Apply(kids, 0, order, vars, names, p);
            var flat := Apply(Flatten(kids), 0, flatOrder, vars, flatNames, p);
            && (nested.Done? <==> flat.Done?)
            && (nested.Done? ==> Nested(Dir(nested.kids)) && flat == Done(Flatten(nested.kids), nested.count))
  {
    NestedIsAddressable(kids);
    FlattenIsFlat(kids);
    FlatIsAddressable(Flatten(kids));
    FlattenKeepsNames(kids, vars, p);
    FlattenKeepsConversion(kids, vars, p);
    OverrideIsOrderFree(kids, Named(p), order, vars, names, p);
    OverrideIsOrderFree(Flatten(kids), Named(p), flatOrder, vars, flatNames, p);
    FlattenOverridden(kids, vars, p);
    FlattenKeepsCount(kids, vars, p);
  }

  // ------------------------------------------------------------- idempotence

  lemma {:induction false} OverriddenTwice(t: Item, above: Walk, naming: Naming, vars: Vars, p: Platform)
    ensures Overridden(Overridden(t, above, naming, vars, p), above, naming, vars, p) ==
            Overridden(t, above, naming, vars, p)
    decreases t
  {
    if t.Dir? {
      forall k | k in t.kids
        ensures Overridden(Overridden(t.kids[k], above + [k], naming, vars, p), above + [k], naming, vars, p) ==
                Overridden(t.kids[k], above + [k], naming, vars, p)
      {
        OverriddenTwice(t.kids[k], above + [k], naming, vars, p);
      }
    } else {
      var name := naming(above);
      if Hit(name, vars) && Convert(t, vars[name.value], p).Converted? {
        ConvertIsStable(t, vars[name.value], p);
      }
    }
  }

  /** Overriding an overridden configuration again succeeds and changes nothing. */
  lemma OverrideIsIdempotent(kids: Kids, naming: Naming, order: seq<string>, again: seq<string>, vars: Vars,
                             names: map<string, string>, p: Platform)
    requires Addressed(kids, naming, vars) && DistinctNames(kids, naming, vars) && IsTable(kids, naming, names, vars)
    requires Enumerates(order, vars) && Enumerates(again, vars)
    requires Apply(kids, 0, order, vars, names, p).Done?
    ensures var first := Apply(kids, 0, order, vars, names, p);
            Apply(first.kids, 0, again, vars, names, p) == first
  {
    OverrideIsOrderFree(kids, naming, order, vars, names, p);
    var first := Apply(kids, 0, order, vars, names, p);
    OverriddenTwice(Dir(kids), [], naming, vars, p);
    forall w
      ensures IsLeaf(Dir(first.kids), w) <==> IsLeaf(Dir(kids), w)
      ensures IsLeaf(Dir(kids), w) && Hit(naming(w), vars) ==> Resolves(first.kids, w)
      ensures w in Leaves(Dir(first.kids)) <==> w in Leaves(Dir(kids))
      ensures IsLeaf(Dir(kids), w) && Hit(naming(w), vars) ==>
                Convert(At(Dir(first.kids), w), vars[naming(w).value], p).Converted?
    {
      OverriddenLeaf(Dir(kids), [], naming, vars, p, w);
      assert [] + w == w;
      LeavesAreLeaves(Dir(kids), w);
      LeavesAreLeaves(Dir(first.kids), w);
      if IsLeaf(Dir(kids), w) && Hit(naming(w), vars) {
        OverriddenResolves(kids, naming, vars, p, w);
        ConvertIsStable(At(Dir(kids), w), vars[naming(w).value], p);
      }
    }
    assert Matching(first.kids, naming, vars) == Matching(kids, naming, vars);
    forall w | IsLeaf(Dir(first.kids), w) && Hit(naming(w), vars)
      ensures OwnName(first.kids, w, naming)
    {
      assert OwnName(kids, w, naming);
    }
    OverrideIsOrderFree(first.kids, naming, again, vars, names, p);
  }

  // ------------------------------------------------------- colliding names

  /** Every leaf that the table leads to, by its name. */
  function Chosen(names: map<string, string>, p: Platform): Naming {
    w => if NameOf(w, p) in names && names[NameOf(w, p)] == PathOf(w) then Some(NameOf(w, p)) else None
  }

  /** The table was built from the paths of the leaves, whichever of two colliding ones came last. */
  ghost predicate FromLeaves(kids: Kids, names: map<string, string>, vars: Vars, p: Platform) {
    && (forall w :: IsLeaf(Dir(kids), w) && NameOf(w, p) in vars ==> NameOf(w, p) in names)
    && (forall n :: n in names && n in vars ==>
          exists w :: IsLeaf(Dir(kids), w) && NameOf(w, p) == n && names[n] == PathOf(w))
  }

  lemma TablesChoose(kids: Kids, names: map<string, string>, vars: Vars, p: Platform)
    requires Addressed(kids, Named(p), vars) && FromLeaves(kids, names, vars, p)
    ensures Addressed(kids, Chosen(names, p), vars) && DistinctNames(kids, Chosen(names, p), vars)
    ensures IsTable(kids, Chosen(names, p), names, vars)
  {
    var naming := Chosen(names, p);
    forall u, w | IsLeaf(Dir(kids), u) && IsLeaf(Dir(kids), w) && Hit(naming(w), vars) && naming(u) == naming(w)
      ensures u == w
    {
      assert Hit(Named(p)(u), vars) && Hit(Named(p)(w), vars);
      assert Resolves(kids, u) && Resolves(kids, w);
    }
    forall n | n in names && n in vars
      ensures exists w :: IsLeaf(Dir(kids), w) && naming(w) == Some(n)
    {
      var w :| IsLeaf(Dir(kids), w) && NameOf(w, p) == n && names[n] == PathOf(w);
      assert naming(w) == Some(n);
    }
  }

  /**
   Whether or not leaves share names: a run overrides the leaves its name table
   leads to, in whatever order the variables are visited.
   */
  lemma RunFollowsTable(kids: Kids, order: seq<string>, vars: Vars, names: map<string, string>, p: Platform)
    requires Addressed(kids, Named(p), vars) && FromLeaves(kids, names, vars, p) && Enumerates(order, vars)
    ensures Overrides(kids, Chosen(names, p), vars, p, Apply(kids, 0, order, vars, names, p))
  {
    TablesChoose(kids, names, vars, p);
    OverrideIsOrderFree(kids, Chosen(names, p), order, vars, names, p);
  }

  lemma {:induction false} SameOverridden(t: Item, above: Walk, one: Naming, two: Naming, vars: Vars, p: Platform)
    requires forall u :: IsLeaf(t, u) ==>
               NewValue(At(t, u), one(above + u), vars, p) == NewValue(At(t, u), two(above + u), vars, p)
    ensures Overridden(t, above, one, vars, p) == Overridden(t, above, two, vars, p)
    decreases t
  {
    if t.Dir? {
      forall k | k in t.kids
        ensures Overridden(t.kids[k], above + [k], one, vars, p) == Overridden(t.kids[k], above + [k], two, vars, p)
      {
        forall u | IsLeaf(t.kids[k], u)
          ensures NewValue(At(t.kids[k], u), one(above + [k] + u), vars, p) ==
                  NewValue(At(t.kids[k], u), two(above + [k] + u), vars, p)
        {
          assert IsLeaf(t, [k] + u) && At(t, [k] + u) == At(t.kids[k], u);
          assert above + [k] + u == above + ([k] + u);
        }
        SameOverridden(t.kids[k], above + [k], one, two, vars, p);
      }
    } else {
      assert IsLeaf(t, []) && At(t, []) == t;
      assert above + [] == above;
    }
  }

  /** One of the tables leads to the leaf and the other leads elsewhere. */
  ghost predicate Disputed(w: Walk, one: map<string, string>, two: map<string, string>, p: Platform) {
    Chosen(one, p)(w) != Chosen(two, p)(w)
  }

  /**
   Two runs on the same tree, from any two name tables, give the same tree exactly
   if every leaf that only one of the tables leads to has its variable's value
   already.
   */
  lemma WhenOrderMatters(kids: Kids, order: seq<string>, order': seq<string>, vars: Vars, names: map<string, string>,
                         names': map<string, string>, p: Platform)
    requires Addressed(kids, Named(p), vars) && Convertible(kids, Named(p), vars, p)
    requires FromLeaves(kids, names, vars, p) && FromLeaves(kids, names', vars, p)
    requires Enumerates(order, vars) && Enumerates(order', vars)
    ensures var one := Apply(kids, 0, order, vars, names, p);
            var two := Apply(kids, 0, order', vars, names', p);
            && one.Done? && two.Done?
            && (one.kids == two.kids <==>
                  forall w :: IsLeaf(Dir(kids), w) && NameOf(w, p) in vars && Disputed(w, names, names', p) ==>
                                Convert(At(Dir(kids), w), vars[NameOf(w, p)], p).value == At(Dir(kids), w))
  {
    var a, b := Chosen(names, p), Chosen(names', p);
    RunFollowsTable(kids, order, vars, names, p);
    RunFollowsTable(kids, order', vars, names', p);
    ChosenConvert(kids, vars, names, p);
    ChosenConvert(kids, vars, names', p);
    SameOverrides(kids, a, b, vars, p);
    forall w | IsLeaf(Dir(kids), w)
      ensures (NewValue(At(Dir(kids), w), a(w), vars, p) == NewValue(At(Dir(kids), w), b(w), vars, p)) <==>
              (NameOf(w, p) in vars && Disputed(w, names, names', p) ==>
                 Convert(At(Dir(kids), w), vars[NameOf(w, p)], p).value == At(Dir(kids), w))
    {
      DisputedLeaf(kids, vars, names, names', p, w);
    }
  }

  lemma DisputedLeaf(kids: Kids, vars: Vars, names: map<string, string>, names': map<string, string>, p: Platform,
                     w: Walk)
    requires Convertible(kids, Named(p), vars, p) && IsLeaf(Dir(kids), w)
    ensures var prior := At(Dir(kids), w);
            NewValue(prior, Chosen(names, p)(w), vars, p) == NewValue(prior, Chosen(names', p)(w), vars, p) <==>
            (NameOf(w, p) in vars && Disputed(w, names, names', p) ==>
               Convert(prior, vars[NameOf(w, p)], p).value == prior)
  {
    assert Hit(Named(p)(w), vars) <==> NameOf(w, p) in vars;
  }

  /** Two ways to assign variables to leaves give the same tree exactly if they give every leaf the same value. */
  lemma SameOverrides(kids: Kids, one: Naming, two: Naming, vars: Vars, p: Platform)
    ensures Overridden(Dir(kids), [], one, vars, p) == Overridden(Dir(kids), [], two, vars, p) <==>
            forall w :: IsLeaf(Dir(kids), w) ==>
              NewValue(At(Dir(kids), w), one(w), vars, p) == NewValue(At(Dir(kids), w), two(w), vars, p)
  {
    if Overridden(Dir(kids), [], one, vars, p) == Overridden(Dir(kids), [], two, vars, p) {
      forall w | IsLeaf(Dir(kids), w)
        ensures NewValue(At(Dir(kids), w), one(w), vars, p) == NewValue(At(Dir(kids), w), two(w), vars, p)
      {
        assert [] + w == w;
        OverriddenLeaf(Dir(kids), [], one, vars, p, w);
        OverriddenLeaf(Dir(kids), [], two, vars, p, w);
      }
    }
    if forall w :: IsLeaf(Dir(kids), w) ==>
         NewValue(At(Dir(kids), w), one(w), vars, p) == NewValue(At(Dir(kids), w), two(w), vars, p) {
      forall w | IsLeaf(Dir(kids), w)
        ensures NewValue(At(Dir(kids), w), one([] + w), vars, p) == NewValue(At(Dir(kids), w), two([] + w), vars, p)
      {
        assert [] + w == w;
      }
      SameOverridden(Dir(kids), [], one, two, vars, p);
    }
  }

  lemma ChosenConvert(kids: Kids, vars: Vars, names: map<string, string>, p: Platform)
    requires Convertible(kids, Named(p), vars, p)
    ensures Convertible(kids, Chosen(names, p), vars, p)
  {
    forall w | IsLeaf(Dir(kids), w) && Hit(Chosen(names, p)(w), vars)
      ensures Convert(At(Dir(kids), w), vars[Chosen(names, p)(w).value], p).Converted?
    {
      assert Hit(Named(p)(w), vars);
    }
  }

  // -------------------------------------------- where the conditions matter

  /** On a nested tree the variable that the path spells reaches the leaf. */
  lemma NestedLeafIsOverridden(p: Platform)
    requires p.upper('a') == 'A' && p.upper('b') == 'B' && p.upper('_') == '_'
    ensures var kids := map["a" := Dir(map["b" := Text("one")])];
            && NameTable(["a/b"], p) == map["A_B" := "a/b"]
            && Apply(kids, 0, ["A_B"], map["A_B" := "new"], NameTable(["a/b"], p), p) ==
               Done(map["a" := Dir(map["b" := Text("new")])], 1)
  {
    var kids := map["a" := Dir(map["b" := Text("one")])];
    NameIsSpelled("a/b", p);
    assert OverrideName("a/b", p) == "A_B";
    assert ["a/b"][..0] == [];
    assert NameTable(["a/b"], p) == NameTable([], p)["A_B" := "a/b"];
    var keys := ["a", "b"];
    assert Split.Glue(["b"], PATH_SEPARATOR) == "b" && keys[1..] == ["b"];
    assert Split.Glue(keys, PATH_SEPARATOR) == "a/b";
    Split.CutGlue(keys, PATH_SEPARATOR);
    assert GetKeys(map["b" := Text("one")], ["b"]) == Text("one");
    assert SetKeys(map["b" := Text("one")], ["b"], Text("new")) == map["b" := Text("new")];
    assert Get(kids, "a/b") == Text("one");
    assert Set(kids, "a/b", Text("new")) == map["a" := Dir(map["b" := Text("new")])];
    ApplyOne(kids, "A_B", map["A_B" := "new"], NameTable(["a/b"], p), p);
  }

  lemma CollidingTables(p: Platform)
    ensures var name := OverrideName("a-b", p);
            && NameTable(["a-b", "a_b"], p) == map[name := "a_b"]
            && NameTable(["a_b", "a-b"], p) == map[name := "a-b"]
  {
    assert OverrideName("a-b", p) == OverrideName("a_b", p);
    assert ["a-b", "a_b"][..1] == ["a-b"] && ["a_b", "a-b"][..1] == ["a_b"];
    assert ["a-b"][..0] == [] && ["a_b"][..0] == [];
    assert NameTable(["a-b"], p) == NameTable([], p)[OverrideName("a-b", p) := "a-b"];
    assert NameTable(["a_b"], p) == NameTable([], p)[OverrideName("a_b", p) := "a_b"];
  }

  /** With two leaves under one name the enumeration order decides which of them is overridden. */
  lemma CollidingNamesDependOnOrder(p: Platform)
    ensures NameTable(["a-b", "a_b"], p) != NameTable(["a_b", "a-b"], p)
  {
    CollidingTables(p);
    assert map[OverrideName("a-b", p) := "a_b"][OverrideName("a-b", p)] == "a_b";
  }

  /** And so a whole run gives one tree or the other. */
  lemma CollidingRunsDiffer(p: Platform)
    ensures var kids := map["a-b" := Text("one"), "a_b" := Text("two")];
            var name := OverrideName("a-b", p);
            var vars := map[name := "new"];
            && Apply(kids, 0, [name], vars, NameTable(["a-b", "a_b"], p), p) == Done(kids["a_b" := Text("new")], 1)
            && Apply(kids, 0, [name], vars, NameTable(["a_b", "a-b"], p), p) == Done(kids["a-b" := Text("new")], 1)
  {
    var kids := map["a-b" := Text("one"), "a_b" := Text("two")];
    var name := OverrideName("a-b", p);
    var vars := map[name := "new"];
    CollidingTables(p);
    ApplyOne(kids, name, vars, NameTable(["a-b", "a_b"], p), p);
    ApplyOne(kids, name, vars, NameTable(["a_b", "a-b"], p), p);
  }

  lemma ApplyOne(kids: Kids, name: string, vars: Vars, names: map<string, string>, p: Platform)
    requires name in vars && name in names && Convert(Get(kids, names[name]), vars[name], p).Converted?
    ensures Apply(kids, 0, [name], vars, names, p) ==
            Done(Set(kids, names[name], Convert(Get(kids, names[name]), vars[name], p).value), 1)
  {
    var updated := Set(kids, names[name], Convert(Get(kids, names[name]), vars[name], p).value);
    assert [name][1..] == [];
    assert Apply(updated, 1, [], vars, names, p) == Done(updated, 1);
  }
}
