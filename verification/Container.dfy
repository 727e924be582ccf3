/**
 The memoising dependency container (pkg/di/container.go). A service is
 constructed on first use and kept; its constructor asks the container for
 other services while it runs.
 */
module Container {
  import opened Options

  /** A service instance; `None` is Go's nil. */
  type Answer = Option<int>

  /** What a constructor does next, given the answers to its requests so far. */
  datatype Action = Ask(name: string) | Build(result: Answer)

  /** A constructor with a bound on how many more requests it makes. */
  datatype Constructor = Constructor(next: seq<Answer> -> Action, left: seq<Answer> -> nat)

  function Constant(instance: int): Constructor {
    Constructor(h => Build(Some(instance)), h => 0)
  }

  type Constructors = map<string, Constructor>

  type Cache = map<string, int>

  /** Every constructor ends, and asks only for services of lower rank: the constructor graph is acyclic. */
  ghost predicate Sound(cs: Constructors, rank: string -> nat) {
    forall n, h: seq<Answer> :: n in cs && cs[n].next(h).Ask? ==>
      && (cs[n].next(h).name in cs ==> rank(cs[n].next(h).name) < rank(n))
      && (forall v :: cs[n].left(h + [v]) < cs[n].left(h))
  }

  function Height(cs: Constructors, rank: string -> nat, name: string): nat {
    if name in cs then 1 + rank(name) else 0
  }

  // -------------------------------------------------------- plain evaluation

  ghost function Eval(cs: Constructors, rank: string -> nat, name: string): Answer
    requires Sound(cs, rank)
    decreases Height(cs, rank, name), 1, 0
  {
    if name in cs then EvalFrom(cs, rank, name, []) else None
  }

  ghost function EvalFrom(cs: Constructors, rank: string -> nat, name: string, h: seq<Answer>): Answer
    requires Sound(cs, rank) && name in cs
    decreases Height(cs, rank, name), 0, cs[name].left(h)
  {
    match cs[name].next(h)
    case Build(r) => r
    case Ask(m) => EvalFrom(cs, rank, name, h + [Eval(cs, rank, m)])
  }

  /** The services that plain evaluation of `name` visits: itself and its transitive dependencies. */
  ghost function Touched(cs: Constructors, rank: string -> nat, name: string): set<string>
    requires Sound(cs, rank)
    decreases Height(cs, rank, name), 1, 0
  {
    {name} + if name in cs then TouchedFrom(cs, rank, name, []) else {}
  }

  ghost function TouchedFrom(cs: Constructors, rank: string -> nat, name: string, h: seq<Answer>): set<string>
    requires Sound(cs, rank) && name in cs
    decreases Height(cs, rank, name), 0, cs[name].left(h)
  {
    match cs[name].next(h)
    case Build(_) => {}
    case Ask(m) => Touched(cs, rank, m) + TouchedFrom(cs, rank, name, h + [Eval(cs, rank, m)])
  }

  // ----------------------------------------------------- memoised evaluation

  /** The cache afterwards, the answer, and the services newly constructed, in the order they were completed. */
  datatype Memoised = Memoised(cache: Cache, answer: Answer, built: seq<string>)

  ghost function Memo(cs: Constructors, rank: string -> nat, cache: Cache, name: string): Memoised
    requires Sound(cs, rank)
    decreases Height(cs, rank, name), 1, 0
  {
    if name !in cs then Memoised(cache, None, [])
    else if name in cache then Memoised(cache, Some(cache[name]), [])
    else
      var m := MemoFrom(cs, rank, cache, name, []);
      if m.answer.Some? then Memoised(m.cache[name := m.answer.value], m.answer, m.built + [name]) else m
  }

  ghost function MemoFrom(cs: Constructors, rank: string -> nat, cache: Cache, name: string, h: seq<Answer>): Memoised
    requires Sound(cs, rank) && name in cs
    decreases Height(cs, rank, name), 0, cs[name].left(h)
  {
    match cs[name].next(h)
    case Build(r) => Memoised(cache, r, [])
    case Ask(m) =>
      var first := Memo(cs, rank, cache, m);
      var rest := MemoFrom(cs, rank, first.cache, name, h + [first.answer]);
      Memoised(rest.cache, rest.answer, first.built + rest.built)
  }

  /** Constructing a service adds to the cache only services of at most its height, and keeps what is there. */
  lemma {:induction false} MemoAddsBelow(cs: Constructors, rank: string -> nat, cache: Cache, name: string)
    requires Sound(cs, rank)
    ensures var after := Memo(cs, rank, cache, name).cache;
            && (forall n :: n in after ==> n in cache || Height(cs, rank, n) <= Height(cs, rank, name))
            && (forall n :: n in cache ==> n in after && after[n] == cache[n])
    decreases Height(cs, rank, name), 1, 0
  {
    if name in cs && name !in cache {
      MemoFromAddsBelow(cs, rank, cache, name, []);
    }
  }

  lemma {:induction false} MemoFromAddsBelow(cs: Constructors, rank: string -> nat, cache: Cache, name: string,
                                             h: seq<Answer>)
    requires Sound(cs, rank) && name in cs
    ensures var after := MemoFrom(cs, rank, cache, name, h).cache;
            && (forall n :: n in after ==> n in cache || Height(cs, rank, n) < Height(cs, rank, name))
            && (forall n :: n in cache ==> n in after && after[n] == cache[n])
    decreases Height(cs, rank, name), 0, cs[name].left(h)
  {
    if cs[name].next(h).Ask? {
      var m := cs[name].next(h).name;
      MemoAddsBelow(cs, rank, cache, m);
      var first := Memo(cs, rank, cache, m);
      MemoFromAddsBelow(cs, rank, first.cache, name, h + [first.answer]);
    }
  }

  /** One request of a constructor, and what is left of it. */
  lemma MemoFromAsk(cs: Constructors, rank: string -> nat, cache: Cache, name: string, h: seq<Answer>)
    requires Sound(cs, rank) && name in cs && cs[name].next(h).Ask?
    ensures var first := Memo(cs, rank, cache, cs[name].next(h).name);
            var rest := MemoFrom(cs, rank, first.cache, name, h + [first.answer]);
            MemoFrom(cs, rank, cache, name, h) == Memoised(rest.cache, rest.answer, first.built + rest.built)
  {
  }

  // ------------------------------------------------------------ the container

  datatype Service = Service(recipe: Constructor, instance: Answer)

  class Container {
    var serviceMap: map<string, Service>

    constructor ()
      ensures serviceMap == map[]
    {
      serviceMap := map[];
    }

    ghost function Registered(): Constructors
      reads this
    {
      map n | n in serviceMap :: serviceMap[n].recipe
    }

    ghost function Instances(): Cache
      reads this
    {
      map n | n in serviceMap && serviceMap[n].instance.Some? :: serviceMap[n].instance.value
    }

    /** Registers the constructors; what was built by replaced ones is forgotten, what used it is not. */
    method Update(serviceConstructors: Constructors)
      modifies this
      ensures Registered() == old(Registered()) + serviceConstructors
      ensures Instances() == old(Instances()) - serviceConstructors.Keys
    {
      ghost var before := serviceMap;
      var rest := serviceConstructors.Keys;
      while rest != {}
        invariant rest <= serviceConstructors.Keys
        invariant serviceMap == before + map n | n in serviceConstructors && n !in rest ::
                    Service(serviceConstructors[n], None)
      {
        var serviceName :| serviceName in rest;
        rest := rest - {serviceName};
        serviceMap := serviceMap[serviceName := Service(serviceConstructors[serviceName], None)];
      }
    }

    method Get(serviceName: string, ghost rank: string -> nat) returns (r: Answer, ghost built: seq<string>)
      requires Sound(Registered(), rank)
      modifies this
      ensures Registered() == old(Registered())
      ensures Memoised(Instances(), r, built) == Memo(old(Registered()), rank, old(Instances()), serviceName)
      decreases Height(Registered(), rank, serviceName), 1, 0
    {
      if serviceName !in serviceMap {
        return None, [];
      }
      var service := serviceMap[serviceName];
      if service.instance == None {
        var instance;
        instance, built := RunConstructor(serviceName, service.recipe, rank);
        ghost var cache := Instances();
        service := service.(instance := instance);
        serviceMap := serviceMap[serviceName := service];
        if instance.Some? {
          built := built + [serviceName];
          assert Instances() == cache[serviceName := instance.value];
        } else {
          MemoFromAddsBelow(old(Registered()), rank, old(Instances()), serviceName, []);
          assert Instances() == cache;
        }
        return instance, built;
      }
      return service.instance, [];
    }

    /** Runs a constructor, serving its requests from this container. */
    method RunConstructor(serviceName: string, c: Constructor, ghost rank: string -> nat)
      returns (r: Answer, ghost built: seq<string>)
      requires Sound(Registered(), rank)
      requires serviceName in Registered() && Registered()[serviceName] == c
      modifies this
      ensures Registered() == old(Registered())
      ensures Memoised(Instances(), r, built) == MemoFrom(old(Registered()), rank, old(Instances()), serviceName, [])
      decreases Height(Registered(), rank, serviceName), 0, c.left([]) + 1
    {
      ghost var cs := Registered();
      var answers := [];
      built := [];
      while c.next(answers).Ask?
        invariant Registered() == cs
        invariant var m := MemoFrom(cs, rank, Instances(), serviceName, answers);
                  MemoFrom(cs, rank, old(Instances()), serviceName, []) == Memoised(m.cache, m.answer, built + m.built)
        decreases c.left(answers)
      {
        var answer;
        ghost var more;
        MemoFromAsk(cs, rank, Instances(), serviceName, answers);
        answer, more := Get(c.next(answers).name, rank);
        answers := answers + [answer];
        built := built + more;
      }
      r := c.next(answers).result;
    }
  }

  // ------------------------------------------------ memoised equals evaluated

  /**
   Cached instances equal plain evaluation, except possibly those that depend on
   a service in `suspect`. Only constructed services are cached.
   */
  ghost predicate Fresh(cs: Constructors, rank: string -> nat, cache: Cache, suspect: set<string>)
    requires Sound(cs, rank)
  {
    forall n :: n in cache ==>
      n in cs && (Touched(cs, rank, n) !! suspect ==> Eval(cs, rank, n) == Some(cache[n]))
  }

  lemma {:induction false} MemoIsEval(cs: Constructors, rank: string -> nat, cache: Cache, name: string,
                                      suspect: set<string>)
    requires Sound(cs, rank) && Fresh(cs, rank, cache, suspect)
    ensures var m := Memo(cs, rank, cache, name);
            && Fresh(cs, rank, m.cache, suspect)
            && (Touched(cs, rank, name) !! suspect ==> m.answer == Eval(cs, rank, name))
    decreases Height(cs, rank, name), 1, 0
  {
    if name in cs && name !in cache {
      MemoFromIsEval(cs, rank, cache, name, [], suspect);
    }
  }

  lemma {:induction false} MemoFromIsEval(cs: Constructors, rank: string -> nat, cache: Cache, name: string,
                                          h: seq<Answer>, suspect: set<string>)
    requires Sound(cs, rank) && name in cs && Fresh(cs, rank, cache, suspect)
    ensures var m := MemoFrom(cs, rank, cache, name, h);
            && Fresh(cs, rank, m.cache, suspect)
            && (TouchedFrom(cs, rank, name, h) !! suspect ==> m.answer == EvalFrom(cs, rank, name, h))
    decreases Height(cs, rank, name), 0, cs[name].left(h)
  {
    if cs[name].next(h).Ask? {
      var m := cs[name].next(h).name;
      MemoIsEval(cs, rank, cache, m, suspect);
      var first := Memo(cs, rank, cache, m);
      MemoFromIsEval(cs, rank, first.cache, name, h + [first.answer], suspect);
    }
  }

  // ---------------------------------------------------- constructed only once

  ghost predicate NoDuplicates(names: seq<string>) {
    forall i, j :: 0 <= i < j < |names| ==> names[i] != names[j]
  }

  /** `built` names the newly cached services, each once. */
  ghost predicate BuiltOnce(before: Cache, built: seq<string>, after: Cache) {
    && NoDuplicates(built)
    && (forall n :: n in built ==> n !in before)
    && (forall n :: n in after <==> n in before || n in built)
  }

  lemma BuiltOnceTrans(a: Cache, one: seq<string>, b: Cache, two: seq<string>, c: Cache)
    requires BuiltOnce(a, one, b) && BuiltOnce(b, two, c)
    ensures BuiltOnce(a, one + two, c)
  {
    forall i, j | 0 <= i < |one| && 0 <= j < |two|
      ensures one[i] != two[j]
    {
      assert one[i] in one && two[j] in two;
    }
  }

  lemma {:induction false} MemoBuildsOnce(cs: Constructors, rank: string -> nat, cache: Cache, name: string)
    requires Sound(cs, rank)
    ensures BuiltOnce(cache, Memo(cs, rank, cache, name).built, Memo(cs, rank, cache, name).cache)
    decreases Height(cs, rank, name), 1, 0
  {
    if name in cs && name !in cache {
      MemoFromBuildsOnce(cs, rank, cache, name, []);
      MemoFromAddsBelow(cs, rank, cache, name, []);
      var m := MemoFrom(cs, rank, cache, name, []);
      if m.answer.Some? {
        assert BuiltOnce(m.cache, [name], m.cache[name := m.answer.value]);
        BuiltOnceTrans(cache, m.built, m.cache, [name], m.cache[name := m.answer.value]);
      }
    }
  }

  lemma {:induction false} MemoFromBuildsOnce(cs: Constructors, rank: string -> nat, cache: Cache, name: string,
                                              h: seq<Answer>)
    requires Sound(cs, rank) && name in cs
    ensures BuiltOnce(cache, MemoFrom(cs, rank, cache, name, h).built, MemoFrom(cs, rank, cache, name, h).cache)
    decreases Height(cs, rank, name), 0, cs[name].left(h)
  {
    if cs[name].next(h).Ask? {
      var m := cs[name].next(h).name;
      var first := Memo(cs, rank, cache, m);
      MemoBuildsOnce(cs, rank, cache, m);
      MemoFromBuildsOnce(cs, rank, first.cache, name, h + [first.answer]);
      var rest := MemoFrom(cs, rank, first.cache, name, h + [first.answer]);
      BuiltOnceTrans(cache, first.built, first.cache, rest.built, rest.cache);
    }
  }

  /** A lookup repeated gives the same instance, and constructs and changes nothing. */
  lemma SecondLookup(cs: Constructors, rank: string -> nat, cache: Cache, name: string)
    requires Sound(cs, rank)
    ensures var first := Memo(cs, rank, cache, name);
            first.answer.Some? ==>
              && name in first.cache && first.cache[name] == first.answer.value
              && Memo(cs, rank, first.cache, name) == Memoised(first.cache, first.answer, [])
  {
    if name in cs && name !in cache {
      assert name in Memo(cs, rank, cache, name).cache || Memo(cs, rank, cache, name).answer.None?;
    }
  }

  /** So it is after any further lookups, until an update: one instance serves all of them. */
  lemma {:induction false} LaterLookup(cs: Constructors, rank: string -> nat, cache: Cache, name: string,
                                       others: seq<string>)
    requires Sound(cs, rank) && name in cs && name in cache
    ensures var later := LookupAll(cs, rank, cache, others);
            Memo(cs, rank, later, name) == Memoised(later, Some(cache[name]), [])
    decreases |others|
  {
    if others != [] {
      MemoAddsBelow(cs, rank, cache, others[0]);
      LaterLookup(cs, rank, Memo(cs, rank, cache, others[0]).cache, name, others[1..]);
    }
  }

  ghost function LookupAll(cs: Constructors, rank: string -> nat, cache: Cache, names: seq<string>): Cache
    requires Sound(cs, rank)
    decreases |names|
  {
    if names == [] then cache else LookupAll(cs, rank, Memo(cs, rank, cache, names[0]).cache, names[1..])
  }

  // ----------------------------------------------------------------- updates

  /** Evaluation depends on the constructors it touches and on nothing else, not even on the ranking. */
  lemma {:induction false} SameWhereUntouched(cs: Constructors, rank: string -> nat, ds: Constructors,
                                              rank': string -> nat, name: string, changed: set<string>)
    requires Sound(cs, rank) && Sound(ds, rank')
    requires forall n :: n !in changed ==> (n in cs <==> n in ds) && (n in cs ==> cs[n] == ds[n])
    requires Touched(cs, rank, name) !! changed
    ensures Touched(ds, rank', name) == Touched(cs, rank, name)
    ensures Eval(ds, rank', name) == Eval(cs, rank, name)
    decreases Height(cs, rank, name), 1, 0
  {
    assert name in Touched(cs, rank, name);
    if name in cs {
      SameFromWhereUntouched(cs, rank, ds, rank', name, [], changed);
    }
  }

  lemma {:induction false} SameFromWhereUntouched(cs: Constructors, rank: string -> nat, ds: Constructors,
                                                  rank': string -> nat, name: string, h: seq<Answer>,
                                                  changed: set<string>)
    requires Sound(cs, rank) && Sound(ds, rank')
    requires forall n :: n !in changed ==> (n in cs <==> n in ds) && (n in cs ==> cs[n] == ds[n])
    requires name in cs && name !in changed && TouchedFrom(cs, rank, name, h) !! changed
    ensures TouchedFrom(ds, rank', name, h) == TouchedFrom(cs, rank, name, h)
    ensures EvalFrom(ds, rank', name, h) == EvalFrom(cs, rank, name, h)
    decreases Height(cs, rank, name), 0, cs[name].left(h)
  {
    if cs[name].next(h).Ask? {
      var m := cs[name].next(h).name;
      SameWhereUntouched(cs, rank, ds, rank', m, changed);
      SameFromWhereUntouched(cs, rank, ds, rank', name, h + [Eval(cs, rank, m)], changed);
    }
  }

  /** The cached services that depend on an updated one. */
  ghost function Affected(cs: Constructors, rank: string -> nat, cache: Cache, updated: set<string>): set<string>
    requires Sound(cs, rank)
  {
    set n | n in cache && n !in updated && !(Touched(cs, rank, n) !! updated)
  }

  /**
   After an update the cached instances with no updated transitive dependency
   still equal plain evaluation under the new constructors.
   */
  lemma UpdateKeepsFresh(cs: Constructors, rank: string -> nat, cache: Cache, suspect: set<string>,
                         update: Constructors, rank': string -> nat)
    requires Sound(cs, rank) && Sound(cs + update, rank') && Fresh(cs, rank, cache, suspect)
    ensures Fresh(cs + update, rank', cache - update.Keys,
                  suspect - update.Keys + Affected(cs, rank, cache, update.Keys))
  {
    var ds := cs + update;
    var suspect' := suspect - update.Keys + Affected(cs, rank, cache, update.Keys);
    forall n | n in cache - update.Keys && Touched(ds, rank', n) !! suspect'
      ensures Eval(ds, rank', n) == Some(cache[n])
    {
      assert n in Touched(ds, rank', n);
      assert Touched(cs, rank, n) !! update.Keys;
      SameWhereUntouched(cs, rank, ds, rank', n, update.Keys);
      assert suspect <= suspect' + update.Keys;
    }
  }

  /** Answers after each of which but the last the constructor asks again, and after the last builds. */
  ghost predicate Complete(c: Constructor, h: seq<Answer>) {
    c.next(h).Build? && forall k :: 0 <= k < |h| ==> c.next(h[..k]).Ask?
  }

  /** The answers a constructor gets in plain evaluation, all of them, continuing from `h`. */
  ghost function Answers(cs: Constructors, rank: string -> nat, name: string, h: seq<Answer>): (full: seq<Answer>)
    requires Sound(cs, rank) && name in cs
    ensures h <= full && cs[name].next(full) == Build(EvalFrom(cs, rank, name, h))
    decreases Height(cs, rank, name), 0, cs[name].left(h)
  {
    match cs[name].next(h)
    case Build(_) => h
    case Ask(m) => Answers(cs, rank, name, h + [Eval(cs, rank, m)])
  }

  /** The services a constructor itself asks for in plain evaluation. */
  ghost function Asked(cs: Constructors, rank: string -> nat, name: string, h: seq<Answer>): set<string>
    requires Sound(cs, rank) && name in cs
    decreases Height(cs, rank, name), 0, cs[name].left(h)
  {
    match cs[name].next(h)
    case Build(_) => {}
    case Ask(m) => {m} + Asked(cs, rank, name, h + [Eval(cs, rank, m)])
  }

  lemma {:induction false} AnswersAreComplete(cs: Constructors, rank: string -> nat, name: string, h: seq<Answer>)
    requires Sound(cs, rank) && name in cs
    requires forall k :: 0 <= k < |h| ==> cs[name].next(h[..k]).Ask?
    ensures Complete(cs[name], Answers(cs, rank, name, h))
    decreases cs[name].left(h)
  {
    if cs[name].next(h).Ask? {
      var h' := h + [Eval(cs, rank, cs[name].next(h).name)];
      forall k | 0 <= k < |h'|
        ensures cs[name].next(h'[..k]).Ask?
      {
        assert h'[..k] == h[..k];
        assert h[..|h|] == h;
      }
      AnswersAreComplete(cs, rank, name, h');
    }
  }

  /** A constructor that never builds the same service from different answers. */
  ghost predicate Injective(c: Constructor) {
    forall g: seq<Answer>, h: seq<Answer> ::
      Complete(c, g) && Complete(c, h) && c.next(g) == c.next(h) && c.next(g).result.Some? ==> g == h
  }

  /** The same constructor gets the same answers exactly if what it asks for evaluates the same. */
  lemma {:induction false} SameAnswers(cs: Constructors, rank: string -> nat, ds: Constructors, rank': string -> nat,
                                       name: string, h: seq<Answer>)
    requires Sound(cs, rank) && Sound(ds, rank') && name in cs && name in ds && cs[name] == ds[name]
    ensures Answers(cs, rank, name, h) == Answers(ds, rank', name, h) <==>
            forall m :: m in Asked(cs, rank, name, h) ==> Eval(ds, rank', m) == Eval(cs, rank, m)
    decreases cs[name].left(h)
  {
    if cs[name].next(h).Ask? {
      var m := cs[name].next(h).name;
      var one := Eval(cs, rank, m);
      var two := Eval(ds, rank', m);
      assert m in Asked(cs, rank, name, h);
      if one == two {
        SameAnswers(cs, rank, ds, rank', name, h + [one]);
      } else {
        assert (h + [one])[|h|] == one && (h + [two])[|h|] == two;
        assert Answers(cs, rank, name, h)[|h|] == one;
        assert Answers(ds, rank', name, h)[|h|] == two;
      }
    }
  }

  /**
   After an update, a cached instance that was not registered anew equals fresh
   evaluation if the services its constructor asks for evaluate as before, also
   where some of them were updated; for constructors that never build the same
   service from different answers it does exactly then.
   */
  lemma FreshAfterUpdate(cs: Constructors, rank: string -> nat, cache: Cache, update: Constructors,
                         rank': string -> nat, name: string)
    requires Sound(cs, rank) && Sound(cs + update, rank')
    requires name in cs && name in cache - update.Keys && Eval(cs, rank, name) == Some(cache[name])
    ensures var ds := cs + update;
            var same := forall m :: m in Asked(cs, rank, name, []) ==> Eval(ds, rank', m) == Eval(cs, rank, m);
            && (same ==> Eval(ds, rank', name) == Some(cache[name]))
            && (Injective(cs[name]) ==> (Eval(ds, rank', name) == Some(cache[name]) <==> same))
  {
    var ds := cs + update;
    SameAnswers(cs, rank, ds, rank', name, []);
    AnswersAreComplete(cs, rank, name, []);
    AnswersAreComplete(ds, rank', name, []);
    var full := Answers(cs, rank, name, []);
    var full' := Answers(ds, rank', name, []);
    assert cs[name].next(full) == Build(Eval(cs, rank, name));
    assert cs[name].next(full') == Build(Eval(ds, rank', name));
  }

  // -------------------------------------------------------------------- runs

  datatype Op = Get(name: string) | Update(update: Constructors, rank: string -> nat)

  /**
   A container over its life: `suspect` are the cached services some dependency
   of which was updated after they were constructed; `built` are the services
   constructed since they were last registered.
   */
  datatype State = State(cs: Constructors, rank: string -> nat, cache: Cache, suspect: set<string>, built: seq<string>)

  ghost predicate Allowed(s: State, op: Op) {
    op.Update? ==> Sound(s.cs + op.update, op.rank)
  }

  function Without(names: seq<string>, dropped: set<string>): seq<string> {
    if names == [] then []
    else (if names[0] in dropped then [] else [names[0]]) + Without(names[1..], dropped)
  }

  ghost function Step(s: State, op: Op): State
    requires Sound(s.cs, s.rank) && Allowed(s, op)
    ensures Sound(Step(s, op).cs, Step(s, op).rank)
  {
    match op
    case Get(name) =>
      var m := Memo(s.cs, s.rank, s.cache, name);
      s.(cache := m.cache, built := s.built + m.built)
    case Update(update, rank) =>
      State(s.cs + update, rank, s.cache - update.Keys,
            s.suspect - update.Keys + Affected(s.cs, s.rank, s.cache, update.Keys),
            Without(s.built, update.Keys))
  }

  ghost predicate Run(states: seq<State>, ops: seq<Op>) {
    && |states| == |ops| + 1
    && (forall i :: 0 <= i < |states| ==> Sound(states[i].cs, states[i].rank))
    && (forall i :: 0 <= i < |ops| ==> Allowed(states[i], ops[i]) && states[i + 1] == Step(states[i], ops[i]))
  }

  ghost predicate Empty(s: State) {
    s.cs == map[] && s.cache == map[] && s.suspect == {} && s.built == []
  }

  /** What holds of a container at every moment. */
  ghost predicate Inv(s: State) {
    && Sound(s.cs, s.rank)
    && Fresh(s.cs, s.rank, s.cache, s.suspect)
    && NoDuplicates(s.built)
    && (forall n :: n in s.built <==> n in s.cache)
  }

  lemma {:induction false} WithoutMembers(names: seq<string>, dropped: set<string>)
    ensures forall n :: n in Without(names, dropped) <==> n in names && n !in dropped
    ensures NoDuplicates(names) ==> NoDuplicates(Without(names, dropped))
  {
    if names != [] {
      WithoutMembers(names[1..], dropped);
      if NoDuplicates(names) {
        forall j | 0 <= j < |Without(names[1..], dropped)|
          ensures Without(names[1..], dropped)[j] != names[0]
        {
          assert Without(names[1..], dropped)[j] in names[1..];
        }
      }
    }
  }

  lemma InvStep(s: State, op: Op)
    requires Inv(s) && Allowed(s, op)
    ensures Inv(Step(s, op))
  {
    match op {
      case Get(name) =>
        MemoIsEval(s.cs, s.rank, s.cache, name, s.suspect);
        MemoBuildsOnce(s.cs, s.rank, s.cache, name);
        var m := Memo(s.cs, s.rank, s.cache, name);
        forall i, j | 0 <= i < |s.built| && 0 <= j < |m.built|
          ensures s.built[i] != m.built[j]
        {
          assert s.built[i] in s.built && m.built[j] in m.built;
        }
      case Update(update, rank) =>
        UpdateKeepsFresh(s.cs, s.rank, s.cache, s.suspect, update, rank);
        WithoutMembers(s.built, update.Keys);
    }
  }

  lemma {:induction false} InvHolds(states: seq<State>, ops: seq<Op>, i: nat)
    requires Run(states, ops) && Empty(states[0]) && i < |states|
    ensures Inv(states[i])
  {
    if i > 0 {
      InvHolds(states, ops, i - 1);
      InvStep(states[i - 1], ops[i - 1]);
      assert states[i - 1 + 1] == Step(states[i - 1], ops[i - 1]);
    }
  }

  /**
   Over any life of a container: a `Get` of a service none of whose transitive
   dependencies was updated behind a cached instance returns what plain
   evaluation under the current constructors returns, and no service is
   constructed twice between two registrations of it.
   */
  lemma GetIsEvaluation(states: seq<State>, ops: seq<Op>, i: nat)
    requires Run(states, ops) && Empty(states[0]) && i < |ops| && ops[i].Get?
    ensures var s := states[i];
            && NoDuplicates(states[i + 1].built)
            && (Touched(s.cs, s.rank, ops[i].name) !! s.suspect ==>
                  Memo(s.cs, s.rank, s.cache, ops[i].name).answer == Eval(s.cs, s.rank, ops[i].name))
  {
    InvHolds(states, ops, i);
    InvHolds(states, ops, i + 1);
    MemoIsEval(states[i].cs, states[i].rank, states[i].cache, ops[i].name, states[i].suspect);
  }

  lemma {:induction false} NothingSuspect(states: seq<State>, ops: seq<Op>, i: nat)
    requires Run(states, ops) && Empty(states[0]) && i < |states|
    requires forall k, l :: 0 <= k < l < i && ops[k].Get? ==> ops[l].Get?
    ensures states[i].suspect == {}
    ensures (forall k :: 0 <= k < i ==> ops[k].Update?) ==> states[i].cache == map[]
  {
    if i > 0 {
      NothingSuspect(states, ops, i - 1);
      assert states[i - 1 + 1] == Step(states[i - 1], ops[i - 1]);
    }
  }

  /** If all updates come before the first `Get`, every `Get` is plain evaluation. */
  lemma UpdatesFirst(states: seq<State>, ops: seq<Op>, i: nat)
    requires Run(states, ops) && Empty(states[0]) && i < |ops| && ops[i].Get?
    requires forall k, l :: 0 <= k < l < i && ops[k].Get? ==> ops[l].Get?
    ensures var s := states[i];
            Memo(s.cs, s.rank, s.cache, ops[i].name).answer == Eval(s.cs, s.rank, ops[i].name)
  {
    NothingSuspect(states, ops, i);
    GetIsEvaluation(states, ops, i);
  }

  // ------------------------------------------------------------ an example

  function Bar(): Constructor {
    Constructor((h: seq<Answer>) => if h == [] then Ask("foo") else Build(h[0]),
                (h: seq<Answer>) => if h == [] then 1 else 0)
  }

  /** A service "foo", and a service "bar" that is what "foo" is. */
  function FooBar(instance: int): Constructors {
    map["foo" := Constant(instance), "bar" := Bar()]
  }

  function FooFirst(name: string): nat {
    if name == "bar" then 1 else 0
  }

  lemma FooBarIsEvaluated(instance: int)
    ensures Sound(FooBar(instance), FooFirst)
    ensures Eval(FooBar(instance), FooFirst, "bar") == Some(instance)
  {
    var cs := FooBar(instance);
    assert Eval(cs, FooFirst, "foo") == Some(instance);
    assert EvalFrom(cs, FooFirst, "bar", [] + [Some(instance)]) == Some(instance);
  }

  lemma FooBarIsBuilt(instance: int)
    requires Sound(FooBar(instance), FooFirst)
    ensures Memo(FooBar(instance), FooFirst, map[], "bar").cache == map["foo" := instance, "bar" := instance]
  {
    var cs := FooBar(instance);
    var foo := map["foo" := instance];
    assert Memo(cs, FooFirst, map[], "foo") == Memoised(foo, Some(instance), [] + ["foo"]);
    assert MemoFrom(cs, FooFirst, foo, "bar", [] + [Some(instance)]) == Memoised(foo, Some(instance), []);
  }

  lemma BarAsksOnce(h: seq<Answer>)
    requires |h| > 1
    ensures Bar().next(h[..1]).Build?
  {
    assert h[..1] != [];
  }

  /** The constructor of the example meets the condition of `FreshAfterUpdate`. */
  lemma BarIsInjective()
    ensures Injective(Bar())
  {
    forall h: seq<Answer> | Complete(Bar(), h)
      ensures h == [h[0]] && Bar().next(h) == Build(h[0])
    {
      if |h| > 1 {
        BarAsksOnce(h);
      }
    }
  }

  /** A service built from another keeps using the old instance after that one is replaced. */
  lemma StaleAfterUpdate()
    ensures Sound(FooBar(1), FooFirst) && Sound(FooBar(1) + map["foo" := Constant(2)], FooFirst)
    ensures var cache := Memo(FooBar(1), FooFirst, map[], "bar").cache - {"foo"};
            var updated := FooBar(1) + map["foo" := Constant(2)];
            Memo(updated, FooFirst, cache, "bar").answer == Some(1) && Eval(updated, FooFirst, "bar") == Some(2)
  {
    FooBarIsEvaluated(1);
    FooBarIsBuilt(1);
    FooBarIsEvaluated(2);
    assert FooBar(1) + map["foo" := Constant(2)] == FooBar(2);
  }
}
