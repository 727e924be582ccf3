/**
 Lookups that overlap (pkg/di/container.go). `Get` takes the read lock only, so
 several goroutines can run constructors at once; an update waits for all of them.
 */
module OverlappingLookups {
  import opened Options
  import opened Container

  /** A constructor that is running: the service it builds and the answers it has had. */
  datatype Frame = Frame(name: string, answers: seq<Answer>)

  datatype Returned = Returned(name: string, answer: Answer)

  /**
   Each thread is the stack of constructors it is running, the innermost last.
   `built` are the services constructed, `returned` the answers to callers.
   */
  datatype Pool = Pool(cache: Cache, threads: seq<seq<Frame>>, built: seq<string>, returned: seq<Returned>)

  datatype Turn = Call(thread: nat, name: string) | Advance(thread: nat)

  predicate MustBuild(cs: Constructors, cache: Cache, name: string) {
    name in cs && name !in cache
  }

  function Known(cs: Constructors, cache: Cache, name: string): Answer {
    if name in cs && name in cache then Some(cache[name]) else None
  }

  function Told(f: Frame, answer: Answer): Frame {
    f.(answers := f.answers + [answer])
  }

  function Top(stack: seq<Frame>): Frame
    requires stack != []
  {
    stack[|stack| - 1]
  }

  function Below(stack: seq<Frame>): seq<Frame>
    requires stack != []
  {
    stack[..|stack| - 1]
  }

  function AfterCall(cs: Constructors, s: Pool, i: nat, name: string): Pool
    requires i < |s.threads|
  {
    if MustBuild(cs, s.cache, name) then s.(threads := s.threads[i := [Frame(name, [])]])
    else s.(returned := s.returned + [Returned(name, Known(cs, s.cache, name))])
  }

  /** The innermost constructor asks: for a known service, or for one whose constructor has to run first. */
  function AfterAsk(cs: Constructors, s: Pool, i: nat, m: string): Pool
    requires i < |s.threads| && s.threads[i] != []
  {
    var stack := s.threads[i];
    s.(threads := s.threads[i := if MustBuild(cs, s.cache, m) then stack + [Frame(m, [])]
                                 else Below(stack) + [Told(Top(stack), Known(cs, s.cache, m))]])
  }

  /** The innermost constructor ends: its service is kept and handed to who asked for it. */
  function AfterBuild(s: Pool, i: nat, r: Answer): Pool
    requires i < |s.threads| && s.threads[i] != []
  {
    var name := Top(s.threads[i]).name;
    var below := Below(s.threads[i]);
    Pool(
      if r.Some? then s.cache[name := r.value] else s.cache - {name},
      s.threads[i := if below == [] then [] else Below(below) + [Told(Top(below), r)]],
      if r.Some? then s.built + [name] else s.built,
      if below == [] then s.returned + [Returned(name, r)] else s.returned)
  }

  ghost predicate Next(cs: Constructors, s: Pool, turn: Turn, t: Pool) {
    && turn.thread < |s.threads|
    && match turn
       case Call(i, name) => s.threads[i] == [] && t == AfterCall(cs, s, i, name)
       case Advance(i) =>
         && s.threads[i] != [] && Top(s.threads[i]).name in cs
         && var top := Top(s.threads[i]);
            match cs[top.name].next(top.answers)
            case Ask(m) => t == AfterAsk(cs, s, i, m)
            case Build(r) => t == AfterBuild(s, i, r)
  }

  predicate AllIdle(s: Pool) {
    forall i :: 0 <= i < |s.threads| ==> s.threads[i] == []
  }

  /** Lookups that overlap in any way, from the first call on a quiet container with the given cache. */
  ghost predicate Lookups(cs: Constructors, cache: Cache, pools: seq<Pool>, turns: seq<Turn>) {
    && |pools| == |turns| + 1
    && pools[0].cache == cache && AllIdle(pools[0]) && pools[0].built == [] && pools[0].returned == []
    && forall i :: 0 <= i < |turns| ==> Next(cs, pools[i], turns[i], pools[i + 1])
  }

  // --------------------------------------------- what a lookup has to answer

  /** The constructors with those of cached services replaced by constants. */
  ghost function Kept(cs: Constructors, rank: string -> nat, cache: Cache): (ds: Constructors)
    requires Sound(cs, rank)
    ensures Sound(ds, rank)
  {
    map n | n in cs :: if n in cache then Constant(cache[n]) else cs[n]
  }

  /** What is in the cache is kept from the start or what the others evaluate to. */
  ghost predicate CacheOk(cs: Constructors, rank: string -> nat, cache0: Cache, cache: Cache)
    requires Sound(cs, rank)
  {
    && cache0.Keys <= cache.Keys
    && forall n :: n in cache ==> n in cs && Eval(Kept(cs, rank, cache0), rank, n) == Some(cache[n])
  }

  lemma {:induction false} MemoIsKept(cs: Constructors, rank: string -> nat, cache0: Cache, cache: Cache, name: string)
    requires Sound(cs, rank) && CacheOk(cs, rank, cache0, cache)
    ensures CacheOk(cs, rank, cache0, Memo(cs, rank, cache, name).cache)
    ensures Memo(cs, rank, cache, name).answer == Eval(Kept(cs, rank, cache0), rank, name)
    decreases Height(cs, rank, name), 1, 0
  {
    if name in cs && name !in cache {
      MemoFromIsKept(cs, rank, cache0, cache, name, []);
    }
  }

  lemma {:induction false} MemoFromIsKept(cs: Constructors, rank: string -> nat, cache0: Cache, cache: Cache,
                                          name: string, h: seq<Answer>)
    requires Sound(cs, rank) && CacheOk(cs, rank, cache0, cache) && name in cs && name !in cache0
    ensures CacheOk(cs, rank, cache0, MemoFrom(cs, rank, cache, name, h).cache)
    ensures MemoFrom(cs, rank, cache, name, h).answer == EvalFrom(Kept(cs, rank, cache0), rank, name, h)
    decreases Height(cs, rank, name), 0, cs[name].left(h)
  {
    if cs[name].next(h).Ask? {
      var m := cs[name].next(h).name;
      MemoIsKept(cs, rank, cache0, cache, m);
      var first := Memo(cs, rank, cache, m);
      MemoFromIsKept(cs, rank, cache0, first.cache, name, h + [first.answer]);
    }
  }

  lemma StartIsOk(cs: Constructors, rank: string -> nat, cache: Cache)
    requires Sound(cs, rank) && cache.Keys <= cs.Keys
    ensures CacheOk(cs, rank, cache, cache)
  {
    var ds := Kept(cs, rank, cache);
    forall n | n in cache
      ensures Eval(ds, rank, n) == Some(cache[n])
    {
      assert ds[n] == Constant(cache[n]);
    }
  }

  // --------------------------------------------------- invariant of the lookups

  /** A running constructor has had the answers of evaluation so far. */
  ghost predicate FrameOk(cs: Constructors, rank: string -> nat, cache0: Cache, f: Frame)
    requires Sound(cs, rank)
  {
    && f.name in cs && f.name !in cache0
    && EvalFrom(Kept(cs, rank, cache0), rank, f.name, f.answers) == Eval(Kept(cs, rank, cache0), rank, f.name)
  }

  /** Every constructor but the innermost waits for the service of the next one. */
  ghost predicate StackOk(cs: Constructors, rank: string -> nat, cache0: Cache, stack: seq<Frame>)
    requires Sound(cs, rank)
  {
    && (forall k :: 0 <= k < |stack| ==> FrameOk(cs, rank, cache0, stack[k]))
    && (forall k :: 0 <= k < |stack| - 1 ==> Waits(cs, stack[k], stack[k + 1].name))
  }

  ghost predicate Waits(cs: Constructors, f: Frame, name: string) {
    f.name in cs && cs[f.name].next(f.answers) == Ask(name)
  }

  ghost predicate PoolOk(cs: Constructors, rank: string -> nat, cache0: Cache, s: Pool)
    requires Sound(cs, rank)
  {
    && CacheOk(cs, rank, cache0, s.cache)
    && (forall i :: 0 <= i < |s.threads| ==> StackOk(cs, rank, cache0, s.threads[i]))
    && (forall r :: r in s.returned ==> r.answer == Eval(Kept(cs, rank, cache0), rank, r.name))
  }

  lemma KnownIsEval(cs: Constructors, rank: string -> nat, cache0: Cache, cache: Cache, name: string)
    requires Sound(cs, rank) && CacheOk(cs, rank, cache0, cache) && !MustBuild(cs, cache, name)
    ensures Known(cs, cache, name) == Eval(Kept(cs, rank, cache0), rank, name)
  {
  }

  lemma NewFrame(cs: Constructors, rank: string -> nat, cache0: Cache, name: string)
    requires Sound(cs, rank) && name in cs && name !in cache0
    ensures FrameOk(cs, rank, cache0, Frame(name, []))
  {
  }

  /** Told what it waits for, a constructor goes on as in evaluation. */
  lemma ToldIsOk(cs: Constructors, rank: string -> nat, cache0: Cache, f: Frame, m: string)
    requires Sound(cs, rank) && FrameOk(cs, rank, cache0, f) && Waits(cs, f, m)
    ensures FrameOk(cs, rank, cache0, Told(f, Eval(Kept(cs, rank, cache0), rank, m)))
  {
  }

  lemma Pushed(cs: Constructors, rank: string -> nat, cache0: Cache, stack: seq<Frame>, m: string)
    requires Sound(cs, rank) && StackOk(cs, rank, cache0, stack) && stack != []
    requires Waits(cs, Top(stack), m) && m in cs && m !in cache0
    ensures StackOk(cs, rank, cache0, stack + [Frame(m, [])])
  {
    NewFrame(cs, rank, cache0, m);
    var after := stack + [Frame(m, [])];
    forall k | 0 <= k < |after|
      ensures FrameOk(cs, rank, cache0, after[k])
    {
      assert k < |stack| ==> after[k] == stack[k] && FrameOk(cs, rank, cache0, stack[k]);
    }
    forall k | 0 <= k < |after| - 1
      ensures Waits(cs, after[k], after[k + 1].name)
    {
      assert k < |stack| - 1 ==> Waits(cs, stack[k], stack[k + 1].name);
    }
  }

  /** The innermost constructor is told what it waits for. */
  lemma InnermostTold(cs: Constructors, rank: string -> nat, cache0: Cache, stack: seq<Frame>, m: string)
    requires Sound(cs, rank) && StackOk(cs, rank, cache0, stack) && stack != [] && Waits(cs, Top(stack), m)
    ensures StackOk(cs, rank, cache0, Below(stack) + [Told(Top(stack), Eval(Kept(cs, rank, cache0), rank, m))])
  {
    var f := Told(Top(stack), Eval(Kept(cs, rank, cache0), rank, m));
    var after := Below(stack) + [f];
    assert FrameOk(cs, rank, cache0, Top(stack));
    ToldIsOk(cs, rank, cache0, Top(stack), m);
    forall k | 0 <= k < |after|
      ensures FrameOk(cs, rank, cache0, after[k])
    {
      assert k < |stack| - 1 ==> after[k] == stack[k] && FrameOk(cs, rank, cache0, stack[k]);
    }
    forall k | 0 <= k < |after| - 1
      ensures Waits(cs, after[k], after[k + 1].name)
    {
      assert Waits(cs, stack[k], stack[k + 1].name);
    }
  }

  lemma Popped(cs: Constructors, rank: string -> nat, cache0: Cache, stack: seq<Frame>)
    requires Sound(cs, rank) && StackOk(cs, rank, cache0, stack) && stack != []
    ensures StackOk(cs, rank, cache0, Below(stack))
    ensures |stack| > 1 ==> Waits(cs, Top(Below(stack)), Top(stack).name)
  {
    forall k | 0 <= k < |stack| - 1
      ensures FrameOk(cs, rank, cache0, stack[k]) && Waits(cs, stack[k], stack[k + 1].name)
    {
    }
  }

  lemma OtherThreads(cs: Constructors, rank: string -> nat, cache0: Cache, s: Pool, i: nat, stack: seq<Frame>)
    requires Sound(cs, rank) && PoolOk(cs, rank, cache0, s) && i < |s.threads| && StackOk(cs, rank, cache0, stack)
    ensures PoolOk(cs, rank, cache0, s.(threads := s.threads[i := stack]))
  {
  }

  lemma AskStep(cs: Constructors, rank: string -> nat, cache0: Cache, s: Pool, i: nat, m: string)
    requires Sound(cs, rank) && PoolOk(cs, rank, cache0, s) && i < |s.threads| && s.threads[i] != []
    requires Waits(cs, Top(s.threads[i]), m)
    ensures PoolOk(cs, rank, cache0, AfterAsk(cs, s, i, m))
  {
    var stack := s.threads[i];
    if MustBuild(cs, s.cache, m) {
      Pushed(cs, rank, cache0, stack, m);
      OtherThreads(cs, rank, cache0, s, i, stack + [Frame(m, [])]);
    } else {
      KnownIsEval(cs, rank, cache0, s.cache, m);
      InnermostTold(cs, rank, cache0, stack, m);
      OtherThreads(cs, rank, cache0, s, i, Below(stack) + [Told(Top(stack), Known(cs, s.cache, m))]);
    }
  }

  /** What a constructor builds at its end is what evaluation says. */
  lemma BuildIsEval(cs: Constructors, rank: string -> nat, cache0: Cache, f: Frame, r: Answer)
    requires Sound(cs, rank) && FrameOk(cs, rank, cache0, f) && cs[f.name].next(f.answers) == Build(r)
    ensures r == Eval(Kept(cs, rank, cache0), rank, f.name)
  {
  }

  lemma BuildStep(cs: Constructors, rank: string -> nat, cache0: Cache, s: Pool, i: nat, r: Answer)
    requires Sound(cs, rank) && PoolOk(cs, rank, cache0, s) && i < |s.threads| && s.threads[i] != []
    requires var f := Top(s.threads[i]); f.name in cs && cs[f.name].next(f.answers) == Build(r)
    ensures PoolOk(cs, rank, cache0, AfterBuild(s, i, r))
    ensures r == Eval(Kept(cs, rank, cache0), rank, Top(s.threads[i]).name)
    ensures s.cache.Keys <= AfterBuild(s, i, r).cache.Keys
  {
    var stack := s.threads[i];
    assert FrameOk(cs, rank, cache0, Top(stack));
    BuildIsEval(cs, rank, cache0, Top(stack), r);
    Popped(cs, rank, cache0, stack);
    var below := Below(stack);
    if below != [] {
      InnermostTold(cs, rank, cache0, below, Top(stack).name);
      OtherThreads(cs, rank, cache0, s, i, Below(below) + [Told(Top(below), r)]);
    } else {
      OtherThreads(cs, rank, cache0, s, i, []);
    }
  }

  lemma PoolStep(cs: Constructors, rank: string -> nat, cache0: Cache, s: Pool, turn: Turn, t: Pool)
    requires Sound(cs, rank) && PoolOk(cs, rank, cache0, s) && Next(cs, s, turn, t)
    ensures PoolOk(cs, rank, cache0, t) && s.cache.Keys <= t.cache.Keys
  {
    var i := turn.thread;
    match turn {
      case Call(_, name) =>
        if MustBuild(cs, s.cache, name) {
          NewFrame(cs, rank, cache0, name);
        } else {
          KnownIsEval(cs, rank, cache0, s.cache, name);
        }
      case Advance(_) =>
        var top := Top(s.threads[i]);
        if cs[top.name].next(top.answers).Ask? {
          AskStep(cs, rank, cache0, s, i, cs[top.name].next(top.answers).name);
        } else {
          BuildStep(cs, rank, cache0, s, i, cs[top.name].next(top.answers).result);
        }
    }
  }

  lemma {:induction false} PoolOkThroughout(cs: Constructors, rank: string -> nat, cache: Cache, pools: seq<Pool>,
                                            turns: seq<Turn>, i: nat)
    requires Sound(cs, rank) && cache.Keys <= cs.Keys && Lookups(cs, cache, pools, turns) && i < |pools|
    ensures PoolOk(cs, rank, cache, pools[i])
  {
    if i == 0 {
      StartIsOk(cs, rank, cache);
    } else {
      PoolOkThroughout(cs, rank, cache, pools, turns, i - 1);
      assert Next(cs, pools[i - 1], turns[i - 1], pools[i - 1 + 1]);
      PoolStep(cs, rank, cache, pools[i - 1], turns[i - 1], pools[i]);
    }
  }

  /**
   However lookups overlap, each answers what it would have answered alone, and
   what is kept for a service is what a lookup of it alone would have built.
   */
  lemma OverlappingLookupsAnswerAlike(cs: Constructors, rank: string -> nat, cache: Cache, pools: seq<Pool>,
                                      turns: seq<Turn>, i: nat)
    requires Sound(cs, rank) && cache.Keys <= cs.Keys && Lookups(cs, cache, pools, turns) && i < |pools|
    ensures forall r :: r in pools[i].returned ==> r.answer == Memo(cs, rank, cache, r.name).answer
    ensures forall n :: n in pools[i].cache ==> n in cs && Some(pools[i].cache[n]) == Memo(cs, rank, cache, n).answer
  {
    PoolOkThroughout(cs, rank, cache, pools, turns, i);
    StartIsOk(cs, rank, cache);
    forall n: string
      ensures Memo(cs, rank, cache, n).answer == Eval(Kept(cs, rank, cache), rank, n)
    {
      MemoIsKept(cs, rank, cache, cache, n);
    }
  }

  // ------------------------------------------------------ every call is answered

  function Called(turns: seq<Turn>, name: string): nat {
    if turns == [] then 0
    else Called(turns[..|turns| - 1], name) +
         if turns[|turns| - 1].Call? && turns[|turns| - 1].name == name then 1 else 0
  }

  function Answered(returned: seq<Returned>, name: string): nat {
    if returned == [] then 0
    else Answered(returned[..|returned| - 1], name) + if returned[|returned| - 1].name == name then 1 else 0
  }

  /** How many running threads were called for the service. */
  function Awaited(threads: seq<seq<Frame>>, name: string): nat {
    if threads == [] then 0 else AwaitedBy(threads[0], name) + Awaited(threads[1..], name)
  }

  function AwaitedBy(stack: seq<Frame>, name: string): nat {
    if stack != [] && stack[0].name == name then 1 else 0
  }

  lemma {:induction false} AwaitedAfter(threads: seq<seq<Frame>>, i: nat, stack: seq<Frame>, name: string)
    requires i < |threads|
    ensures Awaited(threads[i := stack], name) + AwaitedBy(threads[i], name) ==
            Awaited(threads, name) + AwaitedBy(stack, name)
  {
    var after := threads[i := stack];
    if i == 0 {
      assert after[1..] == threads[1..];
    } else {
      AwaitedAfter(threads[1..], i - 1, stack, name);
      assert after[1..] == threads[1..][i - 1 := stack];
    }
  }

  lemma {:induction false} NothingAwaited(threads: seq<seq<Frame>>, name: string)
    requires forall i :: 0 <= i < |threads| ==> threads[i] == []
    ensures Awaited(threads, name) == 0
  {
    if threads != [] {
      NothingAwaited(threads[1..], name);
    }
  }

  /** A turn changes one thread and at most adds one answer, for the service that the thread was called for. */
  lemma AnswersAfter(cs: Constructors, s: Pool, turn: Turn, t: Pool, name: string)
    requires Next(cs, s, turn, t)
    ensures t.threads == s.threads[turn.thread := t.threads[turn.thread]]
    ensures Answered(t.returned, name) + AwaitedBy(t.threads[turn.thread], name) ==
            Answered(s.returned, name) + AwaitedBy(s.threads[turn.thread], name) +
            if turn.Call? && turn.name == name then 1 else 0
  {
    if |t.returned| > |s.returned| {
      assert t.returned[..|s.returned|] == s.returned;
    }
  }

  lemma TurnAnswers(cs: Constructors, s: Pool, turn: Turn, t: Pool, name: string)
    requires Next(cs, s, turn, t)
    ensures Answered(t.returned, name) + Awaited(t.threads, name) ==
            Answered(s.returned, name) + Awaited(s.threads, name) + if turn.Call? && turn.name == name then 1 else 0
  {
    AnswersAfter(cs, s, turn, t, name);
    AwaitedAfter(s.threads, turn.thread, t.threads[turn.thread], name);
  }

  /** Each call is answered once, for the service it asked for, unless its thread still runs. */
  lemma {:induction false} CallsAreAnswered(cs: Constructors, cache: Cache, pools: seq<Pool>, turns: seq<Turn>,
                                            name: string, i: nat)
    requires Lookups(cs, cache, pools, turns) && i < |pools|
    ensures Called(turns[..i], name) == Answered(pools[i].returned, name) + Awaited(pools[i].threads, name)
    ensures AllIdle(pools[i]) ==> Called(turns[..i], name) == Answered(pools[i].returned, name)
  {
    if i == 0 {
      NothingAwaited(pools[0].threads, name);
    } else {
      CallsAreAnswered(cs, cache, pools, turns, name, i - 1);
      assert Next(cs, pools[i - 1], turns[i - 1], pools[i - 1 + 1]);
      TurnAnswers(cs, pools[i - 1], turns[i - 1], pools[i], name);
      assert turns[..i][..i - 1] == turns[..i - 1];
    }
    if AllIdle(pools[i]) {
      NothingAwaited(pools[i].threads, name);
    }
  }

  // ------------------------------------------------ when a service is built twice

  ghost predicate Opens(s: Pool, t: nat, name: string) {
    t < |s.threads| && exists k :: 0 <= k < |s.threads[t]| && s.threads[t][k].name == name
  }

  /** Two threads are constructing the service. */
  ghost predicate Overlap(s: Pool, name: string) {
    exists t: nat, u: nat :: t != u && Opens(s, t, name) && Opens(s, u, name)
  }

  ghost predicate AtMostOnce(built: seq<string>, name: string) {
    forall i, j :: 0 <= i < j < |built| ==> built[i] != name || built[j] != name
  }

  lemma {:induction false} RanksDescend(cs: Constructors, rank: string -> nat, cache0: Cache, stack: seq<Frame>,
                                        k: nat, l: nat)
    requires Sound(cs, rank) && StackOk(cs, rank, cache0, stack) && k < l < |stack|
    ensures rank(stack[l].name) < rank(stack[k].name)
  {
    assert Waits(cs, stack[l - 1], stack[l - 1 + 1].name);
    assert FrameOk(cs, rank, cache0, stack[l]);
    if k < l - 1 {
      RanksDescend(cs, rank, cache0, stack, k, l - 1);
    }
  }

  /** What one turn does to a thread's constructors: it may start one more or end the innermost. */
  lemma NamesAfter(cs: Constructors, s: Pool, turn: Turn, t: Pool, u: nat)
    requires Next(cs, s, turn, t) && u < |s.threads|
    ensures |t.threads| == |s.threads|
    ensures var stack, after := s.threads[u], t.threads[u];
            && (forall k :: 0 <= k < |stack| && k < |after| ==> after[k].name == stack[k].name)
            && |stack| - 1 <= |after| <= |stack| + 1
            && (|after| > |stack| ==> MustBuild(cs, s.cache, Top(after).name))
            && (|after| < |stack| ==> turn == Advance(u) && Top(stack).name in cs &&
                                      cs[Top(stack).name].next(Top(stack).answers).Build?)
  {
    var stack, after := s.threads[u], t.threads[u];
    if u != turn.thread {
      assert after == stack;
    }
  }

  /** A constructor is started only for a service that must be built, and ended only by its last step. */
  lemma OpensAfter(cs: Constructors, s: Pool, turn: Turn, t: Pool, u: nat, name: string)
    requires Next(cs, s, turn, t)
    ensures Opens(t, u, name) && !Opens(s, u, name) ==> MustBuild(cs, s.cache, name)
    ensures Opens(s, u, name) && !Opens(t, u, name) ==>
              && turn == Advance(u) && Top(s.threads[u]).name == name && name in cs
              && cs[name].next(Top(s.threads[u]).answers).Build?
  {
    if u < |s.threads| {
      NamesAfter(cs, s, turn, t, u);
      var stack, after := s.threads[u], t.threads[u];
      if Opens(t, u, name) && !Opens(s, u, name) {
        var k :| 0 <= k < |after| && after[k].name == name;
        assert k >= |stack|;
      }
      if Opens(s, u, name) && !Opens(t, u, name) {
        var k :| 0 <= k < |stack| && stack[k].name == name;
        assert k >= |after|;
      }
    }
  }

  /** The service is built at most once, is kept once built, and nobody builds a kept service. */
  ghost predicate Single(s: Pool, name: string) {
    && AtMostOnce(s.built, name)
    && (name in s.built ==> name in s.cache)
    && (name in s.cache ==> forall t: nat :: !Opens(s, t, name))
  }

  lemma SingleStep(cs: Constructors, rank: string -> nat, cache0: Cache, s: Pool, turn: Turn, t: Pool, name: string)
    requires Sound(cs, rank) && PoolOk(cs, rank, cache0, s) && Next(cs, s, turn, t)
    requires Eval(Kept(cs, rank, cache0), rank, name).Some?
    requires Single(s, name) && !Overlap(s, name)
    ensures Single(t, name)
  {
    forall u: nat
      ensures name in s.cache ==> !Opens(t, u, name)
    {
      OpensAfter(cs, s, turn, t, u, name);
    }
    if turn.Advance? {
      var top := Top(s.threads[turn.thread]);
      if cs[top.name].next(top.answers).Build? {
        BuildStep(cs, rank, cache0, s, turn.thread, cs[top.name].next(top.answers).result);
        if top.name == name {
          assert Opens(s, turn.thread, name);
          BuiltAlone(cs, rank, cache0, s, turn.thread, t, name);
        }
      }
    }
  }

  lemma BuiltAlone(cs: Constructors, rank: string -> nat, cache0: Cache, s: Pool, i: nat, t: Pool, name: string)
    requires Sound(cs, rank) && PoolOk(cs, rank, cache0, s) && Next(cs, s, Advance(i), t)
    requires var top := Top(s.threads[i]); top.name == name && cs[name].next(top.answers).Build?
    requires !Overlap(s, name)
    ensures forall u: nat :: !Opens(t, u, name)
  {
    assert s.threads[i][|s.threads[i]| - 1].name == name;
    assert Opens(s, i, name);
    forall u: nat
      ensures !Opens(t, u, name)
    {
      if u != i {
        assert u < |s.threads| ==> t.threads[u] == s.threads[u];
        assert !Opens(s, u, name);
      } else {
        forall k | 0 <= k < |t.threads[i]|
          ensures t.threads[i][k].name != name
        {
          RanksDescend(cs, rank, cache0, s.threads[i], k, |s.threads[i]| - 1);
        }
      }
    }
  }

  lemma {:induction false} SingleThroughout(cs: Constructors, rank: string -> nat, cache: Cache, pools: seq<Pool>,
                                            turns: seq<Turn>, name: string, i: nat)
    requires Sound(cs, rank) && cache.Keys <= cs.Keys && Lookups(cs, cache, pools, turns) && i < |pools|
    requires Eval(Kept(cs, rank, cache), rank, name).Some?
    requires forall k :: 0 <= k < i ==> !Overlap(pools[k], name)
    ensures Single(pools[i], name)
  {
    if i > 0 {
      SingleThroughout(cs, rank, cache, pools, turns, name, i - 1);
      PoolOkThroughout(cs, rank, cache, pools, turns, i - 1);
      assert Next(cs, pools[i - 1], turns[i - 1], pools[i - 1 + 1]);
      SingleStep(cs, rank, cache, pools[i - 1], turns[i - 1], pools[i], name);
    }
  }

  /** A constructor that is running at `k` and not at `end` has completed in between. */
  lemma {:induction false} CompletedBetween(cs: Constructors, rank: string -> nat, cache: Cache, pools: seq<Pool>,
                                            turns: seq<Turn>, name: string, t: nat, k: nat, end: nat)
    returns (j: nat)
    requires Sound(cs, rank) && cache.Keys <= cs.Keys && Lookups(cs, cache, pools, turns) && k <= end < |pools|
    requires Eval(Kept(cs, rank, cache), rank, name).Some?
    requires Opens(pools[k], t, name) && !Opens(pools[end], t, name)
    ensures k <= j < end && turns[j] == Advance(t) && pools[j + 1].built == pools[j].built + [name]
    decreases end - k
  {
    assert Next(cs, pools[k], turns[k], pools[k + 1]);
    if Opens(pools[k + 1], t, name) {
      j := CompletedBetween(cs, rank, cache, pools, turns, name, t, k + 1, end);
    } else {
      j := k;
      OpensAfter(cs, pools[k], turns[k], pools[k + 1], t, name);
      PoolOkThroughout(cs, rank, cache, pools, turns, k);
      BuildStep(cs, rank, cache, pools[k], t, cs[name].next(Top(pools[k].threads[t]).answers).result);
    }
  }

  lemma {:induction false} BuiltGrows(cs: Constructors, cache: Cache, pools: seq<Pool>, turns: seq<Turn>,
                                      i: nat, j: nat)
    requires Lookups(cs, cache, pools, turns) && i <= j < |pools|
    ensures pools[i].built <= pools[j].built
  {
    if i < j {
      BuiltGrows(cs, cache, pools, turns, i, j - 1);
      assert Next(cs, pools[j - 1], turns[j - 1], pools[j - 1 + 1]);
    }
  }

  lemma OverlapBuildsTwice(cs: Constructors, rank: string -> nat, cache: Cache, pools: seq<Pool>, turns: seq<Turn>,
                           name: string, k: nat)
    requires Sound(cs, rank) && cache.Keys <= cs.Keys && Lookups(cs, cache, pools, turns) && k < |pools|
    requires Eval(Kept(cs, rank, cache), rank, name).Some?
    requires Overlap(pools[k], name) && AllIdle(pools[|turns|])
    ensures !AtMostOnce(pools[|turns|].built, name)
  {
    var t: nat, u: nat :| t != u && Opens(pools[k], t, name) && Opens(pools[k], u, name);
    var one := CompletedBetween(cs, rank, cache, pools, turns, name, t, k, |turns|);
    var two := CompletedBetween(cs, rank, cache, pools, turns, name, u, k, |turns|);
    var i, j := if one < two then one else two, if one < two then two else one;
    BuiltGrows(cs, cache, pools, turns, i + 1, j);
    BuiltGrows(cs, cache, pools, turns, j + 1, |turns|);
    var built := pools[|turns|].built;
    assert built[|pools[i].built|] == name && built[|pools[j].built|] == name;
  }

  /**
   Once all lookups have returned, a service that is not nil was built at most
   once exactly if no two of them were constructing it at the same time.
   */
  lemma WhenBuiltOnce(cs: Constructors, rank: string -> nat, cache: Cache, pools: seq<Pool>, turns: seq<Turn>,
                      name: string)
    requires Sound(cs, rank) && cache.Keys <= cs.Keys && Lookups(cs, cache, pools, turns)
    requires Memo(cs, rank, cache, name).answer.Some? && AllIdle(pools[|turns|])
    ensures AtMostOnce(pools[|turns|].built, name) <==>
            forall k :: 0 <= k < |pools| ==> !Overlap(pools[k], name)
  {
    StartIsOk(cs, rank, cache);
    MemoIsKept(cs, rank, cache, cache, name);
    if k :| 0 <= k < |pools| && Overlap(pools[k], name) {
      OverlapBuildsTwice(cs, rank, cache, pools, turns, name, k);
    } else {
      SingleThroughout(cs, rank, cache, pools, turns, name, |turns|);
    }
  }

  /** For instance when two goroutines ask for the same new service. */
  lemma BuiltTwice() returns (pools: seq<Pool>, turns: seq<Turn>)
    ensures Lookups(map["foo" := Constant(1)], map[], pools, turns)
    ensures AllIdle(pools[|turns|]) && pools[|turns|].built == ["foo", "foo"]
  {
    var foo := Frame("foo", []);
    var kept := map["foo" := 1];
    var one := Returned("foo", Some(1));
    var cs := map["foo" := Constant(1)];
    var p0 := Pool(map[], [[], []], [], []);
    var p1 := Pool(map[], [[foo], []], [], []);
    var p2 := Pool(map[], [[foo], [foo]], [], []);
    var p3 := Pool(kept, [[], [foo]], ["foo"], [one]);
    var p4 := Pool(kept, [[], []], ["foo", "foo"], [one, one]);
    assert Next(cs, p0, Call(0, "foo"), p1);
    assert Next(cs, p1, Call(1, "foo"), p2);
    assert Next(cs, p2, Advance(0), p3);
    assert Next(cs, p3, Advance(1), p4);
    turns := [Call(0, "foo"), Call(1, "foo"), Advance(0), Advance(1)];
    pools := [p0, p1, p2, p3, p4];
  }

  // ------------------------------------------------------------------ lives

  datatype Phase = Overlapping(pools: seq<Pool>, turns: seq<Turn>) | Updating(update: Constructors, rank: string -> nat)

  /** Lookups that overlap in any way, or an update, which has the container to itself. */
  ghost predicate NextPhase(s: State, phase: Phase, t: State)
    requires Sound(s.cs, s.rank)
  {
    match phase
    case Overlapping(pools, turns) =>
      && Lookups(s.cs, s.cache, pools, turns) && AllIdle(pools[|turns|])
      && t == s.(cache := pools[|turns|].cache, built := s.built + pools[|turns|].built)
    case Updating(update, rank) =>
      Sound(s.cs + update, rank) && t == Step(s, Update(update, rank))
  }

  ghost predicate Life(states: seq<State>, phases: seq<Phase>) {
    && |states| == |phases| + 1
    && (forall i :: 0 <= i < |states| ==> Sound(states[i].cs, states[i].rank))
    && (forall i :: 0 <= i < |phases| ==> NextPhase(states[i], phases[i], states[i + 1]))
  }

  lemma LookupsKeepFresh(cs: Constructors, rank: string -> nat, cache: Cache, suspect: set<string>,
                         pools: seq<Pool>, turns: seq<Turn>, i: nat)
    requires Sound(cs, rank) && Fresh(cs, rank, cache, suspect) && Lookups(cs, cache, pools, turns) && i < |pools|
    ensures Fresh(cs, rank, pools[i].cache, suspect)
    ensures forall r :: r in pools[i].returned && Touched(cs, rank, r.name) !! suspect ==>
                          r.answer == Eval(cs, rank, r.name)
  {
    OverlappingLookupsAnswerAlike(cs, rank, cache, pools, turns, i);
    forall n: string | Touched(cs, rank, n) !! suspect
      ensures Memo(cs, rank, cache, n).answer == Eval(cs, rank, n)
    {
      MemoIsEval(cs, rank, cache, n, suspect);
    }
  }

  lemma {:induction false} FreshThroughout(states: seq<State>, phases: seq<Phase>, i: nat)
    requires Life(states, phases) && Empty(states[0]) && i < |states|
    ensures Fresh(states[i].cs, states[i].rank, states[i].cache, states[i].suspect)
  {
    if i > 0 {
      FreshThroughout(states, phases, i - 1);
      var s := states[i - 1];
      assert NextPhase(s, phases[i - 1], states[i - 1 + 1]);
      match phases[i - 1] {
        case Overlapping(pools, turns) =>
          LookupsKeepFresh(s.cs, s.rank, s.cache, s.suspect, pools, turns, |turns|);
        case Updating(update, rank) =>
          UpdateKeepsFresh(s.cs, s.rank, s.cache, s.suspect, update, rank);
      }
    }
  }

  /**
   Over any life of a container with lookups that overlap in any way between
   updates: every answer for a service none of whose transitive dependencies was
   updated behind a cached instance is what plain evaluation returns.
   */
  lemma OverlappingGetIsEvaluation(states: seq<State>, phases: seq<Phase>, i: nat, k: nat, r: Returned)
    requires Life(states, phases) && Empty(states[0]) && i < |phases| && phases[i].Overlapping?
    requires k < |phases[i].pools| && r in phases[i].pools[k].returned
    requires Touched(states[i].cs, states[i].rank, r.name) !! states[i].suspect
    ensures r.answer == Eval(states[i].cs, states[i].rank, r.name)
  {
    FreshThroughout(states, phases, i);
    var s := states[i];
    assert NextPhase(s, phases[i], states[i + 1]);
    LookupsKeepFresh(s.cs, s.rank, s.cache, s.suspect, phases[i].pools, phases[i].turns, k);
  }
}
