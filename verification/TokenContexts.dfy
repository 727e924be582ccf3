/**
 The contexts that `SetAuthToken` creates and cancels
 (pkg/secrets/openbao/secrets.go). Contexts are numbered in the order of their
 creation; the client remembers, per token, the one to cancel.
 */
module TokenContexts {
  import opened Options
  import opened TokenRenewal

  datatype Contexts = Contexts(
    token: string,
    context: Option<nat>,
    cancelFuncs: map<string, nat>,
    created: nat,
    cancelled: set<nat>)

  function Recorded(c: Contexts, token: string): set<nat> {
    if token in c.cancelFuncs then {c.cancelFuncs[token]} else {}
  }

  function Live(c: Contexts): set<nat> {
    set id | 0 <= id < c.created && id !in c.cancelled
  }

  ghost predicate WellNumbered(c: Contexts) {
    && (forall t :: t in c.cancelFuncs ==> c.cancelFuncs[t] < c.created)
    && (forall id :: id in c.cancelled ==> id < c.created)
    && (c.context.Some? ==> c.context.value < c.created)
  }

  // ------------------------------------------------------------ SetAuthToken

  function SetToken(c: Contexts, newToken: string, start: Start): Contexts {
    Contexts(
      newToken,
      if start.Started? then Some(c.created) else c.context,
      if start.Ok() then c.cancelFuncs[newToken := c.created] else c.cancelFuncs - {newToken},
      c.created + 1,
      c.cancelled + Recorded(c, c.token) + Recorded(c, newToken) + if start.Ok() then {} else {c.created})
  }

  /*
   Other goroutines run while `SetAuthToken` talks to the secret store. Its three
   steps are what it does up to the first request, what it does when the answers
   are there, and what it does under the mutex at its end, where it reads the
   token in use again.
   */

  function BeginToken(c: Contexts, newToken: string): Contexts {
    c.(token := newToken,
       created := c.created + 1,
       cancelled := c.cancelled + Recorded(c, c.token) + Recorded(c, newToken))
  }

  function SettleToken(c: Contexts, ctx: nat, start: Start): Contexts {
    if start.Started? then c.(context := Some(ctx))
    else if start.Ok() then c
    else c.(cancelled := c.cancelled + {ctx})
  }

  function RecordToken(c: Contexts, ctx: nat, ok: bool): Contexts {
    c.(cancelFuncs := if ok then c.cancelFuncs[c.token := ctx] else c.cancelFuncs - {c.token})
  }

  /** Undisturbed, the three steps are one token change. */
  lemma SetTokenInSteps(c: Contexts, newToken: string, start: Start)
    ensures var ctx := c.created;
            RecordToken(SettleToken(BeginToken(c, newToken), ctx, start), ctx, start.Ok()) ==
            SetToken(c, newToken, start)
  {
  }

  /** What the token's period and time to live ask for: a loop, and a renewal before it. */
  predicate Renews(lookup: Option<TokenMetadata>) {
    lookup.Some? && lookup.value.renewable && Half(Wrap64(lookup.value.period * 1_000_000_000)) > 0
  }

  predicate DueAtOnce(lookup: Option<TokenMetadata>) {
    Renews(lookup) &&
    Wrap64(lookup.value.ttl * 1_000_000_000) <= Half(Wrap64(lookup.value.period * 1_000_000_000))
  }

  class Client {
    var authToken: string
    var context: Option<nat>
    var tokenToCancelFuncMap: map<string, nat>
    /** All contexts made so far, and those cancelled. */
    var created: nat
    var cancelled: set<nat>

    constructor ()
      ensures Value() == Contexts("", None, map[], 0, {})
    {
      authToken, context, tokenToCancelFuncMap, created, cancelled := "", None, map[], 0, {};
    }

    function Value(): Contexts
      reads this
    {
      Contexts(authToken, context, tokenToCancelFuncMap, created, cancelled)
    }

    /** Decides on renewal and, if there is to be a loop, makes `ctx` the one it watches. */
    method RefreshToken(ctx: nat, lookup: Option<TokenMetadata>, renewal: Renewal) returns (start: Start)
      modifies this`context
      ensures start == StartUp(lookup, renewal)
      ensures !start.Ok() <==> lookup.None? || (DueAtOnce(lookup) && renewal != Renewed)
      ensures context == if start.Ok() && Renews(lookup) then Some(ctx) else old(context)
    {
      if lookup.None? {
        return LookupFailed;
      }
      var tokenData := lookup.value;
      if !tokenData.renewable {
        return NotRenewable;
      }
      var tokenPeriod := Wrap64(tokenData.period * SECOND);
      var renewInterval := Half(tokenPeriod);
      if renewInterval <= 0 {
        return NoInterval;
      }
      var ttl := Wrap64(tokenData.ttl * SECOND);
      var renewedFirst := false;
      if ttl <= renewInterval {
        if renewal != Renewed {
          return FirstRenewalFailed;
        }
        renewedFirst := true;
      }
      context := Some(ctx);
      return Started(renewInterval, renewedFirst);
    }

    method SetAuthToken(newToken: string, lookup: Option<TokenMetadata>, renewal: Renewal) returns (start: Start)
      modifies this
      ensures start == StartUp(lookup, renewal)
      ensures Value() == SetToken(old(Value()), newToken, start)
      ensures authToken == newToken && created == old(created) + 1
      ensures var before := old(Value());
              var failed := lookup.None? || (DueAtOnce(lookup) && renewal != Renewed);
              && cancelled == before.cancelled + Recorded(before, before.token) + Recorded(before, newToken)
                              + (if failed then {before.created} else {})
              && tokenToCancelFuncMap == (if failed then before.cancelFuncs - {newToken}
                                          else before.cancelFuncs[newToken := before.created])
              && context == if !failed && Renews(lookup) then Some(before.created) else before.context
    {
      if authToken in tokenToCancelFuncMap {
        cancelled := cancelled + {tokenToCancelFuncMap[authToken]};
      }
      if newToken in tokenToCancelFuncMap {
        cancelled := cancelled + {tokenToCancelFuncMap[newToken]};
      }
      authToken := newToken;
      var ctx := created;
      created := created + 1;
      start := RefreshToken(ctx, lookup, renewal);
      if !start.Ok() {
        cancelled := cancelled + {ctx};
        tokenToCancelFuncMap := tokenToCancelFuncMap - {authToken};
      } else {
        tokenToCancelFuncMap := tokenToCancelFuncMap[authToken := ctx];
      }
    }
  }

  // ------------------------------------------------- how many contexts live on

  /** Everything live is recorded under the current token, so at most one context is. */
  ghost predicate OneLive(c: Contexts) {
    Live(c) <= Recorded(c, c.token)
  }

  datatype Change = SetAuth(token: string, start: Start) | Replace(token: string)

  /** `SetAuthToken`, or a renewal loop putting in the replacement for an expired token. */
  function Apply(c: Contexts, change: Change): Contexts {
    match change
    case SetAuth(token, start) => SetToken(c, token, start)
    case Replace(token) => c.(token := token)
  }

  function ApplyAll(c: Contexts, changes: seq<Change>): Contexts
    decreases changes
  {
    if changes == [] then c else ApplyAll(Apply(c, changes[0]), changes[1..])
  }

  /** What must be recorded, and where, for a token change to leave nothing behind. */
  lemma SetTokenLeavesOne(c: Contexts, newToken: string, start: Start)
    requires WellNumbered(c)
    ensures WellNumbered(SetToken(c, newToken, start))
    ensures OneLive(SetToken(c, newToken, start)) <==> Live(c) <= Recorded(c, c.token) + Recorded(c, newToken)
  {
    var after := SetToken(c, newToken, start);
    assert Recorded(after, newToken) == if start.Ok() then {c.created} else {};
    assert Live(after) ==
           Live(c) - Recorded(c, c.token) - Recorded(c, newToken) + if start.Ok() then {c.created} else {};
    if OneLive(after) {
      var left := Live(c) - Recorded(c, c.token) - Recorded(c, newToken);
      assert left <= Live(after) && c.created !in left;
      assert left == {};
    }
  }

  /** Over any sequence of token changes without replacements at most one context is ever live. */
  lemma {:induction false} AtMostOneLiveContext(c: Contexts, changes: seq<Change>)
    requires WellNumbered(c) && OneLive(c)
    requires forall change :: change in changes ==> change.SetAuth?
    ensures WellNumbered(ApplyAll(c, changes)) && OneLive(ApplyAll(c, changes))
    ensures |Live(ApplyAll(c, changes))| <= 1
    decreases changes
  {
    if changes == [] {
      if c.token in c.cancelFuncs {
        assert Recorded(c, c.token) == {c.cancelFuncs[c.token]};
        if Live(c) != {} {
          assert Live(c) == Recorded(c, c.token);
        }
      }
    } else {
      assert changes[0].SetAuth?;
      SetTokenLeavesOne(c, changes[0].token, changes[0].start);
      AtMostOneLiveContext(Apply(c, changes[0]), changes[1..]);
    }
  }

  /**
   A replacement breaks this: the live context stays recorded under the expired
   token, and the next change cancels it exactly when it is recorded under the
   replacement or under the new token as well (or nothing was live).
   */
  lemma ReplacementLeaks(c: Contexts, replacement: string, newToken: string, start: Start)
    requires WellNumbered(c) && OneLive(c)
    ensures OneLive(ApplyAll(c, [Replace(replacement), SetAuth(newToken, start)])) <==>
            Live(c) == {} || Recorded(c, c.token) <= Recorded(c, replacement) + Recorded(c, newToken)
  {
    var swapped := Apply(c, Replace(replacement));
    assert [Replace(replacement), SetAuth(newToken, start)][1..] == [SetAuth(newToken, start)];
    assert [SetAuth(newToken, start)][1..] == [];
    assert ApplyAll(swapped, [SetAuth(newToken, start)]) == SetToken(swapped, newToken, start);
    SetTokenLeavesOne(swapped, newToken, start);
    assert Live(swapped) == Live(c);
    if Live(c) != {} {
      assert Recorded(c, c.token) == {c.cancelFuncs[c.token]};
      assert Live(c) == Recorded(c, c.token);
    }
  }

  /** For instance when a new token follows the replacement of the first one. */
  lemma LeakAfterReplacement(start: Start)
    requires start.Ok()
    ensures var c := ApplyAll(Contexts("", None, map[], 0, {}),
                              [SetAuth("first", start), Replace("second"), SetAuth("third", start)]);
            Live(c) == {0, 1}
  {
    var c0 := Contexts("", None, map[], 0, {});
    var c1 := SetToken(c0, "first", start);
    var c2 := SetToken(c1.(token := "second"), "third", start);
    assert [SetAuth("first", start), Replace("second"), SetAuth("third", start)][1..] ==
           [Replace("second"), SetAuth("third", start)];
    assert [Replace("second"), SetAuth("third", start)][1..] == [SetAuth("third", start)];
    assert [SetAuth("third", start)][1..] == [];
    assert ApplyAll(c1.(token := "second"), [SetAuth("third", start)]) == c2;
    assert ApplyAll(c1, [Replace("second"), SetAuth("third", start)]) == c2;
  }

  function Replacements(changes: seq<Change>): nat
    decreases changes
  {
    if changes == [] then 0 else (if changes[0].Replace? then 1 else 0) + Replacements(changes[1..])
  }

  /** Live contexts that are not recorded under the current token. */
  function Strays(c: Contexts): set<nat> {
    Live(c) - Recorded(c, c.token)
  }

  /** Nothing live is forgotten: it is recorded under some token. */
  ghost predicate AllRecorded(c: Contexts) {
    WellNumbered(c) && forall id :: id in Live(c) ==> exists t :: t in c.cancelFuncs && c.cancelFuncs[t] == id
  }

  lemma OneMoreToken(c: Contexts, token: string, start: Start)
    requires AllRecorded(c)
    ensures AllRecorded(SetToken(c, token, start)) && Strays(SetToken(c, token, start)) <= Strays(c)
  {
    var after := SetToken(c, token, start);
    SetTokenLeavesOne(c, token, start);
    forall id | id in Live(after)
      ensures exists t :: t in after.cancelFuncs && after.cancelFuncs[t] == id
    {
      if id == c.created {
        assert after.cancelFuncs[token] == id;
      } else {
        assert id in Live(c);
        var t :| t in c.cancelFuncs && c.cancelFuncs[t] == id;
        assert t != token;
        assert t in after.cancelFuncs && after.cancelFuncs[t] == id;
      }
    }
    forall id | id in Strays(after)
      ensures id in Strays(c)
    {
      assert id != c.created;
    }
  }

  lemma OneMoreReplacement(c: Contexts, token: string)
    ensures |Strays(c.(token := token))| <= |Strays(c)| + 1
  {
    var after := c.(token := token);
    assert Live(after) == Live(c);
    assert Strays(after) <= Strays(c) + Recorded(c, c.token);
    SubsetSize(Strays(after), Strays(c) + Recorded(c, c.token));
  }

  lemma OneMoreChange(c: Contexts, change: Change)
    requires AllRecorded(c)
    ensures AllRecorded(Apply(c, change))
    ensures |Strays(Apply(c, change))| <= |Strays(c)| + if change.Replace? then 1 else 0
  {
    match change {
      case SetAuth(token, start) =>
        OneMoreToken(c, token, start);
        SubsetSize(Strays(SetToken(c, token, start)), Strays(c));
      case Replace(token) =>
        OneMoreReplacement(c, token);
        assert Live(c.(token := token)) == Live(c);
    }
  }

  lemma SubsetSize(a: set<nat>, b: set<nat>)
    requires a <= b
    ensures |a| <= |b|
  {
    assert b == a + (b - a);
  }

  /**
   Over any sequence of token changes and replacements every live context stays
   recorded under some token, and at most one more than the replacements is live.
   */
  lemma {:induction false} LiveContextsAreBounded(c: Contexts, changes: seq<Change>)
    requires AllRecorded(c)
    ensures AllRecorded(ApplyAll(c, changes))
    ensures |Live(ApplyAll(c, changes))| <= 1 + |Strays(c)| + Replacements(changes)
    decreases changes
  {
    if changes == [] {
      SubsetSize(Live(c), Strays(c) + Recorded(c, c.token));
    } else {
      OneMoreChange(c, changes[0]);
      LiveContextsAreBounded(Apply(c, changes[0]), changes[1..]);
    }
  }

  // ------------------------------------------------------ loops and contexts

  /**
   A renewal loop looks up the client's context anew each time it comes back to
   its `select`. `Between` is a loop that is renewing or has just been started.
   */
  datatype Loop = Between | Waiting(watched: nat) | Gone

  /** How far the current call of `SetAuthToken` is, if there is one, and the context it made. */
  datatype Setting = Idle | Begun(ctx: nat) | Settled(ctx: nat, ok: bool)

  datatype System = System(c: Contexts, setting: Setting, loops: seq<Loop>)

  datatype LoopStep =
    | Begin(token: string)
    | Settle(start: Start)
    | Record
    | Wait(loop: nat)
    | TickArrives(loop: nat)
    | Replaced(loop: nat, token: string)
    | Stop(loop: nat)

  ghost predicate Next(s: System, step: LoopStep, t: System) {
    match step
    // a replacement between the mutex and the new token is overwritten at once and needs no step of its own
    case Begin(token) =>
      s.setting.Idle? && t == System(BeginToken(s.c, token), Begun(s.c.created), s.loops)
    case Settle(start) =>
      s.setting.Begun? &&
      t == System(SettleToken(s.c, s.setting.ctx, start), Settled(s.setting.ctx, start.Ok()),
                  if start.Started? then s.loops + [Between] else s.loops)
    case Record =>
      s.setting.Settled? && t == System(RecordToken(s.c, s.setting.ctx, s.setting.ok), Idle, s.loops)
    case Wait(l) =>
      l < |s.loops| && s.loops[l] == Between && s.c.context.Some? &&
      t == s.(loops := s.loops[l := Waiting(s.c.context.value)])
    // a tick may be chosen even if the context has been cancelled meanwhile
    case TickArrives(l) =>
      l < |s.loops| && s.loops[l].Waiting? && t == s.(loops := s.loops[l := Between])
    // the renewal was refused and the token file had another token
    case Replaced(l, token) =>
      l < |s.loops| && s.loops[l] == Between && t == s.(c := s.c.(token := token))
    // a cancelled context ends a waiting loop, a failed renewal one that is between waits
    case Stop(l) =>
      l < |s.loops| && (s.loops[l].Waiting? ==> s.loops[l].watched in s.c.cancelled) &&
      t == s.(loops := s.loops[l := Gone])
  }

  ghost predicate Steps(states: seq<System>, steps: seq<LoopStep>) {
    && |states| == |steps| + 1
    && forall i :: 0 <= i < |steps| ==> Next(states[i], steps[i], states[i + 1])
  }

  function Initially(): System {
    System(Contexts("", None, map[], 0, {}), Idle, [])
  }

  // ------------------------------------------- runs in which no loop replaces

  /** Everything live is recorded under the current token or made by the change in progress. */
  ghost predicate OneKept(s: System) {
    match s.setting
    case Idle => OneLive(s.c)
    case Begun(ctx) => Live(s.c) <= {ctx} && ctx < s.c.created && s.c.context != Some(ctx)
    case Settled(ctx, ok) => ctx < s.c.created && Live(s.c) <= if ok then {ctx} else {}
  }

  /** A waiting loop watches a cancelled context or the client's current one. */
  ghost predicate Watched(s: System) {
    && WellNumbered(s.c) && OneKept(s)
    && (s.loops != [] ==> s.c.context.Some?)
    && forall l :: 0 <= l < |s.loops| && s.loops[l].Waiting? ==>
         s.loops[l].watched in s.c.cancelled || Some(s.loops[l].watched) == s.c.context
  }

  lemma WatchedStep(s: System, step: LoopStep, t: System)
    requires Watched(s) && Next(s, step, t) && !step.Replaced?
    ensures Watched(t)
  {
    match step {
      case Begin(token) =>
        assert Live(t.c) <= Live(s.c) - Recorded(s.c, s.c.token) + {s.c.created};
      case Settle(start) =>
        assert Live(t.c) == if start.Ok() then Live(s.c) else Live(s.c) - {s.setting.ctx};
        if s.c.context.Some? {
          assert s.c.context.value !in Live(s.c);
        }
      case Record =>
        assert Live(t.c) == Live(s.c);
        assert Recorded(t.c, t.c.token) == if s.setting.ok then {s.setting.ctx} else {};
      case _ =>
    }
  }

  /** As long as no loop replaces the token, in every interleaving. */
  lemma {:induction false} LoopsStayWatched(states: seq<System>, steps: seq<LoopStep>, i: nat)
    requires Steps(states, steps) && Watched(states[0]) && i < |states|
    requires forall k :: 0 <= k < i ==> !steps[k].Replaced?
    ensures Watched(states[i])
  {
    if i > 0 {
      LoopsStayWatched(states, steps, i - 1);
      assert Next(states[i - 1], steps[i - 1], states[i - 1 + 1]);
      WatchedStep(states[i - 1], steps[i - 1], states[i]);
    }
  }

  lemma {:induction false} NothingLivesUntilTheNextChange(states: seq<System>, steps: seq<LoopStep>, i: nat, j: nat)
    requires Steps(states, steps) && i <= j < |states|
    requires !states[i].setting.Begun? && Live(states[i].c) == {}
    requires forall k :: i <= k < j ==> !steps[k].Begin?
    ensures !states[j].setting.Begun? && Live(states[j].c) == {}
  {
    if i < j {
      NothingLivesUntilTheNextChange(states, steps, i, j - 1);
      assert Next(states[j - 1], steps[j - 1], states[j - 1 + 1]);
      assert Live(states[j].c) <= Live(states[j - 1].c);
    }
  }

  /**
   Without replacements a token change that fails leaves no loop that can go on
   waiting: until the next change every waiting loop's context is cancelled.
   */
  lemma FailedChangeStopsAllLoops(states: seq<System>, steps: seq<LoopStep>, i: nat, j: nat, l: nat)
    requires Steps(states, steps) && Watched(states[0]) && i <= j < |states|
    requires forall k :: 0 <= k < j ==> !steps[k].Replaced?
    requires states[i].setting.Settled? && !states[i].setting.ok
    requires forall k :: i <= k < j ==> !steps[k].Begin?
    requires l < |states[j].loops| && states[j].loops[l].Waiting?
    ensures states[j].loops[l].watched in states[j].c.cancelled
  {
    LoopsStayWatched(states, steps, i);
    LoopsStayWatched(states, steps, j);
    NothingLivesUntilTheNextChange(states, steps, i, j);
    var c := states[j].c;
    assert c.context.Some? ==> c.context.value in Live(c) || c.context.value in c.cancelled;
  }

  // ------------------------------------------------------ what is kept in any run

  /** Ids are those of contexts made so far, no context is recorded twice, and the newest is not yet recorded. */
  ghost predicate Numbered(s: System) {
    && WellNumbered(s.c)
    && (forall t, u :: t in s.c.cancelFuncs && u in s.c.cancelFuncs && s.c.cancelFuncs[t] == s.c.cancelFuncs[u] ==>
                         t == u)
    && (forall l :: 0 <= l < |s.loops| && s.loops[l].Waiting? ==> s.loops[l].watched < s.c.created)
    && (!s.setting.Idle? ==>
          && s.setting.ctx < s.c.created
          && (forall t :: t in s.c.cancelFuncs ==> s.c.cancelFuncs[t] != s.setting.ctx))
    && (s.setting.Settled? && !s.setting.ok ==> s.setting.ctx in s.c.cancelled)
  }

  lemma NumberedStep(s: System, step: LoopStep, t: System)
    requires Numbered(s) && Next(s, step, t)
    ensures Numbered(t)
  {
  }

  lemma {:induction false} NumberedThroughout(states: seq<System>, steps: seq<LoopStep>, i: nat)
    requires Steps(states, steps) && Numbered(states[0]) && i < |states|
    ensures Numbered(states[i])
  {
    if i > 0 {
      NumberedThroughout(states, steps, i - 1);
      assert Next(states[i - 1], steps[i - 1], states[i - 1 + 1]);
      NumberedStep(states[i - 1], steps[i - 1], states[i]);
    }
  }

  // ------------------------------------------------- loops after a failed change

  /** What a change to `newToken` cancels on entry, with what was cancelled before. */
  function CancelledOnEntry(c: Contexts, newToken: string): set<nat> {
    c.cancelled + Recorded(c, c.token) + Recorded(c, newToken)
  }

  /** A state reached from `c` by a change to `newToken` that has failed or is going to. */
  ghost predicate Failing(c: Contexts, newToken: string, s: System) {
    && (!s.setting.Idle? ==> s.setting.ctx == c.created)
    && s.c.cancelled == CancelledOnEntry(c, newToken) + (if s.setting.Begun? then {} else {c.created})
    && s.c.context != Some(c.created)
    && forall l :: 0 <= l < |s.loops| ==> s.loops[l] != Waiting(c.created)
  }

  lemma {:induction false} FailingThroughout(states: seq<System>, steps: seq<LoopStep>, newToken: string, i: nat)
    requires Steps(states, steps) && Numbered(states[0]) && 0 < i < |states|
    requires steps[0] == Begin(newToken)
    requires forall k :: 1 <= k < i ==> !steps[k].Begin? && (steps[k].Settle? ==> !steps[k].start.Ok())
    ensures Failing(states[0].c, newToken, states[i])
  {
    assert Next(states[i - 1], steps[i - 1], states[i - 1 + 1]);
    if i > 1 {
      FailingThroughout(states, steps, newToken, i - 1);
    }
  }

  /**
   In any run, a failed change leaves no loop that can go on waiting exactly if
   each waiting loop watches a context that was cancelled before the change,
   recorded under the token then in use, or recorded under the new token.
   */
  lemma WhenAFailedChangeStopsAllLoops(states: seq<System>, steps: seq<LoopStep>, newToken: string)
    requires Steps(states, steps) && Numbered(states[0])
    requires steps != [] && steps[0] == Begin(newToken)
    requires forall k :: 1 <= k < |steps| ==> !steps[k].Begin? && (steps[k].Settle? ==> !steps[k].start.Ok())
    requires !states[|steps|].setting.Begun?
    ensures var s := states[|steps|];
            (forall l :: 0 <= l < |s.loops| && s.loops[l].Waiting? ==> s.loops[l].watched in s.c.cancelled) <==>
            (forall l :: 0 <= l < |s.loops| && s.loops[l].Waiting? ==>
               s.loops[l].watched in CancelledOnEntry(states[0].c, newToken))
  {
    FailingThroughout(states, steps, newToken, |steps|);
    var s := states[|steps|];
    forall l | 0 <= l < |s.loops| && s.loops[l].Waiting?
      ensures s.loops[l].watched in s.c.cancelled <==>
              s.loops[l].watched in CancelledOnEntry(states[0].c, newToken)
    {
      assert s.loops[l] != Waiting(states[0].c.created);
    }
  }

  // ------------------------------------------------------------ how many loops

  /** A loop that renews or may still do so: it is not stopped by the context it watches. */
  ghost predicate Active(s: System, l: nat) {
    l < |s.loops| && (s.loops[l] == Between || (s.loops[l].Waiting? && s.loops[l].watched !in s.c.cancelled))
  }

  ghost predicate OneActive(s: System) {
    forall k: nat, l: nat :: Active(s, k) && Active(s, l) ==> k == l
  }

  /** A start, or a tick chosen in spite of a cancelled context, while another loop is active. */
  ghost predicate Crowds(s: System, step: LoopStep) {
    match step
    case Settle(start) => start.Started? && exists l: nat :: Active(s, l)
    case TickArrives(k) => !Active(s, k) && exists l: nat :: Active(s, l)
    case _ => false
  }

  lemma CrowdingStep(s: System, step: LoopStep, t: System)
    requires Next(s, step, t) && OneActive(s)
    ensures OneActive(t) <==> !Crowds(s, step)
  {
    match step {
      case Settle(start) =>
        if start.Started? {
          assert forall l: nat :: l < |s.loops| ==> (Active(t, l) <==> Active(s, l));
          assert Active(t, |s.loops|);
        } else {
          assert forall l: nat :: Active(t, l) ==> Active(s, l);
        }
      case TickArrives(k) =>
        assert forall l: nat :: l != k ==> (Active(t, l) <==> Active(s, l));
        assert Active(t, k);
      case _ =>
        assert forall l: nat :: Active(t, l) ==> Active(s, l);
    }
  }

  lemma {:induction false} NoCrowd(states: seq<System>, steps: seq<LoopStep>, i: nat)
    requires Steps(states, steps) && OneActive(states[0]) && i < |states|
    requires forall k :: 0 <= k < i ==> !Crowds(states[k], steps[k])
    ensures OneActive(states[i])
  {
    if i > 0 {
      NoCrowd(states, steps, i - 1);
      assert Next(states[i - 1], steps[i - 1], states[i - 1 + 1]);
      CrowdingStep(states[i - 1], steps[i - 1], states[i]);
    }
  }

  /** In any run at most one loop is active throughout exactly if no step crowds. */
  lemma WhenOneLoopIsActive(states: seq<System>, steps: seq<LoopStep>)
    requires Steps(states, steps) && OneActive(states[0])
    ensures (forall i :: 0 <= i < |states| ==> OneActive(states[i])) <==>
            (forall i :: 0 <= i < |steps| ==> !Crowds(states[i], steps[i]))
  {
    if forall i :: 0 <= i < |states| ==> OneActive(states[i]) {
      forall i | 0 <= i < |steps|
        ensures !Crowds(states[i], steps[i])
      {
        assert OneActive(states[i]) && OneActive(states[i + 1]);
        CrowdingStep(states[i], steps[i], states[i + 1]);
      }
    }
    if forall i :: 0 <= i < |steps| ==> !Crowds(states[i], steps[i]) {
      forall i | 0 <= i < |states|
        ensures OneActive(states[i])
      {
        NoCrowd(states, steps, i);
      }
    }
  }

  /** A loop is started while another renews, or a tick is chosen too late while another loop is active. */
  ghost predicate Overtakes(s: System, step: LoopStep) {
    match step
    case Settle(start) => start.Started? && Between in s.loops
    case TickArrives(k) => !Active(s, k) && exists l: nat :: Active(s, l)
    case _ => false
  }

  /**
   Without replacements waiting loops give way to a new one: at most one loop is
   active throughout exactly if no loop is renewing when another is started, and
   no tick is chosen in spite of a cancelled context while a loop is active.
   */
  lemma WhenOneLoopRenews(states: seq<System>, steps: seq<LoopStep>)
    requires Steps(states, steps) && Watched(states[0]) && OneActive(states[0])
    requires forall step :: step in steps ==> !step.Replaced?
    ensures (forall i :: 0 <= i < |states| ==> OneActive(states[i])) <==>
            (forall i :: 0 <= i < |steps| ==> !Overtakes(states[i], steps[i]))
  {
    WhenOneLoopIsActive(states, steps);
    forall i | 0 <= i < |steps|
      ensures Crowds(states[i], steps[i]) <==> Overtakes(states[i], steps[i])
    {
      assert forall k :: 0 <= k < i ==> steps[k] in steps;
      LoopsStayWatched(states, steps, i);
      assert Next(states[i], steps[i], states[i + 1]);
      if steps[i].Settle? {
        OnlyRenewingLoopsAreActive(states[i]);
      }
    }
  }

  lemma OnlyRenewingLoopsAreActive(s: System)
    requires Watched(s) && s.setting.Begun?
    ensures (exists l: nat :: Active(s, l)) <==> Between in s.loops
  {
    if Between in s.loops {
      var l :| 0 <= l < |s.loops| && s.loops[l] == Between;
      assert Active(s, l);
    }
    if s.c.context.Some? {
      assert s.c.context.value !in Live(s.c);
    }
  }

  // -------------------------------------------------- what recording can lose

  /** Every live context can still be cancelled: it is recorded, or made by the change in progress. */
  ghost predicate Accounted(s: System) {
    forall id :: id in Live(s.c) ==>
      (!s.setting.Idle? && id == s.setting.ctx) || exists t :: t in s.c.cancelFuncs && s.c.cancelFuncs[t] == id
  }

  /**
   The last step of a change records under the token in use at that moment. That
   loses nothing exactly if what is recorded there is already cancelled.
   */
  lemma RecordingLosesNothing(s: System, t: System)
    requires Numbered(s) && Accounted(s) && Next(s, Record, t)
    ensures Accounted(t) <==> Recorded(s.c, s.c.token) <= s.c.cancelled
  {
    var token := s.c.token;
    assert Live(t.c) == Live(s.c);
    if Recorded(s.c, token) <= s.c.cancelled {
      forall id | id in Live(t.c)
        ensures exists u :: u in t.c.cancelFuncs && t.c.cancelFuncs[u] == id
      {
        if id == s.setting.ctx {
          assert t.c.cancelFuncs[token] == id;
        } else {
          var u :| u in s.c.cancelFuncs && s.c.cancelFuncs[u] == id;
          assert u != token;
          assert t.c.cancelFuncs[u] == id;
        }
      }
    } else {
      var id := s.c.cancelFuncs[token];
      assert id in Live(t.c);
      assert forall u :: u in t.c.cancelFuncs ==> t.c.cancelFuncs[u] != id;
    }
  }

  /** The last step of a change finds a live context under the token in use. */
  ghost predicate Overwrites(s: System, step: LoopStep) {
    step.Record? && !(Recorded(s.c, s.c.token) <= s.c.cancelled)
  }

  lemma AccountedStep(s: System, step: LoopStep, t: System)
    requires Numbered(s) && Accounted(s) && Next(s, step, t)
    ensures Accounted(t) <==> !Overwrites(s, step)
  {
    if step.Record? {
      RecordingLosesNothing(s, t);
    } else {
      forall id | id in Live(t.c) && (step.Begin? ==> id != s.c.created)
        ensures id in Live(s.c)
      {
      }
    }
  }

  lemma {:induction false} AccountedSoFar(states: seq<System>, steps: seq<LoopStep>, i: nat)
    requires Steps(states, steps) && Numbered(states[0]) && Accounted(states[0]) && i < |states|
    requires forall k :: 0 <= k < i ==> !Overwrites(states[k], steps[k])
    ensures Accounted(states[i])
  {
    if i > 0 {
      AccountedSoFar(states, steps, i - 1);
      NumberedThroughout(states, steps, i - 1);
      assert Next(states[i - 1], steps[i - 1], states[i - 1 + 1]);
      AccountedStep(states[i - 1], steps[i - 1], states[i]);
    }
  }

  /**
   In any run, every live context can be cancelled throughout exactly if no
   change ends by overwriting or deleting the entry of a live context.
   */
  lemma WhenNothingIsLost(states: seq<System>, steps: seq<LoopStep>)
    requires Steps(states, steps) && Numbered(states[0]) && Accounted(states[0])
    ensures (forall i :: 0 <= i < |states| ==> Accounted(states[i])) <==>
            (forall i :: 0 <= i < |steps| ==> !Overwrites(states[i], steps[i]))
  {
    if forall i :: 0 <= i < |states| ==> Accounted(states[i]) {
      forall i | 0 <= i < |steps|
        ensures !Overwrites(states[i], steps[i])
      {
        NumberedThroughout(states, steps, i);
        assert Accounted(states[i]) && Accounted(states[i + 1]);
        AccountedStep(states[i], steps[i], states[i + 1]);
      }
    }
    if forall i :: 0 <= i < |steps| ==> !Overwrites(states[i], steps[i]) {
      forall i | 0 <= i < |states|
        ensures Accounted(states[i])
      {
        AccountedSoFar(states, steps, i);
      }
    }
  }

  lemma {:induction false} EntryStaysCancelled(states: seq<System>, steps: seq<LoopStep>, i: nat)
    requires Steps(states, steps) && states[0].setting.Idle? && i < |states|
    requires forall k :: 0 <= k < |steps| && steps[k].Replaced? ==> states[k].setting.Idle?
    ensures !states[i].setting.Idle? ==> Recorded(states[i].c, states[i].c.token) <= states[i].c.cancelled
  {
    if i > 0 {
      EntryStaysCancelled(states, steps, i - 1);
      assert Next(states[i - 1], steps[i - 1], states[i - 1 + 1]);
    }
  }

  /** So nothing is lost if tokens are replaced only outside of token changes. */
  lemma NothingIsLostOutsideChanges(states: seq<System>, steps: seq<LoopStep>, i: nat)
    requires Steps(states, steps) && Numbered(states[0]) && Accounted(states[0]) && states[0].setting.Idle?
    requires forall k :: 0 <= k < |steps| && steps[k].Replaced? ==> states[k].setting.Idle?
    requires i < |states|
    ensures Accounted(states[i])
  {
    forall k | 0 <= k < |steps|
      ensures !Overwrites(states[k], steps[k])
    {
      EntryStaysCancelled(states, steps, k);
      assert Next(states[k], steps[k], states[k + 1]);
    }
    WhenNothingIsLost(states, steps);
  }

  /** A live context that is not recorded is never cancelled again. */
  lemma {:induction false} LostForGood(states: seq<System>, steps: seq<LoopStep>, id: nat, i: nat)
    requires Steps(states, steps) && i < |states|
    requires id in Live(states[0].c) && (!states[0].setting.Idle? ==> states[0].setting.ctx != id)
    requires forall t :: t in states[0].c.cancelFuncs ==> states[0].c.cancelFuncs[t] != id
    ensures id in Live(states[i].c) && (!states[i].setting.Idle? ==> states[i].setting.ctx != id)
    ensures forall t :: t in states[i].c.cancelFuncs ==> states[i].c.cancelFuncs[t] != id
  {
    if i > 0 {
      LostForGood(states, steps, id, i - 1);
      assert Next(states[i - 1], steps[i - 1], states[i - 1 + 1]);
    }
  }

  // ------------------------------------------------------- how many can be live

  /** Live contexts that neither the current token nor the change in progress accounts for. */
  function Extra(s: System): set<nat> {
    if s.setting.Idle? then Strays(s.c) else Live(s.c) - {s.setting.ctx}
  }

  /** The replacements outside of token changes among the first `n` steps. */
  function ReplacedBetween(states: seq<System>, steps: seq<LoopStep>, n: nat): nat
    requires n <= |steps| && |states| == |steps| + 1
  {
    if n == 0 then 0
    else ReplacedBetween(states, steps, n - 1) +
         if steps[n - 1].Replaced? && states[n - 1].setting.Idle? then 1 else 0
  }

  lemma ExtraStep(s: System, step: LoopStep, t: System)
    requires Numbered(s) && Next(s, step, t)
    ensures |Extra(t)| <= |Extra(s)| + if step.Replaced? && s.setting.Idle? then 1 else 0
  {
    if step.Replaced? && s.setting.Idle? {
      OneMoreReplacement(s.c, step.token);
    } else {
      ExtraShrinks(s, step, t);
      SubsetSize(Extra(t), Extra(s));
    }
  }

  lemma ExtraShrinks(s: System, step: LoopStep, t: System)
    requires Numbered(s) && Next(s, step, t) && !(step.Replaced? && s.setting.Idle?)
    ensures Extra(t) <= Extra(s)
  {
    match step {
      case Begin(_) => assert Live(t.c) <= Live(s.c) - Recorded(s.c, s.c.token) + {s.c.created};
      case Settle(_) => assert Live(t.c) <= Live(s.c);
      case _ => assert Live(t.c) == Live(s.c);
    }
  }

  lemma LiveBound(s: System)
    ensures |Live(s.c)| <= |Extra(s)| + 1
  {
    var one := if s.setting.Idle? then Recorded(s.c, s.c.token) else {s.setting.ctx};
    SubsetSize(Live(s.c), Extra(s) + one);
    assert |one| <= 1;
  }

  /**
   In every interleaving, replacements during token changes included, at most
   one more context is live than tokens were replaced outside of changes.
   */
  lemma {:induction false} LoopsAndReplacements(states: seq<System>, steps: seq<LoopStep>, i: nat)
    requires Steps(states, steps) && Numbered(states[0]) && Extra(states[0]) == {} && i < |states|
    ensures |Extra(states[i])| <= ReplacedBetween(states, steps, i)
    ensures |Live(states[i].c)| <= 1 + ReplacedBetween(states, steps, i)
  {
    if i > 0 {
      LoopsAndReplacements(states, steps, i - 1);
      NumberedThroughout(states, steps, i - 1);
      assert Next(states[i - 1], steps[i - 1], states[i - 1 + 1]);
      ExtraStep(states[i - 1], steps[i - 1], states[i]);
    }
    LiveBound(states[i]);
  }

  /** A waiting loop can be stopped exactly if its context is cancelled, and can take a tick in either case. */
  lemma WhenAWaitingLoopCanStop(s: System, l: nat)
    requires l < |s.loops| && s.loops[l].Waiting?
    ensures (exists t :: Next(s, Stop(l), t)) <==> s.loops[l].watched in s.c.cancelled
    ensures Next(s, TickArrives(l), s.(loops := s.loops[l := Between]))
  {
    if s.loops[l].watched in s.c.cancelled {
      assert Next(s, Stop(l), s.(loops := s.loops[l := Gone]));
    }
  }

  // ------------------------------------------------------------- runs that fail

  lemma Continue(states: seq<System>, steps: seq<LoopStep>, step: LoopStep, t: System)
    returns (states': seq<System>, steps': seq<LoopStep>)
    requires Steps(states, steps) && Next(states[|steps|], step, t)
    ensures Steps(states', steps') && steps' == steps + [step]
    ensures states'[0] == states[0] && states'[|steps'|] == t
  {
    states', steps' := states + [t], steps + [step];
  }

  /** A change that nothing disturbs. */
  lemma ChangeUndisturbed(states: seq<System>, steps: seq<LoopStep>, token: string, start: Start)
    returns (states': seq<System>, steps': seq<LoopStep>)
    requires Steps(states, steps) && states[|steps|].setting.Idle?
    ensures Steps(states', steps') && steps' == steps + [Begin(token), Settle(start), Record]
    ensures states'[0] == states[0]
    ensures var s := states[|steps|];
            states'[|steps'|] == System(SetToken(s.c, token, start), Idle,
                                        if start.Started? then s.loops + [Between] else s.loops)
  {
    var s := states[|steps|];
    var ctx := s.c.created;
    var begun := BeginToken(s.c, token);
    var settled := SettleToken(begun, ctx, start);
    var loops := if start.Started? then s.loops + [Between] else s.loops;
    states', steps' := Continue(states, steps, Begin(token), System(begun, Begun(ctx), s.loops));
    states', steps' := Continue(states', steps', Settle(start), System(settled, Settled(ctx, start.Ok()), loops));
    states', steps' := Continue(states', steps', Record, System(SetToken(s.c, token, start), Idle, loops));
  }

  /** With a replacement in between, a loop can wait on a live context although the last change failed. */
  lemma LoopSurvivesFailedChange() returns (states: seq<System>, steps: seq<LoopStep>)
    ensures Steps(states, steps) && states[0] == Initially()
    ensures |steps| > 1 && steps[|steps| - 2..] == [Settle(LookupFailed), Record]
    ensures var s := states[|steps|]; s.loops == [Waiting(0)] && 0 in Live(s.c)
  {
    states, steps := ChangeUndisturbed([Initially()], [], "a", Started(1, false));
    var c := states[|steps|].c;
    states, steps := Continue(states, steps, Replaced(0, "b"), System(c.(token := "b"), Idle, [Between]));
    states, steps := Continue(states, steps, Wait(0), System(c.(token := "b"), Idle, [Waiting(0)]));
    states, steps := ChangeUndisturbed(states, steps, "c", LookupFailed);
  }

  /**
   One context does not mean one loop: a loop that is renewing while the token
   changes comes back to watch the new context beside the new loop.
   */
  lemma TwoLoopsOnOneContext() returns (states: seq<System>, steps: seq<LoopStep>)
    ensures Steps(states, steps) && states[0] == Initially()
    ensures var s := states[|steps|]; s.loops == [Waiting(1), Waiting(1)] && Live(s.c) == {1}
  {
    states, steps := ChangeUndisturbed([Initially()], [], "a", Started(1, false));
    var s := states[|steps|];
    states, steps := Continue(states, steps, Wait(0), s.(loops := [Waiting(0)]));
    states, steps := Continue(states, steps, TickArrives(0), s);
    states, steps := ChangeUndisturbed(states, steps, "b", Started(1, false));
    states, steps := BothWait(states, steps);
  }

  /** So does one that waits, if its `select` takes the tick when both the tick and the end of its context are there. */
  lemma TwoLoopsAfterLateTick() returns (states: seq<System>, steps: seq<LoopStep>)
    ensures Steps(states, steps) && states[0] == Initially()
    ensures var s := states[|steps|]; s.loops == [Waiting(1), Waiting(1)] && Live(s.c) == {1}
  {
    states, steps := ChangeUndisturbed([Initially()], [], "a", Started(1, false));
    states, steps := Continue(states, steps, Wait(0), states[|steps|].(loops := [Waiting(0)]));
    states, steps := ChangeUndisturbed(states, steps, "b", Started(1, false));
    states, steps := Continue(states, steps, TickArrives(0), states[|steps|].(loops := [Between, Between]));
    states, steps := BothWait(states, steps);
  }

  lemma BothWait(states: seq<System>, steps: seq<LoopStep>) returns (states': seq<System>, steps': seq<LoopStep>)
    requires Steps(states, steps)
    requires var s := states[|steps|]; s.loops == [Between, Between] && s.c.context.Some?
    ensures Steps(states', steps') && states'[0] == states[0]
    ensures var s := states[|steps|];
            states'[|steps'|] == s.(loops := [Waiting(s.c.context.value), Waiting(s.c.context.value)])
  {
    var s := states[|steps|];
    var w := Waiting(s.c.context.value);
    states', steps' := Continue(states, steps, Wait(0), s.(loops := [w, Between]));
    states', steps' := Continue(states', steps', Wait(1), s.(loops := [w, w]));
  }

  /**
   A loop that puts back the first token during a change makes that change
   record its context in place of a live one, which nothing will cancel.
   */
  lemma ChangeLosesContext() returns (states: seq<System>, steps: seq<LoopStep>)
    ensures Steps(states, steps) && states[0] == Initially()
    ensures var s := states[|steps|];
            && s.setting == Idle && s.loops == [Waiting(0), Between]
            && 0 in Live(s.c) && !Accounted(s)
  {
    states, steps := ChangeUndisturbed([Initially()], [], "r", Started(1, false));
    var c := states[|steps|].c;
    states, steps := Continue(states, steps, Replaced(0, "x"), System(c.(token := "x"), Idle, [Between]));
    var begun := BeginToken(c.(token := "x"), "b");
    states, steps := Continue(states, steps, Begin("b"), System(begun, Begun(1), [Between]));
    begun := begun.(token := "r");
    states, steps := Continue(states, steps, Replaced(0, "r"), System(begun, Begun(1), [Between]));
    states, steps := Continue(states, steps, Wait(0), System(begun, Begun(1), [Waiting(0)]));
    assert begun == Contexts("r", Some(0), map["r" := 0], 2, {});
    states, steps := EndsUnder("r", states, steps);
  }

  lemma EndsUnder(token: string, states: seq<System>, steps: seq<LoopStep>)
    returns (states': seq<System>, steps': seq<LoopStep>)
    requires Steps(states, steps)
    requires states[|steps|] == System(Contexts(token, Some(0), map[token := 0], 2, {}), Begun(1), [Waiting(0)])
    ensures Steps(states', steps') && states'[0] == states[0]
    ensures states'[|steps'|] == System(Contexts(token, Some(1), map[token := 1], 2, {}), Idle, [Waiting(0), Between])
    ensures 0 in Live(states'[|steps'|].c) && !Accounted(states'[|steps'|])
  {
    var settled := Contexts(token, Some(1), map[token := 0], 2, {});
    states', steps' := Continue(states, steps, Settle(Started(1, false)),
                                System(settled, Settled(1, true), [Waiting(0), Between]));
    var recorded := Contexts(token, Some(1), map[token := 1], 2, {});
    assert map[token := 0][token := 1] == map[token := 1];
    states', steps' := Continue(states', steps', Record, System(recorded, Idle, [Waiting(0), Between]));
    assert 0 in Live(recorded);
  }
}
