/**
 Publish/subscribe with change detection (pkg/sse/broadcaster.go and
 pkg/common/atomic.go): the broadcaster's methods, and a step machine in which
 subscribers come, go and read while one publisher publishes.
 */
module Broadcaster {
  import opened Options

  /** Payloads are told apart by a number; a digest function gives the hash of those that marshal. */
  type Payload = int

  type Digest = Payload -> Option<string>

  const CAPACITY := 64

  // ------------------------------------------------------------ the methods

  class AtomicString {
    var value: string

    constructor (v: string)
      ensures value == v
    {
      value := v;
    }

    method CompareAndSwap(next: string) returns (changed: bool)
      modifies this
      ensures value == next
      ensures changed <==> old(value) != next
    {
      if value == next {
        return false;
      }
      value := next;
      return true;
    }
  }

  /** A subscriber as the broadcaster sees it: its flag and what waits in its channel. */
  datatype Subscriber = Subscriber(isNew: bool, queue: seq<Payload>)

  /** One pass of the delivery loop: send if new or changed, unless the channel is full. */
  function Offer(s: Subscriber, data: Payload, changed: bool): Subscriber {
    if (s.isNew || changed) && |s.queue| < CAPACITY then Subscriber(false, s.queue + [data]) else s
  }

  predicate Changes(digest: Digest, data: Payload, hash: string) {
    digest(data).Some? && digest(data).value != hash
  }

  function NextHash(digest: Digest, data: Payload, hash: string): string {
    match digest(data)
    case Some(d) => d
    case None => hash
  }

  class Broadcaster {
    var subscribers: map<nat, Subscriber>
    const lastHash: AtomicString
    /** Channels are numbered as they are made. */
    var made: nat
    var closed: set<nat>
    /** The mutex between calls; a call that finds it held never returns. */
    var locked: bool

    constructor ()
      ensures subscribers == map[] && lastHash.value == "" && made == 0 && closed == {} && fresh(lastHash)
      ensures !locked
    {
      subscribers, made, closed, locked := map[], 0, {}, false;
      lastHash := new AtomicString("");
    }

    ghost predicate Valid()
      reads this
    {
      && subscribers.Keys !! closed
      && (forall ch :: ch in subscribers || ch in closed ==> ch < made)
      && forall ch :: ch in subscribers ==>
           |subscribers[ch].queue| <= CAPACITY && (subscribers[ch].isNew ==> subscribers[ch].queue == [])
    }

    method Subscribe() returns (ch: nat)
      requires Valid() && !locked
      modifies this
      ensures Valid() && !locked
      ensures ch !in old(subscribers) && ch !in closed && closed == old(closed)
      ensures subscribers == old(subscribers)[ch := Subscriber(true, [])]
    {
      ch := made;
      made := made + 1;
      subscribers := subscribers[ch := Subscriber(true, [])];
    }

    /**
     Closing a channel twice panics, with the lock held for good; unsubscribing
     once per subscription never does.
     */
    method Unsubscribe(ch: nat) returns (panicked: bool, empty: bool)
      requires Valid() && !locked && ch < made
      modifies this
      ensures Valid()
      ensures panicked <==> ch in old(closed)
      ensures locked <==> panicked
      ensures subscribers == old(subscribers) - {ch} && closed == old(closed) + {ch}
      ensures empty <==> !panicked && subscribers == map[]
    {
      locked := true;
      subscribers := subscribers - {ch};
      if ch in closed {
        return true, false;
      }
      closed := closed + {ch};
      empty := |subscribers| == 0;
      locked := false;
      return false, empty;
    }

    method ShouldSendUpdate(data: Payload, digest: Digest) returns (changed: bool)
      modifies lastHash
      ensures changed <==> Changes(digest, data, old(lastHash.value))
      ensures lastHash.value == NextHash(digest, data, old(lastHash.value))
    {
      match digest(data)
      case None => changed := false;
      case Some(newHashStr) => changed := lastHash.CompareAndSwap(newHashStr);
    }

    /** Every subscriber is offered the payload once, in whatever order the map is visited. */
    method Publish(data: Payload, digest: Digest)
      requires Valid() && !locked
      modifies this`subscribers, lastHash
      ensures Valid()
      ensures lastHash.value == NextHash(digest, data, old(lastHash.value))
      ensures subscribers == map ch | ch in old(subscribers) ::
                Offer(old(subscribers)[ch], data, Changes(digest, data, old(lastHash.value)))
    {
      var shouldSend := ShouldSendUpdate(data, digest);
      var before := subscribers;
      var rest := subscribers.Keys;
      while rest != {}
        invariant rest <= before.Keys
        invariant lastHash.value == NextHash(digest, data, old(lastHash.value))
        invariant subscribers.Keys == before.Keys
        invariant forall ch :: ch in before ==>
                    subscribers[ch] == if ch in rest then before[ch] else Offer(before[ch], data, shouldSend)
      {
        var ch :| ch in rest;
        rest := rest - {ch};
        var s := subscribers[ch];
        if s.isNew || shouldSend {
          if |s.queue| < CAPACITY {
            // sending on a closed channel would panic
            assert ch !in closed;
            subscribers := subscribers[ch := Subscriber(false, s.queue + [data])];
          }
        }
      }
    }
  }

  // ------------------------------------------------ what a subscriber is owed

  /** The hash after publishing `heard`, starting from `base`. */
  function HashAfter(digest: Digest, heard: seq<Payload>, base: string): string {
    if heard == [] then base
    else NextHash(digest, heard[|heard| - 1], HashAfter(digest, heard[..|heard| - 1], base))
  }

  /** The first payload, and every later one that changes the hash. */
  function Wanted(digest: Digest, heard: seq<Payload>, base: string): seq<Payload> {
    if heard == [] then []
    else
      var before := heard[..|heard| - 1];
      var last := heard[|heard| - 1];
      Wanted(digest, before, base) +
      if before == [] || Changes(digest, last, HashAfter(digest, before, base)) then [last] else []
  }

  /** Runs of payloads with equal digests collapsed to their first. */
  function Collapse(digest: Digest, heard: seq<Payload>): seq<Payload> {
    if |heard| <= 1 then heard
    else
      Collapse(digest, heard[..|heard| - 1]) +
      if digest(heard[|heard| - 1]) != digest(heard[|heard| - 2]) then [heard[|heard| - 1]] else []
  }

  function Marshalled(digest: Digest, heard: seq<Payload>): seq<Payload> {
    if heard == [] then []
    else
      Marshalled(digest, heard[..|heard| - 1]) +
      if digest(heard[|heard| - 1]).Some? then [heard[|heard| - 1]] else []
  }

  predicate StartsWell(digest: Digest, heard: seq<Payload>) {
    heard == [] || digest(heard[0]).Some?
  }

  lemma {:induction false} MarshalledMembers(digest: Digest, heard: seq<Payload>)
    ensures forall data :: data in Marshalled(digest, heard) ==> digest(data).Some?
    ensures heard != [] && StartsWell(digest, heard) ==> Marshalled(digest, heard) != []
  {
    if heard != [] {
      MarshalledMembers(digest, heard[..|heard| - 1]);
    }
  }

  lemma {:induction false} CollapseMembers(digest: Digest, heard: seq<Payload>)
    ensures forall data :: data in Collapse(digest, heard) ==> data in heard
  {
    if |heard| > 1 {
      CollapseMembers(digest, heard[..|heard| - 1]);
    }
  }

  lemma CollapseSnoc(digest: Digest, sound: seq<Payload>, last: Payload)
    requires sound != []
    ensures Collapse(digest, sound + [last]) ==
            Collapse(digest, sound) + if digest(last) != digest(sound[|sound| - 1]) then [last] else []
  {
    var all := sound + [last];
    assert all[..|all| - 1] == sound;
    assert all[|all| - 1] == last && all[|all| - 2] == sound[|sound| - 1];
  }

  /** `wanted` and `sound` after one more payload. */
  lemma OneMoreHeard(digest: Digest, before: seq<Payload>, last: Payload, base: string)
    requires before != []
    ensures var hash := HashAfter(digest, before, base);
            && Wanted(digest, before + [last], base) ==
               Wanted(digest, before, base) + (if Changes(digest, last, hash) then [last] else [])
            && HashAfter(digest, before + [last], base) == NextHash(digest, last, hash)
            && Marshalled(digest, before + [last]) ==
               Marshalled(digest, before) + (if digest(last).Some? then [last] else [])
  {
    var all := before + [last];
    assert all[..|all| - 1] == before;
    assert all[|all| - 1] == last;
  }

  /** Some payload after the first changes the hash that there was before the first. */
  ghost predicate ChangesLater(digest: Digest, heard: seq<Payload>, base: string) {
    exists k :: 1 <= k < |heard| && Changes(digest, heard[k], base)
  }

  /** After a first payload that does not marshal, the hash moves on at the first later change, if there is one. */
  lemma {:induction false} WantedStartsBadly(digest: Digest, heard: seq<Payload>, base: string)
    requires heard != [] && !StartsWell(digest, heard)
    ensures var wanted := Wanted(digest, heard, base);
            && wanted != [] && wanted[0] == heard[0]
            && (|wanted| > 1 <==> ChangesLater(digest, heard, base))
            && (|wanted| == 1 ==> HashAfter(digest, heard, base) == base)
            && (|wanted| > 1 ==> digest(wanted[|wanted| - 1]) == Some(HashAfter(digest, heard, base)))
  {
    var before, last := heard[..|heard| - 1], heard[|heard| - 1];
    if before == [] {
      assert Wanted(digest, before, base) == [] && HashAfter(digest, before, base) == base;
    } else {
      assert heard == before + [last];
      WantedStartsBadly(digest, before, base);
      OneMoreHeard(digest, before, last, base);
      assert ChangesLater(digest, heard, base) <==>
             ChangesLater(digest, before, base) || Changes(digest, last, base) by {
        if ChangesLater(digest, before, base) {
          var k :| 1 <= k < |before| && Changes(digest, before[k], base);
          assert heard[k] == before[k];
        }
        if ChangesLater(digest, heard, base) {
          var k :| 1 <= k < |heard| && Changes(digest, heard[k], base);
          assert k < |before| ==> heard[k] == before[k];
        }
        assert heard[|before|] == last;
      }
    }
  }

  lemma {:induction false} WantedStartsWell(digest: Digest, heard: seq<Payload>, base: string)
    requires heard != [] && StartsWell(digest, heard)
    ensures var sound := Marshalled(digest, heard);
            && sound != []
            && Wanted(digest, heard, base) == Collapse(digest, sound)
            && digest(sound[|sound| - 1]) == Some(HashAfter(digest, heard, base))
  {
    var before, last := heard[..|heard| - 1], heard[|heard| - 1];
    if before == [] {
      assert Marshalled(digest, before) == [] && Wanted(digest, before, base) == [];
    } else {
      assert heard == before + [last];
      WantedStartsWell(digest, before, base);
      OneMoreHeard(digest, before, last, base);
      var sound := Marshalled(digest, before);
      if digest(last).Some? {
        CollapseSnoc(digest, sound, last);
      } else {
        assert sound + [] == sound && Wanted(digest, before, base) + [] == Wanted(digest, before, base);
      }
    }
  }

  /**
   The last payload owed has the current hash exactly when the first payload
   heard marshals, or a later one changes the hash that there was before it.
   */
  lemma LastWanted(digest: Digest, heard: seq<Payload>, base: string)
    requires heard != []
    ensures var wanted := Wanted(digest, heard, base);
            && wanted != []
            && (digest(wanted[|wanted| - 1]) == Some(HashAfter(digest, heard, base)) <==>
                StartsWell(digest, heard) || ChangesLater(digest, heard, base))
  {
    if StartsWell(digest, heard) {
      WantedStartsWell(digest, heard, base);
      CollapseEnds(digest, Marshalled(digest, heard));
    } else {
      WantedStartsBadly(digest, heard, base);
    }
  }

  /** Each payload owed has another digest than the one before it. */
  lemma {:induction false} WantedDiffer(digest: Digest, heard: seq<Payload>, base: string)
    requires |Wanted(digest, heard, base)| > 1
    ensures var wanted := Wanted(digest, heard, base);
            && digest(wanted[|wanted| - 1]) == Some(HashAfter(digest, heard, base))
            && digest(wanted[|wanted| - 2]) != digest(wanted[|wanted| - 1])
  {
    var before, last := heard[..|heard| - 1], heard[|heard| - 1];
    LastWanted(digest, before, base);
    if Changes(digest, last, HashAfter(digest, before, base)) {
      if !StartsWell(digest, before) {
        WantedStartsBadly(digest, before, base);
      }
    } else {
      WantedDiffer(digest, before, base);
    }
  }

  /** The last payload kept has the digest of the last one collapsed. */
  lemma {:induction false} CollapseEnds(digest: Digest, sound: seq<Payload>)
    requires sound != []
    ensures var kept := Collapse(digest, sound);
            kept != [] && digest(kept[|kept| - 1]) == digest(sound[|sound| - 1])
  {
    if |sound| > 1 {
      var before, last := sound[..|sound| - 1], sound[|sound| - 1];
      assert sound == before + [last];
      CollapseEnds(digest, before);
      CollapseSnoc(digest, before, last);
    }
  }

  /**
   What is owed is the published stream without what does not marshal and with
   runs of equal digests collapsed, whatever was published before, exactly when
   the first payload marshals (or there is none).
   */
  lemma WantedIsCollapsed(digest: Digest, heard: seq<Payload>, base: string)
    ensures Wanted(digest, heard, base) == Collapse(digest, Marshalled(digest, heard)) <==> StartsWell(digest, heard)
  {
    if heard != [] {
      if StartsWell(digest, heard) {
        WantedStartsWell(digest, heard, base);
      } else {
        WantedStartsBadly(digest, heard, base);
        MarshalledMembers(digest, heard);
        CollapseMembers(digest, Marshalled(digest, heard));
        assert heard[0] in Wanted(digest, heard, base);
      }
    }
  }

  /**
   The marshalling condition matters: a subscriber whose first payload does not
   marshal is never sent the state the broadcaster is in.
   */
  lemma UnmarshallableFirstPayload(digest: Digest, bad: Payload, good: Payload)
    requires digest(bad).None? && digest(good).Some?
    ensures Wanted(digest, [bad, good], digest(good).value) == [bad]
  {
    var base := digest(good).value;
    assert [bad, good][..1] == [bad] && [bad][..0] == [];
    assert Wanted(digest, [bad], base) == [] + [bad];
    assert HashAfter(digest, [bad], base) == base;
    assert Wanted(digest, [bad, good], base) == [bad] + [];
  }

  /** `wanted` without the places in `lost`. */
  function Keep(wanted: seq<Payload>, lost: set<nat>): seq<Payload> {
    if wanted == [] then []
    else Keep(wanted[..|wanted| - 1], lost) + if |wanted| - 1 in lost then [] else [wanted[|wanted| - 1]]
  }

  lemma {:induction false} KeepAppend(wanted: seq<Payload>, lost: set<nat>, data: Payload)
    requires forall i :: i in lost ==> i < |wanted|
    ensures Keep(wanted + [data], lost) == Keep(wanted, lost) + [data]
    ensures Keep(wanted + [data], lost + {|wanted|}) == Keep(wanted, lost)
  {
    assert (wanted + [data])[..|wanted|] == wanted;
    KeepIgnoresLater(wanted, lost, |wanted|);
  }

  lemma {:induction false} KeepIgnoresLater(wanted: seq<Payload>, lost: set<nat>, i: nat)
    requires i >= |wanted|
    ensures Keep(wanted, lost + {i}) == Keep(wanted, lost)
  {
    if wanted != [] {
      KeepIgnoresLater(wanted[..|wanted| - 1], lost, i);
    }
  }

  /** How many of the first `n` places are in `lost`. */
  function LostBefore(lost: set<nat>, n: nat): nat {
    if n == 0 then 0 else LostBefore(lost, n - 1) + if n - 1 in lost then 1 else 0
  }

  /** What is kept is in order, and complete but for the lost places. */
  lemma {:induction false} KeptInOrder(wanted: seq<Payload>, lost: set<nat>, i: nat)
    ensures LostBefore(lost, |wanted|) <= |wanted| && |Keep(wanted, lost)| == |wanted| - LostBefore(lost, |wanted|)
    ensures i < |wanted| && i !in lost ==>
              LostBefore(lost, i) <= i && i - LostBefore(lost, i) < |Keep(wanted, lost)| &&
              Keep(wanted, lost)[i - LostBefore(lost, i)] == wanted[i]
  {
    if wanted != [] {
      KeptInOrder(wanted[..|wanted| - 1], lost, i);
    }
  }

  lemma {:induction false} KeepMembers(wanted: seq<Payload>, lost: set<nat>)
    requires wanted != [] && 0 !in lost
    ensures Keep(wanted, lost) != []
    ensures var n := |wanted| - 1; n !in lost ==> Keep(wanted, lost)[|Keep(wanted, lost)| - 1] == wanted[n]
  {
    if |wanted| > 1 {
      KeepMembers(wanted[..|wanted| - 1], lost);
    }
  }

  lemma {:induction false} KeepAll(wanted: seq<Payload>)
    ensures Keep(wanted, {}) == wanted
  {
    if wanted != [] {
      KeepAll(wanted[..|wanted| - 1]);
    }
  }

  // ---------------------------------------------------------- the step machine

  /**
   A subscriber with its history: what its reader has taken, the payloads whose
   delivery it was there for, the hash before the first of them, and which of
   the payloads it was owed were dropped.
   */
  datatype Stream = Stream(sub: Subscriber, taken: seq<Payload>, heard: seq<Payload>, base: string, lost: set<nat>)

  datatype Phase =
    | Idle
    | Swapped(data: Payload, prior: string)
    | Delivering(data: Payload, prior: string, rest: set<nat>)

  datatype State = State(streams: map<nat, Stream>, lastHash: string, made: nat, closed: set<nat>, phase: Phase)

  datatype Step =
    | Join
    | Leave(ch: nat)
    | Swap(data: Payload)
    | Lock
    | Deliver(ch: nat)
    | Unlock
    | Receive(ch: nat)

  const INITIAL := State(map[], "", 0, {}, Idle)

  function Queued(s: Stream): seq<Payload> {
    s.taken + s.sub.queue
  }

  function Delivered(digest: Digest, s: Stream, data: Payload, prior: string): Stream {
    var changed := Changes(digest, data, prior);
    var base := if s.heard == [] then prior else s.base;
    var dropped := (s.sub.isNew || changed) && |s.sub.queue| >= CAPACITY;
    Stream(
      Offer(s.sub, data, changed),
      s.taken,
      s.heard + [data],
      base,
      if dropped then s.lost + {|Wanted(digest, s.heard, base)|} else s.lost)
  }

  /** The reader takes the oldest payload from its channel. */
  function Received(s: Stream): Stream
    requires s.sub.queue != []
  {
    s.(sub := s.sub.(queue := s.sub.queue[1..]), taken := s.taken + [s.sub.queue[0]])
  }

  /** Subscribing and unsubscribing take the lock that delivery holds; reading a channel does not. */
  ghost predicate Next(digest: Digest, s: State, step: Step, t: State) {
    match step
    case Join =>
      !s.phase.Delivering? &&
      t == s.(streams := s.streams[s.made := Stream(Subscriber(true, []), [], [], "", {})], made := s.made + 1)
    case Leave(ch) =>
      !s.phase.Delivering? && ch in s.streams &&
      t == s.(streams := s.streams - {ch}, closed := s.closed + {ch})
    case Swap(data) =>
      s.phase.Idle? &&
      t == s.(lastHash := NextHash(digest, data, s.lastHash), phase := Swapped(data, s.lastHash))
    case Lock =>
      s.phase.Swapped? &&
      t == s.(phase := Delivering(s.phase.data, s.phase.prior, s.streams.Keys))
    case Deliver(ch) =>
      s.phase.Delivering? && ch in s.phase.rest && ch in s.streams &&
      t == s.(streams := s.streams[ch := Delivered(digest, s.streams[ch], s.phase.data, s.phase.prior)],
              phase := s.phase.(rest := s.phase.rest - {ch}))
    case Unlock =>
      s.phase.Delivering? && s.phase.rest == {} && t == s.(phase := Idle)
    case Receive(ch) =>
      ch in s.streams && s.streams[ch].sub.queue != [] &&
      t == s.(streams := s.streams[ch := Received(s.streams[ch])])
  }

  // -------------------------------------------------------------- invariants

  ghost predicate StreamOk(digest: Digest, s: Stream) {
    && |s.sub.queue| <= CAPACITY
    && (s.sub.isNew <==> s.heard == [])
    && (s.heard == [] ==> Queued(s) == [] && s.lost == {})
    && 0 !in s.lost
    && (forall i :: i in s.lost ==> i < |Wanted(digest, s.heard, s.base)|)
    && Queued(s) == Keep(Wanted(digest, s.heard, s.base), s.lost)
  }

  /** Whether subscriber `ch` has yet to be offered the payload being published. */
  predicate Ahead(phase: Phase, ch: nat) {
    phase.Swapped? || (phase.Delivering? && ch in phase.rest)
  }

  /** The hash a subscriber's history leads to: the current one, or the prior one if it is still to be served. */
  ghost predicate InStep(digest: Digest, s: State, ch: nat)
    requires ch in s.streams
  {
    s.streams[ch].heard != [] ==>
      HashAfter(digest, s.streams[ch].heard, s.streams[ch].base) ==
      if Ahead(s.phase, ch) then s.phase.prior else s.lastHash
  }

  ghost predicate Inv(digest: Digest, s: State) {
    && s.streams.Keys !! s.closed
    && (forall ch :: ch in s.streams || ch in s.closed ==> ch < s.made)
    && (!s.phase.Idle? ==> s.lastHash == NextHash(digest, s.phase.data, s.phase.prior))
    && (s.phase.Delivering? ==> s.phase.rest <= s.streams.Keys)
    && (forall ch :: ch in s.streams ==> StreamOk(digest, s.streams[ch]) && InStep(digest, s, ch))
  }

  lemma DeliveredOk(digest: Digest, s: Stream, data: Payload, prior: string)
    requires StreamOk(digest, s)
    requires s.heard != [] ==> HashAfter(digest, s.heard, s.base) == prior
    ensures var t := Delivered(digest, s, data, prior);
            StreamOk(digest, t) && HashAfter(digest, t.heard, t.base) == NextHash(digest, data, prior)
  {
    var t := Delivered(digest, s, data, prior);
    assert t.heard[..|t.heard| - 1] == s.heard;
    var wanted := Wanted(digest, s.heard, t.base);
    assert s.heard == [] ==> wanted == [] && s.sub.queue == [];
    KeepAppend(wanted, s.lost, data);
    if s.sub.isNew || Changes(digest, data, prior) {
      assert Wanted(digest, t.heard, t.base) == wanted + [data];
    } else {
      assert wanted + [] == wanted;
      assert Wanted(digest, t.heard, t.base) == wanted;
    }
  }

  lemma InvDeliver(digest: Digest, s: State, ch: nat, t: State)
    requires Inv(digest, s) && Next(digest, s, Deliver(ch), t)
    ensures Inv(digest, t)
  {
    assert InStep(digest, s, ch);
    DeliveredOk(digest, s.streams[ch], s.phase.data, s.phase.prior);
    forall c | c in t.streams && c != ch
      ensures StreamOk(digest, t.streams[c]) && InStep(digest, t, c)
    {
      InvDeliverElsewhere(digest, s, ch, t, c);
    }
  }

  lemma InvDeliverElsewhere(digest: Digest, s: State, ch: nat, t: State, c: nat)
    requires Inv(digest, s) && Next(digest, s, Deliver(ch), t) && c in t.streams && c != ch
    ensures StreamOk(digest, t.streams[c]) && InStep(digest, t, c)
  {
    assert StreamOk(digest, s.streams[c]) && InStep(digest, s, c);
  }

  lemma ReceivedOk(digest: Digest, s: Stream)
    requires StreamOk(digest, s) && s.sub.queue != []
    ensures StreamOk(digest, Received(s)) && Queued(Received(s)) == Queued(s)
  {
    assert s.sub.queue == [s.sub.queue[0]] + s.sub.queue[1..];
    assert Queued(Received(s)) == Queued(s);
  }

  lemma InvReceive(digest: Digest, s: State, ch: nat, t: State)
    requires Inv(digest, s) && Next(digest, s, Receive(ch), t)
    ensures Inv(digest, t)
  {
    ReceivedOk(digest, s.streams[ch]);
    forall c | c in t.streams
      ensures StreamOk(digest, t.streams[c]) && InStep(digest, t, c)
    {
      assert StreamOk(digest, s.streams[c]) && InStep(digest, s, c);
    }
  }

  lemma InvStep(digest: Digest, s: State, step: Step, t: State)
    requires Inv(digest, s) && Next(digest, s, step, t)
    ensures Inv(digest, t)
  {
    match step {
      case Deliver(ch) => InvDeliver(digest, s, ch, t);
      case Receive(ch) => InvReceive(digest, s, ch, t);
      case _ =>
        forall c | c in t.streams
          ensures StreamOk(digest, t.streams[c]) && InStep(digest, t, c)
        {
          if c in s.streams {
            assert StreamOk(digest, s.streams[c]) && InStep(digest, s, c);
          }
        }
    }
  }

  ghost predicate Trace(digest: Digest, states: seq<State>, steps: seq<Step>) {
    && |states| == |steps| + 1
    && states[0] == INITIAL
    && forall i :: 0 <= i < |steps| ==> Next(digest, states[i], steps[i], states[i + 1])
  }

  lemma {:induction false} InvHolds(digest: Digest, states: seq<State>, steps: seq<Step>, i: nat)
    requires Trace(digest, states, steps) && i < |states|
    ensures Inv(digest, states[i])
  {
    if i > 0 {
      InvHolds(digest, states, steps, i - 1);
      InvStep(digest, states[i - 1], steps[i - 1], states[i - 1 + 1]);
    }
  }

  /**
   Channel safety over every trace: a payload is only ever sent on an open
   channel, no queue holds more than its capacity, and a new subscriber's first
   payload always finds room.
   */
  lemma ChannelsAreSafe(digest: Digest, states: seq<State>, steps: seq<Step>, i: nat)
    requires Trace(digest, states, steps) && i < |steps| && steps[i].Deliver?
    ensures var ch := steps[i].ch;
            && ch !in states[i].closed
            && |states[i + 1].streams[ch].sub.queue| <= 64
            && (states[i + 1].streams[ch].lost != states[i].streams[ch].lost ==>
                  |states[i].streams[ch].sub.queue| == 64)
            && (states[i].streams[ch].sub.isNew ==>
                  Queued(states[i + 1].streams[ch]) == [states[i].phase.data])
            && !states[i + 1].streams[ch].sub.isNew
  {
    InvHolds(digest, states, steps, i);
    InvHolds(digest, states, steps, i + 1);
    var s, t := states[i], states[i + 1];
    assert Next(digest, s, steps[i], t);
    assert t.streams[steps[i].ch].heard != [];
  }

  /**
   Per-subscriber stream, over every trace: what was queued is what was owed
   less the dropped payloads, in order. Without drops it is the published stream
   of what marshals, with runs of equal digests collapsed, exactly if the first
   payload heard marshals.
   */
  lemma StreamOfASubscriber(digest: Digest, states: seq<State>, steps: seq<Step>, i: nat, ch: nat)
    requires Trace(digest, states, steps) && i < |states| && ch in states[i].streams
    ensures var r := states[i].streams[ch];
            && Queued(r) == Keep(Wanted(digest, r.heard, r.base), r.lost)
            && (r.lost == {} ==>
                  && Queued(r) == Wanted(digest, r.heard, r.base)
                  && (Queued(r) == Collapse(digest, Marshalled(digest, r.heard)) <==> StartsWell(digest, r.heard)))
  {
    InvHolds(digest, states, steps, i);
    var r := states[i].streams[ch];
    assert StreamOk(digest, r);
    KeepAll(Wanted(digest, r.heard, r.base));
    WantedIsCollapsed(digest, r.heard, r.base);
  }

  /**
   Between publications, what a subscriber that is not new was last queued has
   the current hash exactly in these cases. If the last payload it was owed was
   not dropped: the first payload it heard marshals, or a later one changes the
   hash that there was before it. If it was dropped: what was queued last has the
   same digest, which it never has if nothing else was dropped in between.
   */
  lemma LastQueuedIsCurrent(digest: Digest, states: seq<State>, steps: seq<Step>, i: nat, ch: nat)
    requires Trace(digest, states, steps) && i < |states| && ch in states[i].streams
    requires states[i].phase.Idle? && !states[i].streams[ch].sub.isNew
    ensures var r := states[i].streams[ch];
            var queued := Queued(r);
            var wanted := Wanted(digest, r.heard, r.base);
            var n := |wanted| - 1;
            && queued != [] && wanted != []
            && (digest(queued[|queued| - 1]) == Some(states[i].lastHash) <==>
                if n in r.lost then digest(queued[|queued| - 1]) == digest(wanted[n])
                else StartsWell(digest, r.heard) || ChangesLater(digest, r.heard, r.base))
            && (n in r.lost && n - 1 !in r.lost ==> digest(queued[|queued| - 1]) != digest(wanted[n]))
  {
    InvHolds(digest, states, steps, i);
    assert InStep(digest, states[i], ch);
    var r := states[i].streams[ch];
    var wanted := Wanted(digest, r.heard, r.base);
    var n := |wanted| - 1;
    LastWanted(digest, r.heard, r.base);
    KeepMembers(wanted, r.lost);
    if n in r.lost {
      WantedDiffer(digest, r.heard, r.base);
      KeepMembers(wanted[..n], r.lost);
    }
  }

  /** The payloads whose delivery was completed by the steps from `j` to `i`. */
  ghost function Published(states: seq<State>, steps: seq<Step>, j: nat, i: nat): seq<Payload>
    requires j <= i <= |steps| < |states|
    decreases i
  {
    if i == j then []
    else Published(states, steps, j, i - 1) +
         if steps[i - 1].Unlock? && states[i - 1].phase.Delivering? then [states[i - 1].phase.data] else []
  }

  lemma {:induction false} NumbersGrow(digest: Digest, states: seq<State>, steps: seq<Step>, j: nat, i: nat)
    requires Trace(digest, states, steps) && j <= i < |states|
    ensures states[j].made <= states[i].made
  {
    if i > j {
      NumbersGrow(digest, states, steps, j, i - 1);
      assert Next(digest, states[i - 1], steps[i - 1], states[i - 1 + 1]);
    }
  }

  lemma NumberTaken(digest: Digest, states: seq<State>, steps: seq<Step>, j: nat, i: nat)
    requires Trace(digest, states, steps) && j < i < |states| && steps[j].Join?
    ensures states[j].made < states[i].made
  {
    assert Next(digest, states[j], steps[j], states[j + 1]);
    NumbersGrow(digest, states, steps, j + 1, i);
  }

  /** The publication under way, if its delivery has reached the subscriber. */
  function Current(phase: Phase, ch: nat): seq<Payload> {
    if phase.Delivering? && ch !in phase.rest then [phase.data] else []
  }

  lemma JustJoined(digest: Digest, s: State, t: State)
    requires Next(digest, s, Join, t)
    ensures t.streams[s.made].heard == [] && Current(t.phase, s.made) == []
  {
  }

  lemma JoinedBefore(digest: Digest, s: State, step: Step, t: State, ch: nat)
    requires Next(digest, s, step, t) && ch in t.streams && ch < s.made
    ensures ch in s.streams
  {
  }

  lemma HeardStep(digest: Digest, s: State, step: Step, t: State, ch: nat, published: seq<Payload>)
    requires Next(digest, s, step, t) && ch in s.streams && ch in t.streams && ch != s.made
    requires s.streams[ch].heard == published + Current(s.phase, ch)
    ensures t.streams[ch].heard ==
            published + (if step.Unlock? && s.phase.Delivering? then [s.phase.data] else []) + Current(t.phase, ch)
  {
  }

  /**
   What a subscriber has heard is what was published since it joined: every
   completed publication, and the current one if its delivery has reached it.
   */
  lemma {:induction false} HeardSinceJoining(digest: Digest, states: seq<State>, steps: seq<Step>, j: nat, i: nat,
                                             ch: nat)
    requires Trace(digest, states, steps) && j < i < |states|
    requires steps[j].Join? && ch == states[j].made && ch in states[i].streams
    ensures states[i].streams[ch].heard == Published(states, steps, j, i) + Current(states[i].phase, ch)
    decreases i
  {
    if i == j + 1 {
      assert Next(digest, states[j], steps[j], states[j + 1]);
      JustJoined(digest, states[j], states[i]);
      assert Published(states, steps, j, j) == [];
    } else {
      NumberTaken(digest, states, steps, j, i - 1);
      assert Next(digest, states[i - 1], steps[i - 1], states[i - 1 + 1]);
      JoinedBefore(digest, states[i - 1], steps[i - 1], states[i], ch);
      HeardSinceJoining(digest, states, steps, j, i - 1, ch);
      HeardStep(digest, states[i - 1], steps[i - 1], states[i], ch, Published(states, steps, j, i - 1));
    }
  }

  // ------------------------------------------------------- a publication can be completed

  ghost predicate Continues(digest: Digest, states: seq<State>, steps: seq<Step>) {
    && |states| == |steps| + 1
    && forall i :: 0 <= i < |steps| ==> Next(digest, states[i], steps[i], states[i + 1])
  }

  /** Delivery never has to wait for a reader: it can go on until every subscriber left has been offered the payload. */
  lemma {:induction false} CanDeliver(digest: Digest, s: State) returns (states: seq<State>, steps: seq<Step>)
    requires s.phase.Delivering? && s.phase.rest <= s.streams.Keys
    ensures Continues(digest, states, steps) && states[0] == s
    ensures var t := states[|steps|];
            && t.phase == Idle && t.streams.Keys == s.streams.Keys && t.lastHash == s.lastHash
            && (forall ch :: ch in s.streams ==>
                  t.streams[ch].heard == s.streams[ch].heard + if ch in s.phase.rest then [s.phase.data] else [])
    decreases s.phase.rest
  {
    if s.phase.rest == {} {
      states, steps := [s, s.(phase := Idle)], [Unlock];
    } else {
      var ch :| ch in s.phase.rest;
      var t := s.(streams := s.streams[ch := Delivered(digest, s.streams[ch], s.phase.data, s.phase.prior)],
                  phase := s.phase.(rest := s.phase.rest - {ch}));
      assert Next(digest, s, Deliver(ch), t);
      states, steps := CanDeliver(digest, t);
      states, steps := [s] + states, [Deliver(ch)] + steps;
    }
  }

  /** Between publications any payload can be published, and every subscriber then hears it. */
  lemma CanPublish(digest: Digest, s: State, data: Payload) returns (states: seq<State>, steps: seq<Step>)
    requires Inv(digest, s) && s.phase == Idle
    ensures Continues(digest, states, steps) && states[0] == s
    ensures var t := states[|steps|];
            && t.phase == Idle && t.streams.Keys == s.streams.Keys
            && t.lastHash == NextHash(digest, data, s.lastHash)
            && (forall ch :: ch in s.streams ==> t.streams[ch].heard == s.streams[ch].heard + [data])
  {
    var swapped := s.(lastHash := NextHash(digest, data, s.lastHash), phase := Swapped(data, s.lastHash));
    var locked := swapped.(phase := Delivering(data, s.lastHash, s.streams.Keys));
    states, steps := CanDeliver(digest, locked);
    states, steps := [s, swapped] + states, [Swap(data), Lock] + steps;
    assert Next(digest, s, Swap(data), swapped) && Next(digest, swapped, Lock, locked);
  }
}
