/**
 Renewal of the secret-store token (pkg/secrets/openbao/secrets.go): whether and
 how often a token is renewed, why that keeps it alive, and what the renewal
 loop does when a renewal fails. Times are nanoseconds since the token lookup.
 */
module TokenRenewal {
  import opened Options

  const SECOND := 1_000_000_000
  const HALF_SECOND := 500_000_000
  const TWO_63 := 0x8000_0000_0000_0000

  /** Arithmetic of `time.Duration`, a 64-bit signed integer. */
  function Wrap64(x: int): int {
    (x + TWO_63) % (2 * TWO_63) - TWO_63
  }

  /** Go's division by two, which truncates toward zero. */
  function Half(x: int): int {
    if x >= 0 then x / 2 else -(-x / 2)
  }

  predicate IsInt64(x: int) {
    -TWO_63 <= x < TWO_63
  }

  // ---------------------------------------------------------------- start-up

  datatype TokenMetadata = TokenMetadata(period: int, ttl: int, renewable: bool)

  datatype Renewal = Renewed | Forbidden | OtherFailure

  datatype Start =
    | LookupFailed
    | NotRenewable
    | NoInterval
    | FirstRenewalFailed
    | Started(interval: int, renewedFirst: bool)
  {
    /** `SetAuthToken` succeeds without a renewal loop for tokens that cannot or need not be renewed. */
    predicate Ok() {
      Started? || NotRenewable? || NoInterval?
    }
  }

  function RenewInterval(period: int): int {
    Half(Wrap64(period * SECOND))
  }

  function StartUp(lookup: Option<TokenMetadata>, renewal: Renewal): Start {
    match lookup
    case None => LookupFailed
    case Some(data) =>
      var interval := RenewInterval(data.period);
      if !data.renewable then NotRenewable
      else if interval <= 0 then NoInterval
      else if Wrap64(data.ttl * SECOND) > interval then Started(interval, false)
      else if renewal == Renewed then Started(interval, true)
      else FirstRenewalFailed
  }

  /** The wrapped value is the one of the 64-bit range that differs by a multiple of 2^64. */
  lemma WrapIsCongruent(x: int) returns (k: int)
    ensures -0x8000_0000_0000_0000 <= Wrap64(x) < 0x8000_0000_0000_0000
    ensures x == Wrap64(x) + k * 0x1_0000_0000_0000_0000
  {
    k := (x + TWO_63) / (2 * TWO_63);
  }

  /** Halving rounds toward zero. */
  lemma HalfTruncates(x: int)
    ensures x >= 0 ==> 0 <= x - 2 * Half(x) <= 1
    ensures x <= 0 ==> 0 <= 2 * Half(x) - x <= 1
  {
  }

  /**
   Every outcome of start-up: it fails exactly if the lookup fails, or renewal is
   due at once and does not succeed; of the others, a loop is started exactly for
   the renewable tokens with a positive interval.
   */
  lemma WhenStartUpFails(lookup: Option<TokenMetadata>, renewal: Renewal)
    ensures var start := StartUp(lookup, renewal);
            match lookup
            case None => start == LookupFailed && !start.Ok()
            case Some(data) =>
              var interval := Half(Wrap64(data.period * 1_000_000_000));
              var renews := data.renewable && interval > 0;
              var dueAtOnce := Wrap64(data.ttl * 1_000_000_000) <= interval;
              && (!start.Ok() <==> renews && dueAtOnce && renewal != Renewed)
              && (start == FirstRenewalFailed <==> !start.Ok())
              && (start.Started? <==> start.Ok() && renews)
              && (start == NotRenewable <==> !data.renewable)
              && (start.Started? ==> start.interval == interval && (start.renewedFirst <==> dueAtOnce))
  {
  }

  // ------------------------------------------------------- the server's clock

  /** A renewal at time `at` is accepted exactly while some time to live remains. */
  function Renew(at: int, expiry: int, period: int): Option<int> {
    if at < expiry then Some(at + period * SECOND) else None
  }

  /** Every renewal in `times` finds the token alive; each resets its time to live to the period. */
  predicate AliveAtAll(times: seq<int>, expiry: int, period: int) {
    times == [] ||
    match Renew(times[0], expiry, period)
    case Some(next) => AliveAtAll(times[1..], next, period)
    case None => false
  }

  /**
   When the token was last known to have its time to live: at the renewal that
   precedes the ticker, if there was one, else at the lookup.
   */
  function Origin(start: Start, at: int): int
    requires start.Started?
  {
    if start.renewedFirst then at else 0
  }

  /** Tick `k` is served less than `lateness` after its time; a delay in making the ticker counts as lateness. */
  predicate OnTime(times: seq<int>, origin: int, interval: int, lateness: int) {
    forall k :: 0 <= k < |times| ==> origin + (k + 1) * interval <= times[k] < origin + (k + 1) * interval + lateness
  }

  /** The expiry time once the loop starts; `at` is when the first renewal, if any, is served. */
  function ExpiryAtStart(data: TokenMetadata, start: Start, at: int): int
    requires start.Started?
  {
    if start.renewedFirst then at + data.period * SECOND else data.ttl * SECOND
  }

  /** The server accepts the renewal at start-up exactly while the looked-up time to live lasts. */
  function FirstRenewal(data: TokenMetadata, at: int): Renewal {
    if at < data.ttl * SECOND then Renewed else Forbidden
  }

  predicate Plausible(data: TokenMetadata) {
    data.renewable && 0 < data.period && data.period * SECOND < TWO_63 && 0 <= data.ttl < TWO_63
  }

  lemma WrapNothing(x: int)
    requires IsInt64(x)
    ensures Wrap64(x) == x
  {
  }

  /** Half the period, exactly: the interval leaves at least half a second of every period. */
  lemma IntervalOfPeriod(period: int)
    requires 0 < period && period * SECOND < TWO_63
    ensures RenewInterval(period) == period * HALF_SECOND
    ensures period * SECOND - RenewInterval(period) >= HALF_SECOND
  {
    WrapNothing(period * SECOND);
  }

  lemma {:induction false} GapsAreSurvived(times: seq<int>, origin: int, interval: int, lateness: int, expiry: int,
                                           period: int)
    requires interval + lateness <= period * SECOND
    requires OnTime(times, origin, interval, lateness)
    requires origin + interval + lateness <= expiry
    ensures AliveAtAll(times, expiry, period)
    decreases |times|
  {
    if times != [] {
      assert origin + (0 + 1) * interval <= times[0] < origin + (0 + 1) * interval + lateness;
      forall k | 0 <= k < |times[1..]|
        ensures (origin + interval) + (k + 1) * interval <= times[1..][k]
        ensures times[1..][k] < (origin + interval) + (k + 1) * interval + lateness
      {
        assert times[1..][k] == times[k + 1];
        assert (k + 1 + 1) * interval == (k + 1) * interval + interval;
      }
      GapsAreSurvived(times[1..], origin + interval, interval, lateness, times[0] + period * SECOND, period);
    }
  }

  /** What is known of the token once its renewal is started, and when the first renewal, if any, was served. */
  predicate IsStarted(data: TokenMetadata, at: int) {
    Plausible(data) && at >= 0 && StartUp(Some(data), FirstRenewal(data, at)).Started?
  }

  /** A run of renewals: what the lookup said, when the first renewal was served if there was one, and the ticks. */
  ghost predicate IsRun(data: TokenMetadata, at: int, times: seq<int>, lateness: int) {
    var start := StartUp(Some(data), FirstRenewal(data, at));
    IsStarted(data, at) && OnTime(times, Origin(start, at), start.interval, lateness)
  }

  ghost predicate Survives(data: TokenMetadata, at: int, times: seq<int>) {
    var start := StartUp(Some(data), FirstRenewal(data, at));
    start.Started? && AliveAtAll(times, ExpiryAtStart(data, start, at), data.period)
  }

  /** How late ticks may be: half a period, or what the looked-up time to live leaves after the first interval. */
  function Slack(data: TokenMetadata, at: int): int
    requires IsStarted(data, at)
  {
    var start := StartUp(Some(data), FirstRenewal(data, at));
    var left := data.ttl * SECOND - start.interval;
    if start.renewedFirst || start.interval <= left then start.interval else left
  }

  lemma SlackBounds(data: TokenMetadata, at: int)
    requires IsStarted(data, at)
    ensures HALF_SECOND <= Slack(data, at) <= data.period * SECOND - Slack(data, at)
  {
    var start := StartUp(Some(data), FirstRenewal(data, at));
    IntervalOfPeriod(data.period);
    if !start.renewedFirst && IsInt64(data.ttl * SECOND) {
      WrapNothing(data.ttl * SECOND);
      // whole seconds against half seconds
      assert data.ttl * 2 * HALF_SECOND > data.period * HALF_SECOND;
      assert data.ttl * 2 >= data.period + 1;
    }
  }

  /** The latest ticks that `lateness` allows. */
  function LatestTicks(data: TokenMetadata, at: int, lateness: int): seq<int>
    requires IsStarted(data, at)
  {
    var start := StartUp(Some(data), FirstRenewal(data, at));
    var first := Origin(start, at) + start.interval;
    if Slack(data, at) == start.interval && ExpiryAtStart(data, start, at) > first + lateness - 1
    then [first, first + start.interval + lateness - 1]
    else [first + lateness - 1]
  }

  /** No tick of this token less than `lateness` late finds it expired. */
  ghost predicate KeepsTokenAlive(data: TokenMetadata, at: int, lateness: int) {
    forall times: seq<int> :: IsRun(data, at, times, lateness) ==> Survives(data, at, times)
  }

  lemma TooLate(data: TokenMetadata, at: int, lateness: int)
    requires IsStarted(data, at) && lateness > Slack(data, at)
    ensures !KeepsTokenAlive(data, at, lateness)
  {
    var start := StartUp(Some(data), FirstRenewal(data, at));
    var times := LatestTicks(data, at, lateness);
    SlackBounds(data, at);
    IntervalOfPeriod(data.period);
    var expiry := ExpiryAtStart(data, start, at);
    assert IsRun(data, at, times, lateness);
    if |times| == 1 {
      assert Renew(times[0], expiry, data.period).None?;
    } else {
      var next := times[0] + data.period * SECOND;
      assert Renew(times[0], expiry, data.period) == Some(next);
      assert times[1..] == [times[1]];
      assert !AliveAtAll(times[1..], next, data.period);
    }
  }

  /**
   For each token and each moment of the renewal at start-up: the largest
   lateness that never finds the token expired is half the period, or what the
   looked-up time to live leaves after the first interval, if that is less.
   */
  lemma SlackIsExact(data: TokenMetadata, at: int, lateness: int)
    requires IsStarted(data, at)
    ensures KeepsTokenAlive(data, at, lateness) <==> lateness <= Slack(data, at)
  {
    if lateness <= Slack(data, at) {
      forall times: seq<int> | IsRun(data, at, times, lateness)
        ensures Survives(data, at, times)
      {
        var start := StartUp(Some(data), FirstRenewal(data, at));
        IntervalOfPeriod(data.period);
        SlackBounds(data, at);
        GapsAreSurvived(times, Origin(start, at), start.interval, lateness, ExpiryAtStart(data, start, at),
                        data.period);
      }
    } else {
      TooLate(data, at, lateness);
    }
  }

  /** No tick less than `lateness` late ever finds a token expired. */
  ghost predicate KeepsAlive(lateness: int) {
    forall data: TokenMetadata, at: int :: IsStarted(data, at) ==> KeepsTokenAlive(data, at, lateness)
  }

  /**
   For every period and time to live for which start-up succeeds, however late
   the renewal at start-up is served, and any run of renewals: being served less
   than half a second late is enough, and half a second is the largest such bound.
   */
  lemma HalfASecondIsExact(lateness: int)
    ensures KeepsAlive(lateness) <==> lateness <= HALF_SECOND
  {
    forall data: TokenMetadata, at: int | IsStarted(data, at)
      ensures KeepsTokenAlive(data, at, lateness) <==> lateness <= Slack(data, at)
      ensures Slack(data, at) >= HALF_SECOND
    {
      SlackIsExact(data, at, lateness);
      SlackBounds(data, at);
    }
    assert Slack(TokenMetadata(1, 1, true), 0) == HALF_SECOND;
  }

  /** Runs whose first renewal is late are runs too: here the ticker starts 24 seconds after the lookup. */
  lemma LateFirstRenewal()
    ensures var data := TokenMetadata(60, 25, true);
            && IsRun(data, 24 * SECOND, [54 * SECOND, 84 * SECOND], HALF_SECOND)
            && !IsRun(data, 24 * SECOND, [30 * SECOND], HALF_SECOND)
  {
    var data := TokenMetadata(60, 25, true);
    IntervalOfPeriod(60);
    WrapNothing(25 * SECOND);
    var start := StartUp(Some(data), FirstRenewal(data, 24 * SECOND));
    assert start == Started(30 * SECOND, true);
    var times := [30 * SECOND];
    assert times[0] < Origin(start, 24 * SECOND) + (0 + 1) * start.interval;
  }

  /** Renewal is off exactly for the periods whose nanoseconds wrap round to at most one. */
  lemma RenewalIsOff(data: TokenMetadata, renewal: Renewal)
    requires data.renewable
    ensures StartUp(Some(data), renewal) == NoInterval <==> Wrap64(data.period * SECOND) <= 1
    ensures 0 < data.period && data.period * SECOND < TWO_63 ==> StartUp(Some(data), renewal) != NoInterval
  {
    if 0 < data.period && data.period * SECOND < TWO_63 {
      WrapNothing(data.period * SECOND);
    }
  }

  /** The first period that overflows turns renewal off. */
  lemma OverflowTurnsRenewalOff()
    ensures 9_223_372_036 * SECOND < TWO_63 <= 9_223_372_037 * SECOND
    ensures StartUp(Some(TokenMetadata(9_223_372_037, 60, true)), Renewed) == NoInterval
  {
  }

  // ---------------------------------------------------------- the renewal loop

  /** What the loop's `select` receives; a tick comes with the renewal's outcome and the token file's content. */
  datatype Event = Cancel | Tick(renewal: Renewal, file: Option<string>)

  datatype Exit = Running | Cancelled | NotReplaced | NotRenewed

  function DefaultTokenExpiredCallback(expired: string, file: Option<string>): (string, bool) {
    match file
    case None => ("", false)
    case Some(reRead) => (reRead, reRead != expired)
  }

  method DoTokenRefreshPeriodically(token: string, hasCallback: bool, events: seq<Event>)
    returns (current: string, exit: Exit, tokens: seq<string>)
    ensures Follows(token, hasCallback, events, tokens, exit)
    ensures current == tokens[|tokens| - 1]
  {
    current, exit, tokens := token, Running, [token];
    for i := 0 to |events|
      invariant |tokens| == i + 1 && tokens[0] == token && current == tokens[i]
      invariant exit == Running
      invariant forall k :: 0 <= k < i ==> Stays(hasCallback, events[k], tokens[k], tokens[k + 1])
    {
      match events[i]
      case Cancel =>
        exit := Cancelled;
        return;
      case Tick(renewal, file) =>
        if renewal != Renewed {
          if renewal != Forbidden {
            exit := NotRenewed;
            return;
          }
          if !hasCallback {
            exit := NotReplaced;
            return;
          }
          var (replacementToken, retry) := DefaultTokenExpiredCallback(current, file);
          if !retry {
            exit := NotReplaced;
            return;
          }
          current := replacementToken;
        }
        tokens := tokens + [current];
    }
  }

  /** A step that goes on: the renewal succeeded, or the file held another token than the refused one. */
  predicate Stays(hasCallback: bool, e: Event, token: string, next: string) {
    match e
    case Cancel => false
    case Tick(renewal, file) =>
      if renewal == Renewed then next == token
      else renewal == Forbidden && hasCallback && file == Some(next) && next != token
  }

  /** Why the loop ends. */
  function Ends(hasCallback: bool, e: Event, token: string): Exit {
    match e
    case Cancel => Cancelled
    case Tick(renewal, file) =>
      if renewal == OtherFailure then NotRenewed
      else if renewal == Forbidden && (!hasCallback || file.None? || file == Some(token)) then NotReplaced
      else Running
  }

  /** `tokens[k]` is the token in use when event `k` arrives; after the last one the loop has ended, or waits. */
  predicate Follows(token: string, hasCallback: bool, events: seq<Event>, tokens: seq<string>, exit: Exit) {
    && 1 <= |tokens| <= |events| + 1
    && tokens[0] == token
    && (forall k :: 0 <= k < |tokens| - 1 ==> Stays(hasCallback, events[k], tokens[k], tokens[k + 1]))
    && (if |tokens| == |events| + 1 then exit == Running
        else exit == Ends(hasCallback, events[|tokens| - 1], tokens[|tokens| - 1]) && exit != Running)
  }

  /** The token in use after `events`: the file's at the last refused renewal, else the first one. */
  function InUse(token: string, events: seq<Event>): string {
    if events == [] then token
    else
      match events[|events| - 1]
      case Tick(Forbidden, Some(file)) => file
      case _ => InUse(token, events[..|events| - 1])
  }

  lemma {:induction false} TokenInUse(token: string, hasCallback: bool, events: seq<Event>, tokens: seq<string>,
                                      exit: Exit, k: nat)
    requires Follows(token, hasCallback, events, tokens, exit) && k < |tokens|
    ensures tokens[k] == InUse(token, events[..k])
  {
    if k > 0 {
      TokenInUse(token, hasCallback, events, tokens, exit, k - 1);
      assert Stays(hasCallback, events[k - 1], tokens[k - 1], tokens[k - 1 + 1]);
      assert events[..k][..k - 1] == events[..k - 1];
    }
  }

  /** No event before `n` is one to end at, given the token in use when it arrives. */
  ghost predicate GoesOn(token: string, hasCallback: bool, events: seq<Event>, n: nat)
    requires n <= |events|
  {
    forall k :: 0 <= k < n ==> Ends(hasCallback, events[k], InUse(token, events[..k])) == Running
  }

  /**
   Any run in terms of its events alone: each token is the file's at the last
   refused renewal, and the loop ends at the first event to end at, for that
   event's reason, or still runs if there is none.
   */
  lemma TokensOfARun(token: string, hasCallback: bool, events: seq<Event>, tokens: seq<string>, exit: Exit)
    requires Follows(token, hasCallback, events, tokens, exit)
    ensures forall k :: 0 <= k < |tokens| ==> tokens[k] == InUse(token, events[..k])
    ensures exit == Running <==> GoesOn(token, hasCallback, events, |events|)
    ensures exit != Running ==>
              var n := |tokens| - 1;
              n < |events| && GoesOn(token, hasCallback, events, n) &&
              exit == Ends(hasCallback, events[n], InUse(token, events[..n]))
  {
    forall k | 0 <= k < |tokens|
      ensures tokens[k] == InUse(token, events[..k])
    {
      TokenInUse(token, hasCallback, events, tokens, exit, k);
    }
    forall k | 0 <= k < |tokens| - 1
      ensures Ends(hasCallback, events[k], InUse(token, events[..k])) == Running
    {
      assert Stays(hasCallback, events[k], tokens[k], tokens[k + 1]);
      assert tokens[k] == InUse(token, events[..k]);
    }
    if exit != Running {
      assert tokens[|tokens| - 1] == InUse(token, events[..|tokens| - 1]);
    }
  }

  /** What keeps the loop going, what it then uses, and what ends it, event by event. */
  lemma WhyALoopEnds(token: string, hasCallback: bool, events: seq<Event>, tokens: seq<string>, exit: Exit)
    requires Follows(token, hasCallback, events, tokens, exit)
    ensures forall k :: 0 <= k < |tokens| - 1 ==>
              && events[k].Tick?
              && ((events[k].renewal == Renewed && tokens[k + 1] == tokens[k]) ||
                  (events[k].renewal == Forbidden && hasCallback && events[k].file == Some(tokens[k + 1]) &&
                   tokens[k + 1] != tokens[k]))
    ensures var n := |tokens| - 1;
            if n == |events| then exit == Running
            else match events[n]
                 case Cancel => exit == Cancelled
                 case Tick(Renewed, _) => false
                 case Tick(OtherFailure, _) => exit == NotRenewed
                 case Tick(Forbidden, file) =>
                   exit == NotReplaced && (!hasCallback || file == None || file == Some(tokens[n]))
  {
    forall k | 0 <= k < |tokens| - 1
      ensures && events[k].Tick?
              && ((events[k].renewal == Renewed && tokens[k + 1] == tokens[k]) ||
                  (events[k].renewal == Forbidden && hasCallback && events[k].file == Some(tokens[k + 1]) &&
                   tokens[k + 1] != tokens[k]))
    {
      assert Stays(hasCallback, events[k], tokens[k], tokens[k + 1]);
    }
  }

  /** The events determine the run. */
  lemma {:induction false} RunIsDetermined(token: string, hasCallback: bool, events: seq<Event>, tokens: seq<string>,
                                           exit: Exit, tokens': seq<string>, exit': Exit)
    requires Follows(token, hasCallback, events, tokens, exit)
    requires Follows(token, hasCallback, events, tokens', exit')
    ensures tokens == tokens' && exit == exit'
  {
    SamePrefix(token, hasCallback, events, tokens, exit, tokens', exit', |tokens|);
    SamePrefix(token, hasCallback, events, tokens', exit', tokens, exit, |tokens'|);
  }

  lemma {:induction false} SamePrefix(token: string, hasCallback: bool, events: seq<Event>, tokens: seq<string>,
                                      exit: Exit, tokens': seq<string>, exit': Exit, n: nat)
    requires Follows(token, hasCallback, events, tokens, exit)
    requires Follows(token, hasCallback, events, tokens', exit')
    requires 1 <= n <= |tokens|
    ensures n <= |tokens'| && tokens[..n] == tokens'[..n]
  {
    if n > 1 {
      SamePrefix(token, hasCallback, events, tokens, exit, tokens', exit', n - 1);
      assert tokens[n - 2] == tokens[..n - 1][n - 2] == tokens'[n - 2];
      assert Stays(hasCallback, events[n - 2], tokens[n - 2], tokens[n - 2 + 1]);
      assert Ends(hasCallback, events[n - 2], tokens[n - 2]) == Running;
      assert |tokens'| >= n;
      assert Stays(hasCallback, events[n - 2], tokens'[n - 2], tokens'[n - 2 + 1]);
    }
  }
}
