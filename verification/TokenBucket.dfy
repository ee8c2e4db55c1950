/**
 The token bucket of internal/platform/gateway/plugins/ratelimit.go: a Lua script over two Redis keys
 that expire, and the rule scan in front of it.  Tokens, rates and times are exact reals; Redis
 expires keys by the same clock that the gateway passes in as `now`.
 */
module TokenBucket {
  import opened Options

  const REQUESTED := 1.0

  /** The state of a bucket, and what its two keys hold: they are always written together and
      vanish at `deadline`. */
  datatype Memory = Empty | Saved(tokens: real, stamp: real)

  datatype Stored = Stored(memory: Memory, deadline: real)

  const NOTHING := Stored(Empty, 0.0)

  function Min(a: real, b: real): real {
    if a <= b then a else b
  }

  function Max(a: real, b: real): real {
    if a >= b then a else b
  }

  /** `math.floor(capacity / rate * 2)`, in seconds. */
  function Ttl(rate: real, capacity: real): int
    requires rate != 0.0
  {
    (2.0 * (capacity / rate)).Floor
  }

  /** What flows in between two clock readings; nothing when the clock steps back. */
  function Refill(rate: real, from: real, to: real): real {
    Max(0.0, to - from) * rate
  }

  function Refilled(rate: real, capacity: real, lastTokens: real, lastRefreshed: real, now: real): real {
    Min(capacity, lastTokens + Refill(rate, lastRefreshed, now))
  }

  /** A missing key reads as a full bucket that was refreshed at time zero. */
  function Filled(rate: real, capacity: real, m: Memory, now: real): real {
    match m
    case Empty => Refilled(rate, capacity, capacity, 0.0, now)
    case Saved(tokens, stamp) => Refilled(rate, capacity, tokens, stamp, now)
  }

  datatype Outcome<M> = Outcome(allowed: bool, state: M)

  /** A bucket that never forgets and never fails. */
  function IdealStep(rate: real, capacity: real, m: Memory, now: real): Outcome<Memory> {
    var filled := Filled(rate, capacity, m, now);
    var allowed := filled >= REQUESTED;
    Outcome(allowed, Saved(if allowed then filled - REQUESTED else filled, now))
  }

  function Recall(s: Stored, now: real): Memory {
    if s.memory.Saved? && now >= s.deadline then Empty else s.memory
  }

  /** SETEX refuses an expiry that is not a positive integer, and a failing script lets the request through. */
  predicate ScriptFails(rate: real, capacity: real) {
    rate == 0.0 || Ttl(rate, capacity) <= 0
  }

  /** What the gateway really does on one request. */
  function RealStep(rate: real, capacity: real, s: Stored, now: real): Outcome<Stored> {
    if ScriptFails(rate, capacity) then Outcome(true, s)
    else
      var out := IdealStep(rate, capacity, Recall(s, now), now);
      Outcome(out.allowed, Stored(out.state, now + Ttl(rate, capacity) as real))
  }

  function IdealAfter(rate: real, capacity: real, m: Memory, times: seq<real>): Memory {
    if times == [] then m
    else IdealStep(rate, capacity, IdealAfter(rate, capacity, m, times[..|times| - 1]), times[|times| - 1]).state
  }

  function RealAfter(rate: real, capacity: real, s: Stored, times: seq<real>): Stored {
    if times == [] then s
    else RealStep(rate, capacity, RealAfter(rate, capacity, s, times[..|times| - 1]), times[|times| - 1]).state
  }

  function IdealDecisions(rate: real, capacity: real, m: Memory, times: seq<real>): seq<bool> {
    if times == [] then [] else
    var before, now := times[..|times| - 1], times[|times| - 1];
    IdealDecisions(rate, capacity, m, before)
        + [IdealStep(rate, capacity, IdealAfter(rate, capacity, m, before), now).allowed]
  }

  function RealDecisions(rate: real, capacity: real, s: Stored, times: seq<real>): seq<bool> {
    if times == [] then [] else
    var before, now := times[..|times| - 1], times[|times| - 1];
    RealDecisions(rate, capacity, s, before)
        + [RealStep(rate, capacity, RealAfter(rate, capacity, s, before), now).allowed]
  }

  ghost predicate NonDecreasing(times: seq<real>) {
    forall i, j | 0 <= i < j < |times| :: times[i] <= times[j]
  }

  function Count(ds: seq<bool>): nat {
    if ds == [] then 0 else Count(ds[..|ds| - 1]) + if ds[|ds| - 1] then 1 else 0
  }

  /*------------------------------------ the stored tokens ------------------------------------*/

  ghost predicate Within(capacity: real, m: Memory) {
    m.Saved? ==> 0.0 <= m.tokens <= capacity
  }

  lemma MulNonNegative(a: real, b: real)
    requires a >= 0.0 && b >= 0.0
    ensures a * b >= 0.0
  {
  }

  lemma FilledWithin(rate: real, capacity: real, m: Memory, now: real)
    requires rate >= 0.0 && capacity >= 0.0 && Within(capacity, m)
    ensures 0.0 <= Filled(rate, capacity, m, now) <= capacity
    ensures m.Empty? ==> Filled(rate, capacity, m, now) == capacity
  {
    MulNonNegative(Max(0.0, now - match m case Empty => 0.0 case Saved(_, stamp) => stamp), rate);
  }

  /** Stored tokens stay within the capacity, whatever the clock does. */
  lemma {:induction false} TokensStayWithin(rate: real, capacity: real, m: Memory, times: seq<real>)
    requires rate >= 0.0 && capacity >= 0.0 && Within(capacity, m)
    ensures Within(capacity, IdealAfter(rate, capacity, m, times))
  {
    if times == [] {
    } else {
      TokensStayWithin(rate, capacity, m, times[..|times| - 1]);
      FilledWithin(rate, capacity, IdealAfter(rate, capacity, m, times[..|times| - 1]), times[|times| - 1]);
    }
  }

  /*------------------------------------ admission bound ------------------------------------*/

  /** The sum of the positive increments of the clock readings. */
  function Rises(times: seq<real>): real {
    if |times| <= 1 then 0.0
    else Rises(times[..|times| - 1]) + Max(0.0, times[|times| - 1] - times[|times| - 2])
  }

  lemma AddRise(rate: real, x: real, y: real)
    ensures (x + y) * rate == x * rate + y * rate
  {
  }

  lemma RefillBound(rate: real, capacity: real, m: Memory, now: real)
    requires m.Saved?
    ensures Filled(rate, capacity, m, now) <= m.tokens + Refill(rate, m.stamp, now)
  {
  }

  lemma OneMoreDecision(rate: real, capacity: real, m: Memory, times: seq<real>)
    requires times != []
    ensures var before := times[..|times| - 1];
            var out := IdealStep(rate, capacity, IdealAfter(rate, capacity, m, before), times[|times| - 1]);
            && IdealAfter(rate, capacity, m, times) == out.state
            && Count(IdealDecisions(rate, capacity, m, times))
               == Count(IdealDecisions(rate, capacity, m, before)) + if out.allowed then 1 else 0
  {
    var ds := IdealDecisions(rate, capacity, m, times);
    assert ds[..|ds| - 1] == IdealDecisions(rate, capacity, m, times[..|times| - 1]);
  }

  /** One request: the tokens spent and left are those that were there plus the refill. */
  lemma StepBound(rate: real, capacity: real, m: Memory, now: real)
    requires rate >= 0.0 && capacity >= 0.0 && Within(capacity, m)
    ensures var out := IdealStep(rate, capacity, m, now);
            var spent := if out.allowed then 1.0 else 0.0;
            && out.state.tokens >= 0.0 && out.state.stamp == now
            && spent + out.state.tokens == Filled(rate, capacity, m, now)
  {
    FilledWithin(rate, capacity, m, now);
  }

  /** Capacity plus every refill since the first request. */
  function Allowance(rate: real, capacity: real, times: seq<real>): real {
    if |times| <= 1 then capacity
    else Allowance(rate, capacity, times[..|times| - 1]) + Refill(rate, times[|times| - 2], times[|times| - 1])
  }

  lemma {:induction false} AllowanceIsLinear(rate: real, capacity: real, times: seq<real>)
    ensures Allowance(rate, capacity, times) == capacity + Rises(times) * rate
  {
    if |times| > 1 {
      var before := times[..|times| - 1];
      AllowanceIsLinear(rate, capacity, before);
      AddRise(rate, Rises(before), Max(0.0, times[|times| - 1] - times[|times| - 2]));
    }
  }

  /** The requests allowed so far and the tokens left after `times`. */
  ghost function SpentAndLeft(rate: real, capacity: real, m: Memory, times: seq<real>): real
    requires times != []
  {
    Count(IdealDecisions(rate, capacity, m, times)) as real + IdealAfter(rate, capacity, m, times).tokens
  }

  lemma FirstRequest(rate: real, capacity: real, m: Memory, now: real)
    requires rate >= 0.0 && capacity >= 0.0 && Within(capacity, m)
    ensures SpentAndLeft(rate, capacity, m, [now]) <= capacity
  {
    assert [now][..0] == [];
    OneMoreDecision(rate, capacity, m, [now]);
    StepBound(rate, capacity, m, now);
    FilledWithin(rate, capacity, m, now);
  }

  lemma NextRequest(rate: real, capacity: real, m: Memory, times: seq<real>)
    requires rate >= 0.0 && capacity >= 0.0 && Within(capacity, m) && |times| > 1
    ensures SpentAndLeft(rate, capacity, m, times)
         <= SpentAndLeft(rate, capacity, m, times[..|times| - 1]) + Refill(rate, times[|times| - 2], times[|times| - 1])
  {
    var before, now := times[..|times| - 1], times[|times| - 1];
    var last := IdealAfter(rate, capacity, m, before);
    assert last.stamp == times[|times| - 2];
    TokensStayWithin(rate, capacity, m, before);
    OneMoreDecision(rate, capacity, m, times);
    StepBound(rate, capacity, last, now);
    RefillBound(rate, capacity, last, now);
  }

  /** Over any stretch of requests, starting from any stored state and under any clock, the number
      allowed plus the tokens left is at most the capacity plus what the clock's rises refill. */
  lemma {:induction false} AdmissionStretch(rate: real, capacity: real, m: Memory, times: seq<real>)
    requires rate >= 0.0 && capacity >= 0.0 && Within(capacity, m) && times != []
    ensures SpentAndLeft(rate, capacity, m, times) <= Allowance(rate, capacity, times)
  {
    if |times| == 1 {
      FirstRequest(rate, capacity, m, times[0]);
      assert times == [times[0]];
    } else {
      AdmissionStretch(rate, capacity, m, times[..|times| - 1]);
      NextRequest(rate, capacity, m, times);
    }
  }

  lemma AdmissionBound(rate: real, capacity: real, m: Memory, times: seq<real>)
    requires rate >= 0.0 && capacity >= 0.0 && Within(capacity, m)
    ensures Count(IdealDecisions(rate, capacity, m, times)) as real <= capacity + Rises(times) * rate
  {
    AllowanceIsLinear(rate, capacity, times);
    if times != [] {
      AdmissionStretch(rate, capacity, m, times);
      TokensStayWithin(rate, capacity, m, times);
    }
  }

  lemma {:induction false} RisesOfSteadyClock(times: seq<real>)
    requires NonDecreasing(times) && times != []
    ensures Rises(times) == times[|times| - 1] - times[0]
  {
    if |times| > 1 {
      RisesOfSteadyClock(times[..|times| - 1]);
    }
  }

  /*------------------------------ what is admitted, exactly ------------------------------*/

  /** What is left of the capacity at the end of the stretch that begins with request `j`: everything that
      flowed in since then, less the requests of the stretch that were let through before the last. */
  function Budget(rate: real, capacity: real, times: seq<real>, earlier: seq<bool>, j: nat): real
    requires j < |times| == |earlier| + 1
  {
    capacity + Rises(times[j..]) * rate - Count(earlier[j..]) as real
  }

  /** No stretch is overdrawn by a request that finds the bucket filled to `filled`, and one stretch has
      nothing more to give. */
  ghost predicate Tightest(rate: real, capacity: real, times: seq<real>, earlier: seq<bool>, filled: real)
    requires |times| == |earlier| + 1
  {
    && (forall j: nat | j < |times| :: filled <= Budget(rate, capacity, times, earlier, j))
    && (exists j: nat :: j < |times| && filled == Budget(rate, capacity, times, earlier, j))
  }

  lemma BudgetNow(rate: real, capacity: real, times: seq<real>, earlier: seq<bool>)
    requires |times| == |earlier| + 1
    ensures Budget(rate, capacity, times, earlier, |earlier|) == capacity
  {
    assert |times[|earlier|..]| == 1 && earlier[|earlier|..] == [];
  }

  /** One more request: every older stretch gets the refill and pays for the request before. */
  lemma BudgetGrows(rate: real, capacity: real, times: seq<real>, earlier: seq<bool>, j: nat)
    requires |times| == |earlier| + 1 && j < |earlier|
    ensures var n := |earlier|;
            Budget(rate, capacity, times, earlier, j)
            == Budget(rate, capacity, times[..n], earlier[..n - 1], j) + Refill(rate, times[n - 1], times[n])
               - if earlier[n - 1] then 1.0 else 0.0
  {
    var n := |earlier|;
    assert times[j..][..n - j] == times[..n][j..];
    assert earlier[j..][..n - 1 - j] == earlier[..n - 1][j..];
    AddRise(rate, Rises(times[..n][j..]), Max(0.0, times[n] - times[n - 1]));
  }

  lemma TightestGoesOn(rate: real, capacity: real, times: seq<real>, earlier: seq<bool>, filled: real)
    requires |times| == |earlier| + 1 && earlier != []
    requires Tightest(rate, capacity, times[..|earlier|], earlier[..|earlier| - 1], filled)
    ensures var n := |earlier|;
            var left := filled - if earlier[n - 1] then 1.0 else 0.0;
            Tightest(rate, capacity, times, earlier, Min(capacity, left + Refill(rate, times[n - 1], times[n])))
  {
    hide Budget, Refill;
    var n := |earlier|;
    var before, less := times[..n], earlier[..n - 1];
    var now := Min(capacity, filled - (if earlier[n - 1] then 1.0 else 0.0) + Refill(rate, times[n - 1], times[n]));
    BudgetNow(rate, capacity, times, earlier);
    forall j: nat | j < n
      ensures Budget(rate, capacity, times, earlier, j)
           == Budget(rate, capacity, before, less, j) + Refill(rate, times[n - 1], times[n])
              - if earlier[n - 1] then 1.0 else 0.0
    {
      BudgetGrows(rate, capacity, times, earlier, j);
    }
    if now != capacity {
      var j: nat :| j < n && filled == Budget(rate, capacity, before, less, j);
      assert now == Budget(rate, capacity, times, earlier, j);
    }
  }

  /** The bucket is filled, at each request, to exactly what the tightest stretch has left. */
  lemma {:induction false} FilledIsTightest(rate: real, capacity: real, times: seq<real>)
    requires rate >= 0.0 && capacity >= 0.0 && times != []
    ensures var before := times[..|times| - 1];
            && |IdealDecisions(rate, capacity, Empty, before)| == |before|
            && Tightest(rate, capacity, times, IdealDecisions(rate, capacity, Empty, before),
                        Filled(rate, capacity, IdealAfter(rate, capacity, Empty, before), times[|times| - 1]))
  {
    var before := times[..|times| - 1];
    DecisionCount(rate, capacity, Empty, before);
    var earlier := IdealDecisions(rate, capacity, Empty, before);
    if before == [] {
      FilledWithin(rate, capacity, Empty, times[0]);
      BudgetNow(rate, capacity, times, earlier);
    } else {
      var n := |before|;
      FilledIsTightest(rate, capacity, before);
      var earliest := IdealAfter(rate, capacity, Empty, before[..n - 1]);
      var filled := Filled(rate, capacity, earliest, before[n - 1]);
      assert earlier[..n - 1] == IdealDecisions(rate, capacity, Empty, before[..n - 1]);
      TokensStayWithin(rate, capacity, Empty, before[..n - 1]);
      StepBound(rate, capacity, earliest, before[n - 1]);
      TightestGoesOn(rate, capacity, times, earlier, filled);
    }
  }

  /** A request is let through if and only if it overdraws no stretch: for every earlier request, those let
      through since then, this one included, are at most the capacity plus what has flowed in. */
  ghost predicate Affordable(rate: real, capacity: real, times: seq<real>, earlier: seq<bool>)
    requires |times| == |earlier| + 1
  {
    forall j: nat | j < |times| ::
      Count(earlier[j..]) as real + 1.0 <= capacity + (times[|times| - 1] - times[j]) * rate
  }

  lemma SteadyBudget(rate: real, capacity: real, times: seq<real>, earlier: seq<bool>, j: nat)
    requires |times| == |earlier| + 1 && j < |times| && NonDecreasing(times)
    ensures Budget(rate, capacity, times, earlier, j)
         == capacity + (times[|times| - 1] - times[j]) * rate - Count(earlier[j..]) as real
  {
    RisesOfSteadyClock(times[j..]);
  }

  lemma TightestDecides(rate: real, capacity: real, times: seq<real>, earlier: seq<bool>, filled: real)
    requires |times| == |earlier| + 1 && NonDecreasing(times) && Tightest(rate, capacity, times, earlier, filled)
    ensures filled >= 1.0 <==> Affordable(rate, capacity, times, earlier)
  {
    hide Budget, NonDecreasing;
    forall j: nat | j < |times|
      ensures Budget(rate, capacity, times, earlier, j)
           == capacity + (times[|times| - 1] - times[j]) * rate - Count(earlier[j..]) as real
    {
      SteadyBudget(rate, capacity, times, earlier, j);
    }
  }

  /** The bucket under a steady clock, from empty keys, lets a request through if and only if that is affordable. */
  lemma AllowedIffAffordable(rate: real, capacity: real, times: seq<real>)
    requires rate >= 0.0 && capacity >= 0.0 && NonDecreasing(times) && times != []
    ensures |IdealDecisions(rate, capacity, Empty, times)| == |times|
    ensures var before := times[..|times| - 1];
            && |IdealDecisions(rate, capacity, Empty, before)| == |before|
            && (IdealDecisions(rate, capacity, Empty, times)[|before|]
                <==> Affordable(rate, capacity, times, IdealDecisions(rate, capacity, Empty, before)))
  {
    var before := times[..|times| - 1];
    DecisionCount(rate, capacity, Empty, times);
    FilledIsTightest(rate, capacity, times);
    TightestDecides(rate, capacity, times, IdealDecisions(rate, capacity, Empty, before),
                    Filled(rate, capacity, IdealAfter(rate, capacity, Empty, before), times[|times| - 1]));
  }

  /** While no refill is cut off at the capacity ... */
  predicate Uncapped(rate: real, capacity: real, m: Memory, times: seq<real>) {
    times == [] ||
    var last := IdealAfter(rate, capacity, m, times[..|times| - 1]);
    && Uncapped(rate, capacity, m, times[..|times| - 1])
    && last.Saved? && last.tokens + Refill(rate, last.stamp, times[|times| - 1]) <= capacity
  }

  lemma UncappedStep(rate: real, capacity: real, m: Memory, times: seq<real>)
    requires Uncapped(rate, capacity, m, times) && times != []
    ensures var last, now := IdealAfter(rate, capacity, m, times[..|times| - 1]), times[|times| - 1];
            && SpentAndLeft(rate, capacity, m, times)
               == Count(IdealDecisions(rate, capacity, m, times[..|times| - 1])) as real
                  + last.tokens + Refill(rate, last.stamp, now)
  {
    hide Refill, Count;
    OneMoreDecision(rate, capacity, m, times);
  }

  lemma LastStamp(rate: real, capacity: real, tokens: real, stamp: real, times: seq<real>)
    ensures var last := IdealAfter(rate, capacity, Saved(tokens, stamp), times);
            last.Saved? && last.stamp == ([stamp] + times)[|times|]
  {
  }

  lemma {:induction false} UncappedKeepsAll(rate: real, capacity: real, tokens: real, stamp: real, times: seq<real>)
    requires Uncapped(rate, capacity, Saved(tokens, stamp), times) && times != []
    ensures SpentAndLeft(rate, capacity, Saved(tokens, stamp), times) == Allowance(rate, tokens, [stamp] + times)
  {
    var m, before, all := Saved(tokens, stamp), times[..|times| - 1], [stamp] + times;
    UncappedStep(rate, capacity, m, times);
    LastStamp(rate, capacity, tokens, stamp, before);
    assert all[..|times|] == [stamp] + before;
    hide Refill, IdealStep;
    if before == [] {
      assert Allowance(rate, tokens, [stamp]) == tokens;
    } else {
      UncappedKeepsAll(rate, capacity, tokens, stamp, before);
    }
  }

  /** ... no token is lost: those spent and left are those of the start and all that has flowed in. */
  lemma UncappedConserves(rate: real, capacity: real, tokens: real, stamp: real, times: seq<real>)
    requires Uncapped(rate, capacity, Saved(tokens, stamp), times) && times != []
    ensures SpentAndLeft(rate, capacity, Saved(tokens, stamp), times) == tokens + Rises([stamp] + times) * rate
  {
    hide Uncapped, SpentAndLeft, Allowance, Rises;
    UncappedKeepsAll(rate, capacity, tokens, stamp, times);
    AllowanceIsLinear(rate, tokens, [stamp] + times);
  }

  /*------------------------------------ forgetting ------------------------------------*/

  lemma TtlCoversFill(rate: real, capacity: real)
    requires rate > 0.0 && Ttl(rate, capacity) >= 1
    ensures Ttl(rate, capacity) as real >= capacity / rate
  {
  }

  lemma RefillsFully(rate: real, capacity: real, delta: real)
    requires rate > 0.0 && delta >= capacity / rate
    ensures delta * rate >= capacity
  {
    var x := capacity / rate;
    assert x * rate == capacity;
    MulNonNegative(delta - x, rate);
    assert (delta - x) * rate == delta * rate - x * rate;
  }

  /** By the time the keys vanish, the bucket would be full again. */
  lemma FullWhenForgotten(rate: real, capacity: real, s: Stored, now: real)
    requires rate > 0.0 && capacity >= 0.0 && Ttl(rate, capacity) >= 1 && s.memory.Saved? && Within(capacity, s.memory)
    requires s.deadline == s.memory.stamp + Ttl(rate, capacity) as real && now >= s.deadline
    ensures Filled(rate, capacity, s.memory, now) == capacity
  {
    TtlCoversFill(rate, capacity);
    RefillsFully(rate, capacity, now - s.memory.stamp);
  }

  ghost predicate StoredOk(rate: real, capacity: real, s: Stored)
    requires rate != 0.0
  {
    && Within(capacity, s.memory)
    && (s.memory.Saved? ==> s.deadline == s.memory.stamp + Ttl(rate, capacity) as real)
  }

  /** With a time to live of at least a second, the bucket whose keys vanish decides like one that
      never forgets, on every request sequence of one steady clock. */
  lemma {:induction false} ForgettingIsInvisible(rate: real, capacity: real, times: seq<real>)
    requires rate > 0.0 && capacity >= 0.0 && Ttl(rate, capacity) >= 1 && NonDecreasing(times)
    ensures RealDecisions(rate, capacity, NOTHING, times) == IdealDecisions(rate, capacity, Empty, times)
    ensures RealAfter(rate, capacity, NOTHING, times).memory == IdealAfter(rate, capacity, Empty, times)
    ensures StoredOk(rate, capacity, RealAfter(rate, capacity, NOTHING, times))
  {
    if times == [] {
    } else {
      var before, now := times[..|times| - 1], times[|times| - 1];
      ForgettingIsInvisible(rate, capacity, before);
      var s := RealAfter(rate, capacity, NOTHING, before);
      FilledWithin(rate, capacity, s.memory, now);
      if s.memory.Saved? && now >= s.deadline {
        FullWhenForgotten(rate, capacity, s, now);
        FilledWithin(rate, capacity, Empty, now);
      }
    }
  }

  ghost predicate AllTrue(ds: seq<bool>) {
    forall i | 0 <= i < |ds| :: ds[i]
  }

  lemma {:induction false} FailingScriptAllowsAll(rate: real, capacity: real, m: Stored, times: seq<real>)
    requires ScriptFails(rate, capacity)
    ensures |RealDecisions(rate, capacity, m, times)| == |times|
    ensures AllTrue(RealDecisions(rate, capacity, m, times))
  {
    if times == [] {
    } else {
      FailingScriptAllowsAll(rate, capacity, m, times[..|times| - 1]);
    }
  }

  lemma {:induction false} CountAll(ds: seq<bool>)
    requires AllTrue(ds)
    ensures Count(ds) == |ds|
  {
    if ds == [] {
    } else {
      CountAll(ds[..|ds| - 1]);
    }
  }

  lemma {:induction false} StandingClockNeverRises(n: nat, now: real)
    ensures Rises(seq(n, _ => now)) == 0.0
  {
    if n > 1 {
      assert seq(n, _ => now)[..n - 1] == seq(n - 1, _ => now);
      StandingClockNeverRises(n - 1, now);
    }
  }

  /** A burst that no bucket of this capacity may let through whole. */
  function Burst(capacity: real): seq<real>
    requires capacity >= 0.0
  {
    seq(capacity.Floor + 1, _ => 0.0)
  }

  lemma IdealRefusesBurst(rate: real, capacity: real)
    requires rate >= 0.0 && capacity >= 0.0
    ensures !AllTrue(IdealDecisions(rate, capacity, Empty, Burst(capacity)))
  {
    var ds := IdealDecisions(rate, capacity, Empty, Burst(capacity));
    if AllTrue(ds) {
      CountAll(ds);
      DecisionCount(rate, capacity, Empty, Burst(capacity));
      AdmissionBound(rate, capacity, Empty, Burst(capacity));
      StandingClockNeverRises(capacity.Floor + 1, 0.0);
    }
  }

  lemma {:induction false} DecisionCount(rate: real, capacity: real, m: Memory, times: seq<real>)
    ensures |IdealDecisions(rate, capacity, m, times)| == |times|
  {
    if times == [] {
    } else {
      DecisionCount(rate, capacity, m, times[..|times| - 1]);
    }
  }

  lemma TtlPositive(rate: real, capacity: real)
    requires rate > 0.0
    ensures Ttl(rate, capacity) >= 1 <==> 2.0 * capacity >= rate
  {
    var x := capacity / rate;
    assert x * rate == capacity;
    if 2.0 * x >= 1.0 {
      MulNonNegative(2.0 * x - 1.0, rate);
    } else {
      assert (1.0 - 2.0 * x) * rate > 0.0;
    }
  }

  /** The gateway limits like the bucket that never forgets, on every request sequence, exactly when
      2 * capacity >= rate.  Below that the time to live rounds down to zero, SETEX fails each time,
      and the gateway lets everything through. */
  lemma LimitsIffTtlPositive(rate: real, capacity: real)
    requires rate > 0.0 && capacity >= 0.0
    ensures (forall times | NonDecreasing(times) ::
               RealDecisions(rate, capacity, NOTHING, times) == IdealDecisions(rate, capacity, Empty, times))
            <==> 2.0 * capacity >= rate
  {
    TtlPositive(rate, capacity);
    if 2.0 * capacity >= rate {
      forall times | NonDecreasing(times)
        ensures RealDecisions(rate, capacity, NOTHING, times) == IdealDecisions(rate, capacity, Empty, times)
      {
        ForgettingIsInvisible(rate, capacity, times);
      }
    } else {
      var times := Burst(capacity);
      FailingScriptAllowsAll(rate, capacity, NOTHING, times);
      IdealRefusesBurst(rate, capacity);
      assert NonDecreasing(times);
    }
  }

  lemma SteadyAllowance(rate: real, capacity: real, times: seq<real>)
    requires NonDecreasing(times) && times != []
    ensures Allowance(rate, capacity, times) == capacity + Refill(rate, times[0], times[|times| - 1])
  {
    RisesOfSteadyClock(times);
    AllowanceIsLinear(rate, capacity, times);
    assert Rises(times) == Max(0.0, times[|times| - 1] - times[0]);
  }

  /** The bound for the bucket that really runs: the capacity plus what flows in between the first
      and the last request. */
  lemma RealAdmissionBound(rate: real, capacity: real, times: seq<real>)
    requires rate > 0.0 && capacity >= 0.0 && 2.0 * capacity >= rate && NonDecreasing(times) && times != []
    ensures Count(RealDecisions(rate, capacity, NOTHING, times)) as real
         <= capacity + Refill(rate, times[0], times[|times| - 1])
  {
    TtlPositive(rate, capacity);
    ForgettingIsInvisible(rate, capacity, times);
    SteadyAllowance(rate, capacity, times);
    AdmissionStretch(rate, capacity, Empty, times);
    TokensStayWithin(rate, capacity, Empty, times);
  }

  /** The bucket that really runs: a request is let through if and only if it is affordable, or the script fails. */
  lemma RealAllowedIff(rate: real, capacity: real, times: seq<real>)
    requires rate > 0.0 && capacity >= 0.0 && NonDecreasing(times) && times != []
    ensures var before := times[..|times| - 1];
            && |RealDecisions(rate, capacity, NOTHING, before)| == |before|
            && (RealStep(rate, capacity, RealAfter(rate, capacity, NOTHING, before), times[|times| - 1]).allowed
                <==> 2.0 * capacity < rate
                     || Affordable(rate, capacity, times, RealDecisions(rate, capacity, NOTHING, before)))
  {
    hide Affordable;
    var before := times[..|times| - 1];
    TtlPositive(rate, capacity);
    if 2.0 * capacity >= rate {
      ForgettingIsInvisible(rate, capacity, times);
      ForgettingIsInvisible(rate, capacity, before);
      AllowedIffAffordable(rate, capacity, times);
      assert RealDecisions(rate, capacity, NOTHING, times)[|before|]
          == RealStep(rate, capacity, RealAfter(rate, capacity, NOTHING, before), times[|times| - 1]).allowed;
    } else {
      FailingScriptAllowsAll(rate, capacity, NOTHING, before);
    }
  }

  lemma ChargedAfter(rate: real, capacity: real, times: seq<real>, now: real)
    ensures RealAfter(rate, capacity, NOTHING, times + [now])
         == RealStep(rate, capacity, RealAfter(rate, capacity, NOTHING, times), now).state
    ensures rate > 0.0 && capacity >= 0.0 && NonDecreasing(times + [now]) ==>
              && |RealDecisions(rate, capacity, NOTHING, times)| == |times|
              && (RealStep(rate, capacity, RealAfter(rate, capacity, NOTHING, times), now).allowed
                  <==> 2.0 * capacity < rate
                       || Affordable(rate, capacity, times + [now], RealDecisions(rate, capacity, NOTHING, times)))
  {
    assert (times + [now])[..|times|] == times;
    if rate > 0.0 && capacity >= 0.0 && NonDecreasing(times + [now]) {
      RealAllowedIff(rate, capacity, times + [now]);
    }
  }

  ghost predicate Spaced(rate: real, times: seq<real>)
    requires rate > 0.0
  {
    forall i | 0 <= i < |times| - 1 :: times[i + 1] - times[i] >= 1.0 / rate
  }

  lemma GapRefills(rate: real, gap: real)
    requires rate > 0.0 && gap >= 1.0 / rate
    ensures gap > 0.0 && gap * rate >= 1.0
  {
    RefillsFully(rate, 1.0, gap);
  }

  lemma {:induction false} SpacedOut(rate: real, times: seq<real>, j: nat)
    requires rate > 0.0 && Spaced(rate, times) && j < |times|
    ensures (times[|times| - 1] - times[j]) * rate >= (|times| - 1 - j) as real
    decreases |times| - j
  {
    if j < |times| - 1 {
      SpacedOut(rate, times, j + 1);
      GapRefills(rate, times[j + 1] - times[j]);
      AddRise(rate, times[|times| - 1] - times[j + 1], times[j + 1] - times[j]);
    }
  }

  lemma {:induction false} CountAtMost(ds: seq<bool>)
    ensures Count(ds) <= |ds|
  {
    if ds == [] {
    } else {
      CountAtMost(ds[..|ds| - 1]);
    }
  }

  lemma {:induction false} SpacedIsSteady(rate: real, times: seq<real>)
    requires rate > 0.0 && Spaced(rate, times)
    ensures NonDecreasing(times)
  {
    if |times| <= 1 {
    } else {
      var n := |times| - 1;
      SpacedIsSteady(rate, times[..n]);
      assert times[n - 1 + 1] - times[n - 1] >= 1.0 / rate;
      GapRefills(rate, times[n] - times[n - 1]);
    }
  }

  /** A client that waits at least 1/rate between its requests is never refused, if the bucket holds a token at all. */
  lemma {:induction false} SpacedNeverRefused(rate: real, capacity: real, times: seq<real>)
    requires rate > 0.0 && capacity >= 1.0 && Spaced(rate, times)
    ensures |RealDecisions(rate, capacity, NOTHING, times)| == |times|
    ensures forall i | 0 <= i < |times| :: RealDecisions(rate, capacity, NOTHING, times)[i]
  {
    if times == [] {
    } else {
      var before := times[..|times| - 1];
      SpacedNeverRefused(rate, capacity, before);
      SpacedIsSteady(rate, times);
      RealAllowedIff(rate, capacity, times);
      var earlier := RealDecisions(rate, capacity, NOTHING, before);
      forall j: nat | j < |times|
        ensures Count(earlier[j..]) as real + 1.0 <= capacity + (times[|times| - 1] - times[j]) * rate
      {
        CountAtMost(earlier[j..]);
        SpacedOut(rate, times, j);
      }
    }
  }

  /*------------------------------------ the plugin ------------------------------------*/

  datatype Key = Tokens(name: string) | Stamp(name: string)

  datatype Value = Value(number: real, deadline: real)

  datatype Reply = ScriptError | Number(n: int)

  datatype Rule = Rule(pattern: string, compiled: bool, rate: real, burst: int)

  /** The bucket that a request is charged to. */
  datatype Charge = Charge(name: string, rate: real, burst: int)

  class Redis {
    var keys: map<Key, Value>

    /** The two keys of a bucket come and go together. */
    ghost predicate Valid()
      reads this
    {
      forall name :: (Tokens(name) in keys <==> Stamp(name) in keys)
                     && (Tokens(name) in keys ==> keys[Tokens(name)].deadline == keys[Stamp(name)].deadline)
    }

    ghost function StoredOf(name: string): Stored
      reads this
      requires Valid()
    {
      if Tokens(name) in keys
      then Stored(Saved(keys[Tokens(name)].number, keys[Stamp(name)].number), keys[Stamp(name)].deadline)
      else NOTHING
    }

    constructor ()
      ensures Valid() && keys == map[]
    {
      keys := map[];
    }

    method Get(k: Key, now: real) returns (r: Option<real>)
      ensures r == if k in keys && now < keys[k].deadline then Some(keys[k].number) else None
    {
      r := if k in keys && now < keys[k].deadline then Some(keys[k].number) else None;
    }

    /** The reading half of the script: GET both keys, refill, decide. */
    method Decide(name: string, rate: real, capacity: real, now: real) returns (newTokens: real, result: int)
      requires Valid()
      ensures var filled := Filled(rate, capacity, Recall(StoredOf(name), now), now);
              if filled >= REQUESTED then newTokens == filled - REQUESTED && result == 1
              else newTokens == filled && result == 0
    {
      var got := Get(Tokens(name), now);
      var lastTokens := if got.None? then capacity else got.value;
      got := Get(Stamp(name), now);
      var lastRefreshed := if got.None? then 0.0 else got.value;
      var filled := Refilled(rate, capacity, lastTokens, lastRefreshed, now);
      newTokens, result := filled, 0;
      if filled >= REQUESTED {
        newTokens, result := filled - REQUESTED, 1;
      }
    }

    /** The two SETEX commands at the end of the script. */
    method SetBoth(name: string, tokens: real, now: real, ttl: int)
      requires Valid()
      modifies this
      ensures Valid() && StoredOf(name) == Stored(Saved(tokens, now), now + ttl as real)
      ensures forall other | other != name :: StoredOf(other) == old(StoredOf(other))
    {
      keys := keys[Tokens(name) := Value(tokens, now + ttl as real)];
      keys := keys[Stamp(name) := Value(now, now + ttl as real)];
    }

    /** The script for a request of one token at time `now`. */
    method RunScript(name: string, rate: real, capacity: real, now: real) returns (reply: Reply)
      requires Valid()
      modifies this
      ensures Valid()
      ensures StoredOf(name) == RealStep(rate, capacity, old(StoredOf(name)), now).state
      ensures reply == if ScriptFails(rate, capacity) then ScriptError
                       else Number(if RealStep(rate, capacity, old(StoredOf(name)), now).allowed then 1 else 0)
      ensures forall other | other != name :: StoredOf(other) == old(StoredOf(other))
    {
      if rate == 0.0 {
        return ScriptError;
      }
      var ttl := (2.0 * (capacity / rate)).Floor;
      var newTokens, result := Decide(name, rate, capacity, now);
      if ttl <= 0 {
        return ScriptError;
      }
      SetBoth(name, newTokens, now, ttl);
      reply := Number(result);
    }
  }

  /** The first rule that compiled and matches decides. */
  ghost predicate FirstMatch(rules: seq<Rule>, matches: string -> bool, k: nat) {
    && k < |rules| && rules[k].compiled && matches(rules[k].pattern)
    && forall j | 0 <= j < k :: !(rules[j].compiled && matches(rules[j].pattern))
  }

  ghost predicate NoMatch(rules: seq<Rule>, matches: string -> bool) {
    forall j | 0 <= j < |rules| :: !(rules[j].compiled && matches(rules[j].pattern))
  }

  class RateLimitPlugin {
    const redis: Redis?
    const uaLimits: seq<Rule>
    const ipLimits: seq<Rule>
    const defaultRate: real
    const defaultBurst: int

    constructor (redis: Redis?, uaLimits: seq<Rule>, ipLimits: seq<Rule>, defaultRate: real, defaultBurst: int)
      ensures this.redis == redis && this.uaLimits == uaLimits && this.ipLimits == ipLimits
      ensures this.defaultRate == defaultRate && this.defaultBurst == defaultBurst
    {
      this.redis := redis;
      this.uaLimits := uaLimits;
      this.ipLimits := ipLimits;
      this.defaultRate := defaultRate;
      this.defaultBurst := defaultBurst;
    }

    /** User-agent rules come before address rules, which need a parsable address, and those before
        the default, which needs a positive rate. */
    ghost predicate ChargedTo(uaMatches: string -> bool, ipMatches: string -> bool, hasIp: bool, c: Option<Charge>) {
      if !NoMatch(uaLimits, uaMatches) then
        exists k: nat :: FirstMatch(uaLimits, uaMatches, k)
                         && c == Some(Charge("ua:" + uaLimits[k].pattern, uaLimits[k].rate, uaLimits[k].burst))
      else if hasIp && !NoMatch(ipLimits, ipMatches) then
        exists k: nat :: FirstMatch(ipLimits, ipMatches, k)
                         && c == Some(Charge("ip:" + ipLimits[k].pattern, ipLimits[k].rate, ipLimits[k].burst))
      else if defaultRate > 0.0 then c == Some(Charge("default", defaultRate, defaultBurst))
      else c == None
    }

    method ChooseRule(uaMatches: string -> bool, ipMatches: string -> bool, hasIp: bool) returns (c: Option<Charge>)
      ensures ChargedTo(uaMatches, ipMatches, hasIp, c)
      ensures forall k | 0 <= k < |uaLimits| && uaLimits[k].compiled && uaMatches(uaLimits[k].pattern) ::
                (forall j | 0 <= j < k :: !(uaLimits[j].compiled && uaMatches(uaLimits[j].pattern))) ==>
                  c == Some(Charge("ua:" + uaLimits[k].pattern, uaLimits[k].rate, uaLimits[k].burst))
      ensures hasIp && (forall j | 0 <= j < |uaLimits| :: !(uaLimits[j].compiled && uaMatches(uaLimits[j].pattern))) ==>
                forall k | 0 <= k < |ipLimits| && ipLimits[k].compiled && ipMatches(ipLimits[k].pattern) ::
                  (forall j | 0 <= j < k :: !(ipLimits[j].compiled && ipMatches(ipLimits[j].pattern))) ==>
                    c == Some(Charge("ip:" + ipLimits[k].pattern, ipLimits[k].rate, ipLimits[k].burst))
    {
      for k := 0 to |uaLimits|
        invariant forall j | 0 <= j < k :: !(uaLimits[j].compiled && uaMatches(uaLimits[j].pattern))
      {
        if uaLimits[k].compiled && uaMatches(uaLimits[k].pattern) {
          assert FirstMatch(uaLimits, uaMatches, k);
          return Some(Charge("ua:" + uaLimits[k].pattern, uaLimits[k].rate, uaLimits[k].burst));
        }
      }
      if hasIp {
        for k := 0 to |ipLimits|
          invariant forall j | 0 <= j < k :: !(ipLimits[j].compiled && ipMatches(ipLimits[j].pattern))
        {
          if ipLimits[k].compiled && ipMatches(ipLimits[k].pattern) {
            assert FirstMatch(ipLimits, ipMatches, k);
            return Some(Charge("ip:" + ipLimits[k].pattern, ipLimits[k].rate, ipLimits[k].burst));
          }
        }
      }
      c := if defaultRate > 0.0 then Some(Charge("default", defaultRate, defaultBurst)) else None;
    }

    /** isAllowed: charges the chosen bucket and no other.  Only an answer of the script can refuse: without
        Redis, without a rule, when the script fails, does not run, or runs without its reply coming back,
        the request goes through - in the last case at the cost of a token.  If the bucket was charged at
        `times` before, an answered script admits exactly what is affordable, or everything if it fails. */
    method IsAllowed(uaMatches: string -> bool, ipMatches: string -> bool, hasIp: bool, now: real, ran: bool,
                     answered: bool, ghost times: seq<real>)
      returns (allowed: bool, ghost charged: Option<Charge>)
      requires (redis != null ==> redis.Valid()) && (answered ==> ran)
      modifies redis
      ensures redis != null ==> redis.Valid() && ChargedTo(uaMatches, ipMatches, hasIp, charged)
      ensures redis == null ==> allowed
      ensures redis != null && (charged.None? || !ran) ==> allowed && redis.keys == old(redis.keys)
      ensures redis != null && charged.Some? && ran ==>
                var name, rate, burst := charged.value.name, charged.value.rate, charged.value.burst as real;
                && allowed == (!answered || RealStep(rate, burst, old(redis.StoredOf(name)), now).allowed)
                && redis.StoredOf(name) == RealStep(rate, burst, old(redis.StoredOf(name)), now).state
                && forall other | other != name :: redis.StoredOf(other) == old(redis.StoredOf(other))
      ensures redis != null && charged.Some? && ran ==>
                var name, rate, burst := charged.value.name, charged.value.rate, charged.value.burst as real;
                old(redis.StoredOf(name)) == RealAfter(rate, burst, NOTHING, times)
                && rate > 0.0 && burst >= 0.0 && NonDecreasing(times + [now]) ==>
                  && redis.StoredOf(name) == RealAfter(rate, burst, NOTHING, times + [now])
                  && |RealDecisions(rate, burst, NOTHING, times)| == |times|
                  && (answered ==>
                        (allowed <==>
                          2.0 * burst < rate
                          || Affordable(rate, burst, times + [now], RealDecisions(rate, burst, NOTHING, times))))
    {
      hide IdealStep, RealAfter, RealDecisions, Affordable, NonDecreasing;
      charged := None;
      if redis == null {
        return true, None;
      }
      var c := ChooseRule(uaMatches, ipMatches, hasIp);
      charged := c;
      if c.None? || !ran {
        return true, c;
      }
      ChargedAfter(c.value.rate, c.value.burst as real, times, now);
      var reply := redis.RunScript(c.value.name, c.value.rate, c.value.burst as real, now);
      allowed := !answered || reply.ScriptError? || reply.n == 1;
    }
  }
}
