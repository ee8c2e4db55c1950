/**
 The two sliding-window limiters of internal/shared/middleware/ratelimit.go, which keep the times of
 requests in a Redis sorted set whose key expires.  Times are nanoseconds; a window is a positive
 number of whole seconds.
 */
module SlidingWindow {
  import opened Options
  import opened Sets

  /** The sorted set of one key: members and scores are both the request's time. */
  datatype Log = Log(entries: set<int>, deadline: Option<int>)

  const EMPTY := Log({}, None)

  /** ZREMRANGEBYSCORE key 0 windowStart */
  function Purge(entries: set<int>, windowStart: int): set<int> {
    set e | e in entries && !(0 <= e <= windowStart)
  }

  /** What is left of the key at `now`; `forget` says whether keys expire at all. */
  function Recall(log: Log, now: int, forget: bool): set<int> {
    if forget && log.deadline.Some? && now >= log.deadline.value then {} else log.entries
  }

  /** The entries that ZCARD counts at `now`. */
  function Counted(log: Log, window: int, now: int, forget: bool): set<int> {
    Purge(Recall(log, now, forget), now - window)
  }

  datatype Outcome = Outcome(allowed: bool, log: Log)

  /** RateLimiter: counts, and records only what it admits. */
  function LimiterStep(limit: int, window: int, log: Log, now: int, forget: bool): Outcome {
    var entries := Counted(log, window, now, forget);
    if |entries| >= limit then Outcome(false, Log(entries, log.deadline))
    else Outcome(true, Log(entries + {now}, Some(now + window)))
  }

  /** FlexibleRateLimiter: records every request and tests with `>`. */
  function FlexibleStep(limit: int, window: int, log: Log, now: int, forget: bool): Outcome {
    var entries := Counted(log, window, now, forget);
    Outcome(|entries| <= limit, Log(entries + {now}, Some(now + window)))
  }

  function Step(flexible: bool, limit: int, window: int, log: Log, now: int, forget: bool): Outcome {
    if flexible then FlexibleStep(limit, window, log, now, forget) else LimiterStep(limit, window, log, now, forget)
  }

  lemma RecallTwice(log: Log, window: int, now: int)
    ensures var entries := Counted(log, window, now, true);
            Recall(Log(entries, log.deadline), now, true) == entries
    ensures var entries := Recall(log, now, true);
            Recall(Log(entries, log.deadline), now, true) == entries
  {
  }

  /** Which commands of RateLimiter are carried out, and for ZCARD answered. */
  datatype Fates = Fates(purged: bool, counted: bool, added: bool, expired: bool)

  const ALL_WELL := Fates(true, true, true, true)

  class Redis {
    var log: Log

    constructor ()
      ensures log == EMPTY
    {
      log := EMPTY;
    }

    /** The server drops an expired key before it runs a command on it. */
    method Touch(now: int)
      modifies this
      ensures log == Log(Recall(old(log), now, true), old(log.deadline))
    {
      if log.deadline.Some? && now >= log.deadline.value {
        log := log.(entries := {});
      }
    }

    method ZRemRangeByScore(now: int, max: int)
      modifies this
      ensures log == Log(Purge(Recall(old(log), now, true), max), old(log.deadline))
    {
      Touch(now);
      log := log.(entries := Purge(log.entries, max));
    }

    method ZCard(now: int) returns (count: nat)
      modifies this
      ensures count == |Recall(old(log), now, true)| && log == Log(Recall(old(log), now, true), old(log.deadline))
    {
      Touch(now);
      count := |log.entries|;
    }

    /** A key that ZADD creates has no deadline yet. */
    method ZAdd(now: int)
      modifies this
      ensures var entries := Recall(old(log), now, true);
              log == Log(entries + {now}, if entries == {} then None else old(log.deadline))
    {
      Touch(now);
      log := Log(log.entries + {now}, if log.entries == {} then None else log.deadline);
    }

    method Expire(now: int, window: int)
      modifies this
      ensures var entries := Recall(old(log), now, true);
              log == Log(entries, if entries == {} then old(log.deadline) else Some(now + window))
    {
      Touch(now);
      if log.entries != {} {
        log := log.(deadline := Some(now + window));
      }
    }

    /** RateLimiter looks at no error: a command that fails is skipped, and a count without a reply is
        zero.  With every command carried out it is the specified step; whatever fails, a request is
        refused exactly if the count was answered and at least `limit`. */
    method RateLimiter(limit: int, window: int, now: int, f: Fates) returns (allowed: bool)
      requires window > 0
      modifies this
      ensures f == ALL_WELL ==> Outcome(allowed, log) == LimiterStep(limit, window, old(log), now, true)
      ensures var entries := if f.purged then Counted(old(log), window, now, true) else Recall(old(log), now, true);
              && allowed == ((if f.counted then |entries| else 0) < limit)
              && Recall(log, now, true) == if allowed && f.added then entries + {now} else entries
      ensures f == ALL_WELL && allowed ==> log.deadline == Some(now + window)
    {
      hide Recall, Purge;
      RecallTwice(log, window, now);
      if f.purged {
        ZRemRangeByScore(now, now - window);
      }
      var count := 0;
      if f.counted {
        count := ZCard(now);
      }
      if count >= limit {
        return false;
      }
      Record(now, window, f.added, f.expired);
      allowed := true;
    }

    /** The last two commands, as far as they are carried out. */
    method Record(now: int, window: int, added: bool, expired: bool)
      requires window > 0
      modifies this
      ensures Recall(log, now, true) == Recall(old(log), now, true) + if added then {now} else {}
      ensures added && expired ==> log == Log(Recall(old(log), now, true) + {now}, Some(now + window))
    {
      if added {
        ZAdd(now);
      }
      if expired {
        Expire(now, window);
      }
    }

    /** ZREMRANGEBYSCORE, ZCARD, ZADD and EXPIRE, broken off after `done` commands. */
    method RunPipeline(window: int, now: int, done: nat) returns (card: nat)
      requires window > 0
      modifies this
      ensures done >= 4 ==> log == Log(Counted(old(log), window, now, true) + {now}, Some(now + window))
      ensures done >= 2 ==> card == |Counted(old(log), window, now, true)|
      ensures Recall(log, now, true) == if done >= 3 then Counted(old(log), window, now, true) + {now}
                                        else if done >= 1 then Counted(old(log), window, now, true)
                                        else Recall(old(log), now, true)
    {
      card := 0;
      if done == 0 {
        return;
      }
      ZRemRangeByScore(now, now - window);
      if done == 1 {
        return;
      }
      card := ZCard(now);
      if done == 2 {
        return;
      }
      ZAdd(now);
      if done >= 4 {
        Expire(now, window);
      }
    }

    /** The pipeline may break off, and its replies may be lost even when it was carried out; without
        replies the request goes through, recorded or not. */
    method FlexibleRateLimiter(limit: int, window: int, now: int, done: nat, answered: bool) returns (allowed: bool)
      requires window > 0 && (answered ==> done >= 4)
      modifies this
      ensures answered ==> Outcome(allowed, log) == FlexibleStep(limit, window, old(log), now, true)
      ensures !answered ==> allowed
      ensures done >= 4 ==> log == FlexibleStep(limit, window, old(log), now, true).log
      ensures done >= 4 ==> now in log.entries && log.deadline == Some(now + window)
      ensures Recall(log, now, true) == if done >= 3 then Counted(old(log), window, now, true) + {now}
                                        else if done >= 1 then Counted(old(log), window, now, true)
                                        else Recall(old(log), now, true)
    {
      var card := RunPipeline(window, now, done);
      allowed := !answered || card <= limit;
    }
  }

  /*------------------------------------ runs ------------------------------------*/

  ghost predicate Increasing(times: seq<int>) {
    && (forall i | 0 <= i < |times| :: times[i] >= 0)
    && (forall i, j | 0 <= i < j < |times| :: times[i] < times[j])
  }

  function LogAfter(flexible: bool, limit: int, window: int, times: seq<int>, forget: bool): Log {
    if times == [] then EMPTY
    else Step(flexible, limit, window, LogAfter(flexible, limit, window, times[..|times| - 1], forget),
        times[|times| - 1], forget).log
  }

  /** Whether the request at `now` is admitted after those at `times`. */
  predicate Admits(flexible: bool, limit: int, window: int, times: seq<int>, now: int, forget: bool) {
    Step(flexible, limit, window, LogAfter(flexible, limit, window, times, forget), now, forget).allowed
  }

  function Admitted(flexible: bool, limit: int, window: int, times: seq<int>, forget: bool): set<int> {
    if times == [] then {} else
    var before, now := times[..|times| - 1], times[|times| - 1];
    Admitted(flexible, limit, window, before, forget)
        + if Admits(flexible, limit, window, before, now, forget) then {now} else {}
  }

  /** The requests that are meant to be counted: those admitted, or for the flexible limiter all. */
  function Recorded(flexible: bool, limit: int, window: int, times: seq<int>, forget: bool): set<int> {
    if flexible then Members(times) else Admitted(flexible, limit, window, times, forget)
  }

  function Members(times: seq<int>): set<int> {
    set t | t in times
  }

  function Recent(ts: set<int>, windowStart: int): set<int> {
    set t | t in ts && windowStart < t
  }

  /** The sorted set lacks only recorded requests that have left every later window, and its key
      lives as long as any entry matters. */
  ghost predicate Faithful(log: Log, window: int, recorded: set<int>, last: int) {
    && (forall t | t in log.entries :: t in recorded && (log.deadline.Some? ==> t + window <= log.deadline.value))
    && (forall t | t in recorded :: 0 <= t <= last && (t in log.entries || t <= last - window))
  }

  lemma FaithfulCounts(log: Log, window: int, recorded: set<int>, last: int, now: int, forget: bool)
    requires window > 0 && Faithful(log, window, recorded, last) && last < now
    ensures Counted(log, window, now, forget) == Recent(recorded, now - window)
  {
  }

  lemma FaithfulPurge(log: Log, window: int, recorded: set<int>, last: int, now: int, kept: set<int>)
    requires window > 0 && Faithful(log, window, recorded, last) && last < now
    requires kept <= log.entries && kept == Recent(recorded, now - window)
    ensures Faithful(Log(kept, log.deadline), window, recorded, now)
  {
  }

  lemma FaithfulAdd(window: int, recorded: set<int>, now: int, kept: set<int>)
    requires window > 0 && kept == Recent(recorded, now - window) && 0 <= now
    requires forall t | t in recorded :: 0 <= t < now
    ensures Faithful(Log(kept + {now}, Some(now + window)), window, recorded + {now}, now)
  {
  }

  lemma FaithfulStep(flexible: bool, limit: int, window: int, log: Log, recorded: set<int>, last: int, now: int,
                     forget: bool)
    requires window > 0 && Faithful(log, window, recorded, last) && last < now && 0 <= now
    ensures var out := Step(flexible, limit, window, log, now, forget);
            Faithful(out.log, window, recorded + (if flexible || out.allowed then {now} else {}), now)
  {
    FaithfulCounts(log, window, recorded, last, now, forget);
    var kept := Counted(log, window, now, forget);
    FaithfulPurge(log, window, recorded, last, now, kept);
    FaithfulAdd(window, recorded, now, kept);
    assert recorded + {} == recorded;
  }

  function Last(times: seq<int>): int {
    if times == [] then -1 else times[|times| - 1]
  }

  lemma {:induction false} StaysFaithful(flexible: bool, limit: int, window: int, times: seq<int>, forget: bool)
    requires window > 0 && Increasing(times)
    ensures Faithful(LogAfter(flexible, limit, window, times, forget), window,
                     Recorded(flexible, limit, window, times, forget), Last(times))
    decreases |times|
  {
    if times == [] {
    } else {
      var before, now := times[..|times| - 1], times[|times| - 1];
      StaysFaithful(flexible, limit, window, before, forget);
      FaithfulStep(flexible, limit, window, LogAfter(flexible, limit, window, before, forget),
                   Recorded(flexible, limit, window, before, forget), Last(before), now, forget);
      RecordedStep(flexible, limit, window, times, forget);
    }
  }

  lemma RecordedStep(flexible: bool, limit: int, window: int, times: seq<int>, forget: bool)
    requires times != []
    ensures var before, now := times[..|times| - 1], times[|times| - 1];
            Recorded(flexible, limit, window, times, forget) == Recorded(flexible, limit, window, before, forget)
              + if flexible || Admits(flexible, limit, window, before, now, forget) then {now} else {}
  {
    assert Members(times) == Members(times[..|times| - 1]) + {times[|times| - 1]};
  }

  /** The sorted set always shows exactly the recorded requests of the window that ends now:
      neither the purge of earlier requests nor the expiry of the key ever hides one too many. */
  lemma CountedIsWindow(flexible: bool, limit: int, window: int, times: seq<int>, now: int, forget: bool)
    requires window > 0 && Increasing(times + [now])
    ensures Counted(LogAfter(flexible, limit, window, times, forget), window, now, forget)
         == Recent(Recorded(flexible, limit, window, times, forget), now - window)
  {
    assert forall i | 0 <= i < |times| :: times[i] == (times + [now])[i];
    assert now == (times + [now])[|times|];
    StaysFaithful(flexible, limit, window, times, forget);
    FaithfulCounts(LogAfter(flexible, limit, window, times, forget), window,
                   Recorded(flexible, limit, window, times, forget), Last(times), now, forget);
  }

  /** Exactness of RateLimiter: a request is admitted if and only if fewer than `limit` requests
      were admitted in the window before it. */
  lemma LimiterExact(limit: int, window: int, times: seq<int>, now: int, forget: bool)
    requires window > 0 && Increasing(times + [now])
    ensures Admits(false, limit, window, times, now, forget)
       <==> |set t | t in Admitted(false, limit, window, times, forget) && now - window < t| < limit
    ensures Admitted(false, limit, window, times + [now], forget)
         == Admitted(false, limit, window, times, forget)
            + if Admits(false, limit, window, times, now, forget) then {now} else {}
  {
    assert (times + [now])[..|times|] == times;
    assert Recent(Admitted(false, limit, window, times, forget), now - window)
        == set t | t in Admitted(false, limit, window, times, forget) && now - window < t;
    CountedIsWindow(false, limit, window, times, now, forget);
  }

  /** FlexibleRateLimiter admits if and only if at most `limit` requests, admitted or not, were
      made in the window before. */
  lemma FlexibleExact(limit: int, window: int, times: seq<int>, now: int, forget: bool)
    requires window > 0 && Increasing(times + [now])
    ensures Admits(true, limit, window, times, now, forget) <==> |set t | t in times && now - window < t| <= limit
    ensures Admitted(true, limit, window, times + [now], forget)
         == Admitted(true, limit, window, times, forget)
            + if Admits(true, limit, window, times, now, forget) then {now} else {}
  {
    assert (times + [now])[..|times|] == times;
    assert Recent(Members(times), now - window) == set t | t in times && now - window < t;
    CountedIsWindow(true, limit, window, times, now, forget);
  }

  /** The key's time to live never changes a decision of either limiter. */
  lemma {:induction false} ExpiryIsInvisible(flexible: bool, limit: int, window: int, times: seq<int>)
    requires window > 0 && Increasing(times)
    ensures Admitted(flexible, limit, window, times, true) == Admitted(flexible, limit, window, times, false)
    ensures forall now | Increasing(times + [now]) ::
              Admits(flexible, limit, window, times, now, true) == Admits(flexible, limit, window, times, now, false)
    decreases |times|
  {
    if times == [] {
    } else {
      var before, last := times[..|times| - 1], times[|times| - 1];
      assert before + [last] == times;
      ExpiryIsInvisible(flexible, limit, window, before);
    }
    forall now | Increasing(times + [now])
      ensures Admits(flexible, limit, window, times, now, true) == Admits(flexible, limit, window, times, now, false)
    {
      CountedIsWindow(flexible, limit, window, times, now, true);
      CountedIsWindow(flexible, limit, window, times, now, false);
    }
  }

  lemma {:induction false} AdmittedAreRecorded(flexible: bool, limit: int, window: int, times: seq<int>, forget: bool)
    ensures Admitted(flexible, limit, window, times, forget) <= Recorded(flexible, limit, window, times, forget)
  {
    if flexible && times != [] {
      AdmittedAreRecorded(flexible, limit, window, times[..|times| - 1], forget);
    }
  }

  /** The admitted requests of one interval of the window's length. */
  function During(admitted: set<int>, a: int, window: int): set<int> {
    set t | t in admitted && a < t <= a + window
  }

  function Bound(flexible: bool, limit: int): int {
    var most := if flexible then limit + 1 else limit;
    if most < 0 then 0 else most
  }

  lemma NewAdmission(flexible: bool, limit: int, window: int, before: seq<int>, now: int, forget: bool, a: int)
    requires window > 0 && Increasing(before + [now]) && a < now <= a + window
    requires Admits(flexible, limit, window, before, now, forget)
    ensures |During(Admitted(flexible, limit, window, before, forget), a, window)| + 1 <= Bound(flexible, limit)
  {
    CountedIsWindow(flexible, limit, window, before, now, forget);
    AdmittedAreRecorded(flexible, limit, window, before, forget);
    Subset(During(Admitted(flexible, limit, window, before, forget), a, window),
           Recent(Recorded(flexible, limit, window, before, forget), now - window));
  }

  lemma DuringGrows(admitted: set<int>, now: int, a: int, window: int)
    ensures |During(admitted + {now}, a, window)| <= |During(admitted, a, window)| + 1
    ensures !(a < now <= a + window) ==> During(admitted + {now}, a, window) == During(admitted, a, window)
  {
    Subset(During(admitted + {now}, a, window), During(admitted, a, window) + {now});
  }

  /** In every interval of one window's length RateLimiter admits at most `limit` requests and
      FlexibleRateLimiter at most `limit + 1`. */
  lemma {:induction false} AdmitsAtMost(flexible: bool, limit: int, window: int, times: seq<int>, forget: bool, a: int)
    requires window > 0 && Increasing(times)
    ensures |During(Admitted(flexible, limit, window, times, forget), a, window)| <= Bound(flexible, limit)
    decreases |times|
  {
    if times == [] {
      assert During({}, a, window) == {};
    } else {
      hide During, Admits, Increasing;
      var before, now := times[..|times| - 1], times[|times| - 1];
      assert before + [now] == times;
      IncreasingFront(times);
      AdmitsAtMost(flexible, limit, window, before, forget, a);
      if Admits(flexible, limit, window, before, now, forget) {
        DuringGrows(Admitted(flexible, limit, window, before, forget), now, a, window);
        if a < now <= a + window {
          NewAdmission(flexible, limit, window, before, now, forget, a);
        }
      } else {
        assert Admitted(flexible, limit, window, times, forget) == Admitted(flexible, limit, window, before, forget);
      }
    }
  }

  function Upto(n: nat): (s: seq<int>)
    ensures |s| == n && forall i | 0 <= i < n :: s[i] == i
  {
    seq(n, i => i)
  }

  lemma MembersGrow(times: seq<int>, t: int)
    ensures Members(times + [t]) == Members(times) + {t}
  {
  }

  lemma UptoStep(n: nat)
    requires n > 0
    ensures Upto(n) == Upto(n - 1) + [n - 1] && Members(Upto(n)) == Members(Upto(n - 1)) + {n - 1}
    ensures n - 1 !in Members(Upto(n - 1))
  {
    assert Upto(n) == Upto(n - 1) + [n - 1];
    MembersGrow(Upto(n - 1), n - 1);
  }

  lemma {:induction false} UptoCard(n: nat)
    ensures |Members(Upto(n))| == n
  {
    hide Members;
    if n == 0 {
      NoMembers();
      assert Upto(0) == [];
    } else {
      UptoCard(n - 1);
      UptoStep(n);
    }
  }

  lemma NoMembers()
    ensures Members([]) == {}
  {
  }

  lemma NextOfUptoAdmitted(limit: nat, window: int, n: nat)
    requires n <= limit && window > limit
    ensures Admits(true, limit, window, Upto(n), n, true)
  {
    assert Increasing(Upto(n) + [n]);
    UptoCard(n);
    FlexibleExact(limit, window, Upto(n), n, true);
    Subset((set t | t in Upto(n) && n - window < t), Members(Upto(n)));
  }

  lemma {:induction false} AllOfUptoAdmitted(limit: nat, window: int, n: nat)
    requires n <= limit + 1 && window > limit
    ensures Admitted(true, limit, window, Upto(n), true) == Members(Upto(n))
  {
    if n == 0 {
    } else {
      AllOfUptoAdmitted(limit, window, n - 1);
      NextOfUptoAdmitted(limit, window, n - 1);
      UptoStep(n);
      assert Upto(n)[..n - 1] == Upto(n - 1) && Upto(n)[n - 1] == n - 1;
    }
  }

  /** More than `limit` requests, admitted or not, came in the window before `now`. */
  ghost predicate Crowded(limit: int, window: int, times: seq<int>, now: int) {
    |set t | t in times && now - window < t| > limit
  }

  /** Each request from number `from` on finds it so. */
  ghost predicate StaysCrowded(limit: int, window: int, times: seq<int>, from: nat)
    decreases |times|
  {
    |times| <= from ||
    (StaysCrowded(limit, window, times[..|times| - 1], from)
     && Crowded(limit, window, times[..|times| - 1], times[|times| - 1]))
  }

  lemma FlexibleAdmits(limit: int, window: int, times: seq<int>, forget: bool)
    requires window > 0 && Increasing(times) && times != []
    ensures var before, now := times[..|times| - 1], times[|times| - 1];
            Admitted(true, limit, window, times, forget)
            == Admitted(true, limit, window, before, forget) + if Crowded(limit, window, before, now) then {} else {now}
  {
    var before, now := times[..|times| - 1], times[|times| - 1];
    assert before + [now] == times;
    FlexibleExact(limit, window, before, now, forget);
  }

  lemma {:induction false} AdmittedGrows(limit: int, window: int, times: seq<int>, from: nat, forget: bool)
    requires from <= |times|
    ensures Admitted(true, limit, window, times[..from], forget) <= Admitted(true, limit, window, times, forget)
    decreases |times|
  {
    if |times| == from {
      assert times[..from] == times;
    } else {
      AdmittedGrows(limit, window, times[..|times| - 1], from, forget);
      assert times[..|times| - 1][..from] == times[..from];
    }
  }

  /** Locked out: FlexibleRateLimiter records refused requests too, so that from number `from` on it admits
      none any more if and only if each comes with more than `limit` requests, admitted or not, in the
      window before it. */
  lemma {:induction false} LockedOutIff(limit: int, window: int, times: seq<int>, from: nat, forget: bool)
    requires window > 0 && Increasing(times) && from <= |times|
    ensures Admitted(true, limit, window, times, forget) == Admitted(true, limit, window, times[..from], forget)
            <==> StaysCrowded(limit, window, times, from)
    decreases |times|
  {
    hide Admitted, Crowded, Increasing;
    if |times| == from {
      assert times[..from] == times;
    } else {
      var front, now := times[..|times| - 1], times[|times| - 1];
      IncreasingFront(times);
      LockedOutIff(limit, window, front, from, forget);
      assert front[..from] == times[..from];
      FlexibleAdmits(limit, window, times, forget);
      AdmittedGrows(limit, window, front, from, forget);
      NewNotAdmitted(limit, window, times, forget);
    }
  }

  lemma IncreasingFront(times: seq<int>)
    requires Increasing(times) && times != []
    ensures Increasing(times[..|times| - 1])
  {
  }

  lemma NewNotAdmitted(limit: int, window: int, times: seq<int>, forget: bool)
    requires Increasing(times) && times != []
    ensures times[|times| - 1] !in Admitted(true, limit, window, times[..|times| - 1], forget)
  {
    AdmittedAreRecorded(true, limit, window, times[..|times| - 1], forget);
  }

  /** The extra request is real: for every limit, FlexibleRateLimiter lets `limit + 1` requests
      into one window. */
  lemma FlexibleOvershoots(limit: nat, window: int)
    requires window > limit
    ensures |During(Admitted(true, limit, window, Upto(limit + 1), true), -1, window)| == limit + 1
  {
    AllOfUptoAdmitted(limit, window, limit + 1);
    UptoCard(limit + 1);
    assert During(Members(Upto(limit + 1)), -1, window) == Members(Upto(limit + 1));
  }

  /*------------------------------ concurrent requests ------------------------------*/

  /** RateLimiter's commands are separate: `passed` holds the requests that have seen ZCARD below
      the limit and have not yet run ZADD. */
  datatype Shared = Shared(entries: set<int>, passed: map<nat, int>)

  datatype Command = RemRange(windowStart: int) | ExpireKey | Card(request: nat, now: int) | Add(request: nat)

  function Apply(limit: int, s: Shared, c: Command): Shared {
    match c
    case RemRange(w) => s.(entries := Purge(s.entries, w))
    case ExpireKey => s.(entries := {})
    case Card(r, now) => if r in s.passed || |s.entries| >= limit then s else s.(passed := s.passed[r := now])
    case Add(r) => if r !in s.passed then s else Shared(s.entries + {s.passed[r]}, s.passed - {r})
  }

  function After(limit: int, cs: seq<Command>): Shared {
    if cs == [] then Shared({}, map[]) else Apply(limit, After(limit, cs[..|cs| - 1]), cs[|cs| - 1])
  }

  /** At most `m` requests are ever between ZCARD and ZADD at once. */
  ghost predicate AtMostInside(limit: int, cs: seq<Command>, m: nat) {
    forall k | 0 <= k <= |cs| :: |After(limit, cs[..k]).passed| <= m
  }

  lemma ApplyBound(limit: int, s: Shared, c: Command, m: nat)
    requires limit >= 1 && m >= 1 && |s.entries| + |s.passed| <= limit + m - 1
    requires |Apply(limit, s, c).passed| <= m
    ensures |Apply(limit, s, c).entries| + |Apply(limit, s, c).passed| <= limit + m - 1
  {
    match c
    case RemRange(w) => Subset(Purge(s.entries, w), s.entries);
    case Add(r) =>
      if r in s.passed {
        assert s.passed == (s.passed - {r})[r := s.passed[r]];
      }
    case _ =>
  }

  /** Bounded overshoot: with at most `m` requests between ZCARD and ZADD at once, every
      interleaving keeps the recorded and the admitted-but-unrecorded requests within limit + m - 1. */
  lemma {:induction false} BoundedOvershoot(limit: int, cs: seq<Command>, m: nat)
    requires limit >= 1 && m >= 1 && AtMostInside(limit, cs, m)
    ensures |After(limit, cs).entries| + |After(limit, cs).passed| <= limit + m - 1
    decreases |cs|
  {
    if cs == [] {
    } else {
      var before := cs[..|cs| - 1];
      forall k | 0 <= k <= |before| ensures |After(limit, before[..k]).passed| <= m {
        assert before[..k] == cs[..k];
      }
      BoundedOvershoot(limit, before, m);
      assert cs[..|cs|] == cs;
      ApplyBound(limit, After(limit, before), cs[|cs| - 1], m);
    }
  }

  /** The first `serial` requests record themselves before the next one checks; the others, up to
      `n`, all check first. */
  function Checks(n: nat, serial: nat): seq<Command> {
    if n == 0 then []
    else if n <= serial then Checks(n - 1, serial) + [Card(n, n)] + [Add(n)]
    else Checks(n - 1, serial) + [Card(n, n)]
  }

  lemma AfterAppend(limit: int, cs: seq<Command>, c: Command)
    ensures After(limit, cs + [c]) == Apply(limit, After(limit, cs), c)
  {
    assert (cs + [c])[..|cs|] == cs;
  }

  ghost predicate Piled(s: Shared, entries: nat, passed: nat, n: nat) {
    && |s.entries| == entries && |s.passed| == passed
    && (forall e | e in s.entries :: e <= n) && (forall r | r in s.passed :: r <= n)
  }

  lemma CheckAndAdd(limit: int, s: Shared, n: nat)
    requires Piled(s, n, 0, n) && n < limit
    ensures Piled(Apply(limit, Apply(limit, s, Card(n + 1, n + 1)), Add(n + 1)), n + 1, 0, n + 1)
  {
    var t := Apply(limit, s, Card(n + 1, n + 1));
    assert s.passed == map[];
    assert t == Shared(s.entries, map[n + 1 := n + 1]);
    assert t.passed - {n + 1} == map[];
    assert n + 1 !in s.entries;
    assert |s.entries + {n + 1}| == |s.entries| + 1;
  }

  lemma CheckOnly(limit: int, s: Shared, entries: nat, passed: nat, n: nat)
    requires Piled(s, entries, passed, n) && entries < limit
    ensures Piled(Apply(limit, s, Card(n + 1, n + 1)), entries, passed + 1, n + 1)
  {
  }

  lemma InsideAppend(limit: int, cs: seq<Command>, c: Command, m: nat)
    requires AtMostInside(limit, cs, m) && |After(limit, cs + [c]).passed| <= m
    ensures AtMostInside(limit, cs + [c], m)
  {
    forall k | 0 <= k <= |cs + [c]| ensures |After(limit, (cs + [c])[..k]).passed| <= m {
      assert k <= |cs| ==> (cs + [c])[..k] == cs[..k];
      assert k == |cs| + 1 ==> (cs + [c])[..k] == cs + [c];
    }
  }

  lemma {:induction false} SerialChecks(limit: nat, serial: nat, n: nat, m: nat)
    requires n <= serial < limit && m >= 1
    ensures Piled(After(limit, Checks(n, serial)), n, 0, n) && AtMostInside(limit, Checks(n, serial), m)
  {
    if n == 0 {
    } else {
      SerialChecks(limit, serial, n - 1, m);
      var cs := Checks(n - 1, serial);
      AfterAppend(limit, cs, Card(n, n));
      AfterAppend(limit, cs + [Card(n, n)], Add(n));
      CheckAndAdd(limit, After(limit, cs), n - 1);
      CheckOnly(limit, After(limit, cs), n - 1, 0, n - 1);
      InsideAppend(limit, cs, Card(n, n), m);
      InsideAppend(limit, cs + [Card(n, n)], Add(n), m);
    }
  }

  lemma {:induction false} ChecksPile(limit: nat, serial: nat, n: nat, m: nat)
    requires serial < limit && serial <= n <= serial + m && m >= 1
    ensures Piled(After(limit, Checks(n, serial)), serial, n - serial, n) && AtMostInside(limit, Checks(n, serial), m)
  {
    if n == serial {
      SerialChecks(limit, serial, n, m);
    } else {
      ChecksPile(limit, serial, n - 1, m);
      AfterAppend(limit, Checks(n - 1, serial), Card(n, n));
      CheckOnly(limit, After(limit, Checks(n - 1, serial)), serial, n - 1 - serial, n - 1);
      InsideAppend(limit, Checks(n - 1, serial), Card(n, n), m);
    }
  }

  /** The bound is reached, for every limit and every number of simultaneous requests. */
  lemma OvershootIsReached(limit: nat, m: nat)
    requires limit >= 1 && m >= 1
    ensures var cs := Checks(limit + m - 1, limit - 1);
            AtMostInside(limit, cs, m) && |After(limit, cs).entries| + |After(limit, cs).passed| == limit + m - 1
  {
    ChecksPile(limit, limit - 1, limit + m - 1, m);
  }
}
