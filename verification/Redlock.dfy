/**
 The client side of internal/shared/db/redis_lock.go: the loops of `Acquire`, `Release` and `Extend`
 as they send their commands one node at a time.  Before every command the environment may do
 anything: other attempts send any commands of theirs and the clock moves.  `trace` records the
 run of the protocol that results, so every method is a refinement of RedlockProtocol and its
 mutual exclusion carries over.
 */
module RedlockClient {
  import opened Options
  import opened RedlockProtocol

  const RETRY_MS := 5

  datatype Lock = Lock(value: nat, expires: int)

  /** One round of `Acquire`: the run up to its beginning, the state that this leads to, and the number of the
      round's first command. */
  datatype Round = Round(run: seq<Event>, at: State, first: nat)

  /** What happens around one command: the events of others that come first, and the command's fate. */
  datatype Slot = Slot(others: seq<Event>, fate: Fate)

  class Redlock {
    const n: nat
    const quorum: nat
    const env: nat -> Slot
    var st: State
    var sent: nat
    ghost var trace: seq<Event>

    ghost predicate Valid()
      reads this
    {
      && st == Run(Init(n), trace)
      && |st.nodes| == n
      && quorum == Quorum(n)
    }

    ghost predicate InPhase(v: nat, p: Phase)
      reads this
    {
      v in st.sessions && st.sessions[v].phase == p
    }

    /** Nobody else does anything and no time passes around the commands `a` to `b`. */
    ghost predicate Calm(a: nat, b: nat) {
      forall j | a <= j < b :: env(j).others == []
    }

    /** Command `j` is carried out and its reply comes back. */
    predicate Works(j: nat) {
      env(j).fate.delivered && env(j).fate.answered
    }

    /** The nodes below `k` that are free in `s` and confirm the SETNX; the round begins with command `a`. */
    ghost function Winners(s: State, a: nat, k: nat): set<nat>
      requires k <= |s.nodes|
    {
      set i: nat | i < k && !Live(s, i) && Works(a + i)
    }

    /** What node `i` holds after the SETNX with number `a`. */
    ghost function Taken(s: State, i: nat, v: nat, a: nat): Option<Entry>
      requires i < |s.nodes| && v in s.sessions
    {
      if !Live(s, i) && env(a).fate.delivered then Some(Entry(v, s.now + s.sessions[v].expires)) else s.nodes[i]
    }

    /** What an undisturbed round that began in `s` with command `a` makes of the first `k` nodes. */
    ghost predicate TakenUpTo(s: State, s': State, v: nat, a: nat, k: nat) {
      && v in s.sessions && k <= |s.nodes| == |s'.nodes| && s'.now == s.now
      && (forall i: nat | i < k :: s'.nodes[i] == Taken(s, i, v, a + i))
      && (forall i: nat | k <= i < |s.nodes| :: s'.nodes[i] == s.nodes[i])
    }

    lemma NothingTaken(s: State, v: nat, a: nat)
      requires v in s.sessions
      ensures TakenUpTo(s, s, v, a, 0)
    {
    }

    lemma OneMoreTaken(s: State, here: State, s': State, v: nat, a: nat, k: nat)
      requires TakenUpTo(s, here, v, a, k) && k < |s.nodes| && s'.now == here.now
      requires v in here.sessions && here.sessions[v].expires == s.sessions[v].expires
      requires s'.nodes == here.nodes[k := Taken(here, k, v, a + k)]
      ensures TakenUpTo(s, s', v, a, k + 1) && Live(here, k) == Live(s, k)
    {
    }

    lemma NoWinners(s: State, a: nat)
      ensures Winners(s, a, 0) == {}
    {
    }

    lemma WinnersAre(s: State, a: nat, k: nat)
      requires k <= |s.nodes|
      ensures Winners(s, a, k) == set i: nat | i < k && !Live(s, i) && Works(a + i)
    {
    }

    lemma OneMoreWinner(s: State, a: nat, k: nat)
      requires k < |s.nodes|
      ensures |Winners(s, a, k + 1)| == |Winners(s, a, k)| + if !Live(s, k) && Works(a + k) then 1 else 0
    {
      hide Live, Works;
      if !Live(s, k) && Works(a + k) {
        assert Winners(s, a, k + 1) == Winners(s, a, k) + {k};
      } else {
        assert Winners(s, a, k + 1) == Winners(s, a, k);
      }
    }

    /** Node `i` holds `v` and answers the GET with number `g`. */
    ghost predicate Seen(s: State, i: nat, v: nat, g: nat)
      requires i < |s.nodes|
    {
      Holds(s, i, v) && env(g).fate.answered
    }

    /** The nodes below `k` that hold `v` and confirm the GET, whose number is in `gets`, and the EXPIRE after it. */
    ghost function Confirmed(s: State, v: nat, gets: seq<nat>, k: nat): set<nat>
      requires k <= |s.nodes| && k <= |gets|
    {
      set i: nat | i < k && Seen(s, i, v, gets[i]) && Works(gets[i] + 1)
    }

    lemma ConfirmedBefore(s: State, v: nat, gets: seq<nat>, k: nat, next: nat)
      requires k <= |s.nodes| && k <= |gets|
      ensures Confirmed(s, v, gets + [next], k) == Confirmed(s, v, gets, k)
    {
      hide Seen, Works;
    }

    lemma OneMoreConfirmed(s: State, v: nat, gets: seq<nat>, k: nat, next: nat)
      requires k < |s.nodes| && k < |gets|
      ensures |Confirmed(s, v, gets + [next], k + 1)|
           == |Confirmed(s, v, gets, k)| + if Seen(s, k, v, gets[k]) && Works(gets[k] + 1) then 1 else 0
    {
      hide Seen, Works;
      ConfirmedBefore(s, v, gets, k + 1, next);
      if Seen(s, k, v, gets[k]) && Works(gets[k] + 1) {
        assert Confirmed(s, v, gets, k + 1) == Confirmed(s, v, gets, k) + {k};
      } else {
        assert Confirmed(s, v, gets, k + 1) == Confirmed(s, v, gets, k);
      }
    }

    /** What EXPIRE, if it is sent and arrives, makes of node `i`. */
    ghost function Renewed(s: State, i: nat, v: nat, g: nat): Option<Entry>
      requires i < |s.nodes| && v in s.sessions
    {
      if Seen(s, i, v, g) && env(g + 1).fate.delivered then Some(Entry(v, s.now + s.sessions[v].expires))
      else s.nodes[i]
    }

    /** What an undisturbed `Extend` that began in `s` has done in `s'`, after `i` nodes. */
    ghost predicate Halfway(s: State, s': State, v: nat, gets: seq<nat>, i: nat, extended: nat) {
      && v in s.sessions && i <= |s.nodes| == |s'.nodes| && |gets| == i + 1 && s'.now == s.now
      && extended == |Confirmed(s, v, gets, i)|
      && (forall j: nat | j < i :: gets[j + 1] == gets[j] + if Seen(s, j, v, gets[j]) then 2 else 1)
      && (forall j: nat | j < i :: s'.nodes[j] == Renewed(s, j, v, gets[j]))
      && (forall j: nat | i <= j < |s.nodes| :: s'.nodes[j] == s.nodes[j])
    }

    lemma HalfwayBegins(s: State, s': State, v: nat, next: nat)
      requires v in s.sessions && s'.now == s.now && s'.nodes == s.nodes
      ensures Halfway(s, s', v, [next], 0, 0)
    {
      assert Confirmed(s, v, [next], 0) == {};
    }

    lemma HalfwayGoesOn(s: State, here: State, s': State, v: nat, gets: seq<nat>, i: nat, extended: nat, counted: bool,
                        next: nat)
      requires Halfway(s, here, v, gets, i, extended) && i < |s.nodes| && s'.now == here.now
      requires v in here.sessions && here.sessions[v].expires == s.sessions[v].expires
      requires next == gets[i] + if Seen(here, i, v, gets[i]) then 2 else 1
      requires counted == (Seen(here, i, v, gets[i]) && Works(gets[i] + 1))
      requires s'.nodes == here.nodes[i := Renewed(here, i, v, gets[i])]
      ensures Halfway(s, s', v, gets + [next], i + 1, if counted then extended + 1 else extended)
    {
      SeenSame(s, here, i, v, gets[i]);
      hide Seen, Works, Renewed, Confirmed;
      OneMoreConfirmed(s, v, gets, i, next);
      var more := gets + [next];
      assert forall j: nat | j <= i :: more[j] == gets[j];
    }

    lemma HalfwayEnds(s: State, s': State, v: nat, gets: seq<nat>, extended: nat)
      requires Halfway(s, s', v, gets, |s.nodes|, extended)
      ensures s'.now == s.now && |s'.nodes| == |s.nodes|
      ensures forall i: nat | i < |s.nodes| ::
                gets[i + 1] == gets[i] + if Holds(s, i, v) && env(gets[i]).fate.answered then 2 else 1
      ensures extended == |set i: nat | i < |s.nodes| && Holds(s, i, v) && env(gets[i]).fate.answered
                                        && Works(gets[i] + 1)|
      ensures forall i: nat | i < |s.nodes| ::
                s'.nodes[i] == if Holds(s, i, v) && env(gets[i]).fate.answered && env(gets[i] + 1).fate.delivered
                               then Some(Entry(v, s.now + s.sessions[v].expires)) else s.nodes[i]
    {
      hide Holds, Works;
      assert Confirmed(s, v, gets, |s.nodes|)
          == set i: nat | i < |s.nodes| && Holds(s, i, v) && env(gets[i]).fate.answered && Works(gets[i] + 1);
    }

    lemma SeenSame(s: State, s': State, i: nat, v: nat, g: nat)
      requires s.now == s'.now && i < |s.nodes| == |s'.nodes| && s.nodes[i] == s'.nodes[i]
      requires v in s.sessions && v in s'.sessions && s.sessions[v].expires == s'.sessions[v].expires
      ensures Seen(s, i, v, g) == Seen(s', i, v, g) && Renewed(s, i, v, g) == Renewed(s', i, v, g)
    {
    }

    constructor (n: nat, env: nat -> Slot)
      ensures Valid() && this.n == n && this.env == env && trace == [] && sent == 0
    {
      this.n := n;
      this.quorum := n / 2 + 1;
      this.env := env;
      this.st := Init(n);
      this.sent := 0;
      this.trace := [];
    }

    method Emit(e: Event)
      requires Valid()
      modifies this`st, this`trace
      ensures Valid() && st == Apply(old(st), e) && trace == old(trace) + [e]
    {
      assert (trace + [e])[..|trace|] == trace;
      OthersLeaveAttempt(st, e, if e.Tick? then 0 else e.who + 1);
      st := Apply(st, e);
      trace := trace + [e];
    }

    /** Lets the environment run before the next command of attempt `v`. */
    method Interleave(v: nat)
      requires Valid()
      modifies this`st, this`trace
      ensures Valid() && old(trace) <= trace && old(st.now) <= st.now
      ensures v in old(st.sessions) ==> v in st.sessions && st.sessions[v] == old(st.sessions[v])
      ensures v !in old(st.sessions) ==> v !in st.sessions
      ensures forall i: nat | i < n && Holds(st, i, v) :: old(Holds(st, i, v))
      ensures env(sent).others == [] ==> st == old(st)
    {
      var es := env(sent).others;
      for k := 0 to |es|
        invariant k == 0 ==> st == old(st)
        invariant Valid() && old(trace) <= trace && old(st.now) <= st.now
        invariant v in old(st.sessions) ==> v in st.sessions && st.sessions[v] == old(st.sessions[v])
        invariant v !in old(st.sessions) ==> v !in st.sessions
        invariant forall i: nat | i < n && Holds(st, i, v) :: old(Holds(st, i, v))
      {
        if !ActorOf(es[k], v) {
          OthersLeaveAttempt(st, es[k], v);
          Emit(es[k]);
        }
      }
    }

    /** `client.SetNX(...)` on the node whose turn it is; `ok` is `err == nil && ok` in the source. */
    method SendSetNX(v: nat, t: int, i: nat, acquired: nat) returns (ok: bool)
      requires Valid() && InPhase(v, Acquiring(t, i, acquired)) && i < n
      modifies this`st, this`trace, this`sent
      ensures Valid() && old(trace) <= trace && old(st.now) <= st.now && sent == old(sent) + 1
      ensures InPhase(v, Acquiring(t, i + 1, if ok then acquired + 1 else acquired))
      ensures st.sessions[v] == old(st.sessions[v]).(phase := st.sessions[v].phase)
      ensures env(old(sent)).others == [] ==>
                && ok == (Works(old(sent)) && !old(Live(st, i))) && st.now == old(st.now)
                && st.nodes == old(st.nodes)[i := Taken(old(st), i, v, old(sent))]
    {
      hide Run, Apply;
      Interleave(v);
      var fate := env(sent).fate;
      SetNXEffect(st, v, fate, t, i, acquired);
      ok := fate.delivered && fate.answered && !Live(st, i);
      Emit(SetNX(v, fate));
      sent := sent + 1;
    }

    method AcquireInstance(v: nat, ghost t: int) returns (acquired: nat)
      requires Valid() && InPhase(v, Acquiring(t, 0, 0))
      modifies this`st, this`trace, this`sent
      ensures Valid() && old(trace) <= trace && old(st.now) <= st.now && sent == old(sent) + n
      ensures InPhase(v, Acquiring(t, n, acquired))
      ensures st.sessions[v] == old(st.sessions[v]).(phase := st.sessions[v].phase)
      ensures Calm(old(sent), sent) ==>
                acquired == |set i: nat | i < n && !Live(old(st), i) && Works(old(sent) + i)|
      ensures Calm(old(sent), sent) ==> TakenUpTo(old(st), st, v, old(sent), n)
    {
      hide Run, Apply, Winners, TakenUpTo, Taken;
      NoWinners(st, sent);
      NothingTaken(st, v, sent);
      acquired := 0;
      for i := 0 to n
        invariant Valid() && old(trace) <= trace && old(st.now) <= st.now && sent == old(sent) + i
        invariant Calm(old(sent), sent) ==>
                    && acquired == |Winners(old(st), old(sent), i)| && TakenUpTo(old(st), st, v, old(sent), i)
        invariant InPhase(v, Acquiring(t, i, acquired))
        invariant st.sessions[v] == old(st.sessions[v]).(phase := st.sessions[v].phase)
      {
        ghost var here := st;
        var ok := SendSetNX(v, st.sessions[v].phase.roundStart, i, acquired);
        OneMoreWinner(old(st), old(sent), i);
        if Calm(old(sent), sent) {
          OneMoreTaken(old(st), here, st, v, old(sent), i);
        }
        if ok {
          acquired := acquired + 1;
        }
      }
      WinnersAre(old(st), old(sent), n);
    }

    /** One `client.Eval` of the release script. */
    method SendCompareAndDelete(v: nat, k: nat)
      requires Valid() && InPhase(v, Releasing(k)) && k < n
      modifies this`st, this`trace, this`sent
      ensures Valid() && old(trace) <= trace && sent == old(sent) + 1 && old(st.now) <= st.now
      ensures InPhase(v, Releasing(k + 1))
      ensures forall i: nat | i < n && Holds(st, i, v) :: old(Holds(st, i, v))
      ensures env(old(sent)).fate.delivered ==> !Holds(st, k, v)
      ensures env(old(sent)).others == [] ==> st.now == old(st.now) && st.nodes == old(st.nodes)[k :=
                if old(Holds(st, k, v)) && env(old(sent)).fate.delivered then None else old(st.nodes[k])]
    {
      hide Run, Apply;
      Interleave(v);
      CompareAndDeleteEffect(st, v, env(sent).fate.delivered, k);
      Emit(CompareAndDelete(v, env(sent).fate.delivered));
      sent := sent + 1;
    }

    /** `releaseInstance`: compare-and-delete on every node.  A node that ran the script does not hold `v`. */
    method ReleaseInstance(v: nat)
      requires Valid() && InPhase(v, Releasing(0))
      modifies this`st, this`trace, this`sent
      ensures Valid() && old(trace) <= trace && sent == old(sent) + n
      ensures InPhase(v, Released) && old(st.now) <= st.now
      ensures forall i: nat | i < n && env(old(sent) + i).fate.delivered :: !Holds(st, i, v)
      ensures Calm(old(sent), sent) ==> FreedUpTo(old(st), st, v, old(sent), n)
    {
      hide Run, FreedUpTo;
      NothingFreed(st, v, sent);
      for k := 0 to n
        invariant Valid() && old(trace) <= trace && sent == old(sent) + k && old(st.now) <= st.now
        invariant InPhase(v, Releasing(k))
        invariant forall i: nat | i < k && env(old(sent) + i).fate.delivered :: !Holds(st, i, v)
        invariant Calm(old(sent), sent) ==> FreedUpTo(old(st), st, v, old(sent), k)
      {
        ghost var here := st;
        SendCompareAndDelete(v, k);
        if Calm(old(sent), sent) {
          OneMoreFreed(old(st), here, st, v, old(sent), k);
        }
      }
      ghost var last := st;
      Emit(FinishRelease(v));
      assert forall i: nat | i < n :: Holds(st, i, v) == Holds(last, i, v);
      if Calm(old(sent), sent) {
        FreedSame(old(st), last, st, v, old(sent), n);
      }
    }

    /** What undisturbed scripts, numbered from `a`, make of the first `k` nodes: those that held `v` and got
        theirs are empty, and no other changes. */
    ghost predicate FreedUpTo(s: State, s': State, v: nat, a: nat, k: nat) {
      && k <= |s.nodes| == |s'.nodes| && s'.now == s.now
      && (forall i: nat | i < k ::
            s'.nodes[i] == if Holds(s, i, v) && env(a + i).fate.delivered then None else s.nodes[i])
      && (forall i: nat | k <= i < |s.nodes| :: s'.nodes[i] == s.nodes[i])
    }

    lemma NothingFreed(s: State, v: nat, a: nat)
      ensures FreedUpTo(s, s, v, a, 0)
    {
    }

    lemma OneMoreFreed(s: State, here: State, s': State, v: nat, a: nat, k: nat)
      requires FreedUpTo(s, here, v, a, k) && k < |s.nodes| && s'.now == here.now
      requires s'.nodes == here.nodes[k :=
                 if Holds(here, k, v) && env(a + k).fate.delivered then None else here.nodes[k]]
      ensures FreedUpTo(s, s', v, a, k + 1)
    {
    }

    lemma FreedSame(s: State, here: State, s': State, v: nat, a: nat, k: nat)
      requires FreedUpTo(s, here, v, a, k) && s'.now == here.now && s'.nodes == here.nodes
      ensures FreedUpTo(s, s', v, a, k)
    {
    }

    /** The end of a round: hand the lock out, give up, or go to sleep. */
    method EndRound(v: nat, t: int, acquired: nat, start: int, expires: int)
      requires Valid() && InPhase(v, Acquiring(t, n, acquired))
      requires st.sessions[v].started == start && st.sessions[v].expires == expires
      modifies this`st, this`trace
      ensures Valid() && old(trace) <= trace && st.now == old(st.now) && st.nodes == old(st.nodes)
      ensures InPhase(v, if acquired >= quorum then Held(t)
                         else if st.now - start > expires then Releasing(0) else Sleeping)
      ensures st.sessions[v] == old(st.sessions[v]).(phase := st.sessions[v].phase)
    {
      Emit(FinishRound(v));
    }

    /** The sleep between two rounds, before round `k`; waking up may take longer than asked for. */
    method SleepAndRetry(v: nat, ghost k: nat, ghost expires: int, ghost before: seq<Event>)
      requires Valid() && InPhase(v, Sleeping) && before <= trace && k > 0
      modifies this`st, this`trace
      ensures Valid() && old(trace) <= trace && old(st.now) + RETRY_MS <= st.now
      ensures InPhase(v, Acquiring(st.now, 0, 0)) && OpensRound(before, trace, v, expires, k)
      ensures st.sessions[v] == old(st.sessions[v]).(phase := st.sessions[v].phase)
    {
      Interleave(v);
      Emit(Tick(RETRY_MS));
      Emit(StartRound(v));
    }

    method BeginAcquire(v: nat, expires: int) returns (start: int)
      requires Valid() && v !in st.sessions && expires > 0
      modifies this`st, this`trace
      ensures Valid() && old(trace) <= trace && old(st.now) <= st.now == start
      ensures v in st.sessions && st.sessions[v] == Session(expires, st.now, Acquiring(st.now, 0, 0))
      ensures InPhase(v, Acquiring(st.now, 0, 0))
      ensures env(sent).others == [] ==> st.now == old(st.now) && st.nodes == old(st.nodes)
      ensures OpensRound(old(trace), trace, v, expires, 0)
    {
      Interleave(v);
      Emit(Begin(v, expires));
      start := st.now;
    }

    /** `run` goes on from `before` to the beginning of round `k`. */
    ghost predicate OpensRound(before: seq<Event>, run: seq<Event>, v: nat, expires: int, k: nat) {
      && before <= run && run != []
      && run[|run| - 1] == if k == 0 then Begin(v, expires) else StartRound(v)
    }

    /** `t` is round `k` of a call that came after `before`. */
    ghost predicate RoundOk(before: seq<Event>, run: seq<Event>, v: nat, expires: int, t: Round, k: nat) {
      && t.run <= run && OpensRound(before, t.run, v, expires, k)
      && t.at == Run(Init(n), t.run) && |t.at.nodes| == n
    }

    /** `tries` are the rounds of a call that came after `before`, in order, the first one beginning with
        command `first`, and the last one being over at command `next`. */
    ghost predicate RoundsOf(before: seq<Event>, run: seq<Event>, v: nat, expires: int, first: nat, tries: seq<Round>,
                             next: nat)
    {
      && tries != [] && tries[0].first == first && next == tries[|tries| - 1].first + n
      && (forall k | 0 < k < |tries| :: tries[k].first == tries[k - 1].first + n)
      && (forall k | 0 <= k < |tries| :: RoundOk(before, run, v, expires, tries[k], k))
    }

    lemma MoreRounds(before: seq<Event>, run: seq<Event>, v: nat, expires: int, first: nat, tries: seq<Round>,
                     next: nat, round: Round)
      requires tries == [] ==> next == first
      requires tries != [] ==> RoundsOf(before, run, v, expires, first, tries, next)
      requires RoundOk(before, run, v, expires, round, |tries|) && round.first == next
      ensures RoundsOf(before, run, v, expires, first, tries + [round], next + n)
    {
      hide RoundOk;
      var more := tries + [round];
      forall k | 0 <= k < |tries| ensures RoundOk(before, run, v, expires, more[k], k) {
        assert more[k] == tries[k];
      }
    }

    lemma RoundsLater(before: seq<Event>, run: seq<Event>, later: seq<Event>, v: nat, expires: int, first: nat,
                      tries: seq<Round>, next: nat)
      requires RoundsOf(before, run, v, expires, first, tries, next) && run <= later
      ensures RoundsOf(before, later, v, expires, first, tries, next)
    {
      hide RoundOk;
      forall k | 0 <= k < |tries| ensures RoundOk(before, later, v, expires, tries[k], k) {
        RoundLater(before, run, later, v, expires, tries[k], k);
      }
    }

    lemma RoundLater(before: seq<Event>, run: seq<Event>, later: seq<Event>, v: nat, expires: int, t: Round, k: nat)
      requires RoundOk(before, run, v, expires, t, k) && run <= later
      ensures RoundOk(before, later, v, expires, t, k)
    {
      hide Run, OpensRound;
    }

    /** An undisturbed round that wins a majority. */
    ghost predicate Decided(t: Round) {
      |t.at.nodes| == n && Calm(t.first, t.first + n) && 2 * |Winners(t.at, t.first, n)| > n
    }

    lemma DecidedIs(t: Round, acquired: nat)
      requires |t.at.nodes| == n
      requires Calm(t.first, t.first + n) ==>
                 acquired == |set i: nat | i < n && !Live(t.at, i) && Works(t.first + i)|
      ensures acquired < n / 2 + 1 ==> !Decided(t)
      ensures acquired >= n / 2 + 1 && Calm(t.first, t.first + n) ==> Decided(t)
    {
      WinnersAre(t.at, t.first, n);
    }

    /** The rounds before the last did not win undisturbed, and the last did if `won`, else not. */
    ghost predicate Outcomes(tries: seq<Round>, won: bool) {
      && tries != [] && (forall k | 0 <= k < |tries| - 1 :: !Decided(tries[k]))
      && var last := tries[|tries| - 1];
         if won then Calm(last.first, last.first + n) ==> Decided(last) else !Decided(last)
    }

    ghost predicate NoneDecided(tries: seq<Round>) {
      forall t | t in tries :: !Decided(t)
    }

    lemma NoRounds(before: seq<Event>, run: seq<Event>, v: nat, expires: int, first: nat, began: State)
      requires OpensRound(before, run, v, expires, 0) && began == Run(Init(n), run)
      ensures Going(before, run, v, expires, first, [], first, began)
    {
    }

    lemma LastRound(tries: seq<Round>, round: Round, won: bool)
      requires NoneDecided(tries)
      requires if won then Calm(round.first, round.first + n) ==> Decided(round) else !Decided(round)
      ensures Outcomes(tries + [round], won) && (!won ==> NoneDecided(tries + [round]))
    {
      hide Decided;
    }

    lemma AllTaken(s: State, began: State, s': State, v: nat, expires: int, a: nat)
      requires |s.nodes| == n && v in began.sessions && began.sessions[v].expires == expires
      requires Calm(a, a + n) && TakenUpTo(began, s', v, a, n)
      requires env(a).others == [] ==> began.now == s.now && began.nodes == s.nodes
      ensures |s'.nodes| >= n
      ensures forall i: nat | i < n ::
                s'.nodes[i] == if !Live(s, i) && env(a + i).fate.delivered then Some(Entry(v, s.now + expires))
                               else s.nodes[i]
    {
      if n > 0 {
        assert env(a).others == [];
        assert forall i: nat | i < n :: Live(s, i) == Live(began, i);
      }
    }

    lemma EveryRound(tries: seq<Round>, won: bool)
      requires Outcomes(tries, won) && forall k | 0 <= k < |tries| :: |tries[k].at.nodes| == n
      ensures forall k | 0 <= k < |tries| && Calm(tries[k].first, tries[k].first + n) ::
                (won && k == |tries| - 1 <==>
                  2 * |set i: nat | i < n && !Live(tries[k].at, i) && Works(tries[k].first + i)| > n)
    {
      hide Calm, Winners;
      forall k | 0 <= k < |tries| && Calm(tries[k].first, tries[k].first + n)
        ensures won && k == |tries| - 1 <==>
                  2 * |set i: nat | i < n && !Live(tries[k].at, i) && Works(tries[k].first + i)| > n
      {
        WinnersAre(tries[k].at, tries[k].first, n);
      }
    }

    lemma FirstRound(s: State, tries: seq<Round>, won: bool)
      requires Outcomes(tries, won) && |s.nodes| == n
      requires env(tries[0].first).others == [] ==> tries[0].at.now == s.now && tries[0].at.nodes == s.nodes
      ensures Calm(tries[0].first, tries[0].first + n)
              && 2 * |set i: nat | i < n && !Live(s, i) && Works(tries[0].first + i)| > n ==>
                won && |tries| == 1
    {
      var t := tries[0];
      WinnersAre(s, t.first, n);
      if Calm(t.first, t.first + n) && 2 * |Winners(s, t.first, n)| > n {
        var i: nat :| i in Winners(s, t.first, n);
        assert env(t.first).others == [];
        assert Winners(s, t.first, n) == Winners(t.at, t.first, n);
        assert Decided(t);
      }
    }

    /** A failed round leaves its entries behind, and a retry counts only nodes that are free: once half of the
        nodes hold the value itself, though by SETNXs whose replies were lost or that were too few, no
        undisturbed retry hands out the lock before such an entry expires. */
    lemma OwnEntriesBlockRetry(t: Round, v: nat)
      requires |t.at.nodes| == n
      requires 2 * |set i: nat | i < n && Holds(t.at, i, v)| >= n
      ensures 2 * |set i: nat | i < n && !Live(t.at, i) && Works(t.first + i)| <= n
    {
      var ours := set i: nat | i < n && Holds(t.at, i, v);
      var free := set i: nat | i < n && !Live(t.at, i) && Works(t.first + i);
      assert ours !! free;
      assert |ours + free| == |ours| + |free|;
      BelowCard(ours + free, n);
    }

    /** Acquire: rounds over all nodes until a majority of one round is ours or `expires` has passed.
        A lock that is handed out starts its window no earlier than the call.  An undisturbed round hands it
        out exactly when a majority of nodes was free and confirmed, be it the first round or a retry.  When
        the call gives up, no node that ran the script holds the value; and the number of rounds is bounded
        because each retry sleeps. */
    method Acquire(v: nat, expires: int)
      returns (lock: Option<Lock>, rounds: nat, ghost cleanup: nat, ghost tries: seq<Round>)
      requires Valid() && v !in st.sessions && expires > 0
      modifies this`st, this`trace, this`sent
      ensures Valid() && old(trace) <= trace
      ensures lock.Some? ==>
                && lock.value == Lock(v, expires)
                && v in st.sessions && st.sessions[v].expires == expires && st.sessions[v].phase.Held?
                && old(st.now) <= st.sessions[v].phase.since <= st.now
      ensures lock.None? ==>
                && InPhase(v, Released) && st.now - old(st.now) > expires && sent == cleanup + n
                && forall i: nat | i < n && env(cleanup + i).fate.delivered :: !Holds(st, i, v)
      ensures 1 <= rounds <= expires / 5 + 2
      ensures Calm(old(sent), old(sent) + n)
              && 2 * |set i: nat | i < n && !Live(old(st), i) && Works(old(sent) + i)| > n ==>
                lock.Some? && rounds == 1 && sent == old(sent) + n
      ensures Calm(old(sent), sent) && lock.Some? && rounds == 1 ==>
                forall i: nat | i < n ::
                  st.nodes[i] == if !Live(old(st), i) && env(old(sent) + i).fate.delivered
                                 then Some(Entry(v, old(st.now) + expires)) else old(st.nodes[i])
      ensures |tries| == rounds && RoundsOf(old(trace), trace, v, expires, old(sent), tries, cleanup)
      ensures lock.Some? ==> st.sessions[v].phase.since == tries[rounds - 1].at.now
      ensures forall k | 0 <= k < rounds && Calm(tries[k].first, tries[k].first + n) ::
                (lock.Some? && k == rounds - 1 <==>
                  2 * |set i: nat | i < n && !Live(tries[k].at, i) && Works(tries[k].first + i)| > n)
    {
      hide Run, Apply, Holds, Decided, Winners, Outcomes, Calm, Works;
      ghost var began;
      lock, rounds, cleanup, tries, began := AcquireRounds(v, expires);
      RoundsBound(rounds, expires);
      EveryRound(tries, lock.Some?);
      FirstRound(old(st), tries, lock.Some?);
      if Calm(old(sent), sent) && lock.Some? && rounds == 1 {
        AllTaken(old(st), began, st, v, expires, old(sent));
      }
    }

    /** The rounds `tries`, none of which won undisturbed, are over, and the next one is about to begin. */
    ghost predicate Going(before: seq<Event>, run: seq<Event>, v: nat, expires: int, first: nat, tries: seq<Round>,
                          next: nat, began: State)
    {
      && OpensRound(before, run, v, expires, |tries|) && NoneDecided(tries)
      && if tries == [] then next == first && began == Run(Init(n), run)
         else RoundsOf(before, run, v, expires, first, tries, next) && tries[0].at == began
    }

    /** The rounds are over, with that outcome of the last one. */
    ghost predicate Over(before: seq<Event>, run: seq<Event>, v: nat, expires: int, first: nat, tries: seq<Round>,
                         next: nat, began: State, won: bool)
    {
      && RoundsOf(before, run, v, expires, first, tries, next) && tries[0].at == began
      && Outcomes(tries, won) && (!won ==> NoneDecided(tries))
    }

    lemma RoundOver(before: seq<Event>, run: seq<Event>, later: seq<Event>, v: nat, expires: int, first: nat,
                    tries: seq<Round>, began: State, round: Round, acquired: nat)
      requires Going(before, run, v, expires, first, tries, round.first, began) && run <= later
      requires round.run == run && round.at == Run(Init(n), run) && |round.at.nodes| == n
      requires Calm(round.first, round.first + n) ==>
                 acquired == |set i: nat | i < n && !Live(round.at, i) && Works(round.first + i)|
      ensures Over(before, later, v, expires, first, tries + [round], round.first + n, began, acquired >= n / 2 + 1)
    {
      hide Run, OpensRound, RoundsOf, NoneDecided, Outcomes, Decided;
      MoreRounds(before, run, v, expires, first, tries, round.first, round);
      RoundsLater(before, run, later, v, expires, first, tries + [round], round.first + n);
      DecidedIs(round, acquired);
      LastRound(tries, round, acquired >= n / 2 + 1);
    }

    /** One round: `late` says that time is up. */
    method TryRound(v: nat, start: int, expires: int, ghost before: seq<Event>, ghost first: nat,
                    ghost tries: seq<Round>, ghost began: State)
      returns (won: bool, late: bool, ghost round: Round)
      requires Valid() && InPhase(v, Acquiring(st.now, 0, 0))
      requires Going(before, trace, v, expires, first, tries, sent, began)
      requires st.sessions[v].started == start && st.sessions[v].expires == expires
      modifies this`st, this`trace, this`sent
      ensures Valid() && old(trace) <= trace && old(st.now) <= st.now && sent == old(sent) + n
      ensures late == (st.now - start > expires)
      ensures InPhase(v, if won then Held(old(st.now)) else if late then Releasing(0) else Sleeping)
      ensures st.sessions[v] == old(st.sessions[v]).(phase := st.sessions[v].phase)
      ensures v in st.sessions && (won ==> st.sessions[v].phase == Held(old(st.now)))
      ensures Over(before, trace, v, expires, first, tries + [round], sent, began, won)
      ensures round.at.now == old(st.now)
      ensures Calm(old(sent), sent) ==> TakenUpTo(old(st), st, v, old(sent), n)
    {
      hide Run, Apply, Going, Over;
      round := Round(trace, st, sent);
      var roundStart := st.now;
      var acquired := AcquireInstance(v, roundStart);
      late := st.now - start > expires;
      EndRound(v, roundStart, acquired, start, expires);
      RoundOver(before, round.run, trace, v, expires, first, tries, began, round, acquired);
      won := acquired >= quorum;
    }

    /** No node that received its script, numbered from `a`, holds `v`. */
    ghost predicate Cleaned(v: nat, a: nat)
      reads this
    {
      |st.nodes| == n && forall i: nat | i < n && env(a + i).fate.delivered :: !Holds(st, i, v)
    }

    /** The end of a call whose time is up. */
    method GiveUp(v: nat, expires: int, ghost before: seq<Event>, ghost first: nat, ghost tries: seq<Round>,
                  ghost began: State)
      requires Valid() && InPhase(v, Releasing(0))
      requires Over(before, trace, v, expires, first, tries, sent, began, false)
      modifies this`st, this`trace, this`sent
      ensures Valid() && old(trace) <= trace && old(st.now) <= st.now && InPhase(v, Released) && sent == old(sent) + n
      ensures Over(before, trace, v, expires, first, tries, old(sent), began, false)
      ensures Cleaned(v, old(sent))
    {
      hide Run, RoundsOf, Outcomes, NoneDecided;
      ReleaseInstance(v);
      RoundsLater(before, old(trace), trace, v, expires, first, tries, old(sent));
    }

    method Retry(v: nat, expires: int, ghost before: seq<Event>, ghost first: nat, ghost tries: seq<Round>,
                 ghost began: State)
      requires Valid() && InPhase(v, Sleeping) && before <= trace && tries != []
      requires Over(before, trace, v, expires, first, tries, sent, began, false)
      modifies this`st, this`trace
      ensures Valid() && old(trace) <= trace && old(st.now) + RETRY_MS <= st.now
      ensures InPhase(v, Acquiring(st.now, 0, 0)) && v in st.sessions
      ensures st.sessions[v] == old(st.sessions[v]).(phase := st.sessions[v].phase)
      ensures Going(before, trace, v, expires, first, tries, sent, began)
    {
      hide Run, RoundsOf, Outcomes, NoneDecided, OpensRound;
      SleepAndRetry(v, |tries|, expires, before);
      RoundsLater(before, old(trace), trace, v, expires, first, tries, sent);
    }

    /** The loop. */
    method AcquireRounds(v: nat, expires: int)
      returns (lock: Option<Lock>, rounds: nat, ghost cleanup: nat, ghost tries: seq<Round>, ghost began: State)
      requires Valid() && v !in st.sessions && expires > 0
      modifies this`st, this`trace, this`sent
      ensures Valid() && old(trace) <= trace
      ensures lock.Some? ==>
                && lock.value == Lock(v, expires) && sent == cleanup
                && v in st.sessions && st.sessions[v].expires == expires && st.sessions[v].phase.Held?
                && old(st.now) <= st.sessions[v].phase.since <= st.now
      ensures lock.None? ==>
                && InPhase(v, Released) && st.now - old(st.now) > expires && sent == cleanup + n
                && Cleaned(v, cleanup)
      ensures |tries| == rounds >= 1 && RETRY_MS * (rounds - 2) <= expires
      ensures Over(old(trace), trace, v, expires, old(sent), tries, cleanup, began, lock.Some?)
      ensures env(old(sent)).others == [] ==> began.now == old(st.now) && began.nodes == old(st.nodes)
      ensures lock.Some? ==> st.sessions[v].phase.since == tries[rounds - 1].at.now
      ensures lock.Some? && rounds == 1 && Calm(old(sent), sent) ==>
                TakenUpTo(began, st, v, old(sent), n) && began.sessions[v].expires == expires
    {
      hide Valid, Run, Apply, Holds, Going, Over, InPhase, Cleaned, OpensRound, Calm, TakenUpTo;
      var start := BeginAcquire(v, expires);
      began := st;
      rounds := 0;
      tries := [];
      NoRounds(old(trace), trace, v, expires, sent, st);
      while true
        invariant Valid() && old(trace) <= trace && old(st.now) <= start && start + RETRY_MS * rounds <= st.now
        invariant InPhase(v, Acquiring(st.now, 0, 0))
        invariant v in st.sessions && st.sessions[v].expires == expires && st.sessions[v].started == start
        invariant |tries| == rounds && (rounds > 0 ==> RETRY_MS * (rounds - 1) <= expires)
        invariant Going(old(trace), trace, v, expires, old(sent), tries, sent, began)
        invariant v in began.sessions && began.sessions[v].expires == expires
        invariant rounds == 0 ==> st == began && sent == old(sent)
        decreases expires + RETRY_MS - RETRY_MS * rounds
      {
        var won, late, round := TryRound(v, start, expires, old(trace), old(sent), tries, began);
        tries := tries + [round];
        rounds := rounds + 1;
        cleanup := sent;
        if won {
          return Some(Lock(v, expires)), rounds, cleanup, tries, began;
        }
        if late {
          GiveUp(v, expires, old(trace), old(sent), tries, began);
          return None, rounds, cleanup, tries, began;
        }
        Retry(v, expires, old(trace), old(sent), tries, began);
      }
    }

    method Release(lock: Lock)
      requires Valid() && lock.value in st.sessions && st.sessions[lock.value].phase.Held?
      modifies this`st, this`trace, this`sent
      ensures Valid() && old(trace) <= trace
      ensures InPhase(lock.value, Released) && sent == old(sent) + n
      ensures forall i: nat | i < n && env(old(sent) + i).fate.delivered :: !Holds(st, i, lock.value)
      ensures Calm(old(sent), sent) ==>
                forall i: nat | i < n ::
                  st.nodes[i] == if old(Holds(st, i, lock.value)) && env(old(sent) + i).fate.delivered then None
                                 else old(st.nodes[i])
    {
      Emit(BeginRelease(lock.value));
      ReleaseInstance(lock.value);
    }

    /** `client.Get(...)` and its comparison with our value. */
    method SendGet(v: nat, i: nat) returns (mine: bool)
      requires Valid() && i < n && v in st.sessions && st.sessions[v].phase.Extending?
      requires st.sessions[v].phase.next == i && !st.sessions[v].phase.seen
      modifies this`st, this`trace, this`sent
      ensures Valid() && old(trace) <= trace && old(st.now) <= st.now && v in st.sessions
      ensures st.sessions[v] == old(st.sessions[v]).(phase := st.sessions[v].phase)
      ensures st.sessions[v].phase == if mine then old(st.sessions[v].phase).(seen := true)
                                      else old(st.sessions[v].phase).(next := i + 1)
      ensures sent == old(sent) + 1
      ensures env(old(sent)).others == [] ==>
                && st.now == old(st.now) && st.nodes == old(st.nodes)
                && mine == (env(old(sent)).fate.answered && Holds(st, i, v))
    {
      Interleave(v);
      mine := env(sent).fate.answered && Holds(st, i, v);
      Emit(ExtendGet(v, env(sent).fate.answered));
      sent := sent + 1;
    }

    /** `client.Expire(...)`; as in the source only the error matters, not whether a key was there. */
    method SendExpire(v: nat, i: nat) returns (ok: bool)
      requires Valid() && i < n && v in st.sessions && st.sessions[v].phase.Extending?
      requires st.sessions[v].phase.next == i && st.sessions[v].phase.seen
      modifies this`st, this`trace, this`sent
      ensures Valid() && old(trace) <= trace && old(st.now) <= st.now && v in st.sessions
      ensures st.sessions[v] == old(st.sessions[v]).(phase := st.sessions[v].phase)
      ensures var p := old(st.sessions[v].phase);
              st.sessions[v].phase.Extending?
              && st.sessions[v].phase == p.(next := i + 1, seen := false,
                                            extended := if ok then p.extended + 1 else p.extended,
                                            late := st.sessions[v].phase.late)
      ensures sent == old(sent) + 1 && ok == Works(old(sent))
      ensures env(old(sent)).others == [] && old(Holds(st, i, v)) ==>
                && st.now == old(st.now)
                && st.nodes == if env(old(sent)).fate.delivered
                               then old(st.nodes)[i := Some(Entry(v, st.now + st.sessions[v].expires))]
                               else old(st.nodes)
    {
      Interleave(v);
      ok := env(sent).fate.delivered && env(sent).fate.answered;
      Emit(ExtendExpire(v, env(sent).fate));
      sent := sent + 1;
    }

    /** One node of Extend. */
    method ExtendInstance(v: nat, i: nat) returns (counted: bool)
      requires Valid() && i < n && v in st.sessions && st.sessions[v].phase.Extending?
      requires st.sessions[v].phase.next == i && !st.sessions[v].phase.seen
      modifies this`st, this`trace, this`sent
      ensures Valid() && old(trace) <= trace && old(st.now) <= st.now && v in st.sessions
      ensures old(sent) < sent <= old(sent) + 2
      ensures st.sessions[v] == old(st.sessions[v]).(phase := st.sessions[v].phase)
      ensures var p := old(st.sessions[v].phase);
              st.sessions[v].phase.Extending?
              && st.sessions[v].phase == p.(next := i + 1, extended := if counted then p.extended + 1 else p.extended,
                                            late := st.sessions[v].phase.late)
      ensures Calm(old(sent), sent) ==>
                && st.now == old(st.now) && sent == old(sent) + (if Seen(old(st), i, v, old(sent)) then 2 else 1)
                && counted == (Seen(old(st), i, v, old(sent)) && Works(old(sent) + 1))
                && st.nodes == old(st.nodes)[i := Renewed(old(st), i, v, old(sent))]
    {
      hide Run, Apply;
      counted := false;
      var mine := SendGet(v, i);
      if mine {
        counted := SendExpire(v, i);
      }
    }

    /** Extend: on success the window restarts no earlier than the call, otherwise it stays as it was.
        `gets` numbers the GETs of the nodes, and the end of the call.  Undisturbed, whatever commands fail,
        it succeeds exactly when a majority of nodes hold the value and confirm their own GET and EXPIRE; and
        each node that holds it, answers its GET and receives its EXPIRE is renewed, and no other. */
    method Extend(lock: Lock) returns (ok: bool, ghost gets: seq<nat>)
      requires Valid() && lock.value in st.sessions && st.sessions[lock.value].phase.Held?
      modifies this`st, this`trace, this`sent
      ensures Valid() && old(trace) <= trace
      ensures lock.value in st.sessions && st.sessions[lock.value].phase.Held?
      ensures st.sessions[lock.value].expires == old(st.sessions[lock.value].expires)
      ensures ok ==> old(st.now) <= st.sessions[lock.value].phase.since <= st.now
      ensures !ok ==> st.sessions[lock.value] == old(st.sessions[lock.value])
      ensures |gets| == n + 1 && gets[0] == old(sent) && gets[n] == sent
      ensures Calm(old(sent), sent) ==>
                && st.now == old(st.now)
                && (forall i: nat | i < n ::
                      gets[i + 1] == gets[i]
                        + if Holds(old(st), i, lock.value) && env(gets[i]).fate.answered then 2 else 1)
                && (ok <==> 2 * |set i: nat | i < n && Holds(old(st), i, lock.value) && env(gets[i]).fate.answered
                                              && Works(gets[i] + 1)| > n)
                && (forall i: nat | i < n ::
                      st.nodes[i] == if Holds(old(st), i, lock.value) && env(gets[i]).fate.answered
                                        && env(gets[i] + 1).fate.delivered
                                     then Some(Entry(lock.value, st.now + st.sessions[lock.value].expires))
                                     else old(st.nodes[i]))
    {
      hide Run, Apply, Calm, Halfway, Holds, Works;
      var v := lock.value;
      var extended;
      extended, gets := ExtendAll(v);
      if Calm(old(sent), sent) {
        HalfwayEnds(old(st), st, v, gets, extended);
      }
      ok := FinishExtending(v, extended);
    }

    method FinishExtending(v: nat, extended: nat) returns (ok: bool)
      requires Valid() && v in st.sessions && st.sessions[v].phase.Extending?
      requires st.sessions[v].phase.next == n && st.sessions[v].phase.extended == extended
      modifies this`st, this`trace
      ensures Valid() && old(trace) <= trace && st.now == old(st.now) && st.nodes == old(st.nodes)
      ensures ok == (2 * extended > n) && v in st.sessions
      ensures var p := old(st.sessions[v].phase);
              st.sessions[v] == old(st.sessions[v]).(phase := Held(if ok then p.extendStart else p.since))
    {
      hide Run;
      Emit(FinishExtend(v));
      ok := extended >= quorum;
    }

    lemma ExtendBegins(s: State, v: nat)
      requires v in s.sessions && s.sessions[v].phase.Held?
      ensures Apply(s, BeginExtend(v))
           == SetPhase(s, v, Extending(s.sessions[v].phase.since, s.now, 0, 0, false, 0))
    {
    }

    /** The loop over the nodes. */
    method ExtendAll(v: nat) returns (extended: nat, ghost gets: seq<nat>)
      requires Valid() && v in st.sessions && st.sessions[v].phase.Held?
      modifies this`st, this`trace, this`sent
      ensures Valid() && old(trace) <= trace && old(st.now) <= st.now && v in st.sessions
      ensures st.sessions[v].phase.Extending?
      ensures st.sessions[v].phase == Extending(old(st.sessions[v].phase.since), old(st.now), n, extended, false,
                                                st.sessions[v].phase.late)
      ensures st.sessions[v] == old(st.sessions[v]).(phase := st.sessions[v].phase)
      ensures |gets| == n + 1 && gets[0] == old(sent) && gets[n] == sent
      ensures Calm(old(sent), sent) ==> Halfway(old(st), st, v, gets, n, extended)
    {
      hide Run, Apply, Confirmed, Seen, Renewed, Holds, Live, Halfway, Works;
      extended := 0;
      gets := [sent];
      ExtendBegins(st, v);
      Emit(BeginExtend(v));
      HalfwayBegins(old(st), st, v, sent);
      for i := 0 to n
        invariant Valid() && old(trace) <= trace && old(st.now) <= st.now
        invariant v in st.sessions && st.sessions[v].phase.Extending?
        invariant InPhase(v, Extending(old(st.sessions[v].phase.since), old(st.now), i, extended, false,
                                       st.sessions[v].phase.late))
        invariant |gets| == i + 1 && gets[0] == old(sent) && gets[i] == sent && old(sent) <= sent
        invariant Calm(old(sent), sent) ==> Halfway(old(st), st, v, gets, i, extended)
        invariant st.sessions[v] == old(st.sessions[v]).(phase := st.sessions[v].phase)
      {
        ghost var here := st;
        var counted := ExtendInstance(v, i);
        if counted {
          extended := extended + 1;
        }
        if Calm(old(sent), sent) {
          HalfwayGoesOn(old(st), here, st, v, gets, i, if counted then extended - 1 else extended, counted, sent);
        }
        gets := gets + [sent];
      }
    }
  }

  lemma {:induction false} BelowCard(s: set<nat>, n: nat)
    requires forall i | i in s :: i < n
    ensures |s| <= n
  {
    if n == 0 {
      assert s == {};
    } else {
      BelowCard(s - {n - 1}, n - 1);
      assert s <= (s - {n - 1}) + {n - 1};
    }
  }

  lemma SetNXEffect(s: State, v: nat, fate: Fate, t: int, i: nat, acquired: nat)
    requires v in s.sessions && s.sessions[v].phase == Acquiring(t, i, acquired) && i < |s.nodes|
    ensures var s' := Apply(s, SetNX(v, fate));
            var ok := fate.delivered && fate.answered && !Live(s, i);
            && s'.now == s.now && |s'.nodes| == |s.nodes| && v in s'.sessions
            && s'.sessions[v] == s.sessions[v].(phase := Acquiring(t, i + 1, if ok then acquired + 1 else acquired))
            && s'.nodes == if !Live(s, i) && fate.delivered
                           then s.nodes[i := Some(Entry(v, s.now + s.sessions[v].expires))] else s.nodes
  {
  }

  lemma CompareAndDeleteEffect(s: State, v: nat, delivered: bool, k: nat)
    requires v in s.sessions && s.sessions[v].phase == Releasing(k) && k < |s.nodes|
    ensures var s' := Apply(s, CompareAndDelete(v, delivered));
            && s'.now == s.now && |s'.nodes| == |s.nodes| && v in s'.sessions
            && s'.sessions[v].phase == Releasing(k + 1) && (delivered ==> !Holds(s', k, v))
            && s'.nodes == s.nodes[k := if Holds(s, k, v) && delivered then None else s.nodes[k]]
            && forall i: nat | i < |s.nodes| && Holds(s', i, v) :: Holds(s, i, v)
  {
  }

  lemma RoundsBound(rounds: nat, expires: int)
    requires RETRY_MS * (rounds - 2) <= expires
    ensures rounds <= expires / RETRY_MS + 2
  {
  }

  /** Two clients of the same nodes never both come out of their calls inside their windows, in any
      run that the methods above record, as long as neither is hurt by a late EXPIRE. */
  lemma HandlesExclude(r: Redlock, v: nat, w: nat)
    requires r.Valid() && CarefulRun(Init(r.n), r.trace, v) && CarefulRun(Init(r.n), r.trace, w)
    requires InWindow(r.st, v) && InWindow(r.st, w)
    ensures v == w
  {
    MutualExclusion(r.n, r.trace, v, w);
  }
}
