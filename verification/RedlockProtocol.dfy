/**
 The quorum lock of internal/shared/db/redis_lock.go for one key, as a state machine over its
 single-node commands.  Any number of lock attempts, each with its own value, send commands to
 the same nodes; commands of different attempts interleave freely and the clock moves between
 any two of them.  A command may be lost before it reaches the node, or be carried out with its
 reply lost.
 */
module RedlockProtocol {
  import opened Options
  import opened Sets

  /** What a node stores under the key.  The entry is gone once the clock reaches its deadline. */
  datatype Entry = Entry(value: nat, deadline: int)

  /** Where one attempt stands; `next` is the index of the client its loop handles next.  `late` is history
      only: how many of the `extended` replies stand for an EXPIRE that did not find the attempt's value. */
  datatype Phase =
    | Acquiring(roundStart: int, next: nat, acquired: nat)
    | Sleeping
    | Held(since: int)
    | Extending(since: int, extendStart: int, next: nat, extended: nat, seen: bool, late: nat)
    | Releasing(next: nat)
    | Released

  datatype Session = Session(expires: int, started: int, phase: Phase)

  datatype State = State(now: int, nodes: seq<Option<Entry>>, sessions: map<nat, Session>)

  /** The fate of one command: did the node run it, and did the reply come back? */
  datatype Fate = Fate(delivered: bool, answered: bool)

  datatype Event =
    | Tick(d: nat)
    | Begin(who: nat, expires: int)
    | SetNX(who: nat, fate: Fate)
    | FinishRound(who: nat)
    | StartRound(who: nat)
    | BeginExtend(who: nat)
    | ExtendGet(who: nat, answered: bool)
    | ExtendExpire(who: nat, fate: Fate)
    | FinishExtend(who: nat)
    | BeginRelease(who: nat)
    | CompareAndDelete(who: nat, delivered: bool)
    | FinishRelease(who: nat)

  function Init(n: nat): State {
    State(0, seq(n, _ => None), map[])
  }

  function Quorum(n: nat): nat {
    n / 2 + 1
  }

  predicate Live(s: State, i: nat)
    requires i < |s.nodes|
  {
    s.nodes[i].Some? && s.now < s.nodes[i].value.deadline
  }

  /** GET on node `i` returns `v`. */
  predicate Holds(s: State, i: nat, v: nat)
    requires i < |s.nodes|
  {
    Live(s, i) && s.nodes[i].value.value == v
  }

  function SetPhase(s: State, v: nat, p: Phase): State
    requires v in s.sessions
  {
    s.(sessions := s.sessions[v := s.sessions[v].(phase := p)])
  }

  function DoSetNX(s: State, v: nat, fate: Fate): State
    requires v in s.sessions && s.sessions[v].phase.Acquiring?
  {
    var p := s.sessions[v].phase;
    if p.next >= |s.nodes| then s else
    var done := fate.delivered && !Live(s, p.next);
    var nodes := if done then s.nodes[p.next := Some(Entry(v, s.now + s.sessions[v].expires))] else s.nodes;
    var count := if done && fate.answered then p.acquired + 1 else p.acquired;
    SetPhase(s.(nodes := nodes), v, p.(next := p.next + 1, acquired := count))
  }

  function DoFinishRound(s: State, v: nat): State
    requires v in s.sessions && s.sessions[v].phase.Acquiring?
  {
    var p := s.sessions[v].phase;
    if p.next < |s.nodes| then s
    else if p.acquired >= Quorum(|s.nodes|) then SetPhase(s, v, Held(p.roundStart))
    else if s.now - s.sessions[v].started > s.sessions[v].expires then SetPhase(s, v, Releasing(0))
    else SetPhase(s, v, Sleeping)
  }

  function DoExtendGet(s: State, v: nat, answered: bool): State
    requires v in s.sessions && s.sessions[v].phase.Extending?
  {
    var p := s.sessions[v].phase;
    if p.next >= |s.nodes| || p.seen then s
    else if answered && Holds(s, p.next, v) then SetPhase(s, v, p.(seen := true))
    else SetPhase(s, v, p.(next := p.next + 1))
  }

  /** EXPIRE moves the deadline of whatever entry is there; its error-free reply counts even when
      there was none, because the source looks only at the error. */
  function DoExtendExpire(s: State, v: nat, fate: Fate): State
    requires v in s.sessions && s.sessions[v].phase.Extending?
  {
    var p := s.sessions[v].phase;
    if p.next >= |s.nodes| || !p.seen then s else
    var nodes := if fate.delivered && Live(s, p.next)
                 then s.nodes[p.next := Some(s.nodes[p.next].value.(deadline := s.now + s.sessions[v].expires))]
                 else s.nodes;
    var counted := if fate.delivered && fate.answered then 1 else 0;
    var late := if Holds(s, p.next, v) then 0 else counted;
    SetPhase(s.(nodes := nodes), v,
             p.(next := p.next + 1, extended := p.extended + counted, seen := false, late := p.late + late))
  }

  function DoFinishExtend(s: State, v: nat): State
    requires v in s.sessions && s.sessions[v].phase.Extending?
  {
    var p := s.sessions[v].phase;
    if p.next < |s.nodes| then s
    else SetPhase(s, v, Held(if p.extended >= Quorum(|s.nodes|) then p.extendStart else p.since))
  }

  function DoCompareAndDelete(s: State, v: nat, delivered: bool): State
    requires v in s.sessions && s.sessions[v].phase.Releasing?
  {
    var k := s.sessions[v].phase.next;
    if k >= |s.nodes| then s else
    var nodes := if delivered && Holds(s, k, v) then s.nodes[k := None] else s.nodes;
    SetPhase(s.(nodes := nodes), v, Releasing(k + 1))
  }

  /** One step.  An event that is not possible in `s` leaves `s` alone. */
  function Apply(s: State, e: Event): State {
    match e
    case Tick(d) => s.(now := s.now + d)
    case Begin(v, expires) =>
      if v in s.sessions || expires <= 0 then s
      else s.(sessions := s.sessions[v := Session(expires, s.now, Acquiring(s.now, 0, 0))])
    case SetNX(v, fate) => if v in s.sessions && s.sessions[v].phase.Acquiring? then DoSetNX(s, v, fate) else s
    case FinishRound(v) => if v in s.sessions && s.sessions[v].phase.Acquiring? then DoFinishRound(s, v) else s
    case StartRound(v) =>
      if v in s.sessions && s.sessions[v].phase.Sleeping? then SetPhase(s, v, Acquiring(s.now, 0, 0)) else s
    case BeginExtend(v) =>
      if v in s.sessions && s.sessions[v].phase.Held?
      then SetPhase(s, v, Extending(s.sessions[v].phase.since, s.now, 0, 0, false, 0)) else s
    case ExtendGet(v, answered) =>
      if v in s.sessions && s.sessions[v].phase.Extending? then DoExtendGet(s, v, answered) else s
    case ExtendExpire(v, fate) =>
      if v in s.sessions && s.sessions[v].phase.Extending? then DoExtendExpire(s, v, fate) else s
    case FinishExtend(v) => if v in s.sessions && s.sessions[v].phase.Extending? then DoFinishExtend(s, v) else s
    case BeginRelease(v) => if v in s.sessions && s.sessions[v].phase.Held? then SetPhase(s, v, Releasing(0)) else s
    case CompareAndDelete(v, delivered) =>
      if v in s.sessions && s.sessions[v].phase.Releasing? then DoCompareAndDelete(s, v, delivered) else s
    case FinishRelease(v) =>
      if v in s.sessions && s.sessions[v].phase.Releasing? && s.sessions[v].phase.next >= |s.nodes|
      then SetPhase(s, v, Released) else s
  }

  function Run(s: State, es: seq<Event>): State {
    if es == [] then s else Apply(Run(s, es[..|es| - 1]), es[|es| - 1])
  }

  /** An EXPIRE is carried out, on the node whose turn it is in the attempt's `Extend`. */
  predicate Expires(s: State, e: Event) {
    && e.ExtendExpire? && e.fate.delivered && e.who in s.sessions && s.sessions[e.who].phase.Extending?
    && s.sessions[e.who].phase.seen && s.sessions[e.who].phase.next < |s.nodes|
  }

  /** EXPIRE is on time when the entry that the preceding GET saw is still there.  The source sends
      GET and EXPIRE as two commands and so does not ensure this. */
  predicate Timely(s: State, e: Event) {
    Expires(s, e) ==> Holds(s, s.sessions[e.who].phase.next, e.who)
  }

  predicate TimelyRun(s: State, es: seq<Event>) {
    es == [] || (TimelyRun(s, es[..|es| - 1]) && Timely(Run(s, es[..|es| - 1]), es[|es| - 1]))
  }

  /** No EXPIRE moves the deadline of another attempt's entry. */
  predicate MovesOnlyOwn(s: State, e: Event) {
    Expires(s, e) && Live(s, s.sessions[e.who].phase.next)
    ==> s.nodes[s.sessions[e.who].phase.next].value.value == e.who
  }

  /** What the exclusion of `v` asks of the others: an EXPIRE that finds the entry of `v` comes from an
      attempt that expires no sooner than `v`.  Late EXPIREs that find nothing, that find the entry of
      a third attempt, or that give `v` a later deadline, are harmless. */
  predicate Spares(s: State, e: Event, v: nat) {
    Expires(s, e) && e.who != v && v in s.sessions && Holds(s, s.sessions[e.who].phase.next, v)
    ==> s.sessions[v].expires <= s.sessions[e.who].expires
  }

  /** What it asks of `v`: an `Extend` of its own that succeeds counted a majority of EXPIREs that found
      its value. */
  predicate Earns(s: State, e: Event, v: nat) {
    e == FinishExtend(v) && v in s.sessions && s.sessions[v].phase.Extending?
    && s.sessions[v].phase.next >= |s.nodes| && s.sessions[v].phase.extended >= Quorum(|s.nodes|)
    ==> s.sessions[v].phase.extended - s.sessions[v].phase.late >= Quorum(|s.nodes|)
  }

  predicate SparedRun(s: State, es: seq<Event>, v: nat) {
    es == [] || (SparedRun(s, es[..|es| - 1], v) && Spares(Run(s, es[..|es| - 1]), es[|es| - 1], v))
  }

  predicate EarnedRun(s: State, es: seq<Event>, v: nat) {
    es == [] || (EarnedRun(s, es[..|es| - 1], v) && Earns(Run(s, es[..|es| - 1]), es[|es| - 1], v))
  }

  predicate CarefulRun(s: State, es: seq<Event>, v: nat) {
    SparedRun(s, es, v) && EarnedRun(s, es, v)
  }

  /** The handle with value `v` is out, not yet being released, and inside its window. */
  predicate InWindow(s: State, v: nat) {
    && v in s.sessions
    && (s.sessions[v].phase.Held? || s.sessions[v].phase.Extending?)
    && s.now < s.sessions[v].phase.since + s.sessions[v].expires
  }

  /*---------------------------------- the invariant ----------------------------------*/

  predicate Backs(entry: Option<Entry>, v: nat, t: int) {
    entry.Some? && entry.value.value == v && t <= entry.value.deadline
  }

  /** The nodes below `k` that keep `v` at least until `t`. */
  function Backers(s: State, v: nat, t: int, k: nat): set<nat>
    requires k <= |s.nodes|
  {
    set i: nat | i < k && Backs(s.nodes[i], v, t)
  }

  /** As long as the clock is before `t`, at least `count` of the first `k` nodes keep `v` until `t`. */
  ghost predicate BackedUntil(s: State, v: nat, t: int, k: nat, count: nat)
    requires k <= |s.nodes|
  {
    s.now < t ==> count <= |Backers(s, v, t, k)|
  }

  ghost predicate SessionOk(s: State, v: nat)
    requires v in s.sessions
  {
    var E := s.sessions[v].expires;
    E > 0 &&
    match s.sessions[v].phase
    case Acquiring(t, k, a) => t <= s.now && k <= |s.nodes| && BackedUntil(s, v, t + E, k, a)
    case Held(t) => t <= s.now && BackedUntil(s, v, t + E, |s.nodes|, Quorum(|s.nodes|))
    case Extending(t, x, k, a, seen, late) =>
      && t <= x && BackedUntil(s, v, t + E, |s.nodes|, Quorum(|s.nodes|))
      && x <= s.now && k <= |s.nodes| && late <= a && BackedUntil(s, v, x + E, k, a - late)
    case _ => true
  }

  ghost predicate Inv(s: State, v: nat) {
    v in s.sessions ==> SessionOk(s, v)
  }

  predicate Frees(e: Event, v: nat) {
    e.CompareAndDelete? && e.who == v
  }

  /** A node that keeps `v` past the current time, for no longer than a fresh EXPIRE would, goes on doing
      so: no other attempt can overwrite, shorten or delete it. */
  lemma BackingKept(s: State, e: Event, v: nat, t: int, i: nat)
    requires v in s.sessions && Spares(s, e, v) && !Frees(e, v)
    requires s.now < t <= s.now + s.sessions[v].expires
    requires i < |s.nodes| && Backs(s.nodes[i], v, t)
    ensures |Apply(s, e).nodes| == |s.nodes| && Backs(Apply(s, e).nodes[i], v, t)
  {
  }

  lemma BackersKept(s: State, e: Event, v: nat, t: int, k: nat)
    requires v in s.sessions && Spares(s, e, v) && !Frees(e, v) && k <= |s.nodes|
    requires s.now < t <= s.now + s.sessions[v].expires
    ensures |Apply(s, e).nodes| == |s.nodes|
    ensures Backers(s, v, t, k) <= Backers(Apply(s, e), v, t, k)
    ensures |Backers(s, v, t, k)| <= |Backers(Apply(s, e), v, t, k)|
  {
    NodesStay(s, e);
    forall i: nat | i in Backers(s, v, t, k) ensures i in Backers(Apply(s, e), v, t, k) {
      BackingKept(s, e, v, t, i);
    }
    Subset(Backers(s, v, t, k), Backers(Apply(s, e), v, t, k));
  }

  lemma NodesStay(s: State, e: Event)
    ensures |Apply(s, e).nodes| == |s.nodes| && s.now <= Apply(s, e).now
  {
  }

  lemma BackedUntilKept(s: State, e: Event, v: nat, t: int, k: nat, count: nat)
    requires v in s.sessions && Spares(s, e, v) && !Frees(e, v) && t <= s.now + s.sessions[v].expires
    requires k <= |s.nodes| && BackedUntil(s, v, t, k, count)
    ensures |Apply(s, e).nodes| == |s.nodes| && BackedUntil(Apply(s, e), v, t, k, count)
  {
    NodesStay(s, e);
    if s.now < t {
      BackersKept(s, e, v, t, k);
    }
  }

  /** One more backer: the node just written joins those below it. */
  lemma OneMoreBacker(s: State, v: nat, t: int, k: nat)
    requires k < |s.nodes| && Backs(s.nodes[k], v, t)
    ensures |Backers(s, v, t, k + 1)| == |Backers(s, v, t, k)| + 1
  {
    assert Backers(s, v, t, k + 1) == Backers(s, v, t, k) + {k};
  }

  lemma BackersGrow(s: State, v: nat, t: int, k: nat)
    requires k < |s.nodes|
    ensures |Backers(s, v, t, k)| <= |Backers(s, v, t, k + 1)|
  {
    Subset(Backers(s, v, t, k), Backers(s, v, t, k + 1));
  }

  predicate ActorOf(e: Event, v: nat) {
    !e.Tick? && e.who == v
  }

  lemma SessionKept(s: State, e: Event, v: nat)
    requires Inv(s, v) && Spares(s, e, v) && v in s.sessions && !ActorOf(e, v)
    ensures var s' := Apply(s, e); v in s'.sessions && s'.sessions[v] == s.sessions[v] && SessionOk(s', v)
  {
    hide Spares, BackedUntil;
    NodesStay(s, e);
    OthersLeaveAttempt(s, e, v);
    hide Apply;
    var E := s.sessions[v].expires;
    match s.sessions[v].phase
    case Acquiring(t, k, a) => BackedUntilKept(s, e, v, t + E, k, a);
    case Held(t) => BackedUntilKept(s, e, v, t + E, |s.nodes|, Quorum(|s.nodes|));
    case Extending(t, x, k, a, seen, late) =>
      BackedUntilKept(s, e, v, t + E, |s.nodes|, Quorum(|s.nodes|));
      BackedUntilKept(s, e, v, x + E, k, a - late);
    case _ =>
  }

  lemma SetNXOk(s: State, v: nat, fate: Fate)
    requires Inv(s, v) && v in s.sessions && s.sessions[v].phase.Acquiring?
    ensures SessionOk(DoSetNX(s, v, fate), v)
  {
    var e := SetNX(v, fate);
    var s' := Apply(s, e);
    assert s' == DoSetNX(s, v, fate) && SessionOk(s, v);
    var p := s.sessions[v].phase;
    var t := p.roundStart + s.sessions[v].expires;
    if p.next < |s.nodes| && s.now < t {
      BackersKept(s, e, v, t, p.next);
      if s'.sessions[v].phase.acquired > p.acquired {
        OneMoreBacker(s', v, t, p.next);
      } else {
        BackersGrow(s', v, t, p.next);
      }
    }
  }

  lemma ExtendExpireOk(s: State, v: nat, fate: Fate)
    requires Inv(s, v) && v in s.sessions && s.sessions[v].phase.Extending?
    ensures SessionOk(DoExtendExpire(s, v, fate), v)
  {
    var e := ExtendExpire(v, fate);
    var s' := Apply(s, e);
    assert s' == DoExtendExpire(s, v, fate) && SessionOk(s, v);
    var p := s.sessions[v].phase;
    var E := s.sessions[v].expires;
    BackedUntilKept(s, e, v, p.since + E, |s.nodes|, Quorum(|s.nodes|));
    var t := p.extendStart + E;
    if p.next < |s.nodes| && p.seen && s.now < t {
      BackersKept(s, e, v, t, p.next);
      if s'.sessions[v].phase.extended - s'.sessions[v].phase.late > p.extended - p.late {
        OneMoreBacker(s', v, t, p.next);
      } else {
        BackersGrow(s', v, t, p.next);
      }
    }
  }

  lemma ExtendGetOk(s: State, v: nat, answered: bool)
    requires Inv(s, v) && v in s.sessions && s.sessions[v].phase.Extending?
    ensures SessionOk(DoExtendGet(s, v, answered), v)
  {
    var e := ExtendGet(v, answered);
    assert Apply(s, e) == DoExtendGet(s, v, answered) && SessionOk(s, v);
    var p := s.sessions[v].phase;
    var E := s.sessions[v].expires;
    BackedUntilKept(s, e, v, p.since + E, |s.nodes|, Quorum(|s.nodes|));
    BackedUntilKept(s, e, v, p.extendStart + E, p.next, p.extended - p.late);
    if p.next < |s.nodes| {
      BackersGrow(s, v, p.extendStart + E, p.next);
    }
  }

  lemma InvStep(s: State, e: Event, v: nat)
    requires Inv(s, v) && Spares(s, e, v) && Earns(s, e, v)
    ensures Inv(Apply(s, e), v) && |Apply(s, e).nodes| == |s.nodes|
  {
    NodesStay(s, e);
    if v in s.sessions && !ActorOf(e, v) {
      SessionKept(s, e, v);
    } else if v in s.sessions {
      assert SessionOk(s, v);
      match e
      case SetNX(_, fate) => if s.sessions[v].phase.Acquiring? { SetNXOk(s, v, fate); }
      case ExtendGet(_, answered) => if s.sessions[v].phase.Extending? { ExtendGetOk(s, v, answered); }
      case ExtendExpire(_, fate) => if s.sessions[v].phase.Extending? { ExtendExpireOk(s, v, fate); }
      case _ =>
    }
  }

  lemma {:induction false} InvRun(n: nat, es: seq<Event>, v: nat)
    requires CarefulRun(Init(n), es, v)
    ensures Inv(Run(Init(n), es), v) && |Run(Init(n), es).nodes| == n
  {
    if es == [] {
    } else {
      InvRun(n, es[..|es| - 1], v);
      InvStep(Run(Init(n), es[..|es| - 1]), es[|es| - 1], v);
    }
  }

  lemma RangeCard(a: set<nat>, n: nat)
    requires forall i | i in a :: i < n
    ensures |a| <= n
  {
    if n == 0 {
      assert a == {};
    } else {
      RangeCard(a - {n - 1}, n - 1);
      if n - 1 in a {
        assert |a - {n - 1}| == |a| - 1;
      } else {
        assert a - {n - 1} == a;
      }
    }
  }

  lemma QuorumsMeet(s: State, v: nat, t: int, w: nat, u: int)
    requires Quorum(|s.nodes|) <= |Backers(s, v, t, |s.nodes|)|
    requires Quorum(|s.nodes|) <= |Backers(s, w, u, |s.nodes|)|
    ensures v == w
  {
    if v != w {
      var a, b := Backers(s, v, t, |s.nodes|), Backers(s, w, u, |s.nodes|);
      assert a !! b;
      assert |a + b| == |a| + |b|;
      RangeCard(a + b, |s.nodes|);
    }
  }

  lemma InvExcludes(s: State, v: nat, w: nat)
    requires Inv(s, v) && Inv(s, w) && InWindow(s, v) && InWindow(s, w)
    ensures v == w
  {
    QuorumsMeet(s, v, s.sessions[v].phase.since + s.sessions[v].expires,
                w, s.sessions[w].phase.since + s.sessions[w].expires);
  }

  /** Mutual exclusion over every run: with any number of nodes, lost commands, lost replies,
      abandoned rounds and arbitrary interleaving, at most one unreleased handle is inside its
      window.  It asks only that the two attempts' own successful `Extend`s are not built on late EXPIREs, and
      that their entries are not cut short by an EXPIRE of an attempt that expires sooner. */
  lemma MutualExclusion(n: nat, es: seq<Event>, v: nat, w: nat)
    requires CarefulRun(Init(n), es, v) && CarefulRun(Init(n), es, w)
    requires InWindow(Run(Init(n), es), v) && InWindow(Run(Init(n), es), w)
    ensures v == w
  {
    InvRun(n, es, v);
    InvRun(n, es, w);
    InvExcludes(Run(Init(n), es), v, w);
  }

  /*---------------------------- the two commands of Extend ----------------------------*/

  /** The reply that `Extend` counts means what it is taken to mean - the node keeps the handle's
      value for another full period - exactly when EXPIRE was on time. */
  lemma CountedExpireBacksIffTimely(s: State, v: nat, fate: Fate)
    requires v in s.sessions && s.sessions[v].expires > 0 && s.sessions[v].phase.Extending?
    requires s.sessions[v].phase.seen && s.sessions[v].phase.next < |s.nodes| && fate.delivered && fate.answered
    ensures var p := s.sessions[v].phase;
            var s' := Apply(s, ExtendExpire(v, fate));
            && s'.sessions[v].phase.Extending? && s'.sessions[v].phase.extended == p.extended + 1
            && |s'.nodes| == |s.nodes|
            && (Backs(s'.nodes[p.next], v, s.now + s.sessions[v].expires) <==> Timely(s, ExtendExpire(v, fate)))
  {
  }

  predicate NoneBy(es: seq<Event>, v: nat) {
    forall i | 0 <= i < |es| :: !ActorOf(es[i], v)
  }

  lemma {:induction false} ClockNeverRunsBack(s: State, es: seq<Event>)
    ensures s.now <= Run(s, es).now
  {
    if es == [] {
    } else {
      ClockNeverRunsBack(s, es[..|es| - 1]);
    }
  }

  lemma {:induction false} OthersKeepBacking(s: State, es: seq<Event>, v: nat, t: int, i: nat)
    requires v in s.sessions && SparedRun(s, es, v) && NoneBy(es, v)
    requires i < |s.nodes| && Backs(s.nodes[i], v, t) && t <= s.now + s.sessions[v].expires
    ensures |Run(s, es).nodes| == |s.nodes| && s.now <= Run(s, es).now
    ensures v in Run(s, es).sessions && Run(s, es).sessions[v] == s.sessions[v]
    ensures Run(s, es).now < t ==> Backs(Run(s, es).nodes[i], v, t)
  {
    if es == [] {
    } else {
      var before, e := es[..|es| - 1], es[|es| - 1];
      OthersKeepBacking(s, before, v, t, i);
      OthersLeaveAttempt(Run(s, before), e, v);
      if Run(s, es).now < t { BackingKept(Run(s, before), e, v, t, i); }
    }
  }

  /** How long node `i` is sure to keep `v`: to its deadline, but no longer than a fresh EXPIRE of `v` would. */
  function SureUntil(s: State, i: nat, v: nat): int
    requires i < |s.nodes| && s.nodes[i].Some? && v in s.sessions
  {
    var deadline, most := s.nodes[i].value.deadline, s.now + s.sessions[v].expires;
    if deadline < most then deadline else most
  }

  /** A sufficient condition on the clock: if it has not reached the deadline of the entry that GET saw,
      then EXPIRE is on time, whatever the others did in between. */
  lemma PromptExpireIsTimely(s: State, v: nat, es: seq<Event>, fate: Fate)
    requires v in s.sessions && s.sessions[v].phase.Extending? && s.sessions[v].phase.seen
    requires s.sessions[v].phase.next < |s.nodes| && Holds(s, s.sessions[v].phase.next, v)
    requires SparedRun(s, es, v) && NoneBy(es, v)
    requires Run(s, es).now < SureUntil(s, s.sessions[v].phase.next, v)
    ensures Timely(Run(s, es), ExtendExpire(v, fate))
  {
    var i := s.sessions[v].phase.next;
    OthersKeepBacking(s, es, v, SureUntil(s, i, v), i);
  }

  /*---------------------------- conditions that callers can meet ----------------------------*/

  /** In a run in which every EXPIRE is on time, every attempt is safe. */
  lemma {:induction false} TimelyIsCareful(n: nat, es: seq<Event>, v: nat)
    requires TimelyRun(Init(n), es)
    ensures CarefulRun(Init(n), es, v) && NotLate(Run(Init(n), es), v)
  {
    if es == [] {
    } else {
      var before, e := Run(Init(n), es[..|es| - 1]), es[|es| - 1];
      TimelyIsCareful(n, es[..|es| - 1], v);
      NotLateStep(before, e, v);
    }
  }

  ghost predicate NotLate(s: State, v: nat) {
    v in s.sessions && s.sessions[v].phase.Extending? ==> s.sessions[v].phase.late == 0
  }

  lemma NotLateStep(s: State, e: Event, v: nat)
    requires NotLate(s, v) && (ActorOf(e, v) ==> Timely(s, e))
    ensures NotLate(Apply(s, e), v) && Earns(s, e, v)
  {
    if !ActorOf(e, v) {
      OthersLeaveAttempt(s, e, v);
    }
  }

  /** All attempts use the same expiration. */
  predicate CommonExpires(es: seq<Event>, expires: int) {
    forall k | 0 <= k < |es| && es[k].Begin? :: es[k].expires == expires
  }

  ghost predicate AllExpireAfter(s: State, expires: int) {
    && (forall v | v in s.sessions :: s.sessions[v].expires == expires)
    && (forall i: nat | i < |s.nodes| && s.nodes[i].Some? :: s.nodes[i].value.deadline <= s.now + expires)
  }

  /** Then no EXPIRE cuts an entry short, and how long a node is sure to keep a value is its deadline. */
  lemma {:induction false} CommonIsSpared(n: nat, es: seq<Event>, expires: int, v: nat)
    requires CommonExpires(es, expires)
    ensures SparedRun(Init(n), es, v) && AllExpireAfter(Run(Init(n), es), expires)
    ensures var s := Run(Init(n), es);
            forall i: nat | i < |s.nodes| && s.nodes[i].Some? && v in s.sessions ::
              SureUntil(s, i, v) == s.nodes[i].value.deadline
  {
    if es == [] {
    } else {
      CommonIsSpared(n, es[..|es| - 1], expires, v);
      CommonStep(Run(Init(n), es[..|es| - 1]), es[|es| - 1], expires);
    }
  }

  lemma CommonStep(s: State, e: Event, expires: int)
    requires AllExpireAfter(s, expires) && (e.Begin? ==> e.expires == expires)
    ensures AllExpireAfter(Apply(s, e), expires)
  {
  }

  /** The GET of `v` that makes an EXPIRE follow. */
  predicate Sees(s: State, e: Event, v: nat) {
    && e == ExtendGet(v, true) && v in s.sessions && s.sessions[v].phase.Extending? && !s.sessions[v].phase.seen
    && s.sessions[v].phase.next < |s.nodes| && Holds(s, s.sessions[v].phase.next, v)
  }

  /** Until when the node that `v` last saw its value on is sure to keep it. */
  function SeenUntil(n: nat, es: seq<Event>, v: nat): int {
    if es == [] then 0 else
    var before, e := Run(Init(n), es[..|es| - 1]), es[|es| - 1];
    if Sees(before, e, v) then SureUntil(before, before.sessions[v].phase.next, v) else SeenUntil(n, es[..|es| - 1], v)
  }

  /** Every EXPIRE of `v` is carried out before that. */
  predicate PromptRun(n: nat, es: seq<Event>, v: nat) {
    es == [] ||
    var before := Run(Init(n), es[..|es| - 1]);
    && PromptRun(n, es[..|es| - 1], v)
    && (ActorOf(es[|es| - 1], v) && Expires(before, es[|es| - 1]) ==> before.now < SeenUntil(n, es[..|es| - 1], v))
  }

  ghost predicate StillSeen(s: State, v: nat, until: int) {
    v in s.sessions && s.sessions[v].phase.Extending? && s.sessions[v].phase.seen ==>
      && s.sessions[v].phase.next < |s.nodes| && until <= s.now + s.sessions[v].expires
      && (s.now < until ==> Backs(s.nodes[s.sessions[v].phase.next], v, until))
  }

  lemma StillSeenStep(s: State, e: Event, v: nat, until: int)
    requires StillSeen(s, v, until) && Spares(s, e, v)
    ensures StillSeen(Apply(s, e), v,
                      if Sees(s, e, v) then SureUntil(s, s.sessions[v].phase.next, v) else until)
  {
    if !ActorOf(e, v) {
      OthersLeaveAttempt(s, e, v);
      if v in s.sessions && s.sessions[v].phase.Extending? && s.sessions[v].phase.seen && s.now < until {
        BackingKept(s, e, v, until, s.sessions[v].phase.next);
      }
    }
  }

  /** An attempt whose EXPIREs are prompt, and whose entries are not cut short by others, is safe. */
  lemma {:induction false} PromptIsCareful(n: nat, es: seq<Event>, v: nat)
    requires SparedRun(Init(n), es, v) && PromptRun(n, es, v)
    ensures CarefulRun(Init(n), es, v) && NotLate(Run(Init(n), es), v)
    ensures StillSeen(Run(Init(n), es), v, SeenUntil(n, es, v))
  {
    if es == [] {
    } else {
      var before, e := Run(Init(n), es[..|es| - 1]), es[|es| - 1];
      PromptIsCareful(n, es[..|es| - 1], v);
      StillSeenStep(before, e, v, SeenUntil(n, es[..|es| - 1], v));
      NotLateStep(before, e, v);
    }
  }

  /** Mutual exclusion from what the owners themselves can do: all use one expiration, and each of the two
      has its EXPIREs carried out before the deadline of the entry that its GET saw. */
  lemma PromptOwnersExclude(n: nat, es: seq<Event>, expires: int, v: nat, w: nat)
    requires CommonExpires(es, expires) && PromptRun(n, es, v) && PromptRun(n, es, w)
    requires InWindow(Run(Init(n), es), v) && InWindow(Run(Init(n), es), w)
    ensures v == w
  {
    CommonIsSpared(n, es, expires, v);
    CommonIsSpared(n, es, expires, w);
    PromptIsCareful(n, es, v);
    PromptIsCareful(n, es, w);
    MutualExclusion(n, es, v, w);
  }

  /*---------------------------- where exclusion ends ----------------------------*/

  lemma RunOneMore(s: State, es: seq<Event>, e: Event)
    ensures Run(s, es + [e]) == Apply(Run(s, es), e)
  {
    assert (es + [e])[..|es|] == es;
  }

  lemma RunThreeMore(s: State, es: seq<Event>, a: Event, b: Event, c: Event)
    ensures Run(s, es + [a, b, c]) == Apply(Apply(Apply(Run(s, es), a), b), c)
  {
    assert es + [a, b] == (es + [a]) + [b];
    assert es + [a, b, c] == (es + [a, b]) + [c];
    RunOneMore(s, es, a);
    RunOneMore(s, es + [a], b);
    RunOneMore(s, es + [a, b], c);
  }

  const OK := Fate(true, true)

  /** Attempt 1 wins at time 0 for 10 units and, at time 9, reads its own value at the start of an `Extend`. */
  function GapRun(): seq<Event> {
    [Begin(1, 10), SetNX(1, OK), FinishRound(1)] + [Tick(9), BeginExtend(1), ExtendGet(1, true)]
  }

  /** At time 10 the entry is gone and attempt 2 wins ... */
  function RacedRun(): seq<Event> {
    GapRun() + [Tick(1), Begin(2, 10), SetNX(2, OK)]
  }

  /** ... and only then does the EXPIRE of attempt 1 arrive. */
  function LateExpireRun(): seq<Event> {
    RacedRun() + [FinishRound(2), ExtendExpire(1, OK), FinishExtend(1)]
  }

  lemma GapRunState()
    ensures Run(Init(1), GapRun())
         == State(9, [Some(Entry(1, 10))], map[1 := Session(10, 0, Extending(0, 9, 0, 0, true, 0))])
  {
    hide Run;
    WonRunState();
    RunThreeMore(Init(1), [Begin(1, 10), SetNX(1, OK), FinishRound(1)], Tick(9), BeginExtend(1), ExtendGet(1, true));
  }

  lemma WonRunState()
    ensures Run(Init(1), [Begin(1, 10), SetNX(1, OK), FinishRound(1)])
         == State(0, [Some(Entry(1, 10))], map[1 := Session(10, 0, Held(0))])
  {
    RunThreeMore(Init(1), [], Begin(1, 10), SetNX(1, OK), FinishRound(1));
    assert Run(Init(1), []) == Init(1);
    assert [] + [Begin(1, 10), SetNX(1, OK), FinishRound(1)] == [Begin(1, 10), SetNX(1, OK), FinishRound(1)];
    hide Run;
    assert Apply(Apply(Init(1), Begin(1, 10)), SetNX(1, OK))
        == State(0, [Some(Entry(1, 10))], map[1 := Session(10, 0, Acquiring(0, 1, 1))]);
  }

  lemma RacedRunState()
    ensures Run(Init(1), RacedRun())
         == State(10, [Some(Entry(2, 20))], map[1 := Session(10, 0, Extending(0, 9, 0, 0, true, 0)),
                                                2 := Session(10, 10, Acquiring(10, 1, 1))])
  {
    GapRunState();
    RunThreeMore(Init(1), GapRun(), Tick(1), Begin(2, 10), SetNX(2, OK));
  }

  lemma LateExpireState()
    ensures Run(Init(1), LateExpireRun())
         == State(10, [Some(Entry(2, 20))], map[1 := Session(10, 0, Held(9)), 2 := Session(10, 10, Held(10))])
  {
    hide Run, RacedRun;
    RacedRunState();
    RunThreeMore(Init(1), RacedRun(), FinishRound(2), ExtendExpire(1, OK), FinishExtend(1));
    var waits := map[1 := Session(10, 0, Extending(0, 9, 0, 0, true, 0)), 2 := Session(10, 10, Held(10))];
    assert Apply(Run(Init(1), RacedRun()), FinishRound(2)) == State(10, [Some(Entry(2, 20))], waits);
    assert Apply(State(10, [Some(Entry(2, 20))], waits), ExtendExpire(1, OK))
        == State(10, [Some(Entry(2, 20))], waits[1 := Session(10, 0, Extending(0, 9, 1, 1, false, 1))]);
  }

  /** The condition on one's own Extends cannot be dropped: the source's unchecked GET-EXPIRE pair lets
      two handles be inside their windows at once, already on a single node and with one expiration. */
  lemma LateExpireBreaksExclusion()
    ensures InWindow(Run(Init(1), LateExpireRun()), 1) && InWindow(Run(Init(1), LateExpireRun()), 2)
    ensures CommonExpires(LateExpireRun(), 10)
    ensures !EarnedRun(Init(1), LateExpireRun(), 1) || !EarnedRun(Init(1), LateExpireRun(), 2)
  {
    hide Run, SparedRun, EarnedRun;
    LateExpireState();
    CommonIsSpared(1, LateExpireRun(), 10, 1);
    CommonIsSpared(1, LateExpireRun(), 10, 2);
    if EarnedRun(Init(1), LateExpireRun(), 1) && EarnedRun(Init(1), LateExpireRun(), 2) {
      MutualExclusion(1, LateExpireRun(), 1, 2);
    }
  }

  /** Attempt 2 wins for 100 units at time 10, when the EXPIRE of attempt 1, which expires after 10, is on
      its way; it cuts the entry short, and attempt 3 wins at time 20. */
  function CutShortRun(): seq<Event> {
    OvertakenRun() + [Begin(3, 10), SetNX(3, OK), FinishRound(3)]
  }

  function LongRun(): seq<Event> {
    GapRun() + [Tick(1), Begin(2, 100), SetNX(2, OK)]
  }

  function OvertakenRun(): seq<Event> {
    LongRun() + [FinishRound(2), ExtendExpire(1, OK), Tick(10)]
  }

  lemma LongRunState()
    ensures Run(Init(1), LongRun())
         == State(10, [Some(Entry(2, 110))], map[1 := Session(10, 0, Extending(0, 9, 0, 0, true, 0)),
                                                 2 := Session(100, 10, Acquiring(10, 1, 1))])
  {
    GapRunState();
    RunThreeMore(Init(1), GapRun(), Tick(1), Begin(2, 100), SetNX(2, OK));
  }

  lemma OvertakenState()
    ensures Run(Init(1), OvertakenRun())
         == State(20, [Some(Entry(2, 20))], map[1 := Session(10, 0, Extending(0, 9, 1, 1, false, 1)),
                                                2 := Session(100, 10, Held(10))])
  {
    hide Run, LongRun;
    LongRunState();
    RunThreeMore(Init(1), LongRun(), FinishRound(2), ExtendExpire(1, OK), Tick(10));
    var s := Run(Init(1), LongRun());
    var held := s.(sessions := s.sessions[2 := Session(100, 10, Held(10))]);
    assert Apply(s, FinishRound(2)) == held;
    assert Apply(held, ExtendExpire(1, OK))
        == State(10, [Some(Entry(2, 20))], held.sessions[1 := Session(10, 0, Extending(0, 9, 1, 1, false, 1))]);
  }

  lemma CutShortState()
    ensures Run(Init(1), CutShortRun())
         == State(20, [Some(Entry(3, 30))], map[1 := Session(10, 0, Extending(0, 9, 1, 1, false, 1)),
                                                2 := Session(100, 10, Held(10)), 3 := Session(10, 20, Held(20))])
  {
    hide Run, OvertakenRun;
    OvertakenState();
    RunThreeMore(Init(1), OvertakenRun(), Begin(3, 10), SetNX(3, OK), FinishRound(3));
    var s := Run(Init(1), OvertakenRun());
    var begun := s.(sessions := s.sessions[3 := Session(10, 20, Acquiring(20, 0, 0))]);
    assert Apply(s, Begin(3, 10)) == begun;
    assert Apply(begun, SetNX(3, OK))
        == State(20, [Some(Entry(3, 30))], s.sessions[3 := Session(10, 20, Acquiring(20, 1, 1))]);
  }

  lemma {:induction false} NeverExtendedEarns(s: State, es: seq<Event>, v: nat)
    requires FinishExtend(v) !in es
    ensures EarnedRun(s, es, v)
  {
    if es == [] {
    } else {
      NeverExtendedEarns(s, es[..|es| - 1], v);
    }
  }

  lemma CutShortNeverExtends()
    ensures forall v :: FinishExtend(v) !in CutShortRun()
  {
  }

  /** Nor can the condition on attempts that expire sooner: neither of two handles ever extends, and both
      are inside their windows. */
  lemma CutShortBreaksExclusion()
    ensures InWindow(Run(Init(1), CutShortRun()), 2) && InWindow(Run(Init(1), CutShortRun()), 3)
    ensures EarnedRun(Init(1), CutShortRun(), 2) && EarnedRun(Init(1), CutShortRun(), 3)
    ensures !SparedRun(Init(1), CutShortRun(), 2) || !SparedRun(Init(1), CutShortRun(), 3)
  {
    hide Run, SparedRun, EarnedRun, CutShortRun;
    CutShortState();
    CutShortNeverExtends();
    NeverExtendedEarns(Init(1), CutShortRun(), 2);
    NeverExtendedEarns(Init(1), CutShortRun(), 3);
    if SparedRun(Init(1), CutShortRun(), 2) && SparedRun(Init(1), CutShortRun(), 3) {
      MutualExclusion(1, CutShortRun(), 2, 3);
    }
  }

  /*---------------------------- what one attempt does to the others ----------------------------*/

  /** Nothing an attempt sends - round, extension or release - touches a node that still holds
      somebody else's value. */
  lemma AttemptsSpareOthers(s: State, e: Event, i: nat)
    requires !e.Tick? && MovesOnlyOwn(s, e)
    requires i < |s.nodes| && Live(s, i) && s.nodes[i].value.value != e.who
    ensures |Apply(s, e).nodes| == |s.nodes| && Apply(s, e).nodes[i] == s.nodes[i]
  {
  }

  /** Events of other attempts leave the attempt `v` where it is and never store its value. */
  lemma OthersLeaveAttempt(s: State, e: Event, v: nat)
    requires !ActorOf(e, v)
    ensures var s' := Apply(s, e);
            && s.now <= s'.now && |s'.nodes| == |s.nodes|
            && (v in s.sessions ==> v in s'.sessions && s'.sessions[v] == s.sessions[v])
            && (v !in s.sessions ==> v !in s'.sessions)
            && (forall i: nat | i < |s.nodes| && Holds(s', i, v) :: Holds(s, i, v))
  {
  }
}
