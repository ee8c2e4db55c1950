/**
 The least-connection balancers of internal/shared/discovery: the weighted one
 (weighted_loadbalancer.go) and the plain one (loadbalancer.go).  Ratios of connections to weight
 are compared exactly, by cross-multiplication.
 */
module LeastConnections {
  type Counts = map<string, int>

  /** A Go map returns zero for a missing key. */
  function Get(m: map<string, int>, a: string): int {
    if a in m then m[a] else 0
  }

  /** A weight that is not positive counts as one. */
  function EffectiveWeight(weights: map<string, int>, a: string): (w: int)
    ensures w >= 1
  {
    if Get(weights, a) <= 0 then 1 else weights[a]
  }

  /** c(a)/w(a) < c(b)/w(b) */
  predicate LessLoaded(conns: Counts, weights: map<string, int>, a: string, b: string) {
    Get(conns, a) * EffectiveWeight(weights, b) < Get(conns, b) * EffectiveWeight(weights, a)
  }

  /** Position `k` is the first one of least ratio. */
  ghost predicate FirstLeast(conns: Counts, weights: map<string, int>, list: seq<string>, k: nat) {
    && k < |list|
    && (forall j | 0 <= j < |list| :: !LessLoaded(conns, weights, list[j], list[k]))
    && (forall j | 0 <= j < k :: LessLoaded(conns, weights, list[k], list[j]))
  }

  ghost predicate NonNegative(conns: Counts) {
    forall a | a in conns :: conns[a] >= 0
  }

  ghost predicate FirstFewest(conns: Counts, list: seq<string>, k: nat) {
    && k < |list|
    && (forall j | 0 <= j < |list| :: Get(conns, list[k]) <= Get(conns, list[j]))
    && (forall j | 0 <= j < k :: Get(conns, list[k]) < Get(conns, list[j]))
  }

  function Released(conns: Counts, a: string): Counts {
    if a in conns && conns[a] > 0 then conns[a := conns[a] - 1] else conns
  }

  datatype Op = Select(list: seq<string>) | Release(a: string)

  /** One step of either balancer as its methods specify it: `answer` is what Select returns. */
  ghost predicate WeightedStep(conns: Counts, weights: map<string, int>, op: Op, answer: string, conns': Counts) {
    match op
    case Release(a) => answer == "" && conns' == Released(conns, a)
    case Select(list) =>
      if list == [] then answer == "" && conns' == conns
      else exists k: nat :: FirstLeast(conns, weights, list, k) && answer == list[k]
                            && conns' == conns[answer := Get(conns, answer) + 1]
  }

  ghost predicate PlainStep(conns: Counts, op: Op, answer: string, conns': Counts) {
    match op
    case Release(a) => answer == "" && conns' == Released(conns, a)
    case Select(list) =>
      if list == [] then answer == "" && conns' == conns
      else exists k: nat :: FirstFewest(conns, list, k) && answer == list[k]
                            && conns' == conns[answer := Get(conns, answer) + 1]
  }

  lemma MulStrict(x: int, y: int, z: int)
    requires x < y && z > 0
    ensures x * z < y * z
  {
  }

  lemma MulWeak(x: int, y: int, z: int)
    requires x <= y && z > 0
    ensures x * z <= y * z
  {
  }

  lemma MulSwap(x: int, y: int, z: int)
    ensures (x * y) * z == (x * z) * y
  {
  }

  lemma Distribute(x: int, y: int, z: int)
    ensures (x + y) * z == x * z + y * z
    ensures z * (x + y) == z * x + z * y
  {
  }

  /** Exact ratios: ca/wa < cb/wb <= cc/wc. */
  lemma RatioChain(ca: int, wa: int, cb: int, wb: int, cc: int, wc: int)
    requires wa > 0 && wb > 0 && wc > 0
    requires ca * wb < cb * wa && cb * wc <= cc * wb
    ensures ca * wc < cc * wa
  {
    MulStrict(ca * wb, cb * wa, wc);
    MulWeak(cb * wc, cc * wb, wa);
    MulSwap(ca, wb, wc);
    MulSwap(cb, wa, wc);
    MulSwap(cc, wb, wa);
    if ca * wc >= cc * wa {
      MulWeak(cc * wa, ca * wc, wb);
    }
  }

  lemma LessLoadedChain(conns: Counts, weights: map<string, int>, a: string, b: string, c: string)
    requires LessLoaded(conns, weights, a, b) && !LessLoaded(conns, weights, c, b)
    ensures LessLoaded(conns, weights, a, c)
  {
    RatioChain(Get(conns, a), EffectiveWeight(weights, a), Get(conns, b), EffectiveWeight(weights, b),
               Get(conns, c), EffectiveWeight(weights, c));
  }

  class LeastConnectionWeighted {
    var connections: Counts
    var weights: map<string, int>

    ghost predicate Valid()
      reads this
    {
      NonNegative(connections)
    }

    constructor ()
      ensures Valid() && connections == map[] && weights == map[]
    {
      connections := map[];
      weights := map[];
    }

    /** Overwrites the weights that are given and keeps the others. */
    method SetWeights(ws: map<string, int>)
      requires Valid()
      modifies this`weights
      ensures Valid() && weights == old(weights) + ws
    {
      var rest := ws.Keys;
      while rest != {}
        invariant rest <= ws.Keys && weights == old(weights) + (map a | a in ws && a !in rest :: ws[a])
        decreases rest
      {
        var a :| a in rest;
        weights := weights[a := ws[a]];
        rest := rest - {a};
      }
    }

    /** Picks the first instance of least connections-to-weight ratio and counts one more connection on it. */
    method Select(list: seq<string>) returns (selected: string)
      requires Valid()
      modifies this`connections
      ensures Valid() && WeightedStep(old(connections), weights, Op.Select(list), selected, connections)
      ensures list != [] ==> selected in list
      ensures forall b | b in list ::
                var c, d := if selected in old(connections) then old(connections)[selected] else 0,
                            if b in old(connections) then old(connections)[b] else 0;
                var w, x := if selected in weights && weights[selected] > 0 then weights[selected] else 1,
                            if b in weights && weights[b] > 0 then weights[b] else 1;
                c * x <= d * w
      ensures list != [] ==> exists k: nat :: k < |list| && list[k] == selected && forall j | 0 <= j < k ::
                var c, d := if selected in old(connections) then old(connections)[selected] else 0,
                            if list[j] in old(connections) then old(connections)[list[j]] else 0;
                var w, x := if selected in weights && weights[selected] > 0 then weights[selected] else 1,
                            if list[j] in weights && weights[list[j]] > 0 then weights[list[j]] else 1;
                c * x < d * w
    {
      if |list| == 0 {
        return "";
      }
      ghost var k: nat := 0;
      selected := list[0];
      var minConns, minWeight := -1, 1;
      for i := 0 to |list|
        invariant i == 0 ==> minConns == -1 && minWeight == 1
        invariant i > 0 ==> k < i && selected == list[k] && minConns >= 0
                            && minConns == Get(connections, selected) && minWeight == EffectiveWeight(weights, selected)
        invariant i > 0 ==> forall j | 0 <= j < i :: !LessLoaded(connections, weights, list[j], selected)
        invariant i > 0 ==> forall j | 0 <= j < k :: LessLoaded(connections, weights, selected, list[j])
      {
        var conns := Get(connections, list[i]);
        var weight := Get(weights, list[i]);
        if weight <= 0 {
          weight := 1;
        }
        if minConns == -1 || conns * minWeight < minConns * weight {
          if i > 0 {
            forall j | 0 <= j < i ensures LessLoaded(connections, weights, list[i], list[j]) {
              LessLoadedChain(connections, weights, list[i], selected, list[j]);
            }
          }
          minConns, minWeight := conns, weight;
          selected := list[i];
          k := i;
        }
      }
      connections := connections[selected := Get(connections, selected) + 1];
    }

    method ReleaseConnection(a: string)
      requires Valid()
      modifies this`connections
      ensures Valid() && WeightedStep(old(connections), weights, Op.Release(a), "", connections)
      ensures connections == if a in old(connections) && old(connections)[a] > 0
                             then old(connections)[a := old(connections)[a] - 1] else old(connections)
    {
      if a in connections && connections[a] > 0 {
        connections := connections[a := connections[a] - 1];
      }
    }
  }

  class LeastConnection {
    var connections: Counts

    ghost predicate Valid()
      reads this
    {
      NonNegative(connections)
    }

    constructor ()
      ensures Valid() && connections == map[]
    {
      connections := map[];
    }

    /** Picks the first instance with the fewest connections. */
    method Select(list: seq<string>) returns (selected: string)
      requires Valid()
      modifies this
      ensures Valid() && PlainStep(old(connections), Op.Select(list), selected, connections)
      ensures list != [] ==> selected in list
      ensures forall b | b in list ::
                (if selected in old(connections) then old(connections)[selected] else 0)
                <= if b in old(connections) then old(connections)[b] else 0
      ensures list != [] ==> exists k: nat :: k < |list| && list[k] == selected && forall j | 0 <= j < k ::
                (if selected in old(connections) then old(connections)[selected] else 0)
                < if list[j] in old(connections) then old(connections)[list[j]] else 0
    {
      if |list| == 0 {
        return "";
      }
      ghost var k: nat := 0;
      selected := list[0];
      var min := -1;
      for i := 0 to |list|
        invariant i == 0 ==> min == -1
        invariant i > 0 ==> k < i && selected == list[k] && min >= 0 && min == Get(connections, selected)
        invariant i > 0 ==> forall j | 0 <= j < i :: min <= Get(connections, list[j])
        invariant i > 0 ==> forall j | 0 <= j < k :: min < Get(connections, list[j])
      {
        var conns := Get(connections, list[i]);
        if min == -1 || conns < min {
          min := conns;
          selected := list[i];
          k := i;
        }
      }
      connections := connections[selected := Get(connections, selected) + 1];
    }

    method ReleaseConnection(a: string)
      requires Valid()
      modifies this
      ensures Valid() && PlainStep(old(connections), Op.Release(a), "", connections)
      ensures connections == if a in old(connections) && old(connections)[a] > 0
                             then old(connections)[a := old(connections)[a] - 1] else old(connections)
    {
      if a in connections && connections[a] > 0 {
        connections := connections[a := connections[a] - 1];
      }
    }
  }

  /*------------------------- the plain balancer is the unweighted one -------------------------*/

  ghost predicate WeightedRun(conns: Counts, weights: map<string, int>, ops: seq<Op>, answers: seq<string>,
                              conns': Counts)
    decreases |ops|
  {
    |answers| == |ops| &&
    if ops == [] then conns' == conns
    else exists mid ::
           && WeightedStep(conns, weights, ops[0], answers[0], mid)
           && WeightedRun(mid, weights, ops[1..], answers[1..], conns')
  }

  ghost predicate PlainRun(conns: Counts, ops: seq<Op>, answers: seq<string>, conns': Counts)
    decreases |ops|
  {
    |answers| == |ops| &&
    if ops == [] then conns' == conns
    else exists mid :: PlainStep(conns, ops[0], answers[0], mid) && PlainRun(mid, ops[1..], answers[1..], conns')
  }

  lemma FirstUnique(conns: Counts, list: seq<string>, k: nat, j: nat)
    requires FirstLeast(conns, map[], list, k) && FirstFewest(conns, list, j)
    ensures k == j
  {
    assert forall a :: EffectiveWeight(map[], a) == 1;
    assert !LessLoaded(conns, map[], list[j], list[k]);
  }

  lemma StepsAgree(conns: Counts, op: Op, a: string, b: string, m: Counts, n: Counts)
    requires WeightedStep(conns, map[], op, a, m) && PlainStep(conns, op, b, n)
    ensures a == b && m == n
  {
    if op.Select? && op.list != [] {
      var k: nat :| FirstLeast(conns, map[], op.list, k) && a == op.list[k];
      var j: nat :| FirstFewest(conns, op.list, j) && b == op.list[j];
      FirstUnique(conns, op.list, k, j);
    }
  }

  /** With no weights set, the two balancers give the same answers to every mix of selects and releases. */
  lemma {:induction false} UnweightedAgrees(conns: Counts, ops: seq<Op>, a: seq<string>, b: seq<string>, m: Counts,
                                            n: Counts)
    requires WeightedRun(conns, map[], ops, a, m) && PlainRun(conns, ops, b, n)
    ensures a == b && m == n
    decreases |ops|
  {
    if ops == [] {
    } else {
      var m1 :| WeightedStep(conns, map[], ops[0], a[0], m1) && WeightedRun(m1, map[], ops[1..], a[1..], m);
      var n1 :| PlainStep(conns, ops[0], b[0], n1) && PlainRun(n1, ops[1..], b[1..], n);
      StepsAgree(conns, ops[0], a[0], b[0], m1, n1);
      UnweightedAgrees(m1, ops[1..], a[1..], b[1..], m, n);
      assert a == [a[0]] + a[1..] && b == [b[0]] + b[1..];
    }
  }

  /*------------------------------ counts and open connections ------------------------------*/

  /** What one step adds to the connections of `a` that callers hold. */
  function Opened(op: Op, answer: string, a: string): int {
    match op
    case Select(list) => if list != [] && answer == a then 1 else 0
    case Release(b) => if b == a then -1 else 0
  }

  /** Selections that returned `a`, less releases of `a`. */
  function Net(ops: seq<Op>, answers: seq<string>, a: string): int
    requires |answers| == |ops|
    decreases |ops|
  {
    if ops == [] then 0 else Opened(ops[0], answers[0], a) + Net(ops[1..], answers[1..], a)
  }

  /** Every release of `a` follows a selection that no earlier release has used up, `open` counting
      those of before. */
  predicate ReleasesMatch(open: int, ops: seq<Op>, answers: seq<string>, a: string)
    requires |answers| == |ops|
    decreases |ops|
  {
    ops == [] || ((ops[0] == Release(a) ==> open > 0)
                  && ReleasesMatch(open + Opened(ops[0], answers[0], a), ops[1..], answers[1..], a))
  }

  lemma OneStepCount(conns: Counts, weights: map<string, int>, op: Op, answer: string, conns': Counts, a: string)
    requires NonNegative(conns) && WeightedStep(conns, weights, op, answer, conns')
    ensures NonNegative(conns')
    ensures Get(conns', a) == if op == Release(a) && Get(conns, a) == 0 then 0
                              else Get(conns, a) + Opened(op, answer, a)
  {
  }

  /** After any mix of selections and releases the count of `a` is at least its open connections, and
      equal to them if and only if no release of `a` came without a connection to release. */
  lemma {:induction false} CountIsOpenIff(conns: Counts, weights: map<string, int>, ops: seq<Op>, answers: seq<string>,
                                          conns': Counts, a: string)
    requires NonNegative(conns) && WeightedRun(conns, weights, ops, answers, conns')
    ensures Get(conns', a) >= Get(conns, a) + Net(ops, answers, a)
    ensures Get(conns', a) == Get(conns, a) + Net(ops, answers, a) <==> ReleasesMatch(Get(conns, a), ops, answers, a)
    decreases |ops|
  {
    if ops == [] {
    } else {
      var mid :| WeightedStep(conns, weights, ops[0], answers[0], mid)
                 && WeightedRun(mid, weights, ops[1..], answers[1..], conns');
      OneStepCount(conns, weights, ops[0], answers[0], mid, a);
      CountIsOpenIff(mid, weights, ops[1..], answers[1..], conns', a);
    }
  }

  /*---------------------------------- proportional fairness ----------------------------------*/

  function TotalWeight(weights: map<string, int>, list: seq<string>): int {
    if list == [] then 0 else TotalWeight(weights, list[..|list| - 1]) + EffectiveWeight(weights, list[|list| - 1])
  }

  function Sum(ws: seq<int>): int {
    if ws == [] then 0 else Sum(ws[..|ws| - 1]) + ws[|ws| - 1]
  }

  /** `ws` are the weights of the list: the configured one if that is positive, else one. */
  ghost predicate WeightsOf(weights: map<string, int>, list: seq<string>, ws: seq<int>) {
    && |ws| == |list|
    && forall i | 0 <= i < |list| ::
         ws[i] == if list[i] in weights && weights[list[i]] > 0 then weights[list[i]] else 1
  }

  lemma {:induction false} TotalIsSum(weights: map<string, int>, list: seq<string>, ws: seq<int>)
    requires WeightsOf(weights, list, ws)
    ensures TotalWeight(weights, list) == Sum(ws)
  {
    if list == [] {
    } else {
      TotalIsSum(weights, list[..|list| - 1], ws[..|ws| - 1]);
    }
  }

  function TotalConns(conns: Counts, list: seq<string>): int {
    if list == [] then 0 else TotalConns(conns, list[..|list| - 1]) + Get(conns, list[|list| - 1])
  }

  ghost predicate Distinct(list: seq<string>) {
    forall i, j | 0 <= i < j < |list| :: list[i] != list[j]
  }

  /** `conns` is what `n` calls of Select on `list` make of fresh counts. */
  ghost predicate AfterSelects(conns: Counts, weights: map<string, int>, list: seq<string>, n: nat)
    decreases n
  {
    if n == 0 then conns == map[]
    else exists before, a ::
           && AfterSelects(before, weights, list, n - 1)
           && WeightedStep(before, weights, Op.Select(list), a, conns)
  }

  /** Without its last connection, no instance would be more loaded than another. */
  ghost predicate Balanced(conns: Counts, weights: map<string, int>, list: seq<string>) {
    && (forall a | a in list :: Get(conns, a) >= 0)
    && (forall a, b | a in list && b in list ::
          (Get(conns, a) - 1) * EffectiveWeight(weights, b) <= Get(conns, b) * EffectiveWeight(weights, a))
  }

  lemma SelectKeepsBalance(conns: Counts, weights: map<string, int>, list: seq<string>, k: nat)
    requires Balanced(conns, weights, list) && FirstLeast(conns, weights, list, k)
    ensures Balanced(conns[list[k] := Get(conns, list[k]) + 1], weights, list)
  {
    var conns' := conns[list[k] := Get(conns, list[k]) + 1];
    forall a, b | a in list && b in list
      ensures (Get(conns', a) - 1) * EffectiveWeight(weights, b) <= Get(conns', b) * EffectiveWeight(weights, a)
    {
      var wa, wb := EffectiveWeight(weights, a), EffectiveWeight(weights, b);
      assert (Get(conns, a) - 1) * wb <= Get(conns, b) * wa;
      MulWeak(Get(conns, b), Get(conns', b), wa);
      if a == list[k] {
        assert !LessLoaded(conns, weights, b, a);
      }
    }
  }

  lemma {:induction false} ConnsOutsideUnchanged(conns: Counts, list: seq<string>, a: string, c: int)
    requires a !in list
    ensures TotalConns(conns[a := c], list) == TotalConns(conns, list)
  {
    if list == [] {
    } else {
      ConnsOutsideUnchanged(conns, list[..|list| - 1], a, c);
    }
  }

  lemma {:induction false} OneMoreConnection(conns: Counts, list: seq<string>, k: nat)
    requires Distinct(list) && k < |list|
    ensures TotalConns(conns[list[k] := Get(conns, list[k]) + 1], list) == TotalConns(conns, list) + 1
  {
    var front := list[..|list| - 1];
    if k == |list| - 1 {
      ConnsOutsideUnchanged(conns, front, list[k], Get(conns, list[k]) + 1);
    } else {
      OneMoreConnection(conns, front, k);
    }
  }

  lemma {:induction false} NoConnections(list: seq<string>)
    ensures TotalConns(map[], list) == 0
  {
    if list == [] {
    } else {
      NoConnections(list[..|list| - 1]);
    }
  }

  lemma FreshIsBalanced(weights: map<string, int>, list: seq<string>)
    ensures Balanced(map[], weights, list) && TotalConns(map[], list) == 0
  {
    NoConnections(list);
  }

  lemma StepKeepsBalance(conns: Counts, weights: map<string, int>, list: seq<string>, a: string, conns': Counts)
    requires list != [] && Distinct(list) && Balanced(conns, weights, list)
    requires WeightedStep(conns, weights, Op.Select(list), a, conns')
    ensures Balanced(conns', weights, list) && TotalConns(conns', list) == TotalConns(conns, list) + 1
  {
    var k: nat :| FirstLeast(conns, weights, list, k) && a == list[k] && conns' == conns[a := Get(conns, a) + 1];
    SelectKeepsBalance(conns, weights, list, k);
    OneMoreConnection(conns, list, k);
  }

  lemma {:induction false} SelectsStayBalanced(conns: Counts, weights: map<string, int>, list: seq<string>, n: nat)
    requires list != [] && Distinct(list) && AfterSelects(conns, weights, list, n)
    ensures Balanced(conns, weights, list) && TotalConns(conns, list) == n
  {
    if n == 0 {
      FreshIsBalanced(weights, list);
    } else {
      var before, a :| AfterSelects(before, weights, list, n - 1)
                       && WeightedStep(before, weights, Op.Select(list), a, conns);
      SelectsStayBalanced(before, weights, list, n - 1);
      StepKeepsBalance(before, weights, list, a, conns);
    }
  }

  /** The count `ca` at weight `wa` against `c` connections of `n` instances with total weight `w`: one
      connection less would not be too many, and one round more would not be too few. */
  predicate FairShare(ca: int, wa: int, c: int, w: int, n: int) {
    (ca - 1) * w <= c * wa && (c - n) * wa <= ca * w
  }

  lemma AddBalance(ca: int, wa: int, cb: int, wb: int, c: int, w: int, n: int)
    requires FairShare(ca, wa, c, w, n)
    requires (ca - 1) * wb <= cb * wa && (cb - 1) * wa <= ca * wb
    ensures FairShare(ca, wa, c + cb, w + wb, n + 1)
  {
    Distribute(w, wb, ca - 1);
    Distribute(c, cb, wa);
    Distribute(c - n, cb - 1, wa);
    Distribute(w, wb, ca);
  }

  /** Summing the pairwise balance over a prefix of the list. */
  lemma {:induction false} SumBalance(conns: Counts, weights: map<string, int>, list: seq<string>, a: string,
                                      part: seq<string>)
    requires Balanced(conns, weights, list) && a in list && (forall b | b in part :: b in list)
    ensures FairShare(Get(conns, a), EffectiveWeight(weights, a), TotalConns(conns, part), TotalWeight(weights, part),
            |part|)
  {
    if part == [] {
    } else {
      var front, b := part[..|part| - 1], part[|part| - 1];
      SumBalance(conns, weights, list, a, front);
      assert b in part && b in list;
      AddBalance(Get(conns, a), EffectiveWeight(weights, a), Get(conns, b), EffectiveWeight(weights, b),
                 TotalConns(conns, front), TotalWeight(weights, front), |front|);
    }
  }

  /** Proportional fairness: after any number `n` of selections on a fixed list of distinct
      instances, each instance's count is within one connection above and, in weighted terms,
      within one round below its exact share n * w / W. */
  lemma SelectIsProportional(conns: Counts, weights: map<string, int>, list: seq<string>, ws: seq<int>, n: nat, i: nat)
    requires Distinct(list) && AfterSelects(conns, weights, list, n) && i < |list| && WeightsOf(weights, list, ws)
    ensures (Get(conns, list[i]) - 1) * Sum(ws) <= n * ws[i]
    ensures Get(conns, list[i]) * Sum(ws) >= (n - |list|) * ws[i]
  {
    SelectsStayBalanced(conns, weights, list, n);
    SumBalance(conns, weights, list, list[i], list);
    TotalIsSum(weights, list, ws);
  }

  /** With every weight configured and positive, the shares are those of the configured weights themselves. */
  lemma ConfiguredShares(conns: Counts, weights: map<string, int>, list: seq<string>, ws: seq<int>, n: nat, i: nat)
    requires Distinct(list) && AfterSelects(conns, weights, list, n) && i < |list| == |ws|
    requires forall j | 0 <= j < |list| :: list[j] in weights && ws[j] == weights[list[j]] > 0
    ensures (Get(conns, list[i]) - 1) * Sum(ws) <= n * weights[list[i]]
    ensures Get(conns, list[i]) * Sum(ws) >= (n - |list|) * weights[list[i]]
  {
    SelectIsProportional(conns, weights, list, ws, n, i);
  }
}
