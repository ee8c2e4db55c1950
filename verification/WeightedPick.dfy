/** The weighted random balancer of internal/shared/discovery/weighted_loadbalancer.go. */
module WeightedPick {
  datatype Weighted = Weighted(address: string, weight: int)

  datatype Instance = Instance(weight: int, metadata: map<string, string>)

  function WeightIn(instances: map<string, Instance>, a: string): int {
    if a in instances then instances[a].weight else 1
  }

  /** The weight list that Select builds, in the order of its argument. */
  function WeightList(instances: map<string, Instance>, list: seq<string>): seq<Weighted> {
    seq(|list|, i requires 0 <= i < |list| => Weighted(list[i], WeightIn(instances, list[i])))
  }

  /** The sum of the first `k` weights. */
  function Cumulative(ws: seq<Weighted>, k: nat): int
    requires k <= |ws|
  {
    if k == 0 then 0 else Cumulative(ws, k - 1) + ws[k - 1].weight
  }

  function Total(ws: seq<Weighted>): int {
    Cumulative(ws, |ws|)
  }

  /** All the weight that the list gives to one address. */
  function WeightOf(ws: seq<Weighted>, a: string): int {
    if ws == [] then 0
    else WeightOf(ws[..|ws| - 1], a) + if ws[|ws| - 1].address == a then ws[|ws| - 1].weight else 0
  }

  /** Entry `k` is the first one whose prefix sum exceeds the draw. */
  ghost predicate PicksAt(ws: seq<Weighted>, r: int, k: nat) {
    k < |ws| && r < Cumulative(ws, k + 1) && forall j: nat | 1 <= j <= k :: Cumulative(ws, j) <= r
  }

  ghost predicate Picks(ws: seq<Weighted>, r: int, a: string) {
    exists k: nat :: PicksAt(ws, r, k) && ws[k].address == a
  }

  ghost predicate Descending(ws: seq<Weighted>) {
    forall i, j | 0 <= i < j < |ws| :: ws[i].weight >= ws[j].weight
  }

  /** Whatever `sort.Slice`, which is not stable, may make of the list. */
  ghost predicate SortedVersion(ws: seq<Weighted>, sorted: seq<Weighted>) {
    multiset(sorted) == multiset(ws) && Descending(sorted)
  }

  class WeightedLoadBalancer {
    var instances: map<string, Instance>

    constructor ()
      ensures instances == map[]
    {
      instances := map[];
    }

    method AddInstance(address: string, weight: int, metadata: map<string, string>)
      modifies this
      ensures instances == old(instances)[address := Instance(weight, metadata)]
    {
      instances := instances[address := Instance(weight, metadata)];
    }

    method RemoveInstance(address: string)
      modifies this
      ensures instances == old(instances) - {address}
    {
      instances := instances - {address};
    }

    method BuildWeights(list: seq<string>) returns (ws: seq<Weighted>, total: int)
      ensures ws == WeightList(instances, list) && total == Total(ws)
    {
      ws, total := [], 0;
      ghost var spec := WeightList(instances, list);
      for i := 0 to |list|
        invariant ws == spec[..i] && total == Cumulative(spec, i)
      {
        var w := if list[i] in instances then instances[list[i]].weight else 1;
        ws := ws + [Weighted(list[i], w)];
        total := total + w;
      }
    }

    /** Select; `intn` stands for `rand.Intn`. */
    method Select(list: seq<string>, intn: nat -> nat) returns (selected: string)
      requires forall m: nat | m > 0 :: intn(m) < m
      ensures list == [] ==> selected == ""
      ensures list != [] && (instances == map[] || Total(WeightList(instances, list)) <= 0) ==>
              selected == list[intn(|list|)]
      ensures list != [] && instances != map[] && Total(WeightList(instances, list)) > 0 ==>
                exists sorted :: SortedVersion(WeightList(instances, list), sorted)
                                 && Picks(sorted, intn(Total(WeightList(instances, list))), selected)
    {
      if |list| == 0 {
        return "";
      }
      if instances == map[] {
        return list[intn(|list|)];
      }
      var ws, total := BuildWeights(list);
      if total <= 0 {
        return list[intn(|list|)];
      }
      var sorted := SortSlice(ws);
      SumsOfPermutation(ws, sorted, "");
      selected := Scan(sorted, intn(total));
    }
  }

  /** The prefix-sum scan.  It always returns from inside the loop, so the fallback of the source
      to the first instance is never reached. */
  method Scan(sorted: seq<Weighted>, r: nat) returns (selected: string)
    requires r < Total(sorted)
    ensures Picks(sorted, r, selected)
  {
    var current := 0;
    for k := 0 to |sorted|
      invariant current == Cumulative(sorted, k)
      invariant forall j: nat | 0 <= j <= k :: Cumulative(sorted, j) <= r
    {
      current := current + sorted[k].weight;
      if r < current {
        assert PicksAt(sorted, r, k);
        return sorted[k].address;
      }
    }
    assert false;
  }

  lemma PrefixElements(ws: seq<Weighted>, i: nat)
    requires i < |ws|
    ensures multiset(ws[..i + 1]) == multiset(ws[..i]) + multiset{ws[i]}
  {
    assert ws[..i + 1] == ws[..i] + [ws[i]];
  }

  lemma InsertedElements(sorted: seq<Weighted>, x: Weighted, k: nat)
    requires k <= |sorted|
    ensures multiset(sorted[..k] + [x] + sorted[k..]) == multiset(sorted) + multiset{x}
  {
    assert sorted == sorted[..k] + sorted[k..];
  }

  lemma InsertedInOrder(sorted: seq<Weighted>, x: Weighted, k: nat)
    requires Descending(sorted) && k <= |sorted|
    requires forall j | k <= j < |sorted| :: sorted[j].weight < x.weight
    requires k > 0 ==> sorted[k - 1].weight >= x.weight
    ensures Descending(sorted[..k] + [x] + sorted[k..])
  {
    var s := sorted[..k] + [x] + sorted[k..];
    forall i, j | 0 <= i < j < |s| ensures s[i].weight >= s[j].weight {
      assert i < k ==> s[i] == sorted[i];
      assert i > k ==> s[i] == sorted[i - 1];
      assert j < k ==> s[j] == sorted[j];
      assert j > k ==> s[j] == sorted[j - 1];
    }
  }

  method InsertionPoint(sorted: seq<Weighted>, weight: int) returns (k: nat)
    requires Descending(sorted)
    ensures k <= |sorted| && (k > 0 ==> sorted[k - 1].weight >= weight)
    ensures forall j | k <= j < |sorted| :: sorted[j].weight < weight
  {
    k := |sorted|;
    while k > 0 && sorted[k - 1].weight < weight
      invariant k <= |sorted| && forall j | k <= j < |sorted| :: sorted[j].weight < weight
    {
      k := k - 1;
    }
  }

  /** Stands for `sort.Slice` with the descending comparison. */
  method SortSlice(ws: seq<Weighted>) returns (sorted: seq<Weighted>)
    ensures SortedVersion(ws, sorted)
  {
    sorted := [];
    for i := 0 to |ws|
      invariant SortedVersion(ws[..i], sorted)
    {
      var k := InsertionPoint(sorted, ws[i].weight);
      InsertedElements(sorted, ws[i], k);
      InsertedInOrder(sorted, ws[i], k);
      PrefixElements(ws, i);
      sorted := sorted[..k] + [ws[i]] + sorted[k..];
    }
    assert ws[..|ws|] == ws;
  }

  /*------------------------------ sums do not see the order ------------------------------*/

  lemma {:induction false} CumulativeOfPrefix(ws: seq<Weighted>, n: nat, k: nat)
    requires k <= n <= |ws|
    ensures Cumulative(ws[..n], k) == Cumulative(ws, k)
  {
    if k == 0 {
    } else {
      CumulativeOfPrefix(ws, n, k - 1);
    }
  }

  lemma {:induction false} SumsSplit(xs: seq<Weighted>, ys: seq<Weighted>, a: string)
    ensures Total(xs + ys) == Total(xs) + Total(ys)
    ensures WeightOf(xs + ys, a) == WeightOf(xs, a) + WeightOf(ys, a)
  {
    if ys == [] {
      assert xs + ys == xs;
    } else {
      var front := ys[..|ys| - 1];
      assert (xs + ys)[..|xs + ys| - 1] == xs + front;
      SumsSplit(xs, front, a);
      CumulativeOfPrefix(xs + ys, |xs + ys| - 1, |xs + ys| - 1);
      CumulativeOfPrefix(ys, |ys| - 1, |ys| - 1);
    }
  }

  lemma MoveToEnd(ys: seq<Weighted>, k: nat, a: string)
    requires k < |ys|
    ensures var ys' := ys[..k] + ys[k + 1..];
            && multiset(ys) == multiset(ys') + multiset{ys[k]}
            && Total(ys) == Total(ys' + [ys[k]]) && WeightOf(ys, a) == WeightOf(ys' + [ys[k]], a)
  {
    assert ys == (ys[..k] + [ys[k]]) + ys[k + 1..];
    SumsSplit(ys[..k], [ys[k]], a);
    SumsSplit(ys[..k] + [ys[k]], ys[k + 1..], a);
    SumsSplit(ys[..k], ys[k + 1..], a);
    SumsSplit(ys[..k] + ys[k + 1..], [ys[k]], a);
  }

  lemma SameRemainder(a: multiset<Weighted>, b: multiset<Weighted>, x: Weighted)
    requires a + multiset{x} == b + multiset{x}
    ensures a == b
  {
    assert a == (a + multiset{x}) - multiset{x};
    assert b == (b + multiset{x}) - multiset{x};
  }

  lemma IndexOf(xs: seq<Weighted>, ys: seq<Weighted>, i: nat) returns (k: nat)
    requires multiset(xs) == multiset(ys) && i < |xs|
    ensures k < |ys| && ys[k] == xs[i]
  {
    assert xs[i] in multiset(ys);
    k :| k < |ys| && ys[k] == xs[i];
  }

  lemma {:induction false} SumsOfPermutation(xs: seq<Weighted>, ys: seq<Weighted>, a: string)
    requires multiset(xs) == multiset(ys)
    ensures Total(xs) == Total(ys) && WeightOf(xs, a) == WeightOf(ys, a)
    decreases |xs|
  {
    if xs == [] {
      assert |multiset(ys)| == 0;
    } else {
      var front, last := xs[..|xs| - 1], xs[|xs| - 1];
      assert xs == front + [last];
      var k := IndexOf(xs, ys, |xs| - 1);
      var ys' := ys[..k] + ys[k + 1..];
      MoveToEnd(ys, k, a);
      assert multiset(front) == multiset(ys') by {
        assert multiset(front) + multiset{last} == multiset(ys') + multiset{last};
        SameRemainder(multiset(front), multiset(ys'), last);
      }
      SumsOfPermutation(front, ys', a);
      SumsSplit(front, [last], a);
      SumsSplit(ys', [last], a);
    }
  }

  /*------------------------------------ proportionality ------------------------------------*/

  ghost predicate NonNegative(ws: seq<Weighted>) {
    forall i | 0 <= i < |ws| :: ws[i].weight >= 0
  }

  /** The draws below `n` that make the scan of `ws` return `a`. */
  ghost function Draws(ws: seq<Weighted>, n: int, a: string): set<int> {
    set r | 0 <= r < n && Picks(ws, r, a)
  }

  lemma {:induction false} CumulativeGrows(ws: seq<Weighted>, j: nat, k: nat)
    requires NonNegative(ws) && j <= k <= |ws|
    ensures 0 <= Cumulative(ws, j) <= Cumulative(ws, k)
    decreases k
  {
    if j < k {
      CumulativeGrows(ws, j, k - 1);
    } else if k > 0 {
      CumulativeGrows(ws, k - 1, k - 1);
    }
  }

  lemma PicksSame(ws: seq<Weighted>, r: int, k: nat)
    requires NonNegative(ws) && ws != [] && 0 <= r < Cumulative(ws, |ws| - 1)
    ensures PicksAt(ws, r, k) <==> PicksAt(ws[..|ws| - 1], r, k)
  {
    var n := |ws| - 1;
    forall j: nat | j <= n ensures Cumulative(ws[..n], j) == Cumulative(ws, j) {
      CumulativeOfPrefix(ws, n, j);
    }
  }

  lemma PicksLast(ws: seq<Weighted>, r: int, k: nat)
    requires NonNegative(ws) && ws != [] && Cumulative(ws, |ws| - 1) <= r < Total(ws)
    ensures PicksAt(ws, r, k) <==> k == |ws| - 1
  {
    forall j: nat | j < |ws| ensures Cumulative(ws, j) <= r {
      CumulativeGrows(ws, j, |ws| - 1);
    }
  }

  function Interval(lo: int, hi: int): (s: set<int>)
    requires lo <= hi
    ensures forall r :: r in s <==> lo <= r < hi
    ensures |s| == hi - lo
    decreases hi - lo
  {
    if lo == hi then {} else Interval(lo, hi - 1) + {hi - 1}
  }

  lemma DrawsSplit(ws: seq<Weighted>, a: string)
    requires NonNegative(ws) && ws != []
    ensures var front, last := ws[..|ws| - 1], ws[|ws| - 1];
            && 0 <= Total(front) <= Total(ws)
            && Draws(ws, Total(ws), a)
               == Draws(front, Total(front), a) + (if last.address == a then Interval(Total(front), Total(ws)) else {})
            && Total(ws) == Total(front) + last.weight
  {
    var n := |ws| - 1;
    var front, last := ws[..n], ws[n];
    CumulativeOfPrefix(ws, n, n);
    CumulativeGrows(ws, n, |ws|);
    forall r | 0 <= r < Total(front) ensures Picks(ws, r, a) <==> Picks(front, r, a) {
      forall k: nat ensures PicksAt(ws, r, k) <==> PicksAt(front, r, k) { PicksSame(ws, r, k); }
      if Picks(front, r, a) {
        var k: nat :| PicksAt(front, r, k) && front[k].address == a;
        assert PicksAt(ws, r, k) && ws[k].address == a;
      }
    }
    forall r | Total(front) <= r < Total(ws) ensures Picks(ws, r, a) <==> last.address == a {
      forall k: nat ensures PicksAt(ws, r, k) <==> k == n { PicksLast(ws, r, k); }
    }
  }

  lemma DisjointCard(a: set<int>, b: set<int>)
    requires a !! b
    ensures |a + b| == |a| + |b|
  {
  }

  lemma DrawsGrow(ws: seq<Weighted>, a: string)
    requires NonNegative(ws) && ws != []
    ensures var front, last := ws[..|ws| - 1], ws[|ws| - 1];
            |Draws(ws, Total(ws), a)|
            == |Draws(front, Total(front), a)| + (if last.address == a then last.weight else 0)
  {
    var front := ws[..|ws| - 1];
    DrawsSplit(ws, a);
    DisjointCard(Draws(front, Total(front), a), Interval(Total(front), Total(ws)));
  }

  /** Exact proportionality of one scan: as many draws return `a` as `a` has weight. */
  lemma {:induction false} DrawsCount(ws: seq<Weighted>, a: string)
    requires NonNegative(ws)
    ensures |Draws(ws, Total(ws), a)| == WeightOf(ws, a)
    decreases |ws|
  {
    if ws == [] {
      assert Draws(ws, Total(ws), a) == {};
    } else {
      DrawsCount(ws[..|ws| - 1], a);
      DrawsGrow(ws, a);
    }
  }

  /** Select is exactly proportional, for every order the unstable sort may produce. */
  lemma SelectIsExact(ws: seq<Weighted>, sorted: seq<Weighted>, a: string)
    requires SortedVersion(ws, sorted) && NonNegative(ws)
    ensures |Draws(sorted, Total(ws), a)| == WeightOf(ws, a)
  {
    forall i | 0 <= i < |sorted| ensures sorted[i].weight >= 0 {
      assert sorted[i] in multiset(ws);
    }
    SumsOfPermutation(ws, sorted, a);
    DrawsCount(sorted, a);
  }

  /** Before the first negative weight the prefix sums rise. */
  lemma {:induction false} CumulativeRises(sorted: seq<Weighted>, j: nat, k: nat)
    requires Descending(sorted) && j <= k < |sorted| && sorted[k].weight >= 0
    ensures 0 <= Cumulative(sorted, j) <= Cumulative(sorted, k)
    decreases k
  {
    if j < k {
      CumulativeRises(sorted, j, k - 1);
    } else if k > 0 {
      CumulativeRises(sorted, k - 1, k - 1);
    }
  }

  /** The draws below `n` that stop the scan at entry `k`. */
  ghost function DrawsAt(ws: seq<Weighted>, n: int, k: nat): set<int> {
    set r | 0 <= r < n && PicksAt(ws, r, k)
  }

  lemma PicksIffWithin(sorted: seq<Weighted>, r: nat, k: nat)
    requires Descending(sorted) && k < |sorted|
    ensures PicksAt(sorted, r, k) <==> Cumulative(sorted, k) <= r < Cumulative(sorted, k + 1)
  {
    if Cumulative(sorted, k) <= r < Cumulative(sorted, k + 1) {
      assert sorted[k].weight > 0;
      forall j: nat | j <= k ensures Cumulative(sorted, j) <= r {
        CumulativeRises(sorted, j, k);
      }
    }
  }

  /** What each entry of the sorted list gets, negative weights or not: heaviest first, its weight
      as long as the total lasts. */
  lemma HeaviestFirst(sorted: seq<Weighted>, k: nat)
    requires Descending(sorted) && k < |sorted|
    ensures var left, w := Total(sorted) - Cumulative(sorted, k), sorted[k].weight;
            |DrawsAt(sorted, Total(sorted), k)|
            == if w <= 0 || left <= 0 then 0 else if w <= left then w else left
  {
    hide PicksAt, Descending;
    var total, lo, w := Total(sorted), Cumulative(sorted, k), sorted[k].weight;
    forall r: nat ensures PicksAt(sorted, r, k) <==> lo <= r < lo + w {
      PicksIffWithin(sorted, r, k);
    }
    if w <= 0 || total <= lo {
      assert DrawsAt(sorted, total, k) == {};
    } else {
      CumulativeRises(sorted, k, k);
      assert DrawsAt(sorted, total, k) == Interval(lo, if w <= total - lo then lo + w else total);
    }
  }

  /** The weight of an address in a list without repetitions is the configured one, or one. */
  lemma {:induction false} WeightOfListed(instances: map<string, Instance>, list: seq<string>, a: string)
    requires forall i, j | 0 <= i < j < |list| :: list[i] != list[j]
    ensures WeightOf(WeightList(instances, list), a)
         == if a !in list then 0 else if a in instances then instances[a].weight else 1
  {
    if list == [] {
    } else {
      var front := list[..|list| - 1];
      WeightOfListed(instances, front, a);
      assert WeightList(instances, list)[..|list| - 1] == WeightList(instances, front);
      assert a in list <==> a in front || a == list[|list| - 1];
    }
  }

  /** In the balancer's own terms: of the draws below the total, as many select a listed address as it was
      configured with, or one if it was not. */
  lemma ConfiguredShares(instances: map<string, Instance>, list: seq<string>, sorted: seq<Weighted>, a: string)
    requires forall i, j | 0 <= i < j < |list| :: list[i] != list[j]
    requires forall b | b in list && b in instances :: instances[b].weight >= 0
    requires SortedVersion(WeightList(instances, list), sorted)
    ensures |Draws(sorted, Total(WeightList(instances, list)), a)|
         == if a !in list then 0 else if a in instances then instances[a].weight else 1
  {
    SelectIsExact(WeightList(instances, list), sorted, a);
    WeightOfListed(instances, list, a);
  }

  lemma {:induction false} NegativeShare(ws: seq<Weighted>, a: string, w: int)
    requires w < 0 && forall i | 0 <= i < |ws| && ws[i].address == a :: ws[i].weight == w
    ensures WeightOf(ws, a) <= 0 && ((exists i :: 0 <= i < |ws| && ws[i].address == a) ==> WeightOf(ws, a) < 0)
    decreases |ws|
  {
    if ws == [] {
    } else {
      var front := ws[..|ws| - 1];
      NegativeShare(front, a, w);
      if ws[|ws| - 1].address != a && exists i :: 0 <= i < |ws| && ws[i].address == a {
        var i :| 0 <= i < |ws| && ws[i].address == a;
        assert front[i].address == a;
      }
    }
  }

  /** The exact condition: whatever order the sort produces, every address gets exactly its weight
      if and only if none of the listed instances was added with a negative weight. */
  lemma ExactIffNonNegative(instances: map<string, Instance>, list: seq<string>, sorted: seq<Weighted>)
    requires SortedVersion(WeightList(instances, list), sorted)
    ensures (forall a ::
               |Draws(sorted, Total(WeightList(instances, list)), a)| == WeightOf(WeightList(instances, list), a))
       <==> (forall a | a in list && a in instances :: instances[a].weight >= 0)
  {
    var ws := WeightList(instances, list);
    if forall a | a in list && a in instances :: instances[a].weight >= 0 {
      forall a ensures |Draws(sorted, Total(ws), a)| == WeightOf(ws, a) {
        SelectIsExact(ws, sorted, a);
      }
    } else {
      var i :| 0 <= i < |list| && WeightIn(instances, list[i]) < 0;
      assert ws[i].address == list[i];
      NegativeShare(ws, list[i], WeightIn(instances, list[i]));
      assert |Draws(sorted, Total(ws), list[i])| != WeightOf(ws, list[i]);
    }
  }
}
