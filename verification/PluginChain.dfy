/**
 The gateway's plugin chain: internal/platform/gateway/gateway.go:35-63 keeps the plugins in order,
 and internal/platform/gateway/plugin/context.go:83-108 runs them through an index that every call
 of Next advances.
 */
module PluginChain {
  import opened StableSort

  datatype Plugin = Plugin(name: string, order: int)

  const BY_ORDER: Plugin -> int := (p: Plugin) => p.order

  /** The calls of Next that the executions of positions 0 to k-1 make, and the first one, which is the
      gateway's. */
  function Calls(calls: nat -> nat, k: nat): nat {
    if k == 0 then 1 else Calls(calls, k - 1) + calls(k - 1)
  }

  /** Enough calls are made before a position for one to reach it. */
  predicate Reached(calls: nat -> nat, k: nat) {
    k < Calls(calls, k)
  }

  /** The first position from `k` on that is not there or that too few calls reach. */
  function Reach(calls: nat -> nat, n: nat, k: nat): (r: nat)
    requires k <= n
    ensures k <= r <= n
    decreases n - k
  {
    if k == n || !Reached(calls, k) then k else Reach(calls, n, k + 1)
  }

  function Positions(k: nat): seq<nat> {
    seq(k, i => i)
  }

  /** One request's context.  `calls` says how often the plugin at a position calls Next during this
      request. */
  class Context {
    const plugins: seq<Plugin>
    var index: int
    /** The positions executed, in the order in which they started. */
    var executed: seq<nat>

    constructor (plugins: seq<Plugin>)
      ensures this.plugins == plugins && index == -1 && executed == []
    {
      this.plugins := plugins;
      index := -1;
      executed := [];
    }

    /** `index + 1` calls were made; `owed` more will be made by the executions under way. */
    ghost predicate Valid(calls: nat -> nat, owed: nat)
      reads this
    {
      && index >= -1
      && executed == Positions(if index < |plugins| then index + 1 else |plugins|)
      && index + 1 + owed == Calls(calls, |executed|)
      && forall k: nat | k < |executed| :: Reached(calls, k)
    }

    function Left(): nat
      reads this
    {
      if index < |plugins| then |plugins| - index else 0
    }

    method Next(calls: nat -> nat, ghost owed: nat)
      requires Valid(calls, owed + 1)
      modifies this
      ensures Valid(calls, owed) && index > old(index)
      decreases Left(), 0
    {
      index := index + 1;
      if index < |plugins| {
        executed := executed + [index];
        Execute(index, calls, owed);
      }
    }

    /** A plugin: whatever else it does, it calls Next `calls(position)` times. */
    method Execute(position: nat, calls: nat -> nat, ghost owed: nat)
      requires position == index < |plugins| && Valid(calls, owed + calls(position))
      modifies this
      ensures Valid(calls, owed) && index >= old(index)
      decreases Left(), 1
    {
      for made := 0 to calls(position)
        invariant Valid(calls, owed + calls(position) - made) && index >= old(index)
      {
        Next(calls, owed + calls(position) - made - 1);
      }
    }
  }

  class Gateway {
    var plugins: seq<Plugin>
    /** All plugins in the order of their registration. */
    ghost var registered: seq<Plugin>

    ghost predicate Valid()
      reads this
    {
      IsStableSort(registered, plugins, BY_ORDER)
    }

    constructor ()
      ensures Valid() && registered == [] && plugins == []
    {
      plugins := [];
      registered := [];
    }

    method AddPlugin(added: seq<Plugin>)
      requires Valid()
      modifies this
      ensures Valid() && registered == old(registered) + added
      ensures forall i, j | 0 <= i < j < |plugins| :: plugins[i].order <= plugins[j].order
    {
      var all := plugins + added;
      var slice := new Plugin[|all|](i requires 0 <= i < |all| => all[i]);
      assert slice[..] == all;
      SliceStable(slice, BY_ORDER);
      SortsCompose(registered, added, plugins, slice[..], BY_ORDER);
      plugins := slice[..];
      registered := registered + added;
      assert forall i | 0 <= i < |plugins| :: BY_ORDER(plugins[i]) == plugins[i].order;
    }

    /** A request runs on a copy of the list; its executions are positions 0 to k-1, in order and each
        once, where k is the first position that the calls made before it do not reach. */
    method ServeHTTP(calls: nat -> nat) returns (ctx: Context)
      requires Valid()
      ensures fresh(ctx) && ctx.plugins == plugins
      ensures ctx.executed == Positions(Reach(calls, |plugins|, 0))
    {
      ctx := new Context(plugins);
      ctx.Next(calls, 0);
      ReachIs(calls, |plugins|, |ctx.executed|, 0);
    }
  }

  /** However the registrations were grouped into calls, and whatever was sorted in between, the list
      depends on their sequence alone. */
  lemma GroupingIsIrrelevant(g: Gateway, h: Gateway)
    requires g.Valid() && h.Valid() && g.registered == h.registered
    ensures g.plugins == h.plugins
  {
    StableSortIsUnique(g.registered, g.plugins, h.plugins, BY_ORDER);
  }

  lemma {:induction false} ReachIs(calls: nat -> nat, n: nat, r: nat, k: nat)
    requires k <= r <= n && forall j | k <= j < r :: Reached(calls, j)
    requires r == n || !Reached(calls, r)
    ensures Reach(calls, n, k) == r
    decreases n - k
  {
    if k < r {
      ReachIs(calls, n, r, k + 1);
    }
  }

  /** A position is executed if and only if each position up to it gets a call from those before it. */
  lemma {:induction false} ExecutedIff(calls: nat -> nat, n: nat, k: nat, j: nat)
    requires k <= j && k <= n
    ensures j < Reach(calls, n, k) <==> j < n && forall i | k <= i <= j :: Reached(calls, i)
    decreases n - k
  {
    if k < n {
      if Reached(calls, k) && k < j {
        ExecutedIff(calls, n, k + 1, j);
      }
    }
  }

  lemma {:induction false} CallsGrow(calls: nat -> nat, k: nat)
    ensures (forall i: nat | i < k :: calls(i) >= 1) ==> Calls(calls, k) >= k + 1
    ensures (forall i: nat | i < k :: calls(i) <= 1) ==> Calls(calls, k) <= k + 1
  {
    if k == 0 {
    } else {
      CallsGrow(calls, k - 1);
    }
  }

  /** If every plugin but the last calls Next, all are executed. */
  lemma AllPassOn(calls: nat -> nat, n: nat)
    requires forall i: nat | i + 1 < n :: calls(i) >= 1
    ensures Reach(calls, n, 0) == n
  {
    forall j: nat | j < n ensures Reached(calls, j) {
      CallsGrow(calls, j);
    }
    ReachIs(calls, n, n, 0);
  }

  /** The documented interruption: an executed plugin that does not call Next ends the chain if and only
      if it is the last one or the plugins before it made no more calls than it took to reach it. */
  lemma SilentStopsIff(calls: nat -> nat, n: nat, j: nat)
    requires j < Reach(calls, n, 0) && calls(j) == 0
    ensures Reach(calls, n, 0) == j + 1 <==> j + 1 == n || Calls(calls, j) == j + 1
  {
    ExecutedIff(calls, n, 0, j);
    assert Reached(calls, j) && Calls(calls, j + 1) == Calls(calls, j);
    if j + 1 == n || Calls(calls, j) == j + 1 {
      ReachIs(calls, n, j + 1, 0);
    } else {
      ExecutedIff(calls, n, 0, j + 1);
    }
  }

  /** In particular it does when no plugin before it calls Next twice. */
  lemma SilentStopsSingleCallers(calls: nat -> nat, n: nat, j: nat)
    requires j < Reach(calls, n, 0) && calls(j) == 0 && forall i: nat | i < j :: calls(i) <= 1
    ensures Reach(calls, n, 0) == j + 1
  {
    ExecutedIff(calls, n, 0, j);
    assert Reached(calls, j);
    CallsGrow(calls, j);
    SilentStopsIff(calls, n, j);
  }

  /** A chain that a silent plugin does not end: the first of three calls Next twice. */
  lemma SilentPassedOver(calls: nat -> nat)
    requires calls(0) == 2 && calls(1) == 0
    ensures Reach(calls, 3, 0) == 3
  {
    assert Calls(calls, 1) == 3 && Calls(calls, 2) == 3;
    ReachIs(calls, 3, 3, 0);
  }
}
