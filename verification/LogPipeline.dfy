/**
 The asynchronous logger of internal/shared/logger/logger.go: submitters take entries from a pool and
 offer them to a bounded channel; one processor samples them, batches them, hands the batches to
 the backend and returns the entries to the pool.  Any number of submitters may be between `Take`
 and `Offer` at once.  An entry object is a numbered slot, and its fields are what `cells` has for it.
 */
module LogPipeline {
  import opened Options

  type Fields = map<string, string>
  type Slot = nat

  const CAPACITY: nat := 1000
  const BATCH: nat := 10

  /** What a submission says apart from its fields. */
  datatype Content = Content(level: string, message: string, component: string, error: string,
                             traceId: Option<string>, requestId: Option<string>)

  datatype Record = Record(content: Content, fields: Fields)

  /** A submission: what was left in the entry that it took, and the fields of its logger, its call and
      its context. */
  datatype Submission = Submission(content: Content, left: Fields, own: Fields)

  /** The fields of the submission that is in a slot, and what it found there. */
  datatype Layer = Layer(left: Fields, own: Fields)

  const BLANK := Record(Content("", "", "", "", None, None), map[])

  /** A variadic argument: only strings can serve as keys. */
  datatype Arg = Text(s: string) | Other(s: string)

  /** The key-value pairs of an argument list; a trailing argument or a key that is no string is skipped. */
  function ArgFields(args: seq<Arg>): Fields
    decreases |args|
  {
    if |args| < 2 then map[]
    else (if args[0].Text? then map[args[0].s := args[1].s] else map[]) + ArgFields(args[2..])
  }

  /** What the processor adds from the context. */
  function Injected(c: Content): Fields {
    (if c.traceId.Some? then map["trace_id" := c.traceId.value] else map[])
    + (if c.requestId.Some? then map["request_id" := c.requestId.value] else map[])
  }

  /** Pair `i` of the arguments sets the key. */
  predicate SetsKey(args: seq<Arg>, key: string, i: nat) {
    2 * i + 1 < |args| && args[2 * i] == Text(key)
  }

  /** The pairs after the first are those of the rest. */
  lemma SetsKeyLater(args: seq<Arg>, key: string)
    requires |args| >= 2
    ensures forall i: nat :: SetsKey(args[2..], key, i) <==> SetsKey(args, key, i + 1)
  {
  }

  /** A key is set if and only if some pair sets it ... */
  lemma {:induction false} ArgFieldsIff(args: seq<Arg>, key: string)
    ensures key in ArgFields(args) <==> exists i: nat :: SetsKey(args, key, i)
    decreases |args|
  {
    if |args| >= 2 {
      var rest := args[2..];
      ArgFieldsIff(rest, key);
      SetsKeyLater(args, key);
      assert SetsKey(args, key, 0) <==> args[0] == Text(key);
      if i: nat :| SetsKey(args, key, i) && i > 0 {
        assert SetsKey(rest, key, i - 1);
      }
      if i: nat :| SetsKey(rest, key, i) {
        assert SetsKey(args, key, i + 1);
      }
    }
  }

  /** ... and the last such pair gives its value. */
  lemma {:induction false} LastPairGivesValue(args: seq<Arg>, key: string, i: nat)
    requires SetsKey(args, key, i) && forall j: nat | j > i :: !SetsKey(args, key, j)
    ensures key in ArgFields(args) && ArgFields(args)[key] == args[2 * i + 1].s
    decreases |args|
  {
    var rest := args[2..];
    SetsKeyLater(args, key);
    ArgFieldsIff(rest, key);
    if i == 0 {
      forall j: nat ensures !SetsKey(rest, key, j) {
        assert SetsKey(rest, key, j) <==> SetsKey(args, key, j + 1);
      }
    } else {
      LastPairGivesValue(rest, key, i - 1);
    }
  }

  /** The ids go under their own keys, and nothing else is put in. */
  lemma InjectedIs(c: Content)
    ensures Injected(c).Keys <= {"trace_id", "request_id"}
    ensures "trace_id" in Injected(c) <==> c.traceId.Some?
    ensures "request_id" in Injected(c) <==> c.requestId.Some?
    ensures c.traceId.Some? ==> Injected(c)["trace_id"] == c.traceId.value
    ensures c.requestId.Some? ==> Injected(c)["request_id"] == c.requestId.value
  {
  }

  predicate Covers(cells: map<Slot, Record>, s: seq<Slot>) {
    forall e | e in s :: e in cells
  }

  function RecordsAt(cells: map<Slot, Record>, s: seq<Slot>): (rs: seq<Record>)
    requires Covers(cells, s)
    ensures |rs| == |s|
  {
    seq(|s|, i requires 0 <= i < |s| => cells[s[i]])
  }

  function Contents(rs: seq<Record>): (cs: seq<Content>)
    ensures |cs| == |rs|
  {
    seq(|rs|, i requires 0 <= i < |rs| => rs[i].content)
  }

  /** The record with trace and request ids put in. */
  function Final(r: Record): Record {
    r.(fields := r.fields + Injected(r.content))
  }

  function Finals(rs: seq<Record>): (fs: seq<Record>)
    ensures |fs| == |rs|
  {
    seq(|rs|, i requires 0 <= i < |rs| => Final(rs[i]))
  }

  /** The record that a submission becomes: its own fields over what was left. */
  function AsRecord(s: Submission): Record {
    Record(s.content, s.left + s.own)
  }

  function AsRecords(ss: seq<Submission>): (rs: seq<Record>)
    ensures |rs| == |ss|
  {
    seq(|ss|, i requires 0 <= i < |ss| => AsRecord(ss[i]))
  }

  /** The submission in a slot, with its context's fields. */
  function Submitted(r: Record, l: Layer): Submission {
    Submission(r.content, l.left, l.own + Injected(r.content))
  }

  /** What sampling kept. */
  function Kept<T>(accepted: seq<T>, fate: seq<bool>): seq<T>
    requires |fate| <= |accepted|
  {
    if fate == [] then [] else
    var n := |fate| - 1;
    Kept(accepted, fate[..n]) + if fate[n] then [accepted[n]] else []
  }

  function Flatten(batches: seq<seq<Record>>): seq<Record> {
    if batches == [] then [] else Flatten(batches[..|batches| - 1]) + batches[|batches| - 1]
  }

  /** Every slot is in exactly one place, and there once. */
  ghost predicate Ownership(slots: set<Slot>, pool: set<Slot>, hands: set<Slot>, channel: seq<Slot>, logs: seq<Slot>) {
    && multiset(pool) + multiset(hands) + multiset(channel) + multiset(logs) == multiset(slots)
    && hands <= slots
  }

  /** What was delivered, then the batch, then the channel is what was accepted, in order, less exactly
      what was sampled out. */
  ghost predicate Account<T>(delivered: seq<T>, logs: seq<T>, channel: seq<T>, accepted: seq<T>, fate: seq<bool>) {
    && |fate| <= |accepted|
    && delivered + logs == Kept(accepted, fate)
    && channel == accepted[|fate|..]
  }

  /** The account of whole records. */
  ghost predicate Conserved(cells: map<Slot, Record>, channel: seq<Slot>, logs: seq<Slot>, backend: seq<seq<Record>>,
                            accepted: seq<Submission>, fate: seq<bool>) {
    && Covers(cells, channel) && Covers(cells, logs)
    && Account(Flatten(backend), RecordsAt(cells, logs), Finals(RecordsAt(cells, channel)), AsRecords(accepted), fate)
  }

  ghost predicate Bounds(channel: seq<Slot>, logs: seq<Slot>, backend: seq<seq<Record>>) {
    |channel| <= CAPACITY && |logs| < BATCH && forall b | b in backend :: 1 <= |b| <= BATCH
  }

  /** A slot's fields are its submission's own over what that found there; a pooled slot has only leftovers. */
  ghost predicate Layered(cells: map<Slot, Record>, layers: map<Slot, Layer>, pool: set<Slot>) {
    forall e | e in cells ::
      e in layers && cells[e].fields == layers[e].left + layers[e].own && (e in pool ==> layers[e].own == map[])
  }

  /** Without a leak no submission has found anything. */
  ghost predicate Clean(layers: map<Slot, Layer>, accepted: seq<Submission>, leaky: bool) {
    !leaky ==> (forall e | e in layers :: layers[e].left == map[]) && (forall s | s in accepted :: s.left == map[])
  }

  class Pipeline {
    var cells: map<Slot, Record>
    var pool: set<Slot>
    var channel: seq<Slot>
    var logs: seq<Slot>
    /** The batches that the backend was given. */
    var backend: seq<seq<Record>>
    /** What was dropped at error level and went to the fallback logger. */
    var fallback: seq<Content>
    /** Slots that submitters hold. */
    ghost var hands: set<Slot>
    /** All submissions that entered the channel, in that order. */
    ghost var accepted: seq<Submission>
    /** For each accepted submission that left the channel, whether sampling kept it. */
    ghost var fate: seq<bool>
    ghost var layers: map<Slot, Layer>
    /** An entry with fields in it was ever dropped or sampled out. */
    ghost var leaky: bool

    ghost predicate Valid()
      reads this
    {
      && Ownership(cells.Keys, pool, hands, channel, logs)
      && Bounds(channel, logs, backend)
      && Told(logs)
    }

    /** The account, with `batch` as the current batch. */
    ghost predicate Told(batch: seq<Slot>)
      reads this
    {
      && Conserved(cells, channel, batch, backend, accepted, fate)
      && Layered(cells, layers, pool) && Clean(layers, accepted, leaky)
    }

    constructor ()
      ensures Valid() && cells == map[] && pool == {} && hands == {} && channel == logs == []
      ensures backend == [] && fallback == [] && accepted == [] && fate == [] && !leaky
    {
      cells, pool, channel, logs, backend, fallback := map[], {}, [], [], [], [];
      hands, accepted, fate, layers, leaky := {}, [], [], map[], false;
    }

    /** `logPool.Get()`: any pooled entry, or a new one. */
    method Take(pick: Option<Slot>) returns (e: Slot)
      requires Valid() && (pick.Some? ==> pick.value in pool)
      modifies `cells, `pool, `hands, `layers
      ensures Valid() && e !in old(hands) && hands == old(hands) + {e} && pool == old(pool) - {e}
      ensures if pick.Some? then e == pick.value && cells == old(cells)
              else e !in old(cells) && cells == old(cells)[e := BLANK]
      ensures e in cells && e in layers && layers[e] == Layer(cells[e].fields, map[])
    {
      hide Valid;
      if pick.Some? {
        e := pick.value;
        TakePooled(e);
      } else {
        e := TakeNew();
      }
    }

    method TakePooled(e: Slot)
      requires Valid() && e in pool
      modifies `pool, `hands
      ensures Valid() && e !in old(hands) && hands == old(hands) + {e} && pool == old(pool) - {e}
      ensures e in cells && e in layers && layers[e] == Layer(cells[e].fields, map[])
    {
      hide Ownership, Conserved, Layered, Clean, Bounds;
      TakeOwned(cells.Keys, pool, hands, channel, logs, e);
      TakeLayered(cells, layers, pool, e);
      pool := pool - {e};
      hands := hands + {e};
    }

    method TakeNew() returns (e: Slot)
      requires Valid()
      modifies `cells, `hands, `layers
      ensures Valid() && e !in old(hands) && hands == old(hands) + {e} && e !in pool
      ensures e !in old(cells) && cells == old(cells)[e := BLANK]
      ensures e in layers && layers[e] == Layer(cells[e].fields, map[])
    {
      hide Ownership, Conserved, Layered, Clean, Bounds;
      e := FreshSlot(cells.Keys);
      NewOwned(cells.Keys, pool, hands, channel, logs, e);
      UpdateTold(e, BLANK);
      SlotLayered(cells, layers, pool, e, BLANK, Layer(map[], map[]));
      LayerClean(layers, accepted, leaky, e, Layer(map[], map[]));
      assert cells[e := BLANK].Keys == cells.Keys + {e};
      cells := cells[e := BLANK];
      layers := layers[e := Layer(map[], map[])];
      hands := hands + {e};
    }

    /** A slot that is neither in the channel nor in the batch may change. */
    lemma UpdateTold(e: Slot, r: Record)
      requires Valid() && e !in channel && e !in logs
      ensures Conserved(cells[e := r], channel, logs, backend, accepted, fate)
    {
      hide Account;
      SlotsSpare(cells, channel, e, r);
      SlotsSpare(cells, logs, e, r);
    }

    /** Fills a held entry in: the logger's fields first, then those of the call. */
    method Fill(e: Slot, content: Content, preset: Fields, args: seq<Arg>)
      requires Valid() && e in hands && e in cells && e in layers && layers[e].own == map[]
      modifies `cells, `layers
      ensures Valid() && e in layers
      ensures layers == old(layers)[e := Layer(old(cells[e].fields), preset + ArgFields(args))]
      ensures cells == old(cells)[e := Record(content, old(cells[e].fields) + (preset + ArgFields(args)))]
    {
      hide Ownership, Conserved, ArgFields, Layered, Clean, Bounds;
      var fields := MergeFields(cells[e].fields, preset, args);
      var r := Record(content, fields);
      HeldElsewhere(cells.Keys, pool, hands, channel, logs, e);
      UpdateTold(e, r);
      HeldLayer(cells, layers, pool, accepted, leaky, e);
      SlotLayered(cells, layers, pool, e, r, Layer(cells[e].fields, preset + ArgFields(args)));
      LayerClean(layers, accepted, leaky, e, Layer(cells[e].fields, preset + ArgFields(args)));
      assert cells[e := r].Keys == cells.Keys;
      layers := layers[e := Layer(cells[e].fields, preset + ArgFields(args))];
      cells := cells[e := r];
    }

    /** The select at the end of submit: into the channel if there is room, else back to the pool
        as it is. */
    method Offer(e: Slot) returns (sent: bool)
      requires Valid() && e in hands
      modifies `channel, `hands, `pool, `accepted, `fallback, `layers, `leaky
      ensures Valid() && hands == old(hands) - {e} && e in old(layers)
      ensures sent <==> |old(channel)| < 1000
      ensures leaky == (old(leaky) || (!sent && cells[e].fields != map[]))
      ensures sent ==> channel == old(channel) + [e] && pool == old(pool) && fallback == old(fallback)
                       && accepted == old(accepted) + [Submitted(cells[e], old(layers)[e])]
      ensures !sent ==> channel == old(channel) && accepted == old(accepted) && pool == old(pool) + {e}
                        && fallback == old(fallback)
                                       + if cells[e].content.level == "error" then [cells[e].content] else []
    {
      hide Ownership, Conserved;
      HeldElsewhere(cells.Keys, pool, hands, channel, logs, e);
      sent := |channel| < CAPACITY;
      if sent {
        Send(e);
      } else {
        Drop(e);
      }
    }

    method Send(e: Slot)
      requires Valid() && e in hands && |channel| < CAPACITY && e in layers
      modifies `channel, `hands, `accepted
      ensures Valid() && hands == old(hands) - {e} && channel == old(channel) + [e]
      ensures accepted == old(accepted) + [Submitted(cells[e], layers[e])]
    {
      hide Ownership, Conserved;
      SendOwned(cells.Keys, pool, hands, channel, logs, e);
      FinalIsSubmitted(cells[e], layers[e]);
      SendConserves(cells, channel, logs, backend, accepted, fate, e, Submitted(cells[e], layers[e]));
      channel := channel + [e];
      accepted := accepted + [Submitted(cells[e], layers[e])];
      hands := hands - {e};
    }

    /** The dropped entry goes to the pool as it is; only an error is written, by the fallback logger. */
    method Drop(e: Slot)
      requires Valid() && e in hands
      modifies `hands, `pool, `fallback, `layers, `leaky
      ensures Valid() && hands == old(hands) - {e} && pool == old(pool) + {e}
      ensures leaky == (old(leaky) || cells[e].fields != map[])
      ensures fallback == old(fallback) + if cells[e].content.level == "error" then [cells[e].content] else []
    {
      hide Ownership, Conserved, Layered, Clean;
      DropOwned(cells.Keys, pool, hands, channel, logs, e);
      fallback := fallback + if cells[e].content.level == "error" then [cells[e].content] else [];
      hands := hands - {e};
      PutBack(e);
    }

    /** A slot goes to the pool with its fields still in it. */
    method PutBack(e: Slot)
      requires e in cells && Layered(cells, layers, pool) && Clean(layers, accepted, leaky)
      modifies `pool, `layers, `leaky
      ensures Layered(cells, layers, pool) && Clean(layers, accepted, leaky) && pool == old(pool) + {e}
      ensures leaky == (old(leaky) || cells[e].fields != map[])
    {
      assert cells[e].fields + map[] == cells[e].fields;
      pool := pool + {e};
      leaky := leaky || cells[e].fields != map[];
      layers := layers[e := Layer(cells[e].fields, map[])];
    }

    /** One entry of the channel: trace and request ids are injected, then sampling decides. */
    method Receive(keep: bool)
      requires Valid() && channel != []
      modifies `cells, `channel, `logs, `pool, `backend, `fate, `layers, `leaky
      ensures Valid() && channel == old(channel[1..]) && fate == old(fate) + [keep]
      ensures !keep ==> logs == old(logs) && backend == old(backend) && cells == old(Inject(cells, channel[0]))
                        && pool == old(pool + {channel[0]})
      ensures leaky == (old(leaky) || (!keep && old(Final(cells[channel[0]]).fields) != map[]))
      ensures keep && |old(logs)| + 1 < 10 ==>
                logs == old(logs + [channel[0]]) && backend == old(backend) && cells == old(Inject(cells, channel[0]))
                && pool == old(pool)
      ensures keep && |old(logs)| + 1 == 10 ==>
                logs == [] && backend == old(backend + [NextBatch(cells, channel, logs)])
                && pool == old(pool + SlotsOf(logs + [channel[0]]))
      ensures PoolKept(old(cells), old(pool), cells, pool)
    {
      hide Ownership, Conserved, Layered, Clean;
      ReceiveOwned(cells.Keys, pool, hands, channel, logs);
      ValidPool(cells.Keys, pool, hands, channel, logs);
      InjectIds();
      if keep {
        Keep();
      } else {
        SampleOut();
      }
    }

    method InjectIds()
      requires Valid() && channel != []
      modifies `cells, `layers
      ensures Valid() && cells == old(Inject(cells, channel[0])) && old(channel[0] in layers)
      ensures layers == old(layers[channel[0] := InjectOwn(layers[channel[0]], cells[channel[0]].content)])
    {
      hide Ownership, Conserved;
      var e := channel[0];
      ReceiveOwned(cells.Keys, pool, hands, channel, logs);
      InjectConserves(cells, channel, logs, backend, accepted, fate);
      assert Inject(cells, e).Keys == cells.Keys;
      InjectLayered(cells, layers, pool, e);
      layers := layers[e := InjectOwn(layers[e], cells[e].content)];
      cells := Inject(cells, e);
    }

    method SampleOut()
      requires Valid() && channel != [] && Ready(cells, channel[0])
      modifies `channel, `pool, `fate, `layers, `leaky
      ensures Valid() && channel == old(channel[1..]) && fate == old(fate) + [false]
      ensures pool == old(pool) + {old(channel[0])}
      ensures leaky == (old(leaky) || old(cells[channel[0]].fields) != map[])
    {
      hide Ownership, Conserved, Layered, Clean;
      ReceiveOwned(cells.Keys, pool, hands, channel, logs);
      ReceiveConserves(cells, channel, logs, backend, accepted, fate, false);
      PutBack(channel[0]);
      channel := channel[1..];
      fate := fate + [false];
    }

    method Keep()
      requires Valid() && channel != [] && Ready(cells, channel[0])
      modifies `cells, `channel, `logs, `pool, `backend, `fate, `layers
      ensures Valid() && channel == old(channel[1..]) && fate == old(fate) + [true]
      ensures |old(logs)| + 1 < BATCH ==>
              logs == old(logs + [channel[0]]) && backend == old(backend) && cells == old(cells)
                                          && pool == old(pool)
      ensures |old(logs)| + 1 == BATCH ==>
                logs == [] && backend == old(backend + [RecordsAt(cells, logs + [channel[0]])])
                && pool == old(pool + SlotsOf(logs + [channel[0]]))
      ensures PoolKept(old(cells), old(pool), cells, pool)
    {
      hide Ownership, Conserved, Layered;
      ValidPool(cells.Keys, pool, hands, channel, logs);
      Append();
      if |logs| >= BATCH {
        Flush();
      }
    }

    method Append()
      requires Valid() && channel != [] && Ready(cells, channel[0])
      modifies `channel, `logs, `fate
      ensures Ownership(cells.Keys, pool, hands, channel, logs) && Told(logs)
      ensures channel == old(channel[1..]) && logs == old(logs + [channel[0]]) && fate == old(fate) + [true]
    {
      hide Ownership, Conserved, Layered;
      ReceiveOwned(cells.Keys, pool, hands, channel, logs);
      ReceiveConserves(cells, channel, logs, backend, accepted, fate, true);
      logs := logs + [channel[0]];
      channel := channel[1..];
      fate := fate + [true];
    }

    /** The ticker: a partial batch goes out too. */
    method Tick()
      requires Valid()
      modifies `cells, `logs, `pool, `backend, `layers
      ensures Valid() && logs == [] && PoolKept(old(cells), old(pool), cells, pool)
      ensures if old(logs) == [] then backend == old(backend) else
                Covers(old(cells), old(logs)) && backend == old(backend) + [old(RecordsAt(cells, logs))]
    {
      hide Ownership, Conserved, Layered;
      ValidPool(cells.Keys, pool, hands, channel, logs);
      if |logs| > 0 {
        Flush();
      }
    }

    /** flushLogs: one call of the backend, then every entry is cleared and pooled. */
    method Flush()
      requires Ownership(cells.Keys, pool, hands, channel, logs) && Told(logs)
      requires Bounds(channel, [], backend) && 0 < |logs| <= BATCH
      modifies `cells, `logs, `pool, `backend, `layers
      ensures Valid() && logs == [] && pool == old(pool) + SlotsOf(old(logs))
      ensures Covers(old(cells), old(logs)) && backend == old(backend) + [old(RecordsAt(cells, logs))]
      ensures PoolKept(old(cells), old(pool), cells, pool)
    {
      hide Ownership, Conserved, Layered;
      FlushConserves(cells, channel, logs, backend, accepted, fate);
      backend := backend + [RecordsAt(cells, logs)];
      ClearAll();
    }

    method ClearAll()
      requires Ownership(cells.Keys, pool, hands, channel, logs) && Told([])
      modifies `cells, `logs, `pool, `layers
      ensures Ownership(cells.Keys, pool, hands, channel, []) && logs == [] && Told([])
      ensures pool == old(pool) + SlotsOf(old(logs)) && PoolKept(old(cells), old(pool), cells, pool)
    {
      hide Ownership, Conserved, Layered;
      ValidPool(cells.Keys, pool, hands, channel, logs);
      while logs != []
        invariant Ownership(cells.Keys, pool, hands, channel, logs) && Told([])
        invariant pool + SlotsOf(logs) == old(pool) + SlotsOf(old(logs))
        invariant PoolKept(old(cells), old(pool), cells, pool)
        decreases |logs|
      {
        assert SlotsOf(logs) == {logs[0]} + SlotsOf(logs[1..]);
        Clear();
      }
    }

    /** Clears the first entry of the batch and pools it. */
    method Clear()
      requires Ownership(cells.Keys, pool, hands, channel, logs) && logs != [] && Told([])
      modifies `cells, `logs, `pool, `layers
      ensures Ownership(cells.Keys, pool, hands, channel, logs) && logs == old(logs[1..]) && Told([])
      ensures pool == old(pool) + {old(logs[0])} && old(logs[0]) !in old(pool)
      ensures old(logs[0]) in old(cells) && cells == old(cells)[old(logs[0]) := old(cells[logs[0]]).(fields := map[])]
    {
      hide Ownership, Conserved, Layered;
      var e := logs[0];
      ClearOwned(cells.Keys, pool, hands, channel, logs);
      ClearTold(e);
      LayeredCleared(cells, layers, pool, e);
      assert cells[e := cells[e].(fields := map[])].Keys == cells.Keys;
      cells := cells[e := cells[e].(fields := map[])];
      layers := layers[e := Layer(map[], map[])];
      pool := pool + {e};
      logs := logs[1..];
    }

    lemma ClearTold(e: Slot)
      requires Told([]) && e !in channel && e in cells
      ensures Conserved(cells[e := cells[e].(fields := map[])], channel, [], backend, accepted, fate)
    {
      hide Account;
      SlotsSpare(cells, channel, e, cells[e].(fields := map[]));
    }
  }

  ghost function SlotsOf(s: seq<Slot>): set<Slot> {
    set e | e in s
  }

  /** The fields of a slot with trace and request ids put in. */
  function Inject(cells: map<Slot, Record>, e: Slot): map<Slot, Record>
    requires e in cells
  {
    cells[e := Final(cells[e])]
  }

  function InjectOwn(l: Layer, c: Content): Layer {
    l.(own := l.own + Injected(c))
  }

  /** The ids are in the slot already. */
  predicate Ready(cells: map<Slot, Record>, e: Slot) {
    e in cells && cells[e] == Final(cells[e])
  }

  /** The batch as it is when the first entry of the channel joins it. */
  function NextBatch(cells: map<Slot, Record>, channel: seq<Slot>, logs: seq<Slot>): seq<Record>
    requires Covers(cells, channel) && Covers(cells, logs) && channel != []
  {
    RecordsAt(Inject(cells, channel[0]), logs + [channel[0]])
  }

  /** Pooled slots stay pooled and as they are. */
  ghost predicate PoolKept(cells: map<Slot, Record>, pool: set<Slot>, cells': map<Slot, Record>, pool': set<Slot>) {
    pool <= pool' && forall e | e in pool :: e in cells && e in cells' && cells'[e] == cells[e]
  }

  method MergeFields(left: Fields, preset: Fields, args: seq<Arg>) returns (fields: Fields)
    ensures fields == left + (preset + ArgFields(args))
  {
    fields := left + preset;
    var i := 0;
    MergeAssociates(left, preset, ArgFields(args));
    assert args[0..] == args;
    while i + 1 < |args|
      invariant 0 <= i <= |args|
      invariant fields + ArgFields(args[i..]) == left + (preset + ArgFields(args))
    {
      ArgStep(fields, args, i);
      if args[i].Text? {
        fields := fields[args[i].s := args[i + 1].s];
      }
      i := i + 2;
    }
    assert fields + map[] == fields;
  }

  lemma MergeAssociates(a: Fields, b: Fields, c: Fields)
    ensures (a + b) + c == a + (b + c)
  {
  }

  lemma ArgStep(fields: Fields, args: seq<Arg>, i: nat)
    requires i + 1 < |args|
    ensures fields + ArgFields(args[i..])
            == (if args[i].Text? then fields[args[i].s := args[i + 1].s] else fields) + ArgFields(args[i + 2..])
  {
    var rest := args[i..];
    assert rest[2..] == args[i + 2..];
    var first: Fields := if args[i].Text? then map[args[i].s := args[i + 1].s] else map[];
    MergeAssociates(fields, first, ArgFields(args[i + 2..]));
    assert fields + first == if args[i].Text? then fields[args[i].s := args[i + 1].s] else fields;
  }

  method FreshSlot(slots: set<Slot>) returns (e: Slot)
    ensures e !in slots
  {
    e := 0;
    var rest := slots;
    while e in slots
      invariant rest == set s | s in slots && s >= e
      decreases |rest|
    {
      assert e in rest;
      rest := rest - {e};
      e := e + 1;
    }
  }

  lemma Alone(slots: set<Slot>, pool: set<Slot>, hands: set<Slot>, channel: seq<Slot>, logs: seq<Slot>, e: Slot)
    requires Ownership(slots, pool, hands, channel, logs)
    ensures multiset(pool)[e] + multiset(hands)[e] + multiset(channel)[e] + multiset(logs)[e]
            == if e in slots then 1 else 0
  {
    assert (multiset(pool) + multiset(hands) + multiset(channel) + multiset(logs))[e] == multiset(slots)[e];
  }

  lemma HeldElsewhere(slots: set<Slot>, pool: set<Slot>, hands: set<Slot>, channel: seq<Slot>, logs: seq<Slot>, e: Slot)
    requires Ownership(slots, pool, hands, channel, logs) && e in hands
    ensures e in slots && e !in pool && e !in channel && e !in logs
  {
    Alone(slots, pool, hands, channel, logs, e);
  }

  lemma TakeOwned(slots: set<Slot>, pool: set<Slot>, hands: set<Slot>, channel: seq<Slot>, logs: seq<Slot>, e: Slot)
    requires Ownership(slots, pool, hands, channel, logs) && e in pool
    ensures e in slots && e !in hands
    ensures Ownership(slots, pool - {e}, hands + {e}, channel, logs)
  {
    Alone(slots, pool, hands, channel, logs, e);
    assert multiset(pool - {e}) + multiset(hands + {e}) == multiset(pool) + multiset(hands);
  }

  lemma NewOwned(slots: set<Slot>, pool: set<Slot>, hands: set<Slot>, channel: seq<Slot>, logs: seq<Slot>, e: Slot)
    requires Ownership(slots, pool, hands, channel, logs) && e !in slots
    ensures e !in pool && e !in hands && e !in channel && e !in logs
    ensures Ownership(slots + {e}, pool, hands + {e}, channel, logs)
  {
    Alone(slots, pool, hands, channel, logs, e);
    assert multiset(hands + {e}) == multiset(hands) + multiset{e};
    assert multiset(slots + {e}) == multiset(slots) + multiset{e};
  }

  lemma SendOwned(slots: set<Slot>, pool: set<Slot>, hands: set<Slot>, channel: seq<Slot>, logs: seq<Slot>, e: Slot)
    requires Ownership(slots, pool, hands, channel, logs) && e in hands
    ensures e in slots && Ownership(slots, pool, hands - {e}, channel + [e], logs)
  {
    assert multiset(hands - {e}) + multiset(channel + [e]) == multiset(hands) + multiset(channel);
  }

  lemma DropOwned(slots: set<Slot>, pool: set<Slot>, hands: set<Slot>, channel: seq<Slot>, logs: seq<Slot>, e: Slot)
    requires Ownership(slots, pool, hands, channel, logs) && e in hands
    ensures e in slots && Ownership(slots, pool + {e}, hands - {e}, channel, logs)
  {
    Alone(slots, pool, hands, channel, logs, e);
    assert multiset(pool + {e}) + multiset(hands - {e}) == multiset(pool) + multiset(hands);
  }

  lemma ReceiveOwned(slots: set<Slot>, pool: set<Slot>, hands: set<Slot>, channel: seq<Slot>, logs: seq<Slot>)
    requires Ownership(slots, pool, hands, channel, logs) && channel != []
    ensures channel[0] in slots && channel[0] !in pool && channel[0] !in channel[1..] && channel[0] !in logs
    ensures Ownership(slots, pool + {channel[0]}, hands, channel[1..], logs)
    ensures Ownership(slots, pool, hands, channel[1..], logs + [channel[0]])
  {
    assert channel == [channel[0]] + channel[1..];
    assert multiset(channel) == multiset{channel[0]} + multiset(channel[1..]);
    Alone(slots, pool, hands, channel, logs, channel[0]);
    assert multiset(pool + {channel[0]}) == multiset(pool) + multiset{channel[0]};
    assert multiset(logs + [channel[0]]) == multiset(logs) + multiset{channel[0]};
  }

  lemma ClearOwned(slots: set<Slot>, pool: set<Slot>, hands: set<Slot>, channel: seq<Slot>, logs: seq<Slot>)
    requires Ownership(slots, pool, hands, channel, logs) && logs != []
    ensures logs[0] in slots && logs[0] !in pool && logs[0] !in channel && logs[0] !in logs[1..]
    ensures Ownership(slots, pool + {logs[0]}, hands, channel, logs[1..])
  {
    assert logs == [logs[0]] + logs[1..];
    assert multiset(logs) == multiset{logs[0]} + multiset(logs[1..]);
    Alone(slots, pool, hands, channel, logs, logs[0]);
    assert multiset(pool + {logs[0]}) == multiset(pool) + multiset{logs[0]};
  }

  lemma SlotsSpare(cells: map<Slot, Record>, s: seq<Slot>, e: Slot, r: Record)
    requires Covers(cells, s) && e !in s
    ensures Covers(cells[e := r], s) && RecordsAt(cells[e := r], s) == RecordsAt(cells, s)
  {
  }

  lemma ValidPool(slots: set<Slot>, pool: set<Slot>, hands: set<Slot>, channel: seq<Slot>, logs: seq<Slot>)
    requires Ownership(slots, pool, hands, channel, logs)
    ensures pool <= slots
  {
    forall e | e in pool ensures e in slots {
      Alone(slots, pool, hands, channel, logs, e);
    }
  }

  lemma TakeLayered(cells: map<Slot, Record>, layers: map<Slot, Layer>, pool: set<Slot>, e: Slot)
    requires Layered(cells, layers, pool) && e in pool && e in cells
    ensures Layered(cells, layers, pool - {e}) && layers[e] == Layer(cells[e].fields, map[])
  {
    assert layers[e].left + map[] == layers[e].left;
  }

  lemma SlotLayered(cells: map<Slot, Record>, layers: map<Slot, Layer>, pool: set<Slot>, e: Slot, r: Record, l: Layer)
    requires Layered(cells, layers, pool) && r.fields == l.left + l.own && (e in pool ==> l.own == map[])
    ensures Layered(cells[e := r], layers[e := l], pool)
  {
  }

  lemma LayerClean(layers: map<Slot, Layer>, accepted: seq<Submission>, leaky: bool, e: Slot, l: Layer)
    requires Clean(layers, accepted, leaky) && (!leaky ==> l.left == map[])
    ensures Clean(layers[e := l], accepted, leaky)
  {
  }

  /** A slot without fields of its own has what was left in it, which is nothing unless there was a leak. */
  lemma HeldLayer(cells: map<Slot, Record>, layers: map<Slot, Layer>, pool: set<Slot>, accepted: seq<Submission>,
                  leaky: bool, e: Slot)
    requires Layered(cells, layers, pool) && Clean(layers, accepted, leaky) && e in cells && e in layers
    requires layers[e].own == map[]
    ensures cells[e].fields == layers[e].left && (!leaky ==> cells[e].fields == map[])
  {
    assert layers[e].left + map[] == layers[e].left;
  }

  lemma InjectLayered(cells: map<Slot, Record>, layers: map<Slot, Layer>, pool: set<Slot>, e: Slot)
    requires Layered(cells, layers, pool) && e in cells && e !in pool
    ensures e in layers && Layered(Inject(cells, e), layers[e := InjectOwn(layers[e], cells[e].content)], pool)
  {
    hide Injected;
    MergeAssociates(layers[e].left, layers[e].own, Injected(cells[e].content));
  }

  lemma LayeredCleared(cells: map<Slot, Record>, layers: map<Slot, Layer>, pool: set<Slot>, e: Slot)
    requires Layered(cells, layers, pool) && e in cells
    ensures Layered(cells[e := cells[e].(fields := map[])], layers[e := Layer(map[], map[])], pool + {e})
  {
  }

  lemma FinalIsSubmitted(r: Record, l: Layer)
    requires r.fields == l.left + l.own
    ensures AsRecord(Submitted(r, l)) == Final(r)
  {
    hide Injected;
    MergeAssociates(l.left, l.own, Injected(r.content));
  }

  lemma NothingUnder(fields: Fields)
    ensures map[] + fields == fields
  {
  }

  /*---------------------------------- the account ----------------------------------*/

  lemma SendAccount<T>(delivered: seq<T>, logs: seq<T>, channel: seq<T>, accepted: seq<T>, fate: seq<bool>, x: T)
    requires Account(delivered, logs, channel, accepted, fate)
    ensures Account(delivered, logs, channel + [x], accepted + [x], fate)
  {
    KeptGrows(accepted, [x], fate);
    assert (accepted + [x])[|fate|..] == accepted[|fate|..] + [x];
  }

  lemma ReceiveAccount<T>(delivered: seq<T>, logs: seq<T>, channel: seq<T>, accepted: seq<T>, fate: seq<bool>,
                          keep: bool)
    requires Account(delivered, logs, channel, accepted, fate) && channel != []
    ensures Account(delivered, if keep then logs + [channel[0]] else logs, channel[1..], accepted, fate + [keep])
  {
    assert (fate + [keep])[..|fate|] == fate;
    assert accepted[|fate|..][1..] == accepted[|fate| + 1..];
    assert channel[0] == accepted[|fate|];
  }

  lemma FlushAccount<T>(delivered: seq<T>, logs: seq<T>, channel: seq<T>, accepted: seq<T>, fate: seq<bool>)
    requires Account(delivered, logs, channel, accepted, fate)
    ensures Account(delivered + logs, [], channel, accepted, fate)
  {
    assert delivered + logs + [] == delivered + logs;
  }

  lemma SendConserves(cells: map<Slot, Record>, channel: seq<Slot>, logs: seq<Slot>, backend: seq<seq<Record>>,
                      accepted: seq<Submission>, fate: seq<bool>, e: Slot, s: Submission)
    requires Conserved(cells, channel, logs, backend, accepted, fate) && e in cells && AsRecord(s) == Final(cells[e])
    ensures Conserved(cells, channel + [e], logs, backend, accepted + [s], fate)
  {
    hide Account;
    SendAccount(Flatten(backend), RecordsAt(cells, logs), Finals(RecordsAt(cells, channel)), AsRecords(accepted), fate,
                AsRecord(s));
    assert AsRecords(accepted + [s]) == AsRecords(accepted) + [AsRecord(s)];
    assert Finals(RecordsAt(cells, channel + [e])) == Finals(RecordsAt(cells, channel)) + [AsRecord(s)];
  }

  /** Putting the ids in twice is putting them in once. */
  lemma FinalTwice(r: Record)
    ensures Final(Final(r)) == Final(r)
  {
    var ids := Injected(r.content);
    assert (r.fields + ids) + ids == r.fields + ids;
  }

  lemma InjectConserves(cells: map<Slot, Record>, channel: seq<Slot>, logs: seq<Slot>, backend: seq<seq<Record>>,
                        accepted: seq<Submission>, fate: seq<bool>)
    requires Conserved(cells, channel, logs, backend, accepted, fate)
    requires channel != [] && channel[0] in cells && channel[0] !in logs
    ensures Conserved(Inject(cells, channel[0]), channel, logs, backend, accepted, fate)
  {
    hide Account;
    var after := Inject(cells, channel[0]);
    FinalTwice(cells[channel[0]]);
    assert Finals(RecordsAt(after, channel)) == Finals(RecordsAt(cells, channel));
    SlotsSpare(cells, logs, channel[0], after[channel[0]]);
  }

  lemma ReceiveConserves(cells: map<Slot, Record>, channel: seq<Slot>, logs: seq<Slot>, backend: seq<seq<Record>>,
                         accepted: seq<Submission>, fate: seq<bool>, keep: bool)
    requires Conserved(cells, channel, logs, backend, accepted, fate) && channel != [] && Ready(cells, channel[0])
    ensures Conserved(cells, channel[1..], if keep then logs + [channel[0]] else logs, backend, accepted, fate + [keep])
  {
    hide Account;
    ReceiveAccount(Flatten(backend), RecordsAt(cells, logs), Finals(RecordsAt(cells, channel)), AsRecords(accepted),
                   fate, keep);
    assert Finals(RecordsAt(cells, channel[1..])) == Finals(RecordsAt(cells, channel))[1..];
    assert RecordsAt(cells, logs + [channel[0]]) == RecordsAt(cells, logs) + [cells[channel[0]]];
  }

  lemma FlushConserves(cells: map<Slot, Record>, channel: seq<Slot>, logs: seq<Slot>, backend: seq<seq<Record>>,
                       accepted: seq<Submission>, fate: seq<bool>)
    requires Conserved(cells, channel, logs, backend, accepted, fate)
    ensures Covers(cells, logs) && Conserved(cells, channel, [], backend + [RecordsAt(cells, logs)], accepted, fate)
  {
    hide Account;
    var batch := RecordsAt(cells, logs);
    FlushAccount(Flatten(backend), batch, Finals(RecordsAt(cells, channel)), AsRecords(accepted), fate);
    assert (backend + [batch])[..|backend|] == backend;
    assert RecordsAt(cells, []) == [];
  }

  lemma {:induction false} KeptGrows<T>(a: seq<T>, b: seq<T>, fate: seq<bool>)
    requires |fate| <= |a|
    ensures Kept(a + b, fate) == Kept(a, fate)
  {
    if fate == [] {
    } else {
      KeptGrows(a, b, fate[..|fate| - 1]);
    }
  }

  lemma {:induction false} KeptAll<T>(accepted: seq<T>, fate: seq<bool>)
    requires |fate| <= |accepted|
    ensures (forall k | 0 <= k < |fate| :: fate[k]) ==> Kept(accepted, fate) == accepted[..|fate|]
    ensures |Kept(accepted, fate)| == |fate| ==> forall k | 0 <= k < |fate| :: fate[k]
    ensures |Kept(accepted, fate)| <= |fate|
  {
    if fate == [] {
    } else {
      KeptAll(accepted, fate[..|fate| - 1]);
      assert forall k | 0 <= k < |fate| - 1 :: fate[k] == fate[..|fate| - 1][k];
    }
  }

  /** Delivered, batched and waiting together are exactly what was accepted if and only if nothing was
      sampled out. */
  lemma AllThereIffNothingSampled<T>(delivered: seq<T>, logs: seq<T>, channel: seq<T>, accepted: seq<T>,
                                     fate: seq<bool>)
    requires Account(delivered, logs, channel, accepted, fate)
    ensures delivered + logs + channel == accepted <==> forall k | 0 <= k < |fate| :: fate[k]
  {
    KeptAll(accepted, fate);
    assert accepted[..|fate|] + accepted[|fate|..] == accepted;
    if Kept(accepted, fate) + accepted[|fate|..] == accepted {
      assert |Kept(accepted, fate)| == |fate|;
    }
  }

  lemma {:induction false} KeptRecords(ss: seq<Submission>, fate: seq<bool>)
    requires |fate| <= |ss|
    ensures Kept(AsRecords(ss), fate) == AsRecords(Kept(ss, fate))
  {
    if fate == [] {
    } else {
      KeptRecords(ss, fate[..|fate| - 1]);
    }
  }

  /** In every pipeline that the methods can produce: everything accepted is there, in order, if and only if
      nothing was sampled out. */
  lemma NothingLostIffNothingSampled(p: Pipeline)
    requires p.Valid()
    ensures Covers(p.cells, p.logs) && Covers(p.cells, p.channel)
    ensures (Flatten(p.backend) + RecordsAt(p.cells, p.logs) + Finals(RecordsAt(p.cells, p.channel))
             == AsRecords(p.accepted))
            <==> forall k | 0 <= k < |p.fate| :: p.fate[k]
  {
    AllThereIffNothingSampled(Flatten(p.backend), RecordsAt(p.cells, p.logs), Finals(RecordsAt(p.cells, p.channel)),
                              AsRecords(p.accepted), p.fate);
  }

  lemma OverwrittenIff(left: Fields, own: Fields)
    ensures left + own == own <==> left.Keys <= own.Keys
  {
    assert (left + own).Keys == left.Keys + own.Keys;
    if left.Keys <= own.Keys {
      assert left + own == own;
    }
  }

  /** In every pipeline, whatever was dropped or sampled out: the records handed to the backend and those of
      the current batch are, in order, the kept submissions; and each carries exactly its submission's own
      fields if and only if the submission overwrote all that was left in the entry that it took. */
  lemma DeliveredExactlyIff(p: Pipeline)
    requires p.Valid()
    ensures Covers(p.cells, p.logs) && |p.fate| <= |p.accepted|
    ensures var delivered, kept := Flatten(p.backend) + RecordsAt(p.cells, p.logs), Kept(p.accepted, p.fate);
            && |delivered| == |kept|
            && forall i | 0 <= i < |kept| ::
                 && delivered[i].content == kept[i].content
                 && (delivered[i].fields == kept[i].own <==> kept[i].left.Keys <= kept[i].own.Keys)
  {
    KeptRecords(p.accepted, p.fate);
    var delivered, kept := Flatten(p.backend) + RecordsAt(p.cells, p.logs), Kept(p.accepted, p.fate);
    forall i | 0 <= i < |kept|
      ensures delivered[i] == AsRecord(kept[i])
              && (delivered[i].fields == kept[i].own <==> kept[i].left.Keys <= kept[i].own.Keys)
    {
      assert delivered[i] == AsRecords(kept)[i];
      OverwrittenIff(kept[i].left, kept[i].own);
    }
  }

  /** In particular all do as long as no entry with fields was dropped or sampled out. */
  lemma DeliveredExactly(p: Pipeline)
    requires p.Valid() && !p.leaky
    ensures Covers(p.cells, p.logs) && |p.fate| <= |p.accepted|
    ensures var delivered, kept := Flatten(p.backend) + RecordsAt(p.cells, p.logs), Kept(p.accepted, p.fate);
            |delivered| == |kept| && forall i | 0 <= i < |kept| :: delivered[i] == Record(kept[i].content, kept[i].own)
  {
    DeliveredExactlyIff(p);
    KeptAreAccepted(p.accepted, p.fate);
  }

  lemma {:induction false} KeptAreAccepted<T>(accepted: seq<T>, fate: seq<bool>)
    requires |fate| <= |accepted|
    ensures forall x | x in Kept(accepted, fate) :: x in accepted
  {
    if fate == [] {
    } else {
      KeptAreAccepted(accepted, fate[..|fate| - 1]);
    }
  }

  /** Processes what waits and sends what is batched; the pool keeps what it has. */
  method Drain(p: Pipeline)
    requires p.Valid()
    modifies p
    ensures p.Valid() && p.channel == p.logs == [] && PoolKept(old(p.cells), old(p.pool), p.cells, p.pool)
    ensures p.accepted == old(p.accepted) && p.leaky == old(p.leaky)
  {
    hide Ownership, Conserved, Layered;
    ValidPool(p.cells.Keys, p.pool, p.hands, p.channel, p.logs);
    while p.channel != []
      invariant p.Valid() && PoolKept(old(p.cells), old(p.pool), p.cells, p.pool)
      invariant p.accepted == old(p.accepted) && p.leaky == old(p.leaky)
      decreases |p.channel|
    {
      p.Receive(true);
    }
    p.Tick();
  }

  lemma NothingOver(fields: Fields)
    ensures fields + map[] == fields
  {
  }

  lemma FinalWithoutIds(r: Record)
    requires Injected(r.content) == map[]
    ensures Final(r) == r
  {
    assert r.fields + map[] == r.fields;
  }

  /** One submission on its own, received at once. */
  method Pass(p: Pipeline, pick: Option<Slot>, content: Content, args: seq<Arg>, keep: bool) returns (e: Slot)
    requires p.Valid() && p.channel == p.logs == [] && Injected(content) == map[]
    requires pick.Some? ==> pick.value in p.pool
    modifies p
    ensures p.Valid() && p.channel == [] && p.backend == old(p.backend)
    ensures p.fate == old(p.fate) + [keep]
    ensures var left := if pick.Some? && pick.value in old(p.cells) then old(p.cells)[pick.value].fields else map[];
            p.accepted == old(p.accepted) + [Submission(content, left, ArgFields(args))]
    ensures if pick.Some? then e == pick.value else e !in old(p.cells)
    ensures p.pool == (if keep then old(p.pool) - {e} else old(p.pool) + {e}) && p.logs == if keep then [e] else []
    ensures e in p.cells && (pick.Some? ==> e in old(p.cells))
    ensures p.cells[e] == Record(content, (if pick.Some? then old(p.cells)[e].fields else map[]) + ArgFields(args))
  {
    hide Ownership, Conserved, Layered, Bounds, ArgFields, Final, Injected, PoolKept;
    e := p.Take(pick);
    ghost var before := p.cells[e].fields;
    p.Fill(e, content, map[], args);
    NothingUnder(ArgFields(args));
    var sent := p.Offer(e);
    assert p.channel == [e] && p.channel[1..] == [];
    FinalWithoutIds(Record(content, before + ArgFields(args)));
    NothingOver(ArgFields(args));
    p.Receive(keep);
  }

  lemma AllDecided(p: Pipeline)
    requires p.Valid() && p.channel == []
    ensures |p.fate| == |p.accepted|
  {
  }

  /** Whenever the pool holds an entry with fields left in it, a submission of none can be delivered with
      them: drain the pipeline and let the submission take that entry. */
  method LeakFrom(p: Pipeline, e: Slot, content: Content)
    requires p.Valid() && e in p.pool && e in p.cells && p.cells[e].fields != map[] && Injected(content) == map[]
    modifies p
    ensures p.Valid() && p.accepted == old(p.accepted) + [Submission(content, old(p.cells[e].fields), map[])]
    ensures |p.fate| == |p.accepted| && p.fate[|p.fate| - 1]
    ensures |p.backend| > 0 && p.backend[|p.backend| - 1] == [Record(content, old(p.cells[e].fields))]
  {
    hide Ownership, Conserved, Layered, Bounds;
    Drain(p);
    AllDecided(p);
    var f := Pass(p, Some(e), content, [], true);
    assert p.cells[e].fields == old(p.cells[e].fields) + map[] == old(p.cells[e].fields);
    assert RecordsAt(p.cells, p.logs) == [Record(content, old(p.cells[e].fields))];
    AllDecided(p);
    p.Tick();
  }

  /** And such an entry is there as soon as a submission with fields is sampled out. */
  method LeakedFields(first: Content, second: Content, user: string) returns (p: Pipeline)
    requires Injected(first) == Injected(second) == map[]
    ensures fresh(p) && p.Valid()
    ensures p.accepted
            == [Submission(first, map[], map["user" := user]), Submission(second, map["user" := user], map[])]
    ensures p.fate == [false, true]
    ensures |p.backend| > 0 && p.backend[|p.backend| - 1] == [Record(second, map["user" := user])]
  {
    hide Ownership, Conserved, Layered, Bounds;
    p := new Pipeline();
    var args := [Text("user"), Text(user)];
    assert args[2..] == [];
    var e := Pass(p, None, first, args, false);
    assert p.cells[e].fields == map["user" := user];
    var f := Pass(p, Some(e), second, [], true);
    assert p.cells[f].fields == map["user" := user];
    assert RecordsAt(p.cells, p.logs) == [Record(second, map["user" := user])];
    p.Tick();
  }
}
