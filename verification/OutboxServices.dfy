/**
 `CreateOrder` and `processOutbox` as they run against a shared database and broker.  Before every
 statement the environment may run any statements of other order transactions and other relays.
 Each method records the run of OutboxProtocol that it is part of, so the protocol's safety holds
 of every state these methods can reach.
 */
module OutboxServices {
  import opened Options
  import opened Orders
  import opened OutboxProtocol
  import opened OutboxProgress
  import opened Sets

  const DEFAULT_BATCH_SIZE: nat := 100

  /** What happens around one statement: the events of others that come first, and its fate. */
  datatype Slot = Slot(others: seq<Event>, fate: Fate)

  datatype Who = OrderClient(tx: nat) | Relay(r: nat)

  predicate ActorOf(e: Event, w: Who) {
    match e
    case BeginOrder(tx) => w == OrderClient(tx)
    case InsertOrder(tx, _, _, _) => w == OrderClient(tx)
    case InsertEvent(tx, _, _, _) => w == OrderClient(tx)
    case EndOrder(tx, _) => w == OrderClient(tx)
    case Fetch(r, _) => w == Relay(r)
    case Publish(r, _) => w == Relay(r)
    case EndRelay(r, _) => w == Relay(r)
  }

  /** Whether and how far the transaction of `w` is under way is the same in both states. */
  predicate SameTx(s: State, s': State, w: Who) {
    match w
    case OrderClient(tx) =>
      (tx in s.orderTxs <==> tx in s'.orderTxs) && (tx in s.orderTxs ==> s'.orderTxs[tx] == s.orderTxs[tx])
    case Relay(r) =>
      (r in s.relayTxs <==> r in s'.relayTxs) && (r in s.relayTxs ==> s'.relayTxs[r] == s.relayTxs[r])
  }

  lemma OthersLeaveTx(s: State, e: Event, w: Who)
    requires !ActorOf(e, w)
    ensures SameTx(s, Apply(s, e), w)
  {
  }

  /** Nobody else runs around the statements `a` to `b`. */
  ghost predicate Quiet(env: nat -> Slot, a: nat, b: nat) {
    forall j | a <= j < b :: env(j).others == []
  }

  /** Each of the counted events whose error-free publishes arrived is at the broker. */
  ghost predicate ArrivedIfHonest(trace: seq<Event>, ever: map<nat, Row>, broker: seq<Message>, ids: seq<nat>) {
    forall id | id in ids && HonestRunAbout(trace, id) :: id in ever && Message(id, ever[id]) in broker
  }

  /** The run goes on from `before` to `after` without relay `r` committing. */
  ghost predicate NoCommitBy(before: seq<Event>, after: seq<Event>, r: nat) {
    before <= after && EndRelay(r, true) !in after[|before|..]
  }

  lemma NoCommitOn(a: seq<Event>, b: seq<Event>, c: seq<Event>, r: nat)
    requires NoCommitBy(a, b, r) && NoCommitBy(b, c, r)
    ensures NoCommitBy(a, c, r)
  {
    assert c[|a|..] == b[|a|..] + c[|b|..];
  }

  lemma PrefixOn(a: seq<Event>, b: seq<Event>, c: seq<Event>, r: nat)
    requires NoCommitBy(a, b, r) && b <= c
    ensures a <= c && (NoCommitBy(b, c, r) ==> NoCommitBy(a, c, r))
  {
    if NoCommitBy(b, c, r) {
      NoCommitOn(a, b, c, r);
    }
  }

  lemma NoCommitStep(a: seq<Event>, e: Event, r: nat)
    requires e != EndRelay(r, true)
    ensures NoCommitBy(a, a, r) && NoCommitBy(a, a + [e], r)
  {
  }

  class Store {
    const env: nat -> Slot
    var st: State
    var sent: nat
    ghost var trace: seq<Event>

    ghost predicate Valid()
      reads this
    {
      st == Run(Init(), trace)
    }

    constructor (env: nat -> Slot)
      ensures Valid() && this.env == env && st == Init() && sent == 0
    {
      this.env := env;
      this.st := Init();
      this.sent := 0;
      this.trace := [];
    }

    method Emit(e: Event)
      requires Valid()
      modifies this`st, this`trace
      ensures Valid() && st == Apply(old(st), e) && trace == old(trace) + [e]
    {
      assert (trace + [e])[..|trace|] == trace;
      st := Apply(st, e);
      trace := trace + [e];
    }

    method RunOthers(es: seq<Event>, w: Who)
      requires Valid()
      modifies this`st, this`trace
      ensures Valid() && old(trace) <= trace && SameTx(old(st), st, w)
      ensures es == [] ==> st == old(st)
      ensures w.Relay? ==> NoCommitBy(old(trace), trace, w.r)
    {
      for k := 0 to |es|
        invariant Valid() && old(trace) <= trace && SameTx(old(st), st, w)
        invariant k == 0 ==> st == old(st)
        invariant w.Relay? ==> NoCommitBy(old(trace), trace, w.r)
      {
        if !ActorOf(es[k], w) {
          OthersLeaveTx(st, es[k], w);
          ghost var before := trace;
          Emit(es[k]);
          if w.Relay? {
            NoCommitStep(before, es[k], w.r);
            NoCommitOn(old(trace), before, trace, w.r);
          }
        }
      }
    }

    /** Lets the others run, then counts the statement that `w` is about to make. */
    method NextStatement(w: Who) returns (fate: Fate)
      requires Valid()
      modifies this`st, this`trace, this`sent
      ensures Valid() && old(trace) <= trace && sent == old(sent) + 1 && fate == env(old(sent)).fate
      ensures SameTx(old(st), st, w)
      ensures w.Relay? ==> NoCommitBy(old(trace), trace, w.r)
      ensures env(old(sent)).others == [] ==> st == old(st)
    {
      RunOthers(env(sent).others, w);
      fate := env(sent).fate;
      sent := sent + 1;
    }
  }

  /** A number that is not in use: a database sequence, or `uuid.New()`. */
  method FreshId(used: set<nat>) returns (id: nat)
    ensures id !in used
  {
    id := 0;
    var rest := used;
    while rest != {}
      invariant rest <= used && forall x | x in used && x !in rest :: x < id
    {
      var x :| x in rest;
      if x >= id {
        id := x + 1;
      }
      rest := rest - {x};
    }
  }

  /*------------------------------------ order service ------------------------------------*/

  method BuildOrder(user: nat, items: seq<Item>) returns (order: Order)
    ensures order == Order(user, items, Cost(items), "PENDING")
  {
    var built: seq<Item> := [];
    var total := 0.0;
    for i := 0 to |items|
      invariant built == items[..i] && total == Cost(items[..i])
    {
      assert items[..i + 1][..i] == items[..i];
      built := built + [Item(items[i].product, items[i].quantity, items[i].price)];
      total := total + items[i].quantity as real * items[i].price;
    }
    assert items[..|items|] == items;
    order := Order(user, built, total, PENDING);
  }

  /** Statement `k` is carried out and its reply comes back. */
  predicate Works(env: nat -> Slot, k: nat) {
    env(k).fate.delivered && env(k).fate.answered
  }

  /** The event of this order, with its content and created at `now`, was committed. */
  ghost predicate HasEvent(s: State, order: nat, content: Order, now: int) {
    exists id :: id in s.ever && s.ever[id] == Row(order, content, now)
  }

  ghost predicate TxIs(store: Store, tx: nat, t: OrderTx)
    reads store
  {
    tx in store.st.orderTxs && store.st.orderTxs[tx] == t
  }

  /** `tx.Insert(ctx, order)`; the database draws the number. */
  method InsertOrderRow(store: Store, tx: nat, order: Order) returns (id: nat, ok: bool)
    requires store.Valid() && TxIs(store, tx, Open)
    modifies store
    ensures store.Valid() && old(store.trace) <= store.trace && store.sent == old(store.sent) + 1
    ensures ok == Works(store.env, old(store.sent))
    ensures if ok then TxIs(store, tx, OrderInserted(id, order)) else tx !in store.st.orderTxs
  {
    var fate := store.NextStatement(OrderClient(tx));
    id := FreshId(store.st.orderIds);
    ok := fate.delivered && fate.answered;
    store.Emit(InsertOrder(tx, id, order, ok));
  }

  /** CreateAndStoreEvent: the outbox insert, under a new UUID and with the order as its payload. */
  method CreateAndStoreEvent(store: Store, tx: nat, ghost order: nat, content: Order, now: int)
    returns (id: nat, ok: bool)
    requires store.Valid() && TxIs(store, tx, OrderInserted(order, content))
    modifies store
    ensures store.Valid() && old(store.trace) <= store.trace && store.sent == old(store.sent) + 1
    ensures ok == Works(store.env, old(store.sent))
    ensures if ok then TxIs(store, tx, EventInserted(order, content, id, now))
            else tx !in store.st.orderTxs && order !in store.st.orders
  {
    var fate := store.NextStatement(OrderClient(tx));
    id := FreshId(store.st.eventIds);
    ok := fate.delivered && fate.answered;
    OrderStillUncommitted(store.trace, tx);
    store.Emit(InsertEvent(tx, id, now, ok));
  }

  method CommitOrder(store: Store, tx: nat, ghost order: nat, ghost content: Order, ghost id: nat, ghost now: int)
    returns (ok: bool)
    requires store.Valid() && TxIs(store, tx, EventInserted(order, content, id, now))
    modifies store
    ensures store.Valid() && old(store.trace) <= store.trace && store.sent == old(store.sent) + 1
    ensures ok == Works(store.env, old(store.sent))
    ensures tx !in store.st.orderTxs && (!ok ==> order !in store.st.orders || !store.env(old(store.sent)).fate.answered)
    ensures ok || order in store.st.orders ==>
              order in store.st.orders && store.st.orders[order] == content && HasEvent(store.st, order, content, now)
  {
    var fate := store.NextStatement(OrderClient(tx));
    OrderStillUncommitted(store.trace, tx);
    store.Emit(EndOrder(tx, fate.delivered));
    if fate.delivered {
      assert id in store.st.ever && store.st.ever[id] == Row(order, content, now);
    }
    ok := fate.delivered && fate.answered;
  }

  lemma BeginOpens(s: State, tx: nat)
    requires tx !in s.orderTxs
    ensures tx in Apply(s, BeginOrder(tx)).orderTxs && Apply(s, BeginOrder(tx)).orderTxs[tx] == Open
  {
  }

  /** The order number that a running transaction has drawn is not committed by anybody else. */
  lemma OrderStillUncommitted(trace: seq<Event>, tx: nat)
    requires tx in Run(Init(), trace).orderTxs && !Run(Init(), trace).orderTxs[tx].Open?
    ensures Run(Init(), trace).orderTxs[tx].order !in Run(Init(), trace).orders
  {
    OutboxIsSafe(trace);
    var s := Run(Init(), trace);
    assert Uncommitted(s.orders, s.ever, s.orderTxs[tx]);
  }

  /** CreateOrder: it returns an order exactly when its three statements work, and then that order and
      its event are both committed; when it fails, neither is - unless the commit itself went through
      and only its reply was lost. */
  method CreateOrder(store: Store, tx: nat, user: nat, items: seq<Item>, now: int)
    returns (result: Option<Order>, ghost number: Option<nat>)
    requires store.Valid() && tx !in store.st.orderTxs
    modifies store
    ensures store.Valid() && old(store.trace) <= store.trace && tx !in store.st.orderTxs
    ensures var k := old(store.sent);
            result.Some? <==> Works(store.env, k) && Works(store.env, k + 1) && Works(store.env, k + 2)
    ensures result.Some? ==>
              && result.value == Order(user, items, Cost(items), "PENDING")
              && number.Some? && number.value in store.st.orders && store.st.orders[number.value] == result.value
              && HasEvent(store.st, number.value, result.value, now)
    ensures result.None? && number.Some? && number.value in store.st.orders ==>
              && store.sent > 0 && !store.env(store.sent - 1).fate.answered
              && store.st.orders[number.value] == Order(user, items, Cost(items), "PENDING")
              && HasEvent(store.st, number.value, store.st.orders[number.value], now)
  {
    hide Run, Apply, HasEvent, Works, Cost;
    var order := BuildOrder(user, items);
    BeginOpens(store.st, tx);
    store.Emit(BeginOrder(tx));
    var orderId, ok := InsertOrderRow(store, tx, order);
    if !ok {
      return None, None;
    }
    number := Some(orderId);
    var eventId;
    eventId, ok := CreateAndStoreEvent(store, tx, orderId, order, now);
    if !ok {
      return None, number;
    }
    ok := CommitOrder(store, tx, orderId, order, eventId, now);
    result := if ok then Some(order) else None;
  }

  /*------------------------------------ relay service ------------------------------------*/

  method Oldest(table: map<nat, Row>, ids: set<nat>) returns (id: nat)
    requires ids != {} && ids <= table.Keys
    ensures id in ids && forall j | j in ids :: table[id].createdAt <= table[j].createdAt
  {
    id :| id in ids;
    var rest := ids - {id};
    while rest != {}
      invariant id in ids && rest <= ids
      invariant forall j | j in ids && j !in rest :: table[id].createdAt <= table[j].createdAt
    {
      var j :| j in rest;
      if table[j].createdAt < table[id].createdAt {
        id := j;
      }
      rest := rest - {j};
    }
  }

  /** The rows of `batch` come first and in order; `rest` holds the ids of the remaining rows. */
  ghost predicate Prefix(table: map<nat, Row>, batch: seq<Message>, rest: set<nat>) {
    && Selected(table, batch) && rest <= table.Keys && Ids(batch) == table.Keys - rest
    && (forall i, j | 0 <= i < j < |batch| :: batch[i].row.createdAt <= batch[j].row.createdAt)
    && (forall m, j | m in batch && j in rest :: m.row.createdAt <= table[j].createdAt)
  }

  lemma PrefixGrows(table: map<nat, Row>, batch: seq<Message>, rest: set<nat>, id: nat)
    requires Prefix(table, batch, rest) && id in rest
    requires forall j | j in rest :: table[id].createdAt <= table[j].createdAt
    ensures Prefix(table, batch + [Message(id, table[id])], rest - {id})
  {
    var last := Message(id, table[id]);
    var batch' := batch + [last];
    assert Ids(batch') == Ids(batch) + {id};
    forall i, j | 0 <= i < j < |batch'|
      ensures batch'[i].id != batch'[j].id && batch'[i].row.createdAt <= batch'[j].row.createdAt
    {
      assert batch'[i] == batch[i] && batch[i].id in Ids(batch);
      if j < |batch| { assert batch'[j] == batch[j]; }
    }
  }

  lemma {:induction false} IdsCard(batch: seq<Message>)
    requires forall i, j | 0 <= i < j < |batch| :: batch[i].id != batch[j].id
    ensures |Ids(batch)| == |batch|
  {
    if batch == [] {
      assert Ids(batch) == {};
    } else {
      var front, last := batch[..|batch| - 1], batch[|batch| - 1];
      IdsCard(front);
      assert Ids(batch) == Ids(front) + {last.id};
    }
  }

  /** SELECT ... ORDER BY created_at LIMIT `limit`. */
  method SelectOldest(table: map<nat, Row>, limit: nat) returns (batch: seq<Message>)
    ensures OldestBatch(table, batch, limit)
    ensures |batch| == if |table| < limit then |table| else limit
    ensures forall m | m in batch :: m.id in table && table[m.id] == m.row
    ensures forall i, j | 0 <= i < j < |batch| ::
              batch[i].id != batch[j].id && batch[i].row.createdAt <= batch[j].row.createdAt
    ensures forall m, j | m in batch && j in table && (forall b | b in batch :: b.id != j) ::
              m.row.createdAt <= table[j].createdAt
  {
    hide OldestBatch, OldestRows, Selected, Ids;
    batch := [];
    var rest := table.Keys;
    PrefixBegins(table);
    while |batch| < limit && rest != {}
      invariant Prefix(table, batch, rest) && |batch| <= limit
      decreases rest
    {
      var id := Oldest(table, rest);
      PrefixGrows(table, batch, rest, id);
      batch := batch + [Message(id, table[id])];
      rest := rest - {id};
    }
    FullPrefix(table, batch, rest, limit);
  }

  lemma PrefixBegins(table: map<nat, Row>)
    ensures Prefix(table, [], table.Keys)
  {
  }

  lemma FullPrefix(table: map<nat, Row>, batch: seq<Message>, rest: set<nat>, limit: nat)
    requires Prefix(table, batch, rest) && |batch| <= limit && (|batch| == limit || rest == {})
    ensures OldestBatch(table, batch, limit)
    ensures |batch| == if |table| < limit then |table| else limit
    ensures forall m | m in batch :: m.id in table && table[m.id] == m.row
    ensures forall i, j | 0 <= i < j < |batch| ::
              batch[i].id != batch[j].id && batch[i].row.createdAt <= batch[j].row.createdAt
    ensures forall m, j | m in batch && j in table && (forall b | b in batch :: b.id != j) ::
              m.row.createdAt <= table[j].createdAt
  {
    IdsCard(batch);
    PrefixIsOldest(table, batch, rest);
    assert |table.Keys| == |table|;
    Subset(Ids(batch), table.Keys);
    forall m, j | m in batch && j in table && (forall b | b in batch :: b.id != j)
      ensures m.row.createdAt <= table[j].createdAt
    {
      assert j !in Ids(batch);
    }
  }

  lemma PrefixIsOldest(table: map<nat, Row>, batch: seq<Message>, rest: set<nat>)
    requires Prefix(table, batch, rest)
    ensures forall i, j | i in Ids(batch) && j in table && j !in Ids(batch) :: table[i].createdAt <= table[j].createdAt
  {
    forall i, j | i in Ids(batch) && j in table && j !in Ids(batch) ensures table[i].createdAt <= table[j].createdAt {
      var m :| m in batch && m.id == i;
      assert j in rest;
    }
  }

  /** The ids that the publishing loop collects when statement `k` publishes the first message: those whose
      publish returned without an error. */
  function Succeeded(batch: seq<Message>, env: nat -> Slot, k: nat): seq<nat> {
    if batch == [] then [] else
    var last := |batch| - 1;
    Succeeded(batch[..last], env, k) + (if env(k + last).fate.answered then [batch[last].id] else [])
  }

  /** What reaches the broker meanwhile. */
  function Delivered(batch: seq<Message>, env: nat -> Slot, k: nat): seq<Message> {
    if batch == [] then [] else
    var last := |batch| - 1;
    Delivered(batch[..last], env, k) + (if env(k + last).fate.delivered then [batch[last]] else [])
  }

  /** One tick of the service as it happened: the table when the round began with statement `first`, what it
      fetched, whether it committed, the table when it ended before statement `end`, and the table when
      the next tick came. */
  datatype Tick = Tick(before: map<nat, Row>, batch: seq<Message>, first: nat, end: nat, committed: bool,
                       after: map<nat, Row>, later: map<nat, Row>)

  /** The statements of the tick on the database, which are all but its publishes, work. */
  ghost predicate DatabaseWorks(env: nat -> Slot, t: Tick) {
    forall j | t.first <= j < t.end && (j == t.first || j > t.first + |t.batch|) :: Works(env, j)
  }

  /** When a round of the service commits, and what it does if nobody else runs meanwhile. */
  ghost predicate TickOk(env: nat -> Slot, limit: nat, t: Tick) {
    && t.first < t.end
    && (t.committed ==> Works(env, t.first))
    && (DatabaseWorks(env, t) ==> t.committed)
    && (Quiet(env, t.first, t.end) ==>
          && t.after == t.before - (if t.committed then ToSet(Succeeded(t.batch, env, t.first + 1)) else {})
          && (Works(env, t.first) ==> OldestBatch(t.before, t.batch, limit)))
  }

  ghost predicate Chained(table: map<nat, Row>, ticks: seq<Tick>, end: map<nat, Row>)
    decreases |ticks|
  {
    if ticks == [] then table == end
    else Chained(table, ticks[..|ticks| - 1], ticks[|ticks| - 1].before) && ticks[|ticks| - 1].later == end
  }

  class RelayService {
    const store: Store
    const batchSize: nat

    constructor (store: Store, cfg: Option<nat>)
      ensures this.store == store && batchSize == if cfg.Some? then cfg.value else 100
    {
      this.store := store;
      this.batchSize := match cfg case Some(n) => n case None => DEFAULT_BATCH_SIZE;
    }

    ghost predicate RelayIs(r: nat, t: RelayTx)
      reads store
    {
      r in store.st.relayTxs && store.st.relayTxs[r] == t
    }

    /** One publish of the loop that began with statement `k`. */
    method PublishNext(r: nat, batch: seq<Message>, i: nat, ids: seq<nat>, ghost k: nat) returns (successIDs: seq<nat>)
      requires store.Valid() && i < |batch| && RelayIs(r, RelayTx(batch, i, ids))
      requires store.sent == k + i && ids == Succeeded(batch[..i], store.env, k)
      modifies store
      ensures store.Valid() && NoCommitBy(old(store.trace), store.trace, r) && store.sent == k + i + 1
      ensures successIDs == Succeeded(batch[..i + 1], store.env, k)
      ensures RelayIs(r, RelayTx(batch, i + 1, successIDs))
      ensures store.env(k + i).others == [] ==>
                && store.st.table == old(store.st.table)
                && store.st.broker == old(store.st.broker) + if store.env(k + i).fate.delivered then [batch[i]] else []
    {
      hide Apply, Run, Succeeded, Delivered;
      OneMore(batch, store.env, k, i);
      var fate := store.NextStatement(Relay(r));
      PublishEffect(store.st, r, fate, batch, i, ids);
      NoCommitStep(store.trace, Publish(r, fate), r);
      NoCommitOn(old(store.trace), store.trace, store.trace + [Publish(r, fate)], r);
      store.Emit(Publish(r, fate));
      successIDs := if fate.answered then ids + [batch[i].id] else ids;
    }

    /** Publishes the whole batch, going on after a failure, and collects the ids that worked. */
    method PublishAll(r: nat, batch: seq<Message>) returns (successIDs: seq<nat>)
      requires store.Valid() && RelayIs(r, RelayTx(batch, 0, []))
      modifies store
      ensures store.Valid() && NoCommitBy(old(store.trace), store.trace, r) && store.sent == old(store.sent) + |batch|
      ensures successIDs == Succeeded(batch, store.env, old(store.sent))
      ensures RelayIs(r, RelayTx(batch, |batch|, successIDs))
      ensures Quiet(store.env, old(store.sent), store.sent) ==>
                && store.st.table == old(store.st.table)
                && store.st.broker == old(store.st.broker) + Delivered(batch, store.env, old(store.sent))
    {
      hide Run, Succeeded, Delivered, Selected;
      EmptyBatch(store.env, store.sent);
      assert batch[..0] == [];
      successIDs := [];
      ghost var k, broker := store.sent, store.st.broker;
      for i := 0 to |batch|
        invariant store.Valid() && NoCommitBy(old(store.trace), store.trace, r) && store.sent == k + i
        invariant successIDs == Succeeded(batch[..i], store.env, k)
        invariant RelayIs(r, RelayTx(batch, i, successIDs))
        invariant Quiet(store.env, k, k + i) ==>
                    && store.st.table == old(store.st.table)
                    && store.st.broker == broker + Delivered(batch[..i], store.env, k)
      {
        ghost var before := store.trace;
        successIDs := PublishNext(r, batch, i, successIDs, k);
        NoCommitOn(old(store.trace), before, store.trace, r);
        OneMoreArrives(broker, batch, store.env, k, i);
      }
      assert batch[..|batch|] == batch;
    }

    /** Opens the transaction and fetches the batch. */
    method FetchBatch(r: nat) returns (batch: seq<Message>, ok: bool)
      requires store.Valid() && r !in store.st.relayTxs
      modifies store
      ensures store.Valid() && NoCommitBy(old(store.trace), store.trace, r) && store.sent == old(store.sent) + 1
      ensures ok == Works(store.env, old(store.sent))
      ensures if ok then RelayIs(r, RelayTx(batch, 0, [])) else r !in store.st.relayTxs && batch == []
      ensures Quiet(store.env, old(store.sent), store.sent) ==>
                && store.st.table == old(store.st.table) && store.st.broker == old(store.st.broker)
                && (ok ==> OldestBatch(old(store.st.table), batch, batchSize))
    {
      var fate := store.NextStatement(Relay(r));
      ok := fate.delivered && fate.answered;
      batch := [];
      if ok {
        batch := SelectOldest(store.st.table, batchSize);
        NoCommitStep(store.trace, Fetch(r, batch), r);
        NoCommitOn(old(store.trace), store.trace, store.trace + [Fetch(r, batch)], r);
        store.Emit(Fetch(r, batch));
      }
    }

    /** Deletes the counted rows, if there are any, and ends the transaction. */
    method Finish(r: nat, ghost batch: seq<Message>, successIDs: seq<nat>) returns (committed: bool)
      requires store.Valid() && RelayIs(r, RelayTx(batch, |batch|, successIDs))
      modifies store
      ensures store.Valid() && old(store.trace) <= store.trace && r !in store.st.relayTxs
      ensures !committed ==> NoCommitBy(old(store.trace), store.trace, r)
      ensures store.sent == old(store.sent) + if successIDs == [] then 1 else 2
      ensures committed <==> (successIDs != [] ==> Works(store.env, old(store.sent)))
                             && store.env(store.sent - 1).fate.delivered
      ensures forall id | id in successIDs :: id in store.st.ever
      ensures ArrivedIfHonest(store.trace, store.st.ever, store.st.broker, successIDs)
      ensures committed ==> forall id | id in successIDs :: id !in store.st.table
      ensures Quiet(store.env, old(store.sent), store.sent) ==>
                && store.st.table == old(store.st.table) - (if committed then ToSet(successIDs) else {})
                && store.st.broker == old(store.st.broker)
    {
      hide Run, NoCommitBy;
      NoCommitStep(store.trace, Fetch(r, []), r);
      var deleted := true;
      if |successIDs| > 0 {
        var fate := store.NextStatement(Relay(r));
        deleted := fate.delivered && fate.answered;
      }
      ghost var middle := store.trace;
      committed := EndTransaction(r, batch, successIDs, deleted);
      PrefixOn(old(store.trace), middle, store.trace, r);
    }

    /** The end of the transaction: a commit if the deletion worked and the commit is carried out. */
    method EndTransaction(r: nat, ghost batch: seq<Message>, ghost successIDs: seq<nat>, deleted: bool)
      returns (committed: bool)
      requires store.Valid() && RelayIs(r, RelayTx(batch, |batch|, successIDs))
      modifies store
      ensures store.Valid() && old(store.trace) <= store.trace && r !in store.st.relayTxs
      ensures store.sent == old(store.sent) + 1 && committed == (deleted && store.env(old(store.sent)).fate.delivered)
      ensures !committed ==> NoCommitBy(old(store.trace), store.trace, r)
      ensures forall id | id in successIDs :: id in store.st.ever
      ensures ArrivedIfHonest(store.trace, store.st.ever, store.st.broker, successIDs)
      ensures committed ==> forall id | id in successIDs :: id !in store.st.table
      ensures store.env(old(store.sent)).others == [] ==>
                && store.st.table == old(store.st.table) - (if committed then ToSet(successIDs) else {})
                && store.st.broker == old(store.st.broker)
    {
      hide Run;
      var fate := store.NextStatement(Relay(r));
      committed := deleted && fate.delivered;
      CountedAreAtBroker(store.trace, r);
      if !committed {
        NoCommitStep(store.trace, EndRelay(r, false), r);
        NoCommitOn(old(store.trace), store.trace, store.trace + [EndRelay(r, false)], r);
      }
      ghost var before := store.trace;
      store.Emit(EndRelay(r, committed));
      forall id | HonestRunAbout(store.trace, id) ensures HonestRunAbout(before, id) {
        assert store.trace[..|store.trace| - 1] == before;
      }
    }

    /** processOutbox: one transaction that fetches the oldest events, publishes each, and deletes
        exactly those whose publish returned no error; any database failure rolls the deletion back. */
    method ProcessOutbox(r: nat) returns (batch: seq<Message>, successIDs: seq<nat>, committed: bool)
      requires store.Valid() && r !in store.st.relayTxs
      modifies store
      ensures store.Valid() && old(store.trace) <= store.trace && r !in store.st.relayTxs
      ensures !committed ==> NoCommitBy(old(store.trace), store.trace, r)
      ensures successIDs == Succeeded(batch, store.env, old(store.sent) + 1)
      ensures forall id :: id in successIDs <==>
                exists i: nat :: i < |batch| && batch[i].id == id && store.env(old(store.sent) + 1 + i).fate.answered
      ensures store.sent == old(store.sent) + if !Works(store.env, old(store.sent)) then 1
                                              else |batch| + if successIDs == [] then 2 else 3
      ensures committed <==>
                && Works(store.env, old(store.sent))
                && (successIDs != [] ==> Works(store.env, old(store.sent) + 1 + |batch|))
                && store.env(store.sent - 1).fate.delivered
      ensures (forall j | old(store.sent) <= j < store.sent :: Works(store.env, j)) ==> committed
      ensures !Works(store.env, old(store.sent)) ==> batch == []
      ensures forall id | id in successIDs :: id in store.st.ever
      ensures ArrivedIfHonest(store.trace, store.st.ever, store.st.broker, successIDs)
      ensures committed ==> forall id | id in successIDs :: id !in store.st.table
      ensures Quiet(store.env, old(store.sent), store.sent) ==>
                && store.st.table == old(store.st.table) - (if committed then ToSet(successIDs) else {})
                && store.st.broker == old(store.st.broker) + Delivered(batch, store.env, old(store.sent) + 1)
                && (Works(store.env, old(store.sent)) ==> OldestBatch(old(store.st.table), batch, batchSize))
      ensures Quiet(store.env, old(store.sent), store.sent) ==>
                forall id | id in old(store.st.table) :: id in store.st.table <==> !(committed && id in successIDs)
    {
      hide Run, Apply, NoCommitBy, Succeeded, Delivered, OldestBatch, Works;
      EmptyBatch(store.env, store.sent + 1);
      var ok;
      batch, ok := FetchBatch(r);
      if !ok {
        return [], [], false;
      }
      successIDs, committed := PublishAndDelete(r, batch, old(store.trace));
      WhatSucceeded(batch, store.env, old(store.sent) + 1);
      WorkingArrives(store.env, store.sent - 1);
    }

    /** What the transaction does with the batch. */
    method PublishAndDelete(r: nat, batch: seq<Message>, ghost began: seq<Event>)
      returns (successIDs: seq<nat>, committed: bool)
      requires store.Valid() && RelayIs(r, RelayTx(batch, 0, [])) && NoCommitBy(began, store.trace, r)
      modifies store
      ensures store.Valid() && old(store.trace) <= store.trace && r !in store.st.relayTxs
      ensures !committed ==> NoCommitBy(began, store.trace, r)
      ensures successIDs == Succeeded(batch, store.env, old(store.sent))
      ensures store.sent == old(store.sent) + |batch| + if successIDs == [] then 1 else 2
      ensures committed <==> (successIDs != [] ==> Works(store.env, old(store.sent) + |batch|))
                             && store.env(store.sent - 1).fate.delivered
      ensures forall id | id in successIDs :: id in store.st.ever
      ensures ArrivedIfHonest(store.trace, store.st.ever, store.st.broker, successIDs)
      ensures committed ==> forall id | id in successIDs :: id !in store.st.table
      ensures Quiet(store.env, old(store.sent), store.sent) ==>
                && store.st.table == old(store.st.table) - (if committed then ToSet(successIDs) else {})
                && store.st.broker == old(store.st.broker) + Delivered(batch, store.env, old(store.sent))
    {
      hide Run, Apply, NoCommitBy, Succeeded, Delivered, Works, ArrivedIfHonest;
      ghost var fetched := store.trace;
      successIDs := PublishAll(r, batch);
      ghost var published := store.trace;
      NoCommitOn(began, fetched, published, r);
      committed := Finish(r, batch, successIDs);
      PrefixOn(fetched, published, store.trace, r);
      if !committed {
        NoCommitOn(began, published, store.trace, r);
      }
    }

    /** The polling loop, over `count` ticks; `between` is what others do between two of them. */
    method Start(r: nat, count: nat, between: nat -> seq<Event>) returns (ghost ticks: seq<Tick>)
      requires store.Valid() && r !in store.st.relayTxs
      modifies store
      ensures store.Valid() && r !in store.st.relayTxs && |ticks| == count
      ensures Chained(old(store.st.table), ticks, store.st.table)
      ensures forall t | t in ticks :: TickOk(store.env, batchSize, t)
    {
      hide Run, Apply, TickOk;
      ticks := [];
      for i := 0 to count
        invariant store.Valid() && r !in store.st.relayTxs && |ticks| == i
        invariant Chained(old(store.st.table), ticks, store.st.table)
        invariant forall t | t in ticks :: TickOk(store.env, batchSize, t)
      {
        ghost var t := OnTick(r, between(i));
        assert (ticks + [t])[..|ticks|] == ticks;
        ticks := ticks + [t];
      }
    }

    method OnTick(r: nat, others: seq<Event>) returns (ghost t: Tick)
      requires store.Valid() && r !in store.st.relayTxs
      modifies store
      ensures store.Valid() && r !in store.st.relayTxs
      ensures TickOk(store.env, batchSize, t) && t.before == old(store.st.table) && t.later == store.st.table
      ensures t.first == old(store.sent) && t.end <= store.sent
    {
      hide Run, Apply, NoCommitBy, Succeeded, Delivered, ArrivedIfHonest, OldestBatch, Works, DatabaseWorks;
      ghost var before, first := store.st.table, store.sent;
      var batch, successIDs, committed := ProcessOutbox(r);
      ghost var after, end := store.st.table, store.sent;
      store.RunOthers(others, Relay(r));
      t := Tick(before, batch, first, end, committed, after, store.st.table);
      if DatabaseWorks(store.env, t) {
        CommitsIfWorks(store.env, t, successIDs);
      }
    }
  }

  /*------------------------------ the service delivers in time ------------------------------*/

  /** Between two tables rows only arrive, each created later than all of `before`. */
  ghost predicate OnlyArrivals(before: map<nat, Row>, after: map<nat, Row>, later: map<nat, Row>) {
    && (forall id | id in after :: id in later && later[id] == after[id])
    && (forall id | id in later && id !in after ::
          id !in before && forall j | j in before :: before[j].createdAt < later[id].createdAt)
  }

  /** Nobody else ran during the round, the database worked, exactly the events of `poison` failed with an error,
      and until the next tick rows only arrived. */
  ghost predicate AsAssumed(env: nat -> Slot, poison: set<nat>, t: Tick) {
    && Quiet(env, t.first, t.end) && DatabaseWorks(env, t) && OnlyArrivals(t.before, t.after, t.later)
    && (forall i | 0 <= i < |t.batch| :: env(t.first + 1 + i).fate.answered <==> t.batch[i].id !in poison)
  }

  function RoundOf(t: Tick): Round {
    Round(Ids(t.batch), map id | id in t.later && id !in t.after :: t.later[id])
  }

  function RoundsOf(ticks: seq<Tick>): seq<Round> {
    seq(|ticks|, j requires 0 <= j < |ticks| => RoundOf(ticks[j]))
  }

  lemma ArrivalsMakeRound(before: map<nat, Row>, picked: set<nat>, poison: set<nat>, later: map<nat, Row>, limit: nat)
    requires OldestRows(before, picked, limit) && OnlyArrivals(before, before - (picked - poison), later)
    ensures var after := before - (picked - poison);
            var r := Round(picked, map id | id in later && id !in after :: later[id]);
            RoundOk(before, r, limit) && AfterRound(before, r, poison) == later
  {
    hide OldestRows;
    var after := before - (picked - poison);
    var r := Round(picked, map id | id in later && id !in after :: later[id]);
    assert AfterRound(before, r, poison) == later by {
      assert after + r.arrivals == later;
    }
  }

  lemma TickIsRound(env: nat -> Slot, limit: nat, poison: set<nat>, t: Tick)
    requires TickOk(env, limit, t) && AsAssumed(env, poison, t)
    ensures RoundOk(t.before, RoundOf(t), limit) && AfterRound(t.before, RoundOf(t), poison) == t.later
  {
    hide RoundOk, AfterRound, OnlyArrivals, OldestRows, Selected, Quiet, Succeeded;
    SucceededIds(t.batch, env, t.first + 1, poison);
    ArrivalsMakeRound(t.before, Ids(t.batch), poison, t.later, limit);
  }

  lemma {:induction false} HistoryOneMore(table: map<nat, Row>, rounds: seq<Round>, r: Round, limit: nat,
                                          poison: set<nat>)
    requires History(table, rounds, limit, poison) && RoundOk(TableAfter(table, rounds, poison), r, limit)
    ensures History(table, rounds + [r], limit, poison)
    ensures TableAfter(table, rounds + [r], poison) == AfterRound(TableAfter(table, rounds, poison), r, poison)
    decreases |rounds|
  {
    hide RoundOk, AfterRound;
    if rounds == [] {
      assert [r][1..] == [];
    } else {
      assert (rounds + [r])[1..] == rounds[1..] + [r];
      HistoryOneMore(AfterRound(table, rounds[0], poison), rounds[1..], r, limit, poison);
    }
  }

  lemma {:induction false} TicksAreHistory(env: nat -> Slot, limit: nat, poison: set<nat>, table: map<nat, Row>,
                                           ticks: seq<Tick>, end: map<nat, Row>)
    requires Chained(table, ticks, end) && forall t | t in ticks :: TickOk(env, limit, t) && AsAssumed(env, poison, t)
    ensures History(table, RoundsOf(ticks), limit, poison) && TableAfter(table, RoundsOf(ticks), poison) == end
  {
    hide TickOk, AsAssumed, RoundOk, AfterRound, RoundOf;
    if ticks == [] {
      assert RoundsOf(ticks) == [];
    } else {
      var front, last := ticks[..|ticks| - 1], ticks[|ticks| - 1];
      TicksAreHistory(env, limit, poison, table, front, last.before);
      TickIsRound(env, limit, poison, last);
      HistoryOneMore(table, RoundsOf(front), RoundOf(last), limit, poison);
      assert RoundsOf(ticks) == RoundsOf(front) + [RoundOf(last)];
    }
  }

  /** Bounded delivery by the service: over ticks as assumed, an event with fewer than a batch of failing
      events ahead of it is published and deleted within the bound. */
  lemma ServiceDelivers(env: nat -> Slot, limit: nat, poison: set<nat>, table: map<nat, Row>, ticks: seq<Tick>,
                        end: map<nat, Row>, id: nat)
    requires Chained(table, ticks, end) && forall t | t in ticks :: TickOk(env, limit, t) && AsAssumed(env, poison, t)
    requires id in table && id !in poison && |PoisonAhead(table, poison, id)| < limit
    requires RoundsBefore(table, limit, poison, id) < |ticks|
    ensures exists k: nat :: k <= RoundsBefore(table, limit, poison, id) && k < |ticks| && id in Ids(ticks[k].batch)
                             && id !in ticks[k].later
                             && id !in TableAfter(table, RoundsOf(ticks)[..k + 1], poison)
  {
    hide History, RoundsBefore, PoisonAhead, TickOk, AsAssumed, Chained;
    TicksAreHistory(env, limit, poison, table, ticks, end);
    var rounds := RoundsOf(ticks);
    DeliveredWithin(table, rounds, limit, poison, id);
    var k: nat :| k <= RoundsBefore(table, limit, poison, id) && DeliveredIn(table, rounds, poison, id, k);
    assert rounds[k] == RoundOf(ticks[k]);
    ChainedPrefix(table, ticks, end, k + 1);
    var upTo := ticks[..k + 1];
    assert upTo[k] == ticks[k];
    TicksAreHistory(env, limit, poison, table, upTo, ticks[k].later);
    assert RoundsOf(upTo) == rounds[..k + 1];
  }

  lemma {:induction false} ChainedPrefix(table: map<nat, Row>, ticks: seq<Tick>, end: map<nat, Row>, k: nat)
    requires Chained(table, ticks, end) && 0 < k <= |ticks|
    ensures Chained(table, ticks[..k], ticks[k - 1].later)
    decreases |ticks|
  {
    if k == |ticks| {
      assert ticks[..k] == ticks;
    } else {
      var front := ticks[..|ticks| - 1];
      ChainedPrefix(table, front, ticks[|ticks| - 1].before, k);
      assert front[..k] == ticks[..k];
    }
  }

  lemma CommitsIfWorks(env: nat -> Slot, t: Tick, successIDs: seq<nat>)
    requires t.end == t.first + if !Works(env, t.first) then 1 else |t.batch| + if successIDs == [] then 2 else 3
    requires DatabaseWorks(env, t)
    ensures Works(env, t.first) && env(t.end - 1).fate.delivered
    ensures successIDs != [] ==> Works(env, t.first + 1 + |t.batch|)
  {
    assert Works(env, t.first);
    assert Works(env, t.end - 1);
  }

  lemma WorkingArrives(env: nat -> Slot, k: nat)
    ensures Works(env, k) ==> env(k).fate.delivered
  {
  }

  lemma EmptyBatch(env: nat -> Slot, k: nat)
    ensures Succeeded([], env, k) == [] && Delivered([], env, k) == []
  {
  }

  lemma OneMore(batch: seq<Message>, env: nat -> Slot, k: nat, i: nat)
    requires i < |batch|
    ensures Succeeded(batch[..i + 1], env, k)
         == Succeeded(batch[..i], env, k) + if env(k + i).fate.answered then [batch[i].id] else []
    ensures Delivered(batch[..i + 1], env, k)
         == Delivered(batch[..i], env, k) + if env(k + i).fate.delivered then [batch[i]] else []
  {
    assert batch[..i + 1][..i] == batch[..i];
  }

  lemma OneMoreArrives(broker: seq<Message>, batch: seq<Message>, env: nat -> Slot, k: nat, i: nat)
    requires i < |batch|
    ensures broker + Delivered(batch[..i + 1], env, k)
         == broker + Delivered(batch[..i], env, k) + if env(k + i).fate.delivered then [batch[i]] else []
  {
    OneMore(batch, env, k, i);
    Appends(broker, Delivered(batch[..i], env, k), if env(k + i).fate.delivered then [batch[i]] else []);
  }

  lemma Appends(a: seq<Message>, b: seq<Message>, c: seq<Message>)
    ensures a + (b + c) == (a + b) + c
  {
  }

  /** A row that goes while relay `r` does not commit was deleted by the commit of another relay. */
  lemma {:induction false} GoneByOthersCommit(before: seq<Event>, after: seq<Event>, r: nat, id: nat)
    requires NoCommitBy(before, after, r) && id in Run(Init(), before).table && id !in Run(Init(), after).table
    ensures exists q :: q != r && EndRelay(q, true) in after[|before|..]
    decreases |after|
  {
    if before == after {
    } else {
      var front, e := after[..|after| - 1], after[|after| - 1];
      assert after[|before|..] == front[|before|..] + [e];
      if id in Run(Init(), front).table {
        assert id !in Apply(Run(Init(), front), e).table;
        if !e.EndRelay? {
          OnlyRelaysDelete(Run(Init(), front), e);
        }
        assert e == EndRelay(e.relay, true) && e in after[|before|..];
      } else {
        GoneByOthersCommit(before, front, r, id);
        var q :| q != r && EndRelay(q, true) in front[|before|..];
        assert EndRelay(q, true) in after[|before|..];
      }
    }
  }

  lemma CountedAreAtBroker(trace: seq<Event>, r: nat)
    requires r in Run(Init(), trace).relayTxs
    ensures var s := Run(Init(), trace);
            && (forall id | id in s.relayTxs[r].successIDs :: id in s.ever)
            && ArrivedIfHonest(trace, s.ever, s.broker, s.relayTxs[r].successIDs)
  {
    InvRun(trace);
    var s := Run(Init(), trace);
    assert RelayOk(s.ever, s.relayTxs[r]);
    forall id | id in s.relayTxs[r].successIDs && HonestRunAbout(trace, id)
      ensures id in s.ever && Message(id, s.ever[id]) in s.broker
    {
      EventIsSafe(trace, id);
    }
  }

  /** An undisturbed round of the service in which exactly the events of `poison` fail with an error, and
      whose transaction commits, is the round that OutboxProgress bounds. */
  lemma RoundOfService(table: map<nat, Row>, batch: seq<Message>, env: nat -> Slot, k: nat, poison: set<nat>)
    requires forall i | 0 <= i < |batch| :: env(k + i).fate.answered <==> batch[i].id !in poison
    ensures table - ToSet(Succeeded(batch, env, k)) == AfterRound(table, Round(Ids(batch), map[]), poison)
  {
    SucceededIds(batch, env, k, poison);
  }

  lemma {:induction false} SucceededIds(batch: seq<Message>, env: nat -> Slot, k: nat, poison: set<nat>)
    requires forall i | 0 <= i < |batch| :: env(k + i).fate.answered <==> batch[i].id !in poison
    ensures ToSet(Succeeded(batch, env, k)) == Ids(batch) - poison
  {
    if batch == [] {
    } else {
      var front, last := batch[..|batch| - 1], batch[|batch| - 1];
      SucceededIds(front, env, k, poison);
      assert Ids(batch) == Ids(front) + {last.id};
      var before := Succeeded(front, env, k);
      assert ToSet(before + [last.id]) == ToSet(before) + {last.id};
    }
  }

  /** The publish of message `i` failed with an error, or it arrived, or the message was there before. */
  predicate ToldTruth(batch: seq<Message>, env: nat -> Slot, k: nat, broker: seq<Message>, i: nat)
    requires i < |batch|
  {
    env(k + i).fate.answered ==> env(k + i).fate.delivered || batch[i] in broker
  }

  lemma {:induction false} WhatSucceeded(batch: seq<Message>, env: nat -> Slot, k: nat)
    ensures forall i: nat | i < |batch| && env(k + i).fate.answered :: batch[i].id in Succeeded(batch, env, k)
    ensures forall id | id in Succeeded(batch, env, k) ::
              exists i: nat :: i < |batch| && batch[i].id == id && env(k + i).fate.answered
  {
    if batch == [] {
    } else {
      var front := batch[..|batch| - 1];
      WhatSucceeded(front, env, k);
      assert forall i: nat | i < |front| :: front[i] == batch[i];
    }
  }

  lemma {:induction false} WhatArrived(batch: seq<Message>, env: nat -> Slot, k: nat)
    ensures forall i: nat | i < |batch| && env(k + i).fate.delivered :: batch[i] in Delivered(batch, env, k)
    ensures forall m | m in Delivered(batch, env, k) ::
              exists i: nat :: i < |batch| && batch[i] == m && env(k + i).fate.delivered
  {
    if batch == [] {
    } else {
      var front := batch[..|batch| - 1];
      WhatArrived(front, env, k);
      assert forall i: nat | i < |front| :: front[i] == batch[i];
    }
  }

  /** With every publish carried out, the messages reach the broker in the order of the batch. */
  lemma {:induction false} AllArriveInOrder(batch: seq<Message>, env: nat -> Slot, k: nat)
    requires forall j | k <= j < k + |batch| :: env(j).fate.delivered
    ensures Delivered(batch, env, k) == batch
  {
    if batch == [] {
    } else {
      AllArriveInOrder(batch[..|batch| - 1], env, k);
      assert env(k + |batch| - 1).fate.delivered;
      assert batch == batch[..|batch| - 1] + [batch[|batch| - 1]];
    }
  }

  /** A committed round loses no event if and only if every publish of it told the truth. */
  lemma RoundLosesNothingIff(ever: map<nat, Row>, table: map<nat, Row>, broker: seq<Message>, batch: seq<Message>,
                             env: nat -> Slot, k: nat)
    requires NothingLost(ever, table, broker) && NothingInvented(ever, table, broker) && Selected(table, batch)
    ensures NothingLost(ever, table - ToSet(Succeeded(batch, env, k)), broker + Delivered(batch, env, k))
            <==> forall i: nat | i < |batch| :: ToldTruth(batch, env, k, broker, i)
  {
    hide Succeeded, Delivered;
    WhatSucceeded(batch, env, k);
    WhatArrived(batch, env, k);
    var table', broker' := table - ToSet(Succeeded(batch, env, k)), broker + Delivered(batch, env, k);
    if NothingLost(ever, table', broker') {
      forall i: nat | i < |batch| ensures ToldTruth(batch, env, k, broker, i) {
        var m := batch[i];
        assert m in batch && m.id in ever && ever[m.id] == m.row && Message(m.id, ever[m.id]) == m;
      }
    }
    if forall i: nat | i < |batch| :: ToldTruth(batch, env, k, broker, i) {
      forall id | id in ever && id !in table' ensures Message(id, ever[id]) in broker' {
        if id in table {
          var i: nat :| i < |batch| && batch[i].id == id && env(k + i).fate.answered;
          assert batch[i] in batch && ToldTruth(batch, env, k, broker, i);
        }
      }
    }
  }
}
