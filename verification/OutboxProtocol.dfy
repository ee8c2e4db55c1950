/**
 The transactional outbox as a state machine: order transactions
 (internal/services/order/internal/service/order_service.go with
 internal/shared/events/event_publisher.go) and relay transactions
 (internal/platform/outbox_relay/relay_service.go) interleave statement by statement over one
 database and one broker.  Any transaction may fail, roll back or crash at any point.  A publish may
 reach the broker without the relay learning it, and may return without an error although the broker
 never gets the message: the channel is not in confirm mode (internal/shared/mq/rabbitmq.go:161-175).
 Rows are not locked: relays may fetch overlapping batches.
 */
module OutboxProtocol {
  import opened Orders

  datatype Row = Row(order: nat, payload: Order, createdAt: int)

  datatype Message = Message(id: nat, row: Row)

  datatype OrderTx =
    | Open
    | OrderInserted(order: nat, content: Order)
    | EventInserted(order: nat, content: Order, id: nat, createdAt: int)

  /** `next` is the position of the publishing loop in the batch. */
  datatype RelayTx = RelayTx(batch: seq<Message>, next: nat, successIDs: seq<nat>)

  /** `ever` remembers all events that were ever committed; the system itself has no such table. */
  datatype State = State(
    orders: map<nat, Order>,
    table: map<nat, Row>,
    broker: seq<Message>,
    orderTxs: map<nat, OrderTx>,
    relayTxs: map<nat, RelayTx>,
    orderIds: set<nat>,
    eventIds: set<nat>,
    ever: map<nat, Row>)

  /** The fate of a statement or a publish: was it carried out, and did it return without an error? */
  datatype Fate = Fate(delivered: bool, answered: bool)

  datatype Event =
    | BeginOrder(tx: nat)
    | InsertOrder(tx: nat, order: nat, content: Order, ok: bool)
    | InsertEvent(tx: nat, id: nat, createdAt: int, ok: bool)
    | EndOrder(tx: nat, commit: bool)
    | Fetch(relay: nat, batch: seq<Message>)
    | Publish(relay: nat, fate: Fate)
    | EndRelay(relay: nat, commit: bool)

  function Init(): State {
    State(map[], map[], [], map[], map[], {}, {}, map[])
  }

  /** A batch as SELECT may return it: distinct rows of the committed table. */
  predicate Selected(table: map<nat, Row>, batch: seq<Message>) {
    && (forall m | m in batch :: m.id in table && table[m.id] == m.row)
    && (forall i, j | 0 <= i < j < |batch| :: batch[i].id != batch[j].id)
  }

  function Ids(ms: seq<Message>): set<nat> {
    set m | m in ms :: m.id
  }

  function ToSet(ids: seq<nat>): set<nat> {
    set i | i in ids
  }

  function Apply(s: State, e: Event): State {
    match e
    case BeginOrder(tx) => if tx in s.orderTxs then s else s.(orderTxs := s.orderTxs[tx := Open])
    case InsertOrder(tx, order, content, ok) =>
      if tx !in s.orderTxs || !s.orderTxs[tx].Open? || order in s.orderIds then s
      else if !ok then s.(orderTxs := s.orderTxs - {tx})
      else s.(orderTxs := s.orderTxs[tx := OrderInserted(order, content)], orderIds := s.orderIds + {order})
    case InsertEvent(tx, id, createdAt, ok) =>
      if tx !in s.orderTxs || !s.orderTxs[tx].OrderInserted? || id in s.eventIds then s
      else if !ok then s.(orderTxs := s.orderTxs - {tx})
      else s.(orderTxs := s.orderTxs[tx := EventInserted(s.orderTxs[tx].order, s.orderTxs[tx].content, id, createdAt)],
              eventIds := s.eventIds + {id})
    case EndOrder(tx, commit) =>
      if tx !in s.orderTxs then s
      else if !commit then s.(orderTxs := s.orderTxs - {tx})
      else if !s.orderTxs[tx].EventInserted? then s
      else
        var t := s.orderTxs[tx];
        var row := Row(t.order, t.content, t.createdAt);
        s.(orders := s.orders[t.order := t.content], table := s.table[t.id := row], ever := s.ever[t.id := row],
           orderTxs := s.orderTxs - {tx})
    case Fetch(r, batch) =>
      if r in s.relayTxs || !Selected(s.table, batch) then s
      else s.(relayTxs := s.relayTxs[r := RelayTx(batch, 0, [])])
    case Publish(r, fate) =>
      if r !in s.relayTxs || s.relayTxs[r].next >= |s.relayTxs[r].batch| then s
      else
        var t := s.relayTxs[r];
        var m := t.batch[t.next];
        s.(broker := if fate.delivered then s.broker + [m] else s.broker,
           relayTxs := s.relayTxs[r := t.(next := t.next + 1,
                                          successIDs := if fate.answered then t.successIDs + [m.id] else t.successIDs)])
    case EndRelay(r, commit) =>
      if r !in s.relayTxs then s
      else if !commit then s.(relayTxs := s.relayTxs - {r})
      else if s.relayTxs[r].next < |s.relayTxs[r].batch| then s
      else s.(table := s.table - ToSet(s.relayTxs[r].successIDs), relayTxs := s.relayTxs - {r})
  }

  function Run(s: State, es: seq<Event>): State {
    if es == [] then s else Apply(Run(s, es[..|es| - 1]), es[|es| - 1])
  }

  /** A publish without an error reached the broker, or the message was there already.  The source does
      not ensure this. */
  predicate Honest(s: State, e: Event) {
    e.Publish? && e.fate.answered && e.relay in s.relayTxs && s.relayTxs[e.relay].next < |s.relayTxs[e.relay].batch|
    ==> e.fate.delivered || s.relayTxs[e.relay].batch[s.relayTxs[e.relay].next] in s.broker
  }

  predicate HonestRun(es: seq<Event>) {
    es == [] || (HonestRun(es[..|es| - 1]) && Honest(Run(Init(), es[..|es| - 1]), es[|es| - 1]))
  }

  /** The same, asked only of publishes of event `id`. */
  predicate HonestAbout(s: State, e: Event, id: nat) {
    (e.Publish? && e.relay in s.relayTxs && s.relayTxs[e.relay].next < |s.relayTxs[e.relay].batch|
     && s.relayTxs[e.relay].batch[s.relayTxs[e.relay].next].id == id)
    ==> Honest(s, e)
  }

  predicate HonestRunAbout(es: seq<Event>, id: nat) {
    es == [] || (HonestRunAbout(es[..|es| - 1], id) && HonestAbout(Run(Init(), es[..|es| - 1]), es[|es| - 1], id))
  }

  /*---------------------------------- what must hold ----------------------------------*/

  /** Committed orders and ever-committed events correspond one to one, and each event carries its order. */
  ghost predicate OneToOne(orders: map<nat, Order>, ever: map<nat, Row>) {
    && (forall id | id in ever :: ever[id].order in orders && ever[id].payload == orders[ever[id].order])
    && (forall o | o in orders :: exists id :: id in ever && ever[id].order == o)
    && (forall id, jd | id in ever && jd in ever && ever[id].order == ever[jd].order :: id == jd)
  }

  /** Every committed event is still in the table or already at the broker. */
  ghost predicate NothingLost(ever: map<nat, Row>, table: map<nat, Row>, broker: seq<Message>) {
    forall id | id in ever :: id in table || Message(id, ever[id]) in broker
  }

  ghost predicate AllCommitted(ever: map<nat, Row>, ms: seq<Message>) {
    forall m | m in ms :: m.id in ever && ever[m.id] == m.row
  }

  /** The table and the broker hold only committed events, unaltered. */
  ghost predicate NothingInvented(ever: map<nat, Row>, table: map<nat, Row>, broker: seq<Message>) {
    && (forall id | id in table :: id in ever && ever[id] == table[id])
    && AllCommitted(ever, broker)
  }

  ghost predicate RelayOk(ever: map<nat, Row>, t: RelayTx) {
    t.next <= |t.batch| && AllCommitted(ever, t.batch) && forall id | id in t.successIDs :: id in ever
  }

  ghost predicate RelaysOk(ever: map<nat, Row>, relays: map<nat, RelayTx>) {
    forall r | r in relays :: RelayOk(ever, relays[r])
  }

  /** What a relay has counted as published is at the broker. */
  ghost predicate CountedArrived(ever: map<nat, Row>, broker: seq<Message>, ids: seq<nat>) {
    forall id | id in ids :: id in ever && Message(id, ever[id]) in broker
  }

  ghost predicate RelaysTruthful(ever: map<nat, Row>, broker: seq<Message>, relays: map<nat, RelayTx>) {
    forall r | r in relays :: CountedArrived(ever, broker, relays[r].successIDs)
  }

  /** The numbers that a running transaction has drawn are not committed yet ... */
  ghost predicate Uncommitted(orders: map<nat, Order>, ever: map<nat, Row>, t: OrderTx) {
    && (t.Open? || t.order !in orders)
    && (t.EventInserted? ==> t.id !in ever)
  }

  /** ... and are nobody else's. */
  predicate Apart(t: OrderTx, u: OrderTx) {
    && (!t.Open? && !u.Open? ==> t.order != u.order)
    && (t.EventInserted? && u.EventInserted? ==> t.id != u.id)
  }

  predicate Drawn(orderIds: set<nat>, eventIds: set<nat>, t: OrderTx) {
    && (t.Open? || t.order in orderIds)
    && (t.EventInserted? ==> t.id in eventIds)
  }

  ghost predicate OrderTxsOk(s: State) {
    && s.orders.Keys <= s.orderIds && s.ever.Keys <= s.eventIds
    && TxsOk(s.orders, s.ever, s.orderIds, s.eventIds, s.orderTxs)
  }

  ghost predicate TxsOk(orders: map<nat, Order>, ever: map<nat, Row>, orderIds: set<nat>, eventIds: set<nat>,
                        txs: map<nat, OrderTx>) {
    && (forall x | x in txs :: Uncommitted(orders, ever, txs[x]) && Drawn(orderIds, eventIds, txs[x]))
    && (forall x, y | x in txs && y in txs && x != y :: Apart(txs[x], txs[y]))
  }

  /** What every run keeps. */
  ghost predicate Inv(s: State) {
    && OneToOne(s.orders, s.ever) && NothingInvented(s.ever, s.table, s.broker)
    && OrderTxsOk(s) && RelaysOk(s.ever, s.relayTxs)
  }

  /** Event `id` is in the table or at the broker, and at the broker if a relay counts it as published. */
  ghost predicate KeptOf(s: State, id: nat) {
    id in s.ever ==>
      && (id in s.table || Message(id, s.ever[id]) in s.broker)
      && (forall r | r in s.relayTxs && id in s.relayTxs[r].successIDs :: Message(id, s.ever[id]) in s.broker)
  }

  /** That of every event. */
  ghost predicate Kept(s: State) {
    NothingLost(s.ever, s.table, s.broker) && RelaysTruthful(s.ever, s.broker, s.relayTxs)
  }

  lemma KeptIffEach(s: State)
    requires Inv(s)
    ensures Kept(s) <==> forall id | id in s.ever :: KeptOf(s, id)
  {
    if forall id | id in s.ever :: KeptOf(s, id) {
      forall r | r in s.relayTxs ensures CountedArrived(s.ever, s.broker, s.relayTxs[r].successIDs) {
        assert RelayOk(s.ever, s.relayTxs[r]);
        forall id | id in s.relayTxs[r].successIDs ensures id in s.ever && Message(id, s.ever[id]) in s.broker {
          assert KeptOf(s, id);
        }
      }
      forall id | id in s.ever ensures id in s.table || Message(id, s.ever[id]) in s.broker {
        assert KeptOf(s, id);
      }
    }
    if Kept(s) {
      forall id | id in s.ever ensures KeptOf(s, id) {
        forall r | r in s.relayTxs && id in s.relayTxs[r].successIDs ensures Message(id, s.ever[id]) in s.broker {
          assert CountedArrived(s.ever, s.broker, s.relayTxs[r].successIDs);
        }
      }
    }
  }

  lemma PutTx(s: State, tx: nat, t: OrderTx, orderIds: set<nat>, eventIds: set<nat>)
    requires OrderTxsOk(s) && s.orderIds <= orderIds && s.eventIds <= eventIds
    requires Uncommitted(s.orders, s.ever, t) && Drawn(orderIds, eventIds, t)
    requires forall x | x in s.orderTxs && x != tx :: Apart(s.orderTxs[x], t)
    ensures TxsOk(s.orders, s.ever, orderIds, eventIds, s.orderTxs[tx := t])
  {
    var txs := s.orderTxs[tx := t];
    forall x, y | x in txs && y in txs && x != y ensures Apart(txs[x], txs[y]) {
      if x != tx && y != tx { assert Apart(s.orderTxs[x], s.orderTxs[y]); }
    }
    forall x | x in txs ensures Uncommitted(s.orders, s.ever, txs[x]) && Drawn(orderIds, eventIds, txs[x]) {
      if x != tx { assert Drawn(s.orderIds, s.eventIds, s.orderTxs[x]); }
    }
  }

  lemma OrderTxsStep(s: State, e: Event)
    requires Inv(s) && (e.BeginOrder? || e.InsertOrder? || e.InsertEvent? || (e.EndOrder? && !e.commit))
    ensures OrderTxsOk(Apply(s, e))
  {
    match e
    case BeginOrder(tx) => PutTx(s, tx, Open, s.orderIds, s.eventIds);
    case InsertOrder(tx, order, content, ok) =>
      if tx in s.orderTxs && s.orderTxs[tx].Open? && order !in s.orderIds {
        forall x | x in s.orderTxs ensures Apart(s.orderTxs[x], OrderInserted(order, content)) {
          assert Drawn(s.orderIds, s.eventIds, s.orderTxs[x]);
        }
        PutTx(s, tx, OrderInserted(order, content), s.orderIds + {order}, s.eventIds);
      }
    case InsertEvent(tx, id, createdAt, ok) =>
      if tx in s.orderTxs && s.orderTxs[tx].OrderInserted? && id !in s.eventIds {
        var t := s.orderTxs[tx];
        assert Uncommitted(s.orders, s.ever, t) && Drawn(s.orderIds, s.eventIds, t);
        forall x | x in s.orderTxs && x != tx
          ensures Apart(s.orderTxs[x], EventInserted(t.order, t.content, id, createdAt))
        {
          assert Drawn(s.orderIds, s.eventIds, s.orderTxs[x]) && Apart(s.orderTxs[x], t);
        }
        PutTx(s, tx, EventInserted(t.order, t.content, id, createdAt), s.orderIds, s.eventIds + {id});
      }
    case EndOrder(tx, commit) =>
  }

  lemma OneToOneGrows(orders: map<nat, Order>, ever: map<nat, Row>, id: nat, row: Row)
    requires OneToOne(orders, ever) && id !in ever && row.order !in orders
    ensures OneToOne(orders[row.order := row.payload], ever[id := row])
  {
    var orders', ever' := orders[row.order := row.payload], ever[id := row];
    forall o | o in orders' ensures exists jd :: jd in ever' && ever'[jd].order == o {
      if o == row.order {
        assert ever'[id].order == o;
      } else {
        var jd :| jd in ever && ever[jd].order == o;
        assert ever'[jd].order == o;
      }
    }
  }

  lemma CommitKeepsRelays(ever: map<nat, Row>, relays: map<nat, RelayTx>, id: nat, row: Row)
    requires RelaysOk(ever, relays) && id !in ever
    ensures RelaysOk(ever[id := row], relays)
  {
    forall r | r in relays ensures RelayOk(ever[id := row], relays[r]) {
      assert RelayOk(ever, relays[r]);
    }
  }

  lemma CommitKeepsTxs(orders: map<nat, Order>, ever: map<nat, Row>, orderIds: set<nat>, eventIds: set<nat>,
                       txs: map<nat, OrderTx>, tx: nat, order: Order, row: Row)
    requires TxsOk(orders, ever, orderIds, eventIds, txs) && tx in txs && txs[tx].EventInserted?
    ensures TxsOk(orders[txs[tx].order := order], ever[txs[tx].id := row], orderIds, eventIds, txs - {tx})
  {
    forall x | x in txs - {tx} ensures Uncommitted(orders[txs[tx].order := order], ever[txs[tx].id := row], txs[x]) {
      assert Uncommitted(orders, ever, txs[x]) && Apart(txs[x], txs[tx]);
    }
  }

  lemma CommitOrderStep(s: State, tx: nat)
    requires Inv(s) && tx in s.orderTxs && s.orderTxs[tx].EventInserted?
    ensures Inv(Apply(s, EndOrder(tx, true)))
  {
    var t := s.orderTxs[tx];
    var row := Row(t.order, t.content, t.createdAt);
    assert Uncommitted(s.orders, s.ever, t) && Drawn(s.orderIds, s.eventIds, t);
    OneToOneGrows(s.orders, s.ever, t.id, row);
    CommitKeepsRelays(s.ever, s.relayTxs, t.id, row);
    CommitKeepsTxs(s.orders, s.ever, s.orderIds, s.eventIds, s.orderTxs, tx, t.content, row);
  }

  /** What publishing message `i` of a batch does. */
  lemma PublishEffect(s: State, r: nat, fate: Fate, batch: seq<Message>, i: nat, ids: seq<nat>)
    requires r in s.relayTxs && s.relayTxs[r] == RelayTx(batch, i, ids) && i < |batch|
    ensures var t := RelayTx(batch, i + 1, if fate.answered then ids + [batch[i].id] else ids);
            Apply(s, Publish(r, fate)) == s.(broker := s.broker + if fate.delivered then [batch[i]] else [],
                                             relayTxs := s.relayTxs[r := t])
  {
  }

  lemma PublishStep(s: State, r: nat, fate: Fate)
    requires Inv(s) && r in s.relayTxs && s.relayTxs[r].next < |s.relayTxs[r].batch|
    ensures Inv(Apply(s, Publish(r, fate)))
  {
    var t := s.relayTxs[r];
    assert RelayOk(s.ever, t) && t.batch[t.next] in t.batch;
    PublishEffect(s, r, fate, t.batch, t.next, t.successIDs);
    forall q | q in s.relayTxs && q != r ensures RelayOk(s.ever, s.relayTxs[q]) {
    }
  }

  lemma EndRelayStep(s: State, r: nat, commit: bool)
    requires Inv(s) && r in s.relayTxs
    ensures Inv(Apply(s, EndRelay(r, commit)))
  {
    assert RelayOk(s.ever, s.relayTxs[r]);
  }

  lemma InvStep(s: State, e: Event)
    requires Inv(s)
    ensures Inv(Apply(s, e))
  {
    match e
    case Fetch(r, batch) => assert RelayOk(s.ever, RelayTx([], 0, []));
    case Publish(r, fate) =>
      if r in s.relayTxs && s.relayTxs[r].next < |s.relayTxs[r].batch| { PublishStep(s, r, fate); }
    case EndRelay(r, commit) => if r in s.relayTxs { EndRelayStep(s, r, commit); }
    case EndOrder(tx, commit) =>
      if !commit {
        OrderTxsStep(s, e);
      } else if tx in s.orderTxs && s.orderTxs[tx].EventInserted? {
        CommitOrderStep(s, tx);
      }
    case _ => OrderTxsStep(s, e);
  }

  lemma {:induction false} InvRun(es: seq<Event>)
    ensures Inv(Run(Init(), es))
  {
    if es == [] {
    } else {
      InvRun(es[..|es| - 1]);
      InvStep(Run(Init(), es[..|es| - 1]), es[|es| - 1]);
    }
  }

  lemma KeptOfPublish(s: State, r: nat, fate: Fate, id: nat)
    requires Inv(s) && KeptOf(s, id) && HonestAbout(s, Publish(r, fate), id)
    requires r in s.relayTxs && s.relayTxs[r].next < |s.relayTxs[r].batch|
    ensures KeptOf(Apply(s, Publish(r, fate)), id)
  {
    var t := s.relayTxs[r];
    var m := t.batch[t.next];
    PublishEffect(s, r, fate, t.batch, t.next, t.successIDs);
    assert RelayOk(s.ever, t) && m in t.batch && Message(m.id, s.ever[m.id]) == m;
  }

  lemma KeptOfCommit(s: State, tx: nat, id: nat)
    requires Inv(s) && KeptOf(s, id) && tx in s.orderTxs && s.orderTxs[tx].EventInserted?
    ensures KeptOf(Apply(s, EndOrder(tx, true)), id)
  {
    assert Uncommitted(s.orders, s.ever, s.orderTxs[tx]);
    forall r | r in s.relayTxs && id in s.relayTxs[r].successIDs ensures id in s.ever {
      assert RelayOk(s.ever, s.relayTxs[r]);
    }
  }

  lemma KeptOfStep(s: State, e: Event, id: nat)
    requires Inv(s) && KeptOf(s, id) && HonestAbout(s, e, id)
    ensures KeptOf(Apply(s, e), id)
  {
    match e
    case Publish(r, fate) =>
      if r in s.relayTxs && s.relayTxs[r].next < |s.relayTxs[r].batch| { KeptOfPublish(s, r, fate, id); }
    case EndOrder(tx, commit) =>
      if commit && tx in s.orderTxs && s.orderTxs[tx].EventInserted? { KeptOfCommit(s, tx, id); }
    case _ =>
  }

  /** Safety of one event over every run: whatever becomes of the others, it is not lost if each publish of
      it that returned no error reached the broker, or repeated a message that is there. */
  lemma {:induction false} EventIsSafe(es: seq<Event>, id: nat)
    requires HonestRunAbout(es, id)
    ensures Inv(Run(Init(), es)) && KeptOf(Run(Init(), es), id)
  {
    InvRun(es);
    if es == [] {
    } else {
      InvRun(es[..|es| - 1]);
      EventIsSafe(es[..|es| - 1], id);
      KeptOfStep(Run(Init(), es[..|es| - 1]), es[|es| - 1], id);
    }
  }

  lemma {:induction false} HonestIsAboutEach(es: seq<Event>, id: nat)
    requires HonestRun(es)
    ensures HonestRunAbout(es, id)
  {
    if es == [] {
    } else {
      HonestIsAboutEach(es[..|es| - 1], id);
    }
  }

  /** Safety of the outbox over every run: orders and events correspond one to one, nothing is made up,
      and no event is lost if every publish without an error reached the broker. */
  lemma OutboxIsSafe(es: seq<Event>)
    ensures Inv(Run(Init(), es))
    ensures var s := Run(Init(), es); OneToOne(s.orders, s.ever) && NothingInvented(s.ever, s.table, s.broker)
    ensures var s := Run(Init(), es); HonestRun(es) ==> Kept(s) && NothingLost(s.ever, s.table, s.broker)
  {
    InvRun(es);
    KeptIffEach(Run(Init(), es));
    if HonestRun(es) {
      forall id | id in Run(Init(), es).ever ensures KeptOf(Run(Init(), es), id) {
        HonestIsAboutEach(es, id);
        EventIsSafe(es, id);
      }
    }
  }

  lemma OnlyRelaysDelete(s: State, e: Event)
    requires !e.EndRelay?
    ensures s.table.Keys <= Apply(s, e).table.Keys
  {
  }

  lemma DeletionFollowsPublish(s: State, e: Event, id: nat)
    requires Inv(s) && KeptOf(s, id) && id in s.table && id !in Apply(s, e).table
    ensures Message(id, s.table[id]) in s.broker
  {
    if !e.EndRelay? {
      OnlyRelaysDelete(s, e);
    } else if e.relay in s.relayTxs {
      assert id in s.relayTxs[e.relay].successIDs;
    }
  }

  /** In every run in which the error-free publishes of a row arrived, it was published before it goes. */
  lemma DeletedOnlyAfterPublished(es: seq<Event>, e: Event, id: nat)
    requires HonestRunAbout(es, id) && id in Run(Init(), es).table && id !in Apply(Run(Init(), es), e).table
    ensures Message(id, Run(Init(), es).table[id]) in Run(Init(), es).broker
  {
    EventIsSafe(es, id);
    DeletionFollowsPublish(Run(Init(), es), e, id);
  }

  lemma HonestKeeps(s: State, e: Event)
    requires Inv(s) && Kept(s) && Honest(s, e)
    ensures Inv(Apply(s, e)) && Kept(Apply(s, e))
  {
    hide Apply;
    InvStep(s, e);
    KeptIffEach(s);
    KeptIffEach(Apply(s, e));
    forall id | id in Apply(s, e).ever ensures KeptOf(Apply(s, e), id) {
      KeptOfStep(s, e, id);
    }
  }

  lemma UncountedLoses(s: State, r: nat, fate: Fate)
    requires Inv(s) && r in s.relayTxs && s.relayTxs[r].next + 1 == |s.relayTxs[r].batch|
    requires !Honest(s, Publish(r, fate))
    ensures var s' := Apply(Apply(s, Publish(r, fate)), EndRelay(r, true)); !NothingLost(s'.ever, s'.table, s'.broker)
  {
    var t := s.relayTxs[r];
    var m := t.batch[t.next];
    assert RelayOk(s.ever, t) && m in t.batch && Message(m.id, s.ever[m.id]) == m;
    PublishEffect(s, r, fate, t.batch, t.next, t.successIDs);
    assert m.id in ToSet(t.successIDs + [m.id]);
  }

  /** Publishing the last message of a batch and committing loses nothing if and only if what the relay
      counts is true: the publish failed with an error, or it arrived, or the message was there before. */
  lemma PublishKeepsIffHonest(s: State, r: nat, fate: Fate)
    requires Inv(s) && Kept(s) && r in s.relayTxs && s.relayTxs[r].next + 1 == |s.relayTxs[r].batch|
    ensures var s' := Apply(Apply(s, Publish(r, fate)), EndRelay(r, true));
            NothingLost(s'.ever, s'.table, s'.broker) <==> Honest(s, Publish(r, fate))
  {
    hide Inv, Apply, Honest;
    if Honest(s, Publish(r, fate)) {
      HonestKeeps(s, Publish(r, fate));
      CommitIsHonest(Apply(s, Publish(r, fate)), r);
      HonestKeeps(Apply(s, Publish(r, fate)), EndRelay(r, true));
    } else {
      UncountedLoses(s, r, fate);
    }
  }

  lemma CommitIsHonest(s: State, r: nat)
    ensures Honest(s, EndRelay(r, true))
  {
  }

  lemma OrderBringsEvent(s: State, e: Event, o: nat)
    requires Inv(s) && o !in s.orders && o in Apply(s, e).orders
    ensures exists id :: id !in s.ever && id in Apply(s, e).table
                         && Apply(s, e).table[id].order == o && Apply(s, e).table[id].payload == Apply(s, e).orders[o]
  {
    assert e.EndOrder? && s.orderTxs[e.tx].EventInserted?;
    var id := s.orderTxs[e.tx].id;
    assert id !in s.ever && id in Apply(s, e).table;
  }

  /** Atomicity of `CreateOrder` in every run: the step that shows an order shows its event too. */
  lemma OrderAndEventAppearTogether(es: seq<Event>, e: Event, o: nat)
    requires o !in Run(Init(), es).orders && o in Apply(Run(Init(), es), e).orders
    ensures var s, s' := Run(Init(), es), Apply(Run(Init(), es), e);
            exists id :: id !in s.ever && id in s'.table && s'.table[id].order == o
                && s'.table[id].payload == s'.orders[o]
  {
    OutboxIsSafe(es);
    OrderBringsEvent(Run(Init(), es), e, o);
  }

  lemma FetchPublish(s: State, r: nat, m: Message)
    requires r !in s.relayTxs && m.id in s.table && s.table[m.id] == m.row
    ensures var s' := Apply(Apply(s, Fetch(r, [m])), Publish(r, Fate(true, true)));
            s'.broker == s.broker + [m] && s'.table == s.table && s'.relayTxs.Keys == s.relayTxs.Keys + {r}
  {
    assert Selected(s.table, [m]);
  }

  /** Delivery is at least once and no better: whenever a row is there, two relays whose batches
      overlap can each publish it. */
  lemma OverlappingRelaysDuplicate(s: State, q: nat, r: nat, m: Message)
    requires q !in s.relayTxs && r !in s.relayTxs && q != r && m.id in s.table && s.table[m.id] == m.row
    ensures var s' := Apply(Apply(s, Fetch(q, [m])), Publish(q, Fate(true, true)));
            Apply(Apply(s', Fetch(r, [m])), Publish(r, Fate(true, true))).broker == s.broker + [m] + [m]
  {
    FetchPublish(s, q, m);
    FetchPublish(Apply(Apply(s, Fetch(q, [m])), Publish(q, Fate(true, true))), r, m);
  }

  /** Without that assumption events are lost: from any state, a relay whose publish of a row vanishes
      without an error deletes the row. */
  lemma SilentLossLosesEvent(s: State, r: nat, m: Message)
    requires Inv(s) && r !in s.relayTxs && m.id in s.table && s.table[m.id] == m.row && m !in s.broker
    ensures var s' := Apply(Apply(Apply(s, Fetch(r, [m])), Publish(r, Fate(false, true))), EndRelay(r, true));
            m.id in s'.ever && m.id !in s'.table && m !in s'.broker && !NothingLost(s'.ever, s'.table, s'.broker)
  {
    var s1 := Apply(s, Fetch(r, [m]));
    assert Selected(s.table, [m]);
    PublishEffect(s1, r, Fate(false, true), [m], 0, []);
    assert m.id in ToSet([] + [m.id]);
  }
}
