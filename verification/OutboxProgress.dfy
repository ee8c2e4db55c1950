/**
 How soon the relay of internal/platform/outbox_relay/relay_service.go delivers.  Rounds run one
 after the other and commit; events in `poison` fail in every round, all others are published when
 a round picks them; new events arrive between rounds.
 */
module OutboxProgress {
  import opened OutboxProtocol
  import opened Sets

  /** The ids of as many rows as the limit allows, the oldest ones; ties may be broken in any way. */
  ghost predicate OldestRows(table: map<nat, Row>, picked: set<nat>, limit: nat) {
    && picked <= table.Keys && |picked| <= limit && (|picked| < limit ==> picked == table.Keys)
    && (forall i, j | i in picked && j in table && j !in picked :: table[i].createdAt <= table[j].createdAt)
  }

  /** What `Limit(limit).Order("created_at asc").Find` may return. */
  ghost predicate OldestBatch(table: map<nat, Row>, batch: seq<Message>, limit: nat) {
    && Selected(table, batch) && OldestRows(table, Ids(batch), limit)
    && (forall i, j | 0 <= i < j < |batch| :: batch[i].row.createdAt <= batch[j].row.createdAt)
  }

  /** A round fetches the rows `picked`, and `arrivals` come before the next one. */
  datatype Round = Round(picked: set<nat>, arrivals: map<nat, Row>)

  function AfterRound(table: map<nat, Row>, r: Round, poison: set<nat>): map<nat, Row> {
    (table - (r.picked - poison)) + r.arrivals
  }

  /** New events are created later than those already there. */
  ghost predicate RoundOk(table: map<nat, Row>, r: Round, limit: nat) {
    && OldestRows(table, r.picked, limit)
    && r.arrivals.Keys !! table.Keys
    && (forall a, j | a in r.arrivals && j in table :: table[j].createdAt < r.arrivals[a].createdAt)
  }

  ghost predicate History(table: map<nat, Row>, rounds: seq<Round>, limit: nat, poison: set<nat>)
    decreases |rounds|
  {
    rounds == [] || (RoundOk(table, rounds[0], limit)
                     && History(AfterRound(table, rounds[0], poison), rounds[1..], limit, poison))
  }

  function TableAfter(table: map<nat, Row>, rounds: seq<Round>, poison: set<nat>): map<nat, Row>
    decreases |rounds|
  {
    if rounds == [] then table else TableAfter(AfterRound(table, rounds[0], poison), rounds[1..], poison)
  }

  /** The other events that `created_at` does not put behind `id`. */
  function Ahead(table: map<nat, Row>, id: nat): set<nat>
    requires id in table
  {
    set j | j in table && j != id && table[j].createdAt <= table[id].createdAt
  }

  /** A batch that leaves `id` out is full, and everything in it is ahead of `id`. */
  lemma FullBatchAhead(table: map<nat, Row>, picked: set<nat>, limit: nat, id: nat)
    requires OldestRows(table, picked, limit) && id in table && id !in picked
    ensures picked <= Ahead(table, id) && |picked| == limit
  {
  }

  /** Always-failing events that `created_at` does not put behind `id`. */
  function PoisonAhead(table: map<nat, Row>, poison: set<nat>, id: nat): set<nat>
    requires id in table
  {
    Ahead(table, id) * poison
  }

  /** Publishable events ahead of `id`. */
  function Queue(table: map<nat, Row>, poison: set<nat>, id: nat): nat
    requires id in table
  {
    |Ahead(table, id) - poison|
  }

  lemma AheadAfter(table: map<nat, Row>, r: Round, limit: nat, poison: set<nat>, id: nat)
    requires RoundOk(table, r, limit) && id in table && id !in r.picked
    ensures var table' := AfterRound(table, r, poison);
            && id in table' && table'[id] == table[id]
            && Ahead(table', id) == Ahead(table, id) - (r.picked - poison)
  {
  }

  lemma TakeFromFront(ahead: set<nat>, poison: set<nat>, batch: set<nat>)
    requires batch <= ahead
    ensures var rest := ahead - (batch - poison);
            && rest * poison == ahead * poison
            && |rest - poison| + |batch| - |ahead * poison| <= |ahead - poison|
  {
    var rest, good := ahead - (batch - poison), batch - poison;
    assert batch == good + batch * poison;
    Subset(batch * poison, ahead * poison);
    assert ahead - poison == (rest - poison) + good;
  }

  /** Each round that does not reach `id` takes at least `limit - p` publishable events from in front of
      it, where `p` counts the always-failing ones there; and those are the same afterwards. */
  lemma RoundShortensQueue(table: map<nat, Row>, r: Round, limit: nat, poison: set<nat>, id: nat)
    requires RoundOk(table, r, limit) && id in table && id !in r.picked
    ensures var table' := AfterRound(table, r, poison);
            && id in table' && table'[id] == table[id]
            && PoisonAhead(table', poison, id) == PoisonAhead(table, poison, id)
            && Queue(table', poison, id) + limit - |PoisonAhead(table, poison, id)| <= Queue(table, poison, id)
  {
    FullBatchAhead(table, r.picked, limit, id);
    AheadAfter(table, r, limit, poison, id);
    hide Ahead, AfterRound, RoundOk;
    TakeFromFront(Ahead(table, id), poison, r.picked);
  }

  /** Round number `k` publishes `id` and deletes its row. */
  ghost predicate DeliveredIn(table: map<nat, Row>, rounds: seq<Round>, poison: set<nat>, id: nat, k: nat) {
    k < |rounds| && id in rounds[k].picked && id !in TableAfter(table, rounds[..k + 1], poison)
  }

  lemma DeliveredAtOnce(table: map<nat, Row>, rounds: seq<Round>, limit: nat, poison: set<nat>, id: nat)
    requires rounds != [] && RoundOk(table, rounds[0], limit)
    requires id in table && id !in poison && id in rounds[0].picked
    ensures DeliveredIn(table, rounds, poison, id, 0)
  {
    var table' := AfterRound(table, rounds[0], poison);
    assert rounds[..1] == [rounds[0]] && rounds[..1][1..] == [];
    assert TableAfter(table, rounds[..1], poison) == TableAfter(table', [], poison) == table';
  }

  lemma DeliveredLater(table: map<nat, Row>, rounds: seq<Round>, poison: set<nat>, id: nat, k: nat)
    requires rounds != [] && DeliveredIn(AfterRound(table, rounds[0], poison), rounds[1..], poison, id, k)
    ensures DeliveredIn(table, rounds, poison, id, k + 1)
  {
    assert rounds[..k + 2][1..] == rounds[1..][..k + 1];
  }

  /** Some round among the first `b + 1` publishes `id` and deletes it. */
  ghost predicate DeliveredBy(table: map<nat, Row>, rounds: seq<Round>, poison: set<nat>, id: nat, b: nat) {
    exists k: nat :: k <= b && DeliveredIn(table, rounds, poison, id, k)
  }

  /** What `rounds` rounds that take `d` events each take together. */
  function Taken(d: nat, rounds: nat): nat {
    if rounds == 0 then 0 else Taken(d, rounds - 1) + d
  }

  lemma OneRoundOn(table: map<nat, Row>, rounds: seq<Round>, limit: nat, poison: set<nat>, id: nat, b: nat)
    requires rounds != [] && History(table, rounds, limit, poison) && id !in rounds[0].picked
    requires id in table && |PoisonAhead(table, poison, id)| < limit
    requires Queue(table, poison, id) < Taken(limit - |PoisonAhead(table, poison, id)|, b + 1)
    ensures var table' := AfterRound(table, rounds[0], poison);
            && b > 0 && History(table', rounds[1..], limit, poison)
            && id in table' && |PoisonAhead(table', poison, id)| < limit
            && Queue(table', poison, id) < Taken(limit - |PoisonAhead(table', poison, id)|, b)
  {
    hide PoisonAhead, Queue, RoundOk, AfterRound;
    RoundShortensQueue(table, rounds[0], limit, poison, id);
  }

  lemma {:induction false} DeliveredByRound(table: map<nat, Row>, rounds: seq<Round>, limit: nat, poison: set<nat>,
                                            id: nat, b: nat)
    requires History(table, rounds, limit, poison)
    requires id in table && id !in poison && b < |rounds| && |PoisonAhead(table, poison, id)| < limit
    requires Queue(table, poison, id) < Taken(limit - |PoisonAhead(table, poison, id)|, b + 1)
    ensures DeliveredBy(table, rounds, poison, id, b)
    decreases |rounds|
  {
    if id in rounds[0].picked {
      DeliveredAtOnce(table, rounds, limit, poison, id);
    } else {
      hide DeliveredIn, PoisonAhead, Queue, History, Taken, AfterRound;
      OneRoundOn(table, rounds, limit, poison, id, b);
      var table' := AfterRound(table, rounds[0], poison);
      DeliveredByRound(table', rounds[1..], limit, poison, id, b - 1);
      var k: nat :| k <= b - 1 && DeliveredIn(table', rounds[1..], poison, id, k);
      DeliveredLater(table, rounds, poison, id, k);
      assert DeliveredIn(table, rounds, poison, id, k + 1);
    }
  }

  /** floor(q / (limit - p)), with `q` publishable and `p` always-failing events ahead of `id`. */
  function RoundsBefore(table: map<nat, Row>, limit: nat, poison: set<nat>, id: nat): nat
    requires id in table && |PoisonAhead(table, poison, id)| < limit
  {
    Queue(table, poison, id) / (limit - |PoisonAhead(table, poison, id)|)
  }

  lemma {:induction false} TakenIsProduct(d: nat, rounds: nat)
    ensures Taken(d, rounds) == d * rounds
  {
    if rounds == 0 {
    } else {
      TakenIsProduct(d, rounds - 1);
      assert d * (rounds - 1) + d == d * rounds;
    }
  }

  lemma QuotientBound(q: nat, d: nat)
    requires d > 0
    ensures q < Taken(d, q / d + 1)
  {
    TakenIsProduct(d, q / d);
    assert q == d * (q / d) + q % d;
  }

  lemma {:induction false} TakenAtLeast(d: nat, rounds: nat)
    requires d > 0
    ensures rounds <= Taken(d, rounds)
  {
    if rounds == 0 {
    } else {
      TakenAtLeast(d, rounds - 1);
    }
  }

  lemma QuotientAtMost(q: nat, d: nat)
    requires d > 0
    ensures q / d <= q
  {
    TakenIsProduct(d, q / d);
    TakenAtLeast(d, q / d);
  }

  /** Bounded delivery: an event that can be published is, within floor(q / (limit - p)) + 1 rounds.
      Events that fail but are created later do not matter, however many there are. */
  lemma DeliveredWithin(table: map<nat, Row>, rounds: seq<Round>, limit: nat, poison: set<nat>, id: nat)
    requires History(table, rounds, limit, poison)
    requires id in table && id !in poison && |PoisonAhead(table, poison, id)| < limit
    requires RoundsBefore(table, limit, poison, id) < |rounds|
    ensures DeliveredBy(table, rounds, poison, id, RoundsBefore(table, limit, poison, id))
  {
    hide History, DeliveredBy, Queue, PoisonAhead;
    var b := RoundsBefore(table, limit, poison, id);
    QuotientBound(Queue(table, poison, id), limit - |PoisonAhead(table, poison, id)|);
    DeliveredByRound(table, rounds, limit, poison, id, b);
  }

  /** Always-failing events that are strictly older than `id`. */
  function PoisonBefore(table: map<nat, Row>, poison: set<nat>, id: nat): set<nat>
    requires id in table
  {
    set j | j in poison && j in table && table[j].createdAt < table[id].createdAt
  }

  lemma FullOfPoison(table: map<nat, Row>, picked: set<nat>, limit: nat, poison: set<nat>, id: nat)
    requires OldestRows(table, picked, limit) && id in table && |PoisonBefore(table, poison, id)| >= limit
    ensures id !in picked
  {
    if id in picked {
      assert PoisonBefore(table, poison, id) <= picked;
      Subset(PoisonBefore(table, poison, id) + {id}, picked);
    }
  }

  lemma PoisonStays(table: map<nat, Row>, r: Round, limit: nat, poison: set<nat>, id: nat)
    requires RoundOk(table, r, limit) && id in table && |PoisonBefore(table, poison, id)| >= limit
    ensures var table' := AfterRound(table, r, poison);
            id !in r.picked && id in table' && |PoisonBefore(table', poison, id)| >= limit
  {
    FullOfPoison(table, r.picked, limit, poison, id);
    var table' := AfterRound(table, r, poison);
    Subset(PoisonBefore(table, poison, id), PoisonBefore(table', poison, id));
  }

  /** Behind `limit` older events that always fail, `id` is never even fetched, however long the relay
      runs.  The source has no retry limit. */
  lemma {:induction false} StarvedForever(table: map<nat, Row>, rounds: seq<Round>, limit: nat, poison: set<nat>,
                                          id: nat)
    requires History(table, rounds, limit, poison)
    requires id in table && |PoisonBefore(table, poison, id)| >= limit
    ensures forall r | r in rounds :: id !in r.picked
    ensures id in TableAfter(table, rounds, poison)
    decreases |rounds|
  {
    if rounds == [] {
    } else {
      PoisonStays(table, rounds[0], limit, poison, id);
      StarvedForever(AfterRound(table, rounds[0], poison), rounds[1..], limit, poison, id);
    }
  }

  /** No other event has the same creation time. */
  predicate OwnTime(table: map<nat, Row>, id: nat)
    requires id in table
  {
    forall j | j in table && j != id :: table[j].createdAt != table[id].createdAt
  }

  lemma {:induction false} DeliveredWasFetched(table: map<nat, Row>, rounds: seq<Round>, poison: set<nat>, id: nat,
                                               k: nat)
    requires DeliveredIn(table, rounds, poison, id, k)
    ensures exists r :: r in rounds && id in r.picked
  {
    assert rounds[k] in rounds;
  }

  /** Some round publishes `id` and deletes its row. */
  ghost predicate EverDelivered(table: map<nat, Row>, rounds: seq<Round>, poison: set<nat>, id: nat) {
    exists k: nat :: DeliveredIn(table, rounds, poison, id, k)
  }

  /** Exactly when an event is delivered: an event with a creation time of its own is delivered only if
      fewer than a batch of always-failing events are older, and then it is as soon as there are more
      rounds than publishable events ahead of it. */
  lemma DeliveredIff(table: map<nat, Row>, rounds: seq<Round>, limit: nat, poison: set<nat>, id: nat)
    requires History(table, rounds, limit, poison) && id in table && id !in poison && OwnTime(table, id)
    ensures EverDelivered(table, rounds, poison, id) ==> |PoisonBefore(table, poison, id)| < limit
    ensures Queue(table, poison, id) < |rounds| ==>
              (EverDelivered(table, rounds, poison, id) <==> |PoisonBefore(table, poison, id)| < limit)
  {
    hide History;
    assert PoisonBefore(table, poison, id) == PoisonAhead(table, poison, id);
    if |PoisonBefore(table, poison, id)| < limit {
      QuotientAtMost(Queue(table, poison, id), limit - |PoisonAhead(table, poison, id)|);
      if Queue(table, poison, id) < |rounds| {
        DeliveredWithin(table, rounds, limit, poison, id);
      }
    } else {
      StarvedForever(table, rounds, limit, poison, id);
      forall k: nat ensures !DeliveredIn(table, rounds, poison, id, k) {
        if DeliveredIn(table, rounds, poison, id, k) {
          DeliveredWasFetched(table, rounds, poison, id, k);
        }
      }
    }
  }
}
