/**
 Refresh-token rotation, internal/services/auth/internal/service/token_service.go, over any number of
 replicas of TokenRevocation's store that share a database and Redis.
 */
module RefreshRotation {
  import opened Options
  import opened Sets
  import opened TokenRevocation

  /** The clock readings of one `RefreshAccessToken`, in program order. */
  datatype Moments = Moments(read: int, extract: int, expired: int, reread: int, reextract: int,
                             refreshAt: int, accessAt: int, revoke: int, until: int)

  predicate Ordered(m: Moments) {
    m.read <= m.extract <= m.expired <= m.reread <= m.reextract <= m.refreshAt <= m.accessAt <= m.revoke <= m.until
  }

  /** Which stores answer in the three store calls. */
  datatype Replies = Replies(read: IO, reread: IO, revoke: IO)

  /** `createRefreshToken` and `createAccessToken` followed by `sign`, which keeps whole seconds. */
  function Issue(issued: map<nat, Claims>, c: Claims, refresh: nat, refreshAt: int, access: nat, accessAt: int)
    : map<nat, Claims>
  {
    var refreshExp := (refreshAt + c.refreshValidity * SECOND) / SECOND;
    var accessExp := (accessAt + c.accessValidity * SECOND) / SECOND;
    issued[refresh := Claims(RefreshToken, refreshExp, c.accessValidity, c.refreshValidity)]
          [access := Claims(AccessToken, accessExp, c.accessValidity, c.refreshValidity)]
  }

  /** What a new pair is good for: both tokens parse until an expiry that lies within the last
      second of their validity, both carry the validities on, neither is revoked for any lookup, and no
      older token changes. */
  lemma NewPairIsGood(v: View, c: Claims, refresh: nat, refreshAt: int, access: nat, accessAt: int, now: int,
                      prefix: Prefix, io: IO)
    requires Coherent(v) && v.db <= v.issued.Keys && io.dbUp
    requires refresh != access && refresh !in v.issued && access !in v.issued
    ensures var v' := v.(issued := Issue(v.issued, c, refresh, refreshAt, access, accessAt));
            && Lookup(v', refresh, prefix, now, io).NotRevoked? && Lookup(v', access, prefix, now, io).NotRevoked?
            && v'.issued[refresh].kind == RefreshToken && v'.issued[access].kind == AccessToken
            && v'.issued[refresh].accessValidity == v'.issued[access].accessValidity == c.accessValidity
            && v'.issued[refresh].refreshValidity == v'.issued[access].refreshValidity == c.refreshValidity
            && (now <= refreshAt + (c.refreshValidity - 1) * SECOND ==> Parses(v'.issued, refresh, now))
            && (now > refreshAt + c.refreshValidity * SECOND ==> !Parses(v'.issued, refresh, now))
            && (now <= accessAt + (c.accessValidity - 1) * SECOND ==> Parses(v'.issued, access, now))
            && (now > accessAt + c.accessValidity * SECOND ==> !Parses(v'.issued, access, now))
            && forall t | t in v.issued :: t in v'.issued && v'.issued[t] == v.issued[t]
  {
    assert refresh !in v.db && access !in v.db;
    WholeSeconds(refreshAt + c.refreshValidity * SECOND);
    WholeSeconds(accessAt + c.accessValidity * SECOND);
  }

  lemma WholeSeconds(t: int)
    ensures t - SECOND < t / SECOND * SECOND <= t
  {
  }

  /** RefreshAccessToken on one replica: does it return a pair? */
  predicate Yields(v: View, token: nat, m: Moments, r: Replies) {
    && Lookup(v, token, Access, m.read, r.read).NotRevoked?
    && Parses(v.issued, token, m.extract) && Parses(v.issued, token, m.expired)
    && Lookup(AfterLookup(v, token, Access, m.read, r.read), token, Access, m.reread, r.reread).NotRevoked?
    && Parses(v.issued, token, m.reextract)
  }

  /** With coherent caches a call yields if and only if the database answers both lookups and has no row for
      the token, and the token still parses at the last reading. */
  lemma YieldsIff(v: View, token: nat, m: Moments, r: Replies)
    requires Coherent(v) && Ordered(m)
    ensures Yields(v, token, m, r)
            <==> r.read.dbUp && r.reread.dbUp && token !in v.db
                 && token in v.issued && m.reextract <= v.issued[token].exp * SECOND
  {
    LookupAgreesWithDb(v, token, Access, m.read, r.read);
    LookupKeepsCoherence(v, token, Access, m.read, r.read);
    LookupAgreesWithDb(AfterLookup(v, token, Access, m.read, r.read), token, Access, m.reread, r.reread);
  }

  function AfterRefresh(v: View, token: nat, m: Moments, r: Replies, refresh: nat, access: nat): View {
    var v1 := AfterLookup(v, token, Access, m.read, r.read);
    if !Lookup(v, token, Access, m.read, r.read).NotRevoked? || !Parses(v.issued, token, m.extract) then v1
    else if !Parses(v.issued, token, m.expired) then AfterRevoke(v1, token, Refresh, m.expired, m.expired, r.revoke)
    else
      var v2 := AfterLookup(v1, token, Access, m.reread, r.reread);
      if !Lookup(v1, token, Access, m.reread, r.reread).NotRevoked? || !Parses(v.issued, token, m.reextract) then v2
      else AfterRevoke(v2.(issued := Issue(v.issued, v.issued[token], refresh, m.refreshAt, access, m.accessAt)),
                       token, Refresh, m.revoke, m.until, r.revoke)
  }

  class TokenService {
    const store: JwtTokenStore

    constructor (store: JwtTokenStore)
      ensures this.store == store
    {
      this.store := store;
    }

    method CreatePair(c: Claims, refresh: nat, refreshAt: int, access: nat, accessAt: int)
      modifies store.remote`issued
      ensures store.remote.issued == Issue(old(store.remote.issued), c, refresh, refreshAt, access, accessAt)
    {
      store.remote.issued := store.remote.issued[refresh :=
        Claims(RefreshToken, (refreshAt + c.refreshValidity * SECOND) / SECOND, c.accessValidity, c.refreshValidity)];
      store.remote.issued := store.remote.issued[access :=
        Claims(AccessToken, (accessAt + c.accessValidity * SECOND) / SECOND, c.accessValidity, c.refreshValidity)];
    }

    /** `refresh` and `access` are the values of the new tokens, should it come to that. */
    method RefreshAccessToken(token: nat, m: Moments, r: Replies, refresh: nat, access: nat)
      returns (pair: Option<(nat, nat)>)
      requires Ordered(m) && refresh != access && refresh !in store.remote.issued && access !in store.remote.issued
      modifies store`revokedCache, store.remote
      ensures pair == if Yields(old(store.Seen()), token, m, r) then Some((refresh, access)) else None
      ensures store.Seen() == AfterRefresh(old(store.Seen()), token, m, r, refresh, access)
      ensures pair.Some? ==>
                && token in old(store.remote.issued)
                && store.remote.issued.Keys == old(store.remote.issued.Keys) + {refresh, access}
                && forall t | t in {refresh, access} ::
                     && store.remote.issued[t].accessValidity == old(store.remote.issued[token].accessValidity)
                     && store.remote.issued[t].refreshValidity == old(store.remote.issued[token].refreshValidity)
    {
      var claims := store.Read(token, m.read, m.extract, r.read);
      if claims.None? {
        return None;
      }
      if claims.value.exp * SECOND < m.expired {
        store.RevokeToken(token, Refresh, m.expired, m.expired, r.revoke);
        return None;
      }
      var details := store.Read(token, m.reread, m.reextract, r.reread);
      if details.None? {
        return None;
      }
      CreatePair(details.value, refresh, m.refreshAt, access, m.accessAt);
      store.RevokeToken(token, Refresh, m.revoke, m.until, r.revoke);
      pair := Some((refresh, access));
    }
  }

  /*------------------------------------ the whole service ------------------------------------*/

  /** All replicas; `clock` is the last reading taken, `creates` and `uses` are history. */
  datatype Cluster = Cluster(issued: map<nat, Claims>, db: set<nat>, redis: Cache, locals: seq<Local>,
                             clock: int, creates: nat, uses: map<nat, nat>)

  datatype Op =
    | Create(at: int, c: Claims, refresh: nat, access: nat)
    | RefreshOp(replica: nat, token: nat, m: Moments, r: Replies, refresh: nat, access: nat)
    | Look(replica: nat, token: nat, prefix: Prefix, at: int, io: IO)
    | Revoke(replica: nat, token: nat, prefix: Prefix, t: int, u: int, io: IO)
    | LoseLocal(replica: nat, k: CacheKey)
    | LoseRedis(k: CacheKey)

  function Init(replicas: nat, start: int): Cluster {
    Cluster(map[], {}, map[], seq(replicas, _ => map[]), start, 0, map[])
  }

  function At(s: Cluster, i: nat): View
    requires i < |s.locals|
  {
    View(true, true, s.issued, s.db, s.redis, s.locals[i])
  }

  function Put(s: Cluster, i: nat, v: View, clock: int): Cluster
    requires i < |s.locals|
  {
    s.(issued := v.issued, db := v.db, redis := v.redis, locals := s.locals[i := v.local], clock := clock)
  }

  /** Calls run one after the other, each starting later than the last one ended; new tokens have
      values never used before; the database takes every row. */
  predicate Possible(s: Cluster, op: Op) {
    match op
    case Create(at, c, refresh, access) =>
      s.clock < at && refresh != access && refresh !in s.issued && access !in s.issued
    case RefreshOp(i, token, m, r, refresh, access) =>
      && i < |s.locals| && s.clock < m.read && Ordered(m) && r.revoke.dbUp
      && refresh != access && refresh !in s.issued && access !in s.issued
    case Look(i, token, prefix, at, io) => i < |s.locals| && s.clock < at
    case Revoke(i, token, prefix, t, u, io) => i < |s.locals| && s.clock < t <= u && io.dbUp
    case LoseLocal(i, k) => i < |s.locals|
    case LoseRedis(k) => true
  }

  function Times(m: map<nat, nat>, t: nat): nat {
    if t in m then m[t] else 0
  }

  /** One whole call.  A call that is not possible in `s` leaves `s` alone. */
  function Apply(s: Cluster, op: Op): Cluster {
    if !Possible(s, op) then s else
    match op
    case Create(at, c, refresh, access) =>
      s.(issued := Issue(s.issued, c, refresh, at, access, at), clock := at, creates := s.creates + 1)
    case RefreshOp(i, token, m, r, refresh, access) =>
      var s' := Put(s, i, AfterRefresh(At(s, i), token, m, r, refresh, access), m.until);
      if Yields(At(s, i), token, m, r) then s'.(uses := s.uses[token := Times(s.uses, token) + 1]) else s'
    case Look(i, token, prefix, at, io) => Put(s, i, AfterLookup(At(s, i), token, prefix, at, io), at)
    case Revoke(i, token, prefix, t, u, io) => Put(s, i, AfterRevoke(At(s, i), token, prefix, t, u, io), u)
    case LoseLocal(i, k) => s.(locals := s.locals[i := s.locals[i] - {k}])
    case LoseRedis(k) => s.(redis := s.redis - {k})
  }

  function Run(s: Cluster, ops: seq<Op>): Cluster {
    if ops == [] then s else Apply(Run(s, ops[..|ops| - 1]), ops[|ops| - 1])
  }

  ghost predicate AllCoherent(s: Cluster) {
    forall i: nat | i < |s.locals| :: Coherent(At(s, i))
  }

  /** A token that has yielded a pair is revoked in the database, or its time is over. */
  ghost predicate Spent(s: Cluster) {
    forall t | t in s.uses :: t in s.issued && (t in s.db || s.issued[t].exp * SECOND <= s.clock) && s.uses[t] == 1
  }

  ghost predicate Sound(s: Cluster) {
    AllCoherent(s) && s.db <= s.issued.Keys
  }

  ghost predicate Inv(s: Cluster) {
    Sound(s) && Spent(s)
  }

  /** What one replica does to the shared stores keeps every other replica's caches coherent. */
  lemma PutKeepsSound(s: Cluster, i: nat, v: View, s': Cluster)
    requires Sound(s) && i < |s.locals| && Coherent(v) && s.db <= v.db <= v.issued.Keys
    requires s' == Put(s, i, v, s'.clock).(uses := s'.uses)
    ensures Sound(s')
  {
    forall j: nat | j < |s'.locals| ensures Coherent(At(s', j)) {
      assert Coherent(At(s, j));
    }
  }

  lemma CoherenceStep(s: Cluster, op: Op)
    requires Sound(s)
    ensures Sound(Apply(s, op)) && |Apply(s, op).locals| == |s.locals|
    ensures s.db <= Apply(s, op).db && s.clock <= Apply(s, op).clock
    ensures forall t | t in s.issued :: t in Apply(s, op).issued && Apply(s, op).issued[t] == s.issued[t]
  {
    var s' := Apply(s, op);
    if Possible(s, op) && (op.RefreshOp? || op.Look? || op.Revoke?) {
      OneReplica(s, op);
      PutKeepsSound(s, op.replica, NextView(s, op), s');
    } else {
      forall i: nat | i < |s'.locals| ensures Coherent(At(s', i)) {
        assert Coherent(At(s, i));
      }
    }
  }

  function NextView(s: Cluster, op: Op): View
    requires Possible(s, op) && (op.RefreshOp? || op.Look? || op.Revoke?)
  {
    match op
    case RefreshOp(i, token, m, r, refresh, access) => AfterRefresh(At(s, i), token, m, r, refresh, access)
    case Look(i, token, prefix, at, io) => AfterLookup(At(s, i), token, prefix, at, io)
    case Revoke(i, token, prefix, t, u, io) => AfterRevoke(At(s, i), token, prefix, t, u, io)
  }

  lemma RefreshKeepsCoherence(v: View, token: nat, m: Moments, r: Replies, refresh: nat, access: nat)
    requires Coherent(v) && v.db <= v.issued.Keys && Ordered(m) && r.revoke.dbUp
    requires refresh != access && refresh !in v.issued && access !in v.issued
    ensures var v' := AfterRefresh(v, token, m, r, refresh, access);
            && Coherent(v') && v.db <= v'.db <= v'.issued.Keys
            && (forall t | t in v.issued :: t in v'.issued && v'.issued[t] == v.issued[t])
            && (v'.issued != v.issued <==> Yields(v, token, m, r))
            && (Yields(v, token, m, r) ==>
                  && v'.issued == Issue(v.issued, v.issued[token], refresh, m.refreshAt, access, m.accessAt)
                  && token !in v.db && m.read <= v.issued[token].exp * SECOND
                  && (token in v'.db || v.issued[token].exp * SECOND <= m.until))
            && (!Yields(v, token, m, r) ==> v'.db == v.db || v'.db == v.db + {token})
  {
    LookupAgreesWithDb(v, token, Access, m.read, r.read);
    LookupKeepsCoherence(v, token, Access, m.read, r.read);
    var v1 := AfterLookup(v, token, Access, m.read, r.read);
    LookupKeepsCoherence(v1, token, Access, m.reread, r.reread);
    LookupAgreesWithDb(v1, token, Access, m.reread, r.reread);
  }

  lemma OneReplica(s: Cluster, op: Op)
    requires Sound(s) && Possible(s, op) && (op.RefreshOp? || op.Look? || op.Revoke?)
    ensures var v := NextView(s, op);
            && Coherent(v) && s.db <= v.db <= v.issued.Keys
            && forall t | t in s.issued :: t in v.issued && v.issued[t] == s.issued[t]
  {
    var v := At(s, op.replica);
    assert Coherent(v);
    match op
    case RefreshOp(i, token, m, r, refresh, access) => RefreshKeepsCoherence(v, token, m, r, refresh, access);
    case Look(i, token, prefix, at, io) => LookupKeepsCoherence(v, token, prefix, at, io);
    case Revoke(i, token, prefix, t, u, io) => RevokeKeepsCoherence(v, token, prefix, t, u, io);
  }

  /** A spent token does not yield again. */
  lemma SpentStays(s: Cluster, op: Op)
    requires Inv(s)
    ensures Spent(Apply(s, op))
  {
    CoherenceStep(s, op);
    if Possible(s, op) && op.RefreshOp? {
      var v := At(s, op.replica);
      assert Coherent(v);
      RefreshKeepsCoherence(v, op.token, op.m, op.r, op.refresh, op.access);
    }
  }

  lemma {:induction false} RunInv(replicas: nat, start: int, ops: seq<Op>)
    ensures Inv(Run(Init(replicas, start), ops)) && |Run(Init(replicas, start), ops).locals| == replicas
  {
    if ops == [] {
    } else {
      RunInv(replicas, start, ops[..|ops| - 1]);
      CoherenceStep(Run(Init(replicas, start), ops[..|ops| - 1]), ops[|ops| - 1]);
      SpentStays(Run(Init(replicas, start), ops[..|ops| - 1]), ops[|ops| - 1]);
    }
  }

  /** In every run over any number of replicas, a lookup on any replica and under either prefix says
      exactly whether the database has the row, whatever the caches have lost or which of them fail. */
  lemma RevocationAgreesEverywhere(replicas: nat, start: int, ops: seq<Op>, i: nat, token: nat, prefix: Prefix,
                                   now: int, redisUp: bool)
    requires i < replicas
    ensures var s := Run(Init(replicas, start), ops);
            && i < |s.locals|
            && Lookup(At(s, i), token, prefix, now, IO(redisUp, true)) == if token in s.db then Revoked else NotRevoked
  {
    RunInv(replicas, start, ops);
    var s := Run(Init(replicas, start), ops);
    assert Coherent(At(s, i));
    LookupAgreesWithDb(At(s, i), token, prefix, now, IO(redisUp, true));
  }

  /** Rotation is single-use: in every run no token value ever yields more than one new pair. */
  lemma SingleUse(replicas: nat, start: int, ops: seq<Op>, token: nat)
    ensures Times(Run(Init(replicas, start), ops).uses, token) <= 1
  {
    RunInv(replicas, start, ops);
  }

  /*------------------------------ the lives of descendants ------------------------------*/

  /** The client that a token goes back to, by whatever chain of refreshes, and when the token was issued. */
  datatype Lineage = Lineage(client: Claims, born: int)

  function Ancestry(s: Cluster, ops: seq<Op>): map<nat, Lineage> {
    if ops == [] then map[] else
    var known, before := Ancestry(s, ops[..|ops| - 1]), Run(s, ops[..|ops| - 1]);
    if Possible(before, ops[|ops| - 1]) then Descend(known, before, ops[|ops| - 1]) else known
  }

  function Descend(known: map<nat, Lineage>, s: Cluster, op: Op): map<nat, Lineage>
    requires Possible(s, op)
  {
    match op
    case Create(at, c, refresh, access) => known[refresh := Lineage(c, at)][access := Lineage(c, at)]
    case RefreshOp(i, token, m, r, refresh, access) =>
      if Yields(At(s, i), token, m, r) && token in known
      then known[refresh := Lineage(known[token].client, m.refreshAt)]
                [access := Lineage(known[token].client, m.accessAt)]
      else known
    case _ => known
  }

  /** A token carries its client's validities, and expires within the last second of the one of its kind. */
  predicate LivesBy(claims: Claims, l: Lineage) {
    var life := if claims.kind == RefreshToken then l.client.refreshValidity else l.client.accessValidity;
    && claims.accessValidity == l.client.accessValidity && claims.refreshValidity == l.client.refreshValidity
    && l.born + (life - 1) * SECOND < claims.exp * SECOND <= l.born + life * SECOND
  }

  ghost predicate AllLiveBy(issued: map<nat, Claims>, known: map<nat, Lineage>) {
    forall t | t in issued :: t in known && LivesBy(issued[t], known[t])
  }

  lemma IssuedLiveBy(issued: map<nat, Claims>, known: map<nat, Lineage>, c: Claims, client: Claims, refresh: nat,
                     refreshAt: int, access: nat, accessAt: int)
    requires AllLiveBy(issued, known) && refresh != access && refresh !in issued && access !in issued
    requires c.accessValidity == client.accessValidity && c.refreshValidity == client.refreshValidity
    ensures AllLiveBy(Issue(issued, c, refresh, refreshAt, access, accessAt),
                      known[refresh := Lineage(client, refreshAt)][access := Lineage(client, accessAt)])
  {
    WholeSeconds(refreshAt + c.refreshValidity * SECOND);
    WholeSeconds(accessAt + c.accessValidity * SECOND);
  }

  lemma DescendStep(s: Cluster, op: Op, known: map<nat, Lineage>)
    requires Inv(s) && Possible(s, op) && AllLiveBy(s.issued, known)
    ensures AllLiveBy(Apply(s, op).issued, Descend(known, s, op))
  {
    match op
    case Create(at, c, refresh, access) => IssuedLiveBy(s.issued, known, c, c, refresh, at, access, at);
    case RefreshOp(i, token, m, r, refresh, access) =>
      assert Coherent(At(s, i));
      RefreshKeepsCoherence(At(s, i), token, m, r, refresh, access);
      hide Yields, AfterRefresh, Issue, LivesBy;
      if Yields(At(s, i), token, m, r) {
        assert LivesBy(s.issued[token], known[token]);
        SameValidities(s.issued[token], known[token]);
        IssuedLiveBy(s.issued, known, s.issued[token], known[token].client, refresh, m.refreshAt, access, m.accessAt);
      }
    case _ =>
  }

  lemma SameValidities(claims: Claims, l: Lineage)
    requires LivesBy(claims, l)
    ensures claims.accessValidity == l.client.accessValidity && claims.refreshValidity == l.client.refreshValidity
  {
  }

  lemma {:induction false} EveryoneLivesBy(replicas: nat, start: int, ops: seq<Op>)
    ensures AllLiveBy(Run(Init(replicas, start), ops).issued, Ancestry(Init(replicas, start), ops))
  {
    if ops == [] {
    } else {
      var before := ops[..|ops| - 1];
      EveryoneLivesBy(replicas, start, before);
      RunInv(replicas, start, before);
      hide Inv, Descend, AllLiveBy;
      if Possible(Run(Init(replicas, start), before), ops[|ops| - 1]) {
        DescendStep(Run(Init(replicas, start), before), ops[|ops| - 1], Ancestry(Init(replicas, start), before));
      }
    }
  }

  /** Rotation does not change how long tokens live: in every run, every token, after whatever chain of
      refreshes, goes back to a creation for a client, carries that client's two validities, and expires
      within the last second of the one for its kind, counted from when it was issued. */
  lemma DescendantsKeepLives(replicas: nat, start: int, ops: seq<Op>, t: nat)
    requires t in Run(Init(replicas, start), ops).issued
    ensures var claims, known := Run(Init(replicas, start), ops).issued[t], Ancestry(Init(replicas, start), ops);
            && t in known
            && claims.accessValidity == known[t].client.accessValidity
            && claims.refreshValidity == known[t].client.refreshValidity
            && var life := if claims.kind == RefreshToken then known[t].client.refreshValidity
                           else known[t].client.accessValidity;
               known[t].born + (life - 1) * SECOND < claims.exp * SECOND <= known[t].born + life * SECOND
  {
    EveryoneLivesBy(replicas, start, ops);
    assert LivesBy(Run(Init(replicas, start), ops).issued[t], Ancestry(Init(replicas, start), ops)[t]);
  }

  /** A refresh hands its token's client on to both new tokens, and nothing else changes a token's client. */
  lemma AncestryStep(replicas: nat, start: int, ops: seq<Op>, op: Op, t: nat)
    requires Possible(Run(Init(replicas, start), ops), op) && t in Run(Init(replicas, start), ops).issued
    ensures var s, known := Run(Init(replicas, start), ops), Ancestry(Init(replicas, start), ops);
            var known' := Ancestry(Init(replicas, start), ops + [op]);
            && t in known && t in known' && known'[t] == known[t]
            && (op.RefreshOp? && Yields(At(s, op.replica), op.token, op.m, op.r) && op.token == t ==>
                  && op.refresh in known' && known'[op.refresh] == Lineage(known[t].client, op.m.refreshAt)
                  && op.access in known' && known'[op.access] == Lineage(known[t].client, op.m.accessAt))
            && (op.Create? ==>
                  && op.refresh in known' && known'[op.refresh] == Lineage(op.c, op.at)
                  && op.access in known' && known'[op.access] == Lineage(op.c, op.at))
  {
    assert (ops + [op])[..|ops|] == ops;
    EveryoneLivesBy(replicas, start, ops);
  }

  /*------------------------------ conservation of refresh tokens ------------------------------*/

  /** Refresh tokens that are neither expired nor revoked. */
  function LiveRefresh(s: Cluster): set<nat> {
    set t | t in s.issued && s.issued[t].kind == RefreshToken && t !in s.db && s.clock < s.issued[t].exp * SECOND
  }

  /** The refresh tokens that are still live at `until`, unless `token` is one of them. */
  function Remaining(s: Cluster, token: nat, until: int): set<nat> {
    set t | t in LiveRefresh(s) && t in s.issued && until < s.issued[t].exp * SECOND && t != token
  }

  /** What a call that yields a pair does to the live refresh tokens: those alive when it ends stay, the
      token presented goes, and the new one comes if it lives that long. */
  lemma LiveAfterYield(s: Cluster, op: Op)
    requires Inv(s) && Possible(s, op) && op.RefreshOp? && Yields(At(s, op.replica), op.token, op.m, op.r)
    ensures var s' := Apply(s, op);
            && op.refresh in s'.issued
            && LiveRefresh(s') == Remaining(s, op.token, op.m.until)
                                  + if op.m.until < s'.issued[op.refresh].exp * SECOND then {op.refresh} else {}
    ensures op.token in s.issued && (op.token in LiveRefresh(s) <==> s.issued[op.token].kind == RefreshToken)
  {
    var v := At(s, op.replica);
    assert Coherent(v);
    RefreshKeepsCoherence(v, op.token, op.m, op.r, op.refresh, op.access);
  }

  /** A call that yields for an access token. */
  predicate AccessYield(s: Cluster, op: Op) {
    && op.RefreshOp? && Possible(s, op) && Yields(At(s, op.replica), op.token, op.m, op.r)
    && op.token in s.issued && s.issued[op.token].kind == AccessToken
  }

  function AccessYields(s: Cluster, ops: seq<Op>): nat {
    if ops == [] then 0
    else AccessYields(s, ops[..|ops| - 1]) + if AccessYield(Run(s, ops[..|ops| - 1]), ops[|ops| - 1]) then 1 else 0
  }

  lemma LiveShrinks(s: Cluster, s': Cluster)
    requires s'.issued == s.issued && s.db <= s'.db && s.clock <= s'.clock
    ensures |LiveRefresh(s')| <= |LiveRefresh(s)|
  {
    Subset(LiveRefresh(s'), LiveRefresh(s));
  }

  /** A yielding call takes one live refresh token out and puts one in, unless it was an access token. */
  lemma LiveExchange(s: Cluster, op: Op)
    requires Inv(s) && Possible(s, op) && op.RefreshOp? && Yields(At(s, op.replica), op.token, op.m, op.r)
    ensures |LiveRefresh(Apply(s, op))| <= |LiveRefresh(s)| + if AccessYield(s, op) then 1 else 0
  {
    LiveAfterYield(s, op);
    var live, rest := LiveRefresh(s), Remaining(s, op.token, op.m.until);
    Subset(rest, live - {op.token});
    Subset(LiveRefresh(Apply(s, op)), rest + {op.refresh});
  }

  lemma LiveStep(s: Cluster, op: Op)
    requires Inv(s)
    ensures |LiveRefresh(Apply(s, op))| - Apply(s, op).creates
            <= |LiveRefresh(s)| - s.creates + if AccessYield(s, op) then 1 else 0
  {
    var s' := Apply(s, op);
    CoherenceStep(s, op);
    if op.Create? {
      Subset(LiveRefresh(s'), LiveRefresh(s) + {op.refresh});
    } else if Possible(s, op) && op.RefreshOp? && Yields(At(s, op.replica), op.token, op.m, op.r) {
      LiveExchange(s, op);
    } else {
      if Possible(s, op) && op.RefreshOp? {
        assert Coherent(At(s, op.replica));
        RefreshKeepsCoherence(At(s, op.replica), op.token, op.m, op.r, op.refresh, op.access);
      }
      LiveShrinks(s, s');
    }
  }

  /** Conservation, in every run: unexpired unrevoked refresh tokens outnumber the calls of
      CreateAccessToken at most by the pairs that were yielded for access tokens. */
  lemma {:induction false} RefreshTokensConserved(replicas: nat, start: int, ops: seq<Op>)
    ensures |LiveRefresh(Run(Init(replicas, start), ops))|
            <= Run(Init(replicas, start), ops).creates + AccessYields(Init(replicas, start), ops)
  {
    if ops == [] {
      assert LiveRefresh(Init(replicas, start)) == {};
    } else {
      RefreshTokensConserved(replicas, start, ops[..|ops| - 1]);
      RunInv(replicas, start, ops[..|ops| - 1]);
      LiveStep(Run(Init(replicas, start), ops[..|ops| - 1]), ops[|ops| - 1]);
    }
  }

  /** So they never outnumber the creations while no access token yields. */
  lemma OnlyRefreshTokensConserve(replicas: nat, start: int, ops: seq<Op>)
    requires AccessYields(Init(replicas, start), ops) == 0
    ensures |LiveRefresh(Run(Init(replicas, start), ops))| <= Run(Init(replicas, start), ops).creates
  {
    RefreshTokensConserved(replicas, start, ops);
  }

  /*------------------------------ overlapping calls ------------------------------*/

  /** Calls between their last lookup and the revocation that follows it; `inside` names their tokens. */
  datatype Inside = Inside(replica: nat, token: nat)

  datatype Open = Open(s: Cluster, inside: map<nat, Inside>)

  datatype Step =
    | LastLook(call: nat, replica: nat, token: nat, reread: int, reextract: int, io: IO)
    | Finish(call: nat, refreshAt: int, accessAt: int, revoke: int, until: int, io: IO, refresh: nat, access: nat)
    | Other(op: Op)

  function LookStep(o: Open, call: nat, i: nat, token: nat, reread: int, reextract: int, io: IO): Open
    requires i < |o.s.locals|
  {
    var v := At(o.s, i);
    var s := Put(o.s, i, AfterLookup(v, token, Access, reread, io), reextract);
    if Lookup(v, token, Access, reread, io).NotRevoked? && Parses(v.issued, token, reextract)
    then Open(s, o.inside[call := Inside(i, token)]) else o.(s := s)
  }

  function FinishStep(o: Open, call: nat, refreshAt: int, accessAt: int, revoke: int, until: int, io: IO,
                      refresh: nat, access: nat): Open
    requires call in o.inside && o.inside[call].replica < |o.s.locals| && o.inside[call].token in o.s.issued
  {
    var i, token := o.inside[call].replica, o.inside[call].token;
    var v := At(o.s, i).(issued := Issue(o.s.issued, o.s.issued[token], refresh, refreshAt, access, accessAt));
    var s := Put(o.s, i, AfterRevoke(v, token, Refresh, revoke, until, io), until);
    Open(s.(uses := s.uses[token := Times(s.uses, token) + 1]), o.inside - {call})
  }

  /** One step of any call.  A step that is not possible leaves everything alone. */
  function ApplyStep(o: Open, e: Step): Open {
    match e
    case LastLook(call, i, token, reread, reextract, io) =>
      if call in o.inside || i >= |o.s.locals| || !(o.s.clock < reread <= reextract) then o
      else LookStep(o, call, i, token, reread, reextract, io)
    case Finish(call, refreshAt, accessAt, revoke, until, io, refresh, access) =>
      if call !in o.inside || o.inside[call].replica >= |o.s.locals| || o.inside[call].token !in o.s.issued
         || !(o.s.clock <= refreshAt <= accessAt <= revoke <= until) || !io.dbUp
         || refresh == access || refresh in o.s.issued || access in o.s.issued then o
      else FinishStep(o, call, refreshAt, accessAt, revoke, until, io, refresh, access)
    case Other(op) => if op.RefreshOp? then o else o.(s := Apply(o.s, op))
  }

  function RunSteps(o: Open, es: seq<Step>): Open {
    if es == [] then o else ApplyStep(RunSteps(o, es[..|es| - 1]), es[|es| - 1])
  }

  function CallsWith(o: Open, token: nat): set<nat> {
    set c | c in o.inside && o.inside[c].token == token
  }

  /** A token that has yielded a pair is revoked in the database, or its time is over. */
  ghost predicate UsedUp(s: Cluster) {
    forall t | t in s.uses :: t in s.issued && (t in s.db || s.issued[t].exp * SECOND <= s.clock)
  }

  ghost predicate OpenInv(o: Open) {
    Sound(o.s) && UsedUp(o.s)
  }

  lemma LookStepOk(o: Open, call: nat, i: nat, token: nat, reread: int, reextract: int, io: IO)
    requires OpenInv(o) && call !in o.inside && i < |o.s.locals| && o.s.clock < reread <= reextract
    ensures var o' := LookStep(o, call, i, token, reread, reextract, io);
            && OpenInv(o') && o'.s.uses == o.s.uses
            && (call in o'.inside ==> token !in o.s.uses && o'.inside == o.inside[call := Inside(i, token)])
            && (call !in o'.inside ==> o'.inside == o.inside)
  {
    var v := At(o.s, i);
    assert Coherent(v);
    LookupAgreesWithDb(v, token, Access, reread, io);
    LookupKeepsCoherence(v, token, Access, reread, io);
    PutKeepsSound(o.s, i, AfterLookup(v, token, Access, reread, io),
                  LookStep(o, call, i, token, reread, reextract, io).s);
  }

  lemma FinishIsSound(o: Open, call: nat, refreshAt: int, accessAt: int, revoke: int, until: int, io: IO,
                      refresh: nat, access: nat)
    requires Sound(o.s) && call in o.inside && o.inside[call].replica < |o.s.locals|
            && o.inside[call].token in o.s.issued && io.dbUp
    ensures var s' := FinishStep(o, call, refreshAt, accessAt, revoke, until, io, refresh, access).s;
            Sound(s') && o.s.db <= s'.db
  {
    var i, token := o.inside[call].replica, o.inside[call].token;
    var v := At(o.s, i).(issued := Issue(o.s.issued, o.s.issued[token], refresh, refreshAt, access, accessAt));
    assert Coherent(At(o.s, i));
    RevokeKeepsCoherence(v, token, Refresh, revoke, until, io);
    hide Coherent, Issue;
    PutKeepsSound(o.s, i, AfterRevoke(v, token, Refresh, revoke, until, io),
                  FinishStep(o, call, refreshAt, accessAt, revoke, until, io, refresh, access).s);
  }

  lemma FinishStepOk(o: Open, call: nat, refreshAt: int, accessAt: int, revoke: int, until: int, io: IO,
                     refresh: nat, access: nat)
    requires OpenInv(o) && call in o.inside && o.inside[call].replica < |o.s.locals|
            && o.inside[call].token in o.s.issued
    requires o.s.clock <= revoke <= until && io.dbUp && refresh !in o.s.issued && access !in o.s.issued
    ensures var o' := FinishStep(o, call, refreshAt, accessAt, revoke, until, io, refresh, access);
            && OpenInv(o') && o'.inside == o.inside - {call} && |o'.s.locals| == |o.s.locals| && o'.s.clock == until
            && o'.s.issued == Issue(o.s.issued, o.s.issued[o.inside[call].token], refresh, refreshAt, access, accessAt)
            && o'.s.uses == o.s.uses[o.inside[call].token := Times(o.s.uses, o.inside[call].token) + 1]
  {
    hide Sound;
    FinishIsSound(o, call, refreshAt, accessAt, revoke, until, io, refresh, access);
  }

  /** Pairs yielded and pairs to come. */
  function Claimed(o: Open, token: nat): nat {
    Times(o.s.uses, token) + |CallsWith(o, token)|
  }

  lemma ClaimLook(o: Open, call: nat, i: nat, t: nat, reread: int, reextract: int, io: IO, token: nat, m: nat)
    requires OpenInv(o) && call !in o.inside && i < |o.s.locals| && o.s.clock < reread <= reextract
    requires Claimed(o, token) <= m && |CallsWith(LookStep(o, call, i, t, reread, reextract, io), token)| <= m
    ensures var o' := LookStep(o, call, i, t, reread, reextract, io); OpenInv(o') && Claimed(o', token) <= m
  {
    hide LookStep, Sound, UsedUp;
    LookStepOk(o, call, i, t, reread, reextract, io);
    var o' := LookStep(o, call, i, t, reread, reextract, io);
    if call !in o'.inside || t != token {
      assert CallsWith(o', token) == CallsWith(o, token);
    }
  }

  lemma ClaimFinish(o: Open, e: Step, token: nat, m: nat)
    requires OpenInv(o) && e.Finish? && Claimed(o, token) <= m
    ensures OpenInv(ApplyStep(o, e)) && Claimed(ApplyStep(o, e), token) <= m
  {
    hide FinishStep, Sound, UsedUp;
    var o' := ApplyStep(o, e);
    if o' != o {
      FinishStepOk(o, e.call, e.refreshAt, e.accessAt, e.revoke, e.until, e.io, e.refresh, e.access);
      if o.inside[e.call].token == token {
        assert CallsWith(o, token) == CallsWith(o', token) + {e.call};
      } else {
        assert CallsWith(o', token) == CallsWith(o, token);
      }
    }
  }

  lemma ClaimStep(o: Open, e: Step, token: nat, m: nat)
    requires OpenInv(o) && Claimed(o, token) <= m && |CallsWith(ApplyStep(o, e), token)| <= m
    ensures OpenInv(ApplyStep(o, e)) && Claimed(ApplyStep(o, e), token) <= m
  {
    hide LookStep, FinishStep, Sound;
    match e
    case LastLook(call, i, t, reread, reextract, io) =>
      if call !in o.inside && i < |o.s.locals| && o.s.clock < reread <= reextract {
        ClaimLook(o, call, i, t, reread, reextract, io, token, m);
      }
    case Finish(_, _, _, _, _, _, _, _) => ClaimFinish(o, e, token, m);
    case Other(op) =>
      if !op.RefreshOp? {
        CoherenceStep(o.s, op);
        assert CallsWith(ApplyStep(o, e), token) == CallsWith(o, token);
      }
  }

  /** At most `m` calls with the token are ever between their last lookup and their revocation at once. */
  ghost predicate AtMostInside(o: Open, es: seq<Step>, token: nat, m: nat) {
    forall k | 0 <= k <= |es| :: |CallsWith(RunSteps(o, es[..k]), token)| <= m
  }

  lemma {:induction false} ClaimsBounded(replicas: nat, start: int, es: seq<Step>, token: nat, m: nat)
    requires AtMostInside(Open(Init(replicas, start), map[]), es, token, m)
    ensures var o := RunSteps(Open(Init(replicas, start), map[]), es); OpenInv(o) && Claimed(o, token) <= m
  {
    var o := Open(Init(replicas, start), map[]);
    if es == [] {
      assert CallsWith(o, token) == {};
    } else {
      var before := es[..|es| - 1];
      forall k | 0 <= k <= |before| ensures |CallsWith(RunSteps(o, before[..k]), token)| <= m {
        assert before[..k] == es[..k];
      }
      ClaimsBounded(replicas, start, before, token, m);
      assert es[..|es|] == es;
      ClaimStep(RunSteps(o, before), es[|es| - 1], token, m);
    }
  }

  /** Rotation under overlap: in every interleaving of any calls on any replicas, a token yields at most
      as many pairs as calls are at once between their last lookup and their revocation. */
  lemma OverlapBoundsUse(replicas: nat, start: int, es: seq<Step>, token: nat, m: nat)
    requires AtMostInside(Open(Init(replicas, start), map[]), es, token, m)
    ensures Times(RunSteps(Open(Init(replicas, start), map[]), es).s.uses, token) <= m
  {
    ClaimsBounded(replicas, start, es, token, m);
  }

  /** `m` calls look the token up, one time unit after the other. */
  function Looks(i: nat, token: nat, clock: int, io: IO, m: nat): seq<Step> {
    if m == 0 then []
    else Looks(i, token, clock, io, m - 1) + [LastLook(m - 1, i, token, clock + m, clock + m, io)]
  }

  /** The first `k` of them then end at the same time; the new tokens are numbered from `next`. */
  function Finishes(clock: int, io: IO, next: nat, k: nat): seq<Step> {
    if k == 0 then []
    else Finishes(clock, io, next, k - 1)
         + [Finish(k - 1, clock, clock, clock, clock, io, next + 2 * k - 2, next + 2 * k - 1)]
  }

  /** Exactly the calls `k` to `m` are inside, all with the token. */
  ghost predicate Waiting(inside: map<nat, Inside>, k: nat, m: nat, i: nat, token: nat) {
    && (forall c | c in inside :: k <= c < m && inside[c] == Inside(i, token))
    && (forall c: nat | k <= c < m :: c in inside)
  }

  /** Calls `k` to `m` are inside and the others have yielded. */
  ghost predicate Halfway(o: Open, i: nat, token: nat, k: nat, m: nat, next: nat) {
    && OpenInv(o) && i < |o.s.locals| && Waiting(o.inside, k, m, i, token)
    && token in o.s.issued && Times(o.s.uses, token) == k && (forall x | x in o.s.issued :: x < next)
  }

  lemma RunStepsOneMore(o: Open, es: seq<Step>, e: Step)
    ensures RunSteps(o, es + [e]) == ApplyStep(RunSteps(o, es), e)
  {
    assert (es + [e])[..|es|] == es;
  }

  lemma LooksUnfold(o: Open, i: nat, token: nat, clock: int, io: IO, m: nat)
    ensures RunSteps(o, Looks(i, token, clock, io, 0)) == o
    ensures m > 0 ==> RunSteps(o, Looks(i, token, clock, io, m))
                      == ApplyStep(RunSteps(o, Looks(i, token, clock, io, m - 1)),
                                   LastLook(m - 1, i, token, clock + m, clock + m, io))
  {
    hide ApplyStep;
    if m > 0 {
      RunStepsOneMore(o, Looks(i, token, clock, io, m - 1), LastLook(m - 1, i, token, clock + m, clock + m, io));
    }
  }

  lemma FinishesUnfold(o: Open, clock: int, io: IO, next: nat, k: nat)
    ensures RunSteps(o, Finishes(clock, io, next, 0)) == o
    ensures k > 0 ==> RunSteps(o, Finishes(clock, io, next, k))
                      == ApplyStep(RunSteps(o, Finishes(clock, io, next, k - 1)),
                                   Finish(k - 1, clock, clock, clock, clock, io, next + 2 * k - 2, next + 2 * k - 1))
  {
    hide ApplyStep;
    if k > 0 {
      RunStepsOneMore(o, Finishes(clock, io, next, k - 1),
                      Finish(k - 1, clock, clock, clock, clock, io, next + 2 * k - 2, next + 2 * k - 1));
    }
  }

  lemma OneMoreLook(o: Open, i: nat, token: nat, io: IO, m: nat, next: nat)
    requires Halfway(o, i, token, 0, m, next) && io.dbUp && token !in o.s.db
            && o.s.clock + 1 <= o.s.issued[token].exp * SECOND
    ensures var o' := ApplyStep(o, LastLook(m, i, token, o.s.clock + 1, o.s.clock + 1, io));
            && Halfway(o', i, token, 0, m + 1, next)
            && o'.s.issued == o.s.issued && o'.s.db == o.s.db && o'.s.clock == o.s.clock + 1
  {
    assert Coherent(At(o.s, i));
    LookupAgreesWithDb(At(o.s, i), token, Access, o.s.clock + 1, io);
    LookStepOk(o, m, i, token, o.s.clock + 1, o.s.clock + 1, io);
  }

  lemma {:induction false} AllLook(o: Open, i: nat, token: nat, io: IO, m: nat, next: nat)
    requires Halfway(o, i, token, 0, 0, next) && io.dbUp && token !in o.s.db
            && o.s.clock + m <= o.s.issued[token].exp * SECOND
    ensures var o' := RunSteps(o, Looks(i, token, o.s.clock, io, m));
            && Halfway(o', i, token, 0, m, next)
            && o'.s.issued == o.s.issued && o'.s.db == o.s.db && o'.s.clock == o.s.clock + m
  {
    hide RunSteps, Looks, ApplyStep, Halfway;
    LooksUnfold(o, i, token, o.s.clock, io, m);
    if m == 0 {
    } else {
      AllLook(o, i, token, io, m - 1, next);
      OneMoreLook(RunSteps(o, Looks(i, token, o.s.clock, io, m - 1)), i, token, io, m - 1, next);
    }
  }

  lemma OneMoreFinish(o: Open, i: nat, token: nat, io: IO, k: nat, m: nat, next: nat)
    requires Halfway(o, i, token, k, m, next) && io.dbUp && k < m
    ensures var clock := o.s.clock;
            var o' := ApplyStep(o, Finish(k, clock, clock, clock, clock, io, next, next + 1));
            Halfway(o', i, token, k + 1, m, next + 2) && o'.s.clock == clock
  {
    hide Sound, UsedUp, FinishStep;
    assert o.inside[k] == Inside(i, token);
    FinishStepOk(o, k, o.s.clock, o.s.clock, o.s.clock, o.s.clock, io, next, next + 1);
  }

  lemma {:induction false} AllFinish(o: Open, i: nat, token: nat, io: IO, k: nat, m: nat, next: nat)
    requires Halfway(o, i, token, 0, m, next) && io.dbUp && k <= m
    ensures var o' := RunSteps(o, Finishes(o.s.clock, io, next, k));
            Halfway(o', i, token, k, m, next + 2 * k) && o'.s.clock == o.s.clock
  {
    hide RunSteps, Finishes, ApplyStep, Halfway;
    FinishesUnfold(o, o.s.clock, io, next, k);
    if k == 0 {
    } else {
      AllFinish(o, i, token, io, k - 1, m, next);
      OneMoreFinish(RunSteps(o, Finishes(o.s.clock, io, next, k - 1)), i, token, io, k - 1, m, next + 2 * k - 2);
    }
  }

  /** The bound is reached: from any state with no call under way, `m` overlapping calls yield `m` pairs
      for any live token that has not been used. */
  lemma OverlapIsReached(o: Open, i: nat, token: nat, io: IO, m: nat, next: nat)
    requires OpenInv(o) && o.inside == map[] && i < |o.s.locals| && io.dbUp
    requires token in o.s.issued && token !in o.s.db && token !in o.s.uses
            && o.s.clock + m <= o.s.issued[token].exp * SECOND
    requires forall x | x in o.s.issued :: x < next
    ensures var looked := RunSteps(o, Looks(i, token, o.s.clock, io, m));
            Times(RunSteps(looked, Finishes(looked.s.clock, io, next, m)).s.uses, token) == m
  {
    hide RunSteps, Looks, Finishes;
    AllLook(o, i, token, io, m, next);
    AllFinish(RunSteps(o, Looks(i, token, o.s.clock, io, m)), i, token, io, m, m, next);
  }

  /*------------------------------ where the promises end ------------------------------*/

  predicate Before(v: View, token: nat, m: Moments) {
    token in v.issued && Ordered(m) && m.until < v.issued[token].exp * SECOND
  }

  predicate AllUp(r: Replies) {
    r.read.dbUp && r.reread.dbUp
  }

  /** Nothing in the caches stands under the prefix that reading uses. */
  ghost predicate NoAccessEntry(v: View, token: nat) {
    CacheKey(Access, token) !in v.local && CacheKey(Access, token) !in v.redis
  }

  /** Rotation rests on the database alone: after a token has yielded a pair, it yields another one
      within its life if and only if the first call's insert of the revocation row did not happen.
      The local cache and Redis are no help, because revokeToken writes them under another prefix. */
  lemma ReplayIffNoRow(v: View, token: nat, m: Moments, r: Replies, refresh: nat, access: nat, m2: Moments, r2: Replies)
    requires NoAccessEntry(v, token) && Before(v, token, m) && Before(v, token, m2) && AllUp(r) && AllUp(r2)
    requires refresh !in v.issued && access !in v.issued && Yields(v, token, m, r)
    ensures Yields(AfterRefresh(v, token, m, r, refresh, access), token, m2, r2) <==> !(v.hasDb && r.revoke.dbUp)
  {
    var v' := AfterRefresh(v, token, m, r, refresh, access);
    assert token !in v.db || !v.hasDb;
    assert NoAccessEntry(v', token) && v'.hasDb == v.hasDb;
    assert v.hasDb && r.revoke.dbUp ==> token in v'.db;
  }

  /** Access tokens are accepted too, and then conservation fails: one CreateAccessToken, two live
      refresh tokens. */
  lemma AccessTokenAlsoRefreshes(c: Claims, io: IO)
    requires c.accessValidity > 10 && c.refreshValidity > 10 && io.dbUp
    ensures var m := Moments(2, 2, 2, 2, 2, 2, 2, 2, 2);
            var s := Run(Init(1, 0), [Create(1, c, 0, 1), RefreshOp(0, 1, m, Replies(io, io, io), 2, 3)]);
            s.creates == 1 && LiveRefresh(s) == {0, 2}
  {
    var m := Moments(2, 2, 2, 2, 2, 2, 2, 2, 2);
    var ops := [Create(1, c, 0, 1), RefreshOp(0, 1, m, Replies(io, io, io), 2, 3)];
    var s0 := Init(1, 0);
    assert ops[..1] == [ops[0]] && ops[..1][..0] == [];
    assert Run(s0, ops[..1]) == Apply(s0, ops[0]);
    var s1 := Apply(s0, ops[0]);
    assert s1.issued[1].exp >= 11 && s1.issued[0].exp >= 11;
    assert Yields(At(s1, 0), 1, m, Replies(io, io, io));
  }

  /** At the very instant of expiry a token is still accepted but no longer revoked: presented twice
      within that one reading of the clock, it yields twice. */
  lemma ExpiryInstantReplays(v: View, token: nat, r: Replies, refresh: nat, access: nat)
    requires token in v.issued && refresh !in v.issued && access !in v.issued
    requires var x := v.issued[token].exp * SECOND; Yields(v, token, Moments(x, x, x, x, x, x, x, x, x), r)
    ensures var x := v.issued[token].exp * SECOND;
            var m := Moments(x, x, x, x, x, x, x, x, x);
            Yields(AfterRefresh(v, token, m, r, refresh, access), token, m, r)
  {
  }
}
