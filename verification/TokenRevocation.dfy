/**
 The token store of internal/services/auth/internal/storage/token_store.go: signed tokens, and the
 three places that remember revocations - a local cache per replica, Redis, and the database.
 Tokens are named by number; SHA-256 is taken to be injective, so a token stands for its own hash.
 Times are nanoseconds.
 */
module TokenRevocation {
  import opened Options

  const SECOND := 1_000_000_000
  /** The local cache's default expiration. */
  const DEFAULT_EXPIRATION := 5 * 60 * SECOND

  datatype Kind = AccessToken | RefreshToken

  /** `exp` is in whole seconds; the validities are those of the client the token was issued to. */
  datatype Claims = Claims(kind: Kind, exp: int, accessValidity: int, refreshValidity: int)

  datatype Prefix = Access | Refresh

  datatype CacheKey = CacheKey(prefix: Prefix, token: nat)

  type Local = map<CacheKey, int>

  /** Redis entries without a deadline never expire. */
  type Cache = map<CacheKey, Option<int>>

  /** What one replica sees.  `db` holds the revoked hashes; either store may be absent. */
  datatype View = View(hasDb: bool, hasRedis: bool, issued: map<nat, Claims>, db: set<nat>, redis: Cache, local: Local)

  /** Which of the remote stores answer during one call. */
  datatype IO = IO(redisUp: bool, dbUp: bool)

  datatype Answer = Revoked | NotRevoked | LookupFailed

  /** `Extract`: the signature is good and the expiry time is not before `now`. */
  predicate Parses(issued: map<nat, Claims>, token: nat, now: int) {
    token in issued && now <= issued[token].exp * SECOND
  }

  predicate LocalHit(v: View, k: CacheKey, now: int) {
    k in v.local && now < v.local[k]
  }

  predicate RedisHit(v: View, k: CacheKey, now: int) {
    v.hasRedis && k in v.redis && (v.redis[k].None? || now < v.redis[k].value)
  }

  /** isTokenRevoked: local cache, then Redis, then the database. */
  function Lookup(v: View, token: nat, prefix: Prefix, now: int, io: IO): Answer {
    var k := CacheKey(prefix, token);
    if LocalHit(v, k, now) || (io.redisUp && RedisHit(v, k, now)) then Revoked
    else if !v.hasDb then NotRevoked
    else if !io.dbUp then LookupFailed
    else if token in v.db then Revoked else NotRevoked
  }

  /** A hit in Redis or the database is copied into the local cache. */
  function AfterLookup(v: View, token: nat, prefix: Prefix, now: int, io: IO): View {
    var k := CacheKey(prefix, token);
    if Lookup(v, token, prefix, now, io).Revoked? && !LocalHit(v, k, now)
    then v.(local := v.local[k := now + DEFAULT_EXPIRATION]) else v
  }

  /** revokeToken, which parses the token at `t` and measures its remaining life at `u`.  A life of
      less than a second becomes a Redis entry without a deadline. */
  function AfterRevoke(v: View, token: nat, prefix: Prefix, t: int, u: int, io: IO): View {
    if !Parses(v.issued, token, t) || u >= v.issued[token].exp * SECOND then v
    else
      var k := CacheKey(prefix, token);
      var life := v.issued[token].exp * SECOND - u;
      v.(local := v.local[k := u + life],
         redis := if v.hasRedis && io.redisUp
                  then v.redis[k := if life / SECOND == 0 then None else Some(u + life / SECOND * SECOND)] else v.redis,
         db := if v.hasDb && io.dbUp then v.db + {token} else v.db)
  }

  /*------------------------------------ the store ------------------------------------*/

  class Remote {
    const hasDb: bool
    const hasRedis: bool
    var issued: map<nat, Claims>
    var db: set<nat>
    var redis: Cache

    constructor (hasDb: bool, hasRedis: bool)
      ensures this.hasDb == hasDb && this.hasRedis == hasRedis && issued == map[] && db == {} && redis == map[]
    {
      this.hasDb := hasDb;
      this.hasRedis := hasRedis;
      issued := map[];
      db := {};
      redis := map[];
    }
  }

  class JwtTokenStore {
    const remote: Remote
    var revokedCache: Local

    constructor (remote: Remote)
      ensures this.remote == remote && revokedCache == map[]
    {
      this.remote := remote;
      revokedCache := map[];
    }

    function Seen(): View
      reads this, remote
    {
      View(remote.hasDb, remote.hasRedis, remote.issued, remote.db, remote.redis, revokedCache)
    }

    method Extract(token: nat, now: int) returns (claims: Option<Claims>)
      ensures claims == if Parses(remote.issued, token, now) then Some(remote.issued[token]) else None
    {
      if token !in remote.issued {
        return None;
      }
      var c := remote.issued[token];
      // the JWT library compares whole seconds, IsExpired compares exactly
      if now / SECOND > c.exp || c.exp * SECOND < now {
        return None;
      }
      claims := Some(c);
    }

    method IsTokenRevoked(token: nat, prefix: Prefix, now: int, io: IO) returns (answer: Answer)
      modifies this`revokedCache
      ensures answer == Lookup(old(Seen()), token, prefix, now, io)
      ensures Seen() == AfterLookup(old(Seen()), token, prefix, now, io)
    {
      var k := CacheKey(prefix, token);
      if k in revokedCache && now < revokedCache[k] {
        return Revoked;
      }
      if remote.hasRedis && io.redisUp && k in remote.redis && (remote.redis[k].None? || now < remote.redis[k].value) {
        revokedCache := revokedCache[k := now + DEFAULT_EXPIRATION];
        return Revoked;
      }
      if remote.hasDb {
        if !io.dbUp {
          return LookupFailed;
        }
        if token in remote.db {
          revokedCache := revokedCache[k := now + DEFAULT_EXPIRATION];
          return Revoked;
        }
      }
      answer := NotRevoked;
    }

    /** RemoveAccessToken and RemoveRefreshToken; `t` and `u` are the two clock readings. */
    method RevokeToken(token: nat, prefix: Prefix, t: int, u: int, io: IO)
      modifies this`revokedCache, remote`redis, remote`db
      ensures Seen() == AfterRevoke(old(Seen()), token, prefix, t, u, io)
    {
      var claims := Extract(token, t);
      if claims.None? {
        return;
      }
      var expiresIn := claims.value.exp * SECOND - u;
      if expiresIn <= 0 {
        return;
      }
      var k := CacheKey(prefix, token);
      revokedCache := revokedCache[k := u + expiresIn];
      if remote.hasRedis && io.redisUp {
        var seconds := expiresIn / SECOND;
        remote.redis := remote.redis[k := if seconds == 0 then None else Some(u + seconds * SECOND)];
      }
      if remote.hasDb && io.dbUp {
        remote.db := remote.db + {token};
      }
    }

    /** ReadAccessToken and ReadOAuth2Details: look the token up at `t`, parse it at `u`. */
    method Read(token: nat, t: int, u: int, io: IO) returns (claims: Option<Claims>)
      modifies this`revokedCache
      ensures Seen() == AfterLookup(old(Seen()), token, Access, t, io)
      ensures claims == if Lookup(old(Seen()), token, Access, t, io).NotRevoked? && Parses(remote.issued, token, u)
                        then Some(remote.issued[token]) else None
    {
      var answer := IsTokenRevoked(token, Access, t, io);
      if !answer.NotRevoked? {
        return None;
      }
      claims := Extract(token, u);
    }
  }

  /*------------------------------ what each tier remembers, and for how long ------------------------------*/

  /** A token is revoked if any tier that is asked and answers remembers it, and the lookup fails only if none
      of the caches does and the database is there but does not answer. */
  lemma LookupIff(v: View, token: nat, prefix: Prefix, now: int, io: IO)
    ensures var k := CacheKey(prefix, token);
            var cached := (k in v.local && now < v.local[k])
                          || (v.hasRedis && io.redisUp && k in v.redis
                              && (v.redis[k].None? || now < v.redis[k].value));
            && (Lookup(v, token, prefix, now, io).Revoked? <==> cached || (v.hasDb && io.dbUp && token in v.db))
            && (Lookup(v, token, prefix, now, io).LookupFailed? <==> !cached && v.hasDb && !io.dbUp)
  {
  }

  /** With the database gone, the replica that revoked a token knows it until the token's expiry. */
  lemma LocalKnowsTillExpiry(v: View, token: nat, prefix: Prefix, t: int, u: int, now: int, io: IO)
    requires Parses(v.issued, token, t) && u < v.issued[token].exp * SECOND
    ensures Lookup(AfterRevoke(v, token, prefix, t, u, io), token, prefix, now, IO(false, false)).Revoked?
            <==> now < v.issued[token].exp * SECOND
  {
  }

  /** Another replica learns it from Redis until some moment of the token's last second; a life of less than
      a second is remembered for ever. */
  lemma RedisKnowsTillLastSecond(v: View, other: Local, token: nat, prefix: Prefix, t: int, u: int, now: int, io: IO)
    requires v.hasRedis && io.redisUp && CacheKey(prefix, token) !in other
    requires Parses(v.issued, token, t) && u < v.issued[token].exp * SECOND
    ensures var expiry := v.issued[token].exp * SECOND;
            var seen := Lookup(AfterRevoke(v, token, prefix, t, u, io).(local := other), token, prefix, now,
                               IO(true, false)).Revoked?;
            && (now <= expiry - SECOND || u > expiry - SECOND ==> seen)
            && (now >= expiry && u <= expiry - SECOND ==> !seen)
  {
  }

  /** A replica that learned of a revocation from Redis or the database knows it for five minutes by itself. */
  lemma BackfillKnowsFiveMinutes(v: View, token: nat, prefix: Prefix, now: int, later: int, io: IO)
    requires Lookup(v, token, prefix, now, io).Revoked? && !LocalHit(v, CacheKey(prefix, token), now)
    ensures Lookup(AfterLookup(v, token, prefix, now, io), token, prefix, later, IO(false, false)).Revoked?
            <==> later < now + 300 * SECOND
  {
  }

  /** A revocation touches nothing else, and nothing at all if the token does not parse or has no life left. */
  lemma RevokeTouchesOnlyToken(v: View, token: nat, prefix: Prefix, t: int, u: int, io: IO)
    ensures var v' := AfterRevoke(v, token, prefix, t, u, io);
            && v'.issued == v.issued && v'.hasDb == v.hasDb && v'.hasRedis == v.hasRedis
            && (!Parses(v.issued, token, t) || u >= v.issued[token].exp * SECOND ==> v' == v)
            && v'.local - {CacheKey(prefix, token)} == v.local - {CacheKey(prefix, token)}
            && v'.redis - {CacheKey(prefix, token)} == v.redis - {CacheKey(prefix, token)}
            && v'.db == v.db + if Parses(v.issued, token, t) && u < v.issued[token].exp * SECOND && v.hasDb && io.dbUp
                               then {token} else {}
  {
  }

  /*------------------------------ agreement with the database ------------------------------*/

  /** The database is there, and every cached revocation is backed by one of its rows. */
  ghost predicate Coherent(v: View) {
    v.hasDb && (forall k | k in v.local :: k.token in v.db) && (forall k | k in v.redis :: k.token in v.db)
  }

  /** An answered lookup agrees with the database, whichever tiers hit, miss or fail. */
  lemma LookupAgreesWithDb(v: View, token: nat, prefix: Prefix, now: int, io: IO)
    requires Coherent(v)
    ensures io.dbUp ==> !Lookup(v, token, prefix, now, io).LookupFailed?
    ensures !Lookup(v, token, prefix, now, io).LookupFailed? ==>
              (Lookup(v, token, prefix, now, io).Revoked? <==> token in v.db)
  {
  }

  lemma LookupKeepsCoherence(v: View, token: nat, prefix: Prefix, now: int, io: IO)
    requires Coherent(v)
    ensures Coherent(AfterLookup(v, token, prefix, now, io))
  {
    LookupAgreesWithDb(v, token, prefix, now, io);
  }

  lemma RevokeKeepsCoherence(v: View, token: nat, prefix: Prefix, t: int, u: int, io: IO)
    requires Coherent(v) && io.dbUp
    ensures Coherent(AfterRevoke(v, token, prefix, t, u, io))
  {
  }

  /** A revocation that is recorded is seen under the prefix that `ReadAccessToken` uses exactly when
      the database took the row: the caches are written under the other prefix. */
  lemma RefreshRevocationSeenIffRow(v: View, token: nat, t: int, u: int, now: int, io: IO, look: IO)
    requires Lookup(v, token, Access, now, look).NotRevoked? && look.dbUp && token !in v.db
    requires Parses(v.issued, token, t) && u < v.issued[token].exp * SECOND
    ensures Lookup(AfterRevoke(v, token, Refresh, t, u, io), token, Access, now, look).Revoked? <==> v.hasDb && io.dbUp
  {
  }
}
