/**
 Reading through the cache, internal/shared/db/redis.go:275-343: an absent value is cached as a
 placeholder, a present one for 300 to 599 seconds, and a miss asks the data source.  The data
 source changes over time, and any number of other processes make the same calls in between.
 Times are milliseconds.
 */
module CacheAside {
  import opened Options

  const PLACEHOLDER := "NULL_CACHE_PLACEHOLDER"
  const SECOND: int := 1000
  const LONGEST: int := 599
  const MAX_RETRIES: nat := 3

  /** What the data source says: nil, a value, or an error. */
  datatype Answer<V> = Missing | Found(v: V) | Failed

  /** What a caller gets. */
  datatype Outcome<V> = Absent | Value(v: V) | Error

  datatype Entry = Entry(text: string, deadline: Option<int>)

  /** json.Marshal, which can fail, and json.Unmarshal. */
  datatype Codec<!V> = Codec(encode: V -> Option<string>, decode: string -> Outcome<V>)

  /** How a JSON value begins (section 3 of RFC 8259). */
  predicate BeginsValue(s: string) {
    s != "" && (s[0] in "fnt{[-\"" || '0' <= s[0] <= '9')
  }

  /** Decoding undoes encoding, except that a typed nil encodes as null, which decodes as nil; the empty
      text is malformed. */
  ghost predicate Lawful<V(!new)>(c: Codec<V>) {
    && (forall v | c.encode(v).Some? ::
          var text := c.encode(v).value;
          BeginsValue(text) && c.decode(text) == if text == "null" then Absent else Value(v))
    && c.decode("") == Error
  }

  /** What is stored for an answer; nothing at all if the value has no encoding. */
  function TextOf<V>(c: Codec<V>, a: Answer<V>): string
    requires !a.Failed?
  {
    if a.Missing? then PLACEHOLDER else if c.encode(a.v).Some? then c.encode(a.v).value else ""
  }

  /** What a stored text gives back. */
  function Reading<V>(c: Codec<V>, text: string): Outcome<V> {
    if text == PLACEHOLDER then Absent else c.decode(text)
  }

  /** The answer itself, or what is left of it after a visit to the cache. */
  predicate Serves<V(==)>(c: Codec<V>, a: Answer<V>, r: Outcome<V>) {
    match a
    case Missing => r == Absent
    case Failed => r == Error
    case Found(v) =>
      || r == Value(v)
      || (r == Absent && c.encode(v) == Some("null"))
      || (r == Error && c.encode(v) == None)
  }

  /** A stored answer reads back as itself; no encoding is taken for the placeholder. */
  lemma StoredAnswerServes<V(!new)>(c: Codec<V>, a: Answer<V>)
    requires Lawful(c) && !a.Failed?
    ensures Serves(c, a, Reading(c, TextOf(c, a)))
    ensures TextOf(c, a) == PLACEHOLDER <==> a.Missing?
    ensures Reading(c, TextOf(c, a)) == Error <==> a.Found? && c.encode(a.v) == None
  {
    assert PLACEHOLDER[0] == 'N';
    assert !BeginsValue(PLACEHOLDER);
  }

  /** A key is there through its deadline; without one it stays. */
  predicate Live(deadline: Option<int>, now: int) {
    deadline.None? || now <= deadline.value
  }

  /** An expiration that is not positive means none. */
  function Deadline(now: int, seconds: int): Option<int> {
    if seconds > 0 then Some(now + SECOND * seconds) else None
  }

  /** How an entry came about: when the source gave the answer, when it was stored, and with which
      expiration. */
  datatype Origin = Origin(sampled: int, written: int, seconds: int)

  /** The entry holds the answer that the source gave at its origin, with the expiration given there. */
  predicate Backed<V(==)>(c: Codec<V>, a: Answer<V>, e: Entry, o: Origin, now: int) {
    && o.sampled <= o.written <= now && !a.Failed? && e == Entry(TextOf(c, a), Deadline(o.written, o.seconds))
    && (a.Found? ==> 300 <= o.seconds <= LONGEST)
  }

  /** At `now` an answer that stems from `o` is no older than its expiration and the delay of its store. */
  predicate FreshAt(o: Origin, now: int) {
    o.seconds > 0 ==> now - o.sampled <= SECOND * o.seconds + (o.written - o.sampled)
  }

  /** The answer given at `moment` is the one stored with origin `o`, and still fresh. */
  predicate StemsFrom(o: Origin, moment: int, now: int) {
    moment == o.sampled && FreshAt(o, now)
  }

  /** Time passes, or another process stores an answer that it got at `sampled`, with `draw` seconds
      added to 300 for a value or `nullExpire` seconds for none. */
  datatype Action = Wait(ms: nat) | OtherStore(key: string, sampled: int, draw: nat, nullExpire: int)

  /** A call's surroundings: whether Redis answers GET and SET, what happens before the source answers
      and before the store, and the random part of the expiration. */
  datatype Schedule = Schedule(getOk: bool, setOk: bool, beforeAnswer: seq<Action>, beforeStore: seq<Action>, draw: nat)

  class EasyRedis<V(==, !new)> {
    const codec: Codec<V>
    /** What the data source says about a key at each moment. */
    const source: (string, int) -> Answer<V>
    var now: int
    var entries: map<string, Entry>
    /** Where the entry of a key comes from. */
    ghost var origin: map<string, Origin>

    ghost predicate Valid()
      reads this
    {
      && Lawful(codec)
      && forall k | k in entries ::
           k in origin && Backed(codec, source(k, origin[k].sampled), entries[k], origin[k], now)
    }

    constructor (codec: Codec<V>, source: (string, int) -> Answer<V>, now: int)
      requires Lawful(codec)
      ensures Valid() && this.codec == codec && this.source == source && this.now == now && entries == map[]
    {
      this.codec, this.source, this.now, entries := codec, source, now, map[];
      origin := map[];
    }

    /** SET of an answer: the placeholder, or the encoding with its error ignored. */
    method Store(key: string, answer: Answer<V>, ghost moment: int, seconds: int)
      requires Valid() && moment <= now && source(key, moment) == answer && !answer.Failed?
      requires answer.Found? ==> 300 <= seconds <= LONGEST
      modifies `entries, `origin
      ensures Valid() && origin == old(origin)[key := Origin(moment, now, seconds)]
      ensures entries == old(entries)[key := Entry(TextOf(codec, answer), Deadline(now, seconds))]
    {
      var text := "";
      if answer.Missing? {
        text := PLACEHOLDER;
      } else {
        var data := codec.encode(answer.v);
        if data.Some? {
          text := data.value;
        }
      }
      entries := entries[key := Entry(text, Deadline(now, seconds))];
      origin := origin[key := Origin(moment, now, seconds)];
    }

    method Act(action: Action)
      requires Valid()
      modifies `now, `entries, `origin
      ensures Valid() && now >= old(now)
      ensures action.Wait? ==> now == old(now) + action.ms && entries == old(entries)
    {
      match action
      case Wait(ms) =>
        now := now + ms;
      case OtherStore(key, moment, draw, nullExpire) =>
        if moment <= now {
          var answer := source(key, moment);
          if answer.Missing? {
            Store(key, answer, moment, nullExpire);
          } else if answer.Found? {
            Store(key, answer, moment, 300 + draw % 300);
          }
        }
    }

    method Interleave(actions: seq<Action>)
      requires Valid()
      modifies `now, `entries, `origin
      ensures Valid() && now >= old(now)
      ensures actions == [] ==> now == old(now) && entries == old(entries) && origin == old(origin)
    {
      for i := 0 to |actions|
        invariant Valid() && now >= old(now)
        invariant i == 0 ==> now == old(now) && entries == old(entries) && origin == old(origin)
      {
        Act(actions[i]);
      }
    }

    /** The call, with the number of retries that its recursion would carry.  `moment` is when the source
        said what is returned: during the call, or at most an expiration and a store's delay before it. */
    method GetWithRetries(key: string, nullCacheExpire: int, retries: nat, s: Schedule)
      returns (r: Outcome<V>, ghost moment: int)
      requires Valid()
      modifies `now, `entries, `origin
      ensures Valid() && old(now) <= now && moment <= now
      ensures Serves(codec, source(key, moment), r)
      ensures source(key, moment).Failed? ==> moment >= old(now)
      ensures moment >= old(now) || (key in old(origin) && StemsFrom(old(origin)[key], moment, old(now)))
      ensures moment < old(now) && source(key, moment).Found? ==> old(origin)[key].seconds <= LONGEST
      ensures var hit := retries < 3 && s.getOk && key in old(entries)
              && Live(old(entries[key].deadline), old(now));
              if hit then
                r == Reading(codec, old(entries[key].text)) && now == old(now) && entries == old(entries)
                && origin == old(origin)
              else
                && moment >= old(now)
                && (retries < 3 && !source(key, moment).Failed? && s.setOk ==>
                      key in entries && entries[key] == Entry(TextOf(codec, source(key, moment)),
                        Deadline(now, if r.Absent? then nullCacheExpire else 300 + s.draw % 300)))
                && (source(key, moment).Found? ==> r == Value(source(key, moment).v))
                && (s.beforeAnswer == s.beforeStore == [] ==>
                      now == old(now) == moment
                      && (retries >= 3 || source(key, moment).Failed? || !s.setOk
                          ==> entries == old(entries)))
    {
      if retries >= MAX_RETRIES {
        Interleave(s.beforeAnswer);
        moment := now;
        r := Fetched(source(key, now));
        return;
      }
      if s.getOk && key in entries && Live(entries[key].deadline, now) {
        moment := origin[key].sampled;
        StoredAnswerServes(codec, source(key, moment));
        r := Reading(codec, entries[key].text);
        return;
      }
      Interleave(s.beforeAnswer);
      moment := now;
      var answer := source(key, now);
      ghost var answered := now;
      r := Fetched(answer);
      if answer.Failed? {
        return;
      }
      Interleave(s.beforeStore);
      assert source(key, answered) == answer;
      if s.setOk {
        Store(key, answer, answered, if answer.Missing? then nullCacheExpire else 300 + s.draw % 300);
      }
    }

    /** The exported call.  Whatever is returned from the cache is bounded by the entry of its own key: a
        value whose store followed the source's answer within a second is no older than ten minutes, and an
        absence no older than its expiration and the delay of its store, unless it was given none. */
    method GetCacheWithProtection(key: string, nullCacheExpire: int, s: Schedule)
      returns (r: Outcome<V>, ghost moment: int)
      requires Valid()
      modifies `now, `entries, `origin
      ensures Valid() && moment <= now && Serves(codec, source(key, moment), r)
      ensures moment >= old(now) || (key in old(origin) && StemsFrom(old(origin)[key], moment, old(now)))
      ensures moment < old(now) && source(key, moment).Missing? && old(origin)[key].seconds > 0 ==>
                old(now) - moment <= 1000 * old(origin)[key].seconds + (old(origin)[key].written - moment)
      ensures moment < old(now) && source(key, moment).Found? && old(origin)[key].written - moment <= SECOND ==>
                old(now) - moment <= 600 * SECOND
      ensures s.getOk && key in old(entries) && Live(old(entries[key].deadline), old(now)) ==>
                r == Reading(codec, old(entries[key].text)) && now == old(now) && entries == old(entries)
      ensures s.setOk && s.beforeAnswer == s.beforeStore == [] && source(key, old(now)).Missing?
              && !(s.getOk && key in old(entries) && Live(old(entries[key].deadline), old(now))) ==>
                now == old(now) && r == Absent && key in entries
                && entries[key] == Entry(PLACEHOLDER, Deadline(now, nullCacheExpire))
    {
      r, moment := GetWithRetries(key, nullCacheExpire, 0, s);
    }
  }

  function Fetched<V>(a: Answer<V>): Outcome<V> {
    match a
    case Missing => Absent
    case Found(v) => Value(v)
    case Failed => Error
  }

  /** How long a stored answer can be served is bounded if and only if its expiration is positive. */
  lemma BoundedIffPositive(written: int, seconds: int)
    ensures (exists bound: int :: ServedWithin(written, seconds, bound)) <==> seconds > 0
    ensures seconds > 0 ==> forall bound :: ServedWithin(written, seconds, bound) <==> bound >= SECOND * seconds
  {
    if seconds > 0 {
      assert ServedWithin(written, seconds, SECOND * seconds);
      assert Live(Deadline(written, seconds), written + SECOND * seconds);
    } else {
      forall bound ensures !ServedWithin(written, seconds, bound) {
        var late := written + Max(bound, 0) + 1;
        assert Live(Deadline(written, seconds), late);
      }
    }
  }

  function Max(a: int, b: int): int {
    if a < b then b else a
  }

  ghost predicate ServedWithin(written: int, seconds: int, bound: int) {
    forall t | t >= written && Live(Deadline(written, seconds), t) :: t - written <= bound
  }

  /** With no positive expiration, an absence that lasted for one instant is reported at any later time. */
  method StaleForever<V(!new)>(codec: Codec<V>, v: V, key: string, nullCacheExpire: int, age: nat)
    returns (cache: EasyRedis<V>, r: Outcome<V>)
    requires Lawful(codec) && nullCacheExpire <= 0
    ensures fresh(cache) && cache.Valid() && cache.now == age && r == Absent
    ensures forall t :: cache.source(key, t) == if t == 0 then Missing else Found(v)
  {
    cache := new EasyRedis(codec, (k: string, t: int) => if t == 0 then Missing else Found(v), 0);
    ghost var moment;
    var quiet := Schedule(true, true, [], [], 0);
    r, moment := cache.GetCacheWithProtection(key, nullCacheExpire, quiet);
    cache.Act(Wait(age));
    r, moment := cache.GetCacheWithProtection(key, nullCacheExpire, quiet);
  }
}
