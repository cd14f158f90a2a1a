/** The bounded sliding-window rate limiter: one timestamp log per key, in a key
    table that is capped by evicting stale keys first and then the oldest ones. */
module RateLimiter {
  import opened Sequences

  type Key = string
  type Time = real

  datatype Config = Config(limit: int, window: Time, maxIps: int)

  /** The hit dictionary. `order` is its iteration order, which breaks ties between equally old keys. */
  datatype Table = Table(order: seq<Key>, log: map<Key, seq<Time>>)

  /** One call of `check`: the clock is read once, and a second time if a key must be evicted. */
  datatype Call = Call(key: Key, now: Time, evictNow: Time)

  const EMPTY := Table([], map[])

  ghost predicate Distinct<T>(s: seq<T>) {
    s == [] || (s[0] !in s[1..] && Distinct(s[1..]))
  }

  function Elems<T>(s: seq<T>): set<T> {
    set x | x in s
  }

  ghost predicate WellFormed(t: Table) {
    Distinct(t.order) && Elems(t.order) == t.log.Keys
  }

  // ----- what one call does

  function After(cutoff: Time): Time -> bool {
    t => t > cutoff
  }

  /** The hits later than the cutoff. */
  function Live(ts: seq<Time>, cutoff: Time): seq<Time> {
    Filter(ts, After(cutoff))
  }

  function Bucket(t: Table, k: Key): seq<Time> {
    if k in t.log then t.log[k] else []
  }

  function Put(t: Table, k: Key, bucket: seq<Time>): Table {
    Table(if k in t.log then t.order else t.order + [k], t.log[k := bucket])
  }

  function Without(order: seq<Key>, ks: seq<Key>): seq<Key> {
    Filter(order, k => k !in ks)
  }

  function Drop(t: Table, ks: seq<Key>): Table {
    Table(Without(t.order, ks), t.log - Elems(ks))
  }

  function Stale(t: Table, cutoff: Time): seq<Key> {
    Filter(t.order, k => Live(Bucket(t, k), cutoff) == [])
  }

  function Min(ts: seq<Time>): (m: Time)
    requires ts != []
    ensures m in ts && forall x :: x in ts ==> m <= x
  {
    if |ts| == 1 then ts[0]
    else
      var m := Min(ts[1..]);
      assert ts == [ts[0]] + ts[1..];
      if ts[0] <= m then ts[0] else m
  }

  /** The earliest entry of a bucket; an empty bucket counts as the current time. */
  function Age(t: Table, now: Time): Key -> Time {
    k => if Bucket(t, k) == [] then now else Min(Bucket(t, k))
  }

  /** The first `n` elements, at least one, or all there are. */
  function Take(s: seq<Key>, n: int): seq<Key> {
    if n >= |s| || s == [] then s else if n < 1 then s[..1] else s[..n]
  }

  /** The live keys that must go because the table is still full: the oldest ones. */
  function Victims(cfg: Config, t: Table, now: Time): seq<Key> {
    if |t.order| < cfg.maxIps then []
    else Take(SortBy(t.order, Age(t, now)), |t.order| - cfg.maxIps + 1)
  }

  function Pruned(cfg: Config, t: Table, now: Time): Table {
    Drop(t, Stale(t, now - cfg.window))
  }

  function Evicted(cfg: Config, t: Table, now: Time): Table {
    var p := Pruned(cfg, t, now);
    Drop(p, Victims(cfg, p, now))
  }

  predicate Accepts(cfg: Config, t: Table, call: Call) {
    |Live(Bucket(t, call.key), call.now - cfg.window)| < cfg.limit
  }

  /** A new key arrives at a full table. */
  predicate MustEvict(cfg: Config, t: Table, call: Call) {
    Accepts(cfg, t, call) && call.key !in t.log && |t.order| >= cfg.maxIps
  }

  function Step(cfg: Config, t: Table, call: Call): Table {
    var recent := Live(Bucket(t, call.key), call.now - cfg.window);
    if !Accepts(cfg, t, call) then Put(t, call.key, recent)
    else
      var u := if MustEvict(cfg, t, call) then Evicted(cfg, t, call.evictNow) else t;
      Put(u, call.key, recent + [call.now])
  }

  /** The live keys this call evicts by force. */
  function ForcedOut(cfg: Config, t: Table, call: Call): seq<Key> {
    if MustEvict(cfg, t, call) then Victims(cfg, Pruned(cfg, t, call.evictNow), call.evictNow) else []
  }

  // ----- basic facts

  lemma LiveAppend(ts: seq<Time>, t: Time, cutoff: Time)
    ensures Live(ts + [t], cutoff) == Live(ts, cutoff) + (if t > cutoff then [t] else [])
  {
    FilterAppend(ts, [t], After(cutoff));
    assert [t][1..] == [];
  }

  lemma LiveLive(ts: seq<Time>, c: Time, d: Time)
    requires c <= d
    ensures Live(Live(ts, c), d) == Live(ts, d)
  {
    FilterFilter(ts, After(c), After(d));
  }

  lemma LiveSound(ts: seq<Time>, cutoff: Time)
    ensures |Live(ts, cutoff)| <= |ts|
    ensures forall x :: x in Live(ts, cutoff) <==> x in ts && x > cutoff
  {
    FilterSound(ts, After(cutoff));
  }

  lemma DropNothing(t: Table)
    ensures Drop(t, []) == t
  {
    FilterAll(t.order, k => k !in []);
  }

  lemma {:induction false} WithoutTwice(order: seq<Key>, ks: seq<Key>, k: Key)
    ensures Without(Without(order, ks), [k]) == Without(order, ks + [k])
  {
    if order != [] {
      WithoutTwice(order[1..], ks, k);
    }
  }

  lemma DropOneMore(t: Table, ks: seq<Key>, k: Key)
    ensures Drop(t, ks + [k]) == Table(Without(Drop(t, ks).order, [k]), Drop(t, ks).log - {k})
  {
    WithoutTwice(t.order, ks, k);
    assert Elems(ks + [k]) == Elems(ks) + {k};
    assert t.log - Elems(ks + [k]) == (t.log - Elems(ks)) - {k};
  }

  lemma {:induction false} DistinctAppend<T>(s: seq<T>, x: T)
    requires Distinct(s) && x !in s
    ensures Distinct(s + [x])
  {
    if s != [] {
      DistinctAppend(s[1..], x);
      assert (s + [x])[1..] == s[1..] + [x];
    }
  }

  lemma {:induction false} FilterDistinct<T>(s: seq<T>, p: T -> bool)
    requires Distinct(s)
    ensures Distinct(Filter(s, p))
  {
    if s != [] {
      FilterDistinct(s[1..], p);
      FilterSound(s[1..], p);
    }
  }

  lemma {:induction false} DistinctCard<T>(s: seq<T>)
    requires Distinct(s)
    ensures |Elems(s)| == |s|
  {
    if s != [] {
      DistinctCard(s[1..]);
      assert Elems(s) == {s[0]} + Elems(s[1..]);
      assert s[0] !in Elems(s[1..]);
    }
  }

  lemma DropWellFormed(t: Table, ks: seq<Key>)
    requires WellFormed(t)
    ensures WellFormed(Drop(t, ks))
  {
    FilterDistinct(t.order, k => k !in ks);
    FilterSound(t.order, k => k !in ks);
  }

  lemma PutWellFormed(t: Table, k: Key, bucket: seq<Time>)
    requires WellFormed(t)
    ensures WellFormed(Put(t, k, bucket))
  {
    if k !in t.log {
      assert k !in Elems(t.order);
      DistinctAppend(t.order, k);
    }
    assert Elems(t.order + [k]) == Elems(t.order) + {k};
  }

  lemma EvictedWellFormed(cfg: Config, t: Table, now: Time)
    requires WellFormed(t)
    ensures WellFormed(Pruned(cfg, t, now)) && WellFormed(Evicted(cfg, t, now))
  {
    hide Stale, Victims, Drop, WellFormed;
    var stale := Stale(t, now - cfg.window);
    DropWellFormed(t, stale);
    var p := Drop(t, stale);
    var victims := Victims(cfg, p, now);
    DropWellFormed(p, victims);
  }

  lemma StepWellFormed(cfg: Config, t: Table, call: Call)
    requires WellFormed(t)
    ensures WellFormed(Step(cfg, t, call))
  {
    hide Live, Bucket, Accepts, MustEvict, Evicted, Pruned, Put, WellFormed;
    var recent := Live(Bucket(t, call.key), call.now - cfg.window);
    EvictedWellFormed(cfg, t, call.evictNow);
    PutWellFormed(t, call.key, recent);
    PutWellFormed(t, call.key, recent + [call.now]);
    PutWellFormed(Evicted(cfg, t, call.evictNow), call.key, recent + [call.now]);
  }

  // ----- the limiter itself

  class Limiter {
    const limit: int
    const window: Time
    const maxIps: int
    var order: seq<Key>
    var hits: map<Key, seq<Time>>

    ghost function View(): Table
      reads this
    {
      Table(order, hits)
    }

    ghost predicate Valid()
      reads this
    {
      WellFormed(View())
    }

    constructor (limit: int, window: Time, maxIps: int)
      ensures this.limit == limit && this.window == window && this.maxIps == maxIps
      ensures Valid() && View() == EMPTY
    {
      this.limit, this.window, this.maxIps := limit, window, maxIps;
      order, hits := [], map[];
    }

    ghost function Cfg(): Config {
      Config(limit, window, maxIps)
    }

    /** The list comprehension over one bucket. */
    static method LiveHits(bucket: seq<Time>, cutoff: Time) returns (recent: seq<Time>)
      ensures recent == Live(bucket, cutoff)
    {
      recent := [];
      for i := 0 to |bucket|
        invariant recent == Live(bucket[..i], cutoff)
      {
        LiveAppend(bucket[..i], bucket[i], cutoff);
        assert bucket[..i] + [bucket[i]] == bucket[..i + 1];
        if bucket[i] > cutoff {
          recent := recent + [bucket[i]];
        }
      }
      assert bucket[..|bucket|] == bucket;
    }

    method Store(key: Key, bucket: seq<Time>)
      modifies this
      ensures View() == Put(old(View()), key, bucket)
    {
      if key !in hits {
        order := order + [key];
      }
      hits := hits[key := bucket];
    }

    /** The keys without a live hit, in dictionary order. */
    method StaleKeys(cutoff: Time) returns (stale: seq<Key>)
      requires Valid()
      ensures stale == Stale(View(), cutoff)
    {
      stale := [];
      ghost var t := View();
      ghost var dead := k => Live(Bucket(t, k), cutoff) == [];
      for i := 0 to |order|
        invariant stale == Filter(order[..i], dead)
      {
        assert order[i] in Elems(order);
        FilterAppend(order[..i], [order[i]], dead);
        assert order[..i] + [order[i]] == order[..i + 1];
        if Live(hits[order[i]], cutoff) == [] {
          stale := stale + [order[i]];
        }
      }
      assert order[..|order|] == order;
    }

    method DeleteAll(ks: seq<Key>)
      modifies this
      ensures View() == Drop(old(View()), ks)
    {
      DropNothing(View());
      for i := 0 to |ks|
        invariant View() == Drop(old(View()), ks[..i])
      {
        ghost var before := View();
        order := Without(order, [ks[i]]);
        hits := hits - {ks[i]};
        DropOneMore(old(View()), ks[..i], ks[i]);
        assert ks[..i] + [ks[i]] == ks[..i + 1];
      }
      assert ks[..|ks|] == ks;
    }

    /** Makes room for one key by dropping the oldest ones, if the table is full. */
    method EvictOldest(now: Time)
      modifies this
      ensures View() == Drop(old(View()), Victims(Cfg(), old(View()), now))
    {
      if |order| >= maxIps {
        var oldest := SortBy(order, Age(Table(order, hits), now));
        DeleteAll(Take(oldest, |order| - maxIps + 1));
      } else {
        DropNothing(View());
      }
    }

    method Evict(now: Time)
      requires Valid()
      modifies this
      ensures Valid() && View() == Evicted(Cfg(), old(View()), now)
    {
      EvictedWellFormed(Cfg(), View(), now);
      var stale := StaleKeys(now - window);
      DeleteAll(stale);
      EvictOldest(now);
    }

    /** Admits or rejects one request: exactly `Step`, with no other effect. */
    method Check(key: Key, now: Time, evictNow: Time) returns (ok: bool)
      requires Valid()
      modifies this
      ensures Valid()
      ensures ok == Accepts(Cfg(), old(View()), Call(key, now, evictNow))
      ensures View() == Step(Cfg(), old(View()), Call(key, now, evictNow))
    {
      ghost var before := View();
      StepWellFormed(Cfg(), before, Call(key, now, evictNow));
      var recent := LiveHits(if key in hits then hits[key] else [], now - window);
      if |recent| >= limit {
        Store(key, recent);
        return false;
      }
      if key !in hits && |order| >= maxIps {
        Evict(evictNow);
      }
      Store(key, recent + [now]);
      return true;
    }
  }
}
