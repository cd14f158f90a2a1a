/** What eviction does to the table, said of the hits and of the insertion order themselves. */
module RateLimiterEviction {
  import opened Sequences
  import opened RateLimiter
  import opened RateLimiterRuns

  ghost predicate NoEmptyBucket(t: Table) {
    forall k :: k in t.log ==> t.log[k] != []
  }

  /** Some hit of `v` is no later than any hit of `s`. */
  ghost predicate HasOlderHit(t: Table, v: Key, s: Key)
    requires v in t.log && s in t.log
  {
    exists x :: x in t.log[v] && forall y :: y in t.log[s] ==> x <= y
  }

  lemma AgeIsEarliest(t: Table, now: Time, k: Key)
    requires k in t.log && t.log[k] != []
    ensures Age(t, now)(k) in t.log[k] && forall y :: y in t.log[k] ==> Age(t, now)(k) <= y
  {
  }

  lemma VictimStored(cfg: Config, t: Table, now: Time, v: Key)
    requires WellFormed(t) && v in Victims(cfg, t, now)
    ensures v in t.log && v in t.order
  {
    VictimsInTable(cfg, t, now);
    assert v in Elems(t.order);
  }

  /** Every evicted key has a hit that is no later than any hit of any key that stays. */
  lemma OldestHitGoesFirst(cfg: Config, t: Table, now: Time, v: Key, s: Key)
    requires WellFormed(t) && NoEmptyBucket(t) && |t.order| >= cfg.maxIps
    requires v in Victims(cfg, t, now) && s in t.order && s !in Victims(cfg, t, now)
    ensures v in t.log && s in t.log && HasOlderHit(t, v, s)
  {
    VictimStored(cfg, t, now, v);
    assert s in Elems(t.order);
    VictimsAreOldest(cfg, t, now);
    hide Victims, Age;
    AgeIsEarliest(t, now, v);
    AgeIsEarliest(t, now, s);
    var x := Age(t, now)(v);
    assert x in t.log[v] && forall y :: y in t.log[s] ==> x <= y;
  }

  lemma {:induction false} DistinctAt<T>(xs: seq<T>, i: nat, j: nat)
    requires Distinct(xs) && i < j < |xs|
    ensures xs[i] != xs[j]
  {
    if i > 0 {
      DistinctAt(xs[1..], i - 1, j - 1);
    } else {
      assert xs[j] == xs[1..][j - 1];
    }
  }

  lemma SortedPrefixClosed(sorted: seq<Key>, n: nat, s: Key, v: Key)
    requires Distinct(sorted) && n <= |sorted| && v in sorted[..n] && Precedes(sorted, s, v)
    ensures s in sorted[..n]
  {
    var i, j :| 0 <= i < j < |sorted| && sorted[i] == s && sorted[j] == v;
    var m :| 0 <= m < n && sorted[m] == v;
    if m < j {
      DistinctAt(sorted, m, j);
    }
    assert sorted[..n][i] == s;
  }

  lemma OlderIsOlder(t: Table, now: Time, s: Key, v: Key)
    requires NoEmptyBucket(t) && s in t.log && v in t.log && HasOlderHit(t, s, v)
    ensures Age(t, now)(s) <= Age(t, now)(v)
  {
    AgeIsEarliest(t, now, s);
    AgeIsEarliest(t, now, v);
    hide Age;
  }

  lemma VictimsArePrefix(cfg: Config, t: Table, now: Time)
    ensures var sorted := SortBy(t.order, Age(t, now)); var n := |Victims(cfg, t, now)|;
            n <= |sorted| && Victims(cfg, t, now) == sorted[..n]
  {
    SortByProps(t.order, Age(t, now));
    hide SortBy, Age;
  }

  /** Among keys whose earliest hits are equal the one inserted first goes first. */
  lemma TiesGoByInsertion(cfg: Config, t: Table, now: Time, v: Key, s: Key)
    requires WellFormed(t) && NoEmptyBucket(t) && v in Victims(cfg, t, now)
    requires Precedes(t.order, s, v) && s in t.log && v in t.log && HasOlderHit(t, s, v)
    ensures s in Victims(cfg, t, now)
  {
    hide SortBy, Age, Distinct, Precedes, Victims, WellFormed;
    OlderIsOlder(t, now, s, v);
    SortedKeys(t, now);
    SortKeepsOrder(t.order, Age(t, now), s, v);
    VictimsArePrefix(cfg, t, now);
    SortedPrefixClosed(SortBy(t.order, Age(t, now)), |Victims(cfg, t, now)|, s, v);
  }

  // ----- on every run

  lemma BucketsNeverEmpty(cfg: Config, calls: Calls)
    requires cfg.limit >= 1 && Timed(calls)
    ensures NoEmptyBucket(TableAfter(cfg, calls))
  {
    forall k | k in TableAfter(cfg, calls).log ensures TableAfter(cfg, calls).log[k] != [] {
      BucketShape(cfg, calls, k);
    }
  }

  lemma PrunedPart(cfg: Config, t: Table, now: Time)
    requires WellFormed(t)
    ensures WellFormed(Pruned(cfg, t, now)) && Pruned(cfg, t, now).log.Keys <= t.log.Keys
    ensures forall k :: k in Pruned(cfg, t, now).log ==> Pruned(cfg, t, now).log[k] == t.log[k]
    ensures forall k :: k in Pruned(cfg, t, now).order <==> k in Pruned(cfg, t, now).log
    ensures NoEmptyBucket(t) ==> NoEmptyBucket(Pruned(cfg, t, now))
  {
    EvictedWellFormed(cfg, t, now);
    hide Stale;
    forall k ensures k in Pruned(cfg, t, now).order <==> k in Pruned(cfg, t, now).log {
      assert k in Pruned(cfg, t, now).order <==> k in Elems(Pruned(cfg, t, now).order);
    }
  }

  lemma NoVictims(cfg: Config, t: Table, now: Time)
    requires |t.order| < cfg.maxIps
    ensures Victims(cfg, t, now) == []
  {
  }

  /** A key that is lost although it was not stale is a victim, one that stays is not. */
  lemma LostAndKept(cfg: Config, t: Table, c: Call, v: Key, s: Key)
    requires WellFormed(t) && v in t.log && s in t.log && s != c.key
    requires v !in Step(cfg, t, c).log && s in Step(cfg, t, c).log && v in Pruned(cfg, t, c.evictNow).log
    ensures var p := Pruned(cfg, t, c.evictNow);
            v in Victims(cfg, p, c.evictNow) && s in p.log && s !in Victims(cfg, p, c.evictNow)
  {
    var p := Pruned(cfg, t, c.evictNow);
    hide Pruned, Victims, Live, Accepts, WellFormed;
    var victims := Victims(cfg, p, c.evictNow);
    assert v in victims <==> v in Elems(victims);
    assert s in victims <==> s in Elems(victims);
  }

  lemma SameHits(t: Table, p: Table, v: Key, s: Key)
    requires v in p.log && s in p.log && v in t.log && s in t.log && p.log[v] == t.log[v] && p.log[s] == t.log[s]
    ensures HasOlderHit(p, v, s) <==> HasOlderHit(t, v, s)
  {
  }

  lemma StepEvictsOldest(cfg: Config, t: Table, c: Call, v: Key, s: Key)
    requires WellFormed(t) && NoEmptyBucket(t) && v in t.log && s in t.log && s != c.key
    requires v !in Step(cfg, t, c).log && s in Step(cfg, t, c).log
    requires Live(t.log[v], c.evictNow - cfg.window) != []
    ensures HasOlderHit(t, v, s)
  {
    hide Pruned, Victims, Live, WellFormed, Step, NoEmptyBucket, HasOlderHit;
    var p := Pruned(cfg, t, c.evictNow);
    PrunedPart(cfg, t, c.evictNow);
    PrunedBucket(cfg, t, c.evictNow, v, c.evictNow - cfg.window);
    LostAndKept(cfg, t, c, v, s);
    if |p.order| >= cfg.maxIps {
      OldestHitGoesFirst(cfg, p, c.evictNow, v, s);
      SameHits(t, p, v, s);
    } else {
      NoVictims(cfg, p, c.evictNow);
    }
  }

  lemma LastStep(cfg: Config, calls: Calls)
    requires calls.Then? && Timed(calls)
    ensures Timed(calls.past) && TableAfter(cfg, calls) == Step(cfg, TableAfter(cfg, calls.past), calls.event)
  {
  }

  /** Whenever a live key `v` is evicted and a live key `s` stays, `v` has a hit that is no later than
      any hit of `s`: the limiter never forgets a younger client to keep an older one. */
  lemma EvictionIsOldestFirst(cfg: Config, calls: Calls, v: Key, s: Key)
    requires cfg.limit >= 1 && calls.Then? && Timed(calls)
    requires var t := TableAfter(cfg, calls.past); var after := TableAfter(cfg, calls).log;
             && v in t.log && s in t.log && v !in after && s in after && s != calls.event.key
             && Live(t.log[v], calls.event.evictNow - cfg.window) != []
    ensures HasOlderHit(TableAfter(cfg, calls.past), v, s)
  {
    hide *;
    var t := TableAfter(cfg, calls.past);
    TableWellFormed(cfg, calls.past);
    LastStep(cfg, calls);
    BucketsNeverEmpty(cfg, calls.past);
    StepEvictsOldest(cfg, t, calls.event, v, s);
  }

  /** Nothing is evicted unless a new key is admitted while the table is full. */
  lemma NothingLostWithoutNeed(cfg: Config, t: Table, c: Call)
    requires c.key in t.log || |t.order| < cfg.maxIps || |Live(Bucket(t, c.key), c.now - cfg.window)| >= cfg.limit
    ensures Step(cfg, t, c).log.Keys == t.log.Keys + {c.key}
    ensures forall k :: k in t.log && k != c.key ==> Step(cfg, t, c).log[k] == t.log[k]
    ensures Step(cfg, t, c).order == if c.key in t.log then t.order else t.order + [c.key]
  {
  }

  lemma EvictedOrder(cfg: Config, t: Table, c: Call, stale: seq<Key>, victims: seq<Key>)
    requires WellFormed(t) && MustEvict(cfg, t, c) && stale == Stale(t, c.evictNow - cfg.window)
    requires victims == Victims(cfg, Pruned(cfg, t, c.evictNow), c.evictNow)
    ensures Step(cfg, t, c).order ==
            Filter(Filter(t.order, k => k !in stale), k => k !in victims) + [c.key]
    ensures forall k :: k in t.order ==> (k in Step(cfg, t, c).log <==> k !in stale && k !in victims)
  {
    hide Stale, Victims, Live, Filter;
    assert c.key !in t.order by {
      assert c.key !in Elems(t.order);
    }
    assert forall k :: k in t.order <==> k in Elems(t.order);
    assert forall k :: k in stale <==> k in Elems(stale);
    assert forall k :: k in victims <==> k in Elems(victims);
  }

  /** A new key goes behind all others, and the keys that stay keep their order. */
  lemma NewKeyGoesLast(cfg: Config, t: Table, c: Call)
    requires WellFormed(t) && c.key !in t.log
    ensures var after := Step(cfg, t, c);
            after.order == Filter(t.order, k => k in after.log) + [c.key]
  {
    var after := Step(cfg, t, c);
    var stays := k => k in after.log;
    assert forall k :: k in t.order <==> k in Elems(t.order);
    if MustEvict(cfg, t, c) {
      var stale := Stale(t, c.evictNow - cfg.window);
      var victims := Victims(cfg, Pruned(cfg, t, c.evictNow), c.evictNow);
      EvictedOrder(cfg, t, c, stale, victims);
      hide Step, Stale, Victims, Pruned, MustEvict;
      FilterBoth(t.order, k => k !in stale, k => k !in victims, stays);
    } else {
      hide Live, Accepts;
      FilterAll(t.order, stays);
    }
  }
}
