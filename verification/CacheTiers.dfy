/** The two response tiers of server/cacheEngine.ts: an LRU map each, with lifetimes and byte accounting. */
module CacheTiers {
  import opened Wrappers
  import opened LruSpec
  import opened CacheSpec
  import opened LruMap

  // The running total counts the live entries and, besides, whatever was overwritten in place since the
  // last clear; every live key has its size on record.
  ghost predicate Books<K, P>(s: seq<Entry<K, Stored<P>>>, cap: nat, total: int, overwritten: nat,
                              bytesPerKey: map<K, nat>) {
    && Distinct(s) && |s| <= cap && cap >= 1
    && total == Bytes(s) + overwritten
    && forall e | e in s :: e.key in bytesPerKey && bytesPerKey[e.key] == e.value.bytes
  }

  lemma BooksRemove<K, P>(s: seq<Entry<K, Stored<P>>>, cap: nat, total: int, overwritten: nat,
                          bytesPerKey: map<K, nat>, k: K)
    requires Books(s, cap, total, overwritten, bytesPerKey)
    ensures BytesAt(s, k) <= total
    ensures Books(Remove(s, k), cap, total - BytesAt(s, k), overwritten, bytesPerKey)
    ensures Books(Remove(s, k), cap, total - BytesAt(s, k), overwritten, bytesPerKey - {k})
    ensures Remove(AfterGet(s, k), k) == Remove(s, k) && Has(AfterGet(s, k), k) == Has(s, k)
    ensures !Has(s, k) ==> Remove(s, k) == s
  {
    RemoveBytes(s, k);
    MemberBytes(s, k);
    RemoveGone(s, k);
    RemoveKeepsDistinct(s, k);
    if Has(s, k) {
      RemoveTouched(s, k, Find(s, k).value);
      assert AfterGet(s, k)[0].key == k;
    } else {
      RemoveAbsent(s, k);
    }
  }

  lemma RemoveTouched<K, V>(s: seq<Entry<K, V>>, k: K, v: V)
    ensures Remove(Touch(s, k, v), k) == Remove(s, k)
  {
    RemoveGone(s, k);
    RemoveAbsent(Remove(s, k), k);
    assert Touch(s, k, v)[1..] == Remove(s, k);
  }

  lemma BooksGet<K, P>(s: seq<Entry<K, Stored<P>>>, cap: nat, total: int, overwritten: nat,
                       bytesPerKey: map<K, nat>, k: K)
    requires Books(s, cap, total, overwritten, bytesPerKey)
    ensures Books(AfterGet(s, k), cap, total, overwritten, bytesPerKey)
  {
    GetMembers(s, k);
    if Has(s, k) {
      TouchBytes(s, k, Find(s, k).value);
      TouchKeepsDistinct(s, k, Find(s, k).value);
    }
  }

  // What a set does to the books: the new bytes come in, the evicted ones go out, the overwritten ones stay.
  ghost predicate BooksSetTo<K, P>(s: seq<Entry<K, Stored<P>>>, cap: nat, total: int,
                                   overwritten: nat, bytesPerKey: map<K, nat>,
                                   k: K, v: Stored<P>, out: Option<K>) {
    match out
    case None => Books(AfterSet(s, k, v, cap), cap, total + v.bytes, overwritten + BytesAt(s, k),
                    bytesPerKey[k := v.bytes])
    case Some(x) =>
      && x in bytesPerKey && bytesPerKey[x] <= total && BytesAt(s, k) == 0
      && Books(AfterSet(s, k, v, cap), cap, total - bytesPerKey[x] + v.bytes, overwritten,
               (bytesPerKey - {x})[k := v.bytes])
  }

  lemma BooksSet<K, P>(s: seq<Entry<K, Stored<P>>>, cap: nat, total: int, overwritten: nat, bytesPerKey: map<K, nat>,
                       k: K, v: Stored<P>)
    requires Books(s, cap, total, overwritten, bytesPerKey)
    ensures BooksSetTo(s, cap, total, overwritten, bytesPerKey, k, v, EvictedBy(s, k, v, cap))
  {
    SetBytes(s, k, v, cap);
    SetMembers(s, k, v, cap);
    TouchKeepsDistinct(s, k, v);
    if Evicts(s, k, cap) {
      var last := s[|s| - 1];
      assert last in s;
      assert AfterSet(s, k, v, cap) == [Entry(k, v)] + s[..|s| - 1] by { RemoveAbsent(s, k); }
      forall e | e in AfterSet(s, k, v, cap) && e != Entry(k, v)
        ensures e in s && e.key != last.key
      {
        var i :| 0 <= i < |s| - 1 && s[i] == e;
      }
    }
  }

  // The keys among some entries that a scan drops: expired, and of the scanned context.
  ghost function DeadKeys<K, P>(s: seq<Entry<K, Stored<P>>>, now: int, scanned: P -> bool): set<K> {
    set e | e in s && scanned(e.value.tag) && Expired(e.value, now) :: e.key
  }

  predicate Anything(tag: ()) {
    true
  }

  // One expired entry leaves: the books stay balanced.
  lemma DropOne<K, P>(s0: seq<Entry<K, Stored<P>>>, cap: nat, total: int, overwritten: nat, bytesPerKey: map<K, nat>,
                      dead: set<K>, e: Entry<K, Stored<P>>)
    requires Distinct(s0) && e in s0 && e.key !in dead
    requires Books(RemoveAll(s0, dead), cap, total, overwritten, bytesPerKey)
    ensures Remove(RemoveAll(s0, dead), e.key) == RemoveAll(s0, dead + {e.key})
    ensures |RemoveAll(s0, dead + {e.key})| == |RemoveAll(s0, dead)| - 1
    ensures Books(RemoveAll(s0, dead + {e.key}), cap, total - e.value.bytes, overwritten, bytesPerKey)
  {
    RemoveAllOneMore(s0, dead, e.key);
    BooksRemove(RemoveAll(s0, dead), cap, total, overwritten, bytesPerKey, e.key);
    FindIffMember(s0, e.key, e.value);
    RemoveAllKeeps(s0, dead, e.key);
    RemoveAllMembers(s0, dead);
    RemoveKeepsDistinct(RemoveAll(s0, dead), e.key);
    assert e in RemoveAll(s0, dead);
  }

  lemma DeadKeysGrow<K, P>(s: seq<Entry<K, Stored<P>>>, n: nat, now: int, scanned: P -> bool)
    requires n < |s| && Distinct(s)
    ensures var dies := scanned(s[n].value.tag) && Expired(s[n].value, now);
            DeadKeys(s[..n + 1], now, scanned) ==
              if dies then DeadKeys(s[..n], now, scanned) + {s[n].key} else DeadKeys(s[..n], now, scanned)
    ensures s[n].key !in DeadKeys(s[..n], now, scanned)
  {
    assert s[..n + 1] == s[..n] + [s[n]];
  }

  // Before a scan nothing is dropped.
  lemma ScanStarts<K, P>(s: seq<Entry<K, Stored<P>>>, snapshot: seq<Entry<K, Stored<P>>>, now: int, scanned: P -> bool)
    ensures RemoveAll(s, DeadKeys(snapshot[..0], now, scanned)) == s
  {
    assert DeadKeys(snapshot[..0], now, scanned) == {};
    RemoveAllNone(s);
  }

  lemma DeadKeysSame<K, P>(s: seq<Entry<K, Stored<P>>>, t: seq<Entry<K, Stored<P>>>, now: int, scanned: P -> bool)
    requires (forall e | e in s :: e in t) && (forall e | e in t :: e in s)
    ensures DeadKeys(s, now, scanned) == DeadKeys(t, now, scanned)
  {
  }

  function Max0(n: int): nat {
    if n < 0 then 0 else n
  }

  class ExactCache {
    const lru: LRUMap<ExactKey, Stored<()>>
    const defaultTTLMs: int
    var hits: nat
    var misses: nat
    var totalBytes: int
    var bytesPerKey: map<ExactKey, nat>
    ghost var overwritten: nat // bytes of entries overwritten in place since the last clear

    ghost predicate Valid()
      reads this, lru, lru.nodes
    {
      lru.Valid() && Books(lru.entries, lru.maxSize, totalBytes, overwritten, bytesPerKey)
    }

    // Everything the tier may change.
    ghost function Footprint(): set<object>
      reads lru
    {
      {this, lru} + Members(lru.nodes)
    }

    lemma EntriesAreBounded()
      requires Valid()
      ensures Distinct(lru.entries) && |lru.entries| <= lru.maxSize && lru.maxSize >= 1
    {
    }

    constructor (maxEntries: nat, defaultTTLMs: int)
      requires maxEntries >= 1
      ensures Valid() && lru.entries == [] && totalBytes == 0 && overwritten == 0 && fresh(Footprint())
      ensures this.defaultTTLMs == defaultTTLMs && lru.maxSize == maxEntries
    {
      lru := new LRUMap(maxEntries);
      this.defaultTTLMs := defaultTTLMs;
      hits, misses, totalBytes, bytesPerKey, overwritten := 0, 0, 0, map[], 0;
    }

    // A hit is unexpired; an expired entry is dropped and its bytes are given back.
    method Get(key: ExactKey, now: int) returns (found: Option<Stored<()>>)
      requires Valid()
      modifies Footprint()
      ensures Valid() && overwritten == old(overwritten) && Footprint() <= old(Footprint())
      ensures var hit := Find(old(lru.entries), key);
              if hit.Some? && !Expired(hit.value, now) then
                found == hit && hits == old(hits) + 1 && misses == old(misses) &&
                lru.entries == AfterGet(old(lru.entries), key)
              else
                found == None && hits == old(hits) && misses == old(misses) + 1 &&
                lru.entries == Remove(old(lru.entries), key)
    {
      hide LRUMap.Valid;
      BooksGet(lru.entries, lru.maxSize, totalBytes, overwritten, bytesPerKey, key);
      BooksRemove(lru.entries, lru.maxSize, totalBytes, overwritten, bytesPerKey, key);
      var entry := lru.Get(key);
      if entry.None? {
        misses := misses + 1;
        return None;
      }
      if Expired(entry.value, now) {
        var deleted := lru.Delete(key);
        totalBytes := totalBytes - entry.value.bytes;
        misses := misses + 1;
        return None;
      }
      hits := hits + 1;
      found := entry;
    }

    // Overwriting a live key adds its new bytes without subtracting the old ones. The clamp never acts.
    method Set(key: ExactKey, response: Response, bytes: nat, now: int, ttlMs: Option<int>)
      requires Valid()
      modifies Footprint()
      ensures Valid() && hits == old(hits) && misses == old(misses) && fresh(Footprint() - old(Footprint()))
      ensures var ttl := if ttlMs.Some? then ttlMs.value else defaultTTLMs;
              lru.entries == AfterSet(old(lru.entries), key, Stored(response, now, now + ttl, bytes, ()), lru.maxSize)
      ensures overwritten == old(overwritten) + BytesAt(old(lru.entries), key)
    {
      hide LRUMap.Valid;
      var entry := Stored(response, now, now + (if ttlMs.Some? then ttlMs.value else defaultTTLMs), bytes, ());
      BooksSet(lru.entries, lru.maxSize, totalBytes, overwritten, bytesPerKey, key, entry);
      overwritten := overwritten + BytesAt(lru.entries, key);
      var evictedKey := lru.Set(key, entry);
      if evictedKey.Some? {
        var evictedBytes := if evictedKey.value in bytesPerKey then bytesPerKey[evictedKey.value] else 0;
        totalBytes := Max0(totalBytes - evictedBytes);
        bytesPerKey := bytesPerKey - {evictedKey.value};
      }
      totalBytes := totalBytes + bytes;
      bytesPerKey := bytesPerKey[key := bytes];
    }

    method Delete(key: ExactKey) returns (deleted: bool)
      requires Valid()
      modifies Footprint()
      ensures Valid() && overwritten == old(overwritten) && Footprint() <= old(Footprint())
      ensures hits == old(hits) && misses == old(misses)
      ensures deleted == Has(old(lru.entries), key) && lru.entries == Remove(old(lru.entries), key)
    {
      hide LRUMap.Valid;
      BooksRemove(lru.entries, lru.maxSize, totalBytes, overwritten, bytesPerKey, key);
      var entry := lru.Get(key);
      if entry.Some? {
        totalBytes := Max0(totalBytes - entry.value.bytes);
        bytesPerKey := bytesPerKey - {key};
      }
      deleted := lru.Delete(key);
    }

    method Clear()
      requires Valid()
      modifies Footprint()
      ensures Valid() && lru.entries == [] && totalBytes == 0 && overwritten == 0 && Footprint() <= old(Footprint())
      ensures hits == old(hits) && misses == old(misses)
    {
      hide LRUMap.Valid;
      lru.Clear();
      totalBytes, bytesPerKey, overwritten := 0, map[], 0;
    }

    // Drops exactly the expired entries.
    method SweepExpired(now: int) returns (swept: nat)
      requires Valid()
      modifies Footprint()
      ensures Valid() && overwritten == old(overwritten) && Footprint() <= old(Footprint())
      ensures lru.entries == RemoveAll(old(lru.entries), DeadKeys(old(lru.entries), now, Anything))
      ensures swept == |old(lru.entries)| - |lru.entries| && hits == old(hits) && misses == old(misses)
      ensures totalBytes <= old(totalBytes)
    {
      hide LRUMap.Valid;
      swept := 0;
      ghost var s0 := lru.entries;
      var snapshot := lru.Snapshot();
      ScanStarts(s0, snapshot, now, Anything);
      for n := 0 to |snapshot|
        invariant Valid() && overwritten == old(overwritten) && Footprint() <= old(Footprint())
        invariant lru.entries == RemoveAll(s0, DeadKeys(snapshot[..n], now, Anything))
        invariant swept == |s0| - |lru.entries| && hits == old(hits) && misses == old(misses)
        invariant totalBytes <= old(totalBytes)
      {
        DeadKeysGrow(snapshot, n, now, Anything);
        if Expired(snapshot[n].value, now) {
          DropExpired(snapshot[n], s0, DeadKeys(snapshot[..n], now, Anything));
          swept := swept + 1;
        }
      }
      assert snapshot[..|snapshot|] == snapshot;
      DeadKeysSame(snapshot, s0, now, Anything);
    }

    method DropExpired(e: Entry<ExactKey, Stored<()>>, ghost s0: seq<Entry<ExactKey, Stored<()>>>,
                       ghost dead: set<ExactKey>)
      requires Valid() && Distinct(s0) && e in s0 && e.key !in dead && lru.entries == RemoveAll(s0, dead)
      modifies this`totalBytes, lru, lru.nodes
      ensures Valid() && Footprint() <= old(Footprint()) && lru.entries == RemoveAll(s0, dead + {e.key})
      ensures |lru.entries| == |old(lru.entries)| - 1 && totalBytes <= old(totalBytes)
    {
      hide LRUMap.Valid;
      DropOne(s0, lru.maxSize, totalBytes, overwritten, bytesPerKey, dead, e);
      totalBytes := totalBytes - e.value.bytes;
      var deleted := lru.Delete(e.key);
    }
  }

  // What the semantic tier keeps about a response besides its lifetime.
  datatype Semantic = Semantic(context: ContextKey, text: string)

  datatype Match = Match(key: SemanticKey, entry: Stored<Semantic>, similarity: real)

  // An entry a lookup may return: of the asked context and not expired.
  ghost predicate Eligible(e: Entry<SemanticKey, Stored<Semantic>>, context: ContextKey, now: int) {
    e.value.tag.context == context && !Expired(e.value, now)
  }

  // The best so far among some scanned entries.
  ghost predicate BestOf(scan: seq<Entry<SemanticKey, Stored<Semantic>>>, context: ContextKey, now: int,
                         score: string -> real, best: Option<Match>, bestSim: real) {
    && (forall e | e in scan && Eligible(e, context, now) :: score(e.value.tag.text) <= bestSim)
    && match best
       case None => bestSim == -1.0
       case Some(m) =>
         && Entry(m.key, m.entry) in scan && Eligible(Entry(m.key, m.entry), context, now)
         && m.similarity == bestSim == score(m.entry.tag.text) && bestSim > -1.0
  }

  lemma BestOfGrows(scan: seq<Entry<SemanticKey, Stored<Semantic>>>, n: nat, context: ContextKey, now: int,
                    score: string -> real, best: Option<Match>, bestSim: real)
    requires n < |scan| && BestOf(scan[..n], context, now, score, best, bestSim)
    ensures var e := scan[n];
            var sim := score(e.value.tag.text);
            if Eligible(e, context, now) && sim > bestSim
            then BestOf(scan[..n + 1], context, now, score, Some(Match(e.key, e.value, sim)), sim)
            else BestOf(scan[..n + 1], context, now, score, best, bestSim)
  {
    assert scan[..n + 1] == scan[..n] + [scan[n]];
    assert scan[n] == Entry(scan[n].key, scan[n].value);
  }

  // The best so far is the first of the most similar ones.
  ghost predicate FirstBest(scan: seq<Entry<SemanticKey, Stored<Semantic>>>, context: ContextKey, now: int,
                            score: string -> real, best: Option<Match>) {
    best.Some? ==>
      forall i, j | 0 <= i < j < |scan| && scan[j].key == best.value.key && Eligible(scan[i], context, now) ::
        score(scan[i].value.tag.text) < best.value.similarity
  }

  lemma FirstOfNone(context: ContextKey, now: int, score: string -> real)
    ensures FirstBest([], context, now, score, None)
  {
  }

  lemma FirstBestGrows(scan: seq<Entry<SemanticKey, Stored<Semantic>>>, n: nat, context: ContextKey, now: int,
                       score: string -> real, best: Option<Match>, bestSim: real)
    requires n < |scan| && Distinct(scan)
    requires BestOf(scan[..n], context, now, score, best, bestSim) && FirstBest(scan[..n], context, now, score, best)
    ensures var e := scan[n];
            var sim := score(e.value.tag.text);
            FirstBest(scan[..n + 1], context, now, score,
                      if Eligible(e, context, now) && sim > bestSim then Some(Match(e.key, e.value, sim)) else best)
  {
    var e, longer := scan[n], scan[..n + 1];
    var sim := score(e.value.tag.text);
    var best' := if Eligible(e, context, now) && sim > bestSim then Some(Match(e.key, e.value, sim)) else best;
    forall i, j | best'.Some? && 0 <= i < j < |longer| && longer[j].key == best'.value.key &&
                  Eligible(longer[i], context, now)
      ensures score(longer[i].value.tag.text) < best'.value.similarity
    {
      assert scan[i] == scan[..n][i] && scan[..n][i] in scan[..n];
      if j < n {
        assert scan[..n][j] == scan[j];
      }
    }
  }

  // k comes before l.
  ghost predicate Earlier<K>(order: seq<K>, k: K, l: K) {
    exists i, j :: 0 <= i < j < |order| && order[i] == k && order[j] == l
  }

  // Of the entries that are as similar as m, the map lists m first.
  ghost predicate FirstListed(order: seq<SemanticKey>, s: seq<Entry<SemanticKey, Stored<Semantic>>>,
                              context: ContextKey, now: int, score: string -> real, m: Match) {
    forall e | e in s && Eligible(e, context, now) && score(e.value.tag.text) == m.similarity && e.key != m.key ::
      Earlier(order, m.key, e.key)
  }

  lemma FirstBestIsListed(scan: seq<Entry<SemanticKey, Stored<Semantic>>>, order: seq<SemanticKey>,
                          s: seq<Entry<SemanticKey, Stored<Semantic>>>, context: ContextKey, now: int,
                          score: string -> real, best: Option<Match>, bestSim: real)
    requires |scan| == |order| && (forall j | 0 <= j < |scan| :: scan[j].key == order[j])
    requires (forall e | e in s :: e in scan) && BestOf(scan, context, now, score, best, bestSim)
    requires FirstBest(scan, context, now, score, best)
    ensures best.Some? ==> FirstListed(order, s, context, now, score, best.value)
  {
    if best.Some? {
      var m := best.value;
      forall e | e in s && Eligible(e, context, now) && score(e.value.tag.text) == m.similarity && e.key != m.key
        ensures Earlier(order, m.key, e.key)
      {
        var i :| 0 <= i < |scan| && scan[i] == e;
        var j :| 0 <= j < |scan| && scan[j] == Entry(m.key, m.entry);
        assert j < i && order[j] == m.key && order[i] == e.key;
      }
    }
  }

  // m is an eligible entry of s no other eligible entry is more similar than.
  ghost predicate MostSimilar(s: seq<Entry<SemanticKey, Stored<Semantic>>>, context: ContextKey, now: int,
                              score: string -> real, m: Match) {
    && Entry(m.key, m.entry) in s && Eligible(Entry(m.key, m.entry), context, now)
    && m.similarity == score(m.entry.tag.text)
    && forall e | e in s && Eligible(e, context, now) :: score(e.value.tag.text) <= m.similarity
  }

  // No eligible entry reaches the threshold; a similarity of -1 or less never does.
  ghost predicate NoneReaches(s: seq<Entry<SemanticKey, Stored<Semantic>>>, context: ContextKey, now: int,
                              score: string -> real, threshold: real) {
    forall e | e in s && Eligible(e, context, now) ::
      score(e.value.tag.text) < threshold || score(e.value.tag.text) <= -1.0
  }

  lemma BestOfDecides(s: seq<Entry<SemanticKey, Stored<Semantic>>>, context: ContextKey, now: int,
                      score: string -> real, best: Option<Match>, bestSim: real, threshold: real)
    requires BestOf(s, context, now, score, best, bestSim)
    ensures if best.Some? && bestSim >= threshold then
              MostSimilar(s, context, now, score, best.value) && best.value.similarity == bestSim
            else NoneReaches(s, context, now, score, threshold)
  {
  }

  class SemanticCache {
    const lru: LRUMap<SemanticKey, Stored<Semantic>>
    const threshold: real
    var hits: nat
    var misses: nat
    var totalBytes: int
    var bytesPerKey: map<SemanticKey, nat>
    ghost var overwritten: nat

    ghost predicate Valid()
      reads this, lru, lru.nodes
    {
      lru.Valid() && Books(lru.entries, lru.maxSize, totalBytes, overwritten, bytesPerKey)
    }

    // Everything the tier may change.
    ghost function Footprint(): set<object>
      reads lru
    {
      {this, lru} + Members(lru.nodes)
    }

    lemma EntriesAreBounded()
      requires Valid()
      ensures Distinct(lru.entries) && |lru.entries| <= lru.maxSize && lru.maxSize >= 1
    {
    }

    constructor (maxEntries: nat, threshold: real)
      requires maxEntries >= 1
      ensures Valid() && lru.entries == [] && totalBytes == 0 && overwritten == 0 && fresh(Footprint())
      ensures lru.maxSize == maxEntries && this.threshold == threshold
    {
      lru := new LRUMap(maxEntries);
      this.threshold := threshold;
      hits, misses, totalBytes, bytesPerKey, overwritten := 0, 0, 0, map[], 0;
    }

    // Scans the entries of one context, dropping the expired ones on the way; the result is an unexpired
    // entry of that context with the greatest similarity, if that reaches the threshold.
    method FindBest(score: string -> real, now: int, context: ContextKey) returns (found: Option<Match>)
      requires Valid()
      modifies Footprint()
      ensures Valid() && overwritten == old(overwritten) && Footprint() <= old(Footprint())
      ensures var kept := RemoveAll(old(lru.entries), DeadKeys(old(lru.entries), now, InContext(context)));
              lru.entries == if found.Some? then AfterGet(kept, found.value.key) else kept
      ensures if found.Some? then
                MostSimilar(old(lru.entries), context, now, score, found.value) && found.value.similarity >= threshold
              else NoneReaches(old(lru.entries), context, now, score, threshold)
      ensures found.Some? ==> FirstListed(old(lru.order), old(lru.entries), context, now, score, found.value)
      ensures if found.Some? then hits == old(hits) + 1 && misses == old(misses)
              else hits == old(hits) && misses == old(misses) + 1
    {
      hide LRUMap.Valid;
      var best, bestSim := Scan(score, now, context);
      BestOfDecides(old(lru.entries), context, now, score, best, bestSim, threshold);
      found := Settle(best, best.Some? && bestSim >= threshold);
    }

    // Counts a hit and promotes its entry, or counts a miss.
    method Settle(best: Option<Match>, hit: bool) returns (found: Option<Match>)
      requires Valid() && (hit ==> best.Some?)
      modifies this`hits, this`misses, lru, lru.nodes
      ensures Valid() && found == (if hit then best else None) && Footprint() <= old(Footprint())
      ensures lru.entries == if hit then AfterGet(old(lru.entries), best.value.key) else old(lru.entries)
      ensures hits == old(hits) + (if hit then 1 else 0) && misses == old(misses) + (if hit then 0 else 1)
    {
      hide LRUMap.Valid;
      if hit {
        BooksGet(lru.entries, lru.maxSize, totalBytes, overwritten, bytesPerKey, best.value.key);
        var promoted := lru.Get(best.value.key);
        hits := hits + 1;
        found := best;
      } else {
        misses := misses + 1;
        found := None;
      }
    }

    method Scan(score: string -> real, now: int, context: ContextKey) returns (best: Option<Match>, bestSim: real)
      requires Valid()
      modifies this`totalBytes, lru, Members(lru.nodes)
      ensures Valid() && Members(lru.nodes) <= Members(old(lru.nodes))
      ensures BestOf(old(lru.entries), context, now, score, best, bestSim)
      ensures best.Some? ==> FirstListed(old(lru.order), old(lru.entries), context, now, score, best.value)
      ensures lru.entries == RemoveAll(old(lru.entries), DeadKeys(old(lru.entries), now, InContext(context)))
    {
      hide LRUMap.Valid, Books, RemoveAll, FirstBest, FirstListed;
      EntriesAreBounded();
      best, bestSim := None, -1.0;
      FirstOfNone(context, now, score);
      ghost var s0, order0 := lru.entries, lru.order;
      var snapshot := lru.Snapshot();
      ScanStarts(s0, snapshot, now, InContext(context));
      for n := 0 to |snapshot|
        invariant Valid() && Members(lru.nodes) <= Members(old(lru.nodes))
        invariant lru.entries == RemoveAll(s0, DeadKeys(snapshot[..n], now, InContext(context)))
        invariant BestOf(snapshot[..n], context, now, score, best, bestSim)
        invariant FirstBest(snapshot[..n], context, now, score, best)
      {
        DeadKeysGrow(snapshot, n, now, InContext(context));
        FirstBestGrows(snapshot, n, context, now, score, best, bestSim);
        BestOfGrows(snapshot, n, context, now, score, best, bestSim);
        best, bestSim := Visit(snapshot[n], score, now, context, best, bestSim,
                               s0, DeadKeys(snapshot[..n], now, InContext(context)));
      }
      assert snapshot[..|snapshot|] == snapshot;
      DeadKeysSame(snapshot, s0, now, InContext(context));
      FirstBestIsListed(snapshot, order0, s0, context, now, score, best, bestSim);
    }

    // One entry of the scan: passed over, dropped, or compared with the best so far.
    method Visit(e: Entry<SemanticKey, Stored<Semantic>>, score: string -> real, now: int, context: ContextKey,
                 best: Option<Match>, bestSim: real,
                 ghost s0: seq<Entry<SemanticKey, Stored<Semantic>>>, ghost dead: set<SemanticKey>)
      returns (best': Option<Match>, bestSim': real)
      requires Valid() && Distinct(s0) && e in s0 && e.key !in dead && lru.entries == RemoveAll(s0, dead)
      modifies this`totalBytes, lru, lru.nodes
      ensures Valid() && Members(lru.nodes) <= Members(old(lru.nodes))
      ensures lru.entries ==
              RemoveAll(s0, if InContext(context)(e.value.tag) && Expired(e.value, now) then dead + {e.key} else dead)
      ensures (best', bestSim') == var sim := score(e.value.tag.text);
              if Eligible(e, context, now) && sim > bestSim then (Some(Match(e.key, e.value, sim)), sim)
              else (best, bestSim)
    {
      hide LRUMap.Valid;
      best', bestSim' := best, bestSim;
      if e.value.tag.context == context {
        if Expired(e.value, now) {
          DropExpired(e, s0, dead);
        } else {
          var sim := score(e.value.tag.text);
          if sim > bestSim {
            best', bestSim' := Some(Match(e.key, e.value, sim)), sim;
          }
        }
      }
    }

    method DropExpired(e: Entry<SemanticKey, Stored<Semantic>>, ghost s0: seq<Entry<SemanticKey, Stored<Semantic>>>,
                       ghost dead: set<SemanticKey>)
      requires Valid() && Distinct(s0) && e in s0 && e.key !in dead && lru.entries == RemoveAll(s0, dead)
      modifies this`totalBytes, lru, lru.nodes
      ensures Valid() && Members(lru.nodes) <= Members(old(lru.nodes)) && lru.entries == RemoveAll(s0, dead + {e.key})
      ensures |lru.entries| == |old(lru.entries)| - 1 && totalBytes <= old(totalBytes)
    {
      hide LRUMap.Valid;
      DropOne(s0, lru.maxSize, totalBytes, overwritten, bytesPerKey, dead, e);
      totalBytes := totalBytes - e.value.bytes;
      var deleted := lru.Delete(e.key);
    }

    method Store(key: SemanticKey, text: string, response: Response, bytes: nat,
                 now: int, ttlMs: int, context: ContextKey)
      requires Valid()
      modifies Footprint()
      ensures Valid() && hits == old(hits) && misses == old(misses) && fresh(Footprint() - old(Footprint()))
      ensures var entry := Stored(response, now, now + ttlMs, bytes, Semantic(context, text));
              lru.entries == AfterSet(old(lru.entries), key, entry, lru.maxSize)
      ensures overwritten == old(overwritten) + BytesAt(old(lru.entries), key)
    {
      hide LRUMap.Valid;
      var entry := Stored(response, now, now + ttlMs, bytes, Semantic(context, text));
      BooksSet(lru.entries, lru.maxSize, totalBytes, overwritten, bytesPerKey, key, entry);
      overwritten := overwritten + BytesAt(lru.entries, key);
      var evictedKey := lru.Set(key, entry);
      if evictedKey.Some? {
        var evictedBytes := if evictedKey.value in bytesPerKey then bytesPerKey[evictedKey.value] else 0;
        totalBytes := Max0(totalBytes - evictedBytes);
        bytesPerKey := bytesPerKey - {evictedKey.value};
      }
      totalBytes := totalBytes + bytes;
      bytesPerKey := bytesPerKey[key := bytes];
    }

    method SweepExpired(now: int) returns (swept: nat)
      requires Valid()
      modifies Footprint()
      ensures Valid() && overwritten == old(overwritten) && Footprint() <= old(Footprint())
      ensures lru.entries == RemoveAll(old(lru.entries), DeadKeys(old(lru.entries), now, AnyTag))
      ensures swept == |old(lru.entries)| - |lru.entries| && hits == old(hits) && misses == old(misses)
      ensures totalBytes <= old(totalBytes)
    {
      hide LRUMap.Valid;
      swept := 0;
      ghost var s0 := lru.entries;
      var snapshot := lru.Snapshot();
      ScanStarts(s0, snapshot, now, AnyTag);
      for n := 0 to |snapshot|
        invariant Valid() && overwritten == old(overwritten) && Footprint() <= old(Footprint())
        invariant lru.entries == RemoveAll(s0, DeadKeys(snapshot[..n], now, AnyTag))
        invariant swept == |s0| - |lru.entries| && hits == old(hits) && misses == old(misses)
        invariant totalBytes <= old(totalBytes)
      {
        DeadKeysGrow(snapshot, n, now, AnyTag);
        if Expired(snapshot[n].value, now) {
          DropExpired(snapshot[n], s0, DeadKeys(snapshot[..n], now, AnyTag));
          swept := swept + 1;
        }
      }
      assert snapshot[..|snapshot|] == snapshot;
      DeadKeysSame(snapshot, s0, now, AnyTag);
    }

    // The byte sizes on record are kept: they are only read for keys that are stored again first.
    method Clear()
      requires Valid()
      modifies Footprint()
      ensures Valid() && lru.entries == [] && totalBytes == 0 && overwritten == 0 && Footprint() <= old(Footprint())
      ensures hits == old(hits) && misses == old(misses)
    {
      hide LRUMap.Valid;
      lru.Clear();
      totalBytes, overwritten := 0, 0;
    }
  }

  predicate AnyTag(tag: Semantic) {
    true
  }

  function InContext(context: ContextKey): Semantic -> bool {
    (tag: Semantic) => tag.context == context
  }
}
