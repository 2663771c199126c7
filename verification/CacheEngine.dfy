/** The cache in front of the models (server/cacheEngine.ts): policies, two tiers, a memory budget. */
module CacheEngineModel {
  import opened Wrappers
  import opened LruSpec
  import opened CacheSpec
  import opened CacheRequests
  import opened CacheTiers
  import R = RingBuffers

  datatype Tier = Exact | SemanticTier

  datatype CacheResult = CacheResult(response: Response, tier: Tier, similarity: Option<real>, ageMs: int)

  // One allowed set: for which request, when, with which lifetime.
  datatype SetEvent = SetEvent(request: Request, response: Response, at: int, ttlMs: int)

  // How alike the texts of two conversations are; the first is the one asked for.
  type Similarity = (string, string) -> real

  function Scoring(similarity: Similarity, text: string): string -> real {
    other => similarity(text, other)
  }

  ghost function LatestExact(history: seq<SetEvent>, k: ExactKey): Option<SetEvent> {
    if history == [] then None
    else if ExactKeyOf(history[|history| - 1].request) == k then Some(history[|history| - 1])
    else LatestExact(history[..|history| - 1], k)
  }

  ghost function LatestSemantic(history: seq<SetEvent>, k: SemanticKey): Option<SetEvent> {
    if history == [] then None
    else if SemanticKeyOf(history[|history| - 1].request) == k then Some(history[|history| - 1])
    else LatestSemantic(history[..|history| - 1], k)
  }

  // The latest event for the same call, and for the same question.
  ghost predicate LatestCall(history: seq<SetEvent>, i: int, r: Request) {
    && 0 <= i < |history| && SameCall(r, history[i].request)
    && forall k | i < k < |history| :: !SameCall(r, history[k].request)
  }

  ghost predicate LatestQuestion(history: seq<SetEvent>, i: int, r: Request) {
    && 0 <= i < |history| && SameQuestion(r, history[i].request)
    && forall k | i < k < |history| :: !SameQuestion(r, history[k].request)
  }

  lemma {:induction false} LatestExactIsCall(history: seq<SetEvent>, r: Request) returns (i: int)
    requires LatestExact(history, ExactKeyOf(r)).Some?
    ensures LatestCall(history, i, r) && LatestExact(history, ExactKeyOf(r)) == Some(history[i])
  {
    hide SameCall, ExactKeyOf;
    var last := |history| - 1;
    KeysExactly(r, history[last].request);
    if ExactKeyOf(history[last].request) == ExactKeyOf(r) {
      i := last;
    } else {
      i := LatestExactIsCall(history[..last], r);
    }
  }

  lemma {:induction false} LatestSemanticIsQuestion(history: seq<SetEvent>, k: SemanticKey) returns (i: int)
    requires LatestSemantic(history, k).Some?
    ensures 0 <= i < |history| && LatestSemantic(history, k) == Some(history[i])
    ensures SemanticKeyOf(history[i].request) == k && LatestQuestion(history, i, history[i].request)
  {
    hide SameQuestion, SemanticKeyOf;
    var last := |history| - 1;
    if SemanticKeyOf(history[last].request) == k {
      i := last;
      KeysExactly(history[i].request, history[i].request);
    } else {
      i := LatestSemanticIsQuestion(history[..last], k);
      KeysExactly(history[i].request, history[last].request);
    }
  }

  // The entries an event makes.
  function ExactEntry(ev: SetEvent, bytes: nat): Stored<()> {
    Stored(ev.response, ev.at, ev.at + ev.ttlMs, bytes, ())
  }

  function SemanticEntry(ev: SetEvent, bytes: nat): Stored<Semantic> {
    var tag := Semantic(ContextKeyOf(ev.request), JoinContents(ev.request.messages));
    Stored(ev.response, ev.at, ev.at + ev.ttlMs, bytes, tag)
  }

  // A cached entry is what the event stored.
  ghost predicate StoredBy<P>(e: Stored<P>, ev: Option<SetEvent>, globalTTLMs: int) {
    && ev.Some? && e.response == ev.value.response
    && e.createdAt == ev.value.at && e.expiresAt == ev.value.at + ev.value.ttlMs && ev.value.ttlMs <= globalTTLMs
  }

  ghost predicate ExactBacked(s: seq<Entry<ExactKey, Stored<()>>>, history: seq<SetEvent>, globalTTLMs: int) {
    forall e | e in s :: StoredBy(e.value, LatestExact(history, e.key), globalTTLMs)
  }

  ghost predicate SemanticBacked(s: seq<Entry<SemanticKey, Stored<Semantic>>>, history: seq<SetEvent>,
                                 globalTTLMs: int) {
    forall e | e in s ::
      && StoredBy(e.value, LatestSemantic(history, e.key), globalTTLMs)
      && e.key == SemanticKey(e.value.tag.context, e.value.tag.text)
  }

  lemma ExactBackedSet(s: seq<Entry<ExactKey, Stored<()>>>, history: seq<SetEvent>, globalTTLMs: int,
                       ev: SetEvent, bytes: nat, cap: nat)
    requires ExactBacked(s, history, globalTTLMs) && ev.ttlMs <= globalTTLMs && Distinct(s) && |s| <= cap && cap >= 1
    ensures ExactBacked(AfterSet(s, ExactKeyOf(ev.request), ExactEntry(ev, bytes), cap), history + [ev], globalTTLMs)
  {
    SetMembers(s, ExactKeyOf(ev.request), ExactEntry(ev, bytes), cap);
    assert (history + [ev])[..|history|] == history;
  }

  lemma SemanticBackedSet(s: seq<Entry<SemanticKey, Stored<Semantic>>>, history: seq<SetEvent>, globalTTLMs: int,
                          ev: SetEvent, bytes: nat, cap: nat)
    requires SemanticBacked(s, history, globalTTLMs) && ev.ttlMs <= globalTTLMs && Distinct(s) && |s| <= cap && cap >= 1
    ensures var key := SemanticKeyOf(ev.request);
            SemanticBacked(AfterSet(s, key, SemanticEntry(ev, bytes), cap), history + [ev], globalTTLMs)
  {
    SetMembers(s, SemanticKeyOf(ev.request), SemanticEntry(ev, bytes), cap);
    assert (history + [ev])[..|history|] == history;
  }

  // What a scan leaves is backed as before.
  lemma ScanKeepsBacked(s: seq<Entry<SemanticKey, Stored<Semantic>>>, history: seq<SetEvent>, globalTTLMs: int,
                        dead: set<SemanticKey>, m: Option<Match>)
    requires SemanticBacked(s, history, globalTTLMs) && Distinct(s)
    ensures var kept := RemoveAll(s, dead);
            SemanticBacked(if m.Some? then AfterGet(kept, m.value.key) else kept, history, globalTTLMs)
  {
    RemoveAllMembers(s, dead);
    RemoveAllDistinct(s, dead);
    if m.Some? {
      GetMembers(RemoveAll(s, dead), m.value.key);
    }
  }

  lemma MatchIsBacked(s: seq<Entry<SemanticKey, Stored<Semantic>>>, history: seq<SetEvent>, globalTTLMs: int,
                      context: ContextKey, now: int, score: string -> real, m: Match)
    requires SemanticBacked(s, history, globalTTLMs) && MostSimilar(s, context, now, score, m)
    ensures m.key == SemanticKey(context, m.entry.tag.text)
    ensures StoredBy(m.entry, LatestSemantic(history, m.key), globalTTLMs)
  {
  }

  class CacheEngine {
    const exact: ExactCache
    const semantic: SemanticCache
    const rollingBuf: R.RollingWindowBuffer // a hit or a miss for every allowed get
    const exactEnabled: bool
    const semanticEnabled: bool
    const globalTTLMs: int
    const maxMemoryBytes: real
    var policies: Policies
    var prefixEntries: nat

    // How the text tests of the bypass rules read a request.
    const lowerText: seq<Message> -> string
    const asksForFresh: seq<Message> -> bool

    ghost var history: seq<SetEvent> // every allowed set, oldest first

    ghost predicate Valid()
      reads this, exact, exact.lru, exact.lru.nodes, semantic, semantic.lru, semantic.lru.nodes
      reads rollingBuf, rollingBuf.buf
    {
      && exact.Valid() && semantic.Valid() && rollingBuf.Valid() && Apart() && DistinctRoutes(policies)
      && (exactEnabled ==> ExactBacked(exact.lru.entries, history, globalTTLMs))
      && (semanticEnabled ==> SemanticBacked(semantic.lru.entries, history, globalTTLMs))
      && (!exactEnabled ==> exact.lru.entries == [])
      && (!semanticEnabled ==> semantic.lru.entries == [])
    }

    // The object belongs to neither the engine itself nor its window.
    ghost predicate Elsewhere(o: object) {
      o != this && o != rollingBuf && o != rollingBuf.buf
    }

    // The parts share no object, so a change of one leaves the others alone.
    ghost predicate Apart()
      reads exact.lru, semantic.lru
    {
      && (forall o: object | o in exact.Footprint() :: o !in semantic.Footprint() && Elsewhere(o))
      && (forall o: object | o in semantic.Footprint() :: Elsewhere(o))
    }

    constructor (exact: ExactCache, semantic: SemanticCache, exactEnabled: bool,
                 semanticEnabled: bool, globalTTLMs: int,
                 maxMemoryBytes: real, lowerText: seq<Message> -> string, asksForFresh: seq<Message> -> bool)
      requires exact.Valid() && exact.lru.entries == [] && semantic.Valid() && semantic.lru.entries == []
      requires exact.Footprint() !! semantic.Footprint()
      ensures Valid() && history == [] && this.exact == exact && this.semantic == semantic
      ensures rollingBuf.capacity == 10000 && rollingBuf.pushed == []
    {
      hide ExactCache.Valid, SemanticCache.Valid, R.RollingWindowBuffer.Valid;
      this.exact, this.semantic := exact, semantic;
      this.exactEnabled, this.semanticEnabled := exactEnabled, semanticEnabled;
      this.globalTTLMs, this.maxMemoryBytes := globalTTLMs, maxMemoryBytes;
      this.lowerText, this.asksForFresh := lowerText, asksForFresh;
      policies, prefixEntries, history := [], 0, [];
      rollingBuf := new R.RollingWindowBuffer(10000);
    }

    predicate IsAllowed(r: Request)
      reads this`policies
    {
      Allowed(policies, r, lowerText(r.messages), asksForFresh(r.messages))
    }

    method SetPolicy(route: string, policy: Policy)
      requires Valid()
      modifies this`policies
      ensures Valid() && policies == Registered(old(policies), route, policy)
    {
      hide ExactCache.Valid, SemanticCache.Valid, R.RollingWindowBuffer.Valid, ExactBacked, SemanticBacked;
      RegisteredExactly(policies, route, policy);
      policies := Registered(policies, route, policy);
    }

    // An exact hit is the response of the latest allowed set for the same model, messages and parameters.
    ghost predicate ExactHit(r: Request, hit: CacheResult, now: int)
      reads this
    {
      exists i :: LatestCall(history, i, r) && IsOf(hit, history[i], now)
    }

    // A semantic hit is the response of a set in the same context, the latest one for its own text; no eligible entry
    // is more similar to the text asked for, and those that are as similar were first stored later.
    ghost predicate SemanticHit(r: Request, hit: CacheResult, now: int, similarity: Similarity,
                                entries: seq<Entry<SemanticKey, Stored<Semantic>>>, order: seq<SemanticKey>)
      reads this
    {
      var score := Scoring(similarity, JoinContents(r.messages));
      exists i :: LatestOf(history, i, r) && IsOf(hit, history[i], now) &&
                  hit.similarity == Some(score(JoinContents(history[i].request.messages))) &&
                  hit.similarity.value >= semantic.threshold &&
                  forall e | e in entries && Eligible(e, ContextKeyOf(r), now) ::
                    var sim, key := score(e.value.tag.text), SemanticKeyOf(history[i].request);
                    sim < hit.similarity.value || (sim == hit.similarity.value && e.key == key) ||
                    (sim == hit.similarity.value && Earlier(order, key, e.key))
    }

    // The latest set for the text of some set in the context of r.
    static ghost predicate LatestOf(history: seq<SetEvent>, i: int, r: Request) {
      0 <= i < |history| && SameContext(r, history[i].request) && LatestQuestion(history, i, history[i].request)
    }

    // The response of the set, which has not outlived the lifetime it was given.
    static ghost predicate IsOf(hit: CacheResult, ev: SetEvent, now: int) {
      hit.response == ev.response && hit.ageMs == now - ev.at <= ev.ttlMs
    }

    // What a scan for r leaves of the semantic tier: all but the expired entries of its context.
    static ghost function Unexpired(s: seq<Entry<SemanticKey, Stored<Semantic>>>, r: Request, now: int)
      : seq<Entry<SemanticKey, Stored<Semantic>>>
    {
      RemoveAll(s, DeadKeys(s, now, InContext(ContextKeyOf(r))))
    }

    // A hit is what the two predicates say, of the latest allowed set, and not older than the global lifetime; a miss
    // means that no tier has an answer.
    method Get(r: Request, similarity: Similarity, now: int) returns (result: Option<CacheResult>)
      requires Valid()
      modifies exact.Footprint(), semantic.Footprint(), rollingBuf, rollingBuf.buf
      ensures Valid() && (result.Some? ==> IsAllowed(r) && result.value.ageMs <= globalTTLMs)
      ensures rollingBuf.pushed == old(rollingBuf.pushed) +
              if IsAllowed(r) then [R.WindowEvent(now, result.Some?)] else []
      ensures result.Some? && result.value.tier == Exact ==> ExactHit(r, result.value, now)
      ensures result.Some? && result.value.tier == SemanticTier ==>
                SemanticHit(r, result.value, now, similarity, old(semantic.lru.entries), old(semantic.lru.order))
      ensures IsAllowed(r) && exactEnabled && (result.None? || result.value.tier != Exact) ==>
                var e := Find(old(exact.lru.entries), ExactKeyOf(r));
                e.None? || e.value.expiresAt < now
      ensures IsAllowed(r) && semanticEnabled && result.None? ==>
                forall e | e in old(semantic.lru.entries) && e.value.tag.context == ContextKeyOf(r) ::
                  var sim := similarity(JoinContents(r.messages), e.value.tag.text);
                  e.value.expiresAt < now || sim < semantic.threshold || sim <= -1.0
      // A hit comes to the front, and an expired entry leaves.
      ensures IsAllowed(r) && exactEnabled ==>
                exact.lru.entries == if result.Some? && result.value.tier == Exact
                                     then AfterGet(old(exact.lru.entries), ExactKeyOf(r))
                                     else Remove(old(exact.lru.entries), ExactKeyOf(r))
      ensures result.Some? && result.value.tier == Exact ==> semantic.lru.entries == old(semantic.lru.entries)
      ensures IsAllowed(r) && semanticEnabled && !(result.Some? && result.value.tier == Exact) ==>
                var kept := Unexpired(old(semantic.lru.entries), r, now);
                if result.None? then semantic.lru.entries == kept
                else exists k :: semantic.lru.entries == AfterGet(kept, k) && Has(kept, k) &&
                                 Find(kept, k).value.response == result.value.response
      ensures !IsAllowed(r) ==>
                exact.lru.entries == old(exact.lru.entries) && semantic.lru.entries == old(semantic.lru.entries)
    {
      hide ExactCache.Valid, SemanticCache.Valid, R.RollingWindowBuffer.Valid, ExactBacked, SemanticBacked;
      hide Allowed, SemanticHit, ExactHit, DistinctRoutes;
      if !IsAllowed(r) {
        return None;
      }
      if exactEnabled {
        var entry := GetExact(r, now);
        if entry.Some? {
          RecordLookup(true, now);
          return Some(CacheResult(entry.value.response, Exact, None, now - entry.value.createdAt));
        }
      }
      if semanticEnabled {
        var m := GetSemantic(r, similarity, now);
        if m.Some? {
          RecordLookup(true, now);
          var ageMs := now - m.value.entry.createdAt;
          return Some(CacheResult(m.value.entry.response, SemanticTier, Some(m.value.similarity), ageMs));
        }
      }
      RecordLookup(false, now);
      result := None;
    }

    method RecordLookup(hit: bool, now: int)
      requires Valid()
      modifies rollingBuf, rollingBuf.buf
      ensures Valid() && rollingBuf.pushed == old(rollingBuf.pushed) + [R.WindowEvent(now, hit)]
    {
      hide ExactCache.Valid, SemanticCache.Valid, R.RollingWindowBuffer.Valid;
      rollingBuf.Push(hit, now);
    }

    method GetExact(r: Request, now: int) returns (entry: Option<Stored<()>>)
      requires Valid() && exactEnabled
      modifies exact.Footprint()
      ensures Valid()
      ensures entry == var hit := Find(old(exact.lru.entries), ExactKeyOf(r));
              if hit.Some? && !Expired(hit.value, now) then hit else None
      ensures exact.lru.entries == if entry.Some? then AfterGet(old(exact.lru.entries), ExactKeyOf(r))
                                   else Remove(old(exact.lru.entries), ExactKeyOf(r))
      ensures entry.Some? ==>
                now - entry.value.createdAt <= globalTTLMs &&
                ExactHit(r, CacheResult(entry.value.response, Exact, None, now - entry.value.createdAt), now)
    {
      hide ExactCache.Valid, SemanticCache.Valid, R.RollingWindowBuffer.Valid;
      var key := ExactKeyOf(r);
      exact.EntriesAreBounded();
      entry := exact.Get(key, now);
      GetMembers(old(exact.lru.entries), key);
      RemoveGone(old(exact.lru.entries), key);
      if entry.Some? {
        FindIffMember(old(exact.lru.entries), key, entry.value);
        ghost var i := LatestExactIsCall(history, r);
        assert IsOf(CacheResult(entry.value.response, Exact, None, now - entry.value.createdAt), history[i], now);
      }
    }

    method GetSemantic(r: Request, similarity: Similarity, now: int) returns (m: Option<Match>)
      requires Valid() && semanticEnabled
      modifies semantic.Footprint()
      ensures Valid()
      ensures if m.Some? then
                var hit := CacheResult(m.value.entry.response, SemanticTier, Some(m.value.similarity),
                                       now - m.value.entry.createdAt);
                hit.ageMs <= globalTTLMs &&
                SemanticHit(r, hit, now, similarity, old(semantic.lru.entries), old(semantic.lru.order))
              else NoneReaches(old(semantic.lru.entries), ContextKeyOf(r), now,
                               Scoring(similarity, JoinContents(r.messages)), semantic.threshold)
      ensures var kept := Unexpired(old(semantic.lru.entries), r, now);
              if m.Some? then
                semantic.lru.entries == AfterGet(kept, m.value.key) && Has(kept, m.value.key) &&
                Find(kept, m.value.key).value.response == m.value.entry.response
              else semantic.lru.entries == kept
    {
      hide ExactCache.Valid, SemanticCache.Valid, R.RollingWindowBuffer.Valid, ExactBacked, SemanticBacked;
      hide SemanticHit, MostSimilar, NoneReaches, FirstListed, StoredBy, DistinctRoutes, RemoveAll, AfterGet, Find, Has;
      var context, score := ContextKeyOf(r), Scoring(similarity, JoinContents(r.messages));
      semantic.EntriesAreBounded();
      ghost var dead := DeadKeys(semantic.lru.entries, now, InContext(context));
      m := semantic.FindBest(score, now, context);
      ScanKeepsBacked(old(semantic.lru.entries), history, globalTTLMs, dead, m);
      if m.Some? {
        MatchIsBacked(old(semantic.lru.entries), history, globalTTLMs, context, now, score, m.value);
        MatchIsHit(r, similarity, now, old(semantic.lru.entries), old(semantic.lru.order), m.value);
        MatchIsKept(old(semantic.lru.entries), r, now, score, m.value);
      }
    }

    static lemma MatchIsKept(s: seq<Entry<SemanticKey, Stored<Semantic>>>, r: Request, now: int,
                             score: string -> real, m: Match)
      requires Distinct(s) && MostSimilar(s, ContextKeyOf(r), now, score, m)
      ensures Find(Unexpired(s, r, now), m.key) == Some(m.entry) && Has(Unexpired(s, r, now), m.key)
    {
      var dead := DeadKeys(s, now, InContext(ContextKeyOf(r)));
      FindIffMember(s, m.key, m.entry);
      forall e | e in s && e.key == m.key
        ensures e.value == m.entry
      {
        FindIffMember(s, m.key, e.value);
      }
      RemoveAllKeeps(s, dead, m.key);
    }

    lemma MatchIsHit(r: Request, similarity: Similarity, now: int,
                     entries: seq<Entry<SemanticKey, Stored<Semantic>>>, order: seq<SemanticKey>, m: Match)
      requires MostSimilar(entries, ContextKeyOf(r), now, Scoring(similarity, JoinContents(r.messages)), m)
      requires FirstListed(order, entries, ContextKeyOf(r), now, Scoring(similarity, JoinContents(r.messages)), m)
      requires m.similarity >= semantic.threshold && m.key.context == ContextKeyOf(r)
      requires m.key.text == m.entry.tag.text && StoredBy(m.entry, LatestSemantic(history, m.key), globalTTLMs)
      ensures var hit := CacheResult(m.entry.response, SemanticTier, Some(m.similarity), now - m.entry.createdAt);
              hit.ageMs <= globalTTLMs && SemanticHit(r, hit, now, similarity, entries, order)
    {
      var i := LatestSemanticIsQuestion(history, m.key);
      KeysExactly(r, history[i].request);
      assert LatestOf(history, i, r);
    }

    // An allowed set is recorded once, with the lifetime of its route, and can be read back at once, unless it is born
    // expired; a bypassed one changes nothing.
    method Set(r: Request, response: Response, bytes: nat, embeddingBytes: nat, now: int)
      requires Valid()
      modifies this`history, exact.Footprint(), semantic.Footprint()
      ensures Valid()
      ensures history == old(history) +
              if IsAllowed(r) then
                [SetEvent(r, response, now, Lifetime(policies, r.route, exact.defaultTTLMs, globalTTLMs))]
              else []
      ensures !IsAllowed(r) ==>
                exact.lru.entries == old(exact.lru.entries) && semantic.lru.entries == old(semantic.lru.entries)
      ensures IsAllowed(r) && exactEnabled ==>
                Find(exact.lru.entries, ExactKeyOf(r)).Some? &&
                Find(exact.lru.entries, ExactKeyOf(r)).value.response == response
      ensures IsAllowed(r) && semanticEnabled ==>
                Find(semantic.lru.entries, SemanticKeyOf(r)).Some? &&
                Find(semantic.lru.entries, SemanticKeyOf(r)).value.response == response
      // What else is there is what memory leaves room for.
      ensures IsAllowed(r) && exactEnabled ==>
                var room := if old(UtilizationPct()) < 90.0 || old(PctWithoutSemantic()) < 90.0
                            then old(exact.lru.entries) else [];
                exact.lru.entries ==
                  AfterSet(room, ExactKeyOf(r), ExactEntry(history[|old(history)|], bytes), exact.lru.maxSize)
      ensures IsAllowed(r) && semanticEnabled ==>
                var room := if old(UtilizationPct()) < 90.0 then old(semantic.lru.entries) else [];
                semantic.lru.entries ==
                  AfterSet(room, SemanticKeyOf(r), SemanticEntry(history[|old(history)|], bytes + embeddingBytes),
                           semantic.lru.maxSize)
    {
      hide ExactCache.Valid, SemanticCache.Valid, R.RollingWindowBuffer.Valid;
      if !IsAllowed(r) {
        return;
      }
      var policy := ResolvePolicy(policies, r.route);
      var wanted := if policy.Some? && policy.value.ttlMs.Some? then policy.value.ttlMs.value else exact.defaultTTLMs;
      var ttlMs := if wanted < globalTTLMs then wanted else globalTTLMs;
      EnforceMemoryBudget();
      Record(SetEvent(r, response, now, ttlMs), bytes, embeddingBytes);
    }

    method Record(ev: SetEvent, bytes: nat, embeddingBytes: nat)
      requires Valid() && ev.ttlMs <= globalTTLMs
      modifies this`history, exact.Footprint(), semantic.Footprint()
      ensures Valid() && history == old(history) + [ev]
      ensures exactEnabled ==>
                exact.lru.entries ==
                  AfterSet(old(exact.lru.entries), ExactKeyOf(ev.request), ExactEntry(ev, bytes), exact.lru.maxSize) &&
                Find(exact.lru.entries, ExactKeyOf(ev.request)).Some? &&
                Find(exact.lru.entries, ExactKeyOf(ev.request)).value.response == ev.response
      ensures semanticEnabled ==>
                semantic.lru.entries ==
                  AfterSet(old(semantic.lru.entries), SemanticKeyOf(ev.request),
                           SemanticEntry(ev, bytes + embeddingBytes), semantic.lru.maxSize) &&
                Find(semantic.lru.entries, SemanticKeyOf(ev.request)).Some? &&
                Find(semantic.lru.entries, SemanticKeyOf(ev.request)).value.response == ev.response
    {
      hide ExactCache.Valid, SemanticCache.Valid, R.RollingWindowBuffer.Valid, ExactBacked, SemanticBacked;
      hide AfterSet, Find, ExactEntry, SemanticEntry, ExactKeyOf, SemanticKeyOf, DistinctRoutes;
      if exactEnabled {
        RecordExact(ev, bytes);
      }
      if semanticEnabled {
        RecordSemantic(ev, bytes + embeddingBytes);
      }
      history := history + [ev];
    }

    method RecordExact(ev: SetEvent, bytes: nat)
      requires exact.Valid() && ExactBacked(exact.lru.entries, history, globalTTLMs) && ev.ttlMs <= globalTTLMs
      modifies exact.Footprint()
      ensures exact.Valid() && ExactBacked(exact.lru.entries, history + [ev], globalTTLMs)
      ensures fresh(exact.Footprint() - old(exact.Footprint()))
      ensures var key := ExactKeyOf(ev.request);
              && exact.lru.entries == AfterSet(old(exact.lru.entries), key, ExactEntry(ev, bytes), exact.lru.maxSize)
              && Find(exact.lru.entries, key).Some? && Find(exact.lru.entries, key).value.response == ev.response
    {
      hide ExactCache.Valid, SemanticCache.Valid, R.RollingWindowBuffer.Valid;
      exact.EntriesAreBounded();
      ExactBackedSet(exact.lru.entries, history, globalTTLMs, ev, bytes, exact.lru.maxSize);
      SetIsFound(exact.lru.entries, ExactKeyOf(ev.request), ExactEntry(ev, bytes), exact.lru.maxSize);
      exact.Set(ExactKeyOf(ev.request), ev.response, bytes, ev.at, Some(ev.ttlMs));
    }

    method RecordSemantic(ev: SetEvent, bytes: nat)
      requires semantic.Valid() && SemanticBacked(semantic.lru.entries, history, globalTTLMs) && ev.ttlMs <= globalTTLMs
      modifies semantic.Footprint()
      ensures semantic.Valid() && SemanticBacked(semantic.lru.entries, history + [ev], globalTTLMs)
      ensures fresh(semantic.Footprint() - old(semantic.Footprint()))
      ensures var (key, e) := (SemanticKeyOf(ev.request), SemanticEntry(ev, bytes));
              && semantic.lru.entries == AfterSet(old(semantic.lru.entries), key, e, semantic.lru.maxSize)
              && Find(semantic.lru.entries, key).Some? && Find(semantic.lru.entries, key).value.response == ev.response
    {
      hide ExactCache.Valid, SemanticCache.Valid, R.RollingWindowBuffer.Valid;
      semantic.EntriesAreBounded();
      SemanticBackedSet(semantic.lru.entries, history, globalTTLMs, ev, bytes, semantic.lru.maxSize);
      SetIsFound(semantic.lru.entries, SemanticKeyOf(ev.request), SemanticEntry(ev, bytes), semantic.lru.maxSize);
      semantic.Store(SemanticKeyOf(ev.request), JoinContents(ev.request.messages), ev.response, bytes, ev.at, ev.ttlMs,
                     ContextKeyOf(ev.request));
    }

    // ----- memory -----

    function TotalBytes(): int
      reads this`prefixEntries, exact`totalBytes, semantic`totalBytes
    {
      exact.totalBytes + prefixEntries * 96 + semantic.totalBytes
    }

    function UtilizationPct(): real
      reads this`prefixEntries, exact`totalBytes, semantic`totalBytes
    {
      if maxMemoryBytes > 0.0 then TotalBytes() as real / maxMemoryBytes * 100.0 else 0.0
    }

    // What use would be without the semantic tier.
    function PctWithoutSemantic(): real
      reads this`prefixEntries, exact`totalBytes
    {
      if maxMemoryBytes > 0.0 then (exact.totalBytes + prefixEntries * 96) as real / maxMemoryBytes * 100.0 else 0.0
    }

    // Afterwards use is below nine tenths or both response tiers are empty: the semantic tier goes exactly when use had
    // reached nine tenths, the exact tier exactly when it still does without the semantic one.
    method EnforceMemoryBudget()
      requires Valid()
      modifies exact.Footprint(), semantic.Footprint()
      ensures Valid() && exact.Footprint() <= old(exact.Footprint()) &&
              semantic.Footprint() <= old(semantic.Footprint())
      ensures UtilizationPct() < 90.0 || (exact.lru.entries == [] && semantic.lru.entries == [])
      ensures semantic.lru.entries == if old(UtilizationPct()) < 90.0 then old(semantic.lru.entries) else []
      ensures exact.lru.entries == if old(UtilizationPct()) < 90.0 || old(PctWithoutSemantic()) < 90.0
                                   then old(exact.lru.entries) else []
    {
      hide ExactCache.Valid, SemanticCache.Valid, R.RollingWindowBuffer.Valid;
      if UtilizationPct() < 90.0 {
        return;
      }
      semantic.Clear();
      if UtilizationPct() >= 90.0 {
        exact.Clear();
      }
    }

    // Drops exactly the expired entries, and more only when use reached nine tenths before.
    method Sweep(now: int)
      requires Valid()
      modifies exact.Footprint(), semantic.Footprint()
      ensures Valid() && (UtilizationPct() < 90.0 || (exact.lru.entries == [] && semantic.lru.entries == []))
      ensures var kept := RemoveAll(old(exact.lru.entries), DeadKeys(old(exact.lru.entries), now, Anything));
              exact.lru.entries == kept || (exact.lru.entries == [] && old(UtilizationPct()) >= 90.0)
      ensures var kept := RemoveAll(old(semantic.lru.entries), DeadKeys(old(semantic.lru.entries), now, AnyTag));
              semantic.lru.entries == kept || (semantic.lru.entries == [] && old(UtilizationPct()) >= 90.0)
    {
      hide ExactCache.Valid, SemanticCache.Valid, R.RollingWindowBuffer.Valid;
      ghost var s, t := exact.lru.entries, semantic.lru.entries;
      var a := exact.SweepExpired(now);
      var b := semantic.SweepExpired(now);
      RemoveAllMembers(s, DeadKeys(s, now, Anything));
      RemoveAllMembers(t, DeadKeys(t, now, AnyTag));
      if maxMemoryBytes > 0.0 {
        LessUse(TotalBytes(), old(TotalBytes()), maxMemoryBytes);
      }
      EnforceMemoryBudget();
    }
  }

  lemma LessUse(used: int, before: int, limit: real)
    requires used <= before && limit > 0.0
    ensures used as real / limit * 100.0 <= before as real / limit * 100.0
  {
    Quotient(used as real, before as real, limit);
  }

  lemma Quotient(x: real, y: real, z: real)
    requires x <= y && z > 0.0
    ensures x / z <= y / z
  {
    var a, b := x / z, y / z;
    assert a * z == x && b * z == y;
    assert (b - a) * z >= 0.0;
  }

  lemma SetIsFound<K, V>(s: seq<Entry<K, V>>, k: K, v: V, cap: nat)
    requires Distinct(s) && |s| <= cap && cap >= 1
    ensures Find(AfterSet(s, k, v, cap), k) == Some(v)
  {
    SetMembers(s, k, v, cap);
    SetKeepsDistinct(s, k, v, cap);
    FindIffMember(AfterSet(s, k, v, cap), k, v);
  }

  lemma SetKeepsDistinct<K, V>(s: seq<Entry<K, V>>, k: K, v: V, cap: nat)
    requires Distinct(s)
    ensures Distinct(AfterSet(s, k, v, cap))
  {
    TouchKeepsDistinct(s, k, v);
  }
}
