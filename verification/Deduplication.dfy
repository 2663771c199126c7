/** Memory deduplication (server/memoryUpgrades.ts). Word sets come from a function of the content. */
module Deduplication {
  import opened Wrappers

  datatype Memory = Memory(id: string, content: string, importance: Option<real>, createdAt: int)

  function Importance(m: Memory): real {
    match m.importance
    case None => 0.0
    case Some(x) => x
  }

  // The share of common words among all words of two sets; two empty sets are the same.
  ghost function Jaccard(a: set<string>, b: set<string>): real {
    if a + b == {} then 1.0 else |a * b| as real / |a + b| as real
  }

  method JaccardSimilarity(a: set<string>, b: set<string>) returns (similarity: real)
    ensures similarity == Jaccard(a, b)
  {
    if |a| == 0 && |b| == 0 {
      return 1.0;
    }
    if |a| == 0 || |b| == 0 {
      assert a * b == {} && a + b != {};
      return 0.0;
    }
    var intersection := 0;
    var words := a;
    while words != {}
      invariant words <= a && intersection == |(a - words) * b|
      decreases |words|
    {
      var word :| word in words;
      CountWord(a, b, words, word);
      if word in b {
        intersection := intersection + 1;
      }
      words := words - {word};
    }
    assert (a - {}) * b == a * b;
    UnionSize(a, b);
    var union := |a| + |b| - intersection;
    return if union == 0 then 0.0 else intersection as real / union as real;
  }

  lemma CountWord(a: set<string>, b: set<string>, words: set<string>, word: string)
    requires words <= a && word in words
    ensures |(a - (words - {word})) * b| == |(a - words) * b| + if word in b then 1 else 0
  {
    assert (a - (words - {word})) * b == (a - words) * b + if word in b then {word} else {};
  }

  lemma UnionSize(a: set<string>, b: set<string>)
    requires a != {}
    ensures |a + b| == |a| + |b| - |a * b| && a + b != {}
  {
  }

  // Being above 0.8, without a division.
  ghost predicate TooSimilar(a: set<string>, b: set<string>) {
    a + b == {} || 5 * |a * b| > 4 * |a + b|
  }

  lemma Scale(r: real, s: real, u: real)
    requires u > 0.0
    ensures r > s <==> r * u > s * u
  {
    assert r * u - s * u == (r - s) * u;
  }

  lemma RatioAbove(i: nat, u: nat)
    requires u > 0
    ensures i as real / u as real > 0.8 <==> 5 * i > 4 * u
  {
    Scale(i as real / u as real, 0.8, u as real);
    FourFifths(i, u);
  }

  lemma FourFifths(i: nat, u: nat)
    ensures i as real > 0.8 * u as real <==> 5 * i > 4 * u
  {
    assert (5 * i) as real == 5.0 * i as real && (4 * u) as real == 4.0 * u as real;
  }

  lemma AboveThreshold(a: set<string>, b: set<string>)
    ensures TooSimilar(a, b) <==> Jaccard(a, b) > 0.8
  {
    if a + b != {} {
      RatioAbove(|a * b|, |a + b|);
    }
  }

  lemma TooSimilarSymmetric(a: set<string>, b: set<string>)
    ensures TooSimilar(a, b) <==> TooSimilar(b, a)
  {
    assert a * b == b * a && a + b == b + a;
  }

  lemma RatioBounds(i: nat, u: nat)
    requires i <= u && u > 0
    ensures 0.0 <= i as real / u as real <= 1.0 && (i as real / u as real == 1.0 <==> i == u)
  {
    var r := i as real / u as real;
    assert r * u as real == i as real;
  }

  // Similarity is symmetric, lies between 0 and 1, and is 1 for equal sets only.
  lemma JaccardLaws(a: set<string>, b: set<string>)
    ensures Jaccard(a, b) == Jaccard(b, a) && 0.0 <= Jaccard(a, b) <= 1.0
    ensures Jaccard(a, b) == 1.0 <==> a == b
  {
    assert a * b == b * a && a + b == b + a;
    if a + b != {} {
      SubsetSize(a * b, a + b);
      RatioBounds(|a * b|, |a + b|);
      assert a == b <==> a * b == a + b;
    }
  }

  lemma SubsetSize(s: set<string>, t: set<string>)
    requires s <= t
    ensures |s| <= |t| && (|s| == |t| ==> s == t)
  {
    assert |t| == |s| + |t - s| by { assert t == s + (t - s); }
  }

  // ----- the order of preference -----

  // The memory at j is kept rather than the one at i: it is more important, or as important and more recent,
  // or neither and it comes first.
  ghost predicate Preferred(ms: seq<Memory>, j: nat, i: nat)
    requires i < |ms| && j < |ms|
  {
    || Importance(ms[j]) > Importance(ms[i])
    || (Importance(ms[j]) == Importance(ms[i]) && ms[j].createdAt > ms[i].createdAt)
    || (Importance(ms[j]) == Importance(ms[i]) && ms[j].createdAt == ms[i].createdAt && j < i)
  }

  // A memory without an importance counts as one of importance zero: of two such memories the more recent is
  // preferred, and one with a positive importance to either.
  lemma NoImportance(ms: seq<Memory>, j: nat, i: nat)
    requires i < |ms| && j < |ms| && ms[i].importance == None
    ensures Preferred(ms, j, i) <==>
            var x := ms[j].importance.UnwrapOr(0.0);
            var later := ms[j].createdAt > ms[i].createdAt || (ms[j].createdAt == ms[i].createdAt && j < i);
            x > 0.0 || (x == 0.0 && later)
  {
  }

  ghost predicate Duplicates(ms: seq<Memory>, words: string -> set<string>, i: nat, j: nat)
    requires i < |ms| && j < |ms|
  {
    TooSimilar(words(ms[i].content), words(ms[j].content))
  }

  // A chain of duplicates, each preferred to the one before.
  ghost predicate Chain(ms: seq<Memory>, words: string -> set<string>, path: seq<nat>) {
    && path != []
    && (forall k | 0 <= k < |path| :: path[k] < |ms|)
    && (forall k | 0 <= k < |path| - 1 :: Step(ms, words, path[k], path[k + 1]))
  }

  ghost predicate Step(ms: seq<Memory>, words: string -> set<string>, i: nat, j: nat) {
    && i < |ms| && j < |ms|
    && (Duplicates(ms, words, i, j) || Duplicates(ms, words, j, i))
    && Preferred(ms, j, i)
  }

  // i is linked by a chain to a memory that is not removed.
  ghost predicate Represented(ms: seq<Memory>, words: string -> set<string>, removed: set<nat>, i: nat) {
    exists path: seq<nat> :: Chain(ms, words, path) && path[0] == i && path[|path| - 1] !in removed
  }

  ghost predicate AllRepresented(ms: seq<Memory>, words: string -> set<string>, removed: set<nat>) {
    forall i | i in removed :: i < |ms| && Represented(ms, words, removed, i)
  }

  lemma ChainExtends(ms: seq<Memory>, words: string -> set<string>, path: seq<nat>, keep: nat)
    requires Chain(ms, words, path) && Step(ms, words, path[|path| - 1], keep)
    ensures Chain(ms, words, path + [keep])
  {
    var longer := path + [keep];
    forall k | 0 <= k < |longer| - 1
      ensures Step(ms, words, longer[k], longer[k + 1])
    {
      if k < |path| - 1 {
        assert Step(ms, words, path[k], path[k + 1]);
      }
    }
  }

  lemma RepresentedAfterDrop(ms: seq<Memory>, words: string -> set<string>, removed: set<nat>,
                             drop: nat, keep: nat, i: nat)
    requires keep !in removed && drop != keep && Step(ms, words, drop, keep)
    requires i == drop || Represented(ms, words, removed, i)
    ensures Represented(ms, words, removed + {drop}, i)
  {
    var path := [drop];
    if i != drop {
      path :| Chain(ms, words, path) && path[0] == i && path[|path| - 1] !in removed;
    }
    if path[|path| - 1] == drop {
      ChainExtends(ms, words, path, keep);
      path := path + [keep];
    }
    assert Chain(ms, words, path) && path[0] == i && path[|path| - 1] !in removed + {drop};
  }

  // Dropping one of two duplicates in favour of the other, which stays, keeps everything represented.
  lemma DropKeepsRepresented(ms: seq<Memory>, words: string -> set<string>, removed: set<nat>, drop: nat, keep: nat)
    requires AllRepresented(ms, words, removed)
    requires drop !in removed && keep !in removed && drop != keep && Step(ms, words, drop, keep)
    ensures AllRepresented(ms, words, removed + {drop})
  {
    forall i | i in removed + {drop}
      ensures i < |ms| && Represented(ms, words, removed + {drop}, i)
    {
      RepresentedAfterDrop(ms, words, removed, drop, keep, i);
    }
  }

  // ----- who goes -----

  // The positions gone when the comparison of i and j is reached, pairs taken in the order of their first position,
  // then their second: of every pair before that was compared, both being there, and that is similar above 0.8, the
  // one that is not preferred is gone.
  ghost function Gone(ms: seq<Memory>, words: string -> set<string>, i: nat, j: nat): set<nat>
    requires i < j <= |ms|
    decreases i, j
  {
    if j > i + 1 then Gone(ms, words, i, j - 1) + Loser(ms, words, i, j - 1, Gone(ms, words, i, j - 1))
    else if i > 0 then Gone(ms, words, i - 1, |ms|)
    else {}
  }

  // Who goes when i and j are compared.
  ghost function Loser(ms: seq<Memory>, words: string -> set<string>, i: nat, j: nat, gone: set<nat>): set<nat>
    requires i < j < |ms|
  {
    if i in gone || j in gone || !Duplicates(ms, words, i, j) then {}
    else if Preferred(ms, i, j) then {j} else {i}
  }

  ghost function AllGone(ms: seq<Memory>, words: string -> set<string>): set<nat> {
    if |ms| <= 1 then {} else Gone(ms, words, |ms| - 1, |ms|)
  }

  // The comparison of a and b, both still there, makes x go.
  ghost predicate Loses(ms: seq<Memory>, words: string -> set<string>, x: nat, a: nat, b: nat) {
    && a < b < |ms| && (x == a || x == b)
    && a !in Gone(ms, words, a, b) && b !in Gone(ms, words, a, b)
    && Duplicates(ms, words, a, b) && Preferred(ms, if x == a then b else a, x)
  }

  lemma LoserExactly(ms: seq<Memory>, words: string -> set<string>, a: nat, b: nat, x: nat)
    requires a < b < |ms|
    ensures x in Loser(ms, words, a, b, Gone(ms, words, a, b)) <==> Loses(ms, words, x, a, b)
  {
  }

  // A comparison before that of i and j makes x go.
  ghost predicate LosesBefore(ms: seq<Memory>, words: string -> set<string>, x: nat, i: nat, j: nat) {
    exists a, b :: Earlier(a, b, i, j) && Loses(ms, words, x, a, b)
  }

  predicate Earlier(a: nat, b: nat, i: nat, j: nat) {
    a < i || (a == i && b < j)
  }

  lemma NextPair(ms: seq<Memory>, words: string -> set<string>, x: nat, i: nat, j: nat)
    requires i < j < |ms|
    ensures LosesBefore(ms, words, x, i, j + 1) <==> LosesBefore(ms, words, x, i, j) || Loses(ms, words, x, i, j)
  {
    hide Loses;
    if LosesBefore(ms, words, x, i, j) {
      var a: nat, b: nat :| Earlier(a, b, i, j) && Loses(ms, words, x, a, b);
      assert Earlier(a, b, i, j + 1);
    }
    assert Earlier(i, j, i, j + 1);
    if LosesBefore(ms, words, x, i, j + 1) {
      var a: nat, b: nat :| Earlier(a, b, i, j + 1) && Loses(ms, words, x, a, b);
      assert Earlier(a, b, i, j) || (a == i && b == j);
    }
  }

  lemma NextRow(ms: seq<Memory>, words: string -> set<string>, x: nat, i: nat)
    requires 0 < i < |ms|
    ensures LosesBefore(ms, words, x, i, i + 1) <==> LosesBefore(ms, words, x, i - 1, |ms|)
  {
    if LosesBefore(ms, words, x, i - 1, |ms|) {
      var a: nat, b: nat :| Earlier(a, b, i - 1, |ms|) && Loses(ms, words, x, a, b);
      assert Earlier(a, b, i, i + 1);
    }
    if LosesBefore(ms, words, x, i, i + 1) {
      var a: nat, b: nat :| Earlier(a, b, i, i + 1) && Loses(ms, words, x, a, b);
      assert Earlier(a, b, i - 1, |ms|);
    }
  }

  lemma GoneStep(ms: seq<Memory>, words: string -> set<string>, i: nat, j: nat, x: nat)
    requires i < j < |ms|
    ensures x in Gone(ms, words, i, j + 1) <==> x in Gone(ms, words, i, j) || Loses(ms, words, x, i, j)
  {
    hide Loses, Loser;
    LoserExactly(ms, words, i, j, x);
  }

  // When the comparisons of i begin, those gone are those gone by the end of the one before.
  lemma GoneRow(ms: seq<Memory>, words: string -> set<string>, i: nat)
    requires i < |ms|
    ensures Gone(ms, words, i, i + 1) == if i == 0 then {} else Gone(ms, words, i - 1, |ms|)
  {
  }

  lemma {:induction false} GoneBy(ms: seq<Memory>, words: string -> set<string>, i: nat, j: nat, x: nat)
    requires i < j <= |ms|
    ensures x in Gone(ms, words, i, j) <==> LosesBefore(ms, words, x, i, j)
    decreases i, j
  {
    hide Gone, Loses, LosesBefore;
    if j > i + 1 {
      GoneStep(ms, words, i, j - 1, x);
      GoneBy(ms, words, i, j - 1, x);
      NextPair(ms, words, x, i, j - 1);
    } else {
      GoneRow(ms, words, i);
      if i > 0 {
        GoneBy(ms, words, i - 1, |ms|, x);
        NextRow(ms, words, x, i);
      } else {
        NothingBefore(ms, words, x);
      }
    }
  }

  lemma NothingBefore(ms: seq<Memory>, words: string -> set<string>, x: nat)
    ensures !LosesBefore(ms, words, x, 0, 1)
  {
  }

  // A memory goes exactly when it is compared with one that is similar above 0.8 and preferred, both being there when
  // their turn comes.
  lemma WhoGoes(ms: seq<Memory>, words: string -> set<string>, x: nat)
    ensures x in AllGone(ms, words) <==> exists a, b :: Loses(ms, words, x, a, b)
  {
    if |ms| > 1 {
      GoneBy(ms, words, |ms| - 1, |ms|, x);
      if a: nat, b: nat :| Loses(ms, words, x, a, b) {
        assert Earlier(a, b, |ms| - 1, |ms|);
      }
    }
  }

  // Once i is gone, its other comparisons change nothing.
  lemma {:induction false} GoneSkips(ms: seq<Memory>, words: string -> set<string>, i: nat, j: nat, k: nat)
    requires i < j <= k <= |ms| && i in Gone(ms, words, i, j)
    ensures Gone(ms, words, i, k) == Gone(ms, words, i, j)
    decreases k
  {
    if j < k {
      GoneSkips(ms, words, i, j, k - 1);
    }
  }

  // The comparison of i and j drops the one that is not preferred.
  lemma GoneGrows(ms: seq<Memory>, words: string -> set<string>, i: nat, j: nat)
    requires i < j < |ms| && i !in Gone(ms, words, i, j)
    ensures Gone(ms, words, i, j + 1) == Gone(ms, words, i, j) +
              if j in Gone(ms, words, i, j) || !Duplicates(ms, words, i, j) then {}
              else if Preferred(ms, i, j) then {j} else {i}
  {
  }

  // ----- the algorithm -----

  // The memories at the kept positions, in order.
  ghost function Survivors(ms: seq<Memory>, removed: set<nat>): seq<Memory> {
    if ms == [] then []
    else Survivors(ms[..|ms| - 1], removed) + if |ms| - 1 in removed then [] else [ms[|ms| - 1]]
  }

  // i has been compared with everything in i+1..limit that is still there.
  ghost predicate Cleared(ms: seq<Memory>, words: string -> set<string>, removed: set<nat>, i: nat, limit: nat)
    requires i < |ms| && limit <= |ms|
  {
    forall j | i < j < limit && j !in removed :: !Duplicates(ms, words, i, j)
  }

  // What the deduplication promises about the removed positions.
  ghost predicate Deduplicated(ms: seq<Memory>, words: string -> set<string>, removed: set<nat>) {
    && AllRepresented(ms, words, removed)
    && forall i, j | 0 <= i < j < |ms| && i !in removed && j !in removed :: !Duplicates(ms, words, i, j)
  }

  method AreDuplicates(a: set<string>, b: set<string>) returns (duplicate: bool)
    ensures duplicate == TooSimilar(a, b)
  {
    var similarity := JaccardSimilarity(a, b);
    AboveThreshold(a, b);
    duplicate := similarity > 0.8;
  }

  // Which of two duplicates is kept.
  method Choose(ms: seq<Memory>, ghost words: string -> set<string>, i: nat, j: nat)
      returns (keepIdx: nat, dropIdx: nat)
    requires i < j < |ms| && Duplicates(ms, words, i, j)
    ensures (keepIdx, dropIdx) == (i, j) || (keepIdx, dropIdx) == (j, i)
    ensures dropIdx == if Preferred(ms, i, j) then j else i
    ensures Step(ms, words, dropIdx, keepIdx)
  {
    var a, b := ms[i], ms[j];
    if Importance(a) > Importance(b) {
      keepIdx, dropIdx := i, j;
    } else if Importance(b) > Importance(a) {
      keepIdx, dropIdx := j, i;
    } else {
      keepIdx := if a.createdAt >= b.createdAt then i else j;
      dropIdx := if keepIdx == i then j else i;
    }
  }

  // The inner loop: drops the worse of each duplicate pair and stops when that is i itself. Who has gone by its end is
  // who has gone when the comparisons of i are through.
  method CompareWithLater(ms: seq<Memory>, words: string -> set<string>, before: set<nat>, i: nat)
    returns (toRemove: set<nat>)
    requires i < |ms| && i !in before && AllRepresented(ms, words, before)
    requires before == Gone(ms, words, i, i + 1)
    ensures toRemove == Gone(ms, words, i, |ms|)
    ensures before <= toRemove && AllRepresented(ms, words, toRemove)
    ensures i !in toRemove ==> Cleared(ms, words, toRemove, i, |ms|)
  {
    hide Gone, Preferred, Represented, Step, TooSimilar;
    toRemove := before;
    var j := i + 1;
    while j < |ms|
      invariant i < j <= |ms| && i !in toRemove && before <= toRemove
      invariant AllRepresented(ms, words, toRemove) && toRemove == Gone(ms, words, i, j)
      invariant Cleared(ms, words, toRemove, i, j)
    {
      GoneGrows(ms, words, i, j);
      if j !in toRemove {
        var duplicate := AreDuplicates(words(ms[i].content), words(ms[j].content));
        if duplicate {
          var keepIdx, dropIdx := Choose(ms, words, i, j);
          DropKeepsRepresented(ms, words, toRemove, dropIdx, keepIdx);
          toRemove := toRemove + {dropIdx};
          if dropIdx == i {
            GoneSkips(ms, words, i, j + 1, |ms|);
            return;
          }
        }
      }
      j := j + 1;
    }
  }

  lemma NoneRemoved(ms: seq<Memory>)
    requires |ms| <= 1
    ensures Survivors(ms, {}) == ms
  {
    if |ms| == 1 {
      assert ms[..0] == [];
      assert Survivors([], {}) == [];
      assert [] + [ms[0]] == ms;
    }
  }

  // ----- what the result means -----

  lemma {:induction false} SurvivorPositions(ms: seq<Memory>, removed: set<nat>) returns (at: seq<nat>)
    ensures |at| == |Survivors(ms, removed)|
    ensures forall k | 0 <= k < |at| :: at[k] < |ms| && at[k] !in removed && Survivors(ms, removed)[k] == ms[at[k]]
    ensures forall k, l | 0 <= k < l < |at| :: at[k] < at[l]
    ensures forall i | 0 <= i < |ms| && i !in removed :: i in at
  {
    if ms == [] {
      at := [];
    } else {
      var last := |ms| - 1;
      at := SurvivorPositions(ms[..last], removed);
      if last !in removed {
        at := at + [last];
      }
    }
  }

  // i is linked by a chain to one of some positions.
  ghost predicate LinkedTo(ms: seq<Memory>, words: string -> set<string>, i: nat, at: seq<nat>) {
    exists path: seq<nat> :: Chain(ms, words, path) && path[0] == i && path[|path| - 1] in at
  }

  lemma LinkedToSurvivor(ms: seq<Memory>, words: string -> set<string>, removed: set<nat>, at: seq<nat>, i: nat)
    requires Deduplicated(ms, words, removed) && i < |ms| && forall k: nat | k < |ms| && k !in removed :: k in at
    ensures LinkedTo(ms, words, i, at)
  {
    if i in removed {
      var path :| Chain(ms, words, path) && path[0] == i && path[|path| - 1] !in removed;
      assert Chain(ms, words, path) && path[|path| - 1] in at;
    } else {
      var path: seq<nat> := [i];
      assert Chain(ms, words, path) && path[0] == i && path[|path| - 1] in at;
    }
  }

  // The result is the input at increasing positions; no two survivors are similar above 0.8, whichever comes
  // first; and every memory of the input is linked by a chain of duplicates, each preferred to the one
  // before, to a survivor.
  ghost predicate IsSelection(ms: seq<Memory>, words: string -> set<string>, kept: seq<Memory>, at: seq<nat>) {
    && |at| == |kept|
    && (forall k | 0 <= k < |at| :: at[k] < |ms| && kept[k] == ms[at[k]])
    && (forall k, l | 0 <= k < l < |at| :: at[k] < at[l])
    && (forall k, l | 0 <= k < |at| && 0 <= l < |at| && k != l :: !Duplicates(ms, words, at[k], at[l]))
    && (forall i | 0 <= i < |ms| :: LinkedTo(ms, words, i, at))
  }

  lemma MaximalAndBest(ms: seq<Memory>, words: string -> set<string>, removed: set<nat>) returns (at: seq<nat>)
    requires Deduplicated(ms, words, removed)
    ensures IsSelection(ms, words, Survivors(ms, removed), at)
  {
    at := SurvivorPositions(ms, removed);
    forall k, l | 0 <= k < |at| && 0 <= l < |at| && k != l
      ensures !Duplicates(ms, words, at[k], at[l])
    {
      TooSimilarSymmetric(words(ms[at[k]].content), words(ms[at[l]].content));
    }
    forall i | 0 <= i < |ms|
      ensures LinkedTo(ms, words, i, at)
    {
      LinkedToSurvivor(ms, words, removed, at, i);
    }
  }

  // Along a chain the last memory is preferred to the first.
  lemma {:induction false} ChainImproves(ms: seq<Memory>, words: string -> set<string>, path: seq<nat>)
    requires Chain(ms, words, path) && |path| > 1
    ensures Preferred(ms, path[|path| - 1], path[0])
    decreases |path|
  {
    var rest := path[1..];
    assert Step(ms, words, path[0], path[1]);
    if |path| > 2 {
      forall k | 0 <= k < |rest| - 1
        ensures Step(ms, words, rest[k], rest[k + 1])
      {
        assert Step(ms, words, path[k + 1], path[k + 2]);
      }
      ChainImproves(ms, words, rest);
    }
  }

  // The outer loop.
  method Sift(ms: seq<Memory>, words: string -> set<string>) returns (toRemove: set<nat>)
    requires |ms| > 1
    ensures Deduplicated(ms, words, toRemove) && toRemove == AllGone(ms, words)
  {
    hide Gone, Represented, Duplicates;
    toRemove := {};
    for i := 0 to |ms|
      invariant AllRepresented(ms, words, toRemove)
      invariant toRemove == if i == 0 then {} else Gone(ms, words, i - 1, |ms|)
      invariant forall a | 0 <= a < i && a !in toRemove :: Cleared(ms, words, toRemove, a, |ms|)
    {
      GoneRow(ms, words, i);
      if i !in toRemove {
        toRemove := CompareWithLater(ms, words, toRemove, i);
      } else {
        GoneSkips(ms, words, i, i + 1, |ms|);
      }
    }
  }

  method DeduplicateMemories(ms: seq<Memory>, words: string -> set<string>) returns (kept: seq<Memory>)
    ensures exists at: seq<nat> :: IsSelection(ms, words, kept, at)
    ensures kept == Survivors(ms, AllGone(ms, words))
  {
    hide IsSelection, Deduplicated;
    if |ms| <= 1 {
      NoneRemoved(ms);
      NothingToDo(ms, words);
      ghost var all := MaximalAndBest(ms, words, {});
      return ms;
    }
    var toRemove := Sift(ms, words);
    ghost var at := MaximalAndBest(ms, words, toRemove);
    kept := KeepOthers(ms, toRemove);
  }

  lemma NothingToDo(ms: seq<Memory>, words: string -> set<string>)
    requires |ms| <= 1
    ensures Deduplicated(ms, words, {})
  {
  }

  method KeepOthers(ms: seq<Memory>, toRemove: set<nat>) returns (kept: seq<Memory>)
    ensures kept == Survivors(ms, toRemove)
  {
    kept := [];
    for n := 0 to |ms|
      invariant kept == Survivors(ms[..n], toRemove)
    {
      assert ms[..n + 1][..n] == ms[..n];
      if n !in toRemove {
        kept := kept + [ms[n]];
      }
    }
    assert ms[..|ms|] == ms;
  }
}
