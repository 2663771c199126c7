/** What an LRU map means: its entries from the most to the least recently touched. */
module LruSpec {
  import opened Wrappers

  datatype Entry<K, V> = Entry(key: K, value: V)

  ghost predicate Distinct<K, V>(s: seq<Entry<K, V>>) {
    forall i, j | 0 <= i < j < |s| :: s[i].key != s[j].key
  }

  predicate Has<K(==), V>(s: seq<Entry<K, V>>, k: K) {
    exists i | 0 <= i < |s| :: s[i].key == k
  }

  function Find<K(==), V>(s: seq<Entry<K, V>>, k: K): (v: Option<V>)
    ensures v.Some? <==> Has(s, k)
  {
    if s == [] then None
    else if s[0].key == k then Some(s[0].value)
    else
      var v := Find(s[1..], k);
      assert Has(s[1..], k) <==> Has(s, k) by {
        if Has(s, k) {
          var i :| 0 <= i < |s| && s[i].key == k;
          assert s[1..][i - 1].key == k;
        }
      }
      v
  }

  function Remove<K(==), V>(s: seq<Entry<K, V>>, k: K): seq<Entry<K, V>> {
    if s == [] then []
    else if s[0].key == k then Remove(s[1..], k)
    else [s[0]] + Remove(s[1..], k)
  }

  function Touch<K(==), V>(s: seq<Entry<K, V>>, k: K, v: V): seq<Entry<K, V>> {
    [Entry(k, v)] + Remove(s, k)
  }

  function AfterGet<K(==), V>(s: seq<Entry<K, V>>, k: K): seq<Entry<K, V>> {
    match Find(s, k)
    case None => s
    case Some(v) => Touch(s, k, v)
  }

  predicate Evicts<K(==), V>(s: seq<Entry<K, V>>, k: K, cap: nat) {
    !Has(s, k) && |s| >= cap
  }

  function AfterSet<K(==), V>(s: seq<Entry<K, V>>, k: K, v: V, cap: nat): seq<Entry<K, V>> {
    var t := Touch(s, k, v);
    if Evicts(s, k, cap) then t[..|t| - 1] else t
  }

  // The key a set pushes out, if any.
  function EvictedBy<K(==), V>(s: seq<Entry<K, V>>, k: K, v: V, cap: nat): Option<K> {
    var t := Touch(s, k, v);
    if Evicts(s, k, cap) then Some(t[|t| - 1].key) else None
  }

  // ----- cutting one position out of a sequence -----

  ghost function Cut<T>(s: seq<T>, i: nat): (t: seq<T>)
    requires i < |s|
    ensures |t| == |s| - 1
  {
    seq(|s| - 1, j requires 0 <= j < |s| - 1 => s[if j < i then j else j + 1])
  }

  ghost predicate Injective<T>(s: seq<T>) {
    forall i, j | 0 <= i < j < |s| :: s[i] != s[j]
  }

  lemma CutMembers<T>(s: seq<T>, i: nat)
    requires i < |s|
    ensures forall x | x in Cut(s, i) :: x in s
    ensures forall x | x in s && x != s[i] :: x in Cut(s, i)
    ensures Injective(s) ==> s[i] !in Cut(s, i)
  {
    forall x | x in s && x != s[i]
      ensures x in Cut(s, i)
    {
      var j :| 0 <= j < |s| && s[j] == x;
      assert Cut(s, i)[if j < i then j else j - 1] == x;
    }
  }

  lemma CutSlices<T>(s: seq<T>, i: nat)
    requires i < |s|
    ensures Cut(s, i) == s[..i] + s[i + 1..]
  {
  }

  // ----- facts about Remove -----

  lemma {:induction false} RemoveGone<K, V>(s: seq<Entry<K, V>>, k: K)
    ensures !Has(Remove(s, k), k)
    ensures forall e | e in Remove(s, k) :: e in s && e.key != k
    ensures forall e | e in s && e.key != k :: e in Remove(s, k)
  {
    if s != [] {
      RemoveGone(s[1..], k);
      assert s == [s[0]] + s[1..];
    }
    forall i | 0 <= i < |Remove(s, k)|
      ensures Remove(s, k)[i].key != k
    {
      assert Remove(s, k)[i] in Remove(s, k);
    }
  }

  lemma {:induction false} RemoveAbsent<K, V>(s: seq<Entry<K, V>>, k: K)
    requires !Has(s, k)
    ensures Remove(s, k) == s
  {
    if s != [] {
      assert s[0].key != k;
      forall i | 0 <= i < |s[1..]|
        ensures s[1..][i].key != k
      {
        assert s[i + 1].key != k;
      }
      RemoveAbsent(s[1..], k);
    }
  }

  // With distinct keys, removing the key at position i cuts that position out.
  lemma {:induction false} RemoveAt<K, V>(s: seq<Entry<K, V>>, i: nat)
    requires i < |s| && Distinct(s)
    ensures Remove(s, s[i].key) == Cut(s, i) && Find(s, s[i].key) == Some(s[i].value)
  {
    if i == 0 {
      forall j | 0 <= j < |s[1..]|
        ensures s[1..][j].key != s[0].key
      {
        assert s[j + 1].key != s[0].key;
      }
      RemoveAbsent(s[1..], s[0].key);
    } else {
      var t := s[1..];
      assert t[i - 1] == s[i] && s[0].key != s[i].key;
      forall a, b | 0 <= a < b < |t|
        ensures t[a].key != t[b].key
      {
        assert s[a + 1].key != s[b + 1].key;
      }
      RemoveAt(t, i - 1);
      assert [s[0]] + Cut(t, i - 1) == Cut(s, i);
    }
  }

  lemma RemoveKeepsDistinct<K, V>(s: seq<Entry<K, V>>, k: K)
    requires Distinct(s)
    ensures Distinct(Remove(s, k)) && |Remove(s, k)| == |s| - if Has(s, k) then 1 else 0
  {
    if Has(s, k) {
      var i :| 0 <= i < |s| && s[i].key == k;
      RemoveAt(s, i);
    } else {
      RemoveAbsent(s, k);
    }
  }

  lemma TouchKeepsDistinct<K, V>(s: seq<Entry<K, V>>, k: K, v: V)
    requires Distinct(s)
    ensures Distinct(Touch(s, k, v)) && |Touch(s, k, v)| == |s| + if Has(s, k) then 0 else 1
  {
    RemoveKeepsDistinct(s, k);
    RemoveGone(s, k);
  }

  // ----- the insertion order a hash map iterates in -----

  ghost predicate NoRepeats<K>(order: seq<K>) {
    forall i, j | 0 <= i < j < |order| :: order[i] != order[j]
  }

  ghost function Members<K>(order: seq<K>): set<K> {
    set k | k in order
  }

  function Without<K(==)>(order: seq<K>, k: K): seq<K> {
    if order == [] then []
    else if order[0] == k then Without(order[1..], k)
    else [order[0]] + Without(order[1..], k)
  }

  lemma {:induction false} WithoutMembers<K>(order: seq<K>, k: K)
    ensures Members(Without(order, k)) == Members(order) - {k}
    ensures NoRepeats(order) ==> NoRepeats(Without(order, k))
  {
    if order != [] {
      var rest := Without(order[1..], k);
      assert order == [order[0]] + order[1..];
      assert Members(order) == {order[0]} + Members(order[1..]);
      assert Members([order[0]] + rest) == {order[0]} + Members(rest);
      WithoutMembers(order[1..], k);
      if NoRepeats(order) {
        assert order[0] !in order[1..];
        assert order[0] !in Members(rest);
      }
    }
  }

  // ----- traces -----

  datatype Op<K, V> = Get(key: K) | Set(key: K, value: V) | Delete(key: K) | Clear

  ghost function Step<K, V>(s: seq<Entry<K, V>>, op: Op<K, V>, cap: nat): seq<Entry<K, V>> {
    match op
    case Get(k) => AfterGet(s, k)
    case Set(k, v) => AfterSet(s, k, v, cap)
    case Delete(k) => Remove(s, k)
    case Clear => []
  }

  // The recency list after a trace, starting empty.
  ghost function Run<K, V>(ops: seq<Op<K, V>>, cap: nat): seq<Entry<K, V>> {
    if ops == [] then []
    else Step(Run(ops[..|ops| - 1], cap), ops[|ops| - 1], cap)
  }

  lemma StepKeeps<K, V>(s: seq<Entry<K, V>>, op: Op<K, V>, cap: nat)
    requires Distinct(s) && |s| <= cap
    ensures Distinct(Step(s, op, cap)) && |Step(s, op, cap)| <= cap
  {
    match op
    case Get(k) => if Has(s, k) { TouchKeepsDistinct(s, k, Find(s, k).value); }
    case Set(k, v) => TouchKeepsDistinct(s, k, v);
    case Delete(k) => RemoveKeepsDistinct(s, k);
    case Clear =>
  }

  lemma {:induction false} RunKeeps<K, V>(ops: seq<Op<K, V>>, cap: nat)
    ensures Distinct(Run(ops, cap)) && |Run(ops, cap)| <= cap
  {
    if ops != [] {
      RunKeeps(ops[..|ops| - 1], cap);
      StepKeeps(Run(ops[..|ops| - 1], cap), ops[|ops| - 1], cap);
    }
  }

  // ----- least recently touched -----

  // The key an operation touches: every set, and every get that hits.
  ghost function TouchOf<K, V>(s: seq<Entry<K, V>>, op: Op<K, V>): seq<K> {
    if op.Set? || (op.Get? && Has(s, op.key)) then [op.key] else []
  }

  // The keys touched by a trace, in order.
  ghost function Touched<K, V>(ops: seq<Op<K, V>>, cap: nat): seq<K> {
    if ops == [] then []
    else
      var before := ops[..|ops| - 1];
      Touched(before, cap) + TouchOf(Run(before, cap), ops[|ops| - 1])
  }

  ghost function LastIndex<K>(h: seq<K>, k: K): (i: int)
    ensures -1 <= i < |h|
    ensures i >= 0 ==> h[i] == k
    ensures forall j | i < j < |h| :: h[j] != k
  {
    if h == [] then -1
    else if h[|h| - 1] == k then |h| - 1
    else LastIndex(h[..|h| - 1], k)
  }

  ghost predicate OrderedByTouch<K, V>(s: seq<Entry<K, V>>, h: seq<K>) {
    && (forall i | 0 <= i < |s| :: LastIndex(h, s[i].key) >= 0)
    && (forall i, j | 0 <= i < j < |s| :: LastIndex(h, s[i].key) > LastIndex(h, s[j].key))
  }

  lemma TouchReorders<K, V>(s: seq<Entry<K, V>>, h: seq<K>, k: K, v: V)
    requires Distinct(s) && OrderedByTouch(s, h)
    ensures OrderedByTouch(Touch(s, k, v), h + [k])
  {
    RemoveOrdered(s, h, k);
    var r := Remove(s, k);
    RemoveGone(s, k);
    var h' := h + [k];
    assert LastIndex(h', k) == |h|;
    forall i | 0 <= i < |r|
      ensures LastIndex(h', r[i].key) == LastIndex(h, r[i].key)
    {
      assert r[i].key != k;
      assert h'[..|h|] == h;
    }
  }

  lemma RemoveOrdered<K, V>(s: seq<Entry<K, V>>, h: seq<K>, k: K)
    requires Distinct(s) && OrderedByTouch(s, h)
    ensures OrderedByTouch(Remove(s, k), h)
  {
    if Has(s, k) {
      var i :| 0 <= i < |s| && s[i].key == k;
      RemoveAt(s, i);
      CutOrdered(s, h, i);
    } else {
      RemoveAbsent(s, k);
    }
  }

  lemma CutOrdered<K, V>(s: seq<Entry<K, V>>, h: seq<K>, i: nat)
    requires i < |s| && OrderedByTouch(s, h)
    ensures OrderedByTouch(Cut(s, i), h)
  {
  }

  lemma StepOrdered<K, V>(s: seq<Entry<K, V>>, h: seq<K>, op: Op<K, V>, cap: nat)
    requires Distinct(s) && OrderedByTouch(s, h)
    ensures OrderedByTouch(Step(s, op, cap), h + TouchOf(s, op))
  {
    match op
    case Get(k) =>
      if Has(s, k) {
        TouchReorders(s, h, k, Find(s, k).value);
      } else {
        assert h + TouchOf(s, op) == h;
      }
    case Set(k, v) =>
      TouchReorders(s, h, k, v);
      OrderedPrefix(Touch(s, k, v), h + [k]);
    case Delete(k) =>
      RemoveOrdered(s, h, k);
      assert h + TouchOf(s, op) == h;
    case Clear =>
  }

  lemma OrderedPrefix<K, V>(s: seq<Entry<K, V>>, h: seq<K>)
    requires OrderedByTouch(s, h) && s != []
    ensures OrderedByTouch(s[..|s| - 1], h)
  {
  }

  // The recency list is ordered by last touch, latest first.
  lemma {:induction false} RecencyIsLastTouch<K, V>(ops: seq<Op<K, V>>, cap: nat)
    ensures OrderedByTouch(Run(ops, cap), Touched(ops, cap))
  {
    if ops != [] {
      var before := ops[..|ops| - 1];
      RecencyIsLastTouch(before, cap);
      RunKeeps(before, cap);
      StepOrdered(Run(before, cap), Touched(before, cap), ops[|ops| - 1], cap);
    }
  }

  lemma LastIsOldest<K, V>(s: seq<Entry<K, V>>, h: seq<K>, e: Entry<K, V>)
    requires OrderedByTouch(s, h) && e in s && e != s[|s| - 1]
    ensures LastIndex(h, s[|s| - 1].key) < LastIndex(h, e.key)
  {
    var i :| 0 <= i < |s| && s[i] == e;
  }

  // An eviction drops exactly one entry, the one whose last touch is the oldest.
  lemma EvictsLeastRecentlyTouched<K, V>(ops: seq<Op<K, V>>, cap: nat, k: K, v: V)
    requires cap >= 1 && Evicts(Run(ops, cap), k, cap)
    ensures var s := Run(ops, cap);
            AfterSet(s, k, v, cap) == [Entry(k, v)] + s[..|s| - 1] &&
            forall e | e in s && e != s[|s| - 1] ::
              LastIndex(Touched(ops, cap), s[|s| - 1].key) < LastIndex(Touched(ops, cap), e.key)
  {
    var s := Run(ops, cap);
    RunKeeps(ops, cap);
    RecencyIsLastTouch(ops, cap);
    RemoveAbsent(s, k);
    assert ([Entry(k, v)] + s)[..|s|] == [Entry(k, v)] + s[..|s| - 1];
    forall e | e in s && e != s[|s| - 1]
      ensures LastIndex(Touched(ops, cap), s[|s| - 1].key) < LastIndex(Touched(ops, cap), e.key)
    {
      LastIsOldest(s, Touched(ops, cap), e);
    }
  }

  // ----- inclusion -----

  ghost predicate Subsequence<T>(a: seq<T>, b: seq<T>) {
    if a == [] then true
    else if b == [] then false
    else (a[0] == b[0] && Subsequence(a[1..], b[1..])) || Subsequence(a, b[1..])
  }

  lemma {:induction false} SubsequenceMember<T>(a: seq<T>, b: seq<T>)
    requires Subsequence(a, b)
    ensures |a| <= |b| && forall x | x in a :: x in b
    decreases |b|
  {
    if a != [] {
      assert a == [a[0]] + a[1..] && b == [b[0]] + b[1..];
      if a[0] == b[0] && Subsequence(a[1..], b[1..]) {
        SubsequenceMember(a[1..], b[1..]);
      } else {
        SubsequenceMember(a, b[1..]);
      }
    }
  }

  lemma {:induction false} SubsequenceRemove<K, V>(a: seq<Entry<K, V>>, b: seq<Entry<K, V>>, k: K)
    requires Subsequence(a, b)
    ensures Subsequence(Remove(a, k), Remove(b, k))
    decreases |b|
  {
    if a != [] {
      if a[0] == b[0] && Subsequence(a[1..], b[1..]) {
        SubsequenceRemove(a[1..], b[1..], k);
      } else {
        SubsequenceRemove(a, b[1..], k);
        SubsequenceCons(Remove(a, k), Remove(b[1..], k), b[0]);
      }
    }
  }

  lemma SubsequenceCons<T>(a: seq<T>, b: seq<T>, x: T)
    requires Subsequence(a, b)
    ensures Subsequence(a, [x] + b) && Subsequence([x] + a, [x] + b)
  {
    assert ([x] + b)[1..] == b && ([x] + a)[1..] == a;
  }

  lemma {:induction false} SubsequenceTransitive<T>(a: seq<T>, b: seq<T>, c: seq<T>)
    requires Subsequence(a, b) && Subsequence(b, c)
    ensures Subsequence(a, c)
    decreases |c|
  {
    if a != [] && b != [] {
      if b[0] == c[0] && Subsequence(b[1..], c[1..]) {
        if a[0] == b[0] && Subsequence(a[1..], b[1..]) {
          SubsequenceTransitive(a[1..], b[1..], c[1..]);
        } else {
          SubsequenceTransitive(a, b[1..], c[1..]);
        }
      } else {
        SubsequenceTransitive(a, b, c[1..]);
      }
    }
  }

  lemma {:induction false} SubsequencePrefix<T>(a: seq<T>, n: nat)
    requires n <= |a|
    ensures Subsequence(a[..n], a)
    decreases n
  {
    if n > 0 {
      assert a[..n][1..] == a[1..][..n - 1];
      SubsequencePrefix(a[1..], n - 1);
    }
  }

  lemma {:induction false} SubsequenceDropLast<T>(a: seq<T>, b: seq<T>)
    requires Subsequence(a, b) && a != [] && b != []
    ensures Subsequence(a[..|a| - 1], b[..|b| - 1])
    decreases |b|
  {
    var a', b' := a[..|a| - 1], b[..|b| - 1];
    if |a| > 1 {
      assert a'[0] == a[0];
      SubsequenceMember(a, b);
      assert a'[1..] == a[1..][..|a| - 2] && b'[1..] == b[1..][..|b| - 2] && b'[0] == b[0];
      if a[0] == b[0] && Subsequence(a[1..], b[1..]) {
        SubsequenceDropLast(a[1..], b[1..]);
      } else {
        SubsequenceDropLast(a, b[1..]);
      }
    }
  }

  ghost predicate Included<K, V>(small: seq<Entry<K, V>>, large: seq<Entry<K, V>>, slack: nat) {
    Subsequence(small, large) && |large| <= |small| + slack
  }

  lemma IncludedFind<K, V>(a: seq<Entry<K, V>>, b: seq<Entry<K, V>>, k: K)
    requires Subsequence(a, b) && Distinct(b) && Has(a, k)
    ensures Find(a, k).Some? && Find(b, k) == Find(a, k)
  {
    FindMember(a, k);
    SubsequenceMember(a, b);
    var i :| 0 <= i < |b| && b[i] == Entry(k, Find(a, k).value);
    RemoveAt(b, i);
  }

  lemma {:induction false} FindMember<K, V>(s: seq<Entry<K, V>>, k: K)
    requires Has(s, k)
    ensures Find(s, k).Some? && Entry(k, Find(s, k).value) in s
  {
    if s[0].key != k {
      FindMember(s[1..], k);
    }
  }

  lemma IncludedGet<K, V>(a: seq<Entry<K, V>>, b: seq<Entry<K, V>>, k: K, slack: nat)
    requires Included(a, b, slack) && Distinct(a) && Distinct(b)
    ensures Included(AfterGet(a, k), AfterGet(b, k), slack)
  {
    if Has(b, k) {
      var v := Find(b, k).value;
      SubsequenceRemove(a, b, k);
      SubsequenceCons(Remove(a, k), Remove(b, k), Entry(k, v));
      TouchKeepsDistinct(a, k, v);
      TouchKeepsDistinct(b, k, v);
      if Has(a, k) {
        IncludedFind(a, b, k);
      } else {
        RemoveAbsent(a, k);
      }
    } else if Has(a, k) {
      IncludedFind(a, b, k);
    }
  }

  lemma IncludedSet<K, V>(a: seq<Entry<K, V>>, b: seq<Entry<K, V>>, k: K, v: V, capA: nat, capB: nat)
    requires capA <= capB && Included(a, b, capB - capA) && Distinct(a) && Distinct(b) && |a| <= capA && |b| <= capB
    ensures Included(AfterSet(a, k, v, capA), AfterSet(b, k, v, capB), capB - capA)
  {
    var ta, tb := Touch(a, k, v), Touch(b, k, v);
    SubsequenceRemove(a, b, k);
    SubsequenceCons(Remove(a, k), Remove(b, k), Entry(k, v));
    TouchKeepsDistinct(a, k, v);
    TouchKeepsDistinct(b, k, v);
    if Has(a, k) {
      IncludedFind(a, b, k);
    }
    if Evicts(b, k, capB) {
      SubsequenceDropLast(ta, tb);
    } else if Evicts(a, k, capA) {
      SubsequencePrefix(ta, |ta| - 1);
      SubsequenceTransitive(ta[..|ta| - 1], ta, tb);
    }
  }

  lemma IncludedDelete<K, V>(a: seq<Entry<K, V>>, b: seq<Entry<K, V>>, k: K, slack: nat)
    requires Included(a, b, slack) && Distinct(a) && Distinct(b)
    ensures Included(Remove(a, k), Remove(b, k), slack)
  {
    SubsequenceRemove(a, b, k);
    RemoveKeepsDistinct(a, k);
    RemoveKeepsDistinct(b, k);
    if Has(a, k) {
      IncludedFind(a, b, k);
    }
  }

  lemma {:induction false} InclusionFrom<K, V>(ops: seq<Op<K, V>>, k: nat, m: nat)
    requires k <= m
    ensures Included(Run(ops, k), Run(ops, m), m - k)
  {
    if ops != [] {
      var before, op := ops[..|ops| - 1], ops[|ops| - 1];
      var a, b := Run(before, k), Run(before, m);
      InclusionFrom(before, k, m);
      RunKeeps(before, k);
      RunKeeps(before, m);
      match op
      case Get(x) => IncludedGet(a, b, x, m - k);
      case Set(x, v) => IncludedSet(a, b, x, v, k, m);
      case Delete(x) => IncludedDelete(a, b, x, m - k);
      case Clear =>
    }
  }

  // After any trace the smaller cache's recency list is a subsequence of the larger one's, so whatever the
  // smaller cache answers the larger one answers with the same value.
  lemma LruInclusion<K, V>(ops: seq<Op<K, V>>, k: nat, m: nat, key: K)
    requires k <= m
    ensures Subsequence(Run(ops, k), Run(ops, m))
    ensures Has(Run(ops, k), key) ==> Find(Run(ops, m), key) == Find(Run(ops, k), key)
  {
    InclusionFrom(ops, k, m);
    RunKeeps(ops, m);
    if Has(Run(ops, k), key) {
      IncludedFind(Run(ops, k), Run(ops, m), key);
    }
  }
}
