/** Entries of the response cache: lifetimes, byte sums and removal of several keys at once. */
module CacheSpec {
  import opened Wrappers
  import opened LruSpec

  datatype Message = Message(role: string, content: string, rest: string)

  datatype Response = Response(content: string, tokensIn: nat, tokensOut: nat, modelId: string)

  // Digests are injective, so a digest is modelled by what it digests.
  datatype ExactKey = ExactKey(model: string, messages: seq<Message>, parameters: string)
  datatype ContextKey = ContextKey(model: string, parameters: string, route: string, instructions: seq<Message>)
  datatype SemanticKey = SemanticKey(context: ContextKey, text: string)

  // A cached response; tag is what a tier keeps besides.
  datatype Stored<+P> = Stored(response: Response, createdAt: int, expiresAt: int, bytes: nat, tag: P)

  predicate Expired<P>(e: Stored<P>, now: int) {
    now > e.expiresAt
  }

  // ----- bytes -----

  ghost function Bytes<K, P>(s: seq<Entry<K, Stored<P>>>): nat {
    if s == [] then 0 else s[0].value.bytes + Bytes(s[1..])
  }

  ghost function BytesAt<K, P>(s: seq<Entry<K, Stored<P>>>, k: K): nat {
    match Find(s, k)
    case None => 0
    case Some(e) => e.bytes
  }

  lemma {:induction false} RemoveBytes<K, P>(s: seq<Entry<K, Stored<P>>>, k: K)
    requires Distinct(s)
    ensures Bytes(Remove(s, k)) == Bytes(s) - BytesAt(s, k)
  {
    if s != [] {
      DistinctTail(s);
      if s[0].key == k {
        RemoveAt(s, 0);
        assert Cut(s, 0) == s[1..];
      } else {
        RemoveBytes(s[1..], k);
        assert ([s[0]] + Remove(s[1..], k))[1..] == Remove(s[1..], k);
      }
    }
  }

  lemma DistinctTail<K, V>(s: seq<Entry<K, V>>)
    requires Distinct(s) && s != []
    ensures Distinct(s[1..])
  {
    forall i, j | 0 <= i < j < |s[1..]|
      ensures s[1..][i].key != s[1..][j].key
    {
      assert s[i + 1].key != s[j + 1].key;
    }
  }

  lemma TouchBytes<K, P>(s: seq<Entry<K, Stored<P>>>, k: K, v: Stored<P>)
    requires Distinct(s)
    ensures Bytes(Touch(s, k, v)) == Bytes(s) - BytesAt(s, k) + v.bytes
  {
    RemoveBytes(s, k);
    assert Touch(s, k, v)[1..] == Remove(s, k);
  }

  lemma {:induction false} DropLastBytes<K, P>(s: seq<Entry<K, Stored<P>>>)
    requires s != []
    ensures Bytes(s[..|s| - 1]) == Bytes(s) - s[|s| - 1].value.bytes
  {
    if |s| > 1 {
      DropLastBytes(s[1..]);
      assert s[..|s| - 1][1..] == s[1..][..|s| - 2];
    }
  }

  lemma {:induction false} MemberBytes<K, P>(s: seq<Entry<K, Stored<P>>>, k: K)
    ensures BytesAt(s, k) <= Bytes(s)
  {
    if s != [] {
      MemberBytes(s[1..], k);
    }
  }

  // The accounting of one set: what leaves (an eviction), what is overwritten, what comes in.
  lemma SetBytes<K, P>(s: seq<Entry<K, Stored<P>>>, k: K, v: Stored<P>, cap: nat)
    requires Distinct(s) && |s| <= cap && cap >= 1
    ensures var out := if Evicts(s, k, cap) then s[|s| - 1].value.bytes else 0;
            Bytes(AfterSet(s, k, v, cap)) == Bytes(s) - BytesAt(s, k) - out + v.bytes &&
            out <= Bytes(s)
    ensures Evicts(s, k, cap) ==> EvictedBy(s, k, v, cap) == Some(s[|s| - 1].key) && s[|s| - 1].key != k
    ensures !Evicts(s, k, cap) ==> EvictedBy(s, k, v, cap) == None
  {
    TouchBytes(s, k, v);
    if Evicts(s, k, cap) {
      RemoveAbsent(s, k);
      var t := Touch(s, k, v);
      DropLastBytes(t);
      DropLastBytes(s);
      assert t[|t| - 1] == s[|s| - 1];
    }
  }

  // ----- membership -----

  lemma {:induction false} FindIffMember<K, V>(s: seq<Entry<K, V>>, k: K, v: V)
    requires Distinct(s)
    ensures Find(s, k) == Some(v) <==> Entry(k, v) in s
  {
    if Entry(k, v) in s {
      var i :| 0 <= i < |s| && s[i] == Entry(k, v);
      RemoveAt(s, i);
    }
    if Find(s, k) == Some(v) {
      FindMember(s, k);
    }
  }

  lemma TouchMembers<K, V>(s: seq<Entry<K, V>>, k: K, v: V)
    ensures Entry(k, v) in Touch(s, k, v)
    ensures forall e | e in Touch(s, k, v) :: e == Entry(k, v) || (e in s && e.key != k)
    ensures forall e | e in s && e.key != k :: e in Touch(s, k, v)
  {
    RemoveGone(s, k);
  }

  lemma GetMembers<K, V>(s: seq<Entry<K, V>>, k: K)
    requires Distinct(s)
    ensures forall e | e in AfterGet(s, k) :: e in s
    ensures forall e | e in s :: e in AfterGet(s, k)
  {
    if Has(s, k) {
      var v := Find(s, k).value;
      TouchMembers(s, k, v);
      FindIffMember(s, k, v);
      forall e | e in s && e.key == k
        ensures e == Entry(k, v)
      {
        FindIffMember(s, k, e.value);
      }
    }
  }

  lemma SetMembers<K, V>(s: seq<Entry<K, V>>, k: K, v: V, cap: nat)
    requires Distinct(s) && |s| <= cap && cap >= 1
    ensures Entry(k, v) in AfterSet(s, k, v, cap)
    ensures forall e | e in AfterSet(s, k, v, cap) :: e == Entry(k, v) || (e in s && e.key != k)
  {
    var t, t' := Touch(s, k, v), AfterSet(s, k, v, cap);
    TouchMembers(s, k, v);
    TouchKeepsDistinct(s, k, v);
    assert t' == t || t' == t[..|t| - 1];
    assert t'[0] == t[0] == Entry(k, v);
  }

  // ----- removing several keys -----

  ghost function RemoveAll<K, V>(s: seq<Entry<K, V>>, ks: set<K>): seq<Entry<K, V>> {
    if s == [] then []
    else if s[0].key in ks then RemoveAll(s[1..], ks)
    else [s[0]] + RemoveAll(s[1..], ks)
  }

  lemma {:induction false} RemoveAllMembers<K, V>(s: seq<Entry<K, V>>, ks: set<K>)
    ensures forall e | e in RemoveAll(s, ks) :: e in s && e.key !in ks
    ensures forall e | e in s && e.key !in ks :: e in RemoveAll(s, ks)
  {
    if s != [] {
      RemoveAllMembers(s[1..], ks);
      assert s == [s[0]] + s[1..];
    }
  }

  lemma {:induction false} RemoveAllNone<K, V>(s: seq<Entry<K, V>>)
    ensures RemoveAll(s, {}) == s
  {
    if s != [] {
      RemoveAllNone(s[1..]);
    }
  }

  lemma {:induction false} RemoveAllOneMore<K, V>(s: seq<Entry<K, V>>, ks: set<K>, k: K)
    ensures Remove(RemoveAll(s, ks), k) == RemoveAll(s, ks + {k})
  {
    if s != [] {
      RemoveAllOneMore(s[1..], ks, k);
    }
  }

  lemma {:induction false} RemoveAllKeeps<K, V>(s: seq<Entry<K, V>>, ks: set<K>, k: K)
    requires k !in ks
    ensures Find(RemoveAll(s, ks), k) == Find(s, k)
  {
    if s != [] {
      RemoveAllKeeps(s[1..], ks, k);
    }
  }

  lemma {:induction false} RemoveAllDistinct<K, V>(s: seq<Entry<K, V>>, ks: set<K>)
    requires Distinct(s)
    ensures Distinct(RemoveAll(s, ks)) && |RemoveAll(s, ks)| <= |s|
  {
    if s != [] {
      DistinctTail(s);
      RemoveAllDistinct(s[1..], ks);
      RemoveAllMembers(s[1..], ks);
      var rest := RemoveAll(s[1..], ks);
      forall i | 0 <= i < |rest|
        ensures rest[i].key != s[0].key
      {
        assert rest[i] in rest;
        var j :| 0 <= j < |s[1..]| && s[1..][j] == rest[i];
        assert s[j + 1].key != s[0].key;
      }
    }
  }
}
