/** What a request to the cache is filed under, and which requests bypass the cache (server/cacheEngine.ts). */
module CacheRequests {
  import opened Wrappers
  import opened CacheSpec

  datatype Request = Request(model: string, messages: seq<Message>, parameters: string, route: string, streaming: bool)

  // ----- keys -----

  function JoinContents(messages: seq<Message>): string {
    if messages == [] then ""
    else if |messages| == 1 then messages[0].content
    else messages[0].content + " " + JoinContents(messages[1..])
  }

  function Instructions(messages: seq<Message>): seq<Message> {
    if messages == [] then []
    else if messages[0].role != "user" then [messages[0]] + Instructions(messages[1..])
    else Instructions(messages[1..])
  }

  function ExactKeyOf(r: Request): ExactKey {
    ExactKey(r.model, r.messages, r.parameters)
  }

  function ContextKeyOf(r: Request): ContextKey {
    ContextKey(r.model, r.parameters, r.route, Instructions(r.messages))
  }

  function SemanticKeyOf(r: Request): SemanticKey {
    SemanticKey(ContextKeyOf(r), JoinContents(r.messages))
  }

  // The same call of a model: route and streaming do not matter.
  ghost predicate SameCall(r: Request, s: Request) {
    r.model == s.model && r.messages == s.messages && r.parameters == s.parameters
  }

  // Where the messages are that do not come from the user.
  ghost function NonUser(messages: seq<Message>): (at: seq<nat>)
    ensures forall k | 0 <= k < |at| :: at[k] < |messages| && messages[at[k]].role != "user"
    ensures forall k, l | 0 <= k < l < |at| :: at[k] < at[l]
    ensures forall i | 0 <= i < |messages| && messages[i].role != "user" :: i in at
  {
    if messages == [] then []
    else
      var last := |messages| - 1;
      NonUser(messages[..last]) + if messages[last].role != "user" then [last] else []
  }

  // Both have the same messages that do not come from the user, in the same order.
  ghost predicate SameInstructions(a: seq<Message>, b: seq<Message>) {
    var p, q := NonUser(a), NonUser(b);
    |p| == |q| && forall k | 0 <= k < |p| :: a[p[k]] == b[q[k]]
  }

  ghost predicate SameContext(r: Request, s: Request) {
    r.model == s.model && r.parameters == s.parameters && r.route == s.route &&
    SameInstructions(r.messages, s.messages)
  }

  // The same text under the same instructions.
  ghost predicate SameQuestion(r: Request, s: Request) {
    SameContext(r, s) && JoinContents(r.messages) == JoinContents(s.messages)
  }

  lemma {:induction false} InstructionsAppend(messages: seq<Message>, m: Message)
    ensures Instructions(messages + [m]) == Instructions(messages) + if m.role != "user" then [m] else []
  {
    if messages == [] {
      assert [] + [m] == [m] && [m][1..] == [];
    } else {
      assert (messages + [m])[1..] == messages[1..] + [m];
      InstructionsAppend(messages[1..], m);
    }
  }

  lemma {:induction false} InstructionsAt(messages: seq<Message>)
    ensures var at := NonUser(messages);
            |Instructions(messages)| == |at| &&
            forall k | 0 <= k < |at| :: Instructions(messages)[k] == messages[at[k]]
  {
    if messages != [] {
      var before, m := messages[..|messages| - 1], messages[|messages| - 1];
      InstructionsAt(before);
      InstructionsAppend(before, m);
      assert messages == before + [m];
    }
  }

  // Two requests share a key of the exact tier exactly when model, messages and parameters agree, a context of the
  // semantic tier exactly when model, parameters, route and all messages not from the user agree, and an entry of that
  // tier when their texts agree as well.
  lemma KeysExactly(r: Request, s: Request)
    ensures ExactKeyOf(r) == ExactKeyOf(s) <==> SameCall(r, s)
    ensures ContextKeyOf(r) == ContextKeyOf(s) <==> SameContext(r, s)
    ensures SemanticKeyOf(r) == SemanticKeyOf(s) <==> SameQuestion(r, s)
  {
    InstructionsAt(r.messages);
    InstructionsAt(s.messages);
  }

  // The text of a conversation is the texts of its parts with a space between them.
  lemma {:induction false} TextOfParts(a: seq<Message>, b: seq<Message>)
    requires a != [] && b != []
    ensures JoinContents(a + b) == JoinContents(a) + " " + JoinContents(b)
    decreases |a|
  {
    assert (a + b)[1..] == a[1..] + b;
    if |a| > 1 {
      TextOfParts(a[1..], b);
    }
  }

  // ----- bypasses -----

  datatype Policy = Policy(ttlMs: Option<int>, enabled: Option<bool>, bypassOnStreaming: bool, neverCache: bool,
                           bypassKeywords: seq<string>)

  // Policies in the order in which their routes were first registered.
  type Policies = seq<(string, Policy)>

  function Registered(policies: Policies, route: string, policy: Policy): Policies {
    if policies == [] then [(route, policy)]
    else if policies[0].0 == route then [(route, policy)] + policies[1..]
    else [policies[0]] + Registered(policies[1..], route, policy)
  }

  predicate Includes(text: string, word: string) {
    word <= text || (text != "" && Includes(text[1..], word))
  }

  function Lookup(policies: Policies, route: string): Option<Policy> {
    if policies == [] then None
    else if policies[0].0 == route then Some(policies[0].1)
    else Lookup(policies[1..], route)
  }

  function PrefixLookup(policies: Policies, route: string): Option<Policy> {
    if policies == [] then None
    else if policies[0].0 <= route then Some(policies[0].1)
    else PrefixLookup(policies[1..], route)
  }

  // A policy registered for the route itself wins over the first one registered for a prefix of it.
  function ResolvePolicy(policies: Policies, route: string): Option<Policy> {
    if route == "" then None
    else if Lookup(policies, route).Some? then Lookup(policies, route)
    else PrefixLookup(policies, route)
  }

  predicate Allowed(policies: Policies, r: Request, text: string, asksForFresh: bool) {
    var policy := ResolvePolicy(policies, r.route);
    && !r.streaming
    && (policy.Some? ==>
          && !policy.value.neverCache
          && !(policy.value.bypassOnStreaming && r.streaming)
          && policy.value.enabled != Some(false)
          && !exists w | w in policy.value.bypassKeywords :: Includes(text, w))
    && !asksForFresh
  }

  function Lifetime(policies: Policies, route: string, defaultTTLMs: int, globalTTLMs: int): int {
    var policy := ResolvePolicy(policies, route);
    var wanted := if policy.Some? && policy.value.ttlMs.Some? then policy.value.ttlMs.value else defaultTTLMs;
    Least(wanted, globalTTLMs)
  }

  function Least(a: int, b: int): (m: int)
    ensures m <= a && m <= b && (m == a || m == b)
  {
    if a < b then a else b
  }

  ghost predicate DistinctRoutes(policies: Policies) {
    forall i, j | 0 <= i < j < |policies| :: policies[i].0 != policies[j].0
  }

  // The policy at i is the one for the route: it was registered for the route itself, or, if none was, it is the first
  // that was registered for a prefix of it. The empty route has none.
  ghost predicate Governs(policies: Policies, route: string, i: int) {
    && route != "" && 0 <= i < |policies|
    && (policies[i].0 == route ||
        (policies[i].0 <= route && (forall k | 0 <= k < |policies| :: policies[k].0 != route) &&
         forall k | 0 <= k < i :: !(policies[k].0 <= route)))
  }

  lemma {:induction false} LookupAt(policies: Policies, route: string)
    ensures if exists i | 0 <= i < |policies| :: policies[i].0 == route
            then exists i | 0 <= i < |policies| ::
                   policies[i].0 == route && Lookup(policies, route) == Some(policies[i].1)
            else Lookup(policies, route) == None
  {
    if policies != [] && policies[0].0 != route {
      LookupAt(policies[1..], route);
      assert forall i | 0 < i < |policies| :: policies[i] == policies[1..][i - 1];
    }
  }

  lemma {:induction false} PrefixLookupAt(policies: Policies, route: string)
    ensures if exists i | 0 <= i < |policies| :: policies[i].0 <= route
            then exists i | 0 <= i < |policies| ::
                   policies[i].0 <= route && (forall k | 0 <= k < i :: !(policies[k].0 <= route)) &&
                   PrefixLookup(policies, route) == Some(policies[i].1)
            else PrefixLookup(policies, route) == None
  {
    if policies != [] && !(policies[0].0 <= route) {
      PrefixLookupAt(policies[1..], route);
      assert forall i | 0 < i < |policies| :: policies[i] == policies[1..][i - 1];
    }
  }

  lemma GoverningIsResolved(policies: Policies, route: string, i: int)
    requires DistinctRoutes(policies) && Governs(policies, route, i)
    ensures ResolvePolicy(policies, route) == Some(policies[i].1)
  {
    LookupAt(policies, route);
    PrefixLookupAt(policies, route);
    if policies[i].0 == route {
      var k :| 0 <= k < |policies| && policies[k].0 == route && Lookup(policies, route) == Some(policies[k].1);
      assert k == i;
    } else {
      var k :| 0 <= k < |policies| && policies[k].0 <= route && (forall l | 0 <= l < k :: !(policies[l].0 <= route)) &&
        PrefixLookup(policies, route) == Some(policies[k].1);
      assert k == i;
    }
  }

  // The resolved policy is the one that governs the route; there is none exactly when none governs it.
  lemma PolicyExactly(policies: Policies, route: string)
    requires DistinctRoutes(policies)
    ensures forall i :: Governs(policies, route, i) ==> ResolvePolicy(policies, route) == Some(policies[i].1)
    ensures ResolvePolicy(policies, route).Some? <==> exists i :: Governs(policies, route, i)
  {
    forall i | Governs(policies, route, i)
      ensures ResolvePolicy(policies, route) == Some(policies[i].1)
    {
      GoverningIsResolved(policies, route, i);
    }
    LookupAt(policies, route);
    PrefixLookupAt(policies, route);
    if ResolvePolicy(policies, route).Some? {
      SomethingGoverns(policies, route);
    }
  }

  lemma SomethingGoverns(policies: Policies, route: string)
    requires route != "" && exists i | 0 <= i < |policies| :: policies[i].0 <= route
    ensures exists i :: Governs(policies, route, i)
  {
    if i :| 0 <= i < |policies| && policies[i].0 == route {
      assert Governs(policies, route, i);
    } else {
      PrefixLookupAt(policies, route);
      var i :| 0 <= i < |policies| && policies[i].0 <= route && forall k | 0 <= k < i :: !(policies[k].0 <= route);
      assert Governs(policies, route, i);
    }
  }

  lemma {:induction false} IncludesAt(text: string, word: string)
    ensures Includes(text, word) <==> exists k | 0 <= k <= |text| :: word <= text[k..]
  {
    if text == "" {
      assert text[0..] == text;
    } else {
      IncludesAt(text[1..], word);
      assert text[0..] == text;
      assert forall k | 0 < k <= |text| :: text[k..] == text[1..][k - 1..];
    }
  }

  ghost predicate Mentions(text: string, words: seq<string>) {
    exists w, k | w in words && 0 <= k <= |text| :: w <= text[k..]
  }

  // A request goes past the cache exactly when it streams, when its user asks for fresh answers, or when the policy
  // that governs its route is switched off, forbids caching or lists a word the text contains.
  lemma BypassExactly(policies: Policies, r: Request, text: string, asksForFresh: bool)
    requires DistinctRoutes(policies)
    ensures !Allowed(policies, r, text, asksForFresh) <==>
            || r.streaming || asksForFresh
            || exists i | Governs(policies, r.route, i) ::
                 var p := policies[i].1;
                 p.neverCache || p.enabled == Some(false) || Mentions(text, p.bypassKeywords)
  {
    PolicyExactly(policies, r.route);
    forall w: string
      ensures Includes(text, w) <==> exists k | 0 <= k <= |text| :: w <= text[k..]
    {
      IncludesAt(text, w);
    }
  }

  // An entry lives as long as the policy of its route says, or the default without one that does, but never longer than
  // the global lifetime.
  lemma LifetimeExactly(policies: Policies, route: string, defaultTTLMs: int, globalTTLMs: int)
    requires DistinctRoutes(policies)
    ensures var ms := Lifetime(policies, route, defaultTTLMs, globalTTLMs);
            && (forall i | Governs(policies, route, i) && policies[i].1.ttlMs.Some? ::
                  ms == Least(policies[i].1.ttlMs.value, globalTTLMs))
            && ((forall i | Governs(policies, route, i) :: policies[i].1.ttlMs.None?) ==>
                  ms == Least(defaultTTLMs, globalTTLMs))
  {
    PolicyExactly(policies, route);
  }

  // Registering replaces the policy of the route where it stands, or adds one at the end.
  lemma {:induction false} RegisteredExactly(policies: Policies, route: string, policy: Policy)
    requires DistinctRoutes(policies)
    ensures var after := Registered(policies, route, policy);
            && DistinctRoutes(after)
            && (forall i | 0 <= i < |policies| && policies[i].0 == route :: after == policies[i := (route, policy)])
            && ((forall i | 0 <= i < |policies| :: policies[i].0 != route) ==> after == policies + [(route, policy)])
  {
    if policies != [] && policies[0].0 != route {
      var rest := policies[1..];
      assert forall i, j | 0 <= i < j < |rest| :: rest[i] == policies[i + 1] && rest[j] == policies[j + 1];
      RegisteredExactly(rest, route, policy);
      forall i | 0 <= i < |policies| && policies[i].0 == route
        ensures Registered(policies, route, policy) == policies[i := (route, policy)]
      {
        assert rest[i - 1] == policies[i];
      }
      if forall i | 0 <= i < |policies| :: policies[i].0 != route {
        assert forall i | 0 <= i < |rest| :: rest[i] == policies[i + 1];
      }
    }
  }
}
