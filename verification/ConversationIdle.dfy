/** Passes of `enforceBounds` (src/aiConversationState.ts) with little to do: a store
    within all limits stays as it is, and one within the message, text and image limits
    only loses what the two caps take. */
module ConversationIdle {
  import opened Text
  import opened ConversationKeys
  import opened ConversationModel
  import opened ConversationBounds
  import opened ConversationEviction
  import opened ConversationPasses
  import opened ConversationBudget

  // ----- nothing to do -----

  lemma TrimIdle(s: Scope)
    requires forall c :: c in s.conversations ==> |c.messages| <= MAX_MESSAGES
    ensures TrimScope(s) == s
  {
    var t := TrimScope(s);
    forall i | 0 <= i < |s.conversations|
      ensures t.conversations[i] == s.conversations[i]
    {
      assert s.conversations[i] in s.conversations;
    }
    assert t.conversations == s.conversations;
  }

  lemma CapsIdle(scopes: seq<Scope>, activeKey: string, protectedTargets: set<string>)
    requires CountsBounded(scopes)
    ensures CapAll(scopes, protectedTargets) == Some(scopes) == CapScopes(scopes, activeKey, protectedTargets)
  {
    forall i | 0 <= i < |scopes|
      ensures CapConversations(TrimScope(scopes[i]), protectedTargets) == Some(scopes[i])
    {
      forall c | c in scopes[i].conversations ensures |c.messages| <= MAX_MESSAGES {
        assert Holds(scopes, scopes[i], c);
      }
      TrimIdle(scopes[i]);
    }
    CapAllIs(scopes, protectedTargets, scopes);
  }

  /** The text and image limits, spelled out. */
  ghost predicate Light(scopes: seq<Scope>) {
    && TextBytes(scopes) <= 384 * 1024
    && |Bodies(scopes)| <= 4 && BodyBytes(Bodies(scopes)) <= 10 * 1024 * 1024
  }

  lemma LaterPhasesIdle(scopes: seq<Scope>, activeKey: string, protectedTargets: set<string>)
    requires Shape(scopes) && Light(scopes)
    ensures EvictText(scopes, activeKey, protectedTargets) == scopes
    ensures TruncateText(scopes) == scopes && DropImages(scopes) == scopes
  {
  }

  /** A store within all limits passes unchanged. */
  lemma PassIdle(scopes: seq<Scope>, activeKey: string, protectedTargets: set<string>)
    requires Shape(scopes) && Light(scopes)
    requires |scopes| <= 12 && forall s :: s in scopes ==> |s.conversations| <= 8
    requires forall s, c :: Holds(scopes, s, c) ==> |c.messages| <= 63
    ensures EnforceBounds(scopes, activeKey, protectedTargets) == Some(scopes)
  {
    CapsIdle(scopes, activeKey, protectedTargets);
    LaterPhasesIdle(scopes, activeKey, protectedTargets);
    hide Shape, Light, CapAll, CapScopes, EvictText, TruncateText, DropImages;
  }

  // ----- only the caps -----

  ghost predicate NonNegative(bs: seq<Body>) {
    forall j :: 0 <= j < |bs| ==> bs[j].size >= 0
  }

  lemma {:induction false} BodyBytesConcat(a: seq<Body>, b: seq<Body>)
    ensures BodyBytes(a + b) == BodyBytes(a) + BodyBytes(b)
    ensures NonNegative(a) ==> BodyBytes(a) >= 0
  {
    if a == [] {
      assert a + b == b;
    } else {
      assert (a + b)[1..] == a[1..] + b;
      assert NonNegative(a) ==> NonNegative(a[1..]);
      BodyBytesConcat(a[1..], b);
    }
  }

  lemma NonNegativeConcat(a: seq<Body>, b: seq<Body>)
    ensures NonNegative(a + b) <==> NonNegative(a) && NonNegative(b)
  {
    if NonNegative(a + b) {
      forall j | 0 <= j < |a| ensures a[j].size >= 0 {
        assert (a + b)[j] == a[j];
      }
      forall j | 0 <= j < |b| ensures b[j].size >= 0 {
        assert (a + b)[|a| + j] == b[j];
      }
    }
  }

  ghost predicate LighterBodies(a: seq<Body>, b: seq<Body>) {
    |a| <= |b| && BodyBytes(a) <= BodyBytes(b) && NonNegative(a)
  }

  lemma LighterPair(a: seq<Body>, b: seq<Body>, c: seq<Body>, d: seq<Body>)
    requires LighterBodies(a, c) && LighterBodies(b, d)
    ensures LighterBodies(a + b, c + d)
  {
    BodyBytesConcat(a, b);
    BodyBytesConcat(c, d);
    NonNegativeConcat(a, b);
  }

  lemma LighterRest(a: seq<Body>, b: seq<Body>, rest: seq<Body>)
    requires NonNegative(a + b) && LighterBodies(rest, b)
    ensures LighterBodies(rest, a + b)
  {
    NonNegativeConcat(a, b);
    BodyBytesConcat(a, b);
  }

  lemma LighterSame(a: seq<Body>)
    requires NonNegative(a)
    ensures LighterBodies(a, a)
  {
  }

  ghost predicate LighterIn(cs': seq<Conversation>, cs: seq<Conversation>) {
    ConversationsBytes(cs') <= ConversationsBytes(cs) && LighterBodies(ConversationBodies(cs'), ConversationBodies(cs))
  }

  ghost predicate Lighter(a: seq<Scope>, b: seq<Scope>) {
    TextBytes(a) <= TextBytes(b) && LighterBodies(Bodies(a), Bodies(b))
  }

  lemma {:induction false} WithoutLighter(cs: seq<Conversation>, id: string)
    requires NonNegative(ConversationBodies(cs))
    ensures LighterIn(Without(cs, id), cs)
  {
    if cs != [] {
      hide UniqueIds, LighterBodies, BodyBytes, HasId, MessageBodies;
      var head, rest := MessageBodies(cs[0].messages), ConversationBodies(cs[1..]);
      NonNegativeConcat(head, rest);
      WithoutLighter(cs[1..], id);
      var kept := ConversationBodies(Without(cs[1..], id));
      LighterSame(head);
      LighterPair(head, kept, head, rest);
      LighterRest(head, rest, kept);
      assert ([cs[0]] + Without(cs[1..], id))[1..] == Without(cs[1..], id);
    }
  }

  lemma LighterInTransitive(a: seq<Conversation>, b: seq<Conversation>, c: seq<Conversation>)
    requires LighterIn(a, b) && LighterIn(b, c)
    ensures LighterIn(a, c)
  {
  }

  lemma {:induction false} CapLighter(s: Scope, protectedTargets: set<string>)
    requires ScopeShape(s) && NonNegative(ConversationBodies(s.conversations)) && CapConversations(s, protectedTargets).Some?
    ensures LighterIn(CapConversations(s, protectedTargets).value.conversations, s.conversations)
    decreases |s.conversations|
  {
    hide ScopeShape, CapConversations, CapsMore, ConversationBodies, ConversationsBytes, BodyBytes;
    if CapsMore(s, protectedTargets) {
      var v, d := CapOnce(s, protectedTargets);
      WithoutLighter(s.conversations, v.id);
      CapLighter(d, protectedTargets);
      LighterInTransitive(CapConversations(d, protectedTargets).value.conversations, d.conversations, s.conversations);
    } else {
      CapStops(s, protectedTargets);
    }
  }

  lemma {:induction false} CapAllLighter(scopes: seq<Scope>, protectedTargets: set<string>)
    requires (forall s :: s in scopes ==> ScopeShape(s)) && NonNegative(Bodies(scopes))
    requires forall s, c :: Holds(scopes, s, c) ==> |c.messages| <= MAX_MESSAGES
    requires CapAll(scopes, protectedTargets).Some?
    ensures Lighter(CapAll(scopes, protectedTargets).value, scopes)
  {
    if scopes != [] {
      hide ScopeShape, CapConversations, ConversationBodies, ConversationsBytes, BodyBytes, LighterBodies;
      var s, r := scopes[0], CapAll(scopes, protectedTargets).value;
      assert forall t, c :: Holds(scopes[1..], t, c) ==> Holds(scopes, t, c);
      forall c | c in s.conversations ensures |c.messages| <= MAX_MESSAGES {
        assert Holds(scopes, s, c);
      }
      TrimIdle(s);
      NonNegativeConcat(ConversationBodies(s.conversations), Bodies(scopes[1..]));
      CapLighter(s, protectedTargets);
      CapAllLighter(scopes[1..], protectedTargets);
      assert r[1..] == CapAll(scopes[1..], protectedTargets).value;
      LighterPair(ConversationBodies(r[0].conversations), Bodies(r[1..]), ConversationBodies(s.conversations), Bodies(scopes[1..]));
    }
  }

  lemma {:induction false} WithoutScopeLighter(scopes: seq<Scope>, key: string)
    requires NonNegative(Bodies(scopes))
    ensures Lighter(WithoutScope(scopes, key), scopes)
  {
    if scopes != [] {
      hide UniqueKeys, LighterBodies, BodyBytes, HasKey, ConversationBodies, ConversationsBytes;
      var head, rest := ConversationBodies(scopes[0].conversations), Bodies(scopes[1..]);
      NonNegativeConcat(head, rest);
      WithoutScopeLighter(scopes[1..], key);
      var kept := Bodies(WithoutScope(scopes[1..], key));
      LighterSame(head);
      LighterPair(head, kept, head, rest);
      LighterRest(head, rest, kept);
      assert ([scopes[0]] + WithoutScope(scopes[1..], key))[1..] == WithoutScope(scopes[1..], key);
    }
  }

  lemma LighterTransitive(a: seq<Scope>, b: seq<Scope>, c: seq<Scope>)
    requires Lighter(a, b) && Lighter(b, c)
    ensures Lighter(a, c)
  {
  }

  lemma {:induction false} CapScopesLighter(scopes: seq<Scope>, activeKey: string, protectedTargets: set<string>)
    requires NonNegative(Bodies(scopes)) && CapScopes(scopes, activeKey, protectedTargets).Some?
    ensures Lighter(CapScopes(scopes, activeKey, protectedTargets).value, scopes)
    decreases |scopes|
  {
    hide LighterBodies, Bodies, BodyBytes, TextBytes, UniqueKeys;
    if |scopes| > MAX_SCOPES {
      var victim := Oldest(ScopeCandidates(scopes, activeKey, protectedTargets));
      assert HasKey(scopes, victim.scopeKey);
      WithoutScopeLighter(scopes, victim.scopeKey);
      NonNegativeLighter(WithoutScope(scopes, victim.scopeKey), scopes);
      CapScopesLighter(WithoutScope(scopes, victim.scopeKey), activeKey, protectedTargets);
      LighterTransitive(CapScopes(scopes, activeKey, protectedTargets).value, WithoutScope(scopes, victim.scopeKey), scopes);
    } else {
      LighterSame(Bodies(scopes));
    }
  }

  lemma NonNegativeLighter(a: seq<Scope>, b: seq<Scope>)
    requires Lighter(a, b)
    ensures NonNegative(Bodies(a))
  {
  }

  lemma LighterIsLight(a: seq<Scope>, b: seq<Scope>)
    requires Lighter(a, b) && Light(b)
    ensures Light(a)
  {
  }

  /** A pass over a store within the message, text and image limits is the two caps. */
  lemma PassOnlyCaps(scopes: seq<Scope>, activeKey: string, protectedTargets: set<string>)
    requires Shape(scopes) && Light(scopes) && NonNegative(Bodies(scopes))
    requires forall s, c :: Holds(scopes, s, c) ==> |c.messages| <= 63
    requires EnforceBounds(scopes, activeKey, protectedTargets).Some?
    ensures CapAll(scopes, protectedTargets).Some?
    ensures EnforceBounds(scopes, activeKey, protectedTargets) ==
      CapScopes(CapAll(scopes, protectedTargets).value, activeKey, protectedTargets)
  {
    hide CapAll, CapScopes, EvictText, TruncateText, DropImages, Light, Bodies, TextBytes, UniqueKeys, ScopeShape;
    var capped := CapAll(scopes, protectedTargets).value;
    CapAllShape(scopes, protectedTargets);
    CapAllLighter(scopes, protectedTargets);
    NonNegativeLighter(capped, scopes);
    CapScopesMembers(capped, activeKey, protectedTargets);
    var fewer := CapScopes(capped, activeKey, protectedTargets).value;
    CapScopesLighter(capped, activeKey, protectedTargets);
    LighterTransitive(fewer, capped, scopes);
    LighterIsLight(fewer, scopes);
    LaterPhasesIdle(fewer, activeKey, protectedTargets);
    LightFits(fewer);
  }

  lemma LightFits(scopes: seq<Scope>)
    requires Light(scopes)
    ensures TextBytes(scopes) <= MAX_TEXT_BYTES
  {
  }
}
