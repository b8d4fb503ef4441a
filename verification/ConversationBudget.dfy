/** How much the caps and the text budget of src/aiConversationState.ts take: no more
    conversations and scopes than the limits call for. */
module ConversationBudget {
  import opened Text
  import opened ConversationKeys
  import opened ConversationModel
  import opened ConversationBounds
  import opened ConversationEviction

  // ----- the text of what is kept or not older -----

  ghost function Weight(key: string, c: Conversation, keep: set<string>, order: nat): nat {
    if TargetKey(key, c.id) in keep || order <= c.updatedOrder then Bytes(c.title) + MessagesBytes(c.messages) else 0
  }

  ghost function Weights(key: string, cs: seq<Conversation>, keep: set<string>, order: nat): nat {
    if cs == [] then 0 else Weight(key, cs[0], keep, order) + Weights(key, cs[1..], keep, order)
  }

  /** The text of the conversations that are kept or not older than `order`. */
  ghost function TextNotOlder(scopes: seq<Scope>, keep: set<string>, order: nat): nat {
    if scopes == [] then 0
    else Weights(scopes[0].key, scopes[0].conversations, keep, order) + TextNotOlder(scopes[1..], keep, order)
  }

  lemma {:induction false} WeightsBound(key: string, cs: seq<Conversation>, keep: set<string>, order: nat)
    ensures Weights(key, cs, keep, order) <= ConversationsBytes(cs)
    ensures (forall c :: c in cs ==> TargetKey(key, c.id) in keep || order <= c.updatedOrder) ==>
      Weights(key, cs, keep, order) == ConversationsBytes(cs)
  {
    if cs != [] {
      WeightsBound(key, cs[1..], keep, order);
    }
  }

  lemma {:induction false} NotOlderBound(scopes: seq<Scope>, keep: set<string>, order: nat)
    ensures TextNotOlder(scopes, keep, order) <= TextBytes(scopes)
    ensures (forall s, c :: Holds(scopes, s, c) ==> TargetKey(s.key, c.id) in keep || order <= c.updatedOrder) ==>
      TextNotOlder(scopes, keep, order) == TextBytes(scopes)
  {
    if scopes != [] {
      hide Weights, ConversationsBytes;
      NotOlderBound(scopes[1..], keep, order);
      WeightsBound(scopes[0].key, scopes[0].conversations, keep, order);
      assert forall c :: c in scopes[0].conversations ==> Holds(scopes, scopes[0], c);
      assert forall s, c :: Holds(scopes[1..], s, c) ==> Holds(scopes, s, c);
    }
  }

  /** A conversation that is older and not kept does not count. */
  lemma {:induction false} WeightsWithout(key: string, cs: seq<Conversation>, id: string, keep: set<string>, order: nat)
    requires forall c :: c in cs && c.id == id ==> Weight(key, c, keep, order) == 0
    ensures Weights(key, Without(cs, id), keep, order) == Weights(key, cs, keep, order)
  {
    if cs != [] {
      hide Weight, UniqueIds;
      WeightsWithout(key, cs[1..], id, keep, order);
    }
  }

  lemma {:induction false} NotOlderRemoved(
    scopes: seq<Scope>, keep: set<string>, order: nat, v: Scope, d: Conversation)
    requires UniqueKeys(scopes) && UniqueIds(v.conversations) && Holds(scopes, v, d)
    requires TargetKey(v.key, d.id) !in keep && d.updatedOrder < order
    ensures TextNotOlder(RemoveConversation(scopes, v.key, d.id), keep, order) == TextNotOlder(scopes, keep, order)
  {
    UniqueKeysTail(scopes);
    if scopes[0].key == v.key {
      SameKeySameScope(scopes, v, scopes[0]);
      forall c | c in v.conversations && c.id == d.id
        ensures Weight(v.key, c, keep, order) == 0
      {
        SameIdSameConversation(v.conversations, c, d);
      }
      WeightsWithout(v.key, v.conversations, d.id, keep, order);
      hide Weights, UniqueKeys, UniqueIds;
      assert WithoutScope(scopes, v.key) == scopes[1..];
    } else {
      hide Weights, UniqueKeys, UniqueIds;
      assert Holds(scopes[1..], v, d);
      NotOlderRemoved(scopes[1..], keep, order, v, d);
    }
  }

  // ----- what the text budget takes -----

  lemma VictimWeighsAll(scopes: seq<Scope>, keep: set<string>, v: Scope, d: Conversation)
    requires AllCandidates(scopes, keep) != [] && Oldest(AllCandidates(scopes, keep)) == AsCandidate(v.key, d)
    ensures TextNotOlder(scopes, keep, d.updatedOrder) == TextBytes(scopes)
  {
    hide TextNotOlder, TextBytes;
    forall s, c | Holds(scopes, s, c) && TargetKey(s.key, c.id) !in keep
      ensures d.updatedOrder <= c.updatedOrder
    {
      assert !Before(AsCandidate(s.key, c), AsCandidate(v.key, d));
    }
    NotOlderBound(scopes, keep, d.updatedOrder);
  }

  /** Text eviction takes a removable conversation exactly if the kept text and that of
      all removable conversations not older than it exceed the budget. */
  lemma {:induction false} EvictExactly(scopes: seq<Scope>, activeKey: string, protectedTargets: set<string>, x: Slot)
    requires Shape(scopes) && OrdersDistinct(ConversationSlots(scopes))
    requires x in ConversationSlots(scopes) && Removable(x, Kept(scopes, activeKey, protectedTargets))
    ensures x !in ConversationSlots(EvictText(scopes, activeKey, protectedTargets)) <==>
      TextNotOlder(scopes, Kept(scopes, activeKey, protectedTargets), x.order) > MAX_TEXT_BYTES
    decreases ConversationCount(scopes)
  {
    hide TextNotOlder, TextBytes, Kept, UniqueKeys, ScopeShape;
    var keep := Kept(scopes, activeKey, protectedTargets);
    if EvictsMore(scopes, activeKey, protectedTargets) {
      var v, d, rest := EvictOnce(scopes, activeKey, protectedTargets);
      EvictSlots(rest, activeKey, protectedTargets);
      if x == Slot(v.key, d.id, d.updatedOrder) {
        RemovedSlotGone(scopes, v, d);
        VictimWeighsAll(scopes, keep, v, d);
      } else {
        EvictLater(scopes, keep, v, d, rest, x);
        EvictExactly(rest, activeKey, protectedTargets, x);
      }
    } else {
      EvictStops(scopes, activeKey, protectedTargets);
      NotOlderBound(scopes, keep, x.order);
      SlotIsCandidate(scopes, keep, x);
    }
  }

  lemma SlotIsCandidate(scopes: seq<Scope>, keep: set<string>, x: Slot)
    requires x in ConversationSlots(scopes) && Removable(x, keep)
    ensures AllCandidates(scopes, keep) != []
  {
    var s, c :| s in scopes && c in s.conversations && x == Slot(s.key, c.id, c.updatedOrder);
    assert Holds(scopes, s, c);
    assert AsCandidate(s.key, c) in AllCandidates(scopes, keep);
  }

  lemma EvictLater(scopes: seq<Scope>, keep: set<string>, v: Scope, d: Conversation, rest: seq<Scope>, x: Slot)
    requires Shape(scopes) && OrdersDistinct(ConversationSlots(scopes)) && AllCandidates(scopes, keep) != []
    requires Holds(scopes, v, d) && Oldest(AllCandidates(scopes, keep)) == AsCandidate(v.key, d)
    requires TargetKey(v.key, d.id) !in keep && rest == RemoveConversation(scopes, v.key, d.id)
    requires x in ConversationSlots(scopes) && Removable(x, keep) && x != Slot(v.key, d.id, d.updatedOrder)
    ensures x in ConversationSlots(rest) && OrdersDistinct(ConversationSlots(rest))
    ensures TextNotOlder(rest, keep, x.order) == TextNotOlder(scopes, keep, x.order)
  {
    if x !in ConversationSlots(rest) {
      EvictedSlot(scopes, v, d, x);
    }
    VictimIsOldest(scopes, keep, v, d, x);
    RemovalSlots(scopes, v, d);
    assert ScopeShape(v);
    NotOlderRemoved(scopes, keep, x.order, v, d);
  }

  // ----- what the caps take -----

  lemma {:induction false} WithoutOne(cs: seq<Conversation>, id: string)
    requires UniqueIds(cs) && HasId(cs, id)
    ensures |Without(cs, id)| == |cs| - 1
  {
    UniqueTail(cs);
    if cs[0].id == id {
      hide UniqueIds;
    } else {
      hide UniqueIds;
      WithoutOne(cs[1..], id);
    }
  }

  /** The conversation cap leaves exactly eight of more. */
  lemma {:induction false} CapLeavesEight(s: Scope, protectedTargets: set<string>)
    requires ScopeShape(s) && CapConversations(s, protectedTargets).Some?
    ensures var r := CapConversations(s, protectedTargets).value;
      |r.conversations| == if |s.conversations| > MAX_CONVERSATIONS then MAX_CONVERSATIONS else |s.conversations|
    decreases |s.conversations|
  {
    if CapsMore(s, protectedTargets) {
      var v, d := CapOnce(s, protectedTargets);
      assert UniqueIds(s.conversations) && HasId(s.conversations, v.id);
      hide ScopeShape, UniqueIds, CapConversations, CapsMore;
      WithoutOne(s.conversations, v.id);
      CapLeavesEight(d, protectedTargets);
    } else {
      CapStops(s, protectedTargets);
    }
  }

  lemma {:induction false} WithoutOneScope(scopes: seq<Scope>, key: string)
    requires UniqueKeys(scopes) && HasKey(scopes, key)
    ensures |WithoutScope(scopes, key)| == |scopes| - 1
  {
    UniqueKeysTail(scopes);
    hide UniqueKeys;
    if scopes[0].key != key {
      WithoutOneScope(scopes[1..], key);
    }
  }

  /** The scope cap leaves exactly twelve of more. */
  lemma {:induction false} CapLeavesTwelve(scopes: seq<Scope>, activeKey: string, protectedTargets: set<string>)
    requires UniqueKeys(scopes) && CapScopes(scopes, activeKey, protectedTargets).Some?
    ensures |CapScopes(scopes, activeKey, protectedTargets).value| ==
      if |scopes| > MAX_SCOPES then MAX_SCOPES else |scopes|
    decreases |scopes|
  {
    if |scopes| > MAX_SCOPES {
      hide UniqueKeys;
      var victim := Oldest(ScopeCandidates(scopes, activeKey, protectedTargets));
      assert HasKey(scopes, victim.scopeKey);
      WithoutOneScope(scopes, victim.scopeKey);
      CapLeavesTwelve(WithoutScope(scopes, victim.scopeKey), activeKey, protectedTargets);
    }
  }
}
