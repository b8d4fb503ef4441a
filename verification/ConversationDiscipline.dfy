/** The eviction discipline of every call: what was evicted, in which order, and what
    truncation and the image pass leave, from the draft of a call to its result. */
module ConversationDiscipline {
  import opened Text
  import opened ConversationKeys
  import opened ConversationModel
  import opened ConversationBounds
  import opened ConversationEviction
  import opened ConversationBudget
  import opened ConversationPasses
  import opened ConversationPass
  import opened ConversationStore
  import opened ConversationRuns
  import opened ConversationHistory

  // ----- the two caps take the oldest -----

  ghost predicate DistinctUpdates(cs: seq<Conversation>) {
    forall a, b :: a in cs && b in cs && a.updatedOrder == b.updatedOrder ==> a.id == b.id
  }

  /** The conversation cap removes only removable conversations, each older than every
      removable one that stays. */
  lemma {:induction false} CapTakesOldest(s: Scope, protectedTargets: set<string>, x: Conversation, y: Conversation)
    requires ScopeShape(s) && DistinctUpdates(s.conversations) && CapConversations(s, protectedTargets).Some?
    requires var r := CapConversations(s, protectedTargets).value;
      x in s.conversations && x !in r.conversations && y in r.conversations
    ensures |s.conversations| > MAX_CONVERSATIONS && !IsSpared(s, x.id, protectedTargets)
    ensures !IsSpared(s, y.id, protectedTargets) ==> x.updatedOrder < y.updatedOrder
    decreases |s.conversations|
  {
    hide ScopeShape, CapConversations, CapsMore, Drop, TargetKey;
    if CapsMore(s, protectedTargets) {
      var v, d := CapOnce(s, protectedTargets);
      CapConversationsMembers(d, protectedTargets);
      if x.id == v.id {
        SameInScope(s, x, v);
      } else {
        CapTakesOldest(d, protectedTargets, x, y);
      }
    } else {
      CapStops(s, protectedTargets);
    }
  }

  lemma SameInScope(s: Scope, c: Conversation, d: Conversation)
    requires ScopeShape(s) && c in s.conversations && d in s.conversations && c.id == d.id
    ensures c == d
  {
    SameIdSameConversation(s.conversations, c, d);
  }

  ghost predicate ScopeSpared(s: Scope, activeKey: string, protectedTargets: set<string>) {
    s.key == activeKey || ScopeProtected(protectedTargets, s.key)
  }

  ghost predicate DistinctScopes(scopes: seq<Scope>) {
    forall s, t :: s in scopes && t in scopes && s.updatedOrder == t.updatedOrder ==> s.key == t.key
  }

  /** The scope cap removes only removable scopes, each older than every removable one
      that stays. */
  lemma {:induction false} CapTakesOldestScope(
    scopes: seq<Scope>, activeKey: string, protectedTargets: set<string>, x: Scope, y: Scope)
    requires UniqueKeys(scopes) && DistinctScopes(scopes) && CapScopes(scopes, activeKey, protectedTargets).Some?
    requires var r := CapScopes(scopes, activeKey, protectedTargets).value; x in scopes && x !in r && y in r
    ensures |scopes| > MAX_SCOPES && !ScopeSpared(x, activeKey, protectedTargets)
    ensures !ScopeSpared(y, activeKey, protectedTargets) ==> x.updatedOrder < y.updatedOrder
    decreases |scopes|
  {
    var removable := ScopeCandidates(scopes, activeKey, protectedTargets);
    var victim := Oldest(removable);
    var v :| v in scopes && v.key != activeKey && !ScopeProtected(protectedTargets, v.key)
      && victim == Candidate(v.key, "", v.updatedOrder, v.createdOrder);
    var rest := WithoutScope(scopes, v.key);
    CapScopesMembers(rest, activeKey, protectedTargets);
    if x.key == v.key {
      SameKeySameScope(scopes, x, v);
      if !ScopeSpared(y, activeKey, protectedTargets) {
        assert !Before(Candidate(y.key, "", y.updatedOrder, y.createdOrder), victim);
      }
    } else {
      CapTakesOldestScope(rest, activeKey, protectedTargets, x, y);
    }
  }

  // ----- whole conversations stay as they are through the first three phases -----

  /** Every conversation of `a` is one of `b`, under the same key. */
  ghost predicate Within(a: seq<Scope>, b: seq<Scope>) {
    forall s, c :: Holds(a, s, c) ==> exists t :: Holds(b, t, c) && t.key == s.key
  }

  lemma WithinTransitive(a: seq<Scope>, b: seq<Scope>, c: seq<Scope>)
    requires Within(a, b) && Within(b, c)
    ensures Within(a, c)
  {
    forall s, x | Holds(a, s, x)
      ensures exists u :: Holds(c, u, x) && u.key == s.key
    {
      var t :| Holds(b, t, x) && t.key == s.key;
      var u :| Holds(c, u, x) && u.key == t.key;
    }
  }

  lemma {:induction false} EvictWithin(scopes: seq<Scope>, activeKey: string, protectedTargets: set<string>)
    requires Shape(scopes)
    ensures Within(EvictText(scopes, activeKey, protectedTargets), scopes)
    decreases ConversationCount(scopes)
  {
    if EvictsMore(scopes, activeKey, protectedTargets) {
      var v, d, rest := EvictOnce(scopes, activeKey, protectedTargets);
      RemovalWithin(scopes, v, d);
      EvictWithin(rest, activeKey, protectedTargets);
      WithinTransitive(EvictText(rest, activeKey, protectedTargets), rest, scopes);
    } else {
      EvictStops(scopes, activeKey, protectedTargets);
    }
  }

  lemma RemovalWithin(scopes: seq<Scope>, v: Scope, d: Conversation)
    requires Shape(scopes) && Holds(scopes, v, d)
    ensures Within(RemoveConversation(scopes, v.key, d.id), scopes)
  {
    var r := RemoveConversation(scopes, v.key, d.id);
    RemovalMembers(scopes, v.key, d.id, v);
    forall s, c | Holds(r, s, c)
      ensures exists t :: Holds(scopes, t, c) && t.key == s.key
    {
      if s.key == v.key {
        assert Holds(scopes, v, c);
      } else {
        assert Holds(scopes, s, c);
      }
    }
  }

  /** What the pass makes of a scope before the scope cap. */
  lemma CappedConversation(scopes: seq<Scope>, protectedTargets: set<string>, t: Scope, c: Conversation)
    returns (s: Scope, d: Conversation)
    requires Shape(scopes) && CapAll(scopes, protectedTargets).Some? && Holds(CapAll(scopes, protectedTargets).value, t, c)
    ensures Holds(scopes, s, d) && s.key == t.key && s.activeId == t.activeId && c == TrimMessages(d)
    ensures CapConversations(TrimScope(s), protectedTargets) == Some(t)
  {
    var r := CapAll(scopes, protectedTargets).value;
    var i :| 0 <= i < |r| && r[i] == t;
    s := scopes[i];
    TrimScopeShape(s);
    CapConversationsMembers(TrimScope(s), protectedTargets);
    var k :| 0 <= k < |TrimScope(s).conversations| && TrimScope(s).conversations[k] == c;
    d := s.conversations[k];
  }

  lemma FewerWithin(capped: seq<Scope>, fewer: seq<Scope>)
    requires forall s :: s in fewer ==> s in capped
    ensures Within(fewer, capped)
  {
    forall s, c | Holds(fewer, s, c)
      ensures exists t :: Holds(capped, t, c) && t.key == s.key
    {
      assert Holds(capped, s, c);
    }
  }

  /** A conversation that text eviction left is one of the draft's, at most cut to its
      newest 63 messages. */
  lemma BeforeTruncation(
    scopes: seq<Scope>, activeKey: string, protectedTargets: set<string>, e: Stages, t: Scope, c: Conversation)
    returns (s: Scope, d: Conversation)
    requires Shape(scopes) && CapAll(scopes, protectedTargets) == Some(e.capped) && Shape(e.capped)
    requires CapScopes(e.capped, activeKey, protectedTargets) == Some(e.fewer) && Shape(e.fewer)
    requires e.evicted == EvictText(e.fewer, activeKey, protectedTargets)
    requires Holds(e.evicted, t, c)
    ensures Holds(scopes, s, d) && s.key == t.key && c == TrimMessages(d)
  {
    hide EvictText, CapAll, CapScopes, TrimMessages;
    EvictWithin(e.fewer, activeKey, protectedTargets);
    CapScopesMembers(e.capped, activeKey, protectedTargets);
    FewerWithin(e.capped, e.fewer);
    WithinTransitive(e.evicted, e.fewer, e.capped);
    var u :| Holds(e.capped, u, c) && u.key == t.key;
    s, d := CappedConversation(scopes, protectedTargets, u, c);
  }

  // ----- messages stay as they are until the image pass -----

  /** The same conversation with its newest messages only. */
  ghost predicate TailOf(c': Conversation, c: Conversation) {
    && c == c'.(messages := c.messages) && |c'.messages| <= |c.messages|
    && c'.messages == c.messages[|c.messages| - |c'.messages|..]
  }

  lemma TailTransitive(a: Conversation, b: Conversation, c: Conversation)
    requires TailOf(a, b) && TailOf(b, c)
    ensures TailOf(a, c)
  {
  }

  lemma ShiftedIsTail(c': Conversation, c: Conversation, order: nat)
    requires Shifted(c', c, order)
    ensures TailOf(c', c)
  {
  }

  lemma ShiftLength(scopes: seq<Scope>, order: nat)
    ensures |ShiftScopes(scopes, order)| == |scopes|
  {
    ShiftFrame(scopes, order);
  }

  lemma ShiftTail(scopes: seq<Scope>, order: nat, t: Scope, d: Conversation) returns (s: Scope, c: Conversation)
    requires Holds(ShiftScopes(scopes, order), t, d)
    ensures Holds(scopes, s, c) && s.key == t.key && TailOf(d, c)
  {
    hide ShiftScopes, Shifted, TailOf;
    ShiftLength(scopes, order);
    var rest := ShiftScopes(scopes, order);
    var i :| 0 <= i < |rest| && rest[i] == t;
    var j :| 0 <= j < |t.conversations| && t.conversations[j] == d;
    s := scopes[i];
    ShiftSameSize(scopes, order, i);
    ShiftAt(scopes, order, i, j);
    c := s.conversations[j];
    ShiftedIsTail(d, c, order);
  }

  lemma ShiftSameSize(scopes: seq<Scope>, order: nat, i: nat)
    requires i < |scopes|
    ensures i < |ShiftScopes(scopes, order)|
    ensures |ShiftScopes(scopes, order)[i].conversations| == |scopes[i].conversations|
  {
    ShiftFrame(scopes, order);
    assert ScopeFrame(ShiftScopes(scopes, order)[i], scopes[i]);
  }

  lemma {:induction false} TruncatedTail(scopes: seq<Scope>, s': Scope, c': Conversation) returns (s: Scope, c: Conversation)
    requires Holds(TruncateText(scopes), s', c')
    ensures Holds(scopes, s, c) && s.key == s'.key && TailOf(c', c)
    decreases MessageCount(scopes)
  {
    if TextBytes(scopes) <= MAX_TEXT_BYTES || AllFirstOrders(scopes) == [] {
      s, c := s', c';
    } else {
      var order := Least(AllFirstOrders(scopes));
      ShiftScopesCount(scopes, order);
      hide TextBytes, TailOf;
      var t, d := TruncatedTail(ShiftScopes(scopes, order), s', c');
      s, c := ShiftTail(scopes, order, t, d);
      TailTransitive(c', d, c);
    }
  }

  // ----- from the draft to the result -----

  lemma FrameBack(r: seq<Scope>, base: seq<Scope>, s': Scope, c': Conversation) returns (s: Scope, c: Conversation)
    requires Frame(r, base) && Holds(r, s', c')
    ensures Holds(base, s, c) && s.key == s'.key && ConversationFrom(c', c)
  {
    var i :| 0 <= i < |r| && r[i] == s';
    assert ScopeFrame(r[i], base[i]);
    var j :| 0 <= j < |s'.conversations| && s'.conversations[j] == c';
    s, c := base[i], base[i].conversations[j];
  }

  lemma ImageBack(base: seq<Scope>, s': Scope, c': Conversation) returns (s: Scope, c: Conversation)
    requires Holds(DropImages(base), s', c')
    ensures Holds(base, s, c) && s.key == s'.key && ConversationFrom(c', c) && |c'.messages| == |c.messages|
  {
    hide DropImages, ConversationFrom, MessagesKept;
    var r := DropImages(base);
    var i :| 0 <= i < |r| && r[i] == s';
    var j :| 0 <= j < |s'.conversations| && s'.conversations[j] == c';
    ImageBackAt(base, i, j);
    s, c := base[i], base[i].conversations[j];
  }

  lemma ImageBackAt(base: seq<Scope>, i: nat, j: nat)
    requires i < |DropImages(base)| && j < |DropImages(base)[i].conversations|
    ensures |base| == |DropImages(base)|
    ensures var s', s := DropImages(base)[i], base[i];
      && j < |s.conversations| && s.key == s'.key && ConversationFrom(s'.conversations[j], s.conversations[j])
      && |s'.conversations[j].messages| == |s.conversations[j].messages|
  {
    DropImagesFrame(base);
    hide DropImages, ConversationFrom;
    assert ScopeFrame(DropImages(base)[i], base[i]) && MessagesKept(DropImages(base)[i], base[i]);
  }

  lemma SameConversation(scopes: seq<Scope>, s: Scope, c: Conversation, t: Scope, d: Conversation)
    requires Shape(scopes) && Holds(scopes, s, c) && Holds(scopes, t, d) && s.key == t.key && c.id == d.id
    ensures s == t && c == d
  {
    SameKeySameScope(scopes, s, t);
    assert ScopeShape(s);
    SameIdSameConversation(s.conversations, c, d);
  }

  lemma ActiveKept(scopes: seq<Scope>, activeKey: string, protectedTargets: set<string>, e: Stages)
    requires Shape(scopes) && CapAll(scopes, protectedTargets) == Some(e.capped) && Shape(e.capped)
    requires CapScopes(e.capped, activeKey, protectedTargets) == Some(e.fewer) && Shape(e.fewer)
    ensures ActiveTarget(e.fewer, activeKey) == ActiveTarget(scopes, activeKey)
  {
    CapScopesMembers(e.capped, activeKey, protectedTargets);
    hide CapScopes, CapAll, ActiveTarget, ScopeShape;
    if HasKey(scopes, activeKey) {
      var s :| s in scopes && s.key == activeKey;
      var i :| 0 <= i < |scopes| && scopes[i] == s;
      var t := CapAt(scopes, protectedTargets, i);
      ActiveTargetIs(scopes, s);
      ActiveTargetIs(e.fewer, t);
    } else {
      NoActiveTarget(scopes, activeKey);
      CappedKeys(scopes, protectedTargets, e.capped);
      NoActiveTarget(e.fewer, activeKey);
    }
  }

  /** The phases never change which conversation is the active one. */
  lemma KeptStable(scopes: seq<Scope>, activeKey: string, protectedTargets: set<string>, e: Stages)
    requires Shape(scopes) && CapAll(scopes, protectedTargets) == Some(e.capped) && Shape(e.capped)
    requires CapScopes(e.capped, activeKey, protectedTargets) == Some(e.fewer) && Shape(e.fewer)
    requires e.evicted == EvictText(e.fewer, activeKey, protectedTargets)
    ensures Kept(e.fewer, activeKey, protectedTargets) == Kept(scopes, activeKey, protectedTargets)
    ensures Kept(e.evicted, activeKey, protectedTargets) == Kept(scopes, activeKey, protectedTargets)
  {
    hide EvictText, CapScopes, CapAll, Shape, ActiveTarget;
    ActiveKept(scopes, activeKey, protectedTargets, e);
    EvictSettles(e.fewer, activeKey, protectedTargets);
  }

  lemma CappedKeys(scopes: seq<Scope>, protectedTargets: set<string>, capped: seq<Scope>)
    requires Shape(scopes) && CapAll(scopes, protectedTargets) == Some(capped)
    ensures forall t :: t in capped ==> HasKey(scopes, t.key)
  {
    forall t | t in capped ensures HasKey(scopes, t.key) {
      var i :| 0 <= i < |capped| && capped[i] == t;
      var s' := CapAt(scopes, protectedTargets, i);
      assert scopes[i] in scopes;
    }
  }

  /** If a conversation that stays lost a message to truncation, then every
      conversation that stays is active or protected. */
  lemma TruncatedOnlyAtLast(
    scopes: seq<Scope>, activeKey: string, protectedTargets: set<string>, revision: nat,
    s: Scope, c: Conversation, s': Scope, c': Conversation, u: Scope, d: Conversation)
    requires Shape(scopes) && Content(scopes, revision) && EnforceBounds(scopes, activeKey, protectedTargets).Some?
    requires Holds(scopes, s, c) && Holds(EnforceBounds(scopes, activeKey, protectedTargets).value, s', c')
    requires s'.key == s.key && c'.id == c.id && |c'.messages| < |TrimMessages(c).messages|
    requires Holds(EnforceBounds(scopes, activeKey, protectedTargets).value, u, d)
    ensures TargetKey(u.key, d.id) in Kept(scopes, activeKey, protectedTargets)
  {
    var e := SomeStages(scopes, activeKey, protectedTargets, revision);
    KeptStable(scopes, activeKey, protectedTargets, e);
    hide EnforceBounds, EvictText, CapAll, CapScopes, DropImages, Content, CountsBounded, TextBytes;
    if e.truncated == e.evicted {
      var t, x := ImageBack(e.truncated, s', c');
      var t0, x0 := BeforeTruncation(scopes, activeKey, protectedTargets, e, t, x);
      TrimKeepsId(x0);
      SameConversation(scopes, s, c, t0, x0);
      assert false;
    }
    var r := LaterFrame(e.evicted);
    var v, y := FrameBack(r, e.evicted, u, d);
    AllKept(e, activeKey, protectedTargets, v, y);
  }

  lemma TrimKeepsId(c: Conversation)
    ensures TrimMessages(c).id == c.id && TrimMessages(c).updatedOrder == c.updatedOrder
  {
  }

  lemma AllKept(e: Stages, activeKey: string, protectedTargets: set<string>, v: Scope, y: Conversation)
    requires Shape(e.fewer) && e.evicted == EvictText(e.fewer, activeKey, protectedTargets)
    requires e.truncated == TruncateText(e.evicted) && e.truncated != e.evicted && Holds(e.evicted, v, y)
    ensures TargetKey(v.key, y.id) in Kept(e.evicted, activeKey, protectedTargets)
  {
    EvictSettles(e.fewer, activeKey, protectedTargets);
    hide EvictText, Kept;
  }

  // ----- why a conversation is gone -----

  /** One of more than eight in its scope, older than every removable one there. */
  ghost predicate OverfullScope(r: seq<Scope>, protectedTargets: set<string>, s: Scope, c: Conversation) {
    && |s.conversations| > MAX_CONVERSATIONS && !IsSpared(s, c.id, protectedTargets)
    && forall u, d :: Holds(r, u, d) && u.key == s.key && !IsSpared(s, d.id, protectedTargets) ==>
      c.updatedOrder < d.updatedOrder
  }

  /** In one of more than twelve scopes, which is older than every removable scope. */
  ghost predicate OverfullStore(
    scopes: seq<Scope>, r: seq<Scope>, activeKey: string, protectedTargets: set<string>, s: Scope)
  {
    && |scopes| > MAX_SCOPES && !ScopeSpared(s, activeKey, protectedTargets)
    && forall u :: u in r && !ScopeSpared(u, activeKey, protectedTargets) ==> s.updatedOrder < u.updatedOrder
  }

  /** Once both caps have run, the kept text and that of all removable conversations
      not older than `order` exceed the budget. */
  ghost predicate OverBudget(scopes: seq<Scope>, activeKey: string, protectedTargets: set<string>, order: nat) {
    var capped := CapAll(scopes, protectedTargets);
    && capped.Some? && CapScopes(capped.value, activeKey, protectedTargets).Some?
    && TextNotOlder(
      CapScopes(capped.value, activeKey, protectedTargets).value, Kept(scopes, activeKey, protectedTargets), order)
      > MAX_TEXT_BYTES
  }

  /** Given up for the text budget, which it and all newer text exceed, and older than
      every removable conversation that stays. */
  ghost predicate OverfullText(
    scopes: seq<Scope>, r: seq<Scope>, activeKey: string, protectedTargets: set<string>, s: Scope, c: Conversation)
  {
    && TargetKey(s.key, c.id) !in Kept(scopes, activeKey, protectedTargets)
    && OverBudget(scopes, activeKey, protectedTargets, c.updatedOrder)
    && forall u, d :: Holds(r, u, d) && TargetKey(u.key, d.id) !in Kept(scopes, activeKey, protectedTargets) ==>
      c.updatedOrder < d.updatedOrder
  }

  lemma DraftDistinct(scopes: seq<Scope>, revision: nat, s: Scope)
    requires Shape(scopes) && Content(scopes, revision) && s in scopes
    ensures DistinctUpdates(TrimScope(s).conversations)
  {
    hide Shape, TrimScope, ConversationSlots;
    forall a, b | a in TrimScope(s).conversations && b in TrimScope(s).conversations && a.updatedOrder == b.updatedOrder
      ensures a.id == b.id
    {
      TrimmedSlot(scopes, s, a);
      TrimmedSlot(scopes, s, b);
    }
  }

  lemma TrimmedSlot(scopes: seq<Scope>, s: Scope, a: Conversation)
    requires s in scopes && a in TrimScope(s).conversations
    ensures Slot(s.key, a.id, a.updatedOrder) in ConversationSlots(scopes)
  {
    var i :| 0 <= i < |s.conversations| && TrimScope(s).conversations[i] == a;
    assert s.conversations[i] in s.conversations;
  }

  lemma GoneFromScope(
    scopes: seq<Scope>, protectedTargets: set<string>, revision: nat, capped: seq<Scope>, r: seq<Scope>, s: Scope,
    t: Scope, c: Conversation)
    requires Shape(scopes) && Content(scopes, revision) && Holds(scopes, s, c) && Shape(capped)
    requires CapConversations(TrimScope(s), protectedTargets) == Some(t) && t in capped
    requires TrimMessages(c) !in t.conversations
    requires forall u, d :: Holds(r, u, d) ==>
      exists w, y :: Holds(capped, w, y) && w.key == u.key && y.id == d.id && y.updatedOrder == d.updatedOrder
    ensures OverfullScope(r, protectedTargets, s, c)
  {
    assert ScopeShape(s);
    TrimScopeShape(s);
    DraftDistinct(scopes, revision, s);
    CapConversationsMembers(TrimScope(s), protectedTargets);
    TrimKeepsId(c);
    assert TrimMessages(c) in TrimScope(s).conversations;
    hide CapConversations, TrimMessages, Content, ScopeShape;
    forall u, d | Holds(r, u, d) && u.key == s.key && !IsSpared(s, d.id, protectedTargets)
      ensures c.updatedOrder < d.updatedOrder
    {
      var w, y :| Holds(capped, w, y) && w.key == u.key && y.id == d.id && y.updatedOrder == d.updatedOrder;
      SameKeySameScope(capped, w, t);
      CapTakesOldest(TrimScope(s), protectedTargets, TrimMessages(c), y);
    }
    OverfullByCap(TrimScope(s), t, protectedTargets);
  }

  lemma OverfullByCap(s: Scope, t: Scope, protectedTargets: set<string>)
    requires CapConversations(s, protectedTargets) == Some(t) && s != t
    ensures |s.conversations| > MAX_CONVERSATIONS
  {
  }

  lemma CapScopesIdle(capped: seq<Scope>, activeKey: string, protectedTargets: set<string>)
    ensures |capped| <= MAX_SCOPES ==> CapScopes(capped, activeKey, protectedTargets) == Some(capped)
  {
  }

  lemma GoneWithScope(
    scopes: seq<Scope>, activeKey: string, protectedTargets: set<string>, capped: seq<Scope>, fewer: seq<Scope>,
    r: seq<Scope>, s: Scope, t: Scope)
    requires UniqueKeys(capped) && DistinctScopes(capped) && |capped| == |scopes|
    requires CapScopes(capped, activeKey, protectedTargets) == Some(fewer)
    requires t in capped && t !in fewer && t.key == s.key && t.updatedOrder == s.updatedOrder
    requires forall u :: u in r ==> exists w :: w in fewer && w.key == u.key && w.updatedOrder == u.updatedOrder
    ensures OverfullStore(scopes, r, activeKey, protectedTargets, s)
  {
    CapScopesMembers(capped, activeKey, protectedTargets);
    CapScopesIdle(capped, activeKey, protectedTargets);
    hide CapScopes;
    forall u | u in r && !ScopeSpared(u, activeKey, protectedTargets) ensures s.updatedOrder < u.updatedOrder {
      var w :| w in fewer && w.key == u.key && w.updatedOrder == u.updatedOrder;
      CapTakesOldestScope(capped, activeKey, protectedTargets, t, w);
    }
  }

  lemma GoneForText(
    scopes: seq<Scope>, activeKey: string, protectedTargets: set<string>, fewer: seq<Scope>, evicted: seq<Scope>,
    r: seq<Scope>, s: Scope, t: Scope, c: Conversation, x: Conversation)
    requires Shape(fewer) && OrdersDistinct(ConversationSlots(fewer)) && Holds(fewer, t, x)
    requires evicted == EvictText(fewer, activeKey, protectedTargets) && Shape(evicted)
    requires Kept(fewer, activeKey, protectedTargets) == Kept(scopes, activeKey, protectedTargets)
    requires CapAll(scopes, protectedTargets).Some?
    requires CapScopes(CapAll(scopes, protectedTargets).value, activeKey, protectedTargets) == Some(fewer)
    requires t.key == s.key && x.id == c.id && x.updatedOrder == c.updatedOrder
    requires forall v, y :: v in evicted && y in v.conversations ==> !(v.key == t.key && y.id == x.id)
    requires forall u, d :: Holds(r, u, d) ==>
      exists v, y :: Holds(evicted, v, y) && v.key == u.key && y.id == d.id && y.updatedOrder == d.updatedOrder
    ensures OverfullText(scopes, r, activeKey, protectedTargets, s, c)
  {
    hide EvictText, Kept, Shape, OrdersDistinct, CapAll, CapScopes, TextNotOlder;
    if TargetKey(t.key, x.id) in Kept(fewer, activeKey, protectedTargets) {
      var s' := EvictSpares(fewer, activeKey, protectedTargets, t, x);
    }
    var gone := Slot(t.key, x.id, x.updatedOrder);
    assert gone in ConversationSlots(fewer);
    assert gone !in ConversationSlots(evicted);
    EvictExactly(fewer, activeKey, protectedTargets, gone);
    forall u, d | Holds(r, u, d) && TargetKey(u.key, d.id) !in Kept(scopes, activeKey, protectedTargets)
      ensures c.updatedOrder < d.updatedOrder
    {
      var v, y :| Holds(evicted, v, y) && v.key == u.key && y.id == d.id && y.updatedOrder == d.updatedOrder;
      var stays := Slot(v.key, y.id, y.updatedOrder);
      assert stays in ConversationSlots(evicted);
      EvictOldestFirst(fewer, activeKey, protectedTargets, gone, stays);
    }
  }

  /** What stays of the draft after text eviction, seen from a survivor of the result. */
  lemma SurvivorEvicted(e: Stages, u: Scope, d: Conversation) returns (v: Scope, y: Conversation)
    requires e.truncated == TruncateText(e.evicted) && e.result == DropImages(e.truncated) && Holds(e.result, u, d)
    ensures Holds(e.evicted, v, y) && v.key == u.key && y.id == d.id && y.updatedOrder == d.updatedOrder
  {
    hide DropImages, TruncateText;
    var r := LaterFrame(e.evicted);
    v, y := FrameBack(r, e.evicted, u, d);
  }

  lemma SurvivorScope(e: Stages, activeKey: string, protectedTargets: set<string>, u: Scope) returns (w: Scope)
    requires Shape(e.fewer) && e.evicted == EvictText(e.fewer, activeKey, protectedTargets)
    requires e.truncated == TruncateText(e.evicted) && e.result == DropImages(e.truncated) && u in e.result
    ensures w in e.fewer && w.key == u.key && w.updatedOrder == u.updatedOrder
  {
    hide DropImages, TruncateText, EvictText, Shape;
    var r := LaterFrame(e.evicted);
    FrameFrom(r, e.evicted);
    EvictFrom(e.fewer, activeKey, protectedTargets);
    var v :| v in e.evicted && ScopeFrom(u, v);
    w :| w in e.fewer && ScopeFrom(v, w);
  }

  /** Every conversation of the draft that is gone from the result was removable and
      older than everything removable that stays, within its scope, among scopes, or
      in the whole store. */
  lemma GoneWasOldest(
    scopes: seq<Scope>, activeKey: string, protectedTargets: set<string>, revision: nat, s: Scope, c: Conversation)
    requires Shape(scopes) && Content(scopes, revision) && EnforceBounds(scopes, activeKey, protectedTargets).Some?
    requires Holds(scopes, s, c)
    requires forall u, d :: Holds(EnforceBounds(scopes, activeKey, protectedTargets).value, u, d) ==>
      !(u.key == s.key && d.id == c.id)
    ensures var r := EnforceBounds(scopes, activeKey, protectedTargets).value;
      || OverfullScope(r, protectedTargets, s, c)
      || OverfullStore(scopes, r, activeKey, protectedTargets, s)
      || OverfullText(scopes, r, activeKey, protectedTargets, s, c)
  {
    var e := SomeStages(scopes, activeKey, protectedTargets, revision);
    KeptStable(scopes, activeKey, protectedTargets, e);
    hide EnforceBounds, EvictText, CapScopes, DropImages, TruncateText, CountsBounded, TextBytes, Kept, OverfullScope, OverfullStore, OverfullText;
    var i :| 0 <= i < |scopes| && scopes[i] == s;
    var t := e.capped[i];
    var x := TrimMessages(c);
    TrimKeepsId(c);
    CapOneScope(s, protectedTargets, t);
    hide CapAll, TrimMessages, CapConversations;
    if x !in t.conversations {
      SurvivorsInCapped(e, activeKey, protectedTargets);
      GoneFromScope(scopes, protectedTargets, revision, e.capped, e.result, s, t, c);
    } else if t !in e.fewer {
      CappedDistinct(scopes, protectedTargets, revision, e.capped);
      forall u | u in e.result ensures exists w :: w in e.fewer && w.key == u.key && w.updatedOrder == u.updatedOrder {
        var w := SurvivorScope(e, activeKey, protectedTargets, u);
      }
      GoneWithScope(scopes, activeKey, protectedTargets, e.capped, e.fewer, e.result, s, t);
    } else {
      GoneLater(scopes, activeKey, protectedTargets, revision, e, s, t, c, x);
    }
  }

  lemma SurvivorsInCapped(e: Stages, activeKey: string, protectedTargets: set<string>)
    requires Shape(e.capped) && CapScopes(e.capped, activeKey, protectedTargets) == Some(e.fewer) && Shape(e.fewer)
    requires e.evicted == EvictText(e.fewer, activeKey, protectedTargets)
    requires e.truncated == TruncateText(e.evicted) && e.result == DropImages(e.truncated)
    ensures forall u, d :: Holds(e.result, u, d) ==>
      exists w, y :: Holds(e.capped, w, y) && w.key == u.key && y.id == d.id && y.updatedOrder == d.updatedOrder
  {
    CapScopesMembers(e.capped, activeKey, protectedTargets);
    EvictWithin(e.fewer, activeKey, protectedTargets);
    hide EvictText, CapScopes, DropImages, TruncateText, Shape;
    FewerWithin(e.capped, e.fewer);
    WithinTransitive(e.evicted, e.fewer, e.capped);
    forall u, d | Holds(e.result, u, d)
      ensures exists w, y :: Holds(e.capped, w, y) && w.key == u.key && y.id == d.id && y.updatedOrder == d.updatedOrder
    {
      var v, y := SurvivorEvicted(e, u, d);
      var w :| Holds(e.capped, w, y) && w.key == v.key;
    }
  }

  lemma CappedDistinct(scopes: seq<Scope>, protectedTargets: set<string>, revision: nat, capped: seq<Scope>)
    requires Shape(scopes) && Content(scopes, revision) && CapAll(scopes, protectedTargets) == Some(capped)
    ensures DistinctScopes(capped)
  {
    CapAllShape(scopes, protectedTargets);
    SlotsFrom(capped, scopes);
    forall a, b | a in capped && b in capped && a.updatedOrder == b.updatedOrder ensures a.key == b.key {
      assert Slot(a.key, "", a.updatedOrder) in ScopeSlots(capped) && Slot(b.key, "", b.updatedOrder) in ScopeSlots(capped);
    }
  }

  lemma FewerDistinct(
    scopes: seq<Scope>, activeKey: string, protectedTargets: set<string>, revision: nat, capped: seq<Scope>,
    fewer: seq<Scope>)
    requires Shape(scopes) && Content(scopes, revision) && CapAll(scopes, protectedTargets) == Some(capped)
    requires Shape(capped) && CapScopes(capped, activeKey, protectedTargets) == Some(fewer)
    ensures OrdersDistinct(ConversationSlots(fewer))
  {
    CapAllShape(scopes, protectedTargets);
    CapScopesMembers(capped, activeKey, protectedTargets);
    hide CapAll, CapScopes;
    SubsetFrom(fewer, capped);
    FromTransitive(fewer, capped, scopes);
    ContentFrom(fewer, scopes, revision);
  }

  lemma GoneLater(
    scopes: seq<Scope>, activeKey: string, protectedTargets: set<string>, revision: nat, e: Stages, s: Scope, t: Scope,
    c: Conversation, x: Conversation)
    requires Shape(scopes) && Content(scopes, revision) && CapAll(scopes, protectedTargets) == Some(e.capped)
    requires CapScopes(e.capped, activeKey, protectedTargets) == Some(e.fewer) && Shape(e.capped) && Shape(e.fewer)
    requires e.evicted == EvictText(e.fewer, activeKey, protectedTargets) && Shape(e.evicted)
    requires e.truncated == TruncateText(e.evicted) && e.result == DropImages(e.truncated)
    requires Kept(e.fewer, activeKey, protectedTargets) == Kept(scopes, activeKey, protectedTargets)
    requires Holds(e.fewer, t, x) && t.key == s.key && x.id == c.id && x.updatedOrder == c.updatedOrder
    requires forall u, d :: Holds(e.result, u, d) ==> !(u.key == s.key && d.id == c.id)
    ensures OverfullText(scopes, e.result, activeKey, protectedTargets, s, c)
  {
    FewerDistinct(scopes, activeKey, protectedTargets, revision, e.capped, e.fewer);
    hide ConversationSlots, From, ScopeFrom, ConversationFrom;
    hide EvictText, CapScopes, CapAll, DropImages, TruncateText, Kept, Content, Shape, OrdersDistinct, OverfullText;
    var r := LaterFrame(e.evicted);
    forall v, y | v in e.evicted && y in v.conversations ensures !(v.key == t.key && y.id == x.id) {
      var u, d := FrameAt(r, e.evicted, v, y);
    }
    forall u, d | Holds(e.result, u, d)
      ensures exists v, y :: Holds(e.evicted, v, y) && v.key == u.key && y.id == d.id && y.updatedOrder == d.updatedOrder
    {
      var v, y := SurvivorEvicted(e, u, d);
    }
    GoneForText(scopes, activeKey, protectedTargets, e.fewer, e.evicted, e.result, s, t, c, x);
  }

  // ----- images -----

  ghost predicate SizesOk(bs: seq<Body>) {
    forall i :: 0 <= i < |bs| ==> 0 < bs[i].size <= MAX_ATTACHMENT_BYTES
  }

  lemma {:induction false} AttachmentSizes(order: nat, attachments: seq<Attachment>)
    requires forall i :: 0 <= i < |attachments| ==> AttachmentOk(attachments[i])
    ensures SizesOk(AttachmentBodies(order, attachments))
  {
    if attachments != [] {
      AttachmentSizes(order, attachments[1..]);
    }
  }

  lemma {:induction false} MessageSizes(ms: seq<Message>, order: nat)
    requires forall i :: 0 <= i < |ms| ==> MessageOk(ms[i], order)
    ensures SizesOk(MessageBodies(ms))
  {
    if ms != [] {
      AttachmentSizes(ms[0].createdOrder, ms[0].attachments);
      MessageSizes(ms[1..], order);
      hide AttachmentBodies, AttachmentOk;
    }
  }

  lemma {:induction false} ConversationSizes(cs: seq<Conversation>, revision: nat)
    requires forall c :: c in cs ==> ConversationOk(c, revision)
    ensures SizesOk(ConversationBodies(cs))
  {
    if cs != [] {
      assert ConversationOk(cs[0], revision);
      MessageSizes(cs[0].messages, cs[0].updatedOrder);
      ConversationSizes(cs[1..], revision);
      hide MessageBodies, ConversationOk;
    }
  }

  lemma {:induction false} BodySizes(scopes: seq<Scope>, revision: nat)
    requires forall s, c :: Holds(scopes, s, c) ==> ConversationOk(c, revision)
    ensures SizesOk(Bodies(scopes))
  {
    if scopes != [] {
      forall c | c in scopes[0].conversations ensures ConversationOk(c, revision) {
        assert Holds(scopes, scopes[0], c);
      }
      ConversationSizes(scopes[0].conversations, revision);
      forall s, c | Holds(scopes[1..], s, c) ensures ConversationOk(c, revision) {
        assert Holds(scopes, s, c);
      }
      BodySizes(scopes[1..], revision);
      hide ConversationBodies, ConversationOk;
    }
  }

  /** If the image pass changes anything, two bodies stay. */
  lemma PassLeavesTwo(scopes: seq<Scope>, revision: nat)
    requires forall s, c :: Holds(scopes, s, c) ==> ConversationOk(c, revision)
    ensures DropImages(scopes) == scopes || |Bodies(DropImages(scopes))| >= 2
  {
    if !ImagesFit(Bodies(scopes)) {
      BodySizes(scopes, revision);
      DropImagesBodies(scopes);
      TwoNewestStay(Bodies(scopes));
    }
  }

  lemma SameOrderSameMessage(ms: seq<Message>, a: Message, b: Message)
    requires Ascending(ms) && a in ms && b in ms && a.createdOrder == b.createdOrder
    ensures a == b
  {
    var i :| 0 <= i < |ms| && ms[i] == a;
    var j :| 0 <= j < |ms| && ms[j] == b;
  }

  /** Up to the image pass, a message is in the result as it was in the draft. */
  lemma UnchangedMessage(
    scopes: seq<Scope>, activeKey: string, protectedTargets: set<string>, revision: nat, e: Stages,
    s: Scope, c: Conversation, m: Message, s': Scope, c': Conversation, m': Message)
    requires Shape(scopes) && CapAll(scopes, protectedTargets) == Some(e.capped) && Shape(e.capped)
    requires CapScopes(e.capped, activeKey, protectedTargets) == Some(e.fewer) && Shape(e.fewer)
    requires e.evicted == EvictText(e.fewer, activeKey, protectedTargets) && e.truncated == TruncateText(e.evicted)
    requires Holds(scopes, s, c) && ConversationOk(c, revision) && m in c.messages
    requires Holds(e.truncated, s', c') && m' in c'.messages
    requires s'.key == s.key && c'.id == c.id && m'.createdOrder == m.createdOrder
    ensures m' == m
  {
    hide EvictText, CapScopes, CapAll, TruncateText, Shape, Ascending;
    var t, x := TruncatedTail(e.evicted, s', c');
    var t0, d := BeforeTruncation(scopes, activeKey, protectedTargets, e, t, x);
    TrimKeepsId(d);
    SameConversation(scopes, s, c, t0, d);
    TailHas(c', x, m');
    TrimHas(c, m');
    SameOrderSameMessage(c.messages, m, m');
  }

  lemma TailHas(c': Conversation, c: Conversation, m: Message)
    requires TailOf(c', c) && m in c'.messages
    ensures m in c.messages
  {
  }

  lemma TrimHas(c: Conversation, m: Message)
    requires m in TrimMessages(c).messages
    ensures m in c.messages
  {
  }

  /** If a message that stays lost an image body, two bodies stay. */
  lemma LossLeavesTwo(
    scopes: seq<Scope>, activeKey: string, protectedTargets: set<string>, revision: nat,
    s: Scope, c: Conversation, m: Message, s': Scope, c': Conversation, m': Message)
    requires Shape(scopes) && Content(scopes, revision) && EnforceBounds(scopes, activeKey, protectedTargets).Some?
    requires Holds(scopes, s, c) && m in c.messages
    requires Holds(EnforceBounds(scopes, activeKey, protectedTargets).value, s', c') && m' in c'.messages
    requires s'.key == s.key && c'.id == c.id && m'.createdOrder == m.createdOrder && m' != m
    ensures |Bodies(EnforceBounds(scopes, activeKey, protectedTargets).value)| >= 2
  {
    var e := SomeStages(scopes, activeKey, protectedTargets, revision);
    assert ConversationOk(c, revision);
    TruncateFrame(e.evicted);
    FrameFrom(e.truncated, e.evicted);
    ContentFrom(e.truncated, e.evicted, revision);
    PassLeavesTwo(e.truncated, revision);
    hide EnforceBounds, EvictText, CapScopes, CapAll, TruncateText, DropImages, Shape, CountsBounded, Bodies, ConversationOk;
    if e.result == e.truncated {
      UnchangedMessage(scopes, activeKey, protectedTargets, revision, e, s, c, m, s', c', m');
    }
  }

  // ----- from one state to the next -----

  /** An accepted call that changes the store publishes what the pass left of a ready
      draft. */
  lemma CallPublishes(st: State, op: Op, call: Step)
    requires Inv(st) && CallOf(st, op) == Ok(call) && call.Commit? && Apply(st, op).Ok?
    ensures Shape(call.draft) && Content(call.draft, st.revision + 1)
    ensures EnforceBounds(call.draft, call.activeKey, call.protectedTargets) == Some(Apply(st, op).value.scopes)
  {
    InvParts(st);
    ReadyDraft(st, op, call);
    ApplyIsFinish(st, op, call);
    hide Inv, CallOf, Apply, Finish, EnforceBounds, Shape, Content;
  }

  /** Every conversation of a call's draft that is gone from its result was removable
      and older than everything removable that stays. */
  lemma EvictionTakesOldest(st: State, op: Op, call: Step, s: Scope, c: Conversation)
    requires Inv(st) && CallOf(st, op) == Ok(call) && call.Commit? && Apply(st, op).Ok? && Holds(call.draft, s, c)
    requires forall u, d :: Holds(Apply(st, op).value.scopes, u, d) ==> !(u.key == s.key && d.id == c.id)
    ensures var r := Apply(st, op).value.scopes;
      || OverfullScope(r, call.protectedTargets, s, c)
      || OverfullStore(call.draft, r, call.activeKey, call.protectedTargets, s)
      || OverfullText(call.draft, r, call.activeKey, call.protectedTargets, s, c)
  {
    hide Inv, CallOf, Apply, EnforceBounds, Shape, Content, OverfullScope, OverfullStore, OverfullText;
    CallPublishes(st, op, call);
    GoneWasOldest(call.draft, call.activeKey, call.protectedTargets, st.revision + 1, s, c);
  }

  /** If a call cut messages, beyond those over 63, off a conversation that stays, then
      every conversation that stays is the active one or protected. */
  lemma TruncationComesLast(
    st: State, op: Op, call: Step, s: Scope, c: Conversation, s': Scope, c': Conversation, u: Scope, d: Conversation)
    requires Inv(st) && CallOf(st, op) == Ok(call) && call.Commit? && Apply(st, op).Ok? && Holds(call.draft, s, c)
    requires Holds(Apply(st, op).value.scopes, s', c') && Holds(Apply(st, op).value.scopes, u, d)
    requires s'.key == s.key && c'.id == c.id && |c'.messages| < |TrimMessages(c).messages|
    ensures TargetKey(u.key, d.id) in Kept(call.draft, call.activeKey, call.protectedTargets)
  {
    hide Inv, CallOf, Apply, EnforceBounds, Shape, Content, Kept, TrimMessages;
    CallPublishes(st, op, call);
    TruncatedOnlyAtLast(call.draft, call.activeKey, call.protectedTargets, st.revision + 1, s, c, s', c', u, d);
  }

  /** If a call took an image body out of a message that stays, at least two bodies
      stay in the store. */
  lemma ImageLossLeavesTwo(
    st: State, op: Op, call: Step, s: Scope, c: Conversation, m: Message, s': Scope, c': Conversation, m': Message)
    requires Inv(st) && CallOf(st, op) == Ok(call) && call.Commit? && Apply(st, op).Ok?
    requires Holds(call.draft, s, c) && m in c.messages
    requires Holds(Apply(st, op).value.scopes, s', c') && m' in c'.messages
    requires s'.key == s.key && c'.id == c.id && m'.createdOrder == m.createdOrder && m' != m
    ensures |Bodies(Apply(st, op).value.scopes)| >= 2
  {
    hide Inv, CallOf, Apply, EnforceBounds, Shape, Content, Bodies;
    CallPublishes(st, op, call);
    LossLeavesTwo(call.draft, call.activeKey, call.protectedTargets, st.revision + 1, s, c, m, s', c', m');
  }
}
