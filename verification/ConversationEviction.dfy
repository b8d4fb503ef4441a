/** What each eviction phase promises: who is spared, in which order the rest
    goes, and that one pass meets every limit at once. */
module ConversationEviction {
  import opened Text
  import opened ConversationKeys
  import opened ConversationModel
  import opened ConversationBounds

  // ----- phase 3 spares the active and the protected, oldest first -----

  lemma {:induction false} ActiveTargetIs(scopes: seq<Scope>, s: Scope)
    requires UniqueKeys(scopes) && s in scopes
    ensures ActiveTarget(scopes, s.key) == {TargetKey(s.key, s.activeId)}
  {
    if scopes[0].key == s.key {
      SameKeySameScope(scopes, scopes[0], s);
    } else {
      ActiveTargetIs(scopes[1..], s);
    }
  }

  lemma {:induction false} NoActiveTarget(scopes: seq<Scope>, key: string)
    requires !HasKey(scopes, key)
    ensures ActiveTarget(scopes, key) == {}
  {
    if scopes != [] {
      assert scopes[0] in scopes && forall s :: s in scopes[1..] ==> s in scopes;
      NoActiveTarget(scopes[1..], key);
    }
  }

  /** Removing a conversation outside `keep` leaves a kept one in place. */
  lemma RemovalSpares(scopes: seq<Scope>, v: Scope, victim: Conversation, s: Scope, c: Conversation) returns (s': Scope)
    requires Shape(scopes) && Holds(scopes, v, victim) && Holds(scopes, s, c)
    requires TargetKey(v.key, victim.id) != TargetKey(s.key, c.id)
    ensures s' == if s.key == v.key then Drop(s, victim.id) else s
    ensures Holds(RemoveConversation(scopes, v.key, victim.id), s', c) && s'.key == s.key
  {
    RemovalMembers(scopes, v.key, victim.id, v);
    s' := s;
    if s.key == v.key {
      SameKeySameScope(scopes, s, v);
      s' := Drop(s, victim.id);
    }
  }

  /** Evicting a conversation that is not the active one keeps the active one active. */
  lemma ActiveTargetStable(scopes: seq<Scope>, v: Scope, victim: Conversation, activeKey: string)
    requires Shape(scopes) && Holds(scopes, v, victim)
    requires TargetKey(v.key, victim.id) !in ActiveTarget(scopes, activeKey)
    ensures ActiveTarget(RemoveConversation(scopes, v.key, victim.id), activeKey) == ActiveTarget(scopes, activeKey)
  {
    var r := RemoveConversation(scopes, v.key, victim.id);
    RemovalMembers(scopes, v.key, victim.id, v);
    if HasKey(scopes, activeKey) {
      var s :| s in scopes && s.key == activeKey;
      ActiveTargetIs(scopes, s);
      if s.key == v.key {
        SameKeySameScope(scopes, s, v);
        DropShape(s, victim.id);
        ActiveTargetIs(r, Drop(s, victim.id));
      } else {
        ActiveTargetIs(r, s);
      }
    } else {
      NoActiveTarget(scopes, activeKey);
      NoActiveTarget(r, activeKey);
    }
  }

  ghost predicate EvictsMore(scopes: seq<Scope>, activeKey: string, protectedTargets: set<string>) {
    TextBytes(scopes) > MAX_TEXT_BYTES && AllCandidates(scopes, Kept(scopes, activeKey, protectedTargets)) != []
  }

  /** One turn of the eviction loop. */
  lemma EvictOnce(scopes: seq<Scope>, activeKey: string, protectedTargets: set<string>)
    returns (v: Scope, d: Conversation, rest: seq<Scope>)
    requires Shape(scopes) && EvictsMore(scopes, activeKey, protectedTargets)
    ensures Holds(scopes, v, d) && TargetKey(v.key, d.id) !in Kept(scopes, activeKey, protectedTargets)
    ensures Oldest(AllCandidates(scopes, Kept(scopes, activeKey, protectedTargets))) == AsCandidate(v.key, d)
    ensures rest == RemoveConversation(scopes, v.key, d.id) && Shape(rest)
    ensures ConversationCount(rest) < ConversationCount(scopes)
    ensures EvictText(scopes, activeKey, protectedTargets) == EvictText(rest, activeKey, protectedTargets)
    ensures Kept(rest, activeKey, protectedTargets) == Kept(scopes, activeKey, protectedTargets)
    ensures ActiveTarget(rest, activeKey) == ActiveTarget(scopes, activeKey)
  {
    var keep := Kept(scopes, activeKey, protectedTargets);
    var victim := Oldest(AllCandidates(scopes, keep));
    EvictionStep(scopes, keep, victim);
    v, d := CandidateHolder(scopes, keep, victim);
    rest := RemoveConversation(scopes, v.key, d.id);
    ActiveTargetStable(scopes, v, d, activeKey);
  }

  lemma EvictStops(scopes: seq<Scope>, activeKey: string, protectedTargets: set<string>)
    requires Shape(scopes) && !EvictsMore(scopes, activeKey, protectedTargets)
    ensures EvictText(scopes, activeKey, protectedTargets) == scopes
  {
  }

  lemma {:induction false} EvictFrom(scopes: seq<Scope>, activeKey: string, protectedTargets: set<string>)
    requires Shape(scopes)
    ensures From(EvictText(scopes, activeKey, protectedTargets), scopes)
    decreases ConversationCount(scopes)
  {
    if EvictsMore(scopes, activeKey, protectedTargets) {
      var v, d, rest := EvictOnce(scopes, activeKey, protectedTargets);
      RemovalShape(scopes, v.key, d.id, v);
      EvictFrom(rest, activeKey, protectedTargets);
      FromTransitive(EvictText(rest, activeKey, protectedTargets), rest, scopes);
    } else {
      EvictStops(scopes, activeKey, protectedTargets);
      FromReflexive(scopes);
    }
  }

  /** Text eviction stops within the budget or when nothing is removable. */
  lemma {:induction false} EvictSettles(scopes: seq<Scope>, activeKey: string, protectedTargets: set<string>)
    requires Shape(scopes)
    ensures !EvictsMore(EvictText(scopes, activeKey, protectedTargets), activeKey, protectedTargets)
    ensures ActiveTarget(EvictText(scopes, activeKey, protectedTargets), activeKey) == ActiveTarget(scopes, activeKey)
    decreases ConversationCount(scopes)
  {
    if EvictsMore(scopes, activeKey, protectedTargets) {
      var v, d, rest := EvictOnce(scopes, activeKey, protectedTargets);
      EvictSettles(rest, activeKey, protectedTargets);
    } else {
      EvictStops(scopes, activeKey, protectedTargets);
    }
  }

  /** Text eviction never touches the active conversation or a protected target. */
  lemma {:induction false} EvictSpares(
    scopes: seq<Scope>, activeKey: string, protectedTargets: set<string>, s: Scope, c: Conversation)
    returns (s': Scope)
    requires Shape(scopes) && Holds(scopes, s, c)
    requires TargetKey(s.key, c.id) in Kept(scopes, activeKey, protectedTargets)
    ensures Holds(EvictText(scopes, activeKey, protectedTargets), s', c) && s'.key == s.key
    decreases ConversationCount(scopes)
  {
    if EvictsMore(scopes, activeKey, protectedTargets) {
      var v, d, rest := EvictOnce(scopes, activeKey, protectedTargets);
      var t := RemovalSpares(scopes, v, d, s, c);
      s' := EvictSpares(rest, activeKey, protectedTargets, t, c);
    } else {
      EvictStops(scopes, activeKey, protectedTargets);
      s' := s;
    }
  }

  lemma RemovedSlotGone(scopes: seq<Scope>, v: Scope, victim: Conversation)
    requires Shape(scopes) && Holds(scopes, v, victim)
    ensures forall y :: y in ConversationSlots(RemoveConversation(scopes, v.key, victim.id)) ==>
      !(y.key == v.key && y.id == victim.id)
  {
    RemovalMembers(scopes, v.key, victim.id, v);
  }

  ghost predicate Removable(x: Slot, keep: set<string>) {
    TargetKey(x.key, x.id) !in keep
  }

  /** One eviction: the victim is removable and older than every removable survivor. */
  lemma VictimIsOldest(scopes: seq<Scope>, keep: set<string>, v: Scope, victim: Conversation, y: Slot)
    requires Shape(scopes) && OrdersDistinct(ConversationSlots(scopes)) && AllCandidates(scopes, keep) != []
    requires Holds(scopes, v, victim) && Oldest(AllCandidates(scopes, keep)) == AsCandidate(v.key, victim)
    requires y in ConversationSlots(RemoveConversation(scopes, v.key, victim.id)) && Removable(y, keep)
    ensures victim.updatedOrder < y.order
  {
    RemovalShape(scopes, v.key, victim.id, v);
    SlotsFrom(RemoveConversation(scopes, v.key, victim.id), scopes);
    RemovedSlotGone(scopes, v, victim);
    var t, d :| t in scopes && d in t.conversations && y == Slot(t.key, d.id, d.updatedOrder);
    assert Holds(scopes, t, d);
    assert !Before(AsCandidate(t.key, d), AsCandidate(v.key, victim));
    assert Slot(v.key, victim.id, victim.updatedOrder) in ConversationSlots(scopes);
  }

  /** Only the victim's slot disappears. */
  lemma EvictedSlot(scopes: seq<Scope>, v: Scope, victim: Conversation, x: Slot)
    requires Shape(scopes) && Holds(scopes, v, victim)
    requires x in ConversationSlots(scopes) && x !in ConversationSlots(RemoveConversation(scopes, v.key, victim.id))
    ensures x == Slot(v.key, victim.id, victim.updatedOrder)
  {
    var s, c :| s in scopes && c in s.conversations && x == Slot(s.key, c.id, c.updatedOrder);
    assert Holds(scopes, s, c);
    RemovalMembers(scopes, v.key, victim.id, v);
    if s.key == v.key {
      SameKeySameScope(scopes, s, v);
      if c.id == victim.id {
        SameIdSameConversation(s.conversations, c, victim);
      }
    }
  }

  lemma EvictedNow(scopes: seq<Scope>, keep: set<string>, v: Scope, victim: Conversation, x: Slot, y: Slot)
    requires Shape(scopes) && OrdersDistinct(ConversationSlots(scopes)) && AllCandidates(scopes, keep) != []
    requires Holds(scopes, v, victim) && Oldest(AllCandidates(scopes, keep)) == AsCandidate(v.key, victim)
    requires TargetKey(v.key, victim.id) !in keep
    requires x in ConversationSlots(scopes) && x !in ConversationSlots(RemoveConversation(scopes, v.key, victim.id))
    requires y in ConversationSlots(RemoveConversation(scopes, v.key, victim.id))
    ensures Removable(x, keep) && (Removable(y, keep) ==> x.order < y.order)
  {
    EvictedSlot(scopes, v, victim, x);
    if Removable(y, keep) {
      VictimIsOldest(scopes, keep, v, victim, y);
    }
  }

  lemma EvictSlots(scopes: seq<Scope>, activeKey: string, protectedTargets: set<string>)
    requires Shape(scopes)
    ensures ConversationSlots(EvictText(scopes, activeKey, protectedTargets)) <= ConversationSlots(scopes)
  {
    EvictFrom(scopes, activeKey, protectedTargets);
    SlotsFrom(EvictText(scopes, activeKey, protectedTargets), scopes);
  }

  lemma RemovalSlots(scopes: seq<Scope>, v: Scope, victim: Conversation)
    requires Shape(scopes) && Holds(scopes, v, victim)
    ensures ConversationSlots(RemoveConversation(scopes, v.key, victim.id)) <= ConversationSlots(scopes)
  {
    RemovalShape(scopes, v.key, victim.id, v);
    SlotsFrom(RemoveConversation(scopes, v.key, victim.id), scopes);
  }

  /** Text eviction drops whole conversations in increasing `updatedOrder`: each
      evicted one was removable and older than every removable survivor. */
  lemma {:induction false} EvictOldestFirst(
    scopes: seq<Scope>, activeKey: string, protectedTargets: set<string>, x: Slot, y: Slot)
    requires Shape(scopes) && OrdersDistinct(ConversationSlots(scopes))
    requires x in ConversationSlots(scopes) && x !in ConversationSlots(EvictText(scopes, activeKey, protectedTargets))
    requires y in ConversationSlots(EvictText(scopes, activeKey, protectedTargets))
    ensures Removable(x, Kept(scopes, activeKey, protectedTargets))
    ensures Removable(y, Kept(scopes, activeKey, protectedTargets)) ==> x.order < y.order
    decreases ConversationCount(scopes)
  {
    if EvictsMore(scopes, activeKey, protectedTargets) {
      var v, d, rest := EvictOnce(scopes, activeKey, protectedTargets);
      EvictSlots(rest, activeKey, protectedTargets);
      RemovalSlots(scopes, v, d);
      if x in ConversationSlots(rest) {
        EvictOldestFirst(rest, activeKey, protectedTargets, x, y);
      } else {
        EvictedNow(scopes, Kept(scopes, activeKey, protectedTargets), v, d, x, y);
      }
    } else {
      EvictStops(scopes, activeKey, protectedTargets);
    }
  }

  // ----- phases 4 and 5 keep the frame -----

  ghost predicate ConversationsFrame(cs': seq<Conversation>, cs: seq<Conversation>) {
    |cs'| == |cs| && forall j :: 0 <= j < |cs| ==> ConversationFrom(cs'[j], cs[j])
  }

  ghost predicate ScopeFrame(s': Scope, s: Scope) {
    s' == s.(conversations := s'.conversations) && ConversationsFrame(s'.conversations, s.conversations)
  }

  /** The same scopes and conversations at the same places. */
  ghost predicate Frame(scopes': seq<Scope>, scopes: seq<Scope>) {
    |scopes'| == |scopes| && forall i :: 0 <= i < |scopes| ==> ScopeFrame(scopes'[i], scopes[i])
  }

  lemma ScopeFrameReflexive(s: Scope)
    ensures ScopeFrame(s, s)
  {
  }

  lemma FrameReflexive(scopes: seq<Scope>)
    ensures Frame(scopes, scopes)
  {
    forall i | 0 <= i < |scopes|
      ensures ScopeFrame(scopes[i], scopes[i])
    {
      ScopeFrameReflexive(scopes[i]);
    }
  }

  lemma ScopeFrameTransitive(a: Scope, b: Scope, c: Scope)
    requires ScopeFrame(a, b) && ScopeFrame(b, c)
    ensures ScopeFrame(a, c)
  {
    forall j | 0 <= j < |c.conversations|
      ensures ConversationFrom(a.conversations[j], c.conversations[j])
    {
      ConversationFromTransitive(a.conversations[j], b.conversations[j], c.conversations[j]);
    }
  }

  lemma FrameTransitive(a: seq<Scope>, b: seq<Scope>, c: seq<Scope>)
    requires Frame(a, b) && Frame(b, c)
    ensures Frame(a, c)
  {
    forall i | 0 <= i < |c|
      ensures ScopeFrame(a[i], c[i])
    {
      assert ScopeFrame(a[i], b[i]) && ScopeFrame(b[i], c[i]);
      ScopeFrameTransitive(a[i], b[i], c[i]);
    }
  }

  lemma ScopeFrameFrom(s': Scope, s: Scope)
    requires ScopeFrame(s', s)
    ensures ScopeFrom(s', s)
  {
    forall c' | c' in s'.conversations
      ensures exists c :: c in s.conversations && ConversationFrom(c', c)
    {
      var j :| 0 <= j < |s'.conversations| && s'.conversations[j] == c';
      assert ConversationFrom(c', s.conversations[j]);
    }
  }

  lemma ScopeFrameShape(s': Scope, s: Scope)
    requires ScopeFrame(s', s) && ScopeShape(s)
    ensures ScopeShape(s')
  {
    var a :| a in s.conversations && a.id == s.activeId;
    var j :| 0 <= j < |s.conversations| && s.conversations[j] == a;
    assert ConversationFrom(s'.conversations[j], a);
    forall i, j | 0 <= i < j < |s'.conversations|
      ensures s'.conversations[i].id != s'.conversations[j].id
    {
      assert ConversationFrom(s'.conversations[i], s.conversations[i]);
      assert ConversationFrom(s'.conversations[j], s.conversations[j]);
    }
  }

  lemma FrameFrom(scopes': seq<Scope>, scopes: seq<Scope>)
    requires Frame(scopes', scopes)
    ensures From(scopes', scopes)
    ensures Shape(scopes) ==> Shape(scopes')
  {
    forall s' | s' in scopes'
      ensures exists s :: s in scopes && ScopeFrom(s', s)
      ensures Shape(scopes) ==> ScopeShape(s')
    {
      var i :| 0 <= i < |scopes'| && scopes'[i] == s';
      ScopeFrameFrom(s', scopes[i]);
      if Shape(scopes) {
        ScopeFrameShape(s', scopes[i]);
      }
    }
    forall i, j | 0 <= i < j < |scopes'| && UniqueKeys(scopes)
      ensures scopes'[i].key != scopes'[j].key
    {
      assert ScopeFrame(scopes'[i], scopes[i]) && ScopeFrame(scopes'[j], scopes[j]);
    }
  }

  lemma FrameCounts(scopes': seq<Scope>, scopes: seq<Scope>)
    requires Frame(scopes', scopes) && CountsBounded(scopes)
    ensures CountsBounded(scopes')
  {
    forall s' | s' in scopes'
      ensures |s'.conversations| <= MAX_CONVERSATIONS
      ensures forall c' :: c' in s'.conversations ==> |c'.messages| <= MAX_MESSAGES
    {
      var i :| 0 <= i < |scopes'| && scopes'[i] == s';
      assert ScopeFrame(s', scopes[i]);
      forall c' | c' in s'.conversations
        ensures |c'.messages| <= MAX_MESSAGES
      {
        var j :| 0 <= j < |s'.conversations| && s'.conversations[j] == c';
        assert ConversationFrom(c', scopes[i].conversations[j]);
        assert Holds(scopes, scopes[i], scopes[i].conversations[j]);
      }
    }
  }

  /** The one conversation a shift shortens, if any, lost its first message. */
  ghost predicate Shifted(c': Conversation, c: Conversation, order: nat) {
    || c' == c
    || (c.messages != [] && c.messages[0].createdOrder == order && c' == c.(messages := c.messages[1..]))
  }

  lemma {:induction false} ShiftConversationsAt(cs: seq<Conversation>, order: nat, j: nat)
    requires j < |cs|
    ensures Shifted(ShiftConversations(cs, order)[j], cs[j], order)
  {
    if cs[0].messages != [] && cs[0].messages[0].createdOrder == order {
    } else if j > 0 {
      ShiftConversationsAt(cs[1..], order, j - 1);
    }
  }

  lemma {:induction false} ShiftScopesAt(scopes: seq<Scope>, order: nat, i: nat)
    requires i < |scopes|
    ensures ShiftScopes(scopes, order)[i] == scopes[i] || ShiftScopes(scopes, order)[i] ==
      scopes[i].(conversations := ShiftConversations(scopes[i].conversations, order))
  {
    if order in FirstOrders(scopes[0].conversations) {
    } else if i > 0 {
      ShiftScopesAt(scopes[1..], order, i - 1);
    }
  }

  lemma ShiftAt(scopes: seq<Scope>, order: nat, i: nat, j: nat)
    requires i < |scopes| && j < |scopes[i].conversations|
    ensures var s' := ShiftScopes(scopes, order)[i];
      && s' == scopes[i].(conversations := s'.conversations)
      && |s'.conversations| == |scopes[i].conversations|
      && Shifted(s'.conversations[j], scopes[i].conversations[j], order)
  {
    ShiftScopesAt(scopes, order, i);
    ShiftConversationsAt(scopes[i].conversations, order, j);
  }

  lemma ShiftedFrom(c': Conversation, c: Conversation, order: nat)
    requires Shifted(c', c, order)
    ensures ConversationFrom(c', c)
  {
    if c' != c {
      TailIsSuffix(c.messages, 1);
    } else {
      ConversationFromReflexive(c);
    }
  }

  lemma ShiftFrame(scopes: seq<Scope>, order: nat)
    ensures Frame(ShiftScopes(scopes, order), scopes)
  {
    var r := ShiftScopes(scopes, order);
    forall i | 0 <= i < |scopes|
      ensures ScopeFrame(r[i], scopes[i])
    {
      ShiftScopesAt(scopes, order, i);
      forall j | 0 <= j < |scopes[i].conversations|
        ensures ConversationFrom(r[i].conversations[j], scopes[i].conversations[j])
      {
        ShiftAt(scopes, order, i, j);
        ShiftedFrom(r[i].conversations[j], scopes[i].conversations[j], order);
      }
    }
  }

  lemma {:induction false} TruncateFrame(scopes: seq<Scope>)
    ensures Frame(TruncateText(scopes), scopes)
    decreases MessageCount(scopes)
  {
    FrameReflexive(scopes);
    if TextBytes(scopes) > MAX_TEXT_BYTES && AllFirstOrders(scopes) != [] {
      var order := Least(AllFirstOrders(scopes));
      ShiftScopesCount(scopes, order);
      var rest := ShiftScopes(scopes, order);
      ShiftFrame(scopes, order);
      TruncateFrame(rest);
      FrameTransitive(TruncateText(rest), rest, scopes);
    }
  }

  // ----- phase 4 always meets the text budget -----

  const TITLES_PER_SCOPE: nat := MAX_CONVERSATIONS * MAX_TITLE_BYTES

  lemma {:induction false} FirstOrdersMembers(cs: seq<Conversation>)
    ensures forall c :: c in cs && c.messages != [] ==> c.messages[0].createdOrder in FirstOrders(cs)
    ensures forall o :: o in FirstOrders(cs) ==> exists c :: c in cs && c.messages != [] && c.messages[0].createdOrder == o
  {
    if cs != [] {
      FirstOrdersMembers(cs[1..]);
    }
  }

  lemma {:induction false} AllFirstOrdersHas(scopes: seq<Scope>, s: Scope, c: Conversation)
    requires Holds(scopes, s, c) && c.messages != []
    ensures c.messages[0].createdOrder in AllFirstOrders(scopes)
  {
    FirstOrdersMembers(scopes[0].conversations);
    if s != scopes[0] {
      assert Holds(scopes[1..], s, c);
      AllFirstOrdersHas(scopes[1..], s, c);
    }
  }

  lemma {:induction false} FirstOrderHolder(scopes: seq<Scope>, o: nat) returns (s: Scope, c: Conversation)
    requires o in AllFirstOrders(scopes)
    ensures Holds(scopes, s, c) && c.messages != [] && c.messages[0].createdOrder == o
  {
    if o in FirstOrders(scopes[0].conversations) {
      FirstOrdersMembers(scopes[0].conversations);
      s := scopes[0];
      c :| c in s.conversations && c.messages != [] && c.messages[0].createdOrder == o;
    } else {
      s, c := FirstOrderHolder(scopes[1..], o);
    }
  }

  /** All text is titles, except in one conversation. */
  lemma {:induction false} LoneConversationBytes(cs: seq<Conversation>, id: string, bytes: nat)
    requires UniqueIds(cs)
    requires forall c :: c in cs ==> Bytes(c.title) <= MAX_TITLE_BYTES
    requires forall c :: c in cs ==> c.messages == [] || (c.id == id && MessagesBytes(c.messages) <= bytes)
    ensures ConversationsBytes(cs) <= |cs| * MAX_TITLE_BYTES + bytes
    ensures !HasId(cs, id) ==> ConversationsBytes(cs) <= |cs| * MAX_TITLE_BYTES
  {
    if cs != [] {
      LoneConversationBytes(cs[1..], id, bytes);
      assert cs[0] in cs;
      assert HasId(cs[1..], id) ==> cs[0].id != id;
    }
  }

  ghost predicate LoneIn(s: Scope, key: string, id: string, bytes: nat) {
    && UniqueIds(s.conversations)
    && |s.conversations| <= MAX_CONVERSATIONS
    && forall c :: c in s.conversations ==>
      && Bytes(c.title) <= MAX_TITLE_BYTES
      && (c.messages == [] || (s.key == key && c.id == id && MessagesBytes(c.messages) <= bytes))
  }

  lemma LoneInBytes(s: Scope, key: string, id: string, bytes: nat)
    requires LoneIn(s, key, id, bytes)
    ensures ConversationsBytes(s.conversations) <= TITLES_PER_SCOPE + if s.key == key then bytes else 0
  {
    LoneConversationBytes(s.conversations, id, if s.key == key then bytes else 0);
  }

  lemma {:induction false} LoneScopeBytes(scopes: seq<Scope>, key: string, id: string, bytes: nat)
    requires UniqueKeys(scopes)
    requires forall s :: s in scopes ==> LoneIn(s, key, id, bytes)
    ensures TextBytes(scopes) <= |scopes| * TITLES_PER_SCOPE + if HasKey(scopes, key) then bytes else 0
  {
    hide LoneIn, ConversationsBytes;
    if scopes != [] {
      assert scopes[0] in scopes;
      LoneInBytes(scopes[0], key, id, bytes);
      UniqueKeysTail(scopes);
      LoneScopeBytes(scopes[1..], key, id, bytes);
      assert HasKey(scopes[1..], key) ==> HasKey(scopes, key) && scopes[0].key != key;
    }
  }

  lemma NoMessagesLone(scopes: seq<Scope>, revision: nat, s: Scope, key: string, id: string, bytes: nat)
    requires Shape(scopes) && Content(scopes, revision) && CountsBounded(scopes)
    requires AllFirstOrders(scopes) == [] && s in scopes
    ensures LoneIn(s, key, id, bytes)
  {
    assert ScopeShape(s);
    forall c | c in s.conversations
      ensures c.messages == [] && Bytes(c.title) <= MAX_TITLE_BYTES
    {
      assert Holds(scopes, s, c) && ConversationOk(c, revision);
      if c.messages != [] {
        AllFirstOrdersHas(scopes, s, c);
      }
    }
  }

  lemma TitlesBudget(scopeCount: nat, bytes: nat)
    requires scopeCount <= MAX_SCOPES && bytes <= scopeCount * TITLES_PER_SCOPE
    ensures bytes <= MAX_TEXT_BYTES
  {
  }

  lemma NoMessagesFit(scopes: seq<Scope>, revision: nat)
    requires Shape(scopes) && Content(scopes, revision) && CountsBounded(scopes)
    requires AllFirstOrders(scopes) == []
    ensures TextBytes(scopes) <= MAX_TEXT_BYTES
  {
    forall s | s in scopes
      ensures LoneIn(s, "", "", 0)
    {
      NoMessagesLone(scopes, revision, s, "", "", 0);
    }
    hide Content, CountsBounded, LoneIn, TextBytes;
    LoneScopeBytes(scopes, "", "", 0);
    assert |scopes| <= MAX_SCOPES by {
      FewScopes(scopes);
    }
    TitlesBudget(|scopes|, TextBytes(scopes));
  }

  lemma FewScopes(scopes: seq<Scope>)
    requires CountsBounded(scopes)
    ensures |scopes| <= MAX_SCOPES
  {
  }

  /** With every message gone the titles fit, so the last throw is unreachable. */
  lemma {:induction false} TruncateFits(scopes: seq<Scope>, revision: nat)
    requires Shape(scopes) && Content(scopes, revision) && CountsBounded(scopes)
    ensures TextBytes(TruncateText(scopes)) <= MAX_TEXT_BYTES
    decreases MessageCount(scopes)
  {
    if TextBytes(scopes) > MAX_TEXT_BYTES {
      if AllFirstOrders(scopes) == [] {
        NoMessagesFit(scopes, revision);
      } else {
        var order := Least(AllFirstOrders(scopes));
        ShiftScopesCount(scopes, order);
        var rest := ShiftScopes(scopes, order);
        ShiftFrame(scopes, order);
        FrameFrom(rest, scopes);
        ContentFrom(rest, scopes, revision);
        FrameCounts(rest, scopes);
        TruncateFits(rest, revision);
      }
    }
  }
}
