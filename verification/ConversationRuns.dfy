/** Runs of the conversation store: the invariant of every reachable state, when a
    call may hit the bound throw, and what one call may do to a history. */
module ConversationRuns {
  import opened Text
  import opened ConversationKeys
  import opened ConversationModel
  import opened ConversationBounds
  import opened ConversationEviction
  import opened ConversationPasses
  import opened ConversationPass
  import opened ConversationStore

  // ----- a draft uses one fresh order -----

  /** A conversation the call touched: its own order is the new one and its
      messages are old ones of the same conversation or carry the new order. */
  ghost predicate Fresh(c: Conversation, scopes: seq<Scope>, key: string, id: string, order: nat) {
    && c.id == id && c.updatedOrder == order
    && ConversationOk(c, order)
    && forall m :: m in c.messages ==> m.createdOrder == order || Slot(key, id, m.createdOrder) in MessageSlots(scopes)
  }

  ghost predicate Untouched(c: Conversation, scopes: seq<Scope>, key: string) {
    exists s :: s in scopes && s.key == key && c in s.conversations
  }

  /** A draft differs from the published scopes in one scope, and there in at
      most one conversation, all stamped with one fresh order. */
  ghost predicate DraftOf(draft: seq<Scope>, scopes: seq<Scope>, key: string, id: string, order: nat) {
    && IsScopeKey(key)
    && (forall s :: s in draft && s.key != key ==> s in scopes)
    && (forall s :: s in draft && s.key == key ==> s.createdOrder <= s.updatedOrder == order)
    && (forall s, c :: Holds(draft, s, c) && s.key == key ==>
          Untouched(c, scopes, key) || Fresh(c, scopes, key, id, order))
  }

  ghost predicate OrdersUpTo(slots: set<Slot>, bound: nat) {
    forall x :: x in slots ==> x.order <= bound
  }

  lemma SlotsBounded(scopes: seq<Scope>, revision: nat)
    requires Content(scopes, revision)
    ensures OrdersUpTo(ScopeSlots(scopes), revision)
    ensures OrdersUpTo(ConversationSlots(scopes), revision)
    ensures OrdersUpTo(MessageSlots(scopes), revision)
  {
    forall x | x in ConversationSlots(scopes)
      ensures x.order <= revision
    {
      var s, c :| s in scopes && c in s.conversations && x == Slot(s.key, c.id, c.updatedOrder);
      assert Holds(scopes, s, c);
    }
    forall x | x in MessageSlots(scopes)
      ensures x.order <= revision
    {
      var i, j, k := MessageHolder(scopes, x);
      var c := scopes[i].conversations[j];
      assert Holds(scopes, scopes[i], c) && ConversationOk(c, revision);
      assert MessageOk(c.messages[k], c.updatedOrder);
    }
  }

  lemma AddedOrderDistinct(slots': set<Slot>, slots: set<Slot>, x: Slot, revision: nat)
    requires OrdersDistinct(slots) && OrdersUpTo(slots, revision) && x.order == revision + 1
    requires slots' <= slots + {x}
    ensures OrdersDistinct(slots')
  {
  }

  lemma DraftSlots(draft: seq<Scope>, scopes: seq<Scope>, key: string, id: string, order: nat)
    requires DraftOf(draft, scopes, key, id, order)
    ensures ScopeSlots(draft) <= ScopeSlots(scopes) + {Slot(key, "", order)}
    ensures ConversationSlots(draft) <= ConversationSlots(scopes) + {Slot(key, id, order)}
    ensures MessageSlots(draft) <= MessageSlots(scopes) + {Slot(key, id, order)}
  {
    forall x | x in ConversationSlots(draft)
      ensures x in ConversationSlots(scopes) + {Slot(key, id, order)}
    {
      var s, c :| s in draft && c in s.conversations && x == Slot(s.key, c.id, c.updatedOrder);
      assert Holds(draft, s, c);
    }
    forall x | x in MessageSlots(draft)
      ensures x in MessageSlots(scopes) + {Slot(key, id, order)}
    {
      var s, c, m :| s in draft && c in s.conversations && m in c.messages && x == Slot(s.key, c.id, m.createdOrder);
      assert Holds(draft, s, c);
    }
  }

  lemma ConversationOkLater(c: Conversation, revision: nat, later: nat)
    requires ConversationOk(c, revision) && revision <= later
    ensures ConversationOk(c, later)
  {
  }

  lemma DraftContent(draft: seq<Scope>, scopes: seq<Scope>, key: string, id: string, revision: nat)
    requires Content(scopes, revision) && DraftOf(draft, scopes, key, id, revision + 1)
    ensures Content(draft, revision + 1)
  {
    SlotsBounded(scopes, revision);
    DraftSlots(draft, scopes, key, id, revision + 1);
    AddedOrderDistinct(ScopeSlots(draft), ScopeSlots(scopes), Slot(key, "", revision + 1), revision);
    AddedOrderDistinct(ConversationSlots(draft), ConversationSlots(scopes), Slot(key, id, revision + 1), revision);
    AddedOrderDistinct(MessageSlots(draft), MessageSlots(scopes), Slot(key, id, revision + 1), revision);
    DraftPartsOk(draft, scopes, key, id, revision);
  }

  lemma DraftPartsOk(draft: seq<Scope>, scopes: seq<Scope>, key: string, id: string, revision: nat)
    requires Content(scopes, revision) && DraftOf(draft, scopes, key, id, revision + 1)
    ensures forall s :: s in draft ==> ScopeOk(s, revision + 1)
    ensures forall s, c :: Holds(draft, s, c) ==> ConversationOk(c, revision + 1)
  {
    forall s, c | Holds(draft, s, c)
      ensures ConversationOk(c, revision + 1)
    {
      if s.key != key {
        assert Holds(scopes, s, c);
        ConversationOkLater(c, revision, revision + 1);
      } else if Untouched(c, scopes, key) {
        var t :| t in scopes && t.key == key && c in t.conversations;
        assert Holds(scopes, t, c);
        ConversationOkLater(c, revision, revision + 1);
      }
    }
  }

  // ----- each transition's draft -----

  /** What every draft handed to `finish` satisfies. */
  ghost predicate DraftReady(draft: seq<Scope>, activeKey: string, protectedTargets: set<string>, order: nat) {
    && Shape(draft)
    && Content(draft, order)
    && |draft| <= MAX_SCOPES + 1
    && (forall s :: s in draft ==> Cappable(s, protectedTargets))
    && IsScopeKey(activeKey)
    && (draft != [] ==> HasKey(draft, activeKey))
  }

  /** Every conversation of the draft but the touched one is as it was. */
  ghost predicate Keeps(draft: seq<Scope>, scopes: seq<Scope>, key: string, id: string) {
    forall s, c :: Holds(draft, s, c) ==>
      (s.key == key && c.id == id) || exists t :: Holds(scopes, t, c) && t.key == s.key
  }

  lemma DraftOfKeeps(draft: seq<Scope>, scopes: seq<Scope>, key: string, id: string, order: nat)
    requires DraftOf(draft, scopes, key, id, order)
    ensures Keeps(draft, scopes, key, id)
  {
    forall s, c | Holds(draft, s, c) && !(s.key == key && c.id == id)
      ensures exists t :: Holds(scopes, t, c) && t.key == s.key
    {
      if s.key == key {
        var t :| t in scopes && t.key == key && c in t.conversations;
        assert Holds(scopes, t, c);
      } else {
        assert Holds(scopes, s, c);
      }
    }
  }

  lemma NewConversationFresh(scopes: seq<Scope>, key: string, id: string, order: nat)
    requires IsOpaqueId(id)
    ensures Fresh(NewConversation(id, order), scopes, key, id, order)
  {
  }

  lemma PushedDraft(scopes: seq<Scope>, key: string, id: string, order: nat)
    requires IsScopeKey(key) && IsOpaqueId(id) && !HasKey(scopes, key)
    ensures DraftOf(scopes + [NewScope(key, id, order)], scopes, key, id, order)
  {
    var draft := scopes + [NewScope(key, id, order)];
    NewConversationFresh(scopes, key, id, order);
    forall s, c | Holds(draft, s, c) && s.key == key
      ensures Fresh(c, scopes, key, id, order)
    {
      assert s !in scopes;
      assert s == NewScope(key, id, order);
    }
  }

  /** Replacing one scope by one whose conversations are old or fresh. */
  lemma ReplacedDraft(scopes: seq<Scope>, i: nat, s': Scope, id: string, order: nat)
    requires UniqueKeys(scopes) && i < |scopes| && s'.key == scopes[i].key && IsScopeKey(s'.key)
    requires s'.createdOrder <= s'.updatedOrder == order
    requires forall c :: c in s'.conversations ==>
      c in scopes[i].conversations || Fresh(c, scopes, s'.key, id, order)
    ensures DraftOf(scopes[i := s'], scopes, s'.key, id, order)
  {
    var draft := scopes[i := s'];
    forall s | s in draft
      ensures s.key != s'.key ==> s in scopes
      ensures s.key == s'.key ==> s == s'
    {
      var k :| 0 <= k < |draft| && draft[k] == s;
      if k != i {
        assert draft[k] == scopes[k];
      }
    }
    forall s, c | Holds(draft, s, c) && s.key == s'.key
      ensures Untouched(c, scopes, s'.key) || Fresh(c, scopes, s'.key, id, order)
    {
      assert c in s'.conversations;
      assert c in scopes[i].conversations ==> Untouched(c, scopes, s'.key);
    }
  }

  lemma ReplacedCappable(st: State, i: nat, s': Scope, protectedTargets: set<string>)
    requires Inv(st) && i < |st.scopes| && Cappable(s', protectedTargets)
    ensures forall s :: s in st.scopes[i := s'] ==> Cappable(s, protectedTargets)
  {
    forall s | s in st.scopes[i := s']
      ensures Cappable(s, protectedTargets)
    {
      assert s == s' || s in st.scopes;
    }
  }

  lemma ReplacedHasKey(scopes: seq<Scope>, i: nat, s': Scope, activeKey: string)
    requires i < |scopes| && s'.key == scopes[i].key && (activeKey == s'.key || HasKey(scopes, activeKey))
    ensures HasKey(scopes[i := s'], activeKey)
  {
    var draft := scopes[i := s'];
    if activeKey == s'.key {
      assert draft[i] in draft;
    } else {
      var a :| a in scopes && a.key == activeKey;
      var k :| 0 <= k < |scopes| && scopes[k] == a;
      assert draft[k] in draft;
    }
  }

  /** The bounds of the published state leave every draft cappable. */
  lemma ReplacedReady(st: State, i: nat, s': Scope, id: string, activeKey: string, protectedTargets: set<string>)
    requires Inv(st) && i < |st.scopes| && s'.key == st.scopes[i].key
    requires Shape(st.scopes[i := s']) && DraftOf(st.scopes[i := s'], st.scopes, s'.key, id, st.revision + 1)
    requires Cappable(s', protectedTargets)
    requires IsScopeKey(activeKey) && (activeKey == s'.key || HasKey(st.scopes, activeKey))
    ensures DraftReady(st.scopes[i := s'], activeKey, protectedTargets, st.revision + 1)
  {
    hide Inv, Shape, Content, DraftOf, Cappable, HasKey, IsScopeKey, UniqueKeys;
    InvParts(st);
    DraftContent(st.scopes[i := s'], st.scopes, s'.key, id, st.revision);
    ReplacedCappable(st, i, s', protectedTargets);
    ReplacedHasKey(st.scopes, i, s', activeKey);
  }

  lemma PushedCappable(st: State, s': Scope, protectedTargets: set<string>)
    requires Inv(st) && |s'.conversations| <= MAX_CONVERSATIONS
    ensures forall s :: s in st.scopes + [s'] ==> Cappable(s, protectedTargets)
  {
    forall s | s in st.scopes + [s']
      ensures Cappable(s, protectedTargets)
    {
      assert s == s' || s in st.scopes;
    }
  }

  lemma PushedHasKey(scopes: seq<Scope>, s': Scope)
    ensures HasKey(scopes + [s'], s'.key)
  {
    assert (scopes + [s'])[|scopes|] in scopes + [s'];
  }

  lemma PushedReady(st: State, key: string, id: string, protectedTargets: set<string>)
    requires Inv(st) && IsScopeKey(key) && IsOpaqueId(id) && !HasKey(st.scopes, key)
    ensures DraftReady(st.scopes + [NewScope(key, id, st.revision + 1)], key, protectedTargets, st.revision + 1)
    ensures Keeps(st.scopes + [NewScope(key, id, st.revision + 1)], st.scopes, key, id)
  {
    var s' := NewScope(key, id, st.revision + 1);
    assert Shape(st.scopes) && Content(st.scopes, st.revision) && |st.scopes| <= MAX_SCOPES;
    hide Inv, Shape, Content, DraftOf, Keeps, Cappable, HasKey, IsScopeKey, IsOpaqueId;
    PushedCappable(st, s', protectedTargets);
    PushedHasKey(st.scopes, s');
    PushScopeShape(st.scopes, key, id, st.revision + 1);
    PushedDraft(st.scopes, key, id, st.revision + 1);
    DraftOfKeeps(st.scopes + [s'], st.scopes, key, id, st.revision + 1);
    DraftContent(st.scopes + [s'], st.scopes, key, id, st.revision);
  }

  lemma ScopeFacts(st: State, i: nat)
    requires Inv(st) && i < |st.scopes|
    ensures IsScopeKey(st.scopes[i].key) && ScopeShape(st.scopes[i])
    ensures |st.scopes[i].conversations| <= MAX_CONVERSATIONS
    ensures st.scopes[i].createdOrder <= st.scopes[i].updatedOrder <= st.revision
    ensures HasKey(st.scopes, st.activeScopeKey) && IsScopeKey(st.activeScopeKey)
  {
    assert st.scopes[i] in st.scopes && ScopeOk(st.scopes[i], st.revision);
  }

  /** One scope may change to old and fresh conversations of its own. */
  lemma ReplaceReady(st: State, i: nat, s': Scope, id: string, activeKey: string, protectedTargets: set<string>)
    requires Inv(st) && i < |st.scopes| && s'.key == st.scopes[i].key && ScopeShape(s')
    requires s'.createdOrder == st.scopes[i].createdOrder && s'.updatedOrder == st.revision + 1
    requires forall c :: c in s'.conversations ==>
      c in st.scopes[i].conversations || Fresh(c, st.scopes, s'.key, id, st.revision + 1)
    requires Cappable(s', protectedTargets)
    requires activeKey == s'.key || activeKey == st.activeScopeKey
    ensures DraftReady(st.scopes[i := s'], activeKey, protectedTargets, st.revision + 1)
    ensures Keeps(st.scopes[i := s'], st.scopes, s'.key, id)
  {
    ScopeFacts(st, i);
    PutScopeShape(st.scopes, i, s');
    ReplacedDraft(st.scopes, i, s', id, st.revision + 1);
    DraftOfKeeps(st.scopes[i := s'], st.scopes, s'.key, id, st.revision + 1);
    ReplacedReady(st, i, s', id, activeKey, protectedTargets);
  }

  lemma ActivateReady(st: State, key: string, id: string, protectedTargets: set<string>)
    requires Inv(st) && IsScopeKey(key) && (HasKey(st.scopes, key) || IsOpaqueId(id))
    ensures DraftReady(ActivateDraft(st, key, id), key, protectedTargets, st.revision + 1)
    ensures Keeps(ActivateDraft(st, key, id), st.scopes, key, id)
  {
    hide Inv, ScopeShape, HasKey, DraftReady, Keeps, IsScopeKey, IsOpaqueId;
    match FindScope(st.scopes, key)
    case Some(i) => StampReady(st, i, id, protectedTargets);
    case None => PushedReady(st, key, id, protectedTargets);
  }

  lemma StampReady(st: State, i: nat, id: string, protectedTargets: set<string>)
    requires Inv(st) && i < |st.scopes|
    ensures var s := st.scopes[i];
      && DraftReady(st.scopes[i := s.(updatedOrder := st.revision + 1)], s.key, protectedTargets, st.revision + 1)
      && Keeps(st.scopes[i := s.(updatedOrder := st.revision + 1)], st.scopes, s.key, id)
  {
    ScopeFacts(st, i);
    hide Inv, HasKey, DraftReady, Keeps, Fresh, IsScopeKey, IsOpaqueId;
    ReplaceReady(st, i, st.scopes[i].(updatedOrder := st.revision + 1), id, st.scopes[i].key, protectedTargets);
  }

  lemma CreatedScope(s: Scope, id: string, order: nat) returns (s': Scope)
    requires ScopeShape(s) && !HasId(s.conversations, id) && |s.conversations| <= MAX_CONVERSATIONS
    ensures s' == s.(conversations := s.conversations + [NewConversation(id, order)], activeId := id, updatedOrder := order)
    ensures ScopeShape(s') && Cappable(s', {TargetKey(s.key, id)})
  {
    s' := s.(conversations := s.conversations + [NewConversation(id, order)], activeId := id, updatedOrder := order);
    var c :| c in s.conversations && c.id == s.activeId;
    TargetKeyOfSameScope(s.key, c.id, id);
    assert c in s'.conversations && !IsSpared(s', c.id, {TargetKey(s.key, id)});
    assert s'.conversations[|s.conversations|] in s'.conversations;
    assert forall c :: c in s.conversations ==> c.id != id;
  }

  lemma NotFound(scopes: seq<Scope>, i: nat, key: string, id: string)
    requires FindTarget(scopes, Target(key, id)).None? && FindScope(scopes, key) == Some(i)
    ensures !HasId(scopes[i].conversations, id)
  {
  }

  lemma CreateInScopeReady(st: State, i: nat, id: string)
    requires Inv(st) && i < |st.scopes| && IsOpaqueId(id) && !HasId(st.scopes[i].conversations, id)
    ensures var s := st.scopes[i];
      var s' := s.(conversations := s.conversations + [NewConversation(id, st.revision + 1)], activeId := id,
                   updatedOrder := st.revision + 1);
      && DraftReady(st.scopes[i := s'], s.key, {TargetKey(s.key, id)}, st.revision + 1)
      && Keeps(st.scopes[i := s'], st.scopes, s.key, id)
  {
    ScopeFacts(st, i);
    hide Inv, ScopeShape, HasKey, HasId, DraftReady, Keeps, Fresh, Cappable, IsScopeKey, IsOpaqueId;
    var s' := CreatedScope(st.scopes[i], id, st.revision + 1);
    NewConversationFresh(st.scopes, s'.key, id, st.revision + 1);
    ReplaceReady(st, i, s', id, s'.key, {TargetKey(s'.key, id)});
  }

  lemma CreateReady(st: State, key: string, id: string)
    requires Inv(st) && IsScopeKey(key) && IsOpaqueId(id) && FindTarget(st.scopes, Target(key, id)).None?
    ensures DraftReady(CreateDraft(st, key, id), key, {TargetKey(key, id)}, st.revision + 1)
    ensures Keeps(CreateDraft(st, key, id), st.scopes, key, id)
  {
    hide Inv, ScopeShape, HasId, HasKey, DraftReady, Keeps, FindTarget, IsScopeKey, IsOpaqueId;
    match FindScope(st.scopes, key)
    case Some(i) =>
      NotFound(st.scopes, i, key, id);
      CreateInScopeReady(st, i, id);
    case None =>
      PushedReady(st, key, id, {TargetKey(key, id)});
  }

  lemma PutShape(s: Scope, j: nat, c': Conversation, activeId: string, order: nat) returns (s': Scope)
    requires ScopeShape(s) && j < |s.conversations| && c'.id == s.conversations[j].id
    requires activeId == s.activeId || activeId == c'.id
    ensures s' == s.(conversations := s.conversations[j := c'], activeId := activeId, updatedOrder := order)
    ensures ScopeShape(s') && forall c :: c in s'.conversations ==> c in s.conversations || c == c'
  {
    s' := s.(conversations := s.conversations[j := c'], activeId := activeId, updatedOrder := order);
    var a :| a in s.conversations && a.id == s.activeId;
    var k :| 0 <= k < |s.conversations| && s.conversations[k] == a;
    assert s'.conversations[k] in s'.conversations && s'.conversations[j] in s'.conversations;
  }

  lemma SwitchReady(st: State, p: Place, protectedTargets: set<string>)
    requires Inv(st) && ValidPlace(st.scopes, p)
    ensures DraftReady(SwitchDraft(st, p), st.scopes[p.scope].key, protectedTargets, st.revision + 1)
    ensures Keeps(SwitchDraft(st, p), st.scopes, st.scopes[p.scope].key,
              st.scopes[p.scope].conversations[p.conversation].id)
  {
    var s := st.scopes[p.scope];
    var c := s.conversations[p.conversation];
    var c' := c.(updatedOrder := st.revision + 1);
    ScopeFacts(st, p.scope);
    assert Shape(st.scopes);
    hide Inv, Shape, HasKey, HasId, UniqueIds, DraftReady, Keeps, Fresh, IsScopeKey, IsOpaqueId;
    SwitchedFresh(st, s, c);
    var s' := PutShape(s, p.conversation, c', c.id, st.revision + 1);
    ReplaceReady(st, p.scope, s', c.id, s.key, protectedTargets);
  }

  lemma SwitchedFresh(st: State, s: Scope, c: Conversation)
    requires Inv(st) && Holds(st.scopes, s, c)
    ensures Fresh(c.(updatedOrder := st.revision + 1), st.scopes, s.key, c.id, st.revision + 1)
  {
    assert ConversationOk(c, st.revision);
    forall i | 0 <= i < |c.messages|
      ensures MessageOk(c.messages[i], st.revision + 1)
    {
      assert MessageOk(c.messages[i], c.updatedOrder);
    }
    TouchedFresh(st.scopes, s, c, c.(updatedOrder := st.revision + 1), st.revision + 1);
  }

  /** A conversation whose messages are old, or newly stamped, is fresh. */
  lemma TouchedFresh(scopes: seq<Scope>, s: Scope, c: Conversation, c': Conversation, order: nat)
    requires Holds(scopes, s, c) && c'.id == c.id && c'.updatedOrder == order && ConversationOk(c', order)
    requires forall m :: m in c'.messages ==>
      m.createdOrder == order || exists n :: n in c.messages && n.createdOrder == m.createdOrder
    ensures Fresh(c', scopes, s.key, c.id, order)
  {
    forall m | m in c'.messages
      ensures m.createdOrder == order || Slot(s.key, c.id, m.createdOrder) in MessageSlots(scopes)
    {
    }
  }

  lemma PutReady(st: State, p: Place, c': Conversation, protectedTargets: set<string>)
    requires Inv(st) && ValidPlace(st.scopes, p)
    requires Fresh(c', st.scopes, st.scopes[p.scope].key, st.scopes[p.scope].conversations[p.conversation].id,
               st.revision + 1)
    ensures Shape(PutConversation(st.scopes, p, c', st.revision + 1))
    ensures DraftReady(PutConversation(st.scopes, p, c', st.revision + 1), st.activeScopeKey, protectedTargets,
              st.revision + 1)
    ensures Keeps(PutConversation(st.scopes, p, c', st.revision + 1), st.scopes, st.scopes[p.scope].key, c'.id)
  {
    var s := st.scopes[p.scope];
    ScopeFacts(st, p.scope);
    PutConversationShape(st.scopes, p, c', st.revision + 1);
    var s' := PutShape(s, p.conversation, c', s.activeId, st.revision + 1);
    ReplaceReady(st, p.scope, s', c'.id, st.activeScopeKey, protectedTargets);
  }

  // ----- deletion -----

  lemma ContentLater(scopes: seq<Scope>, revision: nat)
    requires Content(scopes, revision)
    ensures Content(scopes, revision + 1)
  {
    forall s, c | Holds(scopes, s, c)
      ensures ConversationOk(c, revision + 1)
    {
      ConversationOkLater(c, revision, revision + 1);
    }
  }

  lemma SubsetKeeps(draft: seq<Scope>, scopes: seq<Scope>, key: string, id: string)
    requires forall s :: s in draft ==> s in scopes
    ensures Keeps(draft, scopes, key, id)
  {
    forall s, c | Holds(draft, s, c)
      ensures exists t :: Holds(scopes, t, c) && t.key == s.key
    {
      assert Holds(scopes, s, c);
    }
  }

  lemma SubsetContent(draft: seq<Scope>, scopes: seq<Scope>, revision: nat)
    requires Content(scopes, revision) && forall s :: s in draft ==> s in scopes
    ensures Content(draft, revision + 1)
  {
    SubsetFrom(draft, scopes);
    ContentFrom(draft, scopes, revision);
    ContentLater(draft, revision);
  }

  lemma OtherScopesStay(scopes: seq<Scope>, key: string, other: string)
    requires UniqueKeys(scopes) && HasKey(scopes, other) && key != other
    ensures HasKey(WithoutScope(scopes, key), other)
  {
    var s :| s in scopes && s.key == other;
    assert s in WithoutScope(scopes, key);
  }

  lemma SubsetCappable(draft: seq<Scope>, st: State, protectedTargets: set<string>)
    requires Inv(st) && forall s :: s in draft ==> s in st.scopes
    ensures forall s :: s in draft ==> Cappable(s, protectedTargets) && ScopeShape(s)
  {
    hide Content, ScopeShape, TextBytes, Bodies, BodyBytes;
  }

  lemma InvParts(st: State)
    requires Inv(st)
    ensures Shape(st.scopes) && UniqueKeys(st.scopes) && Content(st.scopes, st.revision) && |st.scopes| <= MAX_SCOPES
    ensures IsScopeKey(st.activeScopeKey) && (st.scopes != [] ==> HasKey(st.scopes, st.activeScopeKey))
  {
    hide Content, ScopeShape, UniqueKeys, TextBytes, Bodies, BodyBytes, HasKey, IsOpaqueText;
  }

  lemma ShapeOfSubset(draft: seq<Scope>)
    requires UniqueKeys(draft) && forall s :: s in draft ==> ScopeShape(s)
    ensures Shape(draft)
  {
  }

  lemma DropInactiveReady(st: State, key: string, id: string)
    requires Inv(st) && HasKey(st.scopes, key) && key != st.activeScopeKey
    ensures DraftReady(WithoutScope(st.scopes, key), st.activeScopeKey, {}, st.revision + 1)
    ensures Keeps(WithoutScope(st.scopes, key), st.scopes, key, id)
  {
    hide Inv, Shape, Content, Keeps, ScopeShape, WithoutScope, Cappable, HasKey, UniqueKeys, IsOpaqueText;
    InvParts(st);
    var draft := WithoutScope(st.scopes, key);
    SubsetKeeps(draft, st.scopes, key, id);
    SubsetContent(draft, st.scopes, st.revision);
    SubsetCappable(draft, st, {});
    ShapeOfSubset(draft);
    SomeScope(st.scopes, key);
    OtherScopesStay(st.scopes, key, st.activeScopeKey);
  }

  lemma SomeScope(scopes: seq<Scope>, key: string)
    requires HasKey(scopes, key)
    ensures scopes != []
  {
  }

  lemma DeleteReady(st: State, p: Place, replacementId: string)
    requires Inv(st) && ValidPlace(st.scopes, p)
    requires var s := st.scopes[p.scope];
      Drop(s, s.conversations[p.conversation].id).conversations != [] || IsOpaqueId(replacementId)
    ensures var s := st.scopes[p.scope];
      var s' := DeleteFrom(s, s.conversations[p.conversation].id, replacementId, st.revision + 1);
      && DraftReady(st.scopes[p.scope := s'], st.activeScopeKey, {TargetKey(s'.key, s'.activeId)}, st.revision + 1)
      && Keeps(st.scopes[p.scope := s'], st.scopes, s.key, replacementId)
  {
    var s := st.scopes[p.scope];
    var id := s.conversations[p.conversation].id;
    var s' := DeleteFrom(s, id, replacementId, st.revision + 1);
    ScopeFacts(st, p.scope);
    DeleteFromShape(s, id, replacementId, st.revision + 1);
    if Drop(s, id).conversations == [] {
      NewConversationFresh(st.scopes, s.key, replacementId, st.revision + 1);
    }
    ReplaceReady(st, p.scope, s', replacementId, st.activeScopeKey, {TargetKey(s'.key, s'.activeId)});
  }

  // ----- messages -----

  lemma MessagesLater(c: Conversation, revision: nat, order: nat)
    requires ConversationOk(c, revision) && revision <= order
    ensures forall i :: 0 <= i < |c.messages| ==> MessageOk(c.messages[i], order)
  {
    forall i | 0 <= i < |c.messages|
      ensures MessageOk(c.messages[i], order)
    {
      assert MessageOk(c.messages[i], c.updatedOrder);
    }
  }

  lemma AppendedMessages(ms: seq<Message>, m: Message, revision: nat)
    requires Ascending(ms) && FindMessage(ms, m.id).None? && m.createdOrder == revision + 1
    requires forall i :: 0 <= i < |ms| ==> MessageOk(ms[i], revision)
    requires MessageOk(m, revision + 1)
    ensures Ascending(ms + [m])
    ensures forall i :: 0 <= i <= |ms| ==> MessageOk((ms + [m])[i], revision + 1)
  {
    forall i | 0 <= i < |ms|
      ensures ms[i].createdOrder <= revision && MessageOk(ms[i], revision + 1)
    {
      assert MessageOk(ms[i], revision);
    }
  }

  lemma AppendedFresh(
    st: State, s: Scope, c: Conversation, input: MessageInput, attachments: seq<Attachment>, nfkc: string -> string)
    requires Inv(st) && Holds(st.scopes, s, c) && FindMessage(c.messages, input.id).None?
    requires CheckMessage(input) == Ok(attachments)
    ensures Fresh(Appended(c, input, attachments, st.revision + 1, nfkc), st.scopes, s.key, c.id, st.revision + 1)
  {
    var order := st.revision + 1;
    var c' := Appended(c, input, attachments, order, nfkc);
    assert ConversationOk(c, st.revision);
    MessagesLater(c, st.revision, st.revision);
    DerivedTitleIsTitle(nfkc, Utf8Prefix(input.content, MAX_MESSAGE_BYTES));
    var m := c'.messages[|c.messages|];
    AppendedMessages(c.messages, m, st.revision);
    forall x | x in c'.messages
      ensures x.createdOrder == order || exists n :: n in c.messages && n.createdOrder == x.createdOrder
    {
      assert x == m || x in c.messages;
    }
    TouchedFresh(st.scopes, s, c, c', order);
  }

  lemma UpdatedOk(c: Conversation, revision: nat, k: nat, m': Message, order: nat)
    requires ConversationOk(c, revision) && revision < order && k < |c.messages|
    requires m'.id == c.messages[k].id && m'.createdOrder == c.messages[k].createdOrder
    requires MessageOk(m', revision)
    requires forall i :: 0 <= i < |c.messages| ==> MessageOk(c.messages[i], order)
    ensures ConversationOk(c.(messages := c.messages[k := m'], updatedOrder := order), order)
  {
    hide IsOpaqueId, AttachmentOk;
    assert MessageOk(m', order);
    var ms := c.messages[k := m'];
    forall i | 0 <= i < |ms|
      ensures MessageOk(ms[i], order)
    {
    }
  }

  lemma UpdatedFresh(st: State, s: Scope, c: Conversation, k: nat, m': Message)
    requires Inv(st) && Holds(st.scopes, s, c) && k < |c.messages|
    requires m'.id == c.messages[k].id && m'.createdOrder == c.messages[k].createdOrder
    requires MessageOk(m', st.revision)
    ensures Fresh(c.(messages := c.messages[k := m'], updatedOrder := st.revision + 1), st.scopes, s.key, c.id,
              st.revision + 1)
  {
    var order := st.revision + 1;
    var c' := c.(messages := c.messages[k := m'], updatedOrder := order);
    assert ConversationOk(c, st.revision);
    MessagesLater(c, st.revision, order);
    UpdatedOk(c, st.revision, k, m', order);
    hide Inv, ConversationOk, Fresh;
    forall x | x in c'.messages
      ensures exists n :: n in c.messages && n.createdOrder == x.createdOrder
    {
      var i :| 0 <= i < |c'.messages| && c'.messages[i] == x;
      assert c.messages[i] in c.messages && c.messages[i].createdOrder == x.createdOrder;
    }
    TouchedFresh(st.scopes, s, c, c', order);
  }

  lemma UpdatedMessageOk(c: Conversation, revision: nat, k: nat, change: MessageUpdate)
    requires ConversationOk(c, revision) && k < |c.messages|
    requires change.tool.Some? ==> CheckToolActivity(change.tool.value).Ok?
    requires var m' := UpdatedMessage(c.messages[k], change); m'.tool.Some? ==> m'.role == AssistantRole
    ensures MessageOk(UpdatedMessage(c.messages[k], change), revision)
  {
    assert MessageOk(c.messages[k], c.updatedOrder);
  }

  lemma {:induction false} WithoutMessageAscending(ms: seq<Message>, id: string)
    requires Ascending(ms)
    ensures Ascending(WithoutMessage(ms, id))
    ensures forall m :: m in WithoutMessage(ms, id) ==> m in ms
  {
    if ms != [] {
      WithoutMessageAscending(ms[1..], id);
      var rest := WithoutMessage(ms[1..], id);
      forall j | 0 <= j < |rest|
        ensures ms[0].createdOrder < rest[j].createdOrder && ms[0].id != rest[j].id
      {
        assert rest[j] in ms[1..];
      }
    }
  }

  lemma DeletedFresh(st: State, s: Scope, c: Conversation, id: string)
    requires Inv(st) && Holds(st.scopes, s, c)
    ensures Fresh(c.(messages := WithoutMessage(c.messages, id), updatedOrder := st.revision + 1), st.scopes, s.key,
              c.id, st.revision + 1)
  {
    var order := st.revision + 1;
    var c' := c.(messages := WithoutMessage(c.messages, id), updatedOrder := order);
    assert ConversationOk(c, st.revision);
    WithoutMessageAscending(c.messages, id);
    MessagesLater(c, st.revision, order);
    forall i | 0 <= i < |c'.messages|
      ensures MessageOk(c'.messages[i], order)
    {
      assert c'.messages[i] in c.messages;
    }
    TouchedFresh(st.scopes, s, c, c', order);
  }
}
