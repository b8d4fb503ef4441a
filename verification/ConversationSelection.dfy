/** Which conversation of a scope is the active one after a pass of `enforceBounds`
    (src/aiConversationState.ts): the same one while it is there. */
module ConversationSelection {
  import opened Text
  import opened ConversationKeys
  import opened ConversationModel
  import opened ConversationBounds
  import opened ConversationEviction
  import opened ConversationPass
  import opened ConversationStore
  import opened ConversationRuns
  import opened ConversationHistory
  import opened ConversationEffects
  import opened ConversationEdits

  /** What is left of a scope, with its active conversation if that is left. */
  ghost predicate Selected(s': Scope, s: Scope) {
    && s'.key == s.key && StaysActive(s'.activeId, s.activeId, s'.conversations)
    && forall c' :: c' in s'.conversations ==>
      exists c :: c in s.conversations && c.id == c'.id && c.updatedOrder == c'.updatedOrder
  }

  lemma SelectedReflexive(s: Scope)
    requires ScopeShape(s)
    ensures Selected(s, s)
  {
  }

  lemma SelectedTransitive(a: Scope, b: Scope, c: Scope)
    requires Selected(a, b) && Selected(b, c) && ScopeShape(b)
    ensures Selected(a, c)
  {
    forall x | x in a.conversations
      ensures exists z :: z in c.conversations && z.id == x.id && z.updatedOrder == x.updatedOrder
      ensures HasId(b.conversations, x.id)
    {
      var y :| y in b.conversations && y.id == x.id && y.updatedOrder == x.updatedOrder;
    }
    if !HasId(a.conversations, c.activeId) && HasId(a.conversations, b.activeId) {
      NewestStays(a, b, c.activeId);
    }
  }

  lemma NewestStays(a: Scope, b: Scope, was: string)
    requires Selected(a, b) && ScopeShape(b) && StaysActive(b.activeId, was, b.conversations)
    requires HasId(a.conversations, b.activeId) && b.activeId != was
    ensures exists x :: x in a.conversations && x.id == a.activeId && forall y :: y in a.conversations ==> y.updatedOrder <= x.updatedOrder
  {
    var m :| m in b.conversations && m.id == b.activeId && forall y :: y in b.conversations ==> y.updatedOrder <= m.updatedOrder;
    var x :| x in a.conversations && x.id == b.activeId;
    var z :| z in b.conversations && z.id == x.id && z.updatedOrder == x.updatedOrder;
    SameIdSameConversation(b.conversations, m, z);
    forall y | y in a.conversations
      ensures y.updatedOrder <= x.updatedOrder
    {
      var w :| w in b.conversations && w.id == y.id && w.updatedOrder == y.updatedOrder;
    }
  }

  /** The active one is there, so it stays active. */
  lemma FromSelected(s': Scope, s: Scope)
    requires ScopeFrom(s', s) && ScopeShape(s') && s'.activeId == s.activeId
    ensures Selected(s', s)
  {
    forall c' | c' in s'.conversations
      ensures exists c :: c in s.conversations && c.id == c'.id && c.updatedOrder == c'.updatedOrder
    {
      var c :| c in s.conversations && ConversationFrom(c', c);
    }
  }

  lemma DropSelected(s: Scope, id: string)
    requires ScopeShape(s) && HasId(s.conversations, id) && Drop(s, id).conversations != []
    ensures Selected(Drop(s, id), s)
  {
    if id == s.activeId {
      NewestSelected(s);
    } else {
      DropShape(s, id);
      hide Drop, ScopeShape;
      FromSelected(Drop(s, id), s);
    }
  }

  lemma NewestSelected(s: Scope)
    requires Drop(s, s.activeId).conversations != []
    ensures Selected(Drop(s, s.activeId), s)
  {
    hide UniqueIds;
    var cs := Without(s.conversations, s.activeId);
    assert Drop(s, s.activeId) == s.(conversations := cs, activeId := Newest(cs).id);
    hide Drop;
    assert !HasId(cs, s.activeId);
    assert forall c :: c in cs ==> c in s.conversations;
  }

  /** Every scope left is what is left of one, with its selection. */
  ghost predicate SelectedFrom(scopes': seq<Scope>, scopes: seq<Scope>) {
    forall s' :: s' in scopes' ==> exists s :: s in scopes && Selected(s', s)
  }

  lemma SelectedFromTransitive(a: seq<Scope>, b: seq<Scope>, c: seq<Scope>)
    requires SelectedFrom(a, b) && SelectedFrom(b, c) && forall s :: s in b ==> ScopeShape(s)
    ensures SelectedFrom(a, c)
  {
    hide Selected, ScopeShape;
    forall x | x in a
      ensures exists z :: z in c && Selected(x, z)
    {
      var y :| y in b && Selected(x, y);
      var z :| z in c && Selected(y, z);
      SelectedTransitive(x, y, z);
    }
  }

  lemma RemovalSelected(scopes: seq<Scope>, v: Scope, d: Conversation)
    requires Shape(scopes) && Holds(scopes, v, d)
    ensures SelectedFrom(RemoveConversation(scopes, v.key, d.id), scopes)
  {
    RemovalMembers(scopes, v.key, d.id, v);
    hide Selected, Drop, RemoveConversation;
    forall t | t in RemoveConversation(scopes, v.key, d.id)
      ensures exists s :: s in scopes && Selected(t, s)
    {
      if t in scopes {
        SelectedReflexive(t);
      } else {
        assert ScopeShape(v);
        DropSelected(v, d.id);
      }
    }
  }

  lemma ShapeScopes(scopes: seq<Scope>)
    requires Shape(scopes)
    ensures forall s :: s in scopes ==> ScopeShape(s)
  {
  }

  lemma {:induction false} EvictSelected(scopes: seq<Scope>, activeKey: string, protectedTargets: set<string>)
    requires Shape(scopes)
    ensures SelectedFrom(EvictText(scopes, activeKey, protectedTargets), scopes)
    decreases ConversationCount(scopes)
  {
    hide EvictText, Selected, ScopeShape, SelectedFrom;
    if EvictsMore(scopes, activeKey, protectedTargets) {
      var v, d, rest := EvictOnce(scopes, activeKey, protectedTargets);
      RemovalSelected(scopes, v, d);
      EvictSelected(rest, activeKey, protectedTargets);
      ShapeScopes(rest);
      SelectedFromTransitive(EvictText(rest, activeKey, protectedTargets), rest, scopes);
    } else {
      EvictStops(scopes, activeKey, protectedTargets);
      AllSelected(scopes, scopes);
    }
  }

  lemma AllSelected(scopes': seq<Scope>, scopes: seq<Scope>)
    requires Shape(scopes) && forall s :: s in scopes' ==> s in scopes
    ensures SelectedFrom(scopes', scopes)
  {
    forall s | s in scopes'
      ensures exists t :: t in scopes && Selected(s, t)
    {
      assert ScopeShape(s);
      SelectedReflexive(s);
    }
  }

  lemma CapAllSelected(scopes: seq<Scope>, protectedTargets: set<string>)
    requires Shape(scopes) && CapAll(scopes, protectedTargets).Some?
    ensures SelectedFrom(CapAll(scopes, protectedTargets).value, scopes)
  {
    hide CapAll, Selected, ScopeShape;
    var r := CapAll(scopes, protectedTargets).value;
    forall s' | s' in r
      ensures exists s :: s in scopes && Selected(s', s)
    {
      var i :| 0 <= i < |r| && r[i] == s';
      assert scopes[i] in scopes;
      CapOneScope(scopes[i], protectedTargets, s');
      FromSelected(s', scopes[i]);
    }
  }

  lemma FrameSelected(r: seq<Scope>, scopes: seq<Scope>)
    requires Frame(r, scopes) && Shape(scopes)
    ensures SelectedFrom(r, scopes)
  {
    FrameFrom(r, scopes);
    hide Selected;
    forall s' | s' in r
      ensures exists s :: s in scopes && Selected(s', s)
    {
      var i :| 0 <= i < |r| && r[i] == s';
      assert ScopeFrame(r[i], scopes[i]) && ScopeShape(s');
      ScopeFrameFrom(r[i], scopes[i]);
      FromSelected(r[i], scopes[i]);
    }
  }

  /** Through the whole pass a scope keeps its active conversation while that is there, and
      then has one used as lately as any that is. */
  lemma PassSelected(scopes: seq<Scope>, activeKey: string, protectedTargets: set<string>, revision: nat)
    requires Shape(scopes) && Content(scopes, revision) && EnforceBounds(scopes, activeKey, protectedTargets).Some?
    ensures SelectedFrom(EnforceBounds(scopes, activeKey, protectedTargets).value, scopes)
  {
    hide Selected, SelectedFrom, ScopeShape, CapAll, CapScopes, EvictText, TruncateText, DropImages, Content, EnforceBounds;
    var e := SomeStages(scopes, activeKey, protectedTargets, revision);
    CapAllSelected(scopes, protectedTargets);
    CapScopesMembers(e.capped, activeKey, protectedTargets);
    AllSelected(e.fewer, e.capped);
    EvictSelected(e.fewer, activeKey, protectedTargets);
    var r := LaterFrame(e.evicted);
    FrameSelected(r, e.evicted);
    ShapeScopes(e.capped);
    ShapeScopes(e.fewer);
    ShapeScopes(e.evicted);
    SelectedFromTransitive(e.fewer, e.capped, scopes);
    SelectedFromTransitive(e.evicted, e.fewer, scopes);
    SelectedFromTransitive(r, e.evicted, scopes);
  }

  /** Appending, updating and deleting messages leave every scope its active conversation
      while that is there, and the store its active scope. */
  lemma EditKeepsSelection(st: State, op: Op, s': Scope, s: Scope)
    requires Inv(st) && Shape(st.scopes) && (op.Append? || op.Update? || op.DeleteMessage?) && Apply(st, op).Ok?
    requires s' in Apply(st, op).value.scopes && s in st.scopes && s'.key == s.key
    ensures Apply(st, op).value.activeScopeKey == st.activeScopeKey
    ensures StaysActive(s'.activeId, s.activeId, s'.conversations)
  {
    hide Inv, Shape, CallOf, Apply, Finish, DraftReady, Selected, StaysActive, SelectedFrom;
    ApplyCases(st, op);
    InvParts(st);
    if CallOf(st, op).value.Commit? {
      var call := CallOf(st, op).value;
      ReadyDraft(st, op, call);
      ApplyIsFinish(st, op, call);
      EditDraft(st, op, call);
      FinishSelected(call, st.revision + 1, s', s);
    } else {
      SameScopeSelected(st, s', s);
    }
  }

  lemma SameScopeSelected(st: State, s': Scope, s: Scope)
    requires Inv(st) && s' in st.scopes && s in st.scopes && s'.key == s.key
    ensures StaysActive(s'.activeId, s.activeId, s'.conversations)
  {
    SameKeySameScope(st.scopes, s', s);
    assert ScopeShape(s);
  }

  /** The draft of an edit has the scopes of the store with their selections. */
  lemma EditDraft(st: State, op: Op, call: Step)
    requires Shape(st.scopes) && (op.Append? || op.Update? || op.DeleteMessage?)
    requires CallOf(st, op) == Ok(call) && call.Commit?
    ensures call.activeKey == st.activeScopeKey && |call.draft| == |st.scopes|
    ensures forall i :: 0 <= i < |st.scopes| ==>
      call.draft[i].key == st.scopes[i].key && call.draft[i].activeId == st.scopes[i].activeId
  {
    hide Shape, IsOpaqueText, FindTarget, FindMessage, AppendTo, UpdateIn, DeleteIn;
    hide CallActivate, CallCreate, CallSwitch, CallDelete;
  }

  lemma FinishSelected(call: Step, order: nat, s': Scope, s: Scope)
    requires call.Commit? && DraftReady(call.draft, call.activeKey, call.protectedTargets, order) && Shape(call.draft)
    requires Finish(call.activeKey, call.draft, order, call.protectedTargets).Ok?
    requires s' in Finish(call.activeKey, call.draft, order, call.protectedTargets).value.scopes
    requires exists t :: t in call.draft && t.key == s.key && t.activeId == s.activeId
    requires s'.key == s.key
    ensures StaysActive(s'.activeId, s.activeId, s'.conversations)
  {
    hide Finish, EnforceBounds, Content, StaysActive, ScopeShape;
    PassSelected(call.draft, call.activeKey, call.protectedTargets, order);
    var t :| t in call.draft && t.key == s.key && t.activeId == s.activeId;
    var u :| u in call.draft && Selected(s', u);
    SameKeySameScope(call.draft, t, u);
  }
}
