/** The eviction phases of `enforceBounds` (src/aiConversationState.ts) as
    functions on the list of scopes. `sort(...)[0]` on a stable sort is the first
    least element, which is how each selection is written here. */
module ConversationBounds {
  import opened Text
  import opened ConversationKeys
  import opened ConversationModel

  // ----- least recently used selection -----

  datatype Candidate = Candidate(scopeKey: string, conversationId: string, updatedOrder: nat, createdOrder: nat)

  predicate Before(a: Candidate, b: Candidate) {
    a.updatedOrder < b.updatedOrder || (a.updatedOrder == b.updatedOrder && a.createdOrder < b.createdOrder)
  }

  function Oldest(xs: seq<Candidate>): (r: Candidate)
    requires xs != []
    ensures r in xs
    ensures forall x :: x in xs ==> !Before(x, r)
  {
    if |xs| == 1 then xs[0]
    else
      var rest := Oldest(xs[1..]);
      assert forall x :: x in xs ==> x == xs[0] || x in xs[1..];
      if Before(rest, xs[0]) then rest else xs[0]
  }

  function Newest(cs: seq<Conversation>): (r: Conversation)
    requires cs != []
    ensures r in cs
    ensures forall c :: c in cs ==> c.updatedOrder <= r.updatedOrder
  {
    if |cs| == 1 then cs[0]
    else
      var rest := Newest(cs[1..]);
      if rest.updatedOrder > cs[0].updatedOrder then rest else cs[0]
  }

  function AsCandidate(key: string, c: Conversation): Candidate {
    Candidate(key, c.id, c.updatedOrder, c.createdOrder)
  }

  /** The conversations of one scope whose target is not in `keep`. */
  function Candidates(key: string, cs: seq<Conversation>, keep: set<string>): (r: seq<Candidate>)
    ensures forall c :: c in cs && TargetKey(key, c.id) !in keep ==> AsCandidate(key, c) in r
    ensures forall x :: x in r ==> exists c :: c in cs && TargetKey(key, c.id) !in keep && x == AsCandidate(key, c)
  {
    if cs == [] then []
    else
      (if TargetKey(key, cs[0].id) in keep then [] else [AsCandidate(key, cs[0])])
      + Candidates(key, cs[1..], keep)
  }

  /** The conversations of the store whose target is not in `keep`. */
  function AllCandidates(scopes: seq<Scope>, keep: set<string>): (r: seq<Candidate>)
    ensures forall s, c :: Holds(scopes, s, c) && TargetKey(s.key, c.id) !in keep ==> AsCandidate(s.key, c) in r
    ensures forall x :: x in r ==>
      exists s, c :: Holds(scopes, s, c) && TargetKey(s.key, c.id) !in keep && x == AsCandidate(s.key, c)
  {
    if scopes == [] then []
    else
      var head := Candidates(scopes[0].key, scopes[0].conversations, keep);
      var tail := AllCandidates(scopes[1..], keep);
      assert forall s, c :: Holds(scopes, s, c) ==> (s == scopes[0] && c in s.conversations) || Holds(scopes[1..], s, c);
      assert forall s, c :: Holds(scopes[1..], s, c) ==> Holds(scopes, s, c);
      assert forall c :: c in scopes[0].conversations ==> Holds(scopes, scopes[0], c);
      head + tail
  }

  /** Whether the protected targets name a scope: the `startsWith` test. */
  predicate ScopeProtected(protectedTargets: set<string>, key: string) {
    exists p :: p in protectedTargets && key + ['\0'] <= p
  }

  function ScopeCandidates(scopes: seq<Scope>, activeKey: string, protectedTargets: set<string>): (r: seq<Candidate>)
    ensures forall s :: s in scopes && s.key != activeKey && !ScopeProtected(protectedTargets, s.key) ==>
      Candidate(s.key, "", s.updatedOrder, s.createdOrder) in r
    ensures forall x :: x in r ==> exists s ::
      s in scopes && s.key != activeKey && !ScopeProtected(protectedTargets, s.key)
      && x == Candidate(s.key, "", s.updatedOrder, s.createdOrder)
  {
    if scopes == [] then []
    else
      var s := scopes[0];
      (if s.key != activeKey && !ScopeProtected(protectedTargets, s.key)
       then [Candidate(s.key, "", s.updatedOrder, s.createdOrder)] else [])
      + ScopeCandidates(scopes[1..], activeKey, protectedTargets)
  }

  // ----- removal -----

  lemma UniqueTail(cs: seq<Conversation>)
    requires cs != []
    ensures UniqueIds(cs) <==> UniqueIds(cs[1..]) && forall c :: c in cs[1..] ==> c.id != cs[0].id
  {
    assert cs == [cs[0]] + cs[1..];
    if UniqueIds(cs) {
      forall i, j | 0 <= i < j < |cs[1..]| ensures cs[1..][i].id != cs[1..][j].id {
        assert cs[i + 1].id != cs[j + 1].id;
      }
    }
  }

  function Without(cs: seq<Conversation>, id: string): (r: seq<Conversation>)
    ensures forall c :: c in r <==> c in cs && c.id != id
    ensures |r| <= |cs|
    ensures HasId(cs, id) ==> |r| < |cs|
    ensures UniqueIds(cs) ==> UniqueIds(r)
    ensures (forall c :: c in cs ==> c.id != id) ==> r == cs
  {
    hide UniqueIds;
    if cs == [] then []
    else
      var rest := Without(cs[1..], id);
      UniqueTail(cs);
      if cs[0].id == id then rest
      else
        UniqueTail([cs[0]] + rest);
        assert ([cs[0]] + rest)[1..] == rest;
        [cs[0]] + rest
  }

  lemma UniqueKeysTail(scopes: seq<Scope>)
    requires scopes != []
    ensures UniqueKeys(scopes) <==> UniqueKeys(scopes[1..]) && forall s :: s in scopes[1..] ==> s.key != scopes[0].key
  {
    assert scopes == [scopes[0]] + scopes[1..];
    if UniqueKeys(scopes) {
      forall i, j | 0 <= i < j < |scopes[1..]| ensures scopes[1..][i].key != scopes[1..][j].key {
        assert scopes[i + 1].key != scopes[j + 1].key;
      }
    }
  }

  function WithoutScope(scopes: seq<Scope>, key: string): (r: seq<Scope>)
    ensures forall s :: s in r <==> s in scopes && s.key != key
    ensures |r| <= |scopes|
    ensures HasKey(scopes, key) ==> |r| < |scopes|
    ensures UniqueKeys(scopes) ==> UniqueKeys(r)
    ensures (forall s :: s in scopes ==> s.key != key) ==> r == scopes
  {
    hide UniqueKeys;
    if scopes == [] then []
    else
      var rest := WithoutScope(scopes[1..], key);
      UniqueKeysTail(scopes);
      if scopes[0].key == key then rest
      else
        UniqueKeysTail([scopes[0]] + rest);
        assert ([scopes[0]] + rest)[1..] == rest;
        [scopes[0]] + rest
  }

  /** One scope after `removeConversation`; it may end up empty. */
  function Drop(s: Scope, id: string): Scope {
    var cs := Without(s.conversations, id);
    if cs != [] && s.activeId == id then s.(conversations := cs, activeId := Newest(cs).id)
    else s.(conversations := cs)
  }

  /** `removeConversation` */
  function RemoveConversation(scopes: seq<Scope>, key: string, id: string): seq<Scope> {
    if scopes == [] then []
    else if scopes[0].key == key then
      var d := Drop(scopes[0], id);
      if d.conversations == [] then WithoutScope(scopes, key) else [d] + scopes[1..]
    else [scopes[0]] + RemoveConversation(scopes[1..], key, id)
  }

  function ConversationCount(scopes: seq<Scope>): nat {
    if scopes == [] then 0 else |scopes[0].conversations| + ConversationCount(scopes[1..])
  }

  lemma DropShape(s: Scope, id: string)
    requires ScopeShape(s)
    ensures ScopeFrom(Drop(s, id), s)
    ensures Drop(s, id).conversations != [] ==> ScopeShape(Drop(s, id))
    ensures id != s.activeId ==> Drop(s, id).conversations != [] && Drop(s, id).activeId == s.activeId
  {
    var cs := Without(s.conversations, id);
    forall c | c in cs
      ensures exists d :: d in s.conversations && ConversationFrom(c, d)
    {
      ConversationFromReflexive(c);
    }
    var a :| a in s.conversations && a.id == s.activeId;
    assert id != s.activeId ==> a in cs;
  }

  /** What removing one conversation leaves, member by member. */
  lemma {:induction false} RemovalMembers(scopes: seq<Scope>, key: string, id: string, s: Scope)
    requires UniqueKeys(scopes) && s in scopes && s.key == key
    ensures var r := RemoveConversation(scopes, key, id);
      && UniqueKeys(r)
      && (Drop(s, id).conversations != [] ==> Drop(s, id) in r)
      && (forall t :: t in scopes && t.key != key ==> t in r)
      && (forall t :: t in r ==> (t in scopes && t.key != key) || (t == Drop(s, id) && t.conversations != []))
  {
    if scopes[0].key == key {
      SameKeySameScope(scopes, s, scopes[0]);
      assert forall t :: t in scopes[1..] ==> t.key != key;
    } else {
      RemovalMembers(scopes[1..], key, id, s);
    }
  }

  lemma {:induction false} RemovalCount(scopes: seq<Scope>, key: string, id: string, s: Scope)
    requires UniqueKeys(scopes) && s in scopes && s.key == key
    ensures ConversationCount(RemoveConversation(scopes, key, id))
      == ConversationCount(scopes) - |s.conversations| + |Drop(s, id).conversations|
  {
    var rest := RemoveConversation(scopes[1..], key, id);
    if scopes[0].key == key {
      SameKeySameScope(scopes, s, scopes[0]);
      assert forall t :: t in scopes[1..] ==> t.key != key;
      assert ([Drop(s, id)] + scopes[1..])[1..] == scopes[1..];
    } else {
      RemovalCount(scopes[1..], key, id, s);
      assert ([scopes[0]] + rest)[1..] == rest;
    }
  }

  lemma RemovalShape(scopes: seq<Scope>, key: string, id: string, s: Scope)
    requires Shape(scopes) && s in scopes && s.key == key
    ensures Shape(RemoveConversation(scopes, key, id))
    ensures From(RemoveConversation(scopes, key, id), scopes)
  {
    RemovalMembers(scopes, key, id, s);
    DropShape(s, id);
    forall t | t in RemoveConversation(scopes, key, id)
      ensures ScopeShape(t) && exists u :: u in scopes && ScopeFrom(t, u)
    {
      ScopeFromReflexive(t);
    }
  }

  // ----- phase 1: messages per conversation, conversations per scope -----

  function TrimMessages(c: Conversation): Conversation {
    if |c.messages| > MAX_MESSAGES then c.(messages := c.messages[|c.messages| - MAX_MESSAGES..]) else c
  }

  function TrimScope(s: Scope): Scope {
    s.(conversations := seq(|s.conversations|, i requires 0 <= i < |s.conversations| => TrimMessages(s.conversations[i])))
  }

  function CapConversations(s: Scope, protectedTargets: set<string>): (r: Option<Scope>)
    decreases |s.conversations|
  {
    if |s.conversations| <= MAX_CONVERSATIONS then Some(s)
    else
      var removable := Candidates(s.key, s.conversations, protectedTargets + {TargetKey(s.key, s.activeId)});
      if removable == [] then None
      else
        assert Oldest(removable) in removable;
        CapConversations(Drop(s, Oldest(removable).conversationId), protectedTargets)
  }

  function CapAll(scopes: seq<Scope>, protectedTargets: set<string>): (r: Option<seq<Scope>>)
    ensures r.Some? ==> |r.value| == |scopes|
    ensures r.Some? ==> forall i :: 0 <= i < |scopes| ==>
      CapConversations(TrimScope(scopes[i]), protectedTargets) == Some(r.value[i])
    ensures r.None? ==> exists i :: 0 <= i < |scopes| && CapConversations(TrimScope(scopes[i]), protectedTargets).None?
  {
    if scopes == [] then Some([])
    else
      match CapConversations(TrimScope(scopes[0]), protectedTargets)
      case None => None
      case Some(head) =>
        match CapAll(scopes[1..], protectedTargets)
        case None => None
        case Some(tail) => Some([head] + tail)
  }

  lemma CapAllIs(scopes: seq<Scope>, protectedTargets: set<string>, r: seq<Scope>)
    requires |r| == |scopes|
    requires forall i :: 0 <= i < |scopes| ==> CapConversations(TrimScope(scopes[i]), protectedTargets) == Some(r[i])
    ensures CapAll(scopes, protectedTargets) == Some(r)
  {
    hide CapConversations, TrimScope, CapAll;
    assert CapAll(scopes, protectedTargets).Some? ==> CapAll(scopes, protectedTargets).value == r;
  }

  // ----- phase 2: scopes -----

  function CapScopes(scopes: seq<Scope>, activeKey: string, protectedTargets: set<string>): (r: Option<seq<Scope>>)
    decreases |scopes|
  {
    if |scopes| <= MAX_SCOPES then Some(scopes)
    else
      var removable := ScopeCandidates(scopes, activeKey, protectedTargets);
      if removable == [] then None
      else
        assert Oldest(removable) in removable;
        CapScopes(WithoutScope(scopes, Oldest(removable).scopeKey), activeKey, protectedTargets)
  }

  // ----- phase 3: whole conversations, while the text is over budget -----

  /** `activeTargetKey` */
  function ActiveTarget(scopes: seq<Scope>, activeKey: string): set<string> {
    if scopes == [] then {}
    else if scopes[0].key == activeKey then {TargetKey(activeKey, scopes[0].activeId)}
    else ActiveTarget(scopes[1..], activeKey)
  }

  function Kept(scopes: seq<Scope>, activeKey: string, protectedTargets: set<string>): set<string> {
    protectedTargets + ActiveTarget(scopes, activeKey)
  }

  function EvictText(scopes: seq<Scope>, activeKey: string, protectedTargets: set<string>): (r: seq<Scope>)
    requires Shape(scopes)
    ensures Shape(r)
    decreases ConversationCount(scopes)
  {
    if TextBytes(scopes) <= MAX_TEXT_BYTES then scopes
    else
      var removable := AllCandidates(scopes, Kept(scopes, activeKey, protectedTargets));
      if removable == [] then scopes
      else
        var victim := Oldest(removable);
        EvictionStep(scopes, Kept(scopes, activeKey, protectedTargets), victim);
        EvictText(RemoveConversation(scopes, victim.scopeKey, victim.conversationId), activeKey, protectedTargets)
  }

  lemma CandidateHolder(scopes: seq<Scope>, keep: set<string>, x: Candidate) returns (s: Scope, c: Conversation)
    requires x in AllCandidates(scopes, keep)
    ensures Holds(scopes, s, c) && TargetKey(s.key, c.id) !in keep && x == AsCandidate(s.key, c)
  {
    s, c :| Holds(scopes, s, c) && TargetKey(s.key, c.id) !in keep && x == AsCandidate(s.key, c);
  }

  lemma RemovalCounts(scopes: seq<Scope>, s: Scope, c: Conversation)
    requires Shape(scopes) && Holds(scopes, s, c)
    ensures ConversationCount(RemoveConversation(scopes, s.key, c.id)) < ConversationCount(scopes)
  {
    RemovalCount(scopes, s.key, c.id, s);
    assert HasId(s.conversations, c.id);
  }

  lemma EvictionStep(scopes: seq<Scope>, keep: set<string>, victim: Candidate)
    requires Shape(scopes) && victim in AllCandidates(scopes, keep)
    ensures var r := RemoveConversation(scopes, victim.scopeKey, victim.conversationId);
      Shape(r) && From(r, scopes) && ConversationCount(r) < ConversationCount(scopes)
  {
    var s, c := CandidateHolder(scopes, keep, victim);
    RemovalCounts(scopes, s, c);
    RemovalShape(scopes, s.key, c.id, s);
  }

  // ----- phase 4: oldest messages, while the text is still over budget -----

  function FirstOrders(cs: seq<Conversation>): seq<nat> {
    if cs == [] then []
    else (if cs[0].messages != [] then [cs[0].messages[0].createdOrder] else []) + FirstOrders(cs[1..])
  }

  function AllFirstOrders(scopes: seq<Scope>): seq<nat> {
    if scopes == [] then [] else FirstOrders(scopes[0].conversations) + AllFirstOrders(scopes[1..])
  }

  function Least(xs: seq<nat>): (r: nat)
    requires xs != []
    ensures r in xs
    ensures forall x :: x in xs ==> r <= x
  {
    if |xs| == 1 then xs[0]
    else
      var rest := Least(xs[1..]);
      assert forall x :: x in xs ==> x == xs[0] || x in xs[1..];
      if rest < xs[0] then rest else xs[0]
  }

  /** `messages.shift()` on the first conversation that starts with `order`. */
  function ShiftConversations(cs: seq<Conversation>, order: nat): (r: seq<Conversation>)
    ensures |r| == |cs|
  {
    if cs == [] then []
    else if cs[0].messages != [] && cs[0].messages[0].createdOrder == order then
      [cs[0].(messages := cs[0].messages[1..])] + cs[1..]
    else [cs[0]] + ShiftConversations(cs[1..], order)
  }

  function ShiftScopes(scopes: seq<Scope>, order: nat): (r: seq<Scope>)
    ensures |r| == |scopes|
  {
    if scopes == [] then []
    else if order in FirstOrders(scopes[0].conversations) then
      [scopes[0].(conversations := ShiftConversations(scopes[0].conversations, order))] + scopes[1..]
    else [scopes[0]] + ShiftScopes(scopes[1..], order)
  }

  function MessageCountIn(cs: seq<Conversation>): nat {
    if cs == [] then 0 else |cs[0].messages| + MessageCountIn(cs[1..])
  }

  function MessageCount(scopes: seq<Scope>): nat {
    if scopes == [] then 0 else MessageCountIn(scopes[0].conversations) + MessageCount(scopes[1..])
  }

  lemma {:induction false} ShiftConversationsCount(cs: seq<Conversation>, order: nat)
    requires order in FirstOrders(cs)
    ensures MessageCountIn(ShiftConversations(cs, order)) == MessageCountIn(cs) - 1
  {
    if cs[0].messages != [] && cs[0].messages[0].createdOrder == order {
    } else {
      ShiftConversationsCount(cs[1..], order);
    }
  }

  lemma {:induction false} ShiftScopesCount(scopes: seq<Scope>, order: nat)
    requires order in AllFirstOrders(scopes)
    ensures MessageCount(ShiftScopes(scopes, order)) == MessageCount(scopes) - 1
  {
    if order in FirstOrders(scopes[0].conversations) {
      ShiftConversationsCount(scopes[0].conversations, order);
    } else {
      ShiftScopesCount(scopes[1..], order);
    }
  }

  function TruncateText(scopes: seq<Scope>): seq<Scope>
    decreases MessageCount(scopes)
  {
    if TextBytes(scopes) <= MAX_TEXT_BYTES || AllFirstOrders(scopes) == [] then scopes
    else
      var order := Least(AllFirstOrders(scopes));
      ShiftScopesCount(scopes, order);
      TruncateText(ShiftScopes(scopes, order))
  }

  // ----- phase 5: image bodies -----

  predicate Carries(bs: seq<Body>, order: nat) {
    bs != [] && (bs[0].order == order || Carries(bs[1..], order))
  }

  function OldestBody(bs: seq<Body>): (order: nat)
    requires bs != []
    ensures Carries(bs, order)
    ensures forall i :: 0 <= i < |bs| ==> order <= bs[i].order
  {
    if |bs| == 1 then bs[0].order
    else
      var rest := OldestBody(bs[1..]);
      assert forall i :: 0 < i < |bs| ==> bs[i] == bs[1..][i - 1];
      if rest < bs[0].order then rest else bs[0].order
  }

  function DropFirstBody(attachments: seq<Attachment>): (r: seq<Attachment>)
    ensures |r| == |attachments|
  {
    if attachments == [] then []
    else if HasBody(attachments[0]) then [attachments[0].(data := None)] + attachments[1..]
    else [attachments[0]] + DropFirstBody(attachments[1..])
  }

  function DropFromMessages(ms: seq<Message>, order: nat): (r: seq<Message>)
    ensures |r| == |ms|
  {
    if ms == [] then []
    else if Carries(AttachmentBodies(ms[0].createdOrder, ms[0].attachments), order) then
      [ms[0].(attachments := DropFirstBody(ms[0].attachments))] + ms[1..]
    else [ms[0]] + DropFromMessages(ms[1..], order)
  }

  function DropFromConversations(cs: seq<Conversation>, order: nat): (r: seq<Conversation>)
    ensures |r| == |cs|
  {
    if cs == [] then []
    else if Carries(MessageBodies(cs[0].messages), order) then
      [cs[0].(messages := DropFromMessages(cs[0].messages, order))] + cs[1..]
    else [cs[0]] + DropFromConversations(cs[1..], order)
  }

  function DropFromScopes(scopes: seq<Scope>, order: nat): (r: seq<Scope>)
    ensures |r| == |scopes|
  {
    if scopes == [] then []
    else if Carries(ConversationBodies(scopes[0].conversations), order) then
      [scopes[0].(conversations := DropFromConversations(scopes[0].conversations, order))] + scopes[1..]
    else [scopes[0]] + DropFromScopes(scopes[1..], order)
  }

  /** The list of bodies without the first one of message `order`. */
  function RemoveBody(bs: seq<Body>, order: nat): (r: seq<Body>)
    ensures if Carries(bs, order) then |r| == |bs| - 1 else r == bs
  {
    if bs == [] then []
    else if bs[0].order == order then bs[1..]
    else [bs[0]] + RemoveBody(bs[1..], order)
  }

  predicate ImagesFit(bs: seq<Body>) {
    |bs| <= MAX_IMAGES && BodyBytes(bs) <= MAX_IMAGE_BYTES
  }

  function DropImages(scopes: seq<Scope>): seq<Scope>
    decreases |Bodies(scopes)|
  {
    if ImagesFit(Bodies(scopes)) || Bodies(scopes) == [] then scopes
    else
      var order := OldestBody(Bodies(scopes));
      BodiesDrop(scopes, order);
      DropImages(DropFromScopes(scopes, order))
  }

  lemma RemoveBodyCons(b: Body, bs: seq<Body>, order: nat)
    ensures RemoveBody([b] + bs, order) == if b.order == order then bs else [b] + RemoveBody(bs, order)
    ensures Carries([b] + bs, order) <==> b.order == order || Carries(bs, order)
  {
    assert ([b] + bs)[1..] == bs;
  }

  lemma NoBodies(order: nat)
    ensures !Carries([], order)
  {
  }

  lemma ConsAssociates(x: Body, p: seq<Body>, q: seq<Body>)
    ensures [x] + (p + q) == [x] + p + q
  {
  }

  lemma {:induction false} RemoveBodyConcat(a: seq<Body>, b: seq<Body>, order: nat)
    ensures RemoveBody(a + b, order) == if Carries(a, order) then RemoveBody(a, order) + b else a + RemoveBody(b, order)
  {
    hide RemoveBody, Carries;
    if a == [] {
      NoBodies(order);
      assert a + b == b && a + RemoveBody(b, order) == RemoveBody(b, order);
    } else {
      var x, t := a[0], a[1..];
      assert a == [x] + t;
      ConsAssociates(x, t, b);
      RemoveBodyConcat(t, b, order);
      RemoveBodyCons(x, t, order);
      RemoveBodyCons(x, t + b, order);
      ConsAssociates(x, RemoveBody(t, order), b);
      ConsAssociates(x, t, RemoveBody(b, order));
    }
  }

  lemma {:induction false} AttachmentBodiesDrop(created: nat, attachments: seq<Attachment>, order: nat)
    ensures Carries(AttachmentBodies(created, attachments), order) ==>
      && order == created
      && AttachmentBodies(created, DropFirstBody(attachments)) == RemoveBody(AttachmentBodies(created, attachments), order)
  {
    if attachments != [] {
      AttachmentBodiesDrop(created, attachments[1..], order);
      var head := if HasBody(attachments[0]) then [Body(created, attachments[0].size)] else [];
      RemoveBodyConcat(head, AttachmentBodies(created, attachments[1..]), order);
    }
  }

  lemma {:induction false} MessageBodiesDrop(ms: seq<Message>, order: nat)
    ensures MessageBodies(DropFromMessages(ms, order)) == RemoveBody(MessageBodies(ms), order)
  {
    if ms != [] {
      var head := AttachmentBodies(ms[0].createdOrder, ms[0].attachments);
      RemoveBodyConcat(head, MessageBodies(ms[1..]), order);
      AttachmentBodiesDrop(ms[0].createdOrder, ms[0].attachments, order);
      MessageBodiesDrop(ms[1..], order);
    }
  }

  lemma {:induction false} ConversationBodiesDrop(cs: seq<Conversation>, order: nat)
    ensures ConversationBodies(DropFromConversations(cs, order)) == RemoveBody(ConversationBodies(cs), order)
  {
    if cs != [] {
      RemoveBodyConcat(MessageBodies(cs[0].messages), ConversationBodies(cs[1..]), order);
      MessageBodiesDrop(cs[0].messages, order);
      ConversationBodiesDrop(cs[1..], order);
    }
  }

  /** Dropping a body from the store drops it from the list of bodies. */
  lemma {:induction false} BodiesDrop(scopes: seq<Scope>, order: nat)
    ensures Bodies(DropFromScopes(scopes, order)) == RemoveBody(Bodies(scopes), order)
  {
    if scopes != [] {
      RemoveBodyConcat(ConversationBodies(scopes[0].conversations), Bodies(scopes[1..]), order);
      ConversationBodiesDrop(scopes[0].conversations, order);
      BodiesDrop(scopes[1..], order);
    }
  }

  // ----- the whole pass -----

  /** `enforceBounds`; `None` stands for the AI_CONVERSATION_BOUND_INVARIANT throw. */
  function EnforceBounds(scopes: seq<Scope>, activeKey: string, protectedTargets: set<string>): Option<seq<Scope>>
    requires Shape(scopes)
  {
    match CapAll(scopes, protectedTargets)
    case None => None
    case Some(capped) =>
      CapAllShape(scopes, protectedTargets);
      match CapScopes(capped, activeKey, protectedTargets)
      case None => None
      case Some(fewer) =>
        CapScopesMembers(capped, activeKey, protectedTargets);
        var truncated := TruncateText(EvictText(fewer, activeKey, protectedTargets));
        if TextBytes(truncated) > MAX_TEXT_BYTES then None else Some(DropImages(truncated))
  }

  lemma TrimMessagesFrom(c: Conversation)
    ensures ConversationFrom(TrimMessages(c), c) && |TrimMessages(c).messages| <= MAX_MESSAGES
  {
    var excess := if |c.messages| > MAX_MESSAGES then |c.messages| - MAX_MESSAGES else 0;
    TailIsSuffix(c.messages, excess);
  }

  lemma TrimScopeFrom(s: Scope)
    ensures ScopeFrom(TrimScope(s), s)
    ensures forall c :: c in TrimScope(s).conversations ==> |c.messages| <= MAX_MESSAGES
  {
    var t := TrimScope(s);
    forall c' | c' in t.conversations
      ensures |c'.messages| <= MAX_MESSAGES && exists c :: c in s.conversations && ConversationFrom(c', c)
    {
      var i :| 0 <= i < |t.conversations| && t.conversations[i] == c';
      TrimMessagesFrom(s.conversations[i]);
    }
  }

  lemma TrimScopeShape(s: Scope)
    ensures ScopeShape(s) ==> ScopeShape(TrimScope(s))
    ensures forall c :: c in s.conversations ==> TrimMessages(c) in TrimScope(s).conversations
  {
    var t := TrimScope(s);
    forall c | c in s.conversations
      ensures TrimMessages(c) in t.conversations
    {
      var i :| 0 <= i < |s.conversations| && s.conversations[i] == c;
      assert t.conversations[i] == TrimMessages(c);
    }
    if ScopeShape(s) {
      var a :| a in s.conversations && a.id == s.activeId;
      assert TrimMessages(a) in t.conversations;
    }
  }

  lemma TargetKeyOfSameScope(key: string, id: string, id': string)
    ensures TargetKey(key, id) == TargetKey(key, id') <==> id == id'
  {
    assert TargetKey(key, id)[|key| + 1..] == id && TargetKey(key, id')[|key| + 1..] == id';
  }

  ghost predicate IsSpared(s: Scope, id: string, protectedTargets: set<string>) {
    id == s.activeId || TargetKey(s.key, id) in protectedTargets
  }

  ghost predicate CapsMore(s: Scope, protectedTargets: set<string>) {
    |s.conversations| > MAX_CONVERSATIONS
    && Candidates(s.key, s.conversations, protectedTargets + {TargetKey(s.key, s.activeId)}) != []
  }

  lemma CapVictim(s: Scope, protectedTargets: set<string>) returns (v: Conversation)
    requires CapsMore(s, protectedTargets)
    ensures v in s.conversations && !IsSpared(s, v.id, protectedTargets)
    ensures forall y :: y in s.conversations && !IsSpared(s, y.id, protectedTargets) ==> v.updatedOrder <= y.updatedOrder
    ensures CapConversations(s, protectedTargets) == CapConversations(Drop(s, v.id), protectedTargets)
  {
    hide Drop;
    var keep := protectedTargets + {TargetKey(s.key, s.activeId)};
    var victim := Oldest(Candidates(s.key, s.conversations, keep));
    v :| v in s.conversations && TargetKey(s.key, v.id) !in keep && victim == AsCandidate(s.key, v);
    hide CapConversations, Candidates, Oldest;
    forall y | y in s.conversations && !IsSpared(s, y.id, protectedTargets)
      ensures v.updatedOrder <= y.updatedOrder
    {
      TargetKeyOfSameScope(s.key, y.id, s.activeId);
      assert !Before(AsCandidate(s.key, y), victim);
    }
  }

  lemma Dropped(s: Scope, v: Conversation) returns (d: Scope)
    requires ScopeShape(s) && v in s.conversations && v.id != s.activeId
    ensures d == Drop(s, v.id) && ScopeShape(d) && d == s.(conversations := d.conversations)
    ensures |d.conversations| < |s.conversations|
    ensures forall c :: c in d.conversations <==> c in s.conversations && c.id != v.id
  {
    DropShape(s, v.id);
    hide ScopeShape;
    d := Drop(s, v.id);
    assert HasId(s.conversations, v.id);
  }

  /** One turn of the loop that caps a scope: the victim is removable and as old as any. */
  lemma CapOnce(s: Scope, protectedTargets: set<string>) returns (v: Conversation, d: Scope)
    requires ScopeShape(s) && CapsMore(s, protectedTargets)
    ensures |s.conversations| > MAX_CONVERSATIONS
    ensures v in s.conversations && !IsSpared(s, v.id, protectedTargets)
    ensures forall y :: y in s.conversations && !IsSpared(s, y.id, protectedTargets) ==> v.updatedOrder <= y.updatedOrder
    ensures d == Drop(s, v.id) && ScopeShape(d) && d == s.(conversations := d.conversations)
    ensures forall c :: c in d.conversations <==> c in s.conversations && c.id != v.id
    ensures |d.conversations| < |s.conversations|
    ensures CapConversations(s, protectedTargets) == CapConversations(d, protectedTargets)
  {
    hide ScopeShape, CapConversations, Drop;
    v := CapVictim(s, protectedTargets);
    d := Dropped(s, v);
  }

  lemma CapStops(s: Scope, protectedTargets: set<string>)
    requires !CapsMore(s, protectedTargets)
    ensures CapConversations(s, protectedTargets) == if |s.conversations| > MAX_CONVERSATIONS then None else Some(s)
  {
  }

  /** The conversation cap removes only conversations that are neither the
      scope's active one nor protected, and stops at eight. */
  lemma {:induction false} CapConversationsMembers(s: Scope, protectedTargets: set<string>)
    requires ScopeShape(s)
    ensures CapConversations(s, protectedTargets).Some? ==>
      var r := CapConversations(s, protectedTargets).value;
      && ScopeShape(r) && r.activeId == s.activeId && r == s.(conversations := r.conversations)
      && |r.conversations| <= MAX_CONVERSATIONS
      && (forall c :: c in r.conversations ==> c in s.conversations)
      && (forall c :: c in s.conversations && (c.id == s.activeId || TargetKey(s.key, c.id) in protectedTargets) ==>
      c in r.conversations)
    decreases |s.conversations|
  {
    hide ScopeShape, CapConversations, CapsMore;
    if CapsMore(s, protectedTargets) {
      var v, d := CapOnce(s, protectedTargets);
      CapConversationsMembers(d, protectedTargets);
    } else {
      CapStops(s, protectedTargets);
    }
  }

  lemma CapAllShape(scopes: seq<Scope>, protectedTargets: set<string>)
    requires Shape(scopes)
    ensures CapAll(scopes, protectedTargets).Some? ==>
      var r := CapAll(scopes, protectedTargets).value;
      && Shape(r) && From(r, scopes)
      && (forall s :: s in r ==> |s.conversations| <= MAX_CONVERSATIONS)
      && (forall s, c :: Holds(r, s, c) ==> |c.messages| <= MAX_MESSAGES)
  {
    if CapAll(scopes, protectedTargets).Some? {
      var r := CapAll(scopes, protectedTargets).value;
      forall s' | s' in r
        ensures ScopeShape(s') && |s'.conversations| <= MAX_CONVERSATIONS
        ensures forall c :: c in s'.conversations ==> |c.messages| <= MAX_MESSAGES
        ensures exists s :: s in scopes && ScopeFrom(s', s)
      {
        var i :| 0 <= i < |r| && r[i] == s';
        CapOneScope(scopes[i], protectedTargets, s');
      }
      forall i, j | 0 <= i < j < |r|
        ensures r[i].key != r[j].key
      {
        CapOneScope(scopes[i], protectedTargets, r[i]);
        CapOneScope(scopes[j], protectedTargets, r[j]);
      }
    }
  }

  lemma SubScopeFrom(r: Scope, t: Scope, s: Scope)
    requires ScopeFrom(t, s) && r == t.(conversations := r.conversations)
    requires forall c :: c in r.conversations ==> c in t.conversations
    ensures ScopeFrom(r, s)
  {
  }

  lemma CapOneScope(s: Scope, protectedTargets: set<string>, r: Scope)
    requires ScopeShape(s) && CapConversations(TrimScope(s), protectedTargets) == Some(r)
    ensures ScopeShape(r) && ScopeFrom(r, s) && r.activeId == s.activeId
    ensures |r.conversations| <= MAX_CONVERSATIONS
    ensures forall c :: c in r.conversations ==> |c.messages| <= MAX_MESSAGES
  {
    hide ScopeShape, ScopeFrom, CapConversations, TrimMessages;
    TrimScopeShape(s);
    TrimScopeFrom(s);
    CapConversationsMembers(TrimScope(s), protectedTargets);
    SubScopeFrom(r, TrimScope(s), s);
  }

  lemma CapKeepsConversation(s: Scope, protectedTargets: set<string>, r: Scope, c: Conversation)
    requires ScopeShape(s) && CapConversations(TrimScope(s), protectedTargets) == Some(r)
    requires c in s.conversations && (c.id == s.activeId || TargetKey(s.key, c.id) in protectedTargets)
    ensures TrimMessages(c) in r.conversations
  {
    hide ScopeShape, CapConversations;
    TrimScopeShape(s);
    CapConversationsMembers(TrimScope(s), protectedTargets);
  }

  /** The scope cap removes only scopes that are neither active nor protected,
      and stops at twelve. */
  lemma {:induction false} CapScopesMembers(scopes: seq<Scope>, activeKey: string, protectedTargets: set<string>)
    requires UniqueKeys(scopes)
    ensures CapScopes(scopes, activeKey, protectedTargets).Some? ==>
      var r := CapScopes(scopes, activeKey, protectedTargets).value;
      && UniqueKeys(r) && |r| <= MAX_SCOPES
      && (forall s :: s in r ==> s in scopes)
      && (forall s :: s in scopes && (s.key == activeKey || ScopeProtected(protectedTargets, s.key)) ==> s in r)
    decreases |scopes|
  {
    if |scopes| > MAX_SCOPES {
      var removable := ScopeCandidates(scopes, activeKey, protectedTargets);
      if removable != [] {
        var victim := Oldest(removable);
        var v :| v in scopes && v.key != activeKey && !ScopeProtected(protectedTargets, v.key)
          && victim == Candidate(v.key, "", v.updatedOrder, v.createdOrder);
        CapScopesMembers(WithoutScope(scopes, v.key), activeKey, protectedTargets);
      }
    }
  }

  lemma SubsetFrom(r: seq<Scope>, scopes: seq<Scope>)
    requires forall s :: s in r ==> s in scopes
    ensures From(r, scopes)
  {
    forall s | s in r
      ensures exists t :: t in scopes && ScopeFrom(s, t)
    {
      ScopeFromReflexive(s);
    }
  }
}
