/** One whole `enforceBounds` pass: when it succeeds, what it bounds, and whom it
    spares. */
module ConversationPass {
  import opened Text
  import opened ConversationKeys
  import opened ConversationModel
  import opened ConversationBounds
  import opened ConversationEviction
  import opened ConversationPasses

  /** Nobody the scope cap may remove. */
  ghost predicate AllSpared(scopes: seq<Scope>, activeKey: string, protectedTargets: set<string>) {
    forall s :: s in scopes ==> s.key == activeKey || ScopeProtected(protectedTargets, s.key)
  }

  lemma CapAt(scopes: seq<Scope>, protectedTargets: set<string>, i: nat) returns (s': Scope)
    requires Shape(scopes) && CapAll(scopes, protectedTargets).Some? && i < |scopes|
    ensures s' == CapAll(scopes, protectedTargets).value[i] && s' in CapAll(scopes, protectedTargets).value
    ensures s'.key == scopes[i].key && s'.activeId == scopes[i].activeId
    ensures forall c :: c in scopes[i].conversations && IsSpared(s', c.id, protectedTargets) ==>
      TrimMessages(c) in s'.conversations
  {
    s' := CapAll(scopes, protectedTargets).value[i];
    CapOneScope(scopes[i], protectedTargets, s');
    forall c | c in scopes[i].conversations && IsSpared(s', c.id, protectedTargets)
      ensures TrimMessages(c) in s'.conversations
    {
      CapKeepsConversation(scopes[i], protectedTargets, s', c);
    }
  }

  lemma CapAllKeys(scopes: seq<Scope>, activeKey: string, protectedTargets: set<string>)
    requires Shape(scopes) && CapAll(scopes, protectedTargets).Some?
    ensures AllSpared(CapAll(scopes, protectedTargets).value, activeKey, protectedTargets)
      <==> AllSpared(scopes, activeKey, protectedTargets)
  {
    var capped := CapAll(scopes, protectedTargets).value;
    forall i | 0 <= i < |scopes|
      ensures capped[i].key == scopes[i].key && capped[i] in capped && scopes[i] in scopes
    {
      var s' := CapAt(scopes, protectedTargets, i);
    }
    assert forall s :: s in scopes ==> exists i :: 0 <= i < |scopes| && s == scopes[i];
    assert forall s :: s in capped ==> exists i :: 0 <= i < |scopes| && s == capped[i];
  }

  /** A scope the conversation cap can bring to eight. */
  ghost predicate Cappable(s: Scope, protectedTargets: set<string>) {
    || |s.conversations| <= MAX_CONVERSATIONS
    || (|s.conversations| == MAX_CONVERSATIONS + 1
        && exists c :: c in s.conversations && !IsSpared(s, c.id, protectedTargets))
  }

  /** One removal brings nine conversations to eight. */
  lemma CapsOne(t: Scope, c: Conversation, protectedTargets: set<string>)
    requires ScopeShape(t) && |t.conversations| == MAX_CONVERSATIONS + 1
    requires c in t.conversations && !IsSpared(t, c.id, protectedTargets)
    ensures CapConversations(t, protectedTargets).Some?
  {
    TargetKeyOfSameScope(t.key, c.id, t.activeId);
    var keep := protectedTargets + {TargetKey(t.key, t.activeId)};
    var removable := Candidates(t.key, t.conversations, keep);
    assert AsCandidate(t.key, c) in removable;
    var victim := Oldest(removable);
    assert HasId(t.conversations, victim.conversationId);
    assert |Drop(t, victim.conversationId).conversations| <= MAX_CONVERSATIONS;
  }

  lemma CappableCaps(s: Scope, protectedTargets: set<string>)
    requires ScopeShape(s) && Cappable(s, protectedTargets)
    ensures CapConversations(TrimScope(s), protectedTargets).Some?
  {
    var t := TrimScope(s);
    if |s.conversations| > MAX_CONVERSATIONS {
      TrimScopeShape(s);
      var c :| c in s.conversations && !IsSpared(s, c.id, protectedTargets);
      CapsOne(t, TrimMessages(c), protectedTargets);
    }
  }

  lemma CapScopesDefined(scopes: seq<Scope>, activeKey: string, protectedTargets: set<string>)
    requires UniqueKeys(scopes) && |scopes| <= MAX_SCOPES + 1
    ensures CapScopes(scopes, activeKey, protectedTargets).Some?
      <==> |scopes| <= MAX_SCOPES || !AllSpared(scopes, activeKey, protectedTargets)
  {
    if |scopes| > MAX_SCOPES {
      var removable := ScopeCandidates(scopes, activeKey, protectedTargets);
      if removable != [] {
        var x := Oldest(removable);
        assert x in removable && HasKey(scopes, x.scopeKey);
      }
    }
  }

  /** The throw is reached exactly when a thirteenth scope exists and every scope
      is active or protected; text and images can never reach it. */
  lemma PassDefined(scopes: seq<Scope>, activeKey: string, protectedTargets: set<string>, revision: nat)
    requires Shape(scopes) && Content(scopes, revision) && |scopes| <= MAX_SCOPES + 1
    requires forall s :: s in scopes ==> Cappable(s, protectedTargets)
    ensures EnforceBounds(scopes, activeKey, protectedTargets).Some?
      <==> |scopes| <= MAX_SCOPES || !AllSpared(scopes, activeKey, protectedTargets)
  {
    forall i | 0 <= i < |scopes|
      ensures CapConversations(TrimScope(scopes[i]), protectedTargets).Some?
    {
      CappableCaps(scopes[i], protectedTargets);
    }
    CapAllShape(scopes, protectedTargets);
    CapAllKeys(scopes, activeKey, protectedTargets);
    var capped := CapAll(scopes, protectedTargets).value;
    CapScopesDefined(capped, activeKey, protectedTargets);
    if CapScopes(capped, activeKey, protectedTargets).Some? {
      var e := PassStages(scopes, activeKey, protectedTargets, revision);
    }
  }

  /** The lists between the phases. */
  datatype Stages = Stages(
    capped: seq<Scope>, fewer: seq<Scope>, evicted: seq<Scope>, truncated: seq<Scope>, result: seq<Scope>)

  lemma CapScopesShape(scopes: seq<Scope>, activeKey: string, protectedTargets: set<string>)
    requires Shape(scopes) && CapScopes(scopes, activeKey, protectedTargets).Some?
    ensures var r := CapScopes(scopes, activeKey, protectedTargets).value;
      Shape(r) && |r| <= MAX_SCOPES && forall s :: s in r ==> s in scopes
  {
    CapScopesMembers(scopes, activeKey, protectedTargets);
    hide CapScopes, ScopeShape;
  }

  lemma PassStages(scopes: seq<Scope>, activeKey: string, protectedTargets: set<string>, revision: nat)
    returns (e: Stages)
    requires Shape(scopes) && Content(scopes, revision)
    requires CapAll(scopes, protectedTargets).Some?
    requires CapScopes(CapAll(scopes, protectedTargets).value, activeKey, protectedTargets).Some?
    ensures e.capped == CapAll(scopes, protectedTargets).value && Shape(e.capped)
    ensures e.fewer == CapScopes(e.capped, activeKey, protectedTargets).value && Shape(e.fewer)
    ensures e.evicted == EvictText(e.fewer, activeKey, protectedTargets) && Shape(e.evicted)
    ensures Content(e.evicted, revision) && CountsBounded(e.evicted)
    ensures e.truncated == TruncateText(e.evicted) && e.result == DropImages(e.truncated)
    ensures EnforceBounds(scopes, activeKey, protectedTargets) == Some(e.result)
    ensures From(e.evicted, scopes)
  {
    hide Shape, Content, CountsBounded, From, CapAll, CapScopes, EvictText, TruncateText, DropImages;
    CapAllShape(scopes, protectedTargets);
    var capped := CapAll(scopes, protectedTargets).value;
    CapScopesShape(capped, activeKey, protectedTargets);
    var fewer := CapScopes(capped, activeKey, protectedTargets).value;
    SubsetFrom(fewer, capped);
    FromTransitive(fewer, capped, scopes);
    var evicted := EvictText(fewer, activeKey, protectedTargets);
    EvictFrom(fewer, activeKey, protectedTargets);
    FromTransitive(evicted, fewer, scopes);
    ContentFrom(evicted, scopes, revision);
    FewerCounts(capped, fewer);
    EvictCounts(fewer, activeKey, protectedTargets);
    TruncateFits(evicted, revision);
    e := Stages(capped, fewer, evicted, TruncateText(evicted), DropImages(TruncateText(evicted)));
  }

  lemma FewerCounts(capped: seq<Scope>, fewer: seq<Scope>)
    requires forall s :: s in capped ==> |s.conversations| <= MAX_CONVERSATIONS
    requires forall s, c :: Holds(capped, s, c) ==> |c.messages| <= MAX_MESSAGES
    requires (forall s :: s in fewer ==> s in capped) && |fewer| <= MAX_SCOPES
    ensures CountsBounded(fewer)
  {
    forall s, c | Holds(fewer, s, c)
      ensures |c.messages| <= MAX_MESSAGES
    {
      assert Holds(capped, s, c);
    }
  }

  lemma {:induction false} RemovalCountsBounded(scopes: seq<Scope>, v: Scope, d: Conversation)
    requires Shape(scopes) && CountsBounded(scopes) && Holds(scopes, v, d)
    ensures CountsBounded(RemoveConversation(scopes, v.key, d.id))
  {
    var r := RemoveConversation(scopes, v.key, d.id);
    RemovalMembers(scopes, v.key, d.id, v);
    RemovalLength(scopes, v.key, d.id);
    forall s, c | Holds(r, s, c)
      ensures |c.messages| <= MAX_MESSAGES
    {
      if s.key == v.key {
        assert Holds(scopes, v, c);
      } else {
        assert Holds(scopes, s, c);
      }
    }
  }

  lemma {:induction false} RemovalLength(scopes: seq<Scope>, key: string, id: string)
    ensures |RemoveConversation(scopes, key, id)| <= |scopes|
  {
    if scopes != [] && scopes[0].key != key {
      RemovalLength(scopes[1..], key, id);
    }
  }

  lemma {:induction false} EvictCounts(scopes: seq<Scope>, activeKey: string, protectedTargets: set<string>)
    requires Shape(scopes) && CountsBounded(scopes)
    ensures CountsBounded(EvictText(scopes, activeKey, protectedTargets))
    decreases ConversationCount(scopes)
  {
    if EvictsMore(scopes, activeKey, protectedTargets) {
      var v, d, rest := EvictOnce(scopes, activeKey, protectedTargets);
      RemovalCountsBounded(scopes, v, d);
      EvictCounts(rest, activeKey, protectedTargets);
    } else {
      EvictStops(scopes, activeKey, protectedTargets);
    }
  }

  lemma SomeStages(scopes: seq<Scope>, activeKey: string, protectedTargets: set<string>, revision: nat)
    returns (e: Stages)
    requires Shape(scopes) && Content(scopes, revision) && EnforceBounds(scopes, activeKey, protectedTargets).Some?
    ensures CapAll(scopes, protectedTargets).Some? && e.capped == CapAll(scopes, protectedTargets).value
    ensures Shape(e.capped) && CapScopes(e.capped, activeKey, protectedTargets).Some?
    ensures e.fewer == CapScopes(e.capped, activeKey, protectedTargets).value && Shape(e.fewer)
    ensures e.evicted == EvictText(e.fewer, activeKey, protectedTargets) && Shape(e.evicted)
    ensures Content(e.evicted, revision) && CountsBounded(e.evicted)
    ensures e.truncated == TruncateText(e.evicted) && e.result == DropImages(e.truncated)
    ensures EnforceBounds(scopes, activeKey, protectedTargets) == Some(e.result)
    ensures From(e.evicted, scopes)
  {
    CapAllShape(scopes, protectedTargets);
    e := PassStages(scopes, activeKey, protectedTargets, revision);
  }

  lemma LaterFrame(evicted: seq<Scope>) returns (r: seq<Scope>)
    ensures r == DropImages(TruncateText(evicted)) && Frame(r, evicted)
    ensures TextBytes(r) == TextBytes(TruncateText(evicted)) && ImagesFit(Bodies(r))
  {
    r := DropImages(TruncateText(evicted));
    TruncateFrame(evicted);
    DropImagesFrame(TruncateText(evicted));
    DropImagesBodies(TruncateText(evicted));
    FrameTransitive(r, TruncateText(evicted), evicted);
  }

  /** One pass meets all six limits at once and leaves only remains of what was there. */
  lemma PassBounds(scopes: seq<Scope>, activeKey: string, protectedTargets: set<string>, revision: nat)
    requires Shape(scopes) && Content(scopes, revision) && EnforceBounds(scopes, activeKey, protectedTargets).Some?
    ensures var r := EnforceBounds(scopes, activeKey, protectedTargets).value;
      Shape(r) && Content(r, revision) && Bounded(r) && From(r, scopes)
  {
    var e := SomeStages(scopes, activeKey, protectedTargets, revision);
    var r := LaterFrame(e.evicted);
    FrameFrom(r, e.evicted);
    FrameCounts(r, e.evicted);
    FromTransitive(r, e.evicted, scopes);
    ContentFrom(r, scopes, revision);
    TruncateFits(e.evicted, revision);
  }

  lemma FrameAt(r: seq<Scope>, scopes: seq<Scope>, s: Scope, c: Conversation) returns (s': Scope, c': Conversation)
    requires Frame(r, scopes) && Holds(scopes, s, c)
    ensures Holds(r, s', c') && s'.key == s.key && s'.activeId == s.activeId && ConversationFrom(c', c)
  {
    var i :| 0 <= i < |scopes| && scopes[i] == s;
    var j :| 0 <= j < |s.conversations| && s.conversations[j] == c;
    assert ScopeFrame(r[i], scopes[i]);
    s', c' := r[i], r[i].conversations[j];
  }

  /** Through the two caps and text eviction a spared conversation only loses
      messages beyond its newest 63. */
  lemma SparedBeforeTruncation(
    scopes: seq<Scope>, activeKey: string, protectedTargets: set<string>, e: Stages, s: Scope, c: Conversation)
    returns (s': Scope)
    requires Shape(scopes) && CapAll(scopes, protectedTargets) == Some(e.capped) && Shape(e.capped)
    requires CapScopes(e.capped, activeKey, protectedTargets) == Some(e.fewer) && Shape(e.fewer)
    requires e.evicted == EvictText(e.fewer, activeKey, protectedTargets)
    requires Holds(scopes, s, c)
    requires TargetKey(s.key, c.id) in protectedTargets || (s.key == activeKey && c.id == s.activeId)
    ensures Holds(e.evicted, s', TrimMessages(c)) && s'.key == s.key
  {
    var i :| 0 <= i < |scopes| && scopes[i] == s;
    var t := CapAt(scopes, protectedTargets, i);
    CapScopesMembers(e.capped, activeKey, protectedTargets);
    assert TargetKey(s.key, c.id) in protectedTargets ==> s.key + ['\0'] <= TargetKey(s.key, c.id);
    assert Holds(e.fewer, t, TrimMessages(c));
    if t.key == activeKey {
      ActiveTargetIs(e.fewer, t);
    }
    s' := EvictSpares(e.fewer, activeKey, protectedTargets, t, TrimMessages(c));
  }

  /** The active conversation and every protected (in-flight) target survive. */
  lemma PassSpares(
    scopes: seq<Scope>, activeKey: string, protectedTargets: set<string>, revision: nat, s: Scope, c: Conversation)
    returns (s': Scope, c': Conversation)
    requires Shape(scopes) && Content(scopes, revision) && EnforceBounds(scopes, activeKey, protectedTargets).Some?
    requires Holds(scopes, s, c)
    requires TargetKey(s.key, c.id) in protectedTargets || (s.key == activeKey && c.id == s.activeId)
    ensures Holds(EnforceBounds(scopes, activeKey, protectedTargets).value, s', c')
    ensures s'.key == s.key && ConversationFrom(c', c)
  {
    var e := SomeStages(scopes, activeKey, protectedTargets, revision);
    var t := SparedBeforeTruncation(scopes, activeKey, protectedTargets, e, s, c);
    var r := LaterFrame(e.evicted);
    s', c' := FrameAt(r, e.evicted, t, TrimMessages(c));
    TrimMessagesFrom(c);
    ConversationFromTransitive(c', TrimMessages(c), c);
  }

  lemma ActiveBeforeTruncation(
    scopes: seq<Scope>, activeKey: string, protectedTargets: set<string>, e: Stages, s: Scope)
    returns (u: Scope, c: Conversation)
    requires Shape(scopes) && CapAll(scopes, protectedTargets) == Some(e.capped) && Shape(e.capped)
    requires CapScopes(e.capped, activeKey, protectedTargets) == Some(e.fewer) && Shape(e.fewer)
    requires e.evicted == EvictText(e.fewer, activeKey, protectedTargets)
    requires s in scopes && s.key == activeKey
    ensures Holds(e.evicted, u, c) && u.key == activeKey && u.activeId == s.activeId
  {
    hide CapAll, CapScopes, EvictText, TextBytes;
    var i :| 0 <= i < |scopes| && scopes[i] == s;
    var t := CapAt(scopes, protectedTargets, i);
    CapScopesMembers(e.capped, activeKey, protectedTargets);
    ActiveTargetIs(e.fewer, t);
    EvictSettles(e.fewer, activeKey, protectedTargets);
    assert ScopeShape(t);
    c :| c in t.conversations && c.id == t.activeId;
    u := EvictSpares(e.fewer, activeKey, protectedTargets, t, c);
    ActiveTargetIs(e.evicted, u);
    TargetKeyOfSameScope(activeKey, u.activeId, t.activeId);
  }

  /** The active scope stays, with the same active conversation. */
  lemma PassKeepsActive(
    scopes: seq<Scope>, activeKey: string, protectedTargets: set<string>, revision: nat, s: Scope)
    returns (s': Scope)
    requires Shape(scopes) && Content(scopes, revision) && EnforceBounds(scopes, activeKey, protectedTargets).Some?
    requires s in scopes && s.key == activeKey
    ensures s' in EnforceBounds(scopes, activeKey, protectedTargets).value
    ensures s'.key == activeKey && s'.activeId == s.activeId
  {
    var e := SomeStages(scopes, activeKey, protectedTargets, revision);
    var u, c := ActiveBeforeTruncation(scopes, activeKey, protectedTargets, e, s);
    var r := LaterFrame(e.evicted);
    var c';
    s', c' := FrameAt(r, e.evicted, u, c);
  }

  lemma LastStays(evicted: seq<Scope>, revision: nat, t: Scope, c: Conversation)
    returns (s': Scope, c': Conversation)
    requires Shape(evicted) && Content(evicted, revision) && CountsBounded(evicted)
    requires Holds(evicted, t, c) && c.messages != []
    requires c.messages[|c.messages| - 1].createdOrder == revision
    ensures Holds(DropImages(TruncateText(evicted)), s', c') && s'.key == t.key && c'.id == c.id && c'.messages != []
    ensures Strips(c'.messages[|c'.messages| - 1], c.messages[|c.messages| - 1])
  {
    var m := c.messages[|c.messages| - 1];
    var i: nat :| i < |evicted| && evicted[i] == t;
    var j: nat :| j < |t.conversations| && t.conversations[j] == c;
    assert EndsWithAt(evicted, i, j, t.key, c.id, m);
    TruncateKeepsNewest(evicted, revision, i, j, t.key, c.id, m);
    s', c' := ImagesKeepLast(TruncateText(evicted), i, j, t.key, c.id, m);
  }

  lemma TrimKeepsLast(c: Conversation)
    requires c.messages != []
    ensures var t := TrimMessages(c).messages; t != [] && t[|t| - 1] == c.messages[|c.messages| - 1]
  {
  }

  lemma TrimmedLastStays(evicted: seq<Scope>, revision: nat, t: Scope, c: Conversation)
    returns (s': Scope, c': Conversation)
    requires Shape(evicted) && Content(evicted, revision) && CountsBounded(evicted)
    requires Holds(evicted, t, TrimMessages(c)) && c.messages != []
    requires c.messages[|c.messages| - 1].createdOrder == revision
    ensures Holds(DropImages(TruncateText(evicted)), s', c') && s'.key == t.key && c'.id == c.id && c'.messages != []
    ensures Strips(c'.messages[|c'.messages| - 1], c.messages[|c.messages| - 1])
  {
    TrimKeepsLast(c);
    s', c' := LastStays(evicted, revision, t, TrimMessages(c));
  }

  /** A protected conversation that ends with the globally newest message still
      ends with it, however full the store was. */
  lemma PassKeepsNewest(
    scopes: seq<Scope>, activeKey: string, protectedTargets: set<string>, revision: nat, s: Scope, c: Conversation)
    returns (s': Scope, c': Conversation)
    requires Shape(scopes) && Content(scopes, revision) && EnforceBounds(scopes, activeKey, protectedTargets).Some?
    requires Holds(scopes, s, c) && TargetKey(s.key, c.id) in protectedTargets
    requires c.messages != [] && c.messages[|c.messages| - 1].createdOrder == revision
    ensures Holds(EnforceBounds(scopes, activeKey, protectedTargets).value, s', c')
    ensures s'.key == s.key && c'.id == c.id && c'.messages != []
    ensures Strips(c'.messages[|c'.messages| - 1], c.messages[|c.messages| - 1])
  {
    var e := SomeStages(scopes, activeKey, protectedTargets, revision);
    var t := SparedBeforeTruncation(scopes, activeKey, protectedTargets, e, s, c);
    s', c' := TrimmedLastStays(e.evicted, revision, t, c);
  }

  lemma ImagesKeepLast(scopes: seq<Scope>, i: nat, j: nat, key: string, id: string, m: Message)
    returns (s': Scope, c': Conversation)
    requires EndsWithAt(scopes, i, j, key, id, m)
    ensures Holds(DropImages(scopes), s', c') && s'.key == key && c'.id == id && c'.messages != []
    ensures Strips(c'.messages[|c'.messages| - 1], m)
  {
    DropImagesFrame(scopes);
    hide DropImages;
    var r := DropImages(scopes);
    assert ScopeFrame(r[i], scopes[i]) && MessagesKept(r[i], scopes[i]);
    s', c' := r[i], r[i].conversations[j];
    var c := scopes[i].conversations[j];
    assert ConversationFrom(c', c) && |c'.messages| == |c.messages|;
    StripsTransitive(c'.messages[|c'.messages| - 1], c.messages[|c.messages| - 1], m);
  }

  /** Messages are truncated only when no whole conversation could be evicted. */
  lemma TruncationIsLastResort(
    scopes: seq<Scope>, activeKey: string, protectedTargets: set<string>, revision: nat, s: Scope, c: Conversation)
    returns (e: Stages)
    requires Shape(scopes) && Content(scopes, revision) && EnforceBounds(scopes, activeKey, protectedTargets).Some?
    ensures CapAll(scopes, protectedTargets).Some? && e.capped == CapAll(scopes, protectedTargets).value
    ensures Shape(e.capped) && CapScopes(e.capped, activeKey, protectedTargets) == Some(e.fewer)
    ensures Shape(e.fewer) && e.evicted == EvictText(e.fewer, activeKey, protectedTargets)
    ensures e.truncated == TruncateText(e.evicted)
    ensures EnforceBounds(scopes, activeKey, protectedTargets) == Some(DropImages(e.truncated))
    ensures e.truncated != e.evicted && Holds(e.evicted, s, c) ==>
      TargetKey(s.key, c.id) in Kept(e.evicted, activeKey, protectedTargets)
  {
    e := SomeStages(scopes, activeKey, protectedTargets, revision);
    EvictSettles(e.fewer, activeKey, protectedTargets);
  }
}
