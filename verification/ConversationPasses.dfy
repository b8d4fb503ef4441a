/** The remaining eviction promises: messages go oldest first and the newest one
    stays, image bodies go oldest first and the two newest stay, and one pass of
    `enforceBounds` meets every limit. */
module ConversationPasses {
  import opened Text
  import opened ConversationKeys
  import opened ConversationModel
  import opened ConversationBounds
  import opened ConversationEviction

  // ----- message truncation, oldest first -----

  lemma MessageHolder(scopes: seq<Scope>, x: Slot) returns (i: nat, j: nat, k: nat)
    requires x in MessageSlots(scopes)
    ensures i < |scopes| && j < |scopes[i].conversations| && k < |scopes[i].conversations[j].messages|
    ensures x == Slot(scopes[i].key, scopes[i].conversations[j].id, scopes[i].conversations[j].messages[k].createdOrder)
  {
    var s, c, m :| s in scopes && c in s.conversations && m in c.messages && x == Slot(s.key, c.id, m.createdOrder);
    i :| i < |scopes| && scopes[i] == s;
    j :| j < |s.conversations| && s.conversations[j] == c;
    k :| k < |c.messages| && c.messages[k] == m;
  }

  lemma SlotOfMessage(scopes: seq<Scope>, i: nat, j: nat, k: nat)
    requires i < |scopes| && j < |scopes[i].conversations| && k < |scopes[i].conversations[j].messages|
    ensures Slot(scopes[i].key, scopes[i].conversations[j].id, scopes[i].conversations[j].messages[k].createdOrder)
      in MessageSlots(scopes)
  {
    assert scopes[i] in scopes && scopes[i].conversations[j] in scopes[i].conversations;
    assert scopes[i].conversations[j].messages[k] in scopes[i].conversations[j].messages;
  }

  /** The oldest first message of any conversation is the oldest message of all. */
  lemma LeastIsGlobal(scopes: seq<Scope>, revision: nat, x: Slot)
    requires Content(scopes, revision) && x in MessageSlots(scopes)
    ensures AllFirstOrders(scopes) != [] && Least(AllFirstOrders(scopes)) <= x.order
  {
    var i, j, k := MessageHolder(scopes, x);
    var s, c := scopes[i], scopes[i].conversations[j];
    assert Holds(scopes, s, c) && ConversationOk(c, revision);
    AllFirstOrdersHas(scopes, s, c);
  }

  lemma ShiftKeepsOthers(scopes: seq<Scope>, order: nat, x: Slot)
    requires x in MessageSlots(scopes) && x.order != order
    ensures x in MessageSlots(ShiftScopes(scopes, order))
  {
    hide ShiftScopes, MessageSlots, Shifted;
    var i, j, k := MessageHolder(scopes, x);
    ShiftAt(scopes, order, i, j);
    var r := ShiftScopes(scopes, order);
    var k' := ShiftedHas(r[i].conversations[j], scopes[i].conversations[j], order, k);
    SlotOfMessage(r, i, j, k');
  }

  lemma ShiftedHas(c': Conversation, c: Conversation, order: nat, k: nat) returns (k': nat)
    requires Shifted(c', c, order) && k < |c.messages| && c.messages[k].createdOrder != order
    ensures c'.id == c.id && k' < |c'.messages| && c'.messages[k'] == c.messages[k]
  {
    k' := if c' == c then k else k - 1;
  }

  lemma {:induction false} ShiftHitIn(cs: seq<Conversation>, order: nat) returns (j: nat)
    requires order in FirstOrders(cs)
    ensures j < |cs| && cs[j].messages != [] && cs[j].messages[0].createdOrder == order
    ensures ShiftConversations(cs, order)[j] == cs[j].(messages := cs[j].messages[1..])
  {
    if cs[0].messages != [] && cs[0].messages[0].createdOrder == order {
      j := 0;
    } else {
      var n := ShiftHitIn(cs[1..], order);
      j := n + 1;
    }
  }

  lemma {:induction false} ShiftHit(scopes: seq<Scope>, order: nat) returns (i: nat, j: nat)
    requires order in AllFirstOrders(scopes)
    ensures i < |scopes| && j < |scopes[i].conversations|
    ensures var c := scopes[i].conversations[j];
      && c.messages != [] && c.messages[0].createdOrder == order
      && |ShiftScopes(scopes, order)[i].conversations| == |scopes[i].conversations|
      && ShiftScopes(scopes, order)[i].conversations[j] == c.(messages := c.messages[1..])
  {
    if order in FirstOrders(scopes[0].conversations) {
      i := 0;
      j := ShiftHitIn(scopes[0].conversations, order);
    } else {
      var n;
      n, j := ShiftHit(scopes[1..], order);
      i := n + 1;
    }
  }

  lemma SamePlace(scopes: seq<Scope>, i: nat, j: nat, i': nat, j': nat)
    requires Shape(scopes)
    requires i < |scopes| && j < |scopes[i].conversations| && i' < |scopes| && j' < |scopes[i'].conversations|
    requires scopes[i].key == scopes[i'].key && scopes[i].conversations[j].id == scopes[i'].conversations[j'].id
    ensures i == i' && j == j'
  {
    assert ScopeShape(scopes[i]);
  }

  lemma ShiftSlots(scopes: seq<Scope>, order: nat)
    ensures MessageSlots(ShiftScopes(scopes, order)) <= MessageSlots(scopes)
  {
    ShiftFrame(scopes, order);
    FrameFrom(ShiftScopes(scopes, order), scopes);
    SlotsFrom(ShiftScopes(scopes, order), scopes);
  }

  lemma ShiftedHasNot(c: Conversation, revision: nat, k: nat)
    requires ConversationOk(c, revision) && c.messages != [] && k < |c.messages[1..]|
    ensures c.messages[1..][k].createdOrder != c.messages[0].createdOrder
  {
  }

  lemma ShiftDropsOldest(scopes: seq<Scope>, revision: nat, order: nat, y: Slot)
    requires Shape(scopes) && Content(scopes, revision) && order in AllFirstOrders(scopes)
    requires y in MessageSlots(ShiftScopes(scopes, order))
    ensures y.order != order
  {
    ShiftSlots(scopes, order);
    var i, j := ShiftHit(scopes, order);
    SlotOfMessage(scopes, i, j, 0);
    var i', j', k := MessageHolder(ShiftScopes(scopes, order), y);
    ShiftScopesAt(scopes, order, i');
    ShiftAt(scopes, order, i', j');
    if y.order == order {
      SamePlace(scopes, i, j, i', j');
      assert Holds(scopes, scopes[i], scopes[i].conversations[j]);
      ShiftedHasNot(scopes[i].conversations[j], revision, k);
    }
  }

  ghost predicate TruncatesMore(scopes: seq<Scope>) {
    TextBytes(scopes) > MAX_TEXT_BYTES && AllFirstOrders(scopes) != []
  }

  /** One turn of the truncation loop. */
  lemma TruncateOnce(scopes: seq<Scope>, revision: nat) returns (order: nat, rest: seq<Scope>)
    requires Shape(scopes) && Content(scopes, revision) && TruncatesMore(scopes)
    ensures order == Least(AllFirstOrders(scopes)) && rest == ShiftScopes(scopes, order)
    ensures TruncateText(scopes) == TruncateText(rest) && MessageCount(rest) < MessageCount(scopes)
    ensures Shape(rest) && Content(rest, revision)
  {
    order := Least(AllFirstOrders(scopes));
    rest := ShiftScopes(scopes, order);
    ShiftScopesCount(scopes, order);
    ShiftFrame(scopes, order);
    FrameFrom(rest, scopes);
    ContentFrom(rest, scopes, revision);
  }

  lemma TruncateSlots(scopes: seq<Scope>)
    ensures MessageSlots(TruncateText(scopes)) <= MessageSlots(scopes)
  {
    TruncateFrame(scopes);
    FrameFrom(TruncateText(scopes), scopes);
    SlotsFrom(TruncateText(scopes), scopes);
  }

  /** Truncation removes globally oldest messages: each removed message is older
      than every message that stays, in any conversation. */
  lemma {:induction false} TruncateOldestFirst(scopes: seq<Scope>, revision: nat, x: Slot, y: Slot)
    requires Shape(scopes) && Content(scopes, revision)
    requires x in MessageSlots(scopes) && x !in MessageSlots(TruncateText(scopes))
    requires y in MessageSlots(TruncateText(scopes))
    ensures x.order < y.order
    decreases MessageCount(scopes)
  {
    if TruncatesMore(scopes) {
      var order, rest := TruncateOnce(scopes, revision);
      TruncateSlots(rest);
      ShiftDropsOldest(scopes, revision, order, y);
      ShiftSlots(scopes, order);
      if x in MessageSlots(rest) {
        TruncateOldestFirst(rest, revision, x, y);
      } else {
        if x.order != order {
          ShiftKeepsOthers(scopes, order, x);
        }
        LeastIsGlobal(scopes, revision, y);
      }
    }
  }

  // ----- the newest message survives -----

  ghost predicate EndsWithAt(scopes: seq<Scope>, i: nat, j: nat, key: string, id: string, m: Message) {
    && i < |scopes| && scopes[i].key == key
    && j < |scopes[i].conversations| && scopes[i].conversations[j].id == id
    && scopes[i].conversations[j].messages != []
    && Strips(scopes[i].conversations[j].messages[|scopes[i].conversations[j].messages| - 1], m)
  }

  const ONE_MESSAGE_BYTES: nat := MAX_MESSAGE_BYTES + MAX_COMMAND_BYTES

  lemma LoneBudget(scopeCount: nat, bytes: nat)
    requires scopeCount <= MAX_SCOPES && bytes <= scopeCount * TITLES_PER_SCOPE + ONE_MESSAGE_BYTES
    ensures bytes <= MAX_TEXT_BYTES
  {
  }

  lemma LoneFits(scopes: seq<Scope>, key: string, id: string)
    requires UniqueKeys(scopes) && |scopes| <= MAX_SCOPES
    requires forall s :: s in scopes ==> LoneIn(s, key, id, ONE_MESSAGE_BYTES)
    ensures TextBytes(scopes) <= MAX_TEXT_BYTES
  {
    LoneScopeBytes(scopes, key, id, ONE_MESSAGE_BYTES);
    LoneBudget(|scopes|, TextBytes(scopes));
  }

  /** If the newest message is the oldest first message, it is alone and fits. */
  lemma NewestAloneFits(scopes: seq<Scope>, revision: nat)
    requires Shape(scopes) && Content(scopes, revision) && CountsBounded(scopes)
    requires AllFirstOrders(scopes) != [] && Least(AllFirstOrders(scopes)) == revision
    ensures TextBytes(scopes) <= MAX_TEXT_BYTES
  {
    var t, d := FirstOrderHolder(scopes, revision);
    forall s | s in scopes
      ensures LoneIn(s, t.key, d.id, ONE_MESSAGE_BYTES)
    {
      NewestIsLoneIn(scopes, revision, s, t, d);
    }
    LoneFits(scopes, t.key, d.id);
  }

  lemma NewestIsLoneIn(scopes: seq<Scope>, revision: nat, s: Scope, t: Scope, d: Conversation)
    requires Shape(scopes) && Content(scopes, revision) && CountsBounded(scopes) && s in scopes && Holds(scopes, t, d)
    requires d.messages != [] && d.messages[0].createdOrder == revision
    requires AllFirstOrders(scopes) != [] && Least(AllFirstOrders(scopes)) == revision
    ensures LoneIn(s, t.key, d.id, ONE_MESSAGE_BYTES)
  {
    assert ScopeShape(s);
    forall c | c in s.conversations
      ensures Bytes(c.title) <= MAX_TITLE_BYTES
      ensures c.messages == [] || (s.key == t.key && c.id == d.id && MessagesBytes(c.messages) <= ONE_MESSAGE_BYTES)
    {
      assert Holds(scopes, s, c) && ConversationOk(c, revision);
      if c.messages != [] {
        NewestIsLone(scopes, revision, s, c, t, d);
      }
    }
  }

  lemma NewestIsLone(scopes: seq<Scope>, revision: nat, s: Scope, c: Conversation, t: Scope, d: Conversation)
    requires Content(scopes, revision) && Holds(scopes, s, c) && Holds(scopes, t, d)
    requires c.messages != [] && d.messages != [] && d.messages[0].createdOrder == revision
    requires AllFirstOrders(scopes) != [] && Least(AllFirstOrders(scopes)) == revision
    ensures s.key == t.key && c.id == d.id && MessagesBytes(c.messages) <= ONE_MESSAGE_BYTES
  {
    AllFirstOrdersHas(scopes, s, c);
    assert ConversationOk(c, revision) && ConversationOk(d, revision);
    assert MessageOk(c.messages[0], c.updatedOrder);
    assert c.messages[0].createdOrder == revision;
    assert c.messages[0] in c.messages && d.messages[0] in d.messages;
    assert Slot(s.key, c.id, revision) in MessageSlots(scopes) && Slot(t.key, d.id, revision) in MessageSlots(scopes);
    assert forall k :: 0 < k < |c.messages| ==> MessageOk(c.messages[k], c.updatedOrder);
    assert MessagesBytes(c.messages[1..]) == 0;
  }

  lemma ShiftKeepsNewest(scopes: seq<Scope>, order: nat, i: nat, j: nat, key: string, id: string, m: Message)
    requires EndsWithAt(scopes, i, j, key, id, m) && order != m.createdOrder
    ensures EndsWithAt(ShiftScopes(scopes, order), i, j, key, id, m)
  {
    ShiftAt(scopes, order, i, j);
  }

  /** However full the store, a message with the newest order is never truncated. */
  lemma {:induction false} TruncateKeepsNewest(
    scopes: seq<Scope>, revision: nat, i: nat, j: nat, key: string, id: string, m: Message)
    requires Shape(scopes) && Content(scopes, revision) && CountsBounded(scopes)
    requires EndsWithAt(scopes, i, j, key, id, m) && m.createdOrder == revision
    ensures EndsWithAt(TruncateText(scopes), i, j, key, id, m)
    decreases MessageCount(scopes)
  {
    if TruncatesMore(scopes) {
      var order, rest := TruncateOnce(scopes, revision);
      if order == revision {
        NewestAloneFits(scopes, revision);
      }
      ShiftKeepsNewest(scopes, order, i, j, key, id, m);
      ShiftFrame(scopes, order);
      FrameCounts(rest, scopes);
      TruncateKeepsNewest(rest, revision, i, j, key, id, m);
    }
  }

  // ----- image bodies -----

  lemma {:induction false} DropFirstBodyAt(attachments: seq<Attachment>, i: nat)
    requires i < |attachments|
    ensures DropFirstBody(attachments)[i] == attachments[i]
      || DropFirstBody(attachments)[i] == attachments[i].(data := None)
  {
    if !HasBody(attachments[0]) && i > 0 {
      DropFirstBodyAt(attachments[1..], i - 1);
    }
  }

  lemma {:induction false} DropFromMessagesAt(ms: seq<Message>, order: nat, i: nat)
    requires i < |ms|
    ensures Strips(DropFromMessages(ms, order)[i], ms[i])
  {
    if Carries(AttachmentBodies(ms[0].createdOrder, ms[0].attachments), order) {
      forall k | 0 <= k < |ms[0].attachments|
        ensures DropFirstBody(ms[0].attachments)[k] == ms[0].attachments[k]
          || DropFirstBody(ms[0].attachments)[k] == ms[0].attachments[k].(data := None)
      {
        DropFirstBodyAt(ms[0].attachments, k);
      }
    } else if i > 0 {
      DropFromMessagesAt(ms[1..], order, i - 1);
    }
  }

  lemma {:induction false} DropFromConversationsAt(cs: seq<Conversation>, order: nat, j: nat)
    requires j < |cs|
    ensures ConversationFrom(DropFromConversations(cs, order)[j], cs[j])
    ensures |DropFromConversations(cs, order)[j].messages| == |cs[j].messages|
  {
    if Carries(MessageBodies(cs[0].messages), order) {
      forall i | 0 <= i < |cs[0].messages|
        ensures Strips(DropFromMessages(cs[0].messages, order)[i], cs[0].messages[i])
      {
        DropFromMessagesAt(cs[0].messages, order, i);
      }
      ConversationFromReflexive(cs[j]);
    } else if j > 0 {
      DropFromConversationsAt(cs[1..], order, j - 1);
    } else {
      ConversationFromReflexive(cs[0]);
    }
  }

  /** No conversation lost a message. */
  ghost predicate MessagesKept(s': Scope, s: Scope) {
    && |s'.conversations| == |s.conversations|
    && forall j :: 0 <= j < |s.conversations| ==> |s'.conversations[j].messages| == |s.conversations[j].messages|
  }

  lemma {:induction false} DropFromScopesAt(scopes: seq<Scope>, order: nat, i: nat)
    requires i < |scopes|
    ensures ScopeFrame(DropFromScopes(scopes, order)[i], scopes[i])
    ensures MessagesKept(DropFromScopes(scopes, order)[i], scopes[i])
  {
    if Carries(ConversationBodies(scopes[0].conversations), order) {
      if i == 0 {
        forall j | 0 <= j < |scopes[0].conversations|
          ensures ConversationFrom(DropFromConversations(scopes[0].conversations, order)[j], scopes[0].conversations[j])
          ensures |DropFromConversations(scopes[0].conversations, order)[j].messages|
            == |scopes[0].conversations[j].messages|
        {
          DropFromConversationsAt(scopes[0].conversations, order, j);
        }
      } else {
        ScopeFrameReflexive(scopes[i]);
      }
    } else if i > 0 {
      DropFromScopesAt(scopes[1..], order, i - 1);
    } else {
      ScopeFrameReflexive(scopes[0]);
    }
  }

  lemma {:induction false} DropFromMessagesBytes(ms: seq<Message>, order: nat)
    ensures MessagesBytes(DropFromMessages(ms, order)) == MessagesBytes(ms)
  {
    if ms != [] {
      DropFromMessagesBytes(ms[1..], order);
    }
  }

  lemma {:induction false} DropFromConversationsBytes(cs: seq<Conversation>, order: nat)
    ensures ConversationsBytes(DropFromConversations(cs, order)) == ConversationsBytes(cs)
  {
    if cs != [] {
      DropFromMessagesBytes(cs[0].messages, order);
      DropFromConversationsBytes(cs[1..], order);
    }
  }

  lemma {:induction false} DropFromScopesBytes(scopes: seq<Scope>, order: nat)
    ensures TextBytes(DropFromScopes(scopes, order)) == TextBytes(scopes)
  {
    if scopes != [] {
      DropFromConversationsBytes(scopes[0].conversations, order);
      DropFromScopesBytes(scopes[1..], order);
    }
  }

  ghost predicate ImageFrame(scopes': seq<Scope>, scopes: seq<Scope>) {
    && Frame(scopes', scopes)
    && (forall i :: 0 <= i < |scopes| ==> MessagesKept(scopes'[i], scopes[i]))
    && TextBytes(scopes') == TextBytes(scopes)
  }

  lemma ImageFrameTransitive(a: seq<Scope>, b: seq<Scope>, c: seq<Scope>)
    requires ImageFrame(a, b) && ImageFrame(b, c)
    ensures ImageFrame(a, c)
  {
    FrameTransitive(a, b, c);
    forall i | 0 <= i < |c|
      ensures MessagesKept(a[i], c[i])
    {
      assert MessagesKept(a[i], b[i]) && MessagesKept(b[i], c[i]);
    }
  }

  lemma DropImageFrame(scopes: seq<Scope>, order: nat)
    ensures ImageFrame(DropFromScopes(scopes, order), scopes)
  {
    DropFromScopesBytes(scopes, order);
    forall i | 0 <= i < |scopes|
      ensures ScopeFrame(DropFromScopes(scopes, order)[i], scopes[i])
      ensures MessagesKept(DropFromScopes(scopes, order)[i], scopes[i])
    {
      DropFromScopesAt(scopes, order, i);
    }
  }

  /** The image pass touches image bodies only: no message, attachment record or
      byte of text changes. */
  lemma {:induction false} DropImagesFrame(scopes: seq<Scope>)
    ensures ImageFrame(DropImages(scopes), scopes)
    decreases |Bodies(scopes)|
  {
    if ImagesFit(Bodies(scopes)) || Bodies(scopes) == [] {
      FrameReflexive(scopes);
    } else {
      var order := OldestBody(Bodies(scopes));
      BodiesDrop(scopes, order);
      var rest := DropFromScopes(scopes, order);
      DropImageFrame(scopes, order);
      DropImagesFrame(rest);
      ImageFrameTransitive(DropImages(rest), rest, scopes);
    }
  }

  /** The bodies the image pass discards, in the order it discards them. */
  ghost function Discarded(bs: seq<Body>): seq<Body>
    decreases |bs|
  {
    if ImagesFit(bs) || bs == [] then []
    else [FirstOf(bs, OldestBody(bs))] + Discarded(RemoveBody(bs, OldestBody(bs)))
  }

  ghost function Retained(bs: seq<Body>): seq<Body>
    decreases |bs|
  {
    if ImagesFit(bs) || bs == [] then bs else Retained(RemoveBody(bs, OldestBody(bs)))
  }

  ghost function FirstOf(bs: seq<Body>, order: nat): (b: Body)
    requires Carries(bs, order)
    ensures b in bs && b.order == order
  {
    if bs[0].order == order then bs[0] else FirstOf(bs[1..], order)
  }

  lemma {:induction false} RemoveBodyMultiset(bs: seq<Body>, order: nat)
    requires Carries(bs, order)
    ensures multiset(bs) == multiset(RemoveBody(bs, order)) + multiset{FirstOf(bs, order)}
    ensures BodyBytes(bs) == BodyBytes(RemoveBody(bs, order)) + FirstOf(bs, order).size
  {
    assert bs == [bs[0]] + bs[1..];
    if bs[0].order != order {
      RemoveBodyMultiset(bs[1..], order);
    }
  }

  /** The pass on the store is the pass on the list of bodies. */
  lemma {:induction false} DropImagesBodies(scopes: seq<Scope>)
    ensures Bodies(DropImages(scopes)) == Retained(Bodies(scopes))
    ensures ImagesFit(Bodies(DropImages(scopes)))
    decreases |Bodies(scopes)|
  {
    if !ImagesFit(Bodies(scopes)) && Bodies(scopes) != [] {
      var order := OldestBody(Bodies(scopes));
      BodiesDrop(scopes, order);
      DropImagesBodies(DropFromScopes(scopes, order));
    }
  }

  /** Bodies are conserved: each one is kept or discarded. */
  lemma {:induction false} ImagesConserved(bs: seq<Body>)
    ensures multiset(bs) == multiset(Retained(bs)) + multiset(Discarded(bs))
    decreases |bs|
  {
    if !ImagesFit(bs) && bs != [] {
      RemoveBodyMultiset(bs, OldestBody(bs));
      ImagesConserved(RemoveBody(bs, OldestBody(bs)));
    }
  }

  lemma RemovedIsOldest(bs: seq<Body>, b: Body)
    requires bs != [] && b in RemoveBody(bs, OldestBody(bs))
    ensures OldestBody(bs) <= b.order
  {
    RemoveBodyMultiset(bs, OldestBody(bs));
    assert b in multiset(RemoveBody(bs, OldestBody(bs)));
    assert b in multiset(bs);
    var i :| 0 <= i < |bs| && bs[i] == b;
  }

  /** Bodies go oldest message first: none that is discarded is newer than one
      that stays. */
  lemma {:induction false} ImagesOldestFirst(bs: seq<Body>, d: Body, k: Body)
    requires d in Discarded(bs) && k in Retained(bs)
    ensures d.order <= k.order
    decreases |bs|
  {
    var rest := RemoveBody(bs, OldestBody(bs));
    if d in Discarded(rest) {
      ImagesOldestFirst(rest, d, k);
    } else {
      ImagesConserved(rest);
      assert k in multiset(Retained(rest));
      assert k in multiset(rest);
      RemovedIsOldest(bs, k);
    }
  }

  /** Two bodies always fit, so the two newest are kept whenever two exist. */
  lemma {:induction false} TwoNewestStay(bs: seq<Body>)
    requires forall i :: 0 <= i < |bs| ==> 0 < bs[i].size <= MAX_ATTACHMENT_BYTES
    ensures |bs| >= 2 ==> |Retained(bs)| >= 2
    ensures |bs| < 2 ==> Retained(bs) == bs
    decreases |bs|
  {
    if |bs| <= 2 {
      assert |bs| >= 1 ==> BodyBytes(bs[1..]) <= MAX_ATTACHMENT_BYTES;
    } else if !ImagesFit(bs) {
      var rest := RemoveBody(bs, OldestBody(bs));
      RemoveBodyMultiset(bs, OldestBody(bs));
      forall i | 0 <= i < |rest|
        ensures 0 < rest[i].size <= MAX_ATTACHMENT_BYTES
      {
        assert rest[i] in multiset(rest);
        assert rest[i] in multiset(bs);
      }
      TwoNewestStay(rest);
    }
  }
}
