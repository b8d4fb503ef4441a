/** What the remaining phases of `enforceBounds` (src/aiConversationState.ts) take: a
    message or an image body goes exactly if the limits call for it, and a store within
    all limits passes unchanged. */
module ConversationExact {
  import opened Text
  import opened ConversationKeys
  import opened ConversationModel
  import opened ConversationBounds
  import opened ConversationEviction
  import opened ConversationPasses

  // ----- messages per conversation -----

  /** A conversation keeps its last 63 messages, or all of fewer, and everything else. */
  lemma NewestMessagesStay(c: Conversation)
    ensures var n := if |c.messages| <= 63 then |c.messages| else 63;
      TrimMessages(c) == c.(messages := c.messages[|c.messages| - n..])
  {
    assert c.messages[0..] == c.messages;
  }

  // ----- messages for the text budget -----

  ghost function MessagesSince(ms: seq<Message>, order: nat): nat {
    if ms == [] then 0
    else
      (if order <= ms[0].createdOrder then
         Bytes(ms[0].content) + if ms[0].tool.Some? then Bytes(ms[0].tool.value.command) else 0
       else 0) + MessagesSince(ms[1..], order)
  }

  ghost function ConversationsSince(cs: seq<Conversation>, order: nat): nat {
    if cs == [] then 0
    else Bytes(cs[0].title) + MessagesSince(cs[0].messages, order) + ConversationsSince(cs[1..], order)
  }

  /** All titles, and the text of the messages not older than `order`. */
  ghost function TextSince(scopes: seq<Scope>, order: nat): nat {
    if scopes == [] then 0 else ConversationsSince(scopes[0].conversations, order) + TextSince(scopes[1..], order)
  }

  lemma {:induction false} MessagesSinceBound(ms: seq<Message>, order: nat)
    ensures MessagesSince(ms, order) <= MessagesBytes(ms)
    ensures (forall m :: m in ms ==> order <= m.createdOrder) ==> MessagesSince(ms, order) == MessagesBytes(ms)
  {
    if ms != [] {
      MessagesSinceBound(ms[1..], order);
    }
  }

  lemma {:induction false} ConversationsSinceBound(cs: seq<Conversation>, order: nat)
    ensures ConversationsSince(cs, order) <= ConversationsBytes(cs)
    ensures (forall c, m :: c in cs && m in c.messages ==> order <= m.createdOrder) ==>
      ConversationsSince(cs, order) == ConversationsBytes(cs)
  {
    if cs != [] {
      hide MessagesSince, MessagesBytes;
      MessagesSinceBound(cs[0].messages, order);
      ConversationsSinceBound(cs[1..], order);
    }
  }

  lemma {:induction false} TextSinceBound(scopes: seq<Scope>, order: nat)
    ensures TextSince(scopes, order) <= TextBytes(scopes)
    ensures (forall s, c, m :: HoldsMessage(scopes, s, c, m) ==> order <= m.createdOrder) ==>
      TextSince(scopes, order) == TextBytes(scopes)
  {
    if scopes != [] {
      hide ConversationsSince, ConversationsBytes;
      ConversationsSinceBound(scopes[0].conversations, order);
      TextSinceBound(scopes[1..], order);
      assert forall c, m :: c in scopes[0].conversations && m in c.messages ==> HoldsMessage(scopes, scopes[0], c, m);
      assert forall s, c, m :: HoldsMessage(scopes[1..], s, c, m) ==> HoldsMessage(scopes, s, c, m);
    }
  }

  /** An older message that goes does not count. */
  lemma {:induction false} ConversationsSinceShift(cs: seq<Conversation>, gone: nat, order: nat)
    requires gone < order
    ensures ConversationsSince(ShiftConversations(cs, gone), order) == ConversationsSince(cs, order)
  {
    if cs != [] {
      hide MessagesBytes, ConversationsBytes;
      ConversationsSinceShift(cs[1..], gone, order);
    }
  }

  lemma {:induction false} TextSinceShift(scopes: seq<Scope>, gone: nat, order: nat)
    requires gone < order
    ensures TextSince(ShiftScopes(scopes, gone), order) == TextSince(scopes, order)
  {
    hide ConversationsSince;
    if scopes != [] {
      ConversationsSinceShift(scopes[0].conversations, gone, order);
      TextSinceShift(scopes[1..], gone, order);
    }
  }

  /** Truncation takes a message exactly if all titles and all messages not older than it
      exceed the budget. */
  lemma {:induction false} TruncateExactly(scopes: seq<Scope>, revision: nat, x: Slot)
    requires Shape(scopes) && Content(scopes, revision) && x in MessageSlots(scopes)
    ensures x !in MessageSlots(TruncateText(scopes)) <==> TextSince(scopes, x.order) > 384 * 1024
    decreases MessageCount(scopes)
  {
    hide TextSince, TextBytes, MessageSlots, Content, Shape, TruncateText;
    LeastIsGlobal(scopes, revision, x);
    if TruncatesMore(scopes) {
      var order, rest := TruncateOnce(scopes, revision);
      if x.order == order {
        OldestWeighsAll(scopes, revision);
        OldestGoes(scopes, revision, x);
      } else {
        ShiftKeepsOthers(scopes, order, x);
        TextSinceShift(scopes, order, x.order);
        TruncateExactly(rest, revision, x);
      }
    } else {
      TruncateStops(scopes);
      TextSinceBound(scopes, x.order);
    }
  }

  lemma TruncateStops(scopes: seq<Scope>)
    requires !TruncatesMore(scopes)
    ensures TruncateText(scopes) == scopes
  {
  }

  lemma OldestWeighsAll(scopes: seq<Scope>, revision: nat)
    requires Shape(scopes) && Content(scopes, revision) && AllFirstOrders(scopes) != []
    ensures TextSince(scopes, Least(AllFirstOrders(scopes))) == TextBytes(scopes)
  {
    hide TextSince, TextBytes, Content, Shape;
    var order := Least(AllFirstOrders(scopes));
    forall s, c, m | HoldsMessage(scopes, s, c, m)
      ensures order <= m.createdOrder
    {
      assert Slot(s.key, c.id, m.createdOrder) in MessageSlots(scopes);
      LeastIsGlobal(scopes, revision, Slot(s.key, c.id, m.createdOrder));
    }
    TextSinceBound(scopes, order);
  }

  lemma OldestGoes(scopes: seq<Scope>, revision: nat, x: Slot)
    requires Shape(scopes) && Content(scopes, revision) && TruncatesMore(scopes)
    requires x.order == Least(AllFirstOrders(scopes))
    ensures x !in MessageSlots(TruncateText(scopes))
  {
    hide MessageSlots, Content, Shape, TruncateText;
    var order, rest := TruncateOnce(scopes, revision);
    TruncateSlots(rest);
    if x in MessageSlots(TruncateText(scopes)) {
      ShiftDropsOldest(scopes, revision, order, x);
    }
  }

  // ----- image bodies -----

  /** An attachment counts as a body while it has data. */
  lemma BodyOfOne(order: nat, a: Attachment)
    ensures AttachmentBodies(order, [a]) == if a.data.Some? && a.data.value != "" then [Body(order, a.size)] else []
  {
    assert [a][1..] == [];
  }

  lemma BodiesCons(order: nat, a: Attachment, rest: seq<Attachment>)
    ensures AttachmentBodies(order, [a] + rest) == AttachmentBodies(order, [a]) + AttachmentBodies(order, rest)
  {
    assert [a][1..] == [] && ([a] + rest)[1..] == rest;
  }

  lemma {:induction false} BodiesOfMore(order: nat, a: seq<Attachment>, b: seq<Attachment>)
    ensures AttachmentBodies(order, a + b) == AttachmentBodies(order, a) + AttachmentBodies(order, b)
  {
    if a == [] {
      assert a + b == b;
    } else {
      hide AttachmentBodies;
      var x, rest := a[0], a[1..];
      assert a == [x] + rest && a + b == [x] + (rest + b);
      BodiesOfMore(order, rest, b);
      BodiesCons(order, x, rest);
      BodiesCons(order, x, rest + b);
    }
  }

  /** How many bodies belong to messages newer than `order`, and their size. */
  ghost function NewerCount(bs: seq<Body>, order: nat): nat {
    if bs == [] then 0 else (if bs[0].order > order then 1 else 0) + NewerCount(bs[1..], order)
  }

  ghost function NewerBytes(bs: seq<Body>, order: nat): int {
    if bs == [] then 0 else (if bs[0].order > order then bs[0].size else 0) + NewerBytes(bs[1..], order)
  }

  /** How many bodies belong to the message `order`, and their size. */
  ghost function OwnCount(bs: seq<Body>, order: nat): nat {
    if bs == [] then 0 else (if bs[0].order == order then 1 else 0) + OwnCount(bs[1..], order)
  }

  ghost function OwnBytes(bs: seq<Body>, order: nat): int {
    if bs == [] then 0 else (if bs[0].order == order then bs[0].size else 0) + OwnBytes(bs[1..], order)
  }

  /** The body at `i` with the later ones of its message and those of newer messages
      are more than four or more than 10 MiB. */
  ghost predicate Excess(bs: seq<Body>, i: nat)
    requires i < |bs|
  {
    || NewerCount(bs, bs[i].order) + OwnCount(bs[i..], bs[i].order) > 4
    || NewerBytes(bs, bs[i].order) + OwnBytes(bs[i..], bs[i].order) > 10 * 1024 * 1024
  }

  /** Those of the first `n` bodies that are not in excess, in their order. */
  ghost function Fitting(bs: seq<Body>, n: nat): seq<Body>
    requires n <= |bs|
  {
    if n == 0 then [] else Fitting(bs, n - 1) + if Excess(bs, n - 1) then [] else [bs[n - 1]]
  }

  function Splice(bs: seq<Body>, k: nat): seq<Body>
    requires k < |bs|
  {
    bs[..k] + bs[k + 1..]
  }

  lemma {:induction false} RemoveIsSplice(bs: seq<Body>, order: nat) returns (k: nat)
    requires Carries(bs, order)
    ensures k < |bs| && bs[k].order == order && RemoveBody(bs, order) == Splice(bs, k)
    ensures forall i :: 0 <= i < k ==> bs[i].order != order
  {
    if bs[0].order == order {
      k := 0;
    } else {
      var n := RemoveIsSplice(bs[1..], order);
      k := n + 1;
      assert Splice(bs, k) == [bs[0]] + Splice(bs[1..], n);
      forall i | 0 <= i < k
        ensures bs[i].order != order
      {
        assert i > 0 ==> bs[i] == bs[1..][i - 1];
      }
    }
  }

  lemma {:induction false} SpliceNewer(bs: seq<Body>, k: nat, order: nat)
    requires k < |bs| && bs[k].order <= order
    ensures NewerCount(Splice(bs, k), order) == NewerCount(bs, order)
    ensures NewerBytes(Splice(bs, k), order) == NewerBytes(bs, order)
  {
    if k == 0 {
      assert Splice(bs, 0) == bs[1..];
    } else {
      assert Splice(bs, k)[0] == bs[0] && Splice(bs, k)[1..] == Splice(bs[1..], k - 1);
      SpliceNewer(bs[1..], k - 1, order);
    }
  }

  lemma {:induction false} SpliceOwn(bs: seq<Body>, k: nat, order: nat)
    requires k < |bs| && bs[k].order != order
    ensures OwnCount(Splice(bs, k), order) == OwnCount(bs, order)
    ensures OwnBytes(Splice(bs, k), order) == OwnBytes(bs, order)
  {
    if k == 0 {
      assert Splice(bs, 0) == bs[1..];
    } else {
      assert Splice(bs, k)[0] == bs[0] && Splice(bs, k)[1..] == Splice(bs[1..], k - 1);
      SpliceOwn(bs[1..], k - 1, order);
    }
  }

  /** What goes first counts for none of the others. */
  lemma SpliceExcess(bs: seq<Body>, k: nat, i: nat)
    requires k < |bs| && i < |bs| - 1
    requires forall j :: 0 <= j < |bs| ==> bs[k].order <= bs[j].order
    requires forall j :: 0 <= j < k ==> bs[j].order != bs[k].order
    ensures var i' := if i < k then i else i + 1;
      Splice(bs, k)[i] == bs[i'] && (Excess(Splice(bs, k), i) <==> Excess(bs, i'))
  {
    var r := Splice(bs, k);
    SpliceNewer(bs, k, r[i].order);
    if i < k {
      assert r[i..] == Splice(bs[i..], k - i);
      SpliceOwn(bs[i..], k - i, r[i].order);
    } else {
      assert r[i..] == bs[i + 1..];
    }
  }

  lemma {:induction false} SpliceFitting(bs: seq<Body>, k: nat, n: nat)
    requires k < |bs| && n < |bs| && Excess(bs, k)
    requires forall j :: 0 <= j < |bs| ==> bs[k].order <= bs[j].order
    requires forall j :: 0 <= j < k ==> bs[j].order != bs[k].order
    ensures Fitting(Splice(bs, k), n) == Fitting(bs, if n <= k then n else n + 1)
  {
    hide Excess;
    if n > 0 {
      SpliceFitting(bs, k, n - 1);
      SpliceExcess(bs, k, n - 1);
    }
    if n == k {
      assert Fitting(bs, k + 1) == Fitting(bs, k) + [];
    }
  }

  lemma {:induction false} AllCount(bs: seq<Body>, order: nat)
    requires forall j :: 0 <= j < |bs| ==> order <= bs[j].order
    ensures NewerCount(bs, order) + OwnCount(bs, order) == |bs|
    ensures NewerBytes(bs, order) + OwnBytes(bs, order) == BodyBytes(bs)
  {
    if bs != [] {
      assert forall j :: 0 <= j < |bs[1..]| ==> bs[1..][j] == bs[j + 1];
      AllCount(bs[1..], order);
    }
  }

  lemma OwnSkips(bs: seq<Body>, order: nat)
    requires bs != [] && bs[0].order != order
    ensures OwnCount(bs, order) == OwnCount(bs[1..], order) && OwnBytes(bs, order) == OwnBytes(bs[1..], order)
  {
  }

  lemma {:induction false} NoneOwn(bs: seq<Body>, k: nat, order: nat)
    requires k <= |bs| && forall j :: 0 <= j < k ==> bs[j].order != order
    ensures OwnCount(bs, order) == OwnCount(bs[k..], order) && OwnBytes(bs, order) == OwnBytes(bs[k..], order)
  {
    hide OwnCount, OwnBytes;
    if k == 0 {
      assert bs[0..] == bs;
    } else {
      OwnSkips(bs, order);
      assert forall j :: 0 <= j < k - 1 ==> bs[1..][j] == bs[j + 1];
      NoneOwn(bs[1..], k - 1, order);
      assert bs[1..][k - 1..] == bs[k..];
    }
  }

  lemma {:induction false} SomeCount(bs: seq<Body>, order: nat)
    requires forall j :: 0 <= j < |bs| ==> bs[j].size >= 0
    ensures NewerCount(bs, order) + OwnCount(bs, order) <= |bs|
    ensures NewerBytes(bs, order) + OwnBytes(bs, order) <= BodyBytes(bs)
    ensures 0 <= OwnBytes(bs, order)
  {
    if bs != [] {
      assert forall j :: 0 <= j < |bs[1..]| ==> bs[1..][j] == bs[j + 1];
      SomeCount(bs[1..], order);
    }
  }

  lemma {:induction false} TailOwn(bs: seq<Body>, i: nat, order: nat)
    requires i <= |bs| && forall j :: 0 <= j < |bs| ==> bs[j].size >= 0
    ensures OwnCount(bs[i..], order) <= OwnCount(bs, order) && OwnBytes(bs[i..], order) <= OwnBytes(bs, order)
  {
    if i == 0 {
      assert bs[0..] == bs;
    } else {
      assert forall j :: 0 <= j < |bs[1..]| ==> bs[1..][j] == bs[j + 1];
      TailOwn(bs[1..], i - 1, order);
      assert bs[1..][i - 1..] == bs[i..];
    }
  }

  /** Nothing is in excess of limits that all bodies keep. */
  lemma {:induction false} NoExcess(bs: seq<Body>, n: nat)
    requires |bs| <= 4 && BodyBytes(bs) <= 10 * 1024 * 1024 && n <= |bs|
    requires forall j :: 0 <= j < |bs| ==> bs[j].size >= 0
    ensures Fitting(bs, n) == bs[..n]
  {
    if n > 0 {
      NoExcess(bs, n - 1);
      SomeCount(bs, bs[n - 1].order);
      TailOwn(bs, n - 1, bs[n - 1].order);
      assert bs[..n] == bs[..n - 1] + [bs[n - 1]];
    }
  }

  lemma FirstIsExcess(bs: seq<Body>, k: nat)
    requires k < |bs| && !(|bs| <= 4 && BodyBytes(bs) <= 10 * 1024 * 1024)
    requires forall j :: 0 <= j < |bs| ==> bs[k].order <= bs[j].order
    requires forall j :: 0 <= j < k ==> bs[j].order != bs[k].order
    ensures Excess(bs, k)
  {
    AllCount(bs, bs[k].order);
    NoneOwn(bs, k, bs[k].order);
  }

  lemma RetainedUnfolds(bs: seq<Body>)
    ensures |bs| <= 4 && BodyBytes(bs) <= 10 * 1024 * 1024 ==> Retained(bs) == bs
    ensures bs != [] && !(|bs| <= 4 && BodyBytes(bs) <= 10 * 1024 * 1024) ==>
      Carries(bs, OldestBody(bs)) && Retained(bs) == Retained(RemoveBody(bs, OldestBody(bs)))
  {
  }

  lemma SpliceSizes(bs: seq<Body>, k: nat)
    requires k < |bs| && forall j :: 0 <= j < |bs| ==> bs[j].size >= 0
    ensures |Splice(bs, k)| == |bs| - 1 && forall j :: 0 <= j < |bs| - 1 ==> Splice(bs, k)[j].size >= 0
  {
    forall j | 0 <= j < |bs| - 1 ensures Splice(bs, k)[j].size >= 0 {
      assert Splice(bs, k)[j] == bs[if j < k then j else j + 1];
    }
  }

  lemma {:induction false} RetainedExactly(bs: seq<Body>)
    requires forall j :: 0 <= j < |bs| ==> bs[j].size >= 0
    ensures Retained(bs) == Fitting(bs, |bs|)
    decreases |bs|
  {
    hide Excess, Fitting, BodyBytes, Retained, RemoveBody, Carries;
    RetainedUnfolds(bs);
    if |bs| <= 4 && BodyBytes(bs) <= 10 * 1024 * 1024 {
      NoExcess(bs, |bs|);
      assert bs[..|bs|] == bs;
    } else if bs == [] {
      NoBodiesFit();
    } else {
      var order := OldestBody(bs);
      var k := RemoveIsSplice(bs, order);
      FirstIsExcess(bs, k);
      SpliceFitting(bs, k, |bs| - 1);
      LastFitting(bs, k);
      SpliceSizes(bs, k);
      RetainedExactly(Splice(bs, k));
    }
  }

  lemma NoBodiesFit()
    ensures BodyBytes([]) == 0 <= 10 * 1024 * 1024
  {
  }

  lemma LastFitting(bs: seq<Body>, k: nat)
    requires k < |bs| && Excess(bs, k)
    ensures k == |bs| - 1 ==> Fitting(bs, |bs|) == Fitting(bs, k)
  {
  }

  /** The image pass leaves exactly the bodies that are not in excess. */
  lemma ImagesExactly(scopes: seq<Scope>)
    requires forall j :: 0 <= j < |Bodies(scopes)| ==> Bodies(scopes)[j].size >= 0
    ensures Bodies(DropImages(scopes)) == Fitting(Bodies(scopes), |Bodies(scopes)|)
  {
    hide DropImages, Fitting, Retained;
    DropImagesBodies(scopes);
    RetainedExactly(Bodies(scopes));
  }

  /** Four bodies of 10 MiB together stay. */
  lemma ImagesWithinLimits(scopes: seq<Scope>)
    ensures |Bodies(scopes)| <= 4 && BodyBytes(Bodies(scopes)) <= 10 * 1024 * 1024 ==> DropImages(scopes) == scopes
  {
  }
}
