/** What a merge or a fold of upserts (src/knownHostsUi.ts) leaves in each record, told by
    the incoming records that reached it. */
module KnownHostRecords {
  import opened Text
  import opened KnownHosts

  // ----- which record is reached -----

  /** The record at `i` is the first with this id, or, if there is none, the first for which
      `same` holds. */
  ghost predicate Reached(hosts: seq<KnownHost>, id: string, i: nat, same: KnownHost -> bool) {
    && i < |hosts|
    && if exists j :: 0 <= j < |hosts| && hosts[j].id == id
       then hosts[i].id == id && forall j :: 0 <= j < i ==> hosts[j].id != id
       else same(hosts[i]) && forall j :: 0 <= j < i ==> !same(hosts[j])
  }

  /** Equal key strings, as the selector map has them. */
  ghost function SameKey(norm: string -> string, h: KnownHost): KnownHost -> bool {
    (x: KnownHost) => Key(SelectorOf(norm, x)) == Key(SelectorOf(norm, h))
  }

  /** Equal normalised host name, port and key type. */
  ghost function SameSelector(norm: string -> string, h: KnownHost): KnownHost -> bool {
    (x: KnownHost) => norm(x.hostname) == norm(h.hostname) && x.port == h.port && x.keyType == h.keyType
  }

  /** A merge reaches a record by id first, then by selector key; */
  lemma MergeReaches(norm: string -> string, hosts: seq<KnownHost>, h: KnownHost)
    ensures match MatchByKey(norm, hosts, h)
      case Some(i) => Reached(hosts, h.id, i, SameKey(norm, h))
      case None => forall i :: 0 <= i < |hosts| ==> hosts[i].id != h.id && !SameKey(norm, h)(hosts[i])
  {
    hide Key;
  }

  /** an upsert by id first, then by selector. */
  lemma UpsertReaches(norm: string -> string, hosts: seq<KnownHost>, h: KnownHost)
    ensures match Match(norm, hosts, h)
      case Some(i) => Reached(hosts, h.id, i, SameSelector(norm, h))
      case None => forall i :: 0 <= i < |hosts| ==> hosts[i].id != h.id && !SameSelector(norm, h)(hosts[i])
  {
  }

  // ----- what a record tells -----

  ghost function LastSome<T>(xs: seq<Option<T>>): Option<T> {
    if xs == [] then None
    else
      var n := |xs| - 1;
      if xs[n].Some? then xs[n] else LastSome(xs[..n])
  }

  ghost function FirstSome<T>(xs: seq<Option<T>>): Option<T> {
    if xs == [] then None else if xs[0].Some? then xs[0] else FirstSome(xs[1..])
  }

  ghost function Fingerprints(hosts: seq<KnownHost>): seq<Option<string>> {
    seq(|hosts|, i requires 0 <= i < |hosts| => hosts[i].fingerprint)
  }

  ghost function Orders(hosts: seq<KnownHost>): seq<Option<int>> {
    seq(|hosts|, i requires 0 <= i < |hosts| => hosts[i].order)
  }

  ghost function Conversions(hosts: seq<KnownHost>): seq<Option<string>> {
    seq(|hosts|, i requires 0 <= i < |hosts| => hosts[i].convertedToHostId)
  }

  /** A record that was `first` and was reached by `hits`: identity and discovery of the
      first, the key data and sighting of the last, the newest fingerprint and order there
      were, and the oldest conversion. */
  ghost predicate Tells(r: KnownHost, first: KnownHost, hits: seq<KnownHost>) {
    if hits == [] then r == first
    else
      var last, all := hits[|hits| - 1], [first] + hits;
      && r.id == first.id && r.discoveredAt == first.discoveredAt
      && r.hostname == last.hostname && r.port == last.port && r.keyType == last.keyType && r.publicKey == last.publicKey
      && r.lastSeen == (if last.lastSeen.Some? then last.lastSeen else Some(last.discoveredAt))
      && r.fingerprint == LastSome(Fingerprints(all)) && r.order == LastSome(Orders(all))
      && r.convertedToHostId == FirstSome(Conversions(all))
  }

  lemma LastSomePushed<T>(xs: seq<Option<T>>, x: Option<T>)
    ensures LastSome(xs + [x]) == if x.Some? then x else LastSome(xs)
  {
    assert (xs + [x])[..|xs|] == xs;
  }

  lemma {:induction false} FirstSomePushed<T>(xs: seq<Option<T>>, x: Option<T>)
    ensures FirstSome(xs + [x]) == if FirstSome(xs).Some? then FirstSome(xs) else x
  {
    if xs == [] {
      assert [] + [x] == [x] && [x][1..] == [];
    } else {
      assert (xs + [x])[1..] == xs[1..] + [x];
      FirstSomePushed(xs[1..], x);
    }
  }

  lemma ListsPushed(hosts: seq<KnownHost>, h: KnownHost)
    ensures Fingerprints(hosts + [h]) == Fingerprints(hosts) + [h.fingerprint]
    ensures Orders(hosts + [h]) == Orders(hosts) + [h.order]
    ensures Conversions(hosts + [h]) == Conversions(hosts) + [h.convertedToHostId]
  {
  }

  lemma ListsOne(h: KnownHost)
    ensures LastSome(Fingerprints([h])) == h.fingerprint && LastSome(Orders([h])) == h.order
    ensures FirstSome(Conversions([h])) == h.convertedToHostId
  {
    assert Conversions([h])[1..] == [];
  }

  /** One more hit. */
  lemma TellsRefreshed(r: KnownHost, first: KnownHost, hits: seq<KnownHost>, h: KnownHost)
    requires Tells(r, first, hits)
    ensures Tells(Refreshed(r, h), first, hits + [h])
  {
    var all := [first] + hits;
    assert [first] + (hits + [h]) == all + [h];
    ListsPushed(all, h);
    LastSomePushed(Fingerprints(all), h.fingerprint);
    LastSomePushed(Orders(all), h.order);
    FirstSomePushed(Conversions(all), h.convertedToHostId);
    if hits == [] {
      ListsOne(first);
      assert all == [first];
    }
    hide LastSome, FirstSome, Fingerprints, Orders, Conversions;
  }

  // ----- over a whole merge -----

  /** The incoming records that reach the record at `i`, in order. */
  ghost function MergeHits(norm: string -> string, hosts: seq<KnownHost>, incoming: seq<KnownHost>, i: nat): seq<KnownHost> {
    if incoming == [] then []
    else
      var n := |incoming| - 1;
      MergeHits(norm, hosts, incoming[..n], i)
      + if MatchByKey(norm, FoldByKey(norm, hosts, incoming[..n]), incoming[n]) == Some(i) then [incoming[n]] else []
  }

  ghost function UpsertHits(norm: string -> string, hosts: seq<KnownHost>, incoming: seq<KnownHost>, i: nat): seq<KnownHost> {
    if incoming == [] then []
    else
      var n := |incoming| - 1;
      UpsertHits(norm, hosts, incoming[..n], i)
      + if Match(norm, Fold(norm, hosts, incoming[..n]), incoming[n]) == Some(i) then [incoming[n]] else []
  }

  lemma {:induction false} FoldByKeyPushed(norm: string -> string, hosts: seq<KnownHost>, incoming: seq<KnownHost>, h: KnownHost)
    ensures FoldByKey(norm, hosts, incoming + [h]) == UpsertByKey(norm, FoldByKey(norm, hosts, incoming), h)
    decreases |incoming|
  {
    hide UpsertByKey;
    if incoming == [] {
      assert [] + [h] == [h] && [h][1..] == [];
    } else {
      assert (incoming + [h])[1..] == incoming[1..] + [h];
      FoldByKeyPushed(norm, UpsertByKey(norm, hosts, incoming[0]), incoming[1..], h);
    }
  }

  lemma {:induction false} FoldPushed(norm: string -> string, hosts: seq<KnownHost>, incoming: seq<KnownHost>, h: KnownHost)
    ensures Fold(norm, hosts, incoming + [h]) == Upsert(norm, Fold(norm, hosts, incoming), h)
    decreases |incoming|
  {
    hide Upsert;
    if incoming == [] {
      assert [] + [h] == [h] && [h][1..] == [];
    } else {
      assert (incoming + [h])[1..] == incoming[1..] + [h];
      FoldPushed(norm, Upsert(norm, hosts, incoming[0]), incoming[1..], h);
    }
  }

  /** After a merge, a record that was there tells itself and the records that reached it. */
  lemma {:induction false} MergeTells(norm: string -> string, hosts: seq<KnownHost>, incoming: seq<KnownHost>, i: nat)
    requires i < |hosts|
    ensures Tells(FoldByKey(norm, hosts, incoming)[i], hosts[i], MergeHits(norm, hosts, incoming, i))
    decreases |incoming|
  {
    hide Tells, MatchByKey, Refreshed;
    if incoming == [] {
      Untold(hosts[i]);
    } else {
      var n := |incoming| - 1;
      var before, h := FoldByKey(norm, hosts, incoming[..n]), incoming[n];
      MergeTells(norm, hosts, incoming[..n], i);
      assert incoming == incoming[..n] + [h];
      FoldByKeyPushed(norm, hosts, incoming[..n], h);
      hide FoldByKey;
      assert MergeHits(norm, hosts, incoming[..n], i) + [] == MergeHits(norm, hosts, incoming[..n], i);
      TellsRefreshed(before[i], hosts[i], MergeHits(norm, hosts, incoming[..n], i), h);
    }
  }

  lemma Untold(h: KnownHost)
    ensures Tells(h, h, [])
  {
  }

  /** So it does after a fold of upserts. */
  lemma {:induction false} FoldTells(norm: string -> string, hosts: seq<KnownHost>, incoming: seq<KnownHost>, i: nat)
    requires i < |hosts|
    ensures Tells(Fold(norm, hosts, incoming)[i], hosts[i], UpsertHits(norm, hosts, incoming, i))
    decreases |incoming|
  {
    hide Tells, Match, Refreshed;
    if incoming == [] {
      Untold(hosts[i]);
    } else {
      var n := |incoming| - 1;
      var before, h := Fold(norm, hosts, incoming[..n]), incoming[n];
      FoldTells(norm, hosts, incoming[..n], i);
      assert incoming == incoming[..n] + [h];
      FoldPushed(norm, hosts, incoming[..n], h);
      hide Fold;
      assert UpsertHits(norm, hosts, incoming[..n], i) + [] == UpsertHits(norm, hosts, incoming[..n], i);
      TellsRefreshed(before[i], hosts[i], UpsertHits(norm, hosts, incoming[..n], i), h);
    }
  }

  /** The incoming record that adds the record at `i` reached none. */
  lemma {:induction false} MergeAdded(norm: string -> string, hosts: seq<KnownHost>, incoming: seq<KnownHost>, i: nat)
    returns (k: nat)
    requires |hosts| <= i < |FoldByKey(norm, hosts, incoming)|
    ensures k < |incoming| && MatchByKey(norm, FoldByKey(norm, hosts, incoming[..k]), incoming[k]) == None
    ensures var before := FoldByKey(norm, hosts, incoming[..k + 1]); |before| == i + 1 && before[i] == incoming[k]
    decreases |incoming|
  {
    hide MatchByKey, Refreshed, FoldByKey;
    if incoming == [] {
      NothingFolded(norm, hosts);
    }
    var n := |incoming| - 1;
    assert incoming == incoming[..n] + [incoming[n]];
    FoldByKeyPushed(norm, hosts, incoming[..n], incoming[n]);
    if i < |FoldByKey(norm, hosts, incoming[..n])| {
      k := MergeAdded(norm, hosts, incoming[..n], i);
      assert incoming[..n][..k] == incoming[..k] && incoming[..n][..k + 1] == incoming[..k + 1];
    } else {
      k := n;
      assert incoming[..n + 1] == incoming;
    }
  }

  lemma NothingFolded(norm: string -> string, hosts: seq<KnownHost>)
    ensures FoldByKey(norm, hosts, []) == hosts
  {
  }

  /** A record beyond those that were there is the incoming one that reached none, and tells
      itself and the records that reached it afterwards. */
  lemma MergeAdds(norm: string -> string, hosts: seq<KnownHost>, incoming: seq<KnownHost>, i: nat) returns (k: nat)
    requires |hosts| <= i < |FoldByKey(norm, hosts, incoming)|
    ensures k < |incoming| && MatchByKey(norm, FoldByKey(norm, hosts, incoming[..k]), incoming[k]) == None
    ensures var before := FoldByKey(norm, hosts, incoming[..k + 1]);
      && |before| == i + 1
      && Tells(FoldByKey(norm, hosts, incoming)[i], incoming[k], MergeHits(norm, before, incoming[k + 1..], i))
  {
    hide Tells, MatchByKey, Refreshed, FoldByKey, MergeHits;
    k := MergeAdded(norm, hosts, incoming, i);
    assert incoming[..k + 1] + incoming[k + 1..] == incoming;
    FoldByKeyConcat(norm, hosts, incoming[..k + 1], incoming[k + 1..]);
    MergeTells(norm, FoldByKey(norm, hosts, incoming[..k + 1]), incoming[k + 1..], i);
  }

  lemma {:induction false} FoldByKeyConcat(norm: string -> string, hosts: seq<KnownHost>, a: seq<KnownHost>, b: seq<KnownHost>)
    ensures FoldByKey(norm, hosts, a + b) == FoldByKey(norm, FoldByKey(norm, hosts, a), b)
    decreases |a|
  {
    hide UpsertByKey;
    if a == [] {
      assert a + b == b;
    } else {
      assert (a + b)[0] == a[0] && (a + b)[1..] == a[1..] + b;
      FoldByKeyConcat(norm, UpsertByKey(norm, hosts, a[0]), a[1..], b);
    }
  }
}
