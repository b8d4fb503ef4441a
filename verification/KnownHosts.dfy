/** The known-hosts catalogue of src/knownHostsUi.ts: one-by-one upserts, and the
    indexed merge that must agree with them. `norm` stands for the trimming and
    locale lower-casing of host names. */
module KnownHosts {
  import opened Text

  const MAX_ENTRIES: nat := 10000

  datatype KnownHost = KnownHost(
    id: string, hostname: string, port: nat, keyType: string, publicKey: string, fingerprint: Option<string>,
    discoveredAt: int, lastSeen: Option<int>, convertedToHostId: Option<string>, order: Option<int>)

  /** What `sameKnownHostSelector` compares. */
  datatype Selector = Selector(hostname: string, port: nat, keyType: string)

  function SelectorOf(norm: string -> string, h: KnownHost): Selector {
    Selector(norm(h.hostname), h.port, h.keyType)
  }

  /** `knownHostSelectorKey` */
  function Key(s: Selector): string {
    s.hostname + ['\0'] + (Decimal(s.port) + ['\0'] + s.keyType)
  }

  ghost function Selectors(norm: string -> string, hosts: seq<KnownHost>): set<Selector> {
    set h | h in hosts :: SelectorOf(norm, h)
  }

  /** No two selectors in play render to one key. */
  ghost predicate Faithful(selectors: set<Selector>) {
    forall a, b :: a in selectors && b in selectors && Key(a) == Key(b) ==> a == b
  }

  lemma DecimalHasNoNul(n: nat)
    ensures '\0' !in Decimal(n)
  {
  }

  lemma KeyInjective(a: Selector, b: Selector)
    requires '\0' !in a.hostname && '\0' !in b.hostname && Key(a) == Key(b)
    ensures a == b
  {
    var left, right := Decimal(a.port) + ['\0'] + a.keyType, Decimal(b.port) + ['\0'] + b.keyType;
    SplitAtFirst(a.hostname, left, b.hostname, right, '\0');
    DecimalHasNoNul(a.port);
    DecimalHasNoNul(b.port);
    SplitAtFirst(Decimal(a.port), a.keyType, Decimal(b.port), b.keyType, '\0');
    DecimalInjective(a.port, b.port);
  }

  /** Host names without NUL are enough for the index to be exact. */
  lemma NulFreeIsFaithful(selectors: set<Selector>)
    requires forall s :: s in selectors ==> '\0' !in s.hostname
    ensures Faithful(selectors)
  {
    forall a, b | a in selectors && b in selectors && Key(a) == Key(b)
      ensures a == b
    {
      KeyInjective(a, b);
    }
  }

  /** With a NUL in a host name two different selectors share a key, so the merge
      would then overwrite a record that the upsert keeps apart. */
  lemma NulCollides(host: string, port: nat, keyType: string, other: nat)
    ensures var a := Selector(host, port, Decimal(other) + ['\0'] + keyType);
      var b := Selector(host + ['\0'] + Decimal(port), other, keyType);
      Key(a) == Key(b) && a != b
  {
    var d, o := Decimal(port), Decimal(other);
    assert host + ['\0'] + (d + ['\0'] + (o + ['\0'] + keyType)) == (host + ['\0'] + d) + ['\0'] + (o + ['\0'] + keyType);
    assert |host + ['\0'] + d| > |host|;
  }

  /** `{ ...existing, ...incoming, id, discoveredAt, convertedToHostId, lastSeen }`;
      a property the incoming record lacks keeps its old value. */
  function Refreshed(existing: KnownHost, incoming: KnownHost): KnownHost {
    KnownHost(
      existing.id, incoming.hostname, incoming.port, incoming.keyType, incoming.publicKey,
      if incoming.fingerprint.Some? then incoming.fingerprint else existing.fingerprint,
      existing.discoveredAt,
      if incoming.lastSeen.Some? then incoming.lastSeen else Some(incoming.discoveredAt),
      if existing.convertedToHostId.Some? then existing.convertedToHostId else incoming.convertedToHostId,
      if incoming.order.Some? then incoming.order else existing.order)
  }

  /** The least index of an id. */
  function FirstById(hosts: seq<KnownHost>, id: string): (r: Option<nat>)
    ensures r.Some? ==> r.value < |hosts| && hosts[r.value].id == id
    ensures r.Some? ==> forall i :: 0 <= i < r.value ==> hosts[i].id != id
    ensures r.None? ==> forall i :: 0 <= i < |hosts| ==> hosts[i].id != id
  {
    FirstByIdFrom(hosts, id, 0)
  }

  function FirstByIdFrom(hosts: seq<KnownHost>, id: string, from: nat): (r: Option<nat>)
    requires from <= |hosts|
    ensures r.Some? ==> from <= r.value < |hosts| && hosts[r.value].id == id
    ensures r.Some? ==> forall i :: from <= i < r.value ==> hosts[i].id != id
    ensures r.None? ==> forall i :: from <= i < |hosts| ==> hosts[i].id != id
    decreases |hosts| - from
  {
    if from == |hosts| then None
    else if hosts[from].id == id then Some(from)
    else FirstByIdFrom(hosts, id, from + 1)
  }

  /** The least index of a selector. */
  function FirstBySelector(norm: string -> string, hosts: seq<KnownHost>, s: Selector, from: nat): (r: Option<nat>)
    requires from <= |hosts|
    ensures r.Some? ==> from <= r.value < |hosts| && SelectorOf(norm, hosts[r.value]) == s
    ensures r.Some? ==> forall i :: from <= i < r.value ==> SelectorOf(norm, hosts[i]) != s
    ensures r.None? ==> forall i :: from <= i < |hosts| ==> SelectorOf(norm, hosts[i]) != s
    decreases |hosts| - from
  {
    if from == |hosts| then None
    else if SelectorOf(norm, hosts[from]) == s then Some(from)
    else FirstBySelector(norm, hosts, s, from + 1)
  }

  /** The record an incoming one refreshes: by exact id, else by selector. */
  function Match(norm: string -> string, hosts: seq<KnownHost>, incoming: KnownHost): (r: Option<nat>)
    ensures r.Some? ==> r.value < |hosts|
  {
    var byId := FirstById(hosts, incoming.id);
    if byId.Some? then byId else FirstBySelector(norm, hosts, SelectorOf(norm, incoming), 0)
  }

  /** `upsertKnownHost` */
  function Upsert(norm: string -> string, hosts: seq<KnownHost>, incoming: KnownHost): seq<KnownHost> {
    match Match(norm, hosts, incoming)
    case None => hosts + [incoming]
    case Some(i) => hosts[i := Refreshed(hosts[i], incoming)]
  }

  /** Upserting one record after the other. */
  function Fold(norm: string -> string, hosts: seq<KnownHost>, incoming: seq<KnownHost>): (r: seq<KnownHost>)
    ensures |r| >= |hosts|
    decreases |incoming|
  {
    if incoming == [] then hosts else Fold(norm, Upsert(norm, hosts, incoming[0]), incoming[1..])
  }

  // ----- the same by selector key -----

  /** `findIndex` of the key anywhere but at `skip`. */
  function NextWithKey(norm: string -> string, hosts: seq<KnownHost>, key: string, skip: nat, from: nat): (r: Option<nat>)
    requires from <= |hosts|
    ensures r.Some? ==> from <= r.value < |hosts| && r.value != skip && Key(SelectorOf(norm, hosts[r.value])) == key
    ensures r.Some? ==> forall j :: from <= j < r.value && j != skip ==> Key(SelectorOf(norm, hosts[j])) != key
    ensures r.None? ==> forall j :: from <= j < |hosts| && j != skip ==> Key(SelectorOf(norm, hosts[j])) != key
    decreases |hosts| - from
  {
    if from == |hosts| then None
    else if from != skip && Key(SelectorOf(norm, hosts[from])) == key then Some(from)
    else NextWithKey(norm, hosts, key, skip, from + 1)
  }

  /** The record the indexed merge refreshes: by exact id, else by selector key. */
  function MatchByKey(norm: string -> string, hosts: seq<KnownHost>, incoming: KnownHost): (r: Option<nat>)
    ensures r.Some? ==> r.value < |hosts|
  {
    var byId := FirstById(hosts, incoming.id);
    if byId.Some? then byId else NextWithKey(norm, hosts, Key(SelectorOf(norm, incoming)), |hosts|, 0)
  }

  function UpsertByKey(norm: string -> string, hosts: seq<KnownHost>, incoming: KnownHost): seq<KnownHost> {
    match MatchByKey(norm, hosts, incoming)
    case None => hosts + [incoming]
    case Some(i) => hosts[i := Refreshed(hosts[i], incoming)]
  }

  function FoldByKey(norm: string -> string, hosts: seq<KnownHost>, incoming: seq<KnownHost>): (r: seq<KnownHost>)
    ensures |r| >= |hosts|
    decreases |incoming|
  {
    if incoming == [] then hosts else FoldByKey(norm, UpsertByKey(norm, hosts, incoming[0]), incoming[1..])
  }

  // ----- the index maps -----

  ghost predicate IdIndex(m: map<string, nat>, hosts: seq<KnownHost>) {
    forall id :: (if id in m then Some(m[id]) else None) == FirstById(hosts, id)
  }

  /** `i` is where the least record with this key is. */
  ghost predicate LeastKey(norm: string -> string, hosts: seq<KnownHost>, key: string, i: nat) {
    && i < |hosts| && Key(SelectorOf(norm, hosts[i])) == key
    && forall j :: 0 <= j < i ==> Key(SelectorOf(norm, hosts[j])) != key
  }

  ghost predicate NoKey(norm: string -> string, hosts: seq<KnownHost>, key: string) {
    forall j :: 0 <= j < |hosts| ==> Key(SelectorOf(norm, hosts[j])) != key
  }

  ghost predicate KeyIndex(norm: string -> string, m: map<string, nat>, hosts: seq<KnownHost>) {
    forall key :: if key in m then LeastKey(norm, hosts, key, m[key]) else NoKey(norm, hosts, key)
  }

  lemma IdIndexUnique(hosts: seq<KnownHost>, id: string, r: Option<nat>)
    requires r.Some? ==> r.value < |hosts| && hosts[r.value].id == id && forall i :: 0 <= i < r.value ==> hosts[i].id != id
    requires r.None? ==> forall i :: 0 <= i < |hosts| ==> hosts[i].id != id
    ensures r == FirstById(hosts, id)
  {
    var f := FirstById(hosts, id);
    if r.Some? && f.Some? {
      assert !(f.value < r.value) && !(r.value < f.value);
    }
  }

  lemma IdIndexPush(m: map<string, nat>, hosts: seq<KnownHost>, h: KnownHost)
    requires IdIndex(m, hosts)
    ensures IdIndex(if h.id in m then m else m[h.id := |hosts|], hosts + [h])
  {
    var m' := if h.id in m then m else m[h.id := |hosts|];
    forall id
      ensures (if id in m' then Some(m'[id]) else None) == FirstById(hosts + [h], id)
    {
      assert (if id in m then Some(m[id]) else None) == FirstById(hosts, id);
      assert (if h.id in m then Some(m[h.id]) else None) == FirstById(hosts, h.id);
      IdIndexUnique(hosts + [h], id, if id in m' then Some(m'[id]) else None);
    }
  }

  lemma IdIndexReplace(m: map<string, nat>, hosts: seq<KnownHost>, i: nat, h: KnownHost)
    requires IdIndex(m, hosts) && i < |hosts| && h.id == hosts[i].id
    ensures IdIndex(m, hosts[i := h])
  {
    forall id
      ensures (if id in m then Some(m[id]) else None) == FirstById(hosts[i := h], id)
    {
      assert (if id in m then Some(m[id]) else None) == FirstById(hosts, id);
      IdIndexUnique(hosts[i := h], id, FirstById(hosts, id));
    }
  }

  lemma KeyIndexPush(norm: string -> string, m: map<string, nat>, hosts: seq<KnownHost>, h: KnownHost)
    requires KeyIndex(norm, m, hosts)
    ensures var key := Key(SelectorOf(norm, h));
      KeyIndex(norm, if key in m then m else m[key := |hosts|], hosts + [h])
  {
    var k := Key(SelectorOf(norm, h));
    var m' := if k in m then m else m[k := |hosts|];
    forall key
      ensures if key in m' then LeastKey(norm, hosts + [h], key, m'[key]) else NoKey(norm, hosts + [h], key)
    {
      assert if key in m then LeastKey(norm, hosts, key, m[key]) else NoKey(norm, hosts, key);
    }
  }

  /** The repaired index after the record at `i` changed to `h`. */
  function Repaired(norm: string -> string, m: map<string, nat>, hosts: seq<KnownHost>, i: nat, h: KnownHost): map<string, nat>
    requires i < |hosts|
  {
    var before, after := Key(SelectorOf(norm, hosts[i])), Key(SelectorOf(norm, h));
    var m1 :=
      if before != after && before in m && m[before] == i then
        match NextWithKey(norm, hosts[i := h], before, i, 0)
        case None => m - {before}
        case Some(next) => m[before := next]
      else m;
    if after !in m1 || i < m1[after] then m1[after := i] else m1
  }

  ghost predicate IndexedAt(norm: string -> string, m: map<string, nat>, hosts: seq<KnownHost>, key: string) {
    if key in m then LeastKey(norm, hosts, key, m[key]) else NoKey(norm, hosts, key)
  }

  lemma OtherKeysStay(norm: string -> string, m: map<string, nat>, hosts: seq<KnownHost>, i: nat, h: KnownHost, key: string)
    requires IndexedAt(norm, m, hosts, key) && i < |hosts|
    requires key != Key(SelectorOf(norm, h)) && (key != Key(SelectorOf(norm, hosts[i])) || (key in m && m[key] != i))
    ensures IndexedAt(norm, m, hosts[i := h], key)
  {
    hide Key;
  }

  /** An id match may rewrite a record's selector; the repair keeps the selector
      map holding the least index of every key. */
  lemma KeyIndexReplace(norm: string -> string, m: map<string, nat>, hosts: seq<KnownHost>, i: nat, h: KnownHost)
    requires KeyIndex(norm, m, hosts) && i < |hosts|
    ensures KeyIndex(norm, Repaired(norm, m, hosts, i, h), hosts[i := h])
  {
    hide Key;
    var before, after := Key(SelectorOf(norm, hosts[i])), Key(SelectorOf(norm, h));
    var m' := Repaired(norm, m, hosts, i, h);
    forall key
      ensures if key in m' then LeastKey(norm, hosts[i := h], key, m'[key]) else NoKey(norm, hosts[i := h], key)
    {
      assert IndexedAt(norm, m, hosts, key) && IndexedAt(norm, m, hosts, before);
      if key != after && (key != before || (key in m && m[key] != i)) {
        OtherKeysStay(norm, m, hosts, i, h, key);
      }
    }
  }

  /** On faithful keys the scan by key finds what the scan by selector finds. */
  lemma MatchesAgree(norm: string -> string, hosts: seq<KnownHost>, h: KnownHost)
    requires Faithful(Selectors(norm, hosts) + {SelectorOf(norm, h)})
    ensures MatchByKey(norm, hosts, h) == Match(norm, hosts, h)
  {
    var s := SelectorOf(norm, h);
    var f, g := FirstBySelector(norm, hosts, s, 0), NextWithKey(norm, hosts, Key(s), |hosts|, 0);
    forall i | 0 <= i < |hosts|
      ensures Key(SelectorOf(norm, hosts[i])) == Key(s) <==> SelectorOf(norm, hosts[i]) == s
    {
      SelectorIn(norm, hosts, i);
    }
    if f.Some? && g.Some? {
      assert !(f.value < g.value) && !(g.value < f.value);
    }
  }

  /** Two records whose selectors differ and whose keys collide: the merge
      overwrites the one that the upsert keeps apart. */
  lemma UnfaithfulKeysMislead(norm: string -> string, a: KnownHost, b: KnownHost)
    requires a.id != b.id
    requires Key(SelectorOf(norm, a)) == Key(SelectorOf(norm, b)) && SelectorOf(norm, a) != SelectorOf(norm, b)
    ensures FoldByKey(norm, [a], [b]) == [Refreshed(a, b)]
    ensures Fold(norm, [a], [b]) == [a, b]
  {
    assert [b][1..] == [];
    assert UpsertByKey(norm, [a], b) == [Refreshed(a, b)];
    assert Upsert(norm, [a], b) == [a, b];
    hide Match, MatchByKey, Refreshed, Key;
  }

  /** Over faithful selectors the merge is the fold of upserts. */
  lemma {:induction false} FoldsAgree(
    norm: string -> string, inPlay: set<Selector>, hosts: seq<KnownHost>, incoming: seq<KnownHost>)
    requires Faithful(inPlay) && Selectors(norm, hosts) + Selectors(norm, incoming) <= inPlay
    ensures FoldByKey(norm, hosts, incoming) == Fold(norm, hosts, incoming)
    decreases |incoming|
  {
    hide Faithful, Match, MatchByKey, Refreshed, Selectors;
    if incoming != [] {
      var h := incoming[0];
      SelectorIn(norm, incoming, 0);
      TailSelectors(norm, incoming);
      FaithfulSubset(Selectors(norm, hosts) + {SelectorOf(norm, h)}, inPlay);
      MatchesAgree(norm, hosts, h);
      UpsertSelectors(norm, hosts, h);
      FoldsAgree(norm, inPlay, Upsert(norm, hosts, h), incoming[1..]);
    }
  }

  lemma TailSelectors(norm: string -> string, hosts: seq<KnownHost>)
    requires hosts != []
    ensures Selectors(norm, hosts[1..]) <= Selectors(norm, hosts)
  {
  }

  ghost predicate AgreeOver(norm: string -> string, selectors: set<Selector>) {
    forall current, incoming :: Selectors(norm, current) + Selectors(norm, incoming) <= selectors ==>
      FoldByKey(norm, current, incoming) == Fold(norm, current, incoming)
  }

  /** The merge and the fold of upserts agree on all catalogues over the selectors of
      a catalogue if and only if no two of these selectors share a key. */
  lemma MergeExact(norm: string -> string, catalogue: seq<KnownHost>)
    ensures AgreeOver(norm, Selectors(norm, catalogue)) <==> Faithful(Selectors(norm, catalogue))
  {
    var inPlay := Selectors(norm, catalogue);
    if Faithful(inPlay) {
      forall current, incoming | Selectors(norm, current) + Selectors(norm, incoming) <= inPlay
        ensures FoldByKey(norm, current, incoming) == Fold(norm, current, incoming)
      {
        FoldsAgree(norm, inPlay, current, incoming);
      }
    } else {
      var s, t :| s in inPlay && t in inPlay && Key(s) == Key(t) && s != t;
      var x :| x in catalogue && SelectorOf(norm, x) == s;
      var y :| y in catalogue && SelectorOf(norm, y) == t;
      Disagreement(norm, inPlay, x, y);
    }
  }

  lemma Disagreement(norm: string -> string, inPlay: set<Selector>, x: KnownHost, y: KnownHost)
    requires SelectorOf(norm, x) in inPlay && SelectorOf(norm, y) in inPlay
    requires Key(SelectorOf(norm, x)) == Key(SelectorOf(norm, y)) && SelectorOf(norm, x) != SelectorOf(norm, y)
    ensures !AgreeOver(norm, inPlay)
  {
    var a, b := x.(id := "1"), y.(id := "2");
    assert SelectorOf(norm, a) == SelectorOf(norm, x) && SelectorOf(norm, b) == SelectorOf(norm, y);
    UnfaithfulKeysMislead(norm, a, b);
    hide FoldByKey, Fold, Key, Refreshed;
    assert Selectors(norm, [a]) + Selectors(norm, [b]) <= inPlay;
    assert |FoldByKey(norm, [a], [b])| != |Fold(norm, [a], [b])|;
  }

  lemma UpsertSelectors(norm: string -> string, hosts: seq<KnownHost>, h: KnownHost)
    ensures Selectors(norm, Upsert(norm, hosts, h)) <= Selectors(norm, hosts) + {SelectorOf(norm, h)}
  {
    var r := Upsert(norm, hosts, h);
    forall x | x in r
      ensures SelectorOf(norm, x) in Selectors(norm, hosts) + {SelectorOf(norm, h)}
    {
      var j :| 0 <= j < |r| && r[j] == x;
      if j < |hosts| && r[j] == hosts[j] {
        assert hosts[j] in hosts;
      }
    }
  }

  /** Both maps together find the record the merge refreshes, whatever the keys. */
  lemma IndexesMatch(
    norm: string -> string, ids: map<string, nat>, keys: map<string, nat>, hosts: seq<KnownHost>, h: KnownHost)
    requires IdIndex(ids, hosts) && KeyIndex(norm, keys, hosts)
    ensures var key := Key(SelectorOf(norm, h));
      MatchByKey(norm, hosts, h) ==
        if h.id in ids then Some(ids[h.id]) else if key in keys then Some(keys[key]) else None
  {
    var key := Key(SelectorOf(norm, h));
    var f := NextWithKey(norm, hosts, key, |hosts|, 0);
    assert (if h.id in ids then Some(ids[h.id]) else None) == FirstById(hosts, h.id);
    assert if key in keys then LeastKey(norm, hosts, key, keys[key]) else NoKey(norm, hosts, key);
    if key in keys && f.Some? {
      assert !(f.value < keys[key]) && !(keys[key] < f.value);
    }
  }

  /** The two maps before the merge loop. */
  method BuildIndexes(norm: string -> string, current: seq<KnownHost>)
    returns (firstIndexById: map<string, nat>, firstIndexBySelector: map<string, nat>)
    ensures IdIndex(firstIndexById, current) && KeyIndex(norm, firstIndexBySelector, current)
  {
    firstIndexById := map[];
    firstIndexBySelector := map[];
    for i := 0 to |current|
      invariant IdIndex(firstIndexById, current[..i])
      invariant KeyIndex(norm, firstIndexBySelector, current[..i])
    {
      var h := current[i];
      IdIndexPush(firstIndexById, current[..i], h);
      KeyIndexPush(norm, firstIndexBySelector, current[..i], h);
      hide IdIndex, KeyIndex;
      assert current[..i + 1] == current[..i] + [h];
      if h.id !in firstIndexById {
        firstIndexById := firstIndexById[h.id := i];
      }
      var selector := Key(SelectorOf(norm, h));
      if selector !in firstIndexBySelector {
        firstIndexBySelector := firstIndexBySelector[selector := i];
      }
    }
    assert current[..|current|] == current;
  }

  /** The repair of the selector map when the record at `index` is replaced. */
  method RepairIndex(norm: string -> string, m: map<string, nat>, hosts: seq<KnownHost>, index: nat, updated: KnownHost)
    returns (firstIndexBySelector: map<string, nat>)
    requires index < |hosts| && KeyIndex(norm, m, hosts)
    ensures KeyIndex(norm, firstIndexBySelector, hosts[index := updated])
  {
    KeyIndexReplace(norm, m, hosts, index, updated);
    hide KeyIndex, Key;
    firstIndexBySelector := m;
    var previousSelector := Key(SelectorOf(norm, hosts[index]));
    var updatedSelector := Key(SelectorOf(norm, updated));
    if previousSelector != updatedSelector && previousSelector in m && m[previousSelector] == index {
      firstIndexBySelector := m - {previousSelector};
      var next := NextWithKey(norm, hosts[index := updated], previousSelector, index, 0);
      if next.Some? {
        firstIndexBySelector := firstIndexBySelector[previousSelector := next.value];
        assert firstIndexBySelector == m[previousSelector := next.value];
      }
    }
    if updatedSelector !in firstIndexBySelector || index < firstIndexBySelector[updatedSelector] {
      firstIndexBySelector := firstIndexBySelector[updatedSelector := index];
    }
  }

  lemma FaithfulSubset(small: set<Selector>, large: set<Selector>)
    requires small <= large && Faithful(large)
    ensures Faithful(small)
  {
  }

  /** `mergeKnownHosts`; `None` stands for KNOWN_HOSTS_CATALOG_TOO_LARGE. Over any
      records it is the fold that goes by id and selector key, and throws exactly
      when that fold would be too large. */
  method Merge(norm: string -> string, current: seq<KnownHost>, incoming: seq<KnownHost>) returns (r: Option<seq<KnownHost>>)
    ensures r.None? <==> |FoldByKey(norm, current, incoming)| > MAX_ENTRIES
    ensures r.Some? ==> r.value == FoldByKey(norm, current, incoming)
  {
    hide IdIndex, KeyIndex, Key, MatchByKey, Refreshed;
    if |current| > MAX_ENTRIES {
      return None;
    }
    var merged := current;
    var firstIndexById: map<string, nat>, firstIndexBySelector: map<string, nat> := BuildIndexes(norm, current);
    for n := 0 to |incoming|
      invariant IdIndex(firstIndexById, merged)
      invariant KeyIndex(norm, firstIndexBySelector, merged)
      invariant |merged| <= MAX_ENTRIES
      invariant FoldByKey(norm, merged, incoming[n..]) == FoldByKey(norm, current, incoming)
    {
      var h := incoming[n];
      assert incoming[n..][0] == h && incoming[n..][1..] == incoming[n + 1..];
      IndexesMatch(norm, firstIndexById, firstIndexBySelector, merged, h);
      var selector := Key(SelectorOf(norm, h));
      if h.id !in firstIndexById && selector !in firstIndexBySelector {
        if |merged| >= MAX_ENTRIES {
          return None;
        }
        IdIndexPush(firstIndexById, merged, h);
        KeyIndexPush(norm, firstIndexBySelector, merged, h);
        firstIndexById := firstIndexById[h.id := |merged|];
        firstIndexBySelector := firstIndexBySelector[selector := |merged|];
        merged := merged + [h];
      } else {
        var index := if h.id in firstIndexById then firstIndexById[h.id] else firstIndexBySelector[selector];
        var updated := Refreshed(merged[index], h);
        RefreshedId(merged[index], h);
        IdIndexReplace(firstIndexById, merged, index, updated);
        firstIndexBySelector := RepairIndex(norm, firstIndexBySelector, merged, index, updated);
        merged := merged[index := updated];
      }
    }
    return Some(merged);
  }

  lemma SelectorIn(norm: string -> string, hosts: seq<KnownHost>, i: nat)
    requires i < |hosts|
    ensures SelectorOf(norm, hosts[i]) in Selectors(norm, hosts)
  {
  }

  lemma RefreshedId(existing: KnownHost, incoming: KnownHost)
    ensures Refreshed(existing, incoming).id == existing.id
  {
  }

  // ----- what upserts and merges keep -----

  /** An upsert never moves, renames or re-dates a record that was there, */
  lemma {:induction false} FoldKeepsRecords(norm: string -> string, hosts: seq<KnownHost>, incoming: seq<KnownHost>, i: nat)
    requires i < |hosts|
    ensures var r := Fold(norm, hosts, incoming);
      && r[i].id == hosts[i].id && r[i].discoveredAt == hosts[i].discoveredAt
      && (hosts[i].convertedToHostId.Some? ==> r[i].convertedToHostId == hosts[i].convertedToHostId)
    decreases |incoming|
  {
    if incoming != [] {
      FoldKeepsRecords(norm, Upsert(norm, hosts, incoming[0]), incoming[1..], i);
    }
  }

  /** and neither does a merge. */
  lemma {:induction false} MergeKeepsRecords(norm: string -> string, hosts: seq<KnownHost>, incoming: seq<KnownHost>, i: nat)
    requires i < |hosts|
    ensures var r := FoldByKey(norm, hosts, incoming);
      && r[i].id == hosts[i].id && r[i].discoveredAt == hosts[i].discoveredAt
      && (hosts[i].convertedToHostId.Some? ==> r[i].convertedToHostId == hosts[i].convertedToHostId)
    decreases |incoming|
  {
    if incoming != [] {
      MergeKeepsRecords(norm, UpsertByKey(norm, hosts, incoming[0]), incoming[1..], i);
    }
  }

  ghost predicate UniqueRecordIds(hosts: seq<KnownHost>) {
    forall i, j :: 0 <= i < j < |hosts| ==> hosts[i].id != hosts[j].id
  }

  /** Upserts and merges leave unique ids unique. */
  lemma {:induction false} FoldKeepsUniqueIds(norm: string -> string, hosts: seq<KnownHost>, incoming: seq<KnownHost>)
    requires UniqueRecordIds(hosts)
    ensures UniqueRecordIds(Fold(norm, hosts, incoming))
    decreases |incoming|
  {
    if incoming != [] {
      FoldKeepsUniqueIds(norm, Upsert(norm, hosts, incoming[0]), incoming[1..]);
    }
  }

  lemma {:induction false} MergeKeepsUniqueIds(norm: string -> string, hosts: seq<KnownHost>, incoming: seq<KnownHost>)
    requires UniqueRecordIds(hosts)
    ensures UniqueRecordIds(FoldByKey(norm, hosts, incoming))
    decreases |incoming|
  {
    if incoming != [] {
      MergeKeepsUniqueIds(norm, UpsertByKey(norm, hosts, incoming[0]), incoming[1..]);
    }
  }

  /** Importing known ids refreshes records and adds none, keys or no keys. */
  lemma {:induction false} SelfMergeAddsNothing(norm: string -> string, hosts: seq<KnownHost>, incoming: seq<KnownHost>)
    requires forall h :: h in incoming ==> exists i :: 0 <= i < |hosts| && hosts[i].id == h.id
    ensures FoldByKey(norm, hosts, incoming) == Fold(norm, hosts, incoming) && |Fold(norm, hosts, incoming)| == |hosts|
    decreases |incoming|
  {
    if incoming != [] {
      var r := UpsertByKey(norm, hosts, incoming[0]);
      assert r == Upsert(norm, hosts, incoming[0]) && |r| == |hosts| by {
        var i :| 0 <= i < |hosts| && hosts[i].id == incoming[0].id;
      }
      forall h | h in incoming[1..]
        ensures exists i :: 0 <= i < |r| && r[i].id == h.id
      {
        var i :| 0 <= i < |hosts| && hosts[i].id == h.id;
        assert r[i].id == h.id;
      }
      SelfMergeAddsNothing(norm, r, incoming[1..]);
    }
  }
}
