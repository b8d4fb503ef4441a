/** Inherited group defaults of src/groupConfigUi.ts: root-to-leaf resolution of
    inherit / clear / set overrides along a group path. */
module GroupConfig {
  import opened Text
  import opened GroupPaths

  /** An override as stored: a secret is a word, anything else an object with a
      `state` and a payload. */
  datatype Override<T> = Word(word: string) | Stated(state: string, payload: T)

  datatype Value<T> = StoredHint | Proxy(proxy: Override<T>) | Payload(payload: T) | Undefined

  type Defaults<T> = map<string, Override<T>>

  type Effective<T> = map<string, Value<T>>

  datatype Group<T> = Group(path: string, defaults: Defaults<T>)

  const MAX_PATH_BYTES: nat := 32 * 1024

  /** `normalizeGroupConfigPath` */
  function Normalize(value: string): Option<string> {
    var normalized := Project(value);
    if normalized != "" && Bytes(normalized) <= MAX_PATH_BYTES then Some(normalized) else None
  }

  // ----- one override -----

  datatype Effect<T> = Keep | Remove | Put(value: Value<T>)

  predicate IsSecret(key: string) {
    key == "password" || key == "telnetPassword"
  }

  /** What an override under `key` does; the kind is decided by the key. */
  function EffectOf<T>(key: string, o: Override<T>): Effect<T> {
    if IsSecret(key) then
      if o == Word("inherit") then Keep else if o == Word("clear") then Remove else Put(StoredHint)
    else if o.Stated? && o.state == "inherit" then Keep
    else if o.Stated? && o.state == "clear" then Remove
    else if key == "proxy" then Put(Proxy(o))
    else Put(if o.Stated? then Payload(o.payload) else Undefined)
  }

  function Changed<T>(m: Effective<T>, key: string, e: Effect<T>): Effective<T> {
    match e
    case Keep => m
    case Remove => m - {key}
    case Put(v) => m[key := v]
  }

  // ----- a chain of overrides -----

  /** `byPath.get(path)`: of several groups with one path the last counts. */
  function Lookup<T>(groups: seq<Group<T>>, path: string): Option<Defaults<T>> {
    if groups == [] then None
    else
      var n := |groups| - 1;
      if groups[n].path == path then Some(groups[n].defaults) else Lookup(groups[..n], path)
  }

  function Own<T>(groups: seq<Group<T>>, a: Segments, key: string): Effect<T> {
    var d := Lookup(groups, Join(a));
    if d.Some? && key in d.value then EffectOf(key, d.value[key]) else Keep
  }

  /** The leaf-most override of `key` on the prefix chain that does not inherit. */
  function Decisive<T>(groups: seq<Group<T>>, a: Segments, key: string): Effect<T> {
    if a == [] then Keep
    else
      var own := Own(groups, a, key);
      if own != Keep then own else Decisive(groups, a[..|a| - 1], key)
  }

  /** What the resolution leaves under `key`. */
  ghost predicate Holds<T>(m: Effective<T>, key: string, e: Effect<T>) {
    (key in m <==> e.Put?) && (e.Put? ==> m[key] == e.value)
  }

  ghost predicate Resolves<T>(m: Effective<T>, groups: seq<Group<T>>, a: Segments) {
    forall key :: Holds(m, key, Decisive(groups, a, key))
  }

  lemma ResolvesUnique<T>(m: Effective<T>, m': Effective<T>, groups: seq<Group<T>>, a: Segments)
    requires Resolves(m, groups, a) && Resolves(m', groups, a)
    ensures m == m'
  {
    hide Decisive;
    forall key ensures key in m <==> key in m' {
      assert Holds(m, key, Decisive(groups, a, key)) && Holds(m', key, Decisive(groups, a, key));
    }
    forall key | key in m ensures m[key] == m'[key] {
      assert Holds(m, key, Decisive(groups, a, key)) && Holds(m', key, Decisive(groups, a, key));
    }
  }

  /** An override decides exactly when it does not inherit and every longer prefix
      of the path does. */
  lemma {:induction false} LeafMostDecides<T>(groups: seq<Group<T>>, a: Segments, key: string, i: nat)
    requires 1 <= i <= |a| && Own(groups, a[..i], key) != Keep
    requires forall j :: i < j <= |a| ==> Own(groups, a[..j], key) == Keep
    ensures Decisive(groups, a, key) == Own(groups, a[..i], key)
  {
    hide Own;
    assert a[..|a|] == a;
    if i < |a| {
      var up := a[..|a| - 1];
      assert forall j :: 0 <= j <= |up| ==> up[..j] == a[..j];
      LeafMostDecides(groups, up, key, i);
    }
  }

  lemma {:induction false} InheritedThroughout<T>(groups: seq<Group<T>>, a: Segments, key: string)
    ensures Decisive(groups, a, key) == Keep <==> forall j :: 1 <= j <= |a| ==> Own(groups, a[..j], key) == Keep
  {
    hide Own;
    if a != [] {
      var up := a[..|a| - 1];
      InheritedThroughout(groups, up, key);
      assert a[..|a|] == a;
      assert forall j :: 0 <= j <= |up| ==> up[..j] == a[..j];
    }
  }

  /** A path resolves to its parent's result changed by its own overrides. */
  lemma ParentThenOwn<T>(groups: seq<Group<T>>, a: Segments, parent: Effective<T>, own: Effective<T>, key: string)
    requires a != [] && Resolves(parent, groups, a[..|a| - 1]) && Resolves(own, groups, a)
    ensures Own(groups, a, key) == Keep ==>
      (key in own <==> key in parent) && (key in own ==> own[key] == parent[key])
    ensures Own(groups, a, key) == Remove ==> key !in own
    ensures Own(groups, a, key).Put? ==> key in own && own[key] == Own(groups, a, key).value
  {
    assert Holds(parent, key, Decisive(groups, a[..|a| - 1], key)) && Holds(own, key, Decisive(groups, a, key));
  }

  // ----- the resolution -----

  function Prefixes(segments: Segments): (r: seq<string>)
    ensures |r| == |segments|
    ensures forall i :: 0 <= i < |r| ==> r[i] == Join(segments[..i + 1])
  {
    seq(|segments|, i requires 0 <= i < |segments| => Join(segments[..i + 1]))
  }

  /** `pathAncestors` */
  function Ancestors(value: string): seq<string> {
    Prefixes(SegmentsOf(value))
  }

  function Reached(a: Segments, left: set<string>, key: string): Segments
    requires a != []
  {
    if key in left then a[..|a| - 1] else a
  }

  /** Keys not in `left` already carry the own overrides of `a`. */
  ghost predicate PartlyResolves<T>(m: Effective<T>, groups: seq<Group<T>>, a: Segments, left: set<string>) {
    a != [] && forall key :: Holds(m, key, Decisive(groups, Reached(a, left, key), key))
  }

  lemma OneMore<T>(m: Effective<T>, groups: seq<Group<T>>, a: Segments, left: set<string>, key: string)
    requires PartlyResolves(m, groups, a, left) && key in left
    ensures PartlyResolves(Changed(m, key, Own(groups, a, key)), groups, a, left - {key})
  {
    hide Own, Decisive, Changed;
    forall k ensures Holds(Changed(m, key, Own(groups, a, key)), k, Decisive(groups, Reached(a, left - {key}, k), k)) {
      assert Holds(m, k, Decisive(groups, Reached(a, left, k), k));
      if k == key {
        OwnDecides(m, groups, a, key);
      } else {
        OthersStay(m, key, Own(groups, a, key), k, Decisive(groups, Reached(a, left, k), k));
      }
    }
  }

  lemma OthersStay<T>(m: Effective<T>, key: string, own: Effect<T>, k: string, e: Effect<T>)
    requires k != key && Holds(m, k, e)
    ensures Holds(Changed(m, key, own), k, e)
  {
  }

  lemma OwnDecides<T>(m: Effective<T>, groups: seq<Group<T>>, a: Segments, key: string)
    requires a != [] && Holds(m, key, Decisive(groups, a[..|a| - 1], key))
    ensures Holds(Changed(m, key, Own(groups, a, key)), key, Decisive(groups, a, key))
  {
  }

  lemma Unmentioned<T>(m: Effective<T>, groups: seq<Group<T>>, a: Segments, keys: set<string>)
    requires a != [] && Resolves(m, groups, a[..|a| - 1])
    requires forall key :: key !in keys ==> Own(groups, a, key) == Keep
    ensures PartlyResolves(m, groups, a, keys)
  {
    forall key ensures Holds(m, key, Decisive(groups, Reached(a, keys, key), key)) {
      assert Holds(m, key, Decisive(groups, a[..|a| - 1], key));
    }
  }

  lemma Complete<T>(m: Effective<T>, groups: seq<Group<T>>, a: Segments)
    requires PartlyResolves(m, groups, a, {})
    ensures Resolves(m, groups, a)
  {
    forall key ensures Holds(m, key, Decisive(groups, a, key)) {
      assert Holds(m, key, Decisive(groups, Reached(a, {}, key), key));
    }
  }

  /** `resolveEffectiveGroupDefaults`; each level may list its keys in any order. */
  method ResolveEffectiveGroupDefaults<T(==)>(path: string, groups: seq<Group<T>>) returns (effective: Effective<T>)
    ensures Resolves(effective, groups, SegmentsOf(path))
  {
    effective := map[];
    assert Resolves(effective, groups, []);
    hide Decisive, EffectOf, Join, SegmentsOf;
    var ancestors := Ancestors(path);
    ghost var a := SegmentsOf(path);
    for i := 0 to |ancestors|
      invariant Resolves(effective, groups, a[..i])
    {
      ghost var b := a[..i + 1];
      assert b[..i] == a[..i] && ancestors[i] == Join(b);
      var defaults := Lookup(groups, ancestors[i]);
      if defaults.None? {
        Unmentioned(effective, groups, b, {});
        Complete(effective, groups, b);
      } else {
        var left := defaults.value.Keys;
        Unmentioned(effective, groups, b, left);
        while left != {}
          invariant left <= defaults.value.Keys
          invariant PartlyResolves(effective, groups, b, left)
          decreases left
        {
          var key :| key in left;
          OneMore(effective, groups, b, left, key);
          effective := Changed(effective, key, EffectOf(key, defaults.value[key]));
          left := left - {key};
        }
        Complete(effective, groups, b);
      }
    }
    assert a[..|ancestors|] == a;
  }

  // ----- normalisation -----

  /** Normalising a path never changes what it resolves to. */
  lemma NormalizeKeepsResolution<T>(path: string, groups: seq<Group<T>>, m: Effective<T>)
    requires Normalize(path).Some?
    ensures Resolves(m, groups, SegmentsOf(Normalize(path).value)) <==> Resolves(m, groups, SegmentsOf(path))
    ensures Normalize(Normalize(path).value) == Normalize(path)
  {
    SegmentsOfJoin(SegmentsOf(path));
  }

  lemma NormalizeRefuses(path: string)
    ensures Normalize(path) == None <==> SegmentsOf(path) == [] || Bytes(Project(path)) > MAX_PATH_BYTES
  {
    if SegmentsOf(path) != [] {
      SegmentsOfJoin(SegmentsOf(path));
      SegmentsOfJoin([]);
    }
  }

  lemma {:induction false} LookupSkips<T>(before: seq<Group<T>>, g: Group<T>, after: seq<Group<T>>, path: string)
    requires g.path != path
    ensures Lookup(before + [g] + after, path) == Lookup(before + after, path)
  {
    if after == [] {
      assert before + [g] + after == before + [g];
      assert before + after == before;
      assert (before + [g])[..|before|] == before;
    } else {
      var n := |after| - 1;
      LookupSkips(before, g, after[..n], path);
      assert (before + [g] + after)[..|before| + 1 + n] == before + [g] + after[..n];
      assert (before + after)[..|before| + n] == before + after[..n];
    }
  }

  /** A group stored under a path that is not a prefix of the resolved one, or is
      not normalised, has no effect. */
  lemma {:induction false} OtherGroupsIgnored<T>(before: seq<Group<T>>, g: Group<T>, after: seq<Group<T>>, a: Segments, key: string)
    requires IsPath(a)
    requires Project(g.path) != g.path || !(SegmentsOf(g.path) <= a)
    ensures Decisive(before + [g] + after, a, key) == Decisive(before + after, a, key)
  {
    if a != [] {
      if g.path == Join(a) {
        SegmentsOfJoin(a);
        assert false;
      }
      LookupSkips(before, g, after, Join(a));
      var up := a[..|a| - 1];
      if SegmentsOf(g.path) <= up {
        assert SegmentsOf(g.path) <= a;
      }
      OtherGroupsIgnored(before, g, after, up, key);
    }
  }

  // ----- what an override says -----

  /** A secret says `inherit` or `clear` as a word and is otherwise a stored secret; the
      proxy and every other default say it in their state, and a proxy is taken whole,
      another default by its payload. */
  lemma EffectExactly<T>(key: string, o: Override<T>)
    ensures key in ["password", "telnetPassword"] ==>
      EffectOf(key, o) ==
        if o.Word? && o.word == "inherit" then Keep else if o.Word? && o.word == "clear" then Remove else Put(StoredHint)
    ensures key !in ["password", "telnetPassword"] && o.Stated? && o.state == "inherit" ==> EffectOf(key, o) == Keep
    ensures key !in ["password", "telnetPassword"] && o.Stated? && o.state == "clear" ==> EffectOf(key, o) == Remove
    ensures key !in ["password", "telnetPassword"] && !(o.Stated? && o.state in ["inherit", "clear"]) ==>
      EffectOf(key, o) == Put(if key == "proxy" then Proxy(o) else if o.Stated? then Payload(o.payload) else Undefined)
  {
  }

  ghost predicate LastUnder<T>(groups: seq<Group<T>>, k: nat, path: string) {
    k < |groups| && groups[k].path == path && forall l :: k < l < |groups| ==> groups[l].path != path
  }

  /** Of several groups stored under a path the last one counts. */
  lemma {:induction false} LookupExactly<T>(groups: seq<Group<T>>, path: string)
    ensures match Lookup(groups, path)
      case None => forall k :: 0 <= k < |groups| ==> groups[k].path != path
      case Some(d) => exists k: nat :: LastUnder(groups, k, path) && groups[k].defaults == d
  {
    if groups != [] {
      var n := |groups| - 1;
      LookupExactly(groups[..n], path);
      assert forall k :: 0 <= k < n ==> groups[..n][k] == groups[k];
      if groups[n].path != path && Lookup(groups[..n], path).Some? {
        var k: nat :| LastUnder(groups[..n], k, path) && groups[..n][k].defaults == Lookup(groups, path).value;
        assert LastUnder(groups, k, path);
      } else if groups[n].path == path {
        assert LastUnder(groups, n, path);
      }
    }
  }
}
