/** The mutable trie inside `buildGroupTree` (src/groupTree.ts): nodes that refer to
    their children, walked and extended in place, against the trie on values. */
module GroupTrie {
  import opened Text
  import opened GroupPaths
  import opened GroupTree

  /** A node; `children` lists, in insertion order, the nodes its map refers to,
      each under its own name. Node 0 stands for the map of the roots. */
  datatype Cell = Cell(name: string, path: string, explicit: bool, hosts: seq<Host>, children: seq<nat>)

  function Get(cells: seq<Cell>, children: seq<nat>, name: string): (r: Option<nat>)
    ensures r.Some? ==> r.value in children && r.value < |cells| && cells[r.value].name == name
    decreases |children|
  {
    if children == [] then None
    else
      var n := |children| - 1;
      var r := Get(cells, children[..n], name);
      if r.Some? then r
      else if children[n] < |cells| && cells[children[n]].name == name then Some(children[n]) else None
  }

  /** The node a path leads to. */
  function Walk(cells: seq<Cell>, b: Segments): (r: Option<nat>)
    requires cells != []
    ensures r.Some? ==> r.value < |cells|
    decreases |b|
  {
    if b == [] then Some(0)
    else
      match Walk(cells, b[..|b| - 1])
      case None => None
      case Some(i) => Get(cells, cells[i].children, b[|b| - 1])
  }

  function Held(cells: seq<Cell>, b: Segments): Option<Info>
    requires cells != []
  {
    if b == [] then None
    else
      match Walk(cells, b)
      case None => None
      case Some(i) => Some(Info(cells[i].explicit, cells[i].hosts))
  }

  /** Children come later than their node and differ from each other. */
  ghost predicate Linked(cells: seq<Cell>) {
    forall i, c :: 0 <= i < |cells| && c in cells[i].children ==> i < c < |cells|
  }

  ghost predicate Reaches(cells: seq<Cell>, at: seq<Segments>) {
    |at| == |cells| > 0 && at[0] == [] && forall i :: 0 <= i < |cells| ==> Walk(cells, at[i]) == Some(i)
  }

  ghost predicate Spelled(cells: seq<Cell>, at: seq<Segments>) {
    && |at| == |cells| && Linked(cells)
    && forall i, c :: 0 <= i < |cells| && c in cells[i].children ==> at[c] == at[i] + [cells[c].name]
  }

  ghost predicate Named(cells: seq<Cell>, at: seq<Segments>) {
    |at| == |cells| && forall i :: 0 <= i < |cells| ==> NamedCell(cells[i], at[i])
  }

  ghost predicate NamedCell(n: Cell, a: Segments) {
    IsPath(a) && n.path == Join(a) && (a != [] ==> IsSegment(n.name))
  }

  ghost predicate Separate(cells: seq<Cell>) {
    forall i, k, l :: 0 <= i < |cells| && 0 <= k < l < |cells[i].children| ==> cells[i].children[k] != cells[i].children[l]
  }

  /** A tree: `at[i]` is the one path to node `i`. */
  ghost predicate Rooted(cells: seq<Cell>, at: seq<Segments>) {
    Reaches(cells, at) && Spelled(cells, at) && Named(cells, at) && Separate(cells)
  }

  lemma WalkRooted(cells: seq<Cell>, at: seq<Segments>, i: nat)
    requires Rooted(cells, at) && i < |cells|
    ensures |at| == |cells| && at[0] == [] && Walk(cells, at[i]) == Some(i)
  {
    hide Walk, Spelled, Named, Separate;
  }

  lemma ChildSpelled(cells: seq<Cell>, at: seq<Segments>, i: nat, name: string)
    requires Rooted(cells, at) && i < |cells| && Get(cells, cells[i].children, name).Some?
    ensures |at| == |cells| && at[Get(cells, cells[i].children, name).value] == at[i] + [name]
  {
    hide Walk, Named, Separate;
    GetNamed(cells, cells[i].children, name);
    hide Get;
  }

  lemma {:induction false} GetNamed(cells: seq<Cell>, children: seq<nat>, name: string)
    requires Get(cells, children, name).Some?
    ensures var c := Get(cells, children, name).value; c < |cells| && c in children && cells[c].name == name
    decreases |children|
  {
    if children != [] {
      var n := |children| - 1;
      if Get(cells, children[..n], name).Some? {
        GetNamed(cells, children[..n], name);
      }
    }
  }

  lemma {:induction false} WalkIs(cells: seq<Cell>, at: seq<Segments>, b: Segments)
    requires Rooted(cells, at) && Walk(cells, b).Some?
    ensures |at| == |cells| && at[Walk(cells, b).value] == b
    decreases |b|
  {
    hide Get, Rooted;
    WalkRooted(cells, at, 0);
    if b != [] {
      var up, name := b[..|b| - 1], b[|b| - 1];
      assert b == up + [name];
      WalkIs(cells, at, up);
      ChildSpelled(cells, at, Walk(cells, up).value, name);
    }
  }

  // ----- one more node -----

  function Pushed(cells: seq<Cell>, cur: nat, n: Cell): (r: seq<Cell>)
    requires cur < |cells|
    ensures |r| == |cells| + 1
  {
    cells[cur := cells[cur].(children := cells[cur].children + [|cells|])] + [n]
  }

  lemma {:induction false} GetPushed(cells: seq<Cell>, cur: nat, n: Cell, children: seq<nat>, name: string)
    requires cur < |cells| && forall c :: c in children ==> c < |cells|
    ensures Get(Pushed(cells, cur, n), children, name) == Get(cells, children, name)
    decreases |children|
  {
    if children != [] {
      var k := |children| - 1;
      assert forall c :: c in children[..k] ==> c in children;
      assert children[k] in children;
      GetPushed(cells, cur, n, children[..k], name);
    }
  }

  lemma GetLast(cells: seq<Cell>, children: seq<nat>, c: nat, name: string)
    requires c < |cells|
    ensures Get(cells, children + [c], name)
      == if Get(cells, children, name).Some? then Get(cells, children, name)
         else if cells[c].name == name then Some(c) else None
  {
    assert (children + [c])[..|children|] == children;
  }

  lemma GetInPushed(cells: seq<Cell>, cur: nat, n: Cell, i: nat, name: string)
    requires Linked(cells) && cur < |cells| && i < |cells| && Get(cells, cells[cur].children, n.name) == None
    ensures var cells' := Pushed(cells, cur, n);
      Get(cells', cells'[i].children, name)
      == if i == cur && name == n.name then Some(|cells|) else Get(cells, cells[i].children, name)
  {
    var cells' := Pushed(cells, cur, n);
    GetPushed(cells, cur, n, cells[i].children, name);
    if i == cur {
      GetLast(cells', cells[i].children, |cells|, name);
    }
  }

  lemma {:induction false} WalkPushed(cells: seq<Cell>, at: seq<Segments>, cur: nat, n: Cell, b: Segments)
    requires Rooted(cells, at) && cur < |cells| && n.children == [] && Get(cells, cells[cur].children, n.name) == None
    ensures Walk(Pushed(cells, cur, n), b) == if b == at[cur] + [n.name] then Some(|cells|) else Walk(cells, b)
    decreases |b|
  {
    if b != [] {
      var up, name := b[..|b| - 1], b[|b| - 1];
      assert b == up + [name];
      WalkPushed(cells, at, cur, n, up);
      assert at[cur] == up <==> Walk(cells, up) == Some(cur) by {
        if Walk(cells, up).Some? {
          WalkIs(cells, at, up);
        }
      }
      if up == at[cur] + [n.name] {
        assert up[..|up| - 1] == at[cur];
      } else if Walk(cells, up).Some? {
        GetInPushed(cells, cur, n, Walk(cells, up).value, name);
      }
    }
  }

  function NewCell(name: string, path: string): Cell {
    Cell(name, path, false, [], [])
  }

  lemma WalkOn(cells: seq<Cell>, at: seq<Segments>, cur: nat, name: string)
    requires Rooted(cells, at) && cur < |cells|
    ensures Walk(cells, at[cur] + [name]) == Get(cells, cells[cur].children, name)
  {
    hide Get;
    assert (at[cur] + [name])[..|at[cur]|] == at[cur];
  }

  lemma PushedReaches(cells: seq<Cell>, at: seq<Segments>, cur: nat, n: Cell)
    requires Rooted(cells, at) && cur < |cells| && n.children == [] && Get(cells, cells[cur].children, n.name) == None
    ensures Reaches(Pushed(cells, cur, n), at + [at[cur] + [n.name]])
  {
    hide Walk, Get, Rooted, Pushed;
    WalkRooted(cells, at, 0);
    var cells', at' := Pushed(cells, cur, n), at + [at[cur] + [n.name]];
    forall i | 0 <= i < |cells'|
      ensures Walk(cells', at'[i]) == Some(i)
    {
      NodeReached(cells, at, cur, n, i);
    }
  }

  lemma NodeReached(cells: seq<Cell>, at: seq<Segments>, cur: nat, n: Cell, i: nat)
    requires Rooted(cells, at) && cur < |cells| && n.children == [] && Get(cells, cells[cur].children, n.name) == None
    requires i <= |cells|
    ensures |at| == |cells| && Walk(Pushed(cells, cur, n), (at + [at[cur] + [n.name]])[i]) == Some(i)
  {
    hide Walk, Get, Rooted, Pushed;
    WalkRooted(cells, at, 0);
    WalkOn(cells, at, cur, n.name);
    var b := (at + [at[cur] + [n.name]])[i];
    WalkPushed(cells, at, cur, n, b);
    if i < |cells| {
      WalkRooted(cells, at, i);
    }
  }

  lemma PushedLinks(cells: seq<Cell>, at: seq<Segments>, cur: nat, n: Cell)
    requires Rooted(cells, at) && cur < |cells| && n.children == []
    ensures Spelled(Pushed(cells, cur, n), at + [at[cur] + [n.name]]) && Separate(Pushed(cells, cur, n))
  {
    hide Walk, Named;
    var cells', at' := Pushed(cells, cur, n), at + [at[cur] + [n.name]];
    forall i, c | 0 <= i < |cells'| && c in cells'[i].children
      ensures i < c < |cells'| && at'[c] == at'[i] + [cells'[c].name]
    {
      assert i < |cells|;
      assert c in cells[i].children || (i == cur && c == |cells|);
    }
    forall i, k, l | 0 <= i < |cells'| && 0 <= k < l < |cells'[i].children|
      ensures cells'[i].children[k] != cells'[i].children[l]
    {
      assert cells'[i].children[k] in cells[i].children;
    }
  }

  lemma PushedRooted(cells: seq<Cell>, at: seq<Segments>, cur: nat, name: string)
    requires Rooted(cells, at) && cur < |cells| && IsSegment(name) && Get(cells, cells[cur].children, name) == None
    ensures Rooted(Pushed(cells, cur, NewCell(name, Under(cells[cur].path, name))), at + [at[cur] + [name]])
  {
    var n := NewCell(name, Under(cells[cur].path, name));
    PushedReaches(cells, at, cur, n);
    PushedLinks(cells, at, cur, n);
    assert NamedCell(cells[cur], at[cur]);
    UnderIsJoin(at[cur], name);
    var cells', at' := Pushed(cells, cur, n), at + [at[cur] + [name]];
    forall i | 0 <= i < |cells'| ensures NamedCell(cells'[i], at'[i]) {
      if i < |cells| {
        assert NamedCell(cells[i], at[i]);
      }
    }
    hide Reaches, Spelled, Separate, NamedCell;
  }

  lemma HeldPushed(cells: seq<Cell>, at: seq<Segments>, cur: nat, n: Cell, b: Segments)
    requires Rooted(cells, at) && cur < |cells| && Get(cells, cells[cur].children, n.name) == None
    requires n.children == [] && !n.explicit && n.hosts == []
    ensures Held(Pushed(cells, cur, n), b) == if b == at[cur] + [n.name] then Some(Info(false, [])) else Held(cells, b)
  {
    WalkPushed(cells, at, cur, n, b);
    hide Walk, Rooted;
  }

  // ----- marking the end -----

  function MarkedCell(cells: seq<Cell>, cur: nat, explicit: bool, hosts: seq<Host>): (r: seq<Cell>)
    requires cur < |cells|
    ensures |r| == |cells|
  {
    var n := cells[cur];
    cells[cur := n.(explicit := n.explicit || explicit, hosts := n.hosts + hosts)]
  }

  lemma {:induction false} GetMarked(cells: seq<Cell>, cur: nat, explicit: bool, hosts: seq<Host>, children: seq<nat>, name: string)
    requires cur < |cells|
    ensures Get(MarkedCell(cells, cur, explicit, hosts), children, name) == Get(cells, children, name)
    decreases |children|
  {
    if children != [] {
      GetMarked(cells, cur, explicit, hosts, children[..|children| - 1], name);
    }
  }

  lemma {:induction false} WalkMarked(cells: seq<Cell>, cur: nat, explicit: bool, hosts: seq<Host>, b: Segments)
    requires cur < |cells|
    ensures Walk(MarkedCell(cells, cur, explicit, hosts), b) == Walk(cells, b)
    decreases |b|
  {
    if b != [] {
      WalkMarked(cells, cur, explicit, hosts, b[..|b| - 1]);
      var i := Walk(cells, b[..|b| - 1]);
      if i.Some? {
        GetMarked(cells, cur, explicit, hosts, cells[i.value].children, b[|b| - 1]);
      }
    }
  }

  lemma MarkedRooted(cells: seq<Cell>, at: seq<Segments>, cur: nat, explicit: bool, hosts: seq<Host>)
    requires Rooted(cells, at) && cur < |cells|
    ensures Rooted(MarkedCell(cells, cur, explicit, hosts), at)
  {
    var cells' := MarkedCell(cells, cur, explicit, hosts);
    forall i | 0 <= i < |cells| ensures Walk(cells', at[i]) == Some(i) {
      WalkMarked(cells, cur, explicit, hosts, at[i]);
    }
    hide Walk;
    assert forall i :: 0 <= i < |cells| ==> cells'[i].children == cells[i].children && cells'[i].name == cells[i].name;
    forall i | 0 <= i < |cells| ensures NamedCell(cells'[i], at[i]) {
      assert NamedCell(cells[i], at[i]);
    }
  }

  lemma HeldMarked(cells: seq<Cell>, at: seq<Segments>, cur: nat, explicit: bool, hosts: seq<Host>, b: Segments)
    requires Rooted(cells, at) && 0 < cur < |cells|
    ensures Held(MarkedCell(cells, cur, explicit, hosts), b)
      == if b == at[cur] then Some(Info(cells[cur].explicit || explicit, cells[cur].hosts + hosts)) else Held(cells, b)
  {
    WalkMarked(cells, cur, explicit, hosts, b);
    if b == at[cur] {
      assert Walk(cells, at[cur]) == Some(cur);
    } else if Walk(cells, b).Some? {
      WalkIs(cells, at, b);
    }
    hide Walk;
  }

  // ----- insertion -----

  /** The entry of `b` once the nodes along `a` exist. */
  function Created(before: Option<Info>, a: Segments, b: Segments): Option<Info> {
    if b != [] && b <= a && before == None then Some(Info(false, [])) else before
  }

  ghost predicate CreatedAlong(cells: seq<Cell>, before: seq<Cell>, a: Segments)
    requires cells != [] && before != []
  {
    forall b :: Held(cells, b) == Created(Held(before, b), a, b)
  }

  lemma PrefixPushed(a: Segments, name: string, b: Segments)
    ensures b <= a + [name] <==> b <= a || b == a + [name]
  {
    if b <= a + [name] && |b| <= |a| {
      assert b == (a + [name])[..|b|] == a[..|b|];
    }
  }

  lemma StepFound(cells: seq<Cell>, before: seq<Cell>, a: Segments, name: string)
    requires cells != [] && before != [] && CreatedAlong(cells, before, a) && Walk(cells, a + [name]).Some?
    ensures CreatedAlong(cells, before, a + [name])
  {
    hide Walk;
    assert Held(cells, a + [name]).Some?;
    forall b ensures Held(cells, b) == Created(Held(before, b), a + [name], b) {
      PrefixPushed(a, name, b);
      assert Held(cells, b) == Created(Held(before, b), a, b);
    }
    hide Held;
  }

  lemma StepPushed(cells: seq<Cell>, cells': seq<Cell>, before: seq<Cell>, a: Segments, name: string)
    requires cells != [] && cells' != [] && before != [] && CreatedAlong(cells, before, a)
    requires Held(cells, a + [name]) == None
    requires forall b :: Held(cells', b) == if b == a + [name] then Some(Info(false, [])) else Held(cells, b)
    ensures CreatedAlong(cells', before, a + [name])
  {
    hide Held;
    forall b ensures Held(cells', b) == Created(Held(before, b), a + [name], b) {
      PrefixPushed(a, name, b);
      assert Held(cells, b) == Created(Held(before, b), a, b);
    }
  }

  lemma EndMarked(before: Option<Info>, created: Option<Info>, a: Segments, b: Segments, explicit: bool, hosts: seq<Host>)
    requires a != [] && created == Created(before, a, b)
    ensures b == a ==> created.Some?
    ensures var n := if created.Some? then created.value else Info(false, []);
      b == a ==> InfoAfter(before, a, b, explicit, hosts) == Some(Info(n.explicit || explicit, n.hosts + hosts))
    ensures b != a ==> InfoAfter(before, a, b, explicit, hosts) == created
  {
  }

  lemma PushedAlong(cells: seq<Cell>, at: seq<Segments>, cur: nat, before: seq<Cell>, name: string)
    requires Rooted(cells, at) && cur < |cells| && IsSegment(name) && Get(cells, cells[cur].children, name) == None
    requires before != [] && CreatedAlong(cells, before, at[cur])
    ensures CreatedAlong(Pushed(cells, cur, NewCell(name, Under(cells[cur].path, name))), before, at[cur] + [name])
  {
    var n := NewCell(name, Under(cells[cur].path, name));
    WalkOn(cells, at, cur, name);
    hide Walk, Get, Pushed, Rooted, CreatedAlong, Under;
    forall b
      ensures Held(Pushed(cells, cur, n), b) == if b == at[cur] + [name] then Some(Info(false, [])) else Held(cells, b)
    {
      HeldPushed(cells, at, cur, n, b);
    }
    StepPushed(cells, Pushed(cells, cur, n), before, at[cur], name);
  }

  lemma MarkedAlong(
    cells: seq<Cell>, at: seq<Segments>, cur: nat, before: seq<Cell>, explicit: bool, hosts: seq<Host>, b: Segments)
    requires Rooted(cells, at) && cur < |cells| && at[cur] != [] && before != [] && CreatedAlong(cells, before, at[cur])
    ensures Held(MarkedCell(cells, cur, explicit, hosts), b)
      == InfoAfter(Held(before, b), at[cur], b, explicit, hosts)
  {
    HeldMarked(cells, at, cur, explicit, hosts, b);
    EndMarked(Held(before, b), Held(cells, b), at[cur], b, explicit, hosts);
    if b == at[cur] {
      assert Held(cells, b) == Some(Info(cells[cur].explicit, cells[cur].hosts));
    }
    hide Held, MarkedCell, InfoAfter, Rooted;
  }

  class Trie {
    var cells: seq<Cell>
    ghost var at: seq<Segments>

    ghost predicate Valid()
      reads this
    {
      cells != [] && Linked(cells) && Rooted(cells, at)
    }

    constructor ()
      ensures Valid() && forall b :: Held(cells, b) == None
    {
      cells := [NewCell("", "")];
      at := [[]];
    }

    /** The loop of `insertPath`: from the roots down, creating what is missing. */
    method Descend(segments: Segments) returns (leaf: nat)
      requires Valid() && IsPath(segments)
      modifies this
      ensures Valid() && leaf < |cells| && at[leaf] == segments
      ensures old(cells) != [] && CreatedAlong(cells, old(cells), segments)
    {
      hide Walk, Get, Pushed, NewCell, Under, CreatedAlong, Held;
      leaf := 0;
      NothingAlong(cells);
      for k := 0 to |segments|
        invariant Valid() && leaf < |cells| && at[leaf] == segments[..k]
        invariant CreatedAlong(cells, old(cells), segments[..k])
      {
        var segment := segments[k];
        assert segments[..k + 1] == segments[..k] + [segment];
        WalkOn(cells, at, leaf, segment);
        var node := Get(cells, cells[leaf].children, segment);
        if node.None? {
          var n := NewCell(segment, Under(cells[leaf].path, segment));
          PushedRooted(cells, at, leaf, segment);
          PushedAlong(cells, at, leaf, old(cells), segment);
          cells, at, leaf := Pushed(cells, leaf, n), at + [at[leaf] + [segment]], |cells|;
        } else {
          StepFound(cells, old(cells), segments[..k], segment);
          WalkIs(cells, at, segments[..k + 1]);
          leaf := node.value;
        }
      }
      assert segments[..|segments|] == segments;
    }

    /** `insertPath`; `hosts` holds at most one host. */
    method InsertPath(rawPath: string, explicit: bool, hosts: seq<Host>) returns (inserted: bool)
      requires Valid()
      modifies this
      ensures Valid()
      ensures inserted == (SegmentsOf(rawPath) != []) && (!inserted ==> cells == old(cells))
      ensures forall b :: Held(cells, b) == InfoAfter(old(Held(cells, b)), SegmentsOf(rawPath), b, explicit, hosts)
    {
      hide Walk, MarkedCell, CreatedAlong;
      var segments := SegmentsOf(rawPath);
      if |segments| == 0 {
        return false;
      }
      var leaf := Descend(segments);
      hide Held, InfoAfter;
      forall b
        ensures Held(MarkedCell(cells, leaf, explicit, hosts), b)
          == InfoAfter(old(Held(cells, b)), segments, b, explicit, hosts)
      {
        MarkedAlong(cells, at, leaf, old(cells), explicit, hosts, b);
      }
      MarkedRooted(cells, at, leaf, explicit, hosts);
      cells := MarkedCell(cells, leaf, explicit, hosts);
      return true;
    }
  }

  lemma NothingAlong(cells: seq<Cell>)
    requires cells != []
    ensures CreatedAlong(cells, cells, [])
  {
    hide Held;
  }

  // ----- reading the trie -----

  function ValueOf(cells: seq<Cell>, i: nat): (n: TrieNode)
    requires Linked(cells) && i < |cells|
    ensures n.name == cells[i].name && n.path == cells[i].path && n.explicit == cells[i].explicit && n.hosts == cells[i].hosts
    decreases |cells| - i, 1, 0
  {
    assert forall k :: 0 <= k < |cells[i].children| ==> cells[i].children[k] in cells[i].children;
    Node(cells[i].name, cells[i].path, cells[i].explicit, cells[i].hosts, Values(cells, i, cells[i].children), ())
  }

  ghost predicate Later(cells: seq<Cell>, i: nat, children: seq<nat>) {
    forall k :: 0 <= k < |children| ==> i < children[k] < |cells|
  }

  /** The children of node `i` as values. */
  function Values(cells: seq<Cell>, i: nat, children: seq<nat>): (r: seq<TrieNode>)
    requires Linked(cells) && i < |cells| && Later(cells, i, children)
    ensures |r| == |children|
    ensures forall k :: 0 <= k < |r| ==> r[k] == ValueOf(cells, children[k])
    decreases |cells| - i, 0, |children|
  {
    if children == [] then []
    else
      var n := |children| - 1;
      Values(cells, i, children[..n]) + [ValueOf(cells, children[n])]
  }

  lemma {:induction false} FindValue(cells: seq<Cell>, i: nat, children: seq<nat>, name: string)
    requires Linked(cells) && i < |cells| && Later(cells, i, children)
    ensures var f, g := Get(cells, children, name), Find(Values(cells, i, children), name);
      (f.Some? <==> g.Some?) && (f.Some? ==> Values(cells, i, children)[g.value] == ValueOf(cells, f.value))
    decreases |children|
  {
    hide ValueOf;
    if children != [] {
      var n := |children| - 1;
      FindValue(cells, i, children[..n], name);
      assert Values(cells, i, children)[..n] == Values(cells, i, children[..n]);
    }
  }

  function ChildValues(cells: seq<Cell>, i: nat): seq<TrieNode>
    requires Linked(cells) && i < |cells|
  {
    ValueOf(cells, i).children
  }

  lemma ChildValue(cells: seq<Cell>, i: nat, k: nat)
    requires Linked(cells) && i < |cells|
    ensures |ChildValues(cells, i)| == |cells[i].children|
    ensures k < |cells[i].children| ==> i < cells[i].children[k] < |cells|
    ensures k < |cells[i].children| ==> ChildValues(cells, i)[k] == ValueOf(cells, cells[i].children[k])
  {
    assert k < |cells[i].children| ==> cells[i].children[k] in cells[i].children;
  }

  lemma SiblingsDiffer(cells: seq<Cell>, at: seq<Segments>, i: nat, k: nat, l: nat)
    requires Rooted(cells, at) && i < |cells| && k < l < |cells[i].children|
    ensures cells[i].children[k] < |cells| && cells[i].children[l] < |cells|
    ensures cells[cells[i].children[k]].name != cells[cells[i].children[l]].name
  {
    hide Walk;
    var c, d := cells[i].children[k], cells[i].children[l];
    assert c in cells[i].children && d in cells[i].children;
    assert c != d && Walk(cells, at[c]) == Some(c) && Walk(cells, at[d]) == Some(d);
  }

  lemma {:induction false} ValuesPlaced(cells: seq<Cell>, at: seq<Segments>, i: nat)
    requires Rooted(cells, at) && i < |cells|
    ensures Placed(ChildValues(cells, i), Join(at[i]))
    decreases |cells| - i, 0
  {
    hide ChildValues, ValueOf, Walk, Join, IsPath, IsSegment;
    var ts := ChildValues(cells, i);
    ChildValue(cells, i, 0);
    forall k, l | 0 <= k < l < |ts| ensures ts[k].name != ts[l].name {
      ChildValue(cells, i, k);
      ChildValue(cells, i, l);
      SiblingsDiffer(cells, at, i, k, l);
    }
    forall k | 0 <= k < |ts| ensures PlacedNode(ts[k], Join(at[i])) {
      ChildValue(cells, i, k);
      ChildPlaced(cells, at, i, cells[i].children[k]);
    }
  }

  lemma ChildPlaced(cells: seq<Cell>, at: seq<Segments>, i: nat, c: nat)
    requires Rooted(cells, at) && i < c < |cells| && c in cells[i].children
    ensures PlacedNode(ValueOf(cells, c), Join(at[i]))
    decreases |cells| - c, 1
  {
    ValuesPlaced(cells, at, c);
    assert NamedCell(cells[c], at[c]) && at[c] == at[i] + [cells[c].name];
    assert NamedCell(cells[i], at[i]);
    UnderIsJoin(at[i], cells[c].name);
    hide Join, IsPath, Placed, Values, Reaches, Separate;
  }

  lemma {:induction false} WalkDead(cells: seq<Cell>, a: Segments, b: Segments)
    requires cells != [] && Walk(cells, a) == None
    ensures Walk(cells, a + b) == None
    decreases |b|
  {
    if b == [] {
      assert a + b == a;
    } else {
      WalkDead(cells, a, b[..|b| - 1]);
      assert (a + b)[..|a + b| - 1] == a + b[..|b| - 1];
    }
  }

  lemma ValueStep(cells: seq<Cell>, i: nat, b: Segments)
    requires Linked(cells) && i < |cells| && b != []
    ensures var f := Get(cells, cells[i].children, b[0]);
      At(ChildValues(cells, i), b)
      == if f == None then None else if |b| == 1 then Some(ValueOf(cells, f.value))
         else At(ChildValues(cells, f.value), b[1..])
  {
    ChildrenAre(cells, i);
    FindValue(cells, i, cells[i].children, b[0]);
    hide Get, Find, Values, Linked;
  }

  lemma ConcatStep(x: Segments, b: Segments)
    requires b != []
    ensures x + [b[0]] + b[1..] == x + b
  {
  }

  lemma LinkFacts(cells: seq<Cell>, at: seq<Segments>, i: nat, c: nat)
    requires Rooted(cells, at) && i < |cells| && c in cells[i].children
    ensures c < |cells| && at[c] == at[i] + [cells[c].name] && Walk(cells, at[c]) == Some(c)
  {
    hide Walk, Named, Separate;
  }

  lemma WalkFrom(cells: seq<Cell>, at: seq<Segments>, i: nat, b: Segments)
    requires Rooted(cells, at) && i < |cells| && b != []
    ensures var f := Get(cells, cells[i].children, b[0]);
      if f == None then Walk(cells, at[i] + b) == None
      else at[i] + b == at[f.value] + b[1..] && Walk(cells, at[f.value]) == f && at[f.value] != []
  {
    WalkOn(cells, at, i, b[0]);
    RootedFacts(cells, at);
    ConcatStep(at[i], b);
    hide Walk, Get, Rooted, Linked;
    var f := Get(cells, cells[i].children, b[0]);
    if f == None {
      WalkDead(cells, at[i] + [b[0]], b[1..]);
    } else {
      LinkFacts(cells, at, i, f.value);
    }
  }

  /** The values hold at every path what the trie holds there. */
  lemma {:induction false} ValuesHold(cells: seq<Cell>, at: seq<Segments>, i: nat, b: Segments)
    requires Rooted(cells, at) && i < |cells| && b != []
    ensures InfoAt(ChildValues(cells, i), b) == Held(cells, at[i] + b)
    decreases |b|
  {
    hide Walk, Get, Rooted, At, ChildValues;
    assert |at| == |cells| && Linked(cells) by {
      RootedFacts(cells, at);
    }
    ValueStep(cells, i, b);
    WalkFrom(cells, at, i, b);
    var f := Get(cells, cells[i].children, b[0]);
    if f.Some? {
      if |b| == 1 {
        assert at[f.value] + b[1..] == at[f.value];
      } else {
        ValuesHold(cells, at, f.value, b[1..]);
      }
    }
  }

  lemma RootedFacts(cells: seq<Cell>, at: seq<Segments>)
    requires Rooted(cells, at)
    ensures |at| == |cells| > 0 && at[0] == [] && Linked(cells)
  {
  }

  lemma ChildrenAre(cells: seq<Cell>, i: nat)
    requires Linked(cells) && i < |cells|
    ensures Later(cells, i, cells[i].children)
    ensures ChildValues(cells, i) == Values(cells, i, cells[i].children)
  {
    assert forall k :: 0 <= k < |cells[i].children| ==> cells[i].children[k] in cells[i].children;
  }

  // ----- building -----

  /** The value trie and the mutable one hold the same. */
  ghost predicate Agree(cells: seq<Cell>, roots: seq<TrieNode>) {
    cells != [] && forall b :: Held(cells, b) == InfoAt(roots, b)
  }

  lemma AgreeGroup(cells: seq<Cell>, cells': seq<Cell>, roots: seq<TrieNode>, rawPath: string)
    requires Agree(cells, roots) && cells' != []
    requires forall b :: Held(cells', b) == InfoAfter(Held(cells, b), SegmentsOf(rawPath), b, true, [])
    ensures Agree(cells', InsertGroup(roots, rawPath))
  {
    hide Held, InfoAt, Insert, SegmentsOf;
    var a := SegmentsOf(rawPath);
    forall b ensures Held(cells', b) == InfoAt(InsertGroup(roots, rawPath), b) {
      assert Held(cells, b) == InfoAt(roots, b);
      if a != [] {
        InsertAt(roots, a, "", true, [], b);
      }
    }
  }

  lemma AgreeHost(cells: seq<Cell>, cells': seq<Cell>, roots: seq<TrieNode>, a: Segments, h: Host)
    requires Agree(cells, roots) && cells' != [] && a != []
    requires forall b :: Held(cells', b) == InfoAfter(Held(cells, b), a, b, false, [h])
    ensures Agree(cells', Insert(roots, a, "", false, [h]))
  {
    hide Held, InfoAt, Insert;
    forall b ensures Held(cells', b) == InfoAt(Insert(roots, a, "", false, [h]), b) {
      assert Held(cells, b) == InfoAt(roots, b);
      InsertAt(roots, a, "", false, [h], b);
    }
  }

  /** A trie that holds the same as a placed value trie finishes as the same tree. */
  lemma SameFinish(cells: seq<Cell>, at: seq<Segments>, roots: seq<TrieNode>, orders: map<string, real>)
    requires Rooted(cells, at) && Agree(cells, roots) && Placed(roots, "")
    ensures Finalize(orders, ChildValues(cells, 0)) == Finalize(orders, roots)
  {
    RootedFacts(cells, at);
    ValuesPlaced(cells, at, 0);
    var values := ChildValues(cells, 0);
    assert Join(at[0]) == "";
    hide Rooted, Linked, ChildValues, Placed, Held, Finalize, Finished;
    FinalizeFinished(orders, values, "");
    FinalizeFinished(orders, roots, "");
    forall b ensures InfoAt(Finalize(orders, values), b) == InfoAt(Finalize(orders, roots), b) {
      FinalizeAt(orders, values, "", b);
      FinalizeAt(orders, roots, "", b);
      if b != [] {
        ValuesHold(cells, at, 0, b);
        assert at[0] + b == b;
        assert Held(cells, b) == InfoAt(roots, b);
      }
    }
    TreeUnique(orders, Finalize(orders, values), Finalize(orders, roots), "");
  }

  /** The loop that fills `orderByPath`. */
  method OrderByPath(configs: seq<GroupConfig>) returns (orders: map<string, real>)
    ensures orders == OrderMap(configs)
  {
    hide Project;
    orders := map[];
    for i := 0 to |configs|
      invariant orders == OrderMap(configs[..i])
    {
      assert configs[..i + 1][..i] == configs[..i];
      var path := Project(configs[i].path);
      if path != "" && configs[i].order.Some? {
        orders := orders[path := configs[i].order.value];
      }
    }
    assert configs[..|configs|] == configs;
  }

  /** `buildGroupTree`, on the mutable trie. */
  method BuildGroupTree(groups: seq<string>, configs: seq<GroupConfig>, hosts: seq<Host>) returns (tree: Tree)
    ensures tree == Build(groups, configs, hosts)
  {
    hide Finalize, Insert, Project, SegmentsOf, Held, InfoAt, Rooted, InfoAfter, Linked, OrderMap;
    var trie := new Trie();
    assert Agree(trie.cells, []) by {
      EmptyAgrees(trie.cells);
    }
    for i := 0 to |groups|
      invariant trie.Valid() && Agree(trie.cells, InsertGroups([], groups[..i]))
    {
      assert groups[..i + 1][..i] == groups[..i];
      ghost var before := trie.cells;
      var inserted := trie.InsertPath(groups[i], true, []);
      AgreeGroup(before, trie.cells, InsertGroups([], groups[..i]), groups[i]);
    }
    assert groups[..|groups|] == groups;
    ghost var start := Built(InsertGroups([], groups), []);
    var ungrouped: seq<Host> := [];
    for i := 0 to |hosts|
      invariant trie.Valid() && Agree(trie.cells, InsertHosts(start, hosts[..i]).roots)
      invariant ungrouped == InsertHosts(start, hosts[..i]).ungrouped
    {
      assert hosts[..i + 1][..i] == hosts[..i];
      var host := hosts[i];
      ghost var before := trie.cells;
      var inserted := false;
      if host.group.Some? {
        inserted := trie.InsertPath(host.group.value, false, [host]);
      }
      if inserted {
        AgreeHost(before, trie.cells, InsertHosts(start, hosts[..i]).roots, HostSegments(host), host);
      } else {
        ungrouped := ungrouped + [host];
      }
    }
    assert hosts[..|hosts|] == hosts;
    var orders := OrderByPath(configs);
    BuildPlaced(groups, hosts);
    SameFinish(trie.cells, trie.at, BuildTrie(groups, hosts).roots, orders);
    tree := Tree(Finalize(orders, ChildValues(trie.cells, 0)), ungrouped);
  }

  lemma EmptyAgrees(cells: seq<Cell>)
    requires cells != [] && forall b :: Held(cells, b) == None
    ensures Agree(cells, [])
  {
    forall b ensures Held(cells, b) == InfoAt<()>([], b) {
      AtEmpty(b);
    }
  }
}
