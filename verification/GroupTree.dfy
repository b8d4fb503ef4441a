/** `buildGroupTree` of src/groupTree.ts on values: a trie filled by path insertions
    and finalised into sorted nodes with recursive totals. */
module GroupTree {
  import opened Text
  import opened GroupPaths

  datatype Host = Host(id: nat, group: Option<string>)

  /** `order` is present when it is a finite number. */
  datatype GroupConfig = GroupConfig(path: string, order: Option<real>)

  /** A node of the trie (`T` is the unit type) or of the finished tree (`T` is
      `nat`, the total host count). The children of a trie node, a map in the
      source, are kept in insertion order. */
  datatype Node<T> = Node(name: string, path: string, explicit: bool, hosts: seq<Host>, children: seq<Node<T>>, total: T)

  type TrieNode = Node<()>

  type TreeNode = Node<nat>

  datatype Tree = Tree(roots: seq<TreeNode>, ungrouped: seq<Host>)

  // ----- insertion -----

  function Find<T>(nodes: seq<Node<T>>, name: string): (r: Option<nat>)
    ensures r.Some? ==> r.value < |nodes| && nodes[r.value].name == name
    ensures r.None? ==> forall i :: 0 <= i < |nodes| ==> nodes[i].name != name
  {
    if nodes == [] then None
    else
      var n := |nodes| - 1;
      var r := Find(nodes[..n], name);
      if r.Some? then r else if nodes[n].name == name then Some(n) else None
  }

  /** The node at the end of an insertion. */
  function Marked(n: TrieNode, explicit: bool, hosts: seq<Host>): TrieNode {
    n.(explicit := n.explicit || explicit, hosts := n.hosts + hosts)
  }

  /** `insertPath` for a non-empty segment list; `hosts` holds at most one host. */
  function Insert(nodes: seq<TrieNode>, a: Segments, prefix: string, explicit: bool, hosts: seq<Host>): seq<TrieNode>
    requires a != []
    decreases |a|, 0
  {
    var path := Under(prefix, a[0]);
    match Find(nodes, a[0])
    case Some(i) => nodes[i := Extended(nodes[i], a[1..], path, explicit, hosts)]
    case None => nodes + [Extended(Node(a[0], path, false, [], [], ()), a[1..], path, explicit, hosts)]
  }

  function Extended(n: TrieNode, rest: Segments, path: string, explicit: bool, hosts: seq<Host>): (r: TrieNode)
    ensures r.name == n.name && r.path == n.path
    decreases |rest|, 1
  {
    if rest == [] then Marked(n, explicit, hosts)
    else n.(children := Insert(n.children, rest, path, explicit, hosts))
  }

  // ----- what a trie or a tree holds -----

  datatype Info = Info(explicit: bool, hosts: seq<Host>)

  function At<T>(nodes: seq<Node<T>>, b: Segments): Option<Node<T>>
    decreases |b|
  {
    if b == [] then None
    else
      match Find(nodes, b[0])
      case None => None
      case Some(i) => if |b| == 1 then Some(nodes[i]) else At(nodes[i].children, b[1..])
  }

  function InfoOf<T>(n: Option<Node<T>>): Option<Info> {
    match n
    case None => None
    case Some(n) => Some(Info(n.explicit, n.hosts))
  }

  function InfoAt<T>(nodes: seq<Node<T>>, b: Segments): Option<Info> {
    InfoOf(At(nodes, b))
  }

  /** The entry of `b` after an insertion at `a`. */
  function InfoAfter(before: Option<Info>, a: Segments, b: Segments, explicit: bool, hosts: seq<Host>): Option<Info> {
    var was := if before.Some? then before.value else Info(false, []);
    if b == [] || !(b <= a) then before
    else if b == a then Some(Info(was.explicit || explicit, was.hosts + hosts))
    else Some(was)
  }

  lemma {:induction false} FindUpdated<T>(nodes: seq<Node<T>>, i: nat, n: Node<T>, name: string)
    requires i < |nodes| && n.name == nodes[i].name
    ensures Find(nodes[i := n], name) == Find(nodes, name)
  {
    var k := |nodes| - 1;
    if i < k {
      FindUpdated(nodes[..k], i, n, name);
      assert nodes[i := n][..k] == nodes[..k][i := n];
    } else {
      assert nodes[i := n][..k] == nodes[..k];
    }
  }

  lemma FindPushed<T>(nodes: seq<Node<T>>, n: Node<T>, name: string)
    ensures Find(nodes + [n], name)
      == if Find(nodes, name).None? && name == n.name then Some(|nodes|) else Find(nodes, name)
  {
    assert (nodes + [n])[..|nodes|] == nodes;
  }

  lemma AtEmpty(b: Segments)
    ensures At<()>([], b) == None
  {
  }

  lemma AtUpdated<T>(nodes: seq<Node<T>>, i: nat, n: Node<T>, b: Segments)
    requires b != [] && i < |nodes| && n.name == nodes[i].name && Find(nodes, n.name) == Some(i)
    ensures At(nodes[i := n], b)
      == if b[0] != n.name then At(nodes, b) else if |b| == 1 then Some(n) else At(n.children, b[1..])
  {
    FindUpdated(nodes, i, n, b[0]);
  }

  lemma AtPushed<T>(nodes: seq<Node<T>>, n: Node<T>, b: Segments)
    requires b != [] && Find(nodes, n.name).None?
    ensures At(nodes + [n], b)
      == if b[0] != n.name then At(nodes, b) else if |b| == 1 then Some(n) else At(n.children, b[1..])
  {
    FindPushed(nodes, n, b[0]);
  }

  function Child(nodes: seq<TrieNode>, name: string, path: string): (n: TrieNode)
    ensures n.name == name
  {
    var f := Find(nodes, name);
    if f.Some? then nodes[f.value] else Node(name, path, false, [], [], ())
  }

  lemma InsertedAt(nodes: seq<TrieNode>, a: Segments, prefix: string, explicit: bool, hosts: seq<Host>, b: Segments)
    requires a != [] && b != []
    ensures var path := Under(prefix, a[0]);
      var n := Extended(Child(nodes, a[0], path), a[1..], path, explicit, hosts);
      At(Insert(nodes, a, prefix, explicit, hosts), b)
      == if b[0] != a[0] then At(nodes, b) else if |b| == 1 then Some(n) else At(n.children, b[1..])
  {
    hide At, Extended;
    var path := Under(prefix, a[0]);
    var f := Find(nodes, a[0]);
    var n := Extended(Child(nodes, a[0], path), a[1..], path, explicit, hosts);
    if f.Some? {
      AtUpdated(nodes, f.value, n, b);
    } else {
      AtPushed(nodes, n, b);
    }
  }

  lemma PrefixStep(a: Segments, b: Segments)
    requires a != [] && b != [] && a[0] == b[0]
    ensures b <= a <==> b[1..] <= a[1..]
    ensures b == a <==> b[1..] == a[1..]
  {
    assert a == [a[0]] + a[1..] && b == [b[0]] + b[1..];
  }

  lemma ChildAt(nodes: seq<TrieNode>, path: string, b: Segments)
    requires b != []
    ensures var n := Child(nodes, b[0], path);
      && (|b| > 1 ==> At(n.children, b[1..]) == At(nodes, b))
      && (|b| == 1 ==> At(nodes, b) == Some(n) || (At(nodes, b) == None && InfoOf(Some(n)) == Some(Info(false, []))))
  {
    if Find(nodes, b[0]).None? {
      AtEmpty(b[1..]);
    }
  }

  lemma InsertEndsAt(nodes: seq<TrieNode>, a: Segments, prefix: string, explicit: bool, hosts: seq<Host>, b: Segments)
    requires a != [] && |b| == 1
    ensures InfoAt(Insert(nodes, a, prefix, explicit, hosts), b) == InfoAfter(InfoAt(nodes, b), a, b, explicit, hosts)
  {
    hide At, Insert, Under, Child, Extended;
    InsertedAt(nodes, a, prefix, explicit, hosts, b);
    if b[0] == a[0] {
      PrefixStep(a, b);
      var path := Under(prefix, a[0]);
      ChildAt(nodes, path, b);
      ExtendedInfo(Child(nodes, a[0], path), a[1..], path, explicit, hosts);
    }
  }

  /** An insertion creates exactly the missing prefixes and touches its end only. */
  lemma {:induction false} InsertAt(
    nodes: seq<TrieNode>, a: Segments, prefix: string, explicit: bool, hosts: seq<Host>, b: Segments)
    requires a != []
    ensures InfoAt(Insert(nodes, a, prefix, explicit, hosts), b) == InfoAfter(InfoAt(nodes, b), a, b, explicit, hosts)
    decreases |a|
  {
    assert forall ns: seq<TrieNode> :: InfoAt(ns, []) == None;
    hide At, Insert, Find, Under, Child, Extended;
    if |b| == 1 {
      InsertEndsAt(nodes, a, prefix, explicit, hosts, b);
    } else if b != [] {
      InsertedAt(nodes, a, prefix, explicit, hosts, b);
      if b[0] == a[0] {
        PrefixStep(a, b);
        var path := Under(prefix, a[0]);
        var n := Child(nodes, a[0], path);
        ChildAt(nodes, path, b);
        if |a| == 1 {
          ExtendedInfo(n, a[1..], path, explicit, hosts);
        } else {
          ExtendedChildren(n, a[1..], path, explicit, hosts);
          InsertAt(n.children, a[1..], path, explicit, hosts, b[1..]);
        }
      }
    }
  }

  lemma ExtendedInfo(n: TrieNode, rest: Segments, path: string, explicit: bool, hosts: seq<Host>)
    ensures var n' := Extended(n, rest, path, explicit, hosts);
      && n'.explicit == (n.explicit || (rest == [] && explicit))
      && n'.hosts == (if rest == [] then n.hosts + hosts else n.hosts)
      && (rest == [] ==> n'.children == n.children)
  {
    hide Insert;
  }

  lemma ExtendedChildren(n: TrieNode, rest: Segments, path: string, explicit: bool, hosts: seq<Host>)
    requires rest != []
    ensures Extended(n, rest, path, explicit, hosts).children == Insert(n.children, rest, path, explicit, hosts)
  {
    hide Insert;
  }

  // ----- building -----

  datatype Built = Built(roots: seq<TrieNode>, ungrouped: seq<Host>)

  function InsertGroup(roots: seq<TrieNode>, rawPath: string): seq<TrieNode> {
    var a := SegmentsOf(rawPath);
    if a == [] then roots else Insert(roots, a, "", true, [])
  }

  function InsertGroups(roots: seq<TrieNode>, groups: seq<string>): seq<TrieNode> {
    if groups == [] then roots else InsertGroup(InsertGroups(roots, groups[..|groups| - 1]), groups[|groups| - 1])
  }

  function HostSegments(h: Host): (a: Segments)
    ensures IsPath(a)
  {
    if h.group.Some? then SegmentsOf(h.group.value) else []
  }

  function InsertHost(b: Built, h: Host): Built {
    var a := HostSegments(h);
    if a == [] then b.(ungrouped := b.ungrouped + [h]) else b.(roots := Insert(b.roots, a, "", false, [h]))
  }

  function InsertHosts(b: Built, hosts: seq<Host>): Built {
    if hosts == [] then b else InsertHost(InsertHosts(b, hosts[..|hosts| - 1]), hosts[|hosts| - 1])
  }

  function BuildTrie(groups: seq<string>, hosts: seq<Host>): Built {
    InsertHosts(Built(InsertGroups([], groups), []), hosts)
  }

  // ----- sorting and finalising -----

  function OrderMap(configs: seq<GroupConfig>): map<string, real> {
    if configs == [] then map[]
    else
      var rest := OrderMap(configs[..|configs| - 1]);
      var c := configs[|configs| - 1];
      var path := Project(c.path);
      if path != "" && c.order.Some? then rest[path := c.order.value] else rest
  }

  /** The position of a character in the order JavaScript compares strings by:
      UTF-16 code units, where a supplementary character starts with a surrogate. */
  function CodeUnitRank(c: char): (r: int)
    ensures r >= 0
  {
    var code := c as int;
    if code < 0xd800 then code else if code >= 0x10000 then code - 0x10000 + 0xd800 else code + 0x100000
  }

  /** `left < right` on strings */
  predicate NameLess(a: string, b: string) {
    if b == [] then false
    else if a == [] then true
    else if a[0] == b[0] then NameLess(a[1..], b[1..])
    else CodeUnitRank(a[0]) < CodeUnitRank(b[0])
  }

  /** The comparator of `finalize`: ordered paths first, by order, then by name. */
  predicate Less(orders: map<string, real>, l: TreeNode, r: TreeNode) {
    if l.path in orders && r.path in orders then
      if orders[l.path] != orders[r.path] then orders[l.path] < orders[r.path] else NameLess(l.name, r.name)
    else if l.path in orders then true
    else if r.path in orders then false
    else NameLess(l.name, r.name)
  }

  /** Stable insertion into a sorted list. */
  function SortIn(orders: map<string, real>, n: TreeNode, sorted: seq<TreeNode>): (r: seq<TreeNode>)
    ensures multiset(r) == multiset(sorted) + multiset{n}
  {
    if sorted == [] then [n]
    else if Less(orders, sorted[0], n) then
      var r := SortIn(orders, n, sorted[1..]);
      assert sorted == [sorted[0]] + sorted[1..];
      [sorted[0]] + r
    else [n] + sorted
  }

  function Totals(ts: seq<TreeNode>): nat {
    if ts == [] then 0 else ts[0].total + Totals(ts[1..])
  }

  /** `finalize` */
  function Finalize(orders: map<string, real>, nodes: seq<TrieNode>): seq<TreeNode>
    decreases nodes, 0
  {
    if nodes == [] then []
    else SortIn(orders, FinalizeNode(orders, nodes[0]), Finalize(orders, nodes[1..]))
  }

  function FinalizeNode(orders: map<string, real>, n: TrieNode): (r: TreeNode)
    ensures r.name == n.name && r.path == n.path && r.explicit == n.explicit && r.hosts == n.hosts
    decreases n, 1
  {
    var children := Finalize(orders, n.children);
    Node(n.name, n.path, n.explicit, n.hosts, children, |n.hosts| + Totals(children))
  }

  /** `buildGroupTree` */
  function Build(groups: seq<string>, configs: seq<GroupConfig>, hosts: seq<Host>): Tree {
    var b := BuildTrie(groups, hosts);
    Tree(Finalize(OrderMap(configs), b.roots), b.ungrouped)
  }

  // ----- what the input asks for -----

  ghost predicate Explicit(groups: seq<string>, b: Segments) {
    exists g :: g in groups && SegmentsOf(g) == b
  }

  ghost predicate Mentioned(groups: seq<string>, hosts: seq<Host>, b: Segments) {
    (exists g :: g in groups && b <= SegmentsOf(g)) || (exists h :: h in hosts && b <= HostSegments(h))
  }

  /** The hosts of exactly this group, in input order. */
  function HostsAt(hosts: seq<Host>, b: Segments): seq<Host> {
    if hosts == [] then []
    else
      var n := |hosts| - 1;
      HostsAt(hosts[..n], b) + if HostSegments(hosts[n]) == b then [hosts[n]] else []
  }

  /** The hosts of this group and of all groups under it, in input order. */
  function HostsUnder(hosts: seq<Host>, b: Segments): seq<Host> {
    if hosts == [] then []
    else
      var n := |hosts| - 1;
      HostsUnder(hosts[..n], b) + if b <= HostSegments(hosts[n]) then [hosts[n]] else []
  }

  ghost function Wanted(groups: seq<string>, hosts: seq<Host>, b: Segments): Option<Info> {
    if b != [] && Mentioned(groups, hosts, b) then Some(Info(Explicit(groups, b), HostsAt(hosts, b))) else None
  }

  lemma NothingAt(b: Segments)
    ensures InfoAt<()>([], b) == Wanted([], [], b)
  {
    AtEmpty(b);
  }

  lemma {:induction false} GroupsAt(groups: seq<string>, b: Segments)
    ensures InfoAt(InsertGroups([], groups), b) == Wanted(groups, [], b)
  {
    hide InfoAt, InsertGroup, SegmentsOf, Wanted, At, InfoAfter;
    if groups == [] {
      NothingAt(b);
    } else {
      var n := |groups| - 1;
      var before, a := InsertGroups([], groups[..n]), SegmentsOf(groups[n]);
      GroupsAt(groups[..n], b);
      GroupAt(before, groups[n], b);
      GroupsAtStep(groups[..n], groups[n], b);
      assert groups == groups[..n] + [groups[n]];
    }
  }

  lemma GroupAt(roots: seq<TrieNode>, g: string, b: Segments)
    ensures InfoAt(InsertGroup(roots, g), b) == InfoAfter(InfoAt(roots, b), SegmentsOf(g), b, true, [])
  {
    hide InfoAt, Insert;
    if SegmentsOf(g) != [] {
      InsertAt(roots, SegmentsOf(g), "", true, [], b);
    }
  }

  lemma MentionedGroup(groups: seq<string>, g: string, hosts: seq<Host>, b: Segments)
    ensures Mentioned(groups + [g], hosts, b) <==> Mentioned(groups, hosts, b) || b <= SegmentsOf(g)
    ensures Explicit(groups + [g], b) <==> Explicit(groups, b) || b == SegmentsOf(g)
  {
    hide SegmentsOf, HostSegments;
    assert forall x :: x in groups + [g] <==> x in groups || x == g;
    assert g in groups + [g];
  }

  lemma MentionedHost(groups: seq<string>, hosts: seq<Host>, h: Host, b: Segments)
    ensures Mentioned(groups, hosts + [h], b) <==> Mentioned(groups, hosts, b) || b <= HostSegments(h)
  {
    hide SegmentsOf, HostSegments;
    assert forall x :: x in hosts + [h] <==> x in hosts || x == h;
    assert h in hosts + [h];
  }

  lemma ExplicitMentioned(groups: seq<string>, hosts: seq<Host>, b: Segments)
    requires Explicit(groups, b)
    ensures Mentioned(groups, hosts, b)
  {
  }

  lemma GroupsAtStep(groups: seq<string>, g: string, b: Segments)
    ensures Wanted(groups + [g], [], b) == InfoAfter(Wanted(groups, [], b), SegmentsOf(g), b, true, [])
  {
    MentionedGroup(groups, g, [], b);
    if Explicit(groups, b) {
      ExplicitMentioned(groups, [], b);
    }
    assert HostsAt([], b) == [] == HostsAt([], b) + [];
    hide Mentioned, Explicit, SegmentsOf, HostsAt;
  }

  lemma HostsAtStep(groups: seq<string>, hosts: seq<Host>, h: Host, b: Segments)
    ensures Wanted(groups, hosts + [h], b) == InfoAfter(Wanted(groups, hosts, b), HostSegments(h), b, false, [h])
  {
    MentionedHost(groups, hosts, h, b);
    if Explicit(groups, b) {
      ExplicitMentioned(groups, hosts, b);
    }
    if !Mentioned(groups, hosts, b) {
      HostsAtMentioned(groups, hosts, b);
    }
    HostsAtPushed(hosts, h, b);
    hide Mentioned, Explicit, HostSegments, HostsAt;
  }

  lemma HostsAtPushed(hosts: seq<Host>, h: Host, b: Segments)
    ensures HostsAt(hosts + [h], b) == if HostSegments(h) == b then HostsAt(hosts, b) + [h] else HostsAt(hosts, b)
  {
    hide HostSegments;
    assert (hosts + [h])[..|hosts|] == hosts;
  }

  lemma {:induction false} HostsAtMentioned(groups: seq<string>, hosts: seq<Host>, b: Segments)
    requires !Mentioned(groups, hosts, b)
    ensures HostsAt(hosts, b) == []
  {
    hide HostSegments;
    if hosts != [] {
      var n := |hosts| - 1;
      assert hosts[n] in hosts;
      HostsAtMentioned(groups, hosts[..n], b);
    }
  }

  lemma HostPlaced(built: Built, groups: seq<string>, hosts: seq<Host>, h: Host, b: Segments)
    requires InfoAt(built.roots, b) == Wanted(groups, hosts, b) && built.ungrouped == HostsAt(hosts, [])
    ensures InfoAt(InsertHost(built, h).roots, b) == Wanted(groups, hosts + [h], b)
    ensures InsertHost(built, h).ungrouped == HostsAt(hosts + [h], [])
  {
    var a := HostSegments(h);
    if a != [] {
      InsertAt(built.roots, a, "", false, [h], b);
    }
    HostsAtStep(groups, hosts, h, b);
    HostsAtPushed(hosts, h, []);
    hide InfoAt, Insert, Wanted, HostSegments, HostsAt;
  }

  lemma NoHosts(start: Built)
    ensures InsertHosts(start, []) == start && HostsAt([], []) == []
  {
  }

  lemma LastHost(start: Built, hosts: seq<Host>)
    requires hosts != []
    ensures InsertHosts(start, hosts) == InsertHost(InsertHosts(start, hosts[..|hosts| - 1]), hosts[|hosts| - 1])
  {
    hide InsertHost;
  }

  lemma {:induction false} HostsPlaced(start: Built, groups: seq<string>, hosts: seq<Host>, b: Segments)
    requires InfoAt(start.roots, b) == Wanted(groups, [], b) && start.ungrouped == []
    ensures InfoAt(InsertHosts(start, hosts).roots, b) == Wanted(groups, hosts, b)
    ensures InsertHosts(start, hosts).ungrouped == HostsAt(hosts, [])
  {
    hide InfoAt, InsertHost, InsertHosts, Wanted, HostsAt;
    if hosts == [] {
      NoHosts(start);
    } else {
      var n := |hosts| - 1;
      HostsPlaced(start, groups, hosts[..n], b);
      HostPlaced(InsertHosts(start, hosts[..n]), groups, hosts[..n], hosts[n], b);
      LastHost(start, hosts);
      assert hosts[..n] + [hosts[n]] == hosts;
    }
  }

  /** The trie holds exactly the non-empty prefixes of the input paths. */
  lemma TrieAt(groups: seq<string>, hosts: seq<Host>, b: Segments)
    ensures InfoAt(BuildTrie(groups, hosts).roots, b) == Wanted(groups, hosts, b)
    ensures BuildTrie(groups, hosts).ungrouped == HostsAt(hosts, [])
  {
    GroupsAt(groups, b);
    HostsPlaced(Built(InsertGroups([], groups), []), groups, hosts, b);
  }

  // ----- counting hosts -----

  function Own<T>(n: Node<T>): multiset<Host>
    decreases n, 1
  {
    multiset(n.hosts) + All(n.children)
  }

  /** Every host of a forest, with multiplicity. */
  function All<T>(nodes: seq<Node<T>>): multiset<Host>
    decreases nodes, 0
  {
    if nodes == [] then multiset{}
    else
      var n := |nodes| - 1;
      All(nodes[..n]) + Own(nodes[n])
  }

  function Below<T>(nodes: seq<Node<T>>, b: Segments): multiset<Host> {
    match At(nodes, b)
    case None => multiset{}
    case Some(n) => Own(n)
  }

  lemma AllPushed<T>(nodes: seq<Node<T>>, n: Node<T>)
    ensures All(nodes + [n]) == All(nodes) + Own(n)
  {
    assert (nodes + [n])[..|nodes|] == nodes;
  }

  lemma Shuffle<T>(x: multiset<T>, y: multiset<T>, old': multiset<T>, new': multiset<T>, last: multiset<T>)
    requires x + old' == y + new'
    ensures (x + last) + old' == (y + last) + new'
  {
    assert (x + last) + old' == (x + old') + last;
    assert (y + last) + new' == (y + new') + last;
  }

  lemma {:induction false} AllUpdated<T>(nodes: seq<Node<T>>, i: nat, n: Node<T>)
    requires i < |nodes|
    ensures All(nodes[i := n]) + Own(nodes[i]) == All(nodes) + Own(n)
  {
    hide Own;
    var k := |nodes| - 1;
    var m := nodes[i := n];
    if i < k {
      AllUpdated(nodes[..k], i, n);
      assert m[..k] == nodes[..k][i := n];
      assert nodes[..k][i] == nodes[i];
      Shuffle(All(m[..k]), All(nodes[..k]), Own(nodes[i]), Own(n), Own(nodes[k]));
    } else {
      assert m[..k] == nodes[..k];
    }
  }

  lemma AllInserted(nodes: seq<TrieNode>, a: Segments, prefix: string, explicit: bool, hosts: seq<Host>)
    requires a != []
    ensures var path := Under(prefix, a[0]);
      var n := Child(nodes, a[0], path);
      && All(Insert(nodes, a, prefix, explicit, hosts)) + Own(n) == All(nodes) + Own(Extended(n, a[1..], path, explicit, hosts))
  {
    hide Extended, Own, All;
    var path := Under(prefix, a[0]);
    var f := Find(nodes, a[0]);
    var n := Extended(Child(nodes, a[0], path), a[1..], path, explicit, hosts);
    if f.Some? {
      AllUpdated(nodes, f.value, n);
    } else {
      AllPushed(nodes, n);
      assert Own(Child(nodes, a[0], path)) == multiset{} by {
        NewNodeEmpty(a[0], path);
      }
    }
  }

  lemma NewNodeEmpty(name: string, path: string)
    ensures Own(Node(name, path, false, [], [], ())) == multiset{}
  {
  }

  lemma ExtendedOwn(n: TrieNode, rest: Segments, path: string, explicit: bool, hosts: seq<Host>)
    ensures Own(Extended(n, rest, path, explicit, hosts)) == Own(n) + multiset(hosts)
    decreases |rest|, 1
  {
    if rest != [] {
      InsertAll(n.children, rest, path, explicit, hosts);
    }
    hide All, Insert;
  }

  lemma Cancel<T>(x: multiset<T>, y: multiset<T>, own: multiset<T>, more: multiset<T>)
    requires x + own == y + (own + more)
    ensures x == y + more
  {
    assert x == (x + own) - own;
    assert y + more == (y + (own + more)) - own;
  }

  /** An insertion adds its host and nothing else. */
  lemma {:induction false} InsertAll(nodes: seq<TrieNode>, a: Segments, prefix: string, explicit: bool, hosts: seq<Host>)
    requires a != []
    ensures All(Insert(nodes, a, prefix, explicit, hosts)) == All(nodes) + multiset(hosts)
    decreases |a|, 0
  {
    var path := Under(prefix, a[0]);
    AllInserted(nodes, a, prefix, explicit, hosts);
    var n := Child(nodes, a[0], path);
    ExtendedOwn(n, a[1..], path, explicit, hosts);
    Cancel(All(Insert(nodes, a, prefix, explicit, hosts)), All(nodes), Own(n), multiset(hosts));
    hide All, Insert, Own, Extended;
  }

  lemma ChildBelow(nodes: seq<TrieNode>, path: string, b: Segments)
    requires b != []
    ensures var n := Child(nodes, b[0], path);
      Below(nodes, b) == if |b| > 1 then Below(n.children, b[1..]) else Own(n)
  {
    if Find(nodes, b[0]).None? {
      AtEmpty(b[1..]);
      NewNodeEmpty(b[0], path);
    }
  }

  /** A host inserted at `a` is below exactly the prefixes of `a`. */
  lemma {:induction false} InsertBelow(
    nodes: seq<TrieNode>, a: Segments, prefix: string, explicit: bool, hosts: seq<Host>, b: Segments)
    requires a != [] && b != []
    ensures Below(Insert(nodes, a, prefix, explicit, hosts), b)
      == Below(nodes, b) + if b <= a then multiset(hosts) else multiset{}
    decreases |a|
  {
    hide At, Insert, Find, Under, Child, Own, Extended;
    InsertedAt(nodes, a, prefix, explicit, hosts, b);
    if b[0] == a[0] {
      PrefixStep(a, b);
      var path := Under(prefix, a[0]);
      var n := Child(nodes, a[0], path);
      ChildBelow(nodes, path, b);
      if |b| == 1 {
        ExtendedOwn(n, a[1..], path, explicit, hosts);
      } else if |a| == 1 {
        ExtendedInfo(n, a[1..], path, explicit, hosts);
      } else {
        ExtendedChildren(n, a[1..], path, explicit, hosts);
        InsertBelow(n.children, a[1..], path, explicit, hosts, b[1..]);
      }
    }
  }

  lemma {:induction false} GroupsBelow(groups: seq<string>, b: Segments)
    requires b != []
    ensures Below(InsertGroups([], groups), b) == multiset{} == All(InsertGroups([], groups))
  {
    if groups == [] {
      AtEmpty(b);
    } else {
      var n := |groups| - 1;
      GroupsBelow(groups[..n], b);
      var a := SegmentsOf(groups[n]);
      if a != [] {
        InsertBelow(InsertGroups([], groups[..n]), a, "", true, [], b);
        InsertAll(InsertGroups([], groups[..n]), a, "", true, []);
      }
      hide All, Below, Insert, SegmentsOf;
    }
  }

  lemma HostsUnderStep(hosts: seq<Host>, b: Segments)
    requires hosts != []
    ensures var n := |hosts| - 1;
      multiset(HostsUnder(hosts, b))
      == multiset(HostsUnder(hosts[..n], b)) + if b <= HostSegments(hosts[n]) then multiset([hosts[n]]) else multiset{}
  {
    hide HostSegments;
  }

  lemma {:induction false} HostsBelow(roots: seq<TrieNode>, hosts: seq<Host>, b: Segments)
    requires b != [] && Below(roots, b) == multiset{}
    ensures Below(InsertHosts(Built(roots, []), hosts).roots, b) == multiset(HostsUnder(hosts, b))
  {
    if hosts == [] {
      assert HostsUnder(hosts, b) == [];
    } else {
      var n := |hosts| - 1;
      HostsBelow(roots, hosts[..n], b);
      var built, a := InsertHosts(Built(roots, []), hosts[..n]), HostSegments(hosts[n]);
      if a != [] {
        InsertBelow(built.roots, a, "", false, [hosts[n]], b);
      }
      HostsUnderStep(hosts, b);
      hide Below, Insert, HostSegments, HostsUnder;
    }
  }

  lemma HostKept(built: Built, hosts: seq<Host>, h: Host)
    requires All(built.roots) + multiset(built.ungrouped) == multiset(hosts)
    ensures All(InsertHost(built, h).roots) + multiset(InsertHost(built, h).ungrouped) == multiset(hosts + [h])
  {
    var a := HostSegments(h);
    if a != [] {
      InsertAll(built.roots, a, "", false, [h]);
    }
    hide All, Insert, HostSegments;
  }

  lemma {:induction false} HostsKept(roots: seq<TrieNode>, hosts: seq<Host>)
    requires All(roots) == multiset{}
    ensures var built := InsertHosts(Built(roots, []), hosts);
      All(built.roots) + multiset(built.ungrouped) == multiset(hosts)
  {
    hide All, InsertHost, InsertHosts;
    if hosts == [] {
      NoHosts(Built(roots, []));
    } else {
      var n := |hosts| - 1;
      HostsKept(roots, hosts[..n]);
      HostKept(InsertHosts(Built(roots, []), hosts[..n]), hosts[..n], hosts[n]);
      LastHost(Built(roots, []), hosts);
      assert hosts == hosts[..n] + [hosts[n]];
    }
  }

  /** The trie and the ungrouped list hold every host once. */
  lemma TrieBelow(groups: seq<string>, hosts: seq<Host>, b: Segments)
    requires b != []
    ensures Below(BuildTrie(groups, hosts).roots, b) == multiset(HostsUnder(hosts, b))
    ensures All(BuildTrie(groups, hosts).roots) + multiset(BuildTrie(groups, hosts).ungrouped) == multiset(hosts)
  {
    GroupsBelow(groups, b);
    HostsBelow(InsertGroups([], groups), hosts, b);
    HostsKept(InsertGroups([], groups), hosts);
  }

  // ----- the comparator is a strict total order -----

  lemma RankInjective(c: char, d: char)
    requires CodeUnitRank(c) == CodeUnitRank(d)
    ensures c == d
  {
  }

  lemma {:induction false} NameTrichotomy(a: string, b: string)
    ensures NameLess(a, b) || NameLess(b, a) <==> a != b
    ensures !(NameLess(a, b) && NameLess(b, a))
  {
    if a != [] && b != [] {
      assert a == [a[0]] + a[1..] && b == [b[0]] + b[1..];
      if a[0] == b[0] {
        NameTrichotomy(a[1..], b[1..]);
      } else if CodeUnitRank(a[0]) == CodeUnitRank(b[0]) {
        RankInjective(a[0], b[0]);
      }
    }
  }

  lemma {:induction false} NameTransitive(a: string, b: string, c: string)
    requires NameLess(a, b) && NameLess(b, c)
    ensures NameLess(a, c)
  {
    if a != [] && a[0] == b[0] == c[0] {
      NameTransitive(a[1..], b[1..], c[1..]);
    }
  }

  /** Siblings, which have distinct names, are totally ordered. */
  lemma LessTrichotomy(orders: map<string, real>, l: TreeNode, r: TreeNode)
    ensures l.name != r.name ==> Less(orders, l, r) || Less(orders, r, l)
    ensures !(Less(orders, l, r) && Less(orders, r, l))
    ensures l == r ==> !Less(orders, l, r)
  {
    NameTrichotomy(l.name, r.name);
  }

  lemma LessTransitive(orders: map<string, real>, a: TreeNode, b: TreeNode, c: TreeNode)
    requires Less(orders, a, b) && Less(orders, b, c)
    ensures Less(orders, a, c)
  {
    if NameLess(a.name, b.name) && NameLess(b.name, c.name) {
      NameTransitive(a.name, b.name, c.name);
    }
  }

  ghost predicate Sorted(orders: map<string, real>, ts: seq<TreeNode>) {
    forall i, j :: 0 <= i < j < |ts| ==> Less(orders, ts[i], ts[j])
  }

  ghost predicate Distinct<T>(ts: seq<Node<T>>) {
    forall i, j :: 0 <= i < j < |ts| ==> ts[i].name != ts[j].name
  }

  lemma SortInMembers(orders: map<string, real>, n: TreeNode, sorted: seq<TreeNode>, t: TreeNode)
    ensures t in SortIn(orders, n, sorted) <==> t == n || t in sorted
  {
    assert t in SortIn(orders, n, sorted) <==> t in multiset(SortIn(orders, n, sorted));
  }

  lemma SortedCons(orders: map<string, real>, n: TreeNode, ts: seq<TreeNode>)
    requires Sorted(orders, ts) && forall t :: t in ts ==> Less(orders, n, t)
    ensures Sorted(orders, [n] + ts)
  {
    hide Less;
  }

  lemma {:induction false} SortInSorted(orders: map<string, real>, n: TreeNode, sorted: seq<TreeNode>)
    requires Sorted(orders, sorted) && forall t :: t in sorted ==> t.name != n.name
    ensures Sorted(orders, SortIn(orders, n, sorted))
  {
    hide Less;
    if sorted != [] {
      var h, rest := sorted[0], sorted[1..];
      if Less(orders, h, n) {
        SortInSorted(orders, n, rest);
        forall t | t in SortIn(orders, n, rest) ensures Less(orders, h, t) {
          SortInMembers(orders, n, rest, t);
        }
        SortedCons(orders, h, SortIn(orders, n, rest));
      } else {
        LessTrichotomy(orders, h, n);
        forall t | t in sorted ensures Less(orders, n, t) {
          if t != h {
            LessTransitive(orders, n, h, t);
          }
        }
        SortedCons(orders, n, sorted);
      }
    }
  }

  /** Two sorted lists of the same nodes are the same list. */
  lemma {:induction false} SortedUnique(orders: map<string, real>, ts: seq<TreeNode>, us: seq<TreeNode>)
    requires Sorted(orders, ts) && Sorted(orders, us)
    requires forall t :: t in ts <==> t in us
    ensures ts == us
  {
    hide Less;
    assert us != [] ==> us[0] in us;
    assert ts != [] ==> ts[0] in ts;
    if ts != [] {
      assert us != [];
      LessTrichotomy(orders, ts[0], us[0]);
      assert ts[0] == us[0];
      LessTrichotomy(orders, ts[0], ts[0]);
      forall t ensures t in ts[1..] <==> t in us[1..] {
        TailMembers(orders, ts, t);
        TailMembers(orders, us, t);
      }
      SortedUnique(orders, ts[1..], us[1..]);
      assert ts == [ts[0]] + ts[1..] && us == [us[0]] + us[1..];
    }
  }

  lemma TailMembers(orders: map<string, real>, ts: seq<TreeNode>, t: TreeNode)
    requires Sorted(orders, ts) && ts != []
    ensures t in ts[1..] <==> t in ts && t != ts[0]
  {
    hide Less;
    LessTrichotomy(orders, ts[0], ts[0]);
    assert ts == [ts[0]] + ts[1..];
    if t in ts[1..] {
      var i :| 0 <= i < |ts[1..]| && ts[1..][i] == t;
      assert t == ts[i + 1] && Less(orders, ts[0], ts[i + 1]);
    }
  }

  // ----- finalising -----

  function Finals(orders: map<string, real>, nodes: seq<TrieNode>): (r: seq<TreeNode>)
    ensures |r| == |nodes| && forall i :: 0 <= i < |nodes| ==> r[i] == FinalizeNode(orders, nodes[i])
  {
    if nodes == [] then [] else [FinalizeNode(orders, nodes[0])] + Finals(orders, nodes[1..])
  }

  lemma {:induction false} FinalizeMembers(orders: map<string, real>, nodes: seq<TrieNode>, t: TreeNode)
    ensures t in Finalize(orders, nodes) <==> t in Finals(orders, nodes)
  {
    if nodes != [] {
      hide FinalizeNode;
      FinalizeMembers(orders, nodes[1..], t);
      SortInMembers(orders, FinalizeNode(orders, nodes[0]), Finalize(orders, nodes[1..]), t);
    }
  }

  lemma {:induction false} FinalizeSorted(orders: map<string, real>, nodes: seq<TrieNode>)
    requires Distinct(nodes)
    ensures Sorted(orders, Finalize(orders, nodes))
  {
    if nodes != [] {
      hide FinalizeNode, Less;
      var n := FinalizeNode(orders, nodes[0]);
      FinalizeSorted(orders, nodes[1..]);
      forall t | t in Finalize(orders, nodes[1..]) ensures t.name != n.name {
        FinalizeMembers(orders, nodes[1..], t);
        var i :| 0 <= i < |nodes| - 1 && t == Finals(orders, nodes[1..])[i];
        assert nodes[1..][i] == nodes[i + 1];
      }
      SortInSorted(orders, n, Finalize(orders, nodes[1..]));
    }
  }

  /** Sibling names differ and every node carries its path. */
  ghost predicate Placed<T>(nodes: seq<Node<T>>, prefix: string)
    decreases nodes, 0
  {
    Distinct(nodes) && forall i :: 0 <= i < |nodes| ==> PlacedNode(nodes[i], prefix)
  }

  ghost predicate PlacedNode<T>(n: Node<T>, prefix: string)
    decreases n, 1
  {
    IsSegment(n.name) && n.path == Under(prefix, n.name) && Placed(n.children, n.path)
  }

  /** A finished forest: placed, sorted at every level, and counted. */
  ghost predicate Finished(orders: map<string, real>, ts: seq<TreeNode>, prefix: string)
    decreases ts, 0
  {
    Sorted(orders, ts) && forall i :: 0 <= i < |ts| ==> FinishedNode(orders, ts[i], prefix)
  }

  ghost predicate FinishedNode(orders: map<string, real>, t: TreeNode, prefix: string)
    decreases t, 1
  {
    && IsSegment(t.name) && t.path == Under(prefix, t.name)
    && Finished(orders, t.children, t.path) && t.total == |t.hosts| + Totals(t.children)
  }

  lemma {:induction false} FinalizeFinished(orders: map<string, real>, nodes: seq<TrieNode>, prefix: string)
    requires Placed(nodes, prefix)
    ensures Finished(orders, Finalize(orders, nodes), prefix)
    decreases nodes, 0
  {
    FinalizeSorted(orders, nodes);
    forall i | 0 <= i < |nodes| ensures FinishedNode(orders, FinalizeNode(orders, nodes[i]), prefix) {
      assert PlacedNode(nodes[i], prefix);
      FinalizeFinished(orders, nodes[i].children, nodes[i].path);
    }
    var ts := Finalize(orders, nodes);
    hide Finalize, FinalizeNode, FinishedNode, PlacedNode, Sorted;
    forall j | 0 <= j < |ts| ensures FinishedNode(orders, ts[j], prefix) {
      FinalizeMembers(orders, nodes, ts[j]);
    }
  }

  lemma FoundAt<T>(ts: seq<Node<T>>, i: nat)
    requires Distinct(ts) && i < |ts|
    ensures Find(ts, ts[i].name) == Some(i)
  {
  }

  lemma FinalizeFind(orders: map<string, real>, nodes: seq<TrieNode>, name: string)
    requires Distinct(nodes)
    ensures var f, g := Find(nodes, name), Find(Finalize(orders, nodes), name);
      && (f.None? <==> g.None?)
      && (f.Some? ==> Finalize(orders, nodes)[g.value] == FinalizeNode(orders, nodes[f.value]))
  {
    hide Finalize, FinalizeNode;
    var ts := Finalize(orders, nodes);
    var f, g := Find(nodes, name), Find(ts, name);
    if f.Some? {
      var t := Finals(orders, nodes)[f.value];
      assert t in Finals(orders, nodes);
      FinalizeMembers(orders, nodes, t);
    }
    if g.Some? {
      FinalizeMembers(orders, nodes, ts[g.value]);
      var i :| 0 <= i < |nodes| && ts[g.value] == Finals(orders, nodes)[i];
      FoundAt(nodes, i);
    }
  }

  /** Finalising keeps every node where it is. */
  lemma {:induction false} FinalizeAt(orders: map<string, real>, nodes: seq<TrieNode>, prefix: string, b: Segments)
    requires Placed(nodes, prefix)
    ensures At(Finalize(orders, nodes), b)
      == match At(nodes, b) case None => None case Some(n) => Some(FinalizeNode(orders, n))
    decreases |b|
  {
    if b != [] {
      FinalizeFind(orders, nodes, b[0]);
      var f := Find(nodes, b[0]);
      if f.Some? && |b| > 1 {
        var n := nodes[f.value];
        assert PlacedNode(n, prefix);
        FinalizeAt(orders, n.children, n.path, b[1..]);
      }
    }
  }

  lemma {:induction false} AllCons<T>(n: Node<T>, nodes: seq<Node<T>>)
    ensures All([n] + nodes) == Own(n) + All(nodes)
  {
    if nodes == [] {
      AllPushed([], n);
      assert [n] + nodes == [] + [n];
    } else {
      var k := |nodes| - 1;
      AllCons(n, nodes[..k]);
      AllPushed([n] + nodes[..k], nodes[k]);
      assert [n] + nodes == [n] + nodes[..k] + [nodes[k]];
    }
    hide Own;
  }

  lemma {:induction false} SortInTotals(orders: map<string, real>, n: TreeNode, sorted: seq<TreeNode>)
    ensures Totals(SortIn(orders, n, sorted)) == n.total + Totals(sorted)
  {
    hide Less;
    if sorted != [] && Less(orders, sorted[0], n) {
      SortInTotals(orders, n, sorted[1..]);
    }
  }

  lemma {:induction false} SortInAll(orders: map<string, real>, n: TreeNode, sorted: seq<TreeNode>)
    ensures All(SortIn(orders, n, sorted)) == Own(n) + All(sorted)
  {
    hide All, Own, Less;
    assert [n] + [] == [n];
    AllCons(n, sorted);
    if sorted != [] && Less(orders, sorted[0], n) {
      var h, r := sorted[0], SortIn(orders, n, sorted[1..]);
      SortInAll(orders, n, sorted[1..]);
      AllCons(h, r);
      AllCons(h, sorted[1..]);
      assert [h] + sorted[1..] == sorted;
      assert SortIn(orders, n, sorted) == [h] + r;
      assert Own(h) + (Own(n) + All(sorted[1..])) == Own(n) + (Own(h) + All(sorted[1..]));
    }
  }

  lemma FinalizeStep(orders: map<string, real>, nodes: seq<TrieNode>)
    requires nodes != []
    ensures var n, ts := FinalizeNode(orders, nodes[0]), Finalize(orders, nodes);
      && All(ts) == Own(n) + All(Finalize(orders, nodes[1..]))
      && Totals(ts) == n.total + Totals(Finalize(orders, nodes[1..]))
  {
    SortInTotals(orders, FinalizeNode(orders, nodes[0]), Finalize(orders, nodes[1..]));
    SortInAll(orders, FinalizeNode(orders, nodes[0]), Finalize(orders, nodes[1..]));
    hide FinalizeNode, Own, All, Totals, SortIn;
  }

  lemma FinalizeNone(orders: map<string, real>)
    ensures All(Finalize(orders, [])) == All<()>([]) == multiset{} && Totals(Finalize(orders, [])) == 0
  {
    assert Finalize(orders, []) == [];
  }

  /** Finalising keeps every host and counts them all. */
  lemma {:induction false} FinalizeTotals(orders: map<string, real>, nodes: seq<TrieNode>)
    ensures All(Finalize(orders, nodes)) == All(nodes)
    ensures Totals(Finalize(orders, nodes)) == |All(nodes)|
    decreases nodes, 0
  {
    hide Finalize, FinalizeNode, Own, All, Totals;
    if nodes == [] {
      FinalizeNone(orders);
    } else {
      FinalizeNodeTotal(orders, nodes[0]);
      FinalizeTotals(orders, nodes[1..]);
      FinalizeStep(orders, nodes);
      assert [nodes[0]] + nodes[1..] == nodes;
      AllCons(nodes[0], nodes[1..]);
    }
  }

  lemma FinalizeNodeTotal(orders: map<string, real>, n: TrieNode)
    ensures Own(FinalizeNode(orders, n)) == Own(n)
    ensures FinalizeNode(orders, n).total == |Own(n)|
    decreases n, 1
  {
    FinalizeTotals(orders, n.children);
    hide Finalize, All, Totals;
  }

  // ----- insertion places nodes -----

  lemma DistinctPushed<T>(nodes: seq<Node<T>>, n: Node<T>)
    requires Distinct(nodes) && Find(nodes, n.name).None?
    ensures Distinct(nodes + [n])
  {
  }

  lemma {:induction false} InsertPlaced(nodes: seq<TrieNode>, a: Segments, prefix: string, explicit: bool, hosts: seq<Host>)
    requires a != [] && IsPath(a) && Placed(nodes, prefix)
    ensures Placed(Insert(nodes, a, prefix, explicit, hosts), prefix)
    decreases |a|, 0
  {
    var path := Under(prefix, a[0]);
    var n := Child(nodes, a[0], path);
    var f := Find(nodes, a[0]);
    assert IsSegment(a[0]);
    assert PlacedNode(n, prefix);
    ExtendedPlaced(n, a[1..], path, explicit, hosts, prefix);
    if f.None? {
      DistinctPushed(nodes, Extended(n, a[1..], path, explicit, hosts));
    }
    hide PlacedNode, Extended, Under;
  }

  lemma ExtendedPlaced(n: TrieNode, rest: Segments, path: string, explicit: bool, hosts: seq<Host>, prefix: string)
    requires IsPath(rest) && PlacedNode(n, prefix) && path == n.path
    ensures PlacedNode(Extended(n, rest, path, explicit, hosts), prefix)
    decreases |rest|, 1
  {
    if rest != [] {
      InsertPlaced(n.children, rest, path, explicit, hosts);
    }
    hide Insert, Placed, Under;
  }

  lemma {:induction false} GroupsPlaced(groups: seq<string>)
    ensures Placed(InsertGroups([], groups), "")
  {
    if groups != [] {
      var n := |groups| - 1;
      GroupsPlaced(groups[..n]);
      var a := SegmentsOf(groups[n]);
      if a != [] {
        InsertPlaced(InsertGroups([], groups[..n]), a, "", true, []);
      }
      hide Placed, Insert, SegmentsOf;
    }
  }

  lemma {:induction false} BuiltPlaced(start: Built, hosts: seq<Host>)
    requires Placed(start.roots, "")
    ensures Placed(InsertHosts(start, hosts).roots, "")
  {
    hide Placed, Insert, HostSegments;
    if hosts != [] {
      var n := |hosts| - 1;
      BuiltPlaced(start, hosts[..n]);
      var a := HostSegments(hosts[n]);
      if a != [] {
        InsertPlaced(InsertHosts(start, hosts[..n]).roots, a, "", false, [hosts[n]]);
      }
    }
  }

  /** A placed node's path joins the segments that lead to it. */
  lemma {:induction false} PlacedAt<T>(nodes: seq<Node<T>>, p: Segments, b: Segments)
    requires Placed(nodes, Join(p)) && IsPath(p) && At(nodes, b).Some?
    ensures At(nodes, b).value.name == b[|b| - 1] && At(nodes, b).value.path == Join(p + b)
    decreases |b|
  {
    hide Join, IsPath, IsSegment, Under, Distinct;
    var n := nodes[Find(nodes, b[0]).value];
    assert PlacedNode(n, Join(p));
    UnderIsJoin(p, b[0]);
    if |b| == 1 {
      assert [b[0]] == b;
    } else {
      PlacedAt(n.children, p + [b[0]], b[1..]);
      assert p + [b[0]] + b[1..] == p + b;
    }
  }

  // ----- the finished tree -----

  /** Every host of the input is in exactly one place of the tree. */
  lemma HostsConserved(groups: seq<string>, configs: seq<GroupConfig>, hosts: seq<Host>)
    ensures var tree := Build(groups, configs, hosts);
      && All(tree.roots) + multiset(tree.ungrouped) == multiset(hosts)
      && tree.ungrouped == HostsAt(hosts, [])
  {
    hide All, BuildTrie, Finalize, HostsAt;
    TrieBelow(groups, hosts, ["x"]);
    TrieAt(groups, hosts, []);
    FinalizeTotals(OrderMap(configs), BuildTrie(groups, hosts).roots);
  }

  /** The nodes are exactly the non-empty prefixes of the input paths, each with its
      own path, its explicit mark, its hosts in input order and its full count. */
  lemma NodesAreInputPrefixes(groups: seq<string>, configs: seq<GroupConfig>, hosts: seq<Host>, b: Segments)
    ensures var found := At(Build(groups, configs, hosts).roots, b);
      && (found.Some? <==> b != [] && Mentioned(groups, hosts, b))
      && (found.Some? ==>
        && found.value.name == b[|b| - 1] && found.value.path == Join(b)
        && found.value.explicit == Explicit(groups, b) && found.value.hosts == HostsAt(hosts, b)
        && found.value.total == |HostsUnder(hosts, b)|)
  {
    var trie := BuildTrie(groups, hosts).roots;
    hide All, BuildTrie, Finalize, HostsAt, HostsUnder, Mentioned, Explicit, FinalizeNode, Placed;
    BuildPlaced(groups, hosts);
    TrieAt(groups, hosts, b);
    FinalizeAt(OrderMap(configs), trie, "", b);
    if At(trie, b).Some? {
      TrieBelow(groups, hosts, b);
      PlacedAt(trie, [], b);
      assert [] + b == b;
      FinalizeNodeTotal(OrderMap(configs), At(trie, b).value);
      assert |multiset(HostsUnder(hosts, b))| == |HostsUnder(hosts, b)|;
    }
  }

  lemma BuildPlaced(groups: seq<string>, hosts: seq<Host>)
    ensures Placed(BuildTrie(groups, hosts).roots, "")
  {
    GroupsPlaced(groups);
    BuiltPlaced(Built(InsertGroups([], groups), []), hosts);
  }

  /** Siblings are strictly sorted at every level. */
  lemma SiblingsSorted(groups: seq<string>, configs: seq<GroupConfig>, hosts: seq<Host>)
    ensures Finished(OrderMap(configs), Build(groups, configs, hosts).roots, "")
  {
    BuildPlaced(groups, hosts);
    FinalizeFinished(OrderMap(configs), BuildTrie(groups, hosts).roots, "");
  }

  // ----- one tree only -----

  lemma SortedDistinct(orders: map<string, real>, ts: seq<TreeNode>, prefix: string)
    requires Finished(orders, ts, prefix)
    ensures Distinct(ts)
  {
    forall i, j | 0 <= i < j < |ts| ensures ts[i].name != ts[j].name {
      assert FinishedNode(orders, ts[i], prefix) && FinishedNode(orders, ts[j], prefix);
      assert Less(orders, ts[i], ts[j]);
      NameTrichotomy(ts[i].name, ts[j].name);
    }
    hide Finished;
  }

  lemma ChildInfo(ts: seq<TreeNode>, t: TreeNode, b: Segments)
    requires Distinct(ts) && t in ts
    ensures InfoAt(ts, [t.name]) == Some(Info(t.explicit, t.hosts))
    ensures b != [] ==> InfoAt(ts, [t.name] + b) == InfoAt(t.children, b)
    ensures Find(ts, t.name).Some? && ts[Find(ts, t.name).value] == t
  {
    var i :| 0 <= i < |ts| && ts[i] == t;
    FoundAt(ts, i);
    assert ([t.name] + b)[1..] == b;
  }

  lemma NodeFinished(orders: map<string, real>, ts: seq<TreeNode>, prefix: string, t: TreeNode)
    requires Finished(orders, ts, prefix) && t in ts
    ensures FinishedNode(orders, t, prefix) && Distinct(ts)
  {
    SortedDistinct(orders, ts, prefix);
    hide FinishedNode, Distinct;
  }

  lemma SomeInfo(us: seq<TreeNode>, name: string)
    requires InfoAt(us, [name]).Some?
    ensures Find(us, name).Some?
  {
  }

  /** A node of one forest is a node of any other with the same entries. */
  lemma SameNode(orders: map<string, real>, ts: seq<TreeNode>, us: seq<TreeNode>, prefix: string, t: TreeNode)
    requires Finished(orders, ts, prefix) && Finished(orders, us, prefix) && t in ts
    requires forall b :: InfoAt(ts, b) == InfoAt(us, b)
    ensures t in us
    decreases ts, 0
  {
    hide InfoAt, Finished, Distinct, Less;
    NodeFinished(orders, ts, prefix, t);
    ChildInfo(ts, t, []);
    assert InfoAt(us, [t.name]) == InfoAt(ts, [t.name]);
    SomeInfo(us, t.name);
    var u := us[Find(us, t.name).value];
    NodeFinished(orders, us, prefix, u);
    ChildInfo(us, u, []);
    forall b ensures InfoAt(t.children, b) == InfoAt(u.children, b) {
      ChildInfo(ts, t, b);
      ChildInfo(us, u, b);
      assert InfoAt(ts, [t.name] + b) == InfoAt(us, [t.name] + b);
      if b == [] {
        NoInfo(t.children, u.children);
      }
    }
    TreeUnique(orders, t.children, u.children, t.path);
  }

  lemma NoInfo(ts: seq<TreeNode>, us: seq<TreeNode>)
    ensures InfoAt(ts, []) == InfoAt(us, [])
  {
  }

  lemma SameName(orders: map<string, real>, ts: seq<TreeNode>, us: seq<TreeNode>, prefix: string, u: TreeNode) returns (t: TreeNode)
    requires Finished(orders, us, prefix) && u in us
    requires forall b :: InfoAt(ts, b) == InfoAt(us, b)
    ensures t in ts && t.name == u.name
  {
    var j :| 0 <= j < |us| && us[j] == u;
    SortedDistinct(orders, us, prefix);
    FoundAt(us, j);
    assert InfoAt(ts, [u.name]) == InfoAt(us, [u.name]);
    t := ts[Find(ts, u.name).value];
  }

  lemma DistinctMembers<T>(ts: seq<Node<T>>, t: Node<T>, u: Node<T>)
    requires Distinct(ts) && t in ts && u in ts && t.name == u.name
    ensures t == u
  {
  }

  /** Finished forests with the same entries are equal. */
  lemma {:induction false} TreeUnique(orders: map<string, real>, ts: seq<TreeNode>, us: seq<TreeNode>, prefix: string)
    requires Finished(orders, ts, prefix) && Finished(orders, us, prefix)
    requires forall b :: InfoAt(ts, b) == InfoAt(us, b)
    ensures ts == us
    decreases ts, 1
  {
    assert Sorted(orders, ts) && Sorted(orders, us);
    hide InfoAt, Finished, Sorted, Distinct;
    forall t | t in ts ensures t in us {
      SameNode(orders, ts, us, prefix, t);
    }
    SortedDistinct(orders, us, prefix);
    forall u | u in us ensures u in ts {
      var t := SameName(orders, ts, us, prefix, u);
      DistinctMembers(us, t, u);
    }
    SortedUnique(orders, ts, us);
  }

  function Projections(groups: seq<string>): set<Segments> {
    set g | g in groups :: SegmentsOf(g)
  }

  lemma SameRequests(groups: seq<string>, groups': seq<string>, hosts: seq<Host>, b: Segments)
    requires Projections(groups) <= Projections(groups')
    ensures Mentioned(groups, hosts, b) ==> Mentioned(groups', hosts, b)
    ensures Explicit(groups, b) ==> Explicit(groups', b)
  {
    hide SegmentsOf, HostSegments;
    forall g | g in groups ensures exists g' :: g' in groups' && SegmentsOf(g') == SegmentsOf(g) {
      assert SegmentsOf(g) in Projections(groups);
      assert SegmentsOf(g) in Projections(groups');
    }
    if g :| g in groups && b <= SegmentsOf(g) {
      var g' :| g' in groups' && SegmentsOf(g') == SegmentsOf(g);
      assert Mentioned(groups', hosts, b);
    }
  }

  /** The tree depends on the set of projected explicit groups only: permuting or
      repeating them gives the identical tree. */
  lemma GroupOrderIrrelevant(groups: seq<string>, groups': seq<string>, configs: seq<GroupConfig>, hosts: seq<Host>)
    requires Projections(groups) == Projections(groups')
    ensures Build(groups, configs, hosts) == Build(groups', configs, hosts)
  {
    var roots, roots' := Build(groups, configs, hosts).roots, Build(groups', configs, hosts).roots;
    forall b ensures InfoAt(roots, b) == InfoAt(roots', b) {
      NodesAreInputPrefixes(groups, configs, hosts, b);
      NodesAreInputPrefixes(groups', configs, hosts, b);
      SameRequests(groups, groups', hosts, b);
      SameRequests(groups', groups, hosts, b);
    }
    SiblingsSorted(groups, configs, hosts);
    SiblingsSorted(groups', configs, hosts);
    HostsConserved(groups, configs, hosts);
    HostsConserved(groups', configs, hosts);
    hide Build, InfoAt, At, Finished, Mentioned, Explicit;
    TreeUnique(OrderMap(configs), roots, roots', "");
  }
}
