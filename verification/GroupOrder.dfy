/** The order of siblings in src/groupTree.ts, told on orders and UTF-16 code units. */
module GroupOrder {
  import opened Text
  import opened GroupPaths
  import opened GroupTree

  /** The UTF-16 code units of a scalar value (section 2.1 of RFC 2781). */
  ghost function CharUnits(c: char): seq<nat> {
    var code := c as int;
    if code < 0x10000 then [code] else [0xd800 + (code - 0x10000) / 0x400, 0xdc00 + (code - 0x10000) % 0x400]
  }

  ghost function Units(s: string): seq<nat> {
    if s == "" then [] else CharUnits(s[0]) + Units(s[1..])
  }

  /** The first difference decides; a proper prefix comes first. */
  ghost predicate UnitsLess(a: seq<nat>, b: seq<nat>) {
    exists k :: 0 <= k <= |a| && DiffersAt(a, b, k)
  }

  ghost predicate DiffersAt(a: seq<nat>, b: seq<nat>, k: nat) {
    k <= |a| && k < |b| && a[..k] == b[..k] && (k == |a| || a[k] < b[k])
  }

  lemma UnitsLessCons(p: seq<nat>, a: seq<nat>, b: seq<nat>)
    ensures UnitsLess(p + a, p + b) <==> UnitsLess(a, b)
  {
    if UnitsLess(a, b) {
      var k :| 0 <= k <= |a| && DiffersAt(a, b, k);
      assert (p + a)[..|p| + k] == p + a[..k] && (p + b)[..|p| + k] == p + b[..k];
      assert DiffersAt(p + a, p + b, |p| + k);
    }
    if UnitsLess(p + a, p + b) {
      var k :| 0 <= k <= |p + a| && DiffersAt(p + a, p + b, k);
      assert forall i :: 0 <= i < |p| ==> (p + a)[i] == (p + b)[i];
      assert (p + a)[..k][|p|..] == a[..k - |p|] && (p + b)[..k][|p|..] == b[..k - |p|];
      assert DiffersAt(a, b, k - |p|);
    }
  }

  /** Two different characters are decided within their own units. */
  lemma CharsDiffer(c: char, d: char, a: seq<nat>, b: seq<nat>)
    requires c != d
    ensures UnitsLess(CharUnits(c) + a, CharUnits(d) + b) <==> CodeUnitRank(c) < CodeUnitRank(d)
  {
    var x, y := CharUnits(c) + a, CharUnits(d) + b;
    if x[0] == y[0] {
      SameLead(c, d);
      FirstTwoDecide(x, y);
    } else {
      FirstDecides(x, y);
      LeadDecides(c, d);
    }
  }

  lemma SameLead(c: char, d: char)
    requires c != d && CharUnits(c)[0] == CharUnits(d)[0]
    ensures |CharUnits(c)| == 2 && |CharUnits(d)| == 2 && CharUnits(c)[1] != CharUnits(d)[1]
    ensures CharUnits(c)[1] < CharUnits(d)[1] <==> CodeUnitRank(c) < CodeUnitRank(d)
  {
    var m, n := c as int - 0x10000, d as int - 0x10000;
    if m >= 0 && n >= 0 {
      assert m == m / 0x400 * 0x400 + m % 0x400 && n == n / 0x400 * 0x400 + n % 0x400;
    }
  }

  lemma LeadDecides(c: char, d: char)
    requires CharUnits(c)[0] != CharUnits(d)[0]
    ensures CharUnits(c)[0] < CharUnits(d)[0] <==> CodeUnitRank(c) < CodeUnitRank(d)
  {
  }

  lemma FirstDecides(x: seq<nat>, y: seq<nat>)
    requires x != [] && y != [] && x[0] != y[0]
    ensures UnitsLess(x, y) <==> x[0] < y[0]
  {
    if x[0] < y[0] {
      assert DiffersAt(x, y, 0);
    }
    if UnitsLess(x, y) {
      var k :| 0 <= k <= |x| && DiffersAt(x, y, k);
      assert forall i :: 0 <= i < k ==> x[..k][i] == x[i] && y[..k][i] == y[i];
    }
  }

  lemma FirstTwoDecide(x: seq<nat>, y: seq<nat>)
    requires |x| >= 2 && |y| >= 2 && x[0] == y[0] && x[1] != y[1]
    ensures UnitsLess(x, y) <==> x[1] < y[1]
  {
    assert x == [x[0]] + x[1..] && y == [x[0]] + y[1..];
    UnitsLessCons([x[0]], x[1..], y[1..]);
    FirstDecides(x[1..], y[1..]);
  }

  /** Names are compared by UTF-16 code units. */
  lemma {:induction false} NameLessExactly(a: string, b: string)
    ensures NameLess(a, b) <==> UnitsLess(Units(a), Units(b))
  {
    if b == "" {
      assert forall k :: !DiffersAt(Units(a), [], k);
    } else if a == "" {
      assert DiffersAt([], Units(b), 0);
    } else if a[0] == b[0] {
      NameLessExactly(a[1..], b[1..]);
      UnitsLessCons(CharUnits(a[0]), Units(a[1..]), Units(b[1..]));
    } else {
      CharsDiffer(a[0], b[0], Units(a[1..]), Units(b[1..]));
    }
  }

  ghost function OrderOf(orders: map<string, real>, t: TreeNode): Option<real> {
    if t.path in orders then Some(orders[t.path]) else None
  }

  /** Of two siblings the earlier one has an order if the later one has one, and then not a
      greater one; with the same order, or without any, its name is less. */
  ghost predicate Precedes(orders: map<string, real>, l: TreeNode, r: TreeNode) {
    && (OrderOf(orders, r).Some? ==> OrderOf(orders, l).Some? && OrderOf(orders, l).value <= OrderOf(orders, r).value)
    && (OrderOf(orders, l) == OrderOf(orders, r) ==> UnitsLess(Units(l.name), Units(r.name)))
  }

  lemma LessPrecedes(orders: map<string, real>, l: TreeNode, r: TreeNode)
    requires Less(orders, l, r)
    ensures Precedes(orders, l, r)
  {
    NameLessExactly(l.name, r.name);
    hide NameLess, UnitsLess, Units;
  }

  /** The siblings below a path, or the roots. */
  ghost function Siblings(ts: seq<TreeNode>, b: Segments): seq<TreeNode> {
    if b == [] then ts
    else
      match At(ts, b)
      case None => []
      case Some(n) => n.children
  }

  lemma {:induction false} FinishedSiblings(orders: map<string, real>, ts: seq<TreeNode>, prefix: string, b: Segments)
    requires Finished(orders, ts, prefix)
    ensures Sorted(orders, Siblings(ts, b))
    decreases |b|
  {
    hide Sorted, Less, Under;
    if b != [] && Find(ts, b[0]).Some? {
      var n := ts[Find(ts, b[0]).value];
      assert FinishedNode(orders, n, prefix);
      FinishedSiblings(orders, n.children, n.path, b[1..]);
      assert Siblings(n.children, b[1..]) == Siblings(ts, b);
    } else if b != [] {
      NoneSorted(orders);
    }
  }

  lemma NoneSorted(orders: map<string, real>)
    ensures Sorted(orders, [])
  {
  }

  /** At every level of the tree. */
  lemma SiblingOrder(groups: seq<string>, configs: seq<GroupConfig>, hosts: seq<Host>, b: Segments, i: nat, j: nat)
    requires var ts := Siblings(Build(groups, configs, hosts).roots, b); i < j < |ts|
    ensures var ts := Siblings(Build(groups, configs, hosts).roots, b);
      Precedes(OrderMap(configs), ts[i], ts[j])
  {
    hide Finished, Less, Precedes, Build, Siblings;
    SiblingsSorted(groups, configs, hosts);
    FinishedSiblings(OrderMap(configs), Build(groups, configs, hosts).roots, "", b);
    var ts := Siblings(Build(groups, configs, hosts).roots, b);
    LessPrecedes(OrderMap(configs), ts[i], ts[j]);
  }

  // ----- the orders -----

  /** A config that gives this path an order. */
  ghost predicate Gives(c: GroupConfig, path: string) {
    path != "" && Project(c.path) == path && c.order.Some?
  }

  ghost predicate LastGiving(configs: seq<GroupConfig>, k: nat, path: string) {
    k < |configs| && Gives(configs[k], path) && forall l :: k < l < |configs| ==> !Gives(configs[l], path)
  }

  lemma OrderStep(configs: seq<GroupConfig>, path: string)
    requires configs != []
    ensures var c, rest := configs[|configs| - 1], OrderMap(configs[..|configs| - 1]);
      && (path in OrderMap(configs) <==> Gives(c, path) || path in rest)
      && (Gives(c, path) ==> path in OrderMap(configs) && c.order == Some(OrderMap(configs)[path]))
      && (!Gives(c, path) && path in rest ==> OrderMap(configs)[path] == rest[path])
  {
    hide Project;
  }

  /** Of several configs that give a path an order the last one counts. */
  lemma {:induction false} OrderExactly(configs: seq<GroupConfig>, path: string)
    ensures if path in OrderMap(configs) then
        exists k: nat :: LastGiving(configs, k, path) && configs[k].order == Some(OrderMap(configs)[path])
      else forall k :: 0 <= k < |configs| ==> !Gives(configs[k], path)
  {
    hide Gives;
    if configs != [] {
      var n := |configs| - 1;
      OrderExactly(configs[..n], path);
      OrderStep(configs, path);
      hide OrderMap;
      assert forall k :: 0 <= k < n ==> configs[..n][k] == configs[k];
      if Gives(configs[n], path) {
        assert LastGiving(configs, n, path);
      } else if path in OrderMap(configs) {
        var k: nat :| LastGiving(configs[..n], k, path) && configs[..n][k].order == Some(OrderMap(configs[..n])[path]);
        assert LastGiving(configs, k, path);
      }
    }
  }
}
