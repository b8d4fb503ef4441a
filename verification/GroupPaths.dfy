/** Group paths of src/groupTree.ts: projection to segments and back, and the
    planning of creations, renames and moves with their collision checks. */
module GroupPaths {
  import opened Text

  type Segments = seq<string>

  /** `path.split("/")` */
  function Split(s: string): (r: seq<string>)
    ensures |r| >= 1
    ensures forall i :: 0 <= i < |r| ==> '/' !in r[i]
  {
    if s == [] then [""]
    else
      var rest := Split(s[1..]);
      if s[0] == '/' then [""] + rest else [[s[0]] + rest[0]] + rest[1..]
  }

  /** `filter((segment) => segment.length > 0)` */
  function NonEmpty(xs: seq<string>): (r: seq<string>)
    ensures forall i :: 0 <= i < |r| ==> r[i] != "" && r[i] in xs
  {
    if xs == [] then [] else (if xs[0] == "" then [] else [xs[0]]) + NonEmpty(xs[1..])
  }

  /** `join("/")` */
  function Join(xs: seq<string>): string {
    if xs == [] then "" else if |xs| == 1 then xs[0] else xs[0] + ['/'] + Join(xs[1..])
  }

  predicate IsSegment(s: string) {
    s != "" && '/' !in s
  }

  /** Segment lists a projection can produce. */
  predicate IsPath(a: Segments) {
    forall i :: 0 <= i < |a| ==> IsSegment(a[i])
  }

  /** `groupPathSegments` */
  function SegmentsOf(path: string): (r: Segments)
    ensures IsPath(r)
  {
    NonEmpty(Split(path))
  }

  /** `projectedGroupPath` */
  function Project(path: string): string {
    Join(SegmentsOf(path))
  }

  /** `isPathAtOrBelow` */
  predicate AtOrBelow(path: string, root: string) {
    path == root || root + ['/'] <= path
  }

  // ----- projection and segments agree -----

  lemma SplitCons(c: char, t: string)
    ensures Split([c] + t) == if c == '/' then [""] + Split(t) else [[c] + Split(t)[0]] + Split(t)[1..]
  {
    assert ([c] + t)[1..] == t;
  }

  lemma HeadAppend(c: char, x: seq<string>, y: seq<string>)
    requires x != []
    ensures [[c] + (x + y)[0]] + (x + y)[1..] == [[c] + x[0]] + x[1..] + y
    ensures [""] + (x + y) == [""] + x + y
  {
    assert (x + y)[0] == x[0] && (x + y)[1..] == x[1..] + y;
  }

  lemma ConsConcat(a: string, b: string)
    requires a != []
    ensures a == [a[0]] + a[1..] && a + ['/'] + b == [a[0]] + (a[1..] + ['/'] + b)
  {
  }

  lemma {:induction false} SplitConcat(a: string, b: string)
    ensures Split(a + ['/'] + b) == Split(a) + Split(b)
  {
    if a == [] {
      assert a + ['/'] + b == ['/'] + b;
      SplitCons('/', b);
    } else {
      var c, t := a[0], a[1..];
      hide Split;
      ConsConcat(a, b);
      SplitConcat(t, b);
      SplitCons(c, t);
      SplitCons(c, t + ['/'] + b);
      HeadAppend(c, Split(t), Split(b));
    }
  }

  lemma {:induction false} SplitSegment(s: string)
    requires '/' !in s
    ensures Split(s) == [s]
  {
    if s != [] {
      assert s[0] in s;
      SplitSegment(s[1..]);
      assert [s[0]] + s[1..] == s;
    }
  }

  lemma {:induction false} SplitJoin(a: Segments)
    requires a != [] && IsPath(a)
    ensures Split(Join(a)) == a
  {
    if |a| == 1 {
      SplitSegment(a[0]);
    } else {
      SplitConcat(a[0], Join(a[1..]));
      SplitSegment(a[0]);
      SplitJoin(a[1..]);
    }
  }

  lemma {:induction false} NonEmptyPath(a: Segments)
    requires IsPath(a)
    ensures NonEmpty(a) == a
  {
    if a != [] {
      NonEmptyPath(a[1..]);
    }
  }

  /** Joining and projecting again is the identity on segment lists. */
  lemma SegmentsOfJoin(a: Segments)
    requires IsPath(a)
    ensures SegmentsOf(Join(a)) == a
  {
    if a == [] {
      assert Split("") == [""];
    } else {
      SplitJoin(a);
      NonEmptyPath(a);
    }
  }

  lemma JoinInjective(a: Segments, b: Segments)
    requires IsPath(a) && IsPath(b) && Join(a) == Join(b)
    ensures a == b
  {
    SegmentsOfJoin(a);
    SegmentsOfJoin(b);
  }

  lemma {:induction false} JoinConcat(a: Segments, b: Segments)
    requires a != [] && b != []
    ensures Join(a + b) == Join(a) + ['/'] + Join(b)
  {
    if |a| == 1 {
      assert (a + b)[1..] == b;
    } else {
      assert (a + b)[1..] == a[1..] + b;
      JoinConcat(a[1..], b);
    }
  }

  /** What follows a root inside one of its descendants. */
  function Below(rest: Segments): string {
    if rest == [] then "" else ['/'] + Join(rest)
  }

  lemma JoinUnder(root: Segments, rest: Segments)
    requires root != []
    ensures Join(root + rest) == Join(root) + Below(rest)
  {
    if rest == [] {
      assert root + rest == root;
    } else {
      JoinConcat(root, rest);
    }
  }

  lemma StringPrefixSplits(a: Segments, root: Segments)
    requires IsPath(a) && IsPath(root) && root != [] && Join(root) + ['/'] <= Join(a)
    ensures root <= a
  {
    var p, r := Join(a), Join(root);
    assert a != [] by {
      assert Join([]) == "";
    }
    hide Join, Split, IsPath;
    var rest := p[|r| + 1..];
    assert p == r + ['/'] + rest;
    SplitConcat(r, rest);
    SplitJoin(root);
    SplitJoin(a);
  }

  /** The string prefix test is the prefix test on segments. */
  lemma AtOrBelowIsPrefix(a: Segments, root: Segments)
    requires IsPath(a) && IsPath(root) && root != []
    ensures AtOrBelow(Join(a), Join(root)) <==> root <= a
  {
    if root <= a {
      JoinUnder(root, a[|root|..]);
      assert root + a[|root|..] == a;
    }
    hide Join, IsPath;
    if Join(a) == Join(root) {
      JoinInjective(a, root);
    } else if Join(root) + ['/'] <= Join(a) {
      StringPrefixSplits(a, root);
    }
  }

  // ----- planning -----

  datatype ChangeError = Required | InvalidSeparator | SourceRequired | Descendant | Collision | Unchanged

  datatype Change = Accepted(nextPath: string) | Refused(error: ChangeError)

  /** `parentGroupPath` */
  function ParentPath(path: string): string {
    var a := SegmentsOf(path);
    if a == [] then "" else Join(a[..|a| - 1])
  }

  /** `validateGroupLeafName`, with the trimmed name on success. */
  function LeafName(rawName: string): Change {
    var name := Trim(rawName);
    if name == "" then Refused(Required)
    else if '/' in name || '\\' in name then Refused(InvalidSeparator)
    else Accepted(name)
  }

  function Under(parent: string, leaf: string): string {
    if parent == "" then leaf else parent + ['/'] + leaf
  }

  /** `Array.from(paths, projectedGroupPath).filter(Boolean)` as a set */
  function ProjectedPaths(existing: seq<string>): set<string> {
    set p | p in existing && Project(p) != "" :: Project(p)
  }

  /** The new path of a path when `source` becomes `next`. */
  function Moved(source: string, next: string, path: string): string {
    if AtOrBelow(path, source) then next + path[|source|..] else path
  }

  /** `collisionAfterPathChange` */
  predicate Collides(source: string, next: string, existing: seq<string>) {
    var paths := ProjectedPaths(existing);
    exists p :: p in paths && AtOrBelow(p, source)
      && Moved(source, next, p) in paths && !AtOrBelow(Moved(source, next, p), source)
  }

  /** `planGroupCreation`; an absent parent is the empty string. */
  function PlanCreation(parentPath: string, rawLeafName: string, existing: seq<string>): Change {
    match LeafName(rawLeafName)
    case Refused(e) => Refused(e)
    case Accepted(leaf) =>
      var next := Under(Project(parentPath), leaf);
      if next in ProjectedPaths(existing) then Refused(Collision) else Accepted(next)
  }

  /** `planGroupRename` */
  function PlanRename(sourceValue: string, rawLeafName: string, existing: seq<string>): Change {
    var source := Project(sourceValue);
    if source == "" then Refused(SourceRequired)
    else
      match LeafName(rawLeafName)
      case Refused(e) => Refused(e)
      case Accepted(leaf) =>
        var next := Under(ParentPath(source), leaf);
        if next == source then Refused(Unchanged)
        else if Collides(source, next, existing) then Refused(Collision)
        else Accepted(next)
  }

  /** `planGroupMove`; moving to the root is the empty target. */
  function PlanMove(sourceValue: string, targetParentValue: string, existing: seq<string>): Change {
    var source := Project(sourceValue);
    var a := SegmentsOf(source);
    if source == "" || a == [] then Refused(SourceRequired)
    else
      var target := Project(targetParentValue);
      if target != "" && AtOrBelow(target, source) then Refused(Descendant)
      else
        var next := Under(target, a[|a| - 1]);
        if next == source then Refused(Unchanged)
        else if Collides(source, next, existing) then Refused(Collision)
        else Accepted(next)
  }

  // ----- the change on segment lists -----

  function MovedSegments(source: Segments, next: Segments, a: Segments): Segments {
    if source <= a then next + a[|source|..] else a
  }

  ghost predicate Closed(paths: set<Segments>) {
    forall a, k :: a in paths && 1 <= k <= |a| ==> a[..k] in paths
  }

  /** A change the planners accept, seen on segment lists: `next` hangs under the
      root or an existing parent outside the source, and nothing collides. */
  ghost predicate SoundChange(paths: set<Segments>, source: Segments, next: Segments) {
    && Closed(paths) && source in paths && source != [] && next != [] && next != source
    && (|next| > 1 ==> next[..|next| - 1] in paths && !(source <= next[..|next| - 1]))
    && (forall a :: a in paths && source <= a ==>
          !(next + a[|source|..] in paths && !(source <= next + a[|source|..])))
  }

  lemma NextNotBelowSource(paths: set<Segments>, source: Segments, next: Segments)
    requires SoundChange(paths, source, next)
    ensures !(source <= next)
  {
    var parent := next[..|next| - 1];
    assert |source| < |next| ==> next[..|source|] == parent[..|source|];
  }

  lemma NextNotThere(paths: set<Segments>, source: Segments, next: Segments)
    requires SoundChange(paths, source, next)
    ensures next !in paths
  {
    NextNotBelowSource(paths, source, next);
    assert next + source[|source|..] == next;
  }

  /** No existing path is at or below the new path. */
  lemma NextIsFree(paths: set<Segments>, source: Segments, next: Segments, a: Segments)
    requires SoundChange(paths, source, next) && a in paths
    ensures !(next <= a)
  {
    assert next <= a ==> a[..|next|] == next;
    assert |next| <= |a| ==> a[..|next|] in paths;
    NextNotThere(paths, source, next);
  }

  lemma MovedLeavesSource(paths: set<Segments>, source: Segments, next: Segments, a: Segments)
    requires SoundChange(paths, source, next) && a in paths
    ensures !(source <= MovedSegments(source, next, a))
  {
    NextNotBelowSource(paths, source, next);
    NextIsFree(paths, source, next, source);
    if source <= a {
      var m := next + a[|source|..];
      assert next == m[..|next|];
      assert |next| <= |source| <= |m| ==> m[..|source|][..|next|] == next;
      assert |source| <= |next| ==> m[..|source|] == next[..|source|];
    }
  }

  ghost function MovedSet(paths: set<Segments>, source: Segments, next: Segments): set<Segments> {
    set a | a in paths :: MovedSegments(source, next, a)
  }

  lemma MovedClosed(paths: set<Segments>, source: Segments, next: Segments)
    requires SoundChange(paths, source, next)
    ensures Closed(MovedSet(paths, source, next))
  {
    forall m, k | m in MovedSet(paths, source, next) && 1 <= k <= |m|
      ensures m[..k] in MovedSet(paths, source, next)
    {
      var a :| a in paths && m == MovedSegments(source, next, a);
      if !(source <= a) {
        assert !(source <= a[..k]);
        assert MovedSegments(source, next, a[..k]) == m[..k];
      } else if k >= |next| {
        var j := |source| + k - |next|;
        assert a[..j] in paths && source <= a[..j];
        assert a[..j][|source|..] == a[|source|..][..k - |next|];
        assert MovedSegments(source, next, a[..j]) == m[..k];
      } else {
        var parent := next[..|next| - 1];
        assert m[..k] == parent[..k] && parent[..k] in paths;
        assert !(source <= parent[..k]);
        assert MovedSegments(source, next, parent[..k]) == m[..k];
      }
    }
  }

  // ----- back to strings -----

  ghost predicate AncestorClosed(paths: set<string>) {
    forall p, k :: p in paths && 1 <= k <= |SegmentsOf(p)| ==> Join(SegmentsOf(p)[..k]) in paths
  }

  ghost function SegmentSet(paths: set<string>): set<Segments> {
    set p | p in paths :: SegmentsOf(p)
  }

  lemma ProjectedIsJoin(existing: seq<string>, p: string)
    requires p in ProjectedPaths(existing)
    ensures p == Join(SegmentsOf(p)) && SegmentsOf(p) != []
  {
    var x :| x in existing && Project(x) != "" && p == Project(x);
    SegmentsOfJoin(SegmentsOf(x));
  }

  lemma SegmentSetHas(existing: seq<string>, a: Segments)
    requires IsPath(a) && a != []
    ensures a in SegmentSet(ProjectedPaths(existing)) <==> Join(a) in ProjectedPaths(existing)
  {
    SegmentsOfJoin(a);
    if a in SegmentSet(ProjectedPaths(existing)) {
      var p :| p in ProjectedPaths(existing) && a == SegmentsOf(p);
      ProjectedIsJoin(existing, p);
    }
  }

  lemma PrefixIsPath(a: Segments, k: nat)
    requires IsPath(a) && k <= |a|
    ensures IsPath(a[..k]) && IsPath(a[k..])
  {
  }

  lemma SegmentSetClosed(existing: seq<string>)
    requires AncestorClosed(ProjectedPaths(existing))
    ensures Closed(SegmentSet(ProjectedPaths(existing)))
  {
    var paths := ProjectedPaths(existing);
    forall a, k | a in SegmentSet(paths) && 1 <= k <= |a|
      ensures a[..k] in SegmentSet(paths)
    {
      var p :| p in paths && a == SegmentsOf(p);
      PrefixIsPath(a, k);
      SegmentSetHas(existing, a[..k]);
    }
  }

  /** The slice arithmetic of the change is the change on segments. */
  lemma MovedIsJoin(source: Segments, next: Segments, a: Segments)
    requires IsPath(source) && IsPath(next) && IsPath(a) && source != [] && next != []
    ensures Moved(Join(source), Join(next), Join(a)) == Join(MovedSegments(source, next, a))
    ensures IsPath(MovedSegments(source, next, a))
  {
    AtOrBelowIsPrefix(a, source);
    if source <= a {
      var rest := a[|source|..];
      assert a == source + rest;
      JoinUnder(source, rest);
      JoinUnder(next, rest);
    }
  }

  lemma UnderIsJoin(parent: Segments, leaf: string)
    requires IsPath(parent) && IsSegment(leaf)
    ensures Under(Join(parent), leaf) == Join(parent + [leaf]) && IsPath(parent + [leaf])
  {
    if parent == [] {
      assert [] + [leaf] == [leaf];
    } else {
      assert Join(parent) != "" by {
        SegmentsOfJoin(parent);
        SegmentsOfJoin([]);
      }
      JoinConcat(parent, [leaf]);
    }
  }

  /** A change as the planners accept it: the new path hangs a leaf under the root
      or an existing parent outside the source, differs from it, and collides with
      nothing. */
  ghost predicate AcceptedChange(existing: seq<string>, source: string, next: string) {
    var paths := ProjectedPaths(existing);
    && AncestorClosed(paths) && source in paths && next != source && !Collides(source, next, existing)
    && exists parent: Segments, leaf: string ::
      IsPath(parent) && IsSegment(leaf) && next == Join(parent + [leaf])
      && (parent != [] ==> Join(parent) in paths && !AtOrBelow(Join(parent), source))
  }

  lemma AcceptedIsSound(existing: seq<string>, source: string, next: string)
    requires AcceptedChange(existing, source, next)
    ensures source == Join(SegmentsOf(source)) && next == Join(SegmentsOf(next))
    ensures SoundChange(SegmentSet(ProjectedPaths(existing)), SegmentsOf(source), SegmentsOf(next))
  {
    var parent: Segments, leaf: string :| IsPath(parent) && IsSegment(leaf) && next == Join(parent + [leaf])
      && (parent != [] ==> Join(parent) in ProjectedPaths(existing) && !AtOrBelow(Join(parent), source));
    UnderIsJoin(parent, leaf);
    SegmentsOfJoin(parent + [leaf]);
    ProjectedIsJoin(existing, source);
    SegmentSetClosed(existing);
    var s, n := SegmentsOf(source), SegmentsOf(next);
    assert n == parent + [leaf] && n[..|n| - 1] == parent;
    if parent != [] {
      SegmentSetHas(existing, parent);
      AtOrBelowIsPrefix(parent, s);
    }
    forall a | a in SegmentSet(ProjectedPaths(existing)) && s <= a
      ensures !(n + a[|s|..] in SegmentSet(ProjectedPaths(existing)) && !(s <= n + a[|s|..]))
    {
      NoSegmentCollision(existing, source, next, a);
    }
  }

  lemma NoSegmentCollision(existing: seq<string>, source: string, next: string, a: Segments)
    requires !Collides(source, next, existing) && source in ProjectedPaths(existing)
    requires next == Join(SegmentsOf(next)) && SegmentsOf(next) != []
    requires a in SegmentSet(ProjectedPaths(existing)) && SegmentsOf(source) <= a
    ensures var m := SegmentsOf(next) + a[|SegmentsOf(source)|..];
      m in SegmentSet(ProjectedPaths(existing)) ==> SegmentsOf(source) <= m
  {
    var s, n := SegmentsOf(source), SegmentsOf(next);
    var p :| p in ProjectedPaths(existing) && a == SegmentsOf(p);
    ProjectedIsJoin(existing, p);
    ProjectedIsJoin(existing, source);
    var m := MovedSegments(s, n, a);
    MovedIsJoin(s, n, a);
    AtOrBelowIsPrefix(a, s);
    AtOrBelowIsPrefix(m, s);
    if m in SegmentSet(ProjectedPaths(existing)) {
      SegmentSetHas(existing, m);
    }
  }

  lemma AcceptedRename(sourceValue: string, rawLeafName: string, existing: seq<string>)
    requires PlanRename(sourceValue, rawLeafName, existing).Accepted?
    ensures LeafName(rawLeafName).Accepted? && IsSegment(LeafName(rawLeafName).nextPath)
    ensures var source, next := Project(sourceValue), PlanRename(sourceValue, rawLeafName, existing).nextPath;
      && next == Under(ParentPath(source), LeafName(rawLeafName).nextPath)
      && next != source && !Collides(source, next, existing)
  {
    hide Collides, Project, Trim, ParentPath, Under;
  }

  lemma ParentOf(s: Segments)
    requires IsPath(s) && s != []
    ensures IsPath(s[..|s| - 1]) && ParentPath(Join(s)) == Join(s[..|s| - 1])
    ensures s[..|s| - 1] != [] ==> !AtOrBelow(Join(s[..|s| - 1]), Join(s))
  {
    PrefixIsPath(s, |s| - 1);
    SegmentsOfJoin(s);
    if s[..|s| - 1] != [] {
      AtOrBelowIsPrefix(s[..|s| - 1], s);
    }
  }

  /** An accepted rename is such a change. */
  lemma RenameIsAccepted(sourceValue: string, rawLeafName: string, existing: seq<string>)
    requires AncestorClosed(ProjectedPaths(existing)) && Project(sourceValue) in ProjectedPaths(existing)
    requires PlanRename(sourceValue, rawLeafName, existing).Accepted?
    ensures AcceptedChange(existing, Project(sourceValue), PlanRename(sourceValue, rawLeafName, existing).nextPath)
  {
    var source := Project(sourceValue);
    var leaf := LeafName(rawLeafName).nextPath;
    ProjectedIsJoin(existing, source);
    var s := SegmentsOf(source);
    AcceptedRename(sourceValue, rawLeafName, existing);
    ParentOf(s);
    UnderIsJoin(s[..|s| - 1], leaf);
    hide Collides, Project, LeafName, PlanRename, ParentPath, Under, Join, AtOrBelow, SegmentsOf, ProjectedPaths, IsPath;
  }

  /** An accepted move to the root or to an existing parent is such a change. */
  lemma MoveIsAccepted(sourceValue: string, targetParentValue: string, existing: seq<string>)
    requires AncestorClosed(ProjectedPaths(existing)) && Project(sourceValue) in ProjectedPaths(existing)
    requires Project(targetParentValue) == "" || Project(targetParentValue) in ProjectedPaths(existing)
    requires PlanMove(sourceValue, targetParentValue, existing).Accepted?
    ensures AcceptedChange(existing, Project(sourceValue), PlanMove(sourceValue, targetParentValue, existing).nextPath)
  {
    var source := Project(sourceValue);
    ProjectedIsJoin(existing, source);
    var s := SegmentsOf(source);
    var parent := SegmentsOf(targetParentValue);
    assert IsSegment(s[|s| - 1]);
    UnderIsJoin(parent, s[|s| - 1]);
    if parent != [] {
      SegmentsOfJoin(parent);
      assert Join(parent) != "" by {
        SegmentsOfJoin([]);
      }
    }
  }

  // ----- what a change does to any set of paths -----

  lemma MovedBelow(source: string, next: string, p: string)
    requires AtOrBelow(p, source)
    ensures Moved(source, next, p) == next + p[|source|..]
    ensures AtOrBelow(Moved(source, next, p), next) && Moved(source, next, p)[|next|..] == p[|source|..]
    ensures p == source + p[|source|..]
  {
    var m := next + p[|source|..];
    if p != source {
      assert p[|source|] == '/';
      assert m[..|next| + 1] == next + ['/'];
    }
  }

  /** Where nothing collides a change maps existing paths injectively, with no
      further condition on the set. */
  lemma ChangeInjective(existing: seq<string>, source: string, next: string, p: string, q: string)
    requires !Collides(source, next, existing)
    requires p in ProjectedPaths(existing) && q in ProjectedPaths(existing)
    requires Moved(source, next, p) == Moved(source, next, q)
    ensures p == q
  {
    hide ProjectedPaths;
    if AtOrBelow(p, source) {
      MovedBelow(source, next, p);
    }
    if AtOrBelow(q, source) {
      MovedBelow(source, next, q);
    }
  }

  lemma UndoneAt(source: string, next: string, p: string)
    requires next != source
    ensures Moved(next, source, Moved(source, next, p)) == p <==> (AtOrBelow(p, next) ==> AtOrBelow(p, source))
  {
    if AtOrBelow(p, source) {
      MovedBelow(source, next, p);
      MovedBelow(next, source, Moved(source, next, p));
    } else if AtOrBelow(p, next) {
      MovedBelow(next, source, p);
      assert (source + p[|next|..])[..|source|] == source;
      assert (next + p[|next|..])[..|next|] == next;
    }
  }

  /** Mapping the new path back to the old undoes a change of any set of paths
      exactly when nothing outside the source is at or below the new path. */
  lemma UndoExact(existing: seq<string>, source: string, next: string)
    requires next != source
    ensures (forall p :: p in ProjectedPaths(existing) ==> Moved(next, source, Moved(source, next, p)) == p)
      <==> (forall p :: p in ProjectedPaths(existing) && AtOrBelow(p, next) ==> AtOrBelow(p, source))
  {
    forall p ensures Moved(next, source, Moved(source, next, p)) == p <==> (AtOrBelow(p, next) ==> AtOrBelow(p, source)) {
      UndoneAt(source, next, p);
    }
    hide Moved, AtOrBelow, ProjectedPaths;
  }

  /** Nothing is left at or below the old path. */
  lemma ChangeLeavesSource(existing: seq<string>, source: string, next: string, p: string)
    requires AcceptedChange(existing, source, next) && p in ProjectedPaths(existing)
    ensures !AtOrBelow(Moved(source, next, p), source)
  {
    AcceptedIsSound(existing, source, next);
    ProjectedIsJoin(existing, p);
    var s, n := SegmentsOf(source), SegmentsOf(next);
    MovedIsJoin(s, n, SegmentsOf(p));
    MovedLeavesSource(SegmentSet(ProjectedPaths(existing)), s, n, SegmentsOf(p));
    AtOrBelowIsPrefix(MovedSegments(s, n, SegmentsOf(p)), s);
  }

  /** On a set with all its ancestors an accepted change can always be undone. */
  lemma ChangeUndone(existing: seq<string>, source: string, next: string, p: string)
    requires AcceptedChange(existing, source, next) && p in ProjectedPaths(existing)
    ensures Moved(next, source, Moved(source, next, p)) == p
  {
    AcceptedIsSound(existing, source, next);
    forall q | q in ProjectedPaths(existing) ensures !AtOrBelow(q, next) {
      ProjectedIsJoin(existing, q);
      NextIsFree(SegmentSet(ProjectedPaths(existing)), SegmentsOf(source), SegmentsOf(next), SegmentsOf(q));
      AtOrBelowIsPrefix(SegmentsOf(q), SegmentsOf(next));
    }
    UndoExact(existing, source, next);
  }

  ghost function MovedPaths(paths: set<string>, source: string, next: string): set<string> {
    set p | p in paths :: Moved(source, next, p)
  }

  /** The changed set of paths is closed under ancestors again. */
  lemma ChangeKeepsClosed(existing: seq<string>, source: string, next: string)
    requires AcceptedChange(existing, source, next)
    ensures AncestorClosed(MovedPaths(ProjectedPaths(existing), source, next))
  {
    AcceptedIsSound(existing, source, next);
    var paths := ProjectedPaths(existing);
    var s, n := SegmentsOf(source), SegmentsOf(next);
    MovedClosed(SegmentSet(paths), s, n);
    forall m, k | m in MovedPaths(paths, source, next) && 1 <= k <= |SegmentsOf(m)|
      ensures Join(SegmentsOf(m)[..k]) in MovedPaths(paths, source, next)
    {
      var p :| p in paths && m == Moved(source, next, p);
      ProjectedIsJoin(existing, p);
      MovedIsJoin(s, n, SegmentsOf(p));
      SegmentsOfJoin(MovedSegments(s, n, SegmentsOf(p)));
      assert SegmentsOf(m) in MovedSet(SegmentSet(paths), s, n);
      assert SegmentsOf(m)[..k] in MovedSet(SegmentSet(paths), s, n);
      var a :| a in SegmentSet(paths) && SegmentsOf(m)[..k] == MovedSegments(s, n, a);
      var q :| q in paths && a == SegmentsOf(q);
      ProjectedIsJoin(existing, q);
      MovedIsJoin(s, n, a);
    }
  }

  lemma OpenSetProjection(x: string, b: Segments)
    requires IsSegment(x) && IsPath(b) && b != []
    ensures ProjectedPaths([x, Join(b)]) == {x, Join(b)}
  {
    SegmentsOfJoin([x]);
    SegmentsOfJoin(b);
    SegmentsOfJoin([]);
    assert x in [x, Join(b)] && Join(b) in [x, Join(b)];
  }

  /** Without ancestor closure the undo fails: where `y` exists only through its
      descendant, renaming `x` to `y` is accepted and undoing it moves that
      descendant along. */
  lemma OpenSetsLoseUndo(x: string, y: string, z: string)
    requires IsSegment(x) && IsSegment(y) && IsSegment(z) && x != y && Trim(y) == y && '\\' !in y
    ensures var existing := [x, Join([y, z])];
      && PlanRename(x, y, existing) == Accepted(y)
      && Moved(y, x, Moved(x, y, Join([y, z]))) == Join([x, z]) != Join([y, z])
  {
    var b := [y, z];
    OpenSetProjection(x, b);
    SegmentsOfJoin([x]);
    SegmentsOfJoin([y]);
    MovedIsJoin([x], [y], b);
    MovedIsJoin([y], [x], b);
    MovedIsJoin([x], [y], [x]);
    AtOrBelowIsPrefix(b, [x]);
    assert [x] + b[1..] == [x, z];
    assert MovedSegments([x], [y], [x]) == [y];
    SegmentsOfJoin(b);
    SegmentsOfJoin([x, z]);
    assert Join([x]) == x && Join([y]) == y;
    assert SegmentsOf(x)[..0] == [];
    OpenRenameAccepted(x, y, b);
  }

  lemma OpenNoCollision(x: string, y: string, b: Segments)
    requires IsSegment(x) && IsSegment(y) && IsPath(b) && |b| == 2 && b[0] == y && x != y
    ensures !Collides(x, y, [x, Join(b)])
  {
    OpenSetProjection(x, b);
    AtOrBelowIsPrefix(b, [x]);
    SegmentsOfJoin(b);
    SegmentsOfJoin([y]);
    assert Moved(x, y, x) == y by {
      MovedIsJoin([x], [y], [x]);
      assert MovedSegments([x], [y], [x]) == [y];
    }
    assert Join([x]) == x && Join([y]) == y;
    hide Join, SegmentsOf, Moved;
  }

  lemma RootProjection(x: string)
    requires IsSegment(x)
    ensures Project(x) == x && ParentPath(x) == ""
  {
    SegmentsOfJoin([x]);
    assert Join([x]) == x && [x][..0] == [];
  }

  lemma OpenRenameAccepted(x: string, y: string, b: Segments)
    requires IsSegment(x) && IsSegment(y) && IsPath(b) && |b| == 2 && b[0] == y && x != y && Trim(y) == y && '\\' !in y
    ensures PlanRename(x, y, [x, Join(b)]) == Accepted(y)
  {
    OpenNoCollision(x, y, b);
    RootProjection(x);
    hide Collides, Project, ParentPath, Trim, Join;
  }

  /** A created group is a new projected path under its parent. */
  lemma CreationIsNew(parentPath: string, rawLeafName: string, existing: seq<string>)
    requires PlanCreation(parentPath, rawLeafName, existing).Accepted?
    ensures var next := PlanCreation(parentPath, rawLeafName, existing).nextPath;
      && next !in ProjectedPaths(existing) && Project(next) == next
      && SegmentsOf(next) == SegmentsOf(parentPath) + [LeafName(rawLeafName).nextPath]
  {
    var leaf := LeafName(rawLeafName).nextPath;
    UnderIsJoin(SegmentsOf(parentPath), leaf);
    SegmentsOfJoin(SegmentsOf(parentPath) + [leaf]);
  }
}
