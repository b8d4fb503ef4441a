/** What the planners of src/groupTree.ts answer, told on the segments of the paths. */
module GroupPlans {
  import opened Text
  import opened GroupPaths

  // ----- segments -----

  lemma {:induction false} NonEmptyConcat(a: seq<string>, b: seq<string>)
    ensures NonEmpty(a + b) == NonEmpty(a) + NonEmpty(b)
  {
    if a == [] {
      assert a + b == b;
    } else {
      assert (a + b)[1..] == a[1..] + b;
      NonEmptyConcat(a[1..], b);
    }
  }

  /** A slash separates, empty parts vanish, and nothing else is interpreted. */
  lemma SegmentsExactly(a: string, b: string)
    ensures SegmentsOf(a + ['/'] + b) == SegmentsOf(a) + SegmentsOf(b)
    ensures '/' !in a ==> SegmentsOf(a) == if a == "" then [] else [a]
  {
    SplitConcat(a, b);
    NonEmptyConcat(Split(a), Split(b));
    if '/' !in a {
      SplitSegment(a);
      assert [a][1..] == [];
    }
  }

  /** One of the existing paths has these segments. */
  ghost predicate Existing(existing: seq<string>, a: Segments) {
    a != [] && exists p :: p in existing && SegmentsOf(p) == a
  }

  lemma ExistingExactly(existing: seq<string>, a: Segments)
    requires IsPath(a) && a != []
    ensures Existing(existing, a) <==> Join(a) in ProjectedPaths(existing)
  {
    SegmentsOfJoin(a);
    JoinNotEmpty(a);
    if Join(a) in ProjectedPaths(existing) {
      var p :| p in existing && Project(p) != "" && Project(p) == Join(a);
      SegmentsOfJoin(SegmentsOf(p));
      assert SegmentsOf(p) == a;
    }
    hide SegmentsOf, Join;
  }

  lemma JoinNotEmpty(a: Segments)
    requires IsPath(a)
    ensures Join(a) == "" <==> a == []
  {
    SegmentsOfJoin(a);
    SegmentsOfJoin([]);
  }

  // ----- collisions -----

  /** Something at or below the source would come to something that exists outside it. */
  ghost predicate Clashes(existing: seq<string>, source: Segments, next: Segments) {
    exists a :: IsPath(a) && Clash(existing, source, next, a)
  }

  ghost predicate Clash(existing: seq<string>, source: Segments, next: Segments, a: Segments) {
    && source <= a && Existing(existing, a)
    && Existing(existing, next + a[|source|..]) && !(source <= next + a[|source|..])
  }

  lemma CollidesExactly(existing: seq<string>, source: Segments, next: Segments)
    requires IsPath(source) && source != [] && IsPath(next) && next != []
    ensures Collides(Join(source), Join(next), existing) <==> Clashes(existing, source, next)
  {
    var paths := ProjectedPaths(existing);
    forall a: Segments | IsPath(a) && a != []
      ensures Clash(existing, source, next, a) <==>
        Join(a) in paths && AtOrBelow(Join(a), Join(source))
        && Moved(Join(source), Join(next), Join(a)) in paths
        && !AtOrBelow(Moved(Join(source), Join(next), Join(a)), Join(source))
    {
      ClashExactly(existing, source, next, a);
    }
    hide Clash, Existing, Moved, AtOrBelow, Join, IsPath, ProjectedPaths;
    if Collides(Join(source), Join(next), existing) {
      var p :| p in paths && AtOrBelow(p, Join(source))
        && Moved(Join(source), Join(next), p) in paths && !AtOrBelow(Moved(Join(source), Join(next), p), Join(source));
      PathIsJoin(existing, p);
      assert Clash(existing, source, next, SegmentsOf(p));
    }
    if Clashes(existing, source, next) {
      var a :| IsPath(a) && Clash(existing, source, next, a);
      NotEmptyClash(existing, source, next, a);
      assert Join(a) in paths;
    }
  }

  lemma NotEmptyClash(existing: seq<string>, source: Segments, next: Segments, a: Segments)
    requires Clash(existing, source, next, a)
    ensures a != []
  {
  }

  lemma PathIsJoin(existing: seq<string>, p: string)
    requires p in ProjectedPaths(existing)
    ensures IsPath(SegmentsOf(p)) && SegmentsOf(p) != [] && p == Join(SegmentsOf(p))
  {
    ProjectedIsJoin(existing, p);
    JoinNotEmpty(SegmentsOf(p));
  }

  lemma ClashExactly(existing: seq<string>, source: Segments, next: Segments, a: Segments)
    requires IsPath(source) && source != [] && IsPath(next) && next != [] && IsPath(a) && a != []
    ensures Clash(existing, source, next, a) <==>
      Join(a) in ProjectedPaths(existing) && AtOrBelow(Join(a), Join(source))
      && Moved(Join(source), Join(next), Join(a)) in ProjectedPaths(existing)
      && !AtOrBelow(Moved(Join(source), Join(next), Join(a)), Join(source))
  {
    hide Existing, Moved, AtOrBelow, Join, ProjectedPaths;
    ExistingExactly(existing, a);
    AtOrBelowIsPrefix(a, source);
    if source <= a {
      var m := MovedSegments(source, next, a);
      MovedIsJoin(source, next, a);
      ExistingExactly(existing, m);
      AtOrBelowIsPrefix(m, source);
    }
  }

  // ----- the plans -----

  /** What is wrong with a trimmed leaf name. */
  ghost function NameError(name: string): Option<ChangeError> {
    if name == "" then Some(Required)
    else if '/' in name || '\\' in name then Some(InvalidSeparator)
    else None
  }

  lemma LeafExactly(raw: string, name: string)
    requires Trimmed(name, raw)
    ensures LeafName(raw) == match NameError(name) case Some(e) => Refused(e) case None => Accepted(name)
    ensures NameError(name).None? ==> IsSegment(name)
  {
    TrimExactly(raw);
    TrimUnique(name, Trim(raw), raw);
  }

  /** A creation is refused for its name or because it exists, and else accepted as one more
      segment under its parent. */
  lemma CreationExactly(parentPath: string, raw: string, name: string, existing: seq<string>)
    requires Trimmed(name, raw)
    ensures var next := SegmentsOf(parentPath) + [name];
      PlanCreation(parentPath, raw, existing) ==
        if NameError(name).Some? then Refused(NameError(name).value)
        else if Existing(existing, next) then Refused(Collision)
        else Accepted(Join(next))
  {
    hide Trimmed, NameError, Existing, Join, SegmentsOf, IsSegment, Trim, ProjectedPaths, LeafName, Under;
    LeafExactly(raw, name);
    if NameError(name).None? {
      UnderIsJoin(SegmentsOf(parentPath), name);
      ExistingExactly(existing, SegmentsOf(parentPath) + [name]);
    }
  }

  /** A rename replaces the last segment; it is refused without a source, for its name,
      when it changes nothing, and when it clashes. */
  lemma RenameExactly(sourceValue: string, raw: string, name: string, existing: seq<string>)
    requires Trimmed(name, raw)
    ensures var source := SegmentsOf(sourceValue);
      PlanRename(sourceValue, raw, existing) ==
        if source == [] then Refused(SourceRequired)
        else if NameError(name).Some? then Refused(NameError(name).value)
        else
          var next := source[..|source| - 1] + [name];
          if next == source then Refused(Unchanged)
          else if Clashes(existing, source, next) then Refused(Collision)
          else Accepted(Join(next))
  {
    hide Trimmed, NameError, Clashes, Join, SegmentsOf, IsSegment, Trim, LeafName, Under, Collides, ParentPath;
    var source := SegmentsOf(sourceValue);
    JoinNotEmpty(source);
    LeafExactly(raw, name);
    if source != [] && NameError(name).None? {
      var next := source[..|source| - 1] + [name];
      ParentOf(source);
      UnderIsJoin(source[..|source| - 1], name);
      SameJoin(next, source);
      CollidesExactly(existing, source, next);
    }
  }

  lemma SameJoin(a: Segments, b: Segments)
    requires IsPath(a) && IsPath(b)
    ensures Join(a) == Join(b) <==> a == b
  {
    if Join(a) == Join(b) {
      JoinInjective(a, b);
    }
  }

  /** A move hangs the last segment under the target; it is refused without a source, into
      itself, when it changes nothing, and when it clashes. */
  lemma MoveExactly(sourceValue: string, targetParentValue: string, existing: seq<string>)
    ensures var source, target := SegmentsOf(sourceValue), SegmentsOf(targetParentValue);
      PlanMove(sourceValue, targetParentValue, existing) ==
        if source == [] then Refused(SourceRequired)
        else if target != [] && source <= target then Refused(Descendant)
        else
          var next := target + [source[|source| - 1]];
          if next == source then Refused(Unchanged)
          else if Clashes(existing, source, next) then Refused(Collision)
          else Accepted(Join(next))
  {
    hide Clashes, Join, SegmentsOf, IsSegment, Under, Collides, AtOrBelow;
    var source, target := SegmentsOf(sourceValue), SegmentsOf(targetParentValue);
    JoinNotEmpty(source);
    JoinNotEmpty(target);
    SegmentsOfJoin(source);
    if source != [] {
      AtOrBelowIsPrefix(target, source);
      var leaf := source[|source| - 1];
      var next := target + [leaf];
      UnderIsJoin(target, leaf);
      SameJoin(next, source);
      CollidesExactly(existing, source, next);
    }
  }
}
