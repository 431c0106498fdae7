/** The storage hierarchy is the name hierarchy. */
module LayoutLaws {

  import opened Prelude
  import opened Text
  import opened Location
  import opened LocationLaws
  import opened Names
  import opened Layout

  /** No segment of the raw text is `..`. */
  predicate TraversalFree(text: string) {
    ".." !in Split(text, '/')
  }

  lemma TraversalFreeSuffix(text: string, i: nat)
    requires i < |text| && text[i] == '/' && TraversalFree(text)
    ensures TraversalFree(text[i + 1..])
  {
    SplitAtSep(text[..i], text[i + 1..], '/');
    assert text[..i] + ['/'] + text[i + 1..] == text;
  }

  lemma {:induction false} TraversalFreeTrim(text: string)
    requires TraversalFree(text)
    ensures TraversalFree(TrimEnd(text, '/'))
    decreases |text|
  {
    if text != "" && text[|text| - 1] == '/' {
      var t := text[..|text| - 1];
      SplitAtSep(t, "", '/');
      assert t + ['/'] + "" == text;
      TraversalFreeTrim(t);
    }
  }

  lemma TraversalFreeSegments(path: string, scheme: string)
    requires TraversalFree(path)
    ensures ".." !in Segments(path, scheme)
  {
    NonEmptyKeeps(Split(path, '/'));
    if IsAbsolute(path) {
      TraversalFreeSuffix(path, 0);
    }
  }

  lemma TraversalFreeBase(t: string)
    requires TraversalFree(t)
    ensures ".." !in Base(t).Segs()
  {
    var path := Base(t).path;
    match FirstMarker(t, 0)
    case Some(i) =>
      TraversalFreeSuffix(t, i + 2);
      TraversalFreeSegments(path, Base(t).scheme);
    case None =>
      TraversalFreeScheme(t);
  }

  lemma TraversalFreeScheme(t: string)
    requires TraversalFree(t) && FirstMarker(t, 0) == None
    ensures ".." !in Base(t).Segs()
  {
    var path := Base(t).path;
    if path != t && path != "" {
      var i := IndexOf(t, ':').value;
      TraversalFreeSuffix(t, i + 1);
      SplitAtSep("", path[1..], '/');
      SplitFree("", '/');
      assert "" + ['/'] + path[1..] == path && path[1..] == t[i + 2..];
    } else {
      SplitFree("", '/');
    }
    TraversalFreeSegments(path, Base(t).scheme);
  }

  /**
   * A resource's prefix contains another's exactly when its name path starts the other's.
   */
  lemma LayoutIsPrefixOrder(warehouse: string, ns1: seq<string>, n1: string, ns2: seq<string>, n2: string)
    requires TraversalFree(warehouse)
    requires PathSegments(ResourcePath(ns1, n1)) && PathSegments(ResourcePath(ns2, n2))
    ensures IsWithin(CanonicalPrefix(warehouse, ns1, n1), CanonicalPrefix(warehouse, ns2, n2)) <==>
            ResourcePath(ns1, n1) <= ResourcePath(ns2, n2)
  {
    CanonicalPlace(warehouse, ns1, n1);
    CanonicalPlace(warehouse, ns2, n2);
    TraversalFreeTrim(warehouse);
    TraversalFreeBase(TrimEnd(warehouse, '/'));
    LevelsShape(ResourcePath(ns1, n1));
    LevelsShape(ResourcePath(ns2, n2));
    PrefixBelow(WarehouseBase(warehouse).Segs(), ResourcePath(ns1, n1), ResourcePath(ns2, n2));
  }

  lemma PrefixBelow(base: seq<string>, p: seq<string>, q: seq<string>)
    ensures base + p <= base + q <==> p <= q
  {
    if base + p <= base + q {
      assert (base + p)[|base|..] == p && (base + q)[|base|..] == q;
      assert (base + q)[..|base + p|] == base + p;
      assert q[..|p|] == (base + q)[|base|..|base| + |p|];
    }
    if p <= q {
      assert base + q == (base + p) + q[|p|..];
    }
  }

  lemma CanonicalPrefixIsInjective(warehouse: string, ns1: seq<string>, n1: string, ns2: seq<string>, n2: string)
    requires PathSegments(ResourcePath(ns1, n1)) && PathSegments(ResourcePath(ns2, n2))
    requires CanonicalPrefix(warehouse, ns1, n1) == CanonicalPrefix(warehouse, ns2, n2)
    ensures ns1 == ns2 && n1 == n2
  {
    CanonicalPlace(warehouse, ns1, n1);
    CanonicalPlace(warehouse, ns2, n2);
    var b, p, q := WarehouseBase(warehouse).Segs(), ResourcePath(ns1, n1), ResourcePath(ns2, n2);
    assert p == (b + p)[|b|..] && q == (b + q)[|b|..];
    assert ns1 == p[..|p| - 1] && ns2 == q[..|q| - 1] && n1 == p[|p| - 1] && n2 == q[|q| - 1];
  }

  lemma CanonicalPrefixHasNoTraversal(warehouse: string, ns: seq<string>, n: string)
    requires TraversalFree(warehouse) && PathSegments(ResourcePath(ns, n))
    ensures NoTraversal(CanonicalPrefix(warehouse, ns, n))
  {
    CanonicalPlace(warehouse, ns, n);
    TraversalFreeTrim(warehouse);
    TraversalFreeBase(TrimEnd(warehouse, '/'));
  }

  /** Whether some location lies inside both prefixes. */
  ghost predicate Overlap(a: string, b: string) {
    exists location :: IsWithin(a, location) && IsWithin(b, location)
  }

  /** Two resources can hold a common location exactly when one name path starts the other. */
  lemma ResourcesOverlapIff(warehouse: string, ns1: seq<string>, n1: string, ns2: seq<string>, n2: string)
    requires TraversalFree(warehouse)
    requires PathSegments(ResourcePath(ns1, n1)) && PathSegments(ResourcePath(ns2, n2))
    ensures Overlap(CanonicalPrefix(warehouse, ns1, n1), CanonicalPrefix(warehouse, ns2, n2)) <==>
            ResourcePath(ns1, n1) <= ResourcePath(ns2, n2) || ResourcePath(ns2, n2) <= ResourcePath(ns1, n1)
  {
    var a, b := CanonicalPrefix(warehouse, ns1, n1), CanonicalPrefix(warehouse, ns2, n2);
    LayoutIsPrefixOrder(warehouse, ns1, n1, ns2, n2);
    LayoutIsPrefixOrder(warehouse, ns2, n2, ns1, n1);
    CanonicalPrefixHasNoTraversal(warehouse, ns1, n1);
    CanonicalPrefixHasNoTraversal(warehouse, ns2, n2);
    if Overlap(a, b) {
      var location :| IsWithin(a, location) && IsWithin(b, location);
      SharedPlaceIsComparable(SplitLocation(a), SplitLocation(b), SplitLocation(location));
    }
    WithinIsReflexive(a);
    WithinIsReflexive(b);
  }

  /**
   * Distinct resources are disjoint when neither's path is a namespace of the other.
   * Unique names alone do not give this: see `TableNamedLikeANamespaceOverlaps`.
   */
  lemma DistinctResourcesAreDisjoint(warehouse: string, ns1: seq<string>, n1: string, ns2: seq<string>, n2: string)
    requires TraversalFree(warehouse)
    requires PathSegments(ResourcePath(ns1, n1)) && PathSegments(ResourcePath(ns2, n2))
    requires ResourcePath(ns1, n1) != ResourcePath(ns2, n2)
    ensures Overlap(CanonicalPrefix(warehouse, ns1, n1), CanonicalPrefix(warehouse, ns2, n2)) <==>
            ResourcePath(ns1, n1) <= ns2 || ResourcePath(ns2, n2) <= ns1
  {
    ResourcesOverlapIff(warehouse, ns1, n1, ns2, n2);
    ProperPrefix(ResourcePath(ns1, n1), ns2, n2);
    ProperPrefix(ResourcePath(ns2, n2), ns1, n1);
  }

  lemma ProperPrefix(p: seq<string>, ns: seq<string>, n: string)
    requires p != ResourcePath(ns, n)
    ensures p <= ResourcePath(ns, n) <==> p <= ns
  {
    var q := ResourcePath(ns, n);
    if p <= q {
      assert p == q[..|p|];
      assert |p| < |q| && ns[..|p|] == q[..|p|];
    }
  }

  /** Table `b` in `[a]` and table `c` in `[a, b]`: two unique names, one inside the other. */
  lemma TableNamedLikeANamespaceOverlaps(warehouse: string)
    requires TraversalFree(warehouse)
    ensures Overlap(CanonicalPrefix(warehouse, ["a"], "b"), CanonicalPrefix(warehouse, ["a", "b"], "c"))
  {
    assert ResourcePath(["a"], "b") == ["a", "b"];
    assert ["a", "b"] <= ["a", "b", "c"] == ResourcePath(["a", "b"], "c");
    ResourcesOverlapIff(warehouse, ["a"], "b", ["a", "b"], "c");
  }
}
