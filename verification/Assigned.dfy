/** The location the redb registry assigns, against the bound that checks it. */
module Assigned {

  import opened Prelude
  import opened Text
  import opened Location
  import opened LocationLaws
  import opened Names
  import opened Layout
  import opened LayoutLaws
  import opened Bound
  import opened MetadataLaws

  /** `format!("{warehouse}/{namespace joined}/{name}")`: the warehouse is not trimmed here. */
  function AssignedLocation(warehouse: string, namespace: seq<string>, name: string): string {
    warehouse + "/" + Join(namespace, '/') + "/" + name
  }

  lemma {:induction false} JoinedLevels(names: seq<string>)
    requires names != []
    ensures "/" + Join(names, '/') == Levels(names)
  {
    if |names| > 1 {
      JoinedLevels(names[1..]);
      assert "/" + (names[0] + ['/'] + Join(names[1..], '/')) == "/" + names[0] + ("/" + Join(names[1..], '/'));
    } else {
      assert Levels(names[1..]) == "";
    }
  }

  lemma AssignedIsLevels(warehouse: string, namespace: seq<string>, name: string)
    requires namespace != []
    ensures AssignedLocation(warehouse, namespace, name) == warehouse + Levels(ResourcePath(namespace, name))
  {
    JoinedLevels(namespace);
    LevelsSnoc(namespace, name);
    assert warehouse + "/" + Join(namespace, '/') + "/" + name == warehouse + ("/" + Join(namespace, '/') + "/" + name);
  }

  lemma TrimmedWarehouseAgrees(warehouse: string, namespace: seq<string>, name: string)
    requires namespace != [] && !EndsWithSlash(warehouse)
    ensures AssignedLocation(warehouse, namespace, name) == CanonicalPrefix(warehouse, namespace, name)
  {
    AssignedIsLevels(warehouse, namespace, name);
    LevelsSnoc(namespace, name);
    assert warehouse + (Levels(namespace) + "/" + name) == warehouse + Levels(namespace) + "/" + name;
  }

  function Blanks(k: nat): seq<string> {
    seq(k, i => "")
  }

  /** Trailing slashes are trailing empty parts. */
  lemma {:induction false} TrailingSlashes(p: string)
    ensures Split(p, '/') == Split(TrimEnd(p, '/'), '/') + Blanks(|p| - |TrimEnd(p, '/')|)
    ensures NonEmpty(Split(p, '/')) == NonEmpty(Split(TrimEnd(p, '/'), '/'))
    decreases |p|
  {
    if p != "" && p[|p| - 1] == '/' {
      var q := p[..|p| - 1];
      TrailingSlashes(q);
      SplitAtSep(q, "", '/');
      assert q + ['/'] + "" == p;
      assert Blanks(|p| - |TrimEnd(p, '/')|) == Blanks(|q| - |TrimEnd(p, '/')|) + [""];
      NonEmptyConcat(Split(q, '/'), [""]);
      assert [""][1..] == [];
    } else {
      assert Blanks(0) == [];
    }
  }

  lemma {:induction false} TrimOfSuffix(s: string, i: nat)
    requires i < |TrimEnd(s, '/')|
    ensures TrimEnd(s[i..], '/') == TrimEnd(s, '/')[i..]
    decreases |s|
  {
    if s[|s| - 1] == '/' {
      var t := s[..|s| - 1];
      TrimOfSuffix(t, i);
      assert s[i..][..|s[i..]| - 1] == t[i..];
    }
  }

  lemma TrimIsShorter(s: string)
    ensures EndsWithSlash(s) <==> |TrimEnd(s, '/')| < |s|
  {
    if EndsWithSlash(s) {
      assert TrimEnd(s, '/') <= s[..|s| - 1];
    }
  }

  predicate EndsWithColon(s: string) {
    s != "" && s[|s| - 1] == ':'
  }

  /**
   * Which trailing slashes a trimmed warehouse can carry: any on a local directory, none on a bucket. After a bare
   * scheme they are read as an authority's: a local one needs two, another takes at most two.
   */
  predicate SlashesPass(trimmed: string, slashes: nat) {
    if FirstMarker(trimmed, 0).None? && EndsWithColon(trimmed) then
      IsBareScheme(trimmed) && if Base(trimmed).scheme == "file" then slashes >= 2 else slashes <= 2
    else Base(trimmed).scheme == "file"
  }

  /** The warehouses whose default locations pass their bound. */
  predicate DefaultPassesBound(warehouse: string) {
    !EndsWithSlash(warehouse)
    || SlashesPass(TrimEnd(warehouse, '/'), |warehouse| - |TrimEnd(warehouse, '/')|)
  }

  function Slashes(k: nat): (s: string)
    ensures |s| == k
    ensures forall i :: 0 <= i < k ==> s[i] == '/'
  {
    seq(k, i => '/')
  }

  lemma {:induction false} TrimParts(s: string)
    ensures |TrimEnd(s, '/')| <= |s| && s == TrimEnd(s, '/') + Slashes(|s| - |TrimEnd(s, '/')|)
    decreases |s|
  {
    if EndsWithSlash(s) {
      TrimParts(s[..|s| - 1]);
      assert s == s[..|s| - 1] + "/";
      var k := |s| - |TrimEnd(s, '/')|;
      assert Slashes(k) == Slashes(k - 1) + "/";
    }
  }

  lemma {:induction false} TrimOfSlashed(p: string, k: nat)
    requires !EndsWithSlash(p)
    ensures TrimEnd(p + Slashes(k), '/') == p
    decreases k
  {
    if k == 0 {
      assert p + Slashes(0) == p;
    } else {
      var s := p + Slashes(k);
      assert s[..|s| - 1] == p + Slashes(k - 1);
      TrimOfSlashed(p, k - 1);
    }
  }

  /** Slashes and levels appended to a trimmed text, away from a bare colon, stay in its path. */
  lemma SlashedPlace(t: string, k: nat, l: string)
    requires !EndsWithSlash(t) && IsAbsolute(l) && NoDoubleSlash(l) && |l| > 1 && k > 0
    requires FirstMarker(t, 0).Some? || !EndsWithColon(t)
    ensures SplitLocation(t + (Slashes(k) + l)) == Place(Base(t).scheme, Base(t).path + (Slashes(k) + l))
  {
    var rest := Slashes(k) + l;
    if FirstMarker(t, 0).Some? {
      MarkedAppend(t, rest);
    } else {
      NoNewMarker(t, rest);
      ColonOfLevels(t, rest);
    }
  }

  /** A marker in `t + rest` would need a colon in `t` at its end, or a colon followed by two slashes in `rest`. */
  lemma NoNewMarker(t: string, rest: string)
    requires FirstMarker(t, 0).None? && !EndsWithColon(t) && !EndsWithSlash(t) && IsAbsolute(rest)
    requires forall i: nat :: !MarkerAt(rest, i)
    ensures FirstMarker(t + rest, 0) == None
  {
    var s := t + rest;
    forall i: nat ensures !MarkerAt(s, i) {
      if i + 2 < |t| {
        assert !MarkerAt(t, i);
      } else if i + 2 < |s| && |t| <= i {
        assert !MarkerAt(rest, i - |t|);
      }
    }
  }

  lemma SlashedLevelsHaveNoMarker(k: nat, l: string)
    requires NoDoubleSlash(l) && IsAbsolute(l)
    ensures forall i: nat :: !MarkerAt(Slashes(k) + l, i)
  {
    var rest := Slashes(k) + l;
    forall i: nat ensures !MarkerAt(rest, i) {
      if i + 2 < |rest| && rest[i] == ':' {
        assert i >= k && rest[i + 1] == l[i + 1 - k] && rest[i + 2] == l[i + 2 - k];
      }
    }
  }

  /** What lies below a base after `k` extra slashes. */
  lemma BelowSlashes(base: Place, k: nat, names: seq<string>)
    requires !EndsWithSlash(base.path) && (base.path == "" ==> base.scheme == "file")
    requires names != [] && PathSegments(names) && k > 0
    ensures var below := Place(base.scheme, base.path + (Slashes(k) + Levels(names)));
            && IsAbsolute(below.path) == IsAbsolute(base.path + Levels(names))
            && below.Segs() == base.Segs() + (if base.scheme == "file" then [] else Blanks(k)) + names
  {
    var path := base.path + Slashes(k);
    assert base.path + (Slashes(k) + Levels(names)) == path + Levels(names);
    LevelsShape(names);
    TrimOfSlashed(base.path, k);
    if base.scheme == "file" {
      LocalBelow(path, base.path, names);
      assert base.Segs() + [] == base.Segs();
    } else {
      KeyBelow(path, base.path, base.scheme, names);
    }
  }

  /** A warehouse that is not a bare colon: the slashes are blanks of a key, or nothing on a file system. */
  lemma SlashedWarehouse(t: string, k: nat, names: seq<string>)
    requires !EndsWithSlash(t) && k > 0 && names != [] && PathSegments(names)
    requires FirstMarker(t, 0).Some? || !EndsWithColon(t)
    requires ".." !in Base(t).Segs()
    ensures Contains(SplitLocation(t + Levels(names)), SplitLocation(t + (Slashes(k) + Levels(names)))) <==>
            Base(t).scheme == "file"
  {
    LevelsShape(names);
    RootAt(t, names);
    SlashedLevelsHaveNoMarker(k, Levels(names));
    SlashedPlace(t, k, Levels(names));
    BasePathHasNoTrailingSlash(t);
    BasePathIsThere(t);
    BelowSlashes(Base(t), k, names);
    BlanksDecide(Base(t).Segs(), k, names, Base(t).scheme == "file");
  }

  lemma BasePathIsThere(t: string)
    requires !EndsWithSlash(t) && (FirstMarker(t, 0).Some? || !EndsWithColon(t))
    ensures Base(t).path == "" ==> Base(t).scheme == "file"
  {
    if FirstMarker(t, 0).Some? {
      var i := FirstMarker(t, 0).value;
      assert t[|t| - 1] != '/' && t[i + 2] == '/';
    }
  }

  // ---------------------------------------------------------------------------
  // A bare colon
  // ---------------------------------------------------------------------------

  /** After a final colon the slashes complete a marker. */
  lemma ColonWarehouse(t: string, k: nat, l: string)
    requires FirstMarker(t, 0).None? && EndsWithColon(t) && k > 0 && IsAbsolute(l)
    ensures SplitLocation(t + (Slashes(k) + l)) ==
            Place(CanonicalScheme(ToLower(t[..|t| - 1])), (Slashes(k) + l)[2..])
  {
    var rest := Slashes(k) + l;
    var s, n := t + rest, |t| - 1;
    assert rest[0] == '/' && rest[1] == '/';
    assert MarkerAt(s, n) && s[..n] == t[..n] && s[n + 3..] == rest[2..];
    forall j: nat | j < n ensures !MarkerAt(s, j) {
      if j + 2 < |t| {
        assert !MarkerAt(t, j);
      } else {
        assert s[j + 1] == t[j + 1] == ':';
      }
    }
    MarkerPosition(s, n);
  }

  lemma BareSchemeBase(t: string)
    requires FirstMarker(t, 0).None? && IsBareScheme(t)
    ensures Base(t) == Place(CanonicalScheme(ToLower(t[..|t| - 1])), "")
  {
    var n := |t| - 1;
    SchemeHasNoColon(t[..n]);
    assert forall j :: 0 <= j < n ==> t[j] == t[..n][j];
    assert IndexOf(t, ':') == Some(n) && t[n + 1..] == "";
  }

  /** Text before the final colon that is no scheme leaves the two locations in different stores. */
  lemma NoSchemeLeaves(t: string)
    requires FirstMarker(t, 0).None? && EndsWithColon(t) && !IsBareScheme(t)
    ensures Base(t).scheme != CanonicalScheme(ToLower(t[..|t| - 1]))
  {
    var n := |t| - 1;
    var i := IndexOf(t, ':').value;
    BaseScheme(t, i);
    SchemesDiffer(t, i, n, Base(t).scheme);
  }

  lemma SchemesDiffer(t: string, i: nat, n: nat, scheme: string)
    requires i <= n < |t| && IndexOf(t, ':') == Some(i) && !IsScheme(t[..n])
    requires scheme == "file" || (scheme == CanonicalScheme(ToLower(t[..i])) && IsScheme(t[..i]))
    ensures scheme != CanonicalScheme(ToLower(t[..n]))
  {
    LastColonIsNoFile(t[..n]);
    if i < n {
      ColonTells(t, i, n);
    }
  }

  lemma BaseScheme(t: string, i: nat)
    requires FirstMarker(t, 0).None? && IndexOf(t, ':') == Some(i)
    ensures Base(t).scheme == "file" || (Base(t).scheme == CanonicalScheme(ToLower(t[..i])) && IsScheme(t[..i]))
  {
  }

  /** Only one of the two texts before a colon holds another. */
  lemma ColonTells(t: string, i: nat, n: nat)
    requires i < n <= |t| && IndexOf(t, ':') == Some(i)
    ensures CanonicalScheme(ToLower(t[..i])) != CanonicalScheme(ToLower(t[..n]))
  {
    assert t[..n][i] == ':' && forall j :: 0 <= j < i ==> t[..i][j] == t[j];
    CanonicalKeepsColon(t[..n]);
    CanonicalKeepsColon(t[..i]);
  }

  lemma LastColonIsNoFile(scheme: string)
    ensures !IsScheme(scheme) ==> CanonicalScheme(ToLower(scheme)) != "file"
  {
    if CanonicalScheme(ToLower(scheme)) == "file" {
      FileSchemeIsScheme(scheme);
    }
  }

  /** The blanks that `k` slashes after a bare scheme put before the names. */
  function ExtraBlanks(k: nat): nat {
    if k <= 2 then 0 else k - 2
  }

  function BlankSegments(scheme: string, k: nat): seq<string> {
    if scheme == "file" then [] else Blanks(ExtraBlanks(k))
  }

  /** The path a bare scheme's slashes leave: none for one, rooted for two, and blanks of a key for more. */
  lemma BareSchemePath(scheme: string, k: nat, names: seq<string>)
    requires names != [] && PathSegments(names) && k > 0
    ensures var path := (Slashes(k) + Levels(names))[2..];
            && (IsAbsolute(path) <==> k >= 2)
            && Segments(path, scheme) == BlankSegments(scheme, k) + names
  {
    UnrootedPath(scheme, names);
    NoBlanks(names);
    if k == 1 {
      assert (Slashes(1) + Levels(names))[2..] == Levels(names)[1..];
    } else {
      RootedPath(scheme, k - 2, names);
      LevelsShape(names);
      DropTwo(k, Levels(names));
    }
  }

  lemma NoBlanks(names: seq<string>)
    ensures Blanks(0) + names == names && [] + names == names
  {
  }

  lemma DropTwo(k: nat, l: string)
    requires k >= 2 && IsAbsolute(l)
    ensures (Slashes(k) + l)[2..] == Slashes(k - 2) + l && IsAbsolute(Slashes(k - 2) + l)
  {
  }

  lemma UnrootedPath(scheme: string, names: seq<string>)
    requires names != [] && PathSegments(names)
    ensures Levels(names) != "" && Segments(Levels(names)[1..], scheme) == names && !IsAbsolute(Levels(names)[1..])
  {
    LevelsShape(names);
    LevelsAlone(names);
    NonEmptyKeeps(names);
    assert StripSlash(Levels(names)[1..]) == Levels(names)[1..];
  }

  lemma RootedPath(scheme: string, j: nat, names: seq<string>)
    requires names != [] && PathSegments(names)
    ensures Segments(Slashes(j) + Levels(names), scheme) ==
            (if scheme == "file" || j == 0 then [] else Blanks(j)) + names
  {
    var l := Levels(names);
    LevelsAlone(names);
    if scheme == "file" {
      TrimOfSlashed("", j);
      assert "" + Slashes(j) == Slashes(j);
      LocalBelow(Slashes(j), "", names);
      SplitFree("", '/');
      assert Segments("", "file") == [];
    } else if j == 0 {
      assert Slashes(0) + l == l;
      LevelsShape(names);
      assert [] + names == names;
    } else {
      assert (Slashes(j) + l)[1..] == Slashes(j - 1) + l;
      SplitBelow(Slashes(j - 1), names);
      SlashesSplit(j - 1);
    }
  }

  lemma SlashesSplit(j: nat)
    ensures Split(Slashes(j), '/') == Blanks(j + 1)
  {
    TrimOfSlashed("", j);
    assert "" + Slashes(j) == Slashes(j);
    TrailingSlashes(Slashes(j));
    SplitFree("", '/');
    assert [""] + Blanks(j) == Blanks(j + 1);
  }

  lemma BareScheme(t: string, k: nat, names: seq<string>)
    requires FirstMarker(t, 0).None? && IsBareScheme(t) && k > 0 && names != [] && PathSegments(names)
    ensures Contains(SplitLocation(t + Levels(names)), SplitLocation(t + (Slashes(k) + Levels(names)))) <==>
            if Base(t).scheme == "file" then k >= 2 else k <= 2
  {
    LevelsShape(names);
    RootAt(t, names);
    BareSchemeBase(t);
    ColonWarehouse(t, k, Levels(names));
    BareSchemePath(Base(t).scheme, k, names);
    SplitFree("", '/');
    assert Base(t).Segs() == [] && "" + Levels(names) == Levels(names);
    RootHolds(SplitLocation(t + Levels(names)), SplitLocation(t + (Slashes(k) + Levels(names))), k, names);
  }

  /** A rooted bound at the names, and a place as many blanks and those names deep. */
  lemma RootHolds(root: Place, place: Place, k: nat, names: seq<string>)
    requires names != [] && PathSegments(names) && root.scheme == place.scheme && IsAbsolute(root.path)
    requires root.Roots() == [] + names && (IsAbsolute(place.path) <==> k >= 2)
    requires place.Segs() == BlankSegments(root.scheme, k) + names
    ensures Contains(root, place) <==> if root.scheme == "file" then k >= 2 else k <= 2
  {
    BlanksDecide([], ExtraBlanks(k), names, root.scheme == "file");
    assert [] + BlankSegments(root.scheme, k) + names == BlankSegments(root.scheme, k) + names;
  }

  // ---------------------------------------------------------------------------
  // The law
  // ---------------------------------------------------------------------------

  /** Where a bound lies: the base of the trimmed warehouse and the names. */
  lemma RootAt(t: string, names: seq<string>)
    requires !EndsWithSlash(t) && names != [] && PathSegments(names)
    ensures var root := SplitLocation(t + Levels(names));
            && root == Place(Base(t).scheme, Base(t).path + Levels(names))
            && root.Segs() == Base(t).Segs() + names && root.Roots() == root.Segs()
  {
    LevelsShape(names);
    SplitOfLevels(t, Levels(names));
    BasePathHasNoTrailingSlash(t);
    SegmentsBelow(Base(t).path, Base(t).scheme, names);
    TrimOfNames(Base(t).Segs(), names);
  }

  lemma SlashedPassesIff(t: string, k: nat, names: seq<string>)
    requires !EndsWithSlash(t) && TraversalFree(t) && k > 0 && names != [] && PathSegments(names)
    ensures Contains(SplitLocation(t + Levels(names)), SplitLocation(t + (Slashes(k) + Levels(names)))) <==>
            SlashesPass(t, k)
  {
    LevelsShape(names);
    TraversalFreeBase(t);
    if FirstMarker(t, 0).Some? || !EndsWithColon(t) {
      SlashedWarehouse(t, k, names);
    } else if IsBareScheme(t) {
      BareScheme(t, k, names);
    } else {
      ColonWarehouse(t, k, Levels(names));
      RootAt(t, names);
      NoSchemeLeaves(t);
    }
  }

  lemma UnslashedPasses(warehouse: string, namespace: seq<string>, name: string)
    requires TraversalFree(warehouse) && !EndsWithSlash(warehouse)
    requires namespace != [] && PathSegments(ResourcePath(namespace, name))
    ensures IsWithin(CanonicalPrefix(warehouse, namespace, name), AssignedLocation(warehouse, namespace, name))
  {
    TrimmedWarehouseAgrees(warehouse, namespace, name);
    CanonicalPrefixHasNoTraversal(warehouse, namespace, name);
    WithinIsReflexive(CanonicalPrefix(warehouse, namespace, name));
  }

  /** Both locations as the trimmed warehouse, its slashes and the names. */
  lemma LocationsFromTrimmed(warehouse: string, namespace: seq<string>, name: string, t: string, k: nat)
    requires namespace != [] && t == TrimEnd(warehouse, '/') && warehouse == t + Slashes(k)
    ensures CanonicalPrefix(warehouse, namespace, name) == t + Levels(ResourcePath(namespace, name))
    ensures AssignedLocation(warehouse, namespace, name) == t + (Slashes(k) + Levels(ResourcePath(namespace, name)))
  {
    LevelsSnoc(namespace, name);
    AssignedIsLevels(warehouse, namespace, name);
    Regroup(t, Slashes(k), Levels(ResourcePath(namespace, name)));
    Regroup(t, Levels(namespace), "/" + name);
    Regroup(t + Levels(namespace), "/", name);
    Regroup(Levels(namespace), "/", name);
  }

  lemma Regroup(a: string, b: string, c: string)
    ensures a + b + c == a + (b + c)
  {
  }

  lemma SlashedPasses(warehouse: string, namespace: seq<string>, name: string, t: string, k: nat)
    requires TraversalFree(warehouse) && t == TrimEnd(warehouse, '/') && warehouse == t + Slashes(k) && k > 0
    requires namespace != [] && PathSegments(ResourcePath(namespace, name))
    ensures IsWithin(CanonicalPrefix(warehouse, namespace, name), AssignedLocation(warehouse, namespace, name)) <==>
            SlashesPass(t, k)
  {
    LocationsFromTrimmed(warehouse, namespace, name, t, k);
    TraversalFreeTrim(warehouse);
    SlashedPassesIff(t, k, ResourcePath(namespace, name));
  }

  /** The default location passes its own bound exactly for those warehouses, whatever the table is called. */
  lemma AssignedPassesBoundIff(warehouse: string, namespace: seq<string>, name: string)
    requires TraversalFree(warehouse) && namespace != [] && PathSegments(ResourcePath(namespace, name))
    ensures IsWithin(CanonicalPrefix(warehouse, namespace, name), AssignedLocation(warehouse, namespace, name)) <==>
            DefaultPassesBound(warehouse)
  {
    TrimParts(warehouse);
    TrimIsShorter(warehouse);
    if EndsWithSlash(warehouse) {
      var t := TrimEnd(warehouse, '/');
      SlashedPasses(warehouse, namespace, name, t, |warehouse| - |t|);
    } else {
      UnslashedPasses(warehouse, namespace, name);
    }
  }

  lemma LocalBelow(path: string, trimmed: string, names: seq<string>)
    requires names != [] && PathSegments(names) && TrimEnd(path, '/') == trimmed
    ensures Segments(path + Levels(names), "file") == Segments(trimmed, "file") + names
  {
    SplitBelow(path, names);
    TrailingSlashes(path);
    NonEmptyConcat(Split(path, '/'), names);
    NonEmptyKeeps(names);
  }

  /** The key of a trimmed path is the trimmed key, and loses as much. */
  lemma KeyOfTrimmed(path: string, trimmed: string)
    requires TrimEnd(path, '/') == trimmed && trimmed != ""
    ensures path != "" && StripSlash(trimmed) != ""
    ensures TrimEnd(StripSlash(path), '/') == StripSlash(trimmed)
    ensures |path| - |trimmed| == |StripSlash(path)| - |StripSlash(trimmed)|
  {
    assert path[0] == trimmed[0] && trimmed[|trimmed| - 1] != '/';
    if IsAbsolute(path) {
      TrimOfSuffix(path, 1);
    }
  }

  lemma KeyBelow(path: string, trimmed: string, scheme: string, names: seq<string>)
    requires names != [] && PathSegments(names) && TrimEnd(path, '/') == trimmed && trimmed != "" && scheme != "file"
    ensures |trimmed| <= |path|
    ensures Segments(path + Levels(names), scheme) == Segments(trimmed, scheme) + Blanks(|path| - |trimmed|) + names
  {
    KeyOfTrimmed(path, trimmed);
    TrimIsShorter(path);
    SplitTrimmed(StripSlash(path), StripSlash(trimmed), |path| - |trimmed|, names);
    SegmentsOfLongerKey(path, Levels(names), scheme);
    SegmentsOfKey(trimmed, scheme);
  }

  lemma SplitTrimmed(q: string, t: string, k: nat, names: seq<string>)
    requires names != [] && PathSegments(names) && TrimEnd(q, '/') == t && t != "" && k == |q| - |t|
    ensures Split(q + Levels(names), '/') == Split(t, '/') + Blanks(k) + names
  {
    SplitBelow(q, names);
    TrailingSlashes(q);
  }

  lemma SegmentsOfKey(path: string, scheme: string)
    requires scheme != "file" && StripSlash(path) != ""
    ensures Segments(path, scheme) == Split(StripSlash(path), '/')
  {
  }

  lemma SegmentsOfLongerKey(path: string, l: string, scheme: string)
    requires scheme != "file" && path != "" && l != ""
    ensures Segments(path + l, scheme) == Split(StripSlash(path) + l, '/')
  {
    assert StripSlash(path + l) == StripSlash(path) + l;
  }

  /** Whether the placed segments begin with the bound's turns on the blanks a bucket's trailing slashes leave. */
  lemma BlanksDecide(base: seq<string>, k: nat, names: seq<string>, local: bool)
    requires PathSegments(names) && names != [] && ".." !in base
    ensures var placed := base + (if local then [] else Blanks(k)) + names;
            ".." !in placed && (base + names <= placed <==> k == 0 || local)
  {
    assert ".." !in names && names[0] != "";
    assert ".." !in Blanks(k);
    BlanksBreakPrefix(base, k, names);
    assert base + [] == base;
  }

  lemma BlanksBreakPrefix(base: seq<string>, k: nat, names: seq<string>)
    requires names != [] && names[0] != ""
    ensures base + names <= base + Blanks(k) + names <==> k == 0
  {
    if k > 0 {
      assert (base + names)[|base|] == names[0] && (base + Blanks(k) + names)[|base|] == "";
    } else {
      assert base + Blanks(0) + names == base + names;
    }
  }

  /** A slash-terminated bucket: the registry's own default is outside the table's bound. */
  lemma SlashedBucketIsRefused(bucket: string, namespace: seq<string>, name: string)
    requires PathSegment(bucket) && namespace != [] && PathSegments(ResourcePath(namespace, name))
    ensures var warehouse := "s3://" + bucket + "/";
            LocationBound.New(TableScope, warehouse, NamespacePrefix(warehouse, namespace), name)
            .Ensure(AssignedLocation(warehouse, namespace, name)).Err?
  {
    var scheme := "s3";
    assert ToLower(scheme) == scheme;
    var warehouse := scheme + "://" + bucket + "/";
    assert "s3://" + bucket + "/" == warehouse;
    assert forall i :: 0 <= i < |namespace| ==> namespace[i] == ResourcePath(namespace, name)[i];
    BoundIsCanonicalPrefix(warehouse, namespace, name);
    SlashedBucket(scheme, bucket, warehouse);
    AssignedPassesBoundIff(warehouse, namespace, name);
  }

  lemma SlashedBucket(scheme: string, bucket: string, warehouse: string)
    requires PathSegment(bucket) && scheme == "s3" && ToLower(scheme) == scheme
             && warehouse == scheme + "://" + bucket + "/"
    ensures TraversalFree(warehouse) && !DefaultPassesBound(warehouse)
  {
    var trimmed := scheme + "://" + bucket;
    assert warehouse[..|warehouse| - 1] == trimmed;
    assert trimmed[|trimmed| - 1] == bucket[|bucket| - 1] != '/';
    assert TrimEnd(trimmed, '/') == trimmed && MarkerAt(trimmed, |scheme|);
    SchemeIsFree(scheme);
    SplitWithAuthority(scheme, bucket);
    BucketParts(scheme, bucket);
  }

  lemma SchemeIsFree(scheme: string)
    requires scheme == "s3"
    ensures ':' !in scheme && '/' !in scheme + ":"
  {
  }

  lemma BucketParts(scheme: string, bucket: string)
    requires PathSegment(bucket) && '/' !in scheme + ":" && scheme != ""
    ensures TraversalFree(scheme + "://" + bucket + "/")
  {
    SplitFree("", '/');
    SplitFree(bucket, '/');
    SplitFree(scheme + ":", '/');
    SplitAtSep(bucket, "", '/');
    SplitAtSep("", bucket + ['/'] + "", '/');
    SplitAtSep(scheme + ":", "" + ['/'] + (bucket + ['/'] + ""), '/');
    assert (scheme + ":") + ['/'] + ("" + ['/'] + (bucket + ['/'] + "")) == scheme + "://" + bucket + "/";
    assert (scheme + ":")[|scheme|] == ':';
  }
}
