/** What reachable catalogs say of storage: when two live tables share it, and where their metadata lies. */
module Sharing {

  import opened Prelude
  import opened Text
  import opened Location
  import opened LocationLaws
  import opened WrittenLocations
  import opened Names
  import opened Layout
  import opened LayoutLaws
  import opened Bound
  import opened MetadataFile
  import opened MetadataLaws
  import opened Assigned
  import opened Lifecycle

  // ---------------------------------------------------------------------------
  // Default locations
  // ---------------------------------------------------------------------------

  /** A place whose segments are `base` and then `names`. */
  ghost predicate LiesAt(place: Place, scheme: string, absolute: bool, base: seq<string>, names: seq<string>) {
    && place.scheme == scheme && IsAbsolute(place.path) == absolute
    && place.Segs() == base + names && place.Roots() == place.Segs()
  }

  lemma RootsBelow(place: Place, base: seq<string>, names: seq<string>)
    requires names != [] && PathSegments(names) && place.Segs() == base + names
    ensures place.Roots() == place.Segs()
  {
    TrimOfNames(base, names);
  }

  /** Without trailing slashes. */
  lemma UnslashedPlace(t: string, names: seq<string>)
    requires !EndsWithSlash(t) && names != [] && PathSegments(names)
    ensures LiesAt(SplitLocation(t + Levels(names)), Base(t).scheme, IsAbsolute(Base(t).path + "/"), Base(t).Segs(),
                   names)
  {
    RootAt(t, names);
    LevelsShape(names);
  }

  /** The segments that trailing slashes put between a warehouse and the names. */
  function SlashBase(t: string, k: nat): seq<string> {
    if FirstMarker(t, 0).None? && EndsWithColon(t) then
      BlankSegments(CanonicalScheme(ToLower(t[..|t| - 1])), k)
    else Base(t).Segs() + (if Base(t).scheme == "file" then [] else Blanks(k))
  }

  function SlashScheme(t: string): string {
    if FirstMarker(t, 0).None? && EndsWithColon(t) then CanonicalScheme(ToLower(t[..|t| - 1])) else Base(t).scheme
  }

  lemma SlashedPlaceOf(t: string, k: nat, names: seq<string>)
    requires !EndsWithSlash(t) && k > 0 && names != [] && PathSegments(names)
    ensures LiesAt(SplitLocation(t + (Slashes(k) + Levels(names))), SlashScheme(t),
                   if FirstMarker(t, 0).None? && EndsWithColon(t) then k >= 2 else IsAbsolute(Base(t).path + "/"),
                   SlashBase(t, k), names)
  {
    LevelsShape(names);
    var place := SplitLocation(t + (Slashes(k) + Levels(names)));
    if FirstMarker(t, 0).None? && EndsWithColon(t) {
      ColonWarehouse(t, k, Levels(names));
      BareSchemePath(SlashScheme(t), k, names);
    } else {
      SlashedLevelsHaveNoMarker(k, Levels(names));
      SlashedPlace(t, k, Levels(names));
      BasePathHasNoTrailingSlash(t);
      BasePathIsThere(t);
      BelowSlashes(Base(t), k, names);
    }
    RootsBelow(place, SlashBase(t, k), names);
  }

  lemma SlashBaseHasNoTraversal(t: string, k: nat)
    requires TraversalFree(t)
    ensures ".." !in SlashBase(t, k)
  {
    TraversalFreeBase(t);
    assert ".." !in Blanks(k) && ".." !in Blanks(ExtraBlanks(k));
  }

  /** Two default locations of one warehouse lie below one place, each at its names. */
  lemma AssignedPlaces(warehouse: string, a: Ident, b: Ident)
    returns (scheme: string, absolute: bool, base: seq<string>)
    requires TraversalFree(warehouse) && PathSegments(a.Path()) && PathSegments(b.Path())
    requires a.namespace != [] && b.namespace != []
    ensures ".." !in base
    ensures LiesAt(SplitLocation(DefaultOf(warehouse, a)), scheme, absolute, base, a.Path())
    ensures LiesAt(SplitLocation(DefaultOf(warehouse, b)), scheme, absolute, base, b.Path())
  {
    var t := TrimEnd(warehouse, '/');
    var k := |warehouse| - |t|;
    TrimParts(warehouse);
    TraversalFreeTrim(warehouse);
    LocationsFromTrimmed(warehouse, a.namespace, a.name, t, k);
    LocationsFromTrimmed(warehouse, b.namespace, b.name, t, k);
    if k == 0 {
      scheme, absolute, base := Base(t).scheme, IsAbsolute(Base(t).path + "/"), Base(t).Segs();
      TraversalFreeBase(t);
      UnslashedPlace(t, a.Path());
      UnslashedPlace(t, b.Path());
      assert Slashes(0) + Levels(a.Path()) == Levels(a.Path());
      assert Slashes(0) + Levels(b.Path()) == Levels(b.Path());
    } else {
      scheme, base := SlashScheme(t), SlashBase(t, k);
      absolute := if FirstMarker(t, 0).None? && EndsWithColon(t) then k >= 2 else IsAbsolute(Base(t).path + "/");
      SlashBaseHasNoTraversal(t, k);
      SlashedPlaceOf(t, k, a.Path());
      SlashedPlaceOf(t, k, b.Path());
    }
  }

  function DefaultOf(warehouse: string, ident: Ident): string {
    AssignedLocation(warehouse, ident.namespace, ident.name)
  }

  lemma PlacesNestIff(p: Place, q: Place, scheme: string, absolute: bool, base: seq<string>, a: seq<string>,
                      b: seq<string>)
    requires LiesAt(p, scheme, absolute, base, a) && LiesAt(q, scheme, absolute, base, b)
    requires ".." !in base && PathSegments(a) && PathSegments(b)
    ensures Contains(p, q) <==> a <= b
    ensures ".." !in p.Segs() && ".." !in q.Segs()
  {
    PrefixBelow(base, a, b);
  }

  /** Two default locations overlap exactly when one path starts the other. */
  lemma DefaultsOverlapIff(warehouse: string, a: Ident, b: Ident)
    requires TraversalFree(warehouse) && PathSegments(a.Path()) && PathSegments(b.Path())
    requires a.namespace != [] && b.namespace != []
    ensures Overlap(DefaultOf(warehouse, a), DefaultOf(warehouse, b)) <==> a.Path() <= b.Path() || b.Path() <= a.Path()
  {
    var scheme, absolute, base := AssignedPlaces(warehouse, a, b);
    var p, q := SplitLocation(DefaultOf(warehouse, a)), SplitLocation(DefaultOf(warehouse, b));
    PlacesNestIff(p, q, scheme, absolute, base, a.Path(), b.Path());
    PlacesNestIff(q, p, scheme, absolute, base, b.Path(), a.Path());
    OverlapIsNesting(DefaultOf(warehouse, a), DefaultOf(warehouse, b));
  }

  /** Two `..`-free locations have something inside both exactly when one is inside the other. */
  lemma OverlapIsNesting(a: string, b: string)
    requires NoTraversal(a) && NoTraversal(b)
    ensures Overlap(a, b) <==> IsWithin(a, b) || IsWithin(b, a)
  {
    WithinIsReflexive(a);
    WithinIsReflexive(b);
    if Overlap(a, b) {
      var location :| IsWithin(a, location) && IsWithin(b, location);
      SharedPlaceIsComparable(SplitLocation(a), SplitLocation(b), SplitLocation(location));
    }
  }

  // ---------------------------------------------------------------------------
  // Over runs
  // ---------------------------------------------------------------------------

  lemma HeldHasNoTraversal(c: Catalog, names: seq<Ident>, location: string)
    requires Held(c, names, location)
    ensures NoTraversal(location)
  {
  }

  /**
   * In every reachable catalog, two tables' storage overlaps exactly when one recorded location is inside the other.
   */
  lemma RecordedLocationsOverlapIff(u: Unicode, scope: LocationScope, warehouse: string, steps: seq<Step>, a: Ident,
                                    b: Ident)
    requires u.Covers() && SoundWarehouse(Empty(scope, warehouse))
    requires var c := Run(u, Empty(scope, warehouse), steps); a in c.tables && b in c.tables
    ensures var c := Run(u, Empty(scope, warehouse), steps);
            var p, q := c.tables[a].location, c.tables[b].location;
            Overlap(p, q) <==> IsWithin(p, q) || IsWithin(q, p)
  {
    RunKeepsTablesHeld(u, scope, warehouse, steps);
    var c := Run(u, Empty(scope, warehouse), steps);
    HeldHasNoTraversal(c, c.tables[a].names, c.tables[a].location);
    HeldHasNoTraversal(c, c.tables[b].names, c.tables[b].location);
    OverlapIsNesting(c.tables[a].location, c.tables[b].location);
  }

  /** A step that leaves every table where its name first put it. */
  predicate IsDefault(step: Step) {
    match step
    case Create(_, location) => location.None?
    case Register(_, _) => false
    case Commit(_, updates) => forall i :: 0 <= i < |updates| ==> !updates[i].SetLocation?
    case _ => true
  }

  lemma {:induction false} NotMoved(location: string, updates: seq<TableUpdate>)
    requires forall i :: 0 <= i < |updates| ==> !updates[i].SetLocation?
    ensures Moved(location, updates) == location
    decreases |updates|
  {
    if updates != [] {
      NotMoved(location, updates[1..]);
    }
  }

  /** Every table is where the first of its names put it. */
  ghost predicate PlacedByName(u: Unicode, c: Catalog) {
    forall ident :: ident in c.tables ==>
      && c.tables[ident].names != [] && ValidIdent(u, c.tables[ident].names[0])
      && c.tables[ident].location == DefaultOf(c.warehouse, c.tables[ident].names[0])
  }

  lemma StepKeepsPlaced(u: Unicode, c: Catalog, step: Step)
    requires PlacedByName(u, c) && IsDefault(step)
    ensures PlacedByName(u, After(u, c, step)) && After(u, c, step).warehouse == c.warehouse
  {
    if step.Commit? && step.ident in c.tables {
      NotMoved(c.tables[step.ident].location, step.updates);
    }
  }

  lemma {:induction false} DefaultRunKeepsPlaced(u: Unicode, scope: LocationScope, warehouse: string, steps: seq<Step>)
    requires forall i :: 0 <= i < |steps| ==> IsDefault(steps[i])
    ensures var c := Run(u, Empty(scope, warehouse), steps);
            PlacedByName(u, c) && c.warehouse == warehouse
    decreases |steps|
  {
    if steps != [] {
      DefaultRunKeepsPlaced(u, scope, warehouse, steps[..|steps| - 1]);
      StepKeepsPlaced(u, Run(u, Empty(scope, warehouse), steps[..|steps| - 1]), steps[|steps| - 1]);
    }
  }

  /**
   * When tables are created at their defaults and never moved, two of them share storage exactly when the names they
   * were created under start one another; what they are called now plays no part.
   */
  lemma TablesShareIff(u: Unicode, scope: LocationScope, warehouse: string, steps: seq<Step>, a: Ident, b: Ident)
    requires u.Covers() && TraversalFree(warehouse) && forall i :: 0 <= i < |steps| ==> IsDefault(steps[i])
    requires var c := Run(u, Empty(scope, warehouse), steps); a in c.tables && b in c.tables
    ensures var c := Run(u, Empty(scope, warehouse), steps);
            && c.tables[a].names != [] && c.tables[b].names != []
            && var x, y := c.tables[a].names[0], c.tables[b].names[0];
               (Overlap(c.tables[a].location, c.tables[b].location) <==> x.Path() <= y.Path() || y.Path() <= x.Path())
  {
    DefaultRunKeepsPlaced(u, scope, warehouse, steps);
    var c := Run(u, Empty(scope, warehouse), steps);
    var x, y := c.tables[a].names[0], c.tables[b].names[0];
    ValidIdentIsPath(u, x);
    ValidIdentIsPath(u, y);
    DefaultsOverlapIff(warehouse, x, y);
  }

  /** Create `a`, rename it to `b`, create `a` again: both were created as `a`, and have one location. */
  lemma ReusedNameSharesLocation(u: Unicode, scope: LocationScope, warehouse: string, a: Ident, b: Ident)
    requires ValidIdent(u, a) && ValidIdent(u, b) && a != b
    ensures var c := Run(u, Empty(scope, warehouse), [Create(a, None), Rename(a, b), Create(a, None)]);
            && a in c.tables && b in c.tables && c.tables[a].location == c.tables[b].location
            && c.tables[a].names == [a] && c.tables[b].names == [a, b]
  {
    var c0 := Empty(scope, warehouse);
    var s1, s2, s3 := Create(a, None), Rename(a, b), Create(a, None);
    assert [s1, s2, s3][..2] == [s1, s2] && [s1, s2][..1] == [s1] && [s1][..0] == [];
    assert Run(u, c0, [s1]) == After(u, c0, s1);
    assert Run(u, c0, [s1, s2]) == After(u, Run(u, c0, [s1]), s2);
    assert Run(u, c0, [s1, s2, s3]) == After(u, Run(u, c0, [s1, s2]), s3);
  }

  // ---------------------------------------------------------------------------
  // Metadata files over runs
  // ---------------------------------------------------------------------------

  /**
   * In every reachable catalog a metadata file built for a table lies inside its recorded location exactly when
   * a slash after that location keeps its meaning, and it is then inside a bound the table has held.
   */
  lemma MetadataIsHeldIff(u: Unicode, scope: LocationScope, warehouse: string, steps: seq<Step>, ident: Ident,
                          version: nat, uuid: string, suffix: string)
    requires u.Covers() && SoundWarehouse(Empty(scope, warehouse)) && IsFilePart(uuid) && IsFilePart(suffix)
    requires ident in Run(u, Empty(scope, warehouse), steps).tables
    ensures var c := Run(u, Empty(scope, warehouse), steps);
            var t := c.tables[ident];
            var file := MetadataPath(t.location, version, uuid, suffix);
            && (IsWithin(t.location, file) <==> AppendKeepsPlace(t.location))
            && (AppendKeepsPlace(t.location) ==> Held(c, t.names, file))
  {
    RunKeepsTablesHeld(u, scope, warehouse, steps);
    var c := Run(u, Empty(scope, warehouse), steps);
    var t := c.tables[ident];
    HeldHasNoTraversal(c, t.names, t.location);
    MetadataPathIsInside(t.location, version, uuid, suffix);
    if AppendKeepsPlace(t.location) {
      HeldBelow(c, t.names, t.location, MetadataPath(t.location, version, uuid, suffix));
    }
  }

  lemma ColonSlashSplits(root: string, location: string)
    requires root != "" && ':' !in root && !EndsWithSlash(root) && location == root + "/x:/"
    ensures SplitLocation(location) == Place("file", location)
    ensures FirstMarker(location, 0).None? && EndsWithColonSlash(location)
  {
    var n := |root| + 2;
    assert location[n] == ':' && forall j :: 0 <= j < n ==> location[j] != ':' by {
      assert location[..|root|] == root;
      assert forall j :: 0 <= j < |root| ==> location[j] == root[j];
    }
    assert IndexOf(location, ':') == Some(n);
    assert forall i: nat :: !MarkerAt(location, i);
    assert location[..n][|root|] == '/';
    SlashIsNoScheme(location[..n], |root|);
  }

  /** A commit that moves a table to a location inside the bound leaves it there. */
  lemma MovedTableIsThere(u: Unicode, warehouse: string, ident: Ident, location: string)
    requires ValidIdent(u, ident) && IsWithin(warehouse, location)
    ensures var steps := [Create(ident, None), Step.Commit(ident, [SetLocation(location)])];
            var c := Run(u, Empty(WarehouseScope, warehouse), steps);
            ident in c.tables && c.tables[ident].location == location
  {
    var c0 := Empty(WarehouseScope, warehouse);
    var s1, s2 := Create(ident, None), Step.Commit(ident, [SetLocation(location)]);
    assert [s1, s2][..1] == [s1] && [s1][..0] == [];
    assert Run(u, c0, [s1]) == After(u, c0, s1);
    var c1 := After(u, c0, s1);
    var updates := [SetLocation(location)];
    assert updates[1..] == [];
    assert c1.BoundOf(ident).EnsureCommit(c1.tables[ident].location, updates).Ok?;
    assert Moved(c1.tables[ident].location, updates) == location;
    assert Run(u, c0, [s1, s2]) == After(u, c1, s2);
  }

  /**
   * A local table created and then moved to a directory called `x:`, spelled with a slash after it, is inside its
   * bound and loses its metadata.
   */
  lemma ColonDirectoryLosesItsMetadata(u: Unicode, root: string, ident: Ident, version: nat, uuid: string,
                                       suffix: string)
    requires IsAbsolute(root) && root != "/" && ':' !in root && !EndsWithSlash(root) && TraversalFree(root)
    requires IsFilePart(uuid) && IsFilePart(suffix) && ValidIdent(u, ident)
    ensures var warehouse, location := "file://" + root, root + "/x:/";
            var steps := [Create(ident, None), Step.Commit(ident, [SetLocation(location)])];
            var c := Run(u, Empty(WarehouseScope, warehouse), steps);
            && ident in c.tables && c.tables[ident].location == location && IsWithin(warehouse, location)
            && !IsWithin(location, MetadataPath(location, version, uuid, suffix))
  {
    var location := root + "/x:/";
    ColonSlashSplits(root, location);
    LocalUrl(root, "file");
    MetadataPathIsInside(location, version, uuid, suffix);
    ColonDirectoryIsInside(root, location);
    MovedTableIsThere(u, "file://" + root, ident, location);
  }

  lemma ColonDirectorySegments(root: string, tail: string, location: string)
    requires '/' !in tail && tail != "" && location == root + "/" + tail + "/"
    ensures Segments(location, "file") == Segments(root, "file") + [tail]
  {
    SplitAtSep(root, tail + "/", '/');
    SplitAtSep(tail, "", '/');
    SplitFree(tail, '/');
    SplitFree("", '/');
    assert tail + ['/'] + "" == tail + "/";
    assert root + ['/'] + (tail + "/") == location;
    NonEmptyConcat(Split(root, '/'), [tail] + [""]);
    NonEmptyConcat([tail], [""]);
    assert [tail][1..] == [] && [""][1..] == [];
    assert NonEmpty([tail]) == [tail] && NonEmpty([""]) == [];
  }

  lemma ColonDirectoryIsInside(root: string, location: string)
    requires IsAbsolute(root) && TraversalFree(root) && location == root + "/x:/"
    ensures Contains(Place("file", root), Place("file", location))
  {
    var tail := "x:";
    assert root + "/" + tail + "/" == location;
    ColonDirectorySegments(root, tail, location);
    TraversalFreeSegments(root, "file");
  }
}
