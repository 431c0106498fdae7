/** When a metadata path lies inside the location it is built from. */
module MetadataLaws {

  import opened Prelude
  import opened Text
  import opened Location
  import opened LocationLaws
  import opened Names
  import opened Layout
  import opened LayoutLaws
  import opened MetadataFile

  /** The text ends in `:/`, so one more slash would complete a `://`. */
  predicate EndsWithColonSlash(s: string) {
    |s| >= 2 && s[|s| - 2] == ':' && s[|s| - 1] == '/'
  }

  /** The text is a scheme and its colon, so a slash would turn a local path into a URI. */
  predicate IsBareScheme(s: string) {
    s != "" && s[|s| - 1] == ':' && IsScheme(s[..|s| - 1])
  }

  /** Appending `/…` leaves the text naming the same place, one level further down. */
  predicate AppendKeepsPlace(location: string) {
    var place := SplitLocation(location);
    match FirstMarker(location, 0)
    case Some(_) => place.scheme == "file" ==> place.path != ""
    case None =>
      && location != ""
      && !IsBareScheme(location)
      && (EndsWithColonSlash(location) ==> place.scheme != "file" && place.path == "/")
  }

  /** Levels appended to a place of either kind keep its roots in front. */
  lemma LevelsStayBelow(place: Place, names: seq<string>)
    requires names != [] && PathSegments(names)
    requires place.scheme == "file" ==> place.path != ""
    ensures Contains(place, Place(place.scheme, place.path + Levels(names))) <==> ".." !in place.Segs()
  {
    var l := Levels(names);
    LevelsShape(names);
    if place.scheme == "file" {
      SplitBelow(place.path, names);
      NonEmptyConcat(Split(place.path, '/'), names);
      NonEmptyKeeps(names);
    } else if StripSlash(place.path) == "" {
      EmptyPathBelow(place.path, names);
    } else {
      assert StripSlash(place.path + l) == StripSlash(place.path) + l;
      SplitBelow(StripSlash(place.path), names);
    }
  }

  lemma SplitOfLevelsAlone(names: seq<string>)
    requires names != [] && PathSegments(names)
    ensures Split(Levels(names)[1..], '/') == names && Split(Levels(names), '/') == [""] + names
  {
    LevelsAlone(names);
    SplitBelow("", names);
    assert "" + Levels(names) == Levels(names);
  }

  lemma LevelsHaveNoTraversal(names: seq<string>)
    requires names != [] && PathSegments(names)
    ensures ".." !in Split(Levels(names), '/') && ".." !in Split(Levels(names)[1..], '/')
  {
    SplitOfLevelsAlone(names);
    assert ".." !in names;
  }

  lemma EmptyPathBelow(path: string, names: seq<string>)
    requires names != [] && PathSegments(names) && StripSlash(path) == ""
    ensures ".." !in Split(StripSlash(path + Levels(names)), '/')
  {
    var l := Levels(names);
    LevelsShape(names);
    LevelsHaveNoTraversal(names);
    if path == "" {
      assert "" + l == l;
    } else {
      assert path == "/";
      assert (path + l)[1..] == l;
    }
  }

  lemma MarkedAppend(location: string, l: string)
    requires HasMarker(location)
    ensures SplitLocation(location + l) ==
            Place(SplitLocation(location).scheme, SplitLocation(location).path + l)
  {
    var i := FirstMarker(location, 0).value;
    var s := location + l;
    assert s[..i] == location[..i] && s[i + 3..] == location[i + 3..] + l && MarkerAt(s, i);
    forall j: nat | j < i ensures !MarkerAt(s, j) {
      assert !MarkerAt(location, j);
    }
    MarkerPosition(s, i);
  }

  /** Without a marker, and not ending in `:/`, the append makes no marker either. */
  lemma UnmarkedAppend(location: string, l: string)
    requires FirstMarker(location, 0) == None && !EndsWithColonSlash(location)
    requires NoDoubleSlash(l) && IsAbsolute(l) && |l| > 1
    ensures FirstMarker(location + l, 0) == None
  {
    var s := location + l;
    forall i: nat ensures !MarkerAt(s, i) {
      if i + 2 < |location| {
        assert !MarkerAt(location, i);
      } else if |location| <= i + 1 && i + 2 < |s| {
        assert s[i + 1] == l[i + 1 - |location|] && s[i + 2] == l[i + 2 - |location|];
      }
    }
  }

  lemma ColonPlace(location: string, l: string, i: nat)
    requires FirstMarker(location, 0) == None && FirstMarker(location + l, 0) == None
    requires IsAbsolute(l) && !IsBareScheme(location) && IndexOf(location, ':') == Some(i)
    ensures SplitLocation(location + l) ==
            Place(SplitLocation(location).scheme, SplitLocation(location).path + l)
  {
    var s := location + l;
    FirstColonStays(location, l, i);
    assert s[..i] == location[..i] && s[i + 1..] == location[i + 1..] + l;
    if location[i + 1..] == "" {
      assert location[..|location| - 1] == location[..i];
    }
  }

  lemma FirstColonStays(location: string, l: string, i: nat)
    requires IndexOf(location, ':') == Some(i)
    ensures IndexOf(location + l, ':') == Some(i)
  {
    var s := location + l;
    assert s[i] == location[i] && forall j :: 0 <= j < i ==> s[j] == location[j];
  }

  lemma PlainPlace(location: string, l: string)
    requires FirstMarker(location, 0) == None && FirstMarker(location + l, 0) == None
    requires IsAbsolute(l) && ':' !in location
    ensures SplitLocation(location + l) == Place("file", location + l)
  {
    var s := location + l;
    if IndexOf(s, ':').Some? {
      var j := IndexOf(s, ':').value;
      assert forall k :: 0 <= k < |location| ==> s[k] == location[k] && s[k] != ':';
      assert s[|location|] == '/';
      SlashIsNoScheme(s[..j], |location|);
    }
  }

  lemma UnmarkedPlace(location: string, l: string)
    requires FirstMarker(location, 0) == None && FirstMarker(location + l, 0) == None
    requires IsAbsolute(l) && !IsBareScheme(location)
    ensures SplitLocation(location + l) ==
            Place(SplitLocation(location).scheme, SplitLocation(location).path + l)
  {
    match IndexOf(location, ':')
    case Some(i) => ColonPlace(location, l, i);
    case None => PlainPlace(location, l);
  }

  lemma BareSchemeLeaves(location: string, l: string)
    requires IsBareScheme(location) && IsAbsolute(l)
    requires FirstMarker(location, 0) == None && FirstMarker(location + l, 0) == None
    ensures !IsWithin(location, location + l)
  {
    var s, n := location + l, |location| - 1;
    SchemeHasNoColon(location[..n]);
    assert forall j :: 0 <= j < n ==> location[j] == location[..n][j] && s[j] == location[j];
    assert location[n] == ':' && s[n] == ':';
    assert IndexOf(location, ':') == Some(n) && IndexOf(s, ':') == Some(n);
    assert location[n + 1..] == "" && s[..n] == location[..n] && s[n + 1..] == l;
    assert SplitLocation(location) == Place("file", location);
    assert location[0] == location[..n][0];
  }

  lemma ColonSlashPlace(location: string, l: string)
    requires FirstMarker(location, 0) == None && EndsWithColonSlash(location) && IsAbsolute(l)
    ensures SplitLocation(location + l) ==
            Place(CanonicalScheme(ToLower(location[..|location| - 2])), l[1..])
  {
    var s, n := location + l, |location| - 2;
    assert s[..n] == location[..n] && s[n + 3..] == l[1..] && MarkerAt(s, n);
    forall j: nat | j < n ensures !MarkerAt(s, j) {
      assert !MarkerAt(location, j);
    }
    MarkerPosition(s, n);
  }

  lemma CanonicalKeepsColon(scheme: string)
    ensures ':' in CanonicalScheme(ToLower(scheme)) <==> ':' in scheme
  {
    var lower := ToLower(scheme);
    if ':' in scheme {
      var i :| 0 <= i < |scheme| && scheme[i] == ':';
      assert lower[i] == ':';
    }
    if ':' in lower {
      var i :| 0 <= i < |lower| && lower[i] == ':';
      assert scheme[i] == ':';
    }
  }

  lemma FileSchemeIsScheme(scheme: string)
    requires CanonicalScheme(ToLower(scheme)) == "file"
    ensures IsScheme(scheme)
  {
    var lower := ToLower(scheme);
    assert lower == "file";
    forall c | c in scheme[1..] ensures IsSchemeChar(c) {
      var i :| 0 <= i < |scheme[1..]| && scheme[1..][i] == c;
      assert lower[i + 1] == LowerChar(c);
    }
    assert lower[0] == LowerChar(scheme[0]);
  }

  /** After `:/` the append is read as an authority, which only a slash-only object-store root survives. */
  lemma ColonSlashLeaves(location: string, l: string)
    requires FirstMarker(location, 0) == None && EndsWithColonSlash(location)
    requires IsAbsolute(l) && !IsAbsolute(l[1..])
    requires IsWithin(location, location + l)
    ensures SplitLocation(location).scheme != "file" && SplitLocation(location).path == "/"
  {
    ColonSlashPlace(location, l);
    var n := |location| - 2;
    var scheme := location[..n];
    CanonicalKeepsColon(scheme);
    var i := IndexOf(location, ':').value;
    CanonicalKeepsColon(location[..i]);
    if i == n {
      assert location[i + 1..] == "/";
    } else {
      assert scheme[i] == ':';
      if CanonicalScheme(ToLower(scheme)) == "file" {
        FileSchemeIsScheme(scheme);
        SchemeHasNoColon(scheme);
      }
    }
    if i == n && CanonicalScheme(ToLower(scheme)) == "file" {
      FileSchemeIsScheme(scheme);
    }
  }

  /**
   * A metadata path is inside the location it is built from exactly when the location is
   * traversal-free and appending to its text keeps its place. The file name is two levels.
   */
  lemma MetadataPathIsInside(location: string, version: nat, uuid: string, suffix: string)
    requires IsFilePart(uuid) && IsFilePart(suffix)
    ensures IsWithin(location, MetadataPath(location, version, uuid, suffix)) <==>
            NoTraversal(location) && AppendKeepsPlace(location)
  {
    var names := ["metadata", FileName(version, uuid, suffix)];
    FileNameHasNoSlash(version, uuid, suffix);
    assert location + Levels(names) == MetadataPath(location, version, uuid, suffix) by {
      assert location + ("" + "/metadata/" + FileName(version, uuid, suffix))
          == location + "/metadata/" + FileName(version, uuid, suffix);
    }
    LevelsInside(location, names);
  }

  lemma LevelsInside(location: string, names: seq<string>)
    requires names != [] && PathSegments(names)
    ensures IsWithin(location, location + Levels(names)) <==> NoTraversal(location) && AppendKeepsPlace(location)
  {
    var l := Levels(names);
    LevelsShape(names);
    if HasMarker(location) {
      MarkedAppend(location, l);
      MarkedLevelsInside(SplitLocation(location), names);
    } else if EndsWithColonSlash(location) {
      ColonSlashInside(location, names);
    } else {
      UnmarkedAppend(location, l);
      if IsBareScheme(location) {
        BareSchemeLeaves(location, l);
      } else {
        UnmarkedPlace(location, l);
        UnmarkedPathEmpty(location);
        MarkedLevelsInside(SplitLocation(location), names);
      }
    }
  }

  lemma UnmarkedPathEmpty(location: string)
    requires FirstMarker(location, 0) == None
    ensures SplitLocation(location).path == "" <==> location == ""
    ensures location == "" ==> SplitLocation(location).scheme == "file"
  {
  }

  lemma MarkedLevelsInside(place: Place, names: seq<string>)
    requires names != [] && PathSegments(names)
    ensures Contains(place, Place(place.scheme, place.path + Levels(names))) <==>
            ".." !in place.Segs() && (place.scheme == "file" ==> place.path != "")
  {
    LevelsShape(names);
    if place.scheme == "file" ==> place.path != "" {
      LevelsStayBelow(place, names);
    } else {
      assert place.path + Levels(names) == Levels(names);
    }
  }

  lemma ColonSlashInside(location: string, names: seq<string>)
    requires names != [] && PathSegments(names)
    requires FirstMarker(location, 0) == None && EndsWithColonSlash(location)
    ensures IsWithin(location, location + Levels(names)) <==> NoTraversal(location) && AppendKeepsPlace(location)
  {
    var l := Levels(names);
    LevelsShape(names);
    assert l[1..][0] == l[1];
    assert !IsBareScheme(location);
    if IsWithin(location, location + l) {
      ColonSlashLeaves(location, l);
      SlashHasNoSegments(SplitLocation(location));
    } else if AppendKeepsPlace(location) {
      ColonSlashStays(location, names);
    }
  }

  lemma SlashHasNoSegments(place: Place)
    requires place.path == "/" && place.scheme != "file"
    ensures place.Segs() == []
  {
    assert StripSlash("/") == "";
  }

  lemma ColonSlashStays(location: string, names: seq<string>)
    requires names != [] && PathSegments(names)
    requires FirstMarker(location, 0) == None && EndsWithColonSlash(location)
    requires SplitLocation(location).scheme != "file" && SplitLocation(location).path == "/"
    ensures IsWithin(location, location + Levels(names))
  {
    var l := Levels(names);
    LevelsShape(names);
    ColonSlashPlace(location, l);
    var i := IndexOf(location, ':').value;
    assert location[i + 1..] == "/";
    assert i == |location| - 2;
    SlashHasNoSegments(SplitLocation(location));
    EmptyPathBelow("", names);
    assert "" + l == l;
    assert StripSlash(l[1..]) == l[1..] == StripSlash(l);
  }

  /** A location the registry assigns always keeps its metadata. */
  lemma AssignedLocationKeepsMetadata(warehouse: string, namespace: seq<string>, name: string,
                                      version: nat, uuid: string, suffix: string)
    requires TraversalFree(warehouse) && PathSegments(ResourcePath(namespace, name))
    requires IsFilePart(uuid) && IsFilePart(suffix)
    ensures var location := CanonicalPrefix(warehouse, namespace, name);
            IsWithin(location, MetadataPath(location, version, uuid, suffix))
  {
    var location := CanonicalPrefix(warehouse, namespace, name);
    CanonicalPrefixHasNoTraversal(warehouse, namespace, name);
    CanonicalPlace(warehouse, namespace, name);
    LevelsShape(ResourcePath(namespace, name));
    assert ResourcePath(namespace, name)[|namespace|] == name;
    assert location[|location| - 1] == name[|name| - 1];
    if IsBareScheme(location) {
      var k := |NamespacePrefix(warehouse, namespace)|;
      assert location[..|location| - 1][k] == '/';
      SlashIsNoScheme(location[..|location| - 1], k);
    }
    MetadataPathIsInside(location, version, uuid, suffix);
  }

  lemma FileColon()
    ensures IsBareScheme("file:") && FirstMarker("file:", 0) == None && NoTraversal("file:")
  {
    var location := "file:";
    assert location[..4] == "file" && IsScheme("file");
    assert forall i: nat :: !MarkerAt(location, i);
    assert location[4] == ':' && forall j :: 0 <= j < 4 ==> location[j] != ':';
    assert SplitLocation(location) == Place("file", location);
    SplitFree(location, '/');
    assert SplitLocation(location).Segs() == [location];
  }

  /** A location that is only a scheme and its colon loses its metadata: a slash turns it into a URI. */
  lemma BareSchemeLosesItsMetadata(version: nat, uuid: string, suffix: string)
    requires IsFilePart(uuid) && IsFilePart(suffix)
    ensures NoTraversal("file:") && !IsWithin("file:", MetadataPath("file:", version, uuid, suffix))
  {
    FileColon();
    MetadataPathIsInside("file:", version, uuid, suffix);
  }
}
