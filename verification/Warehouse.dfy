/** The warehouse an operator configures, and what the redb registry stores for it. */
module Warehouses {

  import opened Prelude
  import opened Text
  import opened Location
  import opened LocationLaws
  import opened Names
  import opened Layout
  import opened LayoutLaws
  import opened MetadataLaws
  import opened Assigned

  const FILE_URL := "file://"
  const FILE_COLON := "file:"

  /** The storage backends compiled in beside the local one. */
  datatype Features = Features(s3: bool, gcs: bool, azure: bool)

  datatype Refusal = MissingFeature(scheme: string) | UnknownScheme(scheme: string)

  /** `path_from_url`, on a platform without drive letters. */
  function PathFromUrl(location: string): string {
    if FILE_URL <= location then location[|FILE_URL|..]
    else if FILE_COLON <= location && IsAbsolute(location[|FILE_COLON|..]) then location[|FILE_COLON|..]
    else location
  }

  /** `Path::join`: an absolute path replaces the directory. */
  function JoinPath(directory: string, path: string): string {
    if IsAbsolute(path) then path
    else if directory == "" || EndsWithSlash(directory) then directory + path
    else directory + "/" + path
  }

  /** A location of another store than the local one. */
  predicate IsRemote(location: string) {
    FirstMarker(location, 0).Some? && !(FILE_URL <= location)
  }

  /** `normalize_warehouse`: a remote location as it is, a local one as the URL of an absolute path. */
  function NormalizeWarehouse(directory: string, location: string): string {
    if IsRemote(location) then location else FILE_URL + JoinPath(directory, PathFromUrl(location))
  }

  function EnsureSchemeSupported(features: Features, location: string): Option<Refusal> {
    match FirstMarker(location, 0)
    case None => None
    case Some(i) =>
      var scheme := location[..i];
      if scheme in {"file", "memory"} then None
      else if scheme in {"s3", "s3a", "s3n"} then if features.s3 then None else Some(MissingFeature(scheme))
      else if scheme in {"gs", "gcs"} then if features.gcs then None else Some(MissingFeature(scheme))
      else if scheme in {"abfs", "abfss", "az", "adls"} then
        if features.azure then None else Some(MissingFeature(scheme))
      else Some(UnknownScheme(scheme))
  }

  /** What opening the registry stores as its warehouse. */
  function OpenWarehouse(features: Features, directory: string, configured: string): Result<string, Refusal> {
    var stored := NormalizeWarehouse(directory, configured);
    match EnsureSchemeSupported(features, stored)
    case Some(refusal) => Err(refusal)
    case None => Ok(stored)
  }

  // ---------------------------------------------------------------------------
  // Local warehouses
  // ---------------------------------------------------------------------------

  lemma JoinIsAbsolute(directory: string, path: string)
    requires IsAbsolute(directory)
    ensures IsAbsolute(JoinPath(directory, path))
  {
  }

  lemma FileUrlMarker(path: string)
    ensures FirstMarker(FILE_URL + path, 0) == Some(4)
    ensures (FILE_URL + path)[..4] == "file"
  {
    var s := FILE_URL + path;
    assert MarkerAt(s, 4);
    assert forall j: nat :: j < 4 ==> s[j] == FILE_URL[j] != ':';
    MarkerPosition(s, 4);
  }

  /** Whatever slashes end it, the default locations of a local warehouse pass. */
  lemma LocalUrlPasses(path: string)
    requires IsAbsolute(path)
    ensures DefaultPassesBound(FILE_URL + path)
  {
    var s := FILE_URL + path;
    var t := TrimEnd(s, '/');
    if EndsWithSlash(s) {
      TrimParts(s);
      FileUrlMarker(path);
      if |t| > 6 {
        TrimmedFileUrl(s, t);
      } else {
        TrimmedToColon(s, t);
      }
    }
  }

  lemma TrimmedFileUrl(s: string, t: string)
    requires t <= s && |t| > 6 && FirstMarker(s, 0) == Some(4) && s[..4] == "file"
    ensures FirstMarker(t, 0).Some? && Base(t).scheme == "file"
  {
    assert MarkerAt(t, 4);
    forall j: nat | j < 4 ensures !MarkerAt(t, j) {
      assert !MarkerAt(s, j);
    }
    MarkerPosition(t, 4);
    assert t[..4] == "file";
    FileIsItself(t[..4]);
  }

  lemma FileIsItself(scheme: string)
    requires scheme == "file"
    ensures ToLower(scheme) == scheme && CanonicalScheme(ToLower(scheme)) == scheme && IsScheme(scheme)
  {
    assert ToLower(scheme) == scheme;
  }

  lemma TrimmedToColon(s: string, t: string)
    requires FILE_URL <= s && t <= s && t == TrimEnd(s, '/') && |t| <= 6 && |s| >= 7
    ensures SlashesPass(t, |s| - |t|)
  {
    TrimStopsAt(s, 5);
    assert t == FILE_COLON;
    assert t[..|t| - 1] == "file";
    FileIsItself(t[..|t| - 1]);
    assert forall i :: 0 <= i < |t| ==> t[i] != '/';
    BareSchemeBase(t);
  }

  /** Trimming stops at the last character that is no slash. */
  lemma TrimStopsAt(s: string, n: nat)
    requires 0 < n <= |s| && s[n - 1] != '/' && |TrimEnd(s, '/')| <= n + 1
    requires forall i :: n <= i < n + 2 && i < |s| ==> s[i] == '/'
    ensures TrimEnd(s, '/') == s[..n]
  {
    TrimKeepsPast(s, n);
  }

  lemma {:induction false} TrimKeepsPast(s: string, n: nat)
    requires 0 < n <= |s| && s[n - 1] != '/'
    ensures n <= |TrimEnd(s, '/')|
    decreases |s|
  {
    if EndsWithSlash(s) {
      TrimKeepsPast(s[..|s| - 1], n);
    }
  }

  // ---------------------------------------------------------------------------
  // Remote warehouses
  // ---------------------------------------------------------------------------

  /** A scheme and its marker, and nothing else. */
  predicate IsBareRemote(location: string) {
    FirstMarker(location, 0) == Some(|location| - 3)
  }

  predicate RemotePasses(location: string) {
    EndsWithSlash(location) ==> IsBareRemote(location)
  }

  lemma SupportedScheme(features: Features, location: string)
    requires IsRemote(location) && EnsureSchemeSupported(features, location).None?
    ensures var scheme := location[..FirstMarker(location, 0).value];
            IsScheme(scheme) && ToLower(scheme) == scheme && CanonicalScheme(scheme) != "file"
  {
    var i := FirstMarker(location, 0).value;
    var scheme := location[..i];
    assert scheme != "file" by {
      assert location[..i + 3] == scheme + FILE_URL[4..];
    }
    KnownScheme(scheme);
  }

  lemma KnownScheme(scheme: string)
    requires scheme in {"memory", "s3", "s3a", "s3n", "gs", "gcs", "abfs", "abfss", "az", "adls"}
    ensures IsScheme(scheme) && ToLower(scheme) == scheme && CanonicalScheme(scheme) != "file"
  {
    assert forall i :: 0 <= i < |scheme| ==> 'a' <= scheme[i] <= 'z' || scheme[i] == '3';
    assert ToLower(scheme) == scheme;
  }

  lemma RemotePassesIff(features: Features, location: string)
    requires IsRemote(location) && EnsureSchemeSupported(features, location).None?
    ensures DefaultPassesBound(location) <==> RemotePasses(location)
  {
    SupportedScheme(features, location);
    if EndsWithSlash(location) {
      var i, t := FirstMarker(location, 0).value, TrimEnd(location, '/');
      if |t| > i + 2 {
        TrimmedKeepsMarker(location, t, i);
      } else {
        TrimmedToScheme(location, t, i);
        assert t == location[..i] + ":";
        SchemeAndColon(t, location[..i], |location| - |t|);
      }
    }
  }

  /** The marker is inside what trimming leaves: a bucket, which takes no slash. */
  lemma TrimmedKeepsMarker(location: string, t: string, i: nat)
    requires t <= location && |t| > i + 2 && FirstMarker(location, 0) == Some(i) && !EndsWithSlash(t)
    requires EndsWithSlash(location)
    requires ToLower(location[..i]) == location[..i] && CanonicalScheme(location[..i]) != "file"
    ensures !SlashesPass(t, |location| - |t|) && i + 3 < |location|
  {
    assert MarkerAt(t, i);
    forall j: nat | j < i ensures !MarkerAt(t, j) {
      assert !MarkerAt(location, j);
    }
    MarkerPosition(t, i);
    assert t[..i] == location[..i];
    assert t != location;
  }

  /** Nothing but slashes follows the scheme: trimming leaves the scheme and its colon. */
  lemma TrimmedToScheme(location: string, t: string, i: nat)
    requires t == TrimEnd(location, '/') && |t| <= i + 2 && MarkerAt(location, i)
    ensures |t| == i + 1 && t[i] == ':' && t[..i] == location[..i]
  {
    TrimStopsAt(location, i + 1);
  }

  /** Then only the two slashes of the marker pass. */
  lemma SchemeAndColon(t: string, scheme: string, k: nat)
    requires t == scheme + ":" && IsScheme(scheme)
    requires ToLower(scheme) == scheme && CanonicalScheme(scheme) != "file"
    ensures SlashesPass(t, k) <==> k <= 2
  {
    assert t[..|t| - 1] == scheme;
    SchemeHasNoColon(scheme);
    assert forall i: nat :: i < |scheme| ==> t[i] == scheme[i];
    assert forall i: nat :: !MarkerAt(t, i);
    BareSchemeBase(t);
  }

  // ---------------------------------------------------------------------------
  // `..` in the configured text
  // ---------------------------------------------------------------------------

  lemma TraversalFreeJoined(a: string, b: string)
    ensures TraversalFree(a + "/" + b) <==> TraversalFree(a) && TraversalFree(b)
  {
    SplitAtSep(a, b, '/');
  }

  lemma TraversalFreeRooted(path: string)
    requires IsAbsolute(path)
    ensures TraversalFree(FILE_COLON + path) <==> TraversalFree(path)
  {
    var rest := path[1..];
    assert FILE_COLON + path == FILE_COLON + "/" + rest && path == "" + "/" + rest;
    TraversalFreeJoined(FILE_COLON, rest);
    TraversalFreeJoined("", rest);
    FileColonIsFree();
  }

  lemma FileColonIsFree()
    ensures TraversalFree(FILE_COLON) && TraversalFree("")
  {
    assert '/' !in FILE_COLON;
    SplitFree(FILE_COLON, '/');
    SplitFree("", '/');
    assert FILE_COLON[0] == 'f' && ".."[0] == '.';
  }

  lemma TraversalFreeUrl(path: string)
    ensures TraversalFree(FILE_URL + path) <==> TraversalFree(path)
  {
    var rooted := "//" + path;
    assert FILE_URL + path == FILE_COLON + rooted;
    TraversalFreeRooted(rooted);
    assert rooted == "/" + "/" + path && "/" == "" + "/" + "";
    TraversalFreeJoined("/", path);
    TraversalFreeJoined("", "");
    FileColonIsFree();
  }

  lemma TraversalFreePath(location: string)
    ensures TraversalFree(PathFromUrl(location)) <==> TraversalFree(location)
  {
    var path := PathFromUrl(location);
    if FILE_URL <= location {
      assert location == FILE_URL + path;
      TraversalFreeUrl(path);
    } else if FILE_COLON <= location && IsAbsolute(location[|FILE_COLON|..]) {
      assert location == FILE_COLON + path;
      TraversalFreeRooted(path);
    }
  }

  lemma TraversalFreeJoin(directory: string, path: string)
    requires IsAbsolute(directory) && TraversalFree(directory)
    ensures TraversalFree(JoinPath(directory, path)) <==> TraversalFree(path)
  {
    if !IsAbsolute(path) {
      if EndsWithSlash(directory) {
        var parent := directory[..|directory| - 1];
        assert directory == parent + "/" + "" && directory + path == parent + "/" + path;
        TraversalFreeJoined(parent, "");
        TraversalFreeJoined(parent, path);
      } else {
        TraversalFreeJoined(directory, path);
      }
    }
  }

  /** Storing a warehouse neither adds nor removes a `..` level. */
  lemma TraversalFreeStored(directory: string, configured: string)
    requires IsAbsolute(directory) && TraversalFree(directory)
    ensures TraversalFree(NormalizeWarehouse(directory, configured)) <==> TraversalFree(configured)
  {
    if !IsRemote(configured) {
      var path := PathFromUrl(configured);
      TraversalFreePath(configured);
      TraversalFreeJoin(directory, path);
      TraversalFreeUrl(JoinPath(directory, path));
    }
  }

  /** A `..` level of a warehouse is one of every default location under it. */
  lemma TraversalStays(stored: string, i: nat, names: seq<string>)
    requires FirstMarker(stored, 0) == Some(i) && '/' !in stored[..i] && names != [] && PathSegments(names)
    ensures NoTraversal(stored + Levels(names)) ==> TraversalFree(stored)
  {
    var rest := stored[i + 3..];
    MarkedAppend(stored, Levels(names));
    TraversalFreeMarked(stored, i);
    if !TraversalFree(rest) {
      TraversalInPath(rest, SplitLocation(stored).scheme, names);
    }
  }

  lemma TraversalFreeMarked(stored: string, i: nat)
    requires MarkerAt(stored, i) && '/' !in stored[..i]
    ensures TraversalFree(stored) <==> TraversalFree(stored[i + 3..])
  {
    var head, rest := stored[..i + 1], stored[i + 3..];
    assert head[i] == ':' && '/' !in head;
    SplitFree(head, '/');
    FileColonIsFree();
    assert stored == head + "/" + ("" + "/" + rest);
    TraversalFreeJoined(head, "" + "/" + rest);
    TraversalFreeJoined("", rest);
  }

  lemma TraversalInPath(rest: string, scheme: string, names: seq<string>)
    requires !TraversalFree(rest) && names != [] && PathSegments(names)
    ensures ".." in Segments(rest + Levels(names), scheme)
  {
    var path := rest + Levels(names);
    SplitBelow(rest, names);
    assert ".." in Split(path, '/');
    if scheme == "file" {
      NonEmptyKeeps(Split(path, '/'));
    } else {
      StrippedKeeps(path);
    }
  }

  lemma StrippedKeeps(path: string)
    requires ".." in Split(path, '/')
    ensures StripSlash(path) != "" && ".." in Split(StripSlash(path), '/')
  {
    SplitFree("", '/');
    if IsAbsolute(path) {
      assert path == "" + "/" + path[1..];
      SplitAtSep("", path[1..], '/');
    }
  }

  // ---------------------------------------------------------------------------
  // The law, on what the operator wrote
  // ---------------------------------------------------------------------------

  /** Local, or without a final slash beyond its marker. */
  predicate ConfiguredPasses(configured: string) {
    IsRemote(configured) ==> RemotePasses(configured)
  }

  lemma StoredPassesIff(features: Features, directory: string, configured: string)
    requires IsAbsolute(directory) && OpenWarehouse(features, directory, configured).Ok?
    ensures DefaultPassesBound(OpenWarehouse(features, directory, configured).value) <==> ConfiguredPasses(configured)
  {
    if IsRemote(configured) {
      RemotePassesIff(features, configured);
    } else {
      var path := JoinPath(directory, PathFromUrl(configured));
      JoinIsAbsolute(directory, PathFromUrl(configured));
      LocalUrlPasses(path);
    }
  }

  /**
   * For every warehouse the registry opens with: a table's default location passes the table's own bound exactly when
   * the configured text has no `..` level and is local, or has no final slash, or is a bare scheme and marker.
   */
  lemma ConfiguredDefaultPassesIff(features: Features, directory: string, configured: string, namespace: seq<string>,
                                   name: string)
    requires IsAbsolute(directory) && TraversalFree(directory)
    requires OpenWarehouse(features, directory, configured).Ok?
    requires namespace != [] && PathSegments(ResourcePath(namespace, name))
    ensures var stored := OpenWarehouse(features, directory, configured).value;
            IsWithin(CanonicalPrefix(stored, namespace, name), AssignedLocation(stored, namespace, name)) <==>
            TraversalFree(configured) && ConfiguredPasses(configured)
  {
    var stored := OpenWarehouse(features, directory, configured).value;
    TraversalFreeStored(directory, configured);
    if TraversalFree(stored) {
      StoredPassesIff(features, directory, configured);
      AssignedPassesBoundIff(stored, namespace, name);
    } else {
      StoredMarker(features, directory, configured);
      AssignedIsLevels(stored, namespace, name);
      TraversalStays(stored, FirstMarker(stored, 0).value, ResourcePath(namespace, name));
    }
  }

  lemma StoredMarker(features: Features, directory: string, configured: string)
    requires OpenWarehouse(features, directory, configured).Ok?
    ensures var stored := OpenWarehouse(features, directory, configured).value;
            FirstMarker(stored, 0).Some? && '/' !in stored[..FirstMarker(stored, 0).value]
  {
    if IsRemote(configured) {
      SupportedScheme(features, configured);
      SchemeHasNoSlash(configured[..FirstMarker(configured, 0).value]);
    } else {
      FileUrlMarker(JoinPath(directory, PathFromUrl(configured)));
    }
  }

  lemma SchemeHasNoSlash(scheme: string)
    requires IsScheme(scheme)
    ensures '/' !in scheme
  {
    if '/' in scheme {
      var i: nat :| i < |scheme| && scheme[i] == '/';
      SlashIsNoScheme(scheme, i);
    }
  }

  lemma StartsDiffer(start: string, s: string, i: nat)
    requires i < |start| && (i < |s| ==> s[i] != start[i])
    ensures !(start <= s)
  {
  }

  /** A rooted local warehouse is stored as one URL, in whichever of its three spellings it is configured. */
  lemma RootedIsStored(directory: string, path: string)
    requires path != "" && path[0] == '/' && FirstMarker(path, 0).None?
    ensures NormalizeWarehouse(directory, path) == "file://" + path
    ensures !IsAbsolute(path[1..]) ==> NormalizeWarehouse(directory, "file:" + path) == "file://" + path
    ensures NormalizeWarehouse(directory, "file://" + path) == "file://" + path
  {
    StartsDiffer(FILE_URL, path, 0);
    StartsDiffer(FILE_COLON, path, 0);
    assert ("file://" + path)[7..] == path;
    if !IsAbsolute(path[1..]) {
      OneSlashIsStored(directory, path, "file:" + path);
    }
  }

  lemma OneSlashIsStored(directory: string, path: string, location: string)
    requires path != "" && path[0] == '/' && FirstMarker(path, 0).None? && location == FILE_COLON + path
    requires !IsAbsolute(path[1..])
    ensures NormalizeWarehouse(directory, location) == "file://" + path
  {
    forall i: nat ensures !MarkerAt(location, i) {
      if i >= 5 && i + 2 < |location| {
        assert !MarkerAt(path, i - 5);
      } else if i == 4 && 6 < |location| {
        assert location[6] == path[1] == path[1..][0];
      }
    }
    assert location[5..] == path;
    assert 6 < |location| ==> location[6] == path[1..][0];
    StartsDiffer(FILE_URL, location, 6);
  }

  /** A path that is not rooted is stored below the working directory. */
  lemma RelativeIsStored(directory: string, relative: string)
    requires ':' !in relative && (relative == "" || relative[0] != '/')
    requires directory != "" && directory[|directory| - 1] != '/'
    ensures NormalizeWarehouse(directory, relative) == "file://" + (directory + "/" + relative)
    ensures NormalizeWarehouse(directory, "file://" + relative) == "file://" + (directory + "/" + relative)
  {
    assert ("file://" + relative)[7..] == relative;
    assert FILE_URL[4] == ':' && FILE_COLON[4] == ':';
    StartsDiffer(FILE_COLON, relative, 4);
    StartsDiffer(FILE_URL, relative, 4);
  }

  /** A location of another store is stored as it is written. */
  lemma RemoteIsStored(directory: string, remote: string)
    requires FirstMarker(remote, 0).Some? && remote[..FirstMarker(remote, 0).value] != "file"
    ensures NormalizeWarehouse(directory, remote) == remote
  {
    if FILE_URL <= remote {
      var path := remote[7..];
      assert remote == FILE_URL + path;
      FileUrlMarker(path);
    }
  }

  /** Which schemes are supported, and what a refusal says. */
  lemma SchemeSupportedIff(features: Features, scheme: string, rest: string)
    requires FirstMarker(scheme + "://" + rest, 0) == Some(|scheme|)
    ensures EnsureSchemeSupported(features, scheme + "://" + rest) ==
            if scheme == "file" || scheme == "memory" || (scheme in {"s3", "s3a", "s3n"} && features.s3)
               || (scheme in {"gs", "gcs"} && features.gcs)
               || (scheme in {"abfs", "abfss", "az", "adls"} && features.azure) then None
            else if scheme in {"s3", "s3a", "s3n", "gs", "gcs", "abfs", "abfss", "az", "adls"}
            then Some(MissingFeature(scheme)) else Some(UnknownScheme(scheme))
  {
    assert (scheme + "://" + rest)[..|scheme|] == scheme;
  }
}
