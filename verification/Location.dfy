/** Where a storage location points, and when one location is inside another. */
module Location {

  import opened Prelude
  import opened Text

  /** One scheme for each storage service, whichever of its spellings is used. */
  function CanonicalScheme(scheme: string): string {
    if scheme == "s3" || scheme == "s3a" || scheme == "s3n" then "s3"
    else if scheme == "gs" || scheme == "gcs" then "gs"
    else if scheme == "abfs" || scheme == "abfss" || scheme == "az" || scheme == "adls" then "abfs"
    else scheme
  }

  predicate IsAlpha(c: char) {
    'a' <= c <= 'z' || 'A' <= c <= 'Z'
  }

  predicate IsSchemeChar(c: char) {
    IsAlpha(c) || '0' <= c <= '9' || c == '+' || c == '-' || c == '.'
  }

  /** RFC 3986 section 3.1, with one-letter schemes (drive letters) excluded. */
  predicate IsScheme(candidate: string) {
    |candidate| > 1 && IsAlpha(candidate[0]) && forall c :: c in candidate[1..] ==> IsSchemeChar(c)
  }

  /** Whether `://` starts at position `i`. */
  predicate MarkerAt(s: string, i: nat) {
    i + 2 < |s| && s[i] == ':' && s[i + 1] == '/' && s[i + 2] == '/'
  }

  ghost predicate HasMarker(s: string) {
    exists i: nat :: MarkerAt(s, i)
  }

  /** The position `split_once("://")` splits at. */
  function FirstMarker(s: string, from: nat): (at: Option<nat>)
    requires from <= |s|
    ensures at.None? ==> forall i: nat :: from <= i ==> !MarkerAt(s, i)
    ensures at.Some? ==> from <= at.value && MarkerAt(s, at.value)
    ensures at.Some? ==> forall i: nat :: from <= i < at.value ==> !MarkerAt(s, i)
    decreases |s| - from
  {
    if from == |s| then None
    else if MarkerAt(s, from) then Some(from)
    else FirstMarker(s, from + 1)
  }

  /** A location read as a store and a path inside it. */
  datatype Place = Place(scheme: string, path: string)
  {
    function Segs(): seq<string> {
      Segments(path, scheme)
    }

    /** The segments of a place used as a root. */
    function Roots(): seq<string> {
      TrimEmpty(Segs())
    }
  }

  function SplitLocation(location: string): Place {
    match FirstMarker(location, 0)
    case Some(i) => Place(CanonicalScheme(ToLower(location[..i])), location[i + 3..])
    case None =>
      match IndexOf(location, ':')
      case Some(i) =>
        if IsScheme(location[..i]) && IsAbsolute(location[i + 1..])
        then Place(CanonicalScheme(ToLower(location[..i])), location[i + 1..])
        else Place("file", location)
      case None => Place("file", location)
  }

  predicate IsAbsolute(path: string) {
    path != "" && path[0] == '/'
  }

  /** `strip_prefix('/').unwrap_or(path)`. */
  function StripSlash(path: string): string {
    if IsAbsolute(path) then path[1..] else path
  }

  function Segments(path: string, scheme: string): seq<string> {
    if scheme == "file" then NonEmpty(Split(path, '/'))
    else if StripSlash(path) == "" then []
    else Split(StripSlash(path), '/')
  }

  /** A segment list without its trailing empty segments. */
  function TrimEmpty(segments: seq<string>): (r: seq<string>)
    ensures r <= segments
    ensures r != [] ==> r[|r| - 1] != ""
  {
    if segments != [] && segments[|segments| - 1] == "" then TrimEmpty(segments[..|segments| - 1]) else segments
  }

  method RootSegments(path: string, scheme: string) returns (segments: seq<string>)
    ensures segments == TrimEmpty(Segments(path, scheme))
  {
    segments := Segments(path, scheme);
    while segments != [] && segments[|segments| - 1] == ""
      invariant TrimEmpty(segments) == TrimEmpty(Segments(path, scheme))
      decreases |segments|
    {
      segments := segments[..|segments| - 1];
    }
  }

  /** The same store, and for a local path rooted the same way. */
  predicate SameStore(a: Place, b: Place) {
    a.scheme == b.scheme && (a.scheme == "file" ==> IsAbsolute(a.path) == IsAbsolute(b.path))
  }

  /** Containment of places; `<=` on sequences is the length test followed by the pairwise comparison. */
  predicate Contains(root: Place, candidate: Place) {
    SameStore(root, candidate) && ".." !in candidate.Segs() && root.Roots() <= candidate.Segs()
  }

  predicate EndsWithSlash(path: string) {
    path != "" && path[|path| - 1] == '/'
  }

  predicate ContainsPrefix(root: Place, candidate: Place) {
    && Contains(root, candidate)
    && (|candidate.Segs()| > |root.Roots()| || EndsWithSlash(candidate.path))
  }

  predicate NoTraversal(location: string) {
    ".." !in SplitLocation(location).Segs()
  }

  predicate IsWithin(root: string, candidate: string) {
    Contains(SplitLocation(root), SplitLocation(candidate))
  }

  predicate IsPrefixWithin(root: string, candidate: string) {
    ContainsPrefix(SplitLocation(root), SplitLocation(candidate))
  }
}
