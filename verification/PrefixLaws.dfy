/**
 * Listing by prefix compares characters and knows nothing of segments, so a prefix is
 * safe for a root when every string that extends it is inside the root.
 */
module PrefixLaws {

  import opened Text
  import opened Location
  import opened LocationLaws

  lemma LastPart(s: string)
    requires s != ""
    ensures var parts := Split(s, '/');
            EndsWithSlash(s) <==> parts[|parts| - 1] == ""
  {
    var t, c := s[..|s| - 1], s[|s| - 1];
    if c == '/' {
      SplitAtSep(t, "", '/');
      assert t + ['/'] + "" == s;
    } else {
      SplitConcat(t, [c], '/');
      SplitFree([c], '/');
      assert t + [c] == s;
    }
  }

  /** The part of a path that `Segments` splits. */
  function Body(path: string, scheme: string): string {
    if scheme == "file" then path else StripSlash(path)
  }

  /** The segments a path keeps however the string goes on: all but the unfinished last one. */
  function Finished(path: string, scheme: string): seq<string> {
    var parts := Split(Body(path, scheme), '/');
    var kept := parts[..|parts| - 1];
    if scheme == "file" then NonEmpty(kept) else kept
  }

  function Unfinished(path: string, scheme: string): string {
    var parts := Split(Body(path, scheme), '/');
    parts[|parts| - 1]
  }

  /** Where two part lists meet: the finished parts, and what the rest becomes. */
  function Seam(parts: seq<string>, more: seq<string>): seq<string>
    requires |parts| >= 1 && |more| >= 1
  {
    [parts[|parts| - 1] + more[0]] + more[1..]
  }

  lemma SplitOfExtension(p: string, ext: string)
    ensures Split(p + ext, '/') == Split(p, '/')[..|Split(p, '/')| - 1] + Seam(Split(p, '/'), Split(ext, '/'))
  {
    SplitConcat(p, ext, '/');
    GlueParts(Split(p, '/'), Split(ext, '/'));
  }

  lemma SegmentsOfExtension(path: string, scheme: string, ext: string)
    requires Body(path, scheme) != ""
    ensures Finished(path, scheme) <= Segments(path + ext, scheme)
  {
    var p := Body(path, scheme);
    assert Body(path + ext, scheme) == p + ext;
    SplitOfExtension(p, ext);
    if scheme == "file" {
      var parts := Split(p, '/');
      NonEmptyConcat(parts[..|parts| - 1], Seam(parts, Split(ext, '/')));
    }
  }

  /** A slash-free extension only lengthens the unfinished segment. */
  lemma SegmentsOfSlashFreeExtension(path: string, scheme: string, ext: string)
    requires Body(path, scheme) != "" && '/' !in ext
    ensures Segments(path + ext, scheme) ==
            Finished(path, scheme) +
            (if scheme == "file" && Unfinished(path, scheme) + ext == "" then []
             else [Unfinished(path, scheme) + ext])
  {
    var p := Body(path, scheme);
    assert Body(path + ext, scheme) == p + ext;
    SplitOfExtension(p, ext);
    var parts := Split(p, '/');
    SplitFree(ext, '/');
    var tail := [parts[|parts| - 1] + ext];
    assert Seam(parts, [ext]) == tail;
    if scheme == "file" {
      NonEmptyConcat(parts[..|parts| - 1], tail);
      assert tail[1..] == [] && NonEmpty([]) == [];
    }
  }

  /** Deciding by finished segments is what makes the length-or-slash test exact. */
  lemma FinishedHoldsRoot(root: seq<string>, path: string, scheme: string)
    requires Body(path, scheme) != "" && root != [] && root[|root| - 1] != ""
    requires root <= Segments(path, scheme)
    ensures root <= Finished(path, scheme) <==> |Segments(path, scheme)| > |root| || EndsWithSlash(path)
  {
    SegmentsOfSlashFreeExtension(path, scheme, "");
    assert path + "" == path;
    LastPart(Body(path, scheme));
    var last := Unfinished(path, scheme);
    assert last + "" == last;
    if last == "" && scheme != "file" {
      assert root[|root| - 1] == Segments(path, scheme)[|root| - 1];
    }
  }

  lemma ExtensionKeepsStore(candidate: string, ext: string)
    requires HasMarker(candidate)
    ensures SplitLocation(candidate + ext) ==
            Place(SplitLocation(candidate).scheme, SplitLocation(candidate).path + ext)
  {
    var i := FirstMarker(candidate, 0).value;
    assert (candidate + ext)[..i] == candidate[..i];
    assert (candidate + ext)[i + 3..] == candidate[i + 3..] + ext;
    assert MarkerAt(candidate + ext, i);
    forall j: nat | j < i ensures !MarkerAt(candidate + ext, j) {
      assert !MarkerAt(candidate, j);
    }
    MarkerPosition(candidate + ext, i);
  }

  lemma EmptyBodyHasNoSegments(path: string, scheme: string)
    requires Body(path, scheme) == ""
    ensures Segments(path, scheme) == []
  {
    assert Split("", '/') == [""];
    if scheme == "file" {
      assert NonEmpty([""]) == NonEmpty([]);
    }
  }

  lemma SafePrefixCoversExtensions(root: Place, c: Place, ext: string)
    requires root.Roots() != [] && ContainsPrefix(root, c)
    requires ".." !in Place(c.scheme, c.path + ext).Segs()
    ensures Contains(root, Place(c.scheme, c.path + ext))
  {
    if Body(c.path, c.scheme) == "" {
      EmptyBodyHasNoSegments(c.path, c.scheme);
      assert false;
    }
    FinishedHoldsRoot(root.Roots(), c.path, c.scheme);
    SegmentsOfExtension(c.path, c.scheme, ext);
  }

  /** When the root itself is named without a slash, one more character leaves it. */
  lemma SiblingEscapes(root: Place, c: Place)
    requires root.Roots() != [] && Contains(root, c) && !ContainsPrefix(root, c)
    ensures ".." !in Place(c.scheme, c.path + "x").Segs() && !Contains(root, Place(c.scheme, c.path + "x"))
  {
    if Body(c.path, c.scheme) == "" {
      EmptyBodyHasNoSegments(c.path, c.scheme);
      assert false;
    }
    EscapeLeavesRoot(root.Roots(), c.path, c.scheme);
  }

  lemma EscapeLeavesRoot(root: seq<string>, path: string, scheme: string)
    requires Body(path, scheme) != "" && root != [] && root[|root| - 1] != ""
    requires root <= Segments(path, scheme) && ".." !in Segments(path, scheme)
    requires |Segments(path, scheme)| <= |root| && !EndsWithSlash(path)
    ensures ".." !in Segments(path + "x", scheme) && !(root <= Segments(path + "x", scheme))
  {
    SegmentsOfSlashFreeExtension(path, scheme, "");
    SegmentsOfSlashFreeExtension(path, scheme, "x");
    assert path + "" == path;
    LastPart(Body(path, scheme));
    var kept, last := Finished(path, scheme), Unfinished(path, scheme);
    assert last + "" == last;
    assert Segments(path, scheme) == kept + [last] == root;
    assert (last + "x")[|last|] == 'x';
    assert root[|kept|] == last && (kept + [last + "x"])[|kept|] == last + "x";
    assert |last| != |last + "x"|;
  }

  /** The prefix is `..`-free, and so far as its extensions are, they stay inside the root. */
  ghost predicate IsSafePrefix(root: string, candidate: string) {
    NoTraversal(candidate) && forall ext :: NoTraversal(candidate + ext) ==> IsWithin(root, candidate + ext)
  }

  /** `is_prefix_within` holds exactly when no traversal-free extension of the prefix leaves the root. */
  lemma PrefixWithinIsExact(root: string, candidate: string)
    requires HasMarker(candidate) && SplitLocation(root).Roots() != []
    ensures IsPrefixWithin(root, candidate) <==> IsSafePrefix(root, candidate)
  {
    var r, c := SplitLocation(root), SplitLocation(candidate);
    if ContainsPrefix(r, c) {
      forall ext | NoTraversal(candidate + ext) ensures IsWithin(root, candidate + ext) {
        ExtensionKeepsStore(candidate, ext);
        SafePrefixCoversExtensions(r, c, ext);
      }
    } else if NoTraversal(candidate) {
      var ext := if Contains(r, c) then "x" else "";
      ExtensionKeepsStore(candidate, ext);
      if Contains(r, c) {
        SiblingEscapes(r, c);
      } else {
        assert c.path + "" == c.path;
      }
      assert NoTraversal(candidate + ext) && !IsWithin(root, candidate + ext);
    }
  }

  // ---------------------------------------------------------------------------
  // Roots that name a whole store
  // ---------------------------------------------------------------------------

  /** A place has no segments and no final slash exactly when it has no path. */
  lemma NothingBelow(c: Place)
    ensures |c.Segs()| == 0 && !EndsWithSlash(c.path) ==> c.path == ""
    ensures c.path == "" ==> |c.Segs()| == 0
  {
    SplitParts(c.path, '/');
    if c.scheme == "file" && c.path != "" && !EndsWithSlash(c.path) {
      LastPart(c.path);
      NonEmptyKeeps(Split(c.path, '/'));
      var parts := Split(c.path, '/');
      assert parts[|parts| - 1] in parts;
    }
    if c.path == "" {
      SplitFree("", '/');
    }
  }

  /** Extending a prefix keeps its store, except that a local prefix of no path can be rooted either way. */
  lemma StoreAfterExtension(r: Place, c: Place, ext: string)
    requires SameStore(r, c) && (c.path != "" || c.scheme != "file")
    ensures SameStore(r, Place(c.scheme, c.path + ext))
  {
  }

  lemma WholeStoreIsSafeIff(root: string, candidate: string)
    requires HasMarker(candidate) && SplitLocation(root).Roots() == []
    ensures var r, c := SplitLocation(root), SplitLocation(candidate);
            IsSafePrefix(root, candidate) <==>
            SameStore(r, c) && NoTraversal(candidate) && (c.path != "" || c.scheme != "file")
  {
    var r, c := SplitLocation(root), SplitLocation(candidate);
    forall ext | SameStore(r, c) && (c.path != "" || c.scheme != "file") && NoTraversal(candidate + ext)
      ensures IsWithin(root, candidate + ext)
    {
      ExtensionKeepsStore(candidate, ext);
      StoreAfterExtension(r, c, ext);
    }
    if IsSafePrefix(root, candidate) {
      assert candidate + "" == candidate;
      assert IsWithin(root, candidate + "");
      if c.path == "" && c.scheme == "file" {
        LocalPrefixEscapes(root, candidate);
        assert false;
      }
    }
  }

  /** `file://` followed by a slash or by a name is rooted differently. */
  lemma LocalPrefixEscapes(root: string, candidate: string)
    requires HasMarker(candidate) && SplitLocation(candidate).scheme == "file" && SplitLocation(candidate).path == ""
    ensures !IsSafePrefix(root, candidate)
  {
    var slash, name := "/", "x";
    ExtensionKeepsStore(candidate, slash);
    ExtensionKeepsStore(candidate, name);
    assert "" + slash == slash && "" + name == name;
    SplitFree(name, '/');
    SplitAtSep("", "", '/');
    SplitFree("", '/');
    assert "" + ['/'] + "" == slash;
    NonEmptyKeeps(Split(slash, '/'));
    NonEmptyKeeps(Split(name, '/'));
    assert NoTraversal(candidate + slash) && NoTraversal(candidate + name);
    assert !IsWithin(root, candidate + slash) || !IsWithin(root, candidate + name);
  }

  /**
   * For every root and every prefix of a URI the test is exact, with one exception: a root that names a whole
   * store, other than the local one, refuses the prefix that names the same store and nothing in it, though
   * nothing that extends it leaves the store.
   */
  lemma PrefixTestIsExactIff(root: string, candidate: string)
    requires HasMarker(candidate)
    ensures var r, c := SplitLocation(root), SplitLocation(candidate);
            (IsPrefixWithin(root, candidate) <==> IsSafePrefix(root, candidate)) <==>
            !(r.Roots() == [] && r.scheme == c.scheme && c.scheme != "file" && c.path == "")
  {
    var r, c := SplitLocation(root), SplitLocation(candidate);
    if r.Roots() == [] {
      WholeStoreIsSafeIff(root, candidate);
      NothingBelow(c);
    } else {
      PrefixWithinIsExact(root, candidate);
    }
  }

  /** Such a root and prefix: the bare store. */
  lemma EmptyRootIsStricter()
    ensures SplitLocation("s3://").Roots() == [] && !IsPrefixWithin("s3://", "s3://") && IsSafePrefix("s3://", "s3://")
  {
    var scheme := "s3";
    assert ToLower(scheme) == scheme;
    assert scheme + "://" + "" == "s3://";
    SplitWithAuthority(scheme, "");
    assert MarkerAt("s3://", 2);
    WholeStoreIsSafeIff("s3://", "s3://");
  }
}
