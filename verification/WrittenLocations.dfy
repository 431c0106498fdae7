/** Which written locations contain which, in terms of the schemes and path segments they are written with. */
module WrittenLocations {

  import opened Prelude
  import opened Text
  import opened Location
  import opened LocationLaws

  /** Two lower-case schemes of one storage service. */
  predicate OneService(s: string, t: string) {
    || s == t
    || (s in {"s3", "s3a", "s3n"} && t in {"s3", "s3a", "s3n"})
    || (s in {"gs", "gcs"} && t in {"gs", "gcs"})
    || (s in {"abfs", "abfss", "az", "adls"} && t in {"abfs", "abfss", "az", "adls"})
  }

  predicate IsPlainScheme(s: string) {
    forall i :: 0 <= i < |s| ==> s[i] != ':' && !('A' <= s[i] <= 'Z')
  }

  /** `upper` is `s` with some letters in upper case. */
  predicate Respelled(upper: string, s: string) {
    && |upper| == |s|
    && forall i :: 0 <= i < |s| ==>
         upper[i] == s[i] || ('A' <= upper[i] <= 'Z' && s[i] as int == upper[i] as int + 32)
  }

  /** The path of the parts, which are what stands between its slashes. */
  ghost predicate IsPath(path: string, parts: seq<string>) {
    parts != [] && Free(parts, '/') && path == Join(parts, '/')
  }

  /** The first `n` parts end where the last part that is not empty does. */
  ghost predicate EndsAt(parts: seq<string>, n: nat) {
    0 < n <= |parts| && parts[n - 1] != "" && forall i :: n <= i < |parts| ==> parts[i] == ""
  }

  lemma PlainIsLower(s: string)
    requires IsPlainScheme(s)
    ensures ToLower(s) == s && ':' !in s
  {
  }

  lemma RespelledIsLower(upper: string, s: string)
    requires IsPlainScheme(s) && Respelled(upper, s)
    ensures ToLower(upper) == s && ':' !in upper
  {
    forall i | 0 <= i < |s| ensures ToLower(upper)[i] == s[i] && upper[i] != ':' {
    }
  }

  lemma OneServiceIff(s: string, t: string)
    ensures CanonicalScheme(s) == CanonicalScheme(t) <==> OneService(s, t)
  {
  }

  lemma {:induction false} TrimEmptyEnds(parts: seq<string>, n: nat)
    requires EndsAt(parts, n)
    ensures TrimEmpty(parts) == parts[..n]
    decreases |parts|
  {
    if n < |parts| {
      var shorter := parts[..|parts| - 1];
      TrimEmptyEnds(shorter, n);
      assert shorter[..n] == parts[..n];
    } else {
      assert parts[..n] == parts;
    }
  }

  lemma {:induction false} JoinStart(parts: seq<string>)
    requires parts != [] && Free(parts, '/')
    ensures parts[0] != "" ==> Join(parts, '/') != "" && Join(parts, '/')[0] != '/'
  {
    if parts[0] != "" {
      assert Join(parts, '/')[0] == parts[0][0];
      assert parts[0][0] in parts[0];
    }
  }

  lemma KeySegments(path: string, parts: seq<string>, scheme: string)
    requires IsPath(path, parts) && parts[0] != "" && scheme != "file"
    ensures Segments(path, scheme) == parts
  {
    JoinStart(parts);
    SplitJoin(parts, '/');
  }

  // ---------------------------------------------------------------------------
  // Object stores
  // ---------------------------------------------------------------------------

  /**
   * In an object store a location contains another exactly when the schemes are of one service, the parts of the first,
   * without the empty ones at its end, start those of the second, and the second has no `..`.
   */
  lemma KeyContainsIff(s: string, t: string, s': string, t': string, a: string, b: string, parts: seq<string>,
                       parts': seq<string>, n: nat)
    requires IsPlainScheme(s) && IsPlainScheme(t) && Respelled(s', s) && Respelled(t', t) && s != "file" && t != "file"
    requires IsPath(a, parts) && IsPath(b, parts') && parts[0] != "" && parts'[0] != "" && EndsAt(parts, n)
    ensures IsWithin(s' + "://" + a, t' + "://" + b) <==>
            OneService(s, t) && ".." !in parts' && parts[..n] <= parts'
  {
    RespelledIsLower(s', s);
    RespelledIsLower(t', t);
    SplitWithAuthority(s', a);
    SplitWithAuthority(t', b);
    OneServiceIff(s, t);
    NoServiceIsLocal(s);
    NoServiceIsLocal(t);
    KeySegments(a, parts, CanonicalScheme(s));
    KeySegments(b, parts', CanonicalScheme(t));
    TrimEmptyEnds(parts, n);
  }

  lemma NoServiceIsLocal(s: string)
    requires s != "file"
    ensures CanonicalScheme(s) != "file"
  {
  }

  /** As a list prefix it must moreover reach below the root, or end in a slash. */
  lemma KeyPrefixContainsIff(s: string, t: string, a: string, b: string, parts: seq<string>, parts': seq<string>,
                             n: nat)
    requires IsPlainScheme(s) && IsPlainScheme(t) && s != "file" && t != "file"
    requires IsPath(a, parts) && IsPath(b, parts') && parts[0] != "" && parts'[0] != "" && EndsAt(parts, n)
    ensures IsPrefixWithin(s + "://" + a, t + "://" + b) <==>
            && OneService(s, t) && ".." !in parts' && parts[..n] <= parts'
            && (|parts'| > n || b[|b| - 1] == '/')
  {
    KeyContainsIff(s, t, s, t, a, b, parts, parts', n);
    PlainIsLower(s);
    PlainIsLower(t);
    KeyPlace(s, a, parts);
    KeyPlace(t, b, parts');
    TrimEmptyEnds(parts, n);
  }

  /** Where a key is, and that it is not empty. */
  lemma KeyPlace(s: string, a: string, parts: seq<string>)
    requires IsPlainScheme(s) && s != "file" && IsPath(a, parts) && parts[0] != ""
    ensures a != ""
    ensures SplitLocation(s + "://" + a).path == a && SplitLocation(s + "://" + a).Segs() == parts
  {
    PlainIsLower(s);
    SplitWithAuthority(s, a);
    NoServiceIsLocal(s);
    KeySegments(a, parts, CanonicalScheme(s));
    JoinStart(parts);
  }

  /** Locations of different services share nothing. */
  lemma ServicesAreApart(s: string, t: string, a: string, b: string)
    requires IsPlainScheme(s) && IsPlainScheme(t) && !OneService(s, t)
    ensures !IsWithin(s + "://" + a, t + "://" + b)
  {
    PlainIsLower(s);
    PlainIsLower(t);
    SplitWithAuthority(s, a);
    SplitWithAuthority(t, b);
    OneServiceIff(s, t);
  }

  /** The schemes of object stores may be written with one slash. */
  lemma KnownSchemesTakeOneSlash(scheme: string, key: string)
    requires scheme in {"s3", "s3a", "s3n", "gs", "gcs", "abfs", "abfss", "az", "adls"}
    requires !IsAbsolute(key) && !HasMarker(key)
    ensures SamePlace(scheme + "://" + key, scheme + ":/" + key)
  {
    assert forall i :: 0 <= i < |scheme| ==> 'a' <= scheme[i] <= 'z' || scheme[i] == '3';
    assert IsScheme(scheme);
    assert ToLower(scheme) == scheme;
    NoServiceIsLocal(scheme);
    AuthorityIsOptional(scheme, key);
  }

  // ---------------------------------------------------------------------------
  // The local file system
  // ---------------------------------------------------------------------------

  /** Locally empty parts mean nothing, wherever they stand, and a rooted path is not below one that is not. */
  lemma LocalContainsIff(a: string, b: string, parts: seq<string>, parts': seq<string>)
    requires IsPath(a, parts) && IsPath(b, parts')
    ensures IsWithin("file://" + a, "file://" + b) <==>
            && (parts[0] == "" && |parts| > 1 <==> parts'[0] == "" && |parts'| > 1)
            && ".." !in parts' && NonEmpty(parts) <= NonEmpty(parts')
  {
    LocalUrl(a, "file");
    LocalUrl(b, "file");
    SplitJoin(parts, '/');
    SplitJoin(parts', '/');
    NonEmptyKeeps(parts');
    RootedIff(a, parts);
    RootedIff(b, parts');
    NonEmptyHasNoTail(NonEmpty(parts));
  }

  lemma RootedIff(path: string, parts: seq<string>)
    requires IsPath(path, parts)
    ensures IsAbsolute(path) <==> parts[0] == "" && |parts| > 1
  {
    JoinStart(parts);
  }

  lemma NonEmptyHasNoTail(parts: seq<string>)
    requires "" !in parts
    ensures TrimEmpty(parts) == parts
  {
  }

  lemma LocalUrl(path: string, scheme: string)
    requires scheme == "file"
    ensures SplitLocation("file://" + path) == Place("file", path)
  {
    assert IsPlainScheme(scheme);
    PlainIsLower(scheme);
    SplitWithAuthority(scheme, path);
    assert scheme + "://" + path == "file://" + path;
  }

  /** A single letter before a colon names a drive, not a scheme. */
  lemma DriveIsLocal(letter: char, path: string)
    requires letter != ':' && letter != '/' && IsAbsolute(path) && !IsAbsolute(path[1..]) && !HasMarker(path)
    ensures SplitLocation([letter] + ":" + path).scheme == "file"
  {
    var s := [letter] + ":" + path;
    assert s[0] == letter && s[1] == ':' && s[2] == '/';
    assert s[2..] == path;
    forall i: nat ensures !MarkerAt(s, i) {
      if i >= 2 && i + 2 < |s| {
        assert !MarkerAt(path, i - 2);
      } else if i == 1 && |s| > 3 {
        assert s[3] == path[1..][0];
      }
    }
    assert IndexOf(s, ':') == Some(1);
  }
}
