/** Laws of containment that hold of every string. */
module LocationLaws {

  import opened Prelude
  import opened Text
  import opened Location

  /** A list that does not end in an empty segment survives the trim of any list it starts. */
  lemma {:induction false} TrimKeepsPrefix(p: seq<string>, s: seq<string>)
    requires p <= s
    requires p != [] ==> p[|p| - 1] != ""
    ensures p <= TrimEmpty(s)
  {
    if s != [] && s[|s| - 1] == "" {
      assert p <= s[..|s| - 1];
      TrimKeepsPrefix(p, s[..|s| - 1]);
    }
  }

  lemma ContainsIsTransitive(a: Place, b: Place, c: Place)
    requires Contains(a, b) && Contains(b, c)
    ensures Contains(a, c)
  {
    TrimKeepsPrefix(a.Roots(), b.Segs());
    assert a.Roots() <= b.Roots() <= c.Segs();
  }

  lemma WithinIsTransitive(a: string, b: string, c: string)
    requires IsWithin(a, b) && IsWithin(b, c)
    ensures IsWithin(a, c)
  {
    ContainsIsTransitive(SplitLocation(a), SplitLocation(b), SplitLocation(c));
  }

  /** Two places inside each other have the same root. */
  lemma ContainsIsAntisymmetric(a: Place, b: Place)
    requires Contains(a, b) && Contains(b, a)
    ensures a.Roots() == b.Roots()
  {
    TrimKeepsPrefix(a.Roots(), b.Segs());
    TrimKeepsPrefix(b.Roots(), a.Segs());
  }

  lemma WithinIsReflexive(location: string)
    ensures IsWithin(location, location) <==> NoTraversal(location)
  {
  }

  /** Two places that share a place inside them are nested. */
  lemma SharedPlaceIsComparable(a: Place, b: Place, c: Place)
    requires Contains(a, c) && Contains(b, c)
    requires ".." !in a.Segs() && ".." !in b.Segs()
    ensures Contains(a, b) || Contains(b, a)
  {
    var ra, rb, s := a.Roots(), b.Roots(), c.Segs();
    if |ra| <= |rb| {
      assert ra == s[..|ra|] && rb == s[..|rb|];
      assert ra <= rb <= b.Segs();
    } else {
      assert rb == s[..|rb|] && ra == s[..|ra|];
      assert rb <= ra <= a.Segs();
    }
  }

  // ---------------------------------------------------------------------------
  // Respelling
  // ---------------------------------------------------------------------------

  predicate Equivalent(a: Place, b: Place) {
    SameStore(a, b) && a.Segs() == b.Segs()
  }

  /** Two spellings of one place. */
  predicate SamePlace(a: string, b: string) {
    Equivalent(SplitLocation(a), SplitLocation(b))
  }

  /** Containment depends on the places alone, so respelling either side changes nothing. */
  lemma RespellingKeepsContainment(a: string, a': string, b: string, b': string)
    requires SamePlace(a, a') && SamePlace(b, b')
    ensures IsWithin(a, b) <==> IsWithin(a', b')
  {
  }

  lemma MarkerPosition(s: string, i: nat)
    requires MarkerAt(s, i) && forall j: nat :: j < i ==> !MarkerAt(s, j)
    ensures SplitLocation(s) == Place(CanonicalScheme(ToLower(s[..i])), s[i + 3..])
  {
    assert FirstMarker(s, 0) == Some(i);
  }

  /** A scheme holds no colon, so the first marker of `scheme://rest` is where it is written. */
  lemma SplitWithAuthority(scheme: string, rest: string)
    requires ':' !in scheme
    ensures SplitLocation(scheme + "://" + rest) == Place(CanonicalScheme(ToLower(scheme)), rest)
  {
    var s := scheme + "://" + rest;
    assert s[..|scheme|] == scheme && s[|scheme| + 3..] == rest;
    assert MarkerAt(s, |scheme|);
    assert forall j: nat :: j < |scheme| ==> s[j] == scheme[j];
    MarkerPosition(s, |scheme|);
  }

  lemma SchemeHasNoColon(scheme: string)
    requires IsScheme(scheme)
    ensures ':' !in scheme
  {
    assert scheme == [scheme[0]] + scheme[1..];
    assert !IsSchemeChar(':');
  }

  /** Where the markers of a prefixed string can be. */
  lemma MarkersOfConcat(a: string, b: string)
    requires !HasMarker(b)
    ensures forall i: nat :: |a| <= i ==> !MarkerAt(a + b, i)
  {
    forall i: nat | |a| <= i && MarkerAt(a + b, i) ensures false {
      assert MarkerAt(b, i - |a|);
    }
  }

  lemma SplitWithoutAuthority(scheme: string, rest: string)
    requires IsScheme(scheme)
    requires IsAbsolute(rest) && !IsAbsolute(rest[1..]) && !HasMarker(rest)
    ensures SplitLocation(scheme + ":" + rest) == Place(CanonicalScheme(ToLower(scheme)), rest)
  {
    SchemeHasNoColon(scheme);
    var s := scheme + ":" + rest;
    var n := |scheme|;
    assert s[..n] == scheme && s[n + 1..] == rest && s[n] == ':';
    assert forall i: nat :: i < n ==> s[i] == scheme[i];
    MarkersOfConcat(scheme + ":", rest);
    assert (scheme + ":") + rest == s;
    assert !MarkerAt(s, n) by {
      assert n + 2 < |s| ==> s[n + 2] == rest[1..][0];
    }
    assert forall i: nat :: !MarkerAt(s, i);
    assert FirstMarker(s, 0) == None;
    assert IndexOf(s, ':') == Some(n);
  }

  lemma SplitBarePath(path: string)
    requires IsAbsolute(path) && !HasMarker(path)
    ensures SplitLocation(path) == Place("file", path)
  {
    var at := IndexOf(path, ':');
    if at.Some? {
      assert path[..at.value][0] == path[0] == '/';
    }
  }

  /** `s://rest` and `t://rest` are one place exactly when the schemes are aliases of one service. */
  lemma AliasesAgree(s: string, t: string, rest: string)
    requires ':' !in s && ':' !in t
    ensures SamePlace(s + "://" + rest, t + "://" + rest) <==>
            CanonicalScheme(ToLower(s)) == CanonicalScheme(ToLower(t))
  {
    SplitWithAuthority(s, rest);
    SplitWithAuthority(t, rest);
  }

  /** For an object store `scheme://key` and `scheme:/key` are one place. */
  lemma AuthorityIsOptional(scheme: string, key: string)
    requires IsScheme(scheme) && CanonicalScheme(ToLower(scheme)) != "file"
    requires !IsAbsolute(key) && !HasMarker(key)
    ensures SamePlace(scheme + "://" + key, scheme + ":/" + key)
  {
    SchemeHasNoColon(scheme);
    SplitWithAuthority(scheme, key);
    SplitOneSlash(scheme, key);
    SameKey(CanonicalScheme(ToLower(scheme)), key);
  }

  lemma SplitOneSlash(scheme: string, key: string)
    requires IsScheme(scheme) && !IsAbsolute(key) && !HasMarker(key)
    ensures SplitLocation(scheme + ":/" + key) == Place(CanonicalScheme(ToLower(scheme)), "/" + key)
  {
    RootedKey(key);
    var rest := "/" + key;
    SplitWithoutAuthority(scheme, rest);
    SlashIsPartOfKey(scheme, key);
  }

  lemma SlashIsPartOfKey(scheme: string, key: string)
    ensures scheme + ":" + ("/" + key) == scheme + ":/" + key
  {
  }

  lemma SameKey(scheme: string, key: string)
    requires scheme != "file" && !IsAbsolute(key)
    ensures Equivalent(Place(scheme, key), Place(scheme, "/" + key))
  {
    assert StripSlash("/" + key) == StripSlash(key);
  }

  lemma RootedKey(key: string)
    requires !IsAbsolute(key) && !HasMarker(key)
    ensures ("/" + key)[1..] == key && !HasMarker("/" + key)
  {
    MarkersOfConcat("/", key);
    assert !MarkerAt("/" + key, 0);
  }

  /** A rooted local path has three spellings. */
  lemma LocalSpellingsAgree(path: string)
    requires IsAbsolute(path) && !IsAbsolute(path[1..]) && !HasMarker(path)
    ensures SamePlace(path, "file://" + path)
    ensures SamePlace(path, "file:" + path)
  {
    var scheme := "file";
    assert CanonicalScheme(ToLower(scheme)) == scheme && IsScheme(scheme) by {
      assert ToLower(scheme) == scheme;
    }
    SplitBarePath(path);
    assert scheme + "://" + path == "file://" + path;
    assert scheme + ":" + path == "file:" + path;
    LocalSplits(scheme, path);
  }

  lemma LocalSplits(scheme: string, path: string)
    requires IsScheme(scheme) && CanonicalScheme(ToLower(scheme)) == scheme
    requires IsAbsolute(path) && !IsAbsolute(path[1..]) && !HasMarker(path)
    ensures SplitLocation(scheme + "://" + path) == Place(scheme, path)
    ensures SplitLocation(scheme + ":" + path) == Place(scheme, path)
  {
    SchemeHasNoColon(scheme);
    SplitWithAuthority(scheme, path);
    SplitWithoutAuthority(scheme, path);
  }
}
