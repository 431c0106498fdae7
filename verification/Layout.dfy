/** The text of canonical prefixes, and the places it is read as. */
module Layout {

  import opened Prelude
  import opened Text
  import opened Location
  import opened LocationLaws
  import opened Names

  /** `/a/b/c` for the levels `a`, `b`, `c`. */
  function Levels(names: seq<string>): string {
    if names == [] then "" else "/" + names[0] + Levels(names[1..])
  }

  lemma {:induction false} LevelsSnoc(names: seq<string>, last: string)
    ensures Levels(names + [last]) == Levels(names) + "/" + last
  {
    if names == [] {
      assert names + [last] == [last];
      assert Levels([last][1..]) == "";
    } else {
      assert (names + [last])[1..] == names[1..] + [last];
      LevelsSnoc(names[1..], last);
      assert "/" + names[0] + (Levels(names[1..]) + "/" + last) == ("/" + names[0] + Levels(names[1..])) + "/" + last;
    }
  }

  function NamespacePrefix(warehouse: string, namespace: seq<string>): string {
    TrimEnd(warehouse, '/') + Levels(namespace)
  }

  method JoinSegments(warehouse: string, namespace: seq<string>) returns (out: string)
    ensures out == NamespacePrefix(warehouse, namespace)
  {
    out := TrimEnd(warehouse, '/');
    for i := 0 to |namespace|
      invariant out == TrimEnd(warehouse, '/') + Levels(namespace[..i])
    {
      assert namespace[..i + 1] == namespace[..i] + [namespace[i]];
      LevelsSnoc(namespace[..i], namespace[i]);
      out := out + "/" + namespace[i];
    }
    assert namespace[..|namespace|] == namespace;
  }

  function CanonicalPrefix(warehouse: string, namespace: seq<string>, name: string): string {
    NamespacePrefix(warehouse, namespace) + "/" + name
  }

  /** The resource path a name gives: the namespace levels and the name. */
  function ResourcePath(namespace: seq<string>, name: string): seq<string> {
    namespace + [name]
  }

  // ---------------------------------------------------------------------------
  // Every canonical prefix is one base place and the resource path below it
  // ---------------------------------------------------------------------------

  /** Where a slash-trimmed warehouse puts the levels that follow it. */
  function Base(t: string): Place {
    match FirstMarker(t, 0)
    case Some(i) => Place(CanonicalScheme(ToLower(t[..i])), t[i + 3..])
    case None =>
      match IndexOf(t, ':')
      case Some(i) =>
        if IsScheme(t[..i]) && (t[i + 1..] == "" || IsAbsolute(t[i + 1..]))
        then Place(CanonicalScheme(ToLower(t[..i])), t[i + 1..])
        else Place("file", t)
      case None => Place("file", t)
  }

  predicate NoDoubleSlash(s: string) {
    forall i :: 0 <= i < |s| - 1 ==> !(s[i] == '/' && s[i + 1] == '/')
  }

  lemma {:induction false} LevelsShape(names: seq<string>)
    requires PathSegments(names)
    ensures NoDoubleSlash(Levels(names))
    ensures names != [] ==> |Levels(names)| > 1 && Levels(names)[0] == '/' && Levels(names)[1] != '/'
    ensures names != [] ==> !EndsWithSlash(Levels(names))
  {
    if names != [] {
      LevelsShape(names[1..]);
      assert Levels(names) == "/" + (names[0] + Levels(names[1..]));
      assert names[0][|names[0]| - 1] != '/';
    }
  }

  /** Appending levels to a trimmed string makes no new `://`. */
  lemma LevelsAddNoMarker(t: string, l: string, i: nat)
    requires !EndsWithSlash(t) && NoDoubleSlash(l) && (l != "" ==> l[0] == '/')
    ensures MarkerAt(t + l, i) <==> MarkerAt(t, i)
  {
    var s := t + l;
    if i + 2 < |s| && i + 2 >= |t| {
      if i + 2 == |t| {
        assert s[i + 1] == t[|t| - 1];
      } else if i + 1 >= |t| {
        assert s[i + 1] == l[i + 1 - |t|] && s[i + 2] == l[i + 2 - |t|];
      }
    }
  }

  lemma SplitOfLevels(t: string, l: string)
    requires !EndsWithSlash(t) && NoDoubleSlash(l) && IsAbsolute(l)
    ensures SplitLocation(t + l) == Place(Base(t).scheme, Base(t).path + l)
  {
    var s := t + l;
    forall i: nat ensures MarkerAt(s, i) <==> MarkerAt(t, i) {
      LevelsAddNoMarker(t, l, i);
    }
    match FirstMarker(t, 0)
    case Some(i) =>
      MarkerPosition(s, i);
      assert s[..i] == t[..i] && s[i + 3..] == t[i + 3..] + l;
    case None =>
      assert FirstMarker(s, 0) == None;
      ColonOfLevels(t, l);
  }

  lemma ColonOfLevels(t: string, l: string)
    requires IsAbsolute(l) && FirstMarker(t, 0) == None && FirstMarker(t + l, 0) == None
    ensures SplitLocation(t + l) == Place(Base(t).scheme, Base(t).path + l)
  {
    var s := t + l;
    match IndexOf(t, ':')
    case Some(i) =>
      assert IndexOf(s, ':') == Some(i) by {
        assert s[i] == t[i] && forall j :: 0 <= j < i ==> s[j] == t[j];
      }
      assert s[..i] == t[..i] && s[i + 1..] == t[i + 1..] + l;
    case None =>
      if IndexOf(s, ':').Some? {
        var j := IndexOf(s, ':').value;
        assert forall k :: 0 <= k < |t| ==> s[k] == t[k] && s[k] != ':';
        assert s[|t|] == '/';
        SlashIsNoScheme(s[..j], |t|);
      }
  }

  lemma SlashIsNoScheme(s: string, i: nat)
    requires i < |s| && s[i] == '/'
    ensures !IsScheme(s)
  {
    if i > 0 {
      assert s[1..][i - 1] == '/' && !IsSchemeChar('/');
    }
  }

  lemma {:induction false} SplitBelow(p: string, names: seq<string>)
    requires PathSegments(names)
    ensures Split(p + Levels(names), '/') == Split(p, '/') + names
    decreases |names|
  {
    if names == [] {
      assert p + "" == p;
    } else {
      SplitBelow(names[0], names[1..]);
      SplitFree(names[0], '/');
      SplitOneLevel(p, names);
      assert [names[0]] + names[1..] == names;
    }
  }

  lemma SplitOneLevel(p: string, names: seq<string>)
    requires names != []
    ensures Split(p + Levels(names), '/') == Split(p, '/') + Split(names[0] + Levels(names[1..]), '/')
  {
    var rest := names[0] + Levels(names[1..]);
    SplitAtSep(p, rest, '/');
    assert p + ['/'] + rest == p + Levels(names);
  }

  lemma LevelsAlone(names: seq<string>)
    requires PathSegments(names) && names != []
    ensures Levels(names) != "" && Split(Levels(names)[1..], '/') == names
  {
    assert Levels(names)[1..] == names[0] + Levels(names[1..]);
    SplitBelow(names[0], names[1..]);
    SplitFree(names[0], '/');
    assert [names[0]] + names[1..] == names;
  }

  lemma StripSlashBelow(p: string, names: seq<string>)
    requires names != [] && !EndsWithSlash(p) && p != ""
    ensures StripSlash(p) != "" && StripSlash(p + Levels(names)) == StripSlash(p) + Levels(names)
  {
    assert p[1..] == "" ==> p == [p[0]];
  }

  lemma KeySegmentsBelow(p: string, names: seq<string>)
    requires PathSegments(names) && names != [] && !EndsWithSlash(p)
    ensures StripSlash(p + Levels(names)) != ""
    ensures Split(StripSlash(p + Levels(names)), '/') ==
            (if StripSlash(p) == "" then [] else Split(StripSlash(p), '/')) + names
  {
    if p == "" {
      assert p + Levels(names) == Levels(names);
      LevelsAlone(names);
    } else {
      StripSlashBelow(p, names);
      SplitBelow(StripSlash(p), names);
    }
  }

  lemma SegmentsBelow(p: string, scheme: string, names: seq<string>)
    requires PathSegments(names) && names != [] && !EndsWithSlash(p)
    ensures Segments(p + Levels(names), scheme) == Segments(p, scheme) + names
  {
    if scheme == "file" {
      SplitBelow(p, names);
      NonEmptyConcat(Split(p, '/'), names);
      NonEmptyKeeps(names);
    } else {
      KeySegmentsBelow(p, names);
    }
  }

  lemma TrimOfNames(base: seq<string>, names: seq<string>)
    requires PathSegments(names) && names != []
    ensures TrimEmpty(base + names) == base + names
  {
    assert (base + names)[|base + names| - 1] == names[|names| - 1];
  }

  /** The base of a warehouse, once its trailing slashes are trimmed. */
  function WarehouseBase(warehouse: string): Place {
    Base(TrimEnd(warehouse, '/'))
  }

  lemma BasePathHasNoTrailingSlash(t: string)
    requires !EndsWithSlash(t)
    ensures !EndsWithSlash(Base(t).path)
  {
  }

  lemma CanonicalPlace(warehouse: string, namespace: seq<string>, name: string)
    requires PathSegments(ResourcePath(namespace, name))
    ensures var place := SplitLocation(CanonicalPrefix(warehouse, namespace, name));
            && place == Place(WarehouseBase(warehouse).scheme,
                              WarehouseBase(warehouse).path + Levels(ResourcePath(namespace, name)))
            && place.Segs() == WarehouseBase(warehouse).Segs() + ResourcePath(namespace, name)
            && place.Roots() == place.Segs()
  {
    var t, names := TrimEnd(warehouse, '/'), ResourcePath(namespace, name);
    LevelsSnoc(namespace, name);
    assert t + Levels(names) == CanonicalPrefix(warehouse, namespace, name);
    LevelsShape(names);
    SplitOfLevels(t, Levels(names));
    BasePathHasNoTrailingSlash(t);
    SegmentsBelow(Base(t).path, Base(t).scheme, names);
    TrimOfNames(Base(t).Segs(), names);
  }
}
