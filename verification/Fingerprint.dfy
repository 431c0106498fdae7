/** The bytes an obligation set is identified by, before they are hashed. */
module Fingerprint {

  import opened Prelude
  import opened Text
  import opened Json
  import opened Obligations

  // ---------------------------------------------------------------------------
  // Sorting
  // ---------------------------------------------------------------------------

  /** The order of the standard library on strings. */
  predicate Le(a: string, b: string) {
    a == "" || (b != "" && (a[0] < b[0] || (a[0] == b[0] && Le(a[1..], b[1..]))))
  }

  lemma {:induction false} LeIsTotalOrder(a: string, b: string, c: string)
    ensures Le(a, b) || Le(b, a)
    ensures Le(a, b) && Le(b, a) ==> a == b
    ensures Le(a, b) && Le(b, c) ==> Le(a, c)
  {
    if a != "" && b != "" {
      LeIsTotalOrder(a[1..], b[1..], if c == "" then "" else c[1..]);
      assert a == [a[0]] + a[1..] && b == [b[0]] + b[1..];
    }
  }

  ghost predicate Sorted(s: seq<string>) {
    forall i, j :: 0 <= i <= j < |s| ==> Le(s[i], s[j])
  }

  function Insert(x: string, s: seq<string>): seq<string> {
    if s == [] then [x]
    else if Le(x, s[0]) then [x] + s
    else [s[0]] + Insert(x, s[1..])
  }

  function Sort(s: seq<string>): seq<string> {
    if s == [] then [] else Insert(s[0], Sort(s[1..]))
  }

  lemma {:induction false} InsertKeepsElements(x: string, s: seq<string>)
    ensures multiset(Insert(x, s)) == multiset(s) + multiset{x}
  {
    if s != [] {
      assert s == [s[0]] + s[1..];
      if !Le(x, s[0]) {
        InsertKeepsElements(x, s[1..]);
      }
    }
  }

  lemma {:induction false} InsertKeepsOrder(x: string, s: seq<string>)
    requires Sorted(s)
    ensures Sorted(Insert(x, s))
  {
    if s == [] {
      LeIsTotalOrder(x, x, x);
    } else if Le(x, s[0]) {
      forall j | 0 <= j < |s| ensures Le(x, s[j]) {
        LeIsTotalOrder(x, s[0], s[j]);
      }
      assert s == [s[0]] + s[1..];
      HeadBelow(x, s, s[0], s[1..]);
    } else {
      InsertKeepsOrder(x, s[1..]);
      InsertKeepsElements(x, s[1..]);
      LeIsTotalOrder(x, s[0], "");
      HeadBelow(s[0], Insert(x, s[1..]), x, s[1..]);
    }
  }

  lemma HeadBelow(head: string, t: seq<string>, x: string, s: seq<string>)
    requires multiset(t) == multiset(s) + multiset{x} && Sorted(t)
    requires Le(head, x) && forall i :: 0 <= i < |s| ==> Le(head, s[i])
    ensures Sorted([head] + t)
  {
    forall i | 0 <= i < |t| ensures Le(head, t[i]) {
      assert t[i] in multiset(t);
    }
    LeIsTotalOrder(head, head, head);
  }

  lemma {:induction false} SortKeeps(s: seq<string>)
    ensures multiset(Sort(s)) == multiset(s) && Sorted(Sort(s))
  {
    if s != [] {
      SortKeeps(s[1..]);
      InsertKeepsElements(s[0], Sort(s[1..]));
      InsertKeepsOrder(s[0], Sort(s[1..]));
      assert s == [s[0]] + s[1..];
    }
  }

  /** Two sorted lists of the same elements are one list. */
  lemma {:induction false} SortedIsUnique(a: seq<string>, b: seq<string>)
    requires Sorted(a) && Sorted(b) && multiset(a) == multiset(b)
    ensures a == b
  {
    if a == [] {
      assert |multiset(b)| == 0;
    } else {
      assert a[0] in multiset(b) && b != [];
      assert b[0] in multiset(a);
      LeIsTotalOrder(a[0], b[0], "");
      assert a == [a[0]] + a[1..] && b == [b[0]] + b[1..];
      assert multiset(a[1..]) == multiset(a) - multiset{a[0]};
      assert multiset(b[1..]) == multiset(b) - multiset{b[0]};
      SortedIsUnique(a[1..], b[1..]);
    }
  }

  lemma SortIgnoresOrder(a: seq<string>, b: seq<string>)
    ensures Sort(a) == Sort(b) <==> multiset(a) == multiset(b)
  {
    SortKeeps(a);
    SortKeeps(b);
    if multiset(a) == multiset(b) {
      SortedIsUnique(Sort(a), Sort(b));
    }
  }

  // ---------------------------------------------------------------------------
  // Framing
  // ---------------------------------------------------------------------------

  const NUL: char := '\U{0}'
  const SPLIT: char := '\U{1}'

  /** Each part followed by a NUL. */
  function Terminated(parts: seq<string>): string {
    if parts == [] then "" else parts[0] + [NUL] + Terminated(parts[1..])
  }

  function Frame(filters: seq<string>, masks: seq<string>): string {
    Terminated(filters) + [SPLIT] + Terminated(masks)
  }

  lemma {:induction false} TerminatedSnoc(parts: seq<string>, last: string)
    ensures Terminated(parts + [last]) == Terminated(parts) + last + [NUL]
  {
    if parts == [] {
      assert parts + [last] == [last] && Terminated([last][1..]) == "";
    } else {
      assert (parts + [last])[1..] == parts[1..] + [last];
      TerminatedSnoc(parts[1..], last);
      assert parts[0] + [NUL] + (Terminated(parts[1..]) + last + [NUL])
          == parts[0] + [NUL] + Terminated(parts[1..]) + last + [NUL];
    }
  }

  lemma FirstNul(a: string, x: string)
    requires NUL !in a
    ensures IndexOf(a + [NUL] + x, NUL) == Some(|a|)
  {
    var s := a + [NUL] + x;
    assert s[|a|] == NUL && forall i :: 0 <= i < |a| ==> s[i] == a[i];
  }

  /** Two texts cut at their first NUL are equal piece by piece. */
  lemma CutAtNul(a: string, x: string, b: string, y: string)
    requires NUL !in a && NUL !in b && a + [NUL] + x == b + [NUL] + y
    ensures a == b && x == y
  {
    var s, t := a + [NUL] + x, b + [NUL] + y;
    FirstNul(a, x);
    FirstNul(b, y);
    assert s[..|a|] == a && t[..|b|] == b;
    assert s[|a| + 1..] == x && t[|b| + 1..] == y;
  }

  lemma {:induction false} TerminatedIsInjective(a: seq<string>, b: seq<string>)
    requires Free(a, NUL) && Free(b, NUL) && Terminated(a) == Terminated(b)
    ensures a == b
  {
    if a != [] && b != [] {
      CutAtNul(a[0], Terminated(a[1..]), b[0], Terminated(b[1..]));
      TerminatedIsInjective(a[1..], b[1..]);
      assert a == [a[0]] + a[1..] && b == [b[0]] + b[1..];
    }
  }

  /** A rendered JSON document has no control character. */
  predicate Rendered(text: string) {
    forall c :: c in text ==> c >= ' '
  }

  /** Filters hold neither framing character, so the first part that starts with the split is the split. */
  lemma {:induction false} FrameIsInjective(a: seq<string>, m: seq<string>, b: seq<string>, n: seq<string>)
    requires forall i :: 0 <= i < |a| ==> Rendered(a[i])
    requires forall i :: 0 <= i < |b| ==> Rendered(b[i])
    requires Frame(a, m) == Frame(b, n)
    ensures a == b && Terminated(m) == Terminated(n)
    decreases |a| + |b|
  {
    if a == [] && b == [] {
      assert Frame(a, m)[1..] == Terminated(m) && Frame(b, n)[1..] == Terminated(n);
    } else if a == [] || b == [] {
      SplitStarts(a, m);
      SplitStarts(b, n);
      assert false;
    } else {
      PeelFilter(a, m);
      PeelFilter(b, n);
      assert NUL !in a[0] && NUL !in b[0];
      CutAtNul(a[0], Frame(a[1..], m), b[0], Frame(b[1..], n));
      FrameIsInjective(a[1..], m, b[1..], n);
      assert a == [a[0]] + a[1..] && b == [b[0]] + b[1..];
    }
  }

  lemma SplitStarts(a: seq<string>, m: seq<string>)
    requires forall i :: 0 <= i < |a| ==> Rendered(a[i])
    ensures Frame(a, m)[0] == SPLIT <==> a == []
  {
    if a != [] {
      PeelFilter(a, m);
      assert a[0] != "" ==> a[0][0] in a[0];
    }
  }

  lemma PeelFilter(a: seq<string>, m: seq<string>)
    requires a != []
    ensures Frame(a, m) == a[0] + [NUL] + Frame(a[1..], m)
  {
    assert a[0] + [NUL] + Terminated(a[1..]) + [SPLIT] + Terminated(m)
        == a[0] + [NUL] + (Terminated(a[1..]) + [SPLIT] + Terminated(m));
  }

  // ---------------------------------------------------------------------------
  // The fingerprint
  // ---------------------------------------------------------------------------

  function Texts(render: Json -> string, filters: seq<Json>): seq<string> {
    seq(|filters|, i requires 0 <= i < |filters| => render(filters[i]))
  }

  /** The input of the hash for a list of filter texts and a set of masks. */
  ghost predicate IsPreimage(bytes: string, texts: seq<string>, masks: set<string>) {
    exists order :: multiset(order) == multiset(masks) && bytes == Frame(Sort(texts), Sort(order))
  }

  method Preimage(render: Json -> string, o: Obligations) returns (bytes: string)
    ensures IsPreimage(bytes, Texts(render, o.rowFilters), o.columnMasks)
  {
    var filters := Sort(Texts(render, o.rowFilters));
    var order := InSomeOrder(o.columnMasks);
    var masks := Sort(order);
    bytes := "";
    for i := 0 to |filters|
      invariant bytes == Terminated(filters[..i])
    {
      TerminatedSnoc(filters[..i], filters[i]);
      assert filters[..i + 1] == filters[..i] + [filters[i]];
      bytes := bytes + filters[i] + [NUL];
    }
    assert filters[..|filters|] == filters;
    bytes := bytes + [SPLIT];
    for i := 0 to |masks|
      invariant bytes == Terminated(filters) + [SPLIT] + Terminated(masks[..i])
    {
      TerminatedSnoc(masks[..i], masks[i]);
      assert masks[..i + 1] == masks[..i] + [masks[i]];
      assert bytes + masks[i] + [NUL] == Terminated(filters) + [SPLIT] + (Terminated(masks[..i]) + masks[i] + [NUL]);
      bytes := bytes + masks[i] + [NUL];
    }
    assert masks[..|masks|] == masks;
  }

  lemma SortFacts(s: seq<string>)
    ensures forall x :: x in Sort(s) <==> x in s
  {
    SortKeeps(s);
    forall x ensures x in Sort(s) <==> x in s {
      assert x in multiset(Sort(s)) <==> x in multiset(s);
    }
  }

  /** What the NULs of a list of parts cut it into. */
  function Pieces(parts: seq<string>): seq<string> {
    if parts == [] then [] else Split(parts[0], NUL) + Pieces(parts[1..])
  }

  lemma {:induction false} TerminatedConcat(p: seq<string>, q: seq<string>)
    ensures Terminated(p + q) == Terminated(p) + Terminated(q)
  {
    if p == [] {
      assert p + q == q;
    } else {
      TerminatedConcat(p[1..], q);
      assert (p + q)[1..] == p[1..] + q;
      assert p[0] + [NUL] + (Terminated(p[1..]) + Terminated(q)) == p[0] + [NUL] + Terminated(p[1..]) + Terminated(q);
    }
  }

  /** Ending each part of a split with the separator gives the text and a separator. */
  lemma {:induction false} TerminatedJoin(parts: seq<string>)
    requires parts != []
    ensures Terminated(parts) == Join(parts, NUL) + [NUL]
  {
    if |parts| == 1 {
      assert Terminated(parts[1..]) == "";
    } else {
      TerminatedJoin(parts[1..]);
      assert parts[0] + [NUL] + (Join(parts[1..], NUL) + [NUL]) == parts[0] + [NUL] + Join(parts[1..], NUL) + [NUL];
    }
  }

  lemma {:induction false} TerminatedPieces(parts: seq<string>)
    ensures Terminated(Pieces(parts)) == Terminated(parts) && Free(Pieces(parts), NUL)
  {
    if parts != [] {
      SplitParts(parts[0], NUL);
      TerminatedJoin(Split(parts[0], NUL));
      TerminatedPieces(parts[1..]);
      TerminatedConcat(Split(parts[0], NUL), Pieces(parts[1..]));
    }
  }

  lemma TerminatedEqualIff(m: seq<string>, n: seq<string>)
    ensures Terminated(m) == Terminated(n) <==> Pieces(m) == Pieces(n)
  {
    TerminatedPieces(m);
    TerminatedPieces(n);
    if Terminated(m) == Terminated(n) {
      TerminatedIsInjective(Pieces(m), Pieces(n));
    }
  }

  lemma {:induction false} PiecesOfFree(parts: seq<string>)
    requires Free(parts, NUL)
    ensures Pieces(parts) == parts
  {
    if parts != [] {
      SplitFree(parts[0], NUL);
      PiecesOfFree(parts[1..]);
      assert parts == [parts[0]] + parts[1..];
    }
  }

  /** The elements of a set, each once. */
  ghost function OrderOf(s: set<string>): (order: seq<string>)
    ensures multiset(order) == multiset(s)
  {
    if s == {} then []
    else
      var x :| x in s;
      assert multiset(s) == multiset(s - {x}) + multiset{x};
      [x] + OrderOf(s - {x})
  }

  /** The masks of a set in order, cut at their NULs. */
  ghost function MaskPieces(s: set<string>): seq<string> {
    Pieces(Sort(OrderOf(s)))
  }

  lemma MaskPiecesOf(order: seq<string>, s: set<string>)
    requires multiset(order) == multiset(s)
    ensures MaskPieces(s) == Pieces(Sort(order))
  {
    SortIgnoresOrder(order, OrderOf(s));
  }

  /**
   * Two obligation sets have one preimage exactly when they have the same filters, however ordered, and the same
   * pieces of their masks in order: a mask that holds a NUL stands for its pieces.
   */
  lemma PreimagesEqualIff(x: string, y: string, ta: seq<string>, ma: set<string>, tb: seq<string>, mb: set<string>)
    requires IsPreimage(x, ta, ma) && IsPreimage(y, tb, mb)
    requires forall t :: t in ta || t in tb ==> Rendered(t)
    ensures x == y <==> multiset(ta) == multiset(tb) && MaskPieces(ma) == MaskPieces(mb)
  {
    var oa :| multiset(oa) == multiset(ma) && x == Frame(Sort(ta), Sort(oa));
    var ob :| multiset(ob) == multiset(mb) && y == Frame(Sort(tb), Sort(ob));
    SortIgnoresOrder(ta, tb);
    SortFacts(ta);
    SortFacts(tb);
    MaskPiecesOf(oa, ma);
    MaskPiecesOf(ob, mb);
    TerminatedEqualIff(Sort(oa), Sort(ob));
    if x == y {
      FrameIsInjective(Sort(ta), Sort(oa), Sort(tb), Sort(ob));
    }
  }

  lemma OrderedMasksAreFree(s: set<string>)
    requires forall m :: m in s ==> NUL !in m
    ensures Free(Sort(OrderOf(s)), NUL) && MaskPieces(s) == Sort(OrderOf(s))
    ensures forall m :: m in Sort(OrderOf(s)) <==> m in s
  {
    SortFacts(OrderOf(s));
    OrderOfSet(OrderOf(s), s);
    PiecesOfFree(Sort(OrderOf(s)));
  }

  /** With no NUL in any mask the framing neither merges sets nor depends on order. */
  lemma PreimageIdentifiesObligations(x: string, y: string, ta: seq<string>, ma: set<string>, tb: seq<string>,
                                      mb: set<string>)
    requires IsPreimage(x, ta, ma) && IsPreimage(y, tb, mb)
    requires forall t :: t in ta || t in tb ==> Rendered(t)
    requires forall m :: m in ma || m in mb ==> NUL !in m
    ensures x == y <==> multiset(ta) == multiset(tb) && ma == mb
  {
    PreimagesEqualIff(x, y, ta, ma, tb, mb);
    OrderedMasksAreFree(ma);
    OrderedMasksAreFree(mb);
    if MaskPieces(ma) == MaskPieces(mb) {
      assert forall m :: m in ma <==> m in mb;
    }
  }

  lemma OrderOfSet(order: seq<string>, s: set<string>)
    requires multiset(order) == multiset(s)
    ensures forall x :: x in order <==> x in s
  {
    forall x ensures x in order <==> x in s {
      assert x in multiset(order) <==> x in multiset(s);
    }
  }

  lemma PiecesOfPair(a: string, b: string)
    requires NUL !in a && NUL !in b
    ensures Pieces([a + [NUL] + b]) == [a, b]
  {
    SplitFree(a, NUL);
    SplitFree(b, NUL);
    SplitAtSep(a, b, NUL);
    assert [a + [NUL] + b][1..] == [] && Pieces([]) == [];
    assert [a] + [b] == [a, b];
  }

  lemma SortPair(a: string, b: string)
    ensures Sort([a, b]) == if Le(a, b) then [a, b] else [b, a]
  {
    assert [a, b][1..] == [b] && [b][1..] == [];
    assert Sort([b]) == [b];
    assert Sort([a, b]) == Insert(a, [b]);
  }

  lemma OneMask(m: string)
    ensures MaskPieces({m}) == Pieces([m])
  {
    assert multiset([m]) == multiset({m});
    MaskPiecesOf([m], {m});
    assert [m][1..] == [] && Sort([]) == [];
    assert Sort([m]) == [m];
  }

  lemma TwoMasks(a: string, b: string)
    requires NUL !in a && NUL !in b && a != b
    ensures MaskPieces({a, b}) == if Le(a, b) then [a, b] else [b, a]
  {
    assert multiset([a, b]) == multiset({a, b});
    MaskPiecesOf([a, b], {a, b});
    SortPair(a, b);
    PiecesOfFree(Sort([a, b]));
  }

  /** One mask with a NUL between two others' names is hashed as those two exactly when they are in order. */
  lemma NulInAMaskMergesIff(x: string, y: string, texts: seq<string>, a: string, b: string)
    requires NUL !in a && NUL !in b && a != b && forall t :: t in texts ==> Rendered(t)
    requires IsPreimage(x, texts, {a + [NUL] + b}) && IsPreimage(y, texts, {a, b})
    ensures x == y <==> Le(a, b)
  {
    PreimagesEqualIff(x, y, texts, {a + [NUL] + b}, texts, {a, b});
    OneMask(a + [NUL] + b);
    PiecesOfPair(a, b);
    TwoMasks(a, b);
  }

  // ---------------------------------------------------------------------------
  // The bytes
  // ---------------------------------------------------------------------------

  /** Byte 0 after every text and byte 1 between the two lists, each list in order. */
  lemma PreimageText(x: string, f: string, g: string, a: string, b: string)
    requires IsPreimage(x, [g, f], {a, b}) && Le(f, g) && Le(a, b) && a != b
    ensures x == (f + ['\U{0}'] + g + ['\U{0}']) + ['\U{1}'] + (a + ['\U{0}'] + b + ['\U{0}'])
  {
    var order :| multiset(order) == multiset({a, b}) && x == Frame(Sort([g, f]), Sort(order));
    TwoInOrder([g, f], f, g);
    TwoInOrder(order, a, b);
    TwoTerminated(f, g);
    TwoTerminated(a, b);
  }

  lemma TwoInOrder(order: seq<string>, a: string, b: string)
    requires multiset(order) == multiset{a, b} && Le(a, b)
    ensures Sort(order) == [a, b]
  {
    assert multiset([a, b]) == multiset{a, b};
    SortIgnoresOrder(order, [a, b]);
    SortedPair(a, b);
  }

  lemma SortedPair(f: string, g: string)
    requires Le(f, g)
    ensures Sort([f, g]) == [f, g]
  {
    assert [f, g][1..] == [g] && [g][1..] == [];
    assert Sort([g]) == Insert(g, []);
  }

  lemma TwoTerminated(f: string, g: string)
    ensures Terminated([f, g]) == f + [NUL] + g + [NUL]
  {
    TerminatedSnoc([f], g);
    assert [f] + [g] == [f, g];
    TerminatedSnoc([], f);
    assert [] + [f] == [f];
  }

  /** The order is that of the first character in which two texts differ, a shorter text coming first. */
  lemma {:induction false} LeIff(a: string, b: string)
    ensures Le(a, b) <==>
            || a <= b
            || exists i :: 0 <= i < |a| && i < |b| && a[..i] == b[..i] && a[i] < b[i]
  {
    if a != "" && b != "" {
      LeIff(a[1..], b[1..]);
      if a[0] == b[0] {
        if i :| 0 <= i < |a| && i < |b| && a[..i] == b[..i] && a[i] < b[i] {
          assert i > 0;
          assert a[1..][..i - 1] == a[..i][1..] && b[1..][..i - 1] == b[..i][1..];
          assert a[1..][i - 1] < b[1..][i - 1];
        }
        if i :| 0 <= i < |a[1..]| && i < |b[1..]| && a[1..][..i] == b[1..][..i] && a[1..][i] < b[1..][i] {
          assert a[..i + 1] == [a[0]] + a[1..][..i] && b[..i + 1] == [b[0]] + b[1..][..i];
          assert a[i + 1] < b[i + 1];
        }
        assert a == [a[0]] + a[1..] && b == [b[0]] + b[1..];
        if a <= b {
          assert a[1..] == b[1..][..|a| - 1];
        }
      } else {
        assert a[..0] == b[..0];
      }
    }
  }
}
