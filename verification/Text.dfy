/** String operations the source takes from Rust's standard library. */
module Text {

  import opened Prelude

  /** `str::split` on one character: always at least one part. */
  function Split(s: string, sep: char): (parts: seq<string>)
    ensures |parts| >= 1
  {
    if s == "" then [""]
    else
      Prepend(s[0], Split(s[1..], sep), sep)
  }

  /** `[..].join(sep)` for a one-character separator. */
  function Join(parts: seq<string>, sep: char): string {
    if |parts| == 0 then ""
    else if |parts| == 1 then parts[0]
    else parts[0] + [sep] + Join(parts[1..], sep)
  }

  /** No part contains `sep`. */
  ghost predicate Free(parts: seq<string>, sep: char) {
    forall i :: 0 <= i < |parts| ==> sep !in parts[i]
  }

  /** The parts of a concatenation: the two parts that meet become one. */
  function Glue(p: seq<string>, q: seq<string>): (r: seq<string>)
    requires |p| >= 1 && |q| >= 1
    ensures |r| == |p| + |q| - 1
    ensures r[..|p| - 1] == p[..|p| - 1]
    ensures r[|p| - 1] == p[|p| - 1] + q[0]
    ensures r[|p|..] == q[1..]
  {
    if |p| == 1 then [p[0] + q[0]] + q[1..] else [p[0]] + Glue(p[1..], q)
  }

  /** What one more character in front does to the parts. */
  function Prepend(c: char, rest: seq<string>, sep: char): (parts: seq<string>)
    requires |rest| >= 1
    ensures |parts| >= 1
  {
    if c == sep then [""] + rest else [[c] + rest[0]] + rest[1..]
  }

  lemma PrependGlue(c: char, p: seq<string>, q: seq<string>, sep: char)
    requires |p| >= 1 && |q| >= 1
    ensures Prepend(c, Glue(p, q), sep) == Glue(Prepend(c, p, sep), q)
  {
    if c == sep {
      assert ([""] + p)[1..] == p;
    } else {
      var head := [[c] + p[0]] + p[1..];
      assert head[1..] == p[1..];
      if |p| == 1 {
        assert [c] + (p[0] + q[0]) == ([c] + p[0]) + q[0];
      }
    }
  }

  lemma {:induction false} SplitConcat(a: string, b: string, sep: char)
    ensures Split(a + b, sep) == Glue(Split(a, sep), Split(b, sep))
  {
    if a == "" {
      assert a + b == b;
      assert "" + Split(b, sep)[0] == Split(b, sep)[0];
    } else {
      SplitConcat(a[1..], b, sep);
      assert (a + b)[1..] == a[1..] + b;
      PrependGlue(a[0], Split(a[1..], sep), Split(b, sep), sep);
    }
  }

  lemma CutAround<T>(s: seq<T>, i: nat)
    requires i < |s|
    ensures s == s[..i] + ([s[i]] + s[i + 1..])
  {
  }

  lemma GlueParts(p: seq<string>, q: seq<string>)
    requires |p| >= 1 && |q| >= 1
    ensures Glue(p, q) == p[..|p| - 1] + ([p[|p| - 1] + q[0]] + q[1..])
  {
    CutAround(Glue(p, q), |p| - 1);
  }

  lemma {:induction false} GlueEmpty(p: seq<string>, q: seq<string>)
    requires |p| >= 1
    ensures Glue(p, [""] + q) == p + q
  {
    assert p[0] + "" == p[0];
    assert p == [p[0]] + p[1..];
    if |p| > 1 {
      GlueEmpty(p[1..], q);
    }
  }

  lemma {:induction false} SplitAtSep(a: string, b: string, sep: char)
    ensures Split(a + [sep] + b, sep) == Split(a, sep) + Split(b, sep)
  {
    SplitConcat(a, [sep] + b, sep);
    assert ([sep] + b)[1..] == b;
    assert a + [sep] + b == a + ([sep] + b);
    GlueEmpty(Split(a, sep), Split(b, sep));
  }

  lemma {:induction false} SplitFree(s: string, sep: char)
    ensures sep !in s <==> Split(s, sep) == [s]
    ensures |Split(s, sep)| == 1 ==> sep !in s
  {
    if s != "" {
      SplitFree(s[1..], sep);
      assert s == [s[0]] + s[1..];
    }
  }

  lemma {:induction false} SplitParts(s: string, sep: char)
    ensures Free(Split(s, sep), sep)
    ensures Join(Split(s, sep), sep) == s
  {
    if s != "" {
      SplitParts(s[1..], sep);
      assert s == [s[0]] + s[1..];
      PrependParts(s[0], Split(s[1..], sep), sep);
    }
  }

  lemma PrependParts(c: char, rest: seq<string>, sep: char)
    requires |rest| >= 1 && Free(rest, sep)
    ensures Free(Prepend(c, rest, sep), sep)
    ensures Join(Prepend(c, rest, sep), sep) == [c] + Join(rest, sep)
  {
    if c == sep {
      assert ([""] + rest)[1..] == rest;
    } else {
      var longer := [[c] + rest[0]] + rest[1..];
      assert longer[1..] == rest[1..];
      if |rest| > 1 {
        assert [c] + rest[0] + [sep] + Join(rest[1..], sep) == [c] + (rest[0] + [sep] + Join(rest[1..], sep));
      }
    }
  }

  lemma {:induction false} SplitJoin(parts: seq<string>, sep: char)
    requires |parts| >= 1 && Free(parts, sep)
    ensures Split(Join(parts, sep), sep) == parts
  {
    SplitFree(parts[0], sep);
    if |parts| > 1 {
      SplitJoin(parts[1..], sep);
      SplitAtSep(parts[0], Join(parts[1..], sep), sep);
      assert [parts[0]] + parts[1..] == parts;
    }
  }

  lemma {:induction false} JoinSnoc(parts: seq<string>, last: string, sep: char)
    requires |parts| >= 1
    ensures Join(parts + [last], sep) == Join(parts, sep) + [sep] + last
  {
    assert (parts + [last])[1..] == parts[1..] + [last];
    if |parts| > 1 {
      JoinSnoc(parts[1..], last, sep);
    }
  }

  lemma {:induction false} JoinInjective(p: seq<string>, q: seq<string>, sep: char)
    requires |p| >= 1 && |q| >= 1 && Free(p, sep) && Free(q, sep)
    requires Join(p, sep) == Join(q, sep)
    ensures p == q
  {
    SplitJoin(p, sep);
    SplitJoin(q, sep);
  }

  /** `filter(|s| !s.is_empty())` over the parts of a split. */
  function NonEmpty(parts: seq<string>): (kept: seq<string>)
    ensures "" !in kept
    ensures |kept| <= |parts|
  {
    if parts == [] then []
    else if parts[0] == "" then NonEmpty(parts[1..])
    else [parts[0]] + NonEmpty(parts[1..])
  }

  lemma {:induction false} NonEmptyConcat(p: seq<string>, q: seq<string>)
    ensures NonEmpty(p + q) == NonEmpty(p) + NonEmpty(q)
  {
    if p == [] {
      assert p + q == q;
    } else {
      NonEmptyConcat(p[1..], q);
      assert (p + q)[1..] == p[1..] + q;
      assert (p + q)[0] == p[0];
    }
  }

  lemma {:induction false} NonEmptyKeeps(p: seq<string>)
    ensures "" !in p ==> NonEmpty(p) == p
    ensures forall s :: s in NonEmpty(p) <==> s in p && s != ""
  {
    if p != [] {
      NonEmptyKeeps(p[1..]);
      assert p == [p[0]] + p[1..];
    }
  }

  /** The first position of `c` in `s`. */
  function IndexOf(s: string, c: char): (at: Option<nat>)
    ensures at.None? <==> c !in s
    ensures at.Some? ==> at.value < |s| && s[at.value] == c && forall i :: 0 <= i < at.value ==> s[i] != c
  {
    if s == "" then None
    else if s[0] == c then Some(0)
    else
      match IndexOf(s[1..], c)
      case None => None
      case Some(i) => Some(i + 1)
  }

  /** `trim_end_matches(c)`. */
  function TrimEnd(s: string, c: char): (t: string)
    ensures t <= s
    ensures t != "" ==> t[|t| - 1] != c
  {
    if s != "" && s[|s| - 1] == c then TrimEnd(s[..|s| - 1], c) else s
  }

  /** The Unicode `White_Space` property, which is what `str::trim` removes. */
  predicate IsWhitespace(c: char) {
    || '\t' <= c <= '\r' || c == ' ' || c == '\U{0085}' || c == '\U{00A0}' || c == '\U{1680}'
    || '\U{2000}' <= c <= '\U{200A}' || c == '\U{2028}' || c == '\U{2029}' || c == '\U{202F}'
    || c == '\U{205F}' || c == '\U{3000}'
  }

  /** `str::trim`. */
  function Trim(s: string): (t: string)
    ensures IsTrimmed(t)
  {
    if s == "" then s
    else if IsWhitespace(s[0]) then Trim(s[1..])
    else if IsWhitespace(s[|s| - 1]) then Trim(s[..|s| - 1])
    else s
  }

  /** `s.trim() == s`. */
  predicate IsTrimmed(s: string) {
    s != "" ==> !IsWhitespace(s[0]) && !IsWhitespace(s[|s| - 1])
  }

  /** `s.trim().is_empty()`. */
  predicate IsBlank(s: string) {
    forall c :: c in s ==> IsWhitespace(c)
  }

  /** `to_ascii_lowercase`. */
  function ToLower(s: string): (t: string)
    ensures |t| == |s|
    ensures forall i :: 0 <= i < |s| ==> t[i] == LowerChar(s[i])
  {
    seq(|s|, i requires 0 <= i < |s| => LowerChar(s[i]))
  }

  function LowerChar(c: char): char {
    if 'A' <= c <= 'Z' then c - 'A' + 'a' else c
  }

  function Elements(s: seq<string>): set<string> {
    set p | p in s
  }

  /** The elements of a set, once each, in some order: what iterating a hash set yields. */
  method InSomeOrder(s: set<string>) returns (order: seq<string>)
    ensures Elements(order) == s && |order| == |s| && multiset(order) == multiset(s)
  {
    order := [];
    var rest := s;
    while rest != {}
      invariant Elements(order) + rest == s && Elements(order) !! rest
      invariant |order| + |rest| == |s|
      invariant multiset(order) + multiset(rest) == multiset(s)
      decreases rest
    {
      var p :| p in rest;
      order := order + [p];
      rest := rest - {p};
    }
  }

  /** Text with whitespace on either side. */
  datatype Spaced = Spaced(before: string, text: string, after: string)
  {
    function Written(): string {
      before + text + after
    }

    predicate Valid() {
      IsBlank(before) && IsBlank(after) && IsTrimmed(text)
    }
  }

  lemma {:induction false} TrimOfBlank(s: string)
    requires IsBlank(s)
    ensures Trim(s) == ""
    decreases |s|
  {
    if s != "" {
      assert s[0] in s;
      forall c | c in s[1..] ensures IsWhitespace(c) {
        assert c in s;
      }
      TrimOfBlank(s[1..]);
    }
  }

  lemma {:induction false} TrimOfPadded(before: string, text: string, after: string)
    requires IsBlank(before) && IsBlank(after) && IsTrimmed(text) && text != ""
    ensures Trim(before + text + after) == text
    decreases |before| + |after|
  {
    var s := before + text + after;
    if before != "" {
      assert s[0] == before[0] && before[0] in before;
      assert s[1..] == before[1..] + text + after;
      forall c | c in before[1..] ensures IsWhitespace(c) {
        assert c in before;
      }
      TrimOfPadded(before[1..], text, after);
    } else if after != "" {
      var n := |after| - 1;
      assert s[0] == text[0] && s[|s| - 1] == after[n] && after[n] in after;
      assert s[..|s| - 1] == before + text + after[..n];
      forall c | c in after[..n] ensures IsWhitespace(c) {
        assert c in after;
      }
      TrimOfPadded(before, text, after[..n]);
    } else {
      assert s == text;
    }
  }

  lemma TrimOfSpaced(e: Spaced)
    requires e.Valid()
    ensures Trim(e.Written()) == e.text
  {
    if e.text == "" {
      TrimOfBlank(e.Written());
    } else {
      TrimOfPadded(e.before, e.text, e.after);
    }
  }

  /** Whatever surrounds a trimmed text is whitespace. */
  lemma {:induction false} Padding(s: string) returns (before: string, after: string)
    ensures IsBlank(before) && IsBlank(after) && s == before + Trim(s) + after
    decreases |s|
  {
    before, after := "", "";
    if s != "" {
      if IsWhitespace(s[0]) {
        before, after := Padding(s[1..]);
        MorePadding(s, before, Trim(s[1..]), after);
        before := [s[0]] + before;
      } else if IsWhitespace(s[|s| - 1]) {
        before, after := Padding(s[..|s| - 1]);
        MorePadding(s, before, Trim(s[..|s| - 1]), after);
        after := after + [s[|s| - 1]];
      }
    }
  }

  lemma MorePadding(s: string, before: string, text: string, after: string)
    requires s != ""
    ensures s[1..] == before + text + after ==> s == ([s[0]] + before) + text + after
    ensures s[..|s| - 1] == before + text + after ==> s == before + text + (after + [s[|s| - 1]])
  {
    assert s == [s[0]] + s[1..] && s == s[..|s| - 1] + [s[|s| - 1]];
  }
}
