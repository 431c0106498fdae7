/** Reading `referenced-by`: the chain of views a client says led it to a table. */
module ViewChain {

  import opened Prelude
  import opened Text
  import opened Names
  import opened Utf8

  // ---------------------------------------------------------------------------
  // Percent-decoding (RFC 3986 section 2.1)
  // ---------------------------------------------------------------------------

  const PERCENT: Byte := 0x25
  const COMMA: Byte := 0x2C
  const PLUS: Byte := 0x2B

  function HexDigit(b: Byte): (v: Option<int>)
    ensures v.Some? ==> 0 <= v.value < 16
  {
    if 0x30 <= b <= 0x39 then Some(b - 0x30)
    else if 0x41 <= b <= 0x46 then Some(b as int - 0x41 + 10)
    else if 0x61 <= b <= 0x66 then Some(b as int - 0x61 + 10)
    else None
  }

  /** `u8::from_str_radix(pair, 16)`, which takes a leading plus sign for a sign. */
  function HexPair(a: Byte, b: Byte): Option<Byte> {
    if HexDigit(b).None? then None
    else if a == PLUS then Some(HexDigit(b).value)
    else if HexDigit(a).None? then None
    else Some(HexDigit(a).value * 16 + HexDigit(b).value)
  }

  /** Every escape replaced by its byte; `None` for one that cannot be read. */
  function Unescape(b: seq<Byte>): (out: Option<seq<Byte>>)
    ensures out.Some? ==> |out.value| <= |b|
    decreases |b|
  {
    if b == [] then Some([])
    else if b[0] == PERCENT then
      if |b| < 3 || HexPair(b[1], b[2]).None? then None
      else Cons(HexPair(b[1], b[2]).value, Unescape(b[3..]))
    else Cons(b[0], Unescape(b[1..]))
  }

  function Cons(first: Byte, rest: Option<seq<Byte>>): Option<seq<Byte>> {
    match rest
    case None => None
    case Some(bytes) => Some([first] + bytes)
  }

  function Decoded(component: string): Option<string> {
    match Unescape(Encode(component))
    case None => None
    case Some(bytes) => Decode(bytes)
  }

  /** What was read so far, followed by what is still to be read. */
  function Resume(out: seq<Byte>, rest: seq<Byte>): Option<seq<Byte>> {
    match Unescape(rest)
    case None => None
    case Some(bytes) => Some(out + bytes)
  }

  method PercentDecode(component: string) returns (decoded: Option<string>)
    ensures decoded == Decoded(component)
  {
    var bytes := Encode(component);
    var out: seq<Byte> := [];
    var index := 0;
    ResumeFromNothing(bytes);
    while index < |bytes|
      invariant 0 <= index <= |bytes|
      invariant Unescape(bytes) == Resume(out, bytes[index..])
    {
      ResumeStep(out, bytes[index..]);
      if bytes[index] == PERCENT {
        if index + 3 > |bytes| || HexPair(bytes[index + 1], bytes[index + 2]).None? {
          return None;
        }
        assert bytes[index..][3..] == bytes[index + 3..];
        out := out + [HexPair(bytes[index + 1], bytes[index + 2]).value];
        index := index + 3;
      } else {
        assert bytes[index..][1..] == bytes[index + 1..];
        out := out + [bytes[index]];
        index := index + 1;
      }
    }
    assert bytes[index..] == [] && out + [] == out;
    decoded := Decode(out);
  }

  lemma ResumeFromNothing(bytes: seq<Byte>)
    ensures Resume([], bytes[0..]) == Unescape(bytes)
  {
    assert bytes[0..] == bytes;
    if Unescape(bytes).Some? {
      assert [] + Unescape(bytes).value == Unescape(bytes).value;
    }
  }

  lemma ResumeStep(out: seq<Byte>, rest: seq<Byte>)
    requires rest != []
    ensures rest[0] != PERCENT ==> Resume(out, rest) == Resume(out + [rest[0]], rest[1..])
    ensures rest[0] == PERCENT && (|rest| < 3 || HexPair(rest[1], rest[2]).None?) ==> Resume(out, rest) == None
    ensures rest[0] == PERCENT && |rest| >= 3 && HexPair(rest[1], rest[2]).Some? ==>
              Resume(out, rest) == Resume(out + [HexPair(rest[1], rest[2]).value], rest[3..])
  {
    if rest[0] != PERCENT {
      if Unescape(rest[1..]).Some? {
        assert out + ([rest[0]] + Unescape(rest[1..]).value) == out + [rest[0]] + Unescape(rest[1..]).value;
      }
    } else if |rest| >= 3 && HexPair(rest[1], rest[2]).Some? {
      var v := HexPair(rest[1], rest[2]).value;
      if Unescape(rest[3..]).Some? {
        assert out + ([v] + Unescape(rest[3..]).value) == out + [v] + Unescape(rest[3..]).value;
      }
    }
  }

  const UPPER_HEX := "0123456789ABCDEF"
  const LOWER_HEX := "0123456789abcdef"

  /** The byte is a hexadecimal digit, of this value. */
  ghost predicate HexIs(b: Byte, v: int) {
    0 <= v < 16 && (UPPER_HEX[v] as int == b || LOWER_HEX[v] as int == b)
  }

  lemma HexDigitIff(b: Byte, v: int)
    ensures HexDigit(b) == Some(v) <==> HexIs(b, v)
  {
  }

  /** `e` spells `b`: each byte as itself or as an escape, and neither `%` nor `,` as itself. */
  ghost predicate Escapes(e: seq<Byte>, b: seq<Byte>)
    decreases |b|
  {
    if b == [] then e == []
    else
      || (e != [] && e[0] == b[0] && e[0] != '%' as int && e[0] != ',' as int && Escapes(e[1..], b[1..]))
      || (|e| >= 3 && e[0] == '%' as int && HexIs(e[1], b[0] / 16) && HexIs(e[2], b[0] % 16) && Escapes(e[3..], b[1..]))
  }

  /** Decoding inverts every such spelling, whichever bytes it chose to escape; and no spelling holds a comma. */
  lemma {:induction false} UnescapeInverts(e: seq<Byte>, b: seq<Byte>)
    requires Escapes(e, b)
    ensures Unescape(e) == Some(b)
    ensures ',' as int !in e
    decreases |b|
  {
    if b != [] {
      assert b == [b[0]] + b[1..];
      if e[0] == PERCENT {
        HexDigitIff(e[1], b[0] / 16);
        HexDigitIff(e[2], b[0] % 16);
        PairIsDigits(e[1], e[2]);
        UnescapeInverts(e[3..], b[1..]);
        assert e == [e[0], e[1], e[2]] + e[3..];
      } else {
        UnescapeInverts(e[1..], b[1..]);
        assert e == [e[0]] + e[1..];
      }
    }
  }

  lemma PairIsDigits(a: Byte, b: Byte)
    requires HexDigit(a).Some? && HexDigit(b).Some?
    ensures HexPair(a, b) == Some(HexDigit(a).value * 16 + HexDigit(b).value)
    ensures a != COMMA && b != COMMA
  {
  }

  /** The two bytes after a percent sign stand for `v`: two digits, or a plus sign and one. */
  ghost predicate EscapeIs(a: Byte, b: Byte, v: Byte) {
    HexIs(b, v % 16) && (HexIs(a, v / 16) || (a == '+' as int && v < 16))
  }

  lemma TwoDigits(hi: int, lo: int, v: Byte)
    requires 0 <= hi < 16 && 0 <= lo < 16
    ensures hi * 16 + lo == v <==> hi == v / 16 && lo == v % 16
  {
  }

  lemma HexPairIff(a: Byte, b: Byte, v: Byte)
    ensures HexPair(a, b) == Some(v) <==> EscapeIs(a, b, v)
  {
    HexDigitIff(b, v % 16);
    HexDigitIff(a, v / 16);
    assert HexDigit('+' as int) == None;
    if HexDigit(a).Some? && HexDigit(b).Some? {
      TwoDigits(HexDigit(a).value, HexDigit(b).value, v);
    }
  }

  /** What decoding reads: every byte but a percent sign as itself, and escapes as what they stand for. */
  ghost predicate ReadsAs(e: seq<Byte>, b: seq<Byte>)
    decreases |b|
  {
    if b == [] then e == []
    else
      || (e != [] && e[0] == b[0] && e[0] != '%' as int && ReadsAs(e[1..], b[1..]))
      || (|e| >= 3 && e[0] == '%' as int && EscapeIs(e[1], e[2], b[0]) && ReadsAs(e[3..], b[1..]))
  }

  /** Decoding is that reading and no other, on every list of bytes. */
  lemma {:induction false} UnescapeIff(e: seq<Byte>, b: seq<Byte>)
    ensures Unescape(e) == Some(b) <==> ReadsAs(e, b)
    decreases |e|
  {
    if e != [] && b != [] {
      if e[0] == PERCENT {
        if |e| >= 3 {
          HexPairIff(e[1], e[2], b[0]);
          UnescapeIff(e[3..], b[1..]);
        }
      } else {
        UnescapeIff(e[1..], b[1..]);
      }
      assert b == [b[0]] + b[1..];
    }
  }

  /** Decoding never makes a component longer. */
  lemma DecodingNeverGrows(component: string)
    ensures Decoded(component).Some? ==> |Encode(Decoded(component).value)| <= |Encode(component)|
  {
    if Decoded(component).Some? {
      EncodeInverts(Unescape(Encode(component)).value);
    }
  }

  /** An escape is read exactly when it is two hexadecimal digits, or a plus sign and one. */
  lemma EscapeIsReadIff(a: Byte, b: Byte, rest: seq<Byte>)
    requires Unescape(rest).Some?
    ensures Unescape([PERCENT, a, b] + rest).Some? <==>
            HexDigit(b).Some? && (HexDigit(a).Some? || a == PLUS)
  {
    assert ([PERCENT, a, b] + rest)[3..] == rest;
  }

  // ---------------------------------------------------------------------------
  // The chain
  // ---------------------------------------------------------------------------

  /** `namespace/view`, a namespace of several parts having its parts joined the same way. */
  function Render(path: seq<string>): string
    requires |path| >= 2
  {
    Join(path[..|path| - 1], '/') + ['/'] + path[|path| - 1]
  }

  function ReadIdentifier(u: Unicode, raw: string): Option<string> {
    match Decoded(raw)
    case None => None
    case Some(decoded) =>
      var segments := Split(decoded, PART_SEPARATOR);
      if |segments| < 2 || ValidateEach(u, segments).Err? then None else Some(Render(segments))
  }

  /** Every item's result, or nothing when one has none. */
  function Traverse<A, B>(f: A -> Option<B>, items: seq<A>): Option<seq<B>> {
    if items == [] then Some([])
    else if f(items[0]).None? || Traverse(f, items[1..]).None? then None
    else Some([f(items[0]).value] + Traverse(f, items[1..]).value)
  }

  function Reader(u: Unicode): string -> Option<string> {
    (raw: string) => ReadIdentifier(u, raw)
  }

  function Chain(u: Unicode, rawParameter: string): Option<seq<string>> {
    if rawParameter == "" then None else Traverse(Reader(u), Split(rawParameter, ','))
  }

  lemma {:induction false} TraverseFails<A, B>(f: A -> Option<B>, items: seq<A>, i: nat)
    requires i < |items| && f(items[i]).None?
    ensures Traverse(f, items).None?
  {
    if i > 0 {
      TraverseFails(f, items[1..], i - 1);
    }
  }

  lemma {:induction false} TraverseIs<A, B>(f: A -> Option<B>, items: seq<A>, results: seq<B>)
    requires |items| == |results| && forall i :: 0 <= i < |items| ==> f(items[i]) == Some(results[i])
    ensures Traverse(f, items) == Some(results)
  {
    if items != [] {
      TraverseIs(f, items[1..], results[1..]);
      assert results == [results[0]] + results[1..];
    }
  }

  method ParseViewChain(u: Unicode, rawParameter: string) returns (result: Option<seq<string>>)
    ensures result == Chain(u, rawParameter)
  {
    if rawParameter == "" {
      return None;
    }
    var parts := Split(rawParameter, ',');
    var chain: seq<string> := [];
    for i := 0 to |parts|
      invariant |chain| == i && forall k :: 0 <= k < i ==> Reader(u)(parts[k]) == Some(chain[k])
    {
      var decoded := PercentDecode(parts[i]);
      if decoded.None? {
        TraverseFails(Reader(u), parts, i);
        return None;
      }
      var segments := Split(decoded.value, PART_SEPARATOR);
      if |segments| < 2 || ValidateEach(u, segments).Err? {
        TraverseFails(Reader(u), parts, i);
        return None;
      }
      chain := chain + [Render(segments)];
    }
    TraverseIs(Reader(u), parts, chain);
    result := Some(chain);
  }

  // ---------------------------------------------------------------------------
  // Round trip
  // ---------------------------------------------------------------------------

  /** A path of validated names: a namespace of at least one part, and a view. */
  ghost predicate IsViewPath(u: Unicode, path: seq<string>) {
    |path| >= 2 && forall i :: 0 <= i < |path| ==> ValidateName(u, path[i]).Ok?
  }

  ghost predicate AreViewPaths(u: Unicode, paths: seq<seq<string>>) {
    forall i :: 0 <= i < |paths| ==> |paths[i]| >= 2 && IsViewPath(u, paths[i])
  }

  /** `raw` is one identifier as a client may send it. */
  ghost predicate Spells(raw: string, path: seq<string>) {
    Escapes(Encode(raw), Encode(Join(path, PART_SEPARATOR)))
  }

  ghost predicate SpellsAll(raw: seq<string>, paths: seq<seq<string>>) {
    |raw| == |paths| && forall i :: 0 <= i < |raw| ==> Spells(raw[i], paths[i])
  }

  lemma ViewPathIsFree(u: Unicode, path: seq<string>)
    requires u.Covers() && IsViewPath(u, path)
    ensures Free(path, PART_SEPARATOR) && Free(path, '/')
  {
    forall i | 0 <= i < |path|
      ensures PART_SEPARATOR !in path[i] && '/' !in path[i]
    {
      ValidNameIsOneSegment(u, path[i]);
    }
  }

  lemma ReadIdentifierInverts(u: Unicode, raw: string, path: seq<string>)
    requires u.Covers() && IsViewPath(u, path) && Spells(raw, path)
    ensures ReadIdentifier(u, raw) == Some(Render(path))
    ensures ',' !in raw && raw != ""
  {
    var identifier := Join(path, PART_SEPARATOR);
    UnescapeInverts(Encode(raw), Encode(identifier));
    DecodeInverts(identifier);
    AsciiBytes(raw, ',');
    ViewPathIsFree(u, path);
    SplitJoin(path, PART_SEPARATOR);
    assert raw == "" ==> Decoded(raw) == Some("");
    assert Split("", PART_SEPARATOR) == [""];
  }

  /** The rendered chain of a list of paths. */
  function RenderAll(paths: seq<seq<string>>): (r: seq<string>)
    requires forall i :: 0 <= i < |paths| ==> |paths[i]| >= 2
    ensures |r| == |paths|
  {
    seq(|paths|, i requires 0 <= i < |paths| => Render(paths[i]))
  }

  /**
   * However a client escapes its identifiers, as long as `%` and `,` are escaped, the chain reads back as the list
   * it sent: the same length, each view rendered in its place.
   */
  lemma ViewChainRoundTrip(u: Unicode, raw: seq<string>, paths: seq<seq<string>>)
    requires u.Covers() && AreViewPaths(u, paths) && SpellsAll(raw, paths) && paths != []
    ensures Chain(u, Join(raw, ',')) == Some(RenderAll(paths))
  {
    forall i | 0 <= i < |raw|
      ensures ',' !in raw[i] && raw[i] != "" && Reader(u)(raw[i]) == Some(RenderAll(paths)[i])
    {
      ReadIdentifierInverts(u, raw[i], paths[i]);
    }
    SplitJoin(raw, ',');
    TraverseIs(Reader(u), raw, RenderAll(paths));
    assert raw[0] != "";
    assert Join(raw, ',') != "";
  }

  // ---------------------------------------------------------------------------
  // Which parameters are read, and as what
  // ---------------------------------------------------------------------------

  const UNIT_SEPARATOR: char := '\U{1F}'

  lemma DecodedIff(component: string, text: string)
    ensures Decoded(component) == Some(text) <==> ReadsAs(Encode(component), Encode(text))
  {
    UnescapeIff(Encode(component), Encode(text));
    DecodeInverts(text);
    if Decoded(component) == Some(text) {
      EncodeInverts(Unescape(Encode(component)).value);
    }
  }

  /** One component names this view: it decodes to a validated path, which is rendered with slashes. */
  ghost predicate ReadsView(u: Unicode, component: string, view: string) {
    exists path :: IsViewPath(u, path) && view == Join(path, '/')
                   && ReadsAs(Encode(component), Encode(Join(path, UNIT_SEPARATOR)))
  }

  lemma ReadIdentifierIff(u: Unicode, component: string, view: string)
    requires u.Covers()
    ensures ReadIdentifier(u, component) == Some(view) <==> ReadsView(u, component, view)
  {
    if ReadIdentifier(u, component) == Some(view) {
      var decoded := Decoded(component).value;
      var path := Split(decoded, PART_SEPARATOR);
      SplitParts(decoded, PART_SEPARATOR);
      DecodedIff(component, decoded);
      RenderIsJoin(path);
      assert IsViewPath(u, path);
    }
    if ReadsView(u, component, view) {
      var path :| IsViewPath(u, path) && view == Join(path, '/')
                  && ReadsAs(Encode(component), Encode(Join(path, UNIT_SEPARATOR)));
      DecodedIff(component, Join(path, UNIT_SEPARATOR));
      ViewPathIsFree(u, path);
      SplitJoin(path, PART_SEPARATOR);
      RenderIsJoin(path);
    }
  }

  lemma {:induction false} TraverseIff<A, B>(f: A -> Option<B>, items: seq<A>, results: seq<B>)
    ensures Traverse(f, items) == Some(results) <==>
            |items| == |results| && forall i :: 0 <= i < |items| ==> f(items[i]) == Some(results[i])
  {
    if items != [] && results != [] {
      TraverseIff(f, items[1..], results[1..]);
      assert results == [results[0]] + results[1..];
      if forall i :: 0 <= i < |items| ==> i < |results| && f(items[i]) == Some(results[i]) {
        assert f(items[0]) == Some(results[0]);
      }
      assert (Traverse(f, items) == Some(results)) <==>
             f(items[0]) == Some(results[0]) && Traverse(f, items[1..]) == Some(results[1..]);
    }
  }

  /** A parameter is read exactly when it is not empty and each of its components names a view; those are its views. */
  lemma ChainIff(u: Unicode, rawParameter: string, views: seq<string>)
    requires u.Covers()
    ensures var parts := Split(rawParameter, ',');
            Chain(u, rawParameter) == Some(views) <==>
            && rawParameter != "" && |parts| == |views|
            && forall i :: 0 <= i < |views| ==> ReadsView(u, parts[i], views[i])
  {
    var parts := Split(rawParameter, ',');
    TraverseIff(Reader(u), parts, views);
    forall i | 0 <= i < |parts| && i < |views|
      ensures Reader(u)(parts[i]) == Some(views[i]) <==> ReadsView(u, parts[i], views[i])
    {
      ReadIdentifierIff(u, parts[i], views[i]);
    }
  }

  lemma RenderOf(parts: seq<string>, last: string)
    requires parts != []
    ensures Render(parts + [last]) == Join(parts + [last], '/')
  {
    JoinSnoc(parts, last, '/');
    assert (parts + [last])[..|parts|] == parts;
  }

  lemma RenderIsJoin(path: seq<string>)
    requires |path| >= 2
    ensures Render(path) == Join(path, '/')
  {
    var n := |path| - 1;
    assert path == path[..n] + [path[n]];
    RenderOf(path[..n], path[n]);
  }

  lemma RenderPathIsInjective(u: Unicode, path: seq<string>, path': seq<string>)
    requires u.Covers() && IsViewPath(u, path) && IsViewPath(u, path') && Render(path) == Render(path')
    ensures path == path'
  {
    RenderIsJoin(path);
    RenderIsJoin(path');
    ViewPathIsFree(u, path);
    ViewPathIsFree(u, path');
    JoinInjective(path, path', '/');
  }

  /** Different lists of views are never rendered alike. */
  lemma RenderingIsInjective(u: Unicode, paths: seq<seq<string>>, paths': seq<seq<string>>)
    requires u.Covers() && AreViewPaths(u, paths) && AreViewPaths(u, paths')
    requires RenderAll(paths) == RenderAll(paths')
    ensures paths == paths'
  {
    assert |paths| == |paths'|;
    forall i | 0 <= i < |paths|
      ensures paths[i] == paths'[i]
    {
      assert RenderAll(paths)[i] == RenderAll(paths')[i];
      RenderPathIsInjective(u, paths[i], paths'[i]);
    }
  }

  lemma EscapedCommaDecodes()
    ensures Unescape([0x61, 0x25, 0x32, 0x43, 0x62]) == Some([0x61, 0x2C, 0x62])
  {
    var last: seq<Byte> := [0x62];
    var escape: seq<Byte> := [0x25, 0x32, 0x43] + last;
    var all: seq<Byte> := [0x61] + escape;
    var comma: seq<Byte> := [0x2C] + last;
    assert last[1..] == [] && escape[3..] == last && all[1..] == escape;
    assert last[..1] + [] == last;
    assert Escapes(last[1..], []);
    assert Escapes(last, last);
    assert comma[1..] == last;
    assert Escapes(escape, comma);
    assert ([0x61] + comma)[1..] == comma;
    UnescapeInverts(all, [0x61] + comma);
    assert all == [0x61, 0x25, 0x32, 0x43, 0x62];
    assert [0x61] + comma == [0x61, 0x2C, 0x62];
  }

  /** Decoding before splitting would read two views where one was sent. */
  lemma SplittingComesFirst()
    ensures Decoded("a%2Cb") == Some("a,b")
    ensures Split("a%2Cb", ',') == ["a%2Cb"]
    ensures Split("a,b", ',') != ["a,b"]
  {
    EscapedCommaDecodes();
    EncodeAscii("a%2Cb", [0x61, 0x25, 0x32, 0x43, 0x62]);
    EncodeAscii("a,b", [0x61, 0x2C, 0x62]);
    DecodeInverts("a,b");
    SplitFree("a%2Cb", ',');
    assert "a,b"[1] == ',';
    SplitFree("a,b", ',');
  }

  lemma {:induction false} EncodeAscii(s: string, b: seq<Byte>)
    requires |s| == |b| && forall i :: 0 <= i < |s| ==> s[i] as int == b[i] && b[i] < 0x80
    ensures Encode(s) == b
  {
    if s != "" {
      EncodeAscii(s[1..], b[1..]);
      assert b == [b[0]] + b[1..];
    }
  }

  // ---------------------------------------------------------------------------
  // Finding the parameter
  // ---------------------------------------------------------------------------

  const PARAMETER := "referenced-by="

  predicate Carries(pair: string) {
    PARAMETER <= pair
  }

  /** The still encoded value, when the query holds exactly one. */
  method RawParameter(query: string) returns (found: Option<string>)
    ensures found.Some? <==>
              exists i :: 0 <= i < |Split(query, '&')| && "referenced-by=" <= Split(query, '&')[i]
                          && forall k :: 0 <= k < |Split(query, '&')| && k != i ==>
                            !("referenced-by=" <= Split(query, '&')[k])
    ensures found.Some? ==> ("referenced-by=" + found.value) in Split(query, '&')
  {
    var pairs := Split(query, '&');
    found := None;
    ghost var at := 0;
    for i := 0 to |pairs|
      invariant found.None? ==> forall k :: 0 <= k < i ==> !Carries(pairs[k])
      invariant found.Some? ==> 0 <= at < i && pairs[at] == PARAMETER + found.value
      invariant found.Some? ==> forall k :: 0 <= k < i && k != at ==> !Carries(pairs[k])
    {
      if Carries(pairs[i]) {
        if found.Some? {
          assert Carries(pairs[at]);
          return None;
        }
        found := Some(pairs[i][|PARAMETER|..]);
        at := i;
        assert pairs[i] == PARAMETER + found.value;
      }
    }
  }
}
