/** The restrictions the matching permits attach to a grant. */
module Obligations {

  import opened Prelude
  import opened Text
  import opened Json
  import opened Predicate

  /** A loaded policy: its effect and its two annotations. */
  datatype Policy = Policy(id: string, permit: bool, rowFilter: Option<string>, columnMask: Option<string>)

  /** `serde_json::from_str` on an annotation. */
  type JsonReader = string -> Option<Json>

  /** Row filters combine by union, with none meaning unrestricted; column masks by intersection. */
  datatype Obligations = Obligations(rowFilters: seq<Json>, columnMasks: set<string>)

  /** Permits whose presence voided a restriction on this request. */
  datatype Voided = Voided(filters: seq<string>, masks: seq<string>)

  function MaskColumns(mask: string): set<string> {
    set part | part in Split(mask, ',') && Trim(part) != "" :: Trim(part)
  }

  /** The columns one permit withholds. */
  function MaskOf(p: Policy): set<string> {
    match p.columnMask
    case None => {}
    case Some(mask) => MaskColumns(mask)
  }

  /** `validate_row_filters`: every row filter is JSON, and a predicate the binder will take. */
  predicate RowFiltersValid(read: JsonReader, policies: seq<Policy>) {
    forall p :: p in policies && p.rowFilter.Some? ==>
      read(p.rowFilter.value).Some? && ValidatePolicyFilter(read(p.rowFilter.value).value).Ok?
  }

  // ---------------------------------------------------------------------------
  // What the loop computes
  // ---------------------------------------------------------------------------

  function FiltersOf(read: JsonReader, matched: seq<Policy>): seq<Json> {
    if matched == [] then []
    else
      var last := matched[|matched| - 1];
      FiltersOf(read, matched[..|matched| - 1])
      + (if last.rowFilter.Some? && read(last.rowFilter.value).Some? then [read(last.rowFilter.value).value] else [])
  }

  function Unfiltered(matched: seq<Policy>): seq<string> {
    if matched == [] then []
    else
      var last := matched[|matched| - 1];
      Unfiltered(matched[..|matched| - 1]) + (if last.rowFilter.None? then [last.id] else [])
  }

  function Unmasked(matched: seq<Policy>): seq<string> {
    if matched == [] then []
    else
      var last := matched[|matched| - 1];
      Unmasked(matched[..|matched| - 1]) + (if MaskOf(last) == {} then [last.id] else [])
  }

  predicate AnyMask(matched: seq<Policy>) {
    exists i :: 0 <= i < |matched| && MaskOf(matched[i]) != {}
  }

  /** The columns every one of `matched` withholds; none when nothing matched. */
  function CommonMask(matched: seq<Policy>): set<string> {
    if matched == [] then {}
    else if |matched| == 1 then MaskOf(matched[0])
    else CommonMask(matched[..|matched| - 1]) * MaskOf(matched[|matched| - 1])
  }

  function Collected(read: JsonReader, matched: seq<Policy>): Obligations {
    var filters := FiltersOf(read, matched);
    Obligations(if Unfiltered(matched) != [] then [] else filters, CommonMask(matched))
  }

  function VoidedBy(read: JsonReader, matched: seq<Policy>): Voided {
    Voided(if FiltersOf(read, matched) != [] then Unfiltered(matched) else [],
           if AnyMask(matched) then Unmasked(matched) else [])
  }

  /** What one more permit adds to each list. */
  lemma OneMorePermit(read: JsonReader, matched: seq<Policy>, i: nat)
    requires i < |matched|
    ensures var p, before, now := matched[i], matched[..i], matched[..i + 1];
            && FiltersOf(read, now) == FiltersOf(read, before)
               + (if p.rowFilter.Some? && read(p.rowFilter.value).Some? then [read(p.rowFilter.value).value] else [])
            && Unfiltered(now) == Unfiltered(before) + (if p.rowFilter.None? then [p.id] else [])
            && Unmasked(now) == Unmasked(before) + (if MaskOf(p) == {} then [p.id] else [])
            && (AnyMask(now) <==> AnyMask(before) || MaskOf(p) != {})
  {
    var before, now := matched[..i], matched[..i + 1];
    assert now[..i] == before && now[i] == matched[i];
    if AnyMask(before) {
      var k :| 0 <= k < i && MaskOf(before[k]) != {};
      assert MaskOf(now[k]) != {};
    }
    assert MaskOf(matched[i]) != {} ==> MaskOf(now[i]) != {};
    assert forall k :: 0 <= k < i ==> now[k] == before[k];
  }

  method CollectObligations(read: JsonReader, matched: seq<Policy>) returns (obligations: Obligations, voided: Voided)
    ensures obligations == Collected(read, matched)
    ensures voided == VoidedBy(read, matched)
  {
    var rowFilters: seq<Json>, maskSets: seq<set<string>> := [], [];
    var unfiltered: seq<string>, unmasked: seq<string>, anyMask := [], [], false;
    for i := 0 to |matched|
      invariant rowFilters == FiltersOf(read, matched[..i])
      invariant unfiltered == Unfiltered(matched[..i]) && unmasked == Unmasked(matched[..i])
      invariant anyMask == AnyMask(matched[..i])
      invariant |maskSets| == i && forall k :: 0 <= k < i ==> maskSets[k] == MaskOf(matched[k])
    {
      var p := matched[i];
      OneMorePermit(read, matched, i);
      match p.rowFilter {
        case Some(text) =>
          if read(text).Some? {
            rowFilters := rowFilters + [read(text).value];
          }
        case None => unfiltered := unfiltered + [p.id];
      }
      var columns := MaskOf(p);
      if columns == {} {
        unmasked := unmasked + [p.id];
      } else {
        anyMask := true;
      }
      maskSets := maskSets + [columns];
    }
    assert matched[..|matched|] == matched;

    voided := Voided([], []);
    if unfiltered != [] && rowFilters != [] {
      voided := voided.(filters := unfiltered);
      rowFilters := [];
    }
    if unmasked != [] && anyMask {
      voided := voided.(masks := unmasked);
    }
    var columnMasks := Intersect(maskSets, matched);
    obligations := Obligations(rowFilters, columnMasks);
  }

  /** The reduction of the mask sets by intersection. */
  method Intersect(maskSets: seq<set<string>>, ghost matched: seq<Policy>) returns (common: set<string>)
    requires |maskSets| == |matched| && forall k :: 0 <= k < |matched| ==> maskSets[k] == MaskOf(matched[k])
    ensures common == CommonMask(matched)
  {
    if maskSets == [] {
      return {};
    }
    common := maskSets[0];
    for i := 1 to |maskSets|
      invariant common == CommonMask(matched[..i])
    {
      assert matched[..i + 1][..i] == matched[..i];
      common := common * maskSets[i];
    }
    assert matched[..|matched|] == matched;
  }

  // ---------------------------------------------------------------------------
  // Obligations compose as grants
  // ---------------------------------------------------------------------------

  /** Whether one permit grants a row, when `accepts` is the verdict of each filter on that row. */
  ghost predicate GrantsRow(read: JsonReader, accepts: Json -> bool, p: Policy) {
    p.rowFilter.Some? ==> read(p.rowFilter.value).Some? && accepts(read(p.rowFilter.value).value)
  }

  /** Whether the obligations let the row through. */
  ghost predicate RowVisible(accepts: Json -> bool, o: Obligations) {
    o.rowFilters == [] || exists f :: f in o.rowFilters && accepts(f)
  }

  lemma {:induction false} FiltersMember(read: JsonReader, matched: seq<Policy>, f: Json)
    ensures f in FiltersOf(read, matched) <==>
            exists p :: p in matched && p.rowFilter.Some? && read(p.rowFilter.value) == Some(f)
  {
    if matched != [] {
      var before, last := matched[..|matched| - 1], matched[|matched| - 1];
      FiltersMember(read, before, f);
      assert matched == before + [last];
    }
  }

  lemma {:induction false} UnfilteredMember(matched: seq<Policy>)
    ensures Unfiltered(matched) != [] <==> exists p :: p in matched && p.rowFilter.None?
    ensures forall id :: id in Unfiltered(matched) ==> exists p :: p in matched && p.rowFilter.None? && p.id == id
  {
    if matched != [] {
      var before, last := matched[..|matched| - 1], matched[|matched| - 1];
      UnfilteredMember(before);
      assert matched == before + [last];
    }
  }

  lemma {:induction false} CommonMaskMember(matched: seq<Policy>, column: string)
    ensures column in CommonMask(matched) <==> matched != [] && forall p :: p in matched ==> column in MaskOf(p)
  {
    if |matched| > 1 {
      var before, last := matched[..|matched| - 1], matched[|matched| - 1];
      CommonMaskMember(before, column);
      assert matched == before + [last];
    }
  }

  /**
   * A row is visible exactly when some matching permit grants it, provided some matching
   * permit has no filter or a readable one.
   */
  lemma VisibleRowsAreTheUnion(read: JsonReader, accepts: Json -> bool, matched: seq<Policy>)
    requires exists p :: p in matched && (p.rowFilter.Some? ==> read(p.rowFilter.value).Some?)
    ensures RowVisible(accepts, Collected(read, matched)) <==> exists p :: p in matched && GrantsRow(read, accepts, p)
  {
    UnfilteredMember(matched);
    var filters := FiltersOf(read, matched);
    if exists p :: p in matched && p.rowFilter.None? {
      var p :| p in matched && p.rowFilter.None?;
      assert GrantsRow(read, accepts, p);
    } else {
      assert Collected(read, matched).rowFilters == filters;
      ReadableFilter(read, matched);
      if RowVisible(accepts, Collected(read, matched)) {
        var f :| f in filters && accepts(f);
        FiltersMember(read, matched, f);
        var p :| p in matched && p.rowFilter.Some? && read(p.rowFilter.value) == Some(f);
        assert GrantsRow(read, accepts, p);
      }
      if exists p :: p in matched && GrantsRow(read, accepts, p) {
        var p :| p in matched && GrantsRow(read, accepts, p);
        FiltersMember(read, matched, read(p.rowFilter.value).value);
      }
    }
  }

  lemma ReadableFilter(read: JsonReader, matched: seq<Policy>)
    ensures FiltersOf(read, matched) != [] <==>
            exists p :: p in matched && p.rowFilter.Some? && read(p.rowFilter.value).Some?
  {
    if FiltersOf(read, matched) != [] {
      FiltersMember(read, matched, FiltersOf(read, matched)[0]);
    }
    if exists p :: p in matched && p.rowFilter.Some? && read(p.rowFilter.value).Some? {
      var p :| p in matched && p.rowFilter.Some? && read(p.rowFilter.value).Some?;
      FiltersMember(read, matched, read(p.rowFilter.value).value);
    }
  }

  /** When no matching permit qualifies, the law fails the wide way: nothing is granted and every row is visible. */
  lemma UnreadableFiltersUnrestrict(read: JsonReader, accepts: Json -> bool, matched: seq<Policy>)
    requires !exists p :: p in matched && (p.rowFilter.Some? ==> read(p.rowFilter.value).Some?)
    ensures RowVisible(accepts, Collected(read, matched)) && !exists p :: p in matched && GrantsRow(read, accepts, p)
  {
    ReadableFilter(read, matched);
  }

  /** A set checked at load never meets that case. */
  lemma ValidatedPermitsCompose(read: JsonReader, accepts: Json -> bool, policies: seq<Policy>, matched: seq<Policy>)
    requires RowFiltersValid(read, policies) && matched != [] && forall p :: p in matched ==> p in policies
    ensures RowVisible(accepts, Collected(read, matched)) <==> exists p :: p in matched && GrantsRow(read, accepts, p)
  {
    assert matched[0] in matched;
    VisibleRowsAreTheUnion(read, accepts, matched);
  }

  /** A column is withheld exactly when every matching permit withholds it. */
  lemma WithheldColumnsAreTheIntersection(read: JsonReader, matched: seq<Policy>, column: string)
    ensures column in Collected(read, matched).columnMasks <==>
            matched != [] && forall p :: p in matched ==> column in MaskOf(p)
  {
    CommonMaskMember(matched, column);
  }

  /** The order in which the engine reports the matching permits does not matter. */
  lemma OrderDoesNotMatter(read: JsonReader, accepts: Json -> bool, matched: seq<Policy>, matched': seq<Policy>)
    requires forall p :: p in matched <==> p in matched'
    ensures RowVisible(accepts, Collected(read, matched)) == RowVisible(accepts, Collected(read, matched'))
    ensures Collected(read, matched).columnMasks == Collected(read, matched').columnMasks
  {
    if exists p :: p in matched && (p.rowFilter.Some? ==> read(p.rowFilter.value).Some?) {
      VisibleRowsAreTheUnion(read, accepts, matched);
      VisibleRowsAreTheUnion(read, accepts, matched');
    } else {
      UnreadableFiltersUnrestrict(read, accepts, matched);
      UnreadableFiltersUnrestrict(read, accepts, matched');
    }
    assert matched == [] <==> matched' == [] by {
      assert matched != [] ==> matched[0] in matched';
      assert matched' != [] ==> matched'[0] in matched;
    }
    forall column ensures column in CommonMask(matched) <==> column in CommonMask(matched') {
      CommonMaskMember(matched, column);
      CommonMaskMember(matched', column);
    }
  }

  /** One more matching permit can only show more rows and withhold fewer columns. */
  lemma MorePermitsGrantMore(read: JsonReader, accepts: Json -> bool, policies: seq<Policy>, matched: seq<Policy>,
                             extra: Policy)
    requires RowFiltersValid(read, policies) && matched != []
    requires extra in policies && forall p :: p in matched ==> p in policies
    ensures RowVisible(accepts, Collected(read, matched)) ==> RowVisible(accepts, Collected(read, matched + [extra]))
    ensures Collected(read, matched + [extra]).columnMasks <= Collected(read, matched).columnMasks
  {
    ValidatedPermitsCompose(read, accepts, policies, matched);
    ValidatedPermitsCompose(read, accepts, policies, matched + [extra]);
    assert forall p :: p in matched ==> p in matched + [extra];
    forall column | column in CommonMask(matched + [extra]) ensures column in CommonMask(matched) {
      CommonMaskMember(matched, column);
      CommonMaskMember(matched + [extra], column);
    }
  }

  // ---------------------------------------------------------------------------
  // Voiding, seen at run time and foreseen at load
  // ---------------------------------------------------------------------------

  datatype Restriction = RowFilterKind | ColumnMaskKind

  function Annotation(p: Policy, kind: Restriction): Option<string> {
    if kind == RowFilterKind then p.rowFilter else p.columnMask
  }

  /** The permits without the annotation, when some permit has it; the source sorts the ids for display. */
  function BroadPermits(policies: seq<Policy>, kind: Restriction): set<string> {
    if exists p :: p in policies && p.permit && Annotation(p, kind).Some?
    then set p | p in policies && p.permit && Annotation(p, kind).None? :: p.id
    else {}
  }

  method BroadPermitsOverRestriction(policies: seq<Policy>, kind: Restriction) returns (unannotated: set<string>)
    ensures unannotated == BroadPermits(policies, kind)
  {
    var annotated := 0;
    unannotated := {};
    for i := 0 to |policies|
      invariant 0 <= annotated
      invariant annotated > 0 <==> exists p :: p in policies[..i] && p.permit && Annotation(p, kind).Some?
      invariant unannotated == set p | p in policies[..i] && p.permit && Annotation(p, kind).None? :: p.id
    {
      var p := policies[i];
      assert policies[..i + 1] == policies[..i] + [p];
      if p.permit {
        if Annotation(p, kind).Some? {
          annotated := annotated + 1;
        } else {
          unannotated := unannotated + {p.id};
        }
      }
    }
    assert policies[..|policies|] == policies;
    if annotated == 0 {
      unannotated := {};
    }
  }

  /** A row filter voided on a request was reported when the policies were loaded, permit by permit. */
  lemma VoidedFiltersWereForeseen(read: JsonReader, policies: seq<Policy>, matched: seq<Policy>, id: string)
    requires forall p :: p in matched ==> p in policies && p.permit
    requires id in VoidedBy(read, matched).filters
    ensures id in BroadPermits(policies, RowFilterKind)
  {
    UnfilteredMember(matched);
    ReadableFilter(read, matched);
  }

  lemma {:induction false} UnmaskedMember(matched: seq<Policy>, id: string)
    ensures id in Unmasked(matched) ==> exists p :: p in matched && MaskOf(p) == {} && p.id == id
  {
    if matched != [] {
      var before, last := matched[..|matched| - 1], matched[|matched| - 1];
      UnmaskedMember(before, id);
      assert matched == before + [last];
    }
  }

  ghost predicate UniqueIds(policies: seq<Policy>) {
    forall p, q :: p in policies && q in policies && p.id == q.id ==> p == q
  }

  /**
   * A permit that voided a mask on a request was reported at load exactly when it carries no mask annotation at all.
   */
  lemma VoidedMaskForeseenIff(read: JsonReader, policies: seq<Policy>, matched: seq<Policy>, p: Policy)
    requires UniqueIds(policies) && forall q :: q in matched ==> q in policies && q.permit
    requires p in matched && p.id in VoidedBy(read, matched).masks
    ensures p.id in BroadPermits(policies, ColumnMaskKind) <==> p.columnMask.None?
    ensures p.columnMask.Some? ==> MaskColumns(p.columnMask.value) == {}
  {
    UnmaskedMember(matched, p.id);
    var q :| q in matched && MaskOf(q) == {} && q.id == p.id;
    assert q == p;
    var i :| 0 <= i < |matched| && MaskOf(matched[i]) != {};
    assert matched[i] in policies && matched[i].columnMask.Some?;
  }

  /** Such a permit: its blank annotation counts as one at load and voids the other permit's mask at run time. */
  lemma BlankMaskIsNotForeseen(read: JsonReader)
    ensures var blank, masked := Policy("p0", true, None, Some("")), Policy("p1", true, None, Some("ssn"));
            && VoidedBy(read, [blank, masked]).masks == ["p0"]
            && Collected(read, [blank, masked]).columnMasks == {}
            && BroadPermits([blank, masked], ColumnMaskKind) == {}
  {
    var blank, masked := Policy("p0", true, None, Some("")), Policy("p1", true, None, Some("ssn"));
    SplitFree("", ',');
    SplitFree("ssn", ',');
    assert MaskOf(blank) == {};
    assert Trim("ssn") == "ssn" && "ssn" in MaskOf(masked);
    assert [blank, masked][..1] == [blank] && [blank][..0] == [];
    assert MaskOf([blank, masked][1]) != {};
    assert Unmasked([blank]) == ["p0"];
    assert CommonMask([blank]) == {};
  }

  /** A filter is voided exactly when one matching permit has no filter and another has a readable one. */
  lemma {:induction false} VoidedFiltersIff(read: JsonReader, matched: seq<Policy>, id: string)
    ensures id in VoidedBy(read, matched).filters <==>
            && (exists p :: p in matched && p.rowFilter.None? && p.id == id)
            && (exists q :: q in matched && q.rowFilter.Some? && read(q.rowFilter.value).Some?)
  {
    ReadableFilter(read, matched);
    UnfilteredIds(matched, id);
  }

  lemma {:induction false} UnfilteredIds(matched: seq<Policy>, id: string)
    ensures id in Unfiltered(matched) <==> exists p :: p in matched && p.rowFilter.None? && p.id == id
  {
    if matched != [] {
      UnfilteredIds(matched[..|matched| - 1], id);
      assert matched == matched[..|matched| - 1] + [matched[|matched| - 1]];
    }
  }

  lemma {:induction false} UnmaskedIds(matched: seq<Policy>, id: string)
    ensures id in Unmasked(matched) <==> exists p :: p in matched && MaskOf(p) == {} && p.id == id
  {
    if matched != [] {
      UnmaskedIds(matched[..|matched| - 1], id);
      assert matched == matched[..|matched| - 1] + [matched[|matched| - 1]];
    }
  }

  /** A mask is voided exactly when one matching permit withholds nothing and another something. */
  lemma VoidedMasksIff(read: JsonReader, matched: seq<Policy>, id: string)
    ensures id in VoidedBy(read, matched).masks <==>
            && (exists p :: p in matched && Collected(read, [p]).columnMasks == {} && p.id == id)
            && (exists q :: q in matched && Collected(read, [q]).columnMasks != {})
  {
    UnmaskedIds(matched, id);
    forall p: Policy ensures Collected(read, [p]).columnMasks == MaskOf(p) {
    }
    if q :| q in matched && Collected(read, [q]).columnMasks != {} {
      var i :| 0 <= i < |matched| && matched[i] == q;
      assert MaskOf(matched[i]) != {};
    }
  }

  /** The load-time report, annotation by annotation. */
  lemma ReportIff(policies: seq<Policy>, id: string)
    ensures id in BroadPermits(policies, RowFilterKind) <==>
            && (exists p :: p in policies && p.permit && p.rowFilter.Some?)
            && (exists q :: q in policies && q.permit && q.rowFilter.None? && q.id == id)
    ensures id in BroadPermits(policies, ColumnMaskKind) <==>
            && (exists p :: p in policies && p.permit && p.columnMask.Some?)
            && (exists q :: q in policies && q.permit && q.columnMask.None? && q.id == id)
  {
  }
}
