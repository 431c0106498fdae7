/** What a client is told to apply to the rows of the files a plan hands it. */
module Residual {

  import opened Prelude
  import opened Json
  import opened Truth
  import opened Predicate
  import opened PredicateLaws
  import opened Obligations
  import opened Plan
  import opened Restrictions
  import opened RestrictionLaws

  /** The client's own filter and the published policy filter, conjoined. */
  function ResidualFilter(s: Schema, requested: Option<Json>, obligations: Obligations): Option<Json> {
    var policy := RowFilterOf(s, obligations.rowFilters);
    if requested.Some? && policy.Some? then Some(Pair("and", requested.value, policy.value))
    else if requested.Some? then requested
    else policy
  }

  /** The rows a client keeps that applies what it was told, `unbound` being its own reading of its own filter. */
  function Applied(v: Values, s: Schema, case_: CaseSensitivity, row: Row, unbound: Json -> Truth,
                   residual: Option<Json>): Truth {
    RequestedMeaning(v, s, case_, row, unbound, residual)
  }

  /** Every policy filter is one on which the plan and the published form agree. */
  ghost predicate Publishable(s: Schema, case_: CaseSensitivity, filters: seq<Json>) {
    WellIndexed(s) && OwnNamesBind(s, case_) && AllTermsAgree(s, case_, filters) && AllBranchesAgree(s, case_, filters)
  }

  // ---------------------------------------------------------------------------
  // The columns of a bound predicate
  // ---------------------------------------------------------------------------

  /** Every name in the predicate binds. */
  ghost predicate Bound(s: Schema, case_: CaseSensitivity, p: Pred) {
    forall n :: n in Columns(p) ==> s.Lookup(case_, n).Some?
  }

  lemma MakesAreBound(s: Schema, case_: CaseSensitivity, p: Pred, q: Pred)
    requires Bound(s, case_, p) && Bound(s, case_, q)
    ensures Bound(s, case_, MakeAnd(p, q)) && Bound(s, case_, MakeOr(p, q))
  {
  }

  lemma WrittenNameIsBound(s: Schema, case_: CaseSensitivity, o: Object, kind: Kind)
    requires (kind.KUnary? || kind.KCompare? || kind.KSet?) && ParseLeaf(s, case_, true, Bindable, o, kind).Ok?
    ensures Bound(s, case_, ParseLeaf(s, case_, true, Bindable, o, kind).value)
  {
    LeafIsAtom(s, case_, o, kind);
    WrittenNameBinds(s, case_, TermAt(o, kind).value);
  }

  lemma {:induction false} ParsedIsBound(s: Schema, case_: CaseSensitivity, positive: bool, j: Json)
    ensures Parse(s, case_, positive, Bindable, j).Ok? ==> Bound(s, case_, Parse(s, case_, positive, Bindable, j).value)
    decreases j
  {
    if j.Obj? && Parse(s, case_, positive, Bindable, j).Ok? {
      var o := j.fields;
      var kind := KindOf(GetStr(o, "type").value);
      if kind.KAnd? || kind.KOr? {
        ParsedIsBound(s, case_, positive, o["left"]);
        ParsedIsBound(s, case_, positive, o["right"]);
        MakesAreBound(s, case_, Parse(s, case_, positive, Bindable, o["left"]).value,
                      Parse(s, case_, positive, Bindable, o["right"]).value);
      } else if kind.KNot? {
        ParsedIsBound(s, case_, !positive, o["child"]);
        NegateKeepsColumns(Parse(s, case_, !positive, Bindable, o["child"]).value);
      } else {
        LeafPolarity(s, case_, o, kind);
        if kind.KUnary? || kind.KCompare? || kind.KSet? {
          WrittenNameIsBound(s, case_, o, kind);
        }
      }
    }
  }

  lemma {:induction false} PolicyIsBound(s: Schema, case_: CaseSensitivity, filters: seq<Json>)
    ensures PolicyPredicateOf(s, case_, filters).Some? ==> Bound(s, case_, PolicyPredicateOf(s, case_, filters).value)
    decreases |filters|
  {
    if filters != [] {
      var before, last := filters[..|filters| - 1], filters[|filters| - 1];
      PolicyIsBound(s, case_, before);
      ParsedIsBound(s, case_, true, last);
      assert Bound(s, case_, Branch(s, case_, last));
      if PolicyPredicateOf(s, case_, before).Some? {
        MakesAreBound(s, case_, PolicyPredicateOf(s, case_, before).value, Branch(s, case_, last));
      }
    }
  }

  // ---------------------------------------------------------------------------
  // What the residual selects
  // ---------------------------------------------------------------------------

  lemma PublishedMeansPermitted(v: Values, s: Schema, case_: CaseSensitivity, row: Row, unbound: Json -> Truth,
                                filters: seq<Json>)
    requires Publishable(s, case_, filters) && filters != []
    ensures RowFilterOf(s, filters).Some?
    ensures Meaning(v, s, case_, row, unbound, RowFilterOf(s, filters).value) ==
            PermittedMeaning(v, s, case_, row, filters)
  {
    PublishedFilterIsThePlannedOne(s, case_, case_, filters);
    var p := PolicyPredicateOf(s, case_, filters).value;
    PolicyPredicateIsExact(v, s, case_, row, filters);
    PolicyIsBound(s, case_, filters);
    CanonicalMeansTheSame(v, s, case_, case_, p, row);
    StrictParseIsExact(v, s, case_, row, unbound, true, RowFilterOf(s, filters).value,
                       Canonical(s.BindingFor(case_), p));
  }

  lemma PairMeans(v: Values, s: Schema, case_: CaseSensitivity, row: Row, unbound: Json -> Truth, and: string,
                  left: Json, right: Json)
    requires KindOf(and) == KAnd
    ensures Meaning(v, s, case_, row, unbound, Pair(and, left, right)) ==
            And3(Meaning(v, s, case_, row, unbound, left), Meaning(v, s, case_, row, unbound, right))
  {
    var o := Pair(and, left, right).fields;
    assert GetStr(o, "type") == Some(and);
    assert o["left"] == left && o["right"] == right;
  }

  /** Applying the residual keeps exactly the rows asked for and permitted. */
  lemma ResidualIsRequestAndPolicy(v: Values, s: Schema, case_: CaseSensitivity, row: Row, unbound: Json -> Truth,
                                   requested: Option<Json>, obligations: Obligations)
    requires Publishable(s, case_, obligations.rowFilters)
    ensures Applied(v, s, case_, row, unbound, ResidualFilter(s, requested, obligations)) ==
            And3(RequestedMeaning(v, s, case_, row, unbound, requested),
                 PermittedMeaning(v, s, case_, row, obligations.rowFilters))
  {
    var filters := obligations.rowFilters;
    if filters != [] {
      PublishedMeansPermitted(v, s, case_, row, unbound, filters);
      if requested.Some? {
        assert KindOf("and") == KAnd;
        PairMeans(v, s, case_, row, unbound, "and", requested.value, RowFilterOf(s, filters).value);
      }
    }
  }

  /** The plan loses none of those rows: a row the residual keeps is one the planner's filter admits. */
  lemma PlanKeepsWhatResidualKeeps(v: Values, s: Schema, case_: CaseSensitivity, row: Row, unbound: Json -> Truth,
                                   requested: Option<Json>, obligations: Obligations, filter: Option<Pred>)
    requires Publishable(s, case_, obligations.rowFilters)
    requires ScanFilter(s, case_, requested, obligations) == Ok(filter)
    requires Applied(v, s, case_, row, unbound, ResidualFilter(s, requested, obligations)) == T
    ensures EvalOptional(v, s.BindingFor(case_), filter, row) == T
  {
    ResidualIsRequestAndPolicy(v, s, case_, row, unbound, requested, obligations);
    PlanIsBetweenRequestAndPolicy(v, s, case_, row, unbound, requested, obligations, filter);
  }

  /** From matched permits to delivered rows: what the client asked for and some matching permit grants. */
  lemma DeliveredRowsAreAskedAndGranted(v: Values, s: Schema, case_: CaseSensitivity, row: Row, unbound: Json -> Truth,
                                        requested: Option<Json>, read: JsonReader, policies: seq<Policy>,
                                        matched: seq<Policy>)
    requires RowFiltersValid(read, policies) && matched != [] && forall p :: p in matched ==> p in policies
    requires Publishable(s, case_, Collected(read, matched).rowFilters)
    ensures Applied(v, s, case_, row, unbound, ResidualFilter(s, requested, Collected(read, matched))) == T <==>
            && RequestedMeaning(v, s, case_, row, unbound, requested) == T
            && exists p :: p in matched && GrantedBy(v, s, case_, row, read, p)
  {
    ResidualIsRequestAndPolicy(v, s, case_, row, unbound, requested, Collected(read, matched));
    PlanPolicyIsTheUnionOfPermits(v, s, case_, row, read, policies, matched);
  }
}
