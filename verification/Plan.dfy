/** Combining the client's filter with the policy's for planning. */
module Plan {

  import opened Prelude
  import opened Json
  import opened Truth
  import opened Predicate
  import opened PredicateLaws
  import opened ValidatorLaws
  import opened FilterMeaning
  import opened Obligations

  /** One policy filter on this table; a filter the table cannot carry selects nothing. */
  function Branch(s: Schema, case_: CaseSensitivity, filter: Json): Pred {
    match ParsePolicyPredicate(s, case_, filter)
    case Ok(p) => p
    case Err(_) => AlwaysFalse
  }

  function PolicyPredicateOf(s: Schema, case_: CaseSensitivity, filters: seq<Json>): Option<Pred> {
    if filters == [] then None
    else
      var last := Branch(s, case_, filters[|filters| - 1]);
      match PolicyPredicateOf(s, case_, filters[..|filters| - 1])
      case None => Some(last)
      case Some(p) => Some(MakeOr(p, last))
  }

  method PolicyPredicate(obligations: Obligations, s: Schema, case_: CaseSensitivity) returns (combined: Option<Pred>)
    ensures combined == PolicyPredicateOf(s, case_, obligations.rowFilters)
  {
    var filters := obligations.rowFilters;
    combined := None;
    for i := 0 to |filters|
      invariant combined == PolicyPredicateOf(s, case_, filters[..i])
    {
      assert filters[..i + 1][..i] == filters[..i];
      var predicate_ := Branch(s, case_, filters[i]);
      match combined {
        case Some(existing) => combined := Some(MakeOr(existing, predicate_));
        case None => combined := Some(predicate_);
      }
    }
    assert filters[..|filters|] == filters;
  }

  /** The filter the planner prunes by. */
  function ScanFilter(s: Schema, case_: CaseSensitivity, requested: Option<Json>, obligations: Obligations)
    : Outcome<Option<Pred>>
  {
    var policy := PolicyPredicateOf(s, case_, obligations.rowFilters);
    match requested
    case None => Ok(policy)
    case Some(j) =>
      var client :- ParsePredicate(s, case_, j);
      match policy
      case None => Ok(Some(client))
      case Some(p) => Ok(Some(MakeAnd(client, p)))
  }

  // ---------------------------------------------------------------------------
  // What the plan selects
  // ---------------------------------------------------------------------------

  function EvalOptional(v: Values, bind: Binding, p: Option<Pred>, row: Row): Truth {
    match p
    case None => T
    case Some(q) => Eval(v, bind, q, row)
  }

  /** One policy filter's truth on a row, read off the JSON: false when this table cannot carry it. */
  function BranchMeaning(v: Values, s: Schema, case_: CaseSensitivity, row: Row, filter: Json): Truth {
    if ParsePolicyPredicate(s, case_, filter).Ok? then Meaning(v, s, case_, row, j => U, filter) else F
  }

  /** What policy permits: anything when no filter applies, else the best of the filters. */
  function PermittedMeaning(v: Values, s: Schema, case_: CaseSensitivity, row: Row, filters: seq<Json>): Truth {
    if filters == [] then T
    else if |filters| == 1 then BranchMeaning(v, s, case_, row, filters[0])
    else Or3(PermittedMeaning(v, s, case_, row, filters[..|filters| - 1]),
             BranchMeaning(v, s, case_, row, filters[|filters| - 1]))
  }

  function RequestedMeaning(v: Values, s: Schema, case_: CaseSensitivity, row: Row, unbound: Json -> Truth,
                            requested: Option<Json>): Truth {
    match requested
    case None => T
    case Some(j) => Meaning(v, s, case_, row, unbound, j)
  }

  lemma BranchIsExact(v: Values, s: Schema, case_: CaseSensitivity, row: Row, filter: Json)
    ensures Eval(v, s.BindingFor(case_), Branch(s, case_, filter), row) == BranchMeaning(v, s, case_, row, filter)
  {
    if ParsePolicyPredicate(s, case_, filter).Ok? {
      StrictParseIsExact(v, s, case_, row, j => U, true, filter, Branch(s, case_, filter));
    }
  }

  lemma {:induction false} PolicyPredicateIsExact(v: Values, s: Schema, case_: CaseSensitivity, row: Row,
                                                  filters: seq<Json>)
    ensures EvalOptional(v, s.BindingFor(case_), PolicyPredicateOf(s, case_, filters), row) ==
            PermittedMeaning(v, s, case_, row, filters)
    ensures PolicyPredicateOf(s, case_, filters).None? <==> filters == []
  {
    if filters != [] {
      var before, last := filters[..|filters| - 1], filters[|filters| - 1];
      PolicyPredicateIsExact(v, s, case_, row, before);
      BranchIsExact(v, s, case_, row, last);
      if before != [] {
        MakeOrIsOr(v, s.BindingFor(case_), PolicyPredicateOf(s, case_, before).value, Branch(s, case_, last), row);
      }
    }
  }

  /**
   * A plan keeps every row that the client's filter and the policy both admit, and no row the
   * policy does not: widening only ever loosens the client's half.
   */
  lemma PlanIsBetweenRequestAndPolicy(v: Values, s: Schema, case_: CaseSensitivity, row: Row, unbound: Json -> Truth,
                                      requested: Option<Json>, obligations: Obligations, filter: Option<Pred>)
    requires ScanFilter(s, case_, requested, obligations) == Ok(filter)
    ensures var planned := EvalOptional(v, s.BindingFor(case_), filter, row);
            var permitted := PermittedMeaning(v, s, case_, row, obligations.rowFilters);
            AtMost(And3(RequestedMeaning(v, s, case_, row, unbound, requested), permitted), planned)
            && AtMost(planned, permitted)
  {
    var policy := PolicyPredicateOf(s, case_, obligations.rowFilters);
    PolicyPredicateIsExact(v, s, case_, row, obligations.rowFilters);
    if requested.Some? {
      var client := ParsePredicate(s, case_, requested.value).value;
      WideningIsSound(v, s, case_, row, unbound, true, requested.value, client);
      if policy.Some? {
        MakeAndIsAnd(v, s.BindingFor(case_), client, policy.value, row);
      }
    }
  }

  lemma {:induction false} PermittedNeedsABranch(v: Values, s: Schema, case_: CaseSensitivity, row: Row,
                                                 filters: seq<Json>)
    ensures PermittedMeaning(v, s, case_, row, filters) == T <==>
            filters == [] || exists f :: f in filters && BranchMeaning(v, s, case_, row, f) == T
  {
    if |filters| > 1 {
      var before, last := filters[..|filters| - 1], filters[|filters| - 1];
      PermittedNeedsABranch(v, s, case_, row, before);
      assert filters == before + [last];
    }
  }

  /** The rows one matching permit grants on this table. */
  ghost predicate GrantedBy(v: Values, s: Schema, case_: CaseSensitivity, row: Row, read: JsonReader, p: Policy) {
    GrantsRow(read, f => BranchMeaning(v, s, case_, row, f) == T, p)
  }

  /**
   * End to end: with a policy set checked at load, the policy half of a plan is true of a row
   * exactly when some matching permit grants that row on this table.
   */
  lemma PlanPolicyIsTheUnionOfPermits(v: Values, s: Schema, case_: CaseSensitivity, row: Row, read: JsonReader,
                                      policies: seq<Policy>, matched: seq<Policy>)
    requires RowFiltersValid(read, policies) && matched != [] && forall p :: p in matched ==> p in policies
    ensures PermittedMeaning(v, s, case_, row, Collected(read, matched).rowFilters) == T <==>
            exists p :: p in matched && GrantedBy(v, s, case_, row, read, p)
  {
    var accepts := (f: Json) => BranchMeaning(v, s, case_, row, f) == T;
    var filters := Collected(read, matched).rowFilters;
    ValidatedPermitsCompose(read, accepts, policies, matched);
    PermittedNeedsABranch(v, s, case_, row, filters);
    assert RowVisible(accepts, Collected(read, matched)) <==>
           filters == [] || exists f :: f in filters && BranchMeaning(v, s, case_, row, f) == T;
    assert forall p :: GrantsRow(read, accepts, p) <==> GrantedBy(v, s, case_, row, read, p);
  }

  /** No plan for a caller selects a row that no matching permit grants. */
  lemma PlannedRowsAreGranted(v: Values, s: Schema, case_: CaseSensitivity, row: Row, read: JsonReader,
                              policies: seq<Policy>, matched: seq<Policy>, requested: Option<Json>,
                              filter: Option<Pred>)
    requires RowFiltersValid(read, policies) && matched != [] && forall p :: p in matched ==> p in policies
    requires ScanFilter(s, case_, requested, Collected(read, matched)) == Ok(filter)
    requires EvalOptional(v, s.BindingFor(case_), filter, row) == T
    ensures exists p :: p in matched && GrantedBy(v, s, case_, row, read, p)
  {
    PlanIsBetweenRequestAndPolicy(v, s, case_, row, j => U, requested, Collected(read, matched), filter);
    PlanPolicyIsTheUnionOfPermits(v, s, case_, row, read, policies, matched);
  }

  // ---------------------------------------------------------------------------
  // Exactly what a plan selects
  // ---------------------------------------------------------------------------

  /** A policy filter the table carries is true of the row. */
  ghost predicate Admits(v: Values, s: Schema, case_: CaseSensitivity, row: Row, filter: Json) {
    ParsePolicyPredicate(s, case_, filter).Ok? && TruthOn(v, s, case_, row, filter) == T
  }

  lemma AdmitsIff(v: Values, s: Schema, case_: CaseSensitivity, row: Row, filter: Json)
    ensures BranchMeaning(v, s, case_, row, filter) == T <==> Admits(v, s, case_, row, filter)
  {
    BranchIsExact(v, s, case_, row, filter);
  }

  /** There is a plan exactly when the client's filter can be read. */
  lemma PlannedIff(s: Schema, case_: CaseSensitivity, requested: Option<Json>, obligations: Obligations)
    ensures ScanFilter(s, case_, requested, obligations).Ok? <==>
            requested.Some? ==> ParsePredicate(s, case_, requested.value).Ok?
  {
  }

  /**
   * When nothing of the client's filter is widened, a plan selects exactly the rows that filter is true of and some
   * policy filter admits; with no filter of either kind, all of them.
   */
  lemma PlanIsExact(v: Values, s: Schema, case_: CaseSensitivity, row: Row, requested: Option<Json>,
                    obligations: Obligations, filter: Option<Pred>)
    requires ScanFilter(s, case_, requested, obligations) == Ok(filter)
    requires requested.Some? ==> ParsePolicyPredicate(s, case_, requested.value).Ok?
    ensures EvalOptional(v, s.BindingFor(case_), filter, row) == T <==>
            && (requested.Some? ==> TruthOn(v, s, case_, row, requested.value) == T)
            && (obligations.rowFilters == []
                || exists f :: f in obligations.rowFilters && Admits(v, s, case_, row, f))
  {
    var policy := PolicyPredicateOf(s, case_, obligations.rowFilters);
    PolicyPredicateIsExact(v, s, case_, row, obligations.rowFilters);
    PermittedNeedsABranch(v, s, case_, row, obligations.rowFilters);
    forall f ensures BranchMeaning(v, s, case_, row, f) == T <==> Admits(v, s, case_, row, f) {
      AdmitsIff(v, s, case_, row, f);
    }
    if requested.Some? {
      StrictIsBindableClientReading(s, case_, requested.value);
      if policy.Some? {
        MakeAndIsAnd(v, s.BindingFor(case_), ParsePolicyPredicate(s, case_, requested.value).value, policy.value, row);
      }
    }
  }
}
