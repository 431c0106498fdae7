/** From what the policy engine says of each policy to a decision and its obligations. */
module Decision {

  import opened Prelude
  import Json
  import opened Obligations

  /** How a policy's condition came out for one request. A policy that errs contributes nothing to the engine. */
  datatype Outcome = Satisfied | Unsatisfied | Errored

  type Evaluation = Policy -> Outcome

  function Having(policies: seq<Policy>, run: Evaluation, outcome: Outcome): (found: seq<Policy>)
    ensures forall p :: p in found <==> p in policies && run(p) == outcome
  {
    if policies == [] then []
    else (if run(policies[0]) == outcome then [policies[0]] else []) + Having(policies[1..], run, outcome)
  }

  function OfEffect(policies: seq<Policy>, permit: bool): (found: seq<Policy>)
    ensures forall p :: p in found <==> p in policies && p.permit == permit
  {
    if policies == [] then []
    else (if policies[0].permit == permit then [policies[0]] else []) + OfEffect(policies[1..], permit)
  }

  /** Cedar's answer: a satisfied forbid decides, then a satisfied permit, and nothing at all denies. */
  datatype Response = Response(allow: bool, reason: seq<Policy>, errors: seq<Policy>)

  function Engine(policies: seq<Policy>, run: Evaluation): Response {
    var satisfied := Having(policies, run, Satisfied);
    var forbids, permits := OfEffect(satisfied, false), OfEffect(satisfied, true);
    var errors := Having(policies, run, Errored);
    if forbids != [] then Response(false, forbids, errors) else Response(permits != [], permits, errors)
  }

  datatype Decision = Allow(obligations: Obligations) | Forbidden | NoPermit | EvaluationFailed

  function Decide(read: JsonReader, response: Response): Decision {
    if response.errors != [] then EvaluationFailed
    else if response.allow then Allow(Collected(read, response.reason))
    else if response.reason == [] then NoPermit
    else Forbidden
  }

  ghost predicate SomePolicy(policies: seq<Policy>, run: Evaluation, permit: bool) {
    exists p :: p in policies && p.permit == permit && run(p) == Satisfied
  }

  ghost predicate NoneErrs(policies: seq<Policy>, run: Evaluation) {
    forall p :: p in policies ==> run(p) != Errored
  }

  lemma EngineReasons(policies: seq<Policy>, run: Evaluation)
    ensures var r := Engine(policies, run);
            && (r.errors == [] <==> NoneErrs(policies, run))
            && (r.allow <==> SomePolicy(policies, run, true) && !SomePolicy(policies, run, false))
            && (r.allow ==> r.reason != [])
            && (r.allow ==> forall p :: p in r.reason <==> p in policies && p.permit && run(p) == Satisfied)
  {
    var satisfied := Having(policies, run, Satisfied);
    var forbids, permits := OfEffect(satisfied, false), OfEffect(satisfied, true);
    var errors := Having(policies, run, Errored);
    assert forbids != [] ==> forbids[0] in forbids;
    assert permits != [] ==> permits[0] in permits;
    assert errors != [] ==> errors[0] in errors;
  }

  /** A request is allowed exactly when nothing errs, nothing forbids it, and something permits it. */
  lemma AllowedIff(read: JsonReader, policies: seq<Policy>, run: Evaluation)
    ensures Decide(read, Engine(policies, run)).Allow? <==>
            NoneErrs(policies, run) && SomePolicy(policies, run, true) && !SomePolicy(policies, run, false)
  {
    EngineReasons(policies, run);
  }

  /** Whether a request under these policies gets to see a row. */
  ghost predicate Sees(read: JsonReader, accepts: Json.Json -> bool, policies: seq<Policy>, run: Evaluation) {
    var d := Decide(read, Engine(policies, run));
    d.Allow? && RowVisible(accepts, d.obligations)
  }

  /**
   * The whole of it, for a policy set that loaded: a row is seen exactly when no policy errs, no forbid is satisfied,
   * and some satisfied permit grants that row.
   */
  lemma SeesIff(read: JsonReader, accepts: Json.Json -> bool, policies: seq<Policy>, run: Evaluation)
    requires RowFiltersValid(read, policies)
    ensures Sees(read, accepts, policies, run) <==>
            && NoneErrs(policies, run) && !SomePolicy(policies, run, false)
            && exists p :: p in policies && p.permit && run(p) == Satisfied && GrantsRow(read, accepts, p)
  {
    EngineReasons(policies, run);
    var r := Engine(policies, run);
    if r.allow {
      ValidatedPermitsCompose(read, accepts, policies, r.reason);
    }
  }

  /** Adding a forbid never shows a row; adding a permit that does not err never hides one. */
  lemma PoliciesAreMonotone(read: JsonReader, accepts: Json.Json -> bool, policies: seq<Policy>, run: Evaluation,
                            extra: Policy)
    requires RowFiltersValid(read, policies + [extra])
    ensures !extra.permit && Sees(read, accepts, policies + [extra], run) ==> Sees(read, accepts, policies, run)
    ensures extra.permit && run(extra) != Errored && Sees(read, accepts, policies, run) ==>
              Sees(read, accepts, policies + [extra], run)
  {
    assert forall p :: p in policies ==> p in policies + [extra];
    SeesIff(read, accepts, policies, run);
    SeesIff(read, accepts, policies + [extra], run);
  }

  /** Whatever the policies that erred would have said, an allowed request is one the engine allows. */
  lemma ErrorsNeverAllow(read: JsonReader, policies: seq<Policy>, run: Evaluation, mended: Evaluation)
    requires Decide(read, Engine(policies, run)).Allow?
    requires forall p :: p in policies && run(p) != Errored ==> mended(p) == run(p)
    ensures Engine(policies, mended).allow
  {
    EngineReasons(policies, run);
    EngineReasons(policies, mended);
  }

  /** The engine alone skips a forbid that errs and allows what it would have stopped. */
  lemma EngineAloneSkipsErrors(read: JsonReader)
    ensures var grant, stop := Policy("p0", true, None, None), Policy("p1", false, None, None);
            var run := (p: Policy) => if p.permit then Satisfied else Errored;
            var mended := (p: Policy) => Satisfied;
            && Engine([grant, stop], run).allow && !Engine([grant, stop], mended).allow
            && Decide(read, Engine([grant, stop], run)) == EvaluationFailed
  {
    var grant, stop := Policy("p0", true, None, None), Policy("p1", false, None, None);
    var run := (p: Policy) => if p.permit then Satisfied else Errored;
    var mended := (p: Policy) => Satisfied;
    EngineReasons([grant, stop], run);
    EngineReasons([grant, stop], mended);
    assert grant in [grant, stop] && stop in [grant, stop];
  }

  /** Which refusal it is: an erring policy first, then a forbid, then that nothing permits. */
  lemma RefusalIs(read: JsonReader, policies: seq<Policy>, run: Evaluation)
    ensures var d := Decide(read, Engine(policies, run));
            && (d == EvaluationFailed <==> !NoneErrs(policies, run))
            && (d == Forbidden <==> NoneErrs(policies, run) && SomePolicy(policies, run, false))
            && (d == NoPermit <==> NoneErrs(policies, run) && !SomePolicy(policies, run, false)
                                   && !SomePolicy(policies, run, true))
  {
    EngineReasons(policies, run);
    var satisfied := Having(policies, run, Satisfied);
    var forbids, permits := OfEffect(satisfied, false), OfEffect(satisfied, true);
    assert forbids != [] ==> forbids[0] in forbids;
    assert permits != [] ==> permits[0] in permits;
  }

  /** The obligations of an allowed request are those of the satisfied permits: columns no less than rows. */
  lemma WithheldIff(read: JsonReader, policies: seq<Policy>, run: Evaluation, column: string)
    requires Decide(read, Engine(policies, run)).Allow?
    ensures column in Decide(read, Engine(policies, run)).obligations.columnMasks <==>
            forall p :: p in policies && p.permit && run(p) == Satisfied ==>
              column in Collected(read, [p]).columnMasks
  {
    EngineReasons(policies, run);
    WithheldColumnsAreTheIntersection(read, Engine(policies, run).reason, column);
    forall p: Policy ensures Collected(read, [p]).columnMasks == MaskOf(p) {
    }
  }
}
