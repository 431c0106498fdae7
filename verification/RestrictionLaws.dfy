/** Reading a published row filter, against the plan it was published beside. */
module RestrictionLaws {

  import opened Prelude
  import opened Json
  import opened Truth
  import opened Literals
  import opened Predicate
  import opened BindingLaws
  import opened Plan
  import opened Restrictions

  // ---------------------------------------------------------------------------
  // Predicates by column
  // ---------------------------------------------------------------------------

  /** A predicate with every name replaced by the column it binds to. */
  function Canonical(bind: Binding, p: Pred): Pred {
    match p
    case AlwaysTrue => AlwaysTrue
    case AlwaysFalse => AlwaysFalse
    case And(l, r) => And(Canonical(bind, l), Canonical(bind, r))
    case Or(l, r) => Or(Canonical(bind, l), Canonical(bind, r))
    case Not(c) => Not(Canonical(bind, c))
    case Atom(op, column, literals) => Atom(op, bind(column).GetOr(column), literals)
  }

  lemma CanonicalMakes(bind: Binding, p: Pred, q: Pred)
    ensures Canonical(bind, MakeAnd(p, q)) == MakeAnd(Canonical(bind, p), Canonical(bind, q))
    ensures Canonical(bind, MakeOr(p, q)) == MakeOr(Canonical(bind, p), Canonical(bind, q))
  {
  }

  lemma {:induction false} CanonicalNegates(bind: Binding, p: Pred)
    ensures Canonical(bind, Negate(p)) == Negate(Canonical(bind, p))
  {
    match p
    case And(l, r) =>
      CanonicalNegates(bind, l);
      CanonicalNegates(bind, r);
    case Or(l, r) =>
      CanonicalNegates(bind, l);
      CanonicalNegates(bind, r);
    case _ =>
  }

  /** When case matters a name is its own column, so nothing is replaced. */
  lemma {:induction false} CanonicalOfSensitive(s: Schema, p: Pred)
    ensures Canonical(s.BindingFor(Sensitive), p) == p
  {
    match p
    case And(l, r) =>
      CanonicalOfSensitive(s, l);
      CanonicalOfSensitive(s, r);
    case Or(l, r) =>
      CanonicalOfSensitive(s, l);
      CanonicalOfSensitive(s, r);
    case Not(c) => CanonicalOfSensitive(s, c);
    case _ =>
  }

  /** Every column's own name binds to it. Always so when case matters. */
  ghost predicate OwnNamesBind(s: Schema, case_: CaseSensitivity) {
    forall c :: c in s.columns ==> s.Lookup(case_, c) == Some(c)
  }

  lemma {:induction false} CanonicalMeansTheSame(v: Values, s: Schema, mode: CaseSensitivity, case_: CaseSensitivity,
                                                 p: Pred, row: Row)
    requires OwnNamesBind(s, mode)
    requires forall n :: n in Columns(p) ==> s.Lookup(case_, n).Some?
    ensures Eval(v, s.BindingFor(mode), Canonical(s.BindingFor(case_), p), row) == Eval(v, s.BindingFor(case_), p, row)
  {
    match p
    case And(l, r) =>
      CanonicalMeansTheSame(v, s, mode, case_, l, row);
      CanonicalMeansTheSame(v, s, mode, case_, r, row);
    case Or(l, r) =>
      CanonicalMeansTheSame(v, s, mode, case_, l, row);
      CanonicalMeansTheSame(v, s, mode, case_, r, row);
    case Not(c) => CanonicalMeansTheSame(v, s, mode, case_, c, row);
    case Atom(_, column, _) => assert s.Lookup(case_, column).value in s.columns;
    case _ =>
  }

  // ---------------------------------------------------------------------------
  // Publishing keeps the meaning
  // ---------------------------------------------------------------------------

  /** A reading of the published form is the plan's, by column. */
  predicate ReadsAs(bind: Binding, published: Outcome<Pred>, planned: Outcome<Pred>) {
    && (published.Ok? <==> planned.Ok?)
    && (planned.Ok? ==> published == Ok(Canonical(bind, planned.value)))
  }

  /** The name under which a term enters the plan. */
  function WrittenName(s: Schema, j: Json): string {
    match ReferenceOperand(j)
    case Ok(Named(name)) => name
    case Ok(Id(id)) => if id in s.nameById then s.nameById[id] else ""
    case _ => ""
  }

  /** What an operator makes of a column, under the name it was written by. */
  function UnaryOn(s: Schema, name: string, column: string, op: Op): Outcome<Pred>
    requires column in s.columns
  {
    var _ :- NanFits(op, s.columns[column]);
    Ok(Atom(op, name, []))
  }

  function CompareOn(s: Schema, name: string, column: string, op: Op, value: Json): Outcome<Pred>
    requires column in s.columns
  {
    var literal :- ParseLiteral(s, value, s.columns[column]);
    Ok(Atom(op, name, [literal]))
  }

  function SetOn(s: Schema, name: string, column: string, op: Op, values: Json): Outcome<Pred>
    requires column in s.columns
  {
    var literals :- ParseLiterals(s, values, s.columns[column]);
    Ok(Atom(op, name, literals))
  }

  lemma UnaryOnColumn(s: Schema, case_: CaseSensitivity, positive: bool, o: Object, op: Op, j: Json)
    requires GetEither(o, "child", "term") == Some(j)
    ensures var column := PlannedColumn(s, case_, j);
            if column.None? then ParseUnary(s, case_, positive, Bindable, o, op).Err?
            else ParseUnary(s, case_, positive, Bindable, o, op) == UnaryOn(s, WrittenName(s, j), column.value, op)
  {
  }

  lemma CompareOnColumn(s: Schema, case_: CaseSensitivity, positive: bool, o: Object, op: Op, j: Json, value: Json)
    requires GetEither(o, "left", "term") == Some(j) && GetEither(o, "right", "value") == Some(value)
    ensures var column := PlannedColumn(s, case_, j);
            var parsed := ParseCompare(s, case_, positive, Bindable, o, op);
            if column.None? then parsed.Err?
            else parsed == CompareOn(s, WrittenName(s, j), column.value, op, value)
  {
  }

  lemma SetOnColumn(s: Schema, case_: CaseSensitivity, positive: bool, o: Object, op: Op, j: Json, values: Json)
    requires GetEither(o, "child", "term") == Some(j) && Get(o, "values") == Some(values)
    ensures var column := PlannedColumn(s, case_, j);
            if column.None? then ParseSet(s, case_, positive, Bindable, o, op).Err?
            else ParseSet(s, case_, positive, Bindable, o, op) == SetOn(s, WrittenName(s, j), column.value, op, values)
  {
  }

  /** The written name binds to the column the term is planned on. */
  lemma WrittenNameBinds(s: Schema, case_: CaseSensitivity, j: Json)
    ensures PlannedColumn(s, case_, j).Some? ==> s.Lookup(case_, WrittenName(s, j)) == PlannedColumn(s, case_, j)
  {
  }

  /** A published reference is read as the column it was published for. */
  lemma ReferenceColumn(s: Schema, mode: CaseSensitivity, j: Json)
    requires WellIndexed(s) && OwnNamesBind(s, mode) && IdReference(s, j).Ok?
    ensures var reference := IdReference(s, j).value;
            PublishedColumn(s, j).Some? && PlannedColumn(s, mode, reference) == PublishedColumn(s, j)
            && WrittenName(s, reference) == PublishedColumn(s, j).value
  {
    PublishedAs(s, j);
    var id :| id in s.nameById && IdReference(s, j) == Ok(Reference(id))
              && PublishedColumn(s, j) == Some(s.nameById[id]);
    ReferenceReadsBack(s, id);
  }

  predicate TermAgreesAt(s: Schema, case_: CaseSensitivity, o: Object, key: string) {
    GetEither(o, key, "term").Some? ==> TermAgrees(s, case_, GetEither(o, key, "term").value)
  }

  /** A published operator reads as the plan's. */
  ghost predicate LeafReads(s: Schema, mode: CaseSensitivity, case_: CaseSensitivity, positive: bool, o: Object,
                            name: string, kind: Kind) {
    match ToIdLeaf(s, o, name, kind)
    case Ok(j) => j.Obj? && GetStr(j.fields, "type") == Some(name)
                  && ReadsAs(s.BindingFor(case_), ParseLeaf(s, mode, positive, Bindable, j.fields, kind),
                             ParseLeaf(s, case_, positive, Bindable, o, kind))
    case Err(_) => ParseLeaf(s, case_, positive, Bindable, o, kind).Err?
  }

  /** An agreeing term and its published reference stand for one column, or for none. */
  lemma TermPublished(s: Schema, mode: CaseSensitivity, case_: CaseSensitivity, j: Json)
    requires WellIndexed(s) && OwnNamesBind(s, mode) && TermAgrees(s, case_, j)
    ensures IdReference(s, j).Ok? <==> PlannedColumn(s, case_, j).Some?
    ensures IdReference(s, j).Ok? ==>
              var column, reference := PlannedColumn(s, case_, j).value, IdReference(s, j).value;
              && column in s.columns && s.Lookup(case_, WrittenName(s, j)) == Some(column)
              && PlannedColumn(s, mode, reference) == Some(column) && WrittenName(s, reference) == column
  {
    TermAgreesIff(s, case_, j);
    PublishedAs(s, j);
    WrittenNameBinds(s, case_, j);
    if IdReference(s, j).Ok? {
      ReferenceColumn(s, mode, j);
    }
  }

  lemma UnaryReadsAs(s: Schema, case_: CaseSensitivity, name: string, column: string, op: Op)
    requires column in s.columns && s.Lookup(case_, name) == Some(column)
    ensures ReadsAs(s.BindingFor(case_), UnaryOn(s, column, column, op), UnaryOn(s, name, column, op))
  {
  }

  lemma CompareReadsAs(s: Schema, case_: CaseSensitivity, name: string, column: string, op: Op, value: Json)
    requires column in s.columns && s.Lookup(case_, name) == Some(column)
    ensures ReadsAs(s.BindingFor(case_), CompareOn(s, column, column, op, AsLiteral(value)),
                    CompareOn(s, name, column, op, value))
  {
    LiteralReadsBack(s, value, s.columns[column]);
  }

  lemma SetReadsAs(s: Schema, case_: CaseSensitivity, name: string, column: string, op: Op, values: Json)
    requires column in s.columns && s.Lookup(case_, name) == Some(column)
    ensures ReadsAs(s.BindingFor(case_), SetOn(s, column, column, op, values), SetOn(s, name, column, op, values))
  {
  }

  lemma LiteralReadsBack(s: Schema, j: Json, field: FieldType)
    ensures ParseLiteral(s, AsLiteral(j), field) == ParseLiteral(s, j, field)
  {
  }

  /** One column behind a term and its published reference. */
  ghost predicate SameColumn(s: Schema, mode: CaseSensitivity, case_: CaseSensitivity, j: Json, reference: Json,
                             column: string) {
    && column in s.columns && s.Lookup(case_, WrittenName(s, j)) == Some(column)
    && PlannedColumn(s, case_, j) == Some(column)
    && PlannedColumn(s, mode, reference) == Some(column) && WrittenName(s, reference) == column
  }

  lemma CompareReads(s: Schema, mode: CaseSensitivity, case_: CaseSensitivity, positive: bool, o: Object, o': Object,
                     op: Op, j: Json, reference: Json, value: Json, column: string)
    requires SameColumn(s, mode, case_, j, reference, column)
    requires GetEither(o, "left", "term") == Some(j) && GetEither(o, "right", "value") == Some(value)
    requires GetEither(o', "left", "term") == Some(reference)
             && GetEither(o', "right", "value") == Some(AsLiteral(value))
    ensures ReadsAs(s.BindingFor(case_), ParseCompare(s, mode, positive, Bindable, o', op),
                    ParseCompare(s, case_, positive, Bindable, o, op))
  {
    CompareOnColumn(s, case_, positive, o, op, j, value);
    CompareOnColumn(s, mode, positive, o', op, reference, AsLiteral(value));
    CompareReadsAs(s, case_, WrittenName(s, j), column, op, value);
  }

  lemma SetReads(s: Schema, mode: CaseSensitivity, case_: CaseSensitivity, positive: bool, o: Object, o': Object,
                 op: Op, j: Json, reference: Json, values: Json, column: string)
    requires SameColumn(s, mode, case_, j, reference, column)
    requires GetEither(o, "child", "term") == Some(j) && Get(o, "values") == Some(values)
    requires GetEither(o', "child", "term") == Some(reference) && Get(o', "values") == Some(values)
    ensures ReadsAs(s.BindingFor(case_), ParseSet(s, mode, positive, Bindable, o', op),
                    ParseSet(s, case_, positive, Bindable, o, op))
  {
    SetOnColumn(s, case_, positive, o, op, j, values);
    SetOnColumn(s, mode, positive, o', op, reference, values);
    SetReadsAs(s, case_, WrittenName(s, j), column, op, values);
  }

  lemma CompareIsPublished(s: Schema, mode: CaseSensitivity, case_: CaseSensitivity, positive: bool, o: Object,
                           name: string, op: Op, j: Json, reference: Json, value: Json, column: string)
    requires SameColumn(s, mode, case_, j, reference, column) && IdReference(s, j) == Ok(reference)
    requires GetEither(o, "left", "term") == Some(j) && GetEither(o, "right", "value") == Some(value)
    ensures LeafReads(s, mode, case_, positive, o, name, KCompare(op))
  {
    var o' := map["type" := Str(name), "left" := reference, "right" := AsLiteral(value)];
    assert ToIdLeaf(s, o, name, KCompare(op)) == Ok(Obj(o'));
    CompareReads(s, mode, case_, positive, o, o', op, j, reference, value, column);
  }

  lemma SetIsPublished(s: Schema, mode: CaseSensitivity, case_: CaseSensitivity, positive: bool, o: Object,
                       name: string, op: Op, j: Json, reference: Json, values: Json, column: string)
    requires SameColumn(s, mode, case_, j, reference, column) && IdReference(s, j) == Ok(reference)
    requires GetEither(o, "child", "term") == Some(j) && Get(o, "values") == Some(values)
    ensures LeafReads(s, mode, case_, positive, o, name, KSet(op))
  {
    var o' := map["type" := Str(name), "child" := reference, "values" := values];
    assert ToIdLeaf(s, o, name, KSet(op)) == Ok(Obj(o'));
    SetReads(s, mode, case_, positive, o, o', op, j, reference, values, column);
  }

  lemma UnaryReads(s: Schema, mode: CaseSensitivity, case_: CaseSensitivity, positive: bool, o: Object, o': Object,
                   op: Op, j: Json, reference: Json, column: string)
    requires SameColumn(s, mode, case_, j, reference, column)
    requires GetEither(o, "child", "term") == Some(j) && GetEither(o', "child", "term") == Some(reference)
    ensures ReadsAs(s.BindingFor(case_), ParseUnary(s, mode, positive, Bindable, o', op),
                    ParseUnary(s, case_, positive, Bindable, o, op))
  {
    UnaryOnColumn(s, case_, positive, o, op, j);
    UnaryOnColumn(s, mode, positive, o', op, reference);
    UnaryReadsAs(s, case_, WrittenName(s, j), column, op);
  }

  lemma UnaryIsPublished(s: Schema, mode: CaseSensitivity, case_: CaseSensitivity, positive: bool, o: Object,
                         name: string, op: Op, j: Json, reference: Json, column: string)
    requires SameColumn(s, mode, case_, j, reference, column) && IdReference(s, j) == Ok(reference)
    requires GetEither(o, "child", "term") == Some(j)
    ensures LeafReads(s, mode, case_, positive, o, name, KUnary(op))
  {
    var o' := map["type" := Str(name), "child" := reference];
    assert ToIdLeaf(s, o, name, KUnary(op)) == Ok(Obj(o'));
    UnaryReads(s, mode, case_, positive, o, o', op, j, reference, column);
  }

  lemma UnaryPublished(s: Schema, mode: CaseSensitivity, case_: CaseSensitivity, positive: bool, o: Object,
                       name: string, op: Op)
    requires WellIndexed(s) && OwnNamesBind(s, mode) && TermAgreesAt(s, case_, o, "child")
    ensures LeafReads(s, mode, case_, positive, o, name, KUnary(op))
  {
    if GetEither(o, "child", "term").Some? {
      var j := GetEither(o, "child", "term").value;
      TermPublished(s, mode, case_, j);
      if IdReference(s, j).Ok? {
        UnaryIsPublished(s, mode, case_, positive, o, name, op, j, IdReference(s, j).value,
                         PlannedColumn(s, case_, j).value);
      } else {
        UnaryOnColumn(s, case_, positive, o, op, j);
      }
    }
  }

  lemma ComparePublished(s: Schema, mode: CaseSensitivity, case_: CaseSensitivity, positive: bool, o: Object,
                         name: string, op: Op)
    requires WellIndexed(s) && OwnNamesBind(s, mode) && TermAgreesAt(s, case_, o, "left")
    ensures LeafReads(s, mode, case_, positive, o, name, KCompare(op))
  {
    if GetEither(o, "left", "term").Some? && GetEither(o, "right", "value").Some? {
      var j, value := GetEither(o, "left", "term").value, GetEither(o, "right", "value").value;
      TermPublished(s, mode, case_, j);
      if IdReference(s, j).Ok? {
        CompareIsPublished(s, mode, case_, positive, o, name, op, j, IdReference(s, j).value, value,
                           PlannedColumn(s, case_, j).value);
      } else {
        CompareOnColumn(s, case_, positive, o, op, j, value);
      }
    }
  }

  lemma SetPublished(s: Schema, mode: CaseSensitivity, case_: CaseSensitivity, positive: bool, o: Object,
                     name: string, op: Op)
    requires WellIndexed(s) && OwnNamesBind(s, mode) && TermAgreesAt(s, case_, o, "child")
    ensures LeafReads(s, mode, case_, positive, o, name, KSet(op))
  {
    if GetEither(o, "child", "term").Some? && Get(o, "values").Some? {
      var j, values := GetEither(o, "child", "term").value, Get(o, "values").value;
      TermPublished(s, mode, case_, j);
      if IdReference(s, j).Ok? {
        SetIsPublished(s, mode, case_, positive, o, name, op, j, IdReference(s, j).value, values,
                       PlannedColumn(s, case_, j).value);
      } else {
        SetOnColumn(s, case_, positive, o, op, j, values);
      }
    }
  }

  predicate LeafAgrees(s: Schema, case_: CaseSensitivity, o: Object, kind: Kind) {
    if kind.KCompare? then TermAgreesAt(s, case_, o, "left")
    else if kind.KUnary? || kind.KSet? then TermAgreesAt(s, case_, o, "child")
    else true
  }

  /** Every term of the filter agrees. */
  predicate TermsAgree(s: Schema, case_: CaseSensitivity, j: Json)
    decreases j
  {
    match j
    case Obj(o) =>
      (match GetStr(o, "type")
       case None => true
       case Some(name) =>
         var kind := KindOf(name);
         if kind.KAnd? || kind.KOr? then
           ("left" in o ==> TermsAgree(s, case_, o["left"])) && ("right" in o ==> TermsAgree(s, case_, o["right"]))
         else if kind.KNot? then "child" in o ==> TermsAgree(s, case_, o["child"])
         else LeafAgrees(s, case_, o, kind))
    case _ => true
  }

  lemma LeafPublished(s: Schema, mode: CaseSensitivity, case_: CaseSensitivity, positive: bool, o: Object,
                      name: string, kind: Kind)
    requires WellIndexed(s) && OwnNamesBind(s, mode) && LeafAgrees(s, case_, o, kind)
    requires KindOf(name) == kind && !kind.KAnd? && !kind.KOr? && !kind.KNot?
    ensures ToIdLeaf(s, o, name, kind).Ok? ==>
              ReadsAs(s.BindingFor(case_), Parse(s, mode, positive, Bindable, ToIdLeaf(s, o, name, kind).value),
                      ParseLeaf(s, case_, positive, Bindable, o, kind))
    ensures ToIdLeaf(s, o, name, kind).Err? ==> ParseLeaf(s, case_, positive, Bindable, o, kind).Err?
  {
    match kind
    case KUnary(op) => UnaryPublished(s, mode, case_, positive, o, name, op);
    case KCompare(op) => ComparePublished(s, mode, case_, positive, o, name, op);
    case KSet(op) => SetPublished(s, mode, case_, positive, o, name, op);
    case _ =>
  }

  /** The parse of a conjunction or disjunction, from the parses of its halves. */
  function Joined(and: bool, p: Outcome<Pred>, q: Outcome<Pred>): Outcome<Pred> {
    var l :- p;
    var r :- q;
    Ok(if and then MakeAnd(l, r) else MakeOr(l, r))
  }

  function Negated(p: Outcome<Pred>): Outcome<Pred> {
    var c :- p;
    Ok(Negate(c))
  }

  lemma JunctionParses(s: Schema, mode: CaseSensitivity, positive: bool, o: Object, name: string)
    requires GetStr(o, "type") == Some(name) && (KindOf(name).KAnd? || KindOf(name).KOr?) && "left" in o && "right" in o
    ensures Parse(s, mode, positive, Bindable, Obj(o)) ==
            Joined(KindOf(name).KAnd?, Parse(s, mode, positive, Bindable, o["left"]),
                   Parse(s, mode, positive, Bindable, o["right"]))
  {
  }

  lemma PairParses(s: Schema, mode: CaseSensitivity, positive: bool, name: string, l: Json, r: Json)
    requires KindOf(name).KAnd? || KindOf(name).KOr?
    ensures Parse(s, mode, positive, Bindable, Pair(name, l, r)) ==
            Joined(KindOf(name).KAnd?, Parse(s, mode, positive, Bindable, l), Parse(s, mode, positive, Bindable, r))
  {
    var o := Pair(name, l, r).fields;
    assert GetStr(o, "type") == Some(name) && o["left"] == l && o["right"] == r;
    JunctionParses(s, mode, positive, o, name);
  }

  lemma NegationParses(s: Schema, mode: CaseSensitivity, positive: bool, c: Json)
    ensures Parse(s, mode, positive, Bindable, Negation(c)) == Negated(Parse(s, mode, !positive, Bindable, c))
  {
    var o := Negation(c).fields;
    assert GetStr(o, "type") == Some("not") && o["child"] == c;
    assert KindOf("not") == KNot;
  }

  lemma JoinedReadsAs(bind: Binding, and: bool, p': Outcome<Pred>, q': Outcome<Pred>, p: Outcome<Pred>,
                      q: Outcome<Pred>)
    requires ReadsAs(bind, p', p) && ReadsAs(bind, q', q)
    ensures ReadsAs(bind, Joined(and, p', q'), Joined(and, p, q))
  {
    if p.Ok? && q.Ok? {
      CanonicalMakes(bind, p.value, q.value);
    }
  }

  lemma NegatedReadsAs(bind: Binding, p': Outcome<Pred>, p: Outcome<Pred>)
    requires ReadsAs(bind, p', p)
    ensures ReadsAs(bind, Negated(p'), Negated(p))
  {
    if p.Ok? {
      CanonicalNegates(bind, p.value);
    }
  }

  /**
   * The published form of a filter reads back as the predicate the planner prunes by, every name replaced by its
   * column; a filter that cannot be published is one the planner cannot bind.
   */
  lemma {:induction false} PublishedFormReadsBack(s: Schema, mode: CaseSensitivity, case_: CaseSensitivity,
                                                  positive: bool, j: Json)
    requires WellIndexed(s) && OwnNamesBind(s, mode) && TermsAgree(s, case_, j)
    ensures ToIdPredicate(s, j).Ok? ==>
              ReadsAs(s.BindingFor(case_), Parse(s, mode, positive, Bindable, ToIdPredicate(s, j).value),
                      Parse(s, case_, positive, Bindable, j))
    ensures ToIdPredicate(s, j).Err? ==> Parse(s, case_, positive, Bindable, j).Err?
    decreases j
  {
    if j.Obj? && GetStr(j.fields, "type").Some? {
      var o := j.fields;
      var name := GetStr(o, "type").value;
      var kind := KindOf(name);
      if kind.KAnd? || kind.KOr? {
        if "left" in o && "right" in o {
          PublishedFormReadsBack(s, mode, case_, positive, o["left"]);
          PublishedFormReadsBack(s, mode, case_, positive, o["right"]);
          PairReadsBack(s, mode, case_, positive, o, name);
        }
      } else if kind.KNot? {
        if "child" in o {
          PublishedFormReadsBack(s, mode, case_, !positive, o["child"]);
          if ToIdPredicate(s, o["child"]).Ok? {
            NegationParses(s, mode, positive, ToIdPredicate(s, o["child"]).value);
            NegatedReadsAs(s.BindingFor(case_), Parse(s, mode, !positive, Bindable, ToIdPredicate(s, o["child"]).value),
                           Parse(s, case_, !positive, Bindable, o["child"]));
          }
        }
      } else {
        LeafPublished(s, mode, case_, positive, o, name, kind);
      }
    }
  }

  lemma PairReadsBack(s: Schema, mode: CaseSensitivity, case_: CaseSensitivity, positive: bool, o: Object, name: string)
    requires GetStr(o, "type") == Some(name) && (KindOf(name).KAnd? || KindOf(name).KOr?) && "left" in o && "right" in o
    requires forall key :: key in {"left", "right"} ==>
               if ToIdPredicate(s, o[key]).Ok? then
                 ReadsAs(s.BindingFor(case_), Parse(s, mode, positive, Bindable, ToIdPredicate(s, o[key]).value),
                         Parse(s, case_, positive, Bindable, o[key]))
               else Parse(s, case_, positive, Bindable, o[key]).Err?
    ensures ToIdPredicate(s, Obj(o)).Ok? ==>
              ReadsAs(s.BindingFor(case_), Parse(s, mode, positive, Bindable, ToIdPredicate(s, Obj(o)).value),
                      Parse(s, case_, positive, Bindable, Obj(o)))
    ensures ToIdPredicate(s, Obj(o)).Err? ==> Parse(s, case_, positive, Bindable, Obj(o)).Err?
  {
    var l, r := Parse(s, case_, positive, Bindable, o["left"]), Parse(s, case_, positive, Bindable, o["right"]);
    assert "left" in {"left", "right"} && "right" in {"left", "right"};
    JunctionParses(s, case_, positive, o, name);
    if ToIdPredicate(s, o["left"]).Ok? && ToIdPredicate(s, o["right"]).Ok? {
      var l', r' := ToIdPredicate(s, o["left"]).value, ToIdPredicate(s, o["right"]).value;
      PairParses(s, mode, positive, name, l', r');
      JoinedReadsAs(s.BindingFor(case_), KindOf(name).KAnd?, Parse(s, mode, positive, Bindable, l'),
                    Parse(s, mode, positive, Bindable, r'), l, r);
    }
  }

  // ---------------------------------------------------------------------------
  // Branches on which the plan and the published filter agree
  // ---------------------------------------------------------------------------

  /** Every column the filter names is one of the table. */
  ghost predicate ColumnsExist(s: Schema, case_: CaseSensitivity, demands: seq<Demand>) {
    forall d :: d in demands ==> FieldOf(s, case_, d.key).Some?
  }

  /** The planner binds the branch, or it is published as `false`, which is what the planner makes of it. */
  predicate BranchAgrees(s: Schema, case_: CaseSensitivity, filter: Json) {
    ParsePolicyPredicate(s, case_, filter).Ok? || ToIdPredicate(s, filter).Err?
  }

  lemma KeyIsPlanned(s: Schema, case_: CaseSensitivity, o: Object, kind: Kind)
    requires kind.KUnary? || kind.KCompare? || kind.KSet?
    ensures var term := if kind.KCompare? then GetEither(o, "left", "term") else GetEither(o, "child", "term");
            && (KeyOf(o, kind).Some? ==> term.Some?)
            && (term.Some? && PlannedColumn(s, case_, term.value).Some? <==>
                  KeyOf(o, kind).Some? && FieldOf(s, case_, KeyOf(o, kind).value).Some?)
  {
  }

  lemma LeafColumnsExist(s: Schema, case_: CaseSensitivity, o: Object, kind: Kind)
    requires ValidateLeaf(o, kind).Ok? && (kind.KUnary? || kind.KCompare? || kind.KSet?)
    ensures KeyOf(o, kind).Some?
    ensures ColumnsExist(s, case_, LeafDemands(o, kind)) <==> FieldOf(s, case_, KeyOf(o, kind).value).Some?
  {
    var key := KeyOf(o, kind).value;
    assert LeafAsks(o, kind) != [];
    assert Demand(key, LeafAsks(o, kind)[0]) in LeafDemands(o, kind);
  }

  lemma LeafPublishesIff(s: Schema, case_: CaseSensitivity, o: Object, name: string, kind: Kind)
    requires WellIndexed(s) && LeafAgrees(s, case_, o, kind)
    requires KindOf(name) == kind && !kind.KAnd? && !kind.KOr? && !kind.KNot?
    ensures ToIdLeaf(s, o, name, kind).Ok? <==>
            ValidateLeaf(o, kind).Ok? && ColumnsExist(s, case_, LeafDemands(o, kind))
  {
    if kind.KUnary? || kind.KCompare? || kind.KSet? {
      KeyIsPlanned(s, case_, o, kind);
      var term := if kind.KCompare? then GetEither(o, "left", "term") else GetEither(o, "child", "term");
      if term.Some? {
        TermAgreesIff(s, case_, term.value);
        PublishedAs(s, term.value);
      }
      if ValidateLeaf(o, kind).Ok? {
        LeafColumnsExist(s, case_, o, kind);
      }
    }
  }

  lemma ColumnsExistInBoth(s: Schema, case_: CaseSensitivity, a: seq<Demand>, b: seq<Demand>)
    ensures ColumnsExist(s, case_, a + b) <==> ColumnsExist(s, case_, a) && ColumnsExist(s, case_, b)
  {
    if ColumnsExist(s, case_, a + b) {
      assert forall d :: d in a || d in b ==> d in a + b;
    }
  }

  /** A filter is published as more than `false` exactly when it passes the load-time check and its columns exist. */
  lemma {:induction false} PublishesIff(s: Schema, case_: CaseSensitivity, j: Json)
    requires WellIndexed(s) && TermsAgree(s, case_, j)
    ensures ToIdPredicate(s, j).Ok? <==> ValidatePolicyFilter(j).Ok? && ColumnsExist(s, case_, DemandsOf(j))
    decreases j
  {
    if j.Obj? && GetStr(j.fields, "type").Some? {
      var o := j.fields;
      var name := GetStr(o, "type").value;
      var kind := KindOf(name);
      if kind.KAnd? || kind.KOr? {
        if "left" in o && "right" in o {
          PublishesIff(s, case_, o["left"]);
          PublishesIff(s, case_, o["right"]);
          ColumnsExistInBoth(s, case_, DemandsOf(o["left"]), DemandsOf(o["right"]));
        }
      } else if kind.KNot? {
        if "child" in o {
          PublishesIff(s, case_, o["child"]);
        }
      } else {
        LeafPublishesIff(s, case_, o, name, kind);
      }
    }
  }

  /**
   * A branch disagrees exactly when it passes the load-time check and names only columns of the table, but a literal
   * has no literal's shape, or a column's type does not serve what is asked of it.
   */
  lemma BranchDisagreesIff(s: Schema, case_: CaseSensitivity, filter: Json)
    requires WellIndexed(s) && TermsAgree(s, case_, filter)
    ensures !BranchAgrees(s, case_, filter) <==>
            && ValidatePolicyFilter(filter).Ok? && ColumnsExist(s, case_, DemandsOf(filter))
            && !(LiteralShapesFit(filter) && SuppliesAll(s, case_, DemandsOf(filter)))
  {
    PublishesIff(s, case_, filter);
    BindsIff(s, case_, true, filter);
  }

  /** How a reader of the published branch stands to the plan: reads it at all, and as the same predicate. */
  ghost predicate Faithful(s: Schema, mode: CaseSensitivity, case_: CaseSensitivity, filter: Json) {
    ParsePolicyPredicate(s, mode, PublishedBranch(s, filter)) ==
      Ok(Canonical(s.BindingFor(case_), Branch(s, case_, filter)))
  }

  lemma BranchReadsBack(s: Schema, mode: CaseSensitivity, case_: CaseSensitivity, filter: Json)
    requires WellIndexed(s) && OwnNamesBind(s, mode) && TermsAgree(s, case_, filter)
    ensures BranchAgrees(s, case_, filter) ==> Faithful(s, mode, case_, filter)
    ensures !BranchAgrees(s, case_, filter) ==> ParsePolicyPredicate(s, mode, PublishedBranch(s, filter)).Err?
  {
    PublishedFormReadsBack(s, mode, case_, true, filter);
  }

  function TermAt(o: Object, kind: Kind): Option<Json> {
    if kind.KCompare? then GetEither(o, "left", "term") else GetEither(o, "child", "term")
  }

  /** A bound operator is one comparison, under the name its term was written by. */
  lemma LeafIsAtom(s: Schema, case_: CaseSensitivity, o: Object, kind: Kind)
    requires (kind.KUnary? || kind.KCompare? || kind.KSet?) && ParseLeaf(s, case_, true, Bindable, o, kind).Ok?
    ensures TermAt(o, kind).Some? && PlannedColumn(s, case_, TermAt(o, kind).value).Some?
    ensures var p := ParseLeaf(s, case_, true, Bindable, o, kind).value;
            p.Atom? && p.column == WrittenName(s, TermAt(o, kind).value)
  {
  }

  lemma PublishedTermAt(s: Schema, o: Object, name: string, kind: Kind)
    requires (kind.KUnary? || kind.KCompare? || kind.KSet?) && ToIdLeaf(s, o, name, kind).Ok?
    ensures TermAt(o, kind).Some? && IdReference(s, TermAt(o, kind).value).Ok?
    ensures var j := ToIdLeaf(s, o, name, kind).value;
            j.Obj? && GetStr(j.fields, "type") == Some(name)
            && TermAt(j.fields, kind) == Some(IdReference(s, TermAt(o, kind).value).value)
  {
  }

  /** Published, a disagreeing term is read as another column than it is planned on, or planned on none. */
  lemma DisagreeingLeafDiffers(s: Schema, mode: CaseSensitivity, case_: CaseSensitivity, o: Object, name: string,
                               kind: Kind)
    requires WellIndexed(s) && OwnNamesBind(s, mode) && !LeafAgrees(s, case_, o, kind)
    requires (kind.KUnary? || kind.KCompare? || kind.KSet?) && ToIdLeaf(s, o, name, kind).Ok?
    ensures var j := ToIdLeaf(s, o, name, kind).value;
            var read := ParseLeaf(s, mode, true, Bindable, j.fields, kind);
            var planned := ParseLeaf(s, case_, true, Bindable, o, kind);
            j.Obj? && (read.Ok? ==> read.value.Atom?)
            && (read.Ok? && planned.Ok? ==> read.value != Canonical(s.BindingFor(case_), planned.value))
  {
    PublishedTermAt(s, o, name, kind);
    var term, o' := TermAt(o, kind).value, ToIdLeaf(s, o, name, kind).value.fields;
    TermAgreesIff(s, case_, term);
    ReferenceColumn(s, mode, term);
    WrittenNameBinds(s, case_, term);
    if ParseLeaf(s, mode, true, Bindable, o', kind).Ok? {
      LeafIsAtom(s, mode, o', kind);
    }
    if ParseLeaf(s, case_, true, Bindable, o, kind).Ok? {
      LeafIsAtom(s, case_, o, kind);
    }
  }

  /**
   * For a filter of one operator the conditions are exact: it reads back as planned when the planner binds it and its
   * term agrees, or when the planner cannot bind it and it is published as `false`; and in no other case.
   */
  lemma OperatorFaithfulIff(s: Schema, mode: CaseSensitivity, case_: CaseSensitivity, o: Object, name: string,
                            kind: Kind)
    requires WellIndexed(s) && OwnNamesBind(s, mode)
    requires GetStr(o, "type") == Some(name) && KindOf(name) == kind && (kind.KUnary? || kind.KCompare? || kind.KSet?)
    ensures Faithful(s, mode, case_, Obj(o)) <==>
            if ParsePolicyPredicate(s, case_, Obj(o)).Ok?
            then ToIdPredicate(s, Obj(o)).Ok? && LeafAgrees(s, case_, o, kind)
            else ToIdPredicate(s, Obj(o)).Err?
  {
    assert ParsePolicyPredicate(s, case_, Obj(o)) == ParseLeaf(s, case_, true, Bindable, o, kind);
    assert ToIdPredicate(s, Obj(o)) == ToIdLeaf(s, o, name, kind);
    if ToIdLeaf(s, o, name, kind).Err? {
      UnpublishedReads(s, mode, case_, o, name, kind);
    } else if LeafAgrees(s, case_, o, kind) {
      BranchReadsBack(s, mode, case_, Obj(o));
    } else {
      PublishedTermAt(s, o, name, kind);
      DisagreeingLeafDiffers(s, mode, case_, o, name, kind);
      ParsesAsLeaf(s, mode, ToIdLeaf(s, o, name, kind).value.fields, name, kind);
    }
  }

  lemma ParsesAsLeaf(s: Schema, mode: CaseSensitivity, o: Object, name: string, kind: Kind)
    requires GetStr(o, "type") == Some(name) && KindOf(name) == kind && (kind.KUnary? || kind.KCompare? || kind.KSet?)
    ensures ParsePolicyPredicate(s, mode, Obj(o)) == ParseLeaf(s, mode, true, Bindable, o, kind)
  {
  }

  lemma UnpublishedReads(s: Schema, mode: CaseSensitivity, case_: CaseSensitivity, o: Object, name: string, kind: Kind)
    requires GetStr(o, "type") == Some(name) && KindOf(name) == kind && (kind.KUnary? || kind.KCompare? || kind.KSet?)
    requires ToIdPredicate(s, Obj(o)).Err?
    ensures Faithful(s, mode, case_, Obj(o)) <==> ParsePolicyPredicate(s, case_, Obj(o)).Err?
  {
    ParsesAsLeaf(s, case_, o, name, kind);
    if ParsePolicyPredicate(s, case_, Obj(o)).Ok? {
      LeafIsAtom(s, case_, o, kind);
    }
  }

  // ---------------------------------------------------------------------------
  // Filters of several operators
  // ---------------------------------------------------------------------------

  lemma LeafPolarity(s: Schema, case_: CaseSensitivity, o: Object, kind: Kind)
    ensures ParseLeaf(s, case_, false, Bindable, o, kind) == ParseLeaf(s, case_, true, Bindable, o, kind)
  {
  }

  /** What is left of a filter once its constants are folded away, as far as its shape tells. */
  datatype Shape = Always | Never | Open

  function JoinShapes(and: bool, a: Shape, b: Shape): Shape {
    if and then
      if a.Never? || b.Never? then Never else if a.Always? then b else a
    else if a.Always? || b.Always? then Always else if a.Never? then b else a
  }

  function Flip(a: Shape): Shape {
    match a
    case Always => Never
    case Never => Always
    case Open => Open
  }

  function ShapeOf(j: Json): Shape
    decreases j
  {
    match j
    case Bool(b) => if b then Always else Never
    case Obj(o) =>
      (match GetStr(o, "type")
       case None => Open
       case Some(name) =>
         var kind := KindOf(name);
         if kind.KTrue? then Always
         else if kind.KFalse? then Never
         else if (kind.KAnd? || kind.KOr?) && "left" in o && "right" in o then
           JoinShapes(kind.KAnd?, ShapeOf(o["left"]), ShapeOf(o["right"]))
         else if kind.KNot? && "child" in o then Flip(ShapeOf(o["child"]))
         else Open)
    case _ => Open
  }

  /** Every term agrees that no constant hides. */
  predicate LiveTermsAgree(s: Schema, case_: CaseSensitivity, j: Json)
    decreases j
  {
    match j
    case Obj(o) =>
      (match GetStr(o, "type")
       case None => true
       case Some(name) =>
         var kind := KindOf(name);
         if kind.KAnd? || kind.KOr? then
           && ("left" in o && ShapeOf(o["left"]).Open? ==> LiveTermsAgree(s, case_, o["left"]))
           && ("right" in o && ShapeOf(o["right"]).Open? ==> LiveTermsAgree(s, case_, o["right"]))
         else if kind.KNot? then "child" in o ==> LiveTermsAgree(s, case_, o["child"])
         else LeafAgrees(s, case_, o, kind))
    case _ => true
  }

  /** Comparisons joined by `and` and `or`. */
  predicate IsSolid(p: Pred) {
    match p
    case And(l, r) => IsSolid(l) && IsSolid(r)
    case Or(l, r) => IsSolid(l) && IsSolid(r)
    case Atom(_, _, _) => true
    case _ => false
  }

  predicate HasShape(p: Pred, shape: Shape) {
    match shape
    case Always => p.AlwaysTrue?
    case Never => p.AlwaysFalse?
    case Open => IsSolid(p)
  }

  lemma {:induction false} NegateTwice(p: Pred)
    requires IsSolid(p)
    ensures IsSolid(Negate(p)) && Negate(Negate(p)) == p
  {
    match p
    case And(l, r) =>
      NegateTwice(l);
      NegateTwice(r);
    case Or(l, r) =>
      NegateTwice(l);
      NegateTwice(r);
    case _ =>
  }

  lemma {:induction false} CanonicalIsSolid(bind: Binding, p: Pred)
    ensures IsSolid(Canonical(bind, p)) <==> IsSolid(p)
  {
    match p
    case And(l, r) =>
      CanonicalIsSolid(bind, l);
      CanonicalIsSolid(bind, r);
    case Or(l, r) =>
      CanonicalIsSolid(bind, l);
      CanonicalIsSolid(bind, r);
    case _ =>
  }

  lemma NegatedShape(p: Pred, shape: Shape)
    requires HasShape(p, shape)
    ensures HasShape(Negate(p), Flip(shape))
  {
    if shape.Open? {
      NegateTwice(p);
    }
  }

  lemma JoinedShape(and: bool, p: Pred, q: Pred, a: Shape, b: Shape)
    requires HasShape(p, a) && HasShape(q, b)
    ensures HasShape(if and then MakeAnd(p, q) else MakeOr(p, q), JoinShapes(and, a, b))
  {
  }

  lemma LeafHasShape(s: Schema, case_: CaseSensitivity, positive: bool, o: Object, name: string, kind: Kind)
    requires GetStr(o, "type") == Some(name) && KindOf(name) == kind && !kind.KAnd? && !kind.KOr? && !kind.KNot?
    requires ParseLeaf(s, case_, positive, Bindable, o, kind).Ok?
    ensures HasShape(ParseLeaf(s, case_, positive, Bindable, o, kind).value, ShapeOf(Obj(o)))
  {
    LeafPolarity(s, case_, o, kind);
    if kind.KUnary? || kind.KCompare? || kind.KSet? {
      LeafIsAtom(s, case_, o, kind);
    }
  }

  /** A bound filter is the constant its shape says, or has no constant left. */
  lemma {:induction false} ParsedHasShape(s: Schema, case_: CaseSensitivity, positive: bool, j: Json)
    requires Parse(s, case_, positive, Bindable, j).Ok?
    ensures HasShape(Parse(s, case_, positive, Bindable, j).value, ShapeOf(j))
    decreases j
  {
    if j.Obj? {
      var o := j.fields;
      var name := GetStr(o, "type").value;
      var kind := KindOf(name);
      if kind.KAnd? || kind.KOr? {
        ParsedHasShape(s, case_, positive, o["left"]);
        ParsedHasShape(s, case_, positive, o["right"]);
        JoinedShape(kind.KAnd?, Parse(s, case_, positive, Bindable, o["left"]).value,
                    Parse(s, case_, positive, Bindable, o["right"]).value, ShapeOf(o["left"]), ShapeOf(o["right"]));
      } else if kind.KNot? {
        ParsedHasShape(s, case_, !positive, o["child"]);
        NegatedShape(Parse(s, case_, !positive, Bindable, o["child"]).value, ShapeOf(o["child"]));
      } else {
        LeafHasShape(s, case_, positive, o, name, kind);
      }
    }
  }

  lemma PairShape(name: string, l: Json, r: Json)
    requires KindOf(name).KAnd? || KindOf(name).KOr?
    ensures ShapeOf(Pair(name, l, r)) == JoinShapes(KindOf(name).KAnd?, ShapeOf(l), ShapeOf(r))
  {
    var o := Pair(name, l, r).fields;
    assert GetStr(o, "type") == Some(name) && o["left"] == l && o["right"] == r;
  }

  lemma NegationShape(c: Json)
    ensures ShapeOf(Negation(c)) == Flip(ShapeOf(c))
  {
    var o := Negation(c).fields;
    assert GetStr(o, "type") == Some("not") && o["child"] == c;
    assert KindOf("not") == KNot;
  }

  lemma LeafKeepsShape(s: Schema, o: Object, name: string, kind: Kind)
    requires GetStr(o, "type") == Some(name) && KindOf(name) == kind && !kind.KAnd? && !kind.KOr? && !kind.KNot?
    requires ToIdLeaf(s, o, name, kind).Ok?
    ensures ShapeOf(ToIdLeaf(s, o, name, kind).value) == ShapeOf(Obj(o))
  {
    if kind.KUnary? || kind.KCompare? || kind.KSet? {
      PublishedTermAt(s, o, name, kind);
    }
  }

  lemma {:induction false} PublishedKeepsShape(s: Schema, j: Json)
    requires ToIdPredicate(s, j).Ok?
    ensures ShapeOf(ToIdPredicate(s, j).value) == ShapeOf(j)
    decreases j
  {
    if j.Obj? {
      var o := j.fields;
      var name := GetStr(o, "type").value;
      var kind := KindOf(name);
      if kind.KAnd? || kind.KOr? {
        PublishedKeepsShape(s, o["left"]);
        PublishedKeepsShape(s, o["right"]);
        PairShape(name, ToIdPredicate(s, o["left"]).value, ToIdPredicate(s, o["right"]).value);
      } else if kind.KNot? {
        PublishedKeepsShape(s, o["child"]);
        NegationShape(ToIdPredicate(s, o["child"]).value);
      } else {
        LeafKeepsShape(s, o, name, kind);
      }
    }
  }

  /** Joined readings agree exactly when the halves agree that no constant hides. */
  lemma JoinedFaithfulIff(bind: Binding, and: bool, p': Pred, q': Pred, p: Pred, q: Pred, a: Shape, b: Shape)
    requires HasShape(p, a) && HasShape(p', a) && HasShape(q, b) && HasShape(q', b)
    ensures Joined(and, Ok(p'), Ok(q')) == Ok(Canonical(bind, if and then MakeAnd(p, q) else MakeOr(p, q))) <==>
            (JoinShapes(and, a, b).Open? ==>
               (a.Open? ==> p' == Canonical(bind, p)) && (b.Open? ==> q' == Canonical(bind, q)))
  {
    CanonicalIsSolid(bind, p);
    CanonicalIsSolid(bind, q);
    CanonicalMakes(bind, p, q);
  }

  lemma NegatedFaithfulIff(bind: Binding, p': Pred, p: Pred, a: Shape)
    requires HasShape(p, a) && HasShape(p', a)
    ensures Negated(Ok(p')) == Ok(Canonical(bind, Negate(p))) <==> (a.Open? ==> p' == Canonical(bind, p))
  {
    CanonicalNegates(bind, p);
    CanonicalIsSolid(bind, p);
    if a.Open? {
      NegateTwice(Canonical(bind, p));
      NegateTwice(p');
    }
  }

  lemma LeafFaithfulIff(s: Schema, mode: CaseSensitivity, case_: CaseSensitivity, positive: bool, o: Object,
                        name: string, kind: Kind)
    requires WellIndexed(s) && OwnNamesBind(s, mode) && KindOf(name) == kind
             && (kind.KUnary? || kind.KCompare? || kind.KSet?)
    requires ToIdLeaf(s, o, name, kind).Ok? && ParseLeaf(s, case_, positive, Bindable, o, kind).Ok?
    ensures Parse(s, mode, positive, Bindable, ToIdLeaf(s, o, name, kind).value) ==
            Ok(Canonical(s.BindingFor(case_), ParseLeaf(s, case_, positive, Bindable, o, kind).value)) <==>
            LeafAgrees(s, case_, o, kind)
  {
    PublishedTermAt(s, o, name, kind);
    var o' := ToIdLeaf(s, o, name, kind).value.fields;
    LeafPolarity(s, case_, o, kind);
    LeafPolarity(s, mode, o', kind);
    if LeafAgrees(s, case_, o, kind) {
      LeafPublished(s, mode, case_, positive, o, name, kind);
    } else {
      DisagreeingLeafDiffers(s, mode, case_, o, name, kind);
    }
  }

  /** The reading of a published filter is the plan's, by column. */
  ghost predicate ReadsAsPlanned(s: Schema, mode: CaseSensitivity, case_: CaseSensitivity, positive: bool, j: Json)
    requires ToIdPredicate(s, j).Ok? && Parse(s, case_, positive, Bindable, j).Ok?
  {
    Parse(s, mode, positive, Bindable, ToIdPredicate(s, j).value) ==
    Ok(Canonical(s.BindingFor(case_), Parse(s, case_, positive, Bindable, j).value))
  }

  /** Planned, published, and read by whoever receives it. */
  ghost predicate ReadBothWays(s: Schema, mode: CaseSensitivity, case_: CaseSensitivity, positive: bool, j: Json) {
    && ToIdPredicate(s, j).Ok? && Parse(s, case_, positive, Bindable, j).Ok?
    && Parse(s, mode, positive, Bindable, ToIdPredicate(s, j).value).Ok?
  }

  lemma BothHaveShape(s: Schema, mode: CaseSensitivity, case_: CaseSensitivity, positive: bool, j: Json)
    requires ReadBothWays(s, mode, case_, positive, j)
    ensures HasShape(Parse(s, case_, positive, Bindable, j).value, ShapeOf(j))
    ensures HasShape(Parse(s, mode, positive, Bindable, ToIdPredicate(s, j).value).value, ShapeOf(j))
  {
    ParsedHasShape(s, case_, positive, j);
    PublishedKeepsShape(s, j);
    ParsedHasShape(s, mode, positive, ToIdPredicate(s, j).value);
  }

  /** Planned, published and read, a filter reads as planned exactly when every term agrees that no constant hides. */
  lemma {:induction false} PlannedFaithfulIff(s: Schema, mode: CaseSensitivity, case_: CaseSensitivity,
                                              positive: bool, j: Json)
    requires WellIndexed(s) && OwnNamesBind(s, mode) && ReadBothWays(s, mode, case_, positive, j)
    ensures ReadsAsPlanned(s, mode, case_, positive, j) <==> (ShapeOf(j).Open? ==> LiveTermsAgree(s, case_, j))
    decreases j
  {
    if j.Obj? {
      var o := j.fields;
      var name := GetStr(o, "type").value;
      var kind := KindOf(name);
      if kind.KAnd? || kind.KOr? {
        JunctionIsRead(s, mode, case_, positive, o, name);
        PlannedFaithfulIff(s, mode, case_, positive, o["left"]);
        PlannedFaithfulIff(s, mode, case_, positive, o["right"]);
        JunctionFaithfulIff(s, mode, case_, positive, o, name);
      } else if kind.KNot? {
        NegationIsRead(s, mode, case_, positive, o, name);
        PlannedFaithfulIff(s, mode, case_, !positive, o["child"]);
        NotFaithfulIff(s, mode, case_, positive, o, name);
      } else if kind.KUnary? || kind.KCompare? || kind.KSet? {
        LeafFaithfulIff(s, mode, case_, positive, o, name, kind);
      }
    }
  }

  predicate IsJunction(o: Object, name: string) {
    GetStr(o, "type") == Some(name) && (KindOf(name).KAnd? || KindOf(name).KOr?) && "left" in o && "right" in o
  }

  lemma JunctionIsRead(s: Schema, mode: CaseSensitivity, case_: CaseSensitivity, positive: bool, o: Object,
                       name: string)
    requires GetStr(o, "type") == Some(name) && (KindOf(name).KAnd? || KindOf(name).KOr?)
    requires ReadBothWays(s, mode, case_, positive, Obj(o))
    ensures IsJunction(o, name)
    ensures ReadBothWays(s, mode, case_, positive, o["left"]) && ReadBothWays(s, mode, case_, positive, o["right"])
  {
    PairParses(s, mode, positive, name, ToIdPredicate(s, o["left"]).value, ToIdPredicate(s, o["right"]).value);
  }

  lemma JunctionFaithfulIff(s: Schema, mode: CaseSensitivity, case_: CaseSensitivity, positive: bool, o: Object,
                            name: string)
    requires IsJunction(o, name) && ReadBothWays(s, mode, case_, positive, Obj(o))
    requires ReadBothWays(s, mode, case_, positive, o["left"]) && ReadBothWays(s, mode, case_, positive, o["right"])
    ensures ReadsAsPlanned(s, mode, case_, positive, Obj(o)) <==>
            (ShapeOf(Obj(o)).Open? ==>
               && (ShapeOf(o["left"]).Open? ==> ReadsAsPlanned(s, mode, case_, positive, o["left"]))
               && (ShapeOf(o["right"]).Open? ==> ReadsAsPlanned(s, mode, case_, positive, o["right"])))
  {
    var l, r := ToIdPredicate(s, o["left"]).value, ToIdPredicate(s, o["right"]).value;
    PairParses(s, mode, positive, name, l, r);
    JunctionParses(s, case_, positive, o, name);
    BothHaveShape(s, mode, case_, positive, o["left"]);
    BothHaveShape(s, mode, case_, positive, o["right"]);
    JoinedFaithfulIff(s.BindingFor(case_), KindOf(name).KAnd?, Parse(s, mode, positive, Bindable, l).value,
                      Parse(s, mode, positive, Bindable, r).value, Parse(s, case_, positive, Bindable, o["left"]).value,
                      Parse(s, case_, positive, Bindable, o["right"]).value, ShapeOf(o["left"]), ShapeOf(o["right"]));
  }

  lemma NegationIsRead(s: Schema, mode: CaseSensitivity, case_: CaseSensitivity, positive: bool, o: Object,
                       name: string)
    requires GetStr(o, "type") == Some(name) && KindOf(name).KNot? && ReadBothWays(s, mode, case_, positive, Obj(o))
    ensures "child" in o && ReadBothWays(s, mode, case_, !positive, o["child"])
  {
    NegationParses(s, mode, positive, ToIdPredicate(s, o["child"]).value);
  }

  lemma NotFaithfulIff(s: Schema, mode: CaseSensitivity, case_: CaseSensitivity, positive: bool, o: Object,
                       name: string)
    requires GetStr(o, "type") == Some(name) && KindOf(name).KNot? && ReadBothWays(s, mode, case_, positive, Obj(o))
    requires "child" in o && ReadBothWays(s, mode, case_, !positive, o["child"])
    ensures ReadsAsPlanned(s, mode, case_, positive, Obj(o)) <==>
            (ShapeOf(o["child"]).Open? ==> ReadsAsPlanned(s, mode, case_, !positive, o["child"]))
  {
    NegationParses(s, mode, positive, ToIdPredicate(s, o["child"]).value);
    BothHaveShape(s, mode, case_, !positive, o["child"]);
    NegatedFaithfulIff(s.BindingFor(case_),
                       Parse(s, mode, !positive, Bindable, ToIdPredicate(s, o["child"]).value).value,
                       Parse(s, case_, !positive, Bindable, o["child"]).value, ShapeOf(o["child"]));
  }

  /** A reader binds the published branch: it is well formed, and its columns serve what is asked of them. */
  ghost predicate ReaderBinds(s: Schema, mode: CaseSensitivity, filter: Json) {
    var published := PublishedBranch(s, filter);
    ValidatePolicyFilter(published).Ok? && LiteralShapesFit(published) && SuppliesAll(s, mode, DemandsOf(published))
  }

  /**
   * Exactly when a reader of any published filter applies what was planned. Planned and published: the reader binds
   * it, and every term agrees that no constant hides. Only one of the two: its constants make it `false`, and if it
   * was published the reader binds it. Neither: always, since both sides say `false`.
   */
  lemma FaithfulIff(s: Schema, mode: CaseSensitivity, case_: CaseSensitivity, filter: Json)
    requires WellIndexed(s) && OwnNamesBind(s, mode)
    ensures Faithful(s, mode, case_, filter) <==>
            var planned, published := ParsePolicyPredicate(s, case_, filter).Ok?, ToIdPredicate(s, filter).Ok?;
            && (published ==> ReaderBinds(s, mode, filter))
            && (planned && published && ShapeOf(filter).Open? ==> LiveTermsAgree(s, case_, filter))
            && (planned != published ==> ShapeOf(filter).Never?)
  {
    BindsIff(s, mode, true, PublishedBranch(s, filter));
    if ParsePolicyPredicate(s, case_, filter).Ok? {
      ParsedHasShape(s, case_, true, filter);
      CanonicalIsSolid(s.BindingFor(case_), Branch(s, case_, filter));
    }
    if ToIdPredicate(s, filter).Ok? && ReaderBinds(s, mode, filter) {
      PublishedKeepsShape(s, filter);
      ParsedHasShape(s, mode, true, PublishedBranch(s, filter));
      if ParsePolicyPredicate(s, case_, filter).Ok? {
        PlannedFaithfulIff(s, mode, case_, true, filter);
      }
    }
  }

  // ---------------------------------------------------------------------------
  // Filters without constants
  // ---------------------------------------------------------------------------

  /** No constant anywhere in the filter: nothing beside a term that could hide it. */
  predicate ConstantFree(j: Json)
    decreases j
  {
    match j
    case Obj(o) =>
      (match GetStr(o, "type")
       case None => true
       case Some(name) =>
         var kind := KindOf(name);
         if kind.KAnd? || kind.KOr? then
           ("left" in o ==> ConstantFree(o["left"])) && ("right" in o ==> ConstantFree(o["right"]))
         else if kind.KNot? then "child" in o ==> ConstantFree(o["child"])
         else !kind.KTrue? && !kind.KFalse?)
    case _ => false
  }

  lemma {:induction false} ConstantFreeIsOpen(s: Schema, case_: CaseSensitivity, j: Json)
    requires ConstantFree(j)
    ensures ShapeOf(j).Open? && (LiveTermsAgree(s, case_, j) <==> TermsAgree(s, case_, j))
    decreases j
  {
    var o := j.fields;
    if GetStr(o, "type").Some? {
      var kind := KindOf(GetStr(o, "type").value);
      if kind.KAnd? || kind.KOr? {
        if "left" in o {
          ConstantFreeIsOpen(s, case_, o["left"]);
        }
        if "right" in o {
          ConstantFreeIsOpen(s, case_, o["right"]);
        }
      } else if kind.KNot? && "child" in o {
        ConstantFreeIsOpen(s, case_, o["child"]);
      }
    }
  }

  /**
   * A filter without constants reads back as planned when it is planned and its terms agree, or when it is neither
   * planned nor published; and in no other case.
   */
  lemma ConstantFreeFaithfulIff(s: Schema, mode: CaseSensitivity, case_: CaseSensitivity, filter: Json)
    requires WellIndexed(s) && OwnNamesBind(s, mode) && ConstantFree(filter)
    ensures Faithful(s, mode, case_, filter) <==>
            if ParsePolicyPredicate(s, case_, filter).Ok? then TermsAgree(s, case_, filter)
            else ToIdPredicate(s, filter).Err?
  {
    FaithfulIff(s, mode, case_, filter);
    ConstantFreeIsOpen(s, case_, filter);
    if ParsePolicyPredicate(s, case_, filter).Ok? && TermsAgree(s, case_, filter) {
      PublishedFormReadsBack(s, mode, case_, true, filter);
    }
  }

  // ---------------------------------------------------------------------------
  // The whole filter
  // ---------------------------------------------------------------------------

  ghost predicate AllTermsAgree(s: Schema, case_: CaseSensitivity, filters: seq<Json>) {
    forall i :: 0 <= i < |filters| ==> TermsAgree(s, case_, filters[i])
  }

  ghost predicate AllBranchesAgree(s: Schema, case_: CaseSensitivity, filters: seq<Json>) {
    forall i :: 0 <= i < |filters| ==> BranchAgrees(s, case_, filters[i])
  }

  /**
   * A reader can apply the published filter exactly when every branch agrees, and reads it as the plan's, by column.
   */
  ghost predicate FilterReads(s: Schema, mode: CaseSensitivity, case_: CaseSensitivity, filters: seq<Json>) {
    && RowFilterOf(s, filters).Some? && PolicyPredicateOf(s, case_, filters).Some?
    && var read := ParsePolicyPredicate(s, mode, RowFilterOf(s, filters).value);
       && (read.Ok? <==> AllBranchesAgree(s, case_, filters))
       && (read.Ok? ==> read == Ok(Canonical(s.BindingFor(case_), PolicyPredicateOf(s, case_, filters).value)))
  }

  lemma OneBranchReads(s: Schema, mode: CaseSensitivity, case_: CaseSensitivity, filters: seq<Json>)
    requires WellIndexed(s) && OwnNamesBind(s, mode) && |filters| == 1 && TermsAgree(s, case_, filters[0])
    ensures FilterReads(s, mode, case_, filters)
  {
    BranchReadsBack(s, mode, case_, filters[0]);
    assert filters[..0] == [];
    assert RowFilterOf(s, filters) == Some(PublishedBranch(s, filters[0]));
    assert PolicyPredicateOf(s, case_, filters) == Some(Branch(s, case_, filters[0]));
  }

  lemma OneMoreBranchReads(s: Schema, mode: CaseSensitivity, case_: CaseSensitivity, before: seq<Json>, last: Json)
    requires WellIndexed(s) && OwnNamesBind(s, mode) && TermsAgree(s, case_, last)
             && FilterReads(s, mode, case_, before)
    ensures FilterReads(s, mode, case_, before + [last])
  {
    BranchReadsBack(s, mode, case_, last);
    OneMoreBranch(s, mode, case_, before, last);
    JoinedReads(ParsePolicyPredicate(s, mode, RowFilterOf(s, before).value),
                ParsePolicyPredicate(s, mode, PublishedBranch(s, last)),
                AllBranchesAgree(s, case_, before), BranchAgrees(s, case_, last),
                Canonical(s.BindingFor(case_), PolicyPredicateOf(s, case_, before).value),
                Canonical(s.BindingFor(case_), Branch(s, case_, last)));
  }

  lemma LongerFilterReads(s: Schema, mode: CaseSensitivity, case_: CaseSensitivity, filters: seq<Json>)
    requires WellIndexed(s) && OwnNamesBind(s, mode) && filters != [] && TermsAgree(s, case_, filters[|filters| - 1])
    requires FilterReads(s, mode, case_, filters[..|filters| - 1])
    ensures FilterReads(s, mode, case_, filters)
  {
    var before, last := filters[..|filters| - 1], filters[|filters| - 1];
    assert before + [last] == filters;
    OneMoreBranchReads(s, mode, case_, before, last);
  }

  /** Whenever every term agrees, the published filter reads so. */
  lemma {:induction false} PublishedFilterIsThePlannedOne(s: Schema, mode: CaseSensitivity, case_: CaseSensitivity,
                                                          filters: seq<Json>)
    requires WellIndexed(s) && OwnNamesBind(s, mode) && filters != [] && AllTermsAgree(s, case_, filters)
    ensures FilterReads(s, mode, case_, filters)
    decreases |filters|
  {
    if |filters| == 1 {
      OneBranchReads(s, mode, case_, filters);
    } else {
      PublishedFilterIsThePlannedOne(s, mode, case_, filters[..|filters| - 1]);
      LongerFilterReads(s, mode, case_, filters);
    }
  }

  /** A disjunction is read when both halves are, as the disjunction of what they are read as. */
  lemma JoinedReads(p: Outcome<Pred>, q: Outcome<Pred>, a: bool, b: bool, pc: Pred, qc: Pred)
    requires (p.Ok? <==> a) && (p.Ok? ==> p == Ok(pc))
    requires (b ==> q == Ok(qc)) && (!b ==> q.Err?)
    ensures Joined(false, p, q).Ok? <==> a && b
    ensures a && b ==> Joined(false, p, q) == Ok(MakeOr(pc, qc))
  {
  }

  lemma OneMoreBranch(s: Schema, mode: CaseSensitivity, case_: CaseSensitivity, before: seq<Json>, last: Json)
    requires RowFilterOf(s, before).Some? && PolicyPredicateOf(s, case_, before).Some?
    ensures var filters := before + [last];
            && (AllBranchesAgree(s, case_, filters) <==>
                AllBranchesAgree(s, case_, before) && BranchAgrees(s, case_, last))
            && RowFilterOf(s, filters).Some?
            && ParsePolicyPredicate(s, mode, RowFilterOf(s, filters).value) ==
               Joined(false, ParsePolicyPredicate(s, mode, RowFilterOf(s, before).value),
                      ParsePolicyPredicate(s, mode, PublishedBranch(s, last)))
            && PolicyPredicateOf(s, case_, filters) ==
               Some(MakeOr(PolicyPredicateOf(s, case_, before).value, Branch(s, case_, last)))
            && Canonical(s.BindingFor(case_), PolicyPredicateOf(s, case_, filters).value) ==
               MakeOr(Canonical(s.BindingFor(case_), PolicyPredicateOf(s, case_, before).value),
                      Canonical(s.BindingFor(case_), Branch(s, case_, last)))
  {
    var filters := before + [last];
    assert filters[..|filters| - 1] == before;
    assert forall i :: 0 <= i < |before| ==> filters[i] == before[i];
    assert KindOf("or") == KOr;
    PairParses(s, mode, true, "or", RowFilterOf(s, before).value, PublishedBranch(s, last));
    CanonicalMakes(s.BindingFor(case_), PolicyPredicateOf(s, case_, before).value, Branch(s, case_, last));
  }

  /** When case matters the two are the same predicate, node for node. */
  lemma SensitiveFilterIsThePlannedOne(s: Schema, filters: seq<Json>)
    requires WellIndexed(s) && filters != [] && AllTermsAgree(s, Sensitive, filters)
             && AllBranchesAgree(s, Sensitive, filters)
    ensures RowFilterOf(s, filters).Some? && PolicyPredicateOf(s, Sensitive, filters).Some?
    ensures ParsePolicyPredicate(s, Sensitive, RowFilterOf(s, filters).value) ==
            Ok(PolicyPredicateOf(s, Sensitive, filters).value)
  {
    PublishedFilterIsThePlannedOne(s, Sensitive, Sensitive, filters);
    CanonicalOfSensitive(s, PolicyPredicateOf(s, Sensitive, filters).value);
  }

  // ---------------------------------------------------------------------------
  // Filters on which the plan and the published form differ
  // ---------------------------------------------------------------------------

  lemma EqualsIsPublished(s: Schema, column: string, value: Json)
    requires WellIndexed(s) && column in s.columns
    ensures ToIdPredicate(s, Equals(column, value)).Ok? && ToIdPredicate(s, Equals(column, value)).value.Obj?
  {
    var o := map["type" := Str("eq"), "term" := Str(column), "value" := value];
    assert KindOf("eq") == KCompare(Eq);
    assert GetEither(o, "left", "term") == Some(Str(column)) && GetEither(o, "right", "value") == Some(value);
    assert IdReference(s, Str(column)).Ok?;
    assert ToIdLeaf(s, o, "eq", KCompare(Eq)).Ok?;
  }

  /** A literal its column's type does not take: the plan selects nothing, and the published filter is not `false`. */
  lemma MistypedLiteralIsPublished(s: Schema, column: string, value: Json, p: PrimitiveType)
    requires WellIndexed(s) && column in s.columns && s.columns[column] == Primitive(p)
    requires !value.Obj? && DatumFromJson(s.texts, value, p).None?
    ensures var filter := Equals(column, value);
            && Branch(s, Sensitive, filter) == AlwaysFalse && PublishedBranch(s, filter).Obj?
            && !BranchAgrees(s, Sensitive, filter)
  {
    EqualsIsPublished(s, column, value);
    EqualsSupplied(s, Sensitive, column, value);
  }

  lemma NullTestReads(s: Schema, case_: CaseSensitivity, term: Json)
    ensures ToIdPredicate(s, NullTest(term)).Ok? <==> IdReference(s, term).Ok?
    ensures ParsePolicyPredicate(s, case_, NullTest(term)).Ok? <==> PlannedColumn(s, case_, term).Some?
  {
    var o := map["type" := Str("is-null"), "child" := term];
    assert KindOf("is-null") == KUnary(IsNull);
    ParsesAsLeaf(s, case_, o, "is-null", KUnary(IsNull));
    UnaryOnColumn(s, case_, true, o, IsNull, term);
  }

  /** A test for null reads back as planned exactly when its term agrees. */
  lemma NullTestFaithfulIff(s: Schema, case_: CaseSensitivity, term: Json)
    requires WellIndexed(s)
    ensures Faithful(s, Sensitive, case_, NullTest(term)) <==> TermAgrees(s, case_, term)
  {
    var o := map["type" := Str("is-null"), "child" := term];
    assert KindOf("is-null") == KUnary(IsNull);
    NullTestReads(s, case_, term);
    OperatorFaithfulIff(s, Sensitive, case_, o, "is-null", KUnary(IsNull));
    TermAgreesIff(s, case_, term);
    PublishedAs(s, term);
  }

  /** A reference with one column's name and another's id: planned on the name, published on the id. */
  lemma NameAndIdCanDiverge(s: Schema, name: string, id: int)
    requires WellIndexed(s) && name in s.columns && id in s.nameById && s.nameById[id] != name
    ensures var term := Obj(map["type" := Str("reference"), "name" := Str(name), "id" := Int(id)]);
            && PlannedColumn(s, Sensitive, term) == Some(name) && PublishedColumn(s, term) == Some(s.nameById[id])
            && !Faithful(s, Sensitive, Sensitive, NullTest(term))
  {
    var term := Obj(map["type" := Str("reference"), "name" := Str(name), "id" := Int(id)]);
    assert ReferenceOperand(term) == Ok(Named(name));
    assert MIN_I64 <= id <= MAX_I64;
    ReferenceReadsBack(s, id);
    assert IdReference(s, term) == Ok(Reference(id));
    NullTestFaithfulIff(s, Sensitive, term);
  }

  /** A name in another case: a case-sensitive plan selects nothing, and the published filter names the column. */
  lemma SpellingCanDiverge(s: Schema, written: string, column: string)
    requires WellIndexed(s) && written !in s.columns && column in s.columns
    requires s.fold(written) in s.folded && s.folded[s.fold(written)] == column
    ensures PlannedColumn(s, Sensitive, Str(written)) == None && PublishedColumn(s, Str(written)) == Some(column)
    ensures Branch(s, Sensitive, NullTest(Str(written))) == AlwaysFalse
    ensures !Faithful(s, Sensitive, Sensitive, NullTest(Str(written)))
  {
    var id := s.idByName[column];
    ReferenceReadsBack(s, id);
    assert IdReference(s, Str(written)) == Ok(Reference(id));
    NullTestReads(s, Sensitive, Str(written));
    NullTestFaithfulIff(s, Sensitive, Str(written));
  }
}
