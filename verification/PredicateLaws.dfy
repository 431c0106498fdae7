/** What a parsed predicate means, against the filter it was read from. */
module PredicateLaws {

  import opened Prelude
  import opened Json
  import opened Truth
  import opened Predicate

  // ---------------------------------------------------------------------------
  // The meaning of a filter, read off the JSON with no parser
  // ---------------------------------------------------------------------------

  /** The column a filter's term names in this table, if it names one. */
  function TermIn(s: Schema, case_: CaseSensitivity, term: Option<Json>): Option<string> {
    match term
    case None => None
    case Some(j) =>
      match ReferenceOperand(j)
      case Ok(Named(name)) => s.Lookup(case_, name)
      case Ok(Id(id)) => if id in s.nameById then s.Lookup(case_, s.nameById[id]) else None
      case _ => None
  }

  /** The literals an operator compares against, typed by the column. */
  function LiteralsIn(s: Schema, column: string, o: Object, kind: Kind): seq<Datum> {
    if column !in s.columns then []
    else
      match kind
      case KCompare(_) =>
        (match GetEither(o, "right", "value")
         case None => []
         case Some(j) =>
           match ParseLiteral(s, j, s.columns[column])
           case Ok(d) => [d]
           case Err(_) => [])
      case KSet(_) =>
        (match Get(o, "values")
         case None => []
         case Some(j) =>
           match ParseLiterals(s, j, s.columns[column])
           case Ok(ds) => ds
           case Err(_) => [])
      case _ => []
  }

  function TermOf(o: Object, kind: Kind): Option<Json> {
    if kind.KCompare? then GetEither(o, "left", "term") else GetEither(o, "child", "term")
  }

  predicate IsOperator(kind: Kind) {
    kind.KUnary? || kind.KCompare? || kind.KSet?
  }

  /** An operator's truth on a row; `unbound` gives the truth of what no column stands for. */
  function LeafMeaning(v: Values, s: Schema, case_: CaseSensitivity, row: Row, unbound: Json -> Truth, o: Object,
                       kind: Kind): Truth {
    if kind.KTrue? then T
    else if kind.KFalse? then F
    else if !IsOperator(kind) then unbound(Obj(o))
    else
      match TermIn(s, case_, TermOf(o, kind))
      case None => unbound(Obj(o))
      case Some(column) => AtomTruth(v, kind.op, LiteralsIn(s, column, o, kind), Cell(row, column))
  }

  function Meaning(v: Values, s: Schema, case_: CaseSensitivity, row: Row, unbound: Json -> Truth, j: Json): Truth
    decreases j
  {
    match j
    case Bool(b) => FromBool(b)
    case Obj(o) =>
      (match GetStr(o, "type")
       case None => U
       case Some(name) =>
         var kind := KindOf(name);
         if kind.KAnd? then
           if "left" in o && "right" in o
           then And3(Meaning(v, s, case_, row, unbound, o["left"]), Meaning(v, s, case_, row, unbound, o["right"]))
           else U
         else if kind.KOr? then
           if "left" in o && "right" in o
           then Or3(Meaning(v, s, case_, row, unbound, o["left"]), Meaning(v, s, case_, row, unbound, o["right"]))
           else U
         else if kind.KNot? then
           if "child" in o then Not3(Meaning(v, s, case_, row, unbound, o["child"])) else U
         else LeafMeaning(v, s, case_, row, unbound, o, kind))
    case _ => U
  }

  // ---------------------------------------------------------------------------
  // Leaves
  // ---------------------------------------------------------------------------

  /** A widened term is on the safe side of any truth under its polarity. */
  predicate Safe(positive: bool, meaning: Truth, parsed: Truth) {
    if positive then AtMost(meaning, parsed) else AtMost(parsed, meaning)
  }

  /** How a leaf can be accepted: as a bound operator, a constant, or a widened term. */
  lemma UnaryLeaf(s: Schema, case_: CaseSensitivity, positive: bool, strictness: Strictness, o: Object, op: Op, p: Pred)
    requires ParseUnary(s, case_, positive, strictness, o, op) == Ok(p)
    ensures WidenTo(positive, strictness) == Ok(p) ||
            (p.Atom? && p.op == op && p.literals == [] && s.Lookup(case_, p.column).Some?
             && TermIn(s, case_, TermOf(o, KUnary(op))) == s.Lookup(case_, p.column))
  {
  }

  lemma CompareLeaf(s: Schema, case_: CaseSensitivity, positive: bool, strictness: Strictness, o: Object, op: Op,
                    p: Pred)
    requires ParseCompare(s, case_, positive, strictness, o, op) == Ok(p)
    ensures WidenTo(positive, strictness) == Ok(p) ||
            (p.Atom? && p.op == op && s.Lookup(case_, p.column).Some?
             && TermIn(s, case_, TermOf(o, KCompare(op))) == s.Lookup(case_, p.column)
             && LiteralsIn(s, s.Lookup(case_, p.column).value, o, KCompare(op)) == p.literals)
  {
  }

  lemma SetLeaf(s: Schema, case_: CaseSensitivity, positive: bool, strictness: Strictness, o: Object, op: Op, p: Pred)
    requires ParseSet(s, case_, positive, strictness, o, op) == Ok(p)
    ensures WidenTo(positive, strictness) == Ok(p) ||
            (p.Atom? && p.op == op && s.Lookup(case_, p.column).Some?
             && TermIn(s, case_, TermOf(o, KSet(op))) == s.Lookup(case_, p.column)
             && LiteralsIn(s, s.Lookup(case_, p.column).value, o, KSet(op)) == p.literals)
  {
  }

  lemma LeafIsSafe(v: Values, s: Schema, case_: CaseSensitivity, row: Row, unbound: Json -> Truth,
                   positive: bool, strictness: Strictness, o: Object, kind: Kind, p: Pred)
    requires ParseLeaf(s, case_, positive, strictness, o, kind) == Ok(p)
    ensures WidenTo(positive, strictness) == Ok(p) ||
            Eval(v, s.BindingFor(case_), p, row) == LeafMeaning(v, s, case_, row, unbound, o, kind)
  {
    match kind
    case KUnary(op) => UnaryLeaf(s, case_, positive, strictness, o, op, p);
    case KCompare(op) => CompareLeaf(s, case_, positive, strictness, o, op, p);
    case KSet(op) => SetLeaf(s, case_, positive, strictness, o, op, p);
    case _ =>
  }

  // ---------------------------------------------------------------------------
  // Trees
  // ---------------------------------------------------------------------------

  lemma SafeAnd(positive: bool, a: Truth, a': Truth, b: Truth, b': Truth)
    requires Safe(positive, a, a') && Safe(positive, b, b')
    ensures Safe(positive, And3(a, b), And3(a', b')) && Safe(positive, Or3(a, b), Or3(a', b'))
  {
  }

  lemma SafeNot(positive: bool, a: Truth, a': Truth)
    requires Safe(!positive, a, a')
    ensures Safe(positive, Not3(a), Not3(a'))
  {
  }

  /**
   * Widening is sound at every depth: whatever truth the unbindable terms have, the parsed
   * predicate is at least as true as the filter in a positive position, and at most as true
   * in a negative one.
   */
  lemma {:induction false} WideningIsSound(v: Values, s: Schema, case_: CaseSensitivity, row: Row,
                                           unbound: Json -> Truth, positive: bool, j: Json, p: Pred)
    requires Parse(s, case_, positive, Widen, j) == Ok(p)
    ensures Safe(positive, Meaning(v, s, case_, row, unbound, j), Eval(v, s.BindingFor(case_), p, row))
    decreases j
  {
    if j.Obj? {
      var o := j.fields;
      var kind := KindOf(GetStr(o, "type").value);
      if kind.KAnd? || kind.KOr? {
        var l := Parse(s, case_, positive, Widen, o["left"]).value;
        var r := Parse(s, case_, positive, Widen, o["right"]).value;
        WideningIsSound(v, s, case_, row, unbound, positive, o["left"], l);
        WideningIsSound(v, s, case_, row, unbound, positive, o["right"], r);
        MakeAndIsAnd(v, s.BindingFor(case_), l, r, row);
        MakeOrIsOr(v, s.BindingFor(case_), l, r, row);
        SafeAnd(positive, Meaning(v, s, case_, row, unbound, o["left"]), Eval(v, s.BindingFor(case_), l, row),
                Meaning(v, s, case_, row, unbound, o["right"]), Eval(v, s.BindingFor(case_), r, row));
      } else if kind.KNot? {
        var c := Parse(s, case_, !positive, Widen, o["child"]).value;
        WideningIsSound(v, s, case_, row, unbound, !positive, o["child"], c);
        NegateIsNot(v, s.BindingFor(case_), c, row);
        SafeNot(positive, Meaning(v, s, case_, row, unbound, o["child"]), Eval(v, s.BindingFor(case_), c, row));
      } else {
        LeafIsSafe(v, s, case_, row, unbound, positive, Widen, o, kind, p);
      }
    }
  }

  /** A strictly parsed filter means exactly the filter, on every row. */
  lemma {:induction false} StrictParseIsExact(v: Values, s: Schema, case_: CaseSensitivity, row: Row,
                                              unbound: Json -> Truth, positive: bool, j: Json, p: Pred)
    requires Parse(s, case_, positive, Bindable, j) == Ok(p)
    ensures Eval(v, s.BindingFor(case_), p, row) == Meaning(v, s, case_, row, unbound, j)
    decreases j
  {
    if j.Obj? {
      var o := j.fields;
      var kind := KindOf(GetStr(o, "type").value);
      if kind.KAnd? || kind.KOr? {
        var l := Parse(s, case_, positive, Bindable, o["left"]).value;
        var r := Parse(s, case_, positive, Bindable, o["right"]).value;
        StrictParseIsExact(v, s, case_, row, unbound, positive, o["left"], l);
        StrictParseIsExact(v, s, case_, row, unbound, positive, o["right"], r);
        MakeAndIsAnd(v, s.BindingFor(case_), l, r, row);
        MakeOrIsOr(v, s.BindingFor(case_), l, r, row);
      } else if kind.KNot? {
        var c := Parse(s, case_, !positive, Bindable, o["child"]).value;
        StrictParseIsExact(v, s, case_, row, unbound, !positive, o["child"], c);
        NegateIsNot(v, s.BindingFor(case_), c, row);
      } else {
        LeafIsSafe(v, s, case_, row, unbound, positive, Bindable, o, kind, p);
      }
    }
  }
}
