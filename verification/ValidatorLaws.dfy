/** Strict reading, client reading and the load-time check, against each other. */
module ValidatorLaws {

  import opened Prelude
  import opened Json
  import opened Truth
  import opened Literals
  import opened Predicate

  /** The term of an operator, as an operand. */
  function TermOperand(o: Object, kind: Kind): Outcome<Operand> {
    if kind.KCompare? then ComparisonOperandOf(o) else OperandOf(o)
  }

  /** No operator outside the grammar and no transform or function term, anywhere in the tree. */
  predicate FullyBindable(j: Json)
    decreases j
  {
    match j
    case Obj(o) =>
      (match GetStr(o, "type")
       case None => true
       case Some(name) =>
         var kind := KindOf(name);
         if kind.KAnd? || kind.KOr? then
           ("left" in o ==> FullyBindable(o["left"])) && ("right" in o ==> FullyBindable(o["right"]))
         else if kind.KNot? then "child" in o ==> FullyBindable(o["child"])
         else LeafBindable(o, kind))
    case _ => true
  }

  predicate LeafBindable(o: Object, kind: Kind) {
    if kind.KTrue? || kind.KFalse? then true
    else if kind.KUnary? || kind.KCompare? || kind.KSet? then TermOperand(o, kind) != Ok(Unbindable)
    else false
  }

  lemma LeafStrictness(s: Schema, case_: CaseSensitivity, positive: bool, o: Object, kind: Kind)
    ensures LeafBindable(o, kind) ==>
              ParseLeaf(s, case_, positive, Bindable, o, kind) == ParseLeaf(s, case_, positive, Widen, o, kind)
    ensures !LeafBindable(o, kind) ==> ParseLeaf(s, case_, positive, Bindable, o, kind) == Err(Unbound)
  {
  }

  /** A filter with nothing to widen reads the same both ways. */
  lemma {:induction false} NothingToWiden(s: Schema, case_: CaseSensitivity, positive: bool, j: Json)
    requires FullyBindable(j)
    ensures Parse(s, case_, positive, Bindable, j) == Parse(s, case_, positive, Widen, j)
    decreases j
  {
    if j.Obj? && GetStr(j.fields, "type").Some? {
      var o := j.fields;
      var kind := KindOf(GetStr(o, "type").value);
      if kind.KAnd? || kind.KOr? {
        if "left" in o {
          NothingToWiden(s, case_, positive, o["left"]);
          if "right" in o {
            NothingToWiden(s, case_, positive, o["right"]);
          }
        }
      } else if kind.KNot? {
        if "child" in o {
          NothingToWiden(s, case_, !positive, o["child"]);
        }
      } else {
        LeafStrictness(s, case_, positive, o, kind);
      }
    }
  }

  lemma {:induction false} SomethingToWidenIsRefused(s: Schema, case_: CaseSensitivity, positive: bool, j: Json)
    requires !FullyBindable(j)
    ensures Parse(s, case_, positive, Bindable, j).Err?
    decreases j
  {
    var o := j.fields;
    var kind := KindOf(GetStr(o, "type").value);
    if kind.KAnd? || kind.KOr? {
      if "left" in o && !FullyBindable(o["left"]) {
        SomethingToWidenIsRefused(s, case_, positive, o["left"]);
      } else {
        SomethingToWidenIsRefused(s, case_, positive, o["right"]);
      }
    } else if kind.KNot? {
      SomethingToWidenIsRefused(s, case_, !positive, o["child"]);
    } else {
      LeafStrictness(s, case_, positive, o, kind);
    }
  }

  /** Strict reading accepts exactly the client-readable filters with nothing to widen, and reads them alike. */
  lemma StrictIsBindableClientReading(s: Schema, case_: CaseSensitivity, j: Json)
    ensures ParsePolicyPredicate(s, case_, j).Ok? <==> FullyBindable(j) && ParsePredicate(s, case_, j).Ok?
    ensures ParsePolicyPredicate(s, case_, j).Ok? ==> ParsePolicyPredicate(s, case_, j) == ParsePredicate(s, case_, j)
  {
    if FullyBindable(j) {
      NothingToWiden(s, case_, true, j);
    } else {
      SomethingToWidenIsRefused(s, case_, true, j);
    }
  }

  // ---------------------------------------------------------------------------
  // The load-time check
  // ---------------------------------------------------------------------------

  /** Errors that only a table can decide. */
  predicate TableDependent(e: FilterError) {
    e.UnknownFieldId? || e.UnknownColumn? || e.NotPrimitive? || e.NotFloating? || e.LiteralValue?
  }

  lemma LeafValidity(s: Schema, case_: CaseSensitivity, positive: bool, o: Object, kind: Kind)
    ensures ParseLeaf(s, case_, positive, Bindable, o, kind).Ok? ==> ValidateLeaf(o, kind).Ok?
    ensures ValidateLeaf(o, kind).Ok? && ParseLeaf(s, case_, positive, Bindable, o, kind).Err? ==>
              var e := ParseLeaf(s, case_, positive, Bindable, o, kind).error;
              TableDependent(e) || e == LiteralShape
  {
    match kind
    case KSet(op) => SetValidity(s, case_, positive, o, op);
    case KCompare(op) =>
    case _ =>
  }

  lemma SetValidity(s: Schema, case_: CaseSensitivity, positive: bool, o: Object, op: Op)
    ensures ParseSet(s, case_, positive, Bindable, o, op).Ok? ==> ValidateLeaf(o, KSet(op)).Ok?
    ensures ValidateLeaf(o, KSet(op)).Ok? && ParseSet(s, case_, positive, Bindable, o, op).Err? ==>
              var e := ParseSet(s, case_, positive, Bindable, o, op).error;
              TableDependent(e) || e == LiteralShape
  {
    if "values" in o && LiteralItems(o["values"]).Ok? {
      forall p: PrimitiveType {
        DecodeAllErrors(s, LiteralItems(o["values"]).value, p);
      }
    }
  }

  lemma {:induction false} DecodeAllErrors(s: Schema, items: seq<Json>, p: PrimitiveType)
    ensures DecodeAll(s, items, p).Err? ==> DecodeAll(s, items, p).error == LiteralValue
  {
    if items != [] {
      DecodeAllErrors(s, items[1..], p);
    }
  }

  /**
   * What strict reading accepts, the load-time check accepts; what the check accepts can be
   * refused at plan time only for the table's columns, their types, or a literal.
   */
  lemma {:induction false} LoadCheckForeseesBinding(s: Schema, case_: CaseSensitivity, positive: bool, j: Json)
    ensures Parse(s, case_, positive, Bindable, j).Ok? ==> ValidatePolicyFilter(j).Ok?
    ensures ValidatePolicyFilter(j).Ok? && Parse(s, case_, positive, Bindable, j).Err? ==>
              var e := Parse(s, case_, positive, Bindable, j).error;
              TableDependent(e) || e == LiteralShape
    decreases j
  {
    if j.Obj? && GetStr(j.fields, "type").Some? {
      var o := j.fields;
      var kind := KindOf(GetStr(o, "type").value);
      if kind.KAnd? || kind.KOr? {
        if "left" in o {
          LoadCheckForeseesBinding(s, case_, positive, o["left"]);
          if "right" in o {
            LoadCheckForeseesBinding(s, case_, positive, o["right"]);
          }
        }
      } else if kind.KNot? {
        if "child" in o {
          LoadCheckForeseesBinding(s, case_, !positive, o["child"]);
        }
      } else {
        LeafValidity(s, case_, positive, o, kind);
      }
    }
  }

  /** A half that is missing is named, the left one first, when the filter is checked and when it is read. */
  lemma MissingHalfIsNamed(s: Schema, case_: CaseSensitivity, o: Object)
    requires "type" in o && (o["type"] == Str("and") || o["type"] == Str("or")) && ("left" !in o || "right" !in o)
    ensures "left" !in o ==>
              ValidatePolicyFilter(Obj(o)) == Err(MissingPart("left"))
              && ParsePolicyPredicate(s, case_, Obj(o)) == Err(MissingPart("left"))
    ensures "left" in o && ValidatePolicyFilter(o["left"]).Ok? ==>
              ValidatePolicyFilter(Obj(o)) == Err(MissingPart("right"))
    ensures "left" in o && ParsePolicyPredicate(s, case_, o["left"]).Ok? ==>
              ParsePolicyPredicate(s, case_, Obj(o)) == Err(MissingPart("right"))
  {
    assert KindOf("and") == KAnd && KindOf("or") == KOr;
  }
}
