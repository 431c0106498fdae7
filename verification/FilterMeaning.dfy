/** What each spelling of a filter says of a cell, in the JSON's own terms. */
module FilterMeaning {

  import opened Prelude
  import opened Json
  import opened Truth
  import opened Literals
  import opened Predicate

  // ---------------------------------------------------------------------------
  // Terms and literals as they are written
  // ---------------------------------------------------------------------------

  /** `name` stands for `column`: as it is, or through the case-folded index. */
  ghost predicate StandsFor(s: Schema, case_: CaseSensitivity, name: string, column: string) {
    && column in s.columns
    && match case_
       case Sensitive => name == column
       case Insensitive => s.fold(name) in s.folded && s.folded[s.fold(name)] == column
  }

  /** `term` names the column: by its name, or by a reference that has a name or else a 32-bit id. */
  ghost predicate RefersTo(s: Schema, case_: CaseSensitivity, term: Json, column: string) {
    match term
    case Str(name) => StandsFor(s, case_, name, column)
    case Obj(o) =>
      && "type" in o && o["type"] == Str("reference")
      && if "name" in o && o["name"].Str? then StandsFor(s, case_, o["name"].s, column)
         else
           && "id" in o && o["id"].Int? && -0x8000_0000 <= o["id"].n < 0x8000_0000
           && o["id"].n in s.nameById && StandsFor(s, case_, s.nameById[o["id"].n], column)
    case _ => false
  }

  /** A whole number is a literal of these types: of 32 bits for some, of 64 for the others. */
  predicate TakesShortNumbers(p: PrimitiveType) {
    p.IntType? || p.DateType?
  }

  predicate TakesLongNumbers(p: PrimitiveType) {
    p.LongType? || p.TimestampType? || p.TimestamptzType? || p.TimestampNsType? || p.TimestamptzNsType?
  }

  /** Text is read as a literal of these types by the table's reader. */
  predicate ReadsText(p: PrimitiveType) {
    !p.BooleanType? && !p.IntType? && !p.LongType? && !p.FloatType? && !p.DoubleType? && !p.StringType?
  }

  /** `j` is a literal of type `p`, and the literal is `d`. */
  ghost predicate Denotes(s: Schema, j: Json, p: PrimitiveType, d: Datum) {
    || (j.Bool? && p.BooleanType? && d == BoolDatum(j.b))
    || (j.Int? && TakesShortNumbers(p) && -0x8000_0000 <= j.n < 0x8000_0000 && d == IntDatum(j.n))
    || (j.Int? && TakesLongNumbers(p) && -0x8000_0000_0000_0000 <= j.n < 0x8000_0000_0000_0000 && d == IntDatum(j.n))
    || (j.Int? && (p.FloatType? || p.DoubleType?) && d == RealDatum(j.n as real))
    || (j.Float? && (p.FloatType? || p.DoubleType?) && d == RealDatum(j.r))
    || (j.Str? && p.StringType? && d == StrDatum(j.s))
    || (j.Str? && ReadsText(p) && s.texts(j.s, p) == Some(d))
  }

  /** `value` is written bare, or as the value of a literal object. */
  ghost predicate Carries(value: Json, j: Json) {
    if value.Obj? && "type" in value.fields && value.fields["type"] == Str("literal")
    then "value" in value.fields && value.fields["value"] == j
    else value == j
  }

  /** The operand `j` is written under `key`, or without that under `other`. */
  ghost predicate Under(o: Object, key: string, other: string, j: Json) {
    if key in o then o[key] == j else other in o && o[other] == j
  }

  lemma DenotesIff(s: Schema, j: Json, p: PrimitiveType, d: Datum)
    ensures DatumFromJson(s.texts, j, p) == Some(d) <==> Denotes(s, j, p, d)
  {
  }

  lemma StandsForIff(s: Schema, case_: CaseSensitivity, name: string, column: string)
    ensures s.Lookup(case_, name) == Some(column) <==> StandsFor(s, case_, name, column)
  {
  }

  /** What reading a referring term gives: a name that binds to the column. */
  lemma TermReads(s: Schema, case_: CaseSensitivity, term: Json, column: string)
    requires RefersTo(s, case_, term, column)
    ensures ReferenceOperand(term).Ok? && Resolve(s, ReferenceOperand(term).value).Ok?
    ensures var name := Resolve(s, ReferenceOperand(term).value).value;
            name.Some? && s.Lookup(case_, name.value) == Some(column)
  {
    if term.Str? {
      StandsForIff(s, case_, term.s, column);
    } else if "name" in term.fields && term.fields["name"].Str? {
      StandsForIff(s, case_, term.fields["name"].s, column);
    } else {
      assert GetInt(term.fields, "id") == Some(term.fields["id"].n);
      StandsForIff(s, case_, s.nameById[term.fields["id"].n], column);
    }
  }

  /** The truth of a strictly read filter on a row. */
  ghost function TruthOn(v: Values, s: Schema, case_: CaseSensitivity, row: Row, j: Json): Truth
    requires ParsePolicyPredicate(s, case_, j).Ok?
  {
    Eval(v, s.BindingFor(case_), ParsePolicyPredicate(s, case_, j).value, row)
  }

  /** The cell is there and is `x`. */
  predicate CellIs(row: Row, column: string, x: Datum) {
    column in row && row[column] == Some(x)
  }

  predicate CellIsNull(row: Row, column: string) {
    column in row ==> row[column] == None
  }

  // ---------------------------------------------------------------------------
  // Comparisons
  // ---------------------------------------------------------------------------

  /** An operator with a left and a right: its spelling, its term and its value. */
  ghost predicate IsComparison(o: Object, name: string, term: Json, j: Json) {
    && "type" in o && o["type"] == Str(name) && Under(o, "left", "term", term)
    && exists value :: Under(o, "right", "value", value) && Carries(value, j)
  }

  lemma LiteralReads(s: Schema, value: Json, j: Json, p: PrimitiveType)
    requires Carries(value, j)
    ensures ParseLiteral(s, value, Primitive(p)) ==
            if DatumFromJson(s.texts, j, p).Some? then Ok(DatumFromJson(s.texts, j, p).value) else Err(LiteralValue)
  {
  }

  lemma ComparisonParses(s: Schema, case_: CaseSensitivity, o: Object, name: string, term: Json, j: Json,
                         column: string,
                         p: PrimitiveType, op: Op)
    requires IsComparison(o, name, term, j) && KindOf(name) == KCompare(op)
    requires RefersTo(s, case_, term, column) && s.columns[column] == Primitive(p)
    ensures var parsed, d := ParsePolicyPredicate(s, case_, Obj(o)), DatumFromJson(s.texts, j, p);
            if d.None? then parsed.Err?
            else exists written ::
                   s.Lookup(case_, written) == Some(column) && parsed == Ok(Atom(op, written, [d.value]))
  {
    TermReads(s, case_, term, column);
    var value :| Under(o, "right", "value", value) && Carries(value, j);
    LiteralReads(s, value, j, p);
    assert ParsePolicyPredicate(s, case_, Obj(o)) == ParseCompare(s, case_, true, Bindable, o, op);
  }

  /** A comparison binds exactly when its value is a literal of the column's type. */
  lemma ComparisonBindsIff(s: Schema, case_: CaseSensitivity, o: Object, name: string, term: Json, j: Json,
                           column: string,
                           p: PrimitiveType)
    requires name in {"lt", "lt-eq", "gt", "gt-eq", "eq", "not-eq", "starts-with", "not-starts-with"}
    requires IsComparison(o, name, term, j) && RefersTo(s, case_, term, column) && s.columns[column] == Primitive(p)
    ensures ParsePolicyPredicate(s, case_, Obj(o)).Ok? <==> exists d :: Denotes(s, j, p, d)
  {
    ComparisonParses(s, case_, o, name, term, j, column, p, KindOf(name).op);
    forall d ensures DatumFromJson(s.texts, j, p) == Some(d) <==> Denotes(s, j, p, d) {
      DenotesIff(s, j, p, d);
    }
    if DatumFromJson(s.texts, j, p).Some? {
      assert Denotes(s, j, p, DatumFromJson(s.texts, j, p).value);
    }
  }

  lemma ComparisonOnCell(v: Values, s: Schema, case_: CaseSensitivity, row: Row, o: Object, name: string, term: Json,
                         j: Json, column: string, p: PrimitiveType, d: Datum, op: Op)
    requires IsComparison(o, name, term, j) && KindOf(name) == KCompare(op)
    requires RefersTo(s, case_, term, column) && s.columns[column] == Primitive(p) && Denotes(s, j, p, d)
    ensures ParsePolicyPredicate(s, case_, Obj(o)).Ok?
    ensures TruthOn(v, s, case_, row, Obj(o)) == AtomTruth(v, op, [d], Cell(row, column))
  {
    ComparisonParses(s, case_, o, name, term, j, column, p, op);
    DenotesIff(s, j, p, d);
  }

  /** How a cell that compares so with the literal answers an operator of order or equality. */
  predicate OrderHolds(op: Op, compared: int) {
    match op
    case Lt => compared < 0
    case LtEq => compared <= 0
    case Gt => compared > 0
    case GtEq => compared >= 0
    case Eq => compared == 0
    case _ => compared != 0
  }

  lemma OrderOnCell(v: Values, s: Schema, case_: CaseSensitivity, row: Row, o: Object, name: string, term: Json, j: Json,
                    column: string, p: PrimitiveType, d: Datum, op: Op)
    requires KindOf(name) == KCompare(op) && (op.Lt? || op.LtEq? || op.Gt? || op.GtEq? || op.Eq? || op.NotEq?)
    requires IsComparison(o, name, term, j)
    requires RefersTo(s, case_, term, column) && s.columns[column] == Primitive(p) && Denotes(s, j, p, d)
    ensures ParsePolicyPredicate(s, case_, Obj(o)).Ok?
    ensures CellIsNull(row, column) ==> TruthOn(v, s, case_, row, Obj(o)) == U
    ensures forall x :: CellIs(row, column, x) ==>
              TruthOn(v, s, case_, row, Obj(o)) == if OrderHolds(op, v.compare(x, d)) then T else F
  {
    ComparisonOnCell(v, s, case_, row, o, name, term, j, column, p, d, op);
  }

  /** Order and equality: each is true of exactly the cells that compare so with the literal, and unknown of NULL. */
  lemma OrderReads(v: Values, s: Schema, case_: CaseSensitivity, row: Row, o: Object, name: string, term: Json, j: Json,
                   column: string, p: PrimitiveType, d: Datum)
    requires name == "lt" || name == "lt-eq" || name == "gt" || name == "gt-eq" || name == "eq" || name == "not-eq"
    requires IsComparison(o, name, term, j)
    requires RefersTo(s, case_, term, column) && s.columns[column] == Primitive(p) && Denotes(s, j, p, d)
    ensures ParsePolicyPredicate(s, case_, Obj(o)).Ok?
    ensures CellIsNull(row, column) ==> TruthOn(v, s, case_, row, Obj(o)) == U
    ensures forall x :: CellIs(row, column, x) ==>
              var t, c := TruthOn(v, s, case_, row, Obj(o)), v.compare(x, d);
              && t != U
              && (name == "lt" ==> (t == T <==> c < 0))
              && (name == "lt-eq" ==> (t == T <==> c <= 0))
              && (name == "gt" ==> (t == T <==> c > 0))
              && (name == "gt-eq" ==> (t == T <==> c >= 0))
              && (name == "eq" ==> (t == T <==> c == 0))
              && (name == "not-eq" ==> (t == T <==> c != 0))
  {
    var op := OrderOf(name);
    OrderOnCell(v, s, case_, row, o, name, term, j, column, p, d, op);
  }

  function OrderOf(name: string): Op {
    if name == "lt" then Lt
    else if name == "lt-eq" then LtEq
    else if name == "gt" then Gt
    else if name == "gt-eq" then GtEq
    else if name == "eq" then Eq
    else NotEq
  }

  /** Prefixes. */
  lemma PrefixReads(v: Values, s: Schema, case_: CaseSensitivity, row: Row, o: Object, name: string, term: Json,
                    j: Json,
                    column: string, p: PrimitiveType, d: Datum)
    requires name in {"starts-with", "not-starts-with"} && IsComparison(o, name, term, j)
    requires RefersTo(s, case_, term, column) && s.columns[column] == Primitive(p) && Denotes(s, j, p, d)
    ensures ParsePolicyPredicate(s, case_, Obj(o)).Ok?
    ensures CellIsNull(row, column) ==> TruthOn(v, s, case_, row, Obj(o)) == U
    ensures forall x :: CellIs(row, column, x) ==>
              TruthOn(v, s, case_, row, Obj(o)) == if v.starts(x, d) == (name == "starts-with") then T else F
  {
    ComparisonOnCell(v, s, case_, row, o, name, term, j, column, p, d, KindOf(name).op);
  }

  // ---------------------------------------------------------------------------
  // Null and NaN
  // ---------------------------------------------------------------------------

  ghost predicate IsQuestion(o: Object, name: string, term: Json) {
    "type" in o && o["type"] == Str(name) && Under(o, "child", "term", term)
  }

  lemma QuestionParses(s: Schema, case_: CaseSensitivity, o: Object, name: string, term: Json, column: string, op: Op)
    requires IsQuestion(o, name, term) && KindOf(name) == KUnary(op) && RefersTo(s, case_, term, column)
    ensures var parsed := ParsePolicyPredicate(s, case_, Obj(o));
            if NanFits(op, s.columns[column]).Err? then parsed.Err?
            else exists written :: s.Lookup(case_, written) == Some(column) && parsed == Ok(Atom(op, written, []))
  {
    TermReads(s, case_, term, column);
    assert ParsePolicyPredicate(s, case_, Obj(o)) == ParseUnary(s, case_, true, Bindable, o, op);
  }

  /** A test for null has an answer on every row, and any column can be tested. */
  lemma NullTestReads(v: Values, s: Schema, case_: CaseSensitivity, row: Row, o: Object, name: string, term: Json,
                      column: string)
    requires name in {"is-null", "not-null"} && IsQuestion(o, name, term) && RefersTo(s, case_, term, column)
    ensures ParsePolicyPredicate(s, case_, Obj(o)).Ok?
    ensures TruthOn(v, s, case_, row, Obj(o)) == if CellIsNull(row, column) == (name == "is-null") then T else F
  {
    QuestionParses(s, case_, o, name, term, column, KindOf(name).op);
  }

  /** NaN is asked of floating columns only. */
  lemma NanTestReads(v: Values, s: Schema, case_: CaseSensitivity, row: Row, o: Object, name: string, term: Json,
                     column: string)
    requires name in {"is-nan", "not-nan"} && IsQuestion(o, name, term) && RefersTo(s, case_, term, column)
    ensures ParsePolicyPredicate(s, case_, Obj(o)).Ok? <==>
            s.columns[column] == Primitive(FloatType) || s.columns[column] == Primitive(DoubleType)
    ensures ParsePolicyPredicate(s, case_, Obj(o)).Ok? && CellIsNull(row, column) ==>
              TruthOn(v, s, case_, row, Obj(o)) == U
    ensures forall x :: ParsePolicyPredicate(s, case_, Obj(o)).Ok? && CellIs(row, column, x) ==>
              TruthOn(v, s, case_, row, Obj(o)) == if v.nan(x) == (name == "is-nan") then T else F
  {
    QuestionParses(s, case_, o, name, term, column, KindOf(name).op);
  }

  // ---------------------------------------------------------------------------
  // Sets
  // ---------------------------------------------------------------------------

  /** The values are a list, or an object that holds one. */
  ghost predicate IsMembership(o: Object, name: string, term: Json, items: seq<Json>) {
    && "type" in o && o["type"] == Str(name) && Under(o, "child", "term", term) && "values" in o
    && (o["values"] == Arr(items)
        || (o["values"].Obj? && "values" in o["values"].fields && o["values"].fields["values"] == Arr(items)))
  }

  ghost predicate DenoteAll(s: Schema, items: seq<Json>, p: PrimitiveType, ds: seq<Datum>) {
    |ds| == |items| && forall i :: 0 <= i < |items| ==> Denotes(s, items[i], p, ds[i])
  }

  lemma {:induction false} DecodesAll(s: Schema, items: seq<Json>, p: PrimitiveType, ds: seq<Datum>)
    requires DenoteAll(s, items, p, ds)
    ensures DecodeAll(s, items, p) == Ok(ds)
  {
    if items != [] {
      DenotesIff(s, items[0], p, ds[0]);
      DecodesAll(s, items[1..], p, ds[1..]);
      assert [ds[0]] + ds[1..] == ds;
    }
  }

  lemma MembershipParses(s: Schema, case_: CaseSensitivity, o: Object, name: string, term: Json, items: seq<Json>,
                         column: string, p: PrimitiveType, ds: seq<Datum>, op: Op)
    requires IsMembership(o, name, term, items) && KindOf(name) == KSet(op)
    requires RefersTo(s, case_, term, column) && s.columns[column] == Primitive(p) && DenoteAll(s, items, p, ds)
    ensures exists written :: s.Lookup(case_, written) == Some(column)
                              && ParsePolicyPredicate(s, case_, Obj(o)) == Ok(Atom(op, written, ds))
  {
    TermReads(s, case_, term, column);
    DecodesAll(s, items, p, ds);
    assert ParsePolicyPredicate(s, case_, Obj(o)) == ParseSet(s, case_, true, Bindable, o, op);
  }

  /** Some literal of the list compares equal. */
  ghost predicate EqualsOne(v: Values, x: Datum, ds: seq<Datum>) {
    exists i :: 0 <= i < |ds| && v.compare(x, ds[i]) == 0
  }

  lemma InIsEqualsOne(v: Values, ds: seq<Datum>, cell: Option<Datum>, op: Op)
    requires op == In || op == NotIn
    ensures AtomTruth(v, op, ds, cell) ==
            if cell.None? then U else if EqualsOne(v, cell.value, ds) == (op == In) then T else F
  {
    if cell.Some? && exists d :: d in ds && v.compare(cell.value, d) == 0 {
      var d :| d in ds && v.compare(cell.value, d) == 0;
      var i :| 0 <= i < |ds| && ds[i] == d;
      assert EqualsOne(v, cell.value, ds);
    }
  }

  lemma {:induction false} DecodedDenote(s: Schema, items: seq<Json>, p: PrimitiveType)
    requires DecodeAll(s, items, p).Ok?
    ensures DenoteAll(s, items, p, DecodeAll(s, items, p).value)
  {
    if items != [] {
      DecodedDenote(s, items[1..], p);
      DenotesIff(s, items[0], p, DecodeAll(s, items, p).value[0]);
    }
  }

  /** A membership test binds exactly when every value is a literal of the column's type. */
  lemma MembershipBindsIff(s: Schema, case_: CaseSensitivity, o: Object, name: string, term: Json, items: seq<Json>,
                           column: string, p: PrimitiveType)
    requires (name == "in" || name == "not-in") && IsMembership(o, name, term, items)
    requires RefersTo(s, case_, term, column) && s.columns[column] == Primitive(p)
    ensures ParsePolicyPredicate(s, case_, Obj(o)).Ok? <==> exists ds :: DenoteAll(s, items, p, ds)
  {
    TermReads(s, case_, term, column);
    var op := KindOf(name).op;
    assert ParsePolicyPredicate(s, case_, Obj(o)) == ParseSet(s, case_, true, Bindable, o, op);
    assert LiteralItems(o["values"]) == Ok(items);
    if DecodeAll(s, items, p).Ok? {
      DecodedDenote(s, items, p);
    }
    if ds :| DenoteAll(s, items, p, ds) {
      DecodesAll(s, items, p, ds);
    }
  }

  lemma MembershipOnCell(v: Values, s: Schema, case_: CaseSensitivity, row: Row, o: Object, name: string, term: Json,
                         items: seq<Json>, column: string, p: PrimitiveType, ds: seq<Datum>, op: Op)
    requires IsMembership(o, name, term, items) && KindOf(name) == KSet(op)
    requires RefersTo(s, case_, term, column) && s.columns[column] == Primitive(p) && DenoteAll(s, items, p, ds)
    ensures ParsePolicyPredicate(s, case_, Obj(o)).Ok?
    ensures TruthOn(v, s, case_, row, Obj(o)) == AtomTruth(v, op, ds, Cell(row, column))
  {
    MembershipParses(s, case_, o, name, term, items, column, p, ds, op);
  }

  /** A cell is in a list exactly when it compares equal to one of its literals. */
  lemma MembershipReads(v: Values, s: Schema, case_: CaseSensitivity, row: Row, o: Object, name: string, term: Json,
                        items: seq<Json>, column: string, p: PrimitiveType, ds: seq<Datum>)
    requires name == "in" || name == "not-in"
    requires IsMembership(o, name, term, items)
    requires RefersTo(s, case_, term, column) && s.columns[column] == Primitive(p) && DenoteAll(s, items, p, ds)
    ensures ParsePolicyPredicate(s, case_, Obj(o)).Ok?
    ensures CellIsNull(row, column) ==> TruthOn(v, s, case_, row, Obj(o)) == U
    ensures forall x :: CellIs(row, column, x) ==>
              TruthOn(v, s, case_, row, Obj(o)) == if EqualsOne(v, x, ds) == (name == "in") then T else F
  {
    var op := KindOf(name).op;
    MembershipOnCell(v, s, case_, row, o, name, term, items, column, p, ds, op);
    InIsEqualsOne(v, ds, Cell(row, column), op);
  }

  // ---------------------------------------------------------------------------
  // Constants and trees
  // ---------------------------------------------------------------------------

  lemma ConstantsRead(v: Values, s: Schema, case_: CaseSensitivity, row: Row, b: bool, o: Object)
    requires "type" in o && o["type"] == Str(if b then "true" else "false")
    ensures ParsePolicyPredicate(s, case_, Bool(b)).Ok? && ParsePolicyPredicate(s, case_, Obj(o)).Ok?
    ensures TruthOn(v, s, case_, row, Bool(b)) == TruthOn(v, s, case_, row, Obj(o)) == if b then T else F
  {
  }

  ghost predicate Joins(o: Object, name: string, l: Json, r: Json) {
    && "type" in o && o["type"] == Str(name)
    && "left" in o && o["left"] == l && "right" in o && o["right"] == r
  }

  /** A conjunction is true where both halves are, and false where either is. */
  lemma AndReads(v: Values, s: Schema, case_: CaseSensitivity, row: Row, o: Object, l: Json, r: Json)
    requires Joins(o, "and", l, r)
    ensures ParsePolicyPredicate(s, case_, Obj(o)).Ok? <==>
            ParsePolicyPredicate(s, case_, l).Ok? && ParsePolicyPredicate(s, case_, r).Ok?
    ensures ParsePolicyPredicate(s, case_, Obj(o)).Ok? ==>
              var t, a, b := TruthOn(v, s, case_, row, Obj(o)), TruthOn(v, s, case_, row, l),
                  TruthOn(v, s, case_, row, r);
              (t == T <==> a == T && b == T) && (t == F <==> a == F || b == F)
  {
    if ParsePolicyPredicate(s, case_, Obj(o)).Ok? {
      MakeAndIsAnd(v, s.BindingFor(case_), ParsePolicyPredicate(s, case_, l).value,
                   ParsePolicyPredicate(s, case_, r).value,
                   row);
    }
  }

  /** A disjunction is true where either half is, and false where both are. */
  lemma OrReads(v: Values, s: Schema, case_: CaseSensitivity, row: Row, o: Object, l: Json, r: Json)
    requires Joins(o, "or", l, r)
    ensures ParsePolicyPredicate(s, case_, Obj(o)).Ok? <==>
            ParsePolicyPredicate(s, case_, l).Ok? && ParsePolicyPredicate(s, case_, r).Ok?
    ensures ParsePolicyPredicate(s, case_, Obj(o)).Ok? ==>
              var t, a, b := TruthOn(v, s, case_, row, Obj(o)), TruthOn(v, s, case_, row, l),
                  TruthOn(v, s, case_, row, r);
              (t == T <==> a == T || b == T) && (t == F <==> a == F && b == F)
  {
    if ParsePolicyPredicate(s, case_, Obj(o)).Ok? {
      MakeOrIsOr(v, s.BindingFor(case_), ParsePolicyPredicate(s, case_, l).value,
                 ParsePolicyPredicate(s, case_, r).value,
                 row);
    }
  }

  /** The strict reading of a filter does not depend on the polarity it is read under. */
  lemma {:induction false} StrictIgnoresPolarity(s: Schema, case_: CaseSensitivity, j: Json)
    ensures Parse(s, case_, false, Bindable, j) == Parse(s, case_, true, Bindable, j)
    decreases j
  {
    if j.Obj? && GetStr(j.fields, "type").Some? {
      var o := j.fields;
      var kind := KindOf(GetStr(o, "type").value);
      if kind.KAnd? || kind.KOr? {
        if "left" in o {
          StrictIgnoresPolarity(s, case_, o["left"]);
        }
        if "right" in o {
          StrictIgnoresPolarity(s, case_, o["right"]);
        }
      } else if kind.KNot? && "child" in o {
        StrictIgnoresPolarity(s, case_, o["child"]);
      }
    }
  }

  /** A negation swaps true and false, and leaves unknown. */
  lemma NotReads(v: Values, s: Schema, case_: CaseSensitivity, row: Row, o: Object, c: Json)
    requires "type" in o && o["type"] == Str("not") && "child" in o && o["child"] == c
    ensures ParsePolicyPredicate(s, case_, Obj(o)).Ok? <==> ParsePolicyPredicate(s, case_, c).Ok?
    ensures ParsePolicyPredicate(s, case_, Obj(o)).Ok? ==>
              var t, a := TruthOn(v, s, case_, row, Obj(o)), TruthOn(v, s, case_, row, c);
              (t == T <==> a == F) && (t == F <==> a == T)
  {
    StrictIgnoresPolarity(s, case_, c);
    if ParsePolicyPredicate(s, case_, c).Ok? {
      NegateIsNot(v, s.BindingFor(case_), ParsePolicyPredicate(s, case_, c).value, row);
    }
  }

  // ---------------------------------------------------------------------------
  // What cannot be bound
  // ---------------------------------------------------------------------------

  /**
   * A policy may not hold it; a client's filter takes it for true where it adds rows, and for false under a negation.
   */
  ghost predicate IsWidened(s: Schema, case_: CaseSensitivity, j: Json) {
    && ParsePolicyPredicate(s, case_, j).Err? && ParsePredicate(s, case_, j) == Ok(AlwaysTrue)
    && Parse(s, case_, false, Widen, j) == Ok(AlwaysFalse)
  }

  /** A value computed from a column rather than a column. */
  predicate IsComputed(term: Json) {
    term.Obj? && "type" in term.fields
      && (term.fields["type"] == Str("transform") || term.fields["type"] == Str("apply"))
  }

  lemma LeafIsWidened(s: Schema, case_: CaseSensitivity, o: Object, name: string, kind: Kind)
    requires GetStr(o, "type") == Some(name) && KindOf(name) == kind && !kind.KAnd? && !kind.KOr? && !kind.KNot?
    requires forall positive, strictness ::
               ParseLeaf(s, case_, positive, strictness, o, kind) == WidenTo(positive, strictness)
    ensures IsWidened(s, case_, Obj(o))
  {
    assert Parse(s, case_, true, Bindable, Obj(o)) == ParseLeaf(s, case_, true, Bindable, o, kind);
    assert Parse(s, case_, true, Widen, Obj(o)) == ParseLeaf(s, case_, true, Widen, o, kind);
    assert Parse(s, case_, false, Widen, Obj(o)) == ParseLeaf(s, case_, false, Widen, o, kind);
  }

  lemma ComputedComparisonIsWidened(s: Schema, case_: CaseSensitivity, o: Object, name: string, term: Json)
    requires name in {"lt", "lt-eq", "gt", "gt-eq", "eq", "not-eq", "starts-with", "not-starts-with"}
    requires "type" in o && o["type"] == Str(name) && Under(o, "left", "term", term) && IsComputed(term)
    ensures IsWidened(s, case_, Obj(o))
  {
    var kind := KindOf(name);
    assert kind.KCompare? && ReferenceOperand(term) == Ok(Unbindable);
    LeafIsWidened(s, case_, o, name, kind);
  }

  lemma ComputedTestIsWidened(s: Schema, case_: CaseSensitivity, o: Object, name: string, term: Json)
    requires name in {"is-null", "not-null", "is-nan", "not-nan", "in", "not-in"}
    requires "type" in o && o["type"] == Str(name) && Under(o, "child", "term", term) && IsComputed(term)
    ensures IsWidened(s, case_, Obj(o))
  {
    var kind := KindOf(name);
    assert (kind.KUnary? || kind.KSet?) && ReferenceOperand(term) == Ok(Unbindable);
    LeafIsWidened(s, case_, o, name, kind);
  }

  /** An operator nobody knows. */
  lemma UnknownOperatorIsWidened(s: Schema, case_: CaseSensitivity, o: Object, name: string)
    requires "type" in o && o["type"] == Str(name)
    requires name !in {"true", "false", "and", "or", "not", "is-null", "not-null", "is-nan", "not-nan", "lt", "lt-eq",
                       "gt", "gt-eq", "eq", "not-eq", "starts-with", "not-starts-with", "in", "not-in"}
    ensures IsWidened(s, case_, Obj(o))
  {
    assert KindOf(name) == KOther;
    LeafIsWidened(s, case_, o, name, KOther);
  }
}
