/** Reading the REST specification's JSON predicate into the planner's tree. */
module Predicate {

  import opened Prelude
  import opened Json
  import opened Truth
  import opened Literals

  datatype CaseSensitivity = Sensitive | Insensitive

  /** Whether a term that cannot be bound is widened away or refused. */
  datatype Strictness = Widen | Bindable

  datatype FieldType = Primitive(of: PrimitiveType) | Nested

  /**
   * What the reader asks of a table: its columns by full name, the name of a field id and the
   * id of a name, the case-folded index, and how text is read as a literal of a type.
   */
  datatype Schema = Schema(
    columns: map<string, FieldType>,
    nameById: map<int, string>,
    idByName: map<string, int>,
    folded: map<string, string>,
    fold: string -> string,
    texts: TextReader)
  {
    /** The column a written name binds to. */
    function Lookup(case_: CaseSensitivity, name: string): Option<string> {
      match case_
      case Sensitive => if name in columns then Some(name) else None
      case Insensitive =>
        if fold(name) in folded && folded[fold(name)] in columns then Some(folded[fold(name)]) else None
    }

    function BindingFor(case_: CaseSensitivity): Binding {
      name => Lookup(case_, name)
    }
  }

  /** Why a filter was refused; the last five depend on the table. */
  datatype FilterError =
    | NotAnExpression | NeedsType | MissingPart(key: string) | NeedsOperand | BadOperand
    | ReferenceNeedsNameOrId | IdOutOfRange | NeedsValue | NeedsValues | Unbound
    | LiteralShape
    | UnknownFieldId(id: int) | UnknownColumn(name: string) | NotPrimitive | NotFloating | LiteralValue

  type Outcome<T> = Result<T, FilterError>

  datatype Kind = KTrue | KFalse | KAnd | KOr | KNot | KUnary(op: Op) | KCompare(op: Op) | KSet(op: Op) | KOther

  function KindOf(name: string): Kind {
    if name == "true" then KTrue
    else if name == "false" then KFalse
    else if name == "and" then KAnd
    else if name == "or" then KOr
    else if name == "not" then KNot
    else if name == "is-null" then KUnary(IsNull)
    else if name == "not-null" then KUnary(NotNull)
    else if name == "is-nan" then KUnary(IsNan)
    else if name == "not-nan" then KUnary(NotNan)
    else if name == "lt" then KCompare(Lt)
    else if name == "lt-eq" then KCompare(LtEq)
    else if name == "gt" then KCompare(Gt)
    else if name == "gt-eq" then KCompare(GtEq)
    else if name == "eq" then KCompare(Eq)
    else if name == "not-eq" then KCompare(NotEq)
    else if name == "starts-with" then KCompare(StartsWith)
    else if name == "not-starts-with" then KCompare(NotStartsWith)
    else if name == "in" then KSet(In)
    else if name == "not-in" then KSet(NotIn)
    else KOther
  }

  /** The value an unbindable term widens to under its polarity, or a refusal. */
  function WidenTo(positive: bool, strictness: Strictness): Outcome<Pred> {
    match strictness
    case Widen => Ok(if positive then AlwaysTrue else AlwaysFalse)
    case Bindable => Err(Unbound)
  }

  datatype Operand = Named(name: string) | Id(id: int) | Unbindable

  function Resolve(s: Schema, operand: Operand): Outcome<Option<string>> {
    match operand
    case Named(name) => Ok(Some(name))
    case Id(id) => if id in s.nameById then Ok(Some(s.nameById[id])) else Err(UnknownFieldId(id))
    case Unbindable => Ok(None)
  }

  function ReferenceOperand(j: Json): Outcome<Operand> {
    if j.Str? then Ok(Named(j.s))
    else if !j.Obj? then Err(BadOperand)
    else
      match GetStr(j.fields, "type")
      case None => Err(BadOperand)
      case Some(kind) =>
        if kind == "reference" then
          match GetStr(j.fields, "name")
          case Some(name) => Ok(Named(name))
          case None =>
            match GetInt(j.fields, "id")
            case None => Err(ReferenceNeedsNameOrId)
            case Some(id) => if MIN_I32 <= id <= MAX_I32 then Ok(Id(id)) else Err(IdOutOfRange)
        else if kind == "transform" || kind == "apply" then Ok(Unbindable)
        else Err(BadOperand)
  }

  function OperandOf(o: Object): Outcome<Operand> {
    match GetEither(o, "child", "term")
    case None => Err(NeedsOperand)
    case Some(j) => ReferenceOperand(j)
  }

  function ComparisonOperandOf(o: Object): Outcome<Operand> {
    match GetEither(o, "left", "term")
    case None => Err(NeedsOperand)
    case Some(j) => ReferenceOperand(j)
  }

  function FieldNamed(s: Schema, case_: CaseSensitivity, name: string): Outcome<FieldType> {
    match s.Lookup(case_, name)
    case None => Err(UnknownColumn(name))
    case Some(column) => if column in s.columns then Ok(s.columns[column]) else Err(UnknownColumn(name))
  }

  function PrimitiveOf(field: FieldType): Outcome<PrimitiveType> {
    match field
    case Primitive(p) => Ok(p)
    case Nested => Err(NotPrimitive)
  }

  function Decode(s: Schema, j: Json, p: PrimitiveType): Outcome<Datum> {
    match DatumFromJson(s.texts, j, p)
    case Some(d) => Ok(d)
    case None => Err(LiteralValue)
  }

  function ParseLiteral(s: Schema, j: Json, field: FieldType): Outcome<Datum> {
    var p :- PrimitiveOf(field);
    if j.Obj? && GetStr(j.fields, "type") == Some("literal") then
      match Get(j.fields, "value")
      case None => Err(LiteralShape)
      case Some(inner) => Decode(s, inner, p)
    else Decode(s, j, p)
  }

  function LiteralItems(j: Json): Outcome<seq<Json>> {
    if j.Arr? then Ok(j.items)
    else if j.Obj? then
      match Get(j.fields, "values")
      case Some(inner) => if inner.Arr? then Ok(inner.items) else Err(LiteralShape)
      case None => Err(LiteralShape)
    else Err(LiteralShape)
  }

  function DecodeAll(s: Schema, items: seq<Json>, p: PrimitiveType): Outcome<seq<Datum>> {
    if items == [] then Ok([])
    else
      var first :- Decode(s, items[0], p);
      var rest :- DecodeAll(s, items[1..], p);
      Ok([first] + rest)
  }

  function ParseLiterals(s: Schema, j: Json, field: FieldType): Outcome<seq<Datum>> {
    var p :- PrimitiveOf(field);
    var items :- LiteralItems(j);
    DecodeAll(s, items, p)
  }

  predicate AsksAboutNan(op: Op) {
    op == IsNan || op == NotNan
  }

  /** Whether a NaN question fits the field: only floating-point columns have one. */
  function NanFits(op: Op, field: FieldType): Outcome<()> {
    if AsksAboutNan(op) then
      var p :- PrimitiveOf(field);
      if p.IsFloating() then Ok(()) else Err(NotFloating)
    else Ok(())
  }

  function ParseUnary(s: Schema, case_: CaseSensitivity, positive: bool, strictness: Strictness, o: Object, op: Op)
    : Outcome<Pred>
  {
    var operand :- OperandOf(o);
    var resolved :- Resolve(s, operand);
    match resolved
    case None => WidenTo(positive, strictness)
    case Some(name) =>
      var field :- FieldNamed(s, case_, name);
      var _ :- NanFits(op, field);
      Ok(Atom(op, name, []))
  }

  function ParseCompare(s: Schema, case_: CaseSensitivity, positive: bool, strictness: Strictness, o: Object, op: Op)
    : Outcome<Pred>
  {
    var operand :- ComparisonOperandOf(o);
    var resolved :- Resolve(s, operand);
    match resolved
    case None => WidenTo(positive, strictness)
    case Some(name) =>
      var field :- FieldNamed(s, case_, name);
      match GetEither(o, "right", "value")
      case None => Err(NeedsValue)
      case Some(value) =>
        var literal :- ParseLiteral(s, value, field);
        Ok(Atom(op, name, [literal]))
  }

  function ParseSet(s: Schema, case_: CaseSensitivity, positive: bool, strictness: Strictness, o: Object, op: Op)
    : Outcome<Pred>
  {
    var operand :- OperandOf(o);
    var resolved :- Resolve(s, operand);
    match resolved
    case None => WidenTo(positive, strictness)
    case Some(name) =>
      var field :- FieldNamed(s, case_, name);
      match Get(o, "values")
      case None => Err(NeedsValues)
      case Some(values) =>
        var literals :- ParseLiterals(s, values, field);
        Ok(Atom(op, name, literals))
  }

  /** The operators, which have no sub-expression. */
  function ParseLeaf(s: Schema, case_: CaseSensitivity, positive: bool, strictness: Strictness, o: Object, kind: Kind)
    : Outcome<Pred>
  {
    match kind
    case KTrue => Ok(AlwaysTrue)
    case KFalse => Ok(AlwaysFalse)
    case KUnary(op) => ParseUnary(s, case_, positive, strictness, o, op)
    case KCompare(op) => ParseCompare(s, case_, positive, strictness, o, op)
    case KSet(op) => ParseSet(s, case_, positive, strictness, o, op)
    case _ => WidenTo(positive, strictness)
  }

  /** `parse_with_polarity`: `positive` says that the negations above the node cancel out. */
  function Parse(s: Schema, case_: CaseSensitivity, positive: bool, strictness: Strictness, j: Json): Outcome<Pred>
    decreases j
  {
    match j
    case Bool(b) => Ok(if b then AlwaysTrue else AlwaysFalse)
    case Obj(o) =>
      (match GetStr(o, "type")
       case None => Err(NeedsType)
       case Some(name) =>
         var kind := KindOf(name);
         if kind.KAnd? || kind.KOr? then
           if "left" !in o then Err(MissingPart("left"))
           else
             var left :- Parse(s, case_, positive, strictness, o["left"]);
             if "right" !in o then Err(MissingPart("right"))
             else
               var right :- Parse(s, case_, positive, strictness, o["right"]);
               Ok(if kind.KAnd? then MakeAnd(left, right) else MakeOr(left, right))
         else if kind.KNot? then
           if "child" !in o then Err(MissingPart("child"))
           else
             var child :- Parse(s, case_, !positive, strictness, o["child"]);
             Ok(Negate(child))
         else ParseLeaf(s, case_, positive, strictness, o, kind))
    case _ => Err(NotAnExpression)
  }

  /** A client's filter: what cannot be bound is widened. */
  function ParsePredicate(s: Schema, case_: CaseSensitivity, j: Json): Outcome<Pred> {
    Parse(s, case_, true, Widen, j)
  }

  /** A policy's row filter: what cannot be bound is refused. */
  function ParsePolicyPredicate(s: Schema, case_: CaseSensitivity, j: Json): Outcome<Pred> {
    Parse(s, case_, true, Bindable, j)
  }

  // ---------------------------------------------------------------------------
  // The load-time check
  // ---------------------------------------------------------------------------

  function BindableOperand(operand: Operand): Outcome<()> {
    if operand == Unbindable then Err(Unbound) else Ok(())
  }

  function ValidateLeaf(o: Object, kind: Kind): Outcome<()> {
    match kind
    case KTrue => Ok(())
    case KFalse => Ok(())
    case KUnary(_) =>
      var operand :- OperandOf(o);
      BindableOperand(operand)
    case KCompare(_) =>
      var operand :- ComparisonOperandOf(o);
      var _ :- BindableOperand(operand);
      if GetEither(o, "right", "value").Some? then Ok(()) else Err(NeedsValue)
    case KSet(_) =>
      var operand :- OperandOf(o);
      var _ :- BindableOperand(operand);
      if "values" in o then Ok(()) else Err(NeedsValues)
    case _ => Err(Unbound)
  }

  /** `validate_policy_filter`: the policy question, with no table in hand. */
  function ValidatePolicyFilter(j: Json): Outcome<()>
    decreases j
  {
    match j
    case Bool(_) => Ok(())
    case Obj(o) =>
      (match GetStr(o, "type")
       case None => Err(NeedsType)
       case Some(name) =>
         var kind := KindOf(name);
         if kind.KAnd? || kind.KOr? then
           if "left" !in o then Err(MissingPart("left"))
           else
             var _ :- ValidatePolicyFilter(o["left"]);
             if "right" !in o then Err(MissingPart("right")) else ValidatePolicyFilter(o["right"])
         else if kind.KNot? then
           if "child" !in o then Err(MissingPart("child")) else ValidatePolicyFilter(o["child"])
         else ValidateLeaf(o, kind))
    case _ => Err(NotAnExpression)
  }

  // ---------------------------------------------------------------------------
  // The columns a filter names
  // ---------------------------------------------------------------------------

  /** The column a term resolves to, or nothing. */
  function TermColumn(s: Schema, o: Object, key: string): set<string> {
    match Get(o, key)
    case None => {}
    case Some(j) =>
      match ReferenceOperand(j)
      case Err(_) => {}
      case Ok(operand) =>
        match Resolve(s, operand)
        case Ok(Some(name)) => {name}
        case _ => {}
  }

  function ReferencedColumns(s: Schema, j: Json): set<string>
    decreases j
  {
    match j
    case Obj(o) =>
      (match GetStr(o, "type")
       case None => {}
       case Some(name) =>
         var kind := KindOf(name);
         if kind.KAnd? || kind.KOr? then
           (if "left" in o then ReferencedColumns(s, o["left"]) else {})
           + (if "right" in o then ReferencedColumns(s, o["right"]) else {})
         else if kind.KNot? then
           if "child" in o then ReferencedColumns(s, o["child"]) else {}
         else TermColumn(s, o, "child") + TermColumn(s, o, "term") + TermColumn(s, o, "left"))
    case _ => {}
  }

  /** The collector the source runs: it adds to the set it is handed. */
  method CollectColumns(j: Json, names: set<string>, s: Schema) returns (names': set<string>)
    ensures names' == names + ReferencedColumns(s, j)
    decreases j
  {
    names' := names;
    if !j.Obj? {
      return;
    }
    var o := j.fields;
    var name := GetStr(o, "type");
    if name.None? {
      return;
    }
    var kind := KindOf(name.value);
    if kind.KAnd? || kind.KOr? {
      if "left" in o {
        names' := CollectColumns(o["left"], names', s);
      }
      if "right" in o {
        names' := CollectColumns(o["right"], names', s);
      }
    } else if kind.KNot? {
      if "child" in o {
        names' := CollectColumns(o["child"], names', s);
      }
    } else {
      names' := names' + TermColumn(s, o, "child");
      names' := names' + TermColumn(s, o, "term");
      names' := names' + TermColumn(s, o, "left");
    }
  }
}
