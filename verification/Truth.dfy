/** Three-valued truth, and the predicate trees the planner evaluates over rows. */
module Truth {

  import opened Prelude

  /** SQL truth: a comparison with NULL is neither true nor false. */
  datatype Truth = F | U | T
  {
    function Rank(): nat {
      match this
      case F => 0
      case U => 1
      case T => 2
    }
  }

  predicate AtMost(a: Truth, b: Truth) {
    a.Rank() <= b.Rank()
  }

  function And3(a: Truth, b: Truth): Truth {
    if AtMost(a, b) then a else b
  }

  function Or3(a: Truth, b: Truth): Truth {
    if AtMost(a, b) then b else a
  }

  function Not3(a: Truth): Truth {
    match a
    case F => T
    case U => U
    case T => F
  }

  function FromBool(b: bool): Truth {
    if b then T else F
  }

  datatype Op =
    | IsNull | NotNull | IsNan | NotNan
    | Lt | LtEq | Gt | GtEq | Eq | NotEq | StartsWith | NotStartsWith
    | In | NotIn

  function Complement(op: Op): Op {
    match op
    case IsNull => NotNull
    case NotNull => IsNull
    case IsNan => NotNan
    case NotNan => IsNan
    case Lt => GtEq
    case GtEq => Lt
    case Gt => LtEq
    case LtEq => Gt
    case Eq => NotEq
    case NotEq => Eq
    case StartsWith => NotStartsWith
    case NotStartsWith => StartsWith
    case In => NotIn
    case NotIn => In
  }

  /** A literal or cell value; what is read from text keeps its type's own encoding. */
  datatype Datum =
    BoolDatum(b: bool) | IntDatum(n: int) | RealDatum(r: real) | StrDatum(s: string) | ReadDatum(encoding: string)

  /** How values of one table compare: any three-way comparison, prefix test and NaN test. */
  datatype Values = Values(compare: (Datum, Datum) -> int, starts: (Datum, Datum) -> bool, nan: Datum -> bool)

  type Row = map<string, Option<Datum>>

  /** A column the row does not mention is NULL. */
  function Cell(row: Row, column: string): Option<Datum> {
    if column in row then row[column] else None
  }

  /** The truth of one operator on a cell, against its literals. */
  function AtomTruth(v: Values, op: Op, literals: seq<Datum>, cell: Option<Datum>): Truth {
    match cell
    case None =>
      (match op
       case IsNull => T
       case NotNull => F
       case _ => U)
    case Some(x) =>
      match op
      case IsNull => F
      case NotNull => T
      case IsNan => FromBool(v.nan(x))
      case NotNan => FromBool(!v.nan(x))
      case In => FromBool(exists d :: d in literals && v.compare(x, d) == 0)
      case NotIn => FromBool(forall d :: d in literals ==> v.compare(x, d) != 0)
      case _ => if literals == [] then U else FromBool(Holds(v, op, x, literals[0]))
  }

  /** The comparison operators on two values. */
  predicate Holds(v: Values, op: Op, x: Datum, d: Datum) {
    match op
    case Lt => v.compare(x, d) < 0
    case LtEq => v.compare(x, d) <= 0
    case Gt => v.compare(x, d) > 0
    case GtEq => v.compare(x, d) >= 0
    case Eq => v.compare(x, d) == 0
    case NotEq => v.compare(x, d) != 0
    case StartsWith => v.starts(x, d)
    case NotStartsWith => !v.starts(x, d)
    case _ => false
  }

  lemma ComplementNegates(v: Values, op: Op, literals: seq<Datum>, cell: Option<Datum>)
    ensures AtomTruth(v, Complement(op), literals, cell) == Not3(AtomTruth(v, op, literals, cell))
    ensures Complement(Complement(op)) == op
  {
  }

  /** The planner's predicate tree. */
  datatype Pred =
    | AlwaysTrue
    | AlwaysFalse
    | And(left: Pred, right: Pred)
    | Or(left: Pred, right: Pred)
    | Not(child: Pred)
    | Atom(op: Op, column: string, literals: seq<Datum>)

  function MakeAnd(p: Pred, q: Pred): Pred {
    if p.AlwaysFalse? || q.AlwaysFalse? then AlwaysFalse
    else if p.AlwaysTrue? then q
    else if q.AlwaysTrue? then p
    else And(p, q)
  }

  function MakeOr(p: Pred, q: Pred): Pred {
    if p.AlwaysTrue? || q.AlwaysTrue? then AlwaysTrue
    else if p.AlwaysFalse? then q
    else if q.AlwaysFalse? then p
    else Or(p, q)
  }

  /** Pushes a negation down to the operators. */
  function Negate(p: Pred): Pred {
    match p
    case AlwaysTrue => AlwaysFalse
    case AlwaysFalse => AlwaysTrue
    case And(l, r) => Or(Negate(l), Negate(r))
    case Or(l, r) => And(Negate(l), Negate(r))
    case Not(c) => c
    case Atom(op, column, literals) => Atom(Complement(op), column, literals)
  }

  /** Which column of the table a written name binds to. */
  type Binding = string -> Option<string>

  function Eval(v: Values, bind: Binding, p: Pred, row: Row): Truth {
    match p
    case AlwaysTrue => T
    case AlwaysFalse => F
    case And(l, r) => And3(Eval(v, bind, l, row), Eval(v, bind, r, row))
    case Or(l, r) => Or3(Eval(v, bind, l, row), Eval(v, bind, r, row))
    case Not(c) => Not3(Eval(v, bind, c, row))
    case Atom(op, column, literals) =>
      match bind(column)
      case Some(c) => AtomTruth(v, op, literals, Cell(row, c))
      case None => U
  }

  lemma MakeAndIsAnd(v: Values, bind: Binding, p: Pred, q: Pred, row: Row)
    ensures Eval(v, bind, MakeAnd(p, q), row) == And3(Eval(v, bind, p, row), Eval(v, bind, q, row))
  {
    if !p.AlwaysTrue? && !q.AlwaysTrue? && !p.AlwaysFalse? && !q.AlwaysFalse? {
      assert MakeAnd(p, q) == And(p, q);
    }
  }

  lemma MakeOrIsOr(v: Values, bind: Binding, p: Pred, q: Pred, row: Row)
    ensures Eval(v, bind, MakeOr(p, q), row) == Or3(Eval(v, bind, p, row), Eval(v, bind, q, row))
  {
    if !p.AlwaysTrue? && !q.AlwaysTrue? && !p.AlwaysFalse? && !q.AlwaysFalse? {
      assert MakeOr(p, q) == Or(p, q);
    }
  }

  lemma {:induction false} NegateIsNot(v: Values, bind: Binding, p: Pred, row: Row)
    ensures Eval(v, bind, Negate(p), row) == Not3(Eval(v, bind, p, row))
  {
    match p
    case And(l, r) =>
      NegateIsNot(v, bind, l, row);
      NegateIsNot(v, bind, r, row);
    case Or(l, r) =>
      NegateIsNot(v, bind, l, row);
      NegateIsNot(v, bind, r, row);
    case Atom(op, column, literals) =>
      if bind(column).Some? {
        ComplementNegates(v, op, literals, Cell(row, bind(column).value));
      }
    case _ =>
  }

  /** The names a predicate mentions. */
  function Columns(p: Pred): set<string> {
    match p
    case AlwaysTrue => {}
    case AlwaysFalse => {}
    case And(l, r) => Columns(l) + Columns(r)
    case Or(l, r) => Columns(l) + Columns(r)
    case Not(c) => Columns(c)
    case Atom(_, column, _) => {column}
  }

  lemma {:induction false} NegateKeepsColumns(p: Pred)
    ensures Columns(Negate(p)) == Columns(p)
  {
    match p
    case And(l, r) =>
      NegateKeepsColumns(l);
      NegateKeepsColumns(r);
    case Or(l, r) =>
      NegateKeepsColumns(l);
      NegateKeepsColumns(r);
    case _ =>
  }

  /** Rows that agree where the predicate's names bind get one verdict. */
  lemma {:induction false} EvalDependsOnColumns(v: Values, bind: Binding, p: Pred, row: Row, row': Row)
    requires forall name :: name in Columns(p) && bind(name).Some? ==>
               Cell(row, bind(name).value) == Cell(row', bind(name).value)
    ensures Eval(v, bind, p, row) == Eval(v, bind, p, row')
  {
    match p
    case And(l, r) =>
      EvalDependsOnColumns(v, bind, l, row, row');
      EvalDependsOnColumns(v, bind, r, row, row');
    case Or(l, r) =>
      EvalDependsOnColumns(v, bind, l, row, row');
      EvalDependsOnColumns(v, bind, r, row, row');
    case Not(c) => EvalDependsOnColumns(v, bind, c, row, row');
    case Atom(_, column, _) =>
      assert column in Columns(p);
    case _ =>
  }
}
