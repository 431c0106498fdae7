/** Exactly which tables a policy filter binds to, and which filters bind to some table. */
module BindingLaws {

  import opened Prelude
  import opened Json
  import opened Truth
  import opened Literals
  import opened Predicate
  import opened ValidatorLaws

  // ---------------------------------------------------------------------------
  // What a filter asks of the columns it names
  // ---------------------------------------------------------------------------

  /** A column as a filter names it. */
  datatype Key = ByName(name: string) | ById(id: int)

  /** What one operator asks of its column. */
  datatype Asked = Existing | Comparable | Floating | Carrying(literal: Json)

  datatype Demand = Demand(key: Key, asked: Asked)

  function KeyOf(o: Object, kind: Kind): Option<Key> {
    match TermOperand(o, kind)
    case Ok(Named(name)) => Some(ByName(name))
    case Ok(Id(id)) => Some(ById(id))
    case _ => None
  }

  /** The value of a literal object, or the bare value. */
  function LiteralOf(value: Json): Json {
    if value.Obj? && GetStr(value.fields, "type") == Some("literal") && "value" in value.fields
    then value.fields["value"]
    else value
  }

  function LeafAsks(o: Object, kind: Kind): seq<Asked> {
    match kind
    case KUnary(op) => if AsksAboutNan(op) then [Floating] else [Existing]
    case KCompare(_) =>
      (match GetEither(o, "right", "value")
       case Some(value) => [Carrying(LiteralOf(value))]
       case None => [])
    case KSet(_) =>
      (match LiteralItems(Get(o, "values").GetOr(Null))
       case Ok(items) => [Comparable] + AsCarrying(items)
       case Err(_) => [Comparable])
    case _ => []
  }

  function AsCarrying(items: seq<Json>): (asks: seq<Asked>)
    ensures forall a :: a in asks <==> a.Carrying? && a.literal in items
  {
    if items == [] then [] else [Carrying(items[0])] + AsCarrying(items[1..])
  }

  function Demanding(key: Key, asks: seq<Asked>): (demands: seq<Demand>)
    ensures forall d :: d in demands <==> d.key == key && d.asked in asks
  {
    if asks == [] then [] else [Demand(key, asks[0])] + Demanding(key, asks[1..])
  }

  function LeafDemands(o: Object, kind: Kind): (demands: seq<Demand>)
    ensures forall d :: d in demands <==> KeyOf(o, kind) == Some(d.key) && d.asked in LeafAsks(o, kind)
  {
    match KeyOf(o, kind)
    case None => []
    case Some(key) => Demanding(key, LeafAsks(o, kind))
  }

  /** Everything a filter asks, operator by operator. */
  function DemandsOf(j: Json): seq<Demand>
    decreases j
  {
    match j
    case Obj(o) =>
      (match GetStr(o, "type")
       case None => []
       case Some(name) =>
         var kind := KindOf(name);
         if kind.KAnd? || kind.KOr? then
           (if "left" in o then DemandsOf(o["left"]) else []) + (if "right" in o then DemandsOf(o["right"]) else [])
         else if kind.KNot? then
           if "child" in o then DemandsOf(o["child"]) else []
         else LeafDemands(o, kind))
    case _ => []
  }

  /** A column's type serves what is asked of it. */
  predicate Serves(read: TextReader, p: PrimitiveType, asked: Asked) {
    match asked
    case Existing => true
    case Comparable => true
    case Floating => p.IsFloating()
    case Carrying(literal) => DatumFromJson(read, literal, p).Some?
  }

  /** The column a key stands for in a table. */
  function FieldOf(s: Schema, case_: CaseSensitivity, key: Key): Option<FieldType> {
    var name :=
      match key
      case ByName(name) => Some(name)
      case ById(id) => if id in s.nameById then Some(s.nameById[id]) else None;
    match name
    case None => None
    case Some(n) =>
      match s.Lookup(case_, n)
      case Some(column) => if column in s.columns then Some(s.columns[column]) else None
      case None => None
  }

  /** A table has the column and the column serves: one that is not primitive serves only to exist. */
  predicate Supplies(s: Schema, case_: CaseSensitivity, d: Demand) {
    match FieldOf(s, case_, d.key)
    case None => false
    case Some(Nested) => d.asked.Existing?
    case Some(Primitive(p)) => Serves(s.texts, p, d.asked)
  }

  ghost predicate SuppliesAll(s: Schema, case_: CaseSensitivity, demands: seq<Demand>) {
    forall d :: d in demands ==> Supplies(s, case_, d)
  }

  lemma SuppliesBoth(s: Schema, case_: CaseSensitivity, a: seq<Demand>, b: seq<Demand>)
    ensures SuppliesAll(s, case_, a + b) <==> SuppliesAll(s, case_, a) && SuppliesAll(s, case_, b)
  {
    if SuppliesAll(s, case_, a + b) {
      assert forall d :: d in a || d in b ==> d in a + b;
    }
  }

  // ---------------------------------------------------------------------------
  // Literals that have the shape of one
  // ---------------------------------------------------------------------------

  /** A literal object has a value, and a set predicate's values are a list. */
  predicate LeafShapesFit(o: Object, kind: Kind) {
    match kind
    case KCompare(_) =>
      (match GetEither(o, "right", "value")
       case Some(Obj(fields)) => GetStr(fields, "type") == Some("literal") ==> "value" in fields
       case _ => true)
    case KSet(_) => "values" in o ==> LiteralItems(o["values"]).Ok?
    case _ => true
  }

  predicate LiteralShapesFit(j: Json)
    decreases j
  {
    match j
    case Obj(o) =>
      (match GetStr(o, "type")
       case None => true
       case Some(name) =>
         var kind := KindOf(name);
         if kind.KAnd? || kind.KOr? then
           ("left" in o ==> LiteralShapesFit(o["left"])) && ("right" in o ==> LiteralShapesFit(o["right"]))
         else if kind.KNot? then "child" in o ==> LiteralShapesFit(o["child"])
         else LeafShapesFit(o, kind))
    case _ => true
  }

  // ---------------------------------------------------------------------------
  // The tables a filter binds to
  // ---------------------------------------------------------------------------

  lemma UnaryBindsIff(s: Schema, case_: CaseSensitivity, positive: bool, o: Object, op: Op)
    ensures ParseUnary(s, case_, positive, Bindable, o, op).Ok? <==>
            ValidateLeaf(o, KUnary(op)).Ok? && SuppliesAll(s, case_, LeafDemands(o, KUnary(op)))
  {
    var kind := KUnary(op);
    if KeyOf(o, kind).Some? {
      var d := Demand(KeyOf(o, kind).value, LeafAsks(o, kind)[0]);
      assert d in LeafDemands(o, kind);
      assert SuppliesAll(s, case_, LeafDemands(o, kind)) <==> Supplies(s, case_, d);
    }
  }

  lemma LiteralParses(s: Schema, value: Json, field: FieldType)
    ensures ParseLiteral(s, value, field).Ok? <==>
            (value.Obj? && GetStr(value.fields, "type") == Some("literal") ==> "value" in value.fields)
            && field.Primitive? && DatumFromJson(s.texts, LiteralOf(value), field.of).Some?
  {
  }

  lemma CompareBindsIff(s: Schema, case_: CaseSensitivity, positive: bool, o: Object, op: Op)
    ensures ParseCompare(s, case_, positive, Bindable, o, op).Ok? <==>
            ValidateLeaf(o, KCompare(op)).Ok? && LeafShapesFit(o, KCompare(op))
            && SuppliesAll(s, case_, LeafDemands(o, KCompare(op)))
  {
    var kind := KCompare(op);
    if KeyOf(o, kind).Some? && GetEither(o, "right", "value").Some? {
      var value := GetEither(o, "right", "value").value;
      var d := Demand(KeyOf(o, kind).value, Carrying(LiteralOf(value)));
      assert d in LeafDemands(o, kind);
      assert SuppliesAll(s, case_, LeafDemands(o, kind)) <==> Supplies(s, case_, d);
      if FieldOf(s, case_, d.key).Some? {
        LiteralParses(s, value, FieldOf(s, case_, d.key).value);
      }
    }
  }

  lemma {:induction false} DecodeAllIff(s: Schema, items: seq<Json>, p: PrimitiveType)
    ensures DecodeAll(s, items, p).Ok? <==> forall i :: i in items ==> DatumFromJson(s.texts, i, p).Some?
  {
    if items != [] {
      DecodeAllIff(s, items[1..], p);
      assert items == [items[0]] + items[1..];
    }
  }

  lemma SetSupplied(s: Schema, case_: CaseSensitivity, o: Object, op: Op, items: seq<Json>)
    requires KeyOf(o, KSet(op)).Some? && "values" in o && LiteralItems(o["values"]) == Ok(items)
    ensures var field := FieldOf(s, case_, KeyOf(o, KSet(op)).value);
            SuppliesAll(s, case_, LeafDemands(o, KSet(op))) <==>
            field.Some? && field.value.Primitive? && DecodeAll(s, items, field.value.of).Ok?
  {
    var key := KeyOf(o, KSet(op)).value;
    var demands := LeafDemands(o, KSet(op));
    assert LeafAsks(o, KSet(op)) == [Comparable] + AsCarrying(items);
    assert Demand(key, Comparable) in demands;
    forall i | i in items ensures Demand(key, Carrying(i)) in demands {
    }
    var field := FieldOf(s, case_, key);
    assert SuppliesAll(s, case_, demands) ==> Supplies(s, case_, Demand(key, Comparable));
    if field.Some? && field.value.Primitive? {
      DecodeAllIff(s, items, field.value.of);
      if SuppliesAll(s, case_, demands) {
        forall i | i in items ensures DatumFromJson(s.texts, i, field.value.of).Some? {
          assert Supplies(s, case_, Demand(key, Carrying(i)));
        }
      }
    }
  }

  lemma SetBindsIff(s: Schema, case_: CaseSensitivity, positive: bool, o: Object, op: Op)
    ensures ParseSet(s, case_, positive, Bindable, o, op).Ok? <==>
            ValidateLeaf(o, KSet(op)).Ok? && LeafShapesFit(o, KSet(op))
            && SuppliesAll(s, case_, LeafDemands(o, KSet(op)))
  {
    if KeyOf(o, KSet(op)).Some? && "values" in o && LiteralItems(o["values"]).Ok? {
      SetSupplied(s, case_, o, op, LiteralItems(o["values"]).value);
    }
  }

  lemma LeafBindsIff(s: Schema, case_: CaseSensitivity, positive: bool, o: Object, kind: Kind)
    requires !kind.KAnd? && !kind.KOr? && !kind.KNot?
    ensures ParseLeaf(s, case_, positive, Bindable, o, kind).Ok? <==>
            ValidateLeaf(o, kind).Ok? && LeafShapesFit(o, kind) && SuppliesAll(s, case_, LeafDemands(o, kind))
  {
    match kind
    case KUnary(op) => UnaryBindsIff(s, case_, positive, o, op);
    case KCompare(op) => CompareBindsIff(s, case_, positive, o, op);
    case KSet(op) => SetBindsIff(s, case_, positive, o, op);
    case _ =>
  }

  /**
   * A policy filter binds to a table exactly when the load-time check accepts it, its literals have the shape of one,
   * and the table supplies every column with a type that serves all that is asked of it.
   */
  lemma {:induction false} BindsIff(s: Schema, case_: CaseSensitivity, positive: bool, j: Json)
    ensures Parse(s, case_, positive, Bindable, j).Ok? <==>
            ValidatePolicyFilter(j).Ok? && LiteralShapesFit(j) && SuppliesAll(s, case_, DemandsOf(j))
    decreases j
  {
    if j.Obj? && GetStr(j.fields, "type").Some? {
      var o := j.fields;
      var kind := KindOf(GetStr(o, "type").value);
      if kind.KAnd? || kind.KOr? {
        if "left" in o && "right" in o {
          BindsIff(s, case_, positive, o["left"]);
          BindsIff(s, case_, positive, o["right"]);
          SuppliesBoth(s, case_, DemandsOf(o["left"]), DemandsOf(o["right"]));
        }
      } else if kind.KNot? {
        if "child" in o {
          BindsIff(s, case_, !positive, o["child"]);
        }
      } else {
        LeafBindsIff(s, case_, positive, o, kind);
      }
    }
  }

  // ---------------------------------------------------------------------------
  // The filters that bind to some table
  // ---------------------------------------------------------------------------

  /** One type serves everything that is asked of the column `key`. */
  predicate ServesKey(read: TextReader, demands: seq<Demand>, key: Key, p: PrimitiveType) {
    forall d :: d in demands && d.key == key ==> Serves(read, p, d.asked)
  }

  /** Every column a filter names has such a type. */
  ghost predicate ColumnsHaveTypes(read: TextReader, demands: seq<Demand>) {
    forall d :: d in demands ==> exists p :: ServesKey(read, demands, d.key, p)
  }

  ghost function TypeFor(read: TextReader, demands: seq<Demand>, key: Key): (p: PrimitiveType)
    ensures (exists q :: ServesKey(read, demands, key, q)) ==> ServesKey(read, demands, key, p)
  {
    if exists q :: ServesKey(read, demands, key, q) then
      var q :| ServesKey(read, demands, key, q);
      q
    else IntType
  }

  /** The longest name among the demands. */
  function LongestName(demands: seq<Demand>): (n: nat)
    ensures forall d :: d in demands && d.key.ByName? ==> |d.key.name| <= n
  {
    if demands == [] then 0
    else
      var rest := LongestName(demands[1..]);
      if demands[0].key.ByName? && |demands[0].key.name| > rest then |demands[0].key.name| else rest
  }

  function Underscores(n: nat): (s: string)
    ensures |s| == n
  {
    seq(n, i => '_')
  }

  /** A name of its own for every field id, longer than any the filter uses. */
  function NameForId(demands: seq<Demand>, id: int): (name: string)
    ensures |name| == LongestName(demands) + 1 + if id >= 0 then 2 * id else -2 * id - 1
  {
    Underscores(LongestName(demands) + 1 + if id >= 0 then 2 * id else -2 * id - 1)
  }

  function NameOfKey(demands: seq<Demand>, key: Key): string {
    match key
    case ByName(name) => name
    case ById(id) => NameForId(demands, id)
  }

  lemma NamesOfKeysDiffer(demands: seq<Demand>, d: Demand, e: Demand)
    requires d in demands && e in demands && NameOfKey(demands, d.key) == NameOfKey(demands, e.key)
    ensures d.key == e.key
  {
  }

  function Keys(demands: seq<Demand>): (keys: set<Key>)
    ensures forall k :: k in keys <==> exists d :: d in demands && d.key == k
  {
    set d | d in demands :: d.key
  }

  /** The key a column of the serving table is named by. */
  ghost function KeyNamed(demands: seq<Demand>, name: string): (key: Key)
    requires exists d :: d in demands && NameOfKey(demands, d.key) == name
    ensures NameOfKey(demands, key) == name && exists d :: d in demands && d.key == key
  {
    var d :| d in demands && NameOfKey(demands, d.key) == name;
    d.key
  }

  /** A table with one column for every key, of a type that serves it. */
  ghost function ServingTable(read: TextReader, demands: seq<Demand>): Schema {
    Schema(map name | name in (set d | d in demands :: NameOfKey(demands, d.key))
             :: Primitive(TypeFor(read, demands, KeyNamed(demands, name))),
           map id | id in (set d | d in demands && d.key.ById? :: d.key.id) :: NameForId(demands, id),
           map[], map[], n => n, read)
  }

  lemma ServingTableSupplies(read: TextReader, demands: seq<Demand>, d: Demand)
    requires ColumnsHaveTypes(read, demands) && d in demands
    ensures Supplies(ServingTable(read, demands), Sensitive, d)
  {
    var s := ServingTable(read, demands);
    var name := NameOfKey(demands, d.key);
    var key := KeyNamed(demands, name);
    var e :| e in demands && e.key == key;
    NamesOfKeysDiffer(demands, d, e);
    assert FieldOf(s, Sensitive, d.key) == Some(Primitive(TypeFor(read, demands, d.key)));
  }

  /** The type a table gives a key's column; any when the column is not primitive. */
  function TypeIn(s: Schema, case_: CaseSensitivity, key: Key): PrimitiveType {
    match FieldOf(s, case_, key)
    case Some(Primitive(p)) => p
    case _ => IntType
  }

  lemma SuppliedColumnsHaveTypes(s: Schema, case_: CaseSensitivity, demands: seq<Demand>)
    requires SuppliesAll(s, case_, demands)
    ensures ColumnsHaveTypes(s.texts, demands)
  {
    forall d | d in demands ensures exists p :: ServesKey(s.texts, demands, d.key, p) {
      var p := TypeIn(s, case_, d.key);
      forall e | e in demands && e.key == d.key ensures Serves(s.texts, p, e.asked) {
        assert Supplies(s, case_, e);
      }
      assert ServesKey(s.texts, demands, d.key, p);
    }
  }

  /**
   * Some table can carry a filter exactly when the load-time check accepts it, its literals are well shaped, and for
   * every column it names one type takes all the literals compared with it, a floating one if NaN is asked about.
   * The check asks neither of the last two.
   */
  lemma BindableBySomeTableIff(read: TextReader, j: Json)
    ensures (exists s: Schema :: s.texts == read && ParsePolicyPredicate(s, Sensitive, j).Ok?) <==>
            ValidatePolicyFilter(j).Ok? && LiteralShapesFit(j) && ColumnsHaveTypes(read, DemandsOf(j))
  {
    var demands := DemandsOf(j);
    if ValidatePolicyFilter(j).Ok? && LiteralShapesFit(j) && ColumnsHaveTypes(read, demands) {
      var s := ServingTable(read, demands);
      forall d | d in demands ensures Supplies(s, Sensitive, d) {
        ServingTableSupplies(read, demands, d);
      }
      BindsIff(s, Sensitive, true, j);
      assert s.texts == read && ParsePolicyPredicate(s, Sensitive, j).Ok?;
    }
    if exists s: Schema :: s.texts == read && ParsePolicyPredicate(s, Sensitive, j).Ok? {
      var s: Schema :| s.texts == read && ParsePolicyPredicate(s, Sensitive, j).Ok?;
      BindsIff(s, Sensitive, true, j);
      SuppliedColumnsHaveTypes(s, Sensitive, demands);
    }
  }

  // ---------------------------------------------------------------------------
  // Filters the load-time check accepts and no table carries
  // ---------------------------------------------------------------------------

  function Equals(column: string, value: Json): Json {
    Obj(map["type" := Str("eq"), "term" := Str(column), "value" := value])
  }

  function NullTest(term: Json): Json {
    Obj(map["type" := Str("is-null"), "child" := term])
  }

  lemma EqualsAsks(column: string, value: Json)
    requires !value.Obj?
    ensures ValidatePolicyFilter(Equals(column, value)).Ok? && LiteralShapesFit(Equals(column, value))
    ensures Demand(ByName(column), Carrying(value)) in DemandsOf(Equals(column, value))
  {
    var o := map["type" := Str("eq"), "term" := Str(column), "value" := value];
    assert KindOf("eq") == KCompare(Eq);
    assert GetEither(o, "left", "term") == Some(Str(column));
    assert GetEither(o, "right", "value") == Some(value);
  }

  function Both(left: Json, right: Json): Json {
    Obj(map["type" := Str("and"), "left" := left, "right" := right])
  }

  lemma BothAsks(s: Schema, case_: CaseSensitivity, left: Json, right: Json)
    ensures ValidatePolicyFilter(Both(left, right)).Ok? <==>
            ValidatePolicyFilter(left).Ok? && ValidatePolicyFilter(right).Ok?
    ensures LiteralShapesFit(Both(left, right)) <==> LiteralShapesFit(left) && LiteralShapesFit(right)
    ensures ParsePolicyPredicate(s, case_, Both(left, right)).Ok? ==>
              ParsePolicyPredicate(s, case_, left).Ok? && ParsePolicyPredicate(s, case_, right).Ok?
  {
    var o := map["type" := Str("and"), "left" := left, "right" := right];
    assert KindOf("and") == KAnd;
    assert o["left"] == left && o["right"] == right;
  }

  lemma EqualsSupplied(s: Schema, case_: CaseSensitivity, column: string, value: Json)
    requires !value.Obj?
    ensures ParsePolicyPredicate(s, case_, Equals(column, value)).Ok? ==>
              Supplies(s, case_, Demand(ByName(column), Carrying(value)))
  {
    EqualsAsks(column, value);
    BindsIff(s, case_, true, Equals(column, value));
  }

  lemma NothingServes(s: Schema, case_: CaseSensitivity, column: string, flag: bool, text: string)
    ensures !Supplies(s, case_, Demand(ByName(column), Carrying(Null)))
    ensures !Supplies(s, case_, Demand(ByName(column), Carrying(Bool(flag))))
            || !Supplies(s, case_, Demand(ByName(column), Carrying(Str(text))))
  {
  }

  /** A comparison with null passes the load-time check, and no column type takes null. */
  lemma NullNeverBinds(s: Schema, case_: CaseSensitivity, column: string, value: Json)
    requires value == Null
    ensures ValidatePolicyFilter(Equals(column, value)).Ok? && LiteralShapesFit(Equals(column, value))
    ensures ParsePolicyPredicate(s, case_, Equals(column, value)).Err?
  {
    EqualsAsks(column, value);
    EqualsSupplied(s, case_, column, value);
    NothingServes(s, case_, column, true, "");
  }

  /** One column compared with a boolean and with text: no type takes both. */
  lemma TwoTypesNeverBind(s: Schema, case_: CaseSensitivity, column: string, x: Json, y: Json)
    requires x.Bool? && y.Str?
    ensures var both := Both(Equals(column, x), Equals(column, y));
            ValidatePolicyFilter(both).Ok? && LiteralShapesFit(both) && ParsePolicyPredicate(s, case_, both).Err?
  {
    EqualsAsks(column, x);
    EqualsAsks(column, y);
    BothAsks(s, case_, Equals(column, x), Equals(column, y));
    EqualsSupplied(s, case_, column, x);
    EqualsSupplied(s, case_, column, y);
    NothingServes(s, case_, column, x.b, y.s);
  }

  /** `values` that is not a list passes the load-time check and binds to no table. */
  lemma CheckedFilterNoTableBinds(s: Schema, case_: CaseSensitivity)
    ensures var filter := Obj(map["type" := Str("in"), "term" := Str("a"), "values" := Int(5)]);
            ValidatePolicyFilter(filter).Ok? && ParsePolicyPredicate(s, case_, filter).Err?
  {
    var o := map["type" := Str("in"), "term" := Str("a"), "values" := Int(5)];
    assert KindOf("in") == KSet(In);
    assert !LeafShapesFit(o, KSet(In));
    BindsIff(s, case_, true, Obj(o));
  }
}
