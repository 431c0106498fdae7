/** The row filter published to a reader: the policy's filters, rewritten to field ids. */
module Restrictions {

  import opened Prelude
  import opened Json
  import opened Predicate
  import opened Obligations

  /** Anything the published vocabulary cannot carry. */
  datatype Inexpressible = Inexpressible

  type Published = Result<Json, Inexpressible>

  function Reference(id: int): Json {
    Obj(map["type" := Str("reference"), "id" := Int(id)])
  }

  /** The field id a name stands for: the exact name first, then the name ignoring case. */
  function IdOfName(s: Schema, name: string): Option<int> {
    if name in s.idByName then Some(s.idByName[name])
    else if s.fold(name) in s.folded && s.folded[s.fold(name)] in s.idByName
    then Some(s.idByName[s.folded[s.fold(name)]])
    else None
  }

  function NameReference(s: Schema, name: string): Published {
    match IdOfName(s, name)
    case Some(id) => Ok(Reference(id))
    case None => Err(Inexpressible)
  }

  /** An id is preferred here; `ReferenceOperand` prefers the name. */
  function IdReference(s: Schema, j: Json): Published {
    match j
    case Str(name) => NameReference(s, name)
    case Obj(o) =>
      if GetStr(o, "type") != Some("reference") then Err(Inexpressible)
      else
        (match GetInt(o, "id")
         case Some(id) =>
           if MIN_I32 <= id <= MAX_I32 && id in s.nameById then Ok(Reference(id)) else Err(Inexpressible)
         case None =>
           match GetStr(o, "name")
           case Some(name) => NameReference(s, name)
           case None => Err(Inexpressible))
    case _ => Err(Inexpressible)
  }

  predicate IsLiteralObject(j: Json) {
    j.Obj? && GetStr(j.fields, "type") == Some("literal")
  }

  function AsLiteral(j: Json): Json {
    if IsLiteralObject(j) then j else Obj(map["type" := Str("literal"), "value" := j])
  }

  function IdTerm(s: Schema, o: Object, key: string): Published {
    match GetEither(o, key, "term")
    case None => Err(Inexpressible)
    case Some(j) => IdReference(s, j)
  }

  /** The operators, rewritten; `name` is the operator as written. */
  function ToIdLeaf(s: Schema, o: Object, name: string, kind: Kind): Published {
    match kind
    case KTrue => Ok(Bool(true))
    case KFalse => Ok(Bool(false))
    case KUnary(_) =>
      var term :- IdTerm(s, o, "child");
      Ok(Obj(map["type" := Str(name), "child" := term]))
    case KCompare(_) =>
      var term :- IdTerm(s, o, "left");
      (match GetEither(o, "right", "value")
       case None => Err(Inexpressible)
       case Some(value) => Ok(Obj(map["type" := Str(name), "left" := term, "right" := AsLiteral(value)])))
    case KSet(_) =>
      var term :- IdTerm(s, o, "child");
      (match Get(o, "values")
       case None => Err(Inexpressible)
       case Some(values) => Ok(Obj(map["type" := Str(name), "child" := term, "values" := values])))
    case _ => Err(Inexpressible)
  }

  function Pair(name: string, left: Json, right: Json): Json {
    Obj(map["type" := Str(name), "left" := left, "right" := right])
  }

  function Negation(child: Json): Json {
    Obj(map["type" := Str("not"), "child" := child])
  }

  function ToIdPredicate(s: Schema, j: Json): Published
    decreases j
  {
    match j
    case Bool(b) => Ok(Bool(b))
    case Obj(o) =>
      (match GetStr(o, "type")
       case None => Err(Inexpressible)
       case Some(name) =>
         var kind := KindOf(name);
         if kind.KAnd? || kind.KOr? then
           if "left" !in o then Err(Inexpressible)
           else
             var left :- ToIdPredicate(s, o["left"]);
             if "right" !in o then Err(Inexpressible)
             else
               var right :- ToIdPredicate(s, o["right"]);
               Ok(Pair(name, left, right))
         else if kind.KNot? then
           if "child" !in o then Err(Inexpressible)
           else
             var child :- ToIdPredicate(s, o["child"]);
             Ok(Negation(child))
         else ToIdLeaf(s, o, name, kind))
    case _ => Err(Inexpressible)
  }

  function PublishedBranch(s: Schema, filter: Json): Json {
    match ToIdPredicate(s, filter)
    case Ok(j) => j
    case Err(_) => Bool(false)
  }

  function RowFilterOf(s: Schema, filters: seq<Json>): Option<Json> {
    if filters == [] then None
    else
      var last := PublishedBranch(s, filters[|filters| - 1]);
      match RowFilterOf(s, filters[..|filters| - 1])
      case None => Some(last)
      case Some(left) => Some(Pair("or", left, last))
  }

  /** `required-row-filter`: the published filters as one disjunction. */
  method RowFilter(s: Schema, obligations: Obligations) returns (combined: Option<Json>)
    ensures combined == RowFilterOf(s, obligations.rowFilters)
  {
    var filters := obligations.rowFilters;
    combined := None;
    for i := 0 to |filters|
      invariant combined == RowFilterOf(s, filters[..i])
    {
      assert filters[..i + 1][..i] == filters[..i];
      var bound := PublishedBranch(s, filters[i]);
      match combined {
        case None => combined := Some(bound);
        case Some(left) => combined := Some(Pair("or", left, bound));
      }
    }
    assert filters[..|filters|] == filters;
  }

  // ---------------------------------------------------------------------------
  // Which terms are published as the column they are planned on
  // ---------------------------------------------------------------------------

  /** The name and id indexes describe one set of columns, with ids in the 32-bit range. */
  ghost predicate WellIndexed(s: Schema) {
    && s.idByName.Keys == s.columns.Keys
    && (forall n :: n in s.idByName ==> s.idByName[n] in s.nameById && s.nameById[s.idByName[n]] == n)
    && (forall id :: id in s.nameById ==> s.nameById[id] in s.columns && MIN_I32 <= id <= MAX_I32)
  }

  /** The column a term is planned on. */
  function PlannedColumn(s: Schema, case_: CaseSensitivity, j: Json): Option<string> {
    match ReferenceOperand(j)
    case Ok(Named(name)) => s.Lookup(case_, name)
    case Ok(Id(id)) => if id in s.nameById then s.Lookup(case_, s.nameById[id]) else None
    case _ => None
  }

  /** The column the published reference of a term stands for. */
  function PublishedColumn(s: Schema, j: Json): Option<string> {
    match IdReference(s, j)
    case Ok(Obj(o)) =>
      (match GetInt(o, "id")
       case Some(id) => if id in s.nameById then Some(s.nameById[id]) else None
       case None => None)
    case _ => None
  }

  /** A name on its own: as the table spells it, or as no column is spelled; without case, not captured by another. */
  predicate NameAgrees(s: Schema, case_: CaseSensitivity, name: string) {
    match case_
    case Sensitive => name in s.columns || IdOfName(s, name).None?
    case Insensitive => name in s.columns ==> s.Lookup(Insensitive, name) == Some(name)
  }

  /** A name beside an id: the name of that id, or neither stands for a column. */
  predicate NameAndIdAgree(s: Schema, case_: CaseSensitivity, name: string, id: int) {
    s.Lookup(case_, name) == if id in s.nameById then Some(s.nameById[id]) else None
  }

  /** What a caller can check of a term before publishing it. */
  predicate TermAgrees(s: Schema, case_: CaseSensitivity, j: Json) {
    match ReferenceOperand(j)
    case Ok(Named(name)) =>
      if j.Obj? && GetInt(j.fields, "id").Some? then NameAndIdAgree(s, case_, name, GetInt(j.fields, "id").value)
      else NameAgrees(s, case_, name)
    case Ok(Id(id)) => id in s.nameById ==> s.Lookup(case_, s.nameById[id]) == Some(s.nameById[id])
    case _ => true
  }

  lemma ReferenceReadsBack(s: Schema, id: int)
    requires id in s.nameById && MIN_I32 <= id <= MAX_I32
    ensures ReferenceOperand(Reference(id)) == Ok(Id(id))
    ensures Reference(id).Obj? && GetInt(Reference(id).fields, "id") == Some(id)
  {
    assert MIN_I64 <= id <= MAX_I64;
  }

  lemma NamePublishedIff(s: Schema, case_: CaseSensitivity, name: string)
    requires WellIndexed(s)
    ensures var id := IdOfName(s, name);
            && (id.Some? ==> id.value in s.nameById)
            && (s.Lookup(case_, name) == (if id.Some? then Some(s.nameById[id.value]) else None) <==>
                NameAgrees(s, case_, name))
  {
  }

  /** What a reference is published as, in terms of the indexes. */
  lemma PublishedAs(s: Schema, j: Json)
    requires WellIndexed(s)
    ensures IdReference(s, j).Ok? <==> PublishedColumn(s, j).Some?
    ensures IdReference(s, j).Ok? ==>
              exists id :: id in s.nameById && IdReference(s, j) == Ok(Reference(id))
                           && PublishedColumn(s, j) == Some(s.nameById[id])
  {
    if IdReference(s, j).Ok? {
      var id :=
        if j.Obj? && GetInt(j.fields, "id").Some? then GetInt(j.fields, "id").value
        else IdOfName(s, if j.Str? then j.s else GetStr(j.fields, "name").value).value;
      assert IdReference(s, j) == Ok(Reference(id));
      ReferenceReadsBack(s, id);
    }
  }

  /** A term is published as the very column it is planned on exactly when it agrees. */
  lemma TermAgreesIff(s: Schema, case_: CaseSensitivity, j: Json)
    requires WellIndexed(s)
    ensures PlannedColumn(s, case_, j) == PublishedColumn(s, j) <==> TermAgrees(s, case_, j)
  {
    PublishedAs(s, j);
    match ReferenceOperand(j)
    case Ok(Named(name)) =>
      if j.Obj? && GetInt(j.fields, "id").Some? {
        var id := GetInt(j.fields, "id").value;
        if id in s.nameById {
          ReferenceReadsBack(s, id);
        }
      } else {
        NamePublishedIff(s, case_, name);
        if IdOfName(s, name).Some? {
          ReferenceReadsBack(s, IdOfName(s, name).value);
        }
      }
    case Ok(Id(id)) =>
      if id in s.nameById {
        ReferenceReadsBack(s, id);
      }
    case _ =>
  }

  // ---------------------------------------------------------------------------
  // The published JSON
  // ---------------------------------------------------------------------------

  /** A term is published by id: that of its reference, or that of the column its name stands for. */
  ghost predicate StandsById(s: Schema, term: Json, id: int) {
    match term
    case Str(name) => IsIdOf(s, name, id)
    case Obj(o) =>
      && "type" in o && o["type"] == Str("reference")
      && (if "id" in o && o["id"].Int? && -0x8000_0000_0000_0000 <= o["id"].n < 0x8000_0000_0000_0000
          then o["id"].n == id && id in s.nameById && -0x8000_0000 <= id < 0x8000_0000
          else "name" in o && o["name"].Str? && IsIdOf(s, o["name"].s, id))
    case _ => false
  }

  /** The id of the column with this very name; failing that, of the one with the same folded name. */
  ghost predicate IsIdOf(s: Schema, name: string, id: int) {
    if name in s.idByName then s.idByName[name] == id
    else
      && s.fold(name) in s.folded && s.folded[s.fold(name)] in s.idByName && s.idByName[s.folded[s.fold(name)]] == id
  }

  lemma ReferenceTells(x: int, y: int)
    ensures Reference(x) == Reference(y) <==> x == y
  {
    assert Reference(x).fields["id"] == Int(x) && Reference(y).fields["id"] == Int(y);
  }

  lemma NameStandsIff(s: Schema, name: string, id: int)
    ensures NameReference(s, name) == Ok(Reference(id)) <==> IsIdOf(s, name, id)
  {
    if IdOfName(s, name).Some? {
      ReferenceTells(IdOfName(s, name).value, id);
    }
  }

  lemma StandsByIdIff(s: Schema, term: Json, id: int)
    ensures IdReference(s, term) == Ok(Reference(id)) <==> StandsById(s, term, id)
  {
    if term.Str? {
      NameStandsIff(s, term.s, id);
    } else if term.Obj? {
      if GetStr(term.fields, "name").Some? {
        NameStandsIff(s, GetStr(term.fields, "name").value, id);
      }
      if GetInt(term.fields, "id").Some? {
        ReferenceTells(GetInt(term.fields, "id").value, id);
      }
    }
  }

  /** The operators are published under their own names, their operands under one spelling. */
  lemma OperatorsArePublished(s: Schema, o: Object, name: string, term: Json, id: int, value: Json)
    requires "type" in o && o["type"] == Str(name) && StandsById(s, term, id)
    ensures var reference := Obj(map["type" := Str("reference"), "id" := Int(id)]);
            && (name in {"lt", "lt-eq", "gt", "gt-eq", "eq", "not-eq", "starts-with", "not-starts-with"}
                && GetEither(o, "left", "term") == Some(term) && GetEither(o, "right", "value") == Some(value) ==>
                  ToIdPredicate(s, Obj(o)) ==
                  Ok(Obj(map["type" := Str(name), "left" := reference, "right" := AsLiteral(value)])))
            && (name in {"is-null", "not-null", "is-nan", "not-nan"} && GetEither(o, "child", "term") == Some(term) ==>
                  ToIdPredicate(s, Obj(o)) == Ok(Obj(map["type" := Str(name), "child" := reference])))
            && (name in {"in", "not-in"} && GetEither(o, "child", "term") == Some(term)
                && Get(o, "values") == Some(value) ==>
                  ToIdPredicate(s, Obj(o)) ==
                  Ok(Obj(map["type" := Str(name), "child" := reference, "values" := value])))
  {
    StandsByIdIff(s, term, id);
    var kind := KindOf(name);
    if !kind.KAnd? && !kind.KOr? && !kind.KNot? {
      assert ToIdPredicate(s, Obj(o)) == ToIdLeaf(s, o, name, kind);
    }
  }

  /** A bare literal is published inside a literal object, and one that is there already as it is. */
  lemma LiteralsArePublished(value: Json)
    ensures AsLiteral(value) ==
            if value.Obj? && "type" in value.fields && value.fields["type"] == Str("literal") then value
            else Obj(map["type" := Str("literal"), "value" := value])
  {
  }

  /** Two filters are published as one disjunction; an unpublishable one as `false`. */
  lemma TwoFiltersArePublished(s: Schema, f: Json, g: Json)
    ensures RowFilterOf(s, []) == None
    ensures ToIdPredicate(s, f).Ok? ==> RowFilterOf(s, [f]) == Some(ToIdPredicate(s, f).value)
    ensures ToIdPredicate(s, f).Err? ==> RowFilterOf(s, [f]) == Some(Bool(false))
    ensures RowFilterOf(s, [f, g]) ==
            Some(Obj(map["type" := Str("or"), "left" := RowFilterOf(s, [f]).value,
                         "right" := RowFilterOf(s, [g]).value]))
  {
    assert [f][..0] == [] && [g][..0] == [] && [f, g][..1] == [f];
  }
}
