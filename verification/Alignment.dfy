/** When withholding files enforces a row filter exactly. */
module Alignment {

  import opened Prelude
  import opened Json
  import opened Truth
  import opened Predicate
  import opened BindingLaws

  datatype Transform = Identity | Lossy(name: string)

  datatype PartitionField = PartitionField(sourceId: int, transform: Transform)

  datatype TableMetadata = TableMetadata(schema: Schema, spec: seq<PartitionField>)

  /** The full names of the columns the table partitions on by identity. */
  function PartitionSourceColumns(m: TableMetadata): set<string> {
    set f | f in m.spec && f.transform == Identity && f.sourceId in m.schema.nameById
      :: m.schema.nameById[f.sourceId]
  }

  function UnalignedColumns(filter: Json, m: TableMetadata): set<string> {
    ReferencedColumns(m.schema, filter) - PartitionSourceColumns(m)
  }

  /** The name an operand resolves to is one of the columns of the terms it was read from. */
  lemma TermOfParsed(s: Schema, o: Object, key: string)
    ensures GetEither(o, key, "term").Some? && ReferenceOperand(GetEither(o, key, "term").value).Ok? ==>
              var resolved := Resolve(s, ReferenceOperand(GetEither(o, key, "term").value).value);
              resolved.Ok? && resolved.value.Some? ==>
                resolved.value.value in TermColumn(s, o, key) + TermColumn(s, o, "term")
  {
  }

  lemma UnaryColumns(s: Schema, case_: CaseSensitivity, positive: bool, strictness: Strictness, o: Object, op: Op,
                     p: Pred)
    requires ParseUnary(s, case_, positive, strictness, o, op) == Ok(p)
    ensures Columns(p) <= TermColumn(s, o, "child") + TermColumn(s, o, "term")
  {
    TermOfParsed(s, o, "child");
  }

  lemma CompareColumns(s: Schema, case_: CaseSensitivity, positive: bool, strictness: Strictness, o: Object, op: Op,
                       p: Pred)
    requires ParseCompare(s, case_, positive, strictness, o, op) == Ok(p)
    ensures Columns(p) <= TermColumn(s, o, "left") + TermColumn(s, o, "term")
  {
    TermOfParsed(s, o, "left");
  }

  lemma SetColumns(s: Schema, case_: CaseSensitivity, positive: bool, strictness: Strictness, o: Object, op: Op,
                   p: Pred)
    requires ParseSet(s, case_, positive, strictness, o, op) == Ok(p)
    ensures Columns(p) <= TermColumn(s, o, "child") + TermColumn(s, o, "term")
  {
    TermOfParsed(s, o, "child");
  }

  lemma LeafColumnsAreReferenced(s: Schema, case_: CaseSensitivity, positive: bool, strictness: Strictness,
                                 o: Object, kind: Kind, p: Pred)
    requires ParseLeaf(s, case_, positive, strictness, o, kind) == Ok(p)
    ensures Columns(p) <= TermColumn(s, o, "child") + TermColumn(s, o, "term") + TermColumn(s, o, "left")
  {
    match kind
    case KUnary(op) => UnaryColumns(s, case_, positive, strictness, o, op, p);
    case KCompare(op) => CompareColumns(s, case_, positive, strictness, o, op, p);
    case KSet(op) => SetColumns(s, case_, positive, strictness, o, op, p);
    case _ =>
  }

  /** Every column of a parsed predicate is one the filter is said to reference. */
  lemma {:induction false} ParsedColumnsAreReferenced(s: Schema, case_: CaseSensitivity, positive: bool,
                                                      strictness: Strictness, j: Json, p: Pred)
    requires Parse(s, case_, positive, strictness, j) == Ok(p)
    ensures Columns(p) <= ReferencedColumns(s, j)
    decreases j
  {
    if j.Obj? {
      var o := j.fields;
      var kind := KindOf(GetStr(o, "type").value);
      if kind.KAnd? || kind.KOr? {
        ParsedColumnsAreReferenced(s, case_, positive, strictness, o["left"],
                                   Parse(s, case_, positive, strictness, o["left"]).value);
        ParsedColumnsAreReferenced(s, case_, positive, strictness, o["right"],
                                   Parse(s, case_, positive, strictness, o["right"]).value);
      } else if kind.KNot? {
        var c := Parse(s, case_, !positive, strictness, o["child"]).value;
        ParsedColumnsAreReferenced(s, case_, !positive, strictness, o["child"], c);
        NegateKeepsColumns(c);
      } else {
        LeafColumnsAreReferenced(s, case_, positive, strictness, o, kind, p);
      }
    }
  }

  ghost predicate AgreeOn(columns: set<string>, row: Row, row': Row) {
    forall c :: c in columns ==> Cell(row, c) == Cell(row', c)
  }

  /**
   * The name of a partition source binds to a partition source. Always so when case matters; when it does not, a
   * column whose name differs from it only in case can capture it.
   */
  ghost predicate SourcesBind(m: TableMetadata, case_: CaseSensitivity) {
    forall c :: c in PartitionSourceColumns(m) && m.schema.Lookup(case_, c).Some? ==>
      m.schema.Lookup(case_, c).value in PartitionSourceColumns(m)
  }

  /** The rows agree on every column the table partitions on by its own value. */
  ghost predicate SamePartition(m: TableMetadata, row: Row, row': Row) {
    forall i :: 0 <= i < |m.spec| && m.spec[i].transform == Identity && m.spec[i].sourceId in m.schema.nameById ==>
      Cell(row, m.schema.nameById[m.spec[i].sourceId]) == Cell(row', m.schema.nameById[m.spec[i].sourceId])
  }

  lemma SamePartitionIff(m: TableMetadata, row: Row, row': Row)
    ensures SamePartition(m, row, row') <==> AgreeOn(PartitionSourceColumns(m), row, row')
  {
    if SamePartition(m, row, row') {
      forall c | c in PartitionSourceColumns(m) ensures Cell(row, c) == Cell(row', c) {
        var f :| f in m.spec && f.transform == Identity && f.sourceId in m.schema.nameById
                 && c == m.schema.nameById[f.sourceId];
        var i :| 0 <= i < |m.spec| && m.spec[i] == f;
      }
    }
  }

  /** A filter the table binds and the alignment check finds nothing against. */
  ghost predicate IsAligned(m: TableMetadata, case_: CaseSensitivity, filter: Json) {
    ParsePolicyPredicate(m.schema, case_, filter).Ok? && UnalignedColumns(filter, m) == {}
  }

  /** An aligned filter gives one verdict to all rows of one identity partition. */
  lemma AlignedFilterIsUniform(v: Values, m: TableMetadata, case_: CaseSensitivity, filter: Json, p: Pred, row: Row,
                               row': Row)
    requires SourcesBind(m, case_) && IsAligned(m, case_, filter)
    requires ParsePolicyPredicate(m.schema, case_, filter) == Ok(p)
    requires AgreeOn(PartitionSourceColumns(m), row, row')
    ensures Eval(v, m.schema.BindingFor(case_), p, row) == Eval(v, m.schema.BindingFor(case_), p, row')
  {
    var bind := m.schema.BindingFor(case_);
    ParsedColumnsAreReferenced(m.schema, case_, true, Bindable, filter, p);
    forall name | name in Columns(p) && bind(name).Some?
      ensures Cell(row, bind(name).value) == Cell(row', bind(name).value)
    {
      assert name in ReferencedColumns(m.schema, filter) - UnalignedColumns(filter, m);
      assert name in PartitionSourceColumns(m);
    }
    EvalDependsOnColumns(v, bind, p, row, row');
  }

  lemma NullTestAligned(v: Values, m: TableMetadata, case_: CaseSensitivity, c: string, d: string, row: Row)
    requires c in PartitionSourceColumns(m) && m.schema.Lookup(case_, c) == Some(d)
    ensures IsAligned(m, case_, NullTest(Str(c)))
    ensures var p := ParsePolicyPredicate(m.schema, case_, NullTest(Str(c))).value;
            Eval(v, m.schema.BindingFor(case_), p, row) == if Cell(row, d).None? then T else F
  {
    var o := map["type" := Str("is-null"), "child" := Str(c)];
    assert KindOf("is-null") == KUnary(IsNull);
    assert GetEither(o, "child", "term") == Some(Str(c));
    assert ParseUnary(m.schema, case_, true, Bindable, o, IsNull) == Ok(Atom(IsNull, c, []));
    assert TermColumn(m.schema, o, "child") == {c} && TermColumn(m.schema, o, "term") == {}
           && TermColumn(m.schema, o, "left") == {};
    assert ReferencedColumns(m.schema, Obj(o)) == {c};
  }

  /** A captured partition source: a filter on it passes the check and tells rows of one partition apart. */
  lemma CapturedSourceIsNotUniform(v: Values, m: TableMetadata, case_: CaseSensitivity)
    returns (filter: Json, row: Row, row': Row)
    requires !SourcesBind(m, case_)
    ensures IsAligned(m, case_, filter) && AgreeOn(PartitionSourceColumns(m), row, row')
    ensures var p := ParsePolicyPredicate(m.schema, case_, filter).value;
            Eval(v, m.schema.BindingFor(case_), p, row) != Eval(v, m.schema.BindingFor(case_), p, row')
  {
    var c :| c in PartitionSourceColumns(m) && m.schema.Lookup(case_, c).Some?
             && m.schema.Lookup(case_, c).value !in PartitionSourceColumns(m);
    var d := m.schema.Lookup(case_, c).value;
    filter, row, row' := NullTest(Str(c)), map[], map[d := Some(BoolDatum(true))];
    NullTestAligned(v, m, case_, c, d, row);
    NullTestAligned(v, m, case_, c, d, row');
  }

  lemma SensitiveSourcesBind(m: TableMetadata)
    ensures SourcesBind(m, Sensitive)
  {
  }

  // ---------------------------------------------------------------------------
  // Files
  // ---------------------------------------------------------------------------

  type DataFile = seq<Row>

  /** All rows of a file carry the file's identity partition values. */
  ghost predicate Partitioned(m: TableMetadata, file: DataFile) {
    forall i, k :: 0 <= i < |file| && 0 <= k < |file| ==> SamePartition(m, file[i], file[k])
  }

  function RowsOf(files: seq<DataFile>): seq<Row> {
    if files == [] then [] else files[0] + RowsOf(files[1..])
  }

  function Keep<A>(f: A -> bool, items: seq<A>): seq<A> {
    if items == [] then [] else (if f(items[0]) then [items[0]] else []) + Keep(f, items[1..])
  }

  function Permitted(v: Values, bind: Binding, p: Pred, rows: seq<Row>): seq<Row> {
    Keep((row: Row) => Eval(v, bind, p, row) == T, rows)
  }

  /** The files delivered when a file is judged by its first row. */
  function Delivered(v: Values, bind: Binding, p: Pred, files: seq<DataFile>): seq<DataFile> {
    if files == [] then []
    else
      (if files[0] != [] && Eval(v, bind, p, files[0][0]) == T then [files[0]] else [])
      + Delivered(v, bind, p, files[1..])
  }

  lemma {:induction false} KeepConcat<A>(f: A -> bool, a: seq<A>, b: seq<A>)
    ensures Keep(f, a + b) == Keep(f, a) + Keep(f, b)
  {
    if a == [] {
      assert a + b == b;
    } else {
      KeepConcat(f, a[1..], b);
      assert (a + b)[1..] == a[1..] + b && (a + b)[0] == a[0];
      var head := if f(a[0]) then [a[0]] else [];
      assert head + (Keep(f, a[1..]) + Keep(f, b)) == head + Keep(f, a[1..]) + Keep(f, b);
    }
  }

  lemma {:induction false} KeepUniform<A>(f: A -> bool, items: seq<A>, verdict: bool)
    requires forall i :: 0 <= i < |items| ==> f(items[i]) == verdict
    ensures Keep(f, items) == if verdict then items else []
  {
    if items != [] {
      KeepUniform(f, items[1..], verdict);
      assert items == [items[0]] + items[1..];
    }
  }

  lemma PermittedConcat(v: Values, bind: Binding, p: Pred, a: seq<Row>, b: seq<Row>)
    ensures Permitted(v, bind, p, a + b) == Permitted(v, bind, p, a) + Permitted(v, bind, p, b)
  {
    KeepConcat((row: Row) => Eval(v, bind, p, row) == T, a, b);
  }

  lemma UniformFile(v: Values, bind: Binding, p: Pred, rows: seq<Row>, verdict: bool)
    requires forall i :: 0 <= i < |rows| ==> (Eval(v, bind, p, rows[i]) == T) == verdict
    ensures Permitted(v, bind, p, rows) == if verdict then rows else []
  {
    KeepUniform((row: Row) => Eval(v, bind, p, row) == T, rows, verdict);
  }

  lemma {:induction false} RowsOfConcat(a: seq<DataFile>, b: seq<DataFile>)
    ensures RowsOf(a + b) == RowsOf(a) + RowsOf(b)
  {
    if a == [] {
      assert a + b == b;
    } else {
      RowsOfConcat(a[1..], b);
      assert (a + b)[1..] == a[1..] + b && (a + b)[0] == a[0];
      assert a[0] + (RowsOf(a[1..]) + RowsOf(b)) == a[0] + RowsOf(a[1..]) + RowsOf(b);
    }
  }

  lemma JudgedFile(v: Values, m: TableMetadata, case_: CaseSensitivity, filter: Json, p: Pred, file: DataFile)
    requires SourcesBind(m, case_) && IsAligned(m, case_, filter) && Partitioned(m, file)
    requires ParsePolicyPredicate(m.schema, case_, filter) == Ok(p)
    ensures var bind := m.schema.BindingFor(case_);
            Permitted(v, bind, p, file) == if file != [] && Eval(v, bind, p, file[0]) == T then file else []
  {
    var bind := m.schema.BindingFor(case_);
    if file != [] {
      forall i | 0 <= i < |file| ensures Eval(v, bind, p, file[i]) == Eval(v, bind, p, file[0]) {
        SamePartitionIff(m, file[i], file[0]);
        AlignedFilterIsUniform(v, m, case_, filter, p, file[i], file[0]);
      }
      UniformFile(v, bind, p, file, Eval(v, bind, p, file[0]) == T);
    }
  }

  /**
   * With no unaligned column, withholding whole files delivers exactly the permitted rows:
   * none is missing and none is added.
   */
  lemma {:induction false} AlignmentIsExactEnforcement(v: Values, m: TableMetadata, case_: CaseSensitivity,
                                                       filter: Json, p: Pred, files: seq<DataFile>)
    requires SourcesBind(m, case_) && IsAligned(m, case_, filter)
    requires ParsePolicyPredicate(m.schema, case_, filter) == Ok(p)
    requires forall i :: 0 <= i < |files| ==> Partitioned(m, files[i])
    ensures var bind := m.schema.BindingFor(case_);
            RowsOf(Delivered(v, bind, p, files)) == Permitted(v, bind, p, RowsOf(files))
  {
    if files != [] {
      var bind := m.schema.BindingFor(case_);
      AlignmentIsExactEnforcement(v, m, case_, filter, p, files[1..]);
      JudgedFile(v, m, case_, filter, p, files[0]);
      PermittedConcat(v, bind, p, files[0], RowsOf(files[1..]));
      var kept := if files[0] != [] && Eval(v, bind, p, files[0][0]) == T then [files[0]] else [];
      RowsOfConcat(kept, Delivered(v, bind, p, files[1..]));
      assert RowsOf(kept) == Permitted(v, bind, p, files[0]) by {
        assert RowsOf([files[0]]) == files[0] + RowsOf([files[0]][1..]);
      }
    }
  }

  // ---------------------------------------------------------------------------
  // Exactly the columns the check names
  // ---------------------------------------------------------------------------

  /** The term is written with this column's full name, or with its id. */
  ghost predicate WritesColumn(s: Schema, term: Json, column: string) {
    match term
    case Str(name) => name == column
    case Obj(o) =>
      && "type" in o && o["type"] == Str("reference")
      && if "name" in o && o["name"].Str? then o["name"] == Str(column)
         else
           && "id" in o && o["id"].Int? && -0x8000_0000 <= o["id"].n < 0x8000_0000
           && o["id"].n in s.nameById && s.nameById[o["id"].n] == column
    case _ => false
  }

  /** Some operator of the filter has a term written with the column. */
  ghost predicate Mentions(s: Schema, j: Json, column: string)
    decreases j
  {
    match j
    case Obj(o) =>
      && "type" in o && o["type"].Str?
      && (if o["type"].s in {"and", "or"} then
            ("left" in o && Mentions(s, o["left"], column)) || ("right" in o && Mentions(s, o["right"], column))
          else if o["type"].s == "not" then "child" in o && Mentions(s, o["child"], column)
          else
            || ("child" in o && WritesColumn(s, o["child"], column))
              || ("term" in o && WritesColumn(s, o["term"], column))
            || ("left" in o && WritesColumn(s, o["left"], column)))
    case _ => false
  }

  lemma TermColumnIff(s: Schema, o: Object, key: string, column: string)
    ensures column in TermColumn(s, o, key) <==> key in o && WritesColumn(s, o[key], column)
  {
    if key in o && o[key].Obj? && "id" in o[key].fields && o[key].fields["id"].Int? {
      assert -0x8000_0000 <= o[key].fields["id"].n < 0x8000_0000 ==>
             GetInt(o[key].fields, "id") == Some(o[key].fields["id"].n);
    }
  }

  lemma {:induction false} ReferencedIff(s: Schema, j: Json, column: string)
    ensures column in ReferencedColumns(s, j) <==> Mentions(s, j, column)
    decreases j
  {
    if j.Obj? && GetStr(j.fields, "type").Some? {
      var o := j.fields;
      var name := o["type"].s;
      if name == "and" || name == "or" {
        if "left" in o {
          ReferencedIff(s, o["left"], column);
        }
        if "right" in o {
          ReferencedIff(s, o["right"], column);
        }
      } else if name == "not" {
        if "child" in o {
          ReferencedIff(s, o["child"], column);
        }
      } else {
        TermColumnIff(s, o, "child", column);
        TermColumnIff(s, o, "term", column);
        TermColumnIff(s, o, "left", column);
      }
    }
  }

  /** A column is unaligned exactly when the filter mentions it and no identity field of the table partitions on it. */
  lemma UnalignedIff(m: TableMetadata, filter: Json, column: string)
    ensures column in UnalignedColumns(filter, m) <==>
            && Mentions(m.schema, filter, column)
            && !exists i :: 0 <= i < |m.spec| && m.spec[i].transform == Identity
                            && m.spec[i].sourceId in m.schema.nameById
                            && m.schema.nameById[m.spec[i].sourceId] == column
  {
    ReferencedIff(m.schema, filter, column);
    if i :| 0 <= i < |m.spec| && m.spec[i].transform == Identity && m.spec[i].sourceId in m.schema.nameById
            && m.schema.nameById[m.spec[i].sourceId] == column {
      assert m.spec[i] in m.spec;
    }
  }
}
