/** A table's location over any run of create, register, commit, rename and drop. */
module Lifecycle {

  import opened Prelude
  import opened Text
  import opened Location
  import opened LocationLaws
  import opened Names
  import opened Layout
  import opened LayoutLaws
  import opened MetadataLaws
  import opened Bound
  import opened Assigned

  datatype Ident = Ident(namespace: seq<string>, name: string)
  {
    function Path(): seq<string> {
      ResourcePath(namespace, name)
    }
  }

  /**
   * A table's metadata, and every name it has had, newest last. The registry keeps only the
   * newest; the others are history the invariants speak about.
   */
  datatype TableRecord = TableRecord(location: string, files: set<string>, names: seq<Ident>)

  datatype Catalog = Catalog(scope: LocationScope, warehouse: string, tables: map<Ident, TableRecord>)
  {
    function BoundOf(ident: Ident): LocationBound {
      LocationBound.New(scope, warehouse, NamespacePrefix(warehouse, ident.namespace), ident.name)
    }
  }

  datatype Step =
    | Create(ident: Ident, location: Option<string>)
    | Register(ident: Ident, declared: string)
    | Commit(ident: Ident, updates: seq<TableUpdate>)
    | Rename(src: Ident, dest: Ident)
    | Drop(ident: Ident)

  datatype Refusal = BadName | Taken | NotFound | BadLocation(error: BoundError)

  predicate ValidIdent(u: Unicode, ident: Ident) {
    ValidateNamespace(u, ident.namespace).Ok? && ValidateName(u, ident.name).Ok?
  }

  /** Updates apply in order, so the last `SetLocation` is the table's new location. */
  function Moved(location: string, updates: seq<TableUpdate>): string
    decreases |updates|
  {
    if updates == [] then location
    else Moved(if updates[0].SetLocation? then updates[0].location else location, updates[1..])
  }

  /** The files a commit adds to the table's metadata. */
  function Recorded(updates: seq<TableUpdate>): set<string> {
    if updates == [] then {}
    else
      FilesOf(updates[0]) + Recorded(updates[1..])
  }

  function FilesOf(update: TableUpdate): set<string> {
    match update
    case AddSnapshot(path) => {path}
    case SetStatistics(path) => {path}
    case SetPartitionStatistics(path) => {path}
    case _ => {}
  }

  function Apply(u: Unicode, c: Catalog, step: Step): Result<Catalog, Refusal> {
    match step
    case Create(ident, location) =>
      if !ValidIdent(u, ident) then Err(BadName)
      else if location.Some? && c.BoundOf(ident).Ensure(location.value).Err?
      then Err(BadLocation(c.BoundOf(ident).Ensure(location.value).error))
      else if ident in c.tables then Err(Taken)
      else
        var chosen := location.GetOr(AssignedLocation(c.warehouse, ident.namespace, ident.name));
        Ok(c.(tables := c.tables[ident := TableRecord(chosen, {}, [ident])]))
    case Register(ident, declared) =>
      if !ValidIdent(u, ident) then Err(BadName)
      else if ident in c.tables then Err(Taken)
      else if c.BoundOf(ident).EnsureIceberg(declared).Err?
      then Err(BadLocation(c.BoundOf(ident).EnsureIceberg(declared).error))
      else Ok(c.(tables := c.tables[ident := TableRecord(declared, {}, [ident])]))
    case Commit(ident, updates) =>
      if ident !in c.tables then Err(NotFound)
      else
        var t := c.tables[ident];
        var checked := c.BoundOf(ident).EnsureCommit(t.location, updates);
        if checked.Err? then Err(BadLocation(checked.error))
        else
          Ok(c.(tables := c.tables[ident := t.(location := Moved(t.location, updates),
                                               files := t.files + Recorded(updates))]))
    case Rename(src, dest) =>
      if src == dest then Ok(c)
      else if !ValidIdent(u, dest) then Err(BadName)
      else if src !in c.tables then Err(NotFound)
      else if dest in c.tables then Err(Taken)
      else
        var t := c.tables[src];
        Ok(c.(tables := (c.tables - {src})[dest := t.(names := t.names + [dest])]))
    case Drop(ident) =>
      if ident !in c.tables then Err(NotFound) else Ok(c.(tables := c.tables - {ident}))
  }

  /** A refused step changes nothing. */
  function After(u: Unicode, c: Catalog, step: Step): Catalog {
    match Apply(u, c, step)
    case Ok(next) => next
    case Err(_) => c
  }

  function Run(u: Unicode, c: Catalog, steps: seq<Step>): Catalog
    decreases |steps|
  {
    if steps == [] then c
    else After(u, Run(u, c, steps[..|steps| - 1]), steps[|steps| - 1])
  }

  // ---------------------------------------------------------------------------
  // Every location and file stays inside a bound the table has held
  // ---------------------------------------------------------------------------

  /** `location` is inside the bound of one of `names`. */
  ghost predicate Held(c: Catalog, names: seq<Ident>, location: string) {
    exists i :: 0 <= i < |names| && IsWithin(c.BoundOf(names[i]).root, location)
  }

  ghost predicate AllHeld(c: Catalog, names: seq<Ident>, paths: set<string>) {
    forall p :: p in paths ==> Held(c, names, p)
  }

  ghost predicate NamedWell(u: Unicode, ident: Ident, names: seq<Ident>) {
    names != [] && names[|names| - 1] == ident && forall i :: 0 <= i < |names| ==> ValidIdent(u, names[i])
  }

  ghost predicate GoodRecord(u: Unicode, c: Catalog, ident: Ident, t: TableRecord) {
    && NamedWell(u, ident, t.names)
    && Held(c, t.names, t.location) && AllHeld(c, t.names, t.files)
  }

  ghost predicate Invariant(u: Unicode, c: Catalog) {
    forall ident :: ident in c.tables ==> GoodRecord(u, c, ident, c.tables[ident])
  }

  /** The warehouse is one whose own default locations pass the bound of its scope. */
  predicate SoundWarehouse(c: Catalog) {
    match c.scope
    case TableScope => TraversalFree(c.warehouse) && DefaultPassesBound(c.warehouse)
    case WarehouseScope => NoTraversal(c.warehouse) && AppendKeepsPlace(c.warehouse)
  }

  lemma ValidIdentIsPath(u: Unicode, ident: Ident)
    requires u.Covers() && ValidIdent(u, ident)
    ensures ident.namespace != [] && PathSegments(ident.namespace) && PathSegments(ident.Path())
  {
    ValidNamespaceIsSegments(u, ident.namespace);
    ValidNameIsOneSegment(u, ident.name);
  }

  lemma AssignedIsHeld(u: Unicode, c: Catalog, ident: Ident)
    requires u.Covers() && ValidIdent(u, ident) && SoundWarehouse(c)
    ensures IsWithin(c.BoundOf(ident).root, AssignedLocation(c.warehouse, ident.namespace, ident.name))
  {
    ValidIdentIsPath(u, ident);
    match c.scope
    case TableScope =>
      BoundIsCanonicalPrefix(c.warehouse, ident.namespace, ident.name);
      AssignedPassesBoundIff(c.warehouse, ident.namespace, ident.name);
    case WarehouseScope =>
      AssignedIsLevels(c.warehouse, ident.namespace, ident.name);
      LevelsInside(c.warehouse, ident.Path());
  }

  lemma HeldBelow(c: Catalog, names: seq<Ident>, location: string, file: string)
    requires Held(c, names, location) && IsWithin(location, file)
    ensures Held(c, names, file)
  {
    var i :| 0 <= i < |names| && IsWithin(c.BoundOf(names[i]).root, location);
    WithinIsTransitive(c.BoundOf(names[i]).root, location, file);
  }

  /** Where an accepted update may put the path it carries. */
  lemma AcceptedUpdatePath(bound: LocationBound, current: string, update: TableUpdate, path: string)
    requires bound.EnsureUpdate(current, update).Ok?
    requires path in FilesOf(update) || update == SetLocation(path)
    ensures IsWithin(current, path) || (update.SetLocation? && IsWithin(bound.root, path))
  {
  }

  lemma AcceptedPathIsHeld(c: Catalog, names: seq<Ident>, bound: LocationBound, current: string, path: string)
    requires names != [] && Held(c, names, current) && c.BoundOf(names[|names| - 1]) == bound
    requires IsWithin(current, path) || IsWithin(bound.root, path)
    ensures Held(c, names, path)
  {
    if IsWithin(current, path) {
      HeldBelow(c, names, current, path);
    }
  }

  lemma AcceptedUpdateIsHeld(c: Catalog, names: seq<Ident>, bound: LocationBound, current: string,
                             update: TableUpdate, path: string)
    requires names != [] && Held(c, names, current) && c.BoundOf(names[|names| - 1]) == bound
    requires bound.EnsureUpdate(current, update).Ok?
    requires path in FilesOf(update) || update == SetLocation(path)
    ensures Held(c, names, path)
  {
    AcceptedUpdatePath(bound, current, update, path);
    AcceptedPathIsHeld(c, names, bound, current, path);
  }

  lemma {:induction false} AcceptedCommitIsHeld(c: Catalog, names: seq<Ident>, bound: LocationBound, current: string,
                                                location: string, updates: seq<TableUpdate>)
    requires names != [] && Held(c, names, current) && Held(c, names, location)
    requires c.BoundOf(names[|names| - 1]) == bound && bound.EnsureCommit(current, updates).Ok?
    ensures Held(c, names, Moved(location, updates))
    ensures AllHeld(c, names, Recorded(updates))
    decreases |updates|
  {
    if updates != [] {
      if updates[0].SetLocation? {
        AcceptedUpdateIsHeld(c, names, bound, current, updates[0], updates[0].location);
      }
      forall f | f in FilesOf(updates[0]) ensures Held(c, names, f) {
        AcceptedUpdateIsHeld(c, names, bound, current, updates[0], f);
      }
      AcceptedCommitIsHeld(c, names, bound, current,
                           if updates[0].SetLocation? then updates[0].location else location, updates[1..]);
    }
  }

  lemma HeldByMore(c: Catalog, names: seq<Ident>, dest: Ident, location: string)
    requires Held(c, names, location)
    ensures Held(c, names + [dest], location)
  {
    var i :| 0 <= i < |names| && IsWithin(c.BoundOf(names[i]).root, location);
    assert (names + [dest])[i] == names[i];
  }

  /** Held depends on the scope and the warehouse, which no step changes. */
  lemma StepKeepsSetting(u: Unicode, c: Catalog, step: Step)
    ensures After(u, c, step).scope == c.scope && After(u, c, step).warehouse == c.warehouse
  {
  }

  lemma HeldInAnySetting(c: Catalog, d: Catalog, names: seq<Ident>, location: string)
    requires c.scope == d.scope && c.warehouse == d.warehouse && Held(c, names, location)
    ensures Held(d, names, location)
  {
    var i :| 0 <= i < |names| && IsWithin(c.BoundOf(names[i]).root, location);
    assert d.BoundOf(names[i]) == c.BoundOf(names[i]);
  }

  lemma NewRecordIsGood(u: Unicode, c: Catalog, ident: Ident, location: string)
    requires ValidIdent(u, ident) && IsWithin(c.BoundOf(ident).root, location)
    ensures GoodRecord(u, c, ident, TableRecord(location, {}, [ident]))
  {
    assert IsWithin(c.BoundOf([ident][0]).root, location);
  }

  lemma RenamedRecordIsGood(u: Unicode, c: Catalog, src: Ident, t: TableRecord, dest: Ident)
    requires GoodRecord(u, c, src, t) && ValidIdent(u, dest)
    ensures GoodRecord(u, c, dest, t.(names := t.names + [dest]))
  {
    HeldByMore(c, t.names, dest, t.location);
    forall f | f in t.files ensures Held(c, t.names + [dest], f) {
      HeldByMore(c, t.names, dest, f);
    }
  }

  lemma RecordInSetting(u: Unicode, c: Catalog, d: Catalog, ident: Ident, t: TableRecord)
    requires c.scope == d.scope && c.warehouse == d.warehouse && GoodRecord(u, c, ident, t)
    ensures GoodRecord(u, d, ident, t)
  {
    HeldInAnySetting(c, d, t.names, t.location);
    forall f | f in t.files ensures Held(d, t.names, f) {
      HeldInAnySetting(c, d, t.names, f);
    }
  }

  lemma CreatedRecordIsGood(u: Unicode, c: Catalog, ident: Ident, location: Option<string>)
    requires u.Covers() && SoundWarehouse(c) && Apply(u, c, Create(ident, location)).Ok?
    ensures GoodRecord(u, c, ident, After(u, c, Create(ident, location)).tables[ident])
  {
    match location
    case None =>
      AssignedIsHeld(u, c, ident);
      NewRecordIsGood(u, c, ident, AssignedLocation(c.warehouse, ident.namespace, ident.name));
    case Some(l) =>
      NewRecordIsGood(u, c, ident, l);
  }

  lemma RegisteredRecordIsGood(u: Unicode, c: Catalog, ident: Ident, declared: string)
    requires Apply(u, c, Register(ident, declared)).Ok?
    ensures GoodRecord(u, c, ident, After(u, c, Register(ident, declared)).tables[ident])
  {
    NewRecordIsGood(u, c, ident, declared);
  }

  /** What an accepted commit leaves. */
  lemma AcceptedCommitLeaves(u: Unicode, c: Catalog, ident: Ident, updates: seq<TableUpdate>)
    requires Apply(u, c, Commit(ident, updates)).Ok?
    ensures ident in c.tables
    ensures var t := c.tables[ident];
            After(u, c, Commit(ident, updates)).tables ==
            c.tables[ident := TableRecord(Moved(t.location, updates), t.files + Recorded(updates), t.names)]
  {
  }

  /** What an accepted commit was checked for. */
  lemma AcceptedCommitHolds(u: Unicode, c: Catalog, ident: Ident, updates: seq<TableUpdate>)
    requires Apply(u, c, Commit(ident, updates)).Ok? && ident in c.tables && GoodRecord(u, c, ident, c.tables[ident])
    ensures var t := c.tables[ident];
            Held(c, t.names, Moved(t.location, updates)) && AllHeld(c, t.names, Recorded(updates))
  {
    var t := c.tables[ident];
    CommittedPathsAreHeld(c, ident, t.names, c.BoundOf(ident), t.location, updates);
  }

  lemma CommittedPathsAreHeld(c: Catalog, ident: Ident, names: seq<Ident>, bound: LocationBound, location: string,
                              updates: seq<TableUpdate>)
    requires names != [] && names[|names| - 1] == ident && Held(c, names, location)
    requires c.BoundOf(ident) == bound && bound.EnsureCommit(location, updates).Ok?
    ensures Held(c, names, Moved(location, updates)) && AllHeld(c, names, Recorded(updates))
  {
    AcceptedCommitIsHeld(c, names, bound, location, location, updates);
  }

  lemma GoodWithMore(u: Unicode, c: Catalog, ident: Ident, t: TableRecord, location: string, files: set<string>)
    requires GoodRecord(u, c, ident, t) && Held(c, t.names, location) && AllHeld(c, t.names, files)
    ensures GoodRecord(u, c, ident, TableRecord(location, t.files + files, t.names))
  {
    MoreHeld(c, t.names, t.files, files);
  }

  lemma MoreHeld(c: Catalog, names: seq<Ident>, files: set<string>, more: set<string>)
    requires AllHeld(c, names, files) && AllHeld(c, names, more)
    ensures AllHeld(c, names, files + more)
  {
  }

  lemma CommittedRecordIsGood(u: Unicode, c: Catalog, ident: Ident, updates: seq<TableUpdate>)
    requires Apply(u, c, Commit(ident, updates)).Ok? && ident in c.tables && GoodRecord(u, c, ident, c.tables[ident])
    ensures GoodRecord(u, c, ident, After(u, c, Commit(ident, updates)).tables[ident])
  {
    var t := c.tables[ident];
    AcceptedCommitLeaves(u, c, ident, updates);
    AcceptedCommitHolds(u, c, ident, updates);
    GoodWithMore(u, c, ident, t, Moved(t.location, updates), Recorded(updates));
  }

  /** The one name a step writes a record under. */
  function Subject(step: Step): Ident {
    match step
    case Create(ident, _) => ident
    case Register(ident, _) => ident
    case Commit(ident, _) => ident
    case Rename(_, dest) => dest
    case Drop(ident) => ident
  }

  lemma OthersUntouched(u: Unicode, c: Catalog, step: Step, ident: Ident)
    requires ident in After(u, c, step).tables && ident != Subject(step)
    ensures ident in c.tables && After(u, c, step).tables[ident] == c.tables[ident]
  {
  }

  lemma AcceptedRename(u: Unicode, c: Catalog, src: Ident, dest: Ident)
    requires Apply(u, c, Rename(src, dest)).Ok? && src != dest
    ensures src in c.tables && ValidIdent(u, dest)
    ensures After(u, c, Rename(src, dest)).tables ==
            (c.tables - {src})[dest := c.tables[src].(names := c.tables[src].names + [dest])]
  {
  }

  lemma DroppedIsGone(u: Unicode, c: Catalog, ident: Ident)
    ensures ident !in After(u, c, Drop(ident)).tables
  {
  }

  /** Every record after an accepted step was there before, or is good by the check the step passed. */
  lemma RecordAfterStep(u: Unicode, c: Catalog, step: Step, ident: Ident)
    requires u.Covers() && SoundWarehouse(c) && Invariant(u, c)
    requires Apply(u, c, step).Ok? && ident in After(u, c, step).tables
    ensures GoodRecord(u, c, ident, After(u, c, step).tables[ident])
  {
    if ident != Subject(step) {
      OthersUntouched(u, c, step, ident);
    } else {
      SubjectAfterStep(u, c, step);
    }
  }

  lemma SubjectAfterStep(u: Unicode, c: Catalog, step: Step)
    requires u.Covers() && SoundWarehouse(c) && Invariant(u, c)
    requires Apply(u, c, step).Ok? && Subject(step) in After(u, c, step).tables
    ensures GoodRecord(u, c, Subject(step), After(u, c, step).tables[Subject(step)])
  {
    if step.Create? {
      CreatedRecordIsGood(u, c, step.ident, step.location);
    } else if step.Register? {
      RegisteredRecordIsGood(u, c, step.ident, step.declared);
    } else if step.Commit? {
      CommittedRecordIsGood(u, c, step.ident, step.updates);
    } else if step.Rename? && step.src != step.dest {
      AcceptedRename(u, c, step.src, step.dest);
      RenamedRecordIsGood(u, c, step.src, c.tables[step.src], step.dest);
    } else if step.Drop? {
      DroppedIsGone(u, c, step.ident);
    }
  }

  lemma StepKeepsInvariant(u: Unicode, c: Catalog, step: Step)
    requires u.Covers() && SoundWarehouse(c) && Invariant(u, c)
    ensures Invariant(u, After(u, c, step)) && SoundWarehouse(After(u, c, step))
  {
    StepKeepsSetting(u, c, step);
    if Apply(u, c, step).Ok? {
      var d := After(u, c, step);
      forall ident | ident in d.tables ensures GoodRecord(u, d, ident, d.tables[ident]) {
        RecordAfterStep(u, c, step, ident);
        RecordInSetting(u, c, d, ident, d.tables[ident]);
      }
    }
  }

  function Empty(scope: LocationScope, warehouse: string): Catalog {
    Catalog(scope, warehouse, map[])
  }

  /** Over any run, every table's location and every file its commits recorded is inside a bound it has held. */
  lemma {:induction false} RunKeepsTablesHeld(u: Unicode, scope: LocationScope, warehouse: string, steps: seq<Step>)
    requires u.Covers() && SoundWarehouse(Empty(scope, warehouse))
    ensures var c := Run(u, Empty(scope, warehouse), steps);
            Invariant(u, c) && SoundWarehouse(c) && c.scope == scope && c.warehouse == warehouse
    decreases |steps|
  {
    if steps != [] {
      var before := steps[..|steps| - 1];
      RunKeepsTablesHeld(u, scope, warehouse, before);
      StepKeepsInvariant(u, Run(u, Empty(scope, warehouse), before), steps[|steps| - 1]);
      StepKeepsSetting(u, Run(u, Empty(scope, warehouse), before), steps[|steps| - 1]);
    }
  }

  // ---------------------------------------------------------------------------
  // Disjointness of tables
  // ---------------------------------------------------------------------------

  /** No name one table has had starts, as a path, with a name the other has had. */
  ghost predicate NamesApart(p: seq<Ident>, q: seq<Ident>) {
    forall i, j :: 0 <= i < |p| && 0 <= j < |q| ==>
      !(p[i].Path() <= q[j].Path()) && !(q[j].Path() <= p[i].Path())
  }

  /** Over any run in table scope, tables whose names were always apart share no location. */
  lemma ApartTablesShareNothing(u: Unicode, warehouse: string, steps: seq<Step>, a: Ident, b: Ident, location: string)
    requires u.Covers() && SoundWarehouse(Empty(TableScope, warehouse))
    requires var c := Run(u, Empty(TableScope, warehouse), steps);
             a in c.tables && b in c.tables && NamesApart(c.tables[a].names, c.tables[b].names)
    ensures var c := Run(u, Empty(TableScope, warehouse), steps);
            !(Held(c, c.tables[a].names, location) && Held(c, c.tables[b].names, location))
  {
    RunKeepsTablesHeld(u, TableScope, warehouse, steps);
    var c := Run(u, Empty(TableScope, warehouse), steps);
    var p, q := c.tables[a].names, c.tables[b].names;
    if Held(c, p, location) && Held(c, q, location) {
      var i :| 0 <= i < |p| && IsWithin(c.BoundOf(p[i]).root, location);
      var j :| 0 <= j < |q| && IsWithin(c.BoundOf(q[j]).root, location);
      HeldByBothAreNested(u, c, p[i], q[j], location);
    }
  }

  lemma HeldByBothAreNested(u: Unicode, c: Catalog, a: Ident, b: Ident, location: string)
    requires u.Covers() && c.scope == TableScope && TraversalFree(c.warehouse)
    requires ValidIdent(u, a) && ValidIdent(u, b)
    requires IsWithin(c.BoundOf(a).root, location) && IsWithin(c.BoundOf(b).root, location)
    ensures a.Path() <= b.Path() || b.Path() <= a.Path()
  {
    ValidIdentIsPath(u, a);
    ValidIdentIsPath(u, b);
    BoundIsCanonicalPrefix(c.warehouse, a.namespace, a.name);
    BoundIsCanonicalPrefix(c.warehouse, b.namespace, b.name);
    ResourcesOverlapIff(c.warehouse, a.namespace, a.name, b.namespace, b.name);
  }

  /** A purge of one table leaves a table with names apart from it whole: no path it may delete is the other's. */
  lemma PurgeSparesApartTables(u: Unicode, warehouse: string, steps: seq<Step>, a: Ident, b: Ident, path: string)
    requires u.Covers() && SoundWarehouse(Empty(TableScope, warehouse))
    requires var c := Run(u, Empty(TableScope, warehouse), steps);
             && a in c.tables && b in c.tables && NamesApart(c.tables[a].names, c.tables[b].names)
             && IsWithin(c.tables[a].location, path)
    ensures var c := Run(u, Empty(TableScope, warehouse), steps);
            !IsWithin(c.tables[b].location, path) && path !in c.tables[b].files
  {
    RunKeepsTablesHeld(u, TableScope, warehouse, steps);
    var c := Run(u, Empty(TableScope, warehouse), steps);
    HeldBelow(c, c.tables[a].names, c.tables[a].location, path);
    ApartTablesShareNothing(u, warehouse, steps, a, b, path);
    if IsWithin(c.tables[b].location, path) {
      HeldBelow(c, c.tables[b].names, c.tables[b].location, path);
    }
  }

  // ---------------------------------------------------------------------------
  // What each step does to the catalog
  // ---------------------------------------------------------------------------

  lemma {:induction false} Unmoved(location: string, updates: seq<TableUpdate>)
    requires forall i :: 0 <= i < |updates| ==> !updates[i].SetLocation?
    ensures Moved(location, updates) == location
    decreases |updates|
  {
    if updates != [] {
      Unmoved(location, updates[1..]);
    }
  }

  /** The last location the updates set, or, as above, the one before them. */
  lemma {:induction false} MovedIs(location: string, updates: seq<TableUpdate>, i: nat)
    requires i < |updates| && updates[i].SetLocation? && forall k :: i < k < |updates| ==> !updates[k].SetLocation?
    ensures Moved(location, updates) == updates[i].location
    decreases |updates|
  {
    var next := if updates[0].SetLocation? then updates[0].location else location;
    if i > 0 {
      MovedIs(next, updates[1..], i - 1);
    } else {
      Unmoved(next, updates[1..]);
    }
  }

  lemma {:induction false} RecordedIs(updates: seq<TableUpdate>, path: string)
    ensures path in Recorded(updates) <==> exists i :: 0 <= i < |updates| && NamesFile(updates[i], path)
  {
    if updates != [] {
      RecordedIs(updates[1..], path);
      assert updates == [updates[0]] + updates[1..];
      if i :| 0 <= i < |updates| && NamesFile(updates[i], path) {
        assert i > 0 ==> updates[1..][i - 1] == updates[i];
      }
      if i :| 0 <= i < |updates[1..]| && NamesFile(updates[1..][i], path) {
        assert updates[i + 1] == updates[1..][i];
      }
    }
  }

  /** A name is created once, under a valid name and at a location of its bound, or at its default. */
  lemma CreateIs(u: Unicode, c: Catalog, ident: Ident, location: Option<string>)
    ensures Apply(u, c, Create(ident, location)).Ok? <==>
            && ValidIdent(u, ident) && ident !in c.tables
            && (location.Some? ==> c.BoundOf(ident).Ensure(location.value).Ok?)
    ensures Apply(u, c, Create(ident, location)).Ok? ==>
              var at := if location.Some? then location.value
                        else c.warehouse + "/" + Join(ident.namespace, '/') + "/" + ident.name;
              Apply(u, c, Create(ident, location)).value ==
              Catalog(c.scope, c.warehouse, c.tables[ident := TableRecord(at, {}, [ident])])
  {
  }

  lemma RegisterIs(u: Unicode, c: Catalog, ident: Ident, declared: string)
    ensures Apply(u, c, Register(ident, declared)).Ok? <==>
            ValidIdent(u, ident) && ident !in c.tables && IsWithin(c.BoundOf(ident).root, declared)
    ensures Apply(u, c, Register(ident, declared)).Ok? ==>
              Apply(u, c, Register(ident, declared)).value ==
              Catalog(c.scope, c.warehouse, c.tables[ident := TableRecord(declared, {}, [ident])])
  {
  }

  /** A commit changes one table: its location as the updates leave it, and its files by those they name. */
  lemma CommitIs(u: Unicode, c: Catalog, ident: Ident, updates: seq<TableUpdate>)
    ensures Apply(u, c, Commit(ident, updates)).Ok? <==>
            ident in c.tables
            && forall i :: 0 <= i < |updates| ==>
                 MayUpdate(c.BoundOf(ident).root, c.tables[ident].location, updates[i])
    ensures Apply(u, c, Commit(ident, updates)).Ok? ==>
              var next := Apply(u, c, Commit(ident, updates)).value;
              && ident in next.tables && next == Catalog(c.scope, c.warehouse, c.tables[ident := next.tables[ident]])
              && next.tables[ident].names == c.tables[ident].names
              && next.tables[ident].location == Moved(c.tables[ident].location, updates)
              && forall path :: path in next.tables[ident].files <==>
                   path in c.tables[ident].files || exists i :: 0 <= i < |updates| && NamesFile(updates[i], path)
  {
    if ident in c.tables {
      CommitAcceptedIff(c.BoundOf(ident), c.tables[ident].location, updates);
      forall path ensures path in Recorded(updates) <==> exists i :: 0 <= i < |updates| && NamesFile(updates[i], path) {
        RecordedIs(updates, path);
      }
    }
  }

  /** A rename moves a table to a free name and leaves where its files are. */
  lemma RenameIs(u: Unicode, c: Catalog, src: Ident, dest: Ident)
    ensures Apply(u, c, Rename(src, dest)).Ok? <==>
            src == dest || (ValidIdent(u, dest) && src in c.tables && dest !in c.tables)
    ensures src == dest ==> Apply(u, c, Rename(src, dest)) == Ok(c)
    ensures src != dest && Apply(u, c, Rename(src, dest)).Ok? ==>
              var next := Apply(u, c, Rename(src, dest)).value;
              && next.scope == c.scope && next.warehouse == c.warehouse
              && next.tables.Keys == c.tables.Keys - {src} + {dest}
              && next.tables[dest] == TableRecord(c.tables[src].location, c.tables[src].files,
                                                  c.tables[src].names + [dest])
              && forall other :: other in c.tables && other != src ==> next.tables[other] == c.tables[other]
  {
  }

  lemma DropIs(u: Unicode, c: Catalog, ident: Ident)
    ensures Apply(u, c, Drop(ident)).Ok? <==> ident in c.tables
    ensures Apply(u, c, Drop(ident)).Ok? ==>
              Apply(u, c, Drop(ident)).value ==
                Catalog(c.scope, c.warehouse, map k | k in c.tables && k != ident :: c.tables[k])
  {
  }
}
