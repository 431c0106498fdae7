/** Bounds on the locations clients may name. */
module Bound {

  import opened Prelude
  import opened Text
  import opened Location
  import opened LocationLaws
  import opened Names
  import opened Layout
  import opened LayoutLaws

  datatype LocationScope = TableScope | WarehouseScope

  datatype BoundError = EmptyLocation | OutsideBound(location: string) | NotOwned(location: string)

  /** The updates of a table commit that carry a location, and every other one. */
  datatype TableUpdate =
    | SetLocation(location: string)
    | AddSnapshot(manifestList: string)
    | SetStatistics(statisticsPath: string)
    | SetPartitionStatistics(partitionStatisticsPath: string)
    | OtherUpdate

  /** The one view update that carries a location, and every other. */
  datatype ViewUpdate = SetViewLocation(location: string) | OtherViewUpdate

  datatype LocationBound = LocationBound(root: string, scope: LocationScope)
  {
    static function New(scope: LocationScope, warehouse: string, namespacePrefix: string, name: string): LocationBound {
      match scope
      case WarehouseScope => LocationBound(warehouse, scope)
      case TableScope => LocationBound(TrimEnd(namespacePrefix, '/') + "/" + name, scope)
    }

    function Ensure(location: string): Result<(), BoundError> {
      if IsBlank(location) then Err(EmptyLocation)
      else if IsWithin(root, location) then Ok(())
      else Err(OutsideBound(location))
    }

    function EnsureIceberg(location: string): Result<(), BoundError> {
      if IsWithin(root, location) then Ok(()) else Err(OutsideBound(location))
    }

    static function EnsureOwned(current: string, location: string): Result<(), BoundError> {
      if IsWithin(current, location) then Ok(()) else Err(NotOwned(location))
    }

    function EnsureUpdate(current: string, update: TableUpdate): Result<(), BoundError> {
      match update
      case SetLocation(location) =>
        if !IsWithin(root, location) && !IsWithin(current, location) then Err(OutsideBound(location)) else Ok(())
      case AddSnapshot(path) => EnsureOwned(current, path)
      case SetStatistics(path) => EnsureOwned(current, path)
      case SetPartitionStatistics(path) => EnsureOwned(current, path)
      case OtherUpdate => Ok(())
    }

    function EnsureCommit(current: string, updates: seq<TableUpdate>): Result<(), BoundError> {
      if updates == [] then Ok(())
      else
        var _ :- EnsureUpdate(current, updates[0]);
        EnsureCommit(current, updates[1..])
    }

    function EnsureViewCommit(current: string, updates: seq<ViewUpdate>): Result<(), BoundError> {
      if updates == [] then Ok(())
      else if updates[0].SetViewLocation?
              && !IsWithin(root, updates[0].location) && !IsWithin(current, updates[0].location)
      then Err(OutsideBound(updates[0].location))
      else EnsureViewCommit(current, updates[1..])
    }

    /** The same question of a view that arrives as finished metadata. */
    function EnsureViewCommitMetadata(current: string, location: string): Result<(), BoundError> {
      if IsWithin(root, location) || IsWithin(current, location) then Ok(()) else Err(OutsideBound(location))
    }
  }

  /** A commit is accepted exactly when each update is, and refused naming the first that is not. */
  lemma {:induction false} CommitIsEveryUpdate(bound: LocationBound, current: string, updates: seq<TableUpdate>)
    ensures bound.EnsureCommit(current, updates).Ok? <==>
            forall i :: 0 <= i < |updates| ==> bound.EnsureUpdate(current, updates[i]).Ok?
    ensures bound.EnsureCommit(current, updates).Err? ==>
              exists i :: 0 <= i < |updates|
                       && bound.EnsureUpdate(current, updates[i]) == bound.EnsureCommit(current, updates)
                       && forall j :: 0 <= j < i ==> bound.EnsureUpdate(current, updates[j]).Ok?
  {
    if updates != [] {
      CommitIsEveryUpdate(bound, current, updates[1..]);
      if bound.EnsureUpdate(current, updates[0]).Ok? && bound.EnsureCommit(current, updates).Err? {
        var i :| 0 <= i < |updates[1..]|
              && bound.EnsureUpdate(current, updates[1..][i]) == bound.EnsureCommit(current, updates[1..])
              && forall j :: 0 <= j < i ==> bound.EnsureUpdate(current, updates[1..][j]).Ok?;
        assert bound.EnsureUpdate(current, updates[i + 1]) == bound.EnsureCommit(current, updates);
      }
    }
  }

  // ---------------------------------------------------------------------------
  // What is accepted, update by update
  // ---------------------------------------------------------------------------

  /** A file an update names, which must be the table's own. */
  predicate NamesFile(update: TableUpdate, path: string) {
    || update == AddSnapshot(path) || update == SetStatistics(path) || update == SetPartitionStatistics(path)
  }

  /** The update may be made to a table at `current` under this root. */
  ghost predicate MayUpdate(root: string, current: string, update: TableUpdate) {
    && (forall path :: NamesFile(update, path) ==> IsWithin(current, path))
    && (forall location :: update == SetLocation(location) ==> IsWithin(root, location) || IsWithin(current, location))
  }

  lemma UpdateAcceptedIff(bound: LocationBound, current: string, update: TableUpdate)
    ensures bound.EnsureUpdate(current, update).Ok? <==> MayUpdate(bound.root, current, update)
    ensures bound.EnsureUpdate(current, update).Err? ==>
              || (exists path :: NamesFile(update, path) && bound.EnsureUpdate(current, update) == Err(NotOwned(path)))
              || (exists location :: update == SetLocation(location)
                                     && bound.EnsureUpdate(current, update) == Err(OutsideBound(location)))
  {
    match update
    case SetLocation(location) =>
    case AddSnapshot(path) => assert NamesFile(update, path);
    case SetStatistics(path) => assert NamesFile(update, path);
    case SetPartitionStatistics(path) => assert NamesFile(update, path);
    case OtherUpdate =>
  }

  /**
   * A table commit is accepted exactly when every file it names is inside the table's present location, and every new
   * location inside that or the bound. Other updates are never refused.
   */
  lemma CommitAcceptedIff(bound: LocationBound, current: string, updates: seq<TableUpdate>)
    ensures bound.EnsureCommit(current, updates).Ok? <==>
            forall i :: 0 <= i < |updates| ==> MayUpdate(bound.root, current, updates[i])
  {
    CommitIsEveryUpdate(bound, current, updates);
    forall i | 0 <= i < |updates|
      ensures bound.EnsureUpdate(current, updates[i]).Ok? <==> MayUpdate(bound.root, current, updates[i])
    {
      UpdateAcceptedIff(bound, current, updates[i]);
    }
  }

  /** A view commit is accepted exactly when every location it sets is inside the bound or the view's present one. */
  lemma {:induction false} ViewCommitAcceptedIff(bound: LocationBound, current: string, updates: seq<ViewUpdate>)
    ensures bound.EnsureViewCommit(current, updates).Ok? <==>
            forall i :: 0 <= i < |updates| && updates[i].SetViewLocation? ==>
              IsWithin(bound.root, updates[i].location) || IsWithin(current, updates[i].location)
  {
    if updates != [] {
      ViewCommitAcceptedIff(bound, current, updates[1..]);
      assert updates == [updates[0]] + updates[1..];
    }
  }

  /** A declared location is accepted exactly when it is not blank and lies in the bound, and says why it is not. */
  lemma LocationAcceptedIff(scope: LocationScope, warehouse: string, prefix: string, name: string, location: string)
    requires !EndsWithSlash(prefix)
    ensures var bound := LocationBound.New(scope, warehouse, prefix, name);
            var root := if scope == WarehouseScope then warehouse else prefix + "/" + name;
            && bound.Ensure(location) == (if forall i :: 0 <= i < |location| ==> IsWhitespace(location[i])
                                          then Err(EmptyLocation)
                                          else if IsWithin(root, location) then Ok(()) else Err(OutsideBound(location)))
            && bound.EnsureIceberg(location) ==
              (if IsWithin(root, location) then Ok(()) else Err(OutsideBound(location)))
            && (forall current :: bound.EnsureViewCommitMetadata(current, location) ==
                                  if IsWithin(root, location) || IsWithin(current, location) then Ok(())
                                  else Err(OutsideBound(location)))
  {
    assert IsBlank(location) <==> forall i :: 0 <= i < |location| ==> IsWhitespace(location[i]);
  }

  /** Where a list of view updates leaves the view. */
  function FinalLocation(current: string, updates: seq<ViewUpdate>): string
    decreases |updates|
  {
    if updates == [] then current
    else FinalLocation(if updates[0].SetViewLocation? then updates[0].location else current, updates[1..])
  }

  lemma {:induction false} FinalLocationIsAllowed(bound: LocationBound, current: string, at: string,
                                                  updates: seq<ViewUpdate>)
    requires bound.EnsureViewCommit(current, updates).Ok?
    requires bound.EnsureViewCommitMetadata(current, at).Ok?
    ensures bound.EnsureViewCommitMetadata(current, FinalLocation(at, updates)).Ok?
    decreases |updates|
  {
    if updates != [] {
      var next := if updates[0].SetViewLocation? then updates[0].location else at;
      FinalLocationIsAllowed(bound, current, next, updates[1..]);
    }
  }

  /**
   * The two roads a view commit takes agree: one update is accepted exactly when its result is, and a list that is
   * accepted step by step leaves a view that is accepted finished, if the view was somewhere `..`-free to start with.
   */
  lemma FinishedViewAgrees(bound: LocationBound, current: string, location: string, updates: seq<ViewUpdate>)
    requires NoTraversal(current)
    ensures bound.EnsureViewCommit(current, [SetViewLocation(location)]) ==
            bound.EnsureViewCommitMetadata(current, location)
    ensures bound.EnsureViewCommit(current, updates).Ok? ==>
              bound.EnsureViewCommitMetadata(current, FinalLocation(current, updates)).Ok?
  {
    var one := [SetViewLocation(location)];
    assert one[1..] == [];
    assert bound.EnsureViewCommit(current, one[1..]) == Ok(());
    WithinIsReflexive(current);
    if bound.EnsureViewCommit(current, updates).Ok? {
      FinalLocationIsAllowed(bound, current, current, updates);
    }
  }

  /** The bound for a table and the prefix a registry assigns are one string. */
  lemma BoundIsCanonicalPrefix(warehouse: string, namespace: seq<string>, name: string)
    requires PathSegments(namespace)
    ensures LocationBound.New(TableScope, warehouse, NamespacePrefix(warehouse, namespace), name).root ==
            CanonicalPrefix(warehouse, namespace, name)
  {
    LevelsShape(namespace);
    assert !EndsWithSlash(NamespacePrefix(warehouse, namespace));
  }

  lemma AssignedLocationPassesItsBound(warehouse: string, namespace: seq<string>, name: string)
    requires TraversalFree(warehouse) && PathSegments(ResourcePath(namespace, name))
    ensures var bound := LocationBound.New(TableScope, warehouse, NamespacePrefix(warehouse, namespace), name);
            bound.Ensure(CanonicalPrefix(warehouse, namespace, name)).Ok?
  {
    assert forall i :: 0 <= i < |namespace| ==> namespace[i] == ResourcePath(namespace, name)[i];
    BoundIsCanonicalPrefix(warehouse, namespace, name);
    CanonicalPrefixHasNoTraversal(warehouse, namespace, name);
    var prefix := CanonicalPrefix(warehouse, namespace, name);
    WithinIsReflexive(prefix);
    assert prefix[|NamespacePrefix(warehouse, namespace)|] == '/';
    assert '/' in prefix && !IsWhitespace('/');
  }
}
