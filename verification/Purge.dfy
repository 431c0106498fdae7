/** Purging a dropped table without leaving its location. */
module Purge {

  import opened Prelude
  import opened Text
  import opened Location

  /** An object store: the files it holds, the paths it will fail to delete, and the deletions asked of it so far. */
  class FileStore {
    var files: set<string>
    var asked: seq<string>
    const stuck: set<string>

    constructor (files: set<string>, stuck: set<string>)
      ensures this.files == files && this.stuck == stuck && asked == []
    {
      this.files := files;
      this.stuck := stuck;
      asked := [];
    }

    /** Deleting a file that is absent is not an error. */
    method Delete(path: string) returns (ok: bool)
      modifies this
      ensures ok <==> path !in stuck
      ensures files == if ok then old(files) - {path} else old(files)
      ensures asked == old(asked) + [path]
    {
      asked := asked + [path];
      ok := path !in stuck;
      if ok {
        files := files - {path};
      }
    }
  }

  /** A snapshot's manifest list, and the manifests it names when the list can be read. */
  datatype Snapshot = Snapshot(manifestList: string, manifests: Option<seq<string>>)

  datatype GcEnabled = GcOn | GcOff | GcUnparseable

  /** What a purge reads of a table; `contents` holds the data files of each readable manifest. */
  datatype TableFiles = TableFiles(
    location: string,
    snapshots: seq<Snapshot>,
    contents: map<string, seq<string>>,
    gc: GcEnabled,
    metadataLog: seq<string>,
    statistics: seq<string>,
    partitionStatistics: seq<string>,
    pointer: Option<string>)

  /** What became of the offered paths, in the order they were tried. */
  datatype Report = Report(deleted: seq<string>, failed: seq<string>, skipped: seq<string>)
  {
    function Plus(more: Report): Report {
      Report(deleted + more.deleted, failed + more.failed, skipped + more.skipped)
    }

    /** Every offered path as often as it was offered. */
    ghost function Offered(): multiset<string> {
      multiset(deleted) + multiset(failed) + multiset(skipped)
    }

    /** Only paths inside `root` were touched, and every path left alone is outside it. */
    ghost predicate Confined(root: string) {
      && (forall p :: p in deleted ==> IsWithin(root, p))
      && (forall p :: p in failed ==> IsWithin(root, p))
      && (forall p :: p in skipped ==> !IsWithin(root, p))
    }

    ghost predicate Honest(stuck: set<string>) {
      && (forall p :: p in deleted ==> p !in stuck)
      && (forall p :: p in failed ==> p in stuck)
    }
  }

  const NOTHING := Report([], [], [])

  lemma PlusKeepsFacts(a: Report, b: Report, root: string, stuck: set<string>)
    ensures a.Confined(root) && b.Confined(root) ==> a.Plus(b).Confined(root)
    ensures a.Honest(stuck) && b.Honest(stuck) ==> a.Plus(b).Honest(stuck)
    ensures a.Plus(b).Offered() == a.Offered() + b.Offered()
    ensures Elements(a.Plus(b).deleted) == Elements(a.deleted) + Elements(b.deleted)
  {
  }

  function Where(f: string -> bool, items: seq<string>): seq<string> {
    if items == [] then []
    else
      var last := items[|items| - 1];
      Where(f, items[..|items| - 1]) + (if f(last) then [last] else [])
  }

  lemma {:induction false} WhereMember(f: string -> bool, items: seq<string>, x: string)
    ensures x in Where(f, items) <==> x in items && f(x)
  {
    if items != [] {
      WhereMember(f, items[..|items| - 1], x);
      assert items == items[..|items| - 1] + [items[|items| - 1]];
    }
  }

  lemma OneMoreKept(f: string -> bool, before: seq<string>, last: string)
    ensures multiset(Where(f, before + [last])) ==
            multiset(Where(f, before)) + if f(last) then multiset{last} else multiset{}
  {
    assert (before + [last])[..|before|] == before;
  }

  lemma {:induction false} WhereOrNot(f: string -> bool, g: string -> bool, items: seq<string>)
    requires forall x :: f(x) != g(x)
    ensures multiset(Where(f, items)) + multiset(Where(g, items)) == multiset(items)
  {
    if items != [] {
      var before, last := items[..|items| - 1], items[|items| - 1];
      WhereOrNot(f, g, before);
      assert items == before + [last];
      OneMoreKept(f, before, last);
      OneMoreKept(g, before, last);
    }
  }

  /** The paths inside `root`, or those outside it, in their order. */
  function Parted(root: string, paths: seq<string>, inside: bool): (parted: seq<string>)
    ensures forall p :: p in parted <==> p in paths && IsWithin(root, p) == inside
  {
    forall p ensures p in Where((p: string) => IsWithin(root, p) == inside, paths) <==>
      p in paths && IsWithin(root, p) == inside {
      WhereMember((p: string) => IsWithin(root, p) == inside, paths, p);
    }
    Where((p: string) => IsWithin(root, p) == inside, paths)
  }

  lemma PartedIsAll(root: string, paths: seq<string>)
    ensures multiset(Parted(root, paths, true)) + multiset(Parted(root, paths, false)) == multiset(paths)
  {
    WhereOrNot((p: string) => IsWithin(root, p) == true, (p: string) => IsWithin(root, p) == false, paths);
  }

  method Partition(root: string, paths: seq<string>) returns (owned: seq<string>, skipped: seq<string>)
    ensures owned == Parted(root, paths, true) && skipped == Parted(root, paths, false)
  {
    owned, skipped := [], [];
    for i := 0 to |paths|
      invariant owned == Parted(root, paths[..i], true) && skipped == Parted(root, paths[..i], false)
    {
      assert paths[..i + 1][..i] == paths[..i];
      if IsWithin(root, paths[i]) {
        owned := owned + [paths[i]];
      } else {
        skipped := skipped + [paths[i]];
      }
    }
    assert paths[..|paths|] == paths;
  }

  /**
   * A confined deletion goes on after a failure. Every offered path is deleted,
   * failed or skipped as often as it was offered, and nothing but the paths inside is asked of the store.
   */
  method DeleteConfined(store: FileStore, root: string, paths: seq<string>) returns (report: Report)
    modifies store
    ensures report.Offered() == multiset(paths)
    ensures report.Confined(root) && report.Honest(store.stuck)
    ensures report.skipped == Parted(root, paths, false)
    ensures store.files == old(store.files) - Elements(report.deleted)
    ensures store.asked == old(store.asked) + Parted(root, paths, true)
  {
    var owned, skipped := Partition(root, paths);
    PartedIsAll(root, paths);
    var deleted, failed := DeleteAll(store, owned);
    report := Report(deleted, failed, skipped);
  }

  method DeleteAll(store: FileStore, owned: seq<string>) returns (deleted: seq<string>, failed: seq<string>)
    modifies store
    ensures multiset(deleted) + multiset(failed) == multiset(owned)
    ensures forall p :: p in deleted ==> p in owned && p !in store.stuck
    ensures forall p :: p in failed ==> p in owned && p in store.stuck
    ensures store.files == old(store.files) - Elements(deleted)
    ensures store.asked == old(store.asked) + owned
  {
    deleted, failed := [], [];
    for i := 0 to |owned|
      invariant multiset(deleted) + multiset(failed) == multiset(owned[..i])
      invariant forall p :: p in deleted ==> p in owned && p !in store.stuck
      invariant forall p :: p in failed ==> p in owned && p in store.stuck
      invariant store.files == old(store.files) - Elements(deleted)
      invariant store.asked == old(store.asked) + owned[..i]
    {
      assert owned[..i + 1] == owned[..i] + [owned[i]];
      var ok := store.Delete(owned[i]);
      if ok {
        deleted := deleted + [owned[i]];
      } else {
        failed := failed + [owned[i]];
      }
    }
    assert owned[..|owned|] == owned;
  }

  // ---------------------------------------------------------------------------
  // What a table references
  // ---------------------------------------------------------------------------

  ghost function ManifestLists(snapshots: seq<Snapshot>): set<string> {
    set s | s in snapshots && s.manifestList != "" :: s.manifestList
  }

  ghost function Manifests(snapshots: seq<Snapshot>): set<string> {
    set s, m | s in snapshots && s.manifests.Some? && m in s.manifests.value :: m
  }

  /** How many manifest lists could not be read. */
  function Unreadable(snapshots: seq<Snapshot>): nat {
    if snapshots == [] then 0
    else Unreadable(snapshots[..|snapshots| - 1]) + (if snapshots[|snapshots| - 1].manifests.None? then 1 else 0)
  }

  method CollectManifests(snapshots: seq<Snapshot>)
    returns (lists: set<string>, manifests: set<string>, unreadable: nat)
    ensures lists == ManifestLists(snapshots) && manifests == Manifests(snapshots)
    ensures unreadable == Unreadable(snapshots)
  {
    lists, manifests, unreadable := {}, {}, 0;
    for i := 0 to |snapshots|
      invariant lists == ManifestLists(snapshots[..i]) && manifests == Manifests(snapshots[..i])
      invariant unreadable == Unreadable(snapshots[..i])
    {
      var snapshot := snapshots[i];
      assert snapshots[..i + 1] == snapshots[..i] + [snapshot];
      if snapshot.manifestList != "" {
        lists := lists + {snapshot.manifestList};
      }
      match snapshot.manifests {
        case Some(names) => manifests := manifests + (set m | m in names);
        case None => unreadable := unreadable + 1;
      }
    }
    assert snapshots[..|snapshots|] == snapshots;
  }

  function FilesIn(contents: map<string, seq<string>>, m: string): seq<string> {
    if m in contents then contents[m] else []
  }

  /** The data files the readable ones of `manifests` name, as often as they are named. */
  ghost function DataFiles(contents: map<string, seq<string>>, manifests: set<string>): multiset<string> {
    if manifests == {} then multiset{}
    else
      var m :| m in manifests;
      multiset(FilesIn(contents, m)) + DataFiles(contents, manifests - {m})
  }

  /** Whichever manifest is read first, the data files are the same. */
  lemma {:induction false} AnyManifestFirst(contents: map<string, seq<string>>, manifests: set<string>, m: string)
    requires m in manifests
    ensures DataFiles(contents, manifests) == multiset(FilesIn(contents, m)) + DataFiles(contents, manifests - {m})
    decreases manifests
  {
    var first :| first in manifests
                 && DataFiles(contents, manifests) ==
                   multiset(FilesIn(contents, first)) + DataFiles(contents, manifests - {first});
    if first != m {
      AnyManifestFirst(contents, manifests - {first}, m);
      AnyManifestFirst(contents, manifests - {m}, first);
      assert manifests - {first} - {m} == manifests - {m} - {first};
    }
  }

  /** The data files in reading order. */
  function ReadInOrder(contents: map<string, seq<string>>, order: seq<string>): seq<string> {
    if order == [] then []
    else ReadInOrder(contents, order[..|order| - 1]) + FilesIn(contents, order[|order| - 1])
  }

  ghost predicate Distinct(order: seq<string>) {
    forall i, j :: 0 <= i < j < |order| ==> order[i] != order[j]
  }

  lemma {:induction false} ReadInOrderIsDataFiles(contents: map<string, seq<string>>, order: seq<string>)
    requires Distinct(order)
    ensures multiset(ReadInOrder(contents, order)) == DataFiles(contents, Elements(order))
  {
    if order != [] {
      var before, last := order[..|order| - 1], order[|order| - 1];
      LastIsNew(order);
      ReadInOrderIsDataFiles(contents, before);
      assert Elements(order) - {last} == Elements(before);
      AnyManifestFirst(contents, Elements(order), last);
    }
  }

  /** How many of the manifests, in reading order, could not be read. */
  function UnreadIn(contents: map<string, seq<string>>, order: seq<string>): nat {
    if order == [] then 0
    else UnreadIn(contents, order[..|order| - 1]) + (if order[|order| - 1] in contents then 0 else 1)
  }

  lemma OneMoreOutside(s: set<string>, x: string, known: set<string>)
    requires x !in s
    ensures |s + {x} - known| == |s - known| + if x in known then 0 else 1
  {
    assert s + {x} - known == (s - known) + (if x in known then {} else {x});
  }

  lemma LastIsNew(order: seq<string>)
    requires Distinct(order) && order != []
    ensures var before, last := order[..|order| - 1], order[|order| - 1];
            Distinct(before) && last !in Elements(before) && Elements(order) == Elements(before) + {last}
  {
    assert order == order[..|order| - 1] + [order[|order| - 1]];
  }

  lemma {:induction false} UnreadInIs(contents: map<string, seq<string>>, order: seq<string>)
    requires Distinct(order)
    ensures UnreadIn(contents, order) == |Elements(order) - contents.Keys|
  {
    if order != [] {
      var before, last := order[..|order| - 1], order[|order| - 1];
      LastIsNew(order);
      UnreadInIs(contents, before);
      OneMoreOutside(Elements(before), last, contents.Keys);
    }
  }

  lemma DistinctOrder(order: seq<string>, s: set<string>)
    requires multiset(order) == multiset(s)
    ensures Distinct(order)
  {
    forall i, j | 0 <= i < j < |order| ensures order[i] != order[j] {
      assert order == order[..j] + order[j..];
      assert order[i] in order[..j] && order[j] in order[j..];
      assert multiset(order) == multiset(order[..j]) + multiset(order[j..]);
      assert multiset(order[..j])[order[i]] >= 1 && multiset(order[j..])[order[j]] >= 1;
      assert multiset(s)[order[j]] <= 1;
    }
  }

  /** Every data file the readable manifests name, and how many manifests could not be read. */
  method ReadDataFilePaths(contents: map<string, seq<string>>, manifests: set<string>)
    returns (paths: seq<string>, unreadable: nat)
    ensures multiset(paths) == DataFiles(contents, manifests)
    ensures unreadable == |manifests - contents.Keys|
  {
    var order := InSomeOrder(manifests);
    DistinctOrder(order, manifests);
    paths, unreadable := [], 0;
    for i := 0 to |order|
      invariant paths == ReadInOrder(contents, order[..i]) && unreadable == UnreadIn(contents, order[..i])
    {
      assert order[..i + 1][..i] == order[..i];
      if order[i] in contents {
        paths := paths + contents[order[i]];
      } else {
        unreadable := unreadable + 1;
      }
    }
    assert order[..|order|] == order;
    ReadInOrderIsDataFiles(contents, order);
    UnreadInIs(contents, order);
  }

  // ---------------------------------------------------------------------------
  // The purge
  // ---------------------------------------------------------------------------

  /** The data files a purge may name: none unless the table says its data files are its own. */
  ghost function OwnedDataFiles(table: TableFiles): multiset<string> {
    if table.gc == GcOn then DataFiles(table.contents, Manifests(table.snapshots)) else multiset{}
  }

  /** The files that only the metadata document names, but for the current one. */
  function LoggedFiles(table: TableFiles): seq<string> {
    table.metadataLog + table.statistics + table.partitionStatistics
  }

  /** Every path a purge of `table` offers for deletion before the current metadata file. */
  ghost function ReferencesBefore(table: TableFiles): multiset<string> {
    OwnedDataFiles(table) + multiset(Manifests(table.snapshots)) + multiset(ManifestLists(table.snapshots))
    + multiset(LoggedFiles(table))
  }

  function CurrentFile(table: TableFiles): seq<string> {
    if table.pointer.Some? then [table.pointer.value] else []
  }

  /** Where a purge that started from `base` stands once it has offered `offered`. */
  ghost predicate Accounted(report: Report, root: string, stuck: set<string>, offered: multiset<string>,
                            base: set<string>, files: set<string>) {
    && report.Offered() == offered
    && report.Confined(root) && report.Honest(stuck)
    && files == base - Elements(report.deleted)
  }

  lemma AccountedPlus(a: Report, b: Report, root: string, stuck: set<string>, offered: multiset<string>,
                      more: multiset<string>, base: set<string>, between: set<string>, files: set<string>)
    requires Accounted(a, root, stuck, offered, base, between) && Accounted(b, root, stuck, more, between, files)
    ensures Accounted(a.Plus(b), root, stuck, offered + more, base, files)
  {
    PlusKeepsFacts(a, b, root, stuck);
  }

  /** One more confined deletion, added to what was already done. */
  method Extend(store: FileStore, root: string, sofar: Report, paths: seq<string>,
                ghost offered: multiset<string>, ghost base: set<string>)
    returns (report: Report)
    requires Accounted(sofar, root, store.stuck, offered, base, store.files)
    modifies store
    ensures Accounted(report, root, store.stuck, offered + multiset(paths), base, store.files)
    ensures store.asked == old(store.asked) + Parted(root, paths, true)
  {
    var more := DeleteConfined(store, root, paths);
    report := sofar.Plus(more);
    AccountedPlus(sofar, more, root, store.stuck, offered, multiset(paths), base, old(store.files), store.files);
  }

  method PurgeLoggedFiles(store: FileStore, table: TableFiles, sofar: Report,
                          ghost offered: multiset<string>, ghost base: set<string>)
    returns (report: Report)
    requires Accounted(sofar, table.location, store.stuck, offered, base, store.files)
    modifies store
    ensures Accounted(report, table.location, store.stuck, offered + multiset(LoggedFiles(table)), base, store.files)
    ensures old(store.asked) <= store.asked
  {
    report := Extend(store, table.location, sofar, table.metadataLog, offered, base);
    ghost var done := offered + multiset(table.metadataLog);
    report := Extend(store, table.location, report, table.statistics, done, base);
    done := done + multiset(table.statistics);
    report := Extend(store, table.location, report, table.partitionStatistics, done, base);
    assert multiset(LoggedFiles(table)) ==
           multiset(table.metadataLog) + multiset(table.statistics) + multiset(table.partitionStatistics);
  }

  method PurgeDataFiles(store: FileStore, table: TableFiles, manifests: set<string>, ghost base: set<string>)
    returns (report: Report, unreadable: nat)
    requires manifests == Manifests(table.snapshots) && store.files == base
    modifies store
    ensures Accounted(report, table.location, store.stuck, OwnedDataFiles(table), base, store.files)
    ensures unreadable == if table.gc == GcOn then |manifests - table.contents.Keys| else 0
    ensures old(store.asked) <= store.asked
  {
    report, unreadable := NOTHING, 0;
    if table.gc == GcOn {
      var dataFiles;
      dataFiles, unreadable := ReadDataFilePaths(table.contents, manifests);
      report := Extend(store, table.location, report, dataFiles, multiset{}, base);
    }
  }

  method PurgeSet(store: FileStore, root: string, sofar: Report, paths: set<string>,
                  ghost offered: multiset<string>, ghost base: set<string>)
    returns (report: Report)
    requires Accounted(sofar, root, store.stuck, offered, base, store.files)
    modifies store
    ensures Accounted(report, root, store.stuck, offered + multiset(paths), base, store.files)
    ensures old(store.asked) <= store.asked
  {
    var order := InSomeOrder(paths);
    report := Extend(store, root, sofar, order, offered, base);
  }

  // ---------------------------------------------------------------------------
  // What is left on the store
  // ---------------------------------------------------------------------------

  /** The table's own metadata names the file: as a manifest list, a manifest, a log entry or a statistics file. */
  ghost predicate NamesAsMetadata(table: TableFiles, file: string) {
    || (exists i :: 0 <= i < |table.snapshots| && table.snapshots[i].manifestList == file && file != "")
    || (exists i :: 0 <= i < |table.snapshots| && table.snapshots[i].manifests.Some?
                    && file in table.snapshots[i].manifests.value)
    || file in table.metadataLog || file in table.statistics || file in table.partitionStatistics
  }

  /** A manifest that can be read, of a list that can be read, names the file. */
  ghost predicate NamesAsData(table: TableFiles, file: string) {
    exists i, m ::
      && 0 <= i < |table.snapshots| && table.snapshots[i].manifests.Some? && m in table.snapshots[i].manifests.value
      && m in table.contents && file in table.contents[m]
  }

  /** The files a purge removes, wherever the store lets it. */
  ghost predicate Condemned(table: TableFiles, file: string) {
    && IsWithin(table.location, file)
    && (NamesAsMetadata(table, file) || table.pointer == Some(file) || (table.gc == GcOn && NamesAsData(table, file)))
  }

  lemma {:induction false} DataFilesMember(contents: map<string, seq<string>>, manifests: set<string>, file: string)
    ensures file in DataFiles(contents, manifests) <==>
            exists m :: m in manifests && m in contents && file in contents[m]
    decreases manifests
  {
    if manifests != {} {
      var first :| first in manifests
                   && DataFiles(contents, manifests) ==
                     multiset(FilesIn(contents, first)) + DataFiles(contents, manifests - {first});
      DataFilesMember(contents, manifests - {first}, file);
      assert file in DataFiles(contents, manifests) <==>
             file in FilesIn(contents, first) || file in DataFiles(contents, manifests - {first});
      assert file in FilesIn(contents, first) <==> first in contents && file in contents[first];
    }
  }

  lemma OwnedMember(table: TableFiles, file: string)
    ensures file in OwnedDataFiles(table) <==> table.gc == GcOn && NamesAsData(table, file)
  {
    var manifests := Manifests(table.snapshots);
    DataFilesMember(table.contents, manifests, file);
    forall m ensures m in manifests <==>
      exists i :: 0 <= i < |table.snapshots| && table.snapshots[i].manifests.Some?
        && m in table.snapshots[i].manifests.value
    {
      ManifestMember(table.snapshots, m);
    }
  }

  lemma ManifestMember(snapshots: seq<Snapshot>, m: string)
    ensures m in Manifests(snapshots) <==>
            exists i :: 0 <= i < |snapshots| && snapshots[i].manifests.Some? && m in snapshots[i].manifests.value
    ensures m in ManifestLists(snapshots) <==>
            exists i :: 0 <= i < |snapshots| && snapshots[i].manifestList == m && m != ""
  {
    if exists i :: 0 <= i < |snapshots| && snapshots[i].manifests.Some? && m in snapshots[i].manifests.value {
      var i :| 0 <= i < |snapshots| && snapshots[i].manifests.Some? && m in snapshots[i].manifests.value;
      assert snapshots[i] in snapshots;
    }
    if exists i :: 0 <= i < |snapshots| && snapshots[i].manifestList == m && m != "" {
      var i :| 0 <= i < |snapshots| && snapshots[i].manifestList == m && m != "";
      assert snapshots[i] in snapshots;
    }
  }

  lemma OfferedIff(table: TableFiles, file: string)
    ensures file in ReferencesBefore(table) + multiset(CurrentFile(table)) <==>
            NamesAsMetadata(table, file) || table.pointer == Some(file)
              || (table.gc == GcOn && NamesAsData(table, file))
  {
    OwnedMember(table, file);
    ManifestMember(table.snapshots, file);
  }

  /** What an account of a purge means for each file. */
  lemma AccountDecides(report: Report, table: TableFiles, stuck: set<string>, base: set<string>, files: set<string>,
                       file: string)
    requires Accounted(report, table.location, stuck, ReferencesBefore(table) + multiset(CurrentFile(table)), base,
                       files)
    ensures file in files <==> file in base && (file in stuck || !Condemned(table, file))
  {
    OfferedIff(table, file);
    assert file in report.Offered() <==> file in report.deleted || file in report.failed || file in report.skipped;
  }

  lemma WhereOne(f: string -> bool, x: string)
    ensures Where(f, [x]) == if f(x) then [x] else []
  {
    assert [x][..0] == [];
  }

  /** The current metadata file, if the table may delete it. */
  ghost function PointerInside(table: TableFiles): seq<string> {
    if table.pointer.Some? && IsWithin(table.location, table.pointer.value) then [table.pointer.value] else []
  }

  lemma PointerComesLast(table: TableFiles)
    ensures Parted(table.location, CurrentFile(table), true) == PointerInside(table)
  {
    if table.pointer.Some? {
      WhereOne((p: string) => IsWithin(table.location, p) == true, table.pointer.value);
    }
  }

  /** The snapshots whose manifest list could not be read. */
  ghost function WithoutManifests(snapshots: seq<Snapshot>): set<int> {
    set i | 0 <= i < |snapshots| && snapshots[i].manifests.None?
  }

  lemma {:induction false} UnreadableCounts(snapshots: seq<Snapshot>)
    ensures Unreadable(snapshots) == |WithoutManifests(snapshots)|
  {
    if snapshots != [] {
      var n := |snapshots| - 1;
      UnreadableCounts(snapshots[..n]);
      OneMoreSnapshot(snapshots, n);
    }
  }

  lemma OneMoreSnapshot(snapshots: seq<Snapshot>, n: nat)
    requires |snapshots| == n + 1
    ensures WithoutManifests(snapshots) ==
            WithoutManifests(snapshots[..n]) + (if snapshots[n].manifests.None? then {n} else {})
    ensures n !in WithoutManifests(snapshots[..n])
  {
  }

  /**
   * Removes nothing outside the table's location, and accounts for every path the table references, as often as it
   * does: deleted, failed, or skipped. The current metadata file is asked for after everything else. How many
   * manifest lists and manifests could not be read is counted. An unparseable `gc.enabled` stops the purge before
   * the first delete. On the store, exactly the condemned files it can delete are gone: data files only when the table
   * says they are its own.
   */
  method PurgeTableData(store: FileStore, table: TableFiles) returns (result: Result<Report, ()>, unreadable: nat)
    modifies store
    ensures result.Err? <==> table.gc == GcUnparseable
    ensures result.Err? ==> store.files == old(store.files) && store.asked == old(store.asked)
    ensures result.Ok? ==> Accounted(result.value, table.location, store.stuck,
                                     ReferencesBefore(table) + multiset(CurrentFile(table)), old(store.files),
                                     store.files)
    ensures result.Ok? ==> forall file :: file in store.files <==>
                             file in old(store.files) && (file in store.stuck || !Condemned(table, file))
    ensures result.Ok? ==>
              exists before :: old(store.asked) <= before && store.asked == before + PointerInside(table)
    ensures result.Ok? ==> unreadable ==
                           |WithoutManifests(table.snapshots)|
                           + if table.gc == GcOn then |Manifests(table.snapshots) - table.contents.Keys| else 0
  {
    ghost var base := store.files;
    var lists, manifests;
    lists, manifests, unreadable := CollectManifests(table.snapshots);
    if table.gc == GcUnparseable {
      return Err(()), unreadable;
    }
    var report, more := PurgeDataFiles(store, table, manifests, base);
    unreadable := unreadable + more;
    ghost var done := OwnedDataFiles(table);
    report := PurgeSet(store, table.location, report, manifests, done, base);
    done := done + multiset(manifests);
    report := PurgeSet(store, table.location, report, lists, done, base);
    done := done + multiset(lists);
    report := PurgeLoggedFiles(store, table, report, done, base);
    ghost var before := store.asked;
    report := Extend(store, table.location, report, CurrentFile(table), ReferencesBefore(table), base);
    forall file ensures file in store.files <==> file in base && (file in store.stuck || !Condemned(table, file)) {
      AccountDecides(report, table, store.stuck, base, store.files, file);
    }
    PointerComesLast(table);
    UnreadableCounts(table.snapshots);
    return Ok(report), unreadable;
  }
}
