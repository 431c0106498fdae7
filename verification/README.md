# Rustberg, modelled in Dafny

Rustberg is an Iceberg REST catalog that decides, for every request, who is calling, which rows and columns of a table
they may have, where a table's files may lie, and which files a purge may delete. This project models those decisions
and proves what they promise. `dafny verify dfyconfig.toml` checks everything.

The model follows a request through four parts of the server.

**Admission.** `Address`, `RemoteIp`, `TokenBucket`, `RateLimiter`, `Middleware`, `LimiterMeaning`, `Bans`,
`Attempts`, `KeyStore`, `AuthErrors`, `Authn`, `Principals`. The caller's address is read off a forwarding chain; its
bucket is charged; a credential is examined and the outcome recorded. Token buckets, the limiter and the key store are
classes updated in place, each proved against a value that the laws over runs are about.

**Authorization.** `Entities`, `Decision`, `Obligations`, `WrittenMasks`, `Fingerprint`, `Reloadable`. The policy
engine's verdict on each policy becomes a decision; the restrictions of the matching permits are combined; replicas
keep the policy set in step with an append-only log.

**Rows.** `Json`, `Truth`, `Literals`, `Predicate`, `FilterMeaning`, `PredicateLaws`, `ValidatorLaws`, `BindingLaws`,
`Alignment`, `Plan`, `Restrictions`, `RestrictionLaws`, `Residual`. Filters arrive as JSON, are parsed under a
polarity into predicates over rows with three truth values (false, unknown, true), and end up in a scan plan, in the
published read restrictions, and in the residual the client applies.

**Files.** `Location`, `LocationLaws`, `WrittenLocations`, `PrefixLaws`, `Names`, `Layout`, `LayoutLaws`, `Bound`,
`Assigned`, `Warehouse`, `MetadataFile`, `MetadataLaws`, `Lifecycle`, `Sharing`, `Purge`, `Utf8`, `ViewChain`.
Locations are strings read as a store and a path; names lay tables out under a warehouse; commits, renames and purges
move inside bounds.

`FilterMeaning`, `WrittenMasks`, `WrittenLocations`, `LimiterMeaning` and `Principals` say what filters, masks,
locations, limits and keys mean in the terms they are written in, without the functions that read them.

`Prelude` and `Text` hold the option and result shapes and the string operations of Rust's standard library.

## Where the code and its documentation differ

Each of these has a lemma with the exact condition, or a concrete input, in the table below.

- `src/catalog/redb.rs` builds a default location from the warehouse it stored, while the bound trims trailing slashes.
  Local warehouses are stored as URLs of absolute paths, whose defaults pass. For a remote one configured with a final
  slash, such as `s3://bucket/`, the registry's own default is outside the table's bound
  (`Warehouses.ConfiguredDefaultPassesIff`). `src/catalog/postgres.rs:102` trims first.
- "Two resources cannot overlap" (`src/location.rs:435`) fails for a table named like a namespace's last level, and for
  a name used again after a rename (`LayoutLaws.ResourcesOverlapIff`, `Sharing.TablesShareIff`).
- A metadata path is inside its location except for a few spellings (`MetadataLaws.MetadataPathIsInside`,
  `MetadataLaws.BareSchemeLosesItsMetadata`, `Sharing.ColonDirectoryLosesItsMetadata`).
- `is_prefix_within` refuses one safe prefix when the root names a whole store (`PrefixLaws.PrefixTestIsExactIff`).
- "Refuses what the binder will refuse" (`src/predicate.rs:661-664`): the load-time check accepts filters that no table
  can bind, such as a comparison with null (`BindingLaws.BindableBySomeTableIff`, `BindingLaws.NullNeverBinds`).
- A blank `@column_mask("")` counts as annotated at load and as unmasked at run time
  (`Obligations.VoidedMaskForeseenIff`, `Obligations.BlankMaskIsNotForeseen`).
- Were a policy set loaded without the filter check, a matching permit whose only filter cannot be read would lift the
  restriction (`Obligations.UnreadableFiltersUnrestrict`).
- The plan and the published restriction differ for a literal of the wrong type, for a reference carrying one column's
  name and another's id, and for a name spelled in another case (`RestrictionLaws.BranchDisagreesIff`,
  `Restrictions.TermAgreesIff`, and the inputs beside them).
- A file withheld because a filter is aligned need not be uniform when case is ignored and a column's name captures a
  partition source's (`Alignment.CapturedSourceIsNotUniform`).
- A column name holding a NUL can merge two obligation sets' fingerprints (`Fingerprint.NulInAMaskMergesIff`).
- Auth failures are counted in fixed hours, so `auth_fail_limit` failures within seconds need not ban: only those in the
  current window count (`Bans.BannedIff`). Twice the limit less two always ban (`Bans.EnoughFailuresBan`), and one
  fewer need not (`Bans.StraddlingFailuresDoNotBan`).
- `swap` writes the set and its sequence under separate locks, and a replica has many swappers: the poller and every
  policy request between `src/management/policies.rs:376` and `:417`. If two swaps overlap, an older set can stay in
  force under the newest sequence, and polling does not correct it until another revision is appended
  (`Reloadable.OverlappingSwapsStick`, `Reloadable.OverlapAgreesIff`, `Reloadable.MatchesIff`).
- An escape such as `%+9` is read as a byte, because the standard library takes a plus sign
  (`ViewChain.EscapeIsReadIff`).
- A server fault is not to count against a client (`src/auth/error.rs:120-124`). With tokens and API keys both
  configured it does: the API key authenticator reads the bearer token that could not be checked and rejects it
  (`Authn.OutageIsCounted`, `Authn.CountedIff`).
- Of two keys imported from one plaintext the first stored decides, so a disabled one hides an enabled one
  (`Authn.AuthenticatesIff`, `Authn.DisabledTwinHides`).

## Model

| member | source | states |
|---|---|---|
| `Location.RootSegments` | src/location.rs:188-194 | a root's segments are its segments without trailing empty ones, popped one by one |
| `LocationLaws.WithinIsTransitive` | src/location.rs:204-235 | containment of raw location strings is transitive, on all strings |
| `LocationLaws.WithinIsReflexive` | src/location.rs:204-235 | a location contains itself exactly when it has no `..` segment |
| `LocationLaws.ContainsIsAntisymmetric` | src/location.rs:204-235 | two places that contain each other have the same root |
| `LocationLaws.SharedPlaceIsComparable` | src/location.rs:204-235 | two places that share something inside them are nested |
| `LocationLaws.RespellingKeepsContainment` | src/location.rs:204-235 | respelling either side as the same place changes no containment |
| `LocationLaws.AliasesAgree` | src/location.rs:56-66 | two schemes with one authority and path are one place exactly when they are aliases of one service |
| `LocationLaws.AuthorityIsOptional` | src/location.rs:95-117 | for an object store `scheme://key` and `scheme:/key` are one place |
| `LocationLaws.LocalSpellingsAgree` | src/location.rs:95-117 | a rooted local path, its `file:` and its `file://` spelling are one place |
| `WrittenLocations.KeyContainsIff` | src/location.rs:204-235 | in an object store one written location contains another exactly when the schemes are of one service, whatever their case, the parts of the first without its trailing empty ones start those of the second, and the second has no `..` |
| `WrittenLocations.KeyPrefixContainsIff` | src/location.rs:243-275 | as a list prefix it must moreover reach below the root or end in a slash |
| `WrittenLocations.ServicesAreApart` | src/location.rs:56-66 | locations of different services contain nothing of one another |
| `WrittenLocations.KnownSchemesTakeOneSlash` | src/location.rs:95-130 | `s3:/key` is `s3://key`, and so for every scheme of an object store |
| `WrittenLocations.LocalContainsIff` | src/location.rs:146-235 | locally empty parts mean nothing, and a rooted path is apart from one that is not |
| `WrittenLocations.DriveIsLocal` | src/location.rs:95-130 | a single letter before a colon is no scheme |
| `PrefixLaws.PrefixWithinIsExact` | src/location.rs:243-275 | a list prefix is accepted exactly when it is `..`-free and every `..`-free string that extends it is inside the root |
| `PrefixLaws.PrefixTestIsExactIff` | src/location.rs:243-275 | for every root and every URI prefix the test is exact, but for a root that names a whole store other than the local one and the prefix that names nothing in it |
| `PrefixLaws.EmptyRootIsStricter` | src/location.rs:243-275 | such a pair: the bare store against itself |
| `Names.ValidNameIsOneSegment` | src/names.rs:126-199 | a validated name is one path segment and holds neither separator of the entity ids |
| `Names.ValidNamespaceIsSegments` | src/names.rs:209-227 | a validated namespace is a non-empty list of such segments |
| `Names.NameIsValidIff` | src/names.rs:126-200 | exactly the valid names: 1 to 255 characters, none of group `C`, normalized, no path separator, not `.` or `..`, trimmed |
| `Names.NamespaceIsValidIff` | src/names.rs:209-227 | exactly the valid namespaces: one to ten valid names |
| `Layout.JoinSegments` | src/location.rs:761-768 | pushing the segments one by one gives the trimmed warehouse followed by its levels |
| `Layout.CanonicalPlace` | src/location.rs:743-768 | the canonical prefix is read as the warehouse's segments followed by the resource's path |
| `LayoutLaws.LayoutIsPrefixOrder` | src/location.rs:743-768 | one resource's prefix contains another's exactly when its path is a list prefix of the other's |
| `LayoutLaws.CanonicalPrefixIsInjective` | src/location.rs:743-768 | different resources have different prefixes |
| `LayoutLaws.ResourcesOverlapIff` | src/location.rs:429-436 | two resources can share a location exactly when one path is a prefix of the other |
| `LayoutLaws.DistinctResourcesAreDisjoint` | src/location.rs:429-436 | when no resource's path is also a namespace of the other, distinct resources share no location |
| `LayoutLaws.TableNamedLikeANamespaceOverlaps` | src/location.rs:429-436 | a table named like a namespace's last level contains what is in that namespace |
| `Bound.CommitIsEveryUpdate` | src/location.rs:599-635 | a commit is accepted exactly when each of its updates is, and refused naming the first that is not |
| `Bound.UpdateAcceptedIff` | src/location.rs:599-636 | one update is accepted exactly when each file it names is inside the present location and each new location inside that or the bound, and a refusal names which |
| `Bound.CommitAcceptedIff` | src/location.rs:599-636 | a table commit is accepted exactly when every one of its updates is so |
| `Bound.ViewCommitAcceptedIff` | src/location.rs:647-680 | a view commit is accepted exactly when every location it sets is inside the bound or the present location |
| `Bound.LocationAcceptedIff` | src/location.rs:507-565 | a declared location is accepted exactly when it is not blank and lies in the bound, and each refusal says why |
| `Bound.FinishedViewAgrees` | src/location.rs:647-693 | the check of a view's updates and the check of its finished metadata agree on one update, and the finished check accepts what the updates were accepted for |
| `Bound.BoundIsCanonicalPrefix` | src/location.rs:507-515 | the bound of a table is the string its registry assigns as prefix |
| `Bound.AssignedLocationPassesItsBound` | src/location.rs:507-543 | for a `..`-free warehouse the canonical prefix passes its own bound |
| `Assigned.AssignedPassesBoundIff` | src/catalog/redb.rs:540-547 | for every `..`-free warehouse a default location passes its bound exactly when the warehouse has no trailing slash, is a local directory, or is a bare scheme with the slashes an authority allows |
| `Warehouses.ConfiguredDefaultPassesIff` | src/catalog/redb.rs:376-390 | for every configured warehouse the registry opens with, a table's default location passes the table's bound exactly when the configured text has no `..` level and is local, or has no final slash, or is a bare scheme and marker |
| `Warehouses.StoredPassesIff` | src/catalog/redb.rs:217-222 | the warehouse stored for a configured text is one whose defaults pass exactly under the same condition on that text |
| `Warehouses.LocalUrlPasses` | src/location.rs:317-342 | the defaults of `file://` and an absolute path pass, whatever slashes end it |
| `Warehouses.TraversalFreeStored` | src/catalog/redb.rs:376-390 | storing a warehouse neither adds nor removes a `..` level |
| `Warehouses.RootedIsStored` | src/location.rs:317-390 | a rooted local warehouse is stored as one URL in whichever of its three spellings it is configured |
| `Warehouses.RelativeIsStored` | src/catalog/redb.rs:376-390 | a path that is not rooted is stored below the working directory |
| `Warehouses.RemoteIsStored` | src/catalog/redb.rs:376-379 | a location of another store is stored as it is written |
| `Warehouses.SchemeSupportedIff` | src/catalog/file_io.rs:87-123 | which schemes are supported under which features, and what each refusal says |
| `Assigned.SlashedBucketIsRefused` | src/catalog/redb.rs:540-547 | for a bucket written with a trailing slash the default location of every table is refused |
| `Assigned.TrimmedWarehouseAgrees` | src/catalog/postgres.rs:102 | with the warehouse trimmed first, the default location is the bound |
| `MetadataLaws.MetadataPathIsInside` | src/catalog/metadata_file.rs:49-54 | a metadata path is inside the location it is built from exactly when that location is `..`-free and a slash after it keeps its meaning |
| `MetadataLaws.AssignedLocationKeepsMetadata` | src/catalog/metadata_file.rs:44-54 | the metadata of a table at its assigned location is inside that location |
| `MetadataLaws.BareSchemeLosesItsMetadata` | src/catalog/metadata_file.rs:49-54 | at the location `file:` every metadata path falls outside |
| `MetadataFile.VersionsCountUp` | src/catalog/metadata_file.rs:44-70 | the version after a file the catalog built, which it built only if it reads as a metadata location, is one more than the version it was built with |
| `MetadataFile.HistoryCountsUp` | src/catalog/metadata_file.rs:22-70 | over any history of commits, moves included, the files are numbered from zero in order |
| `MetadataFile.MetadataPathText` | src/catalog/metadata_file.rs:49-54 | the text of a path: under `metadata`, a numeral of at least five digits that reads as the version, then the rest |
| `MetadataFile.VersionAfterIs` | src/catalog/metadata_file.rs:60-70 | the number after a file named with a number, for every such number, the largest included |
| `MetadataFile.UnnumberedStartsAfresh` | src/catalog/metadata_file.rs:60-70 | a file named any other way is followed by number one |
| `Lifecycle.RunKeepsTablesHeld` | src/location.rs:552-635 | over every run of create, register, commit, rename and drop, each table's location and every file a commit recorded is inside a bound the table has held |
| `Lifecycle.CreateIs` | src/catalog/redb.rs:864-920 | exactly which tables can be created, and the catalog afterwards |
| `Lifecycle.RegisterIs` | src/catalog/redb.rs:1115-1160 | exactly which tables can be registered, and the catalog afterwards |
| `Lifecycle.CommitIs` | src/location.rs:599-635 | exactly which commits are accepted, and that they change one table: its location, and its files by those the updates name |
| `Lifecycle.MovedIs` | src/location.rs:599-635 | the new location is the last one set |
| `Lifecycle.RenameIs` | src/catalog/redb.rs:1052-1113 | exactly which renames are accepted, and that they keep the location, the files and every other table |
| `Lifecycle.DropIs` | src/catalog/redb.rs:1019-1035 | a drop removes that table and no other |
| `Lifecycle.ApartTablesShareNothing` | src/location.rs:599-635 | in table scope, tables whose names were never prefixes of one another share no location |
| `Lifecycle.PurgeSparesApartTables` | src/catalog/purge.rs:88-332 | no path a purge of one such table may delete is the other's |
| `Sharing.TablesShareIff` | src/location.rs:429-436 | when tables are created at their defaults and never moved, two of them share storage exactly when the names they were created under start one another |
| `Sharing.RecordedLocationsOverlapIff` | src/location.rs:204-235 | in every reachable catalog two tables share storage exactly when one recorded location is inside the other |
| `Sharing.ReusedNameSharesLocation` | src/location.rs:429-436 | create, rename, create again leaves two tables at one location, both created under one name |
| `Sharing.MetadataIsHeldIff` | src/catalog/metadata_file.rs:44-54 | in every reachable catalog a table's metadata file is inside its recorded location exactly when a slash after that keeps its meaning, and then inside a bound the table has held |
| `Sharing.ColonDirectoryLosesItsMetadata` | src/catalog/metadata_file.rs:49-54 | a local table created and then moved to a directory `x:` spelled with a final slash is inside its bound, and its metadata is not inside its location |
| `Purge.DeleteConfined` | src/catalog/purge.rs:263-332 | every offered path is deleted, failed or skipped as often as it is offered; the skipped are exactly those outside the location, the others are asked for in order |
| `Purge.CollectManifests` | src/catalog/purge.rs:93-146 | the manifest lists and the manifests of all readable snapshots, and how many lists could not be read |
| `Purge.ReadDataFilePaths` | src/catalog/purge.rs:344-386 | the data files of all readable manifests, as often as they are named, and how many manifests could not be read |
| `Purge.PurgeTableData` | src/catalog/purge.rs:88-238 | after a purge a file is gone exactly when it was inside the location, the store could delete it, and the table names it as manifest list, manifest, log entry, statistics or current metadata file, or, only when `gc.enabled`, a readable manifest names it as data; every path is accounted for as often as it is offered, the current metadata file is asked for last, what could not be read is counted, and an unparseable `gc.enabled` stops it before anything |
| `Purge.OfferedIff` | src/catalog/purge.rs:156-196 | exactly the files a purge offers for deletion |
| `Truth.NegateIsNot` | src/predicate.rs:177-318 | pushing a negation down to the operators negates the truth of a predicate on every row, unknown included |
| `Truth.EvalDependsOnColumns` | src/auth/filter_alignment.rs:108-114 | a predicate's truth depends only on the columns it mentions |
| `PredicateLaws.WideningIsSound` | src/predicate.rs:161-318 | whatever the unbindable terms mean, a widened filter is at least as true as written in a positive position and at most as true in a negative one |
| `PredicateLaws.StrictParseIsExact` | src/predicate.rs:151-318 | a strictly parsed filter means exactly the filter on every row |
| `FilterMeaning.OrderReads` | src/predicate.rs:266-290 | `lt`, `lt-eq`, `gt`, `gt-eq`, `eq` and `not-eq`, in the JSON's own terms: each is true of exactly the cells that compare so with the literal, and unknown of NULL |
| `FilterMeaning.PrefixReads` | src/predicate.rs:266-290 | `starts-with` and `not-starts-with` likewise |
| `FilterMeaning.NullTestReads` | src/predicate.rs:223-264 | `is-null` and `not-null` have an answer on every row of every column |
| `FilterMeaning.NanTestReads` | src/predicate.rs:223-264 | `is-nan` and `not-nan` bind to floating columns only, and ask that of the cell |
| `FilterMeaning.MembershipReads` | src/predicate.rs:292-307 | `in` and `not-in` ask whether the cell equals one of the literals |
| `FilterMeaning.MembershipBindsIff` | src/predicate.rs:460-483 | they bind exactly when every value is a literal of the column's type |
| `FilterMeaning.ComparisonBindsIff` | src/predicate.rs:443-458 | a comparison binds exactly when its value is a literal of the column's type |
| `FilterMeaning.DenotesIff` | src/predicate.rs:529-635 | which JSON values are literals of which type, and which literal each is |
| `FilterMeaning.ConstantsRead` | src/predicate.rs:184-204 | `true` and `false`, bare or as operators |
| `FilterMeaning.AndReads` | src/predicate.rs:205-214 | `and` is true where both halves are and false where either is |
| `FilterMeaning.OrReads` | src/predicate.rs:205-214 | `or` is true where either half is and false where both are |
| `FilterMeaning.NotReads` | src/predicate.rs:216-221 | `not` swaps true and false and leaves unknown |
| `FilterMeaning.ComputedComparisonIsWidened` | src/predicate.rs:266-269 | a comparison of a computed value is refused of a policy, true in a client's filter, and false under a negation |
| `FilterMeaning.ComputedTestIsWidened` | src/predicate.rs:223-226 | so is a test of one |
| `FilterMeaning.UnknownOperatorIsWidened` | src/predicate.rs:309-317 | so is an operator nobody knows |
| `ValidatorLaws.StrictIsBindableClientReading` | src/predicate.rs:136-318 | strict reading accepts exactly the client-readable filters with nothing to widen, and reads them alike |
| `ValidatorLaws.LoadCheckForeseesBinding` | src/predicate.rs:670-729 | what binds passes the load check, and what passes it fails to bind only by column, type or literal |
| `ValidatorLaws.MissingHalfIsNamed` | src/predicate.rs:205-214 | the check and the reader name the half that is missing |
| `BindingLaws.BindsIff` | src/predicate.rs:151-491 | a policy filter binds to a table exactly when it passes the load check, its literals have a literal's shape, and the table supplies every named column with a type that serves all that is asked of it |
| `BindingLaws.BindableBySomeTableIff` | src/predicate.rs:529-729 | some table carries a filter exactly when it passes the load check, its literals are well shaped, and for each column one type takes every literal compared with it, a floating one if NaN is asked about |
| `BindingLaws.NullNeverBinds` | src/predicate.rs:529-635 | a comparison with null passes the load check and binds to no table |
| `BindingLaws.TwoTypesNeverBind` | src/predicate.rs:529-635 | one column compared with a boolean and with text passes the load check and binds to no table |
| `BindingLaws.CheckedFilterNoTableBinds` | src/predicate.rs:460-480 | a value list that is no list passes the load check and binds to no table |
| `Predicate.CollectColumns` | src/predicate.rs:751-789 | inserting into one set while walking the tree collects exactly the referenced columns |
| `Alignment.ParsedColumnsAreReferenced` | src/predicate.rs:751-789 | every column of a parsed predicate is one its filter is said to reference |
| `Alignment.ReferencedIff` | src/predicate.rs:751-789 | exactly the columns a filter mentions, by name or by id |
| `Alignment.UnalignedIff` | src/auth/filter_alignment.rs:91-114 | a column is unaligned exactly when the filter mentions it and no identity field partitions on it |
| `Alignment.AlignedFilterIsUniform` | src/auth/filter_alignment.rs:65-114 | a filter with no unaligned column gives one verdict to all rows of one identity partition, when the names of partition sources bind to partition sources, as they always do when case matters |
| `Alignment.CapturedSourceIsNotUniform` | src/auth/filter_alignment.rs:91-114 | when a partition source's name is captured by a column that is none, an aligned filter tells rows of one partition apart |
| `Alignment.AlignmentIsExactEnforcement` | src/auth/filter_alignment.rs:91-114 | withholding files judged by their first row then delivers exactly the permitted rows |
| `Obligations.CollectObligations` | src/auth/cedar.rs:692-788 | the loop over matched permits yields the combined filters and masks and the permits that voided them |
| `Obligations.Intersect` | src/auth/cedar.rs:779-782 | reducing the mask sets yields the columns common to all permits |
| `WrittenMasks.OneMaskWithholds` | src/auth/cedar.rs:734-750 | one permit withholds exactly the columns its annotation lists, however they are spaced and whatever blank entries stand between them |
| `WrittenMasks.WrittenMasksWithhold` | src/auth/cedar.rs:734-787 | several permits withhold a column exactly when each of their lists holds it |
| `WrittenMasks.SpacedMaskWithholds` | src/auth/cedar.rs:734-750 | two names with a comma and a space between them are withheld under those names |
| `WrittenMasks.EveryMaskIsWritten` | src/auth/cedar.rs:734-750 | every annotation is such a list, so the laws above leave none out |
| `Obligations.ValidatedPermitsCompose` | src/auth/cedar.rs:225-248 | for a policy set checked at load, a row is visible exactly when some matching permit grants it |
| `Obligations.VisibleRowsAreTheUnion` | src/auth/cedar.rs:707-772 | the same wherever one matching permit is unfiltered or readable |
| `Obligations.UnreadableFiltersUnrestrict` | src/auth/cedar.rs:720-772 | in every other case nothing is granted and every row is visible |
| `Obligations.WithheldColumnsAreTheIntersection` | src/auth/cedar.rs:734-787 | a column is withheld exactly when every matching permit withholds it |
| `Obligations.OrderDoesNotMatter` | src/auth/cedar.rs:692-788 | the order of the matched permits changes neither rows nor columns |
| `Obligations.MorePermitsGrantMore` | src/auth/cedar.rs:692-788 | one more matching permit shows no fewer rows and withholds no more columns |
| `Obligations.BroadPermitsOverRestriction` | src/auth/cedar.rs:305-333 | the load-time report lists exactly the unannotated permits when some permit is annotated |
| `Obligations.ReportIff` | src/auth/cedar.rs:305-333 | what that report holds for each of the two annotations |
| `Obligations.VoidedFiltersIff` | src/auth/cedar.rs:752-772 | a filter is voided exactly when one matching permit has none and another has a readable one |
| `Obligations.VoidedMasksIff` | src/auth/cedar.rs:752-787 | a mask is voided exactly when one matching permit withholds nothing and another something |
| `Obligations.VoidedFiltersWereForeseen` | src/auth/cedar.rs:305-333 | every permit that voids a filter at run time was in that report |
| `Obligations.VoidedMaskForeseenIff` | src/auth/cedar.rs:305-333 | a permit that voided a mask on a request was in that report exactly when it carries no mask annotation |
| `Obligations.BlankMaskIsNotForeseen` | src/auth/cedar.rs:319 | a blank annotation voids another permit's mask unreported |
| `Decision.AllowedIff` | src/auth/cedar.rs:475-605 | a request is allowed exactly when no policy errs, none forbids and some permit matches |
| `Decision.SeesIff` | src/auth/cedar.rs:475-605 | a row is seen exactly when moreover some matching permit grants it |
| `Decision.RefusalIs` | src/auth/cedar.rs:529-605 | which refusal a request gets: an erring policy, else a forbid, else that nothing permits |
| `Decision.WithheldIff` | src/auth/cedar.rs:475-605 | an allowed request has a column withheld exactly when every satisfied permit withholds it |
| `Decision.PoliciesAreMonotone` | src/auth/cedar.rs:475-605 | adding a forbid never shows a row, adding a permit that does not err never hides one |
| `Decision.ErrorsNeverAllow` | src/auth/cedar.rs:540-571 | an allowed request is one the engine allows whatever erring policies would have said |
| `Decision.EngineAloneSkipsErrors` | src/auth/cedar.rs:529-571 | the engine alone allows what an erring forbid would have stopped |
| `Entities.ResourceEntities` | src/auth/cedar.rs:379-439 | the loop over namespace levels builds the chain of entities from the tenant to the resource |
| `Entities.AncestorsAreTheTenantAndItsNamespaces` | src/auth/cedar.rs:379-439 | a resource is in itself, its tenant, and the namespaces its path starts with, and in nothing else |
| `Entities.NamedEntities` | src/auth/cedar.rs:379-439 | the type and the id of each kind of resource, as a policy writes them |
| `Entities.TableIsIn` | src/auth/cedar.rs:379-439 | what a table is in, in those names: itself, its namespaces and its tenant, and nobody else's |
| `Entities.IdsAreInjective` | src/names.rs:83 | joined ids of separator-free parts identify tenant and path |
| `Entities.InNamespaceIsPrefix` | src/auth/cedar.rs:379-439 | `in Namespace::id` is the prefix relation on namespace paths within one tenant |
| `Entities.PolicySetIsInItsTenant` | src/auth/cedar.rs:379-439 | a policy set is in its tenant and in nothing else |
| `Fingerprint.Preimage` | src/auth/authz.rs:462-486 | the bytes fed to the hash are a framing of the sorted filters and masks |
| `Fingerprint.PreimageText` | src/auth/authz.rs:462-486 | the bytes themselves: each text in order with a zero byte after it, and a one between the two lists |
| `Fingerprint.LeIff` | src/auth/authz.rs:469-472 | the order of two texts is that of the first character in which they differ, the shorter first |
| `Fingerprint.PreimageIdentifiesObligations` | src/auth/authz.rs:462-486 | when no mask holds a NUL, two obligation sets feed the same bytes exactly when they have the same filters and the same masks |
| `Fingerprint.PreimagesEqualIff` | src/auth/authz.rs:462-486 | two obligation sets feed the same bytes exactly when they have the same filters and their masks, in order, have the same NUL-separated pieces |
| `Fingerprint.NulInAMaskMergesIff` | src/auth/authz.rs:475-486 | one mask with a NUL between two names is hashed as the two masks of those names exactly when they are in order |
| `Plan.PolicyPredicate` | src/catalog/v1/plan.rs:947-970 | folding the filters with `or` gives the policy half of the plan |
| `Plan.PlanIsBetweenRequestAndPolicy` | src/catalog/v1/plan.rs:436-450 | a plan admits every row the client's filter and the policy admit, and none the policy does not |
| `Plan.PlanIsExact` | src/catalog/v1/plan.rs:436-450 | when nothing of the client's filter is widened, a plan selects exactly the rows it is true of and some policy filter admits |
| `Plan.PlannedIff` | src/catalog/v1/plan.rs:436-450 | there is a plan exactly when the client's filter can be read |
| `Plan.PlanPolicyIsTheUnionOfPermits` | src/catalog/v1/plan.rs:947-970 | the policy half is true of a row exactly when some matching permit grants it on this table |
| `Plan.PlannedRowsAreGranted` | src/catalog/v1/plan.rs:436-450 | no plan selects a row that no matching permit grants |
| `Restrictions.RowFilter` | src/catalog/v1/restrictions.rs:259-280 | the published filter is the disjunction of the published branches |
| `Restrictions.TermAgreesIff` | src/catalog/v1/restrictions.rs:365-423 | a term is published as the column it is planned on exactly when its name and its id agree and its spelling is the table's, as the lookups tell |
| `Restrictions.OperatorsArePublished` | src/catalog/v1/restrictions.rs:291-343 | the JSON each operator is published as: its own name, its term by id, its operands under one spelling |
| `Restrictions.LiteralsArePublished` | src/catalog/v1/restrictions.rs:291-343 | a bare literal is published inside a literal object, and one that is there already as it is |
| `Restrictions.StandsByIdIff` | src/catalog/v1/restrictions.rs:365-423 | the id a term is published under, by its reference, its name, or its name ignoring case |
| `Restrictions.TwoFiltersArePublished` | src/catalog/v1/restrictions.rs:259-280 | two filters are published as one disjunction, an unpublishable one as `false` |
| `RestrictionLaws.PublishedFormReadsBack` | src/catalog/v1/restrictions.rs:291-343 | when every term agrees, reading a published filter gives the predicate it was planned as, names replaced by columns |
| `RestrictionLaws.FaithfulIff` | src/catalog/v1/restrictions.rs:245-343 | for every filter: a reader of the published branch applies what was planned exactly when, planned and published, the reader can bind it and all terms agree that no constant hides; only one of the two, its constants make it `false` and the reader can bind what was published; neither, always |
| `RestrictionLaws.ConstantFreeFaithfulIff` | src/catalog/v1/restrictions.rs:245-343 | a filter without constants, however nested, reads back as planned exactly when it is planned and all its terms agree, or neither planned nor published |
| `RestrictionLaws.OperatorFaithfulIff` | src/catalog/v1/restrictions.rs:291-343 | a filter of one operator reads back as planned exactly when it is planned and its term agrees, or neither planned nor published |
| `RestrictionLaws.PublishesIff` | src/catalog/v1/restrictions.rs:291-343 | a filter is published as more than `false` exactly when it passes the load check and its columns exist |
| `RestrictionLaws.BranchDisagreesIff` | src/catalog/v1/restrictions.rs:245-343 | a branch is published though it is planned as false exactly when it passes the load check and its columns exist but a literal is misshapen or a type does not serve what is asked |
| `RestrictionLaws.PublishedFilterIsThePlannedOne` | src/catalog/v1/restrictions.rs:259-343 | when every term agrees, a reader can apply the published filter exactly when every branch agrees, and reads it as the policy half of the plan by column |
| `RestrictionLaws.SensitiveFilterIsThePlannedOne` | src/catalog/v1/restrictions.rs:259-343 | when case matters it is the policy half of the plan node for node |
| `RestrictionLaws.MistypedLiteralIsPublished` | src/catalog/v1/restrictions.rs:291-343 | a literal its column's type does not take is planned as false and published as an expression |
| `RestrictionLaws.NameAndIdCanDiverge` | src/catalog/v1/restrictions.rs:365-423 | a reference with one column's name and another's id is planned on the one and published on the other |
| `RestrictionLaws.SpellingCanDiverge` | src/catalog/v1/restrictions.rs:410-422 | a name in another case is planned on no column and published on the column it resembles |
| `Residual.ResidualIsRequestAndPolicy` | src/catalog/v1/plan.rs:988-1003 | applying the residual keeps exactly the rows asked for and permitted |
| `Residual.PlanKeepsWhatResidualKeeps` | src/catalog/v1/plan.rs:436-450 | the planner's filter admits every row the residual keeps |
| `Residual.DeliveredRowsAreAskedAndGranted` | src/catalog/v1/plan.rs:972-1003 | a delivered row is one the client asked for and some matching permit grants |
| `Address.PrefixMatchIsDivision` | src/remote_ip.rs:138-151 | two octet lists match on a prefix exactly when their big-endian numbers agree after dividing by two to the remaining bits |
| `Address.RangeHoldsIff` | src/remote_ip.rs:113-151 | an IPv4 range has exactly the IPv4 addresses, mapped or not, that agree with it after division, and an IPv6 range exactly the unmapped IPv6 ones |
| `Address.ContainmentIsAntitone` | src/remote_ip.rs:113-123 | a longer prefix contains no more addresses |
| `Address.SharedBucketIff` | src/auth/rate_limit.rs:359-374 | two addresses share a bucket exactly when they are one IPv4 address, mapped or not, or agree on an IPv6 `/64` |
| `Address.SharedBucketInOctets` | src/auth/rate_limit.rs:359-374 | the same in octets: one IPv4 address in either spelling, or eight octets of an unmapped IPv6 address |
| `Address.BucketIsIdempotent` | src/auth/rate_limit.rs:359-374 | a bucket's own address is in that bucket |
| `RemoteIp.PortsAreIgnored` | src/remote_ip.rs:276-301 | an IPv4 address with a port and a bracketed IPv6 address with one are read as the address |
| `RemoteIp.EntryReads` | src/remote_ip.rs:276-301 | an entry is read without its whitespace, as an IPv4 address if it carries one |
| `RemoteIp.TrustedIff` | src/remote_ip.rs:265-274 | an address is trusted exactly when some range holds it |
| `RemoteIp.HeaderNamesTheClient` | src/remote_ip.rs:231-263 | behind a trusted peer the text of a header gives its rightmost address outside every range |
| `RemoteIp.RealIpNamesTheClient` | src/remote_ip.rs:236-250 | without that header a trusted peer may name its client in `X-Real-IP`, and a stranger may not |
| `RemoteIp.HeadersOfStrangersAreIgnored` | src/remote_ip.rs:205-230 | a peer outside every range, or none, is the answer whatever the headers say |
| `RemoteIp.NearestStrangerAnswers` | src/remote_ip.rs:205-263 | the rightmost untrusted or unreadable hop is the answer whatever stands to its left |
| `RemoteIp.UntrustedPeerAnswers` | src/remote_ip.rs:205-263 | an untrusted peer is always the answer |
| `RemoteIp.AllTrustedAnswersOutermost` | src/remote_ip.rs:231-263 | with every hop trusted the answer is the outermost recorded hop, else `X-Real-IP`, else the peer |
| `RemoteIp.SplitHeaderChangesNothing` | src/remote_ip.rs:231-235 | splitting one header value at a comma into two headers changes nothing |
| `RemoteIp.ForgedHeadersChangeNothing` | src/remote_ip.rs:205-263 | behind trusted proxies that append what they see, a client resolves to where it connected from whatever headers it wrote |
| `TokenBuckets.TokenBucket.TryAcquire` | src/auth/rate_limit.rs:241-259 | an acquisition refills, then takes one token if there is one |
| `TokenBuckets.TokenBucket.RetryAfter` | src/auth/rate_limit.rs:267-274 | the advice is that of the bucket's value |
| `TokenBuckets.TokensStayInRange` | src/auth/rate_limit.rs:241-259 | at every point of every run the tokens lie between none and the capacity |
| `TokenBuckets.AdmissionIsBounded` | src/auth/rate_limit.rs:241-259 | any stretch of calls gets at most the capacity plus what its time adds |
| `TokenBuckets.AnyWindowIsBounded` | src/auth/rate_limit.rs:241-259 | the bound holds for every window of every run |
| `TokenBuckets.RetryAfterIsLeast` | src/auth/rate_limit.rs:267-274 | after a refusal an undisturbed call succeeds after a whole number of seconds exactly when there is capacity and rate and that number is at least the advice |
| `LimiterMeaning.InstantIsServed` | src/auth/rate_limit.rs:241-259 | of any calls at one instant as many are served as the bucket holds whole tokens |
| `LimiterMeaning.BurstIsServed` | src/auth/rate_limit.rs:231-259 | a new bucket serves its burst at once and no more |
| `LimiterMeaning.MinutesRefill` | src/auth/rate_limit.rs:231-259 | an empty one serves, after whole minutes, its rate for each of them up to its capacity |
| `LimiterMeaning.NoRateNeverAdvises` | src/auth/rate_limit.rs:267-274 | without a rate the advice is the longest there is |
| `RateLimiters.BucketTable.Take` | src/auth/rate_limit.rs:531-555 | taking a token makes a full bucket on first use, charges that key and leaves every other bucket as it was |
| `RateLimiters.RateLimiter.RecordAuthFailure` | src/auth/rate_limit.rs:472-502 | one failure is counted in the client's current hour, or opens a new one, and bans at the limit |
| `RateLimiters.RateLimiter.RecordAuthSuccess` | src/auth/rate_limit.rs:505-512 | a success forgets the client's failures |
| `RateLimiters.RateLimiter.CheckIpLimit` | src/auth/rate_limit.rs:515-555 | a banned client is refused uncharged, any other is charged one token |
| `RateLimiters.RateLimiter.CheckTenantLimit` | src/auth/rate_limit.rs:558-587 | a tenant is charged one token |
| `RateLimiters.RateLimiter.PeekIpLimit` | src/auth/rate_limit.rs:615-629 | the remaining allowance is read without charging |
| `LimiterMeaning.SwitchedOffAllowsAll` | src/auth/rate_limit.rs:515-587 | a limiter that is off allows everything and counts nothing |
| `LimiterMeaning.BannedIsToldHowLong` | src/auth/rate_limit.rs:515-530 | a banned client is told the whole seconds left and is charged nothing |
| `LimiterMeaning.ClientIsCharged` | src/auth/rate_limit.rs:531-555 | any other client takes one token of a bucket of its configuration; what it is told and left with is exact, and nothing else changes |
| `LimiterMeaning.TenantIsCharged` | src/auth/rate_limit.rs:558-587 | and so does a tenant |
| `LimiterMeaning.PeekShowsWhatIsLeft` | src/auth/rate_limit.rs:615-629 | the allowance shown is what the bucket was left with |
| `LimiterMeaning.FirstRequestIsServed` | src/auth/rate_limit.rs:531-555 | a first request leaves the rest of the burst |
| `Middleware.Handle` | src/auth/middleware.rs:113-261 | limiter, authenticator, success or failure record and tenant limit happen in this order, with this answer |
| `LimiterMeaning.TurnedAwayIff` | src/auth/middleware.rs:131-148 | a request is refused unexamined exactly when its client is banned or out of tokens |
| `LimiterMeaning.TurnedAwayAnswer` | src/auth/middleware.rs:131-148 | what it is told, and that it counts against nothing else |
| `LimiterMeaning.RefusedAnswer` | src/auth/middleware.rs:205-261 | a refused credential is answered with its error and counts exactly when its error is one of seven |
| `LimiterMeaning.AcceptedAnswer` | src/auth/middleware.rs:150-204 | an accepted one clears the record, is refused if expired, and is otherwise served exactly when its tenant has a token |
| `Middleware.BanHolds` | src/auth/middleware.rs:131-142 | until its deadline a banned client is refused unexamined and its record stays, whatever anybody sends |
| `Bans.RunRecords` | src/auth/middleware.rs:113-261 | over any run a client's entry is what its own recorded events make of it |
| `Bans.EntryIsItsWindow` | src/auth/rate_limit.rs:472-512 | an entry always counts exactly its current window of failures, with the ban they earned |
| `Bans.BannedIff` | src/auth/rate_limit.rs:457-512 | after any record a client is banned exactly when there is a current window, it holds the limit, and the ban has not run out |
| `Bans.BannedIffWindowIsFull` | src/auth/rate_limit.rs:457-512 | the same for a window in hand: the window decides both ways |
| `Bans.WindowIsUnique` | src/auth/rate_limit.rs:472-502 | a record has at most one current window |
| `Bans.FullWindowLocksOut` | src/auth/rate_limit.rs:457-555 | while a client's current window is full, opened by a success, by the first failure or by the hourly reset, its every request until the deadline is refused as banned |
| `Bans.BannedHasFailed` | src/auth/rate_limit.rs:457-555 | a client found banned after any run has a record that ends in a full window of failures |
| `Bans.EnoughFailuresBan` | src/auth/rate_limit.rs:472-502 | whatever its record was, among twice the limit less two failures within an hour (one, at a limit of one) one bans the client |
| `Bans.StraddlingFailuresDoNotBan` | src/auth/rate_limit.rs:472-502 | at every limit of two or more some record holds one failure fewer than that within two seconds, and no ban anywhere along it |
| `Attempts.RunIsItsCharges` | src/auth/middleware.rs:131-200 | what passes a client's or a tenant's bucket in a run, and what it then holds, is what its own charges make of it |
| `Attempts.ExaminedIsBounded` | src/auth/middleware.rs:131-148 | in any stretch of requests a client has at most its burst plus its rate times the stretch of credentials examined |
| `Attempts.ServedIsBounded` | src/auth/middleware.rs:189-204 | in any stretch of requests a tenant has at most its burst plus its rate times the stretch of requests served |
| `Attempts.RunsKeepSoundness` | src/auth/rate_limit.rs:515-587 | every run keeps a bucket one of its configuration |
| `KeyStore.InMemoryApiKeyStore.Lookup` | src/auth/store.rs:393-402 | the keys an index lists, in its order, an id with no key skipped |
| `KeyStore.InMemoryApiKeyStore.GetByPrefix` | src/auth/store.rs:393-402 | the stored keys the prefix index lists |
| `KeyStore.InMemoryApiKeyStore.ListForTenant` | src/auth/store.rs:408-417 | the stored keys the tenant index lists |
| `KeyStore.InMemoryApiKeyStore.Store` | src/auth/store.rs:367-382 | storing files the key, pushes its id on both indexes and zeroes its counter |
| `KeyStore.InMemoryApiKeyStore.Update` | src/auth/store.rs:424-432 | updating replaces a key that is there and leaves the indexes as they were |
| `KeyStore.InMemoryApiKeyStore.Delete` | src/auth/store.rs:434-451 | deleting removes the key, its id from both index entries and its counter |
| `KeyStore.InMemoryApiKeyStore.RecordUsage` | src/auth/store.rs:453-467 | using a key counts once and copies the count to the key |
| `KeyStore.InMemoryApiKeyStore.SetEnabled` | src/auth/store.rs:469-485 | enabling or disabling changes that flag alone |
| `KeyStore.StepKeepsSoundIff` | src/auth/store.rs:367-485 | an operation keeps indexes and keys in agreement exactly when it stores a fresh id or updates without moving prefix or tenant |
| `KeyStore.RunsStaySound` | src/auth/store.rs:367-485 | every run of such operations keeps them in agreement |
| `KeyStore.StepKeepsOrder` | src/auth/store.rs:367-485 | no disciplined operation changes the order in which keys that stay are listed under their prefix |
| `KeyStore.StoredIsListedLast` | src/auth/store.rs:367-382 | a stored key is listed after every key of its prefix |
| `KeyStore.ListedInOrderOfStoring` | src/auth/store.rs:367-485 | after every disciplined run, of two keys of one prefix the one stored earlier is listed first, and only that one |
| `KeyStore.LookupsAreScans` | src/auth/store.rs:393-417 | a lookup by prefix or tenant finds exactly the stored keys with it, each once |
| `Authn.Authenticate` | src/auth/authn.rs:219-270 | the checks happen in this order, and only an accepted key has its use recorded |
| `Principals.LooksLikeKeyIff` | src/auth/authn.rs:128-154 | which texts look like a key, and which eight characters it is looked up by |
| `Principals.PresentedKey` | src/auth/authn.rs:176-191 | the key header is read as it is, else what follows a bearer scheme |
| `Principals.AnswerOfRun` | src/auth/authn.rs:194-270 | after any disciplined run of the store the answer to any credential: which refusal, or the name, tenant, roles and expiry that the last write gave the earliest stored matching key |
| `Principals.TenantListsTheKey` | src/auth/authn.rs:194-214 | nobody is put in a tenant under which no key with the credential's hash is listed |
| `Principals.SwitchedOffIsRefused` | src/auth/store.rs:469-485 | a key last switched off is never accepted |
| `Principals.LiveKeyIsLastWritten` | src/auth/store.rs:367-485 | after any run a key is what was last written under its id |
| `Principals.LiveKeyIsEnabledIff` | src/auth/store.rs:367-485 | it is enabled exactly when its last write or switch left it so |
| `Principals.UsesAreCounted` | src/auth/store.rs:453-467 | its counter holds its uses since it was stored |
| `Authn.PrefixLookupIsScan` | src/auth/authn.rs:233-254 | with a collision-free hash the matching candidates by prefix are exactly the matching stored keys |
| `Authn.AuthenticatesIff` | src/auth/authn.rs:219-270 | a key is accepted exactly when it is well formed and the first listed key with its hash is enabled and unexpired |
| `Authn.RunAuthenticatesIff` | src/auth/authn.rs:219-270 | after any disciplined run of the store, a key is accepted exactly when it is well formed and the earliest stored of the keys left with its hash is enabled and unexpired |
| `Authn.FirstMatchIsFirstListed` | src/auth/authn.rs:233-254 | the candidate found is the key that is listed before every other with the hash |
| `Authn.FirstListedIsFirstStored` | src/auth/store.rs:367-382 | over every disciplined run that is the key stored before every other with the hash |
| `Authn.DisabledTwinHides` | src/auth/authn.rs:246-260 | a disabled key stored first hides an enabled one made from the same plaintext |
| `Authn.AuthenticateChain` | src/auth/authn.rs:304-319 | the first success wins, else the last complaint that is not a missing credential |
| `Authn.UnauthenticatedIff` | src/auth/authn.rs:304-319 | the chain says no credential exactly when every authenticator did |
| `Authn.CountedIff` | src/auth/authn.rs:304-319 | for all chains a refusal counts as a rejected credential exactly when some authenticator rejected it and every later one saw none |
| `Authn.OutageIsCounted` | src/app.rs:1380-1412 | when the authenticator for tokens reports a server fault, the refusal is counted exactly when the API key authenticator is presented anything, a bearer token included |
| `Authn.BearerTokenIsPresented` | src/auth/authn.rs:176-191 | a bearer token with a dot in it is presented to the API key authenticator and rejected |
| `Reloadable.ReloadableAuthorizer.Swap` | src/auth/reloadable.rs:67-74 | swapping replaces the set and its sequence |
| `Reloadable.ReloadableAuthorizer.PollOnce` | src/auth/reloadable.rs:147-186 | one turn of the poller loads a newer revision that compiles and otherwise changes nothing |
| `Reloadable.RunsStaySound` | src/auth/reloadable.rs:53-84 | in every run, with any number of swaps under way at once, the set in force is one whole revision of the log |
| `Reloadable.MatchesIff` | src/auth/reloadable.rs:67-74 | at every point of every run the set in force is the revision its number names exactly when the revision whose set was written last and the one whose number was written last compile alike |
| `Reloadable.ApartRunsAgree` | src/auth/reloadable.rs:67-74 | while no two of any number of swaps overlap, the set is the revision its number names whenever nobody is half way |
| `Reloadable.PollerNeverGoesBack` | src/auth/reloadable.rs:134-190 | with the poller as only writer swaps never overlap and the loaded number never decreases |
| `Reloadable.PollIsItsSteps` | src/auth/reloadable.rs:147-186 | the poller's separate steps (read the newest revision, look at what is loaded, write the set, write the number, or give up), undisturbed, amount to one turn of its loop |
| `Reloadable.MissIsATurn` | src/auth/reloadable.rs:149-156 | with nothing to read, or no store, a turn loads nothing |
| `Reloadable.RunConverges` | src/auth/reloadable.rs:134-190 | once the log has stopped on a revision that compiles, a replica whose set and number agree and which completes any turn of its poller is on that revision and stays there |
| `Reloadable.LoadConverges` | src/auth/reloadable.rs:161-176 | a turn that loads the newest revision does so whatever was loaded before, agreeing or not |
| `Reloadable.NewestNumberStays` | src/auth/reloadable.rs:157-159 | once the newest number is loaded, right or wrong, no run of the poller changes what is loaded |
| `Reloadable.NothingToLoadIff` | src/auth/reloadable.rs:157-161 | a replica whose set matches its number has nothing newer to load exactly when it is on the newest revision |
| `Reloadable.UnusableRevisionChangesNothing` | src/auth/reloadable.rs:149-186 | while the newest revision does not compile no run of the poller changes what is loaded |
| `Reloadable.OverlapAgreesIff` | src/auth/reloadable.rs:67-74 | two overlapping swaps, of any two writers, end in agreement exactly when the later set's writer also writes its number last, or the sets are equal |
| `Reloadable.OverlappingSwapsStick` | src/management/policies.rs:374-417 | two policy requests whose swaps overlap leave an old set under the newest number, and no run of the poller corrects it |
| `Reloadable.LateInstallGoesBack` | src/management/policies.rs:374-417 | a request's swap that arrives late puts an older revision back in force |
| `Utf8.DecodeInverts` | src/names.rs:533 | decoding inverts encoding on every text |
| `Utf8.EncodeInverts` | src/names.rs:533 | bytes that decode are exactly the encoding of their text |
| `ViewChain.PercentDecode` | src/names.rs:514-534 | the byte loop computes the decoding, or nothing for an unreadable escape or a result that is not UTF-8 |
| `ViewChain.UnescapeInverts` | src/names.rs:514-534 | decoding inverts every encoding that escapes at least `%` and `,`, and no such encoding holds a comma |
| `ViewChain.DecodingNeverGrows` | src/names.rs:514-534 | decoding never makes a component longer |
| `ViewChain.EscapeIsReadIff` | src/names.rs:520-527 | an escape is read exactly when it is two hexadecimal digits, or a plus sign and one |
| `ViewChain.UnescapeIff` | src/names.rs:514-534 | on every list of bytes, decoding is reading each byte as itself and each escape as the byte it writes in hexadecimal |
| `ViewChain.ParseViewChain` | src/names.rs:475-506 | the loop over the parts computes the chain, or nothing when any part cannot be read |
| `ViewChain.ChainIff` | src/names.rs:475-506 | a parameter is read exactly when it is not empty and each component decodes to a validated path of two names or more, and as those paths with slashes |
| `ViewChain.ViewChainRoundTrip` | src/names.rs:475-506 | a non-empty list of validated paths, each spelled in any such encoding and joined with commas, reads back as the rendered list |
| `ViewChain.RenderingIsInjective` | src/names.rs:503-504 | different lists of validated paths are rendered differently |
| `ViewChain.SplittingComesFirst` | src/names.rs:455-464 | an escaped comma is part of one name, which decoding first would split |
| `ViewChain.RawParameter` | src/auth/middleware.rs:504-515 | the parameter is found exactly when one pair of the query carries it |

## Left out

- HTTP, header parsing, response bodies, status tables, the console, the command line and configuration loading.
- The policy engine's own language, validator and evaluator: how each policy came out for a request is given, and
  Cedar's rule (a satisfied forbid wins, an erring policy contributes nothing) is stated in `Decision.Engine`.
- SHA-256: `Authn` takes the hash as a function and says where it must be collision-free; `Fingerprint` stops at the
  bytes that are hashed. Constant-time comparison and the dummy verification are timing, which the model has not.
- The `iceberg` types: a schema is its name and id indexes and its column types; how text is read as a date, a time, a
  decimal, a UUID or bytes is a function of the schema; 32-bit floats are reals; and the predicate constructors `and`,
  `or` and `negate` are written out in `Truth` as that crate documents them. How an operator compares two values is a
  parameter; that complementary operators complement, with NULL giving the unknown truth, is part of
  `Truth.AtomTruth`.
- Unicode tables: general category and NFC are two functions in `Names.Unicode`, assumed only to cover the two control
  characters used as separators.
- The standard library's address parsers are functions in `RemoteIp.Parsers`. Range syntax (`Cidr::parse`) is not
  modelled.
- Cache eviction, idle timeouts and locks of the limiter: maps are never evicted and requests are sequential. A ban
  configured longer than the idle timeout of an hour could be forgotten early; the model does not show that.
- Clocks are arguments, one reading per request; floating-point tokens are reals.
- RateLimiters.RateLimiter.RecordAuthFailure: failure entries are values in a map, where the source locks an entry
  object and updates it; token buckets are objects, as in the source.
- RateLimiters.RateLimiter.CheckIpLimit: the log line and the audit record of a refusal are not modelled.
- Purge.PurgeTableData: files are read from a given table of contents rather than an object store, deletions run one
  after another, and the warning about write paths is left out.
- Lifecycle.CreateIs: which namespaces exist is not part of the catalog, nor are views, whose names a table may not
  take.
- Lifecycle.RunKeepsTablesHeld: staged creation, federation and multi-table transactions are left out; the list of names
  a table has had is kept by the model only.
- Sharing.ColonDirectoryLosesItsMetadata: a commit records the location as it is written. Whether the metadata builder
  of the `iceberg` crate drops a final slash first is not part of this model; if it does, this spelling is never
  recorded.
- Warehouses.ConfiguredDefaultPassesIff: creating the local directory can fail, which is I/O, and drive letters are left
  out; that the working directory is absolute and free of `..` is what the operating system promises.
- Alignment.AlignmentIsExactEnforcement: row order inside a file set is kept, and a file is judged by its first row.
- Residual.ResidualIsRequestAndPolicy: when case is ignored it asks that every column's own name binds to it; a table
  with two columns that differ only in case has no one case-insensitive reading of a name.
- BindingLaws.BindableBySomeTableIff: for a reading in which case matters; `BindsIff` covers both.
- Authn.AuthenticateChain: what each authenticator answers is given, so the side effects of asking it are not part of
  it.
- Reloadable.RunsStaySound: one replica is followed at a time; what others append is a step of its own.
- Mask projections and the refusal of masked statistics in `src/catalog/v1/restrictions.rs` and
  `src/catalog/v1/plan.rs`: which columns a mask names is `Obligations.MaskOf`; nested field ids are not modelled.
- Warnings and their deduplication (`warn_voided`, `warn_if_cooperative`), audit events, and the one-line description
  of obligations.
- JSON Web Tokens, key fetching, credential vending and request signing, the idempotency store, and Windows paths.
- Capability presets: a fieldwise conjunction.
