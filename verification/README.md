# Verification of the ERP's backup, finance, exchange and call-list core

A Dafny project that models the parts of the system whose guarantees span many steps, and proves
them. `dafny verify dfyconfig.toml` checks everything.

- **Backup and restore** (`internal/backup`). `WriteBarrier`: writers and backups interleave step by
  step; every archive is one instant, less the files the system refused, under an exact condition. `StorageRoot`: the storage tree and the swap of a staged tree,
  with every call able to fail and a crash possible after each. `DatabaseNames`, `Cluster`,
  `RestoreEngine`, `Retention`: the database catalog, the candidate swap, the journal, both restore
  modes, promotion and pruning. `ObjectKeys`, `Manifests`, `FileTrees`, `Archives`, `ArchiveWriter`:
  storage keys, manifest validation, the parser shared by Verify and Restore, staging, and the round
  trip of an archive. `Staging` and `Recovery` join them: from a run of requests and backups to the
  installation a restore leaves.
- **Finance** (`internal/finance`). `PaymentPlan`: splitting invoice balances among installments.
  `Iban`: the MOD 97-10 check and which typing errors it catches. `LedgerBooks` and `Ledger`: the
  append-only cash and bank ledger with its negative-balance policy, transfers, reversals and
  idempotency keys.
- **Call lists** (`internal/crm`). `CallQueue` and `CallDesk`: leads, lists and claims under every
  run of claims, calls, releases, edits, imports and passing time.
- **Tabular exchange** (`internal/dataexchange`). `CellRef`, `Sheets`, `Tables`, `LenientTable`,
  `DuplicateRows`: cell references, worksheets, tables, lenient headers and the duplicate check.
- **Activity feed** (`internal/dashboard`). `RecentFeed`: cutting each source before the union.

`Wrappers`, `Text`, `Counting`, `Utf8` and `Storage` hold what several modules share.

External effects are parameters: which statement, rename or write fails, what a failing removal
leaves behind, the stored exchange rate, the clock, generated identifiers and stamps. SHA-256 is any
function to 64 hexadecimal digits; the manifest's JSON form is any encoding whose decoder gives the
manifest back with every byte that is not UTF-8 replaced, as `encoding/json` does. `pg_dump` and
`pg_restore` are functions of which the second undoes the first. The
Unicode tables are any functions that agree on white space, ASCII digits, capital letters, brackets
and the six Turkish letters headers fold.

Where the code and its own comments or intentions part, the model follows the code:

- `engine.go:1060-1061` says a rollback with nothing stuck leaves the root as it was. A failing
  `RemoveAll` of a landed entry refutes it (`StorageRoot.NothingStuckIsNotEnough`); the exact
  condition is part of `StorageRoot.Root.SwapStorage`.
- A backup whose barrier session dies goes on. A request that begins before its last file is linked
  can leave an archive that is no instant (`WriteBarrier.RequestBlends`). A cleanup by another backup,
  or by a restore, which takes no lock, can leave one that claims to be complete and lacks a file
  (`WriteBarrier.CleanupLosesAFile`). Callers of the engine take an operation lease that keeps the
  latter away. What every step must meet is exactly `WriteBarrier.Guarded` (`WriteBarrier.GuardIsExact`).
- `engine.go:760-761` says Verify and Restore accept the same archives. Without a storage root they do
  not (`ArchiveWriter.RootlessRestoreSkipsTheSection`, `ArchiveWriter.RootlessRestoreRefusesFiles`);
  when they agree is `Archives.VerifyAndRestoreAgree`.
- `retention.go:26-28` says only databases the engine created are pruned. Names with a fraction of a
  second are pruned and promoted too (`DatabaseNames.ForeignNameIsAccepted`), and two of them can
  stand for one instant (`Retention.TiesHappen`), in which case a newest one can go
  (`Retention.TiedNewestCanGo`).
- A file whose key is not UTF-8 is backed up into an archive that can never be verified or restored
  (`ArchiveWriter.WrittenIsGenuine`).
- An error of the final unseal (`candidate.go:261`) is not matched by the test at `engine.go:586`, so
  a switched installation can be reported as an ordinary failure (`RestoreEngine.OpeningCanSlip`). The
  same goes for a rename whose reply is lost, which can leave no live database
  (`RestoreEngine.LostReplyCanSlip`); the exact condition is `RestoreEngine.Slips`.
- `engine.go:703-704` says a failing in-place load leaves the installation unchanged. It does not when
  the load was committed and only the answer is lost (`RestoreEngine.Engine.RestoreInPlace`).
- A single backslash in the live name is an escape to the catalog query, which then finds none of the
  retired databases (`Retention.BackslashHidesAll`).
- The engine no longer recognises its own retired databases when the live name is longer than 42
  bytes (`DatabaseNames.RetiredNameParsesBack`).
- Nothing checks the reader's caps when an archive is written, so a larger backup cannot be verified
  or restored (`ArchiveWriter.WrittenIsGenuine`).
- The replay of a transfer reversal compares transfer and reason but not the date
  (`Ledger.Ledger.ReverseAgain`).
- The IBAN check misses one family of transpositions (`Iban.TranspositionIsCaught`).
- `columnIndex` wraps around on references to columns that do not fit 64 bits
  (`CellRef.FarColumnsCollide`).

## Model

| member | source | states |
|---|---|---|
| `WriteBarrier.ArchivesDescribeOneInstant` | internal/backup/barrier.go:69-115 | in every interleaving of any number of writers, overlapping backups and cleanups in which no request begins before the last file of a backup is linked and nothing is taken out of a snapshot before it is hashed (barrier sessions may die), each finished archive is the installation at the instant its view was pinned, no writer being mid-request: dump, schema version, hashed objects and streamed bytes, less exactly the files that could be neither linked nor copied, which it lists as skipped |
| `WriteBarrier.GuardIsExact` | internal/backup/barrier.go:107-174 | that condition is exact, step by step: after any such run a step meets it exactly when no continuation by steps that meet it ends in an archive that is not its instant |
| `WriteBarrier.DegradedIsIncomplete` | internal/backup/engine.go:303-307 | an archive is marked degraded exactly when it is not the whole tree of its instant |
| `WriteBarrier.UpRunsAreGuarded` | internal/backup/barrier.go:107-174 | runs in which every barrier session outlives its capture and no restore cleans up during a walk meet it: the lock keeps requests and other backups out |
| `WriteBarrier.HoldersStay` | internal/backup/barrier.go:107-174 | while its session is up, a capturing backup is the one that holds the lock |
| `WriteBarrier.LockStaysUsed` | internal/backup/barrier.go:107-149 | no step leaves the lock with a backup that is over: releasing it, or failing, gives it up |
| `WriteBarrier.LockIsNeverLeftBehind` | internal/backup/barrier.go:107-149 | so in every run the holder is a backup still to release it |
| `WriteBarrier.PauseEnds` | internal/backup/barrier.go:107-174 | while a backup captures no request can begin, and once every backup has released the lock or failed any can |
| `WriteBarrier.QuietMeansStill` | internal/backup/barrier.go:107-143 | between requests no step of a backup or a cleanup changes rows or files |
| `WriteBarrier.BackupsGoForward` | internal/backup/engine.go:244-288 | a backup goes through its phases one at a time and never back, and hashes only a directory that is there and walked through |
| `WriteBarrier.RunsAreSound` | internal/backup/engine.go:244-288 | the invariant behind it holds in every state of such a run: each capture in progress belongs to the instant it pinned |
| `WriteBarrier.InvKept` | internal/backup/barrier.go:107-174 | every such step of a writer, a backup or a cleanup keeps that invariant |
| `WriteBarrier.CaptureAdvances` | internal/backup/engine.go:255-270 | each backup step (pin, list, link, copy or refuse a file, hash, read version, release) moves the capture on without leaving its instant |
| `WriteBarrier.CaptureSurvives` | internal/backup/barrier.go:160-174 | a step of anybody else cannot reach a file that is still to be linked |
| `WriteBarrier.CaptureSurvivesCleanup` | internal/backup/engine.go:932-946 | a cleanup that comes after the hashing, or finds nothing in the directory, does not change what is listed |
| `WriteBarrier.LinkAdvances` | internal/backup/engine.go:1187-1199 | a linked, copied or refused file keeps the directory a picture of what was captured |
| `WriteBarrier.TreeKept` | internal/storage/provider.go:124-170 | published files are never rewritten in place, so hard links keep showing the tree of the instant they were taken in |
| `WriteBarrier.ArchivesKept` | internal/backup/engine.go:286-384 | an archive that described an instant goes on describing it, and a new one describes the instant of its capture |
| `WriteBarrier.AnyRefusalHappens` | internal/backup/engine.go:1187-1199 | from every first state and for every set of refused files a guarded run ends in an archive that lacks exactly those, degraded if there are any |
| `WriteBarrier.FinishBackup` | internal/backup/engine.go:255-385 | from the pin on a backup can always run to its end |
| `WriteBarrier.RequestBlends` | internal/backup/barrier.go:107-143 | from every such run: a request that begins between the pin and the last link can, by changing the database and one file, leave an archive that matches no state at all |
| `WriteBarrier.RequestIsPinned` | internal/backup/barrier.go:107-143 | one that begins between the lock and the pin can too: the view is pinned in its middle |
| `WriteBarrier.UnlinkLosesAFile` | internal/backup/engine.go:1203-1231 | from every such run: a file taken out of a snapshot that is not hashed yet can be missing from the archive, which lists neither it nor that it is missing |
| `WriteBarrier.LostLockLetsRequestsIn` | internal/backup/barrier.go:107-143 | from every first state a dying session alone lets such a request in |
| `WriteBarrier.CleanupLosesAFile` | internal/backup/engine.go:257-264 | from every first state, for any of its files, without any request: a cleanup by a restore (engine.go:496), which takes no lock, or by a second backup once a session has died, leaves an archive that claims to be complete and lacks that file |
| `StorageRoot.Root.SwapStorage` | internal/backup/engine.go:1043-1116 | every state before the success point is safe (each live entry intact in the root or in the swap's own retired directory); success exactly when no needed step fails, and then the live entries are exactly the staged ones; after a failure the stuck entries are exactly those set aside whose rename back failed or whose name debris of another kind holds, and the root is as it was exactly when no debris stands under a new name and what is stuck is hidden by equal debris; other working directories untouched |
| `StorageRoot.Root.BeginSwap` | internal/backup/engine.go:1044-1057 | creating the retired directory and listing the root is safe and fails exactly for its own two faults |
| `StorageRoot.Root.MoveAside` | internal/backup/engine.go:1080-1089 | exactly as many entries as come before the first failing rename are set aside, every state on the way being safe |
| `StorageRoot.Root.LandStaged` | internal/backup/engine.go:1091-1115 | the landing half: swapped exactly when no rename into place fails, otherwise rolled back; no state on the way loses a live entry |
| `StorageRoot.Root.Land` | internal/backup/engine.go:1095-1109 | exactly as many entries as come before the first failing rename are in place |
| `StorageRoot.Root.PullOut` | internal/backup/engine.go:1099-1105 | staged entries that had landed are removed again, what a failing removal leaves behind included |
| `StorageRoot.Root.Rollback` | internal/backup/engine.go:1062-1070 | the result is exactly the set of entries whose rename back failed or found its place taken; all others are back |
| `StorageRoot.Root.RestoreOne` | internal/backup/engine.go:1064-1068 | one rename back succeeds exactly when it is not refused and its place is free for it |
| `StorageRoot.Root.FailAside` | internal/backup/engine.go:1071-1094 | after a failed rename aside the root is described exactly by what is stuck |
| `StorageRoot.Root.FailLanding` | internal/backup/engine.go:1098-1107 | after a failed landing the root is described exactly by what is stuck and what the removals left |
| `StorageRoot.Root.FinishSwap` | internal/backup/engine.go:1111-1115 | past the success point only the two directories of the swap can change |
| `StorageRoot.Root.CleanupInternalDirs` | internal/backup/engine.go:932-946 | exactly the snapshot and stage directories go, but for what cannot be removed; live entries and retired directories are never touched |
| `StorageRoot.Root.MakeScratch` | internal/backup/engine.go:1122-1136 | a snapshot or stage directory is made beside the live entries without disturbing them or any retired directory |
| `StorageRoot.Root.DropScratch` | internal/backup/engine.go:981-996 | exactly such a directory goes, or what a failing removal leaves of it stays; live entries and retired directories are not disturbed |
| `StorageRoot.Root.Run` | internal/backup/engine.go:1030-1042 | over any run of cleanups, snapshots, stagings and swaps, each of which has its effect, a leftover retired directory keeps its exact contents |
| `StorageRoot.RolledBack` | internal/backup/engine.go:1062-1070 | a rollback ends in the state described by what it could not put back |
| `StorageRoot.HiddenIsSame` | internal/backup/engine.go:1060-1070 | if no debris stands under a new name and what is stuck is hidden by equal debris, the live entries are what they were |
| `StorageRoot.SameIsHidden` | internal/backup/engine.go:1060-1070 | and only then |
| `StorageRoot.NothingStuckIsNotEnough` | internal/backup/engine.go:1060-1061 | the comment there is too strong: a swap that fails with nothing stuck and still leaves foreign debris among the live entries |
| `DatabaseNames.Truncate` | internal/backup/candidate.go:309-314 | a name never exceeds 63 bytes |
| `DatabaseNames.CandidateName` | internal/backup/candidate.go:297-299 | a candidate name fits |
| `DatabaseNames.RetiredName` | internal/backup/candidate.go:301-303 | a retired name fits |
| `DatabaseNames.TruncateKeepsTail` | internal/backup/candidate.go:305-314 | truncation never touches the stamp at the end |
| `DatabaseNames.CandidateIsNotRetired` | internal/backup/candidate.go:295-314 | a candidate name is never a retired name, however long the live name is |
| `DatabaseNames.RetiredNamesDiffer` | internal/backup/candidate.go:301-314 | different instants give different retired names |
| `DatabaseNames.GeneratedNamesAreNotLive` | internal/backup/candidate.go:297-314 | a generated name is the live name exactly for a live name of 63 bytes that ends in itself shifted by infix and stamp |
| `DatabaseNames.RetiredNameParsesBack` | internal/backup/retention.go:95-104 | a retired database is recognised again exactly when the live name has at most 42 bytes; beyond that it is never listed, pruned or promoted |
| `DatabaseNames.MomentsAreRendered` | internal/backup/retention.go:99-99 | the moments a stamp can name are exactly the renderings of the seconds of the years 0 to 9999 |
| `DatabaseNames.AcceptedMeans` | internal/backup/retention.go:99-99 | a text parses exactly when it is such a moment, perhaps a dot or comma with digits, and the zone |
| `DatabaseNames.ParsedNameIsRetired` | internal/backup/retention.go:95-104 | a catalog name the parser accepts is one the engine gave exactly when its suffix has 16 bytes, that is, no fraction of a second |
| `DatabaseNames.ForeignNameIsAccepted` | internal/backup/retention.go:99-99 | time.Parse reads fractions the layout does not have, so a name no restore ever gave is accepted |
| `DatabaseNames.RetiredNamesAreRetired` | internal/backup/candidate.go:301-314 | generated retired names are recognised by their stamp |
| `Cluster.Catalog.Create` | internal/backup/candidate.go:136-154 | a new, empty, open database under a free name, never one that has lived, also when the reply is lost; a taken name is refused |
| `Cluster.Catalog.Drop` | internal/backup/candidate.go:160-164 | the deferred drop removes one database, and only one that was never live |
| `Cluster.Catalog.Seal` | internal/backup/candidate.go:194-201 | changes nothing but one seal, with its error text |
| `Cluster.Catalog.Unseal` | internal/backup/candidate.go:203-209 | changes nothing but one seal, with its error text |
| `Cluster.Catalog.Rename` | internal/backup/candidate.go:230-257 | identity and content move with the name, also when the reply is lost; a database that ever lived only moves to the live or a retired name |
| `Cluster.Catalog.Load` | internal/backup/candidate.go:282-293 | loading reaches only a database that was never live |
| `Cluster.Catalog.SetAside` | internal/backup/candidate.go:226-244 | the live database is moved exactly when the seal is answered, the rename carried out and the retired name free, and this is known exactly when the rename is answered too; otherwise the catalog is the old one with exactly this seal: closed when the reply to sealing is lost, open again after the rename failed unless the reopening fails too |
| `Cluster.Catalog.PutInPlace` | internal/backup/candidate.go:245-264 | the second rename, its undo and the final unseal: which of the three ends is reached, and the catalog at each |
| `Cluster.Catalog.Swap` | internal/backup/candidate.go:221-265 | for every pattern of failing statements and lost replies the swap ends kept, stranded or replaced exactly as computed from the faults, touches only the three names and loses no database; when a database was moved and an error is returned, it names the retired one except exactly when a lost reply to a rename or a refused opening slips; a kept live database is open unless the reply to its sealing is lost, its reopening fails or it was closed before |
| `Cluster.RenameBack` | internal/backup/candidate.go:249-256 | the undo of a rename restores the catalog exactly |
| `Cluster.StrandedNamesRetired` | internal/backup/candidate.go:250-254 | the error of a failed undo always names the retired database |
| `Cluster.RenameKeeps` | internal/backup/candidate.go:230-257 | a rename keeps "every database that ever lived is there under the live or a retired name" |
| `Cluster.DropKeeps` | internal/backup/candidate.go:160-164 | so does the drop of a database that never lived |
| `RestoreEngine.Engine.RestoreViaCandidate` | internal/backup/engine.go:523-614 | journal a prefix of Prepared, Switching, Switched, Committed; nothing changed when Switching is recorded or unless it is; no earlier database dropped or altered; a plain error means an unchanged installation exactly when the swap does not slip; Committed means both halves switched and checked; success exactly when no needed step fails; whatever fails, the live database stays, goes missing or is the new one; the whole catalog is known for every pattern of faults, and a candidate is left in it only when it cannot be dropped or the reply to its creation is lost |
| `RestoreEngine.Engine.RestoreInPlace` | internal/backup/engine.go:688-726 | the same for the in-place mode, where a plain error means nothing changed unless the load was committed and only the answer is lost; the comment at engine.go:703-704 leaves that case out |
| `RestoreEngine.Engine.FinishRestore` | internal/backup/engine.go:593-613 | after the database switch every failure is reported as inconsistent, and Committed means the staged files are the live ones |
| `RestoreEngine.Engine.WithCandidate` | internal/backup/engine.go:546-613 | from the created candidate on: unless the switch is known to have succeeded the candidate is dropped again, so it is gone whenever the drop can be made, and the rest of the catalog is exactly what the swap leaves |
| `RestoreEngine.Engine.BuildAndSwitch` | internal/backup/engine.go:556-591 | the swap is reached exactly when load, preparation and both records succeed; where it is not, the catalog is the old one with what the load put into the candidate |
| `RestoreEngine.CatalogLeft` | internal/backup/engine.go:545-591 | swap and deferred drop together leave the earlier databases as they were or as the swap moved them, and the candidate only where its drop fails |
| `RestoreEngine.Engine.RecordAndSwitch` | internal/backup/engine.go:567-591 | the intent is recorded before the first statement of the swap |
| `RestoreEngine.Engine.Record` | internal/backup/engine.go:728-754 | a record is written once, in order, and may be written although its write reported an error |
| `RestoreEngine.Engine.Promote` | internal/backup/retention.go:150-171 | a retired database becomes live exactly when it is one, exists and the swap succeeds; the replaced one is retained; the whole catalog is the one the swap leaves |
| `RestoreEngine.Engine.Run` | internal/backup/retention.go:143-171 | over every run of candidate restores, promotions and writes, with anything failing, every database that was ever live is found under the live or a retired name with its last live content: that of the last write made while it was the live one; and each command changes the catalog exactly as its faults say |
| `RestoreEngine.TraceRemembers` | internal/backup/retention.go:143-171 | in every such run what is remembered of a database changes only by writes to it while it is live |
| `RestoreEngine.EndsWell` | internal/backup/candidate.go:211-265 | every end of the swap keeps all databases that were there and remembers them |
| `RestoreEngine.SwapEndsWell` | internal/backup/candidate.go:211-265 | what each end of the swap means for the databases that were there before |
| `RestoreEngine.SwapKeepsAll` | internal/backup/candidate.go:211-265 | no end of the swap loses a database, with or without the later drop of the candidate |
| `RestoreEngine.WhatIsServed` | internal/backup/engine.go:583-591 | the installation serves what it served before exactly when the swap kept it or was not reached, and otherwise nothing or the new database |
| `RestoreEngine.PromotionKeepsAll` | internal/backup/retention.go:164-171 | a promotion loses nothing either |
| `RestoreEngine.OpeningCanSlip` | internal/backup/engine.go:583-590 | the exceptions are real, in the engine's own words: a denied final unseal (candidate.go:206, 261) is reported as a plain error although the database was replaced |
| `RestoreEngine.LostReplyCanSlip` | internal/backup/candidate.go:235-243 | so is a rename aside whose reply is lost, after which there is no live database, and on an empty cluster a rename into place |
| `Retention.ListRetained` | internal/backup/retention.go:64-93 | every database the LIKE query finds and the parser reads, once, newest first; databases of one instant in any order |
| `Retention.LikeMeans` | internal/backup/retention.go:75-79 | the query's pattern place by place: an underscore fits anything, an escaped character itself, and any text may follow the prefix |
| `Retention.PlainNamesAreFound` | internal/backup/retention.go:75-79 | without a backslash in the live name the query misses nothing the parser would read |
| `Retention.BackslashHidesAll` | internal/backup/retention.go:75-79 | a backslash there is an escape: unless another one follows it or a % comes before it, none of the installation's retired databases is ever listed or pruned |
| `Retention.Prune` | internal/backup/retention.go:108-141 | drops exactly the listed databases from place keep on that are not younger than the cutoff; after a failing drop only such ones are gone; a dry run drops nothing |
| `Retention.PlaceIsRank` | internal/backup/retention.go:124-127 | a database has all newer ones, and only newer or tied ones, ahead of it in the listing |
| `Retention.SlatedByRank` | internal/backup/retention.go:124-130 | with enough newer ones an old database goes whatever the order; without ties exactly then |
| `Retention.SameInstant` | internal/backup/retention.go:95-104 | two names stand for one instant exactly when they agree in the second and in nine digits of the fraction |
| `Retention.FractionIsCutOff` | internal/backup/retention.go:99-99 | the nine digits are the fraction in nanoseconds, what is beyond them cut off |
| `Retention.OneGivenNamePerInstant` | internal/backup/retention.go:95-104 | no two names the engine gave stand for one instant |
| `Retention.TiesHappen` | internal/backup/retention.go:92-99 | foreign names can: a half written with one digit or with two |
| `Retention.NewestIsKept` | internal/backup/retention.go:109-111 | a database with no newer one comes first and survives every policy, a keep of zero or less included |
| `Retention.TiedNewestCanGo` | internal/backup/retention.go:22-23 | but of two databases with no newer one, which only foreign names can make, one can go |
| `Retention.OnlyRetainedGo` | internal/backup/retention.go:81-86 | the live database is never dropped, and what is dropped carries prefix and moment; it is one the engine named exactly when its suffix has 16 bytes |
| `Retention.PruneAgainFindsNothing` | internal/backup/retention.go:108-141 | pruning twice with one policy is pruning once, in whatever order ties are listed |
| `ObjectKeys.JoinSplit` | internal/backup/archive.go:62-62 | splitting at slashes loses nothing |
| `ObjectKeys.SplitJoin` | internal/backup/archive.go:62-62 | and is inverse to joining segments without slashes |
| `ObjectKeys.PlainIsClean` | internal/backup/archive.go:58-60 | a path of ordinary segments is canonical |
| `ObjectKeys.CleanLeadsThere` | internal/backup/archive.go:58-60 | the segments path.Clean keeps are names after nothing but steps up, and walking them leads where the given ones lead, from anywhere |
| `ObjectKeys.CleanMeansTheSame` | internal/backup/archive.go:58-60 | so the cleaned path leads to the same place as the given one and is absolute exactly if that is |
| `ObjectKeys.PlainDir` | internal/backup/archive.go:135-135 | the parent of such a path drops its last segment, and ends at "." |
| `ObjectKeys.ValidKeyIsPlain` | internal/backup/archive.go:43-83 | an accepted key consists of ordinary segments only |
| `ObjectKeys.ValidateObjectKey` | internal/backup/archive.go:43-83 | accepts exactly the relative paths of at most 1024 bytes, without NUL, backslash or drive letter, whose segments are ordinary, not internal, do not end in a space or a dot and are no device name |
| `ObjectKeys.CutIsExact` | internal/backup/archive.go:85-100 | a device name in any case and with any extension is what the cut at the first dot finds |
| `ObjectKeys.SegmentsMakeKeysCanonical` | internal/backup/archive.go:58-77 | the canonical-path comparison is implied by the segment checks |
| `ObjectKeys.AncestorsArePrefixes` | internal/backup/archive.go:132-140 | the folders on the way to a path are the joins of its proper prefixes, both directions |
| `ObjectKeys.ClashesWith` | internal/backup/archive.go:132-140 | the ancestor walk ends and finds a clash exactly when some key is a proper directory prefix |
| `Manifests.ValidateManifest` | internal/backup/archive.go:103-142 | accepts exactly the manifests with the right version, sizes, digests, count, valid distinct keys and no key that is a directory of another |
| `Manifests.CheckSha256Hex` | internal/backup/archive.go:144-155 | accepts exactly 64 digits among 0-9 and a-f |
| `Manifests.NoClash` | internal/backup/archive.go:132-140 | the second loop decides prefix-freedom of the whole key set |
| `FileTrees.ValidKeyIsInside` | internal/backup/archive.go:43-83 | a key and every folder on the way to it stay inside the root and name no reserved or internal directory |
| `FileTrees.Tree.MkdirAll` | internal/backup/engine.go:1003-1007 | creates exactly the missing folders of a path, and refuses exactly at a file on the way |
| `FileTrees.Tree.Put` | internal/backup/engine.go:1002-1021 | for keys of an accepted manifest, in any order, parents-first exclusive creation never fails on a name |
| `FileTrees.Tree.FilledIsConfined` | internal/backup/engine.go:975-1021 | nothing created lies outside the root or under a reserved name |
| `FileTrees.ParentOf` | internal/backup/engine.go:1003-1003 | the folders needed by a key are its parent and the parent's folders |
| `Archives.WalkStorage` | internal/backup/engine.go:843-905 | accepts exactly when the stream is whole, all storage entries are regular files and they are a rearrangement of the manifest's objects with equal size and digest; with a staging tree the tree then holds exactly those bodies |
| `Archives.Rearranged` | internal/backup/engine.go:843-888 | the walk's own tests (known, unseen, none missing) amount to being a permutation |
| `Archives.OrderDoesNotMatter` | internal/backup/engine.go:839-888 | the verdict is the same for every order of the entries |
| `Archives.MisfitCondemns` | internal/backup/engine.go:861-882 | stopping at the first misfit is right: no continuation could make the section acceptable |
| `Archives.WalkedToTheEnd` | internal/backup/engine.go:884-887 | at the end only missing objects are left to check |
| `Archives.ReadManifest` | internal/backup/engine.go:787-808 | succeeds exactly for a first entry holding an acceptable manifest |
| `Archives.VerifyDumpEntry` | internal/backup/engine.go:812-837 | the second entry passes exactly as a regular file under the dump's name whose length and digest are the listed ones |
| `Archives.Verify` | internal/backup/engine.go:765-782 | accepts exactly the archives that are what their manifest says, and reports that manifest; in particular the second entry is a regular file under the dump's name whose body has the listed size and digest |
| `Archives.Open` | internal/backup/engine.go:441-492 | a restore gets past manifest and dump exactly for a readable manifest, a second entry that is a regular file under the dump's name with the listed size and digest and, without a storage root, no listed object |
| `Archives.Stage` | internal/backup/engine.go:974-1028 | staging succeeds exactly for a section Verify accepts whose files the disk takes, and then holds exactly the listed files |
| `Archives.Unpack` | internal/backup/engine.go:441-501 | with a storage root Restore reads exactly what Verify accepts, unless the disk refuses a file; without one it reads no section and refuses listed objects; it hands on exactly the listed files and the checked dump; the dump handed on is the body of the second entry, of the listed size and digest |
| `Archives.VerifyAndRestoreAgree` | internal/backup/engine.go:760-761 | on an archive with readable manifest and dump the two agree exactly when there is a storage root, or nothing is listed and a whole section without storage entries follows, or something is listed and the section does not match |
| `ArchiveWriter.RootlessRestoreSkipsTheSection` | internal/backup/engine.go:495-501 | otherwise they do not: with nothing listed, every torn section and every section with a storage entry is restored over without a root and refused by Verify |
| `ArchiveWriter.RootlessRestoreRefusesFiles` | internal/backup/engine.go:465-467 | and every genuine archive with files is refused without a root |
| `Archives.GenuineContentsMatch` | internal/backup/engine.go:892-905 | the unpacked files are the listed ones, byte count and digest included |
| `ArchiveWriter.Create` | internal/backup/engine.go:326-384 | fails exactly for a key that could not be restored, a file that is gone or has another size when it is streamed, or a failing write; otherwise writes manifest, dump and every file |
| `ArchiveWriter.SectionReadsBack` | internal/backup/engine.go:353-376 | what was written describes itself and unpacks to what was captured |
| `ArchiveWriter.WrittenIsGenuine` | internal/backup/engine.go:326-384 | a written archive is accepted exactly when the reader's caps hold, every key is UTF-8 and the streamed files have the digests they were listed with |
| `ArchiveWriter.DamagedDumpIsRefused` | internal/backup/engine.go:826-835 | a written archive whose dump has been replaced by anything of another size or digest is genuine for no manifest and restorable for none, with or without a storage root |
| `ArchiveWriter.LostKey` | internal/backup/engine.go:326-329 | a key that is not UTF-8 comes back from JSON as another one, so its entry matches no listed object |
| `Utf8.WidthIsExact` | internal/backup/engine.go:326-329 | a string starts with a character exactly when it starts with the UTF-8 bytes of a code point |
| `Utf8.SurvivesIfValid` | internal/backup/engine.go:326-329 | a string comes back from JSON as it was exactly when it is UTF-8 |
| `Utf8.ReplacedIsValid` | internal/backup/engine.go:326-329 | what comes back always is |
| `ArchiveWriter.BackUpAndRestore` | internal/backup/engine.go:756-782 | round trip: backup, verify and restore of a tree that stays as it was captured give back dump and files byte for byte exactly within the caps of archive.go:16-20 and for UTF-8 keys |
| `Staging.BuildFinds` | internal/backup/engine.go:1002-1021 | walking down the staged directory finds exactly the files it was built from |
| `Staging.NestShows` | internal/backup/engine.go:1002-1021 | the directory of accepted keys shows exactly their files and has no reserved name at its top |
| `Staging.StagedIsSwappable` | internal/backup/engine.go:1095-1098 | which is what the storage swap relies on |
| `Recovery.Restore` | internal/backup/engine.go:441-520 | an archive that is not accepted changes nothing that serves traffic; a finished restore serves the content of its dump and, with a storage root, exactly its files; with nothing failing an accepted archive is restored; no database is lost; no snapshot or stage of this or an earlier run is left that can be removed, and every retired directory is kept |
| `Recovery.RestoreWithFiles` | internal/backup/engine.go:495-512 | staging, switch and removal of the stage end with exactly the staged files live, and no working directory but this stage and the swap's own is touched |
| `Recovery.ScratchIsGone` | internal/backup/engine.go:495-512 | what a restore leaves beside the live entries: its stage only if it cannot be removed, and every older retired directory |
| `Recovery.WrittenIsAccepted` | internal/backup/engine.go:326-384 | an archive as Create writes it is accepted exactly within the caps, for UTF-8 keys, past the gates and on a disk that takes the files |
| `Recovery.BackUpAndRecover` | internal/backup/engine.go:234-520 | end to end: for every run of requests and backups and every archive finished in it, a restore on any installation ends with the rows and files of one quiet instant of that run being served, and nothing lost; an archive that cannot be recovered changes nothing |
| `PaymentPlan.CheckPlan` | internal/finance/payment_plans.go:77-110 | decides exactly the rules on counts, order of due dates, positive amounts and equal totals |
| `PaymentPlan.CreatePaymentPlan` | internal/finance/payment_plans.go:197-220 | terminates within bounds; parts sum exactly to every installment and every invoice, tile each invoice from zero without gap or overlap in due-date order, are each the whole overlap of two stretches of one line, repeat no pair, and number at most sources + installments - 1 |
| `PaymentPlan.SourcesLast` | internal/finance/payment_plans.go:202-203 | equal totals are why the loop never indexes past the sources |
| `PaymentPlan.LastCutClosesBoth` | internal/finance/payment_plans.go:213-220 | the last part closes the last installment and the last invoice together |
| `PaymentPlan.CutKeepsPlace` | internal/finance/payment_plans.go:203-208 | each part is the full overlap of its installment with its invoice |
| `PaymentPlan.CutKeepsSums` | internal/finance/payment_plans.go:209-218 | each part is counted once for its installment and once for its invoice |
| `PaymentPlan.CutKeepsShape` | internal/finance/payment_plans.go:209-218 | each part starts where the invoice's earlier parts end and repeats no pair |
| `Iban.Remainder` | internal/finance/account_core.go:326-337 | the streaming remainder is the remainder of the full expanded integer; a foreign character is refused |
| `Iban.NormalizeIban` | internal/finance/account_core.go:307-342 | accepts exactly blank text and text that spells a valid IBAN once white space and case are put aside, and returns that spelling |
| `Iban.NormalizeTwice` | internal/finance/account_core.go:305-321 | normalising an accepted value again changes nothing |
| `Iban.WhiteSpaceIsIgnored` | internal/finance/account_core.go:309-312 | inserted white space makes no difference |
| `Iban.SubstitutionIsCaught` | internal/finance/account_core.go:322-340 | mistyping one digit as a digit or one letter as a letter is always rejected |
| `Iban.TranspositionIsCaught` | internal/finance/account_core.go:322-340 | swapping two unequal neighbours, the pair split by the rearrangement included, goes unnoticed exactly for a digit and the letter worth eleven times as much (1B, 2M, 3X) behind the check digits |
| `Iban.BlindPairExists` | internal/finance/account_core.go:322-340 | an accepted IBAN that stays accepted when such a pair changes places |
| `Iban.NumberAppend` | internal/finance/account_core.go:325-337 | the expanded integer of a concatenation |
| `Iban.CancelPowers` | internal/finance/account_core.go:327-337 | powers of ten can be cancelled modulo 97 |
| `Iban.Replaced` | internal/finance/account_core.go:325-340 | replacing a stretch by one of equal written length is noticed unless both agree modulo 97 |
| `Iban.PairOrders` | internal/finance/account_core.go:327-337 | when the two orders of a pair agree modulo 97 |
| `Iban.StraddleIsCaught` | internal/finance/account_core.go:325-325 | the digits on both sides of the rearrangement point: no power of ten in reach is 1 modulo 97 |
| `LedgerBooks.ConvertIsNearest` | internal/finance/account_core.go:742-742 | the base amount is the nearest tick of amount times rate |
| `LedgerBooks.BalanceIsInLessOut` | internal/finance/account_core.go:614-619 | a balance is what came in less what went out, in the account currency and in the base currency |
| `LedgerBooks.TransferConserves` | internal/finance/account_core.go:1125-1130 | the two legs leave the sum of balances unchanged in account and in base currency |
| `LedgerBooks.SumPosted` | internal/finance/account_core.go:614-619 | a row changes exactly its own account's balance |
| `LedgerBooks.ReversalLeavesNothing` | internal/finance/account_core.go:1089-1108 | a transfer and its reversal contribute zero to every account in both currencies, in every reachable ledger |
| `LedgerBooks.ReversalsAreFinal` | internal/finance/account_core.go:1169-1178 | a transfer has at most one reversal and no reversal has one |
| `LedgerBooks.OneOpening` | internal/finance/account_core.go:708-716 | an opening balance is its account's first movement and only one |
| `LedgerBooks.PostedRowKeepsOrder` | internal/finance/account_core.go:708-742 | a row that fits keeps unique keys, first openings, sound amounts and single reversals |
| `LedgerBooks.SolventAfter` | internal/finance/account_core.go:614-630 | a covered withdrawal leaves no balance negative |
| `Ledger.Ledger.PostMovement` | internal/finance/account_core.go:644-753 | a known key is answered with the first record or a conflict and adds no row; a new one is posted exactly under the stated conditions, as exactly one row at the rate found; refused as not enough only for an uncovered withdrawal under BLOCK, or under WARN by a caller who may not override; and such a caller never makes a balance negative |
| `Ledger.ComparesPayload` | internal/finance/account_core.go:676-678 | of two payloads under one key the second passes against the record of the first exactly when account, kind, direction, amount, date and both texts agree |
| `Ledger.RowComparesPayload` | internal/finance/account_core.go:676-678 | so does a row that was just posted |
| `Ledger.Ledger.EnforceNegativeBalance` | internal/finance/account_core.go:614-630 | lets a withdrawal through exactly when it is covered, the policy allows it or WARN is overridden; so without an override BLOCK and WARN let only covered ones through |
| `Ledger.Ledger.PostStaffMovement` | internal/finance/account_core.go:89-221 | advances and payroll: posted exactly for covered whole-kurus amounts on active TRY accounts under a new key, as exactly one row that tells the whole payload |
| `Ledger.Ledger.AddTransfer` | internal/finance/account_core.go:1038-1134 | both legs and the transfer, or nothing; a reversal uses the original's rate |
| `Ledger.Ledger.WriteTransfer` | internal/finance/account_core.go:1119-1134 | the three rows of a transfer keep every ledger invariant |
| `Ledger.Ledger.PostTransfer` | internal/finance/account_core.go:990-1148 | replay, conflict or a new transfer; sums of balances over all accounts unchanged in both currencies |
| `Ledger.ComparesTransfers` | internal/finance/account_core.go:1011-1030 | two transfers pass as one exactly when they differ in nothing but, perhaps, that one spells out the default description |
| `Ledger.TransferComparesPayload` | internal/finance/account_core.go:1011-1030 | so does a transfer that was just made |
| `Ledger.Ledger.Reverse` | internal/finance/account_core.go:1150-1187 | a new reversal exactly for an unreversed original that is no reversal itself, not before its date and covered by the receiving account; a repeated key is answered from transfer and reason alone; a reversal cannot be overridden |
| `Ledger.Ledger.Run` | internal/finance/account_core.go:614-630 | over every run of commands each takes exactly its effect on the three tables, rows are only added, and under BLOCK, or WARN while nobody overrides it, no balance is ever negative |
| `Ledger.Ledger.PostAgain` | internal/finance/account_core.go:664-680 | repeating a key after any run returns the first record when nothing in the payload differs, a conflict when anything does, and leaves the books as the run left them |
| `Ledger.Ledger.TransferAgain` | internal/finance/account_core.go:1028-1034 | the same for transfers, where a description left out and the default spelled out are one payload |
| `Ledger.Ledger.ReverseAgain` | internal/finance/account_core.go:1158-1165 | the same for reversals, except that the date of the repetition is not compared: a repetition with another date returns the first record |
| `Ledger.Ledger.TransferAndReverse` | internal/finance/account_core.go:1089-1114 | transfer and reversal restore every balance in both currencies whatever rates are stored in between |
| `CallQueue.ApplyCall` | internal/crm/model.go:81-121 | counts the call, never converts and never makes a lead new again; unanswered calls keep the status, conversations decide it |
| `CallQueue.NextItemState` | internal/crm/model.go:161-179 | an unanswered call closes the item exactly at the limit; a picked time wins over the list's interval |
| `CallQueue.Called` | internal/crm/calllists.go:833-838 | a call releases the claim and counts one attempt; the item waits on exactly after an unanswered call below the limit or a call put off, for the time picked or the list's interval |
| `CallQueue.ClaimKeepsHolders` | internal/crm/calllists.go:703-731 | a claim keeps "one holder per lead" over all lists and "one claim per user and list" |
| `CallQueue.HolderIsFirst` | internal/crm/calllists.go:703-716 | whoever holds a callable item is a candidate for it and ahead of every other item of the list |
| `CallQueue.OrderOfWork` | internal/crm/calllists.go:712-714 | what comes first: one's own claim before anything else, then due callbacks before fresh leads, then the earlier time, then the earlier place |
| `CallQueue.ShrinkingKeepsHolders` | internal/crm/calllists.go:598-602 | time passing and released claims keep both |
| `CallDesk.Desk.Pick` | internal/crm/calllists.go:703-714 | the chosen item is a candidate and every other candidate comes behind it; none exactly when there is no candidate |
| `CallDesk.Desk.Offers` | internal/crm/calllists.go:703-711 | an item is on offer exactly when it is in the list, open and due, its lead neither marked, converted nor disqualified, visible to the user, and nobody else claims it or another item of its lead |
| `CallDesk.Desk.ComesFirst` | internal/crm/calllists.go:712-714 | decides the order of the queue |
| `CallDesk.WhatIsOffered` | internal/crm/calllists.go:703-711 | what a candidate is, told by the fields of the item and its lead |
| `CallDesk.Desk.ClaimNext` | internal/crm/calllists.go:686-753 | what is handed out is open and due, its lead may be called and is visible, nobody else holds a claim on it, and it comes before everything else on offer (one's own claim, then callbacks, then time, then place); it becomes the user's for 15 minutes and their other claims in the list end; nothing only when nothing is on offer; a holder asking again gets the same item |
| `CallDesk.WhatIsClaimed` | internal/crm/calllists.go:716-731 | a claim changes the claim of that item, ends the user's other claims in its list and changes nothing else |
| `CallDesk.Desk.ReleaseItem` | internal/crm/calllists.go:757-790 | only the claimant, or a manager for an open item; the claim ends either way, a skip closes the item for good and anything else leaves it as it was |
| `CallDesk.Desk.LogCall` | internal/crm/service.go:641-746 | refused exactly for barred leads, a missing callback time or a foreign item; otherwise the call is recorded once and lead and all its open items are updated together |
| `CallDesk.Desk.TakesCall` | internal/crm/service.go:641-690 | a call is taken exactly for a lead the user sees, that is neither marked nor a customer, with a time if it is put off, and from an item the lead waits in |
| `CallDesk.Desk.AdvanceItems` | internal/crm/calllists.go:795-844 | every open item of the lead, and no other, is advanced once |
| `CallDesk.CallKeeps` | internal/crm/calllists.go:800-839 | a recorded call keeps the count of every lead, and of every open item in every list since it was queued, equal to the recorded calls, and unanswered ones below the limit |
| `CallDesk.NothingLeftToClose` | internal/crm/service.go:700-707 | a do-not-call outcome has closed every item before closeLeadItems runs |
| `CallDesk.ClosingKeeps` | internal/crm/calllists.go:848-852 | closing a lead's items keeps every invariant, whatever barred the lead |
| `CallDesk.Desk.SetDoNotCall` | internal/crm/service.go:594-635 | a marked lead has no open item left; lifting the mark reopens none |
| `CallDesk.Desk.UpdateLead` | internal/crm/service.go:528-590 | an edit is accepted exactly for a visible lead at the version named, with sound fields, an owner the caller may set (service.go:1113-1127) and no number of another lead unless allowed; none enters or leaves CONVERTED |
| `CallDesk.Desk.ConvertLead` | internal/crm/pipeline.go:675-714 | converts once and closes every open item |
| `CallDesk.Desk.ArchiveCallList` | internal/crm/calllists.go:581-614 | archiving or restoring a list gives up every claim in it and changes nothing else about an item or another list |
| `CallDesk.Desk.RemoveItems` | internal/crm/calllists.go:648-679 | exactly the named items of the list go |
| `CallDesk.Desk.DeleteCallList` | internal/crm/calllists.go:618-644 | exactly the list and its items go |
| `CallDesk.Desk.CreateCallList` | internal/crm/calllists.go:304-359 | a list allows 1 to 20 attempts at intervals of 5 to 10080 minutes; zero stands for 5 attempts and 120 minutes |
| `CallDesk.Desk.AddLeads` | internal/crm/calllists.go:499-562 | exactly the callable leads not on this list, not open in another active list and fresh or due are queued, judged on the state before |
| `CallDesk.Desk.MayQueue` | internal/crm/calllists.go:504-514 | a lead may join exactly when it can be called, is neither on the list nor open in another active one, and is uncalled, due or asked for all the same |
| `CallDesk.QueuedLeadsWaitOnce` | internal/crm/calllists.go:451-455 | a lead that was just queued waits in no other active list |
| `CallDesk.Desk.Enqueue` | internal/crm/calllists.go:558-562 | a new item is open, unclaimed, uncalled and last, and counts calls from now on |
| `CallDesk.Desk.ImportLeads` | internal/crm/imports.go:233-356 | exactly the usable rows whose number no earlier usable row has and that is unknown, or known only from leads that may be called when duplicates are allowed, become leads, in order and with their fields; items are added exactly as NewItems lists them; nothing else changes |
| `CallDesk.WorthyLeadsWait` | internal/crm/imports.go:347-355 | of the leads created exactly those that may be called and are not disqualified wait in the list, each under one item, in order |
| `CallDesk.Desk.ImportRow` | internal/crm/imports.go:332-355 | one row makes one lead and, if it is worth calling and a list is given, one item at the end |
| `CallDesk.Desk.Run` | internal/crm/calllists.go:681-852 | over every run: unexpired claims on one lead are one user's, one claim per user and list, barred leads have no open item, closed items and converted leads stay so; every lead's attempts are its recorded calls, an open item's are those recorded since it was queued, fewer of them unanswered than its list allows attempts, and an item open before and after has gained exactly the calls its lead gained; and each step has exactly its effect on all tables |
| `CallQueue.ContinuesOn` | internal/crm/calllists.go:795-844 | these comparisons of two states chain over any number of steps |
| `CallQueue.CallsGrow` | internal/crm/service.go:710-712 | one recorded call adds one to the count of its lead and to no other |
| `CallDesk.CallContinues` | internal/crm/calllists.go:795-844 | a call adds one to its lead and to each of its open items, whatever list they are in |
| `CellRef.ExcelRef` | internal/dataexchange/files.go:479-486 | writes the column's letters and the row number |
| `CellRef.ColumnIndex` | internal/dataexchange/files.go:366-379 | reads the letters as a bijective base-26 number in 64-bit arithmetic, -1 for anything else |
| `CellRef.LettersReadBack` | internal/dataexchange/files.go:366-379 | the letters of a column have its rank |
| `CellRef.EveryWordIsAColumn` | internal/dataexchange/files.go:479-486 | every word of capitals is the name of exactly the column it reads as |
| `CellRef.WrittenRefReadsBack` | internal/dataexchange/files.go:366-379 | columnIndex inverts excelRef for every row and every column that fits 64 bits |
| `CellRef.ExactWhenItFits` | internal/dataexchange/files.go:371-377 | the index is the column meant exactly when that column fits 64 bits |
| `CellRef.FarColumnsCollide` | internal/dataexchange/files.go:371-377 | beyond that, distinct references read as one index |
| `CellRef.WrapStep` | internal/dataexchange/files.go:371-377 | wrapping at every letter is wrapping once at the end |
| `Sheets.RebuildRow` | internal/dataexchange/files.go:201-226 | fails exactly for a bad reference or shared index; otherwise the width is the last column used plus one, each column holds its last cell's text, gaps are empty |
| `Sheets.CellOrderDoesNotMatter` | internal/dataexchange/files.go:202-222 | any order of cells with distinct columns rebuilds the same row |
| `Sheets.Records` | internal/dataexchange/files.go:185-232 | rows are rebuilt one by one within two million cells |
| `Sheets.ReadSheet` | internal/dataexchange/files.go:234-253 | the table of the rebuilt records, or an error exactly when they make none |
| `Sheets.WriteSheet` | internal/dataexchange/files.go:411-459 | refused exactly for an invalid table, a bad sheet name, a numeric column outside the table or a numeric value that is no decimal; otherwise one cell per value under its own reference, numbers in numeric columns and text elsewhere |
| `Sheets.WriteRow` | internal/dataexchange/files.go:443-457 | a row is written exactly when its numeric values parse |
| `Sheets.WrittenSheetReadsBack` | internal/dataexchange/files.go:443-459 | the written cells rebuild the table's lines, numbers in their own spelling |
| `Sheets.WriteAndRead` | internal/dataexchange/files.go:234-253 | a table from NewTable that may be written survives writing and reading, numbers in their own spelling, exactly when it has at most two million cells |
| `Sheets.PlainOptionsChangeNothing` | internal/dataexchange/files.go:400-402 | and unchanged without numeric columns |
| `Tables.NormalizeHeader` | internal/dataexchange/mapping.go:296-318 | the loop computes the letters and digits of the lower-case text with Turkish marks removed |
| `Tables.NormOfNumbered` | internal/dataexchange/mapping.go:296-318 | adding " (n)" to a header adds the digits of n to its normal form |
| `Tables.NewTable` | internal/dataexchange/table.go:23-59 | succeeds exactly for usable, distinct headers and records no wider; everything trimmed, padded and numbered from 2 |
| `Tables.CheckHeaders` | internal/dataexchange/table.go:30-44 | decides exactly whether headers are non-blank with non-empty, distinct normal forms |
| `Tables.Validate` | internal/dataexchange/table.go:61-85 | decides exactly the validity of a table |
| `Tables.HoldsIsBuilt` | internal/dataexchange/table.go:23-59 | what NewTable builds is valid and fully trimmed |
| `Tables.BuiltAgain` | internal/dataexchange/table.go:46-58 | taking a built table apart and building it again gives the same table |
| `LenientTable.UniqueHeader` | internal/dataexchange/files.go:336-340 | the renaming loop ends and yields an unused, usable heading: the wanted one or a numbered one |
| `LenientTable.NumbersTellApart` | internal/dataexchange/files.go:337-339 | numbered headings differ pairwise and from the plain one in normal form |
| `LenientTable.MakeHeaders` | internal/dataexchange/files.go:326-342 | as many headings as the widest record, with distinct non-empty normal forms, each the wanted one or a numbered one |
| `LenientTable.WantedIsUsable` | internal/dataexchange/files.go:329-335 | a heading without letters or digits becomes its column number |
| `LenientTable.MakeLenientTable` | internal/dataexchange/files.go:305-351 | a valid table exactly when some record is not blank, holding every later non-blank record in order |
| `Text.ItoaReadsBack` | internal/dataexchange/files.go:485-485 | decimal numerals denote their number |
| `Text.TrimSplits` | internal/dataexchange/validation.go:157-163 | trimming takes white space off both ends and nothing else |
| `DuplicateRows.DuplicateKey` | internal/dataexchange/validation.go:186-193 | concatenates the parts, each after its length in bytes |
| `Utf8.SizeIsWidth` | internal/dataexchange/validation.go:186-193 | the length of a part is counted in the bytes of its UTF-8 form: so many bytes spell exactly that character |
| `DuplicateRows.KeyIsInjective` | internal/dataexchange/validation.go:186-193 | different lists of parts have different keys |
| `DuplicateRows.PartEndsWhereCounted` | internal/dataexchange/validation.go:186-193 | a count of bytes tells where a part of characters ends |
| `DuplicateRows.Parts` | internal/dataexchange/validation.go:153-169 | a row is compared exactly when it has all fields and not all are empty, by its trimmed values |
| `DuplicateRows.Validate` | internal/dataexchange/validation.go:145-184 | in row order, one issue for exactly the rows that repeat an earlier compared row, naming the first such row |
| `DuplicateRows.RememberedIsFirst` | internal/dataexchange/validation.go:170-181 | the map of keys points to the first row of each tuple |
| `DuplicateRows.FirstSame` | internal/dataexchange/validation.go:170-181 | the first earlier row with the same tuple, if any |
| `RecentFeed.CutSourcesFirst` | internal/dashboard/service.go:236-248 | for any number of sources, the top N of the sources' own top N is, in the same sequence, the top N of everything |
| `RecentFeed.RecentActivity` | internal/dashboard/service.go:236-248 | cutting each block before the union returns the top N of the whole union; these are in descending order of time and id, and every row left out comes behind all of them |
| `RecentFeed.TopIsLatest` | internal/dashboard/service.go:247-248 | the top N of the sorted rows are the latest N |
| `RecentFeed.CutOneSource` | internal/dashboard/service.go:244-246 | one source may be cut before it is merged |
| `RecentFeed.RankedIsInOrder` | internal/dashboard/service.go:247-248 | sorting yields descending order |
| `RecentFeed.RankedIsPermutation` | internal/dashboard/service.go:247-248 | and keeps every row |

## Left out

- Retention.Prune: models listing and pruning on database names and stamps alone, apart from the catalog of `Cluster`, because dropping an old database is the one operation meant to remove a database that was once live; `RestoreEngine.Engine.Run` is therefore a statement about restores, promotions and writes.
- WriteBarrier.ArchivesDescribeOneInstant: a backup is modelled as a phase value and not as an object, because its steps interleave with those of writers. A file that cannot be linked for another reason than being gone or refused ends the backup (`Abandon`); of a concurrent restore only the cleanup is a step; listing a directory and hashing the snapshot are one step each; `PreflightCapacity` and the other checks ahead of the lock are left out.
- Recovery.Restore: the schema-version, key-fingerprint and capacity gates are one flag, and the candidate mode is the one joined to the archive.
- Recovery.BackUpAndRecover: takes it as given that no captured file is a folder on the way to another, as in any file system.
- RestoreEngine.Engine.RestoreViaCandidate: a restore while the live database is missing, under a live name of 63 bytes that is its own candidate name, is left out; every other name of 63 bytes is covered.
- Cluster.Catalog.Create: the same case.
- Archives.Unpack: capacity and the two checks `Force` skips are not part of it.
- CallDesk.Desk.UpdateLead: the comparison of versions and the checks on names, lengths and addresses are one flag each.
- CallDesk.Desk.ImportLeads: a row is taken after its status, fields and number were read; the limit of 5000 rows and the report of refused rows are left out.
- Sheets.WriteAndRead: the parser and the spelling of decimals are a parameter; the XML and zip layers are taken as exact, so characters that XML cannot carry are outside it.
- CallDesk.Desk.Run: lists keep their attempt limit (`UpdateCallList` is not a step), and each transaction is one atomic step, so `SKIP LOCKED` and isolation-level effects do not appear; import validation messages, the file's spelling of statuses and permissions are left out. The order of items stands for `position`.
- Iban.NormalizeIban: counts characters where the code counts bytes, which differs only for text with non-ASCII letters, and that is rejected either way.
- Ledger.Ledger.PostMovement: permissions, account scopes, document numbers, audit rows and trimming of inputs are left out; period and date rules are one flag, and a rate lookup is the rate it found.
- Ledger.Ledger.PostStaffMovement: the rate is required to give a non-zero base amount as the table's constraint demands; amounts are whole kuruş.
- PaymentPlan.CreatePaymentPlan: invoices are positions in the sorted list of distinct ids; the sort, the open-balance query and the replay by request hash are left out.
- StorageRoot.Root.SwapStorage: the root's entries are moved in an arbitrary order where the code takes the order of the directory listing, which the result does not depend on.
- Archives.WalkStorage: cancellation and read errors both appear as a torn stream; a manifest's unread fields are one text.
- ObjectKeys.ClashesWith: one case-sensitive platform; the Windows branch of `validateObjectKey` and case-insensitive file systems are left out.
- RecentFeed.RecentActivity: the source queries and their scopes are inputs; entry ids are numbers in their collation order.
- Sessions, terminated connections, roles, permissions, progress reporting, the operator commands and error wording other than the texts a decision depends on.
- Retention.SameInstant: the second a moment of the calendar stands for is any function that tells moments apart; the catalog query compares characters, and here a name is bytes, which differs only for a wildcard against a letter of several bytes.
- The inner workings of pg_dump, pg_restore, tar and JSON, fsync and free-space checks.
- Plain create, update and list services, agenda, e-documents, fixed assets, identity and the web and Windows clients: a record is stored and read back, or the code is an interface.
