# exe: verified models of the daemon's cores

Each module models one component of the daemon on values, or as a class where the program
updates an object in place, and proves what the component is for. A method is proved
against a function of its inputs or of the old state; the laws are proved about those
functions, over all inputs and all runs.

**Node-to-node sync.** `Vectors`, `Copies`, `Engines`, `Reconciling` (`internal/peer/engine.go`,
`manifest.go`): version vectors, one key's manifest entry and file, what landing a peer's
version does in every branch, the scan of the disk, one pass with a peer. `Syncing` makes the
nodes a step system (edit, write, delete, scan, send, deliver; messages may be lost, repeated
and reordered) and proves its invariants over all runs. `Rounds` proves that a round of writes
converges, `PingPong` bounds how much a run without local edits can change, `FreeChanges` gives
a run after which that bound is not the distance alone, and `Divergence` gives a run in which two
nodes end at one vector with different bytes, and the exact condition under which a write on a
half-resolved conflict does so.

**Record documents.** `Listings`, `Unions`, `Records`, `Notes` (`merge.go`): merging todos,
clocks and places is a join, nodes that merge each other's documents get the identical list, and
expired tombstones disturb that exactly where `Records.MergeAssociatesIff` says; which record is
kept, and what a merge drops, is also said in the records' own fields. Notes unite words and place
apart. `SyncedRecords` brings engine and merge together: two nodes that changed one document apart
end with every record of either. `Decimals` and `NoteJson` are the JSON of a note, byte by byte. `NoteGroups` says
exactly when three notes, and three documents of notes, unite to the same in either grouping, and
`NoteMerges` when the lists that three merges return do. `Guarding` and `Saves` (`guard.go`,
`internal/server/apps.go`): judging an app's own save against the disk, and runs of saves under
sequence stamps.

**App installation.** `Apps`, `AppUpgrade`, `Installing`, `AppOwner` (`internal/release/apps.go`):
the manifest, the plan and the bundle folders as maps, every file operation with a script of
outcomes (done, failed, the run stopped there), crash recovery under the same release and a later
one, and the owner's safety over whole histories.

**Tunnel ingress.** `Ingress`, `Routing` (`internal/cf/cf.go`): rewriting a shared rule list, and
what it does to the route of every hostname under first-match semantics.

**Smaller cores.** `Toml` (array printer, parser and the line-by-line feed), `TomlLayouts` (any
layout of an array is read as what it means), `Gzip` (the buffering response writer), `Base58`,
`Alerts`, `AlertMinutes` and `AlertRuns` (the price-alert limiter), `WholeLines`, `Trail` and
`TrailRefs` (incremental log trails), `Compaction` (the digest cut and the turn loop).

Taken as parameters: the content hash and the sum of a bundle (functions into an ordered type),
the modification time a written file gets, the union of two documents as the engine uses it, the
JSON of a todo, clock or place (an injective function), the clock, the type of a byte sample, the reader of one
log line, the answers of the chat backend.

Where the code falls short of a general statement:

- Equal vectors do not imply equal bytes in general. `Divergence.RunsCanDiverge` is such a run:
  one node resolves a conflict while the other, which has not, writes over its side of it.
  `Divergence.HalfResolvedWrite` says for all nodes, vectors and contents exactly when that ends
  apart, and `Rounds.WriteRoundConverges` and `Reconciling.OnePassAgrees` prove agreement where it
  holds.
- The gap to what the system knows bounds the state-changing deliveries within a write round.
  In general a delivery can change a copy without raising its vector, exactly as
  `PingPong.FreeChangeIff` says: `FreeChanges.GapIsNotEnough` is a run after which every node has
  heard of every write, one as a deletion and one as a live file at the same vector, and a message
  on the wire still changes one. `PingPong.NoPingPong` proves both bounds.
- Redelivery changes nothing, but exactly a live file that refuses a tombstone of its very vector
  answers "kept-live" every time, and not "stale" (`Copies.RedeliveryChangesNothing`).
- A scan gives a live entry to every carried file except an empty one with modification time 0
  where a tombstone stands (`Engines.ScanLiveIff`).
- The order three nodes merge records in does not matter, exactly unless for some id the best
  record is a tombstone past its time and the first and the last copy keep different records
  (`Records.MergeAssociatesIff`; `Records.ExpiryBreaksAssociativity` is an instance). In the same
  way merging again what is merged in already can bring a record back (`Records.MergeAbsorbs`).
- The grouping of three notes can matter when they are united, exactly as
  `NoteGroups.UniteAssociatesIff` says. Either two of them have the same latest `placed` stamp at
  different places and the third decides which of the two wins; or two are tombstones whose stamps,
  as they are written, begin one another (5 and 50), so that the bytes behind the words count, and
  uniting one of them with the third changes those bytes (`NoteGroups.StampsRunOn`). Stamps in
  milliseconds have 13 digits until the year 2286.
- The grouping of three merges can matter with ordinary stamps too, exactly as
  `NoteMerges.MergeAssociatesIff` says: a merge scrubs the place of a tombstone, and with it the
  later place of a note the tombstone beat, before a newer note comes (`NoteMerges.PlaceLost`); and
  it drops tombstones past their time. Where nothing is deleted and equal `placed` stamps mean equal
  places it does not matter (`NoteMerges.MergeAssociates`).
- An install stopped between the two renames of a bundle is finished by a later release that has
  the bundle. A release without it removes the plan and leaves the manifest's line, and the next
  release that has it takes the bundle for one its owner removed (`AppUpgrade.PlannedComesBackIff`
  is the exact condition, `AppUpgrade.LostBetweenReleases` such an input).

A second sync of ingress rules is quiet exactly unless the empty string is asked for as a hostname
and the first sync appended a catch-all with another service (`Routing.SecondSyncIsQuiet`,
`Routing.EmptyKeyIsRewritten`). The daemon never asks for it: its one caller passes the proxy's
hostnames (`internal/server/server.go:798-806`).

## Model

| member | source | states |
|---|---|---|
| Vectors.JoinIsLeastUpperBound | internal/peer/manifest.go:50-58 | MaxVec is the least upper bound of two vectors |
| Vectors.JoinCommutes | internal/peer/manifest.go:50-58 | the order of the two sides does not matter |
| Vectors.JoinAssociates | internal/peer/manifest.go:50-58 | nor does the grouping of three |
| Vectors.JoinAbsorbs | internal/peer/manifest.go:50-58 | joining what is already known gives the vector back, to the entry |
| Vectors.VecLeq | internal/peer/manifest.go:39-46 | the loop decides the pointwise order |
| Vectors.MaxVec | internal/peer/manifest.go:50-58 | the loops compute the join |
| Vectors.CloneVec | internal/peer/manifest.go:28-36 | the copy has every positive component and no other |
| Engines.Manifest.Bump | internal/peer/manifest.go:174-188 | only the origin's own component advances, by one, and the entry gets flag and fingerprint |
| Engines.Manifest.Apply | internal/peer/manifest.go:194-205 | a version is taken as it is, with no increment |
| Engines.Engine.LocalWrite | internal/peer/engine.go:491-502 | a carried file is stamped by this node and pushed; anything else changes nothing |
| Engines.Engine.LocalDelete | internal/peer/engine.go:505-512 | a tombstone stamped by this node, pushed |
| Engines.Engine.ApplyRemote | internal/peer/engine.go:818-848 | manifest, disk, conflict backups, pushes and answer are those of Land on the key; an invalid key changes nothing |
| Engines.Engine.VersionUnseen | internal/peer/engine.go:825-834 | content the manifest has not seen is versioned as the node's own write first |
| Engines.Engine.AdoptRemote | internal/peer/engine.go:852-866 | the remote bytes or their absence are taken with the remote version |
| Engines.Engine.ResolveConcurrent | internal/peer/engine.go:872-930 | every branch of the resolution: live over deleted, union, higher hash, loser saved |
| Engines.Engine.MergeConcurrent | internal/peer/engine.go:935-967 | the record union of the two documents, or no union where one does not parse |
| Engines.Engine.ScanLocal | internal/peer/engine.go:517-536 | every key's copy becomes what a scan makes of it, and exactly the changed keys are pushed |
| Engines.Engine.ScanRoots | internal/peer/engine.go:583-625 | the walk sees exactly the keys with a file and stamps the unseen content |
| Engines.ScanAgrees | internal/peer/engine.go:517-625 | afterwards a carried file has an entry with its fingerprint, a live entry has a file, vectors only grew, a second scan stamps nothing |
| Engines.ScanDeletesOnlyGone | internal/peer/engine.go:583-625 | a scan makes a tombstone exactly of a live entry without a file where it sweeps; a file over the cap, or as it was stamped, leaves its entry as it was |
| Engines.Engine.WorkspaceIsSpared | internal/peer/engine.go:517-536 | while the workspace is not synced no scan deletes under it, and everywhere else one does |
| Engines.ScanLiveIff | internal/peer/engine.go:583-625 | exactly when the entry of a carried file is live after a scan |
| Copies.LandJoinsAt | internal/peer/engine.go:818-930 | component by component, landing leaves the maximum of the versioned local and the remote vector |
| Copies.LandJoins | internal/peer/engine.go:818-930 | every branch leaves exactly the join of the two vectors |
| Copies.LandSeen | internal/peer/engine.go:825-834 | after landing the manifest has seen the file, so nothing is versioned again |
| Copies.LandClean | internal/peer/engine.go:818-930 | a copy manifest and disk agree on stays one |
| Copies.KnownIsStale | internal/peer/engine.go:840-842 | a version known already changes nothing and answers stale |
| Copies.NewerIsApplied | internal/peer/engine.go:843-866 | a strictly newer version is taken as it is: its bytes, or no file |
| Copies.FileOutlivesDeletion | internal/peer/engine.go:877-883 | a live file survives a deletion that did not know it |
| Copies.FileComesBackOver | internal/peer/engine.go:884-892 | a live version comes back over a tombstone that did not know it |
| Copies.DeletionsMeet | internal/peer/engine.go:893-896 | two concurrent deletions stay one |
| Copies.DocumentsUnite | internal/peer/engine.go:949-966 | two concurrent documents that parse end as their union, saved nowhere else, and answer merged, or stale where the union is ours |
| Copies.UnreadableIsRefused | internal/peer/engine.go:943-948 | a remote that does not parse leaves our parsing document as it is |
| Copies.HigherHashStays | internal/peer/engine.go:899-930 | any other conflict ends at the content with the higher hash, and the other is saved |
| Copies.ConflictLosesNothing | internal/peer/engine.go:872-967 | each content of a conflict is in the file, saved, or in the union; an unreadable remote is left with its writer |
| Copies.EqualVectorKeepsLive | internal/peer/engine.go:877-892 | the only flag that differs at an equal vector is a live file's that refused a tombstone |
| Copies.RedeliveryChangesNothing | internal/peer/engine.go:818-848 | the same message again changes neither manifest nor disk and saves nothing; it answers kept-live exactly for a live file and the tombstone of its very vector, and otherwise stale |
| Reconciling.OnePassAgrees | internal/peer/engine.go:1086-1104 | one undisturbed pass leaves both nodes at the join with the same flag and bytes, resolved conflicts and merges included |
| Reconciling.OnePassUnites | internal/peer/engine.go:1086-1104 | one undisturbed pass over a conflict of two documents leaves both nodes with the union's bytes |
| SyncedRecords.OnePassKeepsRecords | internal/peer/engine.go:949-966 | after it both nodes hold every record of either document, of a common id the one the other is not ahead of, and only tombstones past their time are missing |
| Reconciling.OfferIs | internal/peer/engine.go:706-746 | a deletion is offered without bytes, a file up to 100 MiB with its own, and nothing else is |
| Reconciling.FetchFrom | internal/peer/engine.go:748-782 | the asking side lands the snapshot the peer gives of the key |
| Reconciling.PushTo | internal/peer/engine.go:706-746 | the peer lands the current snapshot; nothing where the file is gone or too big |
| Reconciling.Reconcile | internal/peer/engine.go:1086-1104 | both loops over all keys: what each side has newer, judged on the manifests from before |
| Reconciling.ReconcileUndisturbed | internal/peer/engine.go:1086-1104 | after an undisturbed pass every valid in-cap key agrees at the join |
| Syncing.StepKeepsInv | internal/peer/manifest.go:174-188 | no step lets another node or a message get ahead of a node in that node's own component |
| Syncing.RunKeeps | internal/peer/engine.go:491-536 | over any run: the invariant, vectors only grow, no backup is lost |
| Syncing.NoLostUpdate | internal/peer/engine.go:825-930 | a file on disk changes only by an edit, adoption of a strictly dominating version, a conflict whose bytes are saved, or a merge; it is removed only by adopting a tombstone |
| Syncing.DeliveryReplaces | internal/peer/engine.go:836-930 | what a delivery can do to the bytes on disk |
| Syncing.UnheardStays | internal/peer/engine.go:825-834 | a write nobody has received stays unreceived until its node sends it |
| Syncing.UnheardWriteSurvives | internal/peer/engine.go:825-930 | over any run, bytes nobody has received are on disk or in the conflict backups |
| Rounds.HeardOrders | internal/peer/manifest.go:39-79 | within a round the vector order is the inclusion of the writes heard |
| Rounds.JoinHeard | internal/peer/manifest.go:50-58 | a join has heard what either side had |
| Rounds.LandInRound | internal/peer/engine.go:840-930 | landing keeps a copy the join and the best content of the writes it has heard |
| Rounds.WriteRoundConverges | internal/peer/engine.go:840-930 | after any exchange of snapshots each vector is the join of the heard writes, the content their highest-hash live one, equal vectors mean equal copies, and nodes that heard all agree |
| PingPong.NoPingPong | internal/peer/engine.go:818-966 | in any run without local edits the changes made so far and the distance left stay within the distance at the start |
| PingPong.ChangeCosts | internal/peer/engine.go:840-930 | a delivery that changes a clean copy lowers its weight |
| PingPong.FreeChangeIff | internal/peer/engine.go:840-930 | exactly which deliveries change a copy without raising its vector |
| FreeChanges.GapIsNotEnough | internal/peer/engine.go:877-892 | a run from unstamped nodes after which no node lacks a write, and one more delivery changes a node |
| Divergence.HalfResolvedWrite | internal/peer/engine.go:814-816 | a write over one side of a conflict the other node has resolved, for any two nodes, concurrent vectors and contents: both end at one vector, with the same bytes exactly unless the overwritten content had the highest hash of the three |
| Divergence.RunsCanDiverge | internal/peer/engine.go:814-930 | a run from unstamped nodes that ends with equal vectors and different bytes |
| Records.WinsTotal | internal/peer/merge.go:112-130 | of two different records exactly one wins |
| Records.WinsTransitive | internal/peer/merge.go:112-130 | winning is transitive |
| Records.WinsIff | internal/peer/merge.go:118-130 | which record replaces the other, in their fields: later updated, then a tombstone, then greater bytes |
| Listings.LessIff | internal/peer/merge.go:112-116 | one text of bytes is less than another exactly where they first differ, or where it ends first |
| Records.JoinIdempotent | internal/peer/merge.go:132-170 | joining a document with itself changes nothing |
| Records.JoinCommutative | internal/peer/merge.go:132-170 | the sides can be swapped |
| Records.JoinAssociative | internal/peer/merge.go:132-170 | the grouping does not matter |
| Records.JoinKeepsGreatest | internal/peer/merge.go:112-170 | every id is kept, at a record of one side that no other wins over |
| Records.JoinKeepsNewest | internal/peer/merge.go:145-150 | of two records of one id the one kept is a record of one side that neither side's is ahead of, in their fields |
| Records.MergedHolds | internal/peer/merge.go:141-158 | a merged list holds every id of either side, at such a record; only tombstones more than 30 days old are missing, no live record ever |
| Records.MergedInOrder | internal/peer/merge.go:159-164 | the list is in the order of creation, by the ids' bytes in a tie |
| Records.MergeRecords | internal/peer/merge.go:132-170 | the loops give the sorted list of the merged document |
| Records.MergeCommutes | internal/peer/merge.go:132-170 | two nodes that merge each other's document get the identical list |
| Records.MergeAbsorbs | internal/peer/merge.go:73-80 | a merged document is its own canonical form; merging again what is merged in changes nothing, exactly when of no id whose best record is expired the other copy keeps a record |
| Records.GroupingOfOne | internal/peer/merge.go:145-158 | for one id the two groupings agree exactly unless the best of the three records is expired and the first and the last copy keep different ones |
| Records.MergeAssociatesIff | internal/peer/merge.go:132-170 | three documents merge to the identical list in either grouping exactly when that holds for every id |
| Records.MergeAssociates | internal/peer/merge.go:302-340 | in particular while no tombstone is past its time |
| Records.ExpiryBreaksAssociativity | internal/peer/merge.go:153-158 | an instance: a dropped tombstone's live record comes back from another copy |
| Records.DocumentIsBest | internal/peer/merge.go:132-170 | over any run of merges of documents, merged before or not, each document holds exactly the ids of the originals it absorbed, each at the record no other of them wins over |
| Records.DocumentIsNewest | internal/peer/merge.go:132-170 | over any run, in the records' fields: the document holds of every id of an original it absorbed a record of one of them that none is ahead of |
| Records.NodesAgree | internal/peer/merge.go:387-425 | two documents of such a run that absorbed the same originals hold the same records; merged ones are the identical list |
| Listings.ListingUnique | internal/peer/merge.go:159-164 | a set of records has one sorted list |
| Listings.ListValues | internal/peer/merge.go:151-164 | collecting a map in any order and sorting gives that list |
| Unions.UniteOver | internal/peer/merge.go:145-150 | the loop over the remote side unites record by record |
| Unions.OverDistinct | internal/peer/merge.go:141-150 | with distinct ids that is the join of two documents |
| Unions.LastIs | internal/peer/merge.go:141-144 | a repeated id counts with its last record |
| Notes.UniteCommutes | internal/peer/merge.go:230-244 | the sides can be swapped, whatever the notes |
| Notes.WinsIff | internal/peer/merge.go:118-130 | which note wins over the other, in their fields |
| Notes.UniteKeepsNewest | internal/peer/merge.go:230-244 | one note of two has the words of the one the other is not ahead of, and the place placed last, the winner's in a tie |
| Notes.MergedHolds | internal/peer/merge.go:225-256 | merged notes hold every id of either side, alone as it was or united; a tombstone loses its place, and only tombstones more than 30 days old are missing |
| Notes.MergedInOrder | internal/peer/merge.go:257-264 | the list is newest-edited first, by the ids' bytes in a tie |
| Notes.MergeNotes | internal/peer/merge.go:216-270 | the loops give the sorted list of the merged notes |
| Notes.MergeCommutes | internal/peer/merge.go:216-270 | two nodes that merge each other's notes get the identical list |
| NoteJson.NoteApart | internal/peer/merge.go:172-195 | different notes of one id are written differently: every key, omitted field, number and escaped string is read off the bytes again |
| NoteJson.MarshalTellsApart | internal/peer/merge.go:110-116 | so the two sides of a merge of notes can be swapped under the program's own JSON |
| NoteGroups.WinsByHead | internal/peer/merge.go:110-130 | between different words the order of the bytes is decided by the words and whether anything follows them |
| NoteGroups.RunsOnIff | internal/peer/merge.go:183-195 | whether anything follows matters exactly between tombstones of the same words whose stamps begin one another as written |
| NoteGroups.UniteApart | internal/peer/merge.go:230-244 | words and place are each taken from the side that changed them last |
| NoteGroups.GroupingWords | internal/peer/merge.go:230-244 | the grouping decides the words exactly when uniting with one note turns a tombstone against another whose stamp its own begins |
| NoteGroups.GroupingDesks | internal/peer/merge.go:230-244 | the grouping decides the place exactly when two different places share the latest stamp and who wins of the two depends on the third |
| NoteGroups.UniteAssociatesIff | internal/peer/merge.go:230-244 | three notes unite to the same in either grouping exactly when it decides neither |
| NoteGroups.UniteAssociates | internal/peer/merge.go:230-244 | in particular when equal placed stamps mean equal places and no tombstone stamps run on |
| NoteGroups.StampsRunOn | internal/peer/merge.go:183-195 | an instance: three tombstones, deleted at 5, 5 and 50, whose grouping decides the words that are kept |
| NoteGroups.JoinAssociatesIff | internal/peer/merge.go:225-244 | three documents of notes join to the same in either grouping exactly when every note that all three hold does |
| NoteGroups.JoinAssociates | internal/peer/merge.go:225-244 | in particular where that holds for each pair of their notes |
| NoteMerges.GroupingOfOne | internal/peer/merge.go:225-256 | for one id, with tombstones scrubbed and dropped by each merge, the groupings agree exactly under the condition on what the three copies hold |
| NoteMerges.MergeAssociatesIff | internal/peer/merge.go:216-270 | three merges return the identical list in either grouping exactly when that holds for every id |
| NoteMerges.MergeAssociates | internal/peer/merge.go:216-270 | in particular where nothing is deleted and equal placed stamps mean equal places |
| NoteMerges.PlaceLost | internal/peer/merge.go:251-254 | an instance with ordinary stamps: an older copy's later place is scrubbed together with the tombstone that beat it |
| Notes.MergedIsCanonical | internal/peer/merge.go:78-80 | merged notes are their own canonical form |
| Guarding.GuardLocalWrite | internal/peer/guard.go:33-122 | the loops give the guarded document; no change is reported exactly when the save takes nothing from disk, and then it is returned as sent |
| Guarding.GuardRecord | internal/peer/guard.go:61-97 | one record judged: stale, equal stamp, newer, and the place apart |
| Guarding.JudgedStamps | internal/peer/guard.go:61-97 | updated and placed are each the later of the two sides' |
| Guarding.EqualStampLosesNothing | internal/peer/guard.go:76-91 | at an equal stamp no field but the place is lost, and the save's own fields win |
| Guarding.NewerIsSents | internal/peer/guard.go:91-97 | a newer record is the save's in all but the place: what it dropped stays dropped |
| Guarding.TakesIff | internal/peer/guard.go:68-97 | exactly when a save takes something from disk for a record |
| Guarding.FindIsLast | internal/peer/guard.go:40-49 | a repeated id counts with its last record on disk |
| Guarding.StaleIsDisks | internal/peer/guard.go:69-75 | a stale record is disk's in all but the place |
| Guarding.PlaceByItsStamp | internal/peer/guard.go:67-97 | whose place is kept, in every case |
| Guarding.JudgedSettled | internal/peer/guard.go:61-97 | a judged record takes nothing more from the same disk record |
| Saves.FindGuarded | internal/peer/guard.go:51-109 | what a guarded save holds for every id |
| Saves.LeftOutStays | internal/peer/guard.go:99-109 | a record the save leaves out stays as it is on disk, a live one always, a tombstone until 30 days after its deletion |
| Saves.GuardedDistinct | internal/peer/guard.go:51-109 | ids stay distinct |
| Saves.GuardedTwice | internal/peer/guard.go:30-32 | guarding a guarded document against the same disk changes nothing and reports no change |
| Saves.Server.RecordSeq | internal/server/apps.go:722-739 | a mark only rises, and over the cap only marks older than ten minutes of other writers go |
| Saves.Server.HandlePut | internal/server/apps.go:634-665 | a stale save changes nothing; what is written, guarded or as sent |
| Saves.OlderSaveRefused | internal/server/apps.go:680-739 | for ten minutes after a stamped save no save of that writer and file with an older or the same stamp is accepted, whatever is pruned between |
| Saves.KeysApart | internal/server/apps.go:702-711 | saves of different files or windows are never judged by one key |
| Saves.RefusedForOwnNewer | internal/server/apps.go:713-739 | over any run a save is refused only for one of its own window and file that went through with a stamp at least as new |
| Saves.RecordsSurvive | internal/server/apps.go:634-665 | over any run of saves a record stays with neither stamp lower, unless an accepted save left it out when it was deleted, more than 30 days before |
| Apps.ProgressKeepsEnd | internal/release/apps.go:144-243 | however far a run got with a bundle, the next one decides to the same end |
| Apps.FinalIs | internal/release/apps.go:178-243 | what a finished run leaves of each bundle and its line, in what stood there: one equal to the release's is current and put on record whatever the record said, one that stands as recorded is updated, any other stays |
| Apps.OwnedIs | internal/release/apps.go:83-99 | a bundle that stands as an unfinished plan meant it is owned by the plan's sum, any other by the manifest's |
| Apps.InterruptedKeepsEnd | internal/release/apps.go:83-99 | a stopped run leaves a disk whose full run ends where the first would have |
| Apps.CrashRecovery | internal/release/apps.go:144-243 | any number of stopped runs and one full run leave what a single uninterrupted run leaves, with no plan |
| Apps.FinalIsStable | internal/release/apps.go:144-243 | running a finished release again changes nothing |
| AppUpgrade.LaterReleaseFinishes | internal/release/apps.go:135-137 | a bundle any number of runs of one release were stopped at ends under a later release that has it as it would have without them |
| AppUpgrade.PlannedComesBackIff | internal/release/apps.go:83-99 | a planned and missing bundle comes back through two releases exactly when the first has it too or the manifest does not list it |
| AppUpgrade.LostBetweenReleases | internal/release/apps.go:185-187 | an update stopped between its renames, a release without the bundle, one with it: the bundle stays missing, where the last release alone would have updated it |
| Installing.Fs.PlaceTree | internal/release/apps.go:296-321 | the bundle is placed, or what stood there is as before; it is missing exactly where the machine stopped between the renames, or neither the second rename nor the one back was done |
| Installing.Fs.ReadOwned | internal/release/apps.go:83-99 | the manifest and, of a plan, what stands exactly as planned |
| Installing.Fs.Decide | internal/release/apps.go:178-211 | the verdict on one bundle of the release |
| Installing.Fs.PlaceAll | internal/release/apps.go:225-234 | jobs are placed in order, each with its line in the manifest in hand |
| Installing.Fs.InstallApps | internal/release/apps.go:144-243 | a run that gets to its end leaves the final disk and names each bundle's change; one that stops or fails anywhere leaves an interrupted disk |
| Installing.ReportIs | internal/release/apps.go:178-211 | the change named for each bundle, in what stood there, and for no other folder |
| Installing.Fs.RemoveApps | internal/release/apps.go:248-278 | exactly the bundles that stand as recorded are removed, the edited ones kept |
| Installing.Fs.ForgetApps | internal/release/apps.go:283-290 | manifest and plan go, in that order |
| Installing.MidRunInterrupted | internal/release/apps.go:214-243 | every point between two operations of a run is an interrupted disk |
| Installing.AllPlaced | internal/release/apps.go:225-240 | with all jobs placed and the manifest written, only the plan is left to remove |
| AppOwner.EventKeepsRecords | internal/release/apps.go:144-278 | every sum on record stays one some release brought under that name |
| AppOwner.InstallReplacesOnlyShipped | internal/release/apps.go:178-234 | a bundle is replaced or taken away only while its contents are a recorded, shipped one's |
| AppOwner.EventKeepsRemoved | internal/release/apps.go:185-187 | no install, finished or stopped anywhere, and no uninstall brings back or plans a bundle on record that its owner removed and no plan names |
| AppOwner.RemovedStaysRemoved | internal/release/apps.go:177-278 | such a bundle stays removed over any history of installs of any releases, stops, uninstalls and edits of others, until the record is forgotten or the owner puts it there |
| AppOwner.MissingPlacedIff | internal/release/apps.go:185-192 | exactly when a missing bundle is put in place |
| AppOwner.HistoryKeepsRecords | internal/release/apps.go:144-278 | the same over any history of runs, uninstalls, crashes and edits |
| AppOwner.OwnersBundleStays | internal/release/apps.go:177-278 | contents no release brought are never touched over any history |
| Ingress.FindShadow | internal/cf/cf.go:457-464 | the index of the first wildcard or catch-all |
| Ingress.HoistStep | internal/cf/cf.go:480-498 | one round of the loop makes progress and keeps where it leads |
| Ingress.HoistIngress | internal/cf/cf.go:478-501 | the loop ends at the stable hoist and reports the moved hostnames in order |
| Ingress.RewriteRules | internal/cf/cf.go:348-369 | the pass rewrites every managed rule, finds the hostnames without one and those whose service changed |
| Ingress.SyncIngress | internal/cf/cf.go:328-394 | what is put back, the hostnames reported exactly, and nothing put back when there are none |
| Ingress.QuietWhenSettled | internal/cf/cf.go:385-387 | where nothing differs the rules come out the same |
| Ingress.EnsureIngress | internal/cf/cf.go:400-437 | the first rule of the name is rewritten and hoisted, or one is inserted and a catch-all kept last |
| Ingress.RemoveIngress | internal/cf/cf.go:274-303 | the loop drops exactly the rules of the name |
| Routing.HoistIsStable | internal/cf/cf.go:475-501 | hoisting reorders the same rules, ours and the others each in their order |
| Routing.HoistedAhead | internal/cf/cf.go:475-501 | nothing of ours is left behind a shadow |
| Routing.HoistServes | internal/cf/cf.go:475-501 | a managed hostname is served by its first rule |
| Routing.HoistKeepsOthers | internal/cf/cf.go:475-501 | every other hostname resolves as before |
| Routing.SyncServes | internal/cf/cf.go:322-394 | after a sync every exact hostname asked for resolves to its service |
| Routing.SyncKeepsOthers | internal/cf/cf.go:322-394 | every hostname no key matches resolves as before, or to the new catch-all if nothing matched it |
| Routing.SyncConserves | internal/cf/cf.go:322-394 | a sync leaves exactly the rules there were, each with everything but its service as it was, a new one for each hostname without one, and at most the catch-all, then last |
| Routing.SyncChangesIff | internal/cf/cf.go:385-393 | exactly when a sync puts rules back |
| Routing.SecondSyncIsQuiet | internal/cf/cf.go:322-394 | a second sync reports nothing and changes nothing, exactly unless the first one appended a catch-all that the caller asked another service for |
| Routing.EmptyKeyIsRewritten | internal/cf/cf.go:504-511 | an input where it did |
| Routing.EnsureServes | internal/cf/cf.go:396-437 | the ensured hostname resolves to its service |
| Routing.EnsureKeepsOthers | internal/cf/cf.go:396-437 | the others resolve as before, or to the new catch-all |
| Routing.EnsureConserves | internal/cf/cf.go:417-434 | the first rule of the name keeps everything but its service, or there is one new rule and at most the catch-all; every other rule is as it was |
| Routing.RemoveKeepsOthers | internal/cf/cf.go:273-303 | removing a hostname leaves the others' routes |
| Routing.RemoveUndoesEnsure | internal/cf/cf.go:273-437 | removing undoes ensuring, but for the catch-all |
| Toml.TomlStrings | internal/server/agentstatus.go:349-355 | the loop prints the array |
| Toml.TomlString | internal/server/agentstatus.go:357-379 | the loop prints one quoted string |
| Toml.TomlStringArray | internal/server/agentstatus.go:248-345 | the parser on an index reads exactly what the grammar on the remaining text does |
| Toml.RoundTrip | internal/server/agentstatus.go:248-379 | every list of strings is read back from its printed form |
| TomlLayouts.ReadsAnyLayout | internal/server/agentstatus.go:245-345 | whatever white space, comments, kinds of strings, escapes and last comma an array is written with, it is read as the strings it means, whatever follows |
| Toml.PrefixStable | internal/server/agentstatus.go:248-345 | once a text is accepted whatever follows changes nothing |
| Toml.CodexNotify | internal/server/agentstatus.go:217-243 | the line-by-line feed finds what parsing everything from the value on would |
| Toml.NotifyIs | internal/server/agentstatus.go:224-241 | the array read is that of the first line with the key, unless a table comes before it |
| Gzip.GzipWriter.Write | internal/proxy/gzip.go:166-189 | the whole new state of a write, buffered, started or passed on |
| Gzip.GzipWriter.Flush | internal/proxy/gzip.go:195-208 | a flush decides on what is held |
| Gzip.Transparent | internal/proxy/gzip.go:89-221 | for any calls ended by close: one final status before the body, the decoded body is all that was written in order, the headers are those asked for when the response began, rewritten for gzip exactly when the body is |
| Gzip.SaysGzipIff | internal/proxy/gzip.go:134-150 | the response says gzip where the handler did not exactly when its body is a gzip stream; a handler that names no encoding gets no other |
| Gzip.HeadersFit | internal/proxy/gzip.go:134-164 | in front of a gzip body there is no length, no ranges, a weak tag and Vary; in front of any other all of these are as asked for, and every other header always is |
| Gzip.NeverCompressed | internal/proxy/gzip.go:109-132 | 204, 206 and 304, no-transform, an encoding of its own, a length under 1024 and a type gzip does not shrink are never compressed |
| Gzip.FlushSendsAll | internal/proxy/gzip.go:195-208 | after a flush everything written so far was sent and pushed |
| Gzip.SmallIsSentAsIs | internal/proxy/gzip.go:166-221 | under 1024 bytes and without a flush the body is not compressed |
| Gzip.LargeIsCompressed | internal/proxy/gzip.go:134-189 | 1024 bytes or more that may be compressed are, in whatever pieces, with the type found in the first piece where none was named |
| Gzip.RunKeepsInv | internal/proxy/gzip.go:89-208 | between any two calls what was written is what was received and what is held |
| Base58.Encode | internal/peer/identity.go:101-120 | division, leading ones and the reversal give the encoding, and the loop ends |
| Base58.DigitsUnique | internal/peer/identity.go:101-110 | digits without a leading zero are the only ones of their number |
| Base58.ConvertBack | internal/peer/identity.go:99-120 | changing base and back gives every digit string, leading zeros included |
| Base58.EncodedMeans | internal/peer/identity.go:99-120 | the text is the number the bytes are, in base 58, behind a 1 for every zero byte in front |
| Base58.EncodeDecode | internal/peer/identity.go:99-120 | decoding undoes encoding for every byte string |
| Base58.DecodeEncode | internal/peer/identity.go:99-120 | encoding undoes decoding for every string over the alphabet |
| Alerts.AppendSample | internal/server/alerts.go:241-249 | samples older than 25 hours are dropped from the front |
| Alerts.SampleNear | internal/server/alerts.go:252-268 | the binary search finds the sample before or from the wanted second |
| Alerts.NearIsNearest | internal/server/alerts.go:251-268 | that is the nearest of all samples within three minutes, and none when none is |
| Alerts.TrimInvisible | internal/server/alerts.go:241-268 | dropping samples from before the tolerance changes nothing |
| Alerts.UnreportedCounts | internal/server/alerts.go:351-360 | an alert counts exactly the token's moves of the day held back since the last delivered alert of the day |
| Alerts.RecentIs | internal/server/alerts.go:293-306 | the day's alerts are exactly the token's delivered ones of less than 24 hours |
| Alerts.Sampler.AlertStep | internal/server/alerts.go:283-363 | one token at one minute: hit, second minute, cooldown, re-arm, cap |
| Alerts.Sampler.AlertTick | internal/server/alerts.go:154-210 | one minute over all tokens, with the pruning |
| AlertRuns.RecordQualifies | internal/server/alerts.go:283-363 | every field of a new record: the prices and the change of which window, the day's change, its rank, whether it is held back, and how many were held back before it |
| AlertRuns.RecordedIff | internal/server/alerts.go:283-332 | exactly when a token gets a new record |
| AlertMinutes.TokensAreApart | internal/server/alerts.go:154-210 | a minute over all four tokens leaves each quoted one as its own sample and step alone would: its samples, its hit, and a new record exactly then, equal but for the number |
| AlertMinutes.UnquotedStays | internal/server/alerts.go:154-210 | a token without a price is as it was |
| AlertMinutes.RunNumbers | internal/server/alerts.go:333-334 | over any run the records are numbered from 1, in order |
| AlertRuns.PruningChangesNothing | internal/server/alerts.go:202-210 | over any run, keeping 25 hours of samples and 48 of alerts records what keeping all would |
| AlertRuns.AlertsAreLimited | internal/server/alerts.go:283-363 | over any run a token's alerts are 30 minutes apart and any five delivered ones span 24 hours |
| WholeLines.ReadCatchesUp | internal/server/agentwork.go:97-122 | a read catches up with any file that kept what was read or is shorter than it |
| WholeLines.IncrementalIsBatch | internal/server/agentwork.go:82-122 | for a growing file reads at any moments leave what one fold over its whole lines gives |
| WholeLines.WholeLengthIsLastLineEnd | internal/server/agentwork.go:107-116 | the offset is at the last line end |
| Trail.AgentTrail.Read | internal/server/agentwork.go:97-122 | one read from the offset, reset when the file is shorter |
| Trail.AgentTrail.NameRefs | internal/server/agentwork.go:126-152 | the instruction's addresses counted and ranked, then the others, 32 at most |
| TrailRefs.RankedIsStable | internal/server/agentwork.go:142 | ranking sorts by count, keeps equals in order and keeps every address |
| TrailRefs.RefsAreLatest | internal/server/agentwork.go:126-152 | capping at every instruction leaves the first 32 of the uncapped list |
| TrailRefs.RefsHold | internal/server/agentwork.go:124-152 | over any run the addresses are distinct, at most 32, each with its latest instruction's count and time, the latest instruction's first |
| TrailRefs.OpenSinceItBegan | internal/server/agentwork.go:154-168 | a turn counts from the message that opened it |
| TrailRefs.LatestEnd | internal/server/agentwork.go:162-168 | the end on record is the latest there was |
| TrailRefs.ShutAfterEnd | internal/server/agentwork.go:154-168 | after an end no turn is open until one begins |
| Compaction.ApproxSize | internal/agent/compact.go:42-60 | the loops add up every byte that counts |
| Compaction.SizeAddsUp | internal/agent/compact.go:42-51 | a message weighs its content, each name and argument of its calls, and its items |
| Compaction.BoundaryIff | internal/agent/compact.go:70-77 | where a view may start, and when it fits |
| Compaction.CompactCut | internal/agent/compact.go:67-90 | the two backward loops compute the cut |
| Compaction.CutIsBest | internal/agent/compact.go:62-90 | the longest boundary tail within keep, else the last boundary, none only when there is none |
| Compaction.Session.CompactNow | internal/agent/agent.go:237-255 | the view's start moves by the cut, or nothing changes |
| Compaction.Session.TakeTurn | internal/agent/agent.go:256-296 | one turn: compaction, the request, the harder retry, the reply and its results |
| Compaction.Session.Run | internal/agent/agent.go:256-299 | the turn loop |
| Compaction.TurnKeeps | internal/agent/agent.go:256-296 | a turn keeps the invariant and only moves the view forward |
| Compaction.TurnTells | internal/agent/agent.go:256-296 | one turn, in what is sent: a view over 200 KiB is compacted first and no other is; the request is the system messages, the last digest exactly when something is folded, the conversation from there on and the note; one that is too long is made once more, smaller; the turn ends the loop exactly on a failure or a reply without calls, and a reply joins the conversation with each call's result |
| Compaction.RunTells | internal/agent/agent.go:256-299 | every view sent over any run is of that form, for the compactions and messages there were at some moment |
| Compaction.RunEnds | internal/agent/agent.go:256-299 | the loop goes on after every reply with calls, and ends at the first without, at a failure, or with its turns used up |
| Compaction.RunNeverOrphans | internal/agent/agent.go:231-297 | over any run the view starts at a user or assistant message, what was digested is exactly the conversation before it, and every view sent holds the call of each tool result in it |

## Left out

- Engines.Engine.ApplyRemote: real file-system errors and JSON that does not encode are not modelled; every write succeeds.
- Engines.Engine.ScanLocal: hidden files, symbolic links and the order of the walk are left out; a tree is a map from key to file.
- Reconciling.FetchFrom: version and bytes are one snapshot; the moment between reading the one and the other is not modelled.
- Engines.ScanDeletesOnlyGone: DropUnshared, by which the program forgets an entry that is its node's first and only write of a file over the cap; here it stays as it was.
- Reconciling.PushTo: every peer takes files up to one cap; an older peer's smaller one is not modelled.
- Reconciling.OnePassAgrees: keys that are valid on both nodes and files within the size cap.
- Rounds.WriteRoundConverges: files without record merging, and no two different live writes of the round with one hash.
- Syncing.UnheardWriteSurvives: files without record merging; an empty file has nothing to save.
- Negative vector components, DropUnshared, migrateWorkspaceStrays and the older manifest's migration.
- HTTP, signatures, pairing, the peer list, status and latency probing, stall timers, hooks and notifications: transport.
- Records.MergeRecords: documents that do not parse, and drafts; a repeated id counts with its last record, and the join laws are for distinct ids.
- SyncedRecords.OnePassKeepsRecords: both nodes merge at one moment; drafts are not part of a document here.
- Records.NodesAgree: none of the originals holds a tombstone past its time at any of the merges.
- NoteJson.MarshalTellsApart: strings are bytes; U+2028, U+2029 and bytes that are not valid UTF-8, which the encoder rewrites, are written as they are.
- Guarding.GuardLocalWrite: numbers are whole; a document that does not parse is returned as sent, without a guard.
- Saves.Server.HandlePut: size limits, paths outside the scope and failing writes are left out; the answer's text and the change event are not modelled.
- Saves.RecordsSurvive: saves of the file whose bodies are record documents with distinct ids; a body that does not parse is stored as it is.
- Installing.Fs.InstallApps: removing or copying half a tree, plain files among the bundles, names that are not local paths and the manifest's text are left out.
- Installing.Fs.RemoveApps: a crash inside the removal of one bundle.
- Ingress.SyncIngress: the final sort of the reported hostnames, rules with a path, and Cloudflare's API.
- Toml.TomlString: strings that are not valid UTF-8 are printed with U+FFFD by the program; the model prints code points.
- Toml.CodexNotify: splitting the file into lines and trimming a line are parameters.
- Gzip.Transparent: writes beneath succeed; Accept-Encoding, ranges, HEAD and upgrades are judged before the writer exists.
- Alerts.Sampler.AlertStep: rounding of floating point, the move in SOL terms, the notification text and its delivery.
- Trail.AgentTrail.Line: the JSON of a line and the pattern of an address; a reader is any function from a line to events.
- Compaction.RunNeverOrphans: the backend's replies have the assistant role.
- Compaction.TurnTells: a digest is what the backend answered, trimmed and cut to its greatest length; what it was asked is not modelled.
- Installer prompts, service managers, VM setup, analytics, OAuth clients and host probes: I/O plumbing.
- Compare and Valid of releases, dictionary labels, autostart, the connection registry: they would only add easy members.
