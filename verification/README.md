# Docker 1.2.0: algorithms and protocols of the daemon

This project models, in Dafny 4.11, the parts of the Docker 1.2.0 daemon whose behaviour is decided by its own
code rather than by a system call, and proves what they are for.

* **Layers** (`Filesystem`, `Changes`, `ChangesDirs`, `Layers`, `RoundTrip`, `Faithful`, `Untouched`, `MarkerNames`,
  `Circle`). Two directory trees are compared, the changes are written as a layer with `.wh.` markers for deletions,
  and a layer is replayed onto a directory. The change list is proved exact and ordered for every order in which maps
  are walked, and the law that `TestApplyLayer` states is proved to hold if and only if no changed name reads as a
  marker and every entry keeps its metadata, a condition on the two trees, entry by entry (with one coincidence
  excepted, see the end).
* **Stream framing** (`StdFrames`, `StdCopy`). The demultiplexer with its growing, compacted buffer delivers exactly
  the complete frames, however the stream is cut into reads.
* **The entity graph** (`GraphPaths`, `CleanPaths`, `GraphDB`, `GraphWalks`). Which paths each update gains, keeps and
  loses; the recursive listing returns each walk once, and it is proved when the paths it reports, joined and cleaned
  as strings, lead back to their entities.
* **Images** (`RepoTags`, `ImageStore`, `ImageDelete`, `Push`). Recursive deletion keeps the graph and the tags sound
  and spares what containers use, exactly when lookups show what that is; a push sends the ancestor closure, parents
  first.
* **Protocols** (`Pool`, `LayerPool`, `PullLocks`, `PullOrder`, `State`, `Monitor`). State machines whose steps
  interleave freely: the pool of pulls and pushes, layers that are pulled past it, pulls that hold keys and wait for
  others, the wait channels of a container's state, the restart loop with requests to stop at any point.
* **Small refinements** (`Resumable`, `ShellQuote`, `Flags`, `TailFile`, `Broadcast`, `Network`). Loops and state
  machines, each against an independent specification: a body, a shell's reading of a line, the lines of a file.

Objects that the program updates in place are classes here; their methods are proved against functions of the old
state, and the laws are lemmas about those functions. Clocks, network replies, write failures, the order of map
iteration and the order of steps are parameters or left open, so every theorem is about all of them.

## Where the code does not do what is said of it

The model follows the code. Each point below is a lemma or a clause of a contract.

* Replaying a layer and comparing again reports a change, against the test's law, when a file is edited in place in a
  directory that has no entry of its own (`Faithful.EditInPlaceFails`), when a directory loses its capability
  (`Faithful.LostCapabilityFails`), when a time does not fit the tar format (`Faithful.EarlyTimeFails`), or when a
  name starts like a marker (`MarkerNames.LawIffCarried`, `Faithful.MarkerNameFails`).
* A framed write of 2^32 bytes or more does not survive (`StdFrames.WriteSurvives`).
* A path with a trailing slash can be set, but a lookup of it finds the parent (`GraphDB.SetReaches`); purging the
  root's id leaves `/` resolving to it (`GraphDB.PurgeLeavesNoPath`); a listing reports a wrong path for a name made
  of dots (`GraphWalks.ListingResolves`), and, from a start that cleaning changes, such as `/..`, for every child that
  the root does not have (`GraphWalks.UncleanStartFails`).
* `TagStore.Set` moves an existing tag whether or not it is forced (`ImageDelete.Daemon.SetTag`).
* A repository named like the id of a container's image can hide that image from the check before a deletion; when it
  does, and when not, is stated exactly (`ImageDelete.SparedIffShown`, `ImageDelete.ShadowedContainer`).
* `Depth` counts the image itself, not only its parents (`ImageStore.Depth`).
* A tag whose image is missing is left out of a push without an error (`Push.TagIsSent`).
* A layer that is being pulled by someone else is worked on after the wait without being added to the pool. With that,
  and only with that, two tasks come to work on one layer, and one closes the channel of the other
  (`LayerPool.SafeIffNobodyGoesOn`, `LayerPool.GoingOnClosesAnother`).
* A pull of a repository that is named like one of its own images or layers (a repository `img` and a tag that is an
  image id) waits for itself (`PullOrder.StuckIffNamedAlike`).
* `WaitRunning` and `WaitStop` return at the next transition, whatever it is, and `WaitRunning` can block forever
  because it takes its read lock twice (`State.FirstTransitionDecides`, `State.NestedReadLock`).
* The restart delay is wrong from the 37th quick exit in a row on (`Monitor.WaitsDouble`); a container whose log
  cannot be opened before a restart stays marked as restarting (`Monitor.StoppedAtTheEnd`).
* A total size given too small makes the resumable reader report the end too early (`Resumable.EndsEarly`).
* A word that starts with `#` and needs no quotes is read back as a comment (`ShellQuote.RoundTrip`).
* A cluster does what its letters do one by one, unless it is `-help`, which asks for help, or has a dash, which is
  skipped (`Flags.ClusterIff` states exactly when); the value in `-xyz=false` is dropped, so that `z` is set to true,
  and a value that is a lone quote makes the parser panic (`Flags.ClusterIgnoresValue`, `Flags.ValueLaw`).
* The tail of a file leaves out an unterminated last line (`TailFile.DropsUnterminated`).
* An overlap of networks can be missed for masks that are not those of prefixes; the size of a network is wrong for
  prefixes of less than two bits (`Network.NetworkOverlaps`, `Network.NetworkSize`).

## Model

| member | source | states |
|---|---|---|
| `Filesystem.MkdevUndoesSplit` | docker1.2.0-master/archive/diff.go:19-21 | splitting a device number as the exporter does (`archive/changes.go:335-341`) and joining it as the replay does gives it back, for every 32-bit number |
| `Filesystem.PrefixesAreDirs` | docker1.2.0-master/archive/changes.go:251-296 | on a well-formed disk every proper prefix of an entry is a directory of that disk |
| `Changes.LookUp` | docker1.2.0-master/archive/changes.go:141-158 | the walk over path elements finds exactly the node at the path |
| `Changes.AddChanges` | docker1.2.0-master/archive/changes.go:171-233 | for every order of the children, the entries appended list exactly what is owed at each path, each path once, no entry after one below it: Add iff only new, Modify iff both and the stat differs, Delete iff only old below a new directory |
| `ChangesDirs.CollectFileInfo` | docker1.2.0-master/archive/changes.go:251-296 | filing the visits of a walk gives a tree that mirrors the disk, with directories only above other nodes |
| `ChangesDirs.CompareDirs` | docker1.2.0-master/archive/changes.go:298-319 | the change list of two disks is exact and has ancestors first |
| `ChangesDirs.OwedIsExpected` | docker1.2.0-master/archive/changes.go:171-233 | what the comparison of trees owes to a path is the Add, Modify or Delete that the two disks call for, stated without the trees |
| `Layers.ExportChanges` | docker1.2.0-master/archive/changes.go:343-384 | the layer has one marker or one header per change, in order, and none for a file that has vanished |
| `Layers.Destination.CreateTarFileAt` | docker1.2.0-master/archive/archive.go:203-296 | succeeds exactly where the name is free below a directory, or both are directories, or both are regular files; exporting the entry again gives the header back if and only if the header describes it (time in range, no data or device number its kind lacks) and covers what was there (no old capability of a directory lingers, an old file was no longer); no other entry changes but for the time of the parent, and a failure changes nothing |
| `Layers.ExportUndoesCreate` | docker1.2.0-master/archive/archive.go:203-296 | the round trip of one header: written as a record and exported again it is the same, if and only if it describes what it creates and covers what was there |
| `Layers.Destination.MkdirAllAt` | docker1.2.0-master/archive/diff.go:61-68 | succeeds if and only if the lowest existing entry on the way is a directory; then exactly the missing directories below that are new, that one is touched, and every other entry is as it was; a failure changes nothing |
| `Layers.Destination.ApplyEntry` | docker1.2.0-master/archive/diff.go:44-143 | one entry has the effect of the replay's step: parent, skipping of AUFS metadata, whiteout, replace or merge |
| `Layers.Destination.SetTimes` | docker1.2.0-master/archive/diff.go:145-151 | each directory seen gets its header's time, in order, or is missing |
| `Layers.Destination.ApplyLayer` | docker1.2.0-master/archive/diff.go:25-154 | the directory after the loop and the final pass over directory times is the replay of the whole layer, which succeeds exactly when every step does |
| `RoundTrip.WhiteoutUndone` | docker1.2.0-master/archive/diff.go:94-99 | a marker written for a deletion, when replayed, names the deleted path again |
| `RoundTrip.ParentReady` | docker1.2.0-master/archive/diff.go:57-69 | when the turn of an entry comes its parent exists and is a directory, so no parent is ever created on the way |
| `RoundTrip.StepCorrect` | docker1.2.0-master/archive/diff.go:92-142 | replaying the header of one change brings exactly that path into its final state and leaves every other path as it was |
| `RoundTrip.ReplayPrefix` | docker1.2.0-master/archive/diff.go:43-143 | after any number of entries every path is in the state that the entries so far determine |
| `RoundTrip.TimedAt` | docker1.2.0-master/archive/diff.go:145-151 | the final pass sets the time of each directory with an entry, and changes nothing else |
| `Faithful.ReplayOutcome` | docker1.2.0-master/archive/diff.go:25-154 | replaying the exported changes of (new, old) onto old succeeds, leaves exactly the new paths, and at each path the record that its entry, a neighbour's entry or no entry determines |
| `Faithful.OutcomeDiffers` | docker1.2.0-master/archive/changes.go:203-217 | an outcome does not differ from the new record if and only if the entry keeps its metadata |
| `Faithful.ResultIsValid` | docker1.2.0-master/archive/diff.go:25-154 | a replay leaves a well-formed directory |
| `Faithful.NoMarkersPortable` | docker1.2.0-master/archive/diff.go:71-99 | trees without names that start like a marker can always be carried by a layer |
| `Circle.AppliedKeepsTree` | docker1.2.0-master/archive/diff.go:25-154 | whatever the two trees and names, a replay that succeeds leaves a well-formed directory, or has removed all of it |
| `Circle.DiffReplayDiff` | docker1.2.0-master/archive/changes_test.go:260-301 | the whole circle of compare, export, replay, compare as one program, for any two trees and every order of walks and maps: it ends with nothing to report if and only if every change can be carried and every entry keeps its metadata, unless a directory may come out by chance; where all can be carried it always ends, with the new paths and contents |
| `Faithful.EditInPlaceFails` | docker1.2.0-master/archive/diff.go:101-111 | a file edited in place makes its directory come out modified |
| `Faithful.LostCapabilityFails` | docker1.2.0-master/archive/diff.go:101-111 | a merged directory keeps a capability that the new one has lost |
| `Faithful.EarlyTimeFails` | docker1.2.0-master/archive/archive.go:136-200 | a time before 1970 is not carried |
| `MarkerNames.LawIffCarried` | docker1.2.0-master/archive/changes_test.go:260-301 | the law itself: the replay succeeds and comparing again reports nothing, if and only if every change has a name that a layer can carry and every entry keeps its metadata; for all pairs of trees in which no directory may come out by chance |
| `MarkerNames.DirComesOut` | docker1.2.0-master/archive/diff.go:57-99 | that exception is real: a new directory `.wh.d` that looks like one just made comes out right when the file in it is replayed |
| `MarkerNames.UnportableFails` | docker1.2.0-master/archive/diff.go:57-99 | with a new or changed entry whose name cannot be carried and nothing changed below it, every replay that succeeds leaves something to report |
| `MarkerNames.UnportableWriteFails` | docker1.2.0-master/archive/diff.go:71-99 | so it is with everything but directories |
| `MarkerNames.UnportableDirFails` | docker1.2.0-master/archive/diff.go:57-99 | and with a directory that looks neither like one just made nor like the old one just touched, although it may be made as a missing parent |
| `MarkerNames.AufsAddFails` | docker1.2.0-master/archive/diff.go:71-90 | and with everything new under a name of AUFS metadata, however it looks |
| `MarkerNames.AufsModifyFails` | docker1.2.0-master/archive/diff.go:71-90 | and with everything changed under such a name, where nothing else that is written has a name that cannot be carried |
| `MarkerNames.UnportableDeleteFails` | docker1.2.0-master/archive/diff.go:71-99 | with a deletion whose marker is taken for AUFS metadata, every replay that succeeds leaves something to report |
| `Untouched.StepUnwritten` | docker1.2.0-master/archive/diff.go:57-142 | a header for another path, not below this one, leaves what stands here exactly as it was or removes it, whatever parents it creates |
| `Untouched.StepLeavesAufs` | docker1.2.0-master/archive/diff.go:57-142 | a header with an AUFS name whose parent exists, or with another name and a target that is neither the root nor such a name, leaves all old AUFS entries exactly as they were |
| `StdFrames.Uint32RoundTrip` | docker1.2.0-master/utils/stdcopy.go:31-46 | a length below 2^32 survives the header |
| `StdFrames.DemuxPrefix` | docker1.2.0-master/utils/stdcopy.go:72-164 | of any prefix of a multiplexed stream exactly the complete frames are read, without an error |
| `StdFrames.DemuxInvertsMux` | docker1.2.0-master/utils/stdcopy.go:31-46 | demultiplexing undoes multiplexing if and only if every frame names an output stream and fits 32 bits, for all sequences of frames |
| `StdFrames.WriteSurvives` | docker1.2.0-master/utils/stdcopy.go:31-46 | one write is read back if and only if its length fits 32 bits |
| `StdCopy.WriteFrame` | docker1.2.0-master/utils/stdcopy.go:31-46 | a write puts header and payload on the wire and reports the payload's length; a short write reports less |
| `StdCopy.Source.Read` | docker1.2.0-master/utils/stdcopy.go:86 | a read fills part of the buffer with the next bytes, at least one of them or the end or an error, and touches nothing else |
| `StdCopy.Fill` | docker1.2.0-master/utils/stdcopy.go:82-144 | reads in pieces of any size collect the front of what is left of the stream, until enough is there, the end or an error |
| `StdCopy.Extend` | docker1.2.0-master/utils/stdcopy.go:120-126 | a grown buffer keeps what was read |
| `StdCopy.Forward` | docker1.2.0-master/utils/stdcopy.go:146-157 | the payload goes to the stream its header names, after all that was delivered before; a short or failed write is reported |
| `StdCopy.Deliver` | docker1.2.0-master/utils/stdcopy.go:146-162 | one turn of the loop delivers one frame and shortens what is left |
| `StdCopy.Compact` | docker1.2.0-master/utils/stdcopy.go:159-162 | moving the rest to the front of the buffer keeps the unread bytes in order |
| `StdCopy.NextFrame` | docker1.2.0-master/utils/stdcopy.go:82-144 | the buffer then holds the next frame, or the stream has ended, failed or names no output |
| `StdCopy.StdCopy` | docker1.2.0-master/utils/stdcopy.go:72-164 | for every cutting into reads the destinations receive, in order, exactly the payloads of the complete frames for them, `written` is their total length, and with sound streams the status is that of the byte string; of a stream written frame by frame that breaks off anywhere, these are the frames written completely, and with sound streams there is no error |
| `GraphPaths.ComponentsOfRender` | docker1.2.0-master/pkg/graphdb/utils.go:9-11 | a lookup of a path takes exactly the components it was made of |
| `CleanPaths.ShapeOfText` | docker1.2.0-master/pkg/graphdb/graphdb.go:444-449 | cleaning a clean path changes nothing |
| `CleanPaths.ComponentsOfText` | docker1.2.0-master/pkg/graphdb/utils.go:9-11 | a lookup of a clean path takes its parts as steps, without the first one where there is no root |
| `CleanPaths.JoinPushes` | docker1.2.0-master/pkg/graphdb/graphdb.go:444-449 | joining a name to a path, as strings, has the effect of one more part, and a lookup of the result takes the steps that are left |
| `GraphPaths.AbsoluteSplit` | docker1.2.0-master/pkg/graphdb/utils.go:22-32 | the components of an absolute path are those of its parent and the last one |
| `GraphDB.SetLaw` | docker1.2.0-master/pkg/graphdb/graphdb.go:124-185 | a new edge makes its path lead to the entity and changes no path that led somewhere |
| `GraphDB.SetReaches` | docker1.2.0-master/pkg/graphdb/graphdb.go:124-185 | an absolute path leads to the entity set at it if and only if its last component is not empty |
| `GraphDB.DeleteLaw` | docker1.2.0-master/pkg/graphdb/graphdb.go:325-346 | exactly the walks that take the deleted edge are lost, all others keep their end |
| `GraphDB.DeleteReaches` | docker1.2.0-master/pkg/graphdb/graphdb.go:325-346 | a deleted absolute path is lost if and only if its last component is not empty |
| `GraphDB.RenameLaw` | docker1.2.0-master/pkg/graphdb/graphdb.go:385-413 | what a path led to, the path with the step renamed leads to |
| `GraphDB.RenameElsewhere` | docker1.2.0-master/pkg/graphdb/graphdb.go:385-413 | walks that do not take the renamed edge keep their path and end, those that do are lost under the old name |
| `GraphDB.PurgeLaw` | docker1.2.0-master/pkg/graphdb/graphdb.go:348-382 | exactly the walks that enter the purged entity are lost |
| `GraphDB.PurgeLeavesNoPath` | docker1.2.0-master/pkg/graphdb/graphdb.go:348-382 | nothing leads to a purged entity if and only if it is not the root |
| `GraphDB.Database.constructor` | docker1.2.0-master/pkg/graphdb/graphdb.go:76-116 | the initial tables, with the unique index satisfied |
| `GraphDB.Database.Get` | docker1.2.0-master/pkg/graphdb/graphdb.go:206-229 | the loop over the parts finds the end of the walk along the non-empty ones |
| `GraphDB.Database.ChildOf` | docker1.2.0-master/pkg/graphdb/graphdb.go:470-477 | the entity at the end of the one edge of that name |
| `GraphDB.Database.Set` | docker1.2.0-master/pkg/graphdb/graphdb.go:124-185 | succeeds exactly when the parent resolves, is not the entity and has no such child; then the path leads to it and no resolving path changes; a failure changes nothing |
| `GraphDB.Database.Refs` | docker1.2.0-master/pkg/graphdb/graphdb.go:285-294 | the number of distinct pairs of a parent and a name whose child is the entity, with the root's own row; if there is none, no path leads to it |
| `GraphDB.Database.Delete` | docker1.2.0-master/pkg/graphdb/graphdb.go:325-346 | the effect on every path, the uniqueness of names kept, and when it fails |
| `GraphDB.Database.Purge` | docker1.2.0-master/pkg/graphdb/graphdb.go:348-382 | returns the former number of references and loses exactly the paths through the entity |
| `GraphDB.Database.Rename` | docker1.2.0-master/pkg/graphdb/graphdb.go:385-413 | when it succeeds, where every path leads afterwards, and that a failure changes nothing |
| `GraphWalks.Children` | docker1.2.0-master/pkg/graphdb/graphdb.go:422-468 | one entry for each walk within the depth, each once, for every order of rows; terminates for every limited depth and on every acyclic graph without a limit |
| `GraphWalks.ChildrenOf` | docker1.2.0-master/pkg/graphdb/graphdb.go:272-283 | the listing of what a path leads to, or none where it leads nowhere |
| `GraphWalks.PlainPathResolves` | docker1.2.0-master/pkg/graphdb/graphdb.go:444-454 | from a start whose cleaned path leads to the same entity, a lookup of the path string reported for a walk over plain names finds its last entity |
| `GraphWalks.DottedPathFails` | docker1.2.0-master/pkg/graphdb/graphdb.go:444-454 | from such an absolute start, a walk over a name that is empty or made of dots has a part whose reported path does not lead to its entity |
| `GraphWalks.ListingResolves` | docker1.2.0-master/pkg/graphdb/graphdb.go:422-468 | on an acyclic graph a lookup of every reported path finds its entity: from an absolute start that is clean, or leads to the same entity when cleaned, if and only if all names met are plain; over plain names, from any start, if and only if the cleaned start has the same children |
| `GraphWalks.UncleanStartFails` | docker1.2.0-master/pkg/graphdb/graphdb.go:272-283 | a listing from `/..` reports a wrong path for every child that the root does not have under that name |
| `RepoTags.ParseUndoesJoin` | docker1.2.0-master/pkg/parsers/parsers.go:73-82 | parsing `repo:tag` gives the two back, if and only if the tag has neither a colon nor a slash |
| `ImageStore.FindsById` | docker1.2.0-master/graph/tags.go:79-99 | a lookup of an id that names no repository finds the image of that id |
| `ImageStore.FindsSome` | docker1.2.0-master/graph/tags.go:79-99 | a lookup of an existing id always finds an image |
| `ImageStore.FoundByTag` | docker1.2.0-master/graph/tags.go:79-99 | an image found under a name that is not its id has a tag |
| `ImageStore.ChainInPart` | docker1.2.0-master/image/image.go:260-268 | an image has the same ancestors in any smaller graph that is still closed |
| `ImageStore.HistoryHas` | docker1.2.0-master/image/image.go:244-258 | the walk over the history answers whether an image is among the ancestors, and fails only where a parent is missing |
| `ImageStore.Depth` | docker1.2.0-master/image/image.go:288-304 | the count is the length of the ancestor chain, the image included |
| `ImageStore.ByParent` | docker1.2.0-master/graph/graph.go:381-395 | a row for exactly the images with children, holding each child once |
| `ImageDelete.Daemon.LookupImage` | docker1.2.0-master/graph/tags.go:79-99 | finds what a tag, a tagged id with that prefix, or an id allows |
| `ImageDelete.Daemon.SetTag` | docker1.2.0-master/graph/tags.go:174-205 | an existing tag is moved whether or not force is given; the store stays sound |
| `ImageDelete.Daemon.DeleteTag` | docker1.2.0-master/graph/tags.go:146-172 | removes one tag or the repository, and an emptied repository with it |
| `ImageDelete.Daemon.NamesOf` | docker1.2.0-master/graph/tags.go:101-117 | each name of an image once, in any order |
| `ImageDelete.Daemon.DeleteAll` | docker1.2.0-master/graph/tags.go:126-144 | changes nothing when the image has no tags, which is when a deletion calls it |
| `ImageDelete.Daemon.Allows` | docker1.2.0-master/daemon/image_delete.go:133-154 | one container allows the deletion unless the image found for it has the deleted one in its history and it runs or force is not given |
| `ImageDelete.Daemon.CanDeleteImage` | docker1.2.0-master/daemon/image_delete.go:128-156 | if true, every container has a lookup that allows the deletion; if false, some container has one that refuses it; whatever repositories there are |
| `ImageDelete.SparedIffShown` | docker1.2.0-master/daemon/image_delete.go:128-156 | what a container uses is safe from every deletion that its lookups allow, if and only if every lookup of its image finds an image with that one in its history |
| `ImageDelete.UnshadowedNamesItself` | docker1.2.0-master/daemon/image_delete.go:133-136 | a container whose image names no repository has every lookup find that image, and so is safe |
| `ImageDelete.VerdictIffNamed` | docker1.2.0-master/daemon/image_delete.go:133-154 | the verdict on every image is the one that the container's own image calls for, if and only if every lookup finds that image |
| `ImageDelete.AllowedIfNoneBlocks` | docker1.2.0-master/daemon/image_delete.go:128-156 | with lookups that do, the check allows a deletion only if no container stands in the way, and refuses it only if one does |
| `ImageDelete.ShadowedContainer` | docker1.2.0-master/daemon/image_delete.go:133-136 | there are stores where no lookup shows the image of a running container, because a repository is named like it |
| `ImageDelete.Daemon.TagsToRemove` | docker1.2.0-master/daemon/image_delete.go:63-80 | all tags of the image in one repository; a second repository is a conflict exactly without force |
| `ImageDelete.Daemon.RemoveTags` | docker1.2.0-master/daemon/image_delete.go:86-98 | all the tags go, with one event each, or one is missing and nothing changes |
| `ImageDelete.Daemon.FindTarget` | docker1.2.0-master/daemon/image_delete.go:45-56 | the image found, and whether the name is part of its id |
| `ImageDelete.Daemon.Prepare` | docker1.2.0-master/daemon/image_delete.go:38-84 | which image is meant, which tags are to go, and when it stops before any effect |
| `ImageDelete.Daemon.RemoveImage` | docker1.2.0-master/daemon/image_delete.go:102-110 | an image without tags and children goes where every container may allow it, and stays where one may refuse it; the store stays sound |
| `ImageDelete.Daemon.RemoveAndPrune` | docker1.2.0-master/daemon/image_delete.go:101-122 | the deleted images are a bare run up the ancestor chain, and the prune stops only for a reason |
| `ImageDelete.Daemon.DeleteBare` | docker1.2.0-master/daemon/image_delete.go:99-125 | an image that still has tags or children stays, with that as the reason; otherwise it goes and the prune climbs |
| `ImageDelete.Daemon.Proceeding` | docker1.2.0-master/daemon/image_delete.go:58-125 | the whole outcome once the image and its tags are known |
| `ImageDelete.Daemon.DeleteImage` | docker1.2.0-master/daemon/image_delete.go:32-126 | for every acyclic store: parents and tags still resolve; the tags removed are the target's; the images removed start at the target and climb, each without tags and other children; what containers use is spared if their lookups show it; the events tell it; terminates by the number of images |
| `ImageDelete.RunIsPrefix` | docker1.2.0-master/daemon/image_delete.go:115-120 | the deleted images are an initial segment of the target's ancestor chain |
| `ImageDelete.RemovesMore` | docker1.2.0-master/daemon/image_delete.go:115-120 | the run deleted from the parent on, with the child in front, is a run of the graph before |
| `ImageDelete.SparesMore` | docker1.2.0-master/daemon/image_delete.go:128-156 | what was spared in the smaller graph was spared in the larger, where lookups show what containers use |
| `Push.GetImageList` | docker1.2.0-master/graph/push.go:18-62 | for every order of tags: no duplicates, exactly the ancestor closure of the selected tags' images, every parent before its child; the table is the exact inverse of the selected tags; an error exactly when no selected image exists |
| `Push.WalkUp` | docker1.2.0-master/graph/push.go:33-45 | the walk takes the part of the chain not seen before |
| `Push.Reverse` | docker1.2.0-master/graph/push.go:47-50 | the reversal in place, from both ends |
| `Push.ListMore` | docker1.2.0-master/graph/push.go:47-53 | appending a reversed part keeps parents first and extends the closure by one tag |
| `Push.BuildIndex` | docker1.2.0-master/graph/push.go:79-98 | one entry for each image and tag, one without a tag for each other image, each once, in the order of the list |
| `Push.TagIsSent` | docker1.2.0-master/graph/push.go:79-98 | a selected tag is registered, with its own image, if and only if that image exists |
| `Push.ParentIsSentFirst` | docker1.2.0-master/graph/push.go:79-98 | the parent of an image is registered before it |
| `Pool.TagStore.PoolAdd` | docker1.2.0-master/graph/tags.go:273-294 | adds the key, or returns the channel of whoever has it in either pool, or knows no such pool |
| `Pool.TagStore.PoolRemove` | docker1.2.0-master/graph/tags.go:296-313 | closes and removes the channel of a key that is present; no channel is closed twice |
| `Pool.AddIsSound` | docker1.2.0-master/graph/tags.go:273-294 | no key in both pools, every channel open under one key or closed once: kept by every addition, whoever makes it |
| `Pool.RemoveIsSound` | docker1.2.0-master/graph/tags.go:296-313 | the same for every removal |
| `Pool.StartKeepsInv` | docker1.2.0-master/graph/tags.go:273-294 | a client that adds keeps keys and workers one to one |
| `Pool.FinishKeepsInv` | docker1.2.0-master/graph/tags.go:296-313 | so does one that removes what it added, which closes exactly its channel |
| `Pool.RunKeepsInv` | docker1.2.0-master/graph/pull.go:36-46 | every interleaving of clients that remove only what they added keeps keys and workers one to one |
| `Pool.AtMostOneWorker` | docker1.2.0-master/graph/pull.go:138-152 | in every run at most one client works on a key across both pools, a key is in a pool if and only if a client works on it, and no channel is closed twice |
| `Pool.WaiterIsReleased` | docker1.2.0-master/graph/pull.go:38-43 | in every run a waiting client can go on, or some client works on its key and its end, which nothing prevents, lets it go on |
| `Pool.ClosedByHolder` | docker1.2.0-master/graph/pull.go:46 | the channel of a waiting client is closed by the end of the work on its key and by nothing else |
| `LayerPool.SafeIffNobodyGoesOn` | docker1.2.0-master/graph/pull.go:227-232 | in every run of clients of which some go on with a layer after their wait: at most one task works on each key throughout, also after one more start, if and only if nobody goes on |
| `LayerPool.GoingOnClosesAnother` | docker1.2.0-master/graph/pull.go:227-232 | in every such run, the end of a task that went on closes no channel of its own but that of whoever pulls the layer by then; even so none is closed twice |
| `LayerPool.GoingOnBreaks` | docker1.2.0-master/graph/pull.go:227-232 | whoever goes on works beside another task on the layer, or beside the next that starts on it |
| `PullLocks.NeverStuck` | docker1.2.0-master/graph/pull.go:36-232 | in every run of clients that hold keys while they wait for others, with errors anywhere: if each takes its keys in the order of some rank, some client can always go on until all are done |
| `PullLocks.ActShortens` | docker1.2.0-master/graph/pull.go:36-232 | and every step brings a client closer to its end |
| `PullOrder.PullsNeverStuck` | docker1.2.0-master/graph/pull.go:36-232 | any number of pulls and pushes, interleaved in any way, never block each other for good, where no repository that is pulled is named like an image or a layer |
| `PullOrder.StuckIffNamedAlike` | docker1.2.0-master/graph/pull.go:36-232 | a pull by itself can come to wait for its own channel if and only if its repository is named like one of the images or layers that are pulled for it |
| `PullOrder.PullInOrder` | docker1.2.0-master/graph/pull.go:36-232 | repository, image and layers from the root up are keys of rising rank, each owed until it is released, whatever is busy and whatever fails on the way |
| `State.ContainerState.constructor` | docker1.2.0-master/daemon/state.go:24-28 | a new state with one open channel |
| `State.ContainerState.SetRunning` | docker1.2.0-master/daemon/state.go:133-144 | the fields afterwards; the current channel is closed, for the first time, and a new open one takes its place |
| `State.ContainerState.SetStopped` | docker1.2.0-master/daemon/state.go:146-156 | the same for a stop |
| `State.ContainerState.SetRestarting` | docker1.2.0-master/daemon/state.go:160-172 | the same for a restart |
| `State.ContainerState.Fire` | docker1.2.0-master/daemon/state.go:141-142 | the waiters are fired: the open channel is closed and a new one made |
| `State.ContainerState.SetPaused` | docker1.2.0-master/daemon/state.go:181-185 | marks the container paused and wakes nobody |
| `State.ContainerState.SetUnpaused` | docker1.2.0-master/daemon/state.go:187-191 | removes the mark and wakes nobody |
| `State.ContainerState.Capture` | docker1.2.0-master/daemon/state.go:79-110 | an answer at once if the state is as wanted, otherwise the channel of the current generation |
| `State.ContainerState.ClosedIfOver` | docker1.2.0-master/daemon/state.go:133-172 | of all channels made, exactly those of past generations are closed |
| `State.RunIsConsistent` | docker1.2.0-master/daemon/state.go:133-172 | in every run restarting implies running and no process id, and not running implies neither |
| `State.WakesIfFired` | docker1.2.0-master/daemon/state.go:79-110 | in every run a waiter that captured a channel can wake if and only if a transition came after the capture |
| `State.FirstTransitionDecides` | docker1.2.0-master/daemon/state.go:76-110 | the first transition after the capture ends the wait; what was waited for is then the case if and only if it is of the right kind |
| `State.WaitStopReturnsEarly` | docker1.2.0-master/daemon/state.go:94-110 | `WaitStop` can return without any stop, the container still running |
| `State.WaitRunningReturnsStopped` | docker1.2.0-master/daemon/state.go:76-92 | `WaitRunning` can return process id 0 and no error without any start |
| `State.NestedReadLock` | docker1.2.0-master/daemon/state.go:79-85 | reader and setter are stuck exactly when the lock was asked for between the two read locks, and that can happen |
| `Monitor.ContainerMonitor.ExitOnNext` | docker1.2.0-master/daemon/monitor.go:68-79 | the step of a request to stop; the channel is never closed twice |
| `Monitor.ContainerMonitor.ResetMonitor` | docker1.2.0-master/daemon/monitor.go:190-207 | the counters after an execution |
| `Monitor.ContainerMonitor.ShouldRestart` | docker1.2.0-master/daemon/monitor.go:220-243 | the decision as the policy, the counters and a request to stop determine it |
| `Monitor.ContainerMonitor.Execute` | docker1.2.0-master/daemon/monitor.go:121-151 | one execution is a run of steps, with requests to stop wherever they come in |
| `Monitor.ContainerMonitor.Settle` | docker1.2.0-master/daemon/monitor.go:153-182 | so are the decision, the wait and the check |
| `Monitor.ContainerMonitor.Finish` | docker1.2.0-master/daemon/monitor.go:136-151 | the end of an execution: an error of the first one ends the loop, otherwise the counters are reset |
| `Monitor.ContainerMonitor.Wait` | docker1.2.0-master/daemon/monitor.go:211-216 | the wait ends by time or by a request to stop |
| `Monitor.ContainerMonitor.CheckStop` | docker1.2.0-master/daemon/monitor.go:164-172 | the check after the wait |
| `Monitor.ContainerMonitor.Start` | docker1.2.0-master/daemon/monitor.go:100-185 | the loop, whatever happens in its rounds, is a run of the state machine |
| `Monitor.StepKeepsInv` | docker1.2.0-master/daemon/monitor.go:100-243 | every step keeps the counts, the history of waits, the policy and the container's state right |
| `Monitor.RunKeepsInv` | docker1.2.0-master/daemon/monitor.go:100-243 | so does every run |
| `Monitor.PolicyIsKept` | docker1.2.0-master/daemon/monitor.go:220-243 | in every run: at most the maximum of executions on failure, each restart after a status other than 0; one execution without a policy; the stop channel closed at most once |
| `Monitor.WaitsDouble` | docker1.2.0-master/daemon/monitor.go:190-216 | in every run the wait after k quick exits in a row is 100 times 2^k milliseconds if and only if k is at most 36 |
| `Monitor.StopsSoon` | docker1.2.0-master/daemon/monitor.go:68-79 | in every run after a request to stop no execution begins, except one that the loop was about to begin past its check |
| `Monitor.StopMakesProgress` | docker1.2.0-master/daemon/monitor.go:211-216 | and the loop can always take a step towards its end, without waiting |
| `Monitor.StoppedAtTheEnd` | docker1.2.0-master/daemon/monitor.go:118-184 | in every run that has ended the container counts as stopped, but for two errors named in the statement |
| `Resumable.ResumableRequestReader.Read` | docker1.2.0-master/pkg/httputils/resumablerequestreader.go:33-79 | one call puts the bytes into the buffer and has the outcome of the state machine, for every reply and failure |
| `Resumable.ResumableRequestReader.ReadResponse` | docker1.2.0-master/pkg/httputils/resumablerequestreader.go:56-78 | the part of a call that follows a response |
| `Resumable.ResumableRequestReader.Close` | docker1.2.0-master/pkg/httputils/resumablerequestreader.go:81-93 | a closed reader holds no response |
| `Resumable.ResponseKeepsInv` | docker1.2.0-master/pkg/httputils/resumablerequestreader.go:54-78 | whatever response comes, what was delivered stays a prefix of the body and what remains continues it |
| `Resumable.DeliversPrefix` | docker1.2.0-master/pkg/httputils/resumablerequestreader.go:33-79 | so in every run |
| `Resumable.ReadsBody` | docker1.2.0-master/pkg/httputils/resumablerequestreader.go:33-79 | in every run against a server that honours ranges (sections 2.1, 4.1 and 4.4 of RFC 7233) the bytes delivered are the body up to the position; the end means all of it if the size given is 0 or at least one less than the body; failures stay below the maximum |
| `Resumable.EndsEarly` | docker1.2.0-master/pkg/httputils/resumablerequestreader.go:38-42 | for every smaller size there is a run that reports the end with the rest missing |
| `ShellQuote.Quote` | docker1.2.0-master/utils/utils.go:438-458 | the loop writes the word as it is, or between quotes with each quote escaped |
| `ShellQuote.ContainsSpecial` | docker1.2.0-master/utils/utils.go:440 | some character of the word is special |
| `ShellQuote.ShellQuoteArguments` | docker1.2.0-master/utils/utils.go:462-471 | the words quoted and separated by one space |
| `ShellQuote.ScanQuoted` | docker1.2.0-master/utils/utils.go:438-458 | whatever follows, a quoted word is read back as that word, unless it reads as a comment |
| `ShellQuote.RoundTrip` | docker1.2.0-master/utils/utils.go:462-471 | reading the line by sections 2.2 and 2.3 of the POSIX.1-2017 Shell Command Language gives the words back if and only if none reads as a comment |
| `Flags.FlagSet.ParseOne` | docker1.2.0-master/pkg/mflag/flag.go:811-893 | one argument, with its value, has the outcome of the specification |
| `Flags.FlagSet.Split` | docker1.2.0-master/pkg/mflag/flag.go:815-836 | what one argument is by itself: no flag, the terminator, malformed, or a name with or without a value |
| `Flags.FlagSet.ApplyFlag` | docker1.2.0-master/pkg/mflag/flag.go:838-892 | the effect of a flag that is given, or why there is none |
| `Flags.FlagSet.ExpandLetters` | docker1.2.0-master/pkg/mflag/flag.go:911-923 | the letters of a cluster, each put in front of the arguments |
| `Flags.FlagSet.Parse` | docker1.2.0-master/pkg/mflag/flag.go:899-941 | parsing ends for all arguments and leaves, on success, a suffix of them |
| `Flags.LetterIsArg` | docker1.2.0-master/pkg/mflag/flag.go:911-917 | a letter put in front of the arguments is an argument of its own |
| `Flags.ExpandIsSingles` | docker1.2.0-master/pkg/mflag/flag.go:911-926 | a cluster does what its letters do one by one |
| `Flags.ClusterIff` | docker1.2.0-master/pkg/mflag/flag.go:899-941 | an undefined cluster of flags and dashes, boolean but perhaps for the last, leaves what its letters leave one by one, or both fail, if and only if it is not `help` and has no dash; a dash in last place makes no difference exactly when no flag follows |
| `Flags.ClusterLaw` | docker1.2.0-master/pkg/mflag/flag.go:899-941 | the half of this for clusters without dashes: the same flags, values and arguments, and a failure of one if and only if the other fails |
| `Flags.HelpIsNoCluster` | docker1.2.0-master/pkg/mflag/flag.go:840-844 | the cluster `-help` asks for help instead, and its letters one by one never leave that |
| `Flags.DashIsSkipped` | docker1.2.0-master/pkg/mflag/flag.go:911-923 | every cluster does what it does without its dashes |
| `Flags.DashEnds` | docker1.2.0-master/pkg/mflag/flag.go:819-822 | given one by one, the letters before the first dash take effect and all after it are left as arguments |
| `Flags.ValueLaw` | docker1.2.0-master/pkg/mflag/flag.go:773-808 | a value after `=` is the same as the next argument but for its outer quotes; a lone quote makes the parser panic |
| `Flags.UndefinedDropsValue` | docker1.2.0-master/pkg/mflag/flag.go:832-848 | a value given with an undefined name, so with every cluster, is dropped: the arguments parse as without it, unless trimming it panics |
| `Flags.ClusterIgnoresValue` | docker1.2.0-master/pkg/mflag/flag.go:911-923 | whatever value follows a cluster of boolean flags, even `false`, all of them are set to true, the last one too |
| `Flags.SwitchTakesValue` | docker1.2.0-master/pkg/mflag/flag.go:850-857 | a boolean flag given alone takes its value |
| `TailFile.SplitThenGlue` | docker1.2.0-master/pkg/tailfile/tailfile.go:56 | the parts have no newline and joined by newlines are the data |
| `TailFile.GlueThenSplit` | docker1.2.0-master/pkg/tailfile/tailfile.go:56 | no other parts are |
| `TailFile.LastOfEnd` | docker1.2.0-master/pkg/tailfile/tailfile.go:50-53 | once more than n newlines are read, the last n lines of the part read are those of the file |
| `TailFile.Tail` | docker1.2.0-master/pkg/tailfile/tailfile.go:15-61 | reading backwards in blocks returns exactly the last min(n, k) of the k terminated lines, for every content and every n |
| `TailFile.LastLines` | docker1.2.0-master/pkg/tailfile/tailfile.go:56-60 | the slice taken of the parts is the last n lines of the data read |
| `TailFile.Count` | docker1.2.0-master/pkg/tailfile/tailfile.go:50 | the number of newlines in a block |
| `TailFile.DropsUnterminated` | docker1.2.0-master/pkg/tailfile/tailfile.go:56-60 | an unterminated last line never appears |
| `Broadcast.LinesAndRest` | docker1.2.0-master/pkg/broadcastwriter/broadcastwriter.go:46-52 | lines and rest are the data, each line with one newline at its end |
| `Broadcast.CutInTwo` | docker1.2.0-master/pkg/broadcastwriter/broadcastwriter.go:46-52 | cutting in two steps gives the lines of the whole |
| `Broadcast.BroadcastWriter.AddWriter` | docker1.2.0-master/pkg/broadcastwriter/broadcastwriter.go:24-31 | a writer joins a stream |
| `Broadcast.BroadcastWriter.DeliverLine` | docker1.2.0-master/pkg/broadcastwriter/broadcastwriter.go:53-69 | every attached writer of lines gets the line or is evicted, whatever the order of streams and writers |
| `Broadcast.BroadcastWriter.Deliver` | docker1.2.0-master/pkg/broadcastwriter/broadcastwriter.go:38-45 | the writers of one stream get the payload or are evicted, in any order |
| `Broadcast.BroadcastWriter.ReadString` | docker1.2.0-master/pkg/broadcastwriter/broadcastwriter.go:48-52 | the first line is cut off; without a newline all of the buffer is read |
| `Broadcast.BroadcastWriter.Write` | docker1.2.0-master/pkg/broadcastwriter/broadcastwriter.go:35-72 | raw writers get the bytes, the others each complete line, failing ones are evicted, the rest stays in the buffer |
| `Broadcast.BroadcastWriter.Clean` | docker1.2.0-master/pkg/broadcastwriter/broadcastwriter.go:76-86 | all writers go, the buffer stays |
| `Broadcast.WriterTakes` | docker1.2.0-master/pkg/broadcastwriter/broadcastwriter.go:63-67 | a writer gets the lines of a call up to its first failure, and is evicted if and only if it fails |
| `Broadcast.ChunkingDoesNotMatter` | docker1.2.0-master/pkg/broadcastwriter/broadcastwriter.go:35-72 | in every run the lines handed out are those of all the bytes, however cut into calls; with the buffer they are all the bytes, and the buffer has no newline |
| `Broadcast.SteadyWriterGetsLines` | docker1.2.0-master/pkg/broadcastwriter/broadcastwriter.go:35-72 | in every run a writer that does not fail receives exactly the lines of the bytes written, with the rest left before |
| `Broadcast.WriterGetsPrefix` | docker1.2.0-master/pkg/broadcastwriter/broadcastwriter.go:35-72 | in every run, whatever fails and when, a writer of lines receives the lines up to its first failure, a prefix of those of the bytes written, and stays attached if and only if it was steady |
| `Broadcast.RawWriterGetsBytes` | docker1.2.0-master/pkg/broadcastwriter/broadcastwriter.go:38-45 | in every run a raw writer receives the bytes of the calls before its first failure, each call in one piece; all of them if it never fails |
| `Network.AndNumber` | docker1.2.0-master/daemon/networkdriver/utils.go:58-69 | masking an address byte by byte masks it as a number |
| `Network.OrAdds` | docker1.2.0-master/daemon/networkdriver/utils.go:65-67 | setting every bit beside the mask adds the complement of the mask to the masked number |
| `Network.Mask` | docker1.2.0-master/daemon/networkdriver/utils.go:61 | the address under a mask, byte by byte and as a number |
| `Network.Contains` | docker1.2.0-master/daemon/networkdriver/utils.go:48-53 | true if and only if the address is in the network |
| `Network.MemberIffBetween` | docker1.2.0-master/daemon/networkdriver/utils.go:58-69 | for the mask of a prefix of any width, an address is in the network if and only if it lies between the ends |
| `Network.NetworkRange` | docker1.2.0-master/daemon/networkdriver/utils.go:58-69 | the ends are members, and the least and the greatest as numbers, for every mask; for the mask of a prefix the network is exactly the interval between them |
| `Network.PrefixesAreNested` | docker1.2.0-master/daemon/networkdriver/utils.go:47-55 | of the masks of two prefixes one covers the other |
| `Network.NetworkOverlaps` | docker1.2.0-master/daemon/networkdriver/utils.go:47-55 | for nested masks true if and only if some address is in both networks; for any two other masks it misses that the last address is in both |
| `Network.NetworkSize` | docker1.2.0-master/daemon/networkdriver/utils.go:72-78 | for the mask of a prefix, the number of addresses from the first to the last that `NetworkRange` gives for that network, last - first + 1, if and only if the prefix has two bits or more |
| `Network.SizeIsRight` | docker1.2.0-master/daemon/networkdriver/utils.go:72-78 | the same of the 32-bit arithmetic, with both wrap-arounds |

## Left out

- AUFS hard links through `.wh..wh.plnk` (`archive/diff.go:71-90, 117-131`): such headers are skipped.
- The parser of an AUFS layer directory, `Changes(layers, rw)` (`archive/changes.go:61-131`), and `ChangesSize`.
- Symbolic links on the way to a path, permissions and I/O errors: a path names one entry, and calls fail only where an entry is in the way.
- Block devices and sockets, which the test for a directory by its mode bits also matches (`archive/changes.go:167-169`).
- The parent pointers of `FileInfo`: the path is a parameter instead, and a node's children are a value.
- The clock during a replay: one reading stands for all; the access times; the partial effect of a replay that fails.
- Encoding: tar, gzip, JSON, SQL and HTTP are not modelled; a tar header keeps seconds only and times from 1970 to 2242, as the format does.
- Lookup by an abbreviated id (`truncindex`): an id is found only in full.
- The sorting of names in `ByID`: they come in any order.
- Persistence: memory and disk are the same, so `reload` and `save` have no place.
- The result of the `image_delete` job for an empty table, and messages to users.
- `List`, `Walk`, `RefPaths`, `Exists` and `PathDepth` of the entity graph, and `Heads`, `Map` and `GetParentsSize` of the image graph: they would add easy members only.
- A name with dots above the root of a layer: headers are clean relative paths.
- Layers.Destination.ApplyEntry: a top-level header named `.wh...` removes the directory that holds the destination (`archive/diff.go:94-99`); the model has only the destination, which goes with it.
- Writing through an existing link, device or pipe (`archive/archive.go:219-229`): both callers of `createTarFile` remove such an entry first; the model takes it for a failure.
- Fields of a state that only describe it (`String`, `MarshalJSON`), and `IsPaused`; that a paused container runs is not claimed, since a stop does not clear the mark.
- The images of one pull in parallel (`graph/pull.go:183-200`): `PullOrder` takes them one after the other; an endpoint's history is taken to name each parent before its child.
- Closing and recreating the streams of a container between executions (`daemon/monitor.go:274-319`), and the start signal.
- Overflow of the failure counter of the monitor, which would take 2^63 executions.
- The pauses of the resumable reader before it asks again; responses that are not for the body asked for.
- The value that a failed `Set` of a flag leaves behind, since parsing fails with it; warnings about deprecated names; what an error does beyond being returned.
- Reads of a file that return less than asked for, which `TailFile` does not expect.
- The JSON form of a line: writers receive the line, together with the stream it is for.
- What a raw writer that fails received of the write it failed on.
- Addresses of IPv6, for which `NetworkRange` has no result.
- MarkerNames.LawIffCarried: excepts trees with a changed directory that may come out by chance (`MayComeOut`): its name starts like a whiteout, something below it has changed as well, and it cannot be told from a directory just made (mode 0600, owner 0, the time of the replay) or from the old one just touched; whether a replay then brings it out depends on the order of the entries, and `DirComesOut` is a case where it does.
- Push.GetImageList: is stated for acyclic stores; on a cyclic one the loop ends as well, but no order of parents exists.
