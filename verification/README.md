# Shared host path CSI driver: a verified model

The driver keeps the facts about one volume in four places: a row in a database table, a file
or folder in the tree below `vols`, a symlink in the tree below `syms`, and publish records. Every
request handler changes these one after the other and can fail or crash in between, and a
clean-up job in another process changes them at the same time. This project models that
system in Dafny and proves what each run of it keeps, what failures break, and what the
clean-up restores.

## How the model is laid out

- `Prelude`, `Capacity`: replies and codes; capacity rounding over 64-bit integers.
- `Catalogue`: the volume table (append-only, soft delete, unique columns), the tree below
  `vols`, the symlinks, and the operations that change one of them.
- `StepMachine`: controller, clean-up job and pods as one state machine of fine steps, with
  failures, crashes and partial removals as arguments of the steps. Every list of steps is a
  run. `Invariants` proves what each step keeps, `RunProperties` what whole runs keep,
  `LinkRuns` exactly which steps break the symlink index.
- `Volumes`: the `VolumeHelper` object as a class, method by method, each proved against a
  function of the store. `Controller`: the request handlers as a class over it. `Handlers`: the handlers as
  functions, and the proof that each is a run of the step machine, so what holds of all
  interleavings holds of the classes. `HandlerProperties` and `CleanUp` hold the results,
  `TableRuns` what the unique columns give without any assumption on the ids drawn. `Answers` says
  for each request exactly when it succeeds and what its answer tells.
- `Records`, `PublishRuns`, `Heartbeat`: publish records, the 30-second node check and the
  node's ticker, on one clock and beside all runs of the step machine. `Tokens`, `Paging`: listing page by page.
- `Losetup`, `Loops`, `Node`, `NodeRuns`: the node side. `SiteRuns`: one node beside the step
  machine, its calls reading table and tree as they are, its devices losing the files that steps remove. `NodeAnswers`: exactly when the
  node's calls succeed, and what is mounted then.

What I/O may do is an argument: an `env` value of a method says which calls work, and a set
`stuck` says which entries a removal cannot remove. All results are for every such value.

The handlers implement the Container Storage Interface specification, version 1.5.0, sections
"CreateVolume", "DeleteVolume", "ListVolumes", "ControllerExpandVolume",
"ControllerPublishVolume" and "NodePublishVolume"; the idempotency results are
what those sections ask for.

## Assumptions

- One controller process is active at a time, so its mutex serialises the handlers.
- Row queries succeed or report "not found"; a failed commit committed nothing; the
  soft-delete of a volume succeeds.
- A UUID drawn for a volume was never drawn before. The tree needs this, as a reused id would
  find an older volume's data at its path; the table does not (`TableRuns.NeverReused`).
- `dd` sets the size or changes nothing.
- A create that draws an id asks for at most 2^63 - 2^20 bytes where the invariant is kept;
  `Handlers.NewVolumeValidExactly` proves this bound to be exact. All other amounts are any
  64-bit integers.
- Namespace and PVC names are single clean path components, so a symlink is named by the pair.
- Rows are scanned in insertion order, the same in every query.
- The driver runs under its default name, which prefixes the storage class parameters.
- A path is the list of its components below `vols`; `Catalogue.ShardPathInjective` connects
  it with the text the operating system sees.
- The text `losetup` prints is taken as bytes, one to a character.
- One clean-up job runs at a time; node calls on one node are made one after the other.

## Where the code does not do what it says

These are proved as lemmas, with the exact condition where there is one.

- Phase 1 of the clean-up, meant to remove the data of deleted volumes, looks for `vols/<id>`.
  Volumes live at `vols/ab/cd/ef/<id>`, so it never removes anything, in any state
  (`CleanUp.TopsRemoveNothing`). Phase 2 does the work.
- A clean-up can remove the data of a volume that is being created; the create still commits
  (`RunProperties.LossHappens`). This is the only way a live volume loses its path
  (`RunProperties.LossNeedsExposure`); a volume that has its path can still lose it exactly
  when the job is about to remove it (`RunProperties.LostExactly`). The next create of the
  name repairs it (`HandlerProperties.CreateRepopulates`).
- A symlink rebuild runs beside the handlers, which its table read does not wait for. A volume
  deleted after the read gets its symlink back (`LinkRuns.StaleLinkHappens`); a volume
  whose create made its symlink before the directory is emptied and commits after
  the read stays without one (`LinkRuns.MissingLinkHappens`). No call fails in these runs. `LinkRuns.CoveredExactly` and
  `LinkRuns.PromisedExactly` list, over every run, exactly the steps that break the index.
- An expand raises the recorded capacity outside its transaction. If the file cannot follow, the
  rollback does not lower it again, and repeating the failed expand answers success for a size
  the file does not have (`HandlerProperties.FailedExpandRepeatsOk`, exactly when:
  `HandlerProperties.RepeatedExpandExactly`). A crash in between does the same without any failing
  call (`RunProperties.CrashSpoils`). `RunProperties.ExactExactly` lists, over every run, exactly the
  steps that leave a file other than recorded.
- A create whose commit fails removes the symlink of its namespace and PVC name even when that
  belongs to another live volume (`HandlerProperties.FailedCommitTakesLink`, `HandlerProperties.LinkIsTaken`). So does a delete
  when two live volumes share the pair. A request keeps the symlink index
  if and only if it is neither of these (`HandlerProperties.IndexKeptExactly`).
- The capacity check passes for requests above 2^63 - 2^20, whose rounding wraps
  (`Capacity.WithinLimitExactly`).
- A symlink rebuild reports the outcome of its last link call only: it answers success with a
  volume unlinked (`Volumes.RebuildHidesFailure`) and an error with all of them linked
  (`Volumes.RebuildDeniesSuccess`). `Volumes.RebuildAnswerExactly` says when its answer is right.
- A look-up or detach that does not work during unpublish is never retried: the repeated unpublish
  answers success and the loop device stays attached, exactly when the first one had unmounted the
  target (`NodeRuns.UnpublishTwiceExactly`). No number of further calls changes that
  (`NodeRuns.NeverRetried`).
- A delete whose removal fails is answered with an error, its repeat with success, although the
  data is still there for the clean-up to find (`HandlerProperties.RepeatedDeleteExactly`).
- A create that has to populate answers success without comparing the volume with the request
  (`HandlerProperties.CreateMisanswersExactly`).
- The publish records of a deleted volume stay live for ever, as unpublishing it is refused
  (`PublishRuns.DeletedVolumeKeepsRecords`, `PublishRuns.UnpublishClearsExactly`). The same
  holds on the node, where the target of a deleted volume stays mounted
  (`NodeRuns.DeletedStaysMounted`, `NodeRuns.DeletedKeepsNodeRecords`).
- A node publish that fails at mode or record removes the target without looking at whether its
  unmount worked, and so removes the files of the volume mounted there when it did not, even if
  an earlier publish mounted it and this one is read-only (`NodeRuns.FailedPublishErasesExactly`,
  `NodeRuns.ErasureHappens`).
- A create admits any volume type. For a mount access the node mounts only "folder" and "disk", the
  latter only with a file system type (`NodeRuns.AdmittedMountsExactly`); for a block access it
  publishes every block volume (`NodeRuns.AdmittedRawExactly`).
- A loop device whose file is removed under it stays attached for ever
  (`NodeRuns.GoneStaysAttached`), and the file made again at its path gets another
  (`NodeRuns.SecondDeviceExactly`). This takes the clean-up's removal of a volume under creation, so it
  happens at most once to a path: at most two devices are ever attached for one
  (`SiteRuns.AtMostTwoDevices`), and two do occur (`SiteRuns.TwoDevicesHappen`).

## Model

| member | source | states |
|---|---|---|
| Capacity.FixCapacityIsLeast | internal/sharedhostpath/utils.go:660-668 | The rounded request is the least whole-MiB amount that covers the request and one GiB. |
| Capacity.FixCapacityMonotone | internal/sharedhostpath/utils.go:660-668 | Rounding is monotone and idempotent up to 2^63 - 2^20. |
| Capacity.FixCapacityOverflow | internal/sharedhostpath/utils.go:664-666 | Every 64-bit request above 2^63 - 2^20 wraps to the least 64-bit integer. |
| Capacity.WithinLimitExactly | internal/sharedhostpath/controllerserver.go:167-171 | The capacity check passes if and only if the request is at most 2^40 - 2^20 or its rounding overflows. |
| Capacity.AcceptedCapacityOk | internal/sharedhostpath/controllerserver.go:388-392 | Without overflow the check passes exactly when the rounded amount is whole MiB in [2^30, 2^40). |
| Catalogue.RenderInjective | internal/sharedhostpath/utils.go:141-150 | Different lists of slash-free components are different paths on disk. |
| Catalogue.ShardPathInjective | internal/sharedhostpath/utils.go:141-150 | Two volume ids with the same path on disk are the same id. |
| Catalogue.RemoveFailsExactly | internal/sharedhostpath/utils.go:447-454 | A removal reports an error if and only if something at or below its path is left. |
| Catalogue.RebuiltIsIndex | internal/sharedhostpath/utils.go:493-502 | A rebuilt index points only to live volumes of the name, and covers every live volume's name. |
| Catalogue.IndexIsRebuilt | internal/sharedhostpath/utils.go:486-502 | When no two live volumes share a name, an index is sound and complete if and only if it is the rebuilt one. |
| Catalogue.RebuildCompleteExactly | internal/sharedhostpath/utils.go:493-502 | For every outcome of the single link calls, a rebuild is complete if and only if each live volume's name has a working call. |
| Invariants.ReachableInv | internal/sharedhostpath/utils.go:138-204 | In every reachable state of every interleaving with crashes: ids and paths used once, at most one live row per name, tree shape and nothing below a missing directory, a file at a live path within the recorded capacity, handler and job consistent. |
| Invariants.StepKeeps | internal/sharedhostpath/utils.go:511-555 | Each single step of controller, clean-up and pods, failing or not, keeps that invariant. |
| Invariants.StepKeepsClosed | internal/sharedhostpath/utils.go:539-548 | No step, failing or not, leaves an entry below a missing directory. |
| Invariants.LiveRowFound | internal/sharedhostpath/utils.go:462-469 | A live row is exactly what its name and its id lead to. |
| Invariants.SweepRemovesNothing | internal/sharedhostpath/utils.go:522-530 | No tree the driver can reach has anything at or below the target of phase 1. |
| RunProperties.RunEvolves | internal/sharedhostpath/utils.go:224-226 | In every run rows only get appended, capacities never decrease, deleted rows never come back. |
| RunProperties.IdLife | internal/sharedhostpath/utils.go:56-64 | An id is absent, then live, then deleted, in that order, and no path belongs to two rows, in every interleaving whose drawn ids are new. |
| TableRuns.NeverReused | internal/sharedhostpath/utils.go:56-64 | Through every history of requests, whatever ids are drawn and whatever happens to tree and symlinks between them, no id and no path is used by two rows and no deleted row comes back. |
| TableRuns.UsedIdRefused | internal/sharedhostpath/utils.go:169-175 | A create that draws the id of a row, live or deleted, is refused and adds nothing. |
| RunProperties.NameKeepsRow | internal/sharedhostpath/controllerserver.go:187-188 | Through every run without its deletion, a volume's name and id lead to it and to nothing else. |
| RunProperties.LiveVolumeKeepsPath | internal/sharedhostpath/utils.go:539-548 | In every interleaving, a volume committed before the job looks its path up, and not deleted, keeps its path. |
| RunProperties.LossNeedsExposure | internal/sharedhostpath/utils.go:177-193 | A live volume without its path was looked up by the job while its creation lay between populate and commit. |
| RunProperties.LostExactly | internal/sharedhostpath/utils.go:539-548 | A live volume with its path can lose it in some run that does not delete it if and only if the job has looked it up and is about to remove it. |
| RunProperties.LossHappens | internal/sharedhostpath/utils.go:539-548 | For every volume there is a run without any failure that ends with its row live and its path gone. |
| RunProperties.FileWithinCapacity | internal/sharedhostpath/utils.go:215-279 | In every run, failing or not, a live block volume's file is no larger than recorded, and both are rounded amounts. |
| RunProperties.StepNeverShrinks | internal/sharedhostpath/utils.go:252-256 | No step of any process shrinks a live volume's file. |
| RunProperties.CalmRunExact | internal/sharedhostpath/utils.go:232-265 | File size equals recorded capacity between handlers in every run without failing stat or `dd` in which no crash hits an expand. |
| RunProperties.ExactExactly | internal/sharedhostpath/utils.go:224-265 | In every run, failing or not, file size equals recorded capacity between handlers, at every moment, if and only if no step is a crash or failing stat after an update or a crash or failing `dd` after the check, of a volume whose file is there. |
| RunProperties.CrashSpoils | internal/sharedhostpath/utils.go:226-252 | For any block volume and larger capacity there is a run in which no call fails and a crash leaves the file smaller than recorded. |
| RunProperties.MismatchIsAbsorbing | internal/sharedhostpath/utils.go:244-250 | Once file size and record differ, they differ through every run until the volume is deleted or its file is gone. |
| Volumes.VolumeHelper.PopulateVolumeIfRequired | internal/sharedhostpath/utils.go:625-658 | The tree, the "had to populate" answer and the error are those of the populate specification. |
| Volumes.VolumeHelper.CreateVolume | internal/sharedhostpath/utils.go:138-204 | The whole new store and the answer, for every failure point, including what a failed commit removes. |
| Volumes.VolumeHelper.DeleteVolume | internal/sharedhostpath/utils.go:419-460 | The whole new store: the soft-delete stays although the removal or the commit fails. |
| Volumes.VolumeHelper.UpdateVolumeCapacity | internal/sharedhostpath/utils.go:215-279 | The whole new store: the recorded capacity stays raised although stat, size check, `dd` or commit fails. |
| Volumes.VolumeHelper.ReBuildSymLinks | internal/sharedhostpath/utils.go:471-509 | The loop gives the recursive rebuild for every outcome of the single calls; the answer is an error if and only if the last call fails, by itself or because an earlier working call took its name; the index is complete if and only if each live volume's name has a working call. |
| Volumes.RebuildHidesFailure | internal/sharedhostpath/utils.go:493-508 | Whenever the call of the first of two volumes fails, the rebuild answers success with it unlinked. |
| Volumes.RebuildDeniesSuccess | internal/sharedhostpath/utils.go:493-508 | Whenever two volumes share a name and no call fails otherwise, the rebuild answers an error with both linked. |
| Volumes.RebuildAnswerExactly | internal/sharedhostpath/utils.go:493-508 | For every outcome of the single calls: success is wrong if and only if the last call works and some live volume's calls all fail; an error is wrong if and only if every name has a working call, the last volume's even before its own. |
| Answers.RebuildStops | internal/sharedhostpath/utils.go:475-484 | A rebuild that cannot empty the directory answers an error and adds no link; without live volumes it succeeds with none. |
| Volumes.VolumeHelper.SweepUnknown | internal/sharedhostpath/utils.go:532-548 | Entry by entry, the loop removes exactly what is at or below a depth-four entry without live row, except what cannot be removed. |
| Volumes.VolumeHelper.Glob | internal/sharedhostpath/utils.go:533-534 | Every depth-four entry is listed once. |
| Volumes.VolumeHelper.CleanUpDanglingVolumes | internal/sharedhostpath/utils.go:511-555 | The three phases in order, as a function of the store and of what fails. |
| Volumes.VolumeHelper.GetVolumeWithDetail | internal/sharedhostpath/utils.go:281-342 | The detail of the live row of the id, whose content `Answers.RunDetailTells` states. |
| Volumes.VolumeHelper.GetVolumesWithDetail | internal/sharedhostpath/utils.go:357-418 | The details of the page of live rows, in scan order, whose content `Answers.RunListTells` states. |
| Volumes.VolumeHelper.GetVolumeCount | internal/sharedhostpath/utils.go:344-355 | The number of live rows. |
| Handlers.CreateIsRun | internal/sharedhostpath/utils.go:138-204 | Creating a volume in one go has the outcome of its fine steps run alone, for every failure point. |
| Handlers.DeleteIsRun | internal/sharedhostpath/utils.go:419-460 | Deleting a volume in one go has the outcome of its fine steps. |
| Handlers.ExpandIsRun | internal/sharedhostpath/utils.go:215-279 | Expanding a volume in one go has the outcome of its fine steps. |
| Handlers.ServeIsRun | internal/sharedhostpath/controllerserver.go:125-279 | Every create, delete or expand request, with all its checks, is a run of the step machine, wherever the clean-up job stands. |
| Handlers.ServeKeepsValid | internal/sharedhostpath/controllerserver.go:374-413 | Every request keeps the invariant. |
| Handlers.NewVolumeValidExactly | internal/sharedhostpath/utils.go:660-668 | A successful create that draws a new id keeps the invariant if and only if the rounding of its amount does not overflow. |
| Controller.ControllerServer.ScanCapabilities | internal/sharedhostpath/controllerserver.go:137-148 | The loop finds whether a block and whether a mount access is asked for; the running flag is the block one when not both are. |
| Controller.ControllerServer.CreateVolume | internal/sharedhostpath/controllerserver.go:125-251 | Answer and new store for every request; each error code on its condition; the invariant is kept unless an id is drawn that is not new, or for an amount whose rounding overflows. |
| Controller.ControllerServer.DeleteVolume | internal/sharedhostpath/controllerserver.go:253-279 | Deleting an unknown id succeeds and changes nothing; otherwise the store is the deleted one; the invariant is kept. |
| Controller.ControllerServer.ControllerExpandVolume | internal/sharedhostpath/controllerserver.go:374-413 | Answer and new store for every request, keeping the invariant for every 64-bit amount; a capacity already recorded succeeds without a change. |
| Controller.ControllerServer.ControllerPublishVolume | internal/sharedhostpath/controllerserver.go:281-339 | Answer and new record table; each error code on its condition. |
| Controller.ControllerServer.ControllerUnpublishVolume | internal/sharedhostpath/controllerserver.go:341-372 | Answer and new record table; unpublishing what is not published succeeds. |
| Controller.ControllerServer.ListVolumes | internal/sharedhostpath/controllerserver.go:415-478 | The page of details and the next token as a function of the listed volumes, the token and the limit. |
| HandlerProperties.CreateOfTakenName | internal/sharedhostpath/controllerserver.go:187-210 | A create of a taken name succeeds if and only if populating works and the path was missing or the volume is the one asked for; only a missing path is changed. |
| HandlerProperties.CreateRepopulates | internal/sharedhostpath/controllerserver.go:192-203 | A volume that lost its path gets it back, with its row's kind and capacity, from the next create of its name. |
| HandlerProperties.CreateOfNewName | internal/sharedhostpath/controllerserver.go:212-250 | A successful create of a new name appends one live row that answers the request and has its path. |
| Answers.CreateRefusedExactly | internal/sharedhostpath/controllerserver.go:129-179 | A create is refused before any volume is looked at, with which code and without any change, exactly by its name, capabilities, type, amount and modes; modes count for block volumes only. |
| Answers.CreateTakenExactly | internal/sharedhostpath/controllerserver.go:187-210 | For a taken name: success, each code, the answer with the request's amount and parameters, and the whole new store. |
| Answers.CreateNewExactly | internal/sharedhostpath/controllerserver.go:212-250 | For a new name: it succeeds if and only if the names are there, an id is drawn and nothing fails; then exactly the row asked for is added, with every field, and its path populated. |
| Answers.FailedCommitCleans | internal/sharedhostpath/utils.go:193-199 | A create whose commit fails leaves no row, nothing at its path if all can be removed, and everything else in the tree. |
| Answers.NewBlockIsSingleWriter | internal/sharedhostpath/controllerserver.go:173-179 | A block row is only added if every capability is single-node-writer. |
| Answers.ModesDoNotMatter | internal/sharedhostpath/controllerserver.go:173-179 | Changing only the modes of a request that wants no block volume changes neither store nor answer. |
| HandlerProperties.CreateAnswersRequest | internal/sharedhostpath/controllerserver.go:187-250 | While no live volume misses its path, every successful create names a live row of the name, the rounded capacity and the requested kind. |
| HandlerProperties.CreateMisanswersExactly | internal/sharedhostpath/controllerserver.go:192-203 | A successful create names a volume that differs from the request if and only if the name's volume differs and missed its path. |
| HandlerProperties.CreateAnswersSameId | internal/sharedhostpath/controllerserver.go:187-203 | Until a volume is deleted, every successful create of its name answers its id, whatever ran in between. |
| HandlerProperties.ServeKeepsPaths | internal/sharedhostpath/controllerserver.go:125-279 | If every live volume has its path, so it is after every request, failing or not. |
| HandlerProperties.RepeatedDeleteExactly | internal/sharedhostpath/controllerserver.go:263-278 | A repeated delete succeeds and changes nothing; data is left then if and only if the first removal failed. |
| Answers.DeleteOfNothing | internal/sharedhostpath/controllerserver.go:257-270 | A delete without id is refused, one of an id that is not live succeeds; neither changes anything. |
| Answers.DeleteOfVolume | internal/sharedhostpath/utils.go:419-460 | A delete of a live volume marks its row alone, removes nothing outside its path and everything below it if it can, and takes its link. |
| HandlerProperties.GrowingExpandResizes | internal/sharedhostpath/controllerserver.go:399-412 | A growing expand succeeds if and only if nothing fails and the file had the recorded size; the file has the new size if and only if update, stat and `dd` worked and it had the recorded size, whatever the commit does. |
| Answers.ExpandRefusedExactly | internal/sharedhostpath/controllerserver.go:378-397 | The three refusals of an expand, each with its code and without any change. |
| Answers.ExpandBelowRecord | internal/sharedhostpath/controllerserver.go:399-401 | A request that does not grow always succeeds, changes nothing and answers the recorded capacity without node expansion. |
| Answers.ExpandAnswersRecord | internal/sharedhostpath/controllerserver.go:399-412 | A successful expand answers the capacity its live row has afterwards, which covers the rounded request, and asks for node expansion if and only if it grew a block volume. |
| Answers.ExpandFails | internal/sharedhostpath/controllerserver.go:403-405 | An expand of a live volume for an acceptable amount fails only if it grows, with the code for internal errors. |
| HandlerProperties.MismatchedExpandFails | internal/sharedhostpath/utils.go:244-250 | Once file and record differ, every growing expand fails, and they still differ after it. |
| HandlerProperties.MismatchStaysReported | internal/sharedhostpath/utils.go:325-337 | A mismatch is reported abnormal after every run that leaves the volume and its file in place. |
| HandlerProperties.FailedExpandRepeatsOk | internal/sharedhostpath/utils.go:224-263 | An expand that fails after the update answers success when repeated, for a size its file does not have. |
| HandlerProperties.RepeatedExpandExactly | internal/sharedhostpath/controllerserver.go:399-412 | A repeated growing expand answers success for a size the file lacks if and only if the record was raised and the file could not follow. |
| HandlerProperties.IndexKeptExactly | internal/sharedhostpath/utils.go:184-199 | With working link calls a request keeps the index sound, and keeps it complete if and only if it is not one of the two that take a shared name away. |
| HandlerProperties.RequestsKeepLinksSound | internal/sharedhostpath/utils.go:441-447 | Through every history of requests with working link calls and no job between them, from a sound index, each symlink points to a live volume of its name. |
| HandlerProperties.RequestsKeepIndex | internal/sharedhostpath/utils.go:184-199 | Through every such history without the two breaking kinds of request the index holds, and without sharing equals a rebuild. |
| LinkRuns.CoveredExactly | internal/sharedhostpath/utils.go:493-502 | In every run, failing or not, each symlink at each moment points to a live volume of its name, or to the one the handler under way commits or removes, if and only if no step is a stale relink or a handler's end that leaves its link behind. |
| LinkRuns.LinksStaySound | internal/sharedhostpath/utils.go:486-502 | In every interleaving without crash and failing link removal, in which no volume is deleted while the job links what it read, the links are sound whenever no handler is under way. |
| LinkRuns.PromisedExactly | internal/sharedhostpath/utils.go:471-509 | In every run, failing or not, each volume's name is linked, or yet to be linked by the job, at each moment if and only if no step is one of the listed losing ones. |
| LinkRuns.LinksFollowRows | internal/sharedhostpath/utils.go:184-199 | In every run without such steps, whenever handlers and job rest the index is sound and complete, and without sharing equals a fresh rebuild. |
| LinkRuns.OrderlyLinksFollowRows | internal/sharedhostpath/utils.go:184-199 | In every interleaving in which nothing fails or is cut off, live volumes never share a name, and no handler is under way while the job rebuilds the links, the index equals a fresh rebuild whenever all rest. |
| LinkRuns.StaleLinkHappens | internal/sharedhostpath/utils.go:486-502 | For any volume there is a run without failure or sharing that ends with a symlink to its removed path. |
| LinkRuns.MissingLinkHappens | internal/sharedhostpath/utils.go:184-193 | For any volume there is a run without failure or sharing that ends with it live and without symlink. |
| HandlerProperties.FailedCommitTakesLink | internal/sharedhostpath/utils.go:193-199 | Even when no live volumes share namespace and PVC name, a create for the pair of a live volume whose commit fails leaves an index that is not the rebuilt one. |
| HandlerProperties.LinkIsTaken | internal/sharedhostpath/utils.go:193-199 | It happens for any two admitted creates of one namespace and PVC name, if only the commit of the second fails. |
| CleanUp.TopsRemoveNothing | internal/sharedhostpath/utils.go:521-530 | Phase 1 of the clean-up removes nothing, whatever the deleted ids. |
| CleanUp.TopIsNoShard | internal/sharedhostpath/utils.go:523-523 | The target of phase 1 is never a prefix directory nor on the way to a volume. |
| CleanUp.CleanUpSparesLive | internal/sharedhostpath/utils.go:532-548 | Whatever fails, a clean-up keeps everything at and below live paths, adds nothing to the tree and leaves the table alone. |
| CleanUp.CleanUpKeepsInv | internal/sharedhostpath/utils.go:511-555 | A clean-up keeps the invariant, whatever fails in it. |
| CleanUp.CleanUpRestores | internal/sharedhostpath/utils.go:511-555 | From every reachable state, a clean-up whose removals work leaves at depth four exactly the live paths that were there, their data below, and nothing else below depth three, and the symlinks of a fresh rebuild; a second one changes nothing. |
| CleanUp.CleanUpIsRun | internal/sharedhostpath/utils.go:511-555 | The clean-up in one go is a run of the job's fine steps alone, for every outcome of removals and of single link calls. |
| PublishRuns.RunKeepsRecords | internal/sharedhostpath/controllerserver.go:281-372 | In every run at most one record lives per volume and node, and every record is of a row that exists, live or deleted. |
| PublishRuns.RecordsNeverRewritten | internal/sharedhostpath/utils.go:585-603 | In every run a record keeps its read-only flag and all else until it is deleted, and stays deleted. |
| PublishRuns.ReportedNodesDistinct | internal/sharedhostpath/utils.go:300-313 | No run reports a node twice for a volume, or any node for a volume that never existed. |
| PublishRuns.RecordsHaveHeartbeats | internal/sharedhostpath/controllerserver.go:304-334 | In every run, each publish record was made by a publish of a live volume, at most 30 seconds after a written heartbeat of its node. |
| PublishRuns.PublishIsIdempotent | internal/sharedhostpath/controllerserver.go:314-324 | Publishing again succeeds without a change; with the other read-only flag it is refused. |
| PublishRuns.UnpublishUndoesPublish | internal/sharedhostpath/controllerserver.go:356-371 | Unpublish after publish gives back the live records. |
| PublishRuns.UnpublishClearsExactly | internal/sharedhostpath/controllerserver.go:351-371 | When records can be written, no live record is left after an unpublish if and only if the volume is live or there was none. |
| Answers.PublishExactly | internal/sharedhostpath/controllerserver.go:285-339 | When a publish succeeds, with which code it fails otherwise, and that it adds exactly the asked record and only if the pair had none. |
| Answers.UnpublishExactly | internal/sharedhostpath/controllerserver.go:345-371 | An unpublish succeeds if and only if the volume is live and the records can be written or there is none of the pair; then none of the pair is left and no other changed. |
| Answers.RepeatedUnpublish | internal/sharedhostpath/controllerserver.go:356-371 | After a successful unpublish, through every run without a publish of the pair or a delete of the volume, the same unpublish succeeds and changes no record. |
| PublishRuns.DeletedVolumeKeepsRecords | internal/sharedhostpath/controllerserver.go:351-354 | The live records of a deleted volume stay live through every run. |
| Heartbeat.Beat | internal/sharedhostpath/nodeserver.go:41-59 | After any number of ticks the node's entry is the time of the last write that worked. |
| Heartbeat.SixLostHides | internal/sharedhostpath/utils.go:575-583 | One millisecond after the sixth failed heartbeat in a row the node is not found. |
| Heartbeat.AlwaysSeenExactly | internal/sharedhostpath/nodeserver.go:46-59 | The 30-second check finds the node at every moment if and only if no six heartbeats in a row fail. |
| Heartbeat.PublishSeesNodeExactly | internal/sharedhostpath/controllerserver.go:304-312 | A publish of a live volume is never refused for its node, at any moment, if and only if the node never loses six heartbeats in a row. |
| Tokens.TokenRoundTrip | internal/sharedhostpath/controllerserver.go:417-423 | Parsing a formatted token gives it back for exactly the 32-bit integers. |
| Tokens.TokenReadExactly | internal/sharedhostpath/controllerserver.go:417-421 | A token is read if and only if it is digits, with or without a sign, that fit 32 bits. |
| Paging.OnePage | internal/sharedhostpath/controllerserver.go:455-477 | A call returns the slice from its token on, and the token of the rest if and only if volumes are left. |
| Paging.ListingIsComplete | internal/sharedhostpath/controllerserver.go:415-478 | Following the tokens from the empty one gives the whole list in order, in max(1, ceil(n/m)) calls. |
| Paging.ListingNamesLiveVolumes | internal/sharedhostpath/utils.go:357-418 | In every reachable state, following the tokens names each live volume once, and nothing else. |
| Answers.RunDetailTells | internal/sharedhostpath/utils.go:298-338 | In every run the detail of a live volume has the row's names, type and capacity, exactly the nodes with a live record, each once, and is normal if and only if stat works on a path that is there and a block volume's file has the recorded size. |
| Answers.RunListTells | internal/sharedhostpath/controllerserver.go:436-453 | In every run each entry of each listing, for any token and maximum, tells the same of a live volume. |
| Answers.ListExactly | internal/sharedhostpath/controllerserver.go:415-430 | One call for every token and maximum: which tokens are refused, and exactly which entries are answered; zero means all. |
| Answers.ListTokenExactly | internal/sharedhostpath/controllerserver.go:455-477 | A token for the rest comes if and only if there is a maximum and volumes are left, and names their place. |
| Losetup.ParseLosetupOutputForDevice | internal/volumehelpers/volume_path_handler_linux.go:147-181 | The scan loop finds the device of the first line that ends with the bracketed path, before any line the scanner's buffer does not hold. |
| Losetup.LineNamesPath | internal/volumehelpers/volume_path_handler_linux.go:160-168 | A printed line ends with a bracketed absolute path if and only if that is the backing file it shows, also for paths with brackets and for removed files. |
| Losetup.ReadingUndoesPrinting | internal/volumehelpers/volume_path_handler_linux.go:147-181 | Reading printed entries gives the device of the first entry that shows exactly the absolute path, or "device not found", among those before the first line that does not fit. |
| Losetup.NoDeviceExactly | internal/volumehelpers/volume_path_handler_linux.go:174-180 | A matched line names no device if and only if it has only white space before its first colon. |
| Loops.LoopTable.GetLoopDevice | internal/volumehelpers/volume_path_handler_linux.go:76-94 | Through printed text, the look-up finds the file's device in the table; a missing file is "not found", other failures are errors. |
| Loops.LoopTable.AttachFileDevice | internal/volumehelpers/volume_path_handler_linux.go:36-53 | New table and answer: a device found is used again, otherwise one is made. |
| Loops.LoopTable.DetachFileDevice | internal/volumehelpers/volume_path_handler_linux.go:55-74 | New table and answer: no device counts as detached. |
| Loops.AttachKeepsOne | internal/volumehelpers/volume_path_handler_linux.go:36-53 | Attaching never gives a file a second device, and answers the file's device. |
| Loops.DetachUndoesAttach | internal/volumehelpers/volume_path_handler_linux.go:132-145 | Detach after attach of a file without a device gives back the table. |
| Loops.FilesRemovedKeeps | internal/volumehelpers/volume_path_handler_linux.go:157-168 | Removing files under their devices keeps all entries readable and leaves none of the files a device that is not gone. |
| Node.NodeServer.NodePublishVolume | internal/sharedhostpath/nodeserver.go:109-273 | New mounts, loop table, targets, records and erased file systems, and the answer, for every failure point; the node invariant is kept. |
| Node.NodeServer.NodeUnpublishVolume | internal/sharedhostpath/nodeserver.go:275-330 | The same for unpublish. |
| NodeRuns.OneLoopPerFile | internal/sharedhostpath/nodeserver.go:238-270 | In every sequential run, whatever fails and whichever files are removed in between, each backing file still there has at most one loop device. |
| NodeRuns.OneLoopWithoutRemovals | internal/sharedhostpath/nodeserver.go:238-270 | In every sequential run in which no file is removed, whatever fails, each backing file has at most one loop device. |
| NodeRuns.SecondDeviceExactly | internal/volumehelpers/volume_path_handler_linux.go:36-53 | When look-up and attach work, a path that backs a device gets another one if and only if a file was removed there under its device and the present file has none. |
| NodeRuns.GoneStaysAttached | internal/volumehelpers/volume_path_handler_linux.go:55-74 | Once its backing file is removed, no sequential run of the driver detaches a loop device. |
| SiteRuns.AtMostTwoDevices | internal/volumehelpers/volume_path_handler_linux.go:36-53 | In every run of controller, clean-up, pods and a node's calls, whatever fails, at most two devices are attached for one path, at most one for a file that is there, and a second only after the clean-up looked the volume up between populate and commit. |
| SiteRuns.TwoDevicesHappen | internal/sharedhostpath/utils.go:539-548 | For any block volume there is a run in which nothing fails that ends with two devices of its path. |
| NodeRuns.FreshPublish | internal/sharedhostpath/nodeserver.go:145-273 | A successful publish of a fresh target adds exactly one target, one mount, one record, and a loop device only for a block volume. |
| NodeRuns.PublishMountsVolume | internal/sharedhostpath/nodeserver.go:188-253 | What is mounted is the volume's own loop device or folder, read-only exactly when asked for. |
| NodeAnswers.PublishMounts | internal/sharedhostpath/nodeserver.go:145-254 | From every state, the target there or not: after a successful publish the target is mounted; if it was not before, the right device or folder is, with the right options; no other mount changes. |
| NodeAnswers.RetryMounts | internal/sharedhostpath/nodeserver.go:145-254 | However often the publish was tried before and whatever that left, after one that succeeds the right thing is mounted. |
| NodeAnswers.PublishSucceedsExactly | internal/sharedhostpath/nodeserver.go:109-273 | When a publish succeeds, in every state, for each access. |
| NodeAnswers.PublishCodes | internal/sharedhostpath/nodeserver.go:109-253 | With which code a publish fails. |
| NodeAnswers.PublishRecordsExactly | internal/sharedhostpath/nodeserver.go:263-272 | A publish adds exactly the asked record if it succeeds, and no record otherwise. |
| NodeAnswers.FailedPublishClears | internal/sharedhostpath/nodeserver.go:256-270 | A publish whose mode or record fails leaves neither mount nor target if its clearing works. |
| NodeAnswers.FailedPublishLeaves | internal/sharedhostpath/nodeserver.go:150-194 | A publish of a block volume that fails from the mount on leaves the device attached; after a failed mount the target stays without a mount. |
| NodeRuns.FailedPublishErasesExactly | internal/sharedhostpath/nodeserver.go:256-270 | A failed publish removes a volume's files if and only if a file system is mounted writable on the target, by this publish or an earlier one, then mode or record fails, and the unmount fails too. |
| NodeRuns.FreshPublishErasesExactly | internal/sharedhostpath/nodeserver.go:211-270 | On a fresh target that is a mount access that is not read-only. |
| NodeRuns.ErasureHappens | internal/sharedhostpath/nodeserver.go:256-261 | The first writable publish of any folder volume whose mode and unmount fail removes the volume's files. |
| NodeRuns.UnpublishRestores | internal/sharedhostpath/nodeserver.go:293-329 | Publish then unpublish of a fresh target gives back mounts, loop table, targets and live records. |
| NodeRuns.UnpublishClearsRecords | internal/sharedhostpath/utils.go:611-614 | After any number of publishes, one successful unpublish leaves no live record of the target and touches no other. |
| NodeRuns.UnpublishNeedsRow | internal/sharedhostpath/nodeserver.go:287-291 | When nothing fails, an unpublish succeeds and clears its live records if and only if the volume has a row. |
| NodeAnswers.UnpublishSucceedsExactly | internal/sharedhostpath/nodeserver.go:275-330 | When an unpublish succeeds, with which code it fails, and that it leaves other mounts, targets and, for a folder volume, all devices alone. |
| NodeRuns.DeletedKeepsNodeRecords | internal/sharedhostpath/nodeserver.go:287-291 | Through every run of calls that read the volume table after the volume was deleted, its node records stay as they are. |
| NodeRuns.DeletedStaysMounted | internal/sharedhostpath/nodeserver.go:287-303 | Through every such run in which no other volume uses the target, a deleted volume stays mounted. |
| NodeRuns.RepublishAddsRecord | internal/sharedhostpath/nodeserver.go:263-272 | Publishing a mounted target again mounts and attaches nothing but adds one more record. |
| NodeRuns.LoopFreedExactly | internal/sharedhostpath/nodeserver.go:298-315 | An unpublish in which nothing fails frees the volume's device if and only if the target was mounted. |
| NodeRuns.FailedDetachLeaks | internal/sharedhostpath/nodeserver.go:305-315 | After a failed detach the repeated unpublish succeeds and changes no loop device. |
| NodeRuns.UnpublishTwiceExactly | internal/sharedhostpath/nodeserver.go:293-315 | For every outcome of the first of two unpublishes the second succeeds, and the device stays attached if and only if the first unmounted the target and then its look-up or detach did not work or found the device node gone. |
| NodeRuns.NeverRetried | internal/sharedhostpath/nodeserver.go:293-315 | Any number of unpublishes of a target that is not mounted, whatever their outcomes, changes no mount and no loop device. |
| NodeRuns.AdmittedTypePasses | internal/sharedhostpath/nodeserver.go:198-209 | Every request the create admits, with any capabilities, gives a block flag the node's type check passes. |
| NodeRuns.ReportedTypePasses | internal/sharedhostpath/utils.go:318-321 | A volume's reported type passes the node's type check. |
| NodeRuns.AdmittedMountsExactly | internal/sharedhostpath/nodeserver.go:223-253 | For a mount access, when nothing fails, an admitted volume is mounted if and only if its type is "folder", or "disk" with a file system type. |
| NodeRuns.AdmittedRawExactly | internal/sharedhostpath/nodeserver.go:145-196 | For a block access, when nothing fails, an admitted volume is published if and only if it is a block volume, whatever its type. |

## Left out

- gRPC server, endpoint parsing, flags, logging, identity service and capability lists: no state worth a property.
- gorm, PostgreSQL and the kernel: kept are a table with soft delete and unique columns, one open transaction, a path map, a mount table and a loop table.
- The mutex itself: a handler is one step sequence at a time by construction of the controller's state.
- Several clean-up jobs at the same time: the job's position is a single value, so overlapping schedules are not covered.
- Several nodes beside one step machine: `SiteRuns` takes one node, whose devices no other node touches; in `NodeRuns` the files removed meanwhile are any set.
- Concurrent node calls: the node server takes no lock, so the node results are for calls made one after the other.
- Lazy loop detach, and several mounts of one volume on one node: the outcome depends on kernel behaviour outside the code.
- Losetup.ReadingUndoesPrinting: does not cover backing paths with a newline or an opening bracket right before a slash, which the output does not tell apart.
- Controller.ControllerServer.CreateVolume: does not keep the invariant when an id is drawn for an amount above 2^63 - 2^20, because the rounding wraps; nor promises it for an id drawn before.
- RunProperties.IdLife: asks for new ids, because the step machine covers the tree, where a reused id meets older data; `TableRuns.NeverReused` is the table's part without that.
- Formatting and resizing file systems, volume statistics and blockdev calls: thin wrappers over external commands.
- ValidateVolumeCapabilities, ControllerGetVolume, NodeExpandVolume, NodeGetVolumeStats and the node's own reports: they read the tables or call an external command, and change none of the state the properties are about.
- MapDevice, UnmapDevice, bind-mount reference search and FindGlobalMapPathUUIDFromPod: helpers this driver never calls.
- Creation and update times, storage ids, modes and error texts: no property depends on them.
- Snapshot, capacity and stage calls, deployment files, scripts and examples.
