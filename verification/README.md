# Volume provisioning of the Synology CSI driver, verified

The driver gives Kubernetes volumes that live on a set of Synology NAS boxes (DSMs): iSCSI LUNs, NVMe-oF namespaces
and SMB or NFS shares. A volume is several objects on a DSM (a LUN and the target that serves it, a namespace and its
subsystem, a share and its quota and NFS rules), and every one of them is made, changed and removed by a network call
that can fail. This project models that service and proves what it keeps.

`dafny verify dfyconfig.toml` checks everything.

## How the model is laid out

* `Stores`, `Undoing`, `Outcomes`: what a DSM holds, the undo steps of a creation, and the relations a creation that
  succeeds (`IscsiBuilt`, `NvmeBuilt`, `ShareBuilt`) or fails (`RolledBack`) is held to.
* `Dsms` is the API of one DSM as a class. Every call decides for itself whether it fails. A failed create, clone, set
  or map call changed nothing; a failed delete may have removed the object all the same, its reply lost. Deleting a LUN
  drops its mappings. A DSM logs every object it was asked to create (`made`) and every undo step tried (`tried`).
  A DSM that is `reliable` answers every call; on those the conditions for success are exact. Whether copies of LUNs and
  namespaces start at their source's size (`copiesKeepSize`) and copies of shares with its quota (`copiesKeepQuota`) is
  up to the DSM.
* `Rollback`, `IscsiVolumes`, `NvmeVolumes`, `ShareVolumes`, `Provisioning`: the nine creation paths, their undo, the
  loop over the DSMs, deletion and expansion, as methods that change DSMs. Which calls of a lookup fail is an argument
  (`faults`); which calls of a creation fail is not known at all. The order of DSMs, and of everything
  else Go keeps in a map, is arbitrary.
* `Worlds`, `Lookups`: what is visible on all DSMs, and the listings and lookups that read it. `Demands` says when a
  creation succeeds on DSMs that answer every call, and when its result has the size asked for.
* `Steps` names the state of all DSMs a world and what one RPC may do to it a step. `Controller` proves that its RPCs
  take such steps; `Created`, `OneToOneRuns`, `UniqueRuns`, `Expansions`, `Deletions`, `Idempotency`, `Inverses` and
  `CreateResults` prove what steps and runs keep. Saving NFS rules is a step too (`Exports`). Each RPC is one step: the
  code takes no lock per volume, and concurrent RPCs for one volume are not part of this model.
* `Ordering`, `Paging`, `Listing`: sorted, paged listings.
* `Requests`, `NfsPrivilege`: re-login, busy retries, and the write / read back / retry of NFS rules on top of them.
  The behaviour of the DSM and the network is a function of how often a request was sent and with which session id.
* `Multipath`, `Identity`, `Nodes`, `Permissions`, `Texts`: the node side, from the lsblk rows to the mount.

A `char` stands for one byte of a Go string. Sizes of LUNs and namespaces are natural numbers; the MiB conversions are
in int64 with wrap-around.

## What the proofs say about the code

* The node code takes the first mapping of a target for the volume's own. That holds in every world the controller can
  reach from a one-to-one world, whatever calls and undo calls fail (`RunKeepsOneToOne`, `FirstMappingIsOwn`).
  With the identity check on top, every disk of the device mounted, one or the legs of a multipath device, is the
  volume's LUN as far as the kernel publishes it (`AcceptedDisksAreOwn`).
* At most one visible volume per requested name holds over a run of requests exactly if no creation leaves a second
  share of its name behind (`RunKeepsAtMostOneIff`), given names that differ in their first 24 bytes; and those they must
  (`NamesMustDiffer`). Only requests for a share without a source, open to two DSMs that list shares, can do that
  (`OthersLeaveOne`, `LeftOverShareDuplicates`).
* CreateVolume is not all or nothing. The lookup does not see an unmapped LUN, but the creation adopts it; if it has
  another size the RPC maps it, answers AlreadyExists and leaves it mapped (`LeftOverLunIsRefused`). An unsuitable
  adopted object is the only way for that to happen on DSMs whose clones keep their source's size (`BuiltIsRefusedIff`).
* A non-zero request below the size of its source is refused by five of the six clone and restore paths. Restoring a
  share does not look at the source's quota, only at that of the copy: where clones come without quota, which the code
  provides for, a 2 GiB share is restored as 1 GiB (`SmallerRestoreIsRefusedIff`, `SmallerRestoreSucceeds`).
* A repeated CreateVolume changes nothing and answers for its volume, unless that is a share on a UC DSM, which lookups
  do not list, or the creation left another share of the name behind on another DSM, which may be answered for instead
  (`RepeatAnswersAgain`). But an NFS volume is answered as an SMB volume until a node has saved a rule for its share, and
  the node stages by the protocol it was told.
* A clone is made on the DSM of its source, and a cloned share at its location, whatever DSM and location are asked for;
  a restore to another DSM or location is refused (`Provisioning.CreateVolume`).
* A retried NVMe creation does not adopt a left-over subsystem: its uuid stays empty and the retry fails. So on a
  reliable DSM the three NVMe paths need the subsystem's name to be free, while left-over LUNs, targets, namespaces and
  shares are adopted.
* A share requested with more than 2^63 - 2^20 bytes is reported with less than was asked for (`RoundTripCovers`), and an
  expansion to such a size can cut it (`ExpansionShrinksIff`). Below that a share's expansion can be repeated only if
  the size is in whole MiB (`ExpandAgain`).
* The location picked on the first DSM of the loop that has one stays picked for the others. So a request without a
  location may fail although some DSM could serve it, but only for a LUN without a type on an unknown file system, or a
  subsystem name that is taken (`PicksAreDefinite`).
* Deleting a volume that was just created restores the DSM exactly if the creation left no trace on what it found
  (`DeletionInvertsCreation`).
* Retries are safe on a DSM whose busy and session errors mean that nothing was applied (`AppliedAtMostOnce`); wherever
  such a reply follows a send that was applied, and a later send is applied too, the operation is applied again
  (`AppliedAgainIff`).
* Rules that name a client with two privileges can never be confirmed (`GrantableIffConsistent`); a node never asks for such.

## Model

| member | source | states |
|---|---|---|
| Sizes.RoundTripCovers | pkg/utils/utils.go:37-48 | a size rounded up to MiB and back covers the request by less than a MiB exactly for sizes up to 2^63 - 2^20; above, the int64 addition wraps and the result is not positive |
| Sizes.RoundTripSettles | pkg/utils/utils.go:37-48 | the round trip is idempotent in that range and changes nothing exactly on whole MiB |
| Sizes.MegabytesPinBytes | pkg/driver/controllerserver.go:253-258 | a share that passes the MiB size check reports exactly the round trip of the request, even if its quota wraps |
| Sizes.RequestedSize | pkg/driver/controllerserver.go:45-60 | accepted exactly when at least one GiB and within the limit; the required bytes, or one GiB without a range |
| Names.ShareNamesCollide | pkg/models/dsm.go:42-52 | two requests get the same share name exactly when their first 24 bytes agree |
| Names.NamesApart | pkg/dsm/service/dsm.go:851-871 | no backing name answers to two requests exactly when their first 24 bytes differ |
| Undoing.RollbackLeavesSurvivors | pkg/dsm/service/rollback.go:42-52 | undoing fresh objects newest first leaves exactly the store with the objects whose undo failed |
| Undoing.RollbackRestores | pkg/dsm/service/rollback.go:42-52 | when every undo step removes its object the store is the one before the creation |
| Rollback.CreateRollback.Add | pkg/dsm/service/rollback.go:32-36 | appends one step |
| Rollback.CreateRollback.Run | pkg/dsm/service/rollback.go:42-52 | every step is tried exactly once, newest first, going on after failures, and nothing else happens |
| Rollback.RollBack | pkg/dsm/service/dsm.go:190-198 | the deferred clean-up turns any pending creation into one rolled back: everything made was tried to be undone in reverse order across nested creations, and what is new is what failed to be undone |
| Outcomes.AllOrNothing | pkg/dsm/service/dsm.go:272-286 | a rolled back creation whose undo calls succeeded leaves exactly the objects it found |
| Outcomes.NothingAdoptedRestores | pkg/dsm/service/dsm.go:272-286 | a failed creation that adopted nothing leaves every object exactly as it was, and the DSM as it was if no undo failed |
| Outcomes.PendingRollsBack | pkg/dsm/service/rollback.go:42-52 | running the registered steps, after nested creations undid theirs, is one reverse-order rollback |
| Dsms.Dsm.LunCreate | pkg/dsm/webapi/iscsi.go:137-169 | adds one LUN under a fresh uuid, or changes nothing; already-exists only if the name is taken |
| Dsms.Dsm.LunMapTarget | pkg/dsm/webapi/iscsi.go:321-338 | adds one mapping to the target, unless the LUN is already mapped to it, or changes nothing |
| Dsms.Dsm.LunDelete | pkg/dsm/webapi/iscsi.go:340-352 | removes the LUN and its mappings; on an error reply it may have done so or not |
| Dsms.Dsm.RunUndo | pkg/dsm/service/dsm.go:272-286 | runs the undo action of one step and logs whether the object went |
| IscsiVolumes.CreateMappingTarget | pkg/dsm/service/dsm.go:163-218 | success maps the LUN to the target of the spec's name, adopted or new, which takes any number of sessions if asked for, else one if new or as many as before, and changes nothing else; failure rolls the target back; on a reliable DSM it succeeds exactly if the LUN exists |
| IscsiVolumes.ChooseLocation | pkg/dsm/service/dsm.go:110-138 | the location asked for, else one that is usable and has room, never ext4 for a share; none only if a DSM that answers has none |
| IscsiVolumes.CreateVolumeByDsm | pkg/dsm/service/dsm.go:220-306 | success: the LUN and target of the spec's names, the LUN with exactly the requested size and location when new and untouched when adopted, all else untouched; failure: rolled back; on a reliable DSM success exactly if there is a location and it has a LUN type |
| IscsiVolumes.CreateVolumeBySnapshot | pkg/dsm/service/dsm.go:381-447 | as above for a restore; never smaller than requested, larger only if what was adopted or copied was; a smaller request than the source is refused with OutOfRange before anything is done; on a reliable DSM success exactly if the LUN and its snapshot are there and the size is allowed |
| IscsiVolumes.CreateVolumeByVolume | pkg/dsm/service/dsm.go:449-517 | the same for a clone, which is put at the location asked for or else its source's |
| NvmeVolumes.CreateMappingSubsystem | pkg/dsm/service/namespace_volume.go:20-67 | success attaches the namespace to a new subsystem; an existing subsystem of the name always fails it; failure rolls back |
| NvmeVolumes.CreateVolumeByDsm | pkg/dsm/service/namespace_volume.go:216-288 | the namespace of the spec's name attached to a new subsystem, or rolled back; on a reliable DSM success exactly if there is a location and the subsystem name is free |
| NvmeVolumes.CreateVolumeBySnapshot | pkg/dsm/service/namespace_volume.go:69-138 | restores never under-deliver and smaller requests are refused untouched; on a reliable DSM success exactly if the snapshot is there, the size allowed, NVMe-oF supported and the subsystem name free |
| NvmeVolumes.CreateVolumeByVolume | pkg/dsm/service/namespace_volume.go:140-214 | the same for clones |
| ShareVolumes.CreateVolumeByDsm | pkg/dsm/service/share_volume.go:176-243 | the share of the spec's name, with the requested MiB quota when new, never on ext4, or rolled back; on a reliable DSM success exactly if there is a location and it is not ext4 |
| ShareVolumes.CreateVolumeBySnapshot | pkg/dsm/service/share_volume.go:30-104 | the quota ends up at exactly the requested MiB, or rolled back; the size check looks at the quota of the share found or of the new copy only; on a reliable DSM success exactly if the source share and its snapshot are there and that quota is missing or not above the request, and OutOfRange exactly if it is above |
| ShareVolumes.SmallerRestoreIsRefusedIff | pkg/dsm/service/share_volume.go:58-75 | a new share asked for below its source's quota is refused exactly on DSMs whose clones come with their source's quota |
| ShareVolumes.SmallerRestoreSucceeds | pkg/dsm/service/share_volume.go:58-75 | for example a 2 GiB source restored as 1 GiB is accepted where clones come without quota |
| ShareVolumes.CreateVolumeByVolume | pkg/dsm/service/share_volume.go:106-174 | the quota covers the request, and the one the share found or the new copy started with is kept unless it was missing or too small; OutOfRange, with nothing done, exactly for a non-zero request below the source's quota; on a reliable DSM success exactly if the source share is there and the request is not below it |
| Lookups.DsmService.List | pkg/dsm/service/dsm.go:787-823 | lists exactly the readable visible volumes of the kind, each once, and reports failure exactly when one may be missing |
| Lookups.DsmService.ListNamespacesOf | pkg/dsm/service/namespace_volume.go:290-327 | the same on one DSM for attached namespaces |
| Lookups.DsmService.ListSharesOf | pkg/dsm/service/share_volume.go:305-337 | the same on one DSM for shares |
| Lookups.DsmService.FindShare | pkg/dsm/service/share_volume.go:270-298 | three-valued: a found share exists and matches; absent exactly if every share list was read and none matches |
| Lookups.DsmService.FindVolume | pkg/dsm/service/dsm.go:873-902 | three-valued over all kinds: found exists and matches; absent exactly if every listing was complete and nothing matches; a match hidden by a failed call is never absent |
| Worlds.FastLookupRefinesListing | pkg/dsm/service/share_volume.go:254-298 | for a predicate at most one share satisfies, the fast lookup finds exactly what the full listing holds and fails only when the listing fails |
| Worlds.NoFaultsDecide | pkg/dsm/service/dsm.go:873-902 | with every call answered a lookup decides, and finds exactly what is there |
| Demands.NewSizeDecided | pkg/dsm/service/dsm.go:250-306 | a volume made from nothing passes the size check exactly if it is new or adopted an object of that very size |
| Demands.LunSizeDecided | pkg/dsm/service/dsm.go:426-436 | a cloned or restored LUN passes it exactly if it is new or adopted one that is not larger, given that clones keep their source's size |
| Demands.ShareSizeDecided | pkg/dsm/service/share_volume.go:114-169 | a cloned share passes it exactly if it is new, or adopted one without quota, with a smaller one, or with one of the same MiB, whether or not clones come with a quota |
| Demands.PickHostsIff | pkg/dsm/service/dsm.go:110-161 | a location picked for its room hosts the volume, unless a LUN without a type meets an unknown file system or a subsystem's name is taken |
| Demands.PicksAlike | pkg/dsm/service/dsm.go:677-709 | but for these two cases a request without a location succeeds exactly if some DSM asked for has a location to pick |
| Demands.OneDsmPicks | pkg/dsm/service/dsm.go:677-709 | one DSM alone may serve if it can at some location it may pick, and must if at any of them |
| Demands.ServesNfsIff | pkg/dsm/service/dsm.go:569-606 | which texts ask for which NFS version, and which versions a DSM serves |
| Provisioning.CreateVolume | pkg/dsm/service/dsm.go:608-710 | over all DSMs: at most one holds the volume, every other one is rolled back; the volume has the protocol asked for, a decided size, and the location asked for unless it is a cloned share or a restored LUN or namespace; it is on a DSM asked for, or on its source's; shares change only where a share of the request may be tried; on reliable DSMs success exactly if a source is there and fits or, for a given location, some DSM can host the volume, NotFound for a source that is missing and OutOfRange exactly for one that does not fit |
| Provisioning.CreateOnSome | pkg/dsm/service/dsm.go:677-709 | the loop stops at the first DSM that succeeds; every DSM tried before is rolled back and the rest is untouched; on reliable DSMs, for a given location it succeeds exactly if some DSM asked for can host the volume; without one it fails if no DSM can at any location that may be picked, and succeeds if at each of them some DSM can that does not come before the pick |
| Provisioning.NfsVersionSupported | pkg/dsm/service/dsm.go:569-606 | yes only if the DSM supports the version asked for, and exactly then on a reliable DSM |
| Provisioning.DeleteOn | pkg/dsm/service/dsm.go:730-782 | success means the object is gone; only the object and what served it alone may go; on a reliable DSM exactly that |
| Provisioning.DeleteVolume | pkg/dsm/service/dsm.go:712-782 | success means no visible volume has the id, given unique ids; when every call is answered it succeeds, and removes exactly the object and what served it alone |
| Provisioning.ExpandVolume | pkg/dsm/service/dsm.go:914-969 | success sets the size of the volume with the id and answers what it now reports; any error leaves every DSM as it was |
| Steps.CreationIsAllOrNothing | pkg/dsm/service/dsm.go:677-709 | with no failed undo, every DSM but the one that succeeded keeps exactly the objects it had |
| Steps.CreationDeletesNothing | pkg/dsm/service/dsm.go:190-198 | a creation deletes nothing that was there, under any failures including failing undo calls |
| OneToOneRuns.RunKeepsOneToOne | pkg/driver/nodeserver.go:291-293 | every run of creations, deletions and expansions, any calls failing, keeps target and LUN one to one |
| OneToOneRuns.FirstMappingIsOwn | pkg/driver/nodeserver.go:317-318 | so the first mapping of any visible LUN volume exists, is its own, has its name, and no other target serves it |
| Created.CreatedIsVisible | pkg/driver/controllerserver.go:236-252 | a created volume is visible under its request's name, with its id and size, unless it is a share on a UC DSM |
| Created.HitComesFrom | pkg/dsm/service/dsm.go:851-871 | after a creation a hit for its name is the created volume or a share left over elsewhere; a hit for a name with another head was there before |
| UniqueRuns.CreationKeepsAtMostOneIff | pkg/driver/controllerserver.go:236-252 | a creation keeps at most one visible volume per requested name exactly if no listed DSM but its own holds a share of its name afterwards, or, when it created nothing that can be looked up, at most one does |
| UniqueRuns.RunKeepsAtMostOneIff | pkg/driver/controllerserver.go:236-252 | a run of requests whose names differ in 24 bytes keeps at most one visible volume per name in every world exactly if none of its creations leaves a second share |
| UniqueRuns.RunKeepsAtMostOne | pkg/driver/controllerserver.go:236-252 | in particular if no failed undo concerned a share |
| UniqueRuns.OthersLeaveOne | pkg/dsm/service/dsm.go:677-709 | whatever calls and undo calls fail, only a request for a share without a source and without a named DSM can leave a second share of its name, and only if two DSMs list shares |
| UniqueRuns.OthersKeepAtMostOne | pkg/dsm/service/dsm.go:677-709 | so a run without such requests keeps at most one visible volume per requested name |
| UniqueRuns.NamesMustDiffer | pkg/models/dsm.go:46-52 | every run whose failed undo calls leave no share keeps at most one volume per name exactly if the requested names differ in their first 24 bytes |
| UniqueRuns.LeftOverShareDuplicates | pkg/dsm/service/dsm.go:701-704 | the smallest violation: a share whose undo failed on one DSM, and the volume then created on the next, are both visible |
| Idempotency.RepeatFindsCreated | pkg/dsm/service/dsm.go:851-871 | a fault-free lookup after a creation finds something exactly if the volume is no share on a UC DSM or a share of its name is listed elsewhere, and the volume itself, with its id and size, if no other was left behind |
| Idempotency.RepeatAnswersAgain | pkg/driver/controllerserver.go:236-275 | two calls of the RPC, the second without failing calls: the second takes no step, and leaves every DSM as it is, exactly if the volume is no share on a UC DSM or a share of its name is listed elsewhere; with no share of the name left over elsewhere it answers the same, except that it calls an NFS share SMB |
| Deletions.DeletedIsGone | pkg/dsm/service/dsm.go:712-782 | once the object is gone no visible volume has its id, given unique ids |
| Deletions.SharedTargetsStay | pkg/dsm/service/dsm.go:763-771 | a target goes only if it served the deleted LUN and nothing else |
| Deletions.DeletionSparesOthers | pkg/dsm/service/dsm.go:712-782 | the object of every other visible volume is untouched; the volume stays visible, its target less the deleted LUN, exactly unless the deletion took a subsystem the two shared |
| Deletions.OneToOneSparesOthers | pkg/dsm/service/dsm.go:712-782 | from a one-to-one world every other visible volume stays visible exactly as it was |
| Inverses.DeletionInvertsCreation | pkg/dsm/service/dsm.go:712-782 | deleting a volume just created restores the DSM's store exactly when its object was new, and its target too or else one that served other LUNs and kept its session limit |
| Expansions.ExpansionReaches | pkg/dsm/service/dsm.go:914-969 | an accepted expansion reaches the requested size, except for shares above 2^63 - 2^20 bytes |
| Expansions.ExpandAgain | pkg/dsm/service/dsm.go:924-928 | repeating it passes the size check exactly if the volume is no share, or the size is whole MiB or past what the rounding holds, and then changes nothing |
| Expansions.ExpansionShrinksIff | pkg/dsm/service/dsm.go:914-969 | an accepted expansion lowers a recorded size exactly if it is of a share, asks for more than 2^63 - 2^20 bytes and the share reported more than that rounds to |
| Expansions.RunNeverShrinksIff | pkg/dsm/service/dsm.go:914-969 | a run of expansions never decreases a recorded size exactly if none of them does that |
| Expansions.RunNeverShrinks | pkg/dsm/service/dsm.go:914-969 | so the recorded size of a LUN or namespace never decreases over any run of expansions, and that of a share not over such a run |
| Controller.CreateVolume | pkg/driver/controllerserver.go:236-275 | takes a creation step only when no volume of the name is visible; otherwise one that has the name is answered for and nothing changes; a volume it creates fulfils the request or is refused by the size check, and stays; a response gives the id, size and DSM of a volume that goes by the name and can be looked up afterwards, or of a share just made on a UC DSM, with the protocol asked for if it was made now and the one it shows if not |
| Controller.AnsweredIdIsFound | pkg/dsm/service/dsm.go:837-849 | given unique ids, a fault-free lookup of an answered id finds that very volume |
| Controller.Validate | pkg/driver/controllerserver.go:97-212 | accepted exactly if the size is, there is a name, the protocol is known, every capability is supported and no share is asked for as a block device; anything else is InvalidArgument |
| Controller.DemandAsks | pkg/driver/controllerserver.go:214-232 | the service is asked for the size, DSM, LUN type, sessions, source, protocol and NFS version of the request |
| Controller.SessionsAsAsked | pkg/dsm/service/dsm.go:163-218 | the target of a LUN just made takes any number of sessions if the request asks for several, else one if it is new or as many as before |
| Controller.ProtocolReadsBack | pkg/driver/controllerserver.go:129-136 | a protocol is given by the very text that a response names it by, or by none for iSCSI |
| CreateResults.BuiltIsRefusedIff | pkg/driver/controllerserver.go:246-258 | a volume that was built is refused with AlreadyExists, and left on its DSM, exactly if it adopted an object of a size that does not suit the request |
| CreateResults.SucceedsIffCreatable | pkg/driver/controllerserver.go:236-275 | a request for a new name on DSMs that answer every call succeeds exactly if it can be served, provided nothing unsuitable was left under its names; without a source and a location, every location that may be picked has to be as good as any other |
| CreateResults.PicksAreDefinite | pkg/dsm/service/dsm.go:110-138 | without a location and a source that is so, and it can be served exactly if some DSM has a location to pick, unless an untyped LUN could meet an unknown file system or a subsystem's name is taken |
| CreateResults.LeftOverLunIsRefused | pkg/driver/controllerserver.go:246-258 | an unmapped LUN of the name with another size is not looked up but adopted: the RPC maps it to a target, refuses it and leaves it mapped |
| CreateResults.UnmappedLunIsAdopted | pkg/driver/controllerserver.go:246-258 | the smallest world in which that happens |
| Controller.AnsweredSize | pkg/driver/controllerserver.go:253-270 | exactly the required bytes for a LUN or namespace; for a share the required bytes rounded up by less than a MiB |
| Controller.RepeatAnswersTheSame | pkg/driver/controllerserver.go:236-270 | whatever visible volume has the name after a successful CreateVolume that left no other share of it behind answers the same id, capacity and DSM, and the protocol its share shows |
| Controller.DeleteVolume | pkg/driver/controllerserver.go:277-289 | a deletion step of a volume with that id, or none; success means the id is gone; when every call is answered it succeeds, and removes exactly the object and what served it alone, or finds no such volume |
| Controller.ControllerExpandVolume | pkg/driver/controllerserver.go:583-611 | an expansion step to the required bytes, or an error and no change; when every call is answered it succeeds if there is such a volume and none reports more; the node must grow LUNs and namespaces only |
| Ordering.SortedIsUnique | pkg/models/dsm_req_spec.go:78-88 | entries with distinct keys have one sorted order, however they arrive |
| Ordering.DistinctIdsGiveDistinctKeys | pkg/models/dsm_req_spec.go:83-88 | distinct ids give distinct sort keys, for snapshots if no id holds a slash |
| Ordering.Sort | pkg/driver/controllerserver.go:361 | the result is a sorted permutation |
| Paging.PageOf | pkg/driver/controllerserver.go:362-405 | the paging loop gives the entries from the token on, filtered, cut at the limit, with the next entry's id as token; None if the token is unknown |
| Paging.List | pkg/driver/controllerserver.go:518-581 | one listing call: its error cases, and otherwise the page of the sorted entries |
| Paging.ShownIff | pkg/driver/controllerserver.go:540-560 | every entry is shown as often as it is listed, or only the entries with the id asked for |
| Paging.WalkCoversListing | pkg/driver/controllerserver.go:343-405 | following next tokens visits the sorted, filtered listing once in pages within the limit, in the least number of pages, though each call may get the entries in another order |
| Paging.NextCallIsAnswered | pkg/driver/controllerserver.go:363-405 | on an unchanged listing no call of a walk is refused: the first, and each that continues with a next token, is answered with the next page |
| Listing.ListVolumes | pkg/driver/controllerserver.go:343-405 | pages every visible volume, each entry with the id and size of its volume; an incomplete listing is an error, never a shorter answer, and the only one besides a bad limit or token |
| Listing.WalkListsEveryVolume | pkg/driver/controllerserver.go:343-405 | a walk over an unchanged world lists every visible volume exactly once, with its id and size, by ascending id |
| Listing.OneToOneListsOnce | pkg/dsm/service/dsm.go:800-816 | in a one-to-one world no LUN is listed twice |
| Requests.WebApi.SendRequest | pkg/dsm/webapi/dsmwebapi.go:93-105 | a second send happens exactly if the first reply refuses the session and a login succeeds; it carries the new sid and its reply counts; a failed login keeps the old sid and tells no code |
| Requests.WebApi.Perform | pkg/dsm/webapi/share.go:103-158 | retries while the DSM is busy and patience lasts, and nothing else |
| Requests.LastAttemptDecides | pkg/dsm/webapi/share.go:103-121 | the first attempt that does not find the DSM busy decides, with its own reply |
| Requests.AttemptsCost | pkg/dsm/webapi/dsmwebapi.go:93-105 | each attempt makes at most two sends and one login |
| Requests.AppliedAtMostOnce | pkg/dsm/webapi/share.go:103-121 | an operation is applied at most once, and not at all if the DSM stayed busy, provided a reply that causes a resend means it was not applied; exactly once if reported done and success means it was applied |
| Requests.AppliedAgainIff | pkg/dsm/webapi/share.go:103-121 | on any DSM, it is applied more than once exactly if a busy reply follows an attempt that was applied and a later one is applied too, or both sends of an attempt whose session was refused are |
| Requests.VerdictTellsReply | pkg/dsm/webapi/share.go:170-188 | the meaning of each code of a share request: only 3328 is retried; success is a reply without a share error code; a failure's type tells its code |
| Requests.NfsVerdictTellsReply | pkg/dsm/webapi/share.go:128-158 | of NFS requests only 2370 is retried, and codes are passed on as they are |
| NfsPrivilege.MissingRules | pkg/dsm/webapi/share.go:560-573 | empty exactly if the last rule of every wanted client has the wanted privilege; otherwise the clients that lack it (missingNfsPrivilegeClients is the same code) |
| NfsPrivilege.GrantableIffConsistent | pkg/dsm/webapi/share.go:553-573 | some rules satisfy the check exactly if no client is wanted with two privileges, and then the wanted rules do |
| NfsPrivilege.WantedRulesAreGrantable | pkg/driver/nodeserver.go:449-468 | what a node asks for can always be confirmed |
| NfsPrivilege.WantedRulesCover | pkg/driver/nodeserver.go:453-467 | there is a rule for every host and for nobody else, all with the privilege asked for; they are granted exactly if every host has it, and saved as they are give it to no other client |
| NfsPrivilege.NodeRulesGetThrough | pkg/driver/nodeserver.go:493-498 | so a node's forced save ends with the privilege in force for its hosts and no one else although the DSM drops the first saves, if the time limit leaves as many retries |
| NfsPrivilege.ShareNfsPrivilegeSave | pkg/dsm/webapi/share.go:498-530 | save, read back, retry; success means the rules read back grant what was wanted |
| NfsPrivilege.DroppedSavesAreRepeated | pkg/dsm/webapi/share.go:476-497 | a DSM that silently drops the first k saves gets exactly k + 1 saves and k + 1 reads, or one more than the retries if those are fewer and then an error |
| NfsPrivilege.SetNfsVolumePrivilege | pkg/driver/nodeserver.go:436-499 | path and DSM errors change nothing; success means that on the DSM named, as read last, every host has the privilege, whichever branch was taken; nothing is saved exactly if an unforced read succeeded and showed that already |
| NfsPrivilege.GrantedRulesAreNotSaved | pkg/driver/nodeserver.go:481-491 | rules already in force are left alone: no save |
| NfsPrivilege.SetIsGranted | pkg/driver/nodeserver.go:436-499 | success on the skip path gives the same guarantee as a save |
| NfsPrivilege.SourceNames | pkg/driver/nodeserver.go:438-442 | a source path names a DSM and a share in exactly two spellings |
| Exports.SaveIsExport | pkg/dsm/service/share_volume.go:254-268 | a save of NFS rules that takes effect is the step by which a share becomes, or ceases to be, an NFS share |
| Exports.StagedShareIsNfs | pkg/dsm/service/share_volume.go:254-268 | a share a node has set NFS rules for is listed as NFS |
| Multipath.Lsblk | pkg/driver/multipath.go:160-208 | the parsed rows rebuilt into a forest of copies, its roots in order; fails exactly on a short line or an unknown parent |
| Multipath.RowsShowLines | pkg/driver/multipath.go:160-186 | each line gives the row with its columns, in the order lsblk is asked for them |
| Multipath.ShortLineFails | pkg/driver/multipath.go:171-182 | the first line that is too short decides the failure |
| Multipath.GetMultipathDevice | pkg/driver/multipath.go:119-141 | a device exactly if there is a root, each has one child, all of one name, and the last child is an mpath |
| Multipath.TreeChoiceIsFlat | pkg/driver/multipath.go:119-208 | rebuild and choice together read the rows flat: every root has one row naming it as parent, all named m, the last of type mpath |
| Multipath.RowOrderDoesNotMatter | pkg/driver/multipath.go:160-208 | as long as the roots keep their order, the rows can come in any order |
| Multipath.OrderDoesNotMatter | pkg/driver/multipath.go:160-208 | the roots can change places too, when rows of one name show one type |
| Multipath.TreeOrderDoesNotMatter | pkg/driver/multipath.go:119-208 | in both cases rows in another order still resolve, keep their root names apart, and lead rebuild and choice to the same device |
| Multipath.GetVolumeMountPath | pkg/driver/nodeserver.go:121-149 | the only path, or the mapper path of the multipath device chosen in the tree, or nothing |
| Identity.VerifyIscsiDevice | pkg/driver/device_identity.go:46-105 | accepts exactly if every leg the kernel knows has a path through an iSCSI session and shows, as far as they can be read, the wanted target and LUN number; a device or legs that cannot be resolved are accepted |
| Identity.AcceptedIsOnSession | pkg/driver/device_identity.go:74-79 | no leg of an accepted device is a disk off any session, such as a local one |
| Identity.LegReadsBack | pkg/driver/device_identity.go:71-98 | reading a published sysfs path gives back the target and LUN it was made of |
| Identity.AcceptedLegIsWanted | pkg/driver/device_identity.go:54-65 | of an accepted device, one disk or many legs, every leg the kernel publishes is the wanted LUN of the wanted target |
| Identity.DeviceAcceptedIff | pkg/driver/device_identity.go:46-105 | where every leg is published, off any session or unreadable, a device is accepted exactly if all published legs are the wanted LUN and none is off any session |
| Identity.LegOrderDoesNotMatter | pkg/driver/device_identity.go:57-70 | the verdict does not depend on the order of the legs |
| Texts.SplitIff | pkg/driver/device_identity.go:84-85 | splitting and joining at a separator are inverse |
| Texts.TrimSpaceIff | pkg/driver/device_identity.go:97 | trimming takes off exactly the spaces at both ends |
| Texts.AtoiOfItoa | pkg/driver/device_identity.go:87-90 | a printed number reads back as itself, within int64 |
| Nodes.NodeServer.LoginTarget | pkg/driver/nodeserver.go:276-310 | the paths of the target's portals with the IQN and LUN number of the volume found; not found only if it does not exist |
| Nodes.NodeServer.StageIscsi | pkg/driver/nodeserver.go:583-627 | mounts at most the staging path, only a device that passed the identity check of its volume, and never for a block volume; mounts it if every call is answered, the LUN's portals work, and the device behind them is found and passes |
| Nodes.NodeServer.PublishIscsi | pkg/driver/nodeserver.go:917-977 | mounts at most the target path, only after the identity check, and succeeds under the same conditions |
| Nodes.NodeServer.Unstage | pkg/driver/nodeserver.go:780-819 | unmounts the staging path; never reports success while it cannot tell whether the volume exists; with every call answered it fails only if the mount point cannot be checked or unmounted |
| Nodes.StandsForItself | pkg/driver/nodeserver.go:291-293 | in a one-to-one world the first mapping is the volume's only one and no other LUN answers to its target |
| Nodes.AcceptedDisksAreOwn | pkg/driver/nodeserver.go:594-606 | after any run of the controller, every published disk of an accepted device, multipath or not, is the LUN of the volume asked for, and no disk is off any session |
| Nodes.AcceptedIffAllOwn | pkg/driver/nodeserver.go:594-606 | in a one-to-one world the check by a volume's identity accepts exactly the devices all of whose published disks are its LUN and none of whose disks is off any session |
| Permissions.File.ChmodIfPermissionMismatch | pkg/driver/nfs_utils.go:55-73 | sets the wanted mode, writing only on a mismatch; errors change nothing |
| Permissions.MarkerKeepsGroup | pkg/driver/nfs_utils.go:46-52 | over any mounts, owner and other bits are those asked for last; the group's too, unless the setgid marker is present, then they stay; marker and file type stay |
| Permissions.KubeletStaysSatisfied | pkg/driver/nfs_utils.go:24-45 | once kubelet has marked a volume no mount makes it take the volume over again |
| Permissions.RepeatWritesNothing | pkg/driver/nfs_utils.go:55-73 | repeating a request writes nothing |

## Left out

- HTTP, TLS, JSON, URLs, gRPC, logging, the command line, configuration, Helm charts: no property of their own here.
- Time: backoff and polling are bounded numbers of retries, which may differ from request to request.
- Running RPCs for one volume at the same time; every RPC is one step.
- The commands a node runs (iscsiadm, nvme, blockdev, multipath, mount, file system growth): what they answer is an argument, and mounts are a map.
- NVMe and SMB staging and publishing, and the forced re-save after a failed NFS mount: they repeat what is modelled for iSCSI and NFS.
- Snapshot creation and deletion, and looking a snapshot up: its listing drops errors, so no three-valued statement holds; what the lookup answered is an argument of CreateVolume, and which snapshots a DSM still has is fixed.
- The order in which storage volumes are listed: without a location, any usable one with room may be chosen.
- IQN and NQN texts, device attributes, descriptions, thin provisioning, and the request checks that depend on them (one flag, `parametersValid`).
- Concurrent changes of a world between the calls of one RPC, except for NFS rules, which other savers may replace at any time.
- Adopted objects keep changes of size, quota and session limit after a failed creation: `Residue` allows exactly these.
- Provisioning.DeleteVolume: a target or subsystem may stay behind when its own deletion fails after the object's, because a retry no longer finds the volume.
- Provisioning.ExpandVolume: a DSM that reports a LUN or namespace of 2^63 bytes or more, which the cast to int64 would make negative, is not modelled.
- Dsms.Dsm.LunCreate: of the error codes only those the callers tell apart are modelled.
- Texts.SplitIff: strings are bytes, and only ASCII spaces are trimmed.
- Multipath.Lsblk: splitting the output into lines and columns is left out; its rows are the input.
- Permissions.File.ChmodIfPermissionMismatch: the kernel clearing setgid for a caller outside the group is not modelled.
