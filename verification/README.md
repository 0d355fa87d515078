# A verified model of metac's controllers

Metac turns hook answers ("these children should exist, with this content") into API requests. This project
models the parts of it that decide *what* is requested, and proves what they promise:

- **Three-way apply.** An observed object, the state applied last and the desired state are merged as JSON trees.
  Lists of maps are merged by a guessed key. `ThreeWayMerge` defines the result as functions, `MergeLoops` is the
  program's loops, proved to compute them whatever order Go hands out map keys in. `MergeFixpoint` says exactly when
  merging the same desired state again changes nothing, for all trees whose merge keys are scalars, including the
  lists whose merge key changes between passes. `MergeRealises` and `MergeOverride` say exactly when the result
  contains, or in patch mode is, the desired state. `Reconcile`, `ReconcileOnce` and `ReconcileFixpoint` carry the fixpoint
  through the last-applied annotation, the system fields and the status; `ReconciledPaths` says path by path what a
  reconcile makes of an object.
- **Rolling update.** `Rollout` is one sync pass as a step over the sets of children that the parent's revisions
  list, `RolloutRuns` any number of passes with changing parents, lost and partly stored passes and reordered revisions.
  `RevisionClaims` says what the program's name lists mean, `ClusterView` what a pass makes of the observed objects.
  `RollingUpdate` and `RollingPass` are the program's loops over revision objects, proved to be such steps, and
  `CrashOrder` says when they crash. `Aggregation` is the merging of the revisions' desired children, `Duplicates` what
  becomes of a child that a failed write left listed twice.
- **Smaller protocols.** Shared informers (`Informers`, `ControllerInformers`), the finalizer (`Finalizers`,
  `FinalizerRuns`), and which objects a generic controller may touch (`Ownership`, `OwnershipSettles`).

Where code and comments disagree, the model follows the code:

- The kind checks of the merge never fail: a value of another kind counts as nil
  (`dynamic/apply/apply.go:168-204`). So "desired wins" needs compatible shapes, which `MergeRealises.Compatible` spells
  out.
- `controller/composite/rolling_update.go:234-247` says that claims are removed from the lists. Only whole kinds are:
  the narrowed `names` are not stored (`:263`). `RevisionClaims.SyncedExclusive`, `RolloutRuns.CanProgress`,
  `RolloutRuns.StuckForever`, `RollingPass.CrashHappens` and `Duplicates.DuplicateHoldsBack` state what follows.
- `controller/composite/controller.go:567-569` promises a chance to clean up. A hook that answers "finalized" about a
  parent that is alive defeats it, always, and nothing else does: `FinalizerRuns.UncleanedExactlyIf`,
  `FinalizerRuns.ChanceToCleanUp`.
- `controller/common/controller.go:545-552` says that patching gives control of all fields. It also drops the annotations
  that the controller keeps: a patched object is updated again in every pass, or left alone because it is nobody's any
  more (`OwnershipSettles.PatchedKindUpdatesAgain`).

## Model

| member | source | states |
|---|---|---|
| MergeKey.FirstCarriedIsFirst | dynamic/apply/apply.go:436-454 | The known keys are tried in order of precedence: the chosen one is carried by all items, and none before it is |
| MergeKey.Detection | dynamic/apply/apply.go:401-455 | A key is detected if and only if there are items, all are maps, it is a known key that all carry, and no known key that precedes it is carried by all |
| MergeKey.PrecedenceByName | dynamic/apply/apply.go:361-367 | The known keys by name, in the order in which they are tried |
| MergeKey.FiledApart | dynamic/apply/apply.go:341-350 | Items whose merge-key values are numbers, or strings, are filed under one key if and only if those values are equal |
| MergeKey.TextsByExample | dynamic/apply/apply.go:341-350 | What Go prints for some numbers, flags, lists and nil |
| ThreeWayMerge.MergeMap | dynamic/apply/apply.go:221-263 | Result keys are the observed ones minus those applied last and no longer desired, plus the desired ones; keys that are not desired keep the observed value |
| ThreeWayMerge.LastIsFiled | dynamic/apply/apply.go:330-339 | Every key of the list is filed, and under it the last item that has it |
| MergeLoops.DetectListMapKey | dynamic/apply/apply.go:401-455 | Pruning the common keys list by list and item by item, in any map order, detects the key that the specification names |
| MergeLoops.MakeMapFromList | dynamic/apply/apply.go:330-339 | The filing loop, last item under a key wins |
| MergeLoops.Merge | dynamic/apply/apply.go:160-219 | The dispatch on the observed kind computes the specified merge for all trees; it cannot fail |
| MergeLoops.MergeMap | dynamic/apply/apply.go:221-263 | Deleting from and writing into the observed map in any order of keys yields the specified merge |
| MergeLoops.MergeArray | dynamic/apply/apply.go:265-278 | Lists without a merge key are replaced, with a nil list if desired has none; others are merged as list maps |
| MergeLoops.ItemsAfterMerge | dynamic/apply/apply.go:287-304 | The observed list shares its items with the map, so it sees the in-place updates: of the items under a desired key, the last one |
| MergeLoops.MergeListMap | dynamic/apply/apply.go:280-328 | Filing, merging and reading back yields the specified list, of which `ListMaps.MergedOrder` tells the order by positions |
| MergeLoops.ListFromMap | dynamic/apply/apply.go:292-327 | The merged list takes the items still in the map in observed order, then the new desired ones, in desired order (`ListMaps.MergedOrder`), each key once if it is new |
| ListMaps.FilesBackExactly | dynamic/apply/apply.go:280-328 | The merged list files back into the merged map if and only if the values under the merge key, where observed and desired have an item under one key, keep their text when they are merged; it then has surviving observed keys in observed order, then new desired keys in desired order, with the items of the map |
| ListMaps.KeysKeptExactly | dynamic/apply/apply.go:280-328 | Merging in place changes the key of no item if and only if those values keep their text |
| ListMaps.MergedKeysDistinct | dynamic/apply/apply.go:298-327 | If merging keeps the keys, none occurs twice in the merged list if none does in the observed one |
| ListMaps.MergedOrder | dynamic/apply/apply.go:292-327 | The order by increasing positions: first, as they stand in the observed list, all items whose key was not applied last or is desired; then, as they stand in the desired list, the first item of every key that is not observed |
| ListMaps.UndesiredItemsStay | dynamic/apply/apply.go:292-304 | An item of the merged list that desired does not have is the last observed one under its key, as it is |
| ListMaps.ListsByKey | dynamic/apply/apply.go:265-278 | Lists are merged by the first known key that all items of the observed, the last applied and the desired one carry |
| ListMaps.OtherListsAreReplaced | dynamic/apply/apply.go:265-278 | All other lists are replaced by the desired one |
| MergeFixpoint.CarriedByMerged | dynamic/apply/apply.go:401-455 | A key that all desired items carry is carried by all merged items if and only if the untouched observed items carry it |
| MergeFixpoint.NextKeyIsDetected | dynamic/apply/apply.go:265-278 | The merge key of a second pass, told from the input of the first: the first known key that every desired and every untouched observed item carries |
| MergeFixpoint.SameKeyNextTime | dynamic/apply/apply.go:401-455 | The second pass detects the same key if and only if the lists are steady |
| MergeFixpoint.UniformListSettles | dynamic/apply/apply.go:352-399 | Lists whose items all carry the same known keys satisfy the list condition of the fixpoint, unless desired gives no list for one that is emptied |
| MergeFixpoint.SelfMerge | dynamic/apply/apply.go:160-339 | A tree merged with itself stays as it is if and only if none of its list maps files two different items under one key |
| SecondListPass.SecondMergeOfList | dynamic/apply/apply.go:280-328 | A list-map merge is the identity if and only if it has no new items and finds every item unchanged |
| SecondListPass.LastOfBoth | dynamic/apply/apply.go:330-339 | Of items that two keys file alike, both file the same, last one |
| SecondListPass.SecondPassSettles | dynamic/apply/apply.go:280-339 | A second pass by any known key is the identity if and only if it files no two merged items under one key, files only desired items that the first pass filed, and the merge of the items settles |
| MergeFixpoint.MergeSettles | dynamic/apply/apply.go:160-339 | merge(merge(o,l,d),d,d) == merge(o,l,d) if and only if d settles over o and l, for all trees with scalar merge keys, by induction over maps, list maps and plain lists |
| MergeFixpoint.MapMergeSettles | dynamic/apply/apply.go:221-263 | The same for the fields of maps |
| MergeFixpoint.ListMapSettles | dynamic/apply/apply.go:265-328 | The same for list maps, emptied ones and ones whose key changes included |
| MergeKeyChange.MergeKeyCanChange | dynamic/apply/apply.go:401-455 | A concrete input on which the first pass merges by name and the second by port, with a different result |
| MergeKeyChange.MergeKeyCanBeLost | dynamic/apply/apply.go:341-350 | A concrete input on which merging changes the key of an item: two maps that print alike |
| MergeKeyChange.LostItemGoesLast | dynamic/apply/apply.go:301-325 | An item whose key is lost is no longer found in place, and is appended as if it were new |
| MergeRealises.UngovernedPathsStay | dynamic/apply/apply.go:221-263 | At every depth a path of maps changes only if desired sets it, or it or a prefix was applied last and dropped |
| MergeRealises.DroppedPathsGo | dynamic/apply/apply.go:221-263 | In the latter case it is gone, so the deep law is exact |
| MergeRealises.DesiredIsRealised | dynamic/apply/apply.go:160-339 | Every value of d, list-map items addressed by merge key and the last one meant if several have it, is in merge(o,l,d) if and only if the shapes are compatible |
| MergeOverride.PatchIsOverride | apis/metacontroller/v1alpha1/types_generic.go:197-204 | merge(o,o,d) is d up to the order of list-map items if and only if the shapes are compatible: the promised plain override |
| MergeOverride.ReorderedUnderAnyKey | dynamic/apply/apply.go:292-327 | Whether a list is another one reordered does not depend on the key that makes the items correspond |
| Reconcile.Apply.Merge | controller/common/manage_children.go:119-205 | Merge, revert system fields and status, compare, sanitize, store; a failure leaves the flags as they were |
| ReconcileOnce.AnnotationsReadBack | dynamic/apply/apply.go:74-79 | Annotations that were written are read back, and nothing else of the object changes |
| ReconcileOnce.DesiredWasLastApplied | dynamic/apply/apply.go:51-144 | The stored desired state is read back as the last applied one, and storing it again changes nothing |
| ReconcileOnce.RevertingMeta | controller/common/manage_children.go:222-282 | Reverting never fails on an object with metadata, and changes exactly the system fields |
| ReconcileOnce.FirstPass | controller/common/manage_children.go:119-205 | The result carries the merged tree outside system fields and status, the desired annotations, and the desired state in its annotation |
| ReconciledPaths.SystemFieldsAre | controller/common/manage_children.go:222-229 | The system fields by name |
| ReconciledPaths.ReconciledAt | controller/common/manage_children.go:119-205 | At every path outside the annotation of the last applied state, the result has the observed value in system fields and status, and the merged one elsewhere |
| ReconciledPaths.FirstContact | dynamic/apply/apply.go:118-126 | Of an object that was never applied, a reconcile keeps every path that desired does not set, and all system fields and the status |
| ReconciledPaths.LaterContact | dynamic/apply/apply.go:118-141 | Of one that was, a path that desired does not set goes if and only if it or a prefix is in the state that the annotation holds and was dropped; else it stays |
| ReconciledPaths.UnreadableFails | dynamic/apply/apply.go:128-140 | An annotation that cannot be read makes the merge fail |
| ReconciledPaths.DesiredLabelsArrive | controller/common/manage_children.go:119-205 | Every label that desired sets reaches the result |
| ReconciledPaths.AnnotationIsNoDifference | controller/common/manage_children.go:163-199 | The comparison is made before the annotation is written: an object that only lacks the annotation gets it, and no difference is reported |
| ReconciledPaths.StoredStateIsClean | dynamic/apply/apply.go:94-108 | The stored state never holds the annotation itself, also if desired does, and is desired everywhere else |
| ReconcileFixpoint.OwnedMerge | controller/common/manage_children.go:129-163 | What the reverts leave to the controller is merged on its own: the merge without the reverted fields is the merge of the states without them |
| ReconcileFixpoint.PuttingBackRestores | controller/common/manage_children.go:222-282 | Reverting gives the observed object back if and only if the rest of it was not changed |
| ReconcileFixpoint.SecondPass | controller/common/manage_children.go:119-205 | Over an object that carries the merged tree, the second reconcile finds no difference if and only if what is left to the controller settles on that tree; what it returns differs from the object exactly if it reports a difference |
| ReconcileFixpoint.ReconcileSettles | controller/common/manage_children.go:119-217 | End to end: after a reconcile, reconciling the stored object again returns it and reports no difference if and only if desired settles outside status and system fields, whatever the API server made of those |
| RevisionClaims.ClaimMapKeyInjective | controller/composite/controller_revision.go:509-511 | The claim map tells kinds apart |
| RevisionClaims.AddedLists | controller/composite/controller_revision.go:427-448 | Adding a child lists it and nothing else, keeping one group a kind and names free of repetitions |
| RevisionClaims.RemovedUnlists | controller/composite/controller_revision.go:450-477 | Removing a child takes it and nothing else from the list |
| RevisionClaims.EditsKeepOrder | controller/composite/controller_revision.go:427-477 | Adding appends, removing closes the gap: groups stay where they are and the other names keep their order |
| RevisionClaims.KeptGroup | controller/composite/rolling_update.go:222-264 | A group stays if and only if it has a claim that no earlier revision took |
| RevisionClaims.KeptGroupsInOrder | controller/composite/rolling_update.go:222-266 | The groups that stay keep their order |
| RevisionClaims.KeptGroupsList | controller/composite/rolling_update.go:222-266 | What stays listed: all names of every kind of which one child is claimed |
| RevisionClaims.KeptStateLists | controller/composite/rolling_update.go:214-269 | Syncing the claims keeps exactly the names of the kinds of which the revision is the first to list some wanted child, whatever is listed twice |
| RevisionClaims.SyncedExclusive | controller/composite/rolling_update.go:241-263 | After syncing the claims no child is listed twice if and only if, of two revisions that list a child, at most one is the first to list some desired child of that kind |
| RevisionClaims.DuplicatesCanStay | controller/composite/rolling_update.go:241-263 | A child listed twice can stay listed twice |
| RevisionClaims.AllClaimed | controller/composite/rolling_update.go:221-261 | All revisions together claim exactly the wanted children that some revision lists |
| RollingUpdate.ParentRevision.AddChild | controller/composite/controller_revision.go:427-448 | The loops compute the specified lists |
| RollingUpdate.ParentRevision.RemoveChild | controller/composite/controller_revision.go:450-477 | The loops compute the specified lists |
| RollingUpdate.ParentRevision.CountChildren | controller/composite/controller_revision.go:416-425 | The count is positive if and only if the revision lists a child |
| RollingUpdate.SyncRevisionClaims | controller/composite/rolling_update.go:214-269 | The claim map holds exactly the listed children that roll and are desired, each with the first revision that lists it; the lists become the specified ones |
| ClusterView.ShouldContinueRolling | controller/composite/rolling_update.go:156-212 | The two loops return the first verdict in list order that is not to proceed; a child that is not desired crashes the pass only after its last applied state was read |
| ClusterView.ScanResult | controller/composite/rolling_update.go:156-212 | Proceeds if and only if all rolling children that latest lists are desired, observed, up to date and healthy; crashes if and only if the first that is not is observed, readable and not desired |
| CrashOrder.CrashWhenExtended | controller/composite/rolling_update.go:164-187 | Whether the pass crashes is told from the lists before the free moves, whatever order those are made in |
| RollingPass.OfferChild | controller/composite/rolling_update.go:52-87 | A child moves to latest at once if nobody claims it or its update is a no-op, and afterwards latest lists it if and only if it did before or that is so; lists and claims stay in agreement |
| RollingPass.OneMoreMove | controller/composite/rolling_update.go:41-88 | Whether a child moves freely does not depend on the children offered before |
| RollingPass.OfferChildren | controller/composite/rolling_update.go:38-88 | The first loop makes all free moves, in any order of the desired children: latest ends up with every wanted child that nobody lists or whose update is a no-op |
| RollingPass.MoveNext | controller/composite/rolling_update.go:90-153 | The second loop moves the first wanted child that latest lacks if everything on latest is happy, and reports what it did |
| RollingPass.SyncRollingUpdate | controller/composite/rolling_update.go:31-154 | A pass of the program is a step of the rollout, lists and reported condition, for any lists, also such as list a child twice; latest takes every wanted child that is up to date or listed by nobody; it crashes if and only if the lists before it say so |
| RollingPass.CrashHappens | controller/composite/rolling_update.go:179-181 | Starts on which the pass crashes: latest still lists an observed, readable child that it no longer desires, next to a wanted one, while another waits |
| RollingPass.ClaimsStay | controller/composite/rolling_update.go:214-269 | After syncing the claims every wanted child that is listed is claimed by the first revision that lists it |
| RollingPass.PruneParentRevisions | controller/composite/controller_revision.go:479-490 | Keeps latest and the revisions that list a child, in order |
| RollingPass.UpdatedChildIsHappy | controller/composite/rolling_update.go:171-208 | A child that was sent and stored counts as up to date if and only if its desired state settles outside status and system fields, and as happy if it is healthy too; such a child never holds up the rollout |
| Rollout.LatestAfterFreeMoves | controller/composite/rolling_update.go:31-88 | After the free moves latest lists exactly the names of the kinds of which it listed a wanted child, and the wanted children that nobody listed or whose update is a no-op |
| Rollout.FreeChildrenMove | controller/composite/rolling_update.go:52-87 | Every wanted child that nobody lists, or whose update is a no-op, is with latest after the pass, whatever else waits |
| Rollout.NoneWaitsBefore | controller/composite/rolling_update.go:90-92 | The child that moves next is the first of the order of the hook that waits |
| Rollout.MovesExactlyIf | controller/composite/rolling_update.go:90-143 | A pass reports a move of a child if and only if everything on latest is desired and happy and the child is the first that waits |
| Rollout.OlderAfterPass | controller/composite/rolling_update.go:31-142 | What an older revision lists after a pass: what it listed of the kinds of which it is the first to list a wanted child, except the child that was moved and those that moved freely from it |
| Rollout.PrunedInOrder | controller/composite/controller_revision.go:479-490 | Pruning keeps latest and exactly the revisions that list a child, in their order |
| Rollout.PassKeepsExclusive | controller/composite/rolling_update.go:36-142 | No pass makes two revisions list one child |
| Rollout.PassListsWanted | controller/composite/rolling_update.go:36-142 | After a pass some revision lists every rolling child that latest desires |
| Rollout.OneGuardedMove | controller/composite/rolling_update.go:41-143 | A child comes to latest from an older revision only as a no-op or as the one reported move, made when all else on latest is happy; nothing wanted leaves latest, older revisions gain nothing |
| RolloutRuns.StoredExclusive | controller/composite/controller_revision.go:266-315 | Wherever storing a pass fails, no child is listed twice if and only if no revision that keeps its old list lists a child that the stored latest one just took |
| RolloutRuns.RunKeepsExclusive | controller/composite/rolling_update.go:36-142 | Over every run of passes, lost and partly stored ones, new revisions and any order of reading back, no child is ever listed twice, unless storing a pass fails between the revision that took a child and the one it came from |
| RolloutRuns.PassProgress | controller/composite/rolling_update.go:90-153 | The children to move never get more, get fewer with every reported move, and OnLatestRevision is reported if and only if the free moves left none |
| RolloutRuns.HappyPassesFinish | controller/composite/rolling_update.go:90-153 | Over every run with a fixed aim, happy passes and children still to move together never exceed the children to move at the start, until none are left |
| RolloutRuns.RolloutFinishes | controller/composite/rolling_update.go:90-153 | N happy passes, with any waiting passes in between, finish a rollout of N children, and the next pass reports it |
| RolloutRuns.CanProgress | controller/composite/rolling_update.go:164-187 | Some answer the cluster can give lets a pass report a move if and only if latest keeps no name that is not desired and an older revision lists a wanted child that latest does not |
| RolloutRuns.LatestWithinStays | controller/composite/rolling_update.go:233-263 | Whether latest keeps undesired names does not change while the aim stays |
| RolloutRuns.StuckForever | controller/composite/rolling_update.go:164-187 | A rollout whose latest revision keeps an undesired name makes no guarded move until the aim changes |
| RolloutRuns.HalfMoveEntangles | controller/composite/controller_revision.go:291-312 | A write that fails between latest and the revision a child came from leaves the child listed by both |
| RolloutRuns.HeldBack | controller/composite/rolling_update.go:110-124 | While such a child is not up to date and another of its kind waits in the older revision, every pass of every run waits |
| Duplicates.OlderContentIsOther | controller/composite/controller_revision.go:227-236 | A child that was given an older content carries it as its last applied state, whatever the API server made of system fields and status |
| Duplicates.OtherContentIsNotUpToDate | controller/composite/rolling_update.go:179-187 | A child that was last given another content than latest desires is never up to date |
| Duplicates.DuplicateHoldsBack | controller/composite/rolling_update.go:110-124 | So a child listed twice that gets the content of the older revision holds the rollout back, over every run |
| Duplicates.StaysElsewhere | controller/composite/controller_revision.go:223-236 | While an older revision lists a child and its hook desires something else, aggregation and update leave the child with something else than latest desires |
| Duplicates.StallsForever | controller/composite/controller_revision.go:193-243 | From the lists and the hooks alone: once a child is listed twice and the older revision is kept by another child, every pass of every run waits while the hooks of the revisions answer different contents for the two |
| Aggregation.FindByGroupKindName | controller/common/common.go:214-231 | Finds the child in some API version if it is filed in any |
| Aggregation.ReplaceChild | controller/common/common.go:160-180 | Replaces only what is there in the same API version |
| Aggregation.Aggregate | controller/composite/controller_revision.go:223-243 | The children stay those of latest; each has the content of latest or of an older revision that lists and desires it: of an older one if there is one, and of the last of them |
| Aggregation.ContentOfExclusive | controller/composite/controller_revision.go:223-243 | With exclusive lists a child has the content of the older revision listing it if that one desires it in that version, else of latest, whatever the order of the revisions |
| Aggregation.AggregateExclusive | controller/composite/controller_revision.go:223-243 | The loops give every child that content |
| Aggregation.GuardReachesContent | controller/composite/controller_revision.go:223-243 | After a pass a wanted child of an older revision ends with the content of latest if it moved, as a no-op or as the one reported move, and also, unguarded, if the older revision does not desire it in the version of latest; else it keeps the older content |
| Informers.SharedInformerFactory.GetOrCreate | dynamic/informer/factory.go:63-133 | The subscribe step on both maps and the informers created |
| Informers.SharedInformerFactory.Close | dynamic/informer/factory.go:94-121 | The close step; panics if and only if the specification closes a channel twice |
| Informers.SubscribeKeepsSound | dynamic/informer/factory.go:63-133 | A subscribe keeps counts equal to open subscriptions, all to the current informer |
| Informers.CloseKeepsSound | dynamic/informer/factory.go:94-121 | So does closing an open subscription, which never panics |
| Informers.StartIsSound | dynamic/informer/factory.go:43-53 | A new factory has no subscriptions and no informers, and satisfies the invariant |
| Informers.RunsAreSound | dynamic/informer/factory.go:63-133 | Over all interleavings in which each subscription is closed at most once: no panic, counts right, every open subscription is to the current informer |
| Informers.StoppedWhenUnused | dynamic/informer/factory.go:106-120 | An informer is stopped if and only if it has no open subscription |
| Informers.SecondCloseBreaks | dynamic/informer/informer.go:89-96 | Closing keeps the counts right if and only if the subscription is still open |
| ControllerInformers.SubscribeChildren | controller/composite/controller.go:110-136 | Subscribes rule by rule up to the first that cannot be; the registrar ends up with one informer a resource |
| ControllerInformers.ParentController.Stop | controller/composite/controller.go:263-281 | Gives back one subscription for each resource in the registrar and the parent's, without a panic |
| ControllerInformers.NewParentController | controller/composite/controller.go:80-136 | Fails without a subscription if the parent resource is unknown; else exactly at the first resource that cannot be subscribed to; that failure restores counts and informers if and only if no child rule made twice; success leaves every subscription counted, also if the parent is a child resource |
| ControllerInformers.StopRestores | controller/composite/controller.go:263-281 | Giving back what was made restores counts and informers if and only if the child rules are distinct |
| ControllerInformers.CreateAndStop | controller/composite/controller.go:80-281 | Creating and stopping a controller restores counts and informers if and only if the child rules are distinct |
| Finalizers.WithoutName | dynamic/object/metadata.go:44-53 | Removing a finalizer leaves the others; it is gone if and only if it was there at most once |
| Finalizers.FirstGoes | dynamic/object/metadata.go:43-53 | It is the first occurrence that goes, and the others keep their order |
| Finalizers.Object.HasFinalizer | dynamic/object/metadata.go:24-32 | True if and only if the finalizer is in the list |
| Finalizers.Object.AddFinalizer | dynamic/object/metadata.go:34-41 | Appends the finalizer if it is missing |
| Finalizers.Object.RemoveFinalizer | dynamic/object/metadata.go:43-53 | Removes the first occurrence in place |
| Finalizers.Object.HasGCFinalizer | controller/common/finalizer/finalizer.go:115-126 | True if and only if a finalizer of the garbage collector is in the list |
| Finalizers.Client.AddFinalizer | dynamic/clientset/clientset.go:183-222 | The live object gets the finalizer, or stays as it is if the request fails |
| Finalizers.Client.RemoveFinalizer | dynamic/clientset/clientset.go:183-237 | The live object loses the finalizer, or stays as it is if the request fails |
| Finalizers.RequestsAreJustified | controller/common/finalizer/finalizer.go:41-76 | Adding is requested if and only if finalizing is enabled and the object was seen alive without the finalizer; removing if and only if finalizing is disabled and the finalizer was seen, or the hooks were asked and answered that they finished |
| Finalizers.AddKeepsOthers | dynamic/clientset/clientset.go:183-222 | Adding keeps the finalizers of others where they are, and fails if and only if the request does or the object is gone or pending deletion without the finalizer |
| Finalizers.EnabledPutsOn | controller/common/finalizer/finalizer.go:41-62 | With finalizing enabled, an object seen alive without the finalizer has it afterwards, unless the request fails |
| Finalizers.DisabledTakesOff | controller/common/finalizer/finalizer.go:63-76 | With finalizing disabled, a finalizer that was seen is taken off if the removal gets through, and those of others stay |
| Finalizers.OtherwiseGoesOn | controller/common/finalizer/finalizer.go:41-76 | In all other cases nothing is asked for, and the sync goes on with the object that was seen |
| Finalizers.ManagedExactlyIf | controller/composite/controller.go:607-691 | Children are managed if and only if the answers are valid and the object that the sync goes on with is alive or being finalized |
| Finalizers.FinalizingManages | controller/composite/controller.go:672-691 | While a parent is being finalized and the hooks have not finished, its children are managed |
| Finalizers.SyncIsAllowed | controller/composite/controller.go:566-622 | Both steps of a sync change the object only as any client may |
| Finalizers.Finalizer.SyncObject | controller/common/finalizer/finalizer.go:41-76 | The first step of a sync: its requests, the object to go on with, and the live object it leaves |
| Finalizers.Finalizer.ShouldFinalize | controller/common/finalizer/finalizer.go:81-104 | True if and only if finalizing is enabled, the finalizer is there and none of the garbage collector is |
| Finalizers.Finalizer.FinishSync | controller/composite/controller.go:607-691 | The second step: the finalizer is removed if the hooks answered so, and children are managed by what the object is then |
| FinalizerRuns.NextIsLawful | controller/composite/controller.go:566-622 | Over syncs and other writers no version follows another unlawfully: deletion is final, and adds no finalizers |
| FinalizerRuns.ManagedWhileFinalizing | controller/composite/controller.go:566-691 | Over every run, each sync that sees the finalizer and gets a valid answer that it is not finished manages the children |
| FinalizerRuns.NeverManagedAgain | controller/common/finalizer/finalizer.go:81-104 | Once a sync saw the parent pending deletion without the finalizer, no later sync manages children or asks to add the finalizer |
| FinalizerRuns.FinalizerStays | controller/composite/controller.go:567-622 | While no hook answered that it finished, a finalizer once present, or needed for managed children, stays |
| FinalizerRuns.FinalizerLostExactlyIf | controller/composite/controller.go:607-622 | A sync takes the finalizer off if and only if its hooks were asked, answered that they finished, and the removal gets through and finds it once |
| FinalizerRuns.ChanceToCleanUp | controller/composite/controller.go:567-622 | Over every run, a parent whose children were ever managed does not disappear before the hooks answered that they finished finalizing it, unless they answered so while it was alive |
| FinalizerRuns.EarlyAnswerLoses | controller/composite/controller.go:607-622 | Every answer of that kind about a living parent loses it: the children are managed, and the next deletion removes the parent without finalizing it |
| FinalizerRuns.UncleanedExactlyIf | controller/composite/controller.go:566-622 | A sync that managed the children leaves the parent to a deletion that nobody finalizes if and only if its hooks answered so about a living parent and the finalizer was removed |
| FinalizerRuns.FinalizedTooEarly | controller/composite/controller.go:607-622 | A run in which the sync hook answers so about a living parent, and the parent disappears without being finalized |
| Ownership.FindDifference | controller/common/controller.go:563-584 | The merged object if the merge succeeds and finds a difference |
| Ownership.ClusterStates.UpdateOne | controller/common/controller.go:452-663 | The guards in order, the record kept in the observed object in patch mode, and the request by strategy |
| Ownership.ClusterStates.DeleteObsolete | controller/common/controller.go:793-889 | Each obsolete object is deleted once, in any order |
| Ownership.ClusterStates.CreateOrUpdate | controller/common/controller.go:736-760 | One update or create for each desired object |
| Ownership.ClusterStates.ExplicitUpdate | controller/common/controller.go:297-351 | Updates what is listed with a copy of the settings in which any update is permitted |
| Ownership.ClusterStates.ExplicitDelete | controller/common/controller.go:895-965 | Deletes what is listed, observed and not pending deletion, once |
| Ownership.ClusterStates.Apply | controller/common/controller.go:354-392 | No request at all if a kind cannot be reached, else exactly the plan, phase by phase: obsolete objects are deleted, then desired ones created or updated, then the listed ones updated, then the listed ones deleted, each request once |
| Ownership.DeletesBeforeCreates | controller/common/controller.go:376-392 | The delete of every obsolete object comes before every create |
| Ownership.UpdatesBeforeDeletes | controller/common/controller.go:297-392 | An object that is listed for an update and for deletion is updated before it is deleted |
| Ownership.CreatedExactlyIf | controller/common/controller.go:736-760 | An object is created, once, if and only if it is desired and not observed |
| Ownership.DeletedExactlyIf | controller/common/controller.go:792-965 | An observed object is deleted if and only if it is obsolete and owned or DeleteAny, listed for deletion, or replaced by a permitted update that changes it; every delete carries the observed UID |
| Ownership.UpdatedExactlyIf | controller/common/controller.go:452-663 | It is updated if and only if it is desired and owned or UpdateAny, or listed for an update, and the update changes it; what is written is the merged object. The permission of explicit updates does not leak |
| Ownership.ForeignIsLeftAlone | controller/common/controller.go:487-500 | An object of another watch that no policy and no list covers gets no request |
| OwnershipSettles.CreatorAfterUpdate | controller/common/controller.go:479-500 | Whose an object is after an update: whom desired names, else the observed creator, unless the annotation or something around it was applied last and is no longer desired; then nobody |
| OwnershipSettles.RequestByStrategy | controller/common/controller.go:452-663 | What becomes of a difference, strategy by strategy; what is written in place is the merged object with the note of the watch, all other annotations as merged |
| OwnershipSettles.UpdateSettles | controller/common/controller.go:563-640 | The stored object shows no difference if and only if desired settles outside status and system fields and notes no other updater than the controller does |
| OwnershipSettles.MergedKindSettles | controller/common/controller.go:452-663 | If the kind is merged, the pass after an update asks for something if and only if the object may be updated, its strategy updates it, and the stored object shows a difference by that condition |
| OwnershipSettles.PatchedDiffers | controller/common/controller.go:535-566 | If the kind is patched, an object that carries the state applied last always differs |
| OwnershipSettles.CreatorAfterPatch | controller/common/controller.go:535-566 | After a patch the object belongs to whom desired names, else to nobody |
| OwnershipSettles.PatchedKindUpdatesAgain | controller/common/controller.go:452-663 | The pass after a patch asks for another update if and only if it may update any object or desired names the watch as the creator, and pending deletion is no obstacle |

## Left out

- Kubernetes clients, hooks over HTTP, queues, timers and goroutines: hook answers, observed objects and the success of
  requests are inputs.
- JSON text: writing and reading are a pair of functions of which the fixpoint assumes that they are inverse; writing
  never fails.
- Floating-point numbers are kept as the text Go prints for them; no arithmetic is done on them.
- Aliasing inside JSON trees: the trees are values. The one place where the program relies on sharing, the observed
  list seeing in-place updates of its items, is written out in `ThreeWayMerge.UpdatedInPlace`. Deep copies are not part of
  the model.
- Reading nested fields and annotations belongs to a Kubernetes library that is not part of this model; `Reconcile`
  states what is assumed of it (a null parent counts as missing, a parent of another kind as an error).
- MergeFixpoint.MergeSettles: does not cover lists whose items have maps or lists as the value of a known merge key, because
  the text such a key is filed under can change with every merge.
- MergeRealises.DesiredIsRealised: does not cover maps and lists under the merge key, for the same reason.
- ReconcileFixpoint.ReconcileSettles: does not claim that patch mode settles; `OwnershipSettles.PatchedDiffers` states that
  it does not.
- A latest hook that answers one child in two API versions: `ClusterView.Cluster` has one desired state a child. Older hooks
  that do so are covered in `Aggregation`.
- Duplicates.StallsForever: follows children whose objects stay readable; one whose last applied state cannot be read fails
  every merge, and a recreate strategy is covered as far as it creates the object anew with the aggregated content.
- ClusterView.ShouldContinueRolling: does not model the conditions and generations behind "healthy", which are an input.
- Parents are namespaced, so that relative names are names, and a kind has no dot in it.
- A crash of a rolling update counts as a lost pass: nothing was written yet.
- RollingPass.SyncRollingUpdate: takes lists with one group a kind and no name twice in it, which is how the controller
  writes them; lists that somebody else wrote otherwise are not covered.
- The shortcut that asks only the latest revision's hook when no kind rolls or the parent is being deleted.
- Informers.RunsAreSound: covers clients that close what they were handed once; `Informers.SecondCloseBreaks` says what else
  happens.
- ControllerInformers.StopRestores: compares states without subscribers in between; their effect on the counts is what
  `Informers.RunsAreSound` states.
- Registries are flat maps; that the program groups them by API version and kind only matters for reaching the clients,
  and a kind with no objects is not represented.
- Owner references, the annotation written on creation, and namespaces defaulted from the watch: easy members.
- Making and applying revision patches, revision names, selectors, claim managers, retries and status updates.
