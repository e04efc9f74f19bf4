# RBACSync in Dafny

RBACSync is a Kubernetes controller. An `RBACSyncConfig` or `ClusterRBACSyncConfig` lists bindings of groups to roles; the
controller finds out who is in each group, writes one RoleBinding or ClusterRoleBinding per listed pair, and deletes the
bindings it owns that are no longer listed. This project models the controller and proves what it guarantees.

`dafny verify dfyconfig.toml` checks everything.

## How it is laid out

- `Text`, `Subjects`: Go's string order; subject lists, their normal form, and the in-place stable sort. Go visits a map in
  an arbitrary order; such an order is called a *walk*, and the statements hold for every walk.
- `Options`, `Errors`, `Groupers`, `MergeAlgebra`: the error sentinels and their wrapping; the groupers (static map, empty, G Suite,
  merged, and `Stub` for any other implementation); the laws of merging. `Lookup` says what a grouper means, `Allows` which
  lists the code may return for it.
- `GroupMaps`: the same maps as slices over backing arrays, with `append` that writes into spare room.
- `Resolve`: the groups of one config, static declarations merged with the upstream.
- `Api`: the contract of the API server (update, create, delete, owner references, label selector). A call may be served,
  fail, or take effect with its reply lost. Three properties of the server are parameters: whether an update creates a
  missing object (the comment in `createOrUpdateRoleBinding` says a real server does, the test double does not), whether it
  refuses to change a stored roleRef, and whether it refuses objects with illegal label values.
- `Reconcile`: the handlers, once for both scopes. Everything a run cannot influence is in its `Env`: the answers of the
  lookups, the verdicts on the calls, whether listing worked. The lister's cache is any store at all.
- `PostState`, `BindingNames`, `Stabilise`, `Reports`, `Runs`, `Sync`: the theorems about one reconcile, about two, and about
  all sequences of them. `Witnesses` holds the inputs for the cases below.
- `Interleave`: a reconcile cut into single API calls, and two of them running at once.
- `WorkQueue`, `Delivery`: the client-go queue contract, and the informer handlers, pollers and workers as interleaved steps
  around it.
- `EndToEnd`: the steps of `Delivery` joined to the reconciles they finish, down to what the server stores.

## Where the code does less than its comments say

- Normalised lists are "sorted and unique", but equal input sets give equal lists only when distinct subjects have distinct
  Names; `Subjects.CanonicalFormIff` is the exact condition.
- The runtime merge "matches" the static one, list for list, only where distinct members have distinct Names and the group
  is one of the second map or already normalised in the first: `MergeInto` leaves the receiver's other groups as they are.
  `GroupMaps.RuntimeMatchesStaticIff` is the exact condition, `GroupMaps.UnsortedReceiverDiffers` an input;
  `GroupMaps.RuntimeMergeRefinesStatic` has the condition for the sequences of Names.
- Duplicate names need not mean the same binding, so a skipped "duplicate" can lose a grant (`Witnesses.SkipLosesAGrant`).
  `BindingNames.NamesCollideIff` says when two bindings share a name, `Sync.SkipIsHarmlessIff` when the skip is harmless.
- A binding whose write fails does not protect the object it wanted to update: the same run deletes it if the cache shows it
  as owned (`PostState.UnwrittenPostState`, `Witnesses.FailedWriteRevokes`). Only unknown memberships protect.
- A name held by a binding of unknown membership blocks a later binding of the same name
  (`Witnesses.ShadowedGrantIsMissing`); `Stabilise.ReachesIff` says exactly when a run reaches its target all the same.
- Two configs of one namespace can ask for the same name, and then undo each other's work with every poll: "team" and
  "team-dev" (`Witnesses.TeamsMeet`). `BindingNames.ConfigsMeetIff` says exactly for which config names that can happen,
  `EndToEnd.SharedNameIsContested` that no state of the server satisfies both.
- Where the server does not change a stored roleRef, a config whose role was edited loses the grant until the second run
  (`Witnesses.EditedKindTakesTwoRuns`); `Sync.RepeatedRound` says for which names the second of two runs has work to do.
- The selector error that "should never happen" happens for config names that are no label value, such as those longer than
  63 characters. Such configs are never cleaned up (`Runs.LongNamesAreNeverCleanedUp`, `Witnesses.LongNameLeaks`), and a
  server that checks labels never stores anything for them (`Witnesses.LongNameGrantsNothing`).
- Objects that are controlled by a config but have lost the owner label are never listed, hence never deleted
  (`Witnesses.LostLabelLeaks`); `Stabilise.ControlledAreWantedIff` is the exact condition. `Owned` therefore asks for both.

## Model

| member | source | states |
|---|---|---|
| Text.LessIff | pkg/groups/subjects.go:49 | One string is less than another iff up to some place they agree and there the first one ends or has the smaller character; the lengths do not matter otherwise. |
| Subjects.SortSubjects | pkg/groups/subjects.go:47-51 | The in-place sort leaves the one list that is sorted by Name and keeps equal Names in order: of any two entries with different Names, the earlier one's ends or has the smaller character at the first difference. |
| Subjects.StableSortUnique | pkg/groups/subjects.go:47-51 | Any two lists sorted by Name that agree on each run of equal Names are equal, so "stable sort" fixes the result whatever the algorithm. |
| Subjects.SortStable | pkg/groups/subjects.go:48 | Entries that share a Name keep the order they had before sorting. |
| Subjects.NormalizeUniq | pkg/groups/subjects.go:37-45 | Whatever order the map is walked in, the fresh result is sorted by Name in that sense, without repeats, and holds exactly the keys. |
| Subjects.Normalize | pkg/groups/subjects.go:28-35 | The result is canonical for the set of the argument's subjects; nothing else about the argument matters and it is not written. |
| Subjects.CanonicalNames | pkg/groups/subjects.go:24-45 | Two normal forms of one set show the same sequence of Names, for all pairs of walks. |
| Subjects.CanonicalFormIff | pkg/groups/subjects.go:24-45 | The normal form is independent of the walk if and only if distinct subjects have distinct Names. |
| Subjects.NormalizeIdempotent | pkg/groups/subjects.go:28-45 | Normalising a canonical list with distinct Names gives the list itself. |
| Groupers.GSuiteMembers | pkg/groups/gsuite/grouper.go:96-178 | The paging loop returns everyone on all pages in canonical form, or the error of the first applicable class and no member. |
| MergeAlgebra.GSuiteAllOrNothing | pkg/groups/gsuite/grouper.go:96-178 | The directory grouper succeeds exactly on a matching group, a working client and a complete page sequence, and then with a subject of kind User for exactly the addresses on the pages; otherwise its error wraps not-found, unknown, timeout or canceled, each for its own reasons. |
| Groupers.MembersOf | pkg/groups/grouper.go:62-69 | Every grouper, nested to any depth, answers within what its meaning allows. |
| Errors.WrappedMeans | pkg/groups/grouper.go:46-60 | However often an error has been wrapped, it is not-found iff the innermost one is the not-found sentinel, and an unknown membership iff that is the unknown, the timeout or the canceled sentinel. |
| Groupers.MergedMembers | pkg/groups/merged.go:35-57 | The loop computes the canonical union, stops at the first error other than not-found, and never succeeds with nobody. |
| MergeAlgebra.UnknownStopsMerge | pkg/groups/merged.go:39-47 | A merge whose first grouper that fails with more than a not-found fails with a wrapped timeout, cancellation or unknown error returns that very error, wrapped once more, and no member. |
| MergeAlgebra.MergedIsUnion | pkg/groups/merged.go:49-56 | When a merge succeeds, someone is a member iff one of its groupers has returned them. |
| MergeAlgebra.MergedMeaning | pkg/groups/merged.go:35-57 | A merge fails for real iff a member does, with the cause of the first that does; otherwise it is the union, and an empty union is not found. |
| MergeAlgebra.FirstHardIsOneOf | pkg/groups/merged.go:39-47 | The deciding error is that of the first grouper in argument order that fails with something other than not-found. |
| MergeAlgebra.MergeOrderAndRepetition | pkg/groups/merged.go:28-57 | Groupers that are equal as a set give the same members and agree on whether an error arises, whatever their order and repetitions. |
| MergeAlgebra.EmptyIsIdentity | pkg/groups/grouper.go:71-78 | Inserting the empty grouper anywhere changes no outcome. |
| MergeAlgebra.Flatten | pkg/groups/merged.go:31-57 | A nest of merges of any depth equals the flat merge of its leaves: same members, same cause of error. |
| MergeAlgebra.ErrorsAreClassified | pkg/groups/grouper.go:46-60 | Every error of any finite nesting of the repository's groupers is exactly one of not-found and unknown-memberships. |
| GroupMaps.GroupMap.FromMap | pkg/groups/groupmap.go:31-39 | Every group of the new map is the canonical form of the plain map's group, in fresh arrays. |
| GroupMaps.GroupMap.Members | pkg/groups/groupmap.go:41-48 | The stored list as it is, or a wrapped not-found. |
| GroupMaps.Append | pkg/groups/groupmap.go:58 | Go's append on a window anywhere in its array: the view grows by the new subjects, in place when the capacity suffices and in a fresh array otherwise; nothing behind the new end, and no slice whose window lies apart from the room, changes. |
| GroupMaps.GroupMap.DeepCopy | pkg/groups/groupmap.go:64-72 | The copy reads the same, shares no backing array with its source, and has no spare room. |
| GroupMaps.GroupMap.MergeInto | pkg/groups/groupmap.go:56-62 | The receiver, which may be the other map itself, is returned with the groups of both; groups of the other map end sorted and unique without spare room, the receiver's own other groups keep their slices. Unless append writes into room that another shown slice lies in, the former are the canonical unions, the latter read as before, and so does another map. |
| GroupMaps.MergedCopy | pkg/groups/groupmap.go:56-72 | Copying and then merging writes nothing that existed before, even if the two maps share arrays with spare room. |
| GroupMaps.SharedRoomIsOverwritten | pkg/groups/groupmap.go:58 | Without the copy, appending to one slice can change what another slice over the same array shows. |
| GroupMaps.RuntimeMergeRefinesStatic | pkg/groups/merged_test.go:26-57 | Runtime and static merge have the same members, empty groups are not found at run time, and the Name sequences agree iff the group is in the second map or already normalised in the first. |
| GroupMaps.RuntimeMatchesStaticIff | pkg/groups/merged_test.go:88-96 | For a group with members, every list the runtime merge may return is the list of the merged map iff distinct members have distinct Names and the group is in the second map or already normalised in the first. |
| GroupMaps.UnsortedReceiverDiffers | pkg/groups/groupmap.go:56-62 | An input on which the two merges return different lists. |
| Resolve.ResolveGroups | pkg/controller/controller.go:668-686 | The result is a map of exactly the declared groups that have members, each canonical, alone or merged in front of the upstream. |
| Resolve.StaticGroups | pkg/controller/controller.go:669-680 | Filling and then normalising the map yields for each group the canonical union of all its declarations. |
| Resolve.DeclaredIff | pkg/controller/controller.go:671-675 | Someone is declared in a group iff some membership entry of that group lists them. |
| Resolve.ResolvedLookup | pkg/controller/controller.go:668-686 | A successful lookup is the union of all declarations and the upstream's answer and is never empty; a real upstream error decides alone. |
| Resolve.OutageIsNotMasked | pkg/groups/merged.go:40-47 | An upstream answer of unknown membership is unknown for the config even when it declares members itself. |
| Resolve.DeclarationOrder | pkg/controller/controller.go:671-675 | Order and repetition of membership entries do not change what a group resolves to. |
| Api.CallsMean | pkg/controller/controller.go:481-499 | What update, create and delete do to the one object they name and what they reply, for every verdict and rule. |
| Api.ControlledByIff | pkg/controller/controller.go:446-455 | An object is controlled by the uid of the first of its owners that is marked as controller, and by no other. |
| Api.LabelLimits | pkg/controller/controller.go:434-438 | The limits of a label value: its length, its ends and its middle. |
| Reconcile.Controller.CreateOrUpdate | pkg/controller/controller.go:481-499 | Update first, create only when the update reports not-found; the reply is that of the last call made. |
| Reconcile.UpsertMeans | pkg/controller/controller.go:481-499 | An object that exists is updated and never created; a missing one is created, and only if the update has just reported it missing. |
| Reconcile.DecideMeans | pkg/controller/controller.go:347-394 | A namespaced config may refer to Role and ClusterRole, a cluster-wide one to ClusterRole only; each innermost error, empty list and active name leads to its own branch, and only what is left is written. |
| Reconcile.DesiredMeans | pkg/controller/controller.go:332-410 | The object that is written, owner reference, label and annotation with their values. |
| Reconcile.Controller.HandleBindings | pkg/controller/controller.go:341-432 | The binding loop's effect on server, active set and events, for every pattern of answers and verdicts. |
| Reconcile.Controller.Cleanup | pkg/controller/controller.go:445-476 | Whatever order the lister returns, exactly the listed, controlled, inactive objects whose deletion takes effect are gone, and each is reported. |
| Reconcile.Controller.HandleConfig | pkg/controller/controller.go:330-479 | The handler's effect is `Reconciled`, independent of listing order; it errs exactly when the cleanup cannot run, and then deletes nothing. |
| PostState.RunFactorsByName | pkg/controller/controller.go:343-476 | The exact post-state under any failures, lost replies and stale cache: each name ends as its own bindings left it, or deleted iff inactive, cached as owned and the delete took effect; all else is unchanged. |
| PostState.WrittenOnceAndKept | pkg/controller/controller.go:385-421 | A name is written successfully at most once in a run and then holds that binding's object at the end of the run. |
| PostState.ActiveMeans | pkg/controller/controller.go:365-372 | A name is active iff a binding of it was written successfully or is held for unknown membership. |
| PostState.UnwrittenPostState | pkg/controller/controller.go:412-476 | A name without an acknowledged write is deleted iff nothing holds it, the cache shows it as owned and the delete takes effect; otherwise it keeps its object or, if the reply of a write was lost, what that binding wrote. A failed write gives no protection. |
| PostState.BystandersUnchanged | pkg/controller/controller.go:445-458 | Objects of other scopes and namespaces, and objects neither asked for nor cached as owned, are never touched. |
| PostState.ChangesStayHome | pkg/controller/controller.go:338-400 | Whatever a run changes lies in the config's own namespace, or for a cluster-wide config in no namespace. |
| PostState.DeletedWasOwned | pkg/controller/controller.go:434-476 | Whatever a run deletes was cached with the config's name in the owner label and its uid in the first controlling owner, and the listing had worked. |
| PostState.WrittenIsOwned | pkg/controller/controller.go:396-410 | What a config writes is selected and controlled by it, and by no config of another name or uid. |
| PostState.LongNamesAreNotCleanedUp | pkg/controller/controller.go:434-438 | For a config name that is no label value the selector fails, and every key stored before the run is stored after it. |
| PostState.LongNamesChangeNothing | pkg/controller/controller.go:396-438 | Where the server checks labels, a run of such a config leaves the whole store as it was. |
| PostState.OneEventPerBinding | pkg/controller/controller.go:345-432 | With classified errors each binding is reported by exactly one event, in spec order, saying Configured iff it was written. |
| PostState.RoundReason | pkg/controller/controller.go:345-432 | Which event each binding causes, for every kind of role, innermost error, list of members and fate of the write. |
| PostState.ConfiguredEvents | pkg/controller/controller.go:421-431 | The Configured events name each successfully written binding once and nothing else. |
| PostState.CleanupEventsConserved | pkg/controller/controller.go:445-476 | Deleted events plus delete errors are as many as the listed, controlled, inactive bindings, one for each, and a missing object counts as deleted. |
| BindingNames.NamesCollideIff | pkg/controller/controller.go:357 | Two bindings of a config share a name iff group and role name agree or one group is the other extended by a dash part that the other's role name begins with. |
| BindingNames.NamesInjective | pkg/controller/controller.go:385-389 | Without '-' in role names, equal names mean equal group and equal role name. |
| BindingNames.NamesMeetIff | pkg/controller/controller.go:357 | Bindings of two configs share a name iff config names and the group-role parts agree, or one config name is the other extended by a dash part that the other binding's group-role part begins with. |
| BindingNames.ConfigsMeetIff | pkg/controller/controller.go:357 | Two configs can have bindings of one name iff their names are equal or one is the other extended by a dash part. |
| BindingNames.CollisionExample | pkg/controller/controller.go:357 | Two bindings with different groups and roles that get the same name, under every config. |
| Witnesses.SkipLosesAGrant | pkg/controller/controller.go:385-394 | A faultless run on an empty server in which the binding skipped as a duplicate grants another role: nothing stored afterwards is what it asked for. |
| Witnesses.ShadowedGrantIsMissing | pkg/controller/controller.go:365-394 | A config and an upstream with one group out: the binding of the other group, whose members are known, is not stored although the batch oracle wants it. |
| Witnesses.FailedWriteRevokes | pkg/controller/controller.go:412-476 | The update of an object fails without effect, and the same run deletes the object. |
| Witnesses.LostLabelLeaks | pkg/controller/controller.go:434-460 | A controlled but unlabelled object survives a faultless run of a config that wants nothing. |
| Witnesses.TeamsMeet | pkg/controller/controller.go:357 | Group dev-ops of config team and group ops of config team-dev get the same name for the same role. |
| Witnesses.EditedKindTakesTwoRuns | pkg/controller/controller.go:481-499 | After the kind of a role is edited, the first faultless run deletes the binding and the second one creates it. |
| Witnesses.LongNameGrantsNothing | pkg/controller/controller.go:396-421 | On a server that checks labels a faultless run of a config with a name of 64 characters stores nothing, although its target is not empty. |
| Witnesses.LongNameLeaks | pkg/controller/controller.go:434-438 | On a server that does not, such a config is granted its binding, which stays when the config asks for nothing any more. |
| BindingNames.DuplicatesAreAlike | pkg/controller/controller.go:386-410 | Equal bindings looked up with the same members ask for the same object up to order among equal Names. |
| Stabilise.CellFollowsOracle | pkg/controller/controller_test.go:734-791 | Without faults, a name that is neither shadowed nor refused follows the batch oracle, binding by binding. |
| Stabilise.Stabilises | pkg/controller/controller.go:330-479 | From any server state one fault-free reconcile with a current cache leaves exactly the oracle's target, the held objects, and everyone else's objects. |
| Stabilise.ReachesIff | pkg/controller/controller.go:330-479 | From any server state, a fault-free reconcile with a current cache reaches the target iff every wanted name that a held binding shadows already holds its object and no other wanted name holds an object whose roleRef the server refuses to change. |
| Stabilise.ControlledAreWantedIff | pkg/controller/controller.go:434-460 | After a fault-free reconcile with a current cache the objects controlled by the config are wanted or held iff every controlled but unwanted object still had its owner label. |
| Stabilise.SecondRunChangesNothingIff | pkg/controller/controller.go:424-427 | A second run with the same inputs, walked anew, adds, removes and changes nothing under a name, up to order among equal Names, unless the first run deleted a refused object there; then it creates the wanted one. |
| Stabilise.RefusedIsCleared | pkg/controller/controller.go:412-476 | An object whose roleRef the server refuses to change is deleted by the refused run iff the config owns it, it fits no other binding of the name, and no binding holds the name; if it fits none and is not deleted, it stays as it was. |
| Stabilise.RefusedMisses | pkg/controller/controller.go:481-499 | A run that meets a refused roleRef does not reach the target of that name, whatever calls fail. |
| Stabilise.TwoRunsConverge | pkg/controller/controller.go:481-499 | Against a server with fixed roleRefs two reconciles, the second over its own walks, reach the target iff every object in the way is owned, not held and fits no other binding, and every shadowed name already holds its object. |
| Runs.OutageSparesRound | pkg/controller/controller.go:365-372 | One reconcile during an outage of a group leaves that group's stored object unchanged. |
| Runs.FailingIsOutage | pkg/groups/grouper.go:46-60 | An upstream that fails with a timeout, a cancellation or an unknown error, in whatever messages, is in an outage. |
| Runs.DirectoryOutageSparesRound | pkg/groups/gsuite/grouper.go:120-172 | A directory without a client, or that breaks off for any reason but a missing group, leaves the stored object of the group as it is. |
| Runs.OutageSafety | pkg/controller/controller.go:359-375 | While a group's membership is unknown and the specs keep the binding, no sequence of reconciles, failures and stale caches alters or deletes its object, static members or not; other configs of the same namespace may run in between if they neither want the name nor see the object as theirs. |
| Runs.LongNamesAreNeverCleanedUp | pkg/controller/controller.go:434-438 | After any sequence of rounds of such configs, with bystanding rounds and outside changes of other keys in between, every stored key is still stored; where the server checks labels it is unchanged. |
| Runs.Provenance | pkg/controller/controller.go:345-412 | After any sequence of reconciles and outside changes, every object not put there by others has the name, namespace, owner reference, label, allowed kind and exactly the canonical non-empty members of one binding of one round. |
| Runs.RolesFit | pkg/controller/controller.go:347-356 | No sequence of reconciles leaves a cluster-wide binding to anything but a ClusterRole, or a namespaced one to anything but a Role or ClusterRole. |
| Sync.SyncConfig | pkg/controller/controller.go:330-479 | Resolving the groups once, looking every binding up and handling the config is one genuine round, to which all theorems about runs apply. |
| Sync.DeadBranches | pkg/controller/controller.go:359-383 | The "has no members" branch is never reached; the silent fall-through is reached iff the upstream fails with none of the four sentinels, which no grouper of the repository does. |
| Sync.NoLeaks | pkg/controller/controller_test.go:353-411 | A binding written by one round is deleted by a later fault-free round with a current cache once the config no longer asks for or holds its name. |
| Sync.RepeatedRound | pkg/controller/controller_test.go:200-204 | A fault-free round after a fault-free round against the same upstream deletes nothing; a name is alike before and after it iff the first round did not delete a refused object there, and the binding events are the same, in the same order, iff that happened under no name. |
| Sync.SkipIsHarmlessIff | pkg/controller/controller.go:385-394 | A binding skipped because its name was written, over an unchanged upstream, asked for the object that is stored after the round iff the two bindings of the spec are equal. |
| Sync.SkippedDuplicate | pkg/controller/controller.go:385-394 | With dash-free role names and one roleRef per group and role no skip does harm. |
| Reports.FaultFreeReport | pkg/controller/controller.go:345-432 | The events of a fault-free binding loop follow from the spec, the lookups and the stored roleRefs alone. |
| Reports.SecondRunRepeatsEvents | pkg/controller/controller_test.go:200-204 | In a second fault-free reconcile with the same inputs the cleanup finds nothing, and the binding events are those of the first iff the first deleted no refused object. |
| Interleave.CallsAddUp | pkg/controller/controller.go:330-479 | Issued one at a time, the API calls of a reconcile have exactly the effect of the handler. |
| Interleave.CallsCommute | pkg/controller/controller.go:188-228 | Next calls of two reconciles with disjoint footprints can be swapped: same replies seen, same store. |
| Interleave.Independence | pkg/controller/controller.go:188-228 | Two reconciles with disjoint footprints end in one server state in either order and under every interleaving of their calls, whatever calls fail. |
| Interleave.DifferentOwnersAreApart | pkg/controller/controller.go:445-460 | Two configs with different uids over one cache have disjoint footprints if neither wants a name the other wants or owns. |
| Interleave.DifferentHomesAreApart | pkg/controller/controller.go:501-646 | A namespaced and a cluster reconcile, and configs of different namespaces, always have disjoint footprints. |
| WorkQueue.RateLimitingQueue.Work | pkg/controller/controller.go:243-266 | The worker loop, while items arrive and the queue may be shut down: what was queued is taken first and in order, what arrives before the shutdown is taken after it arrived and nothing else is, every Get is matched by a Done, the handler is called for exactly the items that are keys, and without a shutdown the rate limiter has forgotten exactly the taken items. |
| Delivery.Notify | pkg/controller/controller.go:137-165 | The informer handlers change the queue exactly for added configs and updates with a new version, unless it is down or the key is delayed already. |
| Delivery.OnNoteMeans | pkg/controller/controller.go:137-165 | A removal and a resync leave the queue as it is; an addition and a real update delay the key. |
| Delivery.PollConfigs | pkg/controller/controller.go:302-314 | A poll delays every listed key, whatever the order and repetitions of the listing, unless the queue is down. |
| Delivery.PollIsItsSteps | pkg/controller/controller.go:302-314 | The single steps of a poll, uninterrupted, have the effect of the whole poll. |
| Delivery.PollWakesAll | pkg/controller/controller.go:298-314 | A poll may start whenever none is under way, and its steps leave every cached config delayed. |
| Delivery.NoLostChange | pkg/controller/controller.go:137-165 | In every state of every interleaving before shutdown, a cached config not handled at its version is noted, delayed, dirty, or in the hands of a worker that will handle this version. |
| Delivery.HandledByOne | pkg/controller/controller.go:245-264 | No key is ever in the hands of two workers; Gets exceed Dones by exactly the keys in processing. |
| Delivery.InternalStepsEnd | pkg/controller/controller.go:243-328 | Each of the controller's own steps uses up a measure, so without changes and polls they come to an end. |
| Delivery.CatchesUp | pkg/controller/controller.go:188-297 | Left to itself, in whatever order its steps come, the controller stops within the measure with every cached config handled at its version. |
| Delivery.OneChange | pkg/controller/controller.go:137-297 | A run from the first change of a config to rest, step by step, with one worker. |
| Delivery.DownIsFinal | pkg/controller/controller.go:173-174 | After the shutdown the queue stays down and nothing becomes dirty any more. |
| EndToEnd.OthersStayCarriedOut | pkg/controller/controller.go:445-460 | A reconcile of one config, whatever fails in it, leaves every other config of another uid and with no name in common carried out, unless its cache shows as its own what has become another's. |
| EndToEnd.RunIsSettled | pkg/controller/controller.go:188-297 | In every state of every interleaved run of changes, polls, resyncs, failing and clean reconciles, a config last handled at its cached version is carried out on the server if that last reconcile was clean. |
| EndToEnd.ComesToRest | pkg/controller/controller.go:188-297 | Once changes and polls stop, such a run makes at most as many further moves as the measure. |
| EndToEnd.RestMeansCarriedOut | pkg/controller/controller.go:188-297 | Where such a run rests before shutdown, every cached config whose last reconcile was clean is carried out: its target is stored, and it owns nothing else but held names. |
| EndToEnd.NamesKeepApart | pkg/controller/controller.go:357 | Configs elsewhere, or whose names do not extend each other by a dash part, want no name in common. |
| EndToEnd.SharedNameIsContested | pkg/controller/controller.go:396-421 | If two configs of different uids have a target under one name, no store carries both out. |

## Left out

- The Kubernetes API server, its garbage collection of deleted configs, and the label selector library are represented by the
  contract in `Api` only; other clients act between reconciles (`Runs.Outside`), not in the middle of one.
- OAuth, JWT, regular expressions and HTTP of the G Suite grouper: the match result, the page sequence and the state of the
  context are inputs.
- Flags, signals, metrics, logging and the text of events; events keep their reason and what they are about.
- Generated clients, informers and deep copies.
- Rate limits and poll periods: a delayed key is released at any time, and a poll may start whenever the last one is through.
- The cluster queue, which is a twin of the queue in `Delivery` except that `Run` never shuts it down, so that `Stop` has no
  counterpart there; and the choice between the two by object type in `enqueue`.
- A handler error is only logged and not retried by the queue; `Delivery` therefore counts a version as handled when its
  handler returns, with or without an error.
- Resource versions are natural numbers that grow with every change; Kubernetes only promises that they differ.
- In `Interleave` the lookups and the listing of a job are fixed inputs; a cache that changes during the run is represented by
  the cache as it is when it is listed. `Delivery` allows any number of workers; the controller starts one per queue.
- Error texts carry the formatted group name but not the cause's own text.
- Sorting is the insertion sort that Go's stable sort uses on short lists; the block merging of long lists is not modelled,
  because `Subjects.StableSortUnique` shows the result to be the same.
- In `EndToEnd` a reconcile takes effect when its worker is done; `Interleave` treats reconciles call by call.
- GroupMaps.GroupMap.MergeInto: where append would write into room that another shown slice lies in, who is in the merged
  groups is not stated, because it depends on the walk (`GroupMaps.SharedRoomIsOverwritten`).
- WorkQueue.RateLimitingQueue.Work: the delay of an arriving item passes while the item in hand is being handled; delays that
  end at other times are in `Delivery`.
