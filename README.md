# DLM control daemon: cman membership reconciliation

A Dafny model of `group/dlm_controld/member_cman.c`, the part of the DLM
control daemon that follows cluster membership through the cman library.
The daemon keeps two node lists: the list from the previous pass and the
current one. On every cman state change it fetches a new list. It removes
the configfs node directory of every node that stopped being a member, and
it creates one for every node that became a member, flagged local for the
daemon's own node. When cman asks whether the cluster may shut down, the
daemon refuses while any lockspace other than `gfs_controld`'s is active.
`process_member` drains the events cman has ready, and `setup_member`
connects to cman and runs one forced pass.

Files, one module each:

- `cman_types.dfy` (`CmanTypes`): node records, callback reasons, what the
  library calls return, and the effects the daemon causes.
- `node_list.dfy` (`NodeList`): the first-match scans `is_member` and
  `find_cman_node`, and their specification `FindFirst`.
- `reconcile.dfy` (`Reconcile`): the removals and additions of one pass.
  It also holds the Left and Joined id sets and the effect of a pass on the
  set of configfs entries.
- `shutdown_vote.dfy` (`ShutdownVote`): `strncmp`-based exemption and the
  shutdown vote.
- `member_cman.dfy` (`MemberCman`): the file's static state as the class
  `CmanMembership`, with arrays of `MAX_NODES` slots, counts, the pending
  callback flag and reason, and the local node id. It also holds the
  abstract `State` and the step functions `StatechangeStep`,
  `CallbackStep`, `ProcessCallbackStep`, `Drain` and `SetupStep`. Every
  state-changing method ensures `Abs() == Step(old(Abs()), inputs)`, and
  lemmas about the step functions give the properties.

The cman library is modelled as inputs:

- `Fetch` is what `cman_get_nodes` reports.
- `DispatchStep` is one `cman_dispatch`: the callback it ran, its return
  value and errno.
- `SetupReplies` holds the answers to `setup_member`'s calls.

The configfs calls, the shutdown reply and the handle teardown are appended
to the ghost `trace`, oldest first. `Apply` reads a trace as the set of node
ids that have a configfs entry.

Proved behaviour worth knowing:

- With unique ids in both lists, a pass takes configfs from the previous
  members' entries to exactly the current members' entries
  (`PassReconciles`). Draining events keeps that true as long as every
  `cman_get_nodes` during the drain succeeds and reports unique ids
  (`DrainKeepsSync`). A single failed `cman_get_nodes` breaks it: the
  current list is emptied while every member keeps its configfs entry
  (`FailedFetchLosesSync`).
- When `cman_get_nodes` fails, the previous list has already been replaced
  and the current one emptied. The next successful pass therefore removes
  nothing and re-adds every member. A node that left during the failure
  keeps its configfs entry (`RecoveryKeepsStaleEntries`).
- Uniqueness of ids in either list is enough for no id to be both removed
  and added in one pass. With the same id repeated in both lists, a pass over
  an unchanged list removes and re-adds it (`DuplicateIdsChurn`).

The model follows what `member_cman.c` does, not an idealised design, on
these points:

- The shutdown vote is taken inside the cman callback, during dispatch. The
  drain loop does not route it.
- The exempt prefix is the fixed 12 characters `gfs_controld`. It is not
  configurable.
- A failed fetch is not free of effects. It rotates the lists, with the
  consequence above.
- Ids are not checked for uniqueness.
- A callback left pending by a failed dispatch is processed by the next
  `process_member` call.

## Model

| member | source | states |
|---|---|---|
| `NodeList.FindFirst` | group/dlm_controld/member_cman.c:52-56 | the result is the index of the first entry with the id, with no earlier entry matching; None exactly when no entry matches |
| `NodeList.IsMember` | group/dlm_controld/member_cman.c:27-36 | the loop returns true exactly when the first of the first `count` entries with the id is a member; false when none matches |
| `NodeList.FindNode` | group/dlm_controld/member_cman.c:48-57 | the loop returns the slot of the first entry with the id within `count`, or None (NULL) |
| `NodeList.FindUnique` | group/dlm_controld/member_cman.c:31-34 | with unique ids, looking up an entry's own id finds that entry and returns its member flag |
| `NodeList.MemberOfUnique` | group/dlm_controld/member_cman.c:27-36 | with unique ids, the first-match flag holds exactly when some entry with the id is a member |
| `MemberCman.CmanMembership.IsOldMember` | group/dlm_controld/member_cman.c:38-41 | is_member over the previous list and its count |
| `MemberCman.CmanMembership.IsCmanMember` | group/dlm_controld/member_cman.c:43-46 | is_member over the current list and its count |
| `MemberCman.CmanMembership.FindCmanNode` | group/dlm_controld/member_cman.c:48-57 | the slot of the first current entry with the id, within the count, or None |
| `MemberCman.CmanMembership.NodeidToName` | group/dlm_controld/member_cman.c:59-67 | the first current entry's name, and None (NULL) exactly when no current entry has the id |
| `MemberCman.CmanMembership.constructor` | group/dlm_controld/member_cman.c:16-23 | the zeroed statics: empty lists, no pending callback, reason 0, node id 0 |
| `MemberCman.CmanMembership.Statechange` | group/dlm_controld/member_cman.c:72-112 | previous := old current (the whole buffer is copied); current := the fetched list, or empty with no calls when the fetch fails; otherwise the removals and then the additions of the pass are appended |
| `MemberCman.CmanMembership.SaveCurrent` | group/dlm_controld/member_cman.c:76-77 | the previous buffer and count become copies of the current ones |
| `MemberCman.CmanMembership.ClearCurrent` | group/dlm_controld/member_cman.c:79-80 | the current count is 0 and every slot is zeroed |
| `MemberCman.CmanMembership.FillCurrent` | group/dlm_controld/member_cman.c:81 | after a successful fetch the current list is the reported list |
| `MemberCman.CmanMembership.RunPass` | group/dlm_controld/member_cman.c:81-111 | after a successful fetch the current list is the reported one, the previous list is kept, and the pass's removals followed by its additions are appended |
| `MemberCman.CmanMembership.IssueRemovals` | group/dlm_controld/member_cman.c:87-96 | the first loop appends exactly `Removals(previous, current)` |
| `MemberCman.CmanMembership.IssueAdditions` | group/dlm_controld/member_cman.c:98-111 | the second loop appends exactly `Additions(previous, current, local_nodeid)` |
| `MemberCman.CmanMembership.ClearPrevious` | group/dlm_controld/member_cman.c:210-211 | the previous count is 0 and every slot is zeroed |
| `MemberCman.CmanMembership.ProcessCallback` | group/dlm_controld/member_cman.c:114-123 | a state change runs statechange; every other reason changes nothing |
| `MemberCman.CmanMembership.MemberCallback` | group/dlm_controld/member_cman.c:125-145 | sets the pending flag and reason; on a shutdown request exactly one reply is appended, approving exactly when every lockspace is exempt |
| `MemberCman.CmanMembership.ProcessMember` | group/dlm_controld/member_cman.c:147-170 | the new state is that of `Drain`; the result is Exit(1) when `Drain` ends fatally and Return(0) otherwise |
| `MemberCman.CmanMembership.SetupMember` | group/dlm_controld/member_cman.c:172-220 | returns -ENOTCONN, the notification error or the get_node error in the fd slot, each with its teardown; on success the state of `SetupStep` and the descriptor |
| `Reconcile.RemovalsSpec` | group/dlm_controld/member_cman.c:87-96 | only removals are issued, and Remove(id) is issued exactly when some previous entry with the id was a member and the id is not a member now |
| `Reconcile.RemovalsOnce` | group/dlm_controld/member_cman.c:87-96 | with unique previous ids, each id that was a member and is not any more is removed once; every other id is never removed |
| `Reconcile.AdditionsSpec` | group/dlm_controld/member_cman.c:98-111 | every add call is that of a current member entry that was not a member before, with its address, length and local flag; every such entry gets one |
| `Reconcile.AdditionsOnce` | group/dlm_controld/member_cman.c:98-111 | with unique current ids, each joining entry is added exactly once and no other add carries its id |
| `Reconcile.RemovalsBeforeAdditions` | group/dlm_controld/member_cman.c:87-111 | in a pass every removal precedes every addition, and nothing else is issued |
| `Reconcile.NoIdRemovedAndAdded` | group/dlm_controld/member_cman.c:87-111 | if either list has unique ids, no id is both removed and added in one pass |
| `Reconcile.NoneLeave` | group/dlm_controld/member_cman.c:87-96 | when no previous entry leaves, nothing is removed |
| `Reconcile.NoneJoin` | group/dlm_controld/member_cman.c:98-111 | when no current entry joins, nothing is added |
| `Reconcile.StableListNoEffects` | group/dlm_controld/member_cman.c:87-111 | replaying a pass over an unchanged list with unique ids issues no call |
| `Reconcile.FromEmptyAddsAllMembers` | group/dlm_controld/member_cman.c:98-111 | against an empty previous list nothing is removed and exactly the member entries are added |
| `Reconcile.DuplicateIdsChurn` | group/dlm_controld/member_cman.c:87-111 | with one id repeated in both lists, first as non-member and then as member, an unchanged list is removed and re-added |
| `Reconcile.DiffSets` | group/dlm_controld/member_cman.c:87-111 | with unique ids, Left holds exactly the ids that were members and are not, and Joined exactly those that are members and were not |
| `Reconcile.ApplyAppend` | group/dlm_controld/member_cman.c:87-111 | configfs calls applied in two runs give the same entries as applied in one |
| `Reconcile.ApplyRemovals` | group/dlm_controld/member_cman.c:87-96 | the removals of a pass delete exactly the entries of the Left ids |
| `Reconcile.ApplyAdditions` | group/dlm_controld/member_cman.c:98-111 | the additions of a pass create exactly the entries of the Joined ids |
| `Reconcile.PassOnRegistry` | group/dlm_controld/member_cman.c:87-111 | a pass turns any set of entries R into (R - Left) + Joined |
| `Reconcile.PassReconciles` | group/dlm_controld/member_cman.c:69-111 | with unique ids, a pass takes the previous members' entries to exactly the current members' entries |
| `Reconcile.MemberIdsAreMembers` | group/dlm_controld/member_cman.c:27-36 | with unique ids, an id is in the member ids exactly when its lookup says member |
| `ShutdownVote.Vote` | group/dlm_controld/member_cman.c:136-143 | the loop approves exactly when every lockspace is exempt |
| `ShutdownVote.StrnEqualFromMatches` | group/dlm_controld/member_cman.c:137 | for NUL-free strings, the strncmp loop from position i succeeds exactly when the characters from i to the prefix length agree |
| `ShutdownVote.StrnEqualIsPrefix` | group/dlm_controld/member_cman.c:137 | for NUL-free strings, strncmp over the prefix length is zero exactly when the prefix starts the name |
| `ShutdownVote.ExemptIffPrefix` | group/dlm_controld/member_cman.c:137 | a NUL-free lockspace name is exempt exactly when its first 12 characters are `gfs_controld` |
| `ShutdownVote.OneForeignLockspaceVetoes` | group/dlm_controld/member_cman.c:136-142 | one non-exempt name anywhere in the list makes the vote a refusal |
| `MemberCman.FailedFetchThenRecovery` | group/dlm_controld/member_cman.c:76-85 | after a failed fetch the next successful pass diffs against an empty list: it removes nothing and adds exactly every member |
| `MemberCman.RecoveryKeepsStaleEntries` | group/dlm_controld/member_cman.c:76-111 | after a failed fetch and a successful one, configfs holds the members from before the failure plus the current ones |
| `MemberCman.StatechangeKeepsSync` | group/dlm_controld/member_cman.c:72-112 | a successful pass over a unique-id list keeps configfs equal to the current members |
| `MemberCman.SetupPopulatesRegistry` | group/dlm_controld/member_cman.c:202-217 | a successful setup returns the descriptor, records our id, clears configfs, and then adds exactly every member, flagging our own entry local; it removes nothing |
| `MemberCman.SetupSyncs` | group/dlm_controld/member_cman.c:204-217 | whatever configfs held, a successful setup leaves exactly the reported members' entries |
| `MemberCman.DrainStopsAtFirstStop` | group/dlm_controld/member_cman.c:151-168 | the drain runs the dispatches up to the first one that fails or leaves nothing pending; it is fatal exactly when that one returned -1 with EHOSTDOWN; a callback stays pending only after a failed dispatch; node id kept, effects only appended |
| `MemberCman.DrainWithoutStateChange` | group/dlm_controld/member_cman.c:114-123 | a drain that delivers no state change keeps both lists and appends only shutdown replies |
| `MemberCman.DrainKeepsSync` | group/dlm_controld/member_cman.c:147-170 | as long as every `cman_get_nodes` during the drain succeeds and reports unique ids, draining keeps configfs equal to the current members |
| `MemberCman.FailedFetchLosesSync` | group/dlm_controld/member_cman.c:79-85 | from a state where configfs matches the current members, a failed `cman_get_nodes` empties the current list while every member's entry stays, so they no longer match |

## Left out

- The cman library itself is out of the model: `cman_init`, `cman_start_notification`, `cman_get_fd`, `cman_get_node`, `cman_get_nodes`, `cman_dispatch`, `cman_replyto_shutdown`, `cman_stop_notification` and `cman_finish`. Their answers are inputs, and the calls that only have effects are trace events.
- The handle `ch` is not kept. Only whether `cman_init` gave one matters to the code.
- A failed `cman_get_nodes` is taken to leave the zeroed buffer and the count of 0 untouched.
- A successful `cman_get_nodes` never reports more than `MAX_NODES` entries (`FitsCapacity`), since it is told the buffer size.
- configfs is not modelled. `add_configfs_node`, `del_configfs_node` and `clear_configfs` are trace events. Their own failures are ignored by the source and not modelled.
- Node addresses are opaque byte sequences plus the reported length. Their contents are never inspected.
- `log_debug`, `log_error` and errno are out of the model, except the errno of a failed dispatch, which decides the EHOSTDOWN exit.
- `exit(1)` is the result `Exit(1)` rather than process termination.
- The callback function pointer is replaced by the reason each dispatch delivers. `member_callback` is invoked from the modelled dispatch.
- `nodeid2name` returns a pointer into the static `cman_nodes` buffer, which the next `statechange` zeroes and refills. `NodeidToName` returns a copy of the name, so that aliasing is not modelled.
- Of the lockspace list only the names are used, in list order.
- Node ids are unbounded integers. The source's 32-bit `int` is only compared for equality, so its width does not matter.
- `MAX_NODES` (256) comes from `dlm_daemon.h`, and the reasons come from `libcman.h`. Neither header is part of this model. `ENOTCONN` (107) and `EHOSTDOWN` (112) are the Linux values.
- `MemberCman.CmanMembership.ProcessMember`: requires that some dispatch in the script ends the loop (`Terminates`). The source keeps looping for as long as cman keeps delivering callbacks.
