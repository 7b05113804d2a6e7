/**
 * The membership code of the DLM control daemon (member_cman.c): it keeps
 * the previous and the current cman node list, turns each cman state change
 * into configfs removals and additions, answers cman shutdown requests, and
 * drains cman events one at a time.
 *
 * The file's static variables become the fields of CmanMembership. Calls
 * into libcman are inputs (Fetch, DispatchStep, SetupReplies) and their
 * effects on configfs and on cman are appended to the ghost `trace`.
 * `State` is the abstract value of the object, and the *Step functions and
 * Drain say what each operation does to it; lemmas about them follow.
 */
module MemberCman {
  import opened CmanTypes
  import opened NodeList
  import opened Reconcile
  import opened ShutdownVote

  /** The abstract state: both node lists, the pending callback, our node id, the effects so far. */
  datatype State = State(
    previous: seq<Node>, current: seq<Node>,
    cb: bool, reason: Reason, localNodeid: int,
    trace: seq<Effect>)

  /** How process_member ends: it returns 0, or the process exits with status 1. */
  datatype Completion = Return(value: int) | Exit(status: int)

  /** The result of draining: the final state, whether the cluster is down, how many dispatches ran. */
  datatype DrainOutcome = DrainOutcome(state: State, fatal: bool, consumed: nat)

  /** The result of setup_member: the new state and the returned descriptor or error. */
  datatype SetupOutcome = SetupOutcome(state: State, rv: int)

  /**
   * statechange: the current list becomes the previous one; then, if cman
   * reports the node list, that list becomes current and the pass's
   * removals and additions are issued; if it does not, current stays empty
   * and nothing is issued.
   */
  function StatechangeStep(s: State, fetched: Fetch): State
  {
    match fetched
    case FetchFailed => s.(previous := s.current, current := [])
    case FetchOk(nodes) =>
      s.(previous := s.current, current := nodes,
         trace := s.trace + PassEffects(s.current, nodes, s.localNodeid))
  }

  /** process_cman_callback: only a state change does anything. */
  function ProcessCallbackStep(s: State, fetched: Fetch): State
  {
    if s.reason == StateChange then StatechangeStep(s, fetched) else s
  }

  /**
   * member_callback: note the pending callback and its reason; on a
   * shutdown request, reply once, approving only if every lockspace is exempt.
   */
  function CallbackStep(s: State, reason: Reason, lockspaces: seq<string>): State
  {
    s.(cb := true, reason := reason,
       trace := s.trace + if reason == TryShutdown then [ShutdownReply(AllExempt(lockspaces))] else [])
  }

  /** The drain loop breaks after a dispatch that fails or leaves no callback pending. */
  predicate Stops(cb: bool, step: DispatchStep)
  {
    step.rv < 0 || (!cb && step.callback.None?)
  }

  /** Some dispatch of the script ends the drain loop, given whether a callback is pending. */
  predicate Terminates(cb: bool, steps: seq<DispatchStep>)
    decreases |steps|
  {
    |steps| > 0 && (Stops(cb, steps[0]) || Terminates(false, steps[1..]))
  }

  /** Whether a callback is pending before dispatch j of a drain that started with `cb`. */
  function PendingBefore(cb: bool, j: nat): bool
  {
    j == 0 && cb
  }

  /**
   * process_member: dispatch one event at a time; each pending callback is
   * cleared and processed; stop at the first dispatch that fails or leaves
   * nothing pending; a failure of -1 with EHOSTDOWN is fatal.
   */
  function Drain(s: State, steps: seq<DispatchStep>, lockspaces: seq<string>): DrainOutcome
    requires Terminates(s.cb, steps)
    decreases |steps|
  {
    var step := steps[0];
    var s1 := if step.callback.Some? then CallbackStep(s, step.callback.value, lockspaces) else s;
    if step.rv < 0 then DrainOutcome(s1, step.rv == -1 && step.errno == EHOSTDOWN, 1)
    else if !s1.cb then DrainOutcome(s1, false, 1)
    else
      var r := Drain(ProcessCallbackStep(s1.(cb := false), step.fetched), steps[1..], lockspaces);
      r.(consumed := r.consumed + 1)
  }

  /**
   * setup_member: connect, register for notifications, get the descriptor
   * and our own node; on success clear configfs, empty both lists and run
   * one forced state-change pass.
   */
  function SetupStep(s: State, replies: SetupReplies): SetupOutcome
  {
    if !replies.initOk then SetupOutcome(s, -ENOTCONN)
    else if replies.notifyRv < 0 then SetupOutcome(s.(trace := s.trace + [Finish]), replies.notifyRv)
    else if replies.getNodeRv < 0 then
      SetupOutcome(s.(trace := s.trace + [StopNotification, Finish]), replies.getNodeRv)
    else
      var primed := s.(localNodeid := replies.us.id, previous := [], current := [],
                       reason := StateChange, trace := s.trace + [ClearAll]);
      SetupOutcome(ProcessCallbackStep(primed, replies.fetched), replies.fd)
  }

  /**
   * The fetch-failure quirk: a failed cman_get_nodes leaves the current
   * list empty, so the next successful pass diffs against an empty previous
   * list. It removes nothing and re-adds every member, whatever was known
   * before the failure.
   */
  lemma FailedFetchThenRecovery(s: State, nodes: seq<Node>)
    ensures var t := StatechangeStep(StatechangeStep(s, FetchFailed), FetchOk(nodes));
      && t.previous == [] && t.current == nodes
      && |s.trace| <= |t.trace| && t.trace[..|s.trace|] == s.trace
      && AddsExactlyMembers(t.trace[|s.trace|..], nodes, s.localNodeid)
  {
    var t := StatechangeStep(StatechangeStep(s, FetchFailed), FetchOk(nodes));
    FromEmptyAddsAllMembers(nodes, s.localNodeid);
    assert t.trace == s.trace + Additions([], nodes, s.localNodeid);
    assert t.trace[|s.trace|..] == Additions([], nodes, s.localNodeid);
  }

  /**
   * A successful setup_member returns the descriptor, records our node id,
   * clears configfs first and then adds every member cman reports, with the
   * local flag on our own entry, and removes nothing.
   */
  lemma SetupPopulatesRegistry(s: State, replies: SetupReplies)
    requires replies.initOk && replies.notifyRv >= 0 && replies.getNodeRv >= 0
    requires replies.fetched.FetchOk?
    ensures var o := SetupStep(s, replies);
      && o.rv == replies.fd && o.state.localNodeid == replies.us.id
      && o.state.previous == [] && o.state.current == replies.fetched.nodes
      && |s.trace| < |o.state.trace| && o.state.trace[..|s.trace| + 1] == s.trace + [ClearAll]
      && AddsExactlyMembers(o.state.trace[|s.trace| + 1..], replies.fetched.nodes, replies.us.id)
  {
    var o := SetupStep(s, replies);
    var nodes, us := replies.fetched.nodes, replies.us.id;
    FromEmptyAddsAllMembers(nodes, us);
    assert o.state.trace == s.trace + [ClearAll] + Additions([], nodes, us);
    assert o.state.trace[|s.trace| + 1..] == Additions([], nodes, us);
  }

  /**
   * The drain loop runs the dispatches up to and including the first one
   * that fails or leaves no callback pending, and no further; the process
   * exits exactly when that dispatch failed with -1 and EHOSTDOWN; a
   * callback is left pending only after a failed dispatch; our node id is
   * untouched and effects are only ever appended.
   */
  lemma {:induction false} DrainStopsAtFirstStop(s: State, steps: seq<DispatchStep>, lockspaces: seq<string>)
    requires Terminates(s.cb, steps)
    ensures var r := Drain(s, steps, lockspaces);
      && 1 <= r.consumed <= |steps|
      && (forall j | 0 <= j < r.consumed - 1 :: !Stops(PendingBefore(s.cb, j), steps[j]))
      && Stops(PendingBefore(s.cb, r.consumed - 1), steps[r.consumed - 1])
      && (r.fatal <==> steps[r.consumed - 1].rv == -1 && steps[r.consumed - 1].errno == EHOSTDOWN)
      && (r.state.cb ==> steps[r.consumed - 1].rv < 0)
      && r.state.localNodeid == s.localNodeid
      && s.trace <= r.state.trace
    decreases |steps|
  {
    var step := steps[0];
    var s1 := if step.callback.Some? then CallbackStep(s, step.callback.value, lockspaces) else s;
    if step.rv >= 0 && s1.cb {
      var s2 := ProcessCallbackStep(s1.(cb := false), step.fetched);
      var rest := steps[1..];
      DrainStopsAtFirstStop(s2, rest, lockspaces);
      var r := Drain(s, steps, lockspaces);
      var r2 := Drain(s2, rest, lockspaces);
      assert r == r2.(consumed := r2.consumed + 1);
      forall j | 0 <= j < r.consumed - 1 ensures !Stops(PendingBefore(s.cb, j), steps[j]) {
        if j > 0 {
          assert steps[j] == rest[j - 1];
        }
      }
      assert steps[r.consumed - 1] == rest[r2.consumed - 1];
    }
  }

  /**
   * Events other than a state change never touch the node lists: a drain
   * in which no dispatch delivers a state change (and none is pending)
   * keeps both lists and only appends shutdown replies.
   */
  lemma {:induction false} DrainWithoutStateChange(s: State, steps: seq<DispatchStep>, lockspaces: seq<string>)
    requires Terminates(s.cb, steps)
    requires !(s.cb && s.reason == StateChange)
    requires forall j | 0 <= j < |steps| :: steps[j].callback != Some(StateChange)
    ensures var r := Drain(s, steps, lockspaces);
      && r.state.previous == s.previous && r.state.current == s.current
      && |s.trace| <= |r.state.trace| && r.state.trace[..|s.trace|] == s.trace
      && (forall i | |s.trace| <= i < |r.state.trace| :: r.state.trace[i].ShutdownReply?)
    decreases |steps|
  {
    var step := steps[0];
    var s1 := if step.callback.Some? then CallbackStep(s, step.callback.value, lockspaces) else s;
    assert |s.trace| <= |s1.trace| && s1.trace[..|s.trace|] == s.trace;
    assert forall i | |s.trace| <= i < |s1.trace| :: s1.trace[i].ShutdownReply?;
    if step.rv >= 0 && s1.cb {
      var s2 := ProcessCallbackStep(s1.(cb := false), step.fetched);
      assert s2 == s1.(cb := false);
      var rest := steps[1..];
      assert forall j | 0 <= j < |rest| :: rest[j] == steps[j + 1];
      DrainWithoutStateChange(s2, rest, lockspaces);
      var r2 := Drain(s2, rest, lockspaces);
      assert r2.state.trace[..|s1.trace|][..|s.trace|] == r2.state.trace[..|s.trace|];
    }
  }

  /**
   * configfs holds exactly the entries of the current members, given the
   * entries `reg0` it held before the first recorded effect, and the
   * current list has unique ids.
   */
  ghost predicate InSync(s: State, reg0: set<int>)
  {
    Apply(reg0, s.trace) == MemberIds(s.current) && UniqueIds(s.current)
  }

  /** A successful pass over a list with unique ids keeps configfs in step with the members. */
  lemma StatechangeKeepsSync(s: State, nodes: seq<Node>, reg0: set<int>)
    requires InSync(s, reg0) && UniqueIds(nodes)
    ensures InSync(StatechangeStep(s, FetchOk(nodes)), reg0)
  {
    ApplyAppend(reg0, s.trace, PassEffects(s.current, nodes, s.localNodeid));
    PassReconciles(s.current, nodes, s.localNodeid);
  }

  /**
   * The cost of the fetch-failure quirk: after a failed fetch and a
   * successful one, configfs holds the entries of the members from before
   * the failure as well as the current ones, so a node that left in
   * between keeps its entry.
   */
  lemma RecoveryKeepsStaleEntries(s: State, nodes: seq<Node>, reg0: set<int>)
    requires Apply(reg0, s.trace) == MemberIds(s.current)
    ensures var t := StatechangeStep(StatechangeStep(s, FetchFailed), FetchOk(nodes));
      Apply(reg0, t.trace) == MemberIds(s.current) + MemberIds(nodes)
  {
    var local := s.localNodeid;
    ApplyAppend(reg0, s.trace, PassEffects([], nodes, local));
    PassOnRegistry(MemberIds(s.current), [], nodes, local);
    assert LeftIds([], nodes) == {};
    assert JoinedIds([], nodes) == MemberIds(nodes);
  }

  /**
   * Whatever configfs held before, a successful setup_member leaves
   * exactly the entries of the members cman reports.
   */
  lemma SetupSyncs(s: State, replies: SetupReplies, reg0: set<int>)
    requires replies.initOk && replies.notifyRv >= 0 && replies.getNodeRv >= 0
    requires replies.fetched.FetchOk? && UniqueIds(replies.fetched.nodes)
    ensures InSync(SetupStep(s, replies).state, reg0)
  {
    var nodes, us := replies.fetched.nodes, replies.us.id;
    var o := SetupStep(s, replies);
    assert o.state.trace == (s.trace + [ClearAll]) + PassEffects([], nodes, us);
    ApplyAppend(reg0, s.trace + [ClearAll], PassEffects([], nodes, us));
    ApplyAppend(reg0, s.trace, [ClearAll]);
    assert [ClearAll][1..] == [];
    assert Apply(reg0, s.trace + [ClearAll]) == {} == MemberIds([]);
    PassReconciles([], nodes, us);
  }

  /**
   * A failed cman_get_nodes breaks the agreement: the current list is
   * emptied without any del_configfs_node call, so every member's entry
   * outlives its place in the lists.
   */
  lemma FailedFetchLosesSync(s: State, reg0: set<int>, k: nat)
    requires InSync(s, reg0) && k < |s.current| && s.current[k].member
    ensures StatechangeStep(s, FetchFailed).current == []
    ensures s.current[k].id in Apply(reg0, StatechangeStep(s, FetchFailed).trace)
    ensures !InSync(StatechangeStep(s, FetchFailed), reg0)
  {
    assert s.current[k].id in MemberIds(s.current);
  }

  /**
   * As long as every cman_get_nodes during the drain succeeds and reports
   * unique ids, draining events keeps configfs in step with the current
   * members: shutdown
   * replies and other reasons do not disturb it and every state change
   * re-establishes it.
   */
  lemma {:induction false} DrainKeepsSync(s: State, steps: seq<DispatchStep>, lockspaces: seq<string>, reg0: set<int>)
    requires Terminates(s.cb, steps) && InSync(s, reg0)
    requires forall j | 0 <= j < |steps| :: steps[j].fetched.FetchOk? && UniqueIds(steps[j].fetched.nodes)
    ensures InSync(Drain(s, steps, lockspaces).state, reg0)
    decreases |steps|
  {
    var step := steps[0];
    var s1 := if step.callback.Some? then CallbackStep(s, step.callback.value, lockspaces) else s;
    if step.callback == Some(TryShutdown) {
      var reply := [ShutdownReply(AllExempt(lockspaces))];
      ApplyAppend(reg0, s.trace, reply);
      assert reply[1..] == [];
      assert s1.trace == s.trace + reply;
      assert Apply(Apply(reg0, s.trace), reply) == Apply(reg0, s.trace);
    } else {
      assert s1.trace == s.trace;
    }
    assert InSync(s1, reg0);
    if step.rv >= 0 && s1.cb {
      var s2 := ProcessCallbackStep(s1.(cb := false), step.fetched);
      if s1.reason == StateChange {
        StatechangeKeepsSync(s1.(cb := false), step.fetched.nodes, reg0);
      }
      var rest := steps[1..];
      assert forall j | 0 <= j < |rest| :: rest[j] == steps[j + 1];
      DrainKeepsSync(s2, rest, lockspaces, reg0);
    }
  }

  /** The static state of member_cman.c. */
  class CmanMembership {
    const oldNodes: array<Node>
    var oldNodeCount: int
    const cmanNodes: array<Node>
    var cmanNodeCount: int
    var cmanCb: bool
    var cmanReason: Reason
    var localNodeid: int
    /** configfs and cman calls made so far, oldest first */
    ghost var trace: seq<Effect>

    /** Both buffers hold MAX_NODES slots; slots past each count are zeroed. */
    ghost predicate Valid()
      reads this, oldNodes, cmanNodes
    {
      && oldNodes != cmanNodes
      && oldNodes.Length == MAX_NODES && cmanNodes.Length == MAX_NODES
      && 0 <= oldNodeCount <= MAX_NODES && 0 <= cmanNodeCount <= MAX_NODES
      && (forall i | oldNodeCount <= i < MAX_NODES :: oldNodes[i] == ZERO_NODE)
      && (forall i | cmanNodeCount <= i < MAX_NODES :: cmanNodes[i] == ZERO_NODE)
    }

    ghost function Previous(): seq<Node>
      reads this, oldNodes
      requires 0 <= oldNodeCount <= oldNodes.Length
    {
      oldNodes[..oldNodeCount]
    }

    ghost function Current(): seq<Node>
      reads this, cmanNodes
      requires 0 <= cmanNodeCount <= cmanNodes.Length
    {
      cmanNodes[..cmanNodeCount]
    }

    ghost function Abs(): State
      reads this, oldNodes, cmanNodes
      requires Valid()
    {
      State(Previous(), Current(), cmanCb, cmanReason, localNodeid, trace)
    }

    /** The zero-initialised statics before setup_member runs. */
    constructor ()
      ensures Valid() && fresh(oldNodes) && fresh(cmanNodes)
      ensures Abs() == State([], [], false, PortClosed, 0, [])
    {
      oldNodes := new Node[MAX_NODES](_ => ZERO_NODE);
      cmanNodes := new Node[MAX_NODES](_ => ZERO_NODE);
      oldNodeCount, cmanNodeCount := 0, 0;
      cmanCb, cmanReason, localNodeid := false, PortClosed, 0;
      trace := [];
    }

    /** is_old_member: the member flag of the first previous entry with this id. */
    method IsOldMember(nodeid: int) returns (b: bool)
      requires Valid()
      ensures b == MemberOf(Previous(), nodeid)
    {
      b := IsMember(oldNodes, oldNodeCount, nodeid);
    }

    /** is_cman_member: the member flag of the first current entry with this id. */
    method IsCmanMember(nodeid: int) returns (b: bool)
      requires Valid()
      ensures b == MemberOf(Current(), nodeid)
    {
      b := IsMember(cmanNodes, cmanNodeCount, nodeid);
    }

    /** find_cman_node: the slot of the first current entry with this id, or None for NULL. */
    method FindCmanNode(nodeid: int) returns (r: Option<nat>)
      requires Valid()
      ensures r.Some? ==> r.value < cmanNodeCount && cmanNodes[r.value].id == nodeid
      ensures r == FindFirst(Current(), nodeid)
    {
      r := FindNode(cmanNodes, cmanNodeCount, nodeid);
    }

    /** nodeid2name: the name of the first current entry with this id, or None for NULL. */
    method NodeidToName(nodeid: int) returns (name: Option<string>)
      requires Valid()
      ensures name == NameOf(Current(), nodeid)
      ensures name.None? <==> forall j | 0 <= j < cmanNodeCount :: cmanNodes[j].id != nodeid
    {
      var cn := FindCmanNode(nodeid);
      if cn.None? {
        return None;
      }
      return Some(cmanNodes[cn.value].name);
    }

    /**
     * statechange: copy the current buffer over the previous one, zero the
     * current one and ask cman for the node list; then issue the removals in
     * the order of the previous list and the additions in the order of the
     * new one.
     */
    method Statechange(fetched: Fetch)
      requires Valid() && FitsCapacity(fetched)
      modifies this, oldNodes, cmanNodes
      ensures Valid()
      ensures Abs() == StatechangeStep(old(Abs()), fetched)
      ensures oldNodes[..] == old(cmanNodes[..])
    {
      SaveCurrent();
      ghost var saved := oldNodes[..];
      ClearCurrent();
      if fetched.FetchOk? {
        RunPass(fetched.nodes);
      }
      assert oldNodes[..] == saved;
    }

    /**
     * The branch of statechange after a successful cman_get_nodes: the
     * reported list is in the buffer, then the removal loop and the
     * addition loop run.
     */
    method RunPass(nodes: seq<Node>)
      requires Valid() && cmanNodeCount == 0 && |nodes| <= MAX_NODES
      modifies this`cmanNodeCount, this`trace, cmanNodes
      ensures Valid()
      ensures Previous() == old(Previous()) && Current() == nodes
      ensures trace == old(trace) + PassEffects(old(Previous()), nodes, localNodeid)
    {
      FillCurrent(nodes);
      IssueRemovals();
      IssueAdditions();
    }

    /** old_node_count = cman_node_count and the memcpy of the whole buffer. */
    method SaveCurrent()
      requires Valid()
      modifies this`oldNodeCount, oldNodes
      ensures Valid()
      ensures oldNodes[..] == cmanNodes[..] && Previous() == Current()
    {
      oldNodeCount := cmanNodeCount;
      forall i | 0 <= i < MAX_NODES {
        oldNodes[i] := cmanNodes[i];
      }
    }

    /** cman_node_count = 0 and the memset of the whole buffer. */
    method ClearCurrent()
      requires Valid()
      modifies this`cmanNodeCount, cmanNodes
      ensures Valid() && Current() == []
      ensures forall i | 0 <= i < MAX_NODES :: cmanNodes[i] == ZERO_NODE
    {
      cmanNodeCount := 0;
      forall i | 0 <= i < MAX_NODES {
        cmanNodes[i] := ZERO_NODE;
      }
    }

    /** old_node_count = 0 and the memset of the whole buffer. */
    method ClearPrevious()
      requires Valid()
      modifies this`oldNodeCount, oldNodes
      ensures Valid() && Previous() == []
      ensures forall i | 0 <= i < MAX_NODES :: oldNodes[i] == ZERO_NODE
    {
      oldNodeCount := 0;
      forall i | 0 <= i < MAX_NODES {
        oldNodes[i] := ZERO_NODE;
      }
    }

    /** What a successful cman_get_nodes leaves in the zeroed buffer and its count. */
    method FillCurrent(nodes: seq<Node>)
      requires Valid() && cmanNodeCount == 0 && |nodes| <= MAX_NODES
      modifies this`cmanNodeCount, cmanNodes
      ensures Valid() && Current() == nodes && Previous() == old(Previous())
    {
      forall i | 0 <= i < |nodes| {
        cmanNodes[i] := nodes[i];
      }
      cmanNodeCount := |nodes|;
    }

    /** The first loop of statechange: del_configfs_node for each member that left. */
    method IssueRemovals()
      requires Valid()
      modifies this`trace
      ensures Valid() && Previous() == old(Previous()) && Current() == old(Current())
      ensures trace == old(trace) + Removals(Previous(), Current())
    {
      ghost var prev, cur := Previous(), Current();
      var i := 0;
      while i < oldNodeCount
        invariant 0 <= i <= oldNodeCount
        invariant trace == old(trace) + Removals(prev[..i], cur)
      {
        assert prev[..i + 1][..i] == prev[..i] && prev[..i + 1][i] == oldNodes[i];
        if oldNodes[i].member {
          var present := IsCmanMember(oldNodes[i].id);
          if !present {
            trace := trace + [Remove(oldNodes[i].id)];
          }
        }
        i := i + 1;
      }
      assert prev[..oldNodeCount] == prev;
    }

    /** The second loop of statechange: add_configfs_node for each member that joined. */
    method IssueAdditions()
      requires Valid()
      modifies this`trace
      ensures Valid() && Previous() == old(Previous()) && Current() == old(Current())
      ensures trace == old(trace) + Additions(Previous(), Current(), localNodeid)
    {
      ghost var prev, cur := Previous(), Current();
      var i := 0;
      while i < cmanNodeCount
        invariant 0 <= i <= cmanNodeCount
        invariant trace == old(trace) + Additions(prev, cur[..i], localNodeid)
      {
        assert cur[..i + 1][..i] == cur[..i] && cur[..i + 1][i] == cmanNodes[i];
        if cmanNodes[i].member {
          var known := IsOldMember(cmanNodes[i].id);
          if !known {
            trace := trace + [Add(cmanNodes[i].id, cmanNodes[i].address, cmanNodes[i].addrLen,
                                  cmanNodes[i].id == localNodeid)];
          }
        }
        i := i + 1;
      }
      assert cur[..cmanNodeCount] == cur;
    }

    /** process_cman_callback: run statechange when the pending reason is a state change. */
    method ProcessCallback(fetched: Fetch)
      requires Valid() && FitsCapacity(fetched)
      modifies this, oldNodes, cmanNodes
      ensures Valid()
      ensures Abs() == ProcessCallbackStep(old(Abs()), fetched)
    {
      if cmanReason == StateChange {
        Statechange(fetched);
      }
    }

    /**
     * member_callback: set the pending flag and reason; on a shutdown
     * request, scan the lockspaces and send exactly one reply.
     */
    method MemberCallback(reason: Reason, lockspaces: seq<string>)
      requires Valid()
      modifies this
      ensures Valid()
      ensures Abs() == CallbackStep(old(Abs()), reason, lockspaces)
    {
      cmanCb := true;
      cmanReason := reason;
      if reason == TryShutdown {
        var approve := Vote(lockspaces);
        trace := trace + [ShutdownReply(approve)];
      }
    }

    /**
     * process_member: drain the events cman has ready. The script lists
     * what successive cman_dispatch calls do; `lockspaces` are the names of
     * the active lockspaces.
     */
    method ProcessMember(steps: seq<DispatchStep>, lockspaces: seq<string>) returns (result: Completion)
      requires Valid() && Terminates(cmanCb, steps)
      requires forall j | 0 <= j < |steps| :: FitsCapacity(steps[j].fetched)
      modifies this, oldNodes, cmanNodes
      ensures Valid()
      ensures Abs() == Drain(old(Abs()), steps, lockspaces).state
      ensures result == if Drain(old(Abs()), steps, lockspaces).fatal then Exit(1) else Return(0)
    {
      ghost var outcome := Drain(Abs(), steps, lockspaces);
      var i := 0;
      var rv, errno := 0, 0;
      while true
        invariant 0 <= i < |steps|
        invariant Valid() && Terminates(cmanCb, steps[i..])
        invariant Drain(Abs(), steps[i..], lockspaces).state == outcome.state
        invariant Drain(Abs(), steps[i..], lockspaces).fatal == outcome.fatal
        decreases |steps| - i
      {
        ghost var before := Abs();
        var step := steps[i];
        if step.callback.Some? {
          MemberCallback(step.callback.value, lockspaces);
        }
        rv, errno := step.rv, step.errno;
        if rv < 0 {
          assert Abs() == outcome.state && outcome.fatal == (rv == -1 && errno == EHOSTDOWN);
          break;
        }
        if cmanCb {
          cmanCb := false;
          ProcessCallback(step.fetched);
        } else {
          assert Abs() == outcome.state && !outcome.fatal;
          break;
        }
        assert steps[i..][1..] == steps[i + 1..];
        i := i + 1;
      }
      if rv == -1 && errno == EHOSTDOWN {
        return Exit(1);
      }
      return Return(0);
    }

    /**
     * setup_member: returns the cman descriptor, or -ENOTCONN when cman_init
     * fails, or the error of cman_start_notification or of cman_get_node.
     */
    method SetupMember(replies: SetupReplies) returns (fd: int)
      requires Valid() && FitsCapacity(replies.fetched)
      modifies this, oldNodes, cmanNodes
      ensures Valid()
      ensures Abs() == SetupStep(old(Abs()), replies).state
      ensures fd == SetupStep(old(Abs()), replies).rv
    {
      if !replies.initOk {
        return -ENOTCONN;
      }
      if replies.notifyRv < 0 {
        trace := trace + [Finish];
        return replies.notifyRv;
      }
      fd := replies.fd;
      if replies.getNodeRv < 0 {
        trace := trace + [StopNotification, Finish];
        fd := replies.getNodeRv;
        return;
      }
      localNodeid := replies.us.id;
      trace := trace + [ClearAll];
      ClearPrevious();
      ClearCurrent();
      cmanReason := StateChange;
      ProcessCallback(replies.fetched);
    }
  }
}
