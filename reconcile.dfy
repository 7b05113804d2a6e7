/**
 * The diff of statechange: which configfs entries a reconciliation pass
 * removes and which it adds, given the previous and the new node list.
 * Both lists are walked in order, so each function recurses on the list's
 * last entry, matching the for loops that build the calls one by one.
 */
module Reconcile {
  import opened CmanTypes
  import opened NodeList

  /** Whether a previous-list entry gets a del_configfs_node call. */
  predicate Leaves(n: Node, cur: seq<Node>)
  {
    n.member && !MemberOf(cur, n.id)
  }

  /** Whether a new-list entry gets an add_configfs_node call. */
  predicate Joins(n: Node, prev: seq<Node>)
  {
    n.member && !MemberOf(prev, n.id)
  }

  /** The del_configfs_node calls of one pass, in the order of `prev`. */
  function Removals(prev: seq<Node>, cur: seq<Node>): seq<Effect>
    decreases |prev|
  {
    if prev == [] then []
    else
      var last := prev[|prev| - 1];
      Removals(prev[..|prev| - 1], cur) + (if Leaves(last, cur) then [Remove(last.id)] else [])
  }

  /** The add_configfs_node calls of one pass, in the order of `cur`. */
  function Additions(prev: seq<Node>, cur: seq<Node>, local: int): seq<Effect>
    decreases |cur|
  {
    if cur == [] then []
    else
      var last := cur[|cur| - 1];
      Additions(prev, cur[..|cur| - 1], local) + (if Joins(last, prev) then [AddFor(last, local)] else [])
  }

  /** Every call of a successful pass: all removals, then all additions. */
  function PassEffects(prev: seq<Node>, cur: seq<Node>, local: int): seq<Effect>
  {
    Removals(prev, cur) + Additions(prev, cur, local)
  }

  /**
   * A removal is issued exactly for the ids of previous entries that were
   * members and are not members of the new list; nothing else is removed.
   */
  lemma {:induction false} RemovalsSpec(prev: seq<Node>, cur: seq<Node>)
    ensures forall e | e in Removals(prev, cur) :: e.Remove?
    ensures forall id :: Remove(id) in Removals(prev, cur) <==>
      HasMemberEntry(prev, id) && !MemberOf(cur, id)
    decreases |prev|
  {
    if prev != [] {
      var init := prev[..|prev| - 1];
      RemovalsSpec(init, cur);
      forall id ensures HasMemberEntry(prev, id) <==>
        HasMemberEntry(init, id) || (prev[|prev| - 1].id == id && prev[|prev| - 1].member)
      {
        if HasMemberEntry(prev, id) {
          var i :| 0 <= i < |prev| && prev[i].id == id && prev[i].member;
          if i < |prev| - 1 {
            assert init[i] == prev[i];
          }
        }
        if HasMemberEntry(init, id) {
          var i :| 0 <= i < |init| && init[i].id == id && init[i].member;
          assert prev[i] == init[i];
        }
      }
    }
  }

  /**
   * With unique ids in the previous list, each id that left the cluster is
   * removed exactly once and every other id not at all.
   */
  lemma {:induction false} RemovalsOnce(prev: seq<Node>, cur: seq<Node>, id: int)
    requires UniqueIds(prev)
    ensures multiset(Removals(prev, cur))[Remove(id)] ==
      if MemberOf(prev, id) && !MemberOf(cur, id) then 1 else 0
    decreases |prev|
  {
    MemberOfUnique(prev, id);
    if prev != [] {
      var init := prev[..|prev| - 1];
      var last := prev[|prev| - 1];
      assert UniqueIds(init);
      RemovalsOnce(init, cur, id);
      MemberOfUnique(init, id);
      if last.id == id {
        assert !HasMemberEntry(init, id) by {
          forall i | 0 <= i < |init| ensures init[i].id != id {
            assert init[i] == prev[i];
          }
        }
      } else {
        assert HasMemberEntry(prev, id) <==> HasMemberEntry(init, id) by {
          if HasMemberEntry(prev, id) {
            var i :| 0 <= i < |prev| && prev[i].id == id && prev[i].member;
            assert init[i] == prev[i];
          }
          if HasMemberEntry(init, id) {
            var i :| 0 <= i < |init| && init[i].id == id && init[i].member;
            assert prev[i] == init[i];
          }
        }
      }
    }
  }

  /**
   * An addition is issued exactly for the new-list entries that are members
   * and were not members before, with that entry's address and length and
   * the local flag set when the id is ours; nothing else is added.
   */
  lemma {:induction false} AdditionsSpec(prev: seq<Node>, cur: seq<Node>, local: int)
    ensures forall e | e in Additions(prev, cur, local) ::
      e.Add? && exists k | 0 <= k < |cur| :: Joins(cur[k], prev) && e == AddFor(cur[k], local)
    ensures forall k | 0 <= k < |cur| && Joins(cur[k], prev) ::
      AddFor(cur[k], local) in Additions(prev, cur, local)
    decreases |cur|
  {
    if cur != [] {
      var init := cur[..|cur| - 1];
      AdditionsSpec(prev, init, local);
      forall e | e in Additions(prev, cur, local)
        ensures e.Add? && exists k | 0 <= k < |cur| :: Joins(cur[k], prev) && e == AddFor(cur[k], local)
      {
        if e in Additions(prev, init, local) {
          var k :| 0 <= k < |init| && Joins(init[k], prev) && e == AddFor(init[k], local);
          assert cur[k] == init[k];
        } else {
          assert e == AddFor(cur[|cur| - 1], local);
        }
      }
      forall k | 0 <= k < |cur| && Joins(cur[k], prev)
        ensures AddFor(cur[k], local) in Additions(prev, cur, local)
      {
        if k < |cur| - 1 {
          assert cur[k] == init[k];
        }
      }
    }
  }

  /**
   * With unique ids in the new list, each joining entry is added exactly
   * once, and no other add call carries its id.
   */
  lemma {:induction false} AdditionsOnce(prev: seq<Node>, cur: seq<Node>, local: int, k: nat)
    requires UniqueIds(cur) && k < |cur|
    ensures multiset(Additions(prev, cur, local))[AddFor(cur[k], local)] ==
      if Joins(cur[k], prev) then 1 else 0
    ensures forall e | e in Additions(prev, cur, local) && e.Add? && e.id == cur[k].id ::
      e == AddFor(cur[k], local)
    decreases |cur|
  {
    AdditionsSpec(prev, cur, local);
    var init := cur[..|cur| - 1];
    var last := cur[|cur| - 1];
    assert UniqueIds(init);
    AdditionsSpec(prev, init, local);
    if k < |cur| - 1 {
      assert init[k] == cur[k];
      AdditionsOnce(prev, init, local, k);
      assert last.id != cur[k].id;
    } else {
      forall e | e in Additions(prev, init, local) ensures e.id != last.id {
        var j :| 0 <= j < |init| && Joins(init[j], prev) && e == AddFor(init[j], local);
        assert init[j] == cur[j];
      }
    }
  }

  /** Within a pass every removal comes before every addition. */
  lemma RemovalsBeforeAdditions(prev: seq<Node>, cur: seq<Node>, local: int)
    ensures forall i, j | 0 <= i < j < |PassEffects(prev, cur, local)| ::
      PassEffects(prev, cur, local)[j].Remove? ==> PassEffects(prev, cur, local)[i].Remove?
    ensures forall e | e in PassEffects(prev, cur, local) :: e.Remove? || e.Add?
  {
    RemovalsSpec(prev, cur);
    AdditionsSpec(prev, cur, local);
    var rs, ads := Removals(prev, cur), Additions(prev, cur, local);
    assert forall i | 0 <= i < |rs| :: rs[i] in rs;
    assert forall i | 0 <= i < |ads| :: ads[i] in ads;
  }

  /**
   * No id is both removed and added in one pass, provided either list has
   * unique ids (with duplicates in both, the same id can be churned).
   */
  lemma NoIdRemovedAndAdded(prev: seq<Node>, cur: seq<Node>, local: int)
    requires UniqueIds(prev) || UniqueIds(cur)
    ensures forall r, a | r in Removals(prev, cur) && a in Additions(prev, cur, local) ::
      r.Remove? && a.Add? && r.id != a.id
  {
    RemovalsSpec(prev, cur);
    AdditionsSpec(prev, cur, local);
    forall r, a | r in Removals(prev, cur) && a in Additions(prev, cur, local)
      ensures r.Remove? && a.Add? && r.id != a.id
    {
      var k :| 0 <= k < |cur| && Joins(cur[k], prev) && a == AddFor(cur[k], local);
      if r.id == a.id {
        if UniqueIds(prev) {
          MemberOfUnique(prev, r.id);
        } else {
          FindUnique(cur, k);
        }
      }
    }
  }

  /** A pass removes nothing when no previous entry leaves. */
  lemma {:induction false} NoneLeave(prev: seq<Node>, cur: seq<Node>)
    requires forall i | 0 <= i < |prev| :: !Leaves(prev[i], cur)
    ensures Removals(prev, cur) == []
    decreases |prev|
  {
    if prev != [] {
      NoneLeave(prev[..|prev| - 1], cur);
    }
  }

  /** A pass adds nothing when no new entry joins. */
  lemma {:induction false} NoneJoin(prev: seq<Node>, cur: seq<Node>, local: int)
    requires forall k | 0 <= k < |cur| :: !Joins(cur[k], prev)
    ensures Additions(prev, cur, local) == []
    decreases |cur|
  {
    if cur != [] {
      NoneJoin(prev, cur[..|cur| - 1], local);
    }
  }

  /**
   * Replaying a pass against an unchanged list with unique ids issues no
   * call at all.
   */
  lemma StableListNoEffects(nodes: seq<Node>, local: int)
    requires UniqueIds(nodes)
    ensures PassEffects(nodes, nodes, local) == []
  {
    forall k | 0 <= k < |nodes| ensures !Leaves(nodes[k], nodes) && !Joins(nodes[k], nodes) {
      FindUnique(nodes, k);
    }
    NoneLeave(nodes, nodes);
    NoneJoin(nodes, nodes, local);
  }

  /**
   * The calls `effects` are one add_configfs_node per member entry of
   * `nodes`, carrying that entry's address and local flag, and nothing else.
   */
  ghost predicate AddsExactlyMembers(effects: seq<Effect>, nodes: seq<Node>, local: int)
  {
    && (forall e | e in effects :: exists k | 0 <= k < |nodes| :: nodes[k].member && e == AddFor(nodes[k], local))
    && (forall k | 0 <= k < |nodes| && nodes[k].member :: AddFor(nodes[k], local) in effects)
  }

  /**
   * Against an empty previous list nothing is removed and every member
   * entry of the new list is added.
   */
  lemma FromEmptyAddsAllMembers(cur: seq<Node>, local: int)
    ensures Removals([], cur) == []
    ensures AddsExactlyMembers(Additions([], cur, local), cur, local)
  {
    AdditionsSpec([], cur, local);
  }

  /** The ids that left: previous entries that get a del_configfs_node call. */
  function LeftIds(prev: seq<Node>, cur: seq<Node>): set<int>
  {
    set i | 0 <= i < |prev| && Leaves(prev[i], cur) :: prev[i].id
  }

  /** The ids that joined: new entries that get an add_configfs_node call. */
  function JoinedIds(prev: seq<Node>, cur: seq<Node>): set<int>
  {
    set k | 0 <= k < |cur| && Joins(cur[k], prev) :: cur[k].id
  }

  /**
   * With unique ids in both lists, the ids that left are those that were
   * members and are not any more, and the ids that joined are those that
   * are members now and were not before.
   */
  lemma DiffSets(prev: seq<Node>, cur: seq<Node>, id: int)
    requires UniqueIds(prev) && UniqueIds(cur)
    ensures id in LeftIds(prev, cur) <==> MemberOf(prev, id) && !MemberOf(cur, id)
    ensures id in JoinedIds(prev, cur) <==> MemberOf(cur, id) && !MemberOf(prev, id)
  {
    MemberOfUnique(prev, id);
    MemberOfUnique(cur, id);
    if MemberOf(cur, id) {
      var k :| 0 <= k < |cur| && cur[k].id == id && cur[k].member;
      assert Joins(cur[k], prev) <==> !MemberOf(prev, id);
    }
  }

  /** One configfs call applied to the set of node ids that have an entry. */
  function ApplyOne(reg: set<int>, e: Effect): set<int>
  {
    match e
    case Remove(id) => reg - {id}
    case Add(id, _, _, _) => reg + {id}
    case ClearAll => {}
    case _ => reg
  }

  /** The node ids with a configfs entry after the calls `effects`, starting from `reg`. */
  function Apply(reg: set<int>, effects: seq<Effect>): set<int>
    decreases |effects|
  {
    if effects == [] then reg else Apply(ApplyOne(reg, effects[0]), effects[1..])
  }

  /** Applying two runs of calls is applying the first, then the second. */
  lemma {:induction false} ApplyAppend(reg: set<int>, a: seq<Effect>, b: seq<Effect>)
    ensures Apply(reg, a + b) == Apply(Apply(reg, a), b)
    decreases |a|
  {
    if a == [] {
      assert a + b == b;
    } else {
      assert (a + b)[0] == a[0] && (a + b)[1..] == a[1..] + b;
      ApplyAppend(ApplyOne(reg, a[0]), a[1..], b);
    }
  }

  /** The removals of a pass delete exactly the entries of the ids that left. */
  lemma {:induction false} ApplyRemovals(reg: set<int>, prev: seq<Node>, cur: seq<Node>)
    ensures Apply(reg, Removals(prev, cur)) == reg - LeftIds(prev, cur)
    decreases |prev|
  {
    if prev != [] {
      var init, last := prev[..|prev| - 1], prev[|prev| - 1];
      var tail := if Leaves(last, cur) then [Remove(last.id)] else [];
      ApplyRemovals(reg, init, cur);
      ApplyAppend(reg, Removals(init, cur), tail);
      assert LeftIds(prev, cur) == LeftIds(init, cur) + (if Leaves(last, cur) then {last.id} else {}) by {
        forall id ensures id in LeftIds(prev, cur) <==>
          id in LeftIds(init, cur) || (Leaves(last, cur) && id == last.id)
        {
          if id in LeftIds(prev, cur) {
            var i :| 0 <= i < |prev| && Leaves(prev[i], cur) && prev[i].id == id;
            if i < |prev| - 1 {
              assert init[i] == prev[i];
            }
          }
          if id in LeftIds(init, cur) {
            var i :| 0 <= i < |init| && Leaves(init[i], cur) && init[i].id == id;
            assert prev[i] == init[i];
          }
        }
      }
    }
  }

  /** The additions of a pass create exactly the entries of the ids that joined. */
  lemma {:induction false} ApplyAdditions(reg: set<int>, prev: seq<Node>, cur: seq<Node>, local: int)
    ensures Apply(reg, Additions(prev, cur, local)) == reg + JoinedIds(prev, cur)
    decreases |cur|
  {
    if cur != [] {
      var init, last := cur[..|cur| - 1], cur[|cur| - 1];
      var tail := if Joins(last, prev) then [AddFor(last, local)] else [];
      ApplyAdditions(reg, prev, init, local);
      ApplyAppend(reg, Additions(prev, init, local), tail);
      assert JoinedIds(prev, cur) == JoinedIds(prev, init) + (if Joins(last, prev) then {last.id} else {}) by {
        forall id ensures id in JoinedIds(prev, cur) <==>
          id in JoinedIds(prev, init) || (Joins(last, prev) && id == last.id)
        {
          if id in JoinedIds(prev, cur) {
            var k :| 0 <= k < |cur| && Joins(cur[k], prev) && cur[k].id == id;
            if k < |cur| - 1 {
              assert init[k] == cur[k];
            }
          }
          if id in JoinedIds(prev, init) {
            var k :| 0 <= k < |init| && Joins(init[k], prev) && init[k].id == id;
            assert cur[k] == init[k];
          }
        }
      }
    }
  }

  /** A pass turns any set of entries `reg` into (reg - LeftIds) + JoinedIds. */
  lemma PassOnRegistry(reg: set<int>, prev: seq<Node>, cur: seq<Node>, local: int)
    ensures Apply(reg, PassEffects(prev, cur, local)) == reg - LeftIds(prev, cur) + JoinedIds(prev, cur)
  {
    ApplyAppend(reg, Removals(prev, cur), Additions(prev, cur, local));
    ApplyRemovals(reg, prev, cur);
    ApplyAdditions(reg - LeftIds(prev, cur), prev, cur, local);
  }

  /**
   * With unique ids in both lists, a pass that starts from the entries of
   * the previous members leaves exactly the entries of the current members.
   */
  lemma PassReconciles(prev: seq<Node>, cur: seq<Node>, local: int)
    requires UniqueIds(prev) && UniqueIds(cur)
    ensures Apply(MemberIds(prev), PassEffects(prev, cur, local)) == MemberIds(cur)
  {
    PassOnRegistry(MemberIds(prev), prev, cur, local);
    forall id ensures id in MemberIds(prev) - LeftIds(prev, cur) + JoinedIds(prev, cur) <==> id in MemberIds(cur) {
      DiffSets(prev, cur, id);
      MemberIdsAreMembers(prev, id);
      MemberIdsAreMembers(cur, id);
    }
  }

  /** With unique ids, the member ids are the ids whose first entry is a member. */
  lemma MemberIdsAreMembers(nodes: seq<Node>, id: int)
    requires UniqueIds(nodes)
    ensures id in MemberIds(nodes) <==> MemberOf(nodes, id)
  {
    MemberOfUnique(nodes, id);
    if HasMemberEntry(nodes, id) {
      var i :| 0 <= i < |nodes| && nodes[i].id == id && nodes[i].member;
    }
  }

  /**
   * With an id repeated in both lists, first as a non-member and then as a
   * member, a pass over an unchanged list removes and re-adds that id.
   */
  lemma DuplicateIdsChurn()
    ensures var nodes := [Node(5, "", [], 0, false), Node(5, "", [], 0, true)];
      PassEffects(nodes, nodes, 0) == [Remove(5), Add(5, [], 0, false)]
  {
    var nodes := [Node(5, "", [], 0, false), Node(5, "", [], 0, true)];
    assert nodes[..1] == [nodes[0]];
    assert nodes[..1][..0] == [];
    assert FindFirst(nodes, 5) == Some(0);
    assert Removals(nodes[..1], nodes) == [];
    assert Additions(nodes, nodes[..1], 0) == [];
  }
}
