/**
 * Lookups in a cman node list: the linear scans of is_member and
 * find_cman_node, which stop at the first entry whose id matches.
 */
module NodeList {
  import opened CmanTypes

  /** No two entries of the list share an id. */
  predicate UniqueIds(nodes: seq<Node>)
  {
    forall i, j | 0 <= i < j < |nodes| :: nodes[i].id != nodes[j].id
  }

  /** The ids of the entries whose member flag is set. */
  function MemberIds(nodes: seq<Node>): set<int>
  {
    set i | 0 <= i < |nodes| && nodes[i].member :: nodes[i].id
  }

  /** Some entry with this id has its member flag set. */
  predicate HasMemberEntry(nodes: seq<Node>, nodeid: int)
  {
    exists i | 0 <= i < |nodes| :: nodes[i].id == nodeid && nodes[i].member
  }

  /** The index of the first entry whose id is `nodeid`, if there is one. */
  function FindFirst(nodes: seq<Node>, nodeid: int): (r: Option<nat>)
    ensures r.Some? ==> r.value < |nodes| && nodes[r.value].id == nodeid
    ensures r.Some? ==> forall j | 0 <= j < r.value :: nodes[j].id != nodeid
    ensures r.None? <==> forall j | 0 <= j < |nodes| :: nodes[j].id != nodeid
    decreases |nodes|
  {
    if |nodes| == 0 then None
    else if nodes[0].id == nodeid then Some(0)
    else match FindFirst(nodes[1..], nodeid)
      case None => None
      case Some(k) => Some(k + 1)
  }

  /** The member flag of the first entry with this id; false when there is none. */
  function MemberOf(nodes: seq<Node>, nodeid: int): bool
  {
    match FindFirst(nodes, nodeid)
    case None => false
    case Some(k) => nodes[k].member
  }

  /** The name of the first entry with this id; None when there is none. */
  function NameOf(nodes: seq<Node>, nodeid: int): Option<string>
  {
    match FindFirst(nodes, nodeid)
    case None => None
    case Some(k) => Some(nodes[k].name)
  }

  /**
   * is_member: scan the first `count` entries of the buffer and return the
   * member flag of the first one with a matching id, or false.
   */
  method IsMember(nodeList: array<Node>, count: int, nodeid: int) returns (b: bool)
    requires 0 <= count <= nodeList.Length
    ensures b <==> exists k | 0 <= k < count ::
      nodeList[k].id == nodeid && nodeList[k].member &&
      forall j | 0 <= j < k :: nodeList[j].id != nodeid
    ensures b == MemberOf(nodeList[..count], nodeid)
  {
    var i := 0;
    while i < count
      invariant 0 <= i <= count
      invariant forall j | 0 <= j < i :: nodeList[j].id != nodeid
    {
      if nodeList[i].id == nodeid {
        assert FindFirst(nodeList[..count], nodeid) == Some(i) by {
          assert nodeList[..count][i].id == nodeid;
        }
        return nodeList[i].member;
      }
      i := i + 1;
    }
    assert FindFirst(nodeList[..count], nodeid) == None by {
      assert forall j | 0 <= j < count :: nodeList[..count][j].id != nodeid;
    }
    return false;
  }

  /**
   * The scan of find_cman_node over the first `count` entries: the index of
   * the first entry with a matching id, or None where the source returns NULL.
   */
  method FindNode(nodeList: array<Node>, count: int, nodeid: int) returns (r: Option<nat>)
    requires 0 <= count <= nodeList.Length
    ensures r.Some? ==> r.value < count && nodeList[r.value].id == nodeid
    ensures r == FindFirst(nodeList[..count], nodeid)
  {
    var i := 0;
    while i < count
      invariant 0 <= i <= count
      invariant forall j | 0 <= j < i :: nodeList[j].id != nodeid
    {
      if nodeList[i].id == nodeid {
        assert FindFirst(nodeList[..count], nodeid) == Some(i) by {
          assert nodeList[..count][i].id == nodeid;
        }
        return Some(i);
      }
      i := i + 1;
    }
    assert FindFirst(nodeList[..count], nodeid) == None by {
      assert forall j | 0 <= j < count :: nodeList[..count][j].id != nodeid;
    }
    return None;
  }

  /** With unique ids the first match of an entry's own id is that entry. */
  lemma FindUnique(nodes: seq<Node>, k: nat)
    requires UniqueIds(nodes) && k < |nodes|
    ensures FindFirst(nodes, nodes[k].id) == Some(k)
    ensures MemberOf(nodes, nodes[k].id) == nodes[k].member
  {
  }

  /**
   * With unique ids the first-match flag is the same as "some entry with
   * this id is a member", in both directions.
   */
  lemma MemberOfUnique(nodes: seq<Node>, nodeid: int)
    requires UniqueIds(nodes)
    ensures MemberOf(nodes, nodeid) <==> HasMemberEntry(nodes, nodeid)
  {
    if HasMemberEntry(nodes, nodeid) {
      var i :| 0 <= i < |nodes| && nodes[i].id == nodeid && nodes[i].member;
      FindUnique(nodes, i);
    }
  }
}
