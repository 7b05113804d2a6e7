/**
 * Values exchanged between the DLM control daemon's membership code and the
 * cman library: node records, callback reasons, the outcomes of the library
 * calls the daemon makes, and the external effects it causes.
 */
module CmanTypes {

  datatype Option<+T> = None | Some(value: T)

  /** Capacity of the daemon's node buffers (MAX_NODES of dlm_daemon.h). */
  const MAX_NODES: nat := 256

  /** Linux errno values the membership code returns or tests. */
  const ENOTCONN: int := 107
  const EHOSTDOWN: int := 112

  /**
   * One entry of a cman node list (cman_node_t): the node id, its name, its
   * transport address as opaque bytes plus the length cman reports, and
   * whether it is currently a cluster member.
   */
  datatype Node = Node(id: int, name: string, address: seq<bv8>, addrLen: int, member: bool)

  /** What a memset to zero leaves in a node slot. */
  const ZERO_NODE: Node := Node(0, "", [], 0, false)

  /** The reasons cman passes to a notification callback (cman_call_reason_t). */
  datatype Reason = PortClosed | StateChange | PortOpened | TryShutdown | ConfigUpdate

  /** Result of cman_get_nodes: the reported node list, or a negative return. */
  datatype Fetch = FetchOk(nodes: seq<Node>) | FetchFailed

  /** cman_get_nodes is told the buffer capacity and never reports more. */
  predicate FitsCapacity(f: Fetch)
  {
    f.FetchOk? ==> |f.nodes| <= MAX_NODES
  }

  /**
   * One call of cman_dispatch(ch, CMAN_DISPATCH_ONE): the callback it ran, if
   * any, its return value and errno, and what cman_get_nodes will report if
   * the event handled after it asks for the node list.
   */
  datatype DispatchStep = DispatchStep(callback: Option<Reason>, rv: int, errno: int, fetched: Fetch)

  /**
   * What the cman library answers during setup_member: whether cman_init
   * gave a handle, the return of cman_start_notification, the descriptor of
   * cman_get_fd, the return and node of cman_get_node(CMAN_NODEID_US), and
   * the answer of the first cman_get_nodes.
   */
  datatype SetupReplies = SetupReplies(
    initOk: bool, notifyRv: int, fd: int, getNodeRv: int, us: Node, fetched: Fetch)

  /**
   * External effects, in the order the daemon causes them: configfs
   * updates (del_configfs_node, add_configfs_node, clear_configfs), the
   * answer to a shutdown request, and the teardown of the cman handle.
   */
  datatype Effect =
    | Remove(id: int)
    | Add(id: int, address: seq<bv8>, addrLen: int, isLocal: bool)
    | ClearAll
    | ShutdownReply(approve: bool)
    | StopNotification
    | Finish

  /** The add_configfs_node call made for node `n` when `local` is our id. */
  function AddFor(n: Node, local: int): Effect
  {
    Add(n.id, n.address, n.addrLen, n.id == local)
  }
}
