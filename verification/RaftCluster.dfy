/** A cluster of Raft nodes with a network that may lose, delay, duplicate and
    reorder messages: sent messages stay in `msgs` and any of them may be
    delivered at any time, any number of times, or never. */
module RaftCluster {
  import opened Wrappers
  import opened RaftTypes

  datatype Cluster = Cluster(nodes: map<NodeId, Node>, msgs: set<Message>)

  datatype Action =
    | Timeout(id: NodeId)
    | ReceiveRequestVote(id: NodeId, msg: Message)
    | ReceiveVoteReply(id: NodeId, msg: Message)
    | WinElection(id: NodeId)
    | SendAppend(id: NodeId, peer: NodeId)
    | ReceiveAppend(id: NodeId, msg: Message)
    | ReceiveAppendReply(id: NodeId, msg: Message)
    | StartProposal(id: NodeId, command: Command)
    | ProposalAck(id: NodeId, msg: Message)
    | EndProposal(id: NodeId)
    | ApplyLog(id: NodeId)

  function InitNode(members: set<NodeId>, id: NodeId): Node {
    Node(Follower, 0, None, [], 0, 0, None, {},
         map p | p in members - {id} :: 1 as Position, map p | p in members - {id} :: 0, [], None)
  }

  function Init(members: set<NodeId>): Cluster {
    Cluster(map id | id in members :: InitNode(members, id), {})
  }

  /** When a handler may act.  Every handler but the end of a proposal takes the
      node's lock, so none runs while a proposal is pending; an election is meant to
      let go of the lock while it waits for votes. */
  predicate EnabledUnguarded(c: Cluster, a: Action) {
    a.id in c.nodes && LockFree(c.nodes[a.id], a) && Guard(c, c.nodes[a.id], a)
  }

  /** The protocol's guard: a granted vote is counted only while the node is still
      in the term it asked for. */
  predicate Enabled(c: Cluster, a: Action) {
    EnabledUnguarded(c, a) && (a.ReceiveVoteReply? ==> Timely(c.nodes[a.id], a.msg))
  }

  predicate LockFree(n: Node, a: Action) {
    if a.ProposalAck? || a.EndProposal? then n.proposal.Some? else n.proposal.None?
  }

  predicate Guard(c: Cluster, n: Node, a: Action)
    requires LockFree(n, a)
  {
    match a
    case Timeout(_) => n.role != Leader
    case ReceiveRequestVote(id, m) => m in c.msgs && m.RequestVote? && m.candidate != id
    case ReceiveVoteReply(id, m) => m in c.msgs && m.VoteReply? && m.candidate == id
    case WinElection(id) => n.role == Candidate && 2 * |n.granted| > |c.nodes|
    case SendAppend(_, peer) => n.role == Leader && peer in n.nextIndex
    case ReceiveAppend(id, m) => m in c.msgs && m.AppendEntries? && m.leader != id
    case ReceiveAppendReply(id, m) =>
      m in c.msgs && m.AppendReply? && m.leader == id && m.follower in n.nextIndex
    case StartProposal(_, _) => n.role == Leader
    case ProposalAck(id, m) =>
      && m in c.msgs && m.AppendReply? && m.leader == id && m.success
      && m.requestTerm == n.term && m.lastIndex == n.proposal.value.index
    case EndProposal(_) => true
    case ApplyLog(_) => true
  }

  predicate Timely(n: Node, m: Message)
    requires m.VoteReply?
  {
    m.term > n.term || !m.granted || m.requestTerm == n.term
  }

  /** What the acting node becomes and what it sends. */
  function Effect(c: Cluster, a: Action): (Node, set<Message>)
    requires EnabledUnguarded(c, a)
  {
    var id, n := a.id, c.nodes[a.id];
    match a
    case Timeout(_) =>
      var (n', m) := StartElection(id, n); (n', {m})
    case ReceiveRequestVote(_, m) =>
      var (n', r) := HandleRequestVote(id, n, m.term, m.candidate, m.lastLogIndex, m.lastLogTerm); (n', {r})
    case ReceiveVoteReply(_, m) =>
      (TallyVote(n, m.voter, m.term, m.granted), {})
    case WinElection(_) =>
      (BecomeLeader(id, n), {})
    case SendAppend(_, peer) =>
      (n, {BuildAppend(id, n, peer)})
    case ReceiveAppend(_, m) =>
      var (n', r) := HandleAppendEntries(id, n, m.term, m.leader, m.prevLogIndex, m.prevLogTerm,
                                         m.entries, m.leaderCommit); (n', {r})
    case ReceiveAppendReply(_, m) =>
      (HandleAppendReply(n, m.follower, m.lastIndex, m.term, m.success), {})
    case StartProposal(_, command) =>
      var (n', m) := Propose(id, n, command); (n', {m})
    case ProposalAck(_, m) =>
      (CountAck(n, m.follower), {})
    case EndProposal(_) =>
      (FinishProposal(n, |c.nodes|), {})
    case ApplyLog(_) =>
      (ApplyCommitted(n), {})
  }

  function Next(c: Cluster, a: Action): Cluster
    requires EnabledUnguarded(c, a)
  {
    var (n', sent) := Effect(c, a);
    Cluster(c.nodes[a.id := n'], c.msgs + sent)
  }

  /** A run: cluster states from the initial one, each following from the one before by one action. */
  ghost predicate Run(members: set<NodeId>, run: seq<Cluster>) {
    && |run| > 0
    && run[0] == Init(members)
    && forall k :: 0 < k < |run| ==> Step(run[k - 1], run[k])
  }

  ghost predicate Step(c: Cluster, c': Cluster) {
    exists a :: Enabled(c, a) && c' == Next(c, a)
  }

  /** A run that counts votes as `_request_vote` does, grants from earlier elections included. */
  ghost predicate RunUnguarded(members: set<NodeId>, run: seq<Cluster>) {
    && |run| > 0
    && run[0] == Init(members)
    && forall k :: 0 < k < |run| ==> StepUnguarded(run[k - 1], run[k])
  }

  ghost predicate StepUnguarded(c: Cluster, c': Cluster) {
    exists a :: EnabledUnguarded(c, a) && c' == Next(c, a)
  }

  // ---- Elections under the lock ----

  /** `_start_election` as it runs inside the election timer: the lock is held from the
      new term to the counting of the votes, so no reply is handled in between. */
  function LockedElection(c: Cluster, id: NodeId): Cluster
    requires EnabledUnguarded(c, Timeout(id))
  {
    var c' := Next(c, Timeout(id));
    if EnabledUnguarded(c', WinElection(id)) then Next(c', WinElection(id)) else c'
  }

  ghost predicate StepLocked(c: Cluster, c': Cluster) {
    exists a :: EnabledUnguarded(c, a) && !a.WinElection?
             && c' == if a.Timeout? then LockedElection(c, a.id) else Next(c, a)
  }

  ghost predicate RunLocked(members: set<NodeId>, run: seq<Cluster>) {
    && |run| > 0
    && run[0] == Init(members)
    && forall k :: 0 < k < |run| ==> StepLocked(run[k - 1], run[k])
  }
}
