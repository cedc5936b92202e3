/** State of one Raft node, the messages nodes exchange, and the handlers of
    failover.py as functions on that state.  RaftNode.dfy holds the imperative
    form of the same handlers; RaftCluster.dfy composes them into a cluster. */
module RaftTypes {
  import opened Wrappers

  /** Node names and client commands are opaque to the protocol. */
  type NodeId = nat
  datatype Command = Command(payload: nat)

  datatype Role = Follower | Candidate | Leader

  datatype Entry = Entry(term: nat, index: nat, command: Command)

  /** A client command being replicated while `propose` holds the node's lock:
      `index` is the entry's position, `acks` the nodes that stored it so far. */
  datatype Proposal = Proposal(index: nat, acks: set<NodeId>)

  type Position = n: int | 1 <= n witness 1

  datatype Node = Node(
    role: Role,
    term: nat,
    votedFor: Option<NodeId>,
    log: seq<Entry>,
    commitIndex: nat,
    lastApplied: nat,
    leaderId: Option<NodeId>,
    granted: set<NodeId>,
    nextIndex: map<NodeId, Position>,
    matchIndex: map<NodeId, nat>,
    applyQueue: seq<Entry>,
    proposal: Option<Proposal>)

  /** A reply names the request it answers by that request's term (and, for
      AppendEntries, by the last index the request covered): in the source the
      two travel on one connection. */
  datatype Message =
    | RequestVote(term: nat, candidate: NodeId, lastLogIndex: nat, lastLogTerm: nat)
    | VoteReply(voter: NodeId, candidate: NodeId, requestTerm: nat, term: nat, granted: bool)
    | AppendEntries(term: nat, leader: NodeId, prevLogIndex: nat, prevLogTerm: nat,
                    entries: seq<Entry>, leaderCommit: nat)
    | AppendReply(follower: NodeId, leader: NodeId, requestTerm: nat, lastIndex: nat,
                  term: nat, success: bool)

  function LastTerm(log: seq<Entry>): nat {
    if |log| == 0 then 0 else log[|log| - 1].term
  }

  /** The voting rule: the candidate's log is at least as current as `log`. */
  predicate LogIsCurrent(lastLogTerm: nat, lastLogIndex: nat, log: seq<Entry>) {
    lastLogTerm > LastTerm(log) || (lastLogTerm == LastTerm(log) && lastLogIndex >= |log|)
  }

  function StepDown(n: Node, term: nat): Node {
    n.(term := term, votedFor := None, role := Follower)
  }

  function HandleRequestVote(id: NodeId, n: Node, term: nat, candidate: NodeId,
                             lastLogIndex: nat, lastLogTerm: nat): (Node, Message)
  {
    if term < n.term then
      (n, VoteReply(id, candidate, term, n.term, false))
    else
      var n1 := if term > n.term then StepDown(n, term) else n;
      var canVote := n1.votedFor == None || n1.votedFor == Some(candidate);
      if canVote && LogIsCurrent(lastLogTerm, lastLogIndex, n1.log) then
        (n1.(votedFor := Some(candidate)), VoteReply(id, candidate, term, n1.term, true))
      else
        (n1, VoteReply(id, candidate, term, n1.term, false))
  }

  /** Does `log` hold an entry of term `prevTerm` at (1-based) position `prev`? */
  predicate HoldsPrevious(log: seq<Entry>, prev: nat, prevTerm: nat) {
    prev > 0 ==> prev <= |log| && log[prev - 1].term == prevTerm
  }

  /** One round of the append loop: place `e` at 0-based position `at`. */
  function PlaceEntry(log: seq<Entry>, at: nat, e: Entry): (r: seq<Entry>)
    requires at <= |log|
  {
    if at < |log| then
      if log[at].term != e.term then log[..at] + [e] else log
    else
      log + [e]
  }

  /** The whole append loop, starting after position `prev`. */
  function MergeEntries(log: seq<Entry>, prev: nat, entries: seq<Entry>): seq<Entry>
    requires prev <= |log|
    decreases |entries|
  {
    if entries == [] then log
    else MergeEntries(PlaceEntry(log, prev, entries[0]), prev + 1, entries[1..])
  }

  function Min(a: nat, b: nat): nat { if a < b then a else b }
  function Max(a: nat, b: nat): nat { if a < b then b else a }

  function HandleAppendEntries(id: NodeId, n: Node, term: nat, leader: NodeId, prev: nat, prevTerm: nat,
                               entries: seq<Entry>, leaderCommit: nat): (Node, Message)
  {
    var last := prev + |entries|;
    if term < n.term then
      (n, AppendReply(id, leader, term, last, n.term, false))
    else
      var n1 := if term > n.term then n.(term := term, votedFor := None) else n;
      var n2 := n1.(role := Follower, leaderId := Some(leader));
      if !HoldsPrevious(n2.log, prev, prevTerm) then
        (n2, AppendReply(id, leader, term, last, n2.term, false))
      else
        var log := MergeEntries(n2.log, prev, entries);
        var commit := if leaderCommit > n2.commitIndex then Min(leaderCommit, |log|) else n2.commitIndex;
        (n2.(log := log, commitIndex := commit), AppendReply(id, leader, term, last, n2.term, true))
  }

  function StartElection(id: NodeId, n: Node): (Node, Message) {
    var n1 := n.(role := Candidate, term := n.term + 1, votedFor := Some(id), granted := {id});
    (n1, RequestVote(n1.term, id, |n1.log|, LastTerm(n1.log)))
  }

  /** `granted` is the set of nodes whose grant was counted; the source keeps its size. */
  function TallyVote(n: Node, voter: NodeId, term: nat, granted: bool): Node {
    if term > n.term then StepDown(n, term)
    else if granted then n.(granted := n.granted + {voter})
    else n
  }

  function BecomeLeader(id: NodeId, n: Node): Node {
    n.(role := Leader, leaderId := Some(id),
       nextIndex := map p | p in n.nextIndex :: (|n.log| + 1) as Position,
       matchIndex := map p | p in n.nextIndex :: 0)
  }

  /** The heartbeat's AppendEntries for `peer`; `nextIndex` may be stale and point past the log. */
  function BuildAppend(id: NodeId, n: Node, peer: NodeId): Message
    requires peer in n.nextIndex
  {
    var next: int := n.nextIndex[peer];
    var prev: nat := next - 1;
    AppendEntries(n.term, id, prev,
                  if 0 < prev <= |n.log| then n.log[prev - 1].term else 0,
                  if prev <= |n.log| then n.log[prev..] else [],
                  n.commitIndex)
  }

  function HandleAppendReply(n: Node, peer: NodeId, lastIndex: nat, term: nat, success: bool): Node
    requires peer in n.nextIndex
  {
    if term > n.term then StepDown(n, term)
    else if success then
      n.(matchIndex := n.matchIndex[peer := lastIndex], nextIndex := n.nextIndex[peer := lastIndex + 1])
    else
      var next: int := n.nextIndex[peer];
      n.(nextIndex := n.nextIndex[peer := Max(1, next - 1)])
  }

  /** `propose`: the leader appends the command and offers that single entry to its peers. */
  function Propose(id: NodeId, n: Node, command: Command): (Node, Message)
  {
    var e := Entry(n.term, |n.log| + 1, command);
    var n1 := n.(log := n.log + [e], proposal := Some(Proposal(e.index, {id})));
    (n1, AppendEntries(n.term, id, e.index - 1, if e.index > 1 then n.log[e.index - 2].term else 0,
                       [e], n.commitIndex))
  }

  function CountAck(n: Node, peer: NodeId): Node
    requires n.proposal.Some?
  {
    n.(proposal := Some(n.proposal.value.(acks := n.proposal.value.acks + {peer})))
  }

  /** End of `propose`: commit when a majority stored the entry, report failure otherwise. */
  function FinishProposal(n: Node, clusterSize: nat): Node
    requires n.proposal.Some?
  {
    var p := n.proposal.value;
    n.(proposal := None,
       commitIndex := if 2 * |p.acks| > clusterSize && p.index > n.commitIndex then p.index else n.commitIndex)
  }

  /** The applier drains everything between lastApplied and commitIndex.  Its
      indexing of the log is in range in every reachable state (RaftSafety.ApplyQueueIsLogPrefix). */
  function ApplyCommitted(n: Node): Node {
    if n.lastApplied <= n.commitIndex <= |n.log| then
      n.(lastApplied := n.commitIndex, applyQueue := n.applyQueue + n.log[n.lastApplied..n.commitIndex])
    else n
  }
}
