/** RaftConsensus as the source has it: an object whose handlers update its
    fields in place.  Each method is proved to have the effect of the function
    of RaftTypes that the cluster model uses. */
module RaftNodes {
  import opened Wrappers
  import opened RaftTypes

  class RaftNode {
    const id: NodeId
    const peers: set<NodeId>
    var state: Role
    var currentTerm: nat
    var votedFor: Option<NodeId>
    var log: seq<Entry>
    var commitIndex: nat
    var lastApplied: nat
    var leaderId: Option<NodeId>
    var votes: set<NodeId>
    var nextIndex: map<NodeId, Position>
    var matchIndex: map<NodeId, nat>
    var applyQueue: seq<Entry>
    var proposal: Option<Proposal>

    ghost function State(): Node
      reads this
    {
      Node(state, currentTerm, votedFor, log, commitIndex, lastApplied, leaderId, votes,
           nextIndex, matchIndex, applyQueue, proposal)
    }

    ghost predicate Valid()
      reads this
    {
      nextIndex.Keys == peers
    }

    constructor (id: NodeId, peers: set<NodeId>)
      ensures this.id == id && this.peers == peers && Valid()
      ensures State() == Node(Follower, 0, None, [], 0, 0, None, {},
                              map p | p in peers :: 1 as Position, map p | p in peers :: 0, [], None)
    {
      this.id, this.peers := id, peers;
      state, currentTerm, votedFor, log := Follower, 0, None, [];
      commitIndex, lastApplied, leaderId, votes := 0, 0, None, {};
      nextIndex := map p | p in peers :: 1 as Position;
      matchIndex := map p | p in peers :: 0;
      applyQueue, proposal := [], None;
    }

    method HandleRequestVote(term: nat, candidate: NodeId, lastLogIndex: nat, lastLogTerm: nat) returns (reply: Message)
      requires Valid()
      modifies this
      ensures Valid()
      ensures (State(), reply)
              == RaftTypes.HandleRequestVote(id, old(State()), term, candidate, lastLogIndex, lastLogTerm)
    {
      if term < currentTerm {
        return VoteReply(id, candidate, term, currentTerm, false);
      }
      if term > currentTerm {
        currentTerm := term;
        votedFor := None;
        state := Follower;
      }
      var canVote := votedFor == None || votedFor == Some(candidate);
      var myLast := LastLogTerm();
      var logIsCurrent := lastLogTerm > myLast || (lastLogTerm == myLast && lastLogIndex >= |log|);
      if canVote && logIsCurrent {
        votedFor := Some(candidate);
        return VoteReply(id, candidate, term, currentTerm, true);
      }
      return VoteReply(id, candidate, term, currentTerm, false);
    }

    method LastLogTerm() returns (t: nat)
      ensures t == LastTerm(log)
    {
      if |log| == 0 {
        return 0;
      }
      return log[|log| - 1].term;
    }

    method HandleAppendEntries(term: nat, leader: NodeId, prev: nat, prevTerm: nat, entries: seq<Entry>,
                               leaderCommit: nat)
      returns (reply: Message)
      requires Valid()
      modifies this
      ensures Valid()
      ensures (State(), reply) ==
              RaftTypes.HandleAppendEntries(id, old(State()), term, leader, prev, prevTerm, entries, leaderCommit)
    {
      var last := prev + |entries|;
      if term < currentTerm {
        return AppendReply(id, leader, term, last, currentTerm, false);
      }
      if term > currentTerm {
        currentTerm := term;
        votedFor := None;
      }
      state := Follower;
      leaderId := Some(leader);
      if prev > 0 {
        if prev > |log| {
          return AppendReply(id, leader, term, last, currentTerm, false);
        }
        if log[prev - 1].term != prevTerm {
          return AppendReply(id, leader, term, last, currentTerm, false);
        }
      }
      AppendNewEntries(prev, entries);
      if leaderCommit > commitIndex {
        commitIndex := Min(leaderCommit, |log|);
      }
      return AppendReply(id, leader, term, last, currentTerm, true);
    }

    /** The append loop: walk the received entries, cutting the log at the first one that conflicts. */
    method AppendNewEntries(prev: nat, entries: seq<Entry>)
      requires prev <= |log|
      modifies this`log
      ensures log == MergeEntries(old(log), prev, entries)
    {
      ghost var before := log;
      var i := 0;
      while i < |entries|
        invariant i <= |entries| && prev + i <= |log|
        invariant MergeEntries(log, prev + i, entries[i..]) == MergeEntries(before, prev, entries)
      {
        var index := prev + i + 1;
        assert entries[i..][0] == entries[i] && entries[i..][1..] == entries[i + 1..];
        if index <= |log| {
          if log[index - 1].term != entries[i].term {
            log := log[..index - 1];
            log := log + [entries[i]];
          }
        } else {
          log := log + [entries[i]];
        }
        i := i + 1;
      }
    }

    method StartElection() returns (request: Message)
      requires Valid()
      modifies this
      ensures Valid()
      ensures (State(), request) == RaftTypes.StartElection(id, old(State()))
    {
      state := Candidate;
      currentTerm := currentTerm + 1;
      votedFor := Some(id);
      votes := {id};
      var lastTerm := LastLogTerm();
      request := RequestVote(currentTerm, id, |log|, lastTerm);
    }

    method ReceiveVote(voter: NodeId, term: nat, granted: bool)
      requires Valid()
      modifies this
      ensures Valid()
      ensures State() == TallyVote(old(State()), voter, term, granted)
    {
      if term > currentTerm {
        currentTerm := term;
        state := Follower;
        votedFor := None;
      } else if granted {
        votes := votes + {voter};
      }
    }

    method BecomeLeader()
      requires Valid()
      modifies this
      ensures Valid()
      ensures State() == RaftTypes.BecomeLeader(id, old(State()))
    {
      state := Leader;
      leaderId := Some(id);
      ResetPeers();
    }

    /** Every peer starts over at the end of the new leader's log. */
    method ResetPeers()
      requires Valid()
      modifies this`nextIndex, this`matchIndex
      ensures nextIndex == map p | p in old(nextIndex) :: (|log| + 1) as Position
      ensures matchIndex == map p | p in old(nextIndex) :: 0
    {
      ghost var before := nextIndex;
      var todo := peers;
      matchIndex := map[];
      nextIndex := map[];
      while todo != {}
        invariant todo <= peers
        invariant nextIndex.Keys == peers - todo && matchIndex.Keys == peers - todo
        invariant forall p :: p in nextIndex ==> nextIndex[p] == |log| + 1
        invariant forall p :: p in matchIndex ==> matchIndex[p] == 0
        decreases todo
      {
        var p :| p in todo;
        nextIndex := nextIndex[p := |log| + 1];
        matchIndex := matchIndex[p := 0];
        todo := todo - {p};
      }
    }

    method SendAppendEntries(peer: NodeId) returns (request: Message)
      requires Valid() && peer in peers
      ensures request == BuildAppend(id, State(), peer)
    {
      var next: int := nextIndex[peer];
      var prev: nat := next - 1;
      var prevTerm := 0;
      if prev > 0 && prev <= |log| {
        prevTerm := log[prev - 1].term;
      }
      var entries: seq<Entry> := [];
      var i := prev;
      while i < |log|
        invariant prev <= |log| ==> prev <= i <= |log| && entries == log[prev..i]
        invariant prev > |log| ==> entries == []
      {
        entries := entries + [log[i]];
        i := i + 1;
      }
      request := AppendEntries(currentTerm, id, prev, prevTerm, entries, commitIndex);
    }

    method ReceiveAppendReply(peer: NodeId, lastIndex: nat, term: nat, success: bool)
      requires Valid() && peer in peers
      modifies this
      ensures Valid()
      ensures State() == HandleAppendReply(old(State()), peer, lastIndex, term, success)
    {
      if term > currentTerm {
        currentTerm := term;
        state := Follower;
        votedFor := None;
        return;
      }
      if success {
        matchIndex := matchIndex[peer := lastIndex];
        nextIndex := nextIndex[peer := lastIndex + 1];
      } else {
        var next: int := nextIndex[peer];
        nextIndex := nextIndex[peer := Max(1, next - 1)];
      }
    }

    method Propose(command: Command) returns (request: Option<Message>)
      requires Valid() && proposal.None?
      modifies this
      ensures Valid()
      ensures request.None? <==> old(state) != Leader
      ensures request.None? ==> State() == old(State())
      ensures request.Some? ==> (State(), request.value) == RaftTypes.Propose(id, old(State()), command)
    {
      if state != Leader {
        return None;
      }
      var entry := Entry(currentTerm, |log| + 1, command);
      log := log + [entry];
      proposal := Some(Proposal(entry.index, {id}));
      var prevTerm := 0;
      if entry.index > 1 {
        prevTerm := log[entry.index - 2].term;
      }
      request := Some(AppendEntries(currentTerm, id, entry.index - 1, prevTerm, [entry], commitIndex));
    }

    method FinishProposal() returns (committed: bool)
      requires Valid() && proposal.Some? && proposal.value.index <= |log|
      modifies this
      ensures Valid()
      ensures State() == RaftTypes.FinishProposal(old(State()), |peers| + 1)
      ensures committed <==> 2 * |old(proposal).value.acks| > |peers| + 1
    {
      var p := proposal.value;
      committed := 2 * |p.acks| > |peers| + 1;
      if committed && p.index > commitIndex {
        commitIndex := p.index;
      }
      proposal := None;
    }

    method ApplyCommitted()
      requires Valid() && lastApplied <= commitIndex <= |log|
      modifies this
      ensures Valid()
      ensures State() == RaftTypes.ApplyCommitted(old(State()))
    {
      ghost var before := State();
      while lastApplied < commitIndex
        invariant before.lastApplied <= lastApplied <= commitIndex <= |log|
        invariant State() == before.(lastApplied := lastApplied, applyQueue := applyQueue)
        invariant applyQueue == before.applyQueue + log[before.lastApplied..lastApplied]
      {
        lastApplied := lastApplied + 1;
        var entry := log[lastApplied - 1];
        applyQueue := applyQueue + [entry];
      }
    }
  }
}
