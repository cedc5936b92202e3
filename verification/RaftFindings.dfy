/** What the source's elections can reach, why votes must be timely, and runs
    showing that the protocol makes progress. */
module RaftFindings {
  import opened Wrappers
  import opened RaftTypes
  import opened RaftCluster
  import opened RaftHistory
  import opened RaftElection
  import opened RaftReplication
  import opened RaftSafety

  // ---- Elections under the lock ----

  ghost predicate LeaderReachable(members: set<NodeId>) {
    exists run: seq<Cluster> :: RunLocked(members, run) && HasLeader(run[|run| - 1])
  }

  ghost predicate HasLeader(c: Cluster) {
    exists id :: id in c.nodes && c.nodes[id].role == Leader
  }

  /** Because the timer holds the lock until the votes are counted, a node only ever has its
      own vote by then: as written, a cluster of two or more never elects a leader. */
  lemma LeaderReachableIffAlone(members: set<NodeId>)
    ensures LeaderReachable(members) <==> |members| == 1
  {
    if |members| == 1 {
      AloneWins(members);
    }
    if LeaderReachable(members) {
      var run: seq<Cluster> :| RunLocked(members, run) && HasLeader(run[|run| - 1]);
      var id :| id in run[|run| - 1].nodes && run[|run| - 1].nodes[id].role == Leader;
      if |members| != 1 {
        NoLeaderUnderLock(members, run, |run| - 1);
        assert false;
      }
    }
  }

  lemma AloneWins(members: set<NodeId>)
    requires |members| == 1
    ensures LeaderReachable(members)
  {
    hide EnabledUnguarded, LockedElection, Next, Init;
    var id :| id in members;
    assert members == {id} by {
      assert |members - {id}| == 0;
    }
    var c := Init(members);
    LoneTimeout(id);
    LoneElection(id);
    var run := [c, LockedElection(c, id)];
    assert Timeout(id).id == id;
    assert StepLocked(run[0], run[1]);
    assert RunLocked(members, run) && HasLeader(run[|run| - 1]);
  }

  lemma LoneTimeout(id: NodeId)
    ensures EnabledUnguarded(Init({id}), Timeout(id))
    ensures EnabledUnguarded(Next(Init({id}), Timeout(id)), WinElection(id))
  {
    var c := Init({id});
    assert EnabledUnguarded(c, Timeout(id));
    var d := Next(c, Timeout(id));
    assert d.nodes.Keys == {id} && |d.nodes| == |d.nodes.Keys|;
    assert d.nodes[id].granted == {id} && |{id}| == 1;
  }

  lemma LoneElection(id: NodeId)
    requires EnabledUnguarded(Init({id}), Timeout(id))
    requires EnabledUnguarded(Next(Init({id}), Timeout(id)), WinElection(id))
    ensures var c' := LockedElection(Init({id}), id);
            id in c'.nodes && c'.nodes[id].role == Leader
  {
  }

  lemma {:induction false} NoLeaderUnderLock(members: set<NodeId>, run: seq<Cluster>, k: nat)
    requires RunLocked(members, run) && k < |run| && |members| != 1
    ensures run[k].nodes.Keys == members && !HasLeader(run[k])
  {
    if k > 0 {
      NoLeaderUnderLock(members, run, k - 1);
      assert StepLocked(run[k - 1], run[k]);
      LockedStepElectsNone(members, run[k - 1], run[k]);
    }
  }

  lemma LockedStepElectsNone(members: set<NodeId>, c: Cluster, c': Cluster)
    requires c.nodes.Keys == members && |members| != 1 && !HasLeader(c) && StepLocked(c, c')
    ensures c'.nodes.Keys == members && !HasLeader(c')
  {
    hide Effect, Guard;
    var a :| EnabledUnguarded(c, a) && !a.WinElection?
          && c' == if a.Timeout? then LockedElection(c, a.id) else Next(c, a);
    var d := Next(c, a);
    ActorIsNoLeader(c, a);
    assert d.nodes.Keys == members && |d.nodes| == |d.nodes.Keys|;
    if a.Timeout? {
      assert members != {} by {
        assert a.id in members;
      }
      assert !EnabledUnguarded(d, WinElection(a.id)) by {
        OwnVoteIsNoMajority(d, a.id);
      }
    }
  }

  /** Only winning an election makes a leader; starting one leaves the node with its own vote. */
  lemma ActorIsNoLeader(c: Cluster, a: Action)
    requires EnabledUnguarded(c, a) && !a.WinElection? && c.nodes[a.id].role != Leader
    ensures Next(c, a).nodes[a.id].role != Leader
    ensures a.Timeout? ==> Next(c, a).nodes[a.id].granted == {a.id}
  {
    hide MergeEntries;
  }

  lemma OwnVoteIsNoMajority(c: Cluster, id: NodeId)
    requires id in c.nodes && c.nodes[id].granted == {id} && |c.nodes| > 1
    ensures !EnabledUnguarded(c, WinElection(id))
  {
    assert |{id}| == 1;
  }

  // ---- Votes from an earlier election ----

  lemma Act(run: seq<Cluster>, members: set<NodeId>, a: Action) returns (run': seq<Cluster>)
    requires RunUnguarded(members, run) && EnabledUnguarded(run[|run| - 1], a)
    ensures RunUnguarded(members, run') && run'[|run'| - 1] == Next(run[|run| - 1], a)
  {
    run' := run + [Next(run[|run| - 1], a)];
    forall k | 0 < k < |run'| ensures StepUnguarded(run'[k - 1], run'[k]) {
      if k < |run| {
        assert StepUnguarded(run[k - 1], run[k]);
      }
    }
  }

  const Three: set<NodeId> := {0, 1, 2}

  /** Node 0 campaigns in term 1 and gets node 1's grant, which stays in flight; node 0 campaigns again. */
  lemma FirstCampaign() returns (run: seq<Cluster>)
    ensures RunUnguarded(Three, run)
    ensures var c := run[|run| - 1];
            && c.nodes.Keys == Three
            && c.nodes[0] == InitNode(Three, 0).(role := Candidate, term := 2, votedFor := Some(0), granted := {0})
            && c.nodes[1] == InitNode(Three, 1).(term := 1, votedFor := Some(0))
            && c.nodes[2] == InitNode(Three, 2)
            && VoteReply(1, 0, 1, 1, true) in c.msgs
  {
    run := [Init(Three)];
    run := Act(run, Three, Timeout(0));
    run := Act(run, Three, ReceiveRequestVote(1, RequestVote(1, 0, 0, 0)));
    run := Act(run, Three, Timeout(0));
  }

  /** Node 2 wins term 2 with node 1's vote. */
  lemma SecondCampaign() returns (run: seq<Cluster>)
    ensures RunUnguarded(Three, run)
    ensures var c := run[|run| - 1];
            && c.nodes.Keys == Three
            && c.nodes[0] == InitNode(Three, 0).(role := Candidate, term := 2, votedFor := Some(0), granted := {0})
            && c.nodes[2].role == Leader && c.nodes[2].term == 2
            && VoteReply(1, 0, 1, 1, true) in c.msgs
  {
    run := FirstCampaign();
    run := Act(run, Three, Timeout(2));
    run := Act(run, Three, Timeout(2));
    var n := InitNode(Three, 2).(role := Candidate, term := 2, votedFor := Some(2), granted := {2});
    assert run[|run| - 1].nodes[2] == n;
    assert RequestVote(2, 2, 0, 0) in run[|run| - 1].msgs;
    run := Act(run, Three, ReceiveRequestVote(1, RequestVote(2, 2, 0, 0)));
    assert VoteReply(1, 2, 2, 2, true) in run[|run| - 1].msgs;
    run := Act(run, Three, ReceiveVoteReply(2, VoteReply(1, 2, 2, 2, true)));
    assert run[|run| - 1].nodes[2] == n.(granted := {1, 2});
    run := Act(run, Three, WinElection(2));
  }

  /** Why the protocol compares terms: with the lock released while votes come in, counting a vote granted in an
      earlier term elects two leaders in one term.  Node 0 counts node 1's late grant for term 1 in term 2, where
      node 1 has voted for node 2. */
  lemma LateVoteElectsTwoLeaders() returns (run: seq<Cluster>)
    ensures RunUnguarded(Three, run)
    ensures var c := run[|run| - 1];
            && 0 in c.nodes && 2 in c.nodes
            && c.nodes[0].role == Leader && c.nodes[2].role == Leader && c.nodes[0].term == c.nodes[2].term
  {
    run := SecondCampaign();
    run := Act(run, Three, ReceiveVoteReply(0, VoteReply(1, 0, 1, 1, true)));
    assert run[|run| - 1].nodes[0].granted == {0, 1};
    run := Act(run, Three, WinElection(0));
  }

  // ---- Replication converges ----

  /** One heartbeat exchange between leader `id` and follower `peer` that gets through. */
  function Exchange(id: NodeId, n: Node, peer: NodeId, f: Node): (Node, Node)
    requires peer in n.nextIndex
  {
    var m := BuildAppend(id, n, peer);
    var (f', r) := HandleAppendEntries(peer, f, m.term, id, m.prevLogIndex, m.prevLogTerm, m.entries, m.leaderCommit);
    if r.AppendReply? then (HandleAppendReply(n, peer, r.lastIndex, r.term, r.success), f') else (n, f')
  }

  function Exchanges(id: NodeId, n: Node, peer: NodeId, f: Node, k: nat): (r: (Node, Node))
    requires peer in n.nextIndex
    ensures peer in r.0.nextIndex
    decreases k
  {
    if k == 0 then (n, f) else var (n', f') := Exchange(id, n, peer, f); Exchanges(id, n', peer, f', k - 1)
  }

  ghost predicate CaughtUp(n: Node, peer: NodeId, f: Node) {
    && peer in n.nextIndex && n.nextIndex[peer] == |n.log| + 1
    && peer in n.matchIndex && n.matchIndex[peer] == |n.log|
    && n.log <= f.log
  }

  /** However stale the leader's nextIndex and whatever the follower's log diverged into, at
      most nextIndex exchanges give the follower the leader's whole log. */
  lemma {:induction false} ReplicationConverges(members: set<NodeId>, h: History, id: NodeId, n: Node,
                                                peer: NodeId, f: Node)
    returns (k: nat)
    requires HistoryOk(members, h) && NodeOk(members, id, n, h) && n.role == Leader && id in members
    requires peer in n.nextIndex && WellRooted(f.log, h) && f.term <= n.term
    ensures k <= n.nextIndex[peer]
    ensures var (n', f') := Exchanges(id, n, peer, f, k);
            n'.role == Leader && n'.term == n.term && n'.log == n.log && CaughtUp(n', peer, f')
    decreases n.nextIndex[peer]
  {
    hide HistoryOk, WellRooted, LogOk, VoteOk, AcksOk, ApplyOk, ProposalOk;
    var m := BuildAppend(id, n, peer);
    var (n', f') := Exchange(id, n, peer, f);
    if HoldsPrevious(f.log, m.prevLogIndex, m.prevLogTerm) {
      k := 1;
      AcceptedCatchesUp(members, h, id, n, peer, f);
      assert Exchanges(id, n, peer, f, 1) == Exchanges(id, n', peer, f', 0);
    } else {
      SameLogNode(members, id, n, n', h);
      var k' := ReplicationConverges(members, h, id, n', peer, f');
      k := k' + 1;
      assert Exchanges(id, n, peer, f, k) == Exchanges(id, n', peer, f', k');
    }
  }

  lemma AcceptedCatchesUp(members: set<NodeId>, h: History, id: NodeId, n: Node, peer: NodeId, f: Node)
    requires HistoryOk(members, h) && NodeOk(members, id, n, h) && n.role == Leader && id in members
    requires peer in n.nextIndex && WellRooted(f.log, h) && f.term <= n.term
    requires var m := BuildAppend(id, n, peer); HoldsPrevious(f.log, m.prevLogIndex, m.prevLogTerm)
    ensures var (n', f') := Exchange(id, n, peer, f);
            n'.role == Leader && n'.term == n.term && n'.log == n.log && CaughtUp(n', peer, f')
  {
    hide HistoryOk, WellRooted, LogOk, VoteOk, AcksOk, ApplyOk, ProposalOk, CandidateOk;
    var m := BuildAppend(id, n, peer);
    BuildAppendOk(members, id, n, peer, h);
    AcceptedFollows(members, f, h, m);
    StaleIsRefused(members, h, id, n, peer, f);
  }

  /** A message whose nextIndex points past the leader's log is never accepted. */
  lemma StaleIsRefused(members: set<NodeId>, h: History, id: NodeId, n: Node, peer: NodeId, f: Node)
    requires HistoryOk(members, h) && WellRooted(f.log, h) && peer in n.nextIndex
    requires var m := BuildAppend(id, n, peer); HoldsPrevious(f.log, m.prevLogIndex, m.prevLogTerm)
    ensures n.nextIndex[peer] <= |n.log| + 1
  {
    hide HistoryOk;
    var m := BuildAppend(id, n, peer);
    if m.prevLogIndex > 0 {
      assert Rooted(f.log, m.prevLogIndex - 1, h);
    }
  }

  /** In every reachable state a leader can repair any of its peers that has not moved to a later term. */
  lemma LeaderRepairsFollower(members: set<NodeId>, run: seq<Cluster>, k: nat, a: NodeId,
                              b: NodeId) returns (rounds: nat)
    requires Run(members, run) && k < |run| && a in run[k].nodes && b in run[k].nodes
    requires run[k].nodes[a].role == Leader && b in run[k].nodes[a].nextIndex
    requires run[k].nodes[b].term <= run[k].nodes[a].term
    ensures var n, f := run[k].nodes[a], run[k].nodes[b];
            var (n', f') := Exchanges(a, n, b, f, rounds);
            n'.role == Leader && n'.log == n.log && CaughtUp(n', b, f')
  {
    hide HistoryOk, WellRooted, VoteOk, CandidateOk, LeaderOk, AcksOk, ApplyOk, ProposalOk, Run, CaughtUp;
    var hs := RunHistories(members, run);
    assert Inv(members, run[k], hs[k]);
    assert NodeOk(members, a, run[k].nodes[a], hs[k]) && NodeOk(members, b, run[k].nodes[b], hs[k]);
    rounds := ReplicationConverges(members, hs[k], a, run[k].nodes[a], b, run[k].nodes[b]);
  }
}
