/** Leader completeness, what growth of the history keeps, and the actions that
    elect leaders or send messages: each keeps the invariant. */
module RaftElection {
  import opened Wrappers
  import opened RaftTypes
  import opened RaftCluster
  import opened RaftHistory

  // ---- Quorums and leader completeness ----

  /** Two majorities of the same cluster share a node. */
  lemma MajoritiesMeet(members: set<NodeId>, a: set<NodeId>, b: set<NodeId>) returns (v: NodeId)
    requires Majority(members, a) && Majority(members, b)
    ensures v in a && v in b
  {
    SubsetSize(a + b, members);
    assert |a + b| == |a| + |b| - |a * b|;
    v :| v in a * b;
  }

  lemma SubsetSize(a: set<NodeId>, b: set<NodeId>)
    requires a <= b
    ensures |a| <= |b|
  {
    assert |b| == |a| + |b - a| by { assert a + (b - a) == b; }
  }

  /** What a leader of term t committed is in the log of every leader elected later, from its election on. */
  lemma {:induction false} LeaderCompleteness(members: set<NodeId>, h: History, t: nat, k: nat, u: nat)
    requires HistoryOk(members, h) && (t, k) in h.commits && u in h.elections && t < u
    ensures Agree(h.termLog[t], h.elections[u].log, k)
    decreases u
  {
    assert CommitOk(members, h, t, k);
    var q :| AckQuorum(members, h, q, t, k);
    var e := h.elections[u];
    assert TermOk(members, h, u) && TermOk(members, h, t);
    var v := MajoritiesMeet(members, q, e.electors);
    assert BallotKeeps(h, v, u, t, k);
    var b := h.ballots[(v, u)];
    if !Agree(h.termLog[t], b.log, k) {
      var w: nat :| LostIn(h, t, k, w) && w < u;
      LeaderCompleteness(members, h, t, k, w);
      assert false;
    }
    assert BallotOk(h, v, u);
    assert Rooted(b.log, |b.log| - 1, h);
    var s := LastTerm(b.log);
    assert TermOk(members, h, s);
    assert b.log[k - 1].term == t;
    assert t <= s;
    assert LogIsCurrent(LastTerm(e.log), |e.log|, b.log);
    CurrentLogHolds(members, h, t, k, u, b.log);
  }

  /** The electing comparison of last terms and lengths carries committed entries over. */
  lemma CurrentLogHolds(members: set<NodeId>, h: History, t: nat, k: nat, u: nat, voterLog: seq<Entry>)
    requires HistoryOk(members, h) && (t, k) in h.commits && u in h.elections && t < u
    requires WellRooted(voterLog, h) && |voterLog| > 0 && t <= LastTerm(voterLog)
    requires Agree(h.termLog[t], voterLog, k)
    requires LogIsCurrent(LastTerm(h.elections[u].log), |h.elections[u].log|, voterLog)
    ensures Agree(h.termLog[t], h.elections[u].log, k)
    decreases u, 0
  {
    hide BallotsOk, BallotsKeep, AcksInLog;
    var log := h.elections[u].log;
    var s := LastTerm(log);
    assert Rooted(voterLog, |voterLog| - 1, h);
    assert |log| > 0;
    assert TermOk(members, h, u) && TermOk(members, h, t);
    assert WellRooted(log, h) by { assert (h.elections[u].leader, u) in h.candidacies; }
    assert Rooted(log, |log| - 1, h);
    if s != LastTerm(voterLog) {
      assert t < s < u;
      LeaderCompleteness(members, h, t, k, s);
      assert TermOk(members, h, s);
      assert Agree(h.termLog[t], h.termLog[s], k);
      assert h.termLog[s][|log| - 1].term == s;
      if |log| <= k {
        assert false;
      }
    }
  }

  // ---- Putting one node's step back into the cluster ----

  lemma Assemble(members: set<NodeId>, c: Cluster, h: History, h': History, id: NodeId, n': Node, sent: set<Message>)
    requires Inv(members, c, h) && id in members && Grows(h, h', id) && HistoryOk(members, h')
    requires NodeOk(members, id, n', h')
    requires forall m :: m in sent ==> MessageOk(members, m, h')
    ensures Inv(members, Cluster(c.nodes[id := n'], c.msgs + sent), h')
  {
    hide HistoryOk, NodeOk, MessageOk, Grows;
    forall w | w in members && w != id ensures NodeOk(members, w, c.nodes[w], h') {
      OtherNodeKeeps(members, w, c.nodes[w], h, h', id);
    }
    forall m | m in c.msgs ensures MessageOk(members, m, h') {
      MessageKeeps(members, m, h, h', id);
    }
  }

  // ---- What growth of the history keeps ----

  /** The node's log, acks and committed prefix survive a history that only grew. */
  lemma SelfGrows(members: set<NodeId>, id: NodeId, n: Node, h: History, h': History)
    requires Grows(h, h', id) && HistoryOk(members, h) && NodeOk(members, id, n, h)
    ensures LogOk(n, h') && ApplyOk(n, h')
    ensures forall t, k :: (id, t, k) in h.acks ==> AckOk(n, h', t, k)
  {
    WellRootedGrows(n.log, h, h', id);
    CommittedGrows(h, h', id, n.log, n.log, n.commitIndex, n.term, n.term);
    forall t, k | (id, t, k) in h.acks ensures AckOk(n, h', t, k) {
      assert AckOk(n, h, t, k);
      AckGrows(h, h', id, n, t, k);
    }
  }

  // A clause of HistoryOk survives growth as soon as what is new satisfies it.

  lemma TermsGrow(members: set<NodeId>, h: History, h': History, id: NodeId)
    requires TermsOk(members, h) && Grows(h, h', id) && h'.termLog.Keys == h'.elections.Keys
    requires forall t :: t in h'.termLog && (t in h.termLog ==> h'.termLog[t] != h.termLog[t]) ==>
               TermOk(members, h', t)
    ensures TermsOk(members, h')
  {
    forall t | t in h'.termLog ensures TermOk(members, h', t) {
      if t in h.termLog && h'.termLog[t] == h.termLog[t] {
        assert TermOk(members, h, t);
        WellRootedGrows(h.termLog[t], h, h', id);
      }
    }
  }

  lemma CandidaciesGrow(h: History, h': History, id: NodeId)
    requires CandidaciesOk(h) && Grows(h, h', id)
    requires forall k :: k in h'.candidacies && k !in h.candidacies ==> WellRooted(h'.candidacies[k], h')
    ensures CandidaciesOk(h')
  {
    forall c, t | (c, t) in h'.candidacies ensures WellRooted(h'.candidacies[(c, t)], h') {
      if (c, t) in h.candidacies {
        WellRootedGrows(h.candidacies[(c, t)], h, h', id);
      }
    }
  }

  lemma BallotsGrow(h: History, h': History, id: NodeId)
    requires BallotsOk(h) && Grows(h, h', id)
    requires forall v, t :: (v, t) in h'.ballots && (v, t) !in h.ballots ==> BallotOk(h', v, t)
    ensures BallotsOk(h')
  {
    forall v, t | (v, t) in h'.ballots ensures BallotOk(h', v, t) {
      if (v, t) in h.ballots {
        assert BallotOk(h, v, t);
        WellRootedGrows(h.ballots[(v, t)].log, h, h', id);
      }
    }
  }

  lemma BallotsKeepGrow(h: History, h': History, id: NodeId)
    requires AcksInLog(h) && BallotsKeep(h) && Grows(h, h', id) && AcksInLog(h')
    requires forall v, t, s, k ::
               (&& (v, t) in h'.ballots && (v, s, k) in h'.acks && s < t && Decisive(h', v, t)
                && ((v, t) !in h.ballots || (v, s, k) !in h.acks)) ==> BallotKeeps(h', v, t, s, k)
    ensures BallotsKeep(h')
  {
    forall v, t, s, k | (v, t) in h'.ballots && (v, s, k) in h'.acks && s < t && Decisive(h', v, t)
      ensures BallotKeeps(h', v, t, s, k)
    {
      if (v, t) in h.ballots && (v, s, k) in h.acks {
        assert Decisive(h, v, t);
        assert BallotKeeps(h, v, t, s, k);
        if !Agree(h.termLog[s], h.ballots[(v, t)].log, k) {
          var w: nat :| LostIn(h, s, k, w) && w < t;
          assert LostIn(h', s, k, w);
        }
      }
    }
  }

  lemma CommitsGrow(members: set<NodeId>, h: History, h': History, id: NodeId)
    requires CommitsOk(members, h) && Grows(h, h', id)
    requires forall t, k :: (t, k) in h'.commits && (t, k) !in h.commits ==> CommitOk(members, h', t, k)
    ensures CommitsOk(members, h')
  {
    forall t, k | (t, k) in h'.commits ensures CommitOk(members, h', t, k) {
      if (t, k) in h.commits {
        assert CommitOk(members, h, t, k);
        var q :| AckQuorum(members, h, q, t, k);
        assert AckQuorum(members, h', q, t, k);
      }
    }
  }

  /** A first vote of node `id` in term t, with its current log on the ballot. */
  ghost predicate NewBallot(h: History, h': History, id: NodeId, t: nat, candidate: NodeId, log: seq<Entry>) {
    && (id, t) !in h.ballots
    && h' == h.(ballots := h.ballots[(id, t) := Ballot(candidate, log)], candidacies := h'.candidacies)
    && Grows(h, h', id)
    && (forall k :: k in h'.candidacies && k !in h.candidacies ==> h'.candidacies[k] == log)
    && (candidate, t) in h'.candidacies
    && LogIsCurrent(LastTerm(h'.candidacies[(candidate, t)]), |h'.candidacies[(candidate, t)]|, log)
  }

  lemma NewBallotKeepsHistory(members: set<NodeId>, id: NodeId, n: Node, h: History, h': History, t: nat,
                              candidate: NodeId)
    requires HistoryOk(members, h) && NodeOk(members, id, n, h) && n.term <= t
    requires NewBallot(h, h', id, t, candidate, n.log)
    ensures HistoryOk(members, h')
  {
    hide Grows, WellRooted, TermOk, CommitOk, BallotsKeep, CommitsOk, CandidateOk, LeaderOk, ApplyOk, ProposalOk,
         AcksOk, BallotKeeps;
    TermsGrow(members, h, h', id);
    WellRootedGrows(n.log, h, h', id);
    CandidaciesGrow(h, h', id);
    BallotsGrow(h, h', id);
    forall s, k | (id, s, k) in h.acks && s < t && Decisive(h', id, t) ensures BallotKeeps(h', id, t, s, k) {
      NewBallotKeeps(members, id, n, h, h', t, candidate, s, k);
    }
    BallotsKeepGrow(h, h', id);
    CommitsGrow(members, h, h', id);
  }

  lemma NewBallotKeeps(members: set<NodeId>, id: NodeId, n: Node, h: History, h': History, t: nat,
                       candidate: NodeId, s: nat, k: nat)
    requires TermsOk(members, h) && AcksOk(id, n, h) && n.term <= t
    requires NewBallot(h, h', id, t, candidate, n.log)
    requires (id, s, k) in h.acks && s < t && Decisive(h', id, t)
    ensures BallotKeeps(h', id, t, s, k)
  {
    hide Grows, WellRooted;
    assert AckOk(n, h, s, k);
    if t in h.termLog && TermOk(members, h, t) {
      assert false;
    }
    if !Agree(h.termLog[s], n.log, k) {
      var w: nat :| LostIn(h, s, k, w) && w <= n.term;
      assert LostIn(h', s, k, w);
    }
  }

  // ---- One lemma per action ----

  ghost predicate Preserved(members: set<NodeId>, c: Cluster, a: Action, h: History, h': History)
    requires Enabled(c, a)
  {
    Grows(h, h', a.id) && Inv(members, Next(c, a), h')
  }

  lemma TimeoutKeeps(members: set<NodeId>, c: Cluster, a: Action, h: History) returns (h': History)
    requires Inv(members, c, h) && Enabled(c, a) && a.Timeout?
    ensures Preserved(members, c, a, h, h')
  {
    hide HistoryOk, NodeOk, MessageOk;
    var id, n := a.id, c.nodes[a.id];
    h' := CampaignNode(members, id, n, h);
    var (n', m) := StartElection(id, n);
    Assemble(members, c, h, h', id, n', {m});
  }

  lemma CampaignNode(members: set<NodeId>, id: NodeId, n: Node, h: History) returns (h': History)
    requires HistoryOk(members, h) && NodeOk(members, id, n, h) && id in members && n.proposal.None?
    ensures HistoryOk(members, h') && Grows(h, h', id)
    ensures var (n', m) := StartElection(id, n); NodeOk(members, id, n', h') && MessageOk(members, m, h')
  {
    hide HistoryOk, WellRooted, LogOk, LeaderOk, AcksOk, ApplyOk, ProposalOk;
    var t := n.term + 1;
    h' := h.(candidacies := h.candidacies[(id, t) := n.log], ballots := h.ballots[(id, t) := Ballot(id, n.log)]);
    NewBallotKeepsHistory(members, id, n, h, h', t, id);
    TimeoutNode(members, id, n, h, h');
  }

  lemma TimeoutNode(members: set<NodeId>, id: NodeId, n: Node, h: History, h': History)
    requires HistoryOk(members, h) && NodeOk(members, id, n, h) && id in members && n.proposal.None?
    requires NewBallot(h, h', id, n.term + 1, id, n.log)
    requires h'.candidacies == h.candidacies[(id, n.term + 1) := n.log]
    ensures NodeOk(members, id, StartElection(id, n).0, h')
  {
    hide HistoryOk, LogIsCurrent;
    var n' := StartElection(id, n).0;
    SelfGrows(members, id, n, h, h');
    CommittedGrows(h, h', id, n.log, n.log, n.commitIndex, n.term, n'.term);
    forall t, k | (id, t, k) in h'.acks ensures AckOk(n', h', t, k) {
      AckOutlives(n, n', h', t, k);
    }
  }

  /** An ack stays accounted for when the node's term rises and its log is unchanged. */
  lemma AckOutlives(n: Node, n': Node, h: History, t: nat, k: nat)
    requires AckOk(n, h, t, k) && n'.log == n.log && n.term <= n'.term
    ensures AckOk(n', h, t, k)
  {
    if !Agree(h.termLog[t], n.log, k) {
      var u: nat :| LostIn(h, t, k, u) && u <= n.term;
      assert LostIn(h, t, k, u) && u <= n'.term;
    }
  }

  /** Leaving for a later term without touching the log. */
  lemma NewTermNode(members: set<NodeId>, id: NodeId, n: Node, n': Node, h: History)
    requires NodeOk(members, id, n, h) && n.proposal.None?
    requires n.term < n'.term && n'.votedFor == None && n'.role == Follower
    requires n' == n.(term := n'.term, votedFor := None, role := Follower, leaderId := n'.leaderId)
    ensures NodeOk(members, id, n', h)
  {
    CommittedGrows(h, h, id, n.log, n.log, n.commitIndex, n.term, n'.term);
    forall t, k | (id, t, k) in h.acks ensures AckOk(n', h, t, k) {
      AckOutlives(n, n', h, t, k);
    }
  }

  lemma RequestVoteKeeps(members: set<NodeId>, c: Cluster, a: Action, h: History) returns (h': History)
    requires Inv(members, c, h) && Enabled(c, a) && a.ReceiveRequestVote?
    ensures Preserved(members, c, a, h, h')
  {
    hide HistoryOk, NodeOk, LogIsCurrent;
    var id, n, m := a.id, c.nodes[a.id], a.msg;
    var (n', r) := HandleRequestVote(id, n, m.term, m.candidate, m.lastLogIndex, m.lastLogTerm);
    assert MessageOk(members, m, h);
    h' := RequestVoteNode(members, id, n, h, m);
    Assemble(members, c, h, h', id, n', {r});
  }

  lemma RequestVoteNode(members: set<NodeId>, id: NodeId, n: Node, h: History, m: Message) returns (h': History)
    requires HistoryOk(members, h) && NodeOk(members, id, n, h) && n.proposal.None? && id in members
    requires m.RequestVote? && MessageOk(members, m, h)
    ensures HistoryOk(members, h') && Grows(h, h', id)
    ensures var (n', r) := HandleRequestVote(id, n, m.term, m.candidate, m.lastLogIndex, m.lastLogTerm);
            NodeOk(members, id, n', h') && MessageOk(members, r, h')
  {
    hide HistoryOk, WellRooted, LogOk, CandidateOk, LeaderOk, AcksOk, ApplyOk, ProposalOk, LogIsCurrent;
    var (n', r) := HandleRequestVote(id, n, m.term, m.candidate, m.lastLogIndex, m.lastLogTerm);
    var n1 := if m.term > n.term then StepDown(n, m.term) else n;
    if m.term > n.term {
      NewTermNode(members, id, n, n1, h);
    }
    h' := h;
    if r.granted && (id, m.term) !in h.ballots {
      h' := h.(ballots := h.ballots[(id, m.term) := Ballot(m.candidate, n1.log)]);
      NewBallotKeepsHistory(members, id, n1, h, h', m.term, m.candidate);
      VoteNode(members, id, n1, n', h, h', m.candidate);
    } else {
      assert n' == n1;
    }
  }

  lemma VoteNode(members: set<NodeId>, id: NodeId, n: Node, n': Node, h: History, h': History, candidate: NodeId)
    requires HistoryOk(members, h) && NodeOk(members, id, n, h) && n.proposal.None?
    requires NewBallot(h, h', id, n.term, candidate, n.log) && h'.candidacies == h.candidacies
    requires n' == n.(votedFor := Some(candidate))
    ensures NodeOk(members, id, n', h')
  {
    SelfGrows(members, id, n, h, h');
    forall t, k | (id, t, k) in h'.acks ensures AckOk(n', h', t, k) {
      AckOutlives(n, n', h', t, k);
    }
  }

  lemma VoteReplyKeeps(members: set<NodeId>, c: Cluster, a: Action, h: History)
    requires Inv(members, c, h) && Enabled(c, a) && a.ReceiveVoteReply?
    ensures Preserved(members, c, a, h, h)
  {
    hide HistoryOk, NodeOk, MessageOk;
    var id, n, m := a.id, c.nodes[a.id], a.msg;
    TallyNode(members, id, n, h, m);
    SameHistory(h, id);
    Assemble(members, c, h, h, id, TallyVote(n, m.voter, m.term, m.granted), {});
  }

  lemma SameHistory(h: History, id: NodeId)
    ensures Grows(h, h, id)
  {
  }

  lemma TallyNode(members: set<NodeId>, id: NodeId, n: Node, h: History, m: Message)
    requires NodeOk(members, id, n, h) && n.proposal.None?
    requires m.VoteReply? && m.candidate == id && MessageOk(members, m, h) && Timely(n, m)
    ensures NodeOk(members, id, TallyVote(n, m.voter, m.term, m.granted), h)
  {
    hide WellRooted, LogOk, VoteOk, LeaderOk, AcksOk, ApplyOk, ProposalOk;
    var n' := TallyVote(n, m.voter, m.term, m.granted);
    if m.term > n.term {
      NewTermNode(members, id, n, n', h);
    } else {
      SameLogNode(members, id, n, n', h);
    }
  }

  /** Changes to bookkeeping fields only. */
  lemma SameLogNode(members: set<NodeId>, id: NodeId, n: Node, n': Node, h: History)
    requires NodeOk(members, id, n, h)
    requires n' == n.(leaderId := n'.leaderId, granted := n'.granted, nextIndex := n'.nextIndex,
                      matchIndex := n'.matchIndex, role := n'.role)
    requires n'.granted <= members && n'.nextIndex.Keys <= members
    requires n'.role == n.role || (n'.role == Follower && n.proposal.None?)
    requires n'.role == Candidate ==>
               forall v :: v in n'.granted ==> (v, n.term) in h.ballots && h.ballots[(v, n.term)].candidate == id
    ensures NodeOk(members, id, n', h)
  {
    forall t, k | (id, t, k) in h.acks ensures AckOk(n', h, t, k) {
      AckOutlives(n, n', h, t, k);
    }
  }

  lemma WinElectionKeeps(members: set<NodeId>, c: Cluster, a: Action, h: History) returns (h': History)
    requires Inv(members, c, h) && Enabled(c, a) && a.WinElection?
    ensures Preserved(members, c, a, h, h')
  {
    hide HistoryOk, NodeOk, MessageOk;
    var id, n := a.id, c.nodes[a.id];
    h' := ElectNode(members, id, n, h);
    Assemble(members, c, h, h', id, BecomeLeader(id, n), {});
  }

  lemma ElectNode(members: set<NodeId>, id: NodeId, n: Node, h: History) returns (h': History)
    requires HistoryOk(members, h) && NodeOk(members, id, n, h) && n.proposal.None?
    requires n.role == Candidate && 2 * |n.granted| > |members|
    ensures HistoryOk(members, h') && Grows(h, h', id) && NodeOk(members, id, BecomeLeader(id, n), h')
  {
    hide HistoryOk, WellRooted, LogOk, LeaderOk, AcksOk, ApplyOk, ProposalOk, VoteOk, CandidateOk;
    NoRival(members, id, n, h);
    h' := h.(elections := h.elections[n.term := Election(id, n.log, n.granted)], termLog := h.termLog[n.term := n.log]);
    WinElectionHistory(members, id, n, h, h');
    WinElectionNode(members, id, n, h, h');
  }

  /** A candidate with a majority is the first to lead its term. */
  lemma NoRival(members: set<NodeId>, id: NodeId, n: Node, h: History)
    requires HistoryOk(members, h) && NodeOk(members, id, n, h)
    requires n.role == Candidate && Majority(members, n.granted)
    ensures n.term !in h.elections && n.term !in h.termLog
    ensures forall i :: 0 <= i < |n.log| ==> n.log[i].term < n.term
  {
    if n.term in h.elections {
      assert TermOk(members, h, n.term);
      var v := MajoritiesMeet(members, n.granted, h.elections[n.term].electors);
      assert false;
    }
    forall i | 0 <= i < |n.log| ensures n.log[i].term < n.term {
      assert Rooted(n.log, i, h);
    }
  }

  ghost predicate NewLeader(members: set<NodeId>, id: NodeId, n: Node, h: History, h': History) {
    && n.role == Candidate && Majority(members, n.granted) && n.term !in h.elections
    && (forall i :: 0 <= i < |n.log| ==> n.log[i].term < n.term)
    && h' == h.(elections := h.elections[n.term := Election(id, n.log, n.granted)],
                termLog := h.termLog[n.term := n.log])
    && Grows(h, h', id)
  }

  lemma NewLeaderTerm(members: set<NodeId>, id: NodeId, n: Node, h: History, h': History)
    requires TermsOk(members, h) && NodeOk(members, id, n, h) && NewLeader(members, id, n, h, h')
    ensures TermOk(members, h', n.term)
  {
    hide VoteOk, LeaderOk, AcksOk, ApplyOk, ProposalOk;
    WellRootedGrows(n.log, h, h', id);
    SortedFromRooted(members, n.log, h);
  }

  lemma WinElectionHistory(members: set<NodeId>, id: NodeId, n: Node, h: History, h': History)
    requires HistoryOk(members, h) && NodeOk(members, id, n, h) && NewLeader(members, id, n, h, h')
    ensures HistoryOk(members, h')
  {
    hide Grows, WellRooted, TermOk, BallotOk, CommitOk, CandidaciesOk, BallotsOk, CommitsOk, BallotKeeps, BallotsKeep,
         LogOk, VoteOk, CandidateOk, LeaderOk, AcksOk, ApplyOk, ProposalOk;
    NewLeaderTerm(members, id, n, h, h');
    TermsGrow(members, h, h', id);
    CandidaciesGrow(h, h', id);
    BallotsGrow(h, h', id);
    BallotsKeepGrow(h, h', id);
    CommitsGrow(members, h, h', id);
  }

  lemma SortedFromRooted(members: set<NodeId>, log: seq<Entry>, h: History)
    requires TermsOk(members, h) && WellRooted(log, h)
    ensures TermsSorted(log)
  {
    forall i, j | 0 <= i <= j < |log| ensures log[i].term <= log[j].term {
      assert Rooted(log, j, h);
      assert TermOk(members, h, log[j].term);
    }
  }

  lemma WinElectionNode(members: set<NodeId>, id: NodeId, n: Node, h: History, h': History)
    requires HistoryOk(members, h) && NodeOk(members, id, n, h) && NewLeader(members, id, n, h, h')
    requires n.proposal.None?
    ensures NodeOk(members, id, BecomeLeader(id, n), h')
  {
    hide HistoryOk;
    var n' := BecomeLeader(id, n);
    SelfGrows(members, id, n, h, h');
    forall t, k | (id, t, k) in h'.acks ensures AckOk(n', h', t, k) {
      AckOutlives(n, n', h', t, k);
    }
  }

  /** Whatever a stale nextIndex says, the message covers everything the leader holds. */
  lemma BuildAppendOk(members: set<NodeId>, id: NodeId, n: Node, peer: NodeId, h: History)
    requires HistoryOk(members, h) && NodeOk(members, id, n, h) && n.role == Leader && id in members
    requires peer in n.nextIndex
    ensures MessageOk(members, BuildAppend(id, n, peer), h)
    ensures var m := BuildAppend(id, n, peer); m.leaderCommit <= m.prevLogIndex + |m.entries|
  {
    hide CandidaciesOk, BallotsOk, BallotsKeep, CommitsOk, AcksInLog, VoteOk, CandidateOk, AcksOk, ProposalOk, TermOk;
  }

  lemma SendAppendKeeps(members: set<NodeId>, c: Cluster, a: Action, h: History)
    requires Inv(members, c, h) && Enabled(c, a) && a.SendAppend?
    ensures Preserved(members, c, a, h, h)
  {
    hide HistoryOk, NodeOk, MessageOk;
    var id, n := a.id, c.nodes[a.id];
    BuildAppendOk(members, id, n, a.peer, h);
    SameHistory(h, id);
    Assemble(members, c, h, h, id, n, {BuildAppend(id, n, a.peer)});
  }

  lemma AppendReplyKeeps(members: set<NodeId>, c: Cluster, a: Action, h: History)
    requires Inv(members, c, h) && Enabled(c, a) && a.ReceiveAppendReply?
    ensures Preserved(members, c, a, h, h)
  {
    hide HistoryOk, NodeOk, MessageOk;
    var id, n, m := a.id, c.nodes[a.id], a.msg;
    ReplyNode(members, id, n, h, m);
    SameHistory(h, id);
    Assemble(members, c, h, h, id, HandleAppendReply(n, m.follower, m.lastIndex, m.term, m.success), {});
  }

  lemma ReplyNode(members: set<NodeId>, id: NodeId, n: Node, h: History, m: Message)
    requires NodeOk(members, id, n, h) && n.proposal.None? && m.AppendReply? && m.follower in n.nextIndex
    ensures NodeOk(members, id, HandleAppendReply(n, m.follower, m.lastIndex, m.term, m.success), h)
  {
    hide LogOk, VoteOk, LeaderOk, AcksOk, ApplyOk, ProposalOk;
    var n' := HandleAppendReply(n, m.follower, m.lastIndex, m.term, m.success);
    if m.term > n.term {
      NewTermNode(members, id, n, n', h);
    } else {
      SameLogNode(members, id, n, n', h);
    }
  }
}
