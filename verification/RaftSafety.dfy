/** The safety theorems of Raft (Ongaro and Ousterhout, extended version, Figure 3)
    for every run of the cluster model. */
module RaftSafety {
  import opened Wrappers
  import opened RaftTypes
  import opened RaftCluster
  import opened RaftHistory
  import opened RaftElection
  import opened RaftReplication

  lemma InitKeeps(members: set<NodeId>)
    ensures Inv(members, Init(members), EmptyHistory)
  {
  }

  lemma StepKeeps(members: set<NodeId>, c: Cluster, a: Action, h: History) returns (h': History)
    requires Inv(members, c, h) && Enabled(c, a)
    ensures Preserved(members, c, a, h, h')
  {
    hide Inv, Grows, Next, Guard;
    h' := h;
    match a {
      case Timeout(_) => h' := TimeoutKeeps(members, c, a, h);
      case ReceiveRequestVote(_, _) => h' := RequestVoteKeeps(members, c, a, h);
      case ReceiveVoteReply(_, _) => VoteReplyKeeps(members, c, a, h);
      case WinElection(_) => h' := WinElectionKeeps(members, c, a, h);
      case SendAppend(_, _) => SendAppendKeeps(members, c, a, h);
      case ReceiveAppend(_, _) => h' := AppendKeeps(members, c, a, h);
      case ReceiveAppendReply(_, _) => AppendReplyKeeps(members, c, a, h);
      case StartProposal(_, _) => h' := StartProposalKeeps(members, c, a, h);
      case ProposalAck(_, _) => ProposalAckKeeps(members, c, a, h);
      case EndProposal(_) => h' := EndProposalKeeps(members, c, a, h);
      case ApplyLog(_) => ApplyKeeps(members, c, a, h);
    }
  }

  /** Later facts extend earlier ones: the leader of a term, its log, and what it committed. */
  ghost predicate Later(h: History, h': History) {
    && (forall t :: t in h.elections ==> t in h'.elections && h'.elections[t] == h.elections[t])
    && (forall t :: t in h.termLog ==> t in h'.termLog && Agree(h.termLog[t], h'.termLog[t], |h.termLog[t]|))
    && h.commits <= h'.commits
  }

  ghost predicate Histories(members: set<NodeId>, run: seq<Cluster>, hs: seq<History>) {
    && |hs| == |run|
    && (forall k :: 0 <= k < |run| ==> Inv(members, run[k], hs[k]))
    && (forall j, k :: 0 <= j <= k < |hs| ==> Later(hs[j], hs[k]))
  }

  /** Every run can be annotated with a growing history satisfying the invariant. */
  lemma {:induction false} RunHistories(members: set<NodeId>, run: seq<Cluster>) returns (hs: seq<History>)
    requires Run(members, run)
    ensures Histories(members, run, hs)
    decreases |run|
  {
    hide Inv, Init, Grows, Next, Guard;
    if |run| == 1 {
      InitKeeps(members);
      hs := [EmptyHistory];
    } else {
      var last := |run| - 1;
      var before := run[..last];
      forall k | 0 < k < |before| ensures Step(before[k - 1], before[k]) {
        assert before[k - 1] == run[k - 1] && before[k] == run[k];
      }
      hs := RunHistories(members, before);
      assert Step(run[last - 1], run[last]);
      var a :| Enabled(run[last - 1], a) && run[last] == Next(run[last - 1], a);
      var h' := StepKeeps(members, run[last - 1], a, hs[last - 1]);
      GrowsIsLater(hs[last - 1], h', a.id);
      forall j | 0 <= j < last ensures Later(hs[j], h') {
        LaterTrans(hs[j], hs[last - 1], h');
      }
      hs := hs + [h'];
    }
  }

  lemma GrowsIsLater(h: History, h': History, id: NodeId)
    requires Grows(h, h', id)
    ensures Later(h, h')
  {
  }

  lemma LaterTrans(a: History, b: History, c: History)
    requires Later(a, b) && Later(b, c)
    ensures Later(a, c)
  {
  }

  // ---- Theorems ----

  /** Election Safety (section 5.2): over a whole run, a term has at most one leader. */
  lemma ElectionSafety(members: set<NodeId>, run: seq<Cluster>, j: nat, k: nat, a: NodeId, b: NodeId)
    requires Run(members, run) && j <= k < |run| && a in run[j].nodes && b in run[k].nodes
    requires run[j].nodes[a].role == Leader && run[k].nodes[b].role == Leader
    requires run[j].nodes[a].term == run[k].nodes[b].term
    ensures a == b
  {
    hide HistoryOk;
    var hs := RunHistories(members, run);
    assert NodeOk(members, a, run[j].nodes[a], hs[j]);
    assert NodeOk(members, b, run[k].nodes[b], hs[k]);
    assert Later(hs[j], hs[k]);
  }

  /** Log Matching (section 5.3): logs with an entry of the same index and term are identical up to it. */
  lemma LogMatching(members: set<NodeId>, run: seq<Cluster>, k: nat, a: NodeId, b: NodeId, i: nat)
    requires Run(members, run) && k < |run| && a in run[k].nodes && b in run[k].nodes
    requires i < |run[k].nodes[a].log| && i < |run[k].nodes[b].log|
    requires run[k].nodes[a].log[i].term == run[k].nodes[b].log[i].term
    ensures run[k].nodes[a].log[..i + 1] == run[k].nodes[b].log[..i + 1]
    ensures run[k].nodes[a].log[i].index == i + 1
  {
    hide HistoryOk, WellRooted, VoteOk, CandidateOk, LeaderOk, AcksOk, ApplyOk, ProposalOk, Run, Later;
    var hs := RunHistories(members, run);
    var x, y := run[k].nodes[a], run[k].nodes[b];
    assert Inv(members, run[k], hs[k]);
    assert NodeOk(members, a, x, hs[k]) && NodeOk(members, b, y, hs[k]);
    SameEntryTermMatches(members, hs[k], x.log, y.log, i);
  }

  lemma SameEntryTermMatches(members: set<NodeId>, h: History, a: seq<Entry>, b: seq<Entry>, i: nat)
    requires HistoryOk(members, h) && WellRooted(a, h) && WellRooted(b, h)
    requires i < |a| && i < |b| && a[i].term == b[i].term
    ensures a[..i + 1] == b[..i + 1] && a[i].index == i + 1
  {
    hide HistoryOk;
    LogsMatch(a, b, h, i);
    assert Rooted(a, i, h);
  }

  /** Leader Completeness (section 5.4): what node a knows to be committed is in the
      log of every leader, then or later, whose term is at least a's. */
  lemma LeaderHoldsCommitted(members: set<NodeId>, run: seq<Cluster>, j: nat, k: nat, a: NodeId, b: NodeId)
    requires Run(members, run) && j <= k < |run| && a in run[j].nodes && b in run[k].nodes
    requires run[k].nodes[b].role == Leader && run[k].nodes[b].term >= run[j].nodes[a].term
    ensures var n, leader := run[j].nodes[a], run[k].nodes[b];
            n.commitIndex <= |n.log| && n.log[..n.commitIndex] <= leader.log
  {
    hide HistoryOk, LogOk, VoteOk, CandidateOk, AcksOk, ProposalOk, Run;
    var hs := RunHistories(members, run);
    var n, leader := run[j].nodes[a], run[k].nodes[b];
    assert NodeOk(members, a, n, hs[j]) && NodeOk(members, b, leader, hs[k]);
    CommittedLater(members, hs[j], hs[k], n.log, n.commitIndex, n.term);
    assert Inv(members, run[k], hs[k]);
    CommittedInLeader(members, hs[k], n.log, n.commitIndex, n.term, leader.term);
  }

  lemma CommittedLater(members: set<NodeId>, h: History, h': History, log: seq<Entry>, k: nat, bound: nat)
    requires Later(h, h') && Committed(h, log, k, bound)
    ensures Committed(h', log, k, bound)
  {
    if k > 0 {
      var t: nat, i: nat :| CommittedBy(h, log, k, bound, t, i);
      assert CommittedBy(h', log, k, bound, t, i);
    }
  }

  /** In every reachable state a node has applied exactly a prefix of its log, within what it
      knows to be committed, so the applier never indexes past the log. */
  lemma ApplyQueueIsLogPrefix(members: set<NodeId>, run: seq<Cluster>, k: nat, a: NodeId)
    requires Run(members, run) && k < |run| && a in run[k].nodes
    ensures var n := run[k].nodes[a];
            n.lastApplied <= n.commitIndex <= |n.log| && n.applyQueue == n.log[..n.lastApplied]
  {
    hide HistoryOk;
    var hs := RunHistories(members, run);
    assert NodeOk(members, a, run[k].nodes[a], hs[k]);
  }

  /** Two committed prefixes of the same history are prefixes of one log. */
  lemma CommittedComparable(members: set<NodeId>, h: History, x: seq<Entry>, i: nat, y: seq<Entry>, j: nat,
                            s: nat, w: nat)
    requires HistoryOk(members, h) && i <= j
    requires Committed(h, x, i, s) && Committed(h, y, j, w)
    ensures Agree(x, y, i)
  {
    hide HistoryOk;
    if i > 0 {
      var t: nat, u: nat :| CommittedBy(h, x, i, s, t, u);
      var t': nat, u': nat :| CommittedBy(h, y, j, w, t', u');
      var top := if t < t' then t' else t;
      assert CommittedBy(h, x, i, t, t, u) && CommittedBy(h, y, j, t', t', u');
      CommittedInLeader(members, h, x, i, t, top);
      CommittedInLeader(members, h, y, j, t', top);
    }
  }

  /** State Machine Safety (section 5.4.3): whatever node a has applied at one point of a run and
      node b has applied then or later, one of the two sequences is a prefix of the other. */
  lemma StateMachineSafety(members: set<NodeId>, run: seq<Cluster>, j: nat, k: nat, a: NodeId, b: NodeId)
    requires Run(members, run) && j <= k < |run| && a in run[j].nodes && b in run[k].nodes
    ensures var p, q := run[j].nodes[a].applyQueue, run[k].nodes[b].applyQueue; p <= q || q <= p
  {
    hide HistoryOk, LogOk, VoteOk, CandidateOk, LeaderOk, AcksOk, ApplyOk, ProposalOk, Run;
    var hs := RunHistories(members, run);
    var x, y := run[j].nodes[a], run[k].nodes[b];
    assert Inv(members, run[j], hs[j]) && Inv(members, run[k], hs[k]);
    assert NodeOk(members, a, x, hs[j]) && NodeOk(members, b, y, hs[k]);
    AppliedComparable(members, hs[j], x, hs[k], y);
  }

  lemma AppliedComparable(members: set<NodeId>, h: History, x: Node, h': History, y: Node)
    requires HistoryOk(members, h') && Later(h, h') && ApplyOk(x, h) && ApplyOk(y, h')
    ensures x.applyQueue <= y.applyQueue || y.applyQueue <= x.applyQueue
  {
    hide HistoryOk, Committed;
    CommittedLater(members, h, h', x.log, x.commitIndex, x.term);
    if x.commitIndex <= y.commitIndex {
      CommittedComparable(members, h', x.log, x.commitIndex, y.log, y.commitIndex, x.term, y.term);
    } else {
      CommittedComparable(members, h', y.log, y.commitIndex, x.log, x.commitIndex, y.term, x.term);
    }
  }

  /** Every AppendEntries ever sent announces a commit index it covers itself, so a follower's
      min(leaderCommit, length of its log) is Raft's min(leaderCommit, last new entry); and
      accepting it never cuts off a committed entry. */
  lemma CommitRuleIsRaft(members: set<NodeId>, run: seq<Cluster>, k: nat, m: Message, a: NodeId)
    requires Run(members, run) && k < |run| && m in run[k].msgs && m.AppendEntries? && a in run[k].nodes
    ensures m.leaderCommit <= m.prevLogIndex + |m.entries|
    ensures CommitsLikeRaft(a, run[k].nodes[a], m)
  {
    hide HistoryOk, LogOk, VoteOk, CandidateOk, LeaderOk, AcksOk, ApplyOk, ProposalOk, Run, CommitsLikeRaft;
    var hs := RunHistories(members, run);
    assert Inv(members, run[k], hs[k]);
    assert MessageOk(members, m, hs[k]);
    assert NodeOk(members, a, run[k].nodes[a], hs[k]);
    AcceptCommitsLikeRaft(members, a, run[k].nodes[a], hs[k], m);
  }

  predicate CommitsLikeRaft(id: NodeId, n: Node, m: Message)
    requires m.AppendEntries?
  {
    var (n', r) := HandleAppendEntries(id, n, m.term, m.leader, m.prevLogIndex, m.prevLogTerm,
                                       m.entries, m.leaderCommit);
    r.AppendReply? && r.success ==>
      && n'.commitIndex == Max(n.commitIndex, Min(m.leaderCommit, m.prevLogIndex + |m.entries|))
      && n.commitIndex <= n'.commitIndex <= |n'.log| && n.commitIndex <= |n.log|
      && n'.log[..n.commitIndex] == n.log[..n.commitIndex]
  }

  lemma AcceptCommitsLikeRaft(members: set<NodeId>, id: NodeId, n: Node, h: History, m: Message)
    requires HistoryOk(members, h) && NodeOk(members, id, n, h) && m.AppendEntries? && MessageOk(members, m, h)
    ensures CommitsLikeRaft(id, n, m)
  {
    hide HistoryOk, WellRooted, VoteOk, CandidateOk, LeaderOk, AcksOk, ProposalOk;
    if m.term >= n.term && HoldsPrevious(n.log, m.prevLogIndex, m.prevLogTerm) {
      AcceptedFollows(members, n, h, m);
      CommittedInLeader(members, h, n.log, n.commitIndex, n.term, m.term);
      FollowedKeeps(h, m.term, n.log, MergeEntries(n.log, m.prevLogIndex, m.entries),
                    m.prevLogIndex + |m.entries|, n.log, n.commitIndex);
    }
  }
}
