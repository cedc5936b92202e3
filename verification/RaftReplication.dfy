/** Replication: the append loop, and the actions that move entries, commit
    them and apply them. */
module RaftReplication {
  import opened Wrappers
  import opened RaftTypes
  import opened RaftCluster
  import opened RaftHistory
  import opened RaftElection

  // ---- AppendEntries ----

  ghost predicate SameTerms(log: seq<Entry>, prev: nat, entries: seq<Entry>, k: nat)
    requires k <= |entries|
  {
    forall j :: 0 <= j < k && prev + j < |log| ==> log[prev + j].term == entries[j].term
  }

  /** What the append loop leaves when nothing conflicts: a stale or duplicated
      message never shortens the log. */
  lemma {:induction false} MergeWithoutConflict(log: seq<Entry>, prev: nat, entries: seq<Entry>)
    requires prev <= |log| && SameTerms(log, prev, entries, |entries|)
    ensures MergeEntries(log, prev, entries) ==
            if prev + |entries| <= |log| then log else log + entries[|log| - prev..]
    decreases |entries|
  {
    if entries != [] {
      var log1, rest := PlaceEntry(log, prev, entries[0]), entries[1..];
      assert SameTerms(log1, prev + 1, rest, |rest|) by {
        assert forall j :: 0 <= j < |rest| ==> rest[j] == entries[j + 1];
      }
      MergeWithoutConflict(log1, prev + 1, rest);
      if prev < |log| {
        assert log[prev].term == entries[0].term;
        assert prev + |entries| > |log| ==> entries[|log| - prev..] == rest[|log| - prev - 1..];
      } else {
        assert log1 + rest[|log1| - (prev + 1)..] == log + entries[|log| - prev..];
      }
    }
  }

  /** Otherwise the log is cut at the first conflict and completed from the message. */
  lemma {:induction false} MergeAtConflict(log: seq<Entry>, prev: nat, entries: seq<Entry>, c: nat)
    requires c < |entries| && prev + c < |log| && SameTerms(log, prev, entries, c)
    requires log[prev + c].term != entries[c].term
    ensures MergeEntries(log, prev, entries) == log[..prev + c] + entries[c..]
    decreases |entries|
  {
    var log1, rest := PlaceEntry(log, prev, entries[0]), entries[1..];
    if c == 0 {
      MergeWithoutConflict(log1, prev + 1, rest);
      assert log1 + rest == log[..prev] + entries;
    } else {
      assert log[prev].term == entries[0].term;
      forall j | 0 <= j < c - 1 && prev + 1 + j < |log| ensures log[prev + 1 + j].term == rest[j].term {
        assert log[prev + (j + 1)].term == entries[j + 1].term;
      }
      MergeAtConflict(log, prev + 1, rest, c - 1);
      assert log[prev + 1 + (c - 1)].term != rest[c - 1].term;
    }
  }

  /** Merging a slice of `ref` into a log that agrees with `ref` up to the slice:
      the log either already held the slice and is unchanged, or becomes `ref` up
      to the slice's end. */
  lemma {:induction false} MergeFollows(log: seq<Entry>, prev: nat, entries: seq<Entry>, ref: seq<Entry>)
    requires Agree(log, ref, prev) && prev + |entries| <= |ref|
    requires forall k :: 0 <= k < |entries| ==> entries[k] == ref[prev + k]
    requires forall j :: 0 <= j < |log| && j < |ref| && log[j].term == ref[j].term ==> Agree(log, ref, j + 1)
    ensures var r, last := MergeEntries(log, prev, entries), prev + |entries|;
            if Agree(log, ref, last) then r == log else r == ref[..last]
    decreases |entries|
  {
    if entries == [] {
    } else {
      var log1 := PlaceEntry(log, prev, entries[0]);
      assert entries[0] == ref[prev];
      assert forall k :: 0 <= k < |entries| - 1 ==> entries[1..][k] == ref[prev + 1 + k];
      assert Agree(log1, ref, prev + 1);
      MergeFollows(log1, prev + 1, entries[1..], ref);
      if log1 != log {
        assert |log1| == prev + 1;
      }
    }
  }

  /** Two rooted logs with an entry of the same term at the same place agree up to there. */
  lemma LogsMatch(a: seq<Entry>, b: seq<Entry>, h: History, j: nat)
    requires WellRooted(a, h) && WellRooted(b, h)
    requires j < |a| && j < |b| && a[j].term == b[j].term
    ensures Agree(a, b, j + 1)
  {
    assert Rooted(a, j, h) && Rooted(b, j, h);
  }

  /** What an accepted AppendEntries of term t leaves in the log. */
  ghost predicate Followed(h: History, t: nat, before: seq<Entry>, log: seq<Entry>, last: nat)
    requires t in h.termLog
  {
    && Agree(log, h.termLog[t], last)
    && (log == before || (log == h.termLog[t][..last] && !Agree(before, h.termLog[t], last)))
  }

  lemma AcceptedFollows(members: set<NodeId>, n: Node, h: History, m: Message)
    requires m.AppendEntries? && HoldsPrevious(n.log, m.prevLogIndex, m.prevLogTerm)
    requires HistoryOk(members, h) && WellRooted(n.log, h) && MessageOk(members, m, h)
    ensures m.term in h.termLog && m.prevLogIndex + |m.entries| <= |h.termLog[m.term]|
    ensures Followed(h, m.term, n.log, MergeEntries(n.log, m.prevLogIndex, m.entries), m.prevLogIndex + |m.entries|)
  {
    hide WellRooted, CandidaciesOk, BallotsOk, AcksInLog, BallotsKeep, CommitsOk, Committed;
    assert TermOk(members, h, m.term);
    if m.prevLogIndex > 0 {
      RootedAt(n.log, m.prevLogIndex - 1, h);
    }
    SliceFollows(n, h, h.termLog[m.term], m);
  }

  lemma RootedAt(log: seq<Entry>, i: nat, h: History)
    requires WellRooted(log, h) && i < |log|
    ensures Rooted(log, i, h)
  {
  }

  lemma SliceFollows(n: Node, h: History, ref: seq<Entry>, m: Message)
    requires m.AppendEntries? && HoldsPrevious(n.log, m.prevLogIndex, m.prevLogTerm)
    requires WellRooted(n.log, h) && WellRooted(ref, h)
    requires m.prevLogIndex + |m.entries| <= |ref|
    requires forall k :: 0 <= k < |m.entries| ==> m.entries[k] == ref[m.prevLogIndex + k]
    requires m.prevLogTerm == if m.prevLogIndex == 0 then 0 else ref[m.prevLogIndex - 1].term
    ensures var log, last := MergeEntries(n.log, m.prevLogIndex, m.entries), m.prevLogIndex + |m.entries|;
            Agree(log, ref, last) && (log == n.log || (log == ref[..last] && !Agree(n.log, ref, last)))
  {
    hide WellRooted;
    if m.prevLogIndex > 0 {
      LogsMatch(n.log, ref, h, m.prevLogIndex - 1);
    }
    forall j | 0 <= j < |n.log| && j < |ref| && n.log[j].term == ref[j].term ensures Agree(n.log, ref, j + 1) {
      LogsMatch(n.log, ref, h, j);
    }
    MergeFollows(n.log, m.prevLogIndex, m.entries, ref);
  }

  /** Entries shared by the old log and the leader's log are kept. */
  lemma FollowedKeeps(h: History, t: nat, before: seq<Entry>, log: seq<Entry>, last: nat, shared: seq<Entry>, k: nat)
    requires t in h.termLog && Followed(h, t, before, log, last)
    requires Agree(shared, before, k) && Agree(shared, h.termLog[t], k)
    ensures Agree(shared, log, k)
  {
  }

  lemma AppendKeeps(members: set<NodeId>, c: Cluster, a: Action, h: History) returns (h': History)
    requires Inv(members, c, h) && Enabled(c, a) && a.ReceiveAppend?
    ensures Preserved(members, c, a, h, h')
  {
    hide HistoryOk, NodeOk, MessageOk;
    var id, n, m := a.id, c.nodes[a.id], a.msg;
    var (n', r) := HandleAppendEntries(id, n, m.term, m.leader, m.prevLogIndex, m.prevLogTerm, m.entries,
                                       m.leaderCommit);
    h' := AppendNode(members, id, n, h, m);
    Assemble(members, c, h, h', id, n', {r});
  }

  lemma AppendNode(members: set<NodeId>, id: NodeId, n: Node, h: History, m: Message) returns (h': History)
    requires HistoryOk(members, h) && NodeOk(members, id, n, h) && n.proposal.None? && id in members
    requires m.AppendEntries? && MessageOk(members, m, h)
    ensures HistoryOk(members, h') && Grows(h, h', id)
    ensures var (n', r) := HandleAppendEntries(id, n, m.term, m.leader, m.prevLogIndex, m.prevLogTerm,
                                               m.entries, m.leaderCommit);
            NodeOk(members, id, n', h') && MessageOk(members, r, h')
  {
    hide HistoryOk, WellRooted, LogOk, VoteOk, LeaderOk, AcksOk, ApplyOk, ProposalOk;
    h' := h;
    if m.term >= n.term {
      var n1 := if m.term > n.term then n.(term := m.term, votedFor := None) else n;
      var n2 := n1.(role := Follower, leaderId := Some(m.leader));
      if m.term > n.term {
        NewTermNode(members, id, n, n2, h);
      } else {
        SameLogNode(members, id, n, n2, h);
      }
      if HoldsPrevious(n2.log, m.prevLogIndex, m.prevLogTerm) {
        h' := AcceptNode(members, id, n2, h, m);
      }
    }
  }

  lemma AcceptNode(members: set<NodeId>, id: NodeId, n: Node, h: History, m: Message) returns (h': History)
    requires HistoryOk(members, h) && NodeOk(members, id, n, h) && n.proposal.None? && id in members
    requires m.AppendEntries? && MessageOk(members, m, h) && m.term == n.term && n.role == Follower
    requires HoldsPrevious(n.log, m.prevLogIndex, m.prevLogTerm)
    ensures HistoryOk(members, h') && Grows(h, h', id)
    ensures (id, m.term, m.prevLogIndex + |m.entries|) in h'.acks
    ensures NodeOk(members, id, Accepted(n, m), h')
  {
    hide TermsOk, CandidaciesOk, BallotsOk, AcksInLog, BallotsKeep, CommitsOk, LogOk, AcksOk, ApplyOk, WellRooted,
         Followed, Grows, MessageOk;
    var log, last := MergeEntries(n.log, m.prevLogIndex, m.entries), m.prevLogIndex + |m.entries|;
    RootedLog(n, h);
    AcceptedFollows(members, n, h, m);
    h' := h.(acks := h.acks + {(id, m.term, last)});
    NewAckKeepsHistory(members, id, n, h, h', m.term, last);
    AcceptedLogOk(members, id, n, h, h', m);
    AcceptedAcksOk(members, id, n, h, h', m);
    AcceptedApplyOk(members, id, n, h, h', m);
  }

  lemma RootedLog(n: Node, h: History)
    requires LogOk(n, h)
    ensures WellRooted(n.log, h)
  {
  }

  /** The node after accepting AppendEntries `m`. */
  function Accepted(n: Node, m: Message): Node
    requires m.AppendEntries? && HoldsPrevious(n.log, m.prevLogIndex, m.prevLogTerm)
  {
    var log := MergeEntries(n.log, m.prevLogIndex, m.entries);
    n.(log := log,
       commitIndex := if m.leaderCommit > n.commitIndex then Min(m.leaderCommit, |log|) else n.commitIndex)
  }

  lemma NewAckGrows(h: History, h': History, id: NodeId, t: nat, k: nat)
    requires h' == h.(acks := h.acks + {(id, t, k)})
    ensures Grows(h, h', id)
  {
  }

  lemma NewAckKeepsHistory(members: set<NodeId>, id: NodeId, n: Node, h: History, h': History, t: nat, k: nat)
    requires HistoryOk(members, h) && VoteOk(id, n, h)
    requires n.term == t && t in h.termLog && k <= |h.termLog[t]|
    requires h' == h.(acks := h.acks + {(id, t, k)})
    ensures HistoryOk(members, h') && Grows(h, h', id)
  {
    hide Grows, WellRooted, TermOk, BallotOk, CommitOk, TermsOk, CandidaciesOk, BallotsOk, BallotsKeep, CommitsOk,
         BallotKeeps;
    NewAckGrows(h, h', id, t, k);
    SameTermsGrow(members, h, h', id);
    BallotsKeepGrow(h, h', id);
  }

  /** Elections, candidacies and ballots survive when only acks and commits are added. */
  lemma SameTermsGrow(members: set<NodeId>, h: History, h': History, id: NodeId)
    requires TermsOk(members, h) && CandidaciesOk(h) && BallotsOk(h) && CommitsOk(members, h) && Grows(h, h', id)
    requires h' == h.(acks := h'.acks, commits := h'.commits)
    requires forall t, k :: (t, k) in h'.commits && (t, k) !in h.commits ==> CommitOk(members, h', t, k)
    ensures TermsOk(members, h') && CandidaciesOk(h') && BallotsOk(h') && CommitsOk(members, h')
  {
    hide Grows, WellRooted, TermOk, BallotOk, CommitOk, CommitsOk;
    assert h'.termLog.Keys == h'.elections.Keys;
    TermsGrow(members, h, h', id);
    CandidaciesGrow(h, h', id);
    BallotsGrow(h, h', id);
    CommitsGrow(members, h, h', id);
  }

  lemma AcceptedLogOk(members: set<NodeId>, id: NodeId, n: Node, h: History, h': History, m: Message)
    requires HistoryOk(members, h) && NodeOk(members, id, n, h) && Grows(h, h', id)
    requires m.AppendEntries? && MessageOk(members, m, h) && m.term == n.term
    requires HoldsPrevious(n.log, m.prevLogIndex, m.prevLogTerm)
    requires Followed(h, m.term, n.log, Accepted(n, m).log, m.prevLogIndex + |m.entries|)
    ensures LogOk(Accepted(n, m), h')
  {
    hide CandidaciesOk, BallotsOk, BallotsKeep, CommitsOk, VoteOk, CandidateOk, LeaderOk, AcksOk, ApplyOk;
    var log := Accepted(n, m).log;
    assert TermOk(members, h, m.term);
    forall i | 0 <= i < |log| ensures Rooted(log, i, h) && log[i].term <= n.term {
      assert Rooted(if log == n.log then n.log else h.termLog[m.term], i, h);
    }
    WellRootedGrows(log, h, h', id);
  }

  lemma AcceptedAcksOk(members: set<NodeId>, id: NodeId, n: Node, h: History, h': History, m: Message)
    requires m.AppendEntries? && HoldsPrevious(n.log, m.prevLogIndex, m.prevLogTerm)
    requires m.term in h.termLog && Followed(h, m.term, n.log, Accepted(n, m).log, m.prevLogIndex + |m.entries|)
    requires h' == h.(acks := h.acks + {(id, m.term, m.prevLogIndex + |m.entries|)})
    requires AcksOk(id, n, h) && AcksInLog(h) && TermsOk(members, h) && Grows(h, h', id) && m.term == n.term
    ensures AcksOk(id, Accepted(n, m), h')
  {
    hide Grows, Followed;
    var n', u := Accepted(n, m), m.term;
    assert TermOk(members, h, u);
    forall t, k | (id, t, k) in h'.acks ensures AckOk(n', h', t, k) {
      if (id, t, k) in h.acks {
        assert AckOk(n, h, t, k);
        AcceptedAckOk(id, n, n', h, h', u, m.prevLogIndex + |m.entries|, t, k);
      } else {
        assert Agree(n'.log, h.termLog[u], k) by { FollowedAgrees(h, u, n.log, n'.log, k); }
      }
    }
  }

  lemma FollowedAgrees(h: History, t: nat, before: seq<Entry>, log: seq<Entry>, last: nat)
    requires t in h.termLog && Followed(h, t, before, log, last)
    ensures Agree(log, h.termLog[t], last)
  {
  }

  lemma AcceptedAckOk(id: NodeId, n: Node, n': Node, h: History, h': History, u: nat, last: nat, t: nat, k: nat)
    requires u in h.termLog && u in h.elections && u == n.term == n'.term && Followed(h, u, n.log, n'.log, last)
    requires Agree(h.elections[u].log, h.termLog[u], |h.elections[u].log|)
    requires Grows(h, h', id) && h'.termLog == h.termLog && h'.elections == h.elections
    requires AckOk(n, h, t, k) && k <= |h.termLog[t]|
    ensures AckOk(n', h', t, k)
  {
    hide Grows;
    if Agree(h.termLog[t], n.log, k) {
      if t < u && !Agree(h.termLog[t], h.elections[u].log, k) {
        assert LostIn(h', t, k, u);
      } else {
        FollowedKeeps(h, u, n.log, n'.log, last, h.termLog[t], k);
      }
    } else {
      LostGrows(h, h', id, t, k, n.term, n.term);
    }
  }

  /** Committed entries are in the log of every leader of this or a later term. */
  lemma CommittedInLeader(members: set<NodeId>, h: History, log: seq<Entry>, k: nat, bound: nat, u: nat)
    requires HistoryOk(members, h) && Committed(h, log, k, bound) && bound <= u && u in h.termLog
    ensures Agree(log, h.termLog[u], k)
  {
    if k > 0 {
      var t: nat, i: nat :| CommittedBy(h, log, k, bound, t, i);
      if t < u {
        LeaderCompleteness(members, h, t, i, u);
        assert TermOk(members, h, u);
      }
    }
  }

  lemma AcceptedApplyOk(members: set<NodeId>, id: NodeId, n: Node, h: History, h': History, m: Message)
    requires HistoryOk(members, h) && NodeOk(members, id, n, h) && Grows(h, h', id)
    requires m.AppendEntries? && MessageOk(members, m, h) && m.term == n.term
    requires HoldsPrevious(n.log, m.prevLogIndex, m.prevLogTerm)
    requires Followed(h, m.term, n.log, Accepted(n, m).log, m.prevLogIndex + |m.entries|)
    ensures ApplyOk(Accepted(n, m), h')
  {
    hide HistoryOk, LogOk, VoteOk, CandidateOk, LeaderOk, AcksOk, WellRooted;
    var n', u := Accepted(n, m), m.term;
    CommittedInLeader(members, h, n.log, n.commitIndex, n.term, u);
    FollowedKeeps(h, u, n.log, n'.log, m.prevLogIndex + |m.entries|, n.log, n.commitIndex);
    assert n.log[..n.lastApplied] == n'.log[..n.lastApplied];
    if m.leaderCommit > n.commitIndex {
      CommittedGrows(h, h', id, h.termLog[u], n'.log, m.leaderCommit, u, n.term);
    } else {
      CommittedGrows(h, h', id, n.log, n'.log, n.commitIndex, n.term, n.term);
    }
  }

  // ---- Proposing, committing, applying ----

  lemma StartProposalKeeps(members: set<NodeId>, c: Cluster, a: Action, h: History) returns (h': History)
    requires Inv(members, c, h) && Enabled(c, a) && a.StartProposal?
    ensures Preserved(members, c, a, h, h')
  {
    hide HistoryOk, LogOk, VoteOk, CandidateOk, AcksOk, ApplyOk, WellRooted, MessageOk;
    var id, n := a.id, c.nodes[a.id];
    assert NodeOk(members, id, n, h);
    var (n', m) := Propose(id, n, a.command);
    h' := h.(termLog := h.termLog[n.term := n'.log], acks := h.acks + {(id, n.term, |n'.log|)});
    ProposalHistory(members, id, n, h, h', a.command);
    ProposalNode(members, id, n, h, h', a.command);
    ProposalMessage(members, id, n, h, h', a.command);
    Assemble(members, c, h, h', id, n', {m});
  }

  ghost predicate Proposed(id: NodeId, n: Node, h: History, h': History, command: Command) {
    var log := Propose(id, n, command).0.log;
    && n.role == Leader && n.proposal.None?
    && h' == h.(termLog := h.termLog[n.term := log], acks := h.acks + {(id, n.term, |log|)})
    && Grows(h, h', id)
  }

  lemma ProposalMessage(members: set<NodeId>, id: NodeId, n: Node, h: History, h': History, command: Command)
    requires HistoryOk(members, h) && NodeOk(members, id, n, h) && Proposed(id, n, h, h', command) && id in members
    ensures MessageOk(members, Propose(id, n, command).1, h')
  {
    hide HistoryOk, LogOk, VoteOk, CandidateOk, AcksOk, WellRooted;
    CommittedGrows(h, h', id, n.log, Propose(id, n, command).0.log, n.commitIndex, n.term, n.term);
  }

  lemma ProposalRooted(members: set<NodeId>, id: NodeId, n: Node, h: History, h': History, command: Command)
    requires NodeOk(members, id, n, h) && Proposed(id, n, h, h', command) && n.term > 0
    ensures WellRooted(Propose(id, n, command).0.log, h')
  {
    hide CandidateOk, VoteOk, AcksOk, ApplyOk, ProposalOk;
    var log := Propose(id, n, command).0.log;
    WellRootedGrows(n.log, h, h', id);
    forall i | 0 <= i < |log| ensures Rooted(log, i, h') {
      if i < |n.log| { assert Rooted(n.log, i, h'); }
    }
  }

  lemma ProposalTerm(members: set<NodeId>, id: NodeId, n: Node, h: History, h': History, command: Command)
    requires TermsOk(members, h) && NodeOk(members, id, n, h) && Proposed(id, n, h, h', command)
    ensures TermOk(members, h', n.term)
    ensures WellRooted(Propose(id, n, command).0.log, h')
  {
    hide CandidateOk, VoteOk, AcksOk, ApplyOk, ProposalOk, WellRooted, LogOk, Grows, TermOk;
    assert TermOk(members, h, n.term);
    TermPositive(members, h, n.term);
    ProposalRooted(members, id, n, h, h', command);
    LongerTerm(members, h, h', n.term, Entry(n.term, |n.log| + 1, command));
  }

  lemma TermPositive(members: set<NodeId>, h: History, t: nat)
    requires t in h.termLog && t in h.elections && TermOk(members, h, t)
    ensures t > 0
  {
  }

  /** A term's leader may append entries of its own term. */
  lemma LongerTerm(members: set<NodeId>, h: History, h': History, t: nat, e: Entry)
    requires t in h.termLog && t in h.elections && TermOk(members, h, t) && e.term == t
    requires h' == h.(termLog := h.termLog[t := h.termLog[t] + [e]], acks := h'.acks)
    requires WellRooted(h.termLog[t] + [e], h')
    ensures TermOk(members, h', t)
  {
    hide WellRooted;
  }

  lemma ProposalHistory(members: set<NodeId>, id: NodeId, n: Node, h: History, h': History, command: Command)
    requires HistoryOk(members, h) && NodeOk(members, id, n, h) && Proposed(id, n, h, h', command)
    ensures HistoryOk(members, h')
  {
    hide LogOk, CandidateOk, AcksOk, ApplyOk, BallotOk, CommitOk, TermOk, WellRooted, ProposalOk;
    ProposalTerm(members, id, n, h, h', command);
    TermsGrow(members, h, h', id);
    CandidaciesGrow(h, h', id);
    BallotsGrow(h, h', id);
    BallotsKeepGrow(h, h', id);
    CommitsGrow(members, h, h', id);
  }

  lemma ProposalNode(members: set<NodeId>, id: NodeId, n: Node, h: History, h': History, command: Command)
    requires HistoryOk(members, h) && NodeOk(members, id, n, h) && Proposed(id, n, h, h', command) && id in members
    ensures NodeOk(members, id, Propose(id, n, command).0, h')
  {
    hide TermsOk, CandidaciesOk, BallotsOk, BallotsKeep, CommitsOk, LogIsCurrent, AcksOk, ApplyOk, WellRooted;
    ProposalTerm(members, id, n, h, h', command);
    ProposalApplied(id, n, h, h', command);
    ProposalAcks(id, n, h, h', command);
  }

  lemma ProposalApplied(id: NodeId, n: Node, h: History, h': History, command: Command)
    requires ApplyOk(n, h) && Proposed(id, n, h, h', command)
    ensures ApplyOk(Propose(id, n, command).0, h')
  {
    var n' := Propose(id, n, command).0;
    CommittedGrows(h, h', id, n.log, n'.log, n.commitIndex, n.term, n.term);
    assert n.log[..n.lastApplied] == n'.log[..n.lastApplied];
  }

  lemma ProposalAcks(id: NodeId, n: Node, h: History, h': History, command: Command)
    requires AcksOk(id, n, h) && AcksInLog(h) && LeaderOk(id, n, h) && Proposed(id, n, h, h', command)
    ensures AcksOk(id, Propose(id, n, command).0, h')
  {
    var n' := Propose(id, n, command).0;
    forall t, k | (id, t, k) in h'.acks ensures AckOk(n', h', t, k) {
      if (id, t, k) in h.acks {
        assert AckOk(n, h, t, k);
        if !Agree(h.termLog[t], n.log, k) { LostGrows(h, h', id, t, k, n.term, n.term); }
      }
    }
  }

  lemma ProposalAckKeeps(members: set<NodeId>, c: Cluster, a: Action, h: History)
    requires Inv(members, c, h) && Enabled(c, a) && a.ProposalAck?
    ensures Preserved(members, c, a, h, h)
  {
    hide HistoryOk, NodeOk, MessageOk;
    var id, n := a.id, c.nodes[a.id];
    AckNode(members, id, n, h, a.msg);
    SameHistory(h, id);
    Assemble(members, c, h, h, id, CountAck(n, a.msg.follower), {});
  }

  lemma AckNode(members: set<NodeId>, id: NodeId, n: Node, h: History, m: Message)
    requires NodeOk(members, id, n, h) && MessageOk(members, m, h) && n.proposal.Some?
    requires m.AppendReply? && m.success && m.requestTerm == n.term && m.lastIndex == n.proposal.value.index
    ensures NodeOk(members, id, CountAck(n, m.follower), h)
  {
    hide LogOk, VoteOk, CandidateOk, LeaderOk;
    BookkeepingNode(members, id, n, CountAck(n, m.follower), h);
  }

  lemma BookkeepingNode(members: set<NodeId>, id: NodeId, n: Node, n': Node, h: History)
    requires NodeOk(members, id, n, h)
    requires n' == n.(proposal := n'.proposal, commitIndex := n'.commitIndex, lastApplied := n'.lastApplied,
                      applyQueue := n'.applyQueue)
    requires ApplyOk(n', h) && ProposalOk(members, id, n', h)
    ensures NodeOk(members, id, n', h)
  {
    hide ApplyOk, ProposalOk, WellRooted;
    forall t, k | (id, t, k) in h.acks ensures AckOk(n', h, t, k) {
      AckOutlives(n, n', h, t, k);
    }
  }

  lemma EndProposalKeeps(members: set<NodeId>, c: Cluster, a: Action, h: History) returns (h': History)
    requires Inv(members, c, h) && Enabled(c, a) && a.EndProposal?
    ensures Preserved(members, c, a, h, h')
  {
    hide HistoryOk, NodeOk, MessageOk;
    var id, n := a.id, c.nodes[a.id];
    h' := CommitNode(members, id, n, h);
    Assemble(members, c, h, h', id, FinishProposal(n, |members|), {});
  }

  lemma CommitNode(members: set<NodeId>, id: NodeId, n: Node, h: History) returns (h': History)
    requires HistoryOk(members, h) && NodeOk(members, id, n, h) && n.proposal.Some?
    ensures HistoryOk(members, h') && Grows(h, h', id) && NodeOk(members, id, FinishProposal(n, |members|), h')
  {
    hide HistoryOk, LogOk, VoteOk, CandidateOk, AcksOk;
    var n', p := FinishProposal(n, |members|), n.proposal.value;
    if n'.commitIndex == n.commitIndex {
      h' := h;
      BookkeepingNode(members, id, n, n', h);
    } else {
      h' := h.(commits := h.commits + {(n.term, p.index)});
      assert AckQuorum(members, h, p.acks, n.term, p.index);
      NewCommitKeepsHistory(members, id, h, h', n.term, p.index);
      SelfGrows(members, id, n, h, h');
      assert CommittedBy(h', n.log, p.index, n.term, n.term, p.index);
      CommittedNode(members, id, n, n', h, h');
    }
  }

  lemma NewCommitGrows(members: set<NodeId>, h: History, h': History, id: NodeId, t: nat, k: nat)
    requires CommitOk(members, h, t, k)
    requires h' == h.(commits := h.commits + {(t, k)})
    ensures Grows(h, h', id) && CommitOk(members, h', t, k)
  {
    var q :| AckQuorum(members, h, q, t, k);
    assert AckQuorum(members, h', q, t, k);
  }

  lemma NewCommitKeepsHistory(members: set<NodeId>, id: NodeId, h: History, h': History, t: nat, k: nat)
    requires HistoryOk(members, h) && CommitOk(members, h, t, k)
    requires h' == h.(commits := h.commits + {(t, k)})
    ensures HistoryOk(members, h') && Grows(h, h', id)
  {
    hide Grows, WellRooted, TermOk, BallotOk, CommitOk, TermsOk, CandidaciesOk, BallotsOk, BallotsKeep, CommitsOk,
         BallotKeeps;
    NewCommitGrows(members, h, h', id, t, k);
    SameTermsGrow(members, h, h', id);
    BallotsKeepGrow(h, h', id);
  }

  lemma CommittedNode(members: set<NodeId>, id: NodeId, n: Node, n': Node, h: History, h': History)
    requires HistoryOk(members, h) && NodeOk(members, id, n, h)
    requires h' == h.(commits := h'.commits) && Grows(h, h', id)
    requires n' == n.(proposal := None, commitIndex := n'.commitIndex)
    requires n.commitIndex <= n'.commitIndex <= |n.log| && Committed(h', n.log, n'.commitIndex, n.term)
    ensures NodeOk(members, id, n', h')
  {
    hide HistoryOk;
    SelfGrows(members, id, n, h, h');
    forall t, k | (id, t, k) in h'.acks ensures AckOk(n', h', t, k) {
      AckOutlives(n, n', h', t, k);
    }
  }

  lemma ApplyKeeps(members: set<NodeId>, c: Cluster, a: Action, h: History)
    requires Inv(members, c, h) && Enabled(c, a) && a.ApplyLog?
    ensures Preserved(members, c, a, h, h)
  {
    hide HistoryOk, NodeOk, MessageOk;
    var id, n := a.id, c.nodes[a.id];
    ApplyNode(members, id, n, h);
    SameHistory(h, id);
    Assemble(members, c, h, h, id, ApplyCommitted(n), {});
  }

  lemma ApplyNode(members: set<NodeId>, id: NodeId, n: Node, h: History)
    requires NodeOk(members, id, n, h)
    ensures NodeOk(members, id, ApplyCommitted(n), h)
  {
    hide LogOk, VoteOk, CandidateOk, LeaderOk, AcksOk;
    assert n.log[..n.lastApplied] + n.log[n.lastApplied..n.commitIndex] == n.log[..n.commitIndex];
    BookkeepingNode(members, id, n, ApplyCommitted(n), h);
  }
}
