/** The history a run leaves behind and the invariant tying it to the cluster.
    Nothing in the protocol reads a History; it exists for the proof alone. */
module RaftHistory {
  import opened Wrappers
  import opened RaftTypes
  import opened RaftCluster

  datatype Ballot = Ballot(candidate: NodeId, log: seq<Entry>)
  datatype Election = Election(leader: NodeId, log: seq<Entry>, electors: set<NodeId>)

  /** termLog: everything the leader of a term ever held in its log during that term;
      elections: how each term's leader was elected; candidacies: each candidate's log
      when its election started; ballots: each vote, with the voter's log at that time;
      acks: (node, term, k) when a node in that term held the first k entries of its leader;
      commits: (term, k) when that term's leader counted a majority for its entry k. */
  datatype History = History(
    termLog: map<nat, seq<Entry>>,
    elections: map<nat, Election>,
    candidacies: map<(NodeId, nat), seq<Entry>>,
    ballots: map<(NodeId, nat), Ballot>,
    acks: set<(NodeId, nat, nat)>,
    commits: set<(nat, nat)>)

  const EmptyHistory := History(map[], map[], map[], map[], {}, {})

  /** The two logs are at least k long and agree on their first k entries. */
  ghost predicate Agree(a: seq<Entry>, b: seq<Entry>, k: nat) {
    k <= |a| && k <= |b| && forall j :: 0 <= j < k ==> a[j] == b[j]
  }

  ghost predicate Majority(members: set<NodeId>, q: set<NodeId>) {
    q <= members && 2 * |q| > |members|
  }

  /** Every entry lies where its own term's leader put it, after the same entries. */
  ghost predicate WellRooted(log: seq<Entry>, h: History) {
    forall i :: 0 <= i < |log| ==> Rooted(log, i, h)
  }

  ghost predicate Rooted(log: seq<Entry>, i: nat, h: History)
    requires i < |log|
  {
    && log[i].term in h.termLog
    && Agree(log, h.termLog[log[i].term], i + 1)
    && log[i].index == i + 1
    && log[i].term > 0
  }

  ghost predicate TermsSorted(log: seq<Entry>) {
    forall i, j :: 0 <= i <= j < |log| ==> log[i].term <= log[j].term
  }

  ghost predicate TermsAtMost(log: seq<Entry>, t: nat) {
    forall i :: 0 <= i < |log| ==> log[i].term <= t
  }

  /** Some leader elected after term t, up to term `bound`, lacks the first k entries of term t's log. */
  ghost predicate Lost(h: History, t: nat, k: nat, bound: nat)
    requires t in h.termLog
  {
    exists u: nat :: LostIn(h, t, k, u) && u <= bound
  }

  ghost predicate LostIn(h: History, t: nat, k: nat, u: nat)
    requires t in h.termLog
  {
    u in h.elections && t < u && !Agree(h.termLog[t], h.elections[u].log, k)
  }

  ghost predicate AckQuorum(members: set<NodeId>, h: History, q: set<NodeId>, t: nat, k: nat) {
    Majority(members, q) && forall v :: v in q ==> (v, t, k) in h.acks
  }

  // ---- What the history itself satisfies ----

  ghost predicate TermOk(members: set<NodeId>, h: History, t: nat)
    requires t in h.termLog && t in h.elections
  {
    var log, e := h.termLog[t], h.elections[t];
    && t > 0 && WellRooted(log, h) && TermsSorted(log) && TermsAtMost(log, t)
    && |e.log| <= |log| && Agree(e.log, log, |e.log|)
    && (forall i :: 0 <= i < |e.log| ==> e.log[i].term < t)
    && (forall i :: |e.log| <= i < |log| ==> log[i].term == t)
    && (e.leader, t) in h.candidacies && h.candidacies[(e.leader, t)] == e.log
    && Majority(members, e.electors)
    && forall v :: v in e.electors ==> (v, t) in h.ballots && h.ballots[(v, t)].candidate == e.leader
  }

  ghost predicate BallotOk(h: History, v: NodeId, t: nat)
    requires (v, t) in h.ballots
  {
    var b := h.ballots[(v, t)];
    && (b.candidate, t) in h.candidacies
    && (var log := h.candidacies[(b.candidate, t)]; LogIsCurrent(LastTerm(log), |log|, b.log))
    && WellRooted(b.log, h)
  }

  /** A ballot that could elect a leader remembers what its voter had acknowledged in earlier terms. */
  ghost predicate BallotKeeps(h: History, v: NodeId, t: nat, s: nat, k: nat)
    requires (v, t) in h.ballots && s in h.termLog
  {
    Agree(h.termLog[s], h.ballots[(v, t)].log, k) || exists u: nat :: LostIn(h, s, k, u) && u < t
  }

  ghost predicate Decisive(h: History, v: NodeId, t: nat) {
    t in h.elections ==> v in h.elections[t].electors
  }

  ghost predicate CommitOk(members: set<NodeId>, h: History, t: nat, k: nat) {
    && t in h.termLog && 1 <= k <= |h.termLog[t]| && h.termLog[t][k - 1].term == t
    && exists q :: AckQuorum(members, h, q, t, k)
  }

  ghost predicate TermsOk(members: set<NodeId>, h: History) {
    h.termLog.Keys == h.elections.Keys && forall t :: t in h.termLog ==> TermOk(members, h, t)
  }

  ghost predicate CandidaciesOk(h: History) {
    forall c, t :: (c, t) in h.candidacies ==> WellRooted(h.candidacies[(c, t)], h)
  }

  ghost predicate BallotsOk(h: History) {
    forall v, t :: (v, t) in h.ballots ==> BallotOk(h, v, t)
  }

  ghost predicate AcksInLog(h: History) {
    forall v, t, k :: (v, t, k) in h.acks ==> t in h.termLog && k <= |h.termLog[t]|
  }

  ghost predicate BallotsKeep(h: History)
    requires AcksInLog(h)
  {
    forall v, t, s, k :: (v, t) in h.ballots && (v, s, k) in h.acks && s < t && Decisive(h, v, t) ==>
      BallotKeeps(h, v, t, s, k)
  }

  ghost predicate CommitsOk(members: set<NodeId>, h: History) {
    forall t, k :: (t, k) in h.commits ==> CommitOk(members, h, t, k)
  }

  ghost predicate HistoryOk(members: set<NodeId>, h: History) {
    && TermsOk(members, h) && CandidaciesOk(h) && BallotsOk(h)
    && AcksInLog(h) && BallotsKeep(h) && CommitsOk(members, h)
  }

  // ---- What each node satisfies ----

  ghost predicate LogOk(n: Node, h: History) {
    WellRooted(n.log, h) && TermsAtMost(n.log, n.term)
  }

  ghost predicate VoteOk(id: NodeId, n: Node, h: History) {
    && (forall t :: (id, t) in h.ballots ==> t <= n.term)
    && (n.votedFor.Some? <==> (id, n.term) in h.ballots)
    && (n.votedFor.Some? ==> h.ballots[(id, n.term)].candidate == n.votedFor.value)
  }

  ghost predicate CandidateOk(id: NodeId, n: Node, h: History) {
    && (forall t :: (id, t) in h.candidacies ==> t <= n.term)
    && (forall t :: t in h.elections && h.elections[t].leader == id ==>
          t <= n.term && (t == n.term ==> n.role != Candidate))
    && (n.role == Candidate ==>
          && n.term > 0 && (id, n.term) in h.candidacies && h.candidacies[(id, n.term)] == n.log
          && forall v :: v in n.granted ==> (v, n.term) in h.ballots && h.ballots[(v, n.term)].candidate == id)
  }

  ghost predicate LeaderOk(id: NodeId, n: Node, h: History) {
    n.role == Leader ==>
      && n.term in h.elections && n.term in h.termLog
      && h.elections[n.term].leader == id && h.termLog[n.term] == n.log
  }

  ghost predicate AcksOk(id: NodeId, n: Node, h: History) {
    forall t, k :: (id, t, k) in h.acks ==> AckOk(n, h, t, k)
  }

  ghost predicate AckOk(n: Node, h: History, t: nat, k: nat) {
    t <= n.term && t in h.termLog && (Agree(h.termLog[t], n.log, k) || Lost(h, t, k, n.term))
  }

  /** The first k entries of `log` were committed by some leader of a term up to `bound`. */
  ghost predicate Committed(h: History, log: seq<Entry>, k: nat, bound: nat) {
    k == 0 || exists t: nat, i: nat :: CommittedBy(h, log, k, bound, t, i)
  }

  ghost predicate CommittedBy(h: History, log: seq<Entry>, k: nat, bound: nat, t: nat, i: nat) {
    (t, i) in h.commits && t <= bound && k <= i && t in h.termLog && Agree(log, h.termLog[t], k)
  }

  ghost predicate ApplyOk(n: Node, h: History) {
    && n.lastApplied <= n.commitIndex <= |n.log|
    && n.applyQueue == n.log[..n.lastApplied]
    && Committed(h, n.log, n.commitIndex, n.term)
  }

  ghost predicate ProposalOk(members: set<NodeId>, id: NodeId, n: Node, h: History) {
    n.proposal.Some? ==>
      var p := n.proposal.value;
      && n.role == Leader && p.index == |n.log| > 0 && n.log[p.index - 1].term == n.term
      && p.acks <= members
      && forall v :: v in p.acks ==> (v, n.term, p.index) in h.acks
  }

  ghost predicate NodeOk(members: set<NodeId>, id: NodeId, n: Node, h: History) {
    && n.nextIndex.Keys <= members && n.granted <= members
    && LogOk(n, h) && VoteOk(id, n, h) && CandidateOk(id, n, h) && LeaderOk(id, n, h)
    && AcksOk(id, n, h) && ApplyOk(n, h) && ProposalOk(members, id, n, h)
  }

  // ---- What each message satisfies ----

  /** Either a slice of the sender's term log with the term before it, or an
      empty message whose `prev` a stale nextIndex put past the log. */
  ghost predicate SliceOk(h: History, t: nat, prev: nat, prevTerm: nat, entries: seq<Entry>)
    requires t in h.termLog
  {
    var log := h.termLog[t];
    || (&& prev + |entries| <= |log|
        && (forall k :: 0 <= k < |entries| ==> entries[k] == log[prev + k])
        && prevTerm == (if prev == 0 then 0 else log[prev - 1].term))
    || (prev > 0 && prevTerm == 0 && entries == [])
  }

  ghost predicate MessageOk(members: set<NodeId>, m: Message, h: History) {
    match m
    case RequestVote(t, c, lastIndex, lastTerm) =>
      c in members && (c, t) in h.candidacies
      && lastIndex == |h.candidacies[(c, t)]| && lastTerm == LastTerm(h.candidacies[(c, t)])
    case VoteReply(v, c, t, _, granted) =>
      v in members && (granted ==> (v, t) in h.ballots && h.ballots[(v, t)].candidate == c)
    case AppendEntries(t, leader, prev, prevTerm, entries, leaderCommit) =>
      && leader in members && t in h.elections && t in h.termLog && h.elections[t].leader == leader
      && SliceOk(h, t, prev, prevTerm, entries)
      && leaderCommit <= prev + |entries|
      && Committed(h, h.termLog[t], leaderCommit, t)
    case AppendReply(v, _, t, k, _, success) =>
      v in members && (success ==> (v, t, k) in h.acks)
  }

  ghost predicate Inv(members: set<NodeId>, c: Cluster, h: History) {
    && c.nodes.Keys == members
    && HistoryOk(members, h)
    && (forall id :: id in members ==> NodeOk(members, id, c.nodes[id], h))
    && (forall m :: m in c.msgs ==> MessageOk(members, m, h))
  }

  // ---- How a history grows ----

  /** h' records what h recorded, and whatever is new concerns node `id`. */
  ghost predicate Grows(h: History, h': History, id: NodeId) {
    && (forall t :: t in h.termLog ==>
          && t in h'.termLog && |h.termLog[t]| <= |h'.termLog[t]|
          && Agree(h.termLog[t], h'.termLog[t], |h.termLog[t]|)
          && (h.termLog[t] == h'.termLog[t] || (t in h.elections && h.elections[t].leader == id)))
    && (forall t :: t in h.elections ==> t in h'.elections && h'.elections[t] == h.elections[t])
    && (forall t :: t in h'.elections && t !in h.elections ==> h'.elections[t].leader == id)
    && (forall k :: k in h.candidacies ==> k in h'.candidacies && h'.candidacies[k] == h.candidacies[k])
    && (forall k :: k in h'.candidacies && k !in h.candidacies ==> k.0 == id)
    && (forall k :: k in h.ballots ==> k in h'.ballots && h'.ballots[k] == h.ballots[k])
    && (forall k :: k in h'.ballots && k !in h.ballots ==> k.0 == id)
    && h.acks <= h'.acks
    && (forall k :: k in h'.acks && k !in h.acks ==> k.0 == id)
    && h.commits <= h'.commits
  }

  lemma WellRootedGrows(log: seq<Entry>, h: History, h': History, id: NodeId)
    requires Grows(h, h', id) && WellRooted(log, h)
    ensures WellRooted(log, h')
  {
    forall i | 0 <= i < |log| ensures Rooted(log, i, h') {
      assert Rooted(log, i, h);
    }
  }

  lemma LostGrows(h: History, h': History, id: NodeId, t: nat, k: nat, bound: nat, bound': nat)
    requires Grows(h, h', id) && t in h.termLog && k <= |h.termLog[t]| && bound <= bound'
    requires Lost(h, t, k, bound)
    ensures Lost(h', t, k, bound')
  {
    var u: nat :| LostIn(h, t, k, u) && u <= bound;
    assert LostIn(h', t, k, u);
  }

  lemma CommittedGrows(h: History, h': History, id: NodeId, log: seq<Entry>, log': seq<Entry>, k: nat,
                       bound: nat, bound': nat)
    requires Grows(h, h', id) && bound <= bound'
    requires Committed(h, log, k, bound) && k <= |log| && Agree(log, log', k)
    ensures Committed(h', log', k, bound')
  {
    if k > 0 {
      var t: nat, i: nat :| CommittedBy(h, log, k, bound, t, i);
      assert CommittedBy(h', log', k, bound', t, i);
    }
  }

  lemma AckGrows(h: History, h': History, id: NodeId, n: Node, t: nat, k: nat)
    requires Grows(h, h', id) && AckOk(n, h, t, k) && k <= |h.termLog[t]|
    ensures AckOk(n, h', t, k)
  {
    if !Agree(h.termLog[t], n.log, k) {
      LostGrows(h, h', id, t, k, n.term, n.term);
    }
  }

  /** A step of one node does not disturb what another node satisfies. */
  lemma OtherNodeKeeps(members: set<NodeId>, w: NodeId, n: Node, h: History, h': History, id: NodeId)
    requires w != id && Grows(h, h', id) && HistoryOk(members, h) && NodeOk(members, w, n, h)
    ensures NodeOk(members, w, n, h')
  {
    WellRootedGrows(n.log, h, h', id);
    CommittedGrows(h, h', id, n.log, n.log, n.commitIndex, n.term, n.term);
    forall t, k | (w, t, k) in h'.acks ensures AckOk(n, h', t, k) {
      assert (w, t, k) in h.acks;
      assert AckOk(n, h, t, k);
      AckGrows(h, h', id, n, t, k);
    }
  }

  lemma MessageKeeps(members: set<NodeId>, m: Message, h: History, h': History, id: NodeId)
    requires Grows(h, h', id) && MessageOk(members, m, h)
    ensures MessageOk(members, m, h')
  {
    if m.AppendEntries? {
      var t := m.term;
      CommittedGrows(h, h', id, h.termLog[t], h'.termLog[t], m.leaderCommit, t, t);
    }
  }
}
