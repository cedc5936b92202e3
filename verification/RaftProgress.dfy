/** What a leader can always still do with a majority that is in no later term: get
    any command committed and applied, nobody else taking part. */
module RaftProgress {
  import opened Wrappers
  import opened RaftTypes
  import opened RaftCluster
  import opened RaftHistory
  import opened RaftElection
  import opened RaftSafety
  import opened RaftFindings

  function Last(run: seq<Cluster>): Cluster {
    if run == [] then Cluster(map[], {}) else run[|run| - 1]
  }

  ghost predicate StepBy(q: set<NodeId>, c: Cluster, c': Cluster) {
    exists a: Action :: a.id in q && Enabled(c, a) && c' == Next(c, a)
  }

  /** The run goes on by steps of members of `q`. */
  ghost predicate GoesOn(members: set<NodeId>, q: set<NodeId>, run: seq<Cluster>, run': seq<Cluster>) {
    && Run(members, run) && Run(members, run') && run <= run'
    && forall k :: |run| <= k < |run'| ==> StepBy(q, run'[k - 1], run'[k])
  }

  lemma GoesOnTrans(members: set<NodeId>, q: set<NodeId>, r0: seq<Cluster>, r1: seq<Cluster>, r2: seq<Cluster>)
    requires GoesOn(members, q, r0, r1) && GoesOn(members, q, r1, r2)
    ensures GoesOn(members, q, r0, r2)
  {
    forall k | |r0| <= k < |r2| ensures StepBy(q, r2[k - 1], r2[k]) {
      if k < |r1| {
        assert r2[k] == r1[k] && r2[k - 1] == r1[k - 1];
      }
    }
  }

  lemma Stays(members: set<NodeId>, q: set<NodeId>, run: seq<Cluster>)
    requires Run(members, run)
    ensures GoesOn(members, q, run, run)
  {
  }

  lemma Do(members: set<NodeId>, q: set<NodeId>, run: seq<Cluster>, a: Action) returns (run': seq<Cluster>)
    requires Run(members, run) && a.id in q && Enabled(Last(run), a)
    ensures GoesOn(members, q, run, run') && Last(run') == Next(Last(run), a)
  {
    hide EnabledUnguarded, Next;
    run' := run + [Next(Last(run), a)];
    forall k | 0 < k < |run'| ensures Step(run'[k - 1], run'[k]) {
      if k < |run| {
        assert Step(run[k - 1], run[k]);
      }
    }
    assert StepBy(q, run'[|run| - 1], run'[|run|]);
  }

  lemma OtherKeeps(q: set<NodeId>, c: Cluster, c': Cluster, id: NodeId)
    requires StepBy(q, c, c') && id !in q && id in c.nodes
    ensures id in c'.nodes && c'.nodes[id] == c.nodes[id]
  {
    hide EnabledUnguarded, Effect;
  }

  /** Nobody outside `q` changes meanwhile. */
  lemma {:induction false} OthersKeep(members: set<NodeId>, q: set<NodeId>, run: seq<Cluster>, run': seq<Cluster>,
                                      id: NodeId)
    requires GoesOn(members, q, run, run') && id !in q && id in Last(run).nodes
    ensures id in Last(run').nodes && Last(run').nodes[id] == Last(run).nodes[id]
    decreases |run'|
  {
    hide StepBy, Step, Init;
    if |run'| > |run| {
      var before := run'[..|run'| - 1];
      PrefixRuns(members, run');
      forall k | |run| <= k < |before| ensures StepBy(q, before[k - 1], before[k]) {
        assert before[k] == run'[k] && before[k - 1] == run'[k - 1];
      }
      OthersKeep(members, q, run, before, id);
      OtherKeeps(q, run'[|run'| - 2], run'[|run'| - 1], id);
    } else {
      assert run == run';
    }
  }

  lemma PrefixRuns(members: set<NodeId>, run: seq<Cluster>)
    requires Run(members, run) && |run| > 1
    ensures Run(members, run[..|run| - 1])
  {
    var before := run[..|run| - 1];
    forall k | 0 < k < |before| ensures Step(before[k - 1], before[k]) {
      assert before[k - 1] == run[k - 1] && before[k] == run[k];
    }
  }

  // ---- Who talks to whom ----

  ghost predicate PeersOk(members: set<NodeId>, c: Cluster) {
    c.nodes.Keys == members && forall id :: id in members ==> c.nodes[id].nextIndex.Keys == members - {id}
  }

  lemma NextPeers(members: set<NodeId>, c: Cluster, a: Action)
    requires PeersOk(members, c) && Enabled(c, a)
    ensures PeersOk(members, Next(c, a))
  {
    EffectKeepsPeers(c, a);
    hide EnabledUnguarded, Effect;
  }

  lemma EffectKeepsPeers(c: Cluster, a: Action)
    requires EnabledUnguarded(c, a)
    ensures Effect(c, a).0.nextIndex.Keys == c.nodes[a.id].nextIndex.Keys
  {
    hide MergeEntries, LogIsCurrent, HoldsPrevious;
  }

  lemma {:induction false} RunPeers(members: set<NodeId>, run: seq<Cluster>, k: nat)
    requires Run(members, run) && k < |run|
    ensures PeersOk(members, run[k])
  {
    hide Next, EnabledUnguarded;
    if k > 0 {
      RunPeers(members, run, k - 1);
      assert Step(run[k - 1], run[k]);
      var a :| Enabled(run[k - 1], a) && run[k] == Next(run[k - 1], a);
      NextPeers(members, run[k - 1], a);
    }
  }

  // ---- One step of a proposal ----

  lemma PendingIsLast(members: set<NodeId>, run: seq<Cluster>, id: NodeId)
    requires Run(members, run) && id in Last(run).nodes && Last(run).nodes[id].proposal.Some?
    ensures var n := Last(run).nodes[id]; n.commitIndex <= n.proposal.value.index == |n.log|
    ensures Last(run).nodes.Keys == members
  {
    assert run != [];
    hide HistoryOk, LogOk, VoteOk, CandidateOk, LeaderOk, AcksOk, Run, Committed;
    var hs := RunHistories(members, run);
    assert Inv(members, Last(run), hs[|run| - 1]);
    assert NodeOk(members, id, Last(run).nodes[id], hs[|run| - 1]);
  }

  /** Ending a proposal commits it exactly when a strict majority stored it. */
  lemma EndProposalCommitsIff(members: set<NodeId>, run: seq<Cluster>, id: NodeId)
    requires Run(members, run) && Enabled(Last(run), EndProposal(id))
    ensures var n, n' := Last(run).nodes[id], Next(Last(run), EndProposal(id)).nodes[id];
            && n.proposal.Some? && n'.proposal.None? && n'.log == n.log
            && n.commitIndex <= n.proposal.value.index == |n.log|
            && n'.commitIndex == if 2 * |n.proposal.value.acks| > |members| then |n.log| else n.commitIndex
  {
    hide Run;
    PendingIsLast(members, run, id);
    assert |Last(run).nodes| == |Last(run).nodes.Keys|;
  }

  /** The applier leaves nothing committed unapplied. */
  lemma ApplyAppliesAll(members: set<NodeId>, run: seq<Cluster>, id: NodeId)
    requires Run(members, run) && Enabled(Last(run), ApplyLog(id))
    ensures var n, n' := Last(run).nodes[id], Next(Last(run), ApplyLog(id)).nodes[id];
            && n'.commitIndex == n.commitIndex <= |n.log| && n'.log == n.log
            && n'.lastApplied == n.commitIndex && n'.applyQueue == n.log[..n.commitIndex]
  {
    assert run != [];
    hide Run;
    ApplyQueueIsLogPrefix(members, run, |run| - 1, id);
    var n := Last(run).nodes[id];
    assert n.log[..n.lastApplied] + n.log[n.lastApplied..n.commitIndex] == n.log[..n.commitIndex];
  }

  // ---- Bringing a majority up to date ----

  /** Nodes that differ at most in pending proposals and what those committed. */
  ghost predicate SameLogs(c: Cluster, c': Cluster) {
    && c'.nodes.Keys == c.nodes.Keys
    && forall id :: id in c.nodes ==>
         && c'.nodes[id].role == c.nodes[id].role && c'.nodes[id].term == c.nodes[id].term
         && c'.nodes[id].log == c.nodes[id].log
         && (c.nodes[id].proposal.None? ==> c'.nodes[id] == c.nodes[id])
  }

  ghost predicate Unlocked(c: Cluster, q: set<NodeId>) {
    forall id :: id in q ==> id in c.nodes && c.nodes[id].proposal.None?
  }

  lemma EndOne(members: set<NodeId>, q: set<NodeId>, run: seq<Cluster>, id: NodeId) returns (run': seq<Cluster>)
    requires Run(members, run) && id in q && id in Last(run).nodes
    ensures GoesOn(members, q, run, run') && SameLogs(Last(run), Last(run'))
    ensures id in Last(run').nodes && Last(run').nodes[id].proposal.None?
    ensures forall b :: b in Last(run).nodes && Last(run).nodes[b].proposal.None? ==> Last(run').nodes[b].proposal.None?
  {
    hide Run;
    if Last(run).nodes[id].proposal.Some? {
      run' := Do(members, q, run, EndProposal(id));
    } else {
      run' := run;
      Stays(members, q, run);
    }
  }

  lemma {:induction false} EndAll(members: set<NodeId>, q: set<NodeId>, run: seq<Cluster>, todo: set<NodeId>)
    returns (run': seq<Cluster>)
    requires Run(members, run) && todo <= q && q <= Last(run).nodes.Keys && Unlocked(Last(run), q - todo)
    ensures GoesOn(members, q, run, run') && SameLogs(Last(run), Last(run')) && Unlocked(Last(run'), q)
    decreases |todo|
  {
    hide Run, GoesOn;
    if todo == {} {
      run' := run;
      Stays(members, q, run);
      assert q - todo == q;
    } else {
      var id :| id in todo;
      var r := EndOne(members, q, run, id);
      assert Run(members, r) by { RunAfter(members, q, run, r); }
      run' := EndAll(members, q, r, todo - {id});
      GoesOnTrans(members, q, run, r, run');
    }
  }

  lemma RunAfter(members: set<NodeId>, q: set<NodeId>, run: seq<Cluster>, run': seq<Cluster>)
    requires GoesOn(members, q, run, run')
    ensures Run(members, run) && Run(members, run')
  {
  }

  /** A leader and a follower it can bring up to date. */
  ghost predicate Paired(members: set<NodeId>, c: Cluster, a: NodeId, b: NodeId) {
    PeersOk(members, c) && a in members && b in members && a != b && Repairable(c.nodes[a], c.nodes[b])
  }

  ghost predicate Repairable(n: Node, f: Node) {
    n.role == Leader && n.proposal.None? && f.proposal.None? && f.term <= n.term
  }

  /** What replication to `b` leaves as it was. */
  ghost predicate OnlyPair(c: Cluster, c': Cluster, a: NodeId, b: NodeId) {
    && c'.nodes.Keys == c.nodes.Keys && a in c.nodes
    && (forall id :: id in c.nodes && id != a && id != b ==> c'.nodes[id] == c.nodes[id])
    && c'.nodes[a].log == c.nodes[a].log && c'.nodes[a].term == c.nodes[a].term
    && c'.nodes[a].commitIndex == c.nodes[a].commitIndex && c'.nodes[a].applyQueue == c.nodes[a].applyQueue
  }

  lemma ExchangeKeepsPair(a: NodeId, n: Node, b: NodeId, f: Node)
    requires b in n.nextIndex && n.role == Leader && n.proposal.None? && f.proposal.None? && f.term <= n.term
    ensures var (n', f') := Exchange(a, n, b, f);
            && n'.role == Leader && n'.proposal.None? && f'.proposal.None? && f'.term == n'.term == n.term
            && n'.log == n.log && n'.nextIndex.Keys == n.nextIndex.Keys && f'.nextIndex == f.nextIndex
            && n'.commitIndex == n.commitIndex && n'.applyQueue == n.applyQueue
  {
    hide MergeEntries, HoldsPrevious;
  }

  lemma SendStep(c: Cluster, a: NodeId, b: NodeId)
    requires a in c.nodes && c.nodes[a].role == Leader && c.nodes[a].proposal.None? && b in c.nodes[a].nextIndex
    ensures Enabled(c, SendAppend(a, b))
    ensures Next(c, SendAppend(a, b)) == Cluster(c.nodes, c.msgs + {BuildAppend(a, c.nodes[a], b)})
  {
    hide BuildAppend;
    assert c.nodes[a := c.nodes[a]] == c.nodes;
  }

  lemma ReceiveStep(c: Cluster, b: NodeId, m: Message)
    requires b in c.nodes && c.nodes[b].proposal.None? && m in c.msgs && m.AppendEntries? && m.leader != b
    ensures Enabled(c, ReceiveAppend(b, m))
    ensures var (f, reply) := HandleAppendEntries(b, c.nodes[b], m.term, m.leader, m.prevLogIndex, m.prevLogTerm,
                                                  m.entries, m.leaderCommit);
            Next(c, ReceiveAppend(b, m)) == Cluster(c.nodes[b := f], c.msgs + {reply})
  {
    hide HandleAppendEntries;
  }

  lemma ReplyStep(c: Cluster, a: NodeId, r: Message)
    requires a in c.nodes && c.nodes[a].proposal.None? && r in c.msgs && r.AppendReply? && r.leader == a
    requires r.follower in c.nodes[a].nextIndex
    ensures Enabled(c, ReceiveAppendReply(a, r))
    ensures var n := HandleAppendReply(c.nodes[a], r.follower, r.lastIndex, r.term, r.success);
            Next(c, ReceiveAppendReply(a, r)) == Cluster(c.nodes[a := n], c.msgs)
  {
    hide HandleAppendReply;
    assert c.msgs + {} == c.msgs;
  }

  /** One heartbeat exchange that gets through, as three steps of the cluster. */
  lemma OneExchange(members: set<NodeId>, q: set<NodeId>, run: seq<Cluster>, a: NodeId, b: NodeId)
    returns (run': seq<Cluster>)
    requires Run(members, run) && Paired(members, Last(run), a, b) && a in q && b in q
    ensures GoesOn(members, q, run, run') && Paired(members, Last(run'), a, b) && OnlyPair(Last(run), Last(run'), a, b)
    ensures (Last(run').nodes[a], Last(run').nodes[b]) == Exchange(a, Last(run).nodes[a], b, Last(run).nodes[b])
  {
    hide Run, GoesOn, HandleAppendEntries, HandleAppendReply, BuildAppend, Enabled, Next, Effect, Last;
    var c := Last(run);
    var n, f := c.nodes[a], c.nodes[b];
    ExchangeKeepsPair(a, n, b, f);
    var m := BuildAppend(a, n, b);
    BuildsAppend(a, n, b);
    SendStep(c, a, b);
    var r1 := Do(members, q, run, SendAppend(a, b));
    RunAfter(members, q, run, r1);
    ReceiveStep(Last(r1), b, m);
    var r2 := Do(members, q, r1, ReceiveAppend(b, m));
    RunAfter(members, q, r1, r2);
    RepliesToLeader(b, f, m.term, m.leader, m.prevLogIndex, m.prevLogTerm, m.entries, m.leaderCommit);
    var reply := HandleAppendEntries(b, f, m.term, m.leader, m.prevLogIndex, m.prevLogTerm, m.entries,
                                     m.leaderCommit).1;
    ReplyStep(Last(r2), a, reply);
    run' := Do(members, q, r2, ReceiveAppendReply(a, reply));
    GoesOnTrans(members, q, run, r1, r2);
    GoesOnTrans(members, q, run, r2, run');
  }

  lemma BuildsAppend(a: NodeId, n: Node, b: NodeId)
    requires b in n.nextIndex
    ensures BuildAppend(a, n, b).AppendEntries? && BuildAppend(a, n, b).leader == a
            && BuildAppend(a, n, b).term == n.term
  {
  }

  lemma RepliesToLeader(id: NodeId, n: Node, term: nat, leader: NodeId, prev: nat, prevTerm: nat,
                        entries: seq<Entry>, leaderCommit: nat)
    ensures var r := HandleAppendEntries(id, n, term, leader, prev, prevTerm, entries, leaderCommit).1;
            r.AppendReply? && r.follower == id && r.leader == leader
  {
  }

  /** The pair went through k exchanges. */
  ghost predicate Exchanged(c: Cluster, c': Cluster, a: NodeId, b: NodeId, k: nat) {
    && a in c.nodes && b in c.nodes && a in c'.nodes && b in c'.nodes && b in c.nodes[a].nextIndex
    && (c'.nodes[a], c'.nodes[b]) == Exchanges(a, c.nodes[a], b, c.nodes[b], k)
  }

  lemma ExchangedMore(c0: Cluster, c1: Cluster, c2: Cluster, a: NodeId, b: NodeId, k: nat)
    requires a in c0.nodes && b in c0.nodes && b in c0.nodes[a].nextIndex && a in c1.nodes && b in c1.nodes
    requires (c1.nodes[a], c1.nodes[b]) == Exchange(a, c0.nodes[a], b, c0.nodes[b])
    requires Exchanged(c1, c2, a, b, k)
    ensures Exchanged(c0, c2, a, b, k + 1)
  {
    hide Exchange;
  }

  lemma NoExchange(c: Cluster, a: NodeId, b: NodeId)
    requires a in c.nodes && b in c.nodes && b in c.nodes[a].nextIndex
    ensures Exchanged(c, c, a, b, 0) && OnlyPair(c, c, a, b)
  {
  }

  lemma {:induction false} ManyExchanges(members: set<NodeId>, q: set<NodeId>, run: seq<Cluster>, a: NodeId, b: NodeId,
                                         k: nat) returns (run': seq<Cluster>)
    requires Run(members, run) && Paired(members, Last(run), a, b) && a in q && b in q
    ensures GoesOn(members, q, run, run') && Paired(members, Last(run'), a, b) && OnlyPair(Last(run), Last(run'), a, b)
    ensures Exchanged(Last(run), Last(run'), a, b, k)
    decreases k
  {
    hide *;
    PairedNodes(members, Last(run), a, b);
    if k == 0 {
      run' := run;
      Stays(members, q, run);
      NoExchange(Last(run), a, b);
    } else {
      var r := OneExchange(members, q, run, a, b);
      RunAfter(members, q, run, r);
      PairedNodes(members, Last(r), a, b);
      run' := ManyExchanges(members, q, r, a, b, k - 1);
      GoesOnTrans(members, q, run, r, run');
      ExchangedMore(Last(run), Last(r), Last(run'), a, b, k - 1);
      OnlyPairTrans(Last(run), Last(r), Last(run'), a, b);
    }
  }

  lemma PairedNodes(members: set<NodeId>, c: Cluster, a: NodeId, b: NodeId)
    requires Paired(members, c, a, b)
    ensures a in c.nodes && b in c.nodes && b in c.nodes[a].nextIndex
  {
  }

  lemma OnlyPairTrans(c0: Cluster, c1: Cluster, c2: Cluster, a: NodeId, b: NodeId)
    requires OnlyPair(c0, c1, a, b) && OnlyPair(c1, c2, a, b)
    ensures OnlyPair(c0, c2, a, b)
  {
  }

  /** The leader's whole log reaches one follower. */
  lemma CatchUp(members: set<NodeId>, q: set<NodeId>, run: seq<Cluster>, a: NodeId, b: NodeId)
    returns (run': seq<Cluster>)
    requires Run(members, run) && Paired(members, Last(run), a, b) && a in q && b in q
    ensures GoesOn(members, q, run, run') && Paired(members, Last(run'), a, b) && OnlyPair(Last(run), Last(run'), a, b)
    ensures CaughtUp(Last(run').nodes[a], b, Last(run').nodes[b])
  {
    assert run != [];
    hide Run, GoesOn, Exchanges;
    var rounds := LeaderRepairsFollower(members, run, |run| - 1, a, b);
    run' := ManyExchanges(members, q, run, a, b, rounds);
  }

  /** Leader `a` can use the followers in `q`, and those in `done` hold its whole log. */
  ghost predicate Followed(members: set<NodeId>, c: Cluster, q: set<NodeId>, a: NodeId, done: set<NodeId>) {
    && PeersOk(members, c) && a in q && q <= members
    && (forall b :: b in q && b != a ==> Repairable(c.nodes[a], c.nodes[b]))
    && c.nodes[a].role == Leader && c.nodes[a].proposal.None?
    && (forall b :: b in done && b in q ==> c.nodes[a].log <= c.nodes[b].log)
  }

  lemma FollowedMore(members: set<NodeId>, c: Cluster, c': Cluster, q: set<NodeId>, a: NodeId, b: NodeId,
                     done: set<NodeId>)
    requires Followed(members, c, q, a, done) && b in q && b != a
    requires Paired(members, c', a, b) && OnlyPair(c, c', a, b) && c'.nodes[a].log <= c'.nodes[b].log
    ensures Followed(members, c', q, a, done + {b})
  {
    assert c.nodes.Keys == members && c'.nodes.Keys == members;
    hide PeersOk;
    forall x | x in q && x != a ensures Repairable(c'.nodes[a], c'.nodes[x]) {
      if x != b {
        assert Repairable(c.nodes[a], c.nodes[x]);
      }
    }
    hide Repairable;
    forall x | x in done + {b} && x in q ensures c'.nodes[a].log <= c'.nodes[x].log {
      if x != b && x != a {
        assert c.nodes[a].log <= c.nodes[x].log;
      }
    }
  }

  lemma {:induction false} CatchUpAll(members: set<NodeId>, q: set<NodeId>, run: seq<Cluster>, a: NodeId,
                                      todo: set<NodeId>) returns (run': seq<Cluster>)
    requires Run(members, run) && todo <= q - {a} && Followed(members, Last(run), q, a, q - todo)
    ensures GoesOn(members, q, run, run') && Followed(members, Last(run'), q, a, q)
    ensures Last(run').nodes[a].log == Last(run).nodes[a].log && Last(run').nodes[a].term == Last(run).nodes[a].term
    decreases |todo|
  {
    hide Run, GoesOn, PeersOk, Last;
    if todo == {} {
      run' := run;
      Stays(members, q, run);
      assert q - todo == q;
    } else {
      var b :| b in todo;
      var r := CatchUp(members, q, run, a, b);
      RunAfter(members, q, run, r);
      FollowedMore(members, Last(run), Last(r), q, a, b, q - todo);
      assert (q - todo) + {b} == q - (todo - {b});
      run' := CatchUpAll(members, q, r, a, todo - {b});
      GoesOnTrans(members, q, run, r, run');
    }
  }

  // ---- Offering a command to the majority ----

  /** The command was appended to the log of `n` and is on offer; the followers in `acked` stored it, and the
      others in `q` still can. */
  ghost predicate OnOffer(members: set<NodeId>, c: Cluster, q: set<NodeId>, a: NodeId, n: Node, command: Command,
                          acked: set<NodeId>) {
    && c.nodes.Keys == members && a in q && q <= members && Propose(a, n, command).1 in c.msgs
    && c.nodes[a].proposal.Some? && c.nodes[a].proposal.value.index == |n.log| + 1
    && c.nodes[a] == Propose(a, n, command).0.(proposal := c.nodes[a].proposal)
    && acked + {a} <= c.nodes[a].proposal.value.acks
    && (forall b :: b in q && b != a ==> Able(n, c.nodes[b]))
    && forall b :: b in q && b != a && b !in acked ==> CanStore(n, c.nodes[b])
  }

  predicate Able(n: Node, f: Node) {
    f.proposal.None? && f.term <= n.term
  }

  predicate CanStore(n: Node, f: Node) {
    Able(n, f) && n.log <= f.log
  }

  lemma ProposeStep(members: set<NodeId>, c: Cluster, q: set<NodeId>, a: NodeId, command: Command)
    requires Followed(members, c, q, a, q)
    ensures a in c.nodes && c.nodes[a].role == Leader && Enabled(c, StartProposal(a, command))
    ensures OnOffer(members, Next(c, StartProposal(a, command)), q, a, c.nodes[a], command, {})
  {
  }

  lemma StoresOffered(b: NodeId, f: Node, a: NodeId, n: Node, command: Command)
    requires CanStore(n, f)
    ensures var m := Propose(a, n, command).1;
            && m.AppendEntries? && m.leader == a
            && HandleAppendEntries(b, f, m.term, m.leader, m.prevLogIndex, m.prevLogTerm, m.entries, m.leaderCommit).1
               == AppendReply(b, a, n.term, |n.log| + 1, n.term, true)
            && Able(n, HandleAppendEntries(b, f, m.term, m.leader, m.prevLogIndex, m.prevLogTerm, m.entries,
                                           m.leaderCommit).0)
  {
    hide MergeEntries;
  }

  lemma AckStep(c: Cluster, a: NodeId, r: Message)
    requires a in c.nodes && c.nodes[a].proposal.Some? && r in c.msgs && r.AppendReply? && r.leader == a && r.success
    requires r.requestTerm == c.nodes[a].term && r.lastIndex == c.nodes[a].proposal.value.index
    ensures Enabled(c, ProposalAck(a, r))
    ensures Next(c, ProposalAck(a, r)) == Cluster(c.nodes[a := CountAck(c.nodes[a], r.follower)], c.msgs)
  {
    assert c.msgs + {} == c.msgs;
  }

  lemma OfferTo(members: set<NodeId>, q: set<NodeId>, run: seq<Cluster>, a: NodeId, n: Node, command: Command,
                acked: set<NodeId>, b: NodeId) returns (run': seq<Cluster>)
    requires Run(members, run) && OnOffer(members, Last(run), q, a, n, command, acked) && b in q && b != a
             && b !in acked
    ensures GoesOn(members, q, run, run') && OnOffer(members, Last(run'), q, a, n, command, acked + {b})
  {
    hide Run, GoesOn, HandleAppendEntries, Enabled, Next, Last;
    var f, m := Last(run).nodes[b], Propose(a, n, command).1;
    assert CanStore(n, f);
    StoresOffered(b, f, a, n, command);
    ReceiveStep(Last(run), b, m);
    var r := Do(members, q, run, ReceiveAppend(b, m));
    RunAfter(members, q, run, r);
    var reply := AppendReply(b, a, n.term, |n.log| + 1, n.term, true);
    AckStep(Last(r), a, reply);
    run' := Do(members, q, r, ProposalAck(a, reply));
    GoesOnTrans(members, q, run, r, run');
  }

  lemma {:induction false} OfferAll(members: set<NodeId>, q: set<NodeId>, run: seq<Cluster>, a: NodeId, n: Node,
                                    command: Command, acked: set<NodeId>) returns (run': seq<Cluster>)
    requires Run(members, run) && OnOffer(members, Last(run), q, a, n, command, acked)
    ensures GoesOn(members, q, run, run') && OnOffer(members, Last(run'), q, a, n, command, q)
    decreases |q - acked - {a}|
  {
    hide Run, GoesOn, Last, OnOffer;
    var todo := q - acked - {a};
    if todo == {} {
      run' := run;
      Stays(members, q, run);
      EnoughAcks(members, Last(run), q, a, n, command, acked);
    } else {
      var b :| b in todo;
      var r := OfferTo(members, q, run, a, n, command, acked, b);
      RunAfter(members, q, run, r);
      assert q - (acked + {b}) - {a} == todo - {b};
      run' := OfferAll(members, q, r, a, n, command, acked + {b});
      GoesOnTrans(members, q, run, r, run');
    }
  }

  lemma EnoughAcks(members: set<NodeId>, c: Cluster, q: set<NodeId>, a: NodeId, n: Node, command: Command,
                   acked: set<NodeId>)
    requires OnOffer(members, c, q, a, n, command, acked) && q <= acked + {a}
    ensures OnOffer(members, c, q, a, n, command, q)
  {
  }

  lemma Outnumbers(members: set<NodeId>, q: set<NodeId>, acks: set<NodeId>)
    requires Majority(members, q) && q <= acks
    ensures 2 * |acks| > |members|
  {
    assert acks == q + (acks - q);
    assert |acks| == |q| + |acks - q|;
  }

  /** Leader `a` has committed and applied its whole log, the command last. */
  ghost predicate Applied(c: Cluster, a: NodeId, n: Node, command: Command) {
    && a in c.nodes && c.nodes[a].role == Leader && c.nodes[a].term == n.term
    && c.nodes[a].log == n.log + [Entry(n.term, |n.log| + 1, command)]
    && c.nodes[a].commitIndex == |c.nodes[a].log| && c.nodes[a].applyQueue == c.nodes[a].log
  }

  /** The others in `q` can follow the leader. */
  ghost predicate Usable(c: Cluster, q: set<NodeId>, a: NodeId) {
    && a in c.nodes && c.nodes[a].proposal.None?
    && forall b :: b in q && b != a ==> b in c.nodes && Able(c.nodes[a], c.nodes[b])
  }

  lemma FinishOffer(members: set<NodeId>, q: set<NodeId>, run: seq<Cluster>, a: NodeId, n: Node, command: Command)
    returns (run': seq<Cluster>)
    requires Run(members, run) && Majority(members, q) && OnOffer(members, Last(run), q, a, n, command, q)
    requires n.role == Leader
    ensures GoesOn(members, q, run, run') && Applied(Last(run'), a, n, command) && Usable(Last(run'), q, a)
  {
    hide Run, GoesOn, Last, CanStore;
    var p := Last(run).nodes[a];
    Outnumbers(members, q, p.proposal.value.acks);
    EndStep(Last(run), a);
    EndProposalCommitsIff(members, run, a);
    var r := Do(members, q, run, EndProposal(a));
    RunAfter(members, q, run, r);
    ApplyStep(Last(r), a);
    ApplyAppliesAll(members, r, a);
    run' := Do(members, q, r, ApplyLog(a));
    GoesOnTrans(members, q, run, r, run');
  }

  lemma EndStep(c: Cluster, a: NodeId)
    requires a in c.nodes && c.nodes[a].proposal.Some?
    ensures Enabled(c, EndProposal(a)) && a in Next(c, EndProposal(a)).nodes
    ensures var n, n' := c.nodes[a], Next(c, EndProposal(a)).nodes[a];
            n'.role == n.role && n'.term == n.term && n'.log == n.log && n'.proposal.None?
    ensures forall id :: id in c.nodes && id != a ==>
              id in Next(c, EndProposal(a)).nodes && Next(c, EndProposal(a)).nodes[id] == c.nodes[id]
  {
  }

  lemma ApplyStep(c: Cluster, a: NodeId)
    requires a in c.nodes && c.nodes[a].proposal.None?
    ensures Enabled(c, ApplyLog(a)) && a in Next(c, ApplyLog(a)).nodes
    ensures var n, n' := c.nodes[a], Next(c, ApplyLog(a)).nodes[a];
            && n'.role == n.role && n'.term == n.term && n'.log == n.log && n'.commitIndex == n.commitIndex
            && n'.proposal.None?
    ensures Next(c, ApplyLog(a)).nodes.Keys == c.nodes.Keys
    ensures forall id :: id in c.nodes && id != a ==> Next(c, ApplyLog(a)).nodes[id] == c.nodes[id]
  {
  }

  /** A leader whose majority has not moved to a later term can get any command committed and applied, with
      nobody outside the majority taking part. */
  lemma LeaderCommits(members: set<NodeId>, q: set<NodeId>, run: seq<Cluster>, a: NodeId, command: Command)
    returns (run': seq<Cluster>)
    requires Run(members, run) && Majority(members, q) && a in q && a in Last(run).nodes
    requires Last(run).nodes[a].role == Leader && Last(run).nodes[a].proposal.None?
    requires forall b :: b in q && b in Last(run).nodes ==> Last(run).nodes[b].term <= Last(run).nodes[a].term
    ensures GoesOn(members, q, run, run') && Applied(Last(run'), a, Last(run).nodes[a], command)
    ensures Usable(Last(run'), q, a)
  {
    hide *;
    LastPeers(members, run);
    MajorityWithin(members, Last(run), q);
    var n := Last(run).nodes[a];
    var r1 := EndAll(members, q, run, q);
    RunAfter(members, q, run, r1);
    LastPeers(members, r1);
    ReadyToFollow(members, Last(run), Last(r1), q, a);
    var r2 := CatchUpAll(members, q, r1, a, q - {a});
    RunAfter(members, q, r1, r2);
    GoesOnTrans(members, q, run, r1, r2);
    ProposeStep(members, Last(r2), q, a, command);
    var m := Last(r2).nodes[a];
    var r3 := Do(members, q, r2, StartProposal(a, command));
    RunAfter(members, q, r2, r3);
    GoesOnTrans(members, q, run, r2, r3);
    var r4 := OfferAll(members, q, r3, a, m, command, {});
    RunAfter(members, q, r3, r4);
    GoesOnTrans(members, q, run, r3, r4);
    run' := FinishOffer(members, q, r4, a, m, command);
    GoesOnTrans(members, q, run, r4, run');
    AppliedSame(Last(run'), a, m, n, command);
  }

  lemma MajorityWithin(members: set<NodeId>, c: Cluster, q: set<NodeId>)
    requires PeersOk(members, c) && Majority(members, q)
    ensures q <= members == c.nodes.Keys && Unlocked(c, q - q)
  {
  }

  lemma ReadyToFollow(members: set<NodeId>, c: Cluster, c': Cluster, q: set<NodeId>, a: NodeId)
    requires PeersOk(members, c) && PeersOk(members, c') && SameLogs(c, c') && Unlocked(c', q)
    requires q <= members && a in q && a in c.nodes && c.nodes[a].role == Leader
    requires forall b :: b in q && b in c.nodes ==> c.nodes[b].term <= c.nodes[a].term
    ensures a in c'.nodes && c'.nodes[a].log == c.nodes[a].log && c'.nodes[a].term == c.nodes[a].term
    ensures Followed(members, c', q, a, q - (q - {a}))
  {
    assert c.nodes.Keys == members && c'.nodes.Keys == members;
    hide PeersOk;
  }

  lemma AppliedSame(c: Cluster, a: NodeId, m: Node, n: Node, command: Command)
    requires Applied(c, a, m, command) && m.log == n.log && m.term == n.term
    ensures Applied(c, a, n, command)
  {
  }

  lemma LastPeers(members: set<NodeId>, run: seq<Cluster>)
    requires Run(members, run)
    ensures PeersOk(members, Last(run))
  {
    RunPeers(members, run, |run| - 1);
  }
}
