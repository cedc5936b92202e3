/** From every reachable state any majority, by itself, can elect a leader and
    have a new command committed and applied. */
module RaftRecovery {
  import opened Wrappers
  import opened RaftTypes
  import opened RaftCluster
  import opened RaftHistory
  import opened RaftProgress
  import opened RaftDelivery
  import RaftSafety

  // ---- The most advanced members ----

  lemma {:induction false} HighestTerm(c: Cluster, q: set<NodeId>) returns (b: NodeId)
    requires q != {} && q <= c.nodes.Keys
    ensures b in q && forall x :: x in q ==> c.nodes[x].term <= c.nodes[b].term
    decreases |q|
  {
    var y :| y in q;
    b := y;
    if q != {y} {
      assert q == (q - {y}) + {y};
      var z := HighestTerm(c, q - {y});
      b := if c.nodes[y].term < c.nodes[z].term then z else y;
    }
  }

  /** Would vote for a candidate with this log. */
  predicate AtMost(log: seq<Entry>, candidate: seq<Entry>) {
    LogIsCurrent(LastTerm(candidate), |candidate|, log)
  }

  lemma {:induction false} MostCurrent(c: Cluster, q: set<NodeId>) returns (a: NodeId)
    requires q != {} && q <= c.nodes.Keys
    ensures a in q && forall x :: x in q ==> AtMost(c.nodes[x].log, c.nodes[a].log)
    decreases |q|
  {
    var y :| y in q;
    a := y;
    if q != {y} {
      assert q == (q - {y}) + {y};
      var z := MostCurrent(c, q - {y});
      a := if AtMost(c.nodes[y].log, c.nodes[z].log) then z else y;
    }
  }

  // ---- The steps of an election ----

  lemma TimeoutStep(c: Cluster, a: NodeId)
    requires a in c.nodes && c.nodes[a].proposal.None? && c.nodes[a].role != Leader
    ensures Enabled(c, Timeout(a))
    ensures var (n, m) := StartElection(a, c.nodes[a]); Next(c, Timeout(a)) == Cluster(c.nodes[a := n], c.msgs + {m})
  {
  }

  lemma VoteStep(c: Cluster, v: NodeId, m: Message)
    requires v in c.nodes && c.nodes[v].proposal.None? && m in c.msgs && m.RequestVote? && m.candidate != v
    ensures Enabled(c, ReceiveRequestVote(v, m))
    ensures var (f, r) := HandleRequestVote(v, c.nodes[v], m.term, m.candidate, m.lastLogIndex, m.lastLogTerm);
            Next(c, ReceiveRequestVote(v, m)) == Cluster(c.nodes[v := f], c.msgs + {r})
  {
    hide HandleRequestVote;
  }

  lemma TallyStep(c: Cluster, a: NodeId, r: Message)
    requires a in c.nodes && c.nodes[a].proposal.None? && r in c.msgs && r.VoteReply? && r.candidate == a
    requires r.requestTerm == c.nodes[a].term
    ensures Enabled(c, ReceiveVoteReply(a, r))
    ensures Next(c, ReceiveVoteReply(a, r))
            == Cluster(c.nodes[a := TallyVote(c.nodes[a], r.voter, r.term, r.granted)], c.msgs)
  {
    assert c.msgs + {} == c.msgs;
  }

  lemma WinStep(c: Cluster, a: NodeId)
    requires a in c.nodes && c.nodes[a].proposal.None? && c.nodes[a].role == Candidate
    requires 2 * |c.nodes[a].granted| > |c.nodes|
    ensures Enabled(c, WinElection(a))
    ensures Next(c, WinElection(a)) == Cluster(c.nodes[a := BecomeLeader(a, c.nodes[a])], c.msgs)
  {
    assert c.msgs + {} == c.msgs;
  }

  // ---- Campaigning ----

  /** `a` has asked for votes in a term no other member of `q` has reached; those in `votes` granted it theirs. */
  ghost predicate Campaigning(members: set<NodeId>, c: Cluster, q: set<NodeId>, a: NodeId, votes: set<NodeId>) {
    && c.nodes.Keys == members && a in q && q <= members && Unlocked(c, q)
    && c.nodes[a].role == Candidate && votes + {a} <= c.nodes[a].granted
    && RequestVote(c.nodes[a].term, a, |c.nodes[a].log|, LastTerm(c.nodes[a].log)) in c.msgs
    && (forall v :: v in q ==> c.nodes[v].term <= c.nodes[a].term)
    && (forall v :: v in q && v != a && v !in votes ==> WillVote(c.nodes[a], c.nodes[v]))
  }

  predicate WillVote(n: Node, f: Node) {
    f.term < n.term && AtMost(f.log, n.log)
  }

  lemma Grants(v: NodeId, f: Node, a: NodeId, n: Node)
    requires WillVote(n, f)
    ensures var (f', r) := HandleRequestVote(v, f, n.term, a, |n.log|, LastTerm(n.log));
            && r == VoteReply(v, a, n.term, n.term, true)
            && f'.term == n.term && f'.log == f.log && f'.proposal == f.proposal
  {
  }

  lemma VoteOf(members: set<NodeId>, q: set<NodeId>, run: seq<Cluster>, a: NodeId, votes: set<NodeId>, v: NodeId)
    returns (run': seq<Cluster>)
    requires Run(members, run) && Campaigning(members, Last(run), q, a, votes) && v in q && v != a && v !in votes
    ensures GoesOn(members, q, run, run') && Campaigning(members, Last(run'), q, a, votes + {v})
  {
    hide Run, GoesOn, HandleRequestVote, Enabled, Next, Last, AtMost;
    var c := Last(run);
    var n, f := c.nodes[a], c.nodes[v];
    var m := RequestVote(n.term, a, |n.log|, LastTerm(n.log));
    Grants(v, f, a, n);
    VoteStep(c, v, m);
    var r := Do(members, q, run, ReceiveRequestVote(v, m));
    RunAfter(members, q, run, r);
    var reply := VoteReply(v, a, n.term, n.term, true);
    TallyStep(Last(r), a, reply);
    run' := Do(members, q, r, ReceiveVoteReply(a, reply));
    GoesOnTrans(members, q, run, r, run');
  }

  lemma {:induction false} AllVotes(members: set<NodeId>, q: set<NodeId>, run: seq<Cluster>, a: NodeId,
                                    votes: set<NodeId>) returns (run': seq<Cluster>)
    requires Run(members, run) && Campaigning(members, Last(run), q, a, votes)
    ensures GoesOn(members, q, run, run') && Campaigning(members, Last(run'), q, a, q)
    decreases |q - votes - {a}|
  {
    hide *;
    var todo := q - votes - {a};
    if todo == {} {
      run' := run;
      Stays(members, q, run);
      EnoughVotes(members, Last(run), q, a, votes);
    } else {
      var v :| v in todo;
      var r := VoteOf(members, q, run, a, votes, v);
      RunAfter(members, q, run, r);
      assert q - (votes + {v}) - {a} == todo - {v};
      run' := AllVotes(members, q, r, a, votes + {v});
      GoesOnTrans(members, q, run, r, run');
    }
  }

  lemma EnoughVotes(members: set<NodeId>, c: Cluster, q: set<NodeId>, a: NodeId, votes: set<NodeId>)
    requires Campaigning(members, c, q, a, votes) && q - votes - {a} == {}
    ensures Campaigning(members, c, q, a, q)
  {
    forall v | v in q ensures v in votes + {a} {
      assert v in q - votes - {a} <==> v !in votes + {a};
    }
  }

  /** A leader whom no member of `q` has left behind. */
  ghost predicate Leads(members: set<NodeId>, c: Cluster, q: set<NodeId>, a: NodeId) {
    && c.nodes.Keys == members && a in q && q <= members
    && c.nodes[a].role == Leader && c.nodes[a].proposal.None?
    && forall b :: b in q ==> c.nodes[b].term <= c.nodes[a].term
  }

  lemma Wins(members: set<NodeId>, q: set<NodeId>, run: seq<Cluster>, a: NodeId) returns (run': seq<Cluster>)
    requires Run(members, run) && Majority(members, q) && Campaigning(members, Last(run), q, a, q)
    ensures GoesOn(members, q, run, run') && Leads(members, Last(run'), q, a)
  {
    hide Run, GoesOn, Enabled, Next, Last;
    var c := Last(run);
    Outnumbers(members, q, c.nodes[a].granted);
    assert |c.nodes| == |c.nodes.Keys|;
    WinStep(c, a);
    run' := Do(members, q, run, WinElection(a));
  }

  /** The most current member starts an election in a term ahead of all others. */
  lemma Campaign(members: set<NodeId>, q: set<NodeId>, run: seq<Cluster>, a: NodeId, b: NodeId)
    returns (run': seq<Cluster>)
    requires Run(members, run) && Behind(members, Last(run), q, a, b) && Last(run).nodes[b].role != Leader
    ensures GoesOn(members, q, run, run') && Campaigning(members, Last(run'), q, a, {})
  {
    hide *;
    BehindNodes(members, Last(run), q, a, b);
    TimeoutStep(Last(run), b);
    var r := Do(members, q, run, Timeout(b));
    RunAfter(members, q, run, r);
    if a == b {
      run' := r;
      StartsAhead(members, Last(run), q, a, b);
    } else {
      var m := StartElection(b, Last(run).nodes[b]).1;
      AsksOthers(members, Last(run), q, a, b);
      VoteStep(Last(r), a, m);
      var r2 := Do(members, q, r, ReceiveRequestVote(a, m));
      RunAfter(members, q, r, r2);
      GoesOnTrans(members, q, run, r, r2);
      SteppedDown(members, Last(run), Last(r2), q, a, b);
      TimeoutStep(Last(r2), a);
      run' := Do(members, q, r2, Timeout(a));
      GoesOnTrans(members, q, run, r2, run');
    }
  }

  /** `a` has the most current log and `b` the highest term. */
  ghost predicate Behind(members: set<NodeId>, c: Cluster, q: set<NodeId>, a: NodeId, b: NodeId) {
    && c.nodes.Keys == members && a in q && b in q && q <= members && Unlocked(c, q)
    && (forall x :: x in q ==> c.nodes[x].term <= c.nodes[b].term)
    && (forall x :: x in q ==> AtMost(c.nodes[x].log, c.nodes[a].log))
  }

  lemma BehindNodes(members: set<NodeId>, c: Cluster, q: set<NodeId>, a: NodeId, b: NodeId)
    requires Behind(members, c, q, a, b)
    ensures a in q && b in q && a in c.nodes && b in c.nodes && c.nodes[a].proposal.None? && c.nodes[b].proposal.None?
  {
  }

  lemma StartsAhead(members: set<NodeId>, c: Cluster, q: set<NodeId>, a: NodeId, b: NodeId)
    requires Behind(members, c, q, a, b) && a == b
    ensures var (n, m) := StartElection(a, c.nodes[a]);
            Campaigning(members, Cluster(c.nodes[a := n], c.msgs + {m}), q, a, {})
  {
    hide AtMost;
  }

  lemma AsksOthers(members: set<NodeId>, c: Cluster, q: set<NodeId>, a: NodeId, b: NodeId)
    requires Behind(members, c, q, a, b) && a != b
    ensures var (n, m) := StartElection(b, c.nodes[b]);
            var c' := Cluster(c.nodes[b := n], c.msgs + {m});
            m.RequestVote? && m.candidate == b && m in c'.msgs && c'.nodes[a].proposal.None?
  {
  }

  lemma SteppedDown(members: set<NodeId>, c: Cluster, c2: Cluster, q: set<NodeId>, a: NodeId, b: NodeId)
    requires Behind(members, c, q, a, b) && a != b
    requires var (n, m) := StartElection(b, c.nodes[b]);
             var f := HandleRequestVote(a, c.nodes[a], m.term, m.candidate, m.lastLogIndex, m.lastLogTerm).0;
             c2.nodes == c.nodes[b := n][a := f]
    ensures a in c2.nodes && c2.nodes[a].proposal.None? && c2.nodes[a].role != Leader
    ensures var (n, m) := StartElection(a, c2.nodes[a]);
            Campaigning(members, Cluster(c2.nodes[a := n], c2.msgs + {m}), q, a, {})
  {
    hide AtMost;
  }

  /** From every reachable state a majority can get itself a leader. */
  lemma Elect(members: set<NodeId>, q: set<NodeId>, run: seq<Cluster>) returns (run': seq<Cluster>, a: NodeId)
    requires Run(members, run) && Majority(members, q)
    ensures GoesOn(members, q, run, run') && Leads(members, Last(run'), q, a)
  {
    hide *;
    LastPeers(members, run);
    MajorityWithin(members, Last(run), q);
    var r := EndAll(members, q, run, q);
    RunAfter(members, q, run, r);
    LastPeers(members, r);
    MajorityWithin(members, Last(r), q);
    NotEmpty(members, q);
    a := MostCurrent(Last(r), q);
    var b := HighestTerm(Last(r), q);
    IsBehind(members, Last(r), q, a, b);
    if Last(r).nodes[b].role == Leader {
      run', a := r, b;
      AlreadyLeads(members, Last(r), q, b);
    } else {
      var r1 := Campaign(members, q, r, a, b);
      RunAfter(members, q, r, r1);
      GoesOnTrans(members, q, run, r, r1);
      var r2 := AllVotes(members, q, r1, a, {});
      RunAfter(members, q, r1, r2);
      GoesOnTrans(members, q, run, r1, r2);
      run' := Wins(members, q, r2, a);
      GoesOnTrans(members, q, run, r2, run');
    }
  }

  lemma NotEmpty(members: set<NodeId>, q: set<NodeId>)
    requires Majority(members, q)
    ensures q != {}
  {
  }

  lemma IsBehind(members: set<NodeId>, c: Cluster, q: set<NodeId>, a: NodeId, b: NodeId)
    requires q <= members == c.nodes.Keys && Unlocked(c, q) && a in q && b in q
    requires forall x :: x in q ==> c.nodes[x].term <= c.nodes[b].term
    requires forall x :: x in q ==> AtMost(c.nodes[x].log, c.nodes[a].log)
    ensures Behind(members, c, q, a, b)
  {
  }

  lemma AlreadyLeads(members: set<NodeId>, c: Cluster, q: set<NodeId>, b: NodeId)
    requires q <= members == c.nodes.Keys && Unlocked(c, q) && b in q && c.nodes[b].role == Leader
    requires forall x :: x in q ==> c.nodes[x].term <= c.nodes[b].term
    ensures Leads(members, c, q, b)
  {
  }

  /** Whatever happened so far, any majority can go on without the others: it elects a leader, which commits the
      command at the end of its log, and all of them apply that log. */
  lemma MajorityMakesProgress(members: set<NodeId>, q: set<NodeId>, run: seq<Cluster>, command: Command)
    returns (run': seq<Cluster>, a: NodeId)
    requires Run(members, run) && Majority(members, q)
    ensures GoesOn(members, q, run, run') && a in q && a in Last(run').nodes
    ensures var n := Last(run').nodes[a];
            && n.role == Leader && n.log != [] && n.log[|n.log| - 1].command == command
            && n.commitIndex == n.lastApplied == |n.log|
            && forall b :: b in q ==> b in Last(run').nodes && Last(run').nodes[b].applyQueue == n.log
    ensures forall id :: id in members && id !in q ==>
              id in Last(run).nodes && id in Last(run').nodes && Last(run').nodes[id] == Last(run).nodes[id]
  {
    hide *;
    var r: seq<Cluster>;
    r, a := Elect(members, q, run);
    RunAfter(members, q, run, r);
    LeadsNodes(members, Last(r), q, a);
    var n := Last(r).nodes[a];
    var r2 := LeaderCommits(members, q, r, a, command);
    RunAfter(members, q, r, r2);
    GoesOnTrans(members, q, run, r, r2);
    LastPeers(members, r2);
    MajorityWithin(members, Last(r2), q);
    run' := MajorityApplies(members, q, r2, a, n, command);
    RunAfter(members, q, r2, run');
    GoesOnTrans(members, q, run, r2, run');
    AppliedMeans(members, run', a, n, command);
    LastPeers(members, run);
    forall id | id in members && id !in q
      ensures id in Last(run).nodes && id in Last(run').nodes && Last(run').nodes[id] == Last(run).nodes[id]
    {
      HasMember(members, Last(run), id);
      OthersKeep(members, q, run, run', id);
    }
  }

  lemma LeadsNodes(members: set<NodeId>, c: Cluster, q: set<NodeId>, a: NodeId)
    requires Leads(members, c, q, a)
    ensures a in q && a in c.nodes && c.nodes[a].role == Leader && c.nodes[a].proposal.None?
    ensures forall b :: b in q && b in c.nodes ==> c.nodes[b].term <= c.nodes[a].term
  {
  }

  lemma HasMember(members: set<NodeId>, c: Cluster, id: NodeId)
    requires PeersOk(members, c) && id in members
    ensures id in c.nodes
  {
  }

  lemma AppliedMeans(members: set<NodeId>, run: seq<Cluster>, a: NodeId, n: Node, command: Command)
    requires Run(members, run) && Applied(Last(run), a, n, command)
    ensures a in Last(run).nodes
    ensures var m := Last(run).nodes[a];
            && m.role == Leader && m.log != [] && m.log[|m.log| - 1].command == command
            && m.commitIndex == m.lastApplied == |m.log|
  {
    assert run != [];
    RaftSafety.ApplyQueueIsLogPrefix(members, run, |run| - 1, a);
  }
}
