/** What a leader has committed reaches the rest of its majority, and is applied there. */
module RaftDelivery {
  import opened Wrappers
  import opened RaftTypes
  import opened RaftCluster
  import opened RaftHistory
  import opened RaftElection
  import opened RaftSafety
  import opened RaftFindings
  import opened RaftProgress

  /** A heartbeat to a follower that has the whole log tells it what is committed. */
  lemma HeartbeatCommits(a: NodeId, n: Node, b: NodeId, f: Node)
    requires CaughtUp(n, b, f) && Repairable(n, f) && n.commitIndex == |n.log|
    ensures var f' := Exchange(a, n, b, f).1;
            f'.log == f.log && f'.commitIndex >= |n.log|
  {
  }

  lemma DeliverTo(members: set<NodeId>, q: set<NodeId>, run: seq<Cluster>, a: NodeId, b: NodeId)
    returns (run': seq<Cluster>)
    requires Run(members, run) && Paired(members, Last(run), a, b) && a in q && b in q
    requires Last(run).nodes[a].commitIndex == |Last(run).nodes[a].log|
    ensures GoesOn(members, q, run, run') && Paired(members, Last(run'), a, b) && OnlyPair(Last(run), Last(run'), a, b)
    ensures Last(run').nodes[b].applyQueue == Last(run).nodes[a].log
  {
    hide Run, GoesOn, Last, Exchange, Enabled, Next, PeersOk, CaughtUp;
    PairedNodes(members, Last(run), a, b);
    var n := Last(run).nodes[a];
    var r1 := CatchUp(members, q, run, a, b);
    RunAfter(members, q, run, r1);
    PairedNodes(members, Last(r1), a, b);
    var r2 := OneExchange(members, q, r1, a, b);
    RunAfter(members, q, r1, r2);
    PairedNodes(members, Last(r2), a, b);
    HeartbeatCommits(a, Last(r1).nodes[a], b, Last(r1).nodes[b]);
    ApplyStep(Last(r2), b);
    ApplyAppliesAll(members, r2, b);
    run' := Do(members, q, r2, ApplyLog(b));
    RunAfter(members, q, r2, run');
    LastPeers(members, run');
    GoesOnTrans(members, q, run, r1, r2);
    GoesOnTrans(members, q, run, r2, run');
    OnlyPairTrans(Last(run), Last(r1), Last(r2), a, b);
    NothingBeyond(members, run', a, b);
  }

  /** A follower never knows more to be committed than the leader has in its log. */
  lemma NothingBeyond(members: set<NodeId>, run: seq<Cluster>, a: NodeId, b: NodeId)
    requires Run(members, run) && a in Last(run).nodes && b in Last(run).nodes
    requires Last(run).nodes[a].role == Leader && Last(run).nodes[b].term <= Last(run).nodes[a].term
    ensures var n, f := Last(run).nodes[a], Last(run).nodes[b];
            f.commitIndex <= |f.log| && f.log[..f.commitIndex] <= n.log
  {
    assert run != [];
    LeaderHoldsCommitted(members, run, |run| - 1, |run| - 1, b, a);
  }

  /** Leader `a` has committed its whole log, can use the followers in `q`, and those in `done` have applied it. */
  ghost predicate Delivered(members: set<NodeId>, c: Cluster, q: set<NodeId>, a: NodeId, done: set<NodeId>) {
    && PeersOk(members, c) && a in q && q <= members && c.nodes[a].commitIndex == |c.nodes[a].log|
    && c.nodes[a].role == Leader && (forall b :: b in q && b != a ==> Repairable(c.nodes[a], c.nodes[b]))
    && (forall b :: b in done && b in q ==> c.nodes[b].applyQueue == c.nodes[a].log)
  }

  lemma DeliveredMore(members: set<NodeId>, c: Cluster, c': Cluster, q: set<NodeId>, a: NodeId, b: NodeId,
                      done: set<NodeId>)
    requires Delivered(members, c, q, a, done) && b in q && b != a
    requires Paired(members, c', a, b) && OnlyPair(c, c', a, b) && c'.nodes[b].applyQueue == c'.nodes[a].log
    ensures Delivered(members, c', q, a, done + {b})
  {
    assert c.nodes.Keys == members && c'.nodes.Keys == members;
    assert c'.nodes[a].role == Leader && c'.nodes[a].proposal.None?;
    hide PeersOk, Repairable;
    forall x | x in q && x != a ensures Repairable(c'.nodes[a], c'.nodes[x]) {
      if x != b {
        assert Repairable(c.nodes[a], c.nodes[x]);
        StillRepairable(c.nodes[a], c'.nodes[a], c.nodes[x]);
      }
    }
    forall x | x in done + {b} && x in q ensures c'.nodes[x].applyQueue == c'.nodes[a].log {
      if x != b && x != a {
        assert c.nodes[x].applyQueue == c.nodes[a].log;
      }
    }
  }

  lemma StillRepairable(n: Node, n': Node, f: Node)
    requires Repairable(n, f) && n'.role == Leader && n'.proposal.None? && n'.term == n.term
    ensures Repairable(n', f)
  {
  }

  lemma {:induction false} DeliverAll(members: set<NodeId>, q: set<NodeId>, run: seq<Cluster>, a: NodeId,
                                      todo: set<NodeId>) returns (run': seq<Cluster>)
    requires Run(members, run) && todo <= q - {a} && Delivered(members, Last(run), q, a, q - todo)
    ensures GoesOn(members, q, run, run') && Delivered(members, Last(run'), q, a, q)
    ensures Last(run').nodes[a].log == Last(run).nodes[a].log && Last(run').nodes[a].term == Last(run).nodes[a].term
    ensures Last(run').nodes[a].applyQueue == Last(run).nodes[a].applyQueue
    decreases |todo|
  {
    hide Run, GoesOn, PeersOk, Last;
    if todo == {} {
      run' := run;
      Stays(members, q, run);
      assert q - todo == q;
    } else {
      var b :| b in todo;
      var r := DeliverTo(members, q, run, a, b);
      RunAfter(members, q, run, r);
      DeliveredMore(members, Last(run), Last(r), q, a, b, q - todo);
      assert (q - todo) + {b} == q - (todo - {b});
      run' := DeliverAll(members, q, r, a, todo - {b});
      GoesOnTrans(members, q, run, r, run');
    }
  }

  /** Whatever the leader applied, the whole majority applies. */
  lemma MajorityApplies(members: set<NodeId>, q: set<NodeId>, run: seq<Cluster>, a: NodeId, n: Node, command: Command)
    returns (run': seq<Cluster>)
    requires Run(members, run) && q <= members && a in q
    requires Applied(Last(run), a, n, command) && Usable(Last(run), q, a)
    ensures GoesOn(members, q, run, run') && Applied(Last(run'), a, n, command)
    ensures forall b :: b in q ==> b in Last(run').nodes && Last(run').nodes[b].applyQueue == Last(run').nodes[a].log
  {
    hide Run, GoesOn, PeersOk, Last;
    LastPeers(members, run);
    ReadyToDeliver(members, Last(run), q, a);
    run' := DeliverAll(members, q, run, a, q - {a});
    RunAfter(members, q, run, run');
    LastPeers(members, run');
    InCluster(members, Last(run'), q);
  }

  lemma InCluster(members: set<NodeId>, c: Cluster, q: set<NodeId>)
    requires PeersOk(members, c) && q <= members
    ensures forall b :: b in q ==> b in c.nodes
  {
  }

  lemma ReadyToDeliver(members: set<NodeId>, c: Cluster, q: set<NodeId>, a: NodeId)
    requires PeersOk(members, c) && a in q && q <= members && Usable(c, q, a)
    requires c.nodes[a].role == Leader && c.nodes[a].commitIndex == |c.nodes[a].log|
    requires c.nodes[a].applyQueue == c.nodes[a].log
    ensures Delivered(members, c, q, a, q - (q - {a}))
  {
    assert c.nodes.Keys == members;
  }
}
