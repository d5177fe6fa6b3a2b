// Every operation of the delivery state machine keeps the invariant, so every run has it.
module Runs {
  import opened Model
  import opened DagSpec
  import opened Delivery

  // ----- every operation keeps the invariant -----

  lemma PendingParts(n: Node, g: Vertex, peak: u64)
    requires Core(g, n, multiset(n.buffer), peak)
    ensures SetOf(n.accepted) == SetOf(n.log) + SetOf(n.buffer)
    ensures HashesOf(n.accepted) == HashesOf(n.log) + HashesOf(n.buffer)
  {
    assert forall v :: v in n.accepted <==> v in multiset(n.accepted);
    assert forall v :: v in n.log <==> v in multiset(n.log);
    assert forall v :: v in n.buffer <==> v in multiset(n.buffer);
    assert forall v :: v in n.accepted <==> v in n.log || v in n.buffer;
  }

  /** A stored hash other than genesis is logged, and its parents are stored. */
  lemma Logged(g: Vertex, n: Node, h: VertexHash) returns (i: nat)
    requires Topological(g, n.log) && Hashes(n.dag) == {g.hash} + HashesOf(n.log)
    requires h in Hashes(n.dag) && h != g.hash
    ensures i < |n.log| && n.log[i].hash == h && n.log[i].parents.Keys <= Hashes(n.dag)
  {
    var w :| w in n.log && w.hash == h;
    i :| 0 <= i < |n.log| && n.log[i] == w;
    forall p | p in n.log[i].parents.Keys
      ensures p in Hashes(n.dag)
    {
      if p != g.hash {
        var j :| 0 <= j < i && n.log[j].hash == p;
        assert n.log[j] in n.log;
      }
    }
  }

  /** A vertex whose hash a drain stored is itself ready after the drain. */
  lemma CopyReady(g: Vertex, n: Node, n': Node, v: Vertex)
    requires DrainFrame(n, n') && Topological(g, n'.log)
    requires Hashes(n'.dag) == {g.hash} + HashesOf(n'.log)
    requires HashesOf(n.log) <= Hashes(n.dag) && g.hash in Hashes(n.dag)
    requires v.hash in Hashes(n'.dag) && v.hash !in Hashes(n.dag)
    requires Consistent(SetOf(n'.log) + {v})
    ensures Ready(n', v)
  {
    var i := Logged(g, n', v.hash);
    var w := n'.log[i];
    assert w in SetOf(n'.log) + {v};
    assert n.log <= n'.log;
    assert Since(n, n')[i - |n.log|] == w;
  }

  /** After a drain no buffered vertex has a stored hash. */
  lemma DrainSeparates(g: Vertex, n: Node, n': Node, v: Vertex)
    requires DrainFrame(n, n') && Topological(g, n'.log)
    requires Hashes(n'.dag) == {g.hash} + HashesOf(n'.log)
    requires HashesOf(n.log) <= Hashes(n.dag) && g.hash in Hashes(n.dag)
    requires v in n'.buffer && Consistent(SetOf(n'.log) + SetOf(n'.buffer))
    requires v.hash !in Hashes(n.dag)
    ensures v.hash !in Hashes(n'.dag)
  {
    assert SetOf(n'.log) + {v} <= SetOf(n'.log) + SetOf(n'.buffer);
    if v.hash in Hashes(n'.dag) {
      CopyReady(g, n, n', v);
    }
  }

  /** A drain restores the invariant. */
  lemma DrainRestores(g: Vertex, n: Node, peak: u64)
    requires Core(g, n, multiset(n.buffer), peak) && n.currentRound <= peak
    requires Consistent(SetOf(n.accepted))
    requires forall v | v in n.buffer :: v.hash !in Hashes(n.dag)
    ensures Inv(g, Drain(n), peak)
  {
    var n' := Drain(n);
    DrainKeeps(g, n, peak);
    DrainContract(n);
    PendingParts(n', g, peak);
    forall v | v in n'.buffer
      ensures v.hash !in Hashes(n'.dag)
    {
      assert v in multiset(n.buffer);
      DrainSeparates(g, n, n', v);
    }
  }

  lemma InitKeeps(g: Vertex)
    ensures Inv(g, Init(g), 0)
  {
    NewHashes(g);
  }

  lemma RaisePeak(g: Vertex, n: Node, pending: multiset<Vertex>, peak: u64, peak': u64)
    requires Core(g, n, pending, peak) && peak <= peak'
    ensures Core(g, n, pending, peak')
  {
  }

  /** A buffered vertex does not share its hash with a vertex that is ready. */
  lemma BufferedApart(g: Vertex, n: Node, v: Vertex, w: Vertex, peak: u64)
    requires Inv(g, n, peak) && w in n.buffer && Ready(n, v)
    requires Consistent(SetOf(n.accepted) + {v})
    ensures w.hash !in Hashes(Deliver(n, v).dag)
  {
    PendingParts(n, g, peak);
    assert w in SetOf(n.buffer);
    assert w in SetOf(n.accepted) + {v} && v in SetOf(n.accepted) + {v};
    assert w.hash != v.hash;
    InsertHashes(n.dag, v);
  }

  /** Between the insertion on arrival and the drain that follows it. */
  lemma DeliverOnArrival(g: Vertex, m: Node, v: Vertex, peak: u64)
    requires Core(g, m, multiset(m.buffer) + multiset{v}, peak) && Ready(m, v) && m.currentRound <= peak
    ensures Core(g, Deliver(m, v), multiset(m.buffer), peak)
  {
    DeliverKeeps(g, m, v, multiset(m.buffer) + multiset{v}, peak);
    assert multiset(m.buffer) + multiset{v} - multiset{v} == multiset(m.buffer);
  }

  lemma AddReadyKeeps(g: Vertex, n: Node, m: Node, v: Vertex, peak: u64)
    requires Inv(g, n, peak) && m == n.(accepted := n.accepted + [v]) && Ready(n, v)
    requires Core(g, m, multiset(n.buffer) + multiset{v}, peak)
    requires Consistent(SetOf(n.accepted) + {v})
    ensures Inv(g, Drain(Deliver(m, v)), peak)
  {
    var k := Deliver(m, v);
    DeliverOnArrival(g, m, v, peak);
    forall w | w in k.buffer
      ensures w.hash !in Hashes(k.dag)
    {
      BufferedApart(g, n, v, w, peak);
    }
    assert SetOf(k.accepted) == SetOf(n.accepted) + {v};
    DrainRestores(g, k, peak);
  }

  lemma AddKeeps(g: Vertex, n: Node, v: Vertex, peak: u64)
    requires Inv(g, n, peak) && g.hash in n.delivered
    requires Consistent(SetOf(n.accepted) + {v})
    ensures Inv(g, AddVertex(n, v), peak)
  {
    if v.hash !in n.delivered {
      var m := n.(accepted := n.accepted + [v]);
      HashesOfSnoc(n.accepted, v);
      assert multiset(m.accepted) == multiset(n.accepted) + multiset{v};
      assert SetOf(m.accepted) == SetOf(n.accepted) + {v};
      if Ready(m, v) {
        AddReadyKeeps(g, n, m, v, peak);
      } else {
        assert multiset(n.buffer + [v]) == multiset(n.buffer) + multiset{v};
        assert Core(g, m.(buffer := n.buffer + [v]), multiset(n.buffer + [v]), peak);
        assert forall w :: w in n.buffer + [v] <==> w in n.buffer || w == v;
      }
    }
  }

  lemma TurnRound(g: Vertex, n: Node, r: u64, pending: multiset<Vertex>, peak: u64)
    requires Core(g, n, pending, peak)
    ensures Core(g, n.(currentRound := r), pending, peak)
  {
  }

  lemma AdvanceKeeps(g: Vertex, n: Node, peak: u64, peak': u64)
    requires Inv(g, n, peak) && peak <= peak' && Wrap(n.currentRound + 1) <= peak'
    requires Consistent(SetOf(n.accepted))
    ensures Inv(g, AdvanceRound(n), peak')
  {
    var r := Wrap(n.currentRound + 1);
    RaisePeak(g, n, multiset(n.buffer), peak, peak');
    TurnRound(g, n, r, multiset(n.buffer), peak');
    DrainRestores(g, n.(currentRound := r), peak');
  }

  lemma MarkKeeps(g: Vertex, n: Node, h: VertexHash, peak: u64)
    requires Inv(g, n, peak)
    ensures Inv(g, MarkDelivered(n, h), peak)
  {
    assert Core(g, MarkDelivered(n, h), multiset(n.buffer), peak);
    assert forall v :: Ready(MarkDelivered(n, h), v) == Ready(n, v);
  }

  lemma AddHistory(n: Node, v: Vertex)
    ensures var m := AddVertex(n, v);
      m.currentRound == n.currentRound && n.delivered <= m.delivered && n.log <= m.log &&
      m.accepted == if v.hash in n.delivered then n.accepted else n.accepted + [v]
  {
    var m := n.(accepted := n.accepted + [v]);
    DrainContract(Deliver(m, v));
  }

  lemma AdvanceHistory(n: Node)
    ensures var m := AdvanceRound(n);
      m.currentRound == Wrap(n.currentRound + 1) && n.delivered <= m.delivered && n.log <= m.log &&
      m.accepted == n.accepted
  {
    DrainContract(n.(currentRound := Wrap(n.currentRound + 1)));
  }

  /** What holds after k advances over vertices of `all`. */
  ghost predicate RunInv(g: Vertex, n: Node, k: nat, all: set<Vertex>) {
    && Inv(g, n, Peak(k))
    && n.currentRound == Wrap(k)
    && g.hash in n.delivered
    && SetOf(n.accepted) <= all
  }

  lemma AddStep(g: Vertex, n: Node, v: Vertex, k: nat, all: set<Vertex>)
    requires RunInv(g, n, k, all) && Consistent(all) && v in all
    ensures RunInv(g, AddVertex(n, v), k, all)
  {
    ConsistentSubset(SetOf(n.accepted) + {v}, all);
    AddKeeps(g, n, v, Peak(k));
    AddHistory(n, v);
  }

  lemma RoundAfter(k: nat)
    ensures Wrap(Wrap(k) + 1) == Wrap(k + 1) <= Peak(k + 1) && Peak(k) <= Peak(k + 1)
  {
  }

  lemma AdvanceInv(g: Vertex, n: Node, k: nat)
    requires Inv(g, n, Peak(k)) && n.currentRound == Wrap(k) && Consistent(SetOf(n.accepted))
    ensures Inv(g, AdvanceRound(n), Peak(k + 1))
  {
    RoundAfter(k);
    AdvanceKeeps(g, n, Peak(k), Peak(k + 1));
  }

  lemma AdvanceStep(g: Vertex, n: Node, k: nat, all: set<Vertex>)
    requires RunInv(g, n, k, all) && Consistent(all)
    ensures RunInv(g, AdvanceRound(n), k + 1, all)
  {
    ConsistentSubset(SetOf(n.accepted), all);
    AdvanceInv(g, n, k);
    RoundAfter(k);
    AdvanceHistory(n);
  }

  lemma MarkStep(g: Vertex, n: Node, h: VertexHash, k: nat, all: set<Vertex>)
    requires RunInv(g, n, k, all)
    ensures RunInv(g, MarkDelivered(n, h), k, all)
  {
    MarkKeeps(g, n, h, Peak(k));
  }

  lemma StepKeeps(g: Vertex, n: Node, op: Op, k: nat, all: set<Vertex>)
    requires RunInv(g, n, k, all) && Consistent(all) && (op.Add? ==> op.v in all)
    ensures RunInv(g, Step(n, op), if op.Advance? then k + 1 else k, all)
  {
    match op
    case Add(v) => AddStep(g, n, v, k, all);
    case Advance => AdvanceStep(g, n, k, all);
    case Mark(h) => MarkStep(g, n, h, k, all);
  }

  /** In every run, with vertices marked or not: the invariant holds, the round counts the
      advances, and genesis is delivered. */
  lemma {:induction false} RunKeeps(g: Vertex, ops: seq<Op>)
    requires Consistent(Received(ops))
    ensures Inv(g, Run(g, ops), Peak(Advances(ops)))
    ensures Run(g, ops).currentRound == Wrap(Advances(ops))
    ensures g.hash in Run(g, ops).delivered
    ensures SetOf(Run(g, ops).accepted) <= Received(ops)
    decreases |ops|
  {
    if ops == [] {
      InitKeeps(g);
    } else {
      var before, op := ops[..|ops| - 1], ops[|ops| - 1];
      assert Received(before) <= Received(ops);
      assert op.Add? ==> op in ops && op.v in Received(ops);
      RunKeeps(g, before);
      StepKeeps(g, Run(g, before), op, Advances(before), Received(ops));
    }
  }

  /** What a run takes up was received. */
  lemma RunAccepted(g: Vertex, ops: seq<Op>)
    requires Consistent(Received(ops))
    ensures SetOf(Run(g, ops).accepted) <= Received(ops)
    ensures Run(g, ops).currentRound == Wrap(Advances(ops))
  {
    RunKeeps(g, ops);
  }
}
