// What the invariant of a run means: the DAG is the least solution of the delivery rule, so
// nodes agree exactly when the same vertices reached them unhidden.
module Agreement {
  import opened Model
  import opened DagSpec
  import opened Delivery
  import opened Runs

  // ----- the delivery rule, and its least solution -----

  /** S contains genesis and every vertex of `vs` whose round is at most `r` and whose
      parents are in S. */
  ghost predicate Closed(g: Vertex, vs: set<Vertex>, r: u64, S: set<VertexHash>) {
    g.hash in S && forall v | v in vs && v.round <= r && v.parents.Keys <= S :: v.hash in S
  }

  ghost predicate IsLeastClosed(g: Vertex, vs: set<Vertex>, r: u64, S: set<VertexHash>) {
    Closed(g, vs, r, S) && forall T | Closed(g, vs, r, T) :: S <= T
  }

  /** The counter has not wrapped, or has come round to its highest value again. */
  predicate AtPeak(k: nat) {
    k < U64_LIMIT || k % U64_LIMIT == U64_MAX
  }

  lemma AtPeakMeaning(k: nat)
    ensures AtPeak(k) <==> Wrap(k) == Peak(k)
  {
  }

  ghost predicate Unmarked(ops: seq<Op>) {
    forall op | op in ops :: !op.Mark?
  }

  // ----- fixpoint refinement -----

  /** Nothing that is deliverable stays out of the DAG. */
  lemma InvClosed(g: Vertex, n: Node, peak: u64)
    requires Inv(g, n, peak)
    ensures Closed(g, SetOf(n.accepted), n.currentRound, Hashes(n.dag))
  {
    PendingParts(n, g, peak);
    forall v | v in SetOf(n.accepted) && v.round <= n.currentRound && v.parents.Keys <= Hashes(n.dag)
      ensures v.hash in Hashes(n.dag)
    {
      assert v in n.log || v in n.buffer;
      assert Ready(n, v);
    }
  }

  /** Nothing enters the DAG that the delivery rule does not force. */
  lemma {:induction false} LogWithin(g: Vertex, log: seq<Vertex>, vs: set<Vertex>, peak: u64, T: set<VertexHash>, i: nat)
    requires Topological(g, log) && SetOf(log) <= vs && (forall v | v in log :: v.round <= peak)
    requires Closed(g, vs, peak, T) && i < |log|
    ensures log[i].hash in T
    decreases i
  {
    forall p | p in log[i].parents.Keys
      ensures p in T
    {
      if p != g.hash {
        var j :| 0 <= j < i && log[j].hash == p;
        LogWithin(g, log, vs, peak, T, j);
      }
    }
    assert log[i] in SetOf(log);
  }

  lemma LogLeast(g: Vertex, log: seq<Vertex>, vs: set<Vertex>, peak: u64, T: set<VertexHash>)
    requires Topological(g, log) && SetOf(log) <= vs && (forall v | v in log :: v.round <= peak)
    requires Closed(g, vs, peak, T)
    ensures HashesOf(log) <= T
  {
    forall h | h in HashesOf(log)
      ensures h in T
    {
      var v :| v in log && v.hash == h;
      var i :| 0 <= i < |log| && log[i] == v;
      LogWithin(g, log, vs, peak, T, i);
    }
  }

  lemma InvLeast(g: Vertex, n: Node, peak: u64, T: set<VertexHash>)
    requires Inv(g, n, peak) && Closed(g, SetOf(n.accepted), peak, T)
    ensures Hashes(n.dag) <= T
  {
    PendingParts(n, g, peak);
    LogLeast(g, n.log, SetOf(n.accepted), peak, T);
  }

  lemma RunClosed(g: Vertex, ops: seq<Op>)
    requires Consistent(Received(ops))
    ensures Closed(g, SetOf(Run(g, ops).accepted), Run(g, ops).currentRound, Hashes(Run(g, ops).dag))
  {
    RunKeeps(g, ops);
    InvClosed(g, Run(g, ops), Peak(Advances(ops)));
  }

  lemma RunLeast(g: Vertex, ops: seq<Op>, T: set<VertexHash>)
    requires Consistent(Received(ops))
    requires Closed(g, SetOf(Run(g, ops).accepted), Peak(Advances(ops)), T)
    ensures Hashes(Run(g, ops).dag) <= T
  {
    RunKeeps(g, ops);
    InvLeast(g, Run(g, ops), Peak(Advances(ops)), T);
  }

  /** Any run, with vertices marked or not: the DAG is exactly the least set that contains
      genesis and is closed under delivery of the vertices that were not ignored. */
  lemma FixpointRefinement(g: Vertex, ops: seq<Op>)
    requires Consistent(Received(ops)) && AtPeak(Advances(ops))
    ensures var n := Run(g, ops);
      IsLeastClosed(g, SetOf(n.accepted), n.currentRound, Hashes(n.dag))
  {
    var n := Run(g, ops);
    RunAccepted(g, ops);
    RunClosed(g, ops);
    AtPeakMeaning(Advances(ops));
    forall T | Closed(g, SetOf(n.accepted), n.currentRound, T)
      ensures Hashes(n.dag) <= T
    {
      RunLeast(g, ops, T);
    }
  }

  ghost function Marked(ops: seq<Op>): set<VertexHash> {
    set op | op in ops && op.Mark? :: op.h
  }

  /** The hash sets of a run, read off the invariant. */
  lemma RunHashes(g: Vertex, ops: seq<Op>)
    requires Consistent(Received(ops))
    ensures var n := Run(g, ops);
      Hashes(n.dag) == {g.hash} + HashesOf(n.log) && g.hash !in HashesOf(n.accepted) &&
      HashesOf(n.accepted) == HashesOf(n.log) + HashesOf(n.buffer) &&
      Hashes(n.dag) !! HashesOf(n.buffer)
  {
    RunKeeps(g, ops);
    PendingParts(Run(g, ops), g, Peak(Advances(ops)));
  }

  lemma AdvanceDelivered(g: Vertex, n: Node, marked: set<VertexHash>)
    requires n.delivered == {g.hash} + HashesOf(n.log) + marked
    ensures AdvanceRound(n).delivered == {g.hash} + HashesOf(AdvanceRound(n).log) + marked
  {
    HashesOfAppend(n.log, Since(n, AdvanceRound(n)));
    DrainContract(n.(currentRound := Wrap(n.currentRound + 1)));
  }

  lemma AddDelivered(g: Vertex, n: Node, v: Vertex, marked: set<VertexHash>)
    requires n.delivered == {g.hash} + HashesOf(n.log) + marked
    ensures AddVertex(n, v).delivered == {g.hash} + HashesOf(AddVertex(n, v).log) + marked
  {
    var n', m := AddVertex(n, v), n.(accepted := n.accepted + [v]);
    if v.hash !in n.delivered && Ready(m, v) {
      var k := Deliver(m, v);
      HashesOfAppend(n.log, Since(n, n'));
      DrainContract(k);
      DeliverInserts(m, v);
      InsertsTrans(m, k, n', [v], Since(k, n'));
    }
  }

  lemma StepDelivered(g: Vertex, n: Node, op: Op, marked: set<VertexHash>)
    requires n.delivered == {g.hash} + HashesOf(n.log) + marked
    ensures var n' := Step(n, op);
      n'.delivered == {g.hash} + HashesOf(n'.log) + marked + if op.Mark? then {op.h} else {}
  {
    match op
    case Add(v) => AddDelivered(g, n, v, marked);
    case Advance => AdvanceDelivered(g, n, marked);
    case Mark(_) =>
  }

  lemma {:induction false} DeliveredLog(g: Vertex, ops: seq<Op>)
    ensures Run(g, ops).delivered == {g.hash} + HashesOf(Run(g, ops).log) + Marked(ops)
    decreases |ops|
  {
    if ops == [] {
    } else {
      var before, op := ops[..|ops| - 1], ops[|ops| - 1];
      assert ops == before + [op];
      assert Marked(ops) == Marked(before) + if op.Mark? then {op.h} else {};
      DeliveredLog(g, before);
      StepDelivered(g, Run(g, before), op, Marked(before));
    }
  }

  /** What counts as delivered is exactly what is stored and what was marked. */
  lemma DeliveredExact(g: Vertex, ops: seq<Op>)
    requires Consistent(Received(ops))
    ensures Run(g, ops).delivered == Hashes(Run(g, ops).dag) + Marked(ops)
  {
    DeliveredLog(g, ops);
    RunHashes(g, ops);
  }

  /** A vertex with hash h arrived before h was ever marked as delivered. */
  ghost predicate Unhidden(ops: seq<Op>, h: VertexHash) {
    exists i :: 0 <= i < |ops| && ops[i].Add? && ops[i].v.hash == h && Mark(h) !in ops[..i]
  }

  lemma UnhiddenSnoc(ops: seq<Op>, op: Op, h: VertexHash)
    ensures Unhidden(ops + [op], h) <==>
      Unhidden(ops, h) || (op.Add? && op.v.hash == h && Mark(h) !in ops)
  {
    var more := ops + [op];
    assert more[..|ops|] == ops;
    if Unhidden(ops, h) {
      var i :| 0 <= i < |ops| && ops[i].Add? && ops[i].v.hash == h && Mark(h) !in ops[..i];
      assert more[i] == ops[i] && more[..i] == ops[..i];
    }
    if op.Add? && op.v.hash == h && Mark(h) !in ops {
      assert more[|ops|] == op;
    }
    if Unhidden(more, h) {
      var i :| 0 <= i < |more| && more[i].Add? && more[i].v.hash == h && Mark(h) !in more[..i];
      if i < |ops| {
        assert ops[i] == more[i] && more[..i] == ops[..i];
      }
    }
  }

  /** A node takes up a hash exactly when a vertex with it arrives before it is marked. */
  lemma {:induction false} AcceptedExact(g: Vertex, ops: seq<Op>, h: VertexHash)
    requires Consistent(Received(ops)) && h != g.hash
    ensures h in HashesOf(Run(g, ops).accepted) <==> Unhidden(ops, h)
    decreases |ops|
  {
    if ops == [] {
    } else {
      var before, op := ops[..|ops| - 1], ops[|ops| - 1];
      var n := Run(g, before);
      assert ops == before + [op];
      assert Received(before) <= Received(ops);
      AcceptedExact(g, before, h);
      UnhiddenSnoc(before, op, h);
      match op
      case Add(v) =>
        AddHistory(n, v);
        HashesOfSnoc(n.accepted, v);
        DeliveredExact(g, before);
        RunHashes(g, before);
        assert Mark(h) in before ==> h in Marked(before);
      case Advance =>
        AdvanceHistory(n);
      case Mark(_) =>
    }
  }

  lemma ReceivedUnhidden(ops: seq<Op>, h: VertexHash)
    requires Unmarked(ops) && h in HashSet(Received(ops))
    ensures Unhidden(ops, h)
  {
    var v :| v in Received(ops) && v.hash == h;
    var op :| op in ops && op.Add? && op.v == v;
    var i :| 0 <= i < |ops| && ops[i] == op;
    assert forall o :: o in ops[..i] ==> o in ops;
  }

  /** Without marks, every received hash other than genesis is taken up. */
  lemma UnmarkedRun(g: Vertex, ops: seq<Op>)
    requires Consistent(Received(ops)) && Unmarked(ops)
    ensures var n := Run(g, ops);
      n.delivered == Hashes(n.dag) &&
      HashSet(Received(ops)) + {g.hash} == HashesOf(n.accepted) + {g.hash}
  {
    var accepted := Run(g, ops).accepted;
    DeliveredExact(g, ops);
    RunAccepted(g, ops);
    assert Marked(ops) == {};
    forall h | h in HashSet(Received(ops)) && h != g.hash
      ensures h in HashesOf(accepted)
    {
      ReceivedUnhidden(ops, h);
      AcceptedExact(g, ops, h);
    }
  }

  /** Consistent sets of vertices with the same hashes have the same closed sets. */
  lemma SameClosed(g: Vertex, vs: set<Vertex>, ws: set<Vertex>, r: u64, S: set<VertexHash>)
    requires Consistent(vs + ws) && HashSet(vs) <= HashSet(ws) + {g.hash}
    requires Closed(g, ws, r, S)
    ensures Closed(g, vs, r, S)
  {
    forall v | v in vs && v.round <= r && v.parents.Keys <= S
      ensures v.hash in S
    {
      if v.hash != g.hash {
        assert v.hash in HashSet(vs);
        var w :| w in ws && w.hash == v.hash;
        assert v in vs + ws && w in vs + ws;
      }
    }
  }

  lemma SameLeastClosed(g: Vertex, vs: set<Vertex>, ws: set<Vertex>, r: u64, S: set<VertexHash>)
    requires Consistent(vs + ws) && HashSet(vs) + {g.hash} == HashSet(ws) + {g.hash}
    requires IsLeastClosed(g, ws, r, S)
    ensures IsLeastClosed(g, vs, r, S)
  {
    SameClosed(g, vs, ws, r, S);
    assert vs + ws == ws + vs;
    forall T | Closed(g, vs, r, T)
      ensures S <= T
    {
      SameClosed(g, ws, vs, r, T);
    }
  }

  /** The main theorem: after any run without marks the in-place, many-pass drain has
      computed the least solution of the delivery rule over everything received. */
  lemma ReceivedFixpoint(g: Vertex, ops: seq<Op>)
    requires Consistent(Received(ops)) && Unmarked(ops) && AtPeak(Advances(ops))
    ensures IsLeastClosed(g, Received(ops), Run(g, ops).currentRound, Hashes(Run(g, ops).dag))
  {
    var n := Run(g, ops);
    FixpointRefinement(g, ops);
    UnmarkedRun(g, ops);
    RunAccepted(g, ops);
    assert Received(ops) + SetOf(n.accepted) == Received(ops);
    SameLeastClosed(g, Received(ops), SetOf(n.accepted), n.currentRound, Hashes(n.dag));
  }

  // ----- agreement -----

  /** Two nodes show the same DAG and the same backlog. */
  ghost predicate SameStores(n: Node, m: Node) {
    && n.currentRound == m.currentRound
    && Hashes(n.dag) == Hashes(m.dag)
    && (forall r: u64 :: At(n.dag, r).Keys == At(m.dag, r).Keys)
    && n.dag.strongEdges == m.dag.strongEdges
    && HashesOf(n.buffer) == HashesOf(m.buffer)
  }

  /** They also count the same vertices as delivered. */
  ghost predicate Agree(n: Node, m: Node) {
    SameStores(n, m) && n.delivered == m.delivered
  }

  /** The same hashes reached both nodes before being marked there. */
  ghost predicate SameUnhidden(g: Vertex, ops: seq<Op>, ops': seq<Op>) {
    forall h | h != g.hash :: Unhidden(ops, h) <==> Unhidden(ops', h)
  }

  lemma {:induction false} StrongKeys(g: Vertex, vs: seq<Vertex>)
    ensures InsertAll(New(g), vs).strongEdges.Keys == HashesOf(vs)
    decreases |vs|
  {
    if vs == [] {
    } else {
      StrongKeys(g, vs[..|vs| - 1]);
      HashesOfSnoc(vs[..|vs| - 1], vs[|vs| - 1]);
      assert vs[..|vs| - 1] + [vs[|vs| - 1]] == vs;
    }
  }

  lemma RunLog(g: Vertex, ops: seq<Op>)
    requires Consistent({g} + Received(ops))
    ensures Run(g, ops).dag == InsertAll(New(g), Run(g, ops).log)
    ensures SetOf(Run(g, ops).log) <= Received(ops)
  {
    ConsistentSubset(Received(ops), {g} + Received(ops));
    RunKeeps(g, ops);
    PendingParts(Run(g, ops), g, Peak(Advances(ops)));
  }

  lemma RunMatches(g: Vertex, ops: seq<Op>)
    requires ValidGenesis(g) && Consistent({g} + Received(ops))
    ensures var n := Run(g, ops);
      Stores(n.dag, {g} + SetOf(n.log)) && StrongMatches(n.dag, {g} + SetOf(n.log)) &&
      n.dag.strongEdges.Keys == HashesOf(n.log) && SetOf(n.log) <= Received(ops)
  {
    var n := Run(g, ops);
    RunLog(g, ops);
    ConsistentSubset({g} + SetOf(n.log), {g} + Received(ops));
    InsertAllMatches(g, n.log);
    StrongKeys(g, n.log);
  }

  lemma SameRounds(d: Dag, vs: set<Vertex>, e: Dag, ws: set<Vertex>, r: u64)
    requires Stores(d, vs) && Stores(e, ws) && Consistent(vs + ws) && HashSet(vs) <= HashSet(ws)
    ensures At(d, r).Keys <= At(e, r).Keys
  {
    forall h | h in At(d, r)
      ensures h in At(e, r)
    {
      var v := At(d, r)[h];
      assert v in vs + ws && h in HashSet(vs);
      var w :| w in ws && w.hash == h;
      assert w in vs + ws;
    }
  }

  lemma SameStrong(d: Dag, vs: set<Vertex>, e: Dag, ws: set<Vertex>)
    requires StrongMatches(d, vs) && StrongMatches(e, ws) && Consistent(vs + ws)
    requires HashSet(vs) <= HashSet(ws) && d.strongEdges.Keys == e.strongEdges.Keys
    ensures d.strongEdges == e.strongEdges
  {
    forall h | h in d.strongEdges
      ensures d.strongEdges[h] == e.strongEdges[h]
    {
      assert h in HashSet(vs);
      var v :| v in vs && v.hash == h;
      var w :| w in ws && w.hash == h;
      assert v in vs + ws && w in vs + ws;
      assert Edges(d.strongEdges, h) == v.parents.Keys;
      assert Edges(e.strongEdges, h) == w.parents.Keys;
    }
  }

  /** Stores with equal hashes have equal rounds and equal strong edges. */
  lemma SameDags(d: Dag, vs: set<Vertex>, e: Dag, ws: set<Vertex>)
    requires Stores(d, vs) && Stores(e, ws) && StrongMatches(d, vs) && StrongMatches(e, ws)
    requires Consistent(vs + ws) && Hashes(d) == Hashes(e)
    requires d.strongEdges.Keys == e.strongEdges.Keys
    ensures forall r: u64 :: At(d, r).Keys == At(e, r).Keys
    ensures d.strongEdges == e.strongEdges
  {
    StoresHashes(d, vs);
    StoresHashes(e, ws);
    assert ws + vs == vs + ws;
    forall r: u64
      ensures At(d, r).Keys == At(e, r).Keys
    {
      SameRounds(d, vs, e, ws, r);
      SameRounds(e, ws, d, vs, r);
    }
    SameStrong(d, vs, e, ws);
  }

  /** The hash sets of a run without marks, in terms of what was received. */
  lemma UnmarkedSummary(g: Vertex, ops: seq<Op>)
    requires Consistent({g} + Received(ops)) && Unmarked(ops)
    ensures var n := Run(g, ops);
      n.currentRound == Wrap(Advances(ops)) && n.delivered == Hashes(n.dag) &&
      HashesOf(n.log) == Hashes(n.dag) - {g.hash} &&
      HashesOf(n.buffer) == HashSet(Received(ops)) - Hashes(n.dag)
    ensures AtPeak(Advances(ops)) ==>
      IsLeastClosed(g, Received(ops), Run(g, ops).currentRound, Hashes(Run(g, ops).dag))
  {
    var n := Run(g, ops);
    ConsistentSubset(Received(ops), {g} + Received(ops));
    UnmarkedRun(g, ops);
    RunHashes(g, ops);
    RunAccepted(g, ops);
    assert HashesOf(n.buffer) == HashesOf(n.accepted) - Hashes(n.dag);
    if AtPeak(Advances(ops)) {
      ReceivedFixpoint(g, ops);
    }
  }

  /** The hash is the node's genesis, or reached the node before being marked there. */
  ghost predicate Has(g: Vertex, ops: seq<Op>, h: VertexHash) {
    h == g.hash || Unhidden(ops, h)
  }

  lemma HasAccepted(g: Vertex, ops: seq<Op>, h: VertexHash)
    requires Consistent(Received(ops))
    ensures Has(g, ops, h) <==> h in {g.hash} + HashesOf(Run(g, ops).accepted)
  {
    if h != g.hash {
      AcceptedExact(g, ops, h);
    }
  }

  /** What is closed for one node is closed for another that has fewer vertices, even from a
      genesis of its own. */
  lemma ClosedElsewhere(g: Vertex, vs: set<Vertex>, r: u64, g': Vertex, ws: set<Vertex>, r': u64, T: set<VertexHash>)
    requires ValidGenesis(g) && Consistent({g, g'} + vs + ws) && r <= r'
    requires {g.hash} + HashSet(vs) <= {g'.hash} + HashSet(ws)
    requires Closed(g', ws, r', T)
    ensures Closed(g, vs, r, T)
  {
    forall v | v in {g} + vs && v.round <= r && v.parents.Keys <= T
      ensures v.hash in T
    {
      assert v.hash in {g.hash} + HashSet(vs);
      if v.hash != g'.hash {
        var w :| w in ws && w.hash == v.hash;
        assert v in {g, g'} + vs + ws && w in {g, g'} + vs + ws;
      }
    }
    assert g in {g} + vs && g.parents.Keys == {};
  }

  lemma AcceptedContained(g: Vertex, ops: seq<Op>, g': Vertex, ops': seq<Op>)
    requires Consistent(Received(ops)) && Consistent(Received(ops'))
    requires forall h | Has(g, ops, h) :: Has(g', ops', h)
    ensures {g.hash} + HashesOf(Run(g, ops).accepted) <= {g'.hash} + HashesOf(Run(g', ops').accepted)
  {
    forall h | h in {g.hash} + HashesOf(Run(g, ops).accepted)
      ensures h in {g'.hash} + HashesOf(Run(g', ops').accepted)
    {
      HasAccepted(g, ops, h);
      HasAccepted(g', ops', h);
    }
  }

  /** A node that lags, in rounds or in what reached it, has stored nothing that a node
      ahead of it has not, even from a genesis of its own that reached the other. */
  lemma StoreContained(g: Vertex, ops: seq<Op>, g': Vertex, ops': seq<Op>)
    requires ValidGenesis(g) && Consistent({g, g'} + Received(ops) + Received(ops'))
    requires Advances(ops) <= Advances(ops') && AtPeak(Advances(ops'))
    requires forall h | Has(g, ops, h) :: Has(g', ops', h)
    ensures Hashes(Run(g, ops).dag) <= Hashes(Run(g', ops').dag)
  {
    var n, m := Run(g, ops), Run(g', ops');
    var all := {g, g'} + Received(ops) + Received(ops');
    ConsistentSubset(Received(ops), all);
    ConsistentSubset(Received(ops'), all);
    AcceptedContained(g, ops, g', ops');
    RunAccepted(g, ops);
    RunAccepted(g', ops');
    ConsistentSubset({g, g'} + SetOf(n.accepted) + SetOf(m.accepted), all);
    AtPeakMeaning(Advances(ops'));
    RunClosed(g', ops');
    ClosedElsewhere(g, SetOf(n.accepted), Peak(Advances(ops)), g', SetOf(m.accepted), m.currentRound, Hashes(m.dag));
    RunLeast(g, ops, Hashes(m.dag));
  }

  /** Runs take up the same hashes exactly when the same hashes reached them unhidden. */
  lemma SameAcceptedExact(g: Vertex, ops: seq<Op>, ops': seq<Op>)
    requires Consistent(Received(ops)) && Consistent(Received(ops'))
    ensures HashesOf(Run(g, ops).accepted) == HashesOf(Run(g, ops').accepted) <==> SameUnhidden(g, ops, ops')
  {
    RunHashes(g, ops);
    RunHashes(g, ops');
    forall h | h != g.hash
      ensures h in HashesOf(Run(g, ops).accepted) <==> Unhidden(ops, h)
      ensures h in HashesOf(Run(g, ops').accepted) <==> Unhidden(ops', h)
    {
      AcceptedExact(g, ops, h);
      AcceptedExact(g, ops', h);
    }
  }

  /** Log and backlog of a run in terms of what it stores and takes up. */
  lemma RunSummary(g: Vertex, ops: seq<Op>)
    requires Consistent({g} + Received(ops))
    ensures var n := Run(g, ops);
      n.currentRound == Wrap(Advances(ops)) &&
      HashesOf(n.log) == Hashes(n.dag) - {g.hash} &&
      HashesOf(n.buffer) == HashesOf(n.accepted) - Hashes(n.dag) &&
      HashesOf(n.accepted) == HashesOf(n.log) + HashesOf(n.buffer)
  {
    ConsistentSubset(Received(ops), {g} + Received(ops));
    RunHashes(g, ops);
    RunAccepted(g, ops);
  }

  /** What a run stored, in terms of the vertices it stored. */
  lemma RunEntries(g: Vertex, ops: seq<Op>, all: set<Vertex>) returns (vs: set<Vertex>)
    requires ValidGenesis(g) && Consistent(all) && {g} + Received(ops) <= all
    ensures vs <= all && Stores(Run(g, ops).dag, vs) && StrongMatches(Run(g, ops).dag, vs)
    ensures Run(g, ops).dag.strongEdges.Keys == HashesOf(Run(g, ops).log)
  {
    ConsistentSubset({g} + Received(ops), all);
    RunMatches(g, ops);
    vs := {g} + SetOf(Run(g, ops).log);
  }

  /** Equal hashes stored, and equal hashes taken up, make equal rounds, edges and backlogs. */
  lemma SameHashesSameStores(g: Vertex, ops: seq<Op>, ops': seq<Op>)
    requires ValidGenesis(g) && Consistent({g} + Received(ops) + Received(ops'))
    requires Advances(ops) == Advances(ops')
    requires HashesOf(Run(g, ops).accepted) == HashesOf(Run(g, ops').accepted)
    requires Hashes(Run(g, ops).dag) == Hashes(Run(g, ops').dag)
    ensures SameStores(Run(g, ops), Run(g, ops'))
  {
    var all := {g} + Received(ops) + Received(ops');
    ConsistentSubset({g} + Received(ops), all);
    ConsistentSubset({g} + Received(ops'), all);
    RunSummary(g, ops);
    RunSummary(g, ops');
    var vs := RunEntries(g, ops, all);
    var ws := RunEntries(g, ops', all);
    ConsistentSubset(vs + ws, all);
    SameDags(Run(g, ops).dag, vs, Run(g, ops').dag, ws);
  }

  /** Nodes with the same genesis that advance equally often agree on rounds, edges and
      backlog exactly when the same vertices reached both before being marked there, in any
      order and with any repetitions. */
  lemma NodesAgree(g: Vertex, ops: seq<Op>, ops': seq<Op>)
    requires ValidGenesis(g) && Consistent({g} + Received(ops) + Received(ops'))
    requires Advances(ops) == Advances(ops') && AtPeak(Advances(ops))
    ensures SameStores(Run(g, ops), Run(g, ops')) <==> SameUnhidden(g, ops, ops')
  {
    var all := {g} + Received(ops) + Received(ops');
    ConsistentSubset({g} + Received(ops), all);
    ConsistentSubset({g} + Received(ops'), all);
    ConsistentSubset(Received(ops), all);
    ConsistentSubset(Received(ops'), all);
    SameAcceptedExact(g, ops, ops');
    if SameStores(Run(g, ops), Run(g, ops')) {
      RunSummary(g, ops);
      RunSummary(g, ops');
    }
    if SameUnhidden(g, ops, ops') {
      assert {g, g} + Received(ops) + Received(ops') == all;
      assert {g, g} + Received(ops') + Received(ops) == all;
      StoreContained(g, ops, g, ops');
      StoreContained(g, ops', g, ops);
      SameHashesSameStores(g, ops, ops');
    }
  }

  /** With equal marks they also agree on what was delivered. */
  lemma MarkersAgree(g: Vertex, ops: seq<Op>, ops': seq<Op>)
    requires ValidGenesis(g) && Consistent({g} + Received(ops) + Received(ops'))
    requires Advances(ops) == Advances(ops') && AtPeak(Advances(ops))
    requires SameUnhidden(g, ops, ops') && Marked(ops) == Marked(ops')
    ensures Agree(Run(g, ops), Run(g, ops'))
  {
    var all := {g} + Received(ops) + Received(ops');
    ConsistentSubset(Received(ops), all);
    ConsistentSubset(Received(ops'), all);
    NodesAgree(g, ops, ops');
    DeliveredExact(g, ops);
    DeliveredExact(g, ops');
  }

  lemma UnmarkedUnhidden(ops: seq<Op>, h: VertexHash)
    requires Unmarked(ops)
    ensures Unhidden(ops, h) <==> h in HashSet(Received(ops))
  {
    if h in HashSet(Received(ops)) {
      ReceivedUnhidden(ops, h);
    }
    if Unhidden(ops, h) {
      var i :| 0 <= i < |ops| && ops[i].Add? && ops[i].v.hash == h && Mark(h) !in ops[..i];
      assert ops[i] in ops && ops[i].v in Received(ops);
    }
  }

  /** Without marks it is enough to receive the same vertices. */
  lemma ReceiversAgree(g: Vertex, ops: seq<Op>, ops': seq<Op>)
    requires ValidGenesis(g) && Consistent({g} + Received(ops) + Received(ops'))
    requires Unmarked(ops) && Unmarked(ops')
    requires HashSet(Received(ops)) == HashSet(Received(ops'))
    requires Advances(ops) == Advances(ops') && AtPeak(Advances(ops))
    ensures Agree(Run(g, ops), Run(g, ops'))
  {
    forall h | h != g.hash
      ensures Unhidden(ops, h) <==> Unhidden(ops', h)
    {
      UnmarkedUnhidden(ops, h);
      UnmarkedUnhidden(ops', h);
    }
    assert Marked(ops) == {} && Marked(ops') == {};
    MarkersAgree(g, ops, ops');
  }

  lemma AdvancesSnoc(ops: seq<Op>, op: Op)
    ensures Advances(ops + [op]) == Advances(ops) + if op.Advance? then 1 else 0
  {
    assert (ops + [op])[..|ops|] == ops;
  }

  /** A mark that comes before its vertex hides it: two nodes that receive this one vertex
      disagree when one of them marked it first, and only then. */
  lemma MarkHides(g: Vertex, v: Vertex)
    requires ValidGenesis(g) && Consistent({g, v}) && v.hash != g.hash
    ensures !SameStores(Run(g, [Add(v)]), Run(g, [Mark(v.hash), Add(v)]))
    ensures SameStores(Run(g, [Add(v)]), Run(g, [Add(v), Mark(v.hash)]))
  {
    var plain, before, after := [Add(v)], [Mark(v.hash), Add(v)], [Add(v), Mark(v.hash)];
    assert Received(plain) == {v} && Received(before) == {v} && Received(after) == {v} by {
      assert plain[0] in plain && before[1] in before && after[0] in after;
    }
    assert {g} + {v} + {v} == {g, v};
    assert [] + [Add(v)] == plain && [Mark(v.hash)] + [Add(v)] == before && plain + [Mark(v.hash)] == after;
    assert [] + [Mark(v.hash)] == [Mark(v.hash)];
    AdvancesSnoc([], Add(v));
    AdvancesSnoc([], Mark(v.hash));
    AdvancesSnoc([Mark(v.hash)], Add(v));
    AdvancesSnoc(plain, Mark(v.hash));
    UnhiddenSnoc([], Add(v), v.hash);
    UnhiddenSnoc([Mark(v.hash)], Add(v), v.hash);
    forall h
      ensures Unhidden(plain, h) <==> Unhidden(after, h)
    {
      UnhiddenSnoc(plain, Mark(v.hash), h);
    }
    NodesAgree(g, plain, before);
    NodesAgree(g, plain, after);
  }
}
