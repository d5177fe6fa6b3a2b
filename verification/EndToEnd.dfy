// Results that join the encoding of vertices to their delivery, and the two nodes' views.
module EndToEnd {
  import opened Model
  import opened DagSpec
  import opened Delivery
  import opened Runs
  import opened Agreement
  import opened Consequences
  import opened Identity

  /** Whatever arrives on the wire carries its content hash once it is decoded, so with a
      hash that does not collide on the vertices involved the exact condition for agreement
      holds; nothing is assumed of the rounds and parents that vertices name. */
  lemma DecodedNodesAgree(H: Hasher, g: Vertex, ops: seq<Op>, ops': seq<Op>)
    requires ValidGenesis(g)
    requires forall v | v in {g} + Received(ops) + Received(ops') :: v.hash == ContentHash(H, v)
    requires CollisionFree(H, set v | v in {g} + Received(ops) + Received(ops') :: Preimage(H, v))
    requires Advances(ops) == Advances(ops') && AtPeak(Advances(ops))
    ensures SameStores(Run(g, ops), Run(g, ops')) <==> SameUnhidden(g, ops, ops')
  {
    ContentHashesIdentify(H, {g} + Received(ops) + Received(ops'));
    NodesAgree(g, ops, ops');
  }

  // ----- nodes with different genesis vertices -----

  /** Two nodes show the same vertices, in the same rounds and with the same parents, and
      the same backlog. (The genesis of a node has no entry among its strong edges, so the
      maps themselves differ.) */
  ghost predicate SameView(n: Node, m: Node) {
    && Hashes(n.dag) == Hashes(m.dag)
    && (forall r: u64 :: At(n.dag, r).Keys == At(m.dag, r).Keys)
    && (forall h :: Edges(n.dag.strongEdges, h) == Edges(m.dag.strongEdges, h))
    && HashesOf(n.buffer) == HashesOf(m.buffer)
  }

  /** Each node has the hashes that the other has, its own genesis counted as had. */
  ghost predicate SameHad(g: Vertex, ops: seq<Op>, g': Vertex, ops': seq<Op>) {
    forall h :: Has(g, ops, h) <==> Has(g', ops', h)
  }

  /** What a node has is what it stores and what it buffers. */
  lemma HasExact(g: Vertex, ops: seq<Op>, h: VertexHash)
    requires Consistent({g} + Received(ops))
    ensures Has(g, ops, h) <==> h in Hashes(Run(g, ops).dag) + HashesOf(Run(g, ops).buffer)
  {
    ConsistentSubset(Received(ops), {g} + Received(ops));
    RunHashes(g, ops);
    if h != g.hash {
      AcceptedExact(g, ops, h);
    }
  }

  lemma SameEdges(d: Dag, vs: set<Vertex>, e: Dag, ws: set<Vertex>, h: VertexHash)
    requires StrongMatches(d, vs) && StrongMatches(e, ws) && Consistent(vs + ws) && HashSet(vs) == HashSet(ws)
    ensures Edges(d.strongEdges, h) == Edges(e.strongEdges, h)
  {
    if h in HashSet(vs) {
      var v :| v in vs && v.hash == h;
      var w :| w in ws && w.hash == h;
      assert v in vs + ws && w in vs + ws;
    }
  }

  /** Stores with equal hashes hold them in equal rounds, with equal parents. */
  lemma SameEntries(d: Dag, vs: set<Vertex>, e: Dag, ws: set<Vertex>)
    requires Stores(d, vs) && Stores(e, ws) && StrongMatches(d, vs) && StrongMatches(e, ws)
    requires Consistent(vs + ws) && Hashes(d) == Hashes(e)
    ensures forall r: u64 :: At(d, r).Keys == At(e, r).Keys
    ensures forall h :: Edges(d.strongEdges, h) == Edges(e.strongEdges, h)
  {
    StoresHashes(d, vs);
    StoresHashes(e, ws);
    assert vs + ws == ws + vs;
    forall r: u64
      ensures At(d, r).Keys == At(e, r).Keys
    {
      SameRounds(d, vs, e, ws, r);
      SameRounds(e, ws, d, vs, r);
    }
    forall h
      ensures Edges(d.strongEdges, h) == Edges(e.strongEdges, h)
    {
      SameEdges(d, vs, e, ws, h);
    }
  }

  lemma SameHashesSameView(g: Vertex, ops: seq<Op>, g': Vertex, ops': seq<Op>)
    requires ValidGenesis(g) && ValidGenesis(g')
    requires Consistent({g, g'} + Received(ops) + Received(ops'))
    requires Hashes(Run(g, ops).dag) == Hashes(Run(g', ops').dag)
    requires HashesOf(Run(g, ops).buffer) == HashesOf(Run(g', ops').buffer)
    ensures SameView(Run(g, ops), Run(g', ops'))
  {
    var all := {g, g'} + Received(ops) + Received(ops');
    var vs := RunEntries(g, ops, all);
    var ws := RunEntries(g', ops', all);
    ConsistentSubset(vs + ws, all);
    SameEntries(Run(g, ops).dag, vs, Run(g', ops').dag, ws);
  }

  /** What a node has and does not store waits in its buffer. */
  lemma Backlog(g: Vertex, ops: seq<Op>, h: VertexHash)
    requires Consistent({g} + Received(ops))
    ensures h in HashesOf(Run(g, ops).buffer) <==> Has(g, ops, h) && h !in Hashes(Run(g, ops).dag)
  {
    ConsistentSubset(Received(ops), {g} + Received(ops));
    HasExact(g, ops, h);
    RunHashes(g, ops);
  }

  lemma SameHadSameView(g: Vertex, ops: seq<Op>, g': Vertex, ops': seq<Op>)
    requires ValidGenesis(g) && ValidGenesis(g')
    requires Consistent({g, g'} + Received(ops) + Received(ops'))
    requires Advances(ops) == Advances(ops') && AtPeak(Advances(ops)) && SameHad(g, ops, g', ops')
    ensures SameView(Run(g, ops), Run(g', ops'))
  {
    var n, m := Run(g, ops), Run(g', ops');
    var all := {g, g'} + Received(ops) + Received(ops');
    ConsistentSubset({g} + Received(ops), all);
    ConsistentSubset({g'} + Received(ops'), all);
    assert {g', g} + Received(ops') + Received(ops) == all;
    StoreContained(g, ops, g', ops');
    StoreContained(g', ops', g, ops);
    forall h
      ensures h in HashesOf(n.buffer) <==> h in HashesOf(m.buffer)
    {
      Backlog(g, ops, h);
      Backlog(g', ops', h);
    }
    SameHashesSameView(g, ops, g', ops');
  }

  /** Nodes that start from genesis vertices of their own, as each node's key makes them, and
      advance equally often, show the same exactly when each has what the other has: the
      same vertices reached both unhidden, and the genesis of each reached the other or is
      the other's. */
  lemma GenesisExact(g: Vertex, ops: seq<Op>, g': Vertex, ops': seq<Op>)
    requires ValidGenesis(g) && ValidGenesis(g')
    requires Consistent({g, g'} + Received(ops) + Received(ops'))
    requires Advances(ops) == Advances(ops') && AtPeak(Advances(ops))
    ensures SameView(Run(g, ops), Run(g', ops')) <==> SameHad(g, ops, g', ops')
  {
    if SameHad(g, ops, g', ops') {
      SameHadSameView(g, ops, g', ops');
    }
    if SameView(Run(g, ops), Run(g', ops')) {
      ConsistentSubset({g} + Received(ops), {g, g'} + Received(ops) + Received(ops'));
      ConsistentSubset({g'} + Received(ops'), {g, g'} + Received(ops) + Received(ops'));
      forall h
        ensures Has(g, ops, h) <==> Has(g', ops', h)
      {
        HasExact(g, ops, h);
        HasExact(g', ops', h);
      }
    }
  }

  /** Two nodes that exchange their genesis vertices show the same. */
  lemma GenesisExchange(g: Vertex, g': Vertex)
    requires ValidGenesis(g) && ValidGenesis(g') && Consistent({g, g'})
    ensures SameView(Run(g, [Add(g')]), Run(g', [Add(g)]))
  {
    var ops, ops' := [Add(g')], [Add(g)];
    assert ops == [] + [Add(g')] && ops' == [] + [Add(g)];
    AdvancesSnoc([], Add(g'));
    AdvancesSnoc([], Add(g));
    assert Received(ops) == {g'} && Received(ops') == {g} by {
      assert ops[0] in ops && ops'[0] in ops';
    }
    assert {g, g'} + Received(ops) + Received(ops') == {g, g'};
    forall h
      ensures Has(g, ops, h) <==> Has(g', ops', h)
    {
      UnhiddenSnoc([], Add(g'), h);
      UnhiddenSnoc([], Add(g), h);
    }
    GenesisExact(g, ops, g', ops');
  }

  lemma OnlyGenesis(g: Vertex, k: nat)
    ensures Hashes(Run(g, Advancing(k)).dag) == {g.hash}
  {
    var ops := Advancing(k);
    assert Received(ops) == {};
    RunAccepted(g, ops);
    RunHashes(g, ops);
    assert SetOf(Run(g, ops).accepted) == {};
    assert HashesOf(Run(g, ops).accepted) == {};
  }

  /** Two nodes with different genesis hashes that receive nothing store different hashes,
      however often they advance. */
  lemma GenesisDisagreement(g: Vertex, g': Vertex, k: nat)
    requires g.hash != g'.hash
    ensures Hashes(Run(g, Advancing(k)).dag) == {g.hash}
    ensures Hashes(Run(g, Advancing(k)).dag) != Hashes(Run(g', Advancing(k)).dag)
  {
    OnlyGenesis(g, k);
    OnlyGenesis(g', k);
  }
}
