// The weak-edge index of pkg/consensus/dag.go is a cache: insertion fills it, the query
// IsLinked extends it, and no answer ever depends on what it contains.
module WeakEdges {
  import opened Model
  import opened DagSpec

  // ----- the query as it is coded -----

  ghost predicate FarBelow(d: Dag, v1: Vertex, v2: Vertex) {
    v1.round > v2.round && v1.round - v2.round > 2 && v2.hash in At(d, v2.round)
  }

  ghost predicate Indexed(d: Dag, v1: Vertex, v2: Vertex) {
    v2.hash in Edges(d.strongEdges, v1.hash) || v2.hash in Edges(d.weakEdges, v1.hash)
  }

  ghost predicate LinkAnswer(d: Dag, v1: Vertex, v2: Vertex) {
    Indexed(d, v1, v2) || FarBelow(d, v1, v2)
  }

  /** The store after the query, which records an answer it had to work out. */
  ghost function LinkWrite(d: Dag, v1: Vertex, v2: Vertex): Dag {
    if !Indexed(d, v1, v2) && FarBelow(d, v1, v2) then
      d.(weakEdges := d.weakEdges[v1.hash := Edges(d.weakEdges, v1.hash) + {v2.hash}])
    else d
  }

  /** A query adds to the index exactly the pair it answered for, and touches nothing else. */
  lemma LinkWriteExact(d: Dag, v1: Vertex, v2: Vertex, u: Vertex, w: Vertex)
    ensures var e := LinkWrite(d, v1, v2);
      && e.vertices == d.vertices && e.strongEdges == d.strongEdges
      && (Indexed(e, u, w) <==>
           Indexed(d, u, w) || (u.hash == v1.hash && w.hash == v2.hash && LinkAnswer(d, v1, v2)))
  {
  }

  // ----- runs of insertions and queries -----

  datatype DagOp = Put(v: Vertex) | Link(v1: Vertex, v2: Vertex)

  ghost function RunDag(g: Vertex, ops: seq<DagOp>): Dag {
    if ops == [] then New(g)
    else
      var d := RunDag(g, ops[..|ops| - 1]);
      match ops[|ops| - 1]
      case Put(v) => Insert(d, v)
      case Link(v1, v2) => LinkWrite(d, v1, v2)
  }

  ghost function Inserted(g: Vertex, ops: seq<DagOp>): set<Vertex> {
    {g} + set op | op in ops && op.Put? :: op.v
  }

  /** Every vertex inserted or asked about. */
  ghost function Mentioned(g: Vertex, ops: seq<DagOp>): set<Vertex> {
    Inserted(g, ops) + (set op | op in ops && op.Link? :: op.v1) + (set op | op in ops && op.Link? :: op.v2)
  }

  // ----- the reference: no cache, no order -----

  ghost predicate Linked(inserted: set<Vertex>, v1: Vertex, v2: Vertex) {
    || (exists w :: w in inserted && w.hash == v1.hash && v2.hash in w.parents.Keys)
    || (v2.hash in HashSet(inserted) && v1.round >= v2.round + 3)
  }

  // ----- the invariant -----

  ghost predicate WeakEdge(d: Dag, h: VertexHash, t: VertexHash) {
    t in Edges(d.weakEdges, h)
  }

  /** A weak edge from h to t may exist: t is stored, at least three rounds lower, and no
      strong edge leads to it. */
  ghost predicate MayLink(d: Dag, inserted: set<Vertex>, all: set<Vertex>, h: VertexHash, t: VertexHash) {
    && t in HashSet(inserted)
    && t !in Edges(d.strongEdges, h)
    && forall v, w | v in all && w in all && v.hash == h && w.hash == t :: v.round >= w.round + 3
  }

  ghost predicate WeakShape(d: Dag, inserted: set<Vertex>, all: set<Vertex>) {
    forall h, t | WeakEdge(d, h, t) :: MayLink(d, inserted, all, h, t)
  }

  ghost predicate CacheInv(d: Dag, inserted: set<Vertex>, all: set<Vertex>) {
    && Stores(d, inserted) && StrongMatches(d, inserted)
    && inserted <= all && WeakShape(d, inserted, all)
  }

  lemma FarBelowExact(d: Dag, inserted: set<Vertex>, v1: Vertex, v2: Vertex)
    requires Stores(d, inserted) && Consistent(inserted + {v2})
    ensures FarBelow(d, v1, v2) <==> v2.hash in HashSet(inserted) && v1.round >= v2.round + 3
  {
    if v2.hash in At(d, v2.round) {
      assert At(d, v2.round)[v2.hash] in inserted;
    }
    if v2.hash in HashSet(inserted) {
      var w :| w in inserted && w.hash == v2.hash;
      assert w in inserted + {v2} && v2 in inserted + {v2};
      assert w.hash in At(d, w.round);
    }
  }

  lemma StrongExact(d: Dag, inserted: set<Vertex>, v1: Vertex, h: VertexHash)
    requires StrongMatches(d, inserted)
    ensures h in Edges(d.strongEdges, v1.hash) <==>
      exists w :: w in inserted && w.hash == v1.hash && h in w.parents.Keys
  {
    if h in Edges(d.strongEdges, v1.hash) {
      var w :| w in inserted && w.hash == v1.hash;
      assert Edges(d.strongEdges, w.hash) == w.parents.Keys;
    }
    forall w | w in inserted && w.hash == v1.hash && h in w.parents.Keys
      ensures h in Edges(d.strongEdges, v1.hash)
    {
      assert Edges(d.strongEdges, w.hash) == w.parents.Keys;
    }
  }

  /** In a store that satisfies the invariant the coded query answers the reference. */
  lemma AnswerExact(d: Dag, inserted: set<Vertex>, all: set<Vertex>, v1: Vertex, v2: Vertex)
    requires CacheInv(d, inserted, all) && Consistent(all) && v1 in all && v2 in all
    ensures LinkAnswer(d, v1, v2) <==> Linked(inserted, v1, v2)
  {
    ConsistentSubset(inserted + {v2}, all);
    assert Indexed(d, v1, v2) ==> v2.hash in Edges(d.strongEdges, v1.hash) || WeakEdge(d, v1.hash, v2.hash);
    FarBelowExact(d, inserted, v1, v2);
    StrongExact(d, inserted, v1, v2.hash);
  }

  /** One weak edge after a query. */
  lemma LinkShape(d: Dag, inserted: set<Vertex>, all: set<Vertex>, v1: Vertex, v2: Vertex, h: VertexHash, t: VertexHash)
    requires CacheInv(d, inserted, all) && Consistent(all) && v1 in all && v2 in all
    requires WeakEdge(LinkWrite(d, v1, v2), h, t)
    ensures MayLink(LinkWrite(d, v1, v2), inserted, all, h, t)
  {
    ConsistentSubset(inserted + {v2}, all);
    FarBelowExact(d, inserted, v1, v2);
    if WeakEdge(d, h, t) {
      assert MayLink(d, inserted, all, h, t);
    } else {
      assert h == v1.hash && t == v2.hash;
    }
  }

  lemma LinkKeeps(d: Dag, inserted: set<Vertex>, all: set<Vertex>, v1: Vertex, v2: Vertex)
    requires CacheInv(d, inserted, all) && Consistent(all) && v1 in all && v2 in all
    ensures CacheInv(LinkWrite(d, v1, v2), inserted, all)
  {
    var e := LinkWrite(d, v1, v2);
    assert forall r: u64 :: At(e, r) == At(d, r);
    assert Stores(e, inserted) && StrongMatches(e, inserted);
    forall h, t | WeakEdge(e, h, t)
      ensures MayLink(e, inserted, all, h, t)
    {
      LinkShape(d, inserted, all, v1, v2, h, t);
    }
  }

  /** What insertion puts in the index: the hash of each vertex stored from round 1 to
      three rounds below, unless it is a parent. */
  lemma TargetsExact(d: Dag, v: Vertex, inserted: set<Vertex>, t: VertexHash)
    requires Stores(d, inserted) && v.round > 2
    ensures t in Edges(Insert(d, v).weakEdges, v.hash) <==>
      t !in v.parents.Keys && exists w :: w in inserted && w.hash == t && 1 <= w.round <= v.round - 3
  {
    var stored := d.vertices[v.round := At(d, v.round)[v.hash := v]];
    var targets := WeakTargets(stored, v.parents.Keys, v.round - 2);
    assert Edges(Insert(d, v).weakEdges, v.hash) == targets;
    if t in targets {
      var r, h :| r in stored && h in stored[r] && 1 <= r < v.round - 2
                  && stored[r][h].hash !in v.parents.Keys && stored[r][h].hash == t;
      assert stored[r] == At(d, r);
    }
    forall w | w in inserted && w.hash == t && 1 <= w.round <= v.round - 3 && t !in v.parents.Keys
      ensures t in targets
    {
      assert w.hash in At(d, w.round);
      assert w.round in stored && t in stored[w.round] && stored[w.round][t].hash == t;
    }
  }

  lemma FreshShape(inserted: set<Vertex>, all: set<Vertex>, v: Vertex, t: VertexHash)
    requires Consistent(all) && inserted <= all && v in all
    requires exists w :: w in inserted && w.hash == t && 1 <= w.round <= v.round - 3
    ensures t in HashSet(inserted)
    ensures forall u, w | u in all && w in all && u.hash == v.hash && w.hash == t :: u.round >= w.round + 3
  {
    var w :| w in inserted && w.hash == t && 1 <= w.round <= v.round - 3;
    assert w in all;
  }

  /** A vertex of a round below three has no weak edges. */
  lemma LowHasNone(d: Dag, inserted: set<Vertex>, all: set<Vertex>, v: Vertex, t: VertexHash)
    requires MayLink(d, inserted, all, v.hash, t) && inserted <= all && v in all
    ensures v.round > 2
  {
    var w :| w in inserted && w.hash == t;
    assert w in all;
  }

  lemma OldShape(d: Dag, inserted: set<Vertex>, all: set<Vertex>, v: Vertex, h: VertexHash, t: VertexHash)
    requires MayLink(d, inserted, all, h, t) && inserted <= all && v in all
    requires h == v.hash ==> v.round <= 2
    ensures MayLink(Insert(d, v), inserted, all, h, t)
  {
    if h == v.hash {
      LowHasNone(d, inserted, all, v, t);
    }
  }

  lemma HashSetGrows(vs: set<Vertex>, v: Vertex)
    ensures HashSet(vs) <= HashSet(vs + {v})
  {
  }

  /** One weak edge after an insertion: a new edge of the inserted vertex, or an old edge. */
  lemma InsertShape(d: Dag, inserted: set<Vertex>, all: set<Vertex>, v: Vertex, h: VertexHash, t: VertexHash)
    requires CacheInv(d, inserted, all) && Consistent(all) && v in all
    requires WeakEdge(Insert(d, v), h, t)
    ensures MayLink(Insert(d, v), inserted + {v}, all, h, t)
  {
    if h == v.hash && v.round > 2 {
      TargetsExact(d, v, inserted, t);
      FreshShape(inserted, all, v, t);
    } else {
      assert WeakEdge(d, h, t);
      OldShape(d, inserted, all, v, h, t);
    }
    HashSetGrows(inserted, v);
  }

  lemma InsertKeeps(d: Dag, inserted: set<Vertex>, all: set<Vertex>, v: Vertex)
    requires CacheInv(d, inserted, all) && Consistent(all) && v in all
    ensures CacheInv(Insert(d, v), inserted + {v}, all)
  {
    ConsistentSubset(inserted + {v}, all);
    InsertStores(d, v, inserted);
    InsertStrongMatches(d, v, inserted);
    forall h, t | WeakEdge(Insert(d, v), h, t)
      ensures MayLink(Insert(d, v), inserted + {v}, all, h, t)
    {
      InsertShape(d, inserted, all, v, h, t);
    }
  }

  lemma {:induction false} RunDagKeeps(g: Vertex, ops: seq<DagOp>, all: set<Vertex>)
    requires ValidGenesis(g) && Consistent(all) && Mentioned(g, ops) <= all
    ensures CacheInv(RunDag(g, ops), Inserted(g, ops), all)
    decreases |ops|
  {
    if ops == [] {
      NewMatches(g);
      assert forall h, t :: !WeakEdge(New(g), h, t);
    } else {
      var before, op := ops[..|ops| - 1], ops[|ops| - 1];
      assert ops == before + [op] && op in ops;
      assert Mentioned(g, before) <= Mentioned(g, ops);
      RunDagKeeps(g, before, all);
      match op
      case Put(v) =>
        assert v in Inserted(g, ops);
        assert Inserted(g, ops) == Inserted(g, before) + {v};
        InsertKeeps(RunDag(g, before), Inserted(g, before), all, v);
      case Link(v1, v2) =>
        assert v1 in Mentioned(g, ops) && v2 in Mentioned(g, ops);
        assert Inserted(g, ops) == Inserted(g, before);
        LinkKeeps(RunDag(g, before), Inserted(g, before), all, v1, v2);
    }
  }

  // ----- transparency -----

  /** After any mix of insertions and queries, IsLinked answers exactly: v2 is a parent of
      the inserted v1, or v2 is stored at least three rounds below v1. */
  lemma LinkExact(g: Vertex, ops: seq<DagOp>, v1: Vertex, v2: Vertex)
    requires ValidGenesis(g) && Consistent(Mentioned(g, ops) + {v1, v2})
    ensures LinkAnswer(RunDag(g, ops), v1, v2) <==> Linked(Inserted(g, ops), v1, v2)
  {
    var all := Mentioned(g, ops) + {v1, v2};
    RunDagKeeps(g, ops, all);
    AnswerExact(RunDag(g, ops), Inserted(g, ops), all, v1, v2);
  }

  /** Neither the queries made nor the order of insertion changes any answer. */
  lemma HistoryTransparent(g: Vertex, ops: seq<DagOp>, ops': seq<DagOp>, v1: Vertex, v2: Vertex)
    requires ValidGenesis(g)
    requires Consistent(Mentioned(g, ops) + {v1, v2}) && Consistent(Mentioned(g, ops') + {v1, v2})
    requires Inserted(g, ops) == Inserted(g, ops')
    ensures LinkAnswer(RunDag(g, ops), v1, v2) <==> LinkAnswer(RunDag(g, ops'), v1, v2)
  {
    LinkExact(g, ops, v1, v2);
    LinkExact(g, ops', v1, v2);
  }

  /** An answer that was true stays true whatever is inserted or asked later. */
  lemma OnceLinkedAlways(g: Vertex, ops: seq<DagOp>, later: seq<DagOp>, v1: Vertex, v2: Vertex)
    requires ValidGenesis(g) && Consistent(Mentioned(g, ops + later) + {v1, v2})
    requires LinkAnswer(RunDag(g, ops), v1, v2)
    ensures LinkAnswer(RunDag(g, ops + later), v1, v2)
  {
    assert Mentioned(g, ops) <= Mentioned(g, ops + later);
    ConsistentSubset(Mentioned(g, ops) + {v1, v2}, Mentioned(g, ops + later) + {v1, v2});
    LinkExact(g, ops, v1, v2);
    LinkExact(g, ops + later, v1, v2);
    assert Inserted(g, ops) <= Inserted(g, ops + later);
    assert HashSet(Inserted(g, ops)) <= HashSet(Inserted(g, ops + later));
  }

  lemma StepSources(d: Dag, op: DagOp, sources: set<VertexHash>)
    requires d.weakEdges.Keys <= sources
    ensures op.Put? ==> Insert(d, op.v).weakEdges.Keys <= sources + {op.v.hash}
    ensures op.Link? ==> LinkWrite(d, op.v1, op.v2).weakEdges.Keys <= sources + {op.v1.hash}
  {
  }

  /** Only what was inserted or asked about has weak edges. */
  lemma {:induction false} WeakSources(g: Vertex, ops: seq<DagOp>)
    ensures RunDag(g, ops).weakEdges.Keys <= HashSet(Mentioned(g, ops))
    decreases |ops|
  {
    if ops == [] {
    } else {
      var before, op := ops[..|ops| - 1], ops[|ops| - 1];
      assert ops == before + [op] && op in ops;
      WeakSources(g, before);
      StepSources(RunDag(g, before), op, HashSet(Mentioned(g, before)));
      assert Mentioned(g, before) <= Mentioned(g, ops);
      assert op.Put? ==> op.v in Mentioned(g, ops);
      assert op.Link? ==> op.v1 in Mentioned(g, ops);
    }
  }

  lemma CacheShape(d: Dag, inserted: set<Vertex>, all: set<Vertex>)
    requires CacheInv(d, inserted, all)
    ensures forall h :: Edges(d.weakEdges, h) !! Edges(d.strongEdges, h)
    ensures forall h :: Edges(d.weakEdges, h) <= Hashes(d)
  {
    StoresHashes(d, inserted);
    assert forall h, t | t in Edges(d.weakEdges, h) :: WeakEdge(d, h, t);
  }

  lemma CacheGap(d: Dag, inserted: set<Vertex>, all: set<Vertex>, v: Vertex, w: Vertex)
    requires CacheInv(d, inserted, all) && v in all && w in all && w.hash in Edges(d.weakEdges, v.hash)
    ensures v.round >= w.round + 3
  {
    assert WeakEdge(d, v.hash, w.hash);
  }

  /** In every reachable store weak edges lead from vertices inserted or asked about to
      stored vertices at least three rounds lower, and are disjoint from strong edges. */
  lemma WeakEdgeShape(g: Vertex, ops: seq<DagOp>)
    requires ValidGenesis(g) && Consistent(Mentioned(g, ops))
    ensures var d := RunDag(g, ops);
      && (forall h :: Edges(d.weakEdges, h) !! Edges(d.strongEdges, h))
      && (forall h :: Edges(d.weakEdges, h) <= Hashes(d))
      && d.weakEdges.Keys <= HashSet(Mentioned(g, ops))
      && (forall v, w | v in Mentioned(g, ops) && w in Mentioned(g, ops) && w.hash in Edges(d.weakEdges, v.hash) ::
            v.round >= w.round + 3)
  {
    var d, all := RunDag(g, ops), Mentioned(g, ops);
    RunDagKeeps(g, ops, all);
    WeakSources(g, ops);
    CacheShape(d, Inserted(g, ops), all);
    forall v, w | v in all && w in all && w.hash in Edges(d.weakEdges, v.hash)
      ensures v.round >= w.round + 3
    {
      CacheGap(d, Inserted(g, ops), all, v, w);
    }
  }

  // ----- links to the other vertices of a round -----

  /** The vertex stored under k in this round is another one, and the coded query links to it. */
  ghost predicate LinksAt(d: Dag, vertex: Vertex, round: u64, k: VertexHash) {
    k in At(d, round) && At(d, round)[k].hash != vertex.hash && LinkAnswer(d, vertex, At(d, round)[k])
  }

  /** A stored vertex is linked to exactly as the inserted one with its hash is. */
  lemma StoredLinked(g: Vertex, ops: seq<DagOp>, v: Vertex, w: Vertex, u: Vertex)
    requires ValidGenesis(g) && Consistent(Mentioned(g, ops) + {v})
    requires w in Inserted(g, ops) && u in Inserted(g, ops) && w.hash == u.hash
    ensures LinkAnswer(RunDag(g, ops), v, u) <==> Linked(Inserted(g, ops), v, w)
  {
    assert Mentioned(g, ops) + {v, u} == Mentioned(g, ops) + {v};
    LinkExact(g, ops, v, u);
    assert w in Mentioned(g, ops) + {v} && u in Mentioned(g, ops) + {v};
  }

  lemma RunStores(g: Vertex, ops: seq<DagOp>)
    requires ValidGenesis(g) && Consistent(Mentioned(g, ops))
    ensures Stores(RunDag(g, ops), Inserted(g, ops))
  {
    RunDagKeeps(g, ops, Mentioned(g, ops));
  }

  /** After any mix of insertions and queries, the query about a round answers exactly
      whether some other vertex inserted in this round is linked to, by the definition that
      knows no cache and no order. */
  lemma OthersExact(g: Vertex, ops: seq<DagOp>, v: Vertex, r: u64)
    requires ValidGenesis(g) && Consistent(Mentioned(g, ops) + {v})
    ensures (exists k :: LinksAt(RunDag(g, ops), v, r, k)) <==>
      exists w :: w in Inserted(g, ops) && w.round == r && w.hash != v.hash && Linked(Inserted(g, ops), v, w)
  {
    var d := RunDag(g, ops);
    ConsistentSubset(Mentioned(g, ops), Mentioned(g, ops) + {v});
    RunStores(g, ops);
    if k :| LinksAt(d, v, r, k) {
      var u := At(d, r)[k];
      StoredLinked(g, ops, v, u, u);
    }
    if w :| w in Inserted(g, ops) && w.round == r && w.hash != v.hash && Linked(Inserted(g, ops), v, w) {
      StoredLinked(g, ops, v, w, At(d, r)[w.hash]);
      assert LinksAt(d, v, r, w.hash);
    }
  }
}
