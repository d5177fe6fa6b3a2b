// The vertex store of pkg/consensus/dag.go on values: the three maps, what an insertion
// makes of them, and what a store built by insertions holds.
module DagSpec {
  import opened Model

  /** The maps of a DAG. `weakEdges` is an index that queries extend. */
  datatype Dag = Dag(
    vertices: map<u64, map<VertexHash, Vertex>>,
    strongEdges: map<VertexHash, set<VertexHash>>,
    weakEdges: map<VertexHash, set<VertexHash>>)

  /** The vertices stored under a round; a missing round map reads as empty. */
  function At(d: Dag, r: u64): map<VertexHash, Vertex> {
    if r in d.vertices then d.vertices[r] else map[]
  }

  function Edges(m: map<VertexHash, set<VertexHash>>, h: VertexHash): set<VertexHash> {
    if h in m then m[h] else {}
  }

  /** A walk along the strong edges of a DAG. */
  ghost predicate IsWalk(d: Dag, path: seq<VertexHash>) {
    |path| >= 2 && forall k | 0 <= k < |path| - 1 :: path[k + 1] in Edges(d.strongEdges, path[k])
  }

  /** Every hash stored under any round. */
  ghost function Hashes(d: Dag): set<VertexHash> {
    set r, h | r in d.vertices && h in d.vertices[r] :: h
  }

  function New(genesis: Vertex): Dag {
    Dag(map[0 := map[genesis.hash := genesis]], map[], map[])
  }

  /** The hashes of the vertices stored from round 1 up to, not including, round `bound`
      to which no strong edge of `strong` leads. */
  ghost function WeakTargets(vertices: map<u64, map<VertexHash, Vertex>>, strong: set<VertexHash>, bound: int): set<VertexHash> {
    set r, h | r in vertices && h in vertices[r] && 1 <= r < bound && vertices[r][h].hash !in strong ::
      vertices[r][h].hash
  }

  ghost function Insert(d: Dag, v: Vertex): Dag {
    var stored := d.vertices[v.round := At(d, v.round)[v.hash := v]];
    var d1 := Dag(stored, d.strongEdges[v.hash := v.parents.Keys], d.weakEdges);
    if v.round > 2 then
      d1.(weakEdges := d.weakEdges[v.hash := WeakTargets(stored, v.parents.Keys, v.round - 2)])
    else d1
  }

  ghost function InsertAll(d: Dag, vs: seq<Vertex>): Dag {
    if vs == [] then d else Insert(InsertAll(d, vs[..|vs| - 1]), vs[|vs| - 1])
  }

  lemma InsertAllSnoc(d: Dag, vs: seq<Vertex>, v: Vertex)
    ensures InsertAll(d, vs + [v]) == Insert(InsertAll(d, vs), v)
  {
    assert (vs + [v])[..|vs|] == vs;
  }

  /** Insertion puts the vertex under its own round and disturbs no other entry. */
  lemma InsertAt(d: Dag, v: Vertex, r: u64)
    ensures At(Insert(d, v), r) == if r == v.round then At(d, r)[v.hash := v] else At(d, r)
  {
  }

  lemma InsertHashes(d: Dag, v: Vertex)
    ensures Hashes(Insert(d, v)) == Hashes(d) + {v.hash}
  {
    var e := Insert(d, v);
    assert v.round in e.vertices && v.hash in e.vertices[v.round];
    forall h | h in Hashes(d)
      ensures h in Hashes(e)
    {
      var r :| r in d.vertices && h in d.vertices[r];
      assert r in e.vertices && h in e.vertices[r];
    }
  }

  lemma NewHashes(g: Vertex)
    ensures Hashes(New(g)) == {g.hash}
  {
    assert 0 in New(g).vertices && g.hash in New(g).vertices[0];
  }

  /** `d` stores exactly the vertices of `inserted`, each under its own round and hash. */
  ghost predicate Stores(d: Dag, inserted: set<Vertex>) {
    && (forall r: u64, h | h in At(d, r) ::
          At(d, r)[h] in inserted && At(d, r)[h].hash == h && At(d, r)[h].round == r)
    && (forall v | v in inserted :: v.hash in At(d, v.round))
  }

  /** The strong edges of `d` lead from each vertex of `inserted` to its parents. */
  ghost predicate StrongMatches(d: Dag, inserted: set<Vertex>) {
    && (forall v | v in inserted :: Edges(d.strongEdges, v.hash) == v.parents.Keys)
    && d.strongEdges.Keys <= HashSet(inserted)
  }

  lemma NewMatches(g: Vertex)
    requires ValidGenesis(g)
    ensures Stores(New(g), {g}) && StrongMatches(New(g), {g})
  {
  }

  lemma InsertStores(d: Dag, v: Vertex, inserted: set<Vertex>)
    requires Stores(d, inserted)
    ensures Stores(Insert(d, v), inserted + {v})
  {
    var e := Insert(d, v);
    forall r: u64, h | h in At(e, r)
      ensures At(e, r)[h] in inserted + {v} && At(e, r)[h].hash == h && At(e, r)[h].round == r
    {
      InsertAt(d, v, r);
      assert At(e, r)[h] == v || h in At(d, r);
    }
    forall w | w in inserted + {v}
      ensures w.hash in At(e, w.round)
    {
      InsertAt(d, v, w.round);
    }
  }

  lemma InsertStrongMatches(d: Dag, v: Vertex, inserted: set<Vertex>)
    requires StrongMatches(d, inserted) && Consistent(inserted + {v})
    ensures StrongMatches(Insert(d, v), inserted + {v})
  {
    var e := Insert(d, v);
    forall w | w in inserted + {v}
      ensures Edges(e.strongEdges, w.hash) == w.parents.Keys
    {
      assert e.strongEdges == d.strongEdges[v.hash := v.parents.Keys];
      assert v in inserted + {v};
    }
    assert HashSet(inserted + {v}) == HashSet(inserted) + {v.hash};
  }

  /** A store built by insertions holds what was inserted, and nothing else. */
  lemma {:induction false} InsertAllMatches(g: Vertex, vs: seq<Vertex>)
    requires ValidGenesis(g) && Consistent({g} + SetOf(vs))
    ensures Stores(InsertAll(New(g), vs), {g} + SetOf(vs))
    ensures StrongMatches(InsertAll(New(g), vs), {g} + SetOf(vs))
    decreases |vs|
  {
    if vs == [] {
      NewMatches(g);
      assert {g} + SetOf(vs) == {g};
    } else {
      var init, last := vs[..|vs| - 1], vs[|vs| - 1];
      assert vs == init + [last];
      assert {g} + SetOf(vs) == ({g} + SetOf(init)) + {last};
      InsertAllMatches(g, init);
      InsertStores(InsertAll(New(g), init), last, {g} + SetOf(init));
      InsertStrongMatches(InsertAll(New(g), init), last, {g} + SetOf(init));
    }
  }

  lemma StoredHash(d: Dag, r: u64, h: VertexHash)
    requires h in At(d, r)
    ensures h in Hashes(d)
  {
    assert r in d.vertices && h in d.vertices[r];
  }

  lemma HashStored(d: Dag, h: VertexHash) returns (r: u64)
    requires h in Hashes(d)
    ensures h in At(d, r)
  {
    r :| r in d.vertices && h in d.vertices[r];
  }

  /** A store of `inserted` has exactly the hashes of `inserted`. */
  lemma StoresHashes(d: Dag, inserted: set<Vertex>)
    requires Stores(d, inserted)
    ensures Hashes(d) == HashSet(inserted)
  {
    forall v | v in inserted
      ensures v.hash in Hashes(d)
    {
      StoredHash(d, v.round, v.hash);
    }
    forall h | h in Hashes(d)
      ensures h in HashSet(inserted)
    {
      var r := HashStored(d, h);
      assert At(d, r)[h] in inserted;
    }
  }

  /** Insertion disturbs the edges of no other vertex, and below round three it leaves the
      weak edges alone. */
  lemma InsertEdges(d: Dag, v: Vertex, h: VertexHash)
    ensures h != v.hash ==> Edges(Insert(d, v).weakEdges, h) == Edges(d.weakEdges, h)
    ensures h != v.hash ==> Edges(Insert(d, v).strongEdges, h) == Edges(d.strongEdges, h)
    ensures v.round <= 2 ==> Insert(d, v).weakEdges == d.weakEdges
  {
  }
}
