// The DAG of pkg/consensus/dag.go as the code has it: an object with three mutable maps.
module Store {
  import opened Model
  import opened DagSpec
  import opened Iteration
  import opened WeakEdges

  /** A list of the vertices of a round map, in some iteration order. */
  ghost predicate Lists(m: map<VertexHash, Vertex>, vs: seq<Vertex>) {
    exists keys: seq<VertexHash> :: Arranges(keys, m.Keys) && |vs| == |keys| &&
      forall i | 0 <= i < |keys| :: vs[i] == m[keys[i]]
  }

  lemma ListsNothing()
    ensures Lists(map[], [])
  {
    var none: map<VertexHash, Vertex> := map[];
    assert Arranges([], none.Keys);
  }

  /** A list of the hashes of the vertices of a round map, one for each, in some order. */
  ghost predicate ListsHashes(m: map<VertexHash, Vertex>, hs: seq<VertexHash>) {
    exists keys: seq<VertexHash> :: Arranges(keys, m.Keys) && |hs| == |keys| &&
      forall i | 0 <= i < |keys| :: hs[i] == m[keys[i]].hash
  }

  ghost function KeySet(keys: seq<VertexHash>): set<VertexHash> {
    set k | k in keys
  }

  ghost predicate IsTarget(m: map<VertexHash, Vertex>, strong: set<VertexHash>, k: VertexHash, t: VertexHash) {
    k in m && m[k].hash !in strong && m[k].hash == t
  }

  /** The weak targets within one round. */
  ghost function Targets(m: map<VertexHash, Vertex>, strong: set<VertexHash>): set<VertexHash> {
    set k | k in m && IsTarget(m, strong, k, m[k].hash) :: m[k].hash
  }

  lemma WeakTargetsNext(vertices: map<u64, map<VertexHash, Vertex>>, strong: set<VertexHash>, r: u64)
    requires 1 <= r
    ensures r !in vertices ==> WeakTargets(vertices, strong, r + 1) == WeakTargets(vertices, strong, r)
    ensures r in vertices ==>
      WeakTargets(vertices, strong, r + 1) == WeakTargets(vertices, strong, r) + Targets(vertices[r], strong)
  {
    if r in vertices {
      forall t | t in Targets(vertices[r], strong)
        ensures t in WeakTargets(vertices, strong, r + 1)
      {
        var k :| k in vertices[r] && vertices[r][k].hash !in strong && vertices[r][k].hash == t;
      }
    }
  }

  class DAG {
    var vertices: map<u64, map<VertexHash, Vertex>>
    var strongEdges: map<VertexHash, set<VertexHash>>
    var weakEdges: map<VertexHash, set<VertexHash>>

    ghost function View(): Dag
      reads this
    {
      Dag(vertices, strongEdges, weakEdges)
    }

    constructor (genesis: Vertex)
      ensures View() == New(genesis)
      ensures vertices == map[0 := map[genesis.hash := genesis]] && strongEdges == map[] && weakEdges == map[]
    {
      vertices := map[0 := map[genesis.hash := genesis]];
      strongEdges := map[];
      weakEdges := map[];
    }

    /** The body of the loop over rounds: one round map in an arbitrary order. */
    method AddWeakEdgesToRound(hash: VertexHash, r: u64)
      requires hash in strongEdges && hash in weakEdges && r in vertices
      modifies this`weakEdges
      ensures weakEdges == old(weakEdges)[hash := old(weakEdges)[hash] + Targets(vertices[r], strongEdges[hash])]
    {
      var keys := KeysOf(vertices[r]);
      for i := 0 to |keys|
        invariant hash in weakEdges && weakEdges == old(weakEdges)[hash := weakEdges[hash]]
        invariant forall t :: t in weakEdges[hash] <==>
          t in old(weakEdges)[hash] || exists j :: 0 <= j < i && IsTarget(vertices[r], strongEdges[hash], keys[j], t)
      {
        var v := vertices[r][keys[i]];
        if v.hash !in strongEdges[hash] {
          weakEdges := weakEdges[hash := weakEdges[hash] + {v.hash}];
        }
      }
      forall t | t in Targets(vertices[r], strongEdges[hash])
        ensures t in weakEdges[hash]
      {
        var k :| k in vertices[r] && IsTarget(vertices[r], strongEdges[hash], k, t);
        var j :| 0 <= j < |keys| && keys[j] == k;
      }
      assert weakEdges[hash] == old(weakEdges)[hash] + Targets(vertices[r], strongEdges[hash]);
    }

    method AddWeakEdges(vertex: Vertex)
      requires vertex.round > 2 && vertex.hash in strongEdges
      modifies this`weakEdges
      ensures weakEdges == old(weakEdges)[vertex.hash := WeakTargets(vertices, strongEdges[vertex.hash], vertex.round - 2)]
    {
      weakEdges := weakEdges[vertex.hash := {}];
      var r := 1;
      assert WeakTargets(vertices, strongEdges[vertex.hash], 1) == {};
      while r < vertex.round - 2
        invariant 1 <= r <= vertex.round - 2
        invariant weakEdges == old(weakEdges)[vertex.hash := WeakTargets(vertices, strongEdges[vertex.hash], r)]
      {
        WeakTargetsNext(vertices, strongEdges[vertex.hash], r);
        if r in vertices {
          AddWeakEdgesToRound(vertex.hash, r);
        }
        r := r + 1;
      }
    }

    /** The loop over the parents, in an arbitrary order. */
    method AddStrongEdges(vertex: Vertex)
      modifies this`strongEdges
      ensures strongEdges == old(strongEdges)[vertex.hash := vertex.parents.Keys]
    {
      strongEdges := strongEdges[vertex.hash := {}];
      var keys := KeysOf(vertex.parents);
      assert KeySet(keys[..0]) == {};
      for i := 0 to |keys|
        invariant vertex.hash in strongEdges && strongEdges[vertex.hash] == KeySet(keys[..i])
        invariant strongEdges == old(strongEdges)[vertex.hash := strongEdges[vertex.hash]]
      {
        strongEdges := strongEdges[vertex.hash := strongEdges[vertex.hash] + {keys[i]}];
        assert keys[..i + 1] == keys[..i] + [keys[i]];
        assert KeySet(keys[..i + 1]) == KeySet(keys[..i]) + {keys[i]};
      }
      assert keys[..|keys|] == keys;
      assert KeySet(keys) == vertex.parents.Keys;
    }

    method InsertVertex(vertex: Vertex)
      modifies this
      ensures View() == Insert(old(View()), vertex)
    {
      if vertex.round !in vertices {
        vertices := vertices[vertex.round := map[]];
      }
      vertices := vertices[vertex.round := vertices[vertex.round][vertex.hash := vertex]];
      assert vertices == Insert(old(View()), vertex).vertices;
      AddStrongEdges(vertex);
      if vertex.round > 2 {
        AddWeakEdges(vertex);
      }
    }

    method ContainsVertices(hashes: seq<VertexHash>) returns (found: bool)
      ensures found <==> forall h | h in hashes :: h in Hashes(View())
    {
      for i := 0 to |hashes|
        invariant forall j | 0 <= j < i :: hashes[j] in Hashes(View())
      {
        found := false;
        var todo := vertices.Keys;
        while todo != {}
          invariant todo <= vertices.Keys && !found
          invariant forall r | r in vertices && hashes[i] in vertices[r] :: r in todo
          decreases todo
        {
          var r :| r in todo;
          if hashes[i] in vertices[r] {
            found := true;
            break;
          }
          todo := todo - {r};
        }
        if !found {
          assert hashes[i] !in Hashes(View());
          return false;
        }
      }
      return true;
    }

    method GetVertexCountInRound(round: u64) returns (count: nat)
      ensures count == |At(View(), round)|
    {
      if round in vertices {
        return |vertices[round]|;
      }
      return 0;
    }

    /** None stands for Go's nil slice. */
    method GetVerticesInRound(round: u64) returns (result: Option<seq<Vertex>>)
      ensures result.Some? <==> round in vertices
      ensures result.Some? ==> Lists(At(View(), round), result.value)
    {
      if round !in vertices {
        return None;
      }
      var keys := KeysOf(vertices[round]);
      var vs := [];
      for i := 0 to |keys|
        invariant |vs| == i && forall j | 0 <= j < i :: vs[j] == vertices[round][keys[j]]
      {
        vs := vs + [vertices[round][keys[i]]];
      }
      return Some(vs);
    }

    /** The hashes a new vertex of this round takes as its parents. */
    method GetStrongParents(round: u64) returns (result: Option<seq<VertexHash>>)
      ensures result.Some? <==> round > 0 && round - 1 in vertices
      ensures result.Some? ==> ListsHashes(At(View(), round - 1), result.value)
    {
      if round <= 0 || round - 1 !in vertices {
        return None;
      }
      var keys := KeysOf(vertices[round - 1]);
      var hs := [];
      for i := 0 to |keys|
        invariant |hs| == i && forall j | 0 <= j < i :: hs[j] == vertices[round - 1][keys[j]].hash
      {
        hs := hs + [vertices[round - 1][keys[i]].hash];
      }
      return Some(hs);
    }

    /** The query writes: a link worked out from the rounds is recorded as a weak edge. */
    method IsLinked(v1: Vertex, v2: Vertex) returns (linked: bool)
      modifies this`weakEdges
      ensures linked <==> LinkAnswer(old(View()), v1, v2)
      ensures View() == LinkWrite(old(View()), v1, v2)
    {
      if v1.hash in strongEdges && v2.hash in strongEdges[v1.hash] {
        return true;
      }
      if v1.hash in weakEdges && v2.hash in weakEdges[v1.hash] {
        return true;
      }
      if v1.round > v2.round && Wrap(v1.round - v2.round) > 2 {
        if v2.round in vertices && v2.hash in vertices[v2.round] {
          if v1.hash !in weakEdges {
            weakEdges := weakEdges[v1.hash := {}];
          }
          weakEdges := weakEdges[v1.hash := weakEdges[v1.hash] + {v2.hash}];
          return true;
        }
      }
      return false;
    }

    method IsStronglyLinked(v1: Vertex, v2: Vertex) returns (linked: bool)
      ensures linked <==> v2.hash in Edges(strongEdges, v1.hash)
    {
      return v1.hash in strongEdges && v2.hash in strongEdges[v1.hash];
    }

    /** The answer is the same for every iteration order, though the one link that the early
        return leaves recorded is not. */
    method IsLinkedWithOthersInRound(vertex: Vertex, round: u64) returns (linked: bool)
      modifies this`weakEdges
      ensures linked <==> exists k :: LinksAt(old(View()), vertex, round, k)
      ensures !linked ==> View() == old(View())
      ensures linked ==> exists k ::
        (LinksAt(old(View()), vertex, round, k) && View() == LinkWrite(old(View()), vertex, At(old(View()), round)[k]))
    {
      if round in vertices {
        var keys := KeysOf(vertices[round]);
        for i := 0 to |keys|
          invariant View() == old(View())
          invariant forall j | 0 <= j < i :: !LinksAt(old(View()), vertex, round, keys[j])
        {
          var v := vertices[round][keys[i]];
          if v.hash != vertex.hash {
            linked := IsLinked(vertex, v);
            if linked {
              assert LinksAt(old(View()), vertex, round, keys[i]);
              return true;
            }
          }
        }
        assert forall k | k in vertices[round] :: k in keys;
      }
      return false;
    }
  }
}
