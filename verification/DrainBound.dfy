// How many passes a drain makes over the buffer.
module DrainBound {
  import opened Model
  import opened DagSpec
  import opened Delivery

  /** The passes of a drain that insert something. One more pass ends it. */
  ghost function ProductivePasses(n: Node): nat
    decreases |n.buffer|
  {
    var (m, rest) := Pass(n, n.buffer);
    PassShrinks(n, n.buffer);
    if |rest| == |n.buffer| then 0 else 1 + ProductivePasses(m.(buffer := rest))
  }

  ghost function TotalPasses(n: Node): nat {
    ProductivePasses(n) + 1
  }

  /** The vertices a drain inserts. */
  ghost function Drained(n: Node): set<Vertex> {
    SetOf(Since(n, Drain(n)))
  }

  /** Vertices of `vs`, each but the first naming the one before it as a parent. */
  ghost predicate IsChain(chain: seq<Vertex>, vs: set<Vertex>) {
    && chain != []
    && (forall v | v in chain :: v in vs)
    && (forall k | 0 <= k < |chain| - 1 :: chain[k].hash in chain[k + 1].parents)
  }

  /** A chain of `vs` with at least `k` vertices ends in h. */
  ghost predicate Reaches(h: VertexHash, k: nat, vs: set<Vertex>) {
    exists chain: seq<Vertex> :: IsChain(chain, vs) && |chain| >= k && chain[|chain| - 1].hash == h
  }

  lemma ReachesOne(v: Vertex, vs: set<Vertex>)
    requires v in vs
    ensures Reaches(v.hash, 1, vs)
  {
    assert IsChain([v], vs);
  }

  lemma ReachesNext(v: Vertex, p: VertexHash, k: nat, vs: set<Vertex>)
    requires Reaches(p, k, vs) && p in v.parents && v in vs
    ensures Reaches(v.hash, k + 1, vs)
  {
    var chain: seq<Vertex> :| IsChain(chain, vs) && |chain| >= k && chain[|chain| - 1].hash == p;
    var longer := chain + [v];
    assert IsChain(longer, vs) && longer[|longer| - 1].hash == v.hash;
  }

  /** The start of pass k + 1, `older` being what was stored when pass k started: every
      vertex still to place waits for a parent outside `older`, and every hash stored
      since then ends a chain of at least k vertices. */
  ghost predicate Late(n: Node, todo: seq<Vertex>, older: set<VertexHash>, k: nat, vs: set<Vertex>) {
    && (k > 0 ==> forall v | v in todo && v.round <= n.currentRound :: !(v.parents.Keys <= older))
    && (forall h | h in Hashes(n.dag) - older :: Reaches(h, k, vs))
  }

  lemma ReadyReaches(n: Node, todo: seq<Vertex>, older: set<VertexHash>, k: nat, vs: set<Vertex>, v: Vertex)
    requires Late(n, todo, older, k, vs) && v in todo && v in vs && Ready(n, v)
    ensures Reaches(v.hash, k + 1, vs)
  {
    if k == 0 {
      ReachesOne(v, vs);
    } else {
      var p :| p in v.parents.Keys && p !in older;
      assert p in Hashes(n.dag) - older;
      ReachesNext(v, p, k, vs);
    }
  }

  lemma ReachesFewer(h: VertexHash, k: nat, vs: set<Vertex>)
    requires Reaches(h, k + 1, vs)
    ensures Reaches(h, k, vs)
  {
    var chain: seq<Vertex> :| IsChain(chain, vs) && |chain| >= k + 1 && chain[|chain| - 1].hash == h;
    assert |chain| >= k;
  }

  /** The vertices one pass inserts. */
  ghost function Placed(n: Node, todo: seq<Vertex>): seq<Vertex> {
    Since(n, Pass(n, todo).0)
  }

  lemma PlacedStep(n: Node, todo: seq<Vertex>)
    requires todo != []
    ensures Placed(n, todo) ==
      if Ready(n, todo[0]) then [todo[0]] + Placed(Deliver(n, todo[0]), todo[1..]) else Placed(n, todo[1..])
  {
    if Ready(n, todo[0]) {
      var m := Deliver(n, todo[0]);
      PassContract(m, todo[1..]);
      DeliverInserts(n, todo[0]);
      InsertsTrans(n, m, Pass(n, todo).0, [todo[0]], Placed(m, todo[1..]));
    }
  }

  lemma LateStep(n: Node, todo: seq<Vertex>, older: set<VertexHash>, k: nat, vs: set<Vertex>)
    requires Late(n, todo, older, k, vs) && todo != [] && todo[0] in vs && Ready(n, todo[0])
    ensures Reaches(todo[0].hash, k + 1, vs)
    ensures Late(Deliver(n, todo[0]), todo[1..], older, k, vs)
  {
    ReadyReaches(n, todo, older, k, vs, todo[0]);
    ReachesFewer(todo[0].hash, k, vs);
    InsertHashes(n.dag, todo[0]);
  }

  lemma {:induction false} PassLengthensChains(n: Node, todo: seq<Vertex>, older: set<VertexHash>, k: nat, vs: set<Vertex>)
    requires Late(n, todo, older, k, vs)
    requires forall v | v in Placed(n, todo) :: v in vs
    ensures forall v | v in Placed(n, todo) :: Reaches(v.hash, k + 1, vs)
    decreases |todo|
  {
    if todo == [] {
      assert Placed(n, todo) == [];
    } else {
      PlacedStep(n, todo);
      if Ready(n, todo[0]) {
        var rest := Placed(Deliver(n, todo[0]), todo[1..]);
        assert forall v :: v in [todo[0]] + rest <==> v == todo[0] || v in rest;
        LateStep(n, todo, older, k, vs);
        PassLengthensChains(Deliver(n, todo[0]), todo[1..], older, k, vs);
      } else {
        PassLengthensChains(n, todo[1..], older, k, vs);
      }
    }
  }

  /** The next pass starts late again, measured against the store before this one. */
  lemma LateAgain(n: Node, todo: seq<Vertex>, k: nat, vs: set<Vertex>)
    requires forall v | v in Placed(n, todo) :: Reaches(v.hash, k, vs)
    ensures var (m, rest) := Pass(n, todo); Late(m.(buffer := rest), rest, Hashes(n.dag), k, vs)
  {
    var (m, rest) := Pass(n, todo);
    PassContract(n, todo);
  }

  lemma SetOfParts(all: seq<Vertex>, a: seq<Vertex>, b: seq<Vertex>)
    requires multiset(all) == multiset(a) + multiset(b)
    ensures SetOf(all) == SetOf(a) + SetOf(b)
  {
    assert forall v :: v in all <==> v in multiset(all);
    assert forall v :: v in a <==> v in multiset(a);
    assert forall v :: v in b <==> v in multiset(b);
  }

  /** A productive pass splits a drain into what it places and what the rest places. */
  lemma DrainedSplit(n: Node)
    requires |Pass(n, n.buffer).1| < |n.buffer|
    ensures var (m, rest) := Pass(n, n.buffer);
      && Placed(n, n.buffer) != [] && Placed(n, n.buffer)[0] in SetOf(Placed(n, n.buffer))
      && Drained(n) == SetOf(Placed(n, n.buffer)) + Drained(m.(buffer := rest))
      && Drained(m.(buffer := rest)) <= SetOf(rest)
  {
    var (m, rest) := Pass(n, n.buffer);
    var n' := m.(buffer := rest);
    PassContract(n, n.buffer);
    DrainContract(n');
    var first, later := Placed(n, n.buffer), Since(n', Drain(n'));
    assert Inserts(n, n', first);
    InsertsTrans(n, n', Drain(n'), first, later);
    assert |multiset(n.buffer)| == |multiset(first)| + |multiset(rest)|;
    SetOfParts(first + later, first, later);
    SetOfParts(rest, later, Drain(n').buffer);
  }

  lemma {:induction false} PassesMakeChain(n: Node, older: set<VertexHash>, k: nat, vs: set<Vertex>)
    requires Late(n, n.buffer, older, k, vs) && Drained(n) <= vs
    ensures ProductivePasses(n) > 0 ==>
      exists chain: seq<Vertex> :: IsChain(chain, vs) && |chain| >= k + ProductivePasses(n)
    decreases |n.buffer|
  {
    var (m, rest) := Pass(n, n.buffer);
    PassShrinks(n, n.buffer);
    if |rest| < |n.buffer| {
      DrainedSplit(n);
      PassLengthensChains(n, n.buffer, older, k, vs);
      LateAgain(n, n.buffer, k + 1, vs);
      PassesMakeChain(m.(buffer := rest), Hashes(n.dag), k + 1, vs);
      var first := Placed(n, n.buffer)[0];
      assert Reaches(first.hash, k + 1, vs);
    }
  }

  /** A drain makes at most one pass more than the longest chain of buffered ancestors
      among the vertices it delivers. */
  lemma DrainBound(n: Node, longest: nat)
    requires forall chain | IsChain(chain, Drained(n)) :: |chain| <= longest
    ensures TotalPasses(n) <= 1 + longest
  {
    PassesMakeChain(n, Hashes(n.dag), 0, Drained(n));
  }

  /** The number of productive passes never exceeds the number of vertices delivered. */
  lemma {:induction false} PassesWithinBuffer(n: Node)
    ensures ProductivePasses(n) + |Drain(n).buffer| <= |n.buffer|
    decreases |n.buffer|
  {
    var (m, rest) := Pass(n, n.buffer);
    PassShrinks(n, n.buffer);
    if |rest| < |n.buffer| {
      PassesWithinBuffer(m.(buffer := rest));
    }
  }

  // ----- a buffer in parents-first order -----

  /** Each vertex of D in `todo` is reached by the round, and its parents are stored or
      belong to vertices of D that come before it. */
  ghost predicate ParentsFirst(n: Node, todo: seq<Vertex>, D: set<Vertex>) {
    forall i | 0 <= i < |todo| && todo[i] in D ::
      todo[i].round <= n.currentRound &&
      forall p | p in todo[i].parents.Keys ::
        p in Hashes(n.dag) || exists j :: 0 <= j < i && todo[j] in D && todo[j].hash == p
  }

  lemma {:induction false} PassTakesAll(n: Node, todo: seq<Vertex>, D: set<Vertex>)
    requires ParentsFirst(n, todo, D)
    ensures forall v | v in Pass(n, todo).1 :: v !in D
    decreases |todo|
  {
    if todo == [] {
    } else {
      var v, tail := todo[0], todo[1..];
      var m := if Ready(n, v) then Deliver(n, v) else n;
      if Ready(n, v) {
        InsertHashes(n.dag, v);
      }
      assert v in D ==> Ready(n, v) by {
        assert forall p | p in todo[0].parents.Keys :: v in D ==> p in Hashes(n.dag);
      }
      forall i | 0 <= i < |tail| && tail[i] in D
        ensures tail[i].round <= m.currentRound
        ensures forall p | p in tail[i].parents.Keys ::
          p in Hashes(m.dag) || exists j :: 0 <= j < i && tail[j] in D && tail[j].hash == p
      {
        assert todo[i + 1] == tail[i];
        forall p | p in tail[i].parents.Keys && p !in Hashes(m.dag)
          ensures exists j :: 0 <= j < i && tail[j] in D && tail[j].hash == p
        {
          var j :| 0 <= j < i + 1 && todo[j] in D && todo[j].hash == p;
          assert tail[j - 1] == todo[j];
        }
      }
      PassTakesAll(m, tail, D);
    }
  }

  lemma NothingDrained(n: Node)
    requires Drained(n) == {}
    ensures ProductivePasses(n) == 0
  {
    PassShrinks(n, n.buffer);
    if |Pass(n, n.buffer).1| < |n.buffer| {
      DrainedSplit(n);
    }
  }

  lemma OnePassSuffices(n: Node)
    requires ParentsFirst(n, n.buffer, Drained(n))
    ensures ProductivePasses(n) <= 1
  {
    var (m, rest) := Pass(n, n.buffer);
    PassShrinks(n, n.buffer);
    PassTakesAll(n, n.buffer, Drained(n));
    if |rest| < |n.buffer| {
      DrainedSplit(n);
      assert Drained(m.(buffer := rest)) == {};
      NothingDrained(m.(buffer := rest));
    }
  }

  lemma SkippedFirst(n: Node, v: Vertex, tail: seq<Vertex>, D: set<Vertex>)
    requires v !in D && ParentsFirst(n, tail, D)
    ensures ParentsFirst(n, [v] + tail, D)
  {
    var todo := [v] + tail;
    forall i, p | 0 <= i < |todo| && todo[i] in D && p in todo[i].parents.Keys && p !in Hashes(n.dag)
      ensures exists j :: 0 <= j < i && todo[j] in D && todo[j].hash == p
    {
      assert todo[i] == tail[i - 1];
      var j :| 0 <= j < i - 1 && tail[j] in D && tail[j].hash == p;
      assert todo[j + 1] == tail[j];
    }
  }

  lemma DeliveredFirst(n: Node, v: Vertex, tail: seq<Vertex>, D: set<Vertex>)
    requires v in D && Ready(n, v) && ParentsFirst(Deliver(n, v), tail, D)
    ensures ParentsFirst(n, [v] + tail, D)
  {
    var todo := [v] + tail;
    InsertHashes(n.dag, v);
    forall i, p | 0 <= i < |todo| && todo[i] in D && p in todo[i].parents.Keys && p !in Hashes(n.dag)
      ensures exists j :: 0 <= j < i && todo[j] in D && todo[j].hash == p
    {
      assert i > 0 && todo[i] == tail[i - 1];
      if p == v.hash {
        assert todo[0] == v;
      } else {
        var j :| 0 <= j < i - 1 && tail[j] in D && tail[j].hash == p;
        assert todo[j + 1] == tail[j];
      }
    }
  }

  /** A pass that keeps no vertex of D and places no other went through D parents first. */
  lemma {:induction false} CleanPassParentsFirst(n: Node, todo: seq<Vertex>, D: set<Vertex>)
    requires forall v | v in Pass(n, todo).1 :: v !in D
    requires forall v | v in Placed(n, todo) :: v in D
    ensures ParentsFirst(n, todo, D)
    decreases |todo|
  {
    if todo == [] {
    } else {
      var v, tail := todo[0], todo[1..];
      PlacedStep(n, todo);
      if Ready(n, v) {
        var rest := Placed(Deliver(n, v), tail);
        assert forall w :: w in [v] + rest <==> w == v || w in rest;
        CleanPassParentsFirst(Deliver(n, v), tail, D);
        DeliveredFirst(n, v, tail, D);
      } else {
        var rest := Pass(n, tail).1;
        assert forall w :: w in [v] + rest <==> w == v || w in rest;
        CleanPassParentsFirst(n, tail, D);
        SkippedFirst(n, v, tail, D);
      }
      assert todo == [v] + tail;
    }
  }

  /** What a pass places is still ready when it ends. */
  lemma {:induction false} PlacedReady(n: Node, todo: seq<Vertex>)
    ensures forall v | v in Placed(n, todo) :: Ready(Pass(n, todo).0, v)
    decreases |todo|
  {
    if todo == [] {
      assert Placed(n, todo) == [];
    } else {
      PlacedStep(n, todo);
      if Ready(n, todo[0]) {
        var rest := Placed(Deliver(n, todo[0]), todo[1..]);
        assert forall v :: v in [todo[0]] + rest <==> v == todo[0] || v in rest;
        PassContract(n, todo);
        PlacedReady(Deliver(n, todo[0]), todo[1..]);
      } else {
        PlacedReady(n, todo[1..]);
      }
    }
  }

  /** When no second productive pass follows, the first kept nothing that it placed. */
  lemma FirstPassClean(n: Node)
    requires ProductivePasses(n) == 1
    ensures Drained(n) == SetOf(Placed(n, n.buffer))
    ensures forall v | v in Pass(n, n.buffer).1 :: v !in Drained(n)
  {
    var (m, rest) := Pass(n, n.buffer);
    var n' := m.(buffer := rest);
    PassShrinks(n, n.buffer);
    DrainedSplit(n);
    PassContract(n', rest);
    PassShrinks(n', rest);
    assert Since(n', Drain(n')) == [];
    PlacedReady(n, n.buffer);
    forall v | v in rest
      ensures v !in Placed(n, n.buffer)
    {
      assert !Ready(n', v);
    }
  }

  /** One productive pass is enough exactly when the deliverable vertices lie parents
      first, each copy of them. */
  lemma OnePassExact(n: Node)
    ensures ProductivePasses(n) <= 1 <==> ParentsFirst(n, n.buffer, Drained(n))
  {
    if ProductivePasses(n) == 0 {
      PassShrinks(n, n.buffer);
      PassContract(n, n.buffer);
      assert Since(n, Drain(n)) == [];
    } else {
      if ProductivePasses(n) == 1 {
        FirstPassClean(n);
        CleanPassParentsFirst(n, n.buffer, Drained(n));
      }
      if ParentsFirst(n, n.buffer, Drained(n)) {
        OnePassSuffices(n);
      }
    }
  }
}
