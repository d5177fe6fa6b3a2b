// Consequences of the fixpoint: acyclic strong edges, a topological delivery order,
// eventual delivery, and the numbers of advances for which agreement fails.
module Consequences {
  import opened Model
  import opened DagSpec
  import opened Delivery
  import opened Runs
  import opened Agreement

  // ----- conservation -----

  /** Between operations nothing is lost or duplicated, nothing waits that could be
      delivered, every stored vertex has its parents stored before it, and no stored
      vertex is above the highest round reached. */
  lemma Conservation(g: Vertex, ops: seq<Op>)
    requires Consistent(Received(ops))
    ensures var n := Run(g, ops);
      && multiset(n.accepted) == multiset(n.log) + multiset(n.buffer)
      && Hashes(n.dag) == {g.hash} + HashesOf(n.log)
      && Hashes(n.dag) !! HashesOf(n.buffer)
      && (forall v | v in n.buffer :: n.currentRound < v.round || exists p :: p in v.parents && p !in Hashes(n.dag))
      && Topological(g, n.log) && n.dag == InsertAll(New(g), n.log)
      && (forall v | v in n.log :: v.round <= Peak(Advances(ops)))
  {
    RunKeeps(g, ops);
    RunHashes(g, ops);
    var n := Run(g, ops);
    forall v | v in n.buffer && v.round <= n.currentRound
      ensures exists p :: p in v.parents && p !in Hashes(n.dag)
    {
      assert !Ready(n, v);
    }
  }

  // ----- the order of the buffer -----

  lemma {:induction false} PassKeepsOrder(n: Node, todo: seq<Vertex>)
    ensures Subsequence(Pass(n, todo).1, todo)
    decreases |todo|
  {
    if todo == [] {
      SubsequenceAll(todo);
    } else {
      var m := if Ready(n, todo[0]) then Deliver(n, todo[0]) else n;
      PassKeepsOrder(m, todo[1..]);
      SubsequenceCons(todo[0], Pass(m, todo[1..]).1, todo[1..]);
      assert todo == [todo[0]] + todo[1..];
    }
  }

  lemma {:induction false} DrainKeepsOrder(n: Node)
    ensures Subsequence(Drain(n).buffer, n.buffer)
    decreases |n.buffer|
  {
    var (m, rest) := Pass(n, n.buffer);
    PassShrinks(n, n.buffer);
    PassKeepsOrder(n, n.buffer);
    if |rest| < |n.buffer| {
      DrainKeepsOrder(m.(buffer := rest));
      SubsequenceTrans(Drain(n).buffer, rest, n.buffer);
    }
  }

  lemma AddKeepsOrder(n: Node, v: Vertex)
    requires Subsequence(n.buffer, n.accepted)
    ensures Subsequence(AddVertex(n, v).buffer, AddVertex(n, v).accepted)
  {
    var m := n.(accepted := n.accepted + [v]);
    SubsequenceMore(n.buffer, n.accepted, v);
    AddHistory(n, v);
    DrainKeepsOrder(Deliver(m, v));
    if v.hash !in n.delivered && Ready(m, v) {
      SubsequenceTrans(AddVertex(n, v).buffer, n.buffer, m.accepted);
    }
  }

  lemma AdvanceKeepsOrder(n: Node)
    requires Subsequence(n.buffer, n.accepted)
    ensures Subsequence(AdvanceRound(n).buffer, AdvanceRound(n).accepted)
  {
    AdvanceHistory(n);
    DrainKeepsOrder(n.(currentRound := Wrap(n.currentRound + 1)));
    SubsequenceTrans(AdvanceRound(n).buffer, n.buffer, n.accepted);
  }

  /** In every run the buffer holds its vertices in the order in which they arrived. */
  lemma {:induction false} BufferInArrivalOrder(g: Vertex, ops: seq<Op>)
    ensures Subsequence(Run(g, ops).buffer, Run(g, ops).accepted)
    decreases |ops|
  {
    if ops == [] {
      SubsequenceAll(Run(g, ops).buffer);
    } else {
      var before := Run(g, ops[..|ops| - 1]);
      BufferInArrivalOrder(g, ops[..|ops| - 1]);
      match ops[|ops| - 1]
      case Add(v) => AddKeepsOrder(before, v);
      case Advance => AdvanceKeepsOrder(before);
      case Mark(_) =>
    }
  }

  /** What is taken up is the vertices received that were not yet delivered or marked when
      they arrived, in order of arrival. */
  ghost function TakenUp(g: Vertex, ops: seq<Op>): seq<Vertex> {
    if ops == [] then []
    else
      var before, op := ops[..|ops| - 1], ops[|ops| - 1];
      TakenUp(g, before) + if op.Add? && op.v.hash !in Run(g, before).delivered then [op.v] else []
  }

  lemma {:induction false} TakenUpExact(g: Vertex, ops: seq<Op>)
    ensures Run(g, ops).accepted == TakenUp(g, ops)
    decreases |ops|
  {
    if ops == [] {
    } else {
      var before := Run(g, ops[..|ops| - 1]);
      TakenUpExact(g, ops[..|ops| - 1]);
      match ops[|ops| - 1]
      case Add(v) => AddHistory(before, v);
      case Advance => AdvanceHistory(before);
      case Mark(_) =>
    }
  }

  // ----- unfounded sets -----

  /** Every received vertex with a hash in C names a parent in C. A missing ancestor and
      its descendants, and a cycle with its descendants, are such sets. */
  ghost predicate Unfounded(g: Vertex, vs: set<Vertex>, C: set<VertexHash>) {
    g.hash !in C && forall v | v in vs && v.hash in C :: v.parents.Keys * C != {}
  }

  /** No vertex of an unfounded set is ever delivered, with vertices marked or not. */
  lemma UnfoundedNeverDelivered(g: Vertex, ops: seq<Op>, C: set<VertexHash>)
    requires Consistent(Received(ops)) && Unfounded(g, Received(ops), C)
    ensures Hashes(Run(g, ops).dag) !! C
  {
    var n, peak := Run(g, ops), Peak(Advances(ops));
    RunAccepted(g, ops);
    RunHashes(g, ops);
    var T := {g.hash} + HashesOf(n.accepted) - C;
    forall v | v in SetOf(n.accepted) && v.round <= peak && v.parents.Keys <= T
      ensures v.hash in T
    {
      assert v in Received(ops);
      assert v.parents.Keys * C == {};
    }
    RunLeast(g, ops, T);
  }

  function Next(cycle: seq<Vertex>, k: nat): Vertex
    requires k < |cycle|
  {
    if k + 1 < |cycle| then cycle[k + 1] else cycle[0]
  }

  /** Each vertex of `cycle` names the next one as a parent, and the last names the first. */
  ghost predicate IsCycle(cycle: seq<Vertex>) {
    cycle != [] && forall k | 0 <= k < |cycle| :: Next(cycle, k).hash in cycle[k].parents
  }

  lemma NextOnCycle(cycle: seq<Vertex>, h: VertexHash) returns (w: Vertex, p: VertexHash)
    requires IsCycle(cycle) && h in HashesOf(cycle)
    ensures w in SetOf(cycle) && w.hash == h && p in w.parents && p in HashesOf(cycle)
  {
    w :| w in cycle && w.hash == h;
    var k :| 0 <= k < |cycle| && cycle[k] == w;
    assert Next(cycle, k) in cycle;
    p := Next(cycle, k).hash;
  }

  lemma CycleUnfounded(g: Vertex, vs: set<Vertex>, cycle: seq<Vertex>)
    requires ValidGenesis(g) && Consistent({g} + vs) && IsCycle(cycle) && SetOf(cycle) <= vs
    ensures Unfounded(g, vs, HashesOf(cycle))
  {
    var C := HashesOf(cycle);
    forall v | v in {g} + vs && v.hash in C
      ensures v.parents.Keys * C != {}
    {
      var w, p := NextOnCycle(cycle, v.hash);
      assert w in {g} + vs;
      assert p in v.parents.Keys * C;
    }
    assert g.parents.Keys * C == {};
  }

  /** A received vertex that lies on a cycle of parents, or is its own parent, is never
      delivered, although no round is ever compared. */
  lemma CycleNeverDelivered(g: Vertex, ops: seq<Op>, cycle: seq<Vertex>)
    requires ValidGenesis(g) && Consistent({g} + Received(ops))
    requires IsCycle(cycle) && SetOf(cycle) <= Received(ops)
    ensures Hashes(Run(g, ops).dag) !! HashesOf(cycle)
  {
    ConsistentSubset(Received(ops), {g} + Received(ops));
    CycleUnfounded(g, Received(ops), cycle);
    UnfoundedNeverDelivered(g, ops, HashesOf(cycle));
  }

  lemma WalkUnfounded(g: Vertex, vs: set<Vertex>, d: Dag, inserted: set<Vertex>, path: seq<VertexHash>)
    requires ValidGenesis(g) && Consistent({g} + vs) && g in inserted && inserted <= {g} + vs
    requires StrongMatches(d, inserted) && IsWalk(d, path) && path[0] == path[|path| - 1]
    ensures Unfounded(g, vs, set h | h in path)
  {
    var C := set h | h in path;
    forall v | v in {g} + vs && v.hash in C
      ensures v.parents.Keys * C != {}
    {
      var i :| 0 <= i < |path| && path[i] == v.hash;
      var k := if i == |path| - 1 then 0 else i;
      assert path[k] == v.hash && path[k + 1] in Edges(d.strongEdges, path[k]);
      assert path[k] in HashSet(inserted);
      var w :| w in inserted && w.hash == path[k];
      assert Edges(d.strongEdges, w.hash) == w.parents.Keys;
      assert path[k + 1] in v.parents.Keys * C;
    }
    assert g.parents.Keys * C == {};
  }

  lemma WalkStart(d: Dag, inserted: set<Vertex>, path: seq<VertexHash>)
    requires StrongMatches(d, inserted) && IsWalk(d, path)
    ensures path[0] in HashSet(inserted) && path[0] in set h | h in path
  {
    assert path[0 + 1] in Edges(d.strongEdges, path[0]);
  }

  /** The strong edges of every reachable DAG are acyclic. */
  lemma StrongEdgesAcyclic(g: Vertex, ops: seq<Op>, path: seq<VertexHash>)
    requires ValidGenesis(g) && Consistent({g} + Received(ops))
    requires IsWalk(Run(g, ops).dag, path)
    ensures path[0] != path[|path| - 1]
  {
    var n := Run(g, ops);
    RunMatches(g, ops);
    ConsistentSubset(Received(ops), {g} + Received(ops));
    if path[0] == path[|path| - 1] {
      WalkUnfounded(g, Received(ops), n.dag, {g} + SetOf(n.log), path);
      UnfoundedNeverDelivered(g, ops, set h | h in path);
      StoresHashes(n.dag, {g} + SetOf(n.log));
      WalkStart(n.dag, {g} + SetOf(n.log), path);
    }
  }

  // ----- eventual delivery -----

  ghost predicate AncestorClosed(g: Vertex, vs: set<Vertex>) {
    forall v, p | v in vs && p in v.parents.Keys :: p == g.hash || p in HashSet(vs)
  }

  /** No non-empty set of hashes of `vs` is unfounded: descending through parents ends. */
  ghost predicate WellFounded(g: Vertex, vs: set<Vertex>) {
    forall C | C <= HashSet(vs) && Unfounded(g, vs, C) :: C == {}
  }

  lemma ReceivedClosed(g: Vertex, ops: seq<Op>)
    requires Consistent(Received(ops)) && Unmarked(ops)
    ensures Closed(g, Received(ops), Run(g, ops).currentRound, Hashes(Run(g, ops).dag))
  {
    var n, vs := Run(g, ops), Received(ops);
    RunClosed(g, ops);
    RunAccepted(g, ops);
    UnmarkedRun(g, ops);
    assert vs + SetOf(n.accepted) == vs;
    SameClosed(g, vs, SetOf(n.accepted), n.currentRound, Hashes(n.dag));
  }

  lemma FoundedIsDelivered(g: Vertex, ops: seq<Op>)
    requires Consistent({g} + Received(ops)) && Unmarked(ops)
    requires forall v | v in Received(ops) :: v.round <= Run(g, ops).currentRound
    requires AncestorClosed(g, Received(ops)) && WellFounded(g, Received(ops))
    ensures HashSet(Received(ops)) <= Hashes(Run(g, ops).dag)
  {
    var n, vs := Run(g, ops), Received(ops);
    ConsistentSubset(vs, {g} + vs);
    ReceivedClosed(g, ops);
    var C := HashSet(vs) - Hashes(n.dag);
    forall v | v in vs && v.hash in C
      ensures v.parents.Keys * C != {}
    {
      var p :| p in v.parents.Keys && p !in Hashes(n.dag);
      assert p in v.parents.Keys * C;
    }
    assert Unfounded(g, vs, C);
  }

  lemma StoredReceived(g: Vertex, ops: seq<Op>)
    requires ValidGenesis(g) && Consistent({g} + Received(ops))
    ensures Hashes(Run(g, ops).dag) <= HashSet({g} + Received(ops))
  {
    RunMatches(g, ops);
    StoresHashes(Run(g, ops).dag, {g} + SetOf(Run(g, ops).log));
  }

  /** A parent of a stored vertex is stored. */
  lemma ParentStored(g: Vertex, ops: seq<Op>, v: Vertex, p: VertexHash)
    requires ValidGenesis(g) && Consistent({g} + Received(ops)) && v in {g} + Received(ops)
    requires v.hash in Hashes(Run(g, ops).dag) && p in v.parents.Keys
    ensures p in Hashes(Run(g, ops).dag)
  {
    var n := Run(g, ops);
    ConsistentSubset(Received(ops), {g} + Received(ops));
    RunMatches(g, ops);
    assert g in {g} + Received(ops);
    if v.hash != g.hash {
      Conservation(g, ops);
      var i := Logged(g, n, v.hash);
      assert n.log[i] in SetOf(n.log);
    }
  }

  lemma AllDeliveredIsFounded(g: Vertex, ops: seq<Op>)
    requires Consistent({g} + Received(ops)) && ValidGenesis(g)
    requires HashSet(Received(ops)) <= Hashes(Run(g, ops).dag)
    ensures AncestorClosed(g, Received(ops)) && WellFounded(g, Received(ops))
  {
    var vs := Received(ops);
    ConsistentSubset(vs, {g} + vs);
    StoredReceived(g, ops);
    forall v, p | v in vs && p in v.parents.Keys
      ensures p == g.hash || p in HashSet(vs)
    {
      assert v.hash in HashSet(vs);
      ParentStored(g, ops, v, p);
    }
    forall C | C <= HashSet(vs) && Unfounded(g, vs, C)
      ensures C == {}
    {
      UnfoundedNeverDelivered(g, ops, C);
    }
  }

  /** Once the round has reached every received vertex, everything received is delivered
      exactly when it is ancestor-closed and well-founded, whatever the arrival order. */
  lemma EventualDelivery(g: Vertex, ops: seq<Op>)
    requires ValidGenesis(g) && Consistent({g} + Received(ops)) && Unmarked(ops)
    requires forall v | v in Received(ops) :: v.round <= Run(g, ops).currentRound
    ensures Run(g, ops).buffer == [] <==> HashSet(Received(ops)) <= Hashes(Run(g, ops).dag)
    ensures Run(g, ops).buffer == [] <==> AncestorClosed(g, Received(ops)) && WellFounded(g, Received(ops))
  {
    var n, vs := Run(g, ops), Received(ops);
    ConsistentSubset(vs, {g} + vs);
    UnmarkedSummary(g, ops);
    RunHashes(g, ops);
    assert n.buffer == [] <==> HashesOf(n.buffer) == {} by {
      if n.buffer != [] {
        assert n.buffer[0] in n.buffer;
        assert n.buffer[0].hash in HashesOf(n.buffer);
      }
    }
    if HashSet(vs) <= Hashes(n.dag) {
      AllDeliveredIsFounded(g, ops);
    }
    if AncestorClosed(g, vs) && WellFounded(g, vs) {
      FoundedIsDelivered(g, ops);
    }
  }

  /** A vertex built on the strong parents of the round before the current one is stored
      at once, whatever is buffered. */
  lemma OwnVertexDelivered(g: Vertex, ops: seq<Op>, v: Vertex)
    requires Consistent(Received(ops) + {v})
    requires v.hash !in Run(g, ops).delivered && v.round == Run(g, ops).currentRound
    requires v.parents.Keys <= if v.round == 0 then {} else At(Run(g, ops).dag, v.round - 1).Keys
    ensures v.hash in Hashes(Run(g, ops + [Add(v)]).dag)
  {
    var n := Run(g, ops);
    var more := ops + [Add(v)];
    assert more[..|ops|] == ops && more[|ops|] == Add(v);
    forall p | p in v.parents.Keys
      ensures p in Hashes(n.dag)
    {
      StoredHash(n.dag, v.round - 1, p);
    }
    var m := n.(accepted := n.accepted + [v]);
    assert Ready(m, v);
    InsertHashes(m.dag, v);
    DrainContract(Deliver(m, v));
  }

  // ----- where agreement ends -----

  function Advancing(k: nat): (ops: seq<Op>)
    ensures |ops| == k && forall op | op in ops :: op == Advance
  {
    if k == 0 then [] else Advancing(k - 1) + [Advance]
  }

  lemma {:induction false} AdvancesConcat(a: seq<Op>, b: seq<Op>)
    ensures Advances(a + b) == Advances(a) + Advances(b)
    decreases |b|
  {
    if b == [] {
      assert a + b == a;
    } else {
      assert (a + b)[..|a + b| - 1] == a + b[..|b| - 1];
      AdvancesConcat(a, b[..|b| - 1]);
    }
  }

  lemma {:induction false} AdvancingAdvances(k: nat)
    ensures Advances(Advancing(k)) == k
  {
    if k == 0 {
    } else {
      var ops := Advancing(k - 1);
      assert (ops + [Advance])[..|ops|] == ops;
      AdvancingAdvances(k - 1);
    }
  }

  lemma {:induction false} DeliveredStays(g: Vertex, ops: seq<Op>, k: nat)
    ensures Run(g, ops).delivered <= Run(g, ops + Advancing(k)).delivered
  {
    if k == 0 {
      assert ops + Advancing(0) == ops;
    } else {
      var longer := ops + Advancing(k);
      assert longer == (ops + Advancing(k - 1)) + [Advance];
      assert longer[..|longer| - 1] == ops + Advancing(k - 1);
      DeliveredStays(g, ops, k - 1);
      AdvanceHistory(Run(g, ops + Advancing(k - 1)));
    }
  }

  /** A vertex of the highest round, without parents. */
  function TopVertex(g: Vertex, h: VertexHash): Vertex {
    g.(hash := h, parents := map[], round := U64_MAX)
  }

  /** After k advances a vertex of the highest round is delivered on arrival exactly when
      the counter stands at its highest value. */
  lemma TopVertexArrives(g: Vertex, h: VertexHash, k: nat)
    requires h != g.hash
    ensures h in Run(g, Advancing(k) + [Add(TopVertex(g, h))]).delivered <==> k % U64_LIMIT == U64_MAX
  {
    var ops, v := Advancing(k), TopVertex(g, h);
    var n, more := Run(g, ops), ops + [Add(v)];
    assert more[..|ops|] == ops && more[|ops|] == Add(v);
    assert Received(ops) == {} && Marked(ops) == {};
    AdvancingAdvances(k);
    RunAccepted(g, ops);
    DeliveredExact(g, ops);
    RunHashes(g, ops);
    assert SetOf(n.accepted) == {};
    assert h !in n.delivered;
    if k % U64_LIMIT == U64_MAX {
      var m := n.(accepted := n.accepted + [v]);
      assert Ready(m, v);
      DrainContract(Deliver(m, v));
    }
  }

  /** Receive one vertex between a and b advances. */
  function Receiving(a: nat, v: Vertex, b: nat): seq<Op> {
    Advancing(a) + [Add(v)] + Advancing(b)
  }

  lemma ReceivingAdvances(a: nat, v: Vertex, b: nat)
    ensures Advances(Receiving(a, v, b)) == a + b
  {
    AdvancesConcat(Advancing(a) + [Add(v)], Advancing(b));
    AdvancesConcat(Advancing(a), [Add(v)]);
    assert [Add(v)][..0] == [];
    AdvancingAdvances(a);
    AdvancingAdvances(b);
  }

  lemma ReceivingReceived(a: nat, v: Vertex, b: nat)
    ensures Unmarked(Receiving(a, v, b)) && Received(Receiving(a, v, b)) == {v}
  {
    var ops := Receiving(a, v, b);
    assert ops[a] == Add(v);
    assert forall op :: op in ops ==> op == Advance || op == Add(v);
  }

  function OtherHash(h: VertexHash): (r: VertexHash)
    ensures r != h
  {
    var r := VertexHash(h.bytes[0 := if h.bytes[0] == 0 then 1 else 0]);
    assert r.bytes[0] != h.bytes[0];
    r
  }

  lemma StoredIsDelivered(g: Vertex, a: nat, v: Vertex, b: nat)
    ensures Run(g, Receiving(a, v, b)).delivered == Hashes(Run(g, Receiving(a, v, b)).dag)
  {
    ReceivingReceived(a, v, b);
    UnmarkedRun(g, Receiving(a, v, b));
  }

  lemma ReceivingOne(g: Vertex, a: nat, v: Vertex, b: nat)
    requires g.hash != v.hash
    ensures Unmarked(Receiving(a, v, b)) && Received(Receiving(a, v, b)) == {v}
    ensures Advances(Receiving(a, v, b)) == a + b && Consistent({g} + {v})
  {
    ReceivingAdvances(a, v, b);
    ReceivingReceived(a, v, b);
  }

  lemma EarlyStored(g: Vertex, h: VertexHash, k: nat)
    requires h != g.hash && k >= U64_MAX
    ensures h in Hashes(Run(g, Receiving(U64_MAX, TopVertex(g, h), k - U64_MAX)).dag)
  {
    var v := TopVertex(g, h);
    TopVertexArrives(g, h, U64_MAX);
    DeliveredStays(g, Advancing(U64_MAX) + [Add(v)], k - U64_MAX);
    StoredIsDelivered(g, U64_MAX, v, k - U64_MAX);
  }

  lemma LateMissing(g: Vertex, h: VertexHash, k: nat)
    requires h != g.hash && !AtPeak(k)
    ensures h !in Hashes(Run(g, Receiving(k, TopVertex(g, h), 0)).dag)
  {
    var v := TopVertex(g, h);
    TopVertexArrives(g, h, k);
    assert Receiving(k, v, 0) == Advancing(k) + [Add(v)];
    StoredIsDelivered(g, k, v, 0);
  }

  /** One node receives v early, the other late. */
  lemma ReceivingBoth(g: Vertex, v: Vertex, k: nat)
    requires g.hash != v.hash && k >= U64_MAX
    ensures var ops, ops' := Receiving(U64_MAX, v, k - U64_MAX), Receiving(k, v, 0);
      && Unmarked(ops) && Unmarked(ops') && Received(ops) == Received(ops')
      && Consistent({g} + Received(ops) + Received(ops')) && Advances(ops) == Advances(ops') == k
  {
    ReceivingOne(g, U64_MAX, v, k - U64_MAX);
    ReceivingOne(g, k, v, 0);
    assert {g} + {v} + {v} == {g} + {v};
  }

  lemma DifferentStores(n: Node, m: Node, h: VertexHash)
    requires h in Hashes(n.dag) && h !in Hashes(m.dag)
    ensures !SameStores(n, m)
  {
  }

  lemma LateDiffers(g: Vertex, h: VertexHash, k: nat)
    requires h != g.hash && !AtPeak(k)
    ensures !SameStores(Run(g, Receiving(U64_MAX, TopVertex(g, h), k - U64_MAX)),
                        Run(g, Receiving(k, TopVertex(g, h), 0)))
  {
    EarlyStored(g, h, k);
    LateMissing(g, h, k);
    DifferentStores(Run(g, Receiving(U64_MAX, TopVertex(g, h), k - U64_MAX)),
                    Run(g, Receiving(k, TopVertex(g, h), 0)), h);
  }

  /** The hypothesis of NodesAgree on the number of advances is exact: for any other number
      there are two runs that receive the same one vertex and do not agree. */
  lemma DisagreementAfterWrap(g: Vertex, k: nat) returns (ops: seq<Op>, ops': seq<Op>)
    requires ValidGenesis(g) && !AtPeak(k)
    ensures Unmarked(ops) && Unmarked(ops') && Received(ops) == Received(ops')
    ensures Consistent({g} + Received(ops) + Received(ops'))
    ensures Advances(ops) == Advances(ops') == k
    ensures !SameStores(Run(g, ops), Run(g, ops'))
  {
    var h := OtherHash(g.hash);
    ops, ops' := Receiving(U64_MAX, TopVertex(g, h), k - U64_MAX), Receiving(k, TopVertex(g, h), 0);
    ReceivingBoth(g, TopVertex(g, h), k);
    LateDiffers(g, h, k);
  }
}
