// The delivery state machine of pkg/consensus/state.go on values: what one operation
// makes of a node, and what every operation keeps.
module Delivery {
  import opened Model
  import opened DagSpec

  /** A node's state. `accepted` and `log` are history: the vertices AddVertex did not
      ignore, in arrival order, and the vertices inserted into the DAG, in that order. */
  datatype Node = Node(
    dag: Dag,
    currentRound: u64,
    delivered: set<VertexHash>,
    buffer: seq<Vertex>,
    accepted: seq<Vertex>,
    log: seq<Vertex>)

  ghost function Init(g: Vertex): Node {
    Node(New(g), 0, {g.hash}, [], [], [])
  }

  /** The delivery test: the round is reached and every parent is in the DAG. */
  ghost predicate Ready(n: Node, v: Vertex) {
    v.round <= n.currentRound && v.parents.Keys <= Hashes(n.dag)
  }

  ghost function Deliver(n: Node, v: Vertex): Node {
    n.(dag := Insert(n.dag, v), delivered := n.delivered + {v.hash}, log := n.log + [v])
  }

  /** One pass over the buffer: the node after it, and the vertices that stay. */
  ghost function Pass(n: Node, todo: seq<Vertex>): (Node, seq<Vertex>)
    decreases |todo|
  {
    if todo == [] then (n, [])
    else if Ready(n, todo[0]) then Pass(Deliver(n, todo[0]), todo[1..])
    else
      var (n', rest) := Pass(n, todo[1..]);
      (n', [todo[0]] + rest)
  }

  lemma PassShrinks(n: Node, todo: seq<Vertex>)
    ensures |Pass(n, todo).1| <= |todo|
    decreases |todo|
  {
  }

  /** Passes are repeated until one of them inserts nothing. */
  ghost function Drain(n: Node): Node
    decreases |n.buffer|
  {
    var (n', rest) := Pass(n, n.buffer);
    PassShrinks(n, n.buffer);
    if |rest| == |n.buffer| then n'.(buffer := rest) else Drain(n'.(buffer := rest))
  }

  ghost function AddVertex(n: Node, v: Vertex): Node {
    if v.hash in n.delivered then n
    else
      var m := n.(accepted := n.accepted + [v]);
      if Ready(m, v) then Drain(Deliver(m, v)) else m.(buffer := m.buffer + [v])
  }

  ghost function AdvanceRound(n: Node): Node {
    Drain(n.(currentRound := Wrap(n.currentRound + 1)))
  }

  ghost function MarkDelivered(n: Node, h: VertexHash): Node {
    n.(delivered := n.delivered + {h})
  }

  // ----- runs -----

  datatype Op = Add(v: Vertex) | Advance | Mark(h: VertexHash)

  ghost function Step(n: Node, op: Op): Node {
    match op
    case Add(v) => AddVertex(n, v)
    case Advance => AdvanceRound(n)
    case Mark(h) => MarkDelivered(n, h)
  }

  ghost function Run(g: Vertex, ops: seq<Op>): Node {
    if ops == [] then Init(g) else Step(Run(g, ops[..|ops| - 1]), ops[|ops| - 1])
  }

  ghost function Received(ops: seq<Op>): set<Vertex> {
    set op | op in ops && op.Add? :: op.v
  }

  ghost function Advances(ops: seq<Op>): nat {
    if ops == [] then 0
    else Advances(ops[..|ops| - 1]) + if ops[|ops| - 1].Advance? then 1 else 0
  }

  /** The highest round a node has been in after `k` advances, given that the counter wraps. */
  function Peak(k: nat): u64 {
    if k < U64_LIMIT then k else U64_MAX
  }

  // ----- the invariant -----

  /** Every parent of a logged vertex is the genesis vertex or was logged earlier. */
  ghost predicate Topological(g: Vertex, log: seq<Vertex>) {
    forall i, p | 0 <= i < |log| && p in log[i].parents.Keys ::
      p == g.hash || exists j :: 0 <= j < i && log[j].hash == p
  }

  /** What holds between any two insertions, `pending` being the vertices not yet placed. */
  ghost predicate Core(g: Vertex, n: Node, pending: multiset<Vertex>, peak: u64) {
    && n.dag == InsertAll(New(g), n.log)
    && Hashes(n.dag) == {g.hash} + HashesOf(n.log)
    && Hashes(n.dag) <= n.delivered
    && Topological(g, n.log)
    && (forall v | v in n.log :: v.round <= peak)
    && multiset(n.accepted) == multiset(n.log) + pending
    && g.hash !in HashesOf(n.accepted)
  }

  /** What holds between operations. Nothing in the buffer is ready or already stored. */
  ghost predicate Inv(g: Vertex, n: Node, peak: u64) {
    && Core(g, n, multiset(n.buffer), peak)
    && n.currentRound <= peak
    && (forall v | v in n.buffer :: !Ready(n, v))
    && (forall v | v in n.buffer :: v.hash !in Hashes(n.dag))
  }

  // ----- one insertion, one pass, one drain -----

  lemma TopologicalSnoc(g: Vertex, log: seq<Vertex>, v: Vertex)
    requires Topological(g, log) && v.parents.Keys <= {g.hash} + HashesOf(log)
    ensures Topological(g, log + [v])
  {
    var more := log + [v];
    forall i, p | 0 <= i < |more| && p in more[i].parents.Keys
      ensures p == g.hash || exists j :: 0 <= j < i && more[j].hash == p
    {
      if p != g.hash {
        if i < |log| {
          assert more[i] == log[i];
          var j :| 0 <= j < i && log[j].hash == p;
          assert more[j].hash == p;
        } else {
          assert p in HashesOf(log);
          var w :| w in log && w.hash == p;
          var j :| 0 <= j < |log| && log[j] == w;
          assert more[j].hash == p;
        }
      }
    }
  }

  lemma DeliverKeeps(g: Vertex, n: Node, v: Vertex, pending: multiset<Vertex>, peak: u64)
    requires Core(g, n, pending, peak) && v in pending && Ready(n, v) && n.currentRound <= peak
    ensures Core(g, Deliver(n, v), pending - multiset{v}, peak)
  {
    InsertAllSnoc(New(g), n.log, v);
    InsertHashes(n.dag, v);
    HashesOfSnoc(n.log, v);
    TopologicalSnoc(g, n.log, v);
    assert forall w :: w in n.log + [v] <==> w in n.log || w == v;
    assert multiset(n.log + [v]) == multiset(n.log) + multiset{v};
  }

  /** From n to n' exactly the vertices `ins` were inserted, in this order. */
  ghost predicate Inserts(n: Node, n': Node, ins: seq<Vertex>) {
    && n'.currentRound == n.currentRound && n'.accepted == n.accepted
    && n'.log == n.log + ins
    && n'.delivered == n.delivered + HashesOf(ins)
    && Hashes(n'.dag) == Hashes(n.dag) + HashesOf(ins)
    && (forall v | v in ins :: v.round <= n.currentRound)
  }

  /** What was inserted between two states of a run. */
  ghost function Since(n: Node, n': Node): seq<Vertex> {
    if |n.log| <= |n'.log| then n'.log[|n.log|..] else []
  }

  lemma InsertsTrans(n: Node, m: Node, n': Node, a: seq<Vertex>, b: seq<Vertex>)
    requires Inserts(n, m, a) && Inserts(m, n', b)
    ensures Inserts(n, n', a + b)
    ensures Since(n, n') == a + b
  {
    HashesOfAppend(a, b);
    assert n.log + a + b == n.log + (a + b);
    assert n.delivered + HashesOf(a) + HashesOf(b) == n.delivered + (HashesOf(a) + HashesOf(b));
    assert Hashes(n.dag) + HashesOf(a) + HashesOf(b) == Hashes(n.dag) + (HashesOf(a) + HashesOf(b));
  }

  lemma DeliverInserts(n: Node, v: Vertex)
    requires Ready(n, v)
    ensures Inserts(n, Deliver(n, v), [v])
  {
    InsertHashes(n.dag, v);
    assert HashesOf([v]) == {v.hash};
  }

  /** One pass: it splits `todo` into what it inserts and what it keeps, and what it keeps
      was not ready at the start. */
  ghost predicate PassFrame(n: Node, todo: seq<Vertex>, n': Node, rest: seq<Vertex>) {
    && Inserts(n, n', Since(n, n')) && n'.buffer == n.buffer
    && multiset(todo) == multiset(Since(n, n')) + multiset(rest)
    && (forall v | v in rest :: !Ready(n, v))
    && (|rest| == |todo| ==> n' == n && rest == todo)
  }

  lemma PassFrameDeliver(n: Node, v: Vertex, tail: seq<Vertex>, n': Node, rest: seq<Vertex>)
    requires Ready(n, v) && PassFrame(Deliver(n, v), tail, n', rest) && |rest| <= |tail|
    ensures PassFrame(n, [v] + tail, n', rest)
  {
    var m := Deliver(n, v);
    DeliverInserts(n, v);
    InsertsTrans(n, m, n', [v], Since(m, n'));
    assert multiset([v] + tail) == multiset{v} + multiset(tail);
    assert multiset([v] + Since(m, n')) == multiset{v} + multiset(Since(m, n'));
  }

  lemma PassFrameSkip(n: Node, v: Vertex, tail: seq<Vertex>, n': Node, rest: seq<Vertex>)
    requires !Ready(n, v) && PassFrame(n, tail, n', rest)
    ensures PassFrame(n, [v] + tail, n', [v] + rest)
  {
    assert multiset([v] + tail) == multiset{v} + multiset(tail);
    assert multiset([v] + rest) == multiset{v} + multiset(rest);
  }

  lemma {:induction false} PassContract(n: Node, todo: seq<Vertex>)
    ensures PassFrame(n, todo, Pass(n, todo).0, Pass(n, todo).1)
    decreases |todo|
  {
    if todo == [] {
    } else {
      var v, tail := todo[0], todo[1..];
      assert todo == [v] + tail;
      var m := if Ready(n, v) then Deliver(n, v) else n;
      PassContract(m, tail);
      PassShrinks(m, tail);
      if Ready(n, v) {
        PassFrameDeliver(n, v, tail, Pass(m, tail).0, Pass(m, tail).1);
      } else {
        PassFrameSkip(n, v, tail, Pass(m, tail).0, Pass(m, tail).1);
      }
    }
  }

  lemma Cons(v: Vertex, rest: seq<Vertex>, more: multiset<Vertex>)
    ensures multiset([v] + rest) + more == multiset(rest) + (more + multiset{v})
  {
  }

  lemma Uncons(todo: seq<Vertex>, more: multiset<Vertex>)
    requires todo != []
    ensures multiset(todo) + more - multiset{todo[0]} == multiset(todo[1..]) + more
    ensures multiset(todo) + more == multiset(todo[1..]) + (more + multiset{todo[0]})
  {
    assert todo == [todo[0]] + todo[1..];
  }

  lemma {:induction false} PassKeeps(g: Vertex, n: Node, todo: seq<Vertex>, more: multiset<Vertex>, peak: u64)
    requires Core(g, n, multiset(todo) + more, peak) && n.currentRound <= peak
    ensures Core(g, Pass(n, todo).0, multiset(Pass(n, todo).1) + more, peak)
    decreases |todo|
  {
    if todo == [] {
    } else {
      var v, tail := todo[0], todo[1..];
      Uncons(todo, more);
      if Ready(n, v) {
        DeliverKeeps(g, n, v, multiset(todo) + more, peak);
        PassKeeps(g, Deliver(n, v), tail, more, peak);
      } else {
        PassKeeps(g, n, tail, more + multiset{v}, peak);
        Cons(v, Pass(n, tail).1, more);
      }
    }
  }

  /** A whole drain: it splits the buffer likewise, and nothing it keeps is ready. */
  ghost predicate DrainFrame(n: Node, n': Node) {
    && Inserts(n, n', Since(n, n'))
    && multiset(n.buffer) == multiset(Since(n, n')) + multiset(n'.buffer)
    && (forall v | v in n'.buffer :: !Ready(n', v))
  }

  /** A pass and a drain of what it kept make a drain. */
  lemma DrainFrameStep(n: Node, m: Node, rest: seq<Vertex>, n': Node)
    requires PassFrame(n, n.buffer, m, rest) && DrainFrame(m.(buffer := rest), n')
    ensures DrainFrame(n, n')
  {
    var k := m.(buffer := rest);
    assert Inserts(n, k, Since(n, m));
    InsertsTrans(n, k, n', Since(n, m), Since(k, n'));
    assert multiset(Since(n, m) + Since(k, n')) == multiset(Since(n, m)) + multiset(Since(k, n'));
  }

  lemma {:induction false} DrainContract(n: Node)
    ensures DrainFrame(n, Drain(n))
    decreases |n.buffer|
  {
    var (m, rest) := Pass(n, n.buffer);
    PassShrinks(n, n.buffer);
    PassContract(n, n.buffer);
    if |rest| == |n.buffer| {
      assert n.log[|n.log|..] == [];
    } else {
      DrainContract(m.(buffer := rest));
      DrainFrameStep(n, m, rest, Drain(n));
    }
  }

  lemma {:induction false} DrainKeeps(g: Vertex, n: Node, peak: u64)
    requires Core(g, n, multiset(n.buffer), peak) && n.currentRound <= peak
    ensures Core(g, Drain(n), multiset(Drain(n).buffer), peak)
    decreases |n.buffer|
  {
    var (m, rest) := Pass(n, n.buffer);
    PassShrinks(n, n.buffer);
    assert multiset(n.buffer) + multiset{} == multiset(n.buffer);
    PassKeeps(g, n, n.buffer, multiset{}, peak);
    PassContract(n, n.buffer);
    assert Core(g, m.(buffer := rest), multiset(rest), peak) by {
      assert multiset(rest) + multiset{} == multiset(rest);
    }
    if |rest| != |n.buffer| {
      DrainKeeps(g, m.(buffer := rest), peak);
    }
  }
}
