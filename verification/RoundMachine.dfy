// The consensus coordinator of pkg/consensus/consensus.go: rounds driven by vertices and
// jumped by blocks, over a store that only grows.
module RoundMachine {
  import opened Model
  import opened DagSpec
  import opened Identity
  import opened Store

  /** `created` and `heights` are history: the blocks made by handleVertex and the heights
      of the blocks handled. */
  datatype Machine = Machine(
    dag: Dag,
    round: u64,
    lastBlock: Option<BlockHash>,
    created: seq<Block>,
    heights: seq<u64>)

  datatype Committee = Committee(H: Hasher, size: nat)

  datatype Event = VertexMessage(v: Vertex) | BlockMessage(b: Block)

  ghost function Init(g: Vertex, initialRound: u64): Machine {
    Machine(New(g), initialRound, None, [], [])
  }

  /** With v stored, the current round holds at least as many vertices as there are
      validators. */
  ghost predicate Fills(c: Committee, m: Machine, v: Vertex) {
    |At(Insert(m.dag, v), m.round)| >= c.size
  }

  ghost function OnVertex(c: Committee, m: Machine, v: Vertex): Machine {
    var stored := m.(dag := Insert(m.dag, v));
    if Fills(c, m, v) then
      var block := NewBlock(c.H, m.round, []);
      stored.(lastBlock := block.hash, created := m.created + [block], round := Wrap(m.round + 1))
    else stored
  }

  ghost function OnBlock(c: Committee, m: Machine, b: Block): Machine {
    m.(lastBlock := Some(HashOfBlock(c.H, b)),
       heights := m.heights + [b.height],
       round := if b.height >= m.round then b.height else m.round)
  }

  ghost function Step(c: Committee, m: Machine, e: Event): Machine {
    match e
    case VertexMessage(v) => OnVertex(c, m, v)
    case BlockMessage(b) => OnBlock(c, m, b)
  }

  ghost function Run(c: Committee, m: Machine, events: seq<Event>): Machine {
    if events == [] then m
    else Step(c, Run(c, m, events[..|events| - 1]), events[|events| - 1])
  }

  // ----- when a round decreases -----

  /** A vertex fills the highest 64-bit round. */
  ghost predicate Overflows(c: Committee, m: Machine, e: Event) {
    e.VertexMessage? && m.round == U64_MAX && Fills(c, m, e.v)
  }

  lemma StepRound(c: Committee, m: Machine, e: Event)
    ensures Step(c, m, e).round ==
      match e
      case VertexMessage(v) => if Fills(c, m, v) then Wrap(m.round + 1) else m.round
      case BlockMessage(b) => if b.height >= m.round then b.height else m.round
  {
  }

  lemma WrapFalls(r: u64)
    ensures Wrap(r + 1) < r <==> r == U64_MAX
    ensures r == U64_MAX ==> Wrap(r + 1) == 0
  {
  }

  /** One step lowers the round exactly when a vertex fills the highest round. */
  lemma DecreaseExact(c: Committee, m: Machine, e: Event)
    ensures Step(c, m, e).round < m.round <==> Overflows(c, m, e)
    ensures Overflows(c, m, e) ==> Step(c, m, e).round == 0
  {
    StepRound(c, m, e);
    WrapFalls(m.round);
  }

  ghost predicate NeverOverflows(c: Committee, m: Machine, events: seq<Event>) {
    forall i | 0 <= i < |events| :: !Overflows(c, Run(c, m, events[..i]), events[i])
  }

  /** The rounds before and after each event, and so along the whole run, never fall. */
  ghost predicate NeverFalls(c: Committee, m: Machine, events: seq<Event>) {
    forall i, j | 0 <= i <= j <= |events| :: Run(c, m, events[..i]).round <= Run(c, m, events[..j]).round
  }

  lemma RunStep(c: Committee, m: Machine, events: seq<Event>, i: nat)
    requires i < |events|
    ensures Run(c, m, events[..i + 1]) == Step(c, Run(c, m, events[..i]), events[i])
  {
    assert events[..i + 1][..i] == events[..i];
  }

  lemma StepClimbs(c: Committee, m: Machine, events: seq<Event>, i: nat)
    requires i < |events| && !Overflows(c, Run(c, m, events[..i]), events[i])
    ensures Run(c, m, events[..i]).round <= Run(c, m, events[..i + 1]).round
  {
    RunStep(c, m, events, i);
    DecreaseExact(c, Run(c, m, events[..i]), events[i]);
  }

  lemma {:induction false} Climb(rounds: seq<u64>, i: nat, j: nat)
    requires forall k | 0 <= k < |rounds| - 1 :: rounds[k] <= rounds[k + 1]
    requires i <= j < |rounds|
    ensures rounds[i] <= rounds[j]
    decreases j
  {
    if i < j {
      Climb(rounds, i, j - 1);
    }
  }

  /** The rounds before the first event and after each one. */
  ghost function Rounds(c: Committee, m: Machine, events: seq<Event>): (rounds: seq<u64>)
    ensures |rounds| == |events| + 1
    ensures forall i | 0 <= i <= |events| :: rounds[i] == Run(c, m, events[..i]).round
  {
    seq(|events| + 1, i requires 0 <= i <= |events| => Run(c, m, events[..i]).round)
  }

  lemma OverflowFreeClimbs(c: Committee, m: Machine, events: seq<Event>)
    requires NeverOverflows(c, m, events)
    ensures NeverFalls(c, m, events)
  {
    var rounds := Rounds(c, m, events);
    forall k | 0 <= k < |rounds| - 1
      ensures rounds[k] <= rounds[k + 1]
    {
      StepClimbs(c, m, events, k);
    }
    forall i, j | 0 <= i <= j <= |events|
      ensures Run(c, m, events[..i]).round <= Run(c, m, events[..j]).round
    {
      Climb(rounds, i, j);
    }
  }

  /** Along a run the round never falls exactly when no vertex ever fills the highest
      round. */
  lemma MonotoneExact(c: Committee, m: Machine, events: seq<Event>)
    ensures NeverFalls(c, m, events) <==> NeverOverflows(c, m, events)
  {
    if NeverOverflows(c, m, events) {
      OverflowFreeClimbs(c, m, events);
    }
    if NeverFalls(c, m, events) {
      forall i | 0 <= i < |events|
        ensures !Overflows(c, Run(c, m, events[..i]), events[i])
      {
        RunStep(c, m, events, i);
        DecreaseExact(c, Run(c, m, events[..i]), events[i]);
        assert Run(c, m, events[..i]).round <= Run(c, m, events[..i + 1]).round;
      }
    }
  }

  // ----- history of a run -----

  /** Round r was filled with vertices or jumped by a handled block of greater height. */
  ghost predicate Passed(c: Committee, m: Machine, r: u64) {
    |At(m.dag, r)| >= c.size || exists h :: h in m.heights && h > r
  }

  /** The blocks made, each of a filled round from the initial one on and below the current,
      have strictly increasing heights. */
  ghost predicate Created(c: Committee, initialRound: u64, m: Machine) {
    && (forall i | 0 <= i < |m.created| ::
          initialRound <= m.created[i].height < m.round && |At(m.dag, m.created[i].height)| >= c.size)
    && (forall i, j | 0 <= i < j < |m.created| :: m.created[i].height < m.created[j].height)
  }

  ghost predicate History(c: Committee, initialRound: u64, m: Machine) {
    && initialRound <= m.round
    && (forall r: u64 | initialRound <= r < m.round :: Passed(c, m, r))
    && Created(c, initialRound, m)
  }

  lemma InsertGrows(d: Dag, v: Vertex, r: u64)
    ensures At(d, r).Keys <= At(Insert(d, v), r).Keys
    ensures |At(d, r)| <= |At(Insert(d, v), r)|
  {
    InsertAt(d, v, r);
    SubsetCount(At(d, r).Keys, At(Insert(d, v), r).Keys);
  }

  lemma VertexPassed(c: Committee, m: Machine, v: Vertex, r: u64)
    requires Passed(c, m, r) || (Fills(c, m, v) && r == m.round)
    ensures Passed(c, OnVertex(c, m, v), r)
  {
    InsertGrows(m.dag, v, r);
  }

  lemma VertexCreated(c: Committee, initialRound: u64, m: Machine, v: Vertex)
    requires Created(c, initialRound, m) && initialRound <= m.round && !Overflows(c, m, VertexMessage(v))
    ensures Created(c, initialRound, OnVertex(c, m, v))
  {
    var n := OnVertex(c, m, v);
    assert n.round == if Fills(c, m, v) then m.round + 1 else m.round;
    forall i | 0 <= i < |n.created|
      ensures initialRound <= n.created[i].height < n.round && |At(n.dag, n.created[i].height)| >= c.size
    {
      if i < |m.created| {
        InsertGrows(m.dag, v, m.created[i].height);
      }
    }
  }

  lemma VertexHistory(c: Committee, initialRound: u64, m: Machine, v: Vertex)
    requires History(c, initialRound, m) && !Overflows(c, m, VertexMessage(v))
    ensures History(c, initialRound, OnVertex(c, m, v))
  {
    var n := OnVertex(c, m, v);
    assert n.round == if Fills(c, m, v) then m.round + 1 else m.round;
    VertexCreated(c, initialRound, m, v);
    forall r: u64 | initialRound <= r < n.round
      ensures Passed(c, n, r)
    {
      VertexPassed(c, m, v, r);
    }
  }

  lemma BlockHistory(c: Committee, initialRound: u64, m: Machine, b: Block)
    requires History(c, initialRound, m)
    ensures History(c, initialRound, OnBlock(c, m, b))
  {
    var n := OnBlock(c, m, b);
    assert b.height in n.heights;
    assert forall h :: h in m.heights ==> h in n.heights;
    forall r: u64 | initialRound <= r < n.round
      ensures Passed(c, n, r)
    {
      assert r < m.round ==> Passed(c, m, r);
    }
  }

  lemma PrefixNeverOverflows(c: Committee, m: Machine, events: seq<Event>, k: nat)
    requires NeverOverflows(c, m, events) && k < |events|
    ensures NeverOverflows(c, m, events[..k])
    ensures !Overflows(c, Run(c, m, events[..k]), events[k])
  {
    var before := events[..k];
    forall i | 0 <= i < |before|
      ensures !Overflows(c, Run(c, m, before[..i]), before[i])
    {
      assert before[..i] == events[..i];
    }
  }

  lemma StepHistory(c: Committee, initialRound: u64, m: Machine, e: Event)
    requires History(c, initialRound, m) && !Overflows(c, m, e)
    ensures History(c, initialRound, Step(c, m, e))
  {
    match e
    case VertexMessage(v) => VertexHistory(c, initialRound, m, v);
    case BlockMessage(b) => BlockHistory(c, initialRound, m, b);
  }

  lemma {:induction false} OverflowFreeHistory(c: Committee, g: Vertex, initialRound: u64, events: seq<Event>)
    requires NeverOverflows(c, Init(g, initialRound), events)
    ensures History(c, initialRound, Run(c, Init(g, initialRound), events))
    decreases |events|
  {
    if events == [] {
    } else {
      var m, k := Init(g, initialRound), |events| - 1;
      PrefixNeverOverflows(c, m, events, k);
      OverflowFreeHistory(c, g, initialRound, events[..k]);
      StepHistory(c, initialRound, Run(c, m, events[..k]), events[k]);
    }
  }

  /** A block of the highest height was made. */
  ghost predicate MadeHighest(m: Machine) {
    exists i :: 0 <= i < |m.created| && m.created[i].height == U64_MAX
  }

  lemma StepCreated(c: Committee, m: Machine, e: Event)
    ensures m.created <= Step(c, m, e).created
  {
  }

  lemma OverflowMakes(c: Committee, m: Machine, e: Event)
    requires Overflows(c, m, e)
    ensures MadeHighest(Step(c, m, e))
  {
    assert Step(c, m, e).created[|m.created|].height == U64_MAX;
  }

  /** The blocks made before each event and after the last. */
  ghost function CreatedOver(c: Committee, m: Machine, events: seq<Event>): (made: seq<seq<Block>>)
    ensures |made| == |events| + 1
    ensures forall i | 0 <= i <= |events| :: made[i] == Run(c, m, events[..i]).created
  {
    seq(|events| + 1, i requires 0 <= i <= |events| => Run(c, m, events[..i]).created)
  }

  lemma CreatedStep(c: Committee, m: Machine, events: seq<Event>, i: nat)
    requires i < |events|
    ensures Run(c, m, events[..i]).created <= Run(c, m, events[..i + 1]).created
  {
    RunStep(c, m, events, i);
    StepCreated(c, Run(c, m, events[..i]), events[i]);
  }

  lemma {:induction false} PrefixChain<T>(chain: seq<seq<T>>, i: nat, j: nat)
    requires forall k | 0 <= k < |chain| - 1 :: chain[k] <= chain[k + 1]
    requires i <= j < |chain|
    ensures chain[i] <= chain[j]
    decreases j
  {
    if i == j {
    } else {
      PrefixChain(chain, i, j - 1);
      assert chain[j - 1] <= chain[j - 1 + 1];
    }
  }

  lemma CreatedStays(c: Committee, m: Machine, events: seq<Event>, i: nat)
    requires i <= |events|
    ensures Run(c, m, events[..i]).created <= Run(c, m, events).created
  {
    var made := CreatedOver(c, m, events);
    forall k | 0 <= k < |made| - 1
      ensures made[k] <= made[k + 1]
    {
      CreatedStep(c, m, events, k);
    }
    PrefixChain(made, i, |events|);
    assert events[..|events|] == events;
  }

  lemma MadeStays(m: Machine, n: Machine)
    requires MadeHighest(m) && m.created <= n.created
    ensures MadeHighest(n)
  {
    var i :| 0 <= i < |m.created| && m.created[i].height == U64_MAX;
    assert n.created[i] == m.created[i];
  }

  /** An overflow leaves a block of the highest height, for good. */
  lemma OverflowStays(c: Committee, m: Machine, events: seq<Event>, i: nat)
    requires i < |events| && Overflows(c, Run(c, m, events[..i]), events[i])
    ensures MadeHighest(Run(c, m, events))
  {
    OverflowMakes(c, Run(c, m, events[..i]), events[i]);
    RunStep(c, m, events, i);
    CreatedStays(c, m, events, i + 1);
    MadeStays(Run(c, m, events[..i + 1]), Run(c, m, events));
  }

  lemma HistoryHasNoHighest(c: Committee, initialRound: u64, m: Machine)
    requires MadeHighest(m)
    ensures !History(c, initialRound, m)
  {
    var i :| 0 <= i < |m.created| && m.created[i].height == U64_MAX;
    assert m.created[i].height >= m.round;
  }

  /** A run has this history exactly when no vertex fills the highest round in it: every
      round from the initial one below the current was filled or jumped, and the blocks made
      have strictly increasing heights below the current round, each a filled round. */
  lemma RoundHistory(c: Committee, g: Vertex, initialRound: u64, events: seq<Event>)
    ensures History(c, initialRound, Run(c, Init(g, initialRound), events))
      <==> NeverOverflows(c, Init(g, initialRound), events)
  {
    var m := Init(g, initialRound);
    if NeverOverflows(c, m, events) {
      OverflowFreeHistory(c, g, initialRound, events);
    } else {
      var i :| 0 <= i < |events| && Overflows(c, Run(c, m, events[..i]), events[i]);
      OverflowStays(c, m, events, i);
      HistoryHasNoHighest(c, initialRound, Run(c, m, events));
    }
  }

  // ----- the highest round can be reached -----

  ghost function Messages(vs: seq<Vertex>): seq<Event> {
    if vs == [] then [] else Messages(vs[..|vs| - 1]) + [VertexMessage(vs[|vs| - 1])]
  }

  lemma MessagesSnoc(c: Committee, m: Machine, vs: seq<Vertex>, v: Vertex)
    ensures Run(c, m, Messages(vs + [v])) == OnVertex(c, Run(c, m, Messages(vs)), v)
  {
    assert (vs + [v])[..|vs|] == vs;
    assert (Messages(vs) + [VertexMessage(v)])[..|Messages(vs)|] == Messages(vs);
  }

  lemma InsertFresh(d: Dag, v: Vertex)
    requires v.hash !in At(d, v.round)
    ensures At(Insert(d, v), v.round).Keys == At(d, v.round).Keys + {v.hash}
    ensures |At(Insert(d, v), v.round)| == |At(d, v.round)| + 1
  {
    InsertAt(d, v, v.round);
    assert |At(Insert(d, v), v.round)| == |At(Insert(d, v), v.round).Keys|;
    assert |At(d, v.round)| == |At(d, v.round).Keys|;
  }

  ghost predicate DistinctIn(vs: seq<Vertex>, r: u64) {
    && (forall i | 0 <= i < |vs| :: vs[i].round == r)
    && (forall i, j | 0 <= i < j < |vs| :: vs[i].hash != vs[j].hash)
  }

  lemma DistinctSnoc(vs: seq<Vertex>, v: Vertex, r: u64)
    requires DistinctIn(vs + [v], r)
    ensures DistinctIn(vs, r) && v.round == r && v.hash !in HashesOf(vs)
    ensures HashesOf(vs + [v]) == HashesOf(vs) + {v.hash}
  {
    var more := vs + [v];
    assert forall w :: w in more <==> w in vs || w == v;
    assert more[|vs|] == v;
    forall i | 0 <= i < |vs|
      ensures vs[i].hash != v.hash && vs[i].round == r
    {
      assert more[i] == vs[i];
    }
    forall i, j | 0 <= i < j < |vs|
      ensures vs[i].hash != vs[j].hash
    {
      assert more[i] == vs[i] && more[j] == vs[j];
    }
  }

  /** While fewer vertices than validators of the current round have come in, they are
      counted and the round stays. */
  lemma {:induction false} Gather(c: Committee, m: Machine, vs: seq<Vertex>)
    requires At(m.dag, m.round) == map[] && |vs| < c.size && DistinctIn(vs, m.round)
    ensures Run(c, m, Messages(vs)).round == m.round
    ensures At(Run(c, m, Messages(vs)).dag, m.round).Keys == HashesOf(vs)
    ensures |At(Run(c, m, Messages(vs)).dag, m.round)| == |vs|
    decreases |vs|
  {
    if vs == [] {
      assert HashesOf(vs) == {};
    } else {
      var init, v := vs[..|vs| - 1], vs[|vs| - 1];
      assert vs == init + [v];
      DistinctSnoc(init, v, m.round);
      Gather(c, m, init);
      MessagesSnoc(c, m, init, v);
      InsertFresh(Run(c, m, Messages(init)).dag, v);
    }
  }

  /** One handled block of the highest height, followed by as many vertices of that round as
      there are validators, sends the round back to zero. */
  lemma WrapReachable(c: Committee, g: Vertex, initialRound: u64, b: Block, vs: seq<Vertex>)
    requires b.height == U64_MAX && |vs| == c.size > 0 && DistinctIn(vs, U64_MAX)
    ensures Run(c, Step(c, Init(g, initialRound), BlockMessage(b)), Messages(vs)).round == 0
  {
    var m := Step(c, Init(g, initialRound), BlockMessage(b));
    assert m.round == U64_MAX && m.dag == New(g) && At(m.dag, U64_MAX) == map[];
    var init, v := vs[..|vs| - 1], vs[|vs| - 1];
    assert vs == init + [v];
    DistinctSnoc(init, v, U64_MAX);
    Gather(c, m, init);
    MessagesSnoc(c, m, init, v);
    InsertFresh(Run(c, m, Messages(init)).dag, v);
  }

  // ----- the object -----

  class Coordinator {
    const committee: Committee
    const dag: DAG
    var round: u64
    var lastBlock: Option<BlockHash>
    ghost var created: seq<Block>
    ghost var heights: seq<u64>

    ghost function View(): Machine
      reads this, dag
    {
      Machine(dag.View(), round, lastBlock, created, heights)
    }

    constructor (committee: Committee, genesis: Vertex, initialRound: u64)
      ensures this.committee == committee && fresh(dag) && View() == Init(genesis, initialRound)
      ensures round == initialRound && lastBlock == None
    {
      this.committee := committee;
      dag := new DAG(genesis);
      round := initialRound;
      lastBlock := None;
      created, heights := [], [];
    }

    method HandleVertex(vertex: Vertex)
      modifies this, dag
      ensures View() == OnVertex(committee, old(View()), vertex)
    {
      dag.InsertVertex(vertex);
      var count := dag.GetVertexCountInRound(round);
      if count >= committee.size {
        var block := NewBlock(committee.H, round, []);
        lastBlock := block.hash;
        created := created + [block];
        round := Wrap(round + 1);
      }
    }

    method HandleBlock(block: Block)
      modifies this
      ensures View() == OnBlock(committee, old(View()), block)
    {
      lastBlock := Some(HashOfBlock(committee.H, block));
      heights := heights + [block.height];
      if block.height >= round {
        round := block.height;
      }
    }
  }
}
