// The coordinator of pkg/consensus/consensus.go described by the messages it received: when
// its round moves, which blocks it makes and which block it remembers.
module RoundMessages {
  import opened Model
  import opened Bytes
  import opened Identity
  import opened DagSpec
  import opened RoundMachine

  /** The vertices received. */
  ghost function Vertices(events: seq<Event>): set<Vertex> {
    set e | e in events && e.VertexMessage? :: e.v
  }

  /** The distinct hashes of genesis and the received vertices of one round. */
  ghost function InRound(g: Vertex, events: seq<Event>, r: u64): set<VertexHash> {
    set v | v in {g} + Vertices(events) && v.round == r :: v.hash
  }

  /** Genesis and the vertices received make up at least a committee's worth of this round. */
  ghost predicate Enough(c: Committee, g: Vertex, events: seq<Event>, r: u64) {
    |InRound(g, events, r)| >= c.size
  }

  lemma InRoundMore(g: Vertex, events: seq<Event>, e: Event, r: u64)
    ensures InRound(g, events + [e], r) ==
      InRound(g, events, r) + if e.VertexMessage? && e.v.round == r then {e.v.hash} else {}
  {
    assert Vertices(events + [e]) == Vertices(events) + if e.VertexMessage? then {e.v} else {};
  }

  lemma RunMore(c: Committee, m: Machine, events: seq<Event>, e: Event)
    ensures Run(c, m, events + [e]) == Step(c, Run(c, m, events), e)
  {
    assert (events + [e])[..|events|] == events;
  }

  lemma StepStored(c: Committee, m: Machine, e: Event, r: u64)
    ensures At(Step(c, m, e).dag, r).Keys ==
      At(m.dag, r).Keys + if e.VertexMessage? && e.v.round == r then {e.v.hash} else {}
  {
    if e.VertexMessage? {
      InsertAt(m.dag, e.v, r);
    }
  }

  /** What is stored under a round is what was received of it. */
  lemma {:induction false} StoredExact(c: Committee, g: Vertex, initialRound: u64, events: seq<Event>, r: u64)
    requires g.round == 0
    ensures At(Run(c, Init(g, initialRound), events).dag, r).Keys == InRound(g, events, r)
    decreases |events|
  {
    if events == [] {
      assert Vertices(events) == {};
    } else {
      var before, e := events[..|events| - 1], events[|events| - 1];
      assert events == before + [e];
      StoredExact(c, g, initialRound, before, r);
      InRoundMore(g, before, e, r);
      RunMore(c, Init(g, initialRound), before, e);
      StepStored(c, Run(c, Init(g, initialRound), before), e, r);
    }
  }

  /** With v received too, the round that holds enough is the one that v fills. */
  lemma FillsExact(c: Committee, g: Vertex, initialRound: u64, events: seq<Event>, v: Vertex)
    requires g.round == 0
    ensures var m := Run(c, Init(g, initialRound), events);
      Fills(c, m, v) <==> Enough(c, g, events + [VertexMessage(v)], m.round)
  {
    var m := Run(c, Init(g, initialRound), events);
    RunMore(c, Init(g, initialRound), events, VertexMessage(v));
    StoredExact(c, g, initialRound, events + [VertexMessage(v)], m.round);
    assert |At(Insert(m.dag, v), m.round)| == |At(Insert(m.dag, v), m.round).Keys|;
  }

  /** The block made for a round: empty, of this height. */
  ghost predicate IsEmptyBlock(c: Committee, b: Block, height: u64) {
    b.height == height && b.transactions == [] && b.hash == Some(BlockHash(c.H(U64Bytes(height))))
  }

  lemma EmptyBlock(c: Committee, height: u64)
    ensures IsEmptyBlock(c, NewBlock(c.H, height, []), height)
  {
    var none: seq<Transaction> := [];
    NewBlockExact(c.H, height, none);
    assert U64Bytes(height) + Flatten(none) == U64Bytes(height);
  }

  ghost predicate MovesOn(c: Committee, m: Machine, n: Machine) {
    && n.round == Wrap(m.round + 1)
    && |n.created| == |m.created| + 1 && n.created[..|m.created|] == m.created
    && IsEmptyBlock(c, n.created[|m.created|], m.round)
    && n.lastBlock == n.created[|m.created|].hash
  }

  ghost predicate StaysPut(m: Machine, n: Machine) {
    n.round == m.round && n.created == m.created && n.lastBlock == m.lastBlock
  }

  /** A vertex, of whatever round, makes the coordinator create and remember the block of its
      round and move on exactly when the distinct hashes of that round among genesis and the
      vertices received, this one included, are as many as the committee; otherwise nothing
      but the store changes. */
  lemma VertexMessageExact(c: Committee, g: Vertex, initialRound: u64, events: seq<Event>, v: Vertex)
    requires g.round == 0
    ensures var m := Run(c, Init(g, initialRound), events);
      var n := Run(c, Init(g, initialRound), events + [VertexMessage(v)]);
      if Enough(c, g, events + [VertexMessage(v)], m.round) then MovesOn(c, m, n) else StaysPut(m, n)
  {
    var m := Run(c, Init(g, initialRound), events);
    RunMore(c, Init(g, initialRound), events, VertexMessage(v));
    FillsExact(c, g, initialRound, events, v);
    EmptyBlock(c, m.round);
  }

  /** A block raises the round to its height if that is higher, is remembered by its cached
      hash or else by the hash of its content, and creates nothing. */
  lemma BlockMessageExact(c: Committee, g: Vertex, initialRound: u64, events: seq<Event>, b: Block)
    ensures var m := Run(c, Init(g, initialRound), events);
      var n := Run(c, Init(g, initialRound), events + [BlockMessage(b)]);
      && m.round <= n.round && b.height <= n.round && (n.round == m.round || n.round == b.height)
      && n.created == m.created && n.heights == m.heights + [b.height]
      && n.lastBlock == (if b.hash.Some? then b.hash
                         else Some(BlockHash(c.H(U64Bytes(b.height) + Flatten(b.transactions)))))
  {
    RunMore(c, Init(g, initialRound), events, BlockMessage(b));
  }

  /** The round after the last of `events`, r being the round before it. */
  ghost function RoundAfter(c: Committee, g: Vertex, events: seq<Event>, last: Event, r: u64): u64 {
    match last
    case VertexMessage(_) => if Enough(c, g, events, r) then Wrap(r + 1) else r
    case BlockMessage(b) => if b.height > r then b.height else r
  }

  /** The round as a function of the messages alone. */
  ghost function RoundFrom(c: Committee, g: Vertex, initialRound: u64, events: seq<Event>): u64 {
    if events == [] then initialRound
    else
      RoundAfter(c, g, events, events[|events| - 1], RoundFrom(c, g, initialRound, events[..|events| - 1]))
  }

  lemma RoundStep(c: Committee, g: Vertex, initialRound: u64, before: seq<Event>, e: Event)
    requires g.round == 0
    ensures var r := Run(c, Init(g, initialRound), before).round;
      Run(c, Init(g, initialRound), before + [e]).round == RoundAfter(c, g, before + [e], e, r)
  {
    match e
    case VertexMessage(v) => VertexMessageExact(c, g, initialRound, before, v);
    case BlockMessage(b) => BlockMessageExact(c, g, initialRound, before, b);
  }

  lemma RoundFromMore(c: Committee, g: Vertex, initialRound: u64, before: seq<Event>, e: Event)
    ensures RoundFrom(c, g, initialRound, before + [e]) ==
      RoundAfter(c, g, before + [e], e, RoundFrom(c, g, initialRound, before))
  {
    assert (before + [e])[..|before|] == before;
  }

  /** Over any run the round is determined by the messages and the initial round. */
  lemma {:induction false} RoundExact(c: Committee, g: Vertex, initialRound: u64, events: seq<Event>)
    requires g.round == 0
    ensures Run(c, Init(g, initialRound), events).round == RoundFrom(c, g, initialRound, events)
    decreases |events|
  {
    if events == [] {
    } else {
      var before, e := events[..|events| - 1], events[|events| - 1];
      assert events == before + [e];
      RoundExact(c, g, initialRound, before);
      RoundFromMore(c, g, initialRound, before, e);
      RoundStep(c, g, initialRound, before, e);
    }
  }
}
