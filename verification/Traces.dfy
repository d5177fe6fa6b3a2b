// What a run of pkg/transaction/transaction.go does, read off its events: which transactions
// are accepted, held and refused, which blocks enter the channel, and that nobody is stuck.
module Traces {
  import opened Model
  import opened Identity
  import opened Packing
  import opened TxPool
  import opened Interleaving

  // ----- the transactions submitted -----

  /** The transaction that this producer submitted last. */
  ghost function LatestTx(events: seq<Event>, id: nat): Transaction {
    if events == [] then []
    else
      var last := events[|events| - 1];
      if last.Begin? && last.id == id then last.tx else LatestTx(events[..|events| - 1], id)
  }

  ghost function Submitted(events: seq<Event>): multiset<Transaction> {
    if events == [] then multiset{}
    else
      var last := events[|events| - 1];
      Submitted(events[..|events| - 1]) + if last.Begin? then multiset{last.tx} else multiset{}
  }

  ghost predicate Full(c: Config, s: Sys) {
    |s.pool.txBuffer| >= c.bufferSize
  }

  /** The transactions of the producers that passed the second check, in order of commits. */
  ghost function Committed(c: Config, ids: set<nat>, events: seq<Event>): seq<Transaction> {
    if events == [] then []
    else
      var before, last := events[..|events| - 1], events[|events| - 1];
      match After(c, ids, before)
      case None => []
      case Some(s) =>
        Committed(c, ids, before) + if last.Commit? && !Full(c, s) then [LatestTx(before, last.id)] else []
  }

  /** The transactions that met a full buffer at one of the two checks. */
  ghost function RefusedTxs(c: Config, ids: set<nat>, events: seq<Event>): multiset<Transaction> {
    if events == [] then multiset{}
    else
      var before, last := events[..|events| - 1], events[|events| - 1];
      match After(c, ids, before)
      case None => multiset{}
      case Some(s) =>
        RefusedTxs(c, ids, before) +
        if (last.Begin? || last.Commit?) && Full(c, s) then multiset{LatestTx(events, last.id)} else multiset{}
  }

  /** A run without its last event. */
  lemma Unsnoc(c: Config, ids: set<nat>, events: seq<Event>, s: Sys) returns (before: Sys)
    requires After(c, ids, events) == Some(s) && events != []
    ensures After(c, ids, events[..|events| - 1]) == Some(before)
    ensures Enabled(before, events[|events| - 1]) && s == Next(c, before, events[|events| - 1])
  {
    before := After(c, ids, events[..|events| - 1]).value;
  }

  ghost predicate HoldsLatest(s: Sys, events: seq<Event>) {
    forall id | id in s.producers && s.producers[id].Checked? :: s.producers[id].tx == LatestTx(events, id)
  }

  /** A producer between the two checks holds the transaction it submitted last. */
  lemma {:induction false} RunHoldsLatest(c: Config, ids: set<nat>, events: seq<Event>, s: Sys)
    requires After(c, ids, events) == Some(s)
    ensures HoldsLatest(s, events)
    decreases |events|
  {
    if events == [] {
    } else {
      var before := Unsnoc(c, ids, events, s);
      RunHoldsLatest(c, ids, events[..|events| - 1], before);
    }
  }

  lemma AcceptedStep(c: Config, s: Sys, e: Event)
    requires Enabled(s, e)
    ensures Next(c, s, e).pool.accepted ==
      s.pool.accepted + if e.Commit? && !Full(c, s) then [s.producers[e.id].tx] else []
  {
  }

  /** What is accepted is what the committing producers submitted, in order of commits. */
  lemma {:induction false} AcceptedExact(c: Config, ids: set<nat>, events: seq<Event>, s: Sys)
    requires After(c, ids, events) == Some(s)
    ensures s.pool.accepted == Committed(c, ids, events)
    decreases |events|
  {
    if events == [] {
    } else {
      var before := Unsnoc(c, ids, events, s);
      AcceptedExact(c, ids, events[..|events| - 1], before);
      RunHoldsLatest(c, ids, events[..|events| - 1], before);
      AcceptedStep(c, before, events[|events| - 1]);
    }
  }

  /** Between the two checks with this transaction. */
  function Holding(tx: Transaction): Producer -> bool {
    (p: Producer) => p.Checked? && p.tx == tx
  }

  ghost function Holders(s: Sys, tx: Transaction): set<nat> {
    Those(s.producers, Holding(tx))
  }

  lemma HoldersStep(c: Config, s: Sys, e: Event, tx: Transaction)
    requires Enabled(s, e)
    ensures |Holders(Next(c, s, e), tx)| == |Holders(s, tx)|
      + (if e.Begin? && !Full(c, s) && e.tx == tx then 1 else 0)
      - (if e.Commit? && s.producers[e.id].tx == tx then 1 else 0)
  {
    if IsProducerStep(e) {
      ProducerMoves(c, s, e);
      ThoseUpdate(s.producers, Holding(tx), e.id, Next(c, s, e).producers[e.id]);
    }
  }

  ghost predicate Placed(c: Config, ids: set<nat>, events: seq<Event>, s: Sys, tx: Transaction) {
    Submitted(events)[tx] ==
      multiset(s.pool.accepted)[tx] + RefusedTxs(c, ids, events)[tx] + |Holders(s, tx)|
  }

  lemma CountOne(tx: Transaction, other: Transaction)
    ensures multiset{other}[tx] == if tx == other then 1 else 0
  {
  }

  lemma PlacedStep(c: Config, ids: set<nat>, events: seq<Event>, before: Sys, s: Sys, tx: Transaction)
    requires events != [] && After(c, ids, events[..|events| - 1]) == Some(before)
    requires Enabled(before, events[|events| - 1]) && s == Next(c, before, events[|events| - 1])
    requires HoldsLatest(before, events[..|events| - 1])
    requires Placed(c, ids, events[..|events| - 1], before, tx)
    ensures Placed(c, ids, events, s, tx)
  {
    var e := events[|events| - 1];
    HoldersStep(c, before, e, tx);
    AcceptedStep(c, before, e);
    if e.Begin? {
      CountOne(tx, e.tx);
    } else if e.Commit? {
      assert LatestTx(events, e.id) == before.producers[e.id].tx;
      CountOne(tx, before.producers[e.id].tx);
    }
  }

  /** Over every run, each transaction is among the accepted ones, the refused ones and
      those held between the two checks, together, exactly as often as it was submitted. */
  lemma {:induction false} EverySubmissionPlaced(c: Config, ids: set<nat>, events: seq<Event>, s: Sys, tx: Transaction)
    requires After(c, ids, events) == Some(s)
    ensures Submitted(events)[tx] ==
      multiset(s.pool.accepted)[tx] + RefusedTxs(c, ids, events)[tx] + |Holders(s, tx)|
    decreases |events|
  {
    if events == [] {
      assert Holders(s, tx) == {};
    } else {
      var before := Unsnoc(c, ids, events, s);
      RunHoldsLatest(c, ids, events[..|events| - 1], before);
      EverySubmissionPlaced(c, ids, events[..|events| - 1], before, tx);
      PlacedStep(c, ids, events, before, s, tx);
    }
  }

  // ----- the blocks sent -----

  /** A cut with room in the channel puts the block just made at the end of the queue; one
      with a full channel counts a drop and leaves the channel as it was. */
  lemma CutExact(c: Config, s: Sys)
    requires Enabled(s, MakerCut)
    ensures var p, q := s.pool, Next(c, s, MakerCut).pool;
      && |q.created| == |p.created| + 1 && q.created[..|p.created|] == p.created
      && q.channel.taken == p.channel.taken
      && if |p.channel.queue| < c.channelCapacity then
           && q.channel.queue == p.channel.queue + [q.created[|p.created|]]
           && q.channel.sent == p.channel.sent + [q.created[|p.created|]]
           && q.metrics.blocksDropped == p.metrics.blocksDropped
         else
           && q.channel.queue == p.channel.queue && q.channel.sent == p.channel.sent
           && q.metrics.blocksDropped == Wrap(p.metrics.blocksDropped + 1)
  {
  }

  /** The block made by a cut: the transactions at the head of the buffer, the current
      height, and their hash. */
  lemma CutBlock(c: Config, s: Sys)
    requires Enabled(s, MakerCut)
    ensures var p, q := s.pool, Next(c, s, MakerCut).pool;
      var b := q.created[|p.created|];
      && p.txBuffer == b.transactions + q.txBuffer && LongestFit(p.txBuffer, c.maxBlockSize, |b.transactions|)
      && b.height == p.blockHeight && q.blockHeight == Wrap(p.blockHeight + 1)
      && b.hash == Some(BlockHash(c.H(BlockPreimage(b.height, b.transactions))))
  {
    var p := s.pool;
    FitLongest(p.txBuffer, c.maxBlockSize);
    assert p.txBuffer == p.txBuffer[..Fit(p.txBuffer, c.maxBlockSize)] + p.txBuffer[Fit(p.txBuffer, c.maxBlockSize)..];
  }

  ghost function Cuts(events: seq<Event>): nat {
    if events == [] then 0
    else Cuts(events[..|events| - 1]) + if events[|events| - 1].MakerCut? then 1 else 0
  }

  ghost function Receives(events: seq<Event>): nat {
    if events == [] then 0
    else Receives(events[..|events| - 1]) + if events[|events| - 1].Consume? then 1 else 0
  }

  /** Which cuts found room in the channel, counted from zero. */
  ghost function CutsWithRoom(c: Config, ids: set<nat>, events: seq<Event>): seq<nat> {
    if events == [] then []
    else
      var before := events[..|events| - 1];
      match After(c, ids, before)
      case None => []
      case Some(s) =>
        CutsWithRoom(c, ids, before) +
        if events[|events| - 1].MakerCut? && |s.pool.channel.queue| < c.channelCapacity then [Cuts(before)] else []
  }

  ghost predicate Delivered(p: Pool, cuts: nat, room: seq<nat>, receives: nat) {
    && |p.created| == cuts
    && Picks(p.channel.sent, p.created, room)
    && p.metrics.blocksDropped == Wrap(cuts - |room|)
    && |p.channel.taken| == receives
  }

  lemma PicksMore<T>(some: seq<T>, all: seq<T>, picks: seq<nat>, x: T)
    requires Picks(some, all, picks)
    ensures Picks(some, all + [x], picks) && Picks(some + [x], all + [x], picks + [|all|])
  {
  }

  lemma CutDelivers(c: Config, s: Sys, cuts: nat, room: seq<nat>, receives: nat)
    requires Enabled(s, MakerCut) && Delivered(s.pool, cuts, room, receives)
    ensures Delivered(Next(c, s, MakerCut).pool, cuts + 1,
                      room + if |s.pool.channel.queue| < c.channelCapacity then [cuts] else [], receives)
  {
    var p, q := s.pool, Next(c, s, MakerCut).pool;
    CutExact(c, s);
    var block := q.created[|p.created|];
    assert q.created == p.created + [block];
    PicksMore(p.channel.sent, p.created, room, block);
    assert room + [] == room;
    WrapAdd(cuts - |room|, 1);
  }

  lemma OtherDelivers(c: Config, s: Sys, e: Event, cuts: nat, room: seq<nat>, receives: nat)
    requires Enabled(s, e) && !e.MakerCut? && Delivered(s.pool, cuts, room, receives)
    ensures Delivered(Next(c, s, e).pool, cuts, room, receives + if e.Consume? then 1 else 0)
  {
  }

  /** Over every run: each cut made one block; the blocks sent are exactly those of the cuts
      that found room, in order; each other cut was counted as one drop; and each receive
      took one block. */
  lemma {:induction false} SentExact(c: Config, ids: set<nat>, events: seq<Event>, s: Sys)
    requires After(c, ids, events) == Some(s)
    ensures Delivered(s.pool, Cuts(events), CutsWithRoom(c, ids, events), Receives(events))
    decreases |events|
  {
    if events == [] {
    } else {
      var k := |events| - 1;
      var before := Unsnoc(c, ids, events, s);
      var room := CutsWithRoom(c, ids, events[..k]);
      SentExact(c, ids, events[..k], before);
      if events[k].MakerCut? {
        CutDelivers(c, before, Cuts(events[..k]), room, Receives(events[..k]));
      } else {
        OtherDelivers(c, before, events[k], Cuts(events[..k]), room, Receives(events[..k]));
        assert room + [] == room;
      }
    }
  }

  // ----- nobody is stuck -----

  /** Each producer can always take a step, of one kind only. */
  lemma ProducerCanStep(c: Config, ids: set<nat>, events: seq<Event>, s: Sys, id: nat, tx: Transaction)
    requires After(c, ids, events) == Some(s) && id in ids
    ensures exists e :: IsProducerStep(e) && e.id == id && Enabled(s, e)
    ensures forall e, e' | IsProducerStep(e) && IsProducerStep(e') && e.id == id && e'.id == id
      && Enabled(s, e) && Enabled(s, e') && (e.Begin? && e'.Begin? ==> e.tx == e'.tx) :: e == e'
  {
    SameProducers(c, ids, events, s);
    var e := match s.producers[id]
      case Idle => Begin(id, tx)
      case Checked(_) => Commit(id)
      case Appended => Count(id)
      case Refused => CountFullBuffer(id)
      case HalfCounted => CountDrop(id);
    assert IsProducerStep(e) && e.id == id && Enabled(s, e);
  }

  /** While transactions are buffered, one check lets the block maker cut. */
  lemma MakerCanCut(c: Config, s: Sys)
    requires s.pool.txBuffer != []
    ensures Enabled(s, MakerCut) || (Enabled(s, MakerCheck) && Enabled(Next(c, s, MakerCheck), MakerCut))
    ensures Enabled(s, MakerCheck) ==> Next(c, s, MakerCheck).pool == s.pool
  {
  }

  /** A receive is possible exactly while a block is queued. */
  lemma ConsumerCanTake(c: Config, s: Sys)
    ensures Enabled(s, Consume) <==> s.pool.channel.queue != []
    ensures s.pool.channel.queue != [] ==>
      var q := Next(c, s, Consume).pool.channel;
      q.queue == s.pool.channel.queue[1..] && q.taken == s.pool.channel.taken + [s.pool.channel.queue[0]]
  {
  }

  /** A call with nobody in between does what the sequential method does. */
  lemma UninterruptedCall(c: Config, s: Sys, id: nat, tx: Transaction)
    requires id in s.producers && s.producers[id].Idle?
    ensures var checked := Next(c, s, Begin(id, tx));
      if Full(c, s) then
        && Enabled(checked, CountFullBuffer(id))
        && var half := Next(c, checked, CountFullBuffer(id));
           Enabled(half, CountDrop(id)) && Next(c, half, CountDrop(id)) == s.(pool := Reject(s.pool))
      else
        && Enabled(checked, Commit(id))
        && var appended := Next(c, checked, Commit(id));
           && Enabled(appended, Count(id))
           && Next(c, appended, Count(id)) == s.(pool := CountReceived(Append(s.pool, tx)))
  {
    assert s.producers[id := Refused][id := HalfCounted][id := Idle] == s.producers;
    assert s.producers[id := Checked(tx)][id := Appended][id := Idle] == s.producers;
  }
}
