// Any number of producers, one block maker and a consumer, interleaved between the lock
// steps of pkg/transaction/transaction.go.
module Interleaving {
  import opened Model
  import opened Identity
  import opened Packing
  import opened TxPool

  /** Where a producer stands in AddTransaction: outside; past the check under the read lock;
      between its append and its counter increment; refused by one of the two checks with
      nothing counted yet, or with the full buffer counted and the drop not yet. */
  datatype Producer = Idle | Checked(tx: Transaction) | Appended | Refused | HalfCounted

  /** `makerReady`: the block maker has seen a non-empty buffer and not yet taken the lock. */
  datatype Sys = Sys(pool: Pool, producers: map<nat, Producer>, makerReady: bool)

  datatype Event =
    | Begin(id: nat, tx: Transaction)
    | Commit(id: nat)
    | Count(id: nat)
    | CountFullBuffer(id: nat)
    | CountDrop(id: nat)
    | MakerCheck
    | MakerCut
    | Consume

  ghost predicate Enabled(s: Sys, e: Event) {
    match e
    case Begin(id, _) => id in s.producers && s.producers[id].Idle?
    case Commit(id) => id in s.producers && s.producers[id].Checked?
    case Count(id) => id in s.producers && s.producers[id].Appended?
    case CountFullBuffer(id) => id in s.producers && s.producers[id].Refused?
    case CountDrop(id) => id in s.producers && s.producers[id].HalfCounted?
    case MakerCheck => !s.makerReady
    case MakerCut => s.makerReady
    case Consume => s.pool.channel.queue != []
  }

  ghost function Next(c: Config, s: Sys, e: Event): Sys
    requires Enabled(s, e)
  {
    match e
    case Begin(id, tx) =>
      if |s.pool.txBuffer| >= c.bufferSize then s.(producers := s.producers[id := Refused])
      else s.(producers := s.producers[id := Checked(tx)])
    case Commit(id) =>
      if |s.pool.txBuffer| >= c.bufferSize then s.(producers := s.producers[id := Refused])
      else s.(pool := Append(s.pool, s.producers[id].tx), producers := s.producers[id := Appended])
    case Count(id) => s.(pool := CountReceived(s.pool), producers := s.producers[id := Idle])
    case CountFullBuffer(id) => s.(pool := CountFull(s.pool), producers := s.producers[id := HalfCounted])
    case CountDrop(id) => s.(pool := CountDropped(s.pool), producers := s.producers[id := Idle])
    case MakerCheck => s.(makerReady := s.pool.txBuffer != [])
    case MakerCut => s.(pool := Cut(c, s.pool), makerReady := false)
    case Consume => s.(pool := Take(s.pool))
  }

  ghost function Start(ids: set<nat>): Sys {
    Sys(Empty(), map id | id in ids :: Idle, false)
  }

  /** The system after a sequence of events; None when one of them was not enabled. */
  ghost function After(c: Config, ids: set<nat>, events: seq<Event>): Option<Sys> {
    if events == [] then Some(Start(ids))
    else
      match After(c, ids, events[..|events| - 1])
      case None => None
      case Some(s) => if Enabled(s, events[|events| - 1]) then Some(Next(c, s, events[|events| - 1])) else None
  }

  // ----- counting producers -----

  /** The producers that stand where `here` says. */
  ghost function Those(producers: map<nat, Producer>, here: Producer -> bool): set<nat> {
    set id | id in producers && here(producers[id])
  }

  predicate BetweenChecks(p: Producer) { p.Checked? }

  predicate BeforeCount(p: Producer) { p.Appended? }

  predicate BeforeFull(p: Producer) { p.Refused? }

  predicate BeforeDrop(p: Producer) { p.HalfCounted? }

  function Weight(p: Producer, here: Producer -> bool): nat {
    if here(p) then 1 else 0
  }

  /** Moving one producer changes a number of producers by its own weights only. */
  lemma ThoseUpdate(producers: map<nat, Producer>, here: Producer -> bool, id: nat, to: Producer)
    requires id in producers
    ensures |Those(producers[id := to], here)|
      == |Those(producers, here)| - Weight(producers[id], here) + Weight(to, here)
  {
    var others := Those(producers, here) - {id};
    assert Those(producers, here) == if here(producers[id]) then others + {id} else others;
    assert Those(producers[id := to], here) == if here(to) then others + {id} else others;
  }

  /** The producers between their append and their counter increment. */
  ghost function InFlight(producers: map<nat, Producer>): set<nat> {
    Those(producers, BeforeCount)
  }

  // ----- the invariant -----

  ghost predicate Heights(created: seq<Block>) {
    forall i | 0 <= i < |created| :: created[i].height == Wrap(i)
  }

  /** The blocks carry the accepted transactions in order and the buffer carries the rest;
      heights count the blocks. */
  ghost predicate Ledger(c: Config, p: Pool) {
    && p.accepted == Flatten(Contents(p.created)) + p.txBuffer
    && |p.txBuffer| <= c.bufferSize
    && Heights(p.created)
    && p.blockHeight == Wrap(|p.created|)
  }

  /** What entered the channel are blocks created, in order of creation, and each left it or
      is in it, within its capacity; what did not enter was counted as dropped. */
  ghost predicate ChannelOk(c: Config, ch: Channel, dropped: u64, created: seq<Block>) {
    && ch.sent == ch.taken + ch.queue
    && |ch.queue| <= c.channelCapacity
    && Subsequence(ch.sent, created) && |ch.sent| <= |created|
    && dropped == Wrap(|created| - |ch.sent|)
  }

  ghost predicate CountersOk(m: Metrics, accepted: nat, created: nat, processed: nat, inFlight: nat) {
    && inFlight <= accepted
    && m.txReceived == Wrap(accepted - inFlight)
    && m.blockCount == Wrap(created)
    && m.txProcessed == Wrap(processed)
  }

  ghost function Processed(p: Pool): nat {
    |Flatten(Contents(p.created))|
  }

  ghost predicate PoolInv(c: Config, p: Pool, inFlight: nat) {
    && Ledger(c, p)
    && ChannelOk(c, p.channel, p.metrics.blocksDropped, p.created)
    && CountersOk(p.metrics, |p.accepted|, |p.created|, Processed(p), inFlight)
  }

  ghost predicate Inv(c: Config, s: Sys) {
    PoolInv(c, s.pool, |InFlight(s.producers)|) && (s.makerReady ==> s.pool.txBuffer != [])
  }

  // ----- steps -----

  lemma WrapAdd(x: int, y: int)
    ensures Wrap(Wrap(x) + y) == Wrap(x + y)
  {
  }

  lemma WrapSub(x: int, y: int)
    ensures Wrap(x - Wrap(y)) == Wrap(x - y)
  {
  }

  /** Moving a prefix of the buffer into a new block spells out the same transactions. */
  lemma MovePrefix(created: seq<Block>, block: Block, buffer: seq<Transaction>, k: nat)
    requires k <= |buffer| && block.transactions == buffer[..k]
    ensures Flatten(Contents(created + [block])) + buffer[k..] == Flatten(Contents(created)) + buffer
    ensures |Flatten(Contents(created + [block]))| == |Flatten(Contents(created))| + k
  {
    ContentsSnoc(created, block);
    FlattenSnoc(Contents(created), block.transactions);
    assert buffer == buffer[..k] + buffer[k..];
  }

  lemma HeightsMore(created: seq<Block>, block: Block)
    requires Heights(created) && block.height == Wrap(|created|)
    ensures Heights(created + [block])
  {
  }

  lemma SelectLedger(c: Config, p: Pool)
    requires Ledger(c, p)
    ensures Ledger(c, Select(c, p))
    ensures Processed(Select(c, p)) == Processed(p) + Fit(p.txBuffer, c.maxBlockSize)
  {
    FitLongest(p.txBuffer, c.maxBlockSize);
    HeightsMore(p.created, NextBlock(c, p));
    MovePrefix(p.created, NextBlock(c, p), p.txBuffer, Fit(p.txBuffer, c.maxBlockSize));
    WrapAdd(|p.created|, 1);
  }

  lemma CountersAdvance(m: Metrics, accepted: nat, created: nat, processed: nat, inFlight: nat, k: nat)
    requires CountersOk(m, accepted, created, processed, inFlight)
    ensures CountersOk(m.(blockCount := Wrap(m.blockCount + 1), txProcessed := Wrap(m.txProcessed + k)),
                       accepted, created + 1, processed + k, inFlight)
  {
    WrapAdd(created, 1);
    WrapAdd(processed, k);
  }

  lemma SendChannel(c: Config, ch: Channel, dropped: u64, created: seq<Block>, block: Block)
    requires ChannelOk(c, ch, dropped, created)
    ensures |ch.queue| < c.channelCapacity ==>
      ChannelOk(c, ch.(queue := ch.queue + [block], sent := ch.sent + [block]), dropped, created + [block])
    ensures |ch.queue| >= c.channelCapacity ==> ChannelOk(c, ch, Wrap(dropped + 1), created + [block])
  {
    WrapAdd(|created| - |ch.sent|, 1);
    SubsequenceMore(ch.sent, created, block);
  }

  lemma SendLedger(c: Config, p: Pool, block: Block)
    requires Ledger(c, p)
    ensures Ledger(c, Send(c, p, block)) && Processed(Send(c, p, block)) == Processed(p)
  {
  }

  lemma SendKeeps(c: Config, p: Pool, before: seq<Block>, block: Block, inFlight: nat)
    requires Ledger(c, p) && p.created == before + [block]
    requires ChannelOk(c, p.channel, p.metrics.blocksDropped, before)
    requires CountersOk(p.metrics, |p.accepted|, |p.created|, Processed(p), inFlight)
    ensures PoolInv(c, Send(c, p, block), inFlight)
  {
    SendLedger(c, p, block);
    SendChannel(c, p.channel, p.metrics.blocksDropped, before, block);
  }

  lemma SelectMetrics(c: Config, p: Pool, processed: nat, inFlight: nat)
    requires CountersOk(p.metrics, |p.accepted|, |p.created|, processed, inFlight)
    ensures var q := Select(c, p);
      && q.accepted == p.accepted && q.channel == p.channel && q.created == p.created + [NextBlock(c, p)]
      && q.metrics.blocksDropped == p.metrics.blocksDropped
      && CountersOk(q.metrics, |p.accepted|, |p.created| + 1, processed + Fit(p.txBuffer, c.maxBlockSize), inFlight)
  {
    CountersAdvance(p.metrics, |p.accepted|, |p.created|, processed, inFlight, Fit(p.txBuffer, c.maxBlockSize));
  }

  lemma CutKeeps(c: Config, p: Pool, inFlight: nat)
    requires PoolInv(c, p, inFlight)
    ensures PoolInv(c, Cut(c, p), inFlight)
  {
    SelectLedger(c, p);
    SelectMetrics(c, p, Processed(p), inFlight);
    SendKeeps(c, Select(c, p), p.created, NextBlock(c, p), inFlight);
  }

  lemma AppendKeeps(c: Config, p: Pool, tx: Transaction, inFlight: nat)
    requires PoolInv(c, p, inFlight) && |p.txBuffer| < c.bufferSize
    ensures PoolInv(c, Append(p, tx), inFlight + 1)
  {
    assert p.accepted + [tx] == Flatten(Contents(p.created)) + (p.txBuffer + [tx]);
  }

  lemma CountKeeps(c: Config, p: Pool, inFlight: nat)
    requires PoolInv(c, p, inFlight) && inFlight > 0
    ensures PoolInv(c, CountReceived(p), inFlight - 1)
  {
    WrapAdd(|p.accepted| - inFlight, 1);
  }

  lemma TakeKeeps(c: Config, p: Pool, inFlight: nat)
    requires PoolInv(c, p, inFlight) && p.channel.queue != []
    ensures PoolInv(c, Take(p), inFlight)
  {
    var ch := p.channel;
    assert ch.taken + ch.queue == (ch.taken + [ch.queue[0]]) + ch.queue[1..];
    assert Ledger(c, Take(p));
  }

  lemma CountRefusalKeeps(c: Config, p: Pool, inFlight: nat)
    requires PoolInv(c, p, inFlight)
    ensures PoolInv(c, CountFull(p), inFlight) && PoolInv(c, CountDropped(p), inFlight)
  {
    assert Ledger(c, CountFull(p)) && Ledger(c, CountDropped(p));
  }

  predicate IsProducerStep(e: Event) {
    e.Begin? || e.Commit? || e.Count? || e.CountFullBuffer? || e.CountDrop?
  }

  /** The step of a producer moves this producer and no other. */
  lemma ProducerMoves(c: Config, s: Sys, e: Event)
    requires Enabled(s, e) && IsProducerStep(e)
    ensures e.id in s.producers && e.id in Next(c, s, e).producers
    ensures Next(c, s, e).producers == s.producers[e.id := Next(c, s, e).producers[e.id]]
    ensures Next(c, s, e).makerReady == s.makerReady
  {
  }

  lemma ProducerKeeps(c: Config, s: Sys, e: Event)
    requires Inv(c, s) && Enabled(s, e) && IsProducerStep(e)
    ensures Inv(c, Next(c, s, e))
  {
    var flying := |InFlight(s.producers)|;
    ProducerMoves(c, s, e);
    ThoseUpdate(s.producers, BeforeCount, e.id, Next(c, s, e).producers[e.id]);
    if e.Count? {
      CountKeeps(c, s.pool, flying);
    } else if e.CountFullBuffer? || e.CountDrop? {
      CountRefusalKeeps(c, s.pool, flying);
    } else if e.Commit? && |s.pool.txBuffer| < c.bufferSize {
      AppendKeeps(c, s.pool, s.producers[e.id].tx, flying);
    }
  }

  lemma StepKeeps(c: Config, s: Sys, e: Event)
    requires Inv(c, s) && Enabled(s, e)
    ensures Inv(c, Next(c, s, e))
  {
    var flying := |InFlight(s.producers)|;
    if e.MakerCut? {
      CutKeeps(c, s.pool, flying);
    } else if e.Consume? {
      TakeKeeps(c, s.pool, flying);
    } else if !e.MakerCheck? {
      ProducerKeeps(c, s, e);
    }
  }

  lemma StartKeeps(c: Config, ids: set<nat>)
    ensures Inv(c, Start(ids))
  {
    var none: seq<Block> := [];
    assert Contents(none) == [];
    assert InFlight(Start(ids).producers) == {};
    assert Picks(none, none, []);
  }

  /** In every interleaving the invariant holds. */
  lemma {:induction false} RunKeeps(c: Config, ids: set<nat>, events: seq<Event>)
    ensures After(c, ids, events).Some? ==> Inv(c, After(c, ids, events).value)
    decreases |events|
  {
    if events == [] {
      StartKeeps(c, ids);
    } else if After(c, ids, events).Some? {
      RunKeeps(c, ids, events[..|events| - 1]);
      StepKeeps(c, After(c, ids, events[..|events| - 1]).value, events[|events| - 1]);
    }
  }

  lemma RunFlow(c: Config, ids: set<nat>, events: seq<Event>, s: Sys)
    requires After(c, ids, events) == Some(s)
    ensures s.pool.accepted == Flatten(Contents(s.pool.created)) + s.pool.txBuffer
    ensures s.makerReady ==> s.pool.txBuffer != []
  {
    RunKeeps(c, ids, events);
  }

  // ----- every block was the longest that fits -----

  /** How many accepted transactions the blocks before block i carry. */
  ghost function Offset(created: seq<Block>, i: nat): nat
    requires i <= |created|
  {
    |Flatten(Contents(created[..i]))|
  }

  ghost predicate CutAt(c: Config, accepted: seq<Transaction>, created: seq<Block>, i: nat, end: nat)
    requires i < |created|
  {
    var lo, txs := Offset(created, i), created[i].transactions;
    && lo < end <= |accepted| && lo + |txs| <= end
    && txs == accepted[lo..lo + |txs|]
    && LongestFit(accepted[lo..end], c.maxBlockSize, |txs|)
  }

  /** Block i was cut off a non-empty buffer, which held the accepted transactions from the
      block's offset up to some `end`, as its longest fitting prefix. */
  ghost predicate CutLongest(c: Config, accepted: seq<Transaction>, created: seq<Block>, i: nat)
    requires i < |created|
  {
    exists end: nat :: CutAt(c, accepted, created, i, end)
  }

  ghost predicate AllLongest(c: Config, accepted: seq<Transaction>, created: seq<Block>) {
    forall i | 0 <= i < |created| :: CutLongest(c, accepted, created, i)
  }

  /** A block once cut stays what it was when more is accepted or created. */
  lemma CutStays(c: Config, accepted: seq<Transaction>, created: seq<Block>, i: nat,
                 accepted': seq<Transaction>, created': seq<Block>)
    requires i < |created| && CutLongest(c, accepted, created, i)
    requires accepted <= accepted' && created <= created'
    ensures CutLongest(c, accepted', created', i)
  {
    var end: nat :| CutAt(c, accepted, created, i, end);
    var lo := Offset(created, i);
    assert created'[..i] == created[..i];
    assert accepted'[lo..end] == accepted[lo..end];
    assert accepted'[lo..lo + |created[i].transactions|] == accepted[lo..lo + |created[i].transactions|];
    assert CutAt(c, accepted', created', i, end);
  }

  /** The block just cut off the buffer. */
  lemma CutNow(c: Config, p: Pool)
    requires p.accepted == Flatten(Contents(p.created)) + p.txBuffer && p.txBuffer != []
    ensures CutLongest(c, p.accepted, p.created + [NextBlock(c, p)], |p.created|)
  {
    var created := p.created + [NextBlock(c, p)];
    var lo := Offset(created, |p.created|);
    FitLongest(p.txBuffer, c.maxBlockSize);
    assert created[..|p.created|] == p.created;
    assert p.accepted[lo..|p.accepted|] == p.txBuffer;
    assert CutAt(c, p.accepted, created, |p.created|, |p.accepted|);
  }

  lemma LongestStay(c: Config, p: Pool, tx: Transaction)
    requires AllLongest(c, p.accepted, p.created)
    ensures AllLongest(c, p.accepted + [tx], p.created)
  {
    forall i | 0 <= i < |p.created|
      ensures CutLongest(c, p.accepted + [tx], p.created, i)
    {
      CutStays(c, p.accepted, p.created, i, p.accepted + [tx], p.created);
    }
  }

  lemma LongestMore(c: Config, p: Pool)
    requires AllLongest(c, p.accepted, p.created)
    requires p.accepted == Flatten(Contents(p.created)) + p.txBuffer && p.txBuffer != []
    ensures AllLongest(c, p.accepted, p.created + [NextBlock(c, p)])
  {
    CutNow(c, p);
    forall i | 0 <= i < |p.created|
      ensures CutLongest(c, p.accepted, p.created + [NextBlock(c, p)], i)
    {
      CutStays(c, p.accepted, p.created, i, p.accepted, p.created + [NextBlock(c, p)]);
    }
  }

  /** What one step adds to the history. */
  lemma StepHistory(c: Config, s: Sys, e: Event)
    requires Enabled(s, e)
    ensures var p, q := s.pool, Next(c, s, e).pool;
      && (q.accepted == p.accepted || (e.Commit? && q.accepted == p.accepted + [s.producers[e.id].tx]))
      && q.created == if e.MakerCut? then p.created + [NextBlock(c, p)] else p.created
    ensures e.MakerCut? ==> Next(c, s, e).pool.accepted == s.pool.accepted
  {
  }

  lemma StepLongest(c: Config, s: Sys, e: Event)
    requires Enabled(s, e) && AllLongest(c, s.pool.accepted, s.pool.created)
    requires s.pool.accepted == Flatten(Contents(s.pool.created)) + s.pool.txBuffer
    requires s.makerReady ==> s.pool.txBuffer != []
    ensures AllLongest(c, Next(c, s, e).pool.accepted, Next(c, s, e).pool.created)
  {
    StepHistory(c, s, e);
    if e.MakerCut? {
      LongestMore(c, s.pool);
    } else if e.Commit? {
      LongestStay(c, s.pool, s.producers[e.id].tx);
    }
  }

  /** In every interleaving each block created, dropped or not, was the longest fitting
      prefix of the buffer it was cut from. */
  lemma {:induction false} RunLongest(c: Config, ids: set<nat>, events: seq<Event>, s: Sys)
    requires After(c, ids, events) == Some(s)
    ensures AllLongest(c, s.pool.accepted, s.pool.created)
    decreases |events|
  {
    if events == [] {
    } else {
      var k := |events| - 1;
      var before := After(c, ids, events[..k]).value;
      RunLongest(c, ids, events[..k], before);
      RunFlow(c, ids, events[..k], before);
      StepLongest(c, before, events[k]);
    }
  }

  // ----- main results -----

  lemma BalanceOfCounters(m: Metrics, accepted: nat, created: nat, processed: nat, buffered: nat, inFlight: nat)
    requires CountersOk(m, accepted, created, processed, inFlight) && accepted == processed + buffered
    ensures Wrap(m.txProcessed + buffered - m.txReceived) == Wrap(inFlight)
  {
    WrapAdd(processed, buffered - m.txReceived);
    WrapSub(processed + buffered, accepted - inFlight);
  }

  /** In every interleaving the buffer stays within its capacity, and processed + buffered
      exceeds received, modulo 2^64, by exactly the producers that have appended and not
      yet counted. */
  lemma CapacityAndConservation(c: Config, ids: set<nat>, events: seq<Event>, s: Sys)
    requires After(c, ids, events) == Some(s)
    ensures |s.pool.txBuffer| <= c.bufferSize
    ensures Wrap(s.pool.metrics.txProcessed + |s.pool.txBuffer| - s.pool.metrics.txReceived)
      == Wrap(|InFlight(s.producers)|)
  {
    RunKeeps(c, ids, events);
    BalanceOfCounters(s.pool.metrics, |s.pool.accepted|, |s.pool.created|, Processed(s.pool), |s.pool.txBuffer|,
                      |InFlight(s.producers)|);
  }

  lemma RunParts(c: Config, ids: set<nat>, events: seq<Event>, s: Sys)
    requires After(c, ids, events) == Some(s)
    ensures Flatten(Contents(s.pool.created)) + s.pool.txBuffer == s.pool.accepted && Heights(s.pool.created)
    ensures ChannelOk(c, s.pool.channel, s.pool.metrics.blocksDropped, s.pool.created)
  {
    RunKeeps(c, ids, events);
  }

  lemma SentAndDropped(c: Config, ch: Channel, dropped: u64, created: seq<Block>)
    requires ChannelOk(c, ch, dropped, created)
    ensures Wrap(|ch.sent| + dropped) == Wrap(|created|)
  {
    WrapAdd(|created| - |ch.sent|, |ch.sent|);
  }

  lemma RunCounts(c: Config, ids: set<nat>, events: seq<Event>, s: Sys)
    requires After(c, ids, events) == Some(s)
    ensures Wrap(|s.pool.channel.sent| + s.pool.metrics.blocksDropped) == s.pool.metrics.blockCount
  {
    RunKeeps(c, ids, events);
    SentAndDropped(c, s.pool.channel, s.pool.metrics.blocksDropped, s.pool.created);
  }

  /** Over any run: blocks in order of height, dropped ones included, then the buffer, spell
      out the accepted transactions in order; each block was the longest that fits; the
      blocks sent are among them in order of creation, and with the dropped ones make up
      the count. */
  lemma FifoLedger(c: Config, ids: set<nat>, events: seq<Event>, s: Sys)
    requires After(c, ids, events) == Some(s)
    ensures Flatten(Contents(s.pool.created)) + s.pool.txBuffer == s.pool.accepted
    ensures Heights(s.pool.created) && AllLongest(c, s.pool.accepted, s.pool.created)
    ensures ChannelOk(c, s.pool.channel, s.pool.metrics.blocksDropped, s.pool.created)
    ensures Wrap(|s.pool.channel.sent| + s.pool.metrics.blocksDropped) == s.pool.metrics.blockCount
  {
    RunParts(c, ids, events, s);
    RunLongest(c, ids, events, s);
    RunCounts(c, ids, events, s);
  }

  /** The unlocked emptiness check of the block maker is safe: what it cuts under the lock
      is the longest fitting prefix of a non-empty buffer. */
  lemma CutsNonEmptyBuffer(c: Config, ids: set<nat>, events: seq<Event>, s: Sys) returns (k: nat)
    requires After(c, ids, events) == Some(s) && Enabled(s, MakerCut)
    ensures s.pool.txBuffer != [] && LongestFit(s.pool.txBuffer, c.maxBlockSize, k)
    ensures Next(c, s, MakerCut).pool.txBuffer == s.pool.txBuffer[k..]
    ensures Next(c, s, MakerCut).pool.created ==
      s.pool.created + [NewBlock(c.H, s.pool.blockHeight, s.pool.txBuffer[..k])]
  {
    RunKeeps(c, ids, events);
    k := Fit(s.pool.txBuffer, c.maxBlockSize);
    FitLongest(s.pool.txBuffer, c.maxBlockSize);
  }

  // ----- every call is accounted for -----

  ghost function Begins(events: seq<Event>): nat {
    if events == [] then 0
    else Begins(events[..|events| - 1]) + if events[|events| - 1].Begin? then 1 else 0
  }

  /** The producers between the two capacity checks. */
  ghost function Waiting(producers: map<nat, Producer>): set<nat> {
    Those(producers, BetweenChecks)
  }

  /** The refused producers that have counted nothing yet. */
  ghost function Uncounted(producers: map<nat, Producer>): set<nat> {
    Those(producers, BeforeFull)
  }

  /** The refused producers that have counted the full buffer and not yet the drop. */
  ghost function Half(producers: map<nat, Producer>): set<nat> {
    Those(producers, BeforeDrop)
  }

  /** `rejected` transactions met a full buffer at one of the two checks. */
  ghost predicate Balanced(p: Pool, begun: nat, rejected: nat, waiting: nat, uncounted: nat, half: nat) {
    && |p.accepted| + rejected + waiting == begun
    && p.metrics.bufferFull == Wrap(rejected - uncounted)
    && p.metrics.txDropped == Wrap(rejected - uncounted - half)
  }

  ghost predicate Accounted(s: Sys, begun: nat, rejected: nat) {
    Balanced(s.pool, begun, rejected, |Waiting(s.producers)|, |Uncounted(s.producers)|, |Half(s.producers)|)
  }

  lemma CountingBalances(p: Pool, begun: nat, rejected: nat, waiting: nat, uncounted: nat, half: nat)
    requires Balanced(p, begun, rejected, waiting, uncounted, half)
    ensures uncounted > 0 ==> Balanced(CountFull(p), begun, rejected, waiting, uncounted - 1, half + 1)
    ensures half > 0 ==> Balanced(CountDropped(p), begun, rejected, waiting, uncounted, half - 1)
  {
    WrapAdd(rejected - uncounted, 1);
    WrapAdd(rejected - uncounted - half, 1);
  }

  lemma ProducerCounts(c: Config, s: Sys, e: Event)
    requires Enabled(s, e) && IsProducerStep(e)
    ensures var from, to := s.producers[e.id], Next(c, s, e).producers[e.id];
      var before, after := s.producers, Next(c, s, e).producers;
      && |Waiting(after)| == |Waiting(before)| - Weight(from, BetweenChecks) + Weight(to, BetweenChecks)
      && |Uncounted(after)| == |Uncounted(before)| - Weight(from, BeforeFull) + Weight(to, BeforeFull)
      && |Half(after)| == |Half(before)| - Weight(from, BeforeDrop) + Weight(to, BeforeDrop)
  {
    var to := Next(c, s, e).producers[e.id];
    ProducerMoves(c, s, e);
    ThoseUpdate(s.producers, BetweenChecks, e.id, to);
    ThoseUpdate(s.producers, BeforeFull, e.id, to);
    ThoseUpdate(s.producers, BeforeDrop, e.id, to);
  }

  /** The transactions that a step refuses. */
  ghost function Refusals(c: Config, s: Sys, e: Event): nat {
    if (e.Begin? || e.Commit?) && |s.pool.txBuffer| >= c.bufferSize then 1 else 0
  }

  /** A step that checks the capacity. */
  lemma CheckAccounts(c: Config, s: Sys, e: Event, begun: nat, rejected: nat)
    requires Enabled(s, e) && (e.Begin? || e.Commit?) && Accounted(s, begun, rejected)
    ensures Accounted(Next(c, s, e), begun + (if e.Begin? then 1 else 0), rejected + Refusals(c, s, e))
  {
    ProducerCounts(c, s, e);
  }

  /** A step that counts. */
  lemma CountAccounts(c: Config, s: Sys, e: Event, begun: nat, rejected: nat)
    requires Enabled(s, e) && (e.Count? || e.CountFullBuffer? || e.CountDrop?) && Accounted(s, begun, rejected)
    ensures Accounted(Next(c, s, e), begun, rejected)
  {
    ProducerCounts(c, s, e);
    CountingBalances(s.pool, begun, rejected, |Waiting(s.producers)|, |Uncounted(s.producers)|, |Half(s.producers)|);
  }

  lemma StepAccounts(c: Config, s: Sys, e: Event, begun: nat, rejected: nat)
    requires Enabled(s, e) && Accounted(s, begun, rejected)
    ensures Accounted(Next(c, s, e), begun + (if e.Begin? then 1 else 0), rejected + Refusals(c, s, e))
  {
    if e.Begin? || e.Commit? {
      CheckAccounts(c, s, e, begun, rejected);
    } else if IsProducerStep(e) {
      CountAccounts(c, s, e, begun, rejected);
    }
  }

  lemma StartAccounts(ids: set<nat>)
    ensures Accounted(Start(ids), 0, 0)
  {
    var producers := Start(ids).producers;
    assert Waiting(producers) == {} && Uncounted(producers) == {} && Half(producers) == {};
  }

  lemma {:induction false} RunAccounts(c: Config, ids: set<nat>, events: seq<Event>, s: Sys) returns (rejected: nat)
    requires After(c, ids, events) == Some(s)
    ensures Accounted(s, Begins(events), rejected)
    decreases |events|
  {
    if events == [] {
      rejected := 0;
      StartAccounts(ids);
    } else {
      var k := |events| - 1;
      var before := After(c, ids, events[..k]).value;
      var r := RunAccounts(c, ids, events[..k], before);
      StepAccounts(c, before, events[k], Begins(events[..k]), r);
      rejected := r + Refusals(c, before, events[k]);
    }
  }

  lemma BalanceOfCalls(p: Pool, begun: nat, rejected: nat, waiting: nat, uncounted: nat, half: nat)
    requires Balanced(p, begun, rejected, waiting, uncounted, half)
    ensures Wrap(|p.accepted| + p.metrics.txDropped + waiting + uncounted + half) == Wrap(begun)
    ensures Wrap(p.metrics.bufferFull - p.metrics.txDropped) == Wrap(half)
  {
    var dropped: int := p.metrics.txDropped;
    WrapAdd(rejected - uncounted - half, |p.accepted| + waiting + uncounted + half);
    WrapAdd(rejected - uncounted, -dropped);
    WrapSub(rejected - uncounted, rejected - uncounted - half);
  }

  /** In every interleaving each transaction submitted was accepted, was counted as dropped,
      waits between the two checks, or was refused by a producer that has not yet counted
      the drop; the counter of full buffers is ahead of the counter of drops by exactly the
      producers between the two increments. */
  lemma EveryCallAccounted(c: Config, ids: set<nat>, events: seq<Event>, s: Sys)
    requires After(c, ids, events) == Some(s)
    ensures Wrap(|s.pool.accepted| + s.pool.metrics.txDropped
                 + |Waiting(s.producers)| + |Uncounted(s.producers)| + |Half(s.producers)|) == Wrap(Begins(events))
    ensures Wrap(s.pool.metrics.bufferFull - s.pool.metrics.txDropped) == Wrap(|Half(s.producers)|)
  {
    var rejected := RunAccounts(c, ids, events, s);
    BalanceOfCalls(s.pool, Begins(events), rejected, |Waiting(s.producers)|, |Uncounted(s.producers)|, |Half(s.producers)|);
  }

  lemma {:induction false} SameProducers(c: Config, ids: set<nat>, events: seq<Event>, s: Sys)
    requires After(c, ids, events) == Some(s)
    ensures s.producers.Keys == ids
    decreases |events|
  {
    if events == [] {
    } else {
      var k := |events| - 1;
      var before := After(c, ids, events[..k]).value;
      SameProducers(c, ids, events[..k], before);
      if IsProducerStep(events[k]) {
        ProducerMoves(c, before, events[k]);
      }
    }
  }

  lemma EqualUpToWrap(x: u64, y: u64, ahead: u64)
    requires Wrap(x - y) == Wrap(ahead)
    ensures x == y <==> ahead == 0
  {
  }

  /** With fewer than 2^64 producers the two counters of refusals are equal exactly when no
      producer stands between their increments. */
  lemma CountersMeetExact(c: Config, ids: set<nat>, events: seq<Event>, s: Sys)
    requires After(c, ids, events) == Some(s) && |ids| < U64_LIMIT
    ensures s.pool.metrics.bufferFull == s.pool.metrics.txDropped <==> Half(s.producers) == {}
  {
    EveryCallAccounted(c, ids, events, s);
    SameProducers(c, ids, events, s);
    SubsetCount(Half(s.producers), ids);
    EqualUpToWrap(s.pool.metrics.bufferFull, s.pool.metrics.txDropped, |Half(s.producers)|);
  }
}
