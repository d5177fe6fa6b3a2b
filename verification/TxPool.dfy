// The transaction buffer of pkg/transaction/transaction.go: its locked steps on values, and
// the coordinator object whose methods take them.
module TxPool {
  import opened Model
  import opened Identity
  import opened Packing

  /** The counters of the metrics struct that count things. */
  datatype Metrics = Metrics(
    blockCount: u64,
    txProcessed: u64,
    txReceived: u64,
    txDropped: u64,
    bufferFull: u64,
    blocksDropped: u64)

  /** The block channel; `sent` and `taken` are the blocks that ever entered and left it. */
  datatype Channel = Channel(queue: seq<Block>, sent: seq<Block>, taken: seq<Block>)

  /** The shared state. `accepted` and `created` are history: every transaction appended and
      every block made, in order. */
  datatype Pool = Pool(
    txBuffer: seq<Transaction>,
    blockHeight: u64,
    metrics: Metrics,
    channel: Channel,
    accepted: seq<Transaction>,
    created: seq<Block>)

  datatype Config = Config(H: Hasher, bufferSize: nat, maxBlockSize: nat, channelCapacity: nat)

  const BUFFER_SIZE: nat := 100000
  const CHANNEL_CAPACITY: nat := 10000

  ghost function Empty(): Pool {
    Pool([], 0, Metrics(0, 0, 0, 0, 0, 0), Channel([], [], []), [], [])
  }

  // ----- the atomic steps -----

  ghost function Append(p: Pool, tx: Transaction): Pool {
    p.(txBuffer := p.txBuffer + [tx], accepted := p.accepted + [tx])
  }

  ghost function CountFull(p: Pool): Pool {
    p.(metrics := p.metrics.(bufferFull := Wrap(p.metrics.bufferFull + 1)))
  }

  ghost function CountDropped(p: Pool): Pool {
    p.(metrics := p.metrics.(txDropped := Wrap(p.metrics.txDropped + 1)))
  }

  /** Both counters of a refused transaction; between the two others may run. */
  ghost function Reject(p: Pool): Pool {
    CountDropped(CountFull(p))
  }

  ghost function CountReceived(p: Pool): Pool {
    p.(metrics := p.metrics.(txReceived := Wrap(p.metrics.txReceived + 1)))
  }

  ghost function NextBlock(c: Config, p: Pool): Block {
    NewBlock(c.H, p.blockHeight, p.txBuffer[..Fit(p.txBuffer, c.maxBlockSize)])
  }

  /** The longest fitting prefix leaves the buffer as the next block. */
  ghost function Select(c: Config, p: Pool): Pool {
    var k := Fit(p.txBuffer, c.maxBlockSize);
    p.(
      txBuffer := p.txBuffer[k..],
      blockHeight := Wrap(p.blockHeight + 1),
      metrics := p.metrics.(
        blockCount := Wrap(p.metrics.blockCount + 1),
        txProcessed := Wrap(p.metrics.txProcessed + k)),
      created := p.created + [NextBlock(c, p)])
  }

  /** The send that does not wait: a block is dropped when the channel is full. */
  ghost function Send(c: Config, p: Pool, block: Block): Pool {
    if |p.channel.queue| < c.channelCapacity then
      p.(channel := p.channel.(queue := p.channel.queue + [block], sent := p.channel.sent + [block]))
    else
      p.(metrics := p.metrics.(blocksDropped := Wrap(p.metrics.blocksDropped + 1)))
  }

  /** The locked part of createBlock. */
  ghost function Cut(c: Config, p: Pool): Pool {
    Send(c, Select(c, p), NextBlock(c, p))
  }

  /** A consumer receives the oldest block of the channel. */
  ghost function Take(p: Pool): Pool
    requires p.channel.queue != []
  {
    p.(channel := p.channel.(queue := p.channel.queue[1..], taken := p.channel.taken + [p.channel.queue[0]]))
  }

  ghost function Contents(blocks: seq<Block>): seq<seq<Transaction>> {
    seq(|blocks|, i requires 0 <= i < |blocks| => blocks[i].transactions)
  }

  lemma ContentsSnoc(blocks: seq<Block>, b: Block)
    ensures Contents(blocks + [b]) == Contents(blocks) + [b.transactions]
  {
  }

  // ----- calls of createBlock without arrivals -----

  ghost function CreateOnce(c: Config, p: Pool): Pool {
    if p.txBuffer == [] then p else Cut(c, p)
  }

  ghost function Calls(c: Config, p: Pool, n: nat): Pool
    decreases n
  {
    if n == 0 then p else Calls(c, CreateOnce(c, p), n - 1)
  }

  /** Repeated calls leave in the buffer what the packing arithmetic says they leave. */
  lemma {:induction false} CallsBuffer(c: Config, p: Pool, n: nat)
    ensures Calls(c, p, n).txBuffer == AfterCalls(p.txBuffer, c.maxBlockSize, n)
    decreases n
  {
    if n == 0 {
    } else {
      CallsBuffer(c, CreateOnce(c, p), n - 1);
      if p.txBuffer == [] {
        assert p.txBuffer[Fit(p.txBuffer, c.maxBlockSize)..] == [];
      }
    }
  }

  lemma CutParts(c: Config, p: Pool)
    ensures var k := Fit(p.txBuffer, c.maxBlockSize);
      Cut(c, p).txBuffer == p.txBuffer[k..] &&
      Contents(Cut(c, p).created) == Contents(p.created) + [p.txBuffer[..k]]
  {
    ContentsSnoc(p.created, NextBlock(c, p));
  }

  lemma DrainStep(c: Config, p: Pool, n: nat)
    requires p.txBuffer != []
    ensures Calls(c, p, n + 1) == Calls(c, Cut(c, p), n)
  {
  }

  lemma ConcatHead<T>(a: seq<T>, b: seq<T>)
    requires b != []
    ensures a + [b[0]] + b[1..] == a + b
  {
  }

  lemma BlocksTail(txs: seq<Transaction>, limit: nat, blocks: seq<seq<Transaction>>)
    requires AllFit(txs, limit) && txs != [] && blocks == Blocks(txs, limit)
    ensures var rest := txs[Fit(txs, limit)..];
      AllFit(rest, limit) && blocks != [] && blocks[0] == txs[..Fit(txs, limit)] && blocks[1..] == Blocks(rest, limit)
  {
    BlocksStep(txs, limit);
  }

  lemma {:induction false} CreatesBlocks(c: Config, p: Pool, blocks: seq<seq<Transaction>>)
    requires AllFit(p.txBuffer, c.maxBlockSize) && blocks == Blocks(p.txBuffer, c.maxBlockSize)
    ensures Contents(Calls(c, p, |blocks|).created) == Contents(p.created) + blocks
    decreases |blocks|
  {
    if p.txBuffer == [] {
    } else {
      var q := Cut(c, p);
      CutParts(c, p);
      BlocksTail(p.txBuffer, c.maxBlockSize, blocks);
      CreatesBlocks(c, q, blocks[1..]);
      DrainStep(c, p, |blocks| - 1);
      ConcatHead(Contents(p.created), blocks);
    }
  }

  /** The calls that empty the buffer create exactly the greedy blocks, in order; no
      order-preserving split of the buffer has fewer. */
  lemma DrainCreates(c: Config, p: Pool)
    requires AllFit(p.txBuffer, c.maxBlockSize)
    ensures var blocks := Blocks(p.txBuffer, c.maxBlockSize);
      Calls(c, p, |blocks|).txBuffer == [] &&
      Contents(Calls(c, p, |blocks|).created) == Contents(p.created) + blocks
  {
    var blocks := Blocks(p.txBuffer, c.maxBlockSize);
    CallsBuffer(c, p, |blocks|);
    CallsNeeded(p.txBuffer, c.maxBlockSize, |blocks|);
    CreatesBlocks(c, p, blocks);
  }

  // ----- the selection loop -----

  /** The selection loop of createBlock, with its running total. */
  method SelectTransactions(txBuffer: seq<Transaction>, maxBlockSize: nat) returns (blockTxs: seq<Transaction>)
    ensures LongestFit(txBuffer, maxBlockSize, |blockTxs|) && blockTxs == txBuffer[..|blockTxs|]
    ensures |blockTxs| == Fit(txBuffer, maxBlockSize)
  {
    FitLongest(txBuffer, maxBlockSize);
    blockTxs := [];
    var totalSize := 0;
    for i := 0 to |txBuffer|
      invariant blockTxs == txBuffer[..i] && totalSize == Size(blockTxs) <= maxBlockSize
    {
      var tx := txBuffer[i];
      assert txBuffer[..i + 1] == txBuffer[..i] + [tx];
      SizeSnoc(txBuffer[..i], tx);
      if totalSize + |tx| <= maxBlockSize {
        blockTxs := blockTxs + [tx];
        totalSize := totalSize + |tx|;
      } else {
        break;
      }
    }
    LongestFitUnique(txBuffer, maxBlockSize, |blockTxs|, Fit(txBuffer, maxBlockSize));
  }

  // ----- the object -----

  class Coordinator {
    const config: Config
    var stopped: bool
    var txBuffer: seq<Transaction>
    var blockHeight: u64
    var metrics: Metrics
    var blockCh: seq<Block>
    ghost var accepted: seq<Transaction>
    ghost var created: seq<Block>
    ghost var sent: seq<Block>
    ghost var taken: seq<Block>

    ghost function View(): Pool
      reads this
    {
      Pool(txBuffer, blockHeight, metrics, Channel(blockCh, sent, taken), accepted, created)
    }

    constructor (H: Hasher, maxBlockSize: nat)
      ensures View() == Empty() && !stopped
      ensures txBuffer == [] && blockHeight == 0 && metrics == Metrics(0, 0, 0, 0, 0, 0) && blockCh == []
      ensures config == Config(H, 100000, maxBlockSize, 10000)
    {
      config := Config(H, BUFFER_SIZE, maxBlockSize, CHANNEL_CAPACITY);
      stopped := false;
      txBuffer, blockCh := [], [];
      blockHeight, metrics := 0, Metrics(0, 0, 0, 0, 0, 0);
      accepted, created, sent, taken := [], [], [], [];
    }

    /** The check under the read lock. */
    method ReadCheck() returns (room: bool)
      modifies this
      ensures room <==> |old(txBuffer)| < config.bufferSize
      ensures View() == if room then old(View()) else Reject(old(View()))
      ensures stopped == old(stopped)
    {
      if |txBuffer| >= config.bufferSize {
        metrics := metrics.(bufferFull := Wrap(metrics.bufferFull + 1));
        metrics := metrics.(txDropped := Wrap(metrics.txDropped + 1));
        return false;
      }
      return true;
    }

    /** The part under the write lock, which checks again. */
    method LockedAppend(tx: Transaction) returns (appended: bool)
      modifies this
      ensures appended <==> |old(txBuffer)| < config.bufferSize
      ensures View() == if appended then Append(old(View()), tx) else Reject(old(View()))
      ensures stopped == old(stopped)
    {
      if |txBuffer| >= config.bufferSize {
        metrics := metrics.(bufferFull := Wrap(metrics.bufferFull + 1));
        metrics := metrics.(txDropped := Wrap(metrics.txDropped + 1));
        return false;
      }
      txBuffer := txBuffer + [tx];
      accepted := accepted + [tx];
      return true;
    }

    /** The three steps with no other goroutine in between. */
    method AddTransaction(tx: Transaction)
      modifies this
      ensures View() ==
        if old(stopped) then old(View())
        else if |old(txBuffer)| >= config.bufferSize then Reject(old(View()))
        else CountReceived(Append(old(View()), tx))
      ensures stopped == old(stopped)
    {
      if stopped {
        return;
      }
      var room := ReadCheck();
      if !room {
        return;
      }
      var appended := LockedAppend(tx);
      if !appended {
        return;
      }
      metrics := metrics.(txReceived := Wrap(metrics.txReceived + 1));
    }

    method SendBlock(block: Block) returns (blocked: bool)
      modifies this
      ensures View() == Send(config, old(View()), block)
      ensures if |old(blockCh)| < config.channelCapacity
        then blockCh == old(blockCh) + [block] && metrics == old(metrics)
        else blockCh == old(blockCh) && metrics == old(metrics).(blocksDropped := Wrap(old(metrics).blocksDropped + 1))
      ensures blocked <==> |old(blockCh)| >= config.channelCapacity
      ensures stopped == old(stopped)
    {
      if |blockCh| < config.channelCapacity {
        blockCh := blockCh + [block];
        sent := sent + [block];
        return false;
      }
      metrics := metrics.(blocksDropped := Wrap(metrics.blocksDropped + 1));
      return true;
    }

    /** The block and its counters; its transactions leave the buffer. */
    method MakeBlock(blockTxs: seq<Transaction>) returns (block: Block)
      requires blockTxs == txBuffer[..Fit(txBuffer, config.maxBlockSize)]
      modifies this
      ensures View() == Select(config, old(View())) && block == NextBlock(config, old(View()))
      ensures blockCh == old(blockCh) && stopped == old(stopped)
    {
      block := NewBlock(config.H, blockHeight, blockTxs);
      blockHeight := Wrap(blockHeight + 1);
      metrics := metrics.(blockCount := Wrap(metrics.blockCount + 1));
      metrics := metrics.(txProcessed := Wrap(metrics.txProcessed + |blockTxs|));
      txBuffer := txBuffer[|blockTxs|..];
      created := created + [block];
    }

    method LockedCut() returns (blocked: bool)
      modifies this
      ensures View() == Cut(config, old(View()))
      ensures blocked <==> |old(blockCh)| >= config.channelCapacity
      ensures stopped == old(stopped)
    {
      var blockTxs := SelectTransactions(txBuffer, config.maxBlockSize);
      var block := MakeBlock(blockTxs);
      blocked := SendBlock(block);
    }

    method CreateBlock() returns (blocked: bool)
      modifies this
      ensures View() == CreateOnce(config, old(View()))
      ensures old(txBuffer) == [] ==> View() == old(View())
      ensures blocked <==> old(txBuffer) != [] && |old(blockCh)| >= config.channelCapacity
      ensures stopped == old(stopped)
    {
      if |txBuffer| == 0 {
        return false;
      }
      blocked := LockedCut();
    }

    method ReceiveBlock() returns (block: Block)
      requires blockCh != []
      modifies this
      ensures block == old(blockCh)[0] && View() == Take(old(View()))
      ensures stopped == old(stopped)
    {
      block := blockCh[0];
      blockCh := blockCh[1..];
      taken := taken + [block];
    }
  }
}
