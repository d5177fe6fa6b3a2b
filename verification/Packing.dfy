// The block builder of pkg/transaction/transaction.go packs greedily: arithmetic of the
// longest fitting prefix, optimality, and bounds on the number of blocks.
module Packing {
  import opened Model

  function Size(txs: seq<Transaction>): nat {
    if txs == [] then 0 else |txs[0]| + Size(txs[1..])
  }

  /** How many transactions the selection loop takes before one does not fit. */
  function Fit(txs: seq<Transaction>, limit: nat): (k: nat)
    ensures k <= |txs|
    decreases |txs|
  {
    if txs == [] || |txs[0]| > limit then 0 else 1 + Fit(txs[1..], limit - |txs[0]|)
  }

  /** The longest prefix within the limit. */
  ghost predicate LongestFit(txs: seq<Transaction>, limit: nat, k: nat) {
    k <= |txs| && Size(txs[..k]) <= limit && (k < |txs| ==> Size(txs[..k + 1]) > limit)
  }

  lemma {:induction false} FitLongest(txs: seq<Transaction>, limit: nat)
    ensures LongestFit(txs, limit, Fit(txs, limit))
    decreases |txs|
  {
    if txs == [] {
    } else if |txs[0]| > limit {
      assert txs[..1][1..] == txs[1..1];
    } else {
      var tail, k := txs[1..], Fit(txs[1..], limit - |txs[0]|);
      FitLongest(tail, limit - |txs[0]|);
      assert txs[..k + 1][1..] == tail[..k];
      if k < |tail| {
        assert txs[..k + 2][1..] == tail[..k + 1];
      }
    }
  }

  lemma {:induction false} SizeConcat(a: seq<Transaction>, b: seq<Transaction>)
    ensures Size(a + b) == Size(a) + Size(b)
    decreases |a|
  {
    if a == [] {
      assert a + b == b;
    } else {
      assert (a + b)[1..] == a[1..] + b;
      SizeConcat(a[1..], b);
    }
  }

  lemma SizeSnoc(txs: seq<Transaction>, tx: Transaction)
    ensures Size(txs + [tx]) == Size(txs) + |tx|
  {
    SizeConcat(txs, [tx]);
    var one := [tx];
    assert one[1..] == [];
  }

  lemma SizePrefix(txs: seq<Transaction>, j: nat, k: nat)
    requires j <= k <= |txs|
    ensures Size(txs[..j]) <= Size(txs[..k])
  {
    assert txs[..k] == txs[..j] + txs[j..k];
    SizeConcat(txs[..j], txs[j..k]);
  }

  /** Only one prefix is the longest that fits. */
  lemma LongestFitUnique(txs: seq<Transaction>, limit: nat, j: nat, k: nat)
    requires LongestFit(txs, limit, j) && LongestFit(txs, limit, k)
    ensures j == k
  {
    if j < k {
      SizePrefix(txs, j + 1, k);
    } else if k < j {
      SizePrefix(txs, k + 1, j);
    }
  }

  // ----- repeated calls without arrivals -----

  ghost predicate AllFit(txs: seq<Transaction>, limit: nat) {
    forall tx | tx in txs :: |tx| <= limit
  }

  /** What is left in the buffer after some calls of createBlock. */
  ghost function AfterCalls(txs: seq<Transaction>, limit: nat, calls: nat): seq<Transaction>
    decreases calls
  {
    if calls == 0 then txs else AfterCalls(txs[Fit(txs, limit)..], limit, calls - 1)
  }

  /** The blocks that empty the buffer, one a call. */
  ghost function Blocks(txs: seq<Transaction>, limit: nat): seq<seq<Transaction>>
    requires AllFit(txs, limit)
    decreases |txs|
  {
    if txs == [] then []
    else
      assert txs[0] in txs;
      [txs[..Fit(txs, limit)]] + Blocks(txs[Fit(txs, limit)..], limit)
  }

  /** A way to cut the buffer into contiguous blocks within the limit. */
  ghost predicate IsSplit(txs: seq<Transaction>, limit: nat, split: seq<seq<Transaction>>) {
    Flatten(split) == txs && forall b | b in split :: Size(b) <= limit
  }

  lemma BlocksStep(txs: seq<Transaction>, limit: nat)
    requires AllFit(txs, limit) && txs != []
    ensures Fit(txs, limit) > 0
    ensures Blocks(txs, limit) == [txs[..Fit(txs, limit)]] + Blocks(txs[Fit(txs, limit)..], limit)
  {
    assert txs[0] in txs;
  }

  lemma SplitMore(first: seq<Transaction>, rest: seq<Transaction>, limit: nat, split: seq<seq<Transaction>>)
    requires Size(first) <= limit && IsSplit(rest, limit, split)
    ensures IsSplit(first + rest, limit, [first] + split)
  {
    FlattenCons(first, split);
  }

  lemma {:induction false} BlocksSplit(txs: seq<Transaction>, limit: nat)
    requires AllFit(txs, limit)
    ensures IsSplit(txs, limit, Blocks(txs, limit))
    decreases |txs|
  {
    if txs == [] {
    } else {
      var k := Fit(txs, limit);
      BlocksStep(txs, limit);
      FitLongest(txs, limit);
      BlocksSplit(txs[k..], limit);
      SplitMore(txs[..k], txs[k..], limit, Blocks(txs[k..], limit));
      assert txs == txs[..k] + txs[k..];
    }
  }

  lemma {:induction false} EmptyStays(limit: nat, calls: nat)
    ensures AfterCalls([], limit, calls) == []
    decreases calls
  {
    if calls == 0 {
    } else {
      EmptyStays(limit, calls - 1);
    }
  }

  /** Exactly the calls from the number of blocks on leave the buffer empty. */
  lemma {:induction false} CallsNeeded(txs: seq<Transaction>, limit: nat, calls: nat)
    requires AllFit(txs, limit)
    ensures AfterCalls(txs, limit, calls) == [] <==> calls >= |Blocks(txs, limit)|
    decreases calls
  {
    if txs == [] {
      EmptyStays(limit, calls);
    } else {
      BlocksStep(txs, limit);
      if calls > 0 {
        CallsNeeded(txs[Fit(txs, limit)..], limit, calls - 1);
      }
    }
  }

  lemma TxWithin(txs: seq<Transaction>, i: nat)
    requires i < |txs|
    ensures |txs[i]| <= Size(txs)
  {
    assert txs == txs[..i] + ([txs[i]] + txs[i + 1..]);
    SizeConcat(txs[..i], [txs[i]] + txs[i + 1..]);
  }

  lemma {:induction false} StuckForever(txs: seq<Transaction>, limit: nat, calls: nat)
    requires !AllFit(txs, limit)
    ensures AfterCalls(txs, limit, calls) != []
    decreases calls
  {
    if calls == 0 {
    } else {
      var k := Fit(txs, limit);
      FitLongest(txs, limit);
      var tx :| tx in txs && |tx| > limit;
      var i :| 0 <= i < |txs| && txs[i] == tx;
      if i < k {
        TxWithin(txs[..k], i);
      }
      assert txs[k..][i - k] == tx;
      StuckForever(txs[k..], limit, calls - 1);
    }
  }

  /** Some number of calls empties the buffer exactly when no transaction exceeds the
      limit. An oversized one is never removed: blocks made while it heads the buffer are
      empty. */
  lemma DrainExact(txs: seq<Transaction>, limit: nat)
    ensures (exists calls: nat :: AfterCalls(txs, limit, calls) == []) <==> AllFit(txs, limit)
  {
    if AllFit(txs, limit) {
      CallsNeeded(txs, limit, |Blocks(txs, limit)|);
    } else {
      forall calls: nat
        ensures AfterCalls(txs, limit, calls) != []
      {
        StuckForever(txs, limit, calls);
      }
    }
  }

  // ----- optimality -----

  lemma SplitTail(txs: seq<Transaction>, limit: nat, split: seq<seq<Transaction>>)
    requires AllFit(txs, limit) && IsSplit(txs, limit, split) && split != []
    ensures txs == split[0] + Flatten(split[1..]) && Size(split[0]) <= limit
    ensures IsSplit(Flatten(split[1..]), limit, split[1..]) && AllFit(Flatten(split[1..]), limit)
  {
    assert split == [split[0]] + split[1..];
    FlattenCons(split[0], split[1..]);
  }

  /** A greedy block that starts inside a fitting block reaches at least its end. */
  lemma FitReaches(first: seq<Transaction>, rest: seq<Transaction>, limit: nat, from: nat)
    requires Size(first) <= limit && from <= |first|
    ensures Fit((first + rest)[from..], limit) >= |first| - from
  {
    var tail := (first + rest)[from..];
    var k := Fit(tail, limit);
    FitLongest(tail, limit);
    if k < |first| - from {
      SizePrefix(tail, k + 1, |first| - from);
      assert tail[..|first| - from] == first[from..];
      assert first == first[..from] + first[from..];
      SizeConcat(first[..from], first[from..]);
    }
  }

  /** Where in `rest` the greedy blocks go on once they have left `first`: at most one block
      lies in front. */
  lemma NextCut(first: seq<Transaction>, rest: seq<Transaction>, limit: nat, from: nat) returns (next: nat)
    requires AllFit(first + rest, limit) && AllFit(rest, limit) && Size(first) <= limit && from <= |first + rest|
    ensures next <= |rest|
    ensures |Blocks((first + rest)[from..], limit)| <= 1 + |Blocks(rest[next..], limit)|
  {
    var tail := (first + rest)[from..];
    if |first| <= from {
      next := from - |first|;
      assert tail == rest[next..];
    } else {
      FitReaches(first, rest, limit, from);
      next := from + Fit(tail, limit) - |first|;
      BlocksStep(tail, limit);
      assert tail[Fit(tail, limit)..] == rest[next..];
    }
  }

  /** From any point of the buffer on, greedy blocks are no more than the blocks of any
      order-preserving split of the whole buffer. */
  lemma {:induction false} GreedyStaysAhead(txs: seq<Transaction>, limit: nat, from: nat, split: seq<seq<Transaction>>)
    requires AllFit(txs, limit) && from <= |txs| && IsSplit(txs, limit, split)
    ensures |Blocks(txs[from..], limit)| <= |split|
    decreases |split|
  {
    if split == [] {
      assert txs[from..] == [];
    } else {
      var first, rest := split[0], Flatten(split[1..]);
      SplitTail(txs, limit, split);
      var next := NextCut(first, rest, limit, from);
      GreedyStaysAhead(rest, limit, next, split[1..]);
    }
  }

  /** Greedy packing is optimal: no order-preserving split has fewer blocks, and the greedy
      blocks are such a split. */
  lemma GreedyOptimal(txs: seq<Transaction>, limit: nat, split: seq<seq<Transaction>>)
    requires AllFit(txs, limit) && IsSplit(txs, limit, split)
    ensures IsSplit(txs, limit, Blocks(txs, limit))
    ensures AfterCalls(txs, limit, |Blocks(txs, limit)|) == []
    ensures forall calls: nat | AfterCalls(txs, limit, calls) == [] :: calls >= |Blocks(txs, limit)|
    ensures |Blocks(txs, limit)| <= |split|
  {
    BlocksSplit(txs, limit);
    CallsNeeded(txs, limit, |Blocks(txs, limit)|);
    forall calls: nat | AfterCalls(txs, limit, calls) == []
      ensures calls >= |Blocks(txs, limit)|
    {
      CallsNeeded(txs, limit, calls);
    }
    GreedyStaysAhead(txs, limit, 0, split);
    assert txs[0..] == txs;
  }

  // ----- bounds -----

  /** Two consecutive greedy blocks together exceed the limit. */
  lemma {:induction false} Consecutive(txs: seq<Transaction>, limit: nat, i: nat)
    requires AllFit(txs, limit) && i + 1 < |Blocks(txs, limit)|
    ensures Size(Blocks(txs, limit)[i]) + Size(Blocks(txs, limit)[i + 1]) > limit
    decreases i
  {
    assert txs[0] in txs;
    var k := Fit(txs, limit);
    var rest := txs[k..];
    if i > 0 {
      Consecutive(rest, limit, i - 1);
    } else {
      FitLongest(txs, limit);
      assert rest != [];
      assert txs[..k + 1] == txs[..k] + [txs[k]];
      SizeConcat(txs[..k], [txs[k]]);
      assert rest[0] in rest && Fit(rest, limit) > 0;
      TxWithin(rest[..Fit(rest, limit)], 0);
      assert txs[k..k + 1] == [txs[k]] && txs[k..k + 1][1..] == txs[k + 1..k + 1];
    }
  }

  lemma Distribute(n: int, limit: nat)
    ensures n * limit == (n - 1) * limit + limit
  {
  }

  lemma {:induction false} BoundWithFirst(txs: seq<Transaction>, limit: nat)
    requires AllFit(txs, limit) && txs != []
    ensures (|Blocks(txs, limit)| - 1) * limit + Size(txs[..Fit(txs, limit)]) <= 2 * Size(txs)
    decreases |txs|
  {
    BlocksStep(txs, limit);
    var k := Fit(txs, limit);
    var first, rest := txs[..k], txs[k..];
    assert txs == first + rest;
    SizeConcat(first, rest);
    if rest == [] {
      assert (1 - 1) * limit == 0;
    } else {
      BoundWithFirst(rest, limit);
      BlocksStep(rest, limit);
      Consecutive(txs, limit, 0);
      Distribute(|Blocks(rest, limit)|, limit);
    }
  }

  /** Draining S bytes takes k blocks with (k - 1) * limit <= 2 * S. */
  lemma PackingBound(txs: seq<Transaction>, limit: nat)
    requires AllFit(txs, limit)
    ensures (|Blocks(txs, limit)| - 1) * limit <= 2 * Size(txs)
  {
    if txs == [] {
      assert (0 - 1) * limit <= 0;
    } else {
      BoundWithFirst(txs, limit);
    }
  }

  /** All transactions have one size. */
  ghost predicate Uniform(txs: seq<Transaction>, size: nat) {
    forall tx | tx in txs :: |tx| == size
  }

  lemma {:induction false} UniformSize(txs: seq<Transaction>, size: nat)
    requires Uniform(txs, size)
    ensures Size(txs) == |txs| * size
    decreases |txs|
  {
    if txs == [] {
    } else {
      assert txs[0] in txs;
      UniformSize(txs[1..], size);
      Distribute(|txs|, size);
    }
  }

  /** The limit holds m transactions of this size, and not one more. */
  predicate Holds(limit: nat, size: nat, m: nat) {
    m * size <= limit < (m + 1) * size
  }

  lemma {:induction false} UniformFit(txs: seq<Transaction>, size: nat, m: nat, limit: nat)
    requires Uniform(txs, size) && Holds(limit, size, m)
    ensures Fit(txs, limit) == if |txs| <= m then |txs| else m
    decreases |txs|
  {
    if txs == [] {
    } else {
      assert txs[0] in txs;
      if m > 0 {
        Distribute(m, size);
        Distribute(m + 1, size);
        UniformFit(txs[1..], size, m - 1, limit - size);
      }
    }
  }

  function CeilDiv(total: nat, limit: nat): nat
    requires limit > 0
  {
    (total + limit - 1) / limit
  }

  lemma MulMonotone(n: nat, m: nat, size: nat)
    requires n <= m
    ensures n * size <= m * size
  {
  }

  lemma DivUnique(x: nat, b: nat, q: nat, r: nat)
    requires b > 0 && x == q * b + r && r < b
    ensures x / b == q
  {
    var p := x / b;
    assert x == p * b + x % b;
    Distribute(p + 1, b);
    Distribute(q + 1, b);
    if p < q {
      MulMonotone(p + 1, q, b);
    } else if q < p {
      MulMonotone(q + 1, p, b);
    }
  }

  lemma DivSmall(x: nat, b: nat)
    requires x < b
    ensures x / b == 0
  {
    DivUnique(x, b, 0, x);
  }

  lemma DivShift(x: nat, b: nat)
    requires b > 0
    ensures (x + b) / b == x / b + 1
  {
    var q, r := x / b, x % b;
    assert (q + 1) * b == q * b + b;
    DivUnique(x + b, b, q + 1, r);
  }

  lemma CeilStep(total: nat, rest: nat, limit: nat)
    requires limit > 0
    requires (rest == 0 && 0 < total <= limit) || total == rest + limit
    ensures CeilDiv(total, limit) == 1 + CeilDiv(rest, limit)
  {
    DivShift(total - 1, limit);
    if total != rest + limit {
      DivSmall(total - 1, limit);
      DivSmall(limit - 1, limit);
    } else {
      DivShift(rest + limit - 1, limit);
    }
  }

  lemma MulSplit(n: nat, m: nat, size: nat)
    requires m <= n
    ensures n * size == (n - m) * size + m * size
  {
  }

  lemma UniformRest(txs: seq<Transaction>, size: nat, m: nat, limit: nat)
    requires Uniform(txs, size) && size > 0 && limit == m * size && txs != []
    ensures var rest := txs[Fit(txs, limit)..];
      (Size(rest) == 0 && 0 < Size(txs) <= limit) || Size(txs) == Size(rest) + limit
  {
    Distribute(m + 1, size);
    UniformFit(txs, size, m, limit);
    UniformSize(txs, size);
    UniformSize(txs[Fit(txs, limit)..], size);
    if |txs| <= m {
      MulMonotone(1, |txs|, size);
      MulMonotone(|txs|, m, size);
    } else {
      MulSplit(|txs|, m, size);
    }
  }

  lemma UniformFits(txs: seq<Transaction>, size: nat, m: nat, limit: nat)
    requires Uniform(txs, size) && Holds(limit, size, m) && m > 0
    ensures AllFit(txs, limit)
  {
    MulMonotone(1, m, size);
  }

  /** Transactions of one size, m of which and no more fit a block, need exactly as many
      blocks as the ceiling of their number by m, whether or not the size divides the
      limit. */
  lemma {:induction false} UniformCount(txs: seq<Transaction>, size: nat, m: nat, limit: nat)
    requires Uniform(txs, size) && Holds(limit, size, m) && m > 0
    ensures AllFit(txs, limit) && |Blocks(txs, limit)| == CeilDiv(|txs|, m)
    decreases |txs|
  {
    UniformFits(txs, size, m, limit);
    if txs == [] {
      DivSmall(m - 1, m);
    } else {
      var rest := txs[Fit(txs, limit)..];
      UniformFit(txs, size, m, limit);
      BlocksStep(txs, limit);
      UniformCount(rest, size, m, limit);
      CeilStep(|txs|, |rest|, m);
    }
  }

  /** Transactions of one size that divides the limit need exactly as many blocks as the
      ceiling of total size by limit. */
  lemma {:induction false} DividingCount(txs: seq<Transaction>, size: nat, m: nat, limit: nat)
    requires Uniform(txs, size) && size > 0 && limit > 0 && limit == m * size
    requires AllFit(txs, limit)
    ensures |Blocks(txs, limit)| == CeilDiv(Size(txs), limit)
    decreases |txs|
  {
    if txs == [] {
      DivSmall(limit - 1, limit);
    } else {
      var rest := txs[Fit(txs, limit)..];
      BlocksStep(txs, limit);
      DividingCount(rest, size, m, limit);
      UniformRest(txs, size, m, limit);
      CeilStep(Size(txs), Size(rest), limit);
    }
  }
}
