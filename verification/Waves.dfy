// Waves of four rounds: how GetOrderedVertices in pkg/consensus/state.go partitions and
// orders the stored vertices.
module Waves {
  import opened Model
  import opened DagSpec
  import opened Iteration
  import opened Delivery
  import opened Runs
  import opened Agreement
  import opened Consequences
  import opened Store

  const MAX_WAVE: u64 := 4

  function RoundForWave(wave: u64): u64 {
    Wrap(wave * MAX_WAVE)
  }

  /** The last round of a wave, with the wrap-around of start + MaxWave - 1. */
  function LastRound(wave: u64): u64 {
    Wrap(Wrap(RoundForWave(wave) + MAX_WAVE) - 1)
  }

  /** The condition of the loop over the rounds of a wave. */
  predicate Continues(wave: u64, r: u64) {
    r <= LastRound(wave)
  }

  /** The loop over rounds can end, except for the wave just below the wrap and the waves
      equal to it modulo 2^62: for those its condition holds of every 64-bit round. */
  lemma LoopEndsExact(wave: u64)
    ensures (exists r: u64 :: !Continues(wave, r)) <==> wave % 0x4000_0000_0000_0000 != 0x3FFF_FFFF_FFFF_FFFF
    ensures (exists r: u64 :: !Continues(wave, r)) ==> LastRound(wave) == RoundForWave(wave) + 3
  {
    assert RoundForWave(wave) == 4 * (wave % 0x4000_0000_0000_0000);
    var top: u64 := U64_MAX;
    assert Continues(wave, top) <==> LastRound(wave) == U64_MAX;
  }

  predicate InWave(wave: u64, r: u64) {
    RoundForWave(wave) <= r <= LastRound(wave)
  }

  lemma InWaveExact(wave: u64, r: u64)
    ensures InWave(wave, r) <==> r / 4 == wave % 0x4000_0000_0000_0000
  {
    assert RoundForWave(wave) == 4 * (wave % 0x4000_0000_0000_0000);
    assert LastRound(wave) == RoundForWave(wave) + 3;
  }

  /** Two waves share a round exactly when they are equal modulo 2^62, because the product
      with four wraps; otherwise they are disjoint. */
  lemma WavesShareExact(w1: u64, w2: u64)
    ensures (exists r: u64 :: InWave(w1, r) && InWave(w2, r)) <==>
      w1 % 0x4000_0000_0000_0000 == w2 % 0x4000_0000_0000_0000
  {
    forall r: u64 | InWave(w1, r) && InWave(w2, r)
      ensures w1 % 0x4000_0000_0000_0000 == w2 % 0x4000_0000_0000_0000
    {
      InWaveExact(w1, r);
      InWaveExact(w2, r);
    }
    if w1 % 0x4000_0000_0000_0000 == w2 % 0x4000_0000_0000_0000 {
      var first: u64 := 4 * (w1 % 0x4000_0000_0000_0000);
      InWaveExact(w1, first);
      InWaveExact(w2, first);
    }
  }

  // ----- listings of consecutive rounds -----

  /** `out` holds only vertices stored in the rounds from lo up to, not including, hi. */
  ghost predicate Faithful(d: Dag, lo: int, hi: int, out: seq<Vertex>) {
    forall v | v in out :: lo <= v.round < hi && v.hash in At(d, v.round) && At(d, v.round)[v.hash] == v
  }

  ghost predicate Complete(d: Dag, lo: int, hi: int, out: seq<Vertex>) {
    forall r: u64, h | lo <= r < hi && h in At(d, r) :: At(d, r)[h] in out
  }

  ghost predicate Ordered(out: seq<Vertex>) {
    forall i, j | 0 <= i < j < |out| :: out[i] != out[j] && out[i].round <= out[j].round
  }

  /** A listing without repetition, in order of rounds, of exactly the vertices stored in
      the rounds from lo up to hi. */
  ghost predicate Linearizes(d: Dag, lo: int, hi: int, out: seq<Vertex>) {
    Faithful(d, lo, hi, out) && Complete(d, lo, hi, out) && Ordered(out)
  }

  lemma LinearizesNothing(d: Dag, lo: int)
    ensures Linearizes(d, lo, lo, [])
  {
  }

  lemma OrderedConcat(a: seq<Vertex>, b: seq<Vertex>, mid: int)
    requires Ordered(a) && Ordered(b)
    requires (forall v | v in a :: v.round < mid) && (forall v | v in b :: mid <= v.round)
    ensures Ordered(a + b)
  {
    var out := a + b;
    forall i, j | 0 <= i < j < |out|
      ensures out[i] != out[j] && out[i].round <= out[j].round
    {
      assert i < |a| ==> out[i] == a[i] && out[i] in a;
      assert j >= |a| ==> out[j] == b[j - |a|] && out[j] in b;
      assert i >= |a| ==> out[i] == b[i - |a|];
      assert j < |a| ==> out[j] == a[j];
    }
  }

  lemma LinearizesConcat(d: Dag, lo: int, mid: int, hi: int, a: seq<Vertex>, b: seq<Vertex>)
    requires lo <= mid <= hi && Linearizes(d, lo, mid, a) && Linearizes(d, mid, hi, b)
    ensures Linearizes(d, lo, hi, a + b)
  {
    OrderedConcat(a, b, mid);
    assert forall v :: v in a + b <==> v in a || v in b;
    forall r: u64, h | lo <= r < hi && h in At(d, r)
      ensures At(d, r)[h] in a + b
    {
      assert r < mid || mid <= r;
    }
  }

  /** The vertices of one round, in any map order. */
  lemma OneRoundLinearizes(d: Dag, inserted: set<Vertex>, r: u64, out: seq<Vertex>)
    requires Stores(d, inserted) && Lists(At(d, r), out)
    ensures Linearizes(d, r, r + 1, out)
  {
    var m := At(d, r);
    var keys: seq<VertexHash> :| Arranges(keys, m.Keys) && |out| == |keys| && forall i | 0 <= i < |keys| :: out[i] == m[keys[i]];
    forall i | 0 <= i < |out|
      ensures out[i].hash == keys[i] && out[i].round == r && keys[i] in m
    {
      assert keys[i] in keys;
    }
    forall h | h in m
      ensures m[h] in out
    {
      var i :| 0 <= i < |keys| && keys[i] == h;
      assert out[i] == m[h];
    }
  }

  /** Every vertex lies under its own round and hash, as in each reachable store. */
  ghost predicate IsStore(d: Dag) {
    exists inserted: set<Vertex> :: Stores(d, inserted)
  }

  lemma StoresIsStore(d: Dag, inserted: set<Vertex>)
    requires Stores(d, inserted)
    ensures IsStore(d)
  {
  }

  /** In such a store the hashes of the vertices of a round are its keys. */
  lemma HashesAreKeys(d: Dag, r: u64, hs: seq<VertexHash>)
    requires IsStore(d) && ListsHashes(At(d, r), hs)
    ensures Arranges(hs, At(d, r).Keys)
  {
    var inserted: set<Vertex> :| Stores(d, inserted);
    var m := At(d, r);
    var keys: seq<VertexHash> :| Arranges(keys, m.Keys) && |hs| == |keys| && forall i | 0 <= i < |keys| :: hs[i] == m[keys[i]].hash;
    forall i | 0 <= i < |hs|
      ensures hs[i] == keys[i]
    {
      assert keys[i] in keys;
    }
    assert hs == keys;
  }

  /** One turn of the loop over the rounds of a wave; a missing round adds nothing. */
  lemma ListNextRound(d: Dag, lo: u64, r: u64, out: seq<Vertex>, vertices: Option<seq<Vertex>>)
    requires IsStore(d) && lo <= r && Linearizes(d, lo, r, out)
    requires vertices.Some? <==> r in d.vertices
    requires vertices.Some? ==> Lists(At(d, r), vertices.value)
    ensures Linearizes(d, lo, r + 1, if vertices.Some? then out + vertices.value else out)
  {
    var listed := if vertices.Some? then vertices.value else [];
    if vertices.None? {
      ListsNothing();
      assert out + listed == out;
    }
    var inserted: set<Vertex> :| Stores(d, inserted);
    OneRoundLinearizes(d, inserted, r, listed);
    LinearizesConcat(d, lo, r, r + 1, out, listed);
  }

  lemma BelowWrap(wave: u64)
    requires wave < 0x4000_0000_0000_0000
    ensures RoundForWave(wave) == 4 * wave
  {
  }

  ghost predicate WaveOutput(d: Dag, wave: u64, out: seq<Vertex>) {
    Linearizes(d, RoundForWave(wave), RoundForWave(wave) + 4, out)
  }

  lemma NextWave(d: Dag, wave: u64, before: seq<Vertex>, out: seq<Vertex>)
    requires wave < 0x3FFF_FFFF_FFFF_FFFF && Linearizes(d, 0, 4 * wave, before) && WaveOutput(d, wave, out)
    ensures Linearizes(d, 0, 4 * wave + 4, before + out)
  {
    BelowWrap(wave);
    LinearizesConcat(d, 0, 4 * wave, 4 * wave + 4, before, out);
  }

  /** Below the wrap the outputs of consecutive waves, one after the other, list every
      stored vertex of their rounds exactly once, in order of rounds. */
  lemma {:induction false} WavesPartition(d: Dag, outs: seq<seq<Vertex>>)
    requires |outs| <= 0x3FFF_FFFF_FFFF_FFFF
    requires forall w | 0 <= w < |outs| :: WaveOutput(d, w, outs[w])
    ensures Linearizes(d, 0, 4 * |outs|, Flatten(outs))
    decreases |outs|
  {
    if outs == [] {
      LinearizesNothing(d, 0);
    } else {
      var w := |outs| - 1;
      WavesPartition(d, outs[..w]);
      NextWave(d, w, Flatten(outs[..w]), outs[w]);
    }
  }

  // ----- ancestors first -----

  /** Every parent is stored in a lower round than its child. */
  ghost predicate ParentsLower(vs: set<Vertex>) {
    forall v, p | v in vs && p in v.parents.Keys :: exists w :: w in vs && w.hash == p && w.round < v.round
  }

  lemma {:induction false} AncestorStored(d: Dag, inserted: set<Vertex>, path: seq<VertexHash>, v: Vertex) returns (a: Vertex)
    requires StrongMatches(d, inserted) && ParentsLower(inserted) && Consistent(inserted)
    requires IsWalk(d, path) && v in inserted && path[0] == v.hash
    ensures a in inserted && a.hash == path[|path| - 1] && a.round < v.round
    decreases |path|
  {
    assert path[0 + 1] in Edges(d.strongEdges, path[0]);
    var w :| w in inserted && w.hash == path[1] && w.round < v.round;
    if |path| == 2 {
      a := w;
    } else {
      var tail := path[1..];
      forall k | 0 <= k < |tail| - 1
        ensures tail[k + 1] in Edges(d.strongEdges, tail[k])
      {
        assert path[k + 2] in Edges(d.strongEdges, path[k + 1]);
      }
      a := AncestorStored(d, inserted, tail, w);
    }
  }

  lemma OrderBefore(out: seq<Vertex>, i: nat, k: nat)
    requires Ordered(out) && i < |out| && k < |out| && out[k].round < out[i].round
    ensures k < i
  {
  }

  lemma ListedRound(d: Dag, inserted: set<Vertex>, hi: int, out: seq<Vertex>, k: nat, a: Vertex)
    requires Stores(d, inserted) && Consistent(inserted) && Faithful(d, 0, hi, out) && k < |out|
    requires a in inserted && out[k].hash == a.hash
    ensures out[k].round == a.round
  {
    assert out[k] in out;
    assert out[k] in inserted;
  }

  /** In a linearization a stored vertex of a lower round stands before. */
  lemma LowerFirst(d: Dag, inserted: set<Vertex>, hi: int, out: seq<Vertex>, i: nat, a: Vertex)
    requires Stores(d, inserted) && Consistent(inserted) && Linearizes(d, 0, hi, out) && i < |out|
    requires a in inserted && a.round < out[i].round
    ensures exists j :: 0 <= j < i && out[j].hash == a.hash
    ensures forall j | 0 <= j < |out| && out[j].hash == a.hash :: j < i
  {
    assert out[i] in out;
    var stored := At(d, a.round)[a.hash];
    assert stored in out && stored.hash == a.hash;
    var j :| 0 <= j < |out| && out[j] == stored;
    forall k | 0 <= k < |out| && out[k].hash == a.hash
      ensures k < i
    {
      ListedRound(d, inserted, hi, out, k, a);
      OrderBefore(out, i, k);
    }
  }

  /** When parents have lower rounds, a linearization from round 0 contains every ancestor
      of each of its vertices, before that vertex. */
  lemma AncestorsFirst(d: Dag, inserted: set<Vertex>, hi: int, out: seq<Vertex>, i: nat, path: seq<VertexHash>)
    requires Stores(d, inserted) && StrongMatches(d, inserted) && ParentsLower(inserted) && Consistent(inserted)
    requires Linearizes(d, 0, hi, out) && i < |out|
    requires IsWalk(d, path) && path[0] == out[i].hash
    ensures exists j :: 0 <= j < i && out[j].hash == path[|path| - 1]
    ensures forall j | 0 <= j < |out| && out[j].hash == path[|path| - 1] :: j < i
  {
    assert out[i] in out;
    var a := AncestorStored(d, inserted, path, out[i]);
    LowerFirst(d, inserted, hi, out, i, a);
  }

  /** A vertex lies above each of its parents that is among `vs`; others may be missing. */
  ghost predicate AboveParents(vs: set<Vertex>) {
    forall v, w | v in vs && w in vs && w.hash in v.parents.Keys :: w.round < v.round
  }

  /** In a run whose received vertices lie above their received parents, the stored ones lie
      above all of theirs. */
  lemma RunParentsLower(g: Vertex, ops: seq<Op>)
    requires ValidGenesis(g) && Consistent({g} + Received(ops))
    requires AboveParents({g} + Received(ops))
    ensures ParentsLower({g} + SetOf(Run(g, ops).log))
  {
    var n := Run(g, ops);
    var vs := {g} + SetOf(n.log);
    RunMatches(g, ops);
    StoresHashes(n.dag, vs);
    forall v, p | v in vs && p in v.parents.Keys
      ensures exists w :: w in vs && w.hash == p && w.round < v.round
    {
      assert v.hash in HashSet(vs);
      ParentStored(g, ops, v, p);
      var u :| u in vs && u.hash == p;
      assert u in {g} + Received(ops) && v in {g} + Received(ops);
    }
  }

  /** Every stored vertex of the rounds from lo up to hi has its hash listed, once. */
  ghost predicate ListsOnce(d: Dag, lo: int, hi: int, out: seq<Vertex>) {
    && (forall i, j | 0 <= i < j < |out| :: out[i].hash != out[j].hash)
    && (forall h :: h in HashesOf(out) <==> exists r: u64 :: lo <= r < hi && h in At(d, r))
  }

  lemma LinearizesOnce(d: Dag, inserted: set<Vertex>, lo: int, hi: int, out: seq<Vertex>)
    requires Stores(d, inserted) && Consistent(inserted) && Linearizes(d, lo, hi, out)
    ensures ListsOnce(d, lo, hi, out)
  {
    forall i, j | 0 <= i < j < |out|
      ensures out[i].hash != out[j].hash
    {
      assert out[i] in out && out[j] in out;
      assert out[i] in inserted && out[j] in inserted;
    }
    forall h
      ensures h in HashesOf(out) <==> exists r: u64 :: lo <= r < hi && h in At(d, r)
    {
      if r: u64 :| lo <= r < hi && h in At(d, r) {
        assert At(d, r)[h] in out && At(d, r)[h].hash == h;
      }
      if h in HashesOf(out) {
        var v :| v in out && v.hash == h;
        assert lo <= v.round < hi && h in At(d, v.round);
      }
    }
  }

  /** The DAG of every run is such a store, so what GetOrderedVertices promises of a store it
      promises of every state that a node reaches. */
  lemma RunIsStore(g: Vertex, ops: seq<Op>)
    requires ValidGenesis(g) && Consistent({g} + Received(ops))
    ensures IsStore(Run(g, ops).dag)
  {
    var vs := RunEntries(g, ops, {g} + Received(ops));
    StoresIsStore(Run(g, ops).dag, vs);
  }

  /** In any run, marked or not: the outputs of the first waves, one after the other, list
      every stored vertex of their rounds once, in order of rounds. */
  lemma RunPartition(g: Vertex, ops: seq<Op>, outs: seq<seq<Vertex>>)
    requires ValidGenesis(g) && Consistent({g} + Received(ops))
    requires |outs| <= 0x3FFF_FFFF_FFFF_FFFF
    requires forall w | 0 <= w < |outs| :: WaveOutput(Run(g, ops).dag, w, outs[w])
    ensures Linearizes(Run(g, ops).dag, 0, 4 * |outs|, Flatten(outs))
    ensures ListsOnce(Run(g, ops).dag, 0, 4 * |outs|, Flatten(outs))
  {
    var n := Run(g, ops);
    var vs := {g} + SetOf(n.log);
    RunMatches(g, ops);
    ConsistentSubset(vs, {g} + Received(ops));
    WavesPartition(n.dag, outs);
    LinearizesOnce(n.dag, vs, 0, 4 * |outs|, Flatten(outs));
  }

  /** When received vertices lie above those of their parents that were received, every
      ancestor of a listed vertex is listed, and stands before it. */
  lemma RunLinearized(g: Vertex, ops: seq<Op>, outs: seq<seq<Vertex>>, i: nat, path: seq<VertexHash>)
    requires ValidGenesis(g) && Consistent({g} + Received(ops)) && AboveParents({g} + Received(ops))
    requires |outs| <= 0x3FFF_FFFF_FFFF_FFFF
    requires forall w | 0 <= w < |outs| :: WaveOutput(Run(g, ops).dag, w, outs[w])
    requires i < |Flatten(outs)| && IsWalk(Run(g, ops).dag, path) && path[0] == Flatten(outs)[i].hash
    ensures exists j :: 0 <= j < i && Flatten(outs)[j].hash == path[|path| - 1]
    ensures forall j | 0 <= j < |Flatten(outs)| && Flatten(outs)[j].hash == path[|path| - 1] :: j < i
  {
    var n := Run(g, ops);
    var vs := {g} + SetOf(n.log);
    RunMatches(g, ops);
    RunParentsLower(g, ops);
    ConsistentSubset(vs, {g} + Received(ops));
    RunPartition(g, ops, outs);
    AncestorsFirst(n.dag, vs, 4 * |outs|, Flatten(outs), i, path);
  }
}
