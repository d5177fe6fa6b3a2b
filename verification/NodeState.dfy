// The State of pkg/consensus/state.go as the code has it: an object that owns a DAG and
// rebuilds its buffer in place. Each method is proved to make the step that module
// Delivery describes.
module NodeState {
  import opened Model
  import opened DagSpec
  import opened Delivery
  import opened DrainBound
  import opened Iteration
  import opened Store
  import opened Waves

  class State {
    const dag: DAG
    var currentRound: u64
    var deliveredVertices: set<VertexHash>
    var buffer: seq<Vertex>
    ghost var accepted: seq<Vertex>
    ghost var log: seq<Vertex>

    ghost function View(): Node
      reads this, dag
    {
      Node(dag.View(), currentRound, deliveredVertices, buffer, accepted, log)
    }

    constructor (genesis: Vertex)
      ensures fresh(dag) && View() == Init(genesis)
    {
      dag := new DAG(genesis);
      currentRound := 0;
      deliveredVertices := {genesis.hash};
      buffer := [];
      accepted, log := [], [];
    }

    method DeliverNow(vertex: Vertex)
      modifies this`deliveredVertices, this`log, dag
      ensures View() == Deliver(old(View()), vertex)
    {
      dag.InsertVertex(vertex);
      deliveredVertices := deliveredVertices + {vertex.hash};
      log := log + [vertex];
    }

    /** The test shared by AddVertex and the drain: the parents map is turned into a slice. */
    method IsReady(vertex: Vertex) returns (ready: bool)
      ensures ready <==> Ready(View(), vertex)
    {
      var parentHashes := KeysOf(vertex.parents);
      if vertex.round > currentRound {
        return false;
      }
      ready := dag.ContainsVertices(parentHashes);
    }

    /** One pass over the buffer, inserting while it scans. */
    method ScanBuffer() returns (processed: bool)
      modifies this, dag
      ensures var (m, rest) := Pass(old(View()), old(buffer));
        View() == m.(buffer := rest) && (processed <==> |rest| < |old(buffer)|)
    {
      processed := false;
      var remaining: seq<Vertex> := [];
      ghost var start := View();
      for i := 0 to |buffer|
        invariant buffer == start.buffer && View().buffer == start.buffer
        invariant Pass(View(), buffer[i..]).0 == Pass(start, start.buffer).0
        invariant remaining + Pass(View(), buffer[i..]).1 == Pass(start, start.buffer).1
        invariant |remaining| <= i && (processed <==> |remaining| < i)
      {
        var v := buffer[i];
        assert buffer[i..][1..] == buffer[i + 1..];
        var ready := IsReady(v);
        if ready {
          DeliverNow(v);
          processed := true;
        } else {
          ghost var rest := Pass(View(), buffer[i + 1..]).1;
          assert remaining + ([v] + rest) == remaining + [v] + rest;
          remaining := remaining + [v];
        }
      }
      assert buffer[|buffer|..] == [];
      assert remaining == Pass(start, start.buffer).1;
      buffer := remaining;
    }

    /** Passes until one of them inserts nothing; `passes` counts them. */
    method ProcessBuffer() returns (ghost passes: nat)
      modifies this, dag
      ensures View() == Drain(old(View()))
      ensures passes == TotalPasses(old(View()))
    {
      passes := 0;
      var processed := true;
      while processed
        invariant processed ==> Drain(View()) == Drain(old(View()))
        invariant processed ==> passes + TotalPasses(View()) == TotalPasses(old(View()))
        invariant !processed ==> View() == Drain(old(View())) && passes == TotalPasses(old(View()))
        decreases |buffer|, processed
      {
        PassShrinks(View(), buffer);
        processed := ScanBuffer();
        passes := passes + 1;
      }
    }

    method AdvanceRound()
      modifies this, dag
      ensures View() == Delivery.AdvanceRound(old(View()))
    {
      currentRound := Wrap(currentRound + 1);
      ghost var passes := ProcessBuffer();
    }

    method AddVertex(vertex: Vertex)
      modifies this, dag
      ensures View() == Delivery.AddVertex(old(View()), vertex)
    {
      if vertex.hash in deliveredVertices {
        return;
      }
      accepted := accepted + [vertex];
      var ready := IsReady(vertex);
      if ready {
        DeliverNow(vertex);
        ghost var passes := ProcessBuffer();
        return;
      }
      buffer := buffer + [vertex];
    }

    method GetVertexCountInRound(round: u64) returns (count: nat)
      ensures count == |At(dag.View(), round)|
    {
      count := dag.GetVertexCountInRound(round);
    }

    /** The parents a vertex for the current round would take. */
    method GetStrongParents() returns (result: Option<seq<VertexHash>>)
      ensures result.Some? <==> currentRound > 0 && currentRound - 1 in dag.vertices
      ensures result.Some? ==> ListsHashes(At(dag.View(), currentRound - 1), result.value)
      ensures result.Some? && IsStore(dag.View()) ==> Arranges(result.value, At(dag.View(), currentRound - 1).Keys)
    {
      result := dag.GetStrongParents(currentRound);
      if result.Some? && IsStore(dag.View()) {
        HashesAreKeys(dag.View(), currentRound - 1, result.value);
      }
    }

    method ListRounds(startRound: u64, endRound: u64) returns (result: seq<Vertex>)
      requires startRound <= endRound < U64_MAX
      ensures IsStore(dag.View()) ==> Linearizes(dag.View(), startRound, endRound + 1, result)
    {
      result := [];
      var round := startRound;
      ghost var d := dag.View();
      LinearizesNothing(d, startRound);
      while round <= endRound
        invariant startRound <= round <= endRound + 1
        invariant IsStore(d) ==> Linearizes(d, startRound, round, result)
      {
        var vertices := dag.GetVerticesInRound(round);
        if IsStore(d) {
          ListNextRound(d, startRound, round, result, vertices);
        }
        if vertices.Some? {
          result := result + vertices.value;
        }
        round := round + 1;
      }
    }

    /** The loop ends for every wave but the one below the wrap, as LoopEndsExact shows. */
    method GetOrderedVertices(wave: u64) returns (result: seq<Vertex>)
      requires exists r: u64 :: !Continues(wave, r)
      ensures IsStore(dag.View()) ==> WaveOutput(dag.View(), wave, result)
    {
      LoopEndsExact(wave);
      var startRound := RoundForWave(wave);
      var endRound := Wrap(Wrap(startRound + MAX_WAVE) - 1);
      result := ListRounds(startRound, endRound);
    }

    method MarkVertexDelivered(hash: VertexHash)
      modifies this`deliveredVertices
      ensures View() == MarkDelivered(old(View()), hash)
    {
      deliveredVertices := deliveredVertices + {hash};
    }

    method IsVertexDelivered(hash: VertexHash) returns (delivered: bool)
      ensures delivered <==> hash in deliveredVertices
    {
      return hash in deliveredVertices;
    }
  }
}
