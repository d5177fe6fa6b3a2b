// Go's iteration over a map: every key once, in an order the program cannot choose.
module Iteration {
  import opened Model

  ghost predicate Distinct<T>(keys: seq<T>) {
    forall i, j | 0 <= i < j < |keys| :: keys[i] != keys[j]
  }

  /** An arrangement of exactly the keys of a set, without repetition. */
  ghost predicate Arranges<T(!new)>(keys: seq<T>, all: set<T>) {
    Distinct(keys) && forall k :: k in keys <==> k in all
  }

  /** Iterates over the keys of a map in an arbitrary order. */
  method KeysOf<V>(m: map<VertexHash, V>) returns (keys: seq<VertexHash>)
    ensures Arranges(keys, m.Keys)
  {
    keys := [];
    var todo := m.Keys;
    while todo != {}
      invariant todo <= m.Keys && Distinct(keys)
      invariant forall k :: k in keys <==> k in m.Keys - todo
    {
      var k :| k in todo;
      assert k !in keys;
      keys := keys + [k];
      todo := todo - {k};
    }
  }
}
