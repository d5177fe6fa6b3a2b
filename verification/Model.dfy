// The values that pass between the parts of a node: hashes, transactions,
// blocks and vertices, and the 64-bit arithmetic that rounds and heights use.
module Model {

  datatype Option<+T> = None | Some(value: T)

  // ----- fixed-width integers -----

  const U64_LIMIT: int := 0x1_0000_0000_0000_0000
  const U64_MAX: int := 0xFFFF_FFFF_FFFF_FFFF

  /** Go's uint64, the representation of rounds, waves, heights and counters. */
  type u64 = x: int | 0 <= x < U64_LIMIT

  type byte = x: int | 0 <= x < 256

  /** Reduction to 64 bits, applied wherever the Go code can overflow. */
  function Wrap(x: int): u64 {
    x % U64_LIMIT
  }

  // ----- identities -----

  const ZERO_BYTES: seq<byte> :=
    [0, 0, 0, 0, 0, 0, 0, 0, 0, 0, 0, 0, 0, 0, 0, 0, 0, 0, 0, 0, 0, 0, 0, 0, 0, 0, 0, 0, 0, 0, 0, 0]

  type Bytes32 = s: seq<byte> | |s| == 32 witness ZERO_BYTES

  datatype VertexHash = VertexHash(bytes: Bytes32)

  datatype BlockHash = BlockHash(bytes: Bytes32)

  datatype NodePublicKey = NodePublicKey(bytes: Bytes32)

  // ----- payload -----

  type Transaction = seq<byte>

  /** A block; `hash` is the cached hash, nil until it is first asked for. */
  datatype Block = Block(hash: Option<BlockHash>, height: u64, transactions: seq<Transaction>)

  /** A vertex; `parents` maps each parent's hash to the round the author claims for it. */
  datatype Vertex = Vertex(
    hash: VertexHash,
    owner: NodePublicKey,
    block: Option<Block>,
    parents: map<VertexHash, u64>,
    round: u64,
    wave: u64)

  ghost function HashSet(vs: set<Vertex>): set<VertexHash> {
    set v | v in vs :: v.hash
  }

  ghost function SetOf(vs: seq<Vertex>): set<Vertex> {
    set v | v in vs
  }

  ghost function HashesOf(vs: seq<Vertex>): set<VertexHash> {
    HashSet(SetOf(vs))
  }

  lemma HashesOfSnoc(vs: seq<Vertex>, v: Vertex)
    ensures HashesOf(vs + [v]) == HashesOf(vs) + {v.hash}
  {
    assert forall w :: w in vs + [v] <==> w in vs || w == v;
  }

  lemma HashesOfAppend(a: seq<Vertex>, b: seq<Vertex>)
    ensures HashesOf(a + b) == HashesOf(a) + HashesOf(b)
  {
    assert forall v :: v in a + b <==> v in a || v in b;
  }

  /** Equal hashes mean equal rounds and equal parent hashes. Module Identity derives this
      for vertices that carry their content hash. */
  ghost predicate Consistent(vs: set<Vertex>) {
    forall v, w | v in vs && w in vs && v.hash == w.hash ::
      v.round == w.round && v.parents.Keys == w.parents.Keys
  }

  lemma ConsistentSubset(vs: set<Vertex>, ws: set<Vertex>)
    requires vs <= ws && Consistent(ws)
    ensures Consistent(vs)
  {
  }

  /** The shape of the vertex a node builds before it starts. */
  ghost predicate ValidGenesis(g: Vertex) {
    g.round == 0 && g.parents == map[]
  }

  // ----- sets and sequences of sequences -----

  lemma {:induction false} SubsetCount<T>(a: set<T>, b: set<T>)
    requires a <= b
    ensures |a| <= |b|
    decreases |b|
  {
    if a == {} {
    } else {
      var x :| x in a;
      SubsetCount(a - {x}, b - {x});
    }
  }

  function Flatten<T>(parts: seq<seq<T>>): seq<T> {
    if parts == [] then [] else Flatten(parts[..|parts| - 1]) + parts[|parts| - 1]
  }

  lemma FlattenSnoc<T>(parts: seq<seq<T>>, last: seq<T>)
    ensures Flatten(parts + [last]) == Flatten(parts) + last
  {
    assert (parts + [last])[..|parts|] == parts;
  }

  lemma {:induction false} FlattenCons<T>(first: seq<T>, parts: seq<seq<T>>)
    ensures Flatten([first] + parts) == first + Flatten(parts)
    decreases |parts|
  {
    if parts == [] {
      assert [first] + parts == [first];
      assert [first][..0] == [];
    } else {
      var init, last := parts[..|parts| - 1], parts[|parts| - 1];
      assert [first] + parts == ([first] + init) + [last];
      FlattenSnoc([first] + init, last);
      FlattenCons(first, init);
    }
  }

  // ----- subsequences -----

  /** `picks` names, in order, the positions in `all` of the elements of `some`. */
  ghost predicate Picks<T>(some: seq<T>, all: seq<T>, picks: seq<nat>) {
    && |picks| == |some|
    && (forall i | 0 <= i < |picks| :: picks[i] < |all| && all[picks[i]] == some[i])
    && (forall i, j | 0 <= i < j < |picks| :: picks[i] < picks[j])
  }

  ghost predicate Subsequence<T>(some: seq<T>, all: seq<T>) {
    exists picks: seq<nat> :: Picks(some, all, picks)
  }

  lemma SubsequenceMore<T>(some: seq<T>, all: seq<T>, x: T)
    requires Subsequence(some, all)
    ensures Subsequence(some, all + [x]) && Subsequence(some + [x], all + [x])
  {
    var picks: seq<nat> :| Picks(some, all, picks);
    assert Picks(some, all + [x], picks);
    assert Picks(some + [x], all + [x], picks + [|all|]);
  }

  lemma SubsequenceAll<T>(all: seq<T>)
    ensures Subsequence(all, all)
  {
    assert Picks(all, all, seq(|all|, i => i));
  }

  lemma SubsequenceTrans<T>(a: seq<T>, b: seq<T>, c: seq<T>)
    requires Subsequence(a, b) && Subsequence(b, c)
    ensures Subsequence(a, c)
  {
    var inner: seq<nat> :| Picks(a, b, inner);
    var outer: seq<nat> :| Picks(b, c, outer);
    var picks: seq<nat> := seq(|a|, i requires 0 <= i < |a| => outer[inner[i]]);
    assert Picks(a, c, picks);
  }

  lemma SubsequenceCons<T>(x: T, some: seq<T>, all: seq<T>)
    requires Subsequence(some, all)
    ensures Subsequence(some, [x] + all) && Subsequence([x] + some, [x] + all)
  {
    var picks: seq<nat> :| Picks(some, all, picks);
    var later: seq<nat> := seq(|picks|, i requires 0 <= i < |picks| => picks[i] + 1);
    assert Picks(some, [x] + all, later);
    assert Picks([x] + some, [x] + all, [0] + later);
  }
}
