// What pkg/model hashes: the byte strings that identify blocks and vertices.
module Identity {
  import opened Model
  import opened Bytes
  import opened Iteration

  /** BLAKE3 stands here as any function from byte strings to 32 bytes. */
  type Hasher = seq<byte> -> Bytes32

  /** No two of these byte strings collide. */
  ghost predicate CollisionFree(H: Hasher, inputs: set<seq<byte>>) {
    forall a, b | a in inputs && b in inputs && H(a) == H(b) :: a == b
  }

  // ----- blocks -----

  function BlockPreimage(height: u64, txs: seq<Transaction>): seq<byte> {
    U64Bytes(height) + Flatten(txs)
  }

  /** The write loop of calculateHash. */
  method CalculateBlockHash(H: Hasher, height: u64, txs: seq<Transaction>) returns (hash: BlockHash)
    ensures hash == BlockHash(H(U64Bytes(height) + Flatten(txs)))
  {
    var written := U64Bytes(height);
    for i := 0 to |txs|
      invariant written == U64Bytes(height) + Flatten(txs[..i])
    {
      written := written + txs[i];
      assert txs[..i + 1] == txs[..i] + [txs[i]];
      FlattenSnoc(txs[..i], txs[i]);
    }
    assert txs[..|txs|] == txs;
    return BlockHash(H(written));
  }

  function NewBlock(H: Hasher, height: u64, txs: seq<Transaction>): Block {
    Block(Some(BlockHash(H(BlockPreimage(height, txs)))), height, txs)
  }

  /** The block's cached hash, computed when the cache is empty. */
  function HashOfBlock(H: Hasher, b: Block): BlockHash {
    match b.hash
    case Some(h) => h
    case None => BlockHash(H(BlockPreimage(b.height, b.transactions)))
  }

  /** The 32 bytes a vertex hash covers for its block; a nil block reads as zero. */
  function BlockField(H: Hasher, block: Option<Block>): Bytes32 {
    match block
    case None => ZERO_BYTES
    case Some(b) => HashOfBlock(H, b).bytes
  }

  // ----- the order of parent hashes -----

  /** The first differing byte decides. */
  ghost predicate Less(a: VertexHash, b: VertexHash) {
    exists k :: 0 <= k < 32 && a.bytes[..k] == b.bytes[..k] && a.bytes[k] < b.bytes[k]
  }

  /** A common prefix leaves the decision to the byte after it. */
  lemma LessAt(a: VertexHash, b: VertexHash, k: nat)
    requires k < 32 && a.bytes[..k] == b.bytes[..k] && a.bytes[k] != b.bytes[k]
    ensures Less(a, b) <==> a.bytes[k] < b.bytes[k]
  {
    if Less(a, b) {
      var j :| 0 <= j < 32 && a.bytes[..j] == b.bytes[..j] && a.bytes[j] < b.bytes[j];
    }
  }

  /** The comparator passed to sort.Slice. */
  method CompareHashes(a: VertexHash, b: VertexHash) returns (less: bool)
    ensures less <==> Less(a, b)
  {
    for k := 0 to 32
      invariant a.bytes[..k] == b.bytes[..k]
    {
      if a.bytes[k] != b.bytes[k] {
        LessAt(a, b, k);
        return a.bytes[k] < b.bytes[k];
      }
      assert a.bytes[..k + 1] == a.bytes[..k] + [a.bytes[k]];
      assert b.bytes[..k + 1] == b.bytes[..k] + [b.bytes[k]];
    }
    return false;
  }

  lemma {:induction false} FirstDifference(a: VertexHash, b: VertexHash, from: nat) returns (k: nat)
    requires from <= 32 && a != b && a.bytes[..from] == b.bytes[..from]
    ensures k < 32 && a.bytes[..k] == b.bytes[..k] && a.bytes[k] != b.bytes[k]
    decreases 32 - from
  {
    if a.bytes[from] != b.bytes[from] {
      k := from;
    } else {
      assert a.bytes[..from + 1] == a.bytes[..from] + [a.bytes[from]];
      assert b.bytes[..from + 1] == b.bytes[..from] + [b.bytes[from]];
      k := FirstDifference(a, b, from + 1);
    }
  }

  /** The comparator is a strict total order on hashes. */
  lemma LessTotalOrder(a: VertexHash, b: VertexHash, c: VertexHash)
    ensures !Less(a, a)
    ensures a != b ==> (Less(a, b) <==> !Less(b, a))
    ensures Less(a, b) && Less(b, c) ==> Less(a, c)
  {
    if a != b {
      var k := FirstDifference(a, b, 0);
      LessAt(a, b, k);
      LessAt(b, a, k);
    }
    if Less(a, b) && Less(b, c) {
      var j :| 0 <= j < 32 && a.bytes[..j] == b.bytes[..j] && a.bytes[j] < b.bytes[j];
      var k :| 0 <= k < 32 && b.bytes[..k] == c.bytes[..k] && b.bytes[k] < c.bytes[k];
      var m := if j < k then j else k;
      assert a.bytes[..m] == a.bytes[..j][..m] && b.bytes[..m] == b.bytes[..j][..m] == b.bytes[..k][..m];
      assert c.bytes[..m] == c.bytes[..k][..m];
      assert j < k ==> b.bytes[..k][j] == c.bytes[..k][j];
      assert k < j ==> a.bytes[..j][k] == b.bytes[..j][k];
    }
  }

  /** Hashes are ordered as the numbers that their bytes spell, most significant first. */
  lemma LessNumeric(a: VertexHash, b: VertexHash)
    ensures Less(a, b) <==> FromBigEndian(a.bytes) < FromBigEndian(b.bytes)
  {
    if a != b {
      var k := FirstDifference(a, b, 0);
      LessAt(a, b, k);
      if a.bytes[k] < b.bytes[k] {
        FirstDifferenceDecides(a.bytes, b.bytes, k);
      } else {
        FirstDifferenceDecides(b.bytes, a.bytes, k);
      }
    }
  }

  /** Ascending: what sort.Slice leaves, in either sense of "not less backwards". */
  ghost predicate Sorted(keys: seq<VertexHash>) {
    forall i, j | 0 <= i < j < |keys| :: !Less(keys[j], keys[i])
  }

  lemma ArrangesTail(keys: seq<VertexHash>, all: set<VertexHash>)
    requires Arranges(keys, all) && Sorted(keys) && keys != []
    ensures Arranges(keys[1..], all - {keys[0]}) && Sorted(keys[1..])
  {
    assert keys == [keys[0]] + keys[1..];
    assert forall i | 0 <= i < |keys[1..]| :: keys[1..][i] == keys[i + 1];
    assert keys[0] !in keys[1..];
  }

  lemma SortedHead(a: seq<VertexHash>, b: seq<VertexHash>, all: set<VertexHash>)
    requires Arranges(a, all) && Sorted(a) && Arranges(b, all) && Sorted(b) && a != []
    ensures b != [] && a[0] == b[0]
  {
    assert a[0] in b;
    var j :| 0 <= j < |b| && b[j] == a[0];
    assert b[0] in a;
    var i :| 0 <= i < |a| && a[i] == b[0];
    LessTotalOrder(a[0], b[0], a[0]);
  }

  lemma HeadMember(keys: seq<VertexHash>, all: set<VertexHash>)
    requires Arranges(keys, all) && keys != []
    ensures keys[0] in all
  {
    assert keys[0] in keys;
  }

  /** The keys of a set can be sorted in one way only: whatever order the map iteration and
      the unstable sort go through, the same sequence comes out. */
  lemma {:induction false} SortedUnique(a: seq<VertexHash>, b: seq<VertexHash>, all: set<VertexHash>)
    requires Arranges(a, all) && Sorted(a) && Arranges(b, all) && Sorted(b)
    ensures a == b
    decreases |a|
  {
    if a == [] {
      if b != [] {
        HeadMember(b, all);
      }
    } else {
      SortedHead(a, b, all);
      var rest := all - {a[0]};
      ArrangesTail(a, all);
      ArrangesTail(b, all);
      SortedUnique(a[1..], b[1..], rest);
      assert a == [a[0]] + a[1..] && b == [b[0]] + b[1..];
    }
  }

  /** What lies above the least lies above anything below the least. */
  lemma LessBelow(all: set<VertexHash>, x: VertexHash, m: VertexHash)
    requires forall k | k in all :: !Less(k, m)
    ensures Less(x, m) ==> forall k | k in all :: !Less(k, x)
  {
    if Less(x, m) {
      forall k | k in all
        ensures !Less(k, x)
      {
        LessTotalOrder(k, x, m);
      }
    }
  }

  ghost function Least(all: set<VertexHash>): (m: VertexHash)
    requires all != {}
    ensures m in all && forall k | k in all :: !Less(k, m)
    decreases |all|
  {
    var x :| x in all;
    if all == {x} then
      LessTotalOrder(x, x, x);
      x
    else
      var m := Least(all - {x});
      LessTotalOrder(x, m, x);
      LessTotalOrder(x, x, x);
      LessBelow(all - {x}, x, m);
      if Less(x, m) then x else m
  }

  /** The keys of a set in ascending order. */
  ghost function SortedKeys(all: set<VertexHash>): (keys: seq<VertexHash>)
    ensures Arranges(keys, all) && Sorted(keys)
    decreases |all|
  {
    if all == {} then []
    else [Least(all)] + SortedKeys(all - {Least(all)})
  }

  // ----- the vertex preimage -----

  /** Each parent contributes its hash and its round. */
  function ParentBytes(keys: seq<VertexHash>, parents: map<VertexHash, u64>): seq<byte>
    requires forall k | k in keys :: k in parents
  {
    if keys == [] then []
    else
      var k := keys[|keys| - 1];
      ParentBytes(keys[..|keys| - 1], parents) + k.bytes + U64Bytes(parents[k])
  }

  lemma ParentBytesSnoc(keys: seq<VertexHash>, k: VertexHash, parents: map<VertexHash, u64>)
    requires k in parents && forall h | h in keys :: h in parents
    ensures ParentBytes(keys + [k], parents) == ParentBytes(keys, parents) + k.bytes + U64Bytes(parents[k])
  {
    assert (keys + [k])[..|keys|] == keys;
  }

  ghost function Preimage(H: Hasher, v: Vertex): seq<byte> {
    v.owner.bytes + U64Bytes(v.round) + U64Bytes(v.wave) + BlockField(H, v.block)
    + ParentBytes(SortedKeys(v.parents.Keys), v.parents)
  }

  ghost function ContentHash(H: Hasher, v: Vertex): VertexHash {
    VertexHash(H(Preimage(H, v)))
  }

  lemma InsertedSorted(keys: seq<VertexHash>, k: VertexHash, i: nat)
    requires Distinct(keys) && Sorted(keys) && k !in keys && i <= |keys|
    requires forall j | 0 <= j < i :: Less(keys[j], k)
    requires i < |keys| ==> !Less(keys[i], k)
    ensures Distinct(keys[..i] + [k] + keys[i..]) && Sorted(keys[..i] + [k] + keys[i..])
  {
    forall j | 0 <= j < |keys|
      ensures keys[j] != k
      ensures j < i ==> !Less(k, keys[j])
      ensures j >= i ==> !Less(keys[j], k)
    {
      assert keys[j] in keys;
      LessTotalOrder(keys[j], k, k);
      if i < j {
        LessTotalOrder(keys[i], keys[j], k);
        LessTotalOrder(k, keys[i], keys[j]);
        assert keys[i] in keys;
        LessTotalOrder(keys[j], keys[i], k);
      }
    }
  }

  method InsertSorted(keys: seq<VertexHash>, k: VertexHash) returns (more: seq<VertexHash>)
    requires Distinct(keys) && Sorted(keys) && k !in keys
    ensures Distinct(more) && Sorted(more)
    ensures forall h :: h in more <==> h in keys || h == k
  {
    var i := 0;
    while i < |keys|
      invariant 0 <= i <= |keys|
      invariant forall j | 0 <= j < i :: Less(keys[j], k)
    {
      var before := CompareHashes(keys[i], k);
      if !before {
        break;
      }
      i := i + 1;
    }
    more := keys[..i] + [k] + keys[i..];
    InsertedSorted(keys, k, i);
    assert keys == keys[..i] + keys[i..];
  }

  /** sort.Slice: any rearrangement that the comparator accepts as sorted may come out. */
  method SortSlice(keys: seq<VertexHash>, ghost all: set<VertexHash>) returns (sorted: seq<VertexHash>)
    requires Arranges(keys, all)
    ensures Arranges(sorted, all) && Sorted(sorted)
  {
    sorted := [];
    for i := 0 to |keys|
      invariant Distinct(sorted) && Sorted(sorted)
      invariant forall k :: k in sorted <==> k in keys[..i]
    {
      assert keys[..i + 1] == keys[..i] + [keys[i]];
      assert keys[i] !in keys[..i];
      sorted := InsertSorted(sorted, keys[i]);
    }
    assert keys[..|keys|] == keys;
  }

  /** The loop that writes each parent hash and its round. */
  method WriteParents(sorted: seq<VertexHash>, parents: map<VertexHash, u64>) returns (written: seq<byte>)
    requires forall k | k in sorted :: k in parents
    ensures written == ParentBytes(sorted, parents)
  {
    written := [];
    for i := 0 to |sorted|
      invariant written == ParentBytes(sorted[..i], parents)
    {
      assert sorted[i] in sorted && sorted[..i + 1] == sorted[..i] + [sorted[i]];
      ParentBytesSnoc(sorted[..i], sorted[i], parents);
      written := written + sorted[i].bytes + U64Bytes(parents[sorted[i]]);
    }
    assert sorted[..|sorted|] == sorted;
  }

  /** calculateHash: the bytes are written in the order the sort leaves, which is the same
      for every iteration order of the parents map. */
  method CalculateHash(H: Hasher, v: Vertex) returns (hash: VertexHash)
    ensures hash == ContentHash(H, v)
  {
    var keys := KeysOf(v.parents);
    var sorted := SortSlice(keys, v.parents.Keys);
    SortedUnique(sorted, SortedKeys(v.parents.Keys), v.parents.Keys);
    var parentBytes := WriteParents(sorted, v.parents);
    var written := v.owner.bytes + U64Bytes(v.round) + U64Bytes(v.wave) + BlockField(H, v.block) + parentBytes;
    return VertexHash(H(written));
  }

  // ----- the preimage read back -----

  datatype Fields = Fields(owner: NodePublicKey, round: u64, wave: u64, blockField: Bytes32, parents: map<VertexHash, u64>)

  function FieldsOf(H: Hasher, v: Vertex): Fields {
    Fields(v.owner, v.round, v.wave, BlockField(H, v.block), v.parents)
  }

  /** Entries of forty bytes, from the end. */
  function ReadParents(s: seq<byte>): map<VertexHash, u64> {
    if |s| < 40 then map[]
    else
      var n := |s| - 40;
      ReadParents(s[..n])[VertexHash(s[n..n + 32]) := FromU64Bytes(s[n + 32..])]
  }

  function ReadFields(s: seq<byte>): Option<Fields> {
    if |s| < 80 then None
    else
      Some(Fields(NodePublicKey(s[..32]), FromU64Bytes(s[32..40]), FromU64Bytes(s[40..48]), s[48..80], ReadParents(s[80..])))
  }

  lemma {:induction false} ParentsReadBack(keys: seq<VertexHash>, parents: map<VertexHash, u64>)
    requires forall k | k in keys :: k in parents
    ensures ReadParents(ParentBytes(keys, parents)) == map k | k in keys :: parents[k]
    decreases |keys|
  {
    if keys == [] {
    } else {
      var init, k := keys[..|keys| - 1], keys[|keys| - 1];
      var s := ParentBytes(keys, parents);
      var n := |s| - 40;
      U64RoundTrip(parents[k]);
      assert s[..n] == ParentBytes(init, parents);
      assert s[n..n + 32] == k.bytes;
      assert s[n + 32..] == U64Bytes(parents[k]);
      ParentsReadBack(init, parents);
      assert keys == init + [k];
    }
  }

  lemma ArrangedMap(keys: seq<VertexHash>, parents: map<VertexHash, u64>)
    requires Arranges(keys, parents.Keys)
    ensures (map k | k in keys :: parents[k]) == parents
  {
  }

  lemma SortedReadBack(parents: map<VertexHash, u64>)
    ensures ReadParents(ParentBytes(SortedKeys(parents.Keys), parents)) == parents
  {
    var keys := SortedKeys(parents.Keys);
    ParentsReadBack(keys, parents);
    ArrangedMap(keys, parents);
  }

  lemma Slices(a: seq<byte>, b: seq<byte>, c: seq<byte>, d: seq<byte>, e: seq<byte>)
    requires |a| == 32 && |b| == 8 && |c| == 8 && |d| == 32
    ensures var s := a + b + c + d + e;
      |s| >= 80 && s[..32] == a && s[32..40] == b && s[40..48] == c && s[48..80] == d && s[80..] == e
  {
  }

  /** The preimage decodes to the owner, round, wave, block field and parents it was made
      from. */
  lemma PreimageReadBack(H: Hasher, v: Vertex)
    ensures ReadFields(Preimage(H, v)) == Some(FieldsOf(H, v))
  {
    U64RoundTrip(v.round);
    U64RoundTrip(v.wave);
    SortedReadBack(v.parents);
    Slices(v.owner.bytes, U64Bytes(v.round), U64Bytes(v.wave), BlockField(H, v.block),
           ParentBytes(SortedKeys(v.parents.Keys), v.parents));
  }

  /** Equal preimages come from equal fields. */
  lemma PreimageInjective(H: Hasher, v: Vertex, w: Vertex)
    ensures Preimage(H, v) == Preimage(H, w) <==> FieldsOf(H, v) == FieldsOf(H, w)
  {
    PreimageReadBack(H, v);
    PreimageReadBack(H, w);
  }

  /** Without collisions among their preimages, vertices that carry their content hash and
      share it have equal fields; so they are consistent in the sense the DAG needs. */
  lemma ContentHashesIdentify(H: Hasher, vs: set<Vertex>)
    requires CollisionFree(H, set v | v in vs :: Preimage(H, v))
    requires forall v | v in vs :: v.hash == ContentHash(H, v)
    ensures forall v, w | v in vs && w in vs && v.hash == w.hash :: FieldsOf(H, v) == FieldsOf(H, w)
    ensures Consistent(vs)
  {
    forall v, w | v in vs && w in vs && v.hash == w.hash
      ensures FieldsOf(H, v) == FieldsOf(H, w)
    {
      var a, b := Preimage(H, v), Preimage(H, w);
      var inputs := set u | u in vs :: Preimage(H, u);
      assert a in inputs && b in inputs;
      assert a == b;
      PreimageInjective(H, v, w);
    }
  }

  // ----- what the hash says of the block -----

  /** Where each field lies. The block contributes its cached hash if it has one, otherwise
      the hash of its height and transactions; a nil block contributes zeros. */
  lemma PreimageLayout(H: Hasher, v: Vertex)
    ensures |Preimage(H, v)| >= 80
    ensures Preimage(H, v)[..32] == v.owner.bytes
    ensures Preimage(H, v)[32..40] == U64Bytes(v.round) && Preimage(H, v)[40..48] == U64Bytes(v.wave)
    ensures v.block.None? ==> Preimage(H, v)[48..80] == ZERO_BYTES
    ensures v.block.Some? && v.block.value.hash.Some? ==> Preimage(H, v)[48..80] == v.block.value.hash.value.bytes
    ensures v.block.Some? && v.block.value.hash.None? ==>
      Preimage(H, v)[48..80] == H(U64Bytes(v.block.value.height) + Flatten(v.block.value.transactions))
  {
    Slices(v.owner.bytes, U64Bytes(v.round), U64Bytes(v.wave), BlockField(H, v.block),
           ParentBytes(SortedKeys(v.parents.Keys), v.parents));
  }

  /** The bytes hashed for a block start with its height, so they determine the height and
      the transactions put end to end. */
  lemma BlockBytesSplit(height: u64, bytes: seq<byte>, height': u64, bytes': seq<byte>)
    requires U64Bytes(height) + bytes == U64Bytes(height') + bytes'
    ensures height == height' && bytes == bytes'
  {
    U64RoundTrip(height);
    U64RoundTrip(height');
    assert (U64Bytes(height) + bytes)[..8] == U64Bytes(height) && (U64Bytes(height) + bytes)[8..] == bytes;
    assert (U64Bytes(height') + bytes')[..8] == U64Bytes(height') && (U64Bytes(height') + bytes')[8..] == bytes';
  }

  /** Without collisions, vertices with one content hash carry blocks of one height with the
      same transaction bytes. */
  lemma BlocksIdentified(H: Hasher, v: Vertex, height: u64, txs: seq<Transaction>, w: Vertex, height': u64, txs': seq<Transaction>)
    requires v.block == Some(NewBlock(H, height, txs)) && w.block == Some(NewBlock(H, height', txs'))
    requires ContentHash(H, v) == ContentHash(H, w)
    requires CollisionFree(H, {Preimage(H, v), Preimage(H, w), U64Bytes(height) + Flatten(txs), U64Bytes(height') + Flatten(txs')})
    ensures height == height' && Flatten(txs) == Flatten(txs')
  {
    assert Preimage(H, v) == Preimage(H, w);
    PreimageLayout(H, v);
    PreimageLayout(H, w);
    assert H(U64Bytes(height) + Flatten(txs)) == H(U64Bytes(height') + Flatten(txs'));
    BlockBytesSplit(height, Flatten(txs), height', Flatten(txs'));
  }

  /** The cache of a block made by NewBlock is the hash of its height and transactions. */
  lemma NewBlockExact(H: Hasher, height: u64, txs: seq<Transaction>)
    ensures NewBlock(H, height, txs) == Block(Some(BlockHash(H(U64Bytes(height) + Flatten(txs)))), height, txs)
  {
  }
}
