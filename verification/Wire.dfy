// The wire form of a vertex: MarshalBinary and UnmarshalBinary of pkg/model/vertex.go. The
// JSON text is an abstract record; a field that the text lacks is None.
module Wire {
  import opened Model
  import opened Base64
  import opened Identity
  import opened Iteration

  datatype WireBlock = WireBlock(height: u64, transactions: seq<Transaction>)

  /** `hash` is the JSON text of the hash, with its quotes. */
  datatype WireVertex = WireVertex(
    hash: Option<string>,
    owner: Option<string>,
    block: Option<WireBlock>,
    parents: Option<map<string, u64>>,
    round: Option<u64>,
    wave: Option<u64>)

  datatype Error = MissingOwner | MissingRound | MissingParents | InvalidHash | InvalidOwner | InvalidParent(key: string)

  lemma SameMap<K, V>(a: map<K, V>, b: map<K, V>)
    requires forall k | k in a :: k in b
    requires forall k | k in b :: k in a && b[k] == a[k]
    ensures a == b
  {
  }

  // ----- encoding -----

  /** The key of a parent in the JSON object. */
  function KeyOf(h: VertexHash): string {
    Encode(h.bytes)
  }

  /** The hash a key is read back as: decoded bytes copied over zeros. */
  function KeyHash(key: string): Option<VertexHash> {
    match Decode(key)
    case Some(data) => Some(VertexHash(CopyInto(ZERO_BYTES, data)))
    case None => None
  }

  /** A key of any length is taken: missing bytes are zero, extra ones are dropped. */
  lemma KeyHashExact(key: string, k: nat)
    requires k < 32
    ensures KeyHash(key).Some? <==> Decode(key).Some?
    ensures Decode(key).Some? ==>
      KeyHash(key).value.bytes[k] == if k < |Decode(key).value| then Decode(key).value[k] else 0
  {
    if Decode(key).Some? {
      CopyExact(ZERO_BYTES, Decode(key).value, k);
    }
  }

  lemma KeyRoundTrip(h: VertexHash)
    ensures KeyHash(KeyOf(h)) == Some(h)
  {
    DecodeEncode(h.bytes);
    assert h.bytes[..32] == h.bytes;
  }

  lemma KeyOfInjective(h: VertexHash, k: VertexHash)
    requires KeyOf(h) == KeyOf(k)
    ensures h == k
  {
    KeyRoundTrip(h);
    KeyRoundTrip(k);
  }

  /** Re-keying keeps every parent and its round, and adds nothing. */
  ghost predicate Rekeyed(parents: map<VertexHash, u64>, wire: map<string, u64>) {
    && (forall h {:trigger parents[h]} {:trigger KeyOf(h)} | h in parents :: KeyOf(h) in wire && wire[KeyOf(h)] == parents[h])
    && (forall key | key in wire :: exists h :: h in parents && KeyOf(h) == key)
  }

  ghost predicate Marshals(v: Vertex, w: WireVertex) {
    && w.hash == Some("\"" + Encode(v.hash.bytes) + "\"")
    && w.owner == Some(Encode(v.owner.bytes))
    && w.block == (match v.block case Some(b) => Some(WireBlock(b.height, b.transactions)) case None => None)
    && w.parents.Some? && Rekeyed(v.parents, w.parents.value)
    && w.round == Some(v.round)
    && w.wave == Some(v.wave)
  }

  lemma RekeyedMore(parents: map<VertexHash, u64>, wire: map<string, u64>, h: VertexHash, r: u64)
    requires Rekeyed(parents, wire)
    ensures Rekeyed(parents[h := r], wire[KeyOf(h) := r])
  {
    var more, next := parents[h := r], wire[KeyOf(h) := r];
    forall k | k in more
      ensures KeyOf(k) in next && next[KeyOf(k)] == more[k]
    {
      if KeyOf(k) == KeyOf(h) {
        KeyOfInjective(k, h);
      }
    }
    forall key | key in next
      ensures exists k :: k in more && KeyOf(k) == key
    {
      if key == KeyOf(h) {
        assert h in more;
      } else {
        var k :| k in parents && KeyOf(k) == key;
        assert k in more;
      }
    }
  }

  /** The loop that builds the string-keyed map. */
  method RekeyParents(parents: map<VertexHash, u64>) returns (wire: map<string, u64>)
    ensures Rekeyed(parents, wire)
  {
    wire := map[];
    var keys := KeysOf(parents);
    ghost var done: map<VertexHash, u64> := map[];
    for i := 0 to |keys|
      invariant forall h :: h in done <==> h in keys[..i]
      invariant forall h | h in done :: h in parents && done[h] == parents[h]
      invariant Rekeyed(done, wire)
    {
      assert keys[..i + 1] == keys[..i] + [keys[i]];
      assert keys[i] in keys;
      RekeyedMore(done, wire, keys[i], parents[keys[i]]);
      wire := wire[KeyOf(keys[i]) := parents[keys[i]]];
      done := done[keys[i] := parents[keys[i]]];
    }
    assert keys[..|keys|] == keys;
    SameMap(parents, done);
  }

  method MarshalBinary(v: Vertex) returns (w: WireVertex)
    ensures Marshals(v, w)
    ensures forall h {:trigger v.parents[h]} | h in v.parents ::
      Encode(h.bytes) in w.parents.value && w.parents.value[Encode(h.bytes)] == v.parents[h]
  {
    var parents := RekeyParents(v.parents);
    var block := match v.block case Some(b) => Some(WireBlock(b.height, b.transactions)) case None => None;
    return WireVertex(Some(MarshalJson32(v.hash.bytes)), Some(Encode(v.owner.bytes)), block, Some(parents),
                      Some(v.round), Some(v.wave));
  }

  // ----- decoding -----

  /** The first check that fails, in the order of the code; parent keys are checked last. */
  function FirstError(w: WireVertex): Option<Error> {
    if w.owner.None? then Some(MissingOwner)
    else if w.round.None? then Some(MissingRound)
    else if w.parents.None? then Some(MissingParents)
    else if w.hash.Some? && UnmarshalJson32(ZERO_BYTES, w.hash.value).None? then Some(InvalidHash)
    else if Decode(w.owner.value).None? then Some(InvalidOwner)
    else None
  }

  predicate Acceptable(w: WireVertex) {
    FirstError(w).None? && forall key | key in w.parents.value :: KeyHash(key).Some?
  }

  ghost predicate Read(wire: map<string, u64>, h: VertexHash, r: u64) {
    exists key :: key in wire && KeyHash(key) == Some(h) && wire[key] == r
  }

  ghost predicate Kept(before: map<VertexHash, u64>, wire: map<string, u64>, h: VertexHash, r: u64) {
    h in before && before[h] == r && forall key | key in wire :: KeyHash(key) != Some(h)
  }

  /** The receiver's parents after a successful decode: each key adds the parent it stands
      for; keys that stand for one parent leave the round of any one of them. */
  ghost predicate Merged(before: map<VertexHash, u64>, wire: map<string, u64>, after: map<VertexHash, u64>) {
    && (forall h | h in before :: h in after)
    && (forall key | key in wire :: KeyHash(key).Some? && KeyHash(key).value in after)
    && (forall h {:trigger after[h]} | h in after :: Kept(before, wire, h, after[h]) || Read(wire, h, after[h]))
  }

  ghost predicate Part(done: map<string, u64>, wire: map<string, u64>) {
    forall key | key in done :: key in wire && done[key] == wire[key]
  }

  /** Some of the keys were merged before an early return. */
  ghost predicate PartlyMerged(before: map<VertexHash, u64>, wire: map<string, u64>, after: map<VertexHash, u64>) {
    exists done: map<string, u64> :: Part(done, wire) && Merged(before, done, after)
  }

  /** The hash field of the record, zero when absent. */
  function WireHash(w: WireVertex): VertexHash {
    if w.hash.None? then VertexHash(ZERO_BYTES)
    else
      match UnmarshalJson32(ZERO_BYTES, w.hash.value)
      case Some(h) => VertexHash(h)
      case None => VertexHash(ZERO_BYTES)
  }

  /** The receiver once the plain fields are copied and before the parents are read. */
  function Copied(before: Vertex, w: WireVertex): Vertex
    requires FirstError(w).None?
  {
    before.(
      hash := WireHash(w),
      owner := NodePublicKey(CopyInto(before.owner.bytes, Decode(w.owner.value).value)),
      block := (match w.block case Some(b) => Some(Block(None, b.height, b.transactions)) case None => None),
      round := w.round.value,
      wave := if w.wave.Some? then w.wave.value else 0)
  }

  /** What a successful decode makes of the receiver. */
  ghost predicate Unmarshals(H: Hasher, before: Vertex, w: WireVertex, after: Vertex)
    requires Acceptable(w)
  {
    && after.owner == NodePublicKey(CopyInto(before.owner.bytes, Decode(w.owner.value).value))
    && after.round == w.round.value
    && after.wave == (if w.wave.Some? then w.wave.value else 0)
    && after.block == (match w.block case Some(b) => Some(NewBlock(H, b.height, b.transactions)) case None => None)
    && Merged(before.parents, w.parents.value, after.parents)
    && after.hash == ContentHash(H, after)
  }

  lemma ReadMore(done: map<string, u64>, key: string, r: u64, h: VertexHash, s: u64)
    requires key !in done && Read(done, h, s)
    ensures Read(done[key := r], h, s)
  {
    var k :| k in done && KeyHash(k) == Some(h) && done[k] == s;
    assert k in done[key := r];
  }

  lemma MergedMore(before: map<VertexHash, u64>, done: map<string, u64>, after: map<VertexHash, u64>, key: string, r: u64)
    requires KeyHash(key).Some? && key !in done && Merged(before, done, after)
    ensures Merged(before, done[key := r], after[KeyHash(key).value := r])
  {
    var more, next := done[key := r], after[KeyHash(key).value := r];
    forall h {:trigger next[h]} | h in next
      ensures Kept(before, more, h, next[h]) || Read(more, h, next[h])
    {
      if h == KeyHash(key).value {
        assert key in more && more[key] == next[h];
      } else if Read(done, h, after[h]) {
        ReadMore(done, key, r, h, after[h]);
      }
    }
  }

  /** A pointer to a Vertex, as UnmarshalBinary receives it. */
  class VertexCell {
    var value: Vertex

    constructor (v: Vertex)
      ensures value == v
    {
      value := v;
    }

    /** The loop over the decoded parents map, in an arbitrary order, with early return. */
    method MergeParents(wire: map<string, u64>) returns (error: Option<Error>)
      modifies this
      ensures value == old(value).(parents := value.parents)
      ensures error.Some? ==> error.value.InvalidParent? && error.value.key in wire && KeyHash(error.value.key).None?
      ensures error.Some? ==> PartlyMerged(old(value.parents), wire, value.parents)
      ensures error.None? ==> Merged(old(value.parents), wire, value.parents)
    {
      var todo := wire.Keys;
      ghost var done: map<string, u64> := map[];
      while todo != {}
        invariant todo <= wire.Keys && forall key :: key in done <==> key in wire && key !in todo
        invariant forall key | key in done :: done[key] == wire[key]
        invariant value == old(value).(parents := value.parents)
        invariant Merged(old(value.parents), done, value.parents)
      {
        var key :| key in todo;
        var hash := KeyHash(key);
        if hash.None? {
          assert Part(done, wire);
          return Some(InvalidParent(key));
        }
        MergedMore(old(value.parents), done, value.parents, key, wire[key]);
        value := value.(parents := value.parents[hash.value := wire[key]]);
        done := done[key := wire[key]];
        todo := todo - {key};
      }
      SameMap(wire, done);
      return None;
    }

    method UnmarshalBinary(H: Hasher, w: WireVertex) returns (error: Option<Error>)
      modifies this
      ensures error.None? <==> Acceptable(w)
      ensures FirstError(w).Some? ==> error == FirstError(w)
      ensures error.Some? && !error.value.InvalidOwner? && !error.value.InvalidParent? ==> value == old(value)
      ensures error == Some(InvalidOwner) ==> value == old(value).(hash := WireHash(w))
      ensures error.Some? && error.value.InvalidParent? ==>
        && FirstError(w).None? && error.value.key in w.parents.value && KeyHash(error.value.key).None?
        && value == Copied(old(value), w).(parents := value.parents)
        && PartlyMerged(old(value.parents), w.parents.value, value.parents)
      ensures Acceptable(w) ==> Unmarshals(H, old(value), w, value)
    {
      if w.owner.None? { return Some(MissingOwner); }
      if w.round.None? { return Some(MissingRound); }
      if w.parents.None? { return Some(MissingParents); }
      var hash: Bytes32 := ZERO_BYTES;
      if w.hash.Some? {
        var decoded := UnmarshalJson32(hash, w.hash.value);
        if decoded.None? { return Some(InvalidHash); }
        hash := decoded.value;
      }
      value := value.(hash := VertexHash(hash));
      var ownerBytes := Decode(w.owner.value);
      if ownerBytes.None? { return Some(InvalidOwner); }
      value := value.(
        owner := NodePublicKey(CopyInto(value.owner.bytes, ownerBytes.value)),
        block := match w.block case Some(b) => Some(Block(None, b.height, b.transactions)) case None => None,
        round := w.round.value,
        wave := if w.wave.Some? then w.wave.value else 0);
      error := MergeParents(w.parents.value);
      if error.Some? { return; }
      if value.block.Some? {
        var b := value.block.value;
        value := value.(block := Some(NewBlock(H, b.height, b.transactions)));
      }
      var recalculated := CalculateHash(H, value);
      value := value.(hash := recalculated);
    }
  }

  // ----- when the order of the parents matters -----

  ghost predicate Readable(wire: map<string, u64>) {
    forall key | key in wire :: KeyHash(key).Some?
  }

  /** Keys that stand for one parent carry one round. */
  ghost predicate KeysAgree(wire: map<string, u64>) {
    forall k, l | k in wire && l in wire && KeyHash(k) == KeyHash(l) :: wire[k] == wire[l]
  }

  /** The parents after the keys were merged in this order. */
  ghost function MergeIn(before: map<VertexHash, u64>, wire: map<string, u64>, order: seq<string>): map<VertexHash, u64>
    requires Readable(wire) && forall key | key in order :: key in wire
  {
    if order == [] then before
    else
      var key := order[|order| - 1];
      MergeIn(before, wire, order[..|order| - 1])[KeyHash(key).value := wire[key]]
  }

  ghost function Restricted(wire: map<string, u64>, order: seq<string>): map<string, u64> {
    map key | key in order && key in wire :: wire[key]
  }

  lemma {:induction false} MergeInMerges(before: map<VertexHash, u64>, wire: map<string, u64>, order: seq<string>)
    requires Readable(wire) && Distinct(order) && forall key | key in order :: key in wire
    ensures Merged(before, Restricted(wire, order), MergeIn(before, wire, order))
    decreases |order|
  {
    if order == [] {
      assert Restricted(wire, order) == map[];
    } else {
      var init, key := order[..|order| - 1], order[|order| - 1];
      assert order == init + [key];
      assert key !in init;
      MergeInMerges(before, wire, init);
      MergedMore(before, Restricted(wire, init), MergeIn(before, wire, init), key, wire[key]);
      SameMap(Restricted(wire, init)[key := wire[key]], Restricted(wire, order));
    }
  }

  /** Whatever the iteration order, the result is one that the contract of the loop allows. */
  lemma OrderMerges(before: map<VertexHash, u64>, wire: map<string, u64>, order: seq<string>)
    requires Readable(wire) && Arranges(order, wire.Keys)
    ensures Merged(before, wire, MergeIn(before, wire, order))
  {
    MergeInMerges(before, wire, order);
    SameMap(wire, Restricted(wire, order));
  }

  lemma MergedAt(before: map<VertexHash, u64>, wire: map<string, u64>, a: map<VertexHash, u64>, b: map<VertexHash, u64>, h: VertexHash)
    requires KeysAgree(wire) && Merged(before, wire, a) && Merged(before, wire, b) && h in a
    ensures h in b && b[h] == a[h]
  {
    if Read(wire, h, a[h]) {
      var key :| key in wire && KeyHash(key) == Some(h) && wire[key] == a[h];
      assert Read(wire, h, b[h]);
    }
  }

  lemma MergedUnique(before: map<VertexHash, u64>, wire: map<string, u64>, a: map<VertexHash, u64>, b: map<VertexHash, u64>)
    requires KeysAgree(wire) && Merged(before, wire, a) && Merged(before, wire, b)
    ensures a == b
  {
    forall h | h in a
      ensures h in b && b[h] == a[h]
    {
      MergedAt(before, wire, a, b, h);
    }
    forall h | h in b
      ensures h in a
    {
      MergedAt(before, wire, b, a, h);
    }
    SameMap(a, b);
  }

  lemma {:induction false} SomeOrder(all: set<string>) returns (order: seq<string>)
    ensures Arranges(order, all)
    decreases |all|
  {
    if all == {} {
      order := [];
    } else {
      var last :| last in all;
      var init := SomeOrder(all - {last});
      order := init + [last];
    }
  }

  /** Any key may come last. */
  lemma OrderWithLast(all: set<string>, last: string) returns (order: seq<string>)
    requires last in all
    ensures Arranges(order, all) && order != [] && order[|order| - 1] == last
  {
    var init := SomeOrder(all - {last});
    order := init + [last];
  }

  ghost predicate OrderFree(before: map<VertexHash, u64>, wire: map<string, u64>)
    requires Readable(wire)
  {
    forall order, order' | Arranges(order, wire.Keys) && Arranges(order', wire.Keys) ::
      MergeIn(before, wire, order) == MergeIn(before, wire, order')
  }

  lemma ConflictShows(before: map<VertexHash, u64>, wire: map<string, u64>, k: string, l: string)
    requires Readable(wire) && k in wire && l in wire && KeyHash(k) == KeyHash(l) && wire[k] != wire[l]
    ensures !OrderFree(before, wire)
  {
    var order := OrderWithLast(wire.Keys, k);
    var order' := OrderWithLast(wire.Keys, l);
    var h := KeyHash(k).value;
    assert MergeIn(before, wire, order)[h] == wire[k];
    assert MergeIn(before, wire, order')[h] == wire[l];
  }

  /** The parents decoded do not depend on the iteration order exactly when keys that stand
      for one parent carry one round. */
  lemma OrderFreeExact(before: map<VertexHash, u64>, wire: map<string, u64>)
    requires Readable(wire)
    ensures OrderFree(before, wire) <==> KeysAgree(wire)
  {
    if KeysAgree(wire) {
      forall order, order' | Arranges(order, wire.Keys) && Arranges(order', wire.Keys)
        ensures MergeIn(before, wire, order) == MergeIn(before, wire, order')
      {
        OrderMerges(before, wire, order);
        OrderMerges(before, wire, order');
        MergedUnique(before, wire, MergeIn(before, wire, order), MergeIn(before, wire, order'));
      }
    } else {
      var k, l :| k in wire && l in wire && KeyHash(k) == KeyHash(l) && wire[k] != wire[l];
      ConflictShows(before, wire, k, l);
    }
  }

  /** What the receiver holds after the parents came out as `parents`. */
  ghost function Decoded(H: Hasher, before: Vertex, w: WireVertex, parents: map<VertexHash, u64>): Vertex
    requires Acceptable(w)
  {
    var block := match w.block case Some(b) => Some(NewBlock(H, b.height, b.transactions)) case None => None;
    var v := Copied(before, w).(block := block, parents := parents);
    v.(hash := ContentHash(H, v))
  }

  lemma UnmarshalsParents(H: Hasher, before: Vertex, w: WireVertex, after: Vertex)
    requires Acceptable(w)
    ensures Unmarshals(H, before, w, after) <==>
      Merged(before.parents, w.parents.value, after.parents) && after == Decoded(H, before, w, after.parents)
  {
    assert Preimage(H, after) == Preimage(H, after.(hash := before.hash));
    assert Preimage(H, Decoded(H, before, w, after.parents))
      == Preimage(H, Decoded(H, before, w, after.parents).(hash := WireHash(w)));
  }

  ghost predicate OneOutcome(H: Hasher, before: Vertex, w: WireVertex)
    requires Acceptable(w)
  {
    forall a, b | Unmarshals(H, before, w, a) && Unmarshals(H, before, w, b) :: a == b
  }

  lemma OrderUnmarshals(H: Hasher, before: Vertex, w: WireVertex, order: seq<string>)
    requires Acceptable(w) && Arranges(order, w.parents.value.Keys)
    ensures Unmarshals(H, before, w, Decoded(H, before, w, MergeIn(before.parents, w.parents.value, order)))
  {
    OrderMerges(before.parents, w.parents.value, order);
    UnmarshalsParents(H, before, w, Decoded(H, before, w, MergeIn(before.parents, w.parents.value, order)));
  }

  /** One record decodes to one vertex with one hash, at every node, exactly then. */
  lemma OneOutcomeExact(H: Hasher, before: Vertex, w: WireVertex)
    requires Acceptable(w)
    ensures OneOutcome(H, before, w) <==> KeysAgree(w.parents.value)
  {
    var wire := w.parents.value;
    OrderFreeExact(before.parents, wire);
    if KeysAgree(wire) {
      forall a, b | Unmarshals(H, before, w, a) && Unmarshals(H, before, w, b)
        ensures a == b
      {
        MergedUnique(before.parents, wire, a.parents, b.parents);
        UnmarshalsParents(H, before, w, a);
        UnmarshalsParents(H, before, w, b);
      }
    }
    if OneOutcome(H, before, w) {
      forall order, order' | Arranges(order, wire.Keys) && Arranges(order', wire.Keys)
        ensures MergeIn(before.parents, wire, order) == MergeIn(before.parents, wire, order')
      {
        OrderUnmarshals(H, before, w, order);
        OrderUnmarshals(H, before, w, order');
      }
    }
  }

  /** The condition can fail: two keys that decode alike, with different rounds. */
  lemma ConflictingKeys() returns (wire: map<string, u64>)
    ensures Readable(wire) && !KeysAgree(wire)
  {
    var s, t := DecodeNotInjective();
    wire := map[s := 0, t := 1];
    assert s in wire && t in wire && wire[s] == 0 && wire[t] == 1;
  }

  lemma DifferentOutcomes(H: Hasher, before: Vertex, w: WireVertex, a: Vertex, b: Vertex)
    requires Acceptable(w) && a != b && Unmarshals(H, before, w, a) && Unmarshals(H, before, w, b)
    ensures a.parents != b.parents && Preimage(H, a) != Preimage(H, b)
  {
    UnmarshalsParents(H, before, w, a);
    UnmarshalsParents(H, before, w, b);
    PreimageInjective(H, a, b);
  }

  /** A record with this owner and these parents that passes every check. */
  function RecordOf(owner: NodePublicKey, parents: map<string, u64>): WireVertex {
    WireVertex(None, Some(Encode(owner.bytes)), None, Some(parents), Some(0), Some(0))
  }

  lemma RecordAcceptable(owner: NodePublicKey, parents: map<string, u64>)
    requires Readable(parents)
    ensures Acceptable(RecordOf(owner, parents))
  {
    DecodeEncode(owner.bytes);
    assert FirstError(RecordOf(owner, parents)).None?;
  }

  lemma TwoOutcomes(H: Hasher, before: Vertex, w: WireVertex) returns (a: Vertex, b: Vertex)
    requires Acceptable(w) && !KeysAgree(w.parents.value)
    ensures a != b && Unmarshals(H, before, w, a) && Unmarshals(H, before, w, b)
  {
    OneOutcomeExact(H, before, w);
    a, b :| Unmarshals(H, before, w, a) && Unmarshals(H, before, w, b) && a != b;
  }

  /** A record that UnmarshalBinary accepts and that decodes, by the iteration order, to
      vertices with different parents and, unless the hash collides, different hashes. */
  lemma ConflictingRecord(H: Hasher, before: Vertex) returns (w: WireVertex, a: Vertex, b: Vertex)
    ensures Acceptable(w) && Unmarshals(H, before, w, a) && Unmarshals(H, before, w, b)
    ensures a.parents != b.parents
    ensures CollisionFree(H, {Preimage(H, a), Preimage(H, b)}) ==> a.hash != b.hash
  {
    var wire := ConflictingKeys();
    w := RecordOf(before.owner, wire);
    RecordAcceptable(before.owner, wire);
    a, b := TwoOutcomes(H, before, w);
    DifferentOutcomes(H, before, w, a, b);
  }

  // ----- round trip -----

  /** The zero value that the message handlers decode into. */
  function FreshVertex(): Vertex {
    Vertex(VertexHash(ZERO_BYTES), NodePublicKey(ZERO_BYTES), None, map[], 0, 0)
  }

  lemma RekeyedReadable(parents: map<VertexHash, u64>, wire: map<string, u64>)
    requires Rekeyed(parents, wire)
    ensures forall key | key in wire :: KeyHash(key).Some?
  {
    forall key | key in wire
      ensures KeyHash(key).Some?
    {
      var h :| h in parents && KeyOf(h) == key;
      KeyRoundTrip(h);
    }
  }

  lemma HeaderAcceptable(v: Vertex, w: WireVertex)
    requires Marshals(v, w)
    ensures FirstError(w).None?
  {
    Json32RoundTrip(ZERO_BYTES, v.hash.bytes);
    DecodeEncode(v.owner.bytes);
  }

  lemma MarshalAcceptable(v: Vertex, w: WireVertex)
    requires Marshals(v, w)
    ensures Acceptable(w)
  {
    HeaderAcceptable(v, w);
    RekeyedReadable(v.parents, w.parents.value);
  }

  lemma ReadIsParent(parents: map<VertexHash, u64>, wire: map<string, u64>, h: VertexHash, r: u64)
    requires Rekeyed(parents, wire) && Read(wire, h, r)
    ensures h in parents && parents[h] == r
  {
    var key :| key in wire && KeyHash(key) == Some(h) && wire[key] == r;
    var k :| k in parents && KeyOf(k) == key;
    KeyRoundTrip(k);
  }

  lemma ParentIsRead(parents: map<VertexHash, u64>, wire: map<string, u64>, after: map<VertexHash, u64>, h: VertexHash)
    requires Rekeyed(parents, wire) && Merged(map[], wire, after) && h in parents
    ensures h in after
  {
    KeyRoundTrip(h);
    assert KeyOf(h) in wire;
  }

  lemma ReadParent(parents: map<VertexHash, u64>, wire: map<string, u64>, after: map<VertexHash, u64>, h: VertexHash)
    requires Rekeyed(parents, wire) && Merged(map[], wire, after) && h in after
    ensures h in parents && after[h] == parents[h]
  {
    assert Read(wire, h, after[h]);
    ReadIsParent(parents, wire, h, after[h]);
  }

  lemma MergedEntry(before: map<VertexHash, u64>, parents: map<VertexHash, u64>, wire: map<string, u64>,
                    after: map<VertexHash, u64>, h: VertexHash)
    requires Rekeyed(parents, wire) && Merged(before, wire, after)
    ensures h in after <==> h in before || h in parents
    ensures h in parents ==> after[h] == parents[h]
    ensures h in before && h !in parents ==> after[h] == before[h]
  {
    if h in parents {
      KeyRoundTrip(h);
      assert KeyOf(h) in wire;
    }
    if h in after && Read(wire, h, after[h]) {
      ReadIsParent(parents, wire, h, after[h]);
    }
  }

  /** Decoding into a receiver that already has parents adds to them: what was read
      replaces the round of the same parent, and the other parents stay. */
  lemma ParentsMerge(before: map<VertexHash, u64>, parents: map<VertexHash, u64>, wire: map<string, u64>, after: map<VertexHash, u64>)
    requires Rekeyed(parents, wire) && Merged(before, wire, after)
    ensures after == before + parents
  {
    forall h
      ensures h in after <==> h in before + parents
      ensures h in after ==> after[h] == (before + parents)[h]
    {
      MergedEntry(before, parents, wire, after, h);
    }
    SameMap(before + parents, after);
  }

  /** Whatever the order of the two loops, re-keying and merging give the parents back. */
  lemma ParentsRoundTrip(parents: map<VertexHash, u64>, wire: map<string, u64>, after: map<VertexHash, u64>)
    requires Rekeyed(parents, wire) && Merged(map[], wire, after)
    ensures after == parents
  {
    forall h | h in parents
      ensures h in after
    {
      ParentIsRead(parents, wire, after, h);
    }
    forall h | h in after
      ensures h in parents && after[h] == parents[h]
    {
      ReadParent(parents, wire, after, h);
    }
    SameMap(parents, after);
  }

  /** Decoding an encoded vertex into a fresh one restores owner, round, wave, parents,
      block height and transactions, whatever order the parents are taken in. The hash is
      the content hash of what was restored: the original hash, when that was the content
      hash and the block's cache, if filled, was right. */
  lemma WireRoundTrip(H: Hasher, v: Vertex, w: WireVertex, after: Vertex)
    requires Marshals(v, w)
    requires Acceptable(w) ==> Unmarshals(H, FreshVertex(), w, after)
    ensures Acceptable(w)
    ensures after.owner == v.owner && after.round == v.round && after.wave == v.wave && after.parents == v.parents
    ensures after.block.Some? <==> v.block.Some?
    ensures v.block.Some? ==>
      after.block.value.height == v.block.value.height && after.block.value.transactions == v.block.value.transactions
    ensures BlockField(H, after.block) == BlockField(H, v.block) ==> after.hash == ContentHash(H, v)
    ensures v.block.Some? && v.block.value.hash.None? ==> BlockField(H, after.block) == BlockField(H, v.block)
    ensures v.block == None ==> BlockField(H, after.block) == BlockField(H, v.block)
  {
    DecodeEncode(v.owner.bytes);
    assert CopyInto(ZERO_BYTES, v.owner.bytes) == v.owner.bytes;
    MarshalAcceptable(v, w);
    ParentsRoundTrip(v.parents, w.parents.value, after.parents);
    if BlockField(H, after.block) == BlockField(H, v.block) {
      assert FieldsOf(H, after) == FieldsOf(H, v);
      PreimageInjective(H, after, v);
    }
  }

  /** What the receiver holds when only the parents of an encoded vertex fail to be read:
      the other fields are already those of the vertex, and its own parents are kept. */
  lemma HeaderRoundTrip(before: Vertex, v: Vertex, w: WireVertex)
    requires Marshals(v, w)
    ensures FirstError(w).None?
    ensures var c := Copied(before, w);
      && c.hash == v.hash && c.owner == v.owner && c.round == v.round && c.wave == v.wave && c.parents == before.parents
      && (v.block.None? ==> c.block.None?)
      && (v.block.Some? ==> c.block == Some(v.block.value.(hash := None)))
  {
    HeaderAcceptable(v, w);
    Json32RoundTrip(ZERO_BYTES, v.hash.bytes);
    DecodeEncode(v.owner.bytes);
    assert v.owner.bytes[..32] == v.owner.bytes;
  }

  /** A record without a wave decodes to wave zero and one without a block to no block; the
      hash in the record, if it can be read at all, makes no difference to the outcome. */
  lemma AbsentFields(H: Hasher, before: Vertex, w: WireVertex, after: Vertex, hash: Option<string>)
    requires Acceptable(w) && Unmarshals(H, before, w, after)
    ensures w.wave.None? ==> after.wave == 0
    ensures w.block.None? ==> after.block.None?
    ensures w.hash.None? ==> Copied(before, w).hash == VertexHash(ZERO_BYTES)
    ensures Acceptable(w.(hash := hash)) ==> Unmarshals(H, before, w.(hash := hash), after)
  {
  }

  predicate AllPresent(w: WireVertex) {
    w.owner.Some? && w.round.Some? && w.parents.Some?
  }

  predicate HashReadable(w: WireVertex) {
    w.hash.Some? ==> UnmarshalJson32(ZERO_BYTES, w.hash.value).Some?
  }

  /** The checks in their order: owner, round and parents present, then hash and owner
      readable. */
  lemma ErrorOrder(w: WireVertex)
    ensures FirstError(w) == Some(MissingOwner) <==> w.owner.None?
    ensures FirstError(w) == Some(MissingRound) <==> w.owner.Some? && w.round.None?
    ensures FirstError(w) == Some(MissingParents) <==> w.owner.Some? && w.round.Some? && w.parents.None?
    ensures FirstError(w) == Some(InvalidHash) <==> AllPresent(w) && !HashReadable(w)
    ensures FirstError(w) == Some(InvalidOwner) <==> AllPresent(w) && HashReadable(w) && Decode(w.owner.value).None?
  {
  }

  /** A vertex made by NewVertex, whose block was made by NewBlock, comes back as it was. */
  lemma NewVertexRoundTrip(H: Hasher, v: Vertex, w: WireVertex, after: Vertex)
    requires v.hash == ContentHash(H, v)
    requires v.block.Some? ==> v.block.value == NewBlock(H, v.block.value.height, v.block.value.transactions)
    requires Marshals(v, w)
    requires Acceptable(w) ==> Unmarshals(H, FreshVertex(), w, after)
    ensures after == v
  {
    WireRoundTrip(H, v, w, after);
  }
}
