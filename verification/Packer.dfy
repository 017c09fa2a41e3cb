/**
 * The attestation packer: attestations grouped by their shared data, one wire pack per group, and the
 * decoding of a pack back into single messages.  Hash, snappy and protobuf are parameters.
 */
module Packer {
  import opened Bytes
  import opened Containers
  import opened Gossip
  import opened Topics
  import opened Multisets

  datatype Item = Item(committeeId: u64, attesterIndex: u64, topicIndex: nat, signature: seq<byte>)

  datatype Pack = Pack(data: seq<byte>, items: seq<Item>, sendTsMs: int)

  datatype Container = Container(topic: string, data: seq<seq<byte>>)

  datatype Msg = Msg(tms: int, containers: seq<Container>)

  /** The foreign parts. */
  datatype Wire = Wire(
    snappy: Snappy,
    hash: seq<byte> -> u64,
    marshalPack: Pack -> Option<seq<byte>>,
    unmarshalPack: seq<byte> -> Option<Pack>,
    marshalMsg: Msg -> Option<seq<byte>>,
    unmarshalMsg: seq<byte> -> Option<Msg>)

  /** Snappy and protobuf read back what they wrote; the hash may be any function. */
  ghost predicate LawfulWire(w: Wire) {
    && Lawful(w.snappy)
    && (forall p :: w.marshalPack(p).Some? ==> w.unmarshalPack(w.marshalPack(p).value) == Some(p))
    && (forall m :: w.marshalMsg(m).Some? ==> w.unmarshalMsg(w.marshalMsg(m).value) == Some(m))
  }

  /** What travels: an attestation on a subnet, or a message passed on as it came. */
  datatype Unit = Packed(subnet: nat, attestation: SingleAttestation) | Verbatim(topic: string, data: seq<byte>)

  // ---------- the packer's state ----------

  datatype Groups = Groups(data: map<u64, seq<byte>>, items: map<u64, seq<Item>>)

  function EncodedVote(w: Wire, v: Vote): seq<byte> { w.snappy.encode(MarshalVote(v)) }

  function DataId(w: Wire, v: Vote): u64 { w.hash(EncodedVote(w, v)) }

  function ReadAttestation(w: Wire, message: seq<byte>): Option<SingleAttestation> {
    DecodeGossip(w.snappy, UnmarshalSingle, message)
  }

  function ItemOf(subnet: nat, a: SingleAttestation): Item {
    Item(a.committeeIndex, a.attesterIndex, subnet, a.signature)
  }

  /** The groups after an attestation that could be read. */
  function Grouped(w: Wire, g: Groups, subnet: nat, a: SingleAttestation): Groups {
    var id := DataId(w, a.data);
    var data := if id in g.data then g.data else g.data[id := EncodedVote(w, a.data)];
    Groups(data, Extend(g.items, id, [ItemOf(subnet, a)]))
  }

  ghost predicate IsVote(w: Wire, b: seq<byte>) {
    exists v :: b == EncodedVote(w, v)
  }

  /**
   * Both maps have the same keys and no empty group, every stored data is an encoded vote under its own hash, and
   * every item could be decoded.
   */
  ghost predicate WellGrouped(w: Wire, g: Groups) {
    && g.data.Keys == g.items.Keys && (forall k :: k in g.items ==> g.items[k] != [])
    && (forall k :: k in g.data ==> IsVote(w, g.data[k]) && w.hash(g.data[k]) == k)
    && (forall k, i :: k in g.items && 0 <= i < |g.items[k]| ==> Decodable(g.items[k][i]))
  }

  predicate Decodable(i: Item) { i.topicIndex < SUBNETS && |i.signature| == 96 }

  lemma VoteReadsBack(w: Wire, v: Vote)
    requires LawfulWire(w)
    ensures DecodeGossip(w.snappy, UnmarshalVote, EncodedVote(w, v)) == Some(v)
    ensures EncodeGossip(w.snappy, MarshalVote(v)) == Some(EncodedVote(w, v))
  {
    VoteExact(v, MarshalVote(v));
    GossipRoundTrip(w.snappy, UnmarshalVote, MarshalVote(v));
  }

  lemma SameEncodingSameVote(w: Wire, u: Vote, v: Vote)
    requires LawfulWire(w) && EncodedVote(w, u) == EncodedVote(w, v)
    ensures u == v
  {
    VoteReadsBack(w, u);
    VoteReadsBack(w, v);
  }

  // ---------- contents ----------

  function NoVote(): Vote { Vote(0, 0, Zeros(32), VoteTarget(0, Zeros(32)), VoteTarget(0, Zeros(32))) }

  function VoteIn(w: Wire, b: seq<byte>): Vote {
    match DecodeGossip(w.snappy, UnmarshalVote, b)
    case Some(v) => v
    case None => NoVote()
  }

  /** The unit an item stands for beside a vote. */
  function UnitOf(v: Vote, i: Item): Unit {
    var signature := if |i.signature| == 96 then i.signature else Zeros(96);
    Packed(i.topicIndex, SingleAttestation(i.committeeId, i.attesterIndex, v, signature))
  }

  function Units(v: Vote, items: seq<Item>): (r: seq<Unit>)
    ensures |r| == |items| && forall i :: 0 <= i < |items| ==> r[i] == UnitOf(v, items[i])
  {
    seq(|items|, i requires 0 <= i < |items| => UnitOf(v, items[i]))
  }

  ghost function UnitsAt(w: Wire, g: Groups): u64 -> multiset<Unit> {
    k => if k in g.data && k in g.items then multiset(Units(VoteIn(w, g.data[k]), g.items[k])) else multiset{}
  }

  /** Everything the packer holds. */
  ghost function Held(w: Wire, g: Groups): multiset<Unit> {
    SumOver(UnitsAt(w, g), g.data.Keys)
  }

  /** The unit an addition adds: the attestation beside the data that is stored under its hash. */
  function Credited(w: Wire, g: Groups, subnet: nat, a: SingleAttestation): Unit {
    var id := DataId(w, a.data);
    UnitOf(if id in g.data then VoteIn(w, g.data[id]) else a.data, ItemOf(subnet, a))
  }

  /** An earlier addition put other data under the same hash. */
  predicate Collides(w: Wire, g: Groups, a: SingleAttestation) {
    var id := DataId(w, a.data);
    id in g.data && g.data[id] != EncodedVote(w, a.data)
  }

  /** The bytes a vote is packed as: 128 of them, compressed. */
  lemma EncodedVoteIs(w: Wire, v: Vote)
    ensures EncodedVote(w, v)
         == w.snappy.encode(LE(v.slot, 8) + LE(v.committeeIndex, 8) + v.beaconBlockRoot
                            + LE(v.source.epoch, 8) + v.source.root + LE(v.target.epoch, 8) + v.target.root)
  {
    hide LE;
  }

  /**
   * What an addition does to the two maps: under the hash of the encoded vote the vote is stored unless something is,
   * and an item with the attestation's other fields and its subnet is appended; every other group stays as it is.
   */
  lemma GroupedExactly(w: Wire, g: Groups, subnet: nat, a: SingleAttestation)
    ensures var vote := EncodedVote(w, a.data);
            var id, h := w.hash(vote), Grouped(w, g, subnet, a);
            && h.data.Keys == g.data.Keys + {id} && h.items.Keys == g.items.Keys + {id}
            && h.data[id] == (if id in g.data then g.data[id] else vote)
            && h.items[id] == (if id in g.items then g.items[id] else []) +
                              [Item(a.committeeIndex, a.attesterIndex, subnet, a.signature)]
            && (forall k :: k in g.data && k != id ==> h.data[k] == g.data[k])
            && (forall k :: k in g.items && k != id ==> h.items[k] == g.items[k])
  {
    hide EncodedVote;
  }

  lemma GroupedKeeps(w: Wire, g: Groups, subnet: nat, a: SingleAttestation)
    requires LawfulWire(w) && WellGrouped(w, g) && subnet < SUBNETS
    ensures WellGrouped(w, Grouped(w, g, subnet, a))
  {
    assert IsVote(w, EncodedVote(w, a.data));
    hide EncodedVote;
  }

  lemma GroupedAtId(w: Wire, g: Groups, subnet: nat, a: SingleAttestation)
    requires LawfulWire(w) && WellGrouped(w, g)
    ensures UnitsAt(w, Grouped(w, g, subnet, a))(DataId(w, a.data))
         == (if DataId(w, a.data) in g.data then UnitsAt(w, g)(DataId(w, a.data)) else multiset{}) +
             multiset{Credited(w, g, subnet, a)}
  {
    hide EncodedVote, UnitOf, DecodeGossip;
    var id, h := DataId(w, a.data), Grouped(w, g, subnet, a);
    VoteReadsBack(w, a.data);
    var v := VoteIn(w, h.data[id]);
    var was := if id in g.items then g.items[id] else [];
    assert Units(v, was + [ItemOf(subnet, a)]) == Units(v, was) + [UnitOf(v, ItemOf(subnet, a))];
  }

  lemma GroupedElsewhere(w: Wire, g: Groups, subnet: nat, a: SingleAttestation, k: u64)
    requires WellGrouped(w, g) && k in g.data && k != DataId(w, a.data)
    ensures UnitsAt(w, Grouped(w, g, subnet, a))(k) == UnitsAt(w, g)(k)
  {
    hide EncodedVote, VoteIn, UnitOf, Units, DataId, ItemOf;
  }

  lemma GroupedIds(w: Wire, g: Groups, subnet: nat, a: SingleAttestation)
    ensures Grouped(w, g, subnet, a).data.Keys == g.data.Keys + {DataId(w, a.data)}
  {
    hide EncodedVote, DataId, ItemOf;
  }

  /** An addition adds exactly one unit, and it is the attestation itself unless its data collides. */
  lemma GroupedAddsOne(w: Wire, g: Groups, subnet: nat, a: SingleAttestation)
    requires LawfulWire(w) && WellGrouped(w, g)
    ensures Held(w, Grouped(w, g, subnet, a)) == Held(w, g) + multiset{Credited(w, g, subnet, a)}
    ensures Credited(w, g, subnet, a) == Packed(subnet, a) <==> !Collides(w, g, a)
  {
    hide UnitsAt, Grouped, Credited, DataId, Collides, LawfulWire, WellGrouped, SumOver;
    var id, h := DataId(w, a.data), Grouped(w, g, subnet, a);
    GroupedAtId(w, g, subnet, a);
    GroupedIds(w, g, subnet, a);
    CreditedExactly(w, g, subnet, a);
    forall k | k in g.data.Keys && k != id
      ensures UnitsAt(w, g)(k) == UnitsAt(w, h)(k)
    {
      GroupedElsewhere(w, g, subnet, a, k);
    }
    Change(UnitsAt(w, g), UnitsAt(w, h), g.data.Keys, id, multiset{Credited(w, g, subnet, a)});
  }

  lemma CreditedExactly(w: Wire, g: Groups, subnet: nat, a: SingleAttestation)
    requires LawfulWire(w) && WellGrouped(w, g)
    ensures Credited(w, g, subnet, a) == Packed(subnet, a) <==> !Collides(w, g, a)
  {
    hide EncodedVote;
    var id := DataId(w, a.data);
    if id in g.data {
      var v: Vote :| g.data[id] == EncodedVote(w, v);
      VoteReadsBack(w, v);
      if v != a.data && EncodedVote(w, v) == EncodedVote(w, a.data) {
        SameEncodingSameVote(w, v, a.data);
      }
    }
  }

  // ---------- a batch of additions ----------

  function GroupAll(w: Wire, adds: seq<(nat, SingleAttestation)>): Groups {
    if adds == [] then Groups(map[], map[])
    else
      var n := |adds| - 1;
      Grouped(w, GroupAll(w, adds[..n]), adds[n].0, adds[n].1)
  }

  function Added(adds: seq<(nat, SingleAttestation)>): (r: seq<Unit>)
    ensures |r| == |adds| && forall i :: 0 <= i < |adds| ==> r[i] == Packed(adds[i].0, adds[i].1)
  {
    seq(|adds|, i requires 0 <= i < |adds| => Packed(adds[i].0, adds[i].1))
  }

  predicate CollisionFree(w: Wire, adds: seq<(nat, SingleAttestation)>) {
    forall i, j :: 0 <= i < |adds| && 0 <= j < |adds| && DataId(w, adds[i].1.data) == DataId(w, adds[j].1.data) ==>
      adds[i].1.data == adds[j].1.data
  }

  predicate OnSubnets(adds: seq<(nat, SingleAttestation)>) {
    forall i :: 0 <= i < |adds| ==> adds[i].0 < SUBNETS
  }

  ghost predicate FromBatch(w: Wire, adds: seq<(nat, SingleAttestation)>, b: seq<byte>) {
    exists i :: 0 <= i < |adds| && b == EncodedVote(w, adds[i].1.data)
  }

  /** Every vote's hash is taken, and what is stored is the vote of some addition. */
  ghost predicate StoresBatch(w: Wire, g: Groups, adds: seq<(nat, SingleAttestation)>) {
    && (forall i :: 0 <= i < |adds| ==> DataId(w, adds[i].1.data) in g.data)
    && (forall k :: k in g.data ==> FromBatch(w, adds, g.data[k]))
  }

  lemma FromLongerBatch(w: Wire, adds: seq<(nat, SingleAttestation)>, n: nat, b: seq<byte>)
    requires n <= |adds| && FromBatch(w, adds[..n], b)
    ensures FromBatch(w, adds, b)
  {
    hide EncodedVote;
    var i :| 0 <= i < n && b == EncodedVote(w, adds[..n][i].1.data);
    assert adds[..n][i] == adds[i];
  }

  lemma StoresOneMore(w: Wire, g: Groups, adds: seq<(nat, SingleAttestation)>)
    requires adds != [] && StoresBatch(w, g, adds[..|adds| - 1])
    ensures var a := adds[|adds| - 1]; StoresBatch(w, Grouped(w, g, a.0, a.1), adds)
  {
    hide EncodedVote, DataId, Extend, FromBatch;
    var n := |adds| - 1;
    var h := Grouped(w, g, adds[n].0, adds[n].1);
    assert FromBatch(w, adds, EncodedVote(w, adds[n].1.data)) by { LastOfBatch(w, adds); }
    forall k | k in g.data
      ensures FromBatch(w, adds, g.data[k])
    {
      FromLongerBatch(w, adds, n, g.data[k]);
    }
    forall i | 0 <= i < |adds|
      ensures DataId(w, adds[i].1.data) in h.data
    {
      if i < n {
        assert adds[..n][i] == adds[i];
      }
    }
  }

  lemma LastOfBatch(w: Wire, adds: seq<(nat, SingleAttestation)>)
    requires adds != []
    ensures FromBatch(w, adds, EncodedVote(w, adds[|adds| - 1].1.data))
  {
  }

  lemma {:induction false} GroupAllStores(w: Wire, adds: seq<(nat, SingleAttestation)>)
    requires LawfulWire(w) && OnSubnets(adds)
    ensures WellGrouped(w, GroupAll(w, adds)) && StoresBatch(w, GroupAll(w, adds), adds)
  {
    hide LawfulWire, EncodedVote, WellGrouped, StoresBatch, Grouped;
    if adds == [] {
      NothingGrouped(w);
    } else {
      var n := |adds| - 1;
      GroupAllStores(w, adds[..n]);
      StoresOneMore(w, GroupAll(w, adds[..n]), adds);
      GroupedKeeps(w, GroupAll(w, adds[..n]), adds[n].0, adds[n].1);
    }
  }

  lemma NothingGrouped(w: Wire)
    ensures WellGrouped(w, Groups(map[], map[])) && Held(w, Groups(map[], map[])) == multiset{}
    ensures StoresBatch(w, Groups(map[], map[]), [])
  {
  }

  lemma NoCollision(w: Wire, g: Groups, adds: seq<(nat, SingleAttestation)>)
    requires adds != [] && CollisionFree(w, adds) && WellGrouped(w, g) && StoresBatch(w, g, adds[..|adds| - 1])
    ensures !Collides(w, g, adds[|adds| - 1].1)
  {
    hide EncodedVote, WellGrouped, FromBatch;
    var n := |adds| - 1;
    var id := DataId(w, adds[n].1.data);
    if id in g.data {
      StoredUnderOwnHash(w, g, id);
      FromLongerBatch(w, adds, n, g.data[id]);
      var i := WhichAddition(w, adds, g.data[id]);
    }
  }

  lemma WhichAddition(w: Wire, adds: seq<(nat, SingleAttestation)>, b: seq<byte>) returns (i: nat)
    requires FromBatch(w, adds, b)
    ensures i < |adds| && b == EncodedVote(w, adds[i].1.data)
  {
    i :| 0 <= i < |adds| && b == EncodedVote(w, adds[i].1.data);
  }

  /** One more addition to a batch without collisions collides in the packer if and only if the longer batch has one. */
  lemma CollidesExactly(w: Wire, g: Groups, adds: seq<(nat, SingleAttestation)>)
    requires LawfulWire(w) && adds != [] && CollisionFree(w, adds[..|adds| - 1])
    requires WellGrouped(w, g) && StoresBatch(w, g, adds[..|adds| - 1])
    ensures Collides(w, g, adds[|adds| - 1].1) <==> !CollisionFree(w, adds)
  {
    hide LawfulWire, EncodedVote, WellGrouped, FromBatch;
    var n := |adds| - 1;
    if CollisionFree(w, adds) {
      NoCollision(w, g, adds);
    } else {
      var v, id := adds[n].1.data, DataId(w, adds[n].1.data);
      var i := FreshCollision(w, adds);
      assert adds[..n][i] == adds[i] && id in g.data;
      var j := WhichAddition(w, adds[..n], g.data[id]);
      StoredUnderOwnHash(w, g, id);
      assert adds[..n][j].1.data == adds[i].1.data;
      if EncodedVote(w, adds[i].1.data) == EncodedVote(w, v) {
        SameEncodingSameVote(w, adds[i].1.data, v);
      }
    }
  }

  lemma FreshCollision(w: Wire, adds: seq<(nat, SingleAttestation)>) returns (i: nat)
    requires adds != [] && CollisionFree(w, adds[..|adds| - 1]) && !CollisionFree(w, adds)
    ensures i < |adds| - 1 && DataId(w, adds[i].1.data) == DataId(w, adds[|adds| - 1].1.data)
    ensures adds[i].1.data != adds[|adds| - 1].1.data
  {
    hide DataId;
    var n := |adds| - 1;
    var x, y :| 0 <= x < |adds| && 0 <= y < |adds| && DataId(w, adds[x].1.data) == DataId(w, adds[y].1.data)
                && adds[x].1.data != adds[y].1.data;
    assert forall k :: 0 <= k < n ==> adds[..n][k] == adds[k];
    i := if x < n then x else y;
  }

  lemma {:induction false} GroupAllHolds(w: Wire, adds: seq<(nat, SingleAttestation)>)
    requires LawfulWire(w) && OnSubnets(adds) && CollisionFree(w, adds)
    ensures Held(w, GroupAll(w, adds)) == multiset(Added(adds))
  {
    hide LawfulWire, EncodedVote, DataId, WellGrouped, StoresBatch, Held, Grouped, Credited, Collides;
    if adds == [] {
      NothingGrouped(w);
    } else {
      var n := |adds| - 1;
      var g := GroupAll(w, adds[..n]);
      GroupAllHolds(w, adds[..n]);
      GroupAllStores(w, adds[..n]);
      NoCollision(w, g, adds);
      GroupedAddsOne(w, g, adds[n].0, adds[n].1);
      assert Added(adds) == Added(adds[..n]) + [Packed(adds[n].0, adds[n].1)];
    }
  }

  lemma StoredUnderOwnHash(w: Wire, g: Groups, k: u64)
    requires WellGrouped(w, g) && k in g.data
    ensures w.hash(g.data[k]) == k
  {
  }

  /** A held unit carries exactly the vote stored under that vote's hash. */
  lemma HeldVote(w: Wire, g: Groups, u: Unit)
    requires LawfulWire(w) && WellGrouped(w, g) && u in Held(w, g)
    ensures u.Packed? && DataId(w, u.attestation.data) in g.data
    ensures g.data[DataId(w, u.attestation.data)] == EncodedVote(w, u.attestation.data)
  {
    hide LawfulWire, EncodedVote;
    var k := SomeSummand(UnitsAt(w, g), g.data.Keys, u);
    var v: Vote :| g.data[k] == EncodedVote(w, v);
    VoteReadsBack(w, v);
    assert u in Units(VoteIn(w, g.data[k]), g.items[k]);
  }

  lemma HeldMeansFree(w: Wire, adds: seq<(nat, SingleAttestation)>, i: nat, j: nat)
    requires LawfulWire(w) && OnSubnets(adds) && i < |adds| && j < |adds|
    requires Held(w, GroupAll(w, adds)) == multiset(Added(adds))
    requires DataId(w, adds[i].1.data) == DataId(w, adds[j].1.data)
    ensures adds[i].1.data == adds[j].1.data
  {
    hide LawfulWire, EncodedVote, WellGrouped, Held, GroupAll;
    GroupAllStores(w, adds);
    var g := GroupAll(w, adds);
    assert Added(adds)[i] in multiset(Added(adds)) && Added(adds)[j] in multiset(Added(adds));
    HeldVote(w, g, Added(adds)[i]);
    HeldVote(w, g, Added(adds)[j]);
    SameEncodingSameVote(w, adds[i].1.data, adds[j].1.data);
  }

  /**
   * The packs of a batch carry exactly the attestations added, each on its subnet, if and only if no two different
   * votes share a hash.
   */
  lemma BatchExactly(w: Wire, adds: seq<(nat, SingleAttestation)>)
    requires LawfulWire(w) && OnSubnets(adds)
    ensures Held(w, GroupAll(w, adds)) == multiset(Added(adds)) <==> CollisionFree(w, adds)
  {
    hide LawfulWire, Held, GroupAll, DataId;
    if CollisionFree(w, adds) {
      GroupAllHolds(w, adds);
    } else if Held(w, GroupAll(w, adds)) == multiset(Added(adds)) {
      forall i, j | 0 <= i < |adds| && 0 <= j < |adds| && DataId(w, adds[i].1.data) == DataId(w, adds[j].1.data)
        ensures adds[i].1.data == adds[j].1.data
      {
        HeldMeansFree(w, adds, i, j);
      }
    }
  }
}
