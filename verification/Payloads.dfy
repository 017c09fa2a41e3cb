/** Emitted payloads: what a payload carries, the packer that writes them and the readers of both forms. */
module Payloads {
  import opened Bytes
  import opened Text
  import opened Gossip
  import opened Topics
  import opened Multisets
  import opened Packer

  const PREFIX_PACKER: seq<byte> := [0, 8]
  const PREFIX_NAIVE: seq<byte> := [0, 7]

  // ---------- what a payload carries ----------

  predicate AllDecodable(items: seq<Item>) { forall i :: 0 <= i < |items| ==> Decodable(items[i]) }

  /** The units of a pack; refused when the pack, its data or one of its items is bad. */
  function PackContents(w: Wire, body: seq<byte>): Option<seq<Unit>> {
    match w.unmarshalPack(body)
    case None => None
    case Some(p) =>
      match DecodeGossip(w.snappy, UnmarshalVote, p.data)
      case None => None
      case Some(v) => if AllDecodable(p.items) then Some(Units(v, p.items)) else None
  }

  /**
   * What a pack reads as: it unmarshals, its data is a vote, every item names a subnet below 64 and a signature of 96
   * bytes; then item by item the attestation of that committee and attester for that vote, on that subnet.
   */
  lemma PackContentsExactly(w: Wire, body: seq<byte>, us: seq<Unit>)
    ensures PackContents(w, body) == Some(us) <==>
            && w.unmarshalPack(body).Some?
            && var p := w.unmarshalPack(body).value;
               && DecodeGossip(w.snappy, UnmarshalVote, p.data).Some?
               && var v := DecodeGossip(w.snappy, UnmarshalVote, p.data).value;
                  && |us| == |p.items|
                  && forall i :: 0 <= i < |us| ==>
                       && p.items[i].topicIndex < 64 && |p.items[i].signature| == 96
                       && us[i] == Packed(p.items[i].topicIndex,
                                          SingleAttestation(p.items[i].committeeId, p.items[i].attesterIndex, v,
                                                            p.items[i].signature))
  {
    hide DecodeGossip;
    if w.unmarshalPack(body).Some? && DecodeGossip(w.snappy, UnmarshalVote, w.unmarshalPack(body).value.data).Some? {
      var p := w.unmarshalPack(body).value;
      var v := DecodeGossip(w.snappy, UnmarshalVote, p.data).value;
      if |us| == |p.items| && (forall i :: 0 <= i < |us| ==> us[i] == UnitOf(v, p.items[i])) {
        assert us == Units(v, p.items);
      }
    }
  }

  function VerbatimAll(topic: string, ds: seq<seq<byte>>): (r: seq<Unit>)
    ensures |r| == |ds| && forall i :: 0 <= i < |ds| ==> r[i] == Verbatim(topic, ds[i])
  {
    seq(|ds|, i requires 0 <= i < |ds| => Verbatim(topic, ds[i]))
  }

  function ContainerUnits(cs: seq<Container>): seq<Unit> {
    if cs == [] then [] else
      var n := |cs| - 1;
      ContainerUnits(cs[..n]) + VerbatimAll(cs[n].topic, cs[n].data)
  }

  predicate HasPrefix(payload: seq<byte>, prefix: seq<byte>) { prefix <= payload }

  /** Packer form, naive form, or refused. */
  function Contents(w: Wire, payload: seq<byte>): Option<seq<Unit>> {
    if HasPrefix(payload, PREFIX_PACKER) then PackContents(w, payload[2..])
    else if HasPrefix(payload, PREFIX_NAIVE) then
      match w.unmarshalMsg(payload[2..])
      case None => None
      case Some(m) => Some(ContainerUnits(m.containers))
    else None
  }

  /** The two forms by their first two bytes. */
  lemma ContentsByPrefix(w: Wire, body: seq<byte>)
    ensures Contents(w, [0, 8] + body) == PackContents(w, body)
    ensures Contents(w, [0, 7] + body)
         == if w.unmarshalMsg(body).Some? then Some(ContainerUnits(w.unmarshalMsg(body).value.containers)) else None
    ensures forall p :: |p| < 2 || p[0] != 0 || (p[1] != 8 && p[1] != 7) ==> Contents(w, p).None?
  {
    hide PackContents, ContainerUnits;
    assert ([0, 8] + body)[2..] == body && ([0, 7] + body)[2..] == body;
    assert ([0, 7] + body)[1] == 7;
  }

  ghost predicate Readable(w: Wire, payloads: seq<seq<byte>>) {
    forall i :: 0 <= i < |payloads| ==> Contents(w, payloads[i]).Some?
  }

  /** Everything a list of payloads carries. */
  ghost function Carried(w: Wire, payloads: seq<seq<byte>>): multiset<Unit>
    requires Readable(w, payloads)
  {
    if payloads == [] then multiset{} else
      var n := |payloads| - 1;
      Carried(w, payloads[..n]) + multiset(Contents(w, payloads[n]).value)
  }

  lemma CarriedOneMore(w: Wire, payloads: seq<seq<byte>>, p: seq<byte>)
    requires Readable(w, payloads) && Contents(w, p).Some?
    ensures Readable(w, payloads + [p])
    ensures Carried(w, payloads + [p]) == Carried(w, payloads) + multiset(Contents(w, p).value)
  {
    hide Contents;
    assert (payloads + [p])[..|payloads|] == payloads;
  }

  lemma NoneCarried(w: Wire)
    ensures Readable(w, []) && Carried(w, []) == multiset{}
  {
  }

  lemma {:induction false} CarriedAppend(w: Wire, ps: seq<seq<byte>>, qs: seq<seq<byte>>)
    requires Readable(w, ps) && Readable(w, qs)
    ensures Readable(w, ps + qs) && Carried(w, ps + qs) == Carried(w, ps) + Carried(w, qs)
    decreases |qs|
  {
    hide Contents, Carried;
    if qs == [] {
      assert ps + qs == ps;
      assert Carried(w, []) == multiset{} by { NoneCarried(w); }
    } else {
      var n := |qs| - 1;
      CarriedAppend(w, ps, qs[..n]);
      CarriedOneMore(w, qs[..n], qs[n]);
      CarriedOneMore(w, ps + qs[..n], qs[n]);
      assert qs[..n] + [qs[n]] == qs;
      assert ps + qs[..n] + [qs[n]] == ps + qs;
    }
  }

  /** A pack written for a group carries exactly that group's units. */
  lemma PackCarriesGroup(w: Wire, g: Groups, k: u64, now: int, blob: seq<byte>)
    requires LawfulWire(w) && WellGrouped(w, g) && k in g.data
    requires w.marshalPack(Pack(g.data[k], g.items[k], now)) == Some(blob)
    ensures Contents(w, PREFIX_PACKER + blob).Some?
    ensures multiset(Contents(w, PREFIX_PACKER + blob).value) == UnitsAt(w, g)(k)
  {
    hide EncodedVote, DecodeGossip;
    assert (PREFIX_PACKER + blob)[2..] == blob;
    var p := Pack(g.data[k], g.items[k], now);
    assert w.unmarshalPack(w.marshalPack(p).value) == Some(p);
    var v: Vote :| g.data[k] == EncodedVote(w, v);
    VoteReadsBack(w, v);
  }

  /** A naive payload carries what its containers list. */
  lemma MsgCarriesContainers(w: Wire, m: Msg, blob: seq<byte>)
    requires LawfulWire(w) && w.marshalMsg(m) == Some(blob)
    ensures Contents(w, PREFIX_NAIVE + blob) == Some(ContainerUnits(m.containers))
  {
    hide ContainerUnits, PackContents;
    assert (PREFIX_NAIVE + blob)[2..] == blob;
    assert !HasPrefix(PREFIX_NAIVE + blob, PREFIX_PACKER) by { assert (PREFIX_NAIVE + blob)[1] != PREFIX_PACKER[1]; }
    assert w.unmarshalMsg(w.marshalMsg(m).value) == Some(m);
  }

  // ---------- reading payloads ----------

  /** The topic and message a unit is delivered as. */
  function Deliver(w: Wire, digest: string, u: Unit): (string, seq<byte>) {
    match u
    case Packed(subnet, a) => (AttestationTopic(digest, subnet), w.snappy.encode(MarshalSingle(a)))
    case Verbatim(topic, data) => (topic, data)
  }

  /** A unit is delivered under its subnet's full topic as the compressed 240 bytes of its attestation. */
  lemma DeliveryExactly(w: Wire, digest: string, subnet: nat, a: SingleAttestation)
    ensures Deliver(w, digest, Packed(subnet, a))
         == ("/eth2/" + ToLower(digest) + "/" + ("beacon_attestation_" + Decimal(subnet)) + "/ssz_snappy",
             w.snappy.encode(LE(a.committeeIndex, 8) + LE(a.attesterIndex, 8) + MarshalVote(a.data) + a.signature))
  {
    hide AttestationTopic, LE, MarshalVote, Decimal, ToLower;
    AttestationTopicIs(digest, subnet);
  }

  function Deliveries(w: Wire, digest: string, us: seq<Unit>): (r: seq<(string, seq<byte>)>)
    ensures |r| == |us| && forall i :: 0 <= i < |us| ==> r[i] == Deliver(w, digest, us[i])
  {
    seq(|us|, i requires 0 <= i < |us| => Deliver(w, digest, us[i]))
  }

  lemma SingleFits(w: Wire, a: SingleAttestation)
    requires LawfulWire(w)
    ensures EncodeGossip(w.snappy, MarshalSingle(a)) == Some(w.snappy.encode(MarshalSingle(a)))
    ensures ReadAttestation(w, w.snappy.encode(MarshalSingle(a))) == Some(a)
  {
    hide MarshalSingle, UnmarshalSingle;
    SingleExact(a, MarshalSingle(a));
    GossipRoundTrip(w.snappy, UnmarshalSingle, MarshalSingle(a));
  }

  /** From what is delivered the subnet and the attestation read back. */
  lemma DeliveryReadsBack(w: Wire, digest: string, subnet: nat, a: SingleAttestation)
    requires LawfulWire(w) && |digest| == 8 && AllHex(digest) && subnet < SUBNETS
    ensures var d := Deliver(w, digest, Packed(subnet, a));
            ParseTopicMeta(d.0) == Attestation(subnet) && ForkDigest(d.0) == ToLower(digest) &&
                ReadAttestation(w, d.1) == Some(a)
  {
    hide AttestationTopic, ParseTopicMeta, ForkDigest, MarshalSingle, ReadAttestation;
    TopicRoundTrip(digest, subnet);
    SingleFits(w, a);
  }

  /** Expands a pack into messages by topic: it accepts what Contents accepts and delivers every unit once. */
  method Decode(w: Wire, digest: string, body: seq<byte>) returns (r: Option<Buckets<string, seq<byte>>>)
    requires LawfulWire(w)
    ensures r.Some? <==> PackContents(w, body).Some?
    ensures r.Some? ==> Pairs(r.value) == multiset(Deliveries(w, digest, PackContents(w, body).value))
  {
    hide LawfulWire, DecodeGossip, AttestationTopic, MarshalSingle, SumOver, EncodeGossip;
    var pack := w.unmarshalPack(body);
    if pack.None? {
      return None;
    }
    var data := DecodeGossip(w.snappy, UnmarshalVote, pack.value.data);
    if data.None? {
      return None;
    }
    var items := pack.value.items;
    var result: Buckets<string, seq<byte>> := map[];
    NoPairs(result);
    for i := 0 to |items|
      invariant AllDecodable(items[..i])
      invariant Pairs(result) == multiset(Deliveries(w, digest, Units(data.value, items[..i])))
    {
      if items[i].topicIndex >= SUBNETS {
        return None;
      }
      if |items[i].signature| != 96 {
        return None;
      }
      var a := SingleAttestation(items[i].committeeId, items[i].attesterIndex, data.value, items[i].signature);
      SingleFits(w, a);
      var message := EncodeGossip(w.snappy, MarshalSingle(a));
      if message.None? {
        return None;
      }
      var topic := AttestationTopic(digest, items[i].topicIndex);
      PairsOfExtend(result, topic, [message.value]);
      OneMoreDelivery(w, digest, data.value, items, i);
      result := Extend(result, topic, [message.value]);
    }
    assert items[..|items|] == items;
    return Some(result);
  }

  lemma NoPairs(m: Buckets<string, seq<byte>>)
    requires m == map[]
    ensures Pairs(m) == multiset{}
  {
  }

  lemma OneMoreDelivery(w: Wire, digest: string, v: Vote, items: seq<Item>, i: nat)
    requires i < |items|
    ensures Deliveries(w, digest, Units(v, items[..i + 1])) == Deliveries(w, digest, Units(v, items[..i])) +
            [Deliver(w, digest, UnitOf(v, items[i]))]
    ensures AllDecodable(items[..i + 1]) <==> AllDecodable(items[..i]) && Decodable(items[i])
  {
    hide Deliver, UnitOf, Decodable;
    assert items[..i + 1] == items[..i] + [items[i]];
  }

  lemma VerbatimDeliveries(w: Wire, digest: string, topic: string, ds: seq<seq<byte>>)
    ensures Deliveries(w, digest, VerbatimAll(topic, ds)) == Tag(topic, ds)
  {
  }

  lemma DeliveriesAppend(w: Wire, digest: string, us: seq<Unit>, vs: seq<Unit>)
    ensures Deliveries(w, digest, us + vs) == Deliveries(w, digest, us) + Deliveries(w, digest, vs)
  {
    hide Deliver;
  }

  lemma OneMoreContainer(w: Wire, digest: string, cs: seq<Container>, i: nat)
    requires i < |cs|
    ensures multiset(Deliveries(w, digest, ContainerUnits(cs[..i + 1])))
         == multiset(Deliveries(w, digest, ContainerUnits(cs[..i]))) + multiset(Tag(cs[i].topic, cs[i].data))
  {
    hide Deliver;
    assert cs[..i + 1][..i] == cs[..i];
    VerbatimDeliveries(w, digest, cs[i].topic, cs[i].data);
    DeliveriesAppend(w, digest, ContainerUnits(cs[..i]), VerbatimAll(cs[i].topic, cs[i].data));
  }

  /** Reads a payload of either form: it accepts what Contents accepts and delivers every unit exactly once. */
  method DecodeAggregatedMessage(w: Wire, digest: string, payload: seq<byte>)
    returns (r: Option<Buckets<string, seq<byte>>>)
    requires LawfulWire(w)
    ensures r.Some? <==> Contents(w, payload).Some?
    ensures r.Some? ==> Pairs(r.value) == multiset(Deliveries(w, digest, Contents(w, payload).value))
  {
    hide LawfulWire, PackContents, Pairs, Deliver;
    if HasPrefix(payload, PREFIX_PACKER) {
      r := Decode(w, digest, payload[2..]);
      return;
    }
    if HasPrefix(payload, PREFIX_NAIVE) {
      var m := w.unmarshalMsg(payload[2..]);
      if m.None? {
        return None;
      }
      var cs := m.value.containers;
      var result: Buckets<string, seq<byte>> := map[];
      NoPairs(result);
      for i := 0 to |cs|
        invariant Pairs(result) == multiset(Deliveries(w, digest, ContainerUnits(cs[..i])))
      {
        if cs[i].topic !in result {
          PairsOfExtend(result, cs[i].topic, []);
          result := Extend(result, cs[i].topic, []);
        }
        PairsOfExtend(result, cs[i].topic, cs[i].data);
        OneMoreContainer(w, digest, cs, i);
        result := Extend(result, cs[i].topic, cs[i].data);
      }
      assert cs[..|cs|] == cs;
      return Some(result);
    }
    return None;
  }

  // ---------- writing payloads ----------

  lemma SameKeys(w: Wire, g: Groups)
    requires WellGrouped(w, g)
    ensures g.data.Keys == g.items.Keys
  {
  }

  lemma NothingYet(w: Wire, g: Groups)
    ensures SumOver(UnitsAt(w, g), {}) == multiset{} && Readable(w, []) && Carried(w, []) == multiset{}
  {
  }

  lemma PeelNew(w: Wire, g: Groups, done: set<u64>, k: u64)
    requires k !in done && k in g.data && k in g.items
    ensures SumOver(UnitsAt(w, g), done + {k}) == SumOver(UnitsAt(w, g), done) + UnitsAt(w, g)(k)
    ensures |UnitsAt(w, g)(k)| == |g.items[k]|
  {
    Peel(UnitsAt(w, g), done + {k}, k);
    assert done + {k} - {k} == done;
    hide UnitOf, VoteIn;
  }

  predicate Marshals(w: Wire, g: Groups, now: int, keys: set<u64>) {
    forall k :: k in keys && k in g.data && k in g.items ==> w.marshalPack(Pack(g.data[k], g.items[k], now)).Some?
  }

  /** The payloads of the groups `done`. */
  ghost predicate Progress(w: Wire, g: Groups, now: int, ps: seq<seq<byte>>, done: set<u64>) {
    && Marshals(w, g, now, done) && |ps| == |done|
    && Readable(w, ps) && Carried(w, ps) == SumOver(UnitsAt(w, g), done)
  }

  lemma Begin(w: Wire, g: Groups, now: int)
    ensures Progress(w, g, now, [], {})
  {
    NothingYet(w, g);
  }

  lemma Proceed(w: Wire, g: Groups, now: int, ps: seq<seq<byte>>, done: set<u64>, k: u64, blob: seq<byte>)
    requires LawfulWire(w) && WellGrouped(w, g) && Progress(w, g, now, ps, done)
    requires k in g.data && k !in done && w.marshalPack(Pack(g.data[k], g.items[k], now)) == Some(blob)
    ensures Progress(w, g, now, ps + [PREFIX_PACKER + blob], done + {k})
  {
    hide LawfulWire, WellGrouped, Contents, UnitsAt, SumOver, Carried, Readable, PREFIX_PACKER;
    SameKeys(w, g);
    PackCarriesGroup(w, g, k, now, blob);
    CarriedOneMore(w, ps, PREFIX_PACKER + blob);
    PeelNew(w, g, done, k);
  }

  lemma Complete(w: Wire, g: Groups, now: int, ps: seq<seq<byte>>)
    requires Progress(w, g, now, ps, g.data.Keys)
    ensures Marshals(w, g, now, g.data.Keys) && |ps| == |g.data|
    ensures Readable(w, ps) && Carried(w, ps) == Held(w, g)
  {
    hide Contents, UnitsAt, SumOver, Carried, Readable;
  }

  lemma NotAll(w: Wire, g: Groups, now: int, k: u64)
    requires k in g.data && k in g.items && w.marshalPack(Pack(g.data[k], g.items[k], now)).None?
    ensures !Marshals(w, g, now, g.data.Keys)
  {
  }

  /** The bytes 0 and 8, then the protobuf of one group's vote and items. */
  ghost predicate IsPackOf(w: Wire, g: Groups, now: int, payload: seq<byte>) {
    exists k :: k in g.data && k in g.items && w.marshalPack(Pack(g.data[k], g.items[k], now)).Some?
                && payload == [0, 8] + w.marshalPack(Pack(g.data[k], g.items[k], now)).value
  }

  class AttestationPacker {
    const wire: Wire
    var encodedData: map<u64, seq<byte>>
    var encodedAttestations: map<u64, seq<Item>>

    function View(): Groups
      reads this
    {
      Groups(encodedData, encodedAttestations)
    }

    ghost predicate Valid()
      reads this
    {
      LawfulWire(wire) && WellGrouped(wire, View())
    }

    constructor (wire: Wire)
      requires LawfulWire(wire)
      ensures Valid() && this.wire == wire && View() == Groups(map[], map[])
    {
      this.wire, encodedData, encodedAttestations := wire, map[], map[];
      new;
      NothingGrouped(wire);
    }

    /** Groups an attestation it can read; refuses everything else and then changes nothing. */
    method Add(meta: Option<TopicMeta>, message: seq<byte>) returns (ok: bool)
      requires Valid()
      requires meta.Some? && meta.value.Attestation? ==> meta.value.subnet < SUBNETS
      modifies this
      ensures Valid()
      ensures ok <==> meta.Some? && meta.value.Attestation? && ReadAttestation(wire, message).Some?
      ensures ok ==> View() == Grouped(wire, old(View()), meta.value.subnet, ReadAttestation(wire, message).value)
      ensures !ok ==> View() == old(View())
    {
      hide LawfulWire, WellGrouped, ReadAttestation, EncodedVote, MarshalVote, EncodeGossip;
      SameKeys(wire, View());
      if meta.None? || !meta.value.Attestation? {
        return false;
      }
      var a := ReadAttestation(wire, message);
      if a.None? {
        return false;
      }
      VoteReadsBack(wire, a.value.data);
      GroupedKeeps(wire, View(), meta.value.subnet, a.value);
      var encoded := EncodeGossip(wire.snappy, MarshalVote(a.value.data));
      if encoded.None? {
        return false;
      }
      var id := wire.hash(encoded.value);
      if id !in encodedData {
        encodedData := encodedData[id := encoded.value];
      }
      if id !in encodedAttestations {
        encodedAttestations := encodedAttestations[id := []];
      }
      encodedAttestations := encodedAttestations[id := encodedAttestations[id] + [ItemOf(meta.value.subnet, a.value)]];
      assert View() == Grouped(wire, old(View()), meta.value.subnet, a.value);
      return true;
    }

    /** One payload per group, in any order; nothing at all when a group cannot be marshalled. */
    method EncodeCurrent(now: int) returns (r: Option<seq<seq<byte>>>)
      requires Valid()
      ensures r.Some? <==> Marshals(wire, View(), now, encodedData.Keys)
      ensures r.Some? ==>
              |r.value| == |encodedData| && Readable(wire, r.value) && Carried(wire, r.value) == Held(wire, View())
      ensures r.Some? ==> forall i :: 0 <= i < |r.value| ==> IsPackOf(wire, View(), now, r.value[i])
    {
      hide LawfulWire, WellGrouped, Progress, Marshals;
      ghost var g := View();
      SameKeys(wire, g);
      var result, rest := [], encodedData.Keys;
      Begin(wire, g, now);
      assert g.data.Keys - rest == {};
      while rest != {}
        invariant rest <= g.data.Keys
        invariant Progress(wire, g, now, result, g.data.Keys - rest)
        invariant forall i :: 0 <= i < |result| ==> IsPackOf(wire, g, now, result[i])
        decreases |rest|
      {
        var k :| k in rest;
        var blob := wire.marshalPack(Pack(encodedData[k], encodedAttestations[k], now));
        if blob.None? {
          NotAll(wire, g, now, k);
          return None;
        }
        Proceed(wire, g, now, result, g.data.Keys - rest, k, blob.value);
        assert g.data.Keys - (rest - {k}) == g.data.Keys - rest + {k};
        result := result + [PREFIX_PACKER + blob.value];
        rest := rest - {k};
      }
      assert g.data.Keys - {} == g.data.Keys;
      Complete(wire, g, now, result);
      return Some(result);
    }

    /** The number of attestations held. */
    method TotalItems() returns (n: nat)
      requires Valid()
      ensures n == |Held(wire, View())|
    {
      hide LawfulWire, WellGrouped, UnitsAt, SumOver;
      SameKeys(wire, View());
      NothingYet(wire, View());
      n := 0;
      var rest, done := encodedAttestations.Keys, {};
      while rest != {}
        invariant rest !! done && rest + done == encodedAttestations.Keys
        invariant n == |SumOver(UnitsAt(wire, View()), done)|
        decreases |rest|
      {
        var k :| k in rest;
        PeelNew(wire, View(), done, k);
        n := n + |encodedAttestations[k]|;
        rest, done := rest - {k}, done + {k};
      }
      assert done == encodedData.Keys;
    }

    method Clean()
      requires Valid()
      modifies this
      ensures Valid() && View() == Groups(map[], map[]) && Held(wire, View()) == multiset{}
    {
      encodedData, encodedAttestations := map[], map[];
      NothingGrouped(wire);
    }
  }
}
