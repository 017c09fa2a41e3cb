/** From additions through packs and their decoding to deliveries: the packer's round trip in one piece. */
module PackRoundTrip {
  import opened Bytes
  import opened Gossip
  import opened Topics
  import opened Multisets
  import opened Packer
  import opened Payloads

  // ---------- deliveries tell units apart ----------

  predicate AllPacked(us: seq<Unit>) { forall i :: 0 <= i < |us| ==> us[i].Packed? }

  /** Whatever the digest, two packed units are delivered alike only if they are the same. */
  lemma DeliverInjective(w: Wire, digest: string, u: Unit, v: Unit)
    requires LawfulWire(w) && u.Packed? && v.Packed? && Deliver(w, digest, u) == Deliver(w, digest, v)
    ensures u == v
  {
    hide AttestationTopic, MarshalSingle, ReadAttestation, LawfulWire;
    SubnetsApart(digest, u.subnet, v.subnet);
    SingleFits(w, u.attestation);
    SingleFits(w, v.attestation);
  }

  function Without<T>(s: seq<T>, j: nat): seq<T>
    requires j < |s|
  {
    s[..j] + s[j + 1..]
  }

  lemma WithoutOne<T>(s: seq<T>, j: nat)
    requires j < |s|
    ensures multiset(s) == multiset(Without(s, j)) + multiset{s[j]}
  {
    assert s == s[..j] + [s[j]] + s[j + 1..];
  }

  lemma DeliveriesWithout(w: Wire, digest: string, us: seq<Unit>, j: nat)
    requires j < |us|
    ensures Deliveries(w, digest, Without(us, j)) == Without(Deliveries(w, digest, us), j)
  {
    hide Deliver;
  }

  lemma Cancel<T>(a: multiset<T>, b: multiset<T>, x: T)
    requires a + multiset{x} == b + multiset{x}
    ensures a == b
  {
    assert a == a + multiset{x} - multiset{x} && b == b + multiset{x} - multiset{x};
  }

  /** The place in `vs` of what stands first in `us`, in either view. */
  lemma Partner(w: Wire, digest: string, us: seq<Unit>, vs: seq<Unit>) returns (j: nat)
    requires LawfulWire(w) && AllPacked(us) && AllPacked(vs) && us != []
    requires multiset(us) == multiset(vs) || multiset(Deliveries(w, digest, us)) == multiset(Deliveries(w, digest, vs))
    ensures j < |vs| && vs[j] == us[0]
  {
    hide Deliver, LawfulWire;
    if multiset(us) == multiset(vs) {
      assert us[0] in multiset(vs);
      j :| 0 <= j < |vs| && vs[j] == us[0];
    } else {
      var ds, es := Deliveries(w, digest, us), Deliveries(w, digest, vs);
      assert ds[0] in multiset(es);
      j :| 0 <= j < |es| && es[j] == ds[0];
      DeliverInjective(w, digest, vs[j], us[0]);
    }
  }

  /** The same units are delivered if and only if the same deliveries are made. */
  lemma {:induction false} SameUnitsSameDeliveries(w: Wire, digest: string, us: seq<Unit>, vs: seq<Unit>)
    requires LawfulWire(w) && AllPacked(us) && AllPacked(vs)
    ensures multiset(us) == multiset(vs) <==> multiset(Deliveries(w, digest, us)) == multiset(Deliveries(w, digest, vs))
  {
    hide Deliver, LawfulWire;
    var ds, es := Deliveries(w, digest, us), Deliveries(w, digest, vs);
    assert |multiset(us)| == |us| && |multiset(vs)| == |vs| && |multiset(ds)| == |us| && |multiset(es)| == |vs|;
    if us != [] && (multiset(us) == multiset(vs) || multiset(ds) == multiset(es)) {
      var j := Partner(w, digest, us, vs);
      SameRest(w, digest, us, vs, j);
      SameUnitsSameDeliveries(w, digest, Without(us, 0), Without(vs, j));
    }
  }

  lemma SameRest(w: Wire, digest: string, us: seq<Unit>, vs: seq<Unit>, j: nat)
    requires us != [] && j < |vs| && vs[j] == us[0]
    ensures multiset(us) == multiset(vs) <==> multiset(Without(us, 0)) == multiset(Without(vs, j))
    ensures multiset(Deliveries(w, digest, us)) == multiset(Deliveries(w, digest, vs))
       <==> multiset(Deliveries(w, digest, Without(us, 0))) == multiset(Deliveries(w, digest, Without(vs, j)))
  {
    hide Deliver, Without;
    WithoutOne(us, 0);
    WithoutOne(vs, j);
    DeliveriesWithout(w, digest, us, 0);
    DeliveriesWithout(w, digest, vs, j);
    var ds, es := Deliveries(w, digest, us), Deliveries(w, digest, vs);
    WithoutOne(ds, 0);
    WithoutOne(es, j);
    if multiset(us) == multiset(vs) {
      Cancel(multiset(Without(us, 0)), multiset(Without(vs, j)), us[0]);
    }
    if multiset(ds) == multiset(es) {
      Cancel(multiset(Without(ds, 0)), multiset(Without(es, j)), ds[0]);
    }
  }

  // ---------- all units of a list of payloads ----------

  ghost function AllUnits(w: Wire, ps: seq<seq<byte>>): seq<Unit>
    requires Readable(w, ps)
  {
    if ps == [] then [] else AllUnits(w, ps[..|ps| - 1]) + Contents(w, ps[|ps| - 1]).value
  }

  lemma {:induction false} CarriedIsAll(w: Wire, ps: seq<seq<byte>>)
    requires Readable(w, ps)
    ensures Carried(w, ps) == multiset(AllUnits(w, ps))
  {
    hide Contents;
    if ps != [] {
      CarriedIsAll(w, ps[..|ps| - 1]);
    }
  }

  lemma UnitsAreHeld(w: Wire, g: Groups, us: seq<Unit>)
    requires LawfulWire(w) && WellGrouped(w, g) && multiset(us) == Held(w, g)
    ensures AllPacked(us)
  {
    hide LawfulWire, WellGrouped, Held;
    forall i | 0 <= i < |us|
      ensures us[i].Packed?
    {
      assert us[i] in multiset(us);
      HeldVote(w, g, us[i]);
    }
  }

  /** Everything in a list of decoded payloads. */
  ghost function Delivered(rs: seq<Buckets<string, seq<byte>>>): multiset<(string, seq<byte>)> {
    if rs == [] then multiset{} else Delivered(rs[..|rs| - 1]) + Pairs(rs[|rs| - 1])
  }

  lemma OneMoreDecoded(w: Wire, digest: string, ps: seq<seq<byte>>, k: nat, rs: seq<Buckets<string, seq<byte>>>,
                       r: Buckets<string, seq<byte>>)
    requires Readable(w, ps) && k < |ps| && Readable(w, ps[..k]) && Readable(w, ps[..k + 1])
    requires Delivered(rs) == multiset(Deliveries(w, digest, AllUnits(w, ps[..k])))
    requires Pairs(r) == multiset(Deliveries(w, digest, Contents(w, ps[k]).value))
    ensures Delivered(rs + [r]) == multiset(Deliveries(w, digest, AllUnits(w, ps[..k + 1])))
  {
    hide Contents, Deliver, Pairs;
    assert (rs + [r])[..|rs|] == rs;
    assert ps[..k + 1][..k] == ps[..k];
    DeliveriesAppend(w, digest, AllUnits(w, ps[..k]), Contents(w, ps[k]).value);
  }

  /**
   * Adds the attestations on their subnets, writes the packs and decodes them again.  If all packs marshal, what is
   * delivered is exactly one message for each attestation added, on its subnet's topic, if and only if no two
   * different votes share a hash.
   */
  method PackAndUnpack(w: Wire, digest: string, adds: seq<(nat, SingleAttestation)>, now: int)
    returns (r: Option<seq<Buckets<string, seq<byte>>>>)
    requires LawfulWire(w) && OnSubnets(adds)
    ensures r.Some? <==> Marshals(w, GroupAll(w, adds), now, GroupAll(w, adds).data.Keys)
    ensures r.Some? ==> (Delivered(r.value) == multiset(Deliveries(w, digest, Added(adds))) <==> CollisionFree(w, adds))
  {
    hide LawfulWire, WellGrouped, Held, Carried, Readable, Contents, Deliver, Marshals, GroupAll, CollisionFree, Pairs,
         MarshalSingle, ReadAttestation, Delivered, AllUnits;
    var packer := AddAll(w, adds);
    var sent := packer.EncodeCurrent(now);
    if sent.None? {
      return None;
    }
    var decoded := DecodeAll(w, digest, sent.value);
    Compare(w, digest, adds, sent.value);
    return Some(decoded);
  }

  lemma Compare(w: Wire, digest: string, adds: seq<(nat, SingleAttestation)>, ps: seq<seq<byte>>)
    requires LawfulWire(w) && OnSubnets(adds) && Readable(w, ps) && Carried(w, ps) == Held(w, GroupAll(w, adds))
    ensures multiset(Deliveries(w, digest, AllUnits(w, ps))) == multiset(Deliveries(w, digest, Added(adds)))
       <==> CollisionFree(w, adds)
  {
    hide LawfulWire, WellGrouped, Held, Carried, Readable, Contents, Deliver, GroupAll, CollisionFree, StoresBatch;
    CarriedIsAll(w, ps);
    GroupAllStores(w, adds);
    UnitsAreHeld(w, GroupAll(w, adds), AllUnits(w, ps));
    BatchExactly(w, adds);
    SameUnitsSameDeliveries(w, digest, AllUnits(w, ps), Added(adds));
  }

  method AddAll(w: Wire, adds: seq<(nat, SingleAttestation)>) returns (packer: AttestationPacker)
    requires LawfulWire(w) && OnSubnets(adds)
    ensures fresh(packer) && packer.Valid() && packer.wire == w && packer.View() == GroupAll(w, adds)
  {
    hide LawfulWire, WellGrouped, Grouped, MarshalSingle, ReadAttestation;
    packer := new AttestationPacker(w);
    for i := 0 to |adds|
      invariant fresh(packer) && packer.Valid() && packer.wire == w && packer.View() == GroupAll(w, adds[..i])
    {
      SingleFits(w, adds[i].1);
      var _ := packer.Add(Some(Attestation(adds[i].0)), w.snappy.encode(MarshalSingle(adds[i].1)));
      assert adds[..i + 1][..i] == adds[..i];
    }
    assert adds[..|adds|] == adds;
  }

  method DecodeAll(w: Wire, digest: string, ps: seq<seq<byte>>) returns (rs: seq<Buckets<string, seq<byte>>>)
    requires LawfulWire(w) && Readable(w, ps)
    ensures Delivered(rs) == multiset(Deliveries(w, digest, AllUnits(w, ps)))
  {
    hide LawfulWire, Contents, Deliver, Pairs, Delivered, AllUnits;
    rs := [];
    assert Delivered([]) == multiset(Deliveries(w, digest, AllUnits(w, ps[..0]))) by { NothingDecoded(w, digest, ps); }
    for k := 0 to |ps|
      invariant Readable(w, ps[..k]) && Delivered(rs) == multiset(Deliveries(w, digest, AllUnits(w, ps[..k])))
    {
      var r := DecodeAggregatedMessage(w, digest, ps[k]);
      OneMoreDecoded(w, digest, ps, k, rs, r.value);
      rs := rs + [r.value];
    }
    assert ps[..|ps|] == ps;
  }

  lemma NothingDecoded(w: Wire, digest: string, ps: seq<seq<byte>>)
    ensures Delivered([]) == multiset(Deliveries(w, digest, AllUnits(w, ps[..0])))
  {
  }
}
