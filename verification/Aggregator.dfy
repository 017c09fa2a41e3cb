/** The aggregator's service loop: items are packed or batched verbatim, and leave through the slot gate. */
module Aggregator {
  import opened Bytes
  import opened Topics
  import opened Multisets
  import opened Packer
  import opened Payloads
  import opened SlotGate

  datatype ChannelItem = ChannelItem(topic: string, meta: Option<TopicMeta>, data: seq<byte>)

  /** What an item stands for: an attestation on its subnet when it can be read as one, else the message itself. */
  function UnitTaken(w: Wire, it: ChannelItem): Unit {
    if it.meta.Some? && it.meta.value.Attestation? && ReadAttestation(w, it.data).Some?
    then Packed(it.meta.value.subnet, ReadAttestation(w, it.data).value)
    else Verbatim(it.topic, it.data)
  }

  // ---------- the verbatim batches ----------

  ghost function BatchAt(m: Buckets<string, seq<byte>>): string -> multiset<Unit> {
    t => if t in m then multiset(VerbatimAll(t, m[t])) else multiset{}
  }

  ghost function BatchesHeld(m: Buckets<string, seq<byte>>): multiset<Unit> {
    SumOver(BatchAt(m), m.Keys)
  }

  predicate NoneEmpty(m: Buckets<string, seq<byte>>) { forall t :: t in m ==> m[t] != [] }

  lemma NoBatches(m: Buckets<string, seq<byte>>)
    requires m == map[]
    ensures BatchesHeld(m) == multiset{}
  {
  }

  lemma BatchExtendedAt(m: Buckets<string, seq<byte>>, t: string, d: seq<byte>)
    ensures BatchAt(Extend(m, t, [d]))(t) == (if t in m then BatchAt(m)(t) else multiset{}) + multiset{Verbatim(t, d)}
  {
    var was := if t in m then m[t] else [];
    assert VerbatimAll(t, was + [d]) == VerbatimAll(t, was) + [Verbatim(t, d)];
  }

  lemma BatchExtendedElsewhere(m: Buckets<string, seq<byte>>, t: string, d: seq<byte>, u: string)
    requires u in m && u != t
    ensures BatchAt(Extend(m, t, [d]))(u) == BatchAt(m)(u)
  {
    hide VerbatimAll;
  }

  lemma BatchesExtended(m: Buckets<string, seq<byte>>, t: string, d: seq<byte>)
    ensures BatchesHeld(Extend(m, t, [d])) == BatchesHeld(m) + multiset{Verbatim(t, d)}
  {
    hide BatchAt, SumOver;
    var n := Extend(m, t, [d]);
    BatchExtendedAt(m, t, d);
    forall u | u in m.Keys && u != t
      ensures BatchAt(m)(u) == BatchAt(n)(u)
    {
      BatchExtendedElsewhere(m, t, d, u);
    }
    Change(BatchAt(m), BatchAt(n), m.Keys, t, multiset{Verbatim(t, d)});
    assert n.Keys == m.Keys + {t};
  }

  lemma BatchTaken(m: Buckets<string, seq<byte>>, t: string, cs: seq<Container>)
    requires t in m
    ensures BatchesHeld(m - {t}) + multiset(ContainerUnits(cs + [Container(t, m[t])]))
         == BatchesHeld(m) + multiset(ContainerUnits(cs))
  {
    var n := m - {t};
    Peel(BatchAt(m), m.Keys, t);
    assert n.Keys == m.Keys - {t};
    Agree(BatchAt(m), BatchAt(n), n.Keys);
    assert (cs + [Container(t, m[t])])[..|cs|] == cs;
    hide SumOver;
  }

  // ---------- the account ----------

  /** What was taken, what it was credited as, what was dropped, and whether a hash collided or a marshalling failed. */
  datatype Account = Account(
    taken: multiset<Unit>, credited: multiset<Unit>, lost: multiset<Unit>, collided: bool, marshalFailed: bool)

  function Opened(): Account { Account(multiset{}, multiset{}, multiset{}, false, false) }

  function Credit(acc: Account, unit: Unit, as_: Unit): Account {
    acc.(taken := acc.taken + multiset{unit}, credited := acc.credited + multiset{as_},
         collided := acc.collided || unit != as_)
  }

  function Drop(acc: Account, what: multiset<Unit>): Account {
    acc.(lost := acc.lost + what, marshalFailed := true)
  }

  /**
   * Everything taken is credited once, and what is credited is still held, carried by an emitted payload or dropped;
   * only a hash collision changes a credit, and only a failed marshalling drops one.
   */
  ghost predicate Balanced(w: Wire, g: Groups, m: Buckets<string, seq<byte>>, emitted: seq<seq<byte>>, acc: Account) {
    && Readable(w, emitted)
    && acc.credited == Held(w, g) + BatchesHeld(m) + Carried(w, emitted) + acc.lost
    && |acc.credited| == |acc.taken|
    && (!acc.collided ==> acc.credited == acc.taken)
    && (!acc.marshalFailed ==> acc.lost == multiset{})
  }

  lemma BalancedAtStart(w: Wire)
    ensures Balanced(w, Groups(map[], map[]), map[], [], Opened())
  {
    NothingGrouped(w);
    NoBatches(map[]);
    NoneCarried(w);
  }

  lemma BalancedPack(w: Wire, g: Groups, m: Buckets<string, seq<byte>>, emitted: seq<seq<byte>>, acc: Account,
                     subnet: nat, a: Gossip.SingleAttestation)
    requires LawfulWire(w) && WellGrouped(w, g) && Balanced(w, g, m, emitted, acc)
    ensures Balanced(w, Grouped(w, g, subnet, a), m, emitted, Credit(acc, Packed(subnet, a), Credited(w, g, subnet, a)))
  {
    hide LawfulWire, WellGrouped, Held, Carried, Readable, BatchesHeld, Grouped, Credited, Collides;
    GroupedAddsOne(w, g, subnet, a);
  }

  lemma BalancedBatch(w: Wire, g: Groups, m: Buckets<string, seq<byte>>, emitted: seq<seq<byte>>, acc: Account,
                      t: string, d: seq<byte>)
    requires Balanced(w, g, m, emitted, acc)
    ensures Balanced(w, g, Extend(m, t, [d]), emitted, Credit(acc, Verbatim(t, d), Verbatim(t, d)))
  {
    hide Held, Carried, Readable, BatchesHeld, Extend;
    BatchesExtended(m, t, d);
  }

  lemma BalancedEmit(w: Wire, g: Groups, m: Buckets<string, seq<byte>>, emitted: seq<seq<byte>>, acc: Account,
      ps: seq<seq<byte>>)
    requires Balanced(w, g, m, emitted, acc)
    requires Readable(w, ps) && Carried(w, ps) == Held(w, g)
    ensures Balanced(w, Groups(map[], map[]), m, emitted + ps, acc)
  {
    hide Held, Carried, Readable, BatchesHeld;
    CarriedAppend(w, emitted, ps);
    NothingGrouped(w);
  }

  lemma BalancedDrop(w: Wire, g: Groups, m: Buckets<string, seq<byte>>, emitted: seq<seq<byte>>, acc: Account)
    requires Balanced(w, g, m, emitted, acc)
    ensures Balanced(w, Groups(map[], map[]), m, emitted, Drop(acc, Held(w, g)))
  {
    hide Held, Carried, Readable, BatchesHeld;
    NothingGrouped(w);
  }

  lemma BalancedMsg(w: Wire, g: Groups, m: Buckets<string, seq<byte>>, emitted: seq<seq<byte>>, acc: Account, msg: Msg)
    requires LawfulWire(w) && Balanced(w, g, m, emitted, acc)
    requires multiset(ContainerUnits(msg.containers)) == BatchesHeld(m)
    ensures w.marshalMsg(msg).Some? ==> Balanced(w, g, map[], emitted + [PREFIX_NAIVE + w.marshalMsg(msg).value], acc)
    ensures Balanced(w, g, map[], emitted, Drop(acc, BatchesHeld(m)))
  {
    hide LawfulWire, Held, Carried, Readable, BatchesHeld, ContainerUnits, Contents, PREFIX_NAIVE;
    NoBatches(map[]);
    if w.marshalMsg(msg).Some? {
      MsgCarriesContainers(w, msg, w.marshalMsg(msg).value);
      CarriedOneMore(w, emitted, PREFIX_NAIVE + w.marshalMsg(msg).value);
    }
  }

  /** Protobuf marshals every pack and message. */
  ghost predicate AlwaysMarshals(w: Wire) {
    (forall p :: w.marshalPack(p).Some?) && (forall m :: w.marshalMsg(m).Some?)
  }

  /** An item is credited as something else exactly when its data collides with other data of the same batch. */
  lemma CreditExactly(w: Wire, g: Groups, acc: Account, it: ChannelItem)
    requires LawfulWire(w) && WellGrouped(w, g)
    ensures CreditItem(w, g, acc, it).taken == acc.taken + multiset{UnitTaken(w, it)}
    ensures CreditItem(w, g, acc, it).collided
       <==> acc.collided || (UnitTaken(w, it).Packed? && Collides(w, g, UnitTaken(w, it).attestation))
  {
    hide LawfulWire, WellGrouped, ReadAttestation, Credited, Collides;
    if UnitTaken(w, it).Packed? {
      CreditedExactly(w, g, UnitTaken(w, it).subnet, UnitTaken(w, it).attestation);
    }
  }

  // ---------- what the events decide ----------

  /** What wakes the loop, and the arrivals of blocks that stamp the emitter meanwhile. */
  datatype Event = Take(item: ChannelItem) | BlockArrives(at: int) | EmitTick(now: int) | LogTick

  predicate GenuineMeta(it: ChannelItem) {
    it.meta.Some? && it.meta.value.Attestation? ==> it.meta.value.subnet < SUBNETS
  }

  predicate Genuine(events: seq<Event>) {
    forall i :: 0 <= i < |events| && events[i].Take? ==> GenuineMeta(events[i].item)
  }

  /** The units taken, in order. */
  function TakenUnits(w: Wire, events: seq<Event>): seq<Unit> {
    if events == [] then [] else
      var n := |events| - 1;
      TakenUnits(w, events[..n]) + (if events[n].Take? then [UnitTaken(w, events[n].item)] else [])
  }

  /** The arrivals and ticks among the events. */
  function Moments(events: seq<Event>): seq<Moment> {
    if events == [] then [] else
      var n := |events| - 1;
      Moments(events[..n])
      + match events[n] {
        case BlockArrives(at) => [BlockSeen(at)]
        case EmitTick(now) => [Tick(now)]
        case _ => []
      }
  }

  /** Where the loop runs: gate, genesis, and the foreign parts. */
  datatype Setting = Setting(wire: Wire, cfg: Option<Gate>, genesis: int)

  /** The tick `events[i]` is not held back, by the stamp of the arrivals before it. */
  predicate OpenTick(c: Setting, events: seq<Event>, i: nat) {
    i < |events| && events[i].EmitTick? && !Holds(c.cfg, c.genesis, events[i].now, LastBlockMs(Moments(events[..i])))
  }

  /** The attestations taken since the last open tick. */
  function InBatch(c: Setting, events: seq<Event>): seq<(nat, Gossip.SingleAttestation)> {
    if events == [] then [] else
      var n := |events| - 1;
      var batch := InBatch(c, events[..n]);
      if OpenTick(c, events, n) then []
      else if events[n].Take? && UnitTaken(c.wire, events[n].item).Packed? then
        var u := UnitTaken(c.wire, events[n].item);
        batch + [(u.subnet, u.attestation)]
      else batch
  }

  predicate BatchFree(c: Setting, events: seq<Event>, i: nat)
    requires i <= |events|
  {
    CollisionFree(c.wire, InBatch(c, events[..i]))
  }

  /** At no time do two different votes taken between two emissions share a hash. */
  predicate NeverCollides(c: Setting, events: seq<Event>) {
    forall i :: 0 <= i <= |events| ==> BatchFree(c, events, i)
  }

  lemma OneMoreEvent(c: Setting, events: seq<Event>, e: Event)
    ensures TakenUnits(c.wire, events + [e]) == TakenUnits(c.wire, events) +
            (if e.Take? then [UnitTaken(c.wire, e.item)] else [])
    ensures LastBlockMs(Moments(events + [e])) == (if e.BlockArrives? then Ms(e.at) else LastBlockMs(Moments(events)))
    ensures e.EmitTick? ==>
              (OpenTick(c, events + [e], |events|) <==> !Holds(c.cfg, c.genesis, e.now, LastBlockMs(Moments(events))))
    ensures !e.EmitTick? ==> !OpenTick(c, events + [e], |events|)
  {
    hide UnitTaken, Holds;
    assert (events + [e])[..|events|] == events;
    var m := Moments(events);
    if e.BlockArrives? {
      assert (m + [BlockSeen(e.at)])[|m|] == BlockSeen(e.at);
    } else if e.EmitTick? {
      assert (m + [Tick(e.now)])[..|m|] == m;
    } else {
      assert m + [] == m;
    }
  }

  /** The batch after one more event. */
  function NextBatch(c: Setting, events: seq<Event>, e: Event): seq<(nat, Gossip.SingleAttestation)> {
    if OpenTick(c, events + [e], |events|) then []
    else if e.Take? && UnitTaken(c.wire, e.item).Packed? then
      InBatch(c, events) + [(UnitTaken(c.wire, e.item).subnet, UnitTaken(c.wire, e.item).attestation)]
    else InBatch(c, events)
  }

  lemma InBatchOneMore(c: Setting, events: seq<Event>, e: Event)
    ensures InBatch(c, events + [e]) == NextBatch(c, events, e)
  {
    hide UnitTaken, OpenTick;
    assert (events + [e])[..|events|] == events;
  }

  lemma {:induction false} InBatchOnSubnets(c: Setting, events: seq<Event>)
    requires Genuine(events)
    ensures OnSubnets(InBatch(c, events))
  {
    hide OpenTick, ReadAttestation;
    if events != [] {
      var n := |events| - 1;
      assert forall i :: 0 <= i < n ==> events[..n][i] == events[i];
      InBatchOnSubnets(c, events[..n]);
    }
  }

  lemma StillOpen(c: Setting, events: seq<Event>, e: Event, i: nat)
    requires OpenTick(c, events, i)
    ensures OpenTick(c, events + [e], i)
  {
    hide Holds, Moments;
    assert (events + [e])[..i] == events[..i];
  }

  lemma NeverCollidesOneMore(c: Setting, events: seq<Event>, e: Event)
    ensures NeverCollides(c, events + [e]) <==>
            NeverCollides(c, events) && CollisionFree(c.wire, InBatch(c, events + [e]))
  {
    hide CollisionFree, InBatch;
    var f := events + [e];
    forall i | 0 <= i <= |events|
      ensures BatchFree(c, f, i) == BatchFree(c, events, i)
    {
      assert f[..i] == events[..i];
    }
    assert f[..|f|] == f;
    assert BatchFree(c, f, |f|) == CollisionFree(c.wire, InBatch(c, f));
  }

  lemma NeverCollidesNow(c: Setting, events: seq<Event>)
    requires NeverCollides(c, events)
    ensures CollisionFree(c.wire, InBatch(c, events))
  {
    hide CollisionFree, InBatch;
    assert events[..|events|] == events;
    assert BatchFree(c, events, |events|);
  }

  // ---------- the invariant over the events ----------

  /** The account and the packer are what the events decide. */
  ghost predicate Follows(c: Setting, events: seq<Event>, g: Groups, acc: Account) {
    && g == GroupAll(c.wire, InBatch(c, events))
    && acc.taken == multiset(TakenUnits(c.wire, events))
    && (acc.collided <==> !NeverCollides(c, events))
    && (AlwaysMarshals(c.wire) ==> !acc.marshalFailed)
  }

  lemma FollowsAtStart(c: Setting)
    ensures Follows(c, [], Groups(map[], map[]), Opened())
  {
    assert forall i :: 0 <= i <= 0 ==> BatchFree(c, [], i);
  }

  lemma FollowsTake(c: Setting, events: seq<Event>, g: Groups, acc: Account, it: ChannelItem)
    requires LawfulWire(c.wire) && Genuine(events) && Follows(c, events, g, acc)
    ensures var u := UnitTaken(c.wire, it);
            Follows(c, events + [Take(it)], if u.Packed? then Grouped(c.wire, g, u.subnet, u.attestation) else g,
                    CreditItem(c.wire, g, acc, it))
  {
    hide LawfulWire, UnitTaken, CreditItem, Grouped, OpenTick, InBatch, TakenUnits, Collides, NeverCollides,
         CollisionFree, WellGrouped, AlwaysMarshals;
    var e, u, adds := Take(it), UnitTaken(c.wire, it), InBatch(c, events);
    OneMoreEvent(c, events, e);
    InBatchOneMore(c, events, e);
    NeverCollidesOneMore(c, events, e);
    InBatchOnSubnets(c, events);
    GroupAllStores(c.wire, adds);
    CreditExactly(c.wire, g, acc, it);
    CreditKeepsFailures(c.wire, g, acc, it);
    if NeverCollides(c, events) {
      NeverCollidesNow(c, events);
      if u.Packed? {
        var more := adds + [(u.subnet, u.attestation)];
        assert more[..|adds|] == adds;
        CollidesExactly(c.wire, g, more);
      }
    }
    GroupAllOneMore(c.wire, adds, u);
  }

  lemma CreditKeepsFailures(w: Wire, g: Groups, acc: Account, it: ChannelItem)
    ensures CreditItem(w, g, acc, it).marshalFailed == acc.marshalFailed
  {
  }

  lemma GroupAllOneMore(w: Wire, adds: seq<(nat, Gossip.SingleAttestation)>, u: Unit)
    ensures u.Packed? ==>
              GroupAll(w, adds + [(u.subnet, u.attestation)]) == Grouped(w, GroupAll(w, adds), u.subnet, u.attestation)
  {
    hide Grouped;
    if u.Packed? {
      assert (adds + [(u.subnet, u.attestation)])[..|adds|] == adds;
    }
  }

  /** An event other than an item and an open tick changes neither. */
  lemma FollowsIdle(c: Setting, events: seq<Event>, g: Groups, acc: Account, e: Event)
    requires Follows(c, events, g, acc) && !e.Take? && !OpenTick(c, events + [e], |events|)
    ensures Follows(c, events + [e], g, acc)
  {
    hide OpenTick, InBatch, TakenUnits, NeverCollides, CollisionFree, AlwaysMarshals, GroupAll;
    OneMoreEvent(c, events, e);
    InBatchOneMore(c, events, e);
    NeverCollidesOneMore(c, events, e);
    if NeverCollides(c, events) {
      NeverCollidesNow(c, events);
    }
  }

  /** An open tick empties the packer and starts a new batch. */
  lemma FollowsEmission(c: Setting, events: seq<Event>, g: Groups, acc: Account, e: Event, later: Account)
    requires Follows(c, events, g, acc) && OpenTick(c, events + [e], |events|)
    requires later.taken == acc.taken && later.collided == acc.collided
    requires AlwaysMarshals(c.wire) ==> later.marshalFailed == acc.marshalFailed
    ensures Follows(c, events + [e], Groups(map[], map[]), later)
  {
    hide InBatch, TakenUnits, NeverCollides, AlwaysMarshals, Holds;
    OneMoreEvent(c, events, e);
    InBatchOneMore(c, events, e);
    NeverCollidesOneMore(c, events, e);
    assert (events + [e])[|events|] == e;
    assert CollisionFree(c.wire, []);
  }

  /**
   * With marshalling succeeding and no two different votes of one batch sharing a hash, what the events bring in is
   * exactly what is held plus what the emitted payload bytes carry.
   */
  lemma NothingLostNothingTwice(c: Setting, events: seq<Event>, g: Groups, m: Buckets<string, seq<byte>>,
                                emitted: seq<seq<byte>>, acc: Account)
    requires Balanced(c.wire, g, m, emitted, acc) && Follows(c, events, g, acc)
    requires AlwaysMarshals(c.wire) && NeverCollides(c, events)
    ensures Readable(c.wire, emitted)
    ensures multiset(TakenUnits(c.wire, events)) == Held(c.wire, g) + BatchesHeld(m) + Carried(c.wire, emitted)
  {
    hide Held, Carried, Readable, BatchesHeld, AlwaysMarshals, NeverCollides, TakenUnits, GroupAll, InBatch;
  }

  /** Every payload was emitted at an open tick. */
  ghost predicate AtOpenTicks(c: Setting, events: seq<Event>, emittedAt: seq<nat>) {
    forall j :: 0 <= j < |emittedAt| ==> OpenTick(c, events, emittedAt[j])
  }

  lemma AtOpenTicksIdle(c: Setting, events: seq<Event>, e: Event, at: seq<nat>)
    requires AtOpenTicks(c, events, at)
    ensures AtOpenTicks(c, events + [e], at)
  {
    hide OpenTick;
    forall j | 0 <= j < |at|
      ensures OpenTick(c, events + [e], at[j])
    {
      StillOpen(c, events, e, at[j]);
    }
  }

  lemma AtOpenTicksMore(c: Setting, events: seq<Event>, e: Event, at: seq<nat>, n: nat)
    requires AtOpenTicks(c, events, at) && (n > 0 ==> OpenTick(c, events + [e], |events|))
    ensures AtOpenTicks(c, events + [e], at + Repeat(|events|, n))
  {
    hide OpenTick;
    AtOpenTicksIdle(c, events, e, at);
  }

  function Repeat(x: nat, n: nat): (r: seq<nat>)
    ensures |r| == n && forall i :: 0 <= i < n ==> r[i] == x
  {
    seq(n, _ => x)
  }

  /** With the default gate, every payload was emitted in its slot's window, counted from the arrivals before it. */
  lemma EmittedInWindow(c: Setting, events: seq<Event>, emittedAt: seq<nat>, j: nat)
    requires AtOpenTicks(c, events, emittedAt) && j < |emittedAt| && c.cfg == Some(DEFAULT_GATE)
    requires Ordered(Moments(events[..emittedAt[j] + 1])) && Sane(c.genesis, events[emittedAt[j]].now)
    ensures InWindow(c.genesis, Moments(events[..emittedAt[j]]), events[emittedAt[j]].now)
  {
    hide Holds, InWindow, Sane;
    var i := emittedAt[j];
    var now := events[i].now;
    assert OpenTick(c, events, i);
    assert events[..i + 1][..i] == events[..i];
    assert Moments(events[..i + 1]) == Moments(events[..i]) + [Tick(now)];
    EmissionsInWindow(c.genesis, Moments(events[..i]), now);
  }

  // ---------- losses ----------

  /** The packs an emission drops. */
  ghost function PacksLost(w: Wire, g: Groups, now: int): multiset<Unit> {
    if Marshals(w, g, now, g.data.Keys) then multiset{} else Held(w, g)
  }

  /** The number of packs it sends. */
  function PacksSent(w: Wire, g: Groups, now: int): nat {
    if Marshals(w, g, now, g.data.Keys) then |g.data| else 0
  }

  /** The batches an emission drops, by the message it builds of them. */
  ghost function BatchesLost(w: Wire, m: Buckets<string, seq<byte>>, msg: Option<Msg>): multiset<Unit> {
    if msg.Some? && w.marshalMsg(msg.value).None? then BatchesHeld(m) else multiset{}
  }

  /** Packed attestations are lost if and only if some group cannot be marshalled, and then all of them are. */
  lemma PacksLostExactly(w: Wire, g: Groups, now: int)
    requires WellGrouped(w, g)
    ensures PacksLost(w, g, now) != multiset{} <==> !Marshals(w, g, now, g.data.Keys)
    ensures !Marshals(w, g, now, g.data.Keys) ==> PacksLost(w, g, now) == Held(w, g)
  {
    hide SumOver;
    if !Marshals(w, g, now, g.data.Keys) {
      var k :| k in g.data;
      Peel(UnitsAt(w, g), g.data.Keys, k);
      assert Units(VoteIn(w, g.data[k]), g.items[k])[0] in UnitsAt(w, g)(k);
    }
  }

  class Service {
    const wire: Wire
    const cfg: Option<Gate>
    const genesis: int
    const packer: AttestationPacker
    var byTopic: Buckets<string, seq<byte>>
    var emitted: seq<seq<byte>>
    var failedAttempts: nat
    // the stamp the emitter keeps of the last block
    var lastBlockMs: int
    ghost var account: Account
    // the events so far, and at which of them each payload was emitted
    ghost var history: seq<Event>
    ghost var emittedAt: seq<nat>

    ghost function Where(): Setting { Setting(wire, cfg, genesis) }

    /** Between two events: everything is what the events so far decide. */
    ghost predicate Settled()
      reads this, packer
    {
      && Valid() && Genuine(history) && Follows(Where(), history, packer.View(), account)
      && lastBlockMs == LastBlockMs(Moments(history))
      && |emittedAt| == |emitted| && AtOpenTicks(Where(), history, emittedAt)
    }

    ghost predicate Valid()
      reads this, packer
    {
      && packer.Valid() && packer.wire == wire
      && NoneEmpty(byTopic)
      && Balanced(wire, packer.View(), byTopic, emitted, account)
    }

    constructor (wire: Wire, cfg: Option<Gate>, genesis: int)
      requires LawfulWire(wire)
      ensures Settled() && fresh(packer) && this.wire == wire && this.cfg == cfg && this.genesis == genesis
      ensures emitted == [] && account == Opened() && history == [] && packer.View() == Groups(map[], map[]) &&
              byTopic == map[]
    {
      this.wire, this.cfg, this.genesis := wire, cfg, genesis;
      packer := new AttestationPacker(wire);
      byTopic, emitted, failedAttempts, lastBlockMs := map[], [], 0, 0;
      account, history, emittedAt := Opened(), [], [];
      new;
      hide LawfulWire, WellGrouped, Balanced, Follows;
      BalancedAtStart(wire);
      FollowsAtStart(Where());
    }

    /** The ordinary path: the message joins its topic's batch. */
    method BatchItem(topic: string, data: seq<byte>)
      requires Valid()
      modifies `byTopic, `account
      ensures Valid() && account == Credit(old(account), Verbatim(topic, data), Verbatim(topic, data))
      ensures byTopic == Extend(old(byTopic), topic, [data])
    {
      hide LawfulWire, WellGrouped, Balanced, Credit;
      BalancedBatch(wire, packer.View(), byTopic, emitted, account, topic, data);
      account := Credit(account, Verbatim(topic, data), Verbatim(topic, data));
      ghost var after := Extend(byTopic, topic, [data]);
      if topic !in byTopic {
        byTopic := byTopic[topic := []];
      }
      byTopic := byTopic[topic := byTopic[topic] + [data]];
      assert byTopic == after;
    }

    /** The packing path: an attestation that can be read joins the packer. */
    method PackItem(it: ChannelItem) returns (ok: bool)
      requires Valid() && GenuineMeta(it)
      modifies packer, `account
      ensures Valid() && ok == UnitTaken(wire, it).Packed?
      ensures packer.View() == AfterItem(wire, old(packer.View()), it)
      ensures account == if ok then CreditItem(wire, old(packer.View()), old(account), it) else old(account)
    {
      hide LawfulWire, WellGrouped, Balanced, ReadAttestation, Credited, Grouped, NoneEmpty, Credit;
      ghost var g := packer.View();
      ok := packer.Add(it.meta, it.data);
      if ok {
        BalancedPack(wire, g, byTopic, emitted, account, it.meta.value.subnet, ReadAttestation(wire, it.data).value);
        account := CreditItem(wire, g, account, it);
      }
    }

    /** One item from the channel: packed if it can be, else batched. */
    method TakeItem(it: ChannelItem)
      requires Valid() && GenuineMeta(it)
      modifies this, packer
      ensures Valid() && emitted == old(emitted) && packer.View() == AfterItem(wire, old(packer.View()), it)
      ensures account == CreditItem(wire, old(packer.View()), old(account), it)
      ensures byTopic == if UnitTaken(wire, it).Packed? then old(byTopic) else Extend(old(byTopic), it.topic, [it.data])
      ensures var packs := it.meta.Some? && it.meta.value.Attestation? && ReadAttestation(wire, it.data).Some?;
              if packs then
                && byTopic == old(byTopic)
                && packer.View() == Grouped(wire, old(packer.View()), it.meta.value.subnet,
                                            ReadAttestation(wire, it.data).value)
              else
                && packer.View() == old(packer.View())
                && byTopic == old(byTopic)[it.topic := (if it.topic in old(byTopic) then old(byTopic)[it.topic] else [])
                                                       + [it.data]]
      ensures lastBlockMs == old(lastBlockMs) && history == old(history) && emittedAt == old(emittedAt)
    {
      hide LawfulWire, WellGrouped, Balanced, ReadAttestation, Credited, NoneEmpty, Credit;
      if it.meta.Some? && it.meta.value.Attestation? {
        var ok := PackItem(it);
        if ok {
          return;
        }
        failedAttempts := failedAttempts + 1;
      }
      BatchItem(it.topic, it.data);
    }

    /**
     * The packs and the batches go out and the packer is emptied.  What is dropped is exactly the packs when one of
     * them cannot be marshalled, and exactly the batches when their message cannot.
     */
    method BuildAndEmit(now: int) returns (ghost msg: Option<Msg>)
      requires Valid()
      modifies `byTopic, `emitted, `account, packer
      ensures Valid() && packer.View() == Groups(map[], map[]) && byTopic == map[] && old(emitted) <= emitted
      ensures account.taken == old(account.taken) && account.collided == old(account.collided)
      ensures account.credited == old(account.credited)
      ensures msg.Some? <==> old(byTopic) != map[]
      ensures msg.Some? ==>
              msg.value.tms == now && multiset(ContainerUnits(msg.value.containers)) == BatchesHeld(old(byTopic))
      ensures account.lost
           == old(account.lost) + PacksLost(wire, old(packer.View()), now) + BatchesLost(wire, old(byTopic), msg)
      ensures |emitted| == |old(emitted)| + PacksSent(wire, old(packer.View()), now)
                           + (if msg.Some? && wire.marshalMsg(msg.value).Some? then 1 else 0)
      ensures AlwaysMarshals(wire) ==> account.marshalFailed == old(account.marshalFailed)
    {
      hide LawfulWire, WellGrouped, Balanced, Held, BatchesHeld, Carried, Readable, ContainerUnits, Marshals,
          AlwaysMarshals;
      MarshalsAll(wire, packer.View(), now);
      var sendData := packer.EncodeCurrent(now);
      if sendData.None? {
        BalancedDrop(wire, packer.View(), byTopic, emitted, account);
        account := Drop(account, Held(wire, packer.View()));
      } else {
        BalancedEmit(wire, packer.View(), byTopic, emitted, account, sendData.value);
        emitted := emitted + sendData.value;
      }
      packer.Clean();
      if byTopic == map[] {
        return None;
      }
      ghost var sent := EmitBatches(now);
      return Some(sent);
    }

    /** The verbatim batches as one message; they are dropped if and only if it cannot be marshalled. */
    method EmitBatches(now: int) returns (ghost msg: Msg)
      requires Valid()
      modifies `byTopic, `emitted, `account
      ensures Valid() && byTopic == map[] && old(emitted) <= emitted
      ensures account.taken == old(account.taken) && account.collided == old(account.collided)
      ensures account.credited == old(account.credited)
      ensures msg.tms == now && multiset(ContainerUnits(msg.containers)) == BatchesHeld(old(byTopic))
      ensures account.lost == old(account.lost) + BatchesLost(wire, old(byTopic), Some(msg))
      ensures emitted
           == old(emitted) + (if wire.marshalMsg(msg).Some? then [[0, 7] + wire.marshalMsg(msg).value] else [])
      ensures AlwaysMarshals(wire) ==> account.marshalFailed == old(account.marshalFailed)
    {
      hide LawfulWire, WellGrouped, Balanced, BatchesHeld, ContainerUnits;
      ghost var all := byTopic;
      var containers := Drain();
      var built := Msg(now, containers);
      msg := built;
      BalancedMsg(wire, packer.View(), all, emitted, account, built);
      var blob := wire.marshalMsg(built);
      if blob.Some? {
        emitted := emitted + [PREFIX_NAIVE + blob.value];
      } else {
        account := Drop(account, BatchesHeld(all));
      }
    }

    /** Moves every batch into a container, topics in any order. */
    method Drain() returns (containers: seq<Container>)
      requires NoneEmpty(byTopic)
      modifies `byTopic
      ensures byTopic == map[] && multiset(ContainerUnits(containers)) == BatchesHeld(old(byTopic))
    {
      hide BatchesHeld, ContainerUnits;
      ghost var all := byTopic;
      var rest := byTopic.Keys;
      containers := [];
      NoContainers();
      while rest != {}
        invariant byTopic.Keys == rest && NoneEmpty(byTopic)
        invariant BatchesHeld(byTopic) + multiset(ContainerUnits(containers)) == BatchesHeld(all)
        decreases |rest|
      {
        var topic :| topic in rest;
        var batch := byTopic[topic];
        rest := rest - {topic};
        if |batch| == 0 {
          continue;
        }
        BatchTaken(byTopic, topic, containers);
        containers := containers + [Container(topic, batch)];
        byTopic := byTopic - {topic};
      }
      assert byTopic == map[];
      NoBatches(byTopic);
    }

    /** An emit tick: held by the gate nothing changes, else everything goes out. */
    method OnTick(now: int)
      requires Valid()
      modifies `byTopic, `emitted, `account, packer
      ensures Valid() && account.taken == old(account.taken) && account.collided == old(account.collided) &&
              old(emitted) <= emitted
      ensures AlwaysMarshals(wire) ==> account.marshalFailed == old(account.marshalFailed)
      ensures Holds(cfg, genesis, now, lastBlockMs) ==>
                packer.View() == old(packer.View()) && byTopic == old(byTopic) && emitted == old(emitted) &&
                    account == old(account)
      ensures !Holds(cfg, genesis, now, lastBlockMs) ==> packer.View() == Groups(map[], map[]) && byTopic == map[]
    {
      hide LawfulWire, WellGrouped, Balanced, Holds, AlwaysMarshals;
      if Holds(cfg, genesis, now, lastBlockMs) {
        return;
      }
      ghost var _ := BuildAndEmit(now);
    }

    /** One turn of the loop, or an arrival. */
    method Wake(e: Event)
      requires Settled() && (e.Take? ==> GenuineMeta(e.item))
      modifies this, packer
      ensures Settled() && history == old(history) + [e] && old(emitted) <= emitted
    {
      hide LawfulWire, WellGrouped, Balanced, Follows, AtOpenTicks, UnitTaken, Holds, NoneEmpty, AlwaysMarshals,
           OpenTick, CreditItem, Moments, Grouped;
      ghost var c, h, g, acc, at := Where(), history, packer.View(), account, emittedAt;
      OneMoreEvent(c, h, e);
      AtOpenTicksIdle(c, h, e, at);
      match e {
        case Take(it) =>
          TakeItem(it);
          FollowsTake(c, h, g, acc, it);
        case BlockArrives(t) =>
          lastBlockMs := Ms(t);
          FollowsIdle(c, h, g, acc, e);
        case EmitTick(now) =>
          ghost var before := |emitted|;
          OnTick(now);
          AtOpenTicksMore(c, h, e, at, |emitted| - before);
          emittedAt := emittedAt + Repeat(|h|, |emitted| - before);
          if OpenTick(c, h + [e], |h|) {
            FollowsEmission(c, h, g, acc, e, account);
          } else {
            FollowsIdle(c, h, g, acc, e);
          }
        case LogTick =>
          failedAttempts := 0;
          FollowsIdle(c, h, g, acc, e);
      }
      history := h + [e];
    }

    /** The loop over any sequence of events. */
    method Loop(events: seq<Event>)
      requires Settled() && Genuine(events)
      modifies this, packer
      ensures Settled() && history == old(history) + events && old(emitted) <= emitted
    {
      hide LawfulWire, WellGrouped, Balanced, Follows, AtOpenTicks, NoneEmpty, Moments;
      for i := 0 to |events|
        invariant Settled() && old(emitted) <= emitted
        invariant history == old(history) + events[..i]
      {
        Wake(events[i]);
        assert events[..i + 1] == events[..i] + [events[i]];
      }
      assert events[..|events|] == events;
    }
  }

  /**
   * The loop of a new service over any events.  With marshalling succeeding and no two different votes taken between
   * two emissions sharing a hash, the units taken are exactly those held plus those the emitted bytes carry: nothing
   * is lost while the gate holds and nothing is emitted twice.  With the default gate every payload leaves in its
   * slot's window.
   */
  method Run(wire: Wire, cfg: Option<Gate>, genesis: int, events: seq<Event>) returns (s: Service)
    requires LawfulWire(wire) && Genuine(events)
    ensures fresh(s) && fresh(s.packer) && s.wire == wire
    ensures AlwaysMarshals(wire) && NeverCollides(Setting(wire, cfg, genesis), events) ==>
              && Readable(wire, s.emitted)
              && multiset(TakenUnits(wire, events)) == Held(wire, s.packer.View()) + BatchesHeld(s.byTopic) +
                  Carried(wire, s.emitted)
    ensures |s.emittedAt| == |s.emitted| && AtOpenTicks(Setting(wire, cfg, genesis), events, s.emittedAt)
    ensures forall j :: 0 <= j < |s.emitted| && cfg == Some(DEFAULT_GATE) && InTime(genesis, events, s.emittedAt[j]) ==>
              InWindow(genesis, Moments(events[..s.emittedAt[j]]), events[s.emittedAt[j]].now)
  {
    hide LawfulWire, WellGrouped, Balanced, Follows, AtOpenTicks, Held, BatchesHeld, Carried, Readable, NeverCollides,
         AlwaysMarshals, TakenUnits, Moments, InWindow, InTime;
    s := new Service(wire, cfg, genesis);
    s.Loop(events);
    ghost var c := Setting(wire, cfg, genesis);
    assert [] + events == events;
    if AlwaysMarshals(wire) && NeverCollides(c, events) {
      NothingLostNothingTwice(c, events, s.packer.View(), s.byTopic, s.emitted, s.account);
    }
    forall j | 0 <= j < |s.emitted| && cfg == Some(DEFAULT_GATE) && InTime(genesis, events, s.emittedAt[j])
      ensures s.emittedAt[j] < |events| && events[s.emittedAt[j]].EmitTick?
      ensures InWindow(genesis, Moments(events[..s.emittedAt[j]]), events[s.emittedAt[j]].now)
    {
      WindowOf(c, events, s.emittedAt, j);
    }
  }

  /** The clock did not go back up to the tick `events[i]`, and that tick is in range. */
  predicate InTime(genesis: int, events: seq<Event>, i: nat) {
    i < |events| && events[i].EmitTick? && Ordered(Moments(events[..i + 1])) && Sane(genesis, events[i].now)
  }

  lemma WindowOf(c: Setting, events: seq<Event>, at: seq<nat>, j: nat)
    requires AtOpenTicks(c, events, at) && j < |at| && c.cfg == Some(DEFAULT_GATE) && InTime(c.genesis, events, at[j])
    ensures at[j] < |events| && events[at[j]].EmitTick?
    ensures InWindow(c.genesis, Moments(events[..at[j]]), events[at[j]].now)
  {
    hide Holds, InWindow, Sane, Moments;
    EmittedInWindow(c, events, at, j);
  }

  lemma MarshalsAll(w: Wire, g: Groups, now: int)
    ensures AlwaysMarshals(w) ==> Marshals(w, g, now, g.data.Keys)
  {
  }

  /** The packer after an item. */
  function AfterItem(w: Wire, g: Groups, it: ChannelItem): Groups {
    var u := UnitTaken(w, it);
    if u.Packed? then Grouped(w, g, u.subnet, u.attestation) else g
  }

  /** The account after an item, by what the packer stores at that time. */
  function CreditItem(w: Wire, g: Groups, acc: Account, it: ChannelItem): Account {
    var u := UnitTaken(w, it);
    Credit(acc, u, if u.Packed? then Credited(w, g, u.subnet, u.attestation) else u)
  }

  lemma NoContainers()
    ensures ContainerUnits([]) == []
  {
  }

  // ---------- the loss, shown ----------

  /** A wire whose protobuf refuses every pack and message; its snappy copies. */
  function RefusingWire(): Wire {
    Wire(Gossip.Snappy(x => x, x => Some(|x|), x => Some(x)), x => 0, x => None, x => None, x => None, x => None)
  }

  lemma RefusingWireLawful()
    ensures LawfulWire(RefusingWire()) && forall p :: RefusingWire().marshalPack(p).None?
  {
  }

  /** Whatever the attestation: taken, packed, and gone at the next emission, with nothing emitted. */
  method AttestationIsDropped(a: Gossip.SingleAttestation, now: int) returns (s: Service)
    ensures s.account.taken == multiset{Packed(0, a)} && s.account.lost == multiset{Packed(0, a)} && s.emitted == []
  {
    hide LawfulWire, RefusingWire, UnitTaken, AfterItem, Balanced, Follows, WellGrouped, NoneEmpty, Marshals,
         CreditItem, PacksLost, Carried, Readable, AtOpenTicks, Moments, ContainerUnits, AlwaysMarshals, EncodedAs;
    var w := RefusingWire();
    RefusingWireLawful();
    s := new Service(w, None, 0);
    var it := ChannelItem("", Some(Attestation(0)), EncodedAs(w, a));
    ReadAsItself(w, a, it);
    FirstIsItself(w, a, it, now);
    s.TakeItem(it);
    ghost var _ := s.BuildAndEmit(now);
  }

  function EncodedAs(w: Wire, a: Gossip.SingleAttestation): seq<byte> { w.snappy.encode(Gossip.MarshalSingle(a)) }

  lemma ReadAsItself(w: Wire, a: Gossip.SingleAttestation, it: ChannelItem)
    requires LawfulWire(w) && it.meta == Some(Attestation(0)) && it.data == EncodedAs(w, a)
    ensures UnitTaken(w, it) == Packed(0, a) && GenuineMeta(it)
  {
    hide LawfulWire, ReadAttestation;
    SingleFits(w, a);
  }

  lemma FirstIsItself(w: Wire, a: Gossip.SingleAttestation, it: ChannelItem, now: int)
    requires LawfulWire(w) && UnitTaken(w, it) == Packed(0, a) && forall p :: w.marshalPack(p).None?
    ensures var g := Groups(map[], map[]);
            && CreditItem(w, g, Opened(), it).taken == multiset{Packed(0, a)}
            && CreditItem(w, g, Opened(), it).lost == multiset{}
            && !Marshals(w, AfterItem(w, g, it), now, AfterItem(w, g, it).data.Keys)
            && PacksLost(w, AfterItem(w, g, it), now) == multiset{Packed(0, a)}
  {
    hide LawfulWire, UnitTaken, Collides, Credited;
    var g := Groups(map[], map[]);
    NothingGrouped(w);
    GroupedAddsOne(w, g, 0, a);
    assert !Collides(w, g, a) by { NothingCollides(w, a); }
    assert DataId(w, a.data) in Grouped(w, g, 0, a).data && DataId(w, a.data) in Grouped(w, g, 0, a).items;
  }

  lemma NothingCollides(w: Wire, a: Gossip.SingleAttestation)
    ensures !Collides(w, Groups(map[], map[]), a)
  {
  }
}
