/**
 * Deduplication across directions: consensus layer to mesh, mesh to consensus layer, and the aggregator's emissions.
 */
module Dedup {
  import opened Bytes
  import opened Topics

  // ---------- the check as one step ----------

  datatype Path = FromCL | FromMesh | Emitter

  datatype Event = Arrive(path: Path, hash: u64) | Expire(hash: u64)

  function Seen(seen: set<u64>, e: Event): set<u64> {
    match e
    case Arrive(_, h) => seen + {h}
    case Expire(h) => seen - {h}
  }

  /** How often the check lets `h` through. */
  function Passes(seen: set<u64>, es: seq<Event>, h: u64): nat
    decreases |es|
  {
    if es == [] then 0
    else (if es[0].Arrive? && es[0].hash == h && h !in seen then 1 else 0) + Passes(Seen(seen, es[0]), es[1..], h)
  }

  predicate Arrives(es: seq<Event>, h: u64) { exists i :: 0 <= i < |es| && es[i].Arrive? && es[i].hash == h }

  predicate NoExpiry(es: seq<Event>, h: u64) { forall i :: 0 <= i < |es| ==> es[i] != Expire(h) }

  /**
   * Until a hash expires, whatever the paths and their order, it passes once if it is new and arrives, and else
   * never.
   */
  lemma {:induction false} AtMostOnePass(seen: set<u64>, es: seq<Event>, h: u64)
    requires NoExpiry(es, h)
    ensures Passes(seen, es, h) == if h !in seen && Arrives(es, h) then 1 else 0
    decreases |es|
  {
    if es != [] {
      assert forall i :: 0 <= i < |es[1..]| ==> es[1..][i] == es[i + 1];
      AtMostOnePass(Seen(seen, es[0]), es[1..], h);
      if Arrives(es, h) && !(es[0].Arrive? && es[0].hash == h) {
        var i :| 0 <= i < |es| && es[i].Arrive? && es[i].hash == h;
        assert es[1..][i - 1] == es[i];
      }
    }
  }

  // ---------- the check as a get and a put ----------

  /** `waiting` holds the hash a path looked up and did not find, until it stores it; each path is sequential. */
  datatype Split = Split(seen: set<u64>, waiting: map<Path, u64>)

  datatype SplitEvent = Get(path: Path, hash: u64) | Put(path: Path) | Expires(hash: u64)

  function SplitStep(s: Split, e: SplitEvent): Split {
    match e
    case Get(p, h) => if p in s.waiting || h in s.seen then s else s.(waiting := s.waiting[p := h])
    case Put(p) => if p in s.waiting then Split(s.seen + {s.waiting[p]}, s.waiting - {p}) else s
    case Expires(h) => s.(seen := s.seen - {h})
  }

  /** How often path `p` lets `h` through. */
  function SplitPasses(s: Split, es: seq<SplitEvent>, p: Path, h: u64): nat
    decreases |es|
  {
    if es == [] then 0
    else
      (if es[0] == Put(p) && p in s.waiting && s.waiting[p] == h then 1 else 0)
      + SplitPasses(SplitStep(s, es[0]), es[1..], p, h)
  }

  predicate NoSplitExpiry(es: seq<SplitEvent>, h: u64) { forall i :: 0 <= i < |es| ==> es[i] != Expires(h) }

  /** With get and put apart, each path still passes a hash at most once until it expires. */
  lemma {:induction false} EachPathAtMostOnce(s: Split, es: seq<SplitEvent>, p: Path, h: u64)
    requires NoSplitExpiry(es, h)
    ensures SplitPasses(s, es, p, h) <= 1
    ensures h in s.seen && !(p in s.waiting && s.waiting[p] == h) ==> SplitPasses(s, es, p, h) == 0
    decreases |es|
  {
    if es != [] {
      assert forall i :: 0 <= i < |es[1..]| ==> es[1..][i] == es[i + 1];
      EachPathAtMostOnce(SplitStep(s, es[0]), es[1..], p, h);
    }
  }

  /** Two paths may then both pass it: the second looks before the first has stored. */
  lemma TwoPathsMayPass(h: u64)
    ensures var es := [Get(FromCL, h), Get(FromMesh, h), Put(FromCL), Put(FromMesh)];
            SplitPasses(Split({}, map[]), es, FromCL, h) == 1 && SplitPasses(Split({}, map[]), es, FromMesh, h) == 1
  {
    hide SplitPasses;
    var es := [Get(FromCL, h), Get(FromMesh, h), Put(FromCL), Put(FromMesh)];
    var s0, s1 := Split({}, map[]), Split({}, map[FromCL := h]);
    var s2, s3 := Split({}, map[FromCL := h, FromMesh := h]), Split({h}, map[FromMesh := h]);
    assert SplitStep(s1, es[1]).waiting == s2.waiting;
    assert SplitStep(s2, es[2]).waiting == s3.waiting && SplitStep(s2, es[2]).seen == s3.seen;
    assert es[0..] == es;
    forall p | p in {FromCL, FromMesh}
      ensures SplitPasses(s0, es, p, h) == 1
    {
      SplitFrom(s0, es, 0, p, h);
      SplitFrom(s1, es, 1, p, h);
      SplitFrom(s2, es, 2, p, h);
      SplitFrom(s3, es, 3, p, h);
    }
  }

  lemma SplitFrom(s: Split, es: seq<SplitEvent>, i: nat, p: Path, h: u64)
    requires i < |es|
    ensures SplitPasses(s, es[i..], p, h)
         == (if es[i] == Put(p) && p in s.waiting && s.waiting[p] == h then 1 else 0)
            + (if i + 1 == |es| then 0 else SplitPasses(SplitStep(s, es[i]), es[i + 1..], p, h))
  {
    assert es[i..][1..] == es[i + 1..];
  }

  /** No path is between its get and its put for `h`. */
  predicate NobodyWaits(s: Split, h: u64) { forall p :: p in s.waiting ==> s.waiting[p] != h }

  /** Every get of `h` that misses is followed by its own put before anybody else looks `h` up. */
  predicate Undivided(s: Split, es: seq<SplitEvent>, h: u64)
    decreases |es|
  {
    es == [] || ((es[0].Get? && es[0].hash == h ==> NobodyWaits(s, h)) && Undivided(SplitStep(s, es[0]), es[1..], h))
  }

  function Total(s: Split, es: seq<SplitEvent>, h: u64): nat {
    SplitPasses(s, es, FromCL, h) + SplitPasses(s, es, FromMesh, h) + SplitPasses(s, es, Emitter, h)
  }

  function Waiting(s: Split, h: u64): nat {
    (if FromCL in s.waiting && s.waiting[FromCL] == h then 1 else 0)
    + (if FromMesh in s.waiting && s.waiting[FromMesh] == h then 1 else 0)
    + (if Emitter in s.waiting && s.waiting[Emitter] == h then 1 else 0)
  }

  function SplitRun(s: Split, es: seq<SplitEvent>): Split
    decreases |es|
  {
    if es == [] then s else SplitRun(SplitStep(s, es[0]), es[1..])
  }

  /** A path looks up a message only after it has stored the one before. */
  predicate Sequential(s: Split, es: seq<SplitEvent>)
    decreases |es|
  {
    es == [] || ((es[0].Get? ==> es[0].path !in s.waiting) && Sequential(SplitStep(s, es[0]), es[1..]))
  }

  lemma UndividedStep(s: Split, e: SplitEvent, h: u64)
    requires Waiting(s, h) <= 1 && e != Expires(h) && (e.Get? && e.hash == h ==> NobodyWaits(s, h))
    ensures Waiting(SplitStep(s, e), h) <= 1 && (h in s.seen ==> h in SplitStep(s, e).seen)
    ensures e.Put? && e.path in s.waiting && s.waiting[e.path] == h ==>
              h in SplitStep(s, e).seen && Waiting(SplitStep(s, e), h) == Waiting(s, h) - 1
    ensures h in s.seen ==> Waiting(SplitStep(s, e), h) <= Waiting(s, h)
  {
    if e.Put? {
      match e.path
      case FromCL =>
      case FromMesh =>
      case Emitter =>
    }
  }

  lemma {:induction false} UndividedAtMostOnce(s: Split, es: seq<SplitEvent>, h: u64)
    requires NoSplitExpiry(es, h) && Undivided(s, es, h) && Waiting(s, h) <= 1
    ensures Total(s, es, h) <= 1
    ensures h in s.seen ==> Total(s, es, h) <= Waiting(s, h)
    decreases |es|
  {
    if es != [] {
      assert forall i :: 0 <= i < |es[1..]| ==> es[1..][i] == es[i + 1];
      UndividedStep(s, es[0], h);
      UndividedAtMostOnce(SplitStep(s, es[0]), es[1..], h);
    }
  }

  lemma {:induction false} WhoWaitsWillPass(s: Split, es: seq<SplitEvent>, h: u64)
    requires Sequential(s, es) && NobodyWaits(SplitRun(s, es), h)
    ensures Total(s, es, h) >= Waiting(s, h)
    decreases |es|
  {
    if es != [] {
      WaitingStep(s, es[0], h);
      WhoWaitsWillPass(SplitStep(s, es[0]), es[1..], h);
    }
  }

  lemma WaitingStep(s: Split, e: SplitEvent, h: u64)
    requires e.Get? ==> e.path !in s.waiting
    ensures Waiting(SplitStep(s, e), h)
         == Waiting(s, h) + (if e.Get? && e.hash == h && h !in s.seen then 1 else 0)
            - (if e.Put? && e.path in s.waiting && s.waiting[e.path] == h then 1 else 0)
  {
    if !e.Expires? {
      match e.path
      case FromCL =>
      case FromMesh =>
      case Emitter =>
    }
  }

  lemma SomebodyWaits(s: Split, h: u64)
    ensures NobodyWaits(s, h) <==> Waiting(s, h) == 0
  {
    forall p | Waiting(s, h) == 0 && p in s.waiting
      ensures s.waiting[p] != h
    {
      match p
      case FromCL =>
      case FromMesh =>
      case Emitter =>
    }
  }

  lemma {:induction false} DividedPassesTwice(s: Split, es: seq<SplitEvent>, h: u64)
    requires NoSplitExpiry(es, h) && Sequential(s, es) && NobodyWaits(SplitRun(s, es), h)
    requires Waiting(s, h) <= 1 && (Waiting(s, h) == 1 ==> h !in s.seen)
    ensures Undivided(s, es, h) || Total(s, es, h) >= 2
    decreases |es|
  {
    if es != [] {
      var e, t := es[0], SplitStep(s, es[0]);
      SomebodyWaits(s, h);
      WaitingStep(s, e, h);
      assert forall i :: 0 <= i < |es[1..]| ==> es[1..][i] == es[i + 1];
      if e.Get? && e.hash == h && !NobodyWaits(s, h) {
        WhoWaitsWillPass(t, es[1..], h);
      } else {
        UndividedStep(s, e, h);
        DividedPassesTwice(t, es[1..], h);
      }
    }
  }

  /**
   * Over every run in which paths are sequential and finish their puts, at most one of them passes `h` if and only if
   * nobody looks `h` up between another path's get and put.
   */
  lemma AtMostOnceExactlyWhenUndivided(s: Split, es: seq<SplitEvent>, h: u64)
    requires NoSplitExpiry(es, h) && Sequential(s, es) && NobodyWaits(s, h) && NobodyWaits(SplitRun(s, es), h)
    ensures Total(s, es, h) <= 1 <==> Undivided(s, es, h)
  {
    SomebodyWaits(s, h);
    DividedPassesTwice(s, es, h);
    if Undivided(s, es, h) {
      UndividedAtMostOnce(s, es, h);
    }
  }

  // ---------- the gateway ----------

  /** What the gateway hands on, and where: calls to publish or to queue. */
  datatype Out = ToMesh(topic: string, data: seq<byte>) | ToCL(topic: string, data: seq<byte>)
      | Queued(topic: string, data: seq<byte>)

  /** What the router lets through, what reads as an attestation, and the topics subscribed to. */
  datatype Filter = Filter(routes: seq<byte> -> bool, readable: seq<byte> -> bool, subscribed: set<string>)

  function ExpandPayloads(hash: seq<byte> -> u64, f: Filter, seen: set<u64>, topic: string,
      payloads: seq<seq<byte>>): (set<u64>, seq<Out>) {
    if payloads == [] then (seen, [])
    else
      var n := |payloads| - 1;
      var (s, o) := ExpandPayloads(hash, f, seen, topic, payloads[..n]);
      var d := payloads[n];
      (s + {hash(d)}, if hash(d) !in s && f.routes(d) && f.readable(d) then o + [ToCL(topic, d)] else o)
  }

  function ExpandBucket(hash: seq<byte> -> u64, f: Filter, seen: set<u64>, topic: string,
      payloads: seq<seq<byte>>): (set<u64>, seq<Out>) {
    if topic in f.subscribed && ParseTopicMeta(topic).Attestation? then ExpandPayloads(hash, f, seen, topic, payloads)
        else (seen, [])
  }

  function Expanded(hash: seq<byte> -> u64, f: Filter, seen: set<u64>,
      decoded: seq<(string, seq<seq<byte>>)>): (set<u64>, seq<Out>) {
    if decoded == [] then (seen, [])
    else
      var n := |decoded| - 1;
      var (s, o) := Expanded(hash, f, seen, decoded[..n]);
      var (t, q) := ExpandBucket(hash, f, s, decoded[n].0, decoded[n].1);
      (t, o + q)
  }

  lemma StartExpanding(hash: seq<byte> -> u64, f: Filter, seen: set<u64>, decoded: seq<(string, seq<seq<byte>>)>)
    ensures Expanded(hash, f, seen, decoded[..0]) == (seen, [])
  {
  }

  lemma OneMoreBucket(hash: seq<byte> -> u64, f: Filter, seen: set<u64>, decoded: seq<(string, seq<seq<byte>>)>, n: nat)
    requires n < |decoded|
    ensures var (s, o) := Expanded(hash, f, seen, decoded[..n]);
            var (t, q) := ExpandBucket(hash, f, s, decoded[n].0, decoded[n].1);
            Expanded(hash, f, seen, decoded[..n + 1]) == (t, o + q)
  {
    hide ExpandBucket;
    assert decoded[..n + 1][..n] == decoded[..n];
  }

  predicate ToCLAndNew(hash: seq<byte> -> u64, seen: set<u64>, o: Out) {
    o.ToCL? && ParseTopicMeta(o.topic).Attestation? && hash(o.data) !in seen
  }

  lemma {:induction false} PayloadsOnlyToCL(hash: seq<byte> -> u64, f: Filter, seen: set<u64>, topic: string,
      payloads: seq<seq<byte>>)
    requires ParseTopicMeta(topic).Attestation?
    ensures var (s, o) := ExpandPayloads(hash, f, seen, topic, payloads);
            seen <= s && forall i :: 0 <= i < |o| ==> ToCLAndNew(hash, seen, o[i])
  {
    hide ParseTopicMeta;
    if payloads != [] {
      PayloadsOnlyToCL(hash, f, seen, topic, payloads[..|payloads| - 1]);
    }
  }

  /** What an expanded payload sends is attestations to the consensus layer, none of them remembered before. */
  lemma {:induction false} ExpandedOnlyToCL(hash: seq<byte> -> u64, f: Filter, seen: set<u64>,
      decoded: seq<(string, seq<seq<byte>>)>)
    ensures var (s, o) := Expanded(hash, f, seen, decoded);
            seen <= s && forall i :: 0 <= i < |o| ==> ToCLAndNew(hash, seen, o[i])
  {
    hide ParseTopicMeta, ExpandPayloads;
    if decoded != [] {
      var n := |decoded| - 1;
      ExpandedOnlyToCL(hash, f, seen, decoded[..n]);
      if ParseTopicMeta(decoded[n].0).Attestation? {
        PayloadsOnlyToCL(hash, f, Expanded(hash, f, seen, decoded[..n]).0, decoded[n].0, decoded[n].1);
      }
    }
  }

  // what an expansion sends, by the places of the payloads

  /** Payload `j` is not remembered, none before it has its hash, and it is routed and readable. */
  predicate PassesAt(hash: seq<byte> -> u64, f: Filter, seen: set<u64>, payloads: seq<seq<byte>>, j: nat)
    requires j < |payloads|
  {
    && hash(payloads[j]) !in seen && (forall k :: 0 <= k < j ==> hash(payloads[k]) != hash(payloads[j]))
    && f.routes(payloads[j]) && f.readable(payloads[j])
  }

  lemma {:induction false} PayloadsSeen(hash: seq<byte> -> u64, f: Filter, seen: set<u64>, topic: string,
      payloads: seq<seq<byte>>, h: u64)
    ensures h in ExpandPayloads(hash, f, seen, topic, payloads).0
       <==> h in seen || exists j :: 0 <= j < |payloads| && hash(payloads[j]) == h
  {
    if payloads != [] {
      var n := |payloads| - 1;
      PayloadsSeen(hash, f, seen, topic, payloads[..n], h);
      assert forall j :: 0 <= j < n ==> payloads[..n][j] == payloads[j];
    }
  }

  lemma {:induction false} PayloadsSent(hash: seq<byte> -> u64, f: Filter, seen: set<u64>, topic: string,
      payloads: seq<seq<byte>>, x: Out)
    ensures x in ExpandPayloads(hash, f, seen, topic, payloads).1
       <==> exists j :: 0 <= j < |payloads| && x == ToCL(topic, payloads[j]) && PassesAt(hash, f, seen, payloads, j)
  {
    hide PassesAt;
    if payloads != [] {
      var n := |payloads| - 1;
      var less := payloads[..n];
      PayloadsSent(hash, f, seen, topic, less, x);
      LastPasses(hash, f, seen, topic, payloads);
      forall j | 0 <= j < n
        ensures less[j] == payloads[j] && (PassesAt(hash, f, seen, less, j) <==> PassesAt(hash, f, seen, payloads, j))
      {
        PassesBefore(hash, f, seen, payloads, n, j);
      }
    }
  }

  lemma PassesBefore(hash: seq<byte> -> u64, f: Filter, seen: set<u64>, payloads: seq<seq<byte>>, n: nat, j: nat)
    requires j < n <= |payloads|
    ensures payloads[..n][j] == payloads[j]
    ensures PassesAt(hash, f, seen, payloads[..n], j) <==> PassesAt(hash, f, seen, payloads, j)
  {
    assert forall k :: 0 <= k <= j ==> payloads[..n][k] == payloads[k];
  }

  lemma LastPasses(hash: seq<byte> -> u64, f: Filter, seen: set<u64>, topic: string, payloads: seq<seq<byte>>)
    requires payloads != []
    ensures var n := |payloads| - 1;
            PassesAt(hash, f, seen, payloads, n) <==>
            && hash(payloads[n]) !in ExpandPayloads(hash, f, seen, topic, payloads[..n]).0
            && f.routes(payloads[n]) && f.readable(payloads[n])
  {
    hide ExpandPayloads;
    var n := |payloads| - 1;
    PayloadsSeen(hash, f, seen, topic, payloads[..n], hash(payloads[n]));
    assert forall k :: 0 <= k < n ==> payloads[..n][k] == payloads[k];
  }

  /** A bucket that is expanded at all: an attestation topic subscribed to. */
  predicate Opened(f: Filter, topic: string) { topic in f.subscribed && ParseTopicMeta(topic).Attestation? }

  /** There is a payload at this place, and its bucket is expanded. */
  predicate There(f: Filter, decoded: seq<(string, seq<seq<byte>>)>, i: int, j: int) {
    0 <= i < |decoded| && 0 <= j < |decoded[i].1| && Opened(f, decoded[i].0)
  }

  /** The payload at this place is new to the gateway and to the expansion so far, routed and readable. */
  ghost predicate SentAt(hash: seq<byte> -> u64, f: Filter, seen: set<u64>, decoded: seq<(string, seq<seq<byte>>)>,
      i: int, j: int) {
    && There(f, decoded, i, j)
    && var d := decoded[i].1[j];
       && hash(d) !in seen && f.routes(d) && f.readable(d)
       && forall k, l :: There(f, decoded, k, l) && (k < i || (k == i && l < j)) ==> hash(decoded[k].1[l]) != hash(d)
  }

  /** Such a place holds `d` in a bucket of `t`. */
  ghost predicate Sends(hash: seq<byte> -> u64, f: Filter, seen: set<u64>, decoded: seq<(string, seq<seq<byte>>)>,
      t: string, d: seq<byte>) {
    exists i, j :: SentAt(hash, f, seen, decoded, i, j) && t == decoded[i].0 && d == decoded[i].1[j]
  }

  lemma {:induction false} ExpandedSeen(hash: seq<byte> -> u64, f: Filter, seen: set<u64>,
      decoded: seq<(string, seq<seq<byte>>)>, h: u64)
    ensures h in Expanded(hash, f, seen, decoded).0
       <==> h in seen || exists i, j :: There(f, decoded, i, j) && hash(decoded[i].1[j]) == h
  {
    hide ParseTopicMeta, ExpandPayloads;
    if decoded != [] {
      var n := |decoded| - 1;
      ExpandedSeen(hash, f, seen, decoded[..n], h);
      PayloadsSeen(hash, f, Expanded(hash, f, seen, decoded[..n]).0, decoded[n].0, decoded[n].1, h);
      forall i, j | i < n
        ensures There(f, decoded[..n], i, j) <==> There(f, decoded, i, j)
        ensures There(f, decoded, i, j) ==> decoded[..n][i] == decoded[i]
      {
      }
      if Opened(f, decoded[n].0) && (exists j :: 0 <= j < |decoded[n].1| && hash(decoded[n].1[j]) == h) {
        var j :| 0 <= j < |decoded[n].1| && hash(decoded[n].1[j]) == h;
        assert There(f, decoded, n, j);
      }
    }
  }

  /**
   * What an expansion sends: `ToCL(t, d)` if and only if `d` lies in a bucket of `t`, the topic is subscribed to and an
   * attestation topic, and `d` is not remembered, first of its hash, routed and readable.
   */
  lemma {:induction false} ExpandedSends(hash: seq<byte> -> u64, f: Filter, seen: set<u64>,
      decoded: seq<(string, seq<seq<byte>>)>, x: Out)
    ensures x in Expanded(hash, f, seen, decoded).1
       <==> x.ToCL? && Sends(hash, f, seen, decoded, x.topic, x.data)
  {
    hide ParseTopicMeta, ExpandPayloads, PassesAt;
    if decoded != [] {
      var n := |decoded| - 1;
      var less := decoded[..n];
      ExpandedSends(hash, f, seen, less, x);
      PayloadsSent(hash, f, Expanded(hash, f, seen, less).0, decoded[n].0, decoded[n].1, x);
      if x in Expanded(hash, f, seen, decoded).1 {
        if x in Expanded(hash, f, seen, less).1 {
          var i, j :| There(f, less, i, j) && SentAt(hash, f, seen, less, i, j) && x == ToCL(less[i].0, less[i].1[j]);
          SentBefore(hash, f, seen, decoded, i, j);
        } else {
          var j :| 0 <= j < |decoded[n].1| && x == ToCL(decoded[n].0, decoded[n].1[j]) &&
                   PassesAt(hash, f, Expanded(hash, f, seen, less).0, decoded[n].1, j);
          SentInLast(hash, f, seen, decoded, j);
        }
      }
      if i, j :| There(f, decoded, i, j) && SentAt(hash, f, seen, decoded, i, j) &&
                 x == ToCL(decoded[i].0, decoded[i].1[j]) {
        SentBefore(hash, f, seen, decoded, i, j);
        if i == n {
          SentInLast(hash, f, seen, decoded, j);
        }
      }
    }
  }

  lemma SentBefore(hash: seq<byte> -> u64, f: Filter, seen: set<u64>, decoded: seq<(string, seq<seq<byte>>)>,
      i: int, j: int)
    requires decoded != []
    ensures var n := |decoded| - 1;
            && (SentAt(hash, f, seen, decoded, i, j) ==> 0 <= i <= n && There(f, decoded, i, j))
            && (SentAt(hash, f, seen, decoded[..n], i, j) ==> 0 <= i < n && There(f, decoded[..n], i, j))
            && (i < n ==> (SentAt(hash, f, seen, decoded[..n], i, j) <==> SentAt(hash, f, seen, decoded, i, j)))
            && (0 <= i < n ==> decoded[..n][i] == decoded[i])
  {
    hide ParseTopicMeta;
    var n := |decoded| - 1;
    forall k, l | k < n
      ensures There(f, decoded[..n], k, l) <==> There(f, decoded, k, l)
      ensures There(f, decoded, k, l) ==> decoded[..n][k] == decoded[k]
    {
    }
  }

  lemma SentInLast(hash: seq<byte> -> u64, f: Filter, seen: set<u64>, decoded: seq<(string, seq<seq<byte>>)>, j: nat)
    requires decoded != [] && j < |decoded[|decoded| - 1].1|
    ensures var n := |decoded| - 1;
            SentAt(hash, f, seen, decoded, n, j) <==>
            && Opened(f, decoded[n].0)
            && PassesAt(hash, f, Expanded(hash, f, seen, decoded[..n]).0, decoded[n].1, j)
  {
    hide ParseTopicMeta, ExpandPayloads, Expanded;
    var n := |decoded| - 1;
    var h := hash(decoded[n].1[j]);
    ExpandedSeen(hash, f, seen, decoded[..n], h);
    forall k, l | k < n
      ensures There(f, decoded[..n], k, l) <==> There(f, decoded, k, l)
      ensures There(f, decoded, k, l) ==> decoded[..n][k] == decoded[k]
    {
    }
    if Opened(f, decoded[n].0) {
      assert forall l :: 0 <= l < |decoded[n].1| ==> There(f, decoded, n, l);
    }
  }

  /** No two payloads of an expansion share a hash. */
  ghost predicate AllApart(hash: seq<byte> -> u64, decoded: seq<(string, seq<seq<byte>>)>) {
    forall i, j, k, l
      | 0 <= i < |decoded| && 0 <= j < |decoded[i].1| && 0 <= k < |decoded| && 0 <= l < |decoded[k].1| ::
      hash(decoded[i].1[j]) == hash(decoded[k].1[l]) ==> i == k && j == l
  }

  /** With payloads of pairwise different hashes: everything new, subscribed to, routed and readable, and no more. */
  lemma ExpandedExactly(hash: seq<byte> -> u64, f: Filter, seen: set<u64>, decoded: seq<(string, seq<seq<byte>>)>,
      t: string, d: seq<byte>)
    requires AllApart(hash, decoded)
    ensures ToCL(t, d) in Expanded(hash, f, seen, decoded).1
       <==> && (exists i :: 0 <= i < |decoded| && decoded[i].0 == t && d in decoded[i].1)
            && t in f.subscribed && ParseTopicMeta(t).Attestation?
            && hash(d) !in seen && f.routes(d) && f.readable(d)
  {
    hide ParseTopicMeta, Expanded;
    ExpandedSends(hash, f, seen, decoded, ToCL(t, d));
    if Opened(f, t) && hash(d) !in seen && f.routes(d) && f.readable(d) &&
       exists i :: 0 <= i < |decoded| && decoded[i].0 == t && d in decoded[i].1 {
      var i :| 0 <= i < |decoded| && decoded[i].0 == t && d in decoded[i].1;
      var j :| 0 <= j < |decoded[i].1| && decoded[i].1[j] == d;
      assert SentAt(hash, f, seen, decoded, i, j);
    }
  }

  // what one call does to the memory and to what was handed on

  datatype Memory = Memory(seen: set<u64>, out: seq<Out>)

  /** A call of one of the handlers with what its surroundings decide, or a remembered hash running out. */
  datatype Call =
    | CLBlock(topic: string, message: seq<byte>, forward: bool, haveNode: bool)
    | CLAttestation(topic: string, message: seq<byte>, routed: bool)
    | Emission(message: seq<byte>, haveNode: bool)
    | MeshMessage(topic: string, message: seq<byte>, fromSelf: bool, forward: bool, enabled: bool, f: Filter,
                  decoded: Option<seq<(string, seq<seq<byte>>)>>)
    | Forgotten(hash: u64)

  /** The check as one step: a remembered payload changes nothing, a new one is remembered and handed on as `o`. */
  function Check(hash: seq<byte> -> u64, m: Memory, message: seq<byte>, o: seq<Out>): Memory {
    if hash(message) in m.seen then m else Memory(m.seen + {hash(message)}, m.out + o)
  }

  function HandleMesh(hash: seq<byte> -> u64, m: Memory, c: Call): Memory
    requires c.MeshMessage?
  {
    var block := ParseTopicMeta(c.topic).BeaconBlock?;
    if c.fromSelf || (block && !c.forward) || hash(c.message) in m.seen then m
    else if block then
      Check(hash, m, c.message,
            if c.enabled && c.f.routes(c.message) && c.topic in c.f.subscribed then [ToCL(c.topic, c.message)] else [])
    else if c.topic == AGGREGATED_TOPIC && c.decoded.Some? && c.enabled then
      var (s, o) := Expanded(hash, c.f, m.seen + {hash(c.message)}, c.decoded.value);
      Memory(s, m.out + o)
    else Check(hash, m, c.message, [])
  }

  function Handle(hash: seq<byte> -> u64, m: Memory, c: Call): Memory {
    match c
    case CLBlock(topic, message, forward, haveNode) =>
      if forward then Check(hash, m, message, if haveNode then [ToMesh(topic, message)] else []) else m
    case CLAttestation(topic, message, routed) =>
      Check(hash, m, message, if routed then [Queued(topic, message)] else [])
    case Emission(message, haveNode) =>
      if haveNode then Check(hash, m, message, [ToMesh(AGGREGATED_TOPIC, message)]) else m
    case MeshMessage(_, _, _, _, _, _, _) => HandleMesh(hash, m, c)
    case Forgotten(h) => m.(seen := m.seen - {h})
  }

  function HandleAll(hash: seq<byte> -> u64, m: Memory, calls: seq<Call>): Memory {
    if calls == [] then m
    else Handle(hash, HandleAll(hash, m, calls[..|calls| - 1]), calls[|calls| - 1])
  }

  // ---------- at most once over every run ----------

  /** How many of the things handed on carry hash `h`. */
  function Carrying(hash: seq<byte> -> u64, out: seq<Out>, h: u64): nat {
    if out == [] then 0
    else Carrying(hash, out[..|out| - 1], h) + if hash(out[|out| - 1].data) == h then 1 else 0
  }

  lemma {:induction false} CarryingAppend(hash: seq<byte> -> u64, a: seq<Out>, b: seq<Out>, h: u64)
    ensures Carrying(hash, a + b, h) == Carrying(hash, a, h) + Carrying(hash, b, h)
    decreases |b|
  {
    if b == [] {
      assert a + b == a;
    } else {
      var n := |b| - 1;
      assert (a + b)[..|a + b| - 1] == a + b[..n];
      CarryingAppend(hash, a, b[..n], h);
    }
  }

  /** While `h` is remembered nothing more carries it, and what newly carries it is remembered. */
  predicate OnceMore(hash: seq<byte> -> u64, seen: set<u64>, seen': set<u64>, o: seq<Out>, h: u64) {
    && Carrying(hash, o, h) <= (if h in seen then 0 else 1)
    && (h in seen || Carrying(hash, o, h) > 0 ==> h in seen')
  }

  lemma OnceMoreThen(hash: seq<byte> -> u64, a: set<u64>, b: set<u64>, c: set<u64>, o: seq<Out>, q: seq<Out>, h: u64)
    requires OnceMore(hash, a, b, o, h) && OnceMore(hash, b, c, q, h)
    ensures OnceMore(hash, a, c, o + q, h)
  {
    CarryingAppend(hash, o, q, h);
  }

  lemma {:induction false} PayloadsOnceMore(hash: seq<byte> -> u64, f: Filter, seen: set<u64>, topic: string,
                                            payloads: seq<seq<byte>>, h: u64)
    ensures var (s, o) := ExpandPayloads(hash, f, seen, topic, payloads); OnceMore(hash, seen, s, o, h)
  {
    if payloads != [] {
      var n := |payloads| - 1;
      PayloadsOnceMore(hash, f, seen, topic, payloads[..n], h);
      var (s, o) := ExpandPayloads(hash, f, seen, topic, payloads[..n]);
      CarryingOne(hash, o, ToCL(topic, payloads[n]), h);
    }
  }

  lemma CarryingOne(hash: seq<byte> -> u64, o: seq<Out>, x: Out, h: u64)
    ensures Carrying(hash, o + [x], h) == Carrying(hash, o, h) + if hash(x.data) == h then 1 else 0
  {
    assert (o + [x])[..|o|] == o;
  }

  lemma {:induction false} ExpandedOnceMore(hash: seq<byte> -> u64, f: Filter, seen: set<u64>,
                                            decoded: seq<(string, seq<seq<byte>>)>, h: u64)
    ensures var (s, o) := Expanded(hash, f, seen, decoded); OnceMore(hash, seen, s, o, h)
  {
    hide ParseTopicMeta, ExpandPayloads;
    if decoded != [] {
      var n := |decoded| - 1;
      ExpandedOnceMore(hash, f, seen, decoded[..n], h);
      var (s, o) := Expanded(hash, f, seen, decoded[..n]);
      PayloadsOnceMore(hash, f, s, decoded[n].0, decoded[n].1, h);
      var (t, q) := ExpandBucket(hash, f, s, decoded[n].0, decoded[n].1);
      OnceMoreThen(hash, seen, s, t, o, q, h);
    }
  }

  /** What a call appends to `out`. */
  ghost predicate Appends(hash: seq<byte> -> u64, m: Memory, n: Memory, h: u64) {
    m.out <= n.out && OnceMore(hash, m.seen, n.seen, n.out[|m.out|..], h)
  }

  lemma CheckOnceMore(hash: seq<byte> -> u64, m: Memory, message: seq<byte>, o: seq<Out>, h: u64)
    requires o == [] || (|o| == 1 && o[0].data == message)
    ensures Appends(hash, m, Check(hash, m, message, o), h)
  {
    var n := Check(hash, m, message, o);
    assert n.out[|m.out|..] == if hash(message) in m.seen then [] else o;
    assert o != [] ==> o[..0] == [];
  }

  lemma HandleOnceMore(hash: seq<byte> -> u64, m: Memory, c: Call, h: u64)
    requires !(c.Forgotten? && c.hash == h)
    ensures Appends(hash, m, Handle(hash, m, c), h)
  {
    hide ParseTopicMeta, Appends, Expanded, Check;
    match c
    case CLBlock(topic, message, forward, haveNode) =>
      CheckOnceMore(hash, m, message, if haveNode then [ToMesh(topic, message)] else [], h);
      NothingAppended(hash, m, h);
    case CLAttestation(topic, message, routed) =>
      CheckOnceMore(hash, m, message, if routed then [Queued(topic, message)] else [], h);
    case Emission(message, haveNode) =>
      CheckOnceMore(hash, m, message, [ToMesh(AGGREGATED_TOPIC, message)], h);
      NothingAppended(hash, m, h);
    case MeshMessage(topic, message, fromSelf, forward, enabled, f, decoded) =>
      NothingAppended(hash, m, h);
      CheckOnceMore(hash, m, message, [ToCL(topic, message)], h);
      CheckOnceMore(hash, m, message, [], h);
      if decoded.Some? && hash(message) !in m.seen {
        ExpansionOnceMore(hash, m, message, f, decoded.value, h);
      }
    case Forgotten(g) => ForgettingAppendsNothing(hash, m, g, h);
  }

  lemma NothingAppended(hash: seq<byte> -> u64, m: Memory, h: u64)
    ensures Appends(hash, m, m, h)
  {
  }

  lemma ForgettingAppendsNothing(hash: seq<byte> -> u64, m: Memory, g: u64, h: u64)
    requires g != h
    ensures Appends(hash, m, m.(seen := m.seen - {g}), h)
  {
  }

  lemma ExpansionOnceMore(hash: seq<byte> -> u64, m: Memory, message: seq<byte>, f: Filter,
                          decoded: seq<(string, seq<seq<byte>>)>, h: u64)
    requires hash(message) !in m.seen
    ensures var (s, o) := Expanded(hash, f, m.seen + {hash(message)}, decoded);
            Appends(hash, m, Memory(s, m.out + o), h)
  {
    hide Expanded;
    var (s, o) := Expanded(hash, f, m.seen + {hash(message)}, decoded);
    ExpandedOnceMore(hash, f, m.seen + {hash(message)}, decoded, h);
    assert (m.out + o)[|m.out|..] == o;
  }

  predicate NeverForgotten(calls: seq<Call>, h: u64) {
    forall i :: 0 <= i < |calls| ==> !(calls[i].Forgotten? && calls[i].hash == h)
  }

  /**
   * Over every sequence of handler calls during which `h` does not run out, at most one thing carrying `h` is handed
   * on, by whatever path, and none if `h` was remembered already.
   */
  lemma {:induction false} AtMostOneHandedOn(hash: seq<byte> -> u64, m: Memory, calls: seq<Call>, h: u64)
    requires NeverForgotten(calls, h)
    ensures Appends(hash, m, HandleAll(hash, m, calls), h)
  {
    hide Handle, Appends;
    if calls == [] {
      NothingAppended(hash, m, h);
    } else {
      var n := |calls| - 1;
      AtMostOneHandedOn(hash, m, calls[..n], h);
      var k := HandleAll(hash, m, calls[..n]);
      HandleOnceMore(hash, k, calls[n], h);
      AppendsThen(hash, m, k, Handle(hash, k, calls[n]), h);
    }
  }

  lemma AppendsThen(hash: seq<byte> -> u64, m: Memory, k: Memory, n: Memory, h: u64)
    requires Appends(hash, m, k, h) && Appends(hash, k, n, h)
    ensures Appends(hash, m, n, h)
  {
    hide OnceMore;
    OnceMoreThen(hash, m.seen, k.seen, n.seen, k.out[|m.out|..], n.out[|k.out|..], h);
    assert n.out[|m.out|..] == k.out[|m.out|..] + n.out[|k.out|..];
  }

  lemma {:induction false} CarriesTwice(hash: seq<byte> -> u64, out: seq<Out>, i: nat, j: nat, h: u64)
    requires i < j < |out| && hash(out[i].data) == h && hash(out[j].data) == h
    ensures Carrying(hash, out, h) >= 2
  {
    CarryingAppend(hash, out[..j], out[j..], h);
    assert out == out[..j] + out[j..];
    CarriesOnce(hash, out[..j], i, h);
    CarriesOnce(hash, out[j..], 0, h);
  }

  lemma CarriesOnce(hash: seq<byte> -> u64, out: seq<Out>, i: nat, h: u64)
    requires i < |out| && hash(out[i].data) == h
    ensures Carrying(hash, out, h) >= 1
  {
    CarryingAppend(hash, out[..i + 1], out[i + 1..], h);
    assert out == out[..i + 1] + out[i + 1..];
    CarryingOne(hash, out[..i], out[i], h);
    assert out[..i] + [out[i]] == out[..i + 1];
  }

  /**
   * Of what a new gateway hands on before a payload's hash runs out no two things carry that payload: what was sent to
   * the consensus layer is not sent to the mesh nor the other way round.
   */
  lemma NothingHandedOnTwice(hash: seq<byte> -> u64, calls: seq<Call>, i: nat, j: nat)
    requires var out := HandleAll(hash, Memory({}, []), calls).out;
             i < j < |out| && NeverForgotten(calls, hash(out[i].data))
    ensures var out := HandleAll(hash, Memory({}, []), calls).out; out[i].data != out[j].data
  {
    hide HandleAll;
    var out := HandleAll(hash, Memory({}, []), calls).out;
    var h := hash(out[i].data);
    AtMostOneHandedOn(hash, Memory({}, []), calls, h);
    assert out[|Memory({}, []).out|..] == out;
    if out[i].data == out[j].data {
      CarriesTwice(hash, out, i, j, h);
    }
  }

  /**
   * Whatever comes from the mesh goes to the consensus layer if it goes anywhere, and only if it was not remembered.
   */
  lemma MeshOnlyToCL(hash: seq<byte> -> u64, m: Memory, c: Call)
    requires c.MeshMessage?
    ensures var n := Handle(hash, m, c);
            m.out <= n.out && forall i :: |m.out| <= i < |n.out| ==> n.out[i].ToCL? && hash(n.out[i].data) !in m.seen
  {
    hide ParseTopicMeta, Expanded;
    if c.decoded.Some? {
      ExpandedOnlyToCL(hash, c.f, m.seen + {hash(c.message)}, c.decoded.value);
    }
  }

  // ---------- echoes of what arrived ----------

  /** From memory `m` on, nothing handed on before `h` runs out carries it. */
  ghost predicate NeverAgain(hash: seq<byte> -> u64, m: Memory, h: u64) {
    forall later :: NeverForgotten(later, h) ==> CarriesNone(hash, m, later, h)
  }

  ghost predicate CarriesNone(hash: seq<byte> -> u64, m: Memory, later: seq<Call>, h: u64) {
    var out := HandleAll(hash, m, later).out;
    |m.out| <= |out| && Carrying(hash, out[|m.out|..], h) == 0
  }

  /** The calls `later`, during which the payload's hash does not run out, publish the payload to the mesh. */
  ghost predicate SendsToMesh(hash: seq<byte> -> u64, m: Memory, later: seq<Call>, message: seq<byte>) {
    var out := HandleAll(hash, m, later).out;
    && NeverForgotten(later, hash(message))
    && exists i :: |m.out| <= i < |out| && out[i].ToMesh? && out[i].data == message
  }

  /** The same for the consensus layer. */
  ghost predicate SendsToCL(hash: seq<byte> -> u64, m: Memory, later: seq<Call>, message: seq<byte>) {
    var out := HandleAll(hash, m, later).out;
    && NeverForgotten(later, hash(message))
    && exists i :: |m.out| <= i < |out| && out[i].ToCL? && out[i].data == message
  }

  /** What decides whether a message from the mesh is remembered. */
  predicate MeshRemembers(c: Call)
    requires c.MeshMessage?
  {
    !c.fromSelf && (ParseTopicMeta(c.topic).BeaconBlock? ==> c.forward)
  }

  lemma RememberedNeverAgain(hash: seq<byte> -> u64, m: Memory, h: u64)
    requires h in m.seen
    ensures NeverAgain(hash, m, h)
  {
    hide HandleAll, Carrying;
    forall later | NeverForgotten(later, h)
      ensures CarriesNone(hash, m, later, h)
    {
      AtMostOneHandedOn(hash, m, later, h);
    }
  }

  lemma NeverAgainNoEcho(hash: seq<byte> -> u64, m: Memory, message: seq<byte>, later: seq<Call>)
    requires NeverAgain(hash, m, hash(message))
    ensures !SendsToMesh(hash, m, later, message) && !SendsToCL(hash, m, later, message)
  {
    hide HandleAll, Carrying;
    var out := HandleAll(hash, m, later).out;
    if NeverForgotten(later, hash(message)) {
      assert CarriesNone(hash, m, later, hash(message));
      forall i | |m.out| <= i < |out|
        ensures out[i].data != message
      {
        if out[i].data == message {
          assert out[|m.out|..][i - |m.out|] == out[i];
          CarriesOnce(hash, out[|m.out|..], i - |m.out|, hash(message));
        }
      }
    }
  }

  /** A payload that is not remembered can be published to the mesh by the next block of the consensus layer. */
  lemma UnknownGoesToMesh(hash: seq<byte> -> u64, m: Memory, topic: string, message: seq<byte>)
    requires hash(message) !in m.seen
    ensures SendsToMesh(hash, m, [CLBlock(topic, message, true, true)], message)
  {
    var later := [CLBlock(topic, message, true, true)];
    HandleOne(hash, m, later[0]);
    var out := HandleAll(hash, m, later).out;
    assert out[|m.out|] == ToMesh(topic, message);
  }

  /** And to the consensus layer by the next block of the mesh. */
  lemma UnknownGoesToCL(hash: seq<byte> -> u64, m: Memory, topic: string, message: seq<byte>)
    requires hash(message) !in m.seen && ParseTopicMeta(topic).BeaconBlock?
    ensures SendsToCL(hash, m, [MeshMessage(topic, message, false, true, true, OpenFilter(topic), None)], message)
  {
    hide ParseTopicMeta;
    var later := [MeshMessage(topic, message, false, true, true, OpenFilter(topic), None)];
    HandleOne(hash, m, later[0]);
    var out := HandleAll(hash, m, later).out;
    assert out[|m.out|] == ToCL(topic, message);
  }

  function OpenFilter(topic: string): Filter { Filter(x => true, x => true, {topic}) }

  lemma HandleOne(hash: seq<byte> -> u64, m: Memory, c: Call)
    ensures HandleAll(hash, m, [c]) == Handle(hash, m, c)
  {
    hide Handle;
    assert [c][..0] == [];
    assert HandleAll(hash, m, []) == m;
  }

  lemma MeshRemembersExactly(hash: seq<byte> -> u64, m: Memory, c: Call)
    requires c.MeshMessage?
    ensures hash(c.message) in Handle(hash, m, c).seen <==> hash(c.message) in m.seen || MeshRemembers(c)
  {
    hide ParseTopicMeta, Expanded;
    if c.decoded.Some? {
      ExpandedOnlyToCL(hash, c.f, m.seen + {hash(c.message)}, c.decoded.value);
    }
  }

  /**
   * A message that arrived from the mesh: nothing carries its payload again, and in particular it is never published
   * back to the mesh, until its hash runs out, if and only if it was remembered before or is neither an own message
   * nor a block held back as stale.
   */
  lemma MeshEchoExactly(hash: seq<byte> -> u64, m: Memory, c: Call)
    requires c.MeshMessage?
    ensures NeverAgain(hash, Handle(hash, m, c), hash(c.message)) <==> hash(c.message) in m.seen || MeshRemembers(c)
    ensures (forall later :: !SendsToMesh(hash, Handle(hash, m, c), later, c.message))
       <==> hash(c.message) in m.seen || MeshRemembers(c)
  {
    hide Handle, NeverAgain, SendsToMesh, MeshRemembers;
    var n := Handle(hash, m, c);
    MeshRemembersExactly(hash, m, c);
    if hash(c.message) in n.seen {
      RememberedNeverAgain(hash, n, hash(c.message));
      forall later
        ensures !SendsToMesh(hash, n, later, c.message)
      {
        NeverAgainNoEcho(hash, n, c.message, later);
      }
    } else {
      UnknownGoesToMesh(hash, n, c.topic, c.message);
      if NeverAgain(hash, n, hash(c.message)) {
        NeverAgainNoEcho(hash, n, c.message, [CLBlock(c.topic, c.message, true, true)]);
      }
    }
  }

  /**
   * A block that arrived from the consensus layer: nothing carries its payload again, and it is never published back to
   * the consensus layer, until its hash runs out, if and only if it was remembered before or is not held back as stale.
   */
  lemma CLEchoExactly(hash: seq<byte> -> u64, m: Memory, c: Call)
    requires c.CLBlock? && ParseTopicMeta(c.topic).BeaconBlock?
    ensures NeverAgain(hash, Handle(hash, m, c), hash(c.message)) <==> hash(c.message) in m.seen || c.forward
    ensures (forall later :: !SendsToCL(hash, Handle(hash, m, c), later, c.message))
       <==> hash(c.message) in m.seen || c.forward
  {
    hide NeverAgain, SendsToCL, ParseTopicMeta;
    var n := Handle(hash, m, c);
    if hash(c.message) in n.seen {
      RememberedNeverAgain(hash, n, hash(c.message));
      forall later
        ensures !SendsToCL(hash, n, later, c.message)
      {
        NeverAgainNoEcho(hash, n, c.message, later);
      }
    } else {
      UnknownGoesToCL(hash, n, c.topic, c.message);
      if NeverAgain(hash, n, hash(c.message)) {
        var later := [MeshMessage(c.topic, c.message, false, true, true, OpenFilter(c.topic), None)];
        NeverAgainNoEcho(hash, n, c.message, later);
      }
    }
  }

  /** An attestation from the consensus layer is always remembered, so nothing carries it again. */
  lemma AttestationNeverAgain(hash: seq<byte> -> u64, m: Memory, c: Call)
    requires c.CLAttestation?
    ensures NeverAgain(hash, Handle(hash, m, c), hash(c.message))
  {
    hide NeverAgain;
    RememberedNeverAgain(hash, Handle(hash, m, c), hash(c.message));
  }

  const STALE_SLOTS := 3

  /** Whether a block is handed on: its header reads, and its slot is within three of the clock's, either way. */
  predicate Forwarded(slot: Option<u64>, current: u64) {
    slot.Some? && (if slot.value > current then slot.value - current else current - slot.value) <= STALE_SLOTS
  }

  /**
   * The runs that echo: a block four slots ahead of the clock arrives, is held back and not remembered, and one slot
   * later the same payload from the other side is published to where it first came from.
   */
  lemma EarlyBlockIsEchoed(hash: seq<byte> -> u64, topic: string, message: seq<byte>, slot: u64)
    requires ParseTopicMeta(topic).BeaconBlock? && slot >= 4
    ensures var early, later := Forwarded(Some(slot), slot - 4), Forwarded(Some(slot), slot - 3);
            var mesh := MeshMessage(topic, message, false, early, true, OpenFilter(topic), None);
            var calls := [mesh, CLBlock(topic, message, later, true)];
            HandleAll(hash, Memory({}, []), calls).out == [ToMesh(topic, message)]
    ensures var early, later := Forwarded(Some(slot), slot - 4), Forwarded(Some(slot), slot - 3);
            var mesh := MeshMessage(topic, message, false, later, true, OpenFilter(topic), None);
            var calls := [CLBlock(topic, message, early, true), mesh];
            HandleAll(hash, Memory({}, []), calls).out == [ToCL(topic, message)]
  {
    hide ParseTopicMeta;
    var m := Memory({}, []);
    var heldMesh := MeshMessage(topic, message, false, false, true, OpenFilter(topic), None);
    var sentMesh := MeshMessage(topic, message, false, true, true, OpenFilter(topic), None);
    HandleTwo(hash, m, heldMesh, CLBlock(topic, message, true, true));
    HandleTwo(hash, m, CLBlock(topic, message, false, true), sentMesh);
  }

  lemma HandleTwo(hash: seq<byte> -> u64, m: Memory, c: Call, d: Call)
    ensures HandleAll(hash, m, [c, d]) == Handle(hash, Handle(hash, m, c), d)
  {
    hide Handle;
    assert [c, d][..1] == [c];
    HandleOne(hash, m, c);
  }

  // the code

  class Gateway {
    const hash: seq<byte> -> u64
    var messages: set<u64>
    var out: seq<Out>

    ghost function View(): Memory
      reads this
    {
      Memory(messages, out)
    }

    constructor (hash: seq<byte> -> u64)
      ensures this.hash == hash && View() == Memory({}, [])
    {
      this.hash, messages, out := hash, {}, [];
    }

    method IsDuplicateMessage(message: seq<byte>) returns (duplicate: bool)
      modifies `messages
      ensures duplicate == (hash(message) in old(messages)) && messages == old(messages) + {hash(message)}
    {
      if hash(message) in messages {
        return true;
      }
      messages := messages + {hash(message)};
      return false;
    }

    /** A block from the consensus layer goes to the mesh only if its payload is not remembered from any path. */
    method ProcessCLBeaconBlock(topic: string, message: seq<byte>, forward: bool, haveNode: bool)
      modifies this
      ensures View() == Handle(hash, old(View()), CLBlock(topic, message, forward, haveNode))
      ensures messages == old(messages) + if forward then {hash(message)} else {}
      ensures out == old(out) + if forward && haveNode && hash(message) !in old(messages)
                                then [ToMesh(topic, message)] else []
    {
      if !forward {
        return;
      }
      var duplicate := IsDuplicateMessage(message);
      if duplicate || !haveNode {
        return;
      }
      out := out + [ToMesh(topic, message)];
    }

    method ProcessCLAttestation(topic: string, message: seq<byte>, routed: bool)
      modifies this
      ensures View() == Handle(hash, old(View()), CLAttestation(topic, message, routed))
      ensures messages == old(messages) + {hash(message)}
      ensures out == old(out) + if routed && hash(message) !in old(messages) then [Queued(topic, message)] else []
    {
      var duplicate := IsDuplicateMessage(message);
      if duplicate || !routed {
        return;
      }
      out := out + [Queued(topic, message)];
    }

    method EmitAggregatedMessage(payload: seq<byte>, haveNode: bool)
      modifies this
      ensures View() == Handle(hash, old(View()), Emission(payload, haveNode))
      ensures messages == old(messages) + if haveNode then {hash(payload)} else {}
      ensures out == old(out) + if haveNode && hash(payload) !in old(messages)
                                then [ToMesh("mump2p_aggregated_messages", payload)] else []
    {
      if !haveNode {
        return;
      }
      var duplicate := IsDuplicateMessage(payload);
      if duplicate {
        return;
      }
      out := out + [ToMesh(AGGREGATED_TOPIC, payload)];
    }

    /**
     * A message from the mesh: a block not remembered from any path goes to the consensus layer under its topic;
     * an aggregated payload is expanded; nothing goes back to the mesh.
     */
    method ProcessMumP2PMessage(topic: string, message: seq<byte>, fromSelf: bool, skipSelf: bool, forward: bool,
                                enabled: bool, f: Filter, decoded: Option<seq<(string, seq<seq<byte>>)>>)
      modifies this
      ensures View() == Handle(hash, old(View()), MeshMessage(topic, message, fromSelf, forward, enabled, f, decoded))
      ensures ParseTopicMeta(topic).BeaconBlock? ==>
                && messages == old(messages) + (if !fromSelf && forward then {hash(message)} else {})
                && out == old(out) + if !fromSelf && forward && hash(message) !in old(messages)
                                        && enabled && f.routes(message) && topic in f.subscribed
                                     then [ToCL(topic, message)] else []
      ensures old(out) <= out
      ensures !ParseTopicMeta(topic).BeaconBlock? ==>
                forall t, d :: ToCL(t, d) in out[|old(out)|..] <==>
                  && !fromSelf && hash(message) !in old(messages) && topic == "mump2p_aggregated_messages"
                  && decoded.Some? && enabled
                  && Sends(hash, f, old(messages) + {hash(message)}, decoded.value, t, d)
    {
      hide ParseTopicMeta, Expanded;
      if fromSelf && skipSelf {
        return;
      }
      var meta := ParseTopicMeta(topic);
      if meta.BeaconBlock? && !forward {
        return;
      }
      if fromSelf {
        return;
      }
      var duplicate := IsDuplicateMessage(message);
      if duplicate {
        return;
      }
      if meta.BeaconBlock? {
        if enabled && f.routes(message) && topic in f.subscribed {
          out := out + [ToCL(topic, message)];
        }
      } else if topic == AGGREGATED_TOPIC && decoded.Some? && enabled {
        HandleAggregated(decoded.value, f);
      }
    }

    /**
     * The attestations of an expanded payload, bucket by bucket: each one that is new and fit to send goes to the
     * consensus layer.
     */
    method HandleAggregated(decoded: seq<(string, seq<seq<byte>>)>, f: Filter)
      modifies this
      ensures messages == Expanded(hash, f, old(messages), decoded).0
      ensures out == old(out) + Expanded(hash, f, old(messages), decoded).1
      ensures old(out) <= out
      ensures forall t, d :: ToCL(t, d) in out[|old(out)|..] <==> Sends(hash, f, old(messages), decoded, t, d)
      ensures forall h :: h in messages
                <==> h in old(messages) || exists i, j :: There(f, decoded, i, j) && hash(decoded[i].1[j]) == h
    {
      hide ParseTopicMeta, ExpandBucket, Expanded, Sends;
      StartExpanding(hash, f, messages, decoded);
      for n := 0 to |decoded|
        invariant messages == Expanded(hash, f, old(messages), decoded[..n]).0
        invariant out == old(out) + Expanded(hash, f, old(messages), decoded[..n]).1
      {
        OneMoreBucket(hash, f, old(messages), decoded, n);
        ExpandTopic(decoded[n].0, decoded[n].1, f);
      }
      assert decoded[..|decoded|] == decoded;
      assert out[|old(out)|..] == Expanded(hash, f, old(messages), decoded).1;
      forall t, d
        ensures ToCL(t, d) in out[|old(out)|..] <==> Sends(hash, f, old(messages), decoded, t, d)
      {
        ExpandedSends(hash, f, old(messages), decoded, ToCL(t, d));
      }
      forall h
        ensures h in messages
           <==> h in old(messages) || exists i, j :: There(f, decoded, i, j) && hash(decoded[i].1[j]) == h
      {
        ExpandedSeen(hash, f, old(messages), decoded, h);
      }
    }

    method ExpandTopic(topic: string, payloads: seq<seq<byte>>, f: Filter)
      modifies this
      ensures messages == ExpandBucket(hash, f, old(messages), topic, payloads).0
      ensures out == old(out) + ExpandBucket(hash, f, old(messages), topic, payloads).1
      ensures old(out) <= out
      ensures forall d :: ToCL(topic, d) in out[|old(out)|..] <==>
                && topic in f.subscribed && ParseTopicMeta(topic).Attestation?
                && exists j :: 0 <= j < |payloads| && d == payloads[j] && PassesAt(hash, f, old(messages), payloads, j)
    {
      hide ParseTopicMeta, PassesAt;
      if topic !in f.subscribed {
        return;
      }
      if !ParseTopicMeta(topic).Attestation? {
        return;
      }
      for i := 0 to |payloads|
        invariant messages == ExpandPayloads(hash, f, old(messages), topic, payloads[..i]).0
        invariant out == old(out) + ExpandPayloads(hash, f, old(messages), topic, payloads[..i]).1
      {
        assert payloads[..i + 1][..i] == payloads[..i];
        var duplicate := IsDuplicateMessage(payloads[i]);
        if duplicate {
          continue;
        }
        if !f.routes(payloads[i]) {
          continue;
        }
        if !f.readable(payloads[i]) {
          continue;
        }
        out := out + [ToCL(topic, payloads[i])];
      }
      assert payloads[..|payloads|] == payloads;
      assert out[|old(out)|..] == ExpandPayloads(hash, f, old(messages), topic, payloads).1;
      forall d
        ensures ToCL(topic, d) in out[|old(out)|..] <==>
                exists j :: 0 <= j < |payloads| && d == payloads[j] && PassesAt(hash, f, old(messages), payloads, j)
      {
        PayloadsSent(hash, f, old(messages), topic, payloads, ToCL(topic, d));
      }
    }

    /** A remembered hash runs out. */
    method Forget(h: u64)
      modifies `messages
      ensures messages == old(messages) - {h}
    {
      messages := messages - {h};
    }

    method Serve(c: Call)
      modifies this
      ensures View() == Handle(hash, old(View()), c)
    {
      hide HandleMesh;
      match c {
        case CLBlock(topic, message, forward, haveNode) => ProcessCLBeaconBlock(topic, message, forward, haveNode);
        case CLAttestation(topic, message, routed) => ProcessCLAttestation(topic, message, routed);
        case Emission(message, haveNode) => EmitAggregatedMessage(message, haveNode);
        case MeshMessage(topic, message, fromSelf, forward, enabled, f, decoded) =>
          ProcessMumP2PMessage(topic, message, fromSelf, false, forward, enabled, f, decoded);
        case Forgotten(h) => Forget(h);
      }
    }

    /** Any sequence of calls of the handlers. */
    method Run(calls: seq<Call>)
      modifies this
      ensures View() == HandleAll(hash, old(View()), calls)
      ensures forall h :: NeverForgotten(calls, h) ==> Appends(hash, old(View()), View(), h)
    {
      hide Handle, Appends, NeverForgotten;
      for i := 0 to |calls|
        invariant View() == HandleAll(hash, old(View()), calls[..i])
      {
        assert calls[..i + 1][..i] == calls[..i];
        Serve(calls[i]);
      }
      assert calls[..|calls|] == calls;
      forall h | NeverForgotten(calls, h)
        ensures Appends(hash, old(View()), View(), h)
      {
        AtMostOneHandedOn(hash, old(View()), calls, h);
      }
    }
  }
}
