/**
 * The enrollment code in its own form: methods that write the two files and talk to the authority step by step.
 * Every effect is a primitive that appends what disk and authority then hold to a ghost trace.  The methods are
 * proved to leave exactly the trace of a run of the protocol, so what is proved of every run holds of the code
 * after each of its effects, wherever a crash stops it.
 */
module EnrollmentHost {
  import opened Bytes
  import opened Enrollment

  /** What the surroundings decide during one boot. */
  datatype Surroundings = Surroundings(
    writable: bool, freshKey: Key, persisted: bool, fates: seq<Fate>, cancelled: seq<bool>, stored: bool, removed: bool)

  predicate Possible(w: Surroundings) {
    |w.fates| == |w.cancelled| == 3 && forall i :: 0 <= i < |w.fates| ==> Plausible(w.fates[i])
  }

  predicate NoBoot(es: seq<Event>) {
    forall i :: 0 <= i < |es| ==> !es[i].Boot?
  }

  // ---------- what a boot comes to, from its inputs alone ----------

  /** An answer that ends the retries: the authority's own status came through. */
  predicate Reaches(f: Fate) { f.Served? && (f.reply.Intact? || f.reply.Garbled?) }

  /** A request that makes a record if there is none. */
  predicate Makes(f: Fate) { f.Served? && f.joinKeyKnown && f.room }

  /** The attempt that counts: the first one answered, or cancelled, or the third. */
  function Last(fates: seq<Fate>, cancelled: seq<bool>): (d: nat)
    requires |fates| == |cancelled| == 3
    ensures d < 3 && forall i :: 0 <= i < d ==> !Reaches(fates[i]) && !cancelled[i]
    ensures d == 2 || Reaches(fates[d]) || cancelled[d]
  {
    if Reaches(fates[0]) || cancelled[0] then 0 else if Reaches(fates[1]) || cancelled[1] then 1 else 2
  }

  /** The client id of the record that the first `n` requests would make. */
  function Made(fates: seq<Fate>, n: nat): Option<string>
    requires n <= |fates|
  {
    if n == 0 then None
    else if Made(fates, n - 1).Some? then Made(fates, n - 1)
    else if Makes(fates[n - 1]) then Some(fates[n - 1].newId) else None
  }

  /** The authority's records after the first `n` requests. */
  function AfterRequests(a: Authority, records: map<Thumbprint, string>, o: Options, k: Key, fates: seq<Fate>,
                         n: nat): map<Thumbprint, string>
    requires n <= |fates|
  {
    if a.malformed(o) || a.thumb(k) in records || Made(fates, n).None? then records
    else records[a.thumb(k) := Made(fates, n).value]
  }

  /** The last request is answered with a client id that comes through, and the credential is stored. */
  predicate Succeeds(a: Authority, records: map<Thumbprint, string>, o: Options, k: Key, w: Surroundings)
    requires Possible(w)
  {
    var d := Last(w.fates, w.cancelled);
    var after := AfterRequests(a, records, o, k, w.fates, d + 1);
    && w.fates[d].Served? && w.fates[d].reply.Intact? && w.fates[d].joinKeyKnown && !a.malformed(o)
    && a.thumb(k) in after && after[a.thumb(k)] != "" && w.stored
  }

  /** The authority refused the request for good: the key is dropped. */
  predicate Rejects(a: Authority, records: map<Thumbprint, string>, o: Options, k: Key, w: Surroundings)
    requires Possible(w)
  {
    var d := Last(w.fates, w.cancelled);
    var after := AfterRequests(a, records, o, k, w.fates, d + 1);
    Reaches(w.fates[d]) && (a.malformed(o) || (w.fates[d].joinKeyKnown && a.thumb(k) !in after))
  }

  /** Nothing fails: the disk takes every write and the first request is answered as the authority answers it. */
  predicate Smooth(w: Surroundings)
    requires Possible(w)
  {
    && w.writable && w.persisted && w.stored
    && w.fates[0].Served? && w.fates[0].joinKeyKnown && w.fates[0].room && w.fates[0].reply.Intact?
  }

  lemma SmoothIs(w: Surroundings)
    requires Possible(w)
    ensures Smooth(w) <==>
            && w.writable && w.persisted && w.stored
            && w.fates[0].Served? && w.fates[0].joinKeyKnown && w.fates[0].room && w.fates[0].reply.Intact?
  {
  }

  lemma SmoothSucceeds(a: Authority, records: map<Thumbprint, string>, o: Options, k: Key, w: Surroundings)
    requires Possible(w) && Smooth(w) && !a.malformed(o)
    requires a.thumb(k) in records ==> records[a.thumb(k)] != ""
    ensures Succeeds(a, records, o, k, w)
  {
    assert Made(w.fates, 1) == Some(w.fates[0].newId) by { assert Made(w.fates, 0).None?; }
  }

  /** What an answer tells, given the records after it. */
  predicate Says(a: Authority, after: map<Thumbprint, string>, o: Options, k: Key, f: Fate, seen: Seen) {
    && (seen.status in {200, 201} && seen.clientId.Some? <==>
        f.Served? && f.reply.Intact? && !a.malformed(o) && f.joinKeyKnown && a.thumb(k) in after)
    && (seen.status in {200, 201} && seen.clientId.Some? ==> seen.clientId.value == after[a.thumb(k)])
    && (seen.status in {400, 409} <==> Reaches(f) && (a.malformed(o) || (f.joinKeyKnown && a.thumb(k) !in after)))
    && (Final(seen.status) <==> Reaches(f))
  }

  // ---------- traces ----------

  /** What outlives a crash: the disk, and what the authority holds. */
  datatype World = World(
    pending: Option<Key>, saved: Option<Credential>,
    records: map<Thumbprint, string>, own: set<Thumbprint>, selfConflict: bool)

  function WorldOf(s: State): World { World(s.pending, s.saved, s.records, s.own, s.selfConflict) }

  function AtRest(w: World): State { State(w.pending, w.saved, w.records, w.own, w.selfConflict, Idle) }

  /** The world after each event of a run. */
  function Snapshots(a: Authority, s: State, es: seq<Event>): seq<World>
    decreases |es|
  {
    if es == [] then []
    else match Apply(a, s, es[0])
      case None => []
      case Some(t) => [WorldOf(t)] + Snapshots(a, t, es[1..])
  }

  /** The events `es` lead from `s` to `t`, and one snapshot for each of them was added to the trace. */
  ghost predicate Ran(a: Authority, s: State, es: seq<Event>, t: State, before: seq<World>, after: seq<World>) {
    Exec(a, s, es) == Some(t) && after == before + Snapshots(a, s, es) && NoBoot(es)
  }

  /**
   * A boot with nothing saved.  Without join key, issuer, a writable directory or a key nothing is asked; else the
   * answer that counts decides between the credential for the record the authority holds and a failure.
   */
  predicate EnrolledAs(a: Authority, before: World, o: Options, w: Surroundings, out: Outcome, after: World)
    requires Possible(w)
  {
    var k := if before.pending.Some? then before.pending.value else w.freshKey;
    if o.joinKey == "" || o.issuer == "" || !w.writable || (before.pending.None? && !w.persisted) then
      out == Failed && after == before
    else
      && after.records == AfterRequests(a, before.records, o, k, w.fates, Last(w.fates, w.cancelled) + 1)
      && after.own == before.own + (after.records.Keys - before.records.Keys)
      && (if Succeeds(a, before.records, o, k, w) then
            && out == Enrolled(Credential(after.records[a.thumb(k)], a.thumb(k), o.peerId, k))
            && after.saved == Some(out.cred) && after.pending == (if w.removed then None else Some(k))
          else
            && out == Failed && after.saved == before.saved
            && after.pending == (if w.removed && Rejects(a, before.records, o, k, w) then None else Some(k)))
  }

  /** A boot with a credential saved: it is returned, unless it is broken or another peer's. */
  predicate ReusedAs(a: Authority, before: World, c: Credential, o: Options, w: Surroundings, out: Outcome,
                     after: World) {
    if c.clientId == "" || a.thumb(c.key) != c.thumbprint || (c.peerId != "" && o.peerId != "" && c.peerId != o.peerId)
    then out == Failed && after == before
    else out == Reused(c) && after == before.(pending := if w.removed then None else before.pending)
  }

  lemma SaysFinal(a: Authority, after: map<Thumbprint, string>, o: Options, k: Key, f: Fate, seen: Seen)
    requires Says(a, after, o, k, f, seen)
    ensures Final(seen.status) <==> Reaches(f)
  {
  }

  lemma RanNothing(a: Authority, s: State, trace: seq<World>)
    ensures Ran(a, s, [], s, trace, trace)
  {
    assert trace + [] == trace;
  }

  lemma RanOne(a: Authority, s: State, e: Event, t: State, trace: seq<World>)
    requires Apply(a, s, e) == Some(t) && !e.Boot?
    ensures Ran(a, s, [e], t, trace, trace + [WorldOf(t)])
  {
    hide Apply;
    assert [e][1..] == [];
    assert Snapshots(a, t, []) == [] && Exec(a, t, []) == Some(t);
    assert Snapshots(a, s, [e]) == [WorldOf(t)];
    assert Exec(a, s, [e]) == Some(t);
  }

  lemma {:induction false} SnapshotsAppend(a: Authority, s: State, es: seq<Event>, fs: seq<Event>)
    requires Exec(a, s, es).Some?
    ensures Snapshots(a, s, es + fs) == Snapshots(a, s, es) + Snapshots(a, Exec(a, s, es).value, fs)
    decreases |es|
  {
    hide Apply;
    if es == [] {
      assert es + fs == fs;
    } else {
      assert (es + fs)[0] == es[0] && (es + fs)[1..] == es[1..] + fs;
      SnapshotsAppend(a, Apply(a, s, es[0]).value, es[1..], fs);
    }
  }

  lemma RanThen(a: Authority, s: State, es: seq<Event>, t: State, fs: seq<Event>, u: State,
                before: seq<World>, middle: seq<World>, after: seq<World>)
    requires Ran(a, s, es, t, before, middle) && Ran(a, t, fs, u, middle, after)
    ensures Ran(a, s, es + fs, u, before, after)
  {
    hide Exec, Snapshots;
    ExecAppend(a, s, es, fs);
    SnapshotsAppend(a, s, es, fs);
  }

  lemma {:induction false} SnapshotAt(a: Authority, s: State, es: seq<Event>, n: nat)
    requires Exec(a, s, es).Some? && n < |es|
    ensures |Snapshots(a, s, es)| == |es| && Exec(a, s, es[..n + 1]).Some?
    ensures Snapshots(a, s, es)[n] == WorldOf(Exec(a, s, es[..n + 1]).value)
    decreases |es|
  {
    hide Apply;
    var t := Apply(a, s, es[0]).value;
    assert es[..n + 1][0] == es[0] && es[..n + 1][1..] == es[1..][..n];
    if n > 0 {
      SnapshotAt(a, t, es[1..], n - 1);
    } else {
      assert es[1..][..0] == [];
      if |es| > 1 {
        SnapshotAt(a, t, es[1..], 0);
      } else {
        assert es[1..] == [];
      }
    }
  }

  /** Crashing wherever the trace stands is itself a run of the protocol: it ends with that very world at rest. */
  lemma CrashAfterAnyEffect(a: Authority, s: State, es: seq<Event>, n: nat)
    requires Exec(a, s, es).Some? && n < |es|
    ensures |Snapshots(a, s, es)| == |es|
    ensures Exec(a, s, es[..n + 1] + [Crash]) == Some(AtRest(Snapshots(a, s, es)[n]))
  {
    hide Apply, Snapshots;
    SnapshotAt(a, s, es, n);
    ExecAppend(a, s, es[..n + 1], [Crash]);
    CrashRuns(a, Exec(a, s, es[..n + 1]).value);
  }

  lemma CrashRuns(a: Authority, s: State)
    ensures Exec(a, s, [Crash]) == Some(s.(pc := Idle))
  {
    ExecFrom(a, s, [Crash], 0);
  }

  /** With uniform configurations the host is safe at every point of the trace. */
  lemma SafeAlongTheTrace(a: Authority, opts: iset<Options>, records: map<Thumbprint, string>, es: seq<Event>, n: nat)
    requires Uniform(a, opts) && Over(opts, es) && Exec(a, Start(records), es).Some? && n < |es|
    ensures |Snapshots(a, Start(records), es)| == |es|
    ensures var r := AtRest(Snapshots(a, Start(records), es)[n]); Safe(a, r) && Inv(a, opts, r)
    ensures Over(opts, es[..n + 1] + [Crash])
  {
    hide Exec, Snapshots, Uniform, Inv, Safe;
    CrashAfterAnyEffect(a, Start(records), es, n);
    var r := AtRest(Snapshots(a, Start(records), es)[n]);
    assert Inv(a, opts, Start(records)) by { StartInv(a, opts, records); }
    RunKeeps(a, opts, Start(records), es[..n + 1] + [Crash]);
    InvIsSafe(a, opts, r);
  }

  /**
   * Wherever the trace is cut by a crash, a boot in which nothing fails claims the record left upstream and makes no
   * other.
   */
  lemma CrashIsRecovered(a: Authority, opts: iset<Options>, records: map<Thumbprint, string>, es: seq<Event>, n: nat,
      o: Options)
    requires Uniform(a, opts) && Over(opts, es) && Exec(a, Start(records), es).Some? && n < |es|
    requires o in opts && Usable(o)
    ensures |Snapshots(a, Start(records), es)| == |es|
    ensures var r := AtRest(Snapshots(a, Start(records), es)[n]);
            var q := Exec(a, r, QuietBoot(o));
            r.saved.None? && r.own != {} ==>
              && q.Some? && q.value.own == r.own && q.value.records == r.records
              && q.value.saved.Some? && Matches(a, q.value, q.value.saved.value)
  {
    hide Exec, Snapshots, Uniform, QuietBoot, Matches;
    SafeAlongTheTrace(a, opts, records, es, n);
    CrashAfterAnyEffect(a, Start(records), es, n);
    var r := AtRest(Snapshots(a, Start(records), es)[n]);
    if r.saved.None? && r.own != {} {
      LostRecordIsRecovered(a, opts, records, es[..n + 1] + [Crash], o);
    }
  }

  lemma StartInv(a: Authority, opts: iset<Options>, records: map<Thumbprint, string>)
    ensures Inv(a, opts, Start(records))
  {
  }

  // ---------- the host ----------

  class Host {
    const authority: Authority
    // the enrollment directory
    var pending: Option<Key>
    var saved: Option<Credential>
    // upstream
    var records: map<Thumbprint, string>
    var own: set<Thumbprint>
    var selfConflict: bool
    // the run so far: its events, and disk and authority after each of them
    ghost const initial: map<Thumbprint, string>
    ghost const opts: iset<Options>
    ghost var history: seq<Event>
    ghost var trace: seq<World>
    ghost var pc: Pc

    ghost function At(p: Pc): State
      reads this
    {
      State(pending, saved, records, own, selfConflict, p)
    }

    /** The host is between boots, at the end of a run, and its trace is that run's. */
    ghost predicate Valid()
      reads this
    {
      && (pc.Idle? || pc.Done?)
      && Over(opts, history)
      && Exec(authority, Start(initial), history) == Some(At(pc))
      && trace == Snapshots(authority, Start(initial), history)
    }

    constructor (authority: Authority, records: map<Thumbprint, string>, ghost opts: iset<Options>)
      ensures Valid() && history == [] && this.authority == authority && this.opts == opts && initial == records
    {
      this.authority, this.records, this.initial, this.opts := authority, records, records, opts;
      pending, saved, own, selfConflict, history, trace, pc := None, None, {}, false, [], [], Idle;
    }

    // the primitives: every effect goes on record

    /** An event without effect. */
    ghost method Pass()
      modifies `trace
      ensures trace == old(trace) + [WorldOf(At(Idle))]
    {
      trace := trace + [WorldOf(At(Idle))];
    }

    method WritePendingKey(k: Key)
      modifies `pending, `trace
      ensures pending == Some(k) && trace == old(trace) + [WorldOf(At(Idle))]
    {
      pending := Some(k);
      trace := trace + [WorldOf(At(Idle))];
    }

    /** The removal may fail; that is logged and the key stays. */
    method ClearPendingKey(removed: bool)
      modifies `pending, `trace
      ensures pending == (if removed then None else old(pending)) && trace == old(trace) + [WorldOf(At(Idle))]
    {
      if removed {
        pending := None;
      }
      trace := trace + [WorldOf(At(Idle))];
    }

    method Save(c: Credential)
      modifies `saved, `trace
      ensures saved == Some(c) && trace == old(trace) + [WorldOf(At(Idle))]
    {
      saved := Some(c);
      trace := trace + [WorldOf(At(Idle))];
    }

    /** One request, as the authority and the way back treat it. */
    method Request(o: Options, k: Key, fate: Fate) returns (seen: Seen)
      modifies `records, `own, `selfConflict, `trace
      ensures forall p :: (At(p), seen) == Exchange(authority, old(At(p)), o, k, fate)
      ensures trace == old(trace) + [WorldOf(At(Idle))]
      ensures var makes := !authority.malformed(o) && Makes(fate) && authority.thumb(k) !in old(records);
              && records == (if makes then old(records)[authority.thumb(k) := fate.newId] else old(records))
              && own == (if makes then old(own) + {authority.thumb(k)} else old(own))
      ensures var refused := fate.Served? && !authority.malformed(o) && fate.joinKeyKnown && !fate.room &&
                             authority.thumb(k) !in old(records);
              selfConflict == (old(selfConflict) || (refused && old(own) != {}))
      ensures Plausible(fate) ==> Says(authority, records, o, k, fate, seen)
    {
      if fate.Unserved? {
        Pass();
        return Seen(fate.status, None);
      }
      if authority.malformed(o) {
        seen := Seen(400, Some(""));
      } else if !fate.joinKeyKnown {
        seen := Seen(401, Some(""));
      } else if authority.thumb(k) in records {
        seen := Seen(200, Some(records[authority.thumb(k)]));
      } else if !fate.room {
        selfConflict := selfConflict || own != {};
        seen := Seen(409, Some(""));
      } else {
        records := records[authority.thumb(k) := fate.newId];
        own := own + {authority.thumb(k)};
        seen := Seen(201, Some(fate.newId));
      }
      trace := trace + [WorldOf(At(Idle))];
      seen := Deliver(seen, fate.reply);
    }

    // the code

    /** A saved key, or a new one written before it is used. */
    method PendingKey(o: Options, freshKey: Key, persisted: bool) returns (key: Option<Key>, ghost es: seq<Event>)
      requires pending.None? ==> authority.thumb(freshKey) !in records
      modifies `pending, `trace
      ensures key == (if old(pending).Some? then old(pending) else if persisted then Some(freshKey) else None)
      ensures pending == (if key.Some? then key else old(pending))
      ensures var t := At(if key.Some? then Posting(o, key.value, 0) else Done(Failed));
              Ran(authority, old(At(NeedKey(o))), es, t, old(trace), trace)
    {
      hide Ran;
      ghost var s, t0 := At(NeedKey(o)), trace;
      if pending.Some? {
        Pass();
        RanOne(authority, s, Resume, At(Posting(o, pending.value, 0)), t0);
        return pending, [Resume];
      }
      Pass();
      ghost var g := At(Generated(o, freshKey));
      RanOne(authority, s, Generate(freshKey), g, t0);
      ghost var t1 := trace;
      es := [Generate(freshKey)] + [Persist(persisted)];
      if !persisted {
        Pass();
        RanOne(authority, g, Persist(false), At(Done(Failed)), t1);
        RanThen(authority, s, [Generate(freshKey)], g, [Persist(false)], At(Done(Failed)), t0, t1, trace);
        return None, es;
      }
      WritePendingKey(freshKey);
      ghost var u := At(Posting(o, freshKey, 0));
      RanOne(authority, g, Persist(true), u, t1);
      RanThen(authority, s, [Generate(freshKey)], g, [Persist(true)], u, t0, t1, trace);
      return pending, es;
    }

    /** The bounded retry loop: the first final status, the last attempt or cancellation ends it. */
    method RetryPost(o: Options, k: Key, fates: seq<Fate>, cancelled: seq<bool>)
      returns (seen: Seen, ghost es: seq<Event>)
      requires |fates| == |cancelled| == 3 && forall i :: 0 <= i < |fates| ==> Plausible(fates[i])
      modifies `records, `own, `selfConflict, `trace
      ensures |es| == Last(fates, cancelled) + 1
      ensures records == AfterRequests(authority, old(records), o, k, fates, |es|)
      ensures own == old(own) + (records.Keys - old(records).Keys)
      ensures Says(authority, records, o, k, fates[Last(fates, cancelled)], seen)
      ensures Ran(authority, old(At(Posting(o, k, 0))), es, At(Answered(o, k, seen)), old(trace), trace)
    {
      hide Exchange, Plausible, Ran, Says, Reaches;
      es, seen := [], Seen(0, None);
      ghost var s, t0 := At(Posting(o, k, 0)), trace;
      RanNothing(authority, s, trace);
      for attempt := 0 to ATTEMPTS
        invariant |es| == attempt
        invariant forall i :: 0 <= i < attempt && i < 2 ==> !Reaches(fates[i]) && !cancelled[i]
        invariant records == AfterRequests(authority, old(records), o, k, fates, attempt)
        invariant own == old(own) + (records.Keys - old(records).Keys)
        invariant attempt == ATTEMPTS ==> Says(authority, records, o, k, fates[2], seen)
        invariant attempt < ATTEMPTS ==> Ran(authority, s, es, At(Posting(o, k, attempt)), t0, trace)
        invariant attempt == ATTEMPTS ==> Ran(authority, s, es, At(Answered(o, k, seen)), t0, trace)
      {
        ghost var e, here, t1 := Post(fates[attempt], cancelled[attempt]), At(Posting(o, k, attempt)), trace;
        seen := Request(o, k, fates[attempt]);
        var over := Final(seen.status) || cancelled[attempt];
        ghost var t := At(if over || attempt + 1 == ATTEMPTS then Answered(o, k, seen) else Posting(o, k, attempt + 1));
        RanOne(authority, here, e, t, t1);
        RanThen(authority, s, es, here, [e], t, t0, t1, trace);
        es := es + [e];
        SaysFinal(authority, records, o, k, fates[attempt], seen);
        if over {
          return;
        }
      }
    }

    /** What Enroll makes of the answer: drop the key, give up, or store the credential and then drop the key. */
    method Settle(o: Options, k: Key, seen: Seen, w: Surroundings) returns (out: Outcome, ghost es: seq<Event>)
      modifies `pending, `saved, `trace
      ensures var good := seen.status in {200, 201} && seen.clientId.Some? && seen.clientId.value != "" && w.stored;
              && out == (if good then Enrolled(Credential(seen.clientId.value, authority.thumb(k), o.peerId, k))
                         else Failed)
              && saved == (if good then Some(out.cred) else old(saved))
              && pending == (if w.removed && (good || seen.status in {400, 409}) then None else old(pending))
      ensures Ran(authority, old(At(Answered(o, k, seen))), es, At(Done(out)), old(trace), trace)
    {
      hide Ran;
      ghost var s, t0, e := At(Answered(o, k, seen)), trace, Classify(w.removed);
      if seen.status == 0 {
        Pass();
        RanOne(authority, s, e, At(Done(Failed)), t0);
        return Failed, [e];
      }
      if seen.status == 400 || seen.status == 409 {
        ClearPendingKey(w.removed);
      } else {
        Pass();
      }
      if seen.status != 200 && seen.status != 201 {
        RanOne(authority, s, e, At(Done(Failed)), t0);
        return Failed, [e];
      }
      if seen.clientId.None? || seen.clientId.value == "" {
        RanOne(authority, s, e, At(Done(Failed)), t0);
        return Failed, [e];
      }
      var cred := Credential(seen.clientId.value, authority.thumb(k), o.peerId, k);
      RanOne(authority, s, e, At(Storing(cred)), t0);
      ghost var mid, t1 := At(Storing(cred)), trace;
      ghost var fs;
      out, fs := Keep(cred, w);
      RanThen(authority, s, [e], mid, fs, At(Done(out)), t0, t1, trace);
      es := [e] + fs;
    }

    /** The credential is stored before the key is dropped. */
    method Keep(cred: Credential, w: Surroundings) returns (out: Outcome, ghost es: seq<Event>)
      modifies `pending, `saved, `trace
      ensures out == (if w.stored then Enrolled(cred) else Failed)
      ensures saved == (if w.stored then Some(cred) else old(saved))
      ensures pending == (if w.stored && w.removed then None else old(pending))
      ensures Ran(authority, old(At(Storing(cred))), es, At(Done(out)), old(trace), trace)
    {
      hide Ran;
      ghost var s, t0 := At(Storing(cred)), trace;
      if !w.stored {
        Pass();
        RanOne(authority, s, Store(false), At(Done(Failed)), t0);
        return Failed, [Store(false)];
      }
      Save(cred);
      ghost var mid, t1 := At(Stored(cred)), trace;
      RanOne(authority, s, Store(true), mid, t0);
      ClearPendingKey(w.removed);
      RanOne(authority, mid, Finish(w.removed), At(Done(Enrolled(cred))), t1);
      RanThen(authority, s, [Store(true)], mid, [Finish(w.removed)], At(Done(Enrolled(cred))), t0, t1, trace);
      return Enrolled(cred), [Store(true)] + [Finish(w.removed)];
    }

    /** Enroll after the credential was found missing. */
    method Enroll(o: Options, w: Surroundings) returns (out: Outcome, ghost es: seq<Event>)
      requires saved.None? && Possible(w)
      requires pending.None? ==> authority.thumb(w.freshKey) !in records
      modifies `pending, `saved, `records, `own, `selfConflict, `trace
      ensures Ran(authority, old(At(Booting(o))), es, At(Done(out)), old(trace), trace)
      ensures EnrolledAs(authority, old(WorldOf(At(Idle))), o, w, out, WorldOf(At(Idle)))
    {
      hide Ran, AfterPost, Exchange, Plausible, Last, AfterRequests, Made;
      ghost var s, t0, e := At(Booting(o)), trace, Load(w.writable);
      Pass();
      if o.joinKey == "" || o.issuer == "" || !w.writable {
        RanOne(authority, s, e, At(Done(Failed)), t0);
        return Failed, [e];
      }
      ghost var s1, t1 := At(NeedKey(o)), trace;
      RanOne(authority, s, e, s1, t0);
      var key, fs := PendingKey(o, w.freshKey, w.persisted);
      ghost var s2, t2 := At(if key.Some? then Posting(o, key.value, 0) else Done(Failed)), trace;
      RanThen(authority, s, [e], s1, fs, s2, t0, t1, t2);
      es := [e] + fs;
      if key.None? {
        return Failed, es;
      }
      var seen, gs := RetryPost(o, key.value, w.fates, w.cancelled);
      ghost var s3, t3 := At(Answered(o, key.value, seen)), trace;
      RanThen(authority, s, es, s2, gs, s3, t0, t2, t3);
      es := es + gs;
      ghost var hs;
      out, hs := Settle(o, key.value, seen, w);
      RanThen(authority, s, es, s3, hs, At(Done(out)), t0, t3, trace);
      es := es + hs;
    }

    /** The file as Load reads it; a credential makes the pending key stale. */
    method Reuse(o: Options, c: Credential, w: Surroundings) returns (out: Outcome, ghost es: seq<Event>)
      requires saved == Some(c)
      modifies `pending, `trace
      ensures ReusedAs(authority, old(WorldOf(At(Idle))), c, o, w, out, WorldOf(At(Idle)))
      ensures Ran(authority, old(At(Booting(o))), es, At(Done(out)), old(trace), trace)
    {
      hide Ran;
      ghost var s, t0, e := At(Booting(o)), trace, Load(w.writable);
      Pass();
      if c.clientId == "" || authority.thumb(c.key) != c.thumbprint {
        RanOne(authority, s, e, At(Done(Failed)), t0);
        return Failed, [e];
      }
      if c.peerId != "" && o.peerId != "" && c.peerId != o.peerId {
        RanOne(authority, s, e, At(Done(Failed)), t0);
        return Failed, [e];
      }
      ghost var mid, t1 := At(Reusing(c)), trace;
      RanOne(authority, s, e, mid, t0);
      ClearPendingKey(w.removed);
      RanOne(authority, mid, Discard(w.removed), At(Done(Reused(c))), t1);
      RanThen(authority, s, [e], mid, [Discard(w.removed)], At(Done(Reused(c))), t0, t1, trace);
      return Reused(c), [e] + [Discard(w.removed)];
    }

    /**
     * One boot.  A saved credential is returned unless it is broken or another peer's; else the answer that counts
     * decides, and if nothing fails the host is enrolled.  With uniform configurations the host is safe after every
     * effect of it, wherever a crash stops it, and a credential it returns is the saved one.
     */
    method LoadOrEnroll(o: Options, w: Surroundings) returns (out: Outcome, ghost es: seq<Event>)
      requires Valid() && o in opts && Possible(w)
      requires pending.None? ==> authority.thumb(w.freshKey) !in records
      modifies this
      ensures Valid() && pc == Done(out) && history == old(history) + [Boot(o)] + es
      ensures old(trace) <= trace && |trace| == |history|
      ensures Uniform(authority, opts) ==> forall n :: 0 <= n < |trace| ==> Safe(authority, AtRest(trace[n]))
      ensures Uniform(authority, opts) && !out.Failed? ==> saved == Some(out.cred)
      ensures match old(saved) {
                case Some(c) => ReusedAs(authority, old(WorldOf(At(Idle))), c, o, w, out, WorldOf(At(Idle)))
                case None => EnrolledAs(authority, old(WorldOf(At(Idle))), o, w, out, WorldOf(At(Idle)))
              }
      ensures old(saved).Some? ==>
                var c := old(saved).value;
                var good := c.clientId != "" && c.thumbprint == authority.thumb(c.key);
                var same := c.peerId == "" || o.peerId == "" || c.peerId == o.peerId;
                out == if good && same then Reused(c) else Failed
      ensures && old(saved).None? && o.joinKey != "" && o.issuer != "" && !authority.malformed(o)
              && w.writable && w.persisted && w.stored
              && w.fates[0].Served? && w.fates[0].joinKeyKnown && w.fates[0].room && w.fates[0].reply.Intact? ==>
                var k := if old(pending).Some? then old(pending).value else w.freshKey;
                && authority.thumb(k) in records
                && out == Enrolled(Credential(records[authority.thumb(k)], authority.thumb(k), o.peerId, k))
                && saved == Some(out.cred)
                && (authority.thumb(k) !in old(records) ==>
                      records == old(records)[authority.thumb(k) := w.fates[0].newId]
                      && own == old(own) + {authority.thumb(k)})
    {
      hide Exec, Ran, Snapshots, AfterPost, AfterAnswer, Exchange, Plausible, Uniform, Safe, EnrolledAs, ReusedAs,
           Smooth, Over, Start;
      ghost var before := WorldOf(At(Idle));
      IdOfPending(authority, initial, history, At(pc));
      ghost var s := At(Booting(o));
      Booted(authority, initial, history, At(pc), o, trace);
      OverMore(opts, history, o);
      history, pc := history + [Boot(o)], Booting(o);
      Pass();
      ghost var t0 := trace;
      match saved {
        case Some(c) => out, es := Reuse(o, c, w);
        case None => out, es := Enroll(o, w);
      }
      Continued(authority, opts, initial, history, s, es, At(Done(out)), t0, trace);
      history, pc := history + es, Done(out);
      Lasting(authority, opts, initial, history, trace);
      if Uniform(authority, opts) {
        ReturnedIsSaved(authority, opts, initial, history, At(pc));
      }
      SmoothIs(w);
      if before.saved.None? && Usable(o) && !authority.malformed(o) && Smooth(w) {
        SmoothEnrolls(authority, before, o, w, out, WorldOf(At(Idle)));
      }
      if before.saved.Some? {
        ReusedWhen(authority, before, before.saved.value, o, w, out, WorldOf(At(Idle)));
      }
    }
  }

  lemma OverMore(opts: iset<Options>, es: seq<Event>, o: Options)
    requires Over(opts, es) && o in opts
    ensures Over(opts, es + [Boot(o)])
  {
  }

  lemma ReturnedIsSaved(a: Authority, opts: iset<Options>, records: map<Thumbprint, string>, es: seq<Event>, s: State)
    requires Uniform(a, opts) && Over(opts, es) && Exec(a, Start(records), es) == Some(s)
    ensures s.pc.Done? && !s.pc.outcome.Failed? ==> s.saved == Some(s.pc.outcome.cred)
  {
    hide Exec, Uniform;
    assert Inv(a, opts, Start(records)) by { StartInv(a, opts, records); }
    RunKeeps(a, opts, Start(records), es);
  }

  /** In every run the record of a pending key has a client id. */
  lemma IdOfPending(a: Authority, records: map<Thumbprint, string>, es: seq<Event>, s: State)
    requires Exec(a, Start(records), es) == Some(s)
    ensures s.pending.Some? && a.thumb(s.pending.value) in s.records ==> s.records[a.thumb(s.pending.value)] != ""
  {
    hide Exec;
    PendingStaysOwn(a, Start(records), es);
    IdsNotEmpty(a, Start(records), es);
  }

  lemma SmoothEnrolls(a: Authority, before: World, o: Options, w: Surroundings, out: Outcome, after: World)
    requires Possible(w) && Smooth(w) && Usable(o) && !a.malformed(o) && EnrolledAs(a, before, o, w, out, after)
    requires var k := if before.pending.Some? then before.pending.value else w.freshKey;
             a.thumb(k) in before.records ==> before.records[a.thumb(k)] != ""
    ensures var k := if before.pending.Some? then before.pending.value else w.freshKey;
            && a.thumb(k) in after.records
            && out == Enrolled(Credential(after.records[a.thumb(k)], a.thumb(k), o.peerId, k))
            && after.saved == Some(out.cred)
            && (a.thumb(k) !in before.records ==>
                  after.records == before.records[a.thumb(k) := w.fates[0].newId]
                  && after.own == before.own + {a.thumb(k)})
  {
    hide AfterRequests, Succeeds, Made;
    var k := if before.pending.Some? then before.pending.value else w.freshKey;
    SmoothSucceeds(a, before.records, o, k, w);
    SmoothRecords(a, before.records, o, k, w);
  }

  lemma SmoothRecords(a: Authority, records: map<Thumbprint, string>, o: Options, k: Key, w: Surroundings)
    requires Possible(w) && Smooth(w) && !a.malformed(o)
    ensures Last(w.fates, w.cancelled) == 0
    ensures AfterRequests(a, records, o, k, w.fates, 1)
         == if a.thumb(k) in records then records else records[a.thumb(k) := w.fates[0].newId]
  {
    assert Made(w.fates, 0).None?;
  }

  lemma ReusedWhen(a: Authority, before: World, c: Credential, o: Options, w: Surroundings, out: Outcome, after: World)
    requires ReusedAs(a, before, c, o, w, out, after)
    ensures var good := c.clientId != "" && c.thumbprint == a.thumb(c.key);
            var same := c.peerId == "" || o.peerId == "" || c.peerId == o.peerId;
            out == if good && same then Reused(c) else Failed
  {
  }

  lemma Booted(a: Authority, records: map<Thumbprint, string>, es: seq<Event>, s: State, o: Options, trace: seq<World>)
    requires Exec(a, Start(records), es) == Some(s) && (s.pc.Idle? || s.pc.Done?)
    requires trace == Snapshots(a, Start(records), es)
    ensures Exec(a, Start(records), es + [Boot(o)]) == Some(s.(pc := Booting(o)))
    ensures trace + [WorldOf(s)] == Snapshots(a, Start(records), es + [Boot(o)])
  {
    hide Exec, Snapshots;
    ExecAppend(a, Start(records), es, [Boot(o)]);
    SnapshotsAppend(a, Start(records), es, [Boot(o)]);
    ExecFrom(a, s, [Boot(o)], 0);
    assert [Boot(o)][0..] == [Boot(o)];
    assert Snapshots(a, s, [Boot(o)]) == [WorldOf(s)] by { OneSnapshot(a, s, Boot(o)); }
  }

  lemma OneSnapshot(a: Authority, s: State, e: Event)
    requires Apply(a, s, e).Some?
    ensures Snapshots(a, s, [e]) == [WorldOf(Apply(a, s, e).value)]
  {
    hide Apply;
    assert [e][1..] == [];
    assert Snapshots(a, Apply(a, s, e).value, []) == [];
  }

  lemma Continued(a: Authority, opts: iset<Options>, records: map<Thumbprint, string>, es: seq<Event>, s: State,
                  fs: seq<Event>, t: State, before: seq<World>, after: seq<World>)
    requires Exec(a, Start(records), es) == Some(s) && before == Snapshots(a, Start(records), es)
    requires Ran(a, s, fs, t, before, after) && Over(opts, es)
    ensures Exec(a, Start(records), es + fs) == Some(t) && after == Snapshots(a, Start(records), es + fs)
    ensures Over(opts, es + fs) && before <= after
  {
    hide Exec, Snapshots;
    ExecAppend(a, Start(records), es, fs);
    SnapshotsAppend(a, Start(records), es, fs);
  }

  lemma Lasting(a: Authority, opts: iset<Options>, records: map<Thumbprint, string>, es: seq<Event>, trace: seq<World>)
    requires Exec(a, Start(records), es).Some? && Over(opts, es) && trace == Snapshots(a, Start(records), es)
    ensures |trace| == |es|
    ensures Uniform(a, opts) ==> forall n :: 0 <= n < |trace| ==> Safe(a, AtRest(trace[n]))
  {
    hide Exec, Snapshots, Uniform, Safe, Over;
    if es == [] {
      assert Snapshots(a, Start(records), []) == [] by { NoSnapshots(a, Start(records)); }
    } else {
      SnapshotAt(a, Start(records), es, 0);
    }
    if Uniform(a, opts) {
      forall n | 0 <= n < |trace|
        ensures Safe(a, AtRest(trace[n]))
      {
        SafeAlongTheTrace(a, opts, records, es, n);
      }
    }
  }

  lemma NoSnapshots(a: Authority, s: State)
    ensures Snapshots(a, s, []) == []
  {
  }
}
