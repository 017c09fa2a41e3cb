/**
 * Self-enrollment: one host, its disk (pending keypair, credential) and an authority that is
 * idempotent by key thumbprint.  Every disk write, every request and every restart is one event,
 * so a run may crash between any two of them.
 */
module Enrollment {
  import opened Bytes

  type Key = nat
  type Thumbprint = nat

  datatype Options = Options(joinKey: string, issuer: string, peerId: string, hostLabel: string)

  datatype Credential = Credential(clientId: string, thumbprint: Thumbprint, peerId: string, key: Key)

  /** The key thumbprint, and which requests the authority refuses for their body alone (status 400). */
  datatype Authority = Authority(thumb: Key -> Thumbprint, malformed: Options -> bool)

  datatype Outcome = Reused(cred: Credential) | Enrolled(cred: Credential) | Failed

  /** What the client sees of an answer; `clientId` is present when the body was readable. */
  datatype Seen = Seen(status: nat, clientId: Option<string>)

  /** How far a boot has come. */
  datatype Pc =
    | Idle
    | Booting(opts: Options)
    | Reusing(cred: Credential)
    | NeedKey(opts: Options)
    | Generated(opts: Options, key: Key)
    | Posting(opts: Options, key: Key, attempt: nat)
    | Answered(opts: Options, key: Key, seen: Seen)
    | Storing(cred: Credential)
    | Stored(cred: Credential)
    | Done(outcome: Outcome)

  /**
   * The disk, the authority's records (client id by thumbprint, other hosts' included), and two histories:
   * the records this host's requests created, and whether a request of this host was ever
   * refused as a conflict while such a record existed.
   */
  datatype State = State(
    pending: Option<Key>, saved: Option<Credential>,
    records: map<Thumbprint, string>, own: set<Thumbprint>, selfConflict: bool,
    pc: Pc)

  /** What becomes of an answer on its way back. */
  datatype Reply = Intact | Garbled | Dropped | Replaced(status: nat)

  /** What becomes of a request: not served at all, or served, with what the authority then decides. */
  datatype Fate = Unserved(status: nat) | Served(joinKeyKnown: bool, room: bool, newId: string, reply: Reply)

  datatype Event =
    | Boot(opts: Options)
    | Crash
    | Foreign(thumbprint: Thumbprint, clientId: string)
    | Load(writable: bool)
    | Discard(removed: bool)
    | Resume
    | Generate(key: Key)
    | Persist(ok: bool)
    | Post(fate: Fate, giveUp: bool)
    | Classify(removed: bool)
    | Store(ok: bool)
    | Finish(removed: bool)

  const ATTEMPTS := 3

  predicate Usable(o: Options) { o.joinKey != "" && o.issuer != "" }

  /** The statuses the retry loop stops at. */
  predicate Final(status: nat) { status in {200, 201, 400, 401, 409} }

  // ---------- the authority ----------

  /** Body check, join key, thumbprint lookup, then the insert that may find no room. */
  function Serve(a: Authority, s: State, o: Options, k: Key, joinKeyKnown: bool, room: bool,
      newId: string): (State, Seen) {
    if a.malformed(o) then (s, Seen(400, Some("")))
    else if !joinKeyKnown then (s, Seen(401, Some("")))
    else if a.thumb(k) in s.records then (s, Seen(200, Some(s.records[a.thumb(k)])))
    else if !room then (s.(selfConflict := s.selfConflict || s.own != {}), Seen(409, Some("")))
    else (s.(records := s.records[a.thumb(k) := newId], own := s.own + {a.thumb(k)}), Seen(201, Some(newId)))
  }

  function Deliver(seen: Seen, reply: Reply): Seen {
    match reply
    case Intact => seen
    case Garbled => Seen(seen.status, None)
    case Dropped => Seen(0, None)
    case Replaced(status) => Seen(status, None)
  }

  /** Statuses made up on the way are none of the authority's own; a new client id is not empty. */
  predicate Plausible(f: Fate) {
    match f
    case Unserved(status) => !Final(status)
    case Served(_, _, newId, reply) => newId != "" && (reply.Replaced? ==> !Final(reply.status))
  }

  function Exchange(a: Authority, s: State, o: Options, k: Key, f: Fate): (State, Seen) {
    match f
    case Unserved(status) => (s, Seen(status, None))
    case Served(known, room, newId, reply) =>
      var r := Serve(a, s, o, k, known, room, newId);
      (r.0, Deliver(r.1, reply))
  }

  // ---------- the host ----------

  /** Load's verdict on the credential file. */
  function LoadCredential(a: Authority, saved: Option<Credential>): Result<Option<Credential>> {
    match saved
    case None => Ok(None)
    case Some(c) => if c.clientId == "" || a.thumb(c.key) != c.thumbprint then Err else Ok(saved)
  }

  function AfterLoad(a: Authority, s: State, o: Options, writable: bool): Pc {
    match LoadCredential(a, s.saved)
    case Err => Done(Failed)
    case Ok(Some(c)) => if c.peerId != "" && o.peerId != "" && c.peerId != o.peerId then Done(Failed) else Reusing(c)
    case Ok(None) => if Usable(o) && writable then NeedKey(o) else Done(Failed)
  }

  function Cleared(s: State, removed: bool): State {
    if removed then s.(pending := None) else s
  }

  /** Status 0 before everything; 400 and 409 drop the key; only a readable 200 or 201 goes on. */
  function AfterAnswer(a: Authority, s: State, o: Options, k: Key, seen: Seen, removed: bool): State {
    if seen.status == 0 then s.(pc := Done(Failed))
    else if seen.status == 400 || seen.status == 409 then Cleared(s, removed).(pc := Done(Failed))
    else if (seen.status == 200 || seen.status == 201) && seen.clientId.Some? && seen.clientId.value != "" then
      s.(pc := Storing(Credential(seen.clientId.value, a.thumb(k), o.peerId, k)))
    else s.(pc := Done(Failed))
  }

  function AfterPost(a: Authority, s: State, f: Fate, giveUp: bool): Option<State>
    requires s.pc.Posting?
  {
    var Posting(o, k, n) := s.pc;
    if !Plausible(f) then None
    else
      var (t, seen) := Exchange(a, s, o, k, f);
      if Final(seen.status) || giveUp || n + 1 >= ATTEMPTS then Some(t.(pc := Answered(o, k, seen)))
      else Some(t.(pc := Posting(o, k, n + 1)))
  }

  /** The thumbprints another host's key cannot have. */
  predicate Mine(a: Authority, s: State, t: Thumbprint) {
    (s.pending.Some? && t == a.thumb(s.pending.value)) || (s.pc.Generated? && t == a.thumb(s.pc.key))
  }

  /** One event, where it can happen. */
  function Apply(a: Authority, s: State, e: Event): Option<State> {
    match e
    case Boot(o) => if s.pc.Idle? || s.pc.Done? then Some(s.(pc := Booting(o))) else None
    case Crash => Some(s.(pc := Idle))
    case Foreign(t, id) => if t !in s.records && !Mine(a, s, t) then Some(s.(records := s.records[t := id])) else None
    case Load(writable) => if s.pc.Booting? then Some(s.(pc := AfterLoad(a, s, s.pc.opts, writable))) else None
    case Discard(removed) => if s.pc.Reusing? then Some(Cleared(s, removed).(pc := Done(Reused(s.pc.cred)))) else None
    case Resume => if s.pc.NeedKey? && s.pending.Some? then Some(s.(pc := Posting(s.pc.opts, s.pending.value, 0)))
        else None
    case Generate(k) =>
      if s.pc.NeedKey? && s.pending.None? && a.thumb(k) !in s.records then Some(s.(pc := Generated(s.pc.opts, k)))
          else None
    case Persist(ok) =>
      if !s.pc.Generated? then None
      else if ok then Some(s.(pending := Some(s.pc.key), pc := Posting(s.pc.opts, s.pc.key, 0)))
      else Some(s.(pc := Done(Failed)))
    case Post(f, giveUp) => if s.pc.Posting? then AfterPost(a, s, f, giveUp) else None
    case Classify(removed) => if s.pc.Answered? then Some(AfterAnswer(a, s, s.pc.opts, s.pc.key, s.pc.seen, removed))
        else None
    case Store(ok) =>
      if !s.pc.Storing? then None
      else if ok then Some(s.(saved := Some(s.pc.cred), pc := Stored(s.pc.cred)))
      else Some(s.(pc := Done(Failed)))
    case Finish(removed) => if s.pc.Stored? then Some(Cleared(s, removed).(pc := Done(Enrolled(s.pc.cred)))) else None
  }

  function Exec(a: Authority, s: State, es: seq<Event>): Option<State>
    decreases |es|
  {
    if es == [] then Some(s)
    else match Apply(a, s, es[0])
      case None => None
      case Some(t) => Exec(a, t, es[1..])
  }

  /** A new host: nothing on disk, records of others upstream. */
  function Start(records: map<Thumbprint, string>): State {
    State(None, None, records, {}, false, Idle)
  }

  /** The boots of a run use options from `opts`. */
  ghost predicate Over(opts: iset<Options>, es: seq<Event>) {
    forall i :: 0 <= i < |es| && es[i].Boot? ==> es[i].opts in opts
  }

  // ---------- what enrollment promises ----------

  /** A credential names its key's thumbprint and the record the authority holds for it. */
  predicate Matches(a: Authority, s: State, c: Credential) {
    && c.clientId != "" && c.thumbprint == a.thumb(c.key) && c.thumbprint in s.own
    && c.thumbprint in s.records && s.records[c.thumbprint] == c.clientId
  }

  /** At most one credential ever created, no conflict with an own earlier attempt, a saved credential that matches. */
  predicate Safe(a: Authority, s: State) {
    && |s.own| <= 1 && !s.selfConflict
    && (s.saved.Some? ==> Matches(a, s, s.saved.value))
  }

  /** No two usable configurations of which one passes the authority's body check and the other does not. */
  ghost predicate Uniform(a: Authority, opts: iset<Options>) {
    forall o, p :: o in opts && p in opts && Usable(o) && Usable(p) ==> a.malformed(o) == a.malformed(p)
  }

  ghost predicate EveryRunSafe(a: Authority, opts: iset<Options>) {
    forall records: map<Thumbprint, string>, es ::
      Over(opts, es) && Exec(a, Start(records), es).Some? ==> Safe(a, Exec(a, Start(records), es).value)
  }

  // ---------- the invariant ----------

  ghost predicate Accepted(a: Authority, opts: iset<Options>) {
    exists o :: o in opts && Usable(o) && !a.malformed(o)
  }

  predicate KeyInPlace(s: State, k: Key) { s.saved.None? && s.pending == Some(k) }

  ghost predicate PcOk(a: Authority, opts: iset<Options>, s: State) {
    match s.pc
    case Idle => true
    case Booting(o) => o in opts
    case Reusing(c) => s.saved == Some(c)
    case NeedKey(o) => o in opts && Usable(o) && s.saved.None?
    case Generated(o, k) =>
      o in opts && Usable(o) && s.saved.None? && s.pending.None? && a.thumb(k) !in s.records
    case Posting(o, k, n) => o in opts && Usable(o) && KeyInPlace(s, k) && n < ATTEMPTS
    case Answered(o, k, seen) =>
      && o in opts && Usable(o) && KeyInPlace(s, k)
      && (seen.status == 400 ==> a.malformed(o))
      && (seen.status == 409 ==> s.own == {})
      && ((seen.status == 200 || seen.status == 201) && seen.clientId.Some? ==>
            a.thumb(k) in s.own && a.thumb(k) in s.records && s.records[a.thumb(k)] == seen.clientId.value)
    case Storing(c) => KeyInPlace(s, c.key) && Matches(a, s, c)
    case Stored(c) => s.saved == Some(c)
    case Done(r) => !r.Failed? ==> s.saved == Some(r.cred)
  }

  /** Every record this host created can still be claimed: by the saved credential or by the pending key. */
  predicate Claimable(a: Authority, s: State) {
    match s.saved
    case Some(c) => Matches(a, s, c) && s.own == {c.thumbprint}
    case None =>
      match s.pending
      case None => s.own == {}
      case Some(k) => s.own == (if a.thumb(k) in s.records then {a.thumb(k)} else {})
  }

  ghost predicate Inv(a: Authority, opts: iset<Options>, s: State) {
    && Claimable(a, s) && !s.selfConflict
    && (s.own != {} ==> Accepted(a, opts))
    && PcOk(a, opts, s)
  }

  lemma PostKeeps(a: Authority, opts: iset<Options>, s: State, f: Fate, giveUp: bool)
    requires Inv(a, opts, s) && s.pc.Posting? && AfterPost(a, s, f, giveUp).Some?
    ensures Inv(a, opts, AfterPost(a, s, f, giveUp).value)
  {
    var Posting(o, k, n) := s.pc;
    var (t, seen) := Exchange(a, s, o, k, f);
    assert t.own != s.own ==> o in opts && Usable(o) && !a.malformed(o);
  }

  lemma AnswerKeeps(a: Authority, opts: iset<Options>, s: State, removed: bool)
    requires Inv(a, opts, s) && Uniform(a, opts) && s.pc.Answered?
    ensures Inv(a, opts, AfterAnswer(a, s, s.pc.opts, s.pc.key, s.pc.seen, removed))
  {
  }

  lemma StepKeeps(a: Authority, opts: iset<Options>, s: State, e: Event)
    requires Inv(a, opts, s) && Uniform(a, opts) && Apply(a, s, e).Some?
    requires e.Boot? ==> e.opts in opts
    ensures Inv(a, opts, Apply(a, s, e).value)
  {
    hide AfterPost, AfterAnswer, Uniform, Accepted;
    match e
    case Post(f, giveUp) => PostKeeps(a, opts, s, f, giveUp);
    case Classify(removed) => AnswerKeeps(a, opts, s, removed);
    case _ =>
  }

  lemma {:induction false} RunKeeps(a: Authority, opts: iset<Options>, s: State, es: seq<Event>)
    requires Inv(a, opts, s) && Uniform(a, opts) && Over(opts, es) && Exec(a, s, es).Some?
    ensures Inv(a, opts, Exec(a, s, es).value)
    decreases |es|
  {
    hide Inv, Uniform, Apply;
    if es != [] {
      StepKeeps(a, opts, s, es[0]);
      assert forall i :: 0 <= i < |es[1..]| ==> es[1..][i] == es[i + 1];
      RunKeeps(a, opts, Apply(a, s, es[0]).value, es[1..]);
    }
  }

  lemma InvIsSafe(a: Authority, opts: iset<Options>, s: State)
    requires Inv(a, opts, s)
    ensures Safe(a, s)
  {
  }

  // ---------- the run that goes wrong ----------

  lemma ExecFrom(a: Authority, s: State, es: seq<Event>, i: nat)
    requires i < |es| && Apply(a, s, es[i]).Some?
    ensures Exec(a, s, es[i..]) == if i + 1 == |es| then Apply(a, s, es[i])
            else Exec(a, Apply(a, s, es[i]).value, es[i + 1..])
    ensures es[0..] == es
  {
    assert es[i..][1..] == es[i + 1..];
  }

  /** A boot whose answer is lost after the record was made; `k` is generated. */
  function LostBoot(o: Options, k: Key): seq<Event> {
    [Boot(o), Load(true), Generate(k), Persist(true), Post(Served(true, true, "id", Dropped), true), Classify(true)]
  }

  /** A boot that reuses the pending key and is refused for its body: the key is dropped. */
  function RefusedBoot(o: Options): seq<Event> {
    [Boot(o), Load(true), Resume, Post(Served(true, true, "id", Intact), true), Classify(true)]
  }

  lemma LostBootRuns(a: Authority, o: Options, k: Key, s: State)
    requires Usable(o) && !a.malformed(o)
    requires s.saved.None? && s.pending.None? && (s.pc.Idle? || s.pc.Done?) && a.thumb(k) !in s.records
    ensures Exec(a, s, LostBoot(o, k))
         == Some(s.(pending := Some(k), records := s.records[a.thumb(k) := "id"], own := s.own + {a.thumb(k)},
             pc := Done(Failed)))
  {
    hide Exec;
    var es := LostBoot(o, k);
    var s1 := s.(pc := Booting(o));
    var s2 := s1.(pc := NeedKey(o));
    var s3 := s2.(pc := Generated(o, k));
    var s4 := s3.(pending := Some(k), pc := Posting(o, k, 0));
    var s5 := Apply(a, s4, es[4]).value;
    ExecFrom(a, s, es, 0);
    ExecFrom(a, s1, es, 1);
    ExecFrom(a, s2, es, 2);
    ExecFrom(a, s3, es, 3);
    ExecFrom(a, s4, es, 4);
    ExecFrom(a, s5, es, 5);
  }

  lemma RefusedBootRuns(a: Authority, o: Options, s: State)
    requires Usable(o) && a.malformed(o)
    requires s.saved.None? && s.pending.Some? && (s.pc.Idle? || s.pc.Done?)
    ensures Exec(a, s, RefusedBoot(o)) == Some(s.(pending := None, pc := Done(Failed)))
  {
    hide Exec;
    var es := RefusedBoot(o);
    var s1 := s.(pc := Booting(o));
    var s2 := s1.(pc := NeedKey(o));
    var s3 := s2.(pc := Posting(o, s.pending.value, 0));
    var s4 := Apply(a, s3, es[3]).value;
    ExecFrom(a, s, es, 0);
    ExecFrom(a, s1, es, 1);
    ExecFrom(a, s2, es, 2);
    ExecFrom(a, s3, es, 3);
    ExecFrom(a, s4, es, 4);
  }

  lemma {:induction false} ExecAppend(a: Authority, s: State, es: seq<Event>, fs: seq<Event>)
    ensures Exec(a, s, es + fs) == if Exec(a, s, es).None? then None else Exec(a, Exec(a, s, es).value, fs)
    decreases |es|
  {
    hide Apply;
    if es == [] {
      assert es + fs == fs;
    } else {
      assert (es + fs)[0] == es[0] && (es + fs)[1..] == es[1..] + fs;
      if Apply(a, s, es[0]).Some? {
        ExecAppend(a, Apply(a, s, es[0]).value, es[1..], fs);
      }
    }
  }

  /** Lost answer, a boot with a refused configuration, then the first configuration again: two records. */
  lemma MixedOptionsCreateTwo(a: Authority, o: Options, p: Options, k: Key, l: Key) returns (es: seq<Event>)
    requires Usable(o) && Usable(p) && !a.malformed(o) && a.malformed(p) && a.thumb(k) != a.thumb(l)
    ensures Over(iset{o, p}, es)
    ensures Exec(a, Start(map[]), es).Some? && Exec(a, Start(map[]), es).value.own == {a.thumb(k), a.thumb(l)}
    ensures |Exec(a, Start(map[]), es).value.own| == 2
  {
    hide Apply, Exec, AfterPost;
    var s := Start(map[]);
    LostBootRuns(a, o, k, s);
    var t := Exec(a, s, LostBoot(o, k)).value;
    RefusedBootRuns(a, p, t);
    var u := Exec(a, t, RefusedBoot(p)).value;
    LostBootRuns(a, o, l, u);
    es := LostBoot(o, k) + RefusedBoot(p);
    ExecAppend(a, s, LostBoot(o, k), RefusedBoot(p));
    ExecAppend(a, s, es, LostBoot(o, l));
    es := es + LostBoot(o, l);
  }

  /**
   * Over any set of configurations, every run of boots, crashes, lost answers, refusals and server
   * errors is safe exactly when the set is uniform for the authority's body check.
   */
  lemma SafeExactlyWhenUniform(a: Authority, opts: iset<Options>, k: Key, l: Key)
    requires a.thumb(k) != a.thumb(l)
    ensures EveryRunSafe(a, opts) <==> Uniform(a, opts)
  {
    if Uniform(a, opts) {
      forall records: map<Thumbprint, string>, es | Over(opts, es) && Exec(a, Start(records), es).Some?
        ensures Safe(a, Exec(a, Start(records), es).value)
      {
        RunKeeps(a, opts, Start(records), es);
        InvIsSafe(a, opts, Exec(a, Start(records), es).value);
      }
    } else {
      hide Apply, Exec;
      var o, p :| o in opts && p in opts && Usable(o) && Usable(p) && !a.malformed(o) && a.malformed(p);
      var es := MixedOptionsCreateTwo(a, o, p, k, l);
      assert Over(opts, es);
      assert !Safe(a, Exec(a, Start(map[]), es).value);
    }
  }

  // ---------- recovery ----------

  /** A quiet boot: nothing fails and the authority knows the join key. */
  function QuietBoot(o: Options): seq<Event> {
    [Boot(o), Load(true), Resume, Post(Served(true, true, "new", Intact), false), Classify(true), Store(true),
        Finish(true)]
  }

  /** Whatever happened before, a quiet boot claims the record an earlier attempt left upstream and makes no other. */
  lemma LostRecordIsRecovered(a: Authority, opts: iset<Options>, records: map<Thumbprint, string>, es: seq<Event>,
      o: Options)
    requires Uniform(a, opts) && Over(opts, es) && Exec(a, Start(records), es).Some?
    requires o in opts && Usable(o)
    requires var s := Exec(a, Start(records), es).value; (s.pc.Idle? || s.pc.Done?) && s.saved.None? && s.own != {}
    ensures var s := Exec(a, Start(records), es).value;
            var r := Exec(a, s, QuietBoot(o));
            && r.Some? && r.value.own == s.own && r.value.records == s.records && r.value.pending.None?
            && r.value.saved.Some? && r.value.pc == Done(Enrolled(r.value.saved.value)) &&
                Matches(a, r.value, r.value.saved.value)
  {
    RunKeeps(a, opts, Start(records), es);
    var s := Exec(a, Start(records), es).value;
    assert !a.malformed(o);
    IdsNotEmpty(a, Start(records), es);
    var k := s.pending.value;
    QuietBootRuns(a, o, k, s);
  }

  lemma QuietBootRuns(a: Authority, o: Options, k: Key, s: State)
    requires Usable(o) && !a.malformed(o) && s.saved.None? && s.pending == Some(k) && (s.pc.Idle? || s.pc.Done?)
    requires a.thumb(k) in s.records && s.records[a.thumb(k)] != ""
    ensures var c := Credential(s.records[a.thumb(k)], a.thumb(k), o.peerId, k);
            Exec(a, s, QuietBoot(o)) == Some(s.(pending := None, saved := Some(c), pc := Done(Enrolled(c))))
  {
    hide Exec, Apply;
    var es := QuietBoot(o);
    QuietStart(a, o, k, s);
    GoodEndRuns(a, o, k, s.(pc := Answered(o, k, Seen(200, Some(s.records[a.thumb(k)])))));
    assert es[0..] == es && es[4..] == GoodEnd();
  }

  lemma QuietStart(a: Authority, o: Options, k: Key, s: State)
    requires Usable(o) && !a.malformed(o) && s.saved.None? && s.pending == Some(k) && (s.pc.Idle? || s.pc.Done?)
    requires a.thumb(k) in s.records
    ensures Exec(a, s, QuietBoot(o)[0..])
         == Exec(a, s.(pc := Answered(o, k, Seen(200, Some(s.records[a.thumb(k)])))), QuietBoot(o)[4..])
  {
    hide Exec;
    var es := QuietBoot(o);
    var s1 := s.(pc := Booting(o));
    var s2 := s1.(pc := NeedKey(o));
    var s3 := s2.(pc := Posting(o, k, 0));
    ExecFrom(a, s, es, 0);
    ExecFrom(a, s1, es, 1);
    ExecFrom(a, s2, es, 2);
    ExecFrom(a, s3, es, 3);
  }

  /** The end of a boot whose answer is good and in which nothing fails. */
  function GoodEnd(): seq<Event> { [Classify(true), Store(true), Finish(true)] }

  lemma GoodEndRuns(a: Authority, o: Options, k: Key, s: State)
    requires s.pc.Answered? && s.pc.opts == o && s.pc.key == k && s.pc.seen.status in {200, 201}
    requires s.pc.seen.clientId.Some? && s.pc.seen.clientId.value != ""
    ensures var c := Credential(s.pc.seen.clientId.value, a.thumb(k), o.peerId, k);
            Exec(a, s, GoodEnd()) == Some(s.(pending := None, saved := Some(c), pc := Done(Enrolled(c))))
  {
    hide Exec;
    var es := GoodEnd();
    var c := Credential(s.pc.seen.clientId.value, a.thumb(k), o.peerId, k);
    var s5 := s.(pc := Storing(c));
    var s6 := s5.(saved := Some(c), pc := Stored(c));
    ExecFrom(a, s, es, 0);
    ExecFrom(a, s5, es, 1);
    ExecFrom(a, s6, es, 2);
  }

  // ---------- the first enrollment ----------

  /** A first boot in which nothing fails: `k` is generated, the authority makes a record under `id`. */
  function FirstBoot(o: Options, k: Key, id: string): seq<Event> {
    [Boot(o), Load(true), Generate(k), Persist(true), Post(Served(true, true, id, Intact), false)]
  }

  /**
   * From every state between boots with nothing saved and nothing pending, a boot in which nothing fails makes one
   * record and ends with the credential for it saved and returned.
   */
  lemma FirstEnrollment(a: Authority, o: Options, k: Key, id: string, s: State)
    requires o.joinKey != "" && o.issuer != "" && !a.malformed(o) && id != ""
    requires s.saved.None? && s.pending.None? && (s.pc.Idle? || s.pc.Done?) && a.thumb(k) !in s.records
    ensures var c := Credential(id, a.thumb(k), o.peerId, k);
            Exec(a, s, FirstBoot(o, k, id) + [Classify(true), Store(true), Finish(true)]) ==
            Some(s.(saved := Some(c), records := s.records[a.thumb(k) := id], own := s.own + {a.thumb(k)},
                    pc := Done(Enrolled(c))))
  {
    hide Exec, Apply;
    FirstBootRuns(a, o, k, id, s);
    ExecAppend(a, s, FirstBoot(o, k, id), GoodEnd());
    GoodEndRuns(a, o, k, Exec(a, s, FirstBoot(o, k, id)).value);
  }

  lemma FirstBootRuns(a: Authority, o: Options, k: Key, id: string, s: State)
    requires Usable(o) && !a.malformed(o) && id != ""
    requires s.saved.None? && s.pending.None? && (s.pc.Idle? || s.pc.Done?) && a.thumb(k) !in s.records
    ensures Exec(a, s, FirstBoot(o, k, id))
         == Some(s.(pending := Some(k), records := s.records[a.thumb(k) := id], own := s.own + {a.thumb(k)},
                    pc := Answered(o, k, Seen(201, Some(id)))))
  {
    hide Exec;
    var es := FirstBoot(o, k, id);
    var s1 := s.(pc := Booting(o));
    var s2 := s1.(pc := NeedKey(o));
    var s3 := s2.(pc := Generated(o, k));
    var s4 := s3.(pending := Some(k), pc := Posting(o, k, 0));
    ExecFrom(a, s, es, 0);
    ExecFrom(a, s1, es, 1);
    ExecFrom(a, s2, es, 2);
    ExecFrom(a, s3, es, 3);
    ExecFrom(a, s4, es, 4);
  }

  // ---------- the record of a pending key ----------

  /** A pending key's record was made by this host, and a key just generated has none. */
  predicate PendingIsOwn(a: Authority, s: State) {
    && (s.pending.Some? && a.thumb(s.pending.value) in s.records ==> a.thumb(s.pending.value) in s.own)
    && (s.pc.Generated? ==> a.thumb(s.pc.key) !in s.records)
  }

  lemma {:induction false} PendingStaysOwn(a: Authority, s: State, es: seq<Event>)
    requires Exec(a, s, es).Some? && PendingIsOwn(a, s)
    ensures PendingIsOwn(a, Exec(a, s, es).value)
    decreases |es|
  {
    if es != [] {
      PendingStep(a, s, es[0]);
      hide Apply;
      PendingStaysOwn(a, Apply(a, s, es[0]).value, es[1..]);
    }
  }

  lemma PendingStep(a: Authority, s: State, e: Event)
    requires Apply(a, s, e).Some? && PendingIsOwn(a, s)
    ensures PendingIsOwn(a, Apply(a, s, e).value)
  {
  }

  lemma {:induction false} IdsNotEmpty(a: Authority, s: State, es: seq<Event>)
    requires Exec(a, s, es).Some?
    requires forall t :: t in s.own && t in s.records ==> s.records[t] != ""
    requires forall t :: t in s.own ==> t in s.records
    ensures forall t :: t in Exec(a, s, es).value.own ==>
            t in Exec(a, s, es).value.records && Exec(a, s, es).value.records[t] != ""
    decreases |es|
  {
    if es != [] {
      IdsNotEmptyStep(a, s, es[0]);
      IdsNotEmpty(a, Apply(a, s, es[0]).value, es[1..]);
    }
  }

  lemma IdsNotEmptyStep(a: Authority, s: State, e: Event)
    requires Apply(a, s, e).Some?
    requires forall t :: t in s.own ==> t in s.records && s.records[t] != ""
    ensures forall t :: t in Apply(a, s, e).value.own ==>
            t in Apply(a, s, e).value.records && Apply(a, s, e).value.records[t] != ""
  {
  }
}
