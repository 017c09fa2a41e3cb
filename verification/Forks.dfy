/** Fork digest tracking: the digests a refresh announces, and the switch that observed traffic may make. */
module Forks {
  import opened Bytes
  import opened Text
  import opened Topics

  function Sanitize(digest: string): string { ToLower(TrimSpace(digest)) }

  lemma SanitizeIdempotent(digest: string)
    ensures Sanitize(Sanitize(digest)) == Sanitize(digest)
  {
    hide TrimSpace, IsSpace;
    var t := TrimSpace(digest);
    TrimmedEnds(digest);
    if t != "" {
      LowerKeepsSpaces(t[0]);
      LowerKeepsSpaces(t[|t| - 1]);
    }
    TrimSpaceIdle(ToLower(t));
    LowerIdempotent(t);
  }

  lemma SanitizeEmpty(digest: string)
    ensures Sanitize(digest) == "" <==> TrimSpace(digest) == ""
  {
    hide TrimSpace;
  }

  // ---------- the state and its two kinds of step ----------

  /** The announced digest, the supported set and the digest observed in traffic; "" stands for none. */
  datatype Digests = Digests(current: string, supported: set<string>, observed: string)

  function Active(d: Digests): string {
    if d.observed != "" && Sanitize(d.observed) in d.supported then d.observed else d.current
  }

  function NonEmpty(digest: string): set<string> {
    if digest == "" then {} else {digest}
  }

  /** A refresh as one step. */
  function Apply(d: Digests, current: string, future: string): Digests {
    var c, f := Sanitize(current), Sanitize(future);
    Digests(if c != "" then c else d.current, NonEmpty(c) + NonEmpty(f), d.observed)
  }

  function Observe(d: Digests, digest: string): Digests {
    var x := Sanitize(digest);
    if x == "" || x == d.current || x == Active(d) || x !in d.supported then d else d.(observed := x)
  }

  datatype Event = Refresh(current: string, future: string) | Traffic(digest: string)

  function Step(d: Digests, e: Event): Digests {
    match e
    case Refresh(c, f) => Apply(d, c, f)
    case Traffic(x) => Observe(d, x)
  }

  function Run(d: Digests, es: seq<Event>): Digests
    decreases |es|
  {
    if es == [] then d else Run(Step(d, es[0]), es[1..])
  }

  /** Refreshes carry a digest: an answer without one is refused before it is applied. */
  predicate Genuine(es: seq<Event>) {
    forall i :: 0 <= i < |es| && es[i].Refresh? ==> Sanitize(es[i].current) != ""
  }

  // ---------- safety over every run ----------

  predicate IsClean(digest: string) { digest != "" && Sanitize(digest) == digest }

  /** After a load: a clean digest is announced and supported, with at most one other. */
  ghost predicate Loaded(d: Digests) {
    && IsClean(d.current) && d.current in d.supported
    && (forall x :: x in d.supported ==> IsClean(x))
    && (forall x, y :: x in d.supported && y in d.supported && x != d.current && y != d.current ==> x == y)
    && (d.observed == "" || IsClean(d.observed))
  }

  lemma ApplyLoads(d: Digests, current: string, future: string)
    requires Sanitize(current) != "" && (d.observed == "" || IsClean(d.observed))
    ensures Loaded(Apply(d, current, future))
  {
    SanitizeIdempotent(current);
    SanitizeIdempotent(future);
    hide Sanitize;
  }

  lemma ObserveKeepsLoaded(d: Digests, digest: string)
    requires Loaded(d)
    ensures Loaded(Observe(d, digest))
  {
    SanitizeIdempotent(digest);
    hide Sanitize;
  }

  /** In every run of refreshes and messages the active digest is nonempty and supported. */
  lemma {:induction false} ActiveIsSupported(d: Digests, es: seq<Event>)
    requires Loaded(d) && Genuine(es)
    ensures Loaded(Run(d, es))
    ensures Active(Run(d, es)) != "" && Active(Run(d, es)) in Run(d, es).supported
    decreases |es|
  {
    hide Sanitize, Apply, Observe;
    if es != [] {
      match es[0] {
        case Refresh(c, f) => ApplyLoads(d, c, f);
        case Traffic(x) => ObserveKeepsLoaded(d, x);
      }
      ActiveIsSupported(Step(d, es[0]), es[1..]);
    }
  }

  // ---------- between two refreshes ----------

  function ObserveAll(d: Digests, xs: seq<string>): Digests
    decreases |xs|
  {
    if xs == [] then d else ObserveAll(Observe(d, xs[0]), xs[1..])
  }

  /** How often the active digest changes while the messages `xs` come in. */
  function Switches(d: Digests, xs: seq<string>): nat
    decreases |xs|
  {
    if xs == [] then 0
    else (if Active(Observe(d, xs[0])) != Active(d) then 1 else 0) + Switches(Observe(d, xs[0]), xs[1..])
  }

  lemma ObserveActive(d: Digests, digest: string)
    requires Loaded(d)
    ensures Observe(d, digest).current == d.current && Observe(d, digest).supported == d.supported
    ensures Active(Observe(d, digest)) != Active(d) ==>
              Active(d) == d.current && Active(Observe(d, digest)) in d.supported - {d.current}
    ensures Active(Observe(d, digest)) == Active(d) ==> Observe(d, digest) == d
  {
    SanitizeIdempotent(digest);
    hide Sanitize;
  }

  lemma {:induction false} StaysOnFuture(d: Digests, xs: seq<string>)
    requires Loaded(d) && Active(d) != d.current
    ensures ObserveAll(d, xs) == d && Switches(d, xs) == 0
    decreases |xs|
  {
    hide Sanitize, Active, Observe, Loaded;
    if xs != [] {
      ObserveActive(d, xs[0]);
      StaysOnFuture(Observe(d, xs[0]), xs[1..]);
    }
  }

  /**
   * Between two refreshes traffic switches the active digest at most once, only from the announced
   * digest to the one other supported digest, and a switch there is kept whatever comes in.
   */
  lemma {:induction false} TrafficOnlyMovesForward(d: Digests, xs: seq<string>)
    requires Loaded(d)
    ensures Switches(d, xs) <= 1
    ensures ObserveAll(d, xs).current == d.current && ObserveAll(d, xs).supported == d.supported
    ensures Switches(d, xs) == 1 ==> Active(d) == d.current && Active(ObserveAll(d, xs)) in d.supported - {d.current}
    ensures Switches(d, xs) == 0 ==> Active(ObserveAll(d, xs)) == Active(d)
    ensures Active(d) != d.current ==> Switches(d, xs) == 0
    decreases |xs|
  {
    hide Sanitize, Active, Observe, Loaded;
    if xs != [] {
      var e := Observe(d, xs[0]);
      ObserveActive(d, xs[0]);
      ObserveKeepsLoaded(d, xs[0]);
      if Active(e) != Active(d) {
        StaysOnFuture(e, xs[1..]);
      } else {
        TrafficOnlyMovesForward(e, xs[1..]);
      }
    }
  }

  /** The switch happens exactly when a message carries a supported digest other than the announced one. */
  lemma {:induction false} SwitchesExactly(d: Digests, xs: seq<string>)
    requires Loaded(d) && Active(d) == d.current
    ensures Switches(d, xs) == 1 <==> exists i :: 0 <= i < |xs| && Sanitize(xs[i]) in d.supported - {d.current}
    decreases |xs|
  {
    hide Sanitize, Loaded;
    if xs != [] {
      var e := Observe(d, xs[0]);
      ObserveActive(d, xs[0]);
      ObserveKeepsLoaded(d, xs[0]);
      SwitchNow(d, xs[0]);
      assert forall i :: 1 <= i < |xs| ==> xs[1..][i - 1] == xs[i];
      if Active(e) == d.current {
        SwitchesExactly(e, xs[1..]);
      } else {
        StaysOnFuture(e, xs[1..]);
      }
    }
  }

  lemma SwitchNow(d: Digests, digest: string)
    requires Loaded(d) && Active(d) == d.current
    ensures Active(Observe(d, digest)) != d.current <==> Sanitize(digest) in d.supported - {d.current}
  {
    SanitizeIdempotent(digest);
    hide Sanitize;
  }

  // ---------- from a refresh to the switch ----------

  /**
   * End to end.  After a refresh with a current and a different future digest the announced digest is active, unless
   * the future one was observed already; then the first message that carries the future digest, in whatever case and
   * between whatever blanks, makes it the active one, and it stays active whatever else comes in.
   */
  lemma FutureTakesOver(d: Digests, current: string, future: string, before: seq<string>, x: string, after: seq<string>)
    requires d.observed == "" || IsClean(d.observed)
    requires Sanitize(current) != "" && Sanitize(future) != "" && Sanitize(current) != Sanitize(future)
    requires forall i :: 0 <= i < |before| ==> Sanitize(before[i]) != Sanitize(future)
    requires Sanitize(x) == Sanitize(future)
    ensures var e := Apply(d, current, future);
            && Active(ObserveAll(e, before)) == Sanitize(if d.observed == Sanitize(future) then future else current)
            && Active(ObserveAll(ObserveAll(e, before + [x]), after)) == Sanitize(future)
  {
    hide Sanitize, Active, Observe, Loaded, Apply;
    var e := Apply(d, current, future);
    ApplyLoads(d, current, future);
    AppliedActive(d, current, future);
    TrafficKeepsLoaded(e, before);
    StaysWithoutFuture(e, before, Sanitize(future));
    var m := ObserveAll(e, before);
    ObserveAppend(e, before, [x]);
    assert ObserveAll(m, [x]) == Observe(m, x) by { ObserveSingle(m, x); }
    ObserveKeepsLoaded(m, x);
    if Active(m) == m.current {
      SwitchNow(m, x);
      ObserveActive(m, x);
      OnlyOther(m, Active(Observe(m, x)), Sanitize(future));
    } else {
      StaysOnFuture(m, [x]);
    }
    StaysOnFuture(Observe(m, x), after);
  }

  lemma AppliedActive(d: Digests, current: string, future: string)
    requires (d.observed == "" || IsClean(d.observed)) && Sanitize(current) != "" && Sanitize(future) != ""
    ensures var e := Apply(d, current, future);
            && e.current == Sanitize(current) && e.supported == {Sanitize(current), Sanitize(future)}
            && Active(e) == (if d.observed == Sanitize(future) then Sanitize(future) else Sanitize(current))
  {
    SanitizeIdempotent(future);
    hide Sanitize;
  }

  lemma ObserveSingle(d: Digests, x: string)
    ensures ObserveAll(d, [x]) == Observe(d, x)
  {
    hide Observe;
    assert [x][1..] == [];
  }

  lemma OnlyOther(d: Digests, x: string, y: string)
    requires Loaded(d) && x in d.supported - {d.current} && y in d.supported - {d.current}
    ensures x == y
  {
    hide Sanitize;
  }

  lemma {:induction false} ObserveAppend(d: Digests, xs: seq<string>, ys: seq<string>)
    ensures ObserveAll(d, xs + ys) == ObserveAll(ObserveAll(d, xs), ys)
    decreases |xs|
  {
    hide Observe;
    if xs == [] {
      assert xs + ys == ys;
    } else {
      assert (xs + ys)[0] == xs[0] && (xs + ys)[1..] == xs[1..] + ys;
      ObserveAppend(Observe(d, xs[0]), xs[1..], ys);
    }
  }

  lemma {:induction false} TrafficKeepsLoaded(d: Digests, xs: seq<string>)
    requires Loaded(d)
    ensures Loaded(ObserveAll(d, xs))
    decreases |xs|
  {
    hide Loaded, Observe;
    if xs != [] {
      ObserveKeepsLoaded(d, xs[0]);
      TrafficKeepsLoaded(Observe(d, xs[0]), xs[1..]);
    }
  }

  /** Messages without the other supported digest change nothing. */
  lemma StaysWithoutFuture(d: Digests, xs: seq<string>, future: string)
    requires Loaded(d) && d.supported == {d.current, future}
    requires forall i :: 0 <= i < |xs| ==> Sanitize(xs[i]) != future
    ensures Active(ObserveAll(d, xs)) == Active(d)
    ensures ObserveAll(d, xs).current == d.current && ObserveAll(d, xs).supported == d.supported
  {
    hide Sanitize, Loaded, Observe, Active;
    TrafficOnlyMovesForward(d, xs);
    if Active(d) == d.current {
      SwitchesExactly(d, xs);
    }
  }

  // ---------- the two halves of a refresh ----------

  /**
   * Seen between its two writes, a refresh leaves the active digest supported exactly when the observed
   * digest decides, or the new digest was already supported.
   */
  lemma HalfRefresh(d: Digests, current: string)
    requires Loaded(d) && Sanitize(current) != ""
    ensures var half := d.(current := Sanitize(current));
            Active(half) in half.supported <==>
                Active(d) != d.current || d.observed == d.current || Sanitize(current) in d.supported
  {
    SanitizeIdempotent(current);
    hide Sanitize;
  }

  // ---------- the service ----------

  const INITIAL_ATTEMPTS := 12

  /** A bootstrap answer, a hub answer; None is a failed request. */
  datatype Bootstrap = Bootstrap(digest: string, future: string)
  datatype Hub = Hub(forks: seq<string>, future: string)

  /** The digests of a bootstrap answer, if it has one that is not blank. */
  function FromBootstrap(answer: Option<Bootstrap>): Option<(string, string)> {
    if answer.Some? && TrimSpace(answer.value.digest) != "" then Some((answer.value.digest, answer.value.future))
        else None
  }

  function LastFork(hub: Hub): string
    requires hub.forks != []
  {
    hub.forks[|hub.forks| - 1]
  }

  /** The digests of a hub answer: its last fork, if that has eight characters. */
  function FromHub(answer: Option<Hub>): Option<(string, string)> {
    if answer.None? || answer.value.forks == [] then None
    else
      var digest := Sanitize(answer.value.forks[|answer.value.forks| - 1]);
      if |digest| == 8 then Some((digest, answer.value.future)) else None
  }

  /** Bootstrap before the hub. */
  function FromEither(bootstrap: Option<Bootstrap>, hub: Option<Hub>): Option<(string, string)> {
    if FromBootstrap(bootstrap).Some? then FromBootstrap(bootstrap) else FromHub(hub)
  }

  /** The first of the first `k` attempts that brings digests. */
  function FirstLoad(bootstraps: seq<Option<Bootstrap>>, hubs: seq<Option<Hub>>, k: nat): Option<(string, string)>
    requires k <= |bootstraps| && k <= |hubs|
  {
    if k == 0 then None
    else if FirstLoad(bootstraps, hubs, k - 1).Some? then FirstLoad(bootstraps, hubs, k - 1)
    else FromEither(bootstraps[k - 1], hubs[k - 1])
  }

  /** What a load leaves: the digests applied, or everything as it was. */
  ghost predicate LoadedFrom(before: Digests, found: Option<(string, string)>, ok: bool, after: Digests) {
    if found.Some? then ok && after == Apply(before, found.value.0, found.value.1) && Loaded(after)
    else !ok && after == before
  }

  class Service {
    var current: string
    var supported: set<string>
    var observed: string
    var topicFork: map<string, string>

    ghost function View(): Digests
      reads this
    {
      Digests(current, supported, observed)
    }

    /** The topic cache agrees with parsing, and what was observed is clean. */
    ghost predicate Valid()
      reads this
    {
      && (forall t :: t in topicFork ==> topicFork[t] == ForkDigest(t))
      && (observed == "" || IsClean(observed))
      && "" !in supported
    }

    constructor ()
      ensures Valid() && View() == Digests("", {}, "")
    {
      current, supported, observed, topicFork := "", {}, "", map[];
    }

    /** Both digests are supported afterwards, sanitized and if not blank, and nothing else is. */
    method ApplyForkDigest(cur: string, future: string)
      modifies `current, `supported
      ensures View() == Apply(old(View()), cur, future)
      ensures forall x :: x in supported <==> x != "" && (x == Sanitize(cur) || x == Sanitize(future))
      ensures current == if Sanitize(cur) != "" then Sanitize(cur) else old(current)
    {
      hide Sanitize;
      var newSet := {};
      var val := Sanitize(cur);
      if val != "" {
        newSet := newSet + {val};
        current := val;
      }
      val := Sanitize(future);
      if val != "" {
        newSet := newSet + {val};
      }
      supported := newSet;
    }

    predicate CheckForkSupported(digest: string)
      reads this
    {
      Sanitize(digest) in supported
    }

    /** Moves only to a supported digest that is neither announced nor active. */
    method ObserveMessageDigest(digest: string) returns (moved: bool)
      requires Valid()
      modifies `observed
      ensures Valid() && View() == Observe(old(View()), digest)
      ensures moved <==> View() != old(View())
    {
      SanitizeIdempotent(digest);
      hide Sanitize;
      var x := Sanitize(digest);
      var active := ActiveDigest();
      if x == "" || x == current || x == active || !CheckForkSupported(x) {
        return false;
      }
      observed := x;
      return true;
    }

    /** After a load the digest is nonempty and supported; traffic that was observed and is supported decides it. */
    method ActiveDigest() returns (r: string)
      ensures r == Active(View())
      ensures Loaded(View()) ==> r != "" && r in supported && (observed in supported ==> r == observed)
    {
      hide Sanitize;
      if observed != "" && CheckForkSupported(observed) {
        return observed;
      }
      return current;
    }

    /** The answer depends on the topic and the supported set alone, never on what the cache holds. */
    method TopicSupported(topic: string) returns (r: bool)
      requires Valid()
      modifies `topicFork
      ensures Valid()
      ensures r <==> topic == "mump2p_aggregated_messages" || Sanitize(ForkDigest(topic)) in supported
    {
      hide Sanitize, ForkDigest;
      if topic == AGGREGATED_TOPIC {
        return true;
      }
      if topic in topicFork {
        return CheckForkSupported(topicFork[topic]);
      }
      var fork := ForkDigest(topic);
      topicFork := topicFork[topic := fork];
      return CheckForkSupported(fork);
    }

    /** An answer with a digest is applied, any other leaves the state alone. */
    method LoadFromBootstrap(answer: Option<Bootstrap>) returns (ok: bool)
      requires Valid()
      modifies `current, `supported
      ensures Valid() && LoadedFrom(old(View()), FromBootstrap(answer), ok, View())
      ensures ok <==> answer.Some? && Sanitize(answer.value.digest) != ""
      ensures ok ==> current == Sanitize(answer.value.digest)
      ensures ok ==> forall x :: x in supported <==> x == current || (x != "" && x == Sanitize(answer.value.future))
    {
      hide Sanitize, TrimSpace, ForkDigest, Loaded;
      if answer.Some? {
        SanitizeEmpty(answer.value.digest);
      }
      if answer.None? || TrimSpace(answer.value.digest) == "" {
        return false;
      }
      ApplyLoads(View(), answer.value.digest, answer.value.future);
      ApplyForkDigest(answer.value.digest, answer.value.future);
      return true;
    }

    /** An answer whose last fork has eight characters is applied, any other leaves the state alone. */
    method LoadFromHub(answer: Option<Hub>) returns (ok: bool)
      requires Valid()
      modifies `current, `supported
      ensures Valid() && LoadedFrom(old(View()), FromHub(answer), ok, View())
      ensures ok <==> answer.Some? && answer.value.forks != [] && |Sanitize(LastFork(answer.value))| == 8
      ensures ok ==> current == Sanitize(LastFork(answer.value))
      ensures ok ==> forall x :: x in supported <==> x == current || (x != "" && x == Sanitize(answer.value.future))
    {
      hide Sanitize, ForkDigest, Loaded;
      if answer.None? || answer.value.forks == [] {
        return false;
      }
      var last := answer.value.forks[|answer.value.forks| - 1];
      var digest := Sanitize(last);
      if |digest| != 8 {
        return false;
      }
      SanitizeIdempotent(last);
      ApplyLoads(View(), digest, answer.value.future);
      ApplyForkDigest(digest, answer.value.future);
      return true;
    }

    /** Bootstrap first, the hub when it fails. */
    method LoadForkDigest(bootstrap: Option<Bootstrap>, hub: Option<Hub>) returns (ok: bool)
      requires Valid()
      modifies `current, `supported
      ensures Valid() && LoadedFrom(old(View()), FromEither(bootstrap, hub), ok, View())
      ensures var first := bootstrap.Some? && Sanitize(bootstrap.value.digest) != "";
              var second := hub.Some? && hub.value.forks != [] && |Sanitize(LastFork(hub.value))| == 8;
              && (ok <==> first || second)
              && (first ==> current == Sanitize(bootstrap.value.digest))
              && (!first && second ==> current == Sanitize(LastFork(hub.value)))
    {
      hide FromBootstrap, FromHub, Apply, Loaded, ForkDigest, Sanitize;
      ok := LoadFromBootstrap(bootstrap);
      if !ok {
        ok := LoadFromHub(hub);
      }
    }

    /** The service starts exactly after the first attempt that brings digests. */
    method LoadInitial(bootstraps: seq<Option<Bootstrap>>, hubs: seq<Option<Hub>>) returns (ok: bool)
      requires Valid() && |bootstraps| == |hubs| == 12
      modifies `current, `supported
      ensures ok <==> exists i :: 0 <= i < 12 && FromEither(bootstraps[i], hubs[i]).Some?
      ensures ok ==> exists i :: 0 <= i < 12 && (forall j :: 0 <= j < i ==> FromEither(bootstraps[j], hubs[j]).None?)
                                 && LoadedFrom(old(View()), FromEither(bootstraps[i], hubs[i]), true, View())
      ensures Valid() && LoadedFrom(old(View()), FirstLoad(bootstraps, hubs, INITIAL_ATTEMPTS), ok, View())
    {
      hide FromEither, Apply, Loaded, ForkDigest, Sanitize;
      for attempt := 0 to INITIAL_ATTEMPTS
        invariant Valid() && View() == old(View())
        invariant FirstLoad(bootstraps, hubs, attempt).None?
        invariant forall i :: 0 <= i < attempt ==> FromEither(bootstraps[i], hubs[i]).None?
      {
        ok := LoadForkDigest(bootstraps[attempt], hubs[attempt]);
        if ok {
          FirstStays(bootstraps, hubs, attempt + 1, INITIAL_ATTEMPTS);
          return;
        }
      }
      return false;
    }
  }

  lemma {:induction false} FirstStays(bootstraps: seq<Option<Bootstrap>>, hubs: seq<Option<Hub>>, k: nat, n: nat)
    requires k <= n <= |bootstraps| && n <= |hubs| && FirstLoad(bootstraps, hubs, k).Some?
    ensures FirstLoad(bootstraps, hubs, n) == FirstLoad(bootstraps, hubs, k)
  {
    hide FromEither;
    if k < n {
      FirstStays(bootstraps, hubs, k, n - 1);
    }
  }
}
