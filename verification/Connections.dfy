/** The connection limiter shared by both stream transports. */
module Connections {
  import opened Multisets

  /** The live connections: id to subject. */
  type Live = map<nat, string>

  ghost function SubjectAt(live: Live): nat -> multiset<string> {
    id => if id in live then multiset{live[id]} else multiset{}
  }

  /** The subjects of the live connections, with multiplicity. */
  ghost function Subjects(live: Live): multiset<string> {
    SumOver(SubjectAt(live), live.Keys)
  }

  lemma SubjectsAdded(live: Live, id: nat, subject: string)
    requires id !in live
    ensures Subjects(live[id := subject]) == Subjects(live) + multiset{subject}
  {
    var more := live[id := subject];
    Change(SubjectAt(live), SubjectAt(more), live.Keys, id, multiset{subject});
    assert more.Keys == live.Keys + {id};
  }

  lemma SubjectsRemoved(live: Live, id: nat)
    requires id in live
    ensures Subjects(live) == Subjects(live - {id}) + multiset{live[id]}
  {
    var less := live - {id};
    Peel(SubjectAt(live), live.Keys, id);
    assert less.Keys == live.Keys - {id};
    Agree(SubjectAt(live), SubjectAt(less), less.Keys);
  }

  /** As many subjects, counted with multiplicity, as live connections. */
  lemma {:induction false} SubjectsCount(live: Live)
    ensures |Subjects(live)| == |live|
    decreases |live|
  {
    if live != map[] {
      var id :| id in live;
      SubjectsRemoved(live, id);
      assert |live - {id}| == |live| - 1 by { assert live.Keys == (live - {id}).Keys + {id}; }
      SubjectsCount(live - {id});
    }
  }

  /** The counts are the multiplicities, with no zero entry and none above the cap. */
  ghost predicate Counts(perSub: map<string, int>, subjects: multiset<string>, cap: int) {
    && (forall s :: s in perSub <==> s in subjects)
    && (forall s :: s in perSub ==> perSub[s] == subjects[s] <= cap)
  }

  function Held(perSub: map<string, int>, subject: string): int {
    if subject in perSub then perSub[subject] else 0
  }

  lemma CountsUp(perSub: map<string, int>, subjects: multiset<string>, cap: int, s: string)
    requires Counts(perSub, subjects, cap)
    ensures Held(perSub, s) == subjects[s]
    ensures Held(perSub, s) < cap ==> Counts(perSub[s := Held(perSub, s) + 1], subjects + multiset{s}, cap)
  {
  }

  lemma CountsDown(perSub: map<string, int>, subjects: multiset<string>, cap: int, s: string)
    requires Counts(perSub, subjects + multiset{s}, cap)
    ensures s in perSub
    ensures perSub[s] - 1 > 0 ==> Counts(perSub[s := perSub[s] - 1], subjects, cap)
    ensures perSub[s] - 1 <= 0 ==> Counts(perSub[s := perSub[s] - 1] - {s}, subjects, cap)
  {
    assert s in subjects + multiset{s};
  }

  /** The sum of a map's values. */
  ghost function Sum(m: map<string, int>): int {
    if m == map[] then 0 else var s :| s in m; m[s] + Sum(m - {s})
  }

  lemma {:induction false} SumOfCounts(perSub: map<string, int>, subjects: multiset<string>, cap: int)
    requires Counts(perSub, subjects, cap)
    ensures Sum(perSub) == |subjects|
    decreases |perSub|
  {
    if perSub == map[] {
      assert subjects == multiset{};
    } else {
      var s :| s in perSub && Sum(perSub) == perSub[s] + Sum(perSub - {s});
      assert perSub.Keys == (perSub - {s}).Keys + {s};
      SumOfCounts(perSub - {s}, subjects[s := 0], cap);
    }
  }

  lemma OneLess(live: Live, id: nat)
    requires id in live
    ensures |live| == |live - {id}| + 1
  {
    assert live.Keys == (live - {id}).Keys + {id};
  }

  lemma NotThere<T>(m: map<nat, T>, id: nat)
    requires id !in m
    ensures m - {id} == m
  {
  }

  class ConnLimiter {
    const maxConns: int
    const maxConnsPerSub: int
    var conns: int
    var perSub: map<string, int>
    var nextId: nat
    var starts: map<nat, int>
    ghost var live: Live

    /**
     * The count is the number of live ids, the per-subject counts are exactly their subjects' multiplicities
     * with no zero entry, ids are never reused, and neither cap is exceeded.
     */
    ghost predicate Valid()
      reads this
    {
      && starts.Keys == live.Keys && conns == |live|
      && (forall id :: id in live ==> id < nextId)
      && Counts(perSub, Subjects(live), maxConnsPerSub)
      && (conns == 0 || conns <= maxConns)
    }

    constructor (maxConns: int, maxConnsPerSub: int)
      ensures Valid() && live == map[] && nextId == 0 && this.maxConns == maxConns &&
              this.maxConnsPerSub == maxConnsPerSub
    {
      this.maxConns, this.maxConnsPerSub := maxConns, maxConnsPerSub;
      conns, perSub, nextId, starts, live := 0, map[], 0, map[], map[];
    }

    /** Admits exactly when both caps leave room. */
    method Acquire(subject: string, now: int) returns (id: nat, ok: bool)
      requires Valid()
      modifies this
      ensures Valid()
      ensures ok == (|old(live)| < maxConns && Subjects(old(live))[subject] < maxConnsPerSub)
      ensures ok ==> id == old(nextId) && id !in old(live) && live == old(live)[id := subject] && nextId == id + 1
                     && starts == old(starts)[id := now]
      ensures !ok ==> live == old(live) && nextId == old(nextId) && starts == old(starts)
    {
      hide Subjects, Counts, Held;
      CountsUp(perSub, Subjects(live), maxConnsPerSub, subject);
      id := nextId;
      if conns >= maxConns || Held(perSub, subject) >= maxConnsPerSub {
        return id, false;
      }
      SubjectsAdded(live, id, subject);
      conns := conns + 1;
      perSub := perSub[subject := Held(perSub, subject) + 1];
      nextId := nextId + 1;
      starts := starts[id := now];
      live := live[id := subject];
      return id, true;
    }

    /** Frees the connection once; a repeated release changes nothing. */
    method Release(subject: string, id: nat)
      requires Valid() && (id in live ==> live[id] == subject)
      modifies this
      ensures Valid() && live == old(live) - {id} && nextId == old(nextId)
      ensures starts == old(starts) - {id}
      ensures old(id !in live) ==> conns == old(conns) && perSub == old(perSub) && starts == old(starts)
    {
      hide Subjects, Counts;
      if id !in starts {
        NotThere(live, id);
        NotThere(starts, id);
        return;
      }
      Free(subject, id);
    }

    method Free(subject: string, id: nat)
      requires Valid() && id in live && live[id] == subject
      modifies this
      ensures Valid() && live == old(live) - {id} && nextId == old(nextId) && starts == old(starts) - {id}
    {
      hide Subjects, Counts;
      SubjectsRemoved(live, id);
      CountsDown(perSub, Subjects(live - {id}), maxConnsPerSub, subject);
      OneLess(live, id);
      conns := conns - 1;
      perSub := perSub[subject := perSub[subject] - 1];
      if perSub[subject] <= 0 {
        perSub := perSub - {subject};
      }
      starts := starts - {id};
      live := live - {id};
    }

    /** With every connection released the counts are those of a new limiter. */
    lemma ReleasedAll()
      requires Valid() && live == map[]
      ensures conns == 0 && perSub == map[] && starts == map[]
    {
    }

    /** The connection count is the number of live ids and the sum of the per-subject counts. */
    lemma CountsAgree()
      requires Valid()
      ensures conns == |live| == Sum(perSub)
    {
      hide Subjects, Counts, Sum;
      SubjectsCount(live);
      SumOfCounts(perSub, Subjects(live), maxConnsPerSub);
    }

    /** The earliest start among live connections, 0 when there is none. */
    method OldestStart() returns (oldest: int)
      requires Valid() && forall id :: id in starts ==> starts[id] > 0
      ensures starts == map[] ==> oldest == 0
      ensures starts != map[] ==> (exists id :: id in starts && starts[id] == oldest) && forall id :: id in starts ==>
              oldest <= starts[id]
    {
      oldest := 0;
      var rest := starts.Keys;
      while rest != {}
        invariant rest <= starts.Keys
        invariant oldest == 0 <==> rest == starts.Keys
        invariant oldest != 0 ==> exists id :: id in starts && starts[id] == oldest
        invariant forall id :: id in starts && id !in rest ==> oldest <= starts[id]
        decreases |rest|
      {
        var id :| id in rest;
        if oldest == 0 || starts[id] < oldest {
          oldest := starts[id];
        }
        rest := rest - {id};
      }
    }
  }

  // ---------- runs ----------

  datatype Op = Open(subject: string, now: int) | Close(nth: nat)

  /** A closer knows its own connection's subject, and every live connection has one among the closers from `i` on. */
  ghost predicate Closers(live: Live, nextId: nat, closers: seq<(string, nat)>, i: nat) {
    && (forall id :: id in live ==> exists k :: i <= k < |closers| && closers[k] == (live[id], id))
    && (forall k :: 0 <= k < |closers| ==>
        closers[k].1 < nextId && (closers[k].1 in live ==> live[closers[k].1] == closers[k].0))
  }

  lemma OneMoreCloser(live: Live, id: nat, subject: string, closers: seq<(string, nat)>)
    requires Closers(live, id, closers, 0) && id !in live
    ensures Closers(live[id := subject], id + 1, closers + [(subject, id)], 0)
  {
    var more := closers + [(subject, id)];
    assert more[|closers|] == (subject, id);
    forall x | x in live
      ensures exists k :: 0 <= k < |more| && more[k] == (live[x], x)
    {
      var k :| 0 <= k < |closers| && closers[k] == (live[x], x);
      assert more[k] == (live[x], x);
    }
  }

  lemma Closed(live: Live, nextId: nat, closers: seq<(string, nat)>, i: nat)
    requires Closers(live, nextId, closers, i) && i < |closers|
    ensures Closers(live - {closers[i].1}, nextId, closers, i + 1)
  {
  }

  lemma ClosedAny(live: Live, nextId: nat, closers: seq<(string, nat)>, id: nat)
    requires Closers(live, nextId, closers, 0)
    ensures Closers(live - {id}, nextId, closers, 0)
  {
  }

  /** Any sequence of opens and closes; `Close(n)` calls the n-th closer handed out so far, perhaps again. */
  method Run(l: ConnLimiter, ops: seq<Op>) returns (closers: seq<(string, nat)>)
    requires l.Valid() && l.live == map[]
    modifies l
    ensures l.Valid() && Closers(l.live, l.nextId, closers, 0)
  {
    hide Counts, Subjects, Closers;
    closers := [];
    assert Closers(l.live, l.nextId, [], 0) by { NoClosers(l.live, l.nextId); }
    for i := 0 to |ops|
      invariant l.Valid() && Closers(l.live, l.nextId, closers, 0)
    {
      match ops[i] {
        case Open(subject, now) =>
          ghost var was := l.live;
          var id, ok := l.Acquire(subject, now);
          if ok {
            OneMoreCloser(was, id, subject, closers);
            closers := closers + [(subject, id)];
          }
        case Close(n) =>
          if n < |closers| {
            Knows(l.live, l.nextId, closers, 0, n);
            ClosedAny(l.live, l.nextId, closers, closers[n].1);
            l.Release(closers[n].0, closers[n].1);
          }
      }
    }
  }

  lemma NoClosers(live: Live, nextId: nat)
    requires live == map[]
    ensures Closers(live, nextId, [], 0)
  {
  }

  lemma Knows(live: Live, nextId: nat, closers: seq<(string, nat)>, i: nat, n: nat)
    requires Closers(live, nextId, closers, i) && n < |closers|
    ensures closers[n].1 in live ==> live[closers[n].1] == closers[n].0
  {
  }

  lemma NoneLeft(live: Live, nextId: nat, closers: seq<(string, nat)>)
    requires Closers(live, nextId, closers, |closers|)
    ensures live == map[]
  {
  }

  /** After any run, calling every closer, used or not, brings the limiter back to its initial counts. */
  method RunThenCloseAll(l: ConnLimiter, ops: seq<Op>)
    requires l.Valid() && l.live == map[]
    modifies l
    ensures l.Valid() && l.conns == 0 && l.perSub == map[] && l.starts == map[]
  {
    hide Counts, Subjects, Closers;
    var closers := Run(l, ops);
    for i := 0 to |closers|
      invariant l.Valid() && Closers(l.live, l.nextId, closers, i)
    {
      Knows(l.live, l.nextId, closers, i, i);
      Closed(l.live, l.nextId, closers, i);
      l.Release(closers[i].0, closers[i].1);
    }
    NoneLeft(l.live, l.nextId, closers);
    l.ReleasedAll();
  }
}
