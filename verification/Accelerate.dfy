/** The acceleration window: slots written one by one, then the horizon, while verdicts are being taken. */
module Accelerate {
  import opened Bytes

  datatype Verdict = OnList | NotOnList | FailOpen

  function Decide(toSlot: nat, onList: bool, slot: nat): Verdict {
    if onList then OnList
    else if toSlot == 0 || slot > toSlot then FailOpen
    else NotOnList
  }

  datatype Window = Window(slots: set<nat>, toSlot: nat)

  function VerdictOf(w: Window, slot: nat): Verdict { Decide(w.toSlot, slot in w.slots, slot) }

  /** An accepted answer. */
  datatype Poll = Poll(toSlot: int, slots: seq<int>)

  function Listed(slots: seq<int>): set<nat> {
    set i | 0 <= i < |slots| && slots[i] >= 0 :: slots[i]
  }

  /** The window after the first `k` writes of a poll: the slots in order, the horizon last. */
  function After(w: Window, p: Poll, k: nat): Window
    requires p.toSlot > 0 && k <= |p.slots| + 1
  {
    if k <= |p.slots| then Window(w.slots + Listed(p.slots[..k]), w.toSlot)
    else Window(w.slots + Listed(p.slots), p.toSlot)
  }

  /** Between any two writes, a verdict never rejects a slot of the incoming list that lies past the old horizon. */
  lemma NeverRejectedMidPoll(w: Window, p: Poll, k: nat, slot: nat)
    requires p.toSlot > 0 && k <= |p.slots| + 1
    requires slot in p.slots && slot > w.toSlot
    ensures VerdictOf(After(w, p, k), slot) != NotOnList
    ensures k == |p.slots| + 1 ==> VerdictOf(After(w, p, k), slot) == OnList
  {
    var i :| 0 <= i < |p.slots| && p.slots[i] == slot;
  }

  /** Once accepted slots stay accepted through a poll, and only slots inside the new horizon can become rejected. */
  lemma VerdictsAcrossPoll(w: Window, p: Poll, k: nat, slot: nat)
    requires p.toSlot > 0 && k <= |p.slots| + 1
    ensures VerdictOf(w, slot) == OnList ==> VerdictOf(After(w, p, k), slot) == OnList
    ensures VerdictOf(w, slot) == FailOpen && VerdictOf(After(w, p, k), slot) == NotOnList ==>
              k == |p.slots| + 1 && slot !in p.slots && slot <= p.toSlot
  {
    if k == |p.slots| + 1 && slot in p.slots {
      var i :| 0 <= i < |p.slots| && p.slots[i] == slot;
      assert slot in Listed(p.slots);
    }
  }

  /**
   * Taken as two reads, the slot set after `i` writes and the horizon after `j`, a verdict rejects such a slot exactly
   * when the set was read before the slot was written and the horizon after it moved past the slot.
   */
  lemma SplitVerdictRejects(w: Window, p: Poll, i: nat, j: nat, slot: nat)
    requires p.toSlot > 0 && i <= j <= |p.slots| + 1
    requires slot in p.slots && slot > w.toSlot
    ensures Decide(After(w, p, j).toSlot, slot in After(w, p, i).slots, slot) == NotOnList
       <==> slot !in w.slots && i <= |p.slots| && slot !in p.slots[..i] && j == |p.slots| + 1 && slot <= p.toSlot
  {
    var n :| 0 <= n < |p.slots| && p.slots[n] == slot;
    assert i <= |p.slots| ==> (slot in Listed(p.slots[..i]) <==> slot in p.slots[..i]);
    assert slot in Listed(p.slots);
  }

  /** Such a pair of reads exists. */
  lemma SplitVerdictCanReject()
    ensures var w, p := Window({}, 10), Poll(20, [15]);
            Decide(After(w, p, 2).toSlot, 15 in After(w, p, 0).slots, 15) == NotOnList
  {
    SplitVerdictRejects(Window({}, 10), Poll(20, [15]), 0, 2, 15);
  }

  // ---------- over any number of polls ----------

  datatype Write = PutSlot(slot: nat) | SetHorizon(toSlot: nat)

  /** The slots a poll writes; negative ones are skipped. */
  function Puts(slots: seq<int>): seq<Write> {
    if slots == [] then []
    else
      var n := |slots| - 1;
      Puts(slots[..n]) + if slots[n] >= 0 then [PutSlot(slots[n])] else []
  }

  /** The writes of a poll, none if it has no window. */
  function WritesOf(p: Poll): seq<Write> {
    if p.toSlot > 0 then Puts(p.slots) + [SetHorizon(p.toSlot)] else []
  }

  function AllWrites(polls: seq<Poll>): seq<Write> {
    if polls == [] then [] else AllWrites(polls[..|polls| - 1]) + WritesOf(polls[|polls| - 1])
  }

  function AfterWrites(w: Window, ws: seq<Write>): Window {
    if ws == [] then w
    else
      var v := AfterWrites(w, ws[..|ws| - 1]);
      match ws[|ws| - 1]
      case PutSlot(s) => v.(slots := v.slots + {s})
      case SetHorizon(t) => v.(toSlot := t)
  }

  /** The last horizon written, or the one before. */
  function Horizon(toSlot: nat, ws: seq<Write>): nat {
    if ws == [] then toSlot
    else if ws[|ws| - 1].SetHorizon? then ws[|ws| - 1].toSlot
    else Horizon(toSlot, ws[..|ws| - 1])
  }

  lemma {:induction false} AfterWritesExactly(w: Window, ws: seq<Write>, slot: nat)
    ensures slot in AfterWrites(w, ws).slots <==> slot in w.slots || PutSlot(slot) in ws
    ensures AfterWrites(w, ws).toSlot == Horizon(w.toSlot, ws)
  {
    if ws != [] {
      var n := |ws| - 1;
      AfterWritesExactly(w, ws[..n], slot);
      assert ws == ws[..n] + [ws[n]];
    }
  }

  lemma {:induction false} PutsAre(slots: seq<int>, slot: nat)
    ensures PutSlot(slot) in Puts(slots) <==> slot in slots
    ensures forall i :: 0 <= i < |Puts(slots)| ==> Puts(slots)[i].PutSlot?
  {
    if slots != [] {
      var n := |slots| - 1;
      PutsAre(slots[..n], slot);
      assert slots == slots[..n] + [slots[n]];
    }
  }

  lemma {:induction false} PutsPrefix(slots: seq<int>, k: nat)
    requires k <= |slots|
    ensures Puts(slots[..k]) <= Puts(slots)
  {
    if k < |slots| {
      var n := |slots| - 1;
      PutsPrefix(slots[..n], k);
      assert slots[..n][..k] == slots[..k];
    } else {
      assert slots[..k] == slots;
    }
  }

  lemma ListedIs(slots: seq<int>, slot: nat)
    ensures slot in Listed(slots) <==> slot in slots
  {
    if slot in slots {
      var i :| 0 <= i < |slots| && slots[i] == slot;
    }
  }

  /** Before the horizon, the first `k` slots of a poll are a prefix of its writes, and leave the same window. */
  lemma PollSoFar(w: Window, p: Poll, k: nat)
    requires p.toSlot > 0 && k <= |p.slots|
    ensures Puts(p.slots[..k]) <= WritesOf(p)
    ensures AfterWrites(w, Puts(p.slots[..k])) == After(w, p, k)
  {
    var puts := Puts(p.slots[..k]);
    PutsPrefix(p.slots, k);
    forall slot: nat
      ensures slot in AfterWrites(w, puts).slots <==> slot in w.slots + Listed(p.slots[..k])
    {
      AfterWritesExactly(w, puts, slot);
      PutsAre(p.slots[..k], slot);
      ListedIs(p.slots[..k], slot);
    }
    assert AfterWrites(w, puts).slots == w.slots + Listed(p.slots[..k]);
    AfterWritesExactly(w, puts, 0);
    PutsAre(p.slots[..k], 0);
    OnlyPuts(w.toSlot, puts);
  }

  lemma {:induction false} OnlyPuts(toSlot: nat, ws: seq<Write>)
    requires forall i :: 0 <= i < |ws| ==> ws[i].PutSlot?
    ensures Horizon(toSlot, ws) == toSlot
  {
    if ws != [] {
      OnlyPuts(toSlot, ws[..|ws| - 1]);
    }
  }

  /** A whole poll, as its writes, leaves the window the other results speak of. */
  lemma PollIsItsWrites(w: Window, p: Poll)
    requires p.toSlot > 0
    ensures AfterWrites(w, WritesOf(p)) == After(w, p, |p.slots| + 1)
  {
    var ws := WritesOf(p);
    assert ws[..|ws| - 1] == Puts(p.slots);
    PollSoFar(w, p, |p.slots|);
    assert p.slots[..|p.slots|] == p.slots;
  }

  lemma {:induction false} AfterWritesThen(w: Window, a: seq<Write>, b: seq<Write>)
    ensures AfterWrites(w, a + b) == AfterWrites(AfterWrites(w, a), b)
  {
    if b == [] {
      assert a + b == a;
    } else {
      var n := |b| - 1;
      AfterWritesThen(w, a, b[..n]);
      assert (a + b)[..|a| + n] == a + b[..n];
    }
  }

  lemma {:induction false} HorizonThen(toSlot: nat, a: seq<Write>, b: seq<Write>)
    ensures Horizon(toSlot, a + b) == Horizon(Horizon(toSlot, a), b)
  {
    if b == [] {
      assert a + b == a;
    } else {
      var n := |b| - 1;
      HorizonThen(toSlot, a, b[..n]);
      assert (a + b)[..|a| + n] == a + b[..n];
    }
  }

  lemma {:induction false} AllWritesPrefix(polls: seq<Poll>, n: nat)
    requires n <= |polls|
    ensures AllWrites(polls[..n]) <= AllWrites(polls)
  {
    hide WritesOf;
    if n < |polls| {
      var k := |polls| - 1;
      assert AllWrites(polls) == AllWrites(polls[..k]) + WritesOf(polls[k]);
      AllWritesPrefix(polls[..k], n);
      assert polls[..k][..n] == polls[..n];
    } else {
      assert polls[..n] == polls;
    }
  }

  lemma NeverRejectedAfterPuts(
    w: Window, ws: seq<Write>, before: seq<Write>, puts: seq<Write>, t: nat, slot: nat)
    requires before + puts <= ws && |before| <= t <= |ws|
    requires PutSlot(slot) in puts && forall i :: 0 <= i < |puts| ==> puts[i].PutSlot?
    requires slot > AfterWrites(w, before).toSlot
    ensures VerdictOf(AfterWrites(w, ws[..t]), slot) != NotOnList
    ensures t >= |before| + |puts| ==> VerdictOf(AfterWrites(w, ws[..t]), slot) == OnList
  {
    hide AfterWrites, Horizon;
    AfterWritesExactly(w, ws[..t], slot);
    AfterWritesExactly(w, before, slot);
    if t >= |before| + |puts| {
      assert ws[..t] == before + puts + ws[|before| + |puts|..t];
      assert PutSlot(slot) in ws[..t];
    } else {
      var some := puts[..t - |before|];
      assert ws[..t] == before + some;
      HorizonThen(w.toSlot, before, some);
      OnlyPuts(Horizon(w.toSlot, before), some);
    }
  }

  /**
   * Over any number of polls: a slot that a poll lists and that lies past the horizon when it starts is never rejected
   * from then on, neither during that poll nor ever after, and is on the list as soon as the poll is done.
   */
  lemma NeverRejectedFromPollOn(w: Window, polls: seq<Poll>, n: nat, t: nat, slot: nat)
    requires n < |polls| && polls[n].toSlot > 0 && slot in polls[n].slots
    requires slot > AfterWrites(w, AllWrites(polls[..n])).toSlot
    requires |AllWrites(polls[..n])| <= t <= |AllWrites(polls)|
    ensures VerdictOf(AfterWrites(w, AllWrites(polls)[..t]), slot) != NotOnList
    ensures t >= |AllWrites(polls[..n + 1])| ==> VerdictOf(AfterWrites(w, AllWrites(polls)[..t]), slot) == OnList
  {
    hide AfterWrites, Horizon, VerdictOf, Puts;
    var ws, before, puts := AllWrites(polls), AllWrites(polls[..n]), Puts(polls[n].slots);
    AllWritesPrefix(polls, n + 1);
    assert polls[..n + 1][..n] == polls[..n];
    assert before + puts <= AllWrites(polls[..n + 1]) <= ws;
    PutsAre(polls[n].slots, slot);
    NeverRejectedAfterPuts(w, ws, before, puts, t, slot);
  }

  /** The verdict as two reads: the set after `i` of the writes, the horizon after `j`. */
  function SplitVerdict(w: Window, ws: seq<Write>, i: nat, j: nat, slot: nat): Verdict
    requires i <= |ws| && j <= |ws|
  {
    Decide(AfterWrites(w, ws[..j]).toSlot, slot in AfterWrites(w, ws[..i]).slots, slot)
  }

  /**
   * Over any number of polls the two reads reject a slot if and only if it was neither on the list at first nor written
   * before the set was read, and the last horizon written before the second read has reached it.  They reject a slot
   * that is on the list by then if and only if, besides, it was written between the two reads.
   */
  lemma SplitVerdictOverPolls(w: Window, polls: seq<Poll>, i: nat, j: nat, slot: nat)
    requires i <= j <= |AllWrites(polls)|
    ensures var ws := AllWrites(polls);
            SplitVerdict(w, ws, i, j, slot) == NotOnList <==>
            && slot !in w.slots && PutSlot(slot) !in ws[..i]
            && 0 < Horizon(w.toSlot, ws[..j]) && slot <= Horizon(w.toSlot, ws[..j])
    ensures var ws := AllWrites(polls);
            SplitVerdict(w, ws, i, j, slot) == NotOnList && VerdictOf(AfterWrites(w, ws[..j]), slot) == OnList <==>
            && slot !in w.slots && PutSlot(slot) !in ws[..i] && PutSlot(slot) in ws[i..j]
            && 0 < Horizon(w.toSlot, ws[..j]) && slot <= Horizon(w.toSlot, ws[..j])
  {
    var ws := AllWrites(polls);
    AfterWritesExactly(w, ws[..i], slot);
    AfterWritesExactly(w, ws[..j], slot);
    assert ws[..j] == ws[..i] + ws[i..j];
  }

  class Router {
    var slots: set<nat>
    var toSlot: nat

    function View(): Window
      reads this
    {
      Window(slots, toSlot)
    }

    constructor ()
      ensures View() == Window({}, 0)
    {
      slots, toSlot := {}, 0;
    }

    /** Only an examined slot that was not selected is refused. */
    method ShouldAccelerateBlock(slot: nat) returns (r: bool)
      ensures r <==> VerdictOf(View(), slot) != NotOnList
      ensures !r <==> slot !in slots && 0 < toSlot && slot <= toSlot
    {
      var onList := slot in slots;
      var horizon := toSlot;
      r := Decide(horizon, onList, slot) != NotOnList;
    }

    /** One poll.  A failed one, or one without a window, changes nothing; else every write is one of After's. */
    method RefreshAccelerateSlots(answer: Option<Poll>) returns (ghost seen: seq<Window>)
      modifies this
      ensures answer.None? || answer.value.toSlot <= 0 ==> View() == old(View()) && seen == []
      ensures answer.Some? && answer.value.toSlot > 0 ==>
                && View() == After(old(View()), answer.value, |answer.value.slots| + 1)
                && |seen| == |answer.value.slots| + 2
                && forall k :: 0 <= k < |seen| ==> seen[k] == After(old(View()), answer.value, k)
    {
      if answer.None? || answer.value.toSlot <= 0 {
        return [];
      }
      var p := answer.value;
      seen := [View()];
      for k := 0 to |p.slots|
        invariant |seen| == k + 1 && View() == After(old(View()), p, k)
        invariant forall i :: 0 <= i < |seen| ==> seen[i] == After(old(View()), p, i)
      {
        OneMoreSlot(p.slots, k);
        if p.slots[k] >= 0 {
          slots := slots + {p.slots[k]};
        }
        assert View() == After(old(View()), p, k + 1);
        seen := seen + [View()];
      }
      assert p.slots[..|p.slots|] == p.slots;
      toSlot := p.toSlot;
      seen := seen + [View()];
    }
  }

  function Answered(answers: seq<Option<Poll>>): seq<Poll> {
    if answers == [] then []
    else
      var n := |answers| - 1;
      Answered(answers[..n]) + if answers[n].Some? then [answers[n].value] else []
  }

  /** Polls one after another, failed ones among them, leave the window of all their writes in order. */
  method PollAll(router: Router, answers: seq<Option<Poll>>)
    modifies router
    ensures router.View() == AfterWrites(old(router.View()), AllWrites(Answered(answers)))
  {
    for k := 0 to |answers|
      invariant router.View() == AfterWrites(old(router.View()), AllWrites(Answered(answers[..k])))
    {
      ghost var before := router.View();
      var _ := router.RefreshAccelerateSlots(answers[k]);
      ghost var polls := Answered(answers[..k]);
      AnsweredMore(answers, k);
      if answers[k].Some? {
        assert (polls + [answers[k].value])[..|polls|] == polls;
        AfterWritesThen(old(router.View()), AllWrites(polls), WritesOf(answers[k].value));
        if answers[k].value.toSlot > 0 {
          PollIsItsWrites(before, answers[k].value);
        } else {
          assert WritesOf(answers[k].value) == [];
        }
      } else {
        assert Answered(answers[..k + 1]) == polls;
      }
    }
    assert answers[..|answers|] == answers;
  }

  lemma AnsweredMore(answers: seq<Option<Poll>>, k: nat)
    requires k < |answers|
    ensures Answered(answers[..k + 1]) ==
            Answered(answers[..k]) + if answers[k].Some? then [answers[k].value] else []
  {
    assert answers[..k + 1][..k] == answers[..k];
  }

  lemma OneMoreSlot(slots: seq<int>, k: nat)
    requires k < |slots|
    ensures Listed(slots[..k + 1]) == Listed(slots[..k]) + if slots[k] >= 0 then {slots[k]} else {}
  {
    var a, b := slots[..k + 1], slots[..k];
    forall x: nat | x in Listed(a)
      ensures x in Listed(b) || (slots[k] >= 0 && x == slots[k])
    {
      var i :| 0 <= i < |a| && a[i] == x;
      if i < k {
        assert b[i] == x;
      }
    }
    forall x: nat | x in Listed(b)
      ensures x in Listed(a)
    {
      var i :| 0 <= i < |b| && b[i] == x;
      assert a[i] == x;
    }
    if slots[k] >= 0 {
      assert a[k] == slots[k];
    }
  }
}
