/** Slot arithmetic on nanosecond times, and the window of a slot in which the aggregator may emit. */
module SlotGate {
  import opened Bytes

  const SECOND := 1_000_000_000
  const MILLI := 1_000_000
  const SLOT := 12 * SECOND
  const MAX_INT64 := 0x7fff_ffff_ffff_ffff

  /** Two's complement truncation to 64 bits. */
  function Wrap64(x: int): int { (x + MAX_INT64 + 1) % TWO64 - MAX_INT64 - 1 }

  /** The difference of two times, saturating like a duration. */
  function Sub(t: int, u: int): int {
    if t - u > MAX_INT64 then MAX_INT64 else if t - u < -MAX_INT64 - 1 then -MAX_INT64 - 1 else t - u
  }

  function SlotAt(genesis: int, t: int): nat {
    if t <= genesis then 0 else Sub(t, genesis) / SECOND / 12
  }

  function SlotStartTime(genesis: int, slot: nat): int {
    genesis + Wrap64(Wrap64(slot * 12 % TWO64) * SECOND)
  }

  lemma WrapSmall(x: int)
    requires 0 <= x <= MAX_INT64
    ensures Wrap64(x) == x
  {
  }

  lemma WrapNext(x: int)
    requires MAX_INT64 < x < TWO64
    ensures Wrap64(x) == x - TWO64
  {
  }

  lemma SlotAtBounds(genesis: int, t: int)
    requires t > genesis
    ensures SlotAt(genesis, t) * SLOT <= Sub(t, genesis) < (SlotAt(genesis, t) + 1) * SLOT
  {
    var x := Sub(t, genesis);
    assert x == x / SECOND * SECOND + x % SECOND;
    assert x / SECOND == x / SECOND / 12 * 12 + x / SECOND % 12;
  }

  lemma SlotStartExact(genesis: int, slot: nat)
    requires slot * SLOT <= MAX_INT64
    ensures SlotStartTime(genesis, slot) == genesis + slot * SLOT
  {
    WrapSmall(slot * 12);
    WrapSmall(slot * SLOT);
  }

  lemma SlotStartWraps(genesis: int, slot: nat)
    requires MAX_INT64 < slot * SLOT <= MAX_INT64 + SLOT
    ensures SlotStartTime(genesis, slot) < genesis
  {
    WrapSmall(slot * 12);
    WrapNext(slot * SLOT);
  }

  /** A time lies in its slot, exactly when genesis is past and the next slot's offset still fits a duration. */
  lemma SlotBrackets(genesis: int, t: int)
    ensures SlotStartTime(genesis, SlotAt(genesis, t)) <= t < SlotStartTime(genesis, SlotAt(genesis, t) + 1)
       <==> t >= genesis && (SlotAt(genesis, t) + 1) * 12_000_000_000 <= 0x7fff_ffff_ffff_ffff
  {
    var s := SlotAt(genesis, t);
    if t <= genesis {
      SlotStartExact(genesis, 0);
      SlotStartExact(genesis, 1);
    } else {
      SlotAtBounds(genesis, t);
      SlotStartExact(genesis, s);
      if (s + 1) * SLOT <= MAX_INT64 {
        SlotStartExact(genesis, s + 1);
      } else {
        SlotStartWraps(genesis, s + 1);
      }
    }
  }

  /** Slots are twelve seconds, counted from genesis, as long as the next slot's offset fits a duration. */
  lemma SlotByDivision(genesis: int, t: int)
    requires t >= genesis && (SlotAt(genesis, t) + 1) * SLOT <= MAX_INT64
    ensures SlotAt(genesis, t) == (t - genesis) / 12_000_000_000
    ensures SlotStartTime(genesis, SlotAt(genesis, t)) == genesis + (t - genesis) / 12_000_000_000 * 12_000_000_000
  {
    hide SlotAt;
    var s := SlotAt(genesis, t);
    SlotBrackets(genesis, t);
    SlotStartExact(genesis, s);
    SlotStartExact(genesis, s + 1);
    assert s * 12_000_000_000 <= t - genesis < s * 12_000_000_000 + 12_000_000_000;
  }

  // ---------- the gate ----------

  /** Milliseconds, rounded down. */
  function Ms(t: int): int { t / MILLI }

  /** No-block fallback and cap, as durations. */
  datatype Gate = Gate(fallback: int, cap: int)

  const DEFAULT_GATE := Gate(4 * SECOND, 8 * SECOND)
  const BLOCK_DELAY_MS := 2000

  /** Whether the aggregator keeps what it has: no configuration and a non-positive fallback never hold. */
  predicate Holds(cfg: Option<Gate>, genesis: int, now: int, lastBlockMs: int) {
    cfg.Some? && cfg.value.fallback > 0 &&
    var slotStart := SlotStartTime(genesis, SlotAt(genesis, now));
    var elapsed := Sub(now, slotStart);
    var release :=
      if lastBlockMs > 0 && lastBlockMs > Ms(slotStart) then Ms(now) >= lastBlockMs + BLOCK_DELAY_MS
      else Ms(now) >= Ms(slotStart + cfg.value.fallback);
    !release || (cfg.value.cap > 0 && elapsed >= cfg.value.cap)
  }

  /** A history of block arrivals and ticks. */
  datatype Moment = BlockSeen(at: int) | Tick(at: int)

  predicate Ordered(h: seq<Moment>) { forall i, j :: 0 <= i < j < |h| ==> h[i].at <= h[j].at }

  /** What the last arrival stamped, 0 before any. */
  function LastBlockMs(h: seq<Moment>): int {
    if h == [] then 0
    else if h[|h| - 1].BlockSeen? then Ms(h[|h| - 1].at)
    else LastBlockMs(h[..|h| - 1])
  }

  predicate NoBlocks(h: seq<Moment>) { forall i :: 0 <= i < |h| ==> !h[i].BlockSeen? }

  lemma {:induction false} LastIsLatest(h: seq<Moment>)
    requires Ordered(h)
    ensures forall i :: 0 <= i < |h| && h[i].BlockSeen? ==> Ms(h[i].at) <= LastBlockMs(h)
    ensures NoBlocks(h) ==> LastBlockMs(h) == 0
    ensures !NoBlocks(h) ==> exists i :: 0 <= i < |h| && h[i].BlockSeen? && LastBlockMs(h) == Ms(h[i].at)
  {
    if h != [] {
      var n := |h| - 1;
      LastIsLatest(h[..n]);
      assert forall i :: 0 <= i < n ==> h[..n][i] == h[i];
    }
  }

  /** What may be said of an emission at `now`: its slot's window, and its distance from this slot's blocks. */
  predicate InWindow(genesis: int, h: seq<Moment>, now: int) {
    var start := SlotStartTime(genesis, SlotAt(genesis, now));
    && 2 * SECOND < now - start < 8 * SECOND
    && (forall i :: 0 <= i < |h| && h[i].BlockSeen? && h[i].at >= start ==> Ms(now) >= Ms(h[i].at) + 2000)
    && ((forall i :: 0 <= i < |h| && h[i].BlockSeen? ==> h[i].at < start) ==> now - start >= 4 * SECOND)
  }

  /** Genesis is a whole second after the epoch, and the current slot's end is in range. */
  predicate Sane(genesis: int, now: int) {
    && genesis > 0 && genesis % SECOND == 0
    && now >= genesis && (SlotAt(genesis, now) + 1) * SLOT <= MAX_INT64
  }

  lemma SlotStartIs(genesis: int, now: int)
    requires Sane(genesis, now)
    ensures var start := SlotStartTime(genesis, SlotAt(genesis, now));
            && start <= now < start + SLOT && start == genesis + SlotAt(genesis, now) * SLOT
            && Sub(now, start) == now - start && start % SECOND == 0 && start > 0
  {
    hide SlotAt;
    SlotBrackets(genesis, now);
    SlotStartExact(genesis, SlotAt(genesis, now));
    SlotStartExact(genesis, SlotAt(genesis, now) + 1);
    WholeSeconds(genesis, SlotAt(genesis, now));
  }

  lemma WholeSeconds(genesis: int, slot: nat)
    requires genesis % SECOND == 0
    ensures (genesis + slot * SLOT) % SECOND == 0
  {
    assert slot * SLOT == slot * 12 * SECOND;
  }

  lemma MsOfWholeSecond(start: int, d: int)
    requires start % SECOND == 0
    ensures Ms(start + d * SECOND) == Ms(start) + d * 1000 && Ms(start) * MILLI == start
  {
  }

  /**
   * When a gate is open, said of the blocks of the history: those past the slot's first millisecond, the fallback,
   * the cap.
   */
  predicate Opens(gate: Gate, genesis: int, h: seq<Moment>, now: int) {
    var start := SlotStartTime(genesis, SlotAt(genesis, now));
    && (forall i :: 0 <= i < |h| && h[i].BlockSeen? && Ms(h[i].at) > Ms(start) ==>
        Ms(now) >= Ms(h[i].at) + 2000)
    && ((forall i :: 0 <= i < |h| && h[i].BlockSeen? ==> Ms(h[i].at) <= Ms(start)) ==>
        Ms(now) >= Ms(start + gate.fallback))
    && (gate.cap > 0 ==> now - start < gate.cap)
  }

  /**
   * For every gate with a fallback and every ordered history, the gate lets an emission out exactly when it is open.
   */
  lemma GateExactly(gate: Gate, genesis: int, h: seq<Moment>, now: int)
    requires gate.fallback > 0 && Ordered(h + [Tick(now)]) && Sane(genesis, now)
    ensures !Holds(Some(gate), genesis, now, LastBlockMs(h)) <==> Opens(gate, genesis, h, now)
  {
    hide SlotAt, SlotStartTime, LastBlockMs;
    var e := h + [Tick(now)];
    assert forall i :: 0 <= i < |h| ==> e[i] == h[i];
    assert Ordered(h);
    SlotStartIs(genesis, now);
    LastIsLatest(h);
  }

  /**
   * The default gate in numbers, from the slot's start in nanoseconds.  A tick is held if and only if it comes 8 s into
   * the slot or later, or less than 2000 ms after a block seen past the slot's first millisecond, or, when there is no
   * such block, before 4 s.
   */
  lemma DefaultGateExactly(genesis: int, h: seq<Moment>, now: int)
    requires Ordered(h + [Tick(now)]) && Sane(genesis, now)
    ensures var start := genesis + (now - genesis) / 12_000_000_000 * 12_000_000_000;
            Holds(Some(DEFAULT_GATE), genesis, now, LastBlockMs(h)) <==>
            || now - start >= 8_000_000_000
            || (exists i :: 0 <= i < |h| && h[i].BlockSeen? && h[i].at / 1_000_000 > start / 1_000_000
                            && now / 1_000_000 < h[i].at / 1_000_000 + 2000)
            || ((forall i :: 0 <= i < |h| && h[i].BlockSeen? ==> h[i].at / 1_000_000 <= start / 1_000_000)
                && now - start < 4_000_000_000)
  {
    hide SlotAt, SlotStartTime, LastBlockMs, Holds;
    SlotByDivision(genesis, now);
    SlotStartIs(genesis, now);
    var start := SlotStartTime(genesis, SlotAt(genesis, now));
    MsOfWholeSecond(start, 4);
    GateExactly(DEFAULT_GATE, genesis, h, now);
  }

  /** Without a configuration or a positive fallback nothing is held; without a cap nothing is late. */
  lemma NoGate(cfg: Option<Gate>, genesis: int, now: int, lastBlockMs: int)
    ensures cfg.None? || cfg.value.fallback <= 0 ==> !Holds(cfg, genesis, now, lastBlockMs)
    ensures cfg.Some? && cfg.value.cap <= 0 && Holds(cfg, genesis, now, lastBlockMs) ==>
              var start := SlotStartTime(genesis, SlotAt(genesis, now)) / 1_000_000;
              now / 1_000_000 < if lastBlockMs > 0 && lastBlockMs > start then lastBlockMs + 2000
                                else (SlotStartTime(genesis, SlotAt(genesis, now)) + cfg.value.fallback) / 1_000_000
  {
    hide SlotAt, SlotStartTime;
  }

  /** For every ordered history of arrivals and ticks, whatever is emitted at its last tick falls into the window. */
  lemma EmissionsInWindow(genesis: int, h: seq<Moment>, now: int)
    requires Ordered(h + [Tick(now)]) && Sane(genesis, now)
    requires !Holds(Some(DEFAULT_GATE), genesis, now, LastBlockMs(h))
    ensures InWindow(genesis, h, now)
  {
    hide SlotAt, SlotStartTime, LastBlockMs;
    var start := SlotStartTime(genesis, SlotAt(genesis, now));
    var e := h + [Tick(now)];
    assert forall i :: 0 <= i < |h| ==> e[i] == h[i];
    assert Ordered(h);
    SlotStartIs(genesis, now);
    MsOfWholeSecond(start, 4);
    LastIsLatest(h);
  }

  /** Absent a new block an open gate stays open until the cap. */
  lemma OpenGateStaysOpen(genesis: int, lastBlockMs: int, now: int, later: int)
    requires Sane(genesis, now) && Sane(genesis, later) && now <= later
    requires SlotAt(genesis, later) == SlotAt(genesis, now)
    requires !Holds(Some(DEFAULT_GATE), genesis, now, lastBlockMs)
    ensures Holds(Some(DEFAULT_GATE), genesis, later, lastBlockMs)
       <==> later - SlotStartTime(genesis, SlotAt(genesis, later)) >= 8 * SECOND
  {
    hide SlotAt, SlotStartTime;
    SlotStartIs(genesis, now);
    SlotStartIs(genesis, later);
  }

  /** The gate opens in every slot: from 4 s after the slot's start, or 2 s after its last block, to the cap. */
  lemma GateOpens(genesis: int, h: seq<Moment>, now: int)
    requires Ordered(h + [Tick(now)]) && Sane(genesis, now)
    requires 4 * SECOND <= now - SlotStartTime(genesis, SlotAt(genesis, now)) < 8 * SECOND
    requires NoBlocks(h) || Ms(now) >= LastBlockMs(h) + 2000
    ensures !Holds(Some(DEFAULT_GATE), genesis, now, LastBlockMs(h))
  {
    hide SlotAt, SlotStartTime, LastBlockMs;
    var start := SlotStartTime(genesis, SlotAt(genesis, now));
    var e := h + [Tick(now)];
    assert forall i :: 0 <= i < |h| ==> e[i] == h[i];
    assert Ordered(h);
    SlotStartIs(genesis, now);
    MsOfWholeSecond(start, 4);
    LastIsLatest(h);
  }
}
