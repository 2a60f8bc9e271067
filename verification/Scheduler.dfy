/** The slot scheduler of controller/src/controller.c: absolute slot boundaries 15 ms apart, a
    jitter gate before every handler, and an epoch cut short when a sleep fails.

    The clock and the sleeps are the environment: `SlotEnv` gives, for each slot, the reading taken
    by the jitter test and whether the sleep after the slot succeeded. */
module Scheduler {
  import opened Arithmetic
  import opened FixedPoint

  const SLOT_TIME_US := 15000
  const MAX_SLOT_JITTER_US := 500
  const SLOT_COUNT := 16
  const SLOT_NS := 15_000_000
  const SEC_NS := 1_000_000_000

  type uint64 = x: int | 0 <= x < 0x1_0000_0000_0000_0000

  function WrapU64(n: nat): uint64 {
    n % 0x1_0000_0000_0000_0000
  }

  lemma EpochWraps(n: nat)
    ensures WrapU64(WrapU64(n) + 1) == WrapU64(n + 1)
  {
  }

  datatype Timespec = Timespec(sec: int, nsec: int) {
    predicate Normalised() {
      0 <= nsec < SEC_NS
    }

    function Ns(): int {
      sec * SEC_NS + nsec
    }
  }

  /** The normalised time `ns` nanoseconds after zero. */
  function FromNs(ns: int): (t: Timespec)
    ensures t.Normalised() && t.Ns() == ns
  {
    Timespec(ns / SEC_NS, ns % SEC_NS)
  }

  lemma NsInjective(s: Timespec, t: Timespec)
    requires s.Normalised() && t.Normalised() && s.Ns() == t.Ns()
    ensures s == t
  {
  }

  lemma BackToFirst(first: Timespec, i: nat)
    requires first.Normalised()
    ensures FromNs(FromNs(first.Ns() + i * SLOT_NS).Ns() - i * SLOT_NS) == first
  {
    NsInjective(first, FromNs(first.Ns()));
  }

  function AbsTimeDiffUs(now: Timespec, expected: Timespec): nat {
    var diff := (now.sec - expected.sec) * 1000000 + TruncDiv(now.nsec - expected.nsec, 1000);
    if diff < 0 then -diff else diff
  }

  predicate OnTime(now: Timespec, boundary: Timespec) {
    AbsTimeDiffUs(now, boundary) <= MAX_SLOT_JITTER_US
  }

  /** The computed difference: the magnitude of the exact offset in microseconds, rounded down when
      the nanosecond fields are in order and up when they are not. */
  lemma DiffExactly(now: Timespec, expected: Timespec)
    requires now.Normalised() && expected.Normalised()
    ensures var d := now.Ns() - expected.Ns();
            var us := if now.nsec >= expected.nsec then d / 1000 else -(-d / 1000);
            AbsTimeDiffUs(now, expected) == if us < 0 then -us else us
  {
    var sec, dn := now.sec - expected.sec, now.nsec - expected.nsec;
    assert now.Ns() - expected.Ns() == 1000 * (sec * 1000000) + dn;
    assert (1000 * (sec * 1000000) + dn) / 1000 == sec * 1000000 + dn / 1000;
    assert (1000 * (-sec * 1000000) - dn) / 1000 == -sec * 1000000 + -dn / 1000;
  }

  /** Exactly which offsets pass the gate. The truncated difference is the floor of the exact one
      when the nanosecond fields are in order and its ceiling when they are not. */
  lemma GateExactly(now: Timespec, boundary: Timespec)
    requires now.Normalised() && boundary.Normalised()
    ensures var d := now.Ns() - boundary.Ns();
            OnTime(now, boundary) <==>
              if now.nsec >= boundary.nsec then -500_000 <= d < 501_000 else -501_000 < d <= 500_000
  {
    var dn := now.nsec - boundary.nsec;
    assert now.Ns() - boundary.Ns() == (now.sec - boundary.sec) * SEC_NS + dn;
  }

  /** The gate, sandwiched: within 500 us always passes; passing means strictly within 501 us. */
  lemma GateSandwich(now: Timespec, boundary: Timespec)
    requires now.Normalised() && boundary.Normalised()
    ensures -500_000 <= now.Ns() - boundary.Ns() <= 500_000 ==> OnTime(now, boundary)
    ensures OnTime(now, boundary) ==> -501_000 < now.Ns() - boundary.Ns() < 501_000
  {
    GateExactly(now, boundary);
  }

  datatype SlotEnv = SlotEnv(now: Timespec, sleepOk: bool)

  /** One iteration of the slot loop. `epoch` counts the steps taken so far, without wrapping. */
  datatype SlotRun = SlotRun(epoch: nat, slot: nat, currentSlot: nat, boundary: Timespec,
                             now: Timespec, ran: bool, slept: bool)

  /** Where one iteration leads: the next slot of the epoch after a successful sleep, otherwise
      slot 0 of the next epoch. */
  predicate Follows(r: SlotRun, next: SlotRun) {
    if !EpochOver(r) then next.epoch == r.epoch && next.slot == r.slot + 1
    else next.epoch == r.epoch + 1 && next.slot == 0
  }

  /** No iteration of the same epoch comes after `r`. */
  predicate EpochOver(r: SlotRun) {
    !r.slept || r.slot + 1 >= SLOT_COUNT
  }

  type Registered = r: seq<bool> | |r| == SLOT_COUNT witness seq(SLOT_COUNT, _ => false)

  predicate GoodRun(start: Timespec, registered: Registered, n: nat, r: SlotRun) {
    && r.slot < SLOT_COUNT && r.currentSlot == r.slot
    && r.boundary.Normalised() && r.boundary.Ns() == start.Ns() + n * SLOT_NS
    && r.now.Normalised()
    && (r.ran <==> OnTime(r.now, r.boundary) && registered[r.slot])
  }

  /** A whole run: iteration `n` belongs to the boundary exactly `n` slots after the start. */
  predicate RunLog(start: Timespec, registered: Registered, log: seq<SlotRun>) {
    && (forall n :: 0 <= n < |log| ==> GoodRun(start, registered, n, log[n]))
    && (forall n :: 0 < n < |log| ==> Follows(log[n - 1], log[n]))
    && (log != [] ==> log[0].slot == 0 && log[0].epoch == 1)
  }

  /** Iterations that one step executes: it stops at the first failed sleep before the last slot. */
  ghost predicate Executes(env: seq<SlotEnv>, k: nat)
    requires |env| == SLOT_COUNT
  {
    && 1 <= k <= SLOT_COUNT
    && (forall i :: 0 <= i < k - 1 ==> env[i].sleepOk)
    && (k < SLOT_COUNT ==> !env[k - 1].sleepOk)
  }

  function SlotRunOf(epoch: nat, i: nat, start: Timespec, registered: Registered, e: SlotEnv): SlotRun
    requires i < SLOT_COUNT
  {
    var boundary := FromNs(start.Ns() + i * SLOT_NS);
    SlotRun(epoch, i, i, boundary, e.now, OnTime(e.now, boundary) && registered[i], e.sleepOk)
  }

  /** What the first `k` iterations of one step leave in the log. */
  function EpochRuns(epoch: nat, start: Timespec, registered: Registered, env: seq<SlotEnv>, k: nat): (runs: seq<SlotRun>)
    requires |env| == SLOT_COUNT && k <= SLOT_COUNT
    ensures |runs| == k
  {
    seq(k, i requires 0 <= i < k => SlotRunOf(epoch, i, start, registered, env[i]))
  }

  lemma EpochRunsExtend(epoch: nat, start: Timespec, registered: Registered, env: seq<SlotEnv>, k: nat)
    requires |env| == SLOT_COUNT && k < SLOT_COUNT
    ensures EpochRuns(epoch, start, registered, env, k + 1)
         == EpochRuns(epoch, start, registered, env, k) + [SlotRunOf(epoch, k, start, registered, env[k])]
  {
  }

  lemma RunLogExtends(start: Timespec, registered: Registered, log: seq<SlotRun>, r: SlotRun)
    requires RunLog(start, registered, log) && GoodRun(start, registered, |log|, r)
    requires if log == [] then r.slot == 0 && r.epoch == 1 else Follows(log[|log| - 1], r)
    ensures RunLog(start, registered, log + [r])
  {
  }

  class Controller {
    var epoch: uint64
    var currentSlot: nat
    var nextSlotStartTime: Timespec
    const registered: Registered

    ghost const start: Timespec
    ghost var steps: nat
    ghost var stepsBeforeInit: nat
    ghost var log: seq<SlotRun>

    /** No drift: the next boundary is the start plus 15 ms times every iteration ever executed,
        whatever sleeps failed. */
    ghost predicate Valid()
      reads this
    {
      && nextSlotStartTime.Normalised()
      && nextSlotStartTime.Ns() == start.Ns() + |log| * SLOT_NS
      && stepsBeforeInit <= steps && epoch == WrapU64(steps - stepsBeforeInit)
      && (log == [] <==> steps == 0)
      && (log != [] ==> EpochOver(log[|log| - 1]) && log[|log| - 1].epoch == steps)
      && RunLog(start, registered, log)
    }

    /** A zeroed controller with the start time its owner chose. */
    constructor (registered: Registered, start: Timespec)
      requires start.Normalised()
      ensures Valid() && log == [] && steps == 0 && nextSlotStartTime == start
      ensures this.start == start && this.registered == registered
    {
      epoch, currentSlot, nextSlotStartTime := 0, 0, start;
      this.registered, this.start := registered, start;
      steps, stepsBeforeInit, log := 0, 0, [];
    }

    /** `controller_init`, given how bringing up comms and storage went; it does not touch the
        boundary, so a run goes on from it. */
    method Init(commsOk: bool, storageOk: bool) returns (ok: bool)
      requires Valid()
      modifies this`epoch, this`stepsBeforeInit
      ensures Valid() && (ok <==> commsOk && storageOk)
      ensures epoch == if ok then 0 else old(epoch)
    {
      ok := true;
      if !commsOk {
        ok := false;
      }
      if ok {
        if !storageOk {
          ok := false;
        }
      }
      if ok {
        epoch := 0;
        stepsBeforeInit := steps;
      }
    }

    method AdvanceBoundary()
      requires nextSlotStartTime.Normalised()
      modifies this`nextSlotStartTime
      ensures nextSlotStartTime == FromNs(old(nextSlotStartTime.Ns()) + SLOT_NS)
    {
      nextSlotStartTime := Timespec(nextSlotStartTime.sec, nextSlotStartTime.nsec + SLOT_TIME_US * 1000);
      if nextSlotStartTime.nsec >= SEC_NS {
        nextSlotStartTime := Timespec(nextSlotStartTime.sec + 1, nextSlotStartTime.nsec % SEC_NS);
      }
      NsInjective(nextSlotStartTime, FromNs(old(nextSlotStartTime.Ns()) + SLOT_NS));
    }

    /** One iteration of the slot loop, up to its sleep. */
    method RunSlot(i: nat, e: SlotEnv)
      requires i < SLOT_COUNT && currentSlot == i && e.now.Normalised() && nextSlotStartTime.Normalised()
      requires RunLog(start, registered, log) && nextSlotStartTime.Ns() == start.Ns() + |log| * SLOT_NS
      requires if log == [] then i == 0 && steps == 1
               else var last := log[|log| - 1];
                    if i == 0 then EpochOver(last) && steps == last.epoch + 1
                    else !EpochOver(last) && steps == last.epoch && i == last.slot + 1
      modifies this`nextSlotStartTime, this`log
      ensures RunLog(start, registered, log)
      ensures log == old(log) + [SlotRunOf(steps, i, FromNs(old(nextSlotStartTime).Ns() - i * SLOT_NS), registered, e)]
      ensures nextSlotStartTime == FromNs(old(nextSlotStartTime).Ns() + SLOT_NS)
    {
      var onTime := OnTime(e.now, nextSlotStartTime);
      var ran := false;
      if onTime {
        if registered[i] {
          ran := true;  // g_slot_handlers[i](controller, controller->epoch)
        }
      }
      ghost var run := SlotRun(steps, i, currentSlot, nextSlotStartTime, e.now, ran, e.sleepOk);
      NsInjective(nextSlotStartTime, FromNs(nextSlotStartTime.Ns()));
      assert run == SlotRunOf(steps, i, FromNs(nextSlotStartTime.Ns() - i * SLOT_NS), registered, e);
      RunLogExtends(start, registered, log, run);
      log := log + [run];
      AdvanceBoundary();
    }

    /** The same iteration, as part of the epoch that began at boundary `first` with log `before`. */
    method RunNextSlot(i: nat, env: seq<SlotEnv>, ghost first: Timespec, ghost before: seq<SlotRun>)
      requires i < SLOT_COUNT == |env| && currentSlot == i && env[i].now.Normalised()
      requires first.Normalised() && nextSlotStartTime == FromNs(first.Ns() + i * SLOT_NS)
      requires RunLog(start, registered, log) && nextSlotStartTime.Ns() == start.Ns() + |log| * SLOT_NS
      requires log == before + EpochRuns(steps, first, registered, env, i)
      requires if before == [] then steps == 1
               else EpochOver(before[|before| - 1]) && steps == before[|before| - 1].epoch + 1
      requires i > 0 ==> env[i - 1].sleepOk
      modifies this`nextSlotStartTime, this`log
      ensures RunLog(start, registered, log)
      ensures log == before + EpochRuns(steps, first, registered, env, i + 1)
      ensures nextSlotStartTime == FromNs(first.Ns() + (i + 1) * SLOT_NS)
    {
      BackToFirst(first, i);
      assert i > 0 ==> log[|log| - 1] == SlotRunOf(steps, i - 1, first, registered, env[i - 1]);
      RunSlot(i, env[i]);
      EpochRunsExtend(steps, first, registered, env, i);
    }

    /** The slot loop of one epoch; stops after the first failed sleep before the last slot. */
    method RunSlots(env: seq<SlotEnv>) returns (ok: bool, ghost executed: nat)
      requires |env| == SLOT_COUNT && forall i :: 0 <= i < SLOT_COUNT ==> env[i].now.Normalised()
      requires currentSlot == 0 && nextSlotStartTime.Normalised()
      requires RunLog(start, registered, log) && nextSlotStartTime.Ns() == start.Ns() + |log| * SLOT_NS
      requires if log == [] then steps == 1 else EpochOver(log[|log| - 1]) && steps == log[|log| - 1].epoch + 1
      modifies this`nextSlotStartTime, this`log, this`currentSlot
      ensures RunLog(start, registered, log)
      ensures nextSlotStartTime == FromNs(old(nextSlotStartTime.Ns()) + executed * SLOT_NS)
      ensures Executes(env, executed) && currentSlot == executed - 1
      ensures ok <==> forall i :: 0 <= i < SLOT_COUNT - 1 ==> env[i].sleepOk
      ensures log == old(log) + EpochRuns(steps, old(nextSlotStartTime), registered, env, executed)
    {
      ok := true;
      executed := 0;
      ghost var first, before := nextSlotStartTime, log;
      NsInjective(first, FromNs(first.Ns()));
      for i := 0 to SLOT_COUNT
        invariant ok && executed == i && currentSlot == if i < SLOT_COUNT then i else i - 1
        invariant nextSlotStartTime == FromNs(first.Ns() + i * SLOT_NS)
        invariant log == before + EpochRuns(steps, first, registered, env, i)
        invariant forall j :: 0 <= j < i && j < SLOT_COUNT - 1 ==> env[j].sleepOk
        invariant RunLog(start, registered, log)
      {
        RunNextSlot(i, env, first, before);
        executed := executed + 1;
        if i < SLOT_COUNT - 1 {
          if !env[i].sleepOk {
            ok := false;
            break;
          }
          currentSlot := currentSlot + 1;
        }
      }
    }

    /** One epoch. */
    method Step(env: seq<SlotEnv>) returns (ok: bool, ghost executed: nat)
      requires Valid() && |env| == SLOT_COUNT && forall i :: 0 <= i < SLOT_COUNT ==> env[i].now.Normalised()
      modifies this
      ensures Valid() && steps == old(steps) + 1 && epoch == WrapU64(old(epoch) + 1)
      ensures ok <==> forall i :: 0 <= i < SLOT_COUNT ==> env[i].sleepOk
      ensures Executes(env, executed) && currentSlot == executed - 1
      ensures log == old(log) + EpochRuns(steps, old(nextSlotStartTime), registered, env, executed)
    {
      EpochWraps(steps - stepsBeforeInit);
      epoch := WrapU64(epoch + 1);
      currentSlot := 0;
      steps := steps + 1;
      ok, executed := RunSlots(env);
      assert log[|log| - 1] == SlotRunOf(steps, executed - 1, old(nextSlotStartTime), registered, env[executed - 1]);
      if ok && !env[SLOT_COUNT - 1].sleepOk {
        ok := false;
      }
    }
  }

  // Timing of whole runs

  /** A sleep that succeeds returns at or after its deadline. */
  ghost predicate HonestSleeps(log: seq<SlotRun>) {
    forall n :: 0 < n < |log| && log[n - 1].slept ==> log[n].now.Ns() >= log[n].boundary.Ns()
  }

  /** Offset of iteration `n` from its boundary, in nanoseconds. */
  ghost function Late(log: seq<SlotRun>, n: nat): int
    requires n < |log|
  {
    log[n].now.Ns() - log[n].boundary.Ns()
  }

  ghost predicate AfterSleep(log: seq<SlotRun>, n: nat) {
    0 < n < |log| && log[n - 1].slept
  }

  /** Iteration n belongs to the boundary 15n ms after the start, and runs the handler of its slot
      exactly if one is registered and the clock is within the jitter limit. */
  lemma DispatchExactly(start: Timespec, registered: Registered, log: seq<SlotRun>, n: nat)
    requires RunLog(start, registered, log) && n < |log|
    ensures log[n].slot < 16 && log[n].boundary.Normalised() && log[n].boundary.Ns() == start.Ns() + 15_000_000 * n
    ensures log[n].ran <==>
              && registered[log[n].slot]
              && var d := log[n].now.Ns() - log[n].boundary.Ns();
                 if log[n].now.nsec >= log[n].boundary.nsec then -500_000 <= d < 501_000 else -501_000 < d <= 500_000
  {
    assert GoodRun(start, registered, n, log[n]);
    GateExactly(log[n].now, log[n].boundary);
  }

  /** Every handler dispatched after a sleep starts in [boundary, boundary + 501 us). */
  lemma DispatchWindow(start: Timespec, registered: Registered, log: seq<SlotRun>, n: nat)
    requires RunLog(start, registered, log) && HonestSleeps(log)
    requires AfterSleep(log, n) && log[n].ran
    ensures 0 <= Late(log, n) < 501_000
  {
    GateSandwich(log[n].now, log[n].boundary);
  }

  /** Two dispatches k slots apart are 15k ms apart to within 501 us. */
  lemma DispatchSpacing(start: Timespec, registered: Registered, log: seq<SlotRun>, m: nat, n: nat)
    requires RunLog(start, registered, log) && HonestSleeps(log) && m < n
    requires AfterSleep(log, m) && AfterSleep(log, n) && log[m].ran && log[n].ran
    ensures -501_000 < log[n].now.Ns() - log[m].now.Ns() - (n - m) * SLOT_NS < 501_000
  {
    DispatchWindow(start, registered, log, m);
    DispatchWindow(start, registered, log, n);
    assert GoodRun(start, registered, m, log[m]) && GoodRun(start, registered, n, log[n]);
    assert n * SLOT_NS - m * SLOT_NS == (n - m) * SLOT_NS;
  }

  /** Epochs never go back, and within one epoch slots strictly increase: a handler runs at most
      once per epoch, in slot order. */
  lemma {:induction false} SlotOrder(start: Timespec, registered: Registered, log: seq<SlotRun>, m: nat, n: nat)
    requires RunLog(start, registered, log) && m < n < |log|
    ensures log[m].epoch <= log[n].epoch
    ensures log[m].epoch == log[n].epoch ==> log[n].slot == log[m].slot + (n - m)
    decreases n
  {
    assert Follows(log[n - 1], log[n]);
    if m < n - 1 {
      SlotOrder(start, registered, log, m, n - 1);
    }
  }

  // Recovery from a late start

  /** Iterations m..n-1 were skipped, each sleep succeeded, and the wake-up after a skipped slot
      comes at most `w` after the later of the test and the deadline. */
  ghost predicate SkippedWithin(log: seq<SlotRun>, m: nat, n: nat, w: nat) {
    && m <= n < |log|
    && forall j :: m <= j < n ==>
         && !OnTime(log[j].now, log[j].boundary) && log[j].slept
         && (log[j + 1].now.Ns() <= log[j].now.Ns() + w || log[j + 1].now.Ns() <= log[j + 1].boundary.Ns() + w)
  }

  /** From iteration `n` to the next the lateness falls by a slot less `w`, or to `w`. */
  ghost predicate Gains(log: seq<SlotRun>, n: nat, w: nat) {
    n + 1 < |log| && (Late(log, n + 1) <= w || Late(log, n + 1) <= Late(log, n) - (SLOT_NS - w))
  }

  lemma LateStep(start: Timespec, registered: Registered, log: seq<SlotRun>, m: nat, n: nat, w: nat)
    requires RunLog(start, registered, log) && SkippedWithin(log, m, n, w)
    ensures forall j: nat :: m <= j < n ==> Gains(log, j, w)
  {
    forall j: nat | m <= j < n
      ensures Gains(log, j, w)
    {
      assert GoodRun(start, registered, j, log[j]) && GoodRun(start, registered, j + 1, log[j + 1]);
    }
  }

  lemma {:induction false} GainsAddUp(log: seq<SlotRun>, m: nat, n: nat, w: nat)
    requires m < n < |log| && w < SLOT_NS && forall j: nat :: m <= j < n ==> Gains(log, j, w)
    ensures Late(log, n) <= w || Late(log, n) <= Late(log, m) - (n - m) * (SLOT_NS - w)
    decreases n
  {
    assert Gains(log, n - 1, w);
    if m < n - 1 {
      GainsAddUp(log, m, n - 1, w);
      OneMore(Late(log, n), Late(log, n - 1), Late(log, m), m, n, w);
    }
  }

  lemma OneMore(next: int, late: int, first: int, m: nat, n: nat, w: nat)
    requires m < n - 1 && w < SLOT_NS
    requires next <= w || next <= late - (SLOT_NS - w)
    requires late <= w || late <= first - (n - 1 - m) * (SLOT_NS - w)
    ensures next <= w || next <= first - (n - m) * (SLOT_NS - w)
  {
    Distribute(n - 1 - m, 1, SLOT_NS - w);
  }

  /** While late by a slot or more, each skipped slot recovers at least 15 ms - w; from there one
      slot brings the lateness to `w`, and it stays. */
  lemma LatenessFalls(start: Timespec, registered: Registered, log: seq<SlotRun>, m: nat, n: nat, w: nat)
    requires RunLog(start, registered, log) && w < SLOT_NS && m < n
    requires SkippedWithin(log, m, n, w)
    ensures Late(log, n) <= w || Late(log, n) <= Late(log, m) - (n - m) * (SLOT_NS - w)
  {
    LateStep(start, registered, log, m, n, w);
    GainsAddUp(log, m, n, w);
  }

  /** With wake-ups within `w` <= 500 us, no run skips more than Late/(15 ms - w) + 1 slots in a row:
      `k` skipped slots that make up the initial lateness force the next test to pass. */
  lemma LateStartRecovers(start: Timespec, registered: Registered, log: seq<SlotRun>, m: nat, k: nat, w: nat)
    requires RunLog(start, registered, log) && HonestSleeps(log)
    requires w <= MAX_SLOT_JITTER_US * 1000 && k >= 1
    requires SkippedWithin(log, m, m + k, w)
    requires Late(log, m) <= w + k * (SLOT_NS - w)
    ensures 0 <= Late(log, m + k) <= w && OnTime(log[m + k].now, log[m + k].boundary)
  {
    LatenessFalls(start, registered, log, m, m + k, w);
    assert log[m + k - 1].slept && AfterSleep(log, m + k);
    assert GoodRun(start, registered, m + k, log[m + k]);
    GateSandwich(log[m + k].now, log[m + k].boundary);
  }
}
