/** Reads that return a payload committed at no moment, and exactly when the command page has them. */
module SeqlockTorn {
  import opened Bytes
  import opened SeqlockProtocol
  import opened SeqlockSafety
  import opened SeqlockReads

  // One whole section, uninterrupted

  function Writes(id: nat, n: nat): seq<Event> {
    if n == 0 then [] else [Write(id)] + Writes(id, n - 1)
  }

  /** Load, CAS, the stores, the step to the end, load, CAS. */
  function WholeSection(plan: seq<Store>, id: nat): seq<Event> {
    Writes(id, |plan| + 5)
  }

  lemma {:induction false} AppliedLockByte(page: Page, stores: seq<Store>, b: byte)
    ensures Applied(page[0 := b], stores) == Applied(page, stores)[0 := b]
    decreases |stores|
  {
    if stores != [] {
      AppliedLockByte(page, stores[..|stores| - 1], b);
    }
  }

  lemma {:induction false} AppliedByteOrBase(p: Page, q: Page, stores: seq<Store>, x: nat)
    requires x < PAGE_SIZE
    ensures Applied(p, stores)[x] == Applied(q, stores)[x]
         || (Applied(p, stores)[x] == p[x] && Applied(q, stores)[x] == q[x])
    decreases |stores|
  {
    if stores != [] {
      AppliedByteOrBase(p, q, stores[..|stores| - 1], x);
    }
  }

  lemma AppliedTwice(page: Page, stores: seq<Store>)
    ensures Applied(Applied(page, stores), stores) == Applied(page, stores)
  {
    forall x | 0 <= x < PAGE_SIZE
      ensures Applied(Applied(page, stores), stores)[x] == Applied(page, stores)[x]
    {
      AppliedByteOrBase(page, Applied(page, stores), stores, x);
    }
  }

  /** The writer holds the lock and has made its first `k` stores. */
  function Inside(plan: seq<Store>, s: State, id: nat, k: nat): State
    requires id < |s.writers| && k <= |plan|
  {
    s.(page := Applied(s.page[0 := Toggle(s.page[0])], plan[..k]), writers := s.writers[id := Body(k)])
  }

  lemma {:induction false} RunStores(plans: Plans, s: State, id: nat, k: nat, more: nat)
    requires |s.writers| == |plans| && id < |plans| && k <= |plans[id]|
    ensures Run(plans, Inside(plans[id], s, id, k), Writes(id, |plans[id]| - k + more))
         == Run(plans, Inside(plans[id], s, id, |plans[id]|), Writes(id, more))
    decreases |plans[id]| - k
  {
    var plan := plans[id];
    if k < |plan| {
      var here, next := Inside(plan, s, id, k), Inside(plan, s, id, k + 1);
      AppliedExtend(s.page[0 := Toggle(s.page[0])], plan, k);
      assert here.writers[id := Body(k + 1)] == next.writers;
      assert Step(plans, here, Write(id)) == next;
      RunFirst(plans, here, Write(id), Writes(id, |plan| - (k + 1) + more));
      RunStores(plans, s, id, k + 1, more);
    }
  }

  lemma RunLocking(plans: Plans, s: State, id: nat, more: nat)
    requires |s.writers| == |plans| && id < |plans| && s.writers[id] == BeginLoad(0) && !Odd(s.page[0])
    ensures Run(plans, s, Writes(id, more + 2)) == Run(plans, Inside(plans[id], s, id, 0), Writes(id, more))
  {
    var s1 := s.(writers := s.writers[id := BeginCas(0, s.page[..4])]);
    var s2 := Inside(plans[id], s, id, 0);
    assert Step(plans, s, Write(id)) == s1;
    assert Step(plans, s1, Write(id)) == s2 by {
      assert s.page[..4][0] == s.page[0];
      assert plans[id][..0] == [];
      assert s1.writers[id := Body(0)] == s2.writers;
    }
    RunFirst(plans, s, Write(id), Writes(id, more + 1));
    RunFirst(plans, s1, Write(id), Writes(id, more));
  }

  lemma RunUnlocking(plans: Plans, s: State, id: nat)
    requires |s.writers| == |plans| && id < |plans| && !Odd(s.page[0])
    ensures Run(plans, Inside(plans[id], s, id, |plans[id]|), Writes(id, 3))
         == s.(page := Applied(s.page, plans[id]), writers := s.writers[id := Done], log := s.log + [id])
  {
    var plan, b := plans[id], Toggle(s.page[0]);
    assert plan[..|plan|] == plan;
    AppliedLockByte(s.page, plan, b);
    var page := Applied(s.page, plan)[0 := b];
    var s0 := s.(page := page, writers := s.writers[id := Body(|plan|)]);
    var s1 := s.(page := page, writers := s.writers[id := EndLoad(0)]);
    var s2 := s.(page := page, writers := s.writers[id := EndCas(0, page[..4])]);
    var s3 := s.(page := Applied(s.page, plan), writers := s.writers[id := Done], log := s.log + [id]);
    assert Step(plans, s0, Write(id)) == s1 by { assert s0.writers[id := EndLoad(0)] == s1.writers; }
    assert Step(plans, s1, Write(id)) == s2 by { assert s1.writers[id := EndCas(0, page[..4])] == s2.writers; }
    assert Step(plans, s2, Write(id)) == s3 by {
      assert page[..4][0] == b;
      assert page[0 := s.page[0]] == Applied(s.page, plan);
      assert s2.writers[id := Done] == s3.writers;
    }
    RunFirst(plans, s0, Write(id), Writes(id, 2));
    RunFirst(plans, s1, Write(id), Writes(id, 1));
    RunFirst(plans, s2, Write(id), Writes(id, 0));
  }

  lemma RunWholeSection(plans: Plans, s: State, id: nat)
    requires |s.writers| == |plans| && id < |plans| && s.writers[id] == BeginLoad(0) && !Odd(s.page[0])
    ensures Run(plans, s, WholeSection(plans[id], id))
         == s.(page := Applied(s.page, plans[id]), writers := s.writers[id := Done], log := s.log + [id])
  {
    RunLocking(plans, s, id, |plans[id]| + 3);
    RunStores(plans, s, id, 0, 3);
    RunUnlocking(plans, s, id);
  }

  // A read overtaken by whole sections

  /** Writers that all store `plan`, each once. */
  ghost predicate AllStore(plans: Plans, plan: seq<Store>, order: seq<nat>) {
    && (forall n :: 0 <= n < |order| ==> order[n] < |plans| && plans[order[n]] == plan)
    && (forall m, n :: 0 <= m < n < |order| ==> order[m] != order[n])
  }

  function Sections(plan: seq<Store>, order: seq<nat>): seq<Event>
    decreases |order|
  {
    if order == [] then []
    else Sections(plan, order[..|order| - 1]) + WholeSection(plan, order[|order| - 1])
  }

  function CopyFrom(x: PayloadIndex): seq<Event>
    decreases PAGE_SIZE - x
  {
    [CopyByte(0, x)] + if x + 1 < PAGE_SIZE then CopyFrom(x + 1) else []
  }

  /** The reader copies byte `i`, then the sections go by, then it copies the rest. */
  function TornSchedule(plan: seq<Store>, order: seq<nat>, i: PayloadIndex): seq<Event> {
    [Read(0), CopyByte(0, i)] + Sections(plan, order) + (CopyFrom(1) + [Read(0)])
  }

  /** The first `n` writers of `order` have finished since the reader copied byte `i`. */
  function Overtaken(plans: Plans, plan: seq<Store>, init: Page, order: seq<nat>, i: PayloadIndex, n: nat): State
    requires n <= |order|
  {
    State(if n == 0 then init else Applied(init, plan),
          seq(|plans|, x => if x in order[..n] then Done else BeginLoad(0)),
          [Copying(0, init[0], map[i := init[i]], 0)],
          order[..n])
  }

  lemma TornStart(plans: Plans, plan: seq<Store>, init: Page, order: seq<nat>, i: PayloadIndex)
    requires !Odd(init[0])
    ensures Run(plans, Start(plans, init, 1), [Read(0), CopyByte(0, i)]) == Overtaken(plans, plan, init, order, i, 0)
  {
    var s0 := Start(plans, init, 1);
    assert s0 == State(init, seq(|plans|, _ => BeginLoad(0)), [Idle(0)], []);
    var s1 := s0.(readers := [Copying(0, init[0], map[], 0)]);
    var s2 := Overtaken(plans, plan, init, order, i, 0);
    assert Step(plans, s0, Read(0)) == s1;
    assert s0.writers == s2.writers;
    assert Step(plans, s1, CopyByte(0, i)) == s2;
    RunOne(plans, s0, Read(0));
    RunOne(plans, s1, CopyByte(0, i));
    RunJoin(plans, s0, [Read(0)], [CopyByte(0, i)], s1, s2);
    assert [Read(0)] + [CopyByte(0, i)] == [Read(0), CopyByte(0, i)];
  }

  lemma OvertakenNext(plans: Plans, plan: seq<Store>, init: Page, order: seq<nat>, i: PayloadIndex, n: nat)
    requires !Odd(init[0]) && AllStore(plans, plan, order) && n < |order|
    ensures Run(plans, Overtaken(plans, plan, init, order, i, n), WholeSection(plan, order[n]))
         == Overtaken(plans, plan, init, order, i, n + 1)
  {
    var here, next, id := Overtaken(plans, plan, init, order, i, n), Overtaken(plans, plan, init, order, i, n + 1), order[n];
    assert id !in order[..n];
    assert order[..n + 1] == order[..n] + [id];
    RunWholeSection(plans, here, id);
    AppliedTwice(init, plan);
    assert here.writers[id := Done] == next.writers;
  }

  lemma {:induction false} TornSections(plans: Plans, plan: seq<Store>, init: Page, order: seq<nat>, i: PayloadIndex, n: nat)
    requires !Odd(init[0]) && AllStore(plans, plan, order) && n <= |order|
    ensures Run(plans, Overtaken(plans, plan, init, order, i, 0), Sections(plan, order[..n]))
         == Overtaken(plans, plan, init, order, i, n)
    decreases n
  {
    if n > 0 {
      TornSections(plans, plan, init, order, i, n - 1);
      OvertakenNext(plans, plan, init, order, i, n - 1);
      assert order[..n][..n - 1] == order[..n - 1];
      RunJoin(plans, Overtaken(plans, plan, init, order, i, 0), Sections(plan, order[..n - 1]),
        WholeSection(plan, order[n - 1]), Overtaken(plans, plan, init, order, i, n - 1),
        Overtaken(plans, plan, init, order, i, n));
    }
  }

  /** The buffer once everything from `x` on that is not there yet is copied from `page`. */
  ghost predicate CopiedRest(buf: map<PayloadIndex, byte>, before: map<PayloadIndex, byte>, page: Page) {
    Complete(buf) && forall y: PayloadIndex :: buf[y] == if y in before then before[y] else page[y]
  }

  lemma {:induction false} RunCopyFrom(plans: Plans, s: State, x: PayloadIndex) returns (buf: map<PayloadIndex, byte>)
    requires |s.writers| == |plans| && |s.readers| == 1 && s.readers[0].Copying?
    requires forall y: PayloadIndex :: y < x ==> y in s.readers[0].buf
    ensures CopiedRest(buf, s.readers[0].buf, s.page)
    ensures var r := s.readers[0];
            Run(plans, s, CopyFrom(x)) == s.(readers := [Copying(r.spin, r.s1, buf, r.since)])
    decreases PAGE_SIZE - x
  {
    var r := s.readers[0];
    var buf' := if x in r.buf then r.buf else r.buf[x := s.page[x]];
    var s' := s.(readers := [Copying(r.spin, r.s1, buf', r.since)]);
    assert Step(plans, s, CopyByte(0, x)) == s';
    if x + 1 < PAGE_SIZE {
      RunFirst(plans, s, CopyByte(0, x), CopyFrom(x + 1));
      buf := RunCopyFrom(plans, s', x + 1);
    } else {
      RunOne(plans, s, CopyByte(0, x));
      assert CopyFrom(x) == [CopyByte(0, x)];
      buf := buf';
    }
  }

  lemma SecondLook(plans: Plans, s: State, buf: map<PayloadIndex, byte>, since: nat)
    requires |s.writers| == |plans| && s.readers == [Copying(0, s.page[0], buf, since)]
    requires Complete(buf) && !Odd(s.page[0])
    ensures Run(plans, s, [Read(0)]) == s.(readers := [Returned(buf, since, |s.log|)])
  {
    assert Step(plans, s, Read(0)) == s.(readers := [Returned(buf, since, |s.log|)]);
    RunOne(plans, s, Read(0));
  }

  lemma TornEnd(plans: Plans, plan: seq<Store>, init: Page, order: seq<nat>, i: PayloadIndex)
    returns (buf: map<PayloadIndex, byte>)
    requires !Odd(init[0]) && order != []
    ensures CopiedRest(buf, map[i := init[i]], Applied(init, plan))
    ensures var s := Overtaken(plans, plan, init, order, i, |order|);
            Run(plans, s, CopyFrom(1) + [Read(0)]) == s.(readers := [Returned(buf, 0, |order|)])
  {
    var s := Overtaken(plans, plan, init, order, i, |order|);
    buf := RunCopyFrom(plans, s, 1);
    var copied := s.(readers := [Copying(0, init[0], buf, 0)]);
    SecondLook(plans, copied, buf, 0);
    assert order[..|order|] == order;
    RunJoin(plans, s, CopyFrom(1), [Read(0)], copied, s.(readers := [Returned(buf, 0, |order|)]));
  }

  /** Where the schedule ends: byte `i` from before the sections, the rest from after them, and the
      second look at byte 0 equal to the first. */
  lemma TornRun(plans: Plans, plan: seq<Store>, init: Page, order: seq<nat>, i: PayloadIndex)
    returns (buf: map<PayloadIndex, byte>)
    requires !Odd(init[0]) && order != [] && AllStore(plans, plan, order)
    ensures CopiedRest(buf, map[i := init[i]], Applied(init, plan))
    ensures Reached(plans, init, 1, TornSchedule(plan, order, i))
         == Overtaken(plans, plan, init, order, i, |order|).(readers := [Returned(buf, 0, |order|)])
  {
    var s0, head := Start(plans, init, 1), [Read(0), CopyByte(0, i)];
    var s1, s2 := Overtaken(plans, plan, init, order, i, 0), Overtaken(plans, plan, init, order, i, |order|);
    TornStart(plans, plan, init, order, i);
    TornSections(plans, plan, init, order, i, |order|);
    assert order[..|order|] == order;
    RunJoin(plans, s0, head, Sections(plan, order), s1, s2);
    buf := TornEnd(plans, plan, init, order, i);
    RunJoin(plans, s0, head + Sections(plan, order), CopyFrom(1) + [Read(0)], s2,
      s2.(readers := [Returned(buf, 0, |order|)]));
  }

  lemma {:induction false} CommittedSame(plans: Plans, plan: seq<Store>, init: Page, order: seq<nat>)
    requires AllStore(plans, plan, order)
    ensures LogOf(plans, order)
    ensures Committed(plans, init, order) == if order == [] then init else Applied(init, plan)
    decreases |order|
  {
    if order != [] {
      CommittedSame(plans, plan, init, order[..|order| - 1]);
      AppliedTwice(init, plan);
    }
  }

  /** A section that changes two payload bytes of the page it starts from, `i` and `j`, can be read
      torn, whatever writer makes it and however many times in the window: the schedule's read
      returns a payload committed at no moment of its window. */
  lemma TornReadReturns(plans: Plans, plan: seq<Store>, init: Page, order: seq<nat>, i: PayloadIndex, j: PayloadIndex)
    requires !Odd(init[0]) && order != [] && AllStore(plans, plan, order)
    requires i != j && init[i] != Applied(init, plan)[i] && init[j] != Applied(init, plan)[j]
    ensures ReturnedWithGap(plans, init, 1, TornSchedule(plan, order, i), 0, |order|)
    ensures !ReturnedCommitted(plans, init, 1, TornSchedule(plan, order, i), 0)
  {
    var buf := TornRun(plans, plan, init, order, i);
    var s := Reached(plans, init, 1, TornSchedule(plan, order, i));
    assert s.log == order[..|order|] == order;
    MixedNeverHeld(plans, plan, init, order, buf, i, j);
  }

  /** No committed payload has the old byte at `i` and the new one at `j`. */
  lemma MixedNeverHeld(plans: Plans, plan: seq<Store>, init: Page, order: seq<nat>, buf: map<PayloadIndex, byte>,
                       i: PayloadIndex, j: PayloadIndex)
    requires AllStore(plans, plan, order) && Complete(buf)
    requires i != j && init[i] != Applied(init, plan)[i] && init[j] != Applied(init, plan)[j]
    requires buf[i] == init[i] && buf[j] == Applied(init, plan)[j]
    ensures LogOf(plans, order) && forall n: nat :: !HoldsCommitted(plans, init, order, buf, n)
  {
    forall n: nat | n <= |order|
      ensures !HoldsCommitted(plans, init, order, buf, n)
    {
      CommittedSame(plans, plan, init, order[..n]);
    }
  }

  // Exactly when

  ghost predicate EveryReadCommitted(gap: nat) {
    forall plans: Plans, init: Page, readers: nat, schedule: seq<Event>, r: nat ::
      ReturnedWithGap(plans, init, readers, schedule, r, gap) ==> ReturnedCommitted(plans, init, readers, schedule, r)
  }

  lemma UnovertakenReadsCommitted()
    ensures EveryReadCommitted(0)
  {
    forall plans: Plans, init: Page, readers: nat, schedule: seq<Event>, r: nat |
      ReturnedWithGap(plans, init, readers, schedule, r, 0)
      ensures ReturnedCommitted(plans, init, readers, schedule, r)
    {
      ReaderSeesCommitted(plans, init, readers, schedule, r);
      var s := Reached(plans, init, readers, schedule);
      assert HoldsCommitted(plans, init, s.log, s.readers[r].buf, s.readers[r].since);
    }
  }

  /** On the zero page of a new file, with sections that store two bytes. */
  lemma OvertakenReadTorn(gap: nat)
    requires gap > 0
    ensures !EveryReadCommitted(gap)
  {
    var plans, init, schedule := OvertakenRead(gap);
    assert ReturnedWithGap(plans, init, 1, schedule, 0, gap);
  }

  lemma OvertakenRead(gap: nat) returns (plans: Plans, zero: Page, schedule: seq<Event>)
    requires gap > 0
    ensures ReturnedWithGap(plans, zero, 1, schedule, 0, gap) && !ReturnedCommitted(plans, zero, 1, schedule, 0)
  {
    zero := seq(PAGE_SIZE, _ => 0);
    var plan, order: seq<nat> := [Store(1, 1), Store(2, 1)], seq(gap, n => n);
    plans := seq(gap, _ => plan);
    schedule := TornSchedule(plan, order, 1);
    assert AllStore(plans, plan, order) && |order| == gap;
    TwoStores(zero, plan);
    TornReadReturns(plans, plan, zero, order, 1, 2);
  }

  lemma TwoStores(page: Page, plan: seq<Store>)
    requires plan == [Store(1, 1), Store(2, 1)]
    ensures Applied(page, plan)[1] == 1 && Applied(page, plan)[2] == 1
  {
    assert plan[..1] == [Store(1, 1)] && plan[..1][..0] == [];
  }

  /** For writers with any payload stores: reads with `gap` completed sections in their window are
      committed payloads if and only if `gap` is zero. */
  lemma ReaderGuaranteeExactly(gap: nat)
    ensures EveryReadCommitted(gap) <==> gap == 0
  {
    if gap == 0 {
      UnovertakenReadsCommitted();
    } else {
      OvertakenReadTorn(gap);
    }
  }

  /** How many payload bytes of `init` a command changes. */
  function BytesChanged(init: Page, cmd: byte): nat {
    (if init[1] != cmd then 1 else 0) + (if init[2] != 0 then 1 else 0) + if init[3] != 0 then 1 else 0
  }

  ghost predicate CommandReadsCommitted(cmds: seq<byte>, init: Page) {
    forall readers: nat, schedule: seq<Event>, r: nat, gap: nat ::
      ReturnedWithGap(CommandPlans(cmds), init, readers, schedule, r, gap) ==>
        ReturnedCommitted(CommandPlans(cmds), init, readers, schedule, r)
  }

  lemma CommandsChangeOnly(cmds: seq<byte>, init: Page) returns (j: PayloadIndex)
    requires forall k :: 0 <= k < |cmds| ==> BytesChanged(init, cmds[k]) <= 1
    ensures ChangesOnly(CommandPlans(cmds), init, j)
  {
    j := if init[2] != 0 then 2 else if init[3] != 0 then 3 else 1;
    var plans: Plans := CommandPlans(cmds);
    forall p, k | 0 <= p < |plans| && 0 <= k < |plans[p]| && plans[p][k].at != j
      ensures plans[p][k].val == init[plans[p][k].at]
    {
      assert BytesChanged(init, cmds[p]) <= 1;
    }
  }

  lemma CommandTorn(cmds: seq<byte>, init: Page, k: nat)
    requires !Odd(init[0]) && k < |cmds| && BytesChanged(init, cmds[k]) > 1
    ensures !CommandReadsCommitted(cmds, init)
  {
    var plan := CommandStores(cmds[k]);
    CommandApplied(init, cmds[k], 3);
    assert plan[..3] == plan;
    var i: PayloadIndex := if init[1] != cmds[k] then 1 else 2;
    var j: PayloadIndex := if i == 1 && init[2] != 0 then 2 else 3;
    TornReadReturns(CommandPlans(cmds), plan, init, [k], i, j);
  }

  /** The command page, exactly: every read under every schedule returns a committed payload if and
      only if no command changes more than one byte of the initial payload. */
  lemma CommandReadsExactly(cmds: seq<byte>, init: Page)
    requires !Odd(init[0])
    ensures CommandReadsCommitted(cmds, init) <==> forall k :: 0 <= k < |cmds| ==> BytesChanged(init, cmds[k]) <= 1
  {
    if k: nat :| k < |cmds| && BytesChanged(init, cmds[k]) > 1 {
      CommandTorn(cmds, init, k);
    } else {
      var j := CommandsChangeOnly(cmds, init);
      forall readers: nat, schedule: seq<Event>, r: nat, gap: nat |
        ReturnedWithGap(CommandPlans(cmds), init, readers, schedule, r, gap)
        ensures ReturnedCommitted(CommandPlans(cmds), init, readers, schedule, r)
      {
        SingleByteReadsCommitted(CommandPlans(cmds), init, j, readers, schedule, r, gap);
      }
    }
  }

  /** On the page the backend creates and its commands leave, reserved bytes zero, reads are never torn. */
  lemma CommandPageNeverTorn(cmds: seq<byte>, init: Page)
    requires !Odd(init[0]) && init[2] == 0 && init[3] == 0
    ensures CommandReadsCommitted(cmds, init)
  {
    CommandReadsExactly(cmds, init);
  }
}
