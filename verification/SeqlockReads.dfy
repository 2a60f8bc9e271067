/** When a read of a seqlocked page can return bytes of different moments.

    Byte 0 is a toggle, so whole sections inside a read restore it and go unnoticed. Whether that
    can do harm depends on what the sections store. */
module SeqlockReads {
  import opened Bytes
  import opened SeqlockProtocol
  import opened SeqlockSafety

  // What a read is worth

  /** Reader `r` has returned, and `gap` sections completed between its two looks at byte 0. */
  ghost predicate ReturnedWithGap(plans: Plans, init: Page, readers: nat, schedule: seq<Event>, r: nat, gap: nat) {
    && !Odd(init[0]) && r < readers
    && var s := Reached(plans, init, readers, schedule);
       s.readers[r].Returned? && s.readers[r].until - s.readers[r].since == gap
  }

  /** What reader `r` returned is the payload committed at some moment of its window. */
  ghost predicate ReturnedCommitted(plans: Plans, init: Page, readers: nat, schedule: seq<Event>, r: nat) {
    var s := Reached(plans, init, readers, schedule);
    LogOf(plans, s.log) && r < |s.readers| && s.readers[r].Returned? &&
    exists n :: s.readers[r].since <= n <= s.readers[r].until && HoldsCommitted(plans, init, s.log, s.readers[r].buf, n)
  }

  ghost predicate HoldsCommitted(plans: Plans, init: Page, log: seq<nat>, buf: map<PayloadIndex, byte>, n: nat)
    requires LogOf(plans, log)
  {
    n <= |log| && Complete(buf) && forall i: PayloadIndex :: buf[i] == Committed(plans, init, log[..n])[i]
  }

  // Sections that change one byte only

  /** All sections together change no payload byte but `j`, and each gives `j` a single value. */
  ghost predicate ChangesOnly(plans: Plans, init: Page, j: PayloadIndex) {
    && (forall p, k :: 0 <= p < |plans| && 0 <= k < |plans[p]| && plans[p][k].at != j ==>
          plans[p][k].val == init[plans[p][k].at])
    && (forall p, k, l :: 0 <= p < |plans| && 0 <= k < l < |plans[p]| && plans[p][k].at == plans[p][l].at == j ==>
          plans[p][k].val == plans[p][l].val)
  }

  ghost predicate AgreesOff(page: Page, init: Page, j: PayloadIndex) {
    forall x: PayloadIndex :: x != j ==> page[x] == init[x]
  }

  lemma {:induction false} PrefixChangesOnly(plans: Plans, init: Page, j: PayloadIndex, page: Page, p: nat, k: nat)
    requires ChangesOnly(plans, init, j) && AgreesOff(page, init, j) && p < |plans| && k <= |plans[p]|
    ensures AgreesOff(Applied(page, plans[p][..k]), init, j)
    ensures Applied(page, plans[p][..k])[j] == page[j]
         || exists l :: 0 <= l < k && plans[p][l].at == j && Applied(page, plans[p][..k])[j] == plans[p][l].val
    decreases k
  {
    if k > 0 {
      PrefixChangesOnly(plans, init, j, page, p, k - 1);
      AppliedExtend(page, plans[p], k - 1);
    }
  }

  lemma {:induction false} StoredStays(page: Page, stores: seq<Store>, l: nat, v: byte, k: nat)
    requires l < k <= |stores| && stores[l].val == v
    requires forall m :: l <= m < |stores| && stores[m].at == stores[l].at ==> stores[m].val == v
    ensures Applied(page, stores[..k])[stores[l].at] == v
    decreases k
  {
    AppliedExtend(page, stores, k - 1);
    if l < k - 1 {
      StoredStays(page, stores, l, v, k - 1);
    }
  }

  /** Part way through a section byte `j` already is what it will be, or still what it was. */
  lemma OneValue(plans: Plans, init: Page, j: PayloadIndex, page: Page, p: nat, k: nat)
    requires ChangesOnly(plans, init, j) && AgreesOff(page, init, j) && p < |plans| && k <= |plans[p]|
    ensures AgreesOff(Applied(page, plans[p][..k]), init, j) && AgreesOff(Applied(page, plans[p]), init, j)
    ensures Applied(page, plans[p][..k])[j] in {page[j], Applied(page, plans[p])[j]}
  {
    var plan := plans[p];
    PrefixChangesOnly(plans, init, j, page, p, k);
    PrefixChangesOnly(plans, init, j, page, p, |plan|);
    assert plan[..|plan|] == plan;
    if Applied(page, plan[..k])[j] != page[j] {
      var l :| 0 <= l < k && plan[l].at == j && Applied(page, plan[..k])[j] == plan[l].val;
      StoredStays(page, plan, l, plan[l].val, |plan|);
    }
  }

  lemma {:induction false} CommittedAgrees(plans: Plans, init: Page, j: PayloadIndex, log: seq<nat>)
    requires ChangesOnly(plans, init, j) && LogOf(plans, log)
    ensures AgreesOff(Committed(plans, init, log), init, j)
    decreases |log|
  {
    if log != [] {
      var rest, p := log[..|log| - 1], log[|log| - 1];
      CommittedAgrees(plans, init, j, rest);
      OneValue(plans, init, j, Committed(plans, init, rest), p, 0);
    }
  }

  /** The byte `v` was committed at `j` no earlier than `since`, or will be by the present holder. */
  ghost predicate Explained(plans: Plans, init: Page, s: State, j: PayloadIndex, v: byte, since: nat)
    requires |s.writers| == |plans| && LogOf(plans, s.log)
  {
    || (exists n :: since <= n <= |s.log| && Committed(plans, init, s.log[..n])[j] == v)
    || (exists h: nat :: HeldBy(plans, init, s, h) && Applied(Committed(plans, init, s.log), plans[h])[j] == v)
  }

  ghost predicate BytesExplained(plans: Plans, init: Page, s: State, j: PayloadIndex, r: Reader)
    requires |s.writers| == |plans| && LogOf(plans, s.log)
  {
    match r
    case Copying(_, _, buf, since) =>
      && since <= |s.log|
      && forall i :: i in buf ==> if i == j then Explained(plans, init, s, j, buf[i], since) else buf[i] == init[i]
    case Returned(buf, since, until) =>
      since <= until <= |s.log| && exists n :: since <= n <= until && HoldsCommitted(plans, init, s.log, buf, n)
    case _ => true
  }

  ghost predicate AllExplained(plans: Plans, init: Page, s: State, j: PayloadIndex)
    requires |s.writers| == |plans| && LogOf(plans, s.log)
  {
    forall r :: 0 <= r < |s.readers| ==> BytesExplained(plans, init, s, j, s.readers[r])
  }

  /** The page as a reader sees it: off `j` the initial bytes, at `j` an explained one. */
  lemma PageExplained(plans: Plans, init: Page, s: State, j: PayloadIndex, since: nat)
    requires Inv(plans, init, s) && ChangesOnly(plans, init, j) && since <= |s.log|
    ensures AgreesOff(s.page, init, j) && Explained(plans, init, s, j, s.page[j], since)
  {
    var base := Committed(plans, init, s.log);
    CommittedAgrees(plans, init, j, s.log);
    assert s.log[..|s.log|] == s.log;
    if Odd(s.page[0]) {
      var h: nat :| HeldBy(plans, init, s, h);
      OneValue(plans, init, j, base, h, Progress(plans[h], s.writers[h]));
    }
  }

  lemma WriterStepLog(plans: Plans, s: State, id: nat)
    requires |s.writers| == |plans| && id < |plans|
    ensures WriterStep(plans[id], s, id).log in {s.log, s.log + [id]}
  {
  }

  lemma CommittedStays(plans: Plans, init: Page, s: State, s': State, j: PayloadIndex, v: byte, since: nat)
    requires |s.writers| == |s'.writers| == |plans| && LogOf(plans, s.log) && LogOf(plans, s'.log) && s.log <= s'.log
    requires exists n :: since <= n <= |s.log| && Committed(plans, init, s.log[..n])[j] == v
    ensures Explained(plans, init, s', j, v, since)
  {
    var n: nat :| since <= n <= |s.log| && Committed(plans, init, s.log[..n])[j] == v;
    assert s'.log[..n] == s.log[..n];
  }

  lemma PendingStays(plans: Plans, init: Page, s: State, id: nat, j: PayloadIndex, v: byte, since: nat, h: nat)
    requires WritersOk(plans, init, s) && id < |plans| && since <= |s.log|
    requires HeldBy(plans, init, s, h) && Applied(Committed(plans, init, s.log), plans[h])[j] == v
    ensures var s' := WriterStep(plans[id], s, id);
            LogOf(plans, s'.log) && Explained(plans, init, s', j, v, since)
  {
    WriterStepKeeps(plans, init, s, id);
    WriterStepLog(plans, s, id);
    var s' := WriterStep(plans[id], s, id);
    if s'.log == s.log {
      HolderStays(plans, init, s, id, h);
    } else {
      EnderIsHolder(plans, init, s, id, h);
      CommittedExtend(plans, init, s.log, id);
      assert s'.log[..|s'.log|] == s'.log;
    }
  }

  /** A writer's step keeps every explanation: the holder stays, or its value is committed. */
  lemma WriterKeepsExplained(plans: Plans, init: Page, s: State, id: nat, j: PayloadIndex, v: byte, since: nat)
    requires WritersOk(plans, init, s) && id < |plans| && since <= |s.log|
    requires Explained(plans, init, s, j, v, since)
    ensures var s' := WriterStep(plans[id], s, id);
            LogOf(plans, s'.log) && Explained(plans, init, s', j, v, since)
  {
    WriterStepKeeps(plans, init, s, id);
    WriterStepLog(plans, s, id);
    if h: nat :| HeldBy(plans, init, s, h) && Applied(Committed(plans, init, s.log), plans[h])[j] == v {
      PendingStays(plans, init, s, id, j, v, since, h);
    } else {
      CommittedStays(plans, init, s, WriterStep(plans[id], s, id), j, v, since);
    }
  }

  lemma HolderStays(plans: Plans, init: Page, s: State, id: nat, h: nat)
    requires WritersOk(plans, init, s) && id < |plans| && HeldBy(plans, init, s, h)
    requires WriterStep(plans[id], s, id).log == s.log
    ensures HeldBy(plans, init, WriterStep(plans[id], s, id), h)
  {
    WriterStepKeeps(plans, init, s, id);
    var s' := WriterStep(plans[id], s, id);
    assert Odd(s.page[0]);
    assert Odd(s'.page[0]) by {
      if s.writers[id].BeginCas? {
        assert s.page[..4][0] == s.page[0];
      }
    }
    var g: nat :| HeldBy(plans, init, s', g);
    assert g == h;
  }

  lemma EnderIsHolder(plans: Plans, init: Page, s: State, id: nat, h: nat)
    requires WritersOk(plans, init, s) && id < |plans| && HeldBy(plans, init, s, h)
    requires WriterStep(plans[id], s, id).log != s.log
    ensures id == h
  {
  }

  lemma WriterKeepsReader(plans: Plans, init: Page, s: State, id: nat, j: PayloadIndex, r: Reader)
    requires WritersOk(plans, init, s) && id < |plans| && BytesExplained(plans, init, s, j, r)
    ensures var s' := WriterStep(plans[id], s, id);
            LogOf(plans, s'.log) && BytesExplained(plans, init, s', j, r)
  {
    WriterStepKeeps(plans, init, s, id);
    var s' := WriterStep(plans[id], s, id);
    assert s'.log == s.log || s'.log == s.log + [id];
    match r {
      case Copying(_, _, buf, since) =>
        if j in buf {
          WriterKeepsExplained(plans, init, s, id, j, buf[j], since);
        }
      case Returned(buf, since, until) =>
        var n: nat :| since <= n <= until && HoldsCommitted(plans, init, s.log, buf, n);
        assert s'.log[..n] == s.log[..n];
        assert HoldsCommitted(plans, init, s'.log, buf, n);
      case _ =>
    }
  }

  lemma ExplainedAlike(plans: Plans, init: Page, s: State, s': State, j: PayloadIndex, v: byte, since: nat)
    requires |s.writers| == |plans| && LogOf(plans, s.log) && Explained(plans, init, s, j, v, since)
    requires s'.page == s.page && s'.writers == s.writers && s'.log == s.log
    ensures Explained(plans, init, s', j, v, since)
  {
    if h: nat :| HeldBy(plans, init, s, h) && Applied(Committed(plans, init, s.log), plans[h])[j] == v {
      assert HeldBy(plans, init, s', h);
    }
  }

  /** At an even page nobody holds the lock, so an explained byte has been committed. */
  lemma SecondLookExplained(plans: Plans, init: Page, s: State, j: PayloadIndex, r: Reader)
    requires Inv(plans, init, s) && ChangesOnly(plans, init, j) && !Odd(s.page[0])
    requires r.Copying? && Complete(r.buf) && BytesExplained(plans, init, s, j, r)
    ensures exists n :: r.since <= n <= |s.log| && HoldsCommitted(plans, init, s.log, r.buf, n)
  {
    assert Explained(plans, init, s, j, r.buf[j], r.since);
    var n: nat :| r.since <= n <= |s.log| && Committed(plans, init, s.log[..n])[j] == r.buf[j];
    CommittedAgrees(plans, init, j, s.log[..n]);
    assert HoldsCommitted(plans, init, s.log, r.buf, n);
  }

  lemma CopyKeeps(plans: Plans, init: Page, s: State, e: Event, j: PayloadIndex, r: nat)
    requires Inv(plans, init, s) && ChangesOnly(plans, init, j) && e.CopyByte? && r < |s.readers|
    requires BytesExplained(plans, init, s, j, s.readers[r]) && s.readers[r].Copying?
    ensures BytesExplained(plans, init, Step(plans, s, e), j, Step(plans, s, e).readers[r])
  {
    var s', before := Step(plans, s, e), s.readers[r];
    var buf := if e.id == r && e.at !in before.buf then before.buf[e.at := s.page[e.at]] else before.buf;
    assert s'.readers[r] == Copying(before.spin, before.s1, buf, before.since);
    PageExplained(plans, init, s, j, before.since);
    if j in buf {
      ExplainedAlike(plans, init, s, s', j, buf[j], before.since);
    }
  }

  lemma LookKeeps(plans: Plans, init: Page, s: State, e: Event, j: PayloadIndex, r: nat)
    requires Inv(plans, init, s) && ChangesOnly(plans, init, j) && e.Read? && r < |s.readers|
    requires BytesExplained(plans, init, s, j, s.readers[r]) && s.readers[r].Copying?
    ensures BytesExplained(plans, init, Step(plans, s, e), j, Step(plans, s, e).readers[r])
  {
    var s', before := Step(plans, s, e), s.readers[r];
    if s'.readers[r].Returned? {
      SecondLookExplained(plans, init, s, j, before);
    } else if s'.readers[r].Copying? && j in before.buf {
      ExplainedAlike(plans, init, s, s', j, before.buf[j], before.since);
    }
  }

  lemma ReaderEventKeeps(plans: Plans, init: Page, s: State, e: Event, j: PayloadIndex, r: nat)
    requires Inv(plans, init, s) && ChangesOnly(plans, init, j) && !e.Write? && r < |s.readers|
    requires BytesExplained(plans, init, s, j, s.readers[r])
    ensures BytesExplained(plans, init, Step(plans, s, e), j, Step(plans, s, e).readers[r])
  {
    if s.readers[r].Copying? {
      if e.Read? {
        LookKeeps(plans, init, s, e, j, r);
      } else {
        CopyKeeps(plans, init, s, e, j, r);
      }
    }
  }

  lemma ExplainedStep(plans: Plans, init: Page, s: State, e: Event, j: PayloadIndex)
    requires Inv(plans, init, s) && ChangesOnly(plans, init, j) && AllExplained(plans, init, s, j)
    ensures LogOf(plans, Step(plans, s, e).log) && AllExplained(plans, init, Step(plans, s, e), j)
  {
    StepKeeps(plans, init, s, e);
    forall r | 0 <= r < |s.readers|
      ensures BytesExplained(plans, init, Step(plans, s, e), j, Step(plans, s, e).readers[r])
    {
      if !e.Write? {
        ReaderEventKeeps(plans, init, s, e, j, r);
      } else if e.id < |plans| {
        WriterKeepsReader(plans, init, s, e.id, j, s.readers[r]);
      }
    }
  }

  lemma {:induction false} ExplainedRun(plans: Plans, init: Page, s: State, schedule: seq<Event>, j: PayloadIndex)
    requires Inv(plans, init, s) && ChangesOnly(plans, init, j) && AllExplained(plans, init, s, j)
    ensures LogOf(plans, Run(plans, s, schedule).log) && AllExplained(plans, init, Run(plans, s, schedule), j)
    decreases schedule
  {
    if schedule != [] {
      ExplainedStep(plans, init, s, schedule[0], j);
      StepKeeps(plans, init, s, schedule[0]);
      ExplainedRun(plans, init, Step(plans, s, schedule[0]), schedule[1..], j);
    }
  }

  /** With sections that change only byte `j`, every read under every schedule returns a payload
      committed during its window, however many sections complete meanwhile. */
  lemma SingleByteReadsCommitted(plans: Plans, init: Page, j: PayloadIndex, readers: nat, schedule: seq<Event>,
                                 r: nat, gap: nat)
    requires ChangesOnly(plans, init, j) && ReturnedWithGap(plans, init, readers, schedule, r, gap)
    ensures ReturnedCommitted(plans, init, readers, schedule, r)
  {
    StartOk(plans, init, readers);
    ExplainedRun(plans, init, Start(plans, init, readers), schedule, j);
    var s := Reached(plans, init, readers, schedule);
    assert BytesExplained(plans, init, s, j, s.readers[r]);
  }
}
