/** When writers and readers get what they came for, and when they may give up. */
module SeqlockProgress {
  import opened Bytes
  import opened SeqlockProtocol
  import opened SeqlockSafety

  const ALL_SPINS := 4_194_304

  lemma {:induction false} RunExtend(plans: Plans, s: State, schedule: seq<Event>, e: Event, mid: State)
    requires |s.writers| == |plans| && mid == Run(plans, s, schedule)
    ensures Run(plans, s, schedule + [e]) == Run(plans, mid, [e])
  {
    RunConcat(plans, s, schedule, [e]);
  }

  lemma {:induction false} RunLast(plans: Plans, s: State, schedule: seq<Event>)
    requires |s.writers| == |plans| && schedule != []
    ensures var n := |schedule| - 1; Run(plans, s, schedule) == Step(plans, Run(plans, s, schedule[..n]), schedule[n])
  {
    var prefix, e := schedule[..|schedule| - 1], schedule[|schedule| - 1];
    assert schedule == prefix + [e];
    RunExtend(plans, s, prefix, e, Run(plans, s, prefix));
    RunOne(plans, Run(plans, s, prefix), e);
  }

  function OwnSteps(schedule: seq<Event>, e: Event): nat
    decreases |schedule|
  {
    if schedule == [] then 0
    else OwnSteps(schedule[..|schedule| - 1], e) + if schedule[|schedule| - 1] == e then 1 else 0
  }

  // Writers

  /** The step is a failed attempt of writer `id` to take the lock: a load that finds the page locked, or
      a compare-and-swap that finds the word changed. */
  ghost predicate Missed(s: State, e: Event, id: nat) {
    e == Write(id) && id < |s.writers| &&
    match s.writers[id]
    case BeginLoad(spin) => spin < ALL_SPINS && Odd(s.page[0])
    case BeginCas(_, w) => s.page[..4] != w
    case _ => false
  }

  ghost function Misses(plans: Plans, s: State, schedule: seq<Event>, id: nat): nat
    requires |s.writers| == |plans|
    decreases |schedule|
  {
    if schedule == [] then 0
    else
      var n := |schedule| - 1;
      Misses(plans, s, schedule[..n], id) + if Missed(Run(plans, s, schedule[..n]), schedule[n], id) then 1 else 0
  }

  /** Where `misses` failed attempts in `own` steps leave a writer. */
  ghost predicate WriterAccount(w: Writer, misses: nat, own: nat) {
    && misses <= own
    && match w
       case BeginLoad(spin) => spin == misses <= ALL_SPINS
       case BeginCas(spin, _) => spin == misses < ALL_SPINS && misses < own
       case GaveUp => misses == ALL_SPINS && misses < own
       case _ => misses < ALL_SPINS && misses < own
  }

  lemma WriterAccountStep(plans: Plans, s: State, e: Event, id: nat, misses: nat, own: nat)
    requires |s.writers| == |plans| && id < |plans| && WriterAccount(s.writers[id], misses, own)
    ensures WriterAccount(Step(plans, s, e).writers[id], misses + if Missed(s, e, id) then 1 else 0,
                          own + if e == Write(id) then 1 else 0)
  {
  }

  /** Every failed attempt costs a writer one spin, and nothing else does: it gives up only after
      4194304 attempts of its own, each of which found the page locked or its word changed. */
  lemma {:induction false} WriterAccounts(plans: Plans, s: State, schedule: seq<Event>, id: nat)
    requires |s.writers| == |plans| && id < |plans| && s.writers[id] == BeginLoad(0)
    ensures WriterAccount(Run(plans, s, schedule).writers[id], Misses(plans, s, schedule, id), OwnSteps(schedule, Write(id)))
    decreases |schedule|
  {
    if schedule != [] {
      var n := |schedule| - 1;
      WriterAccounts(plans, s, schedule[..n], id);
      RunLast(plans, s, schedule);
      WriterAccountStep(plans, Run(plans, s, schedule[..n]), schedule[n], id, Misses(plans, s, schedule[..n], id),
                        OwnSteps(schedule[..n], Write(id)));
    }
  }

  ghost predicate NotBy(e: Event, writer: nat) {
    e.Write? ==> e.id != writer
  }

  lemma {:induction false} OthersKeepWriter(plans: Plans, s: State, env: seq<Event>, me: nat)
    requires |s.writers| == |plans| && me < |plans| && forall e :: e in env ==> NotBy(e, me)
    ensures Run(plans, s, env).writers[me] == s.writers[me]
    decreases env
  {
    if env != [] {
      assert env[0] in env && forall e :: e in env[1..] ==> e in env;
      OthersKeepWriter(plans, Step(plans, s, env[0]), env[1..], me);
    }
  }

  /** A writer that finds the page unlocked, and its word unchanged at the compare-and-swap, whatever
      the others did meanwhile, has the lock. */
  lemma TakesLock(plans: Plans, s: State, others: seq<Event>, id: nat)
    requires |s.writers| == |plans| && id < |plans| && forall e :: e in others ==> NotBy(e, id)
    requires s.writers[id].BeginLoad? && s.writers[id].spin < ALL_SPINS && !Odd(s.page[0])
    ensures var mid := Run(plans, Step(plans, s, Write(id)), others);
            var s' := Step(plans, mid, Write(id));
            mid.page[..4] == s.page[..4] ==>
              && InSection(s'.writers[id]) && Odd(s'.page[0]) && s'.page[1..] == mid.page[1..]
              && (forall j :: 0 <= j < |plans| && j != id ==> s'.writers[j] == mid.writers[j])
  {
    var mid := Run(plans, Step(plans, s, Write(id)), others);
    OthersKeepWriter(plans, Step(plans, s, Write(id)), others, id);
    assert s.page[..4][0] == s.page[0];
  }

  // Readers

  /** The step is a failed attempt of reader `id`: a first look at a locked page, or a second look that
      differs from the first or is at a locked page. */
  ghost predicate MissedRead(s: State, e: Event, id: nat) {
    e == Read(id) && id < |s.readers| &&
    match s.readers[id]
    case Idle(spin) => spin < ALL_SPINS && Odd(s.page[0])
    case Copying(_, s1, buf, _) => Complete(buf) && (s.page[0] != s1 || Odd(s.page[0]))
    case _ => false
  }

  ghost function ReadMisses(plans: Plans, s: State, schedule: seq<Event>, id: nat): nat
    requires |s.writers| == |plans|
    decreases |schedule|
  {
    if schedule == [] then 0
    else
      var n := |schedule| - 1;
      ReadMisses(plans, s, schedule[..n], id) + if MissedRead(Run(plans, s, schedule[..n]), schedule[n], id) then 1 else 0
  }

  ghost predicate ReaderAccount(r: Reader, misses: nat, own: nat) {
    && misses <= own
    && match r
       case Idle(spin) => spin == misses <= ALL_SPINS
       case Copying(spin, s1, _, _) => spin == misses < ALL_SPINS && misses < own && !Odd(s1)
       case Exhausted => misses == ALL_SPINS && misses < own
       case Returned(_, _, _) => misses < ALL_SPINS && misses < own
  }

  lemma ReaderAccountStep(plans: Plans, s: State, e: Event, id: nat, misses: nat, own: nat)
    requires |s.writers| == |plans| && id < |s.readers| && ReaderAccount(s.readers[id], misses, own)
    ensures ReaderAccount(Step(plans, s, e).readers[id], misses + if MissedRead(s, e, id) then 1 else 0,
                          own + if e == Read(id) then 1 else 0)
  {
  }

  /** The same for readers: the error means 4194304 failed attempts. */
  lemma {:induction false} ReaderAccounts(plans: Plans, s: State, schedule: seq<Event>, id: nat)
    requires |s.writers| == |plans| && id < |s.readers| && s.readers[id] == Idle(0)
    ensures ReaderAccount(Run(plans, s, schedule).readers[id], ReadMisses(plans, s, schedule, id),
                          OwnSteps(schedule, Read(id)))
    decreases |schedule|
  {
    if schedule != [] {
      var n := |schedule| - 1;
      ReaderAccounts(plans, s, schedule[..n], id);
      RunLast(plans, s, schedule);
      ReaderAccountStep(plans, Run(plans, s, schedule[..n]), schedule[n], id, ReadMisses(plans, s, schedule[..n], id),
                        OwnSteps(schedule[..n], Read(id)));
    }
  }

  ghost predicate NotRead(e: Event, reader: nat) {
    e.Read? || e.CopyByte? ==> e.id != reader
  }

  lemma {:induction false} OthersKeepReader(plans: Plans, s: State, env: seq<Event>, me: nat)
    requires |s.writers| == |plans| && me < |s.readers| && forall e :: e in env ==> NotRead(e, me)
    ensures Run(plans, s, env).readers[me] == s.readers[me]
    decreases env
  {
    if env != [] {
      assert env[0] in env && forall e :: e in env[1..] ==> e in env;
      OthersKeepReader(plans, Step(plans, s, env[0]), env[1..], me);
    }
  }

  lemma {:induction false} CopyingKeepsFirstLook(plans: Plans, s: State, between: seq<Event>, id: nat)
    requires |s.writers| == |plans| && id < |s.readers| && s.readers[id].Copying? && Read(id) !in between
    ensures var r, before := Run(plans, s, between).readers[id], s.readers[id];
            r.Copying? && r.spin == before.spin && r.s1 == before.s1 && r.since == before.since
    decreases between
  {
    if between != [] {
      assert between[0] in between;
      CopyingKeepsFirstLook(plans, Step(plans, s, between[0]), between[1..], id);
    }
  }

  /** A reader that has copied every byte between two looks at the same even byte 0 returns the copy. */
  lemma ReturnsCopy(plans: Plans, s: State, between: seq<Event>, id: nat)
    requires |s.writers| == |plans| && id < |s.readers| && Read(id) !in between
    requires s.readers[id].Idle? && s.readers[id].spin < ALL_SPINS && !Odd(s.page[0])
    ensures var mid := Run(plans, Step(plans, s, Read(id)), between);
            && mid.readers[id].Copying?
            && (Complete(mid.readers[id].buf) && mid.page[0] == s.page[0] ==>
                  Step(plans, mid, Read(id)).readers[id] == Returned(mid.readers[id].buf, |s.log|, |mid.log|))
  {
    CopyingKeepsFirstLook(plans, Step(plans, s, Read(id)), between, id);
  }
}
