/** What the toggle seqlock guarantees over every schedule. */
module SeqlockSafety {
  import opened Bytes
  import opened SeqlockProtocol

  ghost function Reached(plans: Plans, init: Page, readers: nat, schedule: seq<Event>): State {
    Run(plans, Start(plans, init, readers), schedule)
  }

  lemma ReachedOk(plans: Plans, init: Page, readers: nat, schedule: seq<Event>)
    requires !Odd(init[0])
    ensures Inv(plans, init, Reached(plans, init, readers, schedule))
  {
    StartOk(plans, init, readers);
    RunKeeps(plans, init, Start(plans, init, readers), schedule);
  }

  /** Bit 0 is odd exactly while one writer, and only one, is between its two CASes; whenever
      it is even the page is the initial page with the completed sections applied in order;
      the log lists each finished writer once; End never runs out of spins. */
  lemma MutualExclusion(plans: Plans, init: Page, readers: nat, schedule: seq<Event>)
    requires !Odd(init[0])
    ensures var s := Reached(plans, init, readers, schedule);
            && LogOf(plans, s.log)
            && (Odd(s.page[0]) <==> exists h :: OnlyHolder(s, h))
            && (!Odd(s.page[0]) <==> NoHolder(s))
            && (!Odd(s.page[0]) ==> s.page == Committed(plans, init, s.log))
            && (forall j :: 0 <= j < |plans| ==> !s.writers[j].Stuck? && (s.writers[j].Done? <==> j in s.log))
            && (forall i, j :: 0 <= i < j < |s.log| ==> s.log[i] != s.log[j])
  {
    ReachedOk(plans, init, readers, schedule);
    var s := Reached(plans, init, readers, schedule);
    if Odd(s.page[0]) {
      var h :| HeldBy(plans, init, s, h);
      assert OnlyHolder(s, h);
    }
  }

  /** The holder's unlocking CAS always succeeds, on its first spin. */
  lemma UnlockSucceedsFirstTime(plans: Plans, init: Page, readers: nat, schedule: seq<Event>, h: nat)
    requires !Odd(init[0]) && h < |plans|
    ensures var s := Reached(plans, init, readers, schedule);
            && (s.writers[h].EndLoad? ==> s.writers[h].spin == 0 && Step(plans, s, Write(h)).writers[h].EndCas?)
            && (s.writers[h].EndCas? ==>
                  var s' := Step(plans, s, Write(h));
                  s.writers[h].spin == 0 && s'.writers[h].Done? && s'.log == s.log + [h] && s'.page[0] == init[0])
  {
    ReachedOk(plans, init, readers, schedule);
    var s := Reached(plans, init, readers, schedule);
    if InSection(s.writers[h]) {
      var g :| HeldBy(plans, init, s, g);
      assert g == h;
      if s.writers[h].EndCas? {
        assert s.writers[h].w[0] == s.page[0];
      }
    }
  }

  // A writer that gives up

  /** The schedule without the steps of writer `id`. */
  function Without(schedule: seq<Event>, id: nat): seq<Event>
    decreases schedule
  {
    if schedule == [] then []
    else (if schedule[0] == Write(id) then [] else [schedule[0]]) + Without(schedule[1..], id)
  }

  /** Equal but for the private state of writer `id`. */
  ghost predicate SameButFor(s: State, t: State, id: nat) {
    && s.page == t.page && s.log == t.log && s.readers == t.readers && |s.writers| == |t.writers|
    && forall j :: 0 <= j < |s.writers| && j != id ==> s.writers[j] == t.writers[j]
  }

  predicate HasEntered(w: Writer) {
    InSection(w) || w.Done? || w.Stuck?
  }

  /** Once a writer has taken the lock it cannot come to give up. */
  lemma {:induction false} EnteredForGood(plans: Plans, s: State, schedule: seq<Event>, id: nat)
    requires |s.writers| == |plans| && id < |plans| && HasEntered(s.writers[id])
    ensures HasEntered(Run(plans, s, schedule).writers[id])
    decreases schedule
  {
    if schedule != [] {
      EnteredForGood(plans, Step(plans, s, schedule[0]), schedule[1..], id);
    }
  }

  lemma OtherStepSame(plans: Plans, s: State, t: State, id: nat, e: Event)
    requires |s.writers| == |plans| && SameButFor(s, t, id) && e != Write(id)
    ensures SameButFor(Step(plans, s, e), Step(plans, t, e), id)
  {
  }

  lemma {:induction false} DroppingKeepsRun(plans: Plans, s: State, t: State, schedule: seq<Event>, id: nat)
    requires |s.writers| == |plans| && id < |plans| && SameButFor(s, t, id)
    requires Run(plans, s, schedule).writers[id].GaveUp?
    ensures SameButFor(Run(plans, s, schedule), Run(plans, t, Without(schedule, id)), id)
    decreases schedule
  {
    if schedule != [] {
      var e, rest := schedule[0], schedule[1..];
      if e == Write(id) {
        if HasEntered(Step(plans, s, e).writers[id]) {
          EnteredForGood(plans, Step(plans, s, e), rest, id);
        }
        assert [] + Without(rest, id) == Without(rest, id);
        DroppingKeepsRun(plans, Step(plans, s, e), t, rest, id);
      } else {
        OtherStepSame(plans, s, t, id, e);
        DroppingKeepsRun(plans, Step(plans, s, e), Step(plans, t, e), rest, id);
        assert ([e] + Without(rest, id))[1..] == Without(rest, id);
      }
    }
  }

  /** A writer that gives up leaves no trace: the run without any of its steps has the same page,
      log, readers and other writers. */
  lemma GivingUpLeavesNoTrace(plans: Plans, init: Page, readers: nat, schedule: seq<Event>, id: nat)
    requires id < |plans| && Reached(plans, init, readers, schedule).writers[id].GaveUp?
    ensures SameButFor(Reached(plans, init, readers, schedule), Reached(plans, init, readers, Without(schedule, id)), id)
  {
    DroppingKeepsRun(plans, Start(plans, init, readers), Start(plans, init, readers), schedule, id);
  }

  // The command mailbox

  function CommandStores(cmd: byte): seq<Store> {
    [Store(1, cmd), Store(2, 0), Store(3, 0)]
  }

  function CommandPlans(cmds: seq<byte>): Plans {
    seq(|cmds|, i requires 0 <= i < |cmds| => CommandStores(cmds[i]))
  }

  function CommandPage(page: Page, cmd: byte): Page {
    page[1 := cmd][2 := 0][3 := 0]
  }

  lemma CommandApplied(page: Page, cmd: byte, k: nat)
    requires k <= 3
    ensures Applied(page, CommandStores(cmd)[..k]) ==
            if k == 0 then page else if k == 1 then page[1 := cmd]
            else if k == 2 then page[1 := cmd][2 := 0] else CommandPage(page, cmd)
  {
    var stores := CommandStores(cmd);
    if k > 0 {
      CommandApplied(page, cmd, k - 1);
      AppliedExtend(page, stores, k - 1);
    }
  }

  lemma {:induction false} CommandsCommitted(cmds: seq<byte>, page: Page, log: seq<nat>)
    requires LogOf(CommandPlans(cmds), log)
    ensures Committed(CommandPlans(cmds), page, log) ==
            if log == [] then page else CommandPage(page, cmds[log[|log| - 1]])
    decreases |log|
  {
    if log != [] {
      var rest, cmd := log[..|log| - 1], cmds[log[|log| - 1]];
      CommandsCommitted(cmds, page, rest);
      CommandApplied(Committed(CommandPlans(cmds), page, rest), cmd, 3);
      assert CommandStores(cmd)[..3] == CommandStores(cmd);
    }
  }

  /** With command writers only: bytes 1-3 of an unlocked page are the opcode of the last
      completed command and two zeros (or the initial bytes), and the upper seven bits of byte 0
      and bytes 4-127 never change, locked or not. */
  lemma CommandPageContents(cmds: seq<byte>, init: Page, readers: nat, schedule: seq<Event>)
    requires !Odd(init[0])
    ensures var s := Reached(CommandPlans(cmds), init, readers, schedule);
            && LogOf(CommandPlans(cmds), s.log)
            && (!Odd(s.page[0]) ==> s.page == if s.log == [] then init else CommandPage(init, cmds[s.log[|s.log| - 1]]))
            && s.page[0] / 2 == init[0] / 2
            && s.page[4..] == init[4..]
  {
    var plans := CommandPlans(cmds);
    ReachedOk(plans, init, readers, schedule);
    var s := Reached(plans, init, readers, schedule);
    CommandsCommitted(cmds, init, s.log);
    if Odd(s.page[0]) {
      var h: nat :| HeldBy(plans, init, s, h);
      CommandApplied(Committed(plans, init, s.log), cmds[h], Progress(plans[h], s.writers[h]));
    }
  }

  // Readers

  /** A read that returned, with no section completed between its two looks at byte 0, holds
      exactly the payload committed at that time: under every order and interleaving of the
      byte copy, and for writers with any payload stores. */
  lemma ReaderSeesCommitted(plans: Plans, init: Page, readers: nat, schedule: seq<Event>, r: nat)
    requires !Odd(init[0]) && r < readers
    ensures var s := Reached(plans, init, readers, schedule);
            LogOf(plans, s.log) &&
            match s.readers[r]
            case Returned(buf, since, until) =>
              && since <= until <= |s.log| && Complete(buf)
              && (since == until ==> forall i: PayloadIndex :: buf[i] == Committed(plans, init, s.log[..since])[i])
            case _ => true
  {
    ReachedOk(plans, init, readers, schedule);
    var s := Reached(plans, init, readers, schedule);
    assert ReaderOk(plans, init, s, s.readers[r]);
  }

  // Composing runs

  lemma RunFirst(plans: Plans, s: State, e: Event, rest: seq<Event>)
    requires |s.writers| == |plans|
    ensures Run(plans, s, [e] + rest) == Run(plans, Step(plans, s, e), rest)
  {
    assert ([e] + rest)[0] == e && ([e] + rest)[1..] == rest;
  }

  lemma RunJoin(plans: Plans, s: State, a: seq<Event>, b: seq<Event>, mid: State, end: State)
    requires |s.writers| == |plans| && Run(plans, s, a) == mid && Run(plans, mid, b) == end
    ensures Run(plans, s, a + b) == end
  {
    RunConcat(plans, s, a, b);
  }

  lemma RunOne(plans: Plans, s: State, e: Event)
    requires |s.writers| == |plans|
    ensures Run(plans, s, [e]) == Step(plans, s, e)
  {
    RunFirst(plans, s, e, []);
    assert [e] + [] == [e];
  }
}
