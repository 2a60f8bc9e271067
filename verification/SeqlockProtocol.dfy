/** The toggle seqlock of interface/internal/storage/storage.go as interleaved atomic steps.

    Any number of writers (each one call of the write path, in any process) and readers share
    one 128-byte page. A step is one 32-bit load, one compare-and-swap, one byte store or one
    byte load; the 32-bit little-endian word at the start of the page is its four bytes. A
    schedule is any sequence of steps. `log` records completed sections in order. */
module SeqlockProtocol {
  import opened Bytes


  const PAGE_SIZE := 128
  const MAX_SPINS := 0x40_0000

  type Page = p: seq<byte> | |p| == PAGE_SIZE witness seq(PAGE_SIZE, _ => 0)
  type Word = w: seq<byte> | |w| == 4 witness [0, 0, 0, 0]
  type PayloadIndex = i: int | 1 <= i < PAGE_SIZE witness 1

  datatype Store = Store(at: PayloadIndex, val: byte)

  /** What each writer stores between its Begin and its End. */
  type Plans = seq<seq<Store>>

  datatype Writer =
    | BeginLoad(spin: nat)
    | BeginCas(spin: nat, w: Word)
    | Body(next: nat)
    | EndLoad(spin: nat)
    | EndCas(spin: nat, w: Word)
    | Done
    | GaveUp     // Begin exhausted its spins
    | Stuck      // End exhausted its spins, leaving the page locked

  datatype Reader =
    | Idle(spin: nat)
    | Copying(spin: nat, s1: byte, buf: map<PayloadIndex, byte>, since: nat)
    | Returned(buf: map<PayloadIndex, byte>, since: nat, until: nat)
    | Exhausted

  /** `since` and `until` are the log lengths at the reader's first and second look at byte 0. */
  datatype State = State(page: Page, writers: seq<Writer>, readers: seq<Reader>, log: seq<nat>)

  datatype Event = Write(id: nat) | Read(id: nat) | CopyByte(id: nat, at: PayloadIndex)

  predicate Odd(b: byte) {
    b % 2 == 1
  }

  /** `b ^ 1`. */
  function Toggle(b: byte): byte {
    if Odd(b) then b - 1 else b + 1
  }

  predicate Complete(buf: map<PayloadIndex, byte>) {
    forall i: PayloadIndex :: i in buf
  }

  // Steps

  function WriterStep(plan: seq<Store>, s: State, id: nat): State
    requires id < |s.writers|
  {
    match s.writers[id]
    case BeginLoad(spin) =>
      if spin >= MAX_SPINS then s.(writers := s.writers[id := GaveUp])
      else if Odd(s.page[0]) then s.(writers := s.writers[id := BeginLoad(spin + 1)])
      else s.(writers := s.writers[id := BeginCas(spin, s.page[..4])])
    case BeginCas(spin, w) =>
      if s.page[..4] == w
      then s.(page := s.page[0 := Toggle(w[0])], writers := s.writers[id := Body(0)])
      else s.(writers := s.writers[id := BeginLoad(spin + 1)])
    case Body(k) =>
      if k < |plan|
      then s.(page := s.page[plan[k].at := plan[k].val], writers := s.writers[id := Body(k + 1)])
      else s.(writers := s.writers[id := EndLoad(0)])
    case EndLoad(spin) =>
      if spin >= MAX_SPINS then s.(writers := s.writers[id := Stuck])
      else if !Odd(s.page[0]) then s.(writers := s.writers[id := EndLoad(spin + 1)])
      else s.(writers := s.writers[id := EndCas(spin, s.page[..4])])
    case EndCas(spin, w) =>
      if s.page[..4] == w
      then s.(page := s.page[0 := Toggle(w[0])], writers := s.writers[id := Done], log := s.log + [id])
      else s.(writers := s.writers[id := EndLoad(spin + 1)])
    case _ => s
  }

  function ReaderStep(s: State, id: nat): State
    requires id < |s.readers|
  {
    match s.readers[id]
    case Idle(spin) =>
      if spin >= MAX_SPINS then s.(readers := s.readers[id := Exhausted])
      else if Odd(s.page[0]) then s.(readers := s.readers[id := Idle(spin + 1)])
      else s.(readers := s.readers[id := Copying(spin, s.page[0], map[], |s.log|)])
    case Copying(spin, s1, buf, since) =>
      if !Complete(buf) then s
      else if s.page[0] == s1 && !Odd(s.page[0])
      then s.(readers := s.readers[id := Returned(buf, since, |s.log|)])
      else s.(readers := s.readers[id := Idle(spin + 1)])
    case _ => s
  }

  /** The byte copy may proceed in any order. */
  function CopyStep(s: State, id: nat, at: PayloadIndex): State
    requires id < |s.readers|
  {
    match s.readers[id]
    case Copying(spin, s1, buf, since) =>
      if at in buf then s
      else s.(readers := s.readers[id := Copying(spin, s1, buf[at := s.page[at]], since)])
    case _ => s
  }

  function Step(plans: Plans, s: State, e: Event): State
    requires |s.writers| == |plans|
    ensures |Step(plans, s, e).writers| == |plans| && |Step(plans, s, e).readers| == |s.readers|
  {
    match e
    case Write(id) => if id < |plans| then WriterStep(plans[id], s, id) else s
    case Read(id) => if id < |s.readers| then ReaderStep(s, id) else s
    case CopyByte(id, at) => if id < |s.readers| then CopyStep(s, id, at) else s
  }

  function Run(plans: Plans, s: State, schedule: seq<Event>): (r: State)
    requires |s.writers| == |plans|
    ensures |r.writers| == |plans| && |r.readers| == |s.readers|
    decreases schedule
  {
    if schedule == [] then s else Run(plans, Step(plans, s, schedule[0]), schedule[1..])
  }

  function Start(plans: Plans, page: Page, readers: nat): State {
    State(page, seq(|plans|, _ => BeginLoad(0)), seq(readers, _ => Idle(0)), [])
  }

  // What completed sections leave behind

  function Applied(page: Page, stores: seq<Store>): (p: Page)
    ensures p[0] == page[0]
    decreases |stores|
  {
    if stores == [] then page
    else
      var last := stores[|stores| - 1];
      Applied(page, stores[..|stores| - 1])[last.at := last.val]
  }

  ghost predicate LogOf(plans: Plans, log: seq<nat>) {
    forall i :: 0 <= i < |log| ==> log[i] < |plans|
  }

  /** The initial page with the logged sections applied in order: the reference the shared
      page is compared with. */
  ghost function Committed(plans: Plans, page: Page, log: seq<nat>): (p: Page)
    requires LogOf(plans, log)
    ensures p[0] == page[0]
    decreases |log|
  {
    if log == [] then page
    else Applied(Committed(plans, page, log[..|log| - 1]), plans[log[|log| - 1]])
  }

  // The invariant

  predicate InSection(w: Writer) {
    w.Body? || w.EndLoad? || w.EndCas?
  }

  ghost predicate OnlyHolder(s: State, h: nat) {
    && h < |s.writers| && InSection(s.writers[h])
    && forall j :: 0 <= j < |s.writers| && InSection(s.writers[j]) ==> j == h
  }

  ghost predicate NoHolder(s: State) {
    forall j :: 0 <= j < |s.writers| ==> !InSection(s.writers[j])
  }

  /** How many of its stores a writer inside its section has made. */
  function Progress(plan: seq<Store>, w: Writer): nat
    requires InSection(w)
  {
    match w
    case Body(k) => k
    case _ => |plan|
  }

  /** The page of a writer `h` part way through its section. */
  ghost predicate HeldBy(plans: Plans, init: Page, s: State, h: nat)
    requires |s.writers| == |plans| && LogOf(plans, s.log)
  {
    && OnlyHolder(s, h)
    && Progress(plans[h], s.writers[h]) <= |plans[h]|
    && s.page == Applied(Committed(plans, init, s.log), plans[h][..Progress(plans[h], s.writers[h])])[0 := Toggle(init[0])]
    && (s.writers[h].EndLoad? ==> s.writers[h].spin == 0)
    && (s.writers[h].EndCas? ==> s.writers[h].spin == 0 && s.writers[h].w == s.page[..4])
  }

  ghost predicate WritersOk(plans: Plans, init: Page, s: State) {
    && !Odd(init[0])
    && |s.writers| == |plans| && LogOf(plans, s.log)
    && (!Odd(s.page[0]) ==> NoHolder(s) && s.page == Committed(plans, init, s.log))
    && (Odd(s.page[0]) ==> exists h :: HeldBy(plans, init, s, h))
    && (forall j :: 0 <= j < |s.writers| ==> !s.writers[j].Stuck?)
    && (forall j :: 0 <= j < |s.writers| && s.writers[j].BeginCas? ==> !Odd(s.writers[j].w[0]))
    && (forall j :: 0 <= j < |s.writers| ==> (s.writers[j].Done? <==> j in s.log))
    && (forall i, j :: 0 <= i < j < |s.log| ==> s.log[i] != s.log[j])
  }

  ghost predicate ReaderOk(plans: Plans, init: Page, s: State, r: Reader)
    requires LogOf(plans, s.log)
  {
    match r
    case Copying(_, _, buf, since) =>
      && since <= |s.log|
      && (since == |s.log| && !Odd(s.page[0]) ==> forall i :: i in buf ==> buf[i] == s.page[i])
    case Returned(buf, since, until) =>
      && since <= until <= |s.log| && Complete(buf)
      && (since == until ==> forall i: PayloadIndex :: buf[i] == Committed(plans, init, s.log[..since])[i])
    case _ => true
  }

  ghost predicate Inv(plans: Plans, init: Page, s: State) {
    WritersOk(plans, init, s) && forall r :: 0 <= r < |s.readers| ==> ReaderOk(plans, init, s, s.readers[r])
  }

  lemma StartOk(plans: Plans, init: Page, readers: nat)
    requires !Odd(init[0])
    ensures Inv(plans, init, Start(plans, init, readers))
  {
  }

  // Every step keeps the invariant

  lemma AppliedExtend(page: Page, stores: seq<Store>, k: nat)
    requires k < |stores|
    ensures Applied(page, stores[..k + 1]) == Applied(page, stores[..k])[stores[k].at := stores[k].val]
  {
    assert stores[..k + 1][..k] == stores[..k];
  }

  lemma CommittedExtend(plans: Plans, page: Page, log: seq<nat>, id: nat)
    requires LogOf(plans, log) && id < |plans|
    ensures LogOf(plans, log + [id])
    ensures Committed(plans, page, log + [id]) == Applied(Committed(plans, page, log), plans[id])
  {
    assert (log + [id])[..|log|] == log;
  }

  /** Outside its section a writer that does not take the lock changes only its own state. */
  lemma LosingStepKeeps(plans: Plans, init: Page, s: State, id: nat, w: Writer)
    requires WritersOk(plans, init, s) && id < |plans|
    requires !InSection(s.writers[id]) && !s.writers[id].Done?
    requires !InSection(w) && !w.Done? && !w.Stuck? && (w.BeginCas? ==> !Odd(w.w[0]))
    ensures WritersOk(plans, init, s.(writers := s.writers[id := w]))
  {
    var s' := s.(writers := s.writers[id := w]);
    if Odd(s.page[0]) {
      var h: nat :| HeldBy(plans, init, s, h);
      assert HeldBy(plans, init, s', h);
    }
  }

  lemma WinningCasKeeps(plans: Plans, init: Page, s: State, id: nat)
    requires WritersOk(plans, init, s) && id < |plans|
    requires s.writers[id].BeginCas? && s.page[..4] == s.writers[id].w
    ensures WritersOk(plans, init, WriterStep(plans[id], s, id))
  {
    var s' := WriterStep(plans[id], s, id);
    assert s.page[0] == s.page[..4][0] == s.writers[id].w[0];
    assert plans[id][..0] == [];
    assert HeldBy(plans, init, s', id);
  }

  lemma BeginStepKeeps(plans: Plans, init: Page, s: State, id: nat)
    requires WritersOk(plans, init, s) && id < |plans|
    requires s.writers[id].BeginLoad? || s.writers[id].BeginCas?
    ensures WritersOk(plans, init, WriterStep(plans[id], s, id))
  {
    if s.writers[id].BeginCas? && s.page[..4] == s.writers[id].w {
      WinningCasKeeps(plans, init, s, id);
    } else {
      var w' := WriterStep(plans[id], s, id).writers[id];
      LosingStepKeeps(plans, init, s, id, w');
    }
  }

  lemma BodyStepKeeps(plans: Plans, init: Page, s: State, id: nat)
    requires WritersOk(plans, init, s) && id < |plans| && (s.writers[id].Body? || s.writers[id].EndLoad?)
    ensures WritersOk(plans, init, WriterStep(plans[id], s, id))
  {
    var s', plan := WriterStep(plans[id], s, id), plans[id];
    var h: nat :| HeldBy(plans, init, s, h);
    assert h == id;
    if s.writers[id].Body? && s.writers[id].next < |plan| {
      AppliedExtend(Committed(plans, init, s.log), plan, s.writers[id].next);
    }
    assert HeldBy(plans, init, s', id);
  }

  lemma EndCasKeeps(plans: Plans, init: Page, s: State, id: nat)
    requires WritersOk(plans, init, s) && id < |plans| && s.writers[id].EndCas?
    ensures WritersOk(plans, init, WriterStep(plans[id], s, id))
    ensures WriterStep(plans[id], s, id).log == s.log + [id]
  {
    var s', plan := WriterStep(plans[id], s, id), plans[id];
    var h: nat :| HeldBy(plans, init, s, h);
    assert h == id && plan[..|plan|] == plan;
    assert s.writers[id].w[0] == s.page[0] == Toggle(init[0]);
    CommittedExtend(plans, init, s.log, id);
    assert s'.page == Applied(Committed(plans, init, s.log), plan);
    assert NoHolder(s');
  }

  lemma WriterStepKeeps(plans: Plans, init: Page, s: State, id: nat)
    requires WritersOk(plans, init, s) && id < |plans|
    ensures WritersOk(plans, init, WriterStep(plans[id], s, id))
  {
    match s.writers[id] {
      case BeginLoad(_) => BeginStepKeeps(plans, init, s, id);
      case BeginCas(_, _) => BeginStepKeeps(plans, init, s, id);
      case Body(_) => BodyStepKeeps(plans, init, s, id);
      case EndLoad(_) => BodyStepKeeps(plans, init, s, id);
      case EndCas(_, _) => EndCasKeeps(plans, init, s, id);
      case _ =>
    }
  }

  /** A writer's step either leaves the page alone, or leaves it locked, or completes a section:
      in each case what readers have copied stays as good as it was. */
  lemma WriterStepKeepsReader(plans: Plans, init: Page, s: State, id: nat, r: Reader)
    requires WritersOk(plans, init, s) && id < |plans| && ReaderOk(plans, init, s, r)
    ensures LogOf(plans, WriterStep(plans[id], s, id).log) && ReaderOk(plans, init, WriterStep(plans[id], s, id), r)
  {
    WriterStepKeeps(plans, init, s, id);
    var s' := WriterStep(plans[id], s, id);
    assert s'.log == s.log || s'.log == s.log + [id];
    assert s'.log == s.log ==> s'.page == s.page || Odd(s'.page[0]) by {
      if s.writers[id].BeginCas? && s.page[..4] == s.writers[id].w {
        assert s.page[0] == s.page[..4][0];
      } else if InSection(s.writers[id]) {
        var h :| HeldBy(plans, init, s, h);
      }
    }
    if r.Returned? {
      assert s'.log[..r.since] == s.log[..r.since];
    }
  }

  lemma SharedPartKeeps(plans: Plans, init: Page, s: State, s': State)
    requires WritersOk(plans, init, s)
    requires s'.page == s.page && s'.writers == s.writers && s'.log == s.log
    ensures WritersOk(plans, init, s')
  {
    if Odd(s.page[0]) {
      var h: nat :| HeldBy(plans, init, s, h);
      assert HeldBy(plans, init, s', h);
    }
  }

  lemma ReaderStepKeeps(plans: Plans, init: Page, s: State, e: Event)
    requires Inv(plans, init, s) && !e.Write?
    ensures Inv(plans, init, Step(plans, s, e))
  {
    var s' := Step(plans, s, e);
    assert s'.page == s.page && s'.writers == s.writers && s'.log == s.log;
    SharedPartKeeps(plans, init, s, s');
    forall r | 0 <= r < |s'.readers|
      ensures ReaderOk(plans, init, s', s'.readers[r])
    {
      ReaderStepKeepsReader(plans, init, s, e, r);
    }
  }

  lemma ReaderStepKeepsReader(plans: Plans, init: Page, s: State, e: Event, r: nat)
    requires WritersOk(plans, init, s) && !e.Write? && r < |s.readers| && ReaderOk(plans, init, s, s.readers[r])
    ensures ReaderOk(plans, init, Step(plans, s, e), Step(plans, s, e).readers[r])
  {
    assert s.log[..|s.log|] == s.log;
  }

  lemma StepKeeps(plans: Plans, init: Page, s: State, e: Event)
    requires Inv(plans, init, s)
    ensures Inv(plans, init, Step(plans, s, e))
  {
    if e.Write? && e.id < |plans| {
      WriterStepKeeps(plans, init, s, e.id);
      forall r | 0 <= r < |s.readers|
        ensures ReaderOk(plans, init, Step(plans, s, e), s.readers[r])
      {
        WriterStepKeepsReader(plans, init, s, e.id, s.readers[r]);
      }
    } else if !e.Write? {
      ReaderStepKeeps(plans, init, s, e);
    }
  }

  lemma {:induction false} RunKeeps(plans: Plans, init: Page, s: State, schedule: seq<Event>)
    requires Inv(plans, init, s)
    ensures Inv(plans, init, Run(plans, s, schedule))
    decreases schedule
  {
    if schedule != [] {
      StepKeeps(plans, init, s, schedule[0]);
      RunKeeps(plans, init, Step(plans, s, schedule[0]), schedule[1..]);
    }
  }

  lemma {:induction false} RunConcat(plans: Plans, s: State, a: seq<Event>, b: seq<Event>)
    requires |s.writers| == |plans|
    ensures Run(plans, s, a + b) == Run(plans, Run(plans, s, a), b)
    decreases a
  {
    if a == [] {
      assert a + b == b;
    } else {
      assert (a + b)[0] == a[0] && (a + b)[1..] == a[1..] + b;
      RunConcat(plans, Step(plans, s, a[0]), a[1..], b);
    }
  }
}
