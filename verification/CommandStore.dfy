/** The write and read paths of interface/internal/storage/storage.go on a mapped page, with the
    other processes' steps interleaved between any two accesses.

    `m` is the state of everyone sharing the page; `trace` is the schedule that led to it. Each
    method performs its own accesses on `bytes` and is proved to be a run of the protocol, so
    every guarantee of `SeqlockSafety` holds at every point of it. */
module CommandStore {
  import opened Bytes
  import opened Options
  import opened SeqlockProtocol
  import opened SeqlockReads
  import opened SeqlockProgress
  import opened SeqlockSafety
  import opened SeqlockTorn

  datatype SeqError = InvalidPage | Misaligned | RetriesExhausted

  datatype WriteResult = Written | NotMapped | LockFailed(error: SeqError) | FlushFailed

  class Mapping {
    const bytes: array<byte>
    const cmds: seq<byte>
    const readers: nat
    ghost const init: Page
    /** The length of the mapped region: 0 once the store is closed. */
    var mappedLen: nat
    /** Whether the mapping starts at a multiple of four. */
    const aligned: bool
    var m: State
    ghost var trace: seq<Event>

    ghost predicate Valid()
      reads this, bytes
    {
      && bytes.Length == PAGE_SIZE && !Odd(init[0])
      && m == Reached(CommandPlans(cmds), init, readers, trace)
      && bytes[..] == m.page
    }

    constructor (page: Page, cmds: seq<byte>, readers: nat, aligned: bool)
      requires !Odd(page[0])
      ensures Valid() && mappedLen == PAGE_SIZE && trace == [] && init == page && fresh(bytes)
      ensures this.cmds == cmds && this.readers == readers && this.aligned == aligned
    {
      bytes := new byte[PAGE_SIZE](i requires 0 <= i < PAGE_SIZE => page[i]);
      this.cmds, this.readers, this.aligned, init, mappedLen := cmds, readers, aligned, page, PAGE_SIZE;
      m := Start(CommandPlans(cmds), page, readers);
      trace := [];
    }

    /** The word that the CAS loops work on needs four bytes at an aligned address. */
    function CommandsSeqWord(pageLen: nat): (err: Option<SeqError>)
      ensures err.None? <==> pageLen >= 4 && aligned
    {
      if pageLen < 4 then Some(InvalidPage) else if !aligned then Some(Misaligned) else None
    }

    /** Record that the access just made on `bytes` was the step `e`. */
    method Act(e: Event)
      requires bytes.Length == PAGE_SIZE && !Odd(init[0])
      requires m == Reached(CommandPlans(cmds), init, readers, trace)
      requires bytes[..] == Step(CommandPlans(cmds), m, e).page
      modifies this`m, this`trace
      ensures Valid() && m == Step(CommandPlans(cmds), old(m), e) && trace == old(trace) + [e]
    {
      RunConcat(CommandPlans(cmds), Start(CommandPlans(cmds), init, readers), trace, [e]);
      RunOne(CommandPlans(cmds), m, e);
      m := Step(CommandPlans(cmds), m, e);
      trace := trace + [e];
    }

    /** Any steps of the others. */
    method Interfere(env: seq<Event>)
      requires Valid()
      modifies this`m, this`trace, bytes
      ensures Valid() && m == Run(CommandPlans(cmds), old(m), env) && trace == old(trace) + env
    {
      RunConcat(CommandPlans(cmds), Start(CommandPlans(cmds), init, readers), trace, env);
      m := Run(CommandPlans(cmds), m, env);
      trace := trace + env;
      forall i | 0 <= i < PAGE_SIZE {
        bytes[i] := m.page[i];
      }
    }

    /** What everyone has done since `m` was `before` and `trace` was `past`. */
    lemma Since(before: State, past: seq<Event>)
      requires Valid() && past <= trace && before == Reached(CommandPlans(cmds), init, readers, past)
      ensures m == Run(CommandPlans(cmds), before, trace[|past|..])
    {
      assert trace == past + trace[|past|..];
      RunConcat(CommandPlans(cmds), Start(CommandPlans(cmds), init, readers), past, trace[|past|..]);
    }

    method InterfereWithWriter(env: seq<Event>, me: nat)
      requires Valid() && me < |cmds| && forall e :: e in env ==> NotBy(e, me)
      modifies this`m, this`trace, bytes
      ensures Valid() && old(trace) <= trace && m.writers[me] == old(m.writers[me])
    {
      OthersKeepWriter(CommandPlans(cmds), m, env, me);
      Interfere(env);
    }

    /** Refuses an unusable word without touching anything; otherwise returns with the lock taken,
        or having given up. */
    method SeqLockCommandsBegin(me: nat, pageLen: nat, env: nat -> seq<Event>) returns (err: Option<SeqError>)
      requires Valid() && me < |cmds| && m.writers[me] == BeginLoad(0)
      requires forall t, e :: e in env(t) ==> NotBy(e, me)
      modifies this`m, this`trace, bytes
      ensures Valid() && old(trace) <= trace
      ensures CommandsSeqWord(pageLen).Some? ==>
                err == CommandsSeqWord(pageLen) && m == old(m) && trace == old(trace) && bytes[..] == old(bytes[..])
      ensures CommandsSeqWord(pageLen).None? ==>
                (err == None && m.writers[me] == Body(0)) || (err == Some(RetriesExhausted) && m.writers[me] == GaveUp)
      ensures err == Some(RetriesExhausted) ==>
                && Misses(CommandPlans(cmds), old(m), trace[|old(trace)|..], me) == 4_194_304
                && OwnSteps(trace[|old(trace)|..], Write(me)) > 4_194_304
    {
      err := CommandsSeqWord(pageLen);
      if err.Some? {
        return;
      }
      for spin := 0 to MAX_SPINS
        invariant Valid() && old(trace) <= trace && m.writers[me] == BeginLoad(spin)
      {
        InterfereWithWriter(env(2 * spin), me);
        var w := bytes[..4];
        Act(Write(me));
        if Odd(w[0]) {
          continue;
        }
        InterfereWithWriter(env(2 * spin + 1), me);
        var swapped := bytes[..4] == w;
        if swapped {
          bytes[0] := Toggle(w[0]);
        }
        Act(Write(me));
        if swapped {
          return None;
        }
      }
      Act(Write(me));
      Since(old(m), old(trace));
      WriterAccounts(CommandPlans(cmds), old(m), trace[|old(trace)|..], me);
      return Some(RetriesExhausted);
    }

    /** On a usable word it never fails: the lock byte is odd and the first CAS succeeds, so the retry
        and the retry error of the source are unreachable. */
    method SeqLockCommandsEnd(me: nat, pageLen: nat, env: nat -> seq<Event>) returns (err: Option<SeqError>)
      requires Valid() && me < |cmds| && m.writers[me] == EndLoad(0)
      requires forall t, e :: e in env(t) ==> NotBy(e, me)
      modifies this`m, this`trace, bytes
      ensures Valid() && old(trace) <= trace && err == CommandsSeqWord(pageLen)
      ensures err.Some? ==> m == old(m) && trace == old(trace) && bytes[..] == old(bytes[..])
      ensures err.None? ==> m.writers[me] == Done && me in m.log && bytes[..] == CommandPage(init, cmds[me])
    {
      err := CommandsSeqWord(pageLen);
      if err.Some? {
        return;
      }
      ghost var plans := CommandPlans(cmds);
      for spin := 0 to MAX_SPINS
        invariant Valid() && old(trace) <= trace && m.writers[me] == EndLoad(0) && spin == 0 && err.None?
      {
        InterfereWithWriter(env(2 * spin), me);
        UnlockSucceedsFirstTime(plans, init, readers, trace, me);
        var w := bytes[..4];
        Act(Write(me));
        if !Odd(w[0]) {
          assert false;
        }
        InterfereWithWriter(env(2 * spin + 1), me);
        UnlockSucceedsFirstTime(plans, init, readers, trace, me);
        var swapped := bytes[..4] == w;
        if swapped {
          bytes[0] := Toggle(w[0]);
          Act(Write(me));
          CommandPageContents(cmds, init, readers, trace);
          MutualExclusion(plans, init, readers, trace);
          return None;
        }
        assert false;
      }
      assert false;
    }

    method StoreByte(me: nat, k: nat, at: PayloadIndex, val: byte, env: seq<Event>)
      requires Valid() && me < |cmds| && m.writers[me] == Body(k)
      requires k < 3 && CommandStores(cmds[me])[k] == Store(at, val)
      requires forall e :: e in env ==> NotBy(e, me)
      modifies this`m, this`trace, bytes
      ensures Valid() && old(trace) <= trace && m.writers[me] == Body(k + 1)
    {
      InterfereWithWriter(env, me);
      bytes[at] := val;
      Act(Write(me));
    }

    /** The stores of one command, made while holding the lock. */
    method StoreCommand(me: nat, cmd: byte, env: nat -> seq<Event>)
      requires Valid() && me < |cmds| && cmds[me] == cmd && m.writers[me] == Body(0)
      requires forall t, e :: e in env(t) ==> NotBy(e, me)
      modifies this`m, this`trace, bytes
      ensures Valid() && old(trace) <= trace && m.writers[me] == EndLoad(0)
    {
      StoreByte(me, 0, 1, cmd, env(0));
      StoreByte(me, 1, 2, 0, env(1));
      StoreByte(me, 2, 3, 0, env(2));
      Act(Write(me));
    }

    /** `flushOk` is how the final flush of the mapping goes. */
    method WriteCommand(me: nat, cmd: byte, flushOk: bool, env: (nat, nat) -> seq<Event>) returns (result: WriteResult)
      requires Valid() && me < |cmds| && cmds[me] == cmd && m.writers[me] == BeginLoad(0)
      requires forall t, u, e :: e in env(t, u) ==> NotBy(e, me)
      modifies this`m, this`trace, bytes
      ensures Valid() && old(trace) <= trace
      ensures result.NotMapped? <==> mappedLen < PAGE_SIZE
      ensures mappedLen >= PAGE_SIZE ==> (result == LockFailed(Misaligned) <==> !aligned)
      ensures result.NotMapped? || result == LockFailed(Misaligned) ==>
                m == old(m) && trace == old(trace) && bytes[..] == old(bytes[..])
      ensures result.LockFailed? && aligned ==>
                && result.error == RetriesExhausted && m.writers[me] == GaveUp && me !in m.log
                && Misses(CommandPlans(cmds), old(m), trace[|old(trace)|..], me) == 4_194_304
      ensures result.Written? || result.FlushFailed? ==>
                && (result.Written? <==> flushOk)
                && m.writers[me] == Done && me in m.log && bytes[..] == CommandPage(init, cmd)
    {
      if mappedLen < PAGE_SIZE {
        return NotMapped;
      }
      var err := SeqLockCommandsBegin(me, PAGE_SIZE, (u: nat) => env(0, u));
      if err.Some? {
        MutualExclusion(CommandPlans(cmds), init, readers, trace);
        return LockFailed(err.value);
      }
      StoreCommand(me, cmd, (u: nat) => env(1, u));
      err := SeqLockCommandsEnd(me, PAGE_SIZE, (u: nat) => env(2, u));
      if err.Some? {
        assert false;
      }
      return if flushOk then Written else FlushFailed;
    }

    method InterfereWithReader(env: seq<Event>, me: nat)
      requires Valid() && me < |m.readers| && forall e :: e in env ==> NotRead(e, me)
      modifies this`m, this`trace, bytes
      ensures Valid() && old(trace) <= trace && |m.readers| == |old(m.readers)| && m.readers[me] == old(m.readers[me])
    {
      OthersKeepReader(CommandPlans(cmds), m, env, me);
      Interfere(env);
    }

    /** The byte copy of one attempt. */
    method CopyPayload(me: nat, buf: array<byte>, env: nat -> seq<Event>)
      requires Valid() && me < |m.readers| && m.readers[me].Copying? && m.readers[me].buf == map[]
      requires buf.Length == PAGE_SIZE - 1 && buf != bytes
      requires forall t, e :: e in env(t) ==> NotRead(e, me)
      modifies this`m, this`trace, bytes, buf
      ensures Valid() && old(trace) <= trace && |m.readers| == |old(m.readers)|
      ensures var r, before := m.readers[me], old(m.readers[me]);
              && r.Copying? && r == Copying(before.spin, before.s1, r.buf, before.since) && Complete(r.buf)
              && forall i: PayloadIndex :: buf[i - 1] == r.buf[i]
    {
      ghost var before := m.readers[me];
      for i := 1 to PAGE_SIZE
        invariant Valid() && old(trace) <= trace && |m.readers| == |old(m.readers)|
        invariant m.readers[me].Copying?
        invariant m.readers[me] == Copying(before.spin, before.s1, m.readers[me].buf, before.since)
        invariant forall j: PayloadIndex :: j in m.readers[me].buf <==> j < i
        invariant forall j: PayloadIndex :: j < i ==> buf[j - 1] == m.readers[me].buf[j]
      {
        InterfereWithReader(env(i), me);
        buf[i - 1] := bytes[i];
        Act(CopyByte(me, i));
      }
    }

    /** On success `buf` is what the protocol's reader returned: the payload committed at its first
        look if no section completed before its second, and on a page whose reserved bytes start
        zero a payload committed between the two in any case. */
    method ReadSeqlockedPayload(me: nat, pageLen: nat, buf: array<byte>, env: (nat, nat) -> seq<Event>)
      returns (err: Option<SeqError>)
      requires Valid() && me < |m.readers| && m.readers[me] == Idle(0)
      requires buf.Length == PAGE_SIZE - 1 && buf != bytes
      requires forall t, u, e :: e in env(t, u) ==> NotRead(e, me)
      modifies this`m, this`trace, bytes, buf
      ensures Valid() && old(trace) <= trace && |m.readers| == |old(m.readers)|
      ensures err == Some(InvalidPage) <==> pageLen != PAGE_SIZE
      ensures err == Some(InvalidPage) ==> m == old(m) && trace == old(trace) && bytes[..] == old(bytes[..])
      ensures err.Some? && pageLen == PAGE_SIZE ==>
                && err == Some(RetriesExhausted) && m.readers[me] == Exhausted
                && ReadMisses(CommandPlans(cmds), old(m), trace[|old(trace)|..], me) == 4_194_304
      ensures err.None? ==> var r := m.readers[me];
                     && r.Returned? && Complete(r.buf) && (forall i: PayloadIndex :: buf[i - 1] == r.buf[i])
                     && r.since <= r.until <= |m.log| && LogOf(CommandPlans(cmds), m.log)
                     && (r.since == r.until ==>
                           buf[..] == Committed(CommandPlans(cmds), init, m.log[..r.since])[1..])
                     && (init[2] == 0 && init[3] == 0 ==>
                           exists n :: r.since <= n <= r.until && HoldsCommitted(CommandPlans(cmds), init, m.log, r.buf, n))
    {
      if pageLen != PAGE_SIZE {
        return Some(InvalidPage);
      }
      for spin := 0 to MAX_SPINS
        invariant Valid() && old(trace) <= trace && |m.readers| == |old(m.readers)|
        invariant m.readers[me] == Idle(spin)
      {
        InterfereWithReader(env(spin, 0), me);
        var s1 := bytes[0];
        Act(Read(me));
        if Odd(s1) {
          continue;
        }
        CopyPayload(me, buf, (u: nat) => env(spin, u));
        InterfereWithReader(env(spin, PAGE_SIZE), me);
        var s2 := bytes[0];
        Act(Read(me));
        if s1 == s2 && !Odd(s2) {
          ReaderSeesCommitted(CommandPlans(cmds), init, readers, trace, me);
          CommandReadCommitted(me);
          return None;
        }
      }
      Act(Read(me));
      Since(old(m), old(trace));
      ReaderAccounts(CommandPlans(cmds), old(m), trace[|old(trace)|..], me);
      return Some(RetriesExhausted);
    }

    lemma CommandReadCommitted(me: nat)
      requires Valid() && me < |m.readers| && m.readers[me].Returned?
      requires LogOf(CommandPlans(cmds), m.log) && m.readers[me].since <= m.readers[me].until
      ensures var r := m.readers[me];
              init[2] == 0 && init[3] == 0 ==>
                exists n :: r.since <= n <= r.until && HoldsCommitted(CommandPlans(cmds), init, m.log, r.buf, n)
    {
      if init[2] == 0 && init[3] == 0 {
        var r := m.readers[me];
        CommandPageNeverTorn(cmds, init);
        RunKeepsReaders(CommandPlans(cmds), init, readers, trace);
        assert ReturnedWithGap(CommandPlans(cmds), init, readers, trace, me, r.until - r.since);
        assert ReturnedCommitted(CommandPlans(cmds), init, readers, trace, me);
      }
    }
  }

  lemma RunKeepsReaders(plans: Plans, init: Page, readers: nat, schedule: seq<Event>)
    ensures |Reached(plans, init, readers, schedule).readers| == readers
  {
  }
}
