/** Whole traces of simulator accesses. */
module I2cRuns {
  import opened Bytes
  import opened I2cModel

  ghost function After(d: Desc, p: Port, ops: seq<Op>): (r: Port)
    requires FramesFit(d, p)
    ensures FramesFit(d, r)
    decreases |ops|
  {
    if ops == [] then p
    else
      var before := After(d, p, ops[..|ops| - 1]);
      StepFits(d, before, ops[|ops| - 1]);
      Step(d, before, ops[|ops| - 1]).0
  }

  ghost function ReadsServed(d: Desc, p: Port, ops: seq<Op>): nat
    requires FramesFit(d, p)
    decreases |ops|
  {
    if ops == [] then 0
    else
      var n := |ops| - 1;
      ReadsServed(d, p, ops[..n]) + if ops[n].Read? && Serves(d, After(d, p, ops[..n]), ops[n]) then 1 else 0
  }

  /** The head has moved past exactly as many frames as reads have succeeded, no frame appears or
      disappears, and so at most the remaining frames can ever be read. */
  lemma {:induction false} HeadCountsReads(d: Desc, p: Port, ops: seq<Op>)
    requires FramesFit(d, p) && p.Tape?
    ensures var r := After(d, p, ops);
            && r.Tape? && |r.past| == |p.past| + ReadsServed(d, p, ops)
            && |r.past| + |r.rest| == |p.past| + |p.rest|
    ensures ReadsServed(d, p, ops) <= |p.rest|
    decreases |ops|
  {
    if ops != [] {
      HeadCountsReads(d, p, ops[..|ops| - 1]);
    }
  }

  /** The write puts a byte at offset `b` of the frame under the head. */
  ghost predicate Covers(d: Desc, op: Op, b: nat) {
    op.Write? && op.reg - d.startReg <= b < op.reg - d.startReg + |op.data|
  }

  /** The byte that the trace leaves at offset `b` of frame `k`: the one of the last accepted write
      that covered it while frame `k` was under the head, or else `original`. */
  ghost function LastWrittenOr(d: Desc, p: Port, ops: seq<Op>, k: nat, b: nat, original: byte): byte
    requires FramesFit(d, p) && p.Tape?
    decreases |ops|
  {
    if ops == [] then original
    else
      var n := |ops| - 1;
      var op := ops[n];
      if Serves(d, After(d, p, ops[..n]), op) && Covers(d, op, b) && |p.past| + ReadsServed(d, p, ops[..n]) == k
      then op.data[b - (op.reg - d.startReg)]
      else LastWrittenOr(d, p, ops[..n], k, b, original)
  }

  ghost function LastWritten(d: Desc, p: Port, ops: seq<Op>, k: nat, b: nat): byte
    requires FramesFit(d, p) && p.Tape? && k < |p.past| + |p.rest| && b < d.frameLen
  {
    LastWrittenOr(d, p, ops, k, b, FrameByte(d, p, k, b))
  }

  ghost function FrameByte(d: Desc, p: Port, k: nat, b: nat): byte
    requires FramesFit(d, p) && p.Tape? && k < |p.past| + |p.rest| && b < d.frameLen
  {
    if k < |p.past| then p.past[k][b] else p.rest[k - |p.past|][b]
  }

  lemma StepByte(d: Desc, p: Port, op: Op, k: nat, b: nat)
    requires FramesFit(d, p) && p.Tape? && k < |p.past| + |p.rest| && b < d.frameLen
    ensures var r := Step(d, p, op).0;
            && r.Tape? && |r.past| + |r.rest| == |p.past| + |p.rest| && FramesFit(d, r)
            && FrameByte(d, r, k, b) ==
               if Serves(d, p, op) && Covers(d, op, b) && |p.past| == k then op.data[b - (op.reg - d.startReg)]
               else FrameByte(d, p, k, b)
  {
    StepFits(d, p, op);
  }

  /** Writes are confined and last: every byte of every frame is the last one written there. */
  lemma {:induction false} FrameContents(d: Desc, p: Port, ops: seq<Op>, k: nat, b: nat)
    requires FramesFit(d, p) && p.Tape? && k < |p.past| + |p.rest| && b < d.frameLen
    ensures var r := After(d, p, ops);
            r.Tape? && k < |r.past| + |r.rest| && FrameByte(d, r, k, b) == LastWritten(d, p, ops, k, b)
    decreases |ops|
  {
    HeadCountsReads(d, p, ops);
    if ops != [] {
      var n := |ops| - 1;
      HeadCountsReads(d, p, ops[..n]);
      FrameContents(d, p, ops[..n], k, b);
      StepByte(d, After(d, p, ops[..n]), ops[n], k, b);
    }
  }

  lemma ReadStepBytes(d: Desc, q: Port, op: Op, j: nat)
    requires FramesFit(d, q) && Serves(d, q, op) && op.Read? && j < op.size
    ensures var data, at := Step(d, q, op).1.data, op.reg - d.startReg;
            && 0 <= at && at + op.size <= d.frameLen && |data| == op.size && q.rest != []
            && data[j] == FrameByte(d, q, |q.past|, at + j)
  {
  }

  /** The reply to an access made after the trace `ops`. */
  ghost function ReplyAfter(d: Desc, p: Port, ops: seq<Op>, op: Op): Reply
    requires FramesFit(d, p)
  {
    Step(d, After(d, p, ops), op).1
  }

  lemma OkMeansServed(d: Desc, p: Port, ops: seq<Op>, op: Op)
    requires FramesFit(d, p) && p.Tape? && ReplyAfter(d, p, ops, op).result == Ok
    ensures var q := After(d, p, ops);
            && Serves(d, q, op) && q.Tape? && |q.past| == |p.past| + ReadsServed(d, p, ops)
            && |q.past| + |q.rest| == |p.past| + |p.rest|
  {
    HeadCountsReads(d, p, ops);
  }

  /** After any trace, the k-th successful read returns, at each byte `j` of the requested window,
      frame k's byte as last written. */
  lemma ReadReturnsFrame(d: Desc, p: Port, ops: seq<Op>, op: Op, j: nat)
    requires FramesFit(d, p) && p.Tape? && op.Read? && j < op.size && ReplyAfter(d, p, ops, op).result == Ok
    ensures var k, at := |p.past| + ReadsServed(d, p, ops), op.reg - d.startReg;
            var data := ReplyAfter(d, p, ops, op).data;
            && k < |p.past| + |p.rest| && 0 <= at && at + op.size <= d.frameLen && |data| == op.size
            && data[j] == LastWritten(d, p, ops, k, at + j)
  {
    OkMeansServed(d, p, ops, op);
    ReadStepBytes(d, After(d, p, ops), op, j);
    FrameContents(d, p, ops, |p.past| + ReadsServed(d, p, ops), op.reg - d.startReg + j);
  }

  /** Access succeeds exactly while frames remain and the range lies in the frame and in the bus
      buffer of 128 bytes; otherwise the reply is the failure code, without data. */
  lemma ServedExactly(d: Desc, p: Port, ops: seq<Op>, op: Op)
    requires FramesFit(d, p) && p.Tape?
    ensures var size := if op.Read? then op.size else |op.data|;
            ReplyAfter(d, p, ops, op).result == Ok <==>
              && ReadsServed(d, p, ops) < |p.rest| && 0 < size <= 128
              && d.startReg <= op.reg && op.reg as int + size <= d.startReg as int + d.frameLen
    ensures var r := ReplyAfter(d, p, ops, op);
            r.result != Ok ==> r == Reply(if op.Read? then ReadFailed else WriteFailed, [])
  {
    HeadCountsReads(d, p, ops);
  }

  /** While frames remain, reading a whole frame succeeds, and gives it as last written. */
  lemma WholeFrameRead(d: Desc, p: Port, ops: seq<Op>)
    requires FramesFit(d, p) && p.Tape? && ReadsServed(d, p, ops) < |p.rest| && 0 < d.frameLen <= 128
    ensures var r, k := ReplyAfter(d, p, ops, Read(d.startReg, d.frameLen)), |p.past| + ReadsServed(d, p, ops);
            && r.result == Ok && |r.data| == d.frameLen
            && forall b :: 0 <= b < d.frameLen ==> r.data[b] == LastWritten(d, p, ops, k, b)
  {
    var op := Read(d.startReg, d.frameLen);
    ServedExactly(d, p, ops, op);
    forall b: nat | b < d.frameLen
      ensures |ReplyAfter(d, p, ops, op).data| == d.frameLen
      ensures ReplyAfter(d, p, ops, op).data[b] == LastWritten(d, p, ops, |p.past| + ReadsServed(d, p, ops), b)
    {
      ReadReturnsFrame(d, p, ops, op, b);
    }
  }

  /** An address whose file cannot be used answers everything with the error of its load, for ever; an
      empty access with the failure code. */
  lemma {:induction false} BrokenStays(d: Desc, e: CommsResult, ops: seq<Op>, op: Op)
    requires e != Ok
    ensures After(d, Broken(e), ops) == Broken(e)
    ensures ReplyAfter(d, Broken(e), ops, op)
         == Reply(if op.Size() > 0 then e else if op.Read? then ReadFailed else WriteFailed, [])
    decreases |ops|
  {
    if ops != [] {
      BrokenStays(d, e, ops[..|ops| - 1], ops[|ops| - 1]);
    }
  }

  /** What one write stores, a read of the same range returns next. */
  lemma WriteThenRead(d: Desc, p: Port, reg: byte, data: seq<byte>)
    requires FramesFit(d, p) && Serves(d, p, Write(reg, data))
    ensures var q := Step(d, p, Write(reg, data)).0;
            FramesFit(d, q) && Step(d, q, Read(reg, |data|)).1 == Reply(Ok, data)
  {
    StepFits(d, p, Write(reg, data));
    var at := reg - d.startReg;
    var f := Splice(p.rest[0], at, data);
    assert f[at..at + |data|] == data;
  }

  // Sessions

  /** Where a session starts after deinit and init. */
  ghost function Restarted(d: Desc, p: Port, first: seq<Op>): (r: Port)
    requires FramesFit(d, p)
    ensures FramesFit(d, r)
  {
    var q := After(d, p, first);
    Rewound(q)
  }

  lemma RestartedShape(d: Desc, p: Port, first: seq<Op>)
    requires FramesFit(d, p) && p.Tape?
    ensures var r := Restarted(d, p, first); r.Tape? && r.past == [] && |r.rest| == |p.past| + |p.rest|
  {
    HeadCountsReads(d, p, first);
  }

  lemma RestartKeepsBytes(d: Desc, p: Port, first: seq<Op>, k: nat, b: nat)
    requires FramesFit(d, p) && p.Tape? && k < |p.past| + |p.rest| && b < d.frameLen
    ensures var r := Restarted(d, p, first);
            && r.Tape? && r.past == [] && |r.rest| == |p.past| + |p.rest|
            && FrameByte(d, r, k, b) == LastWritten(d, p, first, k, b)
  {
    HeadCountsReads(d, p, first);
    FrameContents(d, p, first, k, b);
  }

  /** A later session, after deinit and init, starts from what the earlier one left: its read number
      k returns frame k as last written in this session, or else as last written in the earlier one. */
  lemma DurableAcrossSessions(d: Desc, p: Port, first: seq<Op>, start: Port, second: seq<Op>, op: Op, j: nat)
    requires FramesFit(d, p) && p.Tape? && start == Restarted(d, p, first) && start.Tape?
    requires op.Read? && j < op.size && ReplyAfter(d, start, second, op).result == Ok
    ensures var k, at := ReadsServed(d, start, second), op.reg - d.startReg;
            && k < |p.past| + |p.rest| && 0 <= at && at + op.size <= d.frameLen
            && |ReplyAfter(d, start, second, op).data| == op.size
            && ReplyAfter(d, start, second, op).data[j]
               == LastWrittenOr(d, start, second, k, at + j, LastWritten(d, p, first, k, at + j))
  {
    RestartedShape(d, p, first);
    ReadReturnsFrame(d, start, second, op, j);
    RestartKeepsBytes(d, p, first, ReadsServed(d, start, second), op.reg - d.startReg + j);
  }

  // Many devices

  type Bus = b: seq<Port> | |b| == 256 witness seq(256, _ => Broken(ReadFailed))

  datatype Access = Access(address: byte, op: Op)

  ghost predicate BusFits(bus: Bus) {
    forall a: byte :: FramesFit(Layout(a), bus[a])
  }

  ghost function BusStep(bus: Bus, x: Access): (r: Bus)
    requires BusFits(bus)
    ensures BusFits(r)
  {
    StepFits(Layout(x.address), bus[x.address], x.op);
    bus[x.address := Step(Layout(x.address), bus[x.address], x.op).0]
  }

  ghost function BusAfter(bus: Bus, trace: seq<Access>): (r: Bus)
    requires BusFits(bus)
    ensures BusFits(r)
    decreases |trace|
  {
    if trace == [] then bus else BusStep(BusAfter(bus, trace[..|trace| - 1]), trace[|trace| - 1])
  }

  ghost function Project(trace: seq<Access>, a: byte): seq<Op>
    decreases |trace|
  {
    if trace == [] then []
    else
      var x := trace[|trace| - 1];
      Project(trace[..|trace| - 1], a) + if x.address == a then [x.op] else []
  }

  /** Devices do not disturb each other: after any interleaved trace each address is where its own
      accesses alone would have taken it, and so gives every later access the same reply. */
  lemma {:induction false} DevicesIndependent(bus: Bus, trace: seq<Access>, a: byte)
    requires BusFits(bus)
    ensures BusAfter(bus, trace)[a] == After(Layout(a), bus[a], Project(trace, a))
    decreases |trace|
  {
    if trace != [] {
      var rest, x := trace[..|trace| - 1], trace[|trace| - 1];
      DevicesIndependent(bus, rest, a);
      if x.address == a {
        assert Project(trace, a)[..|Project(trace, a)| - 1] == Project(rest, a);
      } else {
        assert Project(trace, a) == Project(rest, a);
      }
    }
  }

  /** The reply to an access after any interleaved trace is the one its own device's accesses give. */
  lemma RepliesIndependent(bus: Bus, trace: seq<Access>, x: Access)
    requires BusFits(bus)
    ensures Step(Layout(x.address), BusAfter(bus, trace)[x.address], x.op).1
         == ReplyAfter(Layout(x.address), bus[x.address], Project(trace, x.address), x.op)
  {
    DevicesIndependent(bus, trace, x.address);
  }
}
