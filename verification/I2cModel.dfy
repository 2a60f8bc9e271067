/** What the file-backed I2C simulator means: each address is a tape of frames.

    A successful read returns a window of the frame under the head and moves the head on; a
    write changes bytes of the frame under the head in place; past the last frame everything
    fails. Loading is invisible: an address whose file cannot be used answers every access with
    the error of its load. */
module I2cModel {
  import opened Bytes
  import opened Options

  type Frame = seq<byte>

  const BUFFER_SIZE := 128
  const MAX_FRAME_COUNT := 255

  datatype CommsResult = Ok | Unknown | ReadFailed | WriteFailed

  datatype Desc = Desc(filename: string, startReg: byte, frameLen: byte)

  function DeviceDesc(address: byte): (d: Option<Desc>)
    ensures d.Some? ==> d.value.frameLen > 0
  {
    if address == 0x68 then Some(Desc("imu.dat", 0x3B, 14))
    else if address == 0x0C then Some(Desc("mag.dat", 0x02, 6))
    else None
  }

  /** The layout the reference model uses; immaterial for an address with no device. */
  function Layout(address: byte): (d: Desc)
    ensures d.frameLen > 0
  {
    match DeviceDesc(address) case Some(d) => d case None => Desc("", 0, 1)
  }

  lemma FilesDistinct(a: byte, b: byte)
    requires a != b && DeviceDesc(a).Some? && DeviceDesc(b).Some?
    ensures DeviceDesc(a).value.filename != DeviceDesc(b).value.filename
  {
    assert "imu.dat"[0] != "mag.dat"[0];
  }

  datatype Port = Broken(error: CommsResult) | Tape(past: seq<Frame>, rest: seq<Frame>)

  datatype Op = Read(reg: byte, size: nat) | Write(reg: byte, data: seq<byte>) {
    function Size(): nat {
      match this case Read(_, n) => n case Write(_, d) => |d|
    }

    function Failure(): CommsResult {
      if Read? then ReadFailed else WriteFailed
    }
  }

  datatype Reply = Reply(result: CommsResult, data: seq<byte>)

  /** The accessed range lies inside the frame and the bus buffer. */
  predicate InWindow(d: Desc, op: Op) {
    op.reg >= d.startReg && op.reg - d.startReg + op.Size() <= d.frameLen && op.Size() <= BUFFER_SIZE
  }

  function Splice(f: seq<byte>, at: nat, data: seq<byte>): (r: seq<byte>)
    requires at + |data| <= |f|
    ensures |r| == |f|
    ensures forall i :: 0 <= i < |f| ==> r[i] == if at <= i < at + |data| then data[i - at] else f[i]
  {
    f[..at] + data + f[at + |data|..]
  }

  predicate FramesFit(d: Desc, p: Port) {
    p.Tape? ==>
      && (forall i :: 0 <= i < |p.past| ==> |p.past[i]| == d.frameLen)
      && (forall i :: 0 <= i < |p.rest| ==> |p.rest[i]| == d.frameLen)
  }

  /** Whether the tape serves the access. */
  predicate Serves(d: Desc, p: Port, op: Op) {
    op.Size() > 0 && p.Tape? && p.rest != [] && InWindow(d, op)
  }

  function Step(d: Desc, p: Port, op: Op): (Port, Reply)
    requires FramesFit(d, p)
  {
    if !Serves(d, p, op) then
      (p, Reply(if op.Size() > 0 && p.Broken? then p.error else op.Failure(), []))
    else
      var at := op.reg - d.startReg;
      var f := p.rest[0];
      match op
      case Read(_, n) => (Tape(p.past + [f], p.rest[1..]), Reply(Ok, f[at..at + n]))
      case Write(_, data) => (Tape(p.past, [Splice(f, at, data)] + p.rest[1..]), Reply(Ok, []))
  }

  lemma ReadStep(d: Desc, p: Port, reg: byte, size: nat)
    requires FramesFit(d, p) && Serves(d, p, Read(reg, size))
    ensures reg >= d.startReg && reg - d.startReg + size <= |p.rest[0]|
    ensures Step(d, p, Read(reg, size))
         == (Tape(p.past + [p.rest[0]], p.rest[1..]), Reply(Ok, p.rest[0][reg - d.startReg..reg - d.startReg + size]))
  {
  }

  lemma WriteStep(d: Desc, p: Port, reg: byte, data: seq<byte>)
    requires FramesFit(d, p) && Serves(d, p, Write(reg, data))
    ensures reg >= d.startReg && reg - d.startReg + |data| <= |p.rest[0]|
    ensures Step(d, p, Write(reg, data))
         == (Tape(p.past, [Splice(p.rest[0], reg - d.startReg, data)] + p.rest[1..]), Reply(Ok, []))
  {
  }

  lemma StepFits(d: Desc, p: Port, op: Op)
    requires FramesFit(d, p)
    ensures FramesFit(d, Step(d, p, op).0)
  {
  }

  /** Back to the first frame, keeping what was written: what deinit and init do. */
  function Rewound(p: Port): Port {
    if p.Tape? then Tape([], p.past + p.rest) else p
  }
}
