/** The file-backed I2C simulator of controller/src/comms_sim.c: lazily loaded devices with an
    8-bit frame cursor and a disconnect latch, over binary files changed in place. */
module I2cSim {
  import opened Bytes
  import opened Options
  import opened I2cModel
  import opened FrameFile

  datatype Device = Device(loaded: bool, disconnected: bool, startReg: byte, frameLen: byte,
                           frameCount: byte, lineIndex: byte, open: bool)

  const ZERO_DEVICE := Device(false, false, 0, 0, 0, 0, false)

  class Comms {
    var initialized: bool
    var i2cFd: int

    constructor ()
      ensures !initialized
    {
      initialized, i2cFd := false, 0;
    }
  }

  class Simulator {
    const devices: array<Device>
    var disk: map<string, seq<byte>>

    /** Each loaded device matches its file; its cursor never passes the frame count, and the
        disconnect latch is set exactly when the cursor is at the end. */
    ghost predicate Valid()
      reads this, devices
    {
      devices.Length == 256 && forall a: byte :: DeviceOk(devices[a], a, disk)
    }

    static ghost predicate DeviceOk(v: Device, a: byte, disk: map<string, seq<byte>>) {
      v.loaded ==>
        && v.open && DeviceDesc(a).Some?
        && var d := DeviceDesc(a).value;
           && v.startReg == d.startReg && v.frameLen == d.frameLen && d.filename in disk
           && 1 <= v.frameCount && |disk[d.filename]| == v.frameCount * d.frameLen
           && v.lineIndex <= v.frameCount && (v.disconnected <==> v.lineIndex == v.frameCount)
    }

    /** The tape that an address stands for, loaded or not. */
    static ghost function PortOf(v: Device, a: byte, disk: map<string, seq<byte>>): Port
      requires DeviceOk(v, a, disk)
    {
      match DeviceDesc(a)
      case None => Broken(ReadFailed)
      case Some(d) =>
        if v.loaded then
          FrameCount(disk[d.filename], d.frameLen, v.frameCount);
          var frames := Frames(disk[d.filename], d.frameLen);
          Tape(frames[..v.lineIndex], frames[v.lineIndex..])
        else if d.filename !in disk then Broken(ReadFailed)
        else Loaded(disk[d.filename], d.frameLen)
    }

    ghost function Port(a: byte): Port
      requires Valid()
      reads this, devices
    {
      PortOf(devices[a], a, disk)
    }

    constructor (disk: map<string, seq<byte>>)
      ensures Valid() && fresh(devices) && this.disk == disk
    {
      this.disk := disk;
      devices := new Device[256](_ => ZERO_DEVICE);
    }

    /** What each address stands for before its first access. */
    lemma FreshPort(a: byte)
      requires Valid() && !devices[a].loaded
      ensures a != 0x68 && a != 0x0C ==> Port(a) == Broken(ReadFailed)
      ensures Layout(0x68) == Desc("imu.dat", 0x3B, 14) && Layout(0x0C) == Desc("mag.dat", 0x02, 6)
      ensures a == 0x68 || a == 0x0C ==>
                var d := Layout(a);
                Port(a) == if d.filename in disk then Loaded(disk[d.filename], d.frameLen) else Broken(ReadFailed)
    {
    }

    method SimCloseDevice(address: byte)
      requires devices.Length == 256
      modifies devices
      ensures devices[..] == old(devices[..])[address := old(devices[address]).(open := false, loaded := false)]
    {
      if devices[address].open {
        devices[address] := devices[address].(open := false);
      }
      devices[address] := devices[address].(loaded := false);
    }

    /** Open the file on first access. No tape changes by it. */
    method SimLoadDevice(address: byte) returns (result: CommsResult)
      requires Valid()
      modifies devices
      ensures Valid() && forall a: byte :: Port(a) == old(Port(a))
      ensures result == if Port(address).Broken? then Port(address).error else Ok
      ensures result == Ok ==> devices[address].loaded
    {
      result := Ok;
      var desc := DeviceDesc(address);
      if desc.None? {
        result := ReadFailed;
      } else if devices[address].loaded {
        result := Ok;
      } else {
        var d := desc.value;
        devices[address] := ZERO_DEVICE;
        if d.filename !in disk {
          result := ReadFailed;
        } else {
          devices[address] := devices[address].(open := true, startReg := d.startReg, frameLen := d.frameLen);
          var fileSize := |disk[d.filename]|;
          if fileSize % d.frameLen != 0 {
            result := Unknown;
          } else {
            var frameCount := fileSize / d.frameLen;
            if frameCount == 0 || frameCount > MAX_FRAME_COUNT {
              result := ReadFailed;
            } else {
              devices[address] := devices[address].(frameCount := frameCount, lineIndex := 0,
                                                    disconnected := false, loaded := true);
              LoadedWhole(disk[d.filename], d.frameLen);
            }
          }
          if result != Ok {
            SimCloseDevice(address);
          }
        }
      }
    }

    /** The position in the file of a register of the current frame: what lies there is that part
        of the frame under the head. A missing device (`None`) or file, or a register below the
        window, is refused. */
    method SimSeekFrameReg(device: Option<byte>, reg: byte) returns (result: CommsResult, offset: nat)
      requires Valid()
      ensures result == if device.None? || !devices[device.value].open || reg < devices[device.value].startReg
                        then ReadFailed else Ok
      ensures result == Ok && devices[device.value].loaded ==>
                SeeksTo(devices[device.value], device.value, disk, reg, offset)
    {
      if device.None? || !devices[device.value].open {
        return ReadFailed, 0;
      }
      var v := devices[device.value];
      if reg < v.startReg {
        return ReadFailed, 0;
      }
      LineOffset(v.lineIndex, v.frameLen);
      offset := v.lineIndex * v.frameLen + (reg - v.startReg);
      if v.loaded {
        SeekPosition(v, device.value, disk, reg, offset);
      }
      return Ok, offset;
    }

    /** `offset` is where the frame under the head keeps `reg`. */
    static ghost predicate SeeksTo(v: Device, a: byte, disk: map<string, seq<byte>>, reg: byte, offset: nat)
      requires DeviceOk(v, a, disk) && v.loaded && reg >= v.startReg
    {
      LoadedPort(v, a, disk);
      v.lineIndex < v.frameCount ==>
        PlaceOf(disk[DeviceDesc(a).value.filename], v.frameLen, v.lineIndex, reg - v.startReg, offset)
    }

    static lemma SeekPosition(v: Device, a: byte, disk: map<string, seq<byte>>, reg: byte, offset: nat)
      requires DeviceOk(v, a, disk) && v.loaded && reg >= v.startReg
      requires offset == v.lineIndex * v.frameLen + (reg - v.startReg)
      ensures SeeksTo(v, a, disk, reg, offset)
    {
      LoadedPort(v, a, disk);
      if v.lineIndex < v.frameCount {
        SeekPlace(disk[DeviceDesc(a).value.filename], v.frameLen, v.lineIndex, reg - v.startReg, offset);
      }
    }

    method CommsInit(comms: Comms?) returns (result: CommsResult)
      requires Valid()
      modifies devices, comms
      ensures Valid() && disk == old(disk)
      ensures comms == null ==> result == Unknown && devices[..] == old(devices[..])
      ensures comms != null ==> result == Ok && comms.initialized && forall a: byte :: Port(a) == Rewound(old(Port(a)))
    {
      result := Ok;
      if comms == null {
        result := Unknown;
      } else {
        forall a: byte ensures PortOf(ZERO_DEVICE, a, disk) == Rewound(Port(a)) {
          UnloadedIsRewound(devices[a], a, disk);
        }
        forall i | 0 <= i < 256 {
          devices[i] := ZERO_DEVICE;
        }
        comms.i2cFd := -1;
        comms.initialized := true;
      }
    }

    static lemma UnloadedIsRewound(v: Device, a: byte, disk: map<string, seq<byte>>)
      requires DeviceOk(v, a, disk)
      ensures DeviceOk(v.(loaded := false), a, disk) && DeviceOk(ZERO_DEVICE, a, disk)
      ensures PortOf(v.(loaded := false), a, disk) == PortOf(ZERO_DEVICE, a, disk) == Rewound(PortOf(v, a, disk))
    {
      if v.loaded {
        var d := DeviceDesc(a).value;
        LoadedPort(v, a, disk);
        LoadedIs(disk[d.filename], d.frameLen, v.frameCount);
        var frames := Frames(disk[d.filename], d.frameLen);
        assert frames[..v.lineIndex] + frames[v.lineIndex..] == frames;
      }
    }

    method CommsDeinit(comms: Comms?) returns (result: CommsResult)
      requires Valid()
      modifies devices, comms
      ensures Valid() && disk == old(disk) && result == Ok
      ensures comms != null ==> !comms.initialized
      ensures comms != null && old(comms.initialized) ==> forall a: byte :: Port(a) == Rewound(old(Port(a)))
      ensures comms == null || !old(comms.initialized) ==> devices[..] == old(devices[..])
    {
      result := Ok;
      if comms != null && comms.initialized {
        forall a: byte
          ensures DeviceOk(devices[a].(loaded := false), a, disk)
          ensures PortOf(devices[a].(loaded := false), a, disk) == Rewound(Port(a))
        {
          UnloadedIsRewound(devices[a], a, disk);
        }
        for address := 0 to 256
          invariant forall i :: 0 <= i < address ==>
            && !devices[i].loaded
            && (devices[i] == old(devices[i]) || devices[i] == old(devices[i]).(loaded := false, open := false))
          invariant forall i :: address <= i < 256 ==> devices[i] == old(devices[i])
        {
          if devices[address].loaded {
            SimCloseDevice(address);
          }
        }
        comms.initialized := false;
        comms.i2cFd := -1;
      }
    }

    static lemma PortFits(v: Device, a: byte, disk: map<string, seq<byte>>)
      requires DeviceOk(v, a, disk)
      ensures FramesFit(Layout(a), PortOf(v, a, disk))
    {
      if v.loaded {
        LoadedPort(v, a, disk);
      }
    }

    /** A loaded device in terms of its file. */
    static lemma LoadedPort(v: Device, a: byte, disk: map<string, seq<byte>>)
      requires DeviceOk(v, a, disk) && v.loaded
      ensures var d := DeviceDesc(a).value;
              var frames := Frames(disk[d.filename], d.frameLen);
              && Layout(a) == d && |frames| == v.frameCount == |disk[d.filename]| / d.frameLen
              && PortOf(v, a, disk) == Tape(frames[..v.lineIndex], frames[v.lineIndex..])
              && (v.lineIndex < v.frameCount ==>
                    PortOf(v, a, disk).rest != [] && PortOf(v, a, disk).rest[0] == frames[v.lineIndex])
              && (v.lineIndex == v.frameCount ==> PortOf(v, a, disk).rest == [])
    {
      var d := DeviceDesc(a).value;
      FrameCount(disk[d.filename], d.frameLen, v.frameCount);
    }

    /** When the tape of a loaded device serves an access. */
    static lemma LoadedServes(v: Device, a: byte, disk: map<string, seq<byte>>, op: Op)
      requires DeviceOk(v, a, disk) && v.loaded
      ensures Serves(Layout(a), PortOf(v, a, disk), op) <==>
                && op.Size() > 0 && !v.disconnected && op.reg >= v.startReg
                && op.reg - v.startReg + op.Size() <= v.frameLen && op.Size() <= BUFFER_SIZE
    {
      LoadedPort(v, a, disk);
    }

    /** Reading moves the cursor one frame on. */
    static lemma AdvancedPort(v: Device, a: byte, disk: map<string, seq<byte>>, v': Device)
      requires DeviceOk(v, a, disk) && v.loaded && v.lineIndex < v.frameCount
      requires v' == v.(lineIndex := v.lineIndex + 1, disconnected := v.lineIndex + 1 >= v.frameCount)
      ensures DeviceOk(v', a, disk)
      ensures var p := PortOf(v, a, disk);
              p.Tape? && p.rest != [] && PortOf(v', a, disk) == Tape(p.past + [p.rest[0]], p.rest[1..])
    {
      LoadedPort(v, a, disk);
      LoadedPort(v', a, disk);
    }

    /** Writing where the seek led changes only the frame under the head, of that address. */
    static lemma WrittenPort(v: Device, a: byte, disk: map<string, seq<byte>>, reg: byte, offset: nat, data: seq<byte>)
      requires DeviceOk(v, a, disk) && v.loaded && v.lineIndex < v.frameCount && reg >= v.startReg
      requires reg - v.startReg + |data| <= v.frameLen && SeeksTo(v, a, disk, reg, offset)
      ensures var file, p := DeviceDesc(a).value.filename, PortOf(v, a, disk);
              && offset + |data| <= |disk[file]| && p.Tape? && p.rest != []
              && reg - v.startReg + |data| <= |p.rest[0]|
              && var disk' := disk[file := Splice(disk[file], offset, data)];
                 && DeviceOk(v, a, disk')
                 && PortOf(v, a, disk')
                    == Tape(p.past, [Splice(p.rest[0], reg - v.startReg, data)] + p.rest[1..])
    {
      var file := disk[DeviceDesc(a).value.filename];
      var frames := Frames(file, v.frameLen);
      LoadedPort(v, a, disk);
      assert WritesFrame(file, v.frameLen, v.lineIndex, reg - v.startReg, offset, data);
      TapeUpdate(frames, v.lineIndex, Splice(frames[v.lineIndex], reg - v.startReg, data));
      LoadedPort(v, a, disk[DeviceDesc(a).value.filename := Splice(file, offset, data)]);
    }

    /** Reading where the seek led reads the frame under the head. */
    static lemma ReadPort(v: Device, a: byte, disk: map<string, seq<byte>>, reg: byte, offset: nat, n: nat)
      requires DeviceOk(v, a, disk) && v.loaded && v.lineIndex < v.frameCount && reg >= v.startReg
      requires reg - v.startReg + n <= v.frameLen && SeeksTo(v, a, disk, reg, offset)
      ensures var file, p, at := disk[DeviceDesc(a).value.filename], PortOf(v, a, disk), reg - v.startReg;
              && offset + n <= |file| && p.Tape? && p.rest != [] && at + n <= |p.rest[0]|
              && file[offset..offset + n] == p.rest[0][at..at + n]
    {
      LoadedPort(v, a, disk);
      assert ReadsFrame(disk[DeviceDesc(a).value.filename], v.frameLen, v.lineIndex, reg - v.startReg, offset, n);
    }

    /** A file of another address does not matter. */
    static lemma OtherPort(v: Device, a: byte, disk: map<string, seq<byte>>, b: byte, file: seq<byte>)
      requires DeviceOk(v, a, disk) && a != b && DeviceDesc(b).Some?
      ensures var disk' := disk[DeviceDesc(b).value.filename := file];
              DeviceOk(v, a, disk') && PortOf(v, a, disk') == PortOf(v, a, disk)
    {
      if DeviceDesc(a).Some? {
        FilesDistinct(a, b);
      }
    }

    /** The 8-bit cursor moves on, without wrapping, and latches `disconnected` at the end. */
    method AdvanceCursor(address: byte)
      requires Valid() && devices[address].loaded && devices[address].lineIndex < devices[address].frameCount
      modifies devices
      ensures Valid() && forall a: byte :: a != address ==> Port(a) == old(Port(a))
      ensures var p := old(Port(address));
              p.Tape? && p.rest != [] && Port(address) == Tape(p.past + [p.rest[0]], p.rest[1..])
    {
      var v := devices[address];
      AdvancedPort(v, address, disk, v.(lineIndex := v.lineIndex + 1, disconnected := v.lineIndex + 1 >= v.frameCount));
      devices[address] := devices[address].(lineIndex := v.lineIndex + 1);
      if devices[address].lineIndex >= devices[address].frameCount {
        devices[address] := devices[address].(disconnected := true);
      }
    }

    static method CopyOut(file: seq<byte>, at: nat, data: array<byte>, size: nat)
      requires at + size <= |file| && size <= data.Length
      modifies data
      ensures data[..size] == file[at..at + size] && data[size..] == old(data[size..])
    {
      forall i | 0 <= i < size {
        data[i] := file[at + i];
      }
    }

    /** The tests on a loaded device before an access. */
    method CheckAccess(address: byte, op: Op, failure: CommsResult) returns (result: CommsResult)
      requires Valid() && devices[address].loaded && op.Size() > 0 && failure != Ok
      ensures result == if Serves(Layout(address), Port(address), op) then Ok else failure
      ensures Port(address).Tape?
      ensures result == Ok ==>
                var v := devices[address];
                && v.lineIndex < v.frameCount && op.reg >= v.startReg && op.reg - v.startReg + op.Size() <= v.frameLen
                && v.startReg == Layout(address).startReg
    {
      LoadedPort(devices[address], address, disk);
      LoadedServes(devices[address], address, disk, op);
      var v := devices[address];
      if v.disconnected {
        return failure;
      }
      if v.lineIndex >= v.frameCount {
        assert false;  // the latch is already set at the end of the file
      }
      if op.reg < v.startReg {
        return failure;
      }
      var offset := op.reg - v.startReg;
      if offset + op.Size() > v.frameLen || op.Size() > BUFFER_SIZE {
        return failure;
      }
      return Ok;
    }

    /** The seek, read and cursor step of a read whose window has been checked. */
    method ReadFrame(address: byte, reg: byte, data: array<byte>, size: nat) returns (result: CommsResult)
      requires Valid() && size <= data.Length
      requires var v := devices[address];
               && v.loaded && v.lineIndex < v.frameCount && v.startReg == Layout(address).startReg
               && reg >= v.startReg && reg - v.startReg + size <= v.frameLen
      requires Serves(Layout(address), Port(address), Read(reg, size))
      modifies devices, data
      ensures Valid() && result == Ok && data[size..] == old(data[size..])
      ensures forall a: byte :: a != address ==> Port(a) == old(Port(a))
      ensures FramesFit(Layout(address), old(Port(address)))
      ensures (Port(address), Reply(Ok, data[..size])) == Step(Layout(address), old(Port(address)), Read(reg, size))
    {
      PortFits(devices[address], address, disk);
      var v := devices[address];
      var at;
      result, at := SimSeekFrameReg(Some(address), reg);
      ReadPort(v, address, disk, reg, at, size);
      ReadStep(Layout(address), Port(address), reg, size);
      CopyOut(disk[DeviceDesc(address).value.filename], at, data, size);
      ghost var read := data[..];
      AdvanceCursor(address);
      assert data[..] == read;
    }

    /** On a usable handle and buffer, exactly the reference step; otherwise a refusal that changes
        no tape. The caller's buffer must hold `size` bytes. */
    method ReadI2c(comms: Comms?, address: byte, reg: byte, data: array?<byte>, size: nat) returns (result: CommsResult)
      requires Valid() && (data != null ==> size <= data.Length)
      modifies devices, data
      ensures Valid()
      ensures forall a: byte :: a != address ==> Port(a) == old(Port(a))
      ensures FramesFit(Layout(address), old(Port(address)))
      ensures comms == null || data == null || !comms.initialized ==>
                result == ReadFailed && Port(address) == old(Port(address))
      ensures comms != null && data != null && comms.initialized ==>
                (Port(address), Reply(result, if result == Ok then data[..size] else []))
                == Step(Layout(address), old(Port(address)), Read(reg, size))
      ensures data != null && result != Ok ==> data[..] == old(data[..])
      ensures data != null ==> data[size..] == old(data[size..])
    {
      PortFits(devices[address], address, disk);
      result := Ok;
      if comms == null || data == null || size == 0 || !comms.initialized {
        result := ReadFailed;
      } else {
        result := SimLoadDevice(address);
        if result == Ok {
          result := CheckAccess(address, Read(reg, size), ReadFailed);
          if result == Ok {
            result := ReadFrame(address, reg, data, size);
          }
        }
      }
    }

    /** The seek and write of a write whose window has been checked. */
    method WriteFrame(address: byte, reg: byte, data: array<byte>, size: nat) returns (result: CommsResult)
      requires Valid() && size <= data.Length
      requires var v := devices[address];
               && v.loaded && v.lineIndex < v.frameCount && v.startReg == Layout(address).startReg
               && reg >= v.startReg && reg - v.startReg + size <= v.frameLen
      requires Serves(Layout(address), Port(address), Write(reg, data[..size]))
      modifies this`disk
      ensures Valid() && result == Ok
      ensures forall a: byte :: a != address ==> Port(a) == old(Port(a))
      ensures FramesFit(Layout(address), old(Port(address)))
      ensures (Port(address), Reply(Ok, [])) == Step(Layout(address), old(Port(address)), Write(reg, data[..size]))
      ensures disk.Keys == old(disk.Keys) && forall f :: f in disk ==> |disk[f]| == |old(disk)[f]|
    {
      var v := devices[address];
      var filename := DeviceDesc(address).value.filename;
      var at;
      result, at := SimSeekFrameReg(Some(address), reg);
      PortFits(v, address, disk);
      WriteStep(Layout(address), Port(address), reg, data[..size]);
      WrittenPort(v, address, disk, reg, at, data[..size]);
      var file := Splice(disk[filename], at, data[..size]);
      forall a: byte | a != address
        ensures DeviceOk(devices[a], a, disk[filename := file])
        ensures PortOf(devices[a], a, disk[filename := file]) == Port(a)
      {
        OtherPort(devices[a], a, disk, address, file);
      }
      disk := disk[filename := file];
    }

    method WriteI2c(comms: Comms?, address: byte, reg: byte, data: array?<byte>, size: nat) returns (result: CommsResult)
      requires Valid() && (data != null ==> size <= data.Length)
      modifies this`disk, devices
      ensures Valid()
      ensures forall a: byte :: a != address ==> Port(a) == old(Port(a))
      ensures FramesFit(Layout(address), old(Port(address)))
      ensures comms == null || data == null || !comms.initialized ==>
                result == WriteFailed && Port(address) == old(Port(address))
      ensures comms != null && data != null && comms.initialized ==>
                (Port(address), Reply(result, [])) == Step(Layout(address), old(Port(address)), Write(reg, data[..size]))
      ensures disk.Keys == old(disk.Keys) && forall f :: f in disk ==> |disk[f]| == |old(disk)[f]|
    {
      PortFits(devices[address], address, disk);
      result := Ok;
      if comms == null || data == null || size == 0 || !comms.initialized {
        result := WriteFailed;
      } else {
        result := SimLoadDevice(address);
        if result == Ok {
          result := CheckAccess(address, Write(reg, data[..size]), WriteFailed);
          if result == Ok {
            result := WriteFrame(address, reg, data, size);
          }
        }
      }
    }
  }
}
