/** A binary file as consecutive frames of equal length. */
module FrameFile {
  import opened Bytes
  import opened Arithmetic
  import opened I2cModel

  lemma LineOffset(k: nat, len: nat)
    ensures 0 <= k * len
  {
  }

  lemma FrameOrder(j: nat, k: nat, len: nat)
    requires j < k
    ensures j * len + len <= k * len
  {
    MulLe(j + 1, k, len, len);
    assert (j + 1) * len == j * len + len;
  }

  lemma FrameInside(n: nat, len: nat, k: nat)
    requires len > 0 && k < n / len
    ensures 0 <= k * len && k * len + len <= n
  {
    FrameOrder(k, n / len, len);
    LineOffset(k, len);
    assert (n / len) * len <= n;
  }

  ghost function FrameAt(file: seq<byte>, len: nat, k: nat): (f: Frame)
    requires len > 0 && k < |file| / len
    ensures |f| == len
  {
    FrameInside(|file|, len, k);
    file[k * len..k * len + len]
  }

  ghost function Frames(file: seq<byte>, len: nat): (fs: seq<Frame>)
    requires len > 0
    ensures |fs| == |file| / len
    ensures forall f :: f in fs ==> |f| == len
  {
    seq(|file| / len, k requires 0 <= k < |file| / len => FrameAt(file, len, k))
  }

  lemma FrameCount(file: seq<byte>, len: nat, count: nat)
    requires len > 0 && |file| == count * len
    ensures |Frames(file, len)| == count
  {
    MultipleDivides(count, len);
  }

  /** The tape, or the load error, of a file nobody has opened yet. */
  ghost function Loaded(file: seq<byte>, len: nat): Port
    requires len > 0
  {
    if |file| % len != 0 then Broken(Unknown)
    else if |file| / len == 0 || |file| / len > MAX_FRAME_COUNT then Broken(ReadFailed)
    else Tape([], Frames(file, len))
  }

  ghost predicate WholeFrames(file: seq<byte>, len: nat, count: nat) {
    |file| == count * len
  }

  lemma WholeFramesExactly(file: seq<byte>, len: nat)
    requires len > 0
    ensures |file| % len == 0 <==> exists count: nat :: WholeFrames(file, len, count)
    ensures forall count: nat :: WholeFrames(file, len, count) ==> count == |file| / len
  {
    forall count: nat | WholeFrames(file, len, count)
      ensures |file| % len == 0 && |file| / len == count
    {
      MultipleDivides(count, len);
    }
    if |file| % len == 0 {
      LoadedWhole(file, len);
      assert WholeFrames(file, len, |file| / len);
    }
  }

  /** A file is usable exactly if it holds 1 to 255 whole frames; one with a part of a frame is told apart. */
  lemma LoadedExactly(file: seq<byte>, len: nat)
    requires len > 0
    ensures Loaded(file, len).Tape? <==> exists count: nat :: 1 <= count <= 255 && WholeFrames(file, len, count)
    ensures Loaded(file, len).Broken? ==>
              Loaded(file, len).error == if exists count: nat :: WholeFrames(file, len, count) then ReadFailed else Unknown
  {
    WholeFramesExactly(file, len);
  }

  /** Its tape starts at the first frame and holds every byte of the file, in order. */
  lemma LoadedContents(file: seq<byte>, len: nat, k: nat, b: nat)
    requires len > 0 && Loaded(file, len).Tape? && b < len
    ensures var t := Loaded(file, len);
            && t.past == [] && WholeFrames(file, len, |t.rest|)
            && (k < |t.rest| ==>
                  0 <= k * len + b < |file| && |t.rest[k]| == len && t.rest[k][b] == file[k * len + b])
  {
    LoadedWhole(file, len);
    if k < |file| / len {
      FrameInside(|file|, len, k);
    }
  }

  lemma LoadedWhole(file: seq<byte>, len: nat)
    requires len > 0
    ensures |file| % len == 0 ==> |file| == (|file| / len) * len
  {
  }

  lemma LoadedIs(file: seq<byte>, len: nat, count: nat)
    requires len > 0 && 1 <= count <= MAX_FRAME_COUNT && |file| == count * len
    ensures Loaded(file, len) == Tape([], Frames(file, len))
  {
    MultipleDivides(count, len);
  }

  lemma TapeUpdate(frames: seq<Frame>, k: nat, f: Frame)
    requires k < |frames|
    ensures frames[k := f][..k] == frames[..k]
    ensures frames[k := f][k..] == [f] + frames[k..][1..]
    ensures frames[k..][0] == frames[k]
  {
  }

  /** A window of the file at frame `k` is that window of frame `k`. */
  lemma WindowOfFrame(file: seq<byte>, len: nat, k: nat, at: nat, n: nat)
    requires len > 0 && k < |file| / len && at + n <= len
    ensures 0 <= k * len && k * len + at + n <= |file|
    ensures file[k * len + at..k * len + at + n] == Frames(file, len)[k][at..at + n]
  {
    FrameInside(|file|, len, k);
    WindowOfSlice(file, k * len, k * len + len, at, n);
  }

  lemma WindowOfSlice(file: seq<byte>, lo: nat, hi: nat, at: nat, n: nat)
    requires lo <= hi <= |file| && lo + at + n <= hi
    ensures file[lo + at..lo + at + n] == file[lo..hi][at..at + n]
  {
    var s, t := file[lo + at..lo + at + n], file[lo..hi][at..at + n];
    assert forall i :: 0 <= i < n ==> s[i] == t[i];
  }

  lemma SpliceOfSlice(file: seq<byte>, lo: nat, hi: nat, pos: nat, data: seq<byte>)
    requires lo <= hi <= |file| && pos + |data| <= |file|
    ensures lo <= pos && pos + |data| <= hi ==>
              Splice(file, pos, data)[lo..hi] == Splice(file[lo..hi], pos - lo, data)
    ensures pos + |data| <= lo || hi <= pos ==> Splice(file, pos, data)[lo..hi] == file[lo..hi]
  {
  }

  /** Writing a window of the file at frame `k` changes that window of frame `k` and no other frame. */
  lemma SpliceOfFrame(file: seq<byte>, len: nat, k: nat, at: nat, data: seq<byte>)
    requires len > 0 && k < |file| / len && at + |data| <= len
    ensures 0 <= k * len && k * len + at + |data| <= |file|
    ensures Frames(Splice(file, k * len + at, data), len)
         == Frames(file, len)[k := Splice(Frames(file, len)[k], at, data)]
  {
    FrameInside(|file|, len, k);
    var file' := Splice(file, k * len + at, data);
    forall j: nat | j < |file| / len
      ensures FrameAt(file', len, j) == if j == k then Splice(FrameAt(file, len, k), at, data) else FrameAt(file, len, j)
    {
      FrameInside(|file|, len, j);
      if j < k {
        FrameOrder(j, k, len);
      } else if j > k {
        FrameOrder(k, j, len);
      }
      SpliceOfSlice(file, j * len, j * len + len, k * len + at, data);
    }
  }

  // Where a register of a frame lies

  /** Reading `n` bytes at `offset` reads that many bytes of frame `k`, from its byte `at` on. */
  ghost predicate ReadsFrame(file: seq<byte>, len: nat, k: nat, at: nat, offset: nat, n: nat)
    requires len > 0 && k < |file| / len && at + n <= len
  {
    offset + n <= |file| && file[offset..offset + n] == Frames(file, len)[k][at..at + n]
  }

  /** Writing `data` at `offset` changes frame `k` from its byte `at` on, and no other frame. */
  ghost predicate WritesFrame(file: seq<byte>, len: nat, k: nat, at: nat, offset: nat, data: seq<byte>)
    requires len > 0 && k < |file| / len && at + |data| <= len
  {
    && offset + |data| <= |file|
    && Frames(Splice(file, offset, data), len) == Frames(file, len)[k := Splice(Frames(file, len)[k], at, data)]
  }

  /** `offset` is the place of byte `at` of frame `k`. */
  ghost predicate PlaceOf(file: seq<byte>, len: nat, k: nat, at: nat, offset: nat)
    requires len > 0 && k < |file| / len
  {
    && (forall n: nat {:trigger ReadsFrame(file, len, k, at, offset, n)} ::
          at + n <= len ==> ReadsFrame(file, len, k, at, offset, n))
    && (forall data: seq<byte> {:trigger WritesFrame(file, len, k, at, offset, data)} ::
          at + |data| <= len ==> WritesFrame(file, len, k, at, offset, data))
  }

  lemma SeekPlace(file: seq<byte>, len: nat, k: nat, at: nat, offset: nat)
    requires len > 0 && k < |file| / len && offset == k * len + at
    ensures PlaceOf(file, len, k, at, offset)
  {
    forall n: nat {:trigger ReadsFrame(file, len, k, at, offset, n)} | at + n <= len
      ensures ReadsFrame(file, len, k, at, offset, n)
    {
      WindowOfFrame(file, len, k, at, n);
    }
    forall data: seq<byte> {:trigger WritesFrame(file, len, k, at, offset, data)} | at + |data| <= len
      ensures WritesFrame(file, len, k, at, offset, data)
    {
      SpliceOfFrame(file, len, k, at, data);
    }
  }
}
