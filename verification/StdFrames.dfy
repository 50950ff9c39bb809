/** The frame format of multiplexed output streams (`utils/stdcopy.go`): an eight-byte header, whose
    first byte names the stream and whose last four give the payload length, then the payload. */
module StdFrames {
  type Byte = x: int | 0 <= x < 256
  type Bytes = seq<Byte>

  const PREFIX_LEN := 8
  const SIZE_INDEX := 4
  const LIMIT := 0x1_0000_0000

  datatype Status = Nil | ReadError | InvalidHeader | WriteError | ShortWrite

  datatype Frame = Frame(fd: Byte, payload: Bytes)

  function PutUint32(n: nat): (b: Bytes)
    requires n < LIMIT
    ensures |b| == 4
  {
    [n / 0x100 / 0x100 / 0x100, n / 0x100 / 0x100 % 0x100, n / 0x100 % 0x100, n % 0x100]
  }

  function Uint32(b: Bytes): (n: nat)
    requires |b| == 4
    ensures n < LIMIT
  {
    (((b[0] as int) * 0x100 + b[1]) * 0x100 + b[2]) * 0x100 + b[3]
  }

  lemma Uint32RoundTrip(n: nat)
    requires n < LIMIT
    ensures Uint32(PutUint32(n)) == n
  {
  }

  /** An output stream and a length that the header can hold. */
  predicate Fits(f: Frame) {
    f.fd <= 2 && |f.payload| < LIMIT
  }

  predicate AllFit(frames: seq<Frame>) {
    forall f :: f in frames ==> Fits(f)
  }

  /** What one `StdWriter.Write` puts on the wire: the length is cut to 32 bits. */
  function Encode(f: Frame): Bytes {
    [f.fd, 0, 0, 0] + PutUint32(|f.payload| % LIMIT) + f.payload
  }

  function Mux(frames: seq<Frame>): Bytes {
    if frames == [] then [] else Encode(frames[0]) + Mux(frames[1..])
  }

  function SizeOf(data: Bytes): nat
    requires |data| >= PREFIX_LEN
  {
    Uint32(data[SIZE_INDEX..PREFIX_LEN])
  }

  /** Reading frames off the front of a byte string: those that are complete, up to the first header
      that names no output stream. */
  function Demux(data: Bytes): (seq<Frame>, Status)
    decreases |data|
  {
    if |data| < PREFIX_LEN then ([], Nil)
    else if data[0] > 2 then ([], InvalidHeader)
    else
      var end := PREFIX_LEN + SizeOf(data);
      if |data| < end then ([], Nil)
      else
        var rest := Demux(data[end..]);
        ([Frame(data[0], data[PREFIX_LEN..end])] + rest.0, rest.1)
  }

  /** The payloads of the frames for stdout (stream 0 or 1) and for stderr (stream 2), joined. */
  function Payloads(frames: seq<Frame>, toOut: bool, toErr: bool): Bytes {
    if frames == [] then []
    else
      var taken := if frames[0].fd == 2 then toErr else toOut;
      (if taken then frames[0].payload else []) + Payloads(frames[1..], toOut, toErr)
  }

  /** The number of frames that fit in the first `k` bytes. */
  function Complete(frames: seq<Frame>, k: nat): (n: nat)
    ensures n <= |frames|
  {
    if frames == [] || k < |Encode(frames[0])| then 0
    else 1 + Complete(frames[1..], k - |Encode(frames[0])|)
  }

  lemma EncodeShape(f: Frame)
    ensures |Encode(f)| == PREFIX_LEN + |f.payload| && Encode(f)[0] == f.fd
    ensures SizeOf(Encode(f)) == |f.payload| % LIMIT
    ensures Encode(f)[PREFIX_LEN..] == f.payload
  {
    assert Encode(f)[SIZE_INDEX..PREFIX_LEN] == PutUint32(|f.payload| % LIMIT);
    Uint32RoundTrip(|f.payload| % LIMIT);
  }

  /** The header of a frame is not affected by what follows it. */
  lemma HeaderAtFront(f: Frame, tail: Bytes)
    requires |f.payload| < LIMIT
    ensures var data := Encode(f) + tail;
            && |data| >= PREFIX_LEN + |f.payload| && data[0] == f.fd && SizeOf(data) == |f.payload|
            && data[PREFIX_LEN..PREFIX_LEN + |f.payload|] == f.payload
            && data[PREFIX_LEN + |f.payload|..] == tail
  {
    EncodeShape(f);
    var data := Encode(f) + tail;
    assert data[SIZE_INDEX..PREFIX_LEN] == Encode(f)[SIZE_INDEX..PREFIX_LEN];
    assert data[PREFIX_LEN..PREFIX_LEN + |f.payload|] == Encode(f)[PREFIX_LEN..];
  }

  /** Reading one frame off the front of more data. */
  lemma DemuxFront(f: Frame, tail: Bytes)
    requires Fits(f)
    ensures Demux(Encode(f) + tail).0 == [f] + Demux(tail).0 && Demux(Encode(f) + tail).1 == Demux(tail).1
  {
    HeaderAtFront(f, tail);
  }

  /** Part of a frame yields nothing. */
  lemma DemuxPart(f: Frame, k: nat)
    requires Fits(f) && k < |Encode(f)|
    ensures Demux(Encode(f)[..k]) == ([], Nil)
  {
    EncodeShape(f);
    if k >= PREFIX_LEN {
      assert Encode(f)[..k][SIZE_INDEX..PREFIX_LEN] == Encode(f)[SIZE_INDEX..PREFIX_LEN];
    }
  }

  lemma CutFirst(a: Bytes, b: Bytes, k: nat)
    requires k <= |a| + |b|
    ensures (a + b)[..k] == if k < |a| then a[..k] else a + b[..k - |a|]
  {
  }

  lemma TakeFirst(frames: seq<Frame>, n: nat)
    requires frames != [] && n < |frames|
    ensures frames[..n + 1] == [frames[0]] + frames[1..][..n]
  {
  }

  /** Whatever part of a multiplexed stream has arrived, exactly the complete frames are read off it. */
  lemma {:induction false} DemuxPrefix(frames: seq<Frame>, k: nat)
    requires AllFit(frames) && k <= |Mux(frames)|
    ensures Demux(Mux(frames)[..k]).0 == frames[..Complete(frames, k)] && Demux(Mux(frames)[..k]).1 == Nil
    decreases |frames|
  {
    if frames == [] {
      assert Mux(frames)[..k] == [];
    } else {
      var f, rest := frames[0], frames[1..];
      var size := |Encode(f)|;
      assert f in frames && forall g :: g in rest ==> g in frames;
      CutFirst(Encode(f), Mux(rest), k);
      if k < size {
        DemuxPart(f, k);
      } else {
        DemuxFront(f, Mux(rest)[..k - size]);
        DemuxPrefix(rest, k - size);
        TakeFirst(frames, Complete(rest, k - size));
        assert Mux(frames)[..k] == Encode(f) + Mux(rest)[..k - size];
        assert Complete(frames, k) == 1 + Complete(rest, k - size);
      }
    }
  }

  /** The whole stream gives back every frame. */
  lemma {:induction false} AllComplete(frames: seq<Frame>)
    ensures Complete(frames, |Mux(frames)|) == |frames|
  {
    if frames == [] {
    } else {
      AllComplete(frames[1..]);
    }
  }

  /** Whatever is read, every frame has an output stream and a length that the header can hold. */
  lemma {:induction false} DemuxFits(data: Bytes)
    ensures AllFit(Demux(data).0)
    decreases |data|
  {
    if |data| < PREFIX_LEN || data[0] > 2 || |data| < PREFIX_LEN + SizeOf(data) {
      assert Demux(data).0 == [];
    } else {
      DemuxFits(data[PREFIX_LEN + SizeOf(data)..]);
    }
  }

  /** What was written is what is read, exactly when every frame fits its header. */
  lemma DemuxInvertsMux(frames: seq<Frame>)
    ensures Demux(Mux(frames)) == (frames, Nil) <==> AllFit(frames)
  {
    var all := |Mux(frames)|;
    DemuxFits(Mux(frames));
    if AllFit(frames) {
      DemuxPrefix(frames, all);
      assert Mux(frames)[..all] == Mux(frames);
      AllComplete(frames);
      assert frames[..|frames|] == frames;
    }
  }

  /** One write survives exactly when its length fits the header. */
  lemma WriteSurvives(f: Frame)
    requires f.fd <= 2
    ensures Demux(Encode(f)) == ([f], Nil) <==> |f.payload| < LIMIT
  {
    DemuxInvertsMux([f]);
    assert Encode(f) + [] == Encode(f);
    assert Mux([f]) == Encode(f);
    assert f in [f];
  }

  /** A part, from the front, of what was written. */
  predicate Written(data: Bytes, frames: seq<Frame>, k: nat) {
    AllFit(frames) && k <= |Mux(frames)| && data == Mux(frames)[..k]
  }
}
