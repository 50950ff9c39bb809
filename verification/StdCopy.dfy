/** Writing and demultiplexing framed streams with one growing buffer (`utils/stdcopy.go`). */
module StdCopy {
  import opened StdFrames
  import opened Sequences

  /** The stream being copied. A read may return any number of the remaining bytes that fit, at
      least one of them, and may report the end together with the last bytes or after them. */
  class Source {
    const data: Bytes
    /** Whether every read succeeds. */
    const sound: bool
    var pos: nat

    ghost predicate Valid()
      reads this
    {
      pos <= |data|
    }

    constructor (data: Bytes, sound: bool)
      ensures Valid() && this.data == data && this.sound == sound && pos == 0
    {
      this.data, this.sound, pos := data, sound, 0;
    }

    method Read(buf: array<Byte>, from: nat) returns (n: nat, eof: bool, ok: bool)
      requires Valid() && from < buf.Length
      modifies this`pos, buf
      ensures Valid() && pos == old(pos) + n && from + n <= buf.Length
      ensures buf[from..from + n] == data[old(pos)..pos]
      ensures forall i :: 0 <= i < buf.Length && !(from <= i < from + n) ==> buf[i] == old(buf[i])
      ensures eof ==> pos == |data|
      ensures n == 0 ==> eof || !ok
      ensures sound ==> ok
    {
      ok := *;
      if !ok && !sound {
        return 0, false, false;
      }
      ok := true;
      var room := if buf.Length - from < |data| - pos then buf.Length - from else |data| - pos;
      if room == 0 {
        return 0, true, true;
      }
      n :| 1 <= n <= room;
      forall i | from <= i < from + n {
        buf[i] := data[pos + (i - from)];
      }
      pos := pos + n;
      eof := *;
      eof := eof && pos == |data|;
    }
  }

  /** A destination; a reliable one takes everything it is given. */
  class Sink {
    const reliable: bool
    var received: Bytes

    constructor (reliable: bool)
      ensures this.reliable == reliable && received == []
    {
      this.reliable, received := reliable, [];
    }

    method Write(p: Bytes) returns (n: nat, ok: bool)
      modifies this
      ensures n <= |p| && received == old(received) + p[..n]
      ensures reliable ==> ok && n == |p|
    {
      n, ok := |p|, true;
      if !reliable {
        n :| 0 <= n <= |p|;
        ok := *;
      }
      received := received + p[..n];
    }
  }

  /** `StdWriter.Write`: the header and the payload go out in one write; the count excludes the header. */
  method WriteFrame(w: Sink, fd: Byte, buf: Bytes) returns (n: int, ok: bool)
    modifies w
    ensures w.reliable ==> ok && n == |buf| && w.received == old(w.received) + Encode(Frame(fd, buf))
    ensures exists k: nat :: k <= |Encode(Frame(fd, buf))| && n == k - PREFIX_LEN
                             && w.received == old(w.received) + Encode(Frame(fd, buf))[..k]
  {
    EncodeShape(Frame(fd, buf));
    var k;
    k, ok := w.Write([fd, 0, 0, 0] + PutUint32(|buf| % LIMIT) + buf);
    n := k - PREFIX_LEN;
    assert Encode(Frame(fd, buf))[..|Encode(Frame(fd, buf))|] == Encode(Frame(fd, buf));
  }

  lemma {:induction false} PayloadsAppend(frames: seq<Frame>, f: Frame, toOut: bool, toErr: bool)
    ensures Payloads(frames + [f], toOut, toErr) ==
            Payloads(frames, toOut, toErr) + (if (if f.fd == 2 then toErr else toOut) then f.payload else [])
  {
    if frames == [] {
      assert [f][1..] == [];
    } else {
      assert (frames + [f])[1..] == frames[1..] + [f];
      PayloadsAppend(frames[1..], f, toOut, toErr);
    }
  }

  function TotalLength(frames: seq<Frame>): nat {
    if frames == [] then 0 else |frames[0].payload| + TotalLength(frames[1..])
  }

  lemma {:induction false} TotalLengthAppend(frames: seq<Frame>, f: Frame)
    ensures TotalLength(frames + [f]) == TotalLength(frames) + |f.payload|
  {
    if frames != [] {
      assert (frames + [f])[1..] == frames[1..] + [f];
      TotalLengthAppend(frames[1..], f);
    } else {
      assert [f][1..] == [];
    }
  }

  /** Frames read off the front of `data` so far, with `rest` still to be read. */
  ghost predicate Consumed(data: Bytes, frames: seq<Frame>, rest: Bytes) {
    Demux(data).0 == frames + Demux(rest).0 && Demux(data).1 == Demux(rest).1
  }

  lemma ConsumeFrame(data: Bytes, frames: seq<Frame>, rest: Bytes, f: Frame)
    returns (frames': seq<Frame>, rest': Bytes)
    requires Consumed(data, frames, rest)
    requires |rest| >= PREFIX_LEN && rest[0] <= 2 && |rest| >= PREFIX_LEN + SizeOf(rest)
    requires f == Frame(rest[0], rest[PREFIX_LEN..PREFIX_LEN + SizeOf(rest)])
    ensures frames' == frames + [f]
    ensures rest' == rest[PREFIX_LEN + SizeOf(rest)..] && Consumed(data, frames', rest')
    ensures TotalLength(frames') == TotalLength(frames) + SizeOf(rest)
  {
    frames', rest' := frames + [f], rest[PREFIX_LEN + SizeOf(rest)..];
    assert Demux(rest).0 == [f] + Demux(rest').0;
    assert frames + [f] + Demux(rest').0 == frames + ([f] + Demux(rest').0);
    TotalLengthAppend(frames, f);
  }

  /** The buffer starts with the first bytes of `rest`, the part of the stream not yet copied; the
      other bytes of `rest` are still to be read. */
  ghost predicate Unread(rest: Bytes, src: Source, buf: array<Byte>, nr: nat)
    reads src, buf
  {
    && src.Valid() && nr <= buf.Length && nr <= |rest|
    && buf[..nr] == rest[..nr] && rest[nr..] == src.data[src.pos..]
  }

  lemma ReadMore(rest: Bytes, data: Bytes, nr: nat, n: nat, pos: nat)
    requires nr <= |rest| && pos <= |data| && rest[nr..] == data[pos..] && n <= |data| - pos
    ensures nr + n <= |rest| && rest[nr + n..] == data[pos + n..]
    ensures rest[..nr + n] == rest[..nr] + data[pos..pos + n]
  {
    assert rest[nr..][n..] == data[pos..][n..];
    assert rest[nr..nr + n] == rest[nr..][..n];
    assert data[pos..pos + n] == data[pos..][..n];
  }

  /** Reading into the buffer until `want` bytes are there, or the source ends or fails. */
  method Fill(src: Source, buf: array<Byte>, start: nat, want: nat, ghost rest: Bytes) returns (nr: nat, status: Status)
    requires Unread(rest, src, buf, start) && want <= buf.Length
    modifies src`pos, buf
    ensures Unread(rest, src, buf, nr)
    ensures status == Nil || status == ReadError
    ensures status == Nil ==> nr >= want || nr == |rest|
    ensures src.sound ==> status == Nil
  {
    nr := start;
    while nr < want
      invariant Unread(rest, src, buf, nr)
      decreases |rest| - nr
    {
      ghost var before, pos0 := buf[..nr], src.pos;
      var n, eof, ok := src.Read(buf, nr);
      ReadMore(rest, src.data, nr, n, pos0);
      assert buf[..nr + n] == before + buf[nr..nr + n];
      nr := nr + n;
      if eof {
        return nr, Nil;
      }
      if !ok {
        return nr, ReadError;
      }
    }
    status := Nil;
  }

  const START_BUF := 32 * 1024 + PREFIX_LEN + 1

  /** A larger buffer with the same beginning. */
  method Extend(buf: array<Byte>, more: nat) returns (bigger: array<Byte>)
    ensures fresh(bigger) && bigger.Length == buf.Length + more && bigger[..buf.Length] == buf[..]
  {
    bigger := new Byte[buf.Length + more];
    forall i | 0 <= i < buf.Length {
      bigger[i] := buf[i];
    }
  }

  /** The frames for one destination, which may also be the other one. */
  ghost predicate Delivered(dstout: Sink, out0: Bytes, dsterr: Sink, err0: Bytes, frames: seq<Frame>)
    reads dstout, dsterr
  {
    && dstout.received == out0 + Payloads(frames, true, dstout == dsterr)
    && dsterr.received == err0 + Payloads(frames, dstout == dsterr, true)
  }

  /** Writing one payload to the destination its stream names. */
  method Forward(dstout: Sink, dsterr: Sink, fd: Byte, p: Bytes, ghost out0: Bytes, ghost err0: Bytes,
                 ghost frames: seq<Frame>)
    returns (status: Status)
    requires fd <= 2 && Delivered(dstout, out0, dsterr, err0, frames)
    modifies dstout, dsterr
    ensures status == Nil ==> Delivered(dstout, out0, dsterr, err0, frames + [Frame(fd, p)])
    ensures status in {Nil, WriteError, ShortWrite}
    ensures dstout.reliable && dsterr.reliable ==> status == Nil
  {
    var out := if fd == 2 then dsterr else dstout;
    var nw, ok := out.Write(p);
    if !ok {
      return WriteError;
    }
    if nw != |p| {
      return ShortWrite;
    }
    assert p[..nw] == p;
    PayloadsAppend(frames, Frame(fd, p), true, dstout == dsterr);
    PayloadsAppend(frames, Frame(fd, p), dstout == dsterr, true);
    Regroup(out0, Payloads(frames, true, dstout == dsterr), p);
    Regroup(err0, Payloads(frames, dstout == dsterr, true), p);
    return Nil;
  }

  lemma HeaderOfPrefix(rest: Bytes, k: nat)
    requires PREFIX_LEN <= k <= |rest|
    ensures rest[..k][0] == rest[0] && SizeOf(rest[..k]) == SizeOf(rest)
  {
    assert rest[..k][SIZE_INDEX..PREFIX_LEN] == rest[SIZE_INDEX..PREFIX_LEN];
  }

  /** `copy(buf, buf[k:])`: what follows the first `k` bytes moves to the front. */
  method Compact(src: Source, buf: array<Byte>, k: nat, nr: nat, ghost rest: Bytes)
    requires Unread(rest, src, buf, nr) && k <= nr
    modifies buf
    ensures Unread(rest[k..], src, buf, nr - k)
  {
    ghost var full := buf[..nr];
    forall i | 0 <= i < buf.Length - k {
      buf[i] := buf[i + k];
    }
    assert buf[..nr - k] == full[k..];
    assert rest[k..][..nr - k] == rest[..nr][k..];
    assert rest[k..][nr - k..] == rest[nr..];
  }

  datatype Next = Got(fd: Byte, frameSize: nat) | Ended | Failed(status: Status)

  ghost predicate HoldsFrame(rest: Bytes, nr: nat, fd: Byte, frameSize: nat) {
    PREFIX_LEN + frameSize <= nr <= |rest| && rest[0] == fd <= 2 && SizeOf(rest) == frameSize
  }

  /** Buffering one whole frame: the header, then room for the payload, then the payload. */
  method NextFrame(src: Source, buf: array<Byte>, nr: nat, ghost rest: Bytes)
    returns (buf': array<Byte>, nr': nat, next: Next)
    requires Unread(rest, src, buf, nr) && PREFIX_LEN < buf.Length
    modifies src`pos, buf
    ensures src.Valid() && (buf' == buf || fresh(buf'))
    ensures next.Ended? ==> Demux(rest).0 == [] && Demux(rest).1 == Nil
    ensures next.Failed? ==> if next.status == InvalidHeader then Demux(rest).0 == [] && Demux(rest).1 == InvalidHeader
                             else next.status == ReadError && !src.sound
    ensures next.Got? ==>
              Unread(rest, src, buf', nr') && PREFIX_LEN < buf'.Length && HoldsFrame(rest, nr', next.fd, next.frameSize)
  {
    buf' := buf;
    var status;
    nr', status := Fill(src, buf', nr, PREFIX_LEN, rest);
    if status != Nil {
      return buf', nr', Failed(status);
    }
    if nr' < PREFIX_LEN {
      return buf', nr', Ended;
    }
    HeaderOfPrefix(rest, nr');
    var fd, frameSize := buf'[..nr'][0], SizeOf(buf'[..nr']);
    if fd > 2 {
      return buf', nr', Failed(InvalidHeader);
    }
    var end := frameSize + PREFIX_LEN;
    if end > buf'.Length {
      ghost var have := buf'[..nr'];
      buf' := Extend(buf', end - buf'.Length + 1);
      assert buf'[..nr'] == have;
    }
    nr', status := Fill(src, buf', nr', end, rest);
    if status != Nil {
      return buf', nr', Failed(status);
    }
    if nr' < end {
      return buf', nr', Ended;
    }
    next := Got(fd, frameSize);
  }

  lemma ConsumedAll(data: Bytes, frames: seq<Frame>, rest: Bytes)
    requires Consumed(data, frames, rest) && Demux(rest).0 == []
    ensures Demux(data).0 == frames && Demux(data).1 == Demux(rest).1
  {
    assert frames + [] == frames;
  }

  /** One turn of the loop that is not the last. */
  method Deliver(dstout: Sink, dsterr: Sink, src: Source, buf: array<Byte>, nr: nat, fd: Byte, frameSize: nat,
                 ghost out0: Bytes, ghost err0: Bytes, ghost data: Bytes, ghost frames: seq<Frame>, ghost rest: Bytes)
    returns (nr': nat, status: Status, ghost frames': seq<Frame>, ghost rest': Bytes)
    requires Unread(rest, src, buf, nr) && HoldsFrame(rest, nr, fd, frameSize)
    requires Consumed(data, frames, rest) && Delivered(dstout, out0, dsterr, err0, frames)
    modifies dstout, dsterr, buf
    ensures status in {Nil, WriteError, ShortWrite}
    ensures dstout.reliable && dsterr.reliable ==> status == Nil
    ensures status == Nil ==>
      && Unread(rest', src, buf, nr') && |rest'| < |rest|
      && Consumed(data, frames', rest') && Delivered(dstout, out0, dsterr, err0, frames')
      && TotalLength(frames') == TotalLength(frames) + frameSize
  {
    var end := PREFIX_LEN + frameSize;
    var payload := buf[..nr][PREFIX_LEN..end];
    assert payload == rest[PREFIX_LEN..end];
    nr', frames', rest' := nr - end, frames, rest;
    status := Forward(dstout, dsterr, fd, payload, out0, err0, frames);
    if status == Nil {
      Compact(src, buf, end, nr, rest);
      frames', rest' := ConsumeFrame(data, frames, rest, Frame(fd, payload));
    }
  }

  /** `StdCopy`: however the source is cut into reads, what is left of it is demultiplexed exactly. Of a stream
      that was written frame by frame and broke off anywhere, exactly the complete payloads arrive. */
  method StdCopy(dstout: Sink, dsterr: Sink, src: Source) returns (written: nat, status: Status)
    requires src.Valid()
    modifies dstout, dsterr, src`pos
    ensures src.Valid()
    ensures var (frames, end) := Demux(src.data[old(src.pos)..]);
            && (status == Nil ==> end == Nil && written == TotalLength(frames))
            && (status == InvalidHeader ==> end == InvalidHeader)
            && (status == Nil || status == InvalidHeader ==>
                  Delivered(dstout, old(dstout.received), dsterr, old(dsterr.received), frames))
            && (src.sound && dstout.reliable && dsterr.reliable ==> status == end)
    ensures status != Nil ==> written == 0
    ensures forall frames, k :: Written(src.data[old(src.pos)..], frames, k) ==>
              var sent := frames[..Complete(frames, k)];
              && status != InvalidHeader
              && (src.sound && dstout.reliable && dsterr.reliable ==> status == Nil)
              && (status == Nil ==>
                    && written == TotalLength(sent)
                    && Delivered(dstout, old(dstout.received), dsterr, old(dsterr.received), sent))
  {
    var buf := new Byte[START_BUF];
    var nr: nat := 0;
    written := 0;
    ghost var data := src.data[src.pos..];
    ghost var frames: seq<Frame> := [];
    ghost var rest := data;
    assert Consumed(data, frames, rest) by { assert [] + Demux(rest).0 == Demux(rest).0; }
    forall sent, k | Written(data, sent, k)
      ensures Demux(data).0 == sent[..Complete(sent, k)] && Demux(data).1 == Nil
    {
      DemuxPrefix(sent, k);
    }
    while true
      invariant fresh(buf) && PREFIX_LEN < buf.Length && Unread(rest, src, buf, nr) && Consumed(data, frames, rest)
      invariant Delivered(dstout, old(dstout.received), dsterr, old(dsterr.received), frames)
      invariant written == TotalLength(frames)
      decreases |rest|
    {
      var next;
      buf, nr, next := NextFrame(src, buf, nr, rest);
      if !next.Got? {
        status := if next.Ended? then Nil else next.status;
        if status != ReadError {
          ConsumedAll(data, frames, rest);
        }
        return if status == Nil then written else 0, status;
      }
      nr, status, frames, rest := Deliver(dstout, dsterr, src, buf, nr, next.fd, next.frameSize,
                                          old(dstout.received), old(dsterr.received), data, frames, rest);
      if status != Nil {
        return 0, status;
      }
      written := written + next.frameSize;
    }
  }
}
