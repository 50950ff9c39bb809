/** A reader of a request's body that asks again for the rest when a transfer breaks off
    (`pkg/httputils/resumablerequestreader.go`). */
module Resumable {
  import opened Wrappers

  type Bytes = seq<bv8>

  const OK := 200
  const PARTIAL_CONTENT := 206
  const RANGE_NOT_SATISFIABLE := 416
  const TWO_32 := 0x1_0000_0000

  /** A response, with the content that is still to be read from it. A length of -1 is unknown. */
  datatype Response = Response(status: int, contentLength: int, content: Bytes)

  datatype Reader = Reader(open: bool, lastRange: nat, totalSize: int, current: Option<Response>, failures: nat,
                           maxFailures: nat)

  datatype Error = ReaderClosed | RequestFailed | NoByteRanges | NoContentLength | EndOfBody

  datatype Ending = More | End | Broken

  /** What happens in one call: the response to a request, if one is made, or None if it fails; how
      many bytes the body then gives, and how that reading of the body ends. */
  datatype Env = Env(reply: Option<Response>, n: nat, ending: Ending)

  /** The range of a request: none for the first, otherwise from what was read last to the total size. */
  function RangeOf(r: Reader): Option<(int, int)> {
    if r.lastRange != 0 then Some((r.lastRange, r.totalSize)) else None
  }

  /** The part of the body that a range with this last position asks for. */
  function Part(body: Bytes, first: nat, last: int): Bytes
    requires first <= |body| && first <= last
  {
    if last + 1 < |body| then body[first..last + 1] else body[first..]
  }

  /** A server for a fixed body that honours ranges, as sections 2.1, 4.1 and 4.4 of RFC 7233 have it: an
      invalid range is ignored, one that starts past the end is not satisfiable. A server may also ignore
      any range. */
  ghost predicate Honest(body: Bytes, range: Option<(int, int)>, resp: Response) {
    || (resp.status == OK && resp.content == body && resp.contentLength in {|body|, -1})
    || (range.Some? && 0 <= range.value.0 <= range.value.1 && range.value.0 < |body|
        && resp.status == PARTIAL_CONTENT && resp.content == Part(body, range.value.0, range.value.1))
    || (range.Some? && range.value.0 <= range.value.1 && range.value.0 >= |body|
        && resp.status == RANGE_NOT_SATISFIABLE)
  }

  /** The body can give that many bytes of that content, and ends only when all is given. */
  predicate Gives(content: Bytes, env: Env, size: nat) {
    env.n <= size && env.n <= |content| && (env.ending == End ==> env.n == |content|)
  }

  ghost predicate Possible(body: Bytes, r: Reader, env: Env, size: nat) {
    && (r.current == None ==> env.reply.Some? ==> Honest(body, RangeOf(r), env.reply.value))
    && (r.current.Some? ==> Gives(r.current.value.content, env, size))
    && (r.current == None && env.reply.Some? ==> Gives(env.reply.value.content, env, size))
  }

  /** The outcome of a call: the reader after it, the bytes read, and the error, if any. */
  datatype Result = Result(reader: Reader, bytes: Bytes, error: Option<Error>)

  function AfterRequestFailure(r: Reader): Result {
    if (r.failures + 1) % TWO_32 != r.maxFailures
    then Result(r.(failures := (r.failures + 1) % TWO_32), [], None)
    else Result(r, [], Some(RequestFailed))
  }

  /** The reason not to read from a response. */
  function Refusal(r: Reader, resp: Response, isFresh: bool): Option<Error> {
    if resp.status == RANGE_NOT_SATISFIABLE && r.lastRange == r.totalSize && resp.contentLength == 0
    then Some(EndOfBody)
    else if resp.status != PARTIAL_CONTENT && r.lastRange != 0 && isFresh then Some(NoByteRanges)
    else if r.totalSize < 0 then Some(NoContentLength)
    else None
  }

  function AfterReading(r: Reader, resp: Response, env: Env): Reader
    requires env.n <= |resp.content|
  {
    r.(totalSize := if r.totalSize == 0 then resp.contentLength else r.totalSize,
       lastRange := r.lastRange + env.n,
       current := if env.ending == More then Some(resp.(content := resp.content[env.n..])) else None)
  }

  function AfterResponse(r: Reader, resp: Response, isFresh: bool, env: Env): Result
    requires env.n <= |resp.content|
  {
    match Refusal(r, resp, isFresh)
    case Some(e) => Result(r.(current := None), [], Some(e))
    case None =>
      Result(AfterReading(r, resp, env), resp.content[..env.n], if env.ending == End then Some(EndOfBody) else None)
  }

  function ReadOnce(r: Reader, env: Env): Result
    requires r.current.Some? ==> env.n <= |r.current.value.content|
    requires r.current == None && env.reply.Some? ==> env.n <= |env.reply.value.content|
  {
    if !r.open then Result(r, [], Some(ReaderClosed))
    else match (r.current, env.reply)
      case (Some(resp), _) => AfterResponse(r, resp, false, env)
      case (None, Some(resp)) => AfterResponse(r, resp, true, env)
      case (None, None) => AfterRequestFailure(r)
  }

  /** The calls of a client, each with the size of its buffer; and all bytes delivered so far. */
  datatype Session = Session(reader: Reader, delivered: Bytes)

  datatype Call = Call(env: Env, size: nat)

  ghost predicate CanCall(body: Bytes, s: Session, c: Call) {
    Possible(body, s.reader, c.env, c.size)
  }

  ghost function Next(body: Bytes, s: Session, c: Call): Session
    requires CanCall(body, s, c)
  {
    var r := ReadOnce(s.reader, c.env);
    Session(r.reader, s.delivered + r.bytes)
  }

  /** None if some call is not possible. */
  ghost function Run(body: Bytes, s: Session, calls: seq<Call>): Option<Session>
    decreases |calls|
  {
    if calls == [] then Some(s)
    else if CanCall(body, s, calls[0]) then Run(body, Next(body, s, calls[0]), calls[1..])
    else None
  }

  /** A reader as it is made, perhaps with the response to a first request. */
  ghost predicate Initial(body: Bytes, r: Reader) {
    && r.open && r.lastRange == 0 && r.failures == 0 && r.maxFailures < TWO_32
    && (r.current.Some? ==> Honest(body, None, r.current.value))
  }

  /** The size given by the caller does not cut off a resumed transfer. */
  predicate Enough(body: Bytes, totalSize: int) {
    totalSize <= 0 || totalSize >= |body| - 1
  }

  /** What is left of a response is a stretch of the body, and all of the rest if the size is enough. */
  predicate Continues(body: Bytes, position: nat, content: Bytes, whole: bool) {
    && position + |content| <= |body| && content == body[position..position + |content|]
    && (whole ==> position + |content| == |body|)
  }

  /** A response that is being read. */
  predicate Usable(body: Bytes, total0: int, position: nat, resp: Response) {
    && resp.status in {OK, PARTIAL_CONTENT} && (position == 0 ==> resp.contentLength in {|body|, -1})
    && Continues(body, position, resp.content, Enough(body, total0))
  }

  ghost predicate CountersRight(body: Bytes, total0: int, r: Reader) {
    && r.totalSize in {total0, |body|, -1} && (r.totalSize != total0 ==> total0 == 0)
    && r.failures < TWO_32 && r.maxFailures < TWO_32
    && (r.maxFailures >= 1 ==> r.failures <= r.maxFailures - 1)
    && (r.totalSize == 0 && r.lastRange != 0 ==> body == [])
  }

  predicate Delivered(body: Bytes, position: nat, delivered: Bytes) {
    position <= |body| && delivered == body[..position]
  }

  ghost predicate Inv(body: Bytes, total0: int, s: Session) {
    && Delivered(body, s.reader.lastRange, s.delivered)
    && CountersRight(body, total0, s.reader)
    && (s.reader.current.Some? ==> Usable(body, total0, s.reader.lastRange, s.reader.current.value))
  }

  lemma InitialHasInv(body: Bytes, r: Reader)
    requires Initial(body, r)
    ensures Inv(body, r.totalSize, Session(r, []))
  {
  }

  /** A fresh response that is read at all continues the body. */
  lemma FreshIsUsable(body: Bytes, total0: int, r: Reader, resp: Response)
    requires r.lastRange <= |body| && Honest(body, RangeOf(r), resp)
    requires resp.status == PARTIAL_CONTENT || r.lastRange == 0
    requires r.totalSize in {total0, |body|, -1} && (r.totalSize != total0 ==> total0 == 0)
    ensures Usable(body, total0, r.lastRange, resp)
  {
  }

  lemma Advance(body: Bytes, total0: int, delivered: Bytes, resp: Response, position: nat, n: nat)
    requires Delivered(body, position, delivered) && n <= |resp.content|
    requires Usable(body, total0, position, resp)
    ensures Delivered(body, position + n, delivered + resp.content[..n])
    ensures Usable(body, total0, position + n, resp.(content := resp.content[n..]))
    ensures n == |resp.content| && Enough(body, total0) ==> delivered + resp.content[..n] == body
  {
    var content := resp.content;
    assert content[..n] == body[position..position + n];
    assert body[..position] + body[position..position + n] == body[..position + n];
    assert content[n..] == body[position + n..position + |content|];
    assert body[..|body|] == body;
    assert n == 0 ==> content[n..] == content;
  }

  lemma RefusalKeepsInv(body: Bytes, total0: int, s: Session, resp: Response, isFresh: bool)
    requires Inv(body, total0, s) && (isFresh ==> Honest(body, RangeOf(s.reader), resp))
    requires !isFresh ==> s.reader.current == Some(resp)
    ensures Inv(body, total0, s.(reader := s.reader.(current := None)))
    ensures Refusal(s.reader, resp, isFresh) == Some(EndOfBody) ==> s.delivered == body
  {
    assert body[..|body|] == body;
  }

  lemma ReadingKeepsInv(body: Bytes, total0: int, s: Session, resp: Response, env: Env)
    requires Inv(body, total0, s) && env.n <= |resp.content| && s.reader.totalSize >= 0
    requires Usable(body, total0, s.reader.lastRange, resp)
    ensures Inv(body, total0, Session(AfterReading(s.reader, resp, env), s.delivered + resp.content[..env.n]))
    ensures env.n == |resp.content| && Enough(body, total0) ==> s.delivered + resp.content[..env.n] == body
  {
    Advance(body, total0, s.delivered, resp, s.reader.lastRange, env.n);
    CountersStayRight(body, total0, s.reader, resp, env);
  }

  lemma CountersStayRight(body: Bytes, total0: int, r: Reader, resp: Response, env: Env)
    requires CountersRight(body, total0, r) && r.lastRange <= |body| && env.n <= |resp.content| && r.totalSize >= 0
    requires Usable(body, total0, r.lastRange, resp)
    ensures CountersRight(body, total0, AfterReading(r, resp, env))
  {
  }

  lemma ResponseKeepsInv(body: Bytes, total0: int, s: Session, resp: Response, isFresh: bool, env: Env)
    requires Inv(body, total0, s) && env.n <= |resp.content| && (env.ending == End ==> env.n == |resp.content|)
    requires isFresh ==> Honest(body, RangeOf(s.reader), resp)
    requires !isFresh ==> s.reader.current == Some(resp)
    ensures var r := AfterResponse(s.reader, resp, isFresh, env);
            && Inv(body, total0, Session(r.reader, s.delivered + r.bytes))
            && (r.error == Some(EndOfBody) && Enough(body, total0) ==> s.delivered + r.bytes == body)
  {
    assert s.delivered + [] == s.delivered;
    if Refusal(s.reader, resp, isFresh).Some? {
      RefusalKeepsInv(body, total0, s, resp, isFresh);
    } else {
      if isFresh {
        FreshIsUsable(body, total0, s.reader, resp);
      }
      ReadingKeepsInv(body, total0, s, resp, env);
    }
  }

  /** In every run against such a server, whatever fails: what was delivered is the start of the body, as
      far as the position says; and at the end of the body all of it, if the size given was enough. */
  lemma {:induction false} DeliversPrefix(body: Bytes, total0: int, s: Session, calls: seq<Call>)
    requires Inv(body, total0, s) && Run(body, s, calls).Some?
    ensures Inv(body, total0, Run(body, s, calls).value)
    decreases |calls|
  {
    if calls == [] {
    } else {
      CallKeepsInv(body, total0, s, calls[0]);
      DeliversPrefix(body, total0, Next(body, s, calls[0]), calls[1..]);
    }
  }

  lemma CallKeepsInv(body: Bytes, total0: int, s: Session, c: Call)
    requires Inv(body, total0, s) && CanCall(body, s, c)
    ensures Inv(body, total0, Next(body, s, c))
    ensures ReadOnce(s.reader, c.env).error == Some(EndOfBody) && Enough(body, total0) ==>
              Next(body, s, c).delivered == body
  {
    assert s.delivered + [] == s.delivered;
    if s.reader.open && s.reader.current.Some? {
      ResponseKeepsInv(body, total0, s, s.reader.current.value, false, c.env);
    } else if s.reader.open && c.env.reply.Some? {
      ResponseKeepsInv(body, total0, s, c.env.reply.value, true, c.env);
    }
  }

  /** The bytes delivered, the failures swallowed, and what the end of the body means. */
  lemma ReadsBody(body: Bytes, r: Reader, calls: seq<Call>, last: Call)
    requires Initial(body, r) && Run(body, Session(r, []), calls).Some?
    requires CanCall(body, Run(body, Session(r, []), calls).value, last)
    ensures var s := Run(body, Session(r, []), calls).value;
            && s.reader.lastRange <= |body| && s.delivered == body[..s.reader.lastRange]
            && (r.maxFailures >= 1 ==> s.reader.failures <= r.maxFailures - 1)
            && (ReadOnce(s.reader, last.env).error == Some(EndOfBody) && Enough(body, r.totalSize) ==>
                  Next(body, s, last).delivered == body)
  {
    InitialHasInv(body, r);
    DeliversPrefix(body, r.totalSize, Session(r, []), calls);
    MaxStays(body, Session(r, []), calls);
    CallKeepsInv(body, r.totalSize, Run(body, Session(r, []), calls).value, last);
  }

  lemma {:induction false} MaxStays(body: Bytes, s: Session, calls: seq<Call>)
    requires Run(body, s, calls).Some?
    ensures Run(body, s, calls).value.reader.maxFailures == s.reader.maxFailures
    decreases |calls|
  {
    if calls == [] {
    } else {
      MaxStays(body, Next(body, s, calls[0]), calls[1..]);
    }
  }

  /** With any smaller size the reader can report the end of the body too soon: one byte is read, the
      transfer breaks off, and the range asked for next leaves out the rest. */
  lemma EndsEarly(body: Bytes, r: Reader) returns (first: Call, second: Call)
    requires Initial(body, r) && r.current == None && !Enough(body, r.totalSize)
    ensures var s0 := Session(r, []);
            && CanCall(body, s0, first) && CanCall(body, Next(body, s0, first), second)
            && ReadOnce(Next(body, s0, first).reader, second.env).error == Some(EndOfBody)
            && Next(body, Next(body, s0, first), second).delivered == body[..r.totalSize + 1] != body
  {
    var s0 := Session(r, []);
    first := Call(Env(Some(Response(OK, |body|, body)), 1, Broken), 1);
    var rest := Part(body, 1, r.totalSize);
    second := Call(Env(Some(Response(PARTIAL_CONTENT, |rest|, rest)), |rest|, End), |rest|);
    assert [] + body[..1] == body[..1];
    assert body[..1] + rest == body[..r.totalSize + 1];
  }

  class ResumableRequestReader {
    var open: bool
    var lastRange: nat
    var totalSize: int
    var currentResponse: Option<Response>
    var failures: nat
    const maxFailures: nat

    ghost function Value(): Reader
      reads this
    {
      Reader(open, lastRange, totalSize, currentResponse, failures, maxFailures)
    }

    constructor (maxFailures: nat, totalSize: int, initial: Option<Response>)
      ensures Value() == Reader(true, 0, totalSize, initial, 0, maxFailures)
    {
      this.maxFailures, this.totalSize, currentResponse := maxFailures, totalSize, initial;
      open, lastRange, failures := true, 0, 0;
    }

    /** One call. `env` says what the network does; the bytes go to the front of the buffer. */
    method Read(p: array<bv8>, env: Env) returns (n: nat, err: Option<Error>)
      requires currentResponse.Some? ==> Gives(currentResponse.value.content, env, p.Length)
      requires currentResponse == None && env.reply.Some? ==> Gives(env.reply.value.content, env, p.Length)
      modifies this, p
      ensures n <= p.Length
      ensures Result(Value(), p[..n], err) == ReadOnce(old(Value()), env)
      ensures forall i :: n <= i < p.Length ==> p[i] == old(p[i])
    {
      if !open {
        return 0, Some(ReaderClosed);
      }
      var isFresh := false;
      if currentResponse == None {
        currentResponse := env.reply;
        isFresh := true;
      }
      if currentResponse == None && (failures + 1) % TWO_32 != maxFailures {
        failures := (failures + 1) % TWO_32;
        return 0, None;
      } else if currentResponse == None {
        return 0, Some(RequestFailed);
      }
      n, err := ReadResponse(p, currentResponse.value, isFresh, env);
    }

    /** The part of a call that follows a response. */
    method ReadResponse(p: array<bv8>, resp: Response, isFresh: bool, env: Env) returns (n: nat, err: Option<Error>)
      requires currentResponse == Some(resp) && Gives(resp.content, env, p.Length)
      modifies this, p
      ensures n <= p.Length
      ensures Result(Value(), p[..n], err) == AfterResponse(old(Value()), resp, isFresh, env)
      ensures forall i :: n <= i < p.Length ==> p[i] == old(p[i])
    {
      if resp.status == RANGE_NOT_SATISFIABLE && lastRange == totalSize && resp.contentLength == 0 {
        currentResponse := None;
        return 0, Some(EndOfBody);
      } else if resp.status != PARTIAL_CONTENT && lastRange != 0 && isFresh {
        currentResponse := None;
        return 0, Some(NoByteRanges);
      }
      if totalSize == 0 {
        totalSize := resp.contentLength;
      } else if totalSize <= 0 {
        currentResponse := None;
        return 0, Some(NoContentLength);
      }
      n := env.n;
      forall i | 0 <= i < n {
        p[i] := resp.content[i];
      }
      assert p[..n] == resp.content[..n];
      lastRange := lastRange + n;
      currentResponse := Some(resp.(content := resp.content[n..]));
      if env.ending != More {
        currentResponse := None;
      }
      err := if env.ending == End then Some(EndOfBody) else None;
    }

    method Close()
      modifies this
      ensures Value() == old(Value()).(open := false, current := None)
    {
      currentResponse := None;
      open := false;
    }
  }
}
