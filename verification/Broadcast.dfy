/** A writer that hands every line on to many (`pkg/broadcastwriter/broadcastwriter.go`). */
module Broadcast {
  import opened Sequences

  type Writer = nat
  type Streams = map<string, set<Writer>>

  /** What each writer received under each stream. */
  type Received = map<(string, Writer), seq<string>>

  /** Which writes fail, by stream, writer, and the number of the line within one call of `Write`. */
  type Failing = (string, Writer, nat) -> bool

  datatype State = State(buf: string, streams: Streams, received: Received)

  /** One more character in front; without a line to belong to, it is part of no line yet. */
  function Push(c: char, lines: seq<string>): seq<string> {
    if c == '\n' then ["\n"] + lines
    else if lines == [] then []
    else [[c] + lines[0]] + lines[1..]
  }

  lemma PushConcat(c: char, u: seq<string>, v: seq<string>)
    requires c == '\n' || u != []
    ensures Push(c, u + v) == Push(c, u) + v
  {
    if c == '\n' {
      assert ["\n"] + (u + v) == ["\n"] + u + v;
    } else {
      assert ([[c] + u[0]] + u[1..]) + v == [[c] + (u + v)[0]] + (u + v)[1..];
    }
  }

  /** The complete lines, each with its newline. */
  function Lines(data: string): seq<string> {
    if data == "" then []
    else Push(data[0], Lines(data[1..]))
  }

  /** What follows the last newline. */
  function Rest(data: string): string {
    if '\n' !in data then data else Rest(data[1..])
  }

  function Concat(lines: seq<string>): string {
    if lines == [] then "" else lines[0] + Concat(lines[1..])
  }

  predicate IsLine(line: string) {
    line != "" && line[|line| - 1] == '\n' && '\n' !in line[..|line| - 1]
  }

  lemma {:induction false} NoLines(data: string)
    ensures Lines(data) == [] <==> '\n' !in data
    decreases |data|
  {
    if data == "" {
    } else {
      NoLines(data[1..]);
      assert data == [data[0]] + data[1..];
    }
  }

  /** The lines and what follows them are the data; each line has one newline, at its end. */
  lemma {:induction false} LinesAndRest(data: string)
    ensures Concat(Lines(data)) + Rest(data) == data && '\n' !in Rest(data)
    ensures forall i :: 0 <= i < |Lines(data)| ==> IsLine(Lines(data)[i])
    decreases |data|
  {
    NoLines(data);
    if '\n' !in data {
    } else {
      LinesAndRest(data[1..]);
      NoLines(data[1..]);
      var lines := Lines(data[1..]);
      assert data == [data[0]] + data[1..];
      if data[0] == '\n' {
        assert (["\n"] + lines)[1..] == lines;
        RestOfTail(data);
      } else {
        LongerLine(data[0], lines, Rest(data[1..]));
      }
    }
  }

  lemma RestOfTail(data: string)
    requires data != "" && data[0] == '\n'
    ensures Rest(data) == Rest(data[1..])
  {
  }

  lemma LongerLine(c: char, lines: seq<string>, rest: string)
    requires c != '\n' && lines != [] && forall i :: 0 <= i < |lines| ==> IsLine(lines[i])
    ensures var more := [[c] + lines[0]] + lines[1..];
            && Concat(more) + rest == [c] + (Concat(lines) + rest)
            && forall i :: 0 <= i < |more| ==> IsLine(more[i])
  {
    var line := [c] + lines[0];
    var more := [line] + lines[1..];
    assert more[1..] == lines[1..];
    assert line + Concat(lines[1..]) + rest == [c] + (lines[0] + Concat(lines[1..]) + rest);
    assert line[..|line| - 1] == [c] + lines[0][..|lines[0]| - 1];
    assert forall i :: 1 <= i < |more| ==> more[i] == lines[i];
  }

  /** Cutting in two steps: what is left of the first piece goes in front of the second. */
  lemma {:induction false} CutInTwo(a: string, b: string)
    ensures Lines(a + b) == Lines(a) + Lines(Rest(a) + b)
    ensures Rest(a + b) == Rest(Rest(a) + b)
    decreases |a|
  {
    NoLines(a);
    if '\n' !in a {
      assert [] + Lines(a + b) == Lines(a + b);
    } else {
      assert (a + b)[1..] == a[1..] + b;
      CutInTwo(a[1..], b);
      NoLines(a[1..]);
      assert a == [a[0]] + a[1..];
      PushConcat(a[0], Lines(a[1..]), Lines(Rest(a[1..]) + b));
      var i :| 0 <= i < |a| && a[i] == '\n';
      assert (a + b)[i] == '\n';
      if a[0] == '\n' {
        RestOfTail(a);
      }
    }
  }

  /** The state after a payload went to the writers of `pairs`: a writer that fails is evicted. */
  function After(s: State, failing: Failing, k: nat, payload: string, pairs: set<(string, Writer)>): State {
    s.(streams := map stream | stream in s.streams :: Left(s.streams[stream], failing, k, stream, pairs),
       received := map key | key in s.received ::
         if key in pairs && !failing(key.0, key.1, k) then s.received[key] + [payload] else s.received[key])
  }

  function Left(writers: set<Writer>, failing: Failing, k: nat, stream: string,
                pairs: set<(string, Writer)>): set<Writer> {
    set w | w in writers && !((stream, w) in pairs && failing(stream, w, k))
  }

  function PairsOf(streams: Streams, stream: string): set<(string, Writer)> {
    if stream in streams then set w | w in streams[stream] :: (stream, w) else {}
  }

  /** All writers that get lines: raw writers do not. */
  function LinePairs(streams: Streams): set<(string, Writer)> {
    set stream, w | stream in streams && stream != "" && w in streams[stream] :: (stream, w)
  }

  /** Line after line, from the `k`-th of this call on. */
  function AfterLines(s: State, failing: Failing, k: nat, lines: seq<string>): State
    decreases |lines|
  {
    if lines == [] then s
    else AfterLines(After(s, failing, k, lines[0], LinePairs(s.streams)), failing, k + 1, lines[1..])
  }

  /** All bytes go to the raw writers as they are; then the lines that are complete go to the others. */
  function AfterWrite(s: State, failing: Failing, p: string): State {
    AfterLines(After(s, failing, 0, p, PairsOf(s.streams, "")).(buf := Rest(s.buf + p)), failing, 0, Lines(s.buf + p))
  }

  function AfterAdd(s: State, w: Writer, stream: string): State {
    s.(streams := s.streams[stream := (if stream in s.streams then s.streams[stream] else {}) + {w}],
       received := if (stream, w) in s.received then s.received else s.received[(stream, w) := []])
  }

  /** Every writer that is attached has a record of what it received. */
  ghost predicate Recorded(s: State) {
    forall stream, w :: stream in s.streams && w in s.streams[stream] ==> (stream, w) in s.received
  }

  lemma AfterIsRecorded(s: State, failing: Failing, k: nat, payload: string, pairs: set<(string, Writer)>)
    requires Recorded(s)
    ensures Recorded(After(s, failing, k, payload, pairs))
  {
  }

  lemma AfterNone(s: State, failing: Failing, k: nat, payload: string)
    ensures After(s, failing, k, payload, {}) == s
  {
    var s' := After(s, failing, k, payload, {});
    forall stream | stream in s.streams
      ensures s'.streams[stream] == s.streams[stream]
    {
    }
    assert s'.streams == s.streams && s'.received == s.received;
  }

  /** Two deliveries of the same payload, to different writers, are one. */
  lemma AfterBoth(s: State, failing: Failing, k: nat, payload: string, p: set<(string, Writer)>,
                  q: set<(string, Writer)>)
    requires p !! q
    ensures After(After(s, failing, k, payload, p), failing, k, payload, q) == After(s, failing, k, payload, p + q)
  {
    var one := After(After(s, failing, k, payload, p), failing, k, payload, q);
    var both := After(s, failing, k, payload, p + q);
    forall stream | stream in s.streams
      ensures one.streams[stream] == both.streams[stream]
    {
    }
    assert one.streams == both.streams;
    assert one.received == both.received;
  }

  class BroadcastWriter {
    var buf: string
    var streams: Streams
    var received: Received

    ghost function Value(): State
      reads this
    {
      State(buf, streams, received)
    }

    constructor ()
      ensures Value() == State("", map[], map[]) && Recorded(Value())
    {
      buf, streams, received := "", map[], map[];
    }

    method AddWriter(w: Writer, stream: string)
      requires Recorded(Value())
      modifies this`streams, this`received
      ensures Value() == AfterAdd(old(Value()), w, stream) && Recorded(Value())
    {
      if stream !in streams {
        streams := streams[stream := {}];
      }
      streams := streams[stream := streams[stream] + {w}];
      if (stream, w) !in received {
        received := received[(stream, w) := []];
      }
    }

    /** One writer gets the payload, or is evicted. */
    method DeliverOne(stream: string, w: Writer, k: nat, payload: string, failing: Failing)
      requires Recorded(Value()) && stream in streams && w in streams[stream]
      modifies this`streams, this`received
      ensures Value() == After(old(Value()), failing, k, payload, {(stream, w)}) && Recorded(Value())
    {
      AfterIsRecorded(Value(), failing, k, payload, {(stream, w)});
      if failing(stream, w, k) {
        streams := streams[stream := streams[stream] - {w}];
      } else {
        received := received[(stream, w) := received[(stream, w)] + [payload]];
      }
      ghost var after := After(old(Value()), failing, k, payload, {(stream, w)});
      forall other | other in streams
        ensures streams[other] == after.streams[other]
      {
      }
      assert streams == after.streams;
      assert received == after.received;
    }

    /** The loop over the writers of one stream. */
    method Deliver(stream: string, k: nat, payload: string, failing: Failing)
      requires Recorded(Value()) && stream in streams
      modifies this`streams, this`received
      ensures Value() == After(old(Value()), failing, k, payload, PairsOf(old(streams), stream)) && Recorded(Value())
    {
      var todo := streams[stream];
      ghost var done: set<(string, Writer)> := {};
      AfterNone(Value(), failing, k, payload);
      while todo != {}
        invariant Recorded(Value()) && streams.Keys == old(streams).Keys && todo <= old(streams)[stream]
        invariant done == set w | w in old(streams)[stream] && w !in todo :: (stream, w)
        invariant Value() == After(old(Value()), failing, k, payload, done)
        decreases todo
      {
        var w :| w in todo;
        AfterBoth(old(Value()), failing, k, payload, done, {(stream, w)});
        assert w in streams[stream];
        DeliverOne(stream, w, k, payload, failing);
        todo := todo - {w};
        done := done + {(stream, w)};
        assert done == set v | v in old(streams)[stream] && v !in todo :: (stream, v);
      }
      assert done == PairsOf(old(streams), stream);
    }

    /** The loop over the streams, for one line. */
    method DeliverLine(line: string, k: nat, failing: Failing)
      requires Recorded(Value())
      modifies this`streams, this`received
      ensures Value() == After(old(Value()), failing, k, line, LinePairs(old(streams))) && Recorded(Value())
    {
      var todo := streams.Keys;
      ghost var done: set<(string, Writer)> := {};
      AfterNone(Value(), failing, k, line);
      while todo != {}
        invariant Recorded(Value()) && streams.Keys == old(streams).Keys && todo <= streams.Keys
        invariant done == PairsExcept(old(streams), todo)
        invariant forall stream :: stream in todo ==> streams[stream] == old(streams)[stream]
        invariant Value() == After(old(Value()), failing, k, line, done)
        decreases todo
      {
        var stream :| stream in todo;
        todo := todo - {stream};
        if stream != "" {
          ghost var pairs := PairsOf(streams, stream);
          assert pairs == PairsOf(old(streams), stream);
          AfterBoth(old(Value()), failing, k, line, done, pairs);
          Deliver(stream, k, line, failing);
          done := done + pairs;
        }
        assert done == PairsExcept(old(streams), todo);
      }
      assert done == LinePairs(old(streams));
    }

    /** `ReadString`: up to and with the first newline; all that there is, if there is none. */
    method ReadString() returns (line: string, found: bool)
      modifies this`buf
      ensures found <==> '\n' in old(buf)
      ensures found ==> Lines(old(buf)) == [line] + Lines(buf) && Rest(old(buf)) == Rest(buf) && |buf| < |old(buf)|
      ensures !found ==> line == old(buf) && buf == ""
    {
      var i := 0;
      while i < |buf| && buf[i] != '\n'
        invariant i <= |buf| && '\n' !in buf[..i]
      {
        i := i + 1;
      }
      found := i < |buf|;
      if found {
        line := buf[..i + 1];
        FirstLine(buf[..i], buf[i + 1..]);
        assert buf[..i] + "\n" + buf[i + 1..] == buf;
        assert buf[..i] + "\n" == line;
        buf := buf[i + 1..];
      } else {
        assert buf[..i] == buf;
        line := buf;
        buf := "";
      }
    }

    method Write(p: string, failing: Failing)
      requires Recorded(Value())
      modifies this
      ensures Value() == AfterWrite(old(Value()), failing, p) && Recorded(Value())
    {
      if "" in streams {
        Deliver("", 0, p, failing);
      } else {
        AfterNone(Value(), failing, 0, p);
      }
      buf := buf + p;
      ghost var start := Value();
      var k: nat := 0;
      while true
        invariant Recorded(Value()) && Rest(buf) == Rest(start.buf)
        invariant AfterLines(Value().(buf := ""), failing, k, Lines(buf)) ==
                  AfterLines(start.(buf := ""), failing, 0, Lines(start.buf))
        decreases |buf|
      {
        var line, found := ReadString();
        if !found {
          assert buf + line == line;
          buf := buf + line;
          NoLines(buf);
          assert Value().(buf := "") == AfterLines(start.(buf := ""), failing, 0, Lines(start.buf));
          assert buf == Rest(start.buf);
          break;
        }
        NextLine(Value().(buf := ""), failing, k, line, Lines(buf));
        DeliverLine(line, k, failing);
        k := k + 1;
      }
      BufApart(start.(buf := ""), failing, 0, Lines(start.buf), buf);
      assert Value() == AfterLines(start.(buf := ""), failing, 0, Lines(start.buf)).(buf := buf);
    }

    /** All writers go; the unterminated rest of the data stays. */
    method Clean()
      modifies this`streams
      ensures Value() == old(Value()).(streams := map[])
    {
      streams := map[];
    }
  }

  ghost function PairsExcept(streams: Streams, todo: set<string>): set<(string, Writer)> {
    set stream, w | stream in streams && stream != "" && stream !in todo && w in streams[stream] :: (stream, w)
  }

  lemma {:induction false} FirstLine(a: string, b: string)
    requires '\n' !in a
    ensures Lines(a + "\n" + b) == [a + "\n"] + Lines(b) && Rest(a + "\n" + b) == Rest(b)
    decreases |a|
  {
    var data := a + "\n" + b;
    assert data[|a|] == '\n';
    if a == "" {
      assert data[1..] == b && "" + "\n" == "\n";
    } else {
      assert data[1..] == a[1..] + "\n" + b;
      FirstLine(a[1..], b);
      var rest := Lines(b);
      assert ([a[1..] + "\n"] + rest)[1..] == rest;
      assert [a[0]] + (a[1..] + "\n") == a + "\n";
      assert a[0] in a;
    }
  }

  lemma NextLine(s: State, failing: Failing, k: nat, line: string, lines: seq<string>)
    ensures AfterLines(s, failing, k, [line] + lines)
            == AfterLines(After(s, failing, k, line, LinePairs(s.streams)), failing, k + 1, lines)
  {
    assert ([line] + lines)[1..] == lines;
  }

  /** The delivery of lines does not look at the buffer. */
  lemma {:induction false} BufApart(s: State, failing: Failing, k: nat, lines: seq<string>, buf: string)
    ensures AfterLines(s.(buf := buf), failing, k, lines) == AfterLines(s, failing, k, lines).(buf := buf)
    decreases |lines|
  {
    if lines == [] {
    } else {
      BufApart(After(s, failing, k, lines[0], LinePairs(s.streams)), failing, k + 1, lines[1..], buf);
    }
  }

  /** How many of the lines a writer takes: those before the first one it fails on. */
  function Taken(failing: Failing, k: nat, stream: string, w: Writer, count: nat): (n: nat)
    ensures n <= count
    decreases count
  {
    if count == 0 || failing(stream, w, k) then 0 else 1 + Taken(failing, k + 1, stream, w, count - 1)
  }

  predicate Attached(s: State, stream: string, w: Writer) {
    stream in s.streams && w in s.streams[stream]
  }

  /** Detached writers receive nothing. */
  lemma {:induction false} DetachedStays(s: State, failing: Failing, k: nat, lines: seq<string>, stream: string,
                                         w: Writer)
    requires (stream, w) in s.received && (stream == "" || !Attached(s, stream, w))
    ensures var s' := AfterLines(s, failing, k, lines);
            && (stream, w) in s'.received && s'.received[(stream, w)] == s.received[(stream, w)]
            && (Attached(s', stream, w) <==> Attached(s, stream, w))
    decreases |lines|
  {
    if lines == [] {
    } else {
      DetachedStays(After(s, failing, k, lines[0], LinePairs(s.streams)), failing, k + 1, lines[1..], stream, w);
    }
  }

  lemma OneLine(s: State, failing: Failing, k: nat, line: string, stream: string, w: Writer)
    requires Recorded(s) && stream != "" && Attached(s, stream, w)
    ensures var s1 := After(s, failing, k, line, LinePairs(s.streams));
            && Recorded(s1) && (Attached(s1, stream, w) <==> !failing(stream, w, k)) && (stream, w) in s1.received
            && (failing(stream, w, k) ==> s1.received[(stream, w)] == s.received[(stream, w)])
            && (!failing(stream, w, k) ==> s1.received[(stream, w)] == s.received[(stream, w)] + [line])
  {
    AfterIsRecorded(s, failing, k, line, LinePairs(s.streams));
    assert (stream, w) in LinePairs(s.streams);
  }

  lemma TakeMore(received: seq<string>, lines: seq<string>, n: nat)
    requires lines != [] && n < |lines|
    ensures received + [lines[0]] + lines[1..][..n] == received + lines[..n + 1]
    ensures received + lines[..0] == received == received + []
  {
  }

  /** What a writer has after the lines of a call, if it had `before`. */
  ghost predicate HasTaken(s: State, stream: string, w: Writer, before: seq<string>, lines: seq<string>, n: nat)
    requires n <= |lines|
  {
    && (stream, w) in s.received && s.received[(stream, w)] == before + lines[..n]
    && (Attached(s, stream, w) <==> n == |lines|)
  }

  /** A writer of lines gets the lines of a call up to its first failure, and is evicted by that. */
  lemma {:induction false} WriterTakes(s: State, failing: Failing, k: nat, lines: seq<string>, stream: string,
                                       w: Writer)
    requires Recorded(s) && stream != "" && Attached(s, stream, w)
    ensures HasTaken(AfterLines(s, failing, k, lines), stream, w, s.received[(stream, w)], lines,
                     Taken(failing, k, stream, w, |lines|))
    decreases |lines|
  {
    if lines == [] {
      assert s.received[(stream, w)] + [] == s.received[(stream, w)];
    } else {
      var s1 := After(s, failing, k, lines[0], LinePairs(s.streams));
      OneLine(s, failing, k, lines[0], stream, w);
      if failing(stream, w, k) {
        DetachedStays(s1, failing, k + 1, lines[1..], stream, w);
        TakeMore(s.received[(stream, w)], lines, 0);
      } else {
        WriterTakes(s1, failing, k + 1, lines[1..], stream, w);
        TakeMore(s.received[(stream, w)], lines, Taken(failing, k + 1, stream, w, |lines| - 1));
      }
    }
  }

  datatype Op = Write(p: string, failing: Failing) | Add(w: Writer, stream: string) | Clean

  function Apply(s: State, op: Op): State {
    match op
    case Write(p, failing) => AfterWrite(s, failing, p)
    case Add(w, stream) => AfterAdd(s, w, stream)
    case Clean => s.(streams := map[])
  }

  function Run(s: State, ops: seq<Op>): State
    decreases |ops|
  {
    if ops == [] then s else Run(Apply(s, ops[0]), ops[1..])
  }

  /** All bytes written. */
  function Written(ops: seq<Op>): string
    decreases |ops|
  {
    if ops == [] then "" else (if ops[0].Write? then ops[0].p else "") + Written(ops[1..])
  }

  /** All lines handed out, call by call, each call with the buffer left by the one before. */
  function Emitted(buf: string, ops: seq<Op>): seq<string>
    decreases |ops|
  {
    if ops == [] then Lines(buf)
    else if ops[0].Write? then Lines(buf + ops[0].p) + Emitted(Rest(buf + ops[0].p), ops[1..])
    else Emitted(buf, ops[1..])
  }

  lemma {:induction false} LinesKeepBuf(s: State, failing: Failing, k: nat, lines: seq<string>)
    ensures AfterLines(s, failing, k, lines).buf == s.buf
    ensures Recorded(s) ==> Recorded(AfterLines(s, failing, k, lines))
    decreases |lines|
  {
    if lines == [] {
    } else {
      var s1 := After(s, failing, k, lines[0], LinePairs(s.streams));
      if Recorded(s) {
        AfterIsRecorded(s, failing, k, lines[0], LinePairs(s.streams));
      }
      LinesKeepBuf(s1, failing, k + 1, lines[1..]);
    }
  }

  lemma RestOfRest(buf: string)
    requires '\n' !in buf
    ensures Rest(buf) == buf && Lines(buf) == []
  {
    NoLines(buf);
  }

  lemma WriteKeeps(s: State, failing: Failing, p: string)
    ensures AfterWrite(s, failing, p).buf == Rest(s.buf + p)
    ensures Recorded(s) ==> Recorded(AfterWrite(s, failing, p))
  {
    var s1 := After(s, failing, 0, p, PairsOf(s.streams, "")).(buf := Rest(s.buf + p));
    if Recorded(s) {
      AfterIsRecorded(s, failing, 0, p, PairsOf(s.streams, ""));
      assert Recorded(s1);
    }
    LinesKeepBuf(s1, failing, 0, Lines(s.buf + p));
  }

  /** The first call and the others, as one piece of data or as two. */
  lemma CutWritten(buf: string, ops: seq<Op>)
    requires '\n' !in buf && ops != []
    ensures ops[0].Write? ==>
              var first, more := buf + ops[0].p, Written(ops[1..]);
              && Lines(buf + Written(ops)) == Lines(first) + Lines(Rest(first) + more)
              && Rest(buf + Written(ops)) == Rest(Rest(first) + more) && '\n' !in Rest(first)
    ensures !ops[0].Write? ==> Written(ops) == Written(ops[1..])
  {
    if ops[0].Write? {
      var first, more := buf + ops[0].p, Written(ops[1..]);
      assert buf + (ops[0].p + more) == first + more;
      CutInTwo(first, more);
      LinesAndRest(first);
    } else {
      assert "" + Written(ops[1..]) == Written(ops[1..]);
    }
  }

  lemma {:induction false} BufferIsRest(s: State, ops: seq<Op>)
    requires '\n' !in s.buf
    ensures Run(s, ops).buf == Rest(s.buf + Written(ops))
    decreases |ops|
  {
    if ops == [] {
      assert s.buf + "" == s.buf;
    } else {
      CutWritten(s.buf, ops);
      if ops[0].Write? {
        WriteKeeps(s, ops[0].failing, ops[0].p);
      }
      BufferIsRest(Apply(s, ops[0]), ops[1..]);
    }
  }

  lemma {:induction false} EmittedAreLines(buf: string, ops: seq<Op>)
    requires '\n' !in buf
    ensures Emitted(buf, ops) == Lines(buf + Written(ops))
    decreases |ops|
  {
    if ops == [] {
      assert buf + "" == buf;
    } else {
      CutWritten(buf, ops);
      EmittedAreLines(if ops[0].Write? then Rest(buf + ops[0].p) else buf, ops[1..]);
    }
  }

  /** However the bytes are cut into calls, whoever is added, evicted or cleaned away in between: the lines
      handed out are those of all the bytes, and the buffer holds what follows the last newline. */
  lemma ChunkingDoesNotMatter(s: State, ops: seq<Op>)
    requires '\n' !in s.buf
    ensures Run(s, ops).buf == Rest(s.buf + Written(ops)) && Emitted(s.buf, ops) == Lines(s.buf + Written(ops))
    ensures Concat(Emitted(s.buf, ops)) + Run(s, ops).buf == s.buf + Written(ops) && '\n' !in Run(s, ops).buf
  {
    BufferIsRest(s, ops);
    EmittedAreLines(s.buf, ops);
    LinesAndRest(s.buf + Written(ops));
  }

  /** The writer fails on no line of these calls, and is not cleaned away. */
  predicate Steady(buf: string, ops: seq<Op>, stream: string, w: Writer)
    decreases |ops|
  {
    ops != [] ==>
      && ops[0] != Clean
      && (ops[0].Write? ==> Taken(ops[0].failing, 0, stream, w, |Lines(buf + ops[0].p)|) == |Lines(buf + ops[0].p)|)
      && Steady(if ops[0].Write? then Rest(buf + ops[0].p) else buf, ops[1..], stream, w)
  }

  lemma SteadyWrite(s: State, failing: Failing, p: string, stream: string, w: Writer)
    requires Recorded(s) && stream != "" && Attached(s, stream, w)
    requires Taken(failing, 0, stream, w, |Lines(s.buf + p)|) == |Lines(s.buf + p)|
    ensures var s' := AfterWrite(s, failing, p);
            && Attached(s', stream, w) && (stream, w) in s'.received
            && s'.received[(stream, w)] == s.received[(stream, w)] + Lines(s.buf + p)
  {
    var s1 := After(s, failing, 0, p, PairsOf(s.streams, "")).(buf := Rest(s.buf + p));
    AfterIsRecorded(s, failing, 0, p, PairsOf(s.streams, ""));
    assert Recorded(s1) && Attached(s1, stream, w) && s1.received[(stream, w)] == s.received[(stream, w)];
    WriterTakes(s1, failing, 0, Lines(s.buf + p), stream, w);
    assert Lines(s.buf + p)[..|Lines(s.buf + p)|] == Lines(s.buf + p);
  }

  /** A steady writer receives exactly the lines of the bytes written while it was attached, the first one
      with what was left over from before. */
  lemma {:induction false} SteadyWriterGetsLines(s: State, ops: seq<Op>, stream: string, w: Writer)
    requires Recorded(s) && '\n' !in s.buf && stream != "" && Attached(s, stream, w) && Steady(s.buf, ops, stream, w)
    ensures var s' := Run(s, ops);
            && Attached(s', stream, w) && (stream, w) in s'.received
            && s'.received[(stream, w)] == s.received[(stream, w)] + Lines(s.buf + Written(ops))
    decreases |ops|
  {
    if ops == [] {
      assert s.buf + "" == s.buf;
      RestOfRest(s.buf);
      assert s.received[(stream, w)] + [] == s.received[(stream, w)];
    } else {
      CutWritten(s.buf, ops);
      if ops[0].Write? {
        var first := s.buf + ops[0].p;
        WriteKeeps(s, ops[0].failing, ops[0].p);
        SteadyWrite(s, ops[0].failing, ops[0].p, stream, w);
        Regroup(s.received[(stream, w)], Lines(first), Lines(Rest(first) + Written(ops[1..])));
      }
      SteadyWriterGetsLines(Apply(s, ops[0]), ops[1..], stream, w);
    }
  }
  // ---------------------------------------------------------------- writers that fail, and raw writers

  /** The writer is not added again. */
  ghost predicate NotAdded(ops: seq<Op>, stream: string, w: Writer) {
    Add(w, stream) !in ops
  }

  /** How many of the lines handed out it takes: those before its first failure, or before it is cleaned away. */
  function TakenInRun(buf: string, ops: seq<Op>, stream: string, w: Writer): nat
    decreases |ops|
  {
    if ops == [] || ops[0].Clean? then 0
    else if ops[0].Add? then TakenInRun(buf, ops[1..], stream, w)
    else
      var count := |Lines(buf + ops[0].p)|;
      var n := Taken(ops[0].failing, 0, stream, w, count);
      if n < count then n else count + TakenInRun(Rest(buf + ops[0].p), ops[1..], stream, w)
  }

  lemma DetachedStep(s: State, op: Op, stream: string, w: Writer)
    requires (stream, w) in s.received && !Attached(s, stream, w) && op != Add(w, stream)
    ensures var s' := Apply(s, op);
            (stream, w) in s'.received && s'.received[(stream, w)] == s.received[(stream, w)] && !Attached(s', stream, w)
  {
    if op.Write? {
      var s1 := After(s, op.failing, 0, op.p, PairsOf(s.streams, "")).(buf := Rest(s.buf + op.p));
      DetachedStays(s1, op.failing, 0, Lines(s.buf + op.p), stream, w);
    }
  }

  lemma {:induction false} DetachedRun(s: State, ops: seq<Op>, stream: string, w: Writer)
    requires (stream, w) in s.received && !Attached(s, stream, w) && NotAdded(ops, stream, w)
    ensures var s' := Run(s, ops);
            (stream, w) in s'.received && s'.received[(stream, w)] == s.received[(stream, w)] && !Attached(s', stream, w)
    decreases |ops|
  {
    if ops == [] {
    } else {
      assert ops[0] in ops;
      DetachedStep(s, ops[0], stream, w);
      DetachedRun(Apply(s, ops[0]), ops[1..], stream, w);
    }
  }

  /** What one call leaves a writer of lines. */
  lemma CallTakes(s: State, failing: Failing, p: string, stream: string, w: Writer)
    requires Recorded(s) && stream != "" && Attached(s, stream, w)
    ensures var lines := Lines(s.buf + p);
            HasTaken(AfterWrite(s, failing, p), stream, w, s.received[(stream, w)], lines,
                     Taken(failing, 0, stream, w, |lines|))
  {
    var s1 := After(s, failing, 0, p, PairsOf(s.streams, "")).(buf := Rest(s.buf + p));
    AfterIsRecorded(s, failing, 0, p, PairsOf(s.streams, ""));
    assert Recorded(s1) && Attached(s1, stream, w) && s1.received[(stream, w)] == s.received[(stream, w)];
    WriterTakes(s1, failing, 0, Lines(s.buf + p), stream, w);
  }

  lemma TakeAcross(before: seq<string>, a: seq<string>, b: seq<string>, n: nat)
    requires n <= |a| + |b|
    ensures before + (a + b)[..n] == if n <= |a| then before + a[..n] else before + a + b[..n - |a|]
    ensures n == |a| ==> before + (a + b)[..n] == before + a
  {
  }

  /** Whatever fails and when: in every run a writer of lines receives a prefix of the lines of the bytes written,
      up to its first failure, and is attached at the end exactly if it was steady. */
  lemma {:induction false} WriterGetsPrefix(s: State, ops: seq<Op>, stream: string, w: Writer)
    requires Recorded(s) && '\n' !in s.buf && stream != "" && Attached(s, stream, w) && NotAdded(ops, stream, w)
    ensures var s', lines := Run(s, ops), Lines(s.buf + Written(ops));
            var n := TakenInRun(s.buf, ops, stream, w);
            && (stream, w) in s'.received && n <= |lines|
            && s'.received[(stream, w)] == s.received[(stream, w)] + lines[..n]
            && (Attached(s', stream, w) <==> Steady(s.buf, ops, stream, w))
    decreases |ops|
  {
    var before := s.received[(stream, w)];
    if ops == [] {
      assert s.buf + "" == s.buf;
      RestOfRest(s.buf);
      assert before + [] == before;
    } else {
      assert ops[0] in ops;
      CutWritten(s.buf, ops);
      var s1 := Apply(s, ops[0]);
      match ops[0]
      case Clean =>
        DetachedRun(s1, ops[1..], stream, w);
        assert before + Lines(s.buf + Written(ops))[..0] == before;
      case Add(_, _) =>
        WriterGetsPrefix(s1, ops[1..], stream, w);
      case Write(p, failing) =>
        var count := |Lines(s.buf + p)|;
        WriteKeeps(s, failing, p);
        if Taken(failing, 0, stream, w, count) < count {
          CallTakes(s, failing, p, stream, w);
          DetachedRun(s1, ops[1..], stream, w);
        } else {
          SteadyWrite(s, failing, p, stream, w);
          WriterGetsPrefix(s1, ops[1..], stream, w);
        }
        var more := Lines(Rest(s.buf + p) + Written(ops[1..]));
        TakeAcross(before, Lines(s.buf + p), more, TakenInRun(s.buf, ops, stream, w));
    }
  }

  /** The payloads of the calls, one after the other. */
  function Payloads(ops: seq<Op>): seq<string>
    decreases |ops|
  {
    if ops == [] then [] else (if ops[0].Write? then [ops[0].p] else []) + Payloads(ops[1..])
  }

  lemma {:induction false} PayloadsAreBytes(ops: seq<Op>)
    ensures Concat(Payloads(ops)) == Written(ops)
    decreases |ops|
  {
    if ops == [] {
    } else {
      PayloadsAreBytes(ops[1..]);
      if ops[0].Write? {
        assert ([ops[0].p] + Payloads(ops[1..]))[1..] == Payloads(ops[1..]);
      } else {
        assert [] + Payloads(ops[1..]) == Payloads(ops[1..]);
      }
    }
  }

  /** How many payloads a raw writer takes: those before its first failure, or before it is cleaned away. */
  function RawTaken(ops: seq<Op>, w: Writer): (n: nat)
    ensures n <= |Payloads(ops)|
    decreases |ops|
  {
    if ops == [] || ops[0].Clean? || (ops[0].Write? && ops[0].failing("", w, 0)) then 0
    else (if ops[0].Write? then 1 else 0) + RawTaken(ops[1..], w)
  }

  /** It never fails, and is not cleaned away. */
  ghost predicate RawSteady(ops: seq<Op>, w: Writer) {
    forall op :: op in ops ==> op != Clean && (op.Write? ==> !op.failing("", w, 0))
  }

  lemma RawCall(s: State, failing: Failing, p: string, w: Writer)
    requires Recorded(s) && Attached(s, "", w)
    ensures var s', before := AfterWrite(s, failing, p), s.received[("", w)];
            && ("", w) in s'.received && (Attached(s', "", w) <==> !failing("", w, 0))
            && s'.received[("", w)] == if failing("", w, 0) then before else before + [p]
  {
    var s1 := After(s, failing, 0, p, PairsOf(s.streams, "")).(buf := Rest(s.buf + p));
    assert ("", w) in PairsOf(s.streams, "");
    DetachedStays(s1, failing, 0, Lines(s.buf + p), "", w);
  }

  lemma {:induction false} RawPrefix(s: State, ops: seq<Op>, w: Writer)
    requires Recorded(s) && Attached(s, "", w) && NotAdded(ops, "", w)
    ensures var s', n := Run(s, ops), RawTaken(ops, w);
            && ("", w) in s'.received && n <= |Payloads(ops)|
            && s'.received[("", w)] == s.received[("", w)] + Payloads(ops)[..n]
            && (Attached(s', "", w) <==> RawSteady(ops, w))
            && (RawSteady(ops, w) ==> n == |Payloads(ops)|)
    decreases |ops|
  {
    var before := s.received[("", w)];
    if ops == [] {
      assert before + [] == before;
    } else {
      var s1, rest := Apply(s, ops[0]), ops[1..];
      assert ops[0] in ops && ops == [ops[0]] + rest;
      assert RawSteady(ops, w) <==>
               ops[0] != Clean && (ops[0].Write? ==> !ops[0].failing("", w, 0)) && RawSteady(rest, w);
      if ops[0].Write? {
        RawCall(s, ops[0].failing, ops[0].p, w);
        WriteKeeps(s, ops[0].failing, ops[0].p);
      }
      if Attached(s1, "", w) {
        RawPrefix(s1, rest, w);
        if ops[0].Write? {
          TakeAcross(before, [ops[0].p], Payloads(rest), RawTaken(ops, w));
        } else {
          assert [] + Payloads(rest) == Payloads(rest);
        }
      } else {
        DetachedRun(s1, rest, "", w);
        assert before + Payloads(ops)[..0] == before;
      }
    }
  }

  /** In every run a raw writer receives the bytes of the calls before its first failure, each call in one piece;
      if it never fails, that is all of them. */
  lemma RawWriterGetsBytes(s: State, ops: seq<Op>, w: Writer)
    requires Recorded(s) && Attached(s, "", w) && NotAdded(ops, "", w)
    ensures var s', before := Run(s, ops), s.received[("", w)];
            && ("", w) in s'.received && s'.received[("", w)] == before + Payloads(ops)[..RawTaken(ops, w)]
            && (Attached(s', "", w) <==> RawSteady(ops, w))
            && (RawSteady(ops, w) ==>
                  s'.received[("", w)] == before + Payloads(ops) && Concat(Payloads(ops)) == Written(ops))
  {
    RawPrefix(s, ops, w);
    PayloadsAreBytes(ops);
    assert Payloads(ops)[..|Payloads(ops)|] == Payloads(ops);
  }
}
