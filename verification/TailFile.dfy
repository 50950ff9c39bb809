/** The last lines of a file, read backwards in blocks (`pkg/tailfile/tailfile.go`). */
module TailFile {
  import opened Wrappers

  const BLOCK_SIZE := 1024

  /** How many lines end in the data. */
  function CountEol(data: string): nat {
    if data == "" then 0 else (if data[0] == '\n' then 1 else 0) + CountEol(data[1..])
  }

  /** One more character in front. */
  function Push(c: char, parts: seq<string>): (more: seq<string>)
    requires parts != []
    ensures |more| == |parts| + (if c == '\n' then 1 else 0)
  {
    if c == '\n' then [""] + parts else [[c] + parts[0]] + parts[1..]
  }

  /** The data cut at every newline; what follows the last one comes last, even if it is empty. */
  function Split(data: string): (parts: seq<string>)
    ensures |parts| == CountEol(data) + 1
  {
    if data == "" then [""] else Push(data[0], Split(data[1..]))
  }

  /** The terminated lines. */
  function Lines(data: string): (lines: seq<string>)
    ensures |lines| == CountEol(data)
  {
    Split(data)[..CountEol(data)]
  }

  function Last(lines: seq<string>, n: nat): seq<string> {
    if n < |lines| then lines[|lines| - n..] else lines
  }

  /** The parts with a newline between any two. */
  function Glue(parts: seq<string>): string
    requires parts != []
  {
    if |parts| == 1 then parts[0] else parts[0] + "\n" + Glue(parts[1..])
  }

  lemma GluePush(c: char, parts: seq<string>)
    requires parts != []
    ensures Glue(Push(c, parts)) == [c] + Glue(parts)
  {
    if c == '\n' {
      assert ([""] + parts)[1..] == parts;
      assert "" + "\n" + Glue(parts) == "\n" + Glue(parts);
    } else {
      var more := [[c] + parts[0]] + parts[1..];
      assert more[1..] == parts[1..];
      if |parts| > 1 {
        assert [c] + parts[0] + "\n" + Glue(parts[1..]) == [c] + (parts[0] + "\n" + Glue(parts[1..]));
      }
    }
  }

  ghost predicate NoEolIn(parts: seq<string>) {
    forall i :: 0 <= i < |parts| ==> '\n' !in parts[i]
  }

  /** The parts have no newline, and glued together they are the data. */
  lemma {:induction false} SplitThenGlue(data: string)
    ensures NoEolIn(Split(data)) && Glue(Split(data)) == data
    decreases |data|
  {
    if data == "" {
    } else {
      SplitThenGlue(data[1..]);
      GluePush(data[0], Split(data[1..]));
      assert data == [data[0]] + data[1..];
    }
  }

  /** And no other parts are: a file has one reading as lines. */
  lemma {:induction false} GlueThenSplit(parts: seq<string>)
    requires parts != [] && NoEolIn(parts)
    ensures Split(Glue(parts)) == parts
    decreases |parts|, |parts[0]|
  {
    if parts[0] != "" {
      var c := parts[0][0];
      var less := [parts[0][1..]] + parts[1..];
      assert c in parts[0] && forall x :: x in parts[0][1..] ==> x in parts[0];
      assert [c] + parts[0][1..] == parts[0] && less[1..] == parts[1..];
      assert Push(c, less) == parts;
      GluePush(c, less);
      assert ([c] + Glue(less))[1..] == Glue(less);
      GlueThenSplit(less);
    } else if |parts| > 1 {
      GlueThenSplit(parts[1..]);
      assert Glue(parts) == "\n" + Glue(parts[1..]);
      assert ("\n" + Glue(parts[1..]))[1..] == Glue(parts[1..]);
      assert Push('\n', parts[1..]) == parts;
    }
  }

  lemma {:induction false} CountConcat(a: string, b: string)
    ensures CountEol(a + b) == CountEol(a) + CountEol(b)
    decreases |a|
  {
    if a == "" {
      assert a + b == b;
    } else {
      assert (a + b)[1..] == a[1..] + b;
      CountConcat(a[1..], b);
    }
  }

  /** From its second element on, `v` is the end of `u`. */
  ghost predicate EndsLike(u: seq<string>, v: seq<string>, k: nat) {
    |u| == k + |v| && forall i :: 1 <= i < |v| ==> SameAt(u, v, k, i)
  }

  ghost predicate SameAt(u: seq<string>, v: seq<string>, k: nat, i: nat)
    requires |u| == k + |v| && i < |v|
  {
    u[k + i] == v[i]
  }

  lemma PushEndsLike(c: char, u: seq<string>, v: seq<string>, k: nat)
    requires u != [] && EndsLike(u, v, k)
    ensures EndsLike(Push(c, u), v, k + (if c == '\n' then 1 else 0))
  {
    var k' := k + (if c == '\n' then 1 else 0);
    forall i | 1 <= i < |v|
      ensures SameAt(Push(c, u), v, k', i)
    {
      assert SameAt(u, v, k, i);
    }
  }

  /** Reading more data in front leaves the last lines as they are: only the first part may grow. */
  lemma {:induction false} SplitEndsLike(a: string, b: string)
    ensures EndsLike(Split(a + b), Split(b), CountEol(a))
    decreases |a|
  {
    if a == "" {
      assert a + b == b;
    } else {
      assert (a + b)[1..] == a[1..] + b;
      SplitEndsLike(a[1..], b);
      PushEndsLike(a[0], Split(a[1..] + b), Split(b), CountEol(a[1..]));
    }
  }

  lemma LastShared(u: seq<string>, v: seq<string>, k: nat, n: nat)
    requires n + 1 < |v| && EndsLike(u, v, k)
    ensures Last(u[..|u| - 1], n) == Last(v[..|v| - 1], n)
  {
    var x, y := Last(u[..|u| - 1], n), Last(v[..|v| - 1], n);
    forall i | 0 <= i < n
      ensures x[i] == y[i]
    {
      assert SameAt(u, v, k, |v| - 1 - n + i);
    }
  }

  lemma LinesOf(data: string)
    ensures |Split(data)| > 0 && Lines(data) == Split(data)[..|Split(data)| - 1]
  {
  }

  lemma LastOfLike(whole: string, end: string, k: nat, n: nat)
    requires n + 1 < |Split(end)| && EndsLike(Split(whole), Split(end), k)
    ensures Last(Lines(whole), n) == Last(Lines(end), n)
  {
    LinesOf(whole);
    LinesOf(end);
    LastShared(Split(whole), Split(end), k, n);
  }

  /** More than `n` newlines are enough: the last `n` lines of the end are those of the whole. */
  lemma LastOfEnd(a: string, b: string, n: nat)
    requires CountEol(b) > n
    ensures Last(Lines(a + b), n) == Last(Lines(b), n)
  {
    SplitEndsLike(a, b);
    LastOfLike(a + b, b, CountEol(a), n);
  }

  class File {
    const content: string
    var offset: nat

    constructor (content: string)
      ensures this.content == content && offset == 0
    {
      this.content, offset := content, 0;
    }

    /** Seeking to before the start fails. */
    method Seek(from: int) returns (ok: bool)
      modifies this
      ensures ok <==> from >= 0
      ensures offset == if ok then from else old(offset)
    {
      if from < 0 {
        return false;
      }
      offset := from;
      return true;
    }

    /** A full read: as much as the buffer holds, or all that is left. */
    method Read(size: nat) returns (data: string)
      modifies this
      ensures offset == old(offset) + |data|
      ensures |data| == if old(offset) + size <= |content| then size
                        else if old(offset) <= |content| then |content| - old(offset)
                        else 0
      ensures old(offset) <= |content| ==> data == content[old(offset)..old(offset) + |data|]
    {
      if offset > |content| {
        data := "";
      } else if offset + size <= |content| {
        data := content[offset..offset + size];
      } else {
        data := content[offset..];
      }
      offset := offset + |data|;
    }
  }

  method Count(b: string) returns (cnt: nat)
    ensures cnt == CountEol(b)
  {
    cnt := 0;
    assert b[..|b|] == b;
    for i := 0 to |b|
      invariant cnt == CountEol(b[..i])
    {
      assert b[..i + 1] == b[..i] + [b[i]];
      CountConcat(b[..i], [b[i]]);
      if b[i] == '\n' {
        cnt := cnt + 1;
      }
    }
  }

  /** The end of the file from `from` on, when more of it is read in front. */
  lemma Grows(content: string, from: nat, size: nat)
    requires size <= from <= |content|
    ensures content[from - size..from] + content[from..] == content[from - size..]
    ensures content == content[..from - size] + content[from - size..]
    ensures CountEol(content[from - size..]) == CountEol(content[from - size..from]) + CountEol(content[from..])
  {
    CountConcat(content[from - size..from], content[from..]);
    assert content[from - size..from] + content[from..] == content[from - size..];
  }

  /** `TailFile`: for every file and every positive number, exactly the last lines, wherever the
      boundaries of the blocks fall. An unterminated last line is left out. */
  method Tail(f: File, n: int) returns (lines: Option<seq<string>>)
    modifies f
    ensures lines == if n <= 0 then None else Some(Last(Lines(f.content), n))
  {
    if n <= 0 {
      return None;
    }
    var size := |f.content|;
    var block: int := -1;
    var data := "";
    var cnt := 0;
    ghost var from := size;
    assert f.content[size..] == "";
    while true
      invariant block <= -1 && from == size + (block + 1) * BLOCK_SIZE && from >= 0
      invariant data == f.content[from..] && cnt == CountEol(data) && cnt <= n
      decreases from
    {
      var step := block * BLOCK_SIZE;
      var left := size + step;
      if left < 0 {
        var _ := f.Seek(0);
        var b := f.Read(BLOCK_SIZE + left);
        assert b == f.content[0..from];
        data := b + data;
        Grows(f.content, from, from);
        assert f.content[0..] == f.content;
        assert data == f.content;
        break;
      } else {
        var _ := f.Seek(left);
        var b := f.Read(BLOCK_SIZE);
        assert b == f.content[left..from];
        Grows(f.content, from, BLOCK_SIZE);
        data := b + data;
        from := left;
        var more := Count(b);
        cnt := cnt + more;
      }
      if cnt > n {
        LastOfEnd(f.content[..from], data, n);
        break;
      }
      block := block - 1;
    }
    var last := LastLines(data, n);
    return Some(last);
  }

  method LastLines(data: string, n: nat) returns (last: seq<string>)
    ensures last == Last(Lines(data), n)
  {
    var lines := Split(data);
    LinesOf(data);
    if n < |lines| {
      return lines[|lines| - n - 1..|lines| - 1];
    }
    return lines[..|lines| - 1];
  }

  /** An unterminated last line never appears, whatever is asked for. */
  lemma DropsUnterminated(data: string, rest: string, n: nat)
    requires '\n' !in rest && (data == "" || data[|data| - 1] == '\n')
    ensures Last(Lines(data + rest), n) == Last(Lines(data), n)
  {
    SplitBack(data, rest);
  }

  lemma PushFront(c: char, parts: seq<string>, more: seq<string>, k: nat)
    requires k < |parts| && k < |more| && parts[..k] == more[..k] && (c == '\n' || k > 0)
    ensures var k' := k + (if c == '\n' then 1 else 0); Push(c, parts)[..k'] == Push(c, more)[..k']
  {
    if c == '\n' {
      assert Push(c, parts)[..k + 1] == [""] + parts[..k];
      assert Push(c, more)[..k + 1] == [""] + more[..k];
    } else {
      assert Push(c, parts)[..k] == [[c] + parts[..k][0]] + parts[..k][1..];
      assert Push(c, more)[..k] == [[c] + more[..k][0]] + more[..k][1..];
    }
  }

  lemma {:induction false} SplitBack(data: string, rest: string)
    requires '\n' !in rest && (data == "" || data[|data| - 1] == '\n')
    ensures Lines(data + rest) == Lines(data)
    decreases |data|
  {
    if data == "" {
      assert data + rest == rest;
      NoEol(rest);
    } else {
      assert (data + rest)[1..] == data[1..] + rest;
      if |data| > 1 {
        assert data[1..][|data| - 2] == data[|data| - 1];
        TerminatedHasEol(data[1..]);
      }
      SplitBack(data[1..], rest);
      PushFront(data[0], Split(data[1..]), Split(data[1..] + rest), CountEol(data[1..]));
    }
  }

  lemma {:induction false} NoEol(s: string)
    requires '\n' !in s
    ensures CountEol(s) == 0
  {
    if s == "" {
    } else {
      assert s[0] in s && forall c :: c in s[1..] ==> c in s;
      NoEol(s[1..]);
    }
  }

  lemma {:induction false} TerminatedHasEol(s: string)
    requires s != "" && s[|s| - 1] == '\n'
    ensures CountEol(s) > 0
  {
    if |s| <= 1 {
    } else {
      assert s[1..][|s| - 2] == s[|s| - 1];
      TerminatedHasEol(s[1..]);
    }
  }
}
