/** Quoting words for a shell (`utils/utils.go`), against the rules by which a shell reads them back. */
module ShellQuote {
  import opened Sequences
  import opened Wrappers

  /** The characters that make `quote` use quotes. */
  predicate IsSpecial(c: char) {
    || c == '\\' || c == '\'' || c == '"' || c == '`' || c == '$' || c == '{' || c == '[' || c == '|' || c == '&'
    || c == ';'
    || c == '<' || c == '>' || c == '(' || c == ')' || c == '~' || c == '*' || c == '?' || c == '!'
    || c == ' ' || c == '\t' || c == '\n'
  }

  predicate IsSimple(word: string) {
    word != "" && forall i :: 0 <= i < |word| ==> !IsSpecial(word[i])
  }

  function Escaped(word: string): string {
    if word == "" then "" else (if word[0] == '\'' then "'\\''" else [word[0]]) + Escaped(word[1..])
  }

  function Quoted(word: string): string {
    if IsSimple(word) then word else "'" + Escaped(word) + "'"
  }

  function Line(args: seq<string>): string {
    if args == [] then "" else if |args| == 1 then Quoted(args[0]) else Quoted(args[0]) + " " + Line(args[1..])
  }

  class Buffer {
    var contents: string

    constructor ()
      ensures contents == ""
    {
      contents := "";
    }

    method WriteString(s: string)
      modifies this
      ensures contents == old(contents) + s
    {
      contents := contents + s;
    }
  }

  method ContainsSpecial(word: string) returns (found: bool)
    ensures found <==> exists i :: 0 <= i < |word| && IsSpecial(word[i])
  {
    for i := 0 to |word|
      invariant forall j :: 0 <= j < i ==> !IsSpecial(word[j])
    {
      if IsSpecial(word[i]) {
        return true;
      }
    }
    return false;
  }

  /** `quote`: the word as it is if it is simple, otherwise between single quotes. */
  method Quote(word: string, buf: Buffer)
    modifies buf
    ensures buf.contents == old(buf.contents) + Quoted(word)
  {
    if word != "" {
      var special := ContainsSpecial(word);
      if !special {
        buf.WriteString(word);
        return;
      }
    }
    buf.WriteString("'");
    ghost var start := buf.contents;
    assert word[0..] == word;
    for i := 0 to |word|
      invariant buf.contents + Escaped(word[i..]) == start + Escaped(word)
    {
      var b := word[i];
      assert word[i..][0] == b && word[i..][1..] == word[i + 1..];
      Regroup(buf.contents, if b == '\'' then "'\\''" else [b], Escaped(word[i + 1..]));
      if b == '\'' {
        buf.WriteString("'\\''");
      } else {
        buf.WriteString([b]);
      }
    }
    assert buf.contents == start + Escaped(word);
    buf.WriteString("'");
    assert buf.contents == old(buf.contents) + ("'" + Escaped(word) + "'");
  }

  lemma {:induction false} LineMore(args: seq<string>, arg: string)
    ensures Line(args + [arg]) == Line(args) + (if args == [] then "" else " ") + Quoted(arg)
  {
    if args == [] {
      assert [] + [arg] == [arg];
    } else {
      assert (args + [arg])[1..] == args[1..] + [arg];
      LineMore(args[1..], arg);
      if |args| == 1 {
        assert args[1..] + [arg] == [arg];
      }
    }
  }

  lemma LineNext(args: seq<string>, i: nat)
    requires i < |args|
    ensures Line(args[..i + 1]) == Line(args[..i]) + ((if i != 0 then " " else "") + Quoted(args[i]))
  {
    assert args[..i + 1] == args[..i] + [args[i]];
    LineMore(args[..i], args[i]);
    Regroup(Line(args[..i]), if i != 0 then " " else "", Quoted(args[i]));
  }

  method AppendWord(separate: bool, arg: string, buf: Buffer)
    modifies buf
    ensures buf.contents == old(buf.contents) + ((if separate then " " else "") + Quoted(arg))
  {
    if separate {
      buf.WriteString(" ");
    }
    Quote(arg, buf);
  }

  method ShellQuoteArguments(args: seq<string>) returns (line: string)
    ensures line == Line(args)
  {
    var buf := new Buffer();
    for i := 0 to |args|
      invariant buf.contents == Line(args[..i])
      modifies buf
    {
      LineNext(args, i);
      AppendWord(i != 0, args[i], buf);
    }
    assert args[..|args|] == args;
    return buf.contents;
  }

  datatype Mode = Plain | Single | Double

  predicate Expands(c: char) {
    c == '$' || c == '`' || c == '*' || c == '?' || c == '[' || c == '~'
  }

  predicate Operates(c: char) {
    c == '|' || c == '&' || c == ';' || c == '<' || c == '>' || c == '(' || c == ')' || c == '\n'
  }

  predicate IsBlank(c: char) {
    c == ' ' || c == '\t'
  }

  /** The characters that a backslash escapes between double quotes. */
  predicate EscapedInDouble(c: char) {
    c == '$' || c == '`' || c == '"' || c == '\\'
  }

  /** The words of a line, read by sections 2.2 and 2.3 of the POSIX.1-2017 Shell Command Language. None
      if there is more to the line than words: an operator, an expansion, or a quote left open. `word` is
      the word begun, if any. */
  function Scan(s: string, word: Option<string>, mode: Mode): Option<seq<string>>
    decreases |s|
  {
    var w := if word.Some? then word.value else "";
    if s == "" then
      if mode != Plain then None else Some(if word.Some? then [w] else [])
    else if mode == Single then
      if s[0] == '\'' then Scan(s[1..], Some(w), Plain) else Scan(s[1..], Some(w + [s[0]]), Single)
    else if mode == Double then
      if s[0] == '"' then Scan(s[1..], Some(w), Plain)
      else if s[0] == '$' || s[0] == '`' then None
      else if s[0] == '\\' && |s| > 1 && s[1] == '\n' then Scan(s[2..], Some(w), Double)
      else if s[0] == '\\' && |s| > 1 && EscapedInDouble(s[1]) then Scan(s[2..], Some(w + [s[1]]), Double)
      else Scan(s[1..], Some(w + [s[0]]), Double)
    else if s[0] == '\'' then Scan(s[1..], Some(w), Single)
    else if s[0] == '"' then Scan(s[1..], Some(w), Double)
    else if s[0] == '\\' then
      if |s| == 1 then None
      else if s[1] == '\n' then Scan(s[2..], word, Plain)
      else Scan(s[2..], Some(w + [s[1]]), Plain)
    else if IsBlank(s[0]) then Prepend(word, Scan(s[1..], None, Plain))
    else if s[0] == '#' && word == None then
      if '\n' in s then None else Some([])
    else if Expands(s[0]) || Operates(s[0]) then None
    else Scan(s[1..], Some(w + [s[0]]), Plain)
  }

  function Prepend(word: Option<string>, words: Option<seq<string>>): Option<seq<string>> {
    if word == None || words == None then words else Some([word.value] + words.value)
  }

  function Words(line: string): Option<seq<string>> {
    Scan(line, None, Plain)
  }

  /** A simple word that would be read as a comment. */
  predicate ReadsAsComment(word: string) {
    IsSimple(word) && word[0] == '#'
  }

  lemma {:induction false} ScanSimple(word: string, rest: string, begun: string)
    requires forall i :: 0 <= i < |word| ==> !IsSpecial(word[i])
    ensures Scan(word + rest, Some(begun), Plain) == Scan(rest, Some(begun + word), Plain)
    decreases |word|
  {
    if word == "" {
      assert word + rest == rest && begun + word == begun;
    } else {
      var c := word[0];
      assert (word + rest)[1..] == word[1..] + rest;
      ScanSimple(word[1..], rest, begun + [c]);
      assert begun + [c] + word[1..] == begun + word;
    }
  }

  lemma {:induction false} ScanEscaped(word: string, rest: string, begun: string)
    ensures Scan(Escaped(word) + "'" + rest, Some(begun), Single) == Scan(rest, Some(begun + word), Plain)
    decreases |word|
  {
    if word == "" {
      assert (Escaped(word) + "'" + rest)[1..] == rest && begun + word == begun;
    } else {
      var tail := Escaped(word[1..]) + "'" + rest;
      assert begun + [word[0]] + word[1..] == begun + word;
      ScanEscaped(word[1..], rest, begun + [word[0]]);
      if word[0] == '\'' {
        assert Escaped(word) + "'" + rest == "'\\''" + tail;
        ScanEscapedQuote(tail, begun);
      } else {
        assert Escaped(word) + "'" + rest == [word[0]] + tail;
        assert ([word[0]] + tail)[1..] == tail;
      }
    }
  }

  /** Out of the quotes, a quote, and in again. */
  lemma ScanEscapedQuote(tail: string, begun: string)
    ensures Scan("'\\''" + tail, Some(begun), Single) == Scan(tail, Some(begun + ['\'']), Single)
  {
    var s := "'\\''" + tail;
    assert Scan(s, Some(begun), Single) == Scan(s[1..], Some(begun), Plain);
    assert s[1..][0] == '\\' && s[1..][1] == '\'' && s[1..][2..] == ['\''] + tail;
    assert Scan(s[1..], Some(begun), Plain) == Scan(['\''] + tail, Some(begun + ['\'']), Plain);
    assert (['\''] + tail)[1..] == tail;
  }

  lemma ScanOpen(rest: string)
    ensures Scan("'" + rest, None, Plain) == Scan(rest, Some(""), Single)
  {
    assert ("'" + rest)[1..] == rest;
  }

  lemma ScanLetter(c: char, rest: string)
    requires !IsSpecial(c) && c != '#'
    ensures Scan([c] + rest, None, Plain) == Scan(rest, Some([c]), Plain)
  {
    assert ([c] + rest)[1..] == rest;
    assert "" + [c] == [c];
  }

  lemma ScanBare(word: string, rest: string)
    requires IsSimple(word) && word[0] != '#'
    ensures Scan(word + rest, None, Plain) == Scan(rest, Some(word), Plain)
  {
    var c := word[0];
    ScanLetter(c, word[1..] + rest);
    ScanSimple(word[1..], rest, [c]);
    assert word + rest == [c] + (word[1..] + rest) && [c] + word[1..] == word;
  }

  lemma ScanInQuotes(word: string, rest: string)
    ensures Scan("'" + Escaped(word) + "'" + rest, None, Plain) == Scan(rest, Some(word), Plain)
  {
    var quoted := Escaped(word) + "'" + rest;
    assert "'" + Escaped(word) + "'" + rest == "'" + quoted;
    ScanOpen(quoted);
    ScanEscaped(word, rest, "");
    assert "" + word == word;
  }

  /** Whatever follows, a quoted word is read back, unless it reads as a comment. */
  lemma ScanQuoted(word: string, rest: string)
    requires !ReadsAsComment(word)
    ensures Scan(Quoted(word) + rest, None, Plain) == Scan(rest, Some(word), Plain)
  {
    if IsSimple(word) {
      ScanBare(word, rest);
    } else {
      ScanInQuotes(word, rest);
    }
  }

  ghost predicate NoComment(args: seq<string>) {
    forall i :: 0 <= i < |args| ==> !ReadsAsComment(args[i])
  }

  lemma NoCommentSplit(args: seq<string>)
    requires args != []
    ensures NoComment(args) <==> !ReadsAsComment(args[0]) && NoComment(args[1..])
  {
    assert forall i :: 1 <= i < |args| ==> args[i] == args[1..][i - 1];
  }

  lemma ScanComment(args: seq<string>)
    requires args != [] && ReadsAsComment(args[0])
    ensures Words(Line(args)) in {None, Some([])}
  {
    assert Line(args)[0] == Quoted(args[0])[0] == '#';
  }

  /** The first word is read, and then the rest of the line. */
  lemma ScanFirst(args: seq<string>)
    requires args != [] && !ReadsAsComment(args[0])
    ensures Words(Line(args)) == Prepend(Some(args[0]), Words(Line(args[1..])))
  {
    if |args| == 1 {
      ScanQuoted(args[0], "");
      assert Quoted(args[0]) + "" == Quoted(args[0]);
      assert [args[0]] + [] == [args[0]];
    } else {
      var rest := " " + Line(args[1..]);
      assert Line(args) == Quoted(args[0]) + rest;
      ScanQuoted(args[0], rest);
      ScanBlank(args[0], Line(args[1..]));
    }
  }

  lemma ScanBlank(word: string, rest: string)
    ensures Scan(" " + rest, Some(word), Plain) == Prepend(Some(word), Scan(rest, None, Plain))
  {
    assert (" " + rest)[1..] == rest;
  }

  /** Reading the quoted line gives the words back if and only if none of them reads as a comment. */
  lemma {:induction false} RoundTrip(args: seq<string>)
    ensures Words(Line(args)) == Some(args) <==> NoComment(args)
    decreases |args|
  {
    if args == [] {
    } else {
      NoCommentSplit(args);
      if ReadsAsComment(args[0]) {
        ScanComment(args);
      } else {
        ScanFirst(args);
        RoundTrip(args[1..]);
        assert args == [args[0]] + args[1..];
        var words := Words(Line(args[1..]));
        assert words.Some? ==> ([args[0]] + words.value)[1..] == words.value;
      }
    }
  }
}
