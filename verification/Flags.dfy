/** Parsing command-line flags (`pkg/mflag/flag.go`). */
module Flags {
  import opened Wrappers
  import opened Sequences

  /** A flag under one or more names; `accepts` says which values it can be set to. */
  datatype Flag = Flag(key: nat, boolean: bool, accepts: string -> bool)

  type Formal = map<string, Flag>

  /** The arguments left, the flag names seen so far, and the values the flags were set to. */
  datatype Progress = Progress(args: seq<string>, actual: map<string, nat>, values: map<nat, string>)

  /** `Crash` is a panic. `Retry` stands for a name that is not defined but may be a cluster of letters. */
  datatype Err = Fine | BadSyntax | Help | Undefined | Retry | BadValue | NeedsValue | Crash

  datatype One = One(s: Progress, seen: bool, name: string, err: Err)

  /** The first place of a character, or the length. */
  function IndexOf(s: string, c: char): (n: nat)
    ensures n <= |s| && (n < |s| ==> s[n] == c) && forall i :: 0 <= i < n ==> s[i] != c
  {
    if s == "" || s[0] == c then 0 else 1 + IndexOf(s[1..], c)
  }

  /** Outermost quotes are removed. A lone quote is both the first and the last: the slice panics. */
  function TrimQuotes(s: string): Option<string> {
    if s == "" then Some(s)
    else if s[0] == s[|s| - 1] && (s[0] == '"' || s[0] == '\'') then
      if |s| == 1 then None else Some(s[1..|s| - 1])
    else Some(s)
  }

  function SetTo(s: Progress, name: string, key: nat, value: string): Progress {
    s.(actual := s.actual[name := key], values := s.values[key := value])
  }

  /** A flag that is given, with its value or without. */
  function Apply(formal: Formal, s: Progress, name: string, given: Option<string>): (o: One)
    requires name != ""
    ensures o.s.args == s.args || (s.args != [] && o.s.args == s.args[1..])
    ensures o.seen ==> o.err == Fine
    ensures o.err == Fine ==> o.seen
    ensures o.err == Retry ==> o.name != "" && o.name !in formal
  {
    if name !in formal then
      if name in {"-help", "help", "h"} then One(s, false, "", Help)
      else if name[0] == '-' then One(s, false, "", Undefined)
      else One(s, false, name, Retry)
    else
      var flag := formal[name];
      if flag.boolean then
        if given.Some? && !flag.accepts(given.value) then One(s, false, "", BadValue)
        else if given.Some? then One(SetTo(s, name, flag.key, given.value), true, "", Fine)
        else if flag.accepts("true") then One(SetTo(s, name, flag.key, "true"), true, "", Fine)
        else One(s.(actual := s.actual[name := flag.key]), true, "", Fine)
      else if given == None && s.args == [] then One(s, false, "", NeedsValue)
      else
        var value := if given.Some? then given.value else s.args[0];
        var s1 := if given.Some? then s else s.(args := s.args[1..]);
        if flag.accepts(value) then One(SetTo(s1, name, flag.key, value), true, "", Fine)
        else One(s1, false, "", BadValue)
  }

  predicate IsSuffix(t: seq<string>, s: seq<string>) {
    |t| <= |s| && t == s[|s| - |t|..]
  }

  lemma SuffixTrans(u: seq<string>, t: seq<string>, s: seq<string>)
    requires IsSuffix(u, t) && IsSuffix(t, s)
    ensures IsSuffix(u, s)
  {
    assert s[|s| - |t|..][|t| - |u|..] == s[|s| - |u|..];
  }

  lemma SuffixTails(s: seq<string>)
    requires s != []
    ensures IsSuffix(s[1..], s) && (|s| > 1 ==> IsSuffix(s[1..][1..], s))
  {
    assert |s| > 1 ==> s[1..][1..] == s[2..];
  }

  /** What one argument is by itself. */
  datatype Syntax = NoFlag | Terminator | Malformed | LoneQuote | Named(name: string, given: Option<string>)

  function SyntaxOf(arg: string): (x: Syntax)
    ensures x.Named? ==> x.name != ""
  {
    if |arg| < 2 || arg[0] != '-' then NoFlag
    else if |arg| == 2 && arg[1] == '-' then Terminator
    else if arg[1] == '=' then Malformed
    else
      var body := arg[1..];
      var i := IndexOf(body, '=');
      if i == |body| then Named(body, None)
      else match TrimQuotes(body[i + 1..])
        case None => LoneQuote
        case Some(v) => Named(body[..i], Some(v))
  }

  /** An argument that was taken from the front. */
  function AfterArg(formal: Formal, s: Progress, x: Syntax): (o: One)
    requires x.Named? ==> x.name != ""
    ensures o.s.args == s.args || (s.args != [] && o.s.args == s.args[1..])
    ensures o.seen ==> o.err == Fine
    ensures o.err == Retry ==> o.name != "" && o.name !in formal
  {
    match x
    case Named(name, given) => Apply(formal, s, name, given)
    case LoneQuote => One(s, false, "", Crash)
    case _ => One(s, false, "", Fine)
  }

  /** One argument, with its value. */
  function ParseOneOf(formal: Formal, s: Progress): (o: One)
    ensures IsSuffix(o.s.args, s.args)
    ensures o.seen || o.err == Retry ==> |o.s.args| < |s.args|
    ensures o.seen ==> o.err == Fine
    ensures o.err == Retry ==> o.name != "" && o.name !in formal
  {
    if s.args == [] then One(s, false, "", Fine)
    else
      SuffixTails(s.args);
      var x := SyntaxOf(s.args[0]);
      if x == NoFlag then One(s, false, "", Fine)
      else if x == Malformed then One(s, false, "", BadSyntax)
      else AfterArg(formal, s.(args := s.args[1..]), x)
  }

  lemma FrontArg(formal: Formal, s: Progress, arg: string, rest: seq<string>)
    requires SyntaxOf(arg) != NoFlag && SyntaxOf(arg) != Malformed
    ensures ParseOneOf(formal, s.(args := [arg] + rest)) == AfterArg(formal, s.(args := rest), SyntaxOf(arg))
  {
    assert ([arg] + rest)[1..] == rest;
  }

  lemma FrontMalformed(formal: Formal, s: Progress, arg: string)
    requires SyntaxOf(arg) == Malformed
    ensures ParseOneOf(formal, s.(args := [arg] + s.args)) == One(s.(args := [arg] + s.args), false, "", BadSyntax)
  {
  }

  lemma SyntaxOfLetter(c: char)
    ensures SyntaxOf("-" + [c]) == if c == '-' then Terminator else if c == '=' then Malformed else Named([c], None)
  {
    assert ("-" + [c])[1..] == [c];
  }

  lemma SyntaxOfName(name: string)
    requires name != "" && name != "-" && '=' !in name
    ensures SyntaxOf("-" + name) == Named(name, None)
  {
    assert ("-" + name)[1..] == name;
    assert name[0] in name;
  }

  datatype Parsed = Parsed(s: Progress, err: Err)

  /** What one letter of a cluster does, being an argument in front of the others. */
  function LetterOf(formal: Formal, s: Progress, c: char): (o: One)
    ensures o.err == Fine ==> IsSuffix(o.s.args, s.args)
    ensures o.seen ==> o.err == Fine
  {
    if c == '=' then One(s.(args := ["-" + [c]] + s.args), false, "", BadSyntax)
    else if c == '-' then One(s, false, "", Fine)
    else
      var o := Apply(formal, s, [c], None);
      if s.args != [] then SuffixTails(s.args); o else o
  }

  lemma LetterIsArg(formal: Formal, s: Progress, c: char)
    ensures ParseOneOf(formal, s.(args := ["-" + [c]] + s.args)) == LetterOf(formal, s, c)
  {
    SyntaxOfLetter(c);
    if c == '=' {
      FrontMalformed(formal, s, "-" + [c]);
    } else {
      FrontArg(formal, s, "-" + [c], s.args);
      assert s.(args := s.args) == s;
    }
  }

  /** The letters of a cluster, each as an argument of its own in front of the rest. */
  function Expand(formal: Formal, s: Progress, letters: string): (p: Parsed)
    ensures p.err == Fine ==> IsSuffix(p.s.args, s.args)
    decreases |letters|
  {
    if letters == "" then Parsed(s, Fine)
    else
      var o := LetterOf(formal, s, letters[0]);
      if o.err != Fine then Parsed(o.s, Undefined)
      else
        var p := Expand(formal, o.s, letters[1..]);
        if p.err == Fine then SuffixTrans(p.s.args, o.s.args, s.args); p else p
  }

  function ParseAll(formal: Formal, s: Progress): (p: Parsed)
    ensures p.err == Fine ==> IsSuffix(p.s.args, s.args)
    decreases |s.args|
  {
    var o := ParseOneOf(formal, s);
    if !o.seen && o.err != Retry then Parsed(o.s, o.err)
    else if !o.seen && |o.name| <= 1 then Parsed(o.s, Undefined)
    else
      var e := if o.seen then Parsed(o.s, Fine) else Expand(formal, o.s, o.name);
      if e.err != Fine then e
      else
        SuffixTrans(e.s.args, o.s.args, s.args);
        var p := ParseAll(formal, e.s);
        if p.err == Fine then SuffixTrans(p.s.args, e.s.args, s.args); p else p
  }

  class FlagSet {
    const formal: Formal
    var args: seq<string>
    var actual: map<string, nat>
    var values: map<nat, string>

    ghost function Value(): Progress
      reads this
    {
      Progress(args, actual, values)
    }

    constructor (formal: Formal)
      ensures this.formal == formal && Value() == Progress([], map[], map[])
    {
      this.formal := formal;
      args, actual, values := [], map[], map[];
    }

    /** The part of `parseOne` that looks at one argument alone. */
    method Split(s: string) returns (x: Syntax)
      ensures x == SyntaxOf(s)
    {
      if |s| == 0 || s[0] != '-' || |s| == 1 {
        return NoFlag;
      }
      if s[1] == '-' && |s| == 2 {
        return Terminator;
      }
      var name := s[1..];
      if name[0] == '=' {
        return Malformed;
      }
      var i := IndexOf(name, '=');
      if i == |name| {
        return Named(name, None);
      }
      var value := TrimQuotes(name[i + 1..]);
      if value == None {
        return LoneQuote;
      }
      return Named(name[..i], value);
    }

    method ParseOne() returns (seen: bool, name: string, err: Err)
      modifies this
      ensures One(Value(), seen, name, err) == ParseOneOf(formal, old(Value()))
    {
      if |args| == 0 {
        return false, "", Fine;
      }
      var x := Split(args[0]);
      if x == NoFlag {
        return false, "", Fine;
      }
      if x == Malformed {
        return false, "", BadSyntax;
      }
      args := args[1..];
      if x == Terminator {
        return false, "", Fine;
      }
      if x == LoneQuote {
        return false, "", Crash;
      }
      seen, name, err := ApplyFlag(x.name, x.given);
    }

    /** The rest of `parseOne`, once the name and the value given with it are known. */
    method ApplyFlag(name0: string, given: Option<string>) returns (seen: bool, name: string, err: Err)
      requires name0 != ""
      modifies this
      ensures One(Value(), seen, name, err) == Apply(formal, old(Value()), name0, given)
    {
      if name0 !in formal {
        if name0 == "-help" || name0 == "help" || name0 == "h" {
          return false, "", Help;
        }
        if name0[0] == '-' {
          return false, "", Undefined;
        }
        return false, name0, Retry;
      }
      var flag := formal[name0];
      if flag.boolean {
        if given.Some? {
          if !flag.accepts(given.value) {
            return false, "", BadValue;
          }
          values := values[flag.key := given.value];
        } else if flag.accepts("true") {
          values := values[flag.key := "true"];
        }
      } else {
        var value := given;
        if value == None && |args| > 0 {
          value, args := Some(args[0]), args[1..];
        }
        if value == None {
          return false, "", NeedsValue;
        }
        if !flag.accepts(value.value) {
          return false, "", BadValue;
        }
        values := values[flag.key := value.value];
      }
      actual := actual[name0 := flag.key];
      return true, "", Fine;
    }

    /** The loop over the letters of a cluster. */
    method ExpandLetters(letters: string) returns (err: Err)
      modifies this
      ensures Parsed(Value(), err) == Expand(formal, old(Value()), letters)
    {
      assert letters[0..] == letters;
      for i := 0 to |letters|
        invariant Expand(formal, Value(), letters[i..]) == Expand(formal, old(Value()), letters)
      {
        assert letters[i..][0] == letters[i] && letters[i..][1..] == letters[i + 1..];
        LetterIsArg(formal, Value(), letters[i]);
        args := ["-" + [letters[i]]] + args;
        var seen, _, err2 := ParseOne();
        if !seen && err2 != Fine {
          return Undefined;
        }
      }
      return Fine;
    }

    /** `Parse`, which always ends. */
    method Parse(arguments: seq<string>) returns (err: Err)
      modifies this
      ensures Parsed(Value(), err) == ParseAll(formal, old(Value()).(args := arguments))
      ensures err == Fine ==> IsSuffix(args, arguments)
    {
      args := arguments;
      ghost var start := Value();
      while true
        invariant ParseAll(formal, Value()) == ParseAll(formal, start)
        decreases |args|
      {
        var seen, name;
        seen, name, err := ParseOne();
        if seen {
          continue;
        }
        if err == Fine {
          return;
        }
        if err == Retry {
          if |name| > 1 {
            err := ExpandLetters(name);
            if err == Fine {
              continue;
            }
          } else {
            err := Undefined;
          }
        }
        return;
      }
    }
  }

  /** The letters as arguments of their own. */
  function Singles(letters: string): seq<string> {
    seq(|letters|, i requires 0 <= i < |letters| => "-" + [letters[i]])
  }

  /** Every letter is a flag, and every one but the last a boolean flag. */
  predicate IsCluster(formal: Formal, letters: string) {
    forall i :: 0 <= i < |letters| ==>
      && letters[i] != '-' && letters[i] != '=' && [letters[i]] in formal
      && (i < |letters| - 1 ==> formal[[letters[i]]].boolean)
  }

  lemma OneLetter(formal: Formal, s: Progress, c: char, rest: seq<string>)
    requires c != '-' && c != '='
    ensures ParseOneOf(formal, s.(args := ["-" + [c]] + rest)) == Apply(formal, s.(args := rest), [c], None)
  {
    SyntaxOfLetter(c);
    FrontArg(formal, s, "-" + [c], rest);
  }

  /** Expanding a cluster does what its letters do as arguments of their own, one after the other. */
  lemma {:induction false} ExpandIsSingles(formal: Formal, s: Progress, letters: string)
    requires IsCluster(formal, letters)
    ensures SameAs(formal, Expand(formal, s, letters), ParseAll(formal, s.(args := Singles(letters) + s.args)))
    decreases |letters|
  {
    if letters == "" {
      assert Singles(letters) + s.args == s.args;
      assert s.(args := s.args) == s;
    } else if |letters| == 1 {
      LastSingle(formal, s, letters);
    } else {
      FirstSingle(formal, s, letters);
      ClusterTail(formal, letters);
      ExpandIsSingles(formal, Switched(formal, s, letters[0]), letters[1..]);
    }
  }

  /** An expansion that fails is one where the parsing fails; otherwise the parsing goes on from there. */
  ghost predicate SameAs(formal: Formal, e: Parsed, p: Parsed) {
    if e.err == Fine then ParseAll(formal, e.s) == p else p.err in {BadValue, NeedsValue}
  }

  lemma LastSingle(formal: Formal, s: Progress, letters: string)
    requires |letters| == 1 && IsCluster(formal, letters)
    ensures SameAs(formal, Expand(formal, s, letters), ParseAll(formal, s.(args := Singles(letters) + s.args)))
  {
    var c := letters[0];
    assert letters == [c] && Singles(letters) == ["-" + [c]];
    assert s.(args := s.args) == s;
    OneLetter(formal, s, c, s.args);
    ExpandOne(formal, s, c);
    ParseStep(formal, s.(args := ["-" + [c]] + s.args));
  }

  lemma ExpandOne(formal: Formal, s: Progress, c: char)
    ensures var o := LetterOf(formal, s, c);
            Expand(formal, s, [c]) == Parsed(o.s, if o.err == Fine then Fine else Undefined)
  {
    assert [c][1..] == "";
    var o := LetterOf(formal, s, c);
    assert Expand(formal, o.s, "") == Parsed(o.s, Fine);
  }

  lemma ParseStep(formal: Formal, s: Progress)
    ensures var o := ParseOneOf(formal, s);
            && (o.seen ==> ParseAll(formal, s) == ParseAll(formal, o.s))
            && (!o.seen && o.err != Retry ==> ParseAll(formal, s) == Parsed(o.s, o.err))
  {
  }

  lemma SameStep(formal: Formal, s: Progress, t: Progress)
    requires ParseOneOf(formal, s) == ParseOneOf(formal, t)
    ensures ParseAll(formal, s) == ParseAll(formal, t)
  {
  }

  /** The state after a boolean flag is switched on. */
  function Switched(formal: Formal, s: Progress, c: char): Progress
    requires [c] in formal && formal[[c]].boolean
  {
    Apply(formal, s, [c], None).s
  }

  lemma FirstSingle(formal: Formal, s: Progress, letters: string)
    requires letters != "" && IsBoolean(formal, letters[0])
    ensures var s1 := Switched(formal, s, letters[0]);
            && Expand(formal, s, letters) == Expand(formal, s1, letters[1..])
            && ParseAll(formal, s.(args := Singles(letters) + s.args))
                 == ParseAll(formal, s1.(args := Singles(letters[1..]) + s1.args))
  {
    var c := letters[0];
    var more := Singles(letters[1..]) + s.args;
    assert Singles(letters) + s.args == ["-" + [c]] + more;
    OneLetter(formal, s, c, more);
    assert Switched(formal, s.(args := more), c) == Switched(formal, s, c).(args := more);
  }

  lemma ClusterTail(formal: Formal, letters: string)
    requires IsCluster(formal, letters) && letters != ""
    ensures IsCluster(formal, letters[1..])
  {
  }

  lemma ClusterRetries(formal: Formal, s: Progress, letters: string, rest: seq<string>)
    requires letters != "" && letters[0] != '-' && '=' !in letters && letters !in formal && letters !in {"help", "h"}
    ensures ParseOneOf(formal, s.(args := ["-" + letters] + rest)) == One(s.(args := rest), false, letters, Retry)
  {
    SyntaxOfName(letters);
    FrontArg(formal, s, "-" + letters, rest);
  }

  /** What a cluster leaves is what its letters leave; or both fail, each in its own words. */
  ghost predicate Agree(cluster: Parsed, singles: Parsed) {
    cluster == singles || (cluster.err == Undefined && singles.err in {BadValue, NeedsValue})
  }

  /** An undefined cluster of letters, boolean flags but perhaps for the last, leaves the same flags,
      values and arguments as the letters given one by one; one fails if and only if the other does. */
  lemma ClusterLaw(formal: Formal, s: Progress, letters: string, rest: seq<string>)
    requires |letters| > 1 && IsCluster(formal, letters) && letters !in formal && letters != "help"
    ensures Agree(ParseAll(formal, s.(args := ["-" + letters] + rest)),
                  ParseAll(formal, s.(args := Singles(letters) + rest)))
  {
    forall i | 0 <= i < |letters|
      ensures letters[i] != '='
    {
    }
    ClusterRetries(formal, s, letters, rest);
    ExpandIsSingles(formal, s.(args := rest), letters);
    ExpandErr(formal, s.(args := rest), letters);
  }

  lemma {:induction false} ExpandErr(formal: Formal, s: Progress, letters: string)
    ensures Expand(formal, s, letters).err in {Fine, Undefined}
    decreases |letters|
  {
    if letters == "" {
    } else {
      ExpandErr(formal, LetterOf(formal, s, letters[0]).s, letters[1..]);
    }
  }

  /** A parse that asks for help has taken an argument for it. */
  lemma {:induction false} HelpTakesOne(formal: Formal, s: Progress)
    ensures ParseAll(formal, s).err == Help ==> |ParseAll(formal, s).s.args| < |s.args|
    decreases |s.args|
  {
    var o := ParseOneOf(formal, s);
    if !o.seen && o.err != Retry {
      AfterHelp(formal, s);
    } else if !o.seen && |o.name| <= 1 {
    } else {
      var e := if o.seen then Parsed(o.s, Fine) else Expand(formal, o.s, o.name);
      if e.err == Fine {
        HelpTakesOne(formal, e.s);
      } else {
        ExpandErr(formal, o.s, o.name);
      }
    }
  }

  lemma AfterHelp(formal: Formal, s: Progress)
    ensures ParseOneOf(formal, s).err == Help ==> |ParseOneOf(formal, s).s.args| < |s.args|
  {
  }

  /** The one cluster that is not tried letter by letter: it asks for help, and so never agrees with its letters. */
  lemma HelpIsNoCluster(formal: Formal, s: Progress, letters: string, rest: seq<string>)
    requires letters == "help" && letters !in formal
    ensures ParseAll(formal, s.(args := ["-" + letters] + rest)) == Parsed(s.(args := rest), Help)
    ensures IsCluster(formal, letters) ==>
              !Agree(ParseAll(formal, s.(args := ["-" + letters] + rest)),
                     ParseAll(formal, s.(args := Singles(letters) + rest)))
  {
    SyntaxOfName(letters);
    FrontArg(formal, s, "-" + letters, rest);
    ParseStep(formal, s.(args := ["-" + letters] + rest));
    if IsCluster(formal, letters) {
      NoHelpOnArrival(formal, s.(args := rest), letters);
    }
  }

  lemma NoHelpOnArrival(formal: Formal, s: Progress, letters: string)
    requires IsCluster(formal, letters)
    ensures ParseAll(formal, s.(args := Singles(letters) + s.args)) != Parsed(s, Help)
  {
    ExpandIsSingles(formal, s, letters);
    var e := Expand(formal, s, letters);
    if e.err == Fine {
      HelpTakesOne(formal, e.s);
    }
  }

  /** Letters that name boolean flags. */
  predicate AllBoolean(formal: Formal, letters: string) {
    forall i :: 0 <= i < |letters| ==> IsBoolean(formal, letters[i])
  }

  predicate IsBoolean(formal: Formal, c: char) {
    c != '-' && c != '=' && [c] in formal && formal[[c]].boolean
  }

  function SwitchedAll(formal: Formal, s: Progress, letters: string): (s': Progress)
    requires AllBoolean(formal, letters)
    ensures s'.args == s.args
    decreases |letters|
  {
    if letters == "" then s
    else
      assert IsBoolean(formal, letters[0]);
      SwitchedAll(formal, Switched(formal, s, letters[0]), letters[1..])
  }

  /** Boolean flags in front have the same effect in a cluster and as arguments of their own. */
  lemma {:induction false} ThroughBooleans(formal: Formal, s: Progress, init: string, more: string)
    requires AllBoolean(formal, init)
    ensures var s1 := SwitchedAll(formal, s, init);
            && Expand(formal, s, init + more) == Expand(formal, s1, more)
            && ParseAll(formal, s.(args := Singles(init + more) + s.args))
                 == ParseAll(formal, s1.(args := Singles(more) + s1.args))
    decreases |init|
  {
    if init == "" {
      assert init + more == more;
    } else {
      assert IsBoolean(formal, init[0]);
      assert (init + more)[1..] == init[1..] + more;
      FirstSingle(formal, s, init + more);
      ThroughBooleans(formal, Switched(formal, s, init[0]), init[1..], more);
    }
  }

  /** The dashes of a cluster are skipped. */
  function WithoutDashes(letters: string): string {
    if letters == "" then ""
    else (if letters[0] == '-' then "" else [letters[0]]) + WithoutDashes(letters[1..])
  }

  lemma {:induction false} DashIsSkipped(formal: Formal, s: Progress, letters: string)
    ensures Expand(formal, s, letters).err == Expand(formal, s, WithoutDashes(letters)).err
    ensures Expand(formal, s, letters).s == Expand(formal, s, WithoutDashes(letters)).s
    decreases |letters|
  {
    if letters == "" {
    } else {
      var o := LetterOf(formal, s, letters[0]);
      if o.err == Fine {
        DashIsSkipped(formal, o.s, letters[1..]);
      }
      if letters[0] != '-' {
        assert ([letters[0]] + WithoutDashes(letters[1..]))[1..] == WithoutDashes(letters[1..]);
      } else {
        assert "" + WithoutDashes(letters[1..]) == WithoutDashes(letters[1..]);
      }
    }
  }

  lemma DashTerminates(formal: Formal, s: Progress, left: seq<string>)
    ensures ParseAll(formal, s.(args := ["-" + ['-']] + left)) == Parsed(s.(args := left), Fine)
  {
    SyntaxOfLetter('-');
    FrontArg(formal, s, "-" + ['-'], left);
    ParseStep(formal, s.(args := ["-" + ['-']] + left));
  }

  lemma SinglesAt(letters: string, k: nat)
    requires k < |letters|
    ensures Singles(letters[k..]) == ["-" + [letters[k]]] + Singles(letters[k + 1..])
    ensures letters[..k] + letters[k..] == letters
  {
  }

  /** As an argument of its own, the first dash ends the flags: all that follows it is left. */
  lemma DashEnds(formal: Formal, s: Progress, letters: string, k: nat)
    requires k < |letters| && letters[k] == '-' && AllBoolean(formal, letters[..k])
    ensures ParseAll(formal, s.(args := Singles(letters) + s.args))
            == Parsed(SwitchedAll(formal, s, letters[..k]).(args := Singles(letters[k + 1..]) + s.args), Fine)
  {
    var s1, left := SwitchedAll(formal, s, letters[..k]), Singles(letters[k + 1..]) + s.args;
    ThroughFront(formal, s, letters, k);
    SinglesAt(letters, k);
    Regroup(["-" + ['-']], Singles(letters[k + 1..]), s.args);
    DashTerminates(formal, s1, left);
  }

  lemma ThroughFront(formal: Formal, s: Progress, letters: string, k: nat)
    requires k < |letters| && AllBoolean(formal, letters[..k])
    ensures var s1 := SwitchedAll(formal, s, letters[..k]);
            && Expand(formal, s, letters) == Expand(formal, s1, letters[k..])
            && ParseAll(formal, s.(args := Singles(letters) + s.args))
                 == ParseAll(formal, s1.(args := Singles(letters[k..]) + s1.args))
  {
    SinglesAt(letters, k);
    ThroughBooleans(formal, s, letters[..k], letters[k..]);
  }

  /** So with a dash before the last letter, the letters leave more than the cluster can. */
  lemma DashInside(formal: Formal, s: Progress, letters: string, k: nat, rest: seq<string>)
    requires k < |letters| - 1 && letters[k] == '-' && AllBoolean(formal, letters[..k])
    requires letters !in formal && '=' !in letters
    ensures !Agree(ParseAll(formal, s.(args := ["-" + letters] + rest)),
                   ParseAll(formal, s.(args := Singles(letters) + rest)))
  {
    DashEnds(formal, s.(args := rest), letters, k);
    TakesCluster(formal, s, letters, rest);
  }

  lemma RetryStep(formal: Formal, s: Progress)
    requires ParseOneOf(formal, s).err == Retry && |ParseOneOf(formal, s).name| > 1
    ensures var o := ParseOneOf(formal, s);
            var e := Expand(formal, o.s, o.name);
            ParseAll(formal, s) == if e.err != Fine then e else ParseAll(formal, e.s)
  {
  }

  lemma NameIsTaken(formal: Formal, s: Progress, name: string, rest: seq<string>)
    requires |name| > 1 && '=' !in name && name !in formal
    ensures var o := ParseOneOf(formal, s.(args := ["-" + name] + rest));
            !o.seen && o.s == s.(args := rest) && (o.err == Retry ==> o.name == name)
  {
    SyntaxOfName(name);
    FrontArg(formal, s, "-" + name, rest);
  }

  /** An undefined name is taken from the arguments. */
  lemma TakesCluster(formal: Formal, s: Progress, name: string, rest: seq<string>)
    requires |name| > 1 && '=' !in name && name !in formal
    ensures var p := ParseAll(formal, s.(args := ["-" + name] + rest)); p.err == Fine ==> |p.s.args| <= |rest|
  {
    NameIsTaken(formal, s, name, rest);
    var all := s.(args := ["-" + name] + rest);
    if ParseOneOf(formal, all).err == Retry {
      RetryStep(formal, all);
    } else {
      ParseStep(formal, all);
    }
  }

  /** A dash in last place is skipped by the cluster, while the letters stop there. */
  lemma DashAtEnd(formal: Formal, s: Progress, letters: string, rest: seq<string>)
    requires |letters| > 1 && letters[|letters| - 1] == '-' && AllBoolean(formal, letters[..|letters| - 1])
    requires letters !in formal && '=' !in letters
    ensures Agree(ParseAll(formal, s.(args := ["-" + letters] + rest)),
                  ParseAll(formal, s.(args := Singles(letters) + rest)))
            <==> StartsWithNoFlag(rest)
  {
    var k := |letters| - 1;
    var s0 := s.(args := rest);
    var s1 := SwitchedAll(formal, s0, letters[..k]);
    assert IsBoolean(formal, letters[..k][0]);
    ClusterRetries(formal, s, letters, rest);
    RetryStep(formal, s.(args := ["-" + letters] + rest));
    ThroughFront(formal, s0, letters, k);
    assert letters[k..] == [letters[k]];
    ExpandOne(formal, s1, letters[k]);
    DashEnds(formal, s0, letters, k);
    assert Singles(letters[k + 1..]) + rest == rest;
    assert s1.(args := rest) == s1;
    StopsAtOnce(formal, s1);
  }

  predicate StartsWithNoFlag(rest: seq<string>) {
    rest == [] || SyntaxOf(rest[0]) == NoFlag
  }

  /** The arguments stay as they are, without an error, exactly where they start with no flag. */
  lemma StopsAtOnce(formal: Formal, s: Progress)
    ensures ParseAll(formal, s) == Parsed(s, Fine) <==> StartsWithNoFlag(s.args)
  {
    ParseStep(formal, s);
  }

  /** Every letter is a dash or a flag, and every one but the last a dash or a boolean flag. */
  predicate IsDashed(formal: Formal, letters: string) {
    forall i :: 0 <= i < |letters| ==> DashedAt(formal, letters, i)
  }

  predicate DashedAt(formal: Formal, letters: string, i: nat)
    requires i < |letters|
  {
    || letters[i] == '-'
    || (letters[i] != '=' && [letters[i]] in formal && (i < |letters| - 1 ==> formal[[letters[i]]].boolean))
  }

  lemma ClusterOrHelp(formal: Formal, s: Progress, letters: string, rest: seq<string>)
    requires |letters| > 1 && IsCluster(formal, letters) && letters !in formal
    ensures Agree(ParseAll(formal, s.(args := ["-" + letters] + rest)),
                  ParseAll(formal, s.(args := Singles(letters) + rest)))
            <==> letters != "help"
  {
    if letters == "help" {
      HelpIsNoCluster(formal, s, letters, rest);
    } else {
      ClusterLaw(formal, s, letters, rest);
    }
  }

  /** When an undefined cluster of flags and dashes does what its letters do one by one: if it is not the request
      for help and has no dash; or one in last place only, with nothing after it that looks like a flag. */
  lemma ClusterIff(formal: Formal, s: Progress, letters: string, rest: seq<string>)
    requires |letters| > 1 && IsDashed(formal, letters) && letters !in formal
    ensures Agree(ParseAll(formal, s.(args := ["-" + letters] + rest)),
                  ParseAll(formal, s.(args := Singles(letters) + rest)))
            <==>
            && letters != "help"
            && '-' !in letters[..|letters| - 1]
            && (letters[|letters| - 1] == '-' ==> StartsWithNoFlag(rest))
  {
    var n, k := |letters|, IndexOf(letters, '-');
    if k == n {
      NoDash(formal, letters);
      ClusterOrHelp(formal, s, letters, rest);
    } else {
      BooleansBefore(formal, letters, k);
      if k == n - 1 {
        DashAtEnd(formal, s, letters, rest);
      } else {
        assert letters[..n - 1][k] == '-';
        DashInside(formal, s, letters, k, rest);
      }
    }
  }

  lemma NoDash(formal: Formal, letters: string)
    requires IsDashed(formal, letters) && IndexOf(letters, '-') == |letters|
    ensures IsCluster(formal, letters) && '-' !in letters
  {
    forall i | 0 <= i < |letters|
      ensures letters[i] != '-' && letters[i] != '=' && [letters[i]] in formal
      ensures i < |letters| - 1 ==> formal[[letters[i]]].boolean
    {
      assert DashedAt(formal, letters, i);
    }
  }

  lemma BooleansBefore(formal: Formal, letters: string, k: nat)
    requires IsDashed(formal, letters) && k < |letters| && k == IndexOf(letters, '-')
    ensures AllBoolean(formal, letters[..k]) && '-' !in letters[..k] && '=' !in letters
  {
    forall i | 0 <= i < |letters|
      ensures letters[i] != '='
    {
      assert DashedAt(formal, letters, i);
    }
    forall i | 0 <= i < k
      ensures IsBoolean(formal, letters[..k][i])
    {
      assert DashedAt(formal, letters, i);
    }
  }

  /** A value after an equals sign is the same as a next argument, but for its outer quotes; a value that is a
      lone quote makes the parser panic. */
  lemma ValueLaw(formal: Formal, s: Progress, name: string, value: string, rest: seq<string>)
    requires name in formal && !formal[name].boolean && name != "" && name != "-" && '=' !in name
    ensures var given := ParseAll(formal, s.(args := ["-" + name + "=" + value] + rest));
            match TrimQuotes(value)
            case None => given.err == Crash && (value == "\"" || value == "'")
            case Some(v) => given == ParseAll(formal, s.(args := ["-" + name, v] + rest))
  {
    var arg := "-" + name + "=" + value;
    SyntaxOfValue(name, value);
    FrontArg(formal, s, arg, rest);
    if TrimQuotes(value).Some? {
      var v := TrimQuotes(value).value;
      NextArg(formal, s, name, v, rest);
      SameStep(formal, s.(args := [arg] + rest), s.(args := ["-" + name, v] + rest));
    } else {
      ParseStep(formal, s.(args := [arg] + rest));
    }
  }

  /** A value given with a name that is not defined is dropped, unless trimming it panics. */
  lemma UndefinedDropsValue(formal: Formal, s: Progress, name: string, value: string, rest: seq<string>)
    requires name !in formal && name != "" && name != "-" && '=' !in name
    ensures var given := ParseAll(formal, s.(args := ["-" + name + "=" + value] + rest));
            if TrimQuotes(value).Some? then given == ParseAll(formal, s.(args := ["-" + name] + rest))
            else given.err == Crash
  {
    var arg := "-" + name + "=" + value;
    SyntaxOfValue(name, value);
    SyntaxOfName(name);
    FrontArg(formal, s, arg, rest);
    FrontArg(formal, s, "-" + name, rest);
    if TrimQuotes(value).Some? {
      SameStep(formal, s.(args := [arg] + rest), s.(args := ["-" + name] + rest));
    } else {
      ParseStep(formal, s.(args := [arg] + rest));
    }
  }

  /** Letters that name boolean flags which can be switched on. */
  predicate AllSwitches(formal: Formal, letters: string) {
    forall i :: 0 <= i < |letters| ==> IsSwitch(formal, letters[i])
  }

  predicate IsSwitch(formal: Formal, c: char) {
    c != '-' && c != '=' && [c] in formal && formal[[c]].boolean && formal[[c]].accepts("true")
  }

  function SwitchedOn(formal: Formal, s: Progress, letters: string): Progress
    requires AllSwitches(formal, letters)
    decreases |letters|
  {
    if letters == "" then s
    else
      assert IsSwitch(formal, letters[0]);
      SwitchedOn(formal, SetTo(s, [letters[0]], formal[[letters[0]]].key, "true"), letters[1..])
  }

  lemma {:induction false} ExpandSwitches(formal: Formal, s: Progress, letters: string)
    requires AllSwitches(formal, letters)
    ensures Expand(formal, s, letters) == Parsed(SwitchedOn(formal, s, letters), Fine)
    decreases |letters|
  {
    if letters == "" {
    } else {
      assert IsSwitch(formal, letters[0]);
      ExpandSwitches(formal, SetTo(s, [letters[0]], formal[[letters[0]]].key, "true"), letters[1..]);
    }
  }

  lemma {:induction false} LastIsOn(formal: Formal, s: Progress, letters: string)
    requires letters != "" && AllSwitches(formal, letters)
    ensures IsSwitch(formal, letters[|letters| - 1])
    ensures var key := formal[[letters[|letters| - 1]]].key;
            key in SwitchedOn(formal, s, letters).values && SwitchedOn(formal, s, letters).values[key] == "true"
    decreases |letters|
  {
    assert IsSwitch(formal, letters[0]);
    var s1 := SetTo(s, [letters[0]], formal[[letters[0]]].key, "true");
    if |letters| == 1 {
      assert SwitchedOn(formal, s1, letters[1..]) == s1;
    } else {
      LastIsOn(formal, s1, letters[1..]);
    }
  }

  /** Whatever value follows a cluster of switches, even "false": its last flag is set to true like the others. */
  lemma ClusterIgnoresValue(formal: Formal, s: Progress, letters: string, value: string, rest: seq<string>)
    requires |letters| > 1 && AllSwitches(formal, letters) && letters !in formal && letters != "help"
    requires TrimQuotes(value).Some?
    ensures IsSwitch(formal, letters[|letters| - 1])
    ensures var on, key := SwitchedOn(formal, s.(args := rest), letters), formal[[letters[|letters| - 1]]].key;
            && ParseAll(formal, s.(args := ["-" + letters + "=" + value] + rest)) == ParseAll(formal, on)
            && key in on.values && on.values[key] == "true"
  {
    forall i | 0 <= i < |letters|
      ensures letters[i] != '=' && letters[i] != '-'
    {
      assert IsSwitch(formal, letters[i]);
    }
    UndefinedDropsValue(formal, s, letters, value, rest);
    ClusterRetries(formal, s, letters, rest);
    ExpandSwitches(formal, s.(args := rest), letters);
    LastIsOn(formal, s.(args := rest), letters);
  }

  /** A switch given alone takes the value that follows it. */
  lemma SwitchTakesValue(formal: Formal, s: Progress, c: char, value: string, rest: seq<string>)
    requires IsSwitch(formal, c) && TrimQuotes(value).Some? && formal[[c]].accepts(TrimQuotes(value).value)
    ensures ParseAll(formal, s.(args := ["-" + [c] + "=" + value] + rest))
            == ParseAll(formal, SetTo(s.(args := rest), [c], formal[[c]].key, TrimQuotes(value).value))
  {
    var arg := "-" + [c] + "=" + value;
    SyntaxOfValue([c], value);
    FrontArg(formal, s, arg, rest);
    ParseStep(formal, s.(args := [arg] + rest));
  }

  lemma NextArg(formal: Formal, s: Progress, name: string, v: string, rest: seq<string>)
    requires name in formal && !formal[name].boolean && name != "" && name != "-" && '=' !in name
    ensures ParseOneOf(formal, s.(args := ["-" + name, v] + rest)) == Apply(formal, s.(args := rest), name, Some(v))
  {
    SyntaxOfName(name);
    assert ["-" + name, v] + rest == ["-" + name] + ([v] + rest);
    FrontArg(formal, s, "-" + name, [v] + rest);
    assert ([v] + rest)[1..] == rest;
  }

  lemma SyntaxOfValue(name: string, value: string)
    requires name != "" && '=' !in name
    ensures SyntaxOf("-" + name + "=" + value) ==
              match TrimQuotes(value) case None => LoneQuote case Some(v) => Named(name, Some(v))
  {
    var arg := "-" + name + "=" + value;
    assert arg[1..] == name + "=" + value;
    EqualsAt(name, value);
    assert (name + "=" + value)[..|name|] == name && (name + "=" + value)[|name| + 1..] == value;
    assert name[0] in name && arg[1] == name[0];
  }

  lemma EqualsAt(name: string, value: string)
    requires '=' !in name
    ensures IndexOf(name + "=" + value, '=') == |name|
  {
    var body := name + "=" + value;
    assert body[|name|] == '=';
    assert forall i :: 0 <= i < |name| ==> body[i] == name[i];
  }
}
