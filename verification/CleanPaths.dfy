/** `path.Clean` and `path.Join`, which the listing of the graph puts its paths together with. */
module CleanPaths {
  import opened GraphPaths

  /** A cleaned path: whether it starts at the root, and its parts. */
  datatype Shape = Shape(rooted: bool, stack: seq<string>)

  predicate Rooted(p: string) {
    p != "" && p[0] == '/'
  }

  predicate IsPlain(name: string) {
    name != "" && name != "." && name != ".."
  }

  /** One more part: empty ones and dots vanish, two dots climb where that is possible. */
  function PushPart(c: Shape, part: string): Shape {
    if part == "" || part == "." then c
    else if part != ".." then c.(stack := c.stack + [part])
    else if c.stack != [] && c.stack[|c.stack| - 1] != ".." then c.(stack := c.stack[..|c.stack| - 1])
    else if c.rooted then c
    else c.(stack := c.stack + [part])
  }

  function PushAll(c: Shape, parts: seq<string>): Shape {
    if parts == [] then c else PushPart(PushAll(c, parts[..|parts| - 1]), parts[|parts| - 1])
  }

  function ShapeOf(p: string): Shape {
    PushAll(Shape(Rooted(p), []), Split(p))
  }

  function Text(c: Shape): string {
    if c.stack == [] then if c.rooted then "/" else "."
    else if c.rooted then Raw(c.stack)
    else Relative(c.stack)
  }

  function Relative(comps: seq<string>): string
    requires comps != []
  {
    if |comps| == 1 then comps[0] else Relative(comps[..|comps| - 1]) + "/" + comps[|comps| - 1]
  }

  /** `path.Clean`. */
  function Clean(p: string): string {
    Text(ShapeOf(p))
  }

  /** `path.Join` of two elements: an empty first one is left out. */
  function Join(name: string, elem: string): string {
    if name != "" then Clean(name + "/" + elem) else if elem != "" then Clean(elem) else ""
  }

  /** The steps that a lookup of a path of this shape takes: without a root, the first part is not looked at. */
  function Lead(c: Shape): seq<string> {
    if c.rooted || c.stack == [] then c.stack else c.stack[1..]
  }

  /** What cleaning leaves: no empty parts, no dots, two dots only at the front of a path without a root. */
  ghost predicate Normal(c: Shape) {
    && (forall x :: x in c.stack ==> x != "" && x != "." && '/' !in x)
    && (c.rooted ==> ".." !in c.stack)
    && (forall k :: 0 < k < |c.stack| && c.stack[k] == ".." ==> c.stack[k - 1] == "..")
  }

  lemma {:induction false} SplitParts(p: string)
    ensures forall part :: part in Split(p) ==> '/' !in part
  {
    if p == "" {
    } else {
      SplitParts(p[1..]);
      var rest := Split(p[1..]);
      assert rest[0] in rest && forall part :: part in rest[1..] ==> part in rest;
    }
  }

  lemma NormalPush(c: Shape, part: string)
    requires Normal(c) && '/' !in part
    ensures Normal(PushPart(c, part))
  {
    var n := |c.stack|;
    if n > 0 {
      assert c.stack == c.stack[..n - 1] + [c.stack[n - 1]];
      assert c.stack[n - 1] in c.stack;
    }
  }

  lemma {:induction false} NormalAll(c: Shape, parts: seq<string>)
    requires Normal(c) && forall part :: part in parts ==> '/' !in part
    ensures Normal(PushAll(c, parts))
  {
    if parts == [] {
    } else {
      NormalAll(c, parts[..|parts| - 1]);
      NormalPush(PushAll(c, parts[..|parts| - 1]), parts[|parts| - 1]);
    }
  }

  lemma NormalShape(p: string)
    ensures Normal(ShapeOf(p))
  {
    SplitParts(p);
    NormalAll(Shape(Rooted(p), []), Split(p));
  }

  lemma NormalInit(c: Shape)
    requires Normal(c) && c.stack != []
    ensures Normal(c.(stack := c.stack[..|c.stack| - 1]))
  {
    var init := c.stack[..|c.stack| - 1];
    assert forall x :: x in init ==> x in c.stack;
  }

  /** Clean parts are pushed as they are. */
  lemma {:induction false} PushNormal(c: Shape, front: seq<string>)
    requires Normal(c) && PushAll(Shape(c.rooted, []), front) == Shape(c.rooted, [])
    ensures PushAll(Shape(c.rooted, []), front + c.stack) == c
    decreases |c.stack|
  {
    if c.stack == [] {
      assert front + [] == front;
    } else {
      var n := |c.stack|;
      var init, last := c.stack[..n - 1], c.stack[n - 1];
      assert c.stack == init + [last] && last in c.stack;
      NormalInit(c);
      PushNormal(c.(stack := init), front);
      assert (front + c.stack)[..|front + c.stack| - 1] == front + init;
    }
  }

  lemma {:induction false} SplitRaw(comps: seq<string>)
    requires forall x :: x in comps ==> '/' !in x
    ensures Split(Raw(comps)) == [""] + comps
  {
    if comps == [] {
      assert [""] + comps == [""];
    } else {
      var init, last := comps[..|comps| - 1], comps[|comps| - 1];
      assert comps == init + [last] && last in comps;
      SplitRaw(init);
      SplitAppend(Raw(init), last);
      assert [""] + init + [last] == [""] + comps;
    }
  }

  lemma {:induction false} SplitRelative(comps: seq<string>)
    requires comps != [] && forall x :: x in comps ==> '/' !in x
    ensures Split(Relative(comps)) == comps
  {
    if |comps| == 1 {
      SplitWord(comps[0]);
    } else {
      var init, last := comps[..|comps| - 1], comps[|comps| - 1];
      assert comps == init + [last] && last in comps;
      SplitRelative(init);
      SplitAppend(Relative(init), last);
    }
  }

  lemma {:induction false} RelativeStarts(comps: seq<string>)
    requires comps != [] && comps[0] != ""
    ensures Relative(comps) != "" && Relative(comps)[0] == comps[0][0]
  {
    if |comps| == 1 {
    } else {
      RelativeStarts(comps[..|comps| - 1]);
    }
  }

  lemma {:induction false} RawStarts(comps: seq<string>)
    requires comps != []
    ensures Rooted(Raw(comps))
  {
    if |comps| == 1 {
      assert Raw(comps[..0]) == "";
    } else {
      RawStarts(comps[..|comps| - 1]);
    }
  }

  lemma SplitText(c: Shape)
    requires Normal(c)
    ensures Rooted(Text(c)) == c.rooted
    ensures Split(Text(c)) == if c.stack == [] then if c.rooted then ["", ""] else ["."]
                              else if c.rooted then [""] + c.stack else c.stack
  {
    if c.stack == [] {
      assert "/"[1..] == "" && "."[1..] == "";
      SplitWord(".");
    } else if c.rooted {
      SplitRaw(c.stack);
      RawStarts(c.stack);
    } else {
      assert c.stack[0] in c.stack;
      SplitRelative(c.stack);
      RelativeStarts(c.stack);
      assert c.stack[0][0] in c.stack[0];
    }
  }

  /** Cleaning a clean path changes nothing. */
  lemma ShapeOfText(c: Shape)
    requires Normal(c)
    ensures ShapeOf(Text(c)) == c
  {
    SplitText(c);
    var start := Shape(c.rooted, []);
    assert PushAll(start, []) == start;
    assert [""][..0] == [] && ["", ""][..1] == [""] && ["."][..0] == [];
    assert PushAll(start, [""]) == start;
    if c.stack == [] {
    } else if c.rooted {
      PushNormal(c, [""]);
    } else {
      PushNormal(c, []);
      assert [] + c.stack == c.stack;
    }
  }

  lemma {:induction false} AllNonEmpty(comps: seq<string>)
    requires "" !in comps
    ensures NonEmpty(comps) == comps
  {
    if comps == [] {
    } else {
      assert comps[0] in comps && forall x :: x in comps[1..] ==> x in comps;
      AllNonEmpty(comps[1..]);
      assert comps == [comps[0]] + comps[1..];
    }
  }

  /** A lookup of a clean path. */
  lemma ComponentsOfText(c: Shape)
    requires Normal(c)
    ensures Components(Text(c)) == Lead(c)
  {
    SplitText(c);
    assert forall x :: x in Lead(c) ==> x in c.stack;
    AllNonEmpty(Lead(c));
    assert ["", ""][1..] == [""] && ["."][1..] == [];
    assert ([""] + c.stack)[1..] == c.stack;
  }

  lemma ShapeOfEmpty()
    ensures ShapeOf("") == Shape(false, [])
  {
    assert [""][..0] == [];
  }

  lemma ShapeOfWord(elem: string)
    requires '/' !in elem
    ensures ShapeOf(elem) == PushPart(Shape(false, []), elem)
  {
    SplitWord(elem);
    assert !Rooted(elem) by {
      assert elem != "" ==> elem[0] in elem;
    }
    assert [elem][..0] == [] && [elem][0] == elem;
    assert PushAll(Shape(false, []), []) == Shape(false, []);
  }

  lemma ShapeOfMore(name: string, elem: string)
    requires name != "" && '/' !in elem
    ensures ShapeOf(name + "/" + elem) == PushPart(ShapeOf(name), elem)
  {
    SplitAppend(name, elem);
    assert (Split(name) + [elem])[..|Split(name)|] == Split(name);
  }

  /** Joining a name pushes it; a lookup of the joined path takes the steps of the result. */
  lemma JoinPushes(name: string, elem: string)
    requires '/' !in elem
    ensures ShapeOf(Join(name, elem)) == PushPart(ShapeOf(name), elem)
    ensures Components(Join(name, elem)) == Lead(PushPart(ShapeOf(name), elem))
  {
    ShapeOfEmpty();
    if name == "" && elem == "" {
    } else {
      var p := if name == "" then elem else name + "/" + elem;
      if name == "" {
        ShapeOfWord(elem);
      } else {
        ShapeOfMore(name, elem);
      }
      NormalShape(p);
      ShapeOfText(ShapeOf(p));
      ComponentsOfText(ShapeOf(p));
    }
  }

  lemma {:induction false} RootStays(c: Shape, parts: seq<string>)
    ensures PushAll(c, parts).rooted == c.rooted
  {
    if parts == [] {
    } else {
      RootStays(c, parts[..|parts| - 1]);
    }
  }

  lemma RootedShape(p: string)
    ensures ShapeOf(p).rooted == Rooted(p)
  {
    RootStays(Shape(Rooted(p), []), Split(p));
  }

  /** A plain part is one more step, if there is a root or a first part to follow. */
  lemma LeadPlain(c: Shape, part: string)
    requires IsPlain(part)
    ensures Lead(PushPart(c, part)) == if c.rooted || c.stack != [] then Lead(c) + [part] else []
    ensures PushPart(c, part).stack != []
  {
    if c.rooted {
    } else if c.stack == [] {
      assert ([] + [part])[1..] == [];
    } else {
      assert (c.stack + [part])[1..] == c.stack[1..] + [part];
    }
  }

  /** Any other part leads nowhere new under a root: it stays or climbs. */
  lemma LeadDotted(c: Shape, part: string)
    requires Normal(c) && c.rooted && !IsPlain(part)
    ensures Lead(PushPart(c, part)) ==
              if part == ".." && c.stack != [] then c.stack[..|c.stack| - 1] else c.stack
  {
    assert c.stack != [] ==> c.stack[|c.stack| - 1] in c.stack;
  }
}
