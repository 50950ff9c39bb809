/** Splitting and joining of slash-separated paths (`pkg/graphdb/utils.go`). */
module GraphPaths {
  /** `strings.Split(p, "/")`. */
  function Split(p: string): (parts: seq<string>)
    ensures parts != []
  {
    if p == "" then [""]
    else
      var rest := Split(p[1..]);
      if p[0] == '/' then [""] + rest else [[p[0]] + rest[0]] + rest[1..]
  }

  function NonEmpty(parts: seq<string>): (comps: seq<string>)
    ensures "" !in comps
  {
    if parts == [] then []
    else (if parts[0] == "" then [] else [parts[0]]) + NonEmpty(parts[1..])
  }

  /** The steps that a lookup of `p` takes: the parts after the first slash, empty ones skipped. */
  function Components(p: string): (comps: seq<string>)
    ensures "" !in comps
  {
    NonEmpty(Split(p)[1..])
  }

  /** The length of the longest prefix that ends in a slash. */
  function DirLength(p: string): (n: nat)
    ensures n <= |p|
    ensures n > 0 ==> p[n - 1] == '/'
    ensures '/' !in p[n..]
  {
    if p == "" then 0
    else if p[|p| - 1] == '/' then |p|
    else DirLength(p[..|p| - 1])
  }

  /** The path of the parent, without its trailing slash, and the last component. */
  function SplitPath(p: string): (parts: (string, string))
    requires p != ""
    ensures '/' !in parts.1
  {
    var q := if p[0] != '/' then "/" + p else p;
    var n := DirLength(q);
    var parent := q[..n];
    (if n > 0 && parent[n - 1] == '/' then parent[..n - 1] else parent, q[n..])
  }

  /** A component that a lookup treats as one step. */
  predicate IsComponent(c: string) {
    c != "" && '/' !in c
  }

  /** The path with the given components; the root without any is the empty string. */
  function Raw(comps: seq<string>): string {
    if comps == [] then "" else Raw(comps[..|comps| - 1]) + "/" + comps[|comps| - 1]
  }

  function Render(comps: seq<string>): string {
    if comps == [] then "/" else Raw(comps)
  }

  lemma {:induction false} SplitWord(c: string)
    requires '/' !in c
    ensures Split(c) == [c]
  {
    if c == "" {
    } else {
      SplitWord(c[1..]);
      assert [c[0]] + c[1..] == c;
    }
  }

  lemma {:induction false} SplitAppend(p: string, c: string)
    requires '/' !in c
    ensures Split(p + "/" + c) == Split(p) + [c]
  {
    if p == "" {
      assert "" + "/" + c == "/" + c;
      assert ("/" + c)[1..] == c;
      SplitWord(c);
    } else {
      assert (p + "/" + c)[1..] == p[1..] + "/" + c;
      SplitAppend(p[1..], c);
    }
  }

  lemma {:induction false} NonEmptyAppend(a: seq<string>, b: seq<string>)
    ensures NonEmpty(a + b) == NonEmpty(a) + NonEmpty(b)
  {
    if a == [] {
      assert a + b == b;
    } else {
      assert (a + b)[1..] == a[1..] + b;
      NonEmptyAppend(a[1..], b);
    }
  }

  /** A lookup of a rendered path takes exactly its components. */
  lemma {:induction false} ComponentsOfRaw(comps: seq<string>)
    requires forall c :: c in comps ==> IsComponent(c)
    ensures Components(Raw(comps)) == comps
  {
    if comps == [] {
    } else {
      var init, last := comps[..|comps| - 1], comps[|comps| - 1];
      assert IsComponent(last) by { assert last in comps; }
      ComponentsOfRaw(init);
      SplitAppend(Raw(init), last);
      NonEmptyAppend(Split(Raw(init))[1..], [last]);
      assert (Split(Raw(init)) + [last])[1..] == Split(Raw(init))[1..] + [last];
      assert NonEmpty([last]) == [last];
    }
  }

  lemma ComponentsOfRender(comps: seq<string>)
    requires forall c :: c in comps ==> IsComponent(c)
    ensures Components(Render(comps)) == comps
  {
    if comps == [] {
      assert "/"[1..] == "";
    } else {
      ComponentsOfRaw(comps);
    }
  }

  lemma {:induction false} AbsoluteHasDir(p: string)
    requires p != "" && p[0] == '/'
    ensures DirLength(p) > 0
  {
    if p[|p| - 1] == '/' {
    } else {
      AbsoluteHasDir(p[..|p| - 1]);
    }
  }

  /** A lookup of an absolute path walks to its parent and takes the last component, if it is not empty. */
  lemma AbsoluteSplit(p: string)
    requires p != "" && p[0] == '/'
    ensures Components(p) == Components(SplitPath(p).0) + NonEmpty([SplitPath(p).1])
  {
    AbsoluteHasDir(p);
    var (parent, name) := SplitPath(p);
    assert p == parent + "/" + name;
    SplitAppend(parent, name);
    assert (Split(parent) + [name])[1..] == Split(parent)[1..] + [name];
    NonEmptyAppend(Split(parent)[1..], [name]);
  }
}
