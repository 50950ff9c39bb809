/** Image names of the form repository:tag (`pkg/parsers/parsers.go`). */
module RepoTags {
  /** `strings.LastIndex(s, c)`. */
  function LastIndex(s: string, c: char): (n: int)
    ensures -1 <= n < |s|
    ensures n >= 0 ==> s[n] == c && c !in s[n + 1..]
    ensures n < 0 ==> c !in s
  {
    if s == "" then -1
    else if s[|s| - 1] == c then |s| - 1
    else LastIndex(s[..|s| - 1], c)
  }

  function ParseRepositoryTag(repos: string): (string, string) {
    var n := LastIndex(repos, ':');
    if n < 0 then (repos, "")
    else if '/' !in repos[n + 1..] then (repos[..n], repos[n + 1..])
    else (repos, "")
  }

  function JoinTag(repo: string, tag: string): string {
    repo + ":" + tag
  }

  /** Parsing undoes the join exactly for tags without a colon or a slash, whatever the repository
      (which may hold a port). */
  lemma ParseUndoesJoin(repo: string, tag: string)
    ensures ParseRepositoryTag(JoinTag(repo, tag)) == (repo, tag) <==> ':' !in tag && '/' !in tag
  {
    var s := JoinTag(repo, tag);
    var n := LastIndex(s, ':');
    assert s[|repo|] == ':';
    assert n >= 0;
    if ':' !in tag {
      assert n == |repo|;
      assert s[..n] == repo && s[n + 1..] == tag;
    } else {
      assert ':' !in s[n + 1..];
    }
  }

  /** A tag in the form the tag store accepts. */
  predicate ValidTag(tag: string) {
    tag != "" && ':' !in tag && '/' !in tag
  }

  predicate Contains(s: string, part: string) {
    exists k :: 0 <= k <= |s| && part <= s[k..]
  }

  lemma ContainsSelf(s: string)
    ensures Contains(s, s)
  {
    assert s <= s[0..];
  }
}
