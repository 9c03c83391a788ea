/** The names of audit worktrees in the temporary directory
    (crates/cli/src/base_worktree.rs). */
module WorktreeNames {
  import opened Wrappers
  import Decimals
  import opened Text

  const BASE_PREFIX: string := "fallow-audit-base-"
  const CACHE_PREFIX: string := "fallow-audit-base-cache-"
  const U32_MAX: nat := 0xFFFF_FFFF

  /** The name of the reusable worktree for a commit: only a prefix of the commit
      id goes into it, so different commits may share one. */
  function CacheName(repoHash: string, sha: string): string {
    CACHE_PREFIX + repoHash + "-" + (if |sha| >= 16 then sha[..16] else sha)
  }

  function TransientName(pid: nat, nanos: nat): string {
    BASE_PREFIX + Decimals.Print(pid) + "-" + Decimals.Print(nanos)
  }

  predicate IsFallow(name: string) {
    StartsWith(name, BASE_PREFIX)
  }

  predicate IsReusable(name: string) {
    StartsWith(name, CACHE_PREFIX)
  }

  predicate IsDash(c: char) {
    c == '-'
  }

  /** The process id in a worktree name, if there is one. */
  function WorktreePid(name: string): Option<nat> {
    if !StartsWith(name, BASE_PREFIX) then None
    else Decimals.Parse(UpTo(name[|BASE_PREFIX|..], IsDash), U32_MAX)
  }

  lemma {:induction false} UpToDashOfWord(word: string, rest: string)
    requires '-' !in word
    ensures UpTo(word + "-" + rest, IsDash) == word
    decreases |word|
  {
    var s := word + "-" + rest;
    if word != [] {
      UpToDashOfWord(word[1..], rest);
      assert s[1..] == word[1..] + "-" + rest;
    }
  }

  lemma PrefixAt(s: string, prefix: string, k: nat)
    requires k < |prefix|
    ensures StartsWith(s, prefix) ==> s[k] == prefix[k]
  {
    if StartsWith(s, prefix) {
      assert s[k] == s[..|prefix|][k];
    }
  }

  /** A transient name gives back the id of the process that made it. */
  lemma TransientNameHasPid(pid: nat, nanos: nat)
    requires pid <= U32_MAX
    ensures WorktreePid(TransientName(pid, nanos)) == Some(pid)
    ensures IsFallow(TransientName(pid, nanos)) && !IsReusable(TransientName(pid, nanos))
  {
    var digits := Decimals.Print(pid);
    var name := TransientName(pid, nanos);
    Decimals.PrintIsNumeral(pid);
    Decimals.ParsePrint(pid, U32_MAX);
    assert name[|BASE_PREFIX|..] == digits + "-" + Decimals.Print(nanos);
    UpToDashOfWord(digits, Decimals.Print(nanos));
    assert name[|BASE_PREFIX|] == digits[0];
    assert CACHE_PREFIX[|BASE_PREFIX|] == 'c';
    PrefixAt(name, CACHE_PREFIX, |BASE_PREFIX|);
  }

  /** A cache name never parses as a process id. */
  lemma ReusableNameHasNoPid(name: string)
    requires IsReusable(name)
    ensures IsFallow(name) && WorktreePid(name) == None
  {
    var rest := name[|BASE_PREFIX|..];
    assert CACHE_PREFIX == BASE_PREFIX + "cache" + "-";
    assert name[..|BASE_PREFIX|] == name[..|CACHE_PREFIX|][..|BASE_PREFIX|] == BASE_PREFIX;
    assert rest == "cache" + "-" + name[|CACHE_PREFIX|..] by {
      assert name == CACHE_PREFIX + name[|CACHE_PREFIX|..];
    }
    UpToDashOfWord("cache", name[|CACHE_PREFIX|..]);
    assert "cache"[0] == 'c';
  }

  lemma CacheNameIsReusable(repoHash: string, sha: string)
    ensures IsReusable(CacheName(repoHash, sha)) && IsFallow(CacheName(repoHash, sha))
  {
    ReusableNameHasNoPid(CacheName(repoHash, sha));
  }

  /** The cache entries of two commits are one exactly when the repositories hash alike
      and the first sixteen characters of the commit ids agree. */
  lemma CacheNamesAgreeIff(h: string, sha: string, g: string, other: string)
    requires |h| == |g| && |sha| >= 16 && |other| >= 16
    ensures CacheName(h, sha) == CacheName(g, other) <==> h == g && sha[..16] == other[..16]
  {
    var a, b := CacheName(h, sha), CacheName(g, other);
    var n := |CACHE_PREFIX|;
    assert a[n..n + |h|] == h && b[n..n + |g|] == g;
    assert a[n + |h| + 1..] == sha[..16] && b[n + |g| + 1..] == other[..16];
  }

  /** Two transient names agree exactly when pid and time do. */
  lemma TransientNamesAgreeIff(pid: nat, nanos: nat, other: nat, later: nat)
    ensures TransientName(pid, nanos) == TransientName(other, later) <==> pid == other && nanos == later
  {
    Decimals.PrintIsNumeral(pid);
    Decimals.PrintIsNumeral(other);
    Decimals.PrintIsNumeral(nanos);
    Decimals.PrintIsNumeral(later);
    var p, q, s, t := Decimals.Print(pid), Decimals.Print(other), Decimals.Print(nanos), Decimals.Print(later);
    hide Decimals.Print;
    if TransientName(pid, nanos) == TransientName(other, later) {
      assert TransientName(pid, nanos)[|BASE_PREFIX|..] == p + "-" + s;
      assert TransientName(other, later)[|BASE_PREFIX|..] == q + "-" + t;
      FirstSplit(p, q, s, t, '-');
    }
  }

  lemma ReusableIsFallow(name: string)
    requires IsReusable(name)
    ensures IsFallow(name)
  {
    assert CACHE_PREFIX[..|BASE_PREFIX|] == BASE_PREFIX;
    assert name[..|BASE_PREFIX|] == name[..|CACHE_PREFIX|][..|BASE_PREFIX|];
  }
}
