/** Branches, open pull requests, and what commits the refs of a repository keep reachable. */
module Branches {
  import opened Options

  type Sha = string

  /** A named tip: a branch as observed, or one end of a pull request. */
  datatype Tip = Tip(name: string, sha: Sha)

  datatype Branch = Branch(name: string, sha: Sha, isProtected: bool)

  /** The head is absent when it lives in another repository. */
  datatype OpenPullRequest = OpenPullRequest(head: Option<Tip>, base: Tip)

  function OpenNames(refs: seq<OpenPullRequest>): set<string> {
    (set r | r in refs :: r.base.name) + (set r | r in refs && r.head.Some? :: r.head.value.name)
  }

  /** For every commit, what it reaches. Commits are immutable, so this never changes. */
  type History = Sha -> set<Sha>

  ghost predicate IsHistory(h: History) {
    && (forall c :: c in h(c))
    && (forall c, d {:trigger h(d), h(c)} :: d in h(c) ==> h(d) <= h(c))
  }
}
