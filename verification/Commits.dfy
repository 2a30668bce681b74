/** Commits as git knows them: a commit names its content, so it is the value of that content - its parents
    and the gitlinks of its tree - and ancestry is structural. */
module Commits {
  import opened DependencyOrder

  /** A gitlink: `child` is the workspace repository it maps to, or "" for an external one. */
  datatype Link = Link(path: string, sha: Commit, child: Repo, url: string)

  /** `note` stands for everything else a commit hash depends on. */
  datatype Commit = Commit(note: nat, parents: seq<Commit>, links: seq<Link>)

  /** The workspace repositories a tree links to. */
  function Children(links: seq<Link>): seq<Repo> {
    seq(|links|, k requires 0 <= k < |links| => links[k].child)
  }

  /** `git merge-base --is-ancestor`. */
  predicate Ancestor(older: Commit, newer: Commit)
    decreases newer
  {
    older == newer || exists i :: 0 <= i < |newer.parents| && Ancestor(older, newer.parents[i])
  }

  lemma {:induction false} AncestorTransitive(a: Commit, b: Commit, c: Commit)
    requires Ancestor(a, b) && Ancestor(b, c)
    ensures Ancestor(a, c)
    decreases c
  {
    if b != c {
      var i :| 0 <= i < |c.parents| && Ancestor(b, c.parents[i]);
      AncestorTransitive(a, b, c.parents[i]);
    }
  }

  lemma {:induction false} AncestorIsSmaller(a: Commit, b: Commit)
    requires Ancestor(a, b)
    ensures a == b || a < b
    decreases b
  {
    if a != b {
      var i :| 0 <= i < |b.parents| && Ancestor(a, b.parents[i]);
      AncestorIsSmaller(a, b.parents[i]);
      assert b.parents[i] < b;
    }
  }

  /** History has no cycles. */
  lemma AncestorAntisymmetric(a: Commit, b: Commit)
    requires Ancestor(a, b) && Ancestor(b, a)
    ensures a == b
  {
    AncestorIsSmaller(a, b);
    AncestorIsSmaller(b, a);
  }
}
