/** Where the links of a topic end after integration (scripts/workspace.ts), told from what is known before it. */
module SquashLinks {
  import opened Wrappers
  import opened DependencyOrder
  import opened Commits
  import opened Squash
  import Prepare

  /** The checks made before any worktree exists: a changed link names the child's topic head, and that
      child descends from its frozen base. */
  predicate Validated(plans: seq<Plan>) {
    forall i, k :: 0 <= i < |plans| && 0 <= k < |plans[i].tip.links| ==>
                     var link := plans[i].tip.links[k];
                     var c := Position(plans, link.child);
                     link.child != "" && c < |plans| && !Unchanged(plans[i], link) ==>
                       link.sha == plans[c].tip && Ancestor(plans[c].base, plans[c].tip)
  }

  /** What is assumed of git.  A base below the topic is their merge ancestor, and merging the topic then gives
      the topic's tree.  A pin the topic did not touch stays as the target has it. */
  ghost predicate GitMerges(plan: Plan, m: Merge) {
    && (Ancestor(plan.base, plan.tip) ==> plan.ancestor == plan.base && m.links == plan.tip.links)
    && (plan.base == plan.tip ==> !m.files)
    && forall k :: 0 <= k < |plan.tip.links| && Unchanged(plan, plan.tip.links[k]) ==>
                     PinAt(m.links, plan.tip.links[k].path) == PinAt(plan.base.links, plan.tip.links[k].path)
  }

  /** The inputs of a run of `merge` that got past its checks. */
  ghost predicate Ready(plans: seq<Plan>, merges: seq<Merge>) {
    && |merges| == |plans| && InOrder(plans) && Validated(plans)
    && (forall i :: 0 <= i < |plans| ==> DistinctPaths(plans[i].tip.links) && GitMerges(plans[i], merges[i]))
  }

  /** The link names the topic head of a repository of the workspace. */
  predicate NamesTopicHead(plans: seq<Plan>, link: Link) {
    var c := Position(plans, link.child);
    link.child != "" && c < |plans| && link.sha == plans[c].tip
  }

  // ----- when integration leaves a repository at its topic head

  /** There is nothing to squash, or the topic is the very commit the squash would make. */
  predicate TipIsSquash(plan: Plan, m: Merge) {
    || plan.tip == plan.base
    || (plan.tip.parents == [plan.base] && plan.tip.note == m.note && (plan.tip.links != plan.base.links || m.files))
  }

  /** And every child it pins at its topic head stays there as well. */
  predicate KeepsTip(plans: seq<Plan>, merges: seq<Merge>, i: nat)
    requires i < |plans| == |merges|
    decreases i
  {
    && TipIsSquash(plans[i], merges[i])
    && forall k :: 0 <= k < |plans[i].tip.links| ==>
                     var link := plans[i].tip.links[k];
                     var c := Position(plans, link.child);
                     NamesTopicHead(plans, link) && c < i ==> KeepsTip(plans, merges, c)
  }

  lemma {:induction false} PinOfLink(links: seq<Link>, k: nat)
    requires DistinctPaths(links) && k < |links|
    ensures PinAt(links, links[k].path) == Some(links[k].sha)
  {
    if k > 0 {
      assert links[1..][k - 1] == links[k];
      PinOfLink(links[1..], k - 1);
    }
  }

  lemma {:induction false} SetSame(links: seq<Link>, path: string, sha: Commit)
    requires forall j :: 0 <= j < |links| && links[j].path == path ==> links[j].sha == sha
    ensures Prepare.SetPin(links, path, sha) == links
  {
    if links != [] {
      SetSame(links[1..], path, sha);
    }
  }

  lemma PutSame(links: seq<Link>, k: nat)
    requires DistinctPaths(links) && k < |links|
    ensures PutPin(links, links[k], links[k].sha) == links
  {
    PinOfLink(links, k);
    SetSame(links, links[k].path, links[k].sha);
  }

  /** Rewriting changes nothing when every rewritten link already pins the child's integration. */
  lemma {:induction false} RewriteNothing(plans: seq<Plan>, merged: map<Repo, Commit>, plan: Plan, n: nat)
    requires n <= |plan.tip.links| && DistinctPaths(plan.tip.links)
    requires forall k :: 0 <= k < |plan.tip.links| ==> RewriteIsIdle(plans, merged, plan, plan.tip.links[k])
    ensures RewriteFirst(plans, merged, plan, plan.tip.links, n) == plan.tip.links
  {
    if n > 0 {
      RewriteNothing(plans, merged, plan, n - 1);
      assert RewriteIsIdle(plans, merged, plan, plan.tip.links[n - 1]);
      PutSame(plan.tip.links, n - 1);
    }
  }

  ghost predicate RewriteIsIdle(plans: seq<Plan>, merged: map<Repo, Commit>, plan: Plan, link: Link) {
    Rewritten(plans, merged, plan, link) && link.child in merged ==> merged[link.child] == link.sha
  }

  lemma IdleExactly(plans: seq<Plan>, merged: map<Repo, Commit>, plan: Plan)
    requires DistinctPaths(plan.tip.links)
    ensures RewriteAll(plans, merged, plan, plan.tip.links) == plan.tip.links <==>
            forall k :: 0 <= k < |plan.tip.links| ==> RewriteIsIdle(plans, merged, plan, plan.tip.links[k])
  {
    if RewriteAll(plans, merged, plan, plan.tip.links) == plan.tip.links {
      forall k | 0 <= k < |plan.tip.links|
        ensures RewriteIsIdle(plans, merged, plan, plan.tip.links[k])
      {
        RewrittenAt(plans, merged, plan, plan.tip.links, |plan.tip.links|, k);
        PinOfLink(plan.tip.links, k);
      }
    }
    if forall k :: 0 <= k < |plan.tip.links| ==> RewriteIsIdle(plans, merged, plan, plan.tip.links[k]) {
      RewriteNothing(plans, merged, plan, |plan.tip.links|);
    }
  }

  /** A link that names its child's topic head is idle exactly when the child stays there; others are idle. */
  lemma IdleLink(plans: seq<Plan>, merges: seq<Merge>, i: nat, k: nat)
    requires Ready(plans, merges) && i < |plans| && k < |plans[i].tip.links|
    ensures var link := plans[i].tip.links[k];
            var c := Position(plans, link.child);
            && (NamesTopicHead(plans, link) ==> c < i)
            && (RewriteIsIdle(plans, MergedUpTo(plans, merges, i), plans[i], link) <==>
                NamesTopicHead(plans, link) ==> Integration(plans, merges, c) == plans[c].tip)
  {
    SettledEarly(plans, merges, i, k);
  }

  /** The children a repository pins at their topic heads stay there. */
  ghost predicate ChildrenStay(plans: seq<Plan>, merges: seq<Merge>, i: nat)
    requires i < |plans| == |merges|
  {
    forall k :: 0 <= k < |plans[i].tip.links| ==> ChildStays(plans, merges, plans[i].tip.links[k])
  }

  ghost predicate ChildStays(plans: seq<Plan>, merges: seq<Merge>, link: Link)
    requires |plans| == |merges|
  {
    NamesTopicHead(plans, link) ==>
      Integration(plans, merges, Position(plans, link.child)) == plans[Position(plans, link.child)].tip
  }

  lemma IdleMeansChildrenStay(plans: seq<Plan>, merges: seq<Merge>, i: nat)
    requires Ready(plans, merges) && i < |plans|
    ensures RewriteAll(plans, MergedUpTo(plans, merges, i), plans[i], plans[i].tip.links) == plans[i].tip.links <==>
            ChildrenStay(plans, merges, i)
  {
    var m := MergedUpTo(plans, merges, i);
    IdleExactly(plans, m, plans[i]);
    forall k | 0 <= k < |plans[i].tip.links|
      ensures RewriteIsIdle(plans, m, plans[i], plans[i].tip.links[k]) <==> ChildStays(plans, merges, plans[i].tip.links[k])
    {
      IdleLink(plans, merges, i, k);
    }
  }

  lemma BaseIsBelowSquash(x: Commit, base: Commit)
    requires x.parents == [base]
    ensures Ancestor(base, x) && x != base
  {
    assert Ancestor(base, x.parents[0]);
    Prepare.NotItsOwnParent(x);
  }

  lemma StaysExactly(plans: seq<Plan>, merges: seq<Merge>, i: nat)
    requires Ready(plans, merges) && i < |plans|
    ensures Integration(plans, merges, i) == plans[i].tip <==> TipIsSquash(plans[i], merges[i]) && ChildrenStay(plans, merges, i)
  {
    var plan, m := plans[i], merges[i];
    var links := RewriteAll(plans, MergedUpTo(plans, merges, i), plan, m.links);
    IdleMeansChildrenStay(plans, merges, i);
    if plan.tip == plan.base || plan.tip.parents == [plan.base] {
      if plan.tip.parents == [plan.base] {
        BaseIsBelowSquash(plan.tip, plan.base);
      }
      assert Ancestor(plan.base, plan.tip);
      assert m.links == plan.tip.links;
      if plan.tip == plan.base && (links != plan.base.links || m.files) {
        BaseIsBelowSquash(Commit(m.note, [plan.base], links), plan.base);
      }
    }
  }

  /** Whether a repository stays at its topic head can be told before integration begins. */
  lemma {:induction false} KeepsTipExactly(plans: seq<Plan>, merges: seq<Merge>, i: nat)
    requires Ready(plans, merges) && i < |plans|
    ensures Integration(plans, merges, i) == plans[i].tip <==> KeepsTip(plans, merges, i)
    decreases i
  {
    StaysExactly(plans, merges, i);
    forall k | 0 <= k < |plans[i].tip.links|
      ensures var link := plans[i].tip.links[k];
              ChildStays(plans, merges, link) <==>
              (NamesTopicHead(plans, link) && Position(plans, link.child) < i ==> KeepsTip(plans, merges, Position(plans, link.child)))
    {
      var c := Position(plans, plans[i].tip.links[k].child);
      IdleLink(plans, merges, i, k);
      if c < i {
        KeepsTipExactly(plans, merges, c);
      }
    }
  }

  // ----- where the links end

  /** In the map `Integrate` returns every changed link, and every link naming its child's topic head, ends at
      the child's integration commit - except one case the code leaves out: an unchanged link to a child that stays at its topic head.
      That one ends there exactly when the target base already pins it there. */
  lemma TopicLinksFollowIntegration(plans: seq<Plan>, merges: seq<Merge>, i: nat, k: nat)
    requires Ready(plans, merges) && i < |plans| && k < |plans[i].tip.links|
    ensures var link := plans[i].tip.links[k];
            var c := Position(plans, link.child);
            var merged := MergedUpTo(plans, merges, |plans|);
            link.child != "" && c < |plans| && (!RecordedAlike(plans[i].ancestor.links, link) || link.sha == plans[c].tip) ==>
              && link.sha == plans[c].tip && plans[i].name in merged && link.child in merged
              && (PinAt(merged[plans[i].name].links, link.path) == Some(merged[link.child]) <==>
                  || !RecordedAlike(plans[i].ancestor.links, link)
                  || !KeepsTip(plans, merges, c)
                  || PinAt(plans[i].base.links, link.path) == Some(plans[c].tip))
  {
    var link := plans[i].tip.links[k];
    var c := Position(plans, link.child);
    FindExactly(plans[i].ancestor.links, link);
    LinksIntegrated(plans, merges, i, k);
    SettledEarly(plans, merges, i, k);
    MergedHolds(plans, merges, |plans|, i);
    if c < |plans| {
      KeepsTipExactly(plans, merges, c);
      MergedHolds(plans, merges, |plans|, c);
    }
  }

  // ----- the case left out

  function Old(): Commit { Commit(0, [], []) }
  function Head(): Commit { Commit(1, [Old()], []) }

  function PinTo(sha: Commit): Link { Link("psy-node", sha, "psy-node", "") }

  /** The topic pins the child's head; the target has moved its pin back to an older commit meanwhile. */
  function Ancestral(): Commit { Commit(2, [], [PinTo(Head())]) }
  function Topic(): Commit { Commit(3, [Ancestral()], [PinTo(Head())]) }
  function Target(): Commit { Commit(4, [Ancestral()], [PinTo(Old())]) }

  function LeftOutPlans(): seq<Plan> {
    [Plan("psy-node", Head(), Head(), Head()), Plan("psy-sdk", Topic(), Target(), Ancestral())]
  }

  function LeftOutMerges(): seq<Merge> {
    [Merge([], {}, 0, false, 0), Merge([PinTo(Old())], {}, 0, true, 5)]
  }

  lemma LeftOutIsReady()
    ensures Ready(LeftOutPlans(), LeftOutMerges()) && Position(LeftOutPlans(), "psy-node") == 0
  {
    var plans, merges := LeftOutPlans(), LeftOutMerges();
    assert plans[1].tip.links[0] == PinTo(Head());
    assert Unchanged(plans[1], PinTo(Head()));
    assert Position(plans, "psy-node") == 0;
    assert !Ancestor(Target(), Topic()) by {
      assert Topic().parents[0] == Ancestral() && Ancestral().parents == [];
      assert !Ancestor(Target(), Ancestral());
    }
    assert PinAt([PinTo(Old())], "psy-node") == Some(Old());
    assert GitMerges(plans[0], merges[0]) && GitMerges(plans[1], merges[1]);
  }

  /** Nothing stops this integration, the child's integration commit is its topic head, the topic names that
      head, and yet the integration of the parent pins an older commit. */
  lemma UnmovedChildIsLeftBehind()
    ensures var plans, merges := LeftOutPlans(), LeftOutMerges();
            && Ready(plans, merges)
            && (forall i :: 0 <= i < 2 ==> GoesThrough(plans, merges, [false, false], i))
            && NamesTopicHead(plans, plans[1].tip.links[0])
            && var merged := MergedUpTo(plans, merges, 2);
               && "psy-node" in merged && merged["psy-node"] == Head()
               && "psy-sdk" in merged && PinAt(merged["psy-sdk"].links, "psy-node") == Some(Old()) && Old() != Head()
  {
    var plans, merges := LeftOutPlans(), LeftOutMerges();
    LeftOutIsReady();
    assert RewriteAll(plans, map[], plans[0], []) == [];
    KeepsTipExactly(plans, merges, 0);
    MergedHolds(plans, merges, 2, 0);
    MergedHolds(plans, merges, 2, 1);
    LinksIntegrated(plans, merges, 1, 0);
    SettledEarly(plans, merges, 1, 0);
    assert PinAt([PinTo(Old())], "psy-node") == Some(Old());
  }
}
