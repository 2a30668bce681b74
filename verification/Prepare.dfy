/** Planning a local preparation: `buildPreparePlan` (scripts/workspace.ts), and the checks `applyPreparation`
    (scripts/workspace-operations.ts) makes on the order of a plan. */
module Prepare {
  import opened Wrappers
  import opened DependencyOrder
  import opened Commits

  datatype Gitlink = Gitlink(path: string, child: Repo, from: Commit)

  /** A nested checkout: its commit, its branch, and whether it is clean. */
  datatype Nested = Nested(head: Commit, branch: string, clean: bool)

  /** What else a preview freezes of a repository: its branch, the digests of the owned files, with their modes,
      and the nested checkouts. */
  datatype Details = Details(branch: string, files: map<string, string>, nested: map<string, Nested>)

  /** A selected repository as frozen in the preview.  `cargo` says that its manifest pins psy-node. */
  datatype Repository = Repository(name: Repo, head: Commit, gitlinks: seq<Gitlink>, cargo: bool, details: Details)

  const NODE: Repo := "psy-node"

  // ----- gitlinks of a tree

  function PinAt(links: seq<Link>, path: string): Option<Commit> {
    if links == [] then None else if links[0].path == path then Some(links[0].sha) else PinAt(links[1..], path)
  }

  /** `git update-index --cacheinfo 160000`. */
  function SetPin(links: seq<Link>, path: string, sha: Commit): seq<Link> {
    if links == [] then []
    else [if links[0].path == path then links[0].(sha := sha) else links[0]] + SetPin(links[1..], path, sha)
  }

  lemma {:induction false} SetPinAt(links: seq<Link>, path: string, sha: Commit, q: string)
    ensures PinAt(SetPin(links, path, sha), q)
         == if q == path && PinAt(links, path).Some? then Some(sha) else PinAt(links, q)
  {
    if links != [] {
      SetPinAt(links[1..], path, sha, q);
      assert SetPin(links, path, sha)[1..] == SetPin(links[1..], path, sha);
    }
  }

  // ----- planning

  function Dependencies(r: Repository): seq<Repo> {
    seq(|r.gitlinks|, k requires 0 <= k < |r.gitlinks| => r.gitlinks[k].child) + if r.cargo then [NODE] else []
  }

  function NameOf(r: Repository): Repo {
    r.name
  }

  function PlanItems(repos: seq<Repository>): seq<Item<Repository>> {
    Itemized(repos, NameOf, Dependencies)
  }

  ghost predicate DistinctRepositories(repos: seq<Repository>) {
    forall i, j :: 0 <= i < j < |repos| ==> repos[i].name != repos[j].name
  }

  /** What `prepareRepository` records: only links to selected repositories, and a Cargo pin only outside
      psy-node and only when psy-node is selected. */
  ghost predicate Recorded(repos: seq<Repository>) {
    && DistinctRepositories(repos)
    && (forall i, k :: 0 <= i < |repos| && 0 <= k < |repos[i].gitlinks| ==> Position(repos, repos[i].gitlinks[k].child) < |repos|)
    && (forall i :: 0 <= i < |repos| && repos[i].cargo ==> repos[i].name != NODE && Position(repos, NODE) < |repos|)
  }

  function Position(repos: seq<Repository>, name: Repo): (i: nat)
    ensures i <= |repos|
    ensures i < |repos| ==> repos[i].name == name
    ensures forall j :: 0 <= j < i ==> repos[j].name != name
  {
    PositionOf(repos, NameOf, name)
  }

  lemma PlanItemsDistinct(repos: seq<Repository>)
    requires DistinctRepositories(repos)
    ensures DistinctNames(PlanItems(repos))
  {
    assert forall i :: 0 <= i < |repos| ==> NameOf(repos[i]) == repos[i].name;
    ItemizedNames(repos, NameOf, Dependencies);
  }

  /** `buildPreparePlan`: the selected repositories in dependency order, or a cycle. */
  method BuildPreparePlan(repos: seq<Repository>) returns (plan: Option<seq<Repository>>)
    requires DistinctRepositories(repos)
    ensures plan.None? <==> HasCycle(PlanItems(repos))
    ensures plan.Some? ==> Order(PlanItems(repos)).Some? && plan == Some(Values(Order(PlanItems(repos)).value))
  {
    PlanItemsDistinct(repos);
    OrderIsExact(PlanItems(repos));
    var order := OrderedByPending(PlanItems(repos));
    match order
    case Some(items) => plan := Some(Values(items));
    case None => plan := None;
  }

  // ----- the order checks of applyPreparation

  predicate LinkInOrder(plan: seq<Repository>, i: nat, k: nat)
    requires i < |plan| && k < |plan[i].gitlinks|
  {
    Position(plan, plan[i].gitlinks[k].child) <= i
  }

  predicate OrderOk(plan: seq<Repository>, i: nat)
    requires i < |plan|
  {
    && Position(plan, plan[i].name) == i
    && (plan[i].name == NODE ==> forall j :: 0 <= j < i ==> !plan[j].cargo)
    && (forall k :: 0 <= k < |plan[i].gitlinks| ==> LinkInOrder(plan, i, k))
    && (plan[i].cargo ==> Position(plan, NODE) < i)
  }

  /** The checks made on the order before anything is touched. */
  predicate OrderChecks(plan: seq<Repository>) {
    plan != [] && forall i :: 0 <= i < |plan| ==> OrderOk(plan, i)
  }

  lemma PositionIs(plan: seq<Repository>, i: nat)
    requires DistinctRepositories(plan) && i < |plan|
    ensures Position(plan, plan[i].name) == i
  {
  }

  /** The repository stands among the first `n`. */
  ghost predicate NamedBefore(plan: seq<Repository>, n: nat, name: Repo)
    requires n <= |plan|
  {
    exists j :: 0 <= j < n && plan[j].name == name
  }

  lemma PositionBefore(plan: seq<Repository>, n: nat, name: Repo)
    requires n <= |plan|
    ensures Position(plan, name) < n <==> NamedBefore(plan, n, name)
  {
    if NamedBefore(plan, n, name) {
      var j :| 0 <= j < n && plan[j].name == name;
    }
  }

  /** What the checks amount to: there is a repository, none is listed twice, every link leads to one listed no later,
      and a Cargo pin has psy-node listed before. */
  lemma OrderChecksExactly(plan: seq<Repository>)
    ensures OrderChecks(plan) <==>
            && |plan| > 0 && DistinctRepositories(plan)
            && (forall i, k :: 0 <= i < |plan| && 0 <= k < |plan[i].gitlinks| ==> NamedBefore(plan, i + 1, plan[i].gitlinks[k].child))
            && (forall i :: 0 <= i < |plan| && plan[i].cargo ==> NamedBefore(plan, i, "psy-node"))
  {
    if OrderChecks(plan) {
      ChecksMean(plan);
    }
    if && |plan| > 0 && DistinctRepositories(plan)
       && (forall i, k :: 0 <= i < |plan| && 0 <= k < |plan[i].gitlinks| ==> NamedBefore(plan, i + 1, plan[i].gitlinks[k].child))
       && (forall i :: 0 <= i < |plan| && plan[i].cargo ==> NamedBefore(plan, i, "psy-node"))
    {
      forall i | 0 <= i < |plan|
        ensures OrderOk(plan, i)
      {
        MeaningChecks(plan, i);
      }
    }
  }

  lemma ChecksMean(plan: seq<Repository>)
    requires OrderChecks(plan)
    ensures DistinctRepositories(plan)
    ensures forall i, k :: 0 <= i < |plan| && 0 <= k < |plan[i].gitlinks| ==> NamedBefore(plan, i + 1, plan[i].gitlinks[k].child)
    ensures forall i :: 0 <= i < |plan| && plan[i].cargo ==> NamedBefore(plan, i, "psy-node")
  {
    forall i, j | 0 <= i < j < |plan|
      ensures plan[i].name != plan[j].name
    {
      assert OrderOk(plan, j);
    }
    forall i, k | 0 <= i < |plan| && 0 <= k < |plan[i].gitlinks|
      ensures NamedBefore(plan, i + 1, plan[i].gitlinks[k].child)
    {
      assert OrderOk(plan, i) && LinkInOrder(plan, i, k);
      PositionBefore(plan, i + 1, plan[i].gitlinks[k].child);
    }
    forall i | 0 <= i < |plan| && plan[i].cargo
      ensures NamedBefore(plan, i, "psy-node")
    {
      assert OrderOk(plan, i);
      PositionBefore(plan, i, "psy-node");
    }
  }

  lemma MeaningChecks(plan: seq<Repository>, i: nat)
    requires DistinctRepositories(plan) && i < |plan|
    requires forall k :: 0 <= k < |plan[i].gitlinks| ==> NamedBefore(plan, i + 1, plan[i].gitlinks[k].child)
    requires forall j :: 0 <= j <= i && plan[j].cargo ==> NamedBefore(plan, j, "psy-node")
    ensures OrderOk(plan, i)
  {
    PositionIs(plan, i);
    forall k | 0 <= k < |plan[i].gitlinks|
      ensures LinkInOrder(plan, i, k)
    {
      PositionBefore(plan, i + 1, plan[i].gitlinks[k].child);
    }
    if plan[i].cargo {
      PositionBefore(plan, i, "psy-node");
    }
  }

  /** Everything a repository depends on stands strictly earlier. */
  ghost predicate StrictlyEarlier(plan: seq<Repository>) {
    forall i, n :: 0 <= i < |plan| && n in Dependencies(plan[i]) ==> Position(plan, n) < i
  }

  lemma DependencyIsSelected(repos: seq<Repository>, r: Repository, n: Repo)
    requires Recorded(repos) && r in repos && n in Dependencies(r)
    ensures n in Names(PlanItems(repos))
  {
    var i :| 0 <= i < |repos| && repos[i] == r;
    var p := Position(repos, n);
    if n != NODE || !r.cargo {
      var k :| 0 <= k < |r.gitlinks| && r.gitlinks[k].child == n;
      assert Position(repos, repos[i].gitlinks[k].child) < |repos|;
    }
    assert PlanItems(repos)[p].name == n;
  }

  lemma DependencyIsEarlier(repos: seq<Repository>, out: seq<Item<Repository>>, i: nat, n: Repo)
    requires Recorded(repos) && Reorders(PlanItems(repos), out) && i < |out| && n in Dependencies(Values(out)[i])
    ensures Position(Values(out), n) < i
  {
    ReorderedValue(repos, NameOf, Dependencies, out, i);
    DependencyIsSelected(repos, Values(out)[i], n);
    assert n in Names(out);
    var m :| 0 <= m < |out| && out[m].name == n;
    ReorderedValue(repos, NameOf, Dependencies, out, m);
    NeedIsEarlier(repos, NameOf, Dependencies, out, i, n);
  }

  /** Every plan `buildPreparePlan` returns passes the order checks, with each dependency strictly earlier. */
  lemma PlansPassOrderChecks(repos: seq<Repository>)
    requires Recorded(repos) && repos != [] && Order(PlanItems(repos)).Some?
    ensures var plan := Values(Order(PlanItems(repos)).value);
            OrderChecks(plan) && StrictlyEarlier(plan) && DistinctRepositories(plan)
  {
    var out := Order(PlanItems(repos)).value;
    var plan := Values(out);
    PlanItemsDistinct(repos);
    OrderReorders(PlanItems(repos));
    ReorderedValues(repos, NameOf, Dependencies, out);
    assert forall i :: 0 <= i < |plan| ==> NameOf(plan[i]) == plan[i].name;
    forall i, n | 0 <= i < |plan| && n in Dependencies(plan[i])
      ensures Position(plan, n) < i
    {
      DependencyIsEarlier(repos, out, i, n);
    }
    forall i | 0 <= i < |plan|
      ensures OrderOk(plan, i)
    {
      StrictOrderIsOk(plan, i);
    }
  }

  lemma StrictOrderIsOk(plan: seq<Repository>, i: nat)
    requires DistinctRepositories(plan) && StrictlyEarlier(plan) && i < |plan|
    ensures OrderOk(plan, i)
  {
    PositionIs(plan, i);
    forall k | 0 <= k < |plan[i].gitlinks|
      ensures LinkInOrder(plan, i, k)
    {
      assert Dependencies(plan[i])[k] in Dependencies(plan[i]);
    }
    forall j | 0 <= j < |plan| && plan[j].cargo
      ensures Position(plan, NODE) < j
    {
      assert Dependencies(plan[j])[|plan[j].gitlinks|] == NODE;
    }
  }

  // ----- self-links

  /** No gitlink of the plan maps to the repository it is in. */
  predicate NoSelfLinks(plan: seq<Repository>) {
    forall i, k :: 0 <= i < |plan| && 0 <= k < |plan[i].gitlinks| ==> plan[i].gitlinks[k].child != plan[i].name
  }

  lemma DependencyWithoutSelf(plan: seq<Repository>, i: nat, n: Repo)
    requires OrderChecks(plan) && NoSelfLinks(plan) && i < |plan| && n in Dependencies(plan[i])
    ensures Position(plan, n) < i
  {
    assert OrderOk(plan, i);
    var d :| 0 <= d < |Dependencies(plan[i])| && Dependencies(plan[i])[d] == n;
    if d < |plan[i].gitlinks| {
      assert LinkInOrder(plan, i, d);
    }
  }

  /** The refusal speaks of an earlier repository; what the order checks let through besides that is a
      repository that lists itself as a child, and nothing else. */
  lemma OrderChecksMissSelfLinks(plan: seq<Repository>)
    requires OrderChecks(plan)
    ensures StrictlyEarlier(plan) <==> NoSelfLinks(plan)
  {
    if StrictlyEarlier(plan) {
      forall i, k | 0 <= i < |plan| && 0 <= k < |plan[i].gitlinks|
        ensures plan[i].gitlinks[k].child != plan[i].name
      {
        assert Dependencies(plan[i])[k] in Dependencies(plan[i]);
        assert OrderOk(plan, i);
      }
    }
    if NoSelfLinks(plan) {
      forall i, n | 0 <= i < |plan| && n in Dependencies(plan[i])
        ensures Position(plan, n) < i
      {
        DependencyWithoutSelf(plan, i, n);
      }
    }
  }

  /** Such a plan exists; planning itself never returns one, for it is a cycle. */
  lemma SelfLinkPassesOrderChecks(head: Commit, from: Commit, details: Details)
    ensures var plan := [Repository("psy-sdk", head, [Gitlink("self", "psy-sdk", from)], false, details)];
            OrderChecks(plan) && !StrictlyEarlier(plan) && HasCycle(PlanItems(plan))
  {
    var plan := [Repository("psy-sdk", head, [Gitlink("self", "psy-sdk", from)], false, details)];
    assert OrderOk(plan, 0);
    assert Dependencies(plan[0])[0] == "psy-sdk";
    assert PlanItems(plan)[0].name in Names(PlanItems(plan));
    assert Links(PlanItems(plan), "psy-sdk", "psy-sdk");
    assert IsCycle(PlanItems(plan), ["psy-sdk", "psy-sdk"]);
  }

  lemma NotItsOwnParent(x: Commit)
    requires x.parents != []
    ensures x.parents[0] != x
  {
    assert x.parents[0] < x;
  }

  /** No commit can pin itself. */
  lemma {:induction false} NoCommitPinsItself(x: Commit, links: seq<Link>, path: string)
    requires forall l :: l in links ==> l in x.links
    ensures PinAt(links, path) != Some(x)
  {
    if links != [] {
      assert links[0] in x.links;
      LinkIsSmaller(x, links[0]);
      NoCommitPinsItself(x, links[1..], path);
    }
  }

  lemma LinkIsSmaller(x: Commit, l: Link)
    requires l in x.links
    ensures l.sha != x
  {
    var i :| 0 <= i < |x.links| && x.links[i] == l;
    assert x.links[i] < x;
    assert l.sha < l;
  }
}
