/** Squash integration: how `merge` (scripts/workspace.ts) squashes the topics into new commits, children
    first, and rewrites the gitlinks between them. */
module Squash {
  import opened Wrappers
  import opened DependencyOrder
  import opened Commits
  import Prepare

  /** One repository: its topic head, its frozen target base, and their merge ancestor. */
  datatype Plan = Plan(name: Repo, tip: Commit, base: Commit, ancestor: Commit)

  function PinAt(links: seq<Link>, path: string): Option<Commit> {
    Prepare.PinAt(links, path)
  }

  /** The entry recorded for a path. */
  function Find(links: seq<Link>, path: string): Option<Link> {
    if links == [] then None else if links[0].path == path then Some(links[0]) else Find(links[1..], path)
  }

  /** The topic kept the link as the merge ancestor had it. */
  predicate Unchanged(plan: Plan, link: Link) {
    match Find(plan.ancestor.links, link.path)
    case Some(previous) => previous.sha == link.sha && previous.child == link.child
    case None => false
  }

  /** The first entry of the path pins the same commit of the same child. */
  ghost predicate RecordedAlike(links: seq<Link>, link: Link) {
    exists j :: && 0 <= j < |links| && links[j].path == link.path && links[j].sha == link.sha && links[j].child == link.child
                && forall h :: 0 <= h < j ==> links[h].path != link.path
  }

  lemma {:induction false} FindExactly(links: seq<Link>, link: Link)
    ensures Find(links, link.path).Some? && Find(links, link.path).value.sha == link.sha && Find(links, link.path).value.child == link.child
       <==> RecordedAlike(links, link)
  {
    if links != [] && links[0].path != link.path {
      FindExactly(links[1..], link);
      if RecordedAlike(links[1..], link) {
        var j :| && 0 <= j < |links[1..]| && links[1..][j].path == link.path && links[1..][j].sha == link.sha
                 && links[1..][j].child == link.child && forall h :: 0 <= h < j ==> links[1..][h].path != link.path;
        assert links[j + 1].path == link.path && forall h :: 0 < h < j + 1 ==> links[h] == links[1..][h - 1];
      }
      if j :| && 0 <= j < |links| && links[j].path == link.path && links[j].sha == link.sha && links[j].child == link.child
              && forall h :: 0 <= h < j ==> links[h].path != link.path {
        assert links[1..][j - 1] == links[j] && forall h :: 0 <= h < j - 1 ==> links[1..][h] == links[h + 1];
      }
    }
  }

  function NameOf(plan: Plan): Repo {
    plan.name
  }

  function Position(plans: seq<Plan>, name: Repo): (i: nat)
    ensures i <= |plans|
    ensures i < |plans| ==> plans[i].name == name
    ensures i == |plans| ==> forall j :: 0 <= j < |plans| ==> plans[j].name != name
    ensures forall j :: 0 <= j < i ==> plans[j].name != name
  {
    PositionOf(plans, NameOf, name)
  }

  /** A link of the topic that is rewritten to its child's integration commit. */
  predicate Rewritten(plans: seq<Plan>, merged: map<Repo, Commit>, plan: Plan, link: Link) {
    var c := Position(plans, link.child);
    && link.child != "" && c < |plans|
    && (!Unchanged(plan, link)
        || (link.sha == plans[c].tip && !(link.child in merged && merged[link.child] == plans[c].tip)))
  }

  // ----- what `ordered` provides

  ghost predicate Distinct(plans: seq<Plan>) {
    forall i, j :: 0 <= i < j < |plans| ==> plans[i].name != plans[j].name
  }

  /** Distinct repositories in dependency order over topic and ancestor links. */
  ghost predicate InOrder(plans: seq<Plan>) {
    && Distinct(plans)
    && (forall i, k :: 0 <= i < |plans| && 0 <= k < |plans[i].tip.links| ==>
                         var c := Position(plans, plans[i].tip.links[k].child);
                         c < i || c == |plans|)
  }

  function NeedsOf(plan: Plan): seq<Repo> {
    Children(plan.tip.links) + Children(plan.ancestor.links)
  }

  function ItemsOf(plans: seq<Plan>): seq<Item<Plan>> {
    Itemized(plans, NameOf, NeedsOf)
  }

  /** The order `merge` works in: the same plans, with linked children first. */
  lemma OrderServesMerge(plans: seq<Plan>)
    requires Distinct(plans) && Order(ItemsOf(plans)).Some?
    ensures var order := Values(Order(ItemsOf(plans)).value);
            |order| == |plans| && (forall p :: p in order <==> p in plans) && InOrder(order)
  {
    var out := Order(ItemsOf(plans)).value;
    var order := Values(out);
    assert forall i :: 0 <= i < |plans| ==> NameOf(plans[i]) == plans[i].name;
    ItemizedNames(plans, NameOf, NeedsOf);
    OrderReorders(ItemsOf(plans));
    ReorderedValues(plans, NameOf, NeedsOf, out);
    assert forall i :: 0 <= i < |order| ==> NameOf(order[i]) == order[i].name;
    forall i, k | 0 <= i < |out| && 0 <= k < |order[i].tip.links|
      ensures var c := Position(order, order[i].tip.links[k].child); c < i || c == |out|
    {
      assert NeedsOf(order[i])[k] == order[i].tip.links[k].child;
      NeedIsEarlier(plans, NameOf, NeedsOf, out, i, order[i].tip.links[k].child);
    }
  }

  // ----- integration

  /** `git update-index --add --cacheinfo`: replaces the pin of a path, or adds it. */
  function PutPin(links: seq<Link>, link: Link, sha: Commit): seq<Link> {
    if PinAt(links, link.path).Some? then Prepare.SetPin(links, link.path, sha) else links + [link.(sha := sha)]
  }

  lemma {:induction false} PinAtAppended(links: seq<Link>, extra: Link, path: string)
    ensures PinAt(links + [extra], path)
         == if PinAt(links, path).Some? then PinAt(links, path) else if extra.path == path then Some(extra.sha) else None
  {
    if links != [] {
      PinAtAppended(links[1..], extra, path);
      assert (links + [extra])[1..] == links[1..] + [extra];
    } else {
      assert links + [extra] == [extra];
      assert [extra][1..] == [];
      assert PinAt([], path).None?;
    }
  }

  lemma PutPinAt(links: seq<Link>, link: Link, sha: Commit, path: string)
    ensures PinAt(PutPin(links, link, sha), path) == if path == link.path then Some(sha) else PinAt(links, path)
  {
    Prepare.SetPinAt(links, link.path, sha, path);
    PinAtAppended(links, link.(sha := sha), path);
  }

  ghost predicate DistinctPaths(links: seq<Link>) {
    forall i, j :: 0 <= i < j < |links| ==> links[i].path != links[j].path
  }

  // ----- git's part

  /** An entry of `git ls-files --unmerged`: the path, and whether its mode is that of a gitlink. */
  datatype Entry = Entry(path: string, gitlink: bool)

  /** What `git merge --squash` leaves behind in a repository: the merged gitlinks, the unmerged entries, its
      exit code, whether other files differ from the base, and what else the commit will depend on. */
  datatype Merge = Merge(links: seq<Link>, unmerged: set<Entry>, exit: int, files: bool, note: nat)

  // ----- the rewriting

  /** The gitlinks once the first `n` links of the topic were considered. */
  function RewriteFirst(plans: seq<Plan>, merged: map<Repo, Commit>, plan: Plan, links: seq<Link>, n: nat): seq<Link>
    requires n <= |plan.tip.links|
  {
    if n == 0 then links
    else
      var link := plan.tip.links[n - 1];
      var before := RewriteFirst(plans, merged, plan, links, n - 1);
      if Rewritten(plans, merged, plan, link) && link.child in merged then PutPin(before, link, merged[link.child]) else before
  }

  function RewriteAll(plans: seq<Plan>, merged: map<Repo, Commit>, plan: Plan, links: seq<Link>): seq<Link> {
    RewriteFirst(plans, merged, plan, links, |plan.tip.links|)
  }

  /** The path of a rewritten link. */
  ghost predicate Mapped(plans: seq<Plan>, merged: map<Repo, Commit>, plan: Plan, path: string) {
    MappedFirst(plans, merged, plan, path, |plan.tip.links|)
  }

  ghost predicate MappedFirst(plans: seq<Plan>, merged: map<Repo, Commit>, plan: Plan, path: string, n: nat)
    requires n <= |plan.tip.links|
  {
    exists k :: 0 <= k < n && plan.tip.links[k].path == path && Rewritten(plans, merged, plan, plan.tip.links[k])
  }

  lemma MappedStep(plans: seq<Plan>, merged: map<Repo, Commit>, plan: Plan, path: string, n: nat)
    requires n < |plan.tip.links|
    ensures MappedFirst(plans, merged, plan, path, n + 1) <==>
            || MappedFirst(plans, merged, plan, path, n)
            || (plan.tip.links[n].path == path && Rewritten(plans, merged, plan, plan.tip.links[n]))
  {
  }

  /** Every conflict is one of a rewritten gitlink, and the merge did not fail otherwise. */
  ghost predicate Accepts(plans: seq<Plan>, merged: map<Repo, Commit>, plan: Plan, m: Merge) {
    && (forall e :: e in m.unmerged ==> e.gitlink && Mapped(plans, merged, plan, e.path))
    && (m.exit != 0 ==> m.unmerged != {})
  }

  /** The integration commit of one repository, given those of the repositories before it. */
  function IntegrationOf(plans: seq<Plan>, merged: map<Repo, Commit>, plan: Plan, m: Merge): Commit {
    var links := RewriteAll(plans, merged, plan, m.links);
    if links != plan.base.links || m.files then Commit(m.note, [plan.base], links) else plan.base
  }

  /** The integration commits of the first `n` repositories. */
  function MergedUpTo(plans: seq<Plan>, merges: seq<Merge>, n: nat): map<Repo, Commit>
    requires n <= |plans| == |merges|
  {
    if n == 0 then map[]
    else
      var before := MergedUpTo(plans, merges, n - 1);
      before[plans[n - 1].name := IntegrationOf(plans, before, plans[n - 1], merges[n - 1])]
  }

  /** The integration commit of repository `i`: a function of what is known before integration begins. */
  function Integration(plans: seq<Plan>, merges: seq<Merge>, i: nat): Commit
    requires i < |plans| == |merges|
  {
    IntegrationOf(plans, MergedUpTo(plans, merges, i), plans[i], merges[i])
  }

  lemma MergedStep(plans: seq<Plan>, merges: seq<Merge>, n: nat)
    requires n < |plans| == |merges|
    ensures MergedUpTo(plans, merges, n + 1) == MergedUpTo(plans, merges, n)[plans[n].name := Integration(plans, merges, n)]
  {
  }

  lemma {:induction false} MergedHolds(plans: seq<Plan>, merges: seq<Merge>, n: nat, j: nat)
    requires j < n <= |plans| == |merges| && Distinct(plans)
    ensures plans[j].name in MergedUpTo(plans, merges, n)
    ensures MergedUpTo(plans, merges, n)[plans[j].name] == Integration(plans, merges, j)
  {
    var last := n - 1;
    MergedStep(plans, merges, last);
    if j < last {
      MergedHolds(plans, merges, last, j);
    }
    assert MergedUpTo(plans, merges, n) == MergedUpTo(plans, merges, last)[plans[last].name := Integration(plans, merges, last)];
  }

  /** Which links are rewritten is settled by the repositories before. */
  lemma SettledEarly(plans: seq<Plan>, merges: seq<Merge>, i: nat, k: nat)
    requires i < |plans| == |merges| && InOrder(plans) && k < |plans[i].tip.links|
    ensures var link := plans[i].tip.links[k];
            var c := Position(plans, link.child);
            var m := MergedUpTo(plans, merges, i);
            && (c < |plans| ==> c < i && link.child in m && m[link.child] == Integration(plans, merges, c))
            && (Rewritten(plans, m, plans[i], link) <==>
                link.child != "" && c < |plans|
                && (!Unchanged(plans[i], link) || (link.sha == plans[c].tip && Integration(plans, merges, c) != plans[c].tip)))
  {
    var c := Position(plans, plans[i].tip.links[k].child);
    assert c < i || c == |plans|;
    if c < i {
      MergedHolds(plans, merges, i, c);
    }
  }

  lemma {:induction false} RewrittenAt(plans: seq<Plan>, merged: map<Repo, Commit>, plan: Plan, links: seq<Link>, n: nat, k: nat)
    requires n <= |plan.tip.links| && k < |plan.tip.links| && DistinctPaths(plan.tip.links)
    ensures var link := plan.tip.links[k];
            PinAt(RewriteFirst(plans, merged, plan, links, n), link.path)
            == if k < n && Rewritten(plans, merged, plan, link) && link.child in merged then Some(merged[link.child])
               else PinAt(links, link.path)
  {
    if n > 0 {
      RewrittenAt(plans, merged, plan, links, n - 1, k);
      var last := plan.tip.links[n - 1];
      if Rewritten(plans, merged, plan, last) && last.child in merged {
        PutPinAt(RewriteFirst(plans, merged, plan, links, n - 1), last, merged[last.child], plan.tip.links[k].path);
      }
    }
  }

  /** Every link of a topic ends where it should: rewritten ones at the child's integration commit, the others
      where git's own merge left them. */
  lemma LinksIntegrated(plans: seq<Plan>, merges: seq<Merge>, i: nat, k: nat)
    requires i < |plans| == |merges| && InOrder(plans) && k < |plans[i].tip.links| && DistinctPaths(plans[i].tip.links)
    ensures var link := plans[i].tip.links[k];
            var c := Position(plans, link.child);
            PinAt(Integration(plans, merges, i).links, link.path)
            == if Rewritten(plans, MergedUpTo(plans, merges, i), plans[i], link) && c < |plans|
               then Some(Integration(plans, merges, c)) else PinAt(merges[i].links, link.path)
  {
    SettledEarly(plans, merges, i, k);
    RewrittenAt(plans, MergedUpTo(plans, merges, i), plans[i], merges[i].links, |plans[i].tip.links|, k);
  }

  /** The same, in terms of the trees: of the links to a repository that is integrated, those that differ from the merge
      ancestor's entry, and those that name a topic head which is not what the child ends at, pin the child's
      integration commit; all others are left to git. */
  lemma LinksIntegratedExactly(plans: seq<Plan>, merges: seq<Merge>, i: nat, k: nat)
    requires i < |plans| == |merges| && InOrder(plans) && k < |plans[i].tip.links| && DistinctPaths(plans[i].tip.links)
    ensures var link := plans[i].tip.links[k];
            var pin := PinAt(Integration(plans, merges, i).links, link.path);
            && (forall c :: 0 <= c < |plans| && plans[c].name == link.child != "" ==>
                  pin == if !RecordedAlike(plans[i].ancestor.links, link)
                            || (link.sha == plans[c].tip && Integration(plans, merges, c) != plans[c].tip)
                         then Some(Integration(plans, merges, c)) else PinAt(merges[i].links, link.path))
            && (link.child == "" || (forall c :: 0 <= c < |plans| ==> plans[c].name != link.child) ==>
                  pin == PinAt(merges[i].links, link.path))
  {
    var link := plans[i].tip.links[k];
    LinksIntegrated(plans, merges, i, k);
    SettledEarly(plans, merges, i, k);
    FindExactly(plans[i].ancestor.links, link);
    var p := Position(plans, link.child);
    assert forall c :: 0 <= c < |plans| && plans[c].name == link.child ==> c == p;
  }

  // ----- the loop

  /** The rewriting of one repository's links on top of git's merge: `mapped` are the paths rewritten, `left` the
      conflicts that stay unresolved, and `missing` says that a child's integration was not there. */
  method RewriteLinks(plans: seq<Plan>, merged: map<Repo, Commit>, i: nat, m: Merge)
    returns (links: seq<Link>, mapped: set<string>, left: set<Entry>, missing: bool)
    requires InOrder(plans) && i < |plans| && forall j :: 0 <= j < i ==> plans[j].name in merged
    ensures !missing && links == RewriteAll(plans, merged, plans[i], m.links)
    ensures forall path :: path in mapped <==> Mapped(plans, merged, plans[i], path)
    ensures left == set e | e in m.unmerged && e.path !in mapped
  {
    links, mapped, left, missing := m.links, {}, m.unmerged, false;
    var topic := plans[i].tip.links;
    for n := 0 to |topic|
      invariant !missing && links == RewriteFirst(plans, merged, plans[i], m.links, n)
      invariant forall path :: path in mapped <==> MappedFirst(plans, merged, plans[i], path, n)
      invariant left == set e | e in m.unmerged && e.path !in mapped
    {
      var c := Position(plans, topic[n].child);
      assert c < i || c == |plans|;
      assert c < i ==> plans[c].name in merged;
      forall path ensures MappedFirst(plans, merged, plans[i], path, n + 1) <==>
        MappedFirst(plans, merged, plans[i], path, n) || (topic[n].path == path && Rewritten(plans, merged, plans[i], topic[n]))
      {
        MappedStep(plans, merged, plans[i], path, n);
      }
      if Rewritten(plans, merged, plans[i], topic[n]) {
        missing := topic[n].child !in merged;
        if missing {
          return;
        }
        links := PutPin(links, topic[n], merged[topic[n].child]);
        mapped := mapped + {topic[n].path};
        left := set e | e in left && e.path != topic[n].path;
      }
    }
  }

  /** One turn of the loop; `fault` says that a command fails.  Neither of the two other refusals ever happens: a
      child's integration is never missing, and no conflict is left after the rewriting. */
  method IntegrateOne(plans: seq<Plan>, merged: map<Repo, Commit>, i: nat, m: Merge, fault: bool) returns (ok: bool, to: Commit)
    requires InOrder(plans) && i < |plans| && forall j :: 0 <= j < i ==> plans[j].name in merged
    ensures ok <==> !fault && Accepts(plans, merged, plans[i], m)
    ensures ok ==> to == IntegrationOf(plans, merged, plans[i], m)
  {
    to := plans[i].base;
    var links, mapped, left, missing := RewriteLinks(plans, merged, i, m);
    if missing || fault {
      return false, to;
    }
    var others := set e | e in m.unmerged && !e.gitlink;
    var outside := set e | e in m.unmerged && e.path !in mapped;
    if others != {} || outside != {} || (m.exit != 0 && m.unmerged == {}) {
      RefusalIsExact(plans, merged, plans[i], m, mapped, others, outside);
      return false, to;
    }
    AcceptanceIsExact(plans, merged, plans[i], m, mapped, others, outside);
    ok := left == {};
    if links != plans[i].base.links || m.files {
      to := Commit(m.note, [plans[i].base], links);
    }
  }

  lemma RefusalIsExact(plans: seq<Plan>, merged: map<Repo, Commit>, plan: Plan, m: Merge, mapped: set<string>,
                       others: set<Entry>, outside: set<Entry>)
    requires forall path :: path in mapped <==> Mapped(plans, merged, plan, path)
    requires others <= m.unmerged && forall e :: e in others ==> !e.gitlink
    requires outside <= m.unmerged && forall e :: e in outside ==> e.path !in mapped
    requires others != {} || outside != {} || (m.exit != 0 && m.unmerged == {})
    ensures !Accepts(plans, merged, plan, m)
  {
    if others != {} {
      var e :| e in others;
      assert e in m.unmerged;
    } else if outside != {} {
      var e :| e in outside;
      assert e in m.unmerged;
    }
  }

  lemma AcceptanceIsExact(plans: seq<Plan>, merged: map<Repo, Commit>, plan: Plan, m: Merge, mapped: set<string>,
                          others: set<Entry>, outside: set<Entry>)
    requires forall path :: path in mapped <==> Mapped(plans, merged, plan, path)
    requires forall e :: e in m.unmerged && !e.gitlink ==> e in others
    requires forall e :: e in m.unmerged && e.path !in mapped ==> e in outside
    requires others == {} && outside == {} && !(m.exit != 0 && m.unmerged == {})
    ensures Accepts(plans, merged, plan, m)
  {
  }

  /** Repository `i` is integrated when its turn comes. */
  ghost predicate GoesThrough(plans: seq<Plan>, merges: seq<Merge>, faults: seq<bool>, i: nat)
    requires i < |plans| == |merges| == |faults|
  {
    !faults[i] && Accepts(plans, MergedUpTo(plans, merges, i), plans[i], merges[i])
  }

  ghost predicate AllGoThrough(plans: seq<Plan>, merges: seq<Merge>, faults: seq<bool>, n: nat)
    requires n <= |plans| == |merges| == |faults|
  {
    n == 0 || (AllGoThrough(plans, merges, faults, n - 1) && GoesThrough(plans, merges, faults, n - 1))
  }

  lemma {:induction false} AllGoThroughIs(plans: seq<Plan>, merges: seq<Merge>, faults: seq<bool>, n: nat)
    requires n <= |plans| == |merges| == |faults|
    ensures AllGoThrough(plans, merges, faults, n) <==> forall i :: 0 <= i < n ==> GoesThrough(plans, merges, faults, i)
  {
    if n > 0 {
      AllGoThroughIs(plans, merges, faults, n - 1);
    }
  }

  /** One turn of the loop, from the integrations so far. */
  method IntegrateNext(plans: seq<Plan>, merges: seq<Merge>, faults: seq<bool>, i: nat, merged: map<Repo, Commit>)
    returns (ok: bool, merged': map<Repo, Commit>)
    requires InOrder(plans) && i < |plans| == |merges| == |faults| && merged == MergedUpTo(plans, merges, i)
    ensures ok <==> GoesThrough(plans, merges, faults, i)
    ensures merged' == if ok then MergedUpTo(plans, merges, i + 1) else merged
  {
    EarlierAreMerged(plans, merges, i);
    var to;
    ok, to := IntegrateOne(plans, merged, i, merges[i], faults[i]);
    MergedStep(plans, merges, i);
    merged' := if ok then merged[plans[i].name := to] else merged;
  }

  /** The integration loop; `faults[i]` says that a command fails in repository `i`.  It ends well exactly when
      no command fails and every conflict is one of a rewritten link. */
  method Integrate(plans: seq<Plan>, merges: seq<Merge>, faults: seq<bool>)
    returns (ok: bool, merged: map<Repo, Commit>)
    requires InOrder(plans) && |merges| == |plans| && |faults| == |plans|
    ensures ok <==> forall i :: 0 <= i < |plans| ==> GoesThrough(plans, merges, faults, i)
    ensures ok ==> merged == MergedUpTo(plans, merges, |plans|)
  {
    ok, merged := true, map[];
    var i := 0;
    while ok && i < |plans|
      invariant i <= |plans| && (ok ==> merged == MergedUpTo(plans, merges, i))
      invariant ok <==> AllGoThrough(plans, merges, faults, i)
    {
      ok, merged := IntegrateNext(plans, merges, faults, i, merged);
      i := i + 1;
    }
    AllGoThroughIs(plans, merges, faults, i);
  }

  lemma EarlierAreMerged(plans: seq<Plan>, merges: seq<Merge>, i: nat)
    requires InOrder(plans) && i <= |plans| == |merges|
    ensures forall j :: 0 <= j < i ==> plans[j].name in MergedUpTo(plans, merges, i)
  {
    forall j | 0 <= j < i
      ensures plans[j].name in MergedUpTo(plans, merges, i)
    {
      MergedHolds(plans, merges, i, j);
    }
  }

  /** Every conflict the loop accepts ends at the child's integration commit. */
  lemma ConflictsFollowIntegration(plans: seq<Plan>, merges: seq<Merge>, i: nat, e: Entry) returns (c: nat)
    requires i < |plans| == |merges| && InOrder(plans) && DistinctPaths(plans[i].tip.links)
    requires Accepts(plans, MergedUpTo(plans, merges, i), plans[i], merges[i]) && e in merges[i].unmerged
    ensures c < i && PinAt(Integration(plans, merges, i).links, e.path) == Some(Integration(plans, merges, c))
    ensures exists k :: 0 <= k < |plans[i].tip.links| && plans[i].tip.links[k].path == e.path
                        && plans[i].tip.links[k].child == plans[c].name
  {
    assert MappedFirst(plans, MergedUpTo(plans, merges, i), plans[i], e.path, |plans[i].tip.links|);
    var k :| 0 <= k < |plans[i].tip.links| && plans[i].tip.links[k].path == e.path
             && Rewritten(plans, MergedUpTo(plans, merges, i), plans[i], plans[i].tip.links[k]);
    SettledEarly(plans, merges, i, k);
    LinksIntegrated(plans, merges, i, k);
    c := Position(plans, plans[i].tip.links[k].child);
  }
}
