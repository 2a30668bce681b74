/** Applying a preparation: `applyPreparation` (scripts/workspace-operations.ts) commits the selected repositories
    children first and moves each selected gitlink to its child's new commit. */
module PrepareApply {
  import opened Wrappers
  import opened DependencyOrder
  import opened Commits
  import opened Prepare

  // ----- checkouts

  /** A local repository: its commit, the gitlinks in its index, and what else is checked out. */
  datatype Checkout = Checkout(head: Commit, index: seq<Link>, details: Details)

  type Checkouts = map<Repo, Checkout>

  ghost predicate DistinctPaths(links: seq<Gitlink>) {
    forall i, j :: 0 <= i < j < |links| ==> links[i].path != links[j].path
  }

  predicate PinsAre(links: seq<Link>, gitlinks: seq<Gitlink>) {
    forall k :: 0 <= k < |gitlinks| ==> PinAt(links, gitlinks[k].path) == Some(gitlinks[k].from)
  }

  /** Branch, owned files and nested checkouts are as recorded, the nested ones clean and at their gitlinks. */
  predicate SameDetails(d: Details, r: Repository) {
    && d.branch == r.details.branch
    && (forall f <- r.details.files :: f in d.files && d.files[f] == r.details.files[f])
    && (forall p <- r.details.nested :: p in d.nested && d.nested[p] == r.details.nested[p] && d.nested[p].clean)
    && (forall k :: 0 <= k < |r.gitlinks| ==>
                      r.gitlinks[k].path in r.details.nested && r.details.nested[r.gitlinks[k].path].head == r.gitlinks[k].from)
  }

  /** The repository is as the preview froze it, with nothing staged. */
  predicate Frozen(repos: Checkouts, r: Repository) {
    && r.name in repos
    && repos[r.name].head == r.head && repos[r.name].index == r.head.links
    && PinsAre(repos[r.name].index, r.gitlinks)
    && SameDetails(repos[r.name].details, r)
  }

  // ----- staging

  function Staged(links: seq<Link>, moves: seq<(string, Commit)>): seq<Link> {
    if moves == [] then links
    else SetPin(Staged(links, moves[..|moves| - 1]), moves[|moves| - 1].0, moves[|moves| - 1].1)
  }

  /** `git submodule update --checkout`: the nested checkouts follow the moves, on no branch. */
  function FollowMoves(d: Details, moves: seq<(string, Commit)>): Details {
    if moves == [] then d
    else
      var (path, sha) := moves[|moves| - 1];
      var before := FollowMoves(d, moves[..|moves| - 1]);
      if path in before.nested then before.(nested := before.nested[path := before.nested[path].(head := sha, branch := "")])
      else before
  }

  function StagedCheckout(c: Checkout, moves: seq<(string, Commit)>): Checkout {
    c.(index := Staged(c.index, moves), details := FollowMoves(c.details, moves))
  }

  /** The commit a selected child has by the time its parent is prepared. */
  function Target(plan: seq<Repository>, completed: map<Repo, Commit>, child: Repo): Commit
    requires Position(plan, child) < |plan|
  {
    if child in completed then completed[child] else plan[Position(plan, child)].head
  }

  ghost predicate LinksSelected(plan: seq<Repository>, i: nat)
    requires i < |plan|
  {
    forall k :: 0 <= k < |plan[i].gitlinks| ==> Position(plan, plan[i].gitlinks[k].child) < |plan|
  }

  /** Every planned link is where it was or at its target. */
  ghost predicate PartWay(plan: seq<Repository>, completed: map<Repo, Commit>, i: nat, links: seq<Link>)
    requires i < |plan| && LinksSelected(plan, i)
  {
    forall k :: 0 <= k < |plan[i].gitlinks| ==>
                  var pin := PinAt(links, plan[i].gitlinks[k].path);
                  pin == Some(plan[i].gitlinks[k].from) || pin == Some(Target(plan, completed, plan[i].gitlinks[k].child))
  }

  /** And so after any number of the moves. */
  ghost predicate AlwaysPartWay(plan: seq<Repository>, completed: map<Repo, Commit>, i: nat, links: seq<Link>, moves: seq<(string, Commit)>)
    requires i < |plan| && LinksSelected(plan, i)
  {
    forall m :: 0 <= m <= |moves| ==> PartWay(plan, completed, i, Staged(links, moves[..m]))
  }

  lemma PartWayMore(plan: seq<Repository>, completed: map<Repo, Commit>, i: nat, links: seq<Link>, moves: seq<(string, Commit)>,
                    move: (string, Commit))
    requires i < |plan| && LinksSelected(plan, i) && AlwaysPartWay(plan, completed, i, links, moves)
    requires PartWay(plan, completed, i, Staged(links, moves + [move]))
    ensures AlwaysPartWay(plan, completed, i, links, moves + [move])
  {
    var more := moves + [move];
    forall m | 0 <= m <= |more|
      ensures PartWay(plan, completed, i, Staged(links, more[..m]))
    {
      assert m <= |moves| ==> more[..m] == moves[..m];
      assert m == |more| ==> more[..m] == more;
    }
  }

  /** The link has to move there. */
  predicate MovesTo(plan: seq<Repository>, completed: map<Repo, Commit>, link: Gitlink, move: (string, Commit))
    requires Position(plan, link.child) < |plan|
  {
    move == (link.path, Target(plan, completed, link.child)) && move.1 != link.from
  }

  /** The moves of the first `m` links, and no others. */
  ghost predicate MovesAre(plan: seq<Repository>, completed: map<Repo, Commit>, i: nat, moves: seq<(string, Commit)>, m: nat)
    requires i < |plan| && LinksSelected(plan, i) && m <= |plan[i].gitlinks|
  {
    forall move :: move in moves <==> exists k :: 0 <= k < m && MovesTo(plan, completed, plan[i].gitlinks[k], move)
  }

  /** The gitlinks of one repository that have to move, refused when one would move backward or aside. */
  method PlanMoves(plan: seq<Repository>, i: nat, completed: map<Repo, Commit>, ghost links: seq<Link>)
    returns (ok: bool, moves: seq<(string, Commit)>)
    requires i < |plan| && LinksSelected(plan, i) && DistinctPaths(plan[i].gitlinks)
    requires PinsAre(links, plan[i].gitlinks)
    ensures ok <==> forall k :: 0 <= k < |plan[i].gitlinks| ==>
                                  Ancestor(plan[i].gitlinks[k].from, Target(plan, completed, plan[i].gitlinks[k].child))
    ensures ok ==> forall k :: 0 <= k < |plan[i].gitlinks| ==>
                                 PinAt(Staged(links, moves), plan[i].gitlinks[k].path)
                                 == Some(Target(plan, completed, plan[i].gitlinks[k].child))
    ensures ok ==> AlwaysPartWay(plan, completed, i, links, moves)
    ensures ok ==> MovesAre(plan, completed, i, moves, |plan[i].gitlinks|)
  {
    moves := [];
    var gitlinks := plan[i].gitlinks;
    for m := 0 to |gitlinks|
      invariant forall k :: 0 <= k < m ==> Ancestor(gitlinks[k].from, Target(plan, completed, gitlinks[k].child))
      invariant PlannedTo(plan, completed, i, links, moves, m)
    {
      var sha := Target(plan, completed, gitlinks[m].child);
      if sha != gitlinks[m].from {
        if !Ancestor(gitlinks[m].from, sha) {
          return false, [];
        }
        OneMoveMore(plan, completed, i, links, moves, m);
        moves := moves + [(gitlinks[m].path, sha)];
      } else {
        NoMoveMore(plan, completed, i, links, moves, m);
      }
    }
    ok := true;
  }

  /** The moves of the first `m` links are planned: staged, those links are at their targets and the others where they
      were. */
  ghost predicate PlannedTo(plan: seq<Repository>, completed: map<Repo, Commit>, i: nat, links: seq<Link>,
                            moves: seq<(string, Commit)>, m: nat)
    requires i < |plan| && LinksSelected(plan, i) && m <= |plan[i].gitlinks|
  {
    && (forall k :: 0 <= k < |plan[i].gitlinks| ==>
                      PinAt(Staged(links, moves), plan[i].gitlinks[k].path)
                      == Some(if k < m then Target(plan, completed, plan[i].gitlinks[k].child) else plan[i].gitlinks[k].from))
    && AlwaysPartWay(plan, completed, i, links, moves) && MovesAre(plan, completed, i, moves, m)
  }

  lemma OneMoveMore(plan: seq<Repository>, completed: map<Repo, Commit>, i: nat, links: seq<Link>, moves: seq<(string, Commit)>,
                    m: nat)
    requires i < |plan| && LinksSelected(plan, i) && m < |plan[i].gitlinks| && DistinctPaths(plan[i].gitlinks)
    requires PlannedTo(plan, completed, i, links, moves, m)
    requires Target(plan, completed, plan[i].gitlinks[m].child) != plan[i].gitlinks[m].from
    ensures var move := (plan[i].gitlinks[m].path, Target(plan, completed, plan[i].gitlinks[m].child));
            PlannedTo(plan, completed, i, links, moves + [move], m + 1)
  {
    var sha := Target(plan, completed, plan[i].gitlinks[m].child);
    var move := (plan[i].gitlinks[m].path, sha);
    StageOneMore(links, moves, plan[i].gitlinks, m, sha);
    PartWayMore(plan, completed, i, links, moves, move);
    MovesStep(plan, completed, i, moves, moves + [move], m);
  }

  lemma NoMoveMore(plan: seq<Repository>, completed: map<Repo, Commit>, i: nat, links: seq<Link>, moves: seq<(string, Commit)>,
                   m: nat)
    requires i < |plan| && LinksSelected(plan, i) && m < |plan[i].gitlinks| && PlannedTo(plan, completed, i, links, moves, m)
    requires Target(plan, completed, plan[i].gitlinks[m].child) == plan[i].gitlinks[m].from
    ensures PlannedTo(plan, completed, i, links, moves, m + 1)
  {
    MovesStep(plan, completed, i, moves, moves, m);
  }

  lemma MovesStep(plan: seq<Repository>, completed: map<Repo, Commit>, i: nat, moves: seq<(string, Commit)>,
                  more: seq<(string, Commit)>, m: nat)
    requires i < |plan| && LinksSelected(plan, i) && m < |plan[i].gitlinks| && MovesAre(plan, completed, i, moves, m)
    requires forall move :: move in more <==> move in moves || MovesTo(plan, completed, plan[i].gitlinks[m], move)
    ensures MovesAre(plan, completed, i, more, m + 1)
  {
    forall move
      ensures move in more <==> exists k :: 0 <= k < m + 1 && MovesTo(plan, completed, plan[i].gitlinks[k], move)
    {
      assert move in moves <==> exists k :: 0 <= k < m && MovesTo(plan, completed, plan[i].gitlinks[k], move);
    }
  }

  lemma StageOneMore(links: seq<Link>, moves: seq<(string, Commit)>, gitlinks: seq<Gitlink>, m: nat, sha: Commit)
    requires DistinctPaths(gitlinks) && m < |gitlinks| && PinAt(Staged(links, moves), gitlinks[m].path).Some?
    ensures forall k :: 0 <= k < |gitlinks| ==>
                          PinAt(Staged(links, moves + [(gitlinks[m].path, sha)]), gitlinks[k].path)
                          == if k == m then Some(sha) else PinAt(Staged(links, moves), gitlinks[k].path)
  {
    var moves' := moves + [(gitlinks[m].path, sha)];
    assert moves'[..|moves'| - 1] == moves;
    forall k | 0 <= k < |gitlinks|
      ensures PinAt(Staged(links, moves'), gitlinks[k].path)
           == if k == m then Some(sha) else PinAt(Staged(links, moves), gitlinks[k].path)
    {
      SetPinAt(Staged(links, moves), gitlinks[m].path, sha, gitlinks[k].path);
    }
  }

  // ----- what the moves do

  lemma {:induction false} OtherPinsStay(links: seq<Link>, moves: seq<(string, Commit)>, path: string)
    requires forall sha :: (path, sha) !in moves
    ensures PinAt(Staged(links, moves), path) == PinAt(links, path)
  {
    if moves != [] {
      var m := |moves| - 1;
      assert moves[m] in moves;
      OtherPinsStay(links, moves[..m], path);
      SetPinAt(Staged(links, moves[..m]), moves[m].0, moves[m].1, path);
    }
  }

  /** Only nested checkouts are touched: those that are moved end where they are moved to, on no branch. */
  lemma {:induction false} Followed(d: Details, moves: seq<(string, Commit)>, path: string, sha: Commit)
    requires path in d.nested && forall other :: (path, other) in moves ==> other == sha
    ensures var d' := FollowMoves(d, moves);
            && d' == d.(nested := d'.nested) && d'.nested.Keys == d.nested.Keys
            && d'.nested[path] == if (path, sha) in moves then Nested(sha, "", d.nested[path].clean) else d.nested[path]
  {
    if moves != [] {
      var m := |moves| - 1;
      assert moves == moves[..m] + [moves[m]];
      assert (path, sha) in moves <==> (path, sha) in moves[..m] || (path, sha) == moves[m];
      assert moves[m] in moves && forall other :: (path, other) in moves[..m] ==> (path, other) in moves;
      Followed(d, moves[..m], path, sha);
      if moves[m].0 == path {
        assert moves[m] == (path, sha);
      }
    }
  }

  lemma {:induction false} NestedKept(d: Details, moves: seq<(string, Commit)>)
    ensures var d' := FollowMoves(d, moves); d' == d.(nested := d'.nested) && d'.nested.Keys == d.nested.Keys
  {
    if moves != [] {
      NestedKept(d, moves[..|moves| - 1]);
    }
  }

  // ----- what preparation achieves

  /** The gitlink pins its child's commit - for a link to the repository itself the one it had before - and was
      moved only forward in the child's history. */
  ghost predicate LinkPrepared(repos: Checkouts, r: Repository, link: Gitlink)
    requires r.name in repos
  {
    && link.child in repos
    && Ancestor(link.from, repos[link.child].head)
    && PinAt(repos[r.name].head.links, link.path) == Some(if link.child == r.name then r.head else repos[link.child].head)
  }

  /** A prepared repository: it moved only forward, nothing is left staged, and its links are prepared. */
  ghost predicate Prepared(repos: Checkouts, r: Repository) {
    && r.name in repos && Ancestor(r.head, repos[r.name].head)
    && repos[r.name].index == repos[r.name].head.links
    && forall k :: 0 <= k < |r.gitlinks| ==> LinkPrepared(repos, r, r.gitlinks[k])
  }

  /** The gitlink names its child's commit. */
  ghost predicate NamesChild(repos: Checkouts, r: Repository, link: Gitlink) {
    r.name in repos && link.child in repos && PinAt(repos[r.name].head.links, link.path) == Some(repos[link.child].head)
  }

  /** In a prepared repository exactly the links to other repositories name their child's commit. */
  lemma PreparedNamesChildren(repos: Checkouts, r: Repository, k: nat)
    requires Prepared(repos, r) && k < |r.gitlinks|
    ensures NamesChild(repos, r, r.gitlinks[k]) <==> r.gitlinks[k].child != r.name
  {
    assert LinkPrepared(repos, r, r.gitlinks[k]);
    NoCommitPinsItself(repos[r.name].head, repos[r.name].head.links, r.gitlinks[k].path);
  }

  // ----- which repositories get a commit

  /** The link is to pin another commit than it did. */
  ghost predicate LinkMoves(repos: Checkouts, r: Repository, link: Gitlink) {
    && (link.child == r.name ==> link.from != r.head)
    && (link.child != r.name ==> link.child in repos && link.from != repos[link.child].head)
  }

  /** Owned files changed, or a link moves. */
  ghost predicate NeedsCommit(repos: Checkouts, r: Repository, changed: bool) {
    changed || exists k :: 0 <= k < |r.gitlinks| && LinkMoves(repos, r, r.gitlinks[k])
  }

  ghost predicate IsPathOf(r: Repository, path: string) {
    exists k :: 0 <= k < |r.gitlinks| && r.gitlinks[k].path == path
  }

  /** The nested checkout at a moved link is at the commit the link now pins, on no branch; any other is as it was. */
  ghost predicate NestedFollow(was: Checkout, repos: Checkouts, r: Repository, path: string)
    requires path in was.details.nested && r.name in repos && path in repos[r.name].details.nested
  {
    repos[r.name].details.nested[path]
    == if exists k :: 0 <= k < |r.gitlinks| && r.gitlinks[k].path == path && LinkMoves(repos, r, r.gitlinks[k])
       then Nested(Pinned(repos[r.name].head, path), "", was.details.nested[path].clean) else was.details.nested[path]
  }

  function Pinned(commit: Commit, path: string): Commit {
    match PinAt(commit.links, path)
    case Some(sha) => sha
    case None => commit
  }

  /** A new commit on top of the old one, with what the owned files contribute, exactly where one is needed; no
      other gitlink, and - Cargo files apart - nothing else of the checkout but the nested ones, was touched. */
  ghost predicate Settled(was: Checkout, repos: Checkouts, r: Repository, file: (bool, nat)) {
    && r.name in repos
    && var now := repos[r.name];
       && (NeedsCommit(repos, r, file.0) ==> now.head.parents == [r.head] && now.head.note == file.1)
       && (!NeedsCommit(repos, r, file.0) ==> now.head == r.head)
       && (forall path :: !IsPathOf(r, path) ==> PinAt(now.head.links, path) == PinAt(r.head.links, path))
       && now.details.branch == was.details.branch && (!r.cargo ==> now.details.files == was.details.files)
       && now.details.nested.Keys == was.details.nested.Keys
       && (forall path :: path in was.details.nested ==> NestedFollow(was, repos, r, path))
  }

  /** The first `n` repositories stand at their new commit, or where they were when none was needed. */
  ghost predicate HeadsFollow(plan: seq<Repository>, repos: Checkouts, completed: map<Repo, Commit>, n: nat)
    requires n <= |plan|
  {
    forall j :: 0 <= j < n ==>
                  && plan[j].name in repos
                  && repos[plan[j].name].head == if plan[j].name in completed then completed[plan[j].name] else plan[j].head
  }

  ghost predicate Progress(plan: seq<Repository>, repos: Checkouts, completed: map<Repo, Commit>, n: nat)
    requires n <= |plan|
  {
    && (forall j :: 0 <= j < n ==> Prepared(repos, plan[j]))
    && HeadsFollow(plan, repos, completed, n)
    && (forall j :: n <= j < |plan| ==> Frozen(repos, plan[j]) && plan[j].name !in completed)
  }

  /** Some gitlink of repository `n` would have to move backward or aside. */
  ghost predicate Blocked(plan: seq<Repository>, repos: Checkouts, n: nat)
    requires n < |plan|
  {
    exists k :: 0 <= k < |plan[n].gitlinks| && plan[n].gitlinks[k].child in repos
                && !Ancestor(plan[n].gitlinks[k].from, repos[plan[n].gitlinks[k].child].head)
  }

  // ----- one turn

  /** Where a command of a turn fails: before anything is staged, after some of the moves, after all of them
      and before the commit is made, or after it. */
  datatype Fault = NoFault | BeforeStaging | DuringStaging(moved: nat) | AfterStaging | AfterCommit

  /** No command of the turn fails: one after the commit does not come up when none is needed. */
  ghost predicate Faultless(repos: Checkouts, r: Repository, file: (bool, nat), fault: Fault) {
    fault.NoFault? || (fault.AfterCommit? && !NeedsCommit(repos, r, file.0))
  }

  /** The commit a link is to pin. */
  function Destination(repos: Checkouts, r: Repository, link: Gitlink): Option<Commit> {
    if link.child == r.name then Some(r.head) else if link.child in repos then Some(repos[link.child].head) else None
  }

  /** Every link is staged where it was or at its destination, with `all` at its destination. */
  ghost predicate IndexLeft(repos: Checkouts, r: Repository, index: seq<Link>, all: bool) {
    forall k :: 0 <= k < |r.gitlinks| ==>
                  || PinAt(index, r.gitlinks[k].path) == Destination(repos, r, r.gitlinks[k])
                  || (!all && PinAt(index, r.gitlinks[k].path) == Some(r.gitlinks[k].from))
  }

  /** How a turn that fails leaves its repository: untouched when a link may not move or nothing was staged
      yet; at its old commit with some or all moves staged; or one commit further and prepared. */
  ghost predicate TurnLeft(plan: seq<Repository>, was: Checkouts, now: Checkouts, n: nat, file: (bool, nat), fault: Fault)
    requires n < |plan| && plan[n].name in was && plan[n].name in now
  {
    var before, after := was[plan[n].name], now[plan[n].name];
    || (after == before && (Blocked(plan, now, n) || fault.BeforeStaging?))
    || ((fault.DuringStaging? || fault.AfterStaging?)
        && after.head == before.head && IndexLeft(now, plan[n], after.index, fault.AfterStaging?))
    || (fault.AfterCommit? && after.head.parents == [before.head] && Prepared(now, plan[n]) && Settled(before, now, plan[n], file))
  }

  /** Only repository `n` was touched. */
  ghost predicate OnlyTouched(plan: seq<Repository>, was: Checkouts, now: Checkouts, n: nat)
    requires n < |plan|
  {
    now.Keys == was.Keys && forall m :: m in was && m != plan[n].name ==> now[m] == was[m]
  }

  lemma OrderSelectsLinks(plan: seq<Repository>, i: nat)
    requires OrderChecks(plan) && i < |plan|
    ensures LinksSelected(plan, i)
  {
    assert OrderOk(plan, i);
    forall k | 0 <= k < |plan[i].gitlinks|
      ensures Position(plan, plan[i].gitlinks[k].child) < |plan|
    {
      assert LinkInOrder(plan, i, k);
    }
  }

  /** The repositories before `n` stand at their targets. */
  ghost predicate AtTargets(plan: seq<Repository>, repos: Checkouts, completed: map<Repo, Commit>, n: nat)
    requires n <= |plan|
  {
    forall j :: 0 <= j < n ==>
                  && plan[j].name in repos && Position(plan, plan[j].name) < |plan|
                  && repos[plan[j].name].head == Target(plan, completed, plan[j].name)
  }

  lemma EarlierTargets(plan: seq<Repository>, repos: Checkouts, completed: map<Repo, Commit>, n: nat)
    requires OrderChecks(plan) && n < |plan| && HeadsFollow(plan, repos, completed, n)
    ensures AtTargets(plan, repos, completed, n)
  {
    forall j | 0 <= j < n
      ensures Position(plan, plan[j].name) == j
    {
      assert OrderOk(plan, j);
    }
  }

  /** A link's child is an earlier repository at its target, or the repository itself. */
  lemma LinkTarget(plan: seq<Repository>, repos: Checkouts, completed: map<Repo, Commit>, n: nat, k: nat)
    requires OrderChecks(plan) && n < |plan| && LinksSelected(plan, n) && k < |plan[n].gitlinks|
    requires AtTargets(plan, repos, completed, n) && plan[n].name !in completed
    ensures var child := plan[n].gitlinks[k].child;
            if child == plan[n].name then Target(plan, completed, child) == plan[n].head
            else child in repos && repos[child].head == Target(plan, completed, child)
  {
    assert OrderOk(plan, n) && LinkInOrder(plan, n, k);
    var p := Position(plan, plan[n].gitlinks[k].child);
    assert plan[p].name == plan[n].gitlinks[k].child;
  }

  lemma BlockedByTarget(plan: seq<Repository>, repos: Checkouts, completed: map<Repo, Commit>, n: nat, k: nat)
    requires OrderChecks(plan) && n < |plan| && LinksSelected(plan, n) && k < |plan[n].gitlinks|
    requires AtTargets(plan, repos, completed, n) && plan[n].name !in completed && Frozen(repos, plan[n])
    requires !Ancestor(plan[n].gitlinks[k].from, Target(plan, completed, plan[n].gitlinks[k].child))
    ensures Blocked(plan, repos, n)
  {
    LinkTarget(plan, repos, completed, n, k);
  }

  /** Every link of repository `n` can move to its target, and `links` pins it there. */
  ghost predicate LinksAtTargets(plan: seq<Repository>, completed: map<Repo, Commit>, n: nat, links: seq<Link>)
    requires n < |plan| && LinksSelected(plan, n)
  {
    forall k :: 0 <= k < |plan[n].gitlinks| ==>
                  var target := Target(plan, completed, plan[n].gitlinks[k].child);
                  PinAt(links, plan[n].gitlinks[k].path) == Some(target) && Ancestor(plan[n].gitlinks[k].from, target)
  }

  /** With its links at their targets the repository is prepared, whether or not a commit was needed. */
  lemma TurnPrepares(plan: seq<Repository>, repos: Checkouts, completed: map<Repo, Commit>, n: nat, to: Checkout)
    requires OrderChecks(plan) && n < |plan| && LinksSelected(plan, n)
    requires AtTargets(plan, repos, completed, n) && plan[n].name !in completed
    requires Ancestor(plan[n].head, to.head) && to.index == to.head.links
    requires LinksAtTargets(plan, completed, n, to.head.links)
    ensures Prepared(repos[plan[n].name := to], plan[n])
  {
    var repos' := repos[plan[n].name := to];
    forall k | 0 <= k < |plan[n].gitlinks|
      ensures LinkPrepared(repos', plan[n], plan[n].gitlinks[k])
    {
      LinkTarget(plan, repos, completed, n, k);
      if plan[n].gitlinks[k].child == plan[n].name {
        AncestorTransitive(plan[n].gitlinks[k].from, plan[n].head, to.head);
      }
    }
  }

  lemma LinkMovesExactly(plan: seq<Repository>, was: Checkouts, now: Checkouts, completed: map<Repo, Commit>, n: nat, k: nat)
    requires OrderChecks(plan) && n < |plan| && LinksSelected(plan, n) && k < |plan[n].gitlinks|
    requires AtTargets(plan, was, completed, n) && plan[n].name !in completed && OnlyTouched(plan, was, now, n)
    ensures LinkMoves(now, plan[n], plan[n].gitlinks[k]) <==>
            plan[n].gitlinks[k].from != Target(plan, completed, plan[n].gitlinks[k].child)
  {
    LinkTarget(plan, was, completed, n, k);
  }

  /** Something is staged exactly when a commit is needed for it. */
  lemma StagedExactly(plan: seq<Repository>, was: Checkouts, now: Checkouts, completed: map<Repo, Commit>, n: nat,
                      moves: seq<(string, Commit)>)
    requires OrderChecks(plan) && n < |plan| && LinksSelected(plan, n) && MovesAre(plan, completed, n, moves, |plan[n].gitlinks|)
    requires AtTargets(plan, was, completed, n) && plan[n].name !in completed && OnlyTouched(plan, was, now, n)
    requires PinsAre(plan[n].head.links, plan[n].gitlinks)
    requires LinksAtTargets(plan, completed, n, Staged(plan[n].head.links, moves))
    ensures Staged(plan[n].head.links, moves) == plan[n].head.links <==> !NeedsCommit(now, plan[n], false)
  {
    if NeedsCommit(now, plan[n], false) {
      var k :| 0 <= k < |plan[n].gitlinks| && LinkMoves(now, plan[n], plan[n].gitlinks[k]);
      LinkMovesExactly(plan, was, now, completed, n, k);
    } else if moves != [] {
      assert moves[0] in moves;
      var k :| 0 <= k < |plan[n].gitlinks| && MovesTo(plan, completed, plan[n].gitlinks[k], moves[0]);
      LinkMovesExactly(plan, was, now, completed, n, k);
    }
  }

  /** The nested checkouts after a turn. */
  lemma NestedFollowed(plan: seq<Repository>, was: Checkouts, now: Checkouts, completed: map<Repo, Commit>, n: nat,
                       moves: seq<(string, Commit)>, path: string)
    requires OrderChecks(plan) && n < |plan| && LinksSelected(plan, n) && MovesAre(plan, completed, n, moves, |plan[n].gitlinks|)
    requires AtTargets(plan, was, completed, n) && plan[n].name !in completed && OnlyTouched(plan, was, now, n)
    requires plan[n].name in was && LinksAtTargets(plan, completed, n, now[plan[n].name].head.links)
    requires DistinctPaths(plan[n].gitlinks)
    requires now[plan[n].name].details == FollowMoves(was[plan[n].name].details, moves) && path in was[plan[n].name].details.nested
    requires path in now[plan[n].name].details.nested
    ensures NestedFollow(was[plan[n].name], now, plan[n], path)
  {
    var d, links := was[plan[n].name].details, plan[n].gitlinks;
    if k :| 0 <= k < |links| && links[k].path == path && LinkMoves(now, plan[n], links[k]) {
      LinkMovesExactly(plan, was, now, completed, n, k);
      var sha := Target(plan, completed, links[k].child);
      assert MovesTo(plan, completed, links[k], (path, sha));
      Followed(d, moves, path, sha);
    } else {
      forall other
        ensures (path, other) !in moves
      {
        if (path, other) in moves {
          var k :| 0 <= k < |links| && MovesTo(plan, completed, links[k], (path, other));
          LinkMovesExactly(plan, was, now, completed, n, k);
          assert false;
        }
      }
      Followed(d, moves, path, plan[n].head);
    }
  }

  /** How a turn that got through leaves its repository. */
  lemma TurnSettles(plan: seq<Repository>, was: Checkouts, now: Checkouts, completed: map<Repo, Commit>, n: nat,
                    moves: seq<(string, Commit)>, file: (bool, nat))
    requires OrderChecks(plan) && n < |plan| && LinksSelected(plan, n) && MovesAre(plan, completed, n, moves, |plan[n].gitlinks|)
    requires AtTargets(plan, was, completed, n) && plan[n].name !in completed && OnlyTouched(plan, was, now, n)
    requires Frozen(was, plan[n]) && DistinctPaths(plan[n].gitlinks)
    requires var to, links := now[plan[n].name], Staged(plan[n].head.links, moves);
             && LinksAtTargets(plan, completed, n, links) && to.head.links == links
             && to.head == (if links == plan[n].head.links && !file.0 then plan[n].head else Commit(file.1, [plan[n].head], links))
             && to.details == FollowMoves(was[plan[n].name].details, moves)
    ensures Settled(was[plan[n].name], now, plan[n], file)
  {
    StagedExactly(plan, was, now, completed, n, moves);
    NestedKept(was[plan[n].name].details, moves);
    forall path | !IsPathOf(plan[n], path)
      ensures PinAt(now[plan[n].name].head.links, path) == PinAt(plan[n].head.links, path)
    {
      OtherPinsStay(plan[n].head.links, moves, path);
    }
    forall path | path in was[plan[n].name].details.nested
      ensures NestedFollow(was[plan[n].name], now, plan[n], path)
    {
      NestedFollowed(plan, was, now, completed, n, moves, path);
    }
  }

  /** Changing repository `n` changes nothing about which links of the earlier ones move. */
  lemma SameMoves(plan: seq<Repository>, was: Checkouts, now: Checkouts, n: nat, j: nat)
    requires OrderChecks(plan) && j < n < |plan| && OnlyTouched(plan, was, now, n)
    ensures forall k :: 0 <= k < |plan[j].gitlinks| ==>
                          (LinkMoves(now, plan[j], plan[j].gitlinks[k]) <==> LinkMoves(was, plan[j], plan[j].gitlinks[k]))
    ensures forall changed :: NeedsCommit(now, plan[j], changed) <==> NeedsCommit(was, plan[j], changed)
  {
    assert OrderOk(plan, j) && OrderOk(plan, n);
    forall k | 0 <= k < |plan[j].gitlinks|
      ensures LinkMoves(now, plan[j], plan[j].gitlinks[k]) <==> LinkMoves(was, plan[j], plan[j].gitlinks[k])
    {
      assert LinkInOrder(plan, j, k);
    }
  }

  /** Changing repository `n` leaves the earlier ones as they were settled. */
  lemma EarlierStaySettled(plan: seq<Repository>, first: Checkouts, was: Checkouts, now: Checkouts, n: nat, j: nat, file: (bool, nat))
    requires OrderChecks(plan) && j < n < |plan| && plan[j].name in first && Settled(first[plan[j].name], was, plan[j], file)
    requires Prepared(was, plan[j]) && OnlyTouched(plan, was, now, n)
    ensures Settled(first[plan[j].name], now, plan[j], file)
  {
    SameMoves(plan, was, now, n, j);
    assert OrderOk(plan, n);
    forall path | path in first[plan[j].name].details.nested
      ensures NestedFollow(first[plan[j].name], now, plan[j], path)
    {
      assert NestedFollow(first[plan[j].name], was, plan[j], path);
    }
  }

  /** The first `n` repositories are settled. */
  ghost predicate AllSettled(plan: seq<Repository>, first: Checkouts, now: Checkouts, files: seq<(bool, nat)>, n: nat)
    requires n <= |plan| == |files|
  {
    forall j :: 0 <= j < n ==> plan[j].name in first && Settled(first[plan[j].name], now, plan[j], files[j])
  }

  lemma SettledBefore(plan: seq<Repository>, first: Checkouts, was: Checkouts, now: Checkouts, files: seq<(bool, nat)>, n: nat)
    requires OrderChecks(plan) && n < |plan| == |files| && AllSettled(plan, first, was, files, n)
    requires OnlyTouched(plan, was, now, n) && forall j :: 0 <= j < n ==> Prepared(was, plan[j])
    ensures AllSettled(plan, first, now, files, n)
  {
    forall j | 0 <= j < n
      ensures plan[j].name in first && Settled(first[plan[j].name], now, plan[j], files[j])
    {
      EarlierStaySettled(plan, first, was, now, n, j, files[j]);
    }
  }

  /** Changing repository `n` disturbs none of the earlier ones. */
  lemma EarlierStayPrepared(plan: seq<Repository>, was: Checkouts, now: Checkouts, n: nat, j: nat)
    requires OrderChecks(plan) && j < n < |plan| && Prepared(was, plan[j]) && OnlyTouched(plan, was, now, n)
    ensures Prepared(now, plan[j])
  {
    assert OrderOk(plan, j) && OrderOk(plan, n);
    forall k | 0 <= k < |plan[j].gitlinks|
      ensures LinkPrepared(now, plan[j], plan[j].gitlinks[k])
    {
      assert LinkInOrder(plan, j, k) && LinkPrepared(was, plan[j], plan[j].gitlinks[k]);
    }
  }

  /** Nor the ones still to come. */
  lemma LaterStayFrozen(plan: seq<Repository>, was: Checkouts, now: Checkouts, n: nat, j: nat)
    requires OrderChecks(plan) && n < j < |plan| && Frozen(was, plan[j]) && OnlyTouched(plan, was, now, n)
    ensures Frozen(now, plan[j]) && plan[j].name != plan[n].name
  {
    assert OrderOk(plan, j);
  }

  lemma Advance(plan: seq<Repository>, was: Checkouts, now: Checkouts, completed: map<Repo, Commit>, completed': map<Repo, Commit>, n: nat)
    requires OrderChecks(plan) && n < |plan| && Progress(plan, was, completed, n)
    requires OnlyTouched(plan, was, now, n) && Prepared(now, plan[n])
    requires now[plan[n].name].head == if plan[n].name in completed' then completed'[plan[n].name] else plan[n].head
    requires forall m :: m != plan[n].name ==> (m in completed' <==> m in completed) && (m in completed ==> completed'[m] == completed[m])
    ensures Progress(plan, now, completed', n + 1)
  {
    forall j | 0 <= j < n
      ensures Prepared(now, plan[j]) && plan[j].name != plan[n].name
    {
      EarlierStayPrepared(plan, was, now, n, j);
      assert OrderOk(plan, n);
    }
    forall j | n < j < |plan|
      ensures Frozen(now, plan[j]) && plan[j].name !in completed'
    {
      LaterStayFrozen(plan, was, now, n, j);
    }
  }

  lemma DestinationIsTarget(plan: seq<Repository>, was: Checkouts, now: Checkouts, completed: map<Repo, Commit>, n: nat, k: nat)
    requires OrderChecks(plan) && n < |plan| && LinksSelected(plan, n) && k < |plan[n].gitlinks|
    requires AtTargets(plan, was, completed, n) && plan[n].name !in completed && OnlyTouched(plan, was, now, n)
    ensures Destination(now, plan[n], plan[n].gitlinks[k]) == Some(Target(plan, completed, plan[n].gitlinks[k].child))
  {
    LinkTarget(plan, was, completed, n, k);
  }

  lemma StagedPartly(plan: seq<Repository>, was: Checkouts, now: Checkouts, completed: map<Repo, Commit>, n: nat, index: seq<Link>)
    requires OrderChecks(plan) && n < |plan| && LinksSelected(plan, n) && PartWay(plan, completed, n, index)
    requires AtTargets(plan, was, completed, n) && plan[n].name !in completed && OnlyTouched(plan, was, now, n)
    ensures IndexLeft(now, plan[n], index, false)
  {
    forall k | 0 <= k < |plan[n].gitlinks| {
      DestinationIsTarget(plan, was, now, completed, n, k);
    }
  }

  lemma StagedFully(plan: seq<Repository>, was: Checkouts, now: Checkouts, completed: map<Repo, Commit>, n: nat, index: seq<Link>)
    requires OrderChecks(plan) && n < |plan| && LinksSelected(plan, n) && LinksAtTargets(plan, completed, n, index)
    requires AtTargets(plan, was, completed, n) && plan[n].name !in completed && OnlyTouched(plan, was, now, n)
    ensures IndexLeft(now, plan[n], index, true)
  {
    forall k | 0 <= k < |plan[n].gitlinks| {
      DestinationIsTarget(plan, was, now, completed, n, k);
    }
  }

  // ----- the workspace

  datatype Outcome = Applied(commits: seq<Repo>, skipped: seq<Repo>) | Failed(retained: seq<Repo>)

  /** The local repositories. */
  class Workspace {
    var repos: Checkouts

    constructor (repos: Checkouts)
      ensures this.repos == repos
    {
      this.repos := repos;
    }

    /** Stages the moves of one repository and lets its nested checkouts follow. */
    method Stage(name: Repo, moves: seq<(string, Commit)>)
      requires name in repos
      modifies this
      ensures repos == old(repos)[name := StagedCheckout(old(repos)[name], moves)]
    {
      var c := repos[name];
      for m := 0 to |moves|
        invariant repos == old(repos)
        invariant c == StagedCheckout(repos[name], moves[..m])
      {
        var (path, sha) := moves[m];
        assert moves[..m + 1][..m] == moves[..m];
        var details := if path in c.details.nested
                       then c.details.(nested := c.details.nested[path := c.details.nested[path].(head := sha, branch := "")])
                       else c.details;
        c := c.(index := SetPin(c.index, path, sha), details := details);
      }
      assert moves[..|moves|] == moves;
      repos := repos[name := c];
    }

    /** `git commit`: a new commit of what is staged, on top of the old one. */
    method Commit(name: Repo, note: nat)
      requires name in repos
      modifies this
      ensures var c := old(repos)[name];
              repos == old(repos)[name := c.(head := Commits.Commit(note, [c.head], c.index))]
    {
      var c := repos[name];
      repos := repos[name := c.(head := Commits.Commit(note, [c.head], c.index))];
    }

    /** The recheck made before each repository is touched. */
    method Recheck(r: Repository) returns (ok: bool)
      ensures ok <==> Frozen(repos, r)
      ensures ok <==>
                && r.name in repos
                && var c := repos[r.name];
                   && c.head == r.head && c.index == r.head.links && c.details.branch == r.details.branch
                   && (forall k :: 0 <= k < |r.gitlinks| ==>
                                     && PinAt(c.index, r.gitlinks[k].path) == Some(r.gitlinks[k].from)
                                     && r.gitlinks[k].path in r.details.nested
                                     && r.details.nested[r.gitlinks[k].path].head == r.gitlinks[k].from)
                   && (forall f :: f in r.details.files ==> f in c.details.files && c.details.files[f] == r.details.files[f])
                   && (forall p :: p in r.details.nested ==>
                                     p in c.details.nested && c.details.nested[p] == r.details.nested[p] && r.details.nested[p].clean)
    {
      if r.name !in repos || repos[r.name].head != r.head || repos[r.name].index != r.head.links {
        return false;
      }
      for k := 0 to |r.gitlinks|
        invariant forall j :: 0 <= j < k ==> PinAt(repos[r.name].index, r.gitlinks[j].path) == Some(r.gitlinks[j].from)
      {
        if PinAt(repos[r.name].index, r.gitlinks[k].path) != Some(r.gitlinks[k].from) {
          return false;
        }
      }
      ok := SameDetails(repos[r.name].details, r);
    }

    /** The recheck of all repositories before the first write. */
    method RecheckAll(plan: seq<Repository>) returns (ok: bool)
      ensures ok <==> forall j :: 0 <= j < |plan| ==> Frozen(repos, plan[j])
    {
      for i := 0 to |plan|
        invariant forall j :: 0 <= j < i ==> Frozen(repos, plan[j])
      {
        ok := Recheck(plan[i]);
        if !ok {
          return;
        }
      }
      ok := true;
    }

    /** The second half of a turn: stage the moves and commit if anything is staged. */
    method StageAndCommit(plan: seq<Repository>, n: nat, completed: map<Repo, Commit>, moves: seq<(string, Commit)>,
                          file: (bool, nat), fault: Fault)
      returns (ok: bool, completed': map<Repo, Commit>)
      requires OrderChecks(plan) && n < |plan| && LinksSelected(plan, n) && Progress(plan, repos, completed, n)
      requires LinksAtTargets(plan, completed, n, Staged(plan[n].head.links, moves)) && !fault.BeforeStaging?
      requires AlwaysPartWay(plan, completed, n, plan[n].head.links, moves) && DistinctPaths(plan[n].gitlinks)
      requires MovesAre(plan, completed, n, moves, |plan[n].gitlinks|)
      modifies this
      ensures OnlyTouched(plan, old(repos), repos, n)
      ensures ok ==> Progress(plan, repos, completed', n + 1) && Settled(old(repos)[plan[n].name], repos, plan[n], file)
      ensures ok ==> (plan[n].name in completed' <==> repos[plan[n].name].head != plan[n].head)
      ensures ok ==> Faultless(repos, plan[n], file, fault)
      ensures !ok ==> TurnLeft(plan, old(repos), repos, n, file, fault)
    {
      var name := plan[n].name;
      EarlierTargets(plan, repos, completed, n);
      if fault.DuringStaging? {
        var staged := if fault.moved < |moves| then fault.moved else |moves|;
        Stage(name, moves[..staged]);
        StagedPartly(plan, old(repos), repos, completed, n, repos[name].index);
        return false, completed;
      }
      Stage(name, moves);
      if fault.AfterStaging? {
        StagedFully(plan, old(repos), repos, completed, n, repos[name].index);
        return false, completed;
      }
      ok, completed' := CommitStaged(plan, n, completed, moves, file, fault, old(repos));
    }

    /** The commit of what is staged, if anything is. */
    method CommitStaged(plan: seq<Repository>, n: nat, completed: map<Repo, Commit>, ghost moves: seq<(string, Commit)>,
                        file: (bool, nat), fault: Fault, ghost was: Checkouts)
      returns (ok: bool, completed': map<Repo, Commit>)
      requires OrderChecks(plan) && n < |plan| && LinksSelected(plan, n) && Progress(plan, was, completed, n)
      requires AtTargets(plan, was, completed, n) && DistinctPaths(plan[n].gitlinks)
      requires LinksAtTargets(plan, completed, n, Staged(plan[n].head.links, moves))
      requires MovesAre(plan, completed, n, moves, |plan[n].gitlinks|)
      requires repos == was[plan[n].name := StagedCheckout(was[plan[n].name], moves)]
      requires fault.NoFault? || fault.AfterCommit?
      modifies this
      ensures OnlyTouched(plan, was, repos, n)
      ensures ok ==> Progress(plan, repos, completed', n + 1) && Settled(was[plan[n].name], repos, plan[n], file)
      ensures ok ==> (plan[n].name in completed' <==> repos[plan[n].name].head != plan[n].head)
      ensures ok ==> Faultless(repos, plan[n], file, fault)
      ensures !ok ==> TurnLeft(plan, was, repos, n, file, fault)
    {
      var name := plan[n].name;
      completed' := completed;
      if repos[name].index == plan[n].head.links && !file.0 {
        TurnPrepares(plan, was, completed, n, repos[name]);
        TurnSettles(plan, was, repos, completed, n, moves, file);
        Advance(plan, was, repos, completed, completed, n);
        return true, completed;
      }
      Commit(name, file.1);
      ghost var to := repos[name];
      assert to.head.parents[0] == plan[n].head && Ancestor(plan[n].head, to.head.parents[0]);
      assert repos == was[name := to];
      TurnPrepares(plan, was, completed, n, to);
      TurnSettles(plan, was, repos, completed, n, moves, file);
      if fault.AfterCommit? {
        return false, completed;
      }
      NotItsOwnParent(to.head);
      completed' := completed[name := repos[name].head];
      Advance(plan, was, repos, completed, completed', n);
      ok := true;
    }

    /** One turn of the loop: recheck, work out the moves, stage them and commit if anything is staged.
        `file` says whether the owned files changed, and what they contribute to a commit. */
    method PrepareOne(plan: seq<Repository>, n: nat, completed: map<Repo, Commit>, file: (bool, nat), fault: Fault)
      returns (ok: bool, completed': map<Repo, Commit>)
      requires OrderChecks(plan) && n < |plan| && DistinctPaths(plan[n].gitlinks)
      requires Progress(plan, repos, completed, n)
      modifies this
      ensures OnlyTouched(plan, old(repos), repos, n)
      ensures ok ==> Progress(plan, repos, completed', n + 1) && Settled(old(repos)[plan[n].name], repos, plan[n], file)
      ensures ok ==> (plan[n].name in completed' <==> repos[plan[n].name].head != plan[n].head)
      ensures ok ==> Faultless(repos, plan[n], file, fault)
      ensures !ok ==> TurnLeft(plan, old(repos), repos, n, file, fault)
    {
      completed' := completed;
      ok := Recheck(plan[n]);
      if !ok {
        return;
      }
      OrderSelectsLinks(plan, n);
      EarlierTargets(plan, repos, completed, n);
      var moves;
      ok, moves := PlanMoves(plan, n, completed, repos[plan[n].name].index);
      if !ok {
        var k :| 0 <= k < |plan[n].gitlinks|
                 && !Ancestor(plan[n].gitlinks[k].from, Target(plan, completed, plan[n].gitlinks[k].child));
        BlockedByTarget(plan, repos, completed, n, k);
        return;
      }
      if fault.BeforeStaging? {
        return false, completed;
      }
      ok, completed' := StageAndCommit(plan, n, completed, moves, file, fault);
    }

    /** A turn with its place in the lists of the result. */
    method CommitNext(plan: seq<Repository>, n: nat, completed: map<Repo, Commit>, files: seq<(bool, nat)>, faults: seq<Fault>,
                      commits: seq<Repo>, skipped: seq<Repo>, ghost first: Checkouts)
      returns (ok: bool, completed': map<Repo, Commit>, commits': seq<Repo>, skipped': seq<Repo>)
      requires OrderChecks(plan) && n < |plan| == |files| == |faults| && DistinctPaths(plan[n].gitlinks)
      requires Progress(plan, repos, completed, n) && SoFar(plan, first, repos, files, commits, skipped, n)
      requires AllFaultless(plan, repos, files, faults, n)
      modifies this
      ensures ok ==> Progress(plan, repos, completed', n + 1) && SoFar(plan, first, repos, files, commits', skipped', n + 1)
      ensures AllFaultless(plan, repos, files, faults, if ok then n + 1 else n)
      ensures !ok ==> StoppedAt(plan, first, repos, files, commits', skipped', n, faults[n])
    {
      ghost var was := repos;
      commits', skipped' := commits, skipped;
      ok, completed' := PrepareOne(plan, n, completed, files[n], faults[n]);
      FaultlessMore(plan, was, repos, files, faults, n, ok);
      if !ok {
        StopsAt(plan, first, was, repos, files, commits, skipped, n, faults[n]);
        return;
      }
      OneMoreSoFar(plan, first, was, repos, files, commits, skipped, n);
      if plan[n].name in completed' {
        commits' := commits + [plan[n].name];
      } else {
        skipped' := skipped + [plan[n].name];
      }
    }

    /** The loop over the repositories, children first. */
    method CommitInOrder(plan: seq<Repository>, files: seq<(bool, nat)>, faults: seq<Fault>)
      returns (ok: bool, ghost done: nat, commits: seq<Repo>, skipped: seq<Repo>)
      requires OrderChecks(plan) && |files| == |plan| && |faults| == |plan|
      requires forall i :: 0 <= i < |plan| ==> DistinctPaths(plan[i].gitlinks)
      requires forall j :: 0 <= j < |plan| ==> Frozen(repos, plan[j])
      modifies this
      ensures done <= |plan| && Accounted(plan, repos, commits, skipped, done)
      ensures AllSettled(plan, old(repos), repos, files, done) && AllFaultless(plan, repos, files, faults, done)
      ensures ok ==> done == |plan| && DoneUpTo(plan, old(repos), repos, done)
      ensures !ok ==> done < |plan| && LeftAt(plan, old(repos), repos, done, files[done], faults[done])
    {
      var completed: map<Repo, Commit> := map[];
      done, commits, skipped := 0, [], [];
      for n := 0 to |plan|
        invariant done == n
        invariant Progress(plan, repos, completed, n)
        invariant SoFar(plan, old(repos), repos, files, commits, skipped, n)
        invariant AllFaultless(plan, repos, files, faults, n)
      {
        ok, completed, commits, skipped := CommitNext(plan, n, completed, files, faults, commits, skipped, old(repos));
        if !ok {
          return;
        }
        done := n + 1;
      }
      ok := true;
    }

    /** `applyPreparation`.  `files[n]` says whether the owned files of repository `n` changed, and what its
        commit would depend on besides history and gitlinks; `faults[n]` where its turn fails.  Nothing is touched
        unless the order checks pass and every repository is as frozen.  On success every repository is prepared
        and accounted for, exactly the links to other repositories name their child's final commit, and a repository
        has a commit, on top of its old one, exactly when its owned files changed or one of its links moves.  On
        failure that holds of the repositories before some `d`; repository `d` is as its failing turn left it -
        at its old commit or one further; everything else is untouched; and exactly the repositories before `d`
        that got a commit are reported as retained. */
    method ApplyPreparation(plan: seq<Repository>, files: seq<(bool, nat)>, faults: seq<Fault>) returns (r: Outcome)
      requires |files| == |plan| && |faults| == |plan|
      requires forall i :: 0 <= i < |plan| ==> DistinctPaths(plan[i].gitlinks)
      modifies this
      ensures plan == [] ==> r == Failed([])
      ensures !Startable(plan, old(repos)) ==> r == Failed([]) && repos == old(repos)
      ensures Startable(plan, old(repos)) && r.Applied? ==>
                && DoneUpTo(plan, old(repos), repos, |plan|) && Accounted(plan, repos, r.commits, r.skipped, |plan|)
                && ChildrenNamed(plan, repos, |plan|) && AllSettled(plan, old(repos), repos, files, |plan|)
                && CommitsExactly(plan, repos, files, r.commits, |plan|) && AllFaultless(plan, repos, files, faults, |plan|)
      ensures Startable(plan, old(repos)) && r.Failed? ==>
                exists d, skipped :: 0 <= d < |plan| && LeftAt(plan, old(repos), repos, d, files[d], faults[d])
                                     && Accounted(plan, repos, r.retained, skipped, d) && ChildrenNamed(plan, repos, d)
                                     && AllSettled(plan, old(repos), repos, files, d) && CommitsExactly(plan, repos, files, r.retained, d)
                                     && AllFaultless(plan, repos, files, faults, d)
    {
      if !OrderChecks(plan) {
        return Failed([]);
      }
      var ok := RecheckAll(plan);
      if !ok {
        return Failed([]);
      }
      ghost var done;
      var commits, skipped;
      ok, done, commits, skipped := CommitInOrder(plan, files, faults);
      PreparedAreNamed(plan, repos, done);
      SettledAreCommitted(plan, old(repos), repos, files, commits, skipped, done);
      r := if ok then Applied(commits, skipped) else Failed(commits);
    }
  }

  // ----- whole applications

  /** The checks made before the first write. */
  ghost predicate Startable(plan: seq<Repository>, repos: Checkouts) {
    OrderChecks(plan) && forall j :: 0 <= j < |plan| ==> Frozen(repos, plan[j])
  }

  /** The first `d` repositories are prepared and every other one is as it was. */
  ghost predicate DoneUpTo(plan: seq<Repository>, was: Checkouts, now: Checkouts, d: nat)
    requires d <= |plan|
  {
    && (forall j :: 0 <= j < d ==> Prepared(now, plan[j]))
    && now.Keys == was.Keys
    && (forall m :: m in was && Position(plan, m) >= d ==> now[m] == was[m])
  }

  /** The first `d` repositories are prepared, repository `d` is as its turn left it, and every other one is as
      it was. */
  ghost predicate LeftAt(plan: seq<Repository>, was: Checkouts, now: Checkouts, d: nat, file: (bool, nat), fault: Fault)
    requires d < |plan|
  {
    && (forall j :: 0 <= j < d ==> Prepared(now, plan[j]))
    && now.Keys == was.Keys && plan[d].name in was
    && TurnLeft(plan, was, now, d, file, fault)
    && (forall m :: m in was && Position(plan, m) > d ==> now[m] == was[m])
  }

  /** Exactly the links to other repositories name their child's commit. */
  ghost predicate ChildrenNamed(plan: seq<Repository>, repos: Checkouts, d: nat)
    requires d <= |plan|
  {
    forall j, k :: 0 <= j < d && 0 <= k < |plan[j].gitlinks| ==>
                     (NamesChild(repos, plan[j], plan[j].gitlinks[k]) <==> plan[j].gitlinks[k].child != plan[j].name)
  }

  lemma PreparedAreNamed(plan: seq<Repository>, repos: Checkouts, d: nat)
    requires d <= |plan| && forall j :: 0 <= j < d ==> Prepared(repos, plan[j])
    ensures ChildrenNamed(plan, repos, d)
  {
    forall j, k | 0 <= j < d && 0 <= k < |plan[j].gitlinks|
      ensures NamesChild(repos, plan[j], plan[j].gitlinks[k]) <==> plan[j].gitlinks[k].child != plan[j].name
    {
      PreparedNamesChildren(repos, plan[j], k);
    }
  }

  /** The lists of the result say which repositories got a commit and which needed none. */
  ghost predicate Accounted(plan: seq<Repository>, repos: Checkouts, commits: seq<Repo>, skipped: seq<Repo>, n: nat)
    requires n <= |plan|
  {
    && (forall j :: 0 <= j < n ==> plan[j].name in repos)
    && (forall m :: m in commits <==> MovedOn(plan, repos, n, m))
    && (forall m :: m in skipped <==> StayedPut(plan, repos, n, m))
  }

  /** One of the first `n` repositories, with a new commit. */
  ghost predicate MovedOn(plan: seq<Repository>, repos: Checkouts, n: nat, m: Repo)
    requires n <= |plan|
  {
    Position(plan, m) < n && m in repos && repos[m].head != plan[Position(plan, m)].head
  }

  ghost predicate StayedPut(plan: seq<Repository>, repos: Checkouts, n: nat, m: Repo)
    requires n <= |plan|
  {
    Position(plan, m) < n && m in repos && repos[m].head == plan[Position(plan, m)].head
  }

  /** No command failed in the turns of the first `n` repositories. */
  ghost predicate AllFaultless(plan: seq<Repository>, repos: Checkouts, files: seq<(bool, nat)>, faults: seq<Fault>, n: nat)
    requires n <= |plan| == |files| == |faults|
  {
    forall j :: 0 <= j < n ==> Faultless(repos, plan[j], files[j], faults[j])
  }

  lemma FaultlessMore(plan: seq<Repository>, was: Checkouts, now: Checkouts, files: seq<(bool, nat)>, faults: seq<Fault>, n: nat,
                      ok: bool)
    requires OrderChecks(plan) && n < |plan| == |files| == |faults| && OnlyTouched(plan, was, now, n)
    requires AllFaultless(plan, was, files, faults, n) && (ok ==> Faultless(now, plan[n], files[n], faults[n]))
    ensures AllFaultless(plan, now, files, faults, if ok then n + 1 else n)
  {
    forall j | 0 <= j < n
      ensures Faultless(now, plan[j], files[j], faults[j])
    {
      assert Faultless(was, plan[j], files[j], faults[j]);
      SameMoves(plan, was, now, n, j);
    }
  }

  /** Of the first `n` repositories exactly those that need a commit have one. */
  ghost predicate CommitsExactly(plan: seq<Repository>, repos: Checkouts, files: seq<(bool, nat)>, commits: seq<Repo>, n: nat)
    requires n <= |plan| == |files|
  {
    && (forall i :: 0 <= i < n ==> (plan[i].name in commits <==> NeedsCommit(repos, plan[i], files[i].0)))
    && (forall m :: m in commits ==> exists i :: 0 <= i < n && plan[i].name == m)
  }

  lemma SettledAreCommitted(plan: seq<Repository>, first: Checkouts, repos: Checkouts, files: seq<(bool, nat)>, commits: seq<Repo>,
                            skipped: seq<Repo>, n: nat)
    requires OrderChecks(plan) && n <= |plan| == |files| && AllSettled(plan, first, repos, files, n)
    requires Accounted(plan, repos, commits, skipped, n)
    ensures CommitsExactly(plan, repos, files, commits, n)
  {
    forall i | 0 <= i < n
      ensures plan[i].name in commits <==> NeedsCommit(repos, plan[i], files[i].0)
    {
      assert OrderOk(plan, i) && Settled(first[plan[i].name], repos, plan[i], files[i]);
      if NeedsCommit(repos, plan[i], files[i].0) {
        NotItsOwnParent(repos[plan[i].name].head);
      }
    }
  }

  /** The first `n` repositories are prepared, accounted for and settled. */
  ghost predicate SoFar(plan: seq<Repository>, first: Checkouts, now: Checkouts, files: seq<(bool, nat)>, commits: seq<Repo>,
                        skipped: seq<Repo>, n: nat)
    requires n <= |plan| == |files|
  {
    DoneUpTo(plan, first, now, n) && Accounted(plan, now, commits, skipped, n) && AllSettled(plan, first, now, files, n)
  }

  /** How a run that failed at repository `n` leaves things. */
  ghost predicate StoppedAt(plan: seq<Repository>, first: Checkouts, now: Checkouts, files: seq<(bool, nat)>, commits: seq<Repo>,
                            skipped: seq<Repo>, n: nat, fault: Fault)
    requires n < |plan| == |files|
  {
    && LeftAt(plan, first, now, n, files[n], fault) && Accounted(plan, now, commits, skipped, n)
    && AllSettled(plan, first, now, files, n)
  }

  lemma StopsAt(plan: seq<Repository>, first: Checkouts, was: Checkouts, now: Checkouts, files: seq<(bool, nat)>,
                commits: seq<Repo>, skipped: seq<Repo>, n: nat, fault: Fault)
    requires OrderChecks(plan) && n < |plan| == |files| && SoFar(plan, first, was, files, commits, skipped, n)
    requires OnlyTouched(plan, was, now, n) && plan[n].name in was && TurnLeft(plan, was, now, n, files[n], fault)
    ensures StoppedAt(plan, first, now, files, commits, skipped, n, fault)
  {
    SettledBefore(plan, first, was, now, files, n);
    StoppedHere(plan, first, was, now, n, files[n], fault);
    StillAccounted(plan, was, now, commits, skipped, n);
  }

  lemma OneMoreSoFar(plan: seq<Repository>, first: Checkouts, was: Checkouts, now: Checkouts, files: seq<(bool, nat)>,
                     commits: seq<Repo>, skipped: seq<Repo>, n: nat)
    requires OrderChecks(plan) && n < |plan| == |files| && SoFar(plan, first, was, files, commits, skipped, n)
    requires OnlyTouched(plan, was, now, n) && forall j :: 0 <= j < n + 1 ==> Prepared(now, plan[j])
    requires plan[n].name in was && Settled(was[plan[n].name], now, plan[n], files[n])
    ensures now[plan[n].name].head != plan[n].head ==> SoFar(plan, first, now, files, commits + [plan[n].name], skipped, n + 1)
    ensures now[plan[n].name].head == plan[n].head ==> SoFar(plan, first, now, files, commits, skipped + [plan[n].name], n + 1)
  {
    SettledMore(plan, first, was, now, files, n);
    OneMore(plan, first, was, now, n);
    AccountOneMore(plan, was, now, commits, skipped, n);
  }

  lemma SettledMore(plan: seq<Repository>, first: Checkouts, was: Checkouts, now: Checkouts, files: seq<(bool, nat)>, n: nat)
    requires OrderChecks(plan) && n < |plan| == |files| && DoneUpTo(plan, first, was, n) && AllSettled(plan, first, was, files, n)
    requires OnlyTouched(plan, was, now, n)
    requires plan[n].name in was && Settled(was[plan[n].name], now, plan[n], files[n])
    ensures AllSettled(plan, first, now, files, n + 1)
  {
    SettledBefore(plan, first, was, now, files, n);
    NotTouchedYet(plan, first, was, n);
  }

  lemma NotTouchedYet(plan: seq<Repository>, first: Checkouts, was: Checkouts, n: nat)
    requires OrderChecks(plan) && n < |plan| && DoneUpTo(plan, first, was, n) && plan[n].name in was
    ensures plan[n].name in first && was[plan[n].name] == first[plan[n].name]
  {
    assert OrderOk(plan, n);
  }

  lemma OneMore(plan: seq<Repository>, first: Checkouts, was: Checkouts, now: Checkouts, n: nat)
    requires OrderChecks(plan) && n < |plan| && DoneUpTo(plan, first, was, n) && OnlyTouched(plan, was, now, n)
    requires forall j :: 0 <= j < n + 1 ==> Prepared(now, plan[j])
    ensures DoneUpTo(plan, first, now, n + 1)
  {
    assert OrderOk(plan, n);
  }

  lemma StoppedHere(plan: seq<Repository>, first: Checkouts, was: Checkouts, now: Checkouts, n: nat, file: (bool, nat), fault: Fault)
    requires OrderChecks(plan) && n < |plan| && DoneUpTo(plan, first, was, n) && OnlyTouched(plan, was, now, n)
    requires plan[n].name in was && TurnLeft(plan, was, now, n, file, fault)
    ensures LeftAt(plan, first, now, n, file, fault)
  {
    assert OrderOk(plan, n);
    forall j | 0 <= j < n
      ensures Prepared(now, plan[j])
    {
      EarlierStayPrepared(plan, was, now, n, j);
    }
    assert was[plan[n].name] == first[plan[n].name];
  }

  lemma StillAccounted(plan: seq<Repository>, was: Checkouts, now: Checkouts, commits: seq<Repo>, skipped: seq<Repo>, n: nat)
    requires OrderChecks(plan) && n < |plan| && Accounted(plan, was, commits, skipped, n) && OnlyTouched(plan, was, now, n)
    ensures Accounted(plan, now, commits, skipped, n)
  {
    assert OrderOk(plan, n);
  }

  /** Repository `n` joins the accounted ones; no other does. */
  lemma OneNameMore(plan: seq<Repository>, was: Checkouts, now: Checkouts, n: nat, m: Repo)
    requires OrderChecks(plan) && n < |plan| && OnlyTouched(plan, was, now, n)
    requires forall j :: 0 <= j <= n ==> plan[j].name in now
    ensures MovedOn(plan, now, n + 1, m) <==>
            (m == plan[n].name && now[m].head != plan[n].head) || (m != plan[n].name && MovedOn(plan, was, n, m))
    ensures StayedPut(plan, now, n + 1, m) <==>
            (m == plan[n].name && now[m].head == plan[n].head) || (m != plan[n].name && StayedPut(plan, was, n, m))
    ensures m == plan[n].name ==> !MovedOn(plan, was, n, m) && !StayedPut(plan, was, n, m)
  {
    assert OrderOk(plan, n);
  }

  lemma AccountOneMore(plan: seq<Repository>, was: Checkouts, now: Checkouts, commits: seq<Repo>, skipped: seq<Repo>, n: nat)
    requires OrderChecks(plan) && n < |plan| && Accounted(plan, was, commits, skipped, n) && OnlyTouched(plan, was, now, n)
    requires plan[n].name in now
    ensures now[plan[n].name].head != plan[n].head ==> Accounted(plan, now, commits + [plan[n].name], skipped, n + 1)
    ensures now[plan[n].name].head == plan[n].head ==> Accounted(plan, now, commits, skipped + [plan[n].name], n + 1)
  {
    var name := plan[n].name;
    var commits' := if now[name].head != plan[n].head then commits + [name] else commits;
    var skipped' := if now[name].head == plan[n].head then skipped + [name] else skipped;
    forall m
      ensures m in commits' <==> MovedOn(plan, now, n + 1, m)
      ensures m in skipped' <==> StayedPut(plan, now, n + 1, m)
    {
      OneNameMore(plan, was, now, n, m);
    }
  }
}
