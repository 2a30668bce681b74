/** The publication of a squash integration: the last checks of `merge` (scripts/workspace.ts) and its push loop
    as a step system, one step per remote read or write, interleaved with other writers that move the base
    branches forward. */
module SquashPush {
  import opened Wrappers
  import opened Commits
  import opened Squash

  /** Per repository, in order of integration: the base branch's commit when `merge` began, and the commit to
      publish.  `listed` is the order in which the last checks visit the repositories. */
  datatype Setup = Setup(frozen: seq<Commit>, to: seq<Commit>, listed: seq<nat>, publish: bool)

  datatype Pc =
    | Verify(k: nat)   // last checks: repositories listed before k found unmoved
    | Look(i: nat)     // about to read repository i's base branch
    | Send(i: nat)     // about to run git push for repository i
    | Done
    | Stopped

  /** A remote write made by this run. */
  datatype Update = Update(repo: nat, from: Commit, to: Commit)

  /** `live` are the remote base branches. */
  datatype State = State(live: seq<Commit>, pc: Pc, published: nat, updates: seq<Update>)

  /** The last checks visit every repository. */
  ghost predicate AllListed(c: Setup) {
    && (forall k :: 0 <= k < |c.listed| ==> c.listed[k] < |c.to|)
    && (forall i: nat :: i < |c.to| ==> i in c.listed)
  }

  ghost predicate WellFormed(c: Setup) {
    |c.frozen| == |c.to| && (forall i :: 0 <= i < |c.to| ==> Ancestor(c.frozen[i], c.to[i])) && AllListed(c)
  }

  predicate InRange(c: Setup, s: State) {
    && |s.live| == |c.to| == |c.frozen|
    && match s.pc
       case Verify(k) => k <= |c.listed|
       case Look(i) => i <= |c.to|
       case Send(i) => i < |c.to|
       case Done => true
       case Stopped => true
  }

  // ----- steps

  function Stop(s: State): State {
    s.(pc := Stopped)
  }

  /** `git push` without force: up to date, a fast-forward from the commit it finds, or refused. */
  function Transfer(c: Setup, s: State, i: nat): State
    requires InRange(c, s) && i < |c.to|
  {
    if s.live[i] == c.to[i] then s.(published := i + 1, pc := Look(i + 1))
    else if Ancestor(s.live[i], c.to[i]) then
      s.(live := s.live[i := c.to[i]], published := i + 1, pc := Look(i + 1),
         updates := s.updates + [Update(i, s.live[i], c.to[i])])
    else Stop(s)
  }

  function Step(c: Setup, s: State): State
    requires InRange(c, s) && forall k :: 0 <= k < |c.listed| ==> c.listed[k] < |c.to|
  {
    match s.pc
    case Verify(k) =>
      if k == |c.listed| then s.(pc := if c.publish then Look(0) else Done)
      else if s.live[c.listed[k]] == c.frozen[c.listed[k]] then s.(pc := Verify(k + 1)) else Stop(s)
    case Look(i) =>
      if i == |c.to| then s.(pc := Done) else if s.live[i] == c.frozen[i] then s.(pc := Send(i)) else Stop(s)
    case Send(i) => Transfer(c, s, i)
    case Done => s
    case Stopped => s
  }

  ghost predicate Forward(older: seq<Commit>, newer: seq<Commit>) {
    |older| == |newer| && forall i :: 0 <= i < |older| ==> Ancestor(older[i], newer[i])
  }

  /** Other writers move base branches forward. */
  ghost predicate Others(s: State, s': State) {
    s' == s.(live := s'.live) && Forward(s.live, s'.live)
  }

  ghost predicate Next(c: Setup, s: State, s': State)
    requires WellFormed(c) && InRange(c, s)
  {
    s' == Step(c, s) || Others(s, s') || (!s.pc.Done? && s' == Stop(s))
  }

  function Begin(live: seq<Commit>): State {
    State(live, Verify(0), 0, [])
  }

  ghost predicate IsRun(c: Setup, run: seq<State>) {
    && WellFormed(c) && run != [] && Forward(c.frozen, run[0].live) && run[0] == Begin(run[0].live)
    && forall n :: 0 <= n < |run| - 1 ==> InRange(c, run[n]) && Next(c, run[n], run[n + 1])
  }

  // ----- what every state keeps

  /** A write is a fast-forward of an unpublished repository's branch, from the frozen commit or past it. */
  ghost predicate ForwardUpdate(c: Setup, s: State, u: Update)
    requires |c.to| == |c.frozen|
  {
    && u.repo < s.published <= |c.to| && u.to == c.to[u.repo] && u.from != u.to
    && Ancestor(c.frozen[u.repo], u.from) && Ancestor(u.from, u.to)
  }

  ghost predicate Reached(c: Setup, s: State)
    requires |s.live| == |c.to|
  {
    s.published <= |c.to| && forall i :: 0 <= i < s.published ==> Ancestor(c.to[i], s.live[i])
  }

  ghost predicate Counted(c: Setup, s: State) {
    match s.pc
    case Verify(k) => s.published == 0
    case Look(i) => c.publish && s.published == i
    case Send(i) => c.publish && s.published == i
    case Done => s.published == if c.publish then |c.to| else 0
    case Stopped => true
  }

  ghost predicate Invariant(c: Setup, s: State) {
    && InRange(c, s) && Forward(c.frozen, s.live) && Reached(c, s) && Counted(c, s)
    && (forall k :: 0 <= k < |s.updates| ==> ForwardUpdate(c, s, s.updates[k]))
    && (forall j, k :: 0 <= j < k < |s.updates| ==> s.updates[j].repo < s.updates[k].repo)
    && (!c.publish ==> s.updates == [])
  }

  lemma ForwardTransitive(a: seq<Commit>, b: seq<Commit>, c: seq<Commit>)
    requires Forward(a, b) && Forward(b, c)
    ensures Forward(a, c)
  {
    forall i | 0 <= i < |a|
      ensures Ancestor(a[i], c[i])
    {
      AncestorTransitive(a[i], b[i], c[i]);
    }
  }

  lemma OthersKeepInvariant(c: Setup, s: State, s': State)
    requires Invariant(c, s) && Others(s, s')
    ensures Invariant(c, s')
  {
    ForwardTransitive(c.frozen, s.live, s'.live);
    forall i | 0 <= i < s.published
      ensures Ancestor(c.to[i], s'.live[i])
    {
      AncestorTransitive(c.to[i], s.live[i], s'.live[i]);
    }
    forall k | 0 <= k < |s'.updates|
      ensures ForwardUpdate(c, s', s'.updates[k])
    {
      assert ForwardUpdate(c, s, s.updates[k]);
    }
  }

  lemma TransferKeepsInvariant(c: Setup, s: State, i: nat)
    requires WellFormed(c) && Invariant(c, s) && s.pc == Send(i)
    ensures Invariant(c, Transfer(c, s, i))
  {
    var s' := Transfer(c, s, i);
    forall k | 0 <= k < |s'.updates|
      ensures ForwardUpdate(c, s', s'.updates[k])
    {
      assert k < |s.updates| ==> ForwardUpdate(c, s, s.updates[k]);
    }
  }

  lemma StepKeepsInvariant(c: Setup, s: State)
    requires WellFormed(c) && Invariant(c, s)
    ensures Invariant(c, Step(c, s))
  {
    if s.pc.Send? {
      TransferKeepsInvariant(c, s, s.pc.i);
    } else {
      forall k | 0 <= k < |s.updates|
        ensures ForwardUpdate(c, Step(c, s), s.updates[k])
      {
        assert ForwardUpdate(c, s, s.updates[k]);
      }
    }
  }

  /** Every state of every run, whatever other writers do and wherever it stops. */
  lemma {:induction false} PublicationIsSafe(c: Setup, run: seq<State>, n: nat)
    requires IsRun(c, run) && n < |run|
    ensures Invariant(c, run[n])
  {
    if n > 0 {
      var m := n - 1;
      PublicationIsSafe(c, run, m);
      assert Next(c, run[m], run[m + 1]);
      if run[n] == Step(c, run[m]) {
        StepKeepsInvariant(c, run[m]);
      } else if Others(run[m], run[n]) {
        OthersKeepInvariant(c, run[m], run[n]);
      } else {
        forall k | 0 <= k < |run[n].updates|
          ensures ForwardUpdate(c, run[n], run[n].updates[k])
        {
          assert ForwardUpdate(c, run[m], run[m].updates[k]);
        }
      }
    }
  }

  // ----- where a write starts

  /** In step `m` another writer moved repository `i`'s branch, already looked at, before it was pushed. */
  ghost predicate MovedAt(run: seq<State>, m: nat, i: nat) {
    && m + 1 < |run| && i < |run[m].live| == |run[m + 1].live|
    && run[m].pc == Send(i) && run[m + 1].pc == Send(i) && run[m].live[i] != run[m + 1].live[i]
  }

  ghost predicate MovedInWindow(run: seq<State>, n: nat, i: nat) {
    exists m: nat :: m < n && MovedAt(run, m, i)
  }

  /** The first `n` steps: a branch moved in its window only once its turn had come, and a write made, or about to be
      made, starts at the frozen commit exactly when it did not. */
  ghost predicate StartsRight(c: Setup, run: seq<State>, n: nat)
    requires n < |run| && InRange(c, run[n])
  {
    var s := run[n];
    && (forall i: nat :: MovedInWindow(run, n, i) ==> s.pc == Send(i) || s.published > i || s.pc.Stopped?)
    && (s.pc.Send? ==> (s.live[s.pc.i] == c.frozen[s.pc.i] <==> !MovedInWindow(run, n, s.pc.i)))
    && (forall k :: 0 <= k < |s.updates| ==> WriteRight(c, run, n, s.updates[k]))
  }

  ghost predicate WriteRight(c: Setup, run: seq<State>, n: nat, u: Update) {
    u.repo < |c.frozen| && (u.from == c.frozen[u.repo] <==> !MovedInWindow(run, n, u.repo))
  }

  lemma WindowStep(run: seq<State>, n: nat, i: nat)
    ensures MovedInWindow(run, n + 1, i) <==> MovedInWindow(run, n, i) || MovedAt(run, n, i)
  {
  }

  /** In the window. */
  lemma WindowGoesOn(c: Setup, run: seq<State>, n: nat, i: nat)
    requires n + 1 < |run| && Invariant(c, run[n]) && run[n].pc == Send(i) && Others(run[n], run[n + 1]) && InRange(c, run[n + 1])
    requires StartsRight(c, run, n)
    ensures run[n + 1].live[i] == c.frozen[i] <==> !MovedInWindow(run, n + 1, i)
  {
    var x, y := run[n].live[i], run[n + 1].live[i];
    WindowStep(run, n, i);
    assert Ancestor(c.frozen[i], x) && Ancestor(x, y);
    if y == c.frozen[i] {
      AncestorAntisymmetric(x, y);
    }
  }

  lemma WritesStayRight(c: Setup, run: seq<State>, n: nat, k: nat)
    requires n + 1 < |run| && Invariant(c, run[n]) && StartsRight(c, run, n) && k < |run[n].updates|
    ensures WriteRight(c, run, n + 1, run[n].updates[k])
  {
    var u := run[n].updates[k];
    assert ForwardUpdate(c, run[n], u) && WriteRight(c, run, n, u);
    WindowStep(run, n, u.repo);
    assert run[n].pc != Send(u.repo);
  }

  lemma TurnsStayOver(c: Setup, run: seq<State>, n: nat, i: nat)
    requires WellFormed(c) && n + 1 < |run| && Invariant(c, run[n]) && Next(c, run[n], run[n + 1]) && StartsRight(c, run, n)
    requires MovedInWindow(run, n + 1, i)
    ensures run[n + 1].pc == Send(i) || run[n + 1].published > i || run[n + 1].pc.Stopped?
  {
    WindowStep(run, n, i);
  }

  lemma SendStartsRight(c: Setup, run: seq<State>, n: nat)
    requires WellFormed(c) && n + 1 < |run| && Invariant(c, run[n]) && Next(c, run[n], run[n + 1]) && StartsRight(c, run, n)
    requires InRange(c, run[n + 1]) && run[n + 1].pc.Send?
    ensures var i := run[n + 1].pc.i; run[n + 1].live[i] == c.frozen[i] <==> !MovedInWindow(run, n + 1, i)
  {
    var i := run[n + 1].pc.i;
    if run[n].pc == Send(i) {
      WindowGoesOn(c, run, n, i);
    } else {
      WindowStep(run, n, i);
    }
  }

  lemma NewWriteIsRight(c: Setup, run: seq<State>, n: nat)
    requires WellFormed(c) && n + 1 < |run| && Invariant(c, run[n]) && run[n + 1] == Step(c, run[n]) && StartsRight(c, run, n)
    requires |run[n + 1].updates| > |run[n].updates|
    ensures WriteRight(c, run, n + 1, run[n + 1].updates[|run[n].updates|])
  {
    WindowStep(run, n, run[n].pc.i);
  }

  lemma WritesGrow(c: Setup, s: State, s': State)
    requires WellFormed(c) && Invariant(c, s) && Next(c, s, s')
    ensures s'.updates == s.updates
         || (s' == Step(c, s) && |s'.updates| == |s.updates| + 1 && s.updates == s'.updates[..|s.updates|])
  {
  }

  lemma WritesAreRight(c: Setup, run: seq<State>, n: nat, k: nat)
    requires WellFormed(c) && n + 1 < |run| && Invariant(c, run[n]) && Next(c, run[n], run[n + 1]) && StartsRight(c, run, n)
    requires k < |run[n + 1].updates|
    ensures WriteRight(c, run, n + 1, run[n + 1].updates[k])
  {
    WritesGrow(c, run[n], run[n + 1]);
    if k < |run[n].updates| {
      WritesStayRight(c, run, n, k);
    } else {
      NewWriteIsRight(c, run, n);
    }
  }

  lemma StartsRightStep(c: Setup, run: seq<State>, n: nat)
    requires WellFormed(c) && n + 1 < |run| && Invariant(c, run[n]) && Next(c, run[n], run[n + 1]) && StartsRight(c, run, n)
    requires InRange(c, run[n + 1])
    ensures StartsRight(c, run, n + 1)
  {
    var s := run[n + 1];
    forall i: nat | MovedInWindow(run, n + 1, i)
      ensures s.pc == Send(i) || s.published > i || s.pc.Stopped?
    {
      TurnsStayOver(c, run, n, i);
    }
    if s.pc.Send? {
      SendStartsRight(c, run, n);
    }
    forall k: nat | k < |s.updates|
      ensures WriteRight(c, run, n + 1, s.updates[k])
    {
      WritesAreRight(c, run, n, k);
    }
  }

  /** On every run a write starts at the frozen commit if and only if no other writer moved its branch between the last
      look at it and the push. */
  lemma {:induction false} WriteStartsAtFrozenExactly(c: Setup, run: seq<State>, n: nat)
    requires IsRun(c, run) && n < |run|
    ensures InRange(c, run[n]) && StartsRight(c, run, n)
  {
    PublicationIsSafe(c, run, n);
    if n > 0 {
      var m := n - 1;
      WriteStartsAtFrozenExactly(c, run, m);
      PublicationIsSafe(c, run, m);
      assert Next(c, run[m], run[m + 1]);
      StartsRightStep(c, run, m);
    }
  }

  // ----- the links that are published

  /** The setup `merge` arrives at: the remote commits frozen at the start are below the local bases, and what
      is published are the integration commits. */
  ghost predicate Publishes(c: Setup, plans: seq<Plan>, merges: seq<Merge>) {
    && |plans| == |merges| == |c.frozen| == |c.to| && InOrder(plans)
    && (forall i :: 0 <= i < |plans| ==> DistinctPaths(plans[i].tip.links) && Ancestor(c.frozen[i], plans[i].base))
    && (forall i :: 0 <= i < |plans| ==> c.to[i] == Integration(plans, merges, i)) && AllListed(c)
  }

  lemma IntegrationExtendsBase(plans: seq<Plan>, merges: seq<Merge>, i: nat)
    requires i < |plans| == |merges|
    ensures Ancestor(plans[i].base, Integration(plans, merges, i))
  {
    var to := Integration(plans, merges, i);
    assert Ancestor(plans[i].base, plans[i].base);
    if to != plans[i].base {
      assert to.parents[0] == plans[i].base;
    }
  }

  lemma PublishesIsWellFormed(c: Setup, plans: seq<Plan>, merges: seq<Merge>)
    requires Publishes(c, plans, merges)
    ensures WellFormed(c)
  {
    forall i | 0 <= i < |c.to|
      ensures Ancestor(c.frozen[i], c.to[i])
    {
      IntegrationExtendsBase(plans, merges, i);
      AncestorTransitive(c.frozen[i], plans[i].base, Integration(plans, merges, i));
    }
  }

  /** At every point of every run, the integration commit of every repository published so far is on its live base
      branch, and each of its rewritten links pins a commit on the child's live base branch. */
  lemma PublishedLinksAreReachable(c: Setup, plans: seq<Plan>, merges: seq<Merge>, run: seq<State>, n: nat, i: nat, k: nat)
    requires Publishes(c, plans, merges) && IsRun(c, run) && n < |run|
    requires i < run[n].published && i < |plans| && k < |plans[i].tip.links|
    requires Rewritten(plans, MergedUpTo(plans, merges, i), plans[i], plans[i].tip.links[k])
    ensures |run[n].live| == |plans| && Ancestor(Integration(plans, merges, i), run[n].live[i])
    ensures var link := plans[i].tip.links[k];
            var child := Position(plans, link.child);
            var pin := PinAt(Integration(plans, merges, i).links, link.path);
            child < i && pin == Some(Integration(plans, merges, child)) && Ancestor(pin.value, run[n].live[child])
  {
    PublicationIsSafe(c, run, n);
    SettledEarly(plans, merges, i, k);
    LinksIntegrated(plans, merges, i, k);
  }

  // ----- a run by itself

  /** `m` steps with no other writer and no command failing. */
  function Alone(c: Setup, s: State, m: nat): State
    requires InRange(c, s) && forall k :: 0 <= k < |c.listed| ==> c.listed[k] < |c.to|
    ensures InRange(c, Alone(c, s, m))
    decreases m
  {
    if m == 0 then s else Alone(c, Step(c, s), m - 1)
  }

  /** Steps a run can still make. */
  function StepsLeft(c: Setup, s: State): nat
    requires InRange(c, s)
  {
    match s.pc
    case Verify(k) => |c.listed| - k + 2 * |c.to| + 2
    case Look(i) => 2 * (|c.to| - i) + 1
    case Send(i) => 2 * (|c.to| - i)
    case Done => 0
    case Stopped => 0
  }

  /** Published repositories are at their integration commit, the others where they were frozen. */
  ghost predicate Midway(c: Setup, s: State) {
    && InRange(c, s) && !s.pc.Stopped? && Counted(c, s) && s.published <= |c.to|
    && forall i :: 0 <= i < |c.to| ==> s.live[i] == if i < s.published then c.to[i] else c.frozen[i]
  }

  lemma StepKeepsMidway(c: Setup, s: State)
    requires WellFormed(c) && Midway(c, s)
    ensures Midway(c, Step(c, s)) && (!s.pc.Done? ==> StepsLeft(c, Step(c, s)) < StepsLeft(c, s))
  {
  }

  lemma {:induction false} AloneEnds(c: Setup, s: State, m: nat)
    requires WellFormed(c) && Midway(c, s) && StepsLeft(c, s) <= m
    ensures Midway(c, Alone(c, s, m)) && Alone(c, s, m).pc.Done?
    decreases m
  {
    if m > 0 {
      StepKeepsMidway(c, s);
      AloneEnds(c, Step(c, s), m - 1);
    }
  }

  lemma {:induction false} StoppedStays(c: Setup, s: State, m: nat)
    requires WellFormed(c) && InRange(c, s) && s.pc.Stopped?
    ensures Alone(c, s, m) == s
  {
    if m > 0 {
      StoppedStays(c, s, m - 1);
    }
  }

  /** A branch that moved is found by the last checks, before anything is written. */
  lemma {:induction false} MovedBranchStops(c: Setup, live: seq<Commit>, k: nat, j: nat, m: nat)
    requires WellFormed(c) && |live| == |c.to| && k <= j < |c.listed| && live[c.listed[j]] != c.frozen[c.listed[j]] && j - k < m
    ensures Alone(c, State(live, Verify(k), 0, []), m) == State(live, Stopped, 0, [])
    decreases m
  {
    var s := State(live, Verify(k), 0, []);
    if live[c.listed[k]] == c.frozen[c.listed[k]] {
      MovedBranchStops(c, live, k + 1, j, m - 1);
    } else {
      StoppedStays(c, Stop(s), m - 1);
    }
  }

  /** By itself a run publishes everything, or writes nothing: the first exactly when no base branch moved since
      `merge` began. */
  lemma AloneAllOrNothing(c: Setup, live: seq<Commit>)
    requires WellFormed(c) && |live| == |c.to|
    ensures var s := Begin(live);
            var end := Alone(c, s, StepsLeft(c, s));
            && (live == c.frozen ==> end.pc.Done? && end.live == if c.publish then c.to else live)
            && (live != c.frozen ==> end == Stop(s))
  {
    var s := Begin(live);
    if live == c.frozen {
      AloneEnds(c, s, StepsLeft(c, s));
    } else {
      var i: nat :| i < |live| && live[i] != c.frozen[i];
      assert i in c.listed;
      var j :| 0 <= j < |c.listed| && c.listed[j] == i;
      MovedBranchStops(c, live, 0, j, StepsLeft(c, s));
    }
  }
}
