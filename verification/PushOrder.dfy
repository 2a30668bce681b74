/** Publication order, the race left to `git push`, and runs nobody disturbs (scripts/workspace.ts). */
module PushOrder {
  import opened DependencyOrder
  import opened Commits
  import opened Push

  // ----- the plans come from `ordered`

  function NeedsOf(plan: Plan): seq<Repo> {
    Children(plan.tip.links)
  }

  /** What `push` hands to `ordered`: every plan with the repositories its reviewed commit links to. */
  function ItemsOf(plans: seq<Plan>): seq<Item<Plan>> {
    Itemized(plans, NameOf, NeedsOf)
  }

  ghost predicate DistinctPlans(plans: seq<Plan>) {
    forall i, j :: 0 <= i < j < |plans| ==> plans[i].name != plans[j].name
  }

  /** Every selected child stands before its parents, and no plan links to itself. */
  ghost predicate ChildrenBefore(plans: seq<Plan>) {
    forall i, k :: 0 <= i < |plans| && 0 <= k < |plans[i].tip.links| ==>
                     var j := Index(plans, plans[i].tip.links[k].child);
                     j < i || j == |plans|
  }

  /** The order `push` works in: the plans of the selection, with selected children first. */
  lemma OrderServesPush(selection: seq<Plan>)
    requires DistinctPlans(selection) && Order(ItemsOf(selection)).Some?
    ensures var plans := Values(Order(ItemsOf(selection)).value);
            && |plans| == |selection| && (forall p :: p in plans <==> p in selection)
            && DistinctPlans(plans) && ChildrenBefore(plans)
  {
    var out := Order(ItemsOf(selection)).value;
    var plans := Values(out);
    assert forall i :: 0 <= i < |selection| ==> NameOf(selection[i]) == selection[i].name;
    ItemizedNames(selection, NameOf, NeedsOf);
    OrderReorders(ItemsOf(selection));
    ReorderedValues(selection, NameOf, NeedsOf, out);
    assert forall i :: 0 <= i < |plans| ==> NameOf(plans[i]) == plans[i].name;
    forall i, k | 0 <= i < |out| && 0 <= k < |plans[i].tip.links|
      ensures var j := Index(plans, plans[i].tip.links[k].child); j < i || j == |out|
    {
      assert NeedsOf(plans[i])[k] == plans[i].tip.links[k].child;
      NeedIsEarlier(selection, NameOf, NeedsOf, out, i, plans[i].tip.links[k].child);
    }
  }

  /** When a parent is published, each of its selected children has its reviewed commit on its live branch. */
  lemma ChildrenLandFirst(c: Setup, run: seq<State>, n: nat, i: nat, k: nat)
    requires ChildrenBefore(c.plans) && IsRun(c, run) && n < |run|
    requires i < run[n].published && i < |c.plans| && k < |c.plans[i].tip.links|
    requires Index(c.plans, c.plans[i].tip.links[k].child) < |c.plans|
    ensures var j := Index(c.plans, c.plans[i].tip.links[k].child);
            j < i && Landed(c, run[n].remotes, j)
  {
    PushIsSafe(c, run, n);
  }

  // ----- where an update starts

  ghost predicate SameOn(s: State, s': State, b: Branch) {
    (b in s.remotes <==> b in s'.remotes) && (b in s.remotes ==> s.remotes[b] == s'.remotes[b])
  }

  /** Among the first `n` steps another writer moved plan `i`'s branch while the run was about to push it. */
  ghost predicate MovedInWindow(c: Setup, run: seq<State>, n: nat, i: nat)
    requires n < |run| && i < |c.plans|
  {
    exists m :: 0 <= m < n && MovedAt(c, run, m, i)
  }

  ghost predicate MovedAt(c: Setup, run: seq<State>, m: nat, i: nat)
    requires m + 1 < |run| && i < |c.plans|
  {
    run[m].pc == Send(i) && run[m + 1].pc == Send(i) && !SameOn(run[m], run[m + 1], OwnBranch(c, i))
  }

  lemma WindowStep(c: Setup, run: seq<State>, n: nat, i: nat)
    requires n + 1 < |run| && i < |c.plans|
    ensures MovedInWindow(c, run, n + 1, i) <==> MovedInWindow(c, run, n, i) || MovedAt(c, run, n, i)
  {
  }

  /** Before a plan's turn comes nothing can have happened in its window. */
  ghost predicate TurnIsOver(s: State, i: nat) {
    s.pc == Send(i) || s.pc.Stopped? || s.published > i
  }

  lemma TurnStaysOver(c: Setup, s: State, s': State, i: nat)
    requires Invariant(c, s) && Next(c, s, s') && TurnIsOver(s, i)
    ensures TurnIsOver(s', i)
  {
  }

  lemma {:induction false} NoWindowYet(c: Setup, run: seq<State>, n: nat, i: nat)
    requires IsRun(c, run) && n < |run| && i < |c.plans| && !TurnIsOver(run[n], i)
    ensures !MovedInWindow(c, run, n, i)
  {
    if n > 0 {
      PushIsSafe(c, run, n - 1);
      assert Next(c, run[n - 1], run[n - 1 + 1]);
      if TurnIsOver(run[n - 1], i) {
        TurnStaysOver(c, run[n - 1], run[n], i);
        assert false;
      }
      NoWindowYet(c, run, n - 1, i);
      WindowStep(c, run, n - 1, i);
    }
  }

  /** An update, or the one about to be made, starts at the expected commit exactly when the window was quiet. */
  ghost predicate StartsExactly(c: Setup, run: seq<State>, n: nat)
    requires n < |run|
  {
    var s := run[n];
    && |s.expected| == |c.plans|
    && (forall k :: 0 <= k < |s.updates| ==> UpdateExact(c, run, n, s.updates[k]))
    && (s.pc.Send? ==> s.pc.i < |c.plans|
                       && (At(s.remotes, OwnBranch(c, s.pc.i), s.expected[s.pc.i]) <==> !MovedInWindow(c, run, n, s.pc.i)))
  }

  ghost predicate UpdateExact(c: Setup, run: seq<State>, n: nat, u: Update)
    requires n < |run| && |run[n].expected| == |c.plans|
  {
    u.plan < |c.plans| && (u.from == run[n].expected[u.plan] <==> !MovedInWindow(c, run, n, u.plan))
  }

  /** Updates already made keep their start, and their windows are closed. */
  lemma MadeUpdatesStay(c: Setup, run: seq<State>, n: nat, k: nat)
    requires IsRun(c, run) && n + 1 < |run| && StartsExactly(c, run, n) && k < |run[n].updates|
    requires Invariant(c, run[n]) && Next(c, run[n], run[n + 1]) && Invariant(c, run[n + 1])
    ensures UpdateExact(c, run, n + 1, run[n].updates[k])
  {
    var s, u := run[n], run[n].updates[k];
    assert ForwardUpdate(c, s, u) && UpdateExact(c, run, n, u);
    WindowStep(c, run, n, u.plan);
    assert s.pc != Send(u.plan);
    if s.pc.Start? {
      NothingPublishedYet(c, s);
      assert false;
    }
  }

  /** A writer in the window leaves the branch strictly ahead of the expected commit. */
  lemma WindowGoesOn(c: Setup, run: seq<State>, n: nat, i: nat)
    requires IsRun(c, run) && n + 1 < |run| && StartsExactly(c, run, n) && i < |c.plans|
    requires Invariant(c, run[n]) && run[n].pc == Send(i) && Others(run[n], run[n + 1])
    ensures At(run[n + 1].remotes, OwnBranch(c, i), run[n].expected[i]) <==> !MovedInWindow(c, run, n + 1, i)
  {
    var b, expected := OwnBranch(c, i), run[n].expected[i];
    WindowStep(c, run, n, i);
    var x, y := run[n].remotes[b], run[n + 1].remotes[b];
    assert Ancestor(expected, x) && Ancestor(x, y);
    if y == expected {
      AncestorAntisymmetric(x, y);
    }
  }

  lemma SendStarts(c: Setup, run: seq<State>, n: nat)
    requires IsRun(c, run) && n + 1 < |run| && StartsExactly(c, run, n)
    requires Invariant(c, run[n]) && Next(c, run[n], run[n + 1]) && Invariant(c, run[n + 1]) && run[n + 1].pc.Send?
    ensures var s := run[n + 1];
            At(s.remotes, OwnBranch(c, s.pc.i), s.expected[s.pc.i]) <==> !MovedInWindow(c, run, n + 1, s.pc.i)
  {
    var i := run[n + 1].pc.i;
    if run[n].pc == Own(i) {
      NoWindowYet(c, run, n, i);
      WindowStep(c, run, n, i);
    } else {
      WindowGoesOn(c, run, n, i);
    }
  }

  /** The update of the plan at hand starts as its window says. */
  lemma NewUpdateIsExact(c: Setup, run: seq<State>, n: nat)
    requires IsRun(c, run) && n + 1 < |run| && StartsExactly(c, run, n)
    requires Invariant(c, run[n]) && Next(c, run[n], run[n + 1]) && Invariant(c, run[n + 1])
    requires run[n].pc.Send? && |run[n + 1].updates| == |run[n].updates| + 1
    ensures UpdateExact(c, run, n + 1, run[n + 1].updates[|run[n].updates|])
  {
    WindowStep(c, run, n, run[n].pc.i);
  }

  lemma UpdatesGrow(c: Setup, s: State, s': State)
    requires Invariant(c, s) && Next(c, s, s')
    ensures s'.updates == s.updates
         || (s.pc.Send? && |s'.updates| == |s.updates| + 1 && s.updates == s'.updates[..|s.updates|])
  {
  }

  lemma UpdatesExactStep(c: Setup, run: seq<State>, n: nat, k: nat)
    requires IsRun(c, run) && n + 1 < |run| && StartsExactly(c, run, n)
    requires Invariant(c, run[n]) && Next(c, run[n], run[n + 1]) && Invariant(c, run[n + 1]) && k < |run[n + 1].updates|
    ensures UpdateExact(c, run, n + 1, run[n + 1].updates[k])
  {
    UpdatesGrow(c, run[n], run[n + 1]);
    if k < |run[n].updates| {
      MadeUpdatesStay(c, run, n, k);
    } else {
      NewUpdateIsExact(c, run, n);
    }
  }

  lemma StartsExactlyStep(c: Setup, run: seq<State>, n: nat)
    requires IsRun(c, run) && n + 1 < |run| && StartsExactly(c, run, n)
    requires Invariant(c, run[n]) && Next(c, run[n], run[n + 1]) && Invariant(c, run[n + 1])
    ensures StartsExactly(c, run, n + 1)
  {
    var s := run[n + 1];
    forall k: nat | k < |s.updates|
      ensures UpdateExact(c, run, n + 1, s.updates[k])
    {
      UpdatesExactStep(c, run, n, k);
    }
    if run[n + 1].pc.Send? {
      SendStarts(c, run, n);
    }
  }

  lemma {:induction false} EveryStartIsExact(c: Setup, run: seq<State>, n: nat)
    requires IsRun(c, run) && n < |run|
    ensures StartsExactly(c, run, n)
  {
    if n > 0 {
      EveryStartIsExact(c, run, n - 1);
      PushIsSafe(c, run, n - 1);
      PushIsSafe(c, run, n);
      assert Next(c, run[n - 1], run[n - 1 + 1]);
      StartsExactlyStep(c, run, n - 1);
    }
  }

  ghost predicate FromExpected(s: State) {
    forall n :: 0 <= n < |s.updates| ==> s.updates[n].plan < |s.expected| && s.updates[n].from == s.expected[s.updates[n].plan]
  }

  /** On every run an update starts at the expected commit if and only if no one moved its branch between the
      last look at it and the push. */
  lemma UpdateStartsAtExpectedExactly(c: Setup, run: seq<State>, n: nat, k: nat)
    requires IsRun(c, run) && n < |run| && k < |run[n].updates|
    ensures var u := run[n].updates[k];
            && u.plan < |c.plans| && |run[n].expected| == |c.plans|
            && (u.from == run[n].expected[u.plan] <==> !MovedInWindow(c, run, n, u.plan))
  {
    EveryStartIsExact(c, run, n);
    assert UpdateExact(c, run, n, run[n].updates[k]);
  }

  /** Other writers that leave the selected branches alone. */
  ghost predicate OthersElsewhere(c: Setup, s: State, s': State) {
    Others(s, s') && forall i :: 0 <= i < |c.plans| ==> SameOn(s, s', OwnBranch(c, i))
  }

  ghost predicate UndisturbedRun(c: Setup, run: seq<State>) {
    && IsRun(c, run)
    && forall n :: 0 <= n < |run| - 1 ==>
         InRange(c, run[n])
         && (run[n + 1] == Step(c, run[n]) || run[n + 1] == Stop(run[n]) || OthersElsewhere(c, run[n], run[n + 1]))
  }

  lemma QuietWindows(c: Setup, run: seq<State>, n: nat, i: nat)
    requires UndisturbedRun(c, run) && n < |run| && i < |c.plans|
    ensures !MovedInWindow(c, run, n, i)
  {
    forall m | 0 <= m < n
      ensures !MovedAt(c, run, m, i)
    {
      assert OthersElsewhere(c, run[m], run[m + 1]) ==> SameOn(run[m], run[m + 1], OwnBranch(c, i));
    }
  }

  /** So when no one else writes the selected branches, every update starts there. */
  lemma UndisturbedUpdates(c: Setup, run: seq<State>, n: nat)
    requires UndisturbedRun(c, run) && n < |run|
    ensures FromExpected(run[n])
  {
    forall k | 0 <= k < |run[n].updates|
      ensures run[n].updates[k].plan < |run[n].expected|
      ensures run[n].updates[k].from == run[n].expected[run[n].updates[k].plan]
    {
      UpdateStartsAtExpectedExactly(c, run, n, k);
      QuietWindows(c, run, n, run[n].updates[k].plan);
    }
  }

  // ----- a writer between the last look and `git push`

  function Oldest(): Commit { Commit(0, [], []) }
  function Middle(): Commit { Commit(1, [Oldest()], []) }
  function Newest(): Commit { Commit(2, [Middle()], []) }

  function RaceBranch(): Branch { Branch("psy-node", "mainnet-beta") }

  function RaceSetup(): Setup {
    Setup([Plan("psy-node", "mainnet-beta", Newest(), Oldest())], true, true,
          (_: Repo, _: Commit) => true, (_: Repo) => true, (_: Repo, _: Commit) => true)
  }

  function RaceAt(pc: Pc): State {
    State(map[RaceBranch() := Oldest()], [Oldest()], pc, 0, [])
  }

  function RaceEnd(pc: Pc): State {
    State(map[RaceBranch() := Newest()], [Oldest()], pc, 1, [Update(0, Middle(), Newest())])
  }

  function RaceRun(): seq<State> {
    [RaceAt(Start(0)), RaceAt(Check(0, 0)), RaceAt(Start(1)), RaceAt(Settle(0)), RaceAt(Settle(1)), RaceAt(Recheck(0)),
     RaceAt(Recheck(1)), RaceAt(Pins(0, 0)), RaceAt(Own(0)), RaceAt(Send(0)),
     RaceAt(Send(0)).(remotes := map[RaceBranch() := Middle()]), RaceEnd(Pins(1, 0)), RaceEnd(Done)]
  }

  lemma RaceHistory()
    ensures Ancestor(Oldest(), Middle()) && Ancestor(Middle(), Newest()) && Ancestor(Oldest(), Newest())
  {
    assert Ancestor(Oldest(), Middle().parents[0]);
    assert Ancestor(Middle(), Newest().parents[0]);
    AncestorTransitive(Oldest(), Middle(), Newest());
  }

  lemma RaceChecks()
    ensures var c := RaceSetup();
            && Step(c, RaceAt(Start(0))) == RaceAt(Check(0, 0)) && Step(c, RaceAt(Check(0, 0))) == RaceAt(Start(1))
            && Step(c, RaceAt(Start(1))) == RaceAt(Settle(0)) && Step(c, RaceAt(Settle(0))) == RaceAt(Settle(1))
            && Step(c, RaceAt(Settle(1))) == RaceAt(Recheck(0)) && Step(c, RaceAt(Recheck(0))) == RaceAt(Recheck(1))
            && Step(c, RaceAt(Recheck(1))) == RaceAt(Pins(0, 0))
  {
    RaceHistory();
    assert [Oldest()][0 := Oldest()] == [Oldest()];
  }

  lemma RaceSends()
    ensures var c := RaceSetup();
            var moved := RaceAt(Send(0)).(remotes := map[RaceBranch() := Middle()]);
            && Step(c, RaceAt(Pins(0, 0))) == RaceAt(Own(0)) && Step(c, RaceAt(Own(0))) == RaceAt(Send(0))
            && Others(RaceAt(Send(0)), moved)
            && Step(c, moved) == RaceEnd(Pins(1, 0)) && Step(c, RaceEnd(Pins(1, 0))) == RaceEnd(Done)
  {
    RaceHistory();
    assert Newest() != Oldest();
    var moved := RaceAt(Send(0)).(remotes := map[RaceBranch() := Middle()]);
    assert moved.remotes[RaceBranch() := Newest()] == map[RaceBranch() := Newest()];
  }

  lemma RaceStep(n: nat)
    requires n < 12
    ensures |RaceRun()| == 13 && Next(RaceSetup(), RaceRun()[n], RaceRun()[n + 1])
  {
    if n < 7 {
      RaceChecks();
    } else {
      RaceSends();
    }
  }

  /** Updates need not start at the expected commit: here another writer moves the branch to a middle commit
      after the last look, and the push carries it on from there. */
  lemma RaceMovesTheStart()
    ensures var run := RaceRun();
            && IsRun(RaceSetup(), run)
            && run[|run| - 1].pc == Done && run[|run| - 1].updates != [] && !FromExpected(run[|run| - 1])
  {
    var run := RaceRun();
    assert Initial(RaceSetup(), run[0]);
    forall n | 0 <= n < |run| - 1
      ensures Next(RaceSetup(), run[n], run[n + 1])
    {
      RaceStep(n);
    }
    assert RaceEnd(Done).updates[0].from != RaceEnd(Done).expected[0];
  }
}
