/** The supervisor around the restart policy: `handleSupervisedExit` and `spawnFromTemplate`
    (dev/locSetupV4.ts).  Sleeping, logging and the processes themselves are left to the environment. */
module Supervisor {
  import opened Wrappers
  import opened RestartPolicy
  import opened Folds

  /** The fields of a supervised process that restarts depend on. */
  class RunningProcess {
    var restartCount: nat
    var streak: Streak
    var healthySince: int
    var firstCausalStderr: Option<string>
    var marker: Option<Marker>
    var dependencyRestart: bool
    var hasExited: bool
    const useInitHint: bool

    constructor (useInitHint: bool, startedAt: int)
      ensures restartCount == 0 && streak == EmptyStreak() && this.useInitHint == useInitHint
      ensures healthySince == (if useInitHint then 0 else startedAt) && !hasExited
    {
      restartCount, streak := 0, EmptyStreak();
      healthySince := if useInitHint then 0 else startedAt;
      firstCausalStderr, marker, dependencyRestart, hasExited := None, None, false, false;
      this.useInitHint := useInitHint;
    }
  }

  /** What comes of a spawn: no process; a process; or a process, listed and wired, whose start could then not be
      logged, which the supervisor takes for a failed spawn. */
  datatype Spawn = NotStarted | Started | StartedUnlogged

  /** What surrounds the `k`-th attempt of one exit: a stop asked for at each of the four places where the
      supervisor looks, what comes of the spawn, and the clock. */
  datatype Attempt = Attempt(stopAtExit: bool, stopAfterDelay: bool, spawn: Spawn, stopOnFailure: bool, stopAfterRetry: bool,
                             now: int, observedAt: string)

  datatype Outcome = Stopped | Disabled | LimitReached | Restarted(process: RunningProcess)

  // ----- runs of plans

  /** The policy as a step from plan to plan. */
  function Replan(): (Plan, Event) -> Plan {
    (p: Plan, e: Event) => PlanRestart(p.restartCount, p.streak, e)
  }

  function Goes(): Plan -> bool {
    (p: Plan) => p.action.Restart?
  }

  /** The plan a process stands at before it exits. */
  function Standing(count: nat, streak: Streak): Plan {
    Plan(Restart, count, 0, streak)
  }

  /** From a fresh process, stepping is the run the policy is about. */
  lemma {:induction false} SteppingIsRun(es: seq<Event>, n: nat)
    requires n <= |es|
    ensures var p := After(Replan(), Standing(0, EmptyStreak()), es[..n]);
            && p.restartCount == CountAfter(es, n) && p.streak == StreakAfter(es, n)
            && (n > 0 ==> p == PlanAt(es, n))
  {
    if n > 0 {
      SteppingIsRun(es, n - 1);
      AfterSnoc(Replan(), Standing(0, EmptyStreak()), es, n - 1);
      PlanIsRecord(es, n);
    } else {
      assert es[..0] == [];
    }
  }

  lemma SteppedRun(es: seq<Event>)
    requires GoodBeforeLast(Replan(), Goes(), Standing(0, EmptyStreak()), es)
    ensures IsRun(es)
    ensures var p := After(Replan(), Standing(0, EmptyStreak()), es);
            && p.restartCount == CountAfter(es, |es|) && p.streak == StreakAfter(es, |es|)
            && (es != [] ==> p == PlanAt(es, |es|))
    ensures forall n :: 1 <= n <= |es| ==> Bounded(es, n)
  {
    forall n | 1 <= n < |es|
      ensures PlanAt(es, n).action.Restart?
    {
      SteppingIsRun(es, n);
      assert Goes()(After(Replan(), Standing(0, EmptyStreak()), es[..n]));
    }
    forall n | 1 <= n <= |es|
      ensures Bounded(es, n)
    {
      RunsAreBounded(es, n);
    }
    SteppingIsRun(es, |es|);
    assert es[..|es|] == es;
  }

  /** Failed spawns counted in the record. */
  function SpawnFailures(s: Streak): nat {
    if s.cause == Some(SpawnFailed) then s.repeats else 0
  }

  /** How many more exits can be planned when spawning keeps failing. */
  function PlansLeft(s: Streak, spawnFailed: bool): nat {
    if spawnFailed then (if SpawnFailures(s) >= 4 then 1 else 5 - SpawnFailures(s)) else 6
  }

  lemma SpawnFailureStep(count: nat, s: Streak, e: Event)
    requires e.cause == SpawnFailed && e.healthySince == 0
    ensures var plan := PlanRestart(count, s, e);
            && (plan.action.Limit? <==> SpawnFailures(s) >= MAX_IDENTICAL_RESTARTS)
            && (plan.action.Restart? ==> SpawnFailures(plan.streak) == SpawnFailures(s) + 1)
  {
    if s.cause.Some? {
      SignatureInjective(s.cause.value, SpawnFailed);
    }
  }

  /** Nothing asks for a stop from attempt `k` on and every spawn is taken for a failed one. */
  ghost predicate SpawningHopeless(env: nat -> Attempt, k: nat) {
    forall j :: k <= j ==> !env(j).stopAtExit && TriedAgain(env(j))
  }

  /** `spawnFromTemplate`: the new process inherits the count and the record. */
  method SpawnFromTemplate(template: RunningProcess, now: int) returns (p: RunningProcess)
    ensures fresh(p) && p.restartCount == template.restartCount && p.streak == template.streak
    ensures p.healthySince == if template.useInitHint then 0 else now
  {
    p := new RunningProcess(template.useInitHint, now);
    p.restartCount := template.restartCount;
    p.streak := template.streak;
  }

  /** What a process leaves behind when it ends. */
  datatype Remains = Remains(healthySince: int, stderr: Option<string>, marker: Option<Marker>, dependencyRestart: bool,
                             code: Option<int>, signal: string)

  /** The exit as the policy is told of it: a failed spawn, or what the process left behind. */
  function ExitEvent(failed: bool, r: Remains, a: Attempt): Event {
    Event(Classify(failed, r.marker, r.dependencyRestart, r.signal, r.code), r.stderr,
          if failed then 0 else r.healthySince, a.now, a.observedAt)
  }

  /** The attempt ended in what is taken for a failed spawn and is tried again. */
  predicate TriedAgain(a: Attempt) {
    !a.stopAfterDelay && !a.spawn.Started? && !a.stopOnFailure && !a.stopAfterRetry
  }

  /** The exits planned from attempt `k` on: the first is the one handed in, the others are failed spawns. */
  ghost predicate EventsOf(r: Remains, failed: bool, env: nat -> Attempt, k: nat, es: seq<Event>) {
    forall j :: 0 <= j < |es| ==>
                  es[j] == if failed || j > 0
                           then Event(SpawnFailed, r.stderr, 0, env(k + j).now, env(k + j).observedAt)
                           else Event(Classify(false, r.marker, r.dependencyRestart, r.signal, r.code), r.stderr, r.healthySince,
                                      env(k + j).now, env(k + j).observedAt)
  }

  /** After each but the last the spawn failed. */
  ghost predicate RetriedOn(env: nat -> Attempt, k: nat, es: seq<Event>) {
    forall i :: k <= i < k + |es| - 1 ==>
                  !env(i).stopAfterDelay && !env(i).spawn.Started? && !env(i).stopOnFailure && !env(i).stopAfterRetry
  }

  lemma MoreEvents(r: Remains, failed: bool, env: nat -> Attempt, k: nat, rest: seq<Event>)
    requires EventsOf(r.(healthySince := 0), true, env, k + 1, rest)
    ensures EventsOf(r, failed, env, k, [ExitEvent(failed, r, env(k))] + rest)
  {
    var es := [ExitEvent(failed, r, env(k))] + rest;
    forall j | 0 <= j < |es|
      ensures es[j] == ExitEvent(failed || j > 0, r, env(k + j))
    {
      if j > 0 {
        assert es[j] == rest[j - 1] && k + 1 + (j - 1) == k + j;
      }
    }
  }

  /** How a handled exit ends, whatever process comes of it. */
  datatype Ending = GivenUp | NewProcess | NoProcess

  function EndingOf(out: Outcome): Ending {
    match out
    case LimitReached => GivenUp
    case Restarted(_) => NewProcess
    case _ => NoProcess
  }

  /** A failed spawn uses up one of the plans left. */
  lemma OnePlanLess(count: nat, streak: Streak, e: Event, failed: bool)
    requires failed ==> e.cause == SpawnFailed && e.healthySince == 0
    ensures var plan := PlanRestart(count, streak, e);
            plan.action.Restart? ==> PlansLeft(plan.streak, true) < PlansLeft(streak, failed)
  {
    if failed {
      SpawnFailureStep(count, streak, e);
    }
  }

  /** What comes of an exit: the exits planned, how that ends, and for every process started the exits planned
      until then. */
  datatype Handling = Handling(es: seq<Event>, ending: Ending, begun: seq<seq<Event>>)

  function Prefixed(e: Event, lines: seq<seq<Event>>): seq<seq<Event>> {
    seq(|lines|, i requires 0 <= i < |lines| => [e] + lines[i])
  }

  /** The process started by the first attempt although it is taken for a failed one. */
  function Lost(e: Event, a: Attempt): seq<seq<Event>> {
    if a.spawn.StartedUnlogged? then [[e]] else []
  }

  function Handled(count: nat, streak: Streak, r: Remains, failed: bool, autoRestart: bool, env: nat -> Attempt, k: nat): Handling
    decreases PlansLeft(streak, failed)
  {
    if env(k).stopAtExit || !autoRestart then Handling([], NoProcess, [])
    else
      var e := ExitEvent(failed, r, env(k));
      var plan := PlanRestart(count, streak, e);
      if plan.action.Limit? then Handling([e], GivenUp, [])
      else if env(k).stopAfterDelay then Handling([e], NoProcess, [])
      else if env(k).spawn.Started? then Handling([e], NewProcess, [[e]])
      else if env(k).stopOnFailure || env(k).stopAfterRetry then Handling([e], NoProcess, Lost(e, env(k)))
      else
        OnePlanLess(count, streak, e, failed);
        var more := Handled(plan.restartCount, plan.streak, r.(healthySince := 0), true, autoRestart, env, k + 1);
        Handling([e] + more.es, more.ending, Lost(e, env(k)) + Prefixed(e, more.begun))
  }

  /** The count and the record each process carries. */
  ghost function Records(ps: seq<RunningProcess>): seq<(nat, Streak)>
    reads ps
  {
    seq(|ps|, i requires 0 <= i < |ps| reads ps => (ps[i].restartCount, ps[i].streak))
  }

  /** The count and the record of a plan. */
  function RecordOf(plan: Plan): (nat, Streak) {
    (plan.restartCount, plan.streak)
  }

  /** Where processes started after those exits were planned begin. */
  ghost function Beginnings(from: Plan, begun: seq<seq<Event>>): seq<(nat, Streak)> {
    seq(|begun|, i requires 0 <= i < |begun| => RecordOf(After(Replan(), from, begun[i])))
  }

  ghost predicate Different(ps: seq<RunningProcess>) {
    forall i, j :: 0 <= i < j < |ps| ==> ps[i] != ps[j]
  }

  lemma RecordsConcat(ps: seq<RunningProcess>, qs: seq<RunningProcess>)
    ensures Records(ps + qs) == Records(ps) + Records(qs)
  {
  }

  lemma DifferentConcat(ps: seq<RunningProcess>, qs: seq<RunningProcess>)
    requires Different(ps) && Different(qs) && forall q :: q in ps ==> q !in qs
    ensures Different(ps + qs)
  {
    assert forall i :: 0 <= i < |ps| ==> ps[i] in ps;
    assert forall j :: 0 <= j < |qs| ==> qs[j] in qs;
  }

  predicate Stands(count: nat, streak: Streak, plan: Plan) {
    count == plan.restartCount && streak == plan.streak
  }

  /** One pass up to the end of the spawn: the plan, and the process started if any. */
  method PlanAndSpawn(p: RunningProcess, code: Option<int>, signal: string, spawnFailed: bool, a: Attempt)
    returns (plan: Plan, e: Event, started: seq<RunningProcess>)
    modifies p
    ensures e == ExitEvent(spawnFailed, Remains(old(p.healthySince), old(p.firstCausalStderr), old(p.marker),
                                                old(p.dependencyRestart), code, signal), a)
    ensures plan == PlanRestart(old(p.restartCount), old(p.streak), e)
    ensures Stands(p.restartCount, p.streak, plan)
    ensures p.firstCausalStderr == old(p.firstCausalStderr) && p.marker == old(p.marker)
    ensures p.dependencyRestart == old(p.dependencyRestart)
    ensures |started| == if plan.action.Restart? && !a.stopAfterDelay && !a.spawn.NotStarted? then 1 else 0
    ensures started != [] ==> fresh(started[0]) && Stands(started[0].restartCount, started[0].streak, plan)
  {
    var cause := Classify(spawnFailed, p.marker, p.dependencyRestart, signal, code);
    e := Event(cause, p.firstCausalStderr, if spawnFailed then 0 else p.healthySince, a.now, a.observedAt);
    plan := PlanRestart(p.restartCount, p.streak, e);
    p.restartCount := plan.restartCount;
    p.streak := plan.streak;
    started := [];
    if plan.action.Restart? && !a.stopAfterDelay && !a.spawn.NotStarted? {
      var restarted := SpawnFromTemplate(p, a.now);
      started := [restarted];
    }
  }

  /** One pass up to the point where it is over or to be tried again. */
  method OnePass(p: RunningProcess, code: Option<int>, signal: string, spawnFailed: bool, a: Attempt)
    returns (out: Option<Outcome>, started: seq<RunningProcess>, e: Event, plan: Plan)
    modifies p
    ensures e == ExitEvent(spawnFailed, Remains(old(p.healthySince), old(p.firstCausalStderr), old(p.marker),
                                                old(p.dependencyRestart), code, signal), a)
    ensures plan == PlanRestart(old(p.restartCount), old(p.streak), e)
    ensures Stands(p.restartCount, p.streak, plan)
    ensures p.firstCausalStderr == old(p.firstCausalStderr) && p.marker == old(p.marker)
    ensures p.dependencyRestart == old(p.dependencyRestart)
    ensures |started| <= 1 && Records(started) == if started == [] then [] else [RecordOf(plan)]
    ensures forall q :: q in started ==> fresh(q)
    ensures out == None <==> plan.action.Restart? && TriedAgain(a)
    ensures out == None ==> |started| == |Lost(e, a)| && p.healthySince == 0 && p.hasExited
    ensures out.Some? ==> (EndingOf(out.value), if started == [] then [] else [[e]]) == OnlyPass(plan, e, a)
    ensures out.Some? && out.value.Restarted? ==> started == [out.value.process]
  {
    plan, e, started := PlanAndSpawn(p, code, signal, spawnFailed, a);
    if plan.action.Limit? {
      return Some(LimitReached), started, e, plan;
    }
    if a.stopAfterDelay {
      return Some(Stopped), started, e, plan;
    }
    if a.spawn.Started? {
      return Some(Restarted(started[0])), started, e, plan;
    }
    if a.stopOnFailure || a.stopAfterRetry {
      return Some(Stopped), started, e, plan;
    }
    p.hasExited := true;
    p.healthySince := 0;
    out := None;
  }

  /** How a pass ends that is not tried again, and the process it started. */
  function OnlyPass(plan: Plan, e: Event, a: Attempt): (Ending, seq<seq<Event>>) {
    if plan.action.Limit? then (GivenUp, [])
    else if a.stopAfterDelay then (NoProcess, [])
    else if a.spawn.Started? then (NewProcess, [[e]])
    else (NoProcess, Lost(e, a))
  }

  /** What is left of an exit: the record the process ends with, and those the processes started begin with. */
  ghost predicate Leaves(h: Handling, from: Plan, record: (nat, Streak), beginnings: seq<(nat, Streak)>) {
    record == RecordOf(After(Replan(), from, h.es)) && beginnings == Beginnings(from, h.begun)
  }

  lemma HandledOnce(count: nat, streak: Streak, r: Remains, failed: bool, env: nat -> Attempt, k: nat, e: Event, plan: Plan)
    requires !env(k).stopAtExit && e == ExitEvent(failed, r, env(k)) && plan == PlanRestart(count, streak, e)
    requires !(plan.action.Restart? && TriedAgain(env(k)))
    ensures var (ending, begun) := OnlyPass(plan, e, env(k));
            && Handled(count, streak, r, failed, true, env, k) == Handling([e], ending, begun)
            && Leaves(Handling([e], ending, begun), Standing(count, streak), RecordOf(plan), if begun == [] then [] else [RecordOf(plan)])
  {
    FirstStands(Standing(count, streak), e, plan);
  }

  lemma HandledMore(count: nat, streak: Streak, r: Remains, failed: bool, env: nat -> Attempt, k: nat, e: Event, plan: Plan)
    requires !env(k).stopAtExit && e == ExitEvent(failed, r, env(k)) && plan == PlanRestart(count, streak, e)
    requires plan.action.Restart? && TriedAgain(env(k))
    ensures PlansLeft(plan.streak, true) < PlansLeft(streak, failed)
    ensures var more := Handled(plan.restartCount, plan.streak, r.(healthySince := 0), true, true, env, k + 1);
            Handled(count, streak, r, failed, true, env, k)
            == Handling([e] + more.es, more.ending, Lost(e, env(k)) + Prefixed(e, more.begun))
  {
    OnePlanLess(count, streak, e, failed);
  }

  lemma LeavesMore(from: Plan, e: Event, plan: Plan, a: Attempt, rest: Handling, record: (nat, Streak), beginnings: seq<(nat, Streak)>)
    requires plan == PlanRestart(from.restartCount, from.streak, e)
    requires Leaves(rest, Standing(plan.restartCount, plan.streak), record, beginnings)
    ensures Leaves(Handling([e] + rest.es, rest.ending, Lost(e, a) + Prefixed(e, rest.begun)), from, record,
                   (if a.spawn.StartedUnlogged? then [RecordOf(plan)] else []) + beginnings)
  {
    FirstStands(from, e, plan);
    LaterStands(from, e, plan, rest.es);
    LaterBeginnings(from, e, plan, rest.begun);
    BeginningsConcat(from, Lost(e, a), Prefixed(e, rest.begun));
  }

  /** `handleSupervisedExit`, which calls itself again when a spawn fails, or seems to.  The process fields follow
      the policy through all the exits planned, and each process started begins where the plans had got to. */
  method HandleSupervisedExit(p: RunningProcess, code: Option<int>, signal: string, spawnFailed: bool,
                              autoRestart: bool, env: nat -> Attempt, k: nat)
    returns (out: Outcome, started: seq<RunningProcess>, ghost h: Handling)
    modifies p
    ensures h == Handled(old(p.restartCount), old(p.streak),
                         Remains(old(p.healthySince), old(p.firstCausalStderr), old(p.marker), old(p.dependencyRestart), code, signal),
                         spawnFailed, autoRestart, env, k)
    ensures EndingOf(out) == h.ending
    ensures Leaves(h, Standing(old(p.restartCount), old(p.streak)), (p.restartCount, p.streak), Records(started))
    ensures Different(started) && forall q :: q in started ==> fresh(q)
    ensures out.Restarted? ==> started != [] && out.process == started[|started| - 1]
    decreases PlansLeft(p.streak, spawnFailed), 1
  {
    if env(k).stopAtExit {
      out, started, h := Stopped, [], Handling([], NoProcess, []);
    } else if !autoRestart {
      out, started, h := Disabled, [], Handling([], NoProcess, []);
    } else {
      out, started, h := PlanExit(p, code, signal, spawnFailed, env, k);
    }
  }

  /** The rest of it, once it is to act. */
  method PlanExit(p: RunningProcess, code: Option<int>, signal: string, spawnFailed: bool, env: nat -> Attempt, k: nat)
    returns (out: Outcome, started: seq<RunningProcess>, ghost h: Handling)
    requires !env(k).stopAtExit
    modifies p
    ensures h == Handled(old(p.restartCount), old(p.streak),
                         Remains(old(p.healthySince), old(p.firstCausalStderr), old(p.marker), old(p.dependencyRestart), code, signal),
                         spawnFailed, true, env, k)
    ensures EndingOf(out) == h.ending
    ensures Leaves(h, Standing(old(p.restartCount), old(p.streak)), (p.restartCount, p.streak), Records(started))
    ensures Different(started) && forall q :: q in started ==> fresh(q)
    ensures out.Restarted? ==> started != [] && out.process == started[|started| - 1]
    decreases PlansLeft(p.streak, spawnFailed), 0
  {
    ghost var count, streak := p.restartCount, p.streak;
    ghost var r := Remains(p.healthySince, p.firstCausalStderr, p.marker, p.dependencyRestart, code, signal);
    var pass, e, plan;
    pass, started, e, plan := OnePass(p, code, signal, spawnFailed, env(k));
    if pass.Some? {
      HandledOnce(count, streak, r, spawnFailed, env, k, e, plan);
      out, h := pass.value, Handled(count, streak, r, spawnFailed, true, env, k);
    } else {
      HandledMore(count, streak, r, spawnFailed, env, k, e, plan);
      ghost var rest;
      out, started, rest := TryAgain(p, code, signal, env, k, started, Standing(count, streak), e, plan);
      h := Handling([e] + rest.es, rest.ending, Lost(e, env(k)) + Prefixed(e, rest.begun));
    }
  }

  /** The call to itself after what is taken for a failed spawn; `first` holds the process that was started all the
      same, if any. */
  method TryAgain(p: RunningProcess, code: Option<int>, signal: string, env: nat -> Attempt, k: nat, first: seq<RunningProcess>,
                  ghost from: Plan, ghost e: Event, ghost plan: Plan)
    returns (out: Outcome, started: seq<RunningProcess>, ghost rest: Handling)
    requires plan == PlanRestart(from.restartCount, from.streak, e) && Stands(p.restartCount, p.streak, plan)
    requires p !in first && Different(first)
    requires Records(first) == if env(k).spawn.StartedUnlogged? then [RecordOf(plan)] else []
    modifies p
    ensures rest == Handled(plan.restartCount, plan.streak,
                            Remains(old(p.healthySince), old(p.firstCausalStderr), old(p.marker), old(p.dependencyRestart), code, signal),
                            true, true, env, k + 1)
    ensures EndingOf(out) == rest.ending
    ensures Leaves(Handling([e] + rest.es, rest.ending, Lost(e, env(k)) + Prefixed(e, rest.begun)), from,
                   (p.restartCount, p.streak), Records(started))
    ensures Different(started) && forall q :: q in started ==> q in first || fresh(q)
    ensures out.Restarted? ==> started != [] && out.process == started[|started| - 1]
    decreases PlansLeft(p.streak, true), 2
  {
    var more;
    out, more, rest := HandleSupervisedExit(p, code, signal, true, true, env, k + 1);
    LeavesMore(from, e, plan, env(k), rest, (p.restartCount, p.streak), Records(more));
    started := Joined(first, more);
  }

  /** Processes started earlier and later. */
  method Joined(ps: seq<RunningProcess>, qs: seq<RunningProcess>) returns (all: seq<RunningProcess>)
    requires Different(ps) && Different(qs) && forall q :: q in ps ==> q !in qs
    ensures all == ps + qs && Different(all) && Records(all) == Records(ps) + Records(qs)
    ensures qs != [] ==> all[|all| - 1] == qs[|qs| - 1]
  {
    all := ps + qs;
    RecordsConcat(ps, qs);
    DifferentConcat(ps, qs);
  }

  lemma FirstStands(from: Plan, e: Event, plan: Plan)
    requires plan == PlanRestart(from.restartCount, from.streak, e)
    ensures After(Replan(), from, [e]) == plan
    ensures Beginnings(from, [[e]]) == [RecordOf(plan)] && Beginnings(from, []) == []
  {
    AfterOne(Replan(), from, e);
  }

  lemma LaterStands(from: Plan, e: Event, plan: Plan, es: seq<Event>)
    requires plan == PlanRestart(from.restartCount, from.streak, e)
    ensures RecordOf(After(Replan(), from, [e] + es)) == RecordOf(After(Replan(), Standing(plan.restartCount, plan.streak), es))
  {
    AfterCons(Replan(), from, e, es);
    SameStanding(plan, es);
  }

  lemma BeginningsConcat(from: Plan, a: seq<seq<Event>>, b: seq<seq<Event>>)
    ensures Beginnings(from, a + b) == Beginnings(from, a) + Beginnings(from, b)
  {
  }

  lemma LaterBeginnings(from: Plan, e: Event, plan: Plan, begun: seq<seq<Event>>)
    requires plan == PlanRestart(from.restartCount, from.streak, e)
    ensures Beginnings(from, Prefixed(e, begun)) == Beginnings(Standing(plan.restartCount, plan.streak), begun)
  {
    var to := Standing(plan.restartCount, plan.streak);
    var prefixed := Prefixed(e, begun);
    forall i | 0 <= i < |begun|
      ensures RecordOf(After(Replan(), from, prefixed[i])) == RecordOf(After(Replan(), to, begun[i]))
    {
      LaterStands(from, e, plan, begun[i]);
    }
  }

  /** Stepping on reads only the count and the record of a plan. */
  lemma SameStanding(p: Plan, es: seq<Event>)
    ensures es != [] ==> After(Replan(), p, es) == After(Replan(), Standing(p.restartCount, p.streak), es)
    ensures var q, q' := After(Replan(), p, es), After(Replan(), Standing(p.restartCount, p.streak), es);
            q.restartCount == q'.restartCount && q.streak == q'.streak
  {
    if es != [] {
      assert Replan()(p, es[0]) == Replan()(Standing(p.restartCount, p.streak), es[0]);
    }
  }

  // ----- what that means

  /** The limit is reported exactly when the last plan is the limit, and a new process exactly when the spawn
      after the last plan succeeds and is logged. */
  ghost predicate EndsRight(last: Plan, env: nat -> Attempt, k: nat, n: nat, ending: Ending) {
    && (ending.GivenUp? <==> n > 0 && last.action.Limit?)
    && (ending.NewProcess? <==> n > 0 && last.action.Restart? && !env(k + n - 1).stopAfterDelay && env(k + n - 1).spawn.Started?)
  }

  /** The exits planned are the one handed in, then failed spawns, each but the last answered with a restart
      whose spawn failed or seemed to; the last plan decides the ending. */
  lemma {:induction false} HandledExits(count: nat, streak: Streak, r: Remains, failed: bool, autoRestart: bool,
                                        env: nat -> Attempt, k: nat)
    ensures var Handling(es, ending, _) := Handled(count, streak, r, failed, autoRestart, env, k);
            && EventsOf(r, failed, env, k, es)
            && RetriedOn(env, k, es)
            && (es == [] <==> env(k).stopAtExit || !autoRestart)
            && GoodBeforeLast(Replan(), Goes(), Standing(count, streak), es)
            && EndsRight(After(Replan(), Standing(count, streak), es), env, k, |es|, ending)
    decreases PlansLeft(streak, failed), 1
  {
    if !env(k).stopAtExit && autoRestart {
      var e := ExitEvent(failed, r, env(k));
      var plan := PlanRestart(count, streak, e);
      AfterOne(Replan(), Standing(count, streak), e);
      OnePlanLess(count, streak, e, failed);
      if plan.action.Restart? && TriedAgain(env(k)) {
        HandledAgain(count, streak, r, failed, autoRestart, env, k, e, plan);
      }
    }
  }

  lemma {:induction false} HandledAgain(count: nat, streak: Streak, r: Remains, failed: bool, autoRestart: bool,
                                        env: nat -> Attempt, k: nat, e: Event, plan: Plan)
    requires !env(k).stopAtExit && autoRestart && e == ExitEvent(failed, r, env(k)) && plan == PlanRestart(count, streak, e)
    requires plan.action.Restart? && TriedAgain(env(k)) && PlansLeft(plan.streak, true) < PlansLeft(streak, failed)
    ensures var Handling(es, ending, _) := Handled(count, streak, r, failed, autoRestart, env, k);
            && EventsOf(r, failed, env, k, es)
            && RetriedOn(env, k, es)
            && es != []
            && GoodBeforeLast(Replan(), Goes(), Standing(count, streak), es)
            && EndsRight(After(Replan(), Standing(count, streak), es), env, k, |es|, ending)
    decreases PlansLeft(streak, failed), 0
  {
    var r' := r.(healthySince := 0);
    HandledExits(plan.restartCount, plan.streak, r', true, autoRestart, env, k + 1);
    var rest := Handled(plan.restartCount, plan.streak, r', true, autoRestart, env, k + 1).es;
    MoreEvents(r, failed, env, k, rest);
    StandingIsGood(plan, rest);
    GoodAfterFirst(Replan(), Goes(), Standing(count, streak), e, rest);
    AfterCons(Replan(), Standing(count, streak), e, rest);
    SameStanding(plan, rest);
    RetriedMore(env, k, e, rest);
  }

  lemma StandingIsGood(p: Plan, es: seq<Event>)
    requires GoodBeforeLast(Replan(), Goes(), Standing(p.restartCount, p.streak), es)
    ensures GoodBeforeLast(Replan(), Goes(), p, es)
  {
    forall n | 1 <= n < |es|
      ensures Goes()(After(Replan(), p, es[..n]))
    {
      SameStanding(p, es[..n]);
    }
  }

  lemma RetriedMore(env: nat -> Attempt, k: nat, e: Event, rest: seq<Event>)
    requires TriedAgain(env(k)) && RetriedOn(env, k + 1, rest)
    ensures RetriedOn(env, k, [e] + rest)
  {
  }

  /** However the spawns turn out, at most five plans follow for failed spawns; and when nothing stops the
      supervisor and every spawn fails or seems to, it uses them all up and gives up. */
  lemma {:induction false} RetriesEnd(count: nat, streak: Streak, r: Remains, failed: bool, autoRestart: bool,
                                      env: nat -> Attempt, k: nat)
    ensures var Handling(es, ending, _) := Handled(count, streak, r, failed, autoRestart, env, k);
            && |es| <= PlansLeft(streak, failed) <= (if failed then 5 else 6)
            && (autoRestart && SpawningHopeless(env, k) ==> ending == GivenUp && (failed ==> |es| == PlansLeft(streak, failed)))
    decreases PlansLeft(streak, failed)
  {
    if !env(k).stopAtExit && autoRestart {
      var e := ExitEvent(failed, r, env(k));
      var plan := PlanRestart(count, streak, e);
      OnePlanLess(count, streak, e, failed);
      if failed {
        SpawnFailureStep(count, streak, e);
      }
      if plan.action.Restart? && TriedAgain(env(k)) {
        RetriesEnd(plan.restartCount, plan.streak, r.(healthySince := 0), true, autoRestart, env, k + 1);
      }
    }
  }

  // ----- the processes an exit leaves behind

  predicate StartsProcess(a: Attempt) {
    !a.stopAfterDelay && !a.spawn.NotStarted?
  }

  /** The attempt after the `n`-th plan was made and started a process. */
  predicate StartsAt(h: Handling, env: nat -> Attempt, k: nat, n: nat) {
    1 <= n <= |h.es| && StartsProcess(env(k + n - 1)) && (n == |h.es| ==> !h.ending.GivenUp?)
  }

  ghost predicate BegunAt(h: Handling, n: nat) {
    exists i :: 0 <= i < |h.begun| && |h.begun[i]| == n
  }

  /** There is a process for every attempt that started one, in order, and no other. */
  ghost predicate BegunRight(h: Handling, env: nat -> Attempt, k: nat) {
    && (forall i :: 0 <= i < |h.begun| ==> 1 <= |h.begun[i]| <= |h.es| && h.begun[i] == h.es[..|h.begun[i]|])
    && (forall i, j :: 0 <= i < j < |h.begun| ==> |h.begun[i]| < |h.begun[j]|)
    && (forall n: nat :: BegunAt(h, n) <==> StartsAt(h, env, k, n))
  }

  lemma {:induction false} EveryStartIsLeft(count: nat, streak: Streak, r: Remains, failed: bool, autoRestart: bool,
                                            env: nat -> Attempt, k: nat)
    ensures BegunRight(Handled(count, streak, r, failed, autoRestart, env, k), env, k)
    decreases PlansLeft(streak, failed)
  {
    var h := Handled(count, streak, r, failed, autoRestart, env, k);
    if !env(k).stopAtExit && autoRestart {
      var e := ExitEvent(failed, r, env(k));
      var plan := PlanRestart(count, streak, e);
      OnePlanLess(count, streak, e, failed);
      if plan.action.Restart? && TriedAgain(env(k)) {
        var r' := r.(healthySince := 0);
        EveryStartIsLeft(plan.restartCount, plan.streak, r', true, autoRestart, env, k + 1);
        HandledExits(plan.restartCount, plan.streak, r', true, autoRestart, env, k + 1);
        LeftAfterFirst(Handled(plan.restartCount, plan.streak, r', true, autoRestart, env, k + 1), h, env, k, e);
      } else {
        LeftByOne(h, env, k, e);
      }
    }
  }

  lemma LeftByOne(h: Handling, env: nat -> Attempt, k: nat, e: Event)
    requires h.es == [e] && h.begun == if StartsProcess(env(k)) && !h.ending.GivenUp? then [[e]] else []
    ensures BegunRight(h, env, k)
  {
    assert [e][..1] == [e];
    forall n
      ensures BegunAt(h, n) <==> StartsAt(h, env, k, n)
    {
      if StartsAt(h, env, k, n) {
        assert |h.begun[0]| == n;
      }
    }
  }

  lemma LeftAfterFirst(rest: Handling, h: Handling, env: nat -> Attempt, k: nat, e: Event)
    requires TriedAgain(env(k)) && BegunRight(rest, env, k + 1) && (rest.es == [] ==> !rest.ending.GivenUp?)
    requires h == Handling([e] + rest.es, rest.ending, Lost(e, env(k)) + Prefixed(e, rest.begun))
    ensures BegunRight(h, env, k)
  {
    var lost := |Lost(e, env(k))|;
    forall i | 0 <= i < |h.begun|
      ensures 1 <= |h.begun[i]| <= |h.es| && h.begun[i] == h.es[..|h.begun[i]|]
      ensures i >= lost ==> |h.begun[i]| == 1 + |rest.begun[i - lost]|
    {
      if i >= lost {
        assert rest.begun[i - lost] == rest.es[..|rest.begun[i - lost]|];
        assert h.begun[i] == [e] + rest.begun[i - lost];
      }
    }
    forall n: nat
      ensures BegunAt(h, n) <==> StartsAt(h, env, k, n)
    {
      LeftAtShifts(rest, h, env, k, e, n);
    }
  }

  lemma LeftAtShifts(rest: Handling, h: Handling, env: nat -> Attempt, k: nat, e: Event, n: nat)
    requires TriedAgain(env(k)) && BegunRight(rest, env, k + 1) && (rest.es == [] ==> !rest.ending.GivenUp?)
    requires h == Handling([e] + rest.es, rest.ending, Lost(e, env(k)) + Prefixed(e, rest.begun))
    ensures BegunAt(h, n) <==> StartsAt(h, env, k, n)
  {
    var lost := |Lost(e, env(k))|;
    if n == 1 {
      if lost == 1 {
        assert |h.begun[0]| == 1;
      }
      assert BegunAt(h, 1) ==> lost == 1;
    } else if n >= 2 {
      assert BegunAt(rest, n - 1) <==> StartsAt(rest, env, k + 1, n - 1);
      assert k + 1 + (n - 1) - 1 == k + n - 1;
      if BegunAt(rest, n - 1) {
        var i :| 0 <= i < |rest.begun| && |rest.begun[i]| == n - 1;
        assert |h.begun[i + lost]| == n;
      }
      if BegunAt(h, n) {
        var i :| 0 <= i < |h.begun| && |h.begun[i]| == n;
        assert i >= lost && |rest.begun[i - lost]| == n - 1;
      }
    }
  }

  /** Some attempt started a process and was taken for a failed one. */
  ghost predicate LosesTrack(h: Handling, env: nat -> Attempt, k: nat) {
    exists n :: 1 <= n <= |h.es| && LostAt(h, env, k, n)
  }

  predicate LostAt(h: Handling, env: nat -> Attempt, k: nat, n: nat)
    requires n >= 1
  {
    StartsAt(h, env, k, n) && env(k + n - 1).spawn.StartedUnlogged?
  }

  /** The processes an exit leaves behind are the one that is reported, or none if none is, if and only if no
      attempt starts a process and then fails to log it; and there are several exactly when an attempt that did
      is followed by another that starts one. */
  lemma LeftIsReportedExactly(count: nat, streak: Streak, r: Remains, failed: bool, autoRestart: bool, env: nat -> Attempt, k: nat)
    ensures var h := Handled(count, streak, r, failed, autoRestart, env, k);
            && (|h.begun| == (if h.ending.NewProcess? then 1 else 0) <==> !LosesTrack(h, env, k))
            && (|h.begun| >= 2 <==> exists m, n :: 1 <= m < n && LostAt(h, env, k, m) && StartsAt(h, env, k, n))
  {
    var h := Handled(count, streak, r, failed, autoRestart, env, k);
    EveryStartIsLeft(count, streak, r, failed, autoRestart, env, k);
    ReportedIsLast(count, streak, r, failed, autoRestart, env, k, h);
    CountLeft(h, env, k);
  }

  /** Of the attempts that start a process all but the last are taken for failed ones, and the last is reported
      exactly when it was logged. */
  ghost predicate ReportsLast(h: Handling, env: nat -> Attempt, k: nat) {
    && (forall n: nat :: StartsAt(h, env, k, n) && n < |h.es| ==> LostAt(h, env, k, n))
    && (h.ending.NewProcess? <==> StartsAt(h, env, k, |h.es|) && env(k + |h.es| - 1).spawn.Started?)
  }

  lemma ReportedIsLast(count: nat, streak: Streak, r: Remains, failed: bool, autoRestart: bool, env: nat -> Attempt, k: nat, h: Handling)
    requires h == Handled(count, streak, r, failed, autoRestart, env, k)
    ensures ReportsLast(h, env, k)
  {
    HandledExits(count, streak, r, failed, autoRestart, env, k);
    EarlyStartsAreLost(h, env, k);
  }

  /** Only the last attempt can start a process and be known to. */
  lemma EarlyStartsAreLost(h: Handling, env: nat -> Attempt, k: nat)
    requires RetriedOn(env, k, h.es)
    ensures forall n: nat :: StartsAt(h, env, k, n) && n < |h.es| ==> LostAt(h, env, k, n)
  {
    forall n: nat | StartsAt(h, env, k, n) && n < |h.es|
      ensures LostAt(h, env, k, n)
    {
      assert TriedAgain(env(k + n - 1));
    }
  }

  /** Of two starts only the later can be the last. */
  lemma TwoLeft(h: Handling, env: nat -> Attempt, k: nat, m: nat, n: nat)
    requires BegunRight(h, env, k) && m < n && StartsAt(h, env, k, m) && StartsAt(h, env, k, n)
    ensures |h.begun| >= 2
  {
    assert BegunAt(h, m) && BegunAt(h, n);
  }

  lemma CountLeft(h: Handling, env: nat -> Attempt, k: nat)
    requires BegunRight(h, env, k)
    requires ReportsLast(h, env, k)
    ensures |h.begun| == (if h.ending.NewProcess? then 1 else 0) <==> !LosesTrack(h, env, k)
    ensures |h.begun| >= 2 <==> exists m, n :: 1 <= m < n && LostAt(h, env, k, m) && StartsAt(h, env, k, n)
  {
    var last := |h.es|;
    if m, n :| 1 <= m < n && LostAt(h, env, k, m) && StartsAt(h, env, k, n) {
      TwoLeft(h, env, k, m, n);
    }
    if |h.begun| >= 2 {
      assert BegunAt(h, |h.begun[0]|) && BegunAt(h, |h.begun[1]|);
      assert LostAt(h, env, k, |h.begun[0]|) && StartsAt(h, env, k, |h.begun[1]|);
    }
    if LosesTrack(h, env, k) {
      var n :| 1 <= n <= last && LostAt(h, env, k, n);
      assert BegunAt(h, n);
      if h.ending.NewProcess? {
        TwoLeft(h, env, k, n, last);
      }
    } else {
      if h.ending.NewProcess? {
        assert BegunAt(h, last);
      }
      if h.begun != [] {
        var n := |h.begun[0]|;
        assert BegunAt(h, n) && StartsAt(h, env, k, n) && !LostAt(h, env, k, n);
      }
    }
  }

  /** A failure that may still be restarted, every restart of which is started but cannot be logged: the supervisor
      gives the process up and leaves five others running. */
  lemma GivenUpWithFiveLeft(count: nat, streak: Streak, r: Remains, env: nat -> Attempt, k: nat)
    requires SpawningHopeless(env, k) && (forall j :: k <= j ==> env(j).spawn.StartedUnlogged?)
    requires var e := ExitEvent(false, r, env(k)); Failure(e) && PlanRestart(count, streak, e).action.Restart?
    ensures var h := Handled(count, streak, r, false, true, env, k);
            h.ending == GivenUp && |h.es| == 6 && |h.begun| == 5
  {
    var e := ExitEvent(false, r, env(k));
    var plan := PlanRestart(count, streak, e);
    var h := Handled(count, streak, r, false, true, env, k);
    RetriesEnd(count, streak, r, false, true, env, k);
    RetriesEnd(plan.restartCount, plan.streak, r.(healthySince := 0), true, true, env, k + 1);
    AllStarted(count, streak, r, false, env, k);
    HandledMore(count, streak, r, false, env, k, e, plan);
    if streak.cause.Some? {
      SignatureInjective(streak.cause.value, e.cause);
    }
    assert plan.streak.cause == Some(e.cause);
  }

  lemma {:induction false} AllStarted(count: nat, streak: Streak, r: Remains, failed: bool, env: nat -> Attempt, k: nat)
    requires SpawningHopeless(env, k) && (forall j :: k <= j ==> env(j).spawn.StartedUnlogged?)
    ensures var h := Handled(count, streak, r, failed, true, env, k);
            h.es != [] && |h.begun| == |h.es| - 1
    decreases PlansLeft(streak, failed)
  {
    var e := ExitEvent(failed, r, env(k));
    var plan := PlanRestart(count, streak, e);
    OnePlanLess(count, streak, e, failed);
    if plan.action.Restart? {
      AllStarted(plan.restartCount, plan.streak, r.(healthySince := 0), true, env, k + 1);
    }
  }

  // ----- two processes of one service

  function FailedExit(): Remains { Remains(0, None, None, false, Some(1), "") }

  /** The first restart is started and not logged, the second is started and logged. */
  function LogFailsOnce(): nat -> Attempt {
    (k: nat) => Attempt(false, false, if k == 0 then StartedUnlogged else Started, false, false, 1, "t")
  }

  /** One exit leaves two supervised processes with records of their own.  When the first of them fails like its
      predecessor this is counted as the second such failure, although in the run of all exits of the service a
      failed spawn came between. */
  lemma TwoProcessesTwoRecords()
    ensures var h := Handled(0, EmptyStreak(), FailedExit(), false, true, LogFailsOnce(), 0);
            && |h.es| == 2 && h.ending == NewProcess && h.begun == [h.es[..1], h.es]
            && var again := ExitEvent(false, FailedExit(), LogFailsOnce()(0));
               var first := After(Replan(), Standing(0, EmptyStreak()), h.begun[0]);
               && PlanRestart(first.restartCount, first.streak, again).streak.repeats == 2
               && PlanAt(h.es + [again], 3).streak.repeats == 1
  {
    var env, r := LogFailsOnce(), FailedExit();
    var e0, e1 := ExitEvent(false, r, env(0)), ExitEvent(true, r.(healthySince := 0), env(1));
    var p0 := PlanRestart(0, EmptyStreak(), e0);
    var p1 := PlanRestart(p0.restartCount, p0.streak, e1);
    SignatureInjective(e0.cause, e1.cause);
    var h := Handled(0, EmptyStreak(), r, false, true, env, 0);
    assert Handled(p0.restartCount, p0.streak, r.(healthySince := 0), true, true, env, 1) == Handling([e1], NewProcess, [[e1]]);
    assert h.es == [e0] + [e1] && h.begun == [[e0]] + Prefixed(e0, [[e1]]);
    assert h.es == [e0, e1] && h.begun == [[e0], [e0, e1]] && h.es[..1] == [e0];
    AfterOne(Replan(), Standing(0, EmptyStreak()), e0);
    SignatureInjective(e0.cause, e0.cause);
    RecordsOfThree(h.es + [e0], e0, e1, p0, p1);
  }

  lemma RecordsOfThree(es: seq<Event>, e0: Event, e1: Event, p0: Plan, p1: Plan)
    requires es == [e0, e1, e0] && p0 == PlanRestart(0, EmptyStreak(), e0) && p1 == PlanRestart(p0.restartCount, p0.streak, e1)
    ensures PlanAt(es, 3) == PlanRestart(p1.restartCount, p1.streak, e0)
  {
    assert CountAfter(es, 0) == 0 && StreakAfter(es, 0) == EmptyStreak();
    PlanIsRecord(es, 1);
    PlanIsRecord(es, 2);
    assert PlanAt(es, 1) == p0;
    assert PlanAt(es, 2) == p1;
  }
}
