/** A service under supervision (dev/locSetupV4.ts): every process started is wired to the same handler, and any of
    them may exit next. */
module SupervisedService {
  import opened RestartPolicy
  import opened Folds
  import opened Supervisor

  /** How one process of the service ends, and what surrounds the attempts to follow it. */
  datatype Exit = Exit(remains: Remains, env: nat -> Attempt)

  /** Every exit so far was answered with a restart, and the process stands at the last plan. */
  ghost predicate Alive(all: seq<Event>, count: nat, streak: Streak) {
    var last := After(Replan(), Standing(0, EmptyStreak()), all);
    AllGood(Replan(), Goes(), Standing(0, EmptyStreak()), all) && count == last.restartCount && streak == last.streak
  }

  /** All the exits planned are one run of the policy, which therefore bounds them, and the service is given up
      exactly at the limit. */
  ghost predicate OneRun(all: seq<Event>, count: nat, streak: Streak, givenUp: bool) {
    && IsRun(all) && (forall n :: 1 <= n <= |all| ==> Bounded(all, n))
    && count == CountAfter(all, |all|) && streak == StreakAfter(all, |all|)
    && (givenUp <==> all != [] && PlanAt(all, |all|).action.Limit?)
  }

  lemma AliveIsOneRun(all: seq<Event>, count: nat, streak: Streak)
    requires Alive(all, count, streak)
    ensures OneRun(all, count, streak, false)
  {
    SteppedRun(all);
    assert all[..|all|] == all;
    assert all != [] ==> Goes()(After(Replan(), Standing(0, EmptyStreak()), all[..|all|]));
  }

  /** One more exit handled. */
  lemma LongerLife(all: seq<Event>, es: seq<Event>, count: nat, streak: Streak, last: Plan)
    requires Alive(all, count, streak)
    requires GoodBeforeLast(Replan(), Goes(), Standing(count, streak), es) && last == After(Replan(), Standing(count, streak), es)
    ensures es == [] || last.action.Restart? ==> Alive(all + es, last.restartCount, last.streak)
    ensures OneRun(all + es, last.restartCount, last.streak, es != [] && last.action.Limit?)
  {
    var before := After(Replan(), Standing(0, EmptyStreak()), all);
    StandingIsGood(before, es);
    SameStanding(before, es);
    AfterAppend(Replan(), Standing(0, EmptyStreak()), all, es);
    GoodAppend(Replan(), Goes(), Standing(0, EmptyStreak()), all, es);
    if es == [] || last.action.Restart? {
      AliveIsOneRun(all + es, last.restartCount, last.streak);
    } else {
      SteppedRun(all + es);
    }
  }

  // ----- lines of descent

  /** A process that has ended: all the exits planned from the first process of the service down to its own, the count
      and record it ended with, and whether it was given up. */
  datatype Line = Line(events: seq<Event>, count: nat, streak: Streak, givenUp: bool)

  ghost predicate LineOk(l: Line) {
    OneRun(l.events, l.count, l.streak, l.givenUp)
  }

  /** The lines of the processes started by one that exits. */
  ghost function Continued(line: seq<Event>, begun: seq<seq<Event>>): seq<seq<Event>> {
    seq(|begun|, i requires 0 <= i < |begun| => line + begun[i])
  }

  /** Every live process stands at the end of its own line. */
  ghost predicate AllAlive(lines: seq<seq<Event>>, records: seq<(nat, Streak)>) {
    |lines| == |records| && forall i :: 0 <= i < |lines| ==> Alive(lines[i], records[i].0, records[i].1)
  }

  /** No attempt starts a process and then fails to log it. */
  ghost predicate Quiet(env: nat -> Attempt) {
    forall k :: !env(k).spawn.StartedUnlogged?
  }

  /** The exits planned until a process was started were all answered with restarts. */
  lemma BegunGoes(count: nat, streak: Streak, es: seq<Event>, n: nat)
    requires GoodBeforeLast(Replan(), Goes(), Standing(count, streak), es) && 1 <= n <= |es|
    requires n == |es| ==> After(Replan(), Standing(count, streak), es).action.Restart?
    ensures GoodBeforeLast(Replan(), Goes(), Standing(count, streak), es[..n])
    ensures After(Replan(), Standing(count, streak), es[..n]).action.Restart?
  {
    forall m | 1 <= m < n
      ensures Goes()(After(Replan(), Standing(count, streak), es[..n][..m]))
    {
      assert es[..n][..m] == es[..m];
    }
    if n == |es| {
      assert es[..n] == es;
    } else {
      assert Goes()(After(Replan(), Standing(count, streak), es[..n]));
    }
  }

  /** What one exit does to the lines: each process it started continues the line, and the line itself ends. */
  lemma ExitContinues(line: seq<Event>, count: nat, streak: Streak, r: Remains, autoRestart: bool, env: nat -> Attempt)
    requires Alive(line, count, streak)
    ensures var h := Handled(count, streak, r, false, autoRestart, env, 0);
            var last := After(Replan(), Standing(count, streak), h.es);
            && AllAlive(Continued(line, h.begun), Beginnings(Standing(count, streak), h.begun))
            && LineOk(Line(line + h.es, last.restartCount, last.streak, h.ending.GivenUp?))
            && (Quiet(env) ==> |h.begun| <= 1 && (h.begun != [] ==> h.begun[0] == h.es))
  {
    var h := Handled(count, streak, r, false, autoRestart, env, 0);
    var last := After(Replan(), Standing(count, streak), h.es);
    HandledExits(count, streak, r, false, autoRestart, env, 0);
    EveryStartIsLeft(count, streak, r, false, autoRestart, env, 0);
    LongerLife(line, h.es, count, streak, last);
    forall i | 0 <= i < |h.begun|
      ensures Alive(Continued(line, h.begun)[i], Beginnings(Standing(count, streak), h.begun)[i].0,
                    Beginnings(Standing(count, streak), h.begun)[i].1)
    {
      BegunContinues(line, count, streak, h, env, i);
    }
    if Quiet(env) {
      QuietLeavesOne(count, streak, r, autoRestart, env);
    }
  }

  lemma BegunContinues(line: seq<Event>, count: nat, streak: Streak, h: Handling, env: nat -> Attempt, i: nat)
    requires Alive(line, count, streak) && BegunRight(h, env, 0) && i < |h.begun|
    requires GoodBeforeLast(Replan(), Goes(), Standing(count, streak), h.es)
    requires EndsRight(After(Replan(), Standing(count, streak), h.es), env, 0, |h.es|, h.ending)
    ensures var p := After(Replan(), Standing(count, streak), h.begun[i]);
            Alive(line + h.begun[i], p.restartCount, p.streak)
  {
    var n := |h.begun[i]|;
    assert BegunAt(h, n);
    BegunGoes(count, streak, h.es, n);
    LongerLife(line, h.begun[i], count, streak, After(Replan(), Standing(count, streak), h.begun[i]));
  }

  lemma QuietLeavesOne(count: nat, streak: Streak, r: Remains, autoRestart: bool, env: nat -> Attempt)
    requires Quiet(env)
    ensures var h := Handled(count, streak, r, false, autoRestart, env, 0);
            |h.begun| <= 1 && (h.begun != [] ==> h.begun[0] == h.es)
  {
    var h := Handled(count, streak, r, false, autoRestart, env, 0);
    EveryStartIsLeft(count, streak, r, false, autoRestart, env, 0);
    HandledExits(count, streak, r, false, autoRestart, env, 0);
    EarlyStartsAreLost(h, env, 0);
    LeftIsReportedExactly(count, streak, r, false, autoRestart, env, 0);
    if h.begun != [] {
      assert BegunAt(h, |h.begun[0]|);
      assert h.es[..|h.es|] == h.es;
    }
  }

  // ----- the service

  /** What is known of a service besides its live processes: the line of each of them, the lines that ended, all the
      exits planned, and whether no start went unlogged. */
  datatype Service = Service(lines: seq<seq<Event>>, ended: seq<Line>, all: seq<Event>, quiet: bool)

  /** Every live process is at the end of its line and every ended line is a run of its own; and if no start went
      unlogged there is at most one process, whose line - or else the line that ended last - holds all the exits. */
  ghost predicate ServiceOk(v: Service, records: seq<(nat, Streak)>) {
    && AllAlive(v.lines, records)
    && (forall i :: 0 <= i < |v.ended| ==> LineOk(v.ended[i]))
    && (v.quiet ==> OneLine(v))
  }

  ghost predicate OneLine(v: Service) {
    if v.lines == [] then v.ended != [] && v.ended[|v.ended| - 1].events == v.all
    else |v.lines| == 1 && v.lines[0] == v.all
  }

  function Without<T>(s: seq<T>, w: nat): seq<T>
    requires w < |s|
  {
    s[..w] + s[w + 1..]
  }

  /** The service after process `w`, standing at `from`, was handled with `h`. */
  ghost function Continue(v: Service, w: nat, from: Plan, h: Handling, quiet: bool): Service
    requires w < |v.lines|
  {
    var last := After(Replan(), from, h.es);
    Service(Without(v.lines, w) + Continued(v.lines[w], h.begun),
            v.ended + [Line(v.lines[w] + h.es, last.restartCount, last.streak, h.ending.GivenUp?)],
            v.all + h.es, v.quiet && quiet)
  }

  lemma AliveAfter(lines: seq<seq<Event>>, records: seq<(nat, Streak)>, w: nat, more: seq<seq<Event>>, begun: seq<(nat, Streak)>)
    requires AllAlive(lines, records) && AllAlive(more, begun) && w < |lines|
    ensures AllAlive(Without(lines, w) + more, Without(records, w) + begun)
  {
  }

  lemma OneLineAfter(v: Service, w: nat, from: Plan, h: Handling)
    requires OneLine(v) && w < |v.lines| && |h.begun| <= 1 && (h.begun != [] ==> h.begun[0] == h.es)
    ensures OneLine(Continue(v, w, from, h, true))
  {
    assert Without(v.lines, w) == [];
  }

  /** The service, and the records of its live processes, after process `w` exited. */
  ghost function AfterExit(v: Service, records: seq<(nat, Streak)>, w: nat, exit: Exit, autoRestart: bool): (Service, seq<(nat, Streak)>)
    requires w < |v.lines| == |records|
  {
    var from := Standing(records[w].0, records[w].1);
    var h := Handled(records[w].0, records[w].1, exit.remains, false, autoRestart, exit.env, 0);
    (Continue(v, w, from, h, Quiet(exit.env)), Without(records, w) + Beginnings(from, h.begun))
  }

  lemma ExitKeepsService(v: Service, records: seq<(nat, Streak)>, w: nat, exit: Exit, autoRestart: bool)
    requires ServiceOk(v, records) && w < |v.lines|
    ensures var (v', records') := AfterExit(v, records, w, exit, autoRestart);
            ServiceOk(v', records') && (v'.quiet <==> v.quiet && Quiet(exit.env))
  {
    var from := Standing(records[w].0, records[w].1);
    var h := Handled(records[w].0, records[w].1, exit.remains, false, autoRestart, exit.env, 0);
    assert Alive(v.lines[w], records[w].0, records[w].1);
    ExitContinues(v.lines[w], records[w].0, records[w].1, exit.remains, autoRestart, exit.env);
    AliveAfter(v.lines, records, w, Continued(v.lines[w], h.begun), Beginnings(from, h.begun));
    if v.quiet && Quiet(exit.env) {
      OneLineAfter(v, w, from, h);
    }
  }

  /** The service after the first `n` exits, from one fresh process: each names the live process that exits. */
  ghost function Life(exits: seq<(nat, Exit)>, n: nat, autoRestart: bool): (s: (Service, seq<(nat, Streak)>))
    requires n <= |exits|
    ensures |s.0.lines| == |s.1|
  {
    if n == 0 then (Service([[]], [], [], true), [(0, EmptyStreak())])
    else
      var (v, records) := Life(exits, n - 1, autoRestart);
      var (w, exit) := exits[n - 1];
      if w < |records| then AfterExit(v, records, w, exit, autoRestart) else (v, records)
  }

  /** A process ends and is handled. */
  method HandleExit(p: RunningProcess, exit: Exit, autoRestart: bool) returns (started: seq<RunningProcess>, ghost h: Handling)
    modifies p
    ensures h == Handled(old(p.restartCount), old(p.streak), exit.remains, false, autoRestart, exit.env, 0)
    ensures Records(started) == Beginnings(Standing(old(p.restartCount), old(p.streak)), h.begun)
    ensures Different(started) && forall q :: q in started ==> fresh(q)
  {
    var r := exit.remains;
    p.healthySince, p.firstCausalStderr, p.marker, p.dependencyRestart := r.healthySince, r.stderr, r.marker, r.dependencyRestart;
    var out;
    out, started, h := HandleSupervisedExit(p, r.code, r.signal, false, autoRestart, exit.env, 0);
  }

  lemma OthersKeepRecords(live: seq<RunningProcess>, w: nat, records: seq<(nat, Streak)>)
    requires w < |live| == |records| && Different(live)
    requires forall i :: 0 <= i < |live| && i != w ==> records[i] == (live[i].restartCount, live[i].streak)
    ensures Records(Without(live, w)) == Without(records, w) && Different(Without(live, w))
    ensures forall q :: q in Without(live, w) ==> q in live
  {
  }

  /** Process `w` of the live ones exits. */
  method OneExit(live: seq<RunningProcess>, w: nat, exit: Exit, autoRestart: bool, ghost v: Service)
    returns (live': seq<RunningProcess>, ghost v': Service)
    requires w < |live| == |v.lines| && Different(live)
    modifies live[w]
    ensures Different(live') && forall q :: q in live' ==> q in live || fresh(q)
    ensures (v', Records(live')) == AfterExit(v, old(Records(live)), w, exit, autoRestart)
  {
    ghost var records := Records(live);
    var started;
    ghost var h;
    started, h := HandleExit(live[w], exit, autoRestart);
    OthersKeepRecords(live, w, records);
    v' := Continue(v, w, Standing(records[w].0, records[w].1), h, Quiet(exit.env));
    live' := Joined(Without(live, w), started);
  }

  /** None of the first `n` exits was followed by a start that went unlogged. */
  ghost predicate QuietUpTo(exits: seq<(nat, Exit)>, n: nat)
    requires n <= |exits|
  {
    forall i :: 0 <= i < n ==> Quiet(exits[i].1.env)
  }

  lemma QuietStep(exits: seq<(nat, Exit)>, n: nat)
    requires n < |exits|
    ensures QuietUpTo(exits, n + 1) <==> QuietUpTo(exits, n) && Quiet(exits[n].1.env)
  {
  }

  lemma {:induction false} LifeIsOk(exits: seq<(nat, Exit)>, n: nat, autoRestart: bool)
    requires n <= |exits|
    ensures var (v, records) := Life(exits, n, autoRestart);
            ServiceOk(v, records) && (QuietUpTo(exits, n) ==> v.quiet)
  {
    if n == 0 {
      assert Alive([], 0, EmptyStreak());
    } else {
      LifeIsOk(exits, n - 1, autoRestart);
      QuietStep(exits, n - 1);
      var (v, records) := Life(exits, n - 1, autoRestart);
      if exits[n - 1].0 < |records| {
        ExitKeepsService(v, records, exits[n - 1].0, exits[n - 1].1, autoRestart);
      }
    }
  }

  lemma LivesAreRuns(v: Service, records: seq<(nat, Streak)>)
    requires ServiceOk(v, records)
    ensures forall i :: 0 <= i < |v.lines| ==> LineOk(Line(v.lines[i], records[i].0, records[i].1, false))
    ensures v.quiet ==> IsRun(v.all) && forall n :: 1 <= n <= |v.all| ==> Bounded(v.all, n)
  {
    forall i | 0 <= i < |v.lines|
      ensures LineOk(Line(v.lines[i], records[i].0, records[i].1, false))
    {
      AliveIsOneRun(v.lines[i], records[i].0, records[i].1);
    }
    if v.quiet && v.lines == [] {
      assert LineOk(v.ended[|v.ended| - 1]);
    }
  }

  /** At every point of the life of a service, whichever of its processes exit in whatever order: the exits planned
      along each line of descent, ended or not, are one run of the policy, which bounds them all, with the count and
      record of the process at its end; and if no start goes unlogged there is never more than one process, and all
      the exits are one run. */
  lemma ServiceIsBounded(exits: seq<(nat, Exit)>, n: nat, autoRestart: bool)
    requires n <= |exits|
    ensures var (v, records) := Life(exits, n, autoRestart);
            && (forall i :: 0 <= i < |v.lines| ==> LineOk(Line(v.lines[i], records[i].0, records[i].1, false)))
            && (forall i :: 0 <= i < |v.ended| ==> LineOk(v.ended[i]))
            && (QuietUpTo(exits, n) ==> |records| <= 1 && IsRun(v.all) && forall m :: 1 <= m <= |v.all| ==> Bounded(v.all, m))
  {
    LifeIsOk(exits, n, autoRestart);
    var (v, records) := Life(exits, n, autoRestart);
    LivesAreRuns(v, records);
  }

  /** The supervisor over the life of a service. */
  method Supervise(useInitHint: bool, startedAt: int, exits: seq<(nat, Exit)>, autoRestart: bool)
    returns (live: seq<RunningProcess>, ghost v: Service)
    ensures (v, Records(live)) == Life(exits, |exits|, autoRestart)
  {
    var p := new RunningProcess(useInitHint, startedAt);
    live, v := [p], Service([[]], [], [], true);
    assert Records(live) == [(0, EmptyStreak())];
    for i := 0 to |exits|
      invariant Different(live) && forall q :: q in live ==> fresh(q)
      invariant (v, Records(live)) == Life(exits, i, autoRestart)
    {
      if exits[i].0 < |live| {
        assert live[exits[i].0] in live;
        live, v := OneExit(live, exits[i].0, exits[i].1, autoRestart, v);
      }
    }
  }
}
