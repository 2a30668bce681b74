/** The restart policy of the devnet supervisor (dev/locSetupPolicy.ts): what is restarted, how soon, and
    when identical failures stop it. */
module RestartPolicy {
  import opened Wrappers
  import opened Powers
  import opened Decimals

  datatype Marker = RealmProcessorError | CoordinatorProcessorError

  datatype Cause =
    | FatalProcessorError(marker: Marker)
    | Signaled(signal: string)
    | Exited(code: int)
    | SpawnFailed
    | DependencyRestart

  const BACKOFF_CAP_MS: nat := 30_000
  const STABLE_RUN_MS: nat := 60_000
  const MAX_IDENTICAL_RESTARTS: nat := 4

  /** `classifySupervisedExit`. */
  function Classify(spawnFailed: bool, marker: Option<Marker>, dependencyRestart: bool, signal: string, code: Option<int>): Cause {
    if spawnFailed then SpawnFailed
    else if marker.Some? then FatalProcessorError(marker.value)
    else if dependencyRestart then DependencyRestart
    else if signal != "" then Signaled(signal)
    else Exited(if code.Some? then code.value else 0)
  }

  /** What each cause stands for: a spawn that failed comes before a marker, a marker before a restart asked for by a
      dependency, that before a signal, and what is left is an exit, without a code one with code 0. */
  lemma ClassifiedExactly(spawnFailed: bool, marker: Option<Marker>, dependencyRestart: bool, signal: string, code: Option<int>)
    ensures var c := Classify(spawnFailed, marker, dependencyRestart, signal, code);
            && (c == SpawnFailed <==> spawnFailed)
            && (forall m :: c == FatalProcessorError(m) <==> !spawnFailed && marker == Some(m))
            && (c == DependencyRestart <==> !spawnFailed && marker == None && dependencyRestart)
            && (forall t :: c == Signaled(t) <==> !spawnFailed && marker == None && !dependencyRestart && t == signal && |t| > 0)
            && (forall n :: c == Exited(n) <==>
                  !spawnFailed && marker == None && !dependencyRestart && |signal| == 0 && (code == Some(n) || (code == None && n == 0)))
  {
  }

  function MarkerText(m: Marker): string {
    match m
    case RealmProcessorError => "PSY_REALM_PROCESSOR_ERROR"
    case CoordinatorProcessorError => "PSY_COORDINATOR_PROCESSOR_ERROR"
  }

  function IntText(n: int): string {
    if n < 0 then "-" + Digits(-n) else Digits(n)
  }

  /** `failureSignature`: the text failures are compared by. */
  function Signature(c: Cause): string {
    match c
    case FatalProcessorError(m) => "fatal-processor-error:" + MarkerText(m)
    case Signaled(s) => "signaled:" + s
    case Exited(n) => "exited:" + IntText(n)
    case SpawnFailed => "spawn-failed"
    case DependencyRestart => "dependency-restart"
  }

  lemma IntTextSign(n: int)
    ensures IntText(n) != "" && (IntText(n)[0] == '-' <==> n < 0)
  {
  }

  lemma IntTextInjective(m: int, n: int)
    requires IntText(m) == IntText(n)
    ensures m == n
  {
    IntTextSign(m);
    IntTextSign(n);
    if m < 0 {
      assert IntText(m)[1..] == Digits(-m) && IntText(n)[1..] == Digits(-n);
      DigitsInjective(-m, -n);
    } else {
      DigitsInjective(m, n);
    }
  }

  lemma SuffixesEqual(prefix: string, a: string, b: string)
    requires prefix + a == prefix + b
    ensures a == b
  {
    assert (prefix + a)[|prefix|..] == a && (prefix + b)[|prefix|..] == b;
  }

  function KindOf(c: Cause): nat {
    match c
    case FatalProcessorError(_) => 0
    case Signaled(_) => 1
    case Exited(_) => 2
    case SpawnFailed => 3
    case DependencyRestart => 4
  }

  /** The first two characters tell the kinds apart. */
  lemma SignatureStart(c: Cause)
    ensures |Signature(c)| >= 2
    ensures Signature(c)[..2] == ["fa", "si", "ex", "sp", "de"][KindOf(c)]
  {
  }

  lemma SameKind(a: Cause, b: Cause)
    requires Signature(a) == Signature(b)
    ensures KindOf(a) == KindOf(b)
  {
    SignatureStart(a);
    SignatureStart(b);
    StartsDiffer(KindOf(a), KindOf(b));
  }

  lemma StartsDiffer(i: nat, j: nat)
    requires i < 5 && j < 5 && ["fa", "si", "ex", "sp", "de"][i] == ["fa", "si", "ex", "sp", "de"][j]
    ensures i == j
  {
    var starts := ["fa", "si", "ex", "sp", "de"];
    assert starts[0][0] == 'f' && starts[1][0] == 's' && starts[2][0] == 'e' && starts[3][0] == 's' && starts[4][0] == 'd';
    assert starts[1][1] == 'i' && starts[3][1] == 'p';
  }

  lemma MarkersDiffer(a: Marker, b: Marker)
    requires MarkerText(a) == MarkerText(b)
    ensures a == b
  {
    assert MarkerText(RealmProcessorError)[4] == 'R' && MarkerText(CoordinatorProcessorError)[4] == 'C';
  }

  /** Two failures count as identical exactly when they are the same cause: the text loses nothing. */
  lemma SignatureInjective(a: Cause, b: Cause)
    ensures Signature(a) == Signature(b) <==> a == b
  {
    if Signature(a) == Signature(b) {
      SameKind(a, b);
      match a
      case FatalProcessorError(m) =>
        SuffixesEqual("fatal-processor-error:", MarkerText(m), MarkerText(b.marker));
        MarkersDiffer(m, b.marker);
      case Signaled(s) => SuffixesEqual("signaled:", s, b.signal);
      case Exited(n) =>
        SuffixesEqual("exited:", IntText(n), IntText(b.code));
        IntTextInjective(n, b.code);
      case SpawnFailed =>
      case DependencyRestart =>
    }
  }

  // ----- one decision

  function Min(a: int, b: int): int {
    if a < b then a else b
  }

  /** `nextRestartDelayMs`, for attempts from 1. */
  function NextRestartDelay(attempt: nat): nat
    requires attempt >= 1
  {
    Min(BACKOFF_CAP_MS, 1_000 * Pow2(Min(attempt - 1, 5)))
  }

  lemma DelayBounds(attempt: nat)
    requires attempt >= 1
    ensures 1_000 <= NextRestartDelay(attempt) <= 30_000
    ensures attempt <= 5 ==> NextRestartDelay(attempt) == 1_000 * Pow2(attempt - 1)
    ensures attempt >= 6 ==> NextRestartDelay(attempt) == 30_000
  {
    assert Pow2(1) == 2 && Pow2(2) == 4 && Pow2(3) == 8;
    assert Pow2(4) == 16 && Pow2(5) == 32;
  }

  datatype Streak = Streak(cause: Option<Cause>, firstCause: Option<string>, firstObservedAt: Option<string>, repeats: nat)

  function EmptyStreak(): Streak {
    Streak(None, None, None, 0)
  }

  /** One exit as the policy sees it. */
  datatype Event = Event(cause: Cause, firstCause: Option<string>, healthySince: int, now: int, observedAt: string)

  datatype Action = Restart | Limit

  datatype Plan = Plan(action: Action, restartCount: nat, delay: nat, streak: Streak)

  /** The process ran ready for long enough that earlier failures no longer count. */
  predicate Stable(e: Event) {
    e.healthySince > 0 && e.now - e.healthySince >= STABLE_RUN_MS
  }

  function OrElse<T>(a: Option<T>, b: Option<T>): Option<T> {
    if a.Some? then a else b
  }

  /** `planSupervisedRestart`. */
  function PlanRestart(count: nat, was: Streak, e: Event): Plan {
    var restartCount := if Stable(e) then 0 else count;
    var streak := if Stable(e) then EmptyStreak() else was;
    var firstCause := if Stable(e) then e.firstCause else OrElse(streak.firstCause, e.firstCause);
    if e.cause.DependencyRestart? then
      Plan(Restart, restartCount + 1, NextRestartDelay(restartCount + 1), streak)
    else
      var same := streak.cause.Some? && Signature(streak.cause.value) == Signature(e.cause);
      var next := if same
                  then streak.(firstCause := OrElse(streak.firstCause, firstCause), repeats := streak.repeats + 1)
                  else Streak(Some(e.cause), firstCause, OrElse(streak.firstObservedAt, Some(e.observedAt)), 1);
      if next.repeats > MAX_IDENTICAL_RESTARTS then Plan(Limit, restartCount, 0, next)
      else Plan(Restart, restartCount + 1, NextRestartDelay(restartCount + 1), next)
  }

  // ----- runs

  /** The decision on the `n`-th exit of a run, counted from 1; the record before the first one is empty. */
  function PlanAt(es: seq<Event>, n: nat): Plan
    requires 1 <= n <= |es|
  {
    PlanRestart(CountAfter(es, n - 1), StreakAfter(es, n - 1), es[n - 1])
  }

  function CountAfter(es: seq<Event>, n: nat): nat
    requires n <= |es|
    decreases n, 0
  {
    if n == 0 then 0 else PlanRestart(CountAfter(es, n - 1), StreakAfter(es, n - 1), es[n - 1]).restartCount
  }

  function StreakAfter(es: seq<Event>, n: nat): Streak
    requires n <= |es|
    decreases n, 0
  {
    if n == 0 then EmptyStreak() else PlanRestart(CountAfter(es, n - 1), StreakAfter(es, n - 1), es[n - 1]).streak
  }

  /** A run: every exit but possibly the last was answered with a restart, since without one there is no
      further exit. */
  ghost predicate IsRun(es: seq<Event>) {
    forall n :: 1 <= n < |es| ==> PlanAt(es, n).action.Restart?
  }

  predicate Failure(e: Event) {
    !e.cause.DependencyRestart?
  }

  /** Where the current stretch began: at the last exit after a stable run, or at the start. */
  function StretchStart(es: seq<Event>, n: nat): nat
    requires n <= |es|
  {
    if n == 0 then 0 else if Stable(es[n - 1]) then n - 1 else StretchStart(es, n - 1)
  }

  lemma {:induction false} StretchStartIsLastReset(es: seq<Event>, n: nat)
    requires n <= |es|
    ensures StretchStart(es, n) <= n
    ensures n > 0 ==> StretchStart(es, n) < n
    ensures StretchStart(es, n) > 0 ==> Stable(es[StretchStart(es, n)])
    ensures forall i :: StretchStart(es, n) < i < n ==> !Stable(es[i])
  {
    if n > 0 {
      StretchStartIsLastReset(es, n - 1);
    }
  }

  /** The process had been healthy for a minute. */
  predicate HealthyForAMinute(e: Event) {
    e.healthySince > 0 && e.now >= e.healthySince + 60_000
  }

  /** The stretch of exits since the last one after a healthy minute, which is its first. */
  ghost predicate IsStretch(es: seq<Event>, lo: nat, n: nat)
    requires n <= |es|
  {
    lo < n && (lo == 0 || HealthyForAMinute(es[lo])) && forall i :: lo < i < n ==> !HealthyForAMinute(es[i])
  }

  /** The last failure among `es[lo..n]`, dependency restarts ignored. */
  function LastFailure(es: seq<Event>, lo: nat, n: nat): Option<Cause>
    requires lo <= n <= |es|
    decreases n
  {
    if n == lo then None
    else if Failure(es[n - 1]) then Some(es[n - 1].cause)
    else LastFailure(es, lo, n - 1)
  }

  /** How many failures `c` end `es[lo..n]` with no other failure in between, dependency restarts ignored. */
  function BlockLength(es: seq<Event>, lo: nat, n: nat, c: Cause): nat
    requires lo <= n <= |es|
    decreases n
  {
    if n == lo then 0
    else if !Failure(es[n - 1]) then BlockLength(es, lo, n - 1, c)
    else if es[n - 1].cause == c then 1 + BlockLength(es, lo, n - 1, c)
    else 0
  }

  /** The first recorded cause among the failures of `es[lo..n]`. */
  function FirstRecorded(es: seq<Event>, lo: nat, n: nat): Option<string>
    requires lo <= n <= |es|
    decreases n - lo
  {
    if lo == n then None
    else if Failure(es[lo]) && es[lo].firstCause.Some? then es[lo].firstCause
    else FirstRecorded(es, lo + 1, n)
  }

  /** The time of the first failure of `es[lo..n]`. */
  function FirstTime(es: seq<Event>, lo: nat, n: nat): Option<string>
    requires lo <= n <= |es|
    decreases n - lo
  {
    if lo == n then None
    else if Failure(es[lo]) then Some(es[lo].observedAt)
    else FirstTime(es, lo + 1, n)
  }

  lemma {:induction false} FirstRecordedSnoc(es: seq<Event>, lo: nat, n: nat)
    requires lo <= n < |es|
    ensures FirstRecorded(es, lo, n + 1)
         == OrElse(FirstRecorded(es, lo, n), if Failure(es[n]) then es[n].firstCause else None)
    ensures FirstTime(es, lo, n + 1)
         == OrElse(FirstTime(es, lo, n), if Failure(es[n]) then Some(es[n].observedAt) else None)
    decreases n - lo
  {
    if lo < n {
      FirstRecordedSnoc(es, lo + 1, n);
    } else {
      assert FirstRecorded(es, n + 1, n + 1) == None && FirstTime(es, n + 1, n + 1) == None;
    }
  }

  lemma {:induction false} FailureHasTime(es: seq<Event>, lo: nat, n: nat)
    requires lo <= n <= |es|
    ensures LastFailure(es, lo, n).Some? <==> FirstTime(es, lo, n).Some?
    decreases n
  {
    if lo < n {
      FailureHasTime(es, lo, n - 1);
      FirstRecordedSnoc(es, lo, n - 1);
    }
  }

  /** What the record means after `n` exits. */
  ghost predicate RecordMeans(es: seq<Event>, n: nat)
    requires n <= |es|
  {
    var lo := StretchStart(es, n);
    var s := StreakAfter(es, n);
    && lo <= n
    && s.cause == LastFailure(es, lo, n)
    && s.repeats == (if s.cause.Some? then BlockLength(es, lo, n, s.cause.value) else 0)
    && s.firstCause == FirstRecorded(es, lo, n)
    && s.firstObservedAt == FirstTime(es, lo, n)
    && CountAfter(es, n) == n - lo - (if n > 0 && PlanAt(es, n).action.Limit? then 1 else 0)
  }

  lemma BlockOfLastFailure(es: seq<Event>, lo: nat, n: nat, c: Cause)
    requires lo <= n <= |es|
    ensures LastFailure(es, lo, n) != Some(c) ==> BlockLength(es, lo, n, c) == 0
    ensures LastFailure(es, lo, n) == Some(c) ==> BlockLength(es, lo, n, c) >= 1
    decreases n
  {
    if n > lo && !Failure(es[n - 1]) {
      BlockOfLastFailure(es, lo, n - 1, c);
    }
  }

  /** Within a stretch. */
  lemma RecordStep(es: seq<Event>, n: nat)
    requires n < |es| && RecordMeans(es, n) && (n > 0 ==> PlanAt(es, n).action.Restart?)
    requires !Stable(es[n])
    ensures RecordMeans(es, n + 1)
  {
    var lo := StretchStart(es, n);
    FirstRecordedSnoc(es, lo, n);
    if Failure(es[n]) {
      var s := StreakAfter(es, n);
      BlockOfLastFailure(es, lo, n, es[n].cause);
      FailureHasTime(es, lo, n);
      if s.cause.Some? {
        SignatureInjective(s.cause.value, es[n].cause);
      }
    }
  }

  /** At a reset. */
  lemma RecordReset(es: seq<Event>, n: nat)
    requires n < |es| && Stable(es[n])
    ensures RecordMeans(es, n + 1)
  {
    FirstRecordedSnoc(es, n, n);
    assert StretchStart(es, n + 1) == n;
    assert LastFailure(es, n, n) == None;
    if Failure(es[n]) {
      assert BlockLength(es, n, n, es[n].cause) == 0;
    }
  }

  lemma {:induction false} RecordIsTrailingBlock(es: seq<Event>, n: nat)
    requires IsRun(es) && n <= |es|
    ensures RecordMeans(es, n)
  {
    if n > 0 {
      RecordIsTrailingBlock(es, n - 1);
      if Stable(es[n - 1]) {
        RecordReset(es, n - 1);
      } else {
        RecordStep(es, n - 1);
      }
    }
  }

  /** While restarts go on the record stays within the allowed number. */
  lemma {:induction false} NeverPastLimit(es: seq<Event>, n: nat)
    requires IsRun(es) && n < |es|
    ensures StreakAfter(es, n).repeats <= MAX_IDENTICAL_RESTARTS
  {
    if n > 0 {
      NeverPastLimit(es, n - 1);
      assert PlanAt(es, n).action.Restart?;
    }
  }

  /** One decision from a record that is still within the limit. */
  lemma OneDecision(count: nat, was: Streak, e: Event)
    requires was.repeats <= MAX_IDENTICAL_RESTARTS
    ensures var p := PlanRestart(count, was, e);
            && (p.action.Limit? <==> Failure(e) && p.streak.repeats == MAX_IDENTICAL_RESTARTS + 1)
            && p.streak.repeats <= MAX_IDENTICAL_RESTARTS + 1
            && (Failure(e) ==> p.streak.cause == Some(e.cause))
            && (p.action.Restart? ==> p.restartCount >= 1 && p.delay == NextRestartDelay(p.restartCount))
            && (p.action.Limit? ==> p.delay == 0)
  {
    if was.cause.Some? {
      SignatureInjective(was.cause.value, e.cause);
    }
  }

  /** The record as the decision leaves it. */
  lemma RecordAt(es: seq<Event>, n: nat)
    requires IsRun(es) && 1 <= n <= |es|
    ensures var lo := StretchStart(es, n);
            var plan := PlanAt(es, n);
            && lo < n
            && (Failure(es[n - 1]) ==> plan.streak.repeats == BlockLength(es, lo, n, es[n - 1].cause))
            && plan.streak.firstCause == FirstRecorded(es, lo, n)
            && plan.streak.firstObservedAt == FirstTime(es, lo, n)
            && (plan.action.Restart? ==> plan.restartCount == n - lo)
  {
    RecordIsTrailingBlock(es, n);
    StretchStartIsLastReset(es, n);
    PlanIsRecord(es, n);
  }

  lemma PlanIsRecord(es: seq<Event>, n: nat)
    requires 1 <= n <= |es|
    ensures PlanAt(es, n).streak == StreakAfter(es, n) && PlanAt(es, n).restartCount == CountAfter(es, n)
  {
  }

  /** The fifth failure of one cause in a row - counted since the last stable run, with dependency restarts
      ignored - is refused, and no exit is refused otherwise; the record keeps the first cause and the first
      time since that reset; restarts are delayed by the doubling backoff of their number since then, between
      one and thirty seconds. */
  ghost predicate Bounded(es: seq<Event>, n: nat)
    requires 1 <= n <= |es|
  {
    var lo := StretchStart(es, n);
    var e := es[n - 1];
    var plan := PlanAt(es, n);
    && IsStretch(es, lo, n)
    && (plan.action.Limit? <==> Failure(e) && BlockLength(es, lo, n, e.cause) == 5)
    && (Failure(e) ==> BlockLength(es, lo, n, e.cause) <= 5)
    && (plan.action.Restart? ==> plan.delay == if n - lo >= 6 then 30_000 else 1_000 * Pow2(n - lo - 1))
    && (plan.action.Limit? ==> plan.delay == 0 && n == |es|)
    && plan.streak.firstCause == FirstRecorded(es, lo, n)
    && plan.streak.firstObservedAt == FirstTime(es, lo, n)
  }

  /** So along every run. */
  lemma RunsAreBounded(es: seq<Event>, n: nat)
    requires IsRun(es) && 1 <= n <= |es|
    ensures Bounded(es, n)
  {
    RecordAt(es, n);
    NeverPastLimit(es, n - 1);
    OneDecision(CountAfter(es, n - 1), StreakAfter(es, n - 1), es[n - 1]);
    StretchStartIsLastReset(es, n);
    DelayBounds(n - StretchStart(es, n));
  }
}
