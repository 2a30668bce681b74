/** `mapConcurrent` (dev/jtmbTest.ts): cooperative workers that share one counter, under every interleaving. */
module WorkerPool {
  import opened Wrappers

  /** How running one item ends. */
  datatype Ending<+V> = Value(value: V) | Failure

  /** A worker between items, awaiting one, returned, or rejected by one. */
  datatype Worker = Ready | Running(index: nat) | Finished | Rejected(index: nat)

  datatype State<V> = State(next: nat, workers: seq<Worker>, results: seq<Option<V>>, started: seq<nat>)

  /** What the caller of `mapConcurrent` sees. */
  datatype Outcome<+V> = Pending | Thrown(index: nat) | Returned(results: seq<Option<V>>)

  function WorkerCount(n: nat, concurrency: int): nat {
    if concurrency <= 0 then 0 else if concurrency < n then concurrency else n
  }

  function Initial<V>(n: nat, concurrency: int): State<V> {
    State(0, seq(WorkerCount(n, concurrency), _ => Ready), seq(n, _ => None), [])
  }

  /** One worker runs up to its next await: it leaves the loop or claims the next index, or its item ends. */
  function Step<V>(s: State<V>, run: nat -> Ending<V>, w: nat): State<V>
    requires w < |s.workers|
  {
    match s.workers[w]
    case Ready =>
      if s.next < |s.results|
      then s.(next := s.next + 1, workers := s.workers[w := Running(s.next)], started := s.started + [s.next])
      else s.(workers := s.workers[w := Finished])
    case Running(i) =>
      if run(i).Value? && i < |s.results|
      then s.(workers := s.workers[w := Ready], results := s.results[i := Some(run(i).value)])
      else s.(workers := s.workers[w := Rejected(i)])
    case Finished => s
    case Rejected(_) => s
  }

  predicate Active(w: Worker) {
    w.Ready? || w.Running?
  }

  predicate Settled<V>(s: State<V>) {
    forall w :: 0 <= w < |s.workers| ==> !Active(s.workers[w])
  }

  /** The first rejected worker in the order of the list, or its length. */
  function FirstRejected(workers: seq<Worker>): (k: nat)
    ensures k <= |workers|
    ensures k < |workers| ==> workers[k].Rejected?
    ensures forall j :: 0 <= j < k ==> !workers[j].Rejected?
  {
    if workers == [] || workers[0].Rejected? then 0 else 1 + FirstRejected(workers[1..])
  }

  /** `Promise.allSettled`, then the first rejection or the results. */
  function Report<V>(s: State<V>): Outcome<V> {
    if !Settled(s) then Pending
    else
      var k := FirstRejected(s.workers);
      if k < |s.workers| then Thrown(s.workers[k].index) else Returned(s.results)
  }

  ghost predicate IsRun<V(!new)>(n: nat, concurrency: int, run: nat -> Ending<V>, states: seq<State<V>>) {
    && |states| > 0 && states[0] == Initial(n, concurrency)
    && forall t :: 0 <= t < |states| - 1 ==> Moves(states[t], states[t + 1], run)
  }

  ghost predicate Moves<V(!new)>(s: State<V>, s': State<V>, run: nat -> Ending<V>) {
    exists w :: 0 <= w < |s.workers| && Active(s.workers[w]) && s' == Step(s, run, w)
  }

  // ----- the invariant

  /** An index that was claimed is being run, has its result, or its failure ended its worker. */
  ghost predicate Accounted<V>(s: State<V>, run: nat -> Ending<V>, i: nat)
    requires i < |s.results|
  {
    || (exists w :: 0 <= w < |s.workers| && s.workers[w] == Running(i))
    || (run(i).Value? && s.results[i] == Some(run(i).value))
    || (run(i).Failure? && exists w :: 0 <= w < |s.workers| && s.workers[w] == Rejected(i))
  }

  ghost predicate Invariant<V>(s: State<V>, run: nat -> Ending<V>) {
    && s.next <= |s.results|
    && |s.started| == s.next && (forall i :: 0 <= i < s.next ==> s.started[i] == i)
    && (forall w :: 0 <= w < |s.workers| && s.workers[w].Running? ==> s.workers[w].index < s.next)
    && (forall w :: 0 <= w < |s.workers| && s.workers[w].Rejected? ==>
                      s.workers[w].index < s.next && run(s.workers[w].index).Failure?)
    && (forall w :: 0 <= w < |s.workers| && s.workers[w].Finished? ==> s.next == |s.results|)
    && (forall v, w :: 0 <= v < w < |s.workers| && s.workers[v].Running? ==> s.workers[v] != s.workers[w])
    && (forall i :: 0 <= i < s.next ==> Accounted(s, run, i))
    && (forall i :: s.next <= i < |s.results| ==> s.results[i] == None)
  }

  lemma ClaimKeepsInvariant<V>(s: State<V>, run: nat -> Ending<V>, w: nat)
    requires Invariant(s, run) && w < |s.workers| && s.workers[w].Ready?
    ensures Invariant(Step(s, run, w), run)
  {
    var s' := Step(s, run, w);
    forall i | 0 <= i < s'.next
      ensures Accounted(s', run, i)
    {
      if i < s.next {
        assert Accounted(s, run, i);
        KeepsOthers(s, s', run, w, i);
      } else {
        assert s'.workers[w] == Running(i);
      }
    }
  }

  /** Changing a worker that does not hold `i`, and no result of `i`, leaves `i` accounted for. */
  lemma KeepsOthers<V>(s: State<V>, s': State<V>, run: nat -> Ending<V>, w: nat, i: nat)
    requires w < |s.workers| && |s'.workers| == |s.workers| && |s'.results| == |s.results| && i < |s.results|
    requires forall v :: 0 <= v < |s.workers| && v != w ==> s'.workers[v] == s.workers[v]
    requires s.workers[w] != Running(i) && s.workers[w] != Rejected(i)
    requires s'.results[i] == s.results[i]
    requires Accounted(s, run, i)
    ensures Accounted(s', run, i)
  {
    if v :| 0 <= v < |s.workers| && s.workers[v] == Running(i) {
      assert s'.workers[v] == Running(i);
    } else if v :| 0 <= v < |s.workers| && s.workers[v] == Rejected(i) {
      assert s'.workers[v] == Rejected(i);
    }
  }

  lemma EndKeepsInvariant<V>(s: State<V>, run: nat -> Ending<V>, w: nat)
    requires Invariant(s, run) && w < |s.workers| && s.workers[w].Running?
    ensures Invariant(Step(s, run, w), run)
  {
    var s' := Step(s, run, w);
    var mine := s.workers[w].index;
    forall i | 0 <= i < s'.next
      ensures Accounted(s', run, i)
    {
      if i != mine {
        assert Accounted(s, run, i);
        KeepsOthers(s, s', run, w, i);
      } else if run(i).Failure? {
        assert s'.workers[w] == Rejected(i);
      }
    }
  }

  lemma {:induction false} RunKeepsInvariant<V(!new)>(n: nat, concurrency: int, run: nat -> Ending<V>, states: seq<State<V>>, t: nat)
    requires IsRun(n, concurrency, run, states) && t < |states|
    ensures Invariant(states[t], run)
    ensures |states[t].workers| == WorkerCount(n, concurrency) && |states[t].results| == n
  {
    if t > 0 {
      RunKeepsInvariant(n, concurrency, run, states, t - 1);
      assert Moves(states[t - 1], states[t - 1 + 1], run);
      var s := states[t - 1];
      var w :| 0 <= w < |s.workers| && Active(s.workers[w]) && states[t] == Step(s, run, w);
      if s.workers[w].Ready? {
        ClaimKeepsInvariant(s, run, w);
      } else {
        EndKeepsInvariant(s, run, w);
      }
    }
  }

  // ----- what holds of every run

  ghost predicate Complete<V>(results: seq<Option<V>>, run: nat -> Ending<V>) {
    forall i :: 0 <= i < |results| ==> run(i).Value? && results[i] == Some(run(i).value)
  }

  /** The workers that are running an item. */
  ghost function InFlight<V>(s: State<V>): set<nat> {
    set w: nat | w < |s.workers| && s.workers[w].Running?
  }

  lemma {:induction false} AtMostAllBelow(ws: set<nat>, n: nat)
    requires forall w :: w in ws ==> w < n
    ensures |ws| <= n
  {
    if n == 0 {
      assert ws == {};
    } else {
      AtMostAllBelow(ws - {n - 1}, n - 1);
      assert n - 1 !in ws ==> ws - {n - 1} == ws;
    }
  }

  /** No more items are in flight at once than asked for, nor than there are; and as many workers as that allows. */
  ghost predicate Bounded<V>(s: State<V>, n: nat, concurrency: int) {
    && |InFlight(s)| <= n && (concurrency >= 1 ==> |InFlight(s)| <= concurrency) && (concurrency < 1 ==> InFlight(s) == {})
    && (concurrency >= 1 ==> |s.workers| <= concurrency && |s.workers| <= n && (|s.workers| == concurrency || |s.workers| == n))
  }

  /** The item whose failure is thrown was that of a rejected worker with none rejected before it. */
  ghost predicate ThrownByFirst<V>(s: State<V>, index: nat) {
    exists k :: 0 <= k < |s.workers| && s.workers[k] == Rejected(index) && forall j :: 0 <= j < k ==> !s.workers[j].Rejected?
  }

  /** Under every interleaving: indices are started once each and in order, the workers in flight hold different
      ones and are at most the asked-for number; a throw comes only after all workers settled and is the failure of
      the first rejected one's item; and a normal return carries every item's own result - unless the asked-for number
      was not positive and there were items, when nothing ran at all. */
  lemma PoolIsCorrect<V(!new)>(n: nat, concurrency: int, run: nat -> Ending<V>, states: seq<State<V>>, t: nat)
    requires IsRun(n, concurrency, run, states) && t < |states|
    ensures var s := states[t];
            && (forall i, j :: 0 <= i < j < |s.started| ==> s.started[i] < s.started[j] < n)
            && (forall v, w :: 0 <= v < w < |s.workers| && s.workers[v].Running? ==> s.workers[v] != s.workers[w])
            && Bounded(s, n, concurrency)
            && (Report(s).Pending? <==> exists w :: 0 <= w < |s.workers| && (s.workers[w].Ready? || s.workers[w].Running?))
            && (Report(s).Returned? <==> forall w :: 0 <= w < |s.workers| ==> s.workers[w].Finished?)
            && (Report(s).Thrown? ==> Settled(s) && Report(s).index < n && run(Report(s).index).Failure?
                                      && ThrownByFirst(s, Report(s).index))
            && (Report(s).Returned? ==> Settled(s) && |Report(s).results| == n
                                        && (Complete(Report(s).results, run) <==> concurrency >= 1 || n == 0))
  {
    RunKeepsInvariant(n, concurrency, run, states, t);
    var s := states[t];
    AtMostAllBelow(InFlight(s), |s.workers|);
    if Report(s).Returned? {
      ReturnIsComplete(s, run);
      if concurrency <= 0 {
        NothingRan(n, concurrency, run, states, t);
      }
    }
  }

  lemma ReturnIsComplete<V>(s: State<V>, run: nat -> Ending<V>)
    requires Invariant(s, run) && Report(s).Returned?
    ensures |s.workers| > 0 || |s.results| == 0 ==> Complete(s.results, run)
  {
    if |s.workers| > 0 {
      assert !Active(s.workers[0]) && s.workers[0].Finished?;
      forall i | 0 <= i < |s.results|
        ensures run(i).Value? && s.results[i] == Some(run(i).value)
      {
        assert Accounted(s, run, i);
        assert forall w :: 0 <= w < |s.workers| ==> !Active(s.workers[w]) && !s.workers[w].Rejected?;
      }
    }
  }

  /** Without a worker the only run is the initial state. */
  lemma NothingRan<V(!new)>(n: nat, concurrency: int, run: nat -> Ending<V>, states: seq<State<V>>, t: nat)
    requires IsRun(n, concurrency, run, states) && t < |states| && concurrency <= 0
    ensures states[t] == Initial(n, concurrency)
    ensures n > 0 ==> !Complete(states[t].results, run)
  {
    if t > 0 {
      NothingRan(n, concurrency, run, states, t - 1);
    }
    assert n > 0 ==> states[t].results[0] == None;
  }

  // ----- every run ends

  function Weight(w: Worker): nat {
    match w
    case Ready => 1
    case Running(_) => 2
    case _ => 0
  }

  function Weights(ws: seq<Worker>): nat {
    if ws == [] then 0 else Weight(ws[0]) + Weights(ws[1..])
  }

  lemma {:induction false} WeightsUpdate(ws: seq<Worker>, w: nat, x: Worker)
    requires w < |ws|
    ensures Weights(ws[w := x]) == Weights(ws) - Weight(ws[w]) + Weight(x)
  {
    if w > 0 {
      WeightsUpdate(ws[1..], w - 1, x);
      assert ws[w := x][1..] == ws[1..][w - 1 := x];
    } else {
      assert ws[w := x][1..] == ws[1..];
    }
  }

  function StepsLeft<V>(s: State<V>): int {
    2 * (|s.results| - s.next) + Weights(s.workers)
  }

  /** Every step of every worker uses up one of finitely many, and some worker can step until all settled: no run
      goes on for ever or gets stuck. */
  lemma EveryRunEnds<V>(s: State<V>, run: nat -> Ending<V>, w: nat)
    requires s.next <= |s.results| && w < |s.workers| && Active(s.workers[w])
    ensures 0 <= StepsLeft(Step(s, run, w)) < StepsLeft(s)
    ensures Report(s).Pending?
  {
    WeightsUpdate(s.workers, w, Step(s, run, w).workers[w]);
  }
}
