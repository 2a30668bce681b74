/** `resolveCpuPartition` (dev/locSetupPolicy.ts): physical cores divided between Scylla and the runtime. */
module CpuPartition {
  import opened Wrappers
  import opened CpuSets

  datatype Partition = Partition(scylla: string, runtime: string, scyllaCores: nat, runtimeCores: nat)

  type Groups = seq<seq<nat>>

  function Flat(groups: Groups): (s: set<nat>)
    ensures forall x :: x in s <==> exists i :: 0 <= i < |groups| && x in groups[i]
  {
    set i, k | 0 <= i < |groups| && 0 <= k < |groups[i]| :: groups[i][k]
  }

  predicate Inside(g: seq<nat>, s: set<nat>) {
    forall k :: 0 <= k < |g| ==> g[k] in s
  }

  predicate Apart(g: seq<nat>, s: set<nat>) {
    forall k :: 0 <= k < |g| ==> g[k] !in s
  }

  /** Whole cores only. */
  predicate Unsplit(groups: Groups, s: set<nat>) {
    forall i :: 0 <= i < |groups| ==> Inside(groups[i], s) || Apart(groups[i], s)
  }

  function CoresIn(groups: Groups, s: set<nat>): nat {
    if groups == [] then 0 else (if Inside(groups[0], s) then 1 else 0) + CoresIn(groups[1..], s)
  }

  /** Cores Scylla gets by default. */
  function DefaultCores(n: nat): nat {
    if n >= 16 then 4 else if n >= 8 then 2 else 1
  }

  /** An override that is given: it must parse, name available CPUs and take whole cores. */
  predicate OverrideOk(groups: Groups, text: string) {
    text != "" ==>
      match Parse(text)
      case Ok(s) => s <= Flat(groups) && Unsplit(groups, s)
      case Err => false
  }

  function ScyllaCpus(groups: Groups, scylla: string, runtime: string): set<nat>
    requires |groups| >= 2 && OverrideOk(groups, scylla) && OverrideOk(groups, runtime)
  {
    if scylla != "" then Parse(scylla).value
    else if runtime != "" then Flat(groups) - Parse(runtime).value
    else Flat(groups[..DefaultCores(|groups|)])
  }

  function RuntimeCpus(groups: Groups, scylla: string, runtime: string): set<nat>
    requires |groups| >= 2 && OverrideOk(groups, scylla) && OverrideOk(groups, runtime)
  {
    if runtime != "" then Parse(runtime).value else Flat(groups) - ScyllaCpus(groups, scylla, runtime)
  }

  /** An empty override counts as none given. */
  function Resolve(groups: Groups, scylla: string, runtime: string): Result<Option<Partition>> {
    if |groups| < 2 then
      if scylla != "" || runtime != "" then Err else Ok(None)
    else if !OverrideOk(groups, scylla) || !OverrideOk(groups, runtime) then Err
    else
      var a, b := ScyllaCpus(groups, scylla, runtime), RuntimeCpus(groups, scylla, runtime);
      if !(a !! b) || a + b != Flat(groups) || a == {} || b == {} then Err
      else Ok(Some(Partition(Text(a), Text(b), CoresIn(groups, a), CoresIn(groups, b))))
  }

  // ----- properties

  /** Core groups as the topology gives them: nonempty and disjoint. */
  ghost predicate Cores(groups: Groups) {
    && (forall i :: 0 <= i < |groups| ==> groups[i] != [])
    && (forall i, j, x :: 0 <= i < j < |groups| && x in groups[i] ==> x !in groups[j])
  }

  lemma FirstCoresAreWhole(groups: Groups, n: nat)
    requires Cores(groups) && n <= |groups|
    ensures Unsplit(groups, Flat(groups[..n]))
  {
    forall i | 0 <= i < |groups|
      ensures Inside(groups[i], Flat(groups[..n])) || Apart(groups[i], Flat(groups[..n]))
    {
      if i < n {
        forall k | 0 <= k < |groups[i]|
          ensures groups[i][k] in Flat(groups[..n])
        {
          assert groups[i][k] in groups[..n][i];
        }
      } else {
        forall k | 0 <= k < |groups[i]|
          ensures groups[i][k] !in Flat(groups[..n])
        {
          assert groups[i][k] in groups[i];
        }
      }
    }
  }

  lemma ComplementIsWhole(groups: Groups, s: set<nat>)
    requires Unsplit(groups, s)
    ensures Unsplit(groups, Flat(groups) - s)
  {
    forall i | 0 <= i < |groups|
      ensures Inside(groups[i], Flat(groups) - s) || Apart(groups[i], Flat(groups) - s)
    {
      assert forall k :: 0 <= k < |groups[i]| ==> groups[i][k] in Flat(groups);
      assert Inside(groups[i], s) || Apart(groups[i], s);
    }
  }

  /** Every core stands wholly on one side. */
  ghost predicate OnOneSide(groups: Groups, a: set<nat>, b: set<nat>) {
    forall i :: 0 <= i < |groups| ==> Inside(groups[i], a) != Inside(groups[i], b)
  }

  lemma {:induction false} CoresAddUp(groups: Groups, a: set<nat>, b: set<nat>)
    requires OnOneSide(groups, a, b)
    ensures CoresIn(groups, a) + CoresIn(groups, b) == |groups|
  {
    if groups != [] {
      assert OnOneSide(groups[1..], a, b) by {
        forall i | 0 <= i < |groups[1..]|
          ensures Inside(groups[1..][i], a) != Inside(groups[1..][i], b)
        {
          assert groups[1..][i] == groups[i + 1];
        }
      }
      CoresAddUp(groups[1..], a, b);
      assert Inside(groups[0], a) != Inside(groups[0], b);
    }
  }

  lemma SidesOfCores(groups: Groups, a: set<nat>, b: set<nat>)
    requires Cores(groups) && Unsplit(groups, a) && a !! b && a + b == Flat(groups)
    ensures OnOneSide(groups, a, b)
  {
    forall i | 0 <= i < |groups|
      ensures Inside(groups[i], a) != Inside(groups[i], b)
    {
      var x := groups[i][0];
      assert x in groups[i] && x in Flat(groups);
      assert forall k :: 0 <= k < |groups[i]| ==> groups[i][k] in groups[i] && groups[i][k] in Flat(groups);
      assert Inside(groups[i], a) || Apart(groups[i], a);
      if Inside(groups[i], a) {
        assert x in a && x !in b;
      }
    }
  }

  lemma ScyllaIsWhole(groups: Groups, scylla: string, runtime: string)
    requires Cores(groups) && |groups| >= 2 && OverrideOk(groups, scylla) && OverrideOk(groups, runtime)
    ensures Unsplit(groups, ScyllaCpus(groups, scylla, runtime))
  {
    if scylla == "" && runtime != "" {
      ComplementIsWhole(groups, Parse(runtime).value);
    } else if scylla == "" {
      FirstCoresAreWhole(groups, DefaultCores(|groups|));
    }
  }

  /** The cores all of whose CPUs are in the set. */
  ghost function CoresWithin(groups: Groups, s: set<nat>): set<nat> {
    set i: nat | i < |groups| && forall x :: x in groups[i] ==> x in s
  }

  lemma {:induction false} CoresCounted(groups: Groups, s: set<nat>)
    ensures CoresIn(groups, s) == |CoresWithin(groups, s)|
  {
    if groups == [] {
      assert CoresWithin(groups, s) == {};
    } else {
      var n := |groups| - 1;
      CoresCounted(groups[..n], s);
      CoresOfLast(groups, s);
      assert groups[..n] + [groups[n]] == groups;
      var front := CoresWithin(groups[..n], s);
      assert Inside(groups[n], s) <==> forall x :: x in groups[n] ==> x in s;
      assert CoresWithin(groups, s) == if Inside(groups[n], s) then front + {n} else front;
    }
  }

  lemma {:induction false} CoresOfLast(groups: Groups, s: set<nat>)
    requires groups != []
    ensures CoresIn(groups, s) == CoresIn(groups[..|groups| - 1], s) + if Inside(groups[|groups| - 1], s) then 1 else 0
  {
    if |groups| > 1 {
      CoresOfLast(groups[1..], s);
      assert groups[1..][..|groups| - 2] == groups[..|groups| - 1][1..];
    } else {
      assert groups[1..] == [] && groups[..0] == [];
    }
  }

  /** A partition: two nonempty disjoint sets of whole cores that hold every CPU, their printed forms and
      their numbers of cores. */
  ghost predicate Divides(groups: Groups, p: Partition, a: set<nat>, b: set<nat>) {
    && a != {} && b != {} && a !! b && a + b == Flat(groups)
    && Unsplit(groups, a) && Unsplit(groups, b)
    && p.scylla == Text(a) && p.runtime == Text(b)
    && p.scyllaCores == |CoresWithin(groups, a)| && p.runtimeCores == |CoresWithin(groups, b)|
    && p.scyllaCores + p.runtimeCores == |groups|
  }

  /** What the checks of the resolution leave. */
  lemma CheckedSetsDivide(groups: Groups, scylla: string, runtime: string)
    requires Cores(groups) && Resolve(groups, scylla, runtime).Ok? && Resolve(groups, scylla, runtime).value.Some?
    ensures Divides(groups, Resolve(groups, scylla, runtime).value.value,
                    ScyllaCpus(groups, scylla, runtime), RuntimeCpus(groups, scylla, runtime))
  {
    var a, b := ScyllaCpus(groups, scylla, runtime), RuntimeCpus(groups, scylla, runtime);
    ScyllaIsWhole(groups, scylla, runtime);
    SidesOfCores(groups, a, b);
    CoresAddUp(groups, a, b);
    assert b == Flat(groups) - a;
    ComplementIsWhole(groups, a);
    CoresCounted(groups, a);
    CoresCounted(groups, b);
  }

  /** Every partition returned divides the cores and honours the overrides; and its printed sets read back as
      the two sets exactly when no CPU is above 4095. */
  lemma PartitionIsSound(groups: Groups, scylla: string, runtime: string)
    requires Cores(groups) && Resolve(groups, scylla, runtime).Ok? && Resolve(groups, scylla, runtime).value.Some?
    ensures var p := Resolve(groups, scylla, runtime).value.value;
            var a, b := ScyllaCpus(groups, scylla, runtime), RuntimeCpus(groups, scylla, runtime);
            && Divides(groups, p, a, b)
            && (scylla != "" ==> Parse(scylla) == Ok(a))
            && (runtime != "" ==> Parse(runtime) == Ok(b))
            && (Parse(p.scylla) == Ok(a) && Parse(p.runtime) == Ok(b) <==> forall x :: x in Flat(groups) ==> x <= 4095)
  {
    CheckedSetsDivide(groups, scylla, runtime);
    PrintedSetReadsBack(ScyllaCpus(groups, scylla, runtime));
    PrintedSetReadsBack(RuntimeCpus(groups, scylla, runtime));
  }

  ghost function CpusOfFirst(groups: Groups, n: nat): set<nat>
    requires n <= |groups|
  {
    set i, x | 0 <= i < n && x in groups[i] :: x
  }

  lemma FirstCores(groups: Groups, n: nat)
    requires n <= |groups|
    ensures Flat(groups[..n]) == CpusOfFirst(groups, n)
  {
    forall x
      ensures x in Flat(groups[..n]) <==> x in CpusOfFirst(groups, n)
    {
      assert forall i :: 0 <= i < n ==> groups[..n][i] == groups[i];
    }
  }

  /** Without overrides two or more cores can always be divided: Scylla gets the first four of sixteen or more, the
      first two of eight or more, and otherwise the first. */
  lemma DefaultPartitionExists(groups: Groups)
    requires Cores(groups)
    ensures Resolve(groups, "", "").Ok? && (Resolve(groups, "", "").value.Some? <==> |groups| >= 2)
    ensures |groups| >= 2 ==>
              var n := if |groups| >= 16 then 4 else if |groups| >= 8 then 2 else 1;
              Resolve(groups, "", "").value.value.scylla == Text(CpusOfFirst(groups, n))
  {
    if |groups| >= 2 {
      FirstCores(groups, DefaultCores(|groups|));
      var n := DefaultCores(|groups|);
      DefaultTakesSome(groups, n);
      var a := Flat(groups[..n]);
      assert a !! (Flat(groups) - a) && a + (Flat(groups) - a) == Flat(groups);
    }
  }

  lemma DefaultTakesSome(groups: Groups, n: nat)
    requires Cores(groups) && 1 <= n < |groups|
    ensures Flat(groups[..n]) != {} && Flat(groups[..n]) <= Flat(groups) && Flat(groups) - Flat(groups[..n]) != {}
  {
    var a := Flat(groups[..n]);
    assert groups[0][0] in groups[..n][0];
    assert groups[0][0] in a;
    var last := groups[|groups| - 1][0];
    assert last in groups[|groups| - 1];
    assert last in Flat(groups) - a;
    forall x | x in a
      ensures x in Flat(groups)
    {
      var j :| 0 <= j < n && x in groups[..n][j];
      assert x in groups[j];
    }
  }

  // ----- exactly when it succeeds

  /** Two sides that share out the cores as the overrides, where given, say. */
  ghost predicate SharesOut(groups: Groups, scylla: string, runtime: string, a: set<nat>, b: set<nat>) {
    && a != {} && b != {} && a !! b && a + b == Flat(groups)
    && Unsplit(groups, a) && Unsplit(groups, b)
    && (scylla != "" ==> Parse(scylla) == Ok(a))
    && (runtime != "" ==> Parse(runtime) == Ok(b))
  }

  lemma SharedOutIsFound(groups: Groups, scylla: string, runtime: string, a: set<nat>, b: set<nat>)
    requires |groups| >= 2 && SharesOut(groups, scylla, runtime, a, b) && (scylla != "" || runtime != "")
    ensures Resolve(groups, scylla, runtime).Ok? && Resolve(groups, scylla, runtime).value.Some?
  {
    assert OverrideOk(groups, scylla) && OverrideOk(groups, runtime);
    assert b == Flat(groups) - a && a == Flat(groups) - b;
    assert ScyllaCpus(groups, scylla, runtime) == a && RuntimeCpus(groups, scylla, runtime) == b;
  }

  /** The resolution fails only where no two sides share out the cores as asked; with fewer than two cores, exactly
      when anything is asked, and otherwise there is no partition. */
  lemma PartitionIsComplete(groups: Groups, scylla: string, runtime: string)
    requires Cores(groups)
    ensures |groups| >= 2 ==> (Resolve(groups, scylla, runtime).Ok? <==> exists a, b :: SharesOut(groups, scylla, runtime, a, b))
    ensures |groups| >= 2 && Resolve(groups, scylla, runtime).Ok? ==> Resolve(groups, scylla, runtime).value.Some?
    ensures |groups| < 2 ==> (Resolve(groups, scylla, runtime).Err? <==> |scylla| + |runtime| > 0)
    ensures |groups| < 2 && Resolve(groups, scylla, runtime).Ok? ==> Resolve(groups, scylla, runtime).value.None?
  {
    if |groups| >= 2 && Resolve(groups, scylla, runtime).Ok? {
      PartitionIsSound(groups, scylla, runtime);
      assert SharesOut(groups, scylla, runtime, ScyllaCpus(groups, scylla, runtime), RuntimeCpus(groups, scylla, runtime));
    }
    if a, b :| |groups| >= 2 && SharesOut(groups, scylla, runtime, a, b) {
      if scylla == "" && runtime == "" {
        DefaultPartitionExists(groups);
      } else {
        SharedOutIsFound(groups, scylla, runtime, a, b);
      }
    }
  }
}
