/** Publication of a trust-setup package under a fresh prefix (scripts/trust-setup.py): all keys are seen absent
    first, every data object is read back and compared, and the manifest goes up last. */
module ManifestLast {

  type Key = string
  type Bytes = seq<bv8>

  /** What is published: the data objects in upload order and the manifest, each with its contents, and the digest
      objects are compared by. */
  datatype Package = Package(names: seq<Key>, manifest: Key, contents: map<Key, Bytes>, digest: Bytes -> nat, checkOnly: bool)

  datatype Pc =
    | Gate(i: nat)     // vacancy gate: keys before i seen absent
    | Absent(i: nat)   // about to look once more that key i is absent
    | Put(i: nat)      // about to upload key i
    | ReadBack(i: nat) // about to read key i back
    | Done
    | Stopped

  /** `store` is the public prefix; `seen` the keys the gate saw absent; `put` the keys uploaded, in order. */
  datatype State = State(store: map<Key, Bytes>, pc: Pc, seen: set<Key>, put: seq<Key>)

  /** All keys, the manifest last. */
  function Keys(p: Package): seq<Key> {
    p.names + [p.manifest]
  }

  ghost predicate Valid(p: Package) {
    && (forall i, j :: 0 <= i < j < |Keys(p)| ==> Keys(p)[i] != Keys(p)[j])
    && (forall i :: 0 <= i < |Keys(p)| ==> Keys(p)[i] in p.contents)
  }

  /** What reading a key back must show: the digest of a data object, the exact bytes of the manifest. */
  predicate Matches(p: Package, key: Key, bytes: Bytes)
    requires key in p.contents
  {
    if key == p.manifest then bytes == p.contents[key]
    else |bytes| == |p.contents[key]| && p.digest(bytes) == p.digest(p.contents[key])
  }

  function Stop(s: State): State {
    s.(pc := Stopped)
  }

  /** The steps of one run.  An upload may leave any bytes behind; it may also fail, with or without an effect. */
  ghost predicate Next(p: Package, s: State, s': State)
    requires Valid(p)
  {
    || s' == Stop(s)
    || match s.pc
       case Gate(i) =>
         if i < |Keys(p)|
         then s' == if Keys(p)[i] in s.store then Stop(s) else s.(pc := Gate(i + 1), seen := s.seen + {Keys(p)[i]})
         else s' == s.(pc := if p.checkOnly then Done else Absent(0))
       case Absent(i) =>
         if i < |Keys(p)| then s' == if Keys(p)[i] in s.store then Stop(s) else s.(pc := Put(i)) else s' == s.(pc := Done)
       case Put(i) =>
         i < |Keys(p)| && (exists bytes :: s' == Uploaded(p, s, i, bytes) || s' == Stop(Uploaded(p, s, i, bytes)))
       case ReadBack(i) =>
         i < |Keys(p)| && s' == if Keys(p)[i] in s.store && Matches(p, Keys(p)[i], s.store[Keys(p)[i]])
                               then s.(pc := Absent(i + 1)) else Stop(s)
       case Done => s' == s
       case Stopped => s' == s
  }

  function Uploaded(p: Package, s: State, i: nat, bytes: Bytes): State
    requires i < |Keys(p)|
  {
    s.(store := s.store[Keys(p)[i] := bytes], pc := ReadBack(i), put := s.put + [Keys(p)[i]])
  }

  ghost predicate IsRun(p: Package, run: seq<State>)
    requires Valid(p)
  {
    && |run| > 0 && run[0] == State(run[0].store, Gate(0), {}, [])
    && forall n :: 0 <= n < |run| - 1 ==> Next(p, run[n], run[n + 1])
  }

  // ----- the invariant

  ghost predicate Published(p: Package, store: map<Key, Bytes>, n: nat)
    requires Valid(p) && n <= |Keys(p)|
  {
    forall i :: 0 <= i < n ==> Keys(p)[i] in store && Matches(p, Keys(p)[i], store[Keys(p)[i]])
  }

  /** Keys from `n` on are not in the store. */
  ghost predicate Vacant(p: Package, store: map<Key, Bytes>, n: nat)
    requires n <= |Keys(p)|
  {
    forall i :: n <= i < |Keys(p)| ==> Keys(p)[i] !in store
  }

  ghost predicate SeenUpTo(p: Package, s: State, n: nat)
    requires n <= |Keys(p)|
  {
    forall i :: 0 <= i < n ==> Keys(p)[i] in s.seen
  }

  /** The store at the start was touched only by adding the uploaded keys, in order. */
  ghost predicate Extends(p: Package, first: map<Key, Bytes>, s: State)
    requires |s.put| <= |Keys(p)|
  {
    && s.put == Keys(p)[..|s.put|]
    && (forall k :: k in first ==> k in s.store && s.store[k] == first[k])
    && (forall k :: k in s.store ==> k in first || k in s.put)
    && (s.put != [] ==> SeenUpTo(p, s, |Keys(p)|) && Vacant(p, first, 0))
  }

  ghost predicate Position(p: Package, s: State)
    requires Valid(p)
  {
    match s.pc
    case Gate(i) => i <= |Keys(p)| && s.put == [] && SeenUpTo(p, s, i) && (forall j :: 0 <= j < i ==> Keys(p)[j] !in s.store)
    case Absent(i) => i <= |Keys(p)| && |s.put| == i && SeenUpTo(p, s, |Keys(p)|) && Published(p, s.store, i) && Vacant(p, s.store, i)
    case Put(i) => i < |Keys(p)| && |s.put| == i && SeenUpTo(p, s, |Keys(p)|) && Published(p, s.store, i) && Vacant(p, s.store, i)
    case ReadBack(i) => i < |Keys(p)| && |s.put| == i + 1 && Published(p, s.store, i) && Vacant(p, s.store, i + 1)
    case Done => p.checkOnly || Published(p, s.store, |Keys(p)|)
    case Stopped => true
  }

  /** All uploaded keys but possibly the last hold the right bytes. */
  ghost predicate Behind(p: Package, s: State)
    requires Valid(p)
  {
    |s.put| <= |Keys(p)| && (s.put != [] ==> Published(p, s.store, |s.put| - 1))
  }

  ghost predicate Invariant(p: Package, first: map<Key, Bytes>, s: State)
    requires Valid(p)
  {
    Behind(p, s) && Extends(p, first, s) && Position(p, s)
  }

  lemma UploadKeepsInvariant(p: Package, first: map<Key, Bytes>, s: State, i: nat, bytes: Bytes)
    requires Valid(p) && Invariant(p, first, s) && s.pc == Put(i) && i < |Keys(p)|
    ensures Invariant(p, first, Uploaded(p, s, i, bytes))
  {
    var s' := Uploaded(p, s, i, bytes);
    var key := Keys(p)[i];
    assert s'.put == Keys(p)[..i + 1];
    assert key in s'.put;
    if s.put == [] {
      forall j | 0 <= j < |Keys(p)|
        ensures Keys(p)[j] !in first
      {
        assert Keys(p)[j] !in s.store;
      }
    }
    assert key !in first;
  }

  lemma GateKeepsInvariant(p: Package, first: map<Key, Bytes>, s: State, s': State)
    requires Valid(p) && Invariant(p, first, s) && s.pc.Gate? && Next(p, s, s') && s' != Stop(s)
    ensures Invariant(p, first, s')
  {
  }

  lemma AbsentKeepsInvariant(p: Package, first: map<Key, Bytes>, s: State, s': State)
    requires Valid(p) && Invariant(p, first, s) && s.pc.Absent? && Next(p, s, s') && s' != Stop(s)
    ensures Invariant(p, first, s')
  {
  }

  lemma ReadBackKeepsInvariant(p: Package, first: map<Key, Bytes>, s: State, s': State)
    requires Valid(p) && Invariant(p, first, s) && s.pc.ReadBack? && Next(p, s, s') && s' != Stop(s)
    ensures Invariant(p, first, s')
  {
  }

  lemma StopKeepsInvariant(p: Package, first: map<Key, Bytes>, s: State)
    requires Valid(p) && Invariant(p, first, s)
    ensures Invariant(p, first, Stop(s))
  {
  }

  lemma NextKeepsInvariant(p: Package, first: map<Key, Bytes>, s: State, s': State)
    requires Valid(p) && Invariant(p, first, s) && Next(p, s, s')
    ensures Invariant(p, first, s')
  {
    if s' == Stop(s) {
      StopKeepsInvariant(p, first, s);
    } else {
      match s.pc
      case Gate(i) => GateKeepsInvariant(p, first, s, s');
      case Absent(i) => AbsentKeepsInvariant(p, first, s, s');
      case Put(i) =>
        var bytes :| s' == Uploaded(p, s, i, bytes) || s' == Stop(Uploaded(p, s, i, bytes));
        UploadKeepsInvariant(p, first, s, i, bytes);
        StopKeepsInvariant(p, first, Uploaded(p, s, i, bytes));
      case ReadBack(i) => ReadBackKeepsInvariant(p, first, s, s');
      case Done =>
      case Stopped =>
    }
  }

  lemma {:induction false} RunKeepsInvariant(p: Package, run: seq<State>, n: nat)
    requires Valid(p) && IsRun(p, run) && n < |run|
    ensures Invariant(p, run[0].store, run[n])
  {
    if n > 0 {
      RunKeepsInvariant(p, run, n - 1);
      assert Next(p, run[n - 1], run[n - 1 + 1]);
      NextKeepsInvariant(p, run[0].store, run[n - 1], run[n]);
    }
  }

  /** The data objects are there with the size and digest of the package's. */
  ghost predicate DataThere(p: Package, store: map<Key, Bytes>)
    requires Valid(p)
  {
    forall i :: 0 <= i < |p.names| ==>
                  && p.names[i] in p.contents && p.names[i] in store
                  && |store[p.names[i]]| == |p.contents[p.names[i]]|
                  && p.digest(store[p.names[i]]) == p.digest(p.contents[p.names[i]])
  }

  lemma PublishedIsThere(p: Package, store: map<Key, Bytes>)
    requires Valid(p) && Published(p, store, |p.names|)
    ensures DataThere(p, store)
  {
    forall i | 0 <= i < |p.names|
      ensures && p.names[i] in p.contents && p.names[i] in store
              && |store[p.names[i]]| == |p.contents[p.names[i]]|
              && p.digest(store[p.names[i]]) == p.digest(p.contents[p.names[i]])
    {
      assert Keys(p)[i] == p.names[i] && Keys(p)[|p.names|] == p.manifest;
    }
  }

  /** At every point of every run, interrupted or not, when no one else writes under the prefix: nothing is uploaded
      before every key was seen absent; nothing that was there is changed; and once this run put the manifest there,
      every data object is there with the size and digest it was read back and compared by. */
  lemma VisibleManifestMeansComplete(p: Package, run: seq<State>, n: nat)
    requires Valid(p) && IsRun(p, run) && n < |run|
    ensures var s, first := run[n], run[0].store;
            && (s.put != [] ==> forall i :: 0 <= i < |Keys(p)| ==> Keys(p)[i] in s.seen && Keys(p)[i] !in first)
            && (forall k :: k in first ==> k in s.store && s.store[k] == first[k])
            && (p.manifest in s.store && p.manifest !in first ==> DataThere(p, s.store))
            && (s.pc.Done? && !p.checkOnly ==>
                  DataThere(p, s.store) && p.manifest in s.store && p.manifest in p.contents && s.store[p.manifest] == p.contents[p.manifest])
            && (p.checkOnly ==> s.store == first)
  {
    RunKeepsInvariant(p, run, n);
    var s, first := run[n], run[0].store;
    if p.manifest in s.store && p.manifest !in first {
      ManifestIsLast(p, s);
      PublishedIsThere(p, s.store);
    }
    if s.pc.Done? && !p.checkOnly {
      assert Keys(p)[|p.names|] == p.manifest;
      PublishedIsThere(p, s.store);
    }
    if p.checkOnly {
      CheckOnlyWritesNothing(p, run, n);
    }
  }

  lemma ManifestIsLast(p: Package, s: State)
    requires Valid(p) && |s.put| <= |Keys(p)| && s.put == Keys(p)[..|s.put|] && p.manifest in s.put
    ensures |s.put| == |Keys(p)|
  {
    var j :| 0 <= j < |s.put| && s.put[j] == p.manifest;
    assert Keys(p)[j] == Keys(p)[|p.names|];
  }

  lemma {:induction false} CheckOnlyWritesNothing(p: Package, run: seq<State>, n: nat)
    requires Valid(p) && IsRun(p, run) && n < |run| && p.checkOnly
    ensures run[n].store == run[0].store && (run[n].pc.Gate? || run[n].pc.Done? || run[n].pc.Stopped?)
  {
    if n > 0 {
      CheckOnlyWritesNothing(p, run, n - 1);
      assert Next(p, run[n - 1], run[n - 1 + 1]);
    }
  }

  /** What lets a run go on: an upload needs its key absent, a data object read back its size and digest, and the
      manifest its exact bytes. */
  lemma GoesOnExactly(p: Package, s: State, i: nat)
    requires Valid(p) && i <= |p.names|
    ensures var key := KeyAt(p, i);
            && key in p.contents
            && (s.pc == Absent(i) ==> (Next(p, s, s.(pc := Put(i))) <==> key !in s.store))
            && (s.pc == ReadBack(i) && key in s.store ==>
                  (Next(p, s, s.(pc := Absent(i + 1))) <==>
                   if i == |p.names| then s.store[key] == p.contents[key]
                   else |s.store[key]| == |p.contents[key]| && p.digest(s.store[key]) == p.digest(p.contents[key])))
            && (s.pc == ReadBack(i) && key !in s.store ==> !Next(p, s, s.(pc := Absent(i + 1))))
  {
    KeysAt(p);
    assert Keys(p)[i] in p.contents;
    if i < |p.names| {
      assert Keys(p)[i] != Keys(p)[|p.names|];
    }
  }

  // ----- a run nothing goes wrong in

  /** The next step when every upload arrives as it was sent and no command fails. */
  function HonestStep(p: Package, s: State): State
    requires InRange(p, s)
  {
    match s.pc
    case Gate(i) =>
      if i == |p.names| + 1 then s.(pc := if p.checkOnly then Done else Absent(0))
      else if KeyAt(p, i) in s.store then Stop(s)
      else s.(pc := Gate(i + 1), seen := s.seen + {KeyAt(p, i)})
    case Absent(i) =>
      if i == |p.names| + 1 then s.(pc := Done) else if KeyAt(p, i) in s.store then Stop(s) else s.(pc := Put(i))
    case Put(i) => s.(store := s.store[KeyAt(p, i) := p.contents[KeyAt(p, i)]], pc := ReadBack(i), put := s.put + [KeyAt(p, i)])
    case ReadBack(i) =>
      if KeyAt(p, i) in s.store && s.store[KeyAt(p, i)] == p.contents[KeyAt(p, i)] then s.(pc := Absent(i + 1)) else Stop(s)
    case Done => s
    case Stopped => s
  }

  /** The data objects, then the manifest. */
  function KeyAt(p: Package, i: nat): Key
    requires i <= |p.names|
  {
    if i == |p.names| then p.manifest else p.names[i]
  }

  predicate InRange(p: Package, s: State) {
    && (forall i :: 0 <= i <= |p.names| ==> KeyAt(p, i) in p.contents)
    && match s.pc
       case Gate(i) => i <= |p.names| + 1
       case Absent(i) => i <= |p.names| + 1
       case Put(i) => i <= |p.names|
       case ReadBack(i) => i <= |p.names|
       case Done => true
       case Stopped => true
  }

  lemma KeysAt(p: Package)
    ensures |Keys(p)| == |p.names| + 1 && forall i :: 0 <= i < |Keys(p)| ==> Keys(p)[i] == KeyAt(p, i)
  {
  }

  /** It is a step of a run, unless a read does not show what was sent. */
  lemma HonestStepIsNext(p: Package, s: State)
    requires Valid(p) && InRange(p, s)
    requires s.pc.ReadBack? ==> KeyAt(p, s.pc.i) in s.store && s.store[KeyAt(p, s.pc.i)] == p.contents[KeyAt(p, s.pc.i)]
    ensures Next(p, s, HonestStep(p, s))
  {
    KeysAt(p);
    if s.pc.Put? {
      var key := KeyAt(p, s.pc.i);
      assert HonestStep(p, s) == Uploaded(p, s, s.pc.i, p.contents[key]);
    }
  }

  /** The states of such a run. */
  function HonestRun(p: Package, store: map<Key, Bytes>, n: nat): (s: State)
    requires Valid(p)
    ensures InRange(p, s)
  {
    KeysAt(p);
    if n == 0 then State(store, Gate(0), {}, []) else HonestStep(p, HonestRun(p, store, n - 1))
  }

  /** How far it is when every key was absent at the start. */
  ghost predicate OnTheWay(p: Package, first: map<Key, Bytes>, s: State)
    requires Valid(p) && InRange(p, s)
  {
    match s.pc
    case Gate(i) => s.store == first
    case Absent(i) => !p.checkOnly && s.store == With(p, first, i)
    case Put(i) => !p.checkOnly && s.store == With(p, first, i)
    case ReadBack(i) => !p.checkOnly && s.store == With(p, first, i + 1)
    case Done => s.store == if p.checkOnly then first else With(p, first, |p.names| + 1)
    case Stopped => false
  }

  /** The store with the first `n` keys of the package added. */
  function With(p: Package, first: map<Key, Bytes>, n: nat): map<Key, Bytes>
    requires n <= |p.names| + 1 && forall i :: 0 <= i <= |p.names| ==> KeyAt(p, i) in p.contents
  {
    if n == 0 then first else With(p, first, n - 1)[KeyAt(p, n - 1) := p.contents[KeyAt(p, n - 1)]]
  }

  lemma {:induction false} WithHolds(p: Package, first: map<Key, Bytes>, n: nat, k: Key)
    requires n <= |p.names| + 1 && forall i :: 0 <= i <= |p.names| ==> KeyAt(p, i) in p.contents
    ensures (exists i :: 0 <= i < n && KeyAt(p, i) == k) ==> k in With(p, first, n) && With(p, first, n)[k] == p.contents[k]
    ensures (forall i :: 0 <= i < n ==> KeyAt(p, i) != k) ==>
              (k in With(p, first, n) <==> k in first) && (k in first ==> With(p, first, n)[k] == first[k])
  {
    if n > 0 {
      WithHolds(p, first, n - 1, k);
    }
  }

  ghost predicate AllAbsent(p: Package, first: map<Key, Bytes>) {
    p.manifest !in first && forall i :: 0 <= i < |p.names| ==> p.names[i] !in first
  }

  lemma HonestStepGoesOn(p: Package, first: map<Key, Bytes>, s: State)
    requires Valid(p) && InRange(p, s) && OnTheWay(p, first, s) && AllAbsent(p, first)
    ensures OnTheWay(p, first, HonestStep(p, s)) && Next(p, s, HonestStep(p, s))
    ensures !s.pc.Done? ==> StepsLeft(p, HonestStep(p, s)) < StepsLeft(p, s)
  {
    KeysAt(p);
    match s.pc
    case Absent(i) =>
      if i <= |p.names| {
        assert forall j :: 0 <= j < i ==> KeyAt(p, j) != KeyAt(p, i);
        WithHolds(p, first, i, KeyAt(p, i));
      }
    case ReadBack(i) => WithHolds(p, first, i + 1, KeyAt(p, i));
    case _ =>
    HonestStepIsNext(p, s);
  }

  function StepsLeft(p: Package, s: State): nat
    requires InRange(p, s)
  {
    match s.pc
    case Gate(i) => 5 * |p.names| + 10 - i
    case Absent(i) => 3 * (|p.names| + 1 - i) + 3
    case Put(i) => 3 * (|p.names| + 1 - i) + 2
    case ReadBack(i) => 3 * (|p.names| + 1 - i) + 1
    case Done => 0
    case Stopped => 0
  }

  lemma {:induction false} HonestRunGoesOn(p: Package, store: map<Key, Bytes>, n: nat)
    requires Valid(p) && AllAbsent(p, store)
    ensures var s := HonestRun(p, store, n);
            OnTheWay(p, store, s) && (s.pc.Done? || StepsLeft(p, s) + n <= 5 * |p.names| + 10)
  {
    if n > 0 {
      HonestRunGoesOn(p, store, n - 1);
      HonestStepGoesOn(p, store, HonestRun(p, store, n - 1));
    }
  }

  /** The gate stops at a key that is there. */
  lemma {:induction false} GateStops(p: Package, store: map<Key, Bytes>, j: nat, n: nat)
    requires Valid(p) && j <= |p.names| && KeyAt(p, j) in store
    ensures var s := HonestRun(p, store, n);
            s.store == store && s.put == [] && (s.pc.Stopped? || (s.pc == Gate(n) && n <= j))
  {
    if n > 0 {
      GateStops(p, store, j, n - 1);
    }
  }

  /** The package and nothing else was added. */
  ghost predicate AddedExactly(p: Package, first: map<Key, Bytes>, store: map<Key, Bytes>)
    requires Valid(p)
  {
    && (forall k :: k == p.manifest || k in p.names ==> k in p.contents && k in store && store[k] == p.contents[k])
    && (forall k :: k != p.manifest && k !in p.names ==> (k in store <==> k in first) && (k in first ==> store[k] == first[k]))
  }

  lemma WithAllIsAdded(p: Package, first: map<Key, Bytes>)
    requires Valid(p) && forall i :: 0 <= i <= |p.names| ==> KeyAt(p, i) in p.contents
    ensures AddedExactly(p, first, With(p, first, |p.names| + 1))
  {
    forall k
      ensures k == p.manifest || k in p.names <==> exists i :: 0 <= i < |p.names| + 1 && KeyAt(p, i) == k
      ensures k == p.manifest || k in p.names ==> k in With(p, first, |p.names| + 1) && With(p, first, |p.names| + 1)[k] == p.contents[k]
      ensures k != p.manifest && k !in p.names ==>
                && (k in With(p, first, |p.names| + 1) <==> k in first)
                && (k in first ==> With(p, first, |p.names| + 1)[k] == first[k])
    {
      WithHolds(p, first, |p.names| + 1, k);
      assert KeyAt(p, |p.names|) == p.manifest && forall i :: 0 <= i < |p.names| ==> KeyAt(p, i) == p.names[i];
    }
  }

  /** When nothing goes wrong: the package is published exactly when none of its keys was there, and otherwise nothing
      is written; with --check-only nothing is written in either case. */
  lemma HonestRunDecides(p: Package, store: map<Key, Bytes>)
    requires Valid(p)
    ensures var s := HonestRun(p, store, 5 * |p.names| + 11);
            && (AllAbsent(p, store) ==> s.pc.Done? && if p.checkOnly then s.store == store else AddedExactly(p, store, s.store))
            && (!AllAbsent(p, store) ==> s.pc.Stopped? && s.store == store && s.put == [])
    ensures AllAbsent(p, store) ==> forall n: nat :: Next(p, HonestRun(p, store, n), HonestRun(p, store, n + 1))
  {
    var m := 5 * |p.names| + 11;
    KeysAt(p);
    if AllAbsent(p, store) {
      HonestRunGoesOn(p, store, m);
      WithAllIsAdded(p, store);
      forall n: nat
        ensures Next(p, HonestRun(p, store, n), HonestRun(p, store, n + 1))
      {
        HonestRunGoesOn(p, store, n);
        HonestStepGoesOn(p, store, HonestRun(p, store, n));
      }
    } else if p.manifest in store {
      GateStops(p, store, |p.names|, m);
    } else {
      var j :| 0 <= j < |p.names| && p.names[j] in store;
      GateStops(p, store, j, m);
    }
  }
}
