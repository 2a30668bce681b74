/** Children before parents: the selection loops of `ordered` and `buildPreparePlan`
    (scripts/workspace.ts). */
module DependencyOrder {
  import opened Wrappers

  type Repo = string

  /** One repository with the repositories it links to; `value` is whatever else the caller attached. */
  datatype Item<+T> = Item(name: Repo, needs: seq<Repo>, value: T)

  ghost predicate DistinctNames<T>(items: seq<Item<T>>) {
    forall i, j :: 0 <= i < j < |items| ==> items[i].name != items[j].name
  }

  function Names<T>(items: seq<Item<T>>): set<Repo> {
    set i | 0 <= i < |items| :: items[i].name
  }

  // ----- the specification: link graph, cycles, order

  /** `a` is included and links to the included repository `b`. */
  ghost predicate Links<T(!new)>(items: seq<Item<T>>, a: Repo, b: Repo) {
    b in Names(items) && exists i :: 0 <= i < |items| && items[i].name == a && b in items[i].needs
  }

  ghost predicate Walk<T(!new)>(items: seq<Item<T>>, p: seq<Repo>) {
    forall i :: 0 <= i < |p| - 1 ==> Links(items, p[i], p[i + 1])
  }

  /** A closed walk of at least one link; a self-link is one. */
  ghost predicate IsCycle<T(!new)>(items: seq<Item<T>>, p: seq<Repo>) {
    |p| >= 2 && p[0] == p[|p| - 1] && Walk(items, p)
  }

  ghost predicate HasCycle<T(!new)>(items: seq<Item<T>>) {
    exists p :: IsCycle(items, p)
  }

  /** Every included dependency of `out[i]` stands before position `i`, or was `done` already. */
  ghost predicate NeedsMetAt<T>(out: seq<Item<T>>, i: nat, included: set<Repo>, done: set<Repo>)
    requires i < |out|
  {
    forall n :: n in out[i].needs && n in included ==> n in done || n in Names(out[..i])
  }

  ghost predicate ChildrenFirst<T>(out: seq<Item<T>>, included: set<Repo>, done: set<Repo>) {
    forall i :: 0 <= i < |out| ==> NeedsMetAt(out, i, included, done)
  }

  // ----- the loop

  predicate Ready<T>(item: Item<T>, included: set<Repo>, complete: set<Repo>) {
    forall k :: 0 <= k < |item.needs| ==> item.needs[k] !in included || item.needs[k] in complete
  }

  /** The position of the first pending item that is ready, or the length when none is. */
  function FirstReady<T>(pending: seq<Item<T>>, included: set<Repo>, complete: set<Repo>): (k: nat)
    ensures k <= |pending|
    ensures k < |pending| ==> Ready(pending[k], included, complete)
    ensures forall i :: 0 <= i < k ==> !Ready(pending[i], included, complete)
  {
    if pending == [] || Ready(pending[0], included, complete) then 0
    else 1 + FirstReady(pending[1..], included, complete)
  }

  function Remove<T>(s: seq<T>, k: nat): seq<T>
    requires k < |s|
  {
    s[..k] + s[k + 1..]
  }

  /** What the loop returns from a given state. */
  function Drain<T>(pending: seq<Item<T>>, included: set<Repo>, complete: set<Repo>): Option<seq<Item<T>>>
    decreases |pending|
  {
    if pending == [] then Some([])
    else
      var k := FirstReady(pending, included, complete);
      if k == |pending| then None
      else match Drain(Remove(pending, k), included, complete + {pending[k].name})
           case Some(rest) => Some([pending[k]] + rest)
           case None => None
  }

  function Following<T>(output: seq<T>, rest: Option<seq<T>>): Option<seq<T>> {
    match rest
    case Some(r) => Some(output + r)
    case None => None
  }

  lemma DrainStep<T>(output: seq<Item<T>>, pending: seq<Item<T>>, included: set<Repo>, complete: set<Repo>)
    requires pending != []
    ensures var k := FirstReady(pending, included, complete);
            Following(output, Drain(pending, included, complete)) ==
            if k == |pending| then None
            else Following(output + [pending[k]], Drain(Remove(pending, k), included, complete + {pending[k].name}))
  {
    var k := FirstReady(pending, included, complete);
    if k < |pending| && Drain(pending, included, complete).Some? {
      var rest := Drain(Remove(pending, k), included, complete + {pending[k].name}).value;
      assert output + ([pending[k]] + rest) == output + [pending[k]] + rest;
    }
  }

  function Order<T>(items: seq<Item<T>>): Option<seq<Item<T>>> {
    Drain(items, Names(items), {})
  }

  lemma FollowingNothing<T>(items: seq<Item<T>>, output: seq<Item<T>>)
    requires Following([], Order(items)) == Following(output, Some([]))
    ensures Order(items) == Some(output)
  {
    assert output + [] == output;
    assert [] + Order(items).value == Order(items).value;
  }

  /** `ordered`: move the first ready plan from `pending` to `output` until none is left. */
  method Ordered<T>(plans: seq<Item<T>>) returns (r: Option<seq<Item<T>>>)
    ensures r == Order(plans)
  {
    var pending := plans;
    var complete: set<Repo> := {};
    var included := Names(plans);
    var output: seq<Item<T>> := [];
    while pending != []
      invariant Following([], Order(plans)) == Following(output, Drain(pending, included, complete))
      decreases |pending|
    {
      DrainStep(output, pending, included, complete);
      var next := FirstReady(pending, included, complete);
      if next == |pending| {
        return None;
      }
      complete := complete + {pending[next].name};
      output := output + [pending[next]];
      pending := Remove(pending, next);
    }
    FollowingNothing(plans, output);
    r := Some(output);
  }

  /** The loop of `buildPreparePlan`, which asks instead that no dependency is still pending. */
  method OrderedByPending<T>(repositories: seq<Item<T>>) returns (r: Option<seq<Item<T>>>)
    requires DistinctNames(repositories)
    ensures r == Order(repositories)
  {
    var pending := repositories;
    ghost var complete: set<Repo> := {};
    ghost var included := Names(repositories);
    var output: seq<Item<T>> := [];
    while pending != []
      invariant DistinctNames(pending)
      invariant included == complete + Names(pending) && complete !! Names(pending)
      invariant Following([], Order(repositories)) == Following(output, Drain(pending, included, complete))
      decreases |pending|
    {
      DrainStep(output, pending, included, complete);
      var next := 0;
      while next < |pending| && exists n <- pending[next].needs :: n in Names(pending)
        invariant next <= FirstReady(pending, included, complete)
      {
        next := next + 1;
      }
      assert next == FirstReady(pending, included, complete);
      if next == |pending| {
        return None;
      }
      RemoveNames(pending, next);
      complete := complete + {pending[next].name};
      output := output + [pending[next]];
      pending := Remove(pending, next);
    }
    FollowingNothing(repositories, output);
    r := Some(output);
  }

  // ----- success: a permutation with children first

  lemma RemoveNames<T>(items: seq<Item<T>>, k: nat)
    requires DistinctNames(items) && k < |items|
    ensures DistinctNames(Remove(items, k))
    ensures Names(Remove(items, k)) == Names(items) - {items[k].name}
    ensures items[k].name in Names(items)
  {
    var rest := Remove(items, k);
    forall n | n in Names(items) - {items[k].name}
      ensures n in Names(rest)
    {
      var i :| 0 <= i < |items| && items[i].name == n;
      assert rest[if i < k then i else i - 1].name == n;
    }
  }

  lemma RemoveElements<T>(s: seq<T>, k: nat)
    requires k < |s|
    ensures multiset(Remove(s, k)) + multiset{s[k]} == multiset(s)
  {
    assert s == s[..k] + [s[k]] + s[k + 1..];
  }

  lemma {:induction false} DrainSucceeds<T>(pending: seq<Item<T>>, included: set<Repo>, complete: set<Repo>)
    requires DistinctNames(pending)
    requires Drain(pending, included, complete).Some?
    ensures var out := Drain(pending, included, complete).value;
            && multiset(out) == multiset(pending)
            && DistinctNames(out) && Names(out) == Names(pending)
            && ChildrenFirst(out, included, complete)
    decreases |pending|
  {
    if pending != [] {
      var k := FirstReady(pending, included, complete);
      var head := pending[k];
      RemoveNames(pending, k);
      DrainSucceeds(Remove(pending, k), included, complete + {head.name});
      var rest := Drain(Remove(pending, k), included, complete + {head.name}).value;
      ConsKeepsItems(pending, k, rest);
      ConsKeepsChildrenFirst(head, rest, included, complete);
    }
  }

  lemma ConsKeepsItems<T>(pending: seq<Item<T>>, k: nat, rest: seq<Item<T>>)
    requires DistinctNames(pending) && k < |pending| && DistinctNames(rest)
    requires multiset(rest) == multiset(Remove(pending, k)) && Names(rest) == Names(pending) - {pending[k].name}
    ensures var out := [pending[k]] + rest;
            multiset(out) == multiset(pending) && DistinctNames(out) && Names(out) == Names(pending)
  {
    RemoveElements(pending, k);
    RemoveNames(pending, k);
    ConsIsDistinct(pending[k], rest);
  }

  lemma ConsIsDistinct<T>(head: Item<T>, rest: seq<Item<T>>)
    requires DistinctNames(rest) && head.name !in Names(rest)
    ensures DistinctNames([head] + rest) && Names([head] + rest) == {head.name} + Names(rest)
  {
    NamesOfCons(head, rest);
    assert forall i :: 0 <= i < |rest| ==> rest[i].name in Names(rest);
  }

  lemma ConsKeepsChildrenFirst<T>(head: Item<T>, rest: seq<Item<T>>, included: set<Repo>, complete: set<Repo>)
    requires Ready(head, included, complete)
    requires ChildrenFirst(rest, included, complete + {head.name})
    ensures ChildrenFirst([head] + rest, included, complete)
  {
    var out := [head] + rest;
    forall i | 0 <= i < |out|
      ensures NeedsMetAt(out, i, included, complete)
    {
      if i > 0 {
        assert NeedsMetAt(rest, i - 1, included, complete + {head.name});
        assert out[..i] == [head] + rest[..i - 1];
        NamesOfCons(head, rest[..i - 1]);
      }
    }
  }

  lemma NamesOfCons<T>(head: Item<T>, rest: seq<Item<T>>)
    ensures Names([head] + rest) == {head.name} + Names(rest)
  {
    var all := [head] + rest;
    forall n | n in Names(rest)
      ensures n in Names(all)
    {
      var i :| 0 <= i < |rest| && rest[i].name == n;
      assert all[i + 1].name == n;
    }
    assert all[0].name == head.name;
  }

  // ----- failure: a cycle among what is left

  ghost predicate Stuck<T>(pending: seq<Item<T>>, included: set<Repo>, complete: set<Repo>) {
    && pending != []
    && included == complete + Names(pending) && complete !! Names(pending)
    && forall i :: 0 <= i < |pending| ==> !Ready(pending[i], included, complete)
  }

  lemma {:induction false} DrainFails<T>(pending: seq<Item<T>>, included: set<Repo>, complete: set<Repo>)
    returns (left: seq<Item<T>>, done: set<Repo>)
    requires DistinctNames(pending)
    requires included == complete + Names(pending) && complete !! Names(pending)
    requires Drain(pending, included, complete).None?
    ensures Stuck(left, included, done)
    ensures forall x :: x in left ==> x in pending
    decreases |pending|
  {
    var k := FirstReady(pending, included, complete);
    if k == |pending| {
      return pending, complete;
    }
    RemoveNames(pending, k);
    left, done := DrainFails(Remove(pending, k), included, complete + {pending[k].name});
  }

  /** Every item left over links to another one. */
  lemma NextLink<T(!new)>(items: seq<Item<T>>, left: seq<Item<T>>, done: set<Repo>, at: Repo) returns (next: Repo)
    requires Stuck(left, Names(items), done)
    requires forall x :: x in left ==> x in items
    requires at in Names(left)
    ensures next in Names(left) && Links(items, at, next)
  {
    var i :| 0 <= i < |left| && left[i].name == at;
    var k :| 0 <= k < |left[i].needs| && left[i].needs[k] in Names(items) && left[i].needs[k] !in done;
    next := left[i].needs[k];
    assert left[i] in items;
  }

  lemma {:induction false} LongWalk<T(!new)>(items: seq<Item<T>>, left: seq<Item<T>>, done: set<Repo>, n: nat)
    returns (p: seq<Repo>)
    requires Stuck(left, Names(items), done)
    requires forall x :: x in left ==> x in items
    ensures |p| == n + 1 && Walk(items, p)
    ensures forall i :: 0 <= i < |p| ==> p[i] in Names(left)
  {
    if n == 0 {
      p := [left[0].name];
    } else {
      var q := LongWalk(items, left, done, n - 1);
      var next := NextLink(items, left, done, q[|q| - 1]);
      WalkSnoc(items, q, next);
      p := q + [next];
    }
  }

  lemma WalkSnoc<T(!new)>(items: seq<Item<T>>, p: seq<Repo>, next: Repo)
    requires Walk(items, p) && p != [] && Links(items, p[|p| - 1], next)
    ensures Walk(items, p + [next])
  {
  }

  /** A sequence longer than the set it draws from repeats an element. */
  lemma {:induction false} Pigeonhole(p: seq<Repo>, s: set<Repo>) returns (i: nat, j: nat)
    requires |p| > |s|
    requires forall k :: 0 <= k < |p| ==> p[k] in s
    ensures i < j < |p| && p[i] == p[j]
    decreases |p|
  {
    var last := p[|p| - 1];
    if m :| 0 <= m < |p| - 1 && p[m] == last {
      return m, |p| - 1;
    }
    i, j := Pigeonhole(p[..|p| - 1], s - {last});
  }

  lemma StuckHasCycle<T(!new)>(items: seq<Item<T>>, left: seq<Item<T>>, done: set<Repo>)
    requires Stuck(left, Names(items), done)
    requires forall x :: x in left ==> x in items
    ensures HasCycle(items)
  {
    var p := LongWalk(items, left, done, |Names(left)|);
    var i, j := Pigeonhole(p, Names(left));
    CycleFromRepeat(items, p, i, j);
  }

  lemma FailureHasCycle<T(!new)>(items: seq<Item<T>>)
    requires DistinctNames(items) && Order(items).None?
    ensures HasCycle(items)
  {
    var left, done := DrainFails(items, Names(items), {});
    StuckHasCycle(items, left, done);
  }

  lemma CycleFromRepeat<T(!new)>(items: seq<Item<T>>, p: seq<Repo>, i: nat, j: nat)
    requires Walk(items, p) && i < j < |p| && p[i] == p[j]
    ensures IsCycle(items, p[i..j + 1])
  {
    var c := p[i..j + 1];
    forall k | 0 <= k < |c| - 1
      ensures Links(items, c[k], c[k + 1])
    {
      assert Links(items, p[i + k], p[i + k + 1]);
    }
  }

  // ----- a cycle rules out every order

  lemma {:induction false} WalkDescends<T(!new)>(items: seq<Item<T>>, out: seq<Item<T>>, p: seq<Repo>, k: nat, at: nat)
    returns (to: nat)
    requires DistinctNames(items) && multiset(out) == multiset(items)
    requires ChildrenFirst(out, Names(items), {})
    requires Walk(items, p) && k < |p|
    requires at < |out| && out[at].name == p[0]
    ensures to < |out| && out[to].name == p[k] && to + k <= at
  {
    if k == 0 {
      return at;
    }
    var from := WalkDescends(items, out, p, k - 1, at);
    assert Links(items, p[k - 1], p[k]);
    var i :| 0 <= i < |items| && items[i].name == p[k - 1] && p[k] in items[i].needs;
    SameItem(items, out, from, i);
    assert NeedsMetAt(out, from, Names(items), {});
    to :| 0 <= to < from && out[..from][to].name == p[k];
  }

  /** Names identify items, also after reordering. */
  lemma SameItem<T>(items: seq<Item<T>>, out: seq<Item<T>>, a: nat, b: nat)
    requires DistinctNames(items) && multiset(out) == multiset(items)
    requires a < |out| && b < |items| && out[a].name == items[b].name
    ensures out[a] == items[b]
  {
    assert out[a] in multiset(out);
    assert out[a] in items;
  }

  lemma CycleBlocks<T(!new)>(items: seq<Item<T>>, p: seq<Repo>)
    requires DistinctNames(items) && IsCycle(items, p)
    ensures Order(items).None?
  {
    if Order(items).Some? {
      var out := Order(items).value;
      DrainSucceeds(items, Names(items), {});
      assert Links(items, p[0], p[1]);
      var i :| 0 <= i < |items| && items[i].name == p[0];
      assert items[i] in multiset(out);
      var at :| 0 <= at < |out| && out[at] == items[i];
      var to := WalkDescends(items, out, p, |p| - 1, at);
      assert false;
    }
  }

  /** The loop returns an order of all plans with every included child before its parents, or fails; and it
      fails exactly when the included repositories link in a cycle. */
  lemma OrderIsExact<T(!new)>(items: seq<Item<T>>)
    requires DistinctNames(items)
    ensures Order(items).None? <==> HasCycle(items)
    ensures Order(items).Some? ==> var out := Order(items).value;
                                   multiset(out) == multiset(items) && ChildrenFirst(out, Names(items), {})
  {
    if Order(items).Some? {
      DrainSucceeds(items, Names(items), {});
      if p :| IsCycle(items, p) {
        CycleBlocks(items, p);
      }
    } else {
      FailureHasCycle(items);
    }
  }

  /** `out` holds the same items, each dependency among them strictly earlier. */
  ghost predicate Reorders<T(!new)>(items: seq<Item<T>>, out: seq<Item<T>>) {
    && |out| == |items|
    && (forall x :: x in out <==> x in items)
    && DistinctNames(out) && Names(out) == Names(items)
    && ChildrenFirst(out, Names(out), {})
  }

  lemma OrderReorders<T(!new)>(items: seq<Item<T>>)
    requires DistinctNames(items) && Order(items).Some?
    ensures Reorders(items, Order(items).value)
  {
    var out := Order(items).value;
    DrainSucceeds(items, Names(items), {});
    assert |multiset(out)| == |multiset(items)|;
    forall x
      ensures x in out <==> x in items
    {
      assert x in out <==> x in multiset(out);
      assert x in items <==> x in multiset(items);
    }
  }

  // ----- which of the orders

  /** Something the item needs is neither done nor among the first `i` of the output. */
  ghost predicate WaitsAt<T>(out: seq<Item<T>>, i: nat, item: Item<T>, included: set<Repo>, done: set<Repo>)
    requires i <= |out|
  {
    exists n :: n in item.needs && n in included && n !in done && n !in Names(out[..i])
  }

  lemma WaitsLonger<T>(head: Item<T>, rest: seq<Item<T>>, i: nat, item: Item<T>, included: set<Repo>, complete: set<Repo>)
    requires i <= |rest| && WaitsAt(rest, i, item, included, complete + {head.name})
    ensures WaitsAt([head] + rest, i + 1, item, included, complete)
  {
    assert ([head] + rest)[..i + 1] == [head] + rest[..i];
    NamesOfCons(head, rest[..i]);
  }

  lemma NotReadyWaits<T>(out: seq<Item<T>>, item: Item<T>, included: set<Repo>, complete: set<Repo>)
    requires !Ready(item, included, complete)
    ensures WaitsAt(out, 0, item, included, complete)
  {
    assert out[..0] == [];
  }

  lemma OneOfEach<T>(items: seq<Item<T>>, p: nat, q: nat)
    requires DistinctNames(items) && p < |items| && q < |items| && items[p] == items[q]
    ensures p == q
  {
  }

  /** What is left over stays in order. */
  lemma StillAt<T>(pending: seq<T>, k: nat, p: nat) returns (p': nat)
    requires k < |pending| && p < |pending| && p != k
    ensures p' == (if p < k then p else p - 1) && p' < |Remove(pending, k)| && Remove(pending, k)[p'] == pending[p]
  {
    p' := if p < k then p else p - 1;
  }

  /** A plan stands after one that was given later only while something it needs is still to come. */
  ghost predicate Greedy<T>(pending: seq<Item<T>>, included: set<Repo>, done: set<Repo>, out: seq<Item<T>>) {
    forall i, j, p, q :: 0 <= i < j < |out| && 0 <= p < q < |pending| && pending[p] == out[j] && pending[q] == out[i] ==>
                           WaitsAt(out, i, pending[p], included, done)
  }

  lemma GreedyTail<T>(pending: seq<Item<T>>, k: nat, rest: seq<Item<T>>, included: set<Repo>, done: set<Repo>, i: nat, j: nat, p: nat, q: nat)
    requires k < |pending| && i < j < |rest| && p < q < |pending| && pending[p] == rest[j] && pending[q] == rest[i]
    requires p != k && q != k && Greedy(Remove(pending, k), included, done, rest)
    ensures WaitsAt(rest, i, pending[p], included, done)
  {
    var p' := StillAt(pending, k, p);
    var q' := StillAt(pending, k, q);
  }

  lemma GreedyCons<T>(pending: seq<Item<T>>, k: nat, rest: seq<Item<T>>, out: seq<Item<T>>, included: set<Repo>, complete: set<Repo>)
    requires DistinctNames(pending) && k < |pending| && out == [pending[k]] + rest
    requires forall i :: 0 <= i < k ==> !Ready(pending[i], included, complete)
    requires forall x :: 0 <= x < |rest| ==> rest[x] != pending[k]
    requires Greedy(Remove(pending, k), included, complete + {pending[k].name}, rest)
    ensures Greedy(pending, included, complete, out)
  {
    forall i, j, p, q | 0 <= i < j < |out| && 0 <= p < q < |pending| && pending[p] == out[j] && pending[q] == out[i]
      ensures WaitsAt(out, i, pending[p], included, complete)
    {
      assert out[j] == rest[j - 1];
      if i == 0 {
        OneOfEach(pending, q, k);
        NotReadyWaits(out, pending[p], included, complete);
      } else {
        assert out[i] == rest[i - 1];
        GreedyTail(pending, k, rest, included, complete + {pending[k].name}, i - 1, j - 1, p, q);
        WaitsLonger(pending[k], rest, i - 1, pending[p], included, complete);
      }
    }
  }

  lemma {:induction false} DrainIsGreedy<T>(pending: seq<Item<T>>, included: set<Repo>, complete: set<Repo>)
    requires DistinctNames(pending) && Drain(pending, included, complete).Some?
    ensures Greedy(pending, included, complete, Drain(pending, included, complete).value)
    decreases |pending|
  {
    if pending != [] {
      var k := FirstReady(pending, included, complete);
      var left, done := Remove(pending, k), complete + {pending[k].name};
      var rest := Drain(left, included, done).value;
      RemoveNames(pending, k);
      DrainIsGreedy(left, included, done);
      NotTheHead(pending, k, included, complete, rest);
      GreedyCons(pending, k, rest, Drain(pending, included, complete).value, included, complete);
    }
  }

  lemma NotTheHead<T>(pending: seq<Item<T>>, k: nat, included: set<Repo>, complete: set<Repo>, rest: seq<Item<T>>)
    requires DistinctNames(pending) && k < |pending|
    requires Drain(Remove(pending, k), included, complete + {pending[k].name}) == Some(rest)
    ensures forall x :: 0 <= x < |rest| ==> rest[x] != pending[k]
  {
    RemoveNames(pending, k);
    DrainSucceeds(Remove(pending, k), included, complete + {pending[k].name});
    assert forall x :: 0 <= x < |rest| ==> rest[x].name in Names(rest);
  }

  /** Of all such orders it is the one closest to the given one. */
  lemma OrderIsGreedy<T>(items: seq<Item<T>>)
    requires DistinctNames(items) && Order(items).Some?
    ensures Greedy(items, Names(items), {}, Order(items).value)
  {
    DrainIsGreedy(items, Names(items), {});
  }

  // ----- callers' records

  /** The position of the record with a name, or the length when there is none. */
  function PositionOf<T>(values: seq<T>, name: T -> Repo, r: Repo): (i: nat)
    ensures i <= |values|
    ensures i < |values| ==> name(values[i]) == r
    ensures forall j :: 0 <= j < i ==> name(values[j]) != r
  {
    if values == [] || name(values[0]) == r then 0 else 1 + PositionOf(values[1..], name, r)
  }

  function Itemized<T>(values: seq<T>, name: T -> Repo, needs: T -> seq<Repo>): seq<Item<T>> {
    seq(|values|, i requires 0 <= i < |values| => Item(name(values[i]), needs(values[i]), values[i]))
  }

  lemma ItemizedNames<T>(values: seq<T>, name: T -> Repo, needs: T -> seq<Repo>)
    requires forall i, j :: 0 <= i < j < |values| ==> name(values[i]) != name(values[j])
    ensures DistinctNames(Itemized(values, name, needs))
  {
  }

  function Values<T>(items: seq<Item<T>>): seq<T> {
    seq(|items|, i requires 0 <= i < |items| => items[i].value)
  }

  lemma ReorderedValue<T(!new)>(values: seq<T>, name: T -> Repo, needs: T -> seq<Repo>, out: seq<Item<T>>, i: nat)
    requires Reorders(Itemized(values, name, needs), out) && i < |out|
    ensures var v := Values(out)[i];
            out[i] == Item(name(v), needs(v), v) && v in values
  {
    assert out[i] in Itemized(values, name, needs);
  }

  /** The order holds the same records. */
  lemma ReorderedValues<T(!new)>(values: seq<T>, name: T -> Repo, needs: T -> seq<Repo>, out: seq<Item<T>>)
    requires Reorders(Itemized(values, name, needs), out)
    ensures |Values(out)| == |values| && forall v :: v in Values(out) <==> v in values
    ensures forall i, j :: 0 <= i < j < |out| ==> name(Values(out)[i]) != name(Values(out)[j])
  {
    forall i | 0 <= i < |out|
      ensures name(Values(out)[i]) == out[i].name && Values(out)[i] in values
    {
      ReorderedValue(values, name, needs, out, i);
    }
    forall v | v in values
      ensures v in Values(out)
    {
      var i :| 0 <= i < |values| && values[i] == v;
      assert Itemized(values, name, needs)[i] in out;
      var m :| 0 <= m < |out| && out[m] == Itemized(values, name, needs)[i];
      assert Values(out)[m] == v;
    }
  }

  /** What a record needs stands before it, or is not there at all. */
  lemma NeedIsEarlier<T(!new)>(values: seq<T>, name: T -> Repo, needs: T -> seq<Repo>, out: seq<Item<T>>, i: nat, r: Repo)
    requires Reorders(Itemized(values, name, needs), out) && i < |out| && r in needs(Values(out)[i])
    ensures var c := PositionOf(Values(out), name, r);
            c < i || c == |out|
  {
    var c := PositionOf(Values(out), name, r);
    if c < |out| {
      ReorderedValue(values, name, needs, out, i);
      ReorderedValue(values, name, needs, out, c);
      assert out[c].name in Names(out);
      assert NeedsMetAt(out, i, Names(out), {});
      var m :| 0 <= m < i && out[..i][m].name == r;
      ReorderedValue(values, name, needs, out, m);
    }
  }
}
