/** Runs with named reviewed/expected pairs and no other writers (scripts/workspace.ts): when a run
    completes, what it leaves on the remotes, and what rerunning an interrupted one does. */
module PushResume {
  import opened DependencyOrder
  import opened Commits
  import opened Push
  import opened PushOrder

  function Givens(c: Setup): seq<Commit> {
    seq(|c.plans|, i requires 0 <= i < |c.plans| => c.plans[i].given)
  }

  function Fresh(c: Setup, remotes: map<Branch, Commit>): State {
    State(remotes, Givens(c), Start(0), 0, [])
  }

  lemma StepInRange(c: Setup, s: State)
    requires InRange(c, s)
    ensures InRange(c, Step(c, s))
  {
  }

  function Phase(pc: Pc): nat {
    match pc
    case Start(_) => 4
    case Check(_, _) => 4
    case Settle(_) => 3
    case Recheck(_) => 2
    case Done => 0
    case Stopped => 0
    case _ => 1
  }

  function Position(pc: Pc): nat {
    match pc
    case Done => 0
    case Stopped => 0
    case Start(i) => i
    case Check(i, _) => i
    case Settle(i) => i
    case Recheck(i) => i
    case Pins(i, _) => i
    case Own(i) => i
    case Send(i) => i
  }

  function Stage(pc: Pc): nat {
    match pc
    case Start(_) => 1
    case Pins(_, _) => 2
    case Own(_) => 1
    case _ => 0
  }

  function LinksLeft(c: Setup, pc: Pc): int {
    match pc
    case Check(i, k) => if i < |c.plans| then |c.plans[i].tip.links| - k else 0
    case Pins(i, k) => if i < |c.plans| then |c.plans[i].tip.links| - k else 0
    case _ => 0
  }

  predicate Ended(s: State) {
    s.pc.Done? || s.pc.Stopped?
  }

  /** The state an undisturbed run ends in; every run ends. */
  function Final(c: Setup, s: State): State
    requires InRange(c, s)
    decreases Phase(s.pc), |c.plans| - Position(s.pc), Stage(s.pc), LinksLeft(c, s.pc)
  {
    if Ended(s) then s
    else
      StepInRange(c, s);
      Final(c, Step(c, s))
  }

  /** The state after `n` undisturbed steps: an interrupted run. */
  function After(c: Setup, s: State, n: nat): (s': State)
    requires InRange(c, s)
    ensures InRange(c, s')
  {
    if n == 0 then s
    else
      StepInRange(c, After(c, s, n - 1));
      Step(c, After(c, s, n - 1))
  }

  // ----- what the checks amount to

  predicate OwnOk(c: Setup, i: nat)
    requires i < |c.plans|
  {
    var plan := c.plans[i];
    && c.documented(plan.name) && c.present(plan.name, plan.tip) && c.present(plan.name, plan.given)
    && Ancestor(plan.given, plan.tip) && c.dependenciesOk(plan.name, plan.tip)
  }

  predicate LiveOk(c: Setup, r: map<Branch, Commit>, i: nat)
    requires i < |c.plans|
  {
    At(r, OwnBranch(c, i), c.plans[i].given) || At(r, OwnBranch(c, i), c.plans[i].tip)
  }

  predicate LinksOk(c: Setup, r: map<Branch, Commit>, i: nat, from: nat)
    requires i < |c.plans| && from <= |c.plans[i].tip.links|
  {
    forall k :: from <= k < |c.plans[i].tip.links| ==> LinkOk(c, r, c.plans[i].given, i, k, false)
  }

  /** The remotes pass every check made before the first write. */
  predicate Passes(c: Setup, r: map<Branch, Commit>) {
    forall i :: 0 <= i < |c.plans| ==> OwnOk(c, i) && LiveOk(c, r, i) && LinksOk(c, r, i, 0)
  }

  /** What the checks demand of a link: what it is cleared for, and its pin reachable from the reviewed commit of a
      selected child, or from the live branch of any other. */
  ghost predicate LinkAcceptable(c: Setup, r: map<Branch, Commit>, i: nat, link: Link)
    requires i < |c.plans|
  {
    && LinkCleared(c, c.plans[i].given, link)
    && (link.child != "" ==>
          && (forall j :: 0 <= j < |c.plans| && c.plans[j].name == link.child ==>
                            c.present(link.child, c.plans[j].tip) && Ancestor(link.sha, c.plans[j].tip))
          && ((forall j :: 0 <= j < |c.plans| ==> c.plans[j].name != link.child) ==>
                var b := Branch(link.child, c.plans[i].ref);
                b in r && c.present(link.child, r[b]) && Ancestor(link.sha, r[b])))
  }

  ghost predicate PlanAcceptable(c: Setup, r: map<Branch, Commit>, i: nat)
    requires i < |c.plans|
  {
    var plan := c.plans[i];
    var b := Branch(plan.name, plan.ref);
    && PlanCleared(c, plan.given, i) && b in r && (r[b] == plan.given || r[b] == plan.tip)
    && forall k :: 0 <= k < |plan.tip.links| ==> LinkAcceptable(c, r, i, plan.tip.links[k])
  }

  ghost predicate Acceptable(c: Setup, r: map<Branch, Commit>) {
    forall i :: 0 <= i < |c.plans| ==> PlanAcceptable(c, r, i)
  }

  lemma LinkOkExactly(c: Setup, r: map<Branch, Commit>, i: nat, k: nat)
    requires DistinctPlans(c.plans) && i < |c.plans| && k < |c.plans[i].tip.links| && OwnOk(c, i) && LiveOk(c, r, i)
    ensures LinkOk(c, r, c.plans[i].given, i, k, false) <==> LinkAcceptable(c, r, i, c.plans[i].tip.links[k])
  {
  }

  /** The checks as they are made, and what they demand. */
  lemma PassesExactly(c: Setup, r: map<Branch, Commit>)
    requires DistinctPlans(c.plans)
    ensures Passes(c, r) <==> Acceptable(c, r)
  {
    forall i | 0 <= i < |c.plans|
      ensures OwnOk(c, i) && LiveOk(c, r, i) && LinksOk(c, r, i, 0) <==> PlanAcceptable(c, r, i)
    {
      if OwnOk(c, i) && LiveOk(c, r, i) {
        forall k | 0 <= k < |c.plans[i].tip.links|
          ensures LinkOk(c, r, c.plans[i].given, i, k, false) <==> LinkAcceptable(c, r, i, c.plans[i].tip.links[k])
        {
          LinkOkExactly(c, r, i, k);
        }
      }
    }
  }

  /** The remotes after the first `n` plans were published. */
  function PublishFirst(c: Setup, r: map<Branch, Commit>, n: nat): map<Branch, Commit>
    requires n <= |c.plans|
  {
    if n == 0 then r else PublishFirst(c, r, n - 1)[OwnBranch(c, n - 1) := c.plans[n - 1].tip]
  }

  ghost predicate Outside(c: Setup, b: Branch, n: nat)
    requires n <= |c.plans|
  {
    forall j :: 0 <= j < n ==> b.repo != c.plans[j].name
  }

  lemma {:induction false} PublishedAt(c: Setup, r: map<Branch, Commit>, n: nat, j: nat)
    requires DistinctPlans(c.plans) && j < n <= |c.plans|
    ensures At(PublishFirst(c, r, n), OwnBranch(c, j), c.plans[j].tip)
  {
    if j < n - 1 {
      PublishedAt(c, r, n - 1, j);
    }
  }

  lemma {:induction false} UnpublishedAt(c: Setup, r: map<Branch, Commit>, n: nat, b: Branch)
    requires n <= |c.plans| && Outside(c, b, n)
    ensures b in PublishFirst(c, r, n) <==> b in r
    ensures b in r ==> PublishFirst(c, r, n)[b] == r[b]
  {
    if n > 0 {
      UnpublishedAt(c, r, n - 1, b);
    }
  }

  /** Every selected branch at its reviewed commit, every other branch as it was. */
  ghost predicate PublishedExactly(c: Setup, r: map<Branch, Commit>, r': map<Branch, Commit>) {
    && (forall i :: 0 <= i < |c.plans| ==> At(r', Branch(c.plans[i].name, c.plans[i].ref), c.plans[i].tip))
    && (forall b :: (forall i :: 0 <= i < |c.plans| ==> b != Branch(c.plans[i].name, c.plans[i].ref)) ==>
                      (b in r' <==> b in r) && (b in r ==> r'[b] == r[b]))
  }

  lemma {:induction false} OthersAsTheyWere(c: Setup, r: map<Branch, Commit>, n: nat, b: Branch)
    requires n <= |c.plans| && forall i :: 0 <= i < n ==> b != Branch(c.plans[i].name, c.plans[i].ref)
    ensures (b in PublishFirst(c, r, n) <==> b in r) && (b in r ==> PublishFirst(c, r, n)[b] == r[b])
  {
    if n > 0 {
      OthersAsTheyWere(c, r, n - 1, b);
    }
  }

  lemma AllPublished(c: Setup, r: map<Branch, Commit>)
    requires DistinctPlans(c.plans)
    ensures PublishedExactly(c, r, PublishFirst(c, r, |c.plans|))
  {
    forall i | 0 <= i < |c.plans|
      ensures At(PublishFirst(c, r, |c.plans|), Branch(c.plans[i].name, c.plans[i].ref), c.plans[i].tip)
    {
      PublishedAt(c, r, |c.plans|, i);
    }
    forall b | forall i :: 0 <= i < |c.plans| ==> b != Branch(c.plans[i].name, c.plans[i].ref)
      ensures (b in PublishFirst(c, r, |c.plans|) <==> b in r) && (b in r ==> PublishFirst(c, r, |c.plans|)[b] == r[b])
    {
      OthersAsTheyWere(c, r, |c.plans|, b);
    }
  }

  // ----- the checking passes

  lemma FinalStep(c: Setup, s: State)
    requires InRange(c, s) && !Ended(s)
    ensures InRange(c, Step(c, s)) && Final(c, s) == Final(c, Step(c, s))
    ensures Ended(Step(c, s)) ==> Final(c, s) == Step(c, s)
  {
    StepInRange(c, s);
  }

  lemma {:induction false} ChecksOfPlan(c: Setup, s: State, i: nat, k: nat)
    requires InRange(c, s) && s.pc == Check(i, k) && s.expected == Givens(c)
    ensures LinksOk(c, s.remotes, i, k) ==> Final(c, s) == Final(c, s.(pc := Start(i + 1)))
    ensures !LinksOk(c, s.remotes, i, k) ==> Final(c, s).pc.Stopped?
    decreases |c.plans[i].tip.links| - k
  {
    FinalStep(c, s);
    LinksOkStep(c, s.remotes, i, k);
    if k < |c.plans[i].tip.links| && LinkOk(c, s.remotes, s.expected[i], i, k, false) {
      ChecksOfPlan(c, s.(pc := Check(i, k + 1)), i, k + 1);
    }
  }

  lemma LinksOkStep(c: Setup, r: map<Branch, Commit>, i: nat, k: nat)
    requires i < |c.plans| && k <= |c.plans[i].tip.links|
    ensures LinksOk(c, r, i, k) <==>
            k < |c.plans[i].tip.links| ==> LinkOk(c, r, c.plans[i].given, i, k, false) && LinksOk(c, r, i, k + 1)
  {
  }

  ghost predicate PlanPasses(c: Setup, r: map<Branch, Commit>, i: nat)
    requires i < |c.plans|
  {
    OwnOk(c, i) && LinksOk(c, r, i, 0)
  }

  ghost predicate PlansPass(c: Setup, r: map<Branch, Commit>, from: nat) {
    forall j :: from <= j < |c.plans| ==> PlanPasses(c, r, j)
  }

  ghost predicate AllLive(c: Setup, r: map<Branch, Commit>, from: nat) {
    forall j :: from <= j < |c.plans| ==> LiveOk(c, r, j)
  }

  lemma {:induction false} FirstPass(c: Setup, s: State, i: nat)
    requires c.explicit && InRange(c, s) && s.pc == Start(i) && s.expected == Givens(c)
    ensures PlansPass(c, s.remotes, i) ==> Final(c, s) == Final(c, s.(pc := Settle(0)))
    ensures !PlansPass(c, s.remotes, i) ==> Final(c, s).pc.Stopped?
    decreases |c.plans| - i
  {
    FinalStep(c, s);
    if i < |c.plans| {
      assert s.expected[i := c.plans[i].given] == s.expected;
      assert PlansPass(c, s.remotes, i) <==> PlanPasses(c, s.remotes, i) && PlansPass(c, s.remotes, i + 1);
      if OwnOk(c, i) {
        ChecksOfPlan(c, s.(pc := Check(i, 0)), i, 0);
        FirstPass(c, s.(pc := Start(i + 1)), i + 1);
      }
    }
  }

  lemma {:induction false} SecondPass(c: Setup, s: State, i: nat)
    requires InRange(c, s) && s.pc == Settle(i) && s.expected == Givens(c)
    ensures AllLive(c, s.remotes, i) ==> Final(c, s) == Final(c, s.(pc := Recheck(0)))
    ensures !AllLive(c, s.remotes, i) ==> Final(c, s).pc.Stopped?
    decreases |c.plans| - i
  {
    FinalStep(c, s);
    if i < |c.plans| {
      assert AllLive(c, s.remotes, i) <==> LiveOk(c, s.remotes, i) && AllLive(c, s.remotes, i + 1);
      if Unmoved(c, s, i) {
        SecondPass(c, s.(pc := Settle(i + 1)), i + 1);
      }
    }
  }

  lemma {:induction false} ThirdPass(c: Setup, s: State, i: nat)
    requires InRange(c, s) && s.pc == Recheck(i) && s.expected == Givens(c)
    requires AllLive(c, s.remotes, i)
    ensures Final(c, s) == Final(c, s.(pc := if c.publish then Pins(0, 0) else Done))
    decreases |c.plans| - i
  {
    FinalStep(c, s);
    if i < |c.plans| {
      assert LiveOk(c, s.remotes, i);
      ThirdPass(c, s.(pc := Recheck(i + 1)), i + 1);
    }
  }

  /** A run that completes started from remotes that pass, and from such remotes the checks succeed. */
  lemma ChecksDecide(c: Setup, r: map<Branch, Commit>)
    requires c.explicit
    ensures Passes(c, r) ==> Final(c, Fresh(c, r)) == Final(c, Fresh(c, r).(pc := if c.publish then Pins(0, 0) else Done))
    ensures !Passes(c, r) ==> Final(c, Fresh(c, r)).pc.Stopped?
  {
    var s := Fresh(c, r);
    assert Passes(c, r) <==> PlansPass(c, r, 0) && AllLive(c, r, 0) by {
      if PlansPass(c, r, 0) && AllLive(c, r, 0) {
        forall i | 0 <= i < |c.plans|
          ensures OwnOk(c, i) && LiveOk(c, r, i) && LinksOk(c, r, i, 0)
        {
          assert PlanPasses(c, r, i) && LiveOk(c, r, i);
        }
      }
    }
    FirstPass(c, s, 0);
    if PlansPass(c, r, 0) {
      SecondPass(c, s.(pc := Settle(0)), 0);
      if AllLive(c, r, 0) {
        ThirdPass(c, s.(pc := Recheck(0)), 0);
      }
    }
  }

  // ----- publication

  /** A link that passed before the first write passes again when its parent's turn comes. */
  lemma PinStaysGood(c: Setup, r: map<Branch, Commit>, i: nat, k: nat)
    requires DistinctPlans(c.plans) && ChildrenBefore(c.plans)
    requires i < |c.plans| && k < |c.plans[i].tip.links|
    requires LinkOk(c, r, c.plans[i].given, i, k, false)
    ensures LinkOk(c, PublishFirst(c, r, i), c.plans[i].given, i, k, true)
  {
    UnpublishedAt(c, r, i, OwnBranch(c, i));
    var link := c.plans[i].tip.links[k];
    var j := Index(c.plans, link.child);
    if j < |c.plans| {
      PublishedAt(c, r, i, j);
    } else {
      UnpublishedAt(c, r, i, PinBranch(c, i, link.child));
    }
  }

  lemma {:induction false} PinsOfPlan(c: Setup, s: State, r: map<Branch, Commit>, i: nat, k: nat)
    requires DistinctPlans(c.plans) && ChildrenBefore(c.plans) && Passes(c, r)
    requires InRange(c, s) && s.pc == Pins(i, k) && i < |c.plans| && s.expected == Givens(c)
    requires s.remotes == PublishFirst(c, r, i)
    ensures Final(c, s) == Final(c, s.(pc := Own(i)))
    decreases |c.plans[i].tip.links| - k
  {
    FinalStep(c, s);
    if k < |c.plans[i].tip.links| {
      assert OwnOk(c, i) && LinksOk(c, r, i, 0);
      PinStaysGood(c, r, i, k);
      PinsOfPlan(c, s.(pc := Pins(i, k + 1)), r, i, k + 1);
    }
  }

  /** An update is made only where the run found the expected commit and not yet the reviewed one. */
  ghost predicate UpdatesWhereNeeded(c: Setup, r: map<Branch, Commit>, updates: seq<Update>) {
    forall n :: 0 <= n < |updates| ==>
                  updates[n].plan < |c.plans| && !At(r, OwnBranch(c, updates[n].plan), c.plans[updates[n].plan].tip)
  }

  lemma SendOne(c: Setup, s: State, r: map<Branch, Commit>, i: nat) returns (s': State)
    requires DistinctPlans(c.plans) && Passes(c, r)
    requires InRange(c, s) && s.pc == Own(i) && s.expected == Givens(c)
    requires s.remotes == PublishFirst(c, r, i) && UpdatesWhereNeeded(c, r, s.updates)
    ensures InRange(c, s') && s'.pc == Pins(i + 1, 0) && s'.expected == Givens(c)
    ensures s'.remotes == PublishFirst(c, r, i + 1) && UpdatesWhereNeeded(c, r, s'.updates)
    ensures Final(c, s) == Final(c, s')
  {
    assert OwnOk(c, i) && LiveOk(c, r, i);
    var b, tip := OwnBranch(c, i), c.plans[i].tip;
    UnpublishedAt(c, r, i, b);
    FinalStep(c, s);
    if At(s.remotes, b, tip) {
      assert s.remotes[b := tip] == s.remotes;
      s' := Step(c, s);
    } else {
      s' := SendMissing(c, s, i);
    }
  }

  lemma SendMissing(c: Setup, s: State, i: nat) returns (s': State)
    requires InRange(c, s) && s.pc == Own(i)
    requires At(s.remotes, OwnBranch(c, i), s.expected[i]) && !At(s.remotes, OwnBranch(c, i), c.plans[i].tip)
    requires Ancestor(s.expected[i], c.plans[i].tip) && c.present(c.plans[i].name, s.expected[i])
    ensures InRange(c, s') && s'.pc == Pins(i + 1, 0) && s'.expected == s.expected
    ensures s'.remotes == s.remotes[OwnBranch(c, i) := c.plans[i].tip]
    ensures s'.updates == s.updates + [Update(i, s.expected[i], c.plans[i].tip)]
    ensures Final(c, s) == Final(c, s')
  {
    FinalStep(c, s);
    FinalStep(c, Step(c, s));
    s' := Step(c, Step(c, s));
  }

  lemma {:induction false} PublishAll(c: Setup, s: State, r: map<Branch, Commit>, i: nat)
    requires DistinctPlans(c.plans) && ChildrenBefore(c.plans) && Passes(c, r)
    requires InRange(c, s) && s.pc == Pins(i, 0) && s.expected == Givens(c)
    requires s.remotes == PublishFirst(c, r, i) && UpdatesWhereNeeded(c, r, s.updates)
    ensures var end := Final(c, s);
            && end.pc == Done && end.remotes == PublishFirst(c, r, |c.plans|)
            && UpdatesWhereNeeded(c, r, end.updates)
    decreases |c.plans| - i
  {
    if i < |c.plans| {
      PinsOfPlan(c, s, r, i, 0);
      var s' := SendOne(c, s.(pc := Own(i)), r, i);
      PublishAll(c, s', r, i + 1);
    } else {
      FinalStep(c, s);
    }
  }

  /** An undisturbed run completes exactly when the remotes it starts from pass the checks; it then leaves
      every selected branch at its reviewed commit and everything else as it was, and writes only branches
      that were not there yet.  No failure is left for the publication itself. */
  lemma UndisturbedRunCompletes(c: Setup, r: map<Branch, Commit>)
    requires c.explicit && c.publish && DistinctPlans(c.plans) && ChildrenBefore(c.plans)
    ensures Final(c, Fresh(c, r)).pc.Done? <==> Passes(c, r)
    ensures Final(c, Fresh(c, r)).pc.Done? <==> Acceptable(c, r)
    ensures Passes(c, r) ==> var end := Final(c, Fresh(c, r));
                             && end.remotes == PublishFirst(c, r, |c.plans|) && UpdatesWhereNeeded(c, r, end.updates)
                             && PublishedExactly(c, r, end.remotes)
  {
    ChecksDecide(c, r);
    PassesExactly(c, r);
    AllPublished(c, r);
    if Passes(c, r) {
      PublishAll(c, Fresh(c, r).(pc := Pins(0, 0)), r, 0);
    }
  }

  /** Without --push the same checks decide, and nothing is written. */
  lemma UndisturbedPreview(c: Setup, r: map<Branch, Commit>)
    requires c.explicit && !c.publish && DistinctPlans(c.plans)
    ensures Final(c, Fresh(c, r)).pc.Done? <==> Acceptable(c, r)
    ensures Acceptable(c, r) ==> Final(c, Fresh(c, r)).remotes == r
  {
    ChecksDecide(c, r);
    PassesExactly(c, r);
  }

  // ----- runs without pairs

  /** The pairs a run without them arrives at: the expected commits are the live ones. */
  function WithLive(c: Setup, r: map<Branch, Commit>): Setup {
    c.(explicit := true,
       plans := seq(|c.plans|, i requires 0 <= i < |c.plans| =>
                  if OwnBranch(c, i) in r then c.plans[i].(given := r[OwnBranch(c, i)]) else c.plans[i]))
  }

  ghost predicate AllThere(c: Setup, r: map<Branch, Commit>) {
    forall i :: 0 <= i < |c.plans| ==> OwnBranch(c, i) in r
  }

  /** The run without pairs is where the one with those pairs is, as far as it has looked. */
  ghost predicate Alike(c: Setup, r: map<Branch, Commit>, s: State, t: State) {
    && t == s.(expected := t.expected) && t.expected == Givens(WithLive(c, r)) && |s.expected| == |c.plans| && InRange(c, s)
    && match s.pc
       case Start(i) => s.remotes == r && (forall j :: 0 <= j < i ==> s.expected[j] == t.expected[j])
       case Check(i, _) => s.remotes == r && (forall j :: 0 <= j <= i ==> s.expected[j] == t.expected[j])
       case Stopped => true
       case _ => s.expected == t.expected
  }

  lemma SameIndex(c: Setup, r: map<Branch, Commit>, name: Repo)
    ensures Index(c.plans, name) == Index(WithLive(c, r).plans, name)
  {
    var d := WithLive(c, r);
    assert forall i :: 0 <= i < |c.plans| ==> NameOf(c.plans[i]) == c.plans[i].name == d.plans[i].name == NameOf(d.plans[i]);
  }

  lemma SameLinkOk(c: Setup, r: map<Branch, Commit>, remotes: map<Branch, Commit>, expected: Commit, i: nat, k: nat, publication: bool)
    requires i < |c.plans| && k < |c.plans[i].tip.links|
    ensures LinkOk(c, remotes, expected, i, k, publication) <==> LinkOk(WithLive(c, r), remotes, expected, i, k, publication)
  {
    SameIndex(c, r, c.plans[i].tip.links[k].child);
  }

  lemma StepsAlike(c: Setup, r: map<Branch, Commit>, s: State, t: State)
    requires !c.explicit && AllThere(c, r) && Alike(c, r, s, t)
    ensures InRange(WithLive(c, r), t) && Alike(c, r, Step(c, s), Step(WithLive(c, r), t))
  {
    var d := WithLive(c, r);
    StepInRange(c, s);
    match s.pc
    case Start(i) =>
      if i == |c.plans| {
        assert s.expected == t.expected;
      } else {
        assert OwnBranch(c, i) == OwnBranch(d, i) && t.expected[i := d.plans[i].given] == t.expected;
      }
    case Check(i, k) =>
      if k < |c.plans[i].tip.links| {
        SameLinkOk(c, r, s.remotes, s.expected[i], i, k, false);
      }
    case Pins(i, k) =>
      if i < |c.plans| && k < |c.plans[i].tip.links| {
        SameLinkOk(c, r, s.remotes, s.expected[i], i, k, true);
      }
    case _ =>
  }

  /** They end in the same way. */
  ghost predicate SameEnd(end: State, end': State) {
    end.pc == end'.pc && end.remotes == end'.remotes
  }

  lemma {:induction false} EndsAlike(c: Setup, d: Setup, r: map<Branch, Commit>, s: State, t: State)
    requires !c.explicit && AllThere(c, r) && d == WithLive(c, r) && Alike(c, r, s, t) && InRange(d, t)
    ensures SameEnd(Final(c, s), Final(d, t))
    decreases Phase(s.pc), |c.plans| - Position(s.pc), Stage(s.pc), LinksLeft(c, s.pc)
  {
    if !Ended(s) {
      var s', t' := Step(c, s), Step(d, t);
      FinalStep(c, s);
      FinalStep(d, t);
      StepsAlike(c, r, s, t);
      StepGoesOn(c, s);
      EndsAlike(c, d, r, s', t');
    }
  }

  lemma StepGoesOn(c: Setup, s: State)
    requires InRange(c, s) && !Ended(s)
    ensures InRange(c, Step(c, s))
    ensures (Phase(s.pc), |c.plans| - Position(s.pc), Stage(s.pc), LinksLeft(c, s.pc) decreases to
             Phase(Step(c, s).pc), |c.plans| - Position(Step(c, s).pc), Stage(Step(c, s).pc), LinksLeft(c, Step(c, s).pc))
  {
    StepInRange(c, s);
  }

  lemma LivePairsInOrder(c: Setup, r: map<Branch, Commit>)
    requires DistinctPlans(c.plans) && ChildrenBefore(c.plans)
    ensures DistinctPlans(WithLive(c, r).plans) && ChildrenBefore(WithLive(c, r).plans)
  {
    var d := WithLive(c, r);
    forall i, k | 0 <= i < |d.plans| && 0 <= k < |d.plans[i].tip.links|
      ensures var j := Index(d.plans, d.plans[i].tip.links[k].child); j < i || j == |d.plans|
    {
      SameIndex(c, r, c.plans[i].tip.links[k].child);
    }
  }

  lemma SamePublished(c: Setup, r: map<Branch, Commit>, r': map<Branch, Commit>)
    requires PublishedExactly(WithLive(c, r), r, r')
    ensures PublishedExactly(c, r, r')
  {
    var d := WithLive(c, r);
    assert forall i :: 0 <= i < |c.plans| ==> d.plans[i].(given := c.plans[i].given) == c.plans[i];
  }

  /** A branch that is not there stops a run that was to read its expected commit from it. */
  lemma {:induction false} MissingStops(c: Setup, s: State, j: nat)
    requires !c.explicit && InRange(c, s) && j < |c.plans| && OwnBranch(c, j) !in s.remotes
    requires s.pc.Stopped? || (s.pc.Start? && s.pc.i <= j) || (s.pc.Check? && s.pc.i < j)
    ensures Final(c, s).pc.Stopped?
    decreases Phase(s.pc), |c.plans| - Position(s.pc), Stage(s.pc), LinksLeft(c, s.pc)
  {
    if !s.pc.Stopped? {
      FinalStep(c, s);
      MissingStops(c, Step(c, s), j);
    }
  }

  /** Without pairs an undisturbed run completes exactly when every selected branch exists and the checks are met with
      the live commits as the expected ones, and then leaves the same remotes. */
  lemma UndisturbedRunWithoutPairs(c: Setup, r: map<Branch, Commit>)
    requires !c.explicit && c.publish && DistinctPlans(c.plans) && ChildrenBefore(c.plans)
    ensures var end := Final(c, Fresh(c, r));
            && (end.pc.Done? <==> AllThere(c, r) && Acceptable(WithLive(c, r), r))
            && (end.pc.Done? ==> PublishedExactly(c, r, end.remotes))
  {
    var d := WithLive(c, r);
    if AllThere(c, r) {
      EndsAlike(c, d, r, Fresh(c, r), Fresh(d, r));
      LivePairsInOrder(c, r);
      UndisturbedRunCompletes(d, r);
      if Acceptable(d, r) {
        SamePublished(c, r, Final(d, Fresh(d, r)).remotes);
      }
    } else {
      var j :| 0 <= j < |c.plans| && OwnBranch(c, j) !in r;
      MissingStops(c, Fresh(c, r), j);
    }
  }

  // ----- interruption

  ghost predicate Midway(c: Setup, r: map<Branch, Commit>, s: State) {
    && s.expected == Givens(c) && s.published <= |c.plans|
    && s.remotes == PublishFirst(c, r, s.published)
    && match s.pc
       case Pins(i, _) => s.published == i
       case Own(i) => s.published == i
       case Send(i) => s.published == i
       case Done => true
       case Stopped => true
       case _ => s.published == 0
  }

  lemma {:induction false} InterruptedState(c: Setup, r: map<Branch, Commit>, n: nat)
    requires c.explicit && DistinctPlans(c.plans)
    ensures Midway(c, r, After(c, Fresh(c, r), n))
  {
    if n > 0 {
      InterruptedState(c, r, n - 1);
      StepKeepsMidway(c, r, After(c, Fresh(c, r), n - 1));
    }
  }

  lemma StepKeepsMidway(c: Setup, r: map<Branch, Commit>, s: State)
    requires c.explicit && InRange(c, s) && Midway(c, r, s)
    ensures Midway(c, r, Step(c, s))
  {
    match s.pc
    case Start(i) =>
      if i < |c.plans| {
        assert s.expected[i := c.plans[i].given] == s.expected;
      }
    case Own(i) =>
      if At(s.remotes, OwnBranch(c, i), c.plans[i].tip) {
        assert s.remotes[OwnBranch(c, i) := c.plans[i].tip] == s.remotes;
      }
    case Send(i) =>
      if At(s.remotes, OwnBranch(c, i), c.plans[i].tip) {
        assert s.remotes[OwnBranch(c, i) := c.plans[i].tip] == s.remotes;
      }
    case _ =>
  }

  lemma LinkStaysGood(c: Setup, r: map<Branch, Commit>, m: nat, i: nat, k: nat)
    requires DistinctPlans(c.plans) && Passes(c, r) && m <= |c.plans|
    requires i < |c.plans| && k < |c.plans[i].tip.links|
    ensures LiveOk(c, PublishFirst(c, r, m), i)
    ensures LinkOk(c, PublishFirst(c, r, m), c.plans[i].given, i, k, false)
  {
    assert OwnOk(c, i) && LiveOk(c, r, i) && LinksOk(c, r, i, 0);
    assert LinkOk(c, r, c.plans[i].given, i, k, false);
    LiveStaysGood(c, r, m, i);
    var child := c.plans[i].tip.links[k].child;
    if Index(c.plans, child) == |c.plans| {
      UnpublishedAt(c, r, m, PinBranch(c, i, child));
    }
  }

  lemma LiveStaysGood(c: Setup, r: map<Branch, Commit>, m: nat, i: nat)
    requires DistinctPlans(c.plans) && Passes(c, r) && m <= |c.plans| && i < |c.plans|
    ensures LiveOk(c, PublishFirst(c, r, m), i)
  {
    assert LiveOk(c, r, i);
    if i < m {
      PublishedAt(c, r, m, i);
    } else {
      UnpublishedAt(c, r, m, OwnBranch(c, i));
    }
  }

  /** After any prefix of the publication the remotes still pass. */
  lemma PrefixPasses(c: Setup, r: map<Branch, Commit>, m: nat)
    requires DistinctPlans(c.plans) && Passes(c, r) && m <= |c.plans|
    ensures Passes(c, PublishFirst(c, r, m))
  {
    var r' := PublishFirst(c, r, m);
    forall i | 0 <= i < |c.plans|
      ensures OwnOk(c, i) && LiveOk(c, r', i) && LinksOk(c, r', i, 0)
    {
      assert OwnOk(c, i);
      LiveStaysGood(c, r, m, i);
      forall k | 0 <= k < |c.plans[i].tip.links|
        ensures LinkOk(c, r', c.plans[i].given, i, k, false)
      {
        LinkStaysGood(c, r, m, i, k);
      }
    }
  }

  lemma {:induction false} PublishTwice(c: Setup, r: map<Branch, Commit>, m: nat, n: nat)
    requires DistinctPlans(c.plans) && m <= n <= |c.plans|
    ensures PublishFirst(c, PublishFirst(c, r, m), n) == PublishFirst(c, r, n)
  {
    if n == m {
      Republish(c, r, m, m);
    } else {
      PublishTwice(c, r, m, n - 1);
    }
  }

  lemma {:induction false} Republish(c: Setup, r: map<Branch, Commit>, m: nat, n: nat)
    requires DistinctPlans(c.plans) && n <= m <= |c.plans|
    ensures PublishFirst(c, PublishFirst(c, r, m), n) == PublishFirst(c, r, m)
  {
    if n > 0 {
      Republish(c, r, m, n - 1);
      PublishedAt(c, r, m, n - 1);
      var r' := PublishFirst(c, r, m);
      assert r'[OwnBranch(c, n - 1) := c.plans[n - 1].tip] == r';
    }
  }

  // ----- nothing is written where the checks fail

  ghost predicate LinksOkBefore(c: Setup, r: map<Branch, Commit>, i: nat, n: nat)
    requires i < |c.plans| && n <= |c.plans[i].tip.links|
  {
    forall k :: 0 <= k < n ==> LinkOk(c, r, c.plans[i].given, i, k, false)
  }

  ghost predicate PlansPassBefore(c: Setup, r: map<Branch, Commit>, n: nat)
    requires n <= |c.plans|
  {
    forall j :: 0 <= j < n ==> PlanPasses(c, r, j)
  }

  ghost predicate LiveBefore(c: Setup, r: map<Branch, Commit>, n: nat)
    requires n <= |c.plans|
  {
    forall j :: 0 <= j < n ==> LiveOk(c, r, j)
  }

  /** What a run has found out about the remotes it started from. */
  ghost predicate FoundOut(c: Setup, r: map<Branch, Commit>, s: State)
    requires InRange(c, s)
  {
    match s.pc
    case Start(i) => PlansPassBefore(c, r, i)
    case Check(i, k) => PlansPassBefore(c, r, i) && OwnOk(c, i) && LinksOkBefore(c, r, i, k)
    case Settle(i) => PlansPassBefore(c, r, |c.plans|) && LiveBefore(c, r, i)
    case Recheck(_) => Passes(c, r)
    case Stopped => s.published > 0 ==> Passes(c, r)
    case _ => Passes(c, r)
  }

  lemma AllFoundOut(c: Setup, r: map<Branch, Commit>)
    requires PlansPassBefore(c, r, |c.plans|) && LiveBefore(c, r, |c.plans|)
    ensures Passes(c, r)
  {
    forall i | 0 <= i < |c.plans|
      ensures OwnOk(c, i) && LiveOk(c, r, i) && LinksOk(c, r, i, 0)
    {
      assert PlanPasses(c, r, i);
    }
  }

  lemma StepFindsOut(c: Setup, r: map<Branch, Commit>, s: State)
    requires c.explicit && c.publish && InRange(c, s) && Midway(c, r, s) && FoundOut(c, r, s)
    ensures InRange(c, Step(c, s)) && FoundOut(c, r, Step(c, s))
  {
    StepInRange(c, s);
    match s.pc
    case Check(i, k) =>
      if k == |c.plans[i].tip.links| {
        assert PlanPasses(c, r, i);
      }
    case Settle(i) =>
      if i == |c.plans| {
        AllFoundOut(c, r);
      }
    case _ =>
  }

  lemma {:induction false} InterruptedFoundOut(c: Setup, r: map<Branch, Commit>, n: nat)
    requires c.explicit && c.publish && DistinctPlans(c.plans)
    ensures FoundOut(c, r, After(c, Fresh(c, r), n))
  {
    if n > 0 {
      InterruptedFoundOut(c, r, n - 1);
      InterruptedState(c, r, n - 1);
      StepFindsOut(c, r, After(c, Fresh(c, r), n - 1));
    }
  }

  /** An undisturbed run writes nothing, ever, when the remotes it started from do not pass. */
  lemma RefusedRunWritesNothing(c: Setup, r: map<Branch, Commit>, n: nat)
    requires c.explicit && c.publish && DistinctPlans(c.plans) && !Passes(c, r)
    ensures After(c, Fresh(c, r), n).remotes == r && After(c, Fresh(c, r), n).published == 0
  {
    InterruptedState(c, r, n);
    InterruptedFoundOut(c, r, n);
  }

  // ----- running again

  lemma RerunAfterPassing(c: Setup, r: map<Branch, Commit>, n: nat)
    requires c.explicit && c.publish && DistinctPlans(c.plans) && ChildrenBefore(c.plans) && Passes(c, r)
    ensures var stopped := After(c, Fresh(c, r), n);
            var rerun := Final(c, Fresh(c, stopped.remotes));
            && rerun.pc.Done? && rerun.remotes == Final(c, Fresh(c, r)).remotes
            && forall u :: u in rerun.updates ==> u.plan >= stopped.published
  {
    var stopped := After(c, Fresh(c, r), n);
    var r' := stopped.remotes;
    UndisturbedRunCompletes(c, r);
    InterruptedState(c, r, n);
    PrefixPasses(c, r, stopped.published);
    UndisturbedRunCompletes(c, r');
    PublishTwice(c, r, stopped.published, |c.plans|);
    var rerun := Final(c, Fresh(c, r'));
    forall u | u in rerun.updates
      ensures u.plan >= stopped.published
    {
      var k :| 0 <= k < |rerun.updates| && rerun.updates[k] == u;
      assert !At(r', OwnBranch(c, rerun.updates[k].plan), c.plans[rerun.updates[k].plan].tip);
      if u.plan < stopped.published {
        PublishedAt(c, r, stopped.published, u.plan);
      }
    }
  }

  /** A run interrupted after any number of steps and started again with the same pairs ends like the
      uninterrupted run - completed or refused - with the same remotes, and does not write again what is
      already published. */
  lemma RerunCompletes(c: Setup, r: map<Branch, Commit>, n: nat)
    requires c.explicit && c.publish && DistinctPlans(c.plans) && ChildrenBefore(c.plans)
    ensures var stopped := After(c, Fresh(c, r), n);
            var rerun := Final(c, Fresh(c, stopped.remotes));
            && rerun.remotes == Final(c, Fresh(c, r)).remotes
            && (rerun.pc.Done? <==> Final(c, Fresh(c, r)).pc.Done?)
            && forall u :: u in rerun.updates ==> u.plan >= stopped.published
  {
    UndisturbedRunCompletes(c, r);
    if Passes(c, r) {
      RerunAfterPassing(c, r, n);
    } else {
      RefusedRunWritesNothing(c, r, n);
    }
  }
}
