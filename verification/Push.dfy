/** The publication protocol of `push` (scripts/workspace.ts) as a step system: one step per remote read
    or write, interleaved with other writers that move remote branches forward. */
module Push {
  import opened DependencyOrder
  import opened Commits

  type Ref = string

  /** A branch of a repository's remote. */
  datatype Branch = Branch(repo: Repo, ref: Ref)

  /** One selected repository: `tip` is the reviewed commit; `given` the expected remote commit when the
      caller named reviewed/expected pairs. */
  datatype Plan = Plan(name: Repo, ref: Ref, tip: Commit, given: Commit)

  /** What does not change during a run: the plans in publication order, whether pairs were given, whether
      --push was given, which objects exist locally, which remotes are the documented ones, and which
      manifests pass the dependency guard. */
  datatype Setup = Setup(plans: seq<Plan>, explicit: bool, publish: bool,
                         present: (Repo, Commit) -> bool,
                         documented: Repo -> bool,
                         dependenciesOk: (Repo, Commit) -> bool)

  datatype Pc =
    | Start(i: nat)           // first pass: about to look at plan i
    | Check(i: nat, k: nat)   // first pass: links of plan i before k checked
    | Settle(i: nat)          // second pass over the live tips
    | Recheck(i: nat)         // third pass over the live tips
    | Pins(i: nat, k: nat)    // publication of plan i: links before k rechecked against live tips
    | Own(i: nat)             // about to read plan i's own branch
    | Send(i: nat)            // about to run git push for plan i
    | Done
    | Stopped

  /** A remote write made by this run. */
  datatype Update = Update(plan: nat, from: Commit, to: Commit)

  datatype State = State(remotes: map<Branch, Commit>, expected: seq<Commit>, pc: Pc, published: nat, updates: seq<Update>)

  function NameOf(plan: Plan): Repo {
    plan.name
  }

  function Index(plans: seq<Plan>, name: Repo): (i: nat)
    ensures i <= |plans|
    ensures i < |plans| ==> plans[i].name == name
    ensures i == |plans| ==> forall j :: 0 <= j < |plans| ==> plans[j].name != name
  {
    PositionOf(plans, NameOf, name)
  }

  function OwnBranch(c: Setup, i: nat): Branch
    requires i < |c.plans|
  {
    Branch(c.plans[i].name, c.plans[i].ref)
  }

  /** The branch on which plan `i`'s pin of `child` must be reachable: the child's own branch when it is
      selected, else the parent's branch name. */
  function PinBranch(c: Setup, i: nat, child: Repo): Branch
    requires i < |c.plans|
  {
    var j := Index(c.plans, child);
    Branch(child, if j < |c.plans| then c.plans[j].ref else c.plans[i].ref)
  }

  predicate At(remotes: map<Branch, Commit>, b: Branch, x: Commit) {
    b in remotes && remotes[b] == x
  }

  // ----- publishedPins

  /** The path is recorded in `links` with this commit and URL. */
  predicate Records(links: seq<Link>, link: Link) {
    exists j :: 0 <= j < |links| && links[j].path == link.path && links[j].sha == link.sha && links[j].url == link.url
  }

  predicate ExternalOk(c: Setup, remotes: map<Branch, Commit>, expected: Commit, i: nat, k: nat)
    requires i < |c.plans| && k < |c.plans[i].tip.links|
  {
    var plan := c.plans[i];
    var first := forall j :: 0 <= j < k ==> plan.tip.links[j].child != "";
    && (first ==> c.documented(plan.name)
                  && (At(remotes, OwnBranch(c, i), expected) || At(remotes, OwnBranch(c, i), plan.tip)))
    && plan.tip.links[k].url != "" && Records(expected.links, plan.tip.links[k])
  }

  predicate CohortOk(c: Setup, remotes: map<Branch, Commit>, i: nat, k: nat, publication: bool)
    requires i < |c.plans| && k < |c.plans[i].tip.links|
  {
    var link := c.plans[i].tip.links[k];
    var j := Index(c.plans, link.child);
    var branch := PinBranch(c, i, link.child);
    && c.documented(link.child) && c.present(link.child, link.sha)
    && if j < |c.plans| && !publication then
         c.present(link.child, c.plans[j].tip) && Ancestor(link.sha, c.plans[j].tip)
       else
         && branch in remotes
         && (j < |c.plans| ==> remotes[branch] == c.plans[j].tip)
         && c.present(link.child, remotes[branch])
         && Ancestor(link.sha, remotes[branch])
  }

  predicate LinkOk(c: Setup, remotes: map<Branch, Commit>, expected: Commit, i: nat, k: nat, publication: bool)
    requires i < |c.plans| && k < |c.plans[i].tip.links|
  {
    if c.plans[i].tip.links[k].child == "" then ExternalOk(c, remotes, expected, i, k)
    else CohortOk(c, remotes, i, k, publication)
  }

  // ----- steps

  predicate InRange(c: Setup, s: State) {
    && |s.expected| == |c.plans|
    && match s.pc
       case Start(i) => i <= |c.plans|
       case Check(i, k) => i < |c.plans| && k <= |c.plans[i].tip.links|
       case Settle(i) => i <= |c.plans|
       case Recheck(i) => i <= |c.plans|
       case Pins(i, k) => i <= |c.plans| && (i < |c.plans| ==> k <= |c.plans[i].tip.links|)
       case Own(i) => i < |c.plans|
       case Send(i) => i < |c.plans|
       case Done => true
       case Stopped => true
  }

  function Stop(s: State): State {
    s.(pc := Stopped)
  }

  /** The first look at plan `i`: its expected commit, taken from the pair or from the live tip, must exist
      locally and be an ancestor of the reviewed commit. */
  function Begin(c: Setup, s: State, i: nat): State
    requires InRange(c, s) && i < |c.plans|
  {
    var plan := c.plans[i];
    if !c.explicit && OwnBranch(c, i) !in s.remotes then Stop(s)
    else
      var expected := if c.explicit then plan.given else s.remotes[OwnBranch(c, i)];
      if c.documented(plan.name) && c.present(plan.name, plan.tip) && c.present(plan.name, expected)
         && Ancestor(expected, plan.tip) && c.dependenciesOk(plan.name, plan.tip)
      then s.(expected := s.expected[i := expected], pc := Check(i, 0))
      else Stop(s)
  }

  /** `git push` without force: up to date, a fast-forward from the tip it finds, or refused. */
  function Transfer(c: Setup, s: State, i: nat): State
    requires i < |c.plans|
  {
    var branch, tip := OwnBranch(c, i), c.plans[i].tip;
    if branch !in s.remotes then Stop(s)
    else if s.remotes[branch] == tip then s.(published := i + 1, pc := Pins(i + 1, 0))
    else if c.present(c.plans[i].name, s.remotes[branch]) && Ancestor(s.remotes[branch], tip) then
      s.(remotes := s.remotes[branch := tip], published := i + 1, pc := Pins(i + 1, 0),
         updates := s.updates + [Update(i, s.remotes[branch], tip)])
    else Stop(s)
  }

  predicate Unmoved(c: Setup, s: State, i: nat)
    requires InRange(c, s) && i < |c.plans|
  {
    At(s.remotes, OwnBranch(c, i), s.expected[i]) || At(s.remotes, OwnBranch(c, i), c.plans[i].tip)
  }

  /** The next step of the run itself. */
  function Step(c: Setup, s: State): State
    requires InRange(c, s)
  {
    match s.pc
    case Start(i) =>
      if i == |c.plans| then s.(pc := Settle(0)) else Begin(c, s, i)
    case Check(i, k) =>
      if k == |c.plans[i].tip.links| then s.(pc := Start(i + 1))
      else if LinkOk(c, s.remotes, s.expected[i], i, k, false) then s.(pc := Check(i, k + 1))
      else Stop(s)
    case Settle(i) =>
      if i == |c.plans| then s.(pc := Recheck(0))
      else if Unmoved(c, s, i) then s.(pc := Settle(i + 1)) else Stop(s)
    case Recheck(i) =>
      if i == |c.plans| then s.(pc := if c.publish then Pins(0, 0) else Done)
      else if Unmoved(c, s, i) then s.(pc := Recheck(i + 1)) else Stop(s)
    case Pins(i, k) =>
      if i == |c.plans| then s.(pc := Done)
      else if k == |c.plans[i].tip.links| then s.(pc := Own(i))
      else if LinkOk(c, s.remotes, s.expected[i], i, k, true) then s.(pc := Pins(i, k + 1))
      else Stop(s)
    case Own(i) =>
      if At(s.remotes, OwnBranch(c, i), c.plans[i].tip) then s.(published := i + 1, pc := Pins(i + 1, 0))
      else if At(s.remotes, OwnBranch(c, i), s.expected[i]) then s.(pc := Send(i))
      else Stop(s)
    case Send(i) => Transfer(c, s, i)
    case Done => s
    case Stopped => s
  }

  // ----- runs

  /** Other writers: they may create branches and move existing ones forward. */
  ghost predicate Others(s: State, s': State) {
    && s' == s.(remotes := s'.remotes)
    && s.remotes.Keys <= s'.remotes.Keys
    && forall b :: b in s.remotes ==> Ancestor(s.remotes[b], s'.remotes[b])
  }

  /** One step of anybody; any command of the run may also fail, which ends it. */
  ghost predicate Next(c: Setup, s: State, s': State) {
    InRange(c, s) && (s' == Step(c, s) || s' == Stop(s) || Others(s, s'))
  }

  ghost predicate Initial(c: Setup, s: State) {
    s == State(s.remotes, seq(|c.plans|, i requires 0 <= i < |c.plans| => c.plans[i].given), Start(0), 0, [])
  }

  ghost predicate IsRun(c: Setup, run: seq<State>) {
    && |run| > 0 && Initial(c, run[0])
    && forall n :: 0 <= n < |run| - 1 ==> Next(c, run[n], run[n + 1])
  }

  // ----- safety

  /** The pinned commit of a cohort link is reachable on the child's live branch. */
  predicate PinLive(c: Setup, remotes: map<Branch, Commit>, i: nat, link: Link)
    requires i < |c.plans|
  {
    link.child != "" ==>
      var b := PinBranch(c, i, link.child);
      b in remotes && Ancestor(link.sha, remotes[b])
  }

  ghost predicate PinsLive(c: Setup, remotes: map<Branch, Commit>, i: nat, n: nat)
    requires i < |c.plans| && n <= |c.plans[i].tip.links|
  {
    forall k :: 0 <= k < n ==> PinLive(c, remotes, i, c.plans[i].tip.links[k])
  }

  ghost predicate AllPinsLive(c: Setup, remotes: map<Branch, Commit>, i: nat)
    requires i < |c.plans|
  {
    PinsLive(c, remotes, i, |c.plans[i].tip.links|)
  }

  /** An external link is one the expected commit has too, with a URL; a cohort link's pin is there locally and its
      child has the documented remote. */
  ghost predicate LinkCleared(c: Setup, expected: Commit, link: Link) {
    if link.child == "" then
      link.url != ""
      && exists j :: && 0 <= j < |expected.links| && expected.links[j].path == link.path
                     && expected.links[j].sha == link.sha && expected.links[j].url == link.url
    else
      c.documented(link.child) && c.present(link.child, link.sha)
  }

  ghost predicate LinksCleared(c: Setup, expected: Commit, i: nat, n: nat)
    requires i < |c.plans| && n <= |c.plans[i].tip.links|
  {
    forall k :: 0 <= k < n ==> LinkCleared(c, expected, c.plans[i].tip.links[k])
  }

  /** The plan passed the checks of its own commit. */
  ghost predicate PlanCleared(c: Setup, expected: Commit, i: nat)
    requires i < |c.plans|
  {
    var plan := c.plans[i];
    && c.documented(plan.name) && c.present(plan.name, plan.tip) && c.present(plan.name, expected)
    && Ancestor(expected, plan.tip) && c.dependenciesOk(plan.name, plan.tip)
  }

  /** The reviewed commit is on the plan's live branch. */
  predicate Landed(c: Setup, remotes: map<Branch, Commit>, i: nat)
    requires i < |c.plans|
  {
    OwnBranch(c, i) in remotes && Ancestor(c.plans[i].tip, remotes[OwnBranch(c, i)])
  }

  /** An update carries the plan's branch forward to the reviewed commit, from a commit that descends from
      the expected one. */
  ghost predicate ForwardUpdate(c: Setup, s: State, u: Update) {
    && u.plan < s.published <= |c.plans| && |s.expected| == |c.plans|
    && u.to == c.plans[u.plan].tip
    && Ancestor(s.expected[u.plan], u.from) && Ancestor(u.from, u.to)
  }

  ghost predicate Safe(c: Setup, s: State) {
    && s.published <= |c.plans| == |s.expected| && (!c.publish ==> s.published == 0)
    && (forall i :: 0 <= i < s.published ==> AllPinsLive(c, s.remotes, i) && Landed(c, s.remotes, i))
    && (forall i :: 0 <= i < s.published ==> PlanCleared(c, s.expected[i], i) && LinksCleared(c, s.expected[i], i, |c.plans[i].tip.links|))
    && (forall n :: 0 <= n < |s.updates| ==> ForwardUpdate(c, s, s.updates[n]))
    && (forall m, n :: 0 <= m < n < |s.updates| ==> s.updates[m].plan < s.updates[n].plan)
  }

  ghost predicate ClearedBefore(c: Setup, expected: seq<Commit>, n: nat) {
    n <= |c.plans| == |expected| && forall j :: 0 <= j < n ==> PlanCleared(c, expected[j], j)
  }

  ghost predicate AtPc(c: Setup, s: State)
    requires InRange(c, s)
  {
    match s.pc
    case Start(i) => s.published == 0 && ClearedBefore(c, s.expected, i)
    case Check(i, k) => s.published == 0 && ClearedBefore(c, s.expected, i + 1)
    case Settle(i) => s.published == 0 && ClearedBefore(c, s.expected, |c.plans|)
    case Recheck(i) => s.published == 0 && ClearedBefore(c, s.expected, |c.plans|)
    case Pins(i, k) => c.publish && s.published == i && ClearedBefore(c, s.expected, |c.plans|) && (i < |c.plans| ==> PinsLive(c, s.remotes, i, k) && LinksCleared(c, s.expected[i], i, k))
    case Own(i) =>
      && c.publish && s.published == i && ClearedBefore(c, s.expected, |c.plans|) && AllPinsLive(c, s.remotes, i)
      && LinksCleared(c, s.expected[i], i, |c.plans[i].tip.links|)
    case Send(i) =>
      && c.publish && s.published == i && ClearedBefore(c, s.expected, |c.plans|) && AllPinsLive(c, s.remotes, i)
      && LinksCleared(c, s.expected[i], i, |c.plans[i].tip.links|)
      && OwnBranch(c, i) in s.remotes && Ancestor(s.expected[i], s.remotes[OwnBranch(c, i)])
    case Done => true
    case Stopped => true
  }

  ghost predicate Invariant(c: Setup, s: State) {
    InRange(c, s) && Safe(c, s) && AtPc(c, s)
  }

  /** Moving branches forward loses no reachable pin. */
  lemma ForwardKeepsPins(c: Setup, r: map<Branch, Commit>, r': map<Branch, Commit>, i: nat, n: nat)
    requires i < |c.plans| && n <= |c.plans[i].tip.links|
    requires r.Keys <= r'.Keys && forall b :: b in r ==> Ancestor(r[b], r'[b])
    requires PinsLive(c, r, i, n)
    ensures PinsLive(c, r', i, n)
  {
    forall k | 0 <= k < n
      ensures PinLive(c, r', i, c.plans[i].tip.links[k])
    {
      var link := c.plans[i].tip.links[k];
      if link.child != "" {
        assert PinLive(c, r, i, link);
        var b := PinBranch(c, i, link.child);
        AncestorTransitive(link.sha, r[b], r'[b]);
      }
    }
  }

  lemma ForwardKeepsSafe(c: Setup, s: State, r': map<Branch, Commit>)
    requires Safe(c, s)
    requires s.remotes.Keys <= r'.Keys && forall b :: b in s.remotes ==> Ancestor(s.remotes[b], r'[b])
    ensures Safe(c, s.(remotes := r'))
  {
    forall i | 0 <= i < s.published
      ensures AllPinsLive(c, r', i) && Landed(c, r', i)
    {
      assert AllPinsLive(c, s.remotes, i) && Landed(c, s.remotes, i);
      AncestorTransitive(c.plans[i].tip, s.remotes[OwnBranch(c, i)], r'[OwnBranch(c, i)]);
      ForwardKeepsPins(c, s.remotes, r', i, |c.plans[i].tip.links|);
    }
    forall n | 0 <= n < |s.updates|
      ensures ForwardUpdate(c, s.(remotes := r'), s.updates[n])
    {
      assert ForwardUpdate(c, s, s.updates[n]);
    }
  }

  lemma OthersKeepInvariant(c: Setup, s: State, s': State)
    requires Invariant(c, s) && Others(s, s')
    ensures Invariant(c, s')
  {
    ForwardKeepsSafe(c, s, s'.remotes);
    match s.pc
    case Pins(i, k) =>
      if i < |c.plans| {
        ForwardKeepsPins(c, s.remotes, s'.remotes, i, k);
      }
    case Own(i) => ForwardKeepsPins(c, s.remotes, s'.remotes, i, |c.plans[i].tip.links|);
    case Send(i) =>
      ForwardKeepsPins(c, s.remotes, s'.remotes, i, |c.plans[i].tip.links|);
      AncestorTransitive(s.expected[i], s.remotes[OwnBranch(c, i)], s'.remotes[OwnBranch(c, i)]);
    case _ =>
  }

  /** Changing only `expected` and the position keeps safety while nothing is published. */
  lemma UnpublishedIsSafe(c: Setup, s: State)
    requires s.published == 0 && s.updates == [] && |s.expected| == |c.plans|
    ensures Safe(c, s)
  {
  }

  lemma NothingPublishedYet(c: Setup, s: State)
    requires Safe(c, s) && s.published == 0
    ensures s.updates == []
  {
    assert |s.updates| > 0 ==> ForwardUpdate(c, s, s.updates[0]);
  }

  lemma CheckingKeepsInvariant(c: Setup, s: State)
    requires Invariant(c, s) && (s.pc.Start? || s.pc.Check? || s.pc.Settle? || s.pc.Recheck?)
    ensures Invariant(c, Step(c, s))
  {
    NothingPublishedYet(c, s);
    UnpublishedIsSafe(c, Step(c, s));
  }

  lemma PublishedMore(c: Setup, s: State, s': State, i: nat)
    requires Safe(c, s) && c.publish && i < |c.plans| && s.published == i && AllPinsLive(c, s.remotes, i)
    requires Landed(c, s.remotes, i) && PlanCleared(c, s.expected[i], i) && LinksCleared(c, s.expected[i], i, |c.plans[i].tip.links|)
    requires s' == s.(published := i + 1, pc := Pins(i + 1, 0))
    ensures Safe(c, s')
  {
    forall n | 0 <= n < |s.updates|
      ensures ForwardUpdate(c, s', s'.updates[n])
    {
      assert ForwardUpdate(c, s, s.updates[n]);
    }
  }

  lemma AppendUpdate(c: Setup, s: State, i: nat, u: Update)
    requires Safe(c, s) && s.published == i + 1 && u.plan == i && ForwardUpdate(c, s, u)
    requires forall n :: 0 <= n < |s.updates| ==> s.updates[n].plan < i
    ensures Safe(c, s.(updates := s.updates + [u]))
  {
    var s' := s.(updates := s.updates + [u]);
    forall n | 0 <= n < |s'.updates|
      ensures ForwardUpdate(c, s', s'.updates[n])
    {
      assert n < |s.updates| ==> ForwardUpdate(c, s, s.updates[n]);
    }
  }

  lemma SendingKeepsInvariant(c: Setup, s: State)
    requires Invariant(c, s) && s.pc.Send?
    ensures Invariant(c, Step(c, s))
  {
    var i := s.pc.i;
    var branch, tip := OwnBranch(c, i), c.plans[i].tip;
    var from := s.remotes[branch];
    if from == tip {
      PublishedMore(c, s, Step(c, s), i);
    } else if c.present(c.plans[i].name, from) && Ancestor(from, tip) {
      var r' := s.remotes[branch := tip];
      forall n | 0 <= n < |s.updates|
        ensures s.updates[n].plan < i
      {
        assert ForwardUpdate(c, s, s.updates[n]);
      }
      ForwardKeepsSafe(c, s, r');
      ForwardKeepsPins(c, s.remotes, r', i, |c.plans[i].tip.links|);
      var moved := s.(remotes := r');
      var counted := moved.(published := i + 1, pc := Pins(i + 1, 0));
      PublishedMore(c, moved, counted, i);
      AppendUpdate(c, counted, i, Update(i, from, tip));
    }
  }

  /** What a link was checked for when its parent's turn came. */
  lemma CheckedLink(c: Setup, remotes: map<Branch, Commit>, expected: Commit, i: nat, k: nat)
    requires i < |c.plans| && k < |c.plans[i].tip.links| && LinkOk(c, remotes, expected, i, k, true)
    ensures PinLive(c, remotes, i, c.plans[i].tip.links[k]) && LinkCleared(c, expected, c.plans[i].tip.links[k])
  {
  }

  lemma OneLinkMore(c: Setup, remotes: map<Branch, Commit>, expected: Commit, i: nat, k: nat)
    requires i < |c.plans| && k < |c.plans[i].tip.links| && LinkOk(c, remotes, expected, i, k, true)
    requires PinsLive(c, remotes, i, k) && LinksCleared(c, expected, i, k)
    ensures PinsLive(c, remotes, i, k + 1) && LinksCleared(c, expected, i, k + 1)
  {
    CheckedLink(c, remotes, expected, i, k);
  }

  lemma PinningKeepsInvariant(c: Setup, s: State)
    requires Invariant(c, s) && s.pc.Pins?
    ensures Invariant(c, Step(c, s))
  {
    var Pins(i, k) := s.pc;
    SafeElsewhere(c, s, Step(c, s).pc);
    if i < |c.plans| && k < |c.plans[i].tip.links| && LinkOk(c, s.remotes, s.expected[i], i, k, true) {
      OneLinkMore(c, s.remotes, s.expected[i], i, k);
      assert Step(c, s) == s.(pc := Pins(i, k + 1));
    } else {
      assert Step(c, s) == s.(pc := Step(c, s).pc);
    }
  }

  lemma SafeElsewhere(c: Setup, s: State, pc: Pc)
    requires Safe(c, s)
    ensures Safe(c, s.(pc := pc))
  {
    forall n | 0 <= n < |s.updates|
      ensures ForwardUpdate(c, s.(pc := pc), s.updates[n])
    {
      assert ForwardUpdate(c, s, s.updates[n]);
    }
  }

  lemma OwningKeepsInvariant(c: Setup, s: State)
    requires Invariant(c, s) && s.pc.Own?
    ensures Invariant(c, Step(c, s))
  {
    if At(s.remotes, OwnBranch(c, s.pc.i), c.plans[s.pc.i].tip) {
      PublishedMore(c, s, Step(c, s), s.pc.i);
    } else {
      SafeElsewhere(c, s, Step(c, s).pc);
    }
  }

  lemma NextKeepsInvariant(c: Setup, s: State, s': State)
    requires Invariant(c, s) && Next(c, s, s')
    ensures Invariant(c, s')
  {
    if s' == Step(c, s) {
      match s.pc
      case Start(_) => CheckingKeepsInvariant(c, s);
      case Check(_, _) => CheckingKeepsInvariant(c, s);
      case Settle(_) => CheckingKeepsInvariant(c, s);
      case Recheck(_) => CheckingKeepsInvariant(c, s);
      case Pins(_, _) => PinningKeepsInvariant(c, s);
      case Own(_) => OwningKeepsInvariant(c, s);
      case Send(_) => SendingKeepsInvariant(c, s);
      case Done =>
      case Stopped =>
    } else if s' != Stop(s) {
      OthersKeepInvariant(c, s, s');
    }
  }

  /** Passing the first external link of a plan, before the first write and again when its turn comes, takes a look at
      the plan's own branch: it is at the expected or the reviewed commit. */
  lemma ExternalLooksAtOwnBranch(c: Setup, s: State, i: nat, k: nat)
    requires InRange(c, s) && i < |c.plans| && k < |c.plans[i].tip.links| && (s.pc == Check(i, k) || s.pc == Pins(i, k))
    requires c.plans[i].tip.links[k].child == "" && forall j :: 0 <= j < k ==> c.plans[i].tip.links[j].child != ""
    requires !Step(c, s).pc.Stopped?
    ensures var b := Branch(c.plans[i].name, c.plans[i].ref);
            c.documented(c.plans[i].name) && b in s.remotes && (s.remotes[b] == s.expected[i] || s.remotes[b] == c.plans[i].tip)
  {
    assert LinkOk(c, s.remotes, s.expected[i], i, k, s.pc.Pins?);
  }

  /** Passing a link to a selected child when the parent's turn comes takes the child's branch at exactly its reviewed
      commit, not merely past it. */
  lemma ChildIsAtReviewed(c: Setup, s: State, i: nat, k: nat)
    requires InRange(c, s) && i < |c.plans| && k < |c.plans[i].tip.links| && s.pc == Pins(i, k) && !Step(c, s).pc.Stopped?
    requires c.plans[i].tip.links[k].child != ""
    ensures forall j :: 0 <= j < |c.plans| && c.plans[j].name == c.plans[i].tip.links[k].child
                        && (forall h :: 0 <= h < j ==> c.plans[h].name != c.plans[j].name) ==>
                          At(s.remotes, Branch(c.plans[j].name, c.plans[j].ref), c.plans[j].tip)
  {
    assert LinkOk(c, s.remotes, s.expected[i], i, k, true);
    var first := Index(c.plans, c.plans[i].tip.links[k].child);
    assert forall h :: 0 <= h < first ==> NameOf(c.plans[h]) == c.plans[h].name;
  }

  /** Along every run, at every point: each parent this run published or found published is on its live
      branch, has all its cohort pins reachable on the children's live branches, has no external pin that its expected
      commit does not have, and passed the checks of its own commit; and every remote write of
      the run carried one plan's branch forward to its reviewed commit, at most once, from a descendant of the
      expected commit. */
  lemma {:induction false} PushIsSafe(c: Setup, run: seq<State>, n: nat)
    requires IsRun(c, run) && n < |run|
    ensures Invariant(c, run[n]) && Safe(c, run[n])
  {
    if n > 0 {
      PushIsSafe(c, run, n - 1);
      assert Next(c, run[n - 1], run[n - 1 + 1]);
      NextKeepsInvariant(c, run[n - 1], run[n]);
    }
  }
}
