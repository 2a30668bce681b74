/** The Cargo pins of a squash: how `merge` lists them (scripts/workspace.ts) and the guard that looks at them
    (scripts/workspace-operations.ts). */
module PinGuard {
  import opened Wrappers
  import opened DependencyOrder
  import opened Commits

  datatype CratePin = CratePin(crate: string, rev: Commit)

  datatype PinSnapshot = PinSnapshot(repo: Repo, pins: seq<CratePin>)

  // ----- listing the pins of a manifest

  /** A dependency of a parsed manifest: one on psy-node by git, with its revision if that is a full one, or
      any other. */
  datatype Dependency = OnNode(rev: Option<Commit>) | Elsewhere

  type Table = map<string, Dependency>

  /** The four dependency tables; a table that is not there is empty. */
  datatype Manifest = Manifest(workspace: Table, normal: Table, dev: Table, build: Table)

  function TableName(t: nat): string
    requires t < 4
  {
    ["workspace.dependencies", "dependencies", "dev-dependencies", "build-dependencies"][t]
  }

  function TableOf(m: Manifest, t: nat): Table
    requires t < 4
  {
    [m.workspace, m.normal, m.dev, m.build][t]
  }

  predicate PlainKey(key: string) {
    key != "" && forall i :: 0 <= i < |key| ==>
      ('A' <= key[i] <= 'Z') || ('a' <= key[i] <= 'z') || ('0' <= key[i] <= '9') || key[i] == '_' || key[i] == '-'
  }

  predicate BareCode(n: int) {
    65 <= n <= 90 || 97 <= n <= 122 || 48 <= n <= 57 || n == 95 || n == 45
  }

  lemma BareChar(c: char)
    ensures BareCode(c as int) <==> ('A' <= c <= 'Z') || ('a' <= c <= 'z') || ('0' <= c <= '9') || c == '_' || c == '-'
  {
    assert 'A' as int == 65 && 'Z' as int == 90 && 'a' as int == 97 && 'z' as int == 122;
    assert '0' as int == 48 && '9' as int == 57 && '_' as int == 95 && '-' as int == 45;
  }

  /** The keys that can be listed: letters, digits, underscore and hyphen, by their codes, and at least one. */
  lemma PlainKeysAreBare(key: string)
    ensures PlainKey(key) <==> |key| >= 1 && forall i :: 0 <= i < |key| ==> BareCode(key[i] as int)
  {
    forall i | 0 <= i < |key| {
      BareChar(key[i]);
    }
  }

  function CrateName(t: nat, key: string): string
    requires t < 4
  {
    TableName(t) + "." + key
  }

  /** A pin on psy-node that can be listed. */
  predicate Listable(d: Dependency, key: string) {
    d.OnNode? ==> d.rev.Some? && PlainKey(key)
  }

  ghost predicate TableListable(table: Table) {
    forall key :: key in table ==> Listable(table[key], key)
  }

  ghost predicate ManifestListable(m: Manifest) {
    forall t :: 0 <= t < 4 ==> TableListable(TableOf(m, t))
  }

  /** A pin of table `t` among `keys`. */
  ghost predicate PinIn(table: Table, t: nat, keys: set<string>, pin: CratePin)
    requires t < 4
  {
    exists key :: key in keys && key in table && table[key] == OnNode(Some(pin.rev)) && pin.crate == CrateName(t, key)
  }

  ghost predicate DistinctCrates(pins: seq<CratePin>) {
    forall i, j :: 0 <= i < j < |pins| ==> pins[i].crate != pins[j].crate
  }

  /** The list is exactly the pins of the first `n` tables. */
  ghost predicate Lists(m: Manifest, n: nat, pins: seq<CratePin>)
    requires n <= 4
  {
    forall pin :: pin in pins <==> exists t :: 0 <= t < n && PinIn(TableOf(m, t), t, TableOf(m, t).Keys, pin)
  }

  lemma DotInLonger(x: string, key: string, x': string, key': string)
    requires x + "." + key == x' + "." + key' && |key| < |key'|
    ensures key'[|key'| - 1 - |key|] == '.'
  {
    var name := x + "." + key;
    assert name[|name| - 1 - |key|] == '.';
    assert name[|name| - 1 - |key|] == (x' + "." + key')[|name| - 1 - |key|];
  }

  /** A key has no dot, so the last dot tells where it begins. */
  lemma CrateNamesDiffer(t: nat, key: string, t': nat, key': string)
    requires t < 4 && t' < 4 && PlainKey(key) && PlainKey(key') && CrateName(t, key) == CrateName(t', key')
    ensures t == t' && key == key'
  {
    var name := CrateName(t, key);
    if |key| < |key'| {
      DotInLonger(TableName(t), key, TableName(t'), key');
      assert false;
    }
    if |key'| < |key| {
      DotInLonger(TableName(t'), key', TableName(t), key);
      assert false;
    }
    assert key == name[|name| - |key|..] == key';
    assert TableName(t) == name[..|name| - |key| - 1] == TableName(t');
    TableNamesDiffer(t, t');
  }

  lemma TableNamesDiffer(t: nat, t': nat)
    requires t < 4 && t' < 4 && TableName(t) == TableName(t')
    ensures t == t'
  {
    assert TableName(0)[0] == 'w' && TableName(1)[0] == 'd' && TableName(2)[0] == 'd' && TableName(3)[0] == 'b';
    assert TableName(1)[2] == 'p' && TableName(2)[2] == 'v';
  }

  /** One table's entries, in any order. */
  method ListTable(table: Table, t: nat) returns (ok: bool, pins: seq<CratePin>)
    requires t < 4
    ensures ok <==> TableListable(table)
    ensures ok ==> DistinctCrates(pins) && forall pin :: pin in pins <==> PinIn(table, t, table.Keys, pin)
  {
    var todo := table.Keys;
    ghost var done: set<string> := {};
    pins := [];
    while todo != {}
      invariant todo + done == table.Keys && todo !! done
      invariant forall key :: key in done ==> Listable(table[key], key)
      invariant DistinctCrates(pins) && forall pin :: pin in pins <==> PinIn(table, t, done, pin)
      decreases todo
    {
      var key :| key in todo;
      if table[key].OnNode? {
        if table[key].rev.None? || !PlainKey(key) {
          assert !Listable(table[key], key);
          return false, [];
        }
        var pin := CratePin(CrateName(t, key), table[key].rev.value);
        NewCrate(table, t, done, key, pins);
        pins := pins + [pin];
      }
      MoreKeys(table, t, done, key);
      todo, done := todo - {key}, done + {key};
    }
    assert done == table.Keys;
    ok := true;
  }

  lemma NewCrate(table: Table, t: nat, done: set<string>, key: string, pins: seq<CratePin>)
    requires t < 4 && done <= table.Keys && key !in done && PlainKey(key)
    requires forall k :: k in done ==> Listable(table[k], k)
    requires forall pin :: pin in pins <==> PinIn(table, t, done, pin)
    ensures forall i :: 0 <= i < |pins| ==> pins[i].crate != CrateName(t, key)
  {
    forall i | 0 <= i < |pins|
      ensures pins[i].crate != CrateName(t, key)
    {
      assert PinIn(table, t, done, pins[i]);
      var k :| k in done && k in table && table[k] == OnNode(Some(pins[i].rev)) && pins[i].crate == CrateName(t, k);
      if CrateName(t, k) == CrateName(t, key) {
        CrateNamesDiffer(t, k, t, key);
      }
    }
  }

  lemma MoreKeys(table: Table, t: nat, done: set<string>, key: string)
    requires t < 4 && key in table
    ensures forall pin :: PinIn(table, t, done + {key}, pin) <==>
              PinIn(table, t, done, pin) || (table[key] == OnNode(Some(pin.rev)) && pin.crate == CrateName(t, key))
  {
  }

  /** `pinsFromManifest`: it fails exactly when a pin on psy-node has no full revision or an unusual key, and
      otherwise lists every pin once, each under a name of its own. */
  method PinsFromManifest(m: Manifest) returns (r: Option<seq<CratePin>>)
    ensures r.Some? <==> ManifestListable(m)
    ensures r.Some? ==> Lists(m, 4, r.value) && DistinctCrates(r.value)
  {
    var pins: seq<CratePin> := [];
    for t := 0 to 4
      invariant Lists(m, t, pins) && DistinctCrates(pins)
      invariant forall u :: 0 <= u < t ==> TableListable(TableOf(m, u))
    {
      var ok, more := ListTable(TableOf(m, t), t);
      if !ok {
        return None;
      }
      TablesApart(m, t, pins, more);
      MoreTables(m, t, pins, more);
      pins := pins + more;
    }
    r := Some(pins);
  }

  lemma MoreTables(m: Manifest, t: nat, pins: seq<CratePin>, more: seq<CratePin>)
    requires t < 4 && Lists(m, t, pins)
    requires forall pin :: pin in more <==> PinIn(TableOf(m, t), t, TableOf(m, t).Keys, pin)
    ensures Lists(m, t + 1, pins + more)
  {
  }

  lemma TablesApart(m: Manifest, t: nat, pins: seq<CratePin>, more: seq<CratePin>)
    requires t < 4 && Lists(m, t, pins) && DistinctCrates(pins) && DistinctCrates(more)
    requires forall u :: 0 <= u <= t ==> TableListable(TableOf(m, u))
    requires forall pin :: pin in more <==> PinIn(TableOf(m, t), t, TableOf(m, t).Keys, pin)
    ensures DistinctCrates(pins + more)
  {
    forall i, j | 0 <= i < |pins| && 0 <= j < |more|
      ensures pins[i].crate != more[j].crate
    {
      assert pins[i] in pins && more[j] in more;
      var u :| 0 <= u < t && PinIn(TableOf(m, u), u, TableOf(m, u).Keys, pins[i]);
      CratesApart(TableOf(m, u), u, TableOf(m, t), t, pins[i], more[j]);
    }
  }

  lemma CratesApart(a: Table, u: nat, b: Table, t: nat, p: CratePin, q: CratePin)
    requires u < t < 4 && TableListable(a) && TableListable(b) && PinIn(a, u, a.Keys, p) && PinIn(b, t, b.Keys, q)
    ensures p.crate != q.crate
  {
    var k :| k in a && a[k] == OnNode(Some(p.rev)) && p.crate == CrateName(u, k);
    var l :| l in b && b[l] == OnNode(Some(q.rev)) && q.crate == CrateName(t, l);
    assert Listable(a[k], k) && Listable(b[l], l);
    if p.crate == q.crate {
      CrateNamesDiffer(u, k, t, l);
    }
  }

  // ----- the guard

  /** The record built from a list of pins: a later pin of a crate replaces an earlier one. */
  function LastPins(pins: seq<CratePin>): map<string, Commit> {
    if pins == [] then map[] else LastPins(pins[..|pins| - 1])[pins[|pins| - 1].crate := pins[|pins| - 1].rev]
  }

  /** A commit the squash removes: on the topic, not on the frozen remote base. */
  predicate TopicOnly(rev: Commit, tip: Commit, remote: Commit) {
    Ancestor(rev, tip) && !Ancestor(rev, remote)
  }

  function SnapshotOf(base: seq<PinSnapshot>, repo: Repo): Option<PinSnapshot> {
    if base == [] then None else if base[0].repo == repo then Some(base[0]) else SnapshotOf(base[1..], repo)
  }

  predicate Kept(basePins: map<string, Commit>, crate: string, rev: Commit) {
    crate in basePins && basePins[crate] == rev
  }

  /** What the guard demands of a pin. */
  predicate PinAccepted(basePins: map<string, Commit>, topic: set<Commit>, onOrigin: Commit -> bool, crate: string, rev: Commit) {
    if Kept(basePins, crate, rev) then rev !in topic else onOrigin(rev)
  }

  predicate PinsAccepted(basePins: map<string, Commit>, topic: set<Commit>, onOrigin: Commit -> bool, pins: map<string, Commit>) {
    forall crate <- pins :: PinAccepted(basePins, topic, onOrigin, crate, pins[crate])
  }

  predicate SnapshotAccepted(base: seq<PinSnapshot>, topic: set<Commit>, onOrigin: Commit -> bool, source: PinSnapshot) {
    match SnapshotOf(base, source.repo)
    case None => false
    case Some(b) => PinsAccepted(LastPins(b.pins), topic, onOrigin, LastPins(source.pins))
  }

  /** The pins kept from the merge ancestor, which are reported. */
  function KeptPins(basePins: map<string, Commit>, sourcePins: map<string, Commit>, crates: set<string>, repo: Repo)
    : set<(Repo, string, Commit)>
    requires crates <= sourcePins.Keys
  {
    set crate | crate in crates && Kept(basePins, crate, sourcePins[crate]) :: (repo, crate, sourcePins[crate])
  }

  /** The report of one repository lists exactly the pins it kept. */
  ghost predicate Reports(base: seq<PinSnapshot>, source: PinSnapshot, report: set<(Repo, string, Commit)>) {
    match SnapshotOf(base, source.repo)
    case None => false
    case Some(b) => report == KeptPins(LastPins(b.pins), LastPins(source.pins), LastPins(source.pins).Keys, source.repo)
  }

  /** One repository's pins, in any order. */
  method GuardSnapshot(basePins: map<string, Commit>, sourcePins: map<string, Commit>, topic: set<Commit>,
                       onOrigin: Commit -> bool, repo: Repo)
    returns (ok: bool, historical: set<(Repo, string, Commit)>)
    ensures ok <==> PinsAccepted(basePins, topic, onOrigin, sourcePins)
    ensures ok <==> forall crate <- sourcePins ::
                      if crate in basePins && basePins[crate] == sourcePins[crate] then sourcePins[crate] !in topic
                      else onOrigin(sourcePins[crate])
    ensures ok ==> historical == KeptPins(basePins, sourcePins, sourcePins.Keys, repo)
    ensures ok ==> forall h :: h in historical <==>
                     h.0 == repo && h.1 in sourcePins && h.1 in basePins && h.2 == sourcePins[h.1] == basePins[h.1]
  {
    var todo := sourcePins.Keys;
    historical := {};
    while todo != {}
      invariant todo <= sourcePins.Keys
      invariant forall crate <- sourcePins.Keys - todo :: PinAccepted(basePins, topic, onOrigin, crate, sourcePins[crate])
      invariant historical == KeptPins(basePins, sourcePins, sourcePins.Keys - todo, repo)
      decreases todo
    {
      var crate :| crate in todo;
      var rev := sourcePins[crate];
      if Kept(basePins, crate, rev) {
        if rev in topic {
          return false, {};
        }
        historical := historical + {(repo, crate, rev)};
      } else if !onOrigin(rev) {
        return false, {};
      }
      todo := todo - {crate};
    }
    ok := true;
  }

  // ----- acceptance, in terms of the lists

  /** A later pin of the same crate hides the one at `i`. */
  predicate Shadowed(pins: seq<CratePin>, i: nat)
    requires i < |pins|
  {
    exists j :: i < j < |pins| && pins[j].crate == pins[i].crate
  }

  ghost predicate LastOfName(pins: seq<CratePin>, i: int) {
    0 <= i < |pins| && !Shadowed(pins, i)
  }

  /** A pin the base has too must not be removed by the squash; any other must be on the origin. */
  ghost predicate PinStands(base: seq<CratePin>, topic: set<Commit>, onOrigin: Commit -> bool, pin: CratePin) {
    if exists l :: LastOfName(base, l) && base[l] == pin then pin.rev !in topic else onOrigin(pin.rev)
  }

  ghost predicate PinsStand(base: seq<CratePin>, topic: set<Commit>, onOrigin: Commit -> bool, pins: seq<CratePin>) {
    forall k :: LastOfName(pins, k) ==> PinStands(base, topic, onOrigin, pins[k])
  }

  /** The snapshot `find` returns. */
  ghost predicate FirstFor(base: seq<PinSnapshot>, repo: Repo, j: int) {
    0 <= j < |base| && base[j].repo == repo && forall i :: 0 <= i < j ==> base[i].repo != repo
  }

  /** The consumer has a base snapshot, and its pins stand against the first. */
  ghost predicate SnapshotStands(base: seq<PinSnapshot>, topic: set<Commit>, onOrigin: Commit -> bool, source: PinSnapshot) {
    exists j :: FirstFor(base, source.repo, j) && PinsStand(base[j].pins, topic, onOrigin, source.pins)
  }

  lemma {:induction false} SnapshotOfIs(base: seq<PinSnapshot>, repo: Repo)
    ensures SnapshotOf(base, repo).None? <==> forall j :: 0 <= j < |base| ==> base[j].repo != repo
    ensures SnapshotOf(base, repo).Some? ==> exists j :: FirstFor(base, repo, j) && base[j] == SnapshotOf(base, repo).value
  {
    if base != [] {
      SnapshotOfIs(base[1..], repo);
      if base[0].repo == repo {
        assert FirstFor(base, repo, 0);
      } else if SnapshotOf(base[1..], repo).Some? {
        var j :| FirstFor(base[1..], repo, j) && base[1..][j] == SnapshotOf(base[1..], repo).value;
        assert FirstFor(base, repo, j + 1);
      } else {
        assert forall j :: 0 < j < |base| ==> base[j] == base[1..][j - 1];
      }
    }
  }

  lemma {:induction false} LastPinIs(pins: seq<CratePin>, crate: string)
    ensures crate in LastPins(pins) <==> exists k :: LastOfName(pins, k) && pins[k].crate == crate
    ensures forall k :: LastOfName(pins, k) && pins[k].crate == crate ==> LastPins(pins)[crate] == pins[k].rev
  {
    if pins != [] {
      var n := |pins| - 1;
      var front := pins[..n];
      LastPinIs(front, crate);
      assert LastOfName(pins, n);
      if pins[n].crate != crate {
        assert forall k :: 0 <= k < n && pins[k].crate == crate ==> (LastOfName(pins, k) <==> LastOfName(front, k));
      }
    }
  }

  /** The guard looks at the last pin of each name. */
  lemma AcceptedExactly(base: seq<PinSnapshot>, topic: set<Commit>, onOrigin: Commit -> bool, source: PinSnapshot)
    ensures SnapshotAccepted(base, topic, onOrigin, source) <==> SnapshotStands(base, topic, onOrigin, source)
  {
    SnapshotOfIs(base, source.repo);
    if SnapshotOf(base, source.repo).Some? {
      var j :| FirstFor(base, source.repo, j) && base[j] == SnapshotOf(base, source.repo).value;
      PinsStandExactly(base[j].pins, topic, onOrigin, source.pins);
      assert forall i :: FirstFor(base, source.repo, i) ==> i == j;
    }
  }

  lemma PinsStandExactly(base: seq<CratePin>, topic: set<Commit>, onOrigin: Commit -> bool, pins: seq<CratePin>)
    ensures PinsStand(base, topic, onOrigin, pins) <==>
            PinsAccepted(LastPins(base), topic, onOrigin, LastPins(pins))
  {
    if PinsStand(base, topic, onOrigin, pins) {
      forall crate <- LastPins(pins)
        ensures PinAccepted(LastPins(base), topic, onOrigin, crate, LastPins(pins)[crate])
      {
        LastPinIs(pins, crate);
        var k :| LastOfName(pins, k) && pins[k].crate == crate;
        StandsIsAccepted(base, topic, onOrigin, pins[k]);
      }
    }
    if PinsAccepted(LastPins(base), topic, onOrigin, LastPins(pins)) {
      forall k | LastOfName(pins, k)
        ensures PinStands(base, topic, onOrigin, pins[k])
      {
        LastPinIs(pins, pins[k].crate);
        assert pins[k].crate in LastPins(pins);
        StandsIsAccepted(base, topic, onOrigin, pins[k]);
      }
    }
  }

  lemma StandsIsAccepted(base: seq<CratePin>, topic: set<Commit>, onOrigin: Commit -> bool, pin: CratePin)
    ensures PinStands(base, topic, onOrigin, pin) <==> PinAccepted(LastPins(base), topic, onOrigin, pin.crate, pin.rev)
  {
    LastPinIs(base, pin.crate);
  }

  /** `guardSquashPins` over all consumers: it accepts exactly when every pin is accepted. */
  method GuardSquashPins(source: seq<PinSnapshot>, base: seq<PinSnapshot>, topic: set<Commit>, onOrigin: Commit -> bool)
    returns (ok: bool, historical: seq<set<(Repo, string, Commit)>>)
    ensures ok <==> forall i :: 0 <= i < |source| ==> SnapshotAccepted(base, topic, onOrigin, source[i])
    ensures ok <==> forall i :: 0 <= i < |source| ==> SnapshotStands(base, topic, onOrigin, source[i])
    ensures ok ==> |historical| == |source|
    ensures ok ==> forall i :: 0 <= i < |source| ==> Reports(base, source[i], historical[i])
  {
    historical := [];
    forall i | 0 <= i < |source|
      ensures SnapshotAccepted(base, topic, onOrigin, source[i]) <==> SnapshotStands(base, topic, onOrigin, source[i])
    {
      AcceptedExactly(base, topic, onOrigin, source[i]);
    }
    for i := 0 to |source|
      invariant forall j :: 0 <= j < i ==> SnapshotAccepted(base, topic, onOrigin, source[j])
      invariant |historical| == i
      invariant forall j :: 0 <= j < i ==> Reports(base, source[j], historical[j])
    {
      match SnapshotOf(base, source[i].repo)
      case None =>
        assert !SnapshotAccepted(base, topic, onOrigin, source[i]);
        return false, [];
      case Some(b) =>
        var good, kept := GuardSnapshot(LastPins(b.pins), LastPins(source[i].pins), topic, onOrigin, source[i].repo);
        if !good {
          assert !SnapshotAccepted(base, topic, onOrigin, source[i]);
          return false, [];
        }
        historical := historical + [kept];
    }
    ok := true;
  }

  // ----- what acceptance means

  /** What `merge` hands to the guard besides the pins: the commits of the topic that are not on the frozen
      remote base, and a test that only commits on that base pass. */
  ghost predicate GuardKnows(topic: set<Commit>, onOrigin: Commit -> bool, tip: Commit, remote: Commit) {
    && (forall rev :: rev in topic <==> TopicOnly(rev, tip, remote))
    && (forall rev :: onOrigin(rev) ==> Ancestor(rev, remote))
  }

  lemma {:induction false} LastPinsHold(pins: seq<CratePin>, i: nat)
    requires i < |pins|
    ensures pins[i].crate in LastPins(pins)
    ensures !Shadowed(pins, i) ==> LastPins(pins)[pins[i].crate] == pins[i].rev
  {
    if i < |pins| - 1 {
      LastPinsHold(pins[..|pins| - 1], i);
      assert Shadowed(pins[..|pins| - 1], i) ==> Shadowed(pins, i);
    }
  }

  /** An accepted list holds a commit the squash removes exactly when a shadowed pin names one. */
  lemma GuardIsExact(base: seq<PinSnapshot>, topic: set<Commit>, onOrigin: Commit -> bool, source: PinSnapshot,
                     tip: Commit, remote: Commit)
    requires SnapshotAccepted(base, topic, onOrigin, source) && GuardKnows(topic, onOrigin, tip, remote)
    ensures (exists i :: 0 <= i < |source.pins| && TopicOnly(source.pins[i].rev, tip, remote)) <==>
            (exists i :: 0 <= i < |source.pins| && Shadowed(source.pins, i) && TopicOnly(source.pins[i].rev, tip, remote))
  {
    forall i | 0 <= i < |source.pins| && !Shadowed(source.pins, i)
      ensures !TopicOnly(source.pins[i].rev, tip, remote)
    {
      LastPinsHold(source.pins, i);
      assert source.pins[i].crate in LastPins(source.pins);
    }
  }

  lemma {:induction false} LastPinsFrom(pins: seq<CratePin>, crate: string)
    requires crate in LastPins(pins)
    ensures CratePin(crate, LastPins(pins)[crate]) in pins
  {
    var last := pins[|pins| - 1];
    if last.crate != crate {
      LastPinsFrom(pins[..|pins| - 1], crate);
    } else {
      assert last == CratePin(crate, last.rev);
    }
  }

  lemma OnePinPerName(m: Manifest, p: CratePin, q: CratePin, t: nat, u: nat)
    requires ManifestListable(m) && t < 4 && u < 4 && p.crate == q.crate
    requires PinIn(TableOf(m, t), t, TableOf(m, t).Keys, p) && PinIn(TableOf(m, u), u, TableOf(m, u).Keys, q)
    ensures p == q
  {
    var a, b := TableOf(m, t), TableOf(m, u);
    var k :| k in a && a[k] == OnNode(Some(p.rev)) && p.crate == CrateName(t, k);
    var l :| l in b && b[l] == OnNode(Some(q.rev)) && q.crate == CrateName(u, l);
    assert TableListable(a) && TableListable(b);
    assert Listable(a[k], k) && Listable(b[l], l);
    CrateNamesDiffer(t, k, u, l);
  }

  /** Of every list `merge` makes of a manifest, if the guard accepts it: no psy-node pin of any table names a
      commit the squash removes. */
  lemma AcceptedPinsSurvive(base: seq<PinSnapshot>, topic: set<Commit>, onOrigin: Commit -> bool, m: Manifest, source: PinSnapshot,
                            tip: Commit, remote: Commit, t: nat, key: string)
    requires ManifestListable(m) && Lists(m, 4, source.pins)
    requires SnapshotAccepted(base, topic, onOrigin, source) && GuardKnows(topic, onOrigin, tip, remote)
    requires t < 4 && key in TableOf(m, t) && TableOf(m, t)[key].OnNode? && TableOf(m, t)[key].rev.Some?
    ensures !TopicOnly(TableOf(m, t)[key].rev.value, tip, remote)
  {
    var pin := CratePin(CrateName(t, key), TableOf(m, t)[key].rev.value);
    assert PinIn(TableOf(m, t), t, TableOf(m, t).Keys, pin);
    assert pin in source.pins;
    var i :| 0 <= i < |source.pins| && source.pins[i] == pin;
    LastPinsHold(source.pins, i);
    LastPinsFrom(source.pins, pin.crate);
    var seen := CratePin(pin.crate, LastPins(source.pins)[pin.crate]);
    var u :| 0 <= u < 4 && PinIn(TableOf(m, u), u, TableOf(m, u).Keys, seen);
    OnePinPerName(m, pin, seen, t, u);
  }

  // ----- acceptance, in terms of the manifests

  /** A pin on psy-node in a table: it can be listed, and it is on the frozen remote base, or the base manifest has it
      in the same place and it is not on the topic. */
  ghost predicate TableStands(table: Table, before: Table, tip: Commit, remote: Commit) {
    forall key :: key in table && table[key].OnNode? ==>
                    && table[key].rev.Some? && PlainKey(key)
                    && (|| Ancestor(table[key].rev.value, remote)
                        || (key in before && before[key] == table[key] && !Ancestor(table[key].rev.value, tip)))
  }

  ghost predicate ManifestStands(m: Manifest, b: Manifest, tip: Commit, remote: Commit) {
    && TableStands(m.workspace, b.workspace, tip, remote) && TableStands(m.normal, b.normal, tip, remote)
    && TableStands(m.dev, b.dev, tip, remote) && TableStands(m.build, b.build, tip, remote)
  }

  /** Every pin on psy-node has a full revision and a plain key. */
  ghost predicate AllPinsFull(m: Manifest) {
    TableListable(m.workspace) && TableListable(m.normal) && TableListable(m.dev) && TableListable(m.build)
  }

  lemma ListedPin(m: Manifest, pins: seq<CratePin>, t: nat, key: string, rev: Commit)
    requires ManifestListable(m) && Lists(m, 4, pins) && t < 4 && PlainKey(key)
    ensures CratePin(CrateName(t, key), rev) in pins <==> key in TableOf(m, t) && TableOf(m, t)[key] == OnNode(Some(rev))
  {
    var pin := CratePin(CrateName(t, key), rev);
    if pin in pins {
      var u :| 0 <= u < 4 && PinIn(TableOf(m, u), u, TableOf(m, u).Keys, pin);
      var l :| l in TableOf(m, u) && TableOf(m, u)[l] == OnNode(Some(rev)) && pin.crate == CrateName(u, l);
      assert TableListable(TableOf(m, u)) && Listable(TableOf(m, u)[l], l);
      CrateNamesDiffer(t, key, u, l);
    }
    if key in TableOf(m, t) && TableOf(m, t)[key] == OnNode(Some(rev)) {
      assert PinIn(TableOf(m, t), t, TableOf(m, t).Keys, pin);
    }
  }

  lemma DistinctAreLast(pins: seq<CratePin>)
    requires DistinctCrates(pins)
    ensures forall i :: 0 <= i < |pins| ==> LastOfName(pins, i)
  {
  }

  lemma PinStandsExactly(b: Manifest, base: seq<CratePin>, topic: set<Commit>, onOrigin: Commit -> bool, tip: Commit, remote: Commit,
                         t: nat, key: string, rev: Commit)
    requires ManifestListable(b) && Lists(b, 4, base) && DistinctCrates(base) && t < 4 && PlainKey(key)
    requires GuardKnows(topic, onOrigin, tip, remote)
    ensures PinStands(base, topic, onOrigin, CratePin(CrateName(t, key), rev)) ==>
              Ancestor(rev, remote) || (key in TableOf(b, t) && TableOf(b, t)[key] == OnNode(Some(rev)) && !Ancestor(rev, tip))
    ensures (Ancestor(rev, remote) && onOrigin(rev))
            || (key in TableOf(b, t) && TableOf(b, t)[key] == OnNode(Some(rev)) && !Ancestor(rev, tip)) ==>
              PinStands(base, topic, onOrigin, CratePin(CrateName(t, key), rev))
  {
    var pin := CratePin(CrateName(t, key), rev);
    ListedPin(b, base, t, key, rev);
    DistinctAreLast(base);
    assert (exists l :: LastOfName(base, l) && base[l] == pin) <==> pin in base;
  }

  ghost predicate TablesStand(m: Manifest, b: Manifest, tip: Commit, remote: Commit) {
    forall t :: 0 <= t < 4 ==> TableStands(TableOf(m, t), TableOf(b, t), tip, remote)
  }

  lemma FourTables(m: Manifest, b: Manifest, tip: Commit, remote: Commit)
    ensures ManifestStands(m, b, tip, remote) <==> TablesStand(m, b, tip, remote)
    ensures AllPinsFull(m) <==> ManifestListable(m)
  {
    assert TableOf(m, 0) == m.workspace && TableOf(m, 1) == m.normal && TableOf(m, 2) == m.dev && TableOf(m, 3) == m.build;
    assert TableOf(b, 0) == b.workspace && TableOf(b, 1) == b.normal && TableOf(b, 2) == b.dev && TableOf(b, 3) == b.build;
  }

  /** What the guard accepts of a listed manifest stands. */
  lemma AcceptedStands(m: Manifest, pins: seq<CratePin>, b: Manifest, base: seq<CratePin>, topic: set<Commit>,
                       onOrigin: Commit -> bool, tip: Commit, remote: Commit)
    requires ManifestListable(m) && Lists(m, 4, pins) && DistinctCrates(pins)
    requires ManifestListable(b) && Lists(b, 4, base) && DistinctCrates(base)
    requires GuardKnows(topic, onOrigin, tip, remote) && PinsStand(base, topic, onOrigin, pins)
    ensures ManifestStands(m, b, tip, remote)
  {
    forall t, key | 0 <= t < 4 && key in TableOf(m, t) && TableOf(m, t)[key].OnNode?
      ensures TableOf(m, t)[key].rev.Some? && PlainKey(key)
      ensures var rev := TableOf(m, t)[key].rev.value;
              Ancestor(rev, remote) || (key in TableOf(b, t) && TableOf(b, t)[key] == OnNode(Some(rev)) && !Ancestor(rev, tip))
    {
      assert TableListable(TableOf(m, t)) && Listable(TableOf(m, t)[key], key);
      var rev := TableOf(m, t)[key].rev.value;
      ListedPin(m, pins, t, key, rev);
      DistinctAreLast(pins);
      var k :| 0 <= k < |pins| && pins[k] == CratePin(CrateName(t, key), rev);
      assert LastOfName(pins, k);
      PinStandsExactly(b, base, topic, onOrigin, tip, remote, t, key, rev);
    }
    FourTables(m, b, tip, remote);
  }

  /** And whatever stands is accepted, if the guard knows every commit of the frozen remote base. */
  lemma StandingIsAccepted(m: Manifest, pins: seq<CratePin>, b: Manifest, base: seq<CratePin>, topic: set<Commit>,
                           onOrigin: Commit -> bool, tip: Commit, remote: Commit)
    requires ManifestListable(m) && Lists(m, 4, pins) && DistinctCrates(pins)
    requires ManifestListable(b) && Lists(b, 4, base) && DistinctCrates(base)
    requires GuardKnows(topic, onOrigin, tip, remote) && KnowsAll(onOrigin, remote) && ManifestStands(m, b, tip, remote)
    ensures PinsStand(base, topic, onOrigin, pins)
  {
    FourTables(m, b, tip, remote);
    forall k | LastOfName(pins, k)
      ensures PinStands(base, topic, onOrigin, pins[k])
    {
      assert pins[k] in pins;
      var t :| 0 <= t < 4 && PinIn(TableOf(m, t), t, TableOf(m, t).Keys, pins[k]);
      var key :| key in TableOf(m, t) && TableOf(m, t)[key] == OnNode(Some(pins[k].rev)) && pins[k].crate == CrateName(t, key);
      assert TableStands(TableOf(m, t), TableOf(b, t), tip, remote);
      PinStandsExactly(b, base, topic, onOrigin, tip, remote, t, key, pins[k].rev);
    }
  }

  ghost predicate KnowsAll(onOrigin: Commit -> bool, remote: Commit) {
    forall rev :: Ancestor(rev, remote) ==> onOrigin(rev)
  }

  /** The snapshot is that of the manifest. */
  ghost predicate ListedFrom(m: (Repo, Manifest), snapshot: PinSnapshot) {
    && snapshot.repo == m.0 && ManifestListable(m.1)
    && Lists(m.1, 4, snapshot.pins) && DistinctCrates(snapshot.pins)
  }

  ghost predicate AllListed(manifests: seq<(Repo, Manifest)>, snapshots: seq<PinSnapshot>) {
    |snapshots| == |manifests| && forall i :: 0 <= i < |manifests| ==> ListedFrom(manifests[i], snapshots[i])
  }

  /** The snapshots of all consumers at one commit. */
  method Snapshots(manifests: seq<(Repo, Manifest)>) returns (ok: bool, snapshots: seq<PinSnapshot>)
    ensures ok <==> forall i :: 0 <= i < |manifests| ==> AllPinsFull(manifests[i].1)
    ensures ok ==> AllListed(manifests, snapshots)
  {
    snapshots := [];
    for i := 0 to |manifests|
      invariant AllListed(manifests[..i], snapshots)
      invariant forall j :: 0 <= j < i ==> AllPinsFull(manifests[j].1)
    {
      FourTables(manifests[i].1, manifests[i].1, Commit(0, [], []), Commit(0, [], []));
      var pins := PinsFromManifest(manifests[i].1);
      if pins.None? {
        return false, [];
      }
      snapshots := snapshots + [PinSnapshot(manifests[i].0, pins.value)];
    }
    assert manifests[..|manifests|] == manifests;
    ok := true;
  }

  /** The first base manifest of the consumer is there, and every pin stands against it. */
  ghost predicate ConsumerStands(base: seq<(Repo, Manifest)>, consumer: (Repo, Manifest), tip: Commit, remote: Commit) {
    exists j :: && 0 <= j < |base| && base[j].0 == consumer.0 && (forall i :: 0 <= i < j ==> base[i].0 != consumer.0)
                && ManifestStands(consumer.1, base[j].1, tip, remote)
  }

  lemma ConsumerExactly(base: seq<(Repo, Manifest)>, bases: seq<PinSnapshot>, consumer: (Repo, Manifest), source: PinSnapshot,
                        topic: set<Commit>, onOrigin: Commit -> bool, tip: Commit, remote: Commit)
    requires AllListed(base, bases) && ListedFrom(consumer, source) && GuardKnows(topic, onOrigin, tip, remote)
    ensures SnapshotStands(bases, topic, onOrigin, source) ==> ConsumerStands(base, consumer, tip, remote)
    ensures KnowsAll(onOrigin, remote) && ConsumerStands(base, consumer, tip, remote) ==> SnapshotStands(bases, topic, onOrigin, source)
  {
    if j :| FirstFor(bases, source.repo, j) && PinsStand(bases[j].pins, topic, onOrigin, source.pins) {
      assert ListedFrom(base[j], bases[j]);
      AcceptedStands(consumer.1, source.pins, base[j].1, bases[j].pins, topic, onOrigin, tip, remote);
      assert forall i :: 0 <= i < j ==> ListedFrom(base[i], bases[i]);
    }
    if KnowsAll(onOrigin, remote) && ConsumerStands(base, consumer, tip, remote) {
      var j :| && 0 <= j < |base| && base[j].0 == consumer.0 && (forall i :: 0 <= i < j ==> base[i].0 != consumer.0)
               && ManifestStands(consumer.1, base[j].1, tip, remote);
      assert forall i :: 0 <= i <= j ==> ListedFrom(base[i], bases[i]);
      StandingIsAccepted(consumer.1, source.pins, base[j].1, bases[j].pins, topic, onOrigin, tip, remote);
      assert FirstFor(bases, source.repo, j);
    }
  }

  /** The guard as `merge` uses it, with the snapshots of source and base listed from the manifests.  When it lets the
      squash go on, every psy-node pin of every consumer is on the frozen remote base, or was there before and is not
      on the topic; and if it knows the frozen remote base it lets the squash go on whenever that is so. */
  method GuardManifests(manifests: seq<(Repo, Manifest)>, base: seq<(Repo, Manifest)>, topic: set<Commit>,
                        onOrigin: Commit -> bool, ghost tip: Commit, ghost remote: Commit)
    returns (ok: bool)
    requires GuardKnows(topic, onOrigin, tip, remote)
    ensures ok ==> forall i :: 0 <= i < |manifests| ==> ConsumerStands(base, manifests[i], tip, remote)
    ensures ok ==> forall i :: 0 <= i < |manifests| ==> Survives(manifests[i].1, tip, remote)
    ensures KnowsAll(onOrigin, remote) ==>
              (ok <==> && (forall j :: 0 <= j < |base| ==> AllPinsFull(base[j].1))
                       && (forall i :: 0 <= i < |manifests| ==> ConsumerStands(base, manifests[i], tip, remote)))
  {
    var source, bases, historical;
    ok, source := Snapshots(manifests);
    if !ok {
      StandingIsFull(manifests, base, tip, remote);
      return;
    }
    ok, bases := Snapshots(base);
    if !ok {
      return;
    }
    forall i | 0 <= i < |manifests| {
      ConsumerExactly(base, bases, manifests[i], source[i], topic, onOrigin, tip, remote);
    }
    ok, historical := GuardSquashPins(source, bases, topic, onOrigin);
  }

  lemma StandingIsFull(manifests: seq<(Repo, Manifest)>, base: seq<(Repo, Manifest)>, tip: Commit, remote: Commit)
    ensures forall i :: 0 <= i < |manifests| && ConsumerStands(base, manifests[i], tip, remote) ==> AllPinsFull(manifests[i].1)
  {
  }

  /** No pin on psy-node names a removed commit. */
  ghost predicate Survives(m: Manifest, tip: Commit, remote: Commit) {
    forall t, key :: 0 <= t < 4 && key in TableOf(m, t) ==> DependencySurvives(TableOf(m, t)[key], tip, remote)
  }

  predicate DependencySurvives(d: Dependency, tip: Commit, remote: Commit) {
    d.OnNode? && d.rev.Some? ==> !TopicOnly(d.rev.value, tip, remote)
  }
}
