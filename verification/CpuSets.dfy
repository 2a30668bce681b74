/** Linux CPU lists: printing, parsing and the split of physical cores between Scylla and the runtime
    (dev/locSetupPolicy.ts). */
module CpuSets {
  import opened Wrappers
  import opened Decimals

  const LAST_CPU: nat := 4095

  // ----- sorted contents of a set

  ghost predicate Increasing(s: seq<nat>) {
    forall i, j :: 0 <= i < j < |s| ==> s[i] < s[j]
  }

  predicate IsMinimum(m: nat, s: set<nat>) {
    m in s && forall x :: x in s ==> m <= x
  }

  lemma {:induction false} MinimumExists(s: set<nat>) returns (m: nat)
    requires s != {}
    ensures IsMinimum(m, s)
    decreases |s|
  {
    var a :| a in s;
    if s == {a} {
      return a;
    }
    var n := MinimumExists(s - {a});
    m := if n < a then n else a;
    forall x | x in s
      ensures m <= x
    {
      assert x == a || x in s - {a};
    }
  }

  function Minimum(s: set<nat>): (m: nat)
    requires s != {}
    ensures IsMinimum(m, s)
  {
    assert exists m :: m in s && IsMinimum(m, s) by {
      var m := MinimumExists(s);
    }
    var m :| m in s && IsMinimum(m, s);
    m
  }

  /** The elements in increasing order. */
  function Sorted(s: set<nat>): (r: seq<nat>)
    ensures forall x :: x in r <==> x in s
    ensures s != {} ==> r != []
  {
    if s == {} then [] else [Minimum(s)] + Sorted(s - {Minimum(s)})
  }

  lemma {:induction false} SortedIncreases(s: set<nat>)
    ensures Increasing(Sorted(s))
  {
    if s != {} {
      var m := Minimum(s);
      var rest := Sorted(s - {m});
      SortedIncreases(s - {m});
      forall i | 0 <= i < |rest|
        ensures m < rest[i]
      {
        assert rest[i] in rest;
        assert rest[i] in s - {m};
      }
      ConsIncreases(m, rest);
    }
  }

  lemma ConsIncreases(m: nat, rest: seq<nat>)
    requires Increasing(rest) && forall i :: 0 <= i < |rest| ==> m < rest[i]
    ensures Increasing([m] + rest)
  {
  }

  // ----- ranges

  datatype Range = Range(lo: nat, hi: nat)

  /** The numbers from `lo` up to but not including `hi`. */
  function Interval(lo: nat, hi: nat): (s: set<nat>)
    ensures forall x: nat :: x in s <==> lo <= x < hi
  {
    if hi <= lo then {} else Interval(lo, hi - 1) + {hi - 1}
  }

  function Cpus(r: Range): set<nat> {
    Interval(r.lo, r.hi + 1)
  }

  function Covered(rs: seq<Range>): set<nat> {
    if rs == [] then {} else Covered(rs[..|rs| - 1]) + Cpus(rs[|rs| - 1])
  }

  /** Proper ranges in increasing order with a gap between neighbours: the only such list of a set. */
  ghost predicate Canonical(rs: seq<Range>) {
    && (forall i :: 0 <= i < |rs| ==> rs[i].lo <= rs[i].hi)
    && (forall i :: 0 <= i < |rs| - 1 ==> rs[i].hi + 1 < rs[i + 1].lo)
  }

  function Ranges(s: seq<nat>): (rs: seq<Range>)
    ensures s != [] ==> rs != [] && rs[|rs| - 1].hi == s[|s| - 1]
  {
    if s == [] then []
    else
      var last := s[|s| - 1];
      var before := Ranges(s[..|s| - 1]);
      if before != [] && last == before[|before| - 1].hi + 1
      then before[|before| - 1 := before[|before| - 1].(hi := last)]
      else before + [Range(last, last)]
  }

  lemma CoveredSnoc(rs: seq<Range>, r: Range)
    ensures Covered(rs + [r]) == Covered(rs) + Cpus(r)
  {
    assert (rs + [r])[..|rs|] == rs;
  }

  function Elements(s: seq<nat>): (r: set<nat>)
    ensures forall x :: x in r <==> x in s
  {
    if s == [] then {} else Elements(s[..|s| - 1]) + {s[|s| - 1]}
  }

  lemma ElementsOfFront(s: seq<nat>)
    requires s != []
    ensures Elements(s) == Elements(s[..|s| - 1]) + {s[|s| - 1]}
  {
  }

  lemma {:induction false} RangesAreCanonical(s: seq<nat>)
    requires Increasing(s)
    ensures Canonical(Ranges(s))
    ensures Covered(Ranges(s)) == Elements(s)
  {
    if s != [] {
      var last, front := s[|s| - 1], s[..|s| - 1];
      ElementsOfFront(s);
      RangesAreCanonical(front);
      assert front != [] ==> front[|front| - 1] == s[|s| - 2] < last;
      var before := Ranges(front);
      if before != [] && last == before[|before| - 1].hi + 1 {
        ExtendLast(before, last);
      } else {
        AppendSingle(before, last);
      }
    }
  }

  lemma AppendSingle(rs: seq<Range>, last: nat)
    requires Canonical(rs) && (rs != [] ==> rs[|rs| - 1].hi + 1 < last)
    ensures Canonical(rs + [Range(last, last)])
    ensures Covered(rs + [Range(last, last)]) == Covered(rs) + {last}
  {
    CoveredSnoc(rs, Range(last, last));
    assert Cpus(Range(last, last)) == {last};
  }

  lemma ExtendLast(rs: seq<Range>, last: nat)
    requires rs != [] && Canonical(rs) && last == rs[|rs| - 1].hi + 1
    ensures var r' := rs[|rs| - 1].(hi := last);
            Canonical(rs[|rs| - 1 := r']) && Covered(rs[|rs| - 1 := r']) == Covered(rs) + {last}
  {
    var r := rs[|rs| - 1];
    var r' := r.(hi := last);
    var init := rs[..|rs| - 1];
    assert rs[|rs| - 1 := r'] == init + [r'] && rs == init + [r];
    CoveredSnoc(init, r);
    CoveredSnoc(init, r');
    assert Cpus(r') == Cpus(r) + {last};
  }

  // ----- text

  function RangeText(r: Range): string {
    if r.lo == r.hi then Digits(r.lo) else Digits(r.lo) + "-" + Digits(r.hi)
  }

  function Texts(rs: seq<Range>): seq<string> {
    seq(|rs|, i requires 0 <= i < |rs| => RangeText(rs[i]))
  }

  function Join(parts: seq<string>): string {
    if parts == [] then ""
    else if |parts| == 1 then parts[0]
    else parts[0] + "," + Join(parts[1..])
  }

  /** The printed form of a nonempty set. */
  function Text(s: set<nat>): string
    requires s != {}
  {
    Join(Texts(Ranges(Sorted(s))))
  }

  /** The loop of `formatCpuSet`: extend the current range or close it. */
  method FormatSorted(sorted: seq<nat>) returns (ranges: seq<string>)
    requires sorted != []
    ensures ranges == Texts(Ranges(sorted))
  {
    ranges := [];
    var start, end := sorted[0], sorted[0];
    ghost var closed: seq<Range> := [];
    assert sorted[..1][..0] == [];
    for i := 1 to |sorted|
      invariant ranges == Texts(closed)
      invariant Ranges(sorted[..i]) == closed + [Range(start, end)]
    {
      var cpu := sorted[i];
      assert sorted[..i + 1][..i] == sorted[..i];
      if cpu == end + 1 {
        end := cpu;
      } else {
        ranges := ranges + [if start == end then Digits(start) else Digits(start) + "-" + Digits(end)];
        closed := closed + [Range(start, end)];
        start, end := cpu, cpu;
      }
    }
    assert sorted[..|sorted|] == sorted;
    ranges := ranges + [if start == end then Digits(start) else Digits(start) + "-" + Digits(end)];
    assert ranges == Texts(closed + [Range(start, end)]);
  }

  /** `formatCpuSet`. */
  method FormatCpuSet(cpus: set<nat>) returns (r: Result<string>)
    ensures r == if cpus == {} then Err else Ok(Text(cpus))
  {
    var sorted := Sorted(cpus);
    if sorted == [] {
      return Err;
    }
    var ranges := FormatSorted(sorted);
    r := Ok(Join(ranges));
  }

  // ----- parsing

  /** `String.prototype.split(",")`. */
  function Split(s: string): (parts: seq<string>)
    ensures parts != []
  {
    if s == "" then [""]
    else
      var rest := Split(s[1..]);
      if s[0] == ',' then [""] + rest else [[s[0]] + rest[0]] + rest[1..]
  }

  predicate IsSpace(c: char) {
    var n := c as int;
    || 9 <= n <= 13 || n == 32 || n == 0xa0 || n == 0x1680 || 0x2000 <= n <= 0x200a
    || n == 0x2028 || n == 0x2029 || n == 0x202f || n == 0x205f || n == 0x3000 || n == 0xfeff
  }

  function TrimStart(s: string): string {
    if s != "" && IsSpace(s[0]) then TrimStart(s[1..]) else s
  }

  function TrimEnd(s: string): string {
    if s != "" && IsSpace(s[|s| - 1]) then TrimEnd(s[..|s| - 1]) else s
  }

  function Trim(s: string): string {
    TrimEnd(TrimStart(s))
  }

  /** The position of the first dash, or the length. */
  function Dash(s: string): (i: nat)
    ensures i <= |s|
    ensures i < |s| ==> s[i] == '-'
    ensures forall j :: 0 <= j < i ==> s[j] != '-'
  {
    if s == "" || s[0] == '-' then 0 else 1 + Dash(s[1..])
  }

  predicate Numeral(s: string) {
    s != "" && AllDigits(s)
  }

  /** One segment: a number, or two with a dash between them. */
  function ParseRange(s: string): Result<Range> {
    var d := Dash(s);
    if d == |s| then
      if Numeral(s) then Ok(Range(Value(s), Value(s))) else Err
    else if Numeral(s[..d]) && Numeral(s[d + 1..]) then Ok(Range(Value(s[..d]), Value(s[d + 1..])))
    else Err
  }

  predicate Allowed(r: Range) {
    r.lo <= r.hi <= LAST_CPU
  }

  predicate SegmentOk(s: string) {
    ParseRange(Trim(s)).Ok? && Allowed(ParseRange(Trim(s)).value)
  }

  function SegmentCpus(s: string): set<nat>
    requires SegmentOk(s)
  {
    Cpus(ParseRange(Trim(s)).value)
  }

  function SegmentsCpus(parts: seq<string>): set<nat>
    requires forall i :: 0 <= i < |parts| ==> SegmentOk(parts[i])
  {
    if parts == [] then {} else SegmentsCpus(parts[..|parts| - 1]) + SegmentCpus(parts[|parts| - 1])
  }

  function Parse(value: string): Result<set<nat>> {
    if forall i :: 0 <= i < |Split(value)| ==> SegmentOk(Split(value)[i]) then Ok(SegmentsCpus(Split(value))) else Err
  }

  /** The loop of `parseCpuSet`: add every CPU of every segment, or stop at a bad one. */
  method CollectSegments(parts: seq<string>) returns (ok: bool, cpus: set<nat>)
    ensures ok <==> forall i :: 0 <= i < |parts| ==> SegmentOk(parts[i])
    ensures ok ==> cpus == SegmentsCpus(parts)
  {
    cpus := {};
    for i := 0 to |parts|
      invariant forall j :: 0 <= j < i ==> SegmentOk(parts[j])
      invariant cpus == SegmentsCpus(parts[..i])
    {
      var segment := ParseRange(Trim(parts[i]));
      if segment.Err? || !Allowed(segment.value) {
        assert !SegmentOk(parts[i]);
        return false, {};
      }
      assert SegmentOk(parts[i]);
      SegmentsSnoc(parts, i);
      cpus := AddRange(cpus, segment.value);
    }
    assert parts[..|parts|] == parts;
    ok := true;
  }

  lemma SegmentsSnoc(parts: seq<string>, i: nat)
    requires i < |parts| && forall j :: 0 <= j <= i ==> SegmentOk(parts[j])
    ensures SegmentsCpus(parts[..i + 1]) == SegmentsCpus(parts[..i]) + SegmentCpus(parts[i])
  {
    assert parts[..i + 1][..i] == parts[..i];
  }

  /** `parseCpuSet`. */
  method ParseCpuSet(value: string) returns (r: Result<set<nat>>)
    ensures r == Parse(value)
  {
    var parts := Split(value);
    var ok, cpus := CollectSegments(parts);
    if !ok {
      return Err;
    }
    NonemptySegments(parts);
    r := if |cpus| == 0 then Err else Ok(cpus);
  }

  /** The inner loop. */
  method AddRange(cpus: set<nat>, range: Range) returns (r: set<nat>)
    requires range.lo <= range.hi
    ensures r == cpus + Cpus(range)
  {
    r := cpus;
    var cpu := range.lo;
    while cpu <= range.hi
      invariant range.lo <= cpu <= range.hi + 1
      invariant r == cpus + Interval(range.lo, cpu)
    {
      r := r + {cpu};
      cpu := cpu + 1;
    }
  }

  /** A list that parses always names a CPU. */
  lemma NonemptySegments(parts: seq<string>)
    requires parts != [] && forall i :: 0 <= i < |parts| ==> SegmentOk(parts[i])
    ensures SegmentsCpus(parts) != {}
  {
    var r := ParseRange(Trim(parts[|parts| - 1])).value;
    assert r.lo in SegmentCpus(parts[|parts| - 1]);
  }

  // ----- the round trip

  ghost predicate Plain(s: string) {
    forall i :: 0 <= i < |s| ==> IsDigit(s[i]) || s[i] == '-'
  }

  lemma TrimPlain(s: string)
    requires Plain(s)
    ensures Trim(s) == s
  {
    assert s != "" ==> !IsSpace(s[0]) && !IsSpace(s[|s| - 1]);
  }

  predicate CommaFree(s: string) {
    forall i :: 0 <= i < |s| ==> s[i] != ','
  }

  lemma {:induction false} SplitPlain(s: string)
    requires CommaFree(s)
    ensures Split(s) == [s]
  {
    if s != "" {
      SplitPlain(s[1..]);
      assert [s[0]] + s[1..] == s;
    }
  }

  lemma {:induction false} SplitAtComma(s: string, rest: string)
    requires CommaFree(s)
    ensures Split(s + "," + rest) == [s] + Split(rest)
  {
    var all := s + "," + rest;
    if s == "" {
      assert all[1..] == rest;
    } else {
      SplitAtComma(s[1..], rest);
      assert all[1..] == s[1..] + "," + rest;
      assert [s[0]] + s[1..] == s;
    }
  }

  lemma {:induction false} SplitOfJoin(parts: seq<string>)
    requires parts != [] && forall i :: 0 <= i < |parts| ==> CommaFree(parts[i])
    ensures Split(Join(parts)) == parts
  {
    if |parts| == 1 {
      SplitPlain(parts[0]);
    } else {
      SplitOfJoin(parts[1..]);
      SplitAtComma(parts[0], Join(parts[1..]));
      assert [parts[0]] + parts[1..] == parts;
    }
  }

  lemma DashOfDigits(a: string, rest: string)
    requires AllDigits(a)
    ensures Dash(a) == |a|
    ensures Dash(a + "-" + rest) == |a|
  {
    var s := a + "-" + rest;
    assert s[|a|] == '-';
    assert forall j :: 0 <= j < |a| ==> s[j] == a[j];
  }

  lemma RangeTextParses(r: Range)
    requires r.lo <= r.hi
    ensures Plain(RangeText(r)) && ParseRange(RangeText(r)) == Ok(r)
  {
    var a, b := Digits(r.lo), Digits(r.hi);
    ValueOfDigits(r.lo);
    ValueOfDigits(r.hi);
    DashOfDigits(a, b);
    if r.lo < r.hi {
      var s := RangeText(r);
      assert s[..|a|] == a && s[|a| + 1..] == b;
    }
  }

  lemma SegmentOfRange(r: Range)
    requires r.lo <= r.hi
    ensures SegmentOk(RangeText(r)) <==> r.hi <= LAST_CPU
    ensures SegmentOk(RangeText(r)) ==> SegmentCpus(RangeText(r)) == Cpus(r)
  {
    RangeTextParses(r);
    TrimPlain(RangeText(r));
  }

  lemma {:induction false} SegmentsOfRanges(rs: seq<Range>)
    requires forall i :: 0 <= i < |rs| ==> rs[i].lo <= rs[i].hi <= LAST_CPU
    ensures forall i :: 0 <= i < |rs| ==> SegmentOk(Texts(rs)[i])
    ensures SegmentsCpus(Texts(rs)) == Covered(rs)
  {
    forall i | 0 <= i < |rs|
      ensures SegmentOk(Texts(rs)[i])
    {
      SegmentOfRange(rs[i]);
    }
    if rs != [] {
      SegmentsOfRanges(rs[..|rs| - 1]);
      assert Texts(rs)[..|rs| - 1] == Texts(rs[..|rs| - 1]);
      SegmentOfRange(rs[|rs| - 1]);
    }
  }

  lemma {:induction false} RangeIsCovered(rs: seq<Range>, i: nat)
    requires i < |rs| && rs[i].lo <= rs[i].hi
    ensures rs[i].hi in Covered(rs)
  {
    if i < |rs| - 1 {
      RangeIsCovered(rs[..|rs| - 1], i);
    } else {
      assert rs[i].hi in Cpus(rs[i]);
    }
  }

  lemma {:induction false} CoveredIsBounded(rs: seq<Range>, x: nat) returns (i: nat)
    requires x in Covered(rs)
    ensures i < |rs| && x <= rs[i].hi
  {
    if x in Cpus(rs[|rs| - 1]) {
      return |rs| - 1;
    }
    i := CoveredIsBounded(rs[..|rs| - 1], x);
  }

  lemma TextSplits(s: set<nat>)
    requires s != {}
    ensures Canonical(Ranges(Sorted(s))) && Covered(Ranges(Sorted(s))) == s
    ensures Split(Text(s)) == Texts(Ranges(Sorted(s)))
  {
    var rs := Ranges(Sorted(s));
    SortedIncreases(s);
    RangesAreCanonical(Sorted(s));
    assert Elements(Sorted(s)) == s;
    forall i | 0 <= i < |rs|
      ensures CommaFree(Texts(rs)[i])
    {
      RangeTextParses(rs[i]);
    }
    SplitOfJoin(Texts(rs));
  }

  lemma SmallRanges(rs: seq<Range>)
    requires Canonical(rs) && forall x :: x in Covered(rs) ==> x <= LAST_CPU
    ensures forall i :: 0 <= i < |rs| ==> rs[i].lo <= rs[i].hi <= LAST_CPU
  {
    forall i | 0 <= i < |rs|
      ensures rs[i].lo <= rs[i].hi <= LAST_CPU
    {
      RangeIsCovered(rs, i);
    }
  }

  lemma LargeRange(rs: seq<Range>, x: nat)
    requires Canonical(rs) && x in Covered(rs) && x > LAST_CPU
    ensures exists i :: 0 <= i < |rs| && !SegmentOk(Texts(rs)[i])
  {
    var i := CoveredIsBounded(rs, x);
    SegmentOfRange(rs[i]);
    assert !SegmentOk(Texts(rs)[i]);
  }

  /** Every nonempty set prints to sorted ranges with gaps between them, and reads back as itself exactly when
      it stays within CPU 4095; otherwise the printed form is refused. */
  lemma PrintedSetReadsBack(s: set<nat>)
    requires s != {}
    ensures Canonical(Ranges(Sorted(s))) && Covered(Ranges(Sorted(s))) == s
    ensures Parse(Text(s)) == if forall x :: x in s ==> x <= 4095 then Ok(s) else Err
  {
    var rs := Ranges(Sorted(s));
    TextSplits(s);
    if forall x :: x in s ==> x <= LAST_CPU {
      SmallRanges(rs);
      SegmentsOfRanges(rs);
    } else {
      var x :| x in s && x > LAST_CPU;
      LargeRange(rs, x);
    }
  }

  // ----- what is read, as a grammar

  ghost predicate Spaces(s: string) {
    forall i :: 0 <= i < |s| ==> IsSpace(s[i])
  }

  /** A number, or two with a dash between them. */
  ghost predicate Denotes(core: string, r: Range) {
    || (|core| > 0 && AllDigits(core) && r == Range(Value(core), Value(core)))
    || exists x, y :: AllDigits(x) && AllDigits(y) && |x| > 0 && |y| > 0 && core == x + "-" + y && r == Range(Value(x), Value(y))
  }

  ghost predicate Surrounded(segment: string, core: string) {
    exists a, b :: Spaces(a) && Spaces(b) && segment == a + core + b
  }

  /** A segment with spaces around a range that goes upward and no further than CPU 4095. */
  ghost predicate Names(segment: string, r: Range) {
    r.lo <= r.hi <= 4095 && exists core :: Surrounded(segment, core) && Denotes(core, r)
  }

  lemma {:induction false} TrimStartOf(a: string, t: string)
    requires Spaces(a) && (t == "" || !IsSpace(t[0]))
    ensures TrimStart(a + t) == t
  {
    if a == "" {
      assert a + t == t;
    } else {
      assert (a + t)[1..] == a[1..] + t;
      TrimStartOf(a[1..], t);
    }
  }

  lemma {:induction false} TrimEndOf(t: string, b: string)
    requires Spaces(b) && (t == "" || !IsSpace(t[|t| - 1]))
    ensures TrimEnd(t + b) == t
  {
    if b == "" {
      assert t + b == t;
    } else {
      assert (t + b)[..|t + b| - 1] == t + b[..|b| - 1];
      TrimEndOf(t, b[..|b| - 1]);
    }
  }

  lemma TrimOf(a: string, core: string, b: string)
    requires Spaces(a) && Spaces(b) && core != "" && !IsSpace(core[0]) && !IsSpace(core[|core| - 1])
    ensures Trim(a + core + b) == core
  {
    assert a + core + b == a + (core + b);
    TrimStartOf(a, core + b);
    TrimEndOf(core, b);
  }

  lemma {:induction false} TrimStartLeaves(s: string) returns (a: string)
    ensures Spaces(a) && s == a + TrimStart(s)
  {
    if s != "" && IsSpace(s[0]) {
      var rest := TrimStartLeaves(s[1..]);
      a := [s[0]] + rest;
      assert s == [s[0]] + s[1..];
    } else {
      a := "";
    }
  }

  lemma {:induction false} TrimEndLeaves(s: string) returns (b: string)
    ensures Spaces(b) && s == TrimEnd(s) + b
  {
    if s != "" && IsSpace(s[|s| - 1]) {
      var rest := TrimEndLeaves(s[..|s| - 1]);
      b := rest + [s[|s| - 1]];
      assert s == s[..|s| - 1] + [s[|s| - 1]];
    } else {
      b := "";
    }
  }

  lemma TrimIsCore(segment: string)
    ensures Surrounded(segment, Trim(segment))
  {
    var a := TrimStartLeaves(segment);
    var b := TrimEndLeaves(TrimStart(segment));
    assert segment == a + Trim(segment) + b;
  }

  lemma DigitIsNoSpace(c: char)
    requires IsDigit(c) || c == '-'
    ensures !IsSpace(c)
  {
  }

  lemma NoDash(x: string, y: string)
    requires Numeral(x)
    ensures Dash(x) == |x| && Dash(x + "-" + y) == |x|
  {
    var s := x + "-" + y;
    assert s[|x|] == '-';
    assert forall i :: 0 <= i < |x| ==> s[i] == x[i] && IsDigit(x[i]);
  }

  lemma ReadIsDenoted(core: string, r: Range)
    requires ParseRange(core) == Ok(r)
    ensures Denotes(core, r)
  {
    var d := Dash(core);
    if d < |core| {
      var x, y := core[..d], core[d + 1..];
      assert core == x + "-" + y && AllDigits(x) && AllDigits(y);
    }
  }

  lemma DenotedIsRead(core: string, r: Range)
    requires Denotes(core, r)
    ensures ParseRange(core) == Ok(r)
  {
    if AllDigits(core) && |core| > 0 && r == Range(Value(core), Value(core)) {
      NoDash(core, "");
    } else {
      var x, y :| AllDigits(x) && AllDigits(y) && |x| > 0 && |y| > 0 && core == x + "-" + y && r == Range(Value(x), Value(y));
      NoDash(x, y);
      assert core[..|x|] == x && core[|x| + 1..] == y;
    }
  }

  lemma RangeExactly(core: string, r: Range)
    ensures ParseRange(core) == Ok(r) <==> Denotes(core, r)
  {
    if ParseRange(core) == Ok(r) {
      ReadIsDenoted(core, r);
    }
    if Denotes(core, r) {
      DenotedIsRead(core, r);
    }
  }

  lemma DenotedIsTrim(core: string, r: Range)
    requires Denotes(core, r)
    ensures core != "" && !IsSpace(core[0]) && !IsSpace(core[|core| - 1])
  {
    if !Numeral(core) {
      var x, y :| AllDigits(x) && AllDigits(y) && |x| > 0 && |y| > 0 && core == x + "-" + y && r == Range(Value(x), Value(y));
      assert core[0] == x[0] && core[|core| - 1] == y[|y| - 1];
    }
    DigitIsNoSpace(core[0]);
    DigitIsNoSpace(core[|core| - 1]);
  }

  lemma SegmentExactly(segment: string, r: Range)
    ensures SegmentOk(segment) && ParseRange(Trim(segment)).value == r <==> Names(segment, r)
  {
    RangeExactly(Trim(segment), r);
    TrimIsCore(segment);
    if Names(segment, r) {
      var core :| Surrounded(segment, core) && Denotes(core, r);
      DenotedIsTrim(core, r);
      var a, b :| Spaces(a) && Spaces(b) && segment == a + core + b;
      TrimOf(a, core, b);
    }
  }

  lemma {:induction false} SegmentsUnion(parts: seq<string>, x: nat)
    requires forall i :: 0 <= i < |parts| ==> SegmentOk(parts[i])
    ensures x in SegmentsCpus(parts) <==> exists i :: 0 <= i < |parts| && x in SegmentCpus(parts[i])
  {
    if parts != [] {
      var n := |parts| - 1;
      SegmentsUnion(parts[..n], x);
      assert forall i :: 0 <= i < n ==> parts[..n][i] == parts[i];
    }
  }

  ghost predicate NamesRange(segment: string) {
    exists r :: Names(segment, r)
  }

  /** The CPU is in a range the segment names. */
  ghost predicate NamesCpu(segment: string, x: nat) {
    exists r :: Names(segment, r) && r.lo <= x <= r.hi
  }

  lemma SegmentNamed(segment: string)
    ensures SegmentOk(segment) <==> NamesRange(segment)
  {
    if SegmentOk(segment) {
      SegmentExactly(segment, ParseRange(Trim(segment)).value);
    }
    if r :| Names(segment, r) {
      SegmentExactly(segment, r);
    }
  }

  lemma SegmentCpuNamed(segment: string, x: nat)
    requires SegmentOk(segment)
    ensures x in SegmentCpus(segment) <==> NamesCpu(segment, x)
  {
    SegmentExactly(segment, ParseRange(Trim(segment)).value);
    if r :| Names(segment, r) && r.lo <= x <= r.hi {
      SegmentExactly(segment, r);
    }
  }

  lemma CpusNamed(parts: seq<string>, x: nat)
    requires forall i :: 0 <= i < |parts| ==> SegmentOk(parts[i])
    ensures x in SegmentsCpus(parts) <==> exists i :: 0 <= i < |parts| && NamesCpu(parts[i], x)
  {
    SegmentsUnion(parts, x);
    forall i | 0 <= i < |parts|
      ensures x in SegmentCpus(parts[i]) <==> NamesCpu(parts[i], x)
    {
      SegmentCpuNamed(parts[i], x);
    }
  }

  /** A list of segments with commas between them is read exactly when every segment names a range, and as the CPUs
      of those ranges. */
  lemma ParseExactly(parts: seq<string>, x: nat)
    requires parts != [] && forall i :: 0 <= i < |parts| ==> CommaFree(parts[i])
    ensures Parse(Join(parts)).Ok? <==> forall i :: 0 <= i < |parts| ==> NamesRange(parts[i])
    ensures Parse(Join(parts)).Ok? ==> (x in Parse(Join(parts)).value <==> exists i :: 0 <= i < |parts| && NamesCpu(parts[i], x))
  {
    SplitOfJoin(parts);
    forall i | 0 <= i < |parts|
      ensures SegmentOk(parts[i]) <==> NamesRange(parts[i])
    {
      SegmentNamed(parts[i]);
    }
    if Parse(Join(parts)).Ok? {
      CpusNamed(parts, x);
    }
  }

  lemma JoinAfterComma(rest: seq<string>)
    requires rest != []
    ensures Join([""] + rest) == "," + Join(rest)
  {
    assert ([""] + rest)[1..] == rest;
  }

  lemma JoinLonger(c: char, rest: seq<string>)
    requires rest != []
    ensures Join([[c] + rest[0]] + rest[1..]) == [c] + Join(rest)
  {
    var parts := [[c] + rest[0]] + rest[1..];
    assert parts[1..] == rest[1..];
    if |rest| > 1 {
      assert [c] + rest[0] + "," + Join(rest[1..]) == [c] + (rest[0] + "," + Join(rest[1..]));
    }
  }

  /** Every text is such a list. */
  lemma {:induction false} EveryTextSplits(text: string)
    ensures Join(Split(text)) == text && forall i :: 0 <= i < |Split(text)| ==> CommaFree(Split(text)[i])
  {
    if text != "" {
      var rest := Split(text[1..]);
      EveryTextSplits(text[1..]);
      assert text == [text[0]] + text[1..];
      if text[0] == ',' {
        JoinAfterComma(rest);
      } else {
        JoinLonger(text[0], rest);
      }
    }
  }
}
