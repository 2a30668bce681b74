/** Large trust-setup objects in parts: splitting and reassembly in scripts/trust-setup.py, and the reader in
    dev/locSetupV4.ts. */
module ChunkedObjects {
  import opened Wrappers
  import opened Decimals

  type Bytes = seq<bv8>

  const BUFFER_BYTES: nat := 0x10_0000
  const MAX_SAFE: nat := 0x1f_ffff_ffff_ffff

  // ----- part counts, names and sizes

  /** The Python count. */
  function PartCount(size: nat, part: nat): nat
    requires part > 0
  {
    (size + part - 1) / part
  }

  /** The part that starts at byte `i * part` and ends at the next boundary or the end of the object. */
  function PartBytes(data: Bytes, part: nat, i: nat): Bytes
    requires part > 0 && i * part <= |data|
  {
    if i * part + part <= |data| then data[i * part..i * part + part] else data[i * part..]
  }

  lemma CountBounds(size: nat, part: nat)
    requires part > 0
    ensures size <= PartCount(size, part) * part < size + part
  {
    var n := size + part - 1;
    var q := n / part;
    assert n == q * part + n % part;
  }

  lemma PartStarts(size: nat, part: nat, i: nat)
    requires part > 0 && i < PartCount(size, part)
    ensures 0 <= i * part < size
    ensures i + 1 < PartCount(size, part) ==> i * part + part < size
    ensures i + 1 == PartCount(size, part) ==> size <= i * part + part
  {
    CountBounds(size, part);
    var count := PartCount(size, part);
    assert (i + 1) * part == i * part + part;
    Times(i + 1, count, part);
    if i + 1 < count {
      assert (i + 2) * part == i * part + part + part;
      Times(i + 2, count, part);
    }
  }

  lemma Times(a: nat, b: nat, p: nat)
    requires a <= b
    ensures a * p <= b * p
  {
  }

  /** The size the Python check expects of part `i`. */
  function ExpectedSize(size: nat, part: nat, i: nat): int
    requires part > 0
  {
    if part < size - i * part then part else size - i * part
  }

  /** The size the TypeScript reader expects. */
  function ReaderSize(size: nat, part: nat, i: nat): int
    requires part > 0
  {
    if i == PartCount(size, part) - 1 then size - part * (PartCount(size, part) - 1) else part
  }

  /** Both sides expect the size the part has, and no part is empty. */
  lemma SizesAgree(data: Bytes, part: nat, i: nat)
    requires part > 0 && i < PartCount(|data|, part)
    ensures i * part <= |data|
    ensures ExpectedSize(|data|, part, i) == ReaderSize(|data|, part, i) == |PartBytes(data, part, i)|
    ensures 0 < |PartBytes(data, part, i)| <= part
  {
    PartStarts(|data|, part, i);
  }

  /** `{index:02d}` and `padStart(2, "0")`. */
  function Padded(index: nat): string {
    if |Digits(index)| < 2 then "0" + Digits(index) else Digits(index)
  }

  function PartName(name: string, index: nat): string {
    name + ".part-" + Padded(index)
  }

  lemma PaddedValue(index: nat)
    ensures AllDigits(Padded(index)) && Value(Padded(index)) == index
  {
    ValueOfDigits(index);
    if |Digits(index)| < 2 {
      var s := "0" + Digits(index);
      assert s[..1] == "0" && s[..1][..0] == "";
      assert Digits(index)[..0] == "";
      assert Value("0") == 0;
    }
  }

  /** Two digits up to part 99, and no more than needed from there on. */
  lemma PaddedLength(index: nat)
    ensures index < 100 ==> Padded(index) == [DigitChar(index / 10), DigitChar(index % 10)]
    ensures index >= 100 ==> Padded(index) == Digits(index) && |Padded(index)| >= 3
  {
    if index >= 100 {
      assert |Digits(index / 10)| >= 2;
    } else if index >= 10 {
      assert Digits(index / 10) == [DigitChar(index / 10)];
    }
  }

  /** Parts of one object never share a name. */
  lemma PartNamesDiffer(name: string, i: nat, j: nat)
    requires PartName(name, i) == PartName(name, j)
    ensures i == j
  {
    var prefix := name + ".part-";
    assert PartName(name, i)[|prefix|..] == Padded(i);
    assert PartName(name, j)[|prefix|..] == Padded(j);
    PaddedValue(i);
    PaddedValue(j);
  }

  // ----- the TypeScript count, with its floating-point division

  /** `y` is the double nearest to `a / b`.  Its relative error is at most 2^-53 - written here without division,
      both sides multiplied by `b` - and it lies on the same side of every integer, since integers up to 2^53
      are doubles. */
  ghost predicate NearestDouble(a: nat, b: nat, y: real)
    requires b > 0
  {
    var error := y * b as real - a as real;
    && -(a as real) <= error * 9007199254740992.0 <= a as real
    && (forall k: int {:trigger k * b} :: k * b <= a ==> k as real <= y)
    && (forall k: int {:trigger k * b} :: a <= k * b ==> y <= k as real)
  }

  function Ceiling(y: real): int {
    -((-y).Floor)
  }

  lemma TimesMonotone(u: real, v: real, b: real)
    requires u <= v && b >= 0.0
    ensures u * b <= v * b
  {
  }

  lemma ProductAsReal(a: int, b: int)
    ensures (a * b) as real == a as real * b as real
  {
  }

  /** The quotient misses the next lower integer by at least `1 / part`, which is more than the rounding error of
      any size below 2^53. */
  lemma OneLessIsTooFew(size: nat, part: nat, less: int, y: real)
    requires size <= MAX_SAFE && part > 0 && less * part <= size - 1
    requires -(size as real) <= (y * part as real - size as real) * 9007199254740992.0
    ensures less as real < y
  {
    if y <= less as real {
      TimesMonotone(y, less as real, part as real);
      ProductAsReal(less, part);
      assert false;
    }
  }

  /** For sizes JavaScript can hold exactly, rounding the quotient never changes the number of parts. */
  lemma CeilingIsExact(size: nat, part: nat, y: real)
    requires 0 < size <= MAX_SAFE && part > 0 && NearestDouble(size, part, y)
    ensures Ceiling(y) == PartCount(size, part)
  {
    var count := PartCount(size, part);
    CountBounds(size, part);
    assert (count - 1) * part == count * part - part;
    OneLessIsTooFew(size, part, count - 1, y);
    assert y <= count as real;
  }

  // ----- splitting

  function Min(a: nat, b: nat): nat {
    if a < b then a else b
  }

  /** A read of at most `request` bytes: any positive number of them, none only at the end. */
  method Read(data: Bytes, pos: nat, request: nat, wish: nat) returns (block: Bytes)
    requires pos <= |data| && request > 0
    ensures block == [] <==> pos == |data|
    ensures |block| <= request && pos + |block| <= |data| && block == data[pos..pos + |block|]
  {
    var most := Min(request, |data| - pos);
    var n := if most == 0 then 0 else if wish == 0 then 1 else Min(wish, most);
    block := data[pos..pos + n];
  }

  /** One part: count down `remaining` until it is used up or the file ends. */
  method ReadPart(data: Bytes, pos: nat, part: nat, wish: nat -> nat) returns (out: Bytes)
    requires pos <= |data|
    ensures out == data[pos..Min(pos + part, |data|)]
  {
    out := [];
    var remaining := part;
    while remaining > 0
      invariant 0 <= remaining && |out| + remaining == part && pos + |out| <= |data|
      invariant out == data[pos..pos + |out|]
    {
      var block := Read(data, pos + |out|, Min(BUFFER_BYTES, remaining), wish(pos + |out|));
      if block == [] {
        break;
      }
      out := out + block;
      remaining := remaining - |block|;
    }
  }

  /** The split loop of `pack`: part `i` holds exactly the bytes from `i * part` on. */
  method PackParts(data: Bytes, part: nat, wish: nat -> nat) returns (parts: seq<Bytes>)
    requires part > 0
    ensures |parts| == PartCount(|data|, part)
    ensures forall i :: 0 <= i < |parts| ==> i * part <= |data| && parts[i] == PartBytes(data, part, i)
  {
    parts := [];
    var pos := 0;
    var count := PartCount(|data|, part);
    for i := 0 to count
      invariant |parts| == i && pos == Min(i * part, |data|)
      invariant forall j :: 0 <= j < i ==> j * part <= |data| && parts[j] == PartBytes(data, part, j)
    {
      PartStarts(|data|, part, i);
      var block := ReadPart(data, pos, part, wish);
      parts := parts + [block];
      assert (i + 1) * part == i * part + part;
      pos := pos + |block|;
    }
  }

  // ----- reassembly

  function Concat(parts: seq<Bytes>): Bytes {
    if parts == [] then [] else Concat(parts[..|parts| - 1]) + parts[|parts| - 1]
  }

  ghost predicate ArePartsOf(parts: seq<Bytes>, data: Bytes, part: nat)
    requires part > 0
  {
    && |parts| == PartCount(|data|, part)
    && forall i :: 0 <= i < |parts| ==> i * part <= |data| && parts[i] == PartBytes(data, part, i)
  }

  lemma {:induction false} ConcatOfFirst(parts: seq<Bytes>, data: Bytes, part: nat, n: nat)
    requires part > 0 && ArePartsOf(parts, data, part) && n <= |parts|
    ensures Concat(parts[..n]) == data[..Min(n * part, |data|)]
  {
    if n > 0 {
      ConcatOfFirst(parts, data, part, n - 1);
      PartStarts(|data|, part, n - 1);
      assert parts[..n][..n - 1] == parts[..n - 1];
      assert n * part == (n - 1) * part + part;
      assert parts[n - 1] == PartBytes(data, part, n - 1);
    }
  }

  /** The parts of an object, put together, are the object. */
  lemma ConcatOfParts(parts: seq<Bytes>, data: Bytes, part: nat)
    requires part > 0 && ArePartsOf(parts, data, part)
    ensures Concat(parts) == data
  {
    ConcatOfFirst(parts, data, part, |parts|);
    CountBounds(|data|, part);
    assert parts[..|parts|] == parts;
  }

  /** `shutil.copyfileobj`, and the read loop of the TypeScript reader. */
  method CopyFile(source: Bytes, wish: nat -> nat) returns (out: Bytes)
    ensures out == source
  {
    out := [];
    while true
      invariant |out| <= |source| && out == source[..|out|]
      decreases |source| - |out|
    {
      var block := Read(source, |out|, BUFFER_BYTES, wish(|out|));
      if block == [] {
        break;
      }
      out := out + block;
    }
  }

  /** The reassembly of `verify`: each part must have its expected size and the whole the recorded digest. */
  method Reassemble<D(==)>(parts: seq<Bytes>, size: nat, part: nat, digest: Bytes -> D, recorded: D, wish: nat -> nat)
    returns (r: Result<Bytes>)
    requires part > 0 && |parts| == PartCount(size, part)
    ensures r.Ok? <==> && (forall i :: 0 <= i < |parts| ==> |parts[i]| == ExpectedSize(size, part, i))
                       && |Concat(parts)| == size && digest(Concat(parts)) == recorded
    ensures r.Ok? ==> r.value == Concat(parts)
  {
    var out: Bytes := [];
    for i := 0 to |parts|
      invariant forall j :: 0 <= j < i ==> |parts[j]| == ExpectedSize(size, part, j)
      invariant out == Concat(parts[..i])
    {
      if |parts[i]| != ExpectedSize(size, part, i) {
        return Err;
      }
      var copied := CopyFile(parts[i], wish);
      out := out + copied;
      assert parts[..i + 1][..i] == parts[..i];
    }
    assert parts[..|parts|] == parts;
    r := if |out| == size && digest(out) == recorded then Ok(out) else Err;
  }

  /** What Python packs, Python verifies: for every object and part size. */
  lemma PackedPartsVerify(parts: seq<Bytes>, data: Bytes, part: nat)
    requires part > 0 && ArePartsOf(parts, data, part)
    ensures forall i :: 0 <= i < |parts| ==> |parts[i]| == ExpectedSize(|data|, part, i)
    ensures Concat(parts) == data
  {
    ConcatOfParts(parts, data, part);
    forall i | 0 <= i < |parts|
      ensures |parts[i]| == ExpectedSize(|data|, part, i)
    {
      SizesAgree(data, part, i);
    }
  }

  // ----- the TypeScript reader

  /** A part after the fetch step: an oversized leftover is dropped if it can be, a short one continued, one of the
      right size kept. */
  function Fetched(local: Option<Bytes>, remote: Bytes, size: int, removes: bool): Bytes {
    if local.None? then remote
    else if |local.value| > size then if removes then remote else local.value
    else if |local.value| == size then local.value
    else if |local.value| <= |remote| then local.value + remote[|local.value|..]
    else local.value
  }

  function AllFetched(local: seq<Option<Bytes>>, remote: seq<Bytes>, size: nat, part: nat, removes: nat -> bool): (r: seq<Bytes>)
    requires part > 0 && |local| == |remote| == PartCount(size, part)
    ensures |r| == |remote|
  {
    seq(|remote|, i requires 0 <= i < |remote| => Fetched(local[i], remote[i], ReaderSize(size, part, i), removes(i)))
  }

  /** Every fetched part has its size. */
  ghost predicate SizesRight(parts: seq<Bytes>, size: nat, part: nat)
    requires part > 0
  {
    forall i :: 0 <= i < |parts| ==> |parts[i]| == ReaderSize(size, part, i)
  }

  /** What stays on disk when part `bad` has the wrong size: the parts fetched up to it, and the leftovers after. */
  ghost predicate LeftFrom(left: seq<Option<Bytes>>, local: seq<Option<Bytes>>, fetched: seq<Bytes>, bad: nat)
    requires bad < |fetched| == |local|
  {
    |left| == |local| && forall i :: 0 <= i < |local| ==> left[i] == if i <= bad then Some(fetched[i]) else local[i]
  }

  /** What stays on disk once all parts were put together: those that could not be deleted. */
  function Undeleted(fetched: seq<Bytes>, removes: nat -> bool): seq<Option<Bytes>> {
    seq(|fetched|, i requires 0 <= i < |fetched| => if removes(i) then None else Some(fetched[i]))
  }

  /** `assembleChunkedObject`: `local` is what earlier attempts left, `remote` what the store serves, `removes` says
      which parts can be deleted, `left` is what this attempt leaves. */
  method AssembleChunked<D(==)>(local: seq<Option<Bytes>>, remote: seq<Bytes>, size: nat, part: nat,
                                digest: Bytes -> D, recorded: D, removes: nat -> bool, wish: nat -> nat)
    returns (r: Result<Bytes>, left: seq<Option<Bytes>>)
    requires part > 0 ==> |local| == |remote| == PartCount(size, part)
    ensures size == 0 || part == 0 ==> r == Err && left == local
    ensures size > 0 && part > 0 ==>
              var parts := AllFetched(local, remote, size, part, removes);
              && (r.Ok? <==> SizesRight(parts, size, part) && |Concat(parts)| == size && digest(Concat(parts)) == recorded)
              && (r.Ok? ==> r.value == Concat(parts))
              && (if SizesRight(parts, size, part) then left == Undeleted(parts, removes)
                  else exists bad :: 0 <= bad < |local| && LeftFrom(left, local, parts, bad))
  {
    if size == 0 || part == 0 {
      return Err, local;
    }
    ghost var fetched := AllFetched(local, remote, size, part, removes);
    var parts: seq<Bytes> := [];
    left := local;
    for i := 0 to |remote|
      invariant |parts| == i && parts == fetched[..i]
      invariant forall j :: 0 <= j < i ==> |parts[j]| == ReaderSize(size, part, j)
      invariant |left| == |local| && forall j :: 0 <= j < |local| ==> left[j] == if j < i then Some(fetched[j]) else local[j]
    {
      var file := Fetched(local[i], remote[i], ReaderSize(size, part, i), removes(i));
      left := left[i := Some(file)];
      if |file| != ReaderSize(size, part, i) {
        assert |fetched[i]| != ReaderSize(size, part, i);
        assert LeftFrom(left, local, fetched, i);
        return Err, left;
      }
      parts := parts + [file];
    }
    assert parts == fetched;
    var out := JoinFiles(parts, wish);
    left := Undeleted(parts, removes);
    r := if |out| == size && digest(out) == recorded then Ok(out) else Err;
  }

  method JoinFiles(parts: seq<Bytes>, wish: nat -> nat) returns (out: Bytes)
    ensures out == Concat(parts)
  {
    out := [];
    for i := 0 to |parts|
      invariant out == Concat(parts[..i])
    {
      var copied := CopyFile(parts[i], wish);
      out := out + copied;
      assert parts[..i + 1][..i] == parts[..i];
    }
    assert parts[..|parts|] == parts;
  }

  /** What Python packed the TypeScript reader puts together again, whatever honest leftovers it resumes from. */
  lemma ReaderRestoresObject(local: seq<Option<Bytes>>, remote: seq<Bytes>, data: Bytes, part: nat, removes: nat -> bool)
    requires part > 0 && ArePartsOf(remote, data, part) && |local| == |remote|
    requires forall i :: 0 <= i < |local| && local[i].Some? ==> local[i].value <= remote[i]
    ensures AllFetched(local, remote, |data|, part, removes) == remote
    ensures SizesRight(remote, |data|, part)
    ensures Concat(remote) == data
  {
    ConcatOfParts(remote, data, part);
    forall i | 0 <= i < |remote|
      ensures |remote[i]| == ReaderSize(|data|, part, i)
    {
      SizesAgree(data, part, i);
    }
    forall i | 0 <= i < |remote|
      ensures Fetched(local[i], remote[i], ReaderSize(|data|, part, i), removes(i)) == remote[i]
    {
    }
  }

  /** Every leftover that is too long can be deleted. */
  ghost predicate OversizedGo(local: seq<Option<Bytes>>, size: nat, part: nat, removes: nat -> bool)
    requires part > 0
  {
    forall i :: 0 <= i < |local| ==> local[i].Some? && |local[i].value| > ReaderSize(size, part, i) ==> removes(i)
  }

  /** From a store with the right parts every part ends with its size exactly when the oversized leftovers go. */
  lemma HonestSizes(local: seq<Option<Bytes>>, remote: seq<Bytes>, data: Bytes, part: nat, removes: nat -> bool)
    requires part > 0 && ArePartsOf(remote, data, part) && |local| == |remote|
    ensures SizesRight(AllFetched(local, remote, |data|, part, removes), |data|, part) <==> OversizedGo(local, |data|, part, removes)
  {
    var fetched := AllFetched(local, remote, |data|, part, removes);
    forall i | 0 <= i < |remote|
      ensures |fetched[i]| == ReaderSize(|data|, part, i) <==>
              (local[i].Some? && |local[i].value| > ReaderSize(|data|, part, i) ==> removes(i))
    {
      RemoteSize(remote, data, part, i);
      FetchedSize(local[i], remote[i], ReaderSize(|data|, part, i), removes(i));
    }
  }

  lemma RemoteSize(remote: seq<Bytes>, data: Bytes, part: nat, i: nat)
    requires part > 0 && ArePartsOf(remote, data, part) && i < |remote|
    ensures |remote[i]| == ReaderSize(|data|, part, i)
  {
    SizesAgree(data, part, i);
    assert remote[i] == PartBytes(data, part, i);
  }

  lemma FetchedSize(local: Option<Bytes>, remote: Bytes, size: int, removes: bool)
    requires |remote| == size
    ensures |Fetched(local, remote, size, removes)| == size <==> (local.Some? && |local.value| > size ==> removes)
  {
  }

  // ----- trying again

  /** Parts of the same sizes make the same object only if they are the same. */
  lemma {:induction false} SameObjectSameParts(a: seq<Bytes>, b: seq<Bytes>)
    requires |a| == |b| && (forall i :: 0 <= i < |a| ==> |a[i]| == |b[i]|) && Concat(a) == Concat(b)
    ensures a == b
  {
    if a != [] {
      var n := |a| - 1;
      SameSizeSameLength(a[..n], b[..n]);
      assert Concat(a)[..|Concat(a[..n])|] == Concat(a[..n]) && Concat(b)[..|Concat(a[..n])|] == Concat(b[..n]);
      SameObjectSameParts(a[..n], b[..n]);
      assert Concat(a)[|Concat(a[..n])|..] == a[n] && Concat(b)[|Concat(a[..n])|..] == b[n];
      assert a == a[..n] + [a[n]] && b == b[..n] + [b[n]];
    }
  }

  lemma {:induction false} SameSizeSameLength(a: seq<Bytes>, b: seq<Bytes>)
    requires |a| == |b| && forall i :: 0 <= i < |a| ==> |a[i]| == |b[i]|
    ensures |Concat(a)| == |Concat(b)|
  {
    if a != [] {
      SameSizeSameLength(a[..|a| - 1], b[..|b| - 1]);
    }
  }

  /** The next attempt fetches anew what could be deleted and keeps what could not. */
  lemma NextFetch(fetched: seq<Bytes>, remote: seq<Bytes>, data: Bytes, part: nat, removes: nat -> bool, removes': nat -> bool, i: nat)
    requires part > 0 && ArePartsOf(remote, data, part) && |fetched| == |remote| && SizesRight(fetched, |data|, part) && i < |remote|
    ensures var next := AllFetched(Undeleted(fetched, removes), remote, |data|, part, removes');
            && next[i] == (if removes(i) then remote[i] else fetched[i])
            && |next[i]| == ReaderSize(|data|, part, i) == |remote[i]|
  {
    RemoteSize(remote, data, part, i);
    assert |fetched[i]| == ReaderSize(|data|, part, i);
    var local := Undeleted(fetched, removes);
    assert local[i] == if removes(i) then None else Some(fetched[i]);
    assert AllFetched(local, remote, |data|, part, removes')[i] == Fetched(local[i], remote[i], ReaderSize(|data|, part, i), removes'(i));
  }

  /** Everything wrong that was fetched can be deleted. */
  ghost predicate WrongPartsGo(fetched: seq<Bytes>, remote: seq<Bytes>, removes: nat -> bool)
    requires |fetched| == |remote|
  {
    forall i :: 0 <= i < |remote| ==> removes(i) || fetched[i] == remote[i]
  }

  /** So the next attempt puts the object together exactly when every wrong part could be deleted. */
  lemma NextAttempt(fetched: seq<Bytes>, remote: seq<Bytes>, data: Bytes, part: nat, removes: nat -> bool, removes': nat -> bool)
    requires part > 0 && ArePartsOf(remote, data, part) && |fetched| == |remote| && SizesRight(fetched, |data|, part)
    ensures var next := AllFetched(Undeleted(fetched, removes), remote, |data|, part, removes');
            SizesRight(next, |data|, part) && (Concat(next) == data <==> WrongPartsGo(fetched, remote, removes))
  {
    var next := AllFetched(Undeleted(fetched, removes), remote, |data|, part, removes');
    ConcatOfParts(remote, data, part);
    forall i | 0 <= i < |remote|
      ensures next[i] == (if removes(i) then remote[i] else fetched[i])
      ensures |next[i]| == ReaderSize(|data|, part, i) == |remote[i]|
    {
      NextFetch(fetched, remote, data, part, removes, removes', i);
    }
    if WrongPartsGo(fetched, remote, removes) {
      assert next == remote;
    }
    if Concat(next) == data {
      SameObjectSameParts(next, remote);
    }
  }

  // ----- end to end

  /** Packed and verified on the Python side: always accepted, and the object comes back. */
  method PackAndVerify<D(==)>(data: Bytes, part: nat, digest: Bytes -> D, wish: nat -> nat) returns (r: Result<Bytes>)
    requires part > 0
    ensures r == Ok(data)
  {
    var parts := PackParts(data, part, wish);
    PackedPartsVerify(parts, data, part);
    r := Reassemble(parts, |data|, part, digest, digest(data), wish);
  }

  /** Packed in Python and downloaded twice by the TypeScript reader, `removes` saying what the first attempt can
      delete.  From honest leftovers the first attempt gives the object.  Whatever the leftovers, an attempt that is
      accepted has the size and digest of the object.  If the first is refused although no oversized leftover stayed
      in its way, the second gives the object exactly when every wrong part could be deleted. */
  method PackAndDownload<D(==)>(data: Bytes, part: nat, local: seq<Option<Bytes>>, digest: Bytes -> D, removes: nat -> bool,
                                removes': nat -> bool, wish: nat -> nat)
    returns (parts: seq<Bytes>, first: Result<Bytes>, second: Result<Bytes>)
    requires data != [] && part > 0 && |local| == PartCount(|data|, part)
    ensures ArePartsOf(parts, data, part)
    ensures first.Ok? ==> |first.value| == |data| && digest(first.value) == digest(data)
    ensures (forall i :: 0 <= i < |local| && local[i].Some? ==> local[i].value <= parts[i]) ==> first == Ok(data)
    ensures !OversizedGo(local, |data|, part, removes) ==> first == Err
    ensures first == Err && OversizedGo(local, |data|, part, removes) ==>
              (second == Ok(data) <==> WrongPartsGo(AllFetched(local, parts, |data|, part, removes), parts, removes))
  {
    parts := PackParts(data, part, wish);
    HonestSizes(local, parts, data, part, removes);
    if forall i :: 0 <= i < |local| && local[i].Some? ==> local[i].value <= parts[i] {
      ReaderRestoresObject(local, parts, data, part, removes);
    }
    var left;
    first, left := AssembleChunked(local, parts, |data|, part, digest, digest(data), removes, wish);
    second := first;
    if first.Err? {
      if OversizedGo(local, |data|, part, removes) {
        NextAttempt(AllFetched(local, parts, |data|, part, removes), parts, data, part, removes, removes');
      }
      var rest;
      second, rest := AssembleChunked(left, parts, |data|, part, digest, digest(data), removes', wish);
    }
  }
}
