/** Realm proposer rotation: a 90-round swap-or-not schedule over an arbitrary hash, seeded per epoch
    (parth_common/src/realm_rotation.rs). */
module Rotation {
  import opened Wrappers

  const FIELD_ORDER: nat := 0xffff_ffff_0000_0001
  const SCHEDULE_DOMAIN: nat := 0x3230_544f_5259_5350
  const PIVOT_DOMAIN: nat := 0x3130_5654_4f56_4950
  const SOURCE_DOMAIN: nat := 0x3130_4543_5255_4f53
  const U32: nat := 0x1_0000_0000
  const U64: nat := 0x1_0000_0000_0000_0000
  const ROUNDS: nat := 90

  /** The four canonical field elements of a hash, or of an anchor seed. */
  datatype Felts = Felts(f0: nat, f1: nat, f2: nat, f3: nat)

  datatype Config = Config(checkpointsPerEpoch: nat, validators: seq<nat>)

  predicate IsEnabled(c: Config) {
    c.checkpointsPerEpoch > 0 && c.validators != []
  }

  /** `PF::from_u64_value`: reduction into the field. */
  function Felt(x: nat): nat {
    x % FIELD_ORDER
  }

  predicate Canonical(s: Felts) {
    s.f0 < FIELD_ORDER && s.f1 < FIELD_ORDER && s.f2 < FIELD_ORDER && s.f3 < FIELD_ORDER
  }

  // ----- one round

  function Max(a: nat, b: nat): nat {
    if a < b then b else a
  }

  function Flip(n: nat, pivot: nat, index: nat): (flip: nat)
    requires pivot < n && index < n
    ensures flip < n
  {
    (pivot + n - index) % n
  }

  /** One swap-or-not round: the index and its mirror about the pivot swap or stay, as one bit decides. */
  function Round(n: nat, pivot: nat, bit: nat -> bool, index: nat): (r: nat)
    requires pivot < n && index < n
    ensures r < n
  {
    var flip := Flip(n, pivot, index);
    if bit(Max(index, flip)) then flip else index
  }

  lemma Wrap(a: nat, n: nat)
    requires n <= a < 2 * n
    ensures a % n == a - n
  {
    var q := a / n;
    assert a == q * n + a % n;
    if q >= 2 {
      Monotone(2, q, n);
      assert false;
    }
  }

  lemma NoWrap(a: nat, n: nat)
    requires a < n
    ensures a % n == a
  {
  }

  lemma FlipIsMirror(n: nat, pivot: nat, index: nat)
    requires pivot < n && index < n
    ensures Flip(n, pivot, index) == if index <= pivot then pivot - index else pivot + n - index
  {
    if index <= pivot {
      Wrap(pivot + n - index, n);
    } else {
      NoWrap(pivot + n - index, n);
    }
  }

  lemma FlipIsInvolution(n: nat, pivot: nat, index: nat)
    requires pivot < n && index < n
    ensures Flip(n, pivot, Flip(n, pivot, index)) == index
  {
    FlipIsMirror(n, pivot, index);
    FlipIsMirror(n, pivot, Flip(n, pivot, index));
  }

  /** Whatever the pivot and the bits, a round undoes itself. */
  lemma RoundIsInvolution(n: nat, pivot: nat, bit: nat -> bool, index: nat)
    requires pivot < n && index < n
    ensures Round(n, pivot, bit, Round(n, pivot, bit, index)) == index
  {
    FlipIsInvolution(n, pivot, index);
  }

  /** Two validators whose positions add up to the pivot, around the circle, change places when the bit of the later
      position is set, and stay when it is clear. */
  lemma RoundSwapsMirrors(n: nat, pivot: nat, bit: nat -> bool, i: nat, j: nat)
    requires pivot < n && i < n && j < n && (i + j) % n == pivot
    ensures Round(n, pivot, bit, i) == if bit(if i < j then j else i) then j else i
  {
    FlipIsMirror(n, pivot, i);
    if i + j < n {
      NoWrap(i + j, n);
    } else {
      Wrap(i + j, n);
    }
  }

  // ----- all rounds

  /** The pivots and source bits of a schedule. */
  datatype Schedule = Schedule(pivot: nat -> nat, bit: (nat, nat) -> bool)

  function RoundOf(n: nat, s: Schedule, round: nat, index: nat): (r: nat)
    requires index < n
    ensures r < n
  {
    Round(n, s.pivot(round) % n, (position: nat) => s.bit(round, position), index)
  }

  lemma RoundOfIsInvolution(n: nat, s: Schedule, round: nat, index: nat)
    requires index < n
    ensures RoundOf(n, s, round, RoundOf(n, s, round, index)) == index
  {
    RoundIsInvolution(n, s.pivot(round) % n, (position: nat) => s.bit(round, position), index);
  }

  function Shuffle(n: nat, s: Schedule, rounds: nat, index: nat): (r: nat)
    requires index < n
    ensures r < n
  {
    if rounds == 0 then index else RoundOf(n, s, rounds - 1, Shuffle(n, s, rounds - 1, index))
  }

  /** The rounds in reverse. */
  function Unshuffle(n: nat, s: Schedule, rounds: nat, index: nat): (r: nat)
    requires index < n
    ensures r < n
  {
    if rounds == 0 then index else Unshuffle(n, s, rounds - 1, RoundOf(n, s, rounds - 1, index))
  }

  lemma {:induction false} UnshuffleUndoes(n: nat, s: Schedule, rounds: nat, index: nat)
    requires index < n
    ensures Unshuffle(n, s, rounds, Shuffle(n, s, rounds, index)) == index
  {
    if rounds > 0 {
      RoundOfIsInvolution(n, s, rounds - 1, Shuffle(n, s, rounds - 1, index));
      UnshuffleUndoes(n, s, rounds - 1, index);
    }
  }

  lemma {:induction false} ShuffleUndoes(n: nat, s: Schedule, rounds: nat, index: nat)
    requires index < n
    ensures Shuffle(n, s, rounds, Unshuffle(n, s, rounds, index)) == index
  {
    if rounds > 0 {
      ShuffleUndoes(n, s, rounds - 1, RoundOf(n, s, rounds - 1, index));
      RoundOfIsInvolution(n, s, rounds - 1, index);
    }
  }

  /** For every schedule the rounds compose to a permutation of the validators, inverted by running them in
      reverse: each index is reached from exactly one. */
  lemma ShuffleIsPermutation(n: nat, s: Schedule, rounds: nat)
    ensures forall i, j :: 0 <= i < j < n ==> Shuffle(n, s, rounds, i) != Shuffle(n, s, rounds, j)
    ensures forall k :: 0 <= k < n ==> Shuffle(n, s, rounds, Unshuffle(n, s, rounds, k)) == k
  {
    forall i, j | 0 <= i < j < n
      ensures Shuffle(n, s, rounds, i) != Shuffle(n, s, rounds, j)
    {
      UnshuffleUndoes(n, s, rounds, i);
      UnshuffleUndoes(n, s, rounds, j);
    }
    forall k | 0 <= k < n
      ensures Shuffle(n, s, rounds, Unshuffle(n, s, rounds, k)) == k
    {
      ShuffleUndoes(n, s, rounds, k);
    }
  }

  /** If no bit is set nobody moves. */
  lemma {:induction false} ClearBitsMoveNobody(n: nat, s: Schedule, rounds: nat, index: nat)
    requires index < n && forall round, position :: !s.bit(round, position)
    ensures Shuffle(n, s, rounds, index) == index
  {
    if rounds > 0 {
      ClearBitsMoveNobody(n, s, rounds - 1, index);
    }
  }

  // ----- epochs

  function Epoch(checkpoint: nat, period: nat): nat
    requires period > 0
  {
    checkpoint / period
  }

  /** The product with a saturating subtraction of one. */
  function AnchorCheckpoint(epoch: nat, period: nat): nat {
    if epoch * period == 0 then 0 else epoch * period - 1
  }

  lemma EpochBounds(checkpoint: nat, period: nat)
    requires period > 0
    ensures Epoch(checkpoint, period) * period <= checkpoint < Epoch(checkpoint, period) * period + period
  {
  }

  lemma EpochIs(checkpoint: nat, period: nat, e: nat)
    requires period > 0 && e * period <= checkpoint < e * period + period
    ensures Epoch(checkpoint, period) == e
  {
    var q := checkpoint / period;
    EpochBounds(checkpoint, period);
    if q < e {
      Monotone(q + 1, e, period);
    } else if q > e {
      Monotone(e + 1, q, period);
    }
  }

  lemma Monotone(a: nat, b: nat, p: nat)
    requires a <= b
    ensures a * p <= b * p
  {
  }

  /** For every 64-bit checkpoint the anchor of its epoch can be computed without overflow, is the last
      checkpoint of the previous epoch - checkpoint 0 for the first - and lies before every checkpoint of
      its own epoch. */
  lemma AnchorPrecedesEpoch(checkpoint: nat, period: nat, other: nat)
    requires period > 0 && checkpoint < U64
    requires Epoch(other, period) == Epoch(checkpoint, period)
    ensures var e := Epoch(checkpoint, period);
            var anchor := AnchorCheckpoint(e, period);
            && e * period < U64
            && (e == 0 ==> anchor == 0)
            && (e > 0 ==> anchor < other && Epoch(anchor, period) == e - 1 && Epoch(anchor + 1, period) == e)
  {
    var e := Epoch(checkpoint, period);
    EpochBounds(checkpoint, period);
    EpochBounds(other, period);
    if e > 0 {
      assert (e - 1) * period == e * period - period;
      Monotone(1, e, period);
      EpochIs(e * period - 1, period, e - 1);
      EpochIs(e * period, period, e);
    }
  }

  // ----- the seed

  /** The field elements hashed into the schedule seed: the epoch goes in as two 32-bit halves. */
  function SeedInput(realm: nat, epoch: nat, anchor: Felts): seq<nat> {
    [Felt(SCHEDULE_DOMAIN), Felt(realm), Felt(epoch % U32), Felt(epoch / U32),
     Felt(anchor.f0), Felt(anchor.f1), Felt(anchor.f2), Felt(anchor.f3)]
  }

  /** Different realms, epochs or canonical anchor seeds are never hashed as the same field elements. */
  lemma SeedInputIsInjective(realm: nat, epoch: nat, anchor: Felts, realm': nat, epoch': nat, anchor': Felts)
    requires realm < U32 && epoch < U64 && Canonical(anchor)
    requires realm' < U32 && epoch' < U64 && Canonical(anchor')
    requires SeedInput(realm, epoch, anchor) == SeedInput(realm', epoch', anchor')
    ensures realm == realm' && epoch == epoch' && anchor == anchor'
  {
    var a, b := SeedInput(realm, epoch, anchor), SeedInput(realm', epoch', anchor');
    FeltsOfSmall(realm, epoch, anchor);
    FeltsOfSmall(realm', epoch', anchor');
    assert a[1] == b[1] && a[2] == b[2] && a[3] == b[3] && a[4] == b[4] && a[5] == b[5] && a[6] == b[6] && a[7] == b[7];
    assert epoch == U32 * (epoch / U32) + epoch % U32;
    assert epoch' == U32 * (epoch' / U32) + epoch' % U32;
  }

  lemma SmallFelt(x: nat)
    requires x < FIELD_ORDER
    ensures Felt(x) == x
  {
  }

  lemma FeltsOfSmall(realm: nat, epoch: nat, anchor: Felts)
    requires realm < U32 && epoch < U64 && Canonical(anchor)
    ensures var a := SeedInput(realm, epoch, anchor);
            a[1] == realm && a[2] == epoch % U32 && a[3] == epoch / U32
            && a[4] == anchor.f0 && a[5] == anchor.f1 && a[6] == anchor.f2 && a[7] == anchor.f3
  {
    assert epoch / U32 < U32;
    SmallFelt(realm);
    SmallFelt(epoch % U32);
    SmallFelt(epoch / U32);
    SmallFelt(anchor.f0);
    SmallFelt(anchor.f1);
    SmallFelt(anchor.f2);
    SmallFelt(anchor.f3);
  }

  /** The schedule a hash function derives from a seed. */
  function ScheduleOf(hash: seq<nat> -> Felts, seed: Felts): Schedule {
    Schedule((round: nat) => hash([Felt(PIVOT_DOMAIN), seed.f0, seed.f1, seed.f2, seed.f3, Felt(round)]).f0 % U32,
             (round: nat, position: nat) =>
               hash([Felt(SOURCE_DOMAIN), seed.f0, seed.f1, seed.f2, seed.f3, Felt(round), Felt(position)]).f0 % 2 == 1)
  }

  function EpochSchedule(hash: seq<nat> -> Felts, realm: nat, epoch: nat, anchor: Felts): Schedule {
    ScheduleOf(hash, hash(SeedInput(realm, epoch, anchor)))
  }

  // ----- the election, in the terms of the protocol

  /** In one round: the hash of the pivot input picks the position's partner, and the hash of the source input, taken
      at the later of the two, decides whether they change places. */
  ghost predicate TurnWith(hash: seq<nat> -> Felts, n: nat, seed: Felts, round: nat, from: nat, to: nat, partner: nat)
    requires n > 0
  {
    var later := if from < partner then partner else from;
    && partner < n
    && (from + partner) % n
       == hash([0x3130_5654_4f56_4950, seed.f0, seed.f1, seed.f2, seed.f3, round]).f0 % 0x1_0000_0000 % n
    && to == if hash([0x3130_4543_5255_4f53, seed.f0, seed.f1, seed.f2, seed.f3, round,
                      later % 0xffff_ffff_0000_0001]).f0 % 2 == 1 then partner else from
  }

  ghost predicate Turn(hash: seq<nat> -> Felts, n: nat, seed: Felts, round: nat, from: nat, to: nat)
    requires n > 0
  {
    exists partner: nat :: TurnWith(hash, n, seed, round, from, to, partner)
  }

  /** The positions through all ninety rounds, from position 0. */
  ghost predicate IsPath(hash: seq<nat> -> Felts, n: nat, seed: Felts, path: seq<nat>)
    requires n > 0
  {
    && |path| == 91 && path[0] == 0 && (forall r :: 0 <= r <= 90 ==> path[r] < n)
    && forall r :: 0 <= r < 90 ==> Turn(hash, n, seed, r, path[r], path[r + 1])
  }

  /** The seed of the epoch a checkpoint lies in. */
  ghost predicate IsSeed(hash: seq<nat> -> Felts, realm: nat, checkpoint: nat, period: nat, anchor: Felts, seed: Felts, epoch: nat) {
    && epoch * period <= checkpoint < epoch * period + period
    && seed == hash([0x3230_544f_5259_5350, realm % 0xffff_ffff_0000_0001, epoch % 0x1_0000_0000,
                     epoch / 0x1_0000_0000 % 0xffff_ffff_0000_0001, anchor.f0, anchor.f1, anchor.f2, anchor.f3])
  }

  ghost predicate Elected(c: Config, hash: seq<nat> -> Felts, realm: nat, checkpoint: nat, anchor: Felts, validator: nat)
    requires IsEnabled(c)
  {
    exists epoch, seed, path :: IsSeed(hash, realm, checkpoint, c.checkpointsPerEpoch, anchor, seed, epoch)
                                && IsPath(hash, |c.validators|, seed, path) && validator == c.validators[path[90]]
  }

  lemma RoundIsTurn(hash: seq<nat> -> Felts, n: nat, seed: Felts, round: nat, index: nat)
    requires index < n && round < ROUNDS
    ensures Turn(hash, n, seed, round, index, RoundOf(n, ScheduleOf(hash, seed), round, index))
  {
    var s := ScheduleOf(hash, seed);
    var pivot := s.pivot(round) % n;
    var partner := Flip(n, pivot, index);
    FlipIsMirror(n, pivot, index);
    if index + partner < n {
      NoWrap(index + partner, n);
    } else {
      Wrap(index + partner, n);
    }
    PivotIs(hash, seed, round);
    BitIs(hash, seed, round, if index < partner then partner else index);
    RoundSwapsMirrors(n, pivot, (position: nat) => s.bit(round, position), index, partner);
    assert TurnWith(hash, n, seed, round, index, RoundOf(n, s, round, index), partner);
  }

  lemma PivotIs(hash: seq<nat> -> Felts, seed: Felts, round: nat)
    requires round < ROUNDS
    ensures ScheduleOf(hash, seed).pivot(round)
         == hash([0x3130_5654_4f56_4950, seed.f0, seed.f1, seed.f2, seed.f3, round]).f0 % 0x1_0000_0000
  {
    SmallFelt(PIVOT_DOMAIN);
    SmallFelt(round);
    assert [Felt(PIVOT_DOMAIN), seed.f0, seed.f1, seed.f2, seed.f3, Felt(round)]
        == [0x3130_5654_4f56_4950, seed.f0, seed.f1, seed.f2, seed.f3, round];
  }

  lemma BitIs(hash: seq<nat> -> Felts, seed: Felts, round: nat, position: nat)
    requires round < ROUNDS
    ensures ScheduleOf(hash, seed).bit(round, position)
        <==> hash([0x3130_4543_5255_4f53, seed.f0, seed.f1, seed.f2, seed.f3, round,
                   position % 0xffff_ffff_0000_0001]).f0 % 2 == 1
  {
    SmallFelt(SOURCE_DOMAIN);
    SmallFelt(round);
    assert [Felt(SOURCE_DOMAIN), seed.f0, seed.f1, seed.f2, seed.f3, Felt(round), Felt(position)]
        == [0x3130_4543_5255_4f53, seed.f0, seed.f1, seed.f2, seed.f3, round, position % 0xffff_ffff_0000_0001];
  }

  lemma SeedIsSeed(hash: seq<nat> -> Felts, realm: nat, checkpoint: nat, period: nat, anchor: Felts)
    requires period > 0 && Canonical(anchor)
    ensures var epoch := Epoch(checkpoint, period);
            IsSeed(hash, realm, checkpoint, period, anchor, hash(SeedInput(realm, epoch, anchor)), epoch)
  {
    var epoch := Epoch(checkpoint, period);
    EpochBounds(checkpoint, period);
    SmallFelt(SCHEDULE_DOMAIN);
    SmallFelt(epoch % U32);
    SmallFelt(anchor.f0);
    SmallFelt(anchor.f1);
    SmallFelt(anchor.f2);
    SmallFelt(anchor.f3);
  }

  ghost function PathOf(n: nat, s: Schedule): seq<nat>
    requires n > 0
  {
    seq(91, r requires 0 <= r < 91 => Shuffle(n, s, r, 0))
  }

  /** Every rotation elects the validator its permutation puts index 0 on. */
  lemma ShuffleElects(c: Config, hash: seq<nat> -> Felts, realm: nat, checkpoint: nat, anchor: Felts)
    requires IsEnabled(c) && Canonical(anchor)
    ensures var s := EpochSchedule(hash, realm, Epoch(checkpoint, c.checkpointsPerEpoch), anchor);
            Elected(c, hash, realm, checkpoint, anchor, c.validators[Shuffle(|c.validators|, s, ROUNDS, 0)])
  {
    var n, epoch := |c.validators|, Epoch(checkpoint, c.checkpointsPerEpoch);
    var seed := hash(SeedInput(realm, epoch, anchor));
    var path := PathOf(n, ScheduleOf(hash, seed));
    SeedIsSeed(hash, realm, checkpoint, c.checkpointsPerEpoch, anchor);
    forall r | 0 <= r < 90
      ensures Turn(hash, n, seed, r, path[r], path[r + 1])
    {
      RoundIsTurn(hash, n, seed, r, path[r]);
    }
    assert IsPath(hash, n, seed, path);
  }

  /** The body of the round loop. */
  method SwapOrNot(n: nat, hash: seq<nat> -> Felts, seed: Felts, round: nat, index: nat) returns (next: nat)
    requires index < n
    ensures next == RoundOf(n, ScheduleOf(hash, seed), round, index)
  {
    next := index;
    var pivotWord := hash([Felt(PIVOT_DOMAIN), seed.f0, seed.f1, seed.f2, seed.f3, Felt(round)]).f0 % U32;
    var pivot := pivotWord % n;
    var flip := (pivot + n - index) % n;
    var position := if index < flip then flip else index;
    var source := hash([Felt(SOURCE_DOMAIN), seed.f0, seed.f1, seed.f2, seed.f3, Felt(round), Felt(position)]).f0;
    if source % 2 == 1 {
      next := flip;
    }
  }

  /** `proposer_sub_id`: the validator the permutation of the checkpoint's epoch puts index 0 on, which is the one
      elected.  It depends on the checkpoint only through its epoch. */
  method ProposerSubId(c: Config, hash: seq<nat> -> Felts, realm: nat, checkpoint: nat, anchor: Felts)
    returns (r: Result<Option<nat>>)
    ensures r == Ok(None) <==> c.checkpointsPerEpoch == 0 || |c.validators| == 0
    ensures r.Err? <==> c.checkpointsPerEpoch > 0 && |c.validators| > 0
                        && (anchor.f0 >= 0xffff_ffff_0000_0001 || anchor.f1 >= 0xffff_ffff_0000_0001
                            || anchor.f2 >= 0xffff_ffff_0000_0001 || anchor.f3 >= 0xffff_ffff_0000_0001)
    ensures IsEnabled(c) && Canonical(anchor) ==>
              var n := |c.validators|;
              var s := EpochSchedule(hash, realm, Epoch(checkpoint, c.checkpointsPerEpoch), anchor);
              r == Ok(Some(c.validators[Shuffle(n, s, ROUNDS, 0)])) && Elected(c, hash, realm, checkpoint, anchor, r.value.value)
  {
    if !IsEnabled(c) {
      return Ok(None);
    }
    if !Canonical(anchor) {
      return Err;
    }
    var n := |c.validators|;
    var epoch := checkpoint / c.checkpointsPerEpoch;
    var seed := hash(SeedInput(realm, epoch, anchor));
    ghost var s := ScheduleOf(hash, seed);
    var index := 0;
    for round := 0 to ROUNDS
      invariant index < n
      invariant index == Shuffle(n, s, round, 0)
    {
      index := SwapOrNot(n, hash, seed, round, index);
    }
    ShuffleElects(c, hash, realm, checkpoint, anchor);
    r := Ok(Some(c.validators[index]));
  }
}
