/** The Strategy5 user id of a registration id (dev/locSetupV4.ts) and the index map built from it
    (dev/jtmbTest.ts). */
module UserIds {
  import opened Wrappers
  import opened Powers

  const USERS_PER_REALM: nat := 0x10_0000
  const BITS: nat := 20
  const REGISTRATIONS: nat := 0x1_0000_0000

  // ----- bits

  ghost predicate AreBits(b: seq<nat>) {
    forall i :: 0 <= i < |b| ==> b[i] < 2
  }

  /** The lowest `n` bits of `x`, lowest first. */
  function Bits(x: nat, n: nat): (b: seq<nat>)
    ensures |b| == n && AreBits(b)
    decreases n, x
  {
    if n == 0 then [] else [x % 2] + Bits(x / 2, n - 1)
  }

  function FromBits(b: seq<nat>): nat {
    if b == [] then 0 else b[0] + 2 * FromBits(b[1..])
  }

  function Backwards(b: seq<nat>): seq<nat> {
    seq(|b|, i requires 0 <= i < |b| => b[|b| - 1 - i])
  }

  lemma {:induction false} FromBitsOfBits(x: nat, n: nat)
    requires x < Pow2(n)
    ensures FromBits(Bits(x, n)) == x
  {
    if n > 0 {
      FromBitsOfBits(x / 2, n - 1);
      assert Bits(x, n)[1..] == Bits(x / 2, n - 1);
    }
  }

  lemma {:induction false} BitsOfFromBits(b: seq<nat>)
    requires AreBits(b)
    ensures FromBits(b) < Pow2(|b|) && Bits(FromBits(b), |b|) == b
  {
    if b != [] {
      BitsOfFromBits(b[1..]);
      assert [b[0]] + b[1..] == b;
    }
  }

  // ----- bit reversal

  /** The loop: shift the result left, move the lowest bit over. */
  function Shifted(acc: nat, x: nat, n: nat): nat
    decreases n, x
  {
    if n == 0 then acc else Shifted(2 * acc + x % 2, x / 2, n - 1)
  }

  function Reverse(x: nat, n: nat): nat {
    Shifted(0, x, n)
  }

  function HighFirst(acc: nat, b: seq<nat>): nat
    decreases |b|
  {
    if b == [] then acc else HighFirst(2 * acc + b[0], b[1..])
  }

  lemma {:induction false} ShiftedReadsBits(acc: nat, x: nat, n: nat)
    ensures Shifted(acc, x, n) == HighFirst(acc, Bits(x, n))
    decreases n
  {
    if n > 0 {
      ShiftedReadsBits(2 * acc + x % 2, x / 2, n - 1);
      assert Bits(x, n)[1..] == Bits(x / 2, n - 1);
    }
  }

  lemma {:induction false} HighFirstSnoc(acc: nat, b: seq<nat>, c: nat)
    ensures HighFirst(acc, b + [c]) == 2 * HighFirst(acc, b) + c
    decreases |b|
  {
    if b == [] {
      assert b + [c] == [c] && [c][1..] == [];
    } else {
      HighFirstSnoc(2 * acc + b[0], b[1..], c);
      assert (b + [c])[1..] == b[1..] + [c];
    }
  }

  lemma {:induction false} HighFirstIsBackwards(b: seq<nat>)
    ensures HighFirst(0, b) == FromBits(Backwards(b))
    decreases |b|
  {
    if b != [] {
      var front, last := b[..|b| - 1], b[|b| - 1];
      HighFirstIsBackwards(front);
      HighFirstSnoc(0, front, last);
      assert b == front + [last];
      assert Backwards(b)[1..] == Backwards(front);
    }
  }

  lemma ReverseIsBackwards(x: nat, n: nat)
    ensures Reverse(x, n) == FromBits(Backwards(Bits(x, n)))
    ensures Reverse(x, n) < Pow2(n)
    ensures Bits(Reverse(x, n), n) == Backwards(Bits(x, n))
  {
    ShiftedReadsBits(0, x, n);
    HighFirstIsBackwards(Bits(x, n));
    BitsOfFromBits(Backwards(Bits(x, n)));
  }

  /** Reversing the bits twice gives the number back. */
  lemma ReverseIsInvolution(x: nat, n: nat)
    requires x < Pow2(n)
    ensures Reverse(x, n) < Pow2(n) && Reverse(Reverse(x, n), n) == x
  {
    ReverseIsBackwards(x, n);
    ReverseIsBackwards(Reverse(x, n), n);
    assert Backwards(Backwards(Bits(x, n))) == Bits(x, n);
    FromBitsOfBits(x, n);
  }

  lemma TwentyBits()
    ensures Pow2(BITS) == USERS_PER_REALM
  {
    assert Pow2(5) == 32 by { assert Pow2(3) == 8; }
    PowAdds(5, 5);
    PowAdds(10, 10);
  }

  lemma {:induction false} PowAdds(a: nat, b: nat)
    ensures Pow2(a + b) == Pow2(a) * Pow2(b)
  {
    if b > 0 {
      PowAdds(a, b - 1);
      assert Pow2(a) * (2 * Pow2(b - 1)) == 2 * (Pow2(a) * Pow2(b - 1));
    }
  }

  // ----- user ids

  function RealmOf(registration: nat): nat {
    registration / (2 * USERS_PER_REALM) * 2 + registration % 2
  }

  function UserIndexOf(registration: nat): nat {
    registration / 2 % USERS_PER_REALM
  }

  function UserId(registration: nat): nat {
    RealmOf(registration) * USERS_PER_REALM + Reverse(UserIndexOf(registration), BITS)
  }

  /** The bit loop. */
  method ReverseBits(x: nat, n: nat) returns (leafIndex: nat)
    ensures leafIndex == Reverse(x, n)
  {
    var userIndex := x;
    leafIndex := 0;
    for bit := 0 to n
      invariant Shifted(leafIndex, userIndex, n - bit) == Shifted(0, x, n)
    {
      leafIndex := leafIndex * 2 + userIndex % 2;
      userIndex := userIndex / 2;
    }
  }

  /** `strategy5UserIdFromRegistrationId`. */
  method UserIdFromRegistrationId(registration: int) returns (r: Result<nat>)
    ensures r == if 0 <= registration < REGISTRATIONS then Ok(UserId(registration)) else Err
  {
    if registration < 0 || registration >= REGISTRATIONS {
      return Err;
    }
    var realm: nat := registration / (2 * USERS_PER_REALM) * 2 + registration % 2;
    var userIndex: nat := registration / 2 % USERS_PER_REALM;
    assert realm == RealmOf(registration) && userIndex == UserIndexOf(registration);
    var leafIndex := ReverseBits(userIndex, BITS);
    assert leafIndex == Reverse(UserIndexOf(registration), BITS);
    r := Ok(realm * USERS_PER_REALM + leafIndex);
  }

  /** The registration a user id belongs to. */
  function Registration(uid: nat): nat {
    var realm := uid / USERS_PER_REALM;
    realm / 2 * (2 * USERS_PER_REALM) + 2 * Reverse(uid % USERS_PER_REALM, BITS) + realm % 2
  }

  lemma DivideBack(realm: nat, leaf: nat)
    requires leaf < USERS_PER_REALM
    ensures (realm * USERS_PER_REALM + leaf) / USERS_PER_REALM == realm
    ensures (realm * USERS_PER_REALM + leaf) % USERS_PER_REALM == leaf
  {
  }

  lemma RealmBound(registration: nat)
    requires registration < REGISTRATIONS
    ensures RealmOf(registration) < 4096
  {
  }

  lemma UserIdParts(registration: nat)
    requires registration < REGISTRATIONS
    ensures UserId(registration) < REGISTRATIONS
    ensures UserId(registration) / USERS_PER_REALM == RealmOf(registration)
    ensures UserId(registration) % USERS_PER_REALM == Reverse(UserIndexOf(registration), BITS)
  {
    TwentyBits();
    ReverseIsBackwards(UserIndexOf(registration), BITS);
    RealmBound(registration);
    DivideBack(RealmOf(registration), Reverse(UserIndexOf(registration), BITS));
  }

  /** The map is a bijection of the 32-bit numbers: the realm comes back by division, the rest by reversing
      the bits again. */
  lemma UserIdRoundTrip(registration: nat)
    requires registration < REGISTRATIONS
    ensures UserId(registration) < REGISTRATIONS && Registration(UserId(registration)) == registration
  {
    TwentyBits();
    UserIdParts(registration);
    ReverseIsInvolution(UserIndexOf(registration), BITS);
    Recompose(registration);
  }

  lemma Recompose(registration: nat)
    ensures RealmOf(registration) / 2 * (2 * USERS_PER_REALM) + 2 * UserIndexOf(registration) + RealmOf(registration) % 2 == registration
  {
  }

  lemma RegistrationRoundTrip(uid: nat)
    requires uid < REGISTRATIONS
    ensures Registration(uid) < REGISTRATIONS && UserId(Registration(uid)) == uid
  {
    TwentyBits();
    var leaf := uid % USERS_PER_REALM;
    ReverseIsInvolution(leaf, BITS);
    RegistrationInRange(uid, Reverse(leaf, BITS));
    UserIdOfParts(uid / USERS_PER_REALM, Reverse(leaf, BITS));
  }

  lemma UserIdOfParts(realm: nat, x: nat)
    requires x < USERS_PER_REALM
    ensures UserId(realm / 2 * (2 * USERS_PER_REALM) + 2 * x + realm % 2) == realm * USERS_PER_REALM + Reverse(x, BITS)
  {
    RegistrationParts(realm, x);
  }

  lemma RegistrationInRange(uid: nat, x: nat)
    requires uid < REGISTRATIONS && x < USERS_PER_REALM
    ensures var realm := uid / USERS_PER_REALM;
            realm / 2 * (2 * USERS_PER_REALM) + 2 * x + realm % 2 < REGISTRATIONS
  {
  }

  lemma RegistrationParts(realm: nat, x: nat)
    requires x < USERS_PER_REALM
    ensures var r := realm / 2 * (2 * USERS_PER_REALM) + 2 * x + realm % 2;
            RealmOf(r) == realm && UserIndexOf(r) == x
  {
    var r := realm / 2 * (2 * USERS_PER_REALM) + 2 * x + realm % 2;
    assert r / (2 * USERS_PER_REALM) == realm / 2;
    assert r % 2 == realm % 2;
    assert r / 2 == realm / 2 * USERS_PER_REALM + x;
  }

  /** The index map of `registerUsers`: it holds exactly the ids of the first `total` registrations, each with
      its own registration, nothing overwritten; beyond the 32-bit numbers it fails. */
  method BuildIndices(total: nat) returns (r: Result<map<nat, nat>>)
    ensures r.Ok? <==> total <= REGISTRATIONS
    ensures r.Ok? ==> forall i :: 0 <= i < total ==> UserId(i) in r.value && r.value[UserId(i)] == i
    ensures r.Ok? ==> forall uid :: uid in r.value ==> r.value[uid] < total && UserId(r.value[uid]) == uid
    ensures r.Ok? ==> |r.value| == total
  {
    var indices: map<nat, nat> := map[];
    for i := 0 to total
      invariant i <= REGISTRATIONS
      invariant forall j :: 0 <= j < i ==> UserId(j) in indices && indices[UserId(j)] == j
      invariant forall uid :: uid in indices ==> indices[uid] < i && UserId(indices[uid]) == uid
      invariant |indices| == i
    {
      var uid := UserIdFromRegistrationId(i);
      if uid.Err? {
        return Err;
      }
      FreshId(i);
      indices := indices[uid.value := i];
    }
    r := Ok(indices);
  }

  lemma FreshId(i: nat)
    requires i < REGISTRATIONS
    ensures forall j :: 0 <= j < i ==> UserId(j) != UserId(i)
  {
    forall j | 0 <= j < i
      ensures UserId(j) != UserId(i)
    {
      UserIdRoundTrip(j);
      UserIdRoundTrip(i);
    }
  }
}
