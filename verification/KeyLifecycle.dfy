/** The life of a customer's API keys: mint, rotate, revoke and the automatic first key, all under
    the customer row lock, and the lazy expiry of unrevealed keys, which does not take it. */
module KeyLifecycle {
  import opened Basics

  const MAX_USABLE_KEYS_PER_CUSTOMER := 3
  const MAX_ACTIVE_KEYS_PER_CUSTOMER := 2
  const ROTATION_OVERLAP := 24 * 3600
  const REVEAL_TOKEN_TTL := 24 * 3600

  datatype Status = Active | Rotating | Revoked

  /** `revealExpiresAt` is set while the encrypted plaintext waits to be revealed. */
  datatype ApiKey = ApiKey(
    status: Status, revokeAt: Option<int>, revokedAt: Option<int>, rotatedFrom: Option<nat>, revealExpiresAt: Option<int>)

  const FRESH := ApiKey(Active, None, None, None, None)

  predicate UnexpiredRotating(k: ApiKey, now: int) {
    k.status == Rotating && k.revokeAt != None && k.revokeAt.value > now
  }

  /** Usable = active, or rotating and not yet past `revoke_at`. */
  predicate Usable(k: ApiKey, now: int) {
    k.status == Active || UnexpiredRotating(k, now)
  }

  ghost predicate NeverUsable(k: ApiKey) { forall t: int :: !Usable(k, t) }

  ghost predicate UsableAlways(k: ApiKey) { k.status == Active && forall t: int :: Usable(k, t) }

  ghost predicate UsableUntil(k: ApiKey, end: int) { forall t: int :: Usable(k, t) <==> t < end }

  function CountActive(keys: seq<ApiKey>): nat {
    if keys == [] then 0 else (if keys[0].status == Active then 1 else 0) + CountActive(keys[1..])
  }

  function CountRotating(keys: seq<ApiKey>, now: int): nat {
    if keys == [] then 0 else (if UnexpiredRotating(keys[0], now) then 1 else 0) + CountRotating(keys[1..], now)
  }

  function CountUsable(keys: seq<ApiKey>, now: int): nat {
    if keys == [] then 0 else (if Usable(keys[0], now) then 1 else 0) + CountUsable(keys[1..], now)
  }

  predicate SomeRotating(keys: seq<ApiKey>, now: int) {
    exists i :: 0 <= i < |keys| && UnexpiredRotating(keys[i], now)
  }

  // ----- the operations, on the rows of one customer; a row is never deleted -----

  predicate MayMint(keys: seq<ApiKey>, now: int) {
    CountActive(keys) < MAX_ACTIVE_KEYS_PER_CUSTOMER && CountUsable(keys, now) < MAX_USABLE_KEYS_PER_CUSTOMER
  }

  predicate MayRotate(keys: seq<ApiKey>, id: nat, now: int) {
    && id < |keys| && keys[id].status == Active
    && !SomeRotating(keys, now)
    && CountUsable(keys, now) < MAX_USABLE_KEYS_PER_CUSTOMER
  }

  /** What a rotation writes: the old key lives on for a day beside its successor. */
  function RotateWrites(keys: seq<ApiKey>, id: nat, now: int): seq<ApiKey>
    requires id < |keys|
  {
    keys[id := keys[id].(status := Rotating, revokeAt := Some(now + ROTATION_OVERLAP))] + [FRESH.(rotatedFrom := Some(id))]
  }

  function RevokeWrites(keys: seq<ApiKey>, id: nat, now: int): seq<ApiKey>
    requires id < |keys|
  {
    keys[id := keys[id].(status := Revoked, revokedAt := Some(now), revokeAt := Some(now))]
  }

  predicate RevealIsStale(k: ApiKey, now: int) {
    k.status != Revoked && k.revealExpiresAt != None && k.revealExpiresAt.value < now
  }

  function ExpireWrites(keys: seq<ApiKey>, id: nat, now: int): seq<ApiKey>
    requires id < |keys|
  {
    keys[id := keys[id].(status := Revoked, revokedAt := Some(now), revealExpiresAt := None)]
  }

  class Customer {
    const hasStripeId: bool
    const hasSubscription: bool
    var keys: seq<ApiKey>

    constructor (hasStripeId: bool, hasSubscription: bool)
      ensures this.hasStripeId == hasStripeId && this.hasSubscription == hasSubscription && keys == []
    {
      this.hasStripeId, this.hasSubscription, keys := hasStripeId, hasSubscription, [];
    }

    /** The two counts a ceiling check needs, in one pass over the locked rows. */
    method CountKeys(now: int) returns (active: nat, usable: nat)
      ensures active == CountActive(keys) && usable == CountUsable(keys, now)
    {
      active, usable := 0, 0;
      for i := |keys| downto 0
        invariant active == CountActive(keys[i..]) && usable == CountUsable(keys[i..], now)
      {
        assert keys[i..][1..] == keys[i + 1..];
        if Usable(keys[i], now) {
          usable := usable + 1;
          active := active + if keys[i].status == Active then 1 else 0;
        }
      }
      assert keys[0..] == keys;
    }

    method Mint(now: int) returns (minted: Option<nat>)
      modifies this
      ensures minted == if MayMint(old(keys), now) then Some(|old(keys)|) else None
      ensures keys == if MayMint(old(keys), now) then old(keys) + [FRESH] else old(keys)
      ensures minted != None ==> minted.value < |keys| && UsableAlways(keys[minted.value])
      ensures minted == None <==> CountActive(old(keys)) >= 2 || CountUsable(old(keys), now) >= 3
    {
      var active, usable := CountKeys(now);
      if active >= MAX_ACTIVE_KEYS_PER_CUSTOMER || usable >= MAX_USABLE_KEYS_PER_CUSTOMER {
        return None;
      }
      keys := keys + [FRESH];
      minted := Some(|keys| - 1);
    }

    /** The automatic key of a first login: only for a customer with no key of any status, no
        Stripe customer and no subscription. */
    method MintIfFirstLogin(now: int) returns (minted: Option<nat>)
      modifies this
      ensures minted == (if !hasStripeId && !hasSubscription && old(keys) == [] then Some(0) else None)
      ensures keys == if minted != None then [FRESH] else old(keys)
    {
      if hasStripeId || keys != [] || hasSubscription {
        return None;
      }
      minted := Mint(now);
    }

    method Rotate(id: nat, now: int) returns (successor: Option<nat>)
      modifies this
      ensures successor == if MayRotate(old(keys), id, now) then Some(|old(keys)|) else None
      ensures keys == if MayRotate(old(keys), id, now) then RotateWrites(old(keys), id, now) else old(keys)
      // The old key lives for exactly a day, its successor until further notice, the others as before.
      ensures successor != None ==>
                && |keys| == |old(keys)| + 1 && id < |old(keys)|
                && UsableUntil(keys[id], now + 24 * 3600) && UsableAlways(keys[successor.value])
                && keys[successor.value].rotatedFrom == Some(id)
                && forall i | 0 <= i < |old(keys)| && i != id :: keys[i] == old(keys)[i]
    {
      var _, usable := CountKeys(now);
      if id >= |keys| || keys[id].status != Active || SomeRotating(keys, now) || usable >= MAX_USABLE_KEYS_PER_CUSTOMER {
        return None;
      }
      keys := RotateWrites(keys, id, now);
      successor := Some(|keys| - 1);
    }

    method Revoke(id: nat, now: int) returns (found: bool)
      modifies this
      ensures found == (id < |old(keys)|)
      ensures keys == if id < |old(keys)| then RevokeWrites(old(keys), id, now) else old(keys)
      ensures found ==> |keys| == |old(keys)| && NeverUsable(keys[id])
                        && keys[id].status == Revoked && keys[id].revokedAt == keys[id].revokeAt == Some(now)
      ensures forall i | 0 <= i < |keys| && i != id :: i < |old(keys)| && keys[i] == old(keys)[i]
    {
      found := id < |keys|;
      if found {
        keys := RevokeWrites(keys, id, now);
      }
    }

    method ExpireStaleReveal(id: nat, now: int) returns (expired: bool)
      requires id < |keys|
      modifies this
      ensures expired == RevealIsStale(old(keys)[id], now)
      ensures keys == if expired then ExpireWrites(old(keys), id, now) else old(keys)
      ensures expired ==> NeverUsable(keys[id]) && keys[id].status == Revoked
                          && keys[id].revokedAt == Some(now) && keys[id].revealExpiresAt == None
      ensures |keys| == |old(keys)| && forall i | 0 <= i < |keys| && i != id :: keys[i] == old(keys)[i]
    {
      expired := RevealIsStale(keys[id], now);
      if expired {
        keys := ExpireWrites(keys, id, now);
      }
    }
  }

  // ----- runs -----

  /** All but `ExpireOp` and `ClaimReveal` hold the customer lock while they act.  `MintToReveal` is
      the mint of a paid key, whose plaintext waits to be revealed.  A rotation holds it from its checks
      to its write, which are two statements with room for an expiry between them. */
  datatype Op =
    | MintOp
    | MintToReveal
    | ClaimReveal(id: nat)
    | FirstLoginOp
    | RevokeOp(id: nat)
    | CheckRotation(id: nat)
    | WriteRotation
    | AbortRotation
    | ExpireOp(id: nat)

  /** `rotating` is the key whose rotation has been checked and is to be written, by the holder of
      the lock. */
  datatype Account = Account(
    keys: seq<ApiKey>, hasStripeId: bool, hasSubscription: bool, autoMinted: nat, rotating: Option<nat>)

  /** An operation that needs the lock while a rotation holds it waits: it does nothing yet. */
  function Do(a: Account, op: Op, now: int): Account {
    match op
    case MintOp => if a.rotating == None && MayMint(a.keys, now) then a.(keys := a.keys + [FRESH]) else a
    case MintToReveal =>
      if a.rotating == None && MayMint(a.keys, now)
      then a.(keys := a.keys + [FRESH.(revealExpiresAt := Some(now + REVEAL_TOKEN_TTL))]) else a
    case ClaimReveal(id) =>
      if MayClaim(a, id, now) then a.(keys := a.keys[id := a.keys[id].(revealExpiresAt := None)]) else a
    case FirstLoginOp =>
      if a.rotating == None && !a.hasStripeId && !a.hasSubscription && a.keys == []
      then a.(keys := [FRESH], autoMinted := a.autoMinted + 1) else a
    case RevokeOp(id) => if a.rotating == None && id < |a.keys| then a.(keys := RevokeWrites(a.keys, id, now)) else a
    case CheckRotation(id) => if a.rotating == None && MayRotate(a.keys, id, now) then a.(rotating := Some(id)) else a
    case WriteRotation =>
      if a.rotating != None && a.rotating.value < |a.keys|
      then a.(keys := RotateWrites(a.keys, a.rotating.value, now), rotating := None) else a
    case AbortRotation => a.(rotating := None)
    case ExpireOp(id) => if Expires(a, id, now) then a.(keys := ExpireWrites(a.keys, id, now)) else a
  }

  predicate MayClaim(a: Account, id: nat, now: int) {
    id < |a.keys| && a.keys[id].revealExpiresAt != None && now <= a.keys[id].revealExpiresAt.value
  }

  predicate Expires(a: Account, id: nat, now: int) { id < |a.keys| && RevealIsStale(a.keys[id], now) }

  /** Without interference the two halves are the rotation of the class. */
  lemma RotationInTwoHalves(a: Account, id: nat, now: int)
    requires a.rotating == None
    ensures Do(Do(a, CheckRotation(id), now), WriteRotation, now).keys
         == if MayRotate(a.keys, id, now) then RotateWrites(a.keys, id, now) else a.keys
  {
  }

  /** At time `now`: two active keys, one unexpired rotating key, one automatic key.  A rotation in
      flight has room: no other key is rotating, and its own counts as active although an expiry
      may have revoked it. */
  ghost predicate Within(a: Account, now: int) {
    && CountActive(a.keys) <= MAX_ACTIVE_KEYS_PER_CUSTOMER
    && CountRotating(a.keys, now) <= 1
    && a.autoMinted <= 1 && (a.autoMinted == 1 ==> a.keys != [])
    && (a.rotating != None ==>
          && a.rotating.value < |a.keys| && CountRotating(a.keys, now) == 0
          && var status := a.keys[a.rotating.value].status;
             && status != Rotating
             && CountActive(a.keys) + (if status == Revoked then 1 else 0) <= MAX_ACTIVE_KEYS_PER_CUSTOMER)
  }

  lemma {:induction false} CountsAppend(keys: seq<ApiKey>, k: ApiKey, now: int)
    ensures CountActive(keys + [k]) == CountActive(keys) + if k.status == Active then 1 else 0
    ensures CountRotating(keys + [k], now) == CountRotating(keys, now) + if UnexpiredRotating(k, now) then 1 else 0
  {
    if keys == [] {
      assert keys + [k] == [k];
    } else {
      CountsAppend(keys[1..], k, now);
      assert (keys + [k])[1..] == keys[1..] + [k];
    }
  }

  lemma {:induction false} CountsUpdate(keys: seq<ApiKey>, i: nat, k: ApiKey, now: int)
    requires i < |keys|
    ensures CountActive(keys[i := k]) + (if keys[i].status == Active then 1 else 0)
            == CountActive(keys) + if k.status == Active then 1 else 0
    ensures CountRotating(keys[i := k], now) + (if UnexpiredRotating(keys[i], now) then 1 else 0)
            == CountRotating(keys, now) + if UnexpiredRotating(k, now) then 1 else 0
  {
    if i > 0 {
      CountsUpdate(keys[1..], i - 1, k, now);
      assert keys[i := k][1..] == keys[1..][i - 1 := k];
    } else {
      assert keys[i := k][1..] == keys[1..];
    }
  }

  lemma {:induction false} UsableIsActiveOrRotating(keys: seq<ApiKey>, now: int)
    ensures CountUsable(keys, now) == CountActive(keys) + CountRotating(keys, now)
    ensures CountRotating(keys, now) == 0 <==> !SomeRotating(keys, now)
  {
    if keys != [] {
      UsableIsActiveOrRotating(keys[1..], now);
      if SomeRotating(keys, now) && !UnexpiredRotating(keys[0], now) {
        var i :| 0 <= i < |keys| && UnexpiredRotating(keys[i], now);
        assert keys[1..][i - 1] == keys[i];
      }
      if SomeRotating(keys[1..], now) {
        var i :| 0 <= i < |keys[1..]| && UnexpiredRotating(keys[1..][i], now);
        assert keys[i + 1] == keys[1..][i];
      }
    }
  }

  lemma {:induction false} RotationsOnlyExpire(keys: seq<ApiKey>, now: int, later: int)
    requires now <= later
    ensures CountRotating(keys, later) <= CountRotating(keys, now)
  {
    if keys != [] {
      RotationsOnlyExpire(keys[1..], now, later);
    }
  }

  /** A rotation keeps the limits also when its key expired between the checks and the write. */
  lemma RotationKeepsLimits(a: Account, now: int)
    requires Within(a, now) && a.rotating != None
    ensures Within(Do(a, WriteRotation, now), now)
  {
    var id := a.rotating.value;
    var rotating := a.keys[id].(status := Rotating, revokeAt := Some(now + ROTATION_OVERLAP));
    CountsUpdate(a.keys, id, rotating, now);
    CountsAppend(a.keys[id := rotating], FRESH.(rotatedFrom := Some(id)), now);
  }

  lemma ExpiryKeepsLimits(a: Account, id: nat, now: int)
    requires Within(a, now) && Expires(a, id, now)
    ensures Within(Do(a, ExpireOp(id), now), now)
  {
    CountsUpdate(a.keys, id, ExpireWrites(a.keys, id, now)[id], now);
  }

  lemma OpKeepsLimits(a: Account, op: Op, now: int)
    requires Within(a, now)
    ensures Within(Do(a, op, now), now)
  {
    match op {
      case MintOp => CountsAppend(a.keys, FRESH, now);
      case MintToReveal => CountsAppend(a.keys, FRESH.(revealExpiresAt := Some(now + REVEAL_TOKEN_TTL)), now);
      case ClaimReveal(id) => if MayClaim(a, id, now) { CountsUpdate(a.keys, id, a.keys[id].(revealExpiresAt := None), now); }
      case FirstLoginOp => CountsAppend([], FRESH, now); assert [] + [FRESH] == [FRESH];
      case RevokeOp(id) => if id < |a.keys| { CountsUpdate(a.keys, id, RevokeWrites(a.keys, id, now)[id], now); }
      case CheckRotation(id) => UsableIsActiveOrRotating(a.keys, now);
      case WriteRotation => if a.rotating != None { RotationKeepsLimits(a, now); }
      case AbortRotation =>
      case ExpireOp(id) => if Expires(a, id, now) { ExpiryKeepsLimits(a, id, now); }
    }
  }

  type History = seq<(Op, int)>

  /** A run of operations at non-decreasing times. */
  function DoAll(a: Account, ops: History): Account {
    if ops == [] then a else Do(DoAll(a, ops[..|ops| - 1]), ops[|ops| - 1].0, ops[|ops| - 1].1)
  }

  predicate InOrder(ops: History, start: int) {
    (forall i | 0 <= i < |ops| :: start <= ops[i].1)
    && forall i, j | 0 <= i < j < |ops| :: ops[i].1 <= ops[j].1
  }

  lemma {:induction false} WithinLater(a: Account, now: int, later: int)
    requires Within(a, now) && now <= later
    ensures Within(a, later)
  {
    RotationsOnlyExpire(a.keys, now, later);
  }

  /** The limits hold after every run, at its end and ever after: at most 2 active keys, at most 1
      unexpired rotating key, at most 3 usable keys, at most one automatic key. */
  lemma {:induction false} KeyLimitsHold(a: Account, ops: History, start: int, now: int)
    requires Within(a, start) && InOrder(ops, start) && start <= now
    requires ops != [] ==> ops[|ops| - 1].1 <= now
    ensures Within(DoAll(a, ops), now)
    ensures var keys := DoAll(a, ops).keys;
            CountActive(keys) <= 2 && CountRotating(keys, now) <= 1 && CountUsable(keys, now) <= 3
    ensures DoAll(a, ops).autoMinted <= 1
    decreases |ops|
  {
    UsableIsActiveOrRotating(DoAll(a, ops).keys, now);
    if ops == [] {
      WithinLater(a, start, now);
    } else {
      var n := |ops| - 1;
      KeyLimitsHold(a, ops[..n], start, ops[n].1);
      OpKeepsLimits(DoAll(a, ops[..n]), ops[n].0, ops[n].1);
      WithinLater(DoAll(a, ops), ops[n].1, now);
    }
  }

  /** Within the limits the general ceiling of three never decides: minting depends on the active
      keys alone, rotating on the key itself and a rotation in flight. */
  lemma CeilingNeverDecides(a: Account, id: nat, now: int)
    requires Within(a, now)
    ensures MayMint(a.keys, now) <==> CountActive(a.keys) < 2
    ensures MayRotate(a.keys, id, now)
            <==> id < |a.keys| && a.keys[id].status == Active && !SomeRotating(a.keys, now)
  {
    UsableIsActiveOrRotating(a.keys, now);
  }

  // ----- is a revocation final? -----

  /** The account after the first `i` operations. */
  function At(a: Account, ops: History, i: nat): Account
    requires i <= |ops|
  {
    DoAll(a, ops[..i])
  }

  lemma AtNext(a: Account, ops: History, i: nat)
    requires i < |ops|
    ensures At(a, ops, i + 1) == Do(At(a, ops, i), ops[i].0, ops[i].1)
  {
    assert ops[..i + 1][..i] == ops[..i];
  }

  predicate RevokedAt(a: Account, ops: History, i: nat, id: nat)
    requires i <= |ops|
  {
    var keys := At(a, ops, i).keys;
    id < |keys| && keys[id].status == Revoked
  }

  ghost predicate RevocationsStay(a: Account, ops: History, id: nat) {
    forall i, j | 0 <= i <= j <= |ops| && RevokedAt(a, ops, i, id) :: RevokedAt(a, ops, j, id)
  }

  /** The rotation of this key is checked and not written yet. */
  predicate IsRotating(a: Account, ops: History, i: nat, id: nat)
    requires i <= |ops|
  {
    At(a, ops, i).rotating == Some(id)
  }

  /** The i-th operation is an expiry of the key that takes effect while its rotation is in flight. */
  predicate ExpiresInFlight(a: Account, ops: History, i: nat, id: nat)
    requires i < |ops|
  {
    ops[i].0 == ExpireOp(id) && Expires(At(a, ops, i), id, ops[i].1) && IsRotating(a, ops, i, id)
  }

  ghost predicate InFlightThroughout(a: Account, ops: History, i: nat, j: nat, id: nat)
    requires j <= |ops|
  {
    forall k | i <= k <= j :: IsRotating(a, ops, k, id)
  }

  /** An expiry of this key takes effect between the check of its rotation and the write. */
  ghost predicate Overtaken(a: Account, ops: History, id: nat) {
    exists i, j | 0 <= i < j < |ops| ::
      ExpiresInFlight(a, ops, i, id) && ops[j].0 == WriteRotation && InFlightThroughout(a, ops, i, j, id)
  }

  /** The account as the lock leaves it: whatever rotates is a key. */
  lemma {:induction false} RotatingIsAKey(a: Account, ops: History, i: nat)
    requires i <= |ops| && a.rotating == None
    ensures var s := At(a, ops, i); s.rotating != None ==> s.rotating.value < |s.keys|
  {
    if i > 0 {
      RotatingIsAKey(a, ops, i - 1);
      AtNext(a, ops, i - 1);
    }
  }

  lemma StepBeforeRevoked(a: Account, ops: History, i: nat, id: nat)
    requires i < |ops| && RevokedAt(a, ops, i + 1, id) && IsRotating(a, ops, i + 1, id)
    ensures IsRotating(a, ops, i, id) && (RevokedAt(a, ops, i, id) || ExpiresInFlight(a, ops, i, id))
  {
    AtNext(a, ops, i);
  }

  /** A revoked key in a rotation: some expiry revoked it since the check. */
  lemma {:induction false} RevokedInFlight(a: Account, ops: History, j: nat, id: nat) returns (i: nat)
    requires j <= |ops| && a.rotating == None && RevokedAt(a, ops, j, id) && IsRotating(a, ops, j, id)
    ensures i < j && ExpiresInFlight(a, ops, i, id) && InFlightThroughout(a, ops, i, j, id)
  {
    assert j > 0 by { assert ops[..0] == []; }
    StepBeforeRevoked(a, ops, j - 1, id);
    i := j - 1;
    if RevokedAt(a, ops, j - 1, id) {
      i := RevokedInFlight(a, ops, j - 1, id);
    }
  }

  /** The only operation that makes a revoked key anything else is the write of its rotation. */
  lemma OnlyTheWriteRevives(a: Account, ops: History, i: nat, id: nat)
    requires i < |ops| && RevokedAt(a, ops, i, id) && !RevokedAt(a, ops, i + 1, id)
    ensures ops[i].0 == WriteRotation && IsRotating(a, ops, i, id)
  {
    AtNext(a, ops, i);
  }

  lemma {:induction false} RevivedSomewhere(a: Account, ops: History, i: nat, j: nat, id: nat) returns (k: nat)
    requires i <= j <= |ops| && RevokedAt(a, ops, i, id) && !RevokedAt(a, ops, j, id)
    ensures i <= k < j && RevokedAt(a, ops, k, id) && !RevokedAt(a, ops, k + 1, id)
    decreases j - i
  {
    if RevokedAt(a, ops, i + 1, id) {
      k := RevivedSomewhere(a, ops, i + 1, j, id);
    } else {
      k := i;
    }
  }

  lemma OvertakenRevives(a: Account, ops: History, i: nat, j: nat, id: nat)
    requires i < j < |ops| && a.rotating == None && ExpiresInFlight(a, ops, i, id)
    requires ops[j].0 == WriteRotation && IsRotating(a, ops, j, id)
    ensures RevokedAt(a, ops, i + 1, id) && !RevokedAt(a, ops, j + 1, id)
  {
    AtNext(a, ops, i);
    AtNext(a, ops, j);
    RotatingIsAKey(a, ops, j);
  }

  /** Over every run, a revoked key stays revoked exactly when no expiry of that key takes effect
      between the check and the write of its rotation.  The expiry is the one operation that does
      not take the customer lock. */
  lemma RevocationIsFinalIff(a: Account, ops: History, id: nat)
    requires a.rotating == None
    ensures RevocationsStay(a, ops, id) <==> !Overtaken(a, ops, id)
  {
    if Overtaken(a, ops, id) {
      var i, j :| 0 <= i < j < |ops| &&
        ExpiresInFlight(a, ops, i, id) && ops[j].0 == WriteRotation && InFlightThroughout(a, ops, i, j, id);
      assert IsRotating(a, ops, j, id);
      OvertakenRevives(a, ops, i, j, id);
    }
    if !RevocationsStay(a, ops, id) {
      var i, j :| 0 <= i <= j <= |ops| && RevokedAt(a, ops, i, id) && !RevokedAt(a, ops, j, id);
      var k := RevivedSomewhere(a, ops, i, j, id);
      OnlyTheWriteRevives(a, ops, k, id);
      var e := RevokedInFlight(a, ops, k, id);
    }
  }

  /** A revocation taken while no rotation holds the lock revokes. */
  lemma RevokeTakesEffect(a: Account, ops: History, i: nat, id: nat)
    requires i < |ops| && ops[i].0 == RevokeOp(id)
    requires At(a, ops, i).rotating == None && id < |At(a, ops, i).keys|
    ensures RevokedAt(a, ops, i + 1, id)
  {
    AtNext(a, ops, i);
  }

  /** From then on, and if no expiry of the key overtakes its rotation, the key is never usable again. */
  lemma RevokedForGood(a: Account, ops: History, i: nat, j: nat, id: nat, t: int)
    requires a.rotating == None && i < j <= |ops| && ops[i].0 == RevokeOp(id) && !Overtaken(a, ops, id)
    requires At(a, ops, i).rotating == None && id < |At(a, ops, i).keys|
    ensures id < |At(a, ops, j).keys| && !Usable(At(a, ops, j).keys[id], t)
  {
    RevokeTakesEffect(a, ops, i, id);
    RevocationIsFinalIff(a, ops, id);
    assert RevokedAt(a, ops, j, id);
  }

  /** What the operations are for, where nothing stands in their way. */
  lemma OpsTakeEffect(a: Account, id: nat, now: int)
    requires Within(a, now) && a.rotating == None
    ensures CountActive(a.keys) < 2 ==>
              var keys := Do(a, MintOp, now).keys;
              |keys| == |a.keys| + 1 && UsableAlways(keys[|a.keys|]) && keys[..|a.keys|] == a.keys
    ensures CountActive(a.keys) < 2 ==>
              var keys := Do(a, MintToReveal, now).keys;
              && |keys| == |a.keys| + 1 && UsableAlways(keys[|a.keys|]) && keys[..|a.keys|] == a.keys
              && keys[|a.keys|].revealExpiresAt == Some(now + 24 * 3600)
    ensures a.keys == [] && !a.hasStripeId && !a.hasSubscription ==>
              var a' := Do(a, FirstLoginOp, now);
              |a'.keys| == 1 && UsableAlways(a'.keys[0]) && a'.autoMinted == a.autoMinted + 1
    ensures id < |a.keys| && a.keys[id].status == Active && !SomeRotating(a.keys, now) ==>
              var keys := Do(Do(a, CheckRotation(id), now), WriteRotation, now).keys;
              && |keys| == |a.keys| + 1 && UsableUntil(keys[id], now + 24 * 3600) && UsableAlways(keys[|a.keys|])
              && keys[|a.keys|].rotatedFrom == Some(id)
              && forall i | 0 <= i < |a.keys| && i != id :: keys[i] == a.keys[i]
    ensures id < |a.keys| && a.keys[id].revealExpiresAt != None && a.keys[id].status != Revoked ==>
              var late := a.keys[id].revealExpiresAt.value < now;
              && (late ==> Do(a, ExpireOp(id), now).keys[id].status == Revoked)
              && (!late ==> Do(a, ClaimReveal(id), now).keys[id] == a.keys[id].(revealExpiresAt := None))
              && Do(a, if late then ClaimReveal(id) else ExpireOp(id), now) == a
  {
    CeilingNeverDecides(a, id, now);
  }

  /** Without expiries of the key its revocation is final. */
  lemma RevocationIsFinal(a: Account, ops: History, id: nat, i: nat, j: nat)
    requires a.rotating == None && i <= j <= |ops| && RevokedAt(a, ops, i, id)
    requires forall k | 0 <= k < |ops| :: ops[k].0 != ExpireOp(id)
    ensures RevokedAt(a, ops, j, id)
  {
    RevocationIsFinalIff(a, ops, id);
  }

  const NO_KEYS := Account([], false, false, 0, None)

  /** When a reveal offered at time 0 has expired. */
  const EXPIRED := REVEAL_TOKEN_TTL + 1

  /** A key is minted and never revealed; a day later its rotation is checked, its expiry acts, and
      the rotation is written. */
  const CHECK_EXPIRE_WRITE: History := [(MintToReveal, 0), (CheckRotation(0), EXPIRED), (ExpireOp(0), EXPIRED), (WriteRotation, EXPIRED)]

  const PENDING := FRESH.(revealExpiresAt := Some(REVEAL_TOKEN_TTL))

  lemma MintAndCheck()
    ensures At(NO_KEYS, CHECK_EXPIRE_WRITE, 1) == NO_KEYS.(keys := [PENDING])
    ensures At(NO_KEYS, CHECK_EXPIRE_WRITE, 2) == NO_KEYS.(keys := [PENDING], rotating := Some(0))
  {
    var ops := CHECK_EXPIRE_WRITE;
    assert ops[..0] == [] && MayMint([], 0) && [] + [PENDING] == [PENDING];
    AtNext(NO_KEYS, ops, 0);
    assert [PENDING][1..] == [] && MayRotate([PENDING], 0, EXPIRED);
    AtNext(NO_KEYS, ops, 1);
  }

  lemma ExpireAndWrite()
    ensures var expired := ExpireWrites([PENDING], 0, EXPIRED);
            && At(NO_KEYS, CHECK_EXPIRE_WRITE, 3) == NO_KEYS.(keys := expired, rotating := Some(0))
            && At(NO_KEYS, CHECK_EXPIRE_WRITE, 4) == NO_KEYS.(keys := RotateWrites(expired, 0, EXPIRED))
  {
    MintAndCheck();
    AtNext(NO_KEYS, CHECK_EXPIRE_WRITE, 2);
    AtNext(NO_KEYS, CHECK_EXPIRE_WRITE, 3);
  }

  /** A run that is overtaken, from a customer without keys: the key is revoked by its expiry and
      usable again at the end. */
  lemma RotationOverwritesExpiry()
    ensures Within(NO_KEYS, 0) && InOrder(CHECK_EXPIRE_WRITE, 0)
    ensures Overtaken(NO_KEYS, CHECK_EXPIRE_WRITE, 0) && !RevocationsStay(NO_KEYS, CHECK_EXPIRE_WRITE, 0)
    ensures var keys := DoAll(NO_KEYS, CHECK_EXPIRE_WRITE).keys; keys != [] && Usable(keys[0], EXPIRED)
  {
    var ops := CHECK_EXPIRE_WRITE;
    OneIsOvertaken();
    RevocationIsFinalIff(NO_KEYS, ops, 0);
    ExpireAndWrite();
    assert ops[..4] == ops;
  }

  lemma OneIsOvertaken()
    ensures Overtaken(NO_KEYS, CHECK_EXPIRE_WRITE, 0)
  {
    var ops := CHECK_EXPIRE_WRITE;
    MintAndCheck();
    ExpireAndWrite();
    assert ExpiresInFlight(NO_KEYS, ops, 2, 0) && InFlightThroughout(NO_KEYS, ops, 2, 3, 0);
  }
}
