/** Conservation: from the block's time on, no call changes the supply of an asset except by the
    amount it changes the asset's recorded total, whether the call succeeds or fails. The two
    exceptions of the program are characterised exactly. */
module LedgerConservation {
  import opened TimeLockItems
  import opened TimeLockAlgebra
  import opened TimeLockOps
  import opened FsnTypes
  import opened LedgerState
  import opened LedgerCalls

  /** The two states hold the same assets, swaps, tickets and short account numbers. */
  ghost predicate SameRecords(s: State, s': State) {
    && s.assets == s'.assets && s.swaps == s'.swaps && s.multiSwaps == s'.multiSwaps && s.tickets == s'.tickets
    && SameNotations(s, s')
  }

  ghost predicate SameNotations(s: State, s': State) {
    s.notations == s'.notations && s.notationOwners == s'.notationOwners && s.notationCount == s'.notationCount
  }

  // ---------- One leg ----------

  lemma NeedVal(leg: Leg, time: Instant, t: int)
    requires leg.total > 0 && time <= t
    ensures LegVal(leg, leg.asset, t) == if ValidItem(Need(leg, time)) then ItemVal(Need(leg, time), t) else 0
  {
  }

  lemma SingleIsNormal(z: Item)
    requires ValidItem(z)
    ensures Normal([z])
  {
  }

  lemma AddLockKeepsRecords(s: State, who: Address, asset: Hash, amount: seq<Item>, time: Instant)
    ensures SameRecords(s, AddLock(s, who, asset, amount, time))
  {
    if amount == [] {
    } else {
    }
  }

  lemma CreditKeepsRecords(s: State, who: Address, asset: Hash, amount: int)
    ensures SameRecords(s, Credit(s, who, asset, amount))
  {
  }

  lemma SubLockKeepsRecords(s: State, who: Address, asset: Hash, z: Item, time: Instant)
    ensures SameRecords(s, SubLock(s, who, asset, z, time))
  {
  }

  /** A leg is worth nothing in other assets, and a plain one its total at every instant. */
  lemma LegElsewhere(leg: Leg)
    ensures forall a: Hash, t: int :: a != leg.asset ==> LegVal(leg, a, t) == 0
    ensures UsesAsset(leg) ==> forall t: int :: 0 <= t <= FOREVER ==> LegVal(leg, leg.asset, t) == leg.total
  {
  }

  lemma ReceiveMeaning(s: State, who: Address, leg: Leg, time: Instant)
    requires ValidState(s) && leg.total > 0
    ensures ValidState(Receive(s, who, leg, time)) && SameRecords(s, Receive(s, who, leg, time))
    ensures forall a: Hash, t: int :: time <= t <= FOREVER ==>
      Supply(Receive(s, who, leg, time), a, t) == Supply(s, a, t) + LegVal(leg, a, t)
  {
    hide Supply, ValidState, Credit, AddLock, SubLock, Val, Balance, Normal, Enough, LegVal;
    var need := Need(leg, time);
    LegElsewhere(leg);
    if UsesAsset(leg) {
      BalanceNonNegative(s, who, leg.asset);
      CreditValid(s, who, leg.asset, leg.total);
      CreditKeepsRecords(s, who, leg.asset, leg.total);
    } else if ValidItem(need) {
      SingleIsNormal(need);
      AddLockKeepsRecords(s, who, leg.asset, [need], time);
      AddLockValid(s, who, leg.asset, [need], time);
    }
    forall a: Hash, t: int | time <= t <= FOREVER
      ensures Supply(Receive(s, who, leg, time), a, t) == Supply(s, a, t) + LegVal(leg, a, t)
    {
      NeedVal(leg, time, t);
      if UsesAsset(leg) {
        CreditSupply(s, who, leg.asset, leg.total, a, t);
      } else if ValidItem(need) {
        AddLockSupply(s, who, leg.asset, [need], time, a, t);
        ValSingle(need, t);
      }
    }
  }

  /** The leg can be taken out without going negative and without a panic. */
  ghost predicate Affordable(s: State, who: Address, leg: Leg, time: Instant) {
    if UsesAsset(leg) then Balance(s, who, leg.asset) >= leg.total
    else ValidItem(Need(leg, time)) ==> Enough(Lock(s, who, leg.asset), Need(leg, time))
  }

  lemma TakeOutMeaning(s: State, who: Address, leg: Leg, time: Instant)
    requires ValidState(s) && leg.total > 0 && Affordable(s, who, leg, time)
    ensures ValidState(TakeOut(s, who, leg, time)) && SameRecords(s, TakeOut(s, who, leg, time))
    ensures forall a: Hash, t: int :: time <= t <= FOREVER ==>
      Supply(TakeOut(s, who, leg, time), a, t) == Supply(s, a, t) - LegVal(leg, a, t)
  {
    hide Supply, ValidState, Credit, AddLock, SubLock, Val, Balance, Normal, Enough, LegVal;
    var need := Need(leg, time);
    LegElsewhere(leg);
    if UsesAsset(leg) {
      CreditValid(s, who, leg.asset, -leg.total);
      CreditKeepsRecords(s, who, leg.asset, -leg.total);
    } else if ValidItem(need) {
      SubLockKeepsRecords(s, who, leg.asset, need, time);
      SubLockValid(s, who, leg.asset, need, time);
    }
    forall a: Hash, t: int | time <= t <= FOREVER
      ensures Supply(TakeOut(s, who, leg, time), a, t) == Supply(s, a, t) - LegVal(leg, a, t)
    {
      NeedVal(leg, time, t);
      if UsesAsset(leg) {
        CreditSupply(s, who, leg.asset, -leg.total, a, t);
      } else if ValidItem(need) {
        SubLockSupply(s, who, leg.asset, need, time, a, t);
      }
    }
  }

  /** A lock over the whole future covers every interval that starts no earlier. */
  lemma LifelongEnough(lock: seq<Item>, value: int, need: Item, time: Instant)
    requires Normal(lock) && value > 0 && 0 < time <= need.start <= need.end && need.value == value
    ensures Enough(Unexpired(Plus(lock, [Lifelong(time, value)]), time), need)
  {
    var whole := Lifelong(time, value);
    var sum := Plus(lock, [whole]);
    PlusMeaning(lock, [whole]);
    UnexpiredMeaning(sum, time);
    forall t: int | need.start <= t <= need.end ensures Val(Unexpired(sum, time), t) >= need.value {
      ValNonNegative(lock, t);
      ValSingle(whole, t);
      assert Val(sum, t) == Val(lock, t) + Val([whole], t);
    }
  }

  lemma ConvertMeaning(s: State, who: Address, asset: Hash, amount: int, time: Instant)
    requires ValidState(s) && 0 < amount <= Balance(s, who, asset)
    ensures ValidState(Convert(s, who, asset, amount, time)) && SameRecords(s, Convert(s, who, asset, amount, time))
    ensures forall a: Hash, t: int :: time <= t <= FOREVER ==>
      Supply(Convert(s, who, asset, amount, time), a, t) == Supply(s, a, t)
  {
    hide Supply, ValidState, Credit, AddLock, Val, Balance, Normal;
    var s1, whole := Debit(s, who, asset, amount), Lifelong(time, amount);
    CreditValid(s, who, asset, -amount);
    CreditKeepsRecords(s, who, asset, -amount);
    SingleIsNormal(whole);
    AddLockValid(s1, who, asset, [whole], time);
    AddLockKeepsRecords(s1, who, asset, [whole], time);
    forall a: Hash, t: int | time <= t <= FOREVER
      ensures Supply(Convert(s, who, asset, amount, time), a, t) == Supply(s, a, t)
    {
      CreditSupply(s, who, asset, -amount, a, t);
      AddLockSupply(s1, who, asset, [whole], time, a, t);
      ValSingle(whole, t);
    }
  }

  lemma PrepareMeaning(s: State, who: Address, leg: Leg, time: Instant, convert: bool)
    requires ValidState(s) && leg.total > 0 && time > 0
    ensures match Prepare(s, who, leg, time, convert)
            case None => true
            case Some(s') =>
              && ValidState(s') && SameRecords(s, s') && Affordable(s', who, leg, time)
              && forall a: Hash, t: int :: time <= t <= FOREVER ==> Supply(s', a, t) == Supply(s, a, t)
  {
    hide Supply, Val, Plus;
    var need := Need(leg, time);
    if !UsesAsset(leg) && ValidItem(need) && !Enough(Lock(s, who, leg.asset), need)
       && convert && Balance(s, who, leg.asset) >= leg.total {
      ConvertMeaning(s, who, leg.asset, leg.total, time);
      LifelongEnough(Lock(s, who, leg.asset), leg.total, need, time);
      var s1 := Debit(s, who, leg.asset, leg.total);
      assert Lock(s1, who, leg.asset) == Lock(s, who, leg.asset);
    }
  }

  lemma PayMeaning(s: State, who: Address, leg: Leg, time: Instant, convert: bool)
    requires ValidState(s) && leg.total > 0 && time > 0
    ensures match Pay(s, who, leg, time, convert)
            case None => true
            case Some(s') =>
              && ValidState(s') && SameRecords(s, s')
              && forall a: Hash, t: int :: time <= t <= FOREVER ==>
                   Supply(s', a, t) == Supply(s, a, t) - LegVal(leg, a, t)
  {
    hide Supply, Prepare, TakeOut, ValidState, LegVal, Affordable;
    PrepareMeaning(s, who, leg, time, convert);
    match Prepare(s, who, leg, time, convert)
    case None =>
    case Some(s1) =>
      TakeOutMeaning(s1, who, leg, time);
  }

  // ---------- Several legs ----------

  predicate AllPositive(legs: seq<Leg>) {
    forall k :: 0 <= k < |legs| ==> legs[k].total > 0
  }

  lemma {:induction false} PayAllMeaning(s: State, who: Address, legs: seq<Leg>, time: Instant)
    requires ValidState(s) && AllPositive(legs) && time > 0
    ensures match PayAll(s, who, legs, time)
            case None => true
            case Some(s') =>
              && ValidState(s') && SameRecords(s, s')
              && forall a: Hash, t: int :: time <= t <= FOREVER ==>
                   Supply(s', a, t) == Supply(s, a, t) - LegsVal(legs, a, t)
  {
    hide Supply, Pay, ValidState, LegVal;
    if legs != [] {
      var front, last := legs[..|legs| - 1], legs[|legs| - 1];
      PayAllMeaning(s, who, front, time);
      match PayAll(s, who, front, time)
      case None =>
      case Some(s1) =>
        PayMeaning(s1, who, last, time, true);
    }
  }

  lemma {:induction false} ReceiveAllMeaning(s: State, who: Address, legs: seq<Leg>, time: Instant)
    requires ValidState(s) && AllPositive(legs)
    ensures ValidState(ReceiveAll(s, who, legs, time)) && SameRecords(s, ReceiveAll(s, who, legs, time))
    ensures forall a: Hash, t: int :: time <= t <= FOREVER ==>
      Supply(ReceiveAll(s, who, legs, time), a, t) == Supply(s, a, t) + LegsVal(legs, a, t)
  {
    hide Supply, Receive, ValidState, LegVal;
    if legs != [] {
      ReceiveAllMeaning(s, who, legs[..|legs| - 1], time);
      ReceiveMeaning(ReceiveAll(s, who, legs[..|legs| - 1], time), who, legs[|legs| - 1], time);
    }
  }

  /** The escrow of a multi swap splits with its size. */
  lemma {:induction false} LegsSplit(asset: seq<Hash>, start: seq<Instant>, end: seq<Instant>, min: seq<int>,
                                     x: int, y: int, a: Hash, t: int)
    requires |asset| == |start| == |end| == |min|
    ensures LegsVal(Legs(asset, start, end, min, x + y), a, t)
         == LegsVal(Legs(asset, start, end, min, x), a, t) + LegsVal(Legs(asset, start, end, min, y), a, t)
  {
    var n := |asset| - 1;
    if asset != [] {
      assert Legs(asset, start, end, min, x + y)[..n] == Legs(asset[..n], start[..n], end[..n], min[..n], x + y);
      assert Legs(asset, start, end, min, x)[..n] == Legs(asset[..n], start[..n], end[..n], min[..n], x);
      assert Legs(asset, start, end, min, y)[..n] == Legs(asset[..n], start[..n], end[..n], min[..n], y);
      LegsSplit(asset[..n], start[..n], end[..n], min[..n], x, y, a, t);
      Distributes(min[n], x, y);
    }
  }

  lemma Distributes(m: int, x: int, y: int)
    ensures m * (x + y) == m * x + m * y
  {
  }

  lemma LegsPositive(asset: seq<Hash>, start: seq<Instant>, end: seq<Instant>, min: seq<int>, size: int)
    requires |asset| == |start| == |end| == |min| && size > 0
    requires forall k :: 0 <= k < |min| ==> min[k] > 0
    ensures AllPositive(Legs(asset, start, end, min, size))
  {
    forall k | 0 <= k < |asset| ensures min[k] * size > 0 {
      ProductPositive(min[k], size);
    }
  }

  lemma ProductPositive(m: int, n: int)
    requires m > 0 && n > 0
    ensures m * n > 0
  {
  }

  // ---------- Assets ----------

  lemma GenAssetConserves(s: State, env: Env, p: GenAssetParam)
    requires ValidState(s)
    ensures ValidState(GenAsset(s, env, p).0) && Conserves(s, GenAsset(s, env, p).0, 0)
  {
    hide Supply, ValidState, CheckGenAsset;
    if CheckGenAsset(p) && env.txHash !in s.assets {
      var asset := NewAsset(p, env);
      var s1 := s.(assets := s.assets[asset.id := asset]);
      PutAssetValid(s, asset);
      BalanceNonNegative(s1, env.sender, asset.id);
      CheckedTotal(p);
      CreditValid(s1, env.sender, asset.id, p.total);
      hide Credit;
      forall a: Hash, t: int ensures Supply(Credit(s1, env.sender, asset.id, p.total), a, t)
                                  == Supply(s, a, t) + if a == asset.id then p.total else 0 {
        SupplyDepends(s, s1, a, t);
        CreditSupply(s1, env.sender, asset.id, p.total, a, t);
      }
      CreditKeepsRecords(s1, env.sender, asset.id, p.total);
    }
  }

  lemma CheckedTotal(p: GenAssetParam)
    requires CheckGenAsset(p)
    ensures p.total >= 0
  {
  }

  lemma SendAssetConserves(s: State, env: Env, p: SendAssetParam)
    requires ValidState(s)
    ensures ValidState(SendAsset(s, env, p).0) && Conserves(s, SendAsset(s, env, p).0, 0)
  {
    hide Supply, ValidState;
    if CheckSendAsset(p) && Balance(s, env.sender, p.asset) >= p.value {
      var s1 := Debit(s, env.sender, p.asset, p.value);
      CreditValid(s, env.sender, p.asset, -p.value);
      BalanceNonNegative(s1, p.to, p.asset);
      CreditValid(s1, p.to, p.asset, p.value);
      forall a: Hash, t: int ensures Supply(SendAsset(s, env, p).0, a, t) == Supply(s, a, t) {
        CreditSupply(s, env.sender, p.asset, -p.value, a, t);
        CreditSupply(s1, p.to, p.asset, p.value, a, t);
      }
    }
  }

  lemma ChangeTotal(s: State, to: Address, asset: Asset, amount: int)
    requires ValidState(s) && asset.id in s.assets && s.assets[asset.id] == asset
    requires Balance(s, to, asset.id) + amount >= 0
    ensures var s1 := Credit(s, to, asset.id, amount);
            var s' := s1.(assets := s1.assets[asset.id := asset.(total := asset.total + amount)]);
            ValidState(s') && Conserves(s, s', 0)
  {
    hide Supply, ValidState;
    var s1 := Credit(s, to, asset.id, amount);
    var s' := s1.(assets := s1.assets[asset.id := asset.(total := asset.total + amount)]);
    CreditValid(s, to, asset.id, amount);
    PutAssetValid(s1, asset.(total := asset.total + amount));
    forall a: Hash, t: int ensures Supply(s', a, t) == Supply(s, a, t) + if a == asset.id then amount else 0 {
      CreditSupply(s, to, asset.id, amount, a, t);
      SupplyDepends(s1, s', a, t);
    }
  }

  lemma ValueChangeConserves(s: State, env: Env, p: ValueChangeParam)
    requires ValidState(s)
    ensures ValidState(ValueChange(s, env, p).0) && Conserves(s, ValueChange(s, env, p).0, 0)
  {
    hide Supply, ValidState, Conserves;
    BalanceNonNegative(s, p.to, p.asset);
    ConservesSelf(s, 0);
    if ValueChange(s, env, p).1 == Done {
      AssetId(s, p.asset);
      ChangeTotal(s, p.to, s.assets[p.asset], if p.isInc then p.value else -p.value);
    }
  }

  // ---------- Time locks and tickets ----------

  /** The surplus of a lifelong lock over an interval in the future. */
  lemma SurplusMeaning(time: Instant, value: int, need: Item)
    requires value > 0 && time <= need.start <= need.end && need.value == value && 0 < time
    ensures Enough([Lifelong(time, value)], need)
    ensures Normal(Minus([Lifelong(time, value)], need))
    ensures forall t: int :: time <= t <= FOREVER ==>
      Val(Minus([Lifelong(time, value)], need), t) == value - ItemVal(need, t)
  {
    var whole := Lifelong(time, value);
    forall t: int ensures Val([whole], t) == ItemVal(whole, t) {
      ValSingle(whole, t);
    }
    MinusMeaning([whole], need);
  }

  lemma LockFromAssetConserves(s: State, env: Env, p: TimeLockParam, need: Item)
    requires ValidState(s) && env.time > 0 && p.value > 0
    requires ValidItem(need) && need.start >= env.time && need.value == p.value
    ensures ValidState(LockFromAsset(s, env, p, need).0) && Conserves(s, LockFromAsset(s, env, p, need).0, env.time)
  {
    hide Supply, ValidState;
    if Balance(s, env.sender, p.asset) >= p.value {
      if env.sender == p.to {
        ConvertMeaning(s, env.sender, p.asset, p.value, env.time);
      } else {
        LockForOther(s, env.sender, p.to, p.asset, p.value, need, env.time);
      }
    }
  }

  lemma LockForOther(s: State, who: Address, to: Address, asset: Hash, value: int, need: Item, time: Instant)
    requires ValidState(s) && time > 0 && 0 < value <= Balance(s, who, asset)
    requires ValidItem(need) && need.start >= time && need.value == value
    ensures var s2 := AddLock(Debit(s, who, asset, value), who, asset, Minus([Lifelong(time, value)], need), time);
            var s' := AddLock(s2, to, asset, [need], time);
            ValidState(s') && Conserves(s, s', time)
  {
    hide Supply, ValidState, Credit, AddLock, Val, Minus, Balance, Normal, Lifelong, Enough;
    var s1, surplus := Debit(s, who, asset, value), Minus([Lifelong(time, value)], need);
    var s2 := AddLock(s1, who, asset, surplus, time);
    CreditValid(s, who, asset, -value);
    SurplusMeaning(time, value, need);
    AddLockValid(s1, who, asset, surplus, time);
    SingleIsNormal(need);
    AddLockValid(s2, to, asset, [need], time);
    CreditKeepsRecords(s, who, asset, -value);
    AddLockKeepsRecords(s1, who, asset, surplus, time);
    AddLockKeepsRecords(s2, to, asset, [need], time);
    forall a: Hash, t: int | time <= t <= FOREVER
      ensures Supply(AddLock(s2, to, asset, [need], time), a, t) == Supply(s, a, t)
    {
      CreditSupply(s, who, asset, -value, a, t);
      AddLockSupply(s1, who, asset, surplus, time, a, t);
      AddLockSupply(s2, to, asset, [need], time, a, t);
      ValSingle(need, t);
    }
  }

  lemma TransferLockConserves(s: State, who: Address, to: Address, asset: Hash, need: Item, time: Instant)
    requires ValidState(s) && Enough(Lock(s, who, asset), need)
    ensures var s' := AddLock(SubLock(s, who, asset, need, time), to, asset, [need], time);
            ValidState(s') && Conserves(s, s', time)
  {
    hide Supply, ValidState;
    var s1 := SubLock(s, who, asset, need, time);
    var s' := AddLock(s1, to, asset, [need], time);
    SubLockValid(s, who, asset, need, time);
    AddLockValid(s1, to, asset, [need], time);
    forall a: Hash, t: int | time <= t <= FOREVER ensures Supply(s', a, t) == Supply(s, a, t) {
      SubLockSupply(s, who, asset, need, time, a, t);
      AddLockSupply(s1, to, asset, [need], time, a, t);
      ValSingle(need, t);
    }
  }

  /** Redeeming a time lock adds the value at every instant and takes it only from need.start on. */
  lemma RedeemSupply(s: State, who: Address, to: Address, asset: Hash, need: Item, time: Instant)
    requires ValidState(s) && Enough(Lock(s, who, asset), need) && need.end == FOREVER
    ensures var s' := Credit(SubLock(s, who, asset, need, time), to, asset, need.value);
            && ValidState(s') && SameRecords(s, s')
            && forall a: Hash, t: int :: time <= t <= FOREVER ==>
                 Supply(s', a, t) == Supply(s, a, t) + if a == asset && t < need.start then need.value else 0
  {
    hide Supply, ValidState;
    var s1 := SubLock(s, who, asset, need, time);
    var s' := Credit(s1, to, asset, need.value);
    SubLockValid(s, who, asset, need, time);
    assert Balance(s1, to, asset) >= 0 by { BalanceNonNegative(s1, to, asset); }
    CreditValid(s1, to, asset, need.value);
    forall a: Hash, t: int | time <= t <= FOREVER
      ensures Supply(s', a, t) == Supply(s, a, t) + if a == asset && t < need.start then need.value else 0
    {
      SubLockSupply(s, who, asset, need, time, a, t);
      CreditSupply(s1, to, asset, need.value, a, t);
    }
  }

  /** The instant from which a call conserves the supply. */
  function ConservedFrom(env: Env, call: Call): Instant {
    if call.TimeLockCall? && call.timeLock.kind.TimeLockToAsset?
    then MaxInstant(env.time, call.timeLock.start)
    else env.time
  }

  lemma TimeLockConserves(s: State, env: Env, p: TimeLockParam)
    requires ValidState(s) && env.time > 0
    ensures ValidState(TimeLockStep(s, env, p).0)
    ensures Conserves(s, TimeLockStep(s, env, p).0, ConservedFrom(env, TimeLockCall(p)))
  {
    hide Supply, ValidState;
    var q := AdjustedTimeLock(p);
    var need := Need(Leg(q.asset, q.start, q.end, q.value), env.time);
    if (p.kind.TimeLockToAsset? ==> p.start <= env.now) && CheckTimeLock(q, env.time) && ValidItem(need) {
      match q.kind
      case AssetToTimeLock =>
        LockFromAssetConserves(s, env, q, need);
      case TimeLockToTimeLock =>
        if Enough(Lock(s, env.sender, q.asset), need) {
          TransferLockConserves(s, env.sender, q.to, q.asset, need, env.time);
        }
      case TimeLockToAsset =>
        if Enough(Lock(s, env.sender, q.asset), need) {
          RedeemSupply(s, env.sender, q.to, q.asset, need, env.time);
        }
      case OtherKind =>
    }
  }

  /** The redemption is accepted and can be afforded. */
  ghost predicate Redeems(s: State, env: Env, p: TimeLockParam) {
    && p.kind.TimeLockToAsset? && p.start <= env.now && p.value > 0
    && Enough(Lock(s, env.sender, p.asset), Need(Leg(p.asset, p.start, FOREVER, p.value), env.time))
  }

  /** Redeeming conserves the supply from the block's time on exactly when it does not start
      later than that; otherwise the value exists twice in between. */
  lemma RedeemConservesIff(s: State, env: Env, p: TimeLockParam)
    requires ValidState(s) && env.time > 0 && p.kind.TimeLockToAsset?
    ensures Conserves(s, TimeLockStep(s, env, p).0, env.time) <==> !(Redeems(s, env, p) && p.start > env.time)
    ensures Redeems(s, env, p) ==> forall t: int :: env.time <= t < p.start ==>
      Supply(TimeLockStep(s, env, p).0, p.asset, t) == Supply(s, p.asset, t) + p.value
  {
    hide Supply, ValidState;
    var q := AdjustedTimeLock(p);
    var need := Need(Leg(q.asset, q.start, q.end, q.value), env.time);
    var s' := TimeLockStep(s, env, p).0;
    if Redeems(s, env, p) {
      RedeemSupply(s, env.sender, q.to, q.asset, need, env.time);
      assert Supply(s', p.asset, env.time) ==
        Supply(s, p.asset, env.time) + if env.time < need.start then need.value else 0;
    } else {
      assert s' == s;
    }
  }

  /** Five units locked from instant 10 on are redeemed at time 10 with a start of 11: at instant
      10 there are ten of them. */
  lemma EarlyRedemptionInflates()
    ensures var s := State(map[], map[(1, 7) := [Item(10, FOREVER, 5)]], map[], map[], map[], map[], map[], map[], 0);
            var p := TimeLockParam(TimeLockToAsset, 7, 1, 11, FOREVER, 5);
            var (s', r) := TimeLockStep(s, Env(1, 20, 10, 11, 1, 21), p);
            ValidState(s) && r == Done && Supply(s', 7, 10) == Supply(s, 7, 10) + 5
  {
    var s := State(map[], map[(1, 7) := [Item(10, FOREVER, 5)]], map[], map[], map[], map[], map[], map[], 0);
    var env, p := Env(1, 20, 10, 11, 1, 21), TimeLockParam(TimeLockToAsset, 7, 1, 11, FOREVER, 5);
    hide Supply;
    forall t: int ensures Val([Item(10, FOREVER, 5)], t) == ItemVal(Item(10, FOREVER, 5), t) {
      ValSingle(Item(10, FOREVER, 5), t);
    }
    assert Redeems(s, env, p);
    RedeemConservesIff(s, env, p);
  }

  lemma BuyTicketConserves(s: State, env: Env, p: BuyTicketParam)
    requires ValidState(s) && env.time > 0
    ensures ValidState(BuyTicket(s, env, p).0) && Conserves(s, BuyTicket(s, env, p).0, env.time)
  {
    hide Supply, ValidState;
    var need := Item(MaxInstant(p.start, env.time), p.end, TICKET_PRICE);
    var ticket := Ticket(env.sender, env.ticketId, env.height, p.start, p.end);
    if BuyTicket(s, env, p).1 == Done {
      if Enough(Lock(s, env.sender, SYSTEM_ASSET), need) {
        BuyTicketFromLock(s, env, ticket, need);
      } else {
        BuyTicketFromAsset(s, env, ticket, need);
      }
    }
  }

  lemma BuyTicketFromLock(s: State, env: Env, ticket: Ticket, need: Item)
    requires ValidState(s) && ticket.id !in s.tickets && Enough(Lock(s, env.sender, SYSTEM_ASSET), need)
    requires need == Item(MaxInstant(ticket.start, env.time), ticket.expire, TICKET_PRICE)
    ensures var s1 := SubLock(s, env.sender, SYSTEM_ASSET, need, env.time);
            var s' := s1.(tickets := s1.tickets[ticket.id := ticket]);
            ValidState(s') && Conserves(s, s', env.time)
  {
    hide Supply, ValidState;
    var s1 := SubLock(s, env.sender, SYSTEM_ASSET, need, env.time);
    var s' := s1.(tickets := s1.tickets[ticket.id := ticket]);
    SubLockValid(s, env.sender, SYSTEM_ASSET, need, env.time);
    PutTicketValid(s1, ticket);
    forall a: Hash, t: int | env.time <= t <= FOREVER ensures Supply(s', a, t) == Supply(s, a, t) {
      SubLockSupply(s, env.sender, SYSTEM_ASSET, need, env.time, a, t);
      PutTicketSupply(s1, ticket, a, t);
    }
  }

  lemma BuyTicketFromAsset(s: State, env: Env, ticket: Ticket, need: Item)
    requires ValidState(s) && env.time > 0 && Balance(s, env.sender, SYSTEM_ASSET) >= TICKET_PRICE
    requires ticket.id !in s.tickets && ValidItem(need)
    requires need == Item(MaxInstant(ticket.start, env.time), ticket.expire, TICKET_PRICE)
    ensures var s1 := Debit(s, env.sender, SYSTEM_ASSET, TICKET_PRICE);
            var s2 := AddLock(s1, env.sender, SYSTEM_ASSET, Minus([Lifelong(env.time, TICKET_PRICE)], need), env.time);
            var s' := s2.(tickets := s2.tickets[ticket.id := ticket]);
            ValidState(s') && Conserves(s, s', env.time)
  {
    hide Supply, ValidState, Credit, AddLock, Minus, Val, Balance, TicketVal, Normal, Lifelong;
    var surplus := Minus([Lifelong(env.time, TICKET_PRICE)], need);
    var s1 := Debit(s, env.sender, SYSTEM_ASSET, TICKET_PRICE);
    var s2 := AddLock(s1, env.sender, SYSTEM_ASSET, surplus, env.time);
    var s' := s2.(tickets := s2.tickets[ticket.id := ticket]);
    CreditValid(s, env.sender, SYSTEM_ASSET, -TICKET_PRICE);
    SurplusMeaning(env.time, TICKET_PRICE, need);
    AddLockValid(s1, env.sender, SYSTEM_ASSET, surplus, env.time);
    PutTicketValid(s2, ticket);
    TicketsApart(s, env.sender, SYSTEM_ASSET, surplus, env.time);
    forall a: Hash, t: int | env.time <= t <= FOREVER ensures Supply(s', a, t) == Supply(s, a, t) {
      CreditSupply(s, env.sender, SYSTEM_ASSET, -TICKET_PRICE, a, t);
      AddLockSupply(s1, env.sender, SYSTEM_ASSET, surplus, env.time, a, t);
      PutTicketSupply(s2, ticket, a, t);
      TicketValue(ticket, need, env.time, a, t);
    }
  }

  /** A debit and a lock leave the tickets and the assets alone. */
  lemma TicketsApart(s: State, who: Address, asset: Hash, amount: seq<Item>, time: Instant)
    ensures var s2 := AddLock(Debit(s, who, asset, TICKET_PRICE), who, asset, amount, time);
            s2.tickets == s.tickets && s2.assets == s.assets
  {
    if amount == [] {
    } else {
    }
  }

  /** The ticket holds what the needed interval takes. */
  lemma TicketValue(ticket: Ticket, need: Item, time: Instant, a: Hash, t: int)
    requires need == Item(MaxInstant(ticket.start, time), ticket.expire, TICKET_PRICE) && time <= t
    ensures TicketVal(ticket, a, t) == if a == SYSTEM_ASSET then ItemVal(need, t) else 0
  {
  }

  // ---------- A ledger for the examples ----------

  /** Accounts 1 and 2 have one unit of asset 7 each. */
  function UnitLedger(): State {
    State(map[(1, 7) := 1, (2, 7) := 1], map[], map[7 := Asset(7, 1, "", "", 0, 2, false, "")], map[], map[], map[],
          map[], map[], 0)
  }

  lemma UnitLedgerValid()
    ensures ValidState(UnitLedger()) && Balance(UnitLedger(), 1, 7) == Balance(UnitLedger(), 2, 7) == 1
  {
  }
}
