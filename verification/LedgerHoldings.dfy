/** Who gains and who loses: what each call does to the holding of every account. Only the sender
    of a call can lose by it. */
module LedgerHoldings {
  import opened TimeLockItems
  import opened TimeLockAlgebra
  import opened TimeLockOps
  import opened FsnTypes
  import opened LedgerState
  import opened LedgerCalls
  import opened LedgerConservation
  import opened LedgerSwaps
  import opened LedgerMultiSwaps
  import opened LedgerRuns

  /** What an account has of an asset at t, in its balance and its time lock. */
  ghost function Holding(s: State, w: Address, a: Hash, t: int): int {
    Balance(s, w, a) + Val(Lock(s, w, a), t)
  }

  lemma HoldingDepends(s: State, s': State, w: Address, a: Hash, t: int)
    requires s.balances == s'.balances && s.locks == s'.locks
    ensures Holding(s', w, a, t) == Holding(s, w, a, t)
  {
  }

  // ---------- One write ----------

  lemma CreditHolding(s: State, who: Address, asset: Hash, amount: int, w: Address, a: Hash, t: int)
    ensures Holding(Credit(s, who, asset, amount), w, a, t) ==
      Holding(s, w, a, t) + if (w, a) == (who, asset) then amount else 0
  {
    hide Credit, Balance, Lock, Val;
    ReadCredit(s, who, asset, amount, w, a);
  }

  lemma AddLockHolding(s: State, who: Address, asset: Hash, amount: seq<Item>, time: Instant, w: Address, a: Hash,
                       t: int)
    requires ValidState(s) && Normal(amount) && time <= t
    ensures Holding(AddLock(s, who, asset, amount, time), w, a, t) ==
      Holding(s, w, a, t) + if (w, a) == (who, asset) then Val(amount, t) else 0
  {
    NormalLock(s, who, asset);
    hide AddLock, Balance, Lock, Val, Plus, Unexpired, ValidState, Normal;
    ReadAddLock(s, who, asset, amount, time, w, a);
    ValNil(t);
    if (w, a) == (who, asset) && amount != [] {
      PlusMeaning(Lock(s, who, asset), amount);
      UnexpiredMeaning(Plus(Lock(s, who, asset), amount), time);
    }
  }

  lemma SubLockHolding(s: State, who: Address, asset: Hash, z: Item, time: Instant, w: Address, a: Hash, t: int)
    requires ValidState(s) && Enough(Lock(s, who, asset), z) && time <= t
    ensures Holding(SubLock(s, who, asset, z, time), w, a, t) ==
      Holding(s, w, a, t) - if (w, a) == (who, asset) then ItemVal(z, t) else 0
  {
    NormalLock(s, who, asset);
    hide SubLock, Balance, Lock, Val, Minus, Unexpired, ValidState, Normal;
    ReadSubLock(s, who, asset, z, time, w, a);
    if (w, a) == (who, asset) {
      MinusMeaning(Lock(s, who, asset), z);
      UnexpiredMeaning(Minus(Lock(s, who, asset), z), time);
    }
  }

  // ---------- Legs ----------

  lemma ReceiveHolding(s: State, who: Address, leg: Leg, time: Instant, w: Address, a: Hash, t: int)
    requires ValidState(s) && leg.total > 0 && time <= t <= FOREVER
    ensures Holding(Receive(s, who, leg, time), w, a, t) ==
      Holding(s, w, a, t) + if w == who then LegVal(leg, a, t) else 0
  {
    hide Holding, Credit, AddLock, ValidState, Val;
    var need := Need(leg, time);
    NeedVal(leg, time, t);
    CreditHolding(s, who, leg.asset, leg.total, w, a, t);
    if !UsesAsset(leg) && ValidItem(need) {
      AddLockHolding(s, who, leg.asset, [need], time, w, a, t);
      ValSingle(need, t);
    }
  }

  lemma TakeOutHolding(s: State, who: Address, leg: Leg, time: Instant, w: Address, a: Hash, t: int)
    requires ValidState(s) && leg.total > 0 && time <= t <= FOREVER && Affordable(s, who, leg, time)
    ensures Holding(TakeOut(s, who, leg, time), w, a, t) ==
      Holding(s, w, a, t) - if w == who then LegVal(leg, a, t) else 0
  {
    hide Holding, Credit, SubLock, ValidState, Val, Enough;
    var need := Need(leg, time);
    NeedVal(leg, time, t);
    CreditHolding(s, who, leg.asset, -leg.total, w, a, t);
    if !UsesAsset(leg) && ValidItem(need) {
      SubLockHolding(s, who, leg.asset, need, time, w, a, t);
    }
  }

  lemma ConvertHolding(s: State, who: Address, asset: Hash, amount: int, time: Instant, w: Address, a: Hash, t: int)
    requires ValidState(s) && 0 < amount <= Balance(s, who, asset) && time <= t <= FOREVER
    ensures Holding(Convert(s, who, asset, amount, time), w, a, t) == Holding(s, w, a, t)
  {
    CreditValid(s, who, asset, -amount);
    hide Holding, Credit, AddLock, ValidState, Val;
    var whole := Lifelong(time, amount);
    CreditHolding(s, who, asset, -amount, w, a, t);
    AddLockHolding(Debit(s, who, asset, amount), who, asset, [whole], time, w, a, t);
    ValSingle(whole, t);
  }

  lemma PrepareHolding(s: State, who: Address, leg: Leg, time: Instant, convert: bool, w: Address, a: Hash, t: int)
    requires ValidState(s) && leg.total > 0 && time <= t <= FOREVER && Prepare(s, who, leg, time, convert).Some?
    ensures Holding(Prepare(s, who, leg, time, convert).value, w, a, t) == Holding(s, w, a, t)
  {
    hide Holding, Convert, ValidState, Enough, Need;
    if !UsesAsset(leg) && Balance(s, who, leg.asset) >= leg.total {
      ConvertHolding(s, who, leg.asset, leg.total, time, w, a, t);
    }
  }

  lemma PayHolding(s: State, who: Address, leg: Leg, time: Instant, convert: bool, w: Address, a: Hash, t: int)
    requires ValidState(s) && leg.total > 0 && 0 < time <= t <= FOREVER && Pay(s, who, leg, time, convert).Some?
    ensures Holding(Pay(s, who, leg, time, convert).value, w, a, t) ==
      Holding(s, w, a, t) - if w == who then LegVal(leg, a, t) else 0
  {
    hide Holding, Prepare, TakeOut, ValidState, LegVal, Affordable, Supply;
    PrepareMeaning(s, who, leg, time, convert);
    PrepareHolding(s, who, leg, time, convert, w, a, t);
    TakeOutHolding(Prepare(s, who, leg, time, convert).value, who, leg, time, w, a, t);
  }

  lemma {:induction false} PayAllHolding(s: State, who: Address, legs: seq<Leg>, time: Instant, w: Address, a: Hash,
                                         t: int)
    requires ValidState(s) && AllPositive(legs) && 0 < time <= t <= FOREVER && PayAll(s, who, legs, time).Some?
    ensures Holding(PayAll(s, who, legs, time).value, w, a, t) ==
      Holding(s, w, a, t) - if w == who then LegsVal(legs, a, t) else 0
  {
    hide Holding, Pay, ValidState, LegVal, Supply;
    if legs != [] {
      var front, last := legs[..|legs| - 1], legs[|legs| - 1];
      PayAllMeaning(s, who, front, time);
      PayAllHolding(s, who, front, time, w, a, t);
      PayHolding(PayAll(s, who, front, time).value, who, last, time, true, w, a, t);
    }
  }

  lemma {:induction false} ReceiveAllHolding(s: State, who: Address, legs: seq<Leg>, time: Instant, w: Address, a: Hash,
                                             t: int)
    requires ValidState(s) && AllPositive(legs) && time <= t <= FOREVER
    ensures Holding(ReceiveAll(s, who, legs, time), w, a, t) ==
      Holding(s, w, a, t) + if w == who then LegsVal(legs, a, t) else 0
  {
    hide Holding, Receive, ValidState, LegVal, Supply;
    if legs != [] {
      var front, last := legs[..|legs| - 1], legs[|legs| - 1];
      ReceiveAllMeaning(s, who, front, time);
      ReceiveAllHolding(s, who, front, time, w, a, t);
      ReceiveHolding(ReceiveAll(s, who, front, time), who, last, time, w, a, t);
    }
  }

  // ---------- Swaps ----------

  /** An accepted swap costs its owner exactly what it holds in escrow. */
  lemma MakeSwapHolding(s: State, env: Env, q: MakeSwapParam, ext: bool, w: Address, a: Hash, t: int)
    requires ValidState(s) && 0 < env.time <= t <= FOREVER
    ensures var (s', r) := MakeSwap(s, env, q, ext);
            && Holding(s', w, a, t) ==
                 Holding(s, w, a, t) - (if r == Done && w == env.sender then Escrow(s'.swaps[env.txHash], a, t) else 0)
            && (r == Done ==> env.txHash in s'.swaps && s'.swaps[env.txHash].owner == env.sender)
  {
    hide Holding, Pay, ValidState, LegVal, Supply;
    if MakeSwap(s, env, q, ext).1 == Done {
      var swap := NewSwap(s, env, AdjustedSwap(q));
      if swap.fromAsset == USAN_ASSET {
        HoldingDepends(s, MakeSwap(s, env, q, ext).0, w, a, t);
      } else {
        CheckedSwapPositive(s, env, q);
        PayHolding(s, env.sender, FromLeg(swap, swap.size), env.time, ext, w, a, t);
        var s1 := Pay(s, env.sender, FromLeg(swap, swap.size), env.time, ext).value;
        HoldingDepends(s1, MakeSwap(s, env, q, ext).0, w, a, t);
      }
    }
  }

  lemma CheckedSwapPositive(s: State, env: Env, q: MakeSwapParam)
    requires CheckMakeSwap(q, env.time)
    ensures var swap := NewSwap(s, env, AdjustedSwap(q));
            FromLeg(swap, swap.size).total > 0
  {
    var p := AdjustedSwap(q);
    ProductPositive(p.minFrom, p.size);
  }

  /** Recalling a swap gives its owner exactly what it held. */
  lemma RecallSwapHolding(s: State, env: Env, id: Hash, w: Address, a: Hash, t: int)
    requires ValidState(s) && env.time <= t <= FOREVER
    ensures var (s', r) := RecallSwap(s, env, id);
            && (r == Done ==> id in s.swaps && s.swaps[id].owner == env.sender)
            && Holding(s', w, a, t) ==
                 Holding(s, w, a, t) + (if r == Done && w == env.sender then Escrow(s.swaps[id], a, t) else 0)
  {
    hide Holding, Receive, ValidState, LegVal, Supply;
    if RecallSwap(s, env, id).1 == Done {
      SwapIsGood(s, id);
      var swap := s.swaps[id];
      var s1 := s.(swaps := s.swaps - {id});
      HoldingDepends(s, s1, w, a, t);
      DropSwapValid(s, id);
      if swap.fromAsset != USAN_ASSET {
        FromLegPositive(swap, swap.size);
        ReceiveHolding(s1, env.sender, FromLeg(swap, swap.size), env.time, w, a, t);
      }
    }
  }

  /** Making a swap and recalling it leaves every holding as it was, from the recall on. */
  lemma MakeThenRecall(s: State, env: Env, q: MakeSwapParam, ext: bool, env': Env, w: Address, a: Hash, t: int)
    requires ValidState(s) && 0 < env.time <= t <= FOREVER && env'.time <= t && env'.sender == env.sender
    requires MakeSwap(s, env, q, ext).1 == Done
    ensures var s1 := MakeSwap(s, env, q, ext).0;
            var (s2, r) := RecallSwap(s1, env', env.txHash);
            r == Done && Holding(s2, w, a, t) == Holding(s, w, a, t)
  {
    hide Holding, MakeSwap, ValidState, Supply, Conserves, Escrow, Receive;
    MakeSwapHolding(s, env, q, ext, w, a, t);
    MakeSwapConserves(s, env, q, ext);
    RecallSwapHolding(MakeSwap(s, env, q, ext).0, env', env.txHash, w, a, t);
  }

  /** A taker pays the price to the owner and gets the released part of the escrow, or nothing
      changes. */
  lemma TakeSwapHolding(s: State, env: Env, id: Hash, size: int, ext: bool, w: Address, a: Hash, t: int)
    requires ValidState(s) && 0 < env.time <= t <= FOREVER
    ensures var (s', r) := TakeSwap(s, env, id, size, ext);
            && (r == Done <==> SwapIsTaken(s, env, id, size, ext))
            && Holding(s', w, a, t) == Holding(s, w, a, t) + TakenSwap(s, env, id, size, ext, w, a, t)
  {
    TakenIsDone(s, env, id, size, ext);
    hide Holding, Receive, TakeOut, Prepare, ValidState, LegVal, Supply, Affordable, ShrinkSwap, TransferNotation,
      CheckTakeSwap;
    if SwapIsTaken(s, env, id, size, ext) {
      var swap := s.swaps[id];
      SwapIsGood(s, id);
      TakeChecked(size, swap, env.time);
      TakeHolding(s, env, swap, size, ext, w, a, t);
    }
  }

  ghost function TakenSwap(s: State, env: Env, id: Hash, size: int, ext: bool, w: Address, a: Hash, t: int): int {
    if !SwapIsTaken(s, env, id, size, ext) then 0
    else
      var price, goods := LegVal(ToLeg(s.swaps[id], size), a, t), Released(s.swaps[id], size, a, t);
      (if w == s.swaps[id].owner then price else 0) + if w == env.sender then goods - price else 0
  }

  lemma ExchangeHolding(s: State, owner: Address, taker: Address, price: Leg, time: Instant, w: Address, a: Hash,
                        t: int)
    requires ValidState(s) && price.total > 0 && 0 < time <= t <= FOREVER && Affordable(s, taker, price, time)
    ensures Holding(TakeOut(Receive(s, owner, price, time), taker, price, time), w, a, t) ==
      Holding(s, w, a, t) + (if w == owner then LegVal(price, a, t) else 0)
      - if w == taker then LegVal(price, a, t) else 0
  {
    hide Holding, Receive, TakeOut, ValidState, LegVal, Supply, Affordable;
    ReceiveHolding(s, owner, price, time, w, a, t);
    ReceiveMeaning(s, owner, price, time);
    ReceiveKeepsAffordable(s, owner, price, time, taker);
    TakeOutHolding(Receive(s, owner, price, time), taker, price, time, w, a, t);
  }

  lemma TakeHolding(s: State, env: Env, swap: Swap, size: int, ext: bool, w: Address, a: Hash, t: int)
    requires ValidState(s) && 0 < env.time <= t <= FOREVER && GoodSwap(swap)
    requires swap.id in s.swaps && s.swaps[swap.id] == swap
    requires 0 < size <= swap.size && Prepare(s, env.sender, ToLeg(swap, size), env.time, ext).Some?
    ensures var price := ToLeg(swap, size);
            var s1 := Prepare(s, env.sender, price, env.time, ext).value;
            var s2 := Receive(ShrinkSwap(s1, swap, size), swap.owner, price, env.time);
            var s3 := TakeOut(s2, env.sender, price, env.time);
            var paid := Holding(s, w, a, t) + (if w == swap.owner then LegVal(price, a, t) else 0)
                        - if w == env.sender then LegVal(price, a, t) else 0;
            && Holding(s3, w, a, t) == paid
            && (match TransferNotation(s3, swap.notation, swap.owner, env.sender)
                case None => true
                case Some(s4) => Holding(s4, w, a, t) == paid)
            && Holding(Receive(s3, env.sender, FromLeg(swap, size), env.time), w, a, t) ==
               paid + if w == env.sender then LegVal(FromLeg(swap, size), a, t) else 0
  {
    hide Holding, Receive, TakeOut, Prepare, ValidState, LegVal, Supply, Affordable, TransferNotation, ShrinkSwap;
    var price := ToLeg(swap, size);
    FromLegPositive(swap, size);
    PrepareMeaning(s, env.sender, price, env.time, ext);
    PrepareHolding(s, env.sender, price, env.time, ext, w, a, t);
    var s1 := Prepare(s, env.sender, price, env.time, ext).value;
    ShrinkSwapMeaning(s1, swap, size);
    ShrinkKeepsAssets(s1, swap, size);
    var s1' := ShrinkSwap(s1, swap, size);
    HoldingDepends(s1, s1', w, a, t);
    AffordableDepends(s1, s1', env.sender, price, env.time);
    ExchangeMeaning(s1', swap.owner, env.sender, price, env.time);
    ExchangeHolding(s1', swap.owner, env.sender, price, env.time, w, a, t);
    var s3 := TakeOut(Receive(s1', swap.owner, price, env.time), env.sender, price, env.time);
    NotationHolding(s3, swap.notation, swap.owner, env.sender, w, a, t);
    ReceiveHolding(s3, env.sender, FromLeg(swap, size), env.time, w, a, t);
  }

  lemma NotationHolding(s: State, notation: nat, from: Address, to: Address, w: Address, a: Hash, t: int)
    ensures match TransferNotation(s, notation, from, to)
            case None => true
            case Some(s') => Holding(s', w, a, t) == Holding(s, w, a, t)
  {
    hide Holding;
    match TransferNotation(s, notation, from, to)
    case None =>
    case Some(s') => HoldingDepends(s, s', w, a, t);
  }

  // ---------- Multi swaps ----------

  lemma MakeMultiSwapHolding(s: State, env: Env, p: MakeMultiSwapParam, w: Address, a: Hash, t: int)
    requires ValidState(s) && 0 < env.time <= t <= FOREVER
    ensures Holding(MakeMultiSwap(s, env, p).0, w, a, t) == Holding(s, w, a, t)
      - if w == env.sender && MultiSwapPaid(s, env, p) then MultiEscrow(NewMultiSwap(s, env, p), a, t) else 0
  {
    hide Holding, PayAll, ValidState, LegsVal, Supply, CheckMakeMultiSwap, ToAssetsError;
    if MultiSwapPaid(s, env, p) {
      var swap := NewMultiSwap(s, env, p);
      CheckedMultiIsGood(s, env, p);
      MultiLegsPositive(swap, swap.size);
      PayAllHolding(s, env.sender, FromLegs(swap, swap.size), env.time, w, a, t);
      var s1 := PayAll(s, env.sender, FromLegs(swap, swap.size), env.time).value;
      HoldingDepends(s1, MakeMultiSwap(s, env, p).0, w, a, t);
    }
  }

  lemma RecallMultiSwapHolding(s: State, env: Env, id: Hash, w: Address, a: Hash, t: int)
    requires ValidState(s) && env.time <= t <= FOREVER
    ensures var (s', r) := RecallMultiSwap(s, env, id);
            && (r == Done ==> id in s.multiSwaps && s.multiSwaps[id].owner == env.sender)
            && Holding(s', w, a, t) ==
                 Holding(s, w, a, t) + if r == Done && w == env.sender then MultiEscrow(s.multiSwaps[id], a, t) else 0
  {
    hide Holding, ReceiveAll, ValidState, LegsVal, Supply;
    if RecallMultiSwap(s, env, id).1 == Done {
      MultiSwapIsGood(s, id);
      var swap := s.multiSwaps[id];
      var s1 := s.(multiSwaps := s.multiSwaps - {id});
      HoldingDepends(s, s1, w, a, t);
      DropMultiValid(s, id);
      MultiLegsPositive(swap, swap.size);
      ReceiveAllHolding(s1, env.sender, FromLegs(swap, swap.size), env.time, w, a, t);
    }
  }

  /** The same exchange with all legs at once. */
  lemma TakeMultiSwapHolding(s: State, env: Env, id: Hash, size: int, w: Address, a: Hash, t: int)
    requires ValidState(s) && 0 < env.time <= t <= FOREVER
    ensures var (s', r) := TakeMultiSwap(s, env, id, size);
            && (r == Done ==> id in s.multiSwaps && SameLengths(s.multiSwaps[id]))
            && Holding(s', w, a, t) == Holding(s, w, a, t) +
               if r == Done then TakenMulti(s.multiSwaps[id], env.sender, size, w, a, t) else 0
  {
    hide Holding, PayAll, ReceiveAll, ValidState, LegsVal, Supply, CheckTakeMultiSwap, FillTable, ShrinkMultiSwap;
    if TakeMultiSwap(s, env, id, size).1 == Done {
      MultiSwapIsGood(s, id);
      TakeMultiChecked(size, s.multiSwaps[id], env.time);
      TakeMultiHolding(s, env, s.multiSwaps[id], size, w, a, t);
    }
  }

  ghost function TakenMulti(swap: MultiSwap, sender: Address, size: int, w: Address, a: Hash, t: int): int
    requires SameLengths(swap)
  {
    var price, goods := LegsVal(ToLegs(swap, size), a, t), LegsVal(FromLegs(swap, size), a, t);
    (if w == swap.owner then price else 0) + if w == sender then goods - price else 0
  }

  lemma TakeMultiHolding(s: State, env: Env, swap: MultiSwap, size: int, w: Address, a: Hash, t: int)
    requires ValidState(s) && 0 < env.time <= t <= FOREVER && GoodMultiSwap(swap) && SameLengths(swap)
    requires swap.id in s.multiSwaps && s.multiSwaps[swap.id] == swap
    requires 0 < size <= swap.size && PayAll(s, env.sender, ToLegs(swap, size), env.time).Some?
    ensures var s1 := PayAll(s, env.sender, ToLegs(swap, size), env.time).value;
            var s2 := ReceiveAll(ShrinkMultiSwap(s1, swap, size), swap.owner, ToLegs(swap, size), env.time);
            Holding(ReceiveAll(s2, env.sender, FromLegs(swap, size), env.time), w, a, t) ==
            Holding(s, w, a, t) + TakenMulti(swap, env.sender, size, w, a, t)
  {
    hide Holding, PayAll, ReceiveAll, ValidState, LegsVal, Supply;
    var price := ToLegs(swap, size);
    MultiLegsPositive(swap, size);
    PayAllMeaning(s, env.sender, price, env.time);
    PayAllHolding(s, env.sender, price, env.time, w, a, t);
    var s1 := PayAll(s, env.sender, price, env.time).value;
    ShrinkMultiMeaning(s1, swap, size);
    var s1' := ShrinkMultiSwap(s1, swap, size);
    HoldingDepends(s1, s1', w, a, t);
    hide ShrinkMultiSwap;
    ReceiveAllMeaning(s1', swap.owner, price, env.time);
    ReceiveAllHolding(s1', swap.owner, price, env.time, w, a, t);
    var s2 := ReceiveAll(s1', swap.owner, price, env.time);
    ReceiveAllHolding(s2, env.sender, FromLegs(swap, size), env.time, w, a, t);
  }

  // ---------- Assets, time locks and tickets ----------

  lemma SendAssetHolding(s: State, env: Env, p: SendAssetParam, w: Address, a: Hash, t: int)
    ensures var (s', r) := SendAsset(s, env, p);
            Holding(s', w, a, t) == Holding(s, w, a, t) +
              if r == Done && a == p.asset
              then (if w == p.to then p.value else 0) - (if w == env.sender then p.value else 0)
              else 0
  {
    hide Holding, Credit;
    CreditHolding(s, env.sender, p.asset, -p.value, w, a, t);
    CreditHolding(Debit(s, env.sender, p.asset, p.value), p.to, p.asset, p.value, w, a, t);
  }

  /** A new supply goes to the sender. */
  lemma GenAssetHolding(s: State, env: Env, p: GenAssetParam, w: Address, a: Hash, t: int)
    ensures var (s', r) := GenAsset(s, env, p);
            Holding(s', w, a, t) ==
              Holding(s, w, a, t) + if r == Done && (w, a) == (env.sender, env.txHash) then p.total else 0
  {
    hide Holding, Credit, CheckGenAsset;
    if GenAsset(s, env, p).1 == Done {
      var s1 := s.(assets := s.assets[env.txHash := NewAsset(p, env)]);
      HoldingDepends(s, s1, w, a, t);
      CreditHolding(s1, env.sender, env.txHash, p.total, w, a, t);
    }
  }

  /** A change of supply is the owner's, who can only take from its own account. */
  lemma ValueChangeHolding(s: State, env: Env, p: ValueChangeParam, w: Address, a: Hash, t: int)
    ensures var (s', r) := ValueChange(s, env, p);
            var amount := if p.isInc then p.value else -p.value;
            && Holding(s', w, a, t) ==
                 Holding(s, w, a, t) + (if r == Done && (w, a) == (p.to, p.asset) then amount else 0)
            && (r == Done ==> p.asset in s.assets && s.assets[p.asset].owner == env.sender && p.value > 0)
            && (r == Done && !p.isInc ==> p.to == env.sender)
  {
    hide Holding, Credit, Balance;
    if ValueChange(s, env, p).1 == Done {
      var amount := if p.isInc then p.value else -p.value;
      CreditHolding(s, p.to, p.asset, amount, w, a, t);
      HoldingDepends(Credit(s, p.to, p.asset, amount), ValueChange(s, env, p).0, w, a, t);
    }
  }

  lemma TimeLockOthersKeep(s: State, env: Env, p: TimeLockParam, w: Address, a: Hash, t: int)
    requires ValidState(s) && 0 < env.time <= t <= FOREVER && w != env.sender
    ensures Holding(TimeLockStep(s, env, p).0, w, a, t) >= Holding(s, w, a, t)
  {
    hide Holding, AddLock, SubLock, Credit, ValidState, Enough, LockFromAsset, Val, Minus, CheckTimeLock, Lock;
    if TimeLockStep(s, env, p).0 == s {
    } else {
      var q := AdjustedTimeLock(p);
      var need := Need(Leg(q.asset, q.start, q.end, q.value), env.time);
      TimeLockPositive(q, env.time);
      match q.kind
      case AssetToTimeLock =>
        LockOthersKeep(s, env, q, need, w, a, t);
      case TimeLockToTimeLock =>
        SubLockHolding(s, env.sender, q.asset, need, env.time, w, a, t);
        SubLockValid(s, env.sender, q.asset, need, env.time);
        AddLockHolding(SubLock(s, env.sender, q.asset, need, env.time), q.to, q.asset, [need], env.time, w, a, t);
        ValSingle(need, t);
      case TimeLockToAsset =>
        SubLockHolding(s, env.sender, q.asset, need, env.time, w, a, t);
        CreditHolding(SubLock(s, env.sender, q.asset, need, env.time), q.to, q.asset, q.value, w, a, t);
      case OtherKind =>
    }
  }

  lemma TimeLockPositive(p: TimeLockParam, time: Instant)
    requires CheckTimeLock(p, time)
    ensures p.value > 0
  {
  }

  lemma LockOthersKeep(s: State, env: Env, p: TimeLockParam, need: Item, w: Address, a: Hash, t: int)
    requires ValidState(s) && 0 < env.time <= t <= FOREVER && w != env.sender && p.value > 0
    requires ValidItem(need) && need.value == p.value && env.time <= need.start
    ensures Holding(LockFromAsset(s, env, p, need).0, w, a, t) >= Holding(s, w, a, t)
  {
    hide Holding, AddLock, Credit, ValidState, Val, Minus, Balance, Enough, Normal, Lifelong;
    if Balance(s, env.sender, p.asset) >= p.value {
      CreditValid(s, env.sender, p.asset, -p.value);
      var s1, whole := Debit(s, env.sender, p.asset, p.value), Lifelong(env.time, p.value);
      CreditHolding(s, env.sender, p.asset, -p.value, w, a, t);
      LifelongNormal(env.time, p.value);
      if env.sender == p.to {
        AddLockHolding(s1, p.to, p.asset, [whole], env.time, w, a, t);
      } else {
        LockOtherHolding(s1, env, p, need, w, a, t);
      }
    }
  }

  lemma LifelongNormal(time: Instant, value: int)
    requires value > 0
    ensures Normal([Lifelong(time, value)])
  {
  }

  lemma LockOtherHolding(s: State, env: Env, p: TimeLockParam, need: Item, w: Address, a: Hash, t: int)
    requires ValidState(s) && 0 < env.time <= t <= FOREVER && w != env.sender && p.value > 0
    requires ValidItem(need) && need.value == p.value && env.time <= need.start
    ensures var s2 := AddLock(s, env.sender, p.asset, Minus([Lifelong(env.time, p.value)], need), env.time);
            Holding(AddLock(s2, p.to, p.asset, [need], env.time), w, a, t) >= Holding(s, w, a, t)
  {
    hide Holding, AddLock, ValidState, Val, Minus, Enough, Lifelong;
    var surplus := Minus([Lifelong(env.time, p.value)], need);
    SurplusMeaning(env.time, p.value, need);
    AddLockHolding(s, env.sender, p.asset, surplus, env.time, w, a, t);
    AddLockValid(s, env.sender, p.asset, surplus, env.time);
    AddLockHolding(AddLock(s, env.sender, p.asset, surplus, env.time), p.to, p.asset, [need], env.time, w, a, t);
    ValSingle(need, t);
  }

  lemma BuyTicketOthersKeep(s: State, env: Env, p: BuyTicketParam, w: Address, a: Hash, t: int)
    requires ValidState(s) && 0 < env.time <= t <= FOREVER && w != env.sender
    ensures Holding(BuyTicket(s, env, p).0, w, a, t) == Holding(s, w, a, t)
  {
    var need := Item(MaxInstant(p.start, env.time), p.end, TICKET_PRICE);
    if BuyTicket(s, env, p).1 == Done {
      if Enough(Lock(s, env.sender, SYSTEM_ASSET), need) {
        hide Holding, SubLock, ValidState, Enough, Val;
        SubLockHolding(s, env.sender, SYSTEM_ASSET, need, env.time, w, a, t);
        HoldingDepends(SubLock(s, env.sender, SYSTEM_ASSET, need, env.time), BuyTicket(s, env, p).0, w, a, t);
      } else {
        CreditValid(s, env.sender, SYSTEM_ASSET, -TICKET_PRICE);
        hide Holding, AddLock, Credit, ValidState, Enough, Val, Minus;
        var s1, surplus := Debit(s, env.sender, SYSTEM_ASSET, TICKET_PRICE),
          Minus([Lifelong(env.time, TICKET_PRICE)], need);
        SurplusMeaning(env.time, TICKET_PRICE, need);
        CreditHolding(s, env.sender, SYSTEM_ASSET, -TICKET_PRICE, w, a, t);
        AddLockHolding(s1, env.sender, SYSTEM_ASSET, surplus, env.time, w, a, t);
        HoldingDepends(AddLock(s1, env.sender, SYSTEM_ASSET, surplus, env.time), BuyTicket(s, env, p).0, w, a, t);
      }
    }
  }

  // ---------- Every call and every run ----------

  /** No account but the sender loses anything by a call, at any instant from the block's time on. */
  lemma OthersKeep(s: State, env: Env, call: Call, w: Address, a: Hash, t: int)
    requires ValidState(s) && 0 < env.time <= t <= FOREVER && w != env.sender
    ensures Holding(Step(s, env, call).0, w, a, t) >= Holding(s, w, a, t)
  {
    hide Holding, ValidState, SendAsset, TimeLockStep, BuyTicket, ValueChange, GenAsset, MakeSwap, RecallSwap, TakeSwap,
         MakeMultiSwap, RecallMultiSwap, TakeMultiSwap, LegsVal, Escrow, MultiEscrow;
    match call
    case GenAssetCall(p) => GenAssetHolding(s, env, p, w, a, t);
    case SendAssetCall(p) =>
      SendAssetHolding(s, env, p, w, a, t);
      SentIsPositive(s, env, p);
    case TimeLockCall(p) => TimeLockOthersKeep(s, env, p, w, a, t);
    case BuyTicketCall(p) => BuyTicketOthersKeep(s, env, p, w, a, t);
    case ValueChangeCall(p) => ValueChangeHolding(s, env, p, w, a, t);
    case MakeSwapCall(p, ext) => MakeSwapHolding(s, env, p, ext, w, a, t);
    case RecallSwapCall(id) => RecallSwapHolding(s, env, id, w, a, t);
    case TakeSwapCall(id, size, ext) =>
      TakeSwapHolding(s, env, id, size, ext, w, a, t);
      TakenSwapGain(s, env, id, size, ext, w, a, t);
    case MakeMultiSwapCall(p) => MakeMultiSwapHolding(s, env, p, w, a, t);
    case RecallMultiSwapCall(id) => RecallMultiSwapHolding(s, env, id, w, a, t);
    case TakeMultiSwapCall(id, size) =>
      TakeMultiSwapHolding(s, env, id, size, w, a, t);
      TakenMultiGain(s, env, id, size, w, a, t);
    case GenNotationCall => HoldingDepends(s, GenNotation(s, env).0, w, a, t);
    case UnsupportedCall =>
  }

  lemma SentIsPositive(s: State, env: Env, p: SendAssetParam)
    ensures SendAsset(s, env, p).1 == Done ==> p.value > 0
  {
  }

  lemma TakenSwapGain(s: State, env: Env, id: Hash, size: int, ext: bool, w: Address, a: Hash, t: int)
    requires ValidState(s) && w != env.sender
    ensures TakenSwap(s, env, id, size, ext, w, a, t) >= 0
  {
    hide ValidState, Prepare, CheckTakeSwap;
    if SwapIsTaken(s, env, id, size, ext) {
      SwapIsGood(s, id);
      TakeChecked(size, s.swaps[id], env.time);
      FromLegPositive(s.swaps[id], size);
    }
  }

  lemma TakenMultiGain(s: State, env: Env, id: Hash, size: int, w: Address, a: Hash, t: int)
    requires ValidState(s) && w != env.sender
    ensures TakeMultiSwap(s, env, id, size).1 == Done ==>
      && id in s.multiSwaps && SameLengths(s.multiSwaps[id])
      && TakenMulti(s.multiSwaps[id], env.sender, size, w, a, t) >= 0
  {
    hide ValidState, PayAll, ReceiveAll, CheckTakeMultiSwap, FillTable, LegsVal;
    if TakeMultiSwap(s, env, id, size).1 == Done {
      MultiSwapIsGood(s, id);
      TakeMultiChecked(size, s.multiSwaps[id], env.time);
      MultiLegsPositive(s.multiSwaps[id], size);
      LegsValNonNegative(ToLegs(s.multiSwaps[id], size), a, t);
    }
  }

  /** Over a whole run an account that sends nothing never loses. */
  lemma {:induction false} SilentKeep(s: State, calls: seq<Transaction>, w: Address, a: Hash, t: int)
    requires ValidState(s) && FreshRun(s, calls) && 0 <= t <= FOREVER
    requires forall k :: 0 <= k < |calls| ==> calls[k].0.time <= t && calls[k].0.sender != w
    ensures Holding(Run(s, calls), w, a, t) >= Holding(s, w, a, t)
  {
    hide Step, ValidState, Holding;
    if calls != [] {
      var front, last := calls[..|calls| - 1], calls[|calls| - 1];
      SilentKeep(s, front, w, a, t);
      RunMultiIds(s, front);
      OthersKeep(Run(s, front), last.0, last.1, w, a, t);
    }
  }
}
