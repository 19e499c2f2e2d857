/** Conservation by swaps: an open swap holds its offer in escrow, taking it exchanges the escrow
    for the price, recalling it returns the escrow. */
module LedgerSwaps {
  import opened TimeLockItems
  import opened TimeLockAlgebra
  import opened TimeLockOps
  import opened FsnTypes
  import opened LedgerState
  import opened LedgerCalls
  import opened LedgerConservation

  // ---------- Single swaps ----------

  lemma FromLegPositive(swap: Swap, size: int)
    requires GoodSwap(swap) && size > 0
    ensures FromLeg(swap, size).total > 0 && ToLeg(swap, size).total > 0
  {
    ProductPositive(swap.minFrom, size);
    ProductPositive(swap.minTo, size);
  }

  lemma OpenSwapMeaning(s: State, swap: Swap)
    requires ValidState(s) && GoodSwap(swap) && swap.id !in s.swaps
    ensures ValidState(s.(swaps := s.swaps[swap.id := swap]))
    ensures forall a: Hash, t: int ::
      Supply(s.(swaps := s.swaps[swap.id := swap]), a, t) == Supply(s, a, t) + Escrow(swap, a, t)
  {
    PutSwapValid(s, swap);
    hide Supply, ValidState, Escrow;
    forall a: Hash, t: int
      ensures Supply(s.(swaps := s.swaps[swap.id := swap]), a, t) == Supply(s, a, t) + Escrow(swap, a, t)
    {
      PutSwapSupply(s, swap, a, t);
    }
  }

  lemma MakeSwapConserves(s: State, env: Env, q: MakeSwapParam, ext: bool)
    requires ValidState(s) && env.time > 0
    ensures ValidState(MakeSwap(s, env, q, ext).0) && Conserves(s, MakeSwap(s, env, q, ext).0, env.time)
  {
    hide Supply, ValidState, Pay, LegVal;
    if MakeSwap(s, env, q, ext).1 == Done {
      var swap := NewSwap(s, env, AdjustedSwap(q));
      if swap.fromAsset == USAN_ASSET {
        OpenSwapMeaning(s, swap);
      } else {
        PayMeaning(s, env.sender, FromLeg(swap, swap.size), env.time, ext);
        var s1 := Pay(s, env.sender, FromLeg(swap, swap.size), env.time, ext).value;
        OpenSwapMeaning(s1, swap);
      }
    }
  }

  lemma RecallSwapConserves(s: State, env: Env, id: Hash)
    requires ValidState(s)
    ensures ValidState(RecallSwap(s, env, id).0) && Conserves(s, RecallSwap(s, env, id).0, env.time)
  {
    if RecallSwap(s, env, id).1 == Done {
      var swap := s.swaps[id];
      var s1 := s.(swaps := s.swaps - {id});
      assert swap.id == id && GoodSwap(swap);
      hide Supply, ValidState, LegVal, Receive;
      DropSwapValid(s, id);
      forall a: Hash, t: int ensures Supply(s1, a, t) == Supply(s, a, t) - Escrow(swap, a, t) {
        DropSwapSupply(s, id, a, t);
      }
      if swap.fromAsset != USAN_ASSET {
        FromLegPositive(swap, swap.size);
        ReceiveMeaning(s1, env.sender, FromLeg(swap, swap.size), env.time);
      }
    }
  }

  lemma ReceiveInBalance(s: State, owner: Address, leg: Leg, time: Instant, who: Address)
    requires UsesAsset(leg) && leg.total > 0
    ensures Balance(Receive(s, owner, leg, time), who, leg.asset) >= Balance(s, who, leg.asset)
  {
    if owner == who {
    } else {
    }
  }

  lemma ReceiveInLock(s: State, owner: Address, leg: Leg, time: Instant, who: Address)
    requires !UsesAsset(leg) && ValidItem(Need(leg, time))
    ensures Lock(Receive(s, owner, leg, time), who, leg.asset) ==
      if owner == who
      then Unexpired(Plus(Lock(s, who, leg.asset), [Need(leg, time)]), time)
      else Lock(s, who, leg.asset)
  {
    hide Plus, Unexpired, Need;
    if owner == who {
    } else {
    }
  }

  /** What the owner receives cannot make the price unaffordable to the taker, even when the
      taker is the owner. */
  lemma ReceiveKeepsAffordable(s: State, owner: Address, leg: Leg, time: Instant, who: Address)
    requires ValidState(s) && leg.total > 0 && time > 0 && Affordable(s, who, leg, time)
    ensures Affordable(Receive(s, owner, leg, time), who, leg, time)
  {
    var need := Need(leg, time);
    assert Normal(Lock(s, who, leg.asset));
    hide Enough, Plus, Unexpired, ValidState, Normal, Receive;
    if UsesAsset(leg) {
      ReceiveInBalance(s, owner, leg, time, who);
    } else if ValidItem(need) {
      AddKeepsEnough(Lock(s, who, leg.asset), need, time);
      ReceiveInLock(s, owner, leg, time, who);
    } else {
    }
  }

  lemma AddKeepsEnough(had: seq<Item>, need: Item, time: Instant)
    requires Normal(had) && Enough(had, need) && need.start >= time > 0
    ensures Enough(Unexpired(Plus(had, [need]), time), need)
  {
    var sum := Plus(had, [need]);
    PlusMeaning(had, [need]);
    UnexpiredMeaning(sum, time);
    forall t: int | need.start <= t <= need.end ensures Val(Unexpired(sum, time), t) >= need.value {
      ValSingle(need, t);
      assert Val(sum, t) == Val(had, t) + Val([need], t);
      assert Val(had, t) >= need.value;
    }
  }

  ghost function Released(swap: Swap, size: int, a: Hash, t: int): int {
    if swap.fromAsset == USAN_ASSET then 0 else LegVal(FromLeg(swap, size), a, t)
  }

  /** Shrinking a swap gives up the escrow of the part that is taken. */
  lemma ShrinkSwapMeaning(s: State, swap: Swap, size: int)
    requires ValidState(s) && swap.id in s.swaps && s.swaps[swap.id] == swap && 0 < size <= swap.size
    ensures ValidState(ShrinkSwap(s, swap, size))
    ensures forall a: Hash, t: int ::
      Supply(ShrinkSwap(s, swap, size), a, t) == Supply(s, a, t) - Released(swap, size, a, t)
  {
    var rest := swap.(size := swap.size - size);
    assert GoodSwap(swap);
    hide Supply, ValidState;
    if swap.size == size {
      DropSwapValid(s, swap.id);
    } else {
      PutSwapValid(s, rest);
    }
    Distributes(swap.minFrom, size, swap.size - size);
    forall a: Hash, t: int
      ensures Supply(ShrinkSwap(s, swap, size), a, t) == Supply(s, a, t) - Released(swap, size, a, t)
    {
      if swap.size == size {
        DropSwapSupply(s, swap.id, a, t);
      } else {
        PutSwapSupply(s, rest, a, t);
      }
    }
  }

  /** The exchange itself: the taker's price goes to the owner, the escrow to the taker. */
  lemma ExchangeMeaning(s: State, owner: Address, taker: Address, price: Leg, time: Instant)
    requires ValidState(s) && price.total > 0 && time > 0 && Affordable(s, taker, price, time)
    ensures var s' := TakeOut(Receive(s, owner, price, time), taker, price, time);
            && ValidState(s') && SameRecords(s, s')
            && forall a: Hash, t: int :: time <= t <= FOREVER ==> Supply(s', a, t) == Supply(s, a, t)
  {
    hide Supply, ValidState, LegVal, Receive, TakeOut, Affordable;
    ReceiveMeaning(s, owner, price, time);
    ReceiveKeepsAffordable(s, owner, price, time, taker);
    TakeOutMeaning(Receive(s, owner, price, time), taker, price, time);
  }

  /** Moving a number keeps every account's number looked up to that account. */
  lemma MoveKeepsNotations(s: State, notation: nat, from: Address, to: Address)
    requires GoodNotations(s.notations, s.notationOwners, s.notationCount)
    ensures match TransferNotation(s, notation, from, to)
            case None => true
            case Some(s') => GoodNotations(s'.notations, s'.notationOwners, s'.notationCount)
  {
    match TransferNotation(s, notation, from, to)
    case None =>
    case Some(s') =>
      forall w | w in s'.notations && s'.notations[w] != 0
        ensures s'.notations[w] in s'.notationOwners && s'.notationOwners[s'.notations[w]] == w
      {
        if w != to {
          assert w in s.notations && s.notations[w] == s'.notations[w];
        }
      }
  }

  lemma TransferNotationMeaning(s: State, notation: nat, from: Address, to: Address)
    requires ValidState(s)
    ensures match TransferNotation(s, notation, from, to)
            case None => true
            case Some(s') =>
              && ValidState(s') && s'.assets == s.assets
              && forall a: Hash, t: int :: Supply(s', a, t) == Supply(s, a, t)
  {
    hide GoodNotations;
    MoveKeepsNotations(s, notation, from, to);
    match TransferNotation(s, notation, from, to)
    case None =>
    case Some(s') =>
      hide Supply;
      forall a: Hash, t: int ensures Supply(s', a, t) == Supply(s, a, t) {
        SupplyDepends(s, s', a, t);
      }
  }

  lemma AffordableDepends(s: State, s': State, who: Address, leg: Leg, time: Instant)
    requires s.balances == s'.balances && s.locks == s'.locks && Affordable(s, who, leg, time)
    ensures Affordable(s', who, leg, time)
  {
  }

  lemma SwapIsGood(s: State, id: Hash)
    requires ValidState(s) && id in s.swaps
    ensures s.swaps[id].id == id && GoodSwap(s.swaps[id])
  {
  }

  lemma TakeSwapConserves(s: State, env: Env, id: Hash, size: int, ext: bool)
    requires ValidState(s) && env.time > 0
    ensures ValidState(TakeSwap(s, env, id, size, ext).0) && Conserves(s, TakeSwap(s, env, id, size, ext).0, env.time)
  {
    hide Supply, ValidState, LegVal, Receive, TakeOut, Prepare, Affordable, ShrinkSwap, TransferNotation,
      CheckTakeSwap, Conserves;
    ConservesSelf(s, env.time);
    if id in s.swaps && CheckTakeSwap(size, s.swaps[id], env.time) {
      var swap := s.swaps[id];
      var price := ToLeg(swap, size);
      if Prepare(s, env.sender, price, env.time, ext).Some? {
        SwapIsGood(s, id);
        TakeChecked(size, swap, env.time);
        SwapTaken(s, env, swap, size, ext);
      }
    }
  }

  lemma TakeChecked(size: int, swap: Swap, time: Instant)
    requires CheckTakeSwap(size, swap, time)
    ensures 0 < size <= swap.size
  {
  }

  /** All that happens after the checks of a taking. */
  lemma SwapTaken(s: State, env: Env, swap: Swap, size: int, ext: bool)
    requires ValidState(s) && env.time > 0 && GoodSwap(swap) && swap.id in s.swaps && s.swaps[swap.id] == swap
    requires 0 < size <= swap.size && Prepare(s, env.sender, ToLeg(swap, size), env.time, ext).Some?
    ensures var price := ToLeg(swap, size);
            var s1 := Prepare(s, env.sender, price, env.time, ext).value;
            var s2 := Receive(ShrinkSwap(s1, swap, size), swap.owner, price, env.time);
            var s3 := TakeOut(s2, env.sender, price, env.time);
            && SameNotations(s, s3)
            && (swap.fromAsset == USAN_ASSET ==>
                  && ValidState(s3) && Conserves(s, s3, env.time)
                  && match TransferNotation(s3, swap.notation, swap.owner, env.sender)
                     case None => true
                     case Some(s4) => ValidState(s4) && Conserves(s, s4, env.time))
            && (swap.fromAsset != USAN_ASSET ==>
                  var s4 := Receive(s3, env.sender, FromLeg(swap, size), env.time);
                  ValidState(s4) && Conserves(s, s4, env.time))
  {
    hide Supply, ValidState, LegVal, Receive, TakeOut, Prepare, Affordable, TransferNotation, ShrinkSwap;
    var price := ToLeg(swap, size);
    FromLegPositive(swap, size);
    PrepareMeaning(s, env.sender, price, env.time, ext);
    var s1 := Prepare(s, env.sender, price, env.time, ext).value;
    ShrinkSwapMeaning(s1, swap, size);
    ShrinkKeepsAssets(s1, swap, size);
    var s1' := ShrinkSwap(s1, swap, size);
    AffordableDepends(s1, s1', env.sender, price, env.time);
    ExchangeMeaning(s1', swap.owner, env.sender, price, env.time);
    var s3 := TakeOut(Receive(s1', swap.owner, price, env.time), env.sender, price, env.time);
    assert s3.assets == s.assets;
    if swap.fromAsset == USAN_ASSET {
      TransferNotationMeaning(s3, swap.notation, swap.owner, env.sender);
    } else {
      ReceiveMeaning(s3, env.sender, FromLeg(swap, size), env.time);
    }
  }

  lemma ShrinkKeepsAssets(s: State, swap: Swap, size: int)
    ensures ShrinkSwap(s, swap, size).assets == s.assets
    ensures ShrinkSwap(s, swap, size).balances == s.balances && ShrinkSwap(s, swap, size).locks == s.locks
    ensures SameNotations(s, ShrinkSwap(s, swap, size))
  {
    if swap.size == size {
    } else {
    }
  }

  // ---------- Swaps of a short account number ----------

  /** The checks of a taking pass and the price can be paid. */
  ghost predicate SwapIsTaken(s: State, env: Env, id: Hash, size: int, ext: bool) {
    && id in s.swaps && CheckTakeSwap(size, s.swaps[id], env.time)
    && !(s.swaps[id].fromAsset == USAN_ASSET
         && (NotationOf(s, s.swaps[id].owner) == 0 || NotationOf(s, s.swaps[id].owner) != s.swaps[id].notation))
    && Prepare(s, env.sender, ToLeg(s.swaps[id], size), env.time, ext).Some?
  }

  /** The number of the owner moves to another account, whose own one is given up. An owner that
      takes its own number loses it. */
  lemma NumberMoves(s: State, notation: nat, from: Address, to: Address)
    requires GoodNotations(s.notations, s.notationOwners, s.notationCount)
    requires notation != 0 && NotationOf(s, from) == notation
    ensures TransferNotation(s, notation, from, to).Some?
    ensures var s' := TransferNotation(s, notation, from, to).value;
            && notation in s'.notationOwners && s'.notationOwners[notation] == to
            && NotationOf(s', to) == (if to == from then 0 else notation)
            && NotationOf(s', from) == 0
            && (forall w :: w != from && w != to ==> NotationOf(s', w) == NotationOf(s, w))
            && s'.notationOwners.Keys == s.notationOwners.Keys && s'.notationCount == s.notationCount
            && forall n :: n in s.notationOwners && n != notation ==>
                 s'.notationOwners[n] == if n == NotationOf(s, to) then ZERO_ADDRESS else s.notationOwners[n]
  {
  }

  /** Once the price can be paid nothing can stop a taking: it ends in Done exactly then. */
  lemma TakenIsDone(s: State, env: Env, id: Hash, size: int, ext: bool)
    requires ValidState(s) && env.time > 0
    ensures TakeSwap(s, env, id, size, ext).1 == Done <==> SwapIsTaken(s, env, id, size, ext)
  {
    hide Supply, Receive, TakeOut, Prepare, Affordable, ShrinkSwap, TransferNotation, CheckTakeSwap, Conserves,
      GoodNotations;
    if SwapIsTaken(s, env, id, size, ext) && s.swaps[id].fromAsset == USAN_ASSET {
      var swap := s.swaps[id];
      TakeChecked(size, swap, env.time);
      SwapTaken(s, env, swap, size, ext);
      var s3 := Paid(s, env, swap, size, ext);
      NumberMoves(s3, swap.notation, swap.owner, env.sender);
    }
  }

  /** The ledger once the price of a taking is paid. */
  ghost function Paid(s: State, env: Env, swap: Swap, size: int, ext: bool): State
    requires Prepare(s, env.sender, ToLeg(swap, size), env.time, ext).Some?
  {
    var price := ToLeg(swap, size);
    var s1 := Prepare(s, env.sender, price, env.time, ext).value;
    TakeOut(Receive(ShrinkSwap(s1, swap, size), swap.owner, price, env.time), env.sender, price, env.time)
  }

  /** A taken number is the taker's, unless the taker is its owner: then no account has it. */
  lemma NumberHandedOver(s: State, env: Env, id: Hash, size: int, ext: bool)
    requires ValidState(s) && env.time > 0 && SwapIsTaken(s, env, id, size, ext) && s.swaps[id].fromAsset == USAN_ASSET
    ensures var s' := TakeSwap(s, env, id, size, ext).0;
            var swap := s.swaps[id];
            && swap.notation in s'.notationOwners && s'.notationOwners[swap.notation] == env.sender
            && (NotationOf(s', env.sender) == swap.notation <==> env.sender != swap.owner)
            && NotationOf(s', swap.owner) == 0
            && forall w :: w != swap.owner && w != env.sender ==> NotationOf(s', w) == NotationOf(s, w)
  {
    hide Supply, Receive, TakeOut, Prepare, Affordable, ShrinkSwap, TransferNotation, CheckTakeSwap, Conserves,
      GoodNotations;
    var swap := s.swaps[id];
    TakeChecked(size, swap, env.time);
    SwapTaken(s, env, swap, size, ext);
    var s3 := Paid(s, env, swap, size, ext);
    NumberMoves(s3, swap.notation, swap.owner, env.sender);
  }

  /** A number for one unit of asset 7. */
  function NumberOffer(): MakeSwapParam {
    MakeSwapParam(USAN_ASSET, 0, FOREVER, 1, 7, 0, FOREVER, 1, 1, [], 0, "")
  }

  /** Account 1 gets a number, offers it for one unit of asset 7 and takes the offer itself: each of
      the calls is done, and no account has the number then. */
  lemma SelfTakingLosesNumber()
    ensures var s := UnitLedger();
            var (s1, issued) := GenNotation(s, Env(1, 8, 10, 10, 1, 21));
            var (s2, made) := MakeSwap(s1, Env(1, 9, 10, 10, 1, 22), NumberOffer(), false);
            var (s3, taken) := TakeSwap(s2, Env(1, 10, 10, 10, 1, 23), 9, 1, false);
            && ValidState(s) && issued == Done && made == Done && taken == Done
            && NotationOf(s2, 1) != 0 && NotationOf(s3, 1) == 0 && NotationOf(s3, 2) == 0
  {
    hide Display, ValidState, TakeSwap, GoodNotations, Conserves, Supply;
    var s, env := UnitLedger(), Env(1, 10, 10, 10, 1, 23);
    UnitLedgerValid();
    DisplayInjective(0, 1);
    GenNotationConserves(s, Env(1, 8, 10, 10, 1, 21));
    var s1 := GenNotation(s, Env(1, 8, 10, 10, 1, 21)).0;
    MakeSwapConserves(s1, Env(1, 9, 10, 10, 1, 22), NumberOffer(), false);
    var s2 := MakeSwap(s1, Env(1, 9, 10, 10, 1, 22), NumberOffer(), false).0;
    assert SwapIsTaken(s2, env, 9, 1, false);
    TakenIsDone(s2, env, 9, 1, false);
    NumberHandedOver(s2, env, 9, 1, false);
  }

  // ---------- Issuing a short account number ----------

  lemma GenNotationConserves(s: State, env: Env)
    requires ValidState(s)
    ensures ValidState(GenNotation(s, env).0) && Conserves(s, GenNotation(s, env).0, 0)
  {
    hide Supply, GoodNotations;
    GenKeepsNotations(s, env);
    forall a: Hash, t: int ensures Supply(GenNotation(s, env).0, a, t) == Supply(s, a, t) {
      SupplyDepends(s, GenNotation(s, env).0, a, t);
    }
  }

  /** An issued number is new: no account has it and it is looked up to its receiver. */
  lemma GenKeepsNotations(s: State, env: Env)
    requires GoodNotations(s.notations, s.notationOwners, s.notationCount)
    ensures var (s', r) := GenNotation(s, env);
            && GoodNotations(s'.notations, s'.notationOwners, s'.notationCount)
            && (r == Done ==> NotationOf(s', env.sender) !in s.notationOwners && NotationOf(s', env.sender) != 0)
            && forall w :: NotationOf(s, w) != 0 ==> NotationOf(s', w) == NotationOf(s, w)
  {
    hide Display;
    var (s', r) := GenNotation(s, env);
    if r == Done {
      var count := s.notationCount + 1;
      DisplayInjective(0, count);
      assert Issued(Display(count), count);
      forall n | n in s.notationOwners ensures n != Display(count) && Issued(n, count) {
        var k: nat :| 1 <= k <= s.notationCount && n == Display(k);
        DisplayInjective(k, count);
      }
    }
  }
}
