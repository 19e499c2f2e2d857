/** Conservation by multi swaps, whose legs are paid all or nothing. */
module LedgerMultiSwaps {
  import opened TimeLockItems
  import opened FsnTypes
  import opened LedgerState
  import opened LedgerCalls
  import opened LedgerConservation

  lemma MultiLegsPositive(swap: MultiSwap, size: int)
    requires GoodMultiSwap(swap) && size > 0
    ensures AllPositive(FromLegs(swap, size)) && AllPositive(ToLegs(swap, size))
  {
    LegsPositive(swap.fromAsset, swap.fromStart, swap.fromEnd, swap.minFrom, size);
    LegsPositive(swap.toAsset, swap.toStart, swap.toEnd, swap.minTo, size);
  }

  lemma MultiSwapIsGood(s: State, id: Hash)
    requires ValidState(s) && id in s.multiSwaps
    ensures s.multiSwaps[id].id == id && GoodMultiSwap(s.multiSwaps[id])
  {
  }

  lemma CheckedMultiIsGood(s: State, env: Env, p: MakeMultiSwapParam)
    requires CheckMakeMultiSwap(p, env.time)
    ensures GoodMultiSwap(NewMultiSwap(s, env, p))
  {
  }

  /** The outcome of making a multi swap once its parameters are accepted. */
  lemma MultiSwapMade(s: State, env: Env, swap: MultiSwap)
    requires ValidState(s) && env.time > 0 && GoodMultiSwap(swap)
    requires PayAll(s, env.sender, FromLegs(swap, swap.size), env.time).Some?
    ensures var s1 := PayAll(s, env.sender, FromLegs(swap, swap.size), env.time).value;
            var s2 := s1.(multiSwaps := s1.multiSwaps[swap.id := swap]);
            && ValidState(s1) && SameRecords(s, s1)
            && (forall a: Hash, t: int :: env.time <= t <= FOREVER ==>
                 Supply(s1, a, t) == Supply(s, a, t) - MultiEscrow(swap, a, t))
            && (swap.id !in s.multiSwaps ==> ValidState(s2) && Conserves(s, s2, env.time))
  {
    hide Supply, ValidState, PayAll, LegsVal;
    MultiLegsPositive(swap, swap.size);
    PayAllMeaning(s, env.sender, FromLegs(swap, swap.size), env.time);
    var s1 := PayAll(s, env.sender, FromLegs(swap, swap.size), env.time).value;
    if swap.id !in s.multiSwaps {
      PutMultiValid(s1, swap);
      forall a: Hash, t: int | env.time <= t <= FOREVER
        ensures Supply(s1.(multiSwaps := s1.multiSwaps[swap.id := swap]), a, t) == Supply(s, a, t)
      {
        PutMultiSupply(s1, swap, a, t);
      }
    }
  }

  lemma MakeMultiSwapConserves(s: State, env: Env, p: MakeMultiSwapParam)
    requires ValidState(s) && env.time > 0
    ensures ValidState(MakeMultiSwap(s, env, p).0)
    ensures env.txHash !in s.multiSwaps ==> Conserves(s, MakeMultiSwap(s, env, p).0, env.time)
  {
    hide Supply, ValidState, PayAll, Conserves, CheckMakeMultiSwap, ToAssetsError;
    ConservesSelf(s, env.time);
    if CheckMakeMultiSwap(p, env.time) {
      CheckedMultiIsGood(s, env, p);
      var swap := NewMultiSwap(s, env, p);
      if PayAll(s, env.sender, FromLegs(swap, swap.size), env.time).Some? {
        MultiSwapMade(s, env, swap);
      }
    }
  }

  lemma {:induction false} LegsValNonNegative(legs: seq<Leg>, a: Hash, t: int)
    requires AllPositive(legs)
    ensures LegsVal(legs, a, t) >= 0
    ensures forall k :: 0 <= k < |legs| ==> LegsVal(legs, a, t) >= LegVal(legs[k], a, t)
  {
    if legs != [] {
      LegsValNonNegative(legs[..|legs| - 1], a, t);
      forall k | 0 <= k < |legs| ensures LegsVal(legs, a, t) >= LegVal(legs[k], a, t) {
        if k < |legs| - 1 {
          assert legs[..|legs| - 1][k] == legs[k];
        }
      }
    }
  }

  /** The call is accepted and its legs can be afforded. */
  ghost predicate MultiSwapPaid(s: State, env: Env, p: MakeMultiSwapParam) {
    && env.txHash !in s.swaps && CheckMakeMultiSwap(p, env.time)
    && ToAssetsError(s, p.toAsset).None? && USAN_ASSET !in p.fromAsset
    && var swap := NewMultiSwap(s, env, p);
    PayAll(s, env.sender, FromLegs(swap, swap.size), env.time).Some?
  }

  /** The guard of the program looks for a single swap with the identifier. When a multi swap has
      it, the payment is taken and nothing is kept in escrow: making a multi swap conserves the
      supply exactly when no accepted and affordable call meets that clash. */
  lemma MakeMultiSwapConservesIff(s: State, env: Env, p: MakeMultiSwapParam)
    requires ValidState(s) && env.time > 0
    ensures Conserves(s, MakeMultiSwap(s, env, p).0, env.time)
       <==> !(env.txHash in s.multiSwaps && MultiSwapPaid(s, env, p))
  {
    hide Supply, ValidState, PayAll, ToAssetsError, Conserves, CheckMakeMultiSwap;
    ConservesSelf(s, env.time);
    MakeMultiSwapConserves(s, env, p);
    if MultiSwapPaid(s, env, p) && env.txHash in s.multiSwaps {
      CheckedMultiIsGood(s, env, p);
      CheckedMultiNotEmpty(p, env.time);
      ClashLoses(s, env, NewMultiSwap(s, env, p));
    }
  }

  lemma CheckedMultiNotEmpty(p: MakeMultiSwapParam, time: Instant)
    requires CheckMakeMultiSwap(p, time)
    ensures |p.fromAsset| > 0 && p.fromEnd[0] > time
  {
  }

  lemma ClashLoses(s: State, env: Env, swap: MultiSwap)
    requires ValidState(s) && env.time > 0 && GoodMultiSwap(swap)
    requires |swap.fromAsset| > 0 && swap.fromEnd[0] > env.time
    requires PayAll(s, env.sender, FromLegs(swap, swap.size), env.time).Some?
    ensures !Conserves(s, PayAll(s, env.sender, FromLegs(swap, swap.size), env.time).value, env.time)
  {
    hide Supply, ValidState, PayAll, LegsVal;
    var legs := FromLegs(swap, swap.size);
    MultiSwapMade(s, env, swap);
    var s1 := PayAll(s, env.sender, legs, env.time).value;
    var a, t := legs[0].asset, MaxInstant(legs[0].start, env.time);
    MultiLegsPositive(swap, swap.size);
    LegsValNonNegative(legs, a, t);
    assert LegVal(legs[0], a, t) == legs[0].total > 0;
    assert Supply(s1, a, t) == Supply(s, a, t) - LegsVal(legs, a, t);
  }

  /** One unit of asset 7 for another. */
  function UnitOffer(): MakeMultiSwapParam {
    MakeMultiSwapParam([7], [0], [FOREVER], [1], [7], [0], [FOREVER], [1], 1, [], 0, "")
  }

  lemma UnitOfferClash(s: State, env: Env)
    requires ValidState(s) && env.txHash !in s.swaps && env.txHash in s.multiSwaps && 7 in s.assets
    requires Balance(s, env.sender, 7) >= 1 && 0 < env.time < FOREVER
    ensures var (s', r) := MakeMultiSwap(s, env, UnitOffer());
            r == Failed(AlreadyExists) && Supply(s', 7, env.time) == Supply(s, 7, env.time) - 1
  {
    hide PayAll, Balance, Supply, ValidState;
    var swap := NewMultiSwap(s, env, UnitOffer());
    var legs := FromLegs(swap, 1);
    OneLegPaid(s, env.sender, legs, env.time);
    assert ToAssetsError(s, [7]) == ToAssetsError(s, []);
    MultiSwapMade(s, env, swap);
    assert legs[..0] == [] && LegsVal(legs, 7, env.time) == LegsVal([], 7, env.time) + LegVal(legs[0], 7, env.time);
  }

  /** Account 2 makes an offer, and account 1 makes one under the same identifier: its unit is gone. */
  lemma ClashExample()
    ensures var s := UnitLedger();
            var (s1, made) := MakeMultiSwap(s, Env(2, 9, 10, 10, 1, 21), UnitOffer());
            var (s2, r) := MakeMultiSwap(s1, Env(1, 9, 10, 10, 1, 21), UnitOffer());
            && ValidState(s) && made == Done
            && r == Failed(AlreadyExists) && Supply(s2, 7, 10) == Supply(s1, 7, 10) - 1
  {
    hide ValidState, Supply, Balance, PayAll, ToAssetsError, Conserves;
    var s, env := UnitLedger(), Env(2, 9, 10, 10, 1, 21);
    UnitLedgerValid();
    UnitOfferMade(s, env);
    MakeMultiSwapConserves(s, env, UnitOffer());
    var s1 := MakeMultiSwap(s, env, UnitOffer()).0;
    UnitOfferClash(s1, Env(1, 9, 10, 10, 1, 21));
  }

  lemma UnitOfferMade(s: State, env: Env)
    requires env.txHash !in s.swaps && env.txHash !in s.multiSwaps && 7 in s.assets
    requires Balance(s, env.sender, 7) >= 1 && env.time < FOREVER
    ensures var (s', r) := MakeMultiSwap(s, env, UnitOffer());
            && r == Done && env.txHash in s'.multiSwaps && s'.swaps == s.swaps && s'.assets == s.assets
            && forall w :: w != env.sender ==> Balance(s', w, 7) == Balance(s, w, 7)
  {
    hide PayAll;
    var legs := FromLegs(NewMultiSwap(s, env, UnitOffer()), 1);
    OneLegPaid(s, env.sender, legs, env.time);
    assert ToAssetsError(s, [7]) == ToAssetsError(s, []);
    forall w | w != env.sender ensures Balance(Debit(s, env.sender, 7, 1), w, 7) == Balance(s, w, 7) {
      ReadCredit(s, env.sender, 7, -1, w, 7);
    }
  }

  /** One plain leg can be paid from a sufficient balance. */
  lemma OneLegPaid(s: State, who: Address, legs: seq<Leg>, time: Instant)
    requires |legs| == 1 && UsesAsset(legs[0]) && Balance(s, who, legs[0].asset) >= legs[0].total
    ensures PayAll(s, who, legs, time) == Some(Debit(s, who, legs[0].asset, legs[0].total))
  {
    assert legs[..0] == [] && PayAll(s, who, [], time) == Some(s);
  }

  lemma RecallMultiSwapConserves(s: State, env: Env, id: Hash)
    requires ValidState(s)
    ensures ValidState(RecallMultiSwap(s, env, id).0) && Conserves(s, RecallMultiSwap(s, env, id).0, env.time)
  {
    hide Supply, ValidState, LegsVal, ReceiveAll;
    if RecallMultiSwap(s, env, id).1 == Done {
      MultiSwapIsGood(s, id);
      var swap := s.multiSwaps[id];
      var s1 := s.(multiSwaps := s.multiSwaps - {id});
      DropMultiValid(s, id);
      forall a: Hash, t: int ensures Supply(s1, a, t) == Supply(s, a, t) - MultiEscrow(swap, a, t) {
        DropMultiSupply(s, id, a, t);
      }
      MultiLegsPositive(swap, swap.size);
      ReceiveAllMeaning(s1, env.sender, FromLegs(swap, swap.size), env.time);
    }
  }

  lemma ShrinkMultiMeaning(s: State, swap: MultiSwap, size: int)
    requires ValidState(s) && GoodMultiSwap(swap) && swap.id in s.multiSwaps && s.multiSwaps[swap.id] == swap
    requires 0 < size <= swap.size
    ensures ValidState(ShrinkMultiSwap(s, swap, size)) && ShrinkMultiSwap(s, swap, size).assets == s.assets
    ensures forall a: Hash, t: int ::
      Supply(ShrinkMultiSwap(s, swap, size), a, t) == Supply(s, a, t) - LegsVal(FromLegs(swap, size), a, t)
  {
    hide Supply, ValidState, LegsVal;
    var rest := swap.(size := swap.size - size);
    if swap.size == size {
      DropMultiValid(s, swap.id);
    } else {
      PutMultiValid(s, rest);
    }
    forall a: Hash, t: int
      ensures Supply(ShrinkMultiSwap(s, swap, size), a, t) == Supply(s, a, t) - LegsVal(FromLegs(swap, size), a, t)
    {
      if swap.size == size {
        DropMultiSupply(s, swap.id, a, t);
      } else {
        PutMultiSupply(s, rest, a, t);
        LegsSplit(swap.fromAsset, swap.fromStart, swap.fromEnd, swap.minFrom, size, swap.size - size, a, t);
      }
    }
  }

  lemma MultiSwapTaken(s: State, env: Env, swap: MultiSwap, size: int)
    requires ValidState(s) && env.time > 0 && GoodMultiSwap(swap)
    requires swap.id in s.multiSwaps && s.multiSwaps[swap.id] == swap
    requires 0 < size <= swap.size && PayAll(s, env.sender, ToLegs(swap, size), env.time).Some?
    ensures var s1 := PayAll(s, env.sender, ToLegs(swap, size), env.time).value;
            var s2 := ReceiveAll(ShrinkMultiSwap(s1, swap, size), swap.owner, ToLegs(swap, size), env.time);
            var s3 := ReceiveAll(s2, env.sender, FromLegs(swap, size), env.time);
            ValidState(s3) && Conserves(s, s3, env.time)
  {
    hide Supply, ValidState, LegsVal, PayAll, ReceiveAll, ShrinkMultiSwap, GoodMultiSwap, FromLegs, ToLegs;
    SameLengthsOf(swap);
    var price, share := ToLegs(swap, size), FromLegs(swap, size);
    MultiLegsPositive(swap, size);
    PayAllMeaning(s, env.sender, price, env.time);
    var s1 := PayAll(s, env.sender, price, env.time).value;
    ShrinkMultiMeaning(s1, swap, size);
    var s1' := ShrinkMultiSwap(s1, swap, size);
    ReceiveAllMeaning(s1', swap.owner, price, env.time);
    var s2 := ReceiveAll(s1', swap.owner, price, env.time);
    ReceiveAllMeaning(s2, env.sender, share, env.time);
  }

  lemma SameLengthsOf(swap: MultiSwap)
    requires GoodMultiSwap(swap)
    ensures SameLengths(swap)
  {
  }

  lemma TakeMultiChecked(size: int, swap: MultiSwap, time: Instant)
    requires CheckTakeMultiSwap(size, swap, time)
    ensures 0 < size <= swap.size
  {
  }

  lemma TakeMultiSwapConserves(s: State, env: Env, id: Hash, size: int)
    requires ValidState(s) && env.time > 0
    ensures ValidState(TakeMultiSwap(s, env, id, size).0) && Conserves(s, TakeMultiSwap(s, env, id, size).0, env.time)
  {
    hide Supply, ValidState, PayAll, ReceiveAll, ShrinkMultiSwap, Conserves, CheckTakeMultiSwap, GoodMultiSwap,
      FillTable;
    ConservesSelf(s, env.time);
    if id in s.multiSwaps && CheckTakeMultiSwap(size, s.multiSwaps[id], env.time) {
      var swap := s.multiSwaps[id];
      MultiSwapIsGood(s, id);
      SameLengthsOf(swap);
      TakeMultiChecked(size, swap, env.time);
      if PayAll(s, env.sender, ToLegs(swap, size), env.time).Some? {
        MultiSwapTaken(s, env, swap, size);
      }
    }
  }

  // ---------- The table of prices ----------

  /** Filling the table goes out of range exactly when a time-locked leg has no slot. Otherwise
      every time-locked leg finds its interval in its own slot. */
  lemma {:induction false} FillMeaning(legs: seq<Leg>, slots: nat, time: Instant)
    ensures FillTable(legs, slots, time).None? <==> exists k :: slots <= k < |legs| && !UsesAsset(legs[k])
    ensures match FillTable(legs, slots, time)
            case None => true
            case Some(table) =>
              && |table| == slots
              && forall k :: 0 <= k < |legs| && !UsesAsset(legs[k]) ==>
                   k < slots && table[k] == Some(Need(legs[k], time))
  {
    hide UsesAsset, Need;
    if legs != [] {
      var n := |legs| - 1;
      FillMeaning(legs[..n], slots, time);
      assert forall k :: 0 <= k < n ==> legs[..n][k] == legs[k];
      if exists k :: slots <= k < |legs| && !UsesAsset(legs[k]) {
        var k :| slots <= k < |legs| && !UsesAsset(legs[k]);
        if k < n {
          assert !UsesAsset(legs[..n][k]);
        }
      }
    }
  }

  lemma {:induction false} FillPrefix(legs: seq<Leg>, slots: nat, time: Instant, n: nat)
    requires n <= |legs| && FillTable(legs[..n], slots, time).None?
    ensures FillTable(legs, slots, time).None?
  {
    FillMeaning(legs[..n], slots, time);
    FillMeaning(legs, slots, time);
    var k :| slots <= k < n && !UsesAsset(legs[..n][k]);
    assert !UsesAsset(legs[k]);
  }

  /** A time-locked price stands beyond the number of assets offered. */
  predicate PriceOutOfRange(swap: MultiSwap)
    requires SameLengths(swap)
  {
    exists k :: |swap.fromAsset| <= k < |swap.toAsset| && !(swap.toStart[k] == 0 && swap.toEnd[k] == FOREVER)
  }

  lemma TableFits(swap: MultiSwap, size: int, time: Instant)
    requires SameLengths(swap)
    ensures FillTable(ToLegs(swap, size), |swap.fromAsset|, time).None? <==> PriceOutOfRange(swap)
  {
    hide FillTable;
    var legs := ToLegs(swap, size);
    FillMeaning(legs, |swap.fromAsset|, time);
    assert forall k :: 0 <= k < |legs| ==> (UsesAsset(legs[k]) <==> swap.toStart[k] == 0 && swap.toEnd[k] == FOREVER);
  }
}
