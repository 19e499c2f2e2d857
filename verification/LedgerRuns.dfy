/** Whole runs: over any sequence of FSN calls, successful or not, each asset's supply follows its
    recorded total. */
module LedgerRuns {
  import opened TimeLockItems
  import opened TimeLockAlgebra
  import opened TimeLockOps
  import opened FsnTypes
  import opened LedgerState
  import opened LedgerCalls
  import opened LedgerConservation
  import opened LedgerSwaps
  import opened LedgerMultiSwaps

  /** Every call keeps the ledger well formed and conserves the supply. */
  lemma StepConserves(s: State, env: Env, call: Call)
    requires ValidState(s) && env.time > 0
    ensures ValidState(Step(s, env, call).0)
    ensures env.txHash !in s.multiSwaps ==> Conserves(s, Step(s, env, call).0, ConservedFrom(env, call))
  {
    hide ValidState, Supply, GenAsset, SendAsset, ValueChange, TimeLockStep, BuyTicket, MakeSwap, RecallSwap, TakeSwap,
      MakeMultiSwap, RecallMultiSwap, TakeMultiSwap;
    match call
    case GenAssetCall(p) => GenAssetConserves(s, env, p);
    case SendAssetCall(p) => SendAssetConserves(s, env, p);
    case TimeLockCall(p) => TimeLockConserves(s, env, p);
    case BuyTicketCall(p) => BuyTicketConserves(s, env, p);
    case ValueChangeCall(p) => ValueChangeConserves(s, env, p);
    case MakeSwapCall(p, ext) => MakeSwapConserves(s, env, p, ext);
    case RecallSwapCall(id) => RecallSwapConserves(s, env, id);
    case TakeSwapCall(id, size, ext) => TakeSwapConserves(s, env, id, size, ext);
    case MakeMultiSwapCall(p) => MakeMultiSwapConserves(s, env, p);
    case RecallMultiSwapCall(id) => RecallMultiSwapConserves(s, env, id);
    case TakeMultiSwapCall(id, size) => TakeMultiSwapConserves(s, env, id, size);
    case GenNotationCall => GenNotationConserves(s, env);
    case UnsupportedCall =>
  }

  // ---------- Identifiers of multi swaps ----------

  lemma PrepareFrame(s: State, who: Address, leg: Leg, time: Instant, convert: bool)
    ensures Prepare(s, who, leg, time, convert).Some? ==>
      Prepare(s, who, leg, time, convert).value.multiSwaps == s.multiSwaps
  {
    if Prepare(s, who, leg, time, convert) == Some(s) {
    } else {
    }
  }

  lemma TakeOutFrame(s: State, who: Address, leg: Leg, time: Instant)
    ensures TakeOut(s, who, leg, time).multiSwaps == s.multiSwaps
  {
    if UsesAsset(leg) {
    } else if ValidItem(Need(leg, time)) {
    } else {
    }
  }

  lemma ReceiveFrame(s: State, who: Address, leg: Leg, time: Instant)
    ensures Receive(s, who, leg, time).multiSwaps == s.multiSwaps
  {
    if UsesAsset(leg) {
    } else if ValidItem(Need(leg, time)) {
    } else {
    }
  }

  lemma PayFrame(s: State, who: Address, leg: Leg, time: Instant, convert: bool)
    ensures Pay(s, who, leg, time, convert).Some? ==> Pay(s, who, leg, time, convert).value.multiSwaps == s.multiSwaps
  {
    hide Prepare, TakeOut;
    PrepareFrame(s, who, leg, time, convert);
    if Prepare(s, who, leg, time, convert).Some? {
      TakeOutFrame(Prepare(s, who, leg, time, convert).value, who, leg, time);
    }
  }

  lemma {:induction false} PayAllFrame(s: State, who: Address, legs: seq<Leg>, time: Instant)
    ensures PayAll(s, who, legs, time).Some? ==> PayAll(s, who, legs, time).value.multiSwaps == s.multiSwaps
  {
    hide Pay;
    if legs != [] {
      PayAllFrame(s, who, legs[..|legs| - 1], time);
      if PayAll(s, who, legs[..|legs| - 1], time).Some? {
        PayFrame(PayAll(s, who, legs[..|legs| - 1], time).value, who, legs[|legs| - 1], time, true);
      }
    }
  }

  lemma {:induction false} ReceiveAllFrame(s: State, who: Address, legs: seq<Leg>, time: Instant)
    ensures ReceiveAll(s, who, legs, time).multiSwaps == s.multiSwaps
  {
    hide Receive;
    if legs != [] {
      ReceiveAllFrame(s, who, legs[..|legs| - 1], time);
      ReceiveFrame(ReceiveAll(s, who, legs[..|legs| - 1], time), who, legs[|legs| - 1], time);
    }
  }

  lemma AddLockFrame(s: State, who: Address, asset: Hash, amount: seq<Item>, time: Instant)
    ensures AddLock(s, who, asset, amount, time).multiSwaps == s.multiSwaps
  {
    if amount == [] {
    } else {
    }
  }

  lemma AssetCallsFrame(s: State, env: Env, call: Call)
    requires call.GenAssetCall? || call.SendAssetCall? || call.ValueChangeCall?
    ensures Step(s, env, call).0.multiSwaps == s.multiSwaps
  {
    if Step(s, env, call).1 == Done {
      match call
      case GenAssetCall(p) =>
      case SendAssetCall(p) =>
      case ValueChangeCall(p) =>
    } else {
      assert Step(s, env, call).0 == s;
    }
  }

  lemma LockFromAssetFrame(s: State, env: Env, p: TimeLockParam, need: Item)
    ensures LockFromAsset(s, env, p, need).0.multiSwaps == s.multiSwaps
  {
    hide AddLock, Minus;
    var s1, whole := Debit(s, env.sender, p.asset, p.value), Lifelong(env.time, p.value);
    AddLockFrame(s1, p.to, p.asset, [whole], env.time);
    AddLockFrame(s1, env.sender, p.asset, Minus([whole], need), env.time);
    AddLockFrame(AddLock(s1, env.sender, p.asset, Minus([whole], need), env.time), p.to, p.asset, [need], env.time);
    if Balance(s, env.sender, p.asset) < p.value {
    } else if env.sender == p.to {
    } else {
    }
  }

  lemma RedeemFrame(s: State, who: Address, asset: Hash, need: Item, time: Instant, to: Address, value: int)
    ensures SubLock(s, who, asset, need, time).multiSwaps == s.multiSwaps
    ensures Credit(SubLock(s, who, asset, need, time), to, asset, value).multiSwaps == s.multiSwaps
  {
  }

  lemma TimeLockFrame(s: State, env: Env, p: TimeLockParam)
    ensures TimeLockStep(s, env, p).0.multiSwaps == s.multiSwaps
  {
    hide AddLock, SubLock, Credit, Lock, Enough, Minus, Need, CheckTimeLock, LockFromAsset, AdjustedTimeLock, ValidItem;
    var q := AdjustedTimeLock(p);
    var need := Need(Leg(q.asset, q.start, q.end, q.value), env.time);
    if TimeLockStep(s, env, p).0 == s {
    } else {
      match q.kind
      case AssetToTimeLock =>
        LockFromAssetFrame(s, env, q, need);
      case TimeLockToTimeLock =>
        AddLockFrame(SubLock(s, env.sender, q.asset, need, env.time), q.to, q.asset, [need], env.time);
        RedeemFrame(s, env.sender, q.asset, need, env.time, q.to, q.value);
      case TimeLockToAsset =>
        RedeemFrame(s, env.sender, q.asset, need, env.time, q.to, q.value);
      case OtherKind =>
    }
  }

  lemma BuyTicketFrame(s: State, env: Env, p: BuyTicketParam)
    ensures BuyTicket(s, env, p).0.multiSwaps == s.multiSwaps
  {
    hide AddLock, Enough, Minus, CheckBuyTicket;
    if BuyTicket(s, env, p).1 != Done {
      assert BuyTicket(s, env, p).0 == s;
    } else {
      var need := Item(MaxInstant(p.start, env.time), p.end, TICKET_PRICE);
      AddLockFrame(Debit(s, env.sender, SYSTEM_ASSET, TICKET_PRICE), env.sender, SYSTEM_ASSET,
                   Minus([Lifelong(env.time, TICKET_PRICE)], need), env.time);
      if Enough(Lock(s, env.sender, SYSTEM_ASSET), need) {
      } else {
      }
    }
  }

  lemma MakeSwapFrame(s: State, env: Env, q: MakeSwapParam, ext: bool)
    ensures MakeSwap(s, env, q, ext).0.multiSwaps == s.multiSwaps
  {
    hide Pay, CheckMakeSwap;
    if MakeSwap(s, env, q, ext).1 != Done {
      assert MakeSwap(s, env, q, ext).0 == s;
    } else {
      var swap := NewSwap(s, env, AdjustedSwap(q));
      PayFrame(s, env.sender, FromLeg(swap, swap.size), env.time, ext);
      if swap.fromAsset == USAN_ASSET {
      } else {
      }
    }
  }

  lemma RecallSwapFrame(s: State, env: Env, id: Hash)
    ensures RecallSwap(s, env, id).0.multiSwaps == s.multiSwaps
  {
    hide Receive;
    if RecallSwap(s, env, id).1 != Done {
      assert RecallSwap(s, env, id).0 == s;
    } else {
      var swap := s.swaps[id];
      ReceiveFrame(s.(swaps := s.swaps - {swap.id}), env.sender, FromLeg(swap, swap.size), env.time);
      if swap.fromAsset == USAN_ASSET {
      } else {
      }
    }
  }

  lemma ShrinkFrame(s: State, swap: Swap, size: int)
    ensures ShrinkSwap(s, swap, size).multiSwaps == s.multiSwaps
  {
    if swap.size == size {
    } else {
    }
  }

  lemma TakeSwapFrame(s: State, env: Env, id: Hash, size: int, ext: bool)
    ensures TakeSwap(s, env, id, size, ext).0.multiSwaps == s.multiSwaps
  {
    hide Receive, TakeOut, Prepare, ShrinkSwap, CheckTakeSwap;
    if id in s.swaps {
      var swap := s.swaps[id];
      var price := ToLeg(swap, size);
      if Prepare(s, env.sender, price, env.time, ext).Some? {
        PrepareFrame(s, env.sender, price, env.time, ext);
        var s1 := Prepare(s, env.sender, price, env.time, ext).value;
        ShrinkFrame(s1, swap, size);
        var s1' := ShrinkSwap(s1, swap, size);
        ReceiveFrame(s1', swap.owner, price, env.time);
        var s2 := Receive(s1', swap.owner, price, env.time);
        TakeOutFrame(s2, env.sender, price, env.time);
        var s3 := TakeOut(s2, env.sender, price, env.time);
        ReceiveFrame(s3, env.sender, FromLeg(swap, size), env.time);
        if TakeSwap(s, env, id, size, ext).0 == s {
        } else if swap.fromAsset == USAN_ASSET {
        } else {
        }
      }
    }
  }

  /** A call adds no multi swap but the one named after its own transaction. */
  lemma StepMultiIds(s: State, env: Env, call: Call)
    requires ValidState(s)
    ensures Step(s, env, call).0.multiSwaps.Keys <= s.multiSwaps.Keys + {env.txHash}
  {
    hide GenAsset, SendAsset, ValueChange, TimeLockStep, BuyTicket, MakeSwap, RecallSwap, TakeSwap, MakeMultiSwap,
      RecallMultiSwap, TakeMultiSwap, ValidState;
    match call
    case GenAssetCall(p) => AssetCallsFrame(s, env, call);
    case SendAssetCall(p) => AssetCallsFrame(s, env, call);
    case ValueChangeCall(p) => AssetCallsFrame(s, env, call);
    case TimeLockCall(p) => TimeLockFrame(s, env, p);
    case BuyTicketCall(p) => BuyTicketFrame(s, env, p);
    case MakeSwapCall(p, ext) => MakeSwapFrame(s, env, p, ext);
    case RecallSwapCall(id) => RecallSwapFrame(s, env, id);
    case TakeSwapCall(id, size, ext) => TakeSwapFrame(s, env, id, size, ext);
    case MakeMultiSwapCall(p) => MakeMultiIds(s, env, p);
    case RecallMultiSwapCall(id) => RecallMultiIds(s, env, id);
    case TakeMultiSwapCall(id, size) => TakeMultiIds(s, env, id, size);
    case GenNotationCall =>
    case UnsupportedCall =>
  }

  lemma MakeMultiIds(s: State, env: Env, p: MakeMultiSwapParam)
    ensures MakeMultiSwap(s, env, p).0.multiSwaps.Keys <= s.multiSwaps.Keys + {env.txHash}
  {
    hide PayAll, ToAssetsError;
    if MultiSwapPaid(s, env, p) {
      var swap := NewMultiSwap(s, env, p);
      PayAllFrame(s, env.sender, FromLegs(swap, swap.size), env.time);
      if swap.id in s.multiSwaps {
      } else {
      }
    } else {
      assert MakeMultiSwap(s, env, p).0 == s;
    }
  }

  lemma RecallMultiIds(s: State, env: Env, id: Hash)
    ensures RecallMultiSwap(s, env, id).0.multiSwaps.Keys <= s.multiSwaps.Keys
  {
    hide ReceiveAll;
    if RecallMultiSwap(s, env, id).1 == Done {
      var swap := s.multiSwaps[id];
      ReceiveAllFrame(s.(multiSwaps := s.multiSwaps - {swap.id}), env.sender, FromLegs(swap, swap.size), env.time);
    } else {
      assert RecallMultiSwap(s, env, id).0 == s;
    }
  }

  lemma TakeMultiIds(s: State, env: Env, id: Hash, size: int)
    requires ValidState(s)
    ensures TakeMultiSwap(s, env, id, size).0.multiSwaps.Keys <= s.multiSwaps.Keys
  {
    hide ReceiveAll, PayAll, CheckTakeMultiSwap, FillTable, ValidState;
    if TakeMultiSwap(s, env, id, size).1 == Done {
      var swap := s.multiSwaps[id];
      MultiSwapIsGood(s, id);
      var price := ToLegs(swap, size);
      PayAllFrame(s, env.sender, price, env.time);
      var s1' := ShrinkMultiSwap(PayAll(s, env.sender, price, env.time).value, swap, size);
      assert s1'.multiSwaps.Keys <= s.multiSwaps.Keys;
      ReceiveAllFrame(s1', swap.owner, price, env.time);
      ReceiveAllFrame(ReceiveAll(s1', swap.owner, price, env.time), env.sender, FromLegs(swap, size), env.time);
    } else {
      assert TakeMultiSwap(s, env, id, size).0 == s;
    }
  }

  // ---------- Crashes ----------

  /** The program crashes exactly when an accepted taking finds a time-locked price beyond the
      number of assets offered, which is more than its table has slots. */
  lemma CrashesIff(s: State, env: Env, call: Call)
    requires ValidState(s)
    ensures Step(s, env, call).1 == Crashed <==>
      && call.TakeMultiSwapCall? && call.takeMulti in s.multiSwaps
      && CheckTakeMultiSwap(call.takeMultiSize, s.multiSwaps[call.takeMulti], env.time)
      && PriceOutOfRange(s.multiSwaps[call.takeMulti])
  {
    hide ValidState, PayAll, ReceiveAll, CheckTakeMultiSwap, PriceOutOfRange, Pay, Prepare, Receive, TakeOut, FillTable;
    if call.TakeMultiSwapCall? && call.takeMulti in s.multiSwaps {
      MultiSwapIsGood(s, call.takeMulti);
      TableFits(s.multiSwaps[call.takeMulti], call.takeMultiSize, env.time);
    }
    if call.RecallMultiSwapCall? && call.recallMulti in s.multiSwaps {
      MultiSwapIsGood(s, call.recallMulti);
    }
  }

  /** An offer that cannot be taken. */
  ghost predicate Stuck(s: State, id: Hash, swap: MultiSwap) {
    id in s.multiSwaps && s.multiSwaps[id] == swap && SameLengths(swap) && PriceOutOfRange(swap)
  }

  ghost predicate Recalls(env: Env, call: Call, id: Hash, owner: Address) {
    call == RecallMultiSwapCall(id) && env.sender == owner
  }

  /** Such an offer stays as it is until its owner recalls it. */
  lemma StepKeepsStuck(s: State, env: Env, call: Call, id: Hash, swap: MultiSwap)
    requires ValidState(s) && Stuck(s, id, swap) && !Recalls(env, call, id, swap.owner)
    ensures Stuck(Step(s, env, call).0, id, swap)
  {
    hide GenAsset, SendAsset, ValueChange, TimeLockStep, BuyTicket, MakeSwap, RecallSwap, TakeSwap, MakeMultiSwap,
      RecallMultiSwap, TakeMultiSwap, ValidState, PriceOutOfRange;
    match call
    case GenAssetCall(p) => AssetCallsFrame(s, env, call);
    case SendAssetCall(p) => AssetCallsFrame(s, env, call);
    case ValueChangeCall(p) => AssetCallsFrame(s, env, call);
    case TimeLockCall(p) => TimeLockFrame(s, env, p);
    case BuyTicketCall(p) => BuyTicketFrame(s, env, p);
    case MakeSwapCall(p, ext) => MakeSwapFrame(s, env, p, ext);
    case RecallSwapCall(other) => RecallSwapFrame(s, env, other);
    case TakeSwapCall(other, size, ext) => TakeSwapFrame(s, env, other, size, ext);
    case MakeMultiSwapCall(p) => MakeKeepsOffers(s, env, p, id);
    case RecallMultiSwapCall(other) => RecallKeepsOffers(s, env, other, id);
    case TakeMultiSwapCall(other, size) => TakeKeepsOffers(s, env, other, size, id);
    case GenNotationCall =>
    case UnsupportedCall =>
  }

  lemma MakeKeepsOffers(s: State, env: Env, p: MakeMultiSwapParam, id: Hash)
    requires id in s.multiSwaps
    ensures var s' := MakeMultiSwap(s, env, p).0;
            id in s'.multiSwaps && s'.multiSwaps[id] == s.multiSwaps[id]
  {
    hide PayAll, ToAssetsError;
    if MultiSwapPaid(s, env, p) {
      var swap := NewMultiSwap(s, env, p);
      PayAllFrame(s, env.sender, FromLegs(swap, swap.size), env.time);
      if swap.id in s.multiSwaps {
      } else {
      }
    } else {
      assert MakeMultiSwap(s, env, p).0 == s;
    }
  }

  lemma RecallKeepsOffers(s: State, env: Env, other: Hash, id: Hash)
    requires ValidState(s) && id in s.multiSwaps && !(other == id && env.sender == s.multiSwaps[id].owner)
    ensures var s' := RecallMultiSwap(s, env, other).0;
            id in s'.multiSwaps && s'.multiSwaps[id] == s.multiSwaps[id]
  {
    hide ReceiveAll, ValidState;
    if RecallMultiSwap(s, env, other).1 == Done {
      MultiSwapIsGood(s, other);
      var swap := s.multiSwaps[other];
      ReceiveAllFrame(s.(multiSwaps := s.multiSwaps - {swap.id}), env.sender, FromLegs(swap, swap.size), env.time);
    } else {
      assert RecallMultiSwap(s, env, other).0 == s;
    }
  }

  lemma TakeKeepsOffers(s: State, env: Env, other: Hash, size: int, id: Hash)
    requires ValidState(s) && id in s.multiSwaps && SameLengths(s.multiSwaps[id])
    requires other == id ==> PriceOutOfRange(s.multiSwaps[id])
    ensures var s' := TakeMultiSwap(s, env, other, size).0;
            id in s'.multiSwaps && s'.multiSwaps[id] == s.multiSwaps[id]
  {
    hide ReceiveAll, PayAll, CheckTakeMultiSwap, FillTable, ValidState, PriceOutOfRange;
    if TakeMultiSwap(s, env, other, size).1 == Done {
      var swap := s.multiSwaps[other];
      MultiSwapIsGood(s, other);
      TableFits(swap, size, env.time);
      var price := ToLegs(swap, size);
      PayAllFrame(s, env.sender, price, env.time);
      var s1' := ShrinkMultiSwap(PayAll(s, env.sender, price, env.time).value, swap, size);
      ReceiveAllFrame(s1', swap.owner, price, env.time);
      ReceiveAllFrame(ReceiveAll(s1', swap.owner, price, env.time), env.sender, FromLegs(swap, size), env.time);
    } else {
      assert TakeMultiSwap(s, env, other, size).0 == s;
    }
  }

  // ---------- Runs ----------

  type Transaction = (Env, Call)

  ghost function Run(s: State, calls: seq<Transaction>): State {
    if calls == [] then s
    else Step(Run(s, calls[..|calls| - 1]), calls[|calls| - 1].0, calls[|calls| - 1].1).0
  }

  /** Blocks have a positive time and transactions different hashes, none of which already names
      a multi swap. */
  ghost predicate FreshRun(s: State, calls: seq<Transaction>) {
    && (forall k :: 0 <= k < |calls| ==> calls[k].0.time > 0 && calls[k].0.txHash !in s.multiSwaps)
    && (forall j, k :: 0 <= j < k < |calls| ==> calls[j].0.txHash != calls[k].0.txHash)
  }

  lemma {:induction false} RunMultiIds(s: State, calls: seq<Transaction>)
    requires ValidState(s) && FreshRun(s, calls)
    ensures ValidState(Run(s, calls))
    ensures forall id :: id in Run(s, calls).multiSwaps ==>
      id in s.multiSwaps || exists k :: 0 <= k < |calls| && calls[k].0.txHash == id
  {
    hide Step, ValidState;
    if calls != [] {
      var front, last := calls[..|calls| - 1], calls[|calls| - 1];
      RunMultiIds(s, front);
      StepConserves(Run(s, front), last.0, last.1);
      StepMultiIds(Run(s, front), last.0, last.1);
      forall id | id in Run(s, calls).multiSwaps
        ensures id in s.multiSwaps || exists k :: 0 <= k < |calls| && calls[k].0.txHash == id
      {
        if id in Run(s, front).multiSwaps && id !in s.multiSwaps {
          var k :| 0 <= k < |front| && front[k].0.txHash == id;
          assert calls[k].0.txHash == id;
        } else if id !in s.multiSwaps {
          assert calls[|calls| - 1].0.txHash == id;
        }
      }
    }
  }

  /** At every instant that no call of the run looks back to, the supply of every asset changes by
      exactly the change of its recorded total. */
  lemma {:induction false} RunConserves(s: State, calls: seq<Transaction>, a: Hash, t: int)
    requires ValidState(s) && FreshRun(s, calls) && 0 <= t <= FOREVER
    requires forall k :: 0 <= k < |calls| ==> ConservedFrom(calls[k].0, calls[k].1) <= t
    ensures ValidState(Run(s, calls))
    ensures Supply(Run(s, calls), a, t) - Recorded(Run(s, calls), a) == Supply(s, a, t) - Recorded(s, a)
  {
    hide Step, ValidState, Supply, Recorded, ConservedFrom;
    if calls != [] {
      var front, last := calls[..|calls| - 1], calls[|calls| - 1];
      RunConserves(s, front, a, t);
      RunMultiIds(s, front);
      StepConserves(Run(s, front), last.0, last.1);
      assert ConservedFrom(last.0, last.1) <= t;
    }
  }

  /** An asset whose supply is its recorded total stays that way. */
  lemma TotalsStayExact(s: State, calls: seq<Transaction>, a: Hash, t: int)
    requires ValidState(s) && FreshRun(s, calls) && 0 <= t <= FOREVER
    requires forall k :: 0 <= k < |calls| ==> ConservedFrom(calls[k].0, calls[k].1) <= t
    requires Supply(s, a, t) == Recorded(s, a)
    ensures Supply(Run(s, calls), a, t) == Recorded(Run(s, calls), a)
  {
    RunConserves(s, calls, a, t);
  }

  /** Over every run without a recall by its owner such an offer stays open, and every accepted
      taking of it crashes the program. */
  lemma {:induction false} StuckForGood(s: State, calls: seq<Transaction>, id: Hash, swap: MultiSwap, env: Env,
                                        size: int)
    requires ValidState(s) && FreshRun(s, calls) && Stuck(s, id, swap)
    requires forall k :: 0 <= k < |calls| ==> !Recalls(calls[k].0, calls[k].1, id, swap.owner)
    ensures Stuck(Run(s, calls), id, swap)
    ensures CheckTakeMultiSwap(size, swap, env.time) ==>
      Step(Run(s, calls), env, TakeMultiSwapCall(id, size)).1 == Crashed
  {
    hide Step, ValidState, PriceOutOfRange, CheckTakeMultiSwap;
    RunMultiIds(s, calls);
    if calls != [] {
      var front, last := calls[..|calls| - 1], calls[|calls| - 1];
      RunMultiIds(s, front);
      StuckForGood(s, front, id, swap, env, size);
      StepKeepsStuck(Run(s, front), last.0, last.1, id, swap);
    }
    CrashesIff(Run(s, calls), env, TakeMultiSwapCall(id, size));
  }

  /** Making an offer does not look at the number of its prices: an accepted one with a price out
      of range is stuck from then on. */
  lemma {:induction false} MadeStuck(s: State, env: Env, p: MakeMultiSwapParam, calls: seq<Transaction>, env': Env,
                                     size: int)
    requires ValidState(s) && env.time > 0 && MakeMultiSwap(s, env, p).1 == Done
    requires SameLengths(NewMultiSwap(s, env, p)) && PriceOutOfRange(NewMultiSwap(s, env, p))
    requires FreshRun(MakeMultiSwap(s, env, p).0, calls)
    requires forall k :: 0 <= k < |calls| ==> !Recalls(calls[k].0, calls[k].1, env.txHash, env.sender)
    ensures var swap := NewMultiSwap(s, env, p);
            && Stuck(Run(MakeMultiSwap(s, env, p).0, calls), env.txHash, swap)
            && (CheckTakeMultiSwap(size, swap, env'.time) ==>
                  Step(Run(MakeMultiSwap(s, env, p).0, calls), env', TakeMultiSwapCall(env.txHash, size)).1 == Crashed)
  {
    hide PayAll, ToAssetsError, CheckMakeMultiSwap, PriceOutOfRange, CheckTakeMultiSwap, Run, Step, FreshRun,
      ValidState, Conserves;
    MakeMultiSwapConserves(s, env, p);
    StuckForGood(MakeMultiSwap(s, env, p).0, calls, env.txHash, NewMultiSwap(s, env, p), env', size);
  }

  /** One unit of asset 7 is offered, one plain unit and one until instant 20 are asked. */
  function OddOffer(): MakeMultiSwapParam {
    MakeMultiSwapParam([7], [0], [FOREVER], [1], [7, 7], [0, 0], [FOREVER, 20], [1, 1], 1, [], 0, "")
  }

  lemma OddOfferMade(s: State, env: Env)
    requires env.txHash !in s.swaps && env.txHash !in s.multiSwaps && 7 in s.assets
    requires Balance(s, env.sender, 7) >= 1 && env.time < 20
    ensures MakeMultiSwap(s, env, OddOffer()).1 == Done
    ensures var swap := NewMultiSwap(s, env, OddOffer());
            SameLengths(swap) && PriceOutOfRange(swap) && CheckTakeMultiSwap(1, swap, env.time)
  {
    hide PayAll, Balance;
    var swap := NewMultiSwap(s, env, OddOffer());
    OneLegPaid(s, env.sender, FromLegs(swap, 1), env.time);
    assert ToAssetsError(s, [7, 7]) == ToAssetsError(s, [7]) == ToAssetsError(s, []);
    assert !(swap.toStart[1] == 0 && swap.toEnd[1] == FOREVER);
  }

  /** The offer is accepted from an account with one unit, and taking it crashes. */
  lemma CrashExample()
    ensures var s := UnitLedger();
            var (s1, made) := Step(s, Env(1, 9, 10, 10, 1, 21), MakeMultiSwapCall(OddOffer()));
            var (s2, taken) := Step(s1, Env(2, 11, 10, 10, 1, 22), TakeMultiSwapCall(9, 1));
            ValidState(s) && made == Done && taken == Crashed
  {
    hide MakeMultiSwap, TakeMultiSwap, ValidState, PriceOutOfRange, CheckTakeMultiSwap, OddOffer, Balance;
    var s, env := UnitLedger(), Env(1, 9, 10, 10, 1, 21);
    UnitLedgerValid();
    OddOfferMade(s, env);
    MadeStuck(s, env, OddOffer(), [], Env(2, 11, 10, 10, 1, 22), 1);
  }
}
