/** The FSN calls as the program executes them, writing to the state database step by step. Each
    handler is proved to leave exactly the ledger, and to report exactly the outcome, that
    `LedgerCalls` gives for the call. */
module FsnCallHandlers {
  import opened TimeLockItems
  import opened TimeLockAlgebra
  import opened TimeLockOps
  import opened FsnTypes
  import opened LedgerState
  import opened LedgerCalls
  import opened LedgerConservation
  import opened LedgerSwaps
  import opened LedgerMultiSwaps
  import opened LedgerDryRun
  import opened StateDb

  class Handler {
    const state: StateDB
    const env: Env

    constructor (state: StateDB, env: Env)
      ensures this.state == state && this.env == env
    {
      this.state, this.env := state, env;
    }

    // ---------- Assets ----------

    method HandleGenNotation() returns (r: Outcome)
      modifies state
      ensures (state.Abs(), r) == GenNotation(old(state.Abs()), env)
    {
      var ok := state.NewNotation(env.sender);
      if !ok {
        return Failed(HasNotation);
      }
      return Done;
    }

    method HandleGenAsset(p: GenAssetParam) returns (r: Outcome)
      modifies state
      ensures (state.Abs(), r) == GenAsset(old(state.Abs()), env, p)
    {
      if !CheckGenAsset(p) {
        return Failed(BadParameter);
      }
      var asset := NewAsset(p, env);
      var ok := state.GenAsset(asset);
      if !ok {
        return Failed(AlreadyExists);
      }
      state.AddBalance(env.sender, asset.id, asset.total);
      return Done;
    }

    method HandleSendAsset(p: SendAssetParam) returns (r: Outcome)
      modifies state
      ensures (state.Abs(), r) == SendAsset(old(state.Abs()), env, p)
    {
      if !CheckSendAsset(p) {
        return Failed(BadParameter);
      }
      if state.GetBalance(p.asset, env.sender) < p.value {
        return Failed(NotEnough);
      }
      state.SubBalance(env.sender, p.asset, p.value);
      state.AddBalance(p.to, p.asset, p.value);
      return Done;
    }

    method HandleValueChange(p: ValueChangeParam) returns (r: Outcome)
      modifies state
      ensures (state.Abs(), r) == ValueChange(old(state.Abs()), env, p)
    {
      if !CheckValueChange(p) {
        return Failed(BadParameter);
      }
      if p.asset !in state.assets {
        return Failed(NotFound);
      }
      var asset := state.assets[p.asset];
      if !asset.canChange {
        return Failed(FixedSupply);
      }
      if asset.owner != env.sender {
        return Failed(NotOwner);
      }
      if asset.owner != p.to && !p.isInc {
        return Failed(DecrementElsewhere);
      }
      if p.isInc {
        state.AddBalance(p.to, p.asset, p.value);
        asset := asset.(total := asset.total + p.value);
      } else {
        if state.GetBalance(p.asset, p.to) < p.value {
          return Failed(NotEnough);
        }
        state.SubBalance(p.to, p.asset, p.value);
        asset := asset.(total := asset.total - p.value);
      }
      state.UpdateAsset(asset);
      return Done;
    }

    // ---------- Time locks and tickets ----------

    method HandleTimeLock(q: TimeLockParam) returns (r: Outcome)
      requires ValidState(state.Abs()) && env.time > 0
      modifies state
      ensures (state.Abs(), r) == TimeLockStep(old(state.Abs()), env, q)
    {
      hide ValidState, Enough, Minus, Plus, Val, Normal;
      var p := q;
      if q.kind.TimeLockToAsset? {
        if q.start > env.now {
          return Failed(StartsLater);
        }
        p := q.(end := FOREVER);
      }
      if !CheckTimeLock(p, env.time) {
        return Failed(BadParameter);
      }
      var need := Item(MaxInstant(p.start, env.time), p.end, Magnitude(p.value));
      if !ValidItem(need) {
        return Failed(BadParameter);
      }
      NormalLock(state.Abs(), env.sender, p.asset);
      match p.kind {
        case AssetToTimeLock =>
          r := LockAsset(p, need);
        case TimeLockToTimeLock =>
          var enough := IsEnough(state.GetTimeLockBalance(p.asset, env.sender), need);
          if !enough {
            return Failed(NotEnough);
          }
          SubLockValid(state.Abs(), env.sender, p.asset, need, env.time);
          SingleIsNormal(need);
          state.SubTimeLockBalance(env.sender, p.asset, need, env.time);
          NormalLock(state.Abs(), p.to, p.asset);
          state.AddTimeLockBalance(p.to, p.asset, [need], env.time);
          return Done;
        case TimeLockToAsset =>
          var enough := IsEnough(state.GetTimeLockBalance(p.asset, env.sender), need);
          if !enough {
            return Failed(NotEnough);
          }
          state.SubTimeLockBalance(env.sender, p.asset, need, env.time);
          state.AddBalance(p.to, p.asset, p.value);
          return Done;
        case OtherKind =>
          return Failed(Unsupported);
      }
    }

    method LockAsset(p: TimeLockParam, need: Item) returns (r: Outcome)
      requires ValidState(state.Abs()) && env.time > 0 && p.value > 0
      requires ValidItem(need) && need.start >= env.time && need.value == p.value
      modifies state
      ensures (state.Abs(), r) == LockFromAsset(old(state.Abs()), env, p, need)
    {
      hide ValidState, Enough, Minus, Plus, Val, Normal;
      if state.GetBalance(p.asset, env.sender) < p.value {
        return Failed(NotEnough);
      }
      CreditValid(state.Abs(), env.sender, p.asset, -p.value);
      state.SubBalance(env.sender, p.asset, p.value);
      var whole := Item(env.time, FOREVER, Magnitude(p.value));
      SingleIsNormal(whole);
      SingleIsNormal(need);
      NormalLock(state.Abs(), p.to, p.asset);
      NormalLock(state.Abs(), env.sender, p.asset);
      if env.sender == p.to {
        state.AddTimeLockBalance(p.to, p.asset, [whole], env.time);
      } else {
        SurplusMeaning(env.time, p.value, need);
        var surplus := DifferenceOf([whole], need);
        AddLockValid(state.Abs(), env.sender, p.asset, surplus, env.time);
        if surplus != [] {
          state.AddTimeLockBalance(env.sender, p.asset, surplus, env.time);
        }
        NormalLock(state.Abs(), p.to, p.asset);
        state.AddTimeLockBalance(p.to, p.asset, [need], env.time);
      }
      return Done;
    }

    method HandleBuyTicket(p: BuyTicketParam) returns (r: Outcome)
      requires ValidState(state.Abs()) && env.time > 0
      modifies state
      ensures (state.Abs(), r) == BuyTicket(old(state.Abs()), env, p)
    {
      hide ValidState, Enough, Minus, Plus, Val, Normal;
      if env.ticketId in state.tickets {
        return Failed(AlreadyExists);
      }
      if !CheckBuyTicket(p) {
        return Failed(BadParameter);
      }
      var need := Item(MaxInstant(p.start, env.time), p.end, TICKET_PRICE);
      if !ValidItem(need) {
        return Failed(BadParameter);
      }
      var ticket := Ticket(env.sender, env.ticketId, env.height, p.start, p.end);
      NormalLock(state.Abs(), env.sender, SYSTEM_ASSET);
      var enough := IsEnough(state.GetTimeLockBalance(SYSTEM_ASSET, env.sender), need);
      if !enough {
        if state.GetBalance(SYSTEM_ASSET, env.sender) < TICKET_PRICE {
          return Failed(NotEnough);
        }
        CreditValid(state.Abs(), env.sender, SYSTEM_ASSET, -TICKET_PRICE);
        state.SubBalance(env.sender, SYSTEM_ASSET, TICKET_PRICE);
        var whole := Item(env.time, FOREVER, TICKET_PRICE);
        SingleIsNormal(whole);
        SurplusMeaning(env.time, TICKET_PRICE, need);
        var surplus := DifferenceOf([whole], need);
        if surplus != [] {
          NormalLock(state.Abs(), env.sender, SYSTEM_ASSET);
          state.AddTimeLockBalance(env.sender, SYSTEM_ASSET, surplus, env.time);
        }
      } else {
        state.SubTimeLockBalance(env.sender, SYSTEM_ASSET, need, env.time);
      }
      var ok := state.AddTicket(ticket);
      assert ok;
      return Done;
    }

    // ---------- Single swaps ----------

    /** Moves an amount from the balance into a lock over the whole future. */
    method ConvertBalance(asset: Hash, amount: int)
      requires ValidState(state.Abs()) && env.time > 0 && 0 < amount <= state.GetBalance(asset, env.sender)
      modifies state
      ensures state.Abs() == Convert(old(state.Abs()), env.sender, asset, amount, env.time)
    {
      hide ValidState, Minus, Plus, Val, Normal;
      CreditValid(state.Abs(), env.sender, asset, -amount);
      state.SubBalance(env.sender, asset, amount);
      var whole := Item(env.time, FOREVER, Magnitude(amount));
      SingleIsNormal(whole);
      NormalLock(state.Abs(), env.sender, asset);
      state.AddTimeLockBalance(env.sender, asset, [whole], env.time);
    }

    /** Checks that a leg can be paid, converting balance if that is allowed and needed. */
    method PrepareLeg(leg: Leg, convert: bool) returns (ok: bool)
      requires ValidState(state.Abs()) && env.time > 0 && leg.total > 0
      modifies state
      ensures ok <==> Prepare(old(state.Abs()), env.sender, leg, env.time, convert).Some?
      ensures ok ==> Some(state.Abs()) == Prepare(old(state.Abs()), env.sender, leg, env.time, convert)
      ensures !ok ==> state.Abs() == old(state.Abs())
    {
      hide ValidState, Enough, Minus, Plus, Val, Normal, Convert;
      if UsesAsset(leg) {
        return state.GetBalance(leg.asset, env.sender) >= leg.total;
      }
      var need := Need(leg, env.time);
      if ValidItem(need) {
        NormalLock(state.Abs(), env.sender, leg.asset);
        var enough := IsEnough(state.GetTimeLockBalance(leg.asset, env.sender), need);
        if !enough {
          if !convert || state.GetBalance(leg.asset, env.sender) < leg.total {
            return false;
          }
          ConvertBalance(leg.asset, leg.total);
        }
      }
      return true;
    }

    method TakeLeg(leg: Leg)
      requires ValidState(state.Abs()) && Affordable(state.Abs(), env.sender, leg, env.time)
      modifies state
      ensures state.Abs() == TakeOut(old(state.Abs()), env.sender, leg, env.time)
    {
      hide ValidState, Enough, Minus, Plus, Val, Normal;
      var need := Need(leg, env.time);
      NormalLock(state.Abs(), env.sender, leg.asset);
      if UsesAsset(leg) {
        state.SubBalance(env.sender, leg.asset, leg.total);
      } else if ValidItem(need) {
        state.SubTimeLockBalance(env.sender, leg.asset, need, env.time);
      }
    }

    method ReceiveLeg(who: Address, leg: Leg)
      requires ValidState(state.Abs())
      modifies state
      ensures state.Abs() == Receive(old(state.Abs()), who, leg, env.time)
    {
      hide ValidState, Minus, Plus, Val, Normal;
      if UsesAsset(leg) {
        state.AddBalance(who, leg.asset, leg.total);
      } else {
        var need := Need(leg, env.time);
        if ValidItem(need) {
          NormalLock(state.Abs(), who, leg.asset);
          SingleIsNormal(need);
          state.AddTimeLockBalance(who, leg.asset, [need], env.time);
        }
      }
    }

    method HandleMakeSwap(q: MakeSwapParam, ext: bool) returns (r: Outcome)
      requires ValidState(state.Abs()) && env.time > 0
      modifies state
      ensures (state.Abs(), r) == MakeSwap(old(state.Abs()), env, q, ext)
    {
      hide ValidState, Prepare, TakeOut, Affordable;
      if env.txHash in state.swaps {
        return Failed(AlreadyExists);
      }
      if !CheckMakeSwap(q, env.time) {
        return Failed(BadParameter);
      }
      if q.toAsset == USAN_ASSET {
        return Failed(UsanSwap);
      }
      if q.toAsset !in state.assets {
        return Failed(NotFound);
      }
      var p := q;
      if q.fromAsset == USAN_ASSET {
        if state.GetNotation(env.sender) == 0 {
          return Failed(NoNotation);
        }
        p := q.(minFrom := 1, size := 1, fromStart := 0, fromEnd := FOREVER);
      }
      var swap := NewSwap(state.Abs(), env, p);
      if p.fromAsset == USAN_ASSET {
        var ok := state.AddSwap(swap);
        assert ok;
      } else {
        var leg := FromLeg(swap, swap.size);
        assert ValidItem(Need(leg, env.time));  // so the validity error of the program cannot occur
        PrepareMeaning(state.Abs(), env.sender, leg, env.time, ext);
        var enough := PrepareLeg(leg, ext);
        if !enough {
          return Failed(NotEnough);
        }
        ghost var s1 := state.Abs();
        OpenSwapMeaning(s1, swap);
        TakeOutCommutes(s1, swap, env.sender, leg, env.time);
        AffordableDepends(s1, s1.(swaps := s1.swaps[swap.id := swap]), env.sender, leg, env.time);
        var ok := state.AddSwap(swap);
        assert ok;
        TakeLeg(leg);
      }
      return Done;
    }

    method HandleRecallSwap(id: Hash) returns (r: Outcome)
      requires ValidState(state.Abs())
      modifies state
      ensures (state.Abs(), r) == RecallSwap(old(state.Abs()), env, id)
    {
      hide ValidState, Receive;
      if id !in state.swaps {
        return Failed(NotFound);
      }
      var swap := state.swaps[id];
      if swap.owner != env.sender {
        return Failed(NotOwner);
      }
      SwapIsGood(state.Abs(), id);
      DropSwapValid(state.Abs(), swap.id);
      var ok := state.RemoveSwap(swap.id);
      assert ok;
      if swap.fromAsset != USAN_ASSET {
        ReceiveLeg(env.sender, FromLeg(swap, swap.size));
      }
      return Done;
    }

    method HandleTakeSwap(id: Hash, size: int, ext: bool) returns (r: Outcome)
      requires ValidState(state.Abs()) && env.time > 0
      modifies state
      ensures (state.Abs(), r) == TakeSwap(old(state.Abs()), env, id, size, ext)
    {
      hide ValidState, Receive, Prepare, TakeOut, Affordable, TransferNotation;
      if id !in state.swaps {
        return Failed(NotFound);
      }
      var swap := state.swaps[id];
      if !CheckTakeSwap(size, swap, env.time) {
        return Failed(BadParameter);
      }
      var usan := swap.fromAsset == USAN_ASSET;
      if usan {
        var notation := state.GetNotation(swap.owner);
        if notation == 0 || notation != swap.notation {
          return Failed(NoNotation);
        }
      }
      SwapIsGood(state.Abs(), id);
      FromLegPositive(swap, size);
      var price := ToLeg(swap, size);
      PrepareMeaning(state.Abs(), env.sender, price, env.time, ext);
      var enough := PrepareLeg(price, ext);
      if !enough {
        return Failed(NotEnough);
      }
      ghost var s1 := state.Abs();
      ShrinkSwapMeaning(s1, swap, size);
      AffordableDepends(s1, ShrinkSwap(s1, swap, size), env.sender, price, env.time);
      if swap.size == size {
        var ok := state.RemoveSwap(swap.id);
        assert ok;
      } else {
        swap := swap.(size := swap.size - size);
        state.UpdateSwap(swap);
      }
      ReceiveMeaning(state.Abs(), swap.owner, price, env.time);
      ReceiveKeepsAffordable(state.Abs(), swap.owner, price, env.time, env.sender);
      ReceiveLeg(swap.owner, price);
      TakeOutMeaning(state.Abs(), env.sender, price, env.time);
      TakeLeg(price);
      if usan {
        var ok := state.MoveNotation(swap.notation, swap.owner, env.sender);
        if !ok {
          return Failed(NoNotation);
        }
      } else {
        ReceiveLeg(env.sender, FromLeg(swap, size));
      }
      return Done;
    }

    // ---------- Multi swaps ----------

    /** Copies the sender's balances and time locks of the given assets. */
    method CopyWallet(assets: seq<Hash>) returns (w: Wallet)
      requires ValidState(state.Abs())
      ensures Mirrors(w, state.Abs(), env.sender, env.time, set k | 0 <= k < |assets| :: assets[k])
    {
      hide Val, Normal, ValidState;
      w := Wallet(map[], map[]);
      for i := 0 to |assets|
        invariant forall k :: 0 <= k < i ==> assets[k] in w.balances
        invariant forall a :: a in w.balances ==>
          && w.balances[a] == state.GetBalance(a, env.sender)
          && a in w.locks && w.locks[a] == state.GetTimeLockBalance(a, env.sender)
      {
        if assets[i] !in w.balances {
          var balance := state.GetBalance(assets[i], env.sender);
          var timelock := state.GetTimeLockBalance(assets[i], env.sender);
          w := Wallet(w.balances[assets[i] := balance], w.locks[assets[i] := timelock]);
        }
      }
      forall a | a in (set k | 0 <= k < |assets| :: assets[k]) ensures Copies(w, state.Abs(), env.sender, env.time, a) {
        NormalLock(state.Abs(), env.sender, a);
      }
    }

    /** One leg of the check on the copies. */
    method TryOn(w: Wallet, leg: Leg) returns (ok: bool, w': Wallet)
      requires Normal(CopyOfLock(w, leg.asset)) && leg.total > 0 && env.time > 0
      ensures ok <==> TryLeg(w, leg, env.time).Some?
      ensures ok ==> w' == TryLeg(w, leg, env.time).value
    {
      hide Val, Normal, Enough, Plus, Minus;
      w' := w;
      var balance, timeLock := CopyOfBalance(w, leg.asset), CopyOfLock(w, leg.asset);
      if UsesAsset(leg) {
        if balance < leg.total {
          return false, w;
        }
        w' := WithBalance(w, leg.asset, balance - leg.total);
      } else {
        var need := Need(leg, env.time);
        if !ValidItem(need) {
          return true, w;
        }
        var enough := IsEnough(timeLock, need);
        if !enough {
          if balance < leg.total {
            return false, w;
          }
          w' := WithBalance(w', leg.asset, balance - leg.total);
          var whole := Item(env.time, FOREVER, Magnitude(leg.total));
          SingleIsNormal(whole);
          AgreeSelf(timeLock, env.time);
          TryConvert(timeLock, timeLock, leg.total, need, env.time);
          timeLock := SumOf(timeLock, [whole]);
        }
        timeLock := DifferenceOf(timeLock, need);
        w' := WithLock(w', leg.asset, timeLock);
      }
      return true, w';
    }

    /** The check on the copies, leg after leg. */
    method DryRun(legs: seq<Leg>) returns (ok: bool)
      requires ValidState(state.Abs()) && env.time > 0 && AllPositive(legs)
      ensures ok <==> PayAll(state.Abs(), env.sender, legs, env.time).Some?
    {
      hide ValidState, PayAll, TryLeg, Copies, Normal;
      var assets := seq(|legs|, k requires 0 <= k < |legs| => legs[k].asset);
      ghost var all := set k | 0 <= k < |assets| :: assets[k];
      forall k | 0 <= k < |legs| ensures legs[k].asset in all {
        assert assets[k] in all;
      }
      var w := CopyWallet(assets);
      ghost var w0 := w;
      for i := 0 to |legs|
        invariant TryAll(w0, legs[..i], env.time) == Some(w)
      {
        DryRunDecides(w0, state.Abs(), env.sender, legs[..i], env.time, all);
        ghost var paid := PayAll(state.Abs(), env.sender, legs[..i], env.time).value;
        assert Copies(w, paid, env.sender, env.time, legs[i].asset);
        CopyNormal(w, paid, env.sender, env.time, legs[i].asset);
        var fine, w' := TryOn(w, legs[i]);
        assert legs[..i + 1][..i] == legs[..i] && legs[..i + 1][i] == legs[i];
        if !fine {
          DryRunDecides(w0, state.Abs(), env.sender, legs[..i + 1], env.time, all);
          PayAllPrefix(state.Abs(), env.sender, legs, env.time, i + 1);
          return false;
        }
        w := w';
      }
      assert legs[..|legs|] == legs;
      DryRunDecides(w0, state.Abs(), env.sender, legs, env.time, all);
      return true;
    }

    /** The pass that takes the legs out of the ledger. It is entered only after the check on the
        copies succeeded, and then it cannot fail. */
    method Deduct(legs: seq<Leg>) returns (deductErr: bool)
      requires ValidState(state.Abs()) && env.time > 0 && AllPositive(legs)
      requires PayAll(state.Abs(), env.sender, legs, env.time).Some?
      modifies state
      ensures !deductErr
      ensures Some(state.Abs()) == PayAll(old(state.Abs()), env.sender, legs, env.time)
    {
      hide ValidState, Prepare, TakeOut, Affordable;
      deductErr := false;
      ghost var s0 := state.Abs();
      for i := 0 to |legs|
        invariant !deductErr && ValidState(state.Abs())
        invariant PayAll(s0, env.sender, legs[..i], env.time) == Some(state.Abs())
      {
        assert legs[..i + 1][..i] == legs[..i] && legs[..i + 1][i] == legs[i];
        PayAllPrefix(s0, env.sender, legs, env.time, i + 1);
        PrepareMeaning(state.Abs(), env.sender, legs[i], env.time, true);
        PayAllMeaning(s0, env.sender, legs[..i + 1], env.time);
        var ok := PrepareLeg(legs[i], true);
        if !ok {
          deductErr := true;
          break;
        }
        TakeLeg(legs[i]);
      }
      assert legs[..|legs|] == legs;
    }

    method ReceiveLegs(who: Address, legs: seq<Leg>)
      requires ValidState(state.Abs()) && AllPositive(legs)
      modifies state
      ensures state.Abs() == ReceiveAll(old(state.Abs()), who, legs, env.time)
    {
      hide ValidState, Receive;
      ghost var s0 := state.Abs();
      for i := 0 to |legs|
        invariant ValidState(state.Abs()) && state.Abs() == ReceiveAll(s0, who, legs[..i], env.time)
      {
        assert legs[..i + 1][..i] == legs[..i] && legs[..i + 1][i] == legs[i];
        ReceiveMeaning(state.Abs(), who, legs[i], env.time);
        ReceiveLeg(who, legs[i]);
      }
      assert legs[..|legs|] == legs;
    }

    method CheckToAssets(assets: seq<Hash>) returns (error: Option<Error>)
      ensures error == ToAssetsError(state.Abs(), assets)
    {
      for i := 0 to |assets|
        invariant ToAssetsError(state.Abs(), assets) == ToAssetsError(state.Abs(), assets[i..])
      {
        if assets[i] == USAN_ASSET {
          return Some(UsanSwap);
        }
        if assets[i] !in state.assets {
          return Some(NotFound);
        }
        assert assets[i..][1..] == assets[i + 1..];
      }
      return None;
    }

    method HandleMakeMultiSwap(p: MakeMultiSwapParam) returns (r: Outcome)
      requires ValidState(state.Abs()) && env.time > 0
      modifies state
      ensures (state.Abs(), r) == MakeMultiSwap(old(state.Abs()), env, p)
    {
      hide ValidState, PayAll, ToAssetsError;
      if env.txHash in state.swaps {
        return Failed(AlreadyExists);
      }
      if !CheckMakeMultiSwap(p, env.time) {
        return Failed(BadParameter);
      }
      var error := CheckToAssets(p.toAsset);
      if error.Some? {
        return Failed(error.value);
      }
      if USAN_ASSET in p.fromAsset {
        return Failed(UsanSwap);
      }
      var swap := NewMultiSwap(state.Abs(), env, p);
      var legs := FromLegs(swap, swap.size);
      CheckedMultiIsGood(state.Abs(), env, p);
      MultiLegsPositive(swap, swap.size);
      assert forall k :: 0 <= k < |legs| ==> ValidItem(Need(legs[k], env.time));  // the validity error cannot occur
      var ok := DryRun(legs);
      if !ok {
        return Failed(NotEnough);
      }
      PayAllMeaning(state.Abs(), env.sender, legs, env.time);
      var deductErr := Deduct(legs);
      var added := state.AddMultiSwap(swap);
      if !added {
        return Failed(AlreadyExists);
      }
      return Done;
    }

    method HandleRecallMultiSwap(id: Hash) returns (r: Outcome)
      requires ValidState(state.Abs())
      modifies state
      ensures (state.Abs(), r) == RecallMultiSwap(old(state.Abs()), env, id)
    {
      hide ValidState, ReceiveAll;
      if id !in state.multiSwaps {
        return Failed(NotFound);
      }
      var swap := state.multiSwaps[id];
      if swap.owner != env.sender {
        return Failed(NotOwner);
      }
      MultiSwapIsGood(state.Abs(), id);
      DropMultiValid(state.Abs(), swap.id);
      var ok := state.RemoveMultiSwap(swap.id);
      assert ok;
      MultiLegsPositive(swap, swap.size);
      ReceiveLegs(env.sender, FromLegs(swap, swap.size));
      return Done;
    }

    /** Writes the intervals of the time-locked prices into a table of the given number of slots.
        A write out of range ends the program. */
    method FillPrices(price: seq<Leg>, slots: nat) returns (ok: bool)
      ensures ok <==> FillTable(price, slots, env.time).Some?
    {
      var table := new Option<Item>[slots](_ => None);
      assert table[..] == seq(slots, _ => None);
      for i := 0 to |price|
        invariant FillTable(price[..i], slots, env.time) == Some(table[..])
      {
        assert price[..i + 1][..i] == price[..i] && price[..i + 1][i] == price[i];
        if !UsesAsset(price[i]) {
          if i >= table.Length {
            FillPrefix(price, slots, env.time, i + 1);
            return false;
          }
          table[i] := Some(Need(price[i], env.time));
        }
      }
      assert price[..|price|] == price;
      FillMeaning(price, slots, env.time);
      // what the later passes read from the table
      assert forall k :: 0 <= k < |price| && !UsesAsset(price[k]) ==> table[..][k] == Some(Need(price[k], env.time));
      return true;
    }

    method HandleTakeMultiSwap(id: Hash, size: int) returns (r: Outcome)
      requires ValidState(state.Abs()) && env.time > 0
      modifies state
      ensures (state.Abs(), r) == TakeMultiSwap(old(state.Abs()), env, id, size)
    {
      hide ValidState, PayAll, ReceiveAll, FillTable;
      if id !in state.multiSwaps {
        return Failed(NotFound);
      }
      var swap := state.multiSwaps[id];
      if !CheckTakeMultiSwap(size, swap, env.time) {
        return Failed(BadParameter);
      }
      MultiSwapIsGood(state.Abs(), id);
      MultiLegsPositive(swap, size);
      var price, share := ToLegs(swap, size), FromLegs(swap, size);
      var filled := FillPrices(price, |swap.fromAsset|);
      if !filled {
        return Crashed;
      }
      var ok := DryRun(price);
      if !ok {
        return Failed(NotEnough);
      }
      PayAllMeaning(state.Abs(), env.sender, price, env.time);
      var deductErr := Deduct(price);
      ShrinkMultiMeaning(state.Abs(), swap, size);
      if swap.size == size {
        var removed := state.RemoveMultiSwap(swap.id);
        assert removed;
      } else {
        swap := swap.(size := swap.size - size);
        state.UpdateMultiSwap(swap);
      }
      ReceiveAllMeaning(state.Abs(), swap.owner, price, env.time);
      ReceiveLegs(swap.owner, price);
      ReceiveLegs(env.sender, share);
      return Done;
    }

    // ---------- Dispatch ----------

    method HandleFsnCall(call: Call) returns (r: Outcome)
      requires ValidState(state.Abs()) && env.time > 0
      modifies state
      ensures (state.Abs(), r) == Step(old(state.Abs()), env, call)
    {
      hide ValidState, GenAsset, SendAsset, ValueChange, TimeLockStep, BuyTicket, MakeSwap, RecallSwap, TakeSwap,
        MakeMultiSwap, RecallMultiSwap, TakeMultiSwap;
      match call {
        case GenAssetCall(p) => r := HandleGenAsset(p);
        case SendAssetCall(p) => r := HandleSendAsset(p);
        case TimeLockCall(p) => r := HandleTimeLock(p);
        case BuyTicketCall(p) => r := HandleBuyTicket(p);
        case ValueChangeCall(p) => r := HandleValueChange(p);
        case MakeSwapCall(p, ext) => r := HandleMakeSwap(p, ext);
        case RecallSwapCall(id) => r := HandleRecallSwap(id);
        case TakeSwapCall(id, size, ext) => r := HandleTakeSwap(id, size, ext);
        case MakeMultiSwapCall(p) => r := HandleMakeMultiSwap(p);
        case RecallMultiSwapCall(id) => r := HandleRecallMultiSwap(id);
        case TakeMultiSwapCall(id, size) => r := HandleTakeMultiSwap(id, size);
        case GenNotationCall => r := HandleGenNotation();
        case UnsupportedCall => r := Failed(Unsupported);
      }
    }
  }

  lemma TakeOutCommutes(s: State, swap: Swap, who: Address, leg: Leg, time: Instant)
    ensures TakeOut(s.(swaps := s.swaps[swap.id := swap]), who, leg, time)
         == TakeOut(s, who, leg, time).(swaps := s.swaps[swap.id := swap])
    ensures TakeOut(s, who, leg, time).swaps == s.swaps
  {
    if UsesAsset(leg) {
    } else if ValidItem(Need(leg, time)) {
    } else {
    }
  }

  lemma AgreeSelf(x: seq<Item>, time: Instant)
    ensures AgreeFrom(x, x, time)
  {
  }

  lemma CopyNormal(w: Wallet, s: State, who: Address, time: Instant, a: Hash)
    requires Copies(w, s, who, time, a)
    ensures Normal(CopyOfLock(w, a))
  {
  }

  lemma {:induction false} PayAllPrefix(s: State, who: Address, legs: seq<Leg>, time: Instant, n: nat)
    requires n <= |legs|
    ensures PayAll(s, who, legs, time).Some? ==> PayAll(s, who, legs[..n], time).Some?
    decreases |legs|
  {
    if n < |legs| {
      assert legs[..|legs| - 1][..n] == legs[..n];
      PayAllPrefix(s, who, legs[..|legs| - 1], time, n);
    } else {
      assert legs[..n] == legs;
    }
  }
}
