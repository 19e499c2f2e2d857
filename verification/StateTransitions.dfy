/** Applying one transaction and the transactions of a block: buying gas, the FSN call, the run of
    the virtual machine, the refund, and the payment of the miner. The virtual machine is an
    arbitrary function from the ledger and the gas it is given to what it leaves. */
module StateTransitions {
  import opened TimeLockItems
  import opened FsnTypes
  import opened LedgerState
  import opened LedgerCalls
  import opened LedgerConservation
  import opened LedgerRuns
  import opened StateDb
  import opened FsnCallHandlers

  const MAX_UINT64: int := 0xffff_ffff_ffff_ffff
  type Gas = g: int | 0 <= g <= 0xffff_ffff_ffff_ffff

  const TX_GAS: int := 21000
  const TX_GAS_CONTRACT_CREATION: int := 53000
  const TX_DATA_NON_ZERO_GAS: int := 68
  const TX_DATA_ZERO_GAS: int := 4

  // ---------- The gas pool of a block ----------

  class GasPool {
    var gas: Gas

    constructor ()
      ensures gas == 0
    {
      gas := 0;
    }

    /** False is the panic on overflow. */
    method AddGas(amount: Gas) returns (ok: bool)
      modifies this
      ensures ok <==> old(gas) + amount <= MAX_UINT64
      ensures gas == if ok then old(gas) + amount else old(gas)
    {
      if gas > MAX_UINT64 - amount {
        return false;
      }
      gas := gas + amount;
      return true;
    }

    method SubGas(amount: Gas) returns (ok: bool)
      modifies this
      ensures ok <==> old(gas) >= amount
      ensures gas == if ok then old(gas) - amount else old(gas)
    {
      if gas < amount {
        return false;
      }
      gas := gas - amount;
      return true;
    }
  }

  // ---------- Intrinsic gas ----------

  function NonZeroBytes(data: seq<nat>): (n: nat)
    ensures n <= |data|
  {
    if data == [] then 0 else NonZeroBytes(data[..|data| - 1]) + if data[|data| - 1] != 0 then 1 else 0
  }

  /** The price of a message before it runs, in unbounded integers. */
  function IntrinsicCost(data: seq<nat>, creation: bool, homestead: bool): nat {
    (if creation && homestead then TX_GAS_CONTRACT_CREATION else TX_GAS)
    + NonZeroBytes(data) * TX_DATA_NON_ZERO_GAS + (|data| - NonZeroBytes(data)) * TX_DATA_ZERO_GAS
  }

  /** A message costs a fixed price, and each byte of its data one that depends on whether it is 0. */
  lemma IntrinsicCostOf(data: seq<nat>, creation: bool, homestead: bool)
    ensures IntrinsicCost([], creation, homestead) == if creation && homestead then 53000 else 21000
    ensures data != [] ==>
      IntrinsicCost(data, creation, homestead) ==
      IntrinsicCost(data[..|data| - 1], creation, homestead) + if data[|data| - 1] == 0 then 4 else 68
  {
  }

  /** The 64-bit computation is exact and reports an error exactly when the price does not fit. */
  method IntrinsicGas(data: seq<nat>, creation: bool, homestead: bool) returns (r: Option<Gas>)
    ensures r.Some? <==> IntrinsicCost(data, creation, homestead) <= MAX_UINT64
    ensures r.Some? ==> r.value == IntrinsicCost(data, creation, homestead)
  {
    var gas := if creation && homestead then TX_GAS_CONTRACT_CREATION else TX_GAS;
    if |data| > 0 {
      var nz := 0;
      for i := 0 to |data|
        invariant nz == NonZeroBytes(data[..i]) <= i
      {
        assert data[..i + 1][..i] == data[..i];
        if data[i] != 0 {
          nz := nz + 1;
        }
      }
      assert data[..|data|] == data;
      if (MAX_UINT64 - gas) / TX_DATA_NON_ZERO_GAS < nz {
        return None;
      }
      gas := gas + nz * TX_DATA_NON_ZERO_GAS;
      var z := |data| - nz;
      if (MAX_UINT64 - gas) / TX_DATA_ZERO_GAS < z {
        return None;
      }
      gas := gas + z * TX_DATA_ZERO_GAS;
    }
    return Some(gas);
  }

  // ---------- Messages ----------

  /** A message; a message to the FSN call address carries the decoded call. */
  datatype Message = Message(from: Address, creation: bool, nonce: nat, checkNonce: bool,
                             gas: Gas, gasPrice: nat, data: seq<nat>, fsnCall: Option<Call>)

  function FsnCallFee(call: Call): nat {
    match call
    case GenNotationCall => 100000000000000000
    case GenAssetCall(_) => 10000000000000000
    case MakeSwapCall(_, _) => 1000000000000000
    case MakeMultiSwapCall(_) => 1000000000000000
    case TimeLockCall(_) => 1000000000000000
    case _ => 0
  }

  /** The fees are a tenth, a hundredth and a thousandth of a coin of 10^18 units. */
  lemma FeeScale(call: Call)
    ensures call.GenNotationCall? ==> 10 * FsnCallFee(call) == 1000000000000000000
    ensures call.GenAssetCall? ==> 10 * FsnCallFee(call) == FsnCallFee(GenNotationCall)
    ensures call.MakeSwapCall? || call.MakeMultiSwapCall? || call.TimeLockCall? ==>
      100 * FsnCallFee(call) == FsnCallFee(GenNotationCall)
    ensures FsnCallFee(call) > 0 ==>
      call.GenNotationCall? || call.GenAssetCall? || call.MakeSwapCall? || call.MakeMultiSwapCall? || call.TimeLockCall?
  {
  }

  function Fee(msg: Message): nat {
    if msg.fsnCall.Some? then FsnCallFee(msg.fsnCall.value) else 0
  }

  /** What the sender pays before anything runs. */
  function Upfront(msg: Message): int {
    msg.gas * msg.gasPrice + Fee(msg)
  }

  datatype VmError = NoVmError | InsufficientBalance | OtherVmError

  datatype VmResult = VmResult(after: State, gasLeft: Gas, refund: Gas, error: VmError)

  type Vm = (State, Gas) -> VmResult

  /** The machine never returns more gas than it was given. */
  ghost predicate FairVm(vm: Vm) {
    forall s: State, g: Gas :: vm(s, g).gasLeft <= g
  }

  datatype TxError =
    | NonceTooHigh | NonceTooLow | InsufficientForGas | GasLimitReached | OutOfGas
    | CallFailed | CallCrashed | VmInsufficient

  /** Why gas cannot be bought. */
  function BuyError(balance: int, pool: int, msg: Message): Option<TxError> {
    if balance < Upfront(msg) then Some(InsufficientForGas) else if pool < msg.gas then Some(GasLimitReached) else None
  }

  // ---------- What a successful transaction does ----------

  ghost function FsnOutcome(s: State, env: Env, msg: Message): Outcome {
    if msg.fsnCall.Some? && !msg.creation then Step(s, env, msg.fsnCall.value).1 else Done
  }

  ghost function AfterFsnCall(s: State, env: Env, msg: Message): State {
    if msg.fsnCall.Some? && !msg.creation then Step(s, env, msg.fsnCall.value).0 else s
  }

  /** The ledger on which the machine runs. */
  ghost function BeforeVm(s: State, env: Env, msg: Message): State {
    AfterFsnCall(Debit(s, msg.from, SYSTEM_ASSET, Upfront(msg)), env, msg)
  }

  /** The most that may be given back: no more than the counter, nor than half of the gas used. */
  predicate LargestRefund(used: int, counter: int, back: int) {
    && 0 <= back <= counter && 2 * back <= used
    && (back == counter || 2 * (back + 1) > used)
  }

  /** Before the machine runs a message pays, and makes its call unless it is a creation. */
  lemma BeforeVmOf(s: State, env: Env, msg: Message)
    ensures var paid := Debit(s, msg.from, SYSTEM_ASSET, msg.gas * msg.gasPrice + Fee(msg));
            if msg.creation || msg.fsnCall.None?
            then BeforeVm(s, env, msg) == paid && FsnOutcome(paid, env, msg) == Done
            else (BeforeVm(s, env, msg), FsnOutcome(paid, env, msg)) == Step(paid, env, msg.fsnCall.value)
    ensures Fee(msg) == match msg.fsnCall case None => 0 case Some(call) => FsnCallFee(call)
  {
  }

  function GasLeft(msg: Message, gasLeft: int, refund: int): int {
    gasLeft + if (msg.gas - gasLeft) / 2 > refund then refund else (msg.gas - gasLeft) / 2
  }

  /** The ledger after the sender got back what was not used and the miner was paid. */
  ghost function AfterTx(msg: Message, coinbase: Address, after: State, left: int): State {
    Credit(Credit(after, msg.from, SYSTEM_ASSET, left * msg.gasPrice),
           coinbase, SYSTEM_ASSET, (msg.gas - left) * msg.gasPrice + Fee(msg))
  }

  /** Apart from the FSN call and the machine, a transaction changes no supply. */
  lemma PaymentSupply(s: State, msg: Message, coinbase: Address, after: State, left: int, a: Hash, t: int)
    ensures Supply(AfterTx(msg, coinbase, after, left), a, t) - Supply(after, a, t)
         == Supply(s, a, t) - Supply(Debit(s, msg.from, SYSTEM_ASSET, Upfront(msg)), a, t)
  {
    hide Supply;
    var paidBack := left * msg.gasPrice;
    var minerFees := (msg.gas - left) * msg.gasPrice + Fee(msg);
    CreditSupply(s, msg.from, SYSTEM_ASSET, -Upfront(msg), a, t);
    CreditSupply(after, msg.from, SYSTEM_ASSET, paidBack, a, t);
    CreditSupply(Credit(after, msg.from, SYSTEM_ASSET, paidBack), coinbase, SYSTEM_ASSET, minerFees, a, t);
    SplitPrice(msg.gas, left, msg.gasPrice);
  }

  lemma SplitPrice(gas: int, left: int, price: int)
    ensures left * price + (gas - left) * price == gas * price
  {
  }

  lemma TransactionConserves(s: State, env: Env, msg: Message, coinbase: Address, after: State, left: int)
    requires ValidState(s) && env.time > 0 && env.txHash !in s.multiSwaps
    requires Balance(s, msg.from, SYSTEM_ASSET) >= Upfront(msg)
    requires Conserves(BeforeVm(s, env, msg), after, env.time)
    ensures var from := if msg.fsnCall.Some? then ConservedFrom(env, msg.fsnCall.value) else env.time;
            Conserves(s, AfterTx(msg, coinbase, after, left), from)
  {
    hide Supply, ValidState, Step;
    var cost := Upfront(msg);
    var s1 := Debit(s, msg.from, SYSTEM_ASSET, cost);
    var from := if msg.fsnCall.Some? then ConservedFrom(env, msg.fsnCall.value) else env.time;
    CreditValid(s, msg.from, SYSTEM_ASSET, -cost);
    if msg.fsnCall.Some? {
      StepConserves(s1, env, msg.fsnCall.value);
    }
    forall a: Hash, t: int | from <= t <= FOREVER
      ensures Supply(AfterTx(msg, coinbase, after, left), a, t) - Recorded(AfterTx(msg, coinbase, after, left), a)
           == Supply(s, a, t) - Recorded(s, a)
    {
      PaymentSupply(s, msg, coinbase, after, left, a, t);
    }
  }

  // ---------- One transaction ----------

  function NonceOf(nonces: map<Address, nat>, who: Address): nat {
    if who in nonces then nonces[who] else 0
  }

  class StateTransition {
    const state: StateDB
    const gp: GasPool
    const coinbase: Address
    var nonces: map<Address, nat>
    var gas: Gas
    var initialGas: Gas

    constructor (state: StateDB, gp: GasPool, coinbase: Address, nonces: map<Address, nat>)
      ensures this.state == state && this.gp == gp && this.coinbase == coinbase && this.nonces == nonces
      ensures gas == 0 && initialGas == 0
    {
      this.state, this.gp, this.coinbase, this.nonces := state, gp, coinbase, nonces;
      gas, initialGas := 0, 0;
    }

    function GetNonce(who: Address): nat
      reads this
    {
      NonceOf(nonces, who)
    }

    method UseGas(amount: Gas) returns (ok: bool)
      modifies this`gas
      ensures ok <==> old(gas) >= amount
      ensures gas == if ok then old(gas) - amount else old(gas)
    {
      if gas < amount {
        return false;
      }
      gas := gas - amount;
      return true;
    }

    method BuyGas(msg: Message) returns (err: Option<TxError>)
      requires gas == 0
      modifies this`gas, this`initialGas, state, gp
      ensures err == BuyError(old(Balance(state.Abs(), msg.from, SYSTEM_ASSET)), old(gp.gas), msg)
      ensures err.None? ==>
        && state.Abs() == Debit(old(state.Abs()), msg.from, SYSTEM_ASSET, Upfront(msg))
        && gp.gas == old(gp.gas) - msg.gas && gas == initialGas == msg.gas
      ensures err.Some? ==> state.Abs() == old(state.Abs()) && gp.gas == old(gp.gas)
    {
      var mgval := Upfront(msg);
      if state.GetBalance(SYSTEM_ASSET, msg.from) < mgval {
        return Some(InsufficientForGas);
      }
      var ok := gp.SubGas(msg.gas);
      if !ok {
        return Some(GasLimitReached);
      }
      gas := gas + msg.gas;
      initialGas := msg.gas;
      state.SubBalance(msg.from, SYSTEM_ASSET, mgval);
      return None;
    }

    method RefundGas(msg: Message, refundCounter: Gas)
      requires gas <= initialGas == msg.gas && gp.gas + msg.gas <= MAX_UINT64
      modifies this`gas, state, gp
      ensures gas == GasLeft(msg, old(gas), refundCounter) && old(gas) <= gas <= initialGas
      ensures LargestRefund(msg.gas - old(gas), refundCounter, gas - old(gas))
      ensures state.Abs() == Credit(old(state.Abs()), msg.from, SYSTEM_ASSET, gas * msg.gasPrice)
      ensures gp.gas == old(gp.gas) + gas
    {
      var refund := (initialGas - gas) / 2;
      if refund > refundCounter {
        refund := refundCounter;
      }
      gas := gas + refund;
      state.AddBalance(msg.from, SYSTEM_ASSET, gas * msg.gasPrice);
      var ok := gp.AddGas(gas);
      assert ok;
    }

    /** Refunds the sender, pays the miner and returns the gas used. */
    method Settle(msg: Message, refundCounter: Gas) returns (usedGas: Gas)
      requires gas <= initialGas == msg.gas && gp.gas + msg.gas <= MAX_UINT64
      modifies this`gas, state, gp
      ensures var left := GasLeft(msg, old(gas), refundCounter);
              && state.Abs() == AfterTx(msg, coinbase, old(state.Abs()), left)
              && usedGas == msg.gas - left && gp.gas + usedGas == old(gp.gas) + msg.gas
              && LargestRefund(msg.gas - old(gas), refundCounter, left - old(gas))
    {
      RefundGas(msg, refundCounter);
      usedGas := initialGas - gas;
      var minerFees := usedGas * msg.gasPrice;
      if Fee(msg) > 0 {
        minerFees := minerFees + Fee(msg);
      }
      state.AddBalance(coinbase, SYSTEM_ASSET, minerFees);
    }

    method PreCheck(msg: Message) returns (err: Option<TxError>)
      requires gas == 0 && ValidState(state.Abs())
      modifies this`gas, this`initialGas, state, gp
      ensures err == if msg.checkNonce && GetNonce(msg.from) < msg.nonce then Some(NonceTooHigh)
                     else if msg.checkNonce && GetNonce(msg.from) > msg.nonce then Some(NonceTooLow)
                     else BuyError(old(Balance(state.Abs(), msg.from, SYSTEM_ASSET)), old(gp.gas), msg)
      ensures err.None? ==>
        && state.Abs() == Debit(old(state.Abs()), msg.from, SYSTEM_ASSET, Upfront(msg))
        && ValidState(state.Abs())
        && gp.gas == old(gp.gas) - msg.gas && gas == initialGas == msg.gas
    {
      hide ValidState;
      if msg.checkNonce {
        var nonce := GetNonce(msg.from);
        if nonce < msg.nonce {
          return Some(NonceTooHigh);
        } else if nonce > msg.nonce {
          return Some(NonceTooLow);
        }
      }
      CreditValidIf(state.Abs(), msg.from, SYSTEM_ASSET, -Upfront(msg));
      err := BuyGas(msg);
    }

    /** Counts the transaction and makes its FSN call. An error of the call stops the transaction
        only while mining; the import of a block goes on with what the call left. */
    method CallFsn(msg: Message, env: Env, mining: bool) returns (err: Option<TxError>)
      requires ValidState(state.Abs()) && env.time > 0
      modifies this`nonces, state
      ensures nonces == if msg.creation then old(nonces) else old(nonces)[msg.from := old(GetNonce(msg.from)) + 1]
      ensures state.Abs() == AfterFsnCall(old(state.Abs()), env, msg)
      ensures err == var outcome := FsnOutcome(old(state.Abs()), env, msg);
                     if outcome == Crashed then Some(CallCrashed)
                     else if outcome.Failed? && mining then Some(CallFailed)
                     else None
    {
      hide ValidState, Step;
      if !msg.creation {
        nonces := nonces[msg.from := GetNonce(msg.from) + 1];
        if msg.fsnCall.Some? {
          var handler := new Handler(state, env);
          var outcome := handler.HandleFsnCall(msg.fsnCall.value);
          if outcome == Crashed {
            return Some(CallCrashed);
          }
          if outcome.Failed? && mining {
            return Some(CallFailed);
          }
        }
      }
      return None;
    }

    /** All that comes before the machine. */
    method Begin(msg: Message, env: Env, homestead: bool, mining: bool) returns (err: Option<TxError>)
      requires gas == 0 && env.time > 0 && ValidState(state.Abs())
      modifies this, state, gp
      ensures err == FirstError(old(state.Abs()), old(GetNonce(msg.from)), old(gp.gas), env, msg, homestead, mining)
      ensures err.None? <==> Begins(old(state.Abs()), old(GetNonce(msg.from)), old(gp.gas), env, msg, homestead, mining)
      ensures err.None? ==>
        && state.Abs() == BeforeVm(old(state.Abs()), env, msg) && gp.gas == old(gp.gas) - msg.gas
        && gas == msg.gas - IntrinsicCost(msg.data, msg.creation, homestead) && initialGas == msg.gas
        && nonces == if msg.creation then old(nonces) else old(nonces)[msg.from := old(GetNonce(msg.from)) + 1]
    {
      hide ValidState, Step, Balance, Debit, IntrinsicCost, AfterFsnCall, FsnOutcome, Fee;
      err := PreCheck(msg);
      if err.Some? {
        return;
      }
      var intrinsic := IntrinsicGas(msg.data, msg.creation, homestead);
      if intrinsic.None? {
        return Some(OutOfGas);
      }
      var enough := UseGas(intrinsic.value);
      if !enough {
        return Some(OutOfGas);
      }
      err := CallFsn(msg, env, mining);
    }

    /** Applies a message. On success the sender has paid for exactly the gas used, the miner got
        it together with the fee of the call, the gas not used is back in the pool, and the
        refund is the largest that is neither above the counter nor above half of what was used. */
    method TransitionDb(msg: Message, env: Env, vm: Vm, homestead: bool, mining: bool)
      returns (usedGas: Gas, failed: bool, err: Option<TxError>)
      requires gas == 0 && env.sender == msg.from && env.time > 0
      requires ValidState(state.Abs()) && FairVm(vm)
      modifies this, state, gp
      ensures err.None? <==>
        Accepted(old(state.Abs()), old(GetNonce(msg.from)), old(gp.gas), env, msg, vm, homestead, mining)
      ensures err.Some? ==>
        var first := FirstError(old(state.Abs()), old(GetNonce(msg.from)), old(gp.gas), env, msg, homestead, mining);
        err == if first.Some? then first else Some(VmInsufficient)
      ensures err.None? ==> Applied(old(state.Abs()), state.Abs(), env, msg, coinbase, vm, homestead, usedGas, failed)
      ensures err.None? ==> gp.gas + usedGas == old(gp.gas)
      ensures err.None? ==> nonces == old(nonces)[msg.from := old(GetNonce(msg.from)) + 1]
      ensures err.Some? ==> usedGas == 0
    {
      hide ValidState, Begins, FirstError, AfterTx, GasLeft, BeforeVm, IntrinsicCost, Applied, Accepted, Affords,
        VmRun, Balance;
      ghost var s0, nonce, pool := state.Abs(), GetNonce(msg.from), gp.gas;
      AcceptedIff(s0, nonce, pool, env, msg, vm, homestead, mining);
      usedGas, failed := 0, false;
      err := Begin(msg, env, homestead, mining);
      if err.Some? {
        return;
      }
      var r := vm(state.Abs(), gas);
      state.Replace(r.after);
      gas := r.gasLeft;
      if r.error == InsufficientBalance {
        return 0, false, Some(VmInsufficient);
      }
      if msg.creation {
        // The machine counts a creation itself, once the balance is known to suffice.
        nonces := nonces[msg.from := GetNonce(msg.from) + 1];
      }
      usedGas := Settle(msg, r.refund);
      failed := r.error != NoVmError;
      AppliedHolds(s0, state.Abs(), env, msg, coinbase, vm, homestead, usedGas, r);
    }
  }

  /** The sender can pay for the gas it asks for, and the gas covers the intrinsic price. */
  predicate Affords(s: State, msg: Message, homestead: bool) {
    && Balance(s, msg.from, SYSTEM_ASSET) >= Upfront(msg)
    && IntrinsicCost(msg.data, msg.creation, homestead) <= msg.gas
  }

  ghost function VmRun(vm: Vm, s: State, env: Env, msg: Message, homestead: bool): VmResult
    requires Affords(s, msg, homestead)
  {
    var cost := IntrinsicCost(msg.data, msg.creation, homestead);
    vm(BeforeVm(s, env, msg), msg.gas - cost)
  }

  /** A message reaches the machine: its nonce is the next one, gas can be bought from the pool and
      covers the intrinsic price, and the call does not crash, nor fail while mining. */
  ghost predicate Begins(s: State, nonce: nat, pool: int, env: Env, msg: Message, homestead: bool, mining: bool)
    ensures Begins(s, nonce, pool, env, msg, homestead, mining) ==> Affords(s, msg, homestead)
  {
    && (msg.checkNonce ==> msg.nonce == nonce)
    && Balance(s, msg.from, SYSTEM_ASSET) >= msg.gas * msg.gasPrice + Fee(msg) && pool >= msg.gas
    && IntrinsicCost(msg.data, msg.creation, homestead) <= msg.gas
    && var outcome := FsnOutcome(Debit(s, msg.from, SYSTEM_ASSET, Upfront(msg)), env, msg);
    && outcome != Crashed && !(outcome.Failed? && mining)
  }

  /** The first of the reasons for which a message does not reach the machine. */
  ghost function FirstError(s: State, nonce: nat, pool: int, env: Env, msg: Message, homestead: bool, mining: bool)
    : Option<TxError>
  {
    var outcome := FsnOutcome(Debit(s, msg.from, SYSTEM_ASSET, Upfront(msg)), env, msg);
    if msg.checkNonce && nonce < msg.nonce then Some(NonceTooHigh)
    else if msg.checkNonce && nonce > msg.nonce then Some(NonceTooLow)
    else if Balance(s, msg.from, SYSTEM_ASSET) < msg.gas * msg.gasPrice + Fee(msg) then Some(InsufficientForGas)
    else if pool < msg.gas then Some(GasLimitReached)
    else if IntrinsicCost(msg.data, msg.creation, homestead) > msg.gas then Some(OutOfGas)
    else if outcome == Crashed then Some(CallCrashed)
    else if outcome.Failed? && mining then Some(CallFailed)
    else None
  }

  /** It goes through if the machine does not lack the balance for a transfer. */
  ghost predicate Accepted(s: State, nonce: nat, pool: int, env: Env, msg: Message, vm: Vm, homestead: bool,
                           mining: bool) {
    && Begins(s, nonce, pool, env, msg, homestead, mining)
    && VmRun(vm, s, env, msg, homestead).error != InsufficientBalance
  }

  lemma AcceptedIff(s: State, nonce: nat, pool: int, env: Env, msg: Message, vm: Vm, homestead: bool, mining: bool)
    ensures Accepted(s, nonce, pool, env, msg, vm, homestead, mining) <==>
      && Begins(s, nonce, pool, env, msg, homestead, mining)
      && VmRun(vm, s, env, msg, homestead).error != InsufficientBalance
    ensures Begins(s, nonce, pool, env, msg, homestead, mining) ==>
      && Affords(s, msg, homestead)
      && VmRun(vm, s, env, msg, homestead) ==
           vm(BeforeVm(s, env, msg), msg.gas - IntrinsicCost(msg.data, msg.creation, homestead))
  {
    hide Balance, Debit, IntrinsicCost, FsnOutcome, BeforeVm, Upfront;
  }

  /** A message was applied to s and left s'. */
  ghost predicate Applied(s: State, s': State, env: Env, msg: Message, coinbase: Address, vm: Vm, homestead: bool,
                          usedGas: int, failed: bool) {
    && Affords(s, msg, homestead)
    && var r := VmRun(vm, s, env, msg, homestead);
    && var left := GasLeft(msg, r.gasLeft, r.refund);
    && s' == AfterTx(msg, coinbase, r.after, left) && usedGas == msg.gas - left
    && LargestRefund(msg.gas - r.gasLeft, r.refund, left - r.gasLeft)
    && (failed <==> r.error != NoVmError) && r.error != InsufficientBalance
  }

  lemma AppliedHolds(s: State, s': State, env: Env, msg: Message, coinbase: Address, vm: Vm, homestead: bool,
                     usedGas: int, r: VmResult)
    requires Affords(s, msg, homestead) && r == VmRun(vm, s, env, msg, homestead) && r.error != InsufficientBalance
    requires var left := GasLeft(msg, r.gasLeft, r.refund);
             && s' == AfterTx(msg, coinbase, r.after, left) && usedGas == msg.gas - left
             && LargestRefund(msg.gas - r.gasLeft, r.refund, left - r.gasLeft)
    ensures Applied(s, s', env, msg, coinbase, vm, homestead, usedGas, r.error != NoVmError)
  {
    hide VmRun, AfterTx, GasLeft, Affords;
  }

  /** Every balance after a transaction is the balance before it and what the call and the machine
      changed, except that the sender pays the miner the price of the gas used and the fee. */
  lemma TransactionPays(s: State, s': State, env: Env, msg: Message, coinbase: Address, vm: Vm, homestead: bool,
                        usedGas: int, failed: bool, who: Address, asset: Hash)
    requires Applied(s, s', env, msg, coinbase, vm, homestead, usedGas, failed)
    ensures var charged := Debit(s, msg.from, SYSTEM_ASSET, Upfront(msg));
            var changed := Balance(VmRun(vm, s, env, msg, homestead).after, who, asset) - Balance(charged, who, asset);
            var price := usedGas * msg.gasPrice + Fee(msg);
            Balance(s', who, asset) == Balance(s, who, asset) + changed
              - (if who == msg.from && asset == SYSTEM_ASSET then price else 0)
              + (if who == coinbase && asset == SYSTEM_ASSET then price else 0)
  {
    hide Credit, Balance, Fee, VmRun, Affords, GasLeft;
    var r := VmRun(vm, s, env, msg, homestead);
    var left := GasLeft(msg, r.gasLeft, r.refund);
    var refunded := Credit(r.after, msg.from, SYSTEM_ASSET, left * msg.gasPrice);
    SplitPrice(msg.gas, left, msg.gasPrice);
    ReadCredit(s, msg.from, SYSTEM_ASSET, -Upfront(msg), who, asset);
    ReadCredit(r.after, msg.from, SYSTEM_ASSET, left * msg.gasPrice, who, asset);
    ReadCredit(refunded, coinbase, SYSTEM_ASSET, usedGas * msg.gasPrice + Fee(msg), who, asset);
  }

  lemma CreditValidIf(s: State, who: Address, asset: Hash, amount: int)
    requires ValidState(s)
    ensures Balance(s, who, asset) + amount >= 0 ==> ValidState(Credit(s, who, asset, amount))
  {
    hide ValidState;
    if Balance(s, who, asset) + amount >= 0 {
      CreditValid(s, who, asset, amount);
    }
  }

  /** If the machine conserves the supply, so does the whole transaction. */
  lemma AppliedConserves(s: State, s': State, env: Env, msg: Message, coinbase: Address, vm: Vm, homestead: bool,
                         usedGas: int, failed: bool)
    requires ValidState(s) && env.time > 0 && env.txHash !in s.multiSwaps
    requires Applied(s, s', env, msg, coinbase, vm, homestead, usedGas, failed)
    requires Conserves(BeforeVm(s, env, msg), VmRun(vm, s, env, msg, homestead).after, env.time)
    ensures Conserves(s, s', if msg.fsnCall.Some? then ConservedFrom(env, msg.fsnCall.value) else env.time)
  {
    hide Supply, ValidState, Step, Conserves;
    var r := VmRun(vm, s, env, msg, homestead);
    TransactionConserves(s, env, msg, coinbase, r.after, GasLeft(msg, r.gasLeft, r.refund));
  }

  // ---------- The transactions of a block ----------

  datatype Transaction = Transaction(msg: Message, env: Env, vm: Vm)

  datatype Receipt = Receipt(cumulativeGas: int, gasUsed: int, failed: bool)

  ghost function GasOf(receipts: seq<Receipt>): int {
    if receipts == [] then 0 else GasOf(receipts[..|receipts| - 1]) + receipts[|receipts| - 1].gasUsed
  }

  /** The machine leaves well-formed ledgers well formed. */
  ghost predicate SoundVm(vm: Vm) {
    FairVm(vm) && forall s: State, g: Gas :: ValidState(s) ==> ValidState(vm(s, g).after)
  }

  ghost predicate GoodTransactions(txs: seq<Transaction>) {
    forall k :: 0 <= k < |txs| ==> SoundVm(txs[k].vm) && txs[k].env.time > 0 && txs[k].env.sender == txs[k].msg.from
  }

  lemma AppliedValid(s: State, s': State, tx: Transaction, coinbase: Address, homestead: bool, usedGas: int,
                     failed: bool)
    requires ValidState(s) && SoundVm(tx.vm) && tx.env.time > 0
    requires Applied(s, s', tx.env, tx.msg, coinbase, tx.vm, homestead, usedGas, failed)
    requires 0 <= usedGas <= tx.msg.gas
    ensures ValidState(s')
  {
    hide ValidState, Step, Supply, GasLeft;
    var msg := tx.msg;
    var s1 := Debit(s, msg.from, SYSTEM_ASSET, Upfront(msg));
    CreditValid(s, msg.from, SYSTEM_ASSET, -Upfront(msg));
    if msg.fsnCall.Some? {
      StepConserves(s1, tx.env, msg.fsnCall.value);
    }
    var r := VmRun(tx.vm, s, tx.env, msg, homestead);
    var left := GasLeft(msg, r.gasLeft, r.refund);
    assert ValidState(r.after);
    ProductNonNegative(left, msg.gasPrice);
    ProductNonNegative(usedGas, msg.gasPrice);
    var s2 := Credit(r.after, msg.from, SYSTEM_ASSET, left * msg.gasPrice);
    BalanceNonNegative(r.after, msg.from, SYSTEM_ASSET);
    CreditValid(r.after, msg.from, SYSTEM_ASSET, left * msg.gasPrice);
    BalanceNonNegative(s2, coinbase, SYSTEM_ASSET);
    CreditValid(s2, coinbase, SYSTEM_ASSET, usedGas * msg.gasPrice + Fee(msg));
  }

  lemma ProductNonNegative(m: int, n: int)
    requires m >= 0 && n >= 0
    ensures m * n >= 0
  {
  }

  /** Each receipt shows a possible amount of gas and the sum so far. */
  ghost predicate GoodReceipts(receipts: seq<Receipt>, txs: seq<Transaction>) {
    && |receipts| <= |txs|
    && (forall k :: 0 <= k < |receipts| ==> 0 <= receipts[k].gasUsed <= txs[k].msg.gas)
    && (receipts != [] ==> receipts[0].cumulativeGas == receipts[0].gasUsed)
    && (forall j, k :: 0 <= j < k < |receipts| && k == j + 1 ==>
          receipts[k].cumulativeGas == receipts[j].cumulativeGas + receipts[k].gasUsed)
  }

  ghost function LastCumulative(receipts: seq<Receipt>): int {
    if receipts == [] then 0 else receipts[|receipts| - 1].cumulativeGas
  }

  lemma AddReceipt(receipts: seq<Receipt>, txs: seq<Transaction>, r: Receipt)
    requires GoodReceipts(receipts, txs) && |receipts| < |txs|
    requires 0 <= r.gasUsed <= txs[|receipts|].msg.gas && r.cumulativeGas == LastCumulative(receipts) + r.gasUsed
    ensures GoodReceipts(receipts + [r], txs) && LastCumulative(receipts + [r]) == r.cumulativeGas
    ensures GasOf(receipts + [r]) == GasOf(receipts) + r.gasUsed
  {
    hide SoundVm;
    assert (receipts + [r])[..|receipts|] == receipts;
    NextReceipt(receipts, txs, r);
  }

  lemma NextReceipt(receipts: seq<Receipt>, txs: seq<Transaction>, r: Receipt)
    requires GoodReceipts(receipts, txs) && |receipts| < |txs|
    requires 0 <= r.gasUsed <= txs[|receipts|].msg.gas && r.cumulativeGas == LastCumulative(receipts) + r.gasUsed
    ensures GoodReceipts(receipts + [r], txs)
  {
    var all := receipts + [r];
    forall k | 0 <= k < |all| ensures 0 <= all[k].gasUsed <= txs[k].msg.gas {
      if k < |receipts| {
        assert all[k] == receipts[k];
      }
    }
    forall j, k | 0 <= j < k < |all| && k == j + 1
      ensures all[k].cumulativeGas == all[j].cumulativeGas + all[k].gasUsed
    {
      if k < |receipts| {
        assert all[k] == receipts[k] && all[j] == receipts[j];
      }
    }
  }

  /** The ledgers between the transactions: each transaction was applied to one and left the next. */
  ghost predicate Chained(states: seq<State>, txs: seq<Transaction>, receipts: seq<Receipt>, coinbase: Address,
                          homestead: bool) {
    && |states| == |receipts| + 1 && |receipts| <= |txs|
    && forall k :: 0 <= k < |receipts| ==> AppliedAt(states, txs, receipts, coinbase, homestead, k)
  }

  ghost predicate AppliedAt(states: seq<State>, txs: seq<Transaction>, receipts: seq<Receipt>, coinbase: Address,
                            homestead: bool, k: nat)
    requires k < |receipts| <= |txs| && |states| == |receipts| + 1
  {
    var tx, r := txs[k], receipts[k];
    Applied(states[k], states[k + 1], tx.env, tx.msg, coinbase, tx.vm, homestead, r.gasUsed, r.failed)
  }

  /** Each transaction was accepted on the ledger, the nonces and the pool that it found. */
  ghost predicate AllAccepted(states: seq<State>, nonces: map<Address, nat>, gasLimit: int, txs: seq<Transaction>,
                              receipts: seq<Receipt>, homestead: bool)
    requires |states| == |receipts| + 1 && |receipts| <= |txs|
  {
    forall k :: 0 <= k < |receipts| ==> AcceptedAt(states, nonces, gasLimit, txs, receipts, homestead, k)
  }

  ghost predicate AcceptedAt(states: seq<State>, nonces: map<Address, nat>, gasLimit: int, txs: seq<Transaction>,
                             receipts: seq<Receipt>, homestead: bool, k: nat)
    requires k <= |receipts| && k < |states| && k < |txs|
  {
    var tx := txs[k];
    Accepted(states[k], NonceOf(NoncesAfter(nonces, txs, k), tx.msg.from), gasLimit - GasOf(receipts[..k]), tx.env,
             tx.msg, tx.vm, homestead, false)
  }

  lemma AcceptedMore(states: seq<State>, nonces: map<Address, nat>, gasLimit: int, txs: seq<Transaction>,
                     receipts: seq<Receipt>, homestead: bool, s: State, r: Receipt)
    requires |states| == |receipts| + 1 && |receipts| < |txs|
    requires AllAccepted(states, nonces, gasLimit, txs, receipts, homestead)
    requires var tx := txs[|receipts|];
             Accepted(states[|receipts|], NonceOf(NoncesAfter(nonces, txs, |receipts|), tx.msg.from),
                      gasLimit - GasOf(receipts), tx.env, tx.msg, tx.vm, homestead, false)
    ensures AllAccepted(states + [s], nonces, gasLimit, txs, receipts + [r], homestead)
  {
    hide Accepted, GasOf, NoncesAfter;
    forall k | 0 <= k < |receipts| + 1
      ensures AcceptedAt(states + [s], nonces, gasLimit, txs, receipts + [r], homestead, k)
    {
      assert (receipts + [r])[..k] == receipts[..k] && (k == |receipts| ==> receipts[..k] == receipts);
      assert AcceptedAt(states, nonces, gasLimit, txs, receipts, homestead, k);
    }
  }

  /** The nonces after the first k transactions. */
  function NoncesAfter(nonces: map<Address, nat>, txs: seq<Transaction>, k: nat): map<Address, nat>
    requires k <= |txs|
  {
    if k == 0 then nonces
    else
      var m, who := NoncesAfter(nonces, txs, k - 1), txs[k - 1].msg.from;
      m[who := NonceOf(m, who) + 1]
  }

  lemma ChainStarts(s: State, txs: seq<Transaction>, coinbase: Address, homestead: bool)
    ensures Chained([s], txs, [], coinbase, homestead)
  {
  }

  lemma ChainGrows(states: seq<State>, txs: seq<Transaction>, receipts: seq<Receipt>, coinbase: Address,
                   homestead: bool, s: State, r: Receipt)
    requires Chained(states, txs, receipts, coinbase, homestead) && |receipts| < |txs|
    requires var tx := txs[|receipts|];
             Applied(states[|receipts|], s, tx.env, tx.msg, coinbase, tx.vm, homestead, r.gasUsed, r.failed)
    ensures Chained(states + [s], txs, receipts + [r], coinbase, homestead)
  {
    hide Applied;
    var n := |receipts|;
    forall k | 0 <= k < n + 1 ensures AppliedAt(states + [s], txs, receipts + [r], coinbase, homestead, k) {
      if k < n {
        assert AppliedAt(states, txs, receipts, coinbase, homestead, k);
      }
    }
  }

  /** The machine moves value about but neither makes nor destroys it, and opens no multi swap. */
  ghost predicate QuietVm(vm: Vm, time: Instant) {
    forall s: State, g: Gas :: Conserves(s, vm(s, g).after, time) && vm(s, g).after.multiSwaps.Keys <= s.multiSwaps.Keys
  }

  /** No transaction hash names a multi swap yet, and no two are the same. */
  ghost predicate FreshTransactions(s: State, txs: seq<Transaction>) {
    && (forall k :: 0 <= k < |txs| ==> txs[k].env.txHash !in s.multiSwaps)
    && (forall j, k :: 0 <= j < k < |txs| ==> txs[j].env.txHash != txs[k].env.txHash)
  }

  ghost function TxConservedFrom(tx: Transaction): int {
    if tx.msg.fsnCall.Some? then ConservedFrom(tx.env, tx.msg.fsnCall.value) else tx.env.time
  }

  lemma AppliedMultiIds(s: State, s': State, tx: Transaction, coinbase: Address, homestead: bool, usedGas: int,
                        failed: bool)
    requires ValidState(s) && QuietVm(tx.vm, tx.env.time)
    requires Applied(s, s', tx.env, tx.msg, coinbase, tx.vm, homestead, usedGas, failed)
    ensures s'.multiSwaps.Keys <= s.multiSwaps.Keys + {tx.env.txHash}
  {
    hide Step, Conserves, GasLeft, ValidState;
    CreditValid(s, tx.msg.from, SYSTEM_ASSET, -Upfront(tx.msg));
    if tx.msg.fsnCall.Some? {
      StepMultiIds(Debit(s, tx.msg.from, SYSTEM_ASSET, Upfront(tx.msg)), tx.env, tx.msg.fsnCall.value);
    }
  }

  /** The block up to its k-th transaction. */
  lemma {:induction false} BlockPrefix(states: seq<State>, txs: seq<Transaction>, receipts: seq<Receipt>,
                                       coinbase: Address, homestead: bool, a: Hash, t: int, k: nat)
    requires Chained(states, txs, receipts, coinbase, homestead) && GoodReceipts(receipts, txs) && k <= |receipts|
    requires ValidState(states[0]) && GoodTransactions(txs) && FreshTransactions(states[0], txs) && t <= FOREVER
    requires forall i :: 0 <= i < |txs| ==> QuietVm(txs[i].vm, txs[i].env.time) && TxConservedFrom(txs[i]) <= t
    ensures ValidState(states[k])
    ensures forall i :: k <= i < |txs| ==> txs[i].env.txHash !in states[k].multiSwaps
    ensures Supply(states[k], a, t) - Recorded(states[k], a) == Supply(states[0], a, t) - Recorded(states[0], a)
  {
    hide ValidState, Applied, SoundVm, Supply, Recorded, QuietVm, ConservedFrom;
    if k > 0 {
      var tx, r := txs[k - 1], receipts[k - 1];
      BlockPrefix(states, txs, receipts, coinbase, homestead, a, t, k - 1);
      assert AppliedAt(states, txs, receipts, coinbase, homestead, k - 1);
      AppliedValid(states[k - 1], states[k], tx, coinbase, homestead, r.gasUsed, r.failed);
      AppliedMultiIds(states[k - 1], states[k], tx, coinbase, homestead, r.gasUsed, r.failed);
      QuietRun(states[k - 1], states[k], tx, coinbase, homestead, r.gasUsed, r.failed);
      AppliedConserves(states[k - 1], states[k], tx.env, tx.msg, coinbase, tx.vm, homestead, r.gasUsed, r.failed);
      assert TxConservedFrom(tx) <= t;
    }
  }

  lemma QuietRun(s: State, s': State, tx: Transaction, coinbase: Address, homestead: bool, usedGas: int, failed: bool)
    requires Applied(s, s', tx.env, tx.msg, coinbase, tx.vm, homestead, usedGas, failed) && QuietVm(tx.vm, tx.env.time)
    ensures Affords(s, tx.msg, homestead)
    ensures Conserves(BeforeVm(s, tx.env, tx.msg), VmRun(tx.vm, s, tx.env, tx.msg, homestead).after, tx.env.time)
  {
    hide Conserves, BeforeVm;
  }

  /** Over a processed block the supply of every asset changes exactly as its recorded total, at
      every instant that none of its calls looks back to. */
  lemma BlockConserves(states: seq<State>, txs: seq<Transaction>, receipts: seq<Receipt>, coinbase: Address,
                       homestead: bool, a: Hash, t: int)
    requires Chained(states, txs, receipts, coinbase, homestead) && GoodReceipts(receipts, txs) && |receipts| == |txs|
    requires ValidState(states[0]) && GoodTransactions(txs) && FreshTransactions(states[0], txs) && t <= FOREVER
    requires forall i :: 0 <= i < |txs| ==> QuietVm(txs[i].vm, txs[i].env.time) && TxConservedFrom(txs[i]) <= t
    ensures ValidState(states[|txs|])
    ensures Supply(states[|txs|], a, t) - Recorded(states[|txs|], a) == Supply(states[0], a, t) - Recorded(states[0], a)
  {
    BlockPrefix(states, txs, receipts, coinbase, homestead, a, t, |txs|);
  }

  /** Processes the transactions of a block on a pool filled to the block's gas limit. When all
      of them go through, what is left in the pool and what was used make up the limit. */
  method Process(state: StateDB, nonces: map<Address, nat>, coinbase: Address, gasLimit: Gas, txs: seq<Transaction>,
                 homestead: bool)
    returns (receipts: seq<Receipt>, usedGas: int, poolGas: int, err: Option<TxError>,
             ghost states: seq<State>, ghost done: seq<Receipt>)
    requires ValidState(state.Abs()) && GoodTransactions(txs)
    modifies state
    ensures Chained(states, txs, done, coinbase, homestead) && states[0] == old(state.Abs())
    ensures AllAccepted(states, nonces, gasLimit, txs, done, homestead)
    ensures err.None? ==> done == receipts && |receipts| == |txs|
    ensures err.Some? ==> receipts == [] && |done| < |txs|
    ensures err.Some? ==>
      var tx := txs[|done|];
      var nonce := NonceOf(NoncesAfter(nonces, txs, |done|), tx.msg.from);
      !Accepted(states[|done|], nonce, gasLimit - GasOf(done), tx.env, tx.msg, tx.vm, homestead, false)
    ensures err.None? ==> states[|txs|] == state.Abs()
    ensures err.None? ==> poolGas + usedGas == gasLimit && poolGas >= 0
    ensures err.None? ==> GoodReceipts(receipts, txs) && usedGas == GasOf(receipts)
    ensures err.None? ==> ValidState(state.Abs())
  {
    hide ValidState, Applied, GoodReceipts, SoundVm, FairVm, GasOf, LastCumulative, Chained, Accepted, AllAccepted,
      SoFar, FirstError, NonceOf, Balance, Upfront;
    states, done := [state.Abs()], [];
    BlockStarts(state.Abs(), nonces, gasLimit, txs, coinbase, homestead);
    var gp := new GasPool();
    var ok := gp.AddGas(gasLimit);
    receipts, usedGas, poolGas, err := [], 0, gasLimit, None;
    var counts := nonces;
    for i := 0 to |txs|
      invariant ValidState(state.Abs()) && fresh(gp) && poolGas == gp.gas && gp.gas + usedGas == gasLimit
      invariant |receipts| == i && |states| == i + 1 && states[0] == old(state.Abs()) && states[i] == state.Abs()
      invariant err.None? && done == receipts && counts == NoncesAfter(nonces, txs, i)
      invariant SoFar(states, nonces, gasLimit, txs, receipts, coinbase, homestead, usedGas)
    {
      var tx := txs[i];
      var st := new StateTransition(state, gp, coinbase, counts);
      ghost var s0 := state.Abs();
      SoundIsFair(tx.vm);
      SoFarParts(states, nonces, gasLimit, txs, receipts, coinbase, homestead, usedGas);
      var gas, failed, e := st.TransitionDb(tx.msg, tx.env, tx.vm, homestead, false);
      if e.Some? {
        return [], 0, 0, e, states, done;
      }
      UsedAtMost(s0, state.Abs(), tx, coinbase, homestead, gas, failed);
      AppliedValid(s0, state.Abs(), tx, coinbase, homestead, gas, failed);
      counts := st.nonces;
      SoFarGrows(states, nonces, gasLimit, txs, receipts, coinbase, homestead, usedGas, state.Abs(), gas, failed);
      usedGas := usedGas + gas;
      poolGas := gp.gas;
      states := states + [state.Abs()];
      receipts := receipts + [Receipt(usedGas, gas, failed)];
      done := receipts;
    }
    SoFarParts(states, nonces, gasLimit, txs, receipts, coinbase, homestead, usedGas);
  }

  /** The transactions so far: their receipts add up to the gas used, each was applied to the ledger
      that the one before left, and each was accepted. */
  ghost predicate SoFar(states: seq<State>, nonces: map<Address, nat>, gasLimit: int, txs: seq<Transaction>,
                        receipts: seq<Receipt>, coinbase: Address, homestead: bool, usedGas: int) {
    && GoodReceipts(receipts, txs) && usedGas == GasOf(receipts) == LastCumulative(receipts)
    && Chained(states, txs, receipts, coinbase, homestead)
    && AllAccepted(states, nonces, gasLimit, txs, receipts, homestead)
  }

  lemma SoFarParts(states: seq<State>, nonces: map<Address, nat>, gasLimit: int, txs: seq<Transaction>,
                   receipts: seq<Receipt>, coinbase: Address, homestead: bool, usedGas: int)
    requires SoFar(states, nonces, gasLimit, txs, receipts, coinbase, homestead, usedGas)
    ensures GoodReceipts(receipts, txs) && usedGas == GasOf(receipts)
    ensures Chained(states, txs, receipts, coinbase, homestead) && |states| == |receipts| + 1 && |receipts| <= |txs|
    ensures AllAccepted(states, nonces, gasLimit, txs, receipts, homestead)
  {
    hide GoodReceipts, AllAccepted, GasOf;
  }

  lemma BlockStarts(s: State, nonces: map<Address, nat>, gasLimit: int, txs: seq<Transaction>, coinbase: Address,
                    homestead: bool)
    ensures SoFar([s], nonces, gasLimit, txs, [], coinbase, homestead, 0)
  {
    ChainStarts(s, txs, coinbase, homestead);
    NoneAccepted([s], nonces, gasLimit, txs, homestead);
    NoReceipts(txs);
  }

  lemma SoFarGrows(states: seq<State>, nonces: map<Address, nat>, gasLimit: int, txs: seq<Transaction>,
                   receipts: seq<Receipt>, coinbase: Address, homestead: bool, usedGas: int, s: State, gas: int,
                   failed: bool)
    requires SoFar(states, nonces, gasLimit, txs, receipts, coinbase, homestead, usedGas)
    requires |states| == |receipts| + 1 && |receipts| < |txs|
    requires var tx := txs[|receipts|];
             && Applied(states[|receipts|], s, tx.env, tx.msg, coinbase, tx.vm, homestead, gas, failed)
             && 0 <= gas <= tx.msg.gas
             && Accepted(states[|receipts|], NonceOf(NoncesAfter(nonces, txs, |receipts|), tx.msg.from),
                         gasLimit - usedGas, tx.env, tx.msg, tx.vm, homestead, false)
    ensures SoFar(states + [s], nonces, gasLimit, txs, receipts + [Receipt(usedGas + gas, gas, failed)], coinbase,
                  homestead, usedGas + gas)
  {
    hide Applied, Accepted, GoodReceipts, GasOf, LastCumulative, Chained, AllAccepted, NoncesAfter;
    var r := Receipt(usedGas + gas, gas, failed);
    AddReceipt(receipts, txs, r);
    ChainGrows(states, txs, receipts, coinbase, homestead, s, r);
    AcceptedMore(states, nonces, gasLimit, txs, receipts, homestead, s, r);
  }

  lemma NoneAccepted(states: seq<State>, nonces: map<Address, nat>, gasLimit: int, txs: seq<Transaction>,
                     homestead: bool)
    requires |states| == 1
    ensures AllAccepted(states, nonces, gasLimit, txs, [], homestead)
  {
  }

  lemma NoReceipts(txs: seq<Transaction>)
    ensures GoodReceipts([], txs) && GasOf([]) == 0 && LastCumulative([]) == 0
  {
  }

  lemma SoundIsFair(vm: Vm)
    requires SoundVm(vm)
    ensures FairVm(vm)
  {
  }

  lemma UsedAtMost(s: State, s': State, tx: Transaction, coinbase: Address, homestead: bool, usedGas: Gas, failed: bool)
    requires SoundVm(tx.vm) && Applied(s, s', tx.env, tx.msg, coinbase, tx.vm, homestead, usedGas, failed)
    ensures usedGas <= tx.msg.gas
  {
    hide Step, ValidState;
  }
}
