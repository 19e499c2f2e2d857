/** What each FSN call does to the ledger: the state it leaves and how it ends. Errors that the
    import of a block swallows leave whatever was already written. */
module LedgerCalls {
  import opened TimeLockItems
  import opened TimeLockAlgebra
  import opened TimeLockOps
  import opened FsnTypes
  import opened LedgerState

  type Result = (State, Outcome)

  // ---------- Paying and receiving one leg ----------

  /** Credits a leg: in the balance, or as a time lock if the interval is not over. */
  ghost function Receive(s: State, who: Address, leg: Leg, time: Instant): State {
    if UsesAsset(leg) then Credit(s, who, leg.asset, leg.total)
    else if ValidItem(Need(leg, time)) then AddLock(s, who, leg.asset, [Need(leg, time)], time)
    else s
  }

  /** Turns a plain balance into a time lock over the whole future. */
  ghost function Convert(s: State, who: Address, asset: Hash, amount: int, time: Instant): State {
    AddLock(Debit(s, who, asset, amount), who, asset, [Lifelong(time, amount)], time)
  }

  /** The state in which a leg can be taken out, or None if it cannot be afforded: enough balance
      for a plain leg; for a time-locked one enough time lock, made from the balance if allowed. */
  ghost function Prepare(s: State, who: Address, leg: Leg, time: Instant, convert: bool): Option<State> {
    if UsesAsset(leg) then
      if Balance(s, who, leg.asset) < leg.total then None else Some(s)
    else if !ValidItem(Need(leg, time)) || Enough(Lock(s, who, leg.asset), Need(leg, time)) then Some(s)
    else if !convert || Balance(s, who, leg.asset) < leg.total then None
    else Some(Convert(s, who, leg.asset, leg.total, time))
  }

  ghost function TakeOut(s: State, who: Address, leg: Leg, time: Instant): State {
    if UsesAsset(leg) then Debit(s, who, leg.asset, leg.total)
    else if ValidItem(Need(leg, time)) then SubLock(s, who, leg.asset, Need(leg, time), time)
    else s
  }

  ghost function Pay(s: State, who: Address, leg: Leg, time: Instant, convert: bool): Option<State> {
    match Prepare(s, who, leg, time, convert)
    case None => None
    case Some(s') => Some(TakeOut(s', who, leg, time))
  }

  /** Paying several legs in turn, all or nothing. */
  ghost function PayAll(s: State, who: Address, legs: seq<Leg>, time: Instant): Option<State> {
    if legs == [] then Some(s)
    else
      match PayAll(s, who, legs[..|legs| - 1], time)
      case None => None
      case Some(s') => Pay(s', who, legs[|legs| - 1], time, true)
  }

  ghost function ReceiveAll(s: State, who: Address, legs: seq<Leg>, time: Instant): State {
    if legs == [] then s
    else Receive(ReceiveAll(s, who, legs[..|legs| - 1], time), who, legs[|legs| - 1], time)
  }

  // ---------- Assets ----------

  function NewAsset(p: GenAssetParam, env: Env): Asset {
    Asset(env.txHash, env.sender, p.name, p.symbol, p.decimals, p.total, p.canChange, p.description)
  }

  function GenAsset(s: State, env: Env, p: GenAssetParam): Result {
    if !CheckGenAsset(p) then (s, Failed(BadParameter))
    else if env.txHash in s.assets then (s, Failed(AlreadyExists))
    else (Credit(s.(assets := s.assets[env.txHash := NewAsset(p, env)]), env.sender, env.txHash, p.total), Done)
  }

  function SendAsset(s: State, env: Env, p: SendAssetParam): Result {
    if !CheckSendAsset(p) then (s, Failed(BadParameter))
    else if Balance(s, env.sender, p.asset) < p.value then (s, Failed(NotEnough))
    else (Credit(Debit(s, env.sender, p.asset, p.value), p.to, p.asset, p.value), Done)
  }

  function ValueChange(s: State, env: Env, p: ValueChangeParam): Result {
    if !CheckValueChange(p) then (s, Failed(BadParameter))
    else if p.asset !in s.assets then (s, Failed(NotFound))
    else
      var asset := s.assets[p.asset];
      if !asset.canChange then (s, Failed(FixedSupply))
      else if asset.owner != env.sender then (s, Failed(NotOwner))
      else if asset.owner != p.to && !p.isInc then (s, Failed(DecrementElsewhere))
      else if !p.isInc && Balance(s, p.to, p.asset) < p.value then (s, Failed(NotEnough))
      else
        var amount := if p.isInc then p.value else -p.value;
        var s' := Credit(s, p.to, p.asset, amount);
        (s'.(assets := s'.assets[asset.id := asset.(total := asset.total + amount)]), Done)
  }

  // ---------- Time locks and tickets ----------

  ghost function LockFromAsset(s: State, env: Env, p: TimeLockParam, need: Item): Result {
    if Balance(s, env.sender, p.asset) < p.value then (s, Failed(NotEnough))
    else
      var s1 := Debit(s, env.sender, p.asset, p.value);
      var whole := Lifelong(env.time, p.value);
      if env.sender == p.to then (AddLock(s1, p.to, p.asset, [whole], env.time), Done)
      else
        var s2 := AddLock(s1, env.sender, p.asset, Minus([whole], need), env.time);
        (AddLock(s2, p.to, p.asset, [need], env.time), Done)
  }

  /** Turning a time lock into a balance always takes it until the end of time. */
  function AdjustedTimeLock(p: TimeLockParam): TimeLockParam {
    if p.kind.TimeLockToAsset? then p.(end := FOREVER) else p
  }

  ghost function TimeLockStep(s: State, env: Env, q: TimeLockParam): Result {
    var p := AdjustedTimeLock(q);
    if q.kind.TimeLockToAsset? && q.start > env.now then (s, Failed(StartsLater))
    else if !CheckTimeLock(p, env.time) then (s, Failed(BadParameter))
    else
      var need := Need(Leg(p.asset, p.start, p.end, p.value), env.time);
      if !ValidItem(need) then (s, Failed(BadParameter))
      else
        match p.kind
        case AssetToTimeLock => LockFromAsset(s, env, p, need)
        case TimeLockToTimeLock =>
          if !Enough(Lock(s, env.sender, p.asset), need) then (s, Failed(NotEnough))
          else (AddLock(SubLock(s, env.sender, p.asset, need, env.time), p.to, p.asset, [need], env.time), Done)
        case TimeLockToAsset =>
          if !Enough(Lock(s, env.sender, p.asset), need) then (s, Failed(NotEnough))
          else (Credit(SubLock(s, env.sender, p.asset, need, env.time), p.to, p.asset, p.value), Done)
        case OtherKind => (s, Failed(Unsupported))
  }

  ghost function BuyTicket(s: State, env: Env, p: BuyTicketParam): Result {
    var need := Item(MaxInstant(p.start, env.time), p.end, TICKET_PRICE);
    var ticket := Ticket(env.sender, env.ticketId, env.height, p.start, p.end);
    if env.ticketId in s.tickets then (s, Failed(AlreadyExists))
    else if !CheckBuyTicket(p) || !ValidItem(need) then (s, Failed(BadParameter))
    else if Enough(Lock(s, env.sender, SYSTEM_ASSET), need) then
      var s1 := SubLock(s, env.sender, SYSTEM_ASSET, need, env.time);
      (s1.(tickets := s1.tickets[ticket.id := ticket]), Done)
    else if Balance(s, env.sender, SYSTEM_ASSET) < TICKET_PRICE then (s, Failed(NotEnough))
    else
      var s1 := Debit(s, env.sender, SYSTEM_ASSET, TICKET_PRICE);
      var s2 := AddLock(s1, env.sender, SYSTEM_ASSET, Minus([Lifelong(env.time, TICKET_PRICE)], need), env.time);
      (s2.(tickets := s2.tickets[ticket.id := ticket]), Done)
  }

  // ---------- Short account numbers ----------

  /** Issues the next short account number to an account that has none. */
  function GenNotation(s: State, env: Env): Result {
    if NotationOf(s, env.sender) != 0 then (s, Failed(HasNotation))
    else
      var count := s.notationCount + 1;
      (s.(notationCount := count, notationOwners := s.notationOwners[Display(count) := env.sender],
          notations := s.notations[env.sender := Display(count)]), Done)
  }

  // ---------- Swaps of one asset for another ----------

  /** Moves a short account number; both accounts may be the same, which then loses it. */
  function TransferNotation(s: State, notation: nat, from: Address, to: Address): Option<State> {
    if notation !in s.notationOwners || s.notationOwners[notation] != from then None
    else
      var had := NotationOf(s, to);
      var owners := if had == 0 then s.notationOwners else s.notationOwners[had := ZERO_ADDRESS];
      Some(s.(notationOwners := owners[notation := to], notations := s.notations[to := notation][from := 0]))
  }

  /** A swap of a short account number is always one number, whatever was asked. */
  function AdjustedSwap(p: MakeSwapParam): MakeSwapParam {
    if p.fromAsset == USAN_ASSET then p.(minFrom := 1, size := 1, fromStart := 0, fromEnd := FOREVER) else p
  }

  function NewSwap(s: State, env: Env, p: MakeSwapParam): Swap {
    Swap(env.txHash, env.sender, p.fromAsset, p.fromStart, p.fromEnd, p.minFrom,
         p.toAsset, p.toStart, p.toEnd, p.minTo, p.size, p.targets, p.time, p.description, NotationOf(s, env.sender))
  }

  ghost function MakeSwap(s: State, env: Env, q: MakeSwapParam, ext: bool): Result {
    if env.txHash in s.swaps then (s, Failed(AlreadyExists))
    else if !CheckMakeSwap(q, env.time) then (s, Failed(BadParameter))
    else if q.toAsset == USAN_ASSET then (s, Failed(UsanSwap))
    else if q.toAsset !in s.assets then (s, Failed(NotFound))
    else
      var p := AdjustedSwap(q);
      var swap := NewSwap(s, env, p);
      if p.fromAsset == USAN_ASSET then
        if NotationOf(s, env.sender) == 0 then (s, Failed(NoNotation))
        else (s.(swaps := s.swaps[swap.id := swap]), Done)
      else
        match Pay(s, env.sender, FromLeg(swap, swap.size), env.time, ext)
        case None => (s, Failed(NotEnough))
        case Some(s') => (s'.(swaps := s'.swaps[swap.id := swap]), Done)
  }

  ghost function RecallSwap(s: State, env: Env, id: Hash): Result {
    if id !in s.swaps then (s, Failed(NotFound))
    else
      var swap := s.swaps[id];
      if swap.owner != env.sender then (s, Failed(NotOwner))
      else
        var s' := s.(swaps := s.swaps - {swap.id});
        if swap.fromAsset == USAN_ASSET then (s', Done)
        else (Receive(s', env.sender, FromLeg(swap, swap.size), env.time), Done)
  }

  function ShrinkSwap(s: State, swap: Swap, size: int): State {
    if swap.size == size then s.(swaps := s.swaps - {swap.id})
    else s.(swaps := s.swaps[swap.id := swap.(size := swap.size - size)])
  }

  /** The taker pays the owner and gets its share of the escrow. */
  ghost function TakeSwap(s: State, env: Env, id: Hash, size: int, ext: bool): Result {
    if id !in s.swaps then (s, Failed(NotFound))
    else
      var swap := s.swaps[id];
      var usan := swap.fromAsset == USAN_ASSET;
      if !CheckTakeSwap(size, swap, env.time) then (s, Failed(BadParameter))
      else if usan && (NotationOf(s, swap.owner) == 0 || NotationOf(s, swap.owner) != swap.notation) then
        (s, Failed(NoNotation))
      else
        var price := ToLeg(swap, size);
        match Prepare(s, env.sender, price, env.time, ext)
        case None => (s, Failed(NotEnough))
        case Some(s1) =>
          var s2 := Receive(ShrinkSwap(s1, swap, size), swap.owner, price, env.time);
          var s3 := TakeOut(s2, env.sender, price, env.time);
          if usan then
            match TransferNotation(s3, swap.notation, swap.owner, env.sender)
            case None => (s3, Failed(NoNotation))
            case Some(s4) => (s4, Done)
          else (Receive(s3, env.sender, FromLeg(swap, size), env.time), Done)
  }

  // ---------- Swaps of several assets at once ----------

  function NewMultiSwap(s: State, env: Env, p: MakeMultiSwapParam): MultiSwap {
    MultiSwap(env.txHash, env.sender, p.fromAsset, p.fromStart, p.fromEnd, p.minFrom,
              p.toAsset, p.toStart, p.toEnd, p.minTo, p.size, p.targets, p.time, p.description,
              NotationOf(s, env.sender))
  }

  /** The first objection to the assets asked for. */
  function ToAssetsError(s: State, assets: seq<Hash>): Option<Error> {
    if assets == [] then None
    else if assets[0] == USAN_ASSET then Some(UsanSwap)
    else if assets[0] !in s.assets then Some(NotFound)
    else ToAssetsError(s, assets[1..])
  }

  /** The guard looks at the single swaps, so the identifier may already name a multi swap. */
  ghost function MakeMultiSwap(s: State, env: Env, p: MakeMultiSwapParam): Result {
    if env.txHash in s.swaps then (s, Failed(AlreadyExists))
    else if !CheckMakeMultiSwap(p, env.time) then (s, Failed(BadParameter))
    else if ToAssetsError(s, p.toAsset).Some? then (s, Failed(ToAssetsError(s, p.toAsset).value))
    else if USAN_ASSET in p.fromAsset then (s, Failed(UsanSwap))
    else
      var swap := NewMultiSwap(s, env, p);
      match PayAll(s, env.sender, FromLegs(swap, swap.size), env.time)
      case None => (s, Failed(NotEnough))
      case Some(s') =>
        if swap.id in s.multiSwaps then (s', Failed(AlreadyExists))
        else (s'.(multiSwaps := s'.multiSwaps[swap.id := swap]), Done)
  }

  ghost function RecallMultiSwap(s: State, env: Env, id: Hash): Result {
    if id !in s.multiSwaps then (s, Failed(NotFound))
    else
      var swap := s.multiSwaps[id];
      if swap.owner != env.sender then (s, Failed(NotOwner))
      else if !SameLengths(swap) then (s, Crashed)
      else
        var s' := s.(multiSwaps := s.multiSwaps - {swap.id});
        (ReceiveAll(s', env.sender, FromLegs(swap, swap.size), env.time), Done)
  }

  function ShrinkMultiSwap(s: State, swap: MultiSwap, size: int): State {
    if swap.size == size then s.(multiSwaps := s.multiSwaps - {swap.id})
    else s.(multiSwaps := s.multiSwaps[swap.id := swap.(size := swap.size - size)])
  }

  type Table = seq<Option<Item>>

  /** The intervals to be paid are written into a table, each time-locked leg at its own index.
      None is a write out of range. */
  function FillTable(legs: seq<Leg>, slots: nat, time: Instant): Option<Table> {
    if legs == [] then Some(seq(slots, _ => None))
    else
      var k := |legs| - 1;
      match FillTable(legs[..k], slots, time)
      case None => None
      case Some(table) =>
        if UsesAsset(legs[k]) then Some(table)
        else if k < |table| then Some(table[k := Some(Need(legs[k], time))])
        else None
  }

  ghost function TakeMultiSwap(s: State, env: Env, id: Hash, size: int): Result {
    if id !in s.multiSwaps then (s, Failed(NotFound))
    else
      var swap := s.multiSwaps[id];
      if !CheckTakeMultiSwap(size, swap, env.time) then (s, Failed(BadParameter))
      else if !SameLengths(swap) then (s, Crashed)
      // the table for the prices is made with one slot per asset offered
      else if FillTable(ToLegs(swap, size), |swap.fromAsset|, env.time).None? then (s, Crashed)
      else
        match PayAll(s, env.sender, ToLegs(swap, size), env.time)
        case None => (s, Failed(NotEnough))
        case Some(s1) =>
          var s2 := ReceiveAll(ShrinkMultiSwap(s1, swap, size), swap.owner, ToLegs(swap, size), env.time);
          (ReceiveAll(s2, env.sender, FromLegs(swap, size), env.time), Done)
  }

  // ---------- Every call ----------

  ghost function Step(s: State, env: Env, call: Call): Result {
    match call
    case GenAssetCall(p) => GenAsset(s, env, p)
    case SendAssetCall(p) => SendAsset(s, env, p)
    case TimeLockCall(p) => TimeLockStep(s, env, p)
    case BuyTicketCall(p) => BuyTicket(s, env, p)
    case ValueChangeCall(p) => ValueChange(s, env, p)
    case MakeSwapCall(p, ext) => MakeSwap(s, env, p, ext)
    case RecallSwapCall(id) => RecallSwap(s, env, id)
    case TakeSwapCall(id, size, ext) => TakeSwap(s, env, id, size, ext)
    case MakeMultiSwapCall(p) => MakeMultiSwap(s, env, p)
    case RecallMultiSwapCall(id) => RecallMultiSwap(s, env, id)
    case TakeMultiSwapCall(id, size) => TakeMultiSwap(s, env, id, size)
    case GenNotationCall => GenNotation(s, env)
    case UnsupportedCall => (s, Failed(Unsupported))
  }
}
