/** Records and call parameters of the FSN calls, with the checks made on the parameters.
    An absent big integer is represented by a negative one: every check treats the two alike. */
module FsnTypes {
  import opened TimeLockItems

  type Address = nat
  type Hash = nat

  const ZERO_ADDRESS: Address := 0
  const ZERO_HASH: Hash := 0
  const SYSTEM_ASSET: Hash := 0xffffffffffffffffffffffffffffffffffffffffffffffffffffffffffffffff
  const USAN_ASSET: Hash := 0xfffffffffffffffffffffffffffffffffffffffffffffffffffffffffffffffe
  const TICKET_PRICE: int := 5000 * 1000000000000000000
  const TICKET_MIN_LIFETIME: int := 30 * 24 * 3600
  const UINT64_MODULUS: int := 0x1_0000_0000_0000_0000

  // ---------- Records ----------

  datatype Asset = Asset(id: Hash, owner: Address, name: string, symbol: string, decimals: nat,
                         total: int, canChange: bool, description: string)

  datatype Ticket = Ticket(owner: Address, id: Hash, height: nat, start: Instant, expire: Instant)

  datatype Swap = Swap(id: Hash, owner: Address,
                       fromAsset: Hash, fromStart: Instant, fromEnd: Instant, minFrom: int,
                       toAsset: Hash, toStart: Instant, toEnd: Instant, minTo: int,
                       size: int, targets: seq<Address>, time: int, description: string, notation: nat)

  datatype MultiSwap = MultiSwap(id: Hash, owner: Address,
                                 fromAsset: seq<Hash>, fromStart: seq<Instant>, fromEnd: seq<Instant>,
                                 minFrom: seq<int>,
                                 toAsset: seq<Hash>, toStart: seq<Instant>, toEnd: seq<Instant>, minTo: seq<int>,
                                 size: int, targets: seq<Address>, time: int, description: string, notation: nat)

  /** One side of a swap: an amount of an asset during an interval. */
  datatype Leg = Leg(asset: Hash, start: Instant, end: Instant, total: int)

  /** A leg over all of time is settled in the plain balance. */
  predicate UsesAsset(leg: Leg) {
    leg.start == 0 && leg.end == FOREVER
  }

  /** The interval a leg still asks for at the given time. */
  function Need(leg: Leg, time: Instant): Item {
    Item(MaxInstant(leg.start, time), leg.end, Magnitude(leg.total))
  }

  function Lifelong(time: Instant, value: int): Item {
    Item(time, FOREVER, Magnitude(value))
  }

  function FromLeg(swap: Swap, size: int): Leg {
    Leg(swap.fromAsset, swap.fromStart, swap.fromEnd, swap.minFrom * size)
  }

  function ToLeg(swap: Swap, size: int): Leg {
    Leg(swap.toAsset, swap.toStart, swap.toEnd, swap.minTo * size)
  }

  function Legs(asset: seq<Hash>, start: seq<Instant>, end: seq<Instant>, min: seq<int>, size: int): (r: seq<Leg>)
    requires |asset| == |start| == |end| == |min|
    ensures |r| == |asset|
    ensures forall k :: 0 <= k < |asset| ==> r[k] == Leg(asset[k], start[k], end[k], min[k] * size)
  {
    seq(|asset|, k requires 0 <= k < |asset| => Leg(asset[k], start[k], end[k], min[k] * size))
  }

  predicate SameLengths(swap: MultiSwap) {
    && |swap.fromAsset| == |swap.fromStart| == |swap.fromEnd| == |swap.minFrom|
    && |swap.toAsset| == |swap.toStart| == |swap.toEnd| == |swap.minTo|
  }

  function FromLegs(swap: MultiSwap, size: int): seq<Leg>
    requires SameLengths(swap)
  {
    Legs(swap.fromAsset, swap.fromStart, swap.fromEnd, swap.minFrom, size)
  }

  function ToLegs(swap: MultiSwap, size: int): seq<Leg>
    requires SameLengths(swap)
  {
    Legs(swap.toAsset, swap.toStart, swap.toEnd, swap.minTo, size)
  }

  // ---------- Parameters and their checks ----------

  datatype GenAssetParam = GenAssetParam(name: string, symbol: string, decimals: nat, total: int,
                                         canChange: bool, description: string)

  predicate CheckGenAsset(p: GenAssetParam) {
    && |p.name| != 0 && |p.symbol| != 0 && p.total >= 0
    && p.decimals <= 18 && |p.description| <= 1024 && |p.name| <= 128 && |p.symbol| <= 64
  }

  datatype SendAssetParam = SendAssetParam(asset: Hash, to: Address, value: int)

  predicate CheckSendAsset(p: SendAssetParam) {
    p.value > 0 && p.to != ZERO_ADDRESS && p.asset != ZERO_HASH
  }

  datatype TimeLockKind = AssetToTimeLock | TimeLockToTimeLock | TimeLockToAsset | OtherKind

  datatype TimeLockParam = TimeLockParam(kind: TimeLockKind, asset: Hash, to: Address,
                                         start: Instant, end: Instant, value: int)

  predicate CheckTimeLock(p: TimeLockParam, time: Instant) {
    p.value > 0 && p.start <= p.end && p.end >= time
  }

  datatype BuyTicketParam = BuyTicketParam(start: Instant, end: Instant)

  /** The lifetime check adds in 64 bits, so it can wrap around. */
  predicate CheckBuyTicket(p: BuyTicketParam) {
    p.end > p.start && p.end >= (p.start + TICKET_MIN_LIFETIME) % UINT64_MODULUS
  }

  datatype ValueChangeParam = ValueChangeParam(asset: Hash, to: Address, value: int, isInc: bool, data: string)

  predicate CheckValueChange(p: ValueChangeParam) {
    p.value > 0 && |p.data| <= 256
  }

  datatype MakeSwapParam = MakeSwapParam(fromAsset: Hash, fromStart: Instant, fromEnd: Instant, minFrom: int,
                                         toAsset: Hash, toStart: Instant, toEnd: Instant, minTo: int,
                                         size: int, targets: seq<Address>, time: int, description: string)

  predicate CheckMakeSwap(p: MakeSwapParam, time: Instant) {
    && p.minFrom > 0 && p.minTo > 0 && p.size > 0 && |p.description| <= 1024
    && p.minFrom * p.size > 0 && p.minTo * p.size > 0
    && p.fromStart <= p.fromEnd && p.toStart <= p.toEnd
    && p.fromEnd > time && p.toEnd > time
  }

  predicate CheckTakeSwap(size: int, swap: Swap, time: Instant) {
    0 < size <= swap.size && swap.fromEnd > time && swap.toEnd > time
  }

  datatype MakeMultiSwapParam =
    MakeMultiSwapParam(fromAsset: seq<Hash>, fromStart: seq<Instant>, fromEnd: seq<Instant>, minFrom: seq<int>,
                       toAsset: seq<Hash>, toStart: seq<Instant>, toEnd: seq<Instant>, minTo: seq<int>,
                       size: int, targets: seq<Address>, time: int, description: string)

  predicate CheckLegs(start: seq<Instant>, end: seq<Instant>, min: seq<int>, size: int, time: Instant)
    requires |start| == |end| == |min|
  {
    forall k :: 0 <= k < |min| ==> min[k] > 0 && min[k] * size > 0 && start[k] <= end[k] && end[k] > time
  }

  predicate CheckMakeMultiSwap(p: MakeMultiSwapParam, time: Instant) {
    && |p.minFrom| != 0 && |p.minTo| != 0 && p.size > 0
    && |p.minFrom| == |p.fromEnd| == |p.fromAsset| == |p.fromStart|
    && |p.minTo| == |p.toEnd| == |p.toAsset| == |p.toStart|
    && CheckLegs(p.fromStart, p.fromEnd, p.minFrom, p.size, time)
    && CheckLegs(p.toStart, p.toEnd, p.minTo, p.size, time)
    && |p.description| <= 1024
  }

  predicate CheckTakeMultiSwap(size: int, swap: MultiSwap, time: Instant) {
    && 0 < size <= swap.size
    && (forall k :: 0 <= k < |swap.fromEnd| ==> swap.fromEnd[k] > time)
    && (forall k :: 0 <= k < |swap.toEnd| ==> swap.toEnd[k] > time)
  }

  // ---------- Calls ----------

  datatype Call =
    | GenAssetCall(genAsset: GenAssetParam)
    | SendAssetCall(sendAsset: SendAssetParam)
    | TimeLockCall(timeLock: TimeLockParam)
    | BuyTicketCall(buyTicket: BuyTicketParam)
    | ValueChangeCall(valueChange: ValueChangeParam)
    | MakeSwapCall(makeSwap: MakeSwapParam, makeExt: bool)
    | RecallSwapCall(recall: Hash)
    | TakeSwapCall(take: Hash, takeSize: int, takeExt: bool)
    | MakeMultiSwapCall(makeMulti: MakeMultiSwapParam)
    | RecallMultiSwapCall(recallMulti: Hash)
    | TakeMultiSwapCall(takeMulti: Hash, takeMultiSize: int)
    | GenNotationCall
    | UnsupportedCall

  /** What a call learns from its transaction and block: the sender, the hash of the transaction,
      the time of the parent block, the wall clock, the height and the ticket id, which the
      program derives from the sender and the hash of the previous block. */
  datatype Env = Env(sender: Address, txHash: Hash, time: Instant, now: Instant, height: nat, ticketId: Hash)

  datatype Error =
    | BadParameter | NotEnough | NotFound | AlreadyExists | NotOwner | FixedSupply | DecrementElsewhere
    | UsanSwap | NoNotation | HasNotation | StartsLater | Unsupported

  /** How a call ended: done, with an error that the import of a block swallows, or in a crash. */
  datatype Outcome = Done | Failed(error: Error) | Crashed
}
