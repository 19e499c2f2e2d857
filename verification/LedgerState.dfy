/** The ledger as a value: plain balances, time-lock balances, assets, open swaps and tickets.
    `Supply(s, a, t)` is everything the ledger holds of asset a that is available at instant t:
    balances, time locks, what open swaps hold in escrow, and what tickets hold. */
module LedgerState {
  import opened TimeLockItems
  import opened TimeLockAlgebra
  import opened TimeLockOps
  import opened FsnTypes
  import opened Sums

  datatype State = State(balances: map<(Address, Hash), int>, locks: map<(Address, Hash), seq<Item>>,
                         assets: map<Hash, Asset>, swaps: map<Hash, Swap>, multiSwaps: map<Hash, MultiSwap>,
                         tickets: map<Hash, Ticket>,
                         notations: map<Address, nat>, notationOwners: map<nat, Address>, notationCount: nat)

  // ---------- Reading and writing ----------

  function Balance(s: State, who: Address, asset: Hash): int {
    if (who, asset) in s.balances then s.balances[(who, asset)] else 0
  }

  function Lock(s: State, who: Address, asset: Hash): seq<Item> {
    if (who, asset) in s.locks then s.locks[(who, asset)] else []
  }

  function Credit(s: State, who: Address, asset: Hash, amount: int): State {
    s.(balances := s.balances[(who, asset) := Balance(s, who, asset) + amount])
  }

  function Debit(s: State, who: Address, asset: Hash, amount: int): State {
    Credit(s, who, asset, -amount)
  }

  ghost function AddLock(s: State, who: Address, asset: Hash, amount: seq<Item>, time: Instant): State {
    if amount == [] then s
    else s.(locks := s.locks[(who, asset) := Unexpired(Plus(Lock(s, who, asset), amount), time)])
  }

  ghost function SubLock(s: State, who: Address, asset: Hash, amount: Item, time: Instant): State {
    s.(locks := s.locks[(who, asset) := Unexpired(Minus(Lock(s, who, asset), amount), time)])
  }

  lemma ReadCredit(s: State, who: Address, asset: Hash, amount: int, other: Address, a: Hash)
    ensures Balance(Credit(s, who, asset, amount), other, a) ==
      Balance(s, other, a) + if (other, a) == (who, asset) then amount else 0
    ensures Lock(Credit(s, who, asset, amount), other, a) == Lock(s, other, a)
  {
    if (other, a) == (who, asset) {
    } else {
    }
  }

  lemma ReadLockUpdate(s: State, who: Address, asset: Hash, lock: seq<Item>, other: Address, a: Hash)
    ensures var s' := s.(locks := s.locks[(who, asset) := lock]);
            && Balance(s', other, a) == Balance(s, other, a)
            && Lock(s', other, a) == if (other, a) == (who, asset) then lock else Lock(s, other, a)
  {
  }

  lemma ReadAddLock(s: State, who: Address, asset: Hash, amount: seq<Item>, time: Instant, other: Address, a: Hash)
    ensures Balance(AddLock(s, who, asset, amount, time), other, a) == Balance(s, other, a)
    ensures Lock(AddLock(s, who, asset, amount, time), other, a) ==
      if (other, a) == (who, asset) && amount != []
      then Unexpired(Plus(Lock(s, who, asset), amount), time)
      else Lock(s, other, a)
  {
    hide Unexpired, Plus, Balance, Lock;
    if amount != [] {
      ReadLockUpdate(s, who, asset, Unexpired(Plus(Lock(s, who, asset), amount), time), other, a);
    }
  }

  lemma ReadSubLock(s: State, who: Address, asset: Hash, z: Item, time: Instant, other: Address, a: Hash)
    ensures Balance(SubLock(s, who, asset, z, time), other, a) == Balance(s, other, a)
    ensures Lock(SubLock(s, who, asset, z, time), other, a) ==
      if (other, a) == (who, asset) then Unexpired(Minus(Lock(s, who, asset), z), time) else Lock(s, other, a)
  {
    hide Unexpired, Minus, Balance, Lock;
    ReadLockUpdate(s, who, asset, Unexpired(Minus(Lock(s, who, asset), z), time), other, a);
  }

  // ---------- Short account numbers ----------

  function NotationOf(s: State, who: Address): nat {
    if who in s.notations then s.notations[who] else 0
  }

  /** The two last digits of the n-th short account number. */
  function CheckDigits(n: nat): (d: nat)
    ensures d < 100
  {
    ((((n % UINT64_MODULUS) as bv64) ^ 8192) ^ 13) as nat % 100
  }

  /** The n-th short account number, as it is shown and stored. */
  function Display(n: nat): nat {
    if n == 0 then 0 else n * 100 + CheckDigits(n)
  }

  lemma DisplayInjective(m: nat, n: nat)
    ensures Display(m) == Display(n) ==> m == n
    ensures n > 0 ==> Display(n) > 0
  {
    hide CheckDigits;
  }

  /** The first numbers. */
  lemma FirstNumbers()
    ensures Display(0) == 0 && Display(1) == 104 && Display(2) == 207
  {
  }

  /** The number of an account is looked up to that account, and only issued numbers are. */
  ghost predicate GoodNotations(notations: map<Address, nat>, owners: map<nat, Address>, count: nat) {
    && (forall w :: w in notations && notations[w] != 0 ==> notations[w] in owners && owners[notations[w]] == w)
    && (forall n :: n in owners ==> Issued(n, count))
  }

  ghost predicate Issued(n: nat, count: nat) {
    exists k: nat :: 1 <= k <= count && n == Display(k)
  }

  // ---------- Well-formed ledgers ----------

  predicate GoodSwap(swap: Swap) {
    swap.minFrom > 0 && swap.minTo > 0 && swap.size > 0 && swap.fromStart <= swap.fromEnd && swap.toStart <= swap.toEnd
  }

  predicate GoodLegs(start: seq<Instant>, end: seq<Instant>, min: seq<int>)
    requires |start| == |end| == |min|
  {
    forall k :: 0 <= k < |min| ==> min[k] > 0 && start[k] <= end[k]
  }

  predicate GoodMultiSwap(swap: MultiSwap) {
    && SameLengths(swap) && swap.size > 0
    && GoodLegs(swap.fromStart, swap.fromEnd, swap.minFrom) && GoodLegs(swap.toStart, swap.toEnd, swap.minTo)
  }

  ghost predicate ValidState(s: State) {
    && (forall k :: k in s.balances ==> s.balances[k] >= 0)
    && (forall k :: k in s.locks ==> Normal(s.locks[k]))
    && (forall id :: id in s.assets ==> s.assets[id].id == id)
    && (forall id :: id in s.swaps ==> s.swaps[id].id == id && GoodSwap(s.swaps[id]))
    && (forall id :: id in s.multiSwaps ==> s.multiSwaps[id].id == id && GoodMultiSwap(s.multiSwaps[id]))
    && GoodNotations(s.notations, s.notationOwners, s.notationCount)
  }

  lemma NormalLock(s: State, who: Address, asset: Hash)
    requires ValidState(s)
    ensures Normal(Lock(s, who, asset))
  {
  }

  // ---------- Supply ----------

  ghost function BalanceOf(a: Hash): ((Address, Hash), int) -> int {
    (k: (Address, Hash), v: int) => if k.1 == a then v else 0
  }

  ghost function LockOf(a: Hash, t: int): ((Address, Hash), seq<Item>) -> int {
    (k: (Address, Hash), v: seq<Item>) => if k.1 == a then Val(v, t) else 0
  }

  /** What a leg is worth at t. A leg settled in the plain balance spans every instant, so the
      same definition serves both kinds. */
  ghost function LegVal(leg: Leg, a: Hash, t: int): int {
    if leg.asset == a && leg.start <= t <= leg.end then leg.total else 0
  }

  ghost function LegsVal(legs: seq<Leg>, a: Hash, t: int): int {
    if legs == [] then 0 else LegsVal(legs[..|legs| - 1], a, t) + LegVal(legs[|legs| - 1], a, t)
  }

  /** A swap of a short account number holds no asset. */
  ghost function Escrow(swap: Swap, a: Hash, t: int): int {
    if swap.fromAsset == USAN_ASSET then 0 else LegVal(FromLeg(swap, swap.size), a, t)
  }

  ghost function EscrowOf(a: Hash, t: int): (Hash, Swap) -> int {
    (id: Hash, swap: Swap) => Escrow(swap, a, t)
  }

  ghost function MultiEscrow(swap: MultiSwap, a: Hash, t: int): int {
    if SameLengths(swap) then LegsVal(FromLegs(swap, swap.size), a, t) else 0
  }

  ghost function MultiEscrowOf(a: Hash, t: int): (Hash, MultiSwap) -> int {
    (id: Hash, swap: MultiSwap) => MultiEscrow(swap, a, t)
  }

  ghost function TicketVal(ticket: Ticket, a: Hash, t: int): int {
    if a == SYSTEM_ASSET && ticket.start <= t <= ticket.expire then TICKET_PRICE else 0
  }

  ghost function TicketOf(a: Hash, t: int): (Hash, Ticket) -> int {
    (id: Hash, ticket: Ticket) => TicketVal(ticket, a, t)
  }

  ghost function Supply(s: State, a: Hash, t: int): int {
    SumOver(s.balances, BalanceOf(a)) + SumOver(s.locks, LockOf(a, t))
    + SumOver(s.swaps, EscrowOf(a, t)) + SumOver(s.multiSwaps, MultiEscrowOf(a, t))
    + SumOver(s.tickets, TicketOf(a, t))
  }

  /** The total recorded for an asset. */
  ghost function Recorded(s: State, a: Hash): int {
    if a in s.assets then s.assets[a].total else 0
  }

  /** From the given instant on, the supply of every asset changed exactly as its recorded total. */
  ghost predicate Conserves(s: State, s': State, from: int) {
    forall a: Hash, t: int :: from <= t <= FOREVER ==>
      Supply(s', a, t) - Recorded(s', a) == Supply(s, a, t) - Recorded(s, a)
  }

  lemma ConservesSelf(s: State, from: int)
    ensures Conserves(s, s, from)
  {
  }

  /** The supply depends on the holdings alone. */
  lemma SupplyDepends(s: State, s': State, a: Hash, t: int)
    requires s.balances == s'.balances && s.locks == s'.locks && s.swaps == s'.swaps
    requires s.multiSwaps == s'.multiSwaps && s.tickets == s'.tickets
    ensures Supply(s', a, t) == Supply(s, a, t)
  {
  }

  // ---------- What each write does to the supply ----------

  lemma CreditSupply(s: State, who: Address, asset: Hash, amount: int, a: Hash, t: int)
    ensures Supply(Credit(s, who, asset, amount), a, t) == Supply(s, a, t) + if a == asset then amount else 0
  {
    SumUpdate(s.balances, (who, asset), Balance(s, who, asset) + amount, BalanceOf(a));
  }

  lemma AddLockSupply(s: State, who: Address, asset: Hash, amount: seq<Item>, time: Instant, a: Hash, t: int)
    requires ValidState(s) && Normal(amount) && t >= time
    ensures Supply(AddLock(s, who, asset, amount, time), a, t) ==
      Supply(s, a, t) + if a == asset then Val(amount, t) else 0
  {
    NormalLock(s, who, asset);
    hide Val, Plus, Unexpired, ValidState, Normal;
    if amount != [] {
      var had := Lock(s, who, asset);
      var sum := Unexpired(Plus(had, amount), time);
      PlusMeaning(had, amount);
      UnexpiredMeaning(Plus(had, amount), time);
      SumUpdate(s.locks, (who, asset), sum, LockOf(a, t));
    }
  }

  lemma EnoughCovers(lock: seq<Item>, z: Item)
    requires Enough(lock, z)
    ensures ValidItem(z) && Covers(lock, z)
  {
  }

  lemma SubLockSupply(s: State, who: Address, asset: Hash, z: Item, time: Instant, a: Hash, t: int)
    requires ValidState(s) && Enough(Lock(s, who, asset), z) && t >= time
    ensures Supply(SubLock(s, who, asset, z, time), a, t) == Supply(s, a, t) - if a == asset then ItemVal(z, t) else 0
  {
    NormalLock(s, who, asset);
    hide Val, Minus, Unexpired, ValidState, Normal, Enough;
    var had := Lock(s, who, asset);
    var rest := Unexpired(Minus(had, z), time);
    EnoughCovers(had, z);
    MinusMeaning(had, z);
    UnexpiredMeaning(Minus(had, z), time);
    SumUpdate(s.locks, (who, asset), rest, LockOf(a, t));
  }

  lemma PutSwapSupply(s: State, swap: Swap, a: Hash, t: int)
    ensures Supply(s.(swaps := s.swaps[swap.id := swap]), a, t)
         == Supply(s, a, t) - Entry(s.swaps, swap.id, EscrowOf(a, t)) + Escrow(swap, a, t)
  {
    SumUpdate(s.swaps, swap.id, swap, EscrowOf(a, t));
  }

  lemma DropSwapSupply(s: State, id: Hash, a: Hash, t: int)
    ensures Supply(s.(swaps := s.swaps - {id}), a, t) == Supply(s, a, t) - Entry(s.swaps, id, EscrowOf(a, t))
  {
    SumDrop(s.swaps, id, EscrowOf(a, t));
  }

  lemma PutMultiSupply(s: State, swap: MultiSwap, a: Hash, t: int)
    ensures Supply(s.(multiSwaps := s.multiSwaps[swap.id := swap]), a, t)
         == Supply(s, a, t) - Entry(s.multiSwaps, swap.id, MultiEscrowOf(a, t)) + MultiEscrow(swap, a, t)
  {
    SumUpdate(s.multiSwaps, swap.id, swap, MultiEscrowOf(a, t));
  }

  lemma DropMultiSupply(s: State, id: Hash, a: Hash, t: int)
    ensures Supply(s.(multiSwaps := s.multiSwaps - {id}), a, t)
         == Supply(s, a, t) - Entry(s.multiSwaps, id, MultiEscrowOf(a, t))
  {
    SumDrop(s.multiSwaps, id, MultiEscrowOf(a, t));
  }

  lemma PutTicketSupply(s: State, ticket: Ticket, a: Hash, t: int)
    requires ticket.id !in s.tickets
    ensures Supply(s.(tickets := s.tickets[ticket.id := ticket]), a, t) == Supply(s, a, t) + TicketVal(ticket, a, t)
  {
    SumUpdate(s.tickets, ticket.id, ticket, TicketOf(a, t));
  }

  // ---------- Writes keep the ledger well formed ----------

  lemma CreditValid(s: State, who: Address, asset: Hash, amount: int)
    requires ValidState(s) && Balance(s, who, asset) + amount >= 0
    ensures ValidState(Credit(s, who, asset, amount))
  {
  }

  lemma AddLockValid(s: State, who: Address, asset: Hash, amount: seq<Item>, time: Instant)
    requires ValidState(s) && Normal(amount)
    ensures ValidState(AddLock(s, who, asset, amount, time))
  {
    hide Val, Plus, Unexpired;
    if amount != [] {
      var had := Lock(s, who, asset);
      PlusMeaning(had, amount);
      UnexpiredMeaning(Plus(had, amount), time);
    }
  }

  lemma SubLockValid(s: State, who: Address, asset: Hash, z: Item, time: Instant)
    requires ValidState(s) && Enough(Lock(s, who, asset), z)
    ensures ValidState(SubLock(s, who, asset, z, time))
  {
    var had := Lock(s, who, asset);
    MinusMeaning(had, z);
    hide Val, Minus, Unexpired;
    UnexpiredMeaning(Minus(had, z), time);
  }

  lemma PutAssetValid(s: State, asset: Asset)
    requires ValidState(s)
    ensures ValidState(s.(assets := s.assets[asset.id := asset]))
  {
  }

  lemma PutTicketValid(s: State, ticket: Ticket)
    requires ValidState(s)
    ensures ValidState(s.(tickets := s.tickets[ticket.id := ticket]))
  {
  }

  lemma PutSwapValid(s: State, swap: Swap)
    requires ValidState(s) && GoodSwap(swap)
    ensures ValidState(s.(swaps := s.swaps[swap.id := swap]))
  {
  }

  lemma DropSwapValid(s: State, id: Hash)
    requires ValidState(s)
    ensures ValidState(s.(swaps := s.swaps - {id}))
  {
  }

  lemma PutMultiValid(s: State, swap: MultiSwap)
    requires ValidState(s) && GoodMultiSwap(swap)
    ensures ValidState(s.(multiSwaps := s.multiSwaps[swap.id := swap]))
  {
  }

  lemma DropMultiValid(s: State, id: Hash)
    requires ValidState(s)
    ensures ValidState(s.(multiSwaps := s.multiSwaps - {id}))
  {
  }

  lemma AssetId(s: State, id: Hash)
    requires ValidState(s) && id in s.assets
    ensures s.assets[id].id == id
  {
  }

  lemma BalanceNonNegative(s: State, who: Address, asset: Hash)
    requires ValidState(s)
    ensures Balance(s, who, asset) >= 0
  {
  }
}
