/** When each call is done and what it then leaves, in terms of its parameters alone: the exact
    condition, the records, and for every account the balance and the holding. Together the two
    fix the time lock as well, since a holding is a balance and a time lock. */
module LedgerEffects {
  import opened TimeLockItems
  import opened TimeLockAlgebra
  import opened TimeLockOps
  import opened FsnTypes
  import opened LedgerState
  import opened LedgerCalls
  import opened LedgerConservation
  import opened LedgerSwaps
  import opened LedgerMultiSwaps
  import opened LedgerHoldings

  // ---------- Paying and receiving ----------

  predicate IsPlain(leg: Leg) {
    leg.start == 0 && leg.end == FOREVER
  }

  /** What a leg is worth in the plain balance. */
  function Plain(leg: Leg, a: Hash): int {
    if IsPlain(leg) && a == leg.asset then leg.total else 0
  }

  /** At every instant that is left of the interval the time lock has the amount. */
  ghost predicate Covered(s: State, who: Address, leg: Leg, time: Instant) {
    forall t: int :: leg.start <= t <= leg.end && time <= t ==> Val(Lock(s, who, leg.asset), t) >= leg.total
  }

  /** A plain leg is paid from the balance, any other one from the time lock or, where allowed, from
      the balance. */
  ghost predicate CanPay(s: State, who: Address, leg: Leg, time: Instant, convert: bool) {
    if IsPlain(leg) then Balance(s, who, leg.asset) >= leg.total
    else Covered(s, who, leg, time) || (convert && Balance(s, who, leg.asset) >= leg.total)
  }

  /** What the balance pays. */
  ghost function FromBalance(s: State, who: Address, leg: Leg, time: Instant, w: Address, a: Hash): int {
    if w == who && a == leg.asset && (IsPlain(leg) || !Covered(s, who, leg, time)) then leg.total else 0
  }

  lemma CoveredIff(s: State, who: Address, leg: Leg, time: Instant)
    requires leg.total > 0 && time > 0
    ensures Covered(s, who, leg, time) <==>
      (ValidItem(Need(leg, time)) ==> Enough(Lock(s, who, leg.asset), Need(leg, time)))
  {
    hide Val, Lock;
    var lock, need := Lock(s, who, leg.asset), Need(leg, time);
    if ValidItem(need) && Enough(lock, need) {
      forall t: int | leg.start <= t <= leg.end && time <= t ensures Val(lock, t) >= leg.total {
        assert need.start <= t <= need.end;
      }
    }
  }

  lemma PrepareIff(s: State, who: Address, leg: Leg, time: Instant, convert: bool)
    requires leg.total > 0 && time > 0
    ensures Prepare(s, who, leg, time, convert).Some? <==> CanPay(s, who, leg, time, convert)
  {
    hide Covered, Enough, Lock, Convert, Need;
    CoveredIff(s, who, leg, time);
  }

  lemma PrepareBalance(s: State, who: Address, leg: Leg, time: Instant, convert: bool, w: Address, a: Hash)
    requires leg.total > 0 && time > 0 && Prepare(s, who, leg, time, convert).Some?
    ensures Balance(Prepare(s, who, leg, time, convert).value, w, a) == Balance(s, w, a)
      - if IsPlain(leg) then 0 else FromBalance(s, who, leg, time, w, a)
  {
    hide Covered, Enough, Lock, Need, Balance, Credit, AddLock;
    CoveredIff(s, who, leg, time);
    ReadCredit(s, who, leg.asset, -leg.total, w, a);
    ReadAddLock(Debit(s, who, leg.asset, leg.total), who, leg.asset, [Lifelong(time, leg.total)], time, w, a);
  }

  lemma TakeOutBalance(s: State, who: Address, leg: Leg, time: Instant, w: Address, a: Hash)
    ensures Balance(TakeOut(s, who, leg, time), w, a) == Balance(s, w, a) - if w == who then Plain(leg, a) else 0
  {
    hide Balance, Credit, SubLock, Need;
    ReadCredit(s, who, leg.asset, -leg.total, w, a);
    ReadSubLock(s, who, leg.asset, Need(leg, time), time, w, a);
  }

  lemma ReceiveBalance(s: State, who: Address, leg: Leg, time: Instant, w: Address, a: Hash)
    ensures Balance(Receive(s, who, leg, time), w, a) == Balance(s, w, a) + if w == who then Plain(leg, a) else 0
  {
    hide Balance, Credit, AddLock, Need;
    ReadCredit(s, who, leg.asset, leg.total, w, a);
    ReadAddLock(s, who, leg.asset, [Need(leg, time)], time, w, a);
  }

  lemma PayBalance(s: State, who: Address, leg: Leg, time: Instant, convert: bool, w: Address, a: Hash)
    requires leg.total > 0 && time > 0 && Pay(s, who, leg, time, convert).Some?
    ensures Balance(Pay(s, who, leg, time, convert).value, w, a) ==
      Balance(s, w, a) - FromBalance(s, who, leg, time, w, a)
  {
    hide Balance, Prepare, TakeOut, Covered;
    PrepareBalance(s, who, leg, time, convert, w, a);
    TakeOutBalance(Prepare(s, who, leg, time, convert).value, who, leg, time, w, a);
  }

  // ---------- Assets ----------

  /** A new asset is what its parameters say, belongs to the sender and is named by the transaction. */
  lemma GenAssetDone(s: State, env: Env, p: GenAssetParam, w: Address, a: Hash)
    ensures var (s', r) := GenAsset(s, env, p);
            && (r == Done <==>
                  && 0 < |p.name| <= 128 && 0 < |p.symbol| <= 64 && |p.description| <= 1024
                  && p.total >= 0 && p.decimals <= 18 && env.txHash !in s.assets)
            && (r != Done ==> s' == s)
            && (r == Done ==>
                  && s'.assets.Keys == s.assets.Keys + {env.txHash}
                  && (forall id :: id in s.assets ==> s'.assets[id] == s.assets[id])
                  && var asset := s'.assets[env.txHash];
                  && asset.id == env.txHash && asset.owner == env.sender && asset.name == p.name
                  && asset.symbol == p.symbol && asset.decimals == p.decimals && asset.total == p.total
                  && asset.canChange == p.canChange && asset.description == p.description)
            && Balance(s', w, a) ==
                 Balance(s, w, a) + (if r == Done && w == env.sender && a == env.txHash then p.total else 0)
            && s'.locks == s.locks && s'.swaps == s.swaps && s'.multiSwaps == s.multiSwaps && s'.tickets == s.tickets
            && SameNotations(s, s')
  {
    if GenAsset(s, env, p).1 == Done {
      ReadCredit(s.(assets := s.assets[env.txHash := NewAsset(p, env)]), env.sender, env.txHash, p.total, w, a);
    }
  }

  lemma SendAssetDone(s: State, env: Env, p: SendAssetParam, w: Address, a: Hash)
    ensures var (s', r) := SendAsset(s, env, p);
            && (r == Done <==>
                  && p.value > 0 && p.to != ZERO_ADDRESS && p.asset != ZERO_HASH
                  && Balance(s, env.sender, p.asset) >= p.value)
            && (r != Done ==> s' == s)
            && s'.locks == s.locks && SameRecords(s, s')
            && (r == Done ==>
                  Balance(s', w, a) == Balance(s, w, a)
                    + (if w == p.to && a == p.asset then p.value else 0)
                    - (if w == env.sender && a == p.asset then p.value else 0))
  {
    if SendAsset(s, env, p).1 == Done {
      ReadCredit(s, env.sender, p.asset, -p.value, w, a);
      ReadCredit(Debit(s, env.sender, p.asset, p.value), p.to, p.asset, p.value, w, a);
    }
  }

  /** Only the owner of a changeable asset changes its supply, and it can take from itself alone.
      Of the record only the total changes. */
  lemma ValueChangeDone(s: State, env: Env, p: ValueChangeParam, w: Address, a: Hash)
    requires ValidState(s)
    ensures var (s', r) := ValueChange(s, env, p);
            var amount := if p.isInc then p.value else -p.value;
            && (r == Done <==>
                  && p.value > 0 && |p.data| <= 256 && p.asset in s.assets
                  && s.assets[p.asset].canChange && s.assets[p.asset].owner == env.sender
                  && (p.isInc || (p.to == env.sender && Balance(s, p.to, p.asset) >= p.value)))
            && (r != Done ==> s' == s)
            && (r == Done ==>
                  && s'.assets.Keys == s.assets.Keys
                  && (forall id :: id in s.assets && id != p.asset ==> s'.assets[id] == s.assets[id])
                  && s'.assets[p.asset] == s.assets[p.asset].(total := s.assets[p.asset].total + amount)
                  && Balance(s', w, a) == Balance(s, w, a) + if w == p.to && a == p.asset then amount else 0)
            && s'.locks == s.locks && s'.swaps == s.swaps && s'.multiSwaps == s.multiSwaps && s'.tickets == s.tickets
            && SameNotations(s, s')
  {
    if ValueChange(s, env, p).1 == Done {
      AssetId(s, p.asset);
      ReadCredit(s, p.to, p.asset, if p.isInc then p.value else -p.value, w, a);
    }
  }

  // ---------- Time locks ----------

  /** The interval a time-lock call is about. A redemption is until the end of time. */
  function LockedLeg(q: TimeLockParam): Leg {
    Leg(q.asset, q.start, if q.kind == TimeLockToAsset then FOREVER else q.end, q.value)
  }

  /** A lock is made from the balance, moved or redeemed if it is covered. */
  ghost predicate TimeLockAccepted(s: State, env: Env, q: TimeLockParam) {
    && q.value > 0
    && match q.kind
       case AssetToTimeLock => q.start <= q.end && q.end >= env.time && Balance(s, env.sender, q.asset) >= q.value
       case TimeLockToTimeLock =>
         q.start <= q.end && q.end >= env.time && Covered(s, env.sender, LockedLeg(q), env.time)
       case TimeLockToAsset => q.start <= env.now && Covered(s, env.sender, LockedLeg(q), env.time)
       case OtherKind => false
  }

  lemma TimeLockIff(s: State, env: Env, q: TimeLockParam)
    requires env.time > 0
    ensures TimeLockStep(s, env, q).1 == Done <==> TimeLockAccepted(s, env, q)
    ensures TimeLockStep(s, env, q).1 != Done ==> TimeLockStep(s, env, q).0 == s
  {
    hide Covered, Enough, Lock, AddLock, SubLock, Credit, Minus;
    if q.value > 0 {
      CoveredIff(s, env.sender, LockedLeg(q), env.time);
    }
  }

  /** Who gets what: at every instant of the interval the receiver has the amount more and the sender
      the amount less. A redemption gives the receiver a balance, which counts at every instant. */
  lemma TimeLockHolding(s: State, env: Env, q: TimeLockParam, w: Address, a: Hash, t: int)
    requires ValidState(s) && 0 < env.time <= t <= FOREVER && TimeLockAccepted(s, env, q)
    ensures var s' := TimeLockStep(s, env, q).0;
            var amount := if a == q.asset then q.value else 0;
            var interval := LegVal(LockedLeg(q), a, t);
            var redeems := q.kind == TimeLockToAsset;
            && Holding(s', w, a, t) == Holding(s, w, a, t)
                 + (if w != q.to then 0 else if redeems then amount else interval)
                 - (if w == env.sender then interval else 0)
            && Balance(s', w, a) == Balance(s, w, a)
                 + (if redeems && w == q.to then amount else 0)
                 - (if q.kind == AssetToTimeLock && w == env.sender then amount else 0)
            && SameRecords(s, s')
  {
    hide Covered, Enough, Lock, AddLock, SubLock, Credit, Minus, ValidState, Balance, Holding, Val, LegVal;
    var leg := LockedLeg(q);
    var need := Need(leg, env.time);
    NeedVal(leg, env.time, t);
    LegElsewhere(leg);
    CoveredIff(s, env.sender, leg, env.time);
    match q.kind
    case AssetToTimeLock =>
      LockHolding(s, env, q, need, w, a, t);
    case TimeLockToTimeLock =>
      MoveHolding(s, env, q, need, w, a, t);
    case TimeLockToAsset =>
      RedeemHolding(s, env, q, need, w, a, t);
    case OtherKind =>
  }

  lemma MoveHolding(s: State, env: Env, q: TimeLockParam, need: Item, w: Address, a: Hash, t: int)
    requires ValidState(s) && env.time <= t && Enough(Lock(s, env.sender, q.asset), need)
    ensures var s' := AddLock(SubLock(s, env.sender, q.asset, need, env.time), q.to, q.asset, [need], env.time);
            && Holding(s', w, a, t) == Holding(s, w, a, t)
                 + (if w == q.to && a == q.asset then ItemVal(need, t) else 0)
                 - (if w == env.sender && a == q.asset then ItemVal(need, t) else 0)
            && Balance(s', w, a) == Balance(s, w, a) && SameRecords(s, s')
  {
    hide AddLock, SubLock, ValidState, Balance, Holding, Val, Lock;
    var s1 := SubLock(s, env.sender, q.asset, need, env.time);
    SingleIsNormal(need);
    SubLockHolding(s, env.sender, q.asset, need, env.time, w, a, t);
    SubLockValid(s, env.sender, q.asset, need, env.time);
    AddLockHolding(s1, q.to, q.asset, [need], env.time, w, a, t);
    ValSingle(need, t);
    ReadSubLock(s, env.sender, q.asset, need, env.time, w, a);
    ReadAddLock(s1, q.to, q.asset, [need], env.time, w, a);
    SubLockKeepsRecords(s, env.sender, q.asset, need, env.time);
    AddLockKeepsRecords(s1, q.to, q.asset, [need], env.time);
  }

  lemma RedeemHolding(s: State, env: Env, q: TimeLockParam, need: Item, w: Address, a: Hash, t: int)
    requires ValidState(s) && env.time <= t && Enough(Lock(s, env.sender, q.asset), need)
    ensures var s' := Credit(SubLock(s, env.sender, q.asset, need, env.time), q.to, q.asset, q.value);
            && Holding(s', w, a, t) == Holding(s, w, a, t)
                 + (if w == q.to && a == q.asset then q.value else 0)
                 - (if w == env.sender && a == q.asset then ItemVal(need, t) else 0)
            && Balance(s', w, a) == Balance(s, w, a) + (if w == q.to && a == q.asset then q.value else 0)
            && SameRecords(s, s')
  {
    hide Credit, SubLock, ValidState, Balance, Holding, Val, Lock;
    var s1 := SubLock(s, env.sender, q.asset, need, env.time);
    SubLockHolding(s, env.sender, q.asset, need, env.time, w, a, t);
    CreditHolding(s1, q.to, q.asset, q.value, w, a, t);
    ReadSubLock(s, env.sender, q.asset, need, env.time, w, a);
    ReadCredit(s1, q.to, q.asset, q.value, w, a);
    SubLockKeepsRecords(s, env.sender, q.asset, need, env.time);
    CreditKeepsRecords(s1, q.to, q.asset, q.value);
  }

  lemma LockHolding(s: State, env: Env, q: TimeLockParam, need: Item, w: Address, a: Hash, t: int)
    requires ValidState(s) && 0 < env.time <= t <= FOREVER && 0 < q.value <= Balance(s, env.sender, q.asset)
    requires ValidItem(need) && need.value == q.value && env.time <= need.start
    ensures var (s', r) := LockFromAsset(s, env, q, need);
            && Holding(s', w, a, t) == Holding(s, w, a, t)
                 + (if w == q.to && a == q.asset then ItemVal(need, t) else 0)
                 - (if w == env.sender && a == q.asset then ItemVal(need, t) else 0)
            && Balance(s', w, a) == Balance(s, w, a) - (if w == env.sender && a == q.asset then q.value else 0)
            && SameRecords(s, s')
  {
    CreditValid(s, env.sender, q.asset, -q.value);
    hide Debit, AddLock, ValidState, Balance, Holding, Val, Lock, Minus, Lifelong, Enough, Normal, SameRecords;
    var s1 := Debit(s, env.sender, q.asset, q.value);
    DebitHolding(s, env.sender, q.asset, q.value, w, a, t);
    if env.sender == q.to {
      WholeLock(s1, env, q, w, a, t);
      SameRecordsTrans(s, s1, AddLock(s1, q.to, q.asset, [Lifelong(env.time, q.value)], env.time));
    } else {
      SurplusAndLock(s1, env, q, need, w, a, t);
      var s2 := AddLock(s1, env.sender, q.asset, Minus([Lifelong(env.time, q.value)], need), env.time);
      SameRecordsTrans(s, s1, AddLock(s2, q.to, q.asset, [need], env.time));
    }
  }

  lemma DebitHolding(s: State, who: Address, asset: Hash, amount: int, w: Address, a: Hash, t: int)
    ensures var s' := Debit(s, who, asset, amount);
            var paid := if w == who && a == asset then amount else 0;
            && Holding(s', w, a, t) == Holding(s, w, a, t) - paid && Balance(s', w, a) == Balance(s, w, a) - paid
            && SameRecords(s, s')
  {
    hide Credit, Balance, Holding;
    CreditHolding(s, who, asset, -amount, w, a, t);
    ReadCredit(s, who, asset, -amount, w, a);
    CreditKeepsRecords(s, who, asset, -amount);
  }

  lemma SameRecordsTrans(s: State, s1: State, s2: State)
    requires SameRecords(s, s1) && SameRecords(s1, s2)
    ensures SameRecords(s, s2)
  {
  }

  lemma WholeLock(s: State, env: Env, q: TimeLockParam, w: Address, a: Hash, t: int)
    requires ValidState(s) && 0 < env.time <= t <= FOREVER && q.value > 0
    ensures var s' := AddLock(s, q.to, q.asset, [Lifelong(env.time, q.value)], env.time);
            && Holding(s', w, a, t) == Holding(s, w, a, t) + (if w == q.to && a == q.asset then q.value else 0)
            && Balance(s', w, a) == Balance(s, w, a) && SameRecords(s, s')
  {
    hide AddLock, ValidState, Balance, Holding, Val, Lock, Lifelong, Normal;
    var whole := Lifelong(env.time, q.value);
    LifelongNormal(env.time, q.value);
    AddLockHolding(s, q.to, q.asset, [whole], env.time, w, a, t);
    LifelongVal(env.time, q.value, t);
    ReadAddLock(s, q.to, q.asset, [whole], env.time, w, a);
    AddLockKeepsRecords(s, q.to, q.asset, [whole], env.time);
  }

  lemma LifelongVal(time: Instant, value: int, t: int)
    requires value > 0 && time <= t <= FOREVER
    ensures Val([Lifelong(time, value)], t) == value
  {
    ValSingle(Lifelong(time, value), t);
  }

  lemma SurplusAndLock(s: State, env: Env, q: TimeLockParam, need: Item, w: Address, a: Hash, t: int)
    requires ValidState(s) && 0 < env.time <= t <= FOREVER && q.value > 0
    requires ValidItem(need) && need.value == q.value && env.time <= need.start
    ensures var surplus := Minus([Lifelong(env.time, q.value)], need);
            var s' := AddLock(AddLock(s, env.sender, q.asset, surplus, env.time), q.to, q.asset, [need], env.time);
            && Holding(s', w, a, t) == Holding(s, w, a, t)
                 + (if w == q.to && a == q.asset then ItemVal(need, t) else 0)
                 + (if w == env.sender && a == q.asset then q.value - ItemVal(need, t) else 0)
            && Balance(s', w, a) == Balance(s, w, a) && SameRecords(s, s')
  {
    hide AddLock, ValidState, Balance, Holding, Val, Lock, Minus, Lifelong, Enough;
    var surplus := Minus([Lifelong(env.time, q.value)], need);
    var s1 := AddLock(s, env.sender, q.asset, surplus, env.time);
    SurplusMeaning(env.time, q.value, need);
    SingleIsNormal(need);
    AddLockHolding(s, env.sender, q.asset, surplus, env.time, w, a, t);
    AddLockValid(s, env.sender, q.asset, surplus, env.time);
    AddLockHolding(s1, q.to, q.asset, [need], env.time, w, a, t);
    ValSingle(need, t);
    ReadAddLock(s, env.sender, q.asset, surplus, env.time, w, a);
    ReadAddLock(s1, q.to, q.asset, [need], env.time, w, a);
    AddLockKeepsRecords(s, env.sender, q.asset, surplus, env.time);
    AddLockKeepsRecords(s1, q.to, q.asset, [need], env.time);
  }

  // ---------- Tickets ----------

  /** What a ticket costs: its price at every instant of its time that is still to come. */
  function TicketLeg(p: BuyTicketParam): Leg {
    Leg(SYSTEM_ASSET, p.start, p.end, TICKET_PRICE)
  }

  /** A ticket is paid from the time lock or else from the balance. */
  ghost predicate TicketAccepted(s: State, env: Env, p: BuyTicketParam) {
    && env.ticketId !in s.tickets && p.start < p.end && env.time <= p.end
    && p.end >= (p.start + TICKET_MIN_LIFETIME) % UINT64_MODULUS
    && (Covered(s, env.sender, TicketLeg(p), env.time) || Balance(s, env.sender, SYSTEM_ASSET) >= TICKET_PRICE)
  }

  lemma BuyTicketDone(s: State, env: Env, p: BuyTicketParam)
    requires env.time > 0
    ensures var (s', r) := BuyTicket(s, env, p);
            && (r == Done <==> TicketAccepted(s, env, p)) && (r != Done ==> s' == s)
            && (r == Done ==>
                  && s'.tickets.Keys == s.tickets.Keys + {env.ticketId}
                  && (forall id :: id in s.tickets ==> s'.tickets[id] == s.tickets[id])
                  && var ticket := s'.tickets[env.ticketId];
                  && ticket.id == env.ticketId && ticket.owner == env.sender && ticket.height == env.height
                  && ticket.start == p.start && ticket.expire == p.end)
            && s'.assets == s.assets && s'.swaps == s.swaps && s'.multiSwaps == s.multiSwaps && SameNotations(s, s')
  {
    hide Covered, Enough, Lock, Balance, AddLock, SubLock, Credit, Minus;
    var need := Item(MaxInstant(p.start, env.time), p.end, TICKET_PRICE);
    CoveredIff(s, env.sender, TicketLeg(p), env.time);
    SubLockKeepsRecords(s, env.sender, SYSTEM_ASSET, need, env.time);
    CreditKeepsRecords(s, env.sender, SYSTEM_ASSET, -TICKET_PRICE);
    AddLockKeepsRecords(Debit(s, env.sender, SYSTEM_ASSET, TICKET_PRICE), env.sender, SYSTEM_ASSET,
                        Minus([Lifelong(env.time, TICKET_PRICE)], need), env.time);
  }

  lemma BuyTicketHolding(s: State, env: Env, p: BuyTicketParam, w: Address, a: Hash, t: int)
    requires ValidState(s) && 0 < env.time <= t <= FOREVER && TicketAccepted(s, env, p)
    ensures var s' := BuyTicket(s, env, p).0;
            && Holding(s', w, a, t) == Holding(s, w, a, t) - (if w == env.sender then LegVal(TicketLeg(p), a, t) else 0)
            && Balance(s', w, a) == Balance(s, w, a)
                 - if w == env.sender && a == SYSTEM_ASSET && !Covered(s, env.sender, TicketLeg(p), env.time)
                   then TICKET_PRICE else 0
  {
    BuyTicketDone(s, env, p);
    hide Covered, Enough, Lock, Balance, AddLock, SubLock, Credit, Minus, Holding, ValidState, Val, LegVal;
    var leg := TicketLeg(p);
    var need := Need(leg, env.time);
    NeedVal(leg, env.time, t);
    LegElsewhere(leg);
    CoveredIff(s, env.sender, leg, env.time);
    if Enough(Lock(s, env.sender, SYSTEM_ASSET), need) {
      var s1 := SubLock(s, env.sender, SYSTEM_ASSET, need, env.time);
      SubLockHolding(s, env.sender, SYSTEM_ASSET, need, env.time, w, a, t);
      ReadSubLock(s, env.sender, SYSTEM_ASSET, need, env.time, w, a);
      HoldingDepends(s1, BuyTicket(s, env, p).0, w, a, t);
      BalanceDepends(s1, BuyTicket(s, env, p).0, w, a);
    } else {
      TicketFromBalance(s, env, need, w, a, t);
      var s1 := Debit(s, env.sender, SYSTEM_ASSET, TICKET_PRICE);
      var s2 := AddLock(s1, env.sender, SYSTEM_ASSET, Minus([Lifelong(env.time, TICKET_PRICE)], need), env.time);
      HoldingDepends(s2, BuyTicket(s, env, p).0, w, a, t);
      BalanceDepends(s2, BuyTicket(s, env, p).0, w, a);
    }
  }

  lemma BalanceDepends(s: State, s': State, w: Address, a: Hash)
    requires s.balances == s'.balances
    ensures Balance(s', w, a) == Balance(s, w, a)
  {
  }

  lemma TicketFromBalance(s: State, env: Env, need: Item, w: Address, a: Hash, t: int)
    requires ValidState(s) && 0 < env.time <= t <= FOREVER && Balance(s, env.sender, SYSTEM_ASSET) >= TICKET_PRICE
    requires ValidItem(need) && need.value == TICKET_PRICE && env.time <= need.start
    ensures var s1 := Debit(s, env.sender, SYSTEM_ASSET, TICKET_PRICE);
            var s2 := AddLock(s1, env.sender, SYSTEM_ASSET, Minus([Lifelong(env.time, TICKET_PRICE)], need), env.time);
            var own := w == env.sender && a == SYSTEM_ASSET;
            && Holding(s2, w, a, t) == Holding(s, w, a, t) - (if own then ItemVal(need, t) else 0)
            && Balance(s2, w, a) == Balance(s, w, a) - if own then TICKET_PRICE else 0
  {
    CreditValid(s, env.sender, SYSTEM_ASSET, -TICKET_PRICE);
    hide Enough, Lock, Balance, AddLock, Credit, Minus, Holding, ValidState, Val, Lifelong;
    var s1, surplus := Debit(s, env.sender, SYSTEM_ASSET, TICKET_PRICE),
      Minus([Lifelong(env.time, TICKET_PRICE)], need);
    SurplusMeaning(env.time, TICKET_PRICE, need);
    CreditHolding(s, env.sender, SYSTEM_ASSET, -TICKET_PRICE, w, a, t);
    ReadCredit(s, env.sender, SYSTEM_ASSET, -TICKET_PRICE, w, a);
    AddLockHolding(s1, env.sender, SYSTEM_ASSET, surplus, env.time, w, a, t);
    ReadAddLock(s1, env.sender, SYSTEM_ASSET, surplus, env.time, w, a);
  }

  // ---------- Swaps ----------

  function OfferedLeg(q: MakeSwapParam, n: int): Leg {
    Leg(q.fromAsset, q.fromStart, q.fromEnd, q.minFrom * n)
  }

  function AskedLeg(q: MakeSwapParam, n: int): Leg {
    Leg(q.toAsset, q.toStart, q.toEnd, q.minTo * n)
  }

  /** An offer of an asset must be paid for; an offer of a short account number needs one. */
  ghost predicate SwapAccepted(s: State, env: Env, q: MakeSwapParam, ext: bool) {
    && env.txHash !in s.swaps && q.minFrom > 0 && q.minTo > 0 && q.size > 0 && |q.description| <= 1024
    && q.fromStart <= q.fromEnd && q.toStart <= q.toEnd && q.fromEnd > env.time && q.toEnd > env.time
    && q.toAsset != USAN_ASSET && q.toAsset in s.assets
    && if q.fromAsset == USAN_ASSET then NotationOf(s, env.sender) != 0
       else CanPay(s, env.sender, OfferedLeg(q, q.size), env.time, ext)
  }

  /** The record of an offer: what was asked for as it was asked, and what was offered, which for a
      short account number is one number for all time. */
  ghost predicate Records(swap: Swap, s: State, env: Env, q: MakeSwapParam) {
    && swap.id == env.txHash && swap.owner == env.sender && swap.notation == NotationOf(s, env.sender)
    && swap.toAsset == q.toAsset && swap.toStart == q.toStart && swap.toEnd == q.toEnd && swap.minTo == q.minTo
    && swap.targets == q.targets && swap.time == q.time && swap.description == q.description
    && swap.fromAsset == q.fromAsset
    && if q.fromAsset == USAN_ASSET
       then swap.minFrom == 1 && swap.size == 1 && swap.fromStart == 0 && swap.fromEnd == FOREVER
       else
         && swap.minFrom == q.minFrom && swap.size == q.size
         && swap.fromStart == q.fromStart && swap.fromEnd == q.fromEnd
  }

  lemma CheckMakeSwapIff(q: MakeSwapParam, time: Instant)
    ensures CheckMakeSwap(q, time) <==>
      && q.minFrom > 0 && q.minTo > 0 && q.size > 0 && |q.description| <= 1024
      && q.fromStart <= q.fromEnd && q.toStart <= q.toEnd && q.fromEnd > time && q.toEnd > time
  {
    if q.minFrom > 0 && q.minTo > 0 && q.size > 0 {
      ProductPositive(q.minFrom, q.size);
      ProductPositive(q.minTo, q.size);
    }
  }

  /** When an offer is accepted, and what is recorded of it. */
  lemma MakeSwapDone(s: State, env: Env, q: MakeSwapParam, ext: bool)
    requires ValidState(s) && env.time > 0
    ensures var (s', r) := MakeSwap(s, env, q, ext);
            && (r == Done <==> SwapAccepted(s, env, q, ext)) && (r != Done ==> s' == s)
            && (r == Done ==>
                  && s'.swaps.Keys == s.swaps.Keys + {env.txHash}
                  && (forall id :: id in s.swaps ==> s'.swaps[id] == s.swaps[id])
                  && Records(s'.swaps[env.txHash], s, env, q))
            && s'.assets == s.assets && s'.multiSwaps == s.multiSwaps && s'.tickets == s.tickets && SameNotations(s, s')
  {
    CheckMakeSwapIff(q, env.time);
    hide CheckMakeSwap, Prepare, CanPay, TakeOut, ValidState, Supply, LegVal;
    if CheckMakeSwap(q, env.time) && q.fromAsset != USAN_ASSET {
      var leg := OfferedLeg(q, q.size);
      ProductPositive(q.minFrom, q.size);
      PrepareIff(s, env.sender, leg, env.time, ext);
      PayMeaning(s, env.sender, leg, env.time, ext);
      assert FromLeg(NewSwap(s, env, AdjustedSwap(q)), q.size) == leg;
    }
  }

  /** What an accepted offer of an asset costs the maker. An offer of a number costs nothing yet. */
  lemma MakeSwapPays(s: State, env: Env, q: MakeSwapParam, ext: bool, w: Address, a: Hash, t: int)
    requires ValidState(s) && 0 < env.time <= t <= FOREVER && SwapAccepted(s, env, q, ext)
    ensures var s' := MakeSwap(s, env, q, ext).0;
            var leg := OfferedLeg(q, q.size);
            var usan := q.fromAsset == USAN_ASSET;
            && Holding(s', w, a, t) == Holding(s, w, a, t) - (if usan || w != env.sender then 0 else LegVal(leg, a, t))
            && Balance(s', w, a) ==
                 Balance(s, w, a) - if usan then 0 else FromBalance(s, env.sender, leg, env.time, w, a)
  {
    MakeSwapDone(s, env, q, ext);
    MakeSwapHolding(s, env, q, ext, w, a, t);
    hide Prepare, CanPay, TakeOut, ValidState, Supply, LegVal, Covered, Balance, Holding, CheckMakeSwap;
    if q.fromAsset != USAN_ASSET {
      var leg := OfferedLeg(q, q.size);
      ProductPositive(q.minFrom, q.size);
      PayBalance(s, env.sender, leg, env.time, ext, w, a);
      BalanceDepends(Pay(s, env.sender, leg, env.time, ext).value, MakeSwap(s, env, q, ext).0, w, a);
    } else {
      BalanceDepends(s, MakeSwap(s, env, q, ext).0, w, a);
    }
  }

  /** The owner, and nobody else, can always recall an offer, which then is gone. */
  lemma RecallSwapDone(s: State, env: Env, id: Hash, w: Address, a: Hash)
    requires ValidState(s)
    ensures var (s', r) := RecallSwap(s, env, id);
            && (r == Done <==> id in s.swaps && s.swaps[id].owner == env.sender) && (r != Done ==> s' == s)
            && (r == Done ==>
                  && s'.swaps == s.swaps - {id}
                  && var swap := s.swaps[id];
                  Balance(s', w, a) == Balance(s, w, a)
                    + if w == env.sender && swap.fromAsset != USAN_ASSET
                      then Plain(Leg(swap.fromAsset, swap.fromStart, swap.fromEnd, swap.minFrom * swap.size), a) else 0)
            && s'.assets == s.assets && s'.multiSwaps == s.multiSwaps && s'.tickets == s.tickets && SameNotations(s, s')
  {
    if RecallSwap(s, env, id).1 == Done {
      SwapIsGood(s, id);
      hide Receive, ValidState, Supply, Balance;
      DropSwapValid(s, id);
      var s1, swap := s.(swaps := s.swaps - {id}), s.swaps[id];
      BalanceDepends(s, s1, w, a);
      if swap.fromAsset != USAN_ASSET {
        FromLegPositive(swap, swap.size);
        ReceiveMeaning(s1, env.sender, FromLeg(swap, swap.size), env.time);
        ReceiveBalance(s1, env.sender, FromLeg(swap, swap.size), env.time, w, a);
      }
    }
  }

  /** The price of a part of an offer. */
  function PriceLeg(swap: Swap, n: int): Leg {
    Leg(swap.toAsset, swap.toStart, swap.toEnd, swap.minTo * n)
  }

  ghost predicate TakingAccepted(s: State, env: Env, id: Hash, n: int, ext: bool) {
    && id in s.swaps
    && var swap := s.swaps[id];
    && 0 < n <= swap.size && swap.fromEnd > env.time && swap.toEnd > env.time
    && (swap.fromAsset == USAN_ASSET ==> NotationOf(s, swap.owner) == swap.notation != 0)
    && CanPay(s, env.sender, PriceLeg(swap, n), env.time, ext)
  }

  lemma TakingIff(s: State, env: Env, id: Hash, n: int, ext: bool)
    requires ValidState(s) && env.time > 0
    ensures SwapIsTaken(s, env, id, n, ext) <==> TakingAccepted(s, env, id, n, ext)
  {
    if id in s.swaps && 0 < n {
      SwapIsGood(s, id);
      ProductPositive(s.swaps[id].minTo, n);
      hide ValidState, Prepare, CanPay;
      PrepareIff(s, env.sender, PriceLeg(s.swaps[id], n), env.time, ext);
    }
  }

  /** What is left of an offer of which n parts were taken. */
  ghost predicate PartTaken(swaps: map<Hash, Swap>, swaps': map<Hash, Swap>, id: Hash, n: int)
    requires id in swaps
  {
    if n == swaps[id].size then swaps' == swaps - {id}
    else
      && swaps'.Keys == swaps.Keys && swaps'[id] == swaps[id].(size := swaps[id].size - n)
      && forall k :: k in swaps && k != id ==> swaps'[k] == swaps[k]
  }

  /** When an offer is taken, what is left of it, and who had the number in it. */
  lemma TakeSwapDone(s: State, env: Env, id: Hash, n: int, ext: bool)
    requires ValidState(s) && env.time > 0
    ensures var (s', r) := TakeSwap(s, env, id, n, ext);
            && (r == Done <==> TakingAccepted(s, env, id, n, ext)) && (r != Done ==> s' == s)
            && (r == Done ==> PartTaken(s.swaps, s'.swaps, id, n))
            && (r == Done && s.swaps[id].fromAsset != USAN_ASSET ==> SameNotations(s, s'))
            && s'.assets == s.assets && s'.multiSwaps == s.multiSwaps && s'.tickets == s.tickets
  {
    TakenIsDone(s, env, id, n, ext);
    TakingIff(s, env, id, n, ext);
    hide Supply, Receive, TakeOut, Prepare, Affordable, ShrinkSwap, TransferNotation, CheckTakeSwap, Conserves,
      GoodNotations, TakingAccepted, PartTaken, ValidState;
    if SwapIsTaken(s, env, id, n, ext) {
      SwapIsGood(s, id);
      TakeChecked(n, s.swaps[id], env.time);
      TakenRecords(s, env, s.swaps[id], n, ext);
    }
  }

  lemma TakenRecords(s: State, env: Env, swap: Swap, n: int, ext: bool)
    requires ValidState(s) && env.time > 0 && GoodSwap(swap) && swap.id in s.swaps && s.swaps[swap.id] == swap
    requires 0 < n <= swap.size && Prepare(s, env.sender, ToLeg(swap, n), env.time, ext).Some?
    ensures var s3 := Paid(s, env, swap, n, ext);
            && PartTaken(s.swaps, s3.swaps, swap.id, n) && s3.assets == s.assets && s3.multiSwaps == s.multiSwaps
            && s3.tickets == s.tickets && SameNotations(s, s3)
            && SameRecords(s3, Receive(s3, env.sender, FromLeg(swap, n), env.time))
            && match TransferNotation(s3, swap.notation, swap.owner, env.sender)
               case None => true
               case Some(s4) => s4.swaps == s3.swaps && s4.assets == s3.assets && s4.multiSwaps == s3.multiSwaps
                                && s4.tickets == s3.tickets
  {
    hide Supply, Receive, TakeOut, Prepare, Affordable, ValidState, LegVal;
    var price := ToLeg(swap, n);
    FromLegPositive(swap, n);
    PrepareMeaning(s, env.sender, price, env.time, ext);
    var s1 := Prepare(s, env.sender, price, env.time, ext).value;
    ShrinkSwapMeaning(s1, swap, n);
    ShrinkKeepsAssets(s1, swap, n);
    var s2 := ShrinkSwap(s1, swap, n);
    AffordableDepends(s1, s2, env.sender, price, env.time);
    ExchangeMeaning(s2, swap.owner, env.sender, price, env.time);
    ReceiveMeaning(Paid(s, env, swap, n, ext), env.sender, FromLeg(swap, n), env.time);
  }

  /** The goods of a part of an offer. An offer of a number has none. */
  function GoodsLeg(swap: Swap, n: int): Leg {
    Leg(swap.fromAsset, swap.fromStart, swap.fromEnd, swap.minFrom * n)
  }

  /** The balances after a taking: the owner gets the plain part of the price, the taker that of the
      goods, and the taker pays from its balance what its time lock does not cover. */
  lemma TakeSwapBalance(s: State, env: Env, id: Hash, n: int, ext: bool, w: Address, a: Hash)
    requires ValidState(s) && env.time > 0 && TakingAccepted(s, env, id, n, ext)
    ensures var swap := s.swaps[id];
            var price := PriceLeg(swap, n);
            Balance(TakeSwap(s, env, id, n, ext).0, w, a) == Balance(s, w, a)
              + (if w == swap.owner then Plain(price, a) else 0) - FromBalance(s, env.sender, price, env.time, w, a)
              + if w == env.sender && swap.fromAsset != USAN_ASSET then Plain(GoodsLeg(swap, n), a) else 0
  {
    TakenIsDone(s, env, id, n, ext);
    TakingIff(s, env, id, n, ext);
    SwapIsGood(s, id);
    var swap := s.swaps[id];
    FromLegPositive(swap, n);
    hide Supply, Receive, TakeOut, Prepare, Affordable, ShrinkSwap, TransferNotation, CheckTakeSwap, GoodNotations,
      TakingAccepted, ValidState, Balance, Covered;
    PaidBalance(s, env, swap, n, ext, w, a);
    var s3 := Paid(s, env, swap, n, ext);
    ReceiveBalance(s3, env.sender, FromLeg(swap, n), env.time, w, a);
    NotationBalance(s3, swap.notation, swap.owner, env.sender, w, a);
  }

  lemma PaidBalance(s: State, env: Env, swap: Swap, n: int, ext: bool, w: Address, a: Hash)
    requires env.time > 0 && ToLeg(swap, n).total > 0 && Prepare(s, env.sender, ToLeg(swap, n), env.time, ext).Some?
    ensures var price := ToLeg(swap, n);
            Balance(Paid(s, env, swap, n, ext), w, a) == Balance(s, w, a)
              + (if w == swap.owner then Plain(price, a) else 0) - FromBalance(s, env.sender, price, env.time, w, a)
  {
    hide Receive, TakeOut, Prepare, ShrinkSwap, Balance, Covered;
    var price := ToLeg(swap, n);
    var s1 := Prepare(s, env.sender, price, env.time, ext).value;
    PrepareBalance(s, env.sender, price, env.time, ext, w, a);
    ShrinkKeepsAssets(s1, swap, n);
    var s2 := ShrinkSwap(s1, swap, n);
    BalanceDepends(s1, s2, w, a);
    ReceiveBalance(s2, swap.owner, price, env.time, w, a);
    TakeOutBalance(Receive(s2, swap.owner, price, env.time), env.sender, price, env.time, w, a);
  }

  lemma NotationBalance(s: State, notation: nat, from: Address, to: Address, w: Address, a: Hash)
    ensures match TransferNotation(s, notation, from, to)
            case None => true
            case Some(s') => Balance(s', w, a) == Balance(s, w, a)
  {
  }

  /** An offer and its taking, in the words of the offer: n parts can be taken while the intervals
      last, by whoever can pay n times what was asked for; that is what the maker gets, and the
      taker gets n times what was offered, or the maker's number. */
  lemma MakeThenTake(s: State, env: Env, q: MakeSwapParam, ext: bool, env': Env, n: int, ext': bool, w: Address,
                     a: Hash, t: int)
    requires ValidState(s) && 0 < env.time <= t && 0 < env'.time <= t <= FOREVER && SwapAccepted(s, env, q, ext)
    ensures var s1 := MakeSwap(s, env, q, ext).0;
            var (s2, r) := TakeSwap(s1, env', env.txHash, n, ext');
            var usan := q.fromAsset == USAN_ASSET;
            var price := LegVal(AskedLeg(q, n), a, t);
            var goods := if usan then 0 else LegVal(OfferedLeg(q, n), a, t);
            && (r == Done <==>
                  && 0 < n <= (if usan then 1 else q.size) && (usan ==> env'.time < FOREVER) && q.toEnd > env'.time
                  && (!usan ==> q.fromEnd > env'.time) && CanPay(s1, env'.sender, AskedLeg(q, n), env'.time, ext'))
            && (r != Done ==> s2 == s1)
            && (r == Done ==>
                  && Holding(s2, w, a, t) == Holding(s1, w, a, t)
                       + (if w == env.sender then price else 0) + (if w == env'.sender then goods - price else 0)
                  && (usan && env'.sender != env.sender ==>
                        NotationOf(s2, env'.sender) == NotationOf(s, env.sender) && NotationOf(s2, env.sender) == 0))
  {
    MakeSwapDone(s, env, q, ext);
    MakeSwapConserves(s, env, q, ext);
    var s1 := MakeSwap(s, env, q, ext).0;
    var swap := s1.swaps[env.txHash];
    hide MakeSwap, TakeSwap, SwapAccepted, ValidState, Supply, Conserves, LegVal, Holding, CanPay, TakingAccepted;
    TakeSwapDone(s1, env', env.txHash, n, ext');
    TakeSwapHolding(s1, env', env.txHash, n, ext', w, a, t);
    TakingIff(s1, env', env.txHash, n, ext');
    TakingOf(s, s1, env, q, ext, env', n, ext');
    assert PriceLeg(swap, n) == AskedLeg(q, n);
    if TakingAccepted(s1, env', env.txHash, n, ext') && q.fromAsset == USAN_ASSET {
      NumberHandedOver(s1, env', env.txHash, n, ext');
    }
  }

  lemma TakingOf(s: State, s1: State, env: Env, q: MakeSwapParam, ext: bool, env': Env, n: int, ext': bool)
    requires env.txHash in s1.swaps && Records(s1.swaps[env.txHash], s, env, q) && SameNotations(s, s1)
    requires SwapAccepted(s, env, q, ext)
    ensures var usan := q.fromAsset == USAN_ASSET;
            TakingAccepted(s1, env', env.txHash, n, ext') <==>
              && 0 < n <= (if usan then 1 else q.size) && (usan ==> env'.time < FOREVER) && q.toEnd > env'.time
              && (!usan ==> q.fromEnd > env'.time) && CanPay(s1, env'.sender, AskedLeg(q, n), env'.time, ext')
  {
    hide CanPay;
  }

  // ---------- Several legs ----------

  /** Legs are paid in turn: each must be payable from what the ones before it left. */
  lemma {:induction false} PayAllIff(s: State, who: Address, legs: seq<Leg>, time: Instant)
    requires AllPositive(legs) && time > 0
    ensures PayAll(s, who, legs, time).Some? <==>
      forall k :: 0 <= k < |legs| ==>
        && PayAll(s, who, legs[..k], time).Some?
        && CanPay(PayAll(s, who, legs[..k], time).value, who, legs[k], time, true)
  {
    hide CanPay, Prepare, TakeOut;
    if legs != [] {
      var n := |legs| - 1;
      var front, last := legs[..n], legs[n];
      PayAllIff(s, who, front, time);
      forall k | 0 <= k < n ensures front[..k] == legs[..k] && front[k] == legs[k] {
      }
      if PayAll(s, who, front, time).Some? {
        PrepareIff(PayAll(s, who, front, time).value, who, last, time, true);
      }
    }
  }

  /** What the balance pays for legs paid in turn. */
  ghost function AllFromBalance(s: State, who: Address, legs: seq<Leg>, time: Instant, w: Address, a: Hash): int {
    if legs == [] then 0
    else
      var front, last := legs[..|legs| - 1], legs[|legs| - 1];
      AllFromBalance(s, who, front, time, w, a) +
      match PayAll(s, who, front, time)
      case None => 0
      case Some(s') => FromBalance(s', who, last, time, w, a)
  }

  lemma {:induction false} PayAllBalance(s: State, who: Address, legs: seq<Leg>, time: Instant, w: Address, a: Hash)
    requires AllPositive(legs) && time > 0 && PayAll(s, who, legs, time).Some?
    ensures Balance(PayAll(s, who, legs, time).value, w, a) ==
      Balance(s, w, a) - AllFromBalance(s, who, legs, time, w, a)
  {
    hide Pay, Balance, FromBalance;
    if legs != [] {
      var front, last := legs[..|legs| - 1], legs[|legs| - 1];
      PayAllBalance(s, who, front, time, w, a);
      PayBalance(PayAll(s, who, front, time).value, who, last, time, true, w, a);
    }
  }

  function AllPlain(legs: seq<Leg>, a: Hash): int {
    if legs == [] then 0 else AllPlain(legs[..|legs| - 1], a) + Plain(legs[|legs| - 1], a)
  }

  lemma {:induction false} ReceiveAllBalance(s: State, who: Address, legs: seq<Leg>, time: Instant, w: Address, a: Hash)
    ensures Balance(ReceiveAll(s, who, legs, time), w, a) ==
      Balance(s, w, a) + if w == who then AllPlain(legs, a) else 0
  {
    hide Receive, Balance, Plain;
    if legs != [] {
      var front, last := legs[..|legs| - 1], legs[|legs| - 1];
      ReceiveAllBalance(s, who, front, time, w, a);
      ReceiveBalance(ReceiveAll(s, who, front, time), who, last, time, w, a);
    }
  }

  // ---------- Multi swaps ----------

  predicate GoodSide(asset: seq<Hash>, start: seq<Instant>, end: seq<Instant>, min: seq<int>, time: Instant) {
    && |asset| == |start| == |end| == |min| && |asset| > 0
    && forall k :: 0 <= k < |asset| ==> min[k] > 0 && start[k] <= end[k] && end[k] > time
  }

  predicate GoodSides(p: MakeMultiSwapParam, time: Instant) {
    && GoodSide(p.fromAsset, p.fromStart, p.fromEnd, p.minFrom, time)
    && GoodSide(p.toAsset, p.toStart, p.toEnd, p.minTo, time)
  }

  function OfferedLegs(p: MakeMultiSwapParam, n: int): seq<Leg>
    requires |p.fromAsset| == |p.fromStart| == |p.fromEnd| == |p.minFrom|
  {
    seq(|p.fromAsset|, k requires 0 <= k < |p.fromAsset| =>
      Leg(p.fromAsset[k], p.fromStart[k], p.fromEnd[k], p.minFrom[k] * n))
  }

  function AskedLegs(p: MakeMultiSwapParam, n: int): seq<Leg>
    requires |p.toAsset| == |p.toStart| == |p.toEnd| == |p.minTo|
  {
    seq(|p.toAsset|, k requires 0 <= k < |p.toAsset| =>
      Leg(p.toAsset[k], p.toStart[k], p.toEnd[k], p.minTo[k] * n))
  }

  /** The parameters of an offer are accepted: no short account numbers, and only known assets. */
  predicate MultiWellFormed(s: State, env: Env, p: MakeMultiSwapParam) {
    && env.txHash !in s.swaps && GoodSides(p, env.time) && p.size > 0 && |p.description| <= 1024
    && (forall k :: 0 <= k < |p.fromAsset| ==> p.fromAsset[k] != USAN_ASSET)
    && (forall k :: 0 <= k < |p.toAsset| ==> p.toAsset[k] != USAN_ASSET && p.toAsset[k] in s.assets)
  }

  lemma CheckMakeMultiIff(p: MakeMultiSwapParam, time: Instant)
    ensures CheckMakeMultiSwap(p, time) <==> GoodSides(p, time) && p.size > 0 && |p.description| <= 1024
  {
    if GoodSides(p, time) && p.size > 0 {
      forall k | 0 <= k < |p.minFrom| ensures p.minFrom[k] * p.size > 0 {
        ProductPositive(p.minFrom[k], p.size);
      }
      forall k | 0 <= k < |p.minTo| ensures p.minTo[k] * p.size > 0 {
        ProductPositive(p.minTo[k], p.size);
      }
    }
  }

  lemma {:induction false} ToAssetsIff(s: State, assets: seq<Hash>)
    ensures ToAssetsError(s, assets).None? <==>
      forall k :: 0 <= k < |assets| ==> assets[k] != USAN_ASSET && assets[k] in s.assets
  {
    if assets != [] {
      ToAssetsIff(s, assets[1..]);
      assert forall k :: 0 < k < |assets| ==> assets[k] == assets[1..][k - 1];
      assert forall k :: 0 <= k < |assets| - 1 ==> assets[1..][k] == assets[k + 1];
    }
  }

  lemma MultiPaidIff(s: State, env: Env, p: MakeMultiSwapParam)
    ensures MultiSwapPaid(s, env, p) <==>
      MultiWellFormed(s, env, p) && PayAll(s, env.sender, OfferedLegs(p, p.size), env.time).Some?
    ensures MultiWellFormed(s, env, p) ==> FromLegs(NewMultiSwap(s, env, p), p.size) == OfferedLegs(p, p.size)
  {
    CheckMakeMultiIff(p, env.time);
    ToAssetsIff(s, p.toAsset);
    hide PayAll, CheckMakeMultiSwap, ToAssetsError;
    if CheckMakeMultiSwap(p, env.time) {
      assert FromLegs(NewMultiSwap(s, env, p), p.size) == OfferedLegs(p, p.size);
    }
  }

  /** The record of a multi swap is what was offered and asked for. */
  ghost predicate MultiRecords(swap: MultiSwap, s: State, env: Env, p: MakeMultiSwapParam) {
    && swap.id == env.txHash && swap.owner == env.sender && swap.notation == NotationOf(s, env.sender)
    && swap.fromAsset == p.fromAsset && swap.fromStart == p.fromStart && swap.fromEnd == p.fromEnd
    && swap.minFrom == p.minFrom && swap.toAsset == p.toAsset && swap.toStart == p.toStart && swap.toEnd == p.toEnd
    && swap.minTo == p.minTo && swap.size == p.size && swap.targets == p.targets && swap.time == p.time
    && swap.description == p.description
  }

  /** When a multi swap is made and what is recorded. Under the identifier of another one it is paid
      for and not recorded. */
  lemma MakeMultiSwapDone(s: State, env: Env, p: MakeMultiSwapParam)
    requires ValidState(s) && env.time > 0
    ensures var (s', r) := MakeMultiSwap(s, env, p);
            var paid := MultiWellFormed(s, env, p) && PayAll(s, env.sender, OfferedLegs(p, p.size), env.time).Some?;
            && (r == Done <==> paid && env.txHash !in s.multiSwaps)
            && (!paid ==> s' == s)
            && (paid && r != Done ==>
                  s' == PayAll(s, env.sender, OfferedLegs(p, p.size), env.time).value && s'.multiSwaps == s.multiSwaps)
            && (r == Done ==>
                  && s'.multiSwaps.Keys == s.multiSwaps.Keys + {env.txHash}
                  && (forall id :: id in s.multiSwaps ==> s'.multiSwaps[id] == s.multiSwaps[id])
                  && MultiRecords(s'.multiSwaps[env.txHash], s, env, p))
            && s'.assets == s.assets && s'.swaps == s.swaps && s'.tickets == s.tickets && SameNotations(s, s')
  {
    MultiPaidIff(s, env, p);
    hide PayAll, CheckMakeMultiSwap, ToAssetsError, MultiWellFormed, ValidState, Supply, LegsVal, OfferedLegs;
    if MultiSwapPaid(s, env, p) {
      CheckedMultiIsGood(s, env, p);
      MultiLegsPositive(NewMultiSwap(s, env, p), p.size);
      PayAllMeaning(s, env.sender, OfferedLegs(p, p.size), env.time);
    }
  }

  lemma MakeMultiSwapPays(s: State, env: Env, p: MakeMultiSwapParam, w: Address, a: Hash, t: int)
    requires ValidState(s) && 0 < env.time <= t <= FOREVER && MultiWellFormed(s, env, p)
    requires PayAll(s, env.sender, OfferedLegs(p, p.size), env.time).Some?
    ensures var s' := MakeMultiSwap(s, env, p).0;
            var legs := OfferedLegs(p, p.size);
            && Holding(s', w, a, t) == Holding(s, w, a, t) - (if w == env.sender then LegsVal(legs, a, t) else 0)
            && Balance(s', w, a) == Balance(s, w, a) - AllFromBalance(s, env.sender, legs, env.time, w, a)
  {
    MultiPaidIff(s, env, p);
    MakeMultiSwapHolding(s, env, p, w, a, t);
    var swap, legs := NewMultiSwap(s, env, p), OfferedLegs(p, p.size);
    hide PayAll, CheckMakeMultiSwap, ToAssetsError, MultiWellFormed, ValidState, LegsVal, AllFromBalance, Balance,
      Holding, OfferedLegs;
    CheckedMultiIsGood(s, env, p);
    SameLengthsOf(swap);
    MultiLegsPositive(swap, p.size);
    PayAllBalance(s, env.sender, legs, env.time, w, a);
    BalanceDepends(PayAll(s, env.sender, legs, env.time).value, MakeMultiSwap(s, env, p).0, w, a);
  }

  /** The owner, and nobody else, can always recall a multi swap, which then is gone. */
  lemma RecallMultiSwapDone(s: State, env: Env, id: Hash, w: Address, a: Hash)
    requires ValidState(s)
    ensures var (s', r) := RecallMultiSwap(s, env, id);
            && (r == Done <==> id in s.multiSwaps && s.multiSwaps[id].owner == env.sender) && (r != Done ==> s' == s)
            && (r == Done ==>
                  && SameLengths(s.multiSwaps[id]) && s'.multiSwaps == s.multiSwaps - {id}
                  && Balance(s', w, a) == Balance(s, w, a)
                       + if w == env.sender then AllPlain(FromLegs(s.multiSwaps[id], s.multiSwaps[id].size), a) else 0)
            && s'.assets == s.assets && s'.swaps == s.swaps && s'.tickets == s.tickets && SameNotations(s, s')
  {
    if id in s.multiSwaps && s.multiSwaps[id].owner == env.sender {
      MultiSwapIsGood(s, id);
      hide ReceiveAll, ValidState, Supply, LegsVal, Balance;
      var s1, swap := s.(multiSwaps := s.multiSwaps - {id}), s.multiSwaps[id];
      DropMultiValid(s, id);
      MultiLegsPositive(swap, swap.size);
      BalanceDepends(s, s1, w, a);
      ReceiveAllMeaning(s1, env.sender, FromLegs(swap, swap.size), env.time);
      ReceiveAllBalance(s1, env.sender, FromLegs(swap, swap.size), env.time, w, a);
    }
  }

  /** The checks of a taking, before the prices are written into their table. */
  predicate MultiTakable(s: State, env: Env, id: Hash, n: int) {
    && id in s.multiSwaps
    && var swap := s.multiSwaps[id];
    && 0 < n <= swap.size
    && (forall k :: 0 <= k < |swap.fromEnd| ==> swap.fromEnd[k] > env.time)
    && (forall k :: 0 <= k < |swap.toEnd| ==> swap.toEnd[k] > env.time)
  }

  ghost predicate MultiPartTaken(swaps: map<Hash, MultiSwap>, swaps': map<Hash, MultiSwap>, id: Hash, n: int)
    requires id in swaps
  {
    if n == swaps[id].size then swaps' == swaps - {id}
    else
      && swaps'.Keys == swaps.Keys && swaps'[id] == swaps[id].(size := swaps[id].size - n)
      && forall k :: k in swaps && k != id ==> swaps'[k] == swaps[k]
  }

  ghost predicate MultiTakingAccepted(s: State, env: Env, id: Hash, n: int) {
    && MultiTakable(s, env, id, n) && SameLengths(s.multiSwaps[id]) && !PriceOutOfRange(s.multiSwaps[id])
    && PayAll(s, env.sender, ToLegs(s.multiSwaps[id], n), env.time).Some?
  }

  /** When a multi swap is taken, when the program crashes, and what is left of the offer. */
  lemma TakeMultiSwapDone(s: State, env: Env, id: Hash, n: int)
    requires ValidState(s) && env.time > 0
    ensures var (s', r) := TakeMultiSwap(s, env, id, n);
            && (r == Done <==> MultiTakingAccepted(s, env, id, n)) && (r != Done ==> s' == s)
            && (id in s.multiSwaps ==> SameLengths(s.multiSwaps[id]))
            && (r == Crashed <==> MultiTakable(s, env, id, n) && PriceOutOfRange(s.multiSwaps[id]))
            && (r == Done ==> MultiPartTaken(s.multiSwaps, s'.multiSwaps, id, n))
            && s'.assets == s.assets && s'.swaps == s.swaps && s'.tickets == s.tickets && SameNotations(s, s')
  {
    if id in s.multiSwaps {
      MultiSwapIsGood(s, id);
      var swap := s.multiSwaps[id];
      TableFits(swap, n, env.time);
      assert CheckTakeMultiSwap(n, swap, env.time) <==> MultiTakable(s, env, id, n);
      hide PayAll, ReceiveAll, ValidState, Supply, LegsVal, FillTable, PriceOutOfRange, CheckTakeMultiSwap;
      if MultiTakingAccepted(s, env, id, n) {
        TakenMultiRecords(s, env, swap, n);
      }
    }
  }

  lemma TakenMultiRecords(s: State, env: Env, swap: MultiSwap, n: int)
    requires ValidState(s) && env.time > 0 && GoodMultiSwap(swap) && swap.id in s.multiSwaps
    requires s.multiSwaps[swap.id] == swap && 0 < n <= swap.size
    requires PayAll(s, env.sender, ToLegs(swap, n), env.time).Some?
    ensures var s1 := PayAll(s, env.sender, ToLegs(swap, n), env.time).value;
            var s2 := ReceiveAll(ShrinkMultiSwap(s1, swap, n), swap.owner, ToLegs(swap, n), env.time);
            var s3 := ReceiveAll(s2, env.sender, FromLegs(swap, n), env.time);
            && MultiPartTaken(s.multiSwaps, s3.multiSwaps, swap.id, n) && s3.assets == s.assets
            && s3.swaps == s.swaps && s3.tickets == s.tickets && SameNotations(s, s3)
  {
    hide PayAll, ReceiveAll, ValidState, Supply, LegsVal, MultiPartTaken;
    var price := ToLegs(swap, n);
    MultiLegsPositive(swap, n);
    PayAllMeaning(s, env.sender, price, env.time);
    var s1 := PayAll(s, env.sender, price, env.time).value;
    ShrinkMultiMeaning(s1, swap, n);
    ShrinkMultiRecords(s1, swap, n);
    var s2 := ShrinkMultiSwap(s1, swap, n);
    hide ShrinkMultiSwap, GoodMultiSwap, ToLegs, FromLegs;
    ReceiveAllMeaning(s2, swap.owner, price, env.time);
    ReceiveAllMeaning(ReceiveAll(s2, swap.owner, price, env.time), env.sender, FromLegs(swap, n), env.time);
  }

  lemma ShrinkMultiRecords(s: State, swap: MultiSwap, n: int)
    requires swap.id in s.multiSwaps && s.multiSwaps[swap.id] == swap
    ensures var s' := ShrinkMultiSwap(s, swap, n);
            && MultiPartTaken(s.multiSwaps, s'.multiSwaps, swap.id, n) && s'.assets == s.assets && s'.swaps == s.swaps
            && s'.tickets == s.tickets && SameNotations(s, s')
  {
    if swap.size == n {
    } else {
      var rest := swap.(size := swap.size - n);
      assert ShrinkMultiSwap(s, swap, n).multiSwaps == s.multiSwaps[swap.id := rest];
    }
  }

  lemma TakeMultiSwapBalance(s: State, env: Env, id: Hash, n: int, w: Address, a: Hash)
    requires ValidState(s) && env.time > 0 && MultiTakingAccepted(s, env, id, n)
    ensures var swap := s.multiSwaps[id];
            Balance(TakeMultiSwap(s, env, id, n).0, w, a) == Balance(s, w, a)
              + (if w == swap.owner then AllPlain(ToLegs(swap, n), a) else 0)
              - AllFromBalance(s, env.sender, ToLegs(swap, n), env.time, w, a)
              + if w == env.sender then AllPlain(FromLegs(swap, n), a) else 0
  {
    TakeMultiSwapDone(s, env, id, n);
    MultiSwapIsGood(s, id);
    var swap := s.multiSwaps[id];
    var price := ToLegs(swap, n);
    MultiLegsPositive(swap, n);
    hide PayAll, ReceiveAll, ValidState, FillTable, PriceOutOfRange, CheckTakeMultiSwap, Balance, AllPlain,
      AllFromBalance, MultiPartTaken, MultiTakable;
    PayAllBalance(s, env.sender, price, env.time, w, a);
    var s1 := PayAll(s, env.sender, price, env.time).value;
    var s2 := ShrinkMultiSwap(s1, swap, n);
    BalanceDepends(s1, s2, w, a);
    hide ShrinkMultiSwap;
    ReceiveAllBalance(s2, swap.owner, price, env.time, w, a);
    ReceiveAllBalance(ReceiveAll(s2, swap.owner, price, env.time), env.sender, FromLegs(swap, n), env.time, w, a);
  }

  predicate PriceBeyondTable(p: MakeMultiSwapParam)
    requires |p.toAsset| == |p.toStart| == |p.toEnd| == |p.minTo|
  {
    exists k :: |p.fromAsset| <= k < |p.toAsset| && !(p.toStart[k] == 0 && p.toEnd[k] == FOREVER)
  }

  /** An offer of several assets and its taking, in the words of the offer. */
  lemma MakeThenTakeMulti(s: State, env: Env, p: MakeMultiSwapParam, env': Env, n: int, w: Address, a: Hash, t: int)
    requires ValidState(s) && 0 < env.time <= t && 0 < env'.time <= t <= FOREVER
    requires MultiWellFormed(s, env, p) && env.txHash !in s.multiSwaps
    requires PayAll(s, env.sender, OfferedLegs(p, p.size), env.time).Some?
    ensures var s1 := MakeMultiSwap(s, env, p).0;
            var (s2, r) := TakeMultiSwap(s1, env', env.txHash, n);
            var price, goods := LegsVal(AskedLegs(p, n), a, t), LegsVal(OfferedLegs(p, n), a, t);
            && (r == Done <==>
                  && 0 < n <= p.size && (forall k :: 0 <= k < |p.fromEnd| ==> p.fromEnd[k] > env'.time)
                  && (forall k :: 0 <= k < |p.toEnd| ==> p.toEnd[k] > env'.time)
                  && !PriceBeyondTable(p) && PayAll(s1, env'.sender, AskedLegs(p, n), env'.time).Some?)
            && (r != Done ==> s2 == s1)
            && (r == Done ==>
                  Holding(s2, w, a, t) == Holding(s1, w, a, t)
                    + (if w == env.sender then price else 0) + (if w == env'.sender then goods - price else 0))
  {
    MakeMultiSwapDone(s, env, p);
    MakeMultiSwapConserves(s, env, p);
    var s1 := MakeMultiSwap(s, env, p).0;
    var swap := s1.multiSwaps[env.txHash];
    LegsOf(swap, s, env, p, n);
    TakableOf(s, s1, env, p, env', n);
    hide MultiRecords, MultiTakable, MakeMultiSwap, TakeMultiSwap, ValidState, Supply, Conserves, LegsVal, Holding,
      PayAll, MultiPartTaken, PriceOutOfRange, PriceBeyondTable, OfferedLegs, AskedLegs, ToLegs, FromLegs,
      MultiWellFormed, SameNotations;
    TakeMultiSwapDone(s1, env', env.txHash, n);
    TakeMultiSwapHolding(s1, env', env.txHash, n, w, a, t);
  }

  lemma TakableOf(s: State, s1: State, env: Env, p: MakeMultiSwapParam, env': Env, n: int)
    requires env.txHash in s1.multiSwaps && MultiRecords(s1.multiSwaps[env.txHash], s, env, p)
    ensures s1.multiSwaps[env.txHash].owner == env.sender
    ensures MultiTakable(s1, env', env.txHash, n) <==>
      && 0 < n <= p.size && (forall k :: 0 <= k < |p.fromEnd| ==> p.fromEnd[k] > env'.time)
      && (forall k :: 0 <= k < |p.toEnd| ==> p.toEnd[k] > env'.time)
  {
  }

  lemma LegsOf(swap: MultiSwap, s: State, env: Env, p: MakeMultiSwapParam, n: int)
    requires MultiRecords(swap, s, env, p) && GoodSides(p, env.time)
    ensures SameLengths(swap) && ToLegs(swap, n) == AskedLegs(p, n) && FromLegs(swap, n) == OfferedLegs(p, n)
    ensures PriceOutOfRange(swap) <==> PriceBeyondTable(p)
  {
  }

  // ---------- Short account numbers ----------

  /** An account without a number gets the next one, which nobody had. */
  lemma GenNotationDone(s: State, env: Env)
    requires ValidState(s)
    ensures var (s', r) := GenNotation(s, env);
            && (r == Done <==> NotationOf(s, env.sender) == 0) && (r != Done ==> s' == s)
            && (r == Done ==>
                  var n := NotationOf(s', env.sender);
                  && n == Display(s.notationCount + 1) && n !in s.notationOwners && n != 0
                  && s'.notationOwners.Keys == s.notationOwners.Keys + {n} && s'.notationOwners[n] == env.sender
                  && (forall k :: k in s.notationOwners ==> s'.notationOwners[k] == s.notationOwners[k])
                  && s'.notationCount == s.notationCount + 1)
            && (forall w :: w != env.sender ==> NotationOf(s', w) == NotationOf(s, w))
            && s'.balances == s.balances && s'.locks == s.locks && s'.assets == s.assets && s'.swaps == s.swaps
            && s'.multiSwaps == s.multiSwaps && s'.tickets == s.tickets
  {
    hide Display;
    GenKeepsNotations(s, env);
  }

  // ---------- Every call ----------

  ghost predicate MultiAccepted(s: State, env: Env, p: MakeMultiSwapParam) {
    MultiWellFormed(s, env, p) && PayAll(s, env.sender, OfferedLegs(p, p.size), env.time).Some?
  }

  /** When a call is done. */
  ghost predicate CallAccepted(s: State, env: Env, call: Call) {
    match call
    case GenAssetCall(p) =>
      && 0 < |p.name| <= 128 && 0 < |p.symbol| <= 64 && |p.description| <= 1024
      && p.total >= 0 && p.decimals <= 18 && env.txHash !in s.assets
    case SendAssetCall(p) =>
      && p.value > 0 && p.to != ZERO_ADDRESS && p.asset != ZERO_HASH && Balance(s, env.sender, p.asset) >= p.value
    case TimeLockCall(p) => TimeLockAccepted(s, env, p)
    case BuyTicketCall(p) => TicketAccepted(s, env, p)
    case ValueChangeCall(p) =>
      && p.value > 0 && |p.data| <= 256 && p.asset in s.assets
      && s.assets[p.asset].canChange && s.assets[p.asset].owner == env.sender
      && (p.isInc || (p.to == env.sender && Balance(s, p.to, p.asset) >= p.value))
    case MakeSwapCall(p, ext) => SwapAccepted(s, env, p, ext)
    case RecallSwapCall(id) => id in s.swaps && s.swaps[id].owner == env.sender
    case TakeSwapCall(id, n, ext) => TakingAccepted(s, env, id, n, ext)
    case MakeMultiSwapCall(p) => MultiAccepted(s, env, p) && env.txHash !in s.multiSwaps
    case RecallMultiSwapCall(id) => id in s.multiSwaps && s.multiSwaps[id].owner == env.sender
    case TakeMultiSwapCall(id, n) => MultiTakingAccepted(s, env, id, n)
    case GenNotationCall => NotationOf(s, env.sender) == 0
    case UnsupportedCall => false
  }

  /** The import of a block swallows the errors of calls and reverts nothing. Still every call that is
      not done leaves the ledger as it was, except for a multi swap under the identifier of another. */
  lemma FailedKeeps(s: State, env: Env, call: Call)
    requires ValidState(s) && env.time > 0
    ensures Step(s, env, call).1 == Done <==> CallAccepted(s, env, call)
    ensures Step(s, env, call).1 != Done
            && !(call.MakeMultiSwapCall? && MultiAccepted(s, env, call.makeMulti) && env.txHash in s.multiSwaps) ==>
      Step(s, env, call).0 == s
  {
    hide ValidState, GenAsset, SendAsset, TimeLockStep, BuyTicket, ValueChange, MakeSwap, RecallSwap, TakeSwap,
      MakeMultiSwap, RecallMultiSwap, TakeMultiSwap, GenNotation, TimeLockAccepted, TicketAccepted, SwapAccepted,
      TakingAccepted, MultiTakingAccepted, MultiWellFormed, PayAll, OfferedLegs, Records, MultiRecords, PartTaken,
      MultiPartTaken, Balance, SameNotations, Plain, AllPlain;
    match call
    case GenAssetCall(p) => GenAssetDone(s, env, p, 0, 0);
    case SendAssetCall(p) => SendAssetDone(s, env, p, 0, 0);
    case TimeLockCall(p) => TimeLockIff(s, env, p);
    case BuyTicketCall(p) => BuyTicketDone(s, env, p);
    case ValueChangeCall(p) => ValueChangeDone(s, env, p, 0, 0);
    case MakeSwapCall(p, ext) => MakeSwapDone(s, env, p, ext);
    case RecallSwapCall(id) => RecallSwapDone(s, env, id, 0, 0);
    case TakeSwapCall(id, n, ext) => TakeSwapDone(s, env, id, n, ext);
    case MakeMultiSwapCall(p) => MakeMultiSwapDone(s, env, p);
    case RecallMultiSwapCall(id) => RecallMultiSwapDone(s, env, id, 0, 0);
    case TakeMultiSwapCall(id, n) => TakeMultiSwapDone(s, env, id, n);
    case GenNotationCall => GenNotationDone(s, env);
    case UnsupportedCall =>
  }
}
