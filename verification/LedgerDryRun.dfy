/** Multi swaps are checked on copies of the payer's balances before anything is taken. The copies
    keep expired time locks and the ledger drops them; both passes still decide alike. */
module LedgerDryRun {
  import opened TimeLockItems
  import opened TimeLockAlgebra
  import opened TimeLockOps
  import opened FsnTypes
  import opened LedgerState
  import opened LedgerCalls
  import opened LedgerConservation

  /** Copies of one account's balances and time locks, by asset. */
  datatype Wallet = Wallet(balances: map<Hash, int>, locks: map<Hash, seq<Item>>)

  function CopyOfBalance(w: Wallet, a: Hash): int {
    if a in w.balances then w.balances[a] else 0
  }

  function CopyOfLock(w: Wallet, a: Hash): seq<Item> {
    if a in w.locks then w.locks[a] else []
  }

  function WithBalance(w: Wallet, a: Hash, amount: int): Wallet {
    w.(balances := w.balances[a := amount])
  }

  function WithLock(w: Wallet, a: Hash, lock: seq<Item>): Wallet {
    w.(locks := w.locks[a := lock])
  }

  /** One leg of the dry run. */
  ghost function TryLeg(w: Wallet, leg: Leg, time: Instant): Option<Wallet> {
    var balance, lock, need := CopyOfBalance(w, leg.asset), CopyOfLock(w, leg.asset), Need(leg, time);
    if UsesAsset(leg) then
      if balance < leg.total then None else Some(WithBalance(w, leg.asset, balance - leg.total))
    else if !ValidItem(need) then Some(w)
    else if Enough(lock, need) then Some(WithLock(w, leg.asset, Minus(lock, need)))
    else if balance < leg.total then None
    else Some(WithLock(WithBalance(w, leg.asset, balance - leg.total), leg.asset,
                       Minus(Plus(lock, [Lifelong(time, leg.total)]), need)))
  }

  ghost function TryAll(w: Wallet, legs: seq<Leg>, time: Instant): Option<Wallet> {
    if legs == [] then Some(w)
    else
      match TryAll(w, legs[..|legs| - 1], time)
      case None => None
      case Some(w') => TryLeg(w', legs[|legs| - 1], time)
  }

  /** Two time locks agree from the given time on. */
  ghost predicate AgreeFrom(x: seq<Item>, y: seq<Item>, time: Instant) {
    forall t: int :: t >= time ==> Val(x, t) == Val(y, t)
  }

  /** The copies of asset a show what the ledger holds, as far as the present and future go. */
  ghost predicate Copies(w: Wallet, s: State, who: Address, time: Instant, a: Hash) {
    && CopyOfBalance(w, a) == Balance(s, who, a)
    && Normal(CopyOfLock(w, a)) && AgreeFrom(CopyOfLock(w, a), Lock(s, who, a), time)
  }

  ghost predicate Mirrors(w: Wallet, s: State, who: Address, time: Instant, assets: set<Hash>) {
    forall a :: a in assets ==> Copies(w, s, who, time, a)
  }

  /** An interval in the present or future is covered by both or by neither. */
  lemma AgreeEnough(x: seq<Item>, y: seq<Item>, z: Item, time: Instant)
    requires AgreeFrom(x, y, time) && z.start >= time > 0
    ensures Enough(x, z) <==> Enough(y, z)
  {
    forall t: int | z.start <= t <= z.end ensures Val(x, t) == Val(y, t) {
    }
  }

  lemma AgreeMinus(x: seq<Item>, y: seq<Item>, z: Item, time: Instant)
    requires Normal(x) && Normal(y) && AgreeFrom(x, y, time) && Enough(x, z) && Enough(y, z)
    ensures Normal(Minus(x, z)) && AgreeFrom(Minus(x, z), Unexpired(Minus(y, z), time), time)
  {
    MinusMeaning(x, z);
    MinusMeaning(y, z);
    UnexpiredMeaning(Minus(y, z), time);
  }

  lemma AgreePlus(x: seq<Item>, y: seq<Item>, z: Item, time: Instant)
    requires Normal(x) && Normal(y) && AgreeFrom(x, y, time) && ValidItem(z)
    ensures Normal(Plus(x, [z])) && Normal(Unexpired(Plus(y, [z]), time))
    ensures AgreeFrom(Plus(x, [z]), Unexpired(Plus(y, [z]), time), time)
  {
    PlusMeaning(x, [z]);
    PlusMeaning(y, [z]);
    UnexpiredMeaning(Plus(y, [z]), time);
  }

  /** A leg of asset b leaves the copies of asset a in step with the ledger. */
  lemma TryLegAgrees(w: Wallet, s: State, who: Address, leg: Leg, time: Instant, a: Hash)
    requires ValidState(s) && leg.total > 0 && time > 0
    requires Copies(w, s, who, time, leg.asset) && Copies(w, s, who, time, a)
    ensures TryLeg(w, leg, time).Some? <==> Pay(s, who, leg, time, true).Some?
    ensures TryLeg(w, leg, time).Some? ==>
      Copies(TryLeg(w, leg, time).value, Pay(s, who, leg, time, true).value, who, time, a)
  {
    hide Val, Minus, Plus, Unexpired, Enough, ValidState, Normal, AgreeFrom, Lock, Balance, Credit, AddLock, SubLock;
    var need, x, y := Need(leg, time), CopyOfLock(w, leg.asset), Lock(s, who, leg.asset);
    NormalLock(s, who, leg.asset);
    if UsesAsset(leg) {
      ReadCredit(s, who, leg.asset, -leg.total, who, a);
    } else if !ValidItem(need) {
    } else {
      AgreeEnough(x, y, need, time);
      if Enough(x, need) {
        AgreeMinus(x, y, need, time);
        ReadSubLock(s, who, leg.asset, need, time, who, a);
      } else if CopyOfBalance(w, leg.asset) >= leg.total {
        TryConvert(x, y, leg.total, need, time);
        PayConverted(s, who, leg, time, a);
      }
    }
  }

  /** Paying a time-locked leg out of the balance. */
  lemma PayConverted(s: State, who: Address, leg: Leg, time: Instant, a: Hash)
    requires !UsesAsset(leg) && ValidItem(Need(leg, time)) && !Enough(Lock(s, who, leg.asset), Need(leg, time))
    requires Balance(s, who, leg.asset) >= leg.total
    ensures Pay(s, who, leg, time, true).Some?
    ensures var s' := Pay(s, who, leg, time, true).value;
            var y' := Unexpired(Plus(Lock(s, who, leg.asset), [Lifelong(time, leg.total)]), time);
            && Balance(s', who, a) == Balance(s, who, a) - (if a == leg.asset then leg.total else 0)
            && Lock(s', who, a) ==
                 if a == leg.asset then Unexpired(Minus(y', Need(leg, time)), time) else Lock(s, who, a)
  {
    hide Val, Minus, Plus, Unexpired, Enough, Lock, Balance, Credit, AddLock, SubLock, Need, Lifelong;
    var asset := leg.asset;
    var s1 := Debit(s, who, asset, leg.total);
    var s2 := AddLock(s1, who, asset, [Lifelong(time, leg.total)], time);
    ReadCredit(s, who, asset, -leg.total, who, a);
    ReadCredit(s, who, asset, -leg.total, who, asset);
    ReadAddLock(s1, who, asset, [Lifelong(time, leg.total)], time, who, a);
    ReadAddLock(s1, who, asset, [Lifelong(time, leg.total)], time, who, asset);
    ReadSubLock(s2, who, asset, Need(leg, time), time, who, a);
  }

  lemma TryConvert(x: seq<Item>, y: seq<Item>, total: int, need: Item, time: Instant)
    requires Normal(x) && Normal(y) && AgreeFrom(x, y, time) && total > 0
    requires 0 < time <= need.start <= need.end && need.value == total
    ensures var whole := Lifelong(time, total);
            var x', y' := Plus(x, [whole]), Unexpired(Plus(y, [whole]), time);
            && Normal(x') && Enough(x', need) && Enough(y', need)
            && Normal(Minus(x', need)) && AgreeFrom(Minus(x', need), Unexpired(Minus(y', need), time), time)
  {
    hide Val, Minus, Plus, Unexpired, Enough, Normal, AgreeFrom;
    var whole := Lifelong(time, total);
    var x', y' := Plus(x, [whole]), Unexpired(Plus(y, [whole]), time);
    AgreePlus(x, y, whole, time);
    LifelongEnough(y, total, need, time);
    AgreeEnough(x', y', need, time);
    AgreeMinus(x', y', need, time);
  }

  /** The dry run over the copies succeeds exactly when paying out of the ledger does, leg by leg
      and for any number of legs of the same asset. */
  lemma {:induction false} DryRunDecides(w: Wallet, s: State, who: Address, legs: seq<Leg>, time: Instant,
                                         assets: set<Hash>)
    requires ValidState(s) && AllPositive(legs) && time > 0 && Mirrors(w, s, who, time, assets)
    requires forall k :: 0 <= k < |legs| ==> legs[k].asset in assets
    ensures TryAll(w, legs, time).Some? <==> PayAll(s, who, legs, time).Some?
    ensures TryAll(w, legs, time).Some? ==>
      Mirrors(TryAll(w, legs, time).value, PayAll(s, who, legs, time).value, who, time, assets)
  {
    hide Pay, TryLeg, ValidState, Copies;
    if legs != [] {
      var front, last := legs[..|legs| - 1], legs[|legs| - 1];
      DryRunDecides(w, s, who, front, time, assets);
      PayAllMeaning(s, who, front, time);
      if TryAll(w, front, time).Some? {
        var w1, s1 := TryAll(w, front, time).value, PayAll(s, who, front, time).value;
        assert last.asset in assets;
        assert Copies(w1, s1, who, time, last.asset);
        TryLegAgrees(w1, s1, who, last, time, last.asset);
        forall a | a in assets && TryLeg(w1, last, time).Some?
          ensures Copies(TryLeg(w1, last, time).value, Pay(s1, who, last, time, true).value, who, time, a)
        {
          TryLegAgrees(w1, s1, who, last, time, a);
        }
      }
    }
  }
}
