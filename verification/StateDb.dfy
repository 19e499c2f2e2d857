/** The part of the state database that the FSN calls use: balances, time-lock balances, assets,
    swaps, tickets and short account numbers, updated in place. `Abs()` is the ledger it stands
    for, and every method says which ledger operation it performs. */
module StateDb {
  import opened TimeLockItems
  import opened TimeLockAlgebra
  import opened TimeLockOps
  import opened FsnTypes
  import opened LedgerState
  import opened LedgerCalls

  // ---------- Time-lock operations on fresh copies ----------

  lemma CloneSingle(z: Item)
    requires z.value >= 0
    ensures Cloned([z]) == [z]
  {
  }

  method SumOf(x: seq<Item>, y: seq<Item>) returns (r: seq<Item>)
    requires Normal(x) && Normal(y) && (x != [] || y != [])
    ensures r == Plus(x, y)
  {
    CloneNormal(x);
    CloneNormal(y);
    var a := new TimeLock(x);
    var b := new TimeLock(y);
    var c := new TimeLock([]);
    var sum := c.Add(a, b);
    r := c.items;
  }

  method DifferenceOf(x: seq<Item>, z: Item) returns (r: seq<Item>)
    requires Normal(x) && Enough(x, z)
    ensures r == Minus(x, z)
  {
    CloneNormal(x);
    CloneSingle(z);
    var a := new TimeLock(x);
    var b := new TimeLock([z]);
    var c := new TimeLock([]);
    var ok := c.Sub(a, b);
    r := c.items;
  }

  method IsEnough(x: seq<Item>, z: Item) returns (enough: bool)
    requires Normal(x) && z.value >= 0
    ensures enough <==> Enough(x, z)
  {
    CloneNormal(x);
    CloneSingle(z);
    var a := new TimeLock(x);
    var b := new TimeLock([z]);
    var cmp := a.Cmp(b);
    enough := cmp.value >= 0;
  }

  method Expire(x: seq<Item>, time: Instant) returns (r: seq<Item>)
    requires Normal(x)
    ensures r == Unexpired(x, time)
  {
    CloneNormal(x);
    var a := new TimeLock(x);
    a.ClearExpired(time);
    r := a.items;
  }

  // ---------- The database ----------

  class StateDB {
    var balances: map<(Address, Hash), int>
    var locks: map<(Address, Hash), seq<Item>>
    var assets: map<Hash, Asset>
    var swaps: map<Hash, Swap>
    var multiSwaps: map<Hash, MultiSwap>
    var tickets: map<Hash, Ticket>
    var notations: map<Address, nat>
    var notationOwners: map<nat, Address>
    var notationCount: nat

    function Abs(): State
      reads this
    {
      State(balances, locks, assets, swaps, multiSwaps, tickets, notations, notationOwners, notationCount)
    }

    constructor ()
      ensures Abs() == State(map[], map[], map[], map[], map[], map[], map[], map[], 0)
    {
      balances, locks, assets, swaps, multiSwaps, tickets := map[], map[], map[], map[], map[], map[];
      notations, notationOwners, notationCount := map[], map[], 0;
    }

    /** Whatever code outside the FSN calls leaves. */
    method Replace(s: State)
      modifies this
      ensures Abs() == s
    {
      balances, locks, assets, swaps, multiSwaps, tickets :=
        s.balances, s.locks, s.assets, s.swaps, s.multiSwaps, s.tickets;
      notations, notationOwners, notationCount := s.notations, s.notationOwners, s.notationCount;
    }

    function GetBalance(asset: Hash, who: Address): int
      reads this
    {
      Balance(Abs(), who, asset)
    }

    function GetTimeLockBalance(asset: Hash, who: Address): seq<Item>
      reads this
    {
      Lock(Abs(), who, asset)
    }

    function GetNotation(who: Address): nat
      reads this
    {
      NotationOf(Abs(), who)
    }

    method AddBalance(who: Address, asset: Hash, amount: int)
      modifies this`balances
      ensures Abs() == Credit(old(Abs()), who, asset, amount)
    {
      balances := balances[(who, asset) := GetBalance(asset, who) + amount];
    }

    method SubBalance(who: Address, asset: Hash, amount: int)
      modifies this`balances
      ensures Abs() == Debit(old(Abs()), who, asset, amount)
    {
      balances := balances[(who, asset) := GetBalance(asset, who) - amount];
    }

    method AddTimeLockBalance(who: Address, asset: Hash, amount: seq<Item>, time: Instant)
      requires Normal(GetTimeLockBalance(asset, who)) && Normal(amount)
      modifies this`locks
      ensures Abs() == AddLock(old(Abs()), who, asset, amount, time)
    {
      if amount == [] {
        return;
      }
      var lock := GetTimeLockBalance(asset, who);
      PlusMeaning(lock, amount);
      var sum := SumOf(lock, amount);
      var res := Expire(sum, time);
      locks := locks[(who, asset) := res];
    }

    /** Subtracting more than there is would panic, hence the precondition. */
    method SubTimeLockBalance(who: Address, asset: Hash, amount: Item, time: Instant)
      requires Normal(GetTimeLockBalance(asset, who)) && Enough(GetTimeLockBalance(asset, who), amount)
      modifies this`locks
      ensures Abs() == SubLock(old(Abs()), who, asset, amount, time)
    {
      var lock := GetTimeLockBalance(asset, who);
      MinusMeaning(lock, amount);
      var rest := DifferenceOf(lock, amount);
      var res := Expire(rest, time);
      locks := locks[(who, asset) := res];
    }

    method GenAsset(asset: Asset) returns (ok: bool)
      modifies this`assets
      ensures ok <==> asset.id !in old(assets)
      ensures assets == if ok then old(assets)[asset.id := asset] else old(assets)
    {
      ok := asset.id !in assets;
      if ok {
        assets := assets[asset.id := asset];
      }
    }

    method UpdateAsset(asset: Asset)
      modifies this`assets
      ensures assets == old(assets)[asset.id := asset]
    {
      assets := assets[asset.id := asset];
    }

    method AddSwap(swap: Swap) returns (ok: bool)
      modifies this`swaps
      ensures ok <==> swap.id !in old(swaps)
      ensures swaps == if ok then old(swaps)[swap.id := swap] else old(swaps)
    {
      ok := swap.id !in swaps;
      if ok {
        swaps := swaps[swap.id := swap];
      }
    }

    method UpdateSwap(swap: Swap)
      modifies this`swaps
      ensures swaps == old(swaps)[swap.id := swap]
    {
      swaps := swaps[swap.id := swap];
    }

    method RemoveSwap(id: Hash) returns (ok: bool)
      modifies this`swaps
      ensures ok <==> id in old(swaps)
      ensures swaps == old(swaps) - {id}
    {
      ok := id in swaps;
      if ok {
        swaps := swaps - {id};
      } else {
        assert swaps - {id} == swaps;
      }
    }

    method AddMultiSwap(swap: MultiSwap) returns (ok: bool)
      modifies this`multiSwaps
      ensures ok <==> swap.id !in old(multiSwaps)
      ensures multiSwaps == if ok then old(multiSwaps)[swap.id := swap] else old(multiSwaps)
    {
      ok := swap.id !in multiSwaps;
      if ok {
        multiSwaps := multiSwaps[swap.id := swap];
      }
    }

    method UpdateMultiSwap(swap: MultiSwap)
      modifies this`multiSwaps
      ensures multiSwaps == old(multiSwaps)[swap.id := swap]
    {
      multiSwaps := multiSwaps[swap.id := swap];
    }

    method RemoveMultiSwap(id: Hash) returns (ok: bool)
      modifies this`multiSwaps
      ensures ok <==> id in old(multiSwaps)
      ensures multiSwaps == old(multiSwaps) - {id}
    {
      ok := id in multiSwaps;
      if ok {
        multiSwaps := multiSwaps - {id};
      } else {
        assert multiSwaps - {id} == multiSwaps;
      }
    }

    method AddTicket(ticket: Ticket) returns (ok: bool)
      modifies this`tickets
      ensures ok <==> ticket.id !in old(tickets)
      ensures tickets == if ok then old(tickets)[ticket.id := ticket] else old(tickets)
    {
      ok := ticket.id !in tickets;
      if ok {
        tickets := tickets[ticket.id := ticket];
      }
    }

    /** Issues the next number to an account that has none. */
    method NewNotation(who: Address) returns (ok: bool)
      modifies this`notations, this`notationOwners, this`notationCount
      ensures ok <==> NotationOf(old(Abs()), who) == 0
      ensures ok ==> notationCount == old(notationCount) + 1
      ensures ok ==> notations == old(notations)[who := Display(notationCount)]
      ensures ok ==> notationOwners == old(notationOwners)[Display(notationCount) := who]
      ensures !ok ==> Abs() == old(Abs())
    {
      if GetNotation(who) != 0 {
        return false;
      }
      var next := notationCount + 1;
      notationCount := next;
      notationOwners := notationOwners[Display(next) := who];
      notations := notations[who := Display(next)];
      return true;
    }

    method MoveNotation(notation: nat, from: Address, to: Address) returns (ok: bool)
      modifies this`notations, this`notationOwners
      ensures ok <==> TransferNotation(old(Abs()), notation, from, to).Some?
      ensures Abs() == if ok then TransferNotation(old(Abs()), notation, from, to).value else old(Abs())
    {
      if notation !in notationOwners || notationOwners[notation] != from {
        return false;
      }
      var had := GetNotation(to);
      if had != 0 {
        notationOwners := notationOwners[had := ZERO_ADDRESS];
      }
      notationOwners := notationOwners[notation := to];
      notations := notations[to := notation];
      notations := notations[from := 0];
      return true;
    }
  }
}
