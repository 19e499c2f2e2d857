/** The heap of pool transactions by price. Entries that left the pool stay in the heap until they
    surface or the heap is rebuilt. */
module TxPricedLists {
  import opened Heaps
  import opened TxSortedMaps

  /** Cheaper first; of two equally cheap ones the higher nonce first. */
  predicate Cheaper(a: Tx, b: Tx) {
    a.gasPrice < b.gasPrice || (a.gasPrice == b.gasPrice && a.nonce > b.nonce)
  }

  /** Its price is lower, or the same and its nonce at least as high. */
  predicate NoDearer(a: Tx, b: Tx) {
    a.gasPrice <= b.gasPrice && (a.gasPrice == b.gasPrice ==> a.nonce >= b.nonce)
  }

  lemma PriceOrder()
    ensures Order(Cheaper)
  {
  }

  /** Every live transaction is in one of the lists. */
  ghost predicate Held(live: set<Tx>, items: seq<Tx>, drop: seq<Tx>, save: seq<Tx>) {
    forall tx :: tx in live ==> tx in items || tx in drop || tx in save
  }

  ghost predicate AllLive(txs: seq<Tx>, live: set<Tx>) {
    forall i :: 0 <= i < |txs| ==> txs[i] in live
  }

  /** Nothing in the heap comes before a listed transaction. */
  ghost predicate NoneBefore(txs: seq<Tx>, items: seq<Tx>) {
    forall i, k :: 0 <= i < |txs| && 0 <= k < |items| ==> AtMost(Cheaper, txs[i], items[k])
  }

  ghost predicate AllLocal(txs: seq<Tx>, local: set<nat>) {
    forall i :: 0 <= i < |txs| ==> txs[i].sender in local
  }

  ghost predicate NoneLocal(txs: seq<Tx>, local: set<nat>) {
    forall i :: 0 <= i < |txs| ==> txs[i].sender !in local
  }

  ghost predicate AllUnder(txs: seq<Tx>, price: nat) {
    forall i :: 0 <= i < |txs| ==> txs[i].gasPrice < price
  }

  ghost predicate NoneUnder(txs: seq<Tx>, price: nat) {
    forall i :: 0 <= i < |txs| ==> txs[i].gasPrice >= price
  }

  ghost function Without(live: set<Tx>, drop: seq<Tx>): set<Tx> {
    set tx | tx in live && tx !in drop
  }

  lemma PopMembers(items: seq<Tx>, rest: seq<Tx>, x: Tx)
    requires multiset(items) == multiset(rest) + multiset{x}
    ensures |rest| == |items| - 1
    ensures forall tx :: tx in items <==> tx in rest || tx == x
  {
    PopShorter(items, rest, x);
    assert forall tx :: tx in items <==> tx in multiset(items);
  }

  /** One entry leaves the heap: forgotten if it is stale, else listed. */
  lemma PopCovers(live: set<Tx>, items: seq<Tx>, rest: seq<Tx>, x: Tx, drop: seq<Tx>, save: seq<Tx>)
    requires multiset(items) == multiset(rest) + multiset{x} && Held(live, items, drop, save)
    ensures x !in live ==> Held(live, rest, drop, save)
    ensures Held(live, rest, drop + [x], save) && Held(live, rest, drop, save + [x])
  {
    PopMembers(items, rest, x);
    assert x in drop + [x] && x in save + [x];
    assert forall tx :: tx in drop ==> tx in drop + [x];
    assert forall tx :: tx in save ==> tx in save + [x];
  }

  /** The popped entry comes before what is left, and so does what was popped earlier. */
  lemma PopBefore(txs: seq<Tx>, items: seq<Tx>, rest: seq<Tx>, x: Tx)
    requires multiset(items) == multiset(rest) + multiset{x} && NoneBefore(txs, items)
    requires forall k :: 0 <= k < |rest| ==> AtMost(Cheaper, x, rest[k])
    ensures NoneBefore(txs, rest) && NoneBefore(txs + [x], rest)
  {
    PopMembers(items, rest, x);
    forall i, k | 0 <= i < |txs| && 0 <= k < |rest| ensures AtMost(Cheaper, txs[i], rest[k]) {
      assert rest[k] in items;
      var j :| 0 <= j < |items| && items[j] == rest[k];
    }
  }

  class TxLookup {
    var all: set<Tx>

    constructor ()
      ensures all == {}
    {
      all := {};
    }
  }

  class TxPricedList {
    const all: TxLookup
    var items: seq<Tx>
    var stales: int

    /** The heap covers the live transactions, which may be fewer than those still in the lookup. */
    ghost predicate Valid(live: set<Tx>)
      reads this
    {
      IsHeap(items, Cheaper) && forall tx :: tx in live ==> tx in items
    }

    constructor (all: TxLookup)
      ensures this.all == all && items == [] && Valid({})
    {
      this.all := all;
      items, stales := [], 0;
    }

    /** A transaction joins the heap. The pool has already put it into the lookup. */
    method Put(tx: Tx, ghost live: set<Tx>)
      requires Valid(live - {tx})
      modifies this
      ensures Valid(live) && Valid(live + {tx}) && multiset(items) == old(multiset(items)) + multiset{tx}
      ensures stales == old(stales)
    {
      PriceOrder();
      ghost var before := items;
      items := Push(items, tx, Cheaper);
      PopMembers(items, before, tx);
    }

    /** Counts a transaction that left the pool; with too many of them the heap is built anew. The
        lookup may still hold transactions that were taken off the heap and are about to leave. */
    method Removed(ghost live: set<Tx>)
      requires Valid(live) && live <= all.all
      modifies this
      ensures Valid(live)
      ensures old(stales) + 1 > |old(items)| / 4 ==> stales == 0 && multiset(items) == multiset(all.all)
      ensures old(stales) + 1 <= |old(items)| / 4 ==> stales == old(stales) + 1 && items == old(items)
    {
      stales := stales + 1;
      if stales <= |items| / 4 {
        return;
      }
      stales := 0;
      var reheap := [];
      var todo := all.all;
      while todo != {}
        invariant todo <= all.all && multiset(reheap) == multiset(all.all - todo)
        decreases |todo|
      {
        var tx :| tx in todo;
        assert all.all - (todo - {tx}) == (all.all - todo) + {tx};
        reheap := reheap + [tx];
        todo := todo - {tx};
      }
      assert all.all - todo == all.all;
      PriceOrder();
      items := Init(reheap, Cheaper);
      SameMembers(items, all.all);
    }

    /** The entries that were taken off but stay in the pool go back. */
    method PutBack(save: seq<Tx>, ghost live: set<Tx>)
      requires IsHeap(items, Cheaper) && Held(live, items, [], save)
      modifies this`items
      ensures Valid(live) && multiset(items) == old(multiset(items)) + multiset(save)
    {
      PriceOrder();
      for i := 0 to |save|
        invariant IsHeap(items, Cheaper) && Held(live, items, [], save[i..])
        invariant multiset(items) == old(multiset(items)) + multiset(save[..i])
      {
        ghost var before := items;
        assert save[i..] == [save[i]] + save[i + 1..];
        items := Push(items, save[i], Cheaper);
        PopMembers(items, before, save[i]);
        assert save[..i + 1] == save[..i] + [save[i]];
      }
      assert save[..|save|] == save;
    }

    /** Takes off the live transactions of remote accounts under the price. */
    method Cap(threshold: nat, local: set<nat>) returns (drop: seq<Tx>)
      requires Valid(all.all)
      modifies this
      ensures forall tx :: tx in drop <==> tx in all.all && tx.sender !in local && tx.gasPrice < threshold
      ensures forall tx :: tx in drop ==> tx !in items
      ensures Valid(Without(all.all, drop))
      ensures multiset(drop) + multiset(items) <= old(multiset(items))
      ensures forall tx :: tx in all.all ==> multiset(drop)[tx] + multiset(items)[tx] == old(multiset(items))[tx]
    {
      hide Order, IsHeap, Held, Accounted, AllLive, NoneLocal, AllLocal, AllUnder, NoneUnder;
      PriceOrder();
      drop := [];
      var save := [];
      ghost var live := all.all;
      ghost var kept, gone := [], multiset{};
      CapStarts(live, items, threshold, local);
      while |items| > 0
        invariant IsHeap(items, Cheaper) && Held(live, items, drop, save) && AllLive(drop, live)
        invariant NoneLocal(drop, local) && AllUnder(drop, threshold) && AllLocal(save, local) && kept == save
        invariant Accounted(old(items), items, drop, save, gone, live)
        decreases |items|
      {
        var tx, rest := Pop(items, Cheaper);
        PopMembers(items, rest, tx);
        PopCovers(live, items, rest, tx, drop, save);
        PopAccounts(old(items), items, rest, tx, drop, save, gone, live);
        items := rest;
        if tx !in all.all {
          stales := stales - 1;
          gone := gone + multiset{tx};
          continue;
        }
        if tx.gasPrice >= threshold {
          CapStops(rest, tx, threshold);
          save, kept := save + [tx], save;
          break;
        }
        CapTakes(tx, drop, save, live, threshold, local);
        if tx.sender in local {
          save := save + [tx];
        } else {
          drop := drop + [tx];
        }
        kept := save;
      }
      CapExact(live, items, drop, save, kept, threshold, local);
      ghost var rest := items;
      PutBack(save, Without(live, drop));
      NotBoth(drop, items, rest, save);
      AllAccounted(old(items), items, rest, drop, save, gone, live);
    }

    /** A remote transaction is underpriced when no live one is cheaper. An empty pool is reported
        as not underpriced. */
    method Underpriced(tx: Tx, local: set<nat>) returns (r: bool)
      requires Valid(all.all)
      modifies this
      ensures Valid(all.all) && multiset(items) <= old(multiset(items))
      ensures r <==> tx.sender !in local && all.all != {} && forall t :: t in all.all ==> t.gasPrice >= tx.gasPrice
    {
      if tx.sender in local {
        return false;
      }
      PriceOrder();
      while |items| > 0
        invariant Valid(all.all) && multiset(items) <= old(multiset(items))
        decreases |items|
      {
        var head := items[0];
        if head !in all.all {
          stales := stales - 1;
          var x, rest := Pop(items, Cheaper);
          PopMembers(items, rest, x);
          items := rest;
          continue;
        }
        break;
      }
      if |items| == 0 {
        NothingLive(items, all.all);
        return false;
      }
      var cheapest := items[0];
      CheapestFirst(items, all.all);
      r := cheapest.gasPrice >= tx.gasPrice;
    }

    /** Takes off the cheapest live transactions of remote accounts, up to a number of them. */
    method Discard(count: nat, local: set<nat>) returns (drop: seq<Tx>)
      requires Valid(all.all)
      modifies this
      ensures |drop| <= count
      ensures forall tx :: tx in drop ==> tx in all.all && tx.sender !in local
      ensures forall a, b :: a in drop && b in all.all && b !in drop && b.sender !in local ==> NoDearer(a, b)
      ensures |drop| < count ==> forall tx :: tx in all.all && tx.sender !in local ==> tx in drop
      ensures Valid(Without(all.all, drop))
      ensures multiset(drop) + multiset(items) <= old(multiset(items))
      ensures forall tx :: tx in all.all ==> multiset(drop)[tx] + multiset(items)[tx] == old(multiset(items))[tx]
    {
      hide Order, IsHeap, Held, Accounted, AllLive, NoneLocal, AllLocal, NoneBefore;
      PriceOrder();
      drop := [];
      var save := [];
      var left := count;
      ghost var live, gone := all.all, multiset{};
      DiscardStarts(live, items, local);
      while |items| > 0 && left > 0
        invariant |drop| + left == count && IsHeap(items, Cheaper)
        invariant Held(live, items, drop, save) && AllLive(drop, live)
        invariant NoneLocal(drop, local) && AllLocal(save, local)
        invariant Accounted(old(items), items, drop, save, gone, live)
        invariant NoneBefore(drop, items)
        decreases |items|
      {
        var tx, rest := Pop(items, Cheaper);
        PopMembers(items, rest, tx);
        PopCovers(live, items, rest, tx, drop, save);
        PopAccounts(old(items), items, rest, tx, drop, save, gone, live);
        PopBefore(drop, items, rest, tx);
        items := rest;
        if tx !in all.all {
          stales := stales - 1;
          gone := gone + multiset{tx};
          continue;
        }
        DiscardTakes(tx, drop, save, live, local);
        if tx.sender in local {
          save := save + [tx];
        } else {
          drop := drop + [tx];
          left := left - 1;
        }
      }
      DiscardExact(live, items, drop, save, local);
      ghost var rest := items;
      PutBack(save, Without(live, drop));
      AllAccounted(old(items), items, rest, drop, save, gone, live);
    }
  }

  /** Every entry is in the heap, in one of the lists, or was stale. */
  ghost predicate Accounted(before: seq<Tx>, items: seq<Tx>, drop: seq<Tx>, save: seq<Tx>, gone: multiset<Tx>,
                            live: set<Tx>) {
    && multiset(before) == multiset(items) + multiset(drop) + multiset(save) + gone
    && forall tx :: tx in live ==> gone[tx] == 0
  }

  lemma PopAccounts(before: seq<Tx>, items: seq<Tx>, rest: seq<Tx>, x: Tx, drop: seq<Tx>, save: seq<Tx>,
                    gone: multiset<Tx>, live: set<Tx>)
    requires Accounted(before, items, drop, save, gone, live) && multiset(items) == multiset(rest) + multiset{x}
    ensures Accounted(before, rest, drop + [x], save, gone, live)
    ensures Accounted(before, rest, drop, save + [x], gone, live)
    ensures x !in live ==> Accounted(before, rest, drop, save, gone + multiset{x}, live)
  {
  }

  lemma AllAccounted(before: seq<Tx>, items: seq<Tx>, rest: seq<Tx>, drop: seq<Tx>, save: seq<Tx>, gone: multiset<Tx>,
                     live: set<Tx>)
    requires Accounted(before, rest, drop, save, gone, live) && multiset(items) == multiset(rest) + multiset(save)
    ensures multiset(drop) + multiset(items) <= multiset(before)
    ensures forall tx :: tx in live ==> multiset(drop)[tx] + multiset(items)[tx] == multiset(before)[tx]
  {
  }

  lemma NotBoth(drop: seq<Tx>, items: seq<Tx>, rest: seq<Tx>, save: seq<Tx>)
    requires multiset(items) == multiset(rest) + multiset(save)
    requires forall tx :: tx in drop ==> tx !in rest && tx !in save
    ensures forall tx :: tx in drop ==> tx !in items
  {
    forall tx | tx in drop ensures tx !in items {
      assert multiset(rest)[tx] == 0 && multiset(save)[tx] == 0;
      assert tx !in multiset(items);
    }
  }

  lemma SameMembers(items: seq<Tx>, s: set<Tx>)
    requires multiset(items) == multiset(s)
    ensures forall tx :: tx in s ==> tx in items
  {
    assert forall tx :: tx in multiset(items) ==> tx in items;
  }

  lemma CapStarts(live: set<Tx>, items: seq<Tx>, price: nat, local: set<nat>)
    requires forall tx :: tx in live ==> tx in items
    ensures Held(live, items, [], []) && AllLive([], live) && NoneLocal([], local) && AllUnder([], price)
    ensures AllLocal([], local) && Accounted(items, items, [], [], multiset{}, live)
  {
  }

  lemma CapTakes(tx: Tx, drop: seq<Tx>, save: seq<Tx>, live: set<Tx>, price: nat, local: set<nat>)
    requires AllLive(drop, live) && NoneLocal(drop, local) && AllUnder(drop, price) && AllLocal(save, local)
    requires tx in live && tx.gasPrice < price
    ensures if tx.sender in local then AllLocal(save + [tx], local)
            else AllLive(drop + [tx], live) && NoneLocal(drop + [tx], local) && AllUnder(drop + [tx], price)
  {
  }

  lemma CapStops(rest: seq<Tx>, tx: Tx, price: nat)
    requires tx.gasPrice >= price && forall k :: 0 <= k < |rest| ==> AtMost(Cheaper, tx, rest[k])
    ensures NoneUnder(rest, price)
  {
  }

  lemma CapExact(live: set<Tx>, items: seq<Tx>, drop: seq<Tx>, save: seq<Tx>, kept: seq<Tx>, price: nat,
                 local: set<nat>)
    requires Held(live, items, drop, save) && AllLive(drop, live) && NoneLocal(drop, local) && AllUnder(drop, price)
    requires AllLocal(kept, local) && (items == [] || NoneUnder(items, price))
    requires save == kept || (save != [] && kept == save[..|save| - 1] && save[|save| - 1].gasPrice >= price)
    ensures forall tx :: tx in drop <==> tx in live && tx.sender !in local && tx.gasPrice < price
    ensures forall tx :: tx in drop ==> tx !in items && tx !in save
    ensures Held(Without(live, drop), items, [], save)
  {
    forall tx | tx in live && tx.sender !in local && tx.gasPrice < price ensures tx in drop {
      assert tx !in items;
      assert tx !in save;
    }
  }

  lemma NothingLive(items: seq<Tx>, live: set<Tx>)
    requires (forall tx :: tx in live ==> tx in items) && items == []
    ensures live == {}
  {
  }

  lemma CheapestFirst(items: seq<Tx>, live: set<Tx>)
    requires IsHeap(items, Cheaper) && items != [] && items[0] in live && forall tx :: tx in live ==> tx in items
    ensures forall tx :: tx in live ==> items[0].gasPrice <= tx.gasPrice
  {
    PriceOrder();
    forall tx | tx in live ensures items[0].gasPrice <= tx.gasPrice {
      var k :| 0 <= k < |items| && items[k] == tx;
      TopIsLeast(items, Cheaper, k);
    }
  }

  lemma DiscardStarts(live: set<Tx>, items: seq<Tx>, local: set<nat>)
    requires forall tx :: tx in live ==> tx in items
    ensures Held(live, items, [], []) && AllLive([], live) && NoneLocal([], local) && AllLocal([], local)
    ensures NoneBefore([], items) && Accounted(items, items, [], [], multiset{}, live)
  {
  }

  lemma DiscardTakes(tx: Tx, drop: seq<Tx>, save: seq<Tx>, live: set<Tx>, local: set<nat>)
    requires AllLive(drop, live) && NoneLocal(drop, local) && AllLocal(save, local) && tx in live
    ensures if tx.sender in local then AllLocal(save + [tx], local)
            else AllLive(drop + [tx], live) && NoneLocal(drop + [tx], local)
  {
  }

  lemma DiscardExact(live: set<Tx>, items: seq<Tx>, drop: seq<Tx>, save: seq<Tx>, local: set<nat>)
    requires Held(live, items, drop, save) && AllLive(drop, live) && NoneLocal(drop, local)
    requires AllLocal(save, local) && NoneBefore(drop, items)
    ensures forall tx :: tx in drop ==> tx in live && tx.sender !in local
    ensures forall a, b :: a in drop && b in live && b !in drop && b.sender !in local ==> NoDearer(a, b)
    ensures items == [] ==> forall tx :: tx in live && tx.sender !in local ==> tx in drop
    ensures Held(Without(live, drop), items, [], save)
  {
    forall b | b in live && b.sender !in local ensures b in drop || b in items {
      assert b !in save;
    }
  }

  // ---------- The pool around the heap ----------

  /** What the pool does to its lookup and its price heap. */
  datatype PoolStep =
    | Join(tx: Tx)
    | Leave(tx: Tx)
    | SetGasPrice(price: nat, local: set<nat>, displaces: Tx -> seq<Tx>)
    | MakeRoom(count: nat, local: set<nat>, displaces: Tx -> seq<Tx>)
    | Compare(tx: Tx, local: set<nat>)

  ghost function Dropped(drop: seq<Tx>): set<Tx> {
    set tx | tx in drop
  }

  /** What goes together with the dropped transactions. */
  ghost function DisplacedBy(drop: seq<Tx>, displaces: Tx -> seq<Tx>): set<Tx> {
    set tx, d | d in drop && tx in displaces(d) :: tx
  }

  lemma OneMoreDisplaces(drop: seq<Tx>, i: nat, displaces: Tx -> seq<Tx>)
    requires i < |drop|
    ensures DisplacedBy(drop[..i + 1], displaces) == DisplacedBy(drop[..i], displaces) + Dropped(displaces(drop[i]))
  {
    assert drop[..i + 1] == drop[..i] + [drop[i]];
  }

  class PricedPool {
    const all: TxLookup
    const priced: TxPricedList

    /** The heap covers the lookup. */
    ghost predicate Valid()
      reads this, all, priced
    {
      priced.all == all && priced.Valid(all.all)
    }

    constructor ()
      ensures Valid() && all.all == {} && fresh(all) && fresh(priced)
    {
      var lookup := new TxLookup();
      all := lookup;
      priced := new TxPricedList(lookup);
    }

    /** A transaction that the lookup does not hold enters it and then the heap. */
    method Join(tx: Tx)
      requires Valid()
      modifies all, priced
      ensures Valid() && all.all == old(all.all) + {tx}
    {
      if tx !in all.all {
        all.all := all.all + {tx};
        priced.Put(tx, all.all);
      }
    }

    /** A transaction leaves the lookup and the heap is told. */
    method Leave(tx: Tx)
      requires Valid()
      modifies all, priced
      ensures Valid() && all.all == old(all.all) - {tx}
    {
      all.all := all.all - {tx};
      priced.Removed(all.all);
    }

    /** Removes what was taken off the heap, without telling it. What these removals make unexecutable
        goes back to the queue and may displace further transactions, of which the heap is told. */
    method RemoveAll(drop: seq<Tx>, displaces: Tx -> seq<Tx>)
      requires priced.all == all && priced.Valid(all.all - Dropped(drop))
      modifies all, priced
      ensures Valid() && all.all == old(all.all) - Dropped(drop) - DisplacedBy(drop, displaces)
    {
      for i := 0 to |drop|
        invariant priced.Valid(all.all - Dropped(drop[i..]))
        invariant all.all == old(all.all) - Dropped(drop[..i]) - DisplacedBy(drop[..i], displaces)
      {
        assert drop[i..] == [drop[i]] + drop[i + 1..] && drop[..i + 1] == drop[..i] + [drop[i]];
        all.all := all.all - {drop[i]};
        ghost var owed, kept := Dropped(drop[i + 1..]), all.all;
        var prior := displaces(drop[i]);
        for k := 0 to |prior|
          invariant priced.Valid(all.all - owed) && all.all == kept - Dropped(prior[..k])
        {
          assert prior[..k + 1] == prior[..k] + [prior[k]];
          if prior[k] in all.all {
            all.all := all.all - {prior[k]};
            priced.Removed(all.all - owed);
          }
        }
        assert prior[..|prior|] == prior;
        OneMoreDisplaces(drop, i, displaces);
      }
      assert drop[..|drop|] == drop && drop[|drop|..] == [];
    }

    /** A new price limit: the remote transactions under it leave, and no others but what they displace. */
    method SetGasPrice(price: nat, local: set<nat>, displaces: Tx -> seq<Tx>) returns (ghost drop: seq<Tx>)
      requires Valid()
      modifies all, priced
      ensures Valid() && all.all == old(all.all) - Dropped(drop) - DisplacedBy(drop, displaces)
      ensures forall tx :: tx in drop <==> tx in old(all.all) && tx.sender !in local && tx.gasPrice < price
    {
      var taken := priced.Cap(price, local);
      assert Without(all.all, taken) == all.all - Dropped(taken);
      RemoveAll(taken, displaces);
      drop := taken;
    }

    /** The cheapest remote transactions make room for others: as many entries of the heap as asked
        for, or all remote transactions if there are fewer. */
    method MakeRoom(count: nat, local: set<nat>, displaces: Tx -> seq<Tx>) returns (ghost drop: seq<Tx>)
      requires Valid()
      modifies all, priced
      ensures Valid() && all.all == old(all.all) - Dropped(drop) - DisplacedBy(drop, displaces)
      ensures |drop| <= count && forall tx :: tx in drop ==> tx in old(all.all) && tx.sender !in local
      ensures |drop| < count ==> forall tx :: tx in old(all.all) && tx.sender !in local ==> tx in drop
      ensures forall a, b :: a in drop && b in old(all.all) && b !in drop && b.sender !in local ==> NoDearer(a, b)
    {
      var taken := priced.Discard(count, local);
      assert Without(all.all, taken) == all.all - Dropped(taken);
      RemoveAll(taken, displaces);
      drop := taken;
    }

    /** Whether a transaction is underpriced. */
    method Compare(tx: Tx, local: set<nat>) returns (r: bool)
      requires Valid()
      modifies priced
      ensures Valid()
      ensures (r <==> tx.sender !in local && all.all != {} && forall t :: t in all.all ==> t.gasPrice >= tx.gasPrice)
    {
      r := priced.Underpriced(tx, local);
    }

    /** The heap covers the lookup after every sequence of steps. */
    method Run(steps: seq<PoolStep>)
      requires Valid()
      modifies all, priced
      ensures Valid()
    {
      for i := 0 to |steps|
        invariant Valid()
      {
        match steps[i] {
          case Join(tx) => Join(tx);
          case Leave(tx) => Leave(tx);
          case SetGasPrice(price, local, displaces) => var drop := SetGasPrice(price, local, displaces);
          case MakeRoom(count, local, displaces) => var drop := MakeRoom(count, local, displaces);
          case Compare(tx, local) => var r := Compare(tx, local);
        }
      }
    }
  }
}
