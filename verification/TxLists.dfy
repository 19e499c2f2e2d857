/** The list of an account's transactions with its cost and gas caps. A strict list is the pending
    one, whose nonces have no gap. */
module TxLists {
  import opened TimeLockItems
  import opened TxSortedMaps

  /** A 64-bit unsigned number read as a signed one. */
  function Signed(x: nat): int {
    var y := x % 0x1_0000_0000_0000_0000;
    if y < 0x8000_0000_0000_0000 then y else y - 0x1_0000_0000_0000_0000
  }

  /** The percentage of the old price that a replacement must reach. */
  function BumpFactor(priceBump: nat): int {
    var k := 100 + Signed(priceBump);
    if k < 0x8000_0000_0000_0000 then k else k - 0x1_0000_0000_0000_0000
  }

  lemma BumpIsPercent(priceBump: nat)
    requires priceBump < 0x8000_0000_0000_0000 - 100
    ensures BumpFactor(priceBump) == 100 + priceBump
  {
  }

  /** The price is above the old one and not below the wanted percentage of it, rounded down. */
  ghost predicate Outbids(tx: Tx, prior: Tx, priceBump: nat) {
    tx.gasPrice > prior.gasPrice && 100 * (tx.gasPrice + 1) > prior.gasPrice * BumpFactor(priceBump)
  }

  lemma OutbidsIff(tx: Tx, prior: Tx, priceBump: nat)
    requires priceBump < 0x8000_0000_0000_0000 - 100
    ensures Outbids(tx, prior, priceBump) <==>
      tx.gasPrice > prior.gasPrice && tx.gasPrice >= prior.gasPrice * (100 + priceBump) / 100
  {
    RoundedDown(prior.gasPrice * (100 + priceBump), tx.gasPrice);
  }

  lemma RoundedDown(a: int, p: int)
    ensures a / 100 <= p <==> 100 * (p + 1) > a
  {
  }

  ghost predicate Capped(m: TxMap, costcap: int, gascap: nat) {
    forall n :: n in m ==> m[n].cost <= costcap && m[n].gas <= gascap
  }

  ghost predicate GapFree(m: TxMap) {
    forall a, b, c: Nonce :: a in m && c in m && a < b < c ==> b in m
  }

  predicate TooDear(tx: Tx, costLimit: int, gasLimit: nat) {
    tx.cost > costLimit || tx.gas > gasLimit
  }

  /** What a strict list drops besides the chosen ones: those above the lowest chosen nonce. */
  ghost predicate Stranded(m: TxMap, f: Tx -> bool, strict: bool, n: Nonce) {
    strict && n in m && !f(m[n]) && exists k :: k in m && f(m[k]) && k < n
  }

  ghost function Invalidated(m: TxMap, f: Tx -> bool, strict: bool): TxMap {
    map n | n in m && Stranded(m, f, strict, n) :: m[n]
  }

  ghost function Surviving(m: TxMap, f: Tx -> bool, strict: bool): TxMap {
    map n | n in m && !f(m[n]) && !Stranded(m, f, strict, n) :: m[n]
  }

  /** Each transaction of the map is in exactly one of the three. */
  ghost predicate Partition(m: TxMap, a: TxMap, b: TxMap, c: TxMap) {
    && a.Keys !! b.Keys && a.Keys !! c.Keys && b.Keys !! c.Keys
    && m == a + b + c
  }

  lemma FilterPartitions(m: TxMap, f: Tx -> bool, strict: bool)
    ensures Partition(m, Surviving(m, f, strict), Chosen(m, f), Invalidated(m, f, strict))
  {
  }

  /** What survives was not chosen, and in a strict list nothing below it was either. */
  lemma SurvivingIff(m: TxMap, f: Tx -> bool, strict: bool, n: Nonce)
    ensures n in Surviving(m, f, strict) <==>
      n in m && !f(m[n]) && (strict ==> forall k :: k in m && k < n ==> !f(m[k]))
  {
  }

  /** The same for the limits on cost and gas. */
  lemma AffordableIff(m: TxMap, costLimit: int, gasLimit: nat, strict: bool, n: Nonce)
    ensures n in Surviving(m, (tx: Tx) => TooDear(tx, costLimit, gasLimit), strict) <==>
      && n in m && m[n].cost <= costLimit && m[n].gas <= gasLimit
      && (strict ==> forall k :: k in m && k < n ==> m[k].cost <= costLimit && m[k].gas <= gasLimit)
  {
    SurvivingIff(m, (tx: Tx) => TooDear(tx, costLimit, gasLimit), strict, n);
  }

  /** In a strict list the survivors are the nonces under the lowest chosen one. */
  lemma SurvivorsGapFree(m: TxMap, f: Tx -> bool)
    requires GapFree(m)
    ensures GapFree(Surviving(m, f, true))
  {
    var s := Surviving(m, f, true);
    forall a, b, c: Nonce | a in s && c in s && a < b < c ensures b in s {
      assert b in m;
      assert !Stranded(m, f, true, c);
    }
  }

  lemma UnderGapFree(m: TxMap, t: int)
    requires GapFree(m)
    ensures GapFree(Under(m, t)) && GapFree(AtLeast(m, t))
  {
  }

  lemma LowestGapFree(m: TxMap, kept: TxMap, limit: nat)
    requires GapFree(m) && KeepsLowest(m, kept, limit)
    ensures GapFree(kept)
  {
    forall a, b, c: Nonce | a in kept && c in kept && a < b < c ensures b in kept {
      assert b in m;
    }
  }

  lemma CappedPart(m: TxMap, part: TxMap, costcap: int, gascap: nat)
    requires Capped(m, costcap, gascap) && forall n :: n in part ==> n in m && part[n] == m[n]
    ensures Capped(part, costcap, gascap)
  {
  }

  /** When the caps are within the limits no transaction exceeds them: the naive filter would
      choose none. */
  lemma ShortcutIsNaive(m: TxMap, costcap: int, gascap: nat, costLimit: int, gasLimit: nat, strict: bool)
    requires Capped(m, costcap, gascap) && costcap <= costLimit && gascap <= gasLimit
    ensures var f := (tx: Tx) => TooDear(tx, costLimit, gasLimit);
            Chosen(m, f) == map[] && Invalidated(m, f, strict) == map[] && Surviving(m, f, strict) == m
  {
    var f := (tx: Tx) => TooDear(tx, costLimit, gasLimit);
    assert forall n :: n in m ==> !f(m[n]);
  }

  /** The smallest nonce of the removed transactions. */
  method LowestNonce(removed: seq<Tx>) returns (lowest: Nonce)
    ensures forall i :: 0 <= i < |removed| ==> lowest <= removed[i].nonce
    ensures removed != [] ==> exists i :: 0 <= i < |removed| && removed[i].nonce == lowest
  {
    lowest := NONCES - 1;
    for i := 0 to |removed|
      invariant forall k :: 0 <= k < i ==> lowest <= removed[k].nonce
      invariant lowest == NONCES - 1 || exists k :: 0 <= k < i && removed[k].nonce == lowest
    {
      if lowest > removed[i].nonce {
        lowest := removed[i].nonce;
      }
    }
    if removed != [] && lowest == NONCES - 1 {
      assert removed[0].nonce == lowest;
    }
  }

  lemma StrandedAbove(m: TxMap, f: Tx -> bool, removed: seq<Tx>, lowest: Nonce)
    requires ByNonce(m) && Listing(removed, Chosen(m, f)) && removed != []
    requires forall i :: 0 <= i < |removed| ==> lowest <= removed[i].nonce
    requires exists i :: 0 <= i < |removed| && removed[i].nonce == lowest
    ensures Chosen(Spared(m, f), (tx: Tx) => tx.nonce > lowest) == Invalidated(m, f, true)
    ensures Spared(Spared(m, f), (tx: Tx) => tx.nonce > lowest) == Surviving(m, f, true)
  {
    var i :| 0 <= i < |removed| && removed[i].nonce == lowest;
    Listed(removed, Chosen(m, f), removed[i]);
    forall n | n in m && !f(m[n]) ensures Stranded(m, f, true, n) <==> n > lowest {
      forall k | k in m && f(m[k]) ensures k >= lowest {
        Listed(removed, Chosen(m, f), m[k]);
      }
    }
  }

  lemma NothingStranded(m: TxMap, f: Tx -> bool, strict: bool)
    requires !strict || Chosen(m, f) == map[]
    ensures Invalidated(m, f, strict) == map[] && Surviving(m, f, strict) == Spared(m, f)
  {
    assert forall n :: n in m && f(m[n]) ==> n in Chosen(m, f);
  }

  class TxList {
    const strict: bool
    const txs: TxSortedMap
    var costcap: int
    var gascap: nat

    ghost predicate Valid()
      reads this, txs
    {
      txs.Valid() && Capped(txs.items, costcap, gascap)
    }

    constructor (strict: bool)
      ensures Valid() && txs.items == map[] && this.strict == strict && fresh(txs)
    {
      this.strict := strict;
      txs := new TxSortedMap();
      costcap, gascap := 0, 0;
    }

    function Len(): nat
      reads txs
    {
      |txs.items|
    }

    method Add(tx: Tx, priceBump: nat) returns (ok: bool, prior: Option<Tx>)
      requires Valid()
      modifies this, txs
      ensures Valid()
      ensures ok <==> tx.nonce !in old(txs.items) || Outbids(tx, old(txs.items)[tx.nonce], priceBump)
      ensures txs.items == if ok then old(txs.items)[tx.nonce := tx] else old(txs.items)
      ensures prior == if ok && tx.nonce in old(txs.items) then Some(old(txs.items)[tx.nonce]) else None
    {
      prior := None;
      if tx.nonce in txs.items {
        var held := txs.items[tx.nonce];
        var threshold := held.gasPrice * BumpFactor(priceBump) / 100;
        RoundedDown(held.gasPrice * BumpFactor(priceBump), tx.gasPrice);
        if held.gasPrice >= tx.gasPrice || threshold > tx.gasPrice {
          return false, None;
        }
        prior := Some(held);
      }
      txs.Put(tx);
      if costcap < tx.cost {
        costcap := tx.cost;
      }
      if gascap < tx.gas {
        gascap := tx.gas;
      }
      ok := true;
    }

    method Forward(threshold: Nonce) returns (removed: seq<Tx>)
      requires Valid()
      modifies txs
      ensures Valid() && txs.items == AtLeast(old(txs.items), threshold)
      ensures InNonceOrder(removed, Under(old(txs.items), threshold))
      ensures old(GapFree(txs.items)) ==> GapFree(txs.items)
    {
      removed := txs.Forward(threshold);
      if old(GapFree(txs.items)) {
        UnderGapFree(old(txs.items), threshold);
      }
    }

    /** The second half of both filters. */
    method DropStranded(ghost m: TxMap, ghost f: Tx -> bool, removed: seq<Tx>) returns (invalids: seq<Tx>)
      requires txs.Valid() && ByNonce(m) && txs.items == Spared(m, f) && Listing(removed, Chosen(m, f))
      modifies txs
      ensures txs.Valid() && txs.items == Surviving(m, f, strict) && Listing(invalids, Invalidated(m, f, strict))
    {
      invalids := [];
      if strict && |removed| > 0 {
        var lowest := LowestNonce(removed);
        StrandedAbove(m, f, removed, lowest);
        invalids := txs.Filter((tx: Tx) => tx.nonce > lowest);
      } else {
        if |removed| == 0 {
          EmptyListing(removed, Chosen(m, f));
        }
        NothingStranded(m, f, strict);
        ListNone(Invalidated(m, f, strict));
      }
    }

    /** Removes what costs or burns more than the limits, and in a strict list what is stranded. */
    method Filter(costLimit: int, gasLimit: nat) returns (removed: seq<Tx>, invalids: seq<Tx>)
      requires Valid()
      modifies this, txs
      ensures Valid()
      ensures var f := (tx: Tx) => TooDear(tx, costLimit, gasLimit);
              && txs.items == Surviving(old(txs.items), f, strict)
              && Listing(removed, Chosen(old(txs.items), f))
              && Listing(invalids, Invalidated(old(txs.items), f, strict))
      ensures forall n :: n in txs.items ==> txs.items[n].cost <= costLimit && txs.items[n].gas <= gasLimit
      ensures strict && old(GapFree(txs.items)) ==> GapFree(txs.items)
    {
      ghost var m := txs.items;
      var f := (tx: Tx) => TooDear(tx, costLimit, gasLimit);
      if costcap <= costLimit && gascap <= gasLimit {
        ShortcutIsNaive(m, costcap, gascap, costLimit, gasLimit, strict);
        ListNone(Chosen(m, f));
        ListNone(Invalidated(m, f, strict));
        return [], [];
      }
      costcap, gascap := costLimit, gasLimit;
      removed := txs.Filter(f);
      invalids := DropStranded(m, f, removed);
      if strict && GapFree(m) {
        SurvivorsGapFree(m, f);
      }
    }

    method FilterInvalid(filter: Tx -> bool) returns (removed: seq<Tx>, invalids: seq<Tx>)
      requires Valid()
      modifies txs
      ensures Valid() && txs.items == Surviving(old(txs.items), filter, strict)
      ensures Listing(removed, Chosen(old(txs.items), filter))
      ensures Listing(invalids, Invalidated(old(txs.items), filter, strict))
      ensures strict && old(GapFree(txs.items)) ==> GapFree(txs.items)
    {
      ghost var m := txs.items;
      removed := txs.Filter(filter);
      invalids := DropStranded(m, filter, removed);
      CappedPart(m, txs.items, costcap, gascap);
      if strict && GapFree(m) {
        SurvivorsGapFree(m, filter);
      }
    }

    method Cap(threshold: nat) returns (drops: seq<Tx>)
      requires Valid()
      modifies txs
      ensures Valid() && KeepsLowest(old(txs.items), txs.items, threshold)
      ensures Descending(drops) && Listing(drops, old(txs.items) - txs.items.Keys)
      ensures old(GapFree(txs.items)) ==> GapFree(txs.items)
    {
      drops := txs.Cap(threshold);
      if old(GapFree(txs.items)) {
        LowestGapFree(old(txs.items), txs.items, threshold);
      }
    }

    /** Removes the transaction with the nonce of `tx`, and in a strict list those above it. */
    method Remove(tx: Tx) returns (found: bool, invalids: seq<Tx>)
      requires Valid()
      modifies txs
      ensures Valid() && found == (tx.nonce in old(txs.items))
      ensures !found ==> txs.items == old(txs.items) && invalids == []
      ensures found && !strict ==> txs.items == old(txs.items) - {tx.nonce} && invalids == []
      ensures found && strict ==> txs.items == Under(old(txs.items), tx.nonce)
      ensures found && strict ==> Listing(invalids, AtLeast(old(txs.items), tx.nonce) - {tx.nonce})
      ensures strict && old(GapFree(txs.items)) ==> GapFree(txs.items)
    {
      ghost var m := txs.items;
      var nonce := tx.nonce;
      found := txs.Remove(nonce);
      invalids := [];
      if found && strict {
        invalids := txs.Filter((t: Tx) => t.nonce > nonce);
        RemovedAbove(m, nonce);
        if GapFree(m) {
          UnderGapFree(m, nonce);
        }
      }
      CappedPart(m, txs.items, costcap, gascap);
    }

    method Ready(start: Nonce) returns (ready: seq<Tx>)
      requires Valid()
      modifies txs
      ensures Valid()
      ensures (forall n :: n in old(txs.items) ==> n > start) ==> ready == [] && txs.items == old(txs.items)
      ensures !(forall n :: n in old(txs.items) ==> n > start) ==>
                LongestRun(ready, old(txs.items)) && txs.items == AtLeast(old(txs.items), ready[0].nonce + |ready|)
    {
      ready := txs.Ready(start);
    }
  }

  lemma EmptyListing(s: seq<Tx>, m: TxMap)
    requires Listing(s, m) && s == []
    ensures m == map[]
  {
    HasValues(m);
    assert |multiset(s)| == |multiset(m.Values)|;
  }

  lemma RemovedAbove(m: TxMap, nonce: Nonce)
    requires ByNonce(m)
    ensures Spared(m - {nonce}, (t: Tx) => t.nonce > nonce) == Under(m, nonce)
    ensures Chosen(m - {nonce}, (t: Tx) => t.nonce > nonce) == AtLeast(m, nonce) - {nonce}
  {
  }
}
