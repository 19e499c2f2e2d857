/** The transactions of one account by nonce: a map, a heap of its nonces and a cached sorted list. */
module TxSortedMaps {
  import opened TimeLockItems
  import opened Heaps

  const NONCES := 0x1_0000_0000_0000_0000

  type Nonce = n: int | 0 <= n < NONCES

  /** A transaction. Two transactions are the same exactly when all their parts are, so that a
      transaction stands for its own hash. */
  datatype Tx = Tx(sender: nat, nonce: Nonce, gasPrice: nat, gas: nat, cost: nat, payload: nat)

  type TxMap = map<Nonce, Tx>

  function Next(n: Nonce): int {
    var k: int := n;
    k + 1
  }

  /** A nonce has 64 bits: the one after the last is 0. */
  function Wrapped(k: int): Nonce
    requires 0 <= k <= NONCES
  {
    if k == NONCES then 0 else k
  }

  predicate NonceLess(a: Nonce, b: Nonce) {
    a < b
  }

  predicate TxLess(a: Tx, b: Tx) {
    a.nonce < b.nonce
  }

  ghost predicate ByNonce(m: TxMap) {
    forall n :: n in m ==> m[n].nonce == n
  }

  ghost function Under(m: TxMap, t: int): TxMap {
    map n | n in m && n < t :: m[n]
  }

  ghost function AtLeast(m: TxMap, t: int): TxMap {
    map n | n in m && n >= t :: m[n]
  }

  ghost function Chosen(m: TxMap, f: Tx -> bool): TxMap {
    map n | n in m && f(m[n]) :: m[n]
  }

  ghost function Spared(m: TxMap, f: Tx -> bool): TxMap {
    map n | n in m && !f(m[n]) :: m[n]
  }

  ghost function Among(m: TxMap, keys: set<Nonce>): TxMap {
    map n | n in m && n in keys :: m[n]
  }

  ghost function Picked(m: TxMap, f: Tx -> bool, done: set<Nonce>): TxMap {
    map n | n in m && n in done && f(m[n]) :: m[n]
  }

  ghost function Unpicked(m: TxMap, f: Tx -> bool, done: set<Nonce>): TxMap {
    map n | n in m && !(n in done && f(m[n])) :: m[n]
  }

  // ---------- Listings ----------

  /** The list holds each transaction of the map once and nothing else. */
  ghost predicate Listing(s: seq<Tx>, m: TxMap) {
    multiset(s) == multiset(m.Values)
  }

  ghost predicate Ascending(s: seq<Tx>) {
    forall i, j :: 0 <= i < j < |s| ==> s[i].nonce < s[j].nonce
  }

  ghost predicate Descending(s: seq<Tx>) {
    forall i, j :: 0 <= i < j < |s| ==> s[i].nonce > s[j].nonce
  }

  ghost predicate InNonceOrder(s: seq<Tx>, m: TxMap) {
    Ascending(s) && Listing(s, m)
  }

  lemma Listed(s: seq<Tx>, m: TxMap, tx: Tx)
    requires ByNonce(m) && Listing(s, m)
    ensures tx in s <==> tx.nonce in m && m[tx.nonce] == tx
  {
    assert tx in s <==> tx in multiset(s);
    assert tx in multiset(m.Values) <==> tx in m.Values;
    Valued(m, tx);
  }

  lemma Valued(m: TxMap, tx: Tx)
    requires ByNonce(m)
    ensures tx in m.Values <==> tx.nonce in m && m[tx.nonce] == tx
  {
    if tx in m.Values {
      var n :| n in m && m[n] == tx;
    }
  }

  lemma ListMore(s: seq<Tx>, m: TxMap, m': TxMap, tx: Tx)
    requires ByNonce(m) && Listing(s, m) && tx.nonce !in m && m' == m[tx.nonce := tx]
    ensures Listing(s + [tx], m')
  {
    Valued(m, tx);
    assert m'.Values == m.Values + {tx} by {
      forall x | x in m.Values ensures x in m'.Values {
        var n :| n in m && m[n] == x;
        assert m'[n] == x;
      }
      assert m'[tx.nonce] == tx;
    }
    assert multiset(m.Values + {tx}) == multiset(m.Values) + multiset{tx};
  }

  lemma ListNone(m: TxMap)
    requires m == map[]
    ensures Listing([], m)
  {
    assert m.Values == {};
  }

  /** A list without repetition cannot hold a transaction at two places. */
  lemma ListOnce(s: seq<Tx>, m: TxMap, i: nat, j: nat)
    requires ByNonce(m) && Listing(s, m) && i < j < |s|
    ensures s[i].nonce != s[j].nonce
  {
    Listed(s, m, s[i]);
    Listed(s, m, s[j]);
    CountPair(s, i, j);
  }

  lemma CountPair(s: seq<Tx>, i: nat, j: nat)
    requires i < j < |s|
    ensures multiset(s)[s[i]] >= if s[i] == s[j] then 2 else 1
  {
    assert s == s[..j] + [s[j]] + s[j + 1..];
    assert s[i] in s[..j];
  }

  /** A sorted list cut at a nonce: the two parts are the sorted lists of the two parts of the map. */
  lemma CutAt(s: seq<Tx>, m: TxMap, t: int) returns (k: nat)
    requires ByNonce(m) && InNonceOrder(s, m)
    ensures k <= |s| && InNonceOrder(s[..k], Under(m, t)) && InNonceOrder(s[k..], AtLeast(m, t))
  {
    k := 0;
    while k < |s| && s[k].nonce < t
      invariant 0 <= k <= |s| && forall i :: 0 <= i < k ==> s[i].nonce < t
    {
      k := k + 1;
    }
    CutLists(s, m, t, k);
  }

  lemma CutLists(s: seq<Tx>, m: TxMap, t: int, k: nat)
    requires ByNonce(m) && InNonceOrder(s, m) && k <= |s|
    requires forall i :: 0 <= i < k ==> s[i].nonce < t
    requires k < |s| ==> s[k].nonce >= t
    ensures Listing(s[..k], Under(m, t)) && Listing(s[k..], AtLeast(m, t))
  {
    forall x: Tx {
      CutCount(s, m, t, k, x);
    }
  }

  lemma CutSides(s: seq<Tx>, t: int, k: nat, x: Tx)
    requires Ascending(s) && k <= |s|
    requires forall i :: 0 <= i < k ==> s[i].nonce < t
    requires k < |s| ==> s[k].nonce >= t
    ensures x in s[..k] ==> x.nonce < t
    ensures x in s[k..] ==> x.nonce >= t
  {
  }

  lemma CutCount(s: seq<Tx>, m: TxMap, t: int, k: nat, x: Tx)
    requires ByNonce(m) && InNonceOrder(s, m) && k <= |s|
    requires forall i :: 0 <= i < k ==> s[i].nonce < t
    requires k < |s| ==> s[k].nonce >= t
    ensures multiset(s[..k])[x] == multiset(Under(m, t).Values)[x]
    ensures multiset(s[k..])[x] == multiset(AtLeast(m, t).Values)[x]
  {
    hide Under, AtLeast, ByNonce, Ascending;
    var a, b := s[..k], s[k..];
    assert s == a + b;
    PartValues(m, t, x);
    CutSides(s, t, k, x);
    assert multiset(s)[x] == multiset(a)[x] + multiset(b)[x];
  }

  lemma PartValues(m: TxMap, t: int, x: Tx)
    requires ByNonce(m)
    ensures x in m.Values <==> x.nonce in m && m[x.nonce] == x
    ensures x in Under(m, t).Values <==> x in m.Values && x.nonce < t
    ensures x in AtLeast(m, t).Values <==> x in m.Values && x.nonce >= t
  {
    if x in m.Values {
      var n :| n in m && m[n] == x;
      if n < t {
        assert Under(m, t)[n] == x;
      } else {
        assert AtLeast(m, t)[n] == x;
      }
    }
  }

  /** A map has one list in nonce order. */
  lemma OneOrder(a: seq<Tx>, b: seq<Tx>, m: TxMap)
    requires ByNonce(m) && InNonceOrder(a, m) && InNonceOrder(b, m)
    ensures a == b
  {
    assert |a| == |multiset(a)| == |multiset(b)| == |b|;
    var k := 0;
    while k < |a|
      invariant 0 <= k <= |a| && a[..k] == b[..k]
    {
      SameNext(a, b, m, k);
      k := k + 1;
    }
  }

  lemma SameNext(a: seq<Tx>, b: seq<Tx>, m: TxMap, k: nat)
    requires ByNonce(m) && InNonceOrder(a, m) && InNonceOrder(b, m) && k < |a| == |b| && a[..k] == b[..k]
    ensures a[k] == b[k]
  {
    Listed(a, m, a[k]);
    Listed(b, m, a[k]);
    Listed(a, m, b[k]);
    Listed(b, m, b[k]);
    forall i | 0 <= i < k ensures a[i] == b[i] {
      assert a[..k][i] == b[..k][i];
    }
    var p :| 0 <= p < |b| && b[p] == a[k];
    var q :| 0 <= q < |a| && a[q] == b[k];
  }

  // ---------- The heap of nonces ----------

  lemma NonceOrder()
    ensures Order(NonceLess)
  {
  }

  lemma TxOrder()
    ensures Order(TxLess)
  {
  }

  /** The heap holds each nonce of the map once. */
  ghost predicate Indexed(index: seq<Nonce>, m: TxMap) {
    IsHeap(index, NonceLess) && multiset(index) == multiset(m.Keys)
  }

  lemma IndexedKeys(index: seq<Nonce>, m: TxMap, n: Nonce)
    requires multiset(index) == multiset(m.Keys)
    ensures n in index <==> n in m
    ensures |index| == |m|
  {
    assert n in index <==> n in multiset(index);
    assert |index| == |multiset(index)| && |multiset(m.Keys)| == |m.Keys|;
  }

  lemma IndexLess(index: seq<Nonce>, rest: seq<Nonce>, m: TxMap, n: Nonce)
    requires multiset(index) == multiset(m.Keys) && multiset(index) == multiset(rest) + multiset{n}
    ensures n in m && multiset(rest) == multiset((m - {n}).Keys)
  {
    IndexedKeys(index, m, n);
    assert n in multiset(index);
    assert (m - {n}).Keys == m.Keys - {n};
    assert multiset(m.Keys - {n}) == multiset(m.Keys) - multiset{n};
  }

  /** Taking the top of the heap moves the border between taken and left to just above it. */
  lemma TakeLeast(all: TxMap, t: int, index: seq<Nonce>, rest: seq<Nonce>, taken: seq<Tx>)
    requires ByNonce(all) && Indexed(index, AtLeast(all, t)) && index != [] && InNonceOrder(taken, Under(all, t))
    requires multiset(index) == multiset(rest) + multiset{index[0]}
    ensures var n := index[0];
            && n in all && t <= n && multiset(rest) == multiset(AtLeast(all, Next(n)).Keys)
            && AtLeast(all, Next(n)) == AtLeast(all, t) - {n}
            && InNonceOrder(taken + [all[n]], Under(all, Next(n)))
  {
    var n := index[0];
    var left := AtLeast(all, t);
    IndexLess(index, rest, left, n);
    forall k | k in left ensures k >= n {
      LeastOf(index, left, k);
    }
    assert AtLeast(all, Next(n)) == left - {n};
    assert Under(all, Next(n)) == Under(all, t)[n := all[n]] by {
      assert forall k :: k in all && t <= k ==> k in left;
    }
    ListMore(taken, Under(all, t), Under(all, Next(n)), all[n]);
    TakenUnder(taken, Under(all, t), n);
  }

  lemma TakenUnder(taken: seq<Tx>, m: TxMap, n: Nonce)
    requires ByNonce(m) && Listing(taken, m) && forall k :: k in m ==> k < n
    ensures forall i :: 0 <= i < |taken| ==> taken[i].nonce < n
  {
    forall i | 0 <= i < |taken| ensures taken[i].nonce < n {
      Listed(taken, m, taken[i]);
    }
  }

  lemma LeastOf(index: seq<Nonce>, m: TxMap, k: Nonce)
    requires Indexed(index, m) && k in m
    ensures index != [] && index[0] <= k
  {
    IndexedKeys(index, m, k);
    NonceOrder();
    var i :| 0 <= i < |index| && index[i] == k;
    TopIsLeast(index, NonceLess, i);
  }

  lemma NoneLeft(all: TxMap, t: int, t': int, index: seq<Nonce>)
    requires Indexed(index, AtLeast(all, t)) && t <= t' && (index == [] || index[0] >= t')
    ensures AtLeast(all, t) == AtLeast(all, t') && Under(all, t) == Under(all, t')
  {
    forall k | k in AtLeast(all, t) ensures k >= t' {
      LeastOf(index, AtLeast(all, t), k);
    }
    assert forall k :: k in all && t <= k ==> k in AtLeast(all, t);
  }

  lemma AllAtLeastZero(m: TxMap)
    ensures AtLeast(m, 0) == m && Under(m, 0) == map[]
  {
  }

  /** The highest nonces went, as many as needed. */
  ghost predicate KeepsLowest(all: TxMap, kept: TxMap, limit: nat) {
    && kept.Keys <= all.Keys && (forall n :: n in kept ==> kept[n] == all[n])
    && |kept| == (if |all| <= limit then |all| else limit)
    && forall a, b :: a in kept && b in all && b !in kept ==> a < b
  }

  // ---------- The map ----------

  class TxSortedMap {
    var items: TxMap
    var index: seq<Nonce>
    var cache: Option<seq<Tx>>

    ghost predicate Valid()
      reads this
    {
      && ByNonce(items) && Indexed(index, items)
      && (cache.Some? ==> InNonceOrder(cache.value, items))
    }

    constructor ()
      ensures Valid() && items == map[]
    {
      items, index, cache := map[], [], None;
    }

    method Put(tx: Tx)
      requires Valid()
      modifies this
      ensures Valid() && items == old(items)[tx.nonce := tx]
    {
      hide IsHeap, Order, InNonceOrder;
      NonceOrder();
      KeysMore(items, tx);
      if tx.nonce !in items {
        index := Push(index, tx.nonce, NonceLess);
      }
      items, cache := items[tx.nonce := tx], None;
    }

    method Forward(threshold: Nonce) returns (removed: seq<Tx>)
      requires Valid()
      modifies this
      ensures Valid() && items == AtLeast(old(items), threshold)
      ensures InNonceOrder(removed, Under(old(items), threshold))
    {
      hide IsHeap, Order, InNonceOrder, Under, AtLeast;
      NonceOrder();
      ghost var all := items;
      ghost var t := 0;
      removed := [];
      AllAtLeastZero(all);
      NothingTaken(all);
      while |index| > 0 && index[0] < threshold
        invariant 0 <= t <= threshold && items == AtLeast(all, t) && Indexed(index, items)
        invariant InNonceOrder(removed, Under(all, t)) && cache == old(cache)
        decreases |index|
      {
        ghost var before := index;
        var nonce, rest := Pop(index, NonceLess);
        TakeLeast(all, t, index, rest, removed);
        PopShorter(index, rest, nonce);
        ReadAtLeast(all, t, nonce);
        index := rest;
        removed := removed + [items[nonce]];
        items := items - {nonce};
        t := Next(nonce);
      }
      NoneLeft(all, t, threshold, index);
      PartByNonce(all, threshold);
      if cache.Some? {
        CutCache(cache.value, all, threshold, removed);
        cache := Some(cache.value[|removed|..]);
      }
    }

    method Filter(filter: Tx -> bool) returns (removed: seq<Tx>)
      requires Valid()
      modifies this
      ensures Valid() && items == Spared(old(items), filter) && Listing(removed, Chosen(old(items), filter))
    {
      hide IsHeap, Order, InNonceOrder, Listing, Picked, Unpicked, Spared, Chosen, ByNonce;
      ghost var all := items;
      ghost var done := {};
      var todo := items.Keys;
      removed := [];
      FilterStart(all, filter);
      while todo != {}
        invariant todo == all.Keys - done && done <= all.Keys && index == old(index) && cache == old(cache)
        invariant items == Unpicked(all, filter, done) && Listing(removed, Picked(all, filter, done))
        decreases |todo|
      {
        var nonce :| nonce in todo;
        FilterStep(all, filter, done, nonce, removed);
        if filter(items[nonce]) {
          removed := removed + [items[nonce]];
          items := items - {nonce};
        }
        todo := todo - {nonce};
        done := done + {nonce};
      }
      FilterDone(all, filter, done);
      if |removed| > 0 {
        index := Keys(items);
        NonceOrder();
        index := Init(index, NonceLess);
        cache := None;
      } else {
        NothingChosen(all, filter, removed);
      }
    }

    /** Puts a limit on the number of transactions, which the pool never makes negative. */
    method Cap(threshold: nat) returns (drops: seq<Tx>)
      requires Valid()
      modifies this
      ensures Valid() && KeepsLowest(old(items), items, threshold)
      ensures Descending(drops) && Listing(drops, old(items) - items.Keys)
    {
      hide IsHeap, Order, InNonceOrder, Under, AtLeast, Listing, Sorted, KeepsLowest, Descending, ByNonce;
      ghost var all := items;
      if |items| <= threshold {
        drops := [];
        CapNothing(all, threshold);
        return;
      }
      NonceOrder();
      IndexedKeys(index, items, 0);
      index := Sort(index, NonceLess);
      SameLength(index, old(index));
      drops := [];
      ghost var t := NONCES;
      var size := |items|;
      CapStart(all);
      while size > threshold
        invariant threshold <= size <= |index| == |all| && items == Under(all, t) && cache == old(cache)
        invariant multiset(index[..size]) == multiset(items.Keys) && Sorted(index, NonceLess)
        invariant Descending(drops) && Listing(drops, AtLeast(all, t))
      {
        var top := index[size - 1];
        CapStep(all, t, index, size, drops);
        drops := drops + [items[top]];
        items := items - {top};
        size := size - 1;
        t := top;
      }
      IndexedKeys(index[..threshold], items, 0);
      CapDone(all, t, threshold);
      index := Init(index[..threshold], NonceLess);
      if cache.Some? {
        CapCache(cache.value, all, t, drops);
        cache := Some(cache.value[..|cache.value| - |drops|]);
      }
    }

    method Remove(nonce: Nonce) returns (found: bool)
      requires Valid()
      modifies this
      ensures Valid() && found == (nonce in old(items)) && items == old(items) - {nonce}
    {
      hide IsHeap, Order, InNonceOrder;
      found := nonce in items;
      if !found {
        assert items - {nonce} == items;
        return;
      }
      NonceOrder();
      IndexedKeys(index, items, nonce);
      var i := 0;
      while index[i] != nonce
        invariant 0 <= i < |index| && nonce in index[i..]
        decreases |index| - i
      {
        i := i + 1;
      }
      var rest := Heaps.Remove(index, i, NonceLess);
      IndexLess(index, rest, items, nonce);
      index := rest;
      items := items - {nonce};
      cache := None;
    }

    /** The run of consecutive nonces that starts at the smallest one, if that one is due. */
    method Ready(start: Nonce) returns (ready: seq<Tx>)
      requires Valid()
      modifies this
      ensures Valid()
      ensures (forall n :: n in old(items) ==> n > start) ==> ready == [] && items == old(items)
      ensures !(forall n :: n in old(items) ==> n > start) ==>
        LongestRun(ready, old(items)) && items == AtLeast(old(items), ready[0].nonce + |ready|)
    {
      hide IsHeap, Order, InNonceOrder, Under, AtLeast, LongestRun, ByNonce, Consecutive;
      NonceOrder();
      ghost var all := items;
      ready := [];
      if |index| == 0 || index[0] > start {
        NoneDue(index, items, start);
        return;
      }
      SomeDue(index, items);
      ghost var first: int := index[0];
      ghost var t := first;
      RunStarts(all, first);
      var next: Nonce := index[0];
      while |index| > 0 && index[0] == next
        invariant first <= t <= NONCES && t == first + |ready| && next == Wrapped(t)
        invariant ready == [] ==> |index| > 0 && index[0] == next
        invariant items == AtLeast(all, t) && Indexed(index, items)
        invariant InNonceOrder(ready, Under(all, t)) && Consecutive(ready, first)
        decreases |index|
      {
        var nonce, rest := Pop(index, NonceLess);
        TakeLeast(all, t, index, rest, ready);
        PopShorter(index, rest, nonce);
        ReadAtLeast(all, t, nonce);
        RunGrows(ready, first, all[nonce]);
        ready := ready + [items[next]];
        items := items - {next};
        index := rest;
        t := Next(nonce);
        next := Wrapped(Next(next));
      }
      cache := None;
      RunEnds(all, t, index, ready, first, next);
    }

    /** The transactions in nonce order; the order is kept for the next call. */
    method Flatten() returns (txs: seq<Tx>)
      requires Valid()
      modifies this`cache
      ensures Valid() && InNonceOrder(txs, items)
    {
      hide IsHeap, Order, InNonceOrder;
      if cache.None? {
        var c := [];
        var todo := items.Keys;
        ListNone(Among(items, items.Keys - todo));
        while todo != {}
          invariant todo <= items.Keys && Listing(c, Among(items, items.Keys - todo))
          decreases |todo|
        {
          var nonce :| nonce in todo;
          ListMore(c, Among(items, items.Keys - todo), Among(items, items.Keys - (todo - {nonce})), items[nonce]);
          c := c + [items[nonce]];
          todo := todo - {nonce};
        }
        assert Among(items, items.Keys - todo) == items;
        TxOrder();
        c := Sort(c, TxLess);
        SortedAscends(c, items);
        cache := Some(c);
      }
      txs := cache.value;
    }
  }

  lemma KeysMore(m: TxMap, tx: Tx)
    requires ByNonce(m)
    ensures var m' := m[tx.nonce := tx];
            ByNonce(m') && multiset(m'.Keys) ==
              if tx.nonce in m then multiset(m.Keys) else multiset(m.Keys) + multiset{tx.nonce}
  {
    assert m[tx.nonce := tx].Keys == m.Keys + {tx.nonce};
  }

  method Keys(m: TxMap) returns (keys: seq<Nonce>)
    ensures multiset(keys) == multiset(m.Keys)
  {
    keys := [];
    var todo := m.Keys;
    while todo != {}
      invariant todo <= m.Keys && multiset(keys) == multiset(m.Keys - todo)
      decreases |todo|
    {
      var n :| n in todo;
      keys := keys + [n];
      assert m.Keys - (todo - {n}) == (m.Keys - todo) + {n};
      todo := todo - {n};
    }
  }

  // ---------- Steps of the operations ----------

  lemma NothingTaken(all: TxMap)
    requires ByNonce(all)
    ensures InNonceOrder([], Under(all, 0))
  {
    ListNone(Under(all, 0));
  }

  lemma PartByNonce(all: TxMap, t: int)
    requires ByNonce(all)
    ensures ByNonce(AtLeast(all, t)) && ByNonce(Under(all, t))
  {
  }

  lemma ReadAtLeast(all: TxMap, t: int, n: Nonce)
    requires ByNonce(all) && n in all && n >= t
    ensures n in AtLeast(all, t) && AtLeast(all, t)[n] == all[n] && all[n].nonce == n
  {
  }

  lemma CutCache(c: seq<Tx>, all: TxMap, t: int, removed: seq<Tx>)
    requires ByNonce(all) && InNonceOrder(c, all) && InNonceOrder(removed, Under(all, t))
    ensures |removed| <= |c| && InNonceOrder(c[|removed|..], AtLeast(all, t))
  {
    hide InNonceOrder;
    var k := CutAt(c, all, t);
    OneOrder(c[..k], removed, Under(all, t));
  }

  lemma FilterStart(all: TxMap, f: Tx -> bool)
    ensures Unpicked(all, f, {}) == all && Listing([], Picked(all, f, {}))
  {
    assert Picked(all, f, {}) == map[];
    ListNone(Picked(all, f, {}));
  }

  lemma FilterStep(all: TxMap, f: Tx -> bool, done: set<Nonce>, n: Nonce, removed: seq<Tx>)
    requires ByNonce(all) && n in all && n !in done && Listing(removed, Picked(all, f, done))
    ensures n in Unpicked(all, f, done) && Unpicked(all, f, done)[n] == all[n]
    ensures Unpicked(all, f, done + {n}) == if f(all[n]) then Unpicked(all, f, done) - {n} else Unpicked(all, f, done)
    ensures Listing(if f(all[n]) then removed + [all[n]] else removed, Picked(all, f, done + {n}))
  {
    if f(all[n]) {
      assert Picked(all, f, done + {n}) == Picked(all, f, done)[n := all[n]];
      ListMore(removed, Picked(all, f, done), Picked(all, f, done + {n}), all[n]);
    } else {
      assert Picked(all, f, done + {n}) == Picked(all, f, done);
    }
  }

  lemma FilterDone(all: TxMap, f: Tx -> bool, done: set<Nonce>)
    requires ByNonce(all) && all.Keys <= done
    ensures Unpicked(all, f, done) == Spared(all, f)
    ensures Picked(all, f, done) == Chosen(all, f) && ByNonce(Spared(all, f))
  {
  }

  lemma NothingChosen(all: TxMap, f: Tx -> bool, removed: seq<Tx>)
    requires Listing(removed, Chosen(all, f)) && removed == []
    ensures Spared(all, f) == all
  {
    HasValues(Chosen(all, f));
    assert |multiset(removed)| == |multiset(Chosen(all, f).Values)|;
    assert forall n :: n in all && f(all[n]) ==> n in Chosen(all, f);
  }

  lemma HasValues(m: TxMap)
    ensures m != map[] ==> m.Values != {}
  {
    if m != map[] {
      var n :| n in m;
      assert m[n] in m.Values;
    }
  }

  lemma SameLength(a: seq<Nonce>, b: seq<Nonce>)
    requires multiset(a) == multiset(b)
    ensures |a| == |b| && a[..|a|] == a
  {
    assert |multiset(a)| == |a| && |multiset(b)| == |b|;
  }

  lemma CapNothing(all: TxMap, limit: nat)
    requires |all| <= limit
    ensures KeepsLowest(all, all, limit) && Descending([]) && Listing([], all - all.Keys)
  {
    assert all - all.Keys == map[];
    ListNone(all - all.Keys);
  }

  lemma CapStart(all: TxMap)
    ensures Under(all, NONCES) == all && Descending([]) && Listing([], AtLeast(all, NONCES))
  {
    assert AtLeast(all, NONCES) == map[];
    ListNone(AtLeast(all, NONCES));
  }

  lemma CapStep(all: TxMap, t: int, index: seq<Nonce>, size: nat, drops: seq<Tx>)
    requires ByNonce(all) && 0 < size <= |index| && Sorted(index, NonceLess)
    requires multiset(index[..size]) == multiset(Under(all, t).Keys)
    requires Descending(drops) && Listing(drops, AtLeast(all, t))
    ensures var top := index[size - 1];
            && top in Under(all, t) && Under(all, t)[top] == all[top] && Under(all, top) == Under(all, t) - {top}
            && multiset(index[..size - 1]) == multiset(Under(all, top).Keys)
            && Descending(drops + [all[top]]) && Listing(drops + [all[top]], AtLeast(all, top))
  {
    var top := index[size - 1];
    var low := Under(all, t);
    assert index[..size] == index[..size - 1] + [top];
    IndexLess(index[..size], index[..size - 1], low, top);
    forall k | k in low ensures k <= top {
      IndexedKeys(index[..size], low, k);
      var i :| 0 <= i < size && index[..size][i] == k;
      if i < size - 1 {
        assert AtMost(NonceLess, index[i], index[size - 1]);
      }
    }
    assert Under(all, top) == low - {top};
    assert AtLeast(all, top) == AtLeast(all, t)[top := all[top]] by {
      assert forall n :: n in all && n < t ==> n in low;
    }
    ListMore(drops, AtLeast(all, t), AtLeast(all, top), all[top]);
    forall i | 0 <= i < |drops| ensures drops[i].nonce > top {
      Listed(drops, AtLeast(all, t), drops[i]);
    }
  }

  lemma CapDone(all: TxMap, t: int, limit: nat)
    requires ByNonce(all) && |Under(all, t)| == limit <= |all|
    ensures KeepsLowest(all, Under(all, t), limit)
    ensures all - Under(all, t).Keys == AtLeast(all, t) && ByNonce(Under(all, t))
  {
    var kept := Under(all, t);
    assert forall n :: n in all && n !in kept ==> n >= t;
  }

  lemma CapCache(c: seq<Tx>, all: TxMap, t: int, drops: seq<Tx>)
    requires ByNonce(all) && InNonceOrder(c, all) && Listing(drops, AtLeast(all, t))
    ensures |drops| <= |c| && InNonceOrder(c[..|c| - |drops|], Under(all, t))
  {
    var k := CutAt(c, all, t);
    assert |drops| == |multiset(drops)| == |multiset(c[k..])| == |c| - k;
  }

  /** The transactions are the consecutive ones from the smallest nonce on, and the next nonce is
      not in the map. */
  ghost predicate LongestRun(ready: seq<Tx>, m: TxMap) {
    && ready != []
    && (forall n :: n in m ==> ready[0].nonce <= n)
    && (forall i :: 0 <= i < |ready| ==>
         ready[i].nonce == ready[0].nonce + i && ready[i].nonce in m && m[ready[i].nonce] == ready[i])
    && forall n :: n in m ==> n != ready[0].nonce + |ready|
  }

  lemma NoneDue(index: seq<Nonce>, m: TxMap, start: Nonce)
    requires Indexed(index, m) && (|index| == 0 || index[0] > start)
    ensures forall n :: n in m ==> n > start
  {
    forall n | n in m ensures n > start {
      LeastOf(index, m, n);
    }
  }

  lemma SomeDue(index: seq<Nonce>, m: TxMap)
    requires Indexed(index, m) && |index| > 0
    ensures index[0] in m && forall n :: n in m ==> index[0] <= n
  {
    IndexedKeys(index, m, index[0]);
    forall n | n in m ensures index[0] <= n {
      LeastOf(index, m, n);
    }
  }

  ghost predicate Consecutive(ready: seq<Tx>, first: int) {
    forall i :: 0 <= i < |ready| ==> ready[i].nonce == first + i
  }

  lemma RunStarts(all: TxMap, first: int)
    requires forall n :: n in all ==> first <= n
    ensures AtLeast(all, first) == all && InNonceOrder([], Under(all, first)) && Consecutive([], first)
  {
    assert Under(all, first) == map[];
    ListNone(Under(all, first));
  }

  lemma RunGrows(ready: seq<Tx>, first: int, tx: Tx)
    requires Consecutive(ready, first) && tx.nonce == first + |ready|
    ensures Consecutive(ready + [tx], first)
  {
  }

  lemma RunEnds(all: TxMap, t: int, index: seq<Nonce>, ready: seq<Tx>, first: Nonce, next: Nonce)
    requires ByNonce(all) && Indexed(index, AtLeast(all, t)) && InNonceOrder(ready, Under(all, t))
    requires first in all && (forall n :: n in all ==> first <= n) && ready != [] && t == first + |ready| <= NONCES
    requires Consecutive(ready, first)
    requires next == Wrapped(t) && (|index| == 0 || index[0] != next)
    ensures LongestRun(ready, all) && ByNonce(AtLeast(all, t))
  {
    forall i | 0 <= i < |ready| ensures ready[i].nonce in all && all[ready[i].nonce] == ready[i] {
      Listed(ready, Under(all, t), ready[i]);
    }
    forall n | n in all ensures n != t {
      if n == t {
        LeastOf(index, AtLeast(all, t), n);
        IndexedKeys(index, AtLeast(all, t), index[0]);
      }
    }
  }

  lemma SortedAscends(c: seq<Tx>, m: TxMap)
    requires ByNonce(m) && Listing(c, m) && Sorted(c, TxLess)
    ensures InNonceOrder(c, m)
  {
    forall i, j | 0 <= i < j < |c| ensures c[i].nonce < c[j].nonce {
      ListOnce(c, m, i, j);
      assert AtMost(TxLess, c[i], c[j]);
    }
  }
}
