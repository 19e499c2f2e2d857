/** The pool's limit on pending transactions: the longest lists of remote accounts are cut, a
    transaction each at a time, until the total fits. The levels are proved on the lists'
    transactions in nonce order; an account stands for its address. */
module PendingLevels {
  import opened Sums
  import opened TxSortedMaps
  import opened TxLists
  import opened TxPricedLists

  type Lists = map<nat, seq<Tx>>

  function Length(a: nat, list: seq<Tx>): int {
    |list|
  }

  ghost function Total(p: Lists): int {
    SumOver(p, Length)
  }

  ghost function Cut(list: seq<Tx>, level: nat): seq<Tx> {
    if |list| <= level then list else list[..level]
  }

  /** Every remote list is cut to the level; the lists of local accounts stay. */
  ghost function Levelled(p: Lists, locals: set<nat>, level: nat): Lists {
    map a | a in p :: if a in locals then p[a] else Cut(p[a], level)
  }

  /** The remote accounts whose list is longer than the level. */
  ghost function Above(p: Lists, locals: set<nat>, level: nat): set<nat> {
    set a | a in p && a !in locals && |p[a]| > level
  }

  /** What a common level means for each account. */
  lemma LevelMeaning(p: Lists, locals: set<nat>, slots: nat, level: nat, a: nat)
    requires slots <= level && a in p
    ensures var q := Levelled(p, locals, level);
            && a in q && q[a] <= p[a]
            && (a in locals || |p[a]| <= slots ==> q[a] == p[a])
            && (a !in locals ==> |q[a]| <= level)
            && (q[a] != p[a] ==> |q[a]| == level)
            && (q[a] != p[a] <==> a in Above(p, locals, level))
  {
  }

  /** A list capped to one less than its length loses the last of its transactions. */
  lemma CapDropsLast(m: TxMap, kept: TxMap, s: seq<Tx>, drops: seq<Tx>)
    requires ByNonce(m) && m != map[] && KeepsLowest(m, kept, |m| - 1) && InNonceOrder(s, m)
    requires Listing(drops, m - kept.Keys)
    ensures s != [] && InNonceOrder(s[..|s| - 1], kept) && drops == [s[|s| - 1]]
  {
    hide KeepsLowest, Under, AtLeast, ByNonce, Ascending;
    var b := OneMissing(m, kept);
    var k := CutAt(s, m, b);
    assert map[b := m[b]].Values == {m[b]};
    assert |multiset({m[b]})| == 1;
    assert |s[k..]| == |multiset(s[k..])| == 1;
    OnlyMember(s[k..], m[b]);
    OnlyMember(drops, m[b]);
  }

  lemma OnlyMember(s: seq<Tx>, tx: Tx)
    requires multiset(s) == multiset({tx})
    ensures s == [tx]
  {
    assert |s| == |multiset(s)| == |multiset({tx})| == 1;
    assert s[0] in multiset(s);
  }

  /** A listing is as long as the map. */
  lemma {:induction false} ListingLength(s: seq<Tx>, m: TxMap)
    requires ByNonce(m) && Listing(s, m)
    ensures |s| == |m|
  {
    assert |s| == |multiset(s)| == |multiset(m.Values)|;
    ValuesLength(m);
  }

  lemma {:induction false} ValuesLength(m: TxMap)
    requires ByNonce(m)
    ensures |m.Values| == |m|
    decreases |m|
  {
    if m == map[] {
      assert m.Values == {};
    } else {
      var n :| n in m;
      var rest := m - {n};
      RemoveShrinks(m, n);
      ValuesLength(rest);
      Valued(rest, m[n]);
      forall x ensures x in m.Values <==> x in rest.Values + {m[n]} {
        Valued(m, x);
        Valued(rest, x);
      }
      assert m.Values == rest.Values + {m[n]};
    }
  }

  lemma OneMissing(m: TxMap, kept: TxMap) returns (b: Nonce)
    requires m != map[] && KeepsLowest(m, kept, |m| - 1)
    ensures b in m && Under(m, b) == kept && AtLeast(m, b) == map[b := m[b]] == m - kept.Keys
  {
    b := Singled(m.Keys, kept.Keys);
    assert forall n :: n in m && n !in kept ==> n in m.Keys - kept.Keys;
  }

  lemma Singled(all: set<Nonce>, part: set<Nonce>) returns (b: Nonce)
    requires part <= all && |part| == |all| - 1
    ensures all - part == {b}
  {
    var missing := all - part;
    assert |missing| == 1;
    b :| b in missing;
    assert |missing - {b}| == 0;
  }

  // ---------- What goes with a dropped transaction ----------

  function NonceOf(nonces: map<nat, Nonce>, a: nat): Nonce {
    if a in nonces then nonces[a] else 0
  }

  /** The transactions cut off. */
  ghost function Lost(p: Lists, q: Lists): set<Tx> {
    set a, k | a in p && a in q && |q[a]| <= k < |p[a]| :: p[a][k]
  }

  /** The next nonce of an account falls to that of its first dropped transaction. */
  ghost function LoweredNonce(p: Lists, q: Lists, nonces: map<nat, Nonce>, a: nat): Nonce {
    if a in p && a in q && |q[a]| < |p[a]| && p[a][|q[a]|].nonce < NonceOf(nonces, a)
    then p[a][|q[a]|].nonce
    else NonceOf(nonces, a)
  }

  ghost predicate Prefixes(p: Lists, q: Lists) {
    q.Keys == p.Keys && forall a :: a in p ==> q[a] <= p[a]
  }

  ghost predicate AllAscending(p: Lists) {
    forall a :: a in p ==> Ascending(p[a])
  }

  /** The lookup and the next nonces follow the lists. */
  ghost predicate Tracked(p: Lists, nonces: map<nat, Nonce>, all: set<Tx>, q: Lists, nonces': map<nat, Nonce>,
                          all': set<Tx>) {
    && Prefixes(p, q) && all' == all - Lost(p, q)
    && forall a :: NonceOf(nonces', a) == LoweredNonce(p, q, nonces, a)
  }

  lemma TrackedSelf(p: Lists, nonces: map<nat, Nonce>, all: set<Tx>)
    ensures Tracked(p, nonces, all, p, nonces, all)
  {
  }

  /** What the dropped ends of the lists mean for the lookup and for the nonces: the pool forgets
      exactly the dropped transactions, and the nonce of an account falls to the first one dropped. */
  lemma TrackedMeaning(p: Lists, nonces: map<nat, Nonce>, all: set<Tx>, q: Lists, nonces': map<nat, Nonce>,
                       all': set<Tx>)
    requires Tracked(p, nonces, all, q, nonces', all')
    ensures forall a :: a in p ==> a in q && q[a] <= p[a]
    ensures forall tx :: tx in all' <==> tx in all && forall a, k :: a in p && |q[a]| <= k < |p[a]| ==> p[a][k] != tx
    ensures forall a :: NonceOf(nonces', a) <= NonceOf(nonces, a)
    ensures forall a :: a in p && |q[a]| < |p[a]| ==>
      var first := p[a][|q[a]|].nonce;
      NonceOf(nonces', a) == if NonceOf(nonces, a) < first then NonceOf(nonces, a) else first
    ensures forall a :: !(a in p && |q[a]| < |p[a]|) ==> NonceOf(nonces', a) == NonceOf(nonces, a)
  {
    forall tx ensures tx in Lost(p, q) <==> exists a, k :: a in p && |q[a]| <= k < |p[a]| && p[a][k] == tx {
      if a, k :| a in p && |q[a]| <= k < |p[a]| && p[a][k] == tx {
        assert a in q;
      }
    }
  }

  function LowerTo(nonces: map<nat, Nonce>, a: nat, n: Nonce): map<nat, Nonce> {
    if NonceOf(nonces, a) > n then nonces[a := n] else nonces
  }

  lemma TrackedDrop(p: Lists, nonces: map<nat, Nonce>, all: set<Tx>, q: Lists, nonces': map<nat, Nonce>, all': set<Tx>,
                    a: nat)
    requires AllAscending(p) && Tracked(p, nonces, all, q, nonces', all') && a in q && q[a] != []
    ensures var tx := q[a][|q[a]| - 1];
            Tracked(p, nonces, all, q[a := q[a][..|q[a]| - 1]], LowerTo(nonces', a, tx.nonce), all' - {tx})
  {
    var k := |q[a]| - 1;
    var tx := q[a][k];
    var q' := q[a := q[a][..k]];
    assert tx == p[a][k];
    LostMore(p, q, a);
    var n' := LowerTo(nonces', a, tx.nonce);
    forall b ensures NonceOf(n', b) == LoweredNonce(p, q', nonces, b) {
      assert NonceOf(nonces', b) == LoweredNonce(p, q, nonces, b);
      if b == a && k + 1 < |p[a]| {
        assert p[a][k].nonce < p[a][k + 1].nonce;
      }
    }
  }

  lemma LostMore(p: Lists, q: Lists, a: nat)
    requires Prefixes(p, q) && a in q && q[a] != []
    ensures var k := |q[a]| - 1;
            Lost(p, q[a := q[a][..k]]) == Lost(p, q) + {p[a][k]}
  {
    var k := |q[a]| - 1;
    var q' := q[a := q[a][..k]];
    forall tx | tx in Lost(p, q) ensures tx in Lost(p, q') {
      var b, j :| b in p && b in q && |q[b]| <= j < |p[b]| && p[b][j] == tx;
      assert |q'[b]| <= j;
    }
    forall tx | tx in Lost(p, q') ensures tx in Lost(p, q) || tx == p[a][k] {
      var b, j :| b in p && b in q' && |q'[b]| <= j < |p[b]| && p[b][j] == tx;
    }
    assert p[a][k] in Lost(p, q');
  }

  lemma TotalDrop(q: Lists, a: nat)
    requires a in q && q[a] != []
    ensures Total(q[a := q[a][..|q[a]| - 1]]) == Total(q) - 1
  {
    SumUpdate(q, a, q[a][..|q[a]| - 1], Length);
  }

  // ---------- One round over the offenders ----------

  /** The lists in the middle of a round: those done are one shorter. */
  ghost function Midway(p: Lists, locals: set<nat>, level: nat, done: set<nat>): Lists
    requires level > 0
  {
    map a | a in p :: if a in locals then p[a] else Cut(p[a], if a in done then level - 1 else level)
  }

  ghost function Members(s: seq<nat>): set<nat> {
    set a | a in s
  }

  ghost predicate Distinct(s: seq<nat>) {
    forall i, j :: 0 <= i < j < |s| ==> s[i] != s[j]
  }

  lemma {:induction false} DistinctSize(s: seq<nat>)
    requires Distinct(s)
    ensures |Members(s)| == |s|
  {
    if s != [] {
      var k := |s| - 1;
      DistinctSize(s[..k]);
      assert s == s[..k] + [s[k]];
      assert Members(s) == Members(s[..k]) + {s[k]};
    }
  }

  lemma MidwayEnds(p: Lists, locals: set<nat>, level: nat)
    requires level > 0
    ensures Midway(p, locals, level, {}) == Levelled(p, locals, level)
    ensures Midway(p, locals, level, Above(p, locals, level - 1)) == Levelled(p, locals, level - 1)
  {
  }

  lemma MidwayStep(p: Lists, locals: set<nat>, level: nat, done: set<nat>, a: nat)
    requires level > 0 && a in Above(p, locals, level - 1) && a !in done
    ensures var q := Midway(p, locals, level, done);
            && a in q && |q[a]| == level
            && Midway(p, locals, level, done + {a}) == q[a := q[a][..level - 1]]
  {
    var q := Midway(p, locals, level, done);
    assert p[a][..level][..level - 1] == p[a][..level - 1];
  }

  // ---------- The offenders ----------

  /** The accounts over the allowance are waiting or have been called, the longest lists first. */
  ghost predicate Queue(p: Lists, locals: set<nat>, slots: nat, called: seq<nat>, waiting: map<nat, int>) {
    && Distinct(called) && Members(called) !! waiting.Keys
    && Members(called) + waiting.Keys == Above(p, locals, slots)
    && (forall a :: a in waiting ==> waiting[a] == |p[a]|)
    && (forall i :: 0 <= i < |called| ==> called[i] in p)
    && (forall i, a :: 0 <= i < |called| && a in waiting ==> |p[called[i]]| >= |p[a]|)
    && (forall i, j :: 0 <= i < j < |called| ==> |p[called[i]]| >= |p[called[j]]|)
  }

  /** The accounts over the allowance that have been looked at. */
  ghost predicate Noted(p: Lists, locals: set<nat>, slots: nat, todo: set<nat>, waiting: map<nat, int>) {
    && waiting.Keys == Above(p, locals, slots) - todo
    && forall a :: a in waiting ==> waiting[a] == |p[a]|
  }

  lemma NoneNoted(p: Lists, locals: set<nat>, slots: nat)
    ensures Noted(p, locals, slots, p.Keys, map[])
  {
  }

  lemma OneNoted(p: Lists, locals: set<nat>, slots: nat, todo: set<nat>, waiting: map<nat, int>, a: nat)
    requires Noted(p, locals, slots, todo, waiting) && a in todo && a in p
    ensures var w := if a !in locals && |p[a]| > slots then waiting[a := |p[a]|] else waiting;
            Noted(p, locals, slots, todo - {a}, w)
  {
  }

  lemma AllNoted(p: Lists, locals: set<nat>, slots: nat, waiting: map<nat, int>)
    requires Noted(p, locals, slots, {}, waiting)
    ensures Queue(p, locals, slots, [], waiting)
  {
  }

  lemma QueueMembers(p: Lists, locals: set<nat>, slots: nat, called: seq<nat>, waiting: map<nat, int>, i: nat)
    requires Queue(p, locals, slots, called, waiting) && i < |called|
    ensures called[i] in p && called[i] !in locals && |p[called[i]]| > slots
  {
    assert called[i] in Members(called);
  }

  lemma QueueCall(p: Lists, locals: set<nat>, slots: nat, called: seq<nat>, waiting: map<nat, int>, a: nat)
    requires Queue(p, locals, slots, called, waiting)
    requires a in waiting && forall b :: b in waiting ==> waiting[b] <= waiting[a]
    ensures Queue(p, locals, slots, called + [a], waiting - {a})
  {
    assert Members(called + [a]) == Members(called) + {a};
    assert forall i :: 0 <= i < |called| ==> called[i] in Members(called);
  }

  lemma {:induction false} HasMax(m: map<nat, int>) returns (a: nat)
    requires m != map[]
    ensures a in m && forall b :: b in m ==> m[b] <= m[a]
    decreases |m|
  {
    var x :| x in m;
    a := x;
    var rest := m - {x};
    if rest != map[] {
      RemoveShrinks(m, x);
      var c := HasMax(rest);
      assert m[c] == rest[c];
      if m[c] > m[x] {
        a := c;
      }
      forall b | b in m ensures m[b] <= m[a] {
        if b != x {
          assert b in rest && m[b] == rest[b] <= rest[c];
        }
      }
    } else {
      assert forall b :: b in m ==> b == x || b in rest;
    }
  }

  /** The offenders stand at the level or were longer; every other remote list is within the bound. */
  ghost predicate Group(p: Lists, locals: set<nat>, offenders: seq<nat>, bound: nat, level: nat) {
    && Distinct(offenders) && offenders != [] && bound <= level
    && (forall i :: 0 <= i < |offenders| ==> offenders[i] in p && offenders[i] !in locals && |p[offenders[i]]| >= level)
    && forall a :: a in p && a !in locals && a !in offenders ==> |p[a]| <= bound
  }

  lemma GroupAbove(p: Lists, locals: set<nat>, offenders: seq<nat>, bound: nat, level: nat)
    requires Group(p, locals, offenders, bound, level) && level > bound
    ensures Members(offenders) == Above(p, locals, level - 1) && |Above(p, locals, level - 1)| == |offenders|
    ensures Group(p, locals, offenders, bound, level - 1)
  {
    DistinctSize(offenders);
  }

  /** The last offender's list shows the level. */
  lemma GroupLength(p: Lists, locals: set<nat>, offenders: seq<nat>, bound: nat, level: nat)
    requires Group(p, locals, offenders, bound, level)
    ensures var q := Levelled(p, locals, level);
            var a := offenders[|offenders| - 1];
            Distinct(offenders) && offenders != [] && a in q && |q[a]| == level
  {
  }

  /** How the level stands to the lists of the called accounts: all but the last are down to it,
      and the last is at it while the total is too large. */
  ghost predicate Between(p: Lists, locals: set<nat>, slots: nat, called: seq<nat>, waiting: map<nat, int>, level: nat,
                          over: bool) {
    && Queue(p, locals, slots, called, waiting)
    && (called == [] ==> Above(p, locals, level) == {})
    && (forall i :: 0 <= i < |called| ==> called[i] in p)
    && (forall i :: 0 <= i < |called| - 1 ==> |p[called[i]]| >= level)
    && (called != [] ==> |p[called[|called| - 1]]| <= level)
    && (called != [] && over ==> |p[called[|called| - 1]]| == level)
  }

  lemma CallFirst(p: Lists, locals: set<nat>, slots: nat, waiting: map<nat, int>, level: nat, a: nat)
    requires Between(p, locals, slots, [], waiting, level, true) && slots <= level
    requires a in waiting && forall b :: b in waiting ==> waiting[b] <= waiting[a]
    ensures a in p && slots <= |p[a]| && Between(p, locals, slots, [a], waiting - {a}, |p[a]|, true)
    ensures Levelled(p, locals, |p[a]|) == Levelled(p, locals, level)
    ensures Above(p, locals, |p[a]|) == Above(p, locals, level)
  {
    QueueCall(p, locals, slots, [], waiting, a);
    assert [] + [a] == [a];
    assert a in Above(p, locals, slots);
    forall b | b in p && b !in locals ensures |p[b]| <= level && |p[b]| <= |p[a]| {
      assert b !in Above(p, locals, level);
      if |p[b]| > slots {
        assert b in Above(p, locals, slots);
      }
    }
  }

  lemma CallNext(p: Lists, locals: set<nat>, slots: nat, called: seq<nat>, waiting: map<nat, int>, level: nat, a: nat)
    requires Between(p, locals, slots, called, waiting, level, true) && called != []
    requires a in waiting && forall b :: b in waiting ==> waiting[b] <= waiting[a]
    ensures a in p && a !in locals && slots < |p[a]| <= level
    ensures Queue(p, locals, slots, called + [a], waiting - {a}) && Group(p, locals, called, |p[a]|, level)
    ensures a in Levelled(p, locals, level) && Levelled(p, locals, level)[a] == p[a]
  {
    QueueCall(p, locals, slots, called, waiting, a);
    assert a in Above(p, locals, slots);
    forall i | 0 <= i < |called| ensures called[i] in p && called[i] !in locals && |p[called[i]]| >= level {
      QueueMembers(p, locals, slots, called, waiting, i);
    }
    forall b | b in p && b !in locals && b !in called ensures |p[b]| <= |p[a]| {
      if |p[b]| > slots {
        assert b in Above(p, locals, slots);
        assert b !in Members(called);
      }
    }
  }

  lemma AfterCut(p: Lists, locals: set<nat>, slots: nat, called: seq<nat>, waiting: map<nat, int>, level: nat, a: nat,
                 over: bool)
    requires Queue(p, locals, slots, called + [a], waiting) && a in p && Group(p, locals, called, |p[a]|, level)
    requires over ==> level == |p[a]|
    ensures Between(p, locals, slots, called + [a], waiting, level, over)
  {
  }

  lemma LastGroup(p: Lists, locals: set<nat>, slots: nat, called: seq<nat>, waiting: map<nat, int>, level: nat)
    requires Between(p, locals, slots, called, waiting, level, true)
    requires called != [] && waiting == map[] && slots <= level
    ensures Group(p, locals, called, slots, level)
  {
    forall i | 0 <= i < |called| ensures called[i] in p && called[i] !in locals && |p[called[i]]| >= level {
      QueueMembers(p, locals, slots, called, waiting, i);
    }
    forall b | b in p && b !in locals && b !in called ensures |p[b]| <= slots {
      assert b !in Members(called);
      assert b !in Above(p, locals, slots);
    }
  }

  lemma NoneCalled(p: Lists, locals: set<nat>, slots: nat, waiting: map<nat, int>, level: nat)
    requires Between(p, locals, slots, [], waiting, level, true) && waiting == map[] && slots <= level
    ensures Levelled(p, locals, level) == Levelled(p, locals, slots)
  {
    assert Members([]) == {};
    forall b | b in p && b !in locals ensures |p[b]| <= slots {
      assert b !in Above(p, locals, slots);
    }
  }

  lemma AtAllowance(p: Lists, locals: set<nat>, slots: nat)
    ensures var q := Levelled(p, locals, slots);
            forall a :: a in q && a !in locals ==> |q[a]| <= slots
  {
  }

  lemma {:induction false} HighLevel(p: Lists, locals: set<nat>, slots: nat) returns (level: nat)
    ensures slots <= level && Above(p, locals, level) == {} && Levelled(p, locals, level) == p
    decreases |p|
  {
    level := slots;
    if p != map[] {
      var a :| a in p;
      RemoveShrinks(p, a);
      var below := HighLevel(p - {a}, locals, slots);
      level := if |p[a]| > below then |p[a]| else below;
      forall b | b in p ensures |p[b]| <= level || b in locals {
        if b != a {
          assert b in p - {a} && (p - {a})[b] == p[b];
          assert b !in Above(p - {a}, locals, below);
        }
      }
    }
  }

  lemma {:induction false} TotalPositive(p: Lists)
    ensures Total(p) >= 0
    ensures (exists a :: a in p && p[a] != []) ==> Total(p) > 0
    decreases |p|
  {
    if p != map[] {
      var a :| a in p && (p[a] != [] || forall b :: b in p ==> p[b] == []);
      SumRemove(p, a, Length);
      RemoveShrinks(p, a);
      TotalPositive(p - {a});
    }
  }

  class PendingPool {
    const globalSlots: nat
    const accountSlots: nat
    const locals: set<nat>
    const lists: map<nat, TxList>
    const known: PricedPool
    var nonces: map<nat, Nonce>
    /** The transactions of each list in nonce order. */
    ghost var pending: Lists

    /** What the equaliser may change besides its own fields. */
    ghost function Parts(): set<object> {
      (set a | a in lists :: lists[a].txs) + {known.all, known.priced}
    }

    ghost predicate Apart() {
      forall a, b :: a in lists && b in lists && a != b ==> lists[a].txs != lists[b].txs
    }

    ghost predicate ListAt(a: nat)
      requires a in lists
      reads this`pending, lists[a], lists[a].txs
    {
      lists[a].Valid() && a in pending && InNonceOrder(pending[a], lists[a].txs.items)
    }

    /** Each account has a list of its own, and `pending` shows it. */
    ghost predicate ListsValid()
      reads this`pending, set a | a in lists :: lists[a].txs, set a | a in lists :: lists[a]
    {
      Apart() && pending.Keys == lists.Keys && forall a :: a in lists ==> ListAt(a)
    }

    ghost predicate Valid()
      reads this`pending, set a | a in lists :: lists[a].txs, set a | a in lists :: lists[a]
      reads known, known.all, known.priced
    {
      ListsValid() && known.Valid()
    }

    constructor (globalSlots: nat, accountSlots: nat, locals: set<nat>, lists: map<nat, TxList>, known: PricedPool,
                 nonces: map<nat, Nonce>, ghost pending: Lists)
      requires known.Valid() && pending.Keys == lists.Keys
      requires forall a, b :: a in lists && b in lists && a != b ==> lists[a].txs != lists[b].txs
      requires forall a :: a in lists ==> lists[a].Valid() && InNonceOrder(pending[a], lists[a].txs.items)
      ensures Valid() && this.lists == lists && this.known == known && this.pending == pending && this.nonces == nonces
      ensures this.globalSlots == globalSlots && this.accountSlots == accountSlots && this.locals == locals
    {
      this.globalSlots, this.accountSlots, this.locals := globalSlots, accountSlots, locals;
      this.lists, this.known, this.nonces, this.pending := lists, known, nonces, pending;
    }

    lemma InOrderAscends()
      requires ListsValid()
      ensures AllAscending(pending) && pending.Keys == lists.Keys
    {
      forall a | a in pending ensures Ascending(pending[a]) {
        assert ListAt(a);
      }
    }

    twostate lemma OthersStay(a: nat)
      requires old(ListsValid()) && a in lists && ListAt(a)
      requires forall b :: b in lists && b != a ==> unchanged(lists[b].txs) && unchanged(lists[b])
      requires pending == old(pending)[a := pending[a]]
      ensures ListsValid()
    {
      forall b | b in lists ensures ListAt(b) {
        if b != a {
          assert old(ListAt(b));
        }
      }
    }

    lemma Lengths(a: nat)
      requires ListsValid() && (a in lists || a in pending)
      ensures a in lists && a in pending && lists[a].Len() == |pending[a]|
    {
      assert ListAt(a);
      ListingLength(pending[a], lists[a].txs.items);
    }

    method CountPending() returns (count: nat)
      requires Valid()
      ensures count == Total(pending)
    {
      hide ListsValid, AllAscending;
      InOrderAscends();
      var todo := lists.Keys;
      ghost var rest := pending;
      count := 0;
      while todo != {}
        invariant todo == rest.Keys && todo <= lists.Keys && forall a :: a in rest ==> rest[a] == pending[a]
        invariant count + Total(rest) == Total(pending)
        decreases |todo|
      {
        var a :| a in todo;
        SumRemove(rest, a, Length);
        Lengths(a);
        count := count + lists[a].Len();
        rest := rest - {a};
        todo := todo - {a};
      }
    }

    /** The remote accounts over their allowance, each with the length of its list. */
    method Spammers() returns (waiting: map<nat, int>)
      requires Valid()
      ensures Queue(pending, locals, accountSlots, [], waiting)
    {
      hide ListsValid, AllAscending, Queue, Noted;
      InOrderAscends();
      ghost var p := pending;
      waiting := map[];
      var todo := lists.Keys;
      NoneNoted(p, locals, accountSlots);
      while todo != {}
        invariant todo <= p.Keys && Noted(p, locals, accountSlots, todo, waiting)
        decreases |todo|
      {
        var a :| a in todo;
        Lengths(a);
        OneNoted(p, locals, accountSlots, todo, waiting, a);
        if a !in locals && lists[a].Len() > accountSlots {
          waiting := waiting[a := lists[a].Len()];
        }
        todo := todo - {a};
      }
      AllNoted(p, locals, accountSlots, waiting);
    }

    /** Caps a list to one less, which drops the last of its transactions. */
    method CapList(a: nat) returns (drops: seq<Tx>)
      requires Valid() && a in lists && a in pending && pending[a] != []
      modifies this`pending, lists[a].txs
      ensures Valid() && drops == [old(pending)[a][|old(pending)[a]| - 1]]
      ensures pending == old(pending)[a := old(pending)[a][..|old(pending)[a]| - 1]]
    {
      hide InNonceOrder, KeepsLowest, Listing, Capped, GapFree, Descending, ByNonce, Indexed;
      Lengths(a);
      assert ListAt(a);
      var list := lists[a];
      ghost var m, order := list.txs.items, pending[a];
      drops := list.Cap(list.Len() - 1);
      CapDropsLast(m, list.txs.items, order, drops);
      pending := pending[a := order[..|order| - 1]];
      OthersStay(a);
    }

    /** Caps a list to one less: the transaction leaves the lookup, the price heap is told, and the
        account's next nonce is not above it. */
    method DropLast(a: nat)
      requires Valid() && a in lists && a in pending && pending[a] != []
      modifies this`pending, this`nonces, lists[a].txs, known.all, known.priced
      ensures Valid()
      ensures var tx := old(pending)[a][|old(pending)[a]| - 1];
              && pending == old(pending)[a := old(pending)[a][..|old(pending)[a]| - 1]]
              && known.all.all == old(known.all.all) - {tx} && nonces == LowerTo(old(nonces), a, tx.nonce)
    {
      hide ListsValid;
      var drops := CapList(a);
      for i := 0 to |drops|
        invariant Valid() && pending == old(pending)[a := old(pending)[a][..|old(pending)[a]| - 1]]
        invariant i == 0 ==> known.all.all == old(known.all.all) && nonces == old(nonces)
        invariant i == 1 ==> known.all.all == old(known.all.all) - {drops[0]}
        invariant i == 1 ==> nonces == LowerTo(old(nonces), a, drops[0].nonce)
      {
        var tx := drops[i];
        known.Leave(tx);
        if NonceOf(nonces, a) > tx.nonce {
          nonces := nonces[a := tx.nonce];
        }
      }
    }

    /** The priority queue gives an entry of highest priority. */
    method Longest(waiting: map<nat, int>) returns (offender: nat)
      requires waiting != map[]
      ensures offender in waiting && forall b :: b in waiting ==> waiting[b] <= waiting[offender]
    {
      ghost var top := HasMax(waiting);
      offender :| offender in waiting && forall b :: b in waiting ==> waiting[b] <= waiting[offender];
    }

    ghost predicate Follows(p: Lists, n: map<nat, Nonce>, s: set<Tx>)
      reads this, known, known.all
    {
      Tracked(p, n, s, pending, nonces, known.all.all)
    }

    /** Takes one transaction off each of the offenders. */
    method Lower(offenders: seq<nat>, count: nat, ghost level: nat, ghost p: Lists, ghost n: map<nat, Nonce>,
                 ghost s: set<Tx>)
      returns (left: nat)
      requires AllAscending(p) && level > 0 && Distinct(offenders) && Members(offenders) == Above(p, locals, level - 1)
      requires Valid() && pending == Levelled(p, locals, level) && count == Total(pending) && Follows(p, n, s)
      modifies this, Parts()
      ensures Valid() && pending == Levelled(p, locals, level - 1)
      ensures left == Total(pending) == count - |offenders| && Follows(p, n, s)
    {
      hide AllAscending, Total, Tracked, Midway, Levelled, Above, ListsValid;
      left := count;
      MidwayEnds(p, locals, level);
      assert Members(offenders[..0]) == {};
      for i := 0 to |offenders|
        invariant pending == Midway(p, locals, level, Members(offenders[..i]))
        invariant Valid() && left == Total(pending) == count - i && Follows(p, n, s)
      {
        var a := offenders[i];
        assert a in Members(offenders) && a !in Members(offenders[..i]);
        MidwayStep(p, locals, level, Members(offenders[..i]), a);
        TrackedDrop(p, n, s, pending, nonces, known.all.all, a);
        TotalDrop(pending, a);
        TotalPositive(pending);
        Lengths(a);
        DropLast(a);
        assert Members(offenders[..i + 1]) == Members(offenders[..i]) + {a};
        left := left - 1;
      }
      assert offenders[..|offenders|] == offenders;
    }

    ghost predicate AtLevel(p: Lists, n: map<nat, Nonce>, s: set<Tx>, count: nat, level: nat)
      reads this, set a | a in lists :: lists[a].txs, set a | a in lists :: lists[a]
      reads known, known.all, known.priced
    {
      && Valid() && pending == Levelled(p, locals, level) && Follows(p, n, s) && count == Total(pending)
      && accountSlots <= level && count + |Above(p, locals, level)| > globalSlots
    }

    /** Lowers the offenders round by round until the total fits or the last of them is down to
        the bound. */
    method CutDown(offenders: seq<nat>, bound: nat, total: nat, ghost from: nat, ghost p: Lists,
                   ghost n: map<nat, Nonce>, ghost s: set<Tx>)
      returns (count: nat, ghost level: nat)
      requires AllAscending(p) && AtLevel(p, n, s, total, from)
      requires Group(p, locals, offenders, bound, from) && accountSlots <= bound
      modifies this, Parts()
      ensures AtLevel(p, n, s, count, level) && Group(p, locals, offenders, bound, level)
      ensures count <= globalSlots || level == bound
    {
      hide AllAscending, Total, Tracked, Levelled, Above, Group, ListsValid, Distinct;
      count, level := total, from;
      GroupLength(p, locals, offenders, bound, level);
      Lengths(offenders[|offenders| - 1]);
      while count > globalSlots && lists[offenders[|offenders| - 1]].Len() > bound
        invariant AtLevel(p, n, s, count, level) && Group(p, locals, offenders, bound, level)
        invariant offenders != [] && Distinct(offenders) && offenders[|offenders| - 1] in lists
        invariant lists[offenders[|offenders| - 1]].Len() == level
        decreases level
      {
        GroupAbove(p, locals, offenders, bound, level);
        count := Lower(offenders, count, level, p, n, s);
        level := level - 1;
        GroupLength(p, locals, offenders, bound, level);
        Lengths(offenders[|offenders| - 1]);
      }
      GroupBound(p, locals, offenders, bound, level);
    }

    /** One more offender: those before it come down towards its length. */
    method Penalise(called: seq<nat>, offender: nat, ghost waiting: map<nat, int>, total: nat,
                    ghost from: nat, ghost p: Lists, ghost n: map<nat, Nonce>, ghost s: set<Tx>)
      returns (count: nat, ghost level: nat)
      requires AllAscending(p) && AtLevel(p, n, s, total, from) && total > globalSlots
      requires Between(p, locals, accountSlots, called, waiting, from, true)
      requires offender in waiting && forall b :: b in waiting ==> waiting[b] <= waiting[offender]
      modifies this, Parts()
      ensures AtLevel(p, n, s, count, level)
      ensures Between(p, locals, accountSlots, called + [offender], waiting - {offender}, level, count > globalSlots)
    {
      hide AllAscending, Total, Tracked, Levelled, Above, Queue, Between, Group, ListsValid;
      var offenders := called + [offender];
      count, level := total, from;
      if |offenders| > 1 {
        CallNext(p, locals, accountSlots, called, waiting, level, offender);
        Lengths(offender);
        var threshold := lists[offender].Len();
        assert offenders[..|offenders| - 1] == called;
        count, level := CutDown(offenders[..|offenders| - 1], threshold, count, level, p, n, s);
        AfterCut(p, locals, accountSlots, called, waiting - {offender}, level, offender, count > globalSlots);
      } else {
        assert called == [] && called + [offender] == [offender];
        CallFirst(p, locals, accountSlots, waiting, level, offender);
        level := |p[offender]|;
      }
    }

    /** Cuts the longest lists until the total fits or no list is over its allowance. The level is
        the common length of the cut lists. */
    method Equalise() returns (ghost level: nat)
      requires Valid()
      modifies this, Parts()
      ensures Valid() && accountSlots <= level && pending == Levelled(old(pending), locals, level)
      ensures Follows(old(pending), old(nonces), old(known.all.all))
      ensures Total(old(pending)) <= globalSlots ==> pending == old(pending)
      ensures Total(pending) <= globalSlots || forall a :: a in pending && a !in locals ==> |pending[a]| <= accountSlots
      ensures Total(old(pending)) > globalSlots ==> Total(pending) + |Above(old(pending), locals, level)| > globalSlots
    {
      hide AllAscending, Total, Tracked, Levelled, Above, Queue, Between, Group, ListsValid;
      ghost var p, n, s := pending, nonces, known.all.all;
      InOrderAscends();
      level := HighLevel(p, locals, accountSlots);
      TrackedSelf(p, n, s);
      var count: nat := CountPending();
      if count > globalSlots {
        var waiting := Spammers();
        var called: seq<nat> := [];
        StartBetween(p, locals, accountSlots, waiting, level);
        while count > globalSlots && waiting != map[]
          invariant AtLevel(p, n, s, count, level)
          invariant Between(p, locals, accountSlots, called, waiting, level, count > globalSlots)
          decreases |waiting|
        {
          var offender := Longest(waiting);
          RemoveShrinks(waiting, offender);
          count, level := Penalise(called, offender, waiting, count, level, p, n, s);
          waiting := waiting - {offender};
          called := called + [offender];
        }
        if count > globalSlots && |called| > 0 {
          LastGroup(p, locals, accountSlots, called, waiting, level);
          count, level := CutDown(called, accountSlots, count, level, p, n, s);
        } else if count > globalSlots {
          NoneCalled(p, locals, accountSlots, waiting, level);
        }
        AtAllowance(p, locals, accountSlots);
      }
    }
  }

  lemma GroupBound(p: Lists, locals: set<nat>, offenders: seq<nat>, bound: nat, level: nat)
    requires Group(p, locals, offenders, bound, level)
    ensures bound <= level
  {
  }

  lemma StartBetween(p: Lists, locals: set<nat>, slots: nat, waiting: map<nat, int>, level: nat)
    requires Queue(p, locals, slots, [], waiting) && Above(p, locals, level) == {}
    ensures Between(p, locals, slots, [], waiting, level, true)
  {
  }
}
