/** The display form of a time lock: repeatedly peel the minimum off the leading run of adjacent
    intervals. The program subtracts from shared big integers in place, so amounts are cells
    here and the proof includes that no peeled amount is touched again. */
module TimeLockDisplay {
  import opened TimeLockItems
  import opened TimeLockOps
  import opened TimeLockLayers

  class BigInt {
    var v: int

    constructor (v: int)
      ensures this.v == v
    {
      this.v := v;
    }
  }

  datatype Cell = Cell(start: Instant, end: Instant, amount: BigInt)

  ghost function Amounts(s: seq<Cell>): set<BigInt> {
    set k | 0 <= k < |s| :: s[k].amount
  }

  ghost predicate Distinct(s: seq<Cell>) {
    forall j, k :: 0 <= j < k < |s| ==> s[j].amount != s[k].amount
  }

  ghost function Read(s: seq<Cell>): (r: seq<Item>)
    reads set k | 0 <= k < |s| :: s[k].amount
    ensures |r| == |s|
    ensures forall k :: 0 <= k < |s| ==> r[k] == Item(s[k].start, s[k].end, s[k].amount.v)
  {
    seq(|s|, k requires 0 <= k < |s| reads set k | 0 <= k < |s| :: s[k].amount =>
          Item(s[k].start, s[k].end, s[k].amount.v))
  }

  ghost predicate AllValid(s: seq<Item>) {
    forall k :: 0 <= k < |s| ==> ValidItem(s[k])
  }

  // ---------- Peeling, on values ----------

  /** Intervals that follow one another without a gap. */
  ghost predicate Run(s: seq<Item>) {
    forall j, k :: 0 <= j < k < |s| && k == j + 1 ==> s[j].end < s[k].start && s[j].end + 1 == s[k].start
  }

  /** Every item loses m; those worth exactly m disappear. */
  ghost function Peeled(s: seq<Item>, m: int): seq<Item> {
    if s == [] then []
    else
      var rest, z := Peeled(s[..|s| - 1], m), s[|s| - 1];
      if z.value == m then rest else rest + [Item(z.start, z.end, z.value - m)]
  }

  lemma {:induction false} PeeledValid(s: seq<Item>, m: int)
    requires AllValid(s) && forall k :: 0 <= k < |s| ==> m <= s[k].value
    ensures AllValid(Peeled(s, m)) && |Peeled(s, m)| <= |s|
    ensures (exists k :: 0 <= k < |s| && s[k].value == m) ==> |Peeled(s, m)| < |s|
  {
    if s != [] {
      PeeledValid(s[..|s| - 1], m);
      if s[|s| - 1].value != m && exists k :: 0 <= k < |s| && s[k].value == m {
        var k :| 0 <= k < |s| && s[k].value == m;
        assert s[..|s| - 1][k].value == m;
      }
    }
  }

  /** A run loses m at each of its instants and nowhere else. */
  lemma {:induction false} PeeledVal(s: seq<Item>, m: int, t: int)
    requires s != [] && Run(s) && AllValid(s)
    ensures s[0].start <= s[|s| - 1].end
    ensures Val(s, t) == Val(Peeled(s, m), t) + ItemVal(Item(s[0].start, s[|s| - 1].end, m), t)
  {
    hide Val;
    var front, z := s[..|s| - 1], s[|s| - 1];
    assert s == front + [z];
    ValConcat(front, [z], t);
    ValSingle(z, t);
    var cut := Item(z.start, z.end, z.value - m);
    ValConcat(Peeled(front, m), [cut], t);
    ValSingle(cut, t);
    if front == [] {
      ValNil(t);
    } else {
      PeeledVal(front, m, t);
    }
  }

  // ---------- Peeling, in place ----------

  /** Positions of the kept cells in the original list: increasing, before p, and not q. */
  ghost predicate KeptFrom(kept: seq<Cell>, src: seq<int>, work: seq<Cell>, p: nat) {
    && |src| == |kept| && p <= |work|
    && (forall k :: 0 <= k < |src| ==> 0 <= src[k] < p && kept[k] == work[src[k]])
    && (forall j, k :: 0 <= j < k < |src| ==> src[j] < src[k])
  }

  lemma KeptDistinct(kept: seq<Cell>, src: seq<int>, work: seq<Cell>, n: nat, q: nat)
    requires Distinct(work) && KeptFrom(kept, src, work, n) && q < n
    requires forall k :: 0 <= k < |src| ==> src[k] != q
    ensures Distinct(kept + work[n..])
    ensures Amounts(kept + work[n..]) <= Amounts(work) - {work[q].amount}
  {
    var s := kept + work[n..];
    var src' := src + seq(|work| - n, k requires 0 <= k < |work| - n => n + k);
    forall k | 0 <= k < |s| ensures 0 <= src'[k] < |work| && s[k] == work[src'[k]] && src'[k] != q {
    }
    forall j, k | 0 <= j < k < |s| ensures src'[j] < src'[k] {
    }
  }

  lemma KeptGrows(kept: seq<Cell>, src: seq<int>, work: seq<Cell>, p: nat)
    requires KeptFrom(kept, src, work, p) && p < |work|
    ensures KeptFrom(kept, src, work, p + 1) && KeptFrom(kept + [work[p]], src + [p], work, p + 1)
  {
  }

  lemma CursorMoves(items: seq<Cell>, j: nat, work: seq<Cell>, p: nat)
    requires j < |items| && p < |work| && items[j..] == work[p..]
    ensures items[j] == work[p]
    ensures items[..j + 1] == items[..j] + [work[p]] && items[j + 1..] == work[p + 1..]
    ensures (items[..j] + items[j + 1..])[..j] == items[..j] && (items[..j] + items[j + 1..])[j..] == work[p + 1..]
  {
    assert items[j] == items[j..][0] == work[p..][0];
    assert items[j + 1..] == items[j..][1..] == work[p..][1..] == work[p + 1..];
  }

  lemma PeeledStep(vals: seq<Item>, p: nat, m: int)
    requires p < |vals|
    ensures Peeled(vals[..p + 1], m) ==
      if vals[p].value == m then Peeled(vals[..p], m)
      else Peeled(vals[..p], m) + [Item(vals[p].start, vals[p].end, vals[p].value - m)]
  {
    assert vals[..p + 1][..p] == vals[..p];
  }

  /** The work list after p of its cells were treated and j of them kept, when amts are the
      amounts in the cells: the kept cells read as the peeled items, the others as before, and
      the cell q that holds the minimum was neither kept nor changed. */
  ghost predicate PeelState(items: seq<Cell>, j: nat, work: seq<Cell>, p: nat, q: nat, src: seq<int>,
                            vals: seq<Item>, amts: seq<int>, m: int) {
    && j <= |items| && p <= |work| == |vals| == |amts| && q < |work| && amts[q] == m == vals[q].value
    && KeptFrom(items[..j], src, work, p) && items[j..] == work[p..]
    && (forall k :: p <= k < |work| ==> vals[k] == Item(work[k].start, work[k].end, amts[k]))
    && |Peeled(vals[..p], m)| == j
    && (forall k :: 0 <= k < j ==>
          src[k] != q && Peeled(vals[..p], m)[k] == Item(items[k].start, items[k].end, amts[src[k]]))
  }

  lemma PeelCursor(items: seq<Cell>, j: nat, work: seq<Cell>, p: nat, q: nat, src: seq<int>,
                   vals: seq<Item>, amts: seq<int>, m: int)
    requires PeelState(items, j, work, p, q, src, vals, amts, m)
    ensures j <= |items| && p <= |work| == |vals| == |amts| && q < |work| && amts[q] == m && items[j..] == work[p..]
  {
  }

  lemma PeelStart(work: seq<Cell>, q: nat, vals: seq<Item>, amts: seq<int>, m: int)
    requires q < |work| == |vals| == |amts| && amts[q] == m
    requires forall k :: 0 <= k < |work| ==> vals[k] == Item(work[k].start, work[k].end, amts[k])
    ensures PeelState(work, 0, work, 0, q, [], vals, amts, m)
  {
    assert vals[..0] == [] && work[..0] == [];
  }

  lemma PeelDrop(items: seq<Cell>, j: nat, work: seq<Cell>, p: nat, q: nat, src: seq<int>,
                 vals: seq<Item>, amts: seq<int>, m: int)
    requires PeelState(items, j, work, p, q, src, vals, amts, m) && j < |items| && p < |work| && amts[p] == m
    ensures PeelState(items[..j] + items[j + 1..], j, work, p + 1, q, src, vals, amts, m)
  {
    hide Peeled;
    CursorMoves(items, j, work, p);
    PeeledStep(vals, p, m);
    KeptGrows(items[..j], src, work, p);
  }

  lemma PeelReduce(items: seq<Cell>, j: nat, work: seq<Cell>, p: nat, q: nat, src: seq<int>,
                   vals: seq<Item>, amts: seq<int>, m: int)
    requires PeelState(items, j, work, p, q, src, vals, amts, m) && j < |items| && p < |work| && amts[p] != m
    ensures PeelState(items, j + 1, work, p + 1, q, src + [p], vals, amts[p := amts[p] - m], m)
  {
    hide Peeled;
    CursorMoves(items, j, work, p);
    PeeledStep(vals, p, m);
    KeptGrows(items[..j], src, work, p);
  }

  lemma PeelDone(items: seq<Cell>, j: nat, work: seq<Cell>, n: nat, q: nat, src: seq<int>,
                 vals: seq<Item>, amts: seq<int>, m: int)
    requires PeelState(items, j, work, n, q, src, vals, amts, m) && Distinct(work) && q < n
    requires forall k :: 0 <= k < |work| ==> work[k].amount.v == amts[k]
    ensures Read(items) == Peeled(vals[..n], m) + vals[n..]
    ensures Amounts(items) <= Amounts(work) - {work[q].amount} && Distinct(items)
  {
    hide Peeled;
    KeptDistinct(items[..j], src, work, n, q);
    assert items == items[..j] + work[n..];
  }

  /** Removes or reduces the first n cells of the work list, as the inner loop does. */
  method Peel(work: seq<Cell>, n: nat, value: BigInt) returns (items: seq<Cell>)
    requires 0 < n <= |work| && Distinct(work)
    requires exists k :: 0 <= k < n && work[k].amount == value
    modifies Amounts(work)
    ensures value.v == old(value.v)
    ensures Read(items) == Peeled(old(Read(work))[..n], value.v) + old(Read(work))[n..]
    ensures Amounts(items) <= Amounts(work) - {value} && Distinct(items)
  {
    hide Peeled, KeptFrom, PeelState;
    items := work;
    var i, j := n, 0;
    ghost var q :| 0 <= q < n && work[q].amount == value;
    ghost var vals, m, p := Read(work), value.v, 0;
    ghost var src: seq<int>, amts := [], seq(|work|, k requires 0 <= k < |work| => vals[k].value);
    PeelStart(work, q, vals, amts, m);
    while j < i
      invariant 0 <= j <= i <= |items| && p == j + (n - i) <= n
      invariant PeelState(items, j, work, p, q, src, vals, amts, m) && |amts| == |work| && amts[q] == m
      invariant forall k :: 0 <= k < |work| ==> work[k].amount.v == amts[k]
      decreases i - j
    {
      var item := items[j];
      PeelCursor(items, j, work, p, q, src, vals, amts, m);
      CursorMoves(items, j, work, p);
      if item.amount.v == value.v {
        PeelDrop(items, j, work, p, q, src, vals, amts, m);
        items := items[..j] + items[j + 1..];
        i := i - 1;
      } else {
        PeelReduce(items, j, work, p, q, src, vals, amts, m);
        item.amount.v := item.amount.v - value.v;
        src, amts := src + [p], amts[p := amts[p] - m];
        j := j + 1;
      }
      p := p + 1;
      PeelCursor(items, j, work, p, q, src, vals, amts, m);
    }
    PeelDone(items, j, work, n, q, src, vals, amts, m);
  }

  // ---------- The display form ----------

  /** The items of the list, largest value first. */
  function SortedByValue(s: seq<Item>): seq<Item> {
    if s == [] then [] else InsertByValue(SortedByValue(s[1..]), s[0])
  }

  function InsertByValue(s: seq<Item>, z: Item): seq<Item> {
    if s == [] || z.value >= s[0].value then [z] + s else [s[0]] + InsertByValue(s[1..], z)
  }

  ghost predicate Descending(s: seq<Item>) {
    forall j, k :: 0 <= j < k < |s| ==> s[j].value >= s[k].value
  }

  lemma {:induction false} InsertByValueMembers(s: seq<Item>, z: Item)
    ensures multiset(InsertByValue(s, z)) == multiset(s) + multiset{z}
  {
    if s != [] && z.value < s[0].value {
      InsertByValueMembers(s[1..], z);
      assert s == [s[0]] + s[1..];
    }
  }

  lemma {:induction false} InsertByValueSorts(s: seq<Item>, z: Item)
    requires Descending(s)
    ensures Descending(InsertByValue(s, z))
    ensures InsertByValue(s, z) != []
    ensures InsertByValue(s, z)[0].value == (if s == [] || z.value >= s[0].value then z else s[0]).value
  {
    if s != [] && z.value < s[0].value {
      InsertByValueSorts(s[1..], z);
    }
  }

  lemma {:induction false} SortedByValueSorts(s: seq<Item>)
    ensures Descending(SortedByValue(s)) && multiset(SortedByValue(s)) == multiset(s)
  {
    if s != [] {
      SortedByValueSorts(s[1..]);
      InsertByValueSorts(SortedByValue(s[1..]), s[0]);
      InsertByValueMembers(SortedByValue(s[1..]), s[0]);
      assert s == [s[0]] + s[1..];
    }
  }

  /** What one round of peeling leaves adds up with the peeled interval to what there was. */
  lemma RoundConserves(vals: seq<Item>, n: nat, m: int)
    requires 0 < n <= |vals| && AllValid(vals) && Run(vals[..n])
    requires forall k :: 0 <= k < n ==> m <= vals[k].value
    requires exists k :: 0 <= k < n && vals[k].value == m
    ensures var r := Peeled(vals[..n], m) + vals[n..];
            && AllValid(r) && |r| < |vals| && vals[0].start <= vals[n - 1].end
            && forall t: int :: Val(vals, t) == Val(r, t) + ItemVal(Item(vals[0].start, vals[n - 1].end, m), t)
  {
    var run, rest := vals[..n], vals[n..];
    PeeledValid(run, m);
    var k :| 0 <= k < n && vals[k].value == m;
    assert run[k].value == m;
    PeeledVal(run, m, 0);
    forall t: int
      ensures Val(vals, t) == Val(Peeled(run, m) + rest, t) + ItemVal(Item(vals[0].start, vals[n - 1].end, m), t)
    {
      assert vals == run + rest;
      ValConcat(run, rest, t);
      PeeledVal(run, m, t);
      ValConcat(Peeled(run, m), rest, t);
    }
  }

  // ---------- Layers ----------

  predicate EqualSpan(y: Item, x: Item) {
    y.start == x.start && y.end == x.end
  }

  /** What is left of a run lies where items of the run were. */
  lemma {:induction false} PeeledSpan(s: seq<Item>, m: int, y: Item) returns (k: nat)
    requires y in Peeled(s, m)
    ensures k < |s| && EqualSpan(y, s[k])
  {
    var front, z := s[..|s| - 1], s[|s| - 1];
    if y in Peeled(front, m) {
      k := PeeledSpan(front, m, y);
    } else {
      k := |s| - 1;
    }
  }

  lemma {:induction false} PeeledOrdered(s: seq<Item>, m: int)
    requires Ordered(s) && forall k :: 0 <= k < |s| ==> m <= s[k].value
    ensures Ordered(Peeled(s, m))
  {
    if s != [] {
      var front, z := s[..|s| - 1], s[|s| - 1];
      PeeledOrdered(front, m);
      var rest := Peeled(front, m);
      forall y | y in rest ensures y.end < z.start {
        var k := PeeledSpan(front, m, y);
      }
      OrderedAppend(rest, Item(z.start, z.end, z.value - m));
    }
  }

  lemma OrderedAppend(s: seq<Item>, z: Item)
    requires Ordered(s) && forall y :: y in s ==> y.end < z.start
    ensures ValidItem(z) ==> Ordered(s + [z])
  {
  }

  /** An item still to do lies within a shown interval or apart from it. */
  predicate Around(r: Item, w: Item) {
    (r.start <= w.start && w.end <= r.end) || Apart(r, w)
  }

  /** Some instant of a shown interval has nothing left to do. */
  ghost predicate HasHole(r: Item, work: seq<Item>) {
    exists t :: At(r, t) && Val(work, t) == 0
  }

  ghost predicate ShownAround(work: seq<Item>, shown: seq<Item>) {
    && (forall r, w :: r in shown && w in work ==> Around(r, w))
    && (forall r :: r in shown ==> HasHole(r, work))
  }

  /** What was shown is layered, and what is still to do lies in its gaps. */
  ghost predicate Layering(work: seq<Item>, shown: seq<Item>) {
    Ordered(work) && Layers(shown) && ShownAround(work, shown)
  }

  lemma {:induction false} RunAround(work: seq<Item>, n: nat, r: Item)
    requires 0 < n <= |work| && Ordered(work) && Run(work[..n])
    requires r.start <= r.end && forall w :: w in work ==> Around(r, w)
    ensures Around(r, Item(work[0].start, work[n - 1].end, 1))
  {
    assert work[n - 1] in work;
    if n > 1 {
      assert work[..n][n - 1] == work[n - 1] && work[..n][n - 2] == work[n - 2];
      assert work[..n - 1] == work[..n][..n - 1];
      assert work[n - 2].start <= work[n - 2].end && work[0].start <= work[n - 2].start;
      RunAround(work, n - 1, r);
    }
  }

  lemma RunGrows(work: seq<Item>, n: nat)
    requires 0 < n < |work| && Run(work[..n])
    requires work[n - 1].end < work[n].start && work[n - 1].end + 1 == work[n].start
    ensures Run(work[..n + 1])
  {
    forall j, k | 0 <= j < k < n + 1 && k == j + 1
      ensures work[j].end < work[k].start && work[j].end + 1 == work[k].start
    {
      if k < n {
        assert work[..n][j] == work[j] && work[..n][k] == work[k];
      }
    }
  }

  /** The items behind a longest run are apart from it. */
  lemma BehindRun(work: seq<Item>, n: nat, j: nat)
    requires 0 < n <= j < |work| && Ordered(work) && Run(work[..n]) && !Run(work[..n + 1])
    ensures work[n - 1].end + 1 < work[j].start
  {
    hide Run;
    assert work[n - 1].end < work[n].start;
    if work[n - 1].end + 1 == work[n].start {
      RunGrows(work, n);
    }
  }

  /** One round on values: a longest run with its least amount m is shown and peeled. */
  ghost predicate Round(work: seq<Item>, n: nat, m: int) {
    && 0 < n <= |work| && Run(work[..n]) && (n < |work| ==> !Run(work[..n + 1]))
    && (forall k :: 0 <= k < n ==> m <= work[k].value) && exists k :: 0 <= k < n && work[k].value == m
  }

  ghost function ShownOf(work: seq<Item>, n: nat, m: int): Item
    requires 0 < n <= |work|
  {
    Item(work[0].start, work[n - 1].end, m)
  }

  ghost function LeftOf(work: seq<Item>, n: nat, m: int): seq<Item>
    requires n <= |work|
  {
    Peeled(work[..n], m) + work[n..]
  }

  lemma RoundVal(work: seq<Item>, n: nat, m: int)
    requires Ordered(work) && Round(work, n, m)
    ensures m > 0 && ValidItem(ShownOf(work, n, m))
    ensures forall t: int :: Val(work, t) == Val(LeftOf(work, n, m), t) + ItemVal(ShownOf(work, n, m), t)
    ensures forall t: int :: Val(LeftOf(work, n, m), t) >= 0
    ensures HasHole(ShownOf(work, n, m), LeftOf(work, n, m))
  {
    RoundConserves(work, n, m);
    var k :| 0 <= k < n && work[k].value == m;
    var left := LeftOf(work, n, m);
    ValAt(work, k, work[k].start);
    hide Val, Peeled, Run;
    forall t: int ensures Val(left, t) >= 0 {
      ValNonNegative(left, t);
    }
    assert work[0].start <= work[k].start <= work[k].end <= work[n - 1].end;
    assert At(ShownOf(work, n, m), work[k].start) && Val(left, work[k].start) == 0;
  }

  lemma PeeledInRun(work: seq<Item>, n: nat, m: int, y: Item) returns (k: nat)
    requires Ordered(work) && Round(work, n, m) && y in Peeled(work[..n], m)
    ensures k < n && EqualSpan(y, work[k])
  {
    hide Peeled;
    k := PeeledSpan(work[..n], m, y);
  }

  /** An item that is left lies in the run or behind it, where an item was. */
  lemma RoundSpans(work: seq<Item>, n: nat, m: int, w: Item)
    requires Ordered(work) && Round(work, n, m) && w in LeftOf(work, n, m)
    ensures (exists k :: 0 <= k < |work| && EqualSpan(w, work[k])) && Around(ShownOf(work, n, m), w)
  {
    hide Val, Peeled, Run;
    if w in Peeled(work[..n], m) {
      var k := PeeledInRun(work, n, m, w);
      assert work[0].start <= work[k].start && work[k].end <= work[n - 1].end;
    } else {
      var k :| 0 <= k < |work[n..]| && work[n..][k] == w;
      assert EqualSpan(w, work[n + k]);
      BehindRun(work, n, n + k);
    }
  }

  lemma RoundOrder(work: seq<Item>, n: nat, m: int)
    requires Ordered(work) && Round(work, n, m)
    ensures Ordered(LeftOf(work, n, m))
  {
    hide Val, Peeled, Run;
    var left, p := LeftOf(work, n, m), |Peeled(work[..n], m)|;
    PeeledOrdered(work[..n], m);
    forall j, k | 0 <= j < k < |left| ensures left[j].end < left[k].start {
      if p <= j {
        assert left[j] == work[n + j - p] && left[k] == work[n + k - p];
      } else if p <= k {
        var i := PeeledInRun(work, n, m, left[j]);
        assert left[k] == work[n + k - p];
      }
    }
    forall k | 0 <= k < |left| ensures ValidItem(left[k]) {
      if p <= k {
        assert left[k] == work[n + k - p];
      }
    }
  }

  lemma RoundLayered(work: seq<Item>, shown: seq<Item>, n: nat, m: int, r: Item)
    requires Round(work, n, m) && Layering(work, shown) && r in shown
    ensures Layered(ShownOf(work, n, m), r) && HasHole(r, LeftOf(work, n, m))
  {
    RoundVal(work, n, m);
    hide Val, Peeled, Layers;
    var z, left := ShownOf(work, n, m), LeftOf(work, n, m);
    RunAround(work, n, r);
    var t :| At(r, t) && Val(work, t) == 0;
    assert Val(left, t) == 0 && !At(z, t);
    assert HasHole(r, left);
  }

  /** A round keeps the layers. */
  lemma RoundLayers(work: seq<Item>, shown: seq<Item>, n: nat, m: int)
    requires Round(work, n, m) && Layering(work, shown)
    ensures Layering(LeftOf(work, n, m), shown + [ShownOf(work, n, m)])
  {
    RoundVal(work, n, m);
    RoundOrder(work, n, m);
    hide Val, Peeled, HasHole, Round, Around;
    var z, left := ShownOf(work, n, m), LeftOf(work, n, m);
    forall w | w in left ensures Around(z, w) {
      RoundSpans(work, n, m, w);
    }
    forall r | r in shown ensures Layered(z, r) && HasHole(r, left) {
      RoundLayered(work, shown, n, m, r);
    }
    forall r, w | r in shown && w in left ensures Around(r, w) {
      RoundSpans(work, n, m, w);
      var k :| 0 <= k < |work| && EqualSpan(w, work[k]);
      assert work[k] in work;
      SameAround(r, w, work[k]);
    }
    OneMoreLayer(shown, z);
  }

  lemma SameAround(r: Item, w: Item, x: Item)
    requires EqualSpan(w, x)
    ensures Around(r, w) <==> Around(r, x)
  {
  }

  lemma OneMoreLayer(shown: seq<Item>, z: Item)
    requires Layers(shown) && ValidItem(z) && forall r :: r in shown ==> Layered(z, r)
    ensures Layers(shown + [z])
  {
    var s := shown + [z];
    assert !Layered(z, z);
    assert z !in shown;
    forall x | x in s ensures multiset(s)[x] == 1 {
      assert x in shown || x == z;
    }
    forall x, y | x in s && y in s && x != y ensures Layered(x, y) {
      if x == z || y == z {
        assert Layered(z, if x == z then y else x);
      }
    }
  }

  lemma AmountsAppend(s: seq<Cell>, c: Cell)
    ensures Amounts(s + [c]) == Amounts(s) + {c.amount}
  {
    forall k | 0 <= k < |s| ensures s[k].amount in Amounts(s + [c]) {
      assert (s + [c])[k] == s[k];
    }
    assert (s + [c])[|s|] == c;
  }

  lemma AmountsTail(s: seq<Cell>)
    requires s != [] && Distinct(s)
    ensures Distinct(s[1..]) && Amounts(s[1..]) == Amounts(s) - {s[0].amount}
  {
    forall k | 0 < k < |s| ensures s[k].amount in Amounts(s[1..]) && s[k].amount != s[0].amount {
      assert s[1..][k - 1] == s[k];
    }
  }

  /** Copies every item into a cell of its own. */
  method CloneCells(vals: seq<Item>) returns (items: seq<Cell>)
    requires AllValid(vals)
    ensures Read(items) == vals && Distinct(items) && fresh(Amounts(items))
  {
    items := [];
    for k := 0 to |vals|
      invariant |items| == k && Distinct(items) && fresh(Amounts(items))
      invariant Read(items) == vals[..k]
    {
      var amount := new BigInt(Magnitude(vals[k].value));
      AmountsAppend(items, Cell(vals[k].start, vals[k].end, amount));
      items := items + [Cell(vals[k].start, vals[k].end, amount)];
    }
  }

  /** The longest leading run of adjacent intervals, its end and its smallest amount. */
  method LeadingRun(items: seq<Cell>) returns (n: nat, end: Instant, value: BigInt)
    requires items != []
    ensures 1 <= n <= |items| && end == items[n - 1].end
    ensures Run(Read(items)[..n]) && (n < |items| ==> !Run(Read(items)[..n + 1]))
    ensures value in Amounts(items) && exists k :: 0 <= k < n && items[k].amount == value
    ensures forall k :: 0 <= k < n ==> value.v <= items[k].amount.v
  {
    end, value, n := items[0].end, items[0].amount, 1;
    ghost var q := 0;
    while n < |items|
      invariant 1 <= n <= |items| && end == items[n - 1].end
      invariant forall j, k :: 0 <= j < k < n && k == j + 1 ==>
        items[j].end < items[k].start && items[j].end + 1 == items[k].start
      invariant 0 <= q < n && items[q].amount == value
      invariant forall k :: 0 <= k < n ==> value.v <= items[k].amount.v
    {
      var item := items[n];
      if !(end < item.start && end + 1 == item.start) {
        RunStops(Read(items), n);
        break;
      }
      end := item.end;
      if item.amount.v < value.v {
        value := item.amount;
        q := n;
      }
      n := n + 1;
    }
    RunSoFar(Read(items), n);
  }

  lemma RunSoFar(s: seq<Item>, n: nat)
    requires n <= |s|
    requires forall j, k :: 0 <= j < k < n && k == j + 1 ==> s[j].end < s[k].start && s[j].end + 1 == s[k].start
    ensures Run(s[..n])
  {
  }

  lemma RunStops(s: seq<Item>, n: nat)
    requires 0 < n < |s| && !(s[n - 1].end < s[n].start && s[n - 1].end + 1 == s[n].start)
    ensures !Run(s[..n + 1])
  {
    assert s[..n + 1][n] == s[n] && s[..n + 1][n - 1] == s[n - 1];
  }

  /** The cells still to do and the cells shown are all different, and together they are worth
      the time lock being displayed. */
  ghost predicate DisplayState(items: seq<Cell>, res: seq<Cell>, vals: seq<Item>)
    reads Amounts(items), Amounts(res)
  {
    && Distinct(items) && Amounts(items) !! Amounts(res) && |items| + |res| <= |vals|
    && AllValid(Read(items)) && AllValid(Read(res))
    && AddUp(Read(res), Read(items), vals)
  }

  ghost predicate AddUp(a: seq<Item>, b: seq<Item>, c: seq<Item>) {
    forall i: int :: Val(a, i) + Val(b, i) == Val(c, i)
  }

  lemma DisplayStart(items: seq<Cell>, vals: seq<Item>)
    requires Distinct(items) && Read(items) == vals && AllValid(vals)
    ensures DisplayState(items, [], vals)
  {
    assert Read([]) == [];
  }

  lemma DisplaySingle(items: seq<Cell>, res: seq<Cell>, vals: seq<Item>)
    requires DisplayState(items, res, vals) && items != []
    ensures DisplayState(items[1..], res + [items[0]], vals)
  {
    AmountsTail(items);
    AmountsAppend(res, items[0]);
    var z := Read(items)[0];
    assert Read(res + [items[0]]) == Read(res) + [z];
    assert Read(items[1..]) == Read(items)[1..];
    forall i: int ensures Val(Read(res) + [z], i) + Val(Read(items)[1..], i) == Val(vals, i) {
      ValConcat(Read(res), [z], i);
      ValSingle(z, i);
      ValTail(Read(items), i);
      assert Val(Read(res), i) + Val(Read(items), i) == Val(vals, i);
    }
  }

  lemma StateParts(items: seq<Cell>, res: seq<Cell>, vals: seq<Item>)
    requires DisplayState(items, res, vals)
    ensures Distinct(items) && Amounts(items) !! Amounts(res) && |items| + |res| <= |vals|
    ensures AllValid(Read(items)) && AllValid(Read(res)) && AddUp(Read(res), Read(items), vals)
  {
  }

  /** One round of the outer loop: it strictly shrinks the work list. */
  method ShowRun(items: seq<Cell>, res: seq<Cell>, ghost vals: seq<Item>) returns (items': seq<Cell>, res': seq<Cell>)
    requires items != [] && DisplayState(items, res, vals)
    modifies Amounts(items)
    ensures DisplayState(items', res', vals) && |items'| < |items|
    ensures Amounts(items') + Amounts(res') <= Amounts(items) + Amounts(res)
    ensures Layering(old(Read(items)), old(Read(res))) ==> Layering(Read(items'), Read(res'))
  {
    hide Val, Peeled, Layering, Round, Run, DisplayState, AddUp, AllValid;
    ghost var was, before := Read(items), Read(res);
    StateParts(items, res, vals);
    var start := items[0].start;
    var n, end, value := LeadingRun(items);
    var shown := Cell(start, end, value);
    ghost var m := value.v;
    RoundHolds(items, n, value);
    if n == 1 {
      shown := items[0];
      AmountsTail(items);
      DisplaySingle(items, res, vals);
      items', res' := items[1..], res + [shown];
      PeeledOne(was, m);
      assert Read(items') == LeftOf(was, n, m);
      assert Read(res') == before + [ShownOf(was, n, m)];
    } else {
      items' := Peel(items, n, value);
      res' := res + [shown];
      AmountsAppend(res, shown);
      assert Read(res') == before + [ShownOf(was, n, m)];
      DisplayRound(items', res', vals, was, before, n, m);
    }
    AmountsAppend(res, shown);
    LayersKept(was, before, n, m, Read(items'), Read(res'));
  }

  lemma RoundHolds(items: seq<Cell>, n: nat, value: BigInt)
    requires 1 <= n <= |items| && Run(Read(items)[..n]) && (n < |items| ==> !Run(Read(items)[..n + 1]))
    requires exists k :: 0 <= k < n && items[k].amount == value
    requires forall k :: 0 <= k < n ==> value.v <= items[k].amount.v
    ensures Round(Read(items), n, value.v)
  {
    hide Run;
    var k :| 0 <= k < n && items[k].amount == value;
    assert Read(items)[k].value == value.v;
  }

  lemma LayersKept(was: seq<Item>, before: seq<Item>, n: nat, m: int, now: seq<Item>, shown: seq<Item>)
    requires Round(was, n, m) && now == LeftOf(was, n, m) && shown == before + [ShownOf(was, n, m)]
    ensures Layering(was, before) ==> Layering(now, shown)
  {
    hide Round;
    if Layering(was, before) {
      RoundLayers(was, before, n, m);
    }
  }

  lemma PeeledOne(work: seq<Item>, m: int)
    requires work != [] && Round(work, 1, m)
    ensures m == work[0].value && LeftOf(work, 1, m) == work[1..]
  {
    assert work[..1] == [work[0]] && work[..1][..0] == [];
    assert Peeled(work[..1], m) == Peeled(work[..1][..0], m) == [];
  }

  /** The intervals shown add up, instant by instant, to the time lock; there are at most as many
      as it has items; the time lock itself is untouched. For ordered items any two of them are
      apart or one lies in the other, and so they are exactly the rises of the step function. */
  method ToDisplay(z: TimeLock) returns (t: TimeLock)
    requires AllValid(z.items)
    ensures fresh(t)
    ensures forall i: int :: Val(t.items, i) == Val(z.items, i)
    ensures |t.items| <= |z.items| && AllValid(t.items) && Descending(t.items)
    ensures Ordered(z.items) ==> Layers(t.items) && forall y :: y in t.items <==> Rise(z.items, y)
  {
    hide Val, SortedByValue, Layering, Rise;
    ghost var vals := z.items;
    var items := CloneCells(z.items);
    var res: seq<Cell> := [];
    DisplayStart(items, vals);
    LayeringStart(vals, Read(res));
    while items != []
      invariant fresh(Amounts(items)) && fresh(Amounts(res))
      invariant DisplayState(items, res, vals)
      invariant Ordered(vals) ==> Layering(Read(items), Read(res))
      decreases |items|
    {
      items, res := ShowRun(items, res, vals);
    }
    var out := seq(|res|, k requires 0 <= k < |res| reads Amounts(res) =>
      Item(res[k].start, res[k].end, res[k].amount.v));
    ReadNil(items);
    assert out == Read(res);
    t := new TimeLock(SortedByValue(out));
    DisplayDone(out, vals);
    if Ordered(vals) {
      LayeringDone(Read(items), out, vals, t.items);
    }
  }

  lemma LayeringStart(vals: seq<Item>, shown: seq<Item>)
    requires shown == []
    ensures Ordered(vals) ==> Layering(vals, shown)
  {
  }

  lemma LayeringDone(work: seq<Item>, shown: seq<Item>, vals: seq<Item>, out: seq<Item>)
    requires Layering(work, shown) && multiset(out) == multiset(shown)
    requires forall i: int :: Val(out, i) == Val(vals, i)
    ensures Layers(out) && forall y :: y in out <==> Rise(vals, y)
  {
    hide Val, Rise;
    forall x ensures x in out <==> x in shown {
      assert x in multiset(out) <==> x in multiset(shown);
    }
    forall y ensures y in out <==> Rise(vals, y) {
      LayersAreRises(out, y);
      SameRises(out, vals, y);
    }
  }

  lemma ReadNil(items: seq<Cell>)
    requires items == []
    ensures forall i: int :: Val(Read(items), i) == 0
  {
  }

  lemma DisplayRound(items: seq<Cell>, res: seq<Cell>, vals: seq<Item>, was: seq<Item>, shown: seq<Item>, n: nat,
                     m: int)
    requires Distinct(items) && Amounts(items) !! Amounts(res) && AllValid(was) && AllValid(shown) && Round(was, n, m)
    requires Read(items) == LeftOf(was, n, m) && Read(res) == shown + [ShownOf(was, n, m)]
    requires |was| + |shown| <= |vals| && AddUp(shown, was, vals)
    ensures DisplayState(items, res, vals) && |items| < |was|
  {
    RoundConserves(was, n, m);
    hide Peeled, Run;
    var z := ShownOf(was, n, m);
    var k :| 0 <= k < n && was[k].value == m;
    assert ValidItem(was[k]);
    forall i: int ensures Val(Read(res), i) + Val(Read(items), i) == Val(vals, i) {
      ValConcat(shown, [z], i);
      ValSingle(z, i);
      assert Val(shown, i) + Val(was, i) == Val(vals, i);
    }
  }

  lemma DisplayDone(out: seq<Item>, vals: seq<Item>)
    requires AllValid(out) && forall i: int :: Val(out, i) == Val(vals, i)
    ensures Cloned(SortedByValue(out)) == SortedByValue(out)
    ensures AllValid(SortedByValue(out)) && Descending(SortedByValue(out)) && |SortedByValue(out)| == |out|
    ensures forall i: int :: Val(SortedByValue(out), i) == Val(vals, i)
    ensures multiset(SortedByValue(out)) == multiset(out)
  {
    var r := SortedByValue(out);
    SortedByValueSorts(out);
    assert |multiset(r)| == |r| && |multiset(out)| == |out|;
    forall k | 0 <= k < |r| ensures ValidItem(r[k]) {
      assert r[k] in multiset(out);
    }
    CloneNormal(r);
    forall i: int ensures Val(r, i) == Val(vals, i) {
      ValPermutation(r, out, i);
    }
  }
}
