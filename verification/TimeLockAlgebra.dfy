/** The algebra of time locks: for every step function with non-negative values there is exactly
    one normal list, so addition, subtraction and expiry are given by what they do to the step
    function. The operations of the program are proved to compute these lists. */
module TimeLockAlgebra {
  import opened TimeLockItems

  // ---------- Appending in normal form ----------

  function AppendItem(items: seq<Item>, z: Item): seq<Item> {
    if items == [] then [z]
    else
      var last := items[|items| - 1];
      if CanMerge(last, z) then items[|items| - 1 := Merge(last, z)] else items + [z]
  }

  function AppendItems(items: seq<Item>, more: seq<Item>): seq<Item> {
    if more == [] then items else AppendItem(items, more[0]) + more[1..]
  }

  lemma AppendItemMeaning(items: seq<Item>, z: Item)
    requires Normal(items) && ValidItem(z) && Before(items, [z])
    ensures Normal(AppendItem(items, z)) && AppendItem(items, z) != []
    ensures var last := AppendItem(items, z)[|AppendItem(items, z)| - 1];
            last.end == z.end && last.value == z.value
    ensures forall t: int :: Val(AppendItem(items, z), t) == Val(items, t) + ItemVal(z, t)
  {
    if items == [] || !CanMerge(items[|items| - 1], z) {
      JoinNormal(items, [z]);
      assert AppendItem(items, z) == items + [z];
      forall t: int ensures Val(items + [z], t) == Val(items, t) + ItemVal(z, t) {
        ValSingle(z, t);
      }
    } else {
      AppendMerged(items, z);
    }
  }

  lemma AppendMerged(items: seq<Item>, z: Item)
    requires Normal(items) && ValidItem(z) && items != [] && CanMerge(items[|items| - 1], z)
    ensures Normal(AppendItem(items, z)) && |AppendItem(items, z)| == |items|
    ensures AppendItem(items, z)[|items| - 1] == Item(items[|items| - 1].start, z.end, z.value)
    ensures forall t: int :: Val(AppendItem(items, z), t) == Val(items, t) + ItemVal(z, t)
  {
    var front, last := items[..|items| - 1], items[|items| - 1];
    var merged := Merge(last, z);
    FrontNormal(items);
    JoinNormal(front, [merged]);
    assert AppendItem(items, z) == front + [merged];
    assert items == front + [last];
    forall t: int ensures Val(front + [merged], t) == Val(items, t) + ItemVal(z, t) {
      ValConcat(front, [last], t);
      ValSingle(last, t);
      ValSingle(merged, t);
    }
  }

  /** Only the first appended item can merge, because the appended list is itself normal. */
  lemma AppendItemsMeaning(items: seq<Item>, more: seq<Item>)
    requires Normal(items) && Normal(more) && Before(items, more)
    ensures var r := AppendItems(items, more);
            && Normal(r)
            && (more != [] ==> r != [] && r[|r| - 1].end == more[|more| - 1].end)
            && forall t: int :: Val(r, t) == Val(items, t) + Val(more, t)
  {
    if more != [] {
      AppendItemMeaning(items, more[0]);
      var r, rest := AppendItem(items, more[0]), more[1..];
      TailNormal(more);
      JoinNormal(r, rest);
      forall t: int ensures Val(r + rest, t) == Val(items, t) + Val(more, t) {
        assert Val(more, t) == ItemVal(more[0], t) + Val(rest, t);
      }
    }
  }

  lemma FrontNormal(s: seq<Item>)
    requires Normal(s) && s != []
    ensures var front := s[..|s| - 1];
            && Normal(front) && Before(front, [s[|s| - 1]])
            && (front != [] ==> !CanMerge(front[|front| - 1], s[|s| - 1]))
  {
  }

  lemma TailNormal(s: seq<Item>)
    requires Normal(s) && s != []
    ensures Normal(s[1..]) && Before([s[0]], s[1..])
    ensures |s| > 1 ==> !CanMerge(s[0], s[1])
  {
  }

  lemma JoinNormal(a: seq<Item>, b: seq<Item>)
    requires Normal(a) && Normal(b) && Before(a, b)
    requires a != [] && b != [] ==> !CanMerge(a[|a| - 1], b[0])
    ensures Normal(a + b)
    ensures forall t: int :: Val(a + b, t) == Val(a, t) + Val(b, t)
  {
    forall t: int ensures Val(a + b, t) == Val(a, t) + Val(b, t) {
      ValConcat(a, b, t);
    }
    if a != [] && b != [] {
      var s := a + b;
      forall j, k | 0 <= j < k < |s| ensures s[j].end < s[k].start {
        if j < |a| <= k {
          assert a[j].end <= a[|a| - 1].end;
          assert b[0].start <= b[k - |a|].start;
        }
      }
    }
  }

  // ---------- The normal form of a step function ----------

  /** The list denoting f on the instants below n, built one instant at a time. */
  ghost function Canon(f: int -> int, n: nat): seq<Item>
    requires n <= FOREVER + 1
  {
    if n == 0 then []
    else if f(n - 1) <= 0 then Canon(f, n - 1)
    else AppendItem(Canon(f, n - 1), Item(n - 1, n - 1, f(n - 1)))
  }

  lemma {:induction false} CanonMeaning(f: int -> int, n: nat)
    requires n <= FOREVER + 1
    requires forall t: int :: f(t) >= 0
    ensures var r := Canon(f, n);
            && Normal(r) && (r == [] || r[|r| - 1].end < n)
            && forall t: int :: Val(r, t) == if 0 <= t < n then f(t) else 0
  {
    if n > 0 {
      CanonMeaning(f, n - 1);
      if f(n - 1) > 0 {
        AppendItemMeaning(Canon(f, n - 1), Item(n - 1, n - 1, f(n - 1)));
      }
    }
  }

  /** One past the last instant of an ordered list. */
  function Span(s: seq<Item>): (n: nat)
    ensures n <= FOREVER + 1
  {
    if s == [] then 0 else s[|s| - 1].end + 1
  }

  lemma ValOutside(s: seq<Item>, t: int)
    requires Ordered(s) && !(0 <= t < Span(s))
    ensures Val(s, t) == 0
  {
    if t < 0 {
      ValBefore(s, t);
    } else {
      ValAfter(s, t);
    }
  }

  ghost function Plus(x: seq<Item>, y: seq<Item>): seq<Item> {
    Canon(t => Val(x, t) + Val(y, t), if Span(x) < Span(y) then Span(y) else Span(x))
  }

  ghost function Minus(x: seq<Item>, z: Item): seq<Item> {
    Canon(t => if Val(x, t) < ItemVal(z, t) then 0 else Val(x, t) - ItemVal(z, t), Span(x))
  }

  lemma PlusMeaning(x: seq<Item>, y: seq<Item>)
    requires Normal(x) && Normal(y)
    ensures Normal(Plus(x, y))
    ensures forall t: int :: Val(Plus(x, y), t) == Val(x, t) + Val(y, t)
  {
    forall t: int ensures Val(x, t) + Val(y, t) >= 0 {
      ValNonNegative(x, t);
      ValNonNegative(y, t);
    }
    CanonMeaning(t => Val(x, t) + Val(y, t), if Span(x) < Span(y) then Span(y) else Span(x));
    forall t: int ensures Val(Plus(x, y), t) == Val(x, t) + Val(y, t) {
      if !(0 <= t < Span(x)) {
        ValOutside(x, t);
      }
      if !(0 <= t < Span(y)) {
        ValOutside(y, t);
      }
    }
  }

  /** The list is worth at least z.value at every instant of z. */
  ghost predicate Covers(x: seq<Item>, z: Item) {
    forall t: int :: z.start <= t <= z.end ==> Val(x, t) >= z.value
  }

  lemma MinusMeaning(x: seq<Item>, z: Item)
    requires Normal(x) && ValidItem(z) && Covers(x, z)
    ensures Normal(Minus(x, z))
    ensures forall t: int :: Val(Minus(x, z), t) == Val(x, t) - ItemVal(z, t)
  {
    forall t: int ensures Val(x, t) >= ItemVal(z, t) {
      ValNonNegative(x, t);
    }
    CanonMeaning(t => if Val(x, t) < ItemVal(z, t) then 0 else Val(x, t) - ItemVal(z, t), Span(x));
    forall t: int ensures Val(Minus(x, z), t) == Val(x, t) - ItemVal(z, t) {
      if !(0 <= t < Span(x)) {
        ValOutside(x, t);
      }
    }
  }

  // ---------- Laws, on lists item for item ----------

  lemma PlusUnique(r: seq<Item>, x: seq<Item>, y: seq<Item>)
    requires Normal(r) && Normal(x) && Normal(y)
    requires forall t: int :: Val(r, t) == Val(x, t) + Val(y, t)
    ensures r == Plus(x, y)
  {
    PlusMeaning(x, y);
    forall t: int ensures Val(r, t) == Val(Plus(x, y), t) {
      assert Val(r, t) == Val(x, t) + Val(y, t);
    }
    NormalFormUnique(r, Plus(x, y));
  }

  lemma MinusUnique(r: seq<Item>, x: seq<Item>, z: Item)
    requires Normal(r) && Normal(x) && ValidItem(z) && Covers(x, z)
    requires forall t: int :: Val(r, t) == Val(x, t) - ItemVal(z, t)
    ensures r == Minus(x, z)
  {
    MinusMeaning(x, z);
    forall t: int ensures Val(r, t) == Val(Minus(x, z), t) {
      assert Val(r, t) == Val(x, t) - ItemVal(z, t);
    }
    NormalFormUnique(r, Minus(x, z));
  }

  lemma PlusCommutative(x: seq<Item>, y: seq<Item>)
    requires Normal(x) && Normal(y)
    ensures Plus(x, y) == Plus(y, x)
  {
    PlusMeaning(x, y);
    PlusUnique(Plus(x, y), y, x);
  }

  lemma PlusAssociative(x: seq<Item>, y: seq<Item>, z: seq<Item>)
    requires Normal(x) && Normal(y) && Normal(z)
    ensures Plus(Plus(x, y), z) == Plus(x, Plus(y, z))
  {
    PlusMeaning(x, y);
    PlusMeaning(y, z);
    PlusMeaning(Plus(x, y), z);
    PlusUnique(Plus(Plus(x, y), z), x, Plus(y, z));
  }

  lemma PlusEmpty(x: seq<Item>)
    requires Normal(x)
    ensures Plus(x, []) == x && Plus([], x) == x
  {
    PlusUnique(x, x, []);
    PlusUnique(x, [], x);
  }

  /** Whatever could be subtracted can be added back, and gives the same list. */
  lemma MinusThenPlus(x: seq<Item>, z: Item)
    requires Normal(x) && ValidItem(z) && Covers(x, z)
    ensures Plus(Minus(x, z), [z]) == x
  {
    MinusMeaning(x, z);
    PlusUnique(x, Minus(x, z), [z]);
  }

  lemma PlusThenMinus(x: seq<Item>, z: Item)
    requires Normal(x) && ValidItem(z)
    ensures Covers(Plus(x, [z]), z)
    ensures Minus(Plus(x, [z]), z) == x
  {
    PlusMeaning(x, [z]);
    forall t: int ensures Val(Plus(x, [z]), t) == Val(x, t) + ItemVal(z, t) >= ItemVal(z, t) {
      ValNonNegative(x, t);
      ValSingle(z, t);
    }
    MinusUnique(x, Plus(x, [z]), z);
  }

  // ---------- Expiry ----------

  /** The list without the leading items that ended before the given time. */
  function Unexpired(s: seq<Item>, time: Instant): seq<Item> {
    if s == [] || s[0].end >= time then s else Unexpired(s[1..], time)
  }

  lemma {:induction false} UnexpiredMeaning(s: seq<Item>, time: Instant)
    requires Normal(s)
    ensures Normal(Unexpired(s, time))
    ensures forall k :: 0 <= k < |Unexpired(s, time)| ==> Unexpired(s, time)[k].end >= time
    ensures forall t: int :: t >= time ==> Val(Unexpired(s, time), t) == Val(s, t)
    ensures forall t: int :: 0 <= Val(Unexpired(s, time), t) <= Val(s, t)
  {
    if s != [] && s[0].end < time {
      UnexpiredMeaning(s[1..], time);
    } else {
      forall t: int ensures 0 <= Val(s, t) {
        ValNonNegative(s, t);
      }
      forall k | 0 <= k < |s| ensures s[k].end >= time {
        if k > 0 {
          assert s[0].end < s[k].start;
        }
      }
    }
  }
}
