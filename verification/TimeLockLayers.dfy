/** Lists of intervals that are nested in one another or apart. Such a list is fixed by its step
    function: its intervals are the stretches on which the function stays above both its
    neighbours, each worth the rise. */
module TimeLockLayers {
  import opened TimeLockItems

  predicate At(z: Item, t: int) {
    z.start <= t <= z.end
  }

  /** There is at least one instant between the two. */
  predicate Apart(x: Item, y: Item) {
    x.end + 1 < y.start || y.end + 1 < x.start
  }

  /** x lies within y and is not all of it. */
  predicate Inside(x: Item, y: Item) {
    y.start <= x.start && x.end <= y.end && (y.start < x.start || x.end < y.end)
  }

  predicate Layered(x: Item, y: Item) {
    Apart(x, y) || Inside(x, y) || Inside(y, x)
  }

  /** Any two intervals are apart, or one lies properly inside the other. */
  ghost predicate Layers(s: seq<Item>) {
    && (forall x :: x in s ==> ValidItem(x))
    && (forall x, y :: x in s && y in s && x != y ==> Layered(x, y))
    && (forall x :: x in s ==> multiset(s)[x] == 1)
  }

  // ---------- Comparing two instants ----------

  lemma ValSplit(s: seq<Item>, t: int)
    requires s != []
    ensures Val(s, t) == ItemVal(s[0], t) + Val(s[1..], t)
    ensures forall x :: x in s <==> x == s[0] || x in s[1..]
    ensures multiset(s) == multiset{s[0]} + multiset(s[1..])
  {
    assert s == [s[0]] + s[1..];
  }

  lemma {:induction false} ValAtMost(s: seq<Item>, t: int, u: int)
    requires forall x :: x in s ==> ValidItem(x) && (At(x, t) ==> At(x, u))
    ensures Val(s, t) <= Val(s, u)
  {
    if s != [] {
      ValSplit(s, t);
      ValSplit(s, u);
      assert s[0] in s && (At(s[0], t) ==> At(s[0], u));
      ValAtMost(s[1..], t, u);
    }
  }

  lemma {:induction false} ValLess(s: seq<Item>, t: int, u: int, y: Item)
    requires forall x :: x in s ==> ValidItem(x) && (At(x, t) ==> At(x, u))
    requires y in s && At(y, u) && !At(y, t)
    ensures Val(s, t) < Val(s, u)
  {
    ValSplit(s, t);
    ValSplit(s, u);
    if s[0] == y {
      ValAtMost(s[1..], t, u);
    } else {
      assert s[0] in s && (At(s[0], t) ==> At(s[0], u));
      ValLess(s[1..], t, u, y);
    }
  }

  lemma {:induction false} ValSame(s: seq<Item>, t: int, u: int)
    requires forall x :: x in s ==> (At(x, t) <==> At(x, u))
    ensures Val(s, t) == Val(s, u)
  {
    if s != [] {
      ValSplit(s, t);
      ValSplit(s, u);
      assert s[0] in s && (At(s[0], t) <==> At(s[0], u));
      ValSame(s[1..], t, u);
    }
  }

  /** Two instants that only y tells apart. */
  lemma {:induction false} ValDiffers(s: seq<Item>, t: int, u: int, y: Item)
    requires forall x :: x in s && x != y ==> (At(x, t) <==> At(x, u))
    requires multiset(s)[y] == 1 && At(y, u) && !At(y, t)
    ensures Val(s, u) == Val(s, t) + y.value
  {
    assert y in s;
    ValSplit(s, t);
    ValSplit(s, u);
    if s[0] == y {
      assert y !in multiset(s[1..]);
      assert y !in s[1..];
      ValSame(s[1..], t, u);
    } else {
      assert s[0] in s && (At(s[0], t) <==> At(s[0], u));
      ValDiffers(s[1..], t, u, y);
    }
  }

  // ---------- The stretches of a step function ----------

  function Larger(a: int, b: int): int {
    if a < b then b else a
  }

  /** t is a least instant of z, and z is worth the rise from the higher neighbour to it. */
  ghost predicate RisesAt(s: seq<Item>, z: Item, t: int) {
    && At(z, t) && (forall u :: At(z, u) ==> Val(s, t) <= Val(s, u))
    && z.value == Val(s, t) - Larger(Val(s, z.start - 1), Val(s, z.end + 1))
  }

  /** All along z the function stays above both neighbours of z, at the least by the value of z. */
  ghost predicate Rise(s: seq<Item>, z: Item) {
    ValidItem(z) && exists t :: RisesAt(s, z, t)
  }

  lemma LongestFrom(s: seq<Item>, z: Item, d: Item) returns (e: Item)
    requires d in s && Inside(d, z) && d.start == z.start
    ensures e in s && Inside(e, z) && e.start == z.start
    ensures forall y :: y in s && Inside(y, z) && y.start == z.start ==> y.end <= e.end
    decreases z.end - d.end
  {
    if y :| y in s && Inside(y, z) && y.start == z.start && y.end > d.end {
      e := LongestFrom(s, z, y);
    } else {
      e := d;
    }
  }

  /** An instant of z at which there are only z and what it lies in. */
  lemma BareInstant(s: seq<Item>, z: Item) returns (t: int)
    requires Layers(s) && z in s
    ensures At(z, t) && forall y :: y in s && At(y, t) ==> y == z || Inside(z, y)
  {
    t := z.start;
    if d :| d in s && Inside(d, z) && d.start == z.start {
      var e := LongestFrom(s, z, d);
      t := e.end + 1;
      forall y | y in s && At(y, t) ensures y == z || Inside(z, y) {
        assert y != e;
        assert Layered(y, e);
        assert y != z ==> Layered(y, z);
      }
    } else {
      forall y | y in s && At(y, t) ensures y == z || Inside(z, y) {
        assert y != z ==> Layered(y, z);
      }
    }
  }

  /** Next to z there is only what z lies in. */
  lemma Neighbours(s: seq<Item>, z: Item, y: Item)
    requires Layers(s) && z in s && y in s
    ensures At(y, z.start - 1) || At(y, z.end + 1) ==> Inside(z, y)
  {
    assert y != z ==> Layered(y, z);
  }

  /** Everything that z lies in reaches to the same neighbour. */
  lemma CommonSide(s: seq<Item>, z: Item) returns (u: int)
    requires Layers(s) && z in s
    ensures u == z.start - 1 || u == z.end + 1
    ensures forall y :: y in s && Inside(z, y) ==> At(y, u)
  {
    u := z.start - 1;
    if x :| x in s && Inside(z, x) && !At(x, z.start - 1) {
      u := z.end + 1;
      forall y | y in s && Inside(z, y) ensures At(y, u) {
        assert y != x ==> Layered(x, y);
      }
    }
  }

  lemma ShownRises(s: seq<Item>, z: Item)
    requires Layers(s) && z in s
    ensures Rise(s, z)
  {
    var t := BareInstant(s, z);
    var u := CommonSide(s, z);
    forall v | At(z, v) ensures Val(s, t) <= Val(s, v) {
      ValAtMost(s, t, v);
    }
    forall y | y in s ensures At(y, z.start - 1) || At(y, z.end + 1) ==> Inside(z, y) && At(y, u) {
      Neighbours(s, z, y);
    }
    ValAtMost(s, z.start - 1, u);
    ValAtMost(s, z.end + 1, u);
    ValDiffers(s, u, t, z);
    assert RisesAt(s, z, t);
  }

  /** Whatever is there at a least instant of a rise is there all along it. */
  lemma WholeRise(s: seq<Item>, z: Item, t: int, y: Item)
    requires Layers(s) && RisesAt(s, z, t) && y in s && At(y, t)
    ensures y.start <= z.start && z.end <= y.end
  {
    if y.end < z.end {
      OnlyAround(s, y, y.end + 1);
      ValLess(s, y.end + 1, t, y);
    }
    if z.start < y.start {
      OnlyAround(s, y, y.start - 1);
      ValLess(s, y.start - 1, t, y);
    }
  }

  lemma OnlyAround(s: seq<Item>, y: Item, u: int)
    requires Layers(s) && y in s && (u == y.end + 1 || u == y.start - 1)
    ensures forall x :: x in s && At(x, u) ==> Inside(y, x)
  {
    forall x | x in s && At(x, u) ensures Inside(y, x) {
      Neighbours(s, y, x);
    }
  }

  /** Something starts with the rise. */
  lemma EdgeOf(s: seq<Item>, z: Item, t: int, u: int) returns (y: Item)
    requires Layers(s) && RisesAt(s, z, t) && Val(s, u) < Val(s, t)
    ensures y in s && At(y, t) && !At(y, u)
  {
    if forall y :: y in s && At(y, t) ==> At(y, u) {
      ValAtMost(s, t, u);
      assert false;
    }
    y :| y in s && At(y, t) && !At(y, u);
  }

  lemma RiseIsShown(s: seq<Item>, z: Item)
    requires Layers(s) && Rise(s, z)
    ensures z in s
  {
    hide Val;
    var t :| RisesAt(s, z, t);
    var x := EdgeOf(s, z, t, z.start - 1);
    var y := EdgeOf(s, z, t, z.end + 1);
    WholeRise(s, z, t, x);
    WholeRise(s, z, t, y);
    assert x != y ==> Layered(x, y);
    var w := if x.end == z.end then x else y;
    assert w.start == z.start && w.end == z.end;
    ShownRises(s, w);
    var u :| RisesAt(s, w, u);
    assert At(z, u) && At(w, t);
  }

  /** The intervals of a layered list are exactly the rises of its step function. */
  lemma LayersAreRises(s: seq<Item>, z: Item)
    requires Layers(s)
    ensures z in s <==> Rise(s, z)
  {
    if z in s {
      ShownRises(s, z);
    }
    if Rise(s, z) {
      RiseIsShown(s, z);
    }
  }

  lemma SameRises(s: seq<Item>, r: seq<Item>, z: Item)
    requires forall t: int :: Val(s, t) == Val(r, t)
    ensures Rise(s, z) <==> Rise(r, z)
  {
    hide Val;
    if t :| RisesAt(s, z, t) {
      assert RisesAt(r, z, t);
    }
    if t :| RisesAt(r, z, t) {
      assert RisesAt(s, z, t);
    }
  }

  /** The step function determines the list up to the order of its intervals. */
  lemma LayersUnique(s: seq<Item>, r: seq<Item>)
    requires Layers(s) && Layers(r) && forall t: int :: Val(s, t) == Val(r, t)
    ensures multiset(s) == multiset(r)
  {
    hide Rise;
    forall z ensures multiset(s)[z] == multiset(r)[z] {
      LayersAreRises(s, z);
      LayersAreRises(r, z);
      SameRises(s, r, z);
      if z !in s {
        assert z !in multiset(s) && z !in multiset(r);
      }
    }
  }
}
