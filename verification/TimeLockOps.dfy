/** The operations of a time lock as the program performs them: item-wise addition and
    subtraction, the two-cursor merge, the interval subtraction, the one-pass comparison. */
module TimeLockOps {
  import opened TimeLockItems
  import opened TimeLockAlgebra

  // ---------- Two items ----------

  datatype TailFlag = TailInBoth | TailInFirst | TailInSecond

  predicate Overlap(z: Item, x: Item) {
    x.start <= z.end && z.start <= x.end
  }

  function IntersectionAdd(x: Item, y: Item): Option<Item> {
    var start, end := MaxInstant(x.start, y.start), MinInstant(x.end, y.end);
    if start > end then None else Some(Item(start, end, x.value + y.value))
  }

  function IntersectionSub(x: Item, y: Item): Option<Item> {
    var start, end := MaxInstant(x.start, y.start), MinInstant(x.end, y.end);
    if x.value == y.value || start > end then None else Some(Item(start, end, x.value - y.value))
  }

  function AsSeq(z: Option<Item>): seq<Item> {
    if z.None? then [] else [z.value]
  }

  /** The part of the earlier item before the later one starts. */
  function AddHead(z: Item, x: Item): seq<Item> {
    if x.start < z.start then [AdjustEnd(x, z.start - 1)]
    else if z.start < x.start then [AdjustEnd(z, x.start - 1)]
    else []
  }

  /** Splits two items into head, middle and tail; the flag says which one owns the tail. */
  function AddItems(z: Item, x: Item): (seq<Item>, TailFlag) {
    if x.end < z.start then
      (if CanMerge(x, z) then [Merge(x, z)] else [x, z], TailInFirst)
    else if z.end < x.start then
      (if CanMerge(z, x) then [Merge(z, x)] else [z, x], TailInSecond)
    else
      var front := AddHead(z, x) + AsSeq(IntersectionAdd(x, z));
      if x.end < z.end then (front + [AdjustStart(z, x.end + 1)], TailInFirst)
      else if z.end < x.end then (front + [AdjustStart(x, z.end + 1)], TailInSecond)
      else (front, TailInBoth)
  }

  function SubHead(z: Item, x: Item): seq<Item> {
    if z.start < x.start then [AdjustEnd(z, x.start - 1)] else []
  }

  function SubTail(z: Item, x: Item): seq<Item> {
    if z.end > x.end then [AdjustStart(z, x.end + 1)] else []
  }

  /** Takes x out of z; what x still needs after z is the missing part. */
  function SubItems(z: Item, x: Item): (seq<Item>, Option<Item>) {
    if z.end < x.start || z.start > x.end || z.value < x.value then
      ([z], Some(x))
    else
      var front := SubHead(z, x) + AsSeq(IntersectionSub(z, x));
      if z.end >= x.end then (front + SubTail(z, x), None)
      else if z.end >= x.start then (front, Some(AdjustStart(x, z.end + 1)))
      else (front, Some(x))
  }

  lemma ValPair(a: Item, b: Item, t: int)
    ensures Val([a, b], t) == ItemVal(a, t) + ItemVal(b, t)
  {
    assert [a, b] == [a] + [b];
    ValConcat([a], [b], t);
    ValSingle(a, t);
    ValSingle(b, t);
  }

  /** Up to the earlier end, head and middle together are worth both items; beyond it, nothing. */
  lemma AddFront(z: Item, x: Item)
    requires ValidItem(z) && ValidItem(x) && Overlap(z, x)
    ensures var front := AddHead(z, x) + AsSeq(IntersectionAdd(x, z));
            && Normal(front) && front != []
            && front[0].start == MinInstant(z.start, x.start)
            && front[|front| - 1].end == MinInstant(z.end, x.end)
            && forall t: int :: Val(front, t)
                 == if t <= MinInstant(z.end, x.end) then ItemVal(z, t) + ItemVal(x, t) else 0
  {
    var head := AddHead(z, x);
    var mid := IntersectionAdd(x, z).value;
    assert IntersectionAdd(x, z) == Some(mid);
    var cut := MinInstant(z.end, x.end);
    if head == [] {
      assert head + [mid] == [mid];
      forall t: int ensures Val([mid], t) == if t <= cut then ItemVal(z, t) + ItemVal(x, t) else 0 {
        ValSingle(mid, t);
      }
    } else {
      assert head + [mid] == [head[0], mid];
      forall t: int ensures Val([head[0], mid], t) == if t <= cut then ItemVal(z, t) + ItemVal(x, t) else 0 {
        ValPair(head[0], mid, t);
      }
    }
  }

  lemma TailVal(z: Item, cut: Instant, t: int)
    requires ValidItem(z) && z.start <= cut + 1 && cut < z.end
    ensures ItemVal(AdjustStart(z, cut + 1), t) == if t <= cut then 0 else ItemVal(z, t)
  {
  }

  /** Item addition is pointwise addition. */
  lemma AddItemsMeaning(z: Item, x: Item)
    requires ValidItem(z) && ValidItem(x)
    ensures forall t: int :: Val(AddItems(z, x).0, t) == ItemVal(z, t) + ItemVal(x, t)
  {
    if Overlap(z, x) {
      AddFront(z, x);
      var front := AddHead(z, x) + AsSeq(IntersectionAdd(x, z));
      forall t: int ensures Val(AddItems(z, x).0, t) == ItemVal(z, t) + ItemVal(x, t) {
        if z.end != x.end {
          var tail := if x.end < z.end then AdjustStart(z, x.end + 1) else AdjustStart(x, z.end + 1);
          ValConcat(front, [tail], t);
          ValSingle(tail, t);
        }
      }
    } else {
      forall t: int ensures Val(AddItems(z, x).0, t) == ItemVal(z, t) + ItemVal(x, t) {
        ValPair(x, z, t);
        ValPair(z, x, t);
        ValSingle(Merge(x, z), t);
        ValSingle(Merge(z, x), t);
      }
    }
  }

  // ---------- Validity ----------

  /** The one-pass check of adjacent items decides the normal form. */
  method IsValid(items: seq<Item>) returns (ok: bool)
    ensures ok <==> Normal(items)
  {
    var k := 0;
    while k < |items|
      invariant 0 <= k <= |items|
      invariant Normal(items[..k])
    {
      var next := items[k];
      if !ValidItem(next) {
        return false;
      }
      if k > 0 {
        var prev := items[k - 1];
        if prev.end >= next.start || CanMerge(prev, next) {
          assert !(items[k - 1].end < items[k].start) || CanMerge(items[k - 1], items[k]);
          return false;
        }
      }
      assert items[..k + 1] == items[..k] + [next];
      JoinNormal(items[..k], [next]);
      k := k + 1;
    }
    assert items[..k] == items;
    return true;
  }

  // ---------- The two-cursor merge ----------

  /** The local variables of the merge loop: the two cursors, the carried tail, the flag that
      says whose tail it is, and the items produced so far. */
  datatype Cursor = Cursor(i: nat, j: nat, last: Option<Item>, flag: TailFlag, items: seq<Item>)

  /** What is left of the first operand: its current item may have been cut down to the tail. */
  ghost function RestX(x: seq<Item>, c: Cursor): seq<Item>
    requires c.i <= |x|
  {
    if c.i < |x| && c.last.Some? && c.flag.TailInFirst? then [c.last.value] + x[c.i + 1..] else x[c.i..]
  }

  ghost function RestY(y: seq<Item>, c: Cursor): seq<Item>
    requires c.j <= |y|
  {
    if c.j < |y| && c.last.Some? && c.flag.TailInSecond? then [c.last.value] + y[c.j + 1..] else y[c.j..]
  }

  /** The items produced, the rest of x and the rest of y always add up to x and y, and the
      items produced lie before both rests. */
  ghost predicate MergeInvariant(x: seq<Item>, y: seq<Item>, c: Cursor) {
    && c.i <= |x| && c.j <= |y|
    && (c.last.Some? ==> (c.flag.TailInFirst? && c.i < |x|) || (c.flag.TailInSecond? && c.j < |y|))
    && Normal(c.items) && Normal(RestX(x, c)) && Normal(RestY(y, c))
    && Before(c.items, RestX(x, c)) && Before(c.items, RestY(y, c))
    && forall t: int :: Val(c.items, t) + Val(RestX(x, c), t) + Val(RestY(y, c), t) == Val(x, t) + Val(y, t)
  }

  lemma MergeStart(x: seq<Item>, y: seq<Item>)
    requires Normal(x) && Normal(y)
    ensures MergeInvariant(x, y, Cursor(0, 0, None, TailInBoth, []))
  {
    assert x[0..] == x && y[0..] == y;
  }

  lemma ValTail(s: seq<Item>, t: int)
    requires s != []
    ensures Val(s, t) == ItemVal(s[0], t) + Val(s[1..], t)
  {
  }

  /** The current item of one operand lies before the other operand: it is emitted whole. */
  lemma MergeEmit(items: seq<Item>, rest: seq<Item>, other: seq<Item>)
    requires Normal(items) && Normal(rest) && Normal(other) && rest != []
    requires Before(items, rest) && Before([rest[0]], other)
    ensures var items' := AppendItem(items, rest[0]);
            && Normal(items') && Normal(rest[1..])
            && Before(items', rest[1..]) && Before(items', other)
            && forall t: int :: Val(items', t) + Val(rest[1..], t) == Val(items, t) + Val(rest, t)
  {
    AppendItemMeaning(items, rest[0]);
    TailNormal(rest);
    forall t: int ensures Val(AppendItem(items, rest[0]), t) + Val(rest[1..], t) == Val(items, t) + Val(rest, t) {
      ValTail(rest, t);
    }
  }

  ghost function Front(z: Item, x: Item): seq<Item> {
    AddHead(z, x) + AsSeq(IntersectionAdd(x, z))
  }

  lemma FrontVal(z: Item, x: Item, t: int)
    requires ValidItem(z) && ValidItem(x) && Overlap(z, x)
    ensures Val(Front(z, x), t) == if t <= MinInstant(z.end, x.end) then ItemVal(z, t) + ItemVal(x, t) else 0
  {
    AddFront(z, x);
  }

  lemma OverlapTailVal(zs: seq<Item>, xs: seq<Item>, t: int)
    requires zs != [] && xs != [] && ValidItem(zs[0]) && ValidItem(xs[0])
    requires Overlap(zs[0], xs[0]) && xs[0].end < zs[0].end
    ensures Val(Front(zs[0], xs[0]), t) + Val([AdjustStart(zs[0], xs[0].end + 1)] + zs[1..], t) + Val(xs[1..], t)
         == Val(zs, t) + Val(xs, t)
  {
    var tail := AdjustStart(zs[0], xs[0].end + 1);
    FrontVal(zs[0], xs[0], t);
    TailVal(zs[0], xs[0].end, t);
    ValTail(zs, t);
    ValTail(xs, t);
    ValTail([tail] + zs[1..], t);
  }

  lemma CutNormal(zs: seq<Item>, start: Instant)
    requires Normal(zs) && zs != [] && zs[0].start <= start <= zs[0].end
    ensures Normal([AdjustStart(zs[0], start)] + zs[1..])
  {
    TailNormal(zs);
    JoinNormal([AdjustStart(zs[0], start)], zs[1..]);
  }

  /** Two items overlap and z lasts longer: the common front is emitted and z is cut down. */
  lemma MergeOverlapTail(items: seq<Item>, zs: seq<Item>, xs: seq<Item>)
    requires Normal(items) && Normal(zs) && Normal(xs) && zs != [] && xs != []
    requires Before(items, zs) && Before(items, xs)
    requires Overlap(zs[0], xs[0]) && xs[0].end < zs[0].end
    ensures var items' := AppendItems(items, Front(zs[0], xs[0]));
            var zs' := [AdjustStart(zs[0], xs[0].end + 1)] + zs[1..];
            && Normal(items') && Normal(zs') && Normal(xs[1..])
            && Before(items', zs') && Before(items', xs[1..])
            && forall t: int :: Val(items', t) + Val(zs', t) + Val(xs[1..], t) ==
                 Val(items, t) + Val(zs, t) + Val(xs, t)
  {
    hide Val, AppendItem, AppendItems;
    var front, zs' := Front(zs[0], xs[0]), [AdjustStart(zs[0], xs[0].end + 1)] + zs[1..];
    AddFront(zs[0], xs[0]);
    AppendItemsMeaning(items, front);
    CutNormal(zs, xs[0].end + 1);
    TailNormal(xs);
    hide Normal;
    forall t: int ensures Val(AppendItems(items, front), t) + Val(zs', t) + Val(xs[1..], t)
                       == Val(items, t) + Val(zs, t) + Val(xs, t) {
      OverlapTailVal(zs, xs, t);
    }
  }

  lemma OverlapBothVal(zs: seq<Item>, xs: seq<Item>, t: int)
    requires zs != [] && xs != [] && ValidItem(zs[0]) && ValidItem(xs[0])
    requires Overlap(zs[0], xs[0]) && xs[0].end == zs[0].end
    ensures Val(Front(zs[0], xs[0]), t) + Val(zs[1..], t) + Val(xs[1..], t) == Val(zs, t) + Val(xs, t)
  {
    FrontVal(zs[0], xs[0], t);
    ValTail(zs, t);
    ValTail(xs, t);
  }

  /** Appending all but the last item and then the last is appending the whole list. */
  lemma AppendInTwo(items: seq<Item>, more: seq<Item>)
    requires Normal(items) && Normal(more) && Before(items, more) && more != []
    ensures AppendItem(AppendItems(items, more[..|more| - 1]), more[|more| - 1]) == AppendItems(items, more)
  {
    var done, last := more[..|more| - 1], more[|more| - 1];
    if done != [] {
      var r := AppendItem(items, more[0]);
      AppendItemMeaning(items, more[0]);
      assert AppendItems(items, done) == r + done[1..];
      assert !CanMerge(more[|more| - 2], more[|more| - 1]);
      assert more[1..] == done[1..] + [last];
      assert r + (done[1..] + [last]) == (r + done[1..]) + [last];
    }
  }

  /** Two items overlap and end together: both are used up. */
  lemma MergeOverlapBoth(items: seq<Item>, zs: seq<Item>, xs: seq<Item>)
    requires Normal(items) && Normal(zs) && Normal(xs) && zs != [] && xs != []
    requires Before(items, zs) && Before(items, xs)
    requires Overlap(zs[0], xs[0]) && xs[0].end == zs[0].end
    ensures var items' := AppendItems(items, Front(zs[0], xs[0]));
            && Normal(items') && Normal(zs[1..]) && Normal(xs[1..])
            && Before(items', zs[1..]) && Before(items', xs[1..])
            && forall t: int :: Val(items', t) + Val(zs[1..], t) + Val(xs[1..], t) ==
                 Val(items, t) + Val(zs, t) + Val(xs, t)
  {
    var front := Front(zs[0], xs[0]);
    AddFront(zs[0], xs[0]);
    AppendItemsMeaning(items, front);
    TailNormal(zs);
    TailNormal(xs);
    forall t: int ensures Val(AppendItems(items, front), t) + Val(zs[1..], t) + Val(xs[1..], t)
                       == Val(items, t) + Val(zs, t) + Val(xs, t) {
      OverlapBothVal(zs, xs, t);
    }
  }

  predicate CursorsOpen(x: seq<Item>, y: seq<Item>, c: Cursor) {
    c.i < |x| && c.j < |y|
  }

  lemma CurrentItems(x: seq<Item>, y: seq<Item>, c: Cursor)
    requires MergeInvariant(x, y, c) && CursorsOpen(x, y, c)
    ensures RestX(x, c) != [] && RestX(x, c)[1..] == x[c.i + 1..]
    ensures RestX(x, c)[0] == if c.last.Some? && c.flag.TailInFirst? then c.last.value else x[c.i]
    ensures RestY(y, c) != [] && RestY(y, c)[1..] == y[c.j + 1..]
    ensures RestY(y, c)[0] == if c.last.Some? && c.flag.TailInSecond? then c.last.value else y[c.j]
    ensures ValidItem(RestX(x, c)[0]) && ValidItem(RestY(y, c)[0])
    ensures Normal(c.items) && Normal(RestX(x, c)) && Normal(RestY(y, c))
    ensures Before(c.items, RestX(x, c)) && Before(c.items, RestY(y, c))
  {
  }

  lemma StepX(x: seq<Item>, y: seq<Item>, c: Cursor)
    requires MergeInvariant(x, y, c) && CursorsOpen(x, y, c)
    requires RestX(x, c)[0].end < RestY(y, c)[0].start
    ensures MergeInvariant(x, y, Cursor(c.i + 1, c.j, if c.flag.TailInFirst? then None else c.last, c.flag,
                                        AppendItem(c.items, RestX(x, c)[0])))
  {
    var xs, ys := RestX(x, c), RestY(y, c);
    CurrentItems(x, y, c);
    MergeEmit(c.items, xs, ys);
    var c' := Cursor(c.i + 1, c.j, if c.flag.TailInFirst? then None else c.last, c.flag, AppendItem(c.items, xs[0]));
    assert RestX(x, c') == xs[1..] && RestY(y, c') == ys;
  }

  lemma StepY(x: seq<Item>, y: seq<Item>, c: Cursor)
    requires MergeInvariant(x, y, c) && CursorsOpen(x, y, c)
    requires RestY(y, c)[0].end < RestX(x, c)[0].start
    ensures MergeInvariant(x, y, Cursor(c.i, c.j + 1, if c.flag.TailInSecond? then None else c.last, c.flag,
                                        AppendItem(c.items, RestY(y, c)[0])))
  {
    var xs, ys := RestX(x, c), RestY(y, c);
    CurrentItems(x, y, c);
    MergeEmit(c.items, ys, xs);
    var c' := Cursor(c.i, c.j + 1, if c.flag.TailInSecond? then None else c.last, c.flag, AppendItem(c.items, ys[0]));
    assert RestY(y, c') == ys[1..] && RestX(x, c') == xs;
  }

  /** The state after two overlapping items have been combined. */
  function Overlapped(c: Cursor, z: Item, x: Item): Cursor {
    var (res, flag) := AddItems(z, x);
    if res == [] then c
    else
      var last, items := res[|res| - 1], AppendItems(c.items, res[..|res| - 1]);
      match flag
      case TailInFirst => Cursor(c.i, c.j + 1, Some(last), flag, items)
      case TailInSecond => Cursor(c.i + 1, c.j, Some(last), flag, items)
      case TailInBoth => Cursor(c.i + 1, c.j + 1, None, flag, AppendItem(items, last))
  }

  lemma OverlappedCases(c: Cursor, z: Item, w: Item)
    requires ValidItem(z) && ValidItem(w) && Overlap(z, w)
    ensures var front := Front(z, w);
            && front != [] && AddItems(z, w).0 != []
            && Overlapped(c, z, w) ==
               if w.end < z.end then
                 Cursor(c.i, c.j + 1, Some(AdjustStart(z, w.end + 1)), TailInFirst, AppendItems(c.items, front))
               else if z.end < w.end then
                 Cursor(c.i + 1, c.j, Some(AdjustStart(w, z.end + 1)), TailInSecond, AppendItems(c.items, front))
               else
                 Cursor(c.i + 1, c.j + 1, None, TailInBoth,
                        AppendItem(AppendItems(c.items, front[..|front| - 1]), front[|front| - 1]))
  {
    hide AppendItem, AppendItems, Val, Normal;
    var front := Front(z, w);
    assert front[|front| - 1] == Item(MaxInstant(w.start, z.start), MinInstant(w.end, z.end), w.value + z.value);
    if w.end < z.end {
      assert (front + [AdjustStart(z, w.end + 1)])[..|front|] == front;
    } else if z.end < w.end {
      assert (front + [AdjustStart(w, z.end + 1)])[..|front|] == front;
    }
  }

  /** A step keeps the invariant when what it produces and leaves adds up to what there was. */
  lemma MergeKeeps(x: seq<Item>, y: seq<Item>, c: Cursor, c': Cursor, xs: seq<Item>, ys: seq<Item>)
    requires MergeInvariant(x, y, c)
    requires c'.i <= |x| && c'.j <= |y| && RestX(x, c') == xs && RestY(y, c') == ys
    requires c'.last.Some? ==> (c'.flag.TailInFirst? && c'.i < |x|) || (c'.flag.TailInSecond? && c'.j < |y|)
    requires Normal(c'.items) && Normal(xs) && Normal(ys) && Before(c'.items, xs) && Before(c'.items, ys)
    requires forall t: int :: Val(c'.items, t) + Val(xs, t) + Val(ys, t)
                              == Val(c.items, t) + Val(RestX(x, c), t) + Val(RestY(y, c), t)
    ensures MergeInvariant(x, y, c')
  {
    hide Normal, Val;
  }

  lemma OverlapFirstLonger(x: seq<Item>, y: seq<Item>, c: Cursor, z: Item, w: Item)
    requires MergeInvariant(x, y, c) && CursorsOpen(x, y, c)
    requires z == RestX(x, c)[0] && w == RestY(y, c)[0] && Overlap(z, w) && w.end < z.end
    ensures MergeInvariant(x, y, Cursor(c.i, c.j + 1, Some(AdjustStart(z, w.end + 1)), TailInFirst,
                                        AppendItems(c.items, Front(z, w))))
  {
    hide Val, AppendItem, AppendItems, Normal, MergeInvariant, Front, AdjustStart;
    var xs, ys := RestX(x, c), RestY(y, c);
    CurrentItems(x, y, c);
    var tail := AdjustStart(z, w.end + 1);
    var c' := Cursor(c.i, c.j + 1, Some(tail), TailInFirst, AppendItems(c.items, Front(z, w)));
    MergeOverlapTail(c.items, xs, ys);
    MergeKeeps(x, y, c, c', [tail] + xs[1..], ys[1..]);
  }

  lemma OverlapSecondLonger(x: seq<Item>, y: seq<Item>, c: Cursor, z: Item, w: Item)
    requires MergeInvariant(x, y, c) && CursorsOpen(x, y, c)
    requires z == RestX(x, c)[0] && w == RestY(y, c)[0] && Overlap(z, w) && z.end < w.end
    ensures MergeInvariant(x, y, Cursor(c.i + 1, c.j, Some(AdjustStart(w, z.end + 1)), TailInSecond,
                                        AppendItems(c.items, Front(z, w))))
  {
    hide Val, AppendItem, AppendItems, Normal, MergeInvariant, Front, AdjustStart;
    var xs, ys := RestX(x, c), RestY(y, c);
    CurrentItems(x, y, c);
    var tail := AdjustStart(w, z.end + 1);
    var c' := Cursor(c.i + 1, c.j, Some(tail), TailInSecond, AppendItems(c.items, Front(z, w)));
    MergeOverlapTail(c.items, ys, xs);
    FrontSymmetric(z, w);
    MergeKeeps(x, y, c, c', xs[1..], [tail] + ys[1..]);
  }

  lemma OverlapSameEnd(x: seq<Item>, y: seq<Item>, c: Cursor, z: Item, w: Item)
    requires MergeInvariant(x, y, c) && CursorsOpen(x, y, c)
    requires z == RestX(x, c)[0] && w == RestY(y, c)[0] && Overlap(z, w) && z.end == w.end
    ensures MergeInvariant(x, y, Cursor(c.i + 1, c.j + 1, None, TailInBoth, AppendItems(c.items, Front(z, w))))
  {
    hide Val, AppendItem, AppendItems, Normal, MergeInvariant, Front;
    var xs, ys := RestX(x, c), RestY(y, c);
    CurrentItems(x, y, c);
    var c' := Cursor(c.i + 1, c.j + 1, None, TailInBoth, AppendItems(c.items, Front(z, w)));
    MergeOverlapBoth(c.items, xs, ys);
    MergeKeeps(x, y, c, c', xs[1..], ys[1..]);
  }

  lemma StepOverlap(x: seq<Item>, y: seq<Item>, c: Cursor)
    requires MergeInvariant(x, y, c) && CursorsOpen(x, y, c)
    requires Overlap(RestX(x, c)[0], RestY(y, c)[0])
    ensures AddItems(RestX(x, c)[0], RestY(y, c)[0]).0 != []
    ensures MergeInvariant(x, y, Overlapped(c, RestX(x, c)[0], RestY(y, c)[0]))
  {
    hide Overlapped, AddItems, Val, AppendItem, AppendItems, Normal, MergeInvariant, Front, AdjustStart;
    CurrentItems(x, y, c);
    var z, w := RestX(x, c)[0], RestY(y, c)[0];
    OverlappedCases(c, z, w);
    if w.end < z.end {
      OverlapFirstLonger(x, y, c, z, w);
    } else if z.end < w.end {
      OverlapSecondLonger(x, y, c, z, w);
    } else {
      OverlapSameEnd(x, y, c, z, w);
      FrontBefore(c.items, z, w);
      AppendInTwo(c.items, Front(z, w));
    }
  }

  lemma FrontBefore(items: seq<Item>, z: Item, w: Item)
    requires ValidItem(z) && ValidItem(w) && Overlap(z, w)
    requires Before(items, [z]) && Before(items, [w])
    ensures Front(z, w) != [] && Normal(Front(z, w)) && Before(items, Front(z, w))
  {
    AddFront(z, w);
  }

  lemma FrontSymmetric(z: Item, w: Item)
    ensures Front(z, w) == Front(w, z)
  {
  }

  /** Appending the first item and then the others: the others cannot merge into it. */
  lemma AppendFirstThenRest(items: seq<Item>, more: seq<Item>)
    requires Normal(items) && Normal(more) && Before(items, more) && more != []
    ensures AppendItems(AppendItem(items, more[0]), more[1..]) == AppendItems(items, more)
  {
    AppendItemMeaning(items, more[0]);
    if |more| > 1 {
      assert !CanMerge(more[0], more[1]);
      var r := AppendItem(items, more[0]);
      assert r + [more[1]] + more[2..] == r + more[1..];
      assert more[1..][1..] == more[2..];
    }
  }

  /** When one operand is used up, appending what is left of the other completes the sum. */
  lemma MergeFinish(x: seq<Item>, y: seq<Item>, c: Cursor)
    requires MergeInvariant(x, y, c) && !CursorsOpen(x, y, c)
    requires Normal(x) && Normal(y)
    ensures RestX(x, c) == [] || RestY(y, c) == []
    ensures AppendItems(c.items, RestX(x, c) + RestY(y, c)) == Plus(x, y)
  {
    hide Normal, Val, AppendItem, AppendItems;
    var xs, ys := RestX(x, c), RestY(y, c);
    var more := if xs == [] then ys else xs;
    assert xs + ys == more;
    AppendItemsMeaning(c.items, more);
    forall t: int ensures Val(AppendItems(c.items, more), t) == Val(x, t) + Val(y, t) {
      ValNil(t);
    }
    PlusUnique(AppendItems(c.items, more), x, y);
  }

  lemma ValNil(t: int)
    ensures Val([], t) == 0
  {
  }

  // ---------- Comparison with an interval ----------

  /** When Cmp answers that x is enough for the interval z. The last conjunct is an artefact of
      the marker 0 for "nothing seen yet": an interval that begins at instant 0 is refused when
      the first item of x ends there. */
  ghost predicate Enough(x: seq<Item>, z: Item) {
    ValidItem(z) && Covers(x, z) && !RefusedAtZero(x, z)
  }

  predicate RefusedAtZero(x: seq<Item>, z: Item) {
    z.start == 0 < z.end && x != [] && x[0].end == 0
  }

  /** A balance that covers an interval from instant 0 on and is still refused. */
  lemma CoveredButRefused()
    ensures var x := [Item(0, 0, 1), Item(1, 5, 2)];
            var z := Item(0, 5, 1);
            Normal(x) && ValidItem(z) && Covers(x, z) && !Enough(x, z)
  {
    var x, z := [Item(0, 0, 1), Item(1, 5, 2)], Item(0, 5, 1);
    forall t: int | z.start <= t <= z.end ensures Val(x, t) >= z.value {
      ValAt(x, if t == 0 then 0 else 1, t);
    }
  }

  predicate SameSpan(x: seq<Item>, z: Item) {
    x != [] && x[0].start == z.start && x[|x| - 1].end == z.end
  }

  /** The scan takes a covering list of the same span for equal: the first amount below the first
      one of the list is that of the interval, or the first one itself is. */
  predicate ReadsEqual(x: seq<Item>, z: Item) {
    SameSpan(x, z) && exists k :: 0 <= k < |x| && x[k].value == z.value && NoneBelowFirst(x, k)
  }

  /** A single interval reads as equal to itself and to no other. */
  lemma OneReadsEqual(x: Item, z: Item)
    ensures ReadsEqual([x], z) <==> x == z
  {
  }

  predicate NoneBelowFirst(x: seq<Item>, n: nat)
    requires x != [] && n <= |x|
  {
    forall j :: 0 <= j < n ==> x[j].value >= x[0].value
  }

  /** What the scan knows after n items of a list of the same span: no amount below the first, or
      the first such amount is the interval's, or it is larger. */
  ghost predicate Scanned(x: seq<Item>, z: Item, n: nat, low: int, great: bool) {
    && 0 < n <= |x|
    && ((!great && low == x[0].value && NoneBelowFirst(x, n))
        || (!great && low == z.value && exists k :: 0 <= k < n && x[k].value == z.value && NoneBelowFirst(x, k))
        || (great && exists k :: 0 <= k < n && z.value < x[k].value < x[0].value && NoneBelowFirst(x, k)))
  }

  lemma ScanStarts(x: seq<Item>, z: Item)
    requires x != []
    ensures Scanned(x, z, 1, x[0].value, false)
  {
  }

  lemma ScanStep(x: seq<Item>, z: Item, n: nat, low: int, great: bool)
    requires Scanned(x, z, n, low, great) && n < |x| && (x[n].value < low ==> x[n].value >= z.value)
    ensures Scanned(x, z, n + 1, if x[n].value < low then x[n].value else low, great || z.value < x[n].value < low)
  {
    if great {
      var k :| 0 <= k < n && z.value < x[k].value < x[0].value && NoneBelowFirst(x, k);
    } else if low == x[0].value && NoneBelowFirst(x, n) {
      if x[n].value < low {
        assert NoneBelowFirst(x, n);
      }
    } else {
      var k :| 0 <= k < n && x[k].value == z.value && NoneBelowFirst(x, k);
    }
  }

  /** At the last item the scan has decided. */
  lemma ScanEnds(x: seq<Item>, z: Item, n: nat, low: int, great: bool)
    requires Normal(x) && SameSpan(x, z) && n < |x| && x[n].end >= z.end && Scanned(x, z, n + 1, low, great)
    ensures low >= z.value ==> (low == z.value && !great <==> ReadsEqual(x, z))
  {
    assert n == |x| - 1;
    if great {
      var k :| 0 <= k <= n && z.value < x[k].value < x[0].value && NoneBelowFirst(x, k);
    }
  }

  lemma OtherSpan(x: seq<Item>, z: Item)
    requires !SameSpan(x, z)
    ensures !ReadsEqual(x, z)
  {
  }

  /** x is worth exactly z.value at some instant of z and spans no more than z. */
  ghost predicate ExactSomewhere(x: seq<Item>, z: Item) {
    && x != [] && x[0].start == z.start && x[|x| - 1].end == z.end
    && exists t: int :: z.start <= t <= z.end && Val(x, t) == z.value
  }

  lemma NotEnoughAt(x: seq<Item>, z: Item, t: int)
    requires z.start <= t <= z.end ==> Val(x, t) == 0
    requires z.start <= t
    requires t <= z.end || z.end < z.start
    ensures !Enough(x, z)
  {
  }

  lemma NotEnoughInvalid(x: seq<Item>, zs: seq<Item>)
    requires |zs| == 1 && !Normal(zs)
    ensures !Enough(x, zs[0])
  {
  }

  lemma NotEnoughAtZero(x: seq<Item>, z: Item, k: nat)
    requires Ordered(x) && 0 < k < |x| && x[k - 1].end == 0 == z.start < z.end
    ensures !Enough(x, z)
  {
    if k > 1 {
      assert x[0].end < x[k - 1].start;
    }
  }

  lemma NotEnoughBelow(x: seq<Item>, z: Item, cut: int, v: int)
    requires LowestOn(x, z.start, cut, v) && cut <= z.end && v < z.value
    ensures !Enough(x, z)
  {
  }

  lemma LowestDecides(x: seq<Item>, z: Item, v: int)
    requires ValidItem(z) && !RefusedAtZero(x, z) && LowestOn(x, z.start, z.end, v)
    ensures Enough(x, z) <==> v >= z.value
    ensures x != [] && x[0].start == z.start && x[|x| - 1].end == z.end && v == z.value ==> ExactSomewhere(x, z)
  {
    var t :| z.start <= t <= z.end && Val(x, t) == v;
  }

  /** v is the least value of x on the instants from a to b. */
  ghost predicate LowestOn(x: seq<Item>, a: int, b: int, v: int) {
    && (forall t: int :: a <= t <= b ==> Val(x, t) >= v)
    && (exists t: int :: a <= t <= b && Val(x, t) == v)
  }

  lemma LowestFirst(x: seq<Item>, k: nat, a: int, cut: int)
    requires Ordered(x) && k < |x| && x[k].start <= a <= cut <= x[k].end
    ensures LowestOn(x, a, cut, x[k].value)
  {
    forall t: int | a <= t <= cut ensures Val(x, t) == x[k].value {
      ValAt(x, k, t);
    }
    assert Val(x, a) == x[k].value;
  }

  lemma LowestNext(x: seq<Item>, k: nat, a: int, cut: int, v: int)
    requires Ordered(x) && 0 < k < |x| && x[k].start == x[k - 1].end + 1 <= cut <= x[k].end
    requires LowestOn(x, a, x[k - 1].end, v)
    ensures LowestOn(x, a, cut, if x[k].value < v then x[k].value else v)
  {
    var w := if x[k].value < v then x[k].value else v;
    forall t: int | x[k].start <= t <= cut ensures Val(x, t) == x[k].value {
      ValAt(x, k, t);
    }
    var t :| a <= t <= x[k - 1].end && Val(x, t) == v;
    assert Val(x, if x[k].value < v then x[k].start else t) == w;
  }

  // ---------- Interval subtraction ----------

  lemma SubHeadPart(z: Item, x: Item)
    requires ValidItem(z) && ValidItem(x) && Overlap(z, x)
    ensures Normal(SubHead(z, x)) && Within(SubHead(z, x), z)
    ensures |SubHead(z, x)| <= 1
    ensures SubHead(z, x) != [] ==> SubHead(z, x)[0].end < x.start && SubHead(z, x)[0].value == z.value
  {
  }

  lemma SubMidPart(z: Item, x: Item)
    requires ValidItem(z) && ValidItem(x) && Overlap(z, x) && z.value >= x.value
    ensures var mid := AsSeq(IntersectionSub(z, x));
            && Normal(mid) && Within(mid, z) && |mid| <= 1
            && (mid != [] ==> x.start <= mid[0].start && mid[0].end <= x.end && mid[0].value < z.value)
  {
  }

  lemma SubTailPart(z: Item, x: Item)
    requires ValidItem(z) && ValidItem(x) && Overlap(z, x)
    ensures Normal(SubTail(z, x)) && Within(SubTail(z, x), z)
    ensures SubTail(z, x) != [] ==> x.end < SubTail(z, x)[0].start && SubTail(z, x)[0].value == z.value
  {
  }

  lemma SubParts(z: Item, x: Item)
    requires ValidItem(z) && ValidItem(x) && Overlap(z, x) && z.value >= x.value
    ensures var parts := SubHead(z, x) + AsSeq(IntersectionSub(z, x)) + SubTail(z, x);
            Normal(parts) && Within(parts, z)
  {
    hide Val, IntersectionSub, SubHead, SubTail, Normal;
    var head, mid, tail := SubHead(z, x), AsSeq(IntersectionSub(z, x)), SubTail(z, x);
    SubHeadPart(z, x);
    SubMidPart(z, x);
    SubTailPart(z, x);
    JoinNormal(head, mid);
    JoinNormal(head + mid, tail);
  }

  /** What is taken out of z for x at an instant: x within the span of z. */
  ghost function Taken(z: Item, x: Item, t: int): int {
    if z.start <= t <= z.end then ItemVal(x, t) else 0
  }

  lemma SubPartsVal(z: Item, x: Item, t: int)
    requires ValidItem(z) && ValidItem(x) && Overlap(z, x) && z.value >= x.value
    ensures Val(SubHead(z, x) + AsSeq(IntersectionSub(z, x)) + SubTail(z, x), t) == ItemVal(z, t) - Taken(z, x, t)
  {
    var head, mid, tail := SubHead(z, x), AsSeq(IntersectionSub(z, x)), SubTail(z, x);
    ValConcat(head, mid, t);
    ValConcat(head + mid, tail, t);
    PartVal(head, t);
    PartVal(mid, t);
    PartVal(tail, t);
  }

  /** x is taken out of z within the span of z if they overlap and z is worth enough, and what is
      still missing is x after z; otherwise nothing is taken and all of x is missing. The part of x
      before z is dropped without a trace: the result and the missing part account for all of x
      exactly if there is no such part. */
  lemma SubItemsMeaning(z: Item, x: Item)
    requires ValidItem(z) && ValidItem(x)
    ensures Normal(SubItems(z, x).0) && Within(SubItems(z, x).0, z)
    ensures Overlap(z, x) && z.value >= x.value ==>
      && SubItems(z, x).1 == (if z.end >= x.end then None else Some(Item(z.end + 1, x.end, x.value)))
      && forall t: int :: Val(SubItems(z, x).0, t) == ItemVal(z, t) - Taken(z, x, t)
    ensures !(Overlap(z, x) && z.value >= x.value) ==> SubItems(z, x) == ([z], Some(x))
    ensures (forall t: int ::
               Val(SubItems(z, x).0, t) - OptVal(SubItems(z, x).1, t) == ItemVal(z, t) - ItemVal(x, t))
            <==> z.start <= x.start || !Overlap(z, x) || z.value < x.value
  {
    var (res, more) := SubItems(z, x);
    if Overlap(z, x) && z.value >= x.value {
      assert res == SubHead(z, x) + AsSeq(IntersectionSub(z, x)) + SubTail(z, x);
      SubParts(z, x);
      forall t: int ensures Val(res, t) == ItemVal(z, t) - Taken(z, x, t) {
        SubPartsVal(z, x, t);
      }
      hide Val, Normal, Within, SubHead, SubTail, IntersectionSub, SubItems;
      if x.start < z.start {
        assert Val(res, x.start) - OptVal(more, x.start) != ItemVal(z, x.start) - ItemVal(x, x.start);
      }
    } else {
      forall t: int ensures Val([z], t) == ItemVal(z, t) {
        ValSingle(z, t);
      }
    }
  }

  lemma PartVal(part: seq<Item>, t: int)
    requires |part| <= 1
    ensures Val(part, t) == if part == [] then 0 else ItemVal(part[0], t)
  {
    if part != [] {
      assert part == [part[0]];
      ValSingle(part[0], t);
    }
  }

  /** After the items before i: what was produced plus what is left, less what is still missing
      of z, is the difference; and what is left covers what is missing. */
  ghost predicate SubInvariant(x: seq<Item>, z: Item, i: nat, missing: Item, out: seq<Item>) {
    && i <= |x| && ValidItem(missing) && Covers(x[i..], missing)
    && Normal(out) && Normal(x[i..]) && Before(out, x[i..])
    && forall t: int :: Val(out, t) + Val(x[i..], t) - ItemVal(missing, t) == Val(x, t) - ItemVal(z, t)
  }

  /** What is left begins no later than the missing part and its first item can pay for it. */
  lemma CoverHead(xs: seq<Item>, z: Item)
    requires Normal(xs) && ValidItem(z) && Covers(xs, z)
    ensures xs != []
    ensures xs[0].end >= z.start ==> xs[0].start <= z.start && xs[0].value >= z.value
    ensures z.end > xs[0].end && xs[0].end >= z.start ==> Covers(xs[1..], Item(xs[0].end + 1, z.end, z.value))
    ensures xs[0].end < z.start ==> Covers(xs[1..], z)
  {
    assert Val(xs, z.start) >= z.value;
    if xs[0].end >= z.start {
      ValHead(xs, z.start);
    }
    forall t: int ensures t > xs[0].end ==> Val(xs[1..], t) == Val(xs, t) {
      ValTail(xs, t);
    }
  }

  ghost function OptVal(z: Option<Item>, t: int): int {
    if z.Some? then ItemVal(z.value, t) else 0
  }

  ghost predicate Within(s: seq<Item>, z: Item) {
    forall k :: 0 <= k < |s| ==> z.start <= s[k].start && s[k].end <= z.end
  }

  /** Taking what is missing out of the next item of a covering list. */
  lemma SubPiece(xs: seq<Item>, missing: Item)
    requires Normal(xs) && ValidItem(missing) && Covers(xs, missing)
    ensures xs != []
    ensures var (res, more) := SubItems(xs[0], missing);
            && Normal(res) && Within(res, xs[0])
            && (more.Some? ==> ValidItem(more.value) && Covers(xs[1..], more.value))
            && forall t: int :: Val(res, t) - OptVal(more, t) == ItemVal(xs[0], t) - ItemVal(missing, t)
  {
    CoverHead(xs, missing);
    if xs[0].end < missing.start {
      assert SubItems(xs[0], missing) == ([xs[0]], Some(missing));
      forall t: int ensures Val([xs[0]], t) == ItemVal(xs[0], t) {
        ValSingle(xs[0], t);
      }
    } else {
      SubItemsMeaning(xs[0], missing);
      hide SubItems, Val;
    }
  }

  lemma SubAppend(out: seq<Item>, xs: seq<Item>, res: seq<Item>)
    requires Normal(out) && Normal(xs) && xs != [] && Before(out, xs)
    requires Normal(res) && Within(res, xs[0])
    ensures Normal(AppendItems(out, res)) && Before(AppendItems(out, res), xs[1..])
    ensures forall t: int :: Val(AppendItems(out, res), t) == Val(out, t) + Val(res, t)
  {
    hide AppendItem, Val;
    AppendItemsMeaning(out, res);
    if |xs| > 1 {
      assert xs[0].end < xs[1].start;
    }
  }

  lemma SubStep(x: seq<Item>, z: Item, i: nat, missing: Item, out: seq<Item>)
    requires SubInvariant(x, z, i, missing, out)
    ensures i < |x|
    ensures match SubItems(x[i], missing).1
            case Some(m) => SubInvariant(x, z, i + 1, m, AppendItems(out, SubItems(x[i], missing).0))
            case None => SubResult(x, z, AppendItems(AppendItems(out, SubItems(x[i], missing).0), x[i + 1..]))
  {
    hide AppendItem, AppendItems, SubItems, Val, Normal, Covers, Within;
    var xs := x[i..];
    SubPiece(xs, missing);
    var (res, more) := SubItems(x[i], missing);
    SubAppend(out, xs, res);
    assert xs[1..] == x[i + 1..];
    TailNormal(xs);
    var out' := AppendItems(out, res);
    forall t: int ensures Val(out', t) + Val(xs[1..], t) - OptVal(more, t) == Val(x, t) - ItemVal(z, t) {
      ValTail(xs, t);
    }
    if more.None? {
      AppendItemsMeaning(out', xs[1..]);
    }
  }

  ghost predicate SubResult(x: seq<Item>, z: Item, r: seq<Item>) {
    Normal(r) && forall t: int :: Val(r, t) == Val(x, t) - ItemVal(z, t)
  }

  class TimeLock {
    var items: seq<Item>

    constructor (items: seq<Item>)
      ensures this.items == Cloned(items)
    {
      this.items := Cloned(items);
    }

    /** Sets this time lock to the sum; nil when there is nothing to add. */
    method Add(x: TimeLock, y: TimeLock) returns (r: TimeLock?)
      requires Normal(x.items) && Normal(y.items)
      modifies this
      ensures r == null <==> old(x.items) == [] && old(y.items) == []
      ensures r == null ==> items == old(items)
      ensures r != null ==> r == this && items == Plus(old(x.items), old(y.items))
    {
      hide Normal, Val, AppendItem, AppendItems, AddItems, MergeInvariant;
      var xItems, yItems := x.items, y.items;
      if xItems == [] && yItems == [] {
        return null;
      }
      var out: seq<Item> := [];
      var last, flag := None, TailInBoth;
      var i, j := 0, 0;
      MergeStart(xItems, yItems);
      while i < |xItems| && j < |yItems|
        invariant 0 <= i <= |xItems| && 0 <= j <= |yItems|
        invariant MergeInvariant(xItems, yItems, Cursor(i, j, last, flag, out))
        decreases |xItems| - i + |yItems| - j
      {
        ghost var c := Cursor(i, j, last, flag, out);
        CurrentItems(xItems, yItems, c);
        var xV, yV := xItems[i], yItems[j];
        if last.Some? {
          if flag.TailInFirst? {
            xV := last.value;
          } else if flag.TailInSecond? {
            yV := last.value;
          }
        }
        if xV.end < yV.start {
          StepX(xItems, yItems, c);
          out := AppendItem(out, xV);
          i := i + 1;
          if flag.TailInFirst? {
            last := None;
          }
          continue;
        }
        if yV.end < xV.start {
          StepY(xItems, yItems, c);
          out := AppendItem(out, yV);
          j := j + 1;
          if flag.TailInSecond? {
            last := None;
          }
          continue;
        }
        StepOverlap(xItems, yItems, c);
        var (res, tail) := AddItems(xV, yV);
        flag := tail;
        last := Some(res[|res| - 1]);
        if |res| > 1 {
          out := AppendItems(out, res[..|res| - 1]);
        } else {
          AppendNothing(out);
        }
        if flag.TailInFirst? {
          j := j + 1;
        } else if flag.TailInSecond? {
          i := i + 1;
        } else {
          i, j := i + 1, j + 1;
          out := AppendItem(out, last.value);
          last := None;
        }
      }
      ghost var c := Cursor(i, j, last, flag, out);
      MergeFinish(xItems, yItems, c);
      MergeDone(xItems, yItems, c);
      if last.Some? {
        out := AppendItem(out, last.value);
        if flag.TailInFirst? {
          i := i + 1;
        } else if flag.TailInSecond? {
          j := j + 1;
        }
      }
      if i >= |xItems| && j < |yItems| {
        out := AppendItems(out, yItems[j..]);
      }
      if j >= |yItems| && i < |xItems| {
        out := AppendItems(out, xItems[i..]);
      }
      CloneSum(xItems, yItems);
      items := Cloned(out);
      return this;
    }

    /** The one-pass comparison with a single interval; None is the panic on other operands.
        Non-negative answers mean the interval is covered, with the one exception that
        `Enough` spells out. */
    method Cmp(x: TimeLock) returns (r: Option<int>)
      requires Normal(items)
      ensures r.None? <==> |x.items| != 1
      ensures r.Some? ==> -1 <= r.value <= 1
      ensures r.Some? ==> (r.value >= 0 <==> Enough(items, x.items[0]))
      ensures r == Some(0) <==> |x.items| == 1 && Enough(items, x.items[0]) && ReadsEqual(items, x.items[0])
      ensures r == Some(0) ==> ExactSomewhere(items, x.items[0])
    {
      hide Enough, LowestOn, Val, ExactSomewhere, ReadsEqual, Scanned;
      if |x.items| != 1 {
        return None;
      }
      var zs, item := items, x.items[0];
      if zs == [] {
        ValNil(item.start);
        NotEnoughAt(zs, item, item.start);
        return Some(-1);
      }
      var ok := IsValid(x.items);
      if !ok {
        NotEnoughInvalid(zs, x.items);
        return Some(-1);
      }
      assert ValidItem(x.items[0]);
      if zs[0].start > item.start {
        ValGap(zs, 0, item.start);
        NotEnoughAt(zs, item, item.start);
        return Some(-1);
      }
      if zs[|zs| - 1].end < item.end {
        ValGap(zs, |zs|, item.end);
        NotEnoughAt(zs, item, item.end);
        return Some(-1);
      }
      var minVal, tempTime := 0, 0;
      var maybeGreat := zs[0].start < item.start || zs[|zs| - 1].end > item.end;
      ghost var seen, done := false, false;
      ghost var same := SameSpan(zs, item);
      var k := 0;
      while k < |zs|
        invariant 0 <= k <= |zs| && !done
        invariant !seen ==> tempTime == 0 && (k == 0 || zs[k - 1].end < item.start)
        invariant seen ==> 0 < k && tempTime == zs[k - 1].end && item.start <= tempTime < item.end
        invariant seen ==> LowestOn(zs, item.start, tempTime, minVal)
        invariant RefusedAtZero(zs, item) ==> tempTime == 0 && (k == 0 || seen)
        invariant !maybeGreat ==> same
        invariant same && k == 0 ==> !maybeGreat
        invariant same && k > 0 ==> seen && Scanned(zs, item, k, minVal, maybeGreat)
      {
        var t := zs[k];
        if t.end < item.start {
          k := k + 1;
          continue;
        }
        ghost var was, great := minVal, maybeGreat;
        ghost var cut := MinInstant(t.end, item.end);
        if tempTime == 0 {
          if t.start > item.start {
            if seen {
              NotEnoughAtZero(zs, item, k);
            } else {
              ValGap(zs, k, item.start);
              NotEnoughAt(zs, item, item.start);
            }
            return Some(-1);
          }
          minVal := t.value;
          LowestFirst(zs, k, item.start, cut);
        } else if tempTime < t.start && tempTime + 1 < t.start {
          ValGap(zs, k, tempTime + 1);
          NotEnoughAt(zs, item, tempTime + 1);
          return Some(-1);
        } else {
          LowestNext(zs, k, item.start, cut, minVal);
        }
        if t.value < minVal {
          minVal := t.value;
          if minVal < item.value {
            NotEnoughBelow(zs, item, cut, minVal);
            return Some(-1);
          } else if minVal > item.value {
            maybeGreat := true;
          }
        }
        if same {
          if k == 0 {
            ScanStarts(zs, item);
          } else {
            ScanStep(zs, item, k, was, great);
          }
        }
        tempTime := t.end;
        seen := true;
        if tempTime >= item.end {
          if same {
            ScanEnds(zs, item, k, minVal, maybeGreat);
          }
          done := true;
          break;
        }
        k := k + 1;
      }
      assert done;
      if !same {
        OtherSpan(zs, item);
      }
      LowestDecides(zs, item, minVal);
      if minVal == item.value && maybeGreat {
        return Some(1);
      }
      return Some(if minVal < item.value then -1 else if minVal == item.value then 0 else 1);
    }

    /** Sets this time lock to x less the single interval of y; the program panics when y is not
        a single interval or x is not enough for it. */
    method Sub(x: TimeLock, y: TimeLock) returns (ok: bool)
      requires Normal(x.items)
      modifies this
      ensures ok <==> old(|y.items|) == 1 && old(Enough(x.items, y.items[0]))
      ensures ok ==> items == Minus(old(x.items), old(y.items[0]))
      ensures !ok ==> items == old(items)
    {
      hide Normal, Val, AppendItem, AppendItems, SubItems, SubInvariant, Covers;
      var cmp := x.Cmp(y);
      if cmp.None? || cmp.value < 0 {
        return false;
      }
      var xItems, z := x.items, y.items[0];
      var yV, out := z, [];
      ghost var done := false;
      SubStart(xItems, z);
      var i := 0;
      while i < |xItems|
        invariant 0 <= i <= |xItems|
        invariant !done && SubInvariant(xItems, z, i, yV, out)
      {
        SubStep(xItems, z, i, yV, out);
        var (res, missing) := SubItems(xItems[i], yV);
        out := AppendItems(out, res);
        if missing.None? {
          out := AppendItems(out, xItems[i + 1..]);
          done := true;
          break;
        }
        yV := missing.value;
        i := i + 1;
      }
      if !done {
        SubStep(xItems, z, i, yV, out);
      }
      SubDone(xItems, z, out);
      items := Cloned(out);
      return true;
    }

    /** Drops the leading items that ended before the given time. */
    method ClearExpired(time: Instant)
      modifies this
      ensures items == Unexpired(old(items), time)
    {
      var i := 0;
      while i < |items|
        invariant 0 <= i <= |items| && items == old(items)
        invariant Unexpired(items, time) == Unexpired(items[i..], time)
      {
        if items[i].end >= time {
          items := items[i..];
          return;
        }
        assert items[i..][1..] == items[i + 1..];
        i := i + 1;
      }
      items := [];
    }
  }

  lemma SubStart(x: seq<Item>, z: Item)
    requires Normal(x) && Enough(x, z)
    ensures SubInvariant(x, z, 0, z, [])
  {
    assert x[0..] == x;
  }

  lemma SubDone(x: seq<Item>, z: Item, out: seq<Item>)
    requires Normal(x) && Enough(x, z) && SubResult(x, z, out)
    ensures Cloned(out) == Minus(x, z)
  {
    CloneNormal(out);
    MinusUnique(out, x, z);
  }

  lemma AppendNothing(items: seq<Item>)
    ensures AppendItems(items, []) == items
  {
  }

  /** The last steps of the merge, one cursor being at its end, append exactly the rests. */
  lemma MergeDone(x: seq<Item>, y: seq<Item>, c: Cursor)
    requires MergeInvariant(x, y, c) && !CursorsOpen(x, y, c)
    ensures var more := RestX(x, c) + RestY(y, c);
            match c.last
            case None =>
              AppendItems(c.items, more) ==
              if c.i < |x| then AppendItems(c.items, x[c.i..])
              else if c.j < |y| then AppendItems(c.items, y[c.j..]) else c.items
            case Some(last) =>
              && (c.flag.TailInFirst? || c.flag.TailInSecond?)
              && var items := AppendItem(c.items, last);
              AppendItems(c.items, more) ==
              if c.flag.TailInFirst? then
                (if c.i + 1 < |x| then AppendItems(items, x[c.i + 1..]) else items)
              else
                (if c.j + 1 < |y| then AppendItems(items, y[c.j + 1..]) else items)
    ensures c.last.Some? && c.flag.TailInFirst? ==> c.i < |x| && c.j >= |y|
    ensures c.last.Some? && c.flag.TailInSecond? ==> c.j < |y| && c.i >= |x|
  {
    hide Normal, Val, AppendItem, AppendItems;
    var xs, ys := RestX(x, c), RestY(y, c);
    var more := if xs == [] then ys else xs;
    assert xs + ys == more;
    AppendNothing(c.items);
    if c.last.Some? {
      AppendFirstThenRest(c.items, more);
      AppendNothing(AppendItem(c.items, c.last.value));
      assert more[0] == c.last.value;
      assert more[1..] == if c.flag.TailInFirst? then x[c.i + 1..] else y[c.j + 1..];
    }
  }

  lemma CloneSum(x: seq<Item>, y: seq<Item>)
    requires Normal(x) && Normal(y)
    ensures Cloned(Plus(x, y)) == Plus(x, y)
  {
    PlusMeaning(x, y);
    CloneNormal(Plus(x, y));
  }

  /** SetItems copies every item, keeping the magnitude of its value. */
  function Cloned(items: seq<Item>): seq<Item> {
    seq(|items|, k requires 0 <= k < |items| => CloneItem(items[k]))
  }

  lemma CloneNormal(items: seq<Item>)
    requires forall k :: 0 <= k < |items| ==> ValidItem(items[k])
    ensures Cloned(items) == items
  {
  }
}
