/** Time-lock items and the step function from instants to amounts that a list of them denotes.

    An item locks `value` during the closed interval [start, end] of 64-bit timestamps.
    `Val(s, t)` is the amount a list `s` makes available at instant `t`; it is the meaning
    against which every time-lock operation is specified. `Normal(s)` is the normal form that
    the program calls a valid time lock. */
module TimeLockItems {

  datatype Option<+T> = None | Some(value: T)

  const FOREVER: int := 0xffff_ffff_ffff_ffff

  /** A timestamp: an unsigned 64-bit integer. */
  type Instant = t: int | 0 <= t <= 0xffff_ffff_ffff_ffff

  datatype Item = Item(start: Instant, end: Instant, value: int)

  predicate ValidItem(z: Item) {
    z.start <= z.end && z.value > 0
  }

  /** Copying a value goes through its bytes, which drop the sign. */
  function Magnitude(v: int): nat {
    if v < 0 then -v else v
  }

  function AdjustStartEnd(z: Item, start: Instant, end: Instant): Item {
    Item(start, end, Magnitude(z.value))
  }

  function AdjustStart(z: Item, start: Instant): Item {
    AdjustStartEnd(z, start, z.end)
  }

  function AdjustEnd(z: Item, end: Instant): Item {
    AdjustStartEnd(z, z.start, end)
  }

  function CloneItem(z: Item): Item {
    AdjustStartEnd(z, z.start, z.end)
  }

  predicate CanMerge(z: Item, x: Item) {
    z.end < x.start && z.end + 1 == x.start && z.value == x.value
  }

  function Merge(z: Item, x: Item): Item {
    AdjustEnd(z, x.end)
  }

  function MaxInstant(a: Instant, b: Instant): Instant {
    if a < b then b else a
  }

  function MinInstant(a: Instant, b: Instant): Instant {
    if a < b then a else b
  }

  // ---------- The meaning of a list of items ----------

  ghost function ItemVal(z: Item, t: int): int {
    if z.start <= t <= z.end then z.value else 0
  }

  ghost function Val(s: seq<Item>, t: int): int {
    if s == [] then 0 else ItemVal(s[0], t) + Val(s[1..], t)
  }

  /** Every instant of s lies before every instant of r. */
  predicate Before(s: seq<Item>, r: seq<Item>) {
    s == [] || r == [] || s[|s| - 1].end < r[0].start
  }

  ghost predicate Ordered(s: seq<Item>) {
    && (forall k :: 0 <= k < |s| ==> ValidItem(s[k]))
    && (forall j, k :: 0 <= j < k < |s| ==> s[j].end < s[k].start)
  }

  ghost predicate NoMergeable(s: seq<Item>) {
    forall j, k :: 0 <= j < k < |s| && k == j + 1 ==> !CanMerge(s[j], s[k])
  }

  /** The normal form: positive items on disjoint increasing intervals, none of which
      could be merged with its successor. */
  ghost predicate Normal(s: seq<Item>) {
    Ordered(s) && NoMergeable(s)
  }

  lemma {:induction false} ValConcat(a: seq<Item>, b: seq<Item>, t: int)
    ensures Val(a + b, t) == Val(a, t) + Val(b, t)
  {
    if a == [] {
      assert a + b == b;
    } else {
      assert (a + b)[1..] == a[1..] + b;
      ValConcat(a[1..], b, t);
    }
  }

  lemma ValSingle(z: Item, t: int)
    ensures Val([z], t) == ItemVal(z, t)
  {
  }

  lemma {:induction false} ValNonNegative(s: seq<Item>, t: int)
    requires forall k :: 0 <= k < |s| ==> ValidItem(s[k])
    ensures Val(s, t) >= 0
  {
    if s != [] {
      ValNonNegative(s[1..], t);
    }
  }

  lemma {:induction false} ValBefore(s: seq<Item>, t: int)
    requires Ordered(s)
    requires s == [] || t < s[0].start
    ensures Val(s, t) == 0
  {
    if s != [] {
      ValBefore(s[1..], t);
    }
  }

  lemma ValHead(s: seq<Item>, t: int)
    requires Ordered(s) && s != [] && t <= s[0].end
    ensures Val(s, t) == ItemVal(s[0], t)
  {
    ValBefore(s[1..], t);
  }

  lemma {:induction false} ValAfter(s: seq<Item>, t: int)
    requires Ordered(s)
    requires s == [] || t > s[|s| - 1].end
    ensures Val(s, t) == 0
  {
    if s != [] {
      ValAfter(s[1..], t);
    }
  }

  /** Inside its k-th interval an ordered list is worth exactly its k-th value. */
  lemma {:induction false} ValAt(s: seq<Item>, k: nat, t: int)
    requires Ordered(s) && k < |s| && s[k].start <= t <= s[k].end
    ensures Val(s, t) == s[k].value
  {
    if k == 0 {
      ValHead(s, t);
    } else {
      assert s[0].end < s[k].start;
      assert s[1..][k - 1] == s[k];
      ValAt(s[1..], k - 1, t);
    }
  }

  /** Between two neighbouring intervals an ordered list is worth nothing. */
  lemma ValGap(s: seq<Item>, k: nat, t: int)
    requires Ordered(s) && k <= |s|
    requires k == 0 || s[k - 1].end < t
    requires k == |s| || t < s[k].start
    ensures Val(s, t) == 0
  {
    assert s == s[..k] + s[k..];
    ValConcat(s[..k], s[k..], t);
    ValAfter(s[..k], t);
    ValBefore(s[k..], t);
  }

  /** Where an ordered list is positive, one of its items covers the instant. */
  lemma {:induction false} ValWitness(s: seq<Item>, t: int) returns (k: nat)
    requires Ordered(s) && Val(s, t) != 0
    ensures k < |s| && s[k].start <= t <= s[k].end && Val(s, t) == s[k].value
  {
    if s[0].start <= t <= s[0].end {
      k := 0;
      ValHead(s, t);
    } else {
      var k' := ValWitness(s[1..], t);
      k := k' + 1;
    }
  }

  lemma ValWithout(s: seq<Item>, k: nat, t: int)
    requires k < |s|
    ensures Val(s, t) == ItemVal(s[k], t) + Val(s[..k] + s[k + 1..], t)
  {
    assert s[..k] + s[k..] == s;
    ValConcat(s[..k], s[k..], t);
    assert s[k..][1..] == s[k + 1..];
    ValConcat(s[..k], s[k + 1..], t);
  }

  lemma MultisetWithout<T>(s: seq<T>, k: nat)
    requires k < |s|
    ensures multiset(s[..k] + s[k + 1..]) == multiset(s) - multiset{s[k]}
  {
    assert s == s[..k] + [s[k]] + s[k + 1..];
  }

  lemma IndexIn(s: seq<Item>, z: Item) returns (k: nat)
    requires z in multiset(s)
    ensures k < |s| && s[k] == z
  {
    k :| 0 <= k < |s| && s[k] == z;
  }

  lemma SameRest(a: seq<Item>, b: seq<Item>) returns (k: nat)
    requires multiset(a) == multiset(b) && a != []
    ensures k < |b| && b[k] == a[0] && multiset(a[1..]) == multiset(b[..k] + b[k + 1..])
  {
    HeadIn(a);
    k := IndexIn(b, a[0]);
    MultisetWithout(b, k);
  }

  lemma HeadIn<T>(a: seq<T>)
    requires a != []
    ensures a[0] in multiset(a) && multiset(a[1..]) == multiset(a) - multiset{a[0]}
  {
    assert a == [a[0]] + a[1..];
  }

  /** The value of a list does not depend on the order of its items. */
  lemma {:induction false} ValPermutation(a: seq<Item>, b: seq<Item>, t: int)
    requires multiset(a) == multiset(b)
    ensures Val(a, t) == Val(b, t)
  {
    if a == [] {
      assert |multiset(b)| == |b|;
    } else {
      var k := SameRest(a, b);
      ValPermutation(a[1..], b[..k] + b[k + 1..], t);
      ValWithout(b, k, t);
    }
  }

  /** The normal form is unique: the step function determines the list item for item. */
  lemma {:induction false} NormalFormUnique(x: seq<Item>, y: seq<Item>)
    requires Normal(x) && Normal(y)
    requires forall t: int :: Val(x, t) == Val(y, t)
    ensures x == y
  {
    if x == [] || y == [] {
      var z := if x == [] then y else x;
      if z != [] {
        ValHead(z, z[0].start);
      }
    } else {
      HeadsAgree(x, y);
      HeadsAgree(y, x);
      assert x[0] == y[0];
      forall t: int ensures Val(x[1..], t) == Val(y[1..], t) {
        assert Val(x, t) == Val(y, t);
      }
      NormalFormUnique(x[1..], y[1..]);
      assert x == [x[0]] + x[1..] && y == [y[0]] + y[1..];
    }
  }

  /** Just after its first interval a normal list has another value: were it the same, the
      next item would have been merged. */
  lemma StepEnds(x: seq<Item>)
    requires Normal(x) && x != []
    ensures Val(x, x[0].end + 1) != x[0].value
  {
    var e := x[0].end + 1;
    assert Val(x, e) == Val(x[1..], e);
    if |x| > 1 {
      assert !CanMerge(x[0], x[1]);
      ValHead(x[1..], e);
    }
  }

  lemma HeadsAgree(x: seq<Item>, y: seq<Item>)
    requires Normal(x) && Normal(y) && x != [] && y != []
    requires forall t: int :: Val(x, t) == Val(y, t)
    ensures x[0].start >= y[0].start && x[0].value == y[0].value
    ensures x[0].end >= y[0].end
  {
    var s := x[0].start;
    assert Val(x, s) == Val(y, s);
    ValHead(x, s);
    if s < y[0].start {
      ValBefore(y, s);
    }
    var s' := y[0].start;
    assert Val(x, s') == Val(y, s');
    ValHead(y, s');
    if s' < x[0].start {
      ValBefore(x, s');
    }
    ValHead(y, s);
    StepEnds(x);
    if x[0].end < y[0].end {
      ValHead(y, x[0].end + 1);
    }
  }
}
