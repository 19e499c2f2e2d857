/** A binary heap over a slice, as the container library of the program keeps it: `less` is the
    order of the elements, and the element at (k - 1) / 2 is the parent of the element at k. */
module Heaps {

  type Less<!T> = (T, T) -> bool

  ghost predicate AtMost<T(!new)>(less: Less<T>, a: T, b: T) {
    !less(b, a)
  }

  /** `less` is a strict weak order. */
  ghost predicate Order<T(!new)>(less: Less<T>) {
    && (forall a: T, b: T :: less(a, b) ==> AtMost(less, a, b))
    && (forall a: T, b: T, c: T :: AtMost(less, a, b) && AtMost(less, b, c) ==> AtMost(less, a, c))
  }

  function Parent(k: int): int {
    if k <= 0 then 0 else (k - 1) / 2
  }

  /** The element at k is in order with its parent. */
  ghost predicate Edge<T(!new)>(h: seq<T>, less: Less<T>, k: int)
    requires 0 <= k < |h|
  {
    AtMost(less, h[Parent(k)], h[k])
  }

  ghost predicate IsHeap<T(!new)>(h: seq<T>, less: Less<T>) {
    forall k :: 0 < k < |h| ==> Edge(h, less, k)
  }

  /** The first n elements are in order with their parents from lo on, except for the element at
      i with its parent and its children. The parent of i is in order with the children of i. */
  ghost predicate Open<T(!new)>(h: seq<T>, less: Less<T>, lo: nat, i: nat, n: nat) {
    && lo <= i && n <= |h|
    && (forall k :: 0 < k < n && k != i && Parent(k) != i && Parent(k) >= lo ==> Edge(h, less, k))
    && (forall k :: 0 < k < n && Parent(k) == i && i > 0 && Parent(i) >= lo && i < n ==>
         AtMost(less, h[Parent(i)], h[k]))
  }

  function Swapped<T>(h: seq<T>, i: nat, j: nat): seq<T>
    requires i < |h| && j < |h|
  {
    h[i := h[j]][j := h[i]]
  }

  lemma SwappedMembers<T>(h: seq<T>, i: nat, j: nat)
    requires i < |h| && j < |h|
    ensures multiset(Swapped(h, i, j)) == multiset(h)
  {
  }

  lemma ParentBelow(k: int)
    requires k > 0
    ensures 0 <= Parent(k) < k
    ensures forall i :: i >= 0 ==> (Parent(k) == i <==> k == 2 * i + 1 || k == 2 * i + 2)
  {
  }

  /** The smaller child moves up: the hole is now at the child. */
  lemma DownStep<T(!new)>(h: seq<T>, less: Less<T>, lo: nat, i: nat, n: nat, j: nat)
    requires Order(less) && Open(h, less, lo, i, n) && i < j < n && Parent(j) == i && less(h[j], h[i])
    requires forall k :: 0 < k < n && Parent(k) == i ==> AtMost(less, h[j], h[k])
    ensures Open(Swapped(h, i, j), less, lo, j, n)
    ensures i > 0 && Parent(i) >= lo ==> Edge(Swapped(h, i, j), less, i)
  {
    var g := Swapped(h, i, j);
    ParentBelow(j);
    forall k | 0 < k < n && k != j && Parent(k) != j && Parent(k) >= lo ensures Edge(g, less, k) {
      ParentBelow(k);
      if k == i {
        assert AtMost(less, h[Parent(i)], h[j]);
      } else if Parent(k) == i {
        assert AtMost(less, h[j], h[k]);
      } else {
        assert Edge(h, less, k);
      }
    }
    forall k | 0 < k < n && Parent(k) == j ensures AtMost(less, g[i], g[k]) {
      ParentBelow(k);
      assert Edge(h, less, k);
    }
  }

  /** When no child is smaller the hole is filled. */
  lemma DownStop<T(!new)>(h: seq<T>, less: Less<T>, lo: nat, i: nat, n: nat)
    requires Open(h, less, lo, i, n) && forall k :: 0 < k < n && Parent(k) == i ==> AtMost(less, h[i], h[k])
    ensures InOrder(h, less, lo, i, n)
  {
  }

  /** Every element but the one at i is in order with its parent, from lo on. */
  ghost predicate InOrder<T(!new)>(h: seq<T>, less: Less<T>, lo: nat, i: nat, n: nat) {
    n <= |h| && forall k :: 0 < k < n && k != i && Parent(k) >= lo ==> Edge(h, less, k)
  }

  ghost predicate SmallestChild<T(!new)>(h: seq<T>, less: Less<T>, i: nat, n: nat, j: nat) {
    n <= |h| && 0 < j < n && Parent(j) == i && forall k :: 0 < k < n && Parent(k) == i ==> AtMost(less, h[j], h[k])
  }

  lemma ChooseChild<T(!new)>(h: seq<T>, less: Less<T>, i: nat, n: nat)
    requires Order(less) && 2 * i + 1 < n <= |h|
    ensures var j := if 2 * i + 2 < n && less(h[2 * i + 2], h[2 * i + 1]) then 2 * i + 2 else 2 * i + 1;
            SmallestChild(h, less, i, n, j)
  {
    var j := if 2 * i + 2 < n && less(h[2 * i + 2], h[2 * i + 1]) then 2 * i + 2 else 2 * i + 1;
    ParentBelow(j);
    forall k | 0 < k < n && Parent(k) == i ensures AtMost(less, h[j], h[k]) {
      ParentBelow(k);
      SelfAtMost(less, h[k]);
    }
  }

  lemma SelfAtMost<T(!new)>(less: Less<T>, a: T)
    requires Order(less)
    ensures AtMost(less, a, a)
  {
  }

  lemma NoSmallerChild<T(!new)>(h: seq<T>, less: Less<T>, i: nat, n: nat, j: nat)
    requires Order(less) && i < n && SmallestChild(h, less, i, n, j) && !less(h[j], h[i])
    ensures forall k :: 0 < k < n && Parent(k) == i ==> AtMost(less, h[i], h[k])
  {
  }

  lemma NoChild(i: nat, n: nat)
    requires 2 * i + 1 >= n
    ensures forall k :: 0 < k < n ==> Parent(k) != i
  {
  }

  method Down<T(!new)>(h0: seq<T>, i0: nat, n: nat, less: Less<T>, ghost lo: nat) returns (h: seq<T>, moved: bool)
    requires Order(less) && i0 < n && Open(h0, less, lo, i0, n)
    ensures |h| == |h0| && multiset(h) == multiset(h0) && h[n..] == h0[n..]
    ensures InOrder(h, less, lo, i0, n)
    ensures moved && i0 > 0 && Parent(i0) >= lo ==> Edge(h, less, i0)
    ensures !moved ==> h == h0
  {
    hide Order, Open, Edge, InOrder, SmallestChild;
    OpenBounds(h0, less, lo, i0, n);
    h := h0;
    var i := i0;
    while true
      invariant i0 <= i < n <= |h| == |h0| && multiset(h) == multiset(h0) && h[n..] == h0[n..]
      invariant Open(h, less, lo, i, n)
      invariant i > i0 ==> Parent(i) >= lo && Edge(h, less, i)
      invariant i > i0 && i0 > 0 && Parent(i0) >= lo ==> Edge(h, less, i0)
      invariant i == i0 ==> h == h0
      decreases n - i
    {
      var j := 2 * i + 1;
      if j >= n {
        NoChild(i, n);
        break;
      }
      ChooseChild(h, less, i, n);
      if j + 1 < n && less(h[j + 1], h[j]) {
        j := j + 1;
      }
      if !less(h[j], h[i]) {
        NoSmallerChild(h, less, i, n, j);
        break;
      }
      DownMove(h, less, lo, i0, i, n, j);
      h := Swapped(h, i, j);
      i := j;
    }
    DownStop(h, less, lo, i, n);
    DownDone(h, less, lo, i0, i, n);
    moved := i > i0;
  }

  lemma OpenBounds<T(!new)>(h: seq<T>, less: Less<T>, lo: nat, i: nat, n: nat)
    requires Open(h, less, lo, i, n)
    ensures n <= |h| && lo <= i
  {
  }

  lemma DownMove<T(!new)>(h: seq<T>, less: Less<T>, lo: nat, i0: nat, i: nat, n: nat, j: nat)
    requires Order(less) && Open(h, less, lo, i, n)
    requires SmallestChild(h, less, i, n, j) && less(h[j], h[i]) && i0 <= i < n
    requires i > i0 && i0 > 0 && Parent(i0) >= lo ==> Edge(h, less, i0)
    ensures var g := Swapped(h, i, j);
            && i < j && multiset(g) == multiset(h) && g[n..] == h[n..] && Open(g, less, lo, j, n)
            && Parent(j) >= lo && Edge(g, less, j)
            && (i0 > 0 && Parent(i0) >= lo ==> Edge(g, less, i0))
  {
    ParentBelow(j);
    DownStep(h, less, lo, i, n, j);
    SwappedMembers(h, i, j);
    if i0 > 0 {
      ParentBelow(i0);
    }
  }

  lemma DownDone<T(!new)>(h: seq<T>, less: Less<T>, lo: nat, i0: nat, i: nat, n: nat)
    requires InOrder(h, less, lo, i, n) && i0 <= i < n
    requires i > i0 ==> Parent(i) >= lo && Edge(h, less, i)
    ensures InOrder(h, less, lo, i0, n)
  {
  }

  /** The element at j moves up while it is smaller than its parent. */
  method Up<T(!new)>(h0: seq<T>, j0: nat, less: Less<T>) returns (h: seq<T>)
    requires Order(less) && j0 < |h0| && InOrder(h0, less, 0, j0, |h0|) && Covered(h0, less, j0)
    ensures |h| == |h0| && multiset(h) == multiset(h0) && IsHeap(h, less)
  {
    hide Order, InOrder, Covered, IsHeap;
    h := h0;
    var j := j0;
    while true
      invariant 0 <= j < |h| == |h0| && multiset(h) == multiset(h0)
      invariant InOrder(h, less, 0, j, |h|) && Covered(h, less, j)
      decreases j
    {
      var i := if j == 0 then 0 else (j - 1) / 2;
      if i == j || !less(h[j], h[i]) {
        break;
      }
      UpStep(h, less, j);
      h := Swapped(h, i, j);
      j := i;
    }
    UpDone(h, less, j);
  }

  /** The parent of j is in order with the children of j. */
  ghost predicate Covered<T(!new)>(h: seq<T>, less: Less<T>, j: nat)
    requires j < |h|
  {
    forall k :: 0 < k < |h| && Parent(k) == j && j > 0 ==> AtMost(less, h[Parent(j)], h[k])
  }

  lemma UpStep<T(!new)>(h: seq<T>, less: Less<T>, j: nat)
    requires Order(less) && 0 < j < |h| && InOrder(h, less, 0, j, |h|)
    requires Covered(h, less, j) && less(h[j], h[Parent(j)])
    ensures var i := Parent(j);
            && i < j && multiset(Swapped(h, i, j)) == multiset(h)
            && InOrder(Swapped(h, i, j), less, 0, i, |h|) && Covered(Swapped(h, i, j), less, i)
  {
    var i := Parent(j);
    var g := Swapped(h, i, j);
    ParentBelow(j);
    SwappedMembers(h, i, j);
    forall k | 0 < k < |h| && k != i ensures Edge(g, less, k) {
      ParentBelow(k);
      if Parent(k) == j {
        assert AtMost(less, h[i], h[k]);
      } else if Parent(k) == i && k != j {
        assert Edge(h, less, k);
      } else if k != j {
        assert Edge(h, less, k);
      }
    }
    forall k | 0 < k < |h| && Parent(k) == i && i > 0 ensures AtMost(less, g[Parent(i)], g[k]) {
      ParentBelow(k);
      ParentBelow(i);
      assert Edge(h, less, i);
      if k != j {
        assert Edge(h, less, k);
      }
    }
  }

  lemma UpDone<T(!new)>(h: seq<T>, less: Less<T>, j: nat)
    requires j < |h| && InOrder(h, less, 0, j, |h|) && (j > 0 ==> !less(h[j], h[Parent(j)]))
    ensures IsHeap(h, less)
  {
  }

  // ---------- The operations ----------

  /** The top of a heap is at most every element. */
  lemma {:induction false} TopIsLeast<T(!new)>(h: seq<T>, less: Less<T>, k: nat)
    requires Order(less) && IsHeap(h, less) && k < |h|
    ensures AtMost(less, h[0], h[k])
    decreases k
  {
    if k == 0 {
      SelfAtMost(less, h[0]);
    } else {
      ParentBelow(k);
      TopIsLeast(h, less, Parent(k));
      assert Edge(h, less, k);
    }
  }

  method Push<T(!new)>(h0: seq<T>, x: T, less: Less<T>) returns (h: seq<T>)
    requires Order(less) && IsHeap(h0, less)
    ensures IsHeap(h, less) && multiset(h) == multiset(h0) + multiset{x}
  {
    PushReady(h0, x, less);
    h := Up(h0 + [x], |h0|, less);
  }

  lemma PushReady<T(!new)>(h: seq<T>, x: T, less: Less<T>)
    requires IsHeap(h, less)
    ensures InOrder(h + [x], less, 0, |h|, |h| + 1) && Covered(h + [x], less, |h|)
  {
    var g := h + [x];
    forall k | 0 < k < |h| ensures Edge(g, less, k) {
      ParentBelow(k);
      assert Edge(h, less, k);
    }
    NoChild(|h|, |h| + 1);
  }

  method Pop<T(!new)>(h0: seq<T>, less: Less<T>) returns (x: T, h: seq<T>)
    requires Order(less) && IsHeap(h0, less) && h0 != []
    ensures x == h0[0] && IsHeap(h, less) && multiset(h0) == multiset(h) + multiset{x}
    ensures forall k :: 0 <= k < |h| ==> AtMost(less, x, h[k])
  {
    var n := |h0| - 1;
    var g := Swapped(h0, 0, n);
    SwappedMembers(h0, 0, n);
    if n > 0 {
      RemoveReady(h0, less, 0);
      var moved;
      g, moved := Down(g, 0, n, less, 0);
      FrontHeap(g, less, 0, n);
    }
    x := h0[0];
    h := g[..n];
    LastApart(g, h0, x);
    TopIsLeastOf(h0, h, x, less);
  }

  /** Removes the element at i. */
  method Remove<T(!new)>(h0: seq<T>, i: nat, less: Less<T>) returns (h: seq<T>)
    requires Order(less) && IsHeap(h0, less) && i < |h0|
    ensures IsHeap(h, less) && multiset(h0) == multiset(h) + multiset{h0[i]}
  {
    hide Order, Open, Edge, InOrder, Covered, IsHeap;
    var n := |h0| - 1;
    var g := h0;
    if n != i {
      RemoveReady(h0, less, i);
      SwappedMembers(h0, i, n);
      g := Swapped(h0, i, n);
      var moved;
      g, moved := Down(g, i, n, less, 0);
      if !moved {
        RemoveUp(h0, g, less, i);
        var front := Up(g[..n], i, less);
        UpdateFront(g, front);
        g := front + g[n..];
      } else {
        FrontHeap(g, less, i, n);
      }
    } else {
      ShorterHeap(h0, less, n);
    }
    h := g[..n];
    LastApart(g, h0, h0[i]);
  }

  lemma UpdateFront<T>(g: seq<T>, front: seq<T>)
    requires |g| > 0 && |front| == |g| - 1 && multiset(front) == multiset(g[..|g| - 1])
    ensures multiset(front + g[|g| - 1..]) == multiset(g) && (front + g[|g| - 1..])[..|g| - 1] == front
  {
    assert g == g[..|g| - 1] + g[|g| - 1..];
  }

  lemma LastApart<T>(g: seq<T>, h0: seq<T>, x: T)
    requires |g| > 0 && multiset(g) == multiset(h0) && g[|g| - 1] == x
    ensures multiset(h0) == multiset(g[..|g| - 1]) + multiset{x}
  {
    assert g == g[..|g| - 1] + [g[|g| - 1]];
  }

  lemma ShorterHeap<T(!new)>(h: seq<T>, less: Less<T>, n: nat)
    requires IsHeap(h, less) && n <= |h|
    ensures IsHeap(h[..n], less)
  {
    forall k | 0 < k < n ensures Edge(h[..n], less, k) {
      ParentBelow(k);
      assert Edge(h, less, k);
    }
  }

  lemma FrontHeap<T(!new)>(g: seq<T>, less: Less<T>, i: nat, n: nat)
    requires n <= |g| && InOrder(g, less, 0, i, n) && (0 < i < n ==> Edge(g, less, i))
    ensures IsHeap(g[..n], less)
  {
    forall k | 0 < k < n ensures Edge(g[..n], less, k) {
      ParentBelow(k);
      assert Edge(g, less, k);
    }
  }

  /** The last element put at i leaves a hole there. */
  lemma RemoveReady<T(!new)>(h: seq<T>, less: Less<T>, i: nat)
    requires Order(less) && IsHeap(h, less) && i < |h| - 1
    ensures Open(Swapped(h, i, |h| - 1), less, 0, i, |h| - 1)
  {
    hide Parent;
    var n := |h| - 1;
    var g := Swapped(h, i, n);
    if i > 0 {
      ParentBelow(i);
    }
    forall k | 0 < k < n && k != i && Parent(k) != i ensures Edge(g, less, k) {
      ParentBelow(k);
      assert Edge(h, less, k);
    }
    forall k | 0 < k < n && Parent(k) == i && i > 0 ensures AtMost(less, g[Parent(i)], g[k]) {
      ParentBelow(k);
      ParentBelow(i);
      assert Edge(h, less, k) && Edge(h, less, i);
    }
  }

  /** If the element at i did not sink, only its parent may be larger. */
  lemma RemoveUp<T(!new)>(h0: seq<T>, g: seq<T>, less: Less<T>, i: nat)
    requires Order(less) && IsHeap(h0, less) && i < |h0| - 1 == |g| - 1 && g == Swapped(h0, i, |h0| - 1)
    requires InOrder(g, less, 0, i, |g| - 1)
    ensures InOrder(g[..|g| - 1], less, 0, i, |g| - 1) && Covered(g[..|g| - 1], less, i)
  {
    var n := |g| - 1;
    RemoveReady(h0, less, i);
    forall k | 0 < k < n && k != i ensures Edge(g[..n], less, k) {
      ParentBelow(k);
      assert Edge(g, less, k);
    }
    forall k | 0 < k < n && Parent(k) == i && i > 0 ensures AtMost(less, g[..n][Parent(i)], g[..n][k]) {
      ParentBelow(i);
    }
  }

  lemma TopIsLeastOf<T(!new)>(h0: seq<T>, h: seq<T>, x: T, less: Less<T>)
    requires Order(less) && IsHeap(h0, less) && h0 != [] && x == h0[0] && multiset(h0) == multiset(h) + multiset{x}
    ensures forall k :: 0 <= k < |h| ==> AtMost(less, x, h[k])
  {
    forall k | 0 <= k < |h| ensures AtMost(less, x, h[k]) {
      assert h[k] in multiset(h0);
      var i :| 0 <= i < |h0| && h0[i] == h[k];
      TopIsLeast(h0, less, i);
    }
  }

  /** Turns any slice into a heap, from the last parent down to the top. */
  method Init<T(!new)>(h0: seq<T>, less: Less<T>) returns (h: seq<T>)
    requires Order(less)
    ensures IsHeap(h, less) && multiset(h) == multiset(h0)
  {
    h := h0;
    var i := |h| / 2;
    InitStart(h, less);
    while i > 0
      invariant 0 <= i <= |h| / 2 && multiset(h) == multiset(h0) && |h| == |h0|
      invariant HeapFrom(h, less, i)
    {
      i := i - 1;
      InitStep(h, less, i);
      var moved;
      h, moved := Down(h, i, |h|, less, i);
      InitNext(h, less, i);
    }
    InitDone(h, less);
  }

  ghost predicate HeapFrom<T(!new)>(h: seq<T>, less: Less<T>, lo: nat) {
    forall k :: 0 < k < |h| && Parent(k) >= lo ==> Edge(h, less, k)
  }

  lemma InitStart<T(!new)>(h: seq<T>, less: Less<T>)
    ensures HeapFrom(h, less, |h| / 2)
  {
  }

  lemma InitStep<T(!new)>(h: seq<T>, less: Less<T>, i: nat)
    requires HeapFrom(h, less, i + 1)
    ensures Open(h, less, i, i, |h|)
  {
    forall k | 0 < k < |h| && Parent(k) >= i && Parent(k) != i ensures Edge(h, less, k) {
      ParentBelow(k);
    }
  }

  lemma InitNext<T(!new)>(h: seq<T>, less: Less<T>, i: nat)
    requires InOrder(h, less, i, i, |h|)
    ensures HeapFrom(h, less, i)
  {
    forall k | 0 < k < |h| && Parent(k) >= i ensures Edge(h, less, k) {
      ParentBelow(k);
    }
  }

  lemma InitDone<T(!new)>(h: seq<T>, less: Less<T>)
    requires HeapFrom(h, less, 0)
    ensures IsHeap(h, less)
  {
    forall k | 0 < k < |h| ensures Edge(h, less, k) {
      ParentBelow(k);
    }
  }

  // ---------- Sorting ----------

  ghost predicate Sorted<T(!new)>(s: seq<T>, less: Less<T>) {
    forall i, j :: 0 <= i < j < |s| ==> AtMost(less, s[i], s[j])
  }

  ghost predicate AllBelow<T(!new)>(s: seq<T>, h: seq<T>, less: Less<T>) {
    forall i, j :: 0 <= i < |s| && 0 <= j < |h| ==> AtMost(less, s[i], h[j])
  }

  /** The library sort: the elements in order, each as often as before. */
  method Sort<T(!new)>(s: seq<T>, less: Less<T>) returns (r: seq<T>)
    requires Order(less)
    ensures Sorted(r, less) && multiset(r) == multiset(s)
  {
    hide Order, IsHeap, Sorted, AllBelow;
    var h := Init(s, less);
    r := [];
    SortStart(h, less);
    while h != []
      invariant IsHeap(h, less) && multiset(r) + multiset(h) == multiset(s)
      invariant Sorted(r, less) && AllBelow(r, h, less)
      decreases |h|
    {
      var x, rest := Pop(h, less);
      PopShorter(h, rest, x);
      SortStep(r, h, rest, x, less);
      r, h := r + [x], rest;
    }
  }

  lemma SortStart<T(!new)>(h: seq<T>, less: Less<T>)
    ensures Sorted([], less) && AllBelow([], h, less)
  {
  }

  lemma PopShorter<T>(h: seq<T>, rest: seq<T>, x: T)
    requires multiset(h) == multiset(rest) + multiset{x}
    ensures |rest| == |h| - 1
  {
    assert |multiset(h)| == |h| && |multiset(rest)| == |rest|;
  }

  lemma SortStep<T(!new)>(r: seq<T>, h: seq<T>, rest: seq<T>, x: T, less: Less<T>)
    requires Sorted(r, less) && AllBelow(r, h, less) && h != [] && x == h[0]
    requires multiset(h) == multiset(rest) + multiset{x} && forall k :: 0 <= k < |rest| ==> AtMost(less, x, rest[k])
    ensures Sorted(r + [x], less) && AllBelow(r + [x], rest, less)
    ensures multiset(r + [x]) + multiset(rest) == multiset(r) + multiset(h)
  {
    forall i, j | 0 <= i < |r| && 0 <= j < |rest| ensures AtMost(less, r[i], rest[j]) {
      assert rest[j] in multiset(h);
      var k :| 0 <= k < |h| && h[k] == rest[j];
    }
  }
}
