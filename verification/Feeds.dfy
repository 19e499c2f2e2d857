/** One-to-many delivery of a value. The subscribed channels are the cases of a select; the cases
    still to be served are a prefix of the array that holds them all. The steps of the other
    goroutines are left open: a channel may or may not have room, any served or unserved
    subscriber may leave while the sender waits, and new ones may enter the inbox. */
module Feeds {
  import opened Heaps

  datatype Chan = RemoveSub | Sub(id: nat)

  predicate Distinct(s: seq<Chan>) {
    forall i, j :: 0 <= i < j < |s| ==> s[i] != s[j]
  }

  ghost function Members(s: seq<Chan>): set<Chan> {
    set x | x in s
  }

  function WithoutAt(s: seq<Chan>, i: nat): seq<Chan>
    requires i < |s|
  {
    s[..i] + s[i + 1..]
  }

  /** The array of cases in the middle of a send: removeSub stays first, the unserved channels
      follow up to c, and the served ones are behind them. `got` lists the deliveries. */
  ghost predicate Progress(q: seq<Chan>, c: nat, subs: set<Chan>, removed: set<Chan>, got: seq<Chan>) {
    && 1 <= c <= |q| && q[0] == RemoveSub && Distinct(q)
    && (forall i :: 1 <= i < |q| ==> q[i] in subs && q[i] !in removed)
    && (forall x :: x in subs && x !in removed ==> x in q)
    && Distinct(got) && (forall i :: 0 <= i < |got| ==> got[i] in subs)
    && (forall i :: c <= i < |q| ==> q[i] in got)
    && (forall i :: 1 <= i < c ==> q[i] !in got)
  }

  lemma DeliverStep(q: seq<Chan>, c: nat, subs: set<Chan>, removed: set<Chan>, got: seq<Chan>, i: nat)
    requires Progress(q, c, subs, removed, got) && 1 <= i < c
    ensures Progress(Swapped(q, i, c - 1), c - 1, subs, removed, got + [q[i]])
  {
    var r := Swapped(q, i, c - 1);
    assert r[i] == q[c - 1] && r[c - 1] == q[i];
    forall x | x in q ensures x in r {
      var k :| 0 <= k < |q| && q[k] == x;
      assert x == r[if k == i then c - 1 else if k == c - 1 then i else k];
    }
    forall k | c - 1 <= k < |q| ensures r[k] in got + [q[i]] {
      if k > c - 1 {
        assert r[k] == q[k] && q[k] in got;
      }
    }
  }

  lemma RemoveStep(q: seq<Chan>, c: nat, subs: set<Chan>, removed: set<Chan>, got: seq<Chan>, i: nat)
    requires Progress(q, c, subs, removed, got) && 1 <= i < |q|
    ensures Progress(WithoutAt(q, i), if i < c then c - 1 else c, subs, removed + {q[i]}, got)
  {
    var r := WithoutAt(q, i);
    LeaveList(q, i);
    forall x | x in q && x != q[i] ensures x in r {
      assert x in Members(r);
    }
    forall k | 0 <= k < |r| ensures r[k] == q[if k < i then k else k + 1] {
    }
  }

  /** When only removeSub is left, every subscriber that was not removed has been served. */
  lemma AllServed(q: seq<Chan>, subs: set<Chan>, removed: set<Chan>, got: seq<Chan>)
    requires Progress(q, 1, subs, removed, got) && RemoveSub !in subs
    ensures forall x :: x in subs && x !in removed ==> x in got
    ensures Members(q[1..]) == subs - removed
  {
    forall x | x in subs && x !in removed ensures x in got && x in q[1..] {
      var k :| 0 <= k < |q| && q[k] == x;
      assert q[1..][k - 1] == x;
    }
  }

  lemma Deliveries(got: seq<Chan>, x: Chan)
    requires Distinct(got)
    ensures multiset(got)[x] == if x in got then 1 else 0
  {
    if x in got {
      var k :| 0 <= k < |got| && got[k] == x;
      assert got == got[..k] + [x] + got[k + 1..];
      assert x !in got[..k] && x !in got[k + 1..];
    }
  }

  lemma StartProgress(q: seq<Chan>, joined: seq<Chan>)
    requires q != [] && q[0] == RemoveSub && Distinct(q) && Distinct(joined)
    requires forall i :: 0 <= i < |joined| ==> joined[i] !in q
    ensures Progress(q + joined, |q| + |joined|, Members(q[1..]) + Members(joined), {}, [])
  {
    var r := q + joined;
    forall i | 1 <= i < |r| ensures r[i] in Members(q[1..]) + Members(joined) {
      if i < |q| {
        assert r[i] == q[1..][i - 1];
      }
    }
    forall i, j | 0 <= i < j < |r| ensures r[i] != r[j] {
      if i < |q| <= j {
        assert r[j] == joined[j - |q|];
      }
    }
  }

  lemma StillDistinct(q: seq<Chan>, c: nat, subs: set<Chan>, removed: set<Chan>, got: seq<Chan>)
    requires Progress(q, c, subs, removed, got)
    ensures 1 <= c <= |q| && q[0] == RemoveSub && Distinct(q) && Distinct(got)
  {
  }

  lemma InTail(q: seq<Chan>, ch: Chan)
    requires q != [] && q[0] == RemoveSub && Distinct(q)
    ensures ch in q[1..] <==> ch in q && ch != RemoveSub
  {
    if ch in q && ch != RemoveSub {
      var k :| 0 <= k < |q| && q[k] == ch;
      assert q[1..][k - 1] == ch;
    }
  }

  /** A channel leaves a list without repetition. */
  lemma LeaveList(q: seq<Chan>, i: nat)
    requires Distinct(q) && i < |q|
    ensures Distinct(WithoutAt(q, i)) && Members(WithoutAt(q, i)) == Members(q) - {q[i]}
  {
    var r := WithoutAt(q, i);
    forall k | 0 <= k < |r| ensures r[k] == q[if k < i then k else k + 1] {
    }
    forall x | x in q && x != q[i] ensures x in r {
      var k :| 0 <= k < |q| && q[k] == x;
      assert x == r[if k < i then k else k - 1];
    }
  }

  /** Any new channels may have entered the inbox during a send. */
  lemma LeaverIsThere(q: seq<Chan>, c: nat, subs: set<Chan>, leaving: seq<Chan>, left: nat, got: seq<Chan>)
    requires left < |leaving| && Distinct(leaving) && leaving[left] in subs && leaving[left] != RemoveSub
    requires Progress(q, c, subs, Members(leaving[..left]), got)
    ensures q[0] != leaving[left] && leaving[left] in q
  {
  }

  lemma NextLeaver(leaving: seq<Chan>, left: nat)
    requires left < |leaving|
    ensures Members(leaving[..left + 1]) == Members(leaving[..left]) + {leaving[left]}
  {
    assert leaving[..left + 1] == leaving[..left] + [leaving[left]];
  }

  predicate Joined(inbox: seq<Chan>, q: seq<Chan>) {
    Distinct(inbox) && forall i :: 0 <= i < |inbox| ==> inbox[i] != RemoveSub && inbox[i] !in q
  }

  class Feed {
    var slots: array<Chan>
    var count: nat
    var inbox: seq<Chan>

    ghost predicate Valid()
      reads this, slots
    {
      && 1 <= count <= slots.Length && slots[0] == RemoveSub && Distinct(slots[..count])
      && Joined(inbox, slots[..count])
    }

    /** The channels that the next send will serve. */
    ghost function Subscribers(): set<Chan>
      requires Valid()
      reads this, slots
    {
      Members(slots[1..count]) + Members(inbox)
    }

    constructor ()
      ensures Valid() && Subscribers() == {} && fresh(slots)
    {
      var a := new Chan[1](i => RemoveSub);
      slots, count, inbox := a, 1, [];
    }

    method Subscribe(ch: Chan)
      requires Valid() && ch.Sub? && ch !in Subscribers()
      modifies this`inbox
      ensures Valid() && Subscribers() == old(Subscribers()) + {ch}
    {
      InTail(slots[..count], ch);
      assert slots[1..count] == slots[..count][1..];
      inbox := inbox + [ch];
      assert Members(inbox) == Members(old(inbox)) + {ch};
    }

    /** The index of a channel among the first n cases, or -1. */
    method Find(n: nat, ch: Chan) returns (index: int)
      requires n <= slots.Length
      ensures -1 <= index < n && (index == -1 <==> ch !in slots[..n]) && (index >= 0 ==> slots[index] == ch)
    {
      for i := 0 to n
        invariant ch !in slots[..i]
      {
        if slots[i] == ch {
          assert slots[..n][i] == ch;
          return i;
        }
      }
      index := -1;
    }

    /** Takes a case out: the ones behind it move one to the front. */
    method Delete(index: nat)
      requires index < count <= slots.Length
      modifies this`count, slots
      ensures count == old(count) - 1 && slots[..count] == WithoutAt(old(slots[..count]), index)
    {
      var i := index;
      while i + 1 < count
        invariant index <= i < count == old(count) && slots[..i] == WithoutAt(old(slots[..count]), index)[..i]
        invariant forall k :: i < k < count ==> slots[k] == old(slots[k])
      {
        slots[i] := slots[i + 1];
        i := i + 1;
      }
      count := count - 1;
    }

    /** Moves a case to the end of the first c ones, which then are one fewer. */
    method Deactivate(c: nat, index: nat) returns (last: nat)
      requires index < c <= count <= slots.Length
      modifies slots
      ensures last == c - 1 && slots[..count] == Swapped(old(slots[..count]), index, last)
    {
      last := c - 1;
      slots[index], slots[last] := slots[last], slots[index];
    }

    /** An unsubscribe while no send is in progress. */
    method Remove(ch: Chan)
      requires Valid() && ch in Subscribers()
      modifies this, slots
      ensures Valid() && slots == old(slots) && Subscribers() == old(Subscribers()) - {ch}
    {
      ghost var q := slots[..count];
      assert slots[1..count] == q[1..];
      InTail(q, ch);
      if ch in inbox {
        var i := 0;
        while inbox[i] != ch
          invariant 0 <= i < |inbox| && ch in inbox[i..]
          decreases |inbox| - i
        {
          i := i + 1;
        }
        LeaveList(inbox, i);
        assert forall x :: x in WithoutAt(inbox, i) ==> x in Members(WithoutAt(inbox, i));
        inbox := WithoutAt(inbox, i);
      } else {
        var index := Find(count, ch);
        LeaveList(q, index);
        LeaveList(q[1..], index - 1);
        assert WithoutAt(q[1..], index - 1) == WithoutAt(q, index)[1..];
        assert forall x :: x in WithoutAt(q, index) ==> x in Members(WithoutAt(q, index));
        Delete(index);
        assert slots[1..count] == slots[..count][1..];
      }
    }

    /** Takes the send lock and moves the inbox behind the cases. */
    method TakeInbox()
      requires Valid()
      modifies this
      ensures Valid() && inbox == [] && count == slots.Length && fresh(slots)
      ensures slots[..count] == old(slots[..count]) + old(inbox)
      ensures Progress(slots[..count], count, old(Subscribers()), {}, [])
    {
      ghost var q := slots[..count];
      var joined := slots[..count] + inbox;
      assert slots[1..count] == q[1..];
      StartProgress(q, inbox);
      var a := new Chan[|joined|](i requires 0 <= i < |joined| => joined[i]);
      assert a[..|joined|] == joined;
      slots, count, inbox := a, |joined|, [];
    }

    /** Delivers to the cases that have room now; c of them are unserved. */
    method TryAll(unserved: nat, sent: nat, log: seq<Chan>, ghost subs: set<Chan>, ghost removed: set<Chan>)
      returns (c: nat, nsent: nat, got: seq<Chan>)
      requires count <= slots.Length && Progress(slots[..count], unserved, subs, removed, log) && sent == |log|
      modifies slots
      ensures c <= unserved && nsent == |got| && Progress(slots[..count], c, subs, removed, got)
    {
      hide Progress;
      c, nsent, got := unserved, sent, log;
      StillDistinct(slots[..count], c, subs, removed, got);
      var i := 1;
      while i < c
        invariant 1 <= i && c <= unserved && c <= count && nsent == |got|
        invariant Progress(slots[..count], c, subs, removed, got)
        decreases c - i
      {
        var room: bool := *;
        if room {
          DeliverStep(slots[..count], c, subs, removed, got, i);
          got := got + [slots[i]];
          nsent := nsent + 1;
          c := Deactivate(c, i);
        } else {
          i := i + 1;
        }
      }
    }

    /** Waits for room or for an unsubscribe, whichever comes first. */
    method SelectOne(unserved: nat, sent: nat, log: seq<Chan>, leaving: seq<Chan>, gone: nat, ghost subs: set<Chan>)
      returns (c: nat, nsent: nat, got: seq<Chan>, left: nat)
      requires 1 < unserved && count <= slots.Length && gone <= |leaving|
      requires Distinct(leaving) && forall i :: 0 <= i < |leaving| ==> leaving[i] in subs && leaving[i] != RemoveSub
      requires Progress(slots[..count], unserved, subs, Members(leaving[..gone]), log) && sent == |log|
      modifies this`count, slots
      ensures count <= slots.Length && gone <= left <= |leaving| && nsent == |got|
      ensures Progress(slots[..count], c, subs, Members(leaving[..left]), got)
      ensures c + count < unserved + old(count)
      ensures left == gone || (got == log && left == gone + 1)
    {
      hide Progress;
      c, nsent, got, left := unserved, sent, log, gone;
      ghost var removed := Members(leaving[..left]);
      StillDistinct(slots[..count], c, subs, removed, got);
      // a case that is ready: the first one when a subscriber leaves, or a channel with room
      var chosen: nat :| chosen < c && (chosen == 0 ==> left < |leaving|);
      if chosen == 0 {
        LeaverIsThere(slots[..count], c, subs, leaving, left, got);
        var index := Find(count, leaving[left]);
        RemoveStep(slots[..count], c, subs, removed, got, index);
        Delete(index);
        NextLeaver(leaving, left);
        left := left + 1;
        if index < c {
          c := c - 1;
        }
      } else {
        DeliverStep(slots[..count], c, subs, removed, got, chosen);
        got := got + [slots[chosen]];
        c := Deactivate(c, chosen);
        nsent := nsent + 1;
      }
    }

    /** Sends a value to every subscriber. Meanwhile the subscribers in `leaving` unsubscribe, in this
        order, as far as they get to it, and those in `joining` subscribe. `got` lists the deliveries in
        the order they are made, and `left` says how many left. */
    method Send(leaving: seq<Chan>, joining: seq<Chan>) returns (nsent: nat, got: seq<Chan>, left: nat)
      requires Valid() && Distinct(leaving) && forall i :: 0 <= i < |leaving| ==> leaving[i] in Subscribers()
      requires Distinct(joining) && forall i :: 0 <= i < |joining| ==> joining[i].Sub? && joining[i] !in Subscribers()
      modifies this, slots
      ensures Valid() && fresh(slots) && left <= |leaving|
      ensures nsent == |got|
      ensures forall x :: multiset(got)[x] <= if x in old(Subscribers()) then 1 else 0
      ensures forall x :: x in old(Subscribers()) && x !in leaving[..left] ==> multiset(got)[x] == 1
      ensures Members(slots[1..count]) == old(Subscribers()) - Members(leaving[..left]) && inbox == joining
    {
      ghost var subs := Subscribers();
      InTail(slots[..count], RemoveSub);
      assert slots[1..count] == slots[..count][1..];
      forall i | 0 <= i < |leaving| ensures leaving[i] != RemoveSub {
        assert leaving[i] in Subscribers();
      }
      TakeInbox();
      var c: nat := count;
      nsent, got, left := 0, [], 0;
      assert Members(leaving[..0]) == {};
      while true
        invariant fresh(slots) && count <= slots.Length && nsent == |got| && left <= |leaving|
        invariant Progress(slots[..count], c, subs, Members(leaving[..left]), got)
        decreases c + count
      {
        c, nsent, got := TryAll(c, nsent, got, subs, Members(leaving[..left]));
        if c == 1 {
          break;
        }
        c, nsent, got, left := SelectOne(c, nsent, got, leaving, left, subs);
      }
      ghost var removed := Members(leaving[..left]);
      StillDistinct(slots[..count], c, subs, removed, got);
      AllServed(slots[..count], subs, removed, got);
      assert slots[1..count] == slots[..count][1..];
      forall x {
        Deliveries(got, x);
      }
      inbox := joining;
    }
  }
}
