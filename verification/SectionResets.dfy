/** The index of the chain indexer while a failing reset drops all sections. The reset does not take
    the lock, and a notice that holds it may cut the index at the same time. Both run the same
    statements, and any interleaving of them is possible. */
module SectionResets {
  /** The index: the number of sections in the database, the same number in memory, and the head
      of each section in the database. */
  datatype Index = Index(count: nat, stored: nat, heads: map<nat, nat>)

  /** The two numbers agree, and section heads exist exactly below them. */
  ghost predicate Matches(d: Index) {
    d.count == d.stored && forall i: nat :: i in d.heads <==> i < d.stored
  }

  ghost function Without(heads: map<nat, nat>, low: nat, high: nat): map<nat, nat> {
    map i | i in heads && !(low <= i < high) :: heads[i]
  }

  /** What a reorganisation in a section does to the index. */
  ghost function Cut(d: Index, section: nat): Index {
    if section < d.stored then Index(section, section, Without(d.heads, section, d.stored)) else d
  }

  /** Some sections at the end were dropped, and the rest is as before. */
  ghost predicate ShrunkTo(d: Index, e: Index) {
    && e.stored <= d.stored && e.count == (if e.stored < d.stored then e.stored else d.count)
    && e.heads == Without(d.heads, e.stored, d.stored)
  }

  lemma ShrunkMore(d: Index, e: Index, section: nat)
    requires ShrunkTo(d, e)
    ensures ShrunkTo(d, Cut(e, section))
  {
    if section < e.stored {
      assert Without(e.heads, section, e.stored) == Without(d.heads, section, d.stored);
    }
  }

  lemma ShrunkMatches(d: Index, e: Index)
    requires ShrunkTo(d, e) && Matches(d)
    ensures Matches(e)
  {
  }

  lemma ShrunkNot(d: Index)
    ensures ShrunkTo(d, d)
  {
    assert Without(d.heads, d.stored, d.stored) == d.heads;
  }

  lemma ShrunkTrans(d: Index, e: Index, f: Index)
    requires ShrunkTo(d, e) && ShrunkTo(e, f)
    ensures ShrunkTo(d, f)
  {
    assert Without(e.heads, f.stored, e.stored) == Without(d.heads, f.stored, d.stored);
  }

  /** Several reorganisations, one after the other. */
  ghost function CutAll(d: Index, sections: seq<nat>): Index {
    if sections == [] then d else Cut(CutAll(d, sections[..|sections| - 1]), sections[|sections| - 1])
  }

  lemma {:induction false} CutAllAppend(d: Index, a: seq<nat>, b: seq<nat>)
    ensures CutAll(d, a + b) == CutAll(CutAll(d, a), b)
    decreases |b|
  {
    if b == [] {
      assert a + b == a;
    } else {
      assert (a + b)[..|a + b| - 1] == a + b[..|b| - 1];
      CutAllAppend(d, a, b[..|b| - 1]);
    }
  }

  lemma {:induction false} CutAllShrinks(d: Index, sections: seq<nat>)
    ensures ShrunkTo(d, CutAll(d, sections))
  {
    hide ShrunkTo, Cut;
    if sections == [] {
      ShrunkNot(d);
    } else {
      CutAllShrinks(d, sections[..|sections| - 1]);
      ShrunkMore(d, CutAll(d, sections[..|sections| - 1]), sections[|sections| - 1]);
    }
  }

  /** What is left is what comes before the first of the sections. */
  lemma {:induction false} CutAllStored(d: Index, sections: seq<nat>)
    ensures var n := CutAll(d, sections).stored;
            n <= d.stored && (forall k :: k in sections ==> n <= k) && (n < d.stored ==> n in sections)
  {
    if sections != [] {
      var front, last := sections[..|sections| - 1], sections[|sections| - 1];
      CutAllStored(d, front);
      assert sections == front + [last];
    }
  }

  lemma {:induction false} NothingToCut(d: Index, sections: seq<nat>)
    requires d.stored == 0
    ensures CutAll(d, sections) == d
  {
    if sections != [] {
      NothingToCut(d, sections[..|sections| - 1]);
    }
  }

  const COUNTER_MAX: nat := 0xFFFF_FFFF_FFFF_FFFF

  /** The next statement: write the count, test the loop, count down, remove the head that the
      counter now points at, set the counter. Out is before the call and after it. */
  datatype Place = Write | Test | CountDown | Remove | Set | Out

  /** A call that sets the number of sections. */
  datatype Call = Call(to: nat, at: Place)

  /** The index, the call of the failing reset, and the call of the notice that holds the lock. */
  datatype Scene = Scene(index: Index, reset: Call, notice: Call)

  /** The next statement of one of the two calls, or a new notice of a reorganisation. */
  datatype Event = OfReset | OfNotice | Notice(section: nat)

  /** The counter is an unsigned 64-bit number. */
  function CountedDown(n: nat): nat {
    if n == 0 then COUNTER_MAX else n - 1
  }

  function Stepped(d: Index, c: Call): (Index, Call) {
    match c.at
    case Write => (d.(count := c.to), c.(at := Test))
    case Test => (d, c.(at := if d.stored > c.to then CountDown else Set))
    case CountDown => (d.(stored := CountedDown(d.stored)), c.(at := Remove))
    case Remove => (d.(heads := d.heads - {d.stored}), c.(at := Test))
    case Set => (d.(stored := c.to), c.(at := Out))
    case Out => (d, c)
  }

  ghost function Entering(d: Index): Scene {
    Scene(d, Call(0, Write), Call(0, Out))
  }

  /** A notice waits while another one holds the lock. It compares its section with the counter
      before it cuts. */
  ghost function Noticed(s: Scene, section: nat): Scene {
    if s.notice.at.Out? && section < s.index.stored then s.(notice := Call(section, Write)) else s
  }

  ghost function Play(s: Scene, e: Event): Scene {
    match e
    case OfReset => var (d, c) := Stepped(s.index, s.reset); Scene(d, c, s.notice)
    case OfNotice => var (d, c) := Stepped(s.index, s.notice); Scene(d, s.reset, c)
    case Notice(section) => Noticed(s, section)
  }

  ghost function Run(s: Scene, events: seq<Event>): Scene
    decreases |events|
  {
    if events == [] then s else Run(Play(s, events[0]), events[1..])
  }

  ghost predicate Over(s: Scene) {
    s.reset.at.Out? && s.notice.at.Out?
  }

  /** The section of the notice that gets the lock at this event, if any. */
  ghost function EnteredAt(s: Scene, e: Event): seq<nat> {
    if e.Notice? && s.notice.at.Out? then [e.section] else []
  }

  /** The sections of the notices that get the lock, in order. */
  ghost function Entered(s: Scene, events: seq<Event>): seq<nat>
    decreases |events|
  {
    if events == [] then [] else EnteredAt(s, events[0]) + Entered(Play(s, events[0]), events[1..])
  }

  lemma RunNone(s: Scene)
    ensures Run(s, []) == s && Entered(s, []) == []
  {
  }

  lemma RunOne(s: Scene, e: Event)
    ensures Run(s, [e]) == Play(s, e) && Entered(s, [e]) == EnteredAt(s, e)
  {
    assert [e][1..] == [];
    RunNone(Play(s, e));
  }

  lemma {:induction false} RunAppend(s: Scene, a: seq<Event>, b: seq<Event>)
    ensures Run(s, a + b) == Run(Run(s, a), b)
    ensures Entered(s, a + b) == Entered(s, a) + Entered(Run(s, a), b)
    decreases |a|
  {
    if a == [] {
      assert a + b == b;
    } else {
      assert (a + b)[1..] == a[1..] + b;
      RunAppend(Play(s, a[0]), a[1..], b);
    }
  }

  lemma RunMore(s: Scene, events: seq<Event>, e: Event)
    ensures Run(s, events + [e]) == Play(Run(s, events), e)
    ensures Entered(s, events + [e]) == Entered(s, events) + EnteredAt(Run(s, events), e)
  {
    RunAppend(s, events, [e]);
    RunOne(Run(s, events), e);
  }

  /** The index after the rest of a call that runs alone. */
  ghost function Alone(d: Index, c: Call): Index
    decreases Phase(c), Height(d, c), Rank(c)
  {
    if c.at.Out? then d else var (e, f) := Stepped(d, c); Alone(e, f)
  }

  function Phase(c: Call): nat {
    match c.at case Out => 0 case Set => 1 case _ => 2
  }

  function Height(d: Index, c: Call): nat {
    if c.at.CountDown? && d.stored == 0 then COUNTER_MAX + 1 else d.stored
  }

  function Rank(c: Call): nat {
    match c.at case Write => 4 case Remove => 3 case Test => 2 case _ => 1
  }

  lemma {:induction false} AloneTest(d: Index, to: nat)
    ensures Alone(d, Call(to, Test)) == Index(d.count, to, Without(d.heads, to, d.stored))
    decreases d.stored
  {
    if d.stored > to {
      var e := Index(d.count, d.stored - 1, d.heads - {d.stored - 1});
      AloneTest(e, to);
      assert Without(e.heads, to, e.stored) == Without(d.heads, to, d.stored);
      assert Alone(d, Call(to, Test)) == Alone(d, Call(to, CountDown));
      assert Alone(d, Call(to, CountDown)) == Alone(d.(stored := d.stored - 1), Call(to, Remove));
    } else {
      assert Without(d.heads, to, d.stored) == d.heads;
      assert Alone(d, Call(to, Test)) == Alone(d, Call(to, Set));
    }
  }

  /** A call that runs alone writes the number and removes the heads from there on. */
  lemma AloneMeaning(d: Index, to: nat)
    ensures Alone(d, Call(to, Write)) == Index(to, to, Without(d.heads, to, d.stored))
  {
    AloneTest(d.(count := to), to);
  }

  lemma {:induction false} ResetAlone(s: Scene) returns (events: seq<Event>)
    ensures Run(s, events) == Scene(Alone(s.index, s.reset), s.reset.(at := Out), s.notice)
    ensures Entered(s, events) == []
    decreases Phase(s.reset), Height(s.index, s.reset), Rank(s.reset)
  {
    if s.reset.at.Out? {
      events := [];
    } else {
      var rest := ResetAlone(Play(s, OfReset));
      events := [OfReset] + rest;
      RunAppend(s, [OfReset], rest);
      RunOne(s, OfReset);
    }
  }

  lemma {:induction false} NoticeAlone(s: Scene) returns (events: seq<Event>)
    ensures Run(s, events) == Scene(Alone(s.index, s.notice), s.reset, s.notice.(at := Out))
    ensures Entered(s, events) == []
    decreases Phase(s.notice), Height(s.index, s.notice), Rank(s.notice)
  {
    if s.notice.at.Out? {
      events := [];
    } else {
      var rest := NoticeAlone(Play(s, OfNotice));
      events := [OfNotice] + rest;
      RunAppend(s, [OfNotice], rest);
      RunOne(s, OfNotice);
    }
  }

  /** A notice may run as a whole between two statements of the reset. */
  lemma WholeNotice(s: Scene, section: nat) returns (events: seq<Event>)
    requires s.notice.at.Out?
    ensures Run(s, events).index == Cut(s.index, section) && Run(s, events).reset == s.reset
    ensures Run(s, events).notice.at.Out? && Entered(s, events) == [section]
  {
    hide Run, Entered, Alone;
    var t := Noticed(s, section);
    var rest := NoticeAlone(t);
    events := [Notice(section)] + rest;
    RunAppend(s, [Notice(section)], rest);
    RunOne(s, Notice(section));
    if section < s.index.stored {
      AloneMeaning(s.index, section);
    } else {
      assert Alone(s.index, s.notice) == s.index by {
        AloneOut(s.index, s.notice);
      }
    }
  }

  lemma AloneOut(d: Index, c: Call)
    requires c.at.Out?
    ensures Alone(d, c) == d
  {
  }

  /** Notices for sections that are not stored change nothing. */
  lemma {:induction false} IdleNotices(s: Scene, sections: seq<nat>) returns (events: seq<Event>)
    requires s.notice.at.Out? && forall k :: k in sections ==> k >= s.index.stored
    ensures Run(s, events) == s && Entered(s, events) == sections
    decreases |sections|
  {
    if sections == [] {
      events := [];
    } else {
      assert sections[0] in sections;
      assert forall k :: k in sections[1..] ==> k in sections;
      var rest := IdleNotices(s, sections[1..]);
      events := [Notice(sections[0])] + rest;
      RunAppend(s, [Notice(sections[0])], rest);
      RunOne(s, Notice(sections[0]));
    }
  }

  /** The reset ends and leaves the index out of order. */
  ghost predicate Spoils(d: Index, events: seq<Event>) {
    Over(Run(Entering(d), events)) && !Matches(Run(Entering(d), events).index)
  }

  /** No section that is stored is cut. If there is one section only, a notice for it does no harm
      by itself, but it lets the counter wrap, so that a later notice can cut what is not there. */
  ghost predicate Harmless(stored: nat, sections: seq<nat>) {
    && (stored >= 2 ==> forall k :: k in sections ==> k >= stored)
    && (stored == 1 ==> WrapsHarmless(sections))
  }

  ghost predicate WrapsHarmless(sections: seq<nat>) {
    forall i :: 0 <= i < |sections| && sections[i] == 0 ==> AllEmpty(sections[i + 1..])
  }

  ghost predicate AllEmpty(sections: seq<nat>) {
    forall k :: k in sections ==> Empty(k)
  }

  /** A cut to this section leaves nothing, or no counter is beyond it. */
  ghost predicate Empty(section: nat) {
    section == 0 || section >= COUNTER_MAX
  }

  /** Without a cut the reset goes down through the heads. */
  ghost predicate Quiet(s: Scene, bound: nat) {
    && s.notice.at.Out? && s.reset.to == 0 && s.index.stored <= bound
    && s.index.count == (if s.reset.at.Write? then s.index.stored else 0)
    && (s.reset.at.CountDown? ==> s.index.stored > 0)
    && (s.reset.at.Set? || s.reset.at.Out? ==> s.index.stored == 0)
    && (forall i: nat :: i in s.index.heads <==> i < s.index.stored + if s.reset.at.Remove? then 1 else 0)
  }

  lemma QuietStep(s: Scene, e: Event, bound: nat)
    requires Quiet(s, bound) && forall k :: k in EnteredAt(s, e) ==> k >= bound
    ensures Quiet(Play(s, e), bound)
  {
    if e.Notice? {
      assert e.section in EnteredAt(s, e);
    }
  }

  lemma {:induction false} QuietRun(s: Scene, events: seq<Event>, bound: nat)
    requires Quiet(s, bound) && forall k :: k in Entered(s, events) ==> k >= bound
    ensures Quiet(Run(s, events), bound)
    decreases |events|
  {
    hide Quiet, Play, EnteredAt;
    if events != [] {
      forall k | k in EnteredAt(s, events[0]) || k in Entered(Play(s, events[0]), events[1..]) ensures k >= bound {
        assert k in Entered(s, events);
      }
      QuietStep(s, events[0], bound);
      QuietRun(Play(s, events[0]), events[1..], bound);
    }
  }

  /** One section was stored and every cut is to the first section. `cut` says that there may have
      been one. */
  ghost predicate OneStored(s: Scene, cut: bool) {
    && s.reset.to == 0 && s.index.stored <= COUNTER_MAX && s.index.heads.Keys <= {0}
    && (!s.reset.at.Write? ==> s.index.count == 0)
    && (!cut ==> s.notice.at.Out? && s.index.stored <= 1 && (s.reset.at.CountDown? ==> s.index.stored > 0))
    && (!s.notice.at.Out? ==> s.notice.to == 0)
    && (Over(s) ==> s.index.stored == 0)
    && (0 in s.index.heads && s.index.stored == 0 ==> s.reset.at.Remove? || s.notice.at.Remove?)
    && (s.reset.at.Set? || s.reset.at.Out? ==> Going(s.index, s.notice))
    && (s.notice.at.Set? ==> Going(s.index, s.reset))
  }

  /** The only head is gone, or the other call is about to remove it. */
  ghost predicate Going(d: Index, other: Call) {
    0 in d.heads ==> other.at.Remove? && d.stored == 0
  }

  lemma OneStoredStep(s: Scene, e: Event, cut: bool)
    requires OneStored(s, cut) && !e.Notice?
    ensures OneStored(Play(s, e), cut)
  {
  }

  lemma OneStoredNotice(s: Scene, section: nat, cut: bool)
    requires OneStored(s, cut) && (cut ==> Empty(section))
    ensures OneStored(Noticed(s, section), cut || section == 0)
  {
  }

  lemma {:induction false} OneStoredRun(s: Scene, events: seq<Event>, cut: bool) returns (c: bool)
    requires OneStored(s, cut)
    requires if cut then AllEmpty(Entered(s, events)) else WrapsHarmless(Entered(s, events))
    ensures OneStored(Run(s, events), c)
    decreases |events|
  {
    hide OneStored, Noticed, Play, Empty, AllEmpty, WrapsHarmless;
    if events == [] {
      c := cut;
    } else {
      var e := events[0];
      var rest := Entered(Play(s, e), events[1..]);
      if EnteredAt(s, e) == [] {
        if e.Notice? {
          WaitingNotice(s, e.section);
        } else {
          OneStoredStep(s, e, cut);
        }
        assert Entered(s, events) == rest;
        c := OneStoredRun(Play(s, e), events[1..], cut);
      } else {
        assert Entered(s, events) == [e.section] + rest;
        HarmlessTail(cut, e.section, rest);
        OneStoredNotice(s, e.section, cut);
        assert Play(s, e) == Noticed(s, e.section) by {
          NoticePlay(s, e.section);
        }
        c := OneStoredRun(Play(s, e), events[1..], cut || e.section == 0);
      }
    }
  }

  lemma NoticePlay(s: Scene, section: nat)
    ensures Play(s, Notice(section)) == Noticed(s, section)
  {
  }

  lemma WaitingNotice(s: Scene, section: nat)
    requires EnteredAt(s, Notice(section)) == []
    ensures Play(s, Notice(section)) == s
  {
  }

  lemma HarmlessTail(cut: bool, section: nat, rest: seq<nat>)
    requires if cut then AllEmpty([section] + rest) else WrapsHarmless([section] + rest)
    ensures cut ==> Empty(section)
    ensures if cut || section == 0 then AllEmpty(rest) else WrapsHarmless(rest)
  {
    hide Empty;
    var all := [section] + rest;
    if cut {
      assert section in all && forall k :: k in rest ==> k in all;
    } else {
      forall i | 0 <= i < |rest| && rest[i] == 0 ensures AllEmpty(rest[i + 1..]) {
        assert all[i + 1] == 0 && all[i + 2..] == rest[i + 1..];
      }
      if section == 0 {
        assert all[0] == 0 && all[1..] == rest;
      }
    }
  }

  /** No interleaving of the reset with harmless notices leaves the index out of order. */
  lemma HarmlessReset(d: Index, events: seq<Event>)
    requires Matches(d) && Over(Run(Entering(d), events)) && Harmless(d.stored, Entered(Entering(d), events))
    ensures Run(Entering(d), events).index == Index(0, 0, map[])
  {
    hide Run, Entered;
    var s := Run(Entering(d), events);
    if d.stored == 1 {
      assert d.heads.Keys <= {0};
      var cut := OneStoredRun(Entering(d), events, false);
      assert s.index.heads.Keys == {};
    } else {
      QuietRun(Entering(d), events, d.stored);
      assert s.index.heads.Keys == {};
    }
    assert s.index.heads == map[];
  }

  ghost function FirstBelow(sections: seq<nat>, bound: nat): (i: nat)
    ensures i <= |sections| && (i < |sections| ==> sections[i] < bound)
    ensures forall j :: 0 <= j < i ==> sections[j] >= bound
  {
    if sections == [] || sections[0] < bound then 0 else 1 + FirstBelow(sections[1..], bound)
  }

  lemma SplitAt(sections: seq<nat>, i: nat)
    requires i < |sections|
    ensures sections == sections[..i] + [sections[i]] + sections[i + 1..]
  {
  }

  /** A cut to a later section comes as a whole once the count is written, and its count stays. */
  lemma CountLeft(d: Index, section: nat) returns (events: seq<Event>)
    requires 0 < section < d.stored
    ensures var s := Run(Entering(d), events);
            Over(s) && s.index.count == section && s.index.stored == 0 && Entered(Entering(d), events) == [section]
  {
    hide Run, Entered, Alone;
    var s := Entering(d);
    var t := Play(s, OfReset);
    RunOne(s, OfReset);
    var whole := WholeNotice(t, section);
    var u := Run(t, whole);
    RunAppend(s, [OfReset], whole);
    var rest := ResetAlone(u);
    AloneTest(u.index, 0);
    events := [OfReset] + whole + rest;
    RunAppend(s, [OfReset] + whole, rest);
  }

  /** A cut to the first section comes as a whole between a count down and the removal, and the
      head that was counted past stays. */
  lemma HeadLeft(d: Index) returns (events: seq<Event>)
    requires Matches(d) && d.stored >= 2
    ensures var s := Run(Entering(d), events);
            && Over(s) && s.index.count == 0 == s.index.stored && s.index.heads.Keys == {d.stored - 1}
            && Entered(Entering(d), events) == [0]
  {
    hide Run, Entered, Alone;
    var s := Entering(d);
    var t := Play(Play(Play(s, OfReset), OfReset), OfReset);
    ThreeSteps(s);
    var whole := WholeNotice(t, 0);
    var u := Run(t, whole);
    RunAppend(s, [OfReset] + [OfReset] + [OfReset], whole);
    var rest := ResetAlone(u);
    AloneRemove(u.index);
    events := [OfReset] + [OfReset] + [OfReset] + whole + rest;
    RunAppend(s, [OfReset] + [OfReset] + [OfReset] + whole, rest);
    var e := Run(s, events).index;
    assert u.index.heads.Keys == {d.stored - 1};
    assert e.heads == u.index.heads;
  }

  lemma AloneRemove(d: Index)
    ensures Alone(d, Call(0, Remove)) == Index(d.count, 0, Without(d.heads - {d.stored}, 0, d.stored))
  {
    AloneTest(d.(heads := d.heads - {d.stored}), 0);
  }

  lemma TwoSteps(s: Scene)
    ensures Run(s, [OfReset] + [OfReset]) == Play(Play(s, OfReset), OfReset)
    ensures Entered(s, [OfReset] + [OfReset]) == []
  {
    hide Run, Entered;
    RunAppend(s, [OfReset], [OfReset]);
    RunOne(s, OfReset);
    RunOne(Play(s, OfReset), OfReset);
  }

  lemma ThreeSteps(s: Scene)
    ensures Run(s, [OfReset] + [OfReset] + [OfReset]) == Play(Play(Play(s, OfReset), OfReset), OfReset)
    ensures Entered(s, [OfReset] + [OfReset] + [OfReset]) == []
  {
    hide Run, Entered;
    TwoSteps(s);
    RunAppend(s, [OfReset] + [OfReset], [OfReset]);
    RunOne(Play(Play(s, OfReset), OfReset), OfReset);
  }

  /** A notice for the only section comes between the test and the count down, so that the counter
      wraps. */
  lemma CounterWraps(d: Index) returns (events: seq<Event>)
    requires d.stored > 0
    ensures var s := Run(Entering(d), events);
            s.index.count == s.index.stored == 0 && s.reset == Call(0, CountDown) && s.notice.at.Out?
    ensures Entered(Entering(d), events) == [0]
    ensures Run(Entering(d), events + [OfReset]).index.stored == COUNTER_MAX
  {
    hide Run, Entered, Alone;
    var s := Entering(d);
    TwoSteps(s);
    var t := Play(Play(s, OfReset), OfReset);
    var whole := WholeNotice(t, 0);
    RunAppend(s, [OfReset] + [OfReset], whole);
    events := [OfReset] + [OfReset] + whole;
    RunMore(s, events, OfReset);
  }

  /** A cut at the wrapped counter leaves its count. */
  lemma CountLeftWrapped(s: Scene, section: nat) returns (events: seq<Event>)
    requires s.reset == Call(0, CountDown) && s.index.stored == 0 && s.notice.at.Out? && 0 < section < COUNTER_MAX
    ensures var t := Run(s, events);
            Over(t) && t.index.count == section && t.index.stored == 0 && Entered(s, events) == [section]
  {
    hide Run, Entered, Alone;
    var t := Play(s, OfReset);
    RunOne(s, OfReset);
    var whole := WholeNotice(t, section);
    var u := Run(t, whole);
    RunAppend(s, [OfReset], whole);
    var rest := ResetAlone(u);
    AloneRemove(u.index);
    events := [OfReset] + whole + rest;
    RunAppend(s, [OfReset] + whole, rest);
  }

  /** Notices that come before and after change nothing. */
  lemma Framed(s: Scene, before: seq<nat>, middle: seq<Event>, after: seq<nat>) returns (events: seq<Event>)
    requires s.notice.at.Out? && forall k :: k in before ==> k >= s.index.stored
    requires Over(Run(s, middle)) && Run(s, middle).index.stored == 0
    ensures Run(s, events) == Run(s, middle)
    ensures Entered(s, events) == before + Entered(s, middle) + after
  {
    hide Run, Entered;
    var a := IdleNotices(s, before);
    var b := IdleNotices(Run(s, middle), after);
    events := a + middle + b;
    RunAppend(s, a, middle);
    RunAppend(s, a + middle, b);
  }

  lemma SpoiledMany(d: Index, sections: seq<nat>, i: nat) returns (events: seq<Event>)
    requires Matches(d) && d.stored >= 2 && i == FirstBelow(sections, d.stored) < |sections|
    ensures Spoils(d, events) && Entered(Entering(d), events) == sections
  {
    hide Run, Entered;
    var middle;
    if sections[i] == 0 {
      middle := HeadLeft(d);
      assert d.stored - 1 in Run(Entering(d), middle).index.heads;
    } else {
      middle := CountLeft(d, sections[i]);
    }
    SplitAt(sections, i);
    events := Framed(Entering(d), sections[..i], middle, sections[i + 1..]);
  }

  lemma SplitTwice(sections: seq<nat>, i: nat, j: nat)
    requires i < j < |sections|
    ensures sections == sections[..i] + ([sections[i]] + sections[i + 1..j] + [sections[j]]) + sections[j + 1..]
  {
  }

  lemma WrapThenCut(d: Index, between: seq<nat>, section: nat) returns (events: seq<Event>)
    requires d.stored > 0 && 0 < section < COUNTER_MAX
    ensures var s := Run(Entering(d), events); Over(s) && s.index.count == section && s.index.stored == 0
    ensures Entered(Entering(d), events) == [0] + between + [section]
  {
    hide Run, Entered;
    var s := Entering(d);
    var wrap := CounterWraps(d);
    var t := Run(s, wrap);
    var idle := IdleNotices(t, between);
    var last := CountLeftWrapped(t, section);
    events := wrap + idle + last;
    RunAppend(s, wrap, idle);
    RunAppend(s, wrap + idle, last);
  }

  lemma SpoiledOne(d: Index, sections: seq<nat>, i: nat, j: nat) returns (events: seq<Event>)
    requires d.stored == 1 && i == FirstBelow(sections, 1) < j < |sections| && 0 < sections[j] < COUNTER_MAX
    ensures Spoils(d, events) && Entered(Entering(d), events) == sections
  {
    hide Run, Entered;
    var middle := WrapThenCut(d, sections[i + 1..j], sections[j]);
    SplitTwice(sections, i, j);
    events := Framed(Entering(d), sections[..i], middle, sections[j + 1..]);
  }

  lemma SpoiledBy(d: Index, sections: seq<nat>) returns (events: seq<Event>)
    requires Matches(d) && !Harmless(d.stored, sections)
    ensures Spoils(d, events) && Entered(Entering(d), events) == sections
  {
    hide Run, Entered, Spoils;
    if d.stored == 1 {
      var i :| 0 <= i < |sections| && sections[i] == 0 && !AllEmpty(sections[i + 1..]);
      var k :| 0 <= k < |sections[i + 1..]| && !Empty(sections[i + 1..][k]);
      var first := FirstBelow(sections, 1);
      assert first <= i && sections[i + 1..][k] == sections[i + 1 + k];
      events := SpoiledOne(d, sections, first, i + 1 + k);
    } else {
      events := SpoiledMany(d, sections, FirstBelow(sections, d.stored));
    }
  }

  /** Some interleaving of a failing reset with the given notices leaves the index out of order, if
      and only if the notices are not harmless. */
  lemma SpoiledIff(d: Index, sections: seq<nat>)
    requires Matches(d)
    ensures (exists events :: Entered(Entering(d), events) == sections && Spoils(d, events))
            <==> !Harmless(d.stored, sections)
  {
    hide Run, Entered, Matches, Harmless;
    if Harmless(d.stored, sections) {
      forall events | Entered(Entering(d), events) == sections ensures !Spoils(d, events) {
        if Over(Run(Entering(d), events)) {
          HarmlessReset(d, events);
          EmptyMatches();
        }
      }
    } else {
      var events := SpoiledBy(d, sections);
    }
  }

  lemma EmptyMatches()
    ensures Matches(Index(0, 0, map[]))
  {
  }

  /** Five sections are stored. The reset writes the count and removes the last head; a notice for
      section 2 writes its own count and cuts; the reset goes on. Nothing is stored in the end, no
      head is there, and the database counts two sections, which a restart would load. */
  lemma ResetExample(d: Index) returns (events: seq<Event>)
    requires Matches(d) && d.stored == 5
    ensures Spoils(d, events) && Entered(Entering(d), events) == [2]
    ensures Run(Entering(d), events).index == Index(2, 0, map[])
  {
    hide Run, Entered, Alone;
    var s := Entering(d);
    var r := Play(s, OfReset);
    RunOne(s, OfReset);
    ThreeSteps(r);
    var t := Play(Play(Play(r, OfReset), OfReset), OfReset);
    var steps := [OfReset] + ([OfReset] + [OfReset] + [OfReset]);
    RunAppend(s, [OfReset], [OfReset] + [OfReset] + [OfReset]);
    assert t.index == Index(0, 4, d.heads - {4}) && t.reset == Call(0, Test);
    var whole := WholeNotice(t, 2);
    var u := Run(t, whole);
    RunAppend(s, steps, whole);
    var rest := ResetAlone(u);
    AloneTest(u.index, 0);
    events := steps + whole + rest;
    RunAppend(s, steps + whole, rest);
    assert Without(u.index.heads, 0, 2).Keys == {};
    assert Run(s, events).index.heads == map[];
  }

  /** The notice has compared its section and the reset runs before it goes on. Memory and database
      then both count sections that have no head. */
  lemma LateNotice(d: Index, section: nat) returns (events: seq<Event>)
    requires Matches(d) && 0 < section < d.stored
    ensures Spoils(d, events) && Entered(Entering(d), events) == [section]
    ensures Run(Entering(d), events).index == Index(section, section, map[])
  {
    hide Run, Entered, Alone;
    var s := Entering(d);
    var t := Noticed(s, section);
    RunOne(s, Notice(section));
    var a := ResetAlone(t);
    AloneMeaning(t.index, 0);
    var u := Run(t, a);
    assert u.index.heads.Keys == {};
    var b := NoticeAlone(u);
    AloneMeaning(u.index, section);
    RunAppend(s, [Notice(section)], a);
    events := [Notice(section)] + a + b;
    RunAppend(s, [Notice(section)] + a, b);
    assert Run(s, events).index.heads == map[];
    assert section - 1 !in Run(s, events).index.heads;
  }

  /** A failing reset: the sections of the notices that came before it, the index that it found, what
      happened while it dropped the sections, and the sections of the notices that came afterwards. */
  datatype Reset = Reset(first: seq<nat>, before: Index, events: seq<Event>, last: seq<nat>) {
    ghost function End(): Scene {
      Run(Entering(before), events)
    }

    ghost function Meanwhile(): seq<nat> {
      Entered(Entering(before), events)
    }
  }

  /** The reset took d to e while notices for the given sections came, in this order. */
  ghost predicate Dropped(d: Index, reset: Reset, e: Index, sections: seq<nat>) {
    && reset.before == CutAll(d, reset.first) && Over(reset.End()) && e == CutAll(reset.End().index, reset.last)
    && sections == reset.first + reset.Meanwhile() + reset.last
  }

  /** An index in order is empty after a failing reset with harmless notices. */
  lemma DroppedHarmless(d: Index, reset: Reset, e: Index, sections: seq<nat>)
    requires Matches(d) && Dropped(d, reset, e, sections) && Harmless(d.stored, sections)
    ensures e == Index(0, 0, map[])
  {
    hide Run, Entered, Matches, Harmless;
    CutAllShrinks(d, reset.first);
    ShrunkMatches(d, reset.before);
    HarmlessPart(d, reset.first, reset.Meanwhile(), reset.last);
    HarmlessReset(reset.before, reset.events);
    NothingToCut(Index(0, 0, map[]), reset.last);
  }

  /** Some of a harmless list of notices are harmless to what the ones before them left. */
  lemma HarmlessPart(d: Index, a: seq<nat>, b: seq<nat>, c: seq<nat>)
    requires Harmless(d.stored, a + b + c)
    ensures Harmless(CutAll(d, a).stored, b)
  {
    hide CutAll;
    CutAllStored(d, a);
    var all, e := a + b + c, CutAll(d, a);
    assert forall k :: k in a || k in b ==> k in all;
    if e.stored == 1 {
      forall i | 0 <= i < |b| && b[i] == 0 ensures AllEmpty(b[i + 1..]) {
        assert all[|a| + i] == 0;
        var rest, allRest := b[i + 1..], all[|a| + i + 1..];
        forall j | 0 <= j < |rest| ensures rest[j] in allRest {
          assert allRest[j] == rest[j];
        }
      }
    }
  }
}
