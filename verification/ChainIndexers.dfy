/** The background indexer of chain sections, without a checkpoint. Notices of new heads and of
    reorganisations arrive under the lock; a section is processed without it, so that notices may
    come between any two reads of the chain, and between any two statements of a failing reset.
    Block hashes are numbers other than 0, which is the hash that a missing entry reads as. */
module ChainIndexers {
  import opened TimeLockItems
  import opened SectionResets

  const NO_HASH: nat := 0

  datatype Header = Header(number: nat, parent: nat)

  type Headers = map<nat, Header>

  /** The headers are parent-linked from a given parent on, with ascending numbers. */
  ghost predicate Linked(tree: Headers, run: seq<nat>, parent: nat, start: nat) {
    forall k :: 0 <= k < |run| ==> LinkAt(tree, run, parent, start, k)
  }

  ghost predicate LinkAt(tree: Headers, run: seq<nat>, parent: nat, start: nat, k: nat)
    requires k < |run|
  {
    run[k] in tree && tree[run[k]] == Header(start + k, if k == 0 then parent else run[k - 1])
  }

  /** n headers lead from a parent to a head. */
  ghost predicate Leads(tree: Headers, parent: nat, head: nat, start: nat, n: nat) {
    exists run :: |run| == n && n > 0 && Linked(tree, run, parent, start) && run[n - 1] == head
  }

  lemma LinkedNone(tree: Headers, parent: nat, start: nat)
    ensures Linked(tree, [], parent, start)
  {
  }

  lemma LinkedMore(tree: Headers, run: seq<nat>, parent: nat, start: nat, hash: nat)
    requires Linked(tree, run, parent, start) && hash in tree
    requires tree[hash] == Header(start + |run|, if run == [] then parent else run[|run| - 1])
    ensures Linked(tree, run + [hash], parent, start)
  {
    var r := run + [hash];
    forall k | 0 <= k < |r| ensures LinkAt(tree, r, parent, start, k) {
      if k < |run| {
        assert LinkAt(tree, run, parent, start, k);
      }
    }
  }

  lemma LeadsBy(tree: Headers, run: seq<nat>, parent: nat, start: nat)
    requires Linked(tree, run, parent, start) && run != []
    ensures run[|run| - 1] in tree && Leads(tree, parent, run[|run| - 1], start, |run|)
  {
    assert LinkAt(tree, run, parent, start, |run| - 1);
  }

  lemma LeadsJoin(tree: Headers, a: nat, b: nat, c: nat, start: nat, n: nat, m: nat)
    requires Leads(tree, a, b, start, n) && Leads(tree, b, c, start + n, m)
    ensures Leads(tree, a, c, start, n + m)
  {
    var x :| |x| == n && n > 0 && Linked(tree, x, a, start) && x[n - 1] == b;
    var y :| |y| == m && m > 0 && Linked(tree, y, b, start + n) && y[m - 1] == c;
    var z := x + y;
    forall k | 0 <= k < |z| ensures LinkAt(tree, z, a, start, k) {
      if k < n {
        assert LinkAt(tree, x, a, start, k);
      } else {
        assert LinkAt(tree, y, b, start + n, k - n);
      }
    }
    assert Linked(tree, z, a, start) && z[n + m - 1] == c;
  }

  /** The head of the section before this one. Before the first there is none. */
  function HeadBefore(heads: map<nat, nat>, section: nat): nat {
    if section > 0 && section - 1 in heads then heads[section - 1] else NO_HASH
  }

  function Start(section: nat, size: nat): nat {
    section * size
  }

  function SectionOf(number: nat, size: nat): nat
    requires size > 0
  {
    number / size
  }

  /** The section of a block is the one whose numbers it lies among. */
  lemma SectionOfMeaning(number: nat, size: nat)
    requires size > 0
    ensures SectionOf(number, size) * size <= number < (SectionOf(number, size) + 1) * size
  {
    assert number == (number / size) * size + number % size;
  }

  function Smaller(a: nat, b: nat): (m: nat)
    ensures m <= a && m <= b && (m == a || m == b)
  {
    if a <= b then a else b
  }

  /** The section leads from the head of the one before it to its own head. */
  ghost predicate SectionAt(tree: Headers, size: nat, heads: map<nat, nat>, i: nat) {
    i in heads && heads[i] in tree && Leads(tree, HeadBefore(heads, i), heads[i], Start(i, size), size)
  }

  /** The stored sections link up. */
  ghost predicate LinkedSections(tree: Headers, size: nat, heads: map<nat, nat>, stored: nat) {
    forall i :: 0 <= i < stored ==> SectionAt(tree, size, heads, i)
  }

  /** The stored sections are one linked chain from the first block to the last stored head. */
  lemma {:induction false} StoredChain(tree: Headers, size: nat, heads: map<nat, nat>, stored: nat)
    requires LinkedSections(tree, size, heads, stored) && stored > 0
    ensures stored - 1 in heads && Leads(tree, NO_HASH, heads[stored - 1], 0, Start(stored, size))
  {
    hide Leads, Start;
    StartNext(0, size);
    StartNext(stored - 1, size);
    assert SectionAt(tree, size, heads, stored - 1);
    if stored > 1 {
      StoredChain(tree, size, heads, stored - 1);
      LeadsJoin(tree, NO_HASH, heads[stored - 2], heads[stored - 1], 0, Start(stored - 1, size), size);
    }
  }

  lemma StartNext(section: nat, size: nat)
    ensures Start(section + 1, size) == Start(section, size) + size && Start(0, size) == 0
  {
  }

  lemma SectionsGrow(tree: Headers, size: nat, heads: map<nat, nat>, stored: nat, head: nat)
    requires LinkedSections(tree, size, heads, stored) && head in tree
    requires Leads(tree, HeadBefore(heads, stored), head, Start(stored, size), size)
    ensures LinkedSections(tree, size, heads[stored := head], stored + 1)
  {
    hide Leads, Start;
    var h := heads[stored := head];
    forall i | 0 <= i < stored + 1 ensures SectionAt(tree, size, h, i) {
      assert HeadBefore(h, i) == HeadBefore(heads, i);
      if i < stored {
        assert SectionAt(tree, size, heads, i);
      }
    }
  }

  lemma ShrunkKeeps(tree: Headers, size: nat, d: Index, e: Index)
    requires ShrunkTo(d, e)
    ensures LinkedSections(tree, size, d.heads, d.stored) ==> LinkedSections(tree, size, e.heads, e.stored)
    ensures Matches(d) ==> Matches(e)
  {
    hide Leads, Start, Matches;
    if Matches(d) {
      ShrunkMatches(d, e);
    }
    if LinkedSections(tree, size, d.heads, d.stored) {
      forall i | 0 <= i < e.stored ensures SectionAt(tree, size, e.heads, i) {
        assert SectionAt(tree, size, d.heads, i);
        assert HeadBefore(e.heads, i) == HeadBefore(d.heads, i);
      }
    }
  }

  lemma NoSections(tree: Headers, size: nat, heads: map<nat, nat>)
    ensures LinkedSections(tree, size, heads, 0)
  {
  }

  /** If the head before the section is still there, nothing was dropped. */
  lemma SameSection(tree: Headers, size: nat, d: Index, e: Index)
    requires LinkedSections(tree, size, d.heads, d.stored) && NO_HASH !in tree && ShrunkTo(d, e)
    requires HeadBefore(d.heads, d.stored) == HeadBefore(e.heads, d.stored)
    ensures e == d
  {
    hide Leads;
    if d.stored > 0 {
      assert SectionAt(tree, size, d.heads, d.stored - 1);
    }
    ShrunkNot(d);
  }

  lemma OtherSection(d: Index, e: Index)
    requires ShrunkTo(d, e) && HeadBefore(d.heads, d.stored) != HeadBefore(e.heads, d.stored)
    ensures e.stored < d.stored
  {
    ShrunkNot(d);
  }

  /** What the backend and the reads of the chain answer while a section is processed. The chain may
      change between two reads, so that any block with the number may be read. */
  datatype Answers = Answers(resetFails: bool, blocks: seq<Option<nat>>, processFails: seq<bool>, commitFails: bool)

  ghost predicate Possible(tree: Headers, size: nat, section: nat, a: Answers) {
    && |a.blocks| == |a.processFails| == size
    && forall k :: 0 <= k < size && a.blocks[k].Some? ==>
         a.blocks[k].value in tree && tree[a.blocks[k].value].number == Start(section, size) + k
  }

  /** The k-th block is there, follows the one before it, and the backend takes it. */
  ghost predicate Accepts(tree: Headers, a: Answers, lastHead: nat, k: nat)
    requires k < |a.blocks| == |a.processFails|
  {
    && a.blocks[k].Some? && a.blocks[k].value in tree && !a.processFails[k]
    && (k == 0 ==> tree[a.blocks[k].value].parent == lastHead)
    && (k > 0 ==> a.blocks[k - 1] == Some(tree[a.blocks[k].value].parent))
  }

  ghost predicate Succeeds(tree: Headers, a: Answers, lastHead: nat)
    requires |a.blocks| == |a.processFails|
  {
    && !a.resetFails && !a.commitFails
    && forall k :: 0 <= k < |a.blocks| ==> Accepts(tree, a, lastHead, k)
  }

  lemma SucceedsUnlessReset(tree: Headers, a: Answers, lastHead: nat)
    requires |a.blocks| == |a.processFails|
    ensures Succeeds(tree, a, lastHead) ==> !a.resetFails
  {
  }

  lemma AcceptsIff(tree: Headers, a: Answers, lastHead: nat, last: nat, k: nat)
    requires k < |a.blocks| == |a.processFails| && (a.blocks[k].Some? ==> a.blocks[k].value in tree)
    requires if k == 0 then last == lastHead else a.blocks[k - 1] == Some(last)
    ensures Accepts(tree, a, lastHead, k) <==>
      a.blocks[k].Some? && !a.processFails[k] && tree[a.blocks[k].value].parent == last
  {
  }

  // ---------- Notices ----------

  /** A notice of a new head, or of a reorganisation down to a block. */
  datatype Notified = Notified(head: nat, reorg: bool)

  /** The sections that a list of notices reorganises. */
  function Reorgs(notices: seq<Notified>, size: nat): seq<nat>
    requires size > 0
  {
    if notices == [] then []
    else
      var front, last := Reorgs(notices[..|notices| - 1], size), notices[|notices| - 1];
      if last.reorg then front + [SectionOf(last.head, size)] else front
  }

  /** What an indexer knows besides its index: the number of complete sections of the chain and what
      was passed on to the children, oldest first. */
  datatype Outside = Outside(known: nat, cascadedHead: nat, cascaded: seq<(nat, bool)>)

  ghost function After(o: Outside, n: Notified, size: nat, confirms: nat): Outside
    requires size > 0
  {
    if n.reorg then
      var head := Start(SectionOf(n.head, size), size);
      var cascades := head < o.cascadedHead;
      Outside(Smaller(o.known, SectionOf(n.head, size)), Smaller(o.cascadedHead, head),
              o.cascaded + if cascades then [(head, true)] else [])
    else if n.head >= confirms && SectionOf(n.head + 1 - confirms, size) > o.known then
      o.(known := SectionOf(n.head + 1 - confirms, size))
    else o
  }

  ghost function AfterAll(o: Outside, notices: seq<Notified>, size: nat, confirms: nat): Outside
    requires size > 0
  {
    if notices == [] then o
    else After(AfterAll(o, notices[..|notices| - 1], size, confirms), notices[|notices| - 1], size, confirms)
  }

  lemma {:induction false} ReorgsAppend(a: seq<Notified>, b: seq<Notified>, size: nat)
    requires size > 0
    ensures Reorgs(a + b, size) == Reorgs(a, size) + Reorgs(b, size)
    decreases |b|
  {
    if b == [] {
      assert a + b == a;
    } else {
      assert (a + b)[..|a + b| - 1] == a + b[..|b| - 1];
      ReorgsAppend(a, b[..|b| - 1], size);
    }
  }

  lemma {:induction false} AfterAllAppend(o: Outside, a: seq<Notified>, b: seq<Notified>, size: nat, confirms: nat)
    requires size > 0
    ensures AfterAll(o, a + b, size, confirms) == AfterAll(AfterAll(o, a, size, confirms), b, size, confirms)
    decreases |b|
  {
    hide After;
    if b == [] {
      assert a + b == a;
    } else {
      assert (a + b)[..|a + b| - 1] == a + b[..|b| - 1];
      AfterAllAppend(o, a, b[..|b| - 1], size, confirms);
    }
  }

  lemma NothingArrived(d: Index, o: Outside, notices: seq<Notified>, size: nat, confirms: nat)
    requires size > 0
    ensures CutAll(d, Reorgs(notices[..0], size)) == d && AfterAll(o, notices[..0], size, confirms) == o
  {
  }

  lemma MoreArrived(d: Index, o: Outside, notices: seq<Notified>, from: nat, to: nat, size: nat, confirms: nat)
    requires size > 0 && from <= to <= |notices|
    ensures CutAll(CutAll(d, Reorgs(notices[..from], size)), Reorgs(notices[from..to], size))
         == CutAll(d, Reorgs(notices[..to], size))
    ensures AfterAll(AfterAll(o, notices[..from], size, confirms), notices[from..to], size, confirms)
         == AfterAll(o, notices[..to], size, confirms)
  {
    hide Reorgs, CutAll, AfterAll;
    assert notices[..to] == notices[..from] + notices[from..to];
    ReorgsAppend(notices[..from], notices[from..to], size);
    CutAllAppend(d, Reorgs(notices[..from], size), Reorgs(notices[from..to], size));
    AfterAllAppend(o, notices[..from], notices[from..to], size, confirms);
  }

  lemma ThreeParts(notices: seq<Notified>, i: nat, j: nat, size: nat)
    requires size > 0 && i <= j <= |notices|
    ensures Reorgs(notices, size)
         == Reorgs(notices[0..i], size) + Reorgs(notices[i..j], size) + Reorgs(notices[j..|notices|], size)
  {
    hide Reorgs;
    ReorgsAppend(notices[0..i], notices[i..j], size);
    assert notices[0..i] + notices[i..j] == notices[0..j];
    ReorgsAppend(notices[0..j], notices[j..|notices|], size);
    assert notices[0..j] + notices[j..|notices|] == notices;
  }

  lemma OneMoreReorg(notices: seq<Notified>, from: nat, to: nat, size: nat)
    requires size > 0 && from <= to < |notices|
    ensures Reorgs(notices[from..to + 1], size) == Reorgs(notices[from..to], size)
      + if notices[to].reorg then [SectionOf(notices[to].head, size)] else []
  {
    var some := notices[from..to + 1];
    assert some[..|some| - 1] == notices[from..to] && some[|some| - 1] == notices[to];
  }

  lemma NoReorgs(notices: seq<Notified>, from: nat, size: nat)
    requires size > 0 && from <= |notices|
    ensures Reorgs(notices[from..from], size) == []
  {
  }

  class ChainIndexer {
    const sectionSize: nat
    const confirmsReq: nat
    /** Every header there is. The chain database may hold some of them at one time and others later. */
    const tree: Headers

    var storedSections: nat
    var knownSections: nat
    var cascadedHead: nat
    // The index database: the head of each section and the number of sections.
    var heads: map<nat, nat>
    var count: nat
    // The notices passed on to the children, oldest first.
    var cascaded: seq<(nat, bool)>

    ghost function Contents(): Index
      reads this
    {
      Index(count, storedSections, heads)
    }

    ghost function Beyond(): Outside
      reads this
    {
      Outside(knownSections, cascadedHead, cascaded)
    }

    /** The stored sections link up. */
    ghost predicate Sound()
      reads this
    {
      sectionSize > 0 && NO_HASH !in tree && LinkedSections(tree, sectionSize, heads, storedSections)
    }

    /** Besides, the count in the database is right and there are no other heads. */
    ghost predicate Valid()
      reads this
    {
      Sound() && Matches(Contents())
    }

    constructor (sectionSize: nat, confirmsReq: nat, tree: Headers, heads: map<nat, nat>, count: nat)
      requires sectionSize > 0 && NO_HASH !in tree && LinkedSections(tree, sectionSize, heads, count)
      ensures Sound() && Contents() == Index(count, count, heads)
      ensures this.sectionSize == sectionSize && this.confirmsReq == confirmsReq && this.tree == tree
    {
      this.sectionSize, this.confirmsReq, this.tree := sectionSize, confirmsReq, tree;
      this.heads, this.count := heads, count;
      storedSections, knownSections, cascadedHead, cascaded := count, 0, 0, [];
    }

    /** Writes the number of sections and removes the heads from there on. */
    method SetValidSections(sections: nat)
      modifies this`count, this`storedSections, this`heads
      ensures Contents() == Index(sections, sections, Without(old(heads), sections, old(storedSections)))
    {
      count := sections;
      while storedSections > sections
        invariant sections <= storedSections || storedSections == old(storedSections)
        invariant storedSections <= old(storedSections) && count == sections
        invariant heads == Without(old(heads), storedSections, old(storedSections))
      {
        storedSections := storedSections - 1;
        heads := heads - {storedSections};
      }
      storedSections := sections;
    }

    method NewHead(head: nat, reorg: bool)
      requires sectionSize > 0
      modifies this
      ensures Contents() == if reorg then Cut(old(Contents()), SectionOf(head, sectionSize)) else old(Contents())
      ensures Beyond() == After(old(Beyond()), Notified(head, reorg), sectionSize, confirmsReq)
      ensures (old(Sound()) ==> Sound()) && (old(Valid()) ==> Valid())
      ensures reorg ==> knownSections == Smaller(old(knownSections), SectionOf(head, sectionSize))
      ensures reorg ==> cascadedHead == Smaller(old(cascadedHead), Start(SectionOf(head, sectionSize), sectionSize))
      ensures reorg ==>
        cascaded == old(cascaded) + if cascadedHead < old(cascadedHead) then [(cascadedHead, true)] else []
      ensures !reorg ==> cascadedHead == old(cascadedHead) && cascaded == old(cascaded)
      ensures !reorg ==> old(knownSections) <= knownSections
      ensures !reorg && knownSections > old(knownSections) ==>
        Start(knownSections, sectionSize) + confirmsReq <= head + 1
      ensures !reorg ==> head + 1 < confirmsReq + Start(knownSections + 1, sectionSize) || head < confirmsReq
    {
      hide LinkedSections, Matches;
      if reorg {
        var known := SectionOf(head, sectionSize);
        var stored := known;
        if known < knownSections {
          knownSections := known;
        }
        if stored < storedSections {
          SetValidSections(stored);
        }
        ShrunkNot(old(Contents()));
        ShrunkMore(old(Contents()), old(Contents()), stored);
        ShrunkKeeps(tree, sectionSize, old(Contents()), Contents());
        var finalized := Start(known, sectionSize);
        if finalized < cascadedHead {
          cascadedHead := finalized;
          cascaded := cascaded + [(finalized, true)];
        }
        return;
      }
      if head >= confirmsReq {
        var sections := SectionOf(head + 1 - confirmsReq, sectionSize);
        WholeSections(head + 1 - confirmsReq, sectionSize);
        StartMonotone(sections, knownSections, sectionSize);
        if sections > knownSections {
          knownSections := sections;
        }
      }
    }

    /** The notices from one place in the list to another. */
    method Deliver(arriving: seq<Notified>, from: nat, to: nat)
      requires sectionSize > 0 && from <= to <= |arriving|
      modifies this
      ensures Contents() == CutAll(old(Contents()), Reorgs(arriving[from..to], sectionSize))
      ensures Beyond() == AfterAll(old(Beyond()), arriving[from..to], sectionSize, confirmsReq)
    {
      hide Cut, After;
      assert arriving[from..from] == [];
      for i := from to to
        invariant Contents() == CutAll(old(Contents()), Reorgs(arriving[from..i], sectionSize))
        invariant Beyond() == AfterAll(old(Beyond()), arriving[from..i], sectionSize, confirmsReq)
      {
        ghost var some := arriving[from..i + 1];
        assert some[..|some| - 1] == arriving[from..i] && some[|some| - 1] == arriving[i];
        ghost var cuts := Reorgs(some, sectionSize);
        assert arriving[i].reorg ==> cuts[..|cuts| - 1] == Reorgs(arriving[from..i], sectionSize);
        NewHead(arriving[i].head, arriving[i].reorg);
      }
    }

    /** One statement of a call that sets the number of sections. */
    method Advance(call: Call) returns (next: Call)
      modifies this`count, this`storedSections, this`heads
      ensures (Contents(), next) == Stepped(old(Contents()), call)
    {
      match call.at
      case Write =>
        count, next := call.to, call.(at := Test);
      case Test =>
        next := call.(at := if storedSections > call.to then CountDown else Set);
      case CountDown =>
        storedSections, next := CountedDown(storedSections), call.(at := Remove);
      case Remove =>
        heads, next := heads - {storedSections}, call.(at := Test);
      case Set =>
        storedSections, next := call.to, call.(at := Out);
      case Out =>
        next := call;
    }

    /** A notice gets the lock. If it has to cut the index, that goes on in statements of its own. */
    method Arrive(head: nat, reorg: bool) returns (cuts: bool)
      requires sectionSize > 0
      modifies this
      ensures Contents() == old(Contents())
      ensures cuts <==> reorg && SectionOf(head, sectionSize) < storedSections
    {
      cuts := reorg && SectionOf(head, sectionSize) < storedSections;
      if cuts {
        knownSections := Smaller(knownSections, SectionOf(head, sectionSize));
      } else {
        NewHead(head, reorg);
      }
    }

    /** One statement of a notice that cuts. At the end the cut is passed on to the children. */
    method NoticeStatement(call: Call) returns (next: Call)
      modifies this
      ensures (Contents(), next) == Stepped(old(Contents()), call)
    {
      next := Advance(call);
      var finalized := Start(call.to, sectionSize);
      if call.at.Set? && finalized < cascadedHead {
        cascadedHead := finalized;
        cascaded := cascaded + [(finalized, true)];
      }
    }

    /** Some of the statements of notices that are still to come run between two statements of a
        reset. */
    method Interrupt(arriving: seq<Notified>, ghost from: nat, at: nat, coming: nat, call: Call, ghost start: Scene,
                     ghost events: seq<Event>)
      returns (to: nat, left: nat, next: Call, ghost more: seq<Event>)
      requires sectionSize > 0 && from <= at <= |arriving|
      requires Run(start, events).index == Contents() && Run(start, events).notice == call
      requires Entered(start, events) == Reorgs(arriving[from..at], sectionSize)
      modifies this
      ensures Run(start, more).index == Contents() && Run(start, more).notice == next
      ensures Run(start, more).reset == Run(start, events).reset
      ensures at <= to <= |arriving| && Entered(start, more) == Reorgs(arriving[from..to], sectionSize)
      ensures left <= coming && (left == coming ==> Contents() == old(Contents()))
    {
      hide Run, Entered, Reorgs, Stepped;
      to, left, next, more := at, coming, call, events;
      var goesOn: bool := *;
      while left > 0 && goesOn
        invariant Run(start, more).index == Contents() && Run(start, more).notice == next
        invariant Run(start, more).reset == Run(start, events).reset
        invariant at <= to <= |arriving| && Entered(start, more) == Reorgs(arriving[from..to], sectionSize)
        invariant left <= coming && (left == coming ==> Contents() == old(Contents()))
      {
        if next.at.Out? {
          if to < |arriving| {
            var notice := arriving[to];
            var section := SectionOf(notice.head, sectionSize);
            var cuts := Arrive(notice.head, notice.reorg);
            OneMoreReorg(arriving, from, to, sectionSize);
            if notice.reorg {
              RunMore(start, more, Notice(section));
              more := more + [Notice(section)];
            }
            next := if cuts then Call(section, Write) else next;
            to := to + 1;
          }
        } else {
          RunMore(start, more, OfNotice);
          more := more + [OfNotice];
          next := NoticeStatement(next);
        }
        left := left - 1;
        goesOn := *;
      }
    }

    /** Drops all sections without the lock: the statements of `SetValidSections(0)`, with
        statements of notices, finitely many in all, between any two of them. A notice that is not
        done by then goes on alone. */
    method DropAll(arriving: seq<Notified>, from: nat) returns (to: nat, ghost events: seq<Event>)
      requires sectionSize > 0 && from <= |arriving|
      modifies this
      ensures from <= to <= |arriving|
      ensures Entered(Entering(old(Contents())), events) == Reorgs(arriving[from..to], sectionSize)
      ensures Over(Run(Entering(old(Contents())), events))
      ensures Contents() == Run(Entering(old(Contents())), events).index
    {
      hide Run, Entered, Reorgs;
      ghost var start := Entering(Contents());
      var coming: nat := *;
      var call := Call(0, Out);
      to, events := from, [];
      RunNone(start);
      NoReorgs(arriving, from, sectionSize);
      to, coming, call, events := Interrupt(arriving, from, to, coming, call, start, events);
      RunMore(start, events, OfReset);
      count, events := 0, events + [OfReset];
      to, coming, call, events := Interrupt(arriving, from, to, coming, call, start, events);
      RunMore(start, events, OfReset);
      events := events + [OfReset];
      while storedSections > 0
        invariant Run(start, events).index == Contents() && Run(start, events).notice == call
        invariant from <= to <= |arriving| && Entered(start, events) == Reorgs(arriving[from..to], sectionSize)
        invariant Run(start, events).reset == Call(0, if storedSections > 0 then CountDown else Set)
        decreases coming, storedSections
      {
        to, coming, call, events := Interrupt(arriving, from, to, coming, call, start, events);
        RunMore(start, events, OfReset);
        storedSections, events := CountedDown(storedSections), events + [OfReset];
        to, coming, call, events := Interrupt(arriving, from, to, coming, call, start, events);
        RunMore(start, events, OfReset);
        heads, events := heads - {storedSections}, events + [OfReset];
        to, coming, call, events := Interrupt(arriving, from, to, coming, call, start, events);
        RunMore(start, events, OfReset);
        events := events + [OfReset];
      }
      to, coming, call, events := Interrupt(arriving, from, to, coming, call, start, events);
      RunMore(start, events, OfReset);
      storedSections, events := 0, events + [OfReset];
      while !call.at.Out?
        invariant Run(start, events).index == Contents() && Run(start, events).notice == call
        invariant Entered(start, events) == Reorgs(arriving[from..to], sectionSize)
        invariant Run(start, events).reset == Call(0, Out)
        decreases Phase(call), Height(Contents(), call), Rank(call)
      {
        RunMore(start, events, OfNotice);
        events := events + [OfNotice];
        call := NoticeStatement(call);
      }
    }

    /** The walk through the section without the lock, after a successful reset. Notices arrive at
        any time. */
    method Walk(section: nat, lastHead: nat, a: Answers, arriving: seq<Notified>) returns (head: Option<nat>, at: nat)
      requires sectionSize > 0 && Possible(tree, sectionSize, section, a) && !a.resetFails
      modifies this
      ensures head.Some? <==> Succeeds(tree, a, lastHead)
      ensures head.Some? ==> head == a.blocks[sectionSize - 1]
      ensures head.Some? ==>
        head.value in tree && Leads(tree, lastHead, head.value, Start(section, sectionSize), sectionSize)
      ensures at <= |arriving|
      ensures Contents() == CutAll(old(Contents()), Reorgs(arriving[..at], sectionSize))
      ensures Beyond() == AfterAll(old(Beyond()), arriving[..at], sectionSize, confirmsReq)
    {
      hide Linked, Start, Reorgs, CutAll, AfterAll, Accepts;
      var start := Start(section, sectionSize);
      var number := start;
      var last := lastHead;
      at := 0;
      ghost var run: seq<nat> := [];
      LinkedNone(tree, lastHead, start);
      NothingArrived(Contents(), Beyond(), arriving, sectionSize, confirmsReq);
      while number < start + sectionSize
        invariant at <= |arriving|
        invariant Contents() == CutAll(old(Contents()), Reorgs(arriving[..at], sectionSize))
        invariant Beyond() == AfterAll(old(Beyond()), arriving[..at], sectionSize, confirmsReq)
        invariant start <= number <= start + sectionSize
        invariant |run| == number - start && Linked(tree, run, lastHead, start)
        invariant last == if run == [] then lastHead else run[|run| - 1]
        invariant run != [] ==> a.blocks[|run| - 1] == Some(last)
        invariant forall k :: 0 <= k < |run| ==> Accepts(tree, a, lastHead, k)
      {
        var next: nat :| at <= next <= |arriving|;
        MoreArrived(old(Contents()), old(Beyond()), arriving, at, next, sectionSize, confirmsReq);
        Deliver(arriving, at, next);
        at := next;
        var block := a.blocks[number - start];
        AcceptsIff(tree, a, lastHead, last, number - start);
        if block.None? {
          return None, at;
        }
        if tree[block.value].parent != last {
          return None, at;
        }
        if a.processFails[number - start] {
          return None, at;
        }
        LinkedMore(tree, run, lastHead, start, block.value);
        run := run + [block.value];
        last := block.value;
        number := number + 1;
      }
      if a.commitFails {
        return None, at;
      }
      LeadsBy(tree, run, lastHead, start);
      head := Some(last);
    }

    /** Processes a section. It fails when a block is missing, when the blocks do not link up, or
        when the backend fails; a failing reset drops all sections, and `reset` is what happened then.
        All the notices have arrived when it ends. */
    method ProcessSection(section: nat, lastHead: nat, a: Answers, arriving: seq<Notified>)
      returns (head: Option<nat>, ghost reset: Option<Reset>)
      requires sectionSize > 0 && Possible(tree, sectionSize, section, a)
      modifies this
      ensures head.Some? <==> Succeeds(tree, a, lastHead)
      ensures head.Some? ==> head == a.blocks[sectionSize - 1]
      ensures head.Some? ==>
        head.value in tree && Leads(tree, lastHead, head.value, Start(section, sectionSize), sectionSize)
      ensures reset.Some? <==> a.resetFails
      ensures reset.None? ==>
        && Contents() == CutAll(old(Contents()), Reorgs(arriving, sectionSize))
        && Beyond() == AfterAll(old(Beyond()), arriving, sectionSize, confirmsReq)
      ensures reset.Some? ==> Dropped(old(Contents()), reset.value, Contents(), Reorgs(arriving, sectionSize))
    {
      hide Leads, Start, Run, Entered, Reorgs, CutAll, AfterAll, Accepts;
      reset := None;
      var at: nat := 0;
      if a.resetFails {
        var some: nat :| some <= |arriving|;
        Deliver(arriving, 0, some);
        ghost var before := Contents();
        ghost var events;
        at, events := DropAll(arriving, some);
        Deliver(arriving, at, |arriving|);
        ThreeParts(arriving, some, at, sectionSize);
        reset := Some(Reset(Reorgs(arriving[0..some], sectionSize), before, events,
                            Reorgs(arriving[at..|arriving|], sectionSize)));
        return None, reset;
      }
      head, at := Walk(section, lastHead, a, arriving);
      MoreArrived(old(Contents()), old(Beyond()), arriving, at, |arriving|, sectionSize, confirmsReq);
      Deliver(arriving, at, |arriving|);
      assert arriving[..|arriving|] == arriving;
    }

    /** One turn of the update loop: processes the next section if one is known to be complete, while
        notices arrive. `reset` is what happened if the reset failed. */
    method Update(a: Answers, arriving: seq<Notified>) returns (ghost reset: Option<Reset>)
      requires sectionSize > 0 && NO_HASH !in tree && Possible(tree, sectionSize, storedSections, a)
      modifies this
      ensures old(knownSections <= storedSections) ==>
        Contents() == old(Contents()) && Beyond() == old(Beyond()) && reset.None?
      ensures old(knownSections > storedSections) ==> (reset.Some? <==> a.resetFails)
      ensures old(Sound()) && reset.None? ==> Sound()
      ensures old(Valid()) && (reset.None? || Harmless(old(storedSections), Reorgs(arriving, sectionSize))) ==> Valid()
      ensures old(Sound() && knownSections > storedSections) && !a.resetFails ==>
        var n := old(storedSections);
        var cuts := Reorgs(arriving, sectionSize);
        var beyond := AfterAll(old(Beyond()), arriving, sectionSize, confirmsReq);
        if Succeeds(tree, a, HeadBefore(old(heads), n)) && forall k :: k in cuts ==> k >= n then
          && a.blocks[sectionSize - 1].Some?
          && Contents() == Index(n + 1, n + 1, old(heads)[n := a.blocks[sectionSize - 1].value])
          && knownSections == beyond.known && cascadedHead + 1 == Start(n + 1, sectionSize)
          && cascaded == beyond.cascaded + [(cascadedHead, false)]
        else
          && Contents() == CutAll(old(Contents()), cuts)
          && Beyond() == beyond.(known := storedSections)
      ensures reset.Some? ==>
        knownSections == storedSections
        && Dropped(old(Contents()), reset.value, Contents(), Reorgs(arriving, sectionSize))
    {
      reset := None;
      hide LinkedSections, Leads, Start, Run, Entered, Dropped, Harmless, Succeeds, CutAll, AfterAll, Reorgs;
      if knownSections > storedSections {
        var section := storedSections;
        var oldHead := NO_HASH;
        if section > 0 {
          oldHead := HeadBefore(heads, section);
        }
        var newHead;
        newHead, reset := ProcessSection(section, oldHead, a, arriving);
        ghost var d, e, cuts := old(Contents()), Contents(), Reorgs(arriving, sectionSize);
        if reset.None? {
          CutAllShrinks(d, cuts);
          CutAllStored(d, cuts);
          ShrunkKeeps(tree, sectionSize, d, e);
        } else if old(Valid()) && Harmless(section, cuts) {
          DroppedHarmless(d, reset.value, e, cuts);
          NoSections(tree, sectionSize, heads);
        }
        SucceedsUnlessReset(tree, a, oldHead);
        if newHead.Some? && oldHead == HeadBefore(heads, section) {
          if old(Sound()) {
            SameSection(tree, sectionSize, d, e);
            SectionsGrow(tree, sectionSize, heads, section, newHead.value);
          }
          heads := heads[section := newHead.value];
          ghost var grown := heads;
          SetValidSections(section + 1);
          if old(Sound()) {
            assert heads == grown;
          }
          SectionEnd(storedSections, sectionSize);
          cascadedHead := Start(storedSections, sectionSize) - 1;
          cascaded := cascaded + [(cascadedHead, false)];
        } else {
          if old(Sound()) && newHead.Some? {
            OtherSection(d, e);
          }
          knownSections := storedSections;
        }
      }
    }
  }

  /** The quotient counts the sections that are complete. */
  lemma WholeSections(blocks: nat, size: nat)
    requires size > 0
    ensures Start(blocks / size, size) <= blocks < Start(blocks / size + 1, size)
  {
    assert blocks == (blocks / size) * size + blocks % size;
  }

  lemma StartMonotone(a: nat, b: nat, size: nat)
    ensures a <= b ==> Start(a + 1, size) <= Start(b + 1, size)
  {
    if a <= b {
      assert (b + 1) * size == (a + 1) * size + (b - a) * size;
    }
  }

  lemma SectionEnd(n: nat, size: nat)
    requires n > 0 && size > 0
    ensures Start(n, size) >= 1
  {
  }
}
