/** The header chain: a tree of headers, the total difficulty of each, and the index from block
    numbers to the hashes of the canonical chain, kept while headers arrive in any order that
    puts parents first. */
module HeaderChains {
  import opened TimeLockItems
  import opened FsnTypes

  datatype Header = Header(hash: Hash, parent: Hash, number: nat, difficulty: int)

  type Headers = map<Hash, Header>

  /** Every header but the genesis has a known parent numbered one less. */
  ghost predicate Tree(headers: Headers, genesis: Header) {
    && genesis.hash in headers && headers[genesis.hash] == genesis && genesis.number == 0
    && forall h :: h in headers ==>
         && headers[h].hash == h
         && (h != genesis.hash ==>
               && headers[h].parent in headers
               && headers[h].number == headers[headers[h].parent].number + 1)
  }

  /** The sum of the difficulties from the genesis to a header. */
  ghost function TotalDifficulty(headers: Headers, genesis: Header, h: Hash): int
    requires Tree(headers, genesis) && h in headers
    decreases headers[h].number
  {
    if h == genesis.hash then genesis.difficulty
    else headers[h].difficulty + TotalDifficulty(headers, genesis, headers[h].parent)
  }

  /** Storing one more header changes no sum. */
  lemma {:induction false} TotalDifficultyKept(headers: Headers, genesis: Header, header: Header, h: Hash)
    requires Tree(headers, genesis) && h in headers
    requires Tree(headers[header.hash := header], genesis)
    requires header.hash in headers ==> headers[header.hash] == header
    ensures TotalDifficulty(headers[header.hash := header], genesis, h) == TotalDifficulty(headers, genesis, h)
    decreases headers[h].number
  {
    if h != genesis.hash {
      TotalDifficultyKept(headers, genesis, header, headers[h].parent);
    }
  }

  /** The index is a parent-linked chain from the genesis to the head, with nothing above it. */
  ghost predicate CanonicalChain(canonical: map<nat, Hash>, headers: Headers, genesis: Header, head: Header) {
    && (forall n: nat :: n in canonical <==> n <= head.number)
    && canonical[0] == genesis.hash && canonical[head.number] == head.hash
    && LinkedUpTo(canonical, headers, head.number)
  }

  /** The entries up to n name stored headers of their number, each the parent of the next. */
  ghost predicate LinkedUpTo(canonical: map<nat, Hash>, headers: Headers, n: nat) {
    && (forall k: nat :: k <= n ==> k in canonical && canonical[k] in headers && headers[canonical[k]].number == k)
    && (forall j: nat, k: nat :: j < k <= n && k == j + 1 ==> headers[canonical[k]].parent == canonical[j])
  }

  /** Total difficulties are the sums along the ancestors, and the head has the largest. */
  ghost predicate BestHead(td: map<Hash, int>, headers: Headers, genesis: Header, head: Header)
    requires Tree(headers, genesis)
  {
    && td.Keys == headers.Keys && head.hash in headers && headers[head.hash] == head
    && (forall h :: h in headers ==> td[h] == TotalDifficulty(headers, genesis, h))
    && (forall h :: h in headers ==> td[h] <= td[head.hash])
  }

  // ---------- Rewriting the index ----------

  /** Positions above `at` up to `top` already name the new branch, which hangs on `hash` at `at`;
      positions up to `at` are as they were. */
  ghost predicate Rewriting(canonical: map<nat, Hash>, was: map<nat, Hash>, headers: Headers, at: nat, hash: Hash,
                            top: nat) {
    && at <= top && hash in headers && headers[hash].number == at
    && (forall k: nat :: k <= at ==> (k in canonical <==> k in was) && (k in was ==> canonical[k] == was[k]))
    && (forall k: nat :: at < k <= top ==>
         k in canonical && canonical[k] in headers && headers[canonical[k]].number == k)
    && (forall j: nat, k: nat :: at < j < k <= top && k == j + 1 ==> headers[canonical[k]].parent == canonical[j])
    && (at < top ==> headers[canonical[at + 1]].parent == hash)
    && (forall k: nat :: k > top + 1 ==> k !in canonical)
  }

  lemma ParentStored(headers: Headers, genesis: Header, hash: Hash)
    requires Tree(headers, genesis) && hash in headers && headers[hash].number > 0
    ensures hash != genesis.hash && headers[hash].parent in headers
    ensures headers[headers[hash].parent].number == headers[hash].number - 1
  {
  }

  lemma KnownParent(headers: Headers, genesis: Header, header: Header)
    requires Tree(headers, genesis) && header.hash in headers && headers[header.hash] == header
    requires header.hash != genesis.hash
    ensures header.parent in headers && header.number == headers[header.parent].number + 1
  {
  }

  lemma RewriteStep(canonical: map<nat, Hash>, was: map<nat, Hash>, headers: Headers, genesis: Header, at: nat,
                    hash: Hash, top: nat)
    requires Tree(headers, genesis) && Rewriting(canonical, was, headers, at, hash, top) && at > 0
    ensures hash != genesis.hash && headers[hash].parent in headers
    ensures Rewriting(canonical[at := hash], was, headers, at - 1, headers[hash].parent, top)
  {
    hide Tree;
    ParentStored(headers, genesis, hash);
    var c' := canonical[at := hash];
    forall j: nat, k: nat | at - 1 < j < k <= top && k == j + 1 ensures headers[c'[k]].parent == c'[j] {
      if j > at {
        assert headers[canonical[k]].parent == canonical[j];
      }
    }
  }

  /** Where the new branch meets the old index the whole index is linked again. */
  lemma RewriteMeets(canonical: map<nat, Hash>, was: map<nat, Hash>, headers: Headers, at: nat, hash: Hash, top: nat)
    requires Rewriting(canonical, was, headers, at, hash, top)
    requires at in canonical && canonical[at] == hash
    requires LinkedUpTo(was, headers, at)
    ensures LinkedUpTo(canonical, headers, top)
  {
    forall j: nat, k: nat | j < k <= top && k == j + 1 ensures headers[canonical[k]].parent == canonical[j] {
      if k <= at {
        assert canonical[k] == was[k] && canonical[j] == was[j];
      }
    }
  }

  lemma OnlyGenesisAtZero(headers: Headers, genesis: Header, h: Hash)
    requires Tree(headers, genesis) && h in headers && headers[h].number == 0
    ensures h == genesis.hash
  {
  }

  /** The new header on top of the rewritten index. */
  lemma RewriteDone(canonical: map<nat, Hash>, was: map<nat, Hash>, headers: Headers, genesis: Header, at: nat,
                    hash: Hash, header: Header)
    requires Tree(headers, genesis) && header.hash in headers && headers[header.hash] == header && header.number > 0
    requires Rewriting(canonical, was, headers, at, hash, header.number - 1)
    requires at in canonical && canonical[at] == hash && LinkedUpTo(was, headers, at) && was[0] == genesis.hash
    requires at < header.number - 1 ==> canonical[header.number - 1] == header.parent
    requires at == header.number - 1 ==> hash == header.parent
    ensures CanonicalChain(canonical[header.number := header.hash], headers, genesis, header)
  {
    hide Tree;
    var n := header.number - 1;
    RewriteMeets(canonical, was, headers, at, hash, n);
    assert canonical[n] == header.parent;
    assert forall k: nat :: k > n + 1 ==> k !in canonical;
    hide Rewriting;
    ExtendTop(canonical, headers, genesis, header);
  }

  lemma ExtendTop(canonical: map<nat, Hash>, headers: Headers, genesis: Header, header: Header)
    requires Tree(headers, genesis) && header.hash in headers && headers[header.hash] == header && header.number > 0
    requires LinkedUpTo(canonical, headers, header.number - 1) && canonical[header.number - 1] == header.parent
    requires forall k: nat :: k > header.number ==> k !in canonical
    ensures CanonicalChain(canonical[header.number := header.hash], headers, genesis, header)
  {
    OnlyGenesisAtZero(headers, genesis, canonical[0]);
    hide Tree;
    LinkTop(canonical, headers, header);
    hide LinkedUpTo;
    var c' := canonical[header.number := header.hash];
    forall n: nat ensures n in c' <==> n <= header.number {
      LinkedIn(c', headers, header.number, n);
    }
  }

  lemma LinkedIn(canonical: map<nat, Hash>, headers: Headers, n: nat, k: nat)
    requires LinkedUpTo(canonical, headers, n)
    ensures k <= n ==> k in canonical
  {
  }

  lemma LinkTop(canonical: map<nat, Hash>, headers: Headers, header: Header)
    requires header.hash in headers && headers[header.hash] == header && header.number > 0
    requires LinkedUpTo(canonical, headers, header.number - 1) && canonical[header.number - 1] == header.parent
    ensures LinkedUpTo(canonical[header.number := header.hash], headers, header.number)
  {
  }

  lemma TreeGrows(headers: Headers, genesis: Header, header: Header)
    requires Tree(headers, genesis) && header.parent in headers && header.number == headers[header.parent].number + 1
    requires header.hash in headers ==> headers[header.hash] == header
    ensures Tree(headers[header.hash := header], genesis)
  {
  }

  lemma ChainKept(canonical: map<nat, Hash>, headers: Headers, genesis: Header, head: Header, header: Header)
    requires CanonicalChain(canonical, headers, genesis, head)
    requires header.hash in headers ==> headers[header.hash] == header
    ensures CanonicalChain(canonical, headers[header.hash := header], genesis, head)
  {
    LinkedKept(canonical, headers, header, head.number);
  }

  lemma BestParts(td: map<Hash, int>, headers: Headers, genesis: Header, head: Header)
    requires Tree(headers, genesis) && BestHead(td, headers, genesis, head)
    ensures td.Keys == headers.Keys && head.hash in headers
  {
  }

  lemma LinkedKept(canonical: map<nat, Hash>, headers: Headers, header: Header, n: nat)
    requires LinkedUpTo(canonical, headers, n)
    requires header.hash in headers ==> headers[header.hash] == header
    ensures LinkedUpTo(canonical, headers[header.hash := header], n)
  {
  }

  /** Storing a header under a known parent, with its total difficulty. */
  lemma StoreHeader(td: map<Hash, int>, headers: Headers, genesis: Header, head: Header, header: Header)
    requires Tree(headers, genesis) && BestHead(td, headers, genesis, head)
    requires header.parent in headers && header.number == headers[header.parent].number + 1
    requires header.hash in headers ==> headers[header.hash] == header
    ensures var headers' := headers[header.hash := header];
            var extern := header.difficulty + td[header.parent];
            var td' := td[header.hash := extern];
            && Tree(headers', genesis) && header.hash != genesis.hash
            && (header.hash in td ==> td[header.hash] == extern)
            && (extern <= td[head.hash] ==> BestHead(td', headers', genesis, head))
            && (extern >= td[head.hash] ==> BestHead(td', headers', genesis, header))
  {
    TreeGrows(headers, genesis, header);
    var headers' := headers[header.hash := header];
    forall h | h in headers ensures TotalDifficulty(headers', genesis, h) == TotalDifficulty(headers, genesis, h) {
      TotalDifficultyKept(headers, genesis, header, h);
    }
    assert header.hash != genesis.hash;
    assert TotalDifficulty(headers', genesis, header.hash) ==
      header.difficulty + TotalDifficulty(headers', genesis, header.parent);
  }

  // ---------- Ancestors ----------

  /** The plain walk: n times to the parent. */
  ghost function Ancestor(headers: Headers, genesis: Header, h: Hash, n: nat): Hash
    requires Tree(headers, genesis) && h in headers && n <= headers[h].number
    decreases n
  {
    if n == 0 then h else Ancestor(headers, genesis, headers[h].parent, n - 1)
  }

  lemma {:induction false} AncestorStep(headers: Headers, genesis: Header, h: Hash, n: nat)
    requires Tree(headers, genesis) && h in headers && n < headers[h].number
    ensures Ancestor(headers, genesis, h, n) in headers
    ensures headers[Ancestor(headers, genesis, h, n)].number == headers[h].number - n
    ensures Ancestor(headers, genesis, h, n + 1) == headers[Ancestor(headers, genesis, h, n)].parent
    decreases n
  {
    if n > 0 {
      AncestorStep(headers, genesis, headers[h].parent, n - 1);
    }
  }

  /** Ancestors of canonical blocks are found in the index. */
  lemma {:induction false} CanonicalAncestor(canonical: map<nat, Hash>, headers: Headers, genesis: Header, top: nat,
                                             n: nat, k: nat)
    requires Tree(headers, genesis) && LinkedUpTo(canonical, headers, top) && k <= n <= top
    ensures Ancestor(headers, genesis, canonical[n], k) == canonical[n - k]
    decreases k
  {
    hide Tree, LinkedUpTo;
    LinkedParent(canonical, headers, top, n);
    if k > 0 {
      CanonicalAncestor(canonical, headers, genesis, top, n - 1, k - 1);
    }
  }

  lemma LinkedParent(canonical: map<nat, Hash>, headers: Headers, top: nat, n: nat)
    requires LinkedUpTo(canonical, headers, top) && n <= top
    ensures n in canonical && canonical[n] in headers && headers[canonical[n]].number == n
    ensures n > 0 ==> n - 1 in canonical && canonical[n - 1] in headers
    ensures n > 0 ==> headers[canonical[n - 1]].number == n - 1 && headers[canonical[n]].parent == canonical[n - 1]
  {
  }

  lemma {:induction false} AncestorOfAncestor(headers: Headers, genesis: Header, h: Hash, n: nat, k: nat)
    requires Tree(headers, genesis) && h in headers && n + k <= headers[h].number
    ensures Ancestor(headers, genesis, h, n) in headers
    ensures headers[Ancestor(headers, genesis, h, n)].number == headers[h].number - n
    ensures Ancestor(headers, genesis, Ancestor(headers, genesis, h, n), k) == Ancestor(headers, genesis, h, n + k)
    decreases n
  {
    if n > 0 {
      AncestorOfAncestor(headers, genesis, headers[h].parent, n - 1, k);
    }
  }

  predicate IsCanonical(canonical: map<nat, Hash>, hash: Hash, number: nat) {
    number in canonical && canonical[number] == hash
  }

  /** One of the first blocks of the walk, within the budget, is canonical. */
  ghost predicate MeetsIndex(canonical: map<nat, Hash>, headers: Headers, genesis: Header, h: Hash, ancestor: nat,
                             budget: nat)
    requires Tree(headers, genesis) && h in headers && ancestor <= headers[h].number
  {
    exists j: nat ::
      j <= budget && j < ancestor && IsCanonical(canonical, Ancestor(headers, genesis, h, j), headers[h].number - j)
  }

  /** The walk has used up one unit of the budget for each block before the first canonical one. */
  ghost predicate Spent(canonical: map<nat, Hash>, headers: Headers, genesis: Header, h: Hash, ancestor: nat,
                        budget: nat, used: nat)
    requires Tree(headers, genesis) && h in headers && ancestor <= headers[h].number
  {
    && used <= ancestor && used <= budget
    && (forall i: nat :: i < used ==> !IsCanonical(canonical, Ancestor(headers, genesis, h, i), headers[h].number - i))
    && (used == ancestor || used == budget
        || IsCanonical(canonical, Ancestor(headers, genesis, h, used), headers[h].number - used))
  }

  datatype WriteStatus = NonStat | CanonStat | SideStat

  class HeaderChain {
    const genesis: Header
    var headers: Headers
    var td: map<Hash, int>
    var canonical: map<nat, Hash>
    var current: Header

    ghost predicate Valid()
      reads this
    {
      && Tree(headers, genesis) && CanonicalChain(canonical, headers, genesis, current)
      && BestHead(td, headers, genesis, current)
    }

    constructor (genesis: Header)
      requires genesis.number == 0
      ensures Valid() && this.genesis == genesis && current == genesis
    {
      this.genesis := genesis;
      headers := map[genesis.hash := genesis];
      td := map[genesis.hash := genesis.difficulty];
      canonical := map[0 := genesis.hash];
      current := genesis;
    }

    /** Writes a header whose parent is known. If its total difficulty is larger than that of the
        head, or equal and the coin says so, the index is rewritten to end in it. */
    method WriteHeader(header: Header, coin: bool) returns (status: WriteStatus)
      requires Valid()
      requires header.hash in headers ==> headers[header.hash] == header
      requires header.parent in headers ==> header.number == headers[header.parent].number + 1
      modifies this
      ensures Valid()
      ensures status.NonStat? <==> header.parent !in old(headers)
      ensures status.NonStat? ==> headers == old(headers) && td == old(td)
      ensures !status.NonStat? ==>
        && headers == old(headers)[header.hash := header]
        && td == old(td)[header.hash := header.difficulty + old(td)[header.parent]]
        && (status.CanonStat? <==> td[header.hash] > old(td)[old(current.hash)]
                                   || (td[header.hash] == old(td)[old(current.hash)] && coin))
      ensures if status.CanonStat? then current == header else current == old(current) && canonical == old(canonical)
      ensures td[current.hash] >= old(td[current.hash])
    {
      hide TotalDifficulty, Tree, BestHead, CanonicalChain;
      BestParts(td, headers, genesis, current);
      if header.parent !in td {
        return NonStat;
      }
      StoreHeader(td, headers, genesis, current, header);
      ChainKept(canonical, headers, genesis, current, header);
      var localTd := td[current.hash];
      var externTd := header.difficulty + td[header.parent];
      td := td[header.hash := externTd];
      headers := headers[header.hash := header];
      if externTd > localTd || (externTd == localTd && coin) {
        MakeHead(header);
        return CanonStat;
      }
      return SideStat;
    }

    /** A header by hash and number. The cache goes by the hash alone, so with a number that is not
        the header's own it depends on the cache whether it is found. */
    method GetHeader(hash: Hash, number: nat) returns (header: Option<Header>)
      ensures hash !in headers ==> header.None?
      ensures hash in headers && headers[hash].number == number ==> header.Some?
      ensures header.Some? ==> header.value == headers[hash]
    {
      var cached: bool := *;
      header := if hash in headers && (cached || headers[hash].number == number) then Some(headers[hash]) else None;
    }

    /** The n-th ancestor of a block, taken from the index as soon as the walk meets it. The answer
        is never another block, even if the number is not the block's own; with its own number it
        fails exactly when the budget runs out before the index is met. */
    method GetAncestor(hash: Hash, number: nat, ancestor: nat, maxNonCanonical: nat)
      returns (r: Option<(Hash, nat)>, budget: nat)
      requires Valid()
      ensures ancestor > number ==> r.None?
      ensures hash !in headers ==> (r.Some? <==> ancestor == 0)
      ensures hash in headers && headers[hash].number == number && ancestor <= number ==>
        (r.Some? <==> ancestor <= 1 || ancestor <= maxNonCanonical
                      || MeetsIndex(canonical, headers, genesis, hash, ancestor, maxNonCanonical))
      ensures r.Some? && hash in headers && ancestor <= headers[hash].number ==>
        r.value == (Ancestor(headers, genesis, hash, ancestor), number - ancestor)
      ensures budget <= maxNonCanonical && (ancestor > number || ancestor <= 1 ==> budget == maxNonCanonical)
      ensures hash in headers && headers[hash].number == number && 1 < ancestor <= number ==>
        Spent(canonical, headers, genesis, hash, ancestor, maxNonCanonical, maxNonCanonical - budget)
    {
      hide BestHead, LinkedUpTo, Tree, CanonicalChain, WalkedTo, MeetsIndex, Spent;
      budget := maxNonCanonical;
      if ancestor > number {
        return None, budget;
      }
      if ancestor == 1 {
        var header := GetHeader(hash, number);
        if header.Some? {
          OneStep(headers, genesis, hash);
          return Some((header.value.parent, number - 1)), budget;
        }
        return None, budget;
      }
      var at, n, left := hash, number, ancestor;
      ghost var j: nat := 0;
      WalkStarts(canonical, headers, genesis, hash, number);
      while left != 0
        invariant j <= ancestor <= number && left == ancestor - j && n == number - j && budget == maxNonCanonical - j
        invariant WalkedTo(canonical, headers, genesis, hash, number, at, j)
        decreases left
      {
        if n in canonical && canonical[n] == at {
          WalkMeets(canonical, headers, genesis, current, hash, number, at, j, ancestor, maxNonCanonical);
          n := n - left;
          return Some((canonical[n], n)), budget;
        }
        if budget == 0 {
          WalkFails(canonical, headers, genesis, hash, number, at, j, ancestor);
          return None, budget;
        }
        budget := budget - 1;
        left := left - 1;
        WalkHeader(canonical, headers, genesis, hash, number, at, j);
        var header := GetHeader(at, n);
        if header.None? {
          return None, budget;
        }
        WalkStep(canonical, headers, genesis, hash, number, at, j);
        at := header.value.parent;
        n := n - 1;
        j := j + 1;
      }
      WalkEnds(canonical, headers, genesis, hash, number, at, ancestor, maxNonCanonical);
      return Some((at, n)), budget;
    }

    /** Deletes the entries above a number, up to the first one that is missing. */
    method ClearAbove(number: nat, ghost height: nat)
      requires forall n: nat :: n in canonical <==> n <= height
      modifies this`canonical
      ensures forall n: nat :: n in canonical <==> n <= height && n <= number
      ensures forall n: nat :: n in canonical ==> canonical[n] == old(canonical)[n]
    {
      var i: nat := number + 1;
      while i in canonical
        invariant i > number && (i > height + 1 ==> i == number + 1)
        invariant forall n: nat :: n in canonical <==> n <= height && !(number < n < i)
        invariant forall n: nat :: n in canonical ==> canonical[n] == old(canonical)[n]
        decreases if height < i then 0 else height + 1 - i
      {
        canonical := canonical - {i};
        i := i + 1;
      }
    }

    /** Overwrites the entries below a header with its ancestors, down to where they agree. */
    method OverwriteBelow(header: Header) returns (ghost at: nat, ghost hash: Hash)
      requires Tree(headers, genesis) && 0 in canonical && canonical[0] == genesis.hash
      requires header.number > 0 && header.parent in headers && headers[header.parent].number == header.number - 1
      requires forall k: nat :: k > header.number ==> k !in canonical
      modifies this`canonical
      ensures Rewriting(canonical, old(canonical), headers, at, hash, header.number - 1)
      ensures at in canonical && canonical[at] == hash
      ensures at == header.number - 1 ==> hash == header.parent
      ensures at < header.number - 1 ==> canonical[header.number - 1] == header.parent
    {
      hide Rewriting, Tree;
      ghost var was := canonical;
      var top: nat := header.number - 1;
      var headHash, headNumber: nat := header.parent, top;
      var headHeader := headers[headHash];
      RewriteStart(canonical, headers, headNumber, headHash);
      while headNumber !in canonical || canonical[headNumber] != headHash
        invariant headNumber <= top && headHash in headers && headHeader == headers[headHash]
        invariant Rewriting(canonical, was, headers, headNumber, headHash, top)
        invariant headNumber == top ==> headHash == header.parent
        invariant headNumber < top ==> top in canonical && canonical[top] == header.parent
        decreases headNumber
      {
        MeetsAtZero(canonical, was, headers, genesis, headNumber, headHash, top);
        RewriteStep(canonical, was, headers, genesis, headNumber, headHash, top);
        canonical := canonical[headNumber := headHash];
        headHash := headHeader.parent;
        headNumber := headNumber - 1;
        headHeader := headers[headHash];
      }
      at, hash := headNumber, headHash;
    }

    /** Re-routes the index to a stored header. */
    method MakeHead(header: Header)
      requires Tree(headers, genesis) && CanonicalChain(canonical, headers, genesis, current)
      requires header.hash in headers && headers[header.hash] == header && header.hash != genesis.hash
      modifies this`canonical, this`current
      ensures CanonicalChain(canonical, headers, genesis, header) && current == header
    {
      hide CanonicalChain, Rewriting, LinkedUpTo, BestHead, Tree;
      KnownParent(headers, genesis, header);
      ghost var old0, height := canonical, current.number;
      ChainParts(canonical, headers, genesis, current);
      ClearAbove(header.number, height);
      ghost var was := canonical;
      ghost var at, hash := OverwriteBelow(header);
      LinkedPart(old0, was, canonical, headers, at, hash, header.number - 1, height);
      RewriteDone(canonical, was, headers, genesis, at, hash, header);
      canonical := canonical[header.number := header.hash];
      current := header;
    }
  }

  /** The walk has come to the j-th ancestor. With the block's own number it has not met the index. */
  ghost predicate WalkedTo(canonical: map<nat, Hash>, headers: Headers, genesis: Header, hash: Hash, number: nat,
                           at: Hash, j: nat)
    requires Tree(headers, genesis)
  {
    && (hash !in headers ==> j == 0 && at == hash)
    && (hash in headers && j <= headers[hash].number ==> at == Ancestor(headers, genesis, hash, j))
    && (hash in headers && headers[hash].number == number && j <= number ==>
          forall i: nat :: i < j ==> !IsCanonical(canonical, Ancestor(headers, genesis, hash, i), number - i))
  }

  lemma WalkStarts(canonical: map<nat, Hash>, headers: Headers, genesis: Header, hash: Hash, number: nat)
    requires Tree(headers, genesis)
    ensures WalkedTo(canonical, headers, genesis, hash, number, hash, 0)
  {
  }

  lemma OneStep(headers: Headers, genesis: Header, hash: Hash)
    requires Tree(headers, genesis) && hash in headers
    ensures headers[hash].number > 0 ==> headers[hash].parent == Ancestor(headers, genesis, hash, 1)
  {
    if headers[hash].number > 0 {
      AncestorStep(headers, genesis, hash, 0);
    }
  }

  /** On the block's own chain the header is stored under the number looked for. */
  lemma WalkHeader(canonical: map<nat, Hash>, headers: Headers, genesis: Header, hash: Hash, number: nat, at: Hash,
                   j: nat)
    requires Tree(headers, genesis) && WalkedTo(canonical, headers, genesis, hash, number, at, j) && j <= number
    ensures hash in headers && headers[hash].number == number ==> at in headers && headers[at].number == number - j
    ensures hash !in headers ==> at !in headers
  {
    if hash in headers && headers[hash].number == number {
      AncestorOfAncestor(headers, genesis, hash, j, 0);
    }
  }

  lemma WalkStep(canonical: map<nat, Hash>, headers: Headers, genesis: Header, hash: Hash, number: nat, at: Hash,
                 j: nat)
    requires Tree(headers, genesis) && WalkedTo(canonical, headers, genesis, hash, number, at, j)
    requires at in headers && j < number
    requires !IsCanonical(canonical, at, number - j)
    ensures WalkedTo(canonical, headers, genesis, hash, number, headers[at].parent, j + 1)
  {
    if hash in headers && j < headers[hash].number {
      AncestorStep(headers, genesis, hash, j);
    }
  }

  /** The index is met only on the way from the block's own number, and then it holds the ancestor. */
  lemma WalkMeets(canonical: map<nat, Hash>, headers: Headers, genesis: Header, head: Header, hash: Hash, number: nat,
                  at: Hash, j: nat, ancestor: nat, budget: nat)
    requires Tree(headers, genesis) && CanonicalChain(canonical, headers, genesis, head)
    requires WalkedTo(canonical, headers, genesis, hash, number, at, j) && j < ancestor <= number && j <= budget
    requires IsCanonical(canonical, at, number - j)
    ensures hash in headers && number - ancestor in canonical
    ensures ancestor <= headers[hash].number ==>
      canonical[number - ancestor] == Ancestor(headers, genesis, hash, ancestor)
    ensures headers[hash].number == number ==>
      && MeetsIndex(canonical, headers, genesis, hash, ancestor, budget)
      && Spent(canonical, headers, genesis, hash, ancestor, budget, j)
  {
    hide Ancestor, Tree;
    var n := number - j;
    assert n <= head.number && at in headers && headers[at].number == n;
    if ancestor <= headers[hash].number {
      AncestorOfAncestor(headers, genesis, hash, j, ancestor - j);
      CanonicalAncestor(canonical, headers, genesis, head.number, n, ancestor - j);
    }
    if headers[hash].number == number {
      assert IsCanonical(canonical, Ancestor(headers, genesis, hash, j), number - j);
    }
  }

  lemma WalkFails(canonical: map<nat, Hash>, headers: Headers, genesis: Header, hash: Hash, number: nat, at: Hash,
                  j: nat, ancestor: nat)
    requires Tree(headers, genesis) && WalkedTo(canonical, headers, genesis, hash, number, at, j)
    requires j < ancestor <= number
    requires !IsCanonical(canonical, at, number - j)
    ensures hash in headers && headers[hash].number == number ==>
      && !MeetsIndex(canonical, headers, genesis, hash, ancestor, j)
      && Spent(canonical, headers, genesis, hash, ancestor, j, j)
  {
  }

  lemma WalkEnds(canonical: map<nat, Hash>, headers: Headers, genesis: Header, hash: Hash, number: nat, at: Hash,
                 ancestor: nat, budget: nat)
    requires Tree(headers, genesis) && ancestor <= budget
    requires WalkedTo(canonical, headers, genesis, hash, number, at, ancestor) && ancestor <= number
    ensures hash !in headers ==> ancestor == 0
    ensures hash in headers && ancestor <= headers[hash].number ==> at == Ancestor(headers, genesis, hash, ancestor)
    ensures hash in headers && headers[hash].number == number ==>
      Spent(canonical, headers, genesis, hash, ancestor, budget, ancestor)
  {
  }

  lemma ChainParts(canonical: map<nat, Hash>, headers: Headers, genesis: Header, head: Header)
    requires CanonicalChain(canonical, headers, genesis, head)
    ensures forall n: nat :: n in canonical <==> n <= head.number
    ensures canonical[0] == genesis.hash && LinkedUpTo(canonical, headers, head.number)
  {
  }

  lemma RewriteStart(canonical: map<nat, Hash>, headers: Headers, at: nat, hash: Hash)
    requires hash in headers && headers[hash].number == at
    requires forall k: nat :: k > at + 1 ==> k !in canonical
    ensures Rewriting(canonical, canonical, headers, at, hash, at)
  {
  }

  /** The walk down the branch cannot pass the genesis. */
  lemma MeetsAtZero(canonical: map<nat, Hash>, was: map<nat, Hash>, headers: Headers, genesis: Header, at: nat,
                    hash: Hash, top: nat)
    requires Tree(headers, genesis) && Rewriting(canonical, was, headers, at, hash, top)
    requires 0 in was && was[0] == genesis.hash
    ensures at == 0 ==> 0 in canonical && canonical[0] == hash
  {
    if at == 0 {
      OnlyGenesisAtZero(headers, genesis, hash);
    }
  }

  lemma LinkedPart(old0: map<nat, Hash>, was: map<nat, Hash>, canonical: map<nat, Hash>, headers: Headers,
                   at: nat, hash: Hash, top: nat, height: nat)
    requires LinkedUpTo(old0, headers, height) && Rewriting(canonical, was, headers, at, hash, top)
    requires at in canonical
    requires forall n: nat :: n in was <==> n <= height && n <= top + 1
    requires forall n: nat :: n in was ==> was[n] == old0[n]
    ensures LinkedUpTo(was, headers, at)
  {
    assert at in was;
  }
}
