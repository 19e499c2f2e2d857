/** The block chain: the index of canonical numbers and the index from transactions to their place
    in the canonical chain, through extensions and reorganisations to longer or shorter forks. */
module BlockChains {
  import opened FsnTypes
  import opened HeaderChains

  type Bodies = map<Hash, seq<Hash>>

  /** Where a transaction is: in which block, at which number, at which position. */
  datatype Place = Place(block: Hash, number: nat, index: nat)

  type Lookup = map<Hash, Place>

  // ---------- What the indexes should be ----------

  /** The block at a number on the chain from the genesis to h. */
  ghost function BlockAt(headers: Headers, genesis: Header, h: Hash, n: nat): Hash
    requires Tree(headers, genesis) && h in headers && n <= headers[h].number
  {
    Ancestor(headers, genesis, h, headers[h].number - n)
  }

  /** The transaction stands at the place on the chain that ends in h. */
  ghost predicate Stands(tx: Hash, p: Place, headers: Headers, genesis: Header, bodies: Bodies, h: Hash)
    requires Tree(headers, genesis) && h in headers
  {
    && p.number <= headers[h].number && BlockAt(headers, genesis, h, p.number) == p.block
    && p.block in bodies && p.index < |bodies[p.block]| && bodies[p.block][p.index] == tx
  }

  /** The lookup index is the one recomputed from the chain that ends in h. */
  ghost predicate LookupExact(lookup: Lookup, headers: Headers, genesis: Header, bodies: Bodies, h: Hash)
    requires Tree(headers, genesis) && h in headers
  {
    forall tx: Hash, p: Place :: (tx in lookup && lookup[tx] == p) <==> Stands(tx, p, headers, genesis, bodies, h)
  }

  /** No transaction stands at two places of the chain. */
  ghost predicate NoRepeats(headers: Headers, genesis: Header, bodies: Bodies, h: Hash)
    requires Tree(headers, genesis) && h in headers
  {
    forall tx: Hash, p: Place, q: Place ::
      Stands(tx, p, headers, genesis, bodies, h) && Stands(tx, q, headers, genesis, bodies, h) ==> p == q
  }

  /** The canonical numbers up to the head name the chain that ends in it. */
  ghost predicate IndexExact(canonical: map<nat, Hash>, headers: Headers, genesis: Header, h: Hash)
    requires Tree(headers, genesis) && h in headers
  {
    forall n: nat :: n <= headers[h].number ==> n in canonical && canonical[n] == BlockAt(headers, genesis, h, n)
  }

  /** The index is parent-linked from the genesis to the head. */
  ghost predicate ChainTo(canonical: map<nat, Hash>, headers: Headers, genesis: Header, head: Header) {
    && LinkedUpTo(canonical, headers, head.number)
    && canonical[0] == genesis.hash && canonical[head.number] == head.hash
  }

  /** An exact index is parent-linked from the genesis to the head. */
  lemma ExactIsLinked(canonical: map<nat, Hash>, headers: Headers, genesis: Header, head: Header)
    requires Tree(headers, genesis) && head.hash in headers && headers[head.hash] == head
    requires IndexExact(canonical, headers, genesis, head.hash)
    ensures ChainTo(canonical, headers, genesis, head)
  {
    hide Tree, Ancestor;
    forall k: nat | k <= head.number
      ensures k in canonical && canonical[k] in headers && headers[canonical[k]].number == k
    {
      AncestorOfAncestor(headers, genesis, head.hash, head.number - k, 0);
    }
    forall j: nat, k: nat | j < k <= head.number && k == j + 1 ensures headers[canonical[k]].parent == canonical[j] {
      AncestorStep(headers, genesis, head.hash, head.number - k);
    }
    OnlyGenesisAtZero(headers, genesis, canonical[0]);
    AncestorNone(headers, genesis, head.hash);
  }

  lemma AncestorNone(headers: Headers, genesis: Header, h: Hash)
    requires Tree(headers, genesis) && h in headers
    ensures Ancestor(headers, genesis, h, 0) == h
  {
  }

  // ---------- Branches ----------

  /** Blocks from the top down to, but without, the block `base`. */
  ghost predicate Branch(branch: seq<Header>, headers: Headers, top: Header, base: Header) {
    && top.hash in headers && headers[top.hash] == top && base.hash in headers && headers[base.hash] == base
    && |branch| <= top.number && base.number == top.number - |branch|
    && (forall k :: 0 <= k < |branch| ==>
          branch[k].hash in headers && headers[branch[k].hash] == branch[k] && branch[k].number == top.number - k)
    && (branch == [] ==> base == top)
    && (branch != [] ==> branch[0] == top && branch[|branch| - 1].parent == base.hash)
    && (forall j, k :: 0 <= j < k < |branch| && k == j + 1 ==> branch[j].parent == branch[k].hash)
  }

  /** The lowest blocks of the two branches are different, so that the base is the nearest common one. */
  predicate EndsDiffer(a: seq<Header>, b: seq<Header>) {
    a != [] && b != [] ==> a[|a| - 1].hash != b[|b| - 1].hash
  }

  lemma OneIsEmpty(a: seq<Header>, b: seq<Header>)
    requires a == [] || b == []
    ensures EndsDiffer(a, b)
  {
  }

  lemma EndsGrow(a: seq<Header>, b: seq<Header>, x: Header, y: Header)
    requires x.hash != y.hash
    ensures EndsDiffer(a + [x], b + [y])
  {
  }

  lemma BranchGrows(branch: seq<Header>, headers: Headers, genesis: Header, top: Header, base: Header)
    requires Tree(headers, genesis) && Branch(branch, headers, top, base) && base.number > 0
    ensures base.parent in headers
    ensures Branch(branch + [base], headers, top, headers[base.parent])
  {
    assert base.hash != genesis.hash;
  }

  /** The blocks of a branch are the blocks of the chain above its base. */
  lemma {:induction false} BranchBlocks(branch: seq<Header>, headers: Headers, genesis: Header, top: Header,
                                        base: Header, k: nat)
    requires Tree(headers, genesis) && Branch(branch, headers, top, base) && k <= |branch|
    ensures Ancestor(headers, genesis, top.hash, k) == if k == |branch| then base.hash else branch[k].hash
  {
    if k > 0 {
      BranchBlocks(branch, headers, genesis, top, base, k - 1);
      AncestorStep(headers, genesis, top.hash, k - 1);
      if k == |branch| {
        assert branch[k - 1].parent == base.hash;
      } else {
        assert branch[k - 1].parent == branch[k].hash;
      }
    }
  }

  /** Below its base a chain is the chain of the base. */
  lemma BelowBase(branch: seq<Header>, headers: Headers, genesis: Header, top: Header, base: Header, n: nat)
    requires Tree(headers, genesis) && Branch(branch, headers, top, base) && n <= base.number
    ensures BlockAt(headers, genesis, top.hash, n) == BlockAt(headers, genesis, base.hash, n)
  {
    hide Tree, Ancestor;
    BranchBlocks(branch, headers, genesis, top, base, |branch|);
    AncestorOfAncestor(headers, genesis, top.hash, |branch|, base.number - n);
  }

  lemma AboveBase(branch: seq<Header>, headers: Headers, genesis: Header, top: Header, base: Header, n: nat)
    requires Tree(headers, genesis) && Branch(branch, headers, top, base) && base.number < n <= top.number
    ensures 0 <= top.number - n < |branch| && BlockAt(headers, genesis, top.hash, n) == branch[top.number - n].hash
  {
    BranchBlocks(branch, headers, genesis, top, base, top.number - n);
  }

  // ---------- Lookup entries ----------

  ghost predicate InBlock(tx: Hash, p: Place, block: Header, bodies: Bodies) {
    && p.block == block.hash && p.number == block.number
    && p.block in bodies && p.index < |bodies[p.block]| && bodies[p.block][p.index] == tx
  }

  /** The transaction is in one of the blocks, at the place. */
  ghost predicate OnBranch(tx: Hash, p: Place, branch: seq<Header>, bodies: Bodies) {
    exists k :: 0 <= k < |branch| && InBlock(tx, p, branch[k], bodies)
  }

  ghost predicate InBranch(tx: Hash, branch: seq<Header>, bodies: Bodies) {
    exists p: Place :: OnBranch(tx, p, branch, bodies)
  }

  lemma BranchStands(branch: seq<Header>, headers: Headers, genesis: Header, bodies: Bodies, top: Header, base: Header,
                     tx: Hash, p: Place)
    requires Tree(headers, genesis) && Branch(branch, headers, top, base)
    ensures OnBranch(tx, p, branch, bodies) <==>
      Stands(tx, p, headers, genesis, bodies, top.hash) && p.number > base.number
  {
    if OnBranch(tx, p, branch, bodies) {
      var k :| 0 <= k < |branch| && InBlock(tx, p, branch[k], bodies);
      BranchBlocks(branch, headers, genesis, top, base, k);
    }
    if Stands(tx, p, headers, genesis, bodies, top.hash) && p.number > base.number {
      AboveBase(branch, headers, genesis, top, base, p.number);
      assert InBlock(tx, p, branch[top.number - p.number], bodies);
    }
  }

  /** After writing the entries of a branch: its transactions point into it, the others are as
      they were. */
  ghost predicate Written(lookup: Lookup, was: Lookup, branch: seq<Header>, bodies: Bodies) {
    && (forall tx: Hash :: InBranch(tx, branch, bodies) ==> tx in lookup && OnBranch(tx, lookup[tx], branch, bodies))
    && (forall tx: Hash :: !InBranch(tx, branch, bodies) ==>
         (tx in lookup <==> tx in was) && (tx in was ==> lookup[tx] == was[tx]))
  }

  /** Rewriting the lookup index for a fork: the entries of the new branch are written, those of
      transactions that are only in the old branch are deleted. */
  lemma ForkLookup(lookup: Lookup, was: Lookup, kept: Lookup, headers: Headers, genesis: Header, bodies: Bodies,
                   oldTop: Header, newTop: Header, base: Header, oldBranch: seq<Header>, newBranch: seq<Header>)
    requires Tree(headers, genesis) && Branch(oldBranch, headers, oldTop, base)
    requires Branch(newBranch, headers, newTop, base)
    requires LookupExact(was, headers, genesis, bodies, oldTop.hash) && Written(lookup, was, newBranch, bodies)
    requires NoRepeats(headers, genesis, bodies, oldTop.hash) && NoRepeats(headers, genesis, bodies, newTop.hash)
    requires forall tx: Hash :: tx in kept <==>
      tx in lookup && !(InBranch(tx, oldBranch, bodies) && !InBranch(tx, newBranch, bodies))
    requires forall tx: Hash :: tx in kept ==> kept[tx] == lookup[tx]
    ensures LookupExact(kept, headers, genesis, bodies, newTop.hash)
  {
    hide BlockAt, NoRepeats, Tree;
    forall tx: Hash, p: Place
      ensures (tx in kept && kept[tx] == p) <==> Stands(tx, p, headers, genesis, bodies, newTop.hash)
    {
      ForkPlace(lookup, was, kept, headers, genesis, bodies, oldTop, newTop, base, oldBranch, newBranch, tx, p);
    }
  }

  lemma ForkPlace(lookup: Lookup, was: Lookup, kept: Lookup, headers: Headers, genesis: Header, bodies: Bodies,
                  oldTop: Header, newTop: Header, base: Header, oldBranch: seq<Header>, newBranch: seq<Header>,
                  tx: Hash, p: Place)
    requires Tree(headers, genesis) && Branch(oldBranch, headers, oldTop, base)
    requires Branch(newBranch, headers, newTop, base)
    requires LookupExact(was, headers, genesis, bodies, oldTop.hash) && Written(lookup, was, newBranch, bodies)
    requires NoRepeats(headers, genesis, bodies, oldTop.hash) && NoRepeats(headers, genesis, bodies, newTop.hash)
    requires tx in kept <==> tx in lookup && !(InBranch(tx, oldBranch, bodies) && !InBranch(tx, newBranch, bodies))
    requires tx in kept ==> kept[tx] == lookup[tx]
    ensures (tx in kept && kept[tx] == p) <==> Stands(tx, p, headers, genesis, bodies, newTop.hash)
  {
    BranchStands(newBranch, headers, genesis, bodies, newTop, base, tx, p);
    if InBranch(tx, newBranch, bodies) {
      BranchStands(newBranch, headers, genesis, bodies, newTop, base, tx, lookup[tx]);
      assert Stands(tx, kept[tx], headers, genesis, bodies, newTop.hash);
    } else {
      assert !OnBranch(tx, p, newBranch, bodies);
      if p.number <= base.number {
        CommonPart(headers, genesis, bodies, oldTop, newTop, base, oldBranch, newBranch, tx, p);
      }
      if InBranch(tx, oldBranch, bodies) {
        var q: Place :| OnBranch(tx, q, oldBranch, bodies);
        BranchStands(oldBranch, headers, genesis, bodies, oldTop, base, tx, q);
      } else if tx in was {
        BranchStands(oldBranch, headers, genesis, bodies, oldTop, base, tx, was[tx]);
        assert Stands(tx, was[tx], headers, genesis, bodies, oldTop.hash);
      }
    }
  }

  lemma CommonPart(headers: Headers, genesis: Header, bodies: Bodies, oldTop: Header, newTop: Header, base: Header,
                   oldBranch: seq<Header>, newBranch: seq<Header>, tx: Hash, p: Place)
    requires Tree(headers, genesis) && Branch(oldBranch, headers, oldTop, base)
    requires Branch(newBranch, headers, newTop, base)
    requires p.number <= base.number
    ensures Stands(tx, p, headers, genesis, bodies, oldTop.hash) <==>
      Stands(tx, p, headers, genesis, bodies, newTop.hash)
  {
    BelowBase(oldBranch, headers, genesis, oldTop, base, p.number);
    BelowBase(newBranch, headers, genesis, newTop, base, p.number);
  }

  /** Writing the entries of one more block, the next lower ones being written. */
  lemma WrittenMore(lookup: Lookup, mid: Lookup, was: Lookup, block: Header, branch: seq<Header>, bodies: Bodies)
    requires Written(mid, was, branch, bodies) && Written(lookup, mid, [block], bodies)
    ensures Written(lookup, was, [block] + branch, bodies)
  {
    hide OnBranch;
    var all := [block] + branch;
    forall tx: Hash, p: Place
      ensures OnBranch(tx, p, all, bodies) <==> OnBranch(tx, p, [block], bodies) || OnBranch(tx, p, branch, bodies)
    {
      OnEither(block, branch, bodies, tx, p);
    }
    forall tx: Hash
      ensures InBranch(tx, all, bodies) <==> InBranch(tx, [block], bodies) || InBranch(tx, branch, bodies)
    {
      if InBranch(tx, [block], bodies) {
        var p: Place :| OnBranch(tx, p, [block], bodies);
        assert OnBranch(tx, p, all, bodies);
      } else if InBranch(tx, branch, bodies) {
        var p: Place :| OnBranch(tx, p, branch, bodies);
        assert OnBranch(tx, p, all, bodies);
      }
    }
  }

  lemma OnEither(block: Header, branch: seq<Header>, bodies: Bodies, tx: Hash, p: Place)
    ensures OnBranch(tx, p, [block] + branch, bodies) <==>
      OnBranch(tx, p, [block], bodies) || OnBranch(tx, p, branch, bodies)
  {
    var all := [block] + branch;
    assert all[0] == block && [block][0] == block;
    if OnBranch(tx, p, branch, bodies) {
      var k :| 0 <= k < |branch| && InBlock(tx, p, branch[k], bodies);
      assert InBlock(tx, p, all[k + 1], bodies);
    }
    if OnBranch(tx, p, all, bodies) && !InBlock(tx, p, block, bodies) {
      var k :| 0 <= k < |all| && InBlock(tx, p, all[k], bodies);
      assert InBlock(tx, p, branch[k - 1], bodies);
    }
  }

  /** The transactions of a branch, from the top down. */
  ghost predicate TxsOf(txs: seq<Hash>, branch: seq<Header>, bodies: Bodies) {
    forall tx: Hash :: tx in txs <==> InBranch(tx, branch, bodies)
  }

  lemma TxsGrow(txs: seq<Hash>, branch: seq<Header>, bodies: Bodies, block: Header)
    requires TxsOf(txs, branch, bodies) && block.hash in bodies
    ensures TxsOf(txs + bodies[block.hash], branch + [block], bodies)
  {
    var all := branch + [block];
    forall tx: Hash ensures tx in txs + bodies[block.hash] <==> InBranch(tx, all, bodies) {
      if tx in txs {
        var p: Place :| OnBranch(tx, p, branch, bodies);
        var k :| 0 <= k < |branch| && InBlock(tx, p, branch[k], bodies);
        assert InBlock(tx, p, all[k], bodies);
        assert OnBranch(tx, p, all, bodies);
      }
      if tx in bodies[block.hash] {
        var i :| 0 <= i < |bodies[block.hash]| && bodies[block.hash][i] == tx;
        assert InBlock(tx, Place(block.hash, block.number, i), all[|branch|], bodies);
        assert OnBranch(tx, Place(block.hash, block.number, i), all, bodies);
      }
      if InBranch(tx, all, bodies) && tx !in bodies[block.hash] {
        var p: Place :| OnBranch(tx, p, all, bodies);
        var k :| 0 <= k < |all| && InBlock(tx, p, all[k], bodies);
        assert InBlock(tx, p, branch[k], bodies);
        assert OnBranch(tx, p, branch, bodies);
      }
    }
  }

  lemma NoTxs(bodies: Bodies)
    ensures TxsOf([], [], bodies)
  {
  }

  /** No block of the branch from position k up has the number. */
  ghost predicate Untouched(branch: seq<Header>, k: nat, n: nat) {
    forall i :: k <= i < |branch| ==> branch[i].number != n
  }

  /** The index after the blocks of a branch were written over it, from position k up. */
  ghost predicate Overwritten(canonical: map<nat, Hash>, was: map<nat, Hash>, branch: seq<Header>, k: nat) {
    && k <= |branch|
    && (forall i :: k <= i < |branch| ==>
         branch[i].number in canonical && canonical[branch[i].number] == branch[i].hash)
    && (forall n: nat :: Untouched(branch, k, n) ==>
          (n in canonical <==> n in was) && (n in was ==> canonical[n] == was[n]))
  }

  /** Writing a whole branch makes the index exact for its top. */
  lemma ForkIndex(canonical: map<nat, Hash>, was: map<nat, Hash>, headers: Headers, genesis: Header,
                  oldTop: Header, newTop: Header, base: Header, oldBranch: seq<Header>, newBranch: seq<Header>)
    requires Tree(headers, genesis) && Branch(oldBranch, headers, oldTop, base)
    requires Branch(newBranch, headers, newTop, base)
    requires IndexExact(was, headers, genesis, oldTop.hash) && Overwritten(canonical, was, newBranch, 0)
    ensures IndexExact(canonical, headers, genesis, newTop.hash)
  {
    hide BlockAt, Overwritten, Tree, Branch;
    BranchEnds(oldBranch, headers, oldTop, base);
    BranchEnds(newBranch, headers, newTop, base);
    forall n: nat | n <= newTop.number
      ensures n in canonical && canonical[n] == BlockAt(headers, genesis, newTop.hash, n)
    {
      if n <= base.number {
        BelowBase(oldBranch, headers, genesis, oldTop, base, n);
        BelowBase(newBranch, headers, genesis, newTop, base, n);
        OverwrittenBelow(canonical, was, headers, newTop, base, newBranch, n);
      } else {
        AboveBase(newBranch, headers, genesis, newTop, base, n);
        OverwrittenAt(canonical, was, newBranch, newTop.number - n);
      }
    }
  }

  /** The index does not have the block at its number. */
  predicate IsNew(canonical: map<nat, Hash>, block: Header) {
    !(block.number in canonical && canonical[block.number] == block.hash)
  }

  lemma NotYetWritten(canonical: map<nat, Hash>, was: map<nat, Hash>, branch: seq<Header>, headers: Headers,
                      top: Header, base: Header, i: nat)
    requires i < |branch| && Branch(branch, headers, top, base) && Overwritten(canonical, was, branch, i + 1)
    ensures IsNew(canonical, branch[i]) <==> IsNew(was, branch[i])
  {
    assert Untouched(branch, i + 1, branch[i].number);
  }

  /** A block that is not in the index tops a branch of its own. */
  lemma BranchTop(canonical: map<nat, Hash>, headers: Headers, genesis: Header, oldTop: Header, newTop: Header,
                  base: Header, oldBranch: seq<Header>, newBranch: seq<Header>)
    requires Tree(headers, genesis) && Branch(oldBranch, headers, oldTop, base)
    requires Branch(newBranch, headers, newTop, base) && IndexExact(canonical, headers, genesis, oldTop.hash)
    ensures IsNew(canonical, newTop) ==> newBranch != []
    ensures newBranch != [] ==> newBranch[0] == newTop
  {
    BranchEnds(oldBranch, headers, oldTop, base);
    if newBranch == [] {
      BelowBase(oldBranch, headers, genesis, oldTop, base, base.number);
      AncestorNone(headers, genesis, base.hash);
    }
  }

  lemma BranchEnds(branch: seq<Header>, headers: Headers, top: Header, base: Header)
    requires Branch(branch, headers, top, base)
    ensures top.hash in headers && headers[top.hash] == top && base.hash in headers && headers[base.hash] == base
    ensures base.number + |branch| == top.number
    ensures forall k :: 0 <= k < |branch| ==> branch[k].number == top.number - k
  {
  }

  lemma OverwrittenBelow(canonical: map<nat, Hash>, was: map<nat, Hash>, headers: Headers, top: Header, base: Header,
                         branch: seq<Header>, n: nat)
    requires Branch(branch, headers, top, base) && Overwritten(canonical, was, branch, 0) && n <= base.number
    ensures (n in canonical <==> n in was) && (n in was ==> canonical[n] == was[n])
  {
  }

  /** Numbers above a shorter new head are left as they were. */
  lemma OverwrittenAbove(canonical: map<nat, Hash>, was: map<nat, Hash>, headers: Headers, top: Header, base: Header,
                         branch: seq<Header>)
    requires Branch(branch, headers, top, base) && Overwritten(canonical, was, branch, 0)
    ensures forall n: nat :: n > top.number ==> (n in canonical <==> n in was)
    ensures forall n: nat :: n > top.number && n in canonical ==> canonical[n] == was[n]
  {
  }

  lemma OverwrittenAt(canonical: map<nat, Hash>, was: map<nat, Hash>, branch: seq<Header>, k: nat)
    requires Overwritten(canonical, was, branch, 0) && k < |branch|
    ensures branch[k].number in canonical && canonical[branch[k].number] == branch[k].hash
  {
  }

  class BlockChain {
    const genesis: Header
    var headers: Headers
    var bodies: Bodies
    var td: map<Hash, int>
    var canonical: map<nat, Hash>
    var lookup: Lookup
    var current: Header
    var headHeader: Header
    var headFast: Header

    ghost predicate Valid()
      reads this
    {
      && Tree(headers, genesis) && bodies.Keys == headers.Keys
      && BestHead(td, headers, genesis, current)
      && IndexExact(canonical, headers, genesis, current.hash)
      && NoRepeats(headers, genesis, bodies, current.hash)
      && LookupExact(lookup, headers, genesis, bodies, current.hash)
    }

    constructor (genesis: Header)
      requires genesis.number == 0
      ensures Valid() && this.genesis == genesis && current == genesis
    {
      this.genesis := genesis;
      headers := map[genesis.hash := genesis];
      bodies := map[genesis.hash := []];
      td := map[genesis.hash := genesis.difficulty];
      canonical := map[0 := genesis.hash];
      lookup := map[];
      current, headHeader, headFast := genesis, genesis, genesis;
    }

    /** Makes a block the head. The other heads follow if it was not canonical. */
    method Insert(block: Header)
      modifies this`canonical, this`current, this`headHeader, this`headFast
      ensures canonical == old(canonical)[block.number := block.hash] && current == block
      ensures if block.number in old(canonical) && old(canonical)[block.number] == block.hash
              then headHeader == old(headHeader) && headFast == old(headFast)
              else headHeader == block && headFast == block
    {
      var updateHeads := !(block.number in canonical && canonical[block.number] == block.hash);
      canonical := canonical[block.number := block.hash];
      current := block;
      if updateHeads {
        headHeader := block;
        headFast := block;
      }
    }

    method WriteTxLookupEntries(block: Header)
      requires block.hash in bodies
      modifies this`lookup
      ensures Written(lookup, old(lookup), [block], bodies)
    {
      var txs := bodies[block.hash];
      for i := 0 to |txs|
        invariant forall j :: 0 <= j < i ==> txs[j] in lookup
        invariant forall tx: Hash :: tx in lookup ==>
          if tx in txs[..i] then
            && lookup[tx].block == block.hash && lookup[tx].number == block.number
            && lookup[tx].index < i && txs[lookup[tx].index] == tx
          else tx in old(lookup) && lookup[tx] == old(lookup)[tx]
        invariant forall tx: Hash :: tx in old(lookup) ==> tx in lookup
      {
        lookup := lookup[txs[i] := Place(block.hash, block.number, i)];
      }
      assert txs[..|txs|] == txs;
      WrittenBlock(lookup, old(lookup), block, bodies);
    }

    /** Walks both blocks down to their common ancestor, collecting the two branches and the
        transactions of the old one. */
    method CommonBase(oldTop: Header, newTop: Header)
      returns (base: Header, oldChain: seq<Header>, newChain: seq<Header>, deletedTxs: seq<Hash>)
      requires Tree(headers, genesis) && bodies.Keys == headers.Keys
      requires oldTop.hash in headers && headers[oldTop.hash] == oldTop
      requires newTop.hash in headers && headers[newTop.hash] == newTop
      ensures Branch(oldChain, headers, oldTop, base) && Branch(newChain, headers, newTop, base)
      ensures TxsOf(deletedTxs, oldChain, bodies)
      ensures EndsDiffer(oldChain, newChain)
    {
      hide Branch, TxsOf, EndsDiffer;
      oldChain, newChain, deletedTxs := [], [], [];
      var oldBlock, newBlock := oldTop, newTop;
      EmptyBranch(headers, oldTop);
      EmptyBranch(headers, newTop);
      NoTxs(bodies);
      if oldBlock.number > newBlock.number {
        while oldBlock.number != newBlock.number
          invariant oldBlock.hash in headers && oldBlock.number >= newBlock.number
          invariant Branch(oldChain, headers, oldTop, oldBlock) && TxsOf(deletedTxs, oldChain, bodies)
          decreases oldBlock.number
        {
          BranchGrows(oldChain, headers, genesis, oldTop, oldBlock);
          TxsGrow(deletedTxs, oldChain, bodies, oldBlock);
          oldChain := oldChain + [oldBlock];
          deletedTxs := deletedTxs + bodies[oldBlock.hash];
          oldBlock := headers[oldBlock.parent];
          BranchBase(oldChain, headers, oldTop, oldBlock);
        }
      } else {
        while newBlock.number != oldBlock.number
          invariant newBlock.hash in headers && newBlock.number >= oldBlock.number
          invariant Branch(newChain, headers, newTop, newBlock)
          decreases newBlock.number
        {
          BranchGrows(newChain, headers, genesis, newTop, newBlock);
          newChain := newChain + [newBlock];
          newBlock := headers[newBlock.parent];
          BranchBase(newChain, headers, newTop, newBlock);
        }
      }
      OneIsEmpty(oldChain, newChain);
      while oldBlock.hash != newBlock.hash
        invariant oldBlock.hash in headers && newBlock.hash in headers && oldBlock.number == newBlock.number
        invariant Branch(oldChain, headers, oldTop, oldBlock) && TxsOf(deletedTxs, oldChain, bodies)
        invariant Branch(newChain, headers, newTop, newBlock)
        invariant EndsDiffer(oldChain, newChain)
        decreases oldBlock.number
      {
        BothAtZero(oldChain, newChain, headers, genesis, oldTop, newTop, oldBlock, newBlock);
        BranchGrows(oldChain, headers, genesis, oldTop, oldBlock);
        BranchGrows(newChain, headers, genesis, newTop, newBlock);
        TxsGrow(deletedTxs, oldChain, bodies, oldBlock);
        EndsGrow(oldChain, newChain, oldBlock, newBlock);
        oldChain, newChain := oldChain + [oldBlock], newChain + [newBlock];
        deletedTxs := deletedTxs + bodies[oldBlock.hash];
        oldBlock, newBlock := headers[oldBlock.parent], headers[newBlock.parent];
        BranchBase(oldChain, headers, oldTop, oldBlock);
        BranchBase(newChain, headers, newTop, newBlock);
      }
      base := oldBlock;
      SameBase(oldChain, newChain, headers, oldTop, newTop, oldBlock, newBlock);
    }

    /** Writes the new branch from its lowest block up. */
    method InsertBranch(newChain: seq<Header>, ghost top: Header, ghost base: Header) returns (addedTxs: seq<Hash>)
      requires bodies.Keys == headers.Keys && Branch(newChain, headers, top, base)
      modifies this`canonical, this`current, this`headHeader, this`headFast, this`lookup
      ensures Overwritten(canonical, old(canonical), newChain, 0) && Written(lookup, old(lookup), newChain, bodies)
      ensures TxsOf(addedTxs, newChain, bodies)
      ensures current == if newChain == [] then old(current) else newChain[0]
      ensures newChain != [] && IsNew(old(canonical), newChain[0]) ==> headHeader == headFast == newChain[0]
    {
      hide Written, TxsOf, Overwritten;
      addedTxs := [];
      ghost var c0, l0 := canonical, lookup;
      NothingWritten(l0, c0, newChain, bodies);
      assert newChain[|newChain|..] == [];
      var i := |newChain|;
      while i > 0
        invariant 0 <= i <= |newChain|
        invariant Overwritten(canonical, c0, newChain, i) && Written(lookup, l0, newChain[i..], bodies)
        invariant TxsOf(addedTxs, newChain[i..], bodies)
        invariant current == if i == |newChain| then old(current) else newChain[i]
        invariant i < |newChain| && IsNew(c0, newChain[i]) ==> headHeader == headFast == newChain[i]
      {
        i := i - 1;
        var block := newChain[i];
        assert newChain[i..] == [block] + newChain[i + 1..];
        OverwriteNext(canonical, c0, newChain, headers, top, base, i);
        NotYetWritten(canonical, c0, newChain, headers, top, base, i);
        Insert(block);
        ghost var mid := lookup;
        WriteTxLookupEntries(block);
        WrittenMore(lookup, mid, l0, block, newChain[i + 1..], bodies);
        TxsPrepend(addedTxs, newChain[i + 1..], bodies, block);
        addedTxs := addedTxs + bodies[block.hash];
      }
      assert newChain[0..] == newChain;
    }

    /** Deletes the lookup entries of the transactions that are in the first list only. */
    method DeleteLookups(deletedTxs: seq<Hash>, addedTxs: seq<Hash>)
      modifies this`lookup
      ensures forall tx: Hash :: tx in lookup <==> tx in old(lookup) && !(tx in deletedTxs && tx !in addedTxs)
      ensures forall tx: Hash :: tx in lookup ==> lookup[tx] == old(lookup)[tx]
    {
      for i := 0 to |deletedTxs|
        invariant forall tx: Hash :: tx in lookup <==> tx in old(lookup) && !(tx in deletedTxs[..i] && tx !in addedTxs)
        invariant forall tx: Hash :: tx in lookup ==> lookup[tx] == old(lookup)[tx]
      {
        if deletedTxs[i] !in addedTxs {
          lookup := lookup - {deletedTxs[i]};
        }
      }
      assert deletedTxs[..|deletedTxs|] == deletedTxs;
    }

    /** Re-routes both indexes from one block to another, wherever the two chains part. */
    method Reorg(oldBlock: Header, newBlock: Header)
      requires Tree(headers, genesis) && bodies.Keys == headers.Keys
      requires oldBlock.hash in headers && headers[oldBlock.hash] == oldBlock
      requires newBlock.hash in headers && headers[newBlock.hash] == newBlock
      requires IndexExact(canonical, headers, genesis, oldBlock.hash)
      requires LookupExact(lookup, headers, genesis, bodies, oldBlock.hash)
      requires NoRepeats(headers, genesis, bodies, oldBlock.hash) && NoRepeats(headers, genesis, bodies, newBlock.hash)
      modifies this`canonical, this`current, this`headHeader, this`headFast, this`lookup
      ensures IndexExact(canonical, headers, genesis, newBlock.hash)
      ensures LookupExact(lookup, headers, genesis, bodies, newBlock.hash)
      ensures ChainTo(canonical, headers, genesis, newBlock)
      ensures forall n: nat :: n > newBlock.number ==> (n in canonical <==> n in old(canonical))
      ensures forall n: nat :: n > newBlock.number && n in canonical ==> canonical[n] == old(canonical)[n]
      ensures IsNew(old(canonical), newBlock) ==> headHeader == headFast == newBlock
    {
      hide Tree, IndexExact, LookupExact, NoRepeats, Branch, Written, Overwritten;
      ghost var c0, l0 := canonical, lookup;
      var base, oldChain, newChain, deletedTxs := CommonBase(oldBlock, newBlock);
      BranchTop(c0, headers, genesis, oldBlock, newBlock, base, oldChain, newChain);
      var addedTxs := InsertBranch(newChain, newBlock, base);
      ForkIndex(canonical, c0, headers, genesis, oldBlock, newBlock, base, oldChain, newChain);
      ExactIsLinked(canonical, headers, genesis, newBlock);
      OverwrittenAbove(canonical, c0, headers, newBlock, base, newChain);
      ghost var l1 := lookup;
      DeleteLookups(deletedTxs, addedTxs);
      ForkLookup(l1, l0, lookup, headers, genesis, bodies, oldBlock, newBlock, base, oldChain, newChain);
    }

    /** Makes a stored block the head, with a reorganisation unless it extends the old one. */
    method Adopt(block: Header)
      requires Tree(headers, genesis) && bodies.Keys == headers.Keys && block.hash != genesis.hash
      requires current.hash in headers && headers[current.hash] == current
      requires block.hash in headers && headers[block.hash] == block
      requires IndexExact(canonical, headers, genesis, current.hash)
      requires LookupExact(lookup, headers, genesis, bodies, current.hash)
      requires NoRepeats(headers, genesis, bodies, current.hash) && NoRepeats(headers, genesis, bodies, block.hash)
      modifies this`canonical, this`current, this`headHeader, this`headFast, this`lookup
      ensures current == block
      ensures IndexExact(canonical, headers, genesis, block.hash)
      ensures LookupExact(lookup, headers, genesis, bodies, block.hash)
      ensures IsNew(old(canonical), block) ==> headHeader == headFast == block
    {
      hide Tree, IndexExact, LookupExact, NoRepeats, Written, ChainTo;
      if block.parent != current.hash {
        Reorg(current, block);
        ghost var was := lookup;
        WriteTxLookupEntries(block);
        RewriteTop(lookup, was, headers, genesis, bodies, block);
        IndexTop(canonical, headers, genesis, block);
      } else {
        ghost var was := lookup;
        WriteTxLookupEntries(block);
        ExtendIndexes(canonical, lookup, was, headers, genesis, bodies, current, block);
      }
      Insert(block);
    }

    /** Stores a block with a known parent and makes it the head if its total difficulty is larger,
        or equal with a smaller number, or equal with the same number and the tie is in its
        favour. Both indexes then describe the chain that ends in it. */
    method WriteBlockWithState(block: Header, txs: seq<Hash>, currentPreserve: bool, blockPreserve: bool, coin: bool)
      returns (status: WriteStatus)
      requires Valid()
      requires block.hash in headers ==> headers[block.hash] == block && bodies[block.hash] == txs
      requires block.parent in headers ==> block.number == headers[block.parent].number + 1
      requires FreshTxs(headers, genesis, bodies, block, txs)
      modifies this
      ensures Valid()
      ensures status.NonStat? <==> block.parent !in old(headers)
      ensures status.NonStat? ==> headers == old(headers) && bodies == old(bodies) && td == old(td)
      ensures !status.NonStat? ==>
        headers == old(headers)[block.hash := block] && bodies == old(bodies)[block.hash := txs]
      ensures !status.NonStat? ==> (status.CanonStat? <==>
        || td[block.hash] > old(td[current.hash])
        || (td[block.hash] == old(td[current.hash])
            && (block.number < old(current.number)
                || (block.number == old(current.number) && !currentPreserve && (blockPreserve || coin)))))
      ensures if status.CanonStat? then current == block
              else current == old(current) && canonical == old(canonical) && lookup == old(lookup)
      ensures status.CanonStat? && IsNew(old(canonical), block) ==> headHeader == headFast == block
      ensures !status.CanonStat? ==> headHeader == old(headHeader) && headFast == old(headFast)
      ensures td[current.hash] >= old(td[current.hash])
      ensures ChainTo(canonical, headers, genesis, current)
    {
      hide Tree, BestHead, IndexExact, LookupExact, NoRepeats, FreshTxs, Written, ChainTo;
      BestParts(td, headers, genesis, current);
      if block.parent !in td {
        HeadIsLinked(canonical, td, headers, genesis, current);
        return NonStat;
      }
      var localTd := td[current.hash];
      var externTd := block.difficulty + td[block.parent];
      StoreHeader(td, headers, genesis, current, block);
      StoreBlock(canonical, lookup, headers, genesis, bodies, current, block, txs);
      CurrentStored(td, headers, genesis, current);
      td := td[block.hash := externTd];
      headers := headers[block.hash := block];
      bodies := bodies[block.hash := txs];
      var reorg := externTd > localTd;
      if !reorg && externTd == localTd {
        if block.number < current.number {
          reorg := true;
        } else if block.number == current.number {
          reorg := !currentPreserve && (blockPreserve || coin);
        }
      }
      if !reorg {
        HeadIsLinked(canonical, td, headers, genesis, current);
        return SideStat;
      }
      Adopt(block);
      HeadIsLinked(canonical, td, headers, genesis, current);
      return CanonStat;
    }
  }

  /** Along the chain of the new block no transaction occurs twice. */
  ghost predicate FreshTxs(headers: Headers, genesis: Header, bodies: Bodies, block: Header, txs: seq<Hash>) {
    Tree(headers[block.hash := block], genesis)
    ==> NoRepeats(headers[block.hash := block], genesis, bodies[block.hash := txs], block.hash)
  }

  lemma HeadIsLinked(canonical: map<nat, Hash>, td: map<Hash, int>, headers: Headers, genesis: Header, head: Header)
    requires Tree(headers, genesis) && BestHead(td, headers, genesis, head)
    requires head.hash in headers && IndexExact(canonical, headers, genesis, head.hash)
    ensures ChainTo(canonical, headers, genesis, head)
  {
    CurrentStored(td, headers, genesis, head);
    ExactIsLinked(canonical, headers, genesis, head);
  }

  lemma CurrentStored(td: map<Hash, int>, headers: Headers, genesis: Header, head: Header)
    requires Tree(headers, genesis) && BestHead(td, headers, genesis, head)
    ensures head.hash in headers && headers[head.hash] == head
  {
  }

  lemma {:induction false} AncestorKept(headers: Headers, genesis: Header, block: Header, h: Hash, n: nat)
    requires Tree(headers, genesis) && Tree(headers[block.hash := block], genesis)
    requires block.hash in headers ==> headers[block.hash] == block
    requires h in headers && n <= headers[h].number
    ensures Ancestor(headers[block.hash := block], genesis, h, n) == Ancestor(headers, genesis, h, n)
    ensures Ancestor(headers, genesis, h, n) in headers
    decreases n
  {
    if n > 0 {
      AncestorKept(headers, genesis, block, headers[h].parent, n - 1);
    }
  }

  lemma StandsKept(headers: Headers, genesis: Header, bodies: Bodies, block: Header, txs: seq<Hash>, h: Hash, tx: Hash,
                   p: Place)
    requires Tree(headers, genesis) && Tree(headers[block.hash := block], genesis)
    requires bodies.Keys == headers.Keys && h in headers
    requires block.hash in headers ==> headers[block.hash] == block && bodies[block.hash] == txs
    ensures Stands(tx, p, headers[block.hash := block], genesis, bodies[block.hash := txs], h) <==>
      Stands(tx, p, headers, genesis, bodies, h)
  {
    if p.number <= headers[h].number {
      AncestorKept(headers, genesis, block, h, headers[h].number - p.number);
    }
  }

  /** Storing a block changes neither index nor what it should be. */
  lemma StoreBlock(canonical: map<nat, Hash>, lookup: Lookup, headers: Headers, genesis: Header, bodies: Bodies,
                   head: Header, block: Header, txs: seq<Hash>)
    requires Tree(headers, genesis) && Tree(headers[block.hash := block], genesis) && bodies.Keys == headers.Keys
    requires head.hash in headers
    requires block.hash in headers ==> headers[block.hash] == block && bodies[block.hash] == txs
    requires IndexExact(canonical, headers, genesis, head.hash) && NoRepeats(headers, genesis, bodies, head.hash)
    requires LookupExact(lookup, headers, genesis, bodies, head.hash) && FreshTxs(headers, genesis, bodies, block, txs)
    ensures var headers', bodies' := headers[block.hash := block], bodies[block.hash := txs];
            && bodies'.Keys == headers'.Keys
            && IndexExact(canonical, headers', genesis, head.hash) && NoRepeats(headers', genesis, bodies', head.hash)
            && LookupExact(lookup, headers', genesis, bodies', head.hash)
            && NoRepeats(headers', genesis, bodies', block.hash)
  {
    hide Tree;
    var headers', bodies' := headers[block.hash := block], bodies[block.hash := txs];
    forall n: nat | n <= headers[head.hash].number
      ensures BlockAt(headers', genesis, head.hash, n) == BlockAt(headers, genesis, head.hash, n)
    {
      AncestorKept(headers, genesis, block, head.hash, headers[head.hash].number - n);
    }
    forall tx: Hash, p: Place
      ensures Stands(tx, p, headers', genesis, bodies', head.hash) <==>
        Stands(tx, p, headers, genesis, bodies, head.hash)
    {
      StandsKept(headers, genesis, bodies, block, txs, head.hash, tx, p);
    }
    hide Stands, BlockAt;
  }

  /** Writing the entries of the top block once more changes nothing. */
  lemma RewriteTop(lookup: Lookup, was: Lookup, headers: Headers, genesis: Header, bodies: Bodies, block: Header)
    requires Tree(headers, genesis) && block.hash in headers
    requires headers[block.hash] == block && block.hash != genesis.hash
    requires LookupExact(was, headers, genesis, bodies, block.hash) && NoRepeats(headers, genesis, bodies, block.hash)
    requires Written(lookup, was, [block], bodies)
    ensures LookupExact(lookup, headers, genesis, bodies, block.hash)
  {
    var parent := headers[block.parent];
    OneBlockBranch(headers, genesis, block);
    hide Branch, Tree;
    forall tx: Hash, p: Place
      ensures (tx in lookup && lookup[tx] == p) <==> Stands(tx, p, headers, genesis, bodies, block.hash)
    {
      if InBranch(tx, [block], bodies) {
        BranchStands([block], headers, genesis, bodies, block, parent, tx, lookup[tx]);
        assert Stands(tx, lookup[tx], headers, genesis, bodies, block.hash);
      }
    }
  }

  lemma OneBlockBranch(headers: Headers, genesis: Header, block: Header)
    requires Tree(headers, genesis) && block.hash in headers
    requires headers[block.hash] == block && block.hash != genesis.hash
    ensures block.parent in headers && Branch([block], headers, block, headers[block.parent])
  {
  }

  lemma IndexTop(canonical: map<nat, Hash>, headers: Headers, genesis: Header, block: Header)
    requires Tree(headers, genesis) && block.hash in headers && headers[block.hash] == block
    requires IndexExact(canonical, headers, genesis, block.hash)
    ensures IndexExact(canonical[block.number := block.hash], headers, genesis, block.hash)
  {
    assert BlockAt(headers, genesis, block.hash, block.number) == block.hash;
  }

  /** Extending the head by a child. */
  lemma ExtendIndexes(canonical: map<nat, Hash>, lookup: Lookup, was: Lookup, headers: Headers, genesis: Header,
                      bodies: Bodies,
                      head: Header, block: Header)
    requires Tree(headers, genesis) && head.hash in headers && headers[head.hash] == head
    requires block.hash in headers && headers[block.hash] == block
    requires block.hash != genesis.hash && block.parent == head.hash
    requires IndexExact(canonical, headers, genesis, head.hash) && LookupExact(was, headers, genesis, bodies, head.hash)
    requires NoRepeats(headers, genesis, bodies, head.hash) && NoRepeats(headers, genesis, bodies, block.hash)
    requires Written(lookup, was, [block], bodies)
    ensures IndexExact(canonical[block.number := block.hash], headers, genesis, block.hash)
    ensures LookupExact(lookup, headers, genesis, bodies, block.hash)
  {
    hide IndexExact, LookupExact, NoRepeats, Tree;
    OneBlockBranch(headers, genesis, block);
    EmptyBranch(headers, head);
    ForkLookup(lookup, was, lookup, headers, genesis, bodies, head, block, head, [], [block]);
    OverwriteNext(canonical, canonical, [block], headers, block, head, 0);
    ForkIndex(canonical[block.number := block.hash], canonical, headers, genesis, head, block, head, [], [block]);
  }

  lemma EmptyBranch(headers: Headers, top: Header)
    requires top.hash in headers && headers[top.hash] == top
    ensures Branch([], headers, top, top)
  {
  }

  lemma BranchBase(branch: seq<Header>, headers: Headers, top: Header, base: Header)
    requires Branch(branch, headers, top, base)
    ensures base.hash in headers && headers[base.hash] == base && base.number == top.number - |branch|
  {
  }

  lemma BothAtZero(oldChain: seq<Header>, newChain: seq<Header>, headers: Headers, genesis: Header,
                   oldTop: Header, newTop: Header, a: Header, b: Header)
    requires Tree(headers, genesis) && Branch(oldChain, headers, oldTop, a) && Branch(newChain, headers, newTop, b)
    requires a.number == b.number && a.hash != b.hash
    ensures a.number > 0
  {
    if a.number == 0 {
      OnlyGenesisAtZero(headers, genesis, a.hash);
      OnlyGenesisAtZero(headers, genesis, b.hash);
    }
  }

  lemma SameBase(oldChain: seq<Header>, newChain: seq<Header>, headers: Headers, oldTop: Header, newTop: Header,
                 a: Header, b: Header)
    requires Branch(oldChain, headers, oldTop, a) && Branch(newChain, headers, newTop, b) && a.hash == b.hash
    ensures a == b
  {
  }

  lemma NothingWritten(lookup: Lookup, canonical: map<nat, Hash>, branch: seq<Header>, bodies: Bodies)
    ensures Written(lookup, lookup, [], bodies) && TxsOf([], [], bodies)
    ensures Overwritten(canonical, canonical, branch, |branch|)
  {
  }

  lemma OverwriteNext(canonical: map<nat, Hash>, was: map<nat, Hash>, branch: seq<Header>, headers: Headers,
                      top: Header, base: Header, k: nat)
    requires Branch(branch, headers, top, base) && k < |branch| && Overwritten(canonical, was, branch, k + 1)
    ensures Overwritten(canonical[branch[k].number := branch[k].hash], was, branch, k)
  {
    var c' := canonical[branch[k].number := branch[k].hash];
    forall i | k < i < |branch| ensures branch[i].number != branch[k].number {
    }
    hide Branch;
    forall n: nat | Untouched(branch, k, n) ensures (n in c' <==> n in was) && (n in was ==> c'[n] == was[n]) {
      assert branch[k].number != n && Untouched(branch, k + 1, n);
    }
  }

  lemma TxsPrepend(txs: seq<Hash>, branch: seq<Header>, bodies: Bodies, block: Header)
    requires TxsOf(txs, branch, bodies) && block.hash in bodies
    ensures TxsOf(txs + bodies[block.hash], [block] + branch, bodies)
  {
    var all := [block] + branch;
    forall tx: Hash ensures tx in txs + bodies[block.hash] <==> InBranch(tx, all, bodies) {
      if tx in txs {
        var p: Place :| OnBranch(tx, p, branch, bodies);
        OnEither(block, branch, bodies, tx, p);
        assert OnBranch(tx, p, all, bodies);
      }
      if tx in bodies[block.hash] {
        var i :| 0 <= i < |bodies[block.hash]| && bodies[block.hash][i] == tx;
        assert InBlock(tx, Place(block.hash, block.number, i), all[0], bodies);
        assert OnBranch(tx, Place(block.hash, block.number, i), all, bodies);
      }
      if InBranch(tx, all, bodies) && tx !in bodies[block.hash] {
        var p: Place :| OnBranch(tx, p, all, bodies);
        OnEither(block, branch, bodies, tx, p);
        assert OnBranch(tx, p, branch, bodies);
      }
    }
  }

  lemma WrittenBlock(lookup: Lookup, was: Lookup, block: Header, bodies: Bodies)
    requires block.hash in bodies
    requires forall tx: Hash :: tx in bodies[block.hash] ==>
      && tx in lookup && lookup[tx].block == block.hash && lookup[tx].number == block.number
      && lookup[tx].index < |bodies[block.hash]| && bodies[block.hash][lookup[tx].index] == tx
    requires forall tx: Hash :: tx !in bodies[block.hash] ==>
      (tx in lookup <==> tx in was) && (tx in was ==> lookup[tx] == was[tx])
    ensures Written(lookup, was, [block], bodies)
  {
    forall tx: Hash ensures InBranch(tx, [block], bodies) <==> tx in bodies[block.hash] {
      if tx in bodies[block.hash] {
        assert InBlock(tx, lookup[tx], [block][0], bodies);
        assert OnBranch(tx, lookup[tx], [block], bodies);
      }
    }
    forall tx: Hash | tx in bodies[block.hash] ensures OnBranch(tx, lookup[tx], [block], bodies) {
      assert InBlock(tx, lookup[tx], [block][0], bodies);
    }
  }
}
