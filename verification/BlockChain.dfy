/**
The block chain: block and total-difficulty stores, canonical numbers, the transaction
lookup index and the heads, kept together by `WriteBlockAndState`, `insert` and `reorg`.
*/
module BlockChains {
  import opened Options
  import opened Ancestry
  import opened Ledgers

  datatype WriteStatus = UnknownAncestor | Canonical | Side | ReorgFailed

  /** The chain database knows exactly the blocks of the ledger, with their total difficulties. */
  ghost predicate StoreOk(l: Ledger, blocks: map<Key, Block>, tds: map<Key, nat>)
    requires l.Valid()
  {
    && Keyed(l, blocks) && TdsOk(l, tds)
    && (forall h :: h in l.tree.known ==> KeyOf(l.tree.known[h]) in blocks)
  }

  ghost predicate TdsOk(l: Ledger, tds: map<Key, nat>)
    requires l.Valid()
  {
    && (forall k :: k in tds ==> k.1 in l.tree.known && k.0 == l.tree.known[k.1].number)
    && (forall h :: h in l.tree.known ==>
          KeyOf(l.tree.known[h]) in tds && tds[KeyOf(l.tree.known[h])] == l.tree.Td(l.tree.known[h]))
  }

  ghost predicate AllOnce(l: Ledger)
    requires l.Valid()
  {
    forall h :: h in l.tree.known ==> l.Once(l.tree.known[h])
  }

  /** The canonical numbers from height `lo` up to `h` are the ancestry of `h`. */
  ghost predicate CanonicalFrom(canonical: map<nat, Hash>, t: BlockTree, h: Header, lo: nat)
    requires t.Valid() && t.Has(h)
  {
    forall n: nat :: lo <= n <= h.number ==> n in canonical && canonical[n] == t.At(h, n).hash
  }

  /** `s` lists the blocks of the line of `h` from the top down to, excluding, height `lo`. */
  ghost predicate IsSegment(l: Ledger, h: Header, lo: nat, s: seq<Block>)
    requires l.Valid() && l.tree.Has(h) && lo <= h.number
  {
    |s| == h.number - lo && forall i :: 0 <= i < |s| ==> s[i] == l.BlockAt(h, h.number - i)
  }

  ghost predicate Keyed(l: Ledger, blocks: map<Key, Block>) {
    forall k :: k in blocks ==> l.Has(blocks[k]) && k == KeyOf(blocks[k].header)
  }

  ghost predicate ParentStored(l: Ledger, blocks: map<Key, Block>, h: Hash)
    requires l.Valid() && h in l.tree.known
  {
    l.tree.known[h].number > 0 ==> KeyOf(l.tree.Parent(l.tree.known[h])) in blocks
  }

  /** Every parent is stored; the block being written itself still waits in the batch. */
  ghost predicate ParentsStored(l: Ledger, blocks: map<Key, Block>)
    requires l.Valid()
  {
    Keyed(l, blocks) && forall h {:trigger ParentStored(l, blocks, h)} :: h in l.tree.known ==> ParentStored(l, blocks, h)
  }

  lemma GenesisOk(g: Block)
    requires g.header.number == 0 && g.header.hash != NO_HASH && g.txs == []
    ensures var h := g.header;
      var l := Ledger(BlockTree(map[h.hash := h], h), map[h.hash := []]);
      && l.Valid() && l.Has(g) && AllOnce(l) && l.Index(h, -1) == map[]
      && StoreOk(l, map[KeyOf(h) := g], map[KeyOf(h) := h.difficulty])
      && CanonicalFrom(map[0 := h.hash], l.tree, h, 0)
  {
  }

  lemma MapPut<K, V>(a: map<K, V>, b: map<K, V>, k: K, v: V)
    ensures (a + b)[k := v] == a + b[k := v]
  {
  }

  /** On a parent-closed store a parent lookup finds the parent. */
  lemma ParentFound(l: Ledger, blocks: map<Key, Block>, h: Header)
    requires l.Valid() && l.tree.Has(h) && h.number > 0 && ParentsStored(l, blocks)
    ensures Lookup(blocks, (PrevNumber(h.number), h.parent)) == Some(l.BlockOf(l.tree.Parent(h)))
  {
    assert ParentStored(l, blocks, h.hash);
  }

  /** One more block of a line: the listed segment and its transactions grow together. */
  lemma SegmentDown(l: Ledger, h: Header, n: nat, s: seq<Block>)
    requires l.Valid() && l.tree.Has(h) && l.Once(h) && 0 < n <= h.number && IsSegment(l, h, n, s)
    ensures IsSegment(l, h, n - 1, s + [l.BlockAt(h, n)])
    ensures l.tree.Parent(l.tree.At(h, n)) == l.tree.At(h, n - 1)
    ensures l.Index(h, n - 1).Keys == l.Index(h, n).Keys + set t | t in l.BlockAt(h, n).txs
  {
    StepDown(l.tree, h, n);
    IndexDown(l, h, n);
  }

  /** The block chain at one moment: what was written, the canonical numbers and the three heads. */
  datatype View = View(ledger: Ledger, canonical: map<nat, Hash>, head: Block, header: Header, fast: Block)

  /** The move of all heads to a block whose line meets that of the old head at height `c`. */
  ghost predicate MovedTo(v: View, block: Block, c: nat, v': View) {
    var l, b := v'.ledger, block.header;
    && l.Valid() && l.Has(block) && l.Has(v.head) && v'.head == block
    && Forks(l.tree, v.head.header, b, c) && CanonicalMoved(l, v.canonical, v'.canonical, b, c)
    && HeadsMoved(l, v.canonical, v.header, v.fast, b, c, v'.header, v'.fast)
  }

  /** A write: a block without a known parent changes nothing; another one is recorded, and becomes the head exactly if it wins. */
  ghost predicate Wrote(v: View, block: Block, coin: bool, v': View) {
    if block.header.parent !in v.ledger.tree.known then v' == v
    else
      var l := v.ledger.Grow(block);
      && v'.ledger == l && l.Valid() && l.Has(block) && l.Has(v.head)
      && var td, localTd := l.tree.Td(block.header), l.tree.Td(v.head.header);
         if td > localTd || (td == localTd && coin) then exists c: nat :: MovedTo(v, block, c, v')
         else v' == v.(ledger := l)
  }

  class BlockChain {
    ghost var ledger: Ledger

    // The chain database.
    var blocks: map<Key, Block>
    var tds: map<Key, nat>
    var canonical: map<nat, Hash>
    var lookup: map<TxHash, Entry>
    var headBlockHash: Hash
    var headHeaderHash: Hash
    var headFastHash: Hash

    const genesisBlock: Block
    var currentBlock: Block
    var currentFastBlock: Block
    var currentHeader: Header

    ghost predicate Valid()
      reads this
    {
      && ledger.Valid() && ledger.tree.genesis == genesisBlock.header
      && StoreOk(ledger, blocks, tds) && AllOnce(ledger)
      && ledger.Has(currentBlock) && ledger.Has(currentFastBlock) && HeadsRecorded()
      && CanonicalFrom(canonical, ledger.tree, currentBlock.header, 0)
      && lookup == ledger.Index(currentBlock.header, -1)
    }

    /** The database names the three heads that the chain holds in memory. */
    predicate HeadsRecorded()
      reads this
    {
      headBlockHash == currentBlock.header.hash && headHeaderHash == currentHeader.hash && headFastHash == currentFastBlock.header.hash
    }

    /** No block ever written is heavier than the current one. */
    ghost predicate Heaviest()
      reads this
      requires Valid()
    {
      forall h :: h in ledger.tree.known ==>
        ledger.tree.Td(ledger.tree.known[h]) <= ledger.tree.Td(currentBlock.header)
    }

    constructor (genesis: Block)
      requires genesis.header.number == 0 && genesis.header.hash != NO_HASH && genesis.txs == []
      ensures Valid() && Heaviest()
      ensures genesisBlock == currentBlock == genesis
      ensures ledger == Ledger(BlockTree(map[genesis.header.hash := genesis.header], genesis.header), map[genesis.header.hash := []])
    {
      var h := genesis.header;
      hide StoreOk, AllOnce, CanonicalFrom, BlockTree.Td, BlockTree.Valid, Ledger.Index;
      GenesisOk(genesis);
      ledger := Ledger(BlockTree(map[h.hash := h], h), map[h.hash := []]);
      blocks, tds := map[KeyOf(h) := genesis], map[KeyOf(h) := h.difficulty];
      canonical, lookup := map[0 := h.hash], map[];
      headBlockHash, headHeaderHash, headFastHash := h.hash, h.hash, h.hash;
      genesisBlock, currentBlock, currentFastBlock, currentHeader := genesis, genesis, genesis, h;
    }

    function GetBlock(hash: Hash, number: nat): Option<Block>
      reads this
    {
      Lookup(blocks, (number, hash))
    }

    /** Makes a block the head; the other heads follow only if its number pointed elsewhere. */
    method Insert(block: Block)
      modifies this`canonical, this`headBlockHash, this`currentBlock,
               this`currentHeader, this`headHeaderHash, this`currentFastBlock, this`headFastHash
      ensures canonical == old(canonical)[block.header.number := block.header.hash]
      ensures currentBlock == block && (old(HeadsRecorded()) ==> HeadsRecorded())
      ensures if Lookup(old(canonical), block.header.number) != Some(block.header.hash)
              then currentHeader == block.header && currentFastBlock == block
              else currentHeader == old(currentHeader) && currentFastBlock == old(currentFastBlock)
    {
      var updateHeads := Lookup(canonical, block.header.number) != Some(block.header.hash);
      canonical := canonical[block.header.number := block.header.hash];
      headBlockHash := block.header.hash;
      currentBlock := block;
      if updateHeads {
        headHeaderHash, currentHeader := block.header.hash, block.header;
        headFastHash, currentFastBlock := block.header.hash, block;
      }
    }

    method WriteTxLookupEntries(block: Block)
      modifies this`lookup
      ensures lookup == old(lookup) + Entries(block)
    {
      for i := 0 to |block.txs|
        invariant lookup == old(lookup) + EntriesUpTo(block, i)
      {
        MapPut(old(lookup), EntriesUpTo(block, i), block.txs[i], Entry(block.header.hash, block.header.number, i));
        lookup := lookup[block.txs[i] := Entry(block.header.hash, block.header.number, i)];
      }
    }

    /**
    Walks both lines down to their meeting point, listing the blocks (and the old
    transactions) passed on the way.
    */
    method CollectChains(oldBlock: Block, newBlock: Block)
      returns (ok: bool, oldChain: seq<Block>, newChain: seq<Block>, deletedTxs: seq<TxHash>, ghost c: nat)
      requires ledger.Valid() && ParentsStored(ledger, blocks)
      requires ledger.Has(oldBlock) && ledger.Has(newBlock) && ledger.Once(oldBlock.header) && ledger.Once(newBlock.header)
      ensures ok && Forks(ledger.tree, oldBlock.header, newBlock.header, c)
      ensures IsSegment(ledger, oldBlock.header, c, oldChain) && IsSegment(ledger, newBlock.header, c, newChain)
      ensures (set t | t in deletedTxs) == ledger.Index(oldBlock.header, c).Keys
    {
      hide BlockTree.At, BlockTree.Valid, Ledger.Index, Ledger.Once, ParentsStored, IsSegment;
      ghost var l, a, b := ledger, oldBlock.header, newBlock.header;
      LineTop(l, oldBlock);
      LineTop(l, newBlock);
      var o, n := Some(oldBlock), Some(newBlock);
      ok, oldChain, newChain, deletedTxs, c := false, [], [], [], 0;
      if oldBlock.header.number > newBlock.header.number {
        while o.Some? && o.value.header.number != newBlock.header.number
          invariant o.Some? && b.number <= o.value.header.number <= a.number
          invariant o.value == l.BlockAt(a, o.value.header.number)
          invariant IsSegment(l, a, o.value.header.number, oldChain)
          invariant (set t | t in deletedTxs) == l.Index(a, o.value.header.number).Keys
          decreases o.value.header.number
        {
          var x := o.value;
          SegmentDown(l, a, x.header.number, oldChain);
          ParentFound(l, blocks, x.header);
          oldChain := oldChain + [x];
          deletedTxs := deletedTxs + x.txs;
          o := GetBlock(x.header.parent, PrevNumber(x.header.number));
        }
      } else {
        while n.Some? && n.value.header.number != oldBlock.header.number
          invariant n.Some? && a.number <= n.value.header.number <= b.number
          invariant n.value == l.BlockAt(b, n.value.header.number)
          invariant IsSegment(l, b, n.value.header.number, newChain)
          decreases n.value.header.number
        {
          var x := n.value;
          SegmentDown(l, b, x.header.number, newChain);
          ParentFound(l, blocks, x.header);
          newChain := newChain + [x];
          n := GetBlock(x.header.parent, PrevNumber(x.header.number));
        }
      }
      if o.None? || n.None? {
        return;
      }
      while o.value.header.hash != n.value.header.hash
        invariant o.Some? && n.Some? && o.value.header.number == n.value.header.number
        invariant o.value.header.number <= a.number && o.value.header.number <= b.number
        invariant o.value == l.BlockAt(a, o.value.header.number) && n.value == l.BlockAt(b, o.value.header.number)
        invariant IsSegment(l, a, o.value.header.number, oldChain) && IsSegment(l, b, o.value.header.number, newChain)
        invariant (set t | t in deletedTxs) == l.Index(a, o.value.header.number).Keys
        invariant var m := o.value.header.number; m < a.number && m < b.number ==> l.tree.At(a, m + 1) != l.tree.At(b, m + 1)
        decreases o.value.header.number
      {
        var x, y := o.value, n.value;
        NotBothGenesis(l.tree, x.header, y.header);
        SegmentDown(l, a, x.header.number, oldChain);
        SegmentDown(l, b, y.header.number, newChain);
        ParentFound(l, blocks, x.header);
        ParentFound(l, blocks, y.header);
        oldChain, newChain := oldChain + [x], newChain + [y];
        deletedTxs := deletedTxs + x.txs;
        o, n := GetBlock(x.header.parent, PrevNumber(x.header.number)), GetBlock(y.header.parent, PrevNumber(y.header.number));
        if o.None? || n.None? {
          return;
        }
      }
      ok, c := true, o.value.header.number;
      PartAbove(l.tree, a, b, c);
    }

    /**
    Moves the chain from `oldBlock` to `newBlock`: canonical numbers and lookup entries are
    rewritten along the new line (top first) and entries only the old line had are deleted.
    The blocks left behind are reported. The header head ends on the lowest block whose number changed.
    */
    method Reorg(oldBlock: Block, newBlock: Block) returns (ok: bool, side: seq<Block>, ghost c: nat)
      requires ledger.Valid() && ParentsStored(ledger, blocks)
      requires ledger.Has(oldBlock) && ledger.Has(newBlock) && ledger.Once(oldBlock.header) && ledger.Once(newBlock.header)
      requires CanonicalFrom(canonical, ledger.tree, oldBlock.header, 0)
      requires lookup == ledger.Index(oldBlock.header, -1)
      modifies this`canonical, this`lookup, this`headBlockHash, this`currentBlock,
               this`currentHeader, this`headHeaderHash, this`currentFastBlock, this`headFastHash
      ensures ok && Forks(ledger.tree, oldBlock.header, newBlock.header, c)
      ensures HeadsMoved(ledger, old(canonical), old(currentHeader), old(currentFastBlock), newBlock.header, c, currentHeader, currentFastBlock)
      ensures old(HeadsRecorded()) ==> HeadsRecorded()
      ensures IsSegment(ledger, oldBlock.header, c, side)
      ensures CanonicalFrom(canonical, ledger.tree, newBlock.header, 0) && CanonicalMoved(ledger, old(canonical), canonical, newBlock.header, c)
      ensures lookup == ledger.Index(newBlock.header, -1)
    {
      hide BlockTree.At, BlockTree.Valid, Ledger.Index, Ledger.Once, ParentsStored, CanonicalFrom, IsSegment, CanonicalMoved, HeadsMoved;
      ghost var l, a, b, canonical0 := ledger, oldBlock.header, newBlock.header, canonical;
      var newChain, deletedTxs;
      ok, side, newChain, deletedTxs, c := CollectChains(oldBlock, newBlock);
      if !ok {
        return;
      }
      var addedTxs := InsertChain(newChain, b, c);
      CanonicalJoined(l, canonical0, canonical, a, b, c);
      var diff := TxDifference(deletedTxs, addedTxs);
      IndexReroute(l, a, b, c);
      DeleteTxLookupEntries(diff);
    }

    /** Inserts the new blocks top first, with their lookup entries. */
    method InsertChain(newChain: seq<Block>, ghost b: Header, ghost c: nat) returns (addedTxs: seq<TxHash>)
      requires ledger.Valid() && ledger.tree.Has(b) && ledger.Once(b) && c <= b.number
      requires IsSegment(ledger, b, c, newChain)
      modifies this`canonical, this`lookup, this`headBlockHash, this`currentBlock,
               this`currentHeader, this`headHeaderHash, this`currentFastBlock, this`headFastHash
      ensures CanonicalMoved(ledger, old(canonical), canonical, b, c)
      ensures lookup == old(lookup) + ledger.Index(b, c)
      ensures (set t | t in addedTxs) == ledger.Index(b, c).Keys
      ensures HeadsMoved(ledger, old(canonical), old(currentHeader), old(currentFastBlock), b, c, currentHeader, currentFastBlock)
      ensures old(HeadsRecorded()) ==> HeadsRecorded()
    {
      hide BlockTree.At, BlockTree.Valid, Ledger.Index, Ledger.Once, CanonicalMoved, HeadsMoved;
      ghost var l, canonical0, lookup0, header0, fast0 := ledger, canonical, lookup, currentHeader, currentFastBlock;
      addedTxs := [];
      InsertStart(l, canonical, lookup, b, currentHeader, currentFastBlock);
      for i := 0 to |newChain|
        invariant CanonicalMoved(l, canonical0, canonical, b, b.number - i)
        invariant lookup == lookup0 + l.Index(b, b.number - i)
        invariant (set t | t in addedTxs) == l.Index(b, b.number - i).Keys
        invariant HeadsMoved(l, canonical0, header0, fast0, b, b.number - i, currentHeader, currentFastBlock)
        invariant old(HeadsRecorded()) ==> HeadsRecorded()
      {
        InsertNext(newChain[i], b, b.number - i, canonical0, lookup0, header0, fast0);
        IndexStep(l, lookup0, b, b.number - i);
        addedTxs := addedTxs + newChain[i].txs;
      }
    }

    /** Inserts the block of the line at height `n`, with its lookup entries. */
    method InsertNext(block: Block, ghost b: Header, ghost n: nat, ghost canonical0: map<nat, Hash>, ghost lookup0: map<TxHash, Entry>,
                      ghost header0: Header, ghost fast0: Block)
      requires ledger.Valid() && ledger.tree.Has(b) && ledger.Once(b) && 0 < n <= b.number && block == ledger.BlockAt(b, n)
      requires CanonicalMoved(ledger, canonical0, canonical, b, n) && lookup == lookup0 + ledger.Index(b, n)
      requires HeadsMoved(ledger, canonical0, header0, fast0, b, n, currentHeader, currentFastBlock)
      modifies this`canonical, this`lookup, this`headBlockHash, this`currentBlock,
               this`currentHeader, this`headHeaderHash, this`currentFastBlock, this`headFastHash
      ensures CanonicalMoved(ledger, canonical0, canonical, b, n - 1) && lookup == lookup0 + ledger.Index(b, n - 1)
      ensures HeadsMoved(ledger, canonical0, header0, fast0, b, n - 1, currentHeader, currentFastBlock)
      ensures old(HeadsRecorded()) ==> HeadsRecorded()
    {
      hide BlockTree.At, BlockTree.Valid, Ledger.Index, Ledger.Once, CanonicalMoved, HeadsMoved;
      CanonicalStep(ledger, canonical0, canonical, b, n);
      HeadsStep(ledger, canonical0, header0, fast0, b, n, currentHeader, currentFastBlock);
      IndexStep(ledger, lookup0, b, n);
      Insert(block);
      WriteTxLookupEntries(block);
    }

    method DeleteTxLookupEntries(diff: seq<TxHash>)
      modifies this`lookup
      ensures lookup == old(lookup) - (set t | t in diff)
    {
      for i := 0 to |diff|
        invariant lookup == old(lookup) - (set t | t in diff[..i])
      {
        assert diff[..i + 1] == diff[..i] + [diff[i]];
        DeleteTxLookupEntry(diff[i]);
      }
      assert diff[..|diff|] == diff;
    }

    method DeleteTxLookupEntry(t: TxHash)
      modifies this`lookup
      ensures lookup == old(lookup) - {t}
    {
      lookup := lookup - {t};
    }

    /** Stores the block's total difficulty; the block itself waits in the batch. */
    method WriteTd(block: Block, td: nat)
      requires Valid() && ledger.Admits(block) && block.header.parent in ledger.tree.known
      requires td == block.header.difficulty + ledger.tree.Td(ledger.tree.known[block.header.parent])
      modifies this`ledger, this`tds
      ensures ledger == old(ledger).Grow(block) && ledger.Valid() && ledger.Has(block) && td == ledger.tree.Td(block.header)
      ensures block.header.number > 0
      ensures ParentsStored(ledger, blocks) && StoreOk(ledger, blocks[KeyOf(block.header) := block], tds) && AllOnce(ledger)
      ensures ledger.Has(currentBlock) && CanonicalFrom(canonical, ledger.tree, currentBlock.header, 0)
      ensures ledger.Has(currentFastBlock) && lookup == ledger.Index(currentBlock.header, -1)
    {
      hide BlockTree.At, BlockTree.Td, BlockTree.Valid, Ledger.Index, Ledger.Admits, StoreOk, AllOnce, ParentsStored, CanonicalFrom;
      GrowStore(ledger, blocks, tds, block);
      GrowHead(ledger, block, canonical, currentBlock);
      GrowHas(ledger, block, currentFastBlock);
      ledger := ledger.Grow(block);
      tds := tds[KeyOf(block.header) := td];
    }

    /** Moves the head to a block whose ancestry is known, reorganising if it is not a child of the head. */
    method MoveHead(block: Block) returns (ok: bool, ghost c: nat)
      requires ledger.Valid() && ledger.Has(block) && ledger.Has(currentBlock) && block.header.number > 0
      requires ParentsStored(ledger, blocks) && AllOnce(ledger) && HeadsRecorded()
      requires CanonicalFrom(canonical, ledger.tree, currentBlock.header, 0)
      requires lookup == ledger.Index(currentBlock.header, -1)
      modifies this`blocks, this`canonical, this`lookup, this`headBlockHash, this`currentBlock,
               this`currentHeader, this`headHeaderHash, this`currentFastBlock, this`headFastHash
      ensures ok && blocks == old(blocks)[KeyOf(block.header) := block]
      ensures currentBlock == block && HeadsRecorded()
      ensures CanonicalFrom(canonical, ledger.tree, block.header, 0) && CanonicalMoved(ledger, old(canonical), canonical, block.header, c)
      ensures lookup == ledger.Index(block.header, -1)
      ensures Forks(ledger.tree, old(currentBlock).header, block.header, c)
      ensures HeadsMoved(ledger, old(canonical), old(currentHeader), old(currentFastBlock), block.header, c, currentHeader, currentFastBlock)
    {
      hide BlockTree.At, BlockTree.Valid, Ledger.Index, Ledger.Once, ParentsStored, CanonicalFrom, Forks, HeadsMoved, CanonicalMoved;
      ghost var l, a, b := ledger, currentBlock.header, block.header;
      LastEntries(l, b);
      ok, c := true, currentBlock.header.number;
      if block.header.parent != currentBlock.header.hash {
        var side;
        ok, side, c := Reorg(currentBlock, block);
        if !ok {
          return;
        }
        OldNumber(l.tree, canonical, b, b.number);
        assert l.tree.At(b, b.number) == b by { CanonicalTop(l.tree, canonical, b); }
        WrittenAgain(canonical, b);
      } else {
        ChildOfHead(l, canonical, currentHeader, currentFastBlock, a, block);
      }
      blocks := blocks[KeyOf(block.header) := block];
      WriteTxLookupEntries(block);
      CanonicalTop(l.tree, canonical, b);
      Insert(block);
    }

    /**
    Writes a block whose parent is known, moving the head to it when its total difficulty
    wins (`coin` decides ties). `c` is the height at which its line meets that of the old head.
    */
    method WriteBlockAndState(block: Block, coin: bool) returns (status: WriteStatus, ghost c: nat)
      requires Valid() && ledger.Admits(block)
      modifies this
      ensures Valid() && status != ReorgFailed
      ensures status == UnknownAncestor <==> block.header.parent !in old(ledger).tree.known
      ensures status != Canonical ==>
        && currentBlock == old(currentBlock) && currentHeader == old(currentHeader) && currentFastBlock == old(currentFastBlock)
        && canonical == old(canonical) && lookup == old(lookup)
      ensures status == UnknownAncestor ==> blocks == old(blocks) && tds == old(tds)
      ensures ledger == if status == UnknownAncestor then old(ledger) else old(ledger).Grow(block)
      ensures status != UnknownAncestor ==>
        && ledger.Has(block) && ledger.Has(old(currentBlock))
        && var td, localTd := ledger.tree.Td(block.header), ledger.tree.Td(old(currentBlock).header);
           (status == Canonical <==> td > localTd || (td == localTd && coin))
      ensures status == Canonical ==> currentBlock == block && CanonicalMoved(ledger, old(canonical), canonical, block.header, c)
      ensures status == Canonical ==> Forks(ledger.tree, old(currentBlock).header, block.header, c)
      ensures status == Canonical ==>
        HeadsMoved(ledger, old(canonical), old(currentHeader), old(currentFastBlock), block.header, c, currentHeader, currentFastBlock)
      ensures status == Canonical ==>
        (currentHeader == block.header <==> KeepsUp(ledger.tree, old(canonical), old(currentHeader), block.header, c))
      ensures old(ledger.tree.Td(currentBlock.header)) <= ledger.tree.Td(currentBlock.header)
      ensures old(Heaviest()) ==> Heaviest()
    {
      hide BlockTree.At, BlockTree.Td, BlockTree.Valid, Ledger.Index, Ledger.Admits, StoreOk, AllOnce, ParentsStored, CanonicalFrom,
           Forks, HeadsMoved, KeepsUp, CanonicalMoved;
      ghost var l0 := ledger;
      FindTds(ledger, blocks, tds, block, currentBlock);
      var ptd := Lookup(tds, (PrevNumber(block.header.number), block.header.parent));
      if ptd.None? {
        return UnknownAncestor, 0;
      }
      var localTd := Lookup(tds, KeyOf(currentBlock.header));
      var externTd := block.header.difficulty + ptd.value;
      WriteTd(block, externTd);
      LedgerTds(l0, block);
      if externTd > localTd.value || (externTd == localTd.value && coin) {
        var ok;
        ok, c := MoveHead(block);
        if !ok {
          status := ReorgFailed;
          return;
        }
        HeaderKeepsUp(ledger, old(canonical), old(currentHeader), old(currentFastBlock), block.header, c, currentHeader, currentFastBlock);
        status := Canonical;
      } else {
        blocks := blocks[KeyOf(block.header) := block];
        status, c := Side, 0;
      }
    }

    ghost function Now(): View
      reads this
    {
      View(ledger, canonical, currentBlock, currentHeader, currentFastBlock)
    }

    /**
    Any run of block writes, each with either outcome of the coin: every write is as specified, so that
    the heads move at canonical writes only; a lookup entry is there exactly if its transaction is on the
    current chain, and points at its place; canonical numbers up to the head are the head's ancestry;
    and the head is a heaviest block.
    */
    method Run(writes: seq<(Block, bool)>, ghost universe: Ledger) returns (ghost views: seq<View>)
      requires Valid() && Heaviest() && PartOf(ledger, universe)
      requires forall i :: 0 <= i < |writes| ==> universe.Has(writes[i].0) && writes[i].0.header.number > 0
      modifies this
      ensures Valid() && Heaviest() && PartOf(ledger, universe) && ledger == Recorded(old(ledger), writes)
      ensures |views| == |writes| + 1 && views[0] == old(Now()) && views[|writes|] == Now()
      ensures forall i :: 0 <= i < |writes| ==> Wrote(views[i], writes[i].0, writes[i].1, views[i + 1])
      ensures forall t: TxHash, e: Entry :: t in lookup && lookup[t] == e <==> ledger.OnChain(currentBlock.header, t, e)
      ensures forall n: nat :: n <= currentBlock.header.number ==>
        n in canonical && canonical[n] == ledger.tree.At(currentBlock.header, n).hash
    {
      hide StoreOk, AllOnce, BlockTree.Valid, BlockTree.At, BlockTree.Td, Ledger.Index, PartOf, Ledger.Admits, Wrote;
      views := [Now()];
      for i := 0 to |writes|
        invariant Valid() && Heaviest() && PartOf(ledger, universe) && ledger == Recorded(old(ledger), writes[..i])
        invariant |views| == i + 1 && views[0] == old(Now()) && views[i] == Now()
        invariant forall j :: 0 <= j < i ==> Wrote(views[j], writes[j].0, writes[j].1, views[j + 1])
      {
        assert writes[..i + 1][..i] == writes[..i];
        RunWrite(writes[i].0, writes[i].1, universe);
        views := views + [Now()];
      }
      assert writes[..|writes|] == writes;
      forall t: TxHash, e: Entry ensures t in lookup && lookup[t] == e <==> ledger.OnChain(currentBlock.header, t, e) {
        CurrentOnce(ledger, currentBlock);
        IndexMeaning(ledger, currentBlock.header, t, e);
      }
      CanonicalLine(canonical, ledger.tree, currentBlock.header);
    }

    method RunWrite(block: Block, coin: bool, ghost universe: Ledger)
      requires Valid() && Heaviest() && PartOf(ledger, universe) && universe.Has(block) && block.header.number > 0
      modifies this
      ensures Valid() && Heaviest() && PartOf(ledger, universe)
      ensures ledger == if block.header.parent in old(ledger).tree.known then old(ledger).Grow(block) else old(ledger)
      ensures Wrote(old(Now()), block, coin, Now())
    {
      hide StoreOk, AllOnce, BlockTree.Valid, BlockTree.At, BlockTree.Td, Ledger.Index, PartOf, Ledger.Admits, CanonicalFrom;
      hide Forks, HeadsMoved, CanonicalMoved, KeepsUp;
      AdmitsPart(ledger, universe, block);
      var status;
      ghost var c;
      status, c := WriteBlockAndState(block, coin);
      assert status == Canonical ==> MovedTo(old(Now()), block, c, Now());
      if status != UnknownAncestor {
        GrowPart(old(ledger), universe, block);
      }
    }
  }

  /** Lines that differ right above a common block differ from there on. */
  lemma PartAbove(t: BlockTree, a: Header, b: Header, c: nat)
    requires t.Valid() && t.Has(a) && t.Has(b) && c <= a.number && c <= b.number && t.At(a, c) == t.At(b, c)
    requires c < a.number && c < b.number ==> t.At(a, c + 1) != t.At(b, c + 1)
    ensures Forks(t, a, b, c)
  {
    hide BlockTree.At, BlockTree.Valid;
    forall n: nat | c < n && n <= a.number && n <= b.number ensures t.At(a, n) != t.At(b, n) {
      if t.At(a, n) == t.At(b, n) {
        SharedBelow(t, a, b, n, c + 1);
      }
    }
  }

  lemma ForkUnique(t: BlockTree, a: Header, b: Header, c: nat, d: nat)
    requires t.Valid() && t.Has(a) && t.Has(b) && Forks(t, a, b, c) && Forks(t, a, b, d)
    ensures c == d
  {
  }

  /** The numbers of the line of `b` above `lo` and below `hi` already point at that line. */
  ghost predicate PointsAlong(t: BlockTree, canonical: map<nat, Hash>, b: Header, lo: int, hi: int)
    requires t.Valid() && t.Has(b)
  {
    forall n: nat :: lo < n < hi && n <= b.number ==> Lookup(canonical, n) == Some(t.At(b, n).hash)
  }

  /**
  Inserting the line of `b` above height `lo`, top first, moves the header head to the lowest of its
  blocks whose number pointed elsewhere, and leaves it alone if there is none.
  */
  ghost predicate HeaderMoved(t: BlockTree, canonical: map<nat, Hash>, before: Header, b: Header, lo: int, after: Header)
    requires t.Valid() && t.Has(b)
  {
    && (PointsAlong(t, canonical, b, lo, b.number + 1) ==> after == before)
    && forall m: nat :: lo < m <= b.number && PointsAlong(t, canonical, b, lo, m) && Lookup(canonical, m) != Some(t.At(b, m).hash) ==>
         after == t.At(b, m)
  }

  lemma HeaderStep(t: BlockTree, canonical: map<nat, Hash>, before: Header, b: Header, n: nat, after: Header)
    requires t.Valid() && t.Has(b) && 0 < n <= b.number && HeaderMoved(t, canonical, before, b, n, after)
    ensures HeaderMoved(t, canonical, before, b, n - 1,
                        if Lookup(canonical, n) != Some(t.At(b, n).hash) then t.At(b, n) else after)
  {
    hide BlockTree.At, BlockTree.Valid, PointsAlong, Lookup;
    forall m: nat ensures PointsAlong(t, canonical, b, n - 1, m) <==>
        (n < m ==> Lookup(canonical, n) == Some(t.At(b, n).hash)) && PointsAlong(t, canonical, b, n, m)
    {
      PointsOneMore(t, canonical, b, n, m);
    }
    PointsNowhere(t, canonical, b, n);
  }

  lemma PointsOneMore(t: BlockTree, canonical: map<nat, Hash>, b: Header, n: nat, m: nat)
    requires t.Valid() && t.Has(b) && 0 < n <= b.number
    ensures PointsAlong(t, canonical, b, n - 1, m) <==>
      (n < m ==> Lookup(canonical, n) == Some(t.At(b, n).hash)) && PointsAlong(t, canonical, b, n, m)
  {
    hide BlockTree.At, BlockTree.Valid, Lookup;
    if PointsAlong(t, canonical, b, n - 1, m) && n < m {
      assert n - 1 < n < m;
    }
  }

  /** Nothing lies between a number and itself. */
  lemma PointsNowhere(t: BlockTree, canonical: map<nat, Hash>, b: Header, n: nat)
    requires t.Valid() && t.Has(b)
    ensures forall m: nat :: m <= n + 1 ==> PointsAlong(t, canonical, b, n, m)
  {
  }

  lemma LowestMoved(t: BlockTree, canonical: map<nat, Hash>, before: Header, b: Header, c: nat, after: Header)
    requires t.Valid() && t.Has(b) && c < b.number && HeaderMoved(t, canonical, before, b, c, after)
    requires Lookup(canonical, c + 1) != Some(t.At(b, c + 1).hash)
    ensures after == t.At(b, c + 1)
  {
    assert PointsAlong(t, canonical, b, c, c + 1);
  }

  /** The header head and the fast-sync head move alike, and the latter stays on a block of the ledger. */
  ghost predicate HeadsMoved(l: Ledger, canonical: map<nat, Hash>, header: Header, fast: Block, b: Header, lo: int,
                             header': Header, fast': Block)
    requires l.Valid() && l.tree.Has(b)
  {
    && HeaderMoved(l.tree, canonical, header, b, lo, header') && HeaderMoved(l.tree, canonical, fast.header, b, lo, fast'.header)
    && (l.Has(fast) ==> l.Has(fast'))
  }

  lemma HeadsStep(l: Ledger, canonical: map<nat, Hash>, header: Header, fast: Block, b: Header, n: nat, header': Header, fast': Block)
    requires l.Valid() && l.tree.Has(b) && 0 < n <= b.number && HeadsMoved(l, canonical, header, fast, b, n, header', fast')
    ensures var moves := Lookup(canonical, n) != Some(l.tree.At(b, n).hash);
      HeadsMoved(l, canonical, header, fast, b, n - 1,
                 if moves then l.tree.At(b, n) else header', if moves then l.BlockAt(b, n) else fast')
  {
    hide BlockTree.At, BlockTree.Valid, HeaderMoved;
    HeaderStep(l.tree, canonical, header, b, n, header');
    HeaderStep(l.tree, canonical, fast.header, b, n, fast'.header);
  }

  lemma HeaderKeepsUp(l: Ledger, canonical: map<nat, Hash>, header: Header, fast: Block, b: Header, c: nat, header': Header, fast': Block)
    requires l.Valid() && l.tree.Has(b) && HeadsMoved(l, canonical, header, fast, b, c, header', fast')
    ensures (header' == b <==> KeepsUp(l.tree, canonical, header, b, c)) && (l.Has(fast) ==> l.Has(fast'))
  {
    hide BlockTree.At, BlockTree.Valid, HeaderMoved, KeepsUp;
    KeepsUpIff(l.tree, canonical, header, b, c, header');
  }

  /** When the header head ends on the written block: every lower number of its line already pointed there. */
  ghost predicate KeepsUp(t: BlockTree, canonical: map<nat, Hash>, before: Header, b: Header, c: nat)
    requires t.Valid() && t.Has(b)
  {
    PointsAlong(t, canonical, b, c, b.number) && (before == b || (c < b.number && Lookup(canonical, b.number) != Some(b.hash)))
  }

  lemma {:induction false} LowestOff(t: BlockTree, canonical: map<nat, Hash>, b: Header, lo: nat, hi: nat) returns (m: nat)
    requires t.Valid() && t.Has(b) && hi <= b.number + 1 && !PointsAlong(t, canonical, b, lo, hi)
    ensures lo < m < hi && PointsAlong(t, canonical, b, lo, m) && Lookup(canonical, m) != Some(t.At(b, m).hash)
    decreases hi
  {
    hide BlockTree.At, BlockTree.Valid;
    if hi > 0 && !PointsAlong(t, canonical, b, lo, hi - 1) {
      m := LowestOff(t, canonical, b, lo, hi - 1);
    } else {
      m := hi - 1;
    }
  }

  lemma KeepsUpIff(t: BlockTree, canonical: map<nat, Hash>, before: Header, b: Header, c: nat, after: Header)
    requires t.Valid() && t.Has(b) && HeaderMoved(t, canonical, before, b, c, after)
    ensures after == b <==> KeepsUp(t, canonical, before, b, c)
  {
    assert t.At(b, b.number) == b;
    hide BlockTree.Valid;
    if !PointsAlong(t, canonical, b, c, b.number) {
      var m := LowestOff(t, canonical, b, c, b.number);
    }
  }

  /** Where the lines part above both, the header head keeps up exactly with a new line of one block. */
  lemma KeepsUpAtFork(t: BlockTree, canonical: map<nat, Hash>, before: Header, a: Header, b: Header, c: nat)
    requires t.Valid() && t.Has(a) && t.Has(b) && Forks(t, a, b, c) && c < a.number && c < b.number
    requires CanonicalFrom(canonical, t, a, 0)
    ensures KeepsUp(t, canonical, before, b, c) <==> b.number == c + 1
  {
    OldNumber(t, canonical, a, c + 1);
    assert t.At(b, b.number) == b;
    hide BlockTree.Valid;
  }

  /** On a child of the head it keeps up exactly if the child's number pointed elsewhere, or it was there already. */
  lemma KeepsUpWithChild(t: BlockTree, canonical: map<nat, Hash>, before: Header, a: Header, b: Header)
    requires t.Valid() && t.Has(a) && t.Has(b) && b.number > 0 && b.parent == a.hash
    ensures Forks(t, a, b, a.number)
    ensures KeepsUp(t, canonical, before, b, a.number) <==> before == b || Lookup(canonical, b.number) != Some(b.hash)
  {
    assert t.Parent(b) == a;
  }

  /** A child of the head meets its line at the head, and its number completes the table. */
  lemma ChildOfHead(l: Ledger, canonical: map<nat, Hash>, header: Header, fast: Block, a: Header, block: Block)
    requires l.Valid() && l.tree.Has(a) && l.Has(block) && block.header.number > 0 && block.header.parent == a.hash
    requires CanonicalFrom(canonical, l.tree, a, 0)
    ensures var b := block.header;
      && CanonicalFrom(canonical[b.number := b.hash], l.tree, b, 0) && b.number == a.number + 1 && Forks(l.tree, a, b, a.number)
      && CanonicalMoved(l, canonical, canonical[b.number := b.hash], b, a.number)
      && var moves := Lookup(canonical, b.number) != Some(b.hash);
         HeadsMoved(l, canonical, header, fast, b, a.number, if moves then b else header, if moves then block else fast)
  {
    var t, b := l.tree, block.header;
    assert t.Parent(b) == a;
    forall n: nat | n <= a.number ensures t.At(b, n) == t.At(a, n) { }
    assert t.At(b, b.number) == b;
  }

  lemma WrittenAgain(canonical: map<nat, Hash>, b: Header)
    requires Lookup(canonical, b.number) == Some(b.hash)
    ensures canonical[b.number := b.hash] == canonical
  {
  }

  lemma CanonicalTop(t: BlockTree, canonical: map<nat, Hash>, b: Header)
    requires t.Valid() && t.Has(b)
    ensures CanonicalFrom(canonical, t, b, 0) ==> CanonicalFrom(canonical[b.number := b.hash], t, b, 0)
    ensures t.At(b, b.number) == b
  {
  }

  /** A head's own entries are the last ones its index writes. */
  lemma LastEntries(l: Ledger, b: Header)
    requires l.Valid() && l.tree.Has(b) && b.number > 0
    ensures l.Index(b, -1) == l.Index(l.tree.Parent(b), -1) + Entries(l.BlockOf(b))
    ensures l.Index(b, -1) + Entries(l.BlockOf(b)) == l.Index(b, -1)
  {
  }

  lemma FindTds(l: Ledger, blocks: map<Key, Block>, tds: map<Key, nat>, x: Block, cur: Block)
    requires l.Valid() && StoreOk(l, blocks, tds) && l.Admits(x) && l.Has(cur)
    ensures var ptd := Lookup(tds, (PrevNumber(x.header.number), x.header.parent));
      && (ptd.None? <==> x.header.parent !in l.tree.known)
      && (ptd.Some? ==> ptd.value == l.tree.Td(l.tree.known[x.header.parent]))
    ensures Lookup(tds, KeyOf(cur.header)) == Some(l.tree.Td(cur.header))
  {
    hide BlockTree.Td, Ledger.Index;
  }

  lemma LedgerTds(l: Ledger, x: Block)
    requires l.Valid() && l.Admits(x) && x.header.parent in l.tree.known
    ensures l.Grow(x).Valid()
    ensures forall h :: h in l.tree.known ==>
      l.Grow(x).tree.Has(l.tree.known[h]) && l.Grow(x).tree.Td(l.tree.known[h]) == l.tree.Td(l.tree.known[h])
  {
    GrowValid(l.tree, x.header);
    forall h | h in l.tree.known
      ensures l.Grow(x).tree.Has(l.tree.known[h]) && l.Grow(x).tree.Td(l.tree.known[h]) == l.tree.Td(l.tree.known[h])
    {
      GrowKeeps(l.tree, x.header, l.tree.known[h], 0);
    }
  }

  lemma GrowHas(l: Ledger, x: Block, b: Block)
    requires l.Valid() && l.Admits(x) && x.header.parent in l.tree.known && l.Has(b)
    ensures l.Grow(x).Has(b)
  {
    hide Ledger.Index;
  }

  lemma GrowHead(l: Ledger, x: Block, canonical: map<nat, Hash>, cur: Block)
    requires l.Valid() && l.Admits(x) && x.header.parent in l.tree.known && l.Has(cur)
    requires CanonicalFrom(canonical, l.tree, cur.header, 0)
    ensures var g := l.Grow(x); g.Valid() && g.Has(cur) && CanonicalFrom(canonical, g.tree, cur.header, 0)
    ensures l.Grow(x).Index(cur.header, -1) == l.Index(cur.header, -1)
  {
    hide Ledger.Index;
    GrowIndex(l, x, cur.header, -1);
    forall n: nat ensures l.Grow(x).tree.At(cur.header, n) == l.tree.At(cur.header, n) {
      GrowKeeps(l.tree, x.header, cur.header, n);
    }
  }

  lemma GrowStore(l: Ledger, blocks: map<Key, Block>, tds: map<Key, nat>, x: Block)
    requires l.Valid() && l.Admits(x) && x.header.parent in l.tree.known
    requires StoreOk(l, blocks, tds) && AllOnce(l)
    ensures x.header.number > 0
    ensures var g := l.Grow(x);
      && g.Valid() && g.Has(x) && AllOnce(g) && ParentsStored(g, blocks)
      && g.tree.Td(x.header) == x.header.difficulty + l.tree.Td(l.tree.known[x.header.parent])
      && StoreOk(g, blocks[KeyOf(x.header) := x], tds[KeyOf(x.header) := g.tree.Td(x.header)])
  {
    hide BlockTree.At, BlockTree.Td, BlockTree.Valid, Ledger.Index, Ledger.Once, AllOnce, ParentsStored, TdsOk;
    GrowAllOnce(l, x);
    GrowParents(l, blocks, tds, x);
    GrowTds(l, tds, x);
  }

  lemma GrowTds(l: Ledger, tds: map<Key, nat>, x: Block)
    requires l.Valid() && l.Admits(x) && x.header.parent in l.tree.known && TdsOk(l, tds)
    ensures var g := l.Grow(x);
      && g.Valid() && g.Has(x) && TdsOk(g, tds[KeyOf(x.header) := g.tree.Td(x.header)])
      && g.tree.Td(x.header) == x.header.difficulty + l.tree.Td(l.tree.known[x.header.parent])
  {
    hide Ledger.Index, BlockTree.Td, Ledger.Admits;
    GrowLedgerTd(l, x);
    LedgerTds(l, x);
    var g, key := l.Grow(x), KeyOf(x.header);
    var tds' := tds[key := g.tree.Td(x.header)];
    forall h | h in g.tree.known
      ensures KeyOf(g.tree.known[h]) in tds' && tds'[KeyOf(g.tree.known[h])] == g.tree.Td(g.tree.known[h])
    {
      if h != x.header.hash {
        assert g.tree.known[h] == l.tree.known[h] && KeyOf(l.tree.known[h]) != key;
      }
    }
  }

  lemma GrowLedgerTd(l: Ledger, x: Block)
    requires l.Valid() && l.Admits(x) && x.header.parent in l.tree.known
    ensures x.header.number > 0
    ensures var g := l.Grow(x);
      g.Valid() && g.Has(x) && g.tree.Td(x.header) == x.header.difficulty + l.tree.Td(l.tree.known[x.header.parent])
  {
    hide Ledger.Index, BlockTree.Td;
    GrowValid(l.tree, x.header);
    LedgerTds(l, x);
    assert l.Grow(x).tree.Parent(x.header) == l.tree.known[x.header.parent];
  }

  lemma GrowAllOnce(l: Ledger, x: Block)
    requires l.Valid() && l.Admits(x) && x.header.parent in l.tree.known && AllOnce(l)
    ensures l.Grow(x).Valid() && AllOnce(l.Grow(x))
  {
    hide Ledger.Index;
    GrowAdmitted(l, x);
    forall h | h in l.tree.known ensures l.Grow(x).tree.Has(l.tree.known[h]) && l.Grow(x).Once(l.tree.known[h]) {
      GrowOnce(l, x, l.tree.known[h]);
    }
  }

  lemma GrowParents(l: Ledger, blocks: map<Key, Block>, tds: map<Key, nat>, x: Block)
    requires l.Valid() && l.Admits(x) && x.header.parent in l.tree.known && StoreOk(l, blocks, tds)
    ensures l.Grow(x).Valid() && ParentsStored(l.Grow(x), blocks)
  {
    hide Ledger.Index, TdsOk;
    GrowValid(l.tree, x.header);
    var g := l.Grow(x);
    assert Keyed(g, blocks);
    forall h | h in g.tree.known ensures ParentStored(g, blocks, h) {
      if g.tree.known[h].number > 0 {
        ParentWasKnown(l, x, h);
      }
      hide BlockTree.Valid;
    }
  }

  /** Every parent, the new block's included, was known before. */
  lemma ParentWasKnown(l: Ledger, x: Block, h: Hash)
    requires l.Valid() && l.Admits(x) && x.header.parent in l.tree.known
    requires l.Grow(x).Valid() && h in l.Grow(x).tree.known && l.Grow(x).tree.known[h].number > 0
    ensures var p := l.Grow(x).tree.Parent(l.Grow(x).tree.known[h]); l.tree.Has(p)
  {
    hide Ledger.Index;
    if h in l.tree.known {
      assert l.tree.Has(l.tree.Parent(l.tree.known[h]));
    }
  }

  /** The numbers above height `n` follow the line of `b`; all others are as before. */
  ghost predicate CanonicalMoved(l: Ledger, before: map<nat, Hash>, after: map<nat, Hash>, b: Header, n: int)
    requires l.Valid() && l.tree.Has(b)
  {
    && (forall m: nat :: n < m <= b.number ==> m in after && after[m] == l.tree.At(b, m).hash)
    && (forall m: nat :: m <= n || m > b.number ==> (m in after <==> m in before))
    && (forall m: nat :: (m <= n || m > b.number) && m in after ==> after[m] == before[m])
  }

  lemma InsertStart(l: Ledger, canonical: map<nat, Hash>, lookup: map<TxHash, Entry>, b: Header, h: Header, f: Block)
    requires l.Valid() && l.tree.Has(b)
    ensures CanonicalMoved(l, canonical, canonical, b, b.number) && HeadsMoved(l, canonical, h, f, b, b.number, h, f)
    ensures l.Index(b, b.number) == map[] && lookup + map[] == lookup
  {
  }

  lemma CanonicalStep(l: Ledger, before: map<nat, Hash>, after: map<nat, Hash>, b: Header, n: nat)
    requires l.Valid() && l.tree.Has(b) && 0 < n <= b.number
    requires CanonicalMoved(l, before, after, b, n)
    ensures Lookup(after, n) == Lookup(before, n)
    ensures CanonicalMoved(l, before, after[n := l.tree.At(b, n).hash], b, n - 1)
  {
    hide BlockTree.At, BlockTree.Valid;
    var after' := after[n := l.tree.At(b, n).hash];
    assert forall m: nat :: m != n ==> (m in after' <==> m in after);
    assert forall m: nat :: m != n && m in after ==> after'[m] == after[m];
    assert forall m: nat :: n - 1 < m <= b.number ==> m in after' && after'[m] == l.tree.At(b, m).hash;
  }

  lemma IndexStep(l: Ledger, lookup0: map<TxHash, Entry>, b: Header, n: nat)
    requires l.Valid() && l.tree.Has(b) && l.Once(b) && 0 < n <= b.number
    ensures (lookup0 + l.Index(b, n)) + Entries(l.BlockAt(b, n)) == lookup0 + l.Index(b, n - 1)
    ensures l.Index(b, n - 1).Keys == l.Index(b, n).Keys + set t | t in l.BlockAt(b, n).txs
  {
    hide BlockTree.At, BlockTree.Valid, Ledger.Once, Ledger.Index;
    IndexDown(l, b, n);
    MapConcat(lookup0, l.Index(b, n), Entries(l.BlockAt(b, n)));
  }

  lemma OldNumber(t: BlockTree, canonical: map<nat, Hash>, a: Header, n: nat)
    requires t.Valid() && t.Has(a) && n <= a.number && CanonicalFrom(canonical, t, a, 0)
    ensures Lookup(canonical, n) == Some(t.At(a, n).hash)
  {
  }

  /** Above the meeting point the new line was written; below it both lines agree. */
  lemma CanonicalJoined(l: Ledger, before: map<nat, Hash>, after: map<nat, Hash>, a: Header, b: Header, c: nat)
    requires l.Valid() && l.tree.Has(a) && l.tree.Has(b) && c <= a.number && c <= b.number
    requires CanonicalFrom(before, l.tree, a, 0) && CanonicalMoved(l, before, after, b, c)
    requires l.tree.At(a, c) == l.tree.At(b, c)
    ensures CanonicalFrom(after, l.tree, b, 0)
  {
    forall n: nat | n <= c ensures l.tree.At(a, n) == l.tree.At(b, n) { SharedBelow(l.tree, a, b, c, n); }
  }

  lemma LineTop(l: Ledger, b: Block)
    requires l.Valid() && l.Has(b)
    ensures l.BlockAt(b.header, b.header.number) == b
    ensures IsSegment(l, b.header, b.header.number, []) && l.Index(b.header, b.header.number) == map[]
  {
  }

  lemma NotBothGenesis(t: BlockTree, a: Header, b: Header)
    requires t.Valid() && t.Has(a) && t.Has(b) && a.number == b.number && a.hash != b.hash
    ensures a.number > 0
  {
    if a.number == 0 {
      NumberZero(t, a);
      NumberZero(t, b);
    }
  }

  /** A chain whose head is block 2, with the lighter block 3 beside it. */
  method TwoBlocks() returns (chain: BlockChain)
    ensures fresh(chain) && chain.Valid() && chain.currentBlock == Block(Header(2, 1, 1, 3), [])
    ensures Lookup(chain.canonical, 1) == Some(2)
    ensures chain.ledger.tree == BlockTree(
      map[1 := Header(1, 0, 0, 1), 2 := Header(2, 1, 1, 3), 3 := Header(3, 1, 1, 2)], Header(1, 0, 0, 1))
    ensures chain.ledger.bodies == map[1 := [], 2 := [], 3 := []]
  {
    hide StoreOk, AllOnce, CanonicalFrom, BlockTree.Valid, BlockTree.Td, BlockTree.At, Ledger.Index, HeaderMoved, KeepsUp, Forks;
    var g, a1, b1 := Block(Header(1, 0, 0, 1), []), Block(Header(2, 1, 1, 3), []), Block(Header(3, 1, 1, 2), []);
    chain := new BlockChain(g);
    ghost var c;
    var status;
    status, c := chain.WriteBlockAndState(a1, false);
    assert chain.ledger.tree.Parent(a1.header) == g.header;
    status, c := chain.WriteBlockAndState(b1, false);
    ghost var t := chain.ledger.tree;
    assert t.Parent(a1.header) == t.Parent(b1.header) == g.header;
    OldNumber(t, chain.canonical, a1.header, 1);
    CanonicalTop(t, chain.canonical, a1.header);
  }

  /** After a two-block reorganisation the header head is one block behind the block head. */
  method LaggingHeader() returns (head: Block, header: Header)
    ensures header.number < head.header.number
  {
    hide StoreOk, AllOnce, CanonicalFrom, BlockTree.Valid, BlockTree.Td, BlockTree.At, Ledger.Index, HeaderMoved, KeepsUp, Forks;
    var g, a1 := Header(1, 0, 0, 1), Header(2, 1, 1, 3);
    var b1, b2 := Header(3, 1, 1, 2), Block(Header(4, 3, 2, 2), []);
    var chain := TwoBlocks();
    ghost var canonical, header0 := chain.canonical, chain.currentHeader;
    ghost var c;
    var status;
    status, c := chain.WriteBlockAndState(b2, false);
    ghost var t := chain.ledger.tree;
    assert t.Parent(b2.header) == b1 && t.Parent(a1) == t.Parent(b1) == g;
    ForkAtGenesis(t, g, a1, b1, b2.header);
    ForkUnique(t, a1, b2.header, 0, c);
    LowestMoved(t, canonical, header0, b2.header, c, chain.currentHeader);
    head, header := chain.currentBlock, chain.currentHeader;
  }

  lemma ForkAtGenesis(t: BlockTree, g: Header, a1: Header, b1: Header, b2: Header)
    requires t.Valid() && t.Has(g) && t.Has(a1) && t.Has(b1) && t.Has(b2) && a1 != b1
    requires g.number == 0 && a1.number == b1.number == 1 && b2.number == 2
    requires t.Parent(a1) == g && t.Parent(b1) == g && t.Parent(b2) == b1
    ensures Forks(t, a1, b2, 0) && t.At(a1, 1) == a1 && t.At(b2, 1) == b1
  {
    assert t.At(g, 0) == g && t.At(a1, 1) == a1 && t.At(b1, 1) == b1;
    assert t.At(a1, 0) == g && t.At(b1, 0) == g;
    assert t.At(b2, 0) == g;
  }

  /** The ledger after a list of writes: blocks with an unknown parent are refused. */
  ghost function Recorded(l: Ledger, writes: seq<(Block, bool)>): Ledger {
    if writes == [] then l
    else
      var m, b := Recorded(l, writes[..|writes| - 1]), writes[|writes| - 1].0;
      if b.header.parent in m.tree.known then m.Grow(b) else m
  }

  /** The ledger is part of a larger one on which no chain repeats a transaction. */
  ghost predicate PartOf(l: Ledger, u: Ledger) {
    && u.Valid() && AllOnce(u) && Within(l.tree, u.tree) && l.bodies.Keys == l.tree.known.Keys
    && forall h :: h in l.tree.known ==> l.bodies[h] == u.bodies[h]
  }

  lemma GrowPart(l: Ledger, u: Ledger, b: Block)
    requires PartOf(l, u) && u.Has(b)
    ensures PartOf(l.Grow(b), u)
  {
  }

  /** Blocks of one larger ledger may be written in any order. */
  lemma AdmitsPart(l: Ledger, u: Ledger, b: Block)
    requires l.Valid() && PartOf(l, u) && u.Has(b) && b.header.number > 0
    ensures l.Admits(b)
  {
    var h := b.header;
    assert u.Once(h) by { assert u.tree.known[h.hash] == h; }
    assert u.tree.Linked(h.hash);
    assert u.BlockOf(h) == b && Entries(b).Keys !! u.Index(u.tree.Parent(h), -1).Keys;
    hide Ledger.Once, Ledger.Index;
    if h.parent in l.tree.known {
      var p := l.tree.known[h.parent];
      assert l.tree.Has(p) by { assert l.tree.Linked(h.parent); }
      assert u.tree.Parent(h) == p;
      SubIndex(l, u, p);
    }
  }

  lemma {:induction false} SubIndex(l: Ledger, u: Ledger, h: Header)
    requires l.Valid() && PartOf(l, u) && l.tree.Has(h)
    ensures u.tree.Has(h) && l.Index(h, -1) == u.Index(h, -1)
    decreases h.number
  {
    assert u.tree.known[h.hash] == h;
    assert l.BlockOf(h) == u.BlockOf(h);
    if h.number > 0 {
      assert l.tree.Parent(h) == u.tree.Parent(h);
      SubIndex(l, u, l.tree.Parent(h));
    }
  }

  lemma CurrentOnce(l: Ledger, b: Block)
    requires l.Valid() && AllOnce(l) && l.Has(b)
    ensures l.Once(b.header)
  {
    assert l.tree.known[b.header.hash] == b.header;
  }

  lemma CanonicalLine(canonical: map<nat, Hash>, t: BlockTree, h: Header)
    requires t.Valid() && t.Has(h) && CanonicalFrom(canonical, t, h, 0)
    ensures forall n: nat :: n <= h.number ==> n in canonical && canonical[n] == t.At(h, n).hash
  {
  }
}
