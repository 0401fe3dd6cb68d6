/** The blocks table and the block heights on the transactions table
    (internal/adapter/driven/postgres/repositories/block_repository.go), as values.

    StoreInv is what every committed database state satisfies; the lemmas say which updates keep it. */
module Store {
  import opened Wrappers
  import opened Encoding
  import opened Merkle
  import opened Chain
  import opened Ledger

  type Blocks = map<uint64, Block>

  // ---------------------------------------------------------------- transactions by height

  /** The hashes of the rows with the given block height, in table order; None is "not sealed yet". */
  function HashesAt(txs: seq<TxRecord>, height: Option<uint64>): seq<Bytes> {
    if txs == [] then []
    else
      var last := txs[|txs| - 1];
      HashesAt(txs[..|txs| - 1], height) + if last.height == height then [last.hash] else []
  }

  function SealRow(tx: TxRecord, height: uint64, hashes: seq<Bytes>): TxRecord {
    if tx.hash in hashes then tx.(height := Some(height)) else tx
  }

  /** UPDATE transactions SET block_height = height WHERE hash IN hashes. */
  function SealRows(txs: seq<TxRecord>, height: uint64, hashes: seq<Bytes>): (r: seq<TxRecord>)
    ensures |r| == |txs| && forall i :: 0 <= i < |txs| ==> r[i] == SealRow(txs[i], height, hashes)
  {
    if txs == [] then [] else SealRows(txs[..|txs| - 1], height, hashes) + [SealRow(txs[|txs| - 1], height, hashes)]
  }

  ghost predicate UniqueHashes(txs: seq<TxRecord>) {
    && (forall i, j :: 0 <= i < j < |txs| ==> txs[i].hash != txs[j].hash)
    && (forall i :: 0 <= i < |txs| ==> |txs[i].hash| == 36)
  }

  lemma {:induction false} HashesAtHas(txs: seq<TxRecord>, i: nat)
    requires i < |txs|
    ensures txs[i].hash in HashesAt(txs, txs[i].height)
  {
    if i < |txs| - 1 { HashesAtHas(txs[..|txs| - 1], i); }
  }

  lemma {:induction false} HashesAtFrom(txs: seq<TxRecord>, height: Option<uint64>, x: Bytes) returns (i: nat)
    requires x in HashesAt(txs, height)
    ensures i < |txs| && txs[i].hash == x && txs[i].height == height
  {
    var m := |txs| - 1;
    if x in HashesAt(txs[..m], height) {
      i := HashesAtFrom(txs[..m], height, x);
    } else {
      i := m;
    }
  }

  lemma {:induction false} NoRowsAt(txs: seq<TxRecord>, height: Option<uint64>)
    requires forall i :: 0 <= i < |txs| ==> txs[i].height != height
    ensures HashesAt(txs, height) == []
  {
    if txs != [] { NoRowsAt(txs[..|txs| - 1], height); }
  }

  lemma {:induction false} HashesAtDistinct(txs: seq<TxRecord>, height: Option<uint64>)
    requires UniqueHashes(txs)
    ensures Distinct(HashesAt(txs, height))
  {
    if txs != [] {
      var m := |txs| - 1;
      HashesAtDistinct(txs[..m], height);
      if txs[m].hash in HashesAt(txs[..m], height) {
        var i := HashesAtFrom(txs[..m], height, txs[m].hash);
      }
    }
  }

  lemma {:induction false} HashesAtLengths(txs: seq<TxRecord>, height: Option<uint64>)
    requires UniqueHashes(txs)
    ensures forall x :: x in HashesAt(txs, height) ==> |x| == 36
  {
    forall x | x in HashesAt(txs, height) ensures |x| == 36 {
      var i := HashesAtFrom(txs, height, x);
    }
  }

  lemma {:induction false} HashesAtAppend(txs: seq<TxRecord>, tx: TxRecord, height: Option<uint64>)
    ensures HashesAt(txs + [tx], height) == HashesAt(txs, height) + if tx.height == height then [tx.hash] else []
  {}

  ghost predicate OnlyPending(txs: seq<TxRecord>, hashes: seq<Bytes>) {
    forall i :: 0 <= i < |txs| && txs[i].hash in hashes ==> txs[i].height == None
  }

  /** Sealing pending rows leaves the other blocks' lists as they are. */
  lemma {:induction false} SealRowsElsewhere(txs: seq<TxRecord>, height: uint64, hashes: seq<Bytes>, other: uint64)
    requires OnlyPending(txs, hashes) && other != height
    ensures HashesAt(SealRows(txs, height, hashes), Some(other)) == HashesAt(txs, Some(other))
  {
    if txs != [] {
      var m := |txs| - 1;
      assert SealRows(txs, height, hashes)[..m] == SealRows(txs[..m], height, hashes);
      SealRowsElsewhere(txs[..m], height, hashes, other);
    }
  }

  /** Sealing everything that is pending leaves nothing pending. */
  lemma {:induction false} NothingLeftPending(txs: seq<TxRecord>, height: uint64)
    ensures HashesAt(SealRows(txs, height, HashesAt(txs, None)), None) == []
  {
    var after := SealRows(txs, height, HashesAt(txs, None));
    forall i | 0 <= i < |after| ensures after[i].height != None {
      if txs[i].height == None { HashesAtHas(txs, i); }
    }
    NoRowsAt(after, None);
  }

  lemma EqualMembers<T>(a: seq<T>, b: seq<T>)
    requires Distinct(a) && Distinct(b) && forall x :: x in a <==> x in b
    ensures multiset(a) == multiset(b)
  {
    forall x ensures multiset(a)[x] == multiset(b)[x] {
      DistinctCounts(a, x);
      DistinctCounts(b, x);
      if x in a {
        assert x in multiset(a) && x in multiset(b);
      } else {
        assert x !in multiset(a) && x !in multiset(b);
      }
    }
  }

  lemma {:induction false} SealedMembers(txs: seq<TxRecord>, height: uint64, hashes: seq<Bytes>, x: Bytes)
    requires forall i :: 0 <= i < |txs| ==> txs[i].height != Some(height)
    requires x in hashes ==> HashIn(txs, x)
    ensures x in HashesAt(SealRows(txs, height, hashes), Some(height)) <==> x in hashes
  {
    var after := SealRows(txs, height, hashes);
    if x in hashes {
      var i: nat :| i < |txs| && txs[i].hash == x;
      assert after[i] == txs[i].(height := Some(height));
      HashesAtHas(after, i);
    } else if x in HashesAt(after, Some(height)) {
      var i := HashesAtFrom(after, Some(height), x);
    }
  }

  lemma {:induction false} SealRowsUnique(txs: seq<TxRecord>, height: uint64, hashes: seq<Bytes>)
    requires UniqueHashes(txs)
    ensures UniqueHashes(SealRows(txs, height, hashes))
  {}

  /** A new block's list consists of exactly the hashes that were sealed into it. */
  lemma {:induction false} SealRowsHere(txs: seq<TxRecord>, height: uint64, hashes: seq<Bytes>)
    requires UniqueHashes(txs) && Distinct(hashes)
    requires forall x :: x in hashes ==> HashIn(txs, x)
    requires forall i :: 0 <= i < |txs| ==> txs[i].height != Some(height)
    ensures multiset(HashesAt(SealRows(txs, height, hashes), Some(height))) == multiset(hashes)
  {
    var after := SealRows(txs, height, hashes);
    SealRowsUnique(txs, height, hashes);
    HashesAtDistinct(after, Some(height));
    forall x ensures x in HashesAt(after, Some(height)) <==> x in hashes {
      SealedMembers(txs, height, hashes, x);
    }
    EqualMembers(HashesAt(after, Some(height)), hashes);
  }

  // ---------------------------------------------------------------- the blocks table

  /** The stored heights are exactly 0 .. n-1. */
  ghost predicate Contiguous(blocks: Blocks) {
    && |blocks| <= TWO_64
    && (forall h: uint64 :: h in blocks <==> h < |blocks|)
    && (forall h :: h in blocks ==> blocks[h].height == h)
  }

  /** All blocks by ascending height. */
  ghost function ChainOf(blocks: Blocks): (r: seq<Block>)
    requires Contiguous(blocks)
    ensures |r| == |blocks| && forall i :: 0 <= i < |r| ==> r[i] == blocks[i]
  {
    seq(|blocks|, i requires 0 <= i < |blocks| => blocks[i])
  }

  ghost function Latest(blocks: Blocks): Option<Block>
    requires Contiguous(blocks)
  {
    if |blocks| == 0 then None else Some(blocks[|blocks| - 1])
  }

  ghost function TxMap(blocks: Blocks, txs: seq<TxRecord>): TxsByBlock {
    map h | h in blocks :: HashesAt(txs, Some(h))
  }

  ghost predicate StoreInv(sha: HashFn, blocks: Blocks, txs: seq<TxRecord>) {
    && Contiguous(blocks)
    && UniqueHashes(txs)
    && (forall i :: 0 <= i < |txs| && txs[i].height.Some? ==> txs[i].height.value in blocks)
    && ValidChain(sha, ChainOf(blocks), TxMap(blocks, txs))
  }

  // ---------------------------------------------------------------- what keeps the invariant

  lemma SubmitKeepsInv(sha: HashFn, blocks: Blocks, txs: seq<TxRecord>, tx: TxRecord)
    requires StoreInv(sha, blocks, txs)
    requires !HashIn(txs, tx.hash) && |tx.hash| == 36 && tx.height == None
    ensures StoreInv(sha, blocks, txs + [tx])
  {
    assert TxMap(blocks, txs + [tx]) == TxMap(blocks, txs) by {
      forall h | h in blocks ensures HashesAt(txs + [tx], Some(h)) == HashesAt(txs, Some(h)) {
        HashesAtAppend(txs, tx, Some(h));
      }
    }
    assert UniqueHashes(txs + [tx]) by {
      forall i | 0 <= i < |txs| ensures txs[i].hash != tx.hash {}
    }
  }

  /** Validity depends on the transaction lists only through the roots at the blocks' heights. */
  lemma SameRoots(sha: HashFn, chain: seq<Block>, txs: TxsByBlock, txs': TxsByBlock)
    requires ValidChain(sha, chain, txs)
    requires forall i :: 0 <= i < |chain| ==>
      multiset(TxsAt(txs, chain[i].height)) == multiset(TxsAt(txs', chain[i].height))
    ensures ValidChain(sha, chain, txs')
  {
    forall i | 0 <= i < |chain| ensures ValidBlock(sha, chain, txs', i) {
      assert ValidBlock(sha, chain, txs, i);
      RootIgnoresOrder(sha, TxsAt(txs, chain[i].height), TxsAt(txs', chain[i].height));
    }
  }

  lemma ExtendValid(sha: HashFn, chain: seq<Block>, txs: TxsByBlock, b: Block)
    requires ValidChain(sha, chain, txs) && ValidBlock(sha, chain + [b], txs, |chain|)
    ensures ValidChain(sha, chain + [b], txs)
  {
    forall i | 0 <= i < |chain| ensures ValidBlock(sha, chain + [b], txs, i) {
      assert ValidBlock(sha, chain, txs, i);
    }
  }

  /** The block that a sealer reading `latest` and the root mines, before mining. */
  function Draft(latest: Option<Block>, root: Bytes, timestamp: int64, difficulty: uint8): Block {
    match latest
    case None => Block(0, [], GENESIS_PREV_HASH, root, timestamp, 0, difficulty)
    case Some(b) => Block(ToUint64(b.height + 1), [], b.hash, root, timestamp, 0, difficulty)
  }

  /** b is the draft with some nonce, its hash, and a hash that meets the target. */
  ghost predicate Proves(sha: HashFn, draft: Block, b: Block) {
    b == draft.(nonce := b.nonce, hash := b.hash) && b.hash == BlockHash(sha, b) && MeetsTarget(b.hash, b.difficulty)
  }

  /** Both unique columns of the blocks table are free. */
  ghost predicate CanInsert(blocks: Blocks, b: Block) {
    b.height !in blocks && forall h :: h in blocks ==> blocks[h].hash != b.hash
  }

  lemma InsertContiguous(blocks: Blocks, b: Block)
    requires Contiguous(blocks) && b.height !in blocks
    requires b.height == match Latest(blocks) case None => 0 case Some(l) => ToUint64(l.height + 1)
    ensures b.height == |blocks| && Contiguous(blocks[b.height := b])
    ensures ChainOf(blocks[b.height := b]) == ChainOf(blocks) + [b]
  {
    assert |blocks[b.height := b]| == |blocks| + 1;
  }

  /** The next height is free unless all 2^64 heights are used up. */
  lemma NextHeight(blocks: Blocks, b: Block)
    requires Contiguous(blocks) && blocks != map[]
    requires b.height == ToUint64(blocks[|blocks| - 1].height + 1)
    ensures b.height !in blocks <==> |blocks| < TWO_64
    ensures |blocks| < TWO_64 ==> b.height == |blocks|
  {
    var top: uint64 := |blocks| - 1;
    assert top in blocks && blocks[top].height == top;
  }

  lemma {:induction false} OldListsKept(blocks: Blocks, txs: seq<TxRecord>, hashes: seq<Bytes>, b: Block, i: nat)
    requires Contiguous(blocks) && OnlyPending(txs, hashes) && i < |blocks| == b.height
    ensures TxsAt(TxMap(blocks, txs), blocks[i].height)
            == TxsAt(TxMap(blocks[b.height := b], SealRows(txs, b.height, hashes)), blocks[i].height)
  {
    SealRowsElsewhere(txs, b.height, hashes, i);
  }

  lemma {:induction false} NewBlockValid(sha: HashFn, blocks: Blocks, txs: seq<TxRecord>, hashes: seq<Bytes>,
                      timestamp: int64, difficulty: uint8, b: Block)
    requires Contiguous(blocks) && UniqueHashes(txs) && Distinct(hashes)
    requires forall i :: 0 <= i < |txs| && txs[i].height.Some? ==> txs[i].height.value in blocks
    requires forall x :: x in hashes ==> HashIn(txs, x)
    requires Proves(sha, Draft(Latest(blocks), Root(sha, hashes), timestamp, difficulty), b) && b.height == |blocks|
    ensures
      var lists := TxMap(blocks[b.height := b], SealRows(txs, b.height, hashes));
      ValidBlock(sha, ChainOf(blocks) + [b], lists, |blocks|)
  {
    SealRowsHere(txs, b.height, hashes);
    RootIgnoresOrder(sha, hashes, HashesAt(SealRows(txs, b.height, hashes), Some(b.height)));
  }

  lemma {:induction false} CommittedChainValid(sha: HashFn, blocks: Blocks, txs: seq<TxRecord>, hashes: seq<Bytes>,
                            timestamp: int64, difficulty: uint8, b: Block)
    requires StoreInv(sha, blocks, txs) && Distinct(hashes) && OnlyPending(txs, hashes)
    requires forall x :: x in hashes ==> HashIn(txs, x)
    requires Proves(sha, Draft(Latest(blocks), Root(sha, hashes), timestamp, difficulty), b) && b.height == |blocks|
    ensures ValidChain(sha, ChainOf(blocks) + [b], TxMap(blocks[b.height := b], SealRows(txs, b.height, hashes)))
  {
    var lists := TxMap(blocks[b.height := b], SealRows(txs, b.height, hashes));
    forall i | 0 <= i < |blocks|
      ensures TxsAt(TxMap(blocks, txs), ChainOf(blocks)[i].height) == TxsAt(lists, ChainOf(blocks)[i].height)
    {
      OldListsKept(blocks, txs, hashes, b, i);
    }
    SameRoots(sha, ChainOf(blocks), TxMap(blocks, txs), lists);
    NewBlockValid(sha, blocks, txs, hashes, timestamp, difficulty, b);
    ExtendValid(sha, ChainOf(blocks), lists, b);
  }

  /** Committing a mined block together with its marks keeps the invariant, for any list of rows that
      are pending at commit time. */
  lemma {:induction false} CommitKeepsInv(sha: HashFn, blocks: Blocks, txs: seq<TxRecord>, hashes: seq<Bytes>,
                       timestamp: int64, difficulty: uint8, b: Block)
    requires StoreInv(sha, blocks, txs) && Distinct(hashes) && OnlyPending(txs, hashes)
    requires forall x :: x in hashes ==> HashIn(txs, x)
    requires Proves(sha, Draft(Latest(blocks), Root(sha, hashes), timestamp, difficulty), b) && CanInsert(blocks, b)
    ensures StoreInv(sha, blocks[b.height := b], SealRows(txs, b.height, hashes))
    ensures ChainOf(blocks[b.height := b]) == ChainOf(blocks) + [b]
  {
    InsertContiguous(blocks, b);
    CommittedChainValid(sha, blocks, txs, hashes, timestamp, difficulty, b);
    SealRowsUnique(txs, b.height, hashes);
  }

  // ---------------------------------------------------------------- partition

  /** The hashes of all rows. */
  function AllHashes(txs: seq<TxRecord>): seq<Bytes> {
    if txs == [] then [] else AllHashes(txs[..|txs| - 1]) + [txs[|txs| - 1].hash]
  }

  ghost function CountAt(txs: seq<TxRecord>, height: Option<uint64>, x: Bytes): nat {
    multiset(HashesAt(txs, height))[x]
  }

  ghost function SumBelow(f: uint64 -> nat, n: nat): nat
    requires n <= TWO_64
  {
    if n == 0 then 0 else SumBelow(f, n - 1) + f(n - 1)
  }

  lemma {:induction false} SumBelowBump(f: uint64 -> nat, g: uint64 -> nat, n: nat, k: uint64, d: nat)
    requires n <= TWO_64
    requires forall h :: g(h) == f(h) + if h == k then d else 0
    ensures SumBelow(g, n) == SumBelow(f, n) + if k < n then d else 0
  {
    if n > 0 { SumBelowBump(f, g, n - 1, k, d); }
  }

  lemma {:induction false} SumBelowZero(f: uint64 -> nat, n: nat)
    requires n <= TWO_64 && forall h :: f(h) == 0
    ensures SumBelow(f, n) == 0
  {
    if n > 0 { SumBelowZero(f, n - 1); }
  }

  /** How often x occurs in the lists of the blocks below height n, added up over the blocks. */
  ghost function CountSealed(txs: seq<TxRecord>, n: nat, x: Bytes): nat
    requires n <= TWO_64
  {
    SumBelow((h: uint64) => CountAt(txs, Some(h), x), n)
  }

  lemma CountAppend(front: seq<TxRecord>, last: TxRecord, height: Option<uint64>, x: Bytes)
    ensures CountAt(front + [last], height, x)
            == CountAt(front, height, x) + if last.height == height && last.hash == x then 1 else 0
  {}

  lemma CountSealedAppend(front: seq<TxRecord>, last: TxRecord, n: nat, x: Bytes)
    requires n <= TWO_64
    ensures CountSealed(front + [last], n, x)
            == CountSealed(front, n, x)
               + if last.height.Some? && last.height.value < n && last.hash == x then 1 else 0
  {
    var f := (h: uint64) => CountAt(front, Some(h), x);
    var g := (h: uint64) => CountAt(front + [last], Some(h), x);
    var k := if last.height.Some? then last.height.value else 0;
    var d := if last.height.Some? && last.hash == x then 1 else 0;
    forall h: uint64 ensures g(h) == f(h) + if h == k then d else 0 {
      CountAppend(front, last, Some(h), x);
    }
    SumBelowBump(f, g, n, k, d);
  }

  lemma {:induction false} PartitionBelow(txs: seq<TxRecord>, n: nat, x: Bytes)
    requires n <= TWO_64
    requires forall i :: 0 <= i < |txs| && txs[i].height.Some? ==> txs[i].height.value < n
    ensures multiset(AllHashes(txs))[x] == CountAt(txs, None, x) + CountSealed(txs, n, x)
  {
    if txs == [] {
      SumBelowZero((h: uint64) => CountAt(txs, Some(h), x), n);
    } else {
      var front, last := txs[..|txs| - 1], txs[|txs| - 1];
      assert txs == front + [last];
      PartitionBelow(front, n, x);
      CountSealedAppend(front, last, n, x);
      CountAppend(front, last, None, x);
    }
  }

  lemma {:induction false} AllHashesDistinct(txs: seq<TxRecord>)
    requires UniqueHashes(txs)
    ensures |AllHashes(txs)| == |txs| && (forall i :: 0 <= i < |txs| ==> AllHashes(txs)[i] == txs[i].hash)
    ensures Distinct(AllHashes(txs))
  {
    if txs != [] { AllHashesDistinct(txs[..|txs| - 1]); }
  }

  /** The pending rows and the rows of the existing blocks make up the log, and each committed
      transaction is in exactly one of these lists, once. */
  lemma SealingPartition(sha: HashFn, blocks: Blocks, txs: seq<TxRecord>, x: Bytes)
    requires StoreInv(sha, blocks, txs)
    ensures CountAt(txs, None, x) + CountSealed(txs, |blocks|, x) == if HashIn(txs, x) then 1 else 0
  {
    PartitionBelow(txs, |blocks|, x);
    AllHashesDistinct(txs);
    DistinctCounts(AllHashes(txs), x);
    if i: nat :| i < |txs| && txs[i].hash == x {
      assert AllHashes(txs)[i] in multiset(AllHashes(txs));
    } else {
      assert x !in AllHashes(txs);
    }
  }

  /** The stored lists are regular, as the binding theorems ask for plain conclusions. */
  lemma StoredListsRegular(sha: HashFn, blocks: Blocks, txs: seq<TxRecord>)
    requires StoreInv(sha, blocks, txs)
    ensures RegularTxs(TxMap(blocks, txs))
  {
    forall h | h in blocks ensures Regular(HashesAt(txs, Some(h))) {
      HashesAtDistinct(txs, Some(h));
      HashesAtLengths(txs, Some(h));
      var hashes := HashesAt(txs, Some(h));
      if hashes != [] { assert hashes[0] in hashes; }
    }
  }

  // ---------------------------------------------------------------- any tables

  /** Rows are found under their height, the primary key. */
  ghost predicate Keyed(blocks: Blocks) {
    forall h :: h in blocks ==> blocks[h].height == h
  }

  ghost predicate Highest(blocks: Blocks, top: uint64) {
    top in blocks && forall h :: h in blocks ==> h <= top
  }

  lemma {:induction false} HighestExists(blocks: Blocks)
    requires blocks != map[]
    ensures exists top :: Highest(blocks, top)
    decreases |blocks|
  {
    var top :| top in blocks;
    var rest := blocks - {top};
    if rest == map[] {
      assert Highest(blocks, top) by {
        forall h | h in blocks ensures h == top { assert h !in rest; }
      }
    } else {
      HighestExists(rest);
      var h :| Highest(rest, h);
      assert Highest(blocks, if h < top then top else h) by {
        forall k | k in blocks ensures k == top || k <= h { assert k == top || k in rest; }
      }
    }
  }

  ghost function Top(blocks: Blocks): (top: uint64)
    requires blocks != map[]
    ensures Highest(blocks, top)
  {
    HighestExists(blocks);
    var top :| Highest(blocks, top);
    top
  }

  /** The blocks of any table by ascending height, gaps or not. */
  ghost function RowsByHeight(blocks: Blocks): seq<Block>
    decreases |blocks|
  {
    if blocks == map[] then [] else RowsByHeight(blocks - {Top(blocks)}) + [blocks[Top(blocks)]]
  }

  /** Each row is listed, and nothing else. */
  lemma {:induction false} RowListed(blocks: Blocks, b: Block)
    requires Keyed(blocks)
    ensures b in RowsByHeight(blocks) <==> b.height in blocks && b == blocks[b.height]
    decreases |blocks|
  {
    if blocks != map[] { RowListed(blocks - {Top(blocks)}, b); }
  }

  lemma {:induction false} RowsAscend(blocks: Blocks)
    requires Keyed(blocks)
    ensures |RowsByHeight(blocks)| == |blocks| && Ascending(RowsByHeight(blocks))
    decreases |blocks|
  {
    if blocks != map[] {
      var top := Top(blocks);
      var front := RowsByHeight(blocks - {top});
      RowsAscend(blocks - {top});
      forall i | 0 <= i < |front| ensures front[i].height < top { RowListed(blocks - {top}, front[i]); }
    }
  }

  lemma {:induction false} TopIs(blocks: Blocks, top: uint64)
    requires Highest(blocks, top)
    ensures Top(blocks) == top
  {
    assert top in blocks && Top(blocks) in blocks;
  }

  lemma {:induction false} WithoutLast(blocks: Blocks, top: uint64)
    requires Contiguous(blocks) && top == |blocks| - 1
    ensures Highest(blocks, top) && Contiguous(blocks - {top})
    ensures ChainOf(blocks) == ChainOf(blocks - {top}) + [blocks[top]]
  {
    assert top in blocks;
  }

  /** On contiguous heights RowsByHeight is ChainOf. */
  lemma {:induction false} RowsInOrder(blocks: Blocks)
    requires Contiguous(blocks)
    ensures RowsByHeight(blocks) == ChainOf(blocks)
    decreases |blocks|
  {
    if blocks != map[] {
      var top: uint64 := |blocks| - 1;
      WithoutLast(blocks, top);
      TopIs(blocks, top);
      RowsInOrder(blocks - {top});
    }
  }

  /** The blocks below a height. */
  ghost function Below(blocks: Blocks, m: nat): Blocks {
    map h | h in blocks && h < m :: blocks[h]
  }

  lemma {:induction false} BelowIsPrefix(blocks: Blocks, m: nat)
    requires Contiguous(blocks) && m <= |blocks|
    ensures Contiguous(Below(blocks, m)) && ChainOf(Below(blocks, m)) == ChainOf(blocks)[..m]
    decreases |blocks|
  {
    if m == |blocks| {
      assert Below(blocks, m) == blocks;
    } else {
      var top: uint64 := |blocks| - 1;
      WithoutLast(blocks, top);
      assert Below(blocks, m) == Below(blocks - {top}, m);
      BelowIsPrefix(blocks - {top}, m);
    }
  }

  // ---------------------------------------------------------------- what the stored chain commits to

  lemma {:induction false} ListBelow(blocks: Blocks, txs: seq<TxRecord>, m: nat, txs': seq<TxRecord>, i: nat)
    requires Contiguous(blocks) && i < m <= |blocks|
    requires forall h: uint64 :: h < m ==> HashesAt(txs', Some(h)) == HashesAt(txs, Some(h))
    ensures
      var h := ChainOf(blocks)[..m][i].height;
      TxsAt(TxMap(blocks, txs), h) == TxsAt(TxMap(Below(blocks, m), txs'), h)
  {
    assert ChainOf(blocks)[i] == blocks[i] && blocks[i].height == i;
  }

  /** Deleting the newest blocks goes unnoticed, as long as the rows of the remaining ones stay. */
  lemma {:induction false} TruncationUnnoticed(
    sha: HashFn, blocks: Blocks, txs: seq<TxRecord>, m: nat, txs': seq<TxRecord>)
    requires StoreInv(sha, blocks, txs) && m <= |blocks|
    requires forall h: uint64 :: h < m ==> HashesAt(txs', Some(h)) == HashesAt(txs, Some(h))
    ensures ValidChain(sha, RowsByHeight(Below(blocks, m)), TxMap(Below(blocks, m), txs'))
  {
    var chain, rest := ChainOf(blocks), Below(blocks, m);
    BelowIsPrefix(blocks, m);
    RowsInOrder(rest);
    ValidPrefix(sha, chain, TxMap(blocks, txs), m);
    forall i | 0 <= i < m
      ensures TxsAt(TxMap(blocks, txs), chain[..m][i].height) == TxsAt(TxMap(rest, txs'), chain[..m][i].height)
    {
      ListBelow(blocks, txs, m, txs', i);
    }
    SameRoots(sha, chain[..m], TxMap(blocks, txs), TxMap(rest, txs'));
  }

  lemma {:induction false} RowHeights(blocks: Blocks)
    requires Keyed(blocks)
    ensures forall i :: 0 <= i < |RowsByHeight(blocks)| ==> RowsByHeight(blocks)[i].height in blocks
    ensures forall h :: h in blocks ==>
      exists i :: 0 <= i < |RowsByHeight(blocks)| && RowsByHeight(blocks)[i].height == h
  {
    var chain := RowsByHeight(blocks);
    forall h | h in blocks ensures exists i :: 0 <= i < |chain| && chain[i].height == h {
      RowListed(blocks, blocks[h]);
    }
    forall i | 0 <= i < |chain| ensures chain[i].height in blocks { RowListed(blocks, chain[i]); }
  }

  /** What holds of the lists at every block's height holds of those of every listed row. */
  lemma {:induction false} ByRow(
    blocks: Blocks, txs: seq<TxRecord>, txs': seq<TxRecord>, rel: (seq<Bytes>, seq<Bytes>) -> bool)
    requires Keyed(blocks)
    ensures
      var chain, lists, lists' := RowsByHeight(blocks), TxMap(blocks, txs), TxMap(blocks, txs');
      (forall h :: h in blocks ==> rel(HashesAt(txs, Some(h)), HashesAt(txs', Some(h)))) <==>
        forall i :: 0 <= i < |chain| ==> rel(TxsAt(lists, chain[i].height), TxsAt(lists', chain[i].height))
  {
    RowHeights(blocks);
  }

  /** The trees over the hashes at each block's height match. */
  ghost predicate TreesAgree(sha: HashFn, blocks: Blocks, txs: seq<TxRecord>, txs': seq<TxRecord>) {
    forall h :: h in blocks ==> Agree(sha, HashesAt(txs, Some(h)), HashesAt(txs', Some(h)))
  }

  /** The hashes at each block's height are the same. */
  ghost predicate SameHashRows(blocks: Blocks, txs: seq<TxRecord>, txs': seq<TxRecord>) {
    forall h :: h in blocks ==> SameHashes(HashesAt(txs, Some(h)), HashesAt(txs', Some(h)))
  }

  lemma {:induction false} AgreeByRow(sha: HashFn, blocks: Blocks, txs: seq<TxRecord>, txs': seq<TxRecord>)
    requires Keyed(blocks)
    ensures
      var chain, lists, lists' := RowsByHeight(blocks), TxMap(blocks, txs), TxMap(blocks, txs');
      TreesAgree(sha, blocks, txs, txs') <==>
        forall i :: 0 <= i < |chain| ==> Agree(sha, TxsAt(lists, chain[i].height), TxsAt(lists', chain[i].height))
  {
    ByRow(blocks, txs, txs', (a, b) => Agree(sha, a, b));
  }

  lemma {:induction false} SameByRow(blocks: Blocks, txs: seq<TxRecord>, txs': seq<TxRecord>)
    requires Keyed(blocks)
    ensures SameHashRows(blocks, txs, txs') <==>
      SameHashLists(RowsByHeight(blocks), TxMap(blocks, txs), TxMap(blocks, txs'))
  {
    ByRow(blocks, txs, txs', SameHashes);
  }

  /** Which changes of the transaction rows under an accepted chain go unnoticed, whatever the rows:
      exactly those after which the tree at each block's height matches the old one, or a collision among
      the strings hashed is at hand. */
  lemma {:induction false} UnnoticedRows(sha: HashFn, blocks: Blocks, txs: seq<TxRecord>, txs': seq<TxRecord>)
    requires Keyed(blocks) && ValidChain(sha, RowsByHeight(blocks), TxMap(blocks, txs))
    ensures
      var chain, lists, lists' := RowsByHeight(blocks), TxMap(blocks, txs), TxMap(blocks, txs');
      || CollisionIn(sha, ChainInputs(sha, chain, lists) + ChainInputs(sha, chain, lists'))
      || (ValidChain(sha, chain, lists') <==> TreesAgree(sha, blocks, txs, txs'))
  {
    UnnoticedLists(sha, RowsByHeight(blocks), TxMap(blocks, txs), TxMap(blocks, txs'));
    AgreeByRow(sha, blocks, txs, txs');
  }

  /** With hashes that do not repeat and are not all 64 bytes long in a block: exactly those that keep the
      hashes at each block's height. */
  lemma {:induction false} UnnoticedRegularRows(sha: HashFn, blocks: Blocks, txs: seq<TxRecord>, txs': seq<TxRecord>)
    requires Keyed(blocks) && ValidChain(sha, RowsByHeight(blocks), TxMap(blocks, txs))
    requires RegularTxs(TxMap(blocks, txs)) && RegularTxs(TxMap(blocks, txs'))
    ensures
      var chain, lists, lists' := RowsByHeight(blocks), TxMap(blocks, txs), TxMap(blocks, txs');
      || CollisionIn(sha, ChainInputs(sha, chain, lists) + ChainInputs(sha, chain, lists'))
      || (ValidChain(sha, chain, lists') <==> SameHashRows(blocks, txs, txs'))
  {
    UnnoticedRegularLists(sha, RowsByHeight(blocks), TxMap(blocks, txs), TxMap(blocks, txs'));
    SameByRow(blocks, txs, txs');
  }

  lemma {:induction false} ListWithEmptyHash(
    blocks: Blocks, txs: seq<TxRecord>, tx: TxRecord, h: uint64, at: uint64)
    requires HashesAt(txs, Some(h)) == [] && tx.hash == [] && tx.height == Some(h)
    ensures
      var before, after := TxsAt(TxMap(blocks, txs), at), TxsAt(TxMap(blocks, txs + [tx]), at);
      after == before || (before == [] && after == [[]])
  {
    HashesAtAppend(txs, tx, Some(at));
  }

  lemma {:induction false} RootWithEmptyHash(
    sha: HashFn, blocks: Blocks, txs: seq<TxRecord>, tx: TxRecord, h: uint64, at: uint64)
    requires HashesAt(txs, Some(h)) == [] && tx.hash == [] && tx.height == Some(h)
    ensures Root(sha, TxsAt(TxMap(blocks, txs + [tx]), at)) == Root(sha, TxsAt(TxMap(blocks, txs), at))
  {
    ListWithEmptyHash(blocks, txs, tx, h, at);
    var before, after := TxsAt(TxMap(blocks, txs), at), TxsAt(TxMap(blocks, txs + [tx]), at);
    if after != before { EmptyEntryRoot(sha, after, before); }
  }

  /** A row with the empty hash in a block that has none goes unnoticed, and so the hashes are kept only up
      to it. */
  lemma {:induction false} EmptyHashUnnoticed(sha: HashFn, blocks: Blocks, txs: seq<TxRecord>, tx: TxRecord, h: uint64)
    requires Keyed(blocks) && ValidChain(sha, RowsByHeight(blocks), TxMap(blocks, txs))
    requires HashesAt(txs, Some(h)) == [] && tx.hash == [] && tx.height == Some(h)
    ensures ValidChain(sha, RowsByHeight(blocks), TxMap(blocks, txs + [tx]))
    ensures multiset(HashesAt(txs + [tx], Some(h))) != multiset(HashesAt(txs, Some(h)))
  {
    var chain := RowsByHeight(blocks);
    HashesAtAppend(txs, tx, Some(h));
    forall i | 0 <= i < |chain| ensures ValidBlock(sha, chain, TxMap(blocks, txs + [tx]), i) {
      assert ValidBlock(sha, chain, TxMap(blocks, txs), i);
      RootWithEmptyHash(sha, blocks, txs, tx, h, chain[i].height);
    }
  }

  /** The rows agree in hash and block height; type, parties, amounts, nonce and time may differ. */
  ghost predicate SameHashesAndHeights(txs: seq<TxRecord>, txs': seq<TxRecord>) {
    |txs| == |txs'| && forall i :: 0 <= i < |txs| ==> txs'[i].hash == txs[i].hash && txs'[i].height == txs[i].height
  }

  lemma {:induction false} SameLists(txs: seq<TxRecord>, txs': seq<TxRecord>, height: Option<uint64>)
    requires SameHashesAndHeights(txs, txs')
    ensures HashesAt(txs', height) == HashesAt(txs, height)
  {
    if txs != [] { SameLists(txs[..|txs| - 1], txs'[..|txs| - 1], height); }
  }

  /** What a row says is not committed to: whatever its type, parties, amounts, nonce and time are replaced
      by, the stored chain stays valid. */
  lemma {:induction false} RowContentsNotCommitted(sha: HashFn, blocks: Blocks, txs: seq<TxRecord>, txs': seq<TxRecord>)
    requires StoreInv(sha, blocks, txs) && SameHashesAndHeights(txs, txs')
    ensures StoreInv(sha, blocks, txs')
  {
    assert TxMap(blocks, txs') == TxMap(blocks, txs) by {
      forall h | h in blocks ensures HashesAt(txs', Some(h)) == HashesAt(txs, Some(h)) {
        SameLists(txs, txs', Some(h));
      }
    }
  }
}
