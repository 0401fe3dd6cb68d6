/** Mining and sealing (internal/app/service/block_sealer.go) over the stored tables, and the
    service-level chain check (internal/app/service/ledger.go, ValidateChain). */
module Sealer {
  import opened Wrappers
  import opened Encoding
  import opened Merkle
  import opened Chain
  import opened Ledger
  import opened Store

  // ---------------------------------------------------------------- proof of work

  /** A block whose nonce and hash are still being searched for. */
  class OpenBlock {
    const height: uint64
    const prevHash: Bytes
    const merkleRoot: Bytes
    const timestamp: int64
    const difficulty: uint8
    var nonce: uint64
    var hash: Bytes

    constructor (height: uint64, prevHash: Bytes, merkleRoot: Bytes, timestamp: int64, difficulty: uint8)
      ensures Snapshot() == Block(height, [], prevHash, merkleRoot, timestamp, 0, difficulty)
    {
      this.height, this.prevHash, this.merkleRoot := height, prevHash, merkleRoot;
      this.timestamp, this.difficulty := timestamp, difficulty;
      nonce, hash := 0, [];
    }

    function Snapshot(): Block
      reads this
    {
      Block(height, hash, prevHash, merkleRoot, timestamp, nonce, difficulty)
    }
  }

  /** The nonce after k increments. */
  function NonceAfter(start: uint64, k: nat): uint64 {
    if k == 0 then start else NextNonce(NonceAfter(start, k - 1))
  }

  lemma {:induction false} NonceWraps(start: uint64, k: nat)
    ensures NonceAfter(start, k) == (start + k) % TWO_64
  {
    if k > 0 {
      NonceWraps(start, k - 1);
      SuccessorModulo(start + k - 1);
    }
  }

  /** The draft after k increments of the nonce, with the matching hash. */
  function Attempt(sha: HashFn, draft: Block, k: nat): Block {
    var b := draft.(nonce := NonceAfter(draft.nonce, k));
    b.(hash := BlockHash(sha, b))
  }

  ghost predicate Succeeds(sha: HashFn, draft: Block, k: nat) {
    MeetsTarget(Attempt(sha, draft, k).hash, draft.difficulty)
  }

  /** Some nonce meets the target; otherwise the search goes round the nonces forever. */
  ghost predicate CanMine(sha: HashFn, draft: Block) {
    exists k :: Succeeds(sha, draft, k)
  }

  /** b is the first successful attempt. */
  ghost predicate FirstProof(sha: HashFn, draft: Block, b: Block) {
    exists k: nat ::
      && Succeeds(sha, draft, k) && b == Attempt(sha, draft, k)
      && forall j: nat :: j < k ==> !Succeeds(sha, draft, j)
  }

  /** The comparison with a prefix of zeros is the validator's digit test. */
  lemma {:induction false} PrefixMeetsTarget(hash: Bytes, difficulty: uint8)
    ensures (|hash| >= difficulty && hash[..difficulty] == Zeros(difficulty)) <==> MeetsTarget(hash, difficulty)
  {}

  method ZeroPrefix(difficulty: uint8) returns (target: Bytes)
    ensures target == Zeros(difficulty)
  {
    var prefix := new byte[difficulty];
    for i := 0 to difficulty
      invariant prefix[..i] == Zeros(i)
    {
      prefix[i] := ASCII_ZERO;
      assert prefix[..i + 1] == prefix[..i] + [ASCII_ZERO];
    }
    target := prefix[..difficulty];
  }

  /** Recomputes the hash for the current nonce and compares its prefix with the target. */
  method TryNonce(sha: HashFn, b: OpenBlock, target: Bytes) returns (found: bool)
    requires target == Zeros(b.difficulty)
    modifies b`hash
    ensures b.hash == BlockHash(sha, b.Snapshot())
    ensures found <==> MeetsTarget(b.hash, b.difficulty)
  {
    ghost var before := b.Snapshot();
    b.hash := ComputeBlockHash(sha, b.Snapshot());
    assert Header(b.Snapshot()) == Header(before);
    PrefixMeetsTarget(b.hash, b.difficulty);
    found := |b.hash| >= b.difficulty && b.hash[..b.difficulty] == target;
  }

  lemma {:induction false} SnapshotIsAttempt(sha: HashFn, draft: Block, k: nat, b: Block)
    requires b == draft.(nonce := NonceAfter(draft.nonce, k), hash := b.hash) && b.hash == BlockHash(sha, b)
    ensures b == Attempt(sha, draft, k)
  {}

  /** Stops at the first nonce, counting from the block's own and wrapping at 2^64, whose hash meets the
      target, and stops whenever there is one. */
  method MineBlock(sha: HashFn, b: OpenBlock)
    requires CanMine(sha, b.Snapshot())
    modifies b
    ensures FirstProof(sha, old(b.Snapshot()), b.Snapshot())
  {
    ghost var draft := b.Snapshot();
    ghost var bound: nat :| Succeeds(sha, draft, bound);
    var target := ZeroPrefix(b.difficulty);
    ghost var k: nat := 0;
    while true
      invariant k <= bound
      invariant b.Snapshot() == draft.(nonce := NonceAfter(draft.nonce, k), hash := b.hash)
      invariant forall j: nat :: j < k ==> !Succeeds(sha, draft, j)
      decreases bound - k
    {
      var found := TryNonce(sha, b, target);
      SnapshotIsAttempt(sha, draft, k, b.Snapshot());
      if found {
        return;
      }
      b.nonce := NextNonce(b.nonce);
      k := k + 1;
    }
  }

  /** What the miner returns is what the validator checks. */
  lemma MinerSatisfiesValidator(sha: HashFn, draft: Block, b: Block)
    requires FirstProof(sha, draft, b)
    ensures Proves(sha, draft, b)
  {}

  lemma {:induction false} OneFirstProof(sha: HashFn, draft: Block, b: Block, b': Block)
    requires FirstProof(sha, draft, b) && FirstProof(sha, draft, b')
    ensures b == b'
  {
    var k: nat :| && Succeeds(sha, draft, k) && b == Attempt(sha, draft, k)
                  && forall j: nat :: j < k ==> !Succeeds(sha, draft, j);
    var k': nat :| && Succeeds(sha, draft, k') && b' == Attempt(sha, draft, k')
                   && forall j: nat :: j < k' ==> !Succeeds(sha, draft, j);
    assert k == k';
  }

  /** The block carries its own hash, which meets its target, and no smaller nonce would do. */
  ghost predicate LeastNonce(sha: HashFn, b: Block) {
    && b.hash == BlockHash(sha, b) && MeetsTarget(b.hash, b.difficulty)
    && forall k: uint64 :: k < b.nonce ==> !MeetsTarget(BlockHash(sha, b.(nonce := k)), b.difficulty)
  }

  lemma {:induction false} NonceFromZero(k: nat)
    ensures NonceAfter(0, k) <= k && (k < TWO_64 ==> NonceAfter(0, k) == k)
  {
    if k > 0 { NonceFromZero(k - 1); }
  }

  lemma {:induction false} SmallerNonceFails(sha: HashFn, draft: Block, k: nat, b: Block, j: uint64)
    requires draft.nonce == 0 && b == Attempt(sha, draft, k) && j < b.nonce
    requires forall i: nat :: i < k ==> !Succeeds(sha, draft, i)
    ensures !MeetsTarget(BlockHash(sha, b.(nonce := j)), b.difficulty)
  {
    NonceFromZero(k);
    NonceFromZero(j);
    assert j < k && !Succeeds(sha, draft, j);
    assert Header(b.(nonce := j)) == Header(Attempt(sha, draft, j));
  }

  /** The miner starts at nonce 0 and finds the smallest one. */
  lemma {:induction false} FindsLeast(sha: HashFn, draft: Block, b: Block)
    requires FirstProof(sha, draft, b) && draft.nonce == 0
    ensures LeastNonce(sha, b)
  {
    MinerSatisfiesValidator(sha, draft, b);
    var k: nat :| && Succeeds(sha, draft, k) && b == Attempt(sha, draft, k)
                  && forall j: nat :: j < k ==> !Succeeds(sha, draft, j);
    forall j: uint64 | j < b.nonce ensures !MeetsTarget(BlockHash(sha, b.(nonce := j)), b.difficulty) {
      SmallerNonceFails(sha, draft, k, b, j);
    }
  }

  // ---------------------------------------------------------------- sealing

  datatype SealResult = Sealed(block: Block) | NoGenesis | NotInserted

  lemma {:induction false} SealNothing(txs: seq<TxRecord>, height: uint64)
    ensures SealRows(txs, height, []) == txs
  {}

  /** The greatest height in a table. */
  method Greatest(rows: Blocks) returns (top: uint64)
    requires rows != map[]
    ensures top == Top(rows)
  {
    var rest := rows.Keys;
    top :| top in rest;
    while rest != {}
      invariant rest <= rows.Keys && top in rows
      invariant forall h :: h in rows && h !in rest ==> h <= top
      decreases |rest|
    {
      var h: uint64 :| h in rest;
      rest := rest - {h};
      if top < h {
        top := h;
      }
    }
    TopIs(rows, top);
  }

  /** The hashes read as pending belong to rows that are pending. */
  lemma {:induction false} PendingRows(txs: seq<TxRecord>)
    requires UniqueHashes(txs)
    ensures Distinct(HashesAt(txs, None)) && OnlyPending(txs, HashesAt(txs, None))
    ensures forall x :: x in HashesAt(txs, None) ==> HashIn(txs, x)
  {
    HashesAtDistinct(txs, None);
    forall x | x in HashesAt(txs, None) ensures HashIn(txs, x) {
      var i := HashesAtFrom(txs, None, x);
    }
    forall i | 0 <= i < |txs| && txs[i].hash in HashesAt(txs, None) ensures txs[i].height == None {
      var j := HashesAtFrom(txs, None, txs[i].hash);
    }
  }

  lemma {:induction false} ListsOfRows(blocks: Blocks, txs: seq<TxRecord>, lists: TxsByBlock)
    requires Keyed(blocks)
    requires forall h :: h in lists <==>
      exists j :: 0 <= j < |RowsByHeight(blocks)| && RowsByHeight(blocks)[j].height == h
    requires forall h :: h in lists ==> lists[h] == HashesAt(txs, Some(h))
    ensures lists == TxMap(blocks, txs)
  {
    var chain := RowsByHeight(blocks);
    forall h ensures h in lists <==> h in blocks {
      if h in blocks {
        RowListed(blocks, blocks[h]);
        var j :| 0 <= j < |chain| && chain[j] == blocks[h];
        assert chain[j].height == h;
      }
      if h in lists {
        var j :| 0 <= j < |chain| && chain[j].height == h;
        RowListed(blocks, chain[j]);
      }
    }
  }

  /** What a round of the sealer sets out to mine: everything pending, on top of the latest block. */
  ghost function NextDraft(sha: HashFn, blocks: Blocks, txs: seq<TxRecord>, now: int64, difficulty: uint8): Block
    requires Contiguous(blocks)
  {
    Draft(Latest(blocks), Root(sha, HashesAt(txs, None)), now, difficulty)
  }

  /** The block comes right after the last one and links to it. */
  ghost predicate Follows(blocks: Blocks, b: Block)
    requires Contiguous(blocks)
  {
    |blocks| > 0 && b.height == |blocks| && b.prevHash == blocks[|blocks| - 1].hash
  }

  /** A round ends with a new block exactly if there is a height left and no stored block has the hash that
      is mined. */
  ghost predicate SealsWhen(sha: HashFn, blocks: Blocks, draft: Block, sealed: bool) {
    forall b :: FirstProof(sha, draft, b) ==>
      (sealed <==> |blocks| < TWO_64 && forall h :: h in blocks ==> blocks[h].hash != b.hash)
  }

  /** Nothing is pending any more, and the height lists what was. */
  ghost predicate PendingMoved(txs: seq<TxRecord>, txs': seq<TxRecord>, height: uint64) {
    HashesAt(txs', None) == [] && multiset(HashesAt(txs', Some(height))) == multiset(HashesAt(txs, None))
  }

  lemma {:induction false} InsertMeans(sha: HashFn, blocks: Blocks, draft: Block, b: Block)
    requires Contiguous(blocks) && blocks != map[] && FirstProof(sha, draft, b)
    requires draft.height == ToUint64(blocks[|blocks| - 1].height + 1) && draft.prevHash == blocks[|blocks| - 1].hash
    ensures SealsWhen(sha, blocks, draft, CanInsert(blocks, b))
    ensures CanInsert(blocks, b) ==> Follows(blocks, b)
  {
    NextHeight(blocks, b);
    forall b' | FirstProof(sha, draft, b') ensures b' == b { OneFirstProof(sha, draft, b, b'); }
  }

  lemma {:induction false} AllSealed(sha: HashFn, blocks: Blocks, txs: seq<TxRecord>, height: uint64)
    requires StoreInv(sha, blocks, txs) && height !in blocks
    ensures PendingMoved(txs, SealRows(txs, height, HashesAt(txs, None)), height)
  {
    NothingLeftPending(txs, height);
    PendingRows(txs);
    SealRowsHere(txs, height, HashesAt(txs, None));
  }

  lemma {:induction false} RoundMeans(
    sha: HashFn, blocks: Blocks, txs: seq<TxRecord>, now: int64, difficulty: uint8, b: Block)
    requires StoreInv(sha, blocks, txs) && blocks != map[]
    requires FirstProof(sha, NextDraft(sha, blocks, txs, now, difficulty), b)
    ensures b.timestamp == now && b.difficulty == difficulty && LeastNonce(sha, b)
    ensures SealsWhen(sha, blocks, NextDraft(sha, blocks, txs, now, difficulty), CanInsert(blocks, b))
    ensures CanInsert(blocks, b) ==>
      Follows(blocks, b) && PendingMoved(txs, SealRows(txs, b.height, HashesAt(txs, None)), b.height)
  {
    InsertMeans(sha, blocks, NextDraft(sha, blocks, txs, now, difficulty), b);
    FindsLeast(sha, NextDraft(sha, blocks, txs, now, difficulty), b);
    if CanInsert(blocks, b) { AllSealed(sha, blocks, txs, b.height); }
  }

  /** The sealer on the tables: its own blocks table and the ledger's transactions table. */
  class BlockSealer {
    const sha: HashFn
    const difficulty: uint8
    const ledger: LedgerService
    var blocks: Blocks

    ghost predicate Valid()
      reads this, ledger
    {
      StoreInv(sha, blocks, ledger.txs)
    }

    constructor (sha: HashFn, difficulty: uint8, ledger: LedgerService)
      requires ledger.txs == []
      ensures Valid() && blocks == map[] && this.ledger == ledger
      ensures this.sha == sha && this.difficulty == difficulty
    {
      this.sha, this.difficulty, this.ledger := sha, difficulty, ledger;
      blocks := map[];
    }

    /** The block with the greatest height, if there is a block. */
    method LatestBlock() returns (latest: Option<Block>)
      ensures latest.None? <==> blocks == map[]
      ensures latest.Some? ==> latest.value == blocks[Top(blocks)]
      ensures Contiguous(blocks) ==> latest == Latest(blocks)
    {
      if blocks == map[] {
        return None;
      }
      var top := Greatest(blocks);
      if Contiguous(blocks) { WithoutLast(blocks, |blocks| - 1); TopIs(blocks, |blocks| - 1); }
      latest := Some(blocks[top]);
    }

    /** Height is the primary key and the hash column is unique. */
    method CreateBlock(b: Block) returns (created: bool)
      modifies this
      ensures created <==> CanInsert(old(blocks), b)
      ensures blocks == if created then old(blocks)[b.height := b] else old(blocks)
    {
      var rest := blocks.Keys;
      while rest != {}
        invariant rest <= blocks.Keys && blocks == old(blocks)
        invariant forall h :: h in blocks && h !in rest ==> blocks[h].hash != b.hash
        decreases |rest|
      {
        var h: uint64 :| h in rest;
        if blocks[h].hash == b.hash {
          return false;
        }
        rest := rest - {h};
      }
      if b.height in blocks {
        return false;
      }
      blocks := blocks[b.height := b];
      created := true;
    }

    /** The hashes of the rows with the given block height, None meaning not sealed. */
    method HashesByHeight(height: Option<uint64>) returns (hashes: seq<Bytes>)
      ensures hashes == HashesAt(ledger.txs, height)
    {
      hashes := [];
      for i := 0 to |ledger.txs|
        invariant hashes == HashesAt(ledger.txs[..i], height)
      {
        var tx := ledger.txs[i];
        assert ledger.txs[..i + 1] == ledger.txs[..i] + [tx];
        HashesAtAppend(ledger.txs[..i], tx, height);
        if tx.height == height {
          hashes := hashes + [tx.hash];
        }
      }
      assert ledger.txs[..|ledger.txs|] == ledger.txs;
    }

    method SealTransactions(height: uint64, hashes: seq<Bytes>)
      modifies ledger`txs
      ensures ledger.txs == SealRows(old(ledger.txs), height, hashes)
    {
      ghost var before := ledger.txs;
      for i := 0 to |ledger.txs|
        invariant |ledger.txs| == |before|
        invariant forall j :: 0 <= j < i ==> ledger.txs[j] == SealRow(before[j], height, hashes)
        invariant forall j :: i <= j < |before| ==> ledger.txs[j] == before[j]
      {
        if ledger.txs[i].hash in hashes {
          ledger.txs := ledger.txs[i := ledger.txs[i].(height := Some(height))];
        }
      }
    }

    /** Fills in and mines the block that follows `latest`. */
    method MineNext(latest: Option<Block>, txHashes: seq<Bytes>, now: int64) returns (b: Block)
      requires CanMine(sha, Draft(latest, Root(sha, txHashes), now, difficulty))
      ensures FirstProof(sha, Draft(latest, Root(sha, txHashes), now, difficulty), b)
    {
      var root := BuildMerkleRoot(sha, txHashes);
      var open;
      if latest.None? {
        open := new OpenBlock(0, GENESIS_PREV_HASH, root, now, difficulty);
      } else {
        open := new OpenBlock(ToUint64(latest.value.height + 1), latest.value.hash, root, now, difficulty);
      }
      MineBlock(sha, open);
      b := open.Snapshot();
    }

    /** Inserts the block and marks its transactions, or changes nothing. */
    method Commit(b: Block, txHashes: seq<Bytes>, now: int64) returns (created: bool)
      requires Valid() && Distinct(txHashes) && OnlyPending(ledger.txs, txHashes)
      requires forall x :: x in txHashes ==> HashIn(ledger.txs, x)
      requires Proves(sha, Draft(Latest(blocks), Root(sha, txHashes), now, difficulty), b)
      modifies this, ledger`txs
      ensures Valid() && created == CanInsert(old(blocks), b)
      ensures !created ==> blocks == old(blocks) && ledger.txs == old(ledger.txs)
      ensures created ==>
        blocks == old(blocks)[b.height := b] && ledger.txs == SealRows(old(ledger.txs), b.height, txHashes)
    {
      created := CreateBlock(b);
      if created {
        if |txHashes| > 0 {
          SealTransactions(b.height, txHashes);
        } else {
          SealNothing(ledger.txs, b.height);
        }
        CommitKeepsInv(sha, old(blocks), old(ledger.txs), txHashes, now, difficulty, b);
      }
    }

    /** Creates and mines block 0 on an empty chain, and does nothing on any other. */
    method EnsureGenesis(now: int64) returns (result: SealResult)
      requires Valid()
      requires blocks == map[] ==> CanMine(sha, Draft(None, Root(sha, []), now, difficulty))
      modifies this, ledger`txs
      ensures Valid() && ledger.txs == old(ledger.txs)
      ensures old(blocks) != map[] ==> blocks == old(blocks)
      ensures old(blocks) == map[] ==>
        && result.Sealed? && FirstProof(sha, Draft(None, Root(sha, []), now, difficulty), result.block)
        && blocks == map[0 := result.block] && result.block.height == 0
        && result.block.timestamp == now && result.block.difficulty == difficulty && LeastNonce(sha, result.block)
    {
      var latest := LatestBlock();
      if latest.Some? {
        return NotInserted;
      }
      assert blocks == map[];
      var b := MineNext(None, [], now);
      MinerSatisfiesValidator(sha, Draft(None, Root(sha, []), now, difficulty), b);
      FindsLeast(sha, Draft(None, Root(sha, []), now, difficulty), b);
      var created := Commit(b, [], now);
      SealNothing(old(ledger.txs), b.height);
      result := Sealed(b);
    }

    /** Seals all pending transactions in one mined block on top of the latest one. If the block cannot
        be inserted nothing changes. */
    method Seal(now: int64) returns (result: SealResult)
      requires Valid()
      requires blocks != map[] ==> CanMine(sha, NextDraft(sha, blocks, ledger.txs, now, difficulty))
      modifies this, ledger`txs
      ensures Valid()
      ensures result.NoGenesis? <==> old(blocks) == map[]
      ensures old(blocks) != map[] ==>
        SealsWhen(sha, old(blocks), NextDraft(sha, old(blocks), old(ledger.txs), now, difficulty), result.Sealed?)
      ensures !result.Sealed? ==> blocks == old(blocks) && ledger.txs == old(ledger.txs)
      ensures result.Sealed? ==>
        && FirstProof(sha, NextDraft(sha, old(blocks), old(ledger.txs), now, difficulty), result.block)
        && blocks == old(blocks)[result.block.height := result.block]
        && ledger.txs == SealRows(old(ledger.txs), result.block.height, HashesAt(old(ledger.txs), None))
      ensures result.Sealed? ==>
        && Follows(old(blocks), result.block) && LeastNonce(sha, result.block)
        && result.block.timestamp == now && result.block.difficulty == difficulty
        && PendingMoved(old(ledger.txs), ledger.txs, result.block.height)
    {
      var txHashes := HashesByHeight(None);
      PendingRows(ledger.txs);
      var latest := LatestBlock();
      if latest.None? {
        assert blocks == map[];
        return NoGenesis;
      }
      var b := MineNext(latest, txHashes, now);
      MinerSatisfiesValidator(sha, Draft(latest, Root(sha, txHashes), now, difficulty), b);
      RoundMeans(sha, blocks, ledger.txs, now, difficulty, b);
      var created := Commit(b, txHashes, now);
      result := if created then Sealed(b) else NotInserted;
    }

    /** All blocks by ascending height. */
    method AllBlocks() returns (chain: seq<Block>)
      ensures chain == RowsByHeight(blocks)
    {
      chain := [];
      var rest := blocks;
      while rest != map[]
        invariant RowsByHeight(blocks) == RowsByHeight(rest) + chain
        decreases |rest|
      {
        var top := Greatest(rest);
        chain := [rest[top]] + chain;
        rest := rest - {top};
      }
    }

    /** The check that runs at startup: on any tables it accepts exactly when the blocks, by ascending
        height, with the hashes stored under their heights are a valid chain. Every state the sealer and
        the ledger leave behind is accepted. */
    method ValidateStoredChain() returns (v: Verdict)
      requires Keyed(blocks)
      ensures v.Accepted? <==> ValidChain(sha, RowsByHeight(blocks), TxMap(blocks, ledger.txs))
      ensures Valid() ==> v.Accepted?
    {
      if Valid() { RowsInOrder(blocks); }
      var chain := AllBlocks();
      if |chain| == 0 {
        return Accepted;
      }
      var txsByBlock: TxsByBlock := map[];
      for i := 0 to |chain|
        invariant forall h :: h in txsByBlock <==> exists j :: 0 <= j < i && chain[j].height == h
        invariant forall h :: h in txsByBlock ==> txsByBlock[h] == HashesAt(ledger.txs, Some(h))
      {
        var hashes := HashesByHeight(Some(chain[i].height));
        txsByBlock := txsByBlock[chain[i].height := hashes];
      }
      ListsOfRows(blocks, ledger.txs, txsByBlock);
      v := ValidateChain(sha, chain, txsByBlock);
    }
  }
}
