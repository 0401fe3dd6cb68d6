/** Blocks, their hashes, and the chain validator (internal/domain/chain/validator.go).

    The validator's loop is proved to accept exactly the chains that satisfy a declarative predicate,
    and two accepted chains with the same tip are proved to commit to the same contents. */
module Chain {
  import opened Wrappers
  import opened Encoding
  import opened Merkle

  datatype Block = Block(
    height: uint64, hash: Bytes, prevHash: Bytes, merkleRoot: Bytes,
    timestamp: int64, nonce: uint64, difficulty: uint8)

  const ASCII_ZERO: byte := 48

  function Zeros(n: nat): (r: Bytes)
    ensures |r| == n && forall i :: 0 <= i < n ==> r[i] == ASCII_ZERO
  {
    if n == 0 then [] else Zeros(n - 1) + [ASCII_ZERO]
  }

  /** 64 characters '0'. */
  const GENESIS_PREV_HASH: Bytes := Zeros(64)

  /** What a block hash is computed over: height, previous hash, Merkle root, timestamp and nonce. */
  function Header(b: Block): Bytes {
    PutUint64(b.height) + b.prevHash + b.merkleRoot + PutUint64(ToUint64(b.timestamp)) + PutUint64(b.nonce)
  }

  function BlockHash(sha: HashFn, b: Block): (r: Bytes)
    ensures |r| == 64
  {
    Hex(sha(Header(b)))
  }

  /** The hash input is written piece by piece. The validator and the sealer carry the same code. */
  method ComputeBlockHash(sha: HashFn, b: Block) returns (hash: Bytes)
    ensures hash == BlockHash(sha, b)
  {
    var h: Bytes := [];
    var heightBytes := PutUint64(b.height);
    h := h + heightBytes;
    h := h + b.prevHash;
    h := h + b.merkleRoot;
    var tsBytes := PutUint64(ToUint64(b.timestamp));
    h := h + tsBytes;
    var nonceBytes := PutUint64(b.nonce);
    h := h + nonceBytes;
    assert h == Header(b);
    hash := Hex(sha(h));
  }

  /** The two blocks agree on everything that is hashed, and on the hash; Difficulty is not hashed. */
  ghost predicate SameCommitment(a: Block, b: Block) {
    a.(difficulty := 0) == b.(difficulty := 0)
  }

  lemma HeaderParts(b: Block)
    requires |b.prevHash| == 64 && |b.merkleRoot| == 64
    ensures |Header(b)| == 152
    ensures Header(b)[..8] == PutUint64(b.height) && Header(b)[8..72] == b.prevHash
    ensures Header(b)[72..136] == b.merkleRoot
    ensures Header(b)[136..144] == PutUint64(ToUint64(b.timestamp)) && Header(b)[144..] == PutUint64(b.nonce)
  {}

  /** The header can be taken apart again when its two hashes have their regular length. */
  lemma HeaderInjective(a: Block, b: Block)
    requires |a.prevHash| == |b.prevHash| == 64 && |a.merkleRoot| == |b.merkleRoot| == 64
    requires Header(a) == Header(b)
    ensures a.(difficulty := 0, hash := []) == b.(difficulty := 0, hash := [])
  {
    HeaderParts(a);
    HeaderParts(b);
    PutUint64Injective(a.height, b.height);
    PutUint64Injective(ToUint64(a.timestamp), ToUint64(b.timestamp));
    PutUint64Injective(a.nonce, b.nonce);
  }

  // ---------------------------------------------------------------- the chain predicate

  type TxsByBlock = map<uint64, seq<Bytes>>

  /** Reading an absent height gives the empty list. */
  function TxsAt(txs: TxsByBlock, height: uint64): seq<Bytes> {
    if height in txs then txs[height] else []
  }

  /** The hash starts with `difficulty` zero digits. */
  ghost predicate MeetsTarget(hash: Bytes, difficulty: uint8) {
    difficulty <= |hash| && forall j :: 0 <= j < difficulty ==> hash[j] == ASCII_ZERO
  }

  function ExpectedPrevHash(blocks: seq<Block>, i: nat): Bytes
    requires i < |blocks|
  {
    if i == 0 then GENESIS_PREV_HASH else blocks[i - 1].hash
  }

  ghost predicate ValidBlock(sha: HashFn, blocks: seq<Block>, txs: TxsByBlock, i: nat)
    requires i < |blocks|
  {
    var b := blocks[i];
    && b.hash == BlockHash(sha, b)
    && b.prevHash == ExpectedPrevHash(blocks, i)
    && b.merkleRoot == Root(sha, TxsAt(txs, b.height))
    && MeetsTarget(b.hash, b.difficulty)
  }

  ghost predicate ValidChain(sha: HashFn, blocks: seq<Block>, txs: TxsByBlock) {
    forall i :: 0 <= i < |blocks| ==> ValidBlock(sha, blocks, txs, i)
  }

  lemma OnlyZeroIsZero(n: int)
    requires 0 <= n < 16
    ensures HEX_ALPHABET[n] as int == ASCII_ZERO <==> n == 0
  {}

  /** The target in terms of the digest behind a hash: two zero digits are a zero byte, and an odd digit
      more is a byte below 16. */
  lemma {:induction false} TargetInBytes(d: Digest, k: nat)
    requires k <= 32
    ensures MeetsTarget(Hex(d), 2 * k) <==> forall i :: 0 <= i < k ==> d[i] == 0
    ensures k < 32 ==> (MeetsTarget(Hex(d), 2 * k + 1) <==> d[k] < 16 && forall i :: 0 <= i < k ==> d[i] == 0)
  {
    forall i | 0 <= i < 32
      ensures Hex(d)[2 * i] == ASCII_ZERO <==> d[i] < 16
      ensures Hex(d)[2 * i] == Hex(d)[2 * i + 1] == ASCII_ZERO <==> d[i] == 0
    {
      HexDigits(d, i);
      OnlyZeroIsZero(d[i] / 16);
      OnlyZeroIsZero(d[i] % 16);
    }
    if forall i :: 0 <= i < k ==> d[i] == 0 {
      forall j | 0 <= j < 2 * k ensures Hex(d)[j] == ASCII_ZERO { assert d[j / 2] == 0 && j == 2 * (j / 2) + j % 2; }
    }
    if MeetsTarget(Hex(d), 2 * k) {
      forall i | 0 <= i < k ensures d[i] == 0 { assert Hex(d)[2 * i] == Hex(d)[2 * i + 1] == ASCII_ZERO; }
    }
  }

  /** The marker is the hex form of 32 zero bytes. */
  lemma {:induction false} MarkerMeans(d: Digest)
    ensures Hex(d) == GENESIS_PREV_HASH <==> forall i :: 0 <= i < 32 ==> d[i] == 0
  {
    TargetInBytes(d, 32);
  }

  // ---------------------------------------------------------------- the validator

  datatype Fault = HashMismatch | PrevHashMismatch | MerkleMismatch | HashTooShort | TargetMissed

  datatype Verdict = Accepted | Rejected(index: nat, fault: Fault)

  /** The check that failed did fail, and the checks before it on the same block passed. */
  ghost predicate Explains(sha: HashFn, blocks: seq<Block>, txs: TxsByBlock, i: nat, fault: Fault)
    requires i < |blocks|
  {
    var b := blocks[i];
    var hashOk := b.hash == BlockHash(sha, b);
    var linkOk := hashOk && b.prevHash == ExpectedPrevHash(blocks, i);
    var rootOk := linkOk && b.merkleRoot == Root(sha, TxsAt(txs, b.height));
    match fault
    case HashMismatch => !hashOk
    case PrevHashMismatch => hashOk && !linkOk
    case MerkleMismatch => linkOk && !rootOk
    case HashTooShort => rootOk && b.difficulty > 64
    case TargetMissed => rootOk && b.difficulty <= 64 && !MeetsTarget(b.hash, b.difficulty)
  }

  /** The proof-of-work check: a digit loop. The length is narrowed to eight bits, as in the source. */
  method CheckTarget(hash: Bytes, difficulty: uint8) returns (fault: Option<Fault>)
    requires |hash| == 64
    ensures fault == if difficulty > 64 then Some(HashTooShort)
                     else if MeetsTarget(hash, difficulty) then None else Some(TargetMissed)
  {
    if difficulty > 0 {
      if |hash| % 256 < difficulty {
        return Some(HashTooShort);
      }
      for j := 0 to difficulty
        invariant forall k :: 0 <= k < j ==> hash[k] == ASCII_ZERO
      {
        if hash[j] != ASCII_ZERO {
          return Some(TargetMissed);
        }
      }
    }
    fault := None;
  }

  /** The checks of one round of the validator's loop. */
  method ValidateBlock(sha: HashFn, blocks: seq<Block>, txsByBlock: TxsByBlock, i: nat) returns (fault: Option<Fault>)
    requires i < |blocks|
    ensures fault.None? <==> ValidBlock(sha, blocks, txsByBlock, i)
    ensures fault.Some? ==> Explains(sha, blocks, txsByBlock, i, fault.value)
  {
    var b := blocks[i];
    var expected := ComputeBlockHash(sha, b);
    if b.hash != expected {
      return Some(HashMismatch);
    }
    if i == 0 {
      if b.prevHash != GENESIS_PREV_HASH {
        return Some(PrevHashMismatch);
      }
    } else {
      if b.prevHash != blocks[i - 1].hash {
        return Some(PrevHashMismatch);
      }
    }
    var txHashes := TxsAt(txsByBlock, b.height);
    var expectedMerkle := BuildMerkleRoot(sha, txHashes);
    if b.merkleRoot != expectedMerkle {
      return Some(MerkleMismatch);
    }
    fault := CheckTarget(b.hash, b.difficulty);
  }

  /** The validator accepts exactly the valid chains, and reports the first bad block. */
  method ValidateChain(sha: HashFn, blocks: seq<Block>, txsByBlock: TxsByBlock) returns (v: Verdict)
    ensures v.Accepted? <==> ValidChain(sha, blocks, txsByBlock)
    ensures v.Rejected? ==>
      && v.index < |blocks| && Explains(sha, blocks, txsByBlock, v.index, v.fault)
      && forall i :: 0 <= i < v.index ==> ValidBlock(sha, blocks, txsByBlock, i)
  {
    for i := 0 to |blocks|
      invariant forall j :: 0 <= j < i ==> ValidBlock(sha, blocks, txsByBlock, j)
    {
      var fault := ValidateBlock(sha, blocks, txsByBlock, i);
      if fault.Some? {
        return Rejected(i, fault.value);
      }
    }
    v := Accepted;
  }

  // ---------------------------------------------------------------- binding

  /** In every block the hashes do not repeat, as the primary key on them demands, and are not all of them
      as long as two digests. */
  ghost predicate RegularTxs(txs: TxsByBlock) {
    forall h :: h in txs ==> Regular(txs[h])
  }

  ghost predicate HeightsInOrder(blocks: seq<Block>) {
    forall i :: 0 <= i < |blocks| ==> blocks[i].height == i
  }

  /** Heights ascend, possibly with gaps. */
  ghost predicate Ascending(blocks: seq<Block>) {
    forall i, j :: 0 <= i < j < |blocks| ==> blocks[i].height < blocks[j].height
  }

  /** Everything that is hashed while the chain is validated. */
  ghost function ChainInputs(sha: HashFn, blocks: seq<Block>, txs: TxsByBlock): set<Bytes> {
    if blocks == [] then {}
    else
      var b := blocks[|blocks| - 1];
      ChainInputs(sha, blocks[..|blocks| - 1], txs) + {Header(b)} + RootInputs(sha, TxsAt(txs, b.height))
  }

  lemma ValidPrefix(sha: HashFn, blocks: seq<Block>, txs: TxsByBlock, n: nat)
    requires ValidChain(sha, blocks, txs) && n <= |blocks|
    ensures ValidChain(sha, blocks[..n], txs)
  {
    forall i | 0 <= i < n ensures ValidBlock(sha, blocks[..n], txs, i) {
      assert ValidBlock(sha, blocks, txs, i);
      assert blocks[..n][i] == blocks[i];
      if i > 0 { assert blocks[..n][i - 1] == blocks[i - 1]; }
    }
  }

  lemma ValidFieldLengths(sha: HashFn, blocks: seq<Block>, txs: TxsByBlock, i: nat)
    requires ValidChain(sha, blocks, txs) && i < |blocks|
    ensures |blocks[i].hash| == 64 && |blocks[i].prevHash| == 64 && |blocks[i].merkleRoot| == 64
  {
    assert ValidBlock(sha, blocks, txs, i);
    if i > 0 { assert ValidBlock(sha, blocks, txs, i - 1); }
  }

  /** Valid blocks with the same hash have the same hashed fields. */
  lemma BlockBinding(sha: HashFn, xs: seq<Block>, txsA: TxsByBlock, i: nat, ys: seq<Block>, txsB: TxsByBlock, j: nat,
                     inputs: set<Bytes>)
    requires ValidChain(sha, xs, txsA) && i < |xs| && ValidChain(sha, ys, txsB) && j < |ys|
    requires Header(xs[i]) in inputs && Header(ys[j]) in inputs && !CollisionIn(sha, inputs)
    requires xs[i].hash == ys[j].hash
    ensures SameCommitment(xs[i], ys[j])
  {
    var a, b := xs[i], ys[j];
    assert ValidBlock(sha, xs, txsA, i) && ValidBlock(sha, ys, txsB, j);
    ValidFieldLengths(sha, xs, txsA, i);
    ValidFieldLengths(sha, ys, txsB, j);
    HexInjective(sha(Header(a)), sha(Header(b)));
    HeaderInjective(a, b);
  }

  /** Equal roots mean matching trees. */
  lemma AgreeIff(sha: HashFn, xs: seq<Bytes>, ys: seq<Bytes>, inputs: set<Bytes>)
    requires RootInputs(sha, xs) <= inputs && RootInputs(sha, ys) <= inputs && !CollisionIn(sha, inputs)
    ensures Root(sha, xs) == Root(sha, ys) <==> Agree(sha, xs, ys)
  {
    RootBinding(sha, xs, ys);
    if CollisionIn(sha, RootInputs(sha, xs) + RootInputs(sha, ys)) {
      CollisionInLarger(sha, RootInputs(sha, xs) + RootInputs(sha, ys), inputs);
    }
  }

  /** All hashed fields agree, and so does what the Merkle root commits to. */
  ghost predicate SameBlock(sha: HashFn, x: Block, txsA: TxsByBlock, y: Block, txsB: TxsByBlock) {
    SameCommitment(x, y) && Agree(sha, TxsAt(txsA, x.height), TxsAt(txsB, x.height))
  }

  /** The chains commit to the same contents, block by block. */
  ghost predicate SameContents(sha: HashFn, xs: seq<Block>, txsA: TxsByBlock, ys: seq<Block>, txsB: TxsByBlock) {
    |xs| == |ys| && forall i :: 0 <= i < |xs| ==> SameBlock(sha, xs[i], txsA, ys[i], txsB)
  }

  /** The lists hold the same transaction hashes under the height of every block. */
  ghost predicate SameHashLists(blocks: seq<Block>, txsA: TxsByBlock, txsB: TxsByBlock) {
    forall i :: 0 <= i < |blocks| ==> SameHashes(TxsAt(txsA, blocks[i].height), TxsAt(txsB, blocks[i].height))
  }

  /** For regular lists the trees match exactly when the hashes are the same. */
  lemma ListsAgree(sha: HashFn, txsA: TxsByBlock, txsB: TxsByBlock, height: uint64)
    requires RegularTxs(txsA) && RegularTxs(txsB)
    ensures Agree(sha, TxsAt(txsA, height), TxsAt(txsB, height))
            <==> SameHashes(TxsAt(txsA, height), TxsAt(txsB, height))
  {
    AgreeDistinct(sha, TxsAt(txsA, height), TxsAt(txsB, height));
  }

  /** In chains with the same contents regular lists hold the same hashes at every height. */
  lemma ContentsAreHashes(sha: HashFn, xs: seq<Block>, txsA: TxsByBlock, ys: seq<Block>, txsB: TxsByBlock)
    requires SameContents(sha, xs, txsA, ys, txsB) && RegularTxs(txsA) && RegularTxs(txsB)
    ensures SameHashLists(xs, txsA, txsB)
  {
    forall i | 0 <= i < |xs| ensures SameHashes(TxsAt(txsA, xs[i].height), TxsAt(txsB, xs[i].height)) {
      assert SameBlock(sha, xs[i], txsA, ys[i], txsB);
      ListsAgree(sha, txsA, txsB, xs[i].height);
    }
  }

  /** The block just below the last n has the hash that stands for "no block". */
  ghost predicate MarkerBelow(blocks: seq<Block>, n: nat) {
    n < |blocks| && blocks[|blocks| - 1 - n].hash == GENESIS_PREV_HASH
  }

  ghost predicate Comparable(sha: HashFn, xs: seq<Block>, txsA: TxsByBlock, ys: seq<Block>, txsB: TxsByBlock,
                             inputs: set<Bytes>)
  {
    && xs != [] && ValidChain(sha, xs, txsA)
    && ys != [] && ValidChain(sha, ys, txsB)
    && ChainInputs(sha, xs, txsA) <= inputs && ChainInputs(sha, ys, txsB) <= inputs
    && !CollisionIn(sha, inputs)
  }

  lemma TipBinding(sha: HashFn, xs: seq<Block>, txsA: TxsByBlock, ys: seq<Block>, txsB: TxsByBlock, inputs: set<Bytes>)
    requires Comparable(sha, xs, txsA, ys, txsB, inputs) && xs[|xs| - 1].hash == ys[|ys| - 1].hash
    ensures SameBlock(sha, xs[|xs| - 1], txsA, ys[|ys| - 1], txsB)
  {
    var m, n := |xs| - 1, |ys| - 1;
    BlockBinding(sha, xs, txsA, m, ys, txsB, n, inputs);
    assert ValidBlock(sha, xs, txsA, m) && ValidBlock(sha, ys, txsB, n);
    AgreeIff(sha, TxsAt(txsA, xs[m].height), TxsAt(txsB, xs[m].height), inputs);
  }

  lemma PreviousHashes(sha: HashFn, xs: seq<Block>, txsA: TxsByBlock, ys: seq<Block>, txsB: TxsByBlock)
    requires xs != [] && ys != [] && ValidChain(sha, xs, txsA) && ValidChain(sha, ys, txsB)
    requires SameCommitment(xs[|xs| - 1], ys[|ys| - 1])
    ensures ExpectedPrevHash(xs, |xs| - 1) == ExpectedPrevHash(ys, |ys| - 1)
  {
    assert ValidBlock(sha, xs, txsA, |xs| - 1) && ValidBlock(sha, ys, txsB, |ys| - 1);
  }

  lemma ComparablePrefix(sha: HashFn, xs: seq<Block>, txsA: TxsByBlock, ys: seq<Block>, txsB: TxsByBlock,
                         inputs: set<Bytes>)
    requires Comparable(sha, xs, txsA, ys, txsB, inputs) && |xs| > 1 && |ys| > 1
    ensures Comparable(sha, xs[..|xs| - 1], txsA, ys[..|ys| - 1], txsB, inputs)
  {
    ValidPrefix(sha, xs, txsA, |xs| - 1);
    ValidPrefix(sha, ys, txsB, |ys| - 1);
  }

  lemma SameContentsStep(sha: HashFn, xs: seq<Block>, txsA: TxsByBlock, ys: seq<Block>, txsB: TxsByBlock)
    requires xs != [] && ys != [] && SameContents(sha, xs[..|xs| - 1], txsA, ys[..|ys| - 1], txsB)
    requires SameBlock(sha, xs[|xs| - 1], txsA, ys[|ys| - 1], txsB)
    ensures SameContents(sha, xs, txsA, ys, txsB)
  {
    forall i | 0 <= i < |xs| - 1 ensures xs[i] == xs[..|xs| - 1][i] && ys[i] == ys[..|xs| - 1][i] {}
  }

  /** How two chains can compare: same contents, or the longer one passes a marker where the other ends. */
  ghost predicate Bound(sha: HashFn, xs: seq<Block>, txsA: TxsByBlock, ys: seq<Block>, txsB: TxsByBlock) {
    SameContents(sha, xs, txsA, ys, txsB) || MarkerBelow(xs, |ys|) || MarkerBelow(ys, |xs|)
  }

  lemma MarkerFurtherDown(blocks: seq<Block>, n: nat)
    requires blocks != [] && MarkerBelow(blocks[..|blocks| - 1], n)
    ensures MarkerBelow(blocks, n + 1)
  {}

  lemma MarkerAtEnd(xs: seq<Block>, ys: seq<Block>)
    requires |xs| == 1 < |ys| && ExpectedPrevHash(xs, 0) == ExpectedPrevHash(ys, |ys| - 1)
    ensures MarkerBelow(ys, |xs|)
  {}

  lemma BoundBelow(sha: HashFn, xs: seq<Block>, txsA: TxsByBlock, ys: seq<Block>, txsB: TxsByBlock)
    requires |xs| > 1 && |ys| > 1 && Bound(sha, xs[..|xs| - 1], txsA, ys[..|ys| - 1], txsB)
    requires !SameContents(sha, xs[..|xs| - 1], txsA, ys[..|ys| - 1], txsB)
    ensures Bound(sha, xs, txsA, ys, txsB)
  {
    if MarkerBelow(xs[..|xs| - 1], |ys| - 1) {
      MarkerFurtherDown(xs, |ys| - 1);
    } else {
      MarkerFurtherDown(ys, |xs| - 1);
    }
  }

  lemma BoundAtEnd(sha: HashFn, xs: seq<Block>, txsA: TxsByBlock, ys: seq<Block>, txsB: TxsByBlock)
    requires xs != [] && ys != [] && (|xs| == 1 || |ys| == 1)
    requires SameBlock(sha, xs[|xs| - 1], txsA, ys[|ys| - 1], txsB)
    requires ExpectedPrevHash(xs, |xs| - 1) == ExpectedPrevHash(ys, |ys| - 1)
    ensures Bound(sha, xs, txsA, ys, txsB)
  {
    if |ys| > 1 {
      MarkerAtEnd(xs, ys);
    } else if |xs| > 1 {
      MarkerAtEnd(ys, xs);
    } else {
      assert SameContents(sha, xs[..0], txsA, ys[..0], txsB);
      SameContentsStep(sha, xs, txsA, ys, txsB);
    }
  }

  lemma {:induction false} AscendingHeight(blocks: seq<Block>, i: nat)
    requires Ascending(blocks) && i < |blocks|
    ensures blocks[i].height >= i
  {
    if i > 0 { AscendingHeight(blocks, i - 1); }
  }

  /** A chain is no longer than its tip is high. */
  lemma {:induction false} NoLonger(xs: seq<Block>, ys: seq<Block>)
    requires xs != [] && ys != [] && HeightsInOrder(xs) && Ascending(ys)
    requires xs[|xs| - 1].height == ys[|ys| - 1].height
    ensures |ys| <= |xs|
  {
    AscendingHeight(ys, |ys| - 1);
  }

  lemma {:induction false} ChainBindingWithin(
    sha: HashFn, xs: seq<Block>, txsA: TxsByBlock, ys: seq<Block>, txsB: TxsByBlock, inputs: set<Bytes>)
    requires Comparable(sha, xs, txsA, ys, txsB, inputs) && xs[|xs| - 1].hash == ys[|ys| - 1].hash
    ensures Bound(sha, xs, txsA, ys, txsB)
  {
    TipBinding(sha, xs, txsA, ys, txsB, inputs);
    PreviousHashes(sha, xs, txsA, ys, txsB);
    if |xs| > 1 && |ys| > 1 {
      ComparablePrefix(sha, xs, txsA, ys, txsB, inputs);
      ChainBindingWithin(sha, xs[..|xs| - 1], txsA, ys[..|ys| - 1], txsB, inputs);
      if SameContents(sha, xs[..|xs| - 1], txsA, ys[..|ys| - 1], txsB) {
        SameContentsStep(sha, xs, txsA, ys, txsB);
      } else {
        BoundBelow(sha, xs, txsA, ys, txsB);
      }
    } else {
      BoundAtEnd(sha, xs, txsA, ys, txsB);
    }
  }

  /** Two accepted chains with the same tip hash, whatever their heights and lists, have the same length,
      the same hashed fields in every block and matching trees at every height. Otherwise two of the
      strings hashed collide, or the longer chain continues below the length of the shorter with a block
      whose hash is the 64 zeros that mark the beginning. */
  lemma {:induction false} ChainBinding(sha: HashFn, xs: seq<Block>, txsA: TxsByBlock, ys: seq<Block>, txsB: TxsByBlock)
    requires xs != [] && ValidChain(sha, xs, txsA)
    requires ys != [] && ValidChain(sha, ys, txsB)
    requires xs[|xs| - 1].hash == ys[|ys| - 1].hash
    ensures
      || CollisionIn(sha, ChainInputs(sha, xs, txsA) + ChainInputs(sha, ys, txsB))
      || SameContents(sha, xs, txsA, ys, txsB) || MarkerBelow(xs, |ys|) || MarkerBelow(ys, |xs|)
  {
    var inputs := ChainInputs(sha, xs, txsA) + ChainInputs(sha, ys, txsB);
    if !CollisionIn(sha, inputs) {
      ChainBindingWithin(sha, xs, txsA, ys, txsB, inputs);
    }
  }

  /** When the heights of the first chain are 0 .. n-1 and those of the second ascend, as a query ordered
      by height delivers them, the second is no longer than the first. */
  lemma {:induction false} StoredChainBinding(
    sha: HashFn, xs: seq<Block>, txsA: TxsByBlock, ys: seq<Block>, txsB: TxsByBlock)
    requires xs != [] && ValidChain(sha, xs, txsA) && HeightsInOrder(xs)
    requires ys != [] && ValidChain(sha, ys, txsB) && Ascending(ys)
    requires xs[|xs| - 1].hash == ys[|ys| - 1].hash
    ensures
      || CollisionIn(sha, ChainInputs(sha, xs, txsA) + ChainInputs(sha, ys, txsB))
      || SameContents(sha, xs, txsA, ys, txsB) || MarkerBelow(xs, |ys|)
  {
    var inputs := ChainInputs(sha, xs, txsA) + ChainInputs(sha, ys, txsB);
    if !CollisionIn(sha, inputs) {
      ChainBindingWithin(sha, xs, txsA, ys, txsB, inputs);
      TipBinding(sha, xs, txsA, ys, txsB, inputs);
      NoLonger(xs, ys);
    }
  }

  /** Two accepted chains with heights 0 .. n-1 and the same tip hash have the same contents, or two of the
      strings hashed collide. */
  lemma {:induction false} NumberedChainBinding(
    sha: HashFn, xs: seq<Block>, txsA: TxsByBlock, ys: seq<Block>, txsB: TxsByBlock)
    requires xs != [] && ValidChain(sha, xs, txsA) && HeightsInOrder(xs)
    requires ys != [] && ValidChain(sha, ys, txsB) && HeightsInOrder(ys)
    requires xs[|xs| - 1].hash == ys[|ys| - 1].hash
    ensures CollisionIn(sha, ChainInputs(sha, xs, txsA) + ChainInputs(sha, ys, txsB))
            || SameContents(sha, xs, txsA, ys, txsB)
  {
    var inputs := ChainInputs(sha, xs, txsA) + ChainInputs(sha, ys, txsB);
    if !CollisionIn(sha, inputs) {
      ChainBindingWithin(sha, xs, txsA, ys, txsB, inputs);
      TipBinding(sha, xs, txsA, ys, txsB, inputs);
    }
  }

  /** The strings hashed for one block are among those hashed for the chain. */
  lemma {:induction false} BlockInputs(sha: HashFn, blocks: seq<Block>, txs: TxsByBlock, i: nat)
    requires i < |blocks|
    ensures RootInputs(sha, TxsAt(txs, blocks[i].height)) <= ChainInputs(sha, blocks, txs)
  {
    if i < |blocks| - 1 { BlockInputs(sha, blocks[..|blocks| - 1], txs, i); }
  }

  /** Which changes of the transaction lists under a valid chain go unnoticed: exactly those after which the
      tree at each block's height matches the old one, or a collision is at hand. */
  lemma {:induction false} UnnoticedLists(sha: HashFn, blocks: seq<Block>, txs: TxsByBlock, txs': TxsByBlock)
    requires ValidChain(sha, blocks, txs)
    ensures
      || CollisionIn(sha, ChainInputs(sha, blocks, txs) + ChainInputs(sha, blocks, txs'))
      || (ValidChain(sha, blocks, txs') <==>
            forall i :: 0 <= i < |blocks| ==>
              Agree(sha, TxsAt(txs, blocks[i].height), TxsAt(txs', blocks[i].height)))
  {
    var inputs := ChainInputs(sha, blocks, txs) + ChainInputs(sha, blocks, txs');
    if !CollisionIn(sha, inputs) {
      forall i | 0 <= i < |blocks|
        ensures ValidBlock(sha, blocks, txs', i) <==>
          Agree(sha, TxsAt(txs, blocks[i].height), TxsAt(txs', blocks[i].height))
      {
        assert ValidBlock(sha, blocks, txs, i);
        BlockInputs(sha, blocks, txs, i);
        BlockInputs(sha, blocks, txs', i);
        AgreeIff(sha, TxsAt(txs, blocks[i].height), TxsAt(txs', blocks[i].height), inputs);
      }
    }
  }

  /** For regular lists: exactly those that keep the hashes at each block's height. */
  lemma {:induction false} UnnoticedRegularLists(sha: HashFn, blocks: seq<Block>, txs: TxsByBlock, txs': TxsByBlock)
    requires ValidChain(sha, blocks, txs) && RegularTxs(txs) && RegularTxs(txs')
    ensures
      || CollisionIn(sha, ChainInputs(sha, blocks, txs) + ChainInputs(sha, blocks, txs'))
      || (ValidChain(sha, blocks, txs') <==> SameHashLists(blocks, txs, txs'))
  {
    UnnoticedLists(sha, blocks, txs, txs');
    forall i | 0 <= i < |blocks|
      ensures Agree(sha, TxsAt(txs, blocks[i].height), TxsAt(txs', blocks[i].height))
              <==> SameHashes(TxsAt(txs, blocks[i].height), TxsAt(txs', blocks[i].height))
    {
      ListsAgree(sha, txs, txs', blocks[i].height);
    }
  }

  /** The one field of a block that its hash does not cover: replacing the difficulty goes unnoticed
      exactly when the old hash still meets the new target. */
  lemma DifficultyNotCommitted(sha: HashFn, blocks: seq<Block>, txs: TxsByBlock, i: nat, d: uint8)
    requires ValidChain(sha, blocks, txs) && i < |blocks|
    ensures ValidChain(sha, blocks[i := blocks[i].(difficulty := d)], txs) <==> MeetsTarget(blocks[i].hash, d)
  {
    var changed := blocks[i := blocks[i].(difficulty := d)];
    forall j | 0 <= j < |blocks|
      ensures ValidBlock(sha, changed, txs, j) <==> (j == i ==> MeetsTarget(blocks[i].hash, d))
    {
      assert ValidBlock(sha, blocks, txs, j);
      assert Header(changed[j]) == Header(blocks[j]);
      if j > 0 { assert changed[j - 1].hash == blocks[j - 1].hash; }
    }
    assert MeetsTarget(blocks[i].hash, d) <==> ValidBlock(sha, changed, txs, i);
  }
}
