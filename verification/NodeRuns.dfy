/** Runs of a whole ledger node: submissions, the one sealer and the startup check, interleaved.

    A sealer round is three steps: read the pending rows and the latest block, mine, and commit block
    and marks together. The check reads all blocks in one step and every block's transaction hashes in
    a later step of its own (cmd/ledger/wire.go starts both at once). Submissions happen in between. */
module NodeRuns {
  import opened Wrappers
  import opened Encoding
  import opened Merkle
  import opened Chain
  import opened Ledger
  import opened Accounting
  import opened Store
  import Sealer

  datatype SealerState = Idle | Mining(hashes: seq<Bytes>, latest: Option<Block>)

  datatype CheckerState = NotStarted | Reading(snapshot: seq<Block>, got: TxsByBlock)

  datatype LedgerNode = LedgerNode(
    players: Players, txs: seq<TxRecord>, blocks: Blocks, sealer: SealerState, checker: CheckerState)

  datatype Event =
    | Submit(req: Request, txHash: Bytes, now: int64)
    | ReadPending(hashes: seq<Bytes>)
    | CommitBlock(b: Block, now: int64, difficulty: uint8)
    | Abort
    | ReadBlocks
    | ReadHashes(height: uint64, hashes: seq<Bytes>)

  const START := LedgerNode(map[], [], map[], Idle, NotStarted)

  /** Reads come back in any order. The hash of a new transaction is a fresh 36-byte UUID string. */
  ghost predicate Enabled(sha: HashFn, n: LedgerNode, e: Event)
    requires Contiguous(n.blocks)
  {
    match e
    case Submit(req, txHash, _) => Admit(n.players, req).None? && !HashIn(n.txs, txHash) && |txHash| == 36
    case ReadPending(hashes) =>
      // On an empty chain the sealer builds the genesis block, which holds no transactions.
      n.sealer.Idle? && (if |n.blocks| == 0 then hashes == [] else multiset(hashes) == multiset(HashesAt(n.txs, None)))
    case CommitBlock(b, now, difficulty) =>
      && n.sealer.Mining? && CanInsert(n.blocks, b)
      && Sealer.FirstProof(sha, Draft(n.sealer.latest, Root(sha, n.sealer.hashes), now, difficulty), b)
    case Abort => n.sealer.Mining?
    case ReadBlocks => true
    case ReadHashes(height, hashes) =>
      && n.checker.Reading? && height < |n.checker.snapshot|
      && multiset(hashes) == multiset(HashesAt(n.txs, Some(height)))
  }

  ghost function Apply(sha: HashFn, n: LedgerNode, e: Event): LedgerNode
    requires Contiguous(n.blocks) && Enabled(sha, n, e)
  {
    match e
    case Submit(req, txHash, now) =>
      n.(players := Settle(n.players, req), txs := n.txs + [TxRecord(txHash, req, now, None)])
    case ReadPending(hashes) => n.(sealer := Mining(hashes, Latest(n.blocks)))
    case CommitBlock(b, _, _) =>
      n.(blocks := n.blocks[b.height := b], txs := SealRows(n.txs, b.height, n.sealer.hashes), sealer := Idle)
    case Abort => n.(sealer := Idle)
    case ReadBlocks => n.(checker := Reading(ChainOf(n.blocks), map[]))
    case ReadHashes(height, hashes) => n.(checker := n.checker.(got := n.checker.got[height := hashes]))
  }

  ghost predicate SealerInv(n: LedgerNode)
    requires Contiguous(n.blocks)
  {
    n.sealer.Mining? ==>
      && n.sealer.latest == Latest(n.blocks)
      && Distinct(n.sealer.hashes) && OnlyPending(n.txs, n.sealer.hashes)
      && forall x :: x in n.sealer.hashes ==> HashIn(n.txs, x)
  }

  ghost predicate CheckerInv(n: LedgerNode)
    requires Contiguous(n.blocks)
  {
    n.checker.Reading? ==>
      && n.checker.snapshot <= ChainOf(n.blocks)
      && forall h :: h in n.checker.got ==>
           h < |n.checker.snapshot| && multiset(n.checker.got[h]) == multiset(HashesAt(n.txs, Some(h)))
  }

  ghost predicate NodeInv(sha: HashFn, n: LedgerNode) {
    StoreInv(sha, n.blocks, n.txs) && SealerInv(n) && CheckerInv(n) && Booked(n.players, n.txs)
  }

  // ---------------------------------------------------------------- every step keeps the invariant

  lemma PermutedDistinct(a: seq<Bytes>, b: seq<Bytes>)
    requires Distinct(a) && multiset(a) == multiset(b)
    ensures Distinct(b) && forall x :: x in b ==> x in a
  {
    forall x ensures multiset(b)[x] <= 1 { DistinctCounts(a, x); }
    CountsDistinct(b);
    forall x | x in b ensures x in a {
      assert x in multiset(b);
    }
  }

  lemma HashesStable(n: LedgerNode, tx: TxRecord)
    requires tx.height == None
    ensures forall h: uint64 :: HashesAt(n.txs + [tx], Some(h)) == HashesAt(n.txs, Some(h))
  {}

  /** A new pending row does not disturb the sealer. */
  lemma SealerUndisturbed(n: LedgerNode, tx: TxRecord)
    requires Contiguous(n.blocks) && SealerInv(n) && tx.height == None
    ensures SealerInv(n.(txs := n.txs + [tx]))
  {
    if n.sealer.Mining? {
      forall x | x in n.sealer.hashes ensures HashIn(n.txs + [tx], x) {
        var i :| 0 <= i < |n.txs| && n.txs[i].hash == x;
        assert (n.txs + [tx])[i].hash == x;
      }
    }
  }

  lemma SubmitStep(sha: HashFn, n: LedgerNode, e: Event)
    requires NodeInv(sha, n) && e.Submit? && Enabled(sha, n, e)
    ensures NodeInv(sha, Apply(sha, n, e))
  {
    var tx := TxRecord(e.txHash, e.req, e.now, None);
    SubmitKeepsInv(sha, n.blocks, n.txs, tx);
    BookedAppend(n.players, n.txs, tx);
    HashesStable(n, tx);
    SealerUndisturbed(n, tx);
  }

  lemma ReadPendingStep(sha: HashFn, n: LedgerNode, e: Event)
    requires NodeInv(sha, n) && e.ReadPending? && Enabled(sha, n, e)
    ensures NodeInv(sha, Apply(sha, n, e))
  {
    if |n.blocks| > 0 {
      Sealer.PendingRows(n.txs);
      PermutedDistinct(HashesAt(n.txs, None), e.hashes);
    }
  }

  lemma CommitStore(sha: HashFn, n: LedgerNode, e: Event)
    requires StoreInv(sha, n.blocks, n.txs) && SealerInv(n) && e.CommitBlock? && Enabled(sha, n, e)
    ensures
      var n' := Apply(sha, n, e);
      StoreInv(sha, n'.blocks, n'.txs) && ChainOf(n'.blocks) == ChainOf(n.blocks) + [e.b] && e.b.height == |n.blocks|
  {
    Sealer.MinerSatisfiesValidator(sha, Draft(n.sealer.latest, Root(sha, n.sealer.hashes), e.now, e.difficulty), e.b);
    InsertContiguous(n.blocks, e.b);
    CommitKeepsInv(sha, n.blocks, n.txs, n.sealer.hashes, e.now, e.difficulty, e.b);
  }

  /** The lists a check has already read do not change. */
  lemma {:induction false} CheckedListsKept(n: LedgerNode, height: uint64, hashes: seq<Bytes>)
    requires Contiguous(n.blocks) && CheckerInv(n) && n.checker.Reading? && OnlyPending(n.txs, hashes)
    requires height == |n.blocks|
    ensures forall h :: h in n.checker.got ==>
      multiset(n.checker.got[h]) == multiset(HashesAt(SealRows(n.txs, height, hashes), Some(h)))
  {
    forall h | h in n.checker.got
      ensures HashesAt(SealRows(n.txs, height, hashes), Some(h)) == HashesAt(n.txs, Some(h))
    {
      SealRowsElsewhere(n.txs, height, hashes, h);
    }
  }

  lemma {:induction false} BooksSealed(players: Players, txs: seq<TxRecord>, height: uint64, hashes: seq<Bytes>)
    requires Booked(players, txs)
    ensures Booked(players, SealRows(txs, height, hashes))
  {
    assert Requests(SealRows(txs, height, hashes)) == Requests(txs);
  }

  /** A block on top does not disturb a check that is under way. */
  lemma {:induction false} CheckerUndisturbed(n: LedgerNode, b: Block)
    requires Contiguous(n.blocks) && CheckerInv(n) && SealerInv(n) && n.sealer.Mining?
    requires b.height == |n.blocks| && Contiguous(n.blocks[b.height := b])
    ensures CheckerInv(n.(blocks := n.blocks[b.height := b], txs := SealRows(n.txs, b.height, n.sealer.hashes)))
  {
    if n.checker.Reading? {
      CheckedListsKept(n, b.height, n.sealer.hashes);
    }
  }

  lemma CommitStep(sha: HashFn, n: LedgerNode, e: Event)
    requires NodeInv(sha, n) && e.CommitBlock? && Enabled(sha, n, e)
    ensures NodeInv(sha, Apply(sha, n, e))
  {
    CommitStore(sha, n, e);
    BooksSealed(n.players, n.txs, e.b.height, n.sealer.hashes);
    CheckerUndisturbed(n, e.b);
  }

  lemma StepKeepsInv(sha: HashFn, n: LedgerNode, e: Event)
    requires NodeInv(sha, n) && Enabled(sha, n, e)
    ensures NodeInv(sha, Apply(sha, n, e))
  {
    match e
    case Submit(_, _, _) => SubmitStep(sha, n, e);
    case ReadPending(_) => ReadPendingStep(sha, n, e);
    case CommitBlock(_, _, _) => CommitStep(sha, n, e);
    case Abort =>
    case ReadBlocks =>
    case ReadHashes(_, _) =>
  }

  // ---------------------------------------------------------------- runs

  /** The node after a sequence of events, or None if some event was not enabled at its turn. */
  ghost function RunFrom(sha: HashFn, n: LedgerNode, events: seq<Event>): Option<LedgerNode> {
    if events == [] then Some(n)
    else
      var before := RunFrom(sha, n, events[..|events| - 1]);
      var e := events[|events| - 1];
      if before.Some? && Contiguous(before.value.blocks) && Enabled(sha, before.value, e)
      then Some(Apply(sha, before.value, e)) else None
  }

  lemma {:induction false} RunKeepsInv(sha: HashFn, n: LedgerNode, events: seq<Event>)
    requires NodeInv(sha, n) && RunFrom(sha, n, events).Some?
    ensures NodeInv(sha, RunFrom(sha, n, events).value)
  {
    if events != [] {
      var front, e := events[..|events| - 1], events[|events| - 1];
      RunKeepsInv(sha, n, front);
      StepKeepsInv(sha, RunFrom(sha, n, front).value, e);
    }
  }

  ghost predicate Reachable(sha: HashFn, n: LedgerNode) {
    exists events :: RunFrom(sha, START, events) == Some(n)
  }

  lemma ReachableInv(sha: HashFn, n: LedgerNode)
    requires Reachable(sha, n)
    ensures NodeInv(sha, n)
  {
    var events :| RunFrom(sha, START, events) == Some(n);
    RunKeepsInv(sha, START, events);
  }

  /** In every reachable state the stored chain is one the validator accepts, with regular transaction
      lists and heights 0 .. n-1, so that the binding theorems apply to it. */
  lemma ReachableChainAccepted(sha: HashFn, n: LedgerNode)
    requires Reachable(sha, n)
    ensures Contiguous(n.blocks)
    ensures ValidChain(sha, ChainOf(n.blocks), TxMap(n.blocks, n.txs))
    ensures RegularTxs(TxMap(n.blocks, n.txs)) && HeightsInOrder(ChainOf(n.blocks))
  {
    ReachableInv(sha, n);
    StoredListsRegular(sha, n.blocks, n.txs);
  }

  /** Tampering breaks the chain: whatever the validator accepts in place of the stored chain, under the
      same tip hash and by ascending height, has the same hashed fields in every block and matching trees
      at every height; with regular lists this means the same transaction hashes. Otherwise a collision
      among the strings hashed is at hand, or a stored block whose hash is the 64 zeros that mark the
      beginning. */
  lemma {:induction false} TamperEvident(sha: HashFn, n: LedgerNode, other: seq<Block>, txs: TxsByBlock)
    requires Reachable(sha, n) && Contiguous(n.blocks) && |n.blocks| > 0
    requires other != [] && Ascending(other) && ValidChain(sha, other, txs)
    requires other[|other| - 1].hash == n.blocks[|n.blocks| - 1].hash
    ensures
      var chain, lists := ChainOf(n.blocks), TxMap(n.blocks, n.txs);
      || CollisionIn(sha, ChainInputs(sha, chain, lists) + ChainInputs(sha, other, txs))
      || MarkerBelow(chain, |other|)
      || (SameContents(sha, chain, lists, other, txs) && (RegularTxs(txs) ==> SameHashLists(chain, lists, txs)))
  {
    var chain, lists := ChainOf(n.blocks), TxMap(n.blocks, n.txs);
    ReachableChainAccepted(sha, n);
    StoredChainBinding(sha, chain, lists, other, txs);
    if SameContents(sha, chain, lists, other, txs) && RegularTxs(txs) {
      ContentsAreHashes(sha, chain, lists, other, txs);
    }
  }

  /** The same for tables: if the startup check accepts tampered tables with the old tip hash, the blocks
      and what their trees commit to are the old ones. */
  lemma {:induction false} TamperedTables(sha: HashFn, n: LedgerNode, blocks: Blocks, txs: seq<TxRecord>)
    requires Reachable(sha, n) && Contiguous(n.blocks) && |n.blocks| > 0
    requires Keyed(blocks) && blocks != map[]
    requires ValidChain(sha, RowsByHeight(blocks), TxMap(blocks, txs))
    requires blocks[Top(blocks)].hash == n.blocks[|n.blocks| - 1].hash
    ensures
      var chain, lists := ChainOf(n.blocks), TxMap(n.blocks, n.txs);
      var other, others := RowsByHeight(blocks), TxMap(blocks, txs);
      || CollisionIn(sha, ChainInputs(sha, chain, lists) + ChainInputs(sha, other, others))
      || MarkerBelow(chain, |other|)
      || (&& SameContents(sha, chain, lists, other, others)
          && (RegularTxs(others) ==> SameHashLists(chain, lists, others)))
  {
    RowsAscend(blocks);
    TamperEvident(sha, n, RowsByHeight(blocks), TxMap(blocks, txs));
  }

  /** Without the tip hash at hand deleting the newest blocks goes unnoticed, in every reachable state. */
  lemma {:induction false} TruncationAccepted(sha: HashFn, n: LedgerNode, m: nat, txs: seq<TxRecord>)
    requires Reachable(sha, n) && m <= |n.blocks|
    requires forall h: uint64 :: h < m ==> HashesAt(txs, Some(h)) == HashesAt(n.txs, Some(h))
    ensures ValidChain(sha, RowsByHeight(Below(n.blocks, m)), TxMap(Below(n.blocks, m), txs))
  {
    ReachableInv(sha, n);
    TruncationUnnoticed(sha, n.blocks, n.txs, m, txs);
  }

  /** The genesis block holds no transactions, and none are on their way into it. */
  ghost predicate GenesisInv(n: LedgerNode)
    requires Contiguous(n.blocks)
  {
    && (|n.blocks| > 0 ==> HashesAt(n.txs, Some(0)) == [])
    && (n.sealer.Mining? && |n.blocks| == 0 ==> n.sealer.hashes == [])
  }

  lemma {:induction false} GenesisCommit(sha: HashFn, n: LedgerNode, e: Event)
    requires NodeInv(sha, n) && e.CommitBlock? && Enabled(sha, n, e) && GenesisInv(n)
    ensures HashesAt(Apply(sha, n, e).txs, Some(0)) == []
  {
    CommitStore(sha, n, e);
    if |n.blocks| == 0 {
      Sealer.SealNothing(n.txs, e.b.height);
      NoRowsAt(n.txs, Some(0));
    } else {
      SealRowsElsewhere(n.txs, e.b.height, n.sealer.hashes, 0);
    }
  }

  lemma {:induction false} StepKeepsGenesis(sha: HashFn, n: LedgerNode, e: Event)
    requires NodeInv(sha, n) && Enabled(sha, n, e) && GenesisInv(n) && Contiguous(Apply(sha, n, e).blocks)
    ensures GenesisInv(Apply(sha, n, e))
  {
    match e
    case Submit(req, txHash, now) => HashesStable(n, TxRecord(txHash, req, now, None));
    case CommitBlock(_, _, _) => GenesisCommit(sha, n, e);
    case _ =>
  }

  lemma {:induction false} RunKeepsGenesis(sha: HashFn, events: seq<Event>)
    requires RunFrom(sha, START, events).Some? && Contiguous(RunFrom(sha, START, events).value.blocks)
    ensures GenesisInv(RunFrom(sha, START, events).value)
  {
    if events != [] {
      var front, e := events[..|events| - 1], events[|events| - 1];
      RunKeepsInv(sha, START, front);
      RunKeepsGenesis(sha, front);
      StepKeepsGenesis(sha, RunFrom(sha, START, front).value, e);
    }
  }

  /** The exception behind SameHashes, in every reachable state with a genesis block: a row with the empty
      hash can be put into that block, although its table key is free, and the check still accepts. */
  lemma {:induction false} EmptyHashAccepted(sha: HashFn, n: LedgerNode, req: Request, now: int64)
    requires Reachable(sha, n) && Contiguous(n.blocks) && |n.blocks| > 0
    ensures
      var txs := n.txs + [TxRecord([], req, now, Some(0))];
      && !HashIn(n.txs, [])
      && ValidChain(sha, RowsByHeight(n.blocks), TxMap(n.blocks, txs))
      && multiset(HashesAt(txs, Some(0))) != multiset(HashesAt(n.txs, Some(0)))
  {
    ReachableInv(sha, n);
    var events :| RunFrom(sha, START, events) == Some(n);
    RunKeepsGenesis(sha, events);
    RowsInOrder(n.blocks);
    EmptyHashUnnoticed(sha, n.blocks, n.txs, TxRecord([], req, now, Some(0)), 0);
  }

  /** A check that has read all blocks at one time and each block's hashes at any later times accepts,
      whatever was submitted and sealed in between. */
  lemma InterleavedCheckAccepts(sha: HashFn, n: LedgerNode)
    requires Reachable(sha, n) && n.checker.Reading?
    requires forall h: uint64 :: h < |n.checker.snapshot| ==> h in n.checker.got
    ensures ValidChain(sha, n.checker.snapshot, n.checker.got)
  {
    ReachableInv(sha, n);
    var chain, lists := ChainOf(n.blocks), TxMap(n.blocks, n.txs);
    var m := |n.checker.snapshot|;
    assert n.checker.snapshot == chain[..m];
    ValidPrefix(sha, chain, lists, m);
    forall i | 0 <= i < m
      ensures multiset(TxsAt(lists, chain[..m][i].height)) == multiset(TxsAt(n.checker.got, chain[..m][i].height))
    {
      var h: uint64 := i;
      assert n.blocks[h].height == h && h in n.checker.got;
    }
    SameRoots(sha, chain[..m], lists, n.checker.got);
  }

  /** In every reachable state each committed transaction is pending or in exactly one existing block. */
  lemma ReachablePartition(sha: HashFn, n: LedgerNode, x: Bytes)
    requires Reachable(sha, n)
    ensures |n.blocks| <= TWO_64
    ensures CountAt(n.txs, None, x) + CountSealed(n.txs, |n.blocks|, x) == if HashIn(n.txs, x) then 1 else 0
  {
    ReachableInv(sha, n);
    SealingPartition(sha, n.blocks, n.txs, x);
  }

  /** In every reachable state the players table is the replay of the log, so the laws of Accounting
      hold for it. */
  lemma {:induction false} ReachableBooks(sha: HashFn, n: LedgerNode, p: Bytes, c: Channel)
    requires Reachable(sha, n)
    ensures Bounded(n.players)
    ensures Row(n.players, p).nonce == NamingCount(Requests(n.txs), p) % TWO_64
    ensures Lawful(Requests(n.txs))
    ensures Row(n.players, p).balance.At(c) + Lost(Requests(n.txs), p, c) + Sent(Requests(n.txs), p, c)
            == Received(Requests(n.txs), p, c) + Skipped(Requests(n.txs), p, c)
    ensures Supply(n.players, c) + LostInAll(Requests(n.txs), c)
            == Minted(Requests(n.txs), c) + SkippedInAll(Requests(n.txs), c)
  {
    ReachableInv(sha, n);
    HistoryBounded(Requests(n.txs));
    NonceCensus(Requests(n.txs), p);
    BooksBalance(Requests(n.txs), p, c);
    SupplyLaw(Requests(n.txs), c);
  }

  /** An uninterrupted round of the sealer object is the two events in sequence. */
  lemma {:induction false} SealIsTwoEvents(sha: HashFn, n: LedgerNode, b: Block, now: int64, difficulty: uint8)
    requires Contiguous(n.blocks) && |n.blocks| > 0 && n.sealer.Idle? && CanInsert(n.blocks, b)
    requires Sealer.FirstProof(sha, Draft(Latest(n.blocks), Root(sha, HashesAt(n.txs, None)), now, difficulty), b)
    ensures
      var read, commit := ReadPending(HashesAt(n.txs, None)), CommitBlock(b, now, difficulty);
      && Enabled(sha, n, read) && Enabled(sha, Apply(sha, n, read), commit)
      && Apply(sha, Apply(sha, n, read), commit)
         == n.(blocks := n.blocks[b.height := b], txs := SealRows(n.txs, b.height, HashesAt(n.txs, None)))
  {}

  // ---------------------------------------------------------------- the node can always go on

  /** Clients and the sealer can always take their next step: an admissible request under a fresh UUID is
      committed, an idle sealer reads what is pending, and a mined block for which there is room is stored. */
  lemma {:induction false} NodeGoesOn(sha: HashFn, n: LedgerNode, req: Request, txHash: Bytes, now: int64)
    requires Contiguous(n.blocks)
    ensures Admit(n.players, req).None? && !HashIn(n.txs, txHash) && |txHash| == 36 ==>
      && Enabled(sha, n, Submit(req, txHash, now))
      && Apply(sha, n, Submit(req, txHash, now))
         == n.(players := Settle(n.players, req), txs := n.txs + [TxRecord(txHash, req, now, None)])
    ensures n.sealer.Idle? ==>
      var hashes := if |n.blocks| == 0 then [] else HashesAt(n.txs, None);
      && Enabled(sha, n, ReadPending(hashes))
      && Apply(sha, n, ReadPending(hashes)) == n.(sealer := Mining(hashes, Latest(n.blocks)))
  {}

  /** The heights below k have been read. */
  ghost predicate ReadBelow(n: LedgerNode, k: nat) {
    n.checker.Reading? && forall h: uint64 :: h < k ==> h in n.checker.got
  }

  lemma {:induction false} OneMore(sha: HashFn, n: LedgerNode, events: seq<Event>, e: Event)
    requires RunFrom(sha, n, events).Some? && Contiguous(RunFrom(sha, n, events).value.blocks)
    requires Enabled(sha, RunFrom(sha, n, events).value, e)
    ensures RunFrom(sha, n, events + [e]) == Some(Apply(sha, RunFrom(sha, n, events).value, e))
  {
    assert (events + [e])[..|events|] == events;
  }

  /** The startup check can always be run to its end: the blocks, and then the hashes at every height. */
  lemma {:induction false} CheckRunsThrough(sha: HashFn, n: LedgerNode, k: nat) returns (events: seq<Event>)
    requires Contiguous(n.blocks) && k <= |n.blocks|
    ensures RunFrom(sha, n, events).Some?
    ensures
      var n' := RunFrom(sha, n, events).value;
      && ReadBelow(n', k) && n'.checker.snapshot == ChainOf(n.blocks)
      && n' == n.(checker := n'.checker)
  {
    if k == 0 {
      events := [ReadBlocks];
      assert events[..0] == [];
    } else {
      var front := CheckRunsThrough(sha, n, k - 1);
      var before := RunFrom(sha, n, front).value;
      var h: uint64 := k - 1;
      var e := ReadHashes(h, HashesAt(before.txs, Some(h)));
      OneMore(sha, n, front, e);
      events := front + [e];
    }
  }

  lemma {:induction false} RunConcat(sha: HashFn, n: LedgerNode, first: seq<Event>, more: seq<Event>)
    requires RunFrom(sha, n, first).Some? && RunFrom(sha, RunFrom(sha, n, first).value, more).Some?
    ensures RunFrom(sha, n, first + more) == RunFrom(sha, RunFrom(sha, n, first).value, more)
  {
    if more == [] {
      assert first + more == first;
    } else {
      assert (first + more)[..|first + more| - 1] == first + more[..|more| - 1];
      RunConcat(sha, n, first, more[..|more| - 1]);
    }
  }

  lemma {:induction false} RunsCompose(sha: HashFn, n: LedgerNode, more: seq<Event>)
    requires Reachable(sha, n) && RunFrom(sha, n, more).Some?
    ensures Reachable(sha, RunFrom(sha, n, more).value)
  {
    var first :| RunFrom(sha, START, first) == Some(n);
    RunConcat(sha, START, first, more);
  }

  /** Run on its own in a reachable state, the startup check ends and accepts. */
  lemma {:induction false} CheckEndsAccepting(sha: HashFn, n: LedgerNode) returns (events: seq<Event>)
    requires Reachable(sha, n) && Contiguous(n.blocks)
    ensures RunFrom(sha, n, events).Some?
    ensures
      var n' := RunFrom(sha, n, events).value;
      && n'.checker.Reading? && n'.checker.snapshot == ChainOf(n.blocks)
      && ValidChain(sha, n'.checker.snapshot, n'.checker.got)
  {
    events := CheckRunsThrough(sha, n, |n.blocks|);
    RunsCompose(sha, n, events);
    InterleavedCheckAccepts(sha, RunFrom(sha, n, events).value);
  }

  // ---------------------------------------------------------------- nothing sealed ever moves

  /** The later node kept every log entry, every assigned height and every block of the earlier one. */
  ghost predicate Preserves(n: LedgerNode, n': LedgerNode) {
    && |n.txs| <= |n'.txs|
    && (forall i :: 0 <= i < |n.txs| ==>
          n'.txs[i] == n.txs[i] || (n.txs[i].height == None && n'.txs[i].(height := None) == n.txs[i]))
    && (forall h :: h in n.blocks ==> h in n'.blocks && n'.blocks[h] == n.blocks[h])
  }

  lemma StepPreserves(sha: HashFn, n: LedgerNode, e: Event)
    requires NodeInv(sha, n) && Enabled(sha, n, e)
    ensures Preserves(n, Apply(sha, n, e))
  {}

  lemma PreservesTransitive(a: LedgerNode, b: LedgerNode, c: LedgerNode)
    requires Preserves(a, b) && Preserves(b, c)
    ensures Preserves(a, c)
  {}

  lemma {:induction false} RunPreserves(sha: HashFn, n: LedgerNode, events: seq<Event>)
    requires NodeInv(sha, n) && RunFrom(sha, n, events).Some?
    ensures Preserves(n, RunFrom(sha, n, events).value)
  {
    if events != [] {
      var front, e := events[..|events| - 1], events[|events| - 1];
      var middle := RunFrom(sha, n, front).value;
      RunPreserves(sha, n, front);
      RunKeepsInv(sha, n, front);
      StepPreserves(sha, middle, e);
      PreservesTransitive(n, middle, Apply(sha, middle, e));
    }
  }
}
