# RGB mini-game: verified model

A Dafny model of the single-node blockchain game in this repository: the chain with its Merkle trees, miner,
sealer and validator; the ledger's account machine; missions, minting and token swaps on top of it; and the
dependency-injection container that wires the binaries. Written for Dafny 4.11; to check the project:
`dafny verify dfyconfig.toml`.

## Layout

| file | contents |
|---|---|
| `Wrappers.dfy`, `Encoding.dfy`, `KeyStore.dfy` | options and results; bytes, machine integers, hex, hash collisions; keys with an expiry |
| `Merkle.dfy` | the level loop against a top-down tree; order independence; binding |
| `Chain.dfy` | block hashes, the validator, binding of whole chains |
| `Store.dfy` | blocks table and block heights as values; what keeps the stored chain valid; the sealing partition; what the stored chain commits to |
| `Sealer.dfy` | mining, the sealer on the tables, the service-level check |
| `Engine.dfy`, `Ledger.dfy` | balance arithmetic with Go's integer widths; `SubmitTransaction` on the tables |
| `Accounting.dfy` | laws of every committed history: nonces, single use, books, supply |
| `NodeRuns.dfy` | all interleavings of clients, sealer and startup check |
| `Missions.dfy`, `Minting.dfy` | timed mission keys and the income bound; minting under the mutex |
| `LedgerApi.dfy`, `Challenges.dfy`, `OneSidedRun.dfy` | signed submissions; the two-leg swap; a run in which it ends one-sided |
| `Resolution.dfy`, `Families.dfy`, `Container.dfy` | resolution as a function with its graph theorems; a root and its scopes over whole runs of resolutions and closings; the container objects |

## How the model is set up

- SHA-256 is a parameter: every theorem holds for every function from byte strings to 32 bytes. Nothing assumes
  injectivity. A binding theorem ends in "or two of the strings hashed here collide", where the set of strings is
  the finite one the computation itself hashes.
- Go strings are byte sequences. ed25519 verification and payload decoding are arbitrary functions. UUIDs, clock
  readings, the drawn mission template and the success of constructors are inputs.
- A database transaction is all-or-nothing and serialised per ledger transaction. There is one sealer.
- Calls on the same mission or challenge record do not overlap. The clock counts whole seconds and the base
  cooldown is positive.
- A method that changes state is proved equal to a function of the old state; the laws are then proved about that
  function and about all runs built from it.

## Where code and documentation differ

The model follows the code.

- README.md:7-8 calls the ledger tamper-resistant and README.md:97 says that tampering with any block breaks all
  descendants. Not everything stored is committed to:
  - A transaction's hash is a random UUID (internal/app/service/ledger.go:79), so the Merkle root binds which hashes
    a block lists and nothing else of the rows. Type, parties, amounts, nonce and time of a sealed row can be
    replaced unnoticed (`Store.RowContentsNotCommitted`). internal/domain/types/block.go:4 says that a block commits
    to its transactions.
  - `Store.UnnoticedRows` says exactly which changes of the rows go unnoticed. No transactions hash like one empty
    hash, so a row with the empty hash can be put into a block without rows, such as the genesis block
    (`NodeRuns.EmptyHashAccepted`).
  - The difficulty of a block is not hashed: `Chain.DifficultyNotCommitted` says exactly which changes to it go
    unnoticed.
  - The check compares with no tip hash, so deleting the newest blocks goes unnoticed (`NodeRuns.TruncationAccepted`).
    The theorems on replaced chains are about a known tip.
  - The validator does not look at heights, so the binding theorems do not assume anything about them beyond the
    ascending order in which the query delivers the blocks.
- cmd/player/main.go:630-647 and test/e2e/flow_test.go:131 sign the opponent's leg of a swap with the nonce the ledger
  reports, and test/e2e/flow_test.go:150-170 expects the swap to complete. Receiving the offer moves that nonce, so
  the second leg is refused: the opponent keeps the offer and returns nothing (`Challenges.OneSidedSwap`,
  `OneSidedRun.OneSided`).
- README.md:254 says a completed mission mints one token; the template pool pays one, three or five.
- README.md:269-270 ties MINT to one configured public key; the handler accepts every registered authority.
- The engine's comments describe a transfer between two players. When sender and receiver are one player, two
  copies of one row are saved and the second wins: a mint to oneself is lost and a transfer to oneself creates
  tokens. `Accounting.BooksBalance` and `Accounting.SupplyLaw` account for both exactly.
- pkg/di/container.go:68-76 presents a scope's cleanups as its own; a singleton first resolved in a scope is shared
  and still cleaned up there (`Families.ScopeOwnsCleanup`), so that closing a scope before the root can clean up a
  singleton before what is built out of it (`Families.ScopeBreaksOrder`). `Families.CloseAllOrder` says exactly when
  closing several containers keeps the order.
- The balance returned for a transaction of a player with itself can differ from the stored one
  (`Ledger.ReplyIsStored`, `Accounting.SelfTransferReply`).

## Model

| member | source | states |
|---|---|---|
| Encoding.PutUint64Injective | internal/domain/chain/validator.go:69-81 | the 8-byte big-endian form of an unsigned 64-bit value determines the value |
| Encoding.BigEndianRoundTrip | internal/domain/chain/validator.go:69-81 | decoding a big-endian encoding gives the value back, for every width |
| Encoding.PutUint64Bytes | internal/domain/chain/validator.go:69-81 | the eight bytes of a value, the most significant one first |
| Encoding.ToUint64Means | internal/domain/chain/validator.go:76-77 | a negative timestamp is hashed in two's complement, any other one as it is |
| Encoding.HexInjective | internal/domain/chain/validator.go:83 | the lower-case hex string determines the bytes |
| Encoding.HexDigits | internal/domain/chain/validator.go:83 | each byte becomes two characters of 0123456789abcdef, the high half first |
| Merkle.SortSorted | internal/domain/merkle/merkle.go:22-24 | the sorted copy is ascending in byte order (Sort itself promises the same multiset) |
| Merkle.SortedUnique | internal/domain/merkle/merkle.go:22-24 | an ascending arrangement of a multiset is unique, so the sort is determined by what it promises |
| Merkle.LexMeans | internal/domain/merkle/merkle.go:22-24 | the byte order of the sort: a prefix comes first, and otherwise the first byte that differs decides |
| Merkle.HashLeaves | internal/domain/merkle/merkle.go:26-31 | the leaf loop hashes every entry in order |
| Merkle.HashPairs | internal/domain/merkle/merkle.go:38-43 | the inner loop computes one reduction round of an even row |
| Merkle.NextIgnoresPadding | internal/domain/merkle/merkle.go:35-37 | appending the last digest to an odd row does not change its next row |
| Merkle.NextInBytes | internal/domain/merkle/merkle.go:35-43 | each digest of the next row is the hash of two neighbours, the left one first, or of a last odd digest twice |
| Merkle.TreeOfNext | internal/domain/merkle/merkle.go:33-45 | reducing a row by one round and building a tree one lower gives the same root: bottom-up equals top-down |
| Merkle.RoundKeepsRoot | internal/domain/merkle/merkle.go:33-45 | a round of the loop keeps the root of the recursively defined tree |
| Merkle.BuildMerkleRoot | internal/domain/merkle/merkle.go:16-48 | the level loop terminates and computes the root of the top-down tree over the sorted leaf digests, also for the empty list |
| Merkle.RootIgnoresOrder | internal/domain/merkle/merkle.go:22-24 | two permutations of the same hashes have the same root |
| Merkle.RootOfOneEntry | internal/domain/merkle/merkle.go:26-48 | the root of one entry is its hex digest |
| Merkle.RootOfTwo | internal/domain/merkle/merkle.go:38-43 | the root of two entries hashes the digest of the smaller one before that of the greater one |
| Merkle.RootOfThree | internal/domain/merkle/merkle.go:33-45 | the root of three entries pairs the last digest with itself |
| Merkle.RootOfTree | internal/domain/merkle/merkle.go:16-48 | the root is the hex digest on top of the padded tree over the sorted entries; no transactions hash like one empty entry |
| Merkle.SameHeightBinding | internal/domain/merkle/merkle.go:33-45 | two lists with trees of one height, whatever their entries, have equal roots if and only if their padded lists are equal, or a collision among the strings hashed for the two roots |
| Merkle.BuildInjective | internal/domain/merkle/merkle.go:35-37 | odd-node duplication loses nothing: rows without repetition are equal when their trees are |
| Merkle.DifferentHeights | internal/domain/merkle/merkle.go:26-45 | a tree matches a higher one only if each of its entries is 64 bytes long, like the two digests hashed for an inner node |
| Merkle.EmptyBinding | internal/domain/merkle/merkle.go:17-20 | the root of no transactions is that of one empty hash and of no other list, or a collision |
| Merkle.RootBinding | internal/domain/merkle/merkle.go:16-48 | for any two lists at all: equal roots if and only if their trees hash the same strings down to where one of them ends, or a collision among the strings hashed for the two roots |
| Merkle.AgreePadded | internal/domain/merkle/merkle.go:33-45 | unless one list consists of 64-byte entries, trees match if and only if the lists are equal after sorting and padding |
| Merkle.PaddedBinding | internal/domain/merkle/merkle.go:16-48 | the exact condition for repeated and empty entries: equal roots if and only if the padded lists are equal, or a collision |
| Merkle.DistinctBinding | internal/domain/merkle/merkle.go:16-48 | for lists that do not repeat hashes and do not consist of 64-byte ones: equal roots if and only if they hold the same hashes, a single empty hash counting like none, or a collision |
| Merkle.SameHashesMeans | internal/domain/merkle/merkle.go:17-20 | holding the same hashes means equal multisets, except for the pair of no transactions and one empty hash |
| Merkle.RepeatedLastEntry | internal/domain/merkle/merkle.go:35-37 | why repetition matters: for every hash function, repeating the greatest entry of an odd list changes the multiset and not the root |
| Merkle.LeafAsInnerNode | internal/domain/merkle/merkle.go:28-31 | why the leaf length matters: a 64-byte entry made of two leaf digests has the root of the two-entry list |
| Chain.ComputeBlockHash | internal/domain/chain/validator.go:66-84 | the hash over height, previous hash, Merkle root, timestamp and nonce, written piece by piece |
| Chain.HeaderInjective | internal/domain/chain/validator.go:66-84 | the hash input can be parsed back: equal inputs mean equal fields when both embedded hashes have 64 characters |
| Chain.HeaderParts | internal/domain/chain/validator.go:66-84 | what is hashed and where: height, previous hash, Merkle root, timestamp, nonce |
| Chain.TargetInBytes | internal/domain/chain/validator.go:48-58 | a difficulty of 2k asks for k leading zero bytes of the digest, and one more for a byte below 16 after them |
| Chain.MarkerMeans | internal/domain/chain/validator.go:31-35 | a block hash equals the genesis marker exactly if its digest is 32 zero bytes |
| Chain.CheckTarget | internal/domain/chain/validator.go:48-58 | the digit loop accepts exactly the hashes with the required leading zeros and tells a too large difficulty from a missed target |
| Chain.ValidateBlock | internal/domain/chain/validator.go:24-58 | one round of the validator: accepts exactly the valid blocks and names the first check that fails |
| Chain.ValidateChain | internal/domain/chain/validator.go:22-61 | returns success exactly on chains that satisfy the declarative predicate; otherwise names the first bad block and why |
| Chain.BlockBinding | internal/domain/chain/validator.go:25-29 | valid blocks with equal hashes have equal hashed fields, unless two hashed strings collide |
| Chain.TipBinding | internal/domain/chain/validator.go:22-61 | valid chains with equal tip hashes, whatever their lists, have equal last blocks and matching last trees, unless two hashed strings collide |
| Chain.ChainBinding | internal/domain/chain/validator.go:22-84 | two accepted chains with one tip hash, whatever their heights and lists, agree on length, on every hashed field of every block and on what the tree at every height commits to; or a collision among the hashed strings is exhibited, or the longer one has a block whose hash is the genesis marker where the shorter one ends |
| Chain.StoredChainBinding | internal/domain/chain/validator.go:22-84 | if one chain has heights 0 to n-1 and the other ascending ones, only the first can be the longer |
| Chain.NumberedChainBinding | internal/domain/chain/validator.go:22-84 | for two chains with heights 0 to n-1: the same contents, or a collision |
| Chain.ContentsAreHashes | internal/domain/chain/validator.go:41-46 | in chains with the same contents, lists that do not repeat hashes and do not consist of 64-byte ones hold the same hashes at every height |
| Chain.UnnoticedLists | internal/domain/chain/validator.go:41-46 | changed transaction lists, whatever they hold, are accepted if and only if the tree at each block's height matches the old one, or a collision among the hashed strings is exhibited |
| Chain.UnnoticedRegularLists | internal/domain/chain/validator.go:41-46 | lists that do not repeat hashes and do not consist of 64-byte ones are accepted if and only if they hold the old hashes at each block's height, or a collision |
| Chain.DifficultyNotCommitted | internal/domain/chain/validator.go:48-81 | the one field of a block that is not hashed: a changed difficulty is accepted if and only if the old hash meets it |
| Sealer.ZeroPrefix | internal/app/service/block_sealer.go:160-164 | the target string is the required number of zero digits |
| Sealer.PrefixMeetsTarget | internal/app/service/block_sealer.go:166-170 | the prefix comparison of the miner coincides with the digit loop of the validator, for every difficulty |
| Sealer.TryNonce | internal/app/service/block_sealer.go:166-170 | sets the hash of the current nonce and reports whether it meets the target |
| Sealer.MineBlock | internal/app/service/block_sealer.go:159-173 | stops at the first nonce at or after the start, counting modulo 2^64, that meets the target, and stops whenever there is one |
| Sealer.NonceWraps | internal/app/service/block_sealer.go:159-173 | k increments of the nonce add k modulo 2^64 |
| Sealer.MinerSatisfiesValidator | internal/app/service/block_sealer.go:136-173 | what the miner returns has the hash and the leading zeros the validator checks |
| Sealer.FindsLeast | internal/app/service/block_sealer.go:159-173 | started at nonce 0 the miner finds the smallest nonce that meets the target |
| Sealer.BlockSealer.LatestBlock | internal/adapter/driven/postgres/repositories/block_repository.go:58-69 | the stored block with the greatest height, or none, on any table |
| Sealer.BlockSealer.CreateBlock | internal/adapter/driven/postgres/repositories/block_repository.go:72-75 | inserts unless the height or the hash is taken |
| Sealer.BlockSealer.HashesByHeight | internal/adapter/driven/postgres/repositories/block_repository.go:87-137 | exactly the hashes of the rows with the given height; no height means pending |
| Sealer.BlockSealer.SealTransactions | internal/adapter/driven/postgres/repositories/block_repository.go:78-83 | sets the height on exactly the listed rows |
| Sealer.BlockSealer.MineNext | internal/app/service/block_sealer.go:110-117 | the next block links to the latest one, commits to the given hashes and is mined |
| Sealer.BlockSealer.Commit | internal/app/service/block_sealer.go:119-127 | block and marks are stored together or not at all, and the store invariant is kept |
| Sealer.BlockSealer.EnsureGenesis | internal/app/service/block_sealer.go:60-85 | an empty chain gets exactly one mined block 0 with the given time, the sealer's difficulty and the smallest nonce; any other chain is left alone |
| Sealer.BlockSealer.Seal | internal/app/service/block_sealer.go:89-132 | a round ends with a new block if and only if there is a genesis block, a height left, and no stored block with the mined hash; the block follows the latest one, with the given time, the sealer's difficulty and the smallest nonce; nothing is pending any more and its height lists what was; otherwise nothing changes |
| Sealer.BlockSealer.AllBlocks | internal/adapter/driven/postgres/repositories/block_repository.go:111-122 | all blocks of any table by ascending height |
| Sealer.BlockSealer.ValidateStoredChain | internal/app/service/ledger.go:217-236 | on any tables, tampered ones included, accepts if and only if the blocks by ascending height with the hashes stored under their heights are a valid chain; accepts every state the sealer and the ledger leave behind |
| Store.SealRowsElsewhere | internal/adapter/driven/postgres/repositories/block_repository.go:78-83 | sealing pending rows leaves the lists of other blocks unchanged |
| Store.SealRowsHere | internal/adapter/driven/postgres/repositories/block_repository.go:78-83 | the new block then lists exactly the sealed hashes |
| Store.SubmitKeepsInv | internal/app/service/ledger.go:190-200 | appending a pending transaction with a new hash keeps the stored chain valid |
| Store.SameRoots | internal/domain/chain/validator.go:41-46 | validity depends on the transaction lists only up to order |
| Store.CommitKeepsInv | internal/app/service/block_sealer.go:111-127 | committing a mined block with its marks keeps heights contiguous and the chain valid, for any list of rows still pending |
| Store.SealingPartition | internal/adapter/driven/postgres/repositories/block_repository.go:78-137 | every committed transaction is pending or in exactly one existing block, once |
| Store.RowListed | internal/adapter/driven/postgres/repositories/block_repository.go:111-122 | the blocks by height are exactly the rows of the table |
| Store.RowsAscend | internal/adapter/driven/postgres/repositories/block_repository.go:111-122 | their heights strictly ascend, and there are as many as rows |
| Store.RowsInOrder | internal/adapter/driven/postgres/repositories/block_repository.go:111-122 | on contiguous heights block i of the list has height i |
| Store.UnnoticedRows | internal/app/service/ledger.go:217-236 | a change of the transaction rows under an accepted chain, whatever the rows, goes unnoticed if and only if the tree over the hashes at each block's height matches the old one, or a collision among the hashed strings is exhibited |
| Store.UnnoticedRegularRows | internal/app/service/ledger.go:217-236 | when no block repeats a hash or consists of 64-byte ones, it goes unnoticed if and only if the hashes at each block's height are kept, a single empty one counting like none |
| Store.EmptyHashUnnoticed | internal/domain/merkle/merkle.go:17-31 | the exception: a row with the empty hash in a block without rows goes unnoticed |
| Store.TruncationUnnoticed | internal/app/service/ledger.go:217-236 | deleting the newest blocks goes unnoticed as long as the rows of the remaining ones stay |
| Store.RowContentsNotCommitted | internal/app/service/ledger.go:79 | whatever the type, parties, amounts, nonces and times of the rows are replaced by, the stored chain stays valid |
| NodeRuns.CommitStep | internal/app/service/block_sealer.go:89-132 | a commit keeps the invariant although transactions were submitted since the pending rows were read |
| NodeRuns.StepKeepsInv | internal/app/service/block_sealer.go:37-132 | every step of the sealer, the check and the clients keeps the invariant of the whole node |
| NodeRuns.RunKeepsInv | internal/app/service/block_sealer.go:37-132 | so does every interleaving of any length |
| NodeRuns.ReachableChainAccepted | internal/app/service/block_sealer.go:89-132 | in every reachable state the stored chain is one the validator accepts, with heights 0 to n-1 |
| NodeRuns.TamperEvident | internal/domain/chain/validator.go:22-61 | any accepted replacement for a reachable chain, by ascending height and under the same tip hash, has the same hashed fields and matching trees, and with lists that do not repeat hashes or consist of 64-byte ones the same hashes; or a collision is at hand, or a stored block whose hash is the genesis marker |
| NodeRuns.TamperedTables | internal/app/service/ledger.go:217-236 | the same for any tables that the startup check accepts in place of the reachable ones |
| NodeRuns.EmptyHashAccepted | internal/domain/merkle/merkle.go:17-31 | in every reachable state with a genesis block, a row with the empty hash can be added to that block and the startup check still accepts |
| NodeRuns.TruncationAccepted | internal/app/service/ledger.go:217-236 | in every reachable state deleting the newest blocks goes unnoticed by the startup check, which knows no tip hash |
| NodeRuns.InterleavedCheckAccepts | cmd/ledger/wire.go:103-110 | the startup check accepts even when it reads each block's hashes later than the blocks while the sealer keeps running |
| NodeRuns.NodeGoesOn | internal/app/service/ledger.go:82-201 | in any state an admissible request under a fresh UUID can be committed, and an idle sealer can read what is pending |
| NodeRuns.CheckEndsAccepting | cmd/ledger/wire.go:103-110 | in every reachable state the startup check can be run to its end, and accepts |
| NodeRuns.ReachablePartition | internal/adapter/driven/postgres/repositories/block_repository.go:78-137 | the sealing partition holds in every reachable state |
| NodeRuns.ReachableBooks | internal/app/service/ledger.go:82-201 | in every reachable state balances are bounded and the nonce census, the exact account and the supply law hold |
| NodeRuns.SealIsTwoEvents | internal/app/service/block_sealer.go:89-132 | an uninterrupted seal is the read event followed by the commit event |
| NodeRuns.RunPreserves | internal/adapter/driven/postgres/repositories/block_repository.go:72-83 | along every run no log entry, assigned height or block ever changes |
| Engine.Calculation | internal/domain/engine/engine.go:16-25 | adds a signed delta and clamps to 0..255; the 16-bit sum loses nothing |
| Engine.ClampUint8 | internal/domain/engine/engine.go:28-36 | clamps to 0..255 |
| Engine.PlayerTransactions | internal/domain/engine/engine.go:49-61 | the receiver gains the moved amounts up to 255, both nonces advance modulo 2^64, and 32-bit sums lose nothing |
| Engine.PlayerCompleteMission | internal/domain/engine/engine.go:65-75 | the reward is added up to 255 and the nonce advances modulo 2^64 |
| Ledger.LedgerService.FindOrCreate | internal/adapter/driven/postgres/repositories/player_repository.go:58-76 | returns a copy of the row and leaves it stored, as a zero row if it was new |
| Ledger.LedgerService.UpdateBalance | internal/adapter/driven/postgres/repositories/player_repository.go:79-82 | overwrites exactly the row with the record's ID |
| Ledger.LedgerService.CreateTx | internal/adapter/driven/postgres/repositories/transaction_repository.go:66-69 | appends the record unless its hash is taken |
| Ledger.StoredRows | internal/adapter/driven/postgres/repositories/player_repository.go:58-76 | storing zero rows first changes neither the decision on a request nor its result |
| Ledger.AdmitMeans | internal/app/service/ledger.go:60-163 | exactly which requests are admitted |
| Ledger.RefusalMeans | internal/app/service/ledger.go:60-163 | which reason is given, in which order |
| Ledger.TransferMeans | internal/app/service/ledger.go:136-188 | a transfer between two players takes the amounts in full, adds them up to 255 a channel, and touches nobody else |
| Ledger.LedgerService.ApplyMint | internal/app/service/ledger.go:97-135 | the mint branch with its narrowing casts and two saves has the effect of Settle on unbounded integers and returns the receiver's copy |
| Ledger.LedgerService.ApplyTransfer | internal/app/service/ledger.go:136-188 | the transfer branch likewise, returning the sender's copy |
| Ledger.LedgerService.TransactionBody | internal/app/service/ledger.go:82-201 | fails exactly on a request that Admit refuses or on a used hash, and otherwise has the effect of Settle and returns the copy that Reply names |
| Ledger.LedgerService.SubmitTransaction | internal/app/service/ledger.go:56-214 | commits exactly the admissible requests under an unused hash, with the exact new tables and reply; a rejected request changes nothing and carries the first reason |
| Ledger.ReplyIsStored | internal/app/service/ledger.go:122-188 | the returned balance is the stored one, except for a self-transaction that transfers a positive amount or mints a positive amount to a channel that is not full |
| Ledger.SettleBounded | internal/app/service/ledger.go:97-188 | balances stay within 0..255, self-transactions included |
| Accounting.HistoryBounded | internal/app/service/ledger.go:97-188 | after every history all balances are within 0..255, so every cast in the transaction path is lossless |
| Accounting.LawfulPrefix | internal/app/service/ledger.go:93-95 | every committed request was admissible when its turn came |
| Accounting.NonceCensus | internal/app/service/ledger.go:116-179 | a nonce equals the number of committed transactions naming the player, modulo 2^64, a self-transaction counting once |
| Accounting.CommittedNonce | internal/app/service/ledger.go:93-95 | a committed request carries its sender's census at that point |
| Accounting.SenderNoncesIncrease | internal/app/service/ledger.go:93-95 | while a player is named at most 2^64 times, its committed nonces strictly increase |
| Accounting.SingleUse | internal/app/service/ledger.go:93-95 | a signed payload commits at most once in any history |
| Accounting.BooksBalance | internal/app/service/ledger.go:97-188 | for every history, player and channel: balance + lost credits + payments = receipts + debits skipped by self-transfers |
| Accounting.DoubleEntry | internal/app/service/ledger.go:97-188 | the balance is at most receipts minus payments if and only if no more was skipped than cut; for a player that transfers nothing to itself always, with equality if and only if no credit to the player was cut |
| Accounting.StepSupply | internal/app/service/ledger.go:97-188 | one request changes the supply by what it mints, less what is cut, plus a skipped debit |
| Accounting.TransferCreatesTokens | internal/app/service/ledger.go:141-184 | an admitted transfer creates tokens if and only if a player pays itself a positive amount on a channel that is not full |
| Accounting.SupplyLaw | internal/app/service/ledger.go:97-201 | supply + lost tokens = minted tokens + skipped debits, after every history |
| Accounting.SupplyNeverExceedsMinted | internal/app/service/ledger.go:97-201 | the supply stays within what was minted if and only if no more was skipped than cut; without self-transfers always |
| Accounting.SelfTransferInflates | internal/app/service/ledger.go:174-184 | a two-transaction history after which two tokens exist and one was minted |
| Accounting.SelfTransferReply | internal/app/service/ledger.go:174-188 | in that history the reply reports nothing left while two tokens are stored |
| Missions.PoolIsFair | internal/domain/mission/templates.go:16-60 | every template pays at most three tokens for two units of cooldown |
| Missions.PoolWaits | internal/domain/mission/templates.go:16-60 | a mission that pays one token waits one base cooldown, three tokens two, five tokens four |
| Missions.CompletionReplies | internal/app/service/mission.go:87-115 | what each reply to a completion means |
| Missions.ReadinessReplies | internal/app/service/mission.go:100-114 | an own uncompleted mission is refused with the time left until its wait is over, and completed from then on |
| Missions.MissionRepository.Create | internal/adapter/driven/redis/mission_repository.go:39-54 | mission and active pointer are set together with the same expiry |
| Missions.MissionRepository.FindActiveByPlayer | internal/adapter/driven/redis/mission_repository.go:75-84 | follows the active pointer to the visible mission |
| Missions.MissionRepository.GetCooldownRemaining | internal/adapter/driven/redis/mission_repository.go:88-97 | the remaining cooldown, 0 when there is none |
| Missions.MissionRepository.CompleteMission | internal/adapter/driven/redis/mission_repository.go:100-121 | marks the mission, drops the pointer and sets the cooldown together; an invisible mission changes nothing |
| Missions.MissionService.RequestMission | internal/app/service/mission.go:34-77 | refuses on an active mission, then on a running cooldown, and otherwise issues a record with the template's reward and difficulty; with the exact new store and expiry |
| Missions.MissionService.ValidateAndComplete | internal/app/service/mission.go:87-115 | every refusal and the completion, with the exact new store |
| Missions.CallKeepsInv | internal/app/service/mission.go:34-115 | every request or completion keeps the pointer, issue-time, income and award invariants |
| Missions.IncomeBound | internal/app/service/mission.go:34-115 | over every run, 4 x cooldown x tokens earned <= 3 x (elapsed time + 4 x cooldown) for every player |
| Missions.OneOpenMission | internal/adapter/driven/redis/mission_repository.go:39-121 | at every instant a mission is open exactly when its player's active pointer names it, so a player has at most one |
| Missions.RewardedOnce | internal/app/service/mission.go:98-114 | no mission is rewarded twice |
| Missions.CompletionWindow | internal/app/service/mission.go:57-115 | in every run, after a mission was issued and any calls since, its player can complete it if and only if it has not been awarded yet and the time lies from readiness to expiry; that window is never empty |
| Missions.RequestGranted | internal/app/service/mission.go:34-77 | in every run a request is granted if and only if the player has no open mission and its last cooldown is over; otherwise the open mission or the rest of the cooldown is reported |
| Missions.CooldownAfterCompletion | internal/app/service/mission.go:100-114 | in every run, after a completion and until the player's next one, the cooldown ends once the mission's wait has passed again |
| Missions.CompletingAgain | internal/adapter/driven/redis/mission_repository.go:100-121 | a completed mission is reported as completed for five minutes and as unknown afterwards, whatever is called in between |
| Missions.AwardMeans | internal/app/service/mission.go:98-114 | a completion is awarded to the mission's owner with all tokens of its reward, and nothing else is awarded |
| Missions.RunsGoOn | internal/app/service/mission.go:34-115 | a run can always go on with any completion, and with any request under a fresh ID |
| Minting.MintService.GetAuthorityNonce | internal/app/service/ledger.go:48-51 | the stored nonce of the authority, 0 if it has no row |
| Minting.MintService.CompleteMission | internal/app/service/game.go:86-124 | a completed mission is paid by one committed mint from the authority to the player with exactly the stored reward; each channel of the player becomes the sum cut at 255, no other balance changes, and that row is returned; a mint of the authority to itself is lost; a mission that cannot be completed leaves the ledger alone; the exact failures of the mint |
| Minting.RewardsFitMint | internal/domain/mission/templates.go:16-60 | in every run of the missions the stored rewards fit the 127 limit of a mint |
| Minting.MoveKeepsInv | internal/app/service/game.go:94-115 | only the mutex holder is between lock and mint, and the nonce in its hand is current |
| Minting.WholeCall | internal/app/service/game.go:94-115 | a call that comes while the mutex is free can run through and pays the player the reward, up to 255 a channel |
| Minting.HolderFinishes | internal/app/service/game.go:94-115 | whoever holds the mutex can go on, is paid, and frees it |
| Minting.NoMintRejected | internal/app/service/game.go:94-115 | over every interleaving of any number of calls no mint is rejected for its nonce, if no other transaction names the authority between read and mint |
| Minting.MintAfterInterference | internal/app/service/ledger.go:93-95 | with other commits in between, the mint is admitted if and only if they name the authority a multiple of 2^64 times |
| LedgerApi.LedgerServer.SubmitTransaction | internal/adapter/driving/grpc/ledger/handler.go:59-133 | a signed payload commits exactly when it decodes, verifies, matches its key, is authorised if it mints, and is admissible |
| LedgerApi.GateMeans | internal/adapter/driving/grpc/ledger/handler.go:59-110 | the gate lets through exactly the requests whose payload, signature, key and, for a mint, registration authorise them |
| LedgerApi.CommitsMeans | internal/adapter/driving/grpc/ledger/handler.go:59-133 | a submission commits exactly if it is authorised, admissible, and its hash is unused |
| LedgerApi.OnlyAuthorised | internal/adapter/driving/grpc/ledger/handler.go:74-95 | whatever is submitted to an empty ledger, every row of the log is authorised by one of the submissions: decoded from it, with a good signature of the sender's key, registered for a mint |
| LedgerApi.OnlyAuthoritiesMint | internal/adapter/driving/grpc/ledger/handler.go:87-95 | without a registered key among the submissions nothing is minted |
| LedgerApi.RowsFromSubmissions | internal/app/service/ledger.go:190-200 | every added row carries the UUID and the time of its submission and is not sealed |
| LedgerApi.StepsAppend | internal/adapter/driving/grpc/ledger/handler.go:59-133 | submissions only ever append to the log |
| LedgerApi.StepsBooked | internal/app/service/ledger.go:82-201 | whatever is submitted, the players table stays the replay of the log |
| Challenges.VerifyTransferPayload | internal/app/service/game.go:261-291 | a leg passes if and only if it is a verified transfer with exactly the agreed sender, receiver and amounts |
| Challenges.FaultMeans | internal/app/service/game.go:261-291 | which fault of a leg is reported, in which order |
| Challenges.ChallengeRepository.UpdateStatus | internal/adapter/driven/redis/challenge_repository.go:53-74 | changes only the status of a visible record; keeps its expiry, or gives it five minutes if it expired before the remaining lifetime was read |
| Challenges.SwapService.ProposeChallenge | internal/app/service/game.go:128-172 | stores a challenge exactly when the terms are non-trivial and the proposer's leg matches them, with the exact record; the reasons of a refusal |
| Challenges.SwapService.RespondChallenge | internal/app/service/game.go:175-246 | performs Respond for every schedule of other clients between the legs, and keeps all stored challenges well formed |
| Challenges.RefusalMeans | internal/app/service/game.go:178-198 | which answers are refused or count as a decline, in which order, and that a refused answer changes nothing |
| Challenges.InvalidLegMeans | internal/app/service/game.go:200-204 | an accept is refused for its leg exactly with the fault of that leg |
| Challenges.DeclineMeans | internal/app/service/game.go:192-198 | a decline by the opponent of a visible pending challenge marks it declined, keeps its terms and its expiry or five minutes, and changes nothing else |
| Challenges.AcceptRecords | internal/app/service/game.go:219-245 | an accept that commits a leg relabels only its own record, and only while that is visible |
| Challenges.SwapOutcomes | internal/app/service/game.go:200-245 | a verified accept ends in one of three ways: nothing moved and pending; the proposer's leg alone and declined; both legs in order with the agreed amounts and completed; each with the exact tables |
| Challenges.UninterruptedSwap | internal/app/service/game.go:206-237 | without interruption each of the three endings is characterised exactly: the first leg must fit, be current and be covered; the second must fit, be covered after the offer and carry a nonce one ahead |
| Challenges.OneSidedSwap | cmd/player/main.go:630-647 | an opponent that signs with the nonce the ledger reports, as the shipped client does, takes the offer and returns nothing, with the exact tables |
| OneSidedRun.OneSided | cmd/player/main.go:630-647 | a run from the empty state in which both players can pay and sign with their current nonces, and the swap ends one-sided |
| Challenges.RepeatedAccept | internal/app/service/game.go:206-217 | in every run of proposals, answers and other submissions, once a challenge's stored leg is in the log a further accept moves nothing |
| Challenges.LegPaysOnce | internal/app/service/game.go:206-217 | in every such run a challenge's stored leg is in the log at most once |
| Challenges.StatusIsFinal | internal/app/service/game.go:175-246 | over every run of proposals, answers and other submissions a challenge keeps its terms and leg, and leaves Pending at most once, for Declined or Completed |
| Challenges.ClosedForGood | internal/app/service/game.go:187-189 | over every run a challenge that has left Pending moves nothing any more |
| Challenges.DeclineIsFinal | internal/app/service/game.go:187-198 | over every run after a decline no answer to that challenge changes the ledger or a record |
| Challenges.OnlyAuthorisedInRuns | internal/adapter/driving/grpc/ledger/handler.go:74-95 | in every run of proposals, answers and other submissions every row of the log is authorised by a signed payload that was presented, and without a registered key among these nothing is minted |
| Challenges.OnlyVerifiedAcceptPays | internal/app/service/game.go:175-204 | the ledger changes only when the opponent of a pending challenge accepts with a leg that matches the terms |
| Resolution.RoomShrinks | pkg/di/container.go:235-246 | the termination measure: a key put on the path leaves fewer registered keys off it |
| Resolution.ArgKeys | pkg/di/container.go:235-246 | arguments are looked up by type in the constructor's order, under the default name |
| Resolution.LeftToRight | pkg/di/container.go:235-246 | arguments are resolved from left to right up to the first failure |
| Resolution.BuiltWhenNotCached | pkg/di/container.go:248-268 | a key that is not cached is built by a successful resolution, as the last one, by a constructor call of its own |
| Resolution.BuildFailureMeans | pkg/di/container.go:248-253 | a constructor failure is reported only if the last constructor call made failed |
| Resolution.ResolveGrows | pkg/di/container.go:205-269 | a resolution never removes history or replaces a cached instance, and caches nothing that is on the path |
| Resolution.ResolveKeepsInv | pkg/di/container.go:205-269 | whether it succeeds or fails, caches hold only keys that were built after everything they depend on, singletons once, and cleanups are noted in that order |
| Resolution.ResolveWired | pkg/di/container.go:235-268 | a resolved instance is of the requested key and built from instances of exactly the keys its constructor takes, all the way down, every singleton in it being the shared one |
| Resolution.ResolveProgress | pkg/di/container.go:248-268 | a resolution, failed or not, notes exactly the cleanups of what it builds in building order, and builds a scoped key only when it newly caches it |
| Resolution.SoundFromDeps | pkg/di/container.go:205-246 | a registered key with sound dependencies is sound: nothing below it leads back to it |
| Resolution.ResolvesIffSound | pkg/di/container.go:205-269 | with constructors that succeed, a key resolves if and only if everything reachable is registered and acyclic |
| Families.ResolvesAfterAnyHistory | pkg/di/container.go:205-269 | the same after any run of resolutions and closings in any container of the family, failed ones included |
| Families.ResolvesWired | pkg/di/container.go:235-268 | after any run, whatever is resolved is wired as the provider graph says |
| Resolution.CycleErrorIsGenuine | pkg/di/container.go:207-219 | a cycle error carries a walk of the graph that revisits a key; the other errors name a key reachable from the request |
| Families.SingletonBuiltOnce | pkg/di/container.go:221-268 | in every run each singleton is successfully constructed at most once across a root and its scopes |
| Families.ScopedBuiltOnce | pkg/di/container.go:225-268 | in every run a container builds a scoped key once if it holds an instance of it, and never otherwise |
| Families.SameInstance | pkg/di/container.go:221-233 | two successful resolutions of a singleton anywhere in the family, or of a scoped key in one container, give the same instance |
| Families.TransientIsNew | pkg/di/container.go:231-233 | two successful resolutions of a transient key never give the same instance |
| Families.CleanupsExact | pkg/di/container.go:263-311 | in every run each container has drained at closings, or still notes, exactly the cleanups of what it built, in building order |
| Families.NoCleanupForgotten | pkg/di/container.go:263-311 | everything that was built and has a cleanup is noted in some container or was run by a closing of it |
| Families.CloseOrder | pkg/di/container.go:263-311 | in every run, whatever container of the family closes next, cleanup of anything runs before cleanup of the singletons it depends on |
| Families.CloseAllOrder | pkg/di/container.go:302-311 | closing several containers in any order keeps dependents first if and only if no singleton noted in one of them is needed by what a container closed later has noted |
| Families.ScopeBreaksOrder | pkg/di/container.go:294-311 | the witness: a singleton resolved in a scope is cleaned up before the root's singleton that is built out of it |
| Families.ScopeOwnsCleanup | pkg/di/container.go:263-300 | a singleton first resolved in a scope is shared with the others, noted only in that scope, and cleaned up by it |
| Containers.Container.LookupSingletonInstance | pkg/di/container.go:283-291 | the walk to the root finds exactly the root's singletons |
| Containers.Container.StoreSingleton | pkg/di/container.go:294-300 | stores at the root and nowhere else |
| Containers.Container.LookupInstance | pkg/di/container.go:221-233 | singletons are looked up through the root, scoped instances in the container itself, transient ones never |
| Containers.Container.Resolve | pkg/di/container.go:205-269 | the object method computes the function whose graph theorems are proved; a scope leaves the root's own scoped instances alone |
| Containers.Container.ResolveArgs | pkg/di/container.go:235-246 | the argument loop: arguments are resolved in order up to the first failure, and returned; a scope leaves the root's own scoped instances alone |
| Containers.Container.Build | pkg/di/container.go:248-268 | constructor call, cache and cleanup list; a scope leaves the root's own scoped instances alone |
| Containers.Container.Close | pkg/di/container.go:306-311 | runs the noted cleanups in reverse and empties the list |

## Left out

- Sealer.MineBlock: claims termination only where some nonce meets the target; without one the search runs forever, so Seal, EnsureGenesis and MineNext ask for one too.
- Minting.MintService.CompleteMission: hands the mint to the ledger as a verified request; marshalling, signing and the authority lookup of the mint are not modelled.
- Challenges.SwapService.RespondChallenge: ledger and store calls do not fail in transport, so the branches for a lost reply are not modelled.
- Ledger.LedgerService.SubmitTransaction: storage errors other than a repeated hash are not modelled, nor are text length limits of the columns.
- Sealer.BlockSealer.CreateBlock: the height column is a signed 64-bit integer in Postgres; the model uses the unsigned range of the Go field.
- The library sort behind sort.Strings is the function Sort; its in-place algorithm is not modelled.
- Full atomicity of a swap: the code does not provide it; the three outcomes are proved instead.
- Overlapping calls on one mission or challenge record: finding and updating are separate store calls in the code.
- Durations in nanoseconds: overflow of the cooldown multiplication and sub-second remainders are not modelled.
- Redis and Postgres clients, row locks, JSON and protobuf encodings, logging, configuration, servers and the command line.
- Pagination, leaderboard, history and chain statistics: thin reads with only easy properties.
- Authority registration and key files: plumbing around the signature check.
- Instances are identified by key, constructor call and arguments; what constructors and cleanups do is not modelled.
- Registering providers after the first resolution, reflection, and the dependency-graph printer of the container.
