/** A run of the swap that ends one-sided although both players do what the shipped client does: each
    signs its leg with the nonce that the ledger reports (cmd/player/main.go). */
module OneSidedRun {
  import opened Wrappers
  import opened Encoding
  import opened Ledger
  import opened KeyStore
  import opened LedgerApi
  import opened Challenges

  const AUTHORITY: Bytes := [0]
  const ALICE: Bytes := [1]
  const BOB: Bytes := [2]
  const OFFER := Rgb(1, 0, 0)
  const WANT := Rgb(0, 1, 0)
  const SWAP: Bytes := [9]
  const TTL: int := 600

  function Id(sha: HashFn, key: Bytes): Bytes {
    Hex(sha(key))
  }

  /** The three players are told apart. */
  ghost predicate DistinctIds(sha: HashFn) {
    Id(sha, AUTHORITY) != Id(sha, ALICE) && Id(sha, AUTHORITY) != Id(sha, BOB) && Id(sha, ALICE) != Id(sha, BOB)
  }

  function MintTo(sha: HashFn, key: Bytes, amount: Rgb, nonce: uint64): Request {
    Request(Mint, Id(sha, AUTHORITY), Id(sha, key), amount, nonce)
  }

  function Pay(sha: HashFn, from: Bytes, to: Bytes, amount: Rgb): Request {
    Request(Transfer, Id(sha, from), Id(sha, to), amount, 1)
  }

  /** Payloads 0 and 1 mint what will be swapped, 2 and 3 are the two legs. */
  function Decode(sha: HashFn, payload: Bytes): Option<Request> {
    if payload == [0] then Some(MintTo(sha, ALICE, OFFER, 0))
    else if payload == [1] then Some(MintTo(sha, BOB, WANT, 1))
    else if payload == [2] then Some(Pay(sha, ALICE, BOB, OFFER))
    else if payload == [3] then Some(Pay(sha, BOB, ALICE, WANT))
    else None
  }

  /** Every signature is good. */
  function Signatures(sha: HashFn): Crypto {
    Crypto(sha, (key: Bytes, message: Bytes, signature: Bytes) => true, payload => Decode(sha, payload))
  }

  function MintToAlice(): Submission {
    Submission(Signed([0], [], AUTHORITY), [1], 0)
  }

  function MintToBob(): Submission {
    Submission(Signed([1], [], AUTHORITY), [2], 0)
  }

  function AliceOffers(sha: HashFn): Proposal {
    Proposal(Id(sha, ALICE), Id(sha, BOB), OFFER, WANT, Signed([2], [], ALICE))
  }

  function Accept(sha: HashFn): Response {
    Response(SWAP, Id(sha, BOB), true, Signed([3], [], BOB))
  }

  function Timing(): Schedule {
    Schedule(0, 0, [3], 0, [], [4], 0, 0, 0)
  }

  function Preparation(sha: HashFn): seq<Move> {
    [Outside(MintToAlice()), Outside(MintToBob()), Propose(AliceOffers(sha), SWAP, 0)]
  }

  function Account(sha: HashFn, key: Bytes, balance: Rgb, nonce: uint64): PlayerRecord {
    PlayerRecord(Id(sha, key), balance, nonce)
  }

  function FirstMinted(sha: HashFn): Db {
    Db(map[Id(sha, AUTHORITY) := Account(sha, AUTHORITY, NO_TOKENS, 1),
           Id(sha, ALICE) := Account(sha, ALICE, OFFER, 1)],
       [TxRecord([1], MintTo(sha, ALICE, OFFER, 0), 0, None)])
  }

  function Minted(sha: HashFn): Db {
    Db(FirstMinted(sha).players[Id(sha, AUTHORITY) := Account(sha, AUTHORITY, NO_TOKENS, 2)]
                               [Id(sha, BOB) := Account(sha, BOB, WANT, 1)],
       FirstMinted(sha).txs + [TxRecord([2], MintTo(sha, BOB, WANT, 1), 0, None)])
  }

  function Stored(sha: HashFn): Challenge {
    Challenge(SWAP, Id(sha, ALICE), Id(sha, BOB), OFFER, WANT, Pending, 0, TTL, Signed([2], [], ALICE))
  }

  function Before(sha: HashFn): World {
    World(Minted(sha), map[SWAP := Timed(Stored(sha), TTL)])
  }

  lemma AliceIsPaid(sha: HashFn)
    requires DistinctIds(sha)
    ensures Step(Signatures(sha), {AUTHORITY}, Db(map[], []), MintToAlice()) == FirstMinted(sha)
  {
    var crypto, sub := Signatures(sha), MintToAlice();
    assert Gate(crypto, {AUTHORITY}, sub.signed) == Some(MintTo(sha, ALICE, OFFER, 0));
    assert |Id(sha, AUTHORITY)| == 64 && |Id(sha, ALICE)| == 64;
  }

  lemma BobIsPaid(sha: HashFn)
    requires DistinctIds(sha)
    ensures Step(Signatures(sha), {AUTHORITY}, FirstMinted(sha), MintToBob()) == Minted(sha)
  {
    var crypto, sub := Signatures(sha), MintToBob();
    assert Gate(crypto, {AUTHORITY}, sub.signed) == Some(MintTo(sha, BOB, WANT, 1));
    assert |Id(sha, AUTHORITY)| == 64 && |Id(sha, BOB)| == 64;
    assert forall tx :: tx in FirstMinted(sha).txs ==> tx.hash != sub.txHash;
  }

  lemma LegsPass(sha: HashFn)
    requires DistinctIds(sha)
    ensures VerifyTransferPayload(Signatures(sha), Stored(sha).leg, Id(sha, ALICE), Id(sha, BOB), OFFER).None?
    ensures VerifyTransferPayload(Signatures(sha), Accept(sha).leg, Id(sha, BOB), Id(sha, ALICE), WANT).None?
  {}

  lemma {:induction false} BothPaid(sha: HashFn, moves: seq<Move>)
    requires DistinctIds(sha) && moves == [Outside(MintToAlice()), Outside(MintToBob())]
    ensures Run(Signatures(sha), {AUTHORITY}, TTL, EMPTY_WORLD, moves) == Some(World(Minted(sha), map[]))
  {
    AliceIsPaid(sha);
    BobIsPaid(sha);
    assert moves[..1][..0] == [];
    assert Run(Signatures(sha), {AUTHORITY}, TTL, EMPTY_WORLD, moves[..1]) == Some(World(FirstMinted(sha), map[]));
  }

  lemma AliceProposes(sha: HashFn)
    requires DistinctIds(sha)
    ensures
      var w := World(Minted(sha), map[]);
      Moved(Signatures(sha), {AUTHORITY}, TTL, w, Propose(AliceOffers(sha), SWAP, 0)) == Before(sha)
  {
    LegsPass(sha);
  }

  lemma {:induction false} Prepared(sha: HashFn)
    requires DistinctIds(sha)
    ensures Run(Signatures(sha), {AUTHORITY}, TTL, EMPTY_WORLD, Preparation(sha)) == Some(Before(sha))
  {
    var moves := Preparation(sha);
    BothPaid(sha, moves[..2]);
    AliceProposes(sha);
    assert moves[..|moves| - 1] == moves[..2];
  }

  lemma Accepted(sha: HashFn)
    requires DistinctIds(sha)
    ensures Uninterrupted(Signatures(sha), Before(sha), Accept(sha), Timing())
    ensures FirstOk(Signatures(sha), Before(sha), Stored(sha))
    ensures LegRequest(Signatures(sha), Accept(sha).leg).nonce == Row(Before(sha).db.players, Id(sha, BOB)).nonce
  {
    LegsPass(sha);
  }

  lemma OfferMoves(sha: HashFn)
    requires DistinctIds(sha)
    ensures
      var first := FirstRow(Signatures(sha), Stored(sha), Timing());
      && Admit(Minted(sha).players, first.request).None?
      && Row(Booking(Minted(sha), first).players, Id(sha, ALICE)).balance == NO_TOKENS
      && Row(Booking(Minted(sha), first).players, Id(sha, BOB)).balance == Rgb(1, 1, 0)
  {}

  /** Alice offers a red token for a green one, both players can pay and sign with their current nonces, and
      Bob accepts. Alice's token moves, Bob's does not, and the challenge is declined. */
  lemma {:induction false} OneSided(sha: HashFn)
    requires DistinctIds(sha)
    ensures
      var crypto := Signatures(sha);
      var before := Run(crypto, {AUTHORITY}, TTL, EMPTY_WORLD, Preparation(sha));
      var after := Run(crypto, {AUTHORITY}, TTL, EMPTY_WORLD, Preparation(sha) + [Answer(Accept(sha), Timing())]);
      && before.Some? && after.Some?
      && LegRequest(crypto, Accept(sha).leg).nonce == Row(before.value.db.players, Id(sha, BOB)).nonce
      && Row(before.value.db.players, Id(sha, ALICE)).balance == OFFER
      && Row(before.value.db.players, Id(sha, BOB)).balance == WANT
      && Row(after.value.db.players, Id(sha, ALICE)).balance == NO_TOKENS
      && Row(after.value.db.players, Id(sha, BOB)).balance == Rgb(1, 1, 0)
      && HasStatus(after.value.entries, SWAP, Declined, 0)
  {
    var crypto, w := Signatures(sha), Before(sha);
    var moves := Preparation(sha) + [Answer(Accept(sha), Timing())];
    Prepared(sha);
    Accepted(sha);
    OneSidedSwap(crypto, {AUTHORITY}, w, Accept(sha), Timing());
    SwapOutcomes(crypto, {AUTHORITY}, w, Accept(sha), Timing());
    assert moves[..|moves| - 1] == Preparation(sha);
    assert Run(crypto, {AUTHORITY}, TTL, EMPTY_WORLD, moves)
           == Some(Respond(crypto, {AUTHORITY}, w, Accept(sha), Timing()).0);
    OfferMoves(sha);
  }
}
