/** The ledger as its clients see it: signed payloads in, transactions out
    (internal/adapter/driving/grpc/ledger/handler.go, SubmitTransaction). */
module LedgerApi {
  import opened Wrappers
  import opened Encoding
  import opened Ledger
  import opened Accounting

  /** SHA-256, ed25519 verification of (public key, message, signature), and payload decoding, as
      arbitrary functions. */
  datatype Crypto = Crypto(sha: HashFn, verify: (Bytes, Bytes, Bytes) -> bool, decode: Bytes -> Option<Request>)

  datatype Signed = Signed(payload: Bytes, signature: Bytes, pubKey: Bytes)

  function PlayerId(crypto: Crypto, pubKey: Bytes): (id: Bytes)
    ensures |id| == 64
  {
    Hex(crypto.sha(pubKey))
  }

  /** The request inside a signed payload, if every check of the handler passes. */
  function Gate(crypto: Crypto, authorities: set<Bytes>, s: Signed): Option<Request> {
    match crypto.decode(s.payload)
    case None => None
    case Some(req) =>
      if !crypto.verify(s.pubKey, s.payload, s.signature) then None
      else if PlayerId(crypto, s.pubKey) != req.sender then None
      else if req.txType.Mint? && s.pubKey !in authorities then None
      else Some(req)
  }

  /** A signed payload with the UUID and the time the ledger will give it. */
  datatype Submission = Submission(signed: Signed, txHash: Bytes, now: int64)

  datatype Db = Db(players: Players, txs: seq<TxRecord>)

  predicate Commits(crypto: Crypto, authorities: set<Bytes>, db: Db, sub: Submission) {
    var gated := Gate(crypto, authorities, sub.signed);
    gated.Some? && Admit(db.players, gated.value).None? && forall tx :: tx in db.txs ==> tx.hash != sub.txHash
  }

  function Step(crypto: Crypto, authorities: set<Bytes>, db: Db, sub: Submission): Db {
    if Commits(crypto, authorities, db, sub) then
      var req := Gate(crypto, authorities, sub.signed).value;
      Db(Settle(db.players, req), db.txs + [TxRecord(sub.txHash, req, sub.now, None)])
    else db
  }

  function Steps(crypto: Crypto, authorities: set<Bytes>, db: Db, subs: seq<Submission>): Db {
    if subs == [] then db
    else Step(crypto, authorities, Steps(crypto, authorities, db, subs[..|subs| - 1]), subs[|subs| - 1])
  }

  /** Submissions only append to the log. */
  lemma {:induction false} StepsAppend(crypto: Crypto, authorities: set<Bytes>, db: Db, subs: seq<Submission>)
    ensures db.txs <= Steps(crypto, authorities, db, subs).txs
  {
    if subs != [] { StepsAppend(crypto, authorities, db, subs[..|subs| - 1]); }
  }

  lemma {:induction false} StepBooked(crypto: Crypto, authorities: set<Bytes>, db: Db, sub: Submission)
    requires Booked(db.players, db.txs)
    ensures Booked(Step(crypto, authorities, db, sub).players, Step(crypto, authorities, db, sub).txs)
  {
    if Commits(crypto, authorities, db, sub) {
      BookedAppend(db.players, db.txs,
                   TxRecord(sub.txHash, Gate(crypto, authorities, sub.signed).value, sub.now, None));
    }
  }

  /** Whatever is submitted, the players table stays the replay of the log. */
  lemma {:induction false} StepsBooked(crypto: Crypto, authorities: set<Bytes>, db: Db, subs: seq<Submission>)
    requires Booked(db.players, db.txs)
    ensures Booked(Steps(crypto, authorities, db, subs).players, Steps(crypto, authorities, db, subs).txs)
  {
    if subs != [] {
      StepsBooked(crypto, authorities, db, subs[..|subs| - 1]);
      StepBooked(crypto, authorities, Steps(crypto, authorities, db, subs[..|subs| - 1]), subs[|subs| - 1]);
    }
  }

  // ---------------------------------------------------------------- who may move tokens

  /** The signed payload is the request, the signature is good, the key is the sender's, and for a mint it is
      registered. */
  ghost predicate Authorises(crypto: Crypto, authorities: set<Bytes>, s: Signed, req: Request) {
    && crypto.decode(s.payload) == Some(req)
    && crypto.verify(s.pubKey, s.payload, s.signature)
    && Hex(crypto.sha(s.pubKey)) == req.sender
    && (req.txType.Mint? ==> s.pubKey in authorities)
  }

  /** The gate lets through exactly what is authorised. */
  lemma GateMeans(crypto: Crypto, authorities: set<Bytes>, s: Signed, req: Request)
    ensures Gate(crypto, authorities, s) == Some(req) <==> Authorises(crypto, authorities, s, req)
  {}

  lemma HashInTable(txs: seq<TxRecord>, hash: Bytes)
    ensures HashIn(txs, hash) <==> !forall tx :: tx in txs ==> tx.hash != hash
  {}

  /** A submission commits exactly if it is authorised, admissible, and its hash is unused. */
  lemma CommitsMeans(crypto: Crypto, authorities: set<Bytes>, db: Db, sub: Submission)
    ensures Commits(crypto, authorities, db, sub) <==>
      && crypto.decode(sub.signed.payload).Some?
      && var req := crypto.decode(sub.signed.payload).value;
      && Authorises(crypto, authorities, sub.signed, req) && Admit(db.players, req).None?
      && !HashIn(db.txs, sub.txHash)
  {
    HashInTable(db.txs, sub.txHash);
  }

  ghost predicate RequestAuthorised(crypto: Crypto, authorities: set<Bytes>, presented: set<Signed>, req: Request) {
    exists s :: s in presented && Authorises(crypto, authorities, s, req)
  }

  /** Every row was put there by one of the signed payloads, which authorises it. */
  ghost predicate RowsAuthorised(crypto: Crypto, authorities: set<Bytes>, presented: set<Signed>, txs: seq<TxRecord>) {
    forall i :: 0 <= i < |txs| ==> RequestAuthorised(crypto, authorities, presented, txs[i].request)
  }

  lemma {:induction false} StepAuthorised(
    crypto: Crypto, authorities: set<Bytes>, presented: set<Signed>, db: Db, sub: Submission)
    requires RowsAuthorised(crypto, authorities, presented, db.txs) && sub.signed in presented
    ensures RowsAuthorised(crypto, authorities, presented, Step(crypto, authorities, db, sub).txs)
  {
    if Commits(crypto, authorities, db, sub) {
      GateMeans(crypto, authorities, sub.signed, Gate(crypto, authorities, sub.signed).value);
    }
  }

  lemma {:induction false} StepsAuthorised(
    crypto: Crypto, authorities: set<Bytes>, presented: set<Signed>, db: Db, subs: seq<Submission>)
    requires RowsAuthorised(crypto, authorities, presented, db.txs)
    requires forall j :: 0 <= j < |subs| ==> subs[j].signed in presented
    ensures RowsAuthorised(crypto, authorities, presented, Steps(crypto, authorities, db, subs).txs)
  {
    if subs != [] {
      var front := subs[..|subs| - 1];
      StepsAuthorised(crypto, authorities, presented, db, front);
      StepAuthorised(crypto, authorities, presented, Steps(crypto, authorities, db, front), subs[|subs| - 1]);
    }
  }

  const EMPTY_DB := Db(map[], [])

  /** Whatever is submitted to an empty ledger, every row of the log comes from a submission that authorises
      it. */
  lemma {:induction false} OnlyAuthorised(crypto: Crypto, authorities: set<Bytes>, subs: seq<Submission>, i: nat)
    requires i < |Steps(crypto, authorities, EMPTY_DB, subs).txs|
    ensures
      var row := Steps(crypto, authorities, EMPTY_DB, subs).txs[i];
      exists j :: 0 <= j < |subs| && Authorises(crypto, authorities, subs[j].signed, row.request)
  {
    var presented := set j | 0 <= j < |subs| :: subs[j].signed;
    StepsAuthorised(crypto, authorities, presented, EMPTY_DB, subs);
  }

  ghost predicate RowOf(crypto: Crypto, sub: Submission, row: TxRecord) {
    && crypto.decode(sub.signed.payload) == Some(row.request)
    && row.hash == sub.txHash && row.timestamp == sub.now && row.height == None
  }

  /** Every row that submissions add carries a decoded request with the UUID and the time of its submission, and
      is not sealed yet. */
  lemma {:induction false} RowsFromSubmissions(
    crypto: Crypto, authorities: set<Bytes>, db: Db, subs: seq<Submission>, i: nat)
    requires |db.txs| <= i < |Steps(crypto, authorities, db, subs).txs|
    ensures
      var row := Steps(crypto, authorities, db, subs).txs[i];
      exists j :: 0 <= j < |subs| && RowOf(crypto, subs[j], row)
  {
    var n := |subs| - 1;
    var front := Steps(crypto, authorities, db, subs[..n]);
    if i < |front.txs| {
      RowsFromSubmissions(crypto, authorities, db, subs[..n], i);
      var j :| 0 <= j < n && RowOf(crypto, subs[..n][j], front.txs[i]);
      assert RowOf(crypto, subs[j], front.txs[i]);
    } else {
      assert RowOf(crypto, subs[n], Steps(crypto, authorities, db, subs).txs[i]);
    }
  }

  /** A log whose rows are authorised by keys that are not registered mints nothing. */
  lemma {:induction false} NoAuthorityNoMint(
    crypto: Crypto, authorities: set<Bytes>, presented: set<Signed>, txs: seq<TxRecord>, c: Channel)
    requires RowsAuthorised(crypto, authorities, presented, txs)
    requires forall s :: s in presented ==> s.pubKey !in authorities
    ensures Minted(Requests(txs), c) == 0
  {
    if txs != [] {
      var m := |txs| - 1;
      NoAuthorityNoMint(crypto, authorities, presented, txs[..m], c);
      assert Requests(txs)[..m] == Requests(txs[..m]);
      assert RequestAuthorised(crypto, authorities, presented, txs[m].request);
    }
  }

  /** Without a registered key among the submissions to an empty ledger no token comes into being by a mint. */
  lemma {:induction false} OnlyAuthoritiesMint(
    crypto: Crypto, authorities: set<Bytes>, subs: seq<Submission>, c: Channel)
    requires forall j :: 0 <= j < |subs| ==> subs[j].signed.pubKey !in authorities
    ensures Minted(Requests(Steps(crypto, authorities, EMPTY_DB, subs).txs), c) == 0
  {
    var presented := set j | 0 <= j < |subs| :: subs[j].signed;
    StepsAuthorised(crypto, authorities, presented, EMPTY_DB, subs);
    NoAuthorityNoMint(crypto, authorities, presented, Steps(crypto, authorities, EMPTY_DB, subs).txs, c);
  }

  class LedgerServer {
    const crypto: Crypto
    const ledger: LedgerService
    var authorities: set<Bytes>

    constructor (crypto: Crypto, ledger: LedgerService)
      ensures this.crypto == crypto && this.ledger == ledger && authorities == {}
    {
      this.crypto, this.ledger, authorities := crypto, ledger, {};
    }

    function Contents(): Db
      reads this, ledger
    {
      Db(ledger.players, ledger.txs)
    }

    /** Decodes, verifies and submits. */
    method SubmitTransaction(sub: Submission) returns (success: bool)
      requires ledger.Valid()
      modifies ledger
      ensures ledger.Valid()
      ensures success == Commits(crypto, authorities, old(Contents()), sub)
      ensures Contents() == Step(crypto, authorities, old(Contents()), sub)
    {
      var s := sub.signed;
      var payload := crypto.decode(s.payload);
      if payload.None? {
        return false;
      }
      if !crypto.verify(s.pubKey, s.payload, s.signature) {
        return false;
      }
      var derivedID := PlayerId(crypto, s.pubKey);
      if derivedID != payload.value.sender {
        return false;
      }
      if payload.value.txType.Mint? && s.pubKey !in authorities {
        return false;
      }
      HashInTable(ledger.txs, sub.txHash);
      var out := ledger.SubmitTransaction(payload.value, sub.txHash, sub.now);
      success := out.Committed?;
    }
  }
}
