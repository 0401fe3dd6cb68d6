/** Token-swap challenges: proposing, responding, and how a swap can end
    (internal/app/service/game.go, internal/adapter/driven/redis/challenge_repository.go). */
module Challenges {
  import opened Wrappers
  import opened Encoding
  import opened Engine
  import opened Ledger
  import opened Accounting
  import opened KeyStore
  import opened LedgerApi

  datatype Status = Pending | Accepted | Declined | Expired | Completed

  /** `leg` is the proposer's transfer, signed in advance. */
  datatype Challenge = Challenge(
    id: Bytes, proposer: Bytes, opponent: Bytes, offer: Rgb, want: Rgb, status: Status,
    createdAt: int, expiresAt: int, leg: Signed)

  type Entries = map<Bytes, Timed<Challenge>>

  // ---------------------------------------------------------------- the signed legs

  datatype LegFault =
    | BadSignature | WrongKey | BadPayload | NotTransfer | WrongSender | WrongReceiver | WrongAmounts

  /** The checks on a signed transfer against the agreed terms, in the source's order. */
  function VerifyTransferPayload(crypto: Crypto, s: Signed, sender: Bytes, receiver: Bytes, amount: Rgb)
    : (f: Option<LegFault>)
    ensures f.None? <==>
      && sender == PlayerId(crypto, s.pubKey) && crypto.verify(s.pubKey, s.payload, s.signature)
      && crypto.decode(s.payload).Some?
      && var req := crypto.decode(s.payload).value;
         req == Request(Transfer, sender, receiver, amount, req.nonce)
  {
    if !crypto.verify(s.pubKey, s.payload, s.signature) then Some(BadSignature)
    else if PlayerId(crypto, s.pubKey) != sender then Some(WrongKey)
    else
      match crypto.decode(s.payload)
      case None => Some(BadPayload)
      case Some(req) =>
        if !req.txType.Transfer? then Some(NotTransfer)
        else if req.sender != sender then Some(WrongSender)
        else if req.receiver != receiver then Some(WrongReceiver)
        else if req.amount != amount then Some(WrongAmounts)
        else None
  }

  /** The first fault of a leg is the one reported. */
  lemma FaultMeans(crypto: Crypto, s: Signed, sender: Bytes, receiver: Bytes, amount: Rgb)
    ensures
      var fault := VerifyTransferPayload(crypto, s, sender, receiver, amount);
      var signed := crypto.verify(s.pubKey, s.payload, s.signature);
      var own := signed && Hex(crypto.sha(s.pubKey)) == sender;
      var request := crypto.decode(s.payload);
      var transfer := own && request.Some? && request.value.txType == Transfer;
      && (fault == Some(BadSignature) <==> !signed)
      && (fault == Some(WrongKey) <==> signed && !own)
      && (fault == Some(BadPayload) <==> own && request.None?)
      && (fault == Some(NotTransfer) <==> own && request.Some? && !transfer)
      && (fault == Some(WrongSender) <==> transfer && request.value.sender != sender)
      && (fault == Some(WrongReceiver) <==>
            transfer && request.value.sender == sender && request.value.receiver != receiver)
      && (fault == Some(WrongAmounts) <==>
            transfer && request.value.sender == sender && request.value.receiver == receiver
            && request.value.amount != amount)
  {}

  /** What ProposeChallenge has checked of every stored challenge. */
  ghost predicate WellFormed(crypto: Crypto, c: Challenge) {
    && c.proposer != c.opponent && c.offer != NO_TOKENS && c.want != NO_TOKENS
    && VerifyTransferPayload(crypto, c.leg, c.proposer, c.opponent, c.offer).None?
  }

  ghost predicate AllWellFormed(crypto: Crypto, entries: Entries) {
    forall id :: id in entries ==> WellFormed(crypto, entries[id].value)
  }

  // ---------------------------------------------------------------- the store

  function WithStatus(entries: Entries, id: Bytes, status: Status, now: int, readAt: int): Entries {
    if Get(entries, id, now).None? then entries
    else
      var expires := if readAt < entries[id].expires then entries[id].expires else readAt + 300;
      entries[id := Timed(entries[id].value.(status := status), expires)]
  }

  class ChallengeRepository {
    var entries: Entries

    constructor ()
      ensures entries == map[]
    {
      entries := map[];
    }

    method Create(record: Challenge, ttl: int, now: int)
      modifies this
      ensures entries == old(entries)[record.id := Timed(record, now + ttl)]
    {
      entries := entries[record.id := Timed(record, now + ttl)];
    }

    method FindByID(id: Bytes, now: int) returns (record: Option<Challenge>)
      ensures record == Get(entries, id, now)
    {
      record := if id in entries && now < entries[id].expires then Some(entries[id].value) else None;
    }

    /** Overwrites the status of a visible record. The remaining lifetime is read at `readAt`; a record
        that has expired by then is kept for five more minutes. */
    method UpdateStatus(id: Bytes, status: Status, now: int, readAt: int) returns (ok: bool)
      modifies this
      ensures ok == Get(old(entries), id, now).Some?
      ensures entries == WithStatus(old(entries), id, status, now, readAt)
    {
      var record := FindByID(id, now);
      if record.None? {
        return false;
      }
      var ttl := entries[id].expires - readAt;
      if ttl <= 0 {
        ttl := 300;
      }
      entries := entries[id := Timed(record.value.(status := status), readAt + ttl)];
      ok := true;
    }
  }

  // ---------------------------------------------------------------- responding, as a function

  datatype RespondReply =
    | NotFound | NotOpponent | NotPending | DeclineDone | InvalidLeg(fault: LegFault)
    | ProposerLegFailed | OpponentLegFailed | SwapDone

  datatype Response = Response(id: Bytes, player: Bytes, accept: bool, leg: Signed)

  datatype World = World(db: Db, entries: Entries)

  /** When the record is found and its status updated, and in each update when the remaining lifetime is
      read; under which hashes and when the two legs are submitted; and what other clients submit in
      between. */
  datatype Schedule = Schedule(
    start: int, startRead: int, firstHash: Bytes, firstTime: int64, others: seq<Submission>,
    secondHash: Bytes, secondTime: int64, end: int, endRead: int)

  function First(c: Challenge, s: Schedule): Submission {
    Submission(c.leg, s.firstHash, s.firstTime)
  }

  function Second(r: Response, s: Schedule): Submission {
    Submission(r.leg, s.secondHash, s.secondTime)
  }

  /** The checks before any transfer. */
  function Precheck(crypto: Crypto, entries: Entries, r: Response, now: int): Option<RespondReply> {
    match Get(entries, r.id, now)
    case None => Some(NotFound)
    case Some(c) =>
      if c.opponent != r.player then Some(NotOpponent)
      else if !c.status.Pending? then Some(NotPending)
      else if !r.accept then Some(DeclineDone)
      else
        match VerifyTransferPayload(crypto, r.leg, r.player, c.proposer, c.want)
        case Some(fault) => Some(InvalidLeg(fault))
        case None => None
  }

  function Respond(crypto: Crypto, auths: set<Bytes>, w: World, r: Response, s: Schedule): (World, RespondReply) {
    match Precheck(crypto, w.entries, r, s.start)
    case Some(DeclineDone) => (w.(entries := WithStatus(w.entries, r.id, Declined, s.start, s.startRead)), DeclineDone)
    case Some(reply) => (w, reply)
    case None =>
      var first := First(w.entries[r.id].value, s);
      if !Commits(crypto, auths, w.db, first) then (w, ProposerLegFailed)
      else
        var middle := Steps(crypto, auths, Step(crypto, auths, w.db, first), s.others);
        if !Commits(crypto, auths, middle, Second(r, s)) then
          (World(middle, WithStatus(w.entries, r.id, Declined, s.end, s.endRead)), OpponentLegFailed)
        else
          (World(Step(crypto, auths, middle, Second(r, s)),
                 WithStatus(w.entries, r.id, Completed, s.end, s.endRead)),
           SwapDone)
  }

  // ---------------------------------------------------------------- the service

  datatype Proposal = Proposal(proposer: Bytes, opponent: Bytes, offer: Rgb, want: Rgb, leg: Signed)

  datatype ProposeReply = Self | EmptyOffer | EmptyWant | InvalidProposal(fault: LegFault) | Created(record: Challenge)

  /** A proposal stores a pending challenge, or is refused and stores nothing. */
  function Proposed(crypto: Crypto, ttl: int, entries: Entries, p: Proposal, id: Bytes, now: int)
    : (Entries, ProposeReply)
  {
    var fault := VerifyTransferPayload(crypto, p.leg, p.proposer, p.opponent, p.offer);
    if p.proposer == p.opponent then (entries, Self)
    else if p.offer == NO_TOKENS then (entries, EmptyOffer)
    else if p.want == NO_TOKENS then (entries, EmptyWant)
    else if fault.Some? then (entries, InvalidProposal(fault.value))
    else
      var record := Challenge(id, p.proposer, p.opponent, p.offer, p.want, Pending, now, now + ttl, p.leg);
      (entries[id := Timed(record, now + ttl)], Created(record))
  }

  class SwapService {
    const server: LedgerServer
    const challenges: ChallengeRepository
    const challengeTTL: int

    ghost predicate Valid()
      reads server, server.ledger, challenges
    {
      server.ledger.Valid() && AllWellFormed(server.crypto, challenges.entries)
    }

    /** A zero lifetime in the configuration means ten minutes. */
    constructor (server: LedgerServer, challenges: ChallengeRepository, ttl: int)
      ensures this.server == server && this.challenges == challenges
      ensures challengeTTL == if ttl == 0 then 600 else ttl
    {
      this.server, this.challenges := server, challenges;
      challengeTTL := if ttl == 0 then 600 else ttl;
    }

    function State(): World
      reads server, server.ledger, challenges
    {
      World(server.Contents(), challenges.entries)
    }

    /** Stores only well-formed challenges. */
    method ProposeChallenge(p: Proposal, id: Bytes, now: int) returns (reply: ProposeReply)
      requires Valid()
      modifies challenges
      ensures Valid()
      ensures (challenges.entries, reply) == Proposed(server.crypto, challengeTTL, old(challenges.entries), p, id, now)
      ensures reply.Created? <==>
        && p.proposer != p.opponent && p.offer != NO_TOKENS && p.want != NO_TOKENS
        && VerifyTransferPayload(server.crypto, p.leg, p.proposer, p.opponent, p.offer).None?
      ensures reply.Created? ==>
        && reply.record
           == Challenge(id, p.proposer, p.opponent, p.offer, p.want, Pending, now, now + challengeTTL, p.leg)
        && challenges.entries == old(challenges.entries)[id := Timed(reply.record, now + challengeTTL)]
      ensures !reply.Created? ==> challenges.entries == old(challenges.entries)
      ensures reply == Self <==> p.proposer == p.opponent
      ensures reply == EmptyOffer <==> p.proposer != p.opponent && p.offer == NO_TOKENS
      ensures reply == EmptyWant <==> p.proposer != p.opponent && p.offer != NO_TOKENS && p.want == NO_TOKENS
    {
      if p.proposer == p.opponent {
        return Self;
      }
      if p.offer.red == 0 && p.offer.green == 0 && p.offer.blue == 0 {
        return EmptyOffer;
      }
      if p.want.red == 0 && p.want.green == 0 && p.want.blue == 0 {
        return EmptyWant;
      }
      var fault := VerifyTransferPayload(server.crypto, p.leg, p.proposer, p.opponent, p.offer);
      if fault.Some? {
        return InvalidProposal(fault.value);
      }
      var record := Challenge(id, p.proposer, p.opponent, p.offer, p.want, Pending, now, now + challengeTTL, p.leg);
      challenges.Create(record, challengeTTL, now);
      reply := Created(record);
    }

    /** What other clients do while the call is between its two legs. */
    method Others(subs: seq<Submission>)
      requires server.ledger.Valid()
      modifies server.ledger
      ensures server.ledger.Valid()
      ensures server.Contents() == Steps(server.crypto, server.authorities, old(server.Contents()), subs)
    {
      for i := 0 to |subs|
        invariant server.ledger.Valid()
        invariant server.Contents() == Steps(server.crypto, server.authorities, old(server.Contents()), subs[..i])
      {
        var _ := server.SubmitTransaction(subs[i]);
        assert subs[..i + 1][..i] == subs[..i];
      }
      assert subs[..|subs|] == subs;
    }

    /** The schedule holds what the call does not choose itself: the UUIDs and times of the legs, the times
        of the two store calls, and the submissions of other clients between the legs. */
    method RespondChallenge(r: Response, s: Schedule) returns (reply: RespondReply)
      requires Valid()
      modifies server.ledger, challenges
      ensures Valid()
      ensures (State(), reply) == Respond(server.crypto, server.authorities, old(State()), r, s)
    {
      var record := challenges.FindByID(r.id, s.start);
      if record.None? {
        return NotFound;
      }
      if record.value.opponent != r.player {
        return NotOpponent;
      }
      if record.value.status != Pending {
        return NotPending;
      }
      if !r.accept {
        var _ := challenges.UpdateStatus(r.id, Declined, s.start, s.startRead);
        return DeclineDone;
      }
      var fault := VerifyTransferPayload(server.crypto, r.leg, r.player, record.value.proposer, record.value.want);
      if fault.Some? {
        return InvalidLeg(fault.value);
      }
      var proposerOk := server.SubmitTransaction(Submission(record.value.leg, s.firstHash, s.firstTime));
      if !proposerOk {
        return ProposerLegFailed;
      }
      Others(s.others);
      var opponentOk := server.SubmitTransaction(Submission(r.leg, s.secondHash, s.secondTime));
      if !opponentOk {
        var _ := challenges.UpdateStatus(r.id, Declined, s.end, s.endRead);
        return OpponentLegFailed;
      }
      var _ := challenges.UpdateStatus(r.id, Completed, s.end, s.endRead);
      reply := SwapDone;
    }
  }

  // ---------------------------------------------------------------- replies and records

  /** The record is visible at the start of the call. */
  ghost predicate Visible(w: World, r: Response, s: Schedule) {
    r.id in w.entries && s.start < w.entries[r.id].expires
  }

  /** Which answers are refused before any transfer and why, and that a refused answer changes nothing. */
  lemma RefusalMeans(crypto: Crypto, auths: set<Bytes>, w: World, r: Response, s: Schedule)
    ensures
      var (w', reply) := Respond(crypto, auths, w, r, s);
      && (reply == NotFound <==> !Visible(w, r, s))
      && (reply == NotOpponent <==> Visible(w, r, s) && w.entries[r.id].value.opponent != r.player)
      && (reply == NotPending <==>
            && Visible(w, r, s) && w.entries[r.id].value.opponent == r.player
            && w.entries[r.id].value.status != Pending)
      && (reply == DeclineDone <==>
            && Visible(w, r, s) && w.entries[r.id].value.opponent == r.player
            && w.entries[r.id].value.status == Pending && !r.accept)
      && (reply in {NotFound, NotOpponent, NotPending, ProposerLegFailed} || reply.InvalidLeg? ==> w' == w)
  {}

  lemma InvalidLegMeans(crypto: Crypto, auths: set<Bytes>, w: World, r: Response, s: Schedule, fault: LegFault)
    ensures Respond(crypto, auths, w, r, s).1 == InvalidLeg(fault) <==>
      && Visible(w, r, s) && w.entries[r.id].value.opponent == r.player
      && w.entries[r.id].value.status == Pending && r.accept
      && VerifyTransferPayload(crypto, r.leg, r.player, w.entries[r.id].value.proposer, w.entries[r.id].value.want)
         == Some(fault)
  {}

  /** The record with its new status. It keeps its expiry if that still lies ahead when the remaining lifetime
      is read, and lives five minutes from then otherwise. */
  ghost predicate Relabelled(before: Timed<Challenge>, status: Status, readAt: int, after: Timed<Challenge>) {
    && after.value == before.value.(status := status)
    && after.expires == if readAt < before.expires then before.expires else readAt + 300
  }

  /** A decline by the opponent of a visible pending challenge marks it as declined and changes nothing else. */
  lemma {:induction false} DeclineMeans(crypto: Crypto, auths: set<Bytes>, w: World, r: Response, s: Schedule)
    requires Visible(w, r, s) && w.entries[r.id].value.opponent == r.player
    requires w.entries[r.id].value.status == Pending && !r.accept
    ensures
      var (w', reply) := Respond(crypto, auths, w, r, s);
      && reply == DeclineDone && w'.db == w.db && w'.entries.Keys == w.entries.Keys
      && Relabelled(w.entries[r.id], Declined, s.startRead, w'.entries[r.id])
      && forall id :: id in w.entries && id != r.id ==> w'.entries[id] == w.entries[id]
  {}

  /** What an accept does to the records: its own is relabelled if it is still visible at the end. */
  lemma {:induction false} AcceptRecords(crypto: Crypto, auths: set<Bytes>, w: World, r: Response, s: Schedule)
    requires Respond(crypto, auths, w, r, s).1 in {OpponentLegFailed, SwapDone}
    ensures r.id in w.entries
    ensures
      var (w', reply) := Respond(crypto, auths, w, r, s);
      && w'.entries.Keys == w.entries.Keys
      && (forall id :: id in w.entries && id != r.id ==> w'.entries[id] == w.entries[id])
      && if s.end < w.entries[r.id].expires
         then Relabelled(w.entries[r.id], if reply.SwapDone? then Completed else Declined, s.endRead, w'.entries[r.id])
         else w'.entries[r.id] == w.entries[r.id]
  {}

  // ---------------------------------------------------------------- how a swap can end

  /** A verified accept: the record is visible and pending, and the opponent's leg matches the terms. */
  ghost predicate VerifiedAccept(crypto: Crypto, w: World, r: Response, s: Schedule) {
    Precheck(crypto, w.entries, r, s.start).None? && WellFormed(crypto, w.entries[r.id].value)
  }

  /** The request a signed leg carries. */
  ghost function LegRequest(crypto: Crypto, leg: Signed): Request
    requires crypto.decode(leg.payload).Some?
  {
    crypto.decode(leg.payload).value
  }

  lemma GatePassesVerifiedLeg(
    crypto: Crypto, auths: set<Bytes>, leg: Signed, sender: Bytes, receiver: Bytes, amount: Rgb)
    requires VerifyTransferPayload(crypto, leg, sender, receiver, amount).None?
    ensures Gate(crypto, auths, leg) == Some(LegRequest(crypto, leg))
    ensures LegRequest(crypto, leg) == Request(Transfer, sender, receiver, amount, LegRequest(crypto, leg).nonce)
  {}

  ghost predicate HasStatus(entries: Entries, id: Bytes, status: Status, now: int) {
    Get(entries, id, now).Some? && Get(entries, id, now).value.status == status
  }

  /** The row of the proposer's leg: the agreed transfer of the offer. */
  ghost function FirstRow(crypto: Crypto, c: Challenge, s: Schedule): TxRecord
    requires crypto.decode(c.leg.payload).Some?
  {
    TxRecord(s.firstHash, Request(Transfer, c.proposer, c.opponent, c.offer, LegRequest(crypto, c.leg).nonce),
             s.firstTime, None)
  }

  /** The row of the opponent's leg: the agreed transfer in return. */
  ghost function SecondRow(crypto: Crypto, c: Challenge, r: Response, s: Schedule): TxRecord
    requires crypto.decode(r.leg.payload).Some?
  {
    TxRecord(s.secondHash, Request(Transfer, c.opponent, c.proposer, c.want, LegRequest(crypto, r.leg).nonce),
             s.secondTime, None)
  }

  /** The database after a row is committed. */
  ghost function Booking(db: Db, row: TxRecord): Db
    requires Admit(db.players, row.request).None?
  {
    Db(Settle(db.players, row.request), db.txs + [row])
  }

  /** The three ways a verified accept ends: nothing moved and the challenge still pending; the
      proposer's leg alone and the challenge declined; both legs, in order, and the challenge completed.
      The legs carry the agreed amounts, what other clients commit stands between them, and the record
      is relabelled if it is still visible. */
  lemma {:induction false} SwapOutcomes(crypto: Crypto, auths: set<Bytes>, w: World, r: Response, s: Schedule)
    requires VerifiedAccept(crypto, w, r, s)
    ensures
      var c := w.entries[r.id].value;
      var (w', reply) := Respond(crypto, auths, w, r, s);
      var live := s.end < w.entries[r.id].expires;
      var first, second := FirstRow(crypto, c, s), SecondRow(crypto, c, r, s);
      match reply
      case ProposerLegFailed => w' == w && HasStatus(w'.entries, r.id, Pending, s.start)
      case OpponentLegFailed =>
        && Admit(w.db.players, first.request).None?
        && w'.db == Steps(crypto, auths, Booking(w.db, first), s.others)
        && w.db.txs + [first] <= w'.db.txs
        && (live ==> HasStatus(w'.entries, r.id, Declined, s.end))
      case SwapDone =>
        && Admit(w.db.players, first.request).None?
        && var middle := Steps(crypto, auths, Booking(w.db, first), s.others);
        && Admit(middle.players, second.request).None? && w'.db == Booking(middle, second)
        && w.db.txs + [first] <= middle.txs
        && (live ==> HasStatus(w'.entries, r.id, Completed, s.end))
      case _ => false
  {
    var c := w.entries[r.id].value;
    GatePassesVerifiedLeg(crypto, auths, c.leg, c.proposer, c.opponent, c.offer);
    GatePassesVerifiedLeg(crypto, auths, r.leg, c.opponent, c.proposer, c.want);
    if Commits(crypto, auths, w.db, First(c, s)) {
      StepsAppend(crypto, auths, Step(crypto, auths, w.db, First(c, s)), s.others);
    }
  }

  lemma FirstLegState(players: Players, req: Request)
    requires req.txType.Transfer? && req.sender != req.receiver && Admit(players, req).None?
    ensures
      var after := Row(Settle(players, req), req.receiver);
      after.nonce == NextNonce(Row(players, req.receiver).nonce)
      && after.balance == Credit(Row(players, req.receiver).balance, req.amount)
  {}

  /** The proposer's leg fits a channel, is current and is covered. */
  ghost predicate FirstOk(crypto: Crypto, w: World, c: Challenge)
    requires crypto.decode(c.leg.payload).Some?
  {
    var proposer := Row(w.db.players, c.proposer);
    Within(c.offer, 255) && LegRequest(crypto, c.leg).nonce == proposer.nonce && Covers(proposer.balance, c.offer)
  }

  /** The opponent's leg fits a channel, is covered once the offer has arrived, and is signed one nonce
      ahead, because receiving the offer moves the opponent's nonce too. */
  ghost predicate SecondOk(crypto: Crypto, w: World, c: Challenge, r: Response)
    requires crypto.decode(r.leg.payload).Some?
  {
    var opponent := Row(w.db.players, c.opponent);
    && Within(c.want, 255) && Covers(Credit(opponent.balance, c.offer), c.want)
    && LegRequest(crypto, r.leg).nonce == NextNonce(opponent.nonce)
  }

  /** A verified accept that nothing interrupts, under two unused hashes. */
  ghost predicate Uninterrupted(crypto: Crypto, w: World, r: Response, s: Schedule) {
    && VerifiedAccept(crypto, w, r, s) && s.others == [] && s.firstHash != s.secondHash
    && forall tx :: tx in w.db.txs ==> tx.hash != s.firstHash && tx.hash != s.secondHash
  }

  /** Exactly how an uninterrupted accept ends. */
  lemma UninterruptedSwap(crypto: Crypto, auths: set<Bytes>, w: World, r: Response, s: Schedule)
    requires Uninterrupted(crypto, w, r, s)
    ensures
      var c := w.entries[r.id].value;
      var reply := Respond(crypto, auths, w, r, s).1;
      && (reply == ProposerLegFailed <==> !FirstOk(crypto, w, c))
      && (reply == OpponentLegFailed <==> FirstOk(crypto, w, c) && !SecondOk(crypto, w, c, r))
      && (reply == SwapDone <==> FirstOk(crypto, w, c) && SecondOk(crypto, w, c, r))
  {
    var c := w.entries[r.id].value;
    GatePassesVerifiedLeg(crypto, auths, c.leg, c.proposer, c.opponent, c.offer);
    GatePassesVerifiedLeg(crypto, auths, r.leg, c.opponent, c.proposer, c.want);
    var req1, req2 := LegRequest(crypto, c.leg), LegRequest(crypto, r.leg);
    assert Commits(crypto, auths, w.db, First(c, s)) <==> FirstOk(crypto, w, c);
    if Admit(w.db.players, req1).None? {
      FirstLegState(w.db.players, req1);
      var d1 := Step(crypto, auths, w.db, First(c, s));
      assert Commits(crypto, auths, d1, Second(r, s)) <==> Admit(d1.players, req2).None?;
    }
  }

  /** An opponent that signs with the nonce the ledger reports takes the offer and returns nothing. */
  lemma {:induction false} OneSidedSwap(crypto: Crypto, auths: set<Bytes>, w: World, r: Response, s: Schedule)
    requires Uninterrupted(crypto, w, r, s) && FirstOk(crypto, w, w.entries[r.id].value)
    requires LegRequest(crypto, r.leg).nonce == Row(w.db.players, w.entries[r.id].value.opponent).nonce
    ensures
      var first := FirstRow(crypto, w.entries[r.id].value, s);
      && Admit(w.db.players, first.request).None?
      && Respond(crypto, auths, w, r, s).1 == OpponentLegFailed
      && Respond(crypto, auths, w, r, s).0.db == Booking(w.db, first)
  {
    UninterruptedSwap(crypto, auths, w, r, s);
    SwapOutcomes(crypto, auths, w, r, s);
  }

  /** Tokens move on behalf of a challenge only through a verified accept of its opponent. */
  lemma OnlyVerifiedAcceptPays(crypto: Crypto, auths: set<Bytes>, w: World, r: Response, s: Schedule)
    requires AllWellFormed(crypto, w.entries)
    requires Respond(crypto, auths, w, r, s).0.db != w.db
    ensures VerifiedAccept(crypto, w, r, s) && r.accept && w.entries[r.id].value.opponent == r.player
    ensures
      VerifyTransferPayload(crypto, r.leg, r.player, w.entries[r.id].value.proposer, w.entries[r.id].value.want).None?
  {}

  // ---------------------------------------------------------------- whole runs

  /** A proposal under a fresh UUID, an answer, or what another client submits to the ledger. */
  datatype Move =
    | Propose(proposal: Proposal, id: Bytes, now: int)
    | Answer(response: Response, schedule: Schedule)
    | Outside(sub: Submission)

  function Moved(crypto: Crypto, auths: set<Bytes>, ttl: int, w: World, m: Move): World {
    match m
    case Propose(p, id, now) => w.(entries := Proposed(crypto, ttl, w.entries, p, id, now).0)
    case Answer(r, s) => Respond(crypto, auths, w, r, s).0
    case Outside(sub) => w.(db := Step(crypto, auths, w.db, sub))
  }

  /** The world after a sequence of moves, or None if some proposal reused an ID. */
  function Run(crypto: Crypto, auths: set<Bytes>, ttl: int, w: World, moves: seq<Move>): Option<World> {
    if moves == [] then Some(w)
    else
      var before := Run(crypto, auths, ttl, w, moves[..|moves| - 1]);
      var m := moves[|moves| - 1];
      if before.None? || (m.Propose? && m.id in before.value.entries) then None
      else Some(Moved(crypto, auths, ttl, before.value, m))
  }

  /** A run can always go on: with any answer or submission, and with any proposal under a fresh ID. */
  lemma {:induction false} RunsGoOn(crypto: Crypto, auths: set<Bytes>, ttl: int, w: World, moves: seq<Move>, m: Move)
    requires Run(crypto, auths, ttl, w, moves).Some?
    requires m.Propose? ==> m.id !in Run(crypto, auths, ttl, w, moves).value.entries
    ensures Run(crypto, auths, ttl, w, moves + [m])
            == Some(Moved(crypto, auths, ttl, Run(crypto, auths, ttl, w, moves).value, m))
  {
    assert (moves + [m])[..|moves|] == moves;
  }

  const EMPTY_WORLD := World(Db(map[], []), map[])

  /** Every stored challenge has been checked, and the players table is the replay of the log. */
  ghost predicate WorldInv(crypto: Crypto, w: World) {
    AllWellFormed(crypto, w.entries) && Booked(w.db.players, w.db.txs)
  }

  lemma {:induction false} RespondBooked(crypto: Crypto, auths: set<Bytes>, w: World, r: Response, s: Schedule)
    requires Booked(w.db.players, w.db.txs)
    ensures
      var db := Respond(crypto, auths, w, r, s).0.db;
      Booked(db.players, db.txs)
  {
    if Precheck(crypto, w.entries, r, s.start).None? {
      var first := First(w.entries[r.id].value, s);
      StepBooked(crypto, auths, w.db, first);
      StepsBooked(crypto, auths, Step(crypto, auths, w.db, first), s.others);
      StepBooked(crypto, auths, Steps(crypto, auths, Step(crypto, auths, w.db, first), s.others), Second(r, s));
    }
  }

  /** The later state of a stored challenge: terms and leg as proposed; the status has left Pending at
      most once, for Declined or Completed, and only with it may the expiry have moved. */
  ghost predicate Follows(before: Timed<Challenge>, after: Timed<Challenge>) {
    && after.value == before.value.(status := after.value.status)
    && (after.value.status == before.value.status ==> after == before)
    && (after.value.status != before.value.status ==>
          before.value.status.Pending? && after.value.status in {Declined, Completed})
  }

  lemma {:induction false} RelabelFollows(
    entries: Entries, id: Bytes, status: Status, now: int, readAt: int, other: Bytes)
    requires other in entries && status in {Declined, Completed}
    requires Get(entries, id, now).Some? ==> entries[id].value.status.Pending?
    ensures
      var entries' := WithStatus(entries, id, status, now, readAt);
      entries'.Keys == entries.Keys && Follows(entries[other], entries'[other])
  {}

  lemma {:induction false} RespondFollows(
    crypto: Crypto, auths: set<Bytes>, w: World, r: Response, s: Schedule, id: Bytes)
    requires id in w.entries
    ensures
      var entries' := Respond(crypto, auths, w, r, s).0.entries;
      entries'.Keys == w.entries.Keys && Follows(w.entries[id], entries'[id])
  {
    if Get(w.entries, r.id, s.start).Some? && w.entries[r.id].value.status.Pending? {
      RelabelFollows(w.entries, r.id, Declined, s.start, s.startRead, id);
      RelabelFollows(w.entries, r.id, Declined, s.end, s.endRead, id);
      RelabelFollows(w.entries, r.id, Completed, s.end, s.endRead, id);
    }
  }

  lemma {:induction false} RespondWellFormed(crypto: Crypto, auths: set<Bytes>, w: World, r: Response, s: Schedule)
    requires AllWellFormed(crypto, w.entries)
    ensures AllWellFormed(crypto, Respond(crypto, auths, w, r, s).0.entries)
  {
    var entries' := Respond(crypto, auths, w, r, s).0.entries;
    forall id | id in w.entries ensures id in entries' && WellFormed(crypto, entries'[id].value) {
      RespondFollows(crypto, auths, w, r, s, id);
    }
    if id :| id in entries' && id !in w.entries {
      RespondFollows(crypto, auths, w, r, s, r.id);
    }
  }

  lemma {:induction false} ProposedWellFormed(
    crypto: Crypto, ttl: int, entries: Entries, p: Proposal, id: Bytes, now: int)
    requires AllWellFormed(crypto, entries)
    ensures AllWellFormed(crypto, Proposed(crypto, ttl, entries, p, id, now).0)
  {}

  lemma {:induction false} MoveKeepsInv(crypto: Crypto, auths: set<Bytes>, ttl: int, w: World, m: Move)
    requires WorldInv(crypto, w)
    ensures WorldInv(crypto, Moved(crypto, auths, ttl, w, m))
  {
    match m
    case Propose(p, id, now) => ProposedWellFormed(crypto, ttl, w.entries, p, id, now);
    case Answer(r, s) =>
      RespondBooked(crypto, auths, w, r, s);
      RespondWellFormed(crypto, auths, w, r, s);
    case Outside(sub) => StepBooked(crypto, auths, w.db, sub);
  }

  lemma {:induction false} RunKeepsInv(crypto: Crypto, auths: set<Bytes>, ttl: int, moves: seq<Move>)
    requires Run(crypto, auths, ttl, EMPTY_WORLD, moves).Some?
    ensures WorldInv(crypto, Run(crypto, auths, ttl, EMPTY_WORLD, moves).value)
  {
    if moves != [] {
      var front := moves[..|moves| - 1];
      RunKeepsInv(crypto, auths, ttl, front);
      MoveKeepsInv(crypto, auths, ttl, Run(crypto, auths, ttl, EMPTY_WORLD, front).value, moves[|moves| - 1]);
    }
  }

  /** In every run a challenge's stored leg is in the log at most once, however often it is accepted and
      whatever else is submitted. */
  lemma {:induction false} LegPaysOnce(
    crypto: Crypto, auths: set<Bytes>, ttl: int, moves: seq<Move>, id: Bytes, i: nat, j: nat)
    requires Run(crypto, auths, ttl, EMPTY_WORLD, moves).Some?
    requires
      var w := Run(crypto, auths, ttl, EMPTY_WORLD, moves).value;
      && id in w.entries && i < |w.db.txs| && j < |w.db.txs|
      && w.db.txs[i].request == w.db.txs[j].request
      && crypto.decode(w.entries[id].value.leg.payload) == Some(w.db.txs[i].request)
      && NamingCount(Requests(w.db.txs), w.entries[id].value.proposer) <= TWO_64
    ensures i == j
  {
    var w := Run(crypto, auths, ttl, EMPTY_WORLD, moves).value;
    RunKeepsInv(crypto, auths, ttl, moves);
    SingleUse(Requests(w.db.txs), i, j);
  }

  lemma {:induction false} UsedLegIsRefused(players: Players, txs: seq<TxRecord>, i: nat)
    requires Booked(players, txs) && i < |txs|
    requires NamingCount(Requests(txs), txs[i].request.sender) < TWO_64
    ensures Admit(players, txs[i].request).Some?
  {
    var log, req := Requests(txs), txs[i].request;
    if Admit(players, req).None? {
      LawfulAppend(log, req);
      var longer := log + [req];
      assert longer[..|log|] == log;
      SingleUse(longer, i, |log|);
    }
  }

  /** In every run, once a challenge's stored leg is in the log, every further accept moves no tokens and
      changes no record. */
  lemma {:induction false} RepeatedAccept(
    crypto: Crypto, auths: set<Bytes>, ttl: int, moves: seq<Move>, r: Response, s: Schedule, i: nat)
    requires Run(crypto, auths, ttl, EMPTY_WORLD, moves).Some?
    requires
      var w := Run(crypto, auths, ttl, EMPTY_WORLD, moves).value;
      && Precheck(crypto, w.entries, r, s.start).None? && i < |w.db.txs|
      && crypto.decode(w.entries[r.id].value.leg.payload) == Some(w.db.txs[i].request)
      && NamingCount(Requests(w.db.txs), w.entries[r.id].value.proposer) < TWO_64
    ensures
      var w := Run(crypto, auths, ttl, EMPTY_WORLD, moves).value;
      Respond(crypto, auths, w, r, s) == (w, ProposerLegFailed)
  {
    var w := Run(crypto, auths, ttl, EMPTY_WORLD, moves).value;
    var c := w.entries[r.id].value;
    RunKeepsInv(crypto, auths, ttl, moves);
    GatePassesVerifiedLeg(crypto, auths, c.leg, c.proposer, c.opponent, c.offer);
    UsedLegIsRefused(w.db.players, w.db.txs, i);
  }

  lemma {:induction false} MoveFollows(crypto: Crypto, auths: set<Bytes>, ttl: int, w: World, m: Move, id: Bytes)
    requires id in w.entries && !(m.Propose? && m.id in w.entries)
    ensures
      var w' := Moved(crypto, auths, ttl, w, m);
      id in w'.entries && Follows(w.entries[id], w'.entries[id])
  {
    if m.Answer? { RespondFollows(crypto, auths, w, m.response, m.schedule, id); }
  }

  /** Over every run of proposals, answers and other submissions a stored challenge keeps its terms and its
      signed leg, and its status leaves Pending at most once, for Declined or Completed. */
  lemma {:induction false} StatusIsFinal(
    crypto: Crypto, auths: set<Bytes>, ttl: int, w: World, moves: seq<Move>, id: Bytes)
    requires id in w.entries && Run(crypto, auths, ttl, w, moves).Some?
    ensures
      var w' := Run(crypto, auths, ttl, w, moves).value;
      id in w'.entries && Follows(w.entries[id], w'.entries[id])
  {
    if moves != [] {
      var front := moves[..|moves| - 1];
      StatusIsFinal(crypto, auths, ttl, w, front, id);
      MoveFollows(crypto, auths, ttl, Run(crypto, auths, ttl, w, front).value, moves[|moves| - 1], id);
    }
  }

  /** Over every run a challenge that has left Pending moves nothing any more: no later answer changes the
      ledger or a record. */
  lemma {:induction false} ClosedForGood(
    crypto: Crypto, auths: set<Bytes>, ttl: int, w: World, moves: seq<Move>, r: Response, s: Schedule)
    requires r.id in w.entries && w.entries[r.id].value.status != Pending
    requires Run(crypto, auths, ttl, w, moves).Some?
    ensures
      var w' := Run(crypto, auths, ttl, w, moves).value;
      Respond(crypto, auths, w', r, s).0 == w'
  {
    StatusIsFinal(crypto, auths, ttl, w, moves, r.id);
  }

  /** A decline is final: over every run after it, no answer to the challenge changes the ledger or a record. */
  lemma {:induction false} DeclineIsFinal(
    crypto: Crypto, auths: set<Bytes>, ttl: int, w: World, r: Response, s: Schedule, moves: seq<Move>,
    r': Response, s': Schedule)
    requires Respond(crypto, auths, w, r, s).1 == DeclineDone && r'.id == r.id
    requires Run(crypto, auths, ttl, Respond(crypto, auths, w, r, s).0, moves).Some?
    ensures
      var w' := Run(crypto, auths, ttl, Respond(crypto, auths, w, r, s).0, moves).value;
      Respond(crypto, auths, w', r', s').0 == w'
  {
    RefusalMeans(crypto, auths, w, r, s);
    DeclineMeans(crypto, auths, w, r, s);
    ClosedForGood(crypto, auths, ttl, Respond(crypto, auths, w, r, s).0, moves, r', s');
  }

  // ---------------------------------------------------------------- who moves the tokens

  /** The signed payloads that a move presents. */
  ghost function SignedIn(m: Move): set<Signed> {
    match m
    case Propose(p, _, _) => {p.leg}
    case Answer(r, s) => {r.leg} + set j | 0 <= j < |s.others| :: s.others[j].signed
    case Outside(sub) => {sub.signed}
  }

  ghost function Presented(moves: seq<Move>): set<Signed> {
    if moves == [] then {} else Presented(moves[..|moves| - 1]) + SignedIn(moves[|moves| - 1])
  }

  /** Stored legs have been presented, and every row is authorised by something that has. */
  ghost predicate WorldAuthorised(crypto: Crypto, auths: set<Bytes>, presented: set<Signed>, w: World) {
    && (forall id :: id in w.entries ==> w.entries[id].value.leg in presented)
    && RowsAuthorised(crypto, auths, presented, w.db.txs)
  }

  lemma {:induction false} MorePresented(
    crypto: Crypto, auths: set<Bytes>, presented: set<Signed>, more: set<Signed>, w: World)
    requires WorldAuthorised(crypto, auths, presented, w) && presented <= more
    ensures WorldAuthorised(crypto, auths, more, w)
  {
    forall i | 0 <= i < |w.db.txs| ensures RequestAuthorised(crypto, auths, more, w.db.txs[i].request) {
      assert RequestAuthorised(crypto, auths, presented, w.db.txs[i].request);
    }
  }

  lemma {:induction false} RespondAuthorised(
    crypto: Crypto, auths: set<Bytes>, presented: set<Signed>, w: World, r: Response, s: Schedule)
    requires WorldAuthorised(crypto, auths, presented, w) && SignedIn(Answer(r, s)) <= presented
    ensures RowsAuthorised(crypto, auths, presented, Respond(crypto, auths, w, r, s).0.db.txs)
  {
    if Precheck(crypto, w.entries, r, s.start).None? {
      var first := First(w.entries[r.id].value, s);
      var d1 := Step(crypto, auths, w.db, first);
      forall j | 0 <= j < |s.others| ensures s.others[j].signed in presented {
        assert s.others[j].signed in SignedIn(Answer(r, s));
      }
      StepAuthorised(crypto, auths, presented, w.db, first);
      StepsAuthorised(crypto, auths, presented, d1, s.others);
      StepAuthorised(crypto, auths, presented, Steps(crypto, auths, d1, s.others), Second(r, s));
    }
  }

  lemma {:induction false} LegsStay(
    crypto: Crypto, auths: set<Bytes>, w: World, r: Response, s: Schedule, presented: set<Signed>)
    requires forall id :: id in w.entries ==> w.entries[id].value.leg in presented
    ensures
      var entries' := Respond(crypto, auths, w, r, s).0.entries;
      forall id :: id in entries' ==> entries'[id].value.leg in presented
  {
    var entries' := Respond(crypto, auths, w, r, s).0.entries;
    forall id | id in entries' ensures entries'[id].value.leg in presented {
      if id in w.entries {
        RespondFollows(crypto, auths, w, r, s, id);
      } else if other :| other in w.entries {
        RespondFollows(crypto, auths, w, r, s, other);
      }
    }
  }

  lemma {:induction false} MoveAuthorised(
    crypto: Crypto, auths: set<Bytes>, ttl: int, presented: set<Signed>, w: World, m: Move)
    requires WorldAuthorised(crypto, auths, presented, w) && SignedIn(m) <= presented
    ensures WorldAuthorised(crypto, auths, presented, Moved(crypto, auths, ttl, w, m))
  {
    match m
    case Propose(_, _, _) =>
    case Answer(r, s) =>
      RespondAuthorised(crypto, auths, presented, w, r, s);
      LegsStay(crypto, auths, w, r, s, presented);
    case Outside(sub) => StepAuthorised(crypto, auths, presented, w.db, sub);
  }

  lemma {:induction false} RunAuthorised(crypto: Crypto, auths: set<Bytes>, ttl: int, moves: seq<Move>)
    requires Run(crypto, auths, ttl, EMPTY_WORLD, moves).Some?
    ensures WorldAuthorised(crypto, auths, Presented(moves), Run(crypto, auths, ttl, EMPTY_WORLD, moves).value)
  {
    if moves != [] {
      var front, m := moves[..|moves| - 1], moves[|moves| - 1];
      var w := Run(crypto, auths, ttl, EMPTY_WORLD, front).value;
      RunAuthorised(crypto, auths, ttl, front);
      MorePresented(crypto, auths, Presented(front), Presented(moves), w);
      MoveAuthorised(crypto, auths, ttl, Presented(moves), w, m);
    }
  }

  /** In every run of proposals, answers and other submissions every row of the log is authorised by a signed
      payload that some move presented; without a registered key among them nothing is minted. */
  lemma {:induction false} OnlyAuthorisedInRuns(
    crypto: Crypto, auths: set<Bytes>, ttl: int, moves: seq<Move>, c: Channel)
    requires Run(crypto, auths, ttl, EMPTY_WORLD, moves).Some?
    ensures
      var txs := Run(crypto, auths, ttl, EMPTY_WORLD, moves).value.db.txs;
      && RowsAuthorised(crypto, auths, Presented(moves), txs)
      && ((forall s :: s in Presented(moves) ==> s.pubKey !in auths) ==> Minted(Requests(txs), c) == 0)
  {
    RunAuthorised(crypto, auths, ttl, moves);
    if forall s :: s in Presented(moves) ==> s.pubKey !in auths {
      NoAuthorityNoMint(crypto, auths, Presented(moves),
                        Run(crypto, auths, ttl, EMPTY_WORLD, moves).value.db.txs, c);
    }
  }
}
