/** The ledger's account machine (internal/app/service/ledger.go, SubmitTransaction).

    The service works on two copies of player rows, narrows integers on the way to the engine and
    saves the copies one after the other inside a database transaction. It is proved to do exactly
    what the functions Admit and Settle say on unbounded integers. */
module Ledger {
  import opened Wrappers
  import opened Encoding
  import opened Engine

  datatype Channel = Red | Green | Blue

  datatype Rgb = Rgb(red: uint32, green: uint32, blue: uint32) {
    function At(c: Channel): uint32 {
      match c
      case Red => red
      case Green => green
      case Blue => blue
    }
  }

  datatype TxType = Transfer | Mint

  /** A transaction as the driving adapter hands it over: signature and authority already verified. */
  datatype Request = Request(txType: TxType, sender: Bytes, receiver: Bytes, amount: Rgb, nonce: uint64)

  datatype PlayerRecord = PlayerRecord(id: Bytes, balance: Rgb, nonce: uint64)

  type Players = map<Bytes, PlayerRecord>

  /** A row of the transactions table; `height` is the block it is sealed in, if any. */
  datatype TxRecord = TxRecord(hash: Bytes, request: Request, timestamp: int64, height: Option<uint64>)

  datatype Error =
    | EmptyId
    | AmountTooLarge
    | NonceMismatch(expected: uint64, got: uint64)
    | InsufficientBalance
    | DuplicateHash

  datatype Outcome = Rejected(error: Error) | Committed(newBalance: PlayerRecord)

  // ---------------------------------------------------------------- what a transaction does

  const NO_TOKENS := Rgb(0, 0, 0)

  /** A player that was never stored reads as a zero row. */
  function Row(players: Players, id: Bytes): PlayerRecord {
    if id in players then players[id] else PlayerRecord(id, NO_TOKENS, 0)
  }

  predicate Within(a: Rgb, limit: uint32) {
    a.red <= limit && a.green <= limit && a.blue <= limit
  }

  predicate Covers(balance: Rgb, a: Rgb) {
    a.red <= balance.red && a.green <= balance.green && a.blue <= balance.blue
  }

  function Credit(balance: Rgb, a: Rgb): Rgb {
    Rgb(Clamp(balance.red + a.red), Clamp(balance.green + a.green), Clamp(balance.blue + a.blue))
  }

  function Debit(balance: Rgb, a: Rgb): Rgb
    requires Covers(balance, a)
  {
    Rgb(balance.red - a.red, balance.green - a.green, balance.blue - a.blue)
  }

  function MaxAmount(t: TxType): uint32 {
    if t.Mint? then 127 else 255
  }

  /** The first reason to reject the request, if there is one. */
  function Admit(players: Players, req: Request): Option<Error> {
    if req.sender == [] || req.receiver == [] then Some(EmptyId)
    else if !Within(req.amount, MaxAmount(req.txType)) then Some(AmountTooLarge)
    else if Row(players, req.sender).nonce != req.nonce then
      Some(NonceMismatch(Row(players, req.sender).nonce, req.nonce))
    else if req.txType.Transfer? && !Covers(Row(players, req.sender).balance, req.amount) then Some(InsufficientBalance)
    else None
  }

  /** Exactly what is admitted. */
  lemma AdmitMeans(players: Players, req: Request)
    ensures
      var limit := if req.txType.Mint? then 127 else 255;
      var sender := Row(players, req.sender);
      Admit(players, req).None? <==>
        && req.sender != [] && req.receiver != []
        && req.amount.red <= limit && req.amount.green <= limit && req.amount.blue <= limit
        && req.nonce == sender.nonce
        && (req.txType.Mint?
            || (req.amount.red <= sender.balance.red && req.amount.green <= sender.balance.green
                && req.amount.blue <= sender.balance.blue))
  {}

  /** Which reason is given: an empty ID before an amount over the limit, that before a wrong nonce, and that
      before a missing balance. */
  lemma RefusalMeans(players: Players, req: Request)
    ensures
      var limit := if req.txType.Mint? then 127 else 255;
      var empty := req.sender == [] || req.receiver == [];
      var tooLarge := req.amount.red > limit || req.amount.green > limit || req.amount.blue > limit;
      var expected := Row(players, req.sender).nonce;
      && (Admit(players, req) == Some(EmptyId) <==> empty)
      && (Admit(players, req) == Some(AmountTooLarge) <==> !empty && tooLarge)
      && (Admit(players, req) == Some(NonceMismatch(expected, req.nonce)) <==>
            !empty && !tooLarge && req.nonce != expected)
      && (Admit(players, req) == Some(InsufficientBalance) ==>
            !empty && !tooLarge && req.nonce == expected && req.txType.Transfer?)
  {}

  /** The players table after an admitted request. When sender and receiver are the same row the
      second save wins: a mint keeps the sender's old balance, a transfer the receiver's credit. */
  function Settle(players: Players, req: Request): Players
    requires Admit(players, req).None?
  {
    var s, r := Row(players, req.sender), Row(players, req.receiver);
    if req.sender == req.receiver then
      var balance := if req.txType.Mint? then s.balance else Credit(s.balance, req.amount);
      players[req.sender := s.(balance := balance, nonce := NextNonce(s.nonce))]
    else
      var balance := if req.txType.Mint? then s.balance else Debit(s.balance, req.amount);
      players[req.sender := s.(balance := balance, nonce := NextNonce(s.nonce))]
             [req.receiver := r.(balance := Credit(r.balance, req.amount), nonce := NextNonce(r.nonce))]
  }

  /** Rows are stored under their own ID and no balance exceeds a colour channel. */
  ghost predicate Bounded(players: Players) {
    forall id :: id in players ==> players[id].id == id && Within(players[id].balance, 255)
  }

  function Capped(balance: uint32, amount: uint32): uint32 {
    if balance + amount > 255 then 255 else ToUint32(balance + amount)
  }

  function CappedSum(a: Rgb, b: Rgb): Rgb {
    Rgb(Capped(a.red, b.red), Capped(a.green, b.green), Capped(a.blue, b.blue))
  }

  /** A transfer between two players: the sender pays the amounts in full, the receiver's channels are cut at
      255, and nobody else is touched. */
  lemma TransferMeans(players: Players, req: Request)
    requires Bounded(players) && req.txType.Transfer? && req.sender != req.receiver && Admit(players, req).None?
    ensures
      var after := Settle(players, req);
      var s, s' := Row(players, req.sender).balance, Row(after, req.sender).balance;
      && s'.red + req.amount.red == s.red && s'.green + req.amount.green == s.green
      && s'.blue + req.amount.blue == s.blue
      && Row(after, req.receiver).balance == CappedSum(Row(players, req.receiver).balance, req.amount)
      && forall q :: q != req.sender && q != req.receiver ==> Row(after, q) == Row(players, q)
  {}

  /** The row a client gets back: the copy of the receiver's row for a mint, and of the sender's row for a
      transfer, as saved. When both are one player, the other copy is saved after it. */
  function Reply(players: Players, req: Request): PlayerRecord
    requires Admit(players, req).None?
  {
    var s, r := Row(players, req.sender), Row(players, req.receiver);
    if req.txType.Mint? then r.(balance := Credit(r.balance, req.amount), nonce := NextNonce(r.nonce))
    else s.(balance := Debit(s.balance, req.amount), nonce := NextNonce(s.nonce))
  }

  lemma SettleBounded(players: Players, req: Request)
    requires Bounded(players) && Admit(players, req).None?
    ensures Bounded(Settle(players, req))
  {}

  /** Crediting the amount and debiting it, or for a mint leaving it out, come to the same. */
  predicate Immaterial(t: TxType, amount: uint32, balance: uint32) {
    amount == 0 || (t.Mint? && balance == 255)
  }

  lemma ImmaterialChannel(t: TxType, amount: uint32, balance: uint32)
    requires balance <= 255 && (t.Transfer? ==> amount <= balance)
    ensures
      if t.Mint? then Clamp(balance + amount) == balance <==> Immaterial(t, amount, balance)
      else Clamp(balance + amount) == balance - amount <==> Immaterial(t, amount, balance)
  {}

  predicate AllImmaterial(t: TxType, amount: Rgb, balance: Rgb) {
    && Immaterial(t, amount.red, balance.red)
    && Immaterial(t, amount.green, balance.green)
    && Immaterial(t, amount.blue, balance.blue)
  }

  lemma CreditMatters(t: TxType, amount: Rgb, balance: Rgb)
    requires Within(balance, 255) && (t.Transfer? ==> Covers(balance, amount))
    ensures Credit(balance, amount) == (if t.Mint? then balance else Debit(balance, amount))
            <==> AllImmaterial(t, amount, balance)
  {
    ImmaterialChannel(t, amount.red, balance.red);
    ImmaterialChannel(t, amount.green, balance.green);
    ImmaterialChannel(t, amount.blue, balance.blue);
  }

  ghost predicate ReplyStored(players: Players, req: Request)
    requires Admit(players, req).None?
  {
    Reply(players, req) == Settle(players, req)[if req.txType.Mint? then req.receiver else req.sender]
  }

  lemma OwnReply(players: Players, req: Request)
    requires Admit(players, req).None? && req.sender == req.receiver
    ensures
      var s := Row(players, req.sender);
      ReplyStored(players, req) <==>
        Credit(s.balance, req.amount) == if req.txType.Mint? then s.balance else Debit(s.balance, req.amount)
  {}

  lemma ReplyToOthers(players: Players, req: Request)
    requires Admit(players, req).None? && req.sender != req.receiver
    ensures ReplyStored(players, req)
  {}

  /** The reply is the stored row, unless a player transacts with itself and a positive amount is
      transferred, or minted to a channel that is not full. */
  lemma ReplyIsStored(players: Players, req: Request)
    requires Bounded(players) && Admit(players, req).None?
    ensures ReplyStored(players, req) <==>
      req.sender != req.receiver || AllImmaterial(req.txType, req.amount, Row(players, req.sender).balance)
  {
    if req.sender == req.receiver {
      OwnReply(players, req);
      CreditMatters(req.txType, req.amount, Row(players, req.sender).balance);
    } else {
      ReplyToOthers(players, req);
    }
  }

  /** Storing the two rows first, as FindOrCreate does, changes neither the decision nor the result. */
  lemma StoredRows(players: Players, req: Request)
    ensures
      var s, r := Row(players, req.sender), Row(players, req.receiver);
      var stored := players[req.sender := s][req.receiver := r];
      && Row(stored, req.sender) == s && Row(stored, req.receiver) == r
      && Admit(stored, req) == Admit(players, req)
      && (Admit(players, req).None? ==>
            Settle(stored, req) == Settle(players, req) && Reply(stored, req) == Reply(players, req))
  {}

  ghost predicate HashIn(txs: seq<TxRecord>, hash: Bytes) {
    exists i :: 0 <= i < |txs| && txs[i].hash == hash
  }

  // ---------------------------------------------------------------- the service

  class LedgerService {
    var players: Players
    var txs: seq<TxRecord>

    ghost predicate Valid()
      reads this
    {
      Bounded(players)
    }

    constructor ()
      ensures Valid() && players == map[] && txs == []
    {
      players, txs := map[], [];
    }

    /** Loads a copy of a row, storing a zero row first if there is none. */
    method FindOrCreate(id: Bytes) returns (player: PlayerRecord)
      requires Valid()
      modifies this`players
      ensures Valid() && player == Row(old(players), id)
      ensures players == old(players)[id := player]
    {
      if id !in players {
        players := players[id := PlayerRecord(id, NO_TOKENS, 0)];
      }
      player := players[id];
    }

    /** Overwrites the row with the record's ID. */
    method UpdateBalance(player: PlayerRecord)
      modifies this`players
      ensures players == old(players)[player.id := player]
    {
      players := players[player.id := player];
    }

    /** The hash is the primary key of the transactions table. */
    method CreateTx(record: TxRecord) returns (created: bool)
      modifies this`txs
      ensures created <==> !HashIn(old(txs), record.hash)
      ensures txs == if created then old(txs) + [record] else old(txs)
    {
      for i := 0 to |txs|
        invariant txs == old(txs)
        invariant forall j :: 0 <= j < i ==> txs[j].hash != record.hash
      {
        if txs[i].hash == record.hash {
          return false;
        }
      }
      txs := txs + [record];
      created := true;
    }

    method ApplyMint(sender: PlayerRecord, receiver: PlayerRecord, req: Request) returns (newBalance: PlayerRecord)
      requires Valid() && req.txType.Mint? && Admit(players, req).None?
      requires req.sender in players && sender == players[req.sender]
      requires req.receiver in players && receiver == players[req.receiver]
      modifies this`players
      ensures players == Settle(old(players), req)
      ensures newBalance == Reply(old(players), req)
    {
      var receiverState := PlayerState(ToUint8(receiver.balance.red), ToUint8(receiver.balance.green),
                                       ToUint8(receiver.balance.blue), receiver.nonce);
      var reward := Reward(ToInt8(req.amount.red), ToInt8(req.amount.green), ToInt8(req.amount.blue));
      var newReceiverState := PlayerCompleteMission(receiverState, reward);

      var newReceiver := receiver.(balance := Rgb(ToUint32(newReceiverState.r), ToUint32(newReceiverState.g),
                                                  ToUint32(newReceiverState.b)),
                                   nonce := newReceiverState.nonce);
      var newSender := sender.(nonce := NextNonce(sender.nonce));

      UpdateBalance(newReceiver);
      UpdateBalance(newSender);
      newBalance := newReceiver;
    }

    method ApplyTransfer(sender: PlayerRecord, receiver: PlayerRecord, req: Request) returns (newBalance: PlayerRecord)
      requires Valid() && req.txType.Transfer? && Admit(players, req).None?
      requires req.sender in players && sender == players[req.sender]
      requires req.receiver in players && receiver == players[req.receiver]
      modifies this`players
      ensures players == Settle(old(players), req)
      ensures newBalance == Reply(old(players), req)
    {
      var senderState := PlayerState(ToUint8(req.amount.red), ToUint8(req.amount.green), ToUint8(req.amount.blue),
                                     sender.nonce);
      var receiverState := PlayerState(ToUint8(receiver.balance.red), ToUint8(receiver.balance.green),
                                       ToUint8(receiver.balance.blue), receiver.nonce);
      var (newSenderState, newReceiverState) := PlayerTransactions(senderState, receiverState);

      var newSender := sender.(balance := Rgb(ToUint32(sender.balance.red - req.amount.red),
                                              ToUint32(sender.balance.green - req.amount.green),
                                              ToUint32(sender.balance.blue - req.amount.blue)),
                               nonce := newSenderState.nonce);
      var newReceiver := receiver.(balance := Rgb(ToUint32(newReceiverState.r), ToUint32(newReceiverState.g),
                                                  ToUint32(newReceiverState.b)),
                                   nonce := newReceiverState.nonce);

      UpdateBalance(newSender);
      UpdateBalance(newReceiver);
      newBalance := newSender;
    }

    /** The function run inside the database transaction. On an error the caller rolls back. */
    method TransactionBody(req: Request, txHash: Bytes, now: int64) returns (out: Outcome)
      requires Valid() && req.sender != [] && req.receiver != [] && Within(req.amount, MaxAmount(req.txType))
      modifies this
      ensures out.Rejected? ==>
        out.error == match Admit(old(players), req) case Some(e) => e case None => DuplicateHash
      ensures out.Rejected? <==> Admit(old(players), req).Some? || HashIn(old(txs), txHash)
      ensures out.Committed? ==>
        && players == Settle(old(players), req)
        && txs == old(txs) + [TxRecord(txHash, req, now, None)]
        && out.newBalance == Reply(old(players), req)
    {
      var sender := FindOrCreate(req.sender);
      var receiver := FindOrCreate(req.receiver);
      StoredRows(old(players), req);
      if sender.nonce != req.nonce {
        return Rejected(NonceMismatch(sender.nonce, req.nonce));
      }
      var newBalance;
      if req.txType.Mint? {
        newBalance := ApplyMint(sender, receiver, req);
      } else {
        if sender.balance.red < req.amount.red || sender.balance.green < req.amount.green
           || sender.balance.blue < req.amount.blue {
          return Rejected(InsufficientBalance);
        }
        newBalance := ApplyTransfer(sender, receiver, req);
      }
      var created := CreateTx(TxRecord(txHash, req, now, None));
      out := if created then Committed(newBalance) else Rejected(DuplicateHash);
    }

    /** Commits exactly the requests that Admit lets through, under an unused hash, with the effect of
        Settle. A rejected request changes nothing. */
    method SubmitTransaction(req: Request, txHash: Bytes, now: int64) returns (out: Outcome)
      requires Valid()
      modifies this
      ensures Valid()
      ensures out.Rejected? ==> players == old(players) && txs == old(txs)
      ensures out.Rejected? ==>
        out.error == match Admit(old(players), req) case Some(e) => e case None => DuplicateHash
      ensures out.Rejected? <==> Admit(old(players), req).Some? || HashIn(old(txs), txHash)
      ensures out.Committed? ==>
        && players == Settle(old(players), req)
        && txs == old(txs) + [TxRecord(txHash, req, now, None)]
        && out.newBalance == Reply(old(players), req)
    {
      if req.sender == [] || req.receiver == [] {
        return Rejected(EmptyId);
      }
      var isMint := req.txType.Mint?;
      var maxAmount: uint32 := 255;
      if isMint {
        maxAmount := 127;
      }
      if req.amount.red > maxAmount || req.amount.green > maxAmount || req.amount.blue > maxAmount {
        return Rejected(AmountTooLarge);
      }
      var savedPlayers, savedTxs := players, txs;
      out := TransactionBody(req, txHash, now);
      if out.Rejected? {
        players, txs := savedPlayers, savedTxs;
      } else {
        SettleBounded(old(players), req);
      }
    }
  }
}
