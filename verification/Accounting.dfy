/** Laws of every ledger history: nonces count transactions, a signed payload commits at most once,
    and the books balance. A history is the list of committed requests, oldest first. The laws hold
    for every history the service can commit, self-transactions included. */
module Accounting {
  import opened Wrappers
  import opened Encoding
  import opened Engine
  import opened Ledger

  type History = seq<Request>

  /** The players table after a history, or None if some request was not admitted at its turn. */
  ghost function Replay(log: History): Option<Players> {
    if log == [] then Some(map[])
    else
      var before := Replay(log[..|log| - 1]);
      var req := log[|log| - 1];
      if before.Some? && Admit(before.value, req).None? then Some(Settle(before.value, req)) else None
  }

  ghost predicate Lawful(log: History) {
    Replay(log).Some?
  }

  ghost function PlayersAfter(log: History): Players
    requires Lawful(log)
  {
    Replay(log).value
  }

  lemma {:induction false} LawfulPrefix(log: History, n: nat)
    requires Lawful(log) && n <= |log|
    ensures Lawful(log[..n])
    ensures n < |log| ==> Admit(PlayersAfter(log[..n]), log[n]).None?
  {
    if n < |log| {
      var m := |log| - 1;
      assert log[..m][..n] == log[..n];
      if n < m {
        LawfulPrefix(log[..m], n);
      }
    } else {
      assert log[..n] == log;
    }
  }

  /** Submitting an admitted request appends it to the history. */
  lemma LawfulAppend(log: History, req: Request)
    requires Lawful(log) && Admit(PlayersAfter(log), req).None?
    ensures Lawful(log + [req]) && PlayersAfter(log + [req]) == Settle(PlayersAfter(log), req)
  {
    assert (log + [req])[..|log|] == log;
  }

  /** The requests of the log, oldest first. */
  function Requests(txs: seq<TxRecord>): (r: History)
    ensures |r| == |txs| && forall i :: 0 <= i < |r| ==> r[i] == txs[i].request
  {
    if txs == [] then [] else Requests(txs[..|txs| - 1]) + [txs[|txs| - 1].request]
  }

  /** The players table is the replay of the log. */
  ghost predicate Booked(players: Players, txs: seq<TxRecord>) {
    Lawful(Requests(txs)) && players == PlayersAfter(Requests(txs))
  }

  lemma {:induction false} BookedAppend(players: Players, txs: seq<TxRecord>, tx: TxRecord)
    requires Booked(players, txs) && Admit(players, tx.request).None?
    ensures Booked(Settle(players, tx.request), txs + [tx])
  {
    assert Requests(txs + [tx]) == Requests(txs) + [tx.request];
    LawfulAppend(Requests(txs), tx.request);
  }

  lemma {:induction false} HistoryBounded(log: History)
    requires Lawful(log)
    ensures Bounded(PlayersAfter(log))
  {
    if log != [] {
      HistoryBounded(log[..|log| - 1]);
      SettleBounded(PlayersAfter(log[..|log| - 1]), log[|log| - 1]);
    }
  }

  // ---------------------------------------------------------------- nonces

  predicate Names(req: Request, p: Bytes) {
    req.sender == p || req.receiver == p
  }

  /** How many requests name p as sender or receiver; one that names p twice counts once. */
  ghost function NamingCount(log: History, p: Bytes): nat {
    if log == [] then 0
    else NamingCount(log[..|log| - 1], p) + if Names(log[|log| - 1], p) then 1 else 0
  }

  lemma StepNonce(players: Players, req: Request, p: Bytes)
    requires Admit(players, req).None?
    ensures Row(Settle(players, req), p).nonce
            == if Names(req, p) then NextNonce(Row(players, p).nonce) else Row(players, p).nonce
  {}

  lemma {:induction false} NonceCensus(log: History, p: Bytes)
    requires Lawful(log)
    ensures Row(PlayersAfter(log), p).nonce == NamingCount(log, p) % TWO_64
  {
    if log != [] {
      NonceCensus(log[..|log| - 1], p);
      StepNonce(PlayersAfter(log[..|log| - 1]), log[|log| - 1], p);
      SuccessorModulo(NamingCount(log[..|log| - 1], p));
    }
  }

  lemma {:induction false} NamingCountMonotone(log: History, n: nat, p: Bytes)
    requires n <= |log|
    ensures NamingCount(log[..n], p) <= NamingCount(log, p)
    ensures n < |log| && Names(log[n], p) ==> NamingCount(log[..n], p) < NamingCount(log, p)
  {
    if n < |log| {
      var m := |log| - 1;
      assert log[..m][..n] == log[..n];
      if n < m { NamingCountMonotone(log[..m], n, p); }
    } else {
      assert log[..n] == log;
    }
  }

  /** A committed request carries its sender's count at that point. */
  lemma CommittedNonce(log: History, i: nat)
    requires Lawful(log) && i < |log|
    ensures log[i].nonce == NamingCount(log[..i], log[i].sender) % TWO_64
  {
    LawfulPrefix(log, i);
    NonceCensus(log[..i], log[i].sender);
  }

  lemma {:induction false} ExactNonce(log: History, i: nat)
    requires Lawful(log) && i < |log| && NamingCount(log, log[i].sender) <= TWO_64
    ensures log[i].nonce == NamingCount(log[..i], log[i].sender)
  {
    CommittedNonce(log, i);
    NamingCountMonotone(log, i, log[i].sender);
  }

  /** While a player is named at most 2^64 times, the nonces it sends with strictly increase. */
  lemma {:induction false} SenderNoncesIncrease(log: History, i: nat, j: nat)
    requires Lawful(log) && i < j < |log| && log[i].sender == log[j].sender
    requires NamingCount(log, log[i].sender) <= TWO_64
    ensures log[i].nonce < log[j].nonce
  {
    ExactNonce(log, i);
    ExactNonce(log, j);
    assert log[..j][..i] == log[..i] && log[..j][i] == log[i];
    NamingCountMonotone(log[..j], i, log[i].sender);
  }

  /** A signed payload commits at most once, whatever is retried or interleaved. */
  lemma {:induction false} SingleUse(log: History, i: nat, j: nat)
    requires Lawful(log) && i < |log| && j < |log| && log[i] == log[j]
    requires NamingCount(log, log[i].sender) <= TWO_64
    ensures i == j
  {
    if i < j {
      SenderNoncesIncrease(log, i, j);
    } else if j < i {
      SenderNoncesIncrease(log, j, i);
    }
  }

  // ---------------------------------------------------------------- one player's books

  ghost function Received(log: History, p: Bytes, c: Channel): nat {
    if log == [] then 0
    else
      var req := log[|log| - 1];
      Received(log[..|log| - 1], p, c) + if req.receiver == p then req.amount.At(c) else 0
  }

  ghost function Sent(log: History, p: Bytes, c: Channel): nat {
    if log == [] then 0
    else
      var req := log[|log| - 1];
      Sent(log[..|log| - 1], p, c) + if req.sender == p && req.txType.Transfer? then req.amount.At(c) else 0
  }

  /** What the receiver of an admitted request does not get: the part of a credit above 255, or all of
      a mint to oneself. */
  function LostBy(players: Players, req: Request, c: Channel): nat {
    if req.sender == req.receiver && req.txType.Mint? then req.amount.At(c)
    else
      var due := Row(players, req.receiver).balance.At(c) + req.amount.At(c);
      due - Clamp(due)
  }

  /** The debit of a transfer to oneself, which the second save overwrites. */
  function SkippedDebit(req: Request, c: Channel): nat {
    if req.sender == req.receiver && req.txType.Transfer? then req.amount.At(c) else 0
  }

  ghost function Lost(log: History, p: Bytes, c: Channel): nat
    requires Lawful(log)
  {
    if log == [] then 0
    else
      var req := log[|log| - 1];
      Lost(log[..|log| - 1], p, c)
      + if req.receiver == p then LostBy(PlayersAfter(log[..|log| - 1]), req, c) else 0
  }

  ghost function Skipped(log: History, p: Bytes, c: Channel): nat {
    if log == [] then 0
    else
      var req := log[|log| - 1];
      Skipped(log[..|log| - 1], p, c) + if req.sender == p then SkippedDebit(req, c) else 0
  }

  lemma StepBalance(players: Players, req: Request, p: Bytes, c: Channel)
    requires Admit(players, req).None?
    ensures Row(Settle(players, req), p).balance.At(c)
            + (if req.receiver == p then LostBy(players, req, c) else 0)
            + (if req.sender == p && req.txType.Transfer? then req.amount.At(c) else 0)
            == Row(players, p).balance.At(c)
            + (if req.receiver == p then req.amount.At(c) else 0)
            + (if req.sender == p then SkippedDebit(req, c) else 0)
  {}

  /** The exact account of every player and channel after every history. */
  lemma {:induction false} BooksBalance(log: History, p: Bytes, c: Channel)
    requires Lawful(log)
    ensures Row(PlayersAfter(log), p).balance.At(c) + Lost(log, p, c) + Sent(log, p, c)
            == Received(log, p, c) + Skipped(log, p, c)
  {
    if log != [] {
      var front, req := log[..|log| - 1], log[|log| - 1];
      BooksBalance(front, p, c);
      StepBalance(PlayersAfter(front), req, p, c);
    }
  }

  /** Player p transfers nothing to itself. */
  ghost predicate NeverPaysItself(log: History, p: Bytes) {
    forall i :: 0 <= i < |log| ==> !(log[i].sender == log[i].receiver == p && log[i].txType.Transfer?)
  }

  lemma {:induction false} NothingSkipped(log: History, p: Bytes, c: Channel)
    requires NeverPaysItself(log, p)
    ensures Skipped(log, p, c) == 0
  {
    if log != [] { NothingSkipped(log[..|log| - 1], p, c); }
  }

  /** A balance is at most receipts minus payments exactly if at least as much was cut from credits to the
      player as it was not charged in transfers to itself. A player that pays itself nothing has at most
      that balance, and has it exactly when no credit was cut. */
  lemma {:induction false} DoubleEntry(log: History, p: Bytes, c: Channel)
    requires Lawful(log)
    ensures Row(PlayersAfter(log), p).balance.At(c) <= Received(log, p, c) - Sent(log, p, c)
            <==> Skipped(log, p, c) <= Lost(log, p, c)
    ensures NeverPaysItself(log, p) ==>
      && Row(PlayersAfter(log), p).balance.At(c) <= Received(log, p, c) - Sent(log, p, c)
      && (Row(PlayersAfter(log), p).balance.At(c) == Received(log, p, c) - Sent(log, p, c) <==> Lost(log, p, c) == 0)
  {
    BooksBalance(log, p, c);
    if NeverPaysItself(log, p) { NothingSkipped(log, p, c); }
  }

  // ---------------------------------------------------------------- the supply

  /** The sum of one channel over all players. */
  ghost function Supply(players: Players, c: Channel): nat {
    if players == map[] then 0
    else
      var id :| id in players;
      players[id].balance.At(c) + Supply(players - {id}, c)
  }

  lemma {:induction false} SupplySplit(players: Players, id: Bytes, c: Channel)
    requires id in players
    ensures Supply(players, c) == players[id].balance.At(c) + Supply(players - {id}, c)
  {
    var first :| first in players && Supply(players, c) == players[first].balance.At(c) + Supply(players - {first}, c);
    if first != id {
      SupplySplit(players - {first}, id, c);
      SupplySplit(players - {id}, first, c);
      assert players - {first} - {id} == players - {id} - {first};
    }
  }

  lemma SupplyUpdate(players: Players, row: PlayerRecord, id: Bytes, c: Channel)
    ensures Supply(players[id := row], c) + Row(players, id).balance.At(c)
            == Supply(players, c) + row.balance.At(c)
  {
    var updated := players[id := row];
    SupplySplit(updated, id, c);
    assert updated - {id} == players - {id};
    if id in players {
      SupplySplit(players, id, c);
    } else {
      assert players - {id} == players;
    }
  }

  lemma TwoRowUpdate(players: Players, row: PlayerRecord, id: Bytes, row': PlayerRecord, id': Bytes, c: Channel)
    requires id != id'
    ensures Supply(players[id := row][id' := row'], c)
            + Row(players, id).balance.At(c) + Row(players, id').balance.At(c)
            == Supply(players, c) + row.balance.At(c) + row'.balance.At(c)
  {
    SupplyUpdate(players, row, id, c);
    SupplyUpdate(players[id := row], row', id', c);
  }

  /** One request changes the supply by what it mints, less what is cut, plus a skipped debit. */
  lemma {:induction false} StepSupply(players: Players, req: Request, c: Channel)
    requires Admit(players, req).None?
    ensures Supply(Settle(players, req), c) + LostBy(players, req, c)
            == Supply(players, c) + (if req.txType.Mint? then req.amount.At(c) else 0) + SkippedDebit(req, c)
  {
    var after := Settle(players, req);
    StepBalance(players, req, req.sender, c);
    StepBalance(players, req, req.receiver, c);
    if req.sender == req.receiver {
      SupplyUpdate(players, after[req.sender], req.sender, c);
    } else {
      TwoRowUpdate(players, after[req.sender], req.sender, after[req.receiver], req.receiver, c);
    }
  }

  /** An admitted transfer creates tokens exactly when a player pays itself a positive amount on a
      channel that is not full. */
  lemma {:induction false} TransferCreatesTokens(players: Players, req: Request, c: Channel)
    requires Bounded(players) && Admit(players, req).None? && req.txType.Transfer?
    ensures Supply(Settle(players, req), c) > Supply(players, c)
            <==> req.sender == req.receiver && req.amount.At(c) > 0 && Row(players, req.sender).balance.At(c) < 255
  {
    StepSupply(players, req, c);
  }

  ghost function Minted(log: History, c: Channel): nat {
    if log == [] then 0
    else
      var req := log[|log| - 1];
      Minted(log[..|log| - 1], c) + if req.txType.Mint? then req.amount.At(c) else 0
  }

  ghost function LostInAll(log: History, c: Channel): nat
    requires Lawful(log)
  {
    if log == [] then 0
    else LostInAll(log[..|log| - 1], c) + LostBy(PlayersAfter(log[..|log| - 1]), log[|log| - 1], c)
  }

  ghost function SkippedInAll(log: History, c: Channel): nat {
    if log == [] then 0 else SkippedInAll(log[..|log| - 1], c) + SkippedDebit(log[|log| - 1], c)
  }

  /** Conservation: after every history the supply and the lost tokens are the minted ones and the
      skipped debits. */
  lemma {:induction false} SupplyLaw(log: History, c: Channel)
    requires Lawful(log)
    ensures Supply(PlayersAfter(log), c) + LostInAll(log, c) == Minted(log, c) + SkippedInAll(log, c)
  {
    if log != [] {
      SupplyLaw(log[..|log| - 1], c);
      StepSupply(PlayersAfter(log[..|log| - 1]), log[|log| - 1], c);
    }
  }

  ghost predicate NoSelfTransfers(log: History) {
    forall i :: 0 <= i < |log| ==> log[i].sender != log[i].receiver || log[i].txType.Mint?
  }

  lemma {:induction false} NothingSkippedInAll(log: History, c: Channel)
    requires NoSelfTransfers(log)
    ensures SkippedInAll(log, c) == 0
  {
    if log != [] { NothingSkippedInAll(log[..|log| - 1], c); }
  }

  /** The supply stays within what was minted exactly if at least as much was cut from credits as was not
      charged in transfers of players to themselves; always so when there are none of these. */
  lemma {:induction false} SupplyNeverExceedsMinted(log: History, c: Channel)
    requires Lawful(log)
    ensures Supply(PlayersAfter(log), c) <= Minted(log, c) <==> SkippedInAll(log, c) <= LostInAll(log, c)
    ensures NoSelfTransfers(log) ==> Supply(PlayersAfter(log), c) <= Minted(log, c)
  {
    SupplyLaw(log, c);
    if NoSelfTransfers(log) { NothingSkippedInAll(log, c); }
  }

  /** One token minted to a player. */
  function OneMint(a: Bytes, p: Bytes): Request {
    Request(Mint, a, p, Rgb(1, 0, 0), 0)
  }

  /** The player pays it to itself. */
  function PaysItself(p: Bytes): Request {
    Request(Transfer, p, p, Rgb(1, 0, 0), 1)
  }

  lemma {:induction false} AfterOneMint(a: Bytes, p: Bytes, log: History)
    requires a != [] && p != [] && a != p && log == [OneMint(a, p)]
    ensures Lawful(log) && Row(PlayersAfter(log), p) == PlayerRecord(p, Rgb(1, 0, 0), 1)
    ensures Supply(PlayersAfter(log), Red) == 1 && Minted(log, Red) == 1
  {
    var empty: History := [];
    assert log[..0] == empty && empty + log == log;
    LawfulAppend(empty, log[0]);
    StepSupply(map[], log[0], Red);
    assert Minted(log, Red) == Minted(empty, Red) + 1;
  }

  /** A history in which the supply exceeds what was minted: one token is minted to a player, who then
      pays it to itself. */
  lemma {:induction false} SelfTransferInflates(a: Bytes, p: Bytes)
    requires a != [] && p != [] && a != p
    ensures
      var log := [OneMint(a, p), PaysItself(p)];
      Lawful(log) && Supply(PlayersAfter(log), Red) == 2 && Minted(log, Red) == 1
  {
    var mint, log := [OneMint(a, p)], [OneMint(a, p), PaysItself(p)];
    assert log[..1] == mint && mint + [PaysItself(p)] == log;
    AfterOneMint(a, p, mint);
    LawfulAppend(mint, PaysItself(p));
    StepSupply(PlayersAfter(mint), PaysItself(p), Red);
  }

  /** There the reply and the stored row differ: the client is told that nothing is left, and two tokens
      are stored. */
  lemma {:induction false} SelfTransferReply(a: Bytes, p: Bytes)
    requires a != [] && p != [] && a != p
    ensures
      var log, self := [OneMint(a, p)], PaysItself(p);
      && Lawful(log) && Admit(PlayersAfter(log), self).None?
      && Reply(PlayersAfter(log), self).balance == NO_TOKENS
      && Settle(PlayersAfter(log), self)[p].balance == Rgb(2, 0, 0)
  {
    AfterOneMint(a, p, [OneMint(a, p)]);
  }
}
