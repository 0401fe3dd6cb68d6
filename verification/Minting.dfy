/** Completing a mission: the reward is minted under a mutex that guards the authority's nonce
    (internal/app/service/game.go, CompleteMission).

    First the call on its own, then any number of calls side by side with other ledger clients. */
module Minting {
  import opened Wrappers
  import opened Encoding
  import opened Engine
  import opened Ledger
  import opened Accounting
  import opened Missions

  /** The transaction CompleteMission submits. */
  function MintRequest(authority: Bytes, player: Bytes, reward: Rgb, nonce: uint64): Ledger.Request {
    Ledger.Request(Mint, authority, player, reward, nonce)
  }

  // ---------------------------------------------------------------- one call

  ghost predicate SmallRewards(k: Keys) {
    forall id :: id in k.missions ==> Within(k.missions[id].value.reward, 127)
  }

  lemma IssueKeepsSmallRewards(k: Keys, cooldown: int, player: Bytes, tpl: Template, id: Bytes, now: int)
    requires SmallRewards(k) && tpl in POOL
    ensures SmallRewards(Issue(k, cooldown, player, tpl, id, now).0)
  {
    assert Within(tpl.reward, 5);
  }

  lemma {:induction false} CompleteKeepsSmallRewards(k: Keys, cooldown: int, id: Bytes, player: Bytes, now: int)
    requires SmallRewards(k)
    ensures SmallRewards(Complete(k, cooldown, id, player, now).0)
  {}

  /** In every run of the missions the stored rewards fit a mint, as MintService asks. */
  lemma {:induction false} RewardsFitMint(start: int, cooldown: int, calls: seq<Missions.Call>)
    requires Play(start, cooldown, calls).Some?
    ensures SmallRewards(Play(start, cooldown, calls).value.keys)
  {
    if calls != [] {
      var front, call := calls[..|calls| - 1], calls[|calls| - 1];
      RewardsFitMint(start, cooldown, front);
      var k := Play(start, cooldown, front).value.keys;
      match call
      case RequestCall(player, tpl, id, now) => IssueKeepsSmallRewards(k, cooldown, player, tpl, id, now);
      case CompleteCall(id, player, now) => CompleteKeepsSmallRewards(k, cooldown, id, player, now);
    }
  }

  /** The player gets the reward, up to 255 a channel, and no other balance changes. A mint of the authority to
      itself is lost. */
  ghost predicate PaidOut(players: Players, players': Players, authority: Bytes, player: Bytes, reward: Rgb) {
    && var before, after := Row(players, player).balance, Row(players', player).balance;
    && after == (if player == authority then before
                 else CappedSum(before, reward))
    && forall q :: q != player ==> Row(players', q).balance == Row(players, q).balance
  }

  lemma MintPays(players: Players, authority: Bytes, player: Bytes, reward: Rgb, nonce: uint64)
    requires Bounded(players) && Admit(players, MintRequest(authority, player, reward, nonce)).None?
    ensures PaidOut(players, Settle(players, MintRequest(authority, player, reward, nonce)), authority, player, reward)
    ensures player != authority ==>
      Reply(players, MintRequest(authority, player, reward, nonce))
      == Row(Settle(players, MintRequest(authority, player, reward, nonce)), player)
  {}

  datatype CompletionResult = Failed(reply: CompleteReply) | MintFailed | Minted(newBalance: PlayerRecord)

  class MintService {
    const authority: Bytes
    const missions: MissionService
    const ledger: LedgerService

    ghost predicate Valid()
      reads this, missions.repo, ledger
    {
      ledger.Valid() && SmallRewards(missions.repo.State()) && authority != []
    }

    constructor (authority: Bytes, missions: MissionService, ledger: LedgerService)
      requires authority != [] && ledger.Valid() && SmallRewards(missions.repo.State())
      ensures Valid() && this.authority == authority && this.missions == missions && this.ledger == ledger
    {
      this.authority, this.missions, this.ledger := authority, missions, ledger;
    }

    /** GetBalance: an unknown player has nonce 0. */
    method GetAuthorityNonce() returns (nonce: uint64)
      ensures nonce == Row(ledger.players, authority).nonce
    {
      nonce := if authority in ledger.players then ledger.players[authority].nonce else 0;
    }

    /** A completed mission is paid out by one committed mint of the full reward, credited up to 255 a
        channel; a mission that cannot be completed leaves the ledger alone. Once the mission is marked,
        the mint can only fail on an empty player ID or a repeated UUID. */
    method CompleteMission(id: Bytes, player: Bytes, now: int, txHash: Bytes, txTime: int64)
      returns (result: CompletionResult)
      requires Valid()
      modifies missions.repo, ledger
      ensures Valid()
      ensures missions.repo.State() == Complete(old(missions.repo.State()), missions.cooldown, id, player, now).0
      ensures
        var reply := Complete(old(missions.repo.State()), missions.cooldown, id, player, now).1;
        && (!reply.Completed? <==> result.Failed?)
        && (result.Failed? ==> result.reply == reply)
        && (result.MintFailed? <==> reply.Completed? && (player == [] || HashIn(old(ledger.txs), txHash)))
        && (!result.Minted? ==> ledger.players == old(ledger.players) && ledger.txs == old(ledger.txs))
      ensures result.Minted? ==>
        && id in old(missions.repo.missions)
        && var reward := old(missions.repo.missions)[id].value.reward;
        && var nonce := Row(old(ledger.players), authority).nonce;
        && var row := TxRecord(txHash, Ledger.Request(Mint, authority, player, reward, nonce), txTime, None);
        && ledger.txs == old(ledger.txs) + [row]
        && PaidOut(old(ledger.players), ledger.players, authority, player, reward)
        && (player != authority ==> result.newBalance == Row(ledger.players, player))
      ensures result.Minted? ==>
        var mint := MintRequest(authority, player, old(missions.repo.missions)[id].value.reward,
                                Row(old(ledger.players), authority).nonce);
        && Admit(old(ledger.players), mint).None? && ledger.players == Settle(old(ledger.players), mint)
        && result.newBalance == Reply(old(ledger.players), mint)
    {
      var reply := missions.ValidateAndComplete(id, player, now);
      if !reply.Completed? {
        return Failed(reply);
      }
      // From here to the end the mint mutex is held.
      var nonce := GetAuthorityNonce();
      ghost var before := ledger.players;
      assert Within(reply.record.reward, 127);
      var out := ledger.SubmitTransaction(MintRequest(authority, player, reply.record.reward, nonce), txHash, txTime);
      if out.Committed? { MintPays(before, authority, player, reply.record.reward, nonce); }
      result := if out.Committed? then Minted(out.newBalance) else MintFailed;
    }
  }

  // ---------------------------------------------------------------- many calls

  /** Where a CompleteMission call stands after its mission was marked complete. */
  datatype Call =
    | Waiting(player: Bytes, reward: Rgb)
    | Locked(player: Bytes, reward: Rgb)
    | HasNonce(player: Bytes, reward: Rgb, nonce: uint64)
    | Finished(player: Bytes, rejection: Option<Error>)

  datatype Mints = Mints(players: Players, mutex: Option<nat>, calls: map<nat, Call>)

  datatype Move =
    | Arrive(call: nat, player: Bytes, reward: Rgb)
    | Lock(call: nat)
    | ReadNonce(call: nat)
    | Submit(call: nat)
    | Other(req: Ledger.Request)

  ghost predicate Window(m: Mints) {
    exists call :: call in m.calls && m.calls[call].HasNonce?
  }

  /** `Other` is a transaction some other client commits. It may name the authority except between a
      call's nonce read and its mint. */
  ghost predicate CanMove(m: Mints, authority: Bytes, move: Move) {
    match move
    case Arrive(call, _, reward) => call !in m.calls && Within(reward, 127)
    case Lock(call) => call in m.calls && m.calls[call].Waiting? && m.mutex.None?
    case ReadNonce(call) => call in m.calls && m.calls[call].Locked?
    case Submit(call) => call in m.calls && m.calls[call].HasNonce?
    case Other(req) => Admit(m.players, req).None? && (Window(m) ==> !Names(req, authority))
  }

  ghost function Moved(m: Mints, authority: Bytes, move: Move): Mints
    requires CanMove(m, authority, move)
  {
    match move
    case Arrive(call, player, reward) => m.(calls := m.calls[call := Waiting(player, reward)])
    case Lock(call) =>
      m.(mutex := Some(call), calls := m.calls[call := Locked(m.calls[call].player, m.calls[call].reward)])
    case ReadNonce(call) =>
      var c := m.calls[call];
      m.(calls := m.calls[call := HasNonce(c.player, c.reward, Row(m.players, authority).nonce)])
    case Submit(call) =>
      var c := m.calls[call];
      var mint := MintRequest(authority, c.player, c.reward, c.nonce);
      var rejection := Admit(m.players, mint);
      Mints(if rejection.None? then Settle(m.players, mint) else m.players,
            None, m.calls[call := Finished(c.player, rejection)])
    case Other(req) => m.(players := Settle(m.players, req))
  }

  /** Only a mint to the empty player ID is rejected. */
  ghost predicate RightVerdict(c: Call)
    requires c.Finished?
  {
    c.rejection == if c.player == [] then Some(EmptyId) else None
  }

  /** Only the mutex holder is between lock and mint, and a nonce in hand is the current one. */
  ghost predicate MintsInv(m: Mints, authority: Bytes) {
    && (forall call :: call in m.calls && (m.calls[call].Locked? || m.calls[call].HasNonce?) ==> m.mutex == Some(call))
    && (forall call :: call in m.calls && m.calls[call].HasNonce? ==>
          m.calls[call].nonce == Row(m.players, authority).nonce)
    && (forall call :: call in m.calls && !m.calls[call].Finished? ==> Within(m.calls[call].reward, 127))
    && (forall call :: call in m.calls && m.calls[call].Finished? ==> RightVerdict(m.calls[call]))
    && (m.mutex.Some? ==> m.mutex.value in m.calls
                          && (m.calls[m.mutex.value].Locked? || m.calls[m.mutex.value].HasNonce?))
  }

  lemma OtherKeepsNonce(players: Players, req: Ledger.Request, authority: Bytes)
    requires Admit(players, req).None? && !Names(req, authority)
    ensures Row(Settle(players, req), authority) == Row(players, authority)
  {}

  lemma MoveKeepsInv(m: Mints, authority: Bytes, move: Move)
    requires authority != [] && MintsInv(m, authority) && CanMove(m, authority, move)
    ensures MintsInv(Moved(m, authority, move), authority)
  {
    if move.Other? && Window(m) {
      OtherKeepsNonce(m.players, move.req, authority);
    }
  }

  /** The state after a sequence of moves, or None if some move was not possible at its turn. */
  ghost function Moves(m: Mints, authority: Bytes, moves: seq<Move>): Option<Mints> {
    if moves == [] then Some(m)
    else
      var before := Moves(m, authority, moves[..|moves| - 1]);
      var move := moves[|moves| - 1];
      if before.Some? && CanMove(before.value, authority, move) then Some(Moved(before.value, authority, move))
      else None
  }

  lemma {:induction false} MovesKeepInv(m: Mints, authority: Bytes, moves: seq<Move>)
    requires authority != [] && MintsInv(m, authority) && Moves(m, authority, moves).Some?
    ensures MintsInv(Moves(m, authority, moves).value, authority)
  {
    if moves != [] {
      var front := moves[..|moves| - 1];
      MovesKeepInv(m, authority, front);
      MoveKeepsInv(Moves(m, authority, front).value, authority, moves[|moves| - 1]);
    }
  }

  /** From any ledger state and over any interleaving, no mint is rejected for its nonce, as long as no
      other transaction names the authority between a nonce read and its mint. */
  lemma {:induction false} NoMintRejected(players: Players, authority: Bytes, moves: seq<Move>, call: nat)
    requires authority != [] && Moves(Mints(players, None, map[]), authority, moves).Some?
    requires call in Moves(Mints(players, None, map[]), authority, moves).value.calls
    ensures
      var c := Moves(Mints(players, None, map[]), authority, moves).value.calls[call];
      c.Finished? ==> c.rejection == if c.player == [] then Some(EmptyId) else None
  {
    MovesKeepInv(Mints(players, None, map[]), authority, moves);
  }

  lemma {:induction false} NamingCountConcat(a: History, b: History, p: Bytes)
    ensures NamingCount(a + b, p) == NamingCount(a, p) + NamingCount(b, p)
  {
    if b == [] {
      assert a + b == a;
    } else {
      assert (a + b)[..|a + b| - 1] == a + b[..|b| - 1];
      NamingCountConcat(a, b[..|b| - 1], p);
    }
  }

  lemma SameRemainder(a: nat, b: nat)
    ensures (a + b) % TWO_64 == a % TWO_64 <==> b % TWO_64 == 0
  {}

  lemma {:induction false} OneMove(m: Mints, authority: Bytes, move: Move)
    requires CanMove(m, authority, move)
    ensures Moves(m, authority, [move]) == Some(Moved(m, authority, move))
  {
    assert [move][..0] == [];
  }

  lemma {:induction false} MoreMoves(m: Mints, authority: Bytes, moves: seq<Move>, move: Move)
    requires Moves(m, authority, moves).Some? && CanMove(Moves(m, authority, moves).value, authority, move)
    ensures Moves(m, authority, moves + [move]) == Some(Moved(Moves(m, authority, moves).value, authority, move))
  {
    assert (moves + [move])[..|moves|] == moves;
  }

  /** The call has ended and paid its player, and the mutex is free. */
  ghost predicate EndsPaid(m: Mints, authority: Bytes, call: nat, m': Mints)
    requires call in m.calls
  {
    && m'.mutex.None? && call in m'.calls && m'.calls[call] == Finished(m.calls[call].player, None)
    && !m.calls[call].Finished?
    && PaidOut(m.players, m'.players, authority, m.calls[call].player, m.calls[call].reward)
  }

  lemma SubmitPays(m: Mints, authority: Bytes, call: nat)
    requires authority != [] && MintsInv(m, authority) && Bounded(m.players)
    requires call in m.calls && m.calls[call].HasNonce? && m.calls[call].player != []
    ensures CanMove(m, authority, Submit(call)) && EndsPaid(m, authority, call, Moved(m, authority, Submit(call)))
  {
    var c := m.calls[call];
    MintPays(m.players, authority, c.player, c.reward, c.nonce);
  }

  /** Whoever holds the mutex can go on, is paid in full up to 255 a channel, and frees the mutex. */
  lemma {:induction false} HolderFinishes(m: Mints, authority: Bytes)
    returns (moves: seq<Move>)
    requires authority != [] && MintsInv(m, authority) && Bounded(m.players) && m.mutex.Some?
    requires m.calls[m.mutex.value].player != []
    ensures Moves(m, authority, moves).Some? && EndsPaid(m, authority, m.mutex.value, Moves(m, authority, moves).value)
  {
    var call := m.mutex.value;
    if m.calls[call].HasNonce? {
      SubmitPays(m, authority, call);
      moves := [Submit(call)];
      OneMove(m, authority, Submit(call));
    } else {
      var read := Moved(m, authority, ReadNonce(call));
      MoveKeepsInv(m, authority, ReadNonce(call));
      OneMove(m, authority, ReadNonce(call));
      SubmitPays(read, authority, call);
      MoreMoves(m, authority, [ReadNonce(call)], Submit(call));
      moves := [ReadNonce(call)] + [Submit(call)];
    }
  }

  /** A waiting call can take the free mutex, and then the above applies. */
  lemma WaitingCanLock(m: Mints, authority: Bytes, call: nat)
    requires authority != [] && MintsInv(m, authority) && call in m.calls && m.calls[call].Waiting? && m.mutex.None?
    ensures CanMove(m, authority, Lock(call))
    ensures Moved(m, authority, Lock(call)).mutex == Some(call) && MintsInv(Moved(m, authority, Lock(call)), authority)
  {
    MoveKeepsInv(m, authority, Lock(call));
  }

  /** A call that comes while the mutex is free can run through, and pays the player the reward, up to 255 a
      channel. */
  lemma {:induction false} WholeCall(m: Mints, authority: Bytes, call: nat, player: Bytes, reward: Rgb)
    returns (moves: seq<Move>)
    requires authority != [] && MintsInv(m, authority) && Bounded(m.players) && m.mutex.None?
    requires call !in m.calls && player != [] && Within(reward, 127)
    ensures Moves(m, authority, moves).Some?
    ensures
      var m' := Moves(m, authority, moves).value;
      && m'.mutex.None? && call in m'.calls && m'.calls[call] == Finished(player, None)
      && PaidOut(m.players, m'.players, authority, player, reward)
  {
    var arrive := Arrive(call, player, reward);
    var arrived := Moved(m, authority, arrive);
    OneMove(m, authority, arrive);
    MoveKeepsInv(m, authority, arrive);
    WaitingCanLock(arrived, authority, call);
    MoreMoves(m, authority, [arrive], Lock(call));
    var locked := Moved(arrived, authority, Lock(call));
    MoveKeepsInv(locked, authority, ReadNonce(call));
    MoreMoves(m, authority, [arrive] + [Lock(call)], ReadNonce(call));
    var read := Moved(locked, authority, ReadNonce(call));
    SubmitPays(read, authority, call);
    MoreMoves(m, authority, [arrive] + [Lock(call)] + [ReadNonce(call)], Submit(call));
    moves := [arrive] + [Lock(call)] + [ReadNonce(call)] + [Submit(call)];
  }

  /** The mutex alone does not help against other clients: with a nonce read before a history of other
      commits, the mint goes through exactly when those commits name the authority a multiple of 2^64
      times. */
  lemma {:induction false} MintAfterInterference(
    before: History, between: History, authority: Bytes, player: Bytes, reward: Rgb)
    requires Lawful(before) && Lawful(before + between)
    requires authority != [] && player != [] && Within(reward, 127)
    ensures
      var mint := MintRequest(authority, player, reward, Row(PlayersAfter(before), authority).nonce);
      Admit(PlayersAfter(before + between), mint).None? <==> NamingCount(between, authority) % TWO_64 == 0
  {
    NonceCensus(before, authority);
    NonceCensus(before + between, authority);
    NamingCountConcat(before, between, authority);
    SameRemainder(NamingCount(before, authority), NamingCount(between, authority));
  }
}
