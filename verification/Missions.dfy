/** Missions: the template pool, the timed key store, issuing and completing
    (internal/domain/mission/templates.go, internal/adapter/driven/redis/mission_repository.go,
    internal/app/service/mission.go). */
module Missions {
  import opened Wrappers
  import opened Encoding
  import opened Ledger
  import opened KeyStore

  // ---------------------------------------------------------------- templates

  const EASY: int := 0
  const MEDIUM: int := 1
  const HARD: int := 2

  function CooldownMultiplier(difficulty: int): int {
    if difficulty == MEDIUM then 2 else if difficulty == HARD then 4 else 1
  }

  datatype Template = Template(difficulty: int, reward: Rgb, primaryColor: int)

  const POOL: seq<Template> := [
    Template(EASY, Rgb(1, 0, 0), 0), Template(EASY, Rgb(0, 1, 0), 1), Template(EASY, Rgb(0, 0, 1), 2),
    Template(MEDIUM, Rgb(3, 0, 0), 0), Template(MEDIUM, Rgb(0, 3, 0), 1), Template(MEDIUM, Rgb(0, 0, 3), 2),
    Template(MEDIUM, Rgb(2, 1, 0), 0), Template(MEDIUM, Rgb(0, 2, 1), 1), Template(MEDIUM, Rgb(1, 0, 2), 2),
    Template(HARD, Rgb(5, 0, 0), 0), Template(HARD, Rgb(0, 5, 0), 1), Template(HARD, Rgb(0, 0, 5), 2),
    Template(HARD, Rgb(3, 2, 0), 0), Template(HARD, Rgb(0, 3, 2), 1), Template(HARD, Rgb(2, 0, 3), 2),
    Template(HARD, Rgb(2, 2, 1), 0), Template(HARD, Rgb(1, 2, 2), 2)]

  function Tokens(reward: Rgb): nat {
    reward.red + reward.green + reward.blue
  }

  // ---------------------------------------------------------------- the key store

  datatype MissionRecord = MissionRecord(
    id: Bytes, playerId: Bytes, issuedAt: int, rewardColor: int, completed: bool, difficulty: int, reward: Rgb)

  /** The three key families: missions by ID, active mission by player, end of cooldown by player. */
  datatype Keys = Keys(
    missions: map<Bytes, Timed<MissionRecord>>, active: map<Bytes, Timed<Bytes>>, cooldown: map<Bytes, int>)

  function Max(a: int, b: int): int {
    if a < b then b else a
  }

  const MIN_MISSION_TTL := 300
  const COMPLETED_TTL := 300

  function FindActive(k: Keys, player: Bytes, now: int): Option<MissionRecord> {
    match Get(k.active, player, now)
    case None => None
    case Some(id) => Get(k.missions, id, now)
  }

  function CooldownRemaining(k: Keys, player: Bytes, now: int): int {
    if player in k.cooldown && now < k.cooldown[player] then k.cooldown[player] - now else 0
  }

  function MissionTTL(missionTTL: int): int {
    if missionTTL * 2 < MIN_MISSION_TTL then MIN_MISSION_TTL else missionTTL * 2
  }

  function KeysAfterCreate(k: Keys, record: MissionRecord, missionTTL: int, now: int): Keys {
    var expires := now + MissionTTL(missionTTL);
    k.(missions := k.missions[record.id := Timed(record, expires)],
       active := k.active[record.playerId := Timed(record.id, expires)])
  }

  function KeysAfterComplete(k: Keys, id: Bytes, record: MissionRecord, player: Bytes, cooldownTTL: int, now: int)
    : Keys
  {
    k.(missions := k.missions[id := Timed(record.(completed := true), now + COMPLETED_TTL)],
       active := k.active - {player},
       cooldown := k.cooldown[player := now + cooldownTTL])
  }

  // ---------------------------------------------------------------- what a request does

  function EffectiveCooldown(cooldown: int, difficulty: int): int {
    cooldown * CooldownMultiplier(difficulty)
  }

  datatype RequestReply = AlreadyActive(id: Bytes) | OnCooldown(seconds: int) | Issued(record: MissionRecord)

  function NewRecord(tpl: Template, player: Bytes, id: Bytes, now: int): MissionRecord {
    MissionRecord(id, player, now, tpl.primaryColor, false, tpl.difficulty, tpl.reward)
  }

  function Issue(k: Keys, cooldown: int, player: Bytes, tpl: Template, id: Bytes, now: int): (Keys, RequestReply) {
    match FindActive(k, player, now)
    case Some(active) => (k, AlreadyActive(active.id))
    case None =>
      if CooldownRemaining(k, player, now) > 0 then (k, OnCooldown(CooldownRemaining(k, player, now)))
      else
        var record := NewRecord(tpl, player, id, now);
        (KeysAfterCreate(k, record, EffectiveCooldown(cooldown, tpl.difficulty), now), Issued(record))
  }

  datatype CompleteReply =
    | NotFound
    | NotYours
    | AlreadyCompleted
    | NotReady(seconds: int)
    | Completed(record: MissionRecord)

  function Complete(k: Keys, cooldown: int, id: Bytes, player: Bytes, now: int): (Keys, CompleteReply) {
    match Get(k.missions, id, now)
    case None => (k, NotFound)
    case Some(record) =>
      if record.playerId != player then (k, NotYours)
      else if record.completed then (k, AlreadyCompleted)
      else
        var wait := EffectiveCooldown(cooldown, record.difficulty);
        if now - record.issuedAt < wait then (k, NotReady(wait - (now - record.issuedAt)))
        else (KeysAfterComplete(k, id, record, player, wait, now), Completed(record.(completed := true)))
  }

  // ---------------------------------------------------------------- requests in plain terms

  /** A mission that pays one token waits one base cooldown, three tokens two, and five tokens four. */
  lemma PoolWaits(tpl: Template)
    requires tpl in POOL
    ensures
      var multiplier := CooldownMultiplier(tpl.difficulty);
      || (Tokens(tpl.reward) == 1 && multiplier == 1)
      || (Tokens(tpl.reward) == 3 && multiplier == 2)
      || (Tokens(tpl.reward) == 5 && multiplier == 4)
  {}

  /** What each reply to a completion means. */
  lemma CompletionReplies(k: Keys, cooldown: int, id: Bytes, player: Bytes, now: int)
    ensures
      var reply := Complete(k, cooldown, id, player, now).1;
      var visible := id in k.missions && now < k.missions[id].expires;
      && (reply == NotFound <==> !visible)
      && (reply == NotYours <==> visible && k.missions[id].value.playerId != player)
      && (reply == AlreadyCompleted <==>
            visible && k.missions[id].value.playerId == player && k.missions[id].value.completed)
      && (reply.NotReady? || reply.Completed? <==>
            visible && k.missions[id].value.playerId == player && !k.missions[id].value.completed)
  {}

  /** An own uncompleted mission is refused with the time left until its wait is over, and completed from then
      on. */
  lemma ReadinessReplies(k: Keys, cooldown: int, id: Bytes, player: Bytes, now: int)
    requires id in k.missions && now < k.missions[id].expires
    requires k.missions[id].value.playerId == player && !k.missions[id].value.completed
    ensures
      var m := k.missions[id].value;
      var ready := m.issuedAt + cooldown * CooldownMultiplier(m.difficulty);
      Complete(k, cooldown, id, player, now).1
      == if now < ready then NotReady(ready - now) else Completed(m.(completed := true))
  {}

  // ---------------------------------------------------------------- the repository and the service

  class MissionRepository {
    var missions: map<Bytes, Timed<MissionRecord>>
    var active: map<Bytes, Timed<Bytes>>
    var cooldown: map<Bytes, int>

    constructor ()
      ensures State() == Keys(map[], map[], map[])
    {
      missions, active, cooldown := map[], map[], map[];
    }

    function State(): Keys
      reads this
    {
      Keys(missions, active, cooldown)
    }

    method Create(record: MissionRecord, missionTTL: int, now: int)
      modifies this
      ensures State() == KeysAfterCreate(old(State()), record, missionTTL, now)
    {
      var ttl := missionTTL * 2;
      if ttl < MIN_MISSION_TTL {
        ttl := MIN_MISSION_TTL;
      }
      missions := missions[record.id := Timed(record, now + ttl)];
      active := active[record.playerId := Timed(record.id, now + ttl)];
    }

    method FindByID(id: Bytes, now: int) returns (record: Option<MissionRecord>)
      ensures record == Get(missions, id, now)
    {
      record := if id in missions && now < missions[id].expires then Some(missions[id].value) else None;
    }

    method FindActiveByPlayer(player: Bytes, now: int) returns (record: Option<MissionRecord>)
      ensures record == FindActive(State(), player, now)
    {
      if player !in active || active[player].expires <= now {
        return None;
      }
      record := FindByID(active[player].value, now);
    }

    method GetCooldownRemaining(player: Bytes, now: int) returns (ttl: int)
      ensures ttl == CooldownRemaining(State(), player, now)
    {
      ttl := if player in cooldown && now < cooldown[player] then cooldown[player] - now else -2;
      if ttl < 0 {
        ttl := 0;
      }
    }

    method CompleteMission(id: Bytes, player: Bytes, cooldownTTL: int, now: int) returns (ok: bool)
      modifies this
      ensures ok == Get(old(missions), id, now).Some?
      ensures
        State() == if ok then KeysAfterComplete(old(State()), id, old(missions[id].value), player, cooldownTTL, now)
                   else old(State())
      ensures ok ==> id in old(missions)
    {
      var found := FindByID(id, now);
      if found.None? {
        return false;
      }
      var record := found.value.(completed := true);
      missions := missions[id := Timed(record, now + COMPLETED_TTL)];
      active := active - {player};
      cooldown := cooldown[player := now + cooldownTTL];
      ok := true;
    }
  }

  class MissionService {
    const repo: MissionRepository
    const cooldown: int

    constructor (repo: MissionRepository, cooldown: int)
      ensures this.repo == repo && this.cooldown == cooldown
    {
      this.repo, this.cooldown := repo, cooldown;
    }

    /** `tpl` is the template drawn from the pool and `id` a fresh UUID. */
    method RequestMission(player: Bytes, tpl: Template, id: Bytes, now: int) returns (reply: RequestReply)
      modifies repo
      ensures (repo.State(), reply) == Issue(old(repo.State()), cooldown, player, tpl, id, now)
      ensures reply.Issued? ==>
        && reply.record == MissionRecord(id, player, now, tpl.primaryColor, false, tpl.difficulty, tpl.reward)
        && var expires := now + Max(300, 2 * (cooldown * CooldownMultiplier(tpl.difficulty)));
        && repo.missions == old(repo.missions)[id := Timed(reply.record, expires)]
        && repo.active == old(repo.active)[player := Timed(id, expires)] && repo.cooldown == old(repo.cooldown)
      ensures !reply.Issued? ==> repo.State() == old(repo.State())
    {
      var active := repo.FindActiveByPlayer(player, now);
      if active.Some? {
        return AlreadyActive(active.value.id);
      }
      var remaining := repo.GetCooldownRemaining(player, now);
      if remaining > 0 {
        return OnCooldown(remaining);
      }
      var effectiveCooldown := cooldown * CooldownMultiplier(tpl.difficulty);
      var record := MissionRecord(id, player, now, tpl.primaryColor, false, tpl.difficulty, tpl.reward);
      repo.Create(record, effectiveCooldown, now);
      reply := Issued(record);
    }

    method ValidateAndComplete(id: Bytes, player: Bytes, now: int) returns (reply: CompleteReply)
      modifies repo
      ensures (repo.State(), reply) == Complete(old(repo.State()), cooldown, id, player, now)
    {
      var found := repo.FindByID(id, now);
      if found.None? {
        return NotFound;
      }
      var record := found.value;
      if record.playerId != player {
        return NotYours;
      }
      if record.completed {
        return AlreadyCompleted;
      }
      var wait := EffectiveCooldown(cooldown, record.difficulty);
      var elapsed := now - record.issuedAt;
      if elapsed < wait {
        return NotReady(wait - elapsed);
      }
      var ok := repo.CompleteMission(id, player, wait, now);
      record := record.(completed := true);
      reply := Completed(record);
    }
  }

  // ---------------------------------------------------------------- runs

  datatype Award = Award(id: Bytes, player: Bytes, tokens: nat)

  /** The store, the time of the last call, and the rewards handed out so far. */
  datatype Game = Game(keys: Keys, clock: int, awards: seq<Award>)

  datatype Call =
    | RequestCall(player: Bytes, tpl: Template, id: Bytes, now: int)
    | CompleteCall(id: Bytes, player: Bytes, now: int)

  /** Time does not run backwards, templates come from the pool, and a new mission's ID is fresh. */
  ghost predicate Possible(g: Game, call: Call) {
    && g.clock <= call.now
    && (call.RequestCall? ==> call.tpl in POOL && call.id !in g.keys.missions)
  }

  function After(g: Game, cooldown: int, call: Call): Game {
    match call
    case RequestCall(player, tpl, id, now) => Game(Issue(g.keys, cooldown, player, tpl, id, now).0, now, g.awards)
    case CompleteCall(id, player, now) =>
      var (keys, reply) := Complete(g.keys, cooldown, id, player, now);
      Game(keys, now,
           if reply.Completed? then g.awards + [Award(id, player, Tokens(reply.record.reward))] else g.awards)
  }

  function Started(start: int): Game {
    Game(Keys(map[], map[], map[]), start, [])
  }

  /** The game after further calls, or None if some call was not possible at its turn. */
  ghost function PlayOn(g: Game, cooldown: int, calls: seq<Call>): Option<Game> {
    if calls == [] then Some(g)
    else
      var before := PlayOn(g, cooldown, calls[..|calls| - 1]);
      var call := calls[|calls| - 1];
      if before.Some? && Possible(before.value, call) then Some(After(before.value, cooldown, call)) else None
  }

  ghost function Play(start: int, cooldown: int, calls: seq<Call>): Option<Game> {
    PlayOn(Started(start), cooldown, calls)
  }

  // ---------------------------------------------------------------- the invariant

  /** The mission can still be completed: neither completed nor expired at time t. */
  ghost predicate Open(k: Keys, id: Bytes, t: int) {
    id in k.missions && t < k.missions[id].expires && !k.missions[id].value.completed
  }

  /** The player's active pointer names the mission at time t. */
  ghost predicate Points(k: Keys, player: Bytes, id: Bytes, t: int) {
    player in k.active && t < k.active[player].expires && k.active[player].value == id
  }

  ghost predicate PointersInv(k: Keys, clock: int) {
    && (forall id :: Open(k, id, clock) ==>
          var m := k.missions[id];
          Points(k, m.value.playerId, id, clock) && k.active[m.value.playerId].expires == m.expires)
    && (forall player :: player in k.active && clock < k.active[player].expires ==>
          var id := k.active[player].value;
          && Open(k, id, clock)
          && k.missions[id].value.playerId == player && k.missions[id].expires == k.active[player].expires)
  }

  /** Tokens per unit of waiting: at most three for two. */
  ghost predicate FairReward(difficulty: int, reward: Rgb) {
    4 * Tokens(reward) <= 6 * CooldownMultiplier(difficulty)
  }

  ghost predicate RecordsInv(g: Game) {
    forall id :: id in g.keys.missions ==>
      g.keys.missions[id].value.id == id
      && FairReward(g.keys.missions[id].value.difficulty, g.keys.missions[id].value.reward)
  }

  /** When the player's last cooldown ends, or the start of the run. */
  function LastEnd(k: Keys, start: int, player: Bytes): int {
    if player in k.cooldown then k.cooldown[player] else start
  }

  /** An open mission was issued after its player's last cooldown had ended. */
  ghost predicate IssueInv(start: int, k: Keys, clock: int) {
    forall id :: Open(k, id, clock) ==>
      LastEnd(k, start, k.missions[id].value.playerId) <= k.missions[id].value.issuedAt
  }

  function Earned(awards: seq<Award>, player: Bytes): nat {
    if awards == [] then 0
    else Earned(awards[..|awards| - 1], player)
         + if awards[|awards| - 1].player == player then awards[|awards| - 1].tokens else 0
  }

  /** The time that has passed pays for the tokens. */
  ghost predicate PaidFor(cooldown: int, tokens: nat, time: int) {
    4 * cooldown * tokens <= 3 * time
  }

  ghost predicate IncomeInv(start: int, cooldown: int, g: Game) {
    && start <= g.clock
    && (forall player :: LastEnd(g.keys, start, player) <= g.clock + 4 * cooldown)
    && (forall player :: PaidFor(cooldown, Earned(g.awards, player), LastEnd(g.keys, start, player) - start))
  }

  /** An awarded mission is stored as completed, and no mission is awarded twice. */
  ghost predicate AwardsInv(g: Game) {
    && (forall i :: 0 <= i < |g.awards| ==>
          g.awards[i].id in g.keys.missions && g.keys.missions[g.awards[i].id].value.completed)
    && (forall i, j :: 0 <= i < j < |g.awards| ==> g.awards[i].id != g.awards[j].id)
  }

  ghost predicate GameInv(start: int, cooldown: int, g: Game) {
    && PointersInv(g.keys, g.clock) && RecordsInv(g) && IssueInv(start, g.keys, g.clock)
    && IncomeInv(start, cooldown, g) && AwardsInv(g)
  }

  // ---------------------------------------------------------------- every call keeps it

  lemma PoolIsFair(tpl: Template)
    requires tpl in POOL
    ensures FairReward(tpl.difficulty, tpl.reward)
  {}

  lemma TimePasses(start: int, cooldown: int, g: Game, now: int)
    requires cooldown > 0 && GameInv(start, cooldown, g) && g.clock <= now
    ensures GameInv(start, cooldown, g.(clock := now))
  {}

  lemma IssuePointers(k: Keys, record: MissionRecord, ttl: int, now: int)
    requires ttl > 0 && PointersInv(k, now) && FindActive(k, record.playerId, now).None?
    requires record.id !in k.missions && !record.completed
    ensures PointersInv(KeysAfterCreate(k, record, ttl, now), now)
  {}

  lemma IncomeKept(start: int, cooldown: int, g: Game, g': Game)
    requires IncomeInv(start, cooldown, g)
    requires g'.keys.cooldown == g.keys.cooldown && g'.awards == g.awards && g.clock <= g'.clock
    ensures IncomeInv(start, cooldown, g')
  {
    forall player
      ensures LastEnd(g'.keys, start, player) <= g'.clock + 4 * cooldown
      ensures PaidFor(cooldown, Earned(g'.awards, player), LastEnd(g'.keys, start, player) - start)
    {
      assert LastEnd(g.keys, start, player) <= g.clock + 4 * cooldown;
    }
  }

  lemma IssueTimes(start: int, cooldown: int, g: Game, record: MissionRecord, wait: int)
    requires GameInv(start, cooldown, g) && record.issuedAt == g.clock
    requires CooldownRemaining(g.keys, record.playerId, g.clock) <= 0
    ensures IssueInv(start, KeysAfterCreate(g.keys, record, wait, g.clock), g.clock)
  {}

  lemma RequestKeepsInv(start: int, cooldown: int, g: Game, call: Call)
    requires cooldown > 0 && GameInv(start, cooldown, g)
    requires call.RequestCall? && Possible(g, call) && call.now == g.clock
    ensures GameInv(start, cooldown, After(g, cooldown, call))
  {
    if Issue(g.keys, cooldown, call.player, call.tpl, call.id, call.now).1.Issued? {
      var record := NewRecord(call.tpl, call.player, call.id, call.now);
      var wait := EffectiveCooldown(cooldown, call.tpl.difficulty);
      assert wait > 0;
      IssuePointers(g.keys, record, wait, call.now);
      PoolIsFair(call.tpl);
      IssueTimes(start, cooldown, g, record, wait);
      IncomeKept(start, cooldown, g, After(g, cooldown, call));
    }
  }

  lemma CompletePointers(k: Keys, id: Bytes, wait: int, now: int)
    requires PointersInv(k, now) && Open(k, id, now)
    ensures PointersInv(KeysAfterComplete(k, id, k.missions[id].value, k.missions[id].value.playerId, wait, now), now)
  {}

  /** One completion: the wait before it and the cooldown after it pay for its tokens. */
  lemma CompletionPays(cooldown: int, earned: nat, time: int, tokens: nat, multiplier: int, time': int)
    requires cooldown > 0 && PaidFor(cooldown, earned, time) && 4 * tokens <= 6 * multiplier
    requires time + 2 * (cooldown * multiplier) <= time'
    ensures PaidFor(cooldown, earned + tokens, time')
  {}

  lemma {:induction false} EarnedAppend(awards: seq<Award>, a: Award, player: Bytes)
    ensures Earned(awards + [a], player) == Earned(awards, player) + if a.player == player then a.tokens else 0
  {}

  lemma CompleteIncome(start: int, cooldown: int, g: Game, id: Bytes)
    requires cooldown > 0 && IncomeInv(start, cooldown, g) && Open(g.keys, id, g.clock)
    requires
      var m := g.keys.missions[id].value;
      && FairReward(m.difficulty, m.reward)
      && LastEnd(g.keys, start, m.playerId) <= m.issuedAt
      && EffectiveCooldown(cooldown, m.difficulty) <= g.clock - m.issuedAt
    ensures
      var m := g.keys.missions[id].value;
      var k' := KeysAfterComplete(g.keys, id, m, m.playerId, EffectiveCooldown(cooldown, m.difficulty), g.clock);
      IncomeInv(start, cooldown, Game(k', g.clock, g.awards + [Award(id, m.playerId, Tokens(m.reward))]))
  {
    var m := g.keys.missions[id].value;
    var wait := EffectiveCooldown(cooldown, m.difficulty);
    var k' := KeysAfterComplete(g.keys, id, m, m.playerId, wait, g.clock);
    var award := Award(id, m.playerId, Tokens(m.reward));
    forall player
      ensures LastEnd(k', start, player) <= g.clock + 4 * cooldown
      ensures PaidFor(cooldown, Earned(g.awards + [award], player), LastEnd(k', start, player) - start)
    {
      EarnedAppend(g.awards, award, player);
      assert LastEnd(g.keys, start, player) <= g.clock + 4 * cooldown;
      if player == m.playerId {
        CompletionPays(cooldown, Earned(g.awards, player), LastEnd(g.keys, start, player) - start,
                       award.tokens, CooldownMultiplier(m.difficulty), g.clock + wait - start);
      }
    }
  }

  lemma CompleteAwards(start: int, cooldown: int, g: Game, id: Bytes, wait: int)
    requires RecordsInv(g) && AwardsInv(g) && Open(g.keys, id, g.clock)
    ensures
      var m := g.keys.missions[id].value;
      var g' := Game(KeysAfterComplete(g.keys, id, m, m.playerId, wait, g.clock), g.clock,
                     g.awards + [Award(id, m.playerId, Tokens(m.reward))]);
      RecordsInv(g') && AwardsInv(g')
  {
    assert forall i :: 0 <= i < |g.awards| ==> g.awards[i].id != id;
  }

  lemma CompleteIssueTimes(start: int, cooldown: int, g: Game, id: Bytes, wait: int)
    requires GameInv(start, cooldown, g) && Open(g.keys, id, g.clock)
    ensures
      var m := g.keys.missions[id].value;
      IssueInv(start, KeysAfterComplete(g.keys, id, m, m.playerId, wait, g.clock), g.clock)
  {
    var m := g.keys.missions[id].value;
    var k' := KeysAfterComplete(g.keys, id, m, m.playerId, wait, g.clock);
    forall id' | Open(k', id', g.clock)
      ensures LastEnd(k', start, k'.missions[id'].value.playerId) <= k'.missions[id'].value.issuedAt
    {
      assert id' != id && Open(g.keys, id', g.clock);
      assert Points(g.keys, m.playerId, id, g.clock);
    }
  }

  lemma CompleteKeepsInv(start: int, cooldown: int, g: Game, call: Call)
    requires cooldown > 0 && GameInv(start, cooldown, g) && call.CompleteCall? && call.now == g.clock
    ensures GameInv(start, cooldown, After(g, cooldown, call))
  {
    var (k', reply) := Complete(g.keys, cooldown, call.id, call.player, call.now);
    if reply.Completed? {
      var m := g.keys.missions[call.id].value;
      var wait := EffectiveCooldown(cooldown, m.difficulty);
      assert Open(g.keys, call.id, g.clock);
      CompletePointers(g.keys, call.id, wait, g.clock);
      CompleteIncome(start, cooldown, g, call.id);
      CompleteIssueTimes(start, cooldown, g, call.id, wait);
      CompleteAwards(start, cooldown, g, call.id, wait);
    }
  }

  lemma CallKeepsInv(start: int, cooldown: int, g: Game, call: Call)
    requires cooldown > 0 && GameInv(start, cooldown, g) && Possible(g, call)
    ensures GameInv(start, cooldown, After(g, cooldown, call))
  {
    var g' := g.(clock := call.now);
    TimePasses(start, cooldown, g, call.now);
    assert After(g', cooldown, call) == After(g, cooldown, call);
    match call
    case RequestCall(_, _, _, _) => RequestKeepsInv(start, cooldown, g', call);
    case CompleteCall(_, _, _) => CompleteKeepsInv(start, cooldown, g', call);
  }

  lemma {:induction false} PlayKeepsInv(start: int, cooldown: int, calls: seq<Call>)
    requires cooldown > 0 && Play(start, cooldown, calls).Some?
    ensures GameInv(start, cooldown, Play(start, cooldown, calls).value)
  {
    if calls != [] {
      PlayKeepsInv(start, cooldown, calls[..|calls| - 1]);
      CallKeepsInv(start, cooldown, Play(start, cooldown, calls[..|calls| - 1]).value, calls[|calls| - 1]);
    }
  }

  // ---------------------------------------------------------------- the properties

  /** Over every run, a player's mission income is at most three tokens for every four base cooldowns
      that have passed, after an allowance of four base cooldowns. */
  lemma {:induction false} IncomeBound(start: int, cooldown: int, calls: seq<Call>, player: Bytes)
    requires cooldown > 0 && Play(start, cooldown, calls).Some?
    ensures
      var g := Play(start, cooldown, calls).value;
      4 * cooldown * Earned(g.awards, player) <= 3 * ((g.clock - start) + 4 * cooldown)
  {
    PlayKeepsInv(start, cooldown, calls);
    var g := Play(start, cooldown, calls).value;
    assert LastEnd(g.keys, start, player) <= g.clock + 4 * cooldown;
  }

  /** At every instant of every run, up to the next call, a mission is open exactly when its player's
      active pointer names it; so a player has at most one open mission. */
  lemma {:induction false} OneOpenMission(start: int, cooldown: int, calls: seq<Call>, t: int, player: Bytes, id: Bytes)
    requires cooldown > 0 && Play(start, cooldown, calls).Some? && Play(start, cooldown, calls).value.clock <= t
    ensures
      var k := Play(start, cooldown, calls).value.keys;
      Points(k, player, id, t) <==> Open(k, id, t) && k.missions[id].value.playerId == player
  {
    PlayKeepsInv(start, cooldown, calls);
    var g := Play(start, cooldown, calls).value;
    if Open(g.keys, id, t) {
      assert Open(g.keys, id, g.clock);
    }
  }

  /** Each mission is rewarded at most once. */
  lemma {:induction false} RewardedOnce(start: int, cooldown: int, calls: seq<Call>, i: nat, j: nat)
    requires cooldown > 0 && Play(start, cooldown, calls).Some?
    requires
      var awards := Play(start, cooldown, calls).value.awards;
      i < |awards| && j < |awards| && awards[i].id == awards[j].id
    ensures i == j
  {
    PlayKeepsInv(start, cooldown, calls);
  }

  ghost predicate Awarded(awards: seq<Award>, id: Bytes) {
    exists i :: 0 <= i < |awards| && awards[i].id == id
  }

  /** An issued mission is stored as issued until it is awarded, and as completed from then on. */
  ghost predicate Tracks(g: Game, record: MissionRecord, expires: int) {
    && record.id in g.keys.missions && !record.completed
    && if Awarded(g.awards, record.id) then g.keys.missions[record.id].value.completed
       else g.keys.missions[record.id] == Timed(record, expires)
  }

  lemma AwardedAppend(awards: seq<Award>, a: Award, id: Bytes)
    ensures Awarded(awards + [a], id) <==> Awarded(awards, id) || a.id == id
  {
    if i :| 0 <= i < |awards| && awards[i].id == id { assert (awards + [a])[i].id == id; }
    if a.id == id { assert (awards + [a])[|awards|].id == id; }
  }

  lemma CallTracks(g: Game, cooldown: int, call: Call, record: MissionRecord, expires: int)
    requires Tracks(g, record, expires) && Possible(g, call)
    ensures Tracks(After(g, cooldown, call), record, expires)
  {
    if call.CompleteCall? {
      var reply := Complete(g.keys, cooldown, call.id, call.player, call.now).1;
      if reply.Completed? {
        AwardedAppend(g.awards, Award(call.id, call.player, Tokens(reply.record.reward)), record.id);
      }
    }
  }

  lemma {:induction false} PlayTracks(g: Game, cooldown: int, calls: seq<Call>, record: MissionRecord, expires: int)
    requires Tracks(g, record, expires) && PlayOn(g, cooldown, calls).Some?
    ensures Tracks(PlayOn(g, cooldown, calls).value, record, expires)
  {
    if calls != [] {
      var front := calls[..|calls| - 1];
      PlayTracks(g, cooldown, front, record, expires);
      CallTracks(PlayOn(g, cooldown, front).value, cooldown, calls[|calls| - 1], record, expires);
    }
  }

  lemma {:induction false} IssueTracks(start: int, cooldown: int, g: Game, issue: Call)
    requires cooldown > 0 && GameInv(start, cooldown, g) && issue.RequestCall? && Possible(g, issue)
    requires Issue(g.keys, cooldown, issue.player, issue.tpl, issue.id, issue.now).1.Issued?
    ensures Tracks(After(g, cooldown, issue), NewRecord(issue.tpl, issue.player, issue.id, issue.now),
                   issue.now + MissionTTL(EffectiveCooldown(cooldown, issue.tpl.difficulty)))
  {}

  /** In every run, after a mission was issued and whatever was called since, its player can complete it
      exactly if it has not been awarded yet and the time lies in a window that is never empty: not
      before its cooldown has passed, and not once its key has expired. */
  lemma {:induction false} CompletionWindow(
    start: int, cooldown: int, before: seq<Call>, issue: Call, later: seq<Call>, t: int)
    requires cooldown > 0 && Play(start, cooldown, before).Some?
    requires issue.RequestCall? && Possible(Play(start, cooldown, before).value, issue)
    requires
      var k := Play(start, cooldown, before).value.keys;
      Issue(k, cooldown, issue.player, issue.tpl, issue.id, issue.now).1.Issued?
    requires PlayOn(After(Play(start, cooldown, before).value, cooldown, issue), cooldown, later).Some?
    ensures
      var g := PlayOn(After(Play(start, cooldown, before).value, cooldown, issue), cooldown, later).value;
      var wait := cooldown * CooldownMultiplier(issue.tpl.difficulty);
      var ready, expires := issue.now + wait, issue.now + Max(300, 2 * wait);
      && ready < expires
      && (Complete(g.keys, cooldown, issue.id, issue.player, t).1.Completed? <==>
            !Awarded(g.awards, issue.id) && ready <= t < expires)
  {
    var g := Play(start, cooldown, before).value;
    PlayKeepsInv(start, cooldown, before);
    IssueTracks(start, cooldown, g, issue);
    PlayTracks(After(g, cooldown, issue), cooldown, later,
               NewRecord(issue.tpl, issue.player, issue.id, issue.now),
               issue.now + MissionTTL(EffectiveCooldown(cooldown, issue.tpl.difficulty)));
  }

  /** A run can always go on: with any completion, and with any request under a fresh ID. */
  lemma {:induction false} RunsGoOn(start: int, cooldown: int, calls: seq<Call>, call: Call)
    requires Play(start, cooldown, calls).Some? && Play(start, cooldown, calls).value.clock <= call.now
    requires call.RequestCall? ==> call.tpl in POOL && call.id !in Play(start, cooldown, calls).value.keys.missions
    ensures Play(start, cooldown, calls + [call]) == Some(After(Play(start, cooldown, calls).value, cooldown, call))
  {
    assert (calls + [call])[..|calls|] == calls;
  }

  /** A completion is awarded to the mission's owner with all tokens of its reward; nothing else is awarded. */
  lemma AwardMeans(g: Game, cooldown: int, call: Call)
    ensures
      var g' := After(g, cooldown, call);
      if call.CompleteCall? && Complete(g.keys, cooldown, call.id, call.player, call.now).1.Completed? then
        && call.id in g.keys.missions
        && var m := g.keys.missions[call.id].value;
        && var reward := m.reward;
        && g'.awards == g.awards + [Award(call.id, m.playerId, reward.red + reward.green + reward.blue)]
      else g'.awards == g.awards
  {}

  // ---------------------------------------------------------------- when a request is granted

  /** The player has an open mission. */
  ghost predicate Busy(k: Keys, player: Bytes, now: int) {
    exists id :: Open(k, id, now) && k.missions[id].value.playerId == player
  }

  /** The player's last cooldown is over, or there was none. */
  predicate Rested(k: Keys, player: Bytes, now: int) {
    player in k.cooldown ==> k.cooldown[player] <= now
  }

  lemma {:induction false} ActiveMeans(start: int, cooldown: int, g: Game, player: Bytes, now: int)
    requires cooldown > 0 && GameInv(start, cooldown, g) && g.clock <= now
    ensures FindActive(g.keys, player, now).Some? <==> Busy(g.keys, player, now)
    ensures FindActive(g.keys, player, now).Some? ==>
      var id := FindActive(g.keys, player, now).value.id;
      Open(g.keys, id, now) && g.keys.missions[id].value.playerId == player
  {
    TimePasses(start, cooldown, g, now);
    var k := g.keys;
    assert PointersInv(k, now);
    if id :| Open(k, id, now) && k.missions[id].value.playerId == player {
      assert Points(k, player, id, now);
    }
  }

  /** In every run, at any time from the last call on, a request is granted exactly if the player has no open
      mission and its last cooldown is over. It is refused with the open mission if there is one, and with
      the rest of the cooldown otherwise. */
  lemma {:induction false} RequestGranted(
    start: int, cooldown: int, calls: seq<Call>, player: Bytes, tpl: Template, id: Bytes, now: int)
    requires cooldown > 0 && Play(start, cooldown, calls).Some? && Play(start, cooldown, calls).value.clock <= now
    ensures
      var k := Play(start, cooldown, calls).value.keys;
      var reply := Issue(k, cooldown, player, tpl, id, now).1;
      && (reply.Issued? <==> !Busy(k, player, now) && Rested(k, player, now))
      && (reply.AlreadyActive? <==> Busy(k, player, now))
      && (reply.AlreadyActive? ==> Open(k, reply.id, now) && k.missions[reply.id].value.playerId == player)
      && (reply.OnCooldown? ==> player in k.cooldown && reply.seconds == k.cooldown[player] - now)
  {
    var g := Play(start, cooldown, calls).value;
    PlayKeepsInv(start, cooldown, calls);
    ActiveMeans(start, cooldown, g, player, now);
  }

  /** Since `before` the player has completed nothing. */
  ghost predicate Idle(before: Game, g: Game, player: Bytes) {
    before.awards <= g.awards && forall i :: |before.awards| <= i < |g.awards| ==> g.awards[i].player != player
  }

  lemma CallKeepsCooldown(before: Game, g: Game, cooldown: int, call: Call, player: Bytes)
    requires Idle(before, After(g, cooldown, call), player) && before.awards <= g.awards
    ensures Idle(before, g, player)
    ensures player in g.keys.cooldown ==>
      player in After(g, cooldown, call).keys.cooldown
      && After(g, cooldown, call).keys.cooldown[player] == g.keys.cooldown[player]
  {
    var g' := After(g, cooldown, call);
    assert forall i :: 0 <= i < |g.awards| ==> g'.awards[i] == g.awards[i];
    if |g'.awards| > |g.awards| {
      assert g'.awards[|g.awards|].player != player;
    }
  }

  lemma {:induction false} AwardsGrow(g: Game, cooldown: int, calls: seq<Call>)
    requires PlayOn(g, cooldown, calls).Some?
    ensures g.awards <= PlayOn(g, cooldown, calls).value.awards
  {
    if calls != [] { AwardsGrow(g, cooldown, calls[..|calls| - 1]); }
  }

  lemma {:induction false} CooldownStays(g: Game, cooldown: int, calls: seq<Call>, player: Bytes)
    requires PlayOn(g, cooldown, calls).Some? && Idle(g, PlayOn(g, cooldown, calls).value, player)
    requires player in g.keys.cooldown
    ensures
      var k := PlayOn(g, cooldown, calls).value.keys;
      player in k.cooldown && k.cooldown[player] == g.keys.cooldown[player]
  {
    if calls != [] {
      var front := calls[..|calls| - 1];
      AwardsGrow(g, cooldown, front);
      CallKeepsCooldown(g, PlayOn(g, cooldown, front).value, cooldown, calls[|calls| - 1], player);
      CooldownStays(g, cooldown, front, player);
    }
  }

  /** In every run, after a completion and until the player completes another mission, its cooldown ends once
      the mission's wait has passed again. */
  lemma {:induction false} CooldownAfterCompletion(
    start: int, cooldown: int, before: seq<Call>, complete: Call, later: seq<Call>)
    requires cooldown > 0 && Play(start, cooldown, before).Some? && complete.CompleteCall?
    requires
      var g := Play(start, cooldown, before).value;
      && Complete(g.keys, cooldown, complete.id, complete.player, complete.now).1.Completed?
      && var g' := After(g, cooldown, complete);
      && PlayOn(g', cooldown, later).Some? && Idle(g', PlayOn(g', cooldown, later).value, complete.player)
    ensures complete.id in Play(start, cooldown, before).value.keys.missions
    ensures
      var g := Play(start, cooldown, before).value;
      var k := PlayOn(After(g, cooldown, complete), cooldown, later).value.keys;
      var difficulty := g.keys.missions[complete.id].value.difficulty;
      forall now :: Rested(k, complete.player, now) <==> complete.now + cooldown * CooldownMultiplier(difficulty) <= now
  {
    CooldownStays(After(Play(start, cooldown, before).value, cooldown, complete), cooldown, later, complete.player);
  }

  /** A completed mission is not touched any more. */
  lemma {:induction false} CompletedStays(g: Game, cooldown: int, calls: seq<Call>, id: Bytes)
    requires PlayOn(g, cooldown, calls).Some? && id in g.keys.missions && g.keys.missions[id].value.completed
    ensures
      var k := PlayOn(g, cooldown, calls).value.keys;
      id in k.missions && k.missions[id] == g.keys.missions[id]
  {
    if calls != [] { CompletedStays(g, cooldown, calls[..|calls| - 1], id); }
  }

  /** In every run, completing a mission again is refused: as completed for five minutes, and as unknown after
      them. */
  lemma {:induction false} CompletingAgain(g: Game, cooldown: int, complete: Call, later: seq<Call>, now: int)
    requires complete.CompleteCall?
    requires Complete(g.keys, cooldown, complete.id, complete.player, complete.now).1.Completed?
    requires PlayOn(After(g, cooldown, complete), cooldown, later).Some?
    ensures
      var k := PlayOn(After(g, cooldown, complete), cooldown, later).value.keys;
      Complete(k, cooldown, complete.id, complete.player, now)
      == (k, if now < complete.now + 300 then AlreadyCompleted else NotFound)
  {
    CompletedStays(After(g, cooldown, complete), cooldown, later, complete.id);
  }
}
