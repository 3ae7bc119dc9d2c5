// The referee's store (orchestrator/state.py) and what one tick or one submission does to it
// (orchestrator/tick.py, orchestrator/submit.py, bin/ctfctl).
module Ledgers {
  import opened Bytes
  import opened Manifests

  type Name = string
  type Token = string

  /** A scored slot: one rung of one player in one tick. */
  datatype Slot = Slot(tick: int, player: Name, rung: Rung)

  datatype Klass = App | Transport | Rce

  datatype Status = Unknown | Building | Deploying | Running | Failed | Disabled

  /** `rev` is the deployed revision. */
  datatype Player = Player(manifest: Option<Manifest>, rev: string, status: Status, graceUntil: int)

  datatype Theft = Theft(thief: Name, tick: int)

  /** `ref` is what the service handed back for fetching the flag later. */
  datatype Flag = Flag(slot: Slot, ref: string, expires: int, stolen: Option<Theft>)

  datatype Uptime = Uptime(ok: bool, grace: bool, points: int)

  datatype Verdict = Accepted | OwnFlag | InvalidOrExpired | Duplicate | Undeclared

  datatype Submission = Submission(
    who: Name, flag: Token, owner: Option<Name>, rung: Option<Rung>, verdict: Verdict,
    klass: Option<Klass>, claimed: Option<Klass>, points: int, pending: bool, writeup: string)

  /** The tables. A submission's id is its place in the ledger. */
  datatype Ledger = Ledger(
    tick: int, frozen: bool, players: map<Name, Player>, flags: map<Token, Flag>,
    uptime: map<Slot, Uptime>, submissions: seq<Submission>)

  /** The settings a round is played under; `roster` is the players table in its order. */
  datatype Config = Config(
    roster: seq<Name>, submitters: set<Name>, K: nat, graceTicks: nat, weights: map<Rung, int>,
    prices: map<Klass, int>, bonus: int, udpFixture: bool)
  {
    function Weight(r: Rung): int {
      if r in weights then weights[r] else 0
    }

    function Price(k: Klass): int {
      if k in prices then prices[k] else 0
    }

    predicate Carries(r: Rung) {
      if r.Udp? then udpFixture else r != Http09
    }
  }

  // ----- flags ---------------------------------------------------------------------------

  function Plant(db: Ledger, slot: Slot, token: Token, ref: string, lifetime: nat): Ledger {
    db.(flags := db.flags[token := Flag(slot, ref, slot.tick + lifetime, None)])
  }

  function Expire(db: Ledger, tick: int): Ledger {
    db.(flags := map f | f in db.flags && db.flags[f].expires > tick :: db.flags[f])
  }

  function FindLive(db: Ledger, token: Token, tick: int): Option<Flag> {
    if token in db.flags && db.flags[token].expires > tick then Some(db.flags[token]) else None
  }

  function MarkStolen(db: Ledger, token: Token, who: Name, tick: int): Ledger {
    if token in db.flags && db.flags[token].stolen.None? then
      db.(flags := db.flags[token := db.flags[token].(stolen := Some(Theft(who, tick)))])
    else db
  }

  /** Some row of the flags table for this slot; which one is the database's choice. */
  ghost predicate IsFlagFor(db: Ledger, slot: Slot, pick: Option<Token>) {
    match pick
    case Some(f) => f in db.flags && db.flags[f].slot == slot
    case None => forall f :: f in db.flags ==> db.flags[f].slot != slot
  }

  function StolenDuring(db: Ledger, player: Name, tick: int): set<Rung> {
    set f | f in db.flags && db.flags[f].slot.player == player
            && db.flags[f].stolen.Some? && db.flags[f].stolen.value.tick == tick :: db.flags[f].slot.rung
  }

  function RecordUptime(db: Ledger, slot: Slot, ok: bool, grace: bool, points: int): Ledger {
    db.(uptime := db.uptime[slot := Uptime(ok, grace, points)])
  }

  // ----- one rung of one tick -----------------------------------------------------------------

  /** What the service did: health, the reference of an accepted plant, and the value fetched. */
  datatype Observation = Observation(healthy: bool, planted: Option<string>, fetched: Option<Token>)

  /** The ledger once the fresh flag, if it was accepted, is stored. */
  function Planted(cfg: Config, db: Ledger, slot: Slot, obs: Observation, token: Token): Ledger {
    if obs.healthy && cfg.Carries(slot.rung) && obs.planted.Some?
    then Plant(db, slot, token, obs.planted.value, cfg.K) else db
  }

  /** The flag the SLA check of a slot asks for: the one planted K - 1 ticks earlier. */
  function SlaSlot(cfg: Config, slot: Slot): Slot {
    slot.(tick := slot.tick - cfg.K + 1)
  }

  predicate IsUp(cfg: Config, slot: Slot, obs: Observation, earlier: Option<Token>) {
    obs.healthy && (cfg.Carries(slot.rung) ==> obs.planted.Some? && (earlier.Some? ==> obs.fetched == earlier))
  }

  /** The body of `score_player`'s loop. */
  function ScoreRung(
      cfg: Config, db: Ledger, slot: Slot, inGrace: bool, obs: Observation, token: Token, earlier: Option<Token>)
    : Ledger
  {
    var up := IsUp(cfg, slot, obs, earlier);
    var graced := inGrace && !up;
    RecordUptime(Planted(cfg, db, slot, obs, token), slot, up || graced, graced,
                 if up || graced then cfg.Weight(slot.rung) else 0)
  }

  // ----- the defence bonus ----------------------------------------------------------------------

  function SettleRow(cfg: Config, db: Ledger, slot: Slot, stolen: set<Rung>): Ledger {
    if slot in db.uptime && db.uptime[slot].ok then
      RecordUptime(db, slot, true, db.uptime[slot].grace,
                   cfg.Weight(slot.rung) + (if slot.rung in stolen then 0 else cfg.bonus))
    else db
  }

  function SettleRungs(
      cfg: Config, db: Ledger, tick: int, player: Name, stolen: set<Rung>, rungs: seq<Rung>): Ledger
    decreases |rungs|
  {
    if rungs == [] then db
    else SettleRungs(cfg, SettleRow(cfg, db, Slot(tick, player, rungs[0]), stolen), tick, player, stolen, rungs[1..])
  }

  predicate Active(db: Ledger, player: Name) {
    player in db.players && !db.players[player].status.Disabled?
  }

  function SettlePlayer(cfg: Config, db: Ledger, tick: int, player: Name): Ledger {
    if Active(db, player) then SettleRungs(cfg, db, tick, player, StolenDuring(db, player, tick), LADDER) else db
  }

  function SettlePlayers(cfg: Config, db: Ledger, tick: int, players: seq<Name>): Ledger
    decreases |players|
  {
    if players == [] then db
    else SettlePlayers(cfg, SettlePlayer(cfg, db, tick, players[0]), tick, players[1..])
  }

  /** `apply_defense_bonus`: settles the tick before `tick`. */
  function Settle(cfg: Config, db: Ledger, tick: int): Ledger {
    if cfg.bonus == 0 || tick - 1 < 1 then db else SettlePlayers(cfg, db, tick - 1, cfg.roster)
  }

  // ----- submissions ---------------------------------------------------------------------------------

  function AutoClass(r: Rung): Klass {
    if r.Udp? then Transport else App
  }

  function Rank(k: Klass): nat {
    match k case App => 0 case Transport => 1 case Rce => 2
  }

  /** What Python's `str.strip` takes for white space. */
  predicate White(c: char) {
    var n := c as int;
    || 0x09 <= n <= 0x0D || 0x1C <= n <= 0x20 || n == 0x85 || n == 0xA0 || n == 0x1680
    || 0x2000 <= n <= 0x200A || n == 0x2028 || n == 0x2029 || n == 0x202F || n == 0x205F || n == 0x3000
  }

  predicate Blank(s: string) {
    forall i :: 0 <= i < |s| ==> White(s[i])
  }

  function Truncated(s: string): string {
    if |s| > 4000 then s[..4000] else s
  }

  predicate Already(db: Ledger, who: Name, flag: Token) {
    exists i :: 0 <= i < |db.submissions|
      && db.submissions[i].who == who && db.submissions[i].flag == flag && db.submissions[i].verdict.Accepted?
  }

  predicate DeclaresRung(db: Ledger, player: Name, rung: Rung) {
    player in db.players && db.players[player].manifest.Some? && rung in Rungs(db.players[player].manifest.value)
  }

  /** The reply to a well-formed submission, and whether it scored. */
  datatype Outcome = Recorded(verdict: Verdict) | WriteupRequired

  function AddSubmission(db: Ledger, s: Submission): Ledger {
    db.(submissions := db.submissions + [s])
  }

  predicate ClaimsMore(claimed: Option<Klass>, auto: Klass) {
    claimed.Some? && Rank(claimed.value) > Rank(auto)
  }

  /** A recorded refusal: no class, no points. */
  function Refuse(
      db: Ledger, who: Name, flag: Token, slot: Option<Slot>, v: Verdict, claimed: Option<Klass>, note: string)
    : (Outcome, Ledger)
  {
    (Recorded(v),
     AddSubmission(db, Submission(who, flag,
                                  if slot.Some? then Some(slot.value.player) else None,
                                  if slot.Some? then Some(slot.value.rung) else None,
                                  v, None, claimed, 0, false, note)))
  }

  /** `Referee.submit` after the token, rate and format checks. */
  function Submit(
      cfg: Config, db: Ledger, who: Name, flag: Token, claimed: Option<Klass>, writeup: string): (Outcome, Ledger)
  {
    var note := Truncated(writeup);
    match FindLive(db, flag, db.tick)
    case None => Refuse(db, who, flag, None, InvalidOrExpired, claimed, note)
    case Some(row) =>
      var owner, rung := row.slot.player, row.slot.rung;
      if owner == who then Refuse(db, who, flag, Some(row.slot), OwnFlag, claimed, note)
      else if !DeclaresRung(db, owner, rung) then Refuse(db, who, flag, Some(row.slot), Undeclared, claimed, note)
      else if Already(db, who, flag) then Refuse(db, who, flag, Some(row.slot), Duplicate, claimed, note)
      else
        var auto := AutoClass(rung);
        var pending := ClaimsMore(claimed, auto);
        if pending && Blank(writeup) then (WriteupRequired, db)
        else
          (Recorded(Accepted),
           AddSubmission(MarkStolen(db, flag, who, db.tick),
             Submission(who, flag, Some(owner), Some(rung), Accepted, Some(auto), claimed, cfg.Price(auto), pending,
                        note)))
  }

  /** `ctfctl review`: only a pending row changes. */
  function Review(cfg: Config, db: Ledger, id: nat, approve: bool): Ledger {
    if id >= |db.submissions| || !db.submissions[id].pending then db
    else
      var row := db.submissions[id];
      var row' := if approve && row.claimed.Some? then
                    row.(klass := row.claimed, pending := false,
                         points := if row.claimed.value in cfg.prices then cfg.prices[row.claimed.value]
                                   else row.points)
                  else row.(pending := false);
      db.(submissions := db.submissions[id := row'])
  }

  // ----- deployments and rounds --------------------------------------------------------------------------

  /** A successful `record_deploy`, with the grace `deploy` computes from the current tick. */
  function DeployOk(cfg: Config, db: Ledger, player: Name, m: Manifest, rev: string): Ledger {
    if player in db.players then
      db.(players := db.players[player := Player(Some(m), rev, Running, db.tick + cfg.graceTicks)])
    else db
  }

  function SetStatus(db: Ledger, player: Name, status: Status): Ledger {
    if player in db.players then
      db.(players := db.players[player := db.players[player].(status := status)])
    else db
  }

  /** `ctfctl reset --confirm`. */
  function Reset(db: Ledger): Ledger {
    Ledger(0, false, map p | p in db.players :: db.players[p].(graceUntil := 0), map[], map[], [])
  }
}
