// The referee as a state machine over its steps: ticks, submissions, reviews, deployments,
// freezing and resetting, in any order the two processes allow.
module Rounds {
  import opened Bytes
  import opened Manifests
  import opened Ledgers

  /** One player's pass in a tick: the grace its row had when the tick was launched, and what is left. */
  datatype Worker = Worker(inGrace: bool, todo: seq<Rung>)

  /** Where the tick loop stands; `tick` is its local copy of the tick number. */
  datatype Phase =
    | Idle
    | Begun(tick: int)
    | Settled(tick: int)
    | Scoring(tick: int, workers: map<Name, Worker>)

  /**
   * What happened in the round, beyond what the tables keep: where each flag was planted and the
   * flag of each slot, the first theft of each flag, the last tick that expired flags, and the
   * tick of each deployment. `issued` is every token ever made.
   */
  datatype History = History(
    planted: map<Token, Slot>, slots: map<Slot, Token>, thefts: map<Token, Theft>,
    expiredTo: int, deploys: set<(Name, int)>, issued: set<Token>)

  datatype World = World(db: Ledger, phase: Phase, past: History)

  datatype Step =
    | Advance
    | SettleBonus
    | Launch
    | Probe(player: Name, obs: Observation, token: Token, earlier: Option<Token>)
    | Raised(player: Name, planted: Option<string>, token: Token)
    | Late(slot: Slot, inGrace: bool, obs: Observation, token: Token, earlier: Option<Token>, raises: bool)
    | Finish
    | Restart
    | Submitted(who: Name, flag: Token, claimed: Option<Klass>, writeup: string)
    | Reviewed(id: nat, approve: bool)
    | Deployed(player: Name, manifest: Manifest, rev: string)
    | StatusSet(player: Name, status: Status)
    | Frozen(on: bool)
    | NewRound

  // ----- the steps -----------------------------------------------------------------------

  function WorkerFor(db: Ledger, tick: int, p: Name): Worker
    requires p in db.players
  {
    var row := db.players[p];
    Worker(tick <= row.graceUntil, if row.manifest.Some? then Rungs(row.manifest.value) else [])
  }

  function Workers(db: Ledger, tick: int): map<Name, Worker> {
    map p | p in db.players && Active(db, p) :: WorkerFor(db, tick, p)
  }

  /** The slot a player's worker is at. */
  function CurrentSlot(w: World, p: Name): Slot
    requires w.phase.Scoring? && p in w.phase.workers && w.phase.workers[p].todo != []
  {
    Slot(w.phase.tick, p, w.phase.workers[p].todo[0])
  }

  /** A step the referee can take: its loop is at that point, and fresh tokens are fresh. */
  ghost predicate Enabled(cfg: Config, w: World, step: Step) {
    match step
    case Advance => w.phase.Idle? && !w.db.frozen
    case SettleBonus => w.phase.Begun?
    case Launch => w.phase.Settled?
    case Probe(p, obs, token, earlier) =>
      && w.phase.Scoring? && p in w.phase.workers && w.phase.workers[p].todo != []
      && token !in w.past.issued
      && var slot := CurrentSlot(w, p);
         IsFlagFor(Planted(cfg, w.db, slot, obs, token), SlaSlot(cfg, slot), earlier)
    case Raised(p, planted, token) =>
      && w.phase.Scoring? && p in w.phase.workers && w.phase.workers[p].todo != []
      && token !in w.past.issued && (planted.Some? ==> cfg.Carries(CurrentSlot(w, p).rung))
    case Late(slot, _, obs, token, earlier, _) =>
      && slot.player in w.db.players && token !in w.past.issued
      && IsFlagFor(Planted(cfg, w.db, slot, obs, token), SlaSlot(cfg, slot), earlier)
    case Finish => w.phase.Scoring? && forall p :: p in w.phase.workers ==> w.phase.workers[p].todo == []
    case Restart => true
    case Submitted(who, _, _, writeup) => who in cfg.submitters && |writeup| <= 4000
    case Reviewed(_, _) => true
    case Deployed(p, m, _) => Probeable(m) && p in w.db.players
    case StatusSet(p, status) => p in w.db.players && !status.Disabled?
    case Frozen(_) => true
    case NewRound => true
  }

  /** The history once a token was drawn for a slot, and perhaps planted. */
  function Drawn(past: History, slot: Slot, token: Token, planted: bool): History {
    past.(planted := if planted then past.planted[token := slot] else past.planted,
          slots := if planted then past.slots[slot := token] else past.slots,
          issued := past.issued + {token})
  }

  function Probed(cfg: Config, w: World, p: Name, obs: Observation, token: Token, earlier: Option<Token>): World
    requires w.phase.Scoring? && p in w.phase.workers && w.phase.workers[p].todo != []
  {
    var worker, slot := w.phase.workers[p], CurrentSlot(w, p);
    World(ScoreRung(cfg, w.db, slot, worker.inGrace, obs, token, earlier),
          Scoring(w.phase.tick, w.phase.workers[p := worker.(todo := worker.todo[1..])]),
          Drawn(w.past, slot, token, obs.healthy && cfg.Carries(slot.rung) && obs.planted.Some?))
  }

  /** A worker that dies at its rung, before or after the plant: no row for this rung or any later one. */
  function Died(cfg: Config, w: World, p: Name, planted: Option<string>, token: Token): World
    requires w.phase.Scoring? && p in w.phase.workers && w.phase.workers[p].todo != []
  {
    var slot := CurrentSlot(w, p);
    World(if planted.Some? then Plant(w.db, slot, token, planted.value, cfg.K) else w.db,
          Scoring(w.phase.tick, w.phase.workers[p := w.phase.workers[p].(todo := [])]),
          Drawn(w.past, slot, token, planted.Some?))
  }

  /** A probe, or a raise after the plant, of a worker that its tick has given up on: of any slot, at any time. */
  function Straggled(
      cfg: Config, w: World, slot: Slot, inGrace: bool, obs: Observation, token: Token, earlier: Option<Token>,
      raises: bool): World
  {
    World(if raises then Planted(cfg, w.db, slot, obs, token)
          else ScoreRung(cfg, w.db, slot, inGrace, obs, token, earlier),
          w.phase,
          Drawn(w.past, slot, token, obs.healthy && cfg.Carries(slot.rung) && obs.planted.Some?))
  }

  function AfterSubmit(cfg: Config, w: World, who: Name, flag: Token, claimed: Option<Klass>, writeup: string): World {
    var (outcome, db) := Submit(cfg, w.db, who, flag, claimed, writeup);
    var first := outcome == Recorded(Accepted) && flag !in w.past.thefts;
    w.(db := db, past := if first then w.past.(thefts := w.past.thefts[flag := Theft(who, w.db.tick)]) else w.past)
  }

  /**
   * What a reset does, wherever the tick loop stands: the tables and the history of the round are
   * gone, but a loop in the middle of a tick keeps its tick and its workers.
   */
  function ResetWorld(w: World): World {
    World(Reset(w.db), w.phase, History(map[], map[], map[], 0, {}, w.past.issued))
  }

  function Next(cfg: Config, w: World, step: Step): World
    requires Enabled(cfg, w, step)
  {
    match step
    case Advance => w.(db := w.db.(tick := w.db.tick + 1), phase := Begun(w.db.tick + 1))
    case SettleBonus => w.(db := Settle(cfg, w.db, w.phase.tick), phase := Settled(w.phase.tick))
    case Launch => w.(phase := Scoring(w.phase.tick, Workers(w.db, w.phase.tick)))
    case Probe(p, obs, token, earlier) => Probed(cfg, w, p, obs, token, earlier)
    case Raised(p, planted, token) => Died(cfg, w, p, planted, token)
    case Late(slot, inGrace, obs, token, earlier, raises) =>
      Straggled(cfg, w, slot, inGrace, obs, token, earlier, raises)
    case Finish =>
      w.(db := Expire(w.db, w.phase.tick), phase := Idle, past := w.past.(expiredTo := w.phase.tick))
    case Restart => w.(phase := Idle)
    case Submitted(who, flag, claimed, writeup) => AfterSubmit(cfg, w, who, flag, claimed, writeup)
    case Reviewed(id, approve) => w.(db := Review(cfg, w.db, id, approve))
    case Deployed(p, m, rev) =>
      w.(db := DeployOk(cfg, w.db, p, m, rev), past := w.past.(deploys := w.past.deploys + {(p, w.db.tick)}))
    case StatusSet(p, status) => w.(db := SetStatus(w.db, p, status))
    case Frozen(on) => w.(db := w.db.(frozen := on))
    case NewRound => ResetWorld(w)
  }

  /** The world after some steps, all of them enabled. */
  ghost predicate Reaches(cfg: Config, w: World, steps: seq<Step>, end: World)
    decreases |steps|
  {
    if steps == [] then end == w
    else Enabled(cfg, w, steps[0]) && Reaches(cfg, Next(cfg, w, steps[0]), steps[1..], end)
  }

  /** Not a reset while a tick is under way, and not the probe of a worker that outlives its tick. */
  predicate Timely(w: World, step: Step) {
    !step.Late? && (step.NewRound? ==> w.phase.Idle?)
  }

  /** A run in which workers end with their tick and new rounds start between ticks only. */
  ghost predicate Undisturbed(cfg: Config, w: World, steps: seq<Step>)
    decreases |steps|
  {
    steps == [] ||
    (Enabled(cfg, w, steps[0]) && Timely(w, steps[0]) && Undisturbed(cfg, Next(cfg, w, steps[0]), steps[1..]))
  }

  /** Freezing stops the next tick from beginning until it is lifted, and does nothing else. */
  lemma FreezeHolds(cfg: Config, w: World, on: bool)
    ensures var w' := Next(cfg, w, Frozen(on));
            && (Enabled(cfg, w', Advance) <==> w.phase.Idle? && !on)
            && w' == w.(db := w.db.(frozen := w'.db.frozen))
  {
  }

  /** A round about to start: the roster is in the players table, nothing else is. */
  predicate Initial(cfg: Config, w: World) {
    && w.phase.Idle? && w.past == History(map[], map[], map[], 0, {}, {})
    && w.db.tick == 0 && !w.db.frozen && w.db.flags == map[] && w.db.uptime == map[] && w.db.submissions == []
    && w.db.players.Keys == (set p | p in cfg.roster)
    && (forall p :: p in w.db.players ==> w.db.players[p].graceUntil == 0 && w.db.players[p].manifest.None?)
  }
}
