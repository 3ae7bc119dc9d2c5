// The life of a flag over whole runs: unique slots, an exact window, and an SLA check that
// always has something to ask for.
module FlagWindow {
  import opened Bytes
  import opened Manifests
  import opened Ledgers
  import opened Rounds
  import opened Bonus

  // ----- time ------------------------------------------------------------------------

  /** A slot the tick loop may still get to. */
  predicate Due(w: World, s: Slot) {
    s.tick > w.db.tick ||
    match w.phase
    case Idle => false
    case Begun(t) => s.tick == t
    case Settled(t) => s.tick == t
    case Scoring(t, workers) =>
      s.tick == t && s.player in workers && s.rung in workers[s.player].todo
  }

  /** The loop's tick is the stored one, and flags were last expired before it. */
  predicate Timed(w: World) {
    && 0 <= w.past.expiredTo <= w.db.tick
    && (w.phase.Idle? || (w.phase.tick == w.db.tick && w.past.expiredTo < w.db.tick))
  }

  /** Manifests passed validation, so no worker visits a rung twice. */
  ghost predicate Tidy(w: World) {
    && (forall p :: p in w.db.players && w.db.players[p].manifest.Some? ==>
          Climbing(Rungs(w.db.players[p].manifest.value)))
    && (w.phase.Scoring? ==> forall p :: p in w.phase.workers ==> Climbing(w.phase.workers[p].todo))
  }

  lemma TimedKept(cfg: Config, w: World, step: Step)
    requires Timed(w) && Enabled(cfg, w, step) && Timely(w, step)
    ensures Timed(Next(cfg, w, step))
  {
    hide SettlePlayers, ScoreRung, Workers, Review;
    match step
    case SettleBonus => SettleTouchesUptime(cfg, w.db, w.phase.tick);
    case Reviewed(id, approve) => ReviewTouchesSubmissions(cfg, w.db, id, approve);
    case Probe(p, obs, token, earlier) =>
      ScoreTouches(cfg, w.db, CurrentSlot(w, p), w.phase.workers[p].inGrace, obs, token, earlier);
    case _ =>
  }

  lemma SettleTouchesUptime(cfg: Config, db: Ledger, tick: int)
    ensures Settle(cfg, db, tick) == db.(uptime := Settle(cfg, db, tick).uptime)
  {
    SettlePlayersTouch(cfg, db, tick - 1, cfg.roster);
  }

  lemma {:induction false} SettlePlayersTouch(cfg: Config, db: Ledger, tick: int, players: seq<Name>)
    ensures SettlePlayers(cfg, db, tick, players) == db.(uptime := SettlePlayers(cfg, db, tick, players).uptime)
    decreases |players|
  {
    if players != [] {
      SettleRungsTouch(cfg, db, tick, players[0], StolenDuring(db, players[0], tick), LADDER);
      SettlePlayersTouch(cfg, SettlePlayer(cfg, db, tick, players[0]), tick, players[1..]);
    }
  }

  lemma {:induction false} SettleRungsTouch(
      cfg: Config, db: Ledger, tick: int, player: Name, stolen: set<Rung>, rungs: seq<Rung>)
    ensures var db' := SettleRungs(cfg, db, tick, player, stolen, rungs); db' == db.(uptime := db'.uptime)
    decreases |rungs|
  {
    if rungs != [] {
      SettleRungsTouch(cfg, SettleRow(cfg, db, Slot(tick, player, rungs[0]), stolen), tick, player, stolen, rungs[1..]);
    }
  }

  lemma ReviewTouchesSubmissions(cfg: Config, db: Ledger, id: nat, approve: bool)
    ensures Review(cfg, db, id, approve) == db.(submissions := Review(cfg, db, id, approve).submissions)
  {
  }

  lemma ScoreTouches(
      cfg: Config, db: Ledger, slot: Slot, inGrace: bool, obs: Observation, token: Token, earlier: Option<Token>)
    ensures var db' := ScoreRung(cfg, db, slot, inGrace, obs, token, earlier);
            db' == db.(uptime := db'.uptime, flags := Planted(cfg, db, slot, obs, token).flags)
  {
  }

  lemma LateTouches(cfg: Config, w: World, step: Step)
    requires step.Late? && Enabled(cfg, w, step)
    ensures var db' := Next(cfg, w, step).db;
            db' == w.db.(uptime := db'.uptime, flags := Planted(cfg, w.db, step.slot, step.obs, step.token).flags)
  {
    hide IsFlagFor, IsUp;
  }

  lemma PlantedTouchesFlags(cfg: Config, db: Ledger, slot: Slot, obs: Observation, token: Token)
    ensures Planted(cfg, db, slot, obs, token) == db.(flags := Planted(cfg, db, slot, obs, token).flags)
  {
  }

  lemma SubmitTouches(cfg: Config, db: Ledger, who: Name, flag: Token, claimed: Option<Klass>, writeup: string)
    ensures var (outcome, db') := Submit(cfg, db, who, flag, claimed, writeup);
            && db' == db.(submissions := db'.submissions, flags := db'.flags)
            && db'.flags == (if outcome == Recorded(Accepted) then MarkStolen(db, flag, who, db.tick).flags
                             else db.flags)
            && (outcome == Recorded(Accepted) ==> flag in db.flags && db.flags[flag].expires > db.tick)
  {
    hide Already, DeclaresRung, Blank;
  }

  lemma TidyKept(cfg: Config, w: World, step: Step)
    requires Tidy(w) && Enabled(cfg, w, step)
    ensures Tidy(Next(cfg, w, step))
  {
    hide Settle, ScoreRung, Review, Submit, Climbing, Rungs;
    match step
    case SettleBonus => SettleTouchesUptime(cfg, w.db, w.phase.tick);
    case Reviewed(id, approve) => ReviewTouchesSubmissions(cfg, w.db, id, approve);
    case Submitted(who, flag, claimed, writeup) => SubmitTouches(cfg, w.db, who, flag, claimed, writeup);
    case Launch => ClimbingNone();
    case Probe(p, obs, token, earlier) =>
      ScoreTouches(cfg, w.db, CurrentSlot(w, p), w.phase.workers[p].inGrace, obs, token, earlier);
      ClimbingTail(w.phase.workers[p].todo);
    case Raised(_, _, _) => ClimbingNone();
    case Late(_, _, _, _, _, _) => LateTouches(cfg, w, step);
    case Deployed(p, m, _) => ProbeableClimbs(m);
    case _ =>
  }

  lemma ClimbingNone()
    ensures Climbing([])
  {
  }

  lemma ClimbingTail(rungs: seq<Rung>)
    requires Climbing(rungs) && rungs != []
    ensures Climbing(rungs[1..]) && rungs[0] !in rungs[1..]
  {
  }

  lemma ProbeableClimbs(m: Manifest)
    requires Probeable(m)
    ensures Climbing(Rungs(m))
  {
  }

  /** Nothing becomes due that was not, and the slot just scored is due no longer. */
  lemma DueShrinks(cfg: Config, w: World, step: Step, s: Slot)
    requires Timed(w) && Tidy(w) && Enabled(cfg, w, step) && Timely(w, step) && !step.NewRound?
    requires Due(Next(cfg, w, step), s)
    ensures Due(w, s) && (step.Probe? || step.Raised? ==> s != CurrentSlot(w, step.player))
  {
    hide Settle, ScoreRung, Review, Submit, Climbing, Rungs, WorkerFor;
    match step
    case SettleBonus => SettleTouchesUptime(cfg, w.db, w.phase.tick);
    case Reviewed(id, approve) => ReviewTouchesSubmissions(cfg, w.db, id, approve);
    case Submitted(who, flag, claimed, writeup) => SubmitTouches(cfg, w.db, who, flag, claimed, writeup);
    case Probe(p, obs, token, earlier) =>
      ScoreTouches(cfg, w.db, CurrentSlot(w, p), w.phase.workers[p].inGrace, obs, token, earlier);
      ClimbingTail(w.phase.workers[p].todo);
    case _ =>
  }

  // ----- the flags table against the round's history -------------------------------------

  /** Flags and slots are paired off: no slot has two flags. */
  ghost predicate Paired(past: History) {
    && (forall f :: f in past.planted ==>
          f in past.issued && 1 <= past.planted[f].tick
          && past.planted[f] in past.slots && past.slots[past.planted[f]] == f)
    && (forall s :: s in past.slots ==> past.slots[s] in past.planted && past.planted[past.slots[s]] == s)
  }

  ghost predicate SlotsDone(w: World) {
    forall s :: s in w.past.slots ==> !Due(w, s)
  }

  /** A flag is stored exactly until its lifetime reaches the last expiry. */
  ghost predicate Stored(cfg: Config, db: Ledger, past: History) {
    forall f :: f in db.flags <==> f in past.planted && past.planted[f].tick + cfg.K > past.expiredTo
  }

  /** Every row says what was planted and who stole it first. */
  ghost predicate RowsMatch(cfg: Config, db: Ledger, past: History) {
    forall f :: f in db.flags ==>
      && f in past.planted && db.flags[f].slot == past.planted[f]
      && db.flags[f].expires == past.planted[f].tick + cfg.K
      && db.flags[f].stolen == if f in past.thefts then Some(past.thefts[f]) else None
  }

  ghost predicate FlagsOk(cfg: Config, w: World) {
    Paired(w.past) && SlotsDone(w) && Stored(cfg, w.db, w.past) && RowsMatch(cfg, w.db, w.past)
  }

  /** Thefts are of planted flags, while they were live. */
  ghost predicate TheftsOk(cfg: Config, w: World) {
    forall f :: f in w.past.thefts ==>
      && f in w.past.planted && w.past.thefts[f].tick <= w.db.tick
      && w.past.planted[f].tick <= w.past.thefts[f].tick < w.past.planted[f].tick + cfg.K
  }

  ghost predicate FlagInv(cfg: Config, w: World) {
    Timed(w) && Tidy(w) && FlagsOk(cfg, w) && TheftsOk(cfg, w)
  }

  function PlantedIn(past: History, slot: Slot, token: Token): History {
    Drawn(past, slot, token, true)
  }

  lemma PlantPairs(past: History, slot: Slot, token: Token)
    requires Paired(past) && token !in past.issued && slot !in past.slots && 1 <= slot.tick
    ensures Paired(PlantedIn(past, slot, token))
  {
  }

  lemma PlantStores(cfg: Config, db: Ledger, past: History, slot: Slot, token: Token, ref: string)
    requires Stored(cfg, db, past) && token !in past.planted && past.expiredTo < slot.tick + cfg.K
    ensures Stored(cfg, Plant(db, slot, token, ref, cfg.K), PlantedIn(past, slot, token))
  {
  }

  lemma PlantMatches(cfg: Config, db: Ledger, past: History, slot: Slot, token: Token, ref: string)
    requires RowsMatch(cfg, db, past) && token !in past.planted && token !in past.thefts
    ensures RowsMatch(cfg, Plant(db, slot, token, ref, cfg.K), PlantedIn(past, slot, token))
  {
  }

  /** Storing a fresh flag for a slot that has none. */
  lemma PlantKeeps(cfg: Config, db: Ledger, past: History, slot: Slot, token: Token, ref: string)
    requires Paired(past) && Stored(cfg, db, past) && RowsMatch(cfg, db, past)
    requires token !in past.issued && token !in past.thefts && slot !in past.slots && 1 <= slot.tick
    requires past.expiredTo < slot.tick + cfg.K
    ensures var past' := PlantedIn(past, slot, token);
            var db' := Plant(db, slot, token, ref, cfg.K);
            Paired(past') && Stored(cfg, db', past') && RowsMatch(cfg, db', past')
  {
    hide Stored, Paired, RowsMatch, Plant;
    NotYet(past, token);
    PlantPairs(past, slot, token);
    PlantStores(cfg, db, past, slot, token, ref);
    PlantMatches(cfg, db, past, slot, token, ref);
  }

  lemma NotYet(past: History, token: Token)
    requires Paired(past) && token !in past.issued
    ensures token !in past.planted
  {
  }

  lemma SkipKeeps(cfg: Config, db: Ledger, db': Ledger, past: History, token: Token)
    requires Paired(past) && Stored(cfg, db, past) && RowsMatch(cfg, db, past) && db'.flags == db.flags
    ensures var past' := past.(issued := past.issued + {token});
            Paired(past') && Stored(cfg, db', past') && RowsMatch(cfg, db', past')
  {
  }

  lemma SlotsDoneKept(cfg: Config, w: World, step: Step)
    requires Timed(w) && Tidy(w) && Enabled(cfg, w, step) && Timely(w, step) && !step.NewRound? && SlotsDone(w)
    ensures SlotsDone(Next(cfg, w, step))
  {
    hide Due, Timed, Tidy, Enabled;
    var w' := Next(cfg, w, step);
    forall s | s in w'.past.slots
      ensures !Due(w', s)
    {
      if Due(w', s) {
        DueShrinks(cfg, w, step, s);
      }
    }
  }

  lemma CurrentIsDue(w: World, p: Name)
    requires Timed(w) && w.phase.Scoring? && p in w.phase.workers && w.phase.workers[p].todo != []
    ensures Due(w, CurrentSlot(w, p)) && CurrentSlot(w, p).tick == w.db.tick > w.past.expiredTo >= 0
  {
  }

  lemma FlagsKeptByProbe(cfg: Config, w: World, step: Step)
    requires FlagInv(cfg, w) && Enabled(cfg, w, step) && step.Probe?
    ensures FlagsOk(cfg, Next(cfg, w, step)) && TheftsOk(cfg, Next(cfg, w, step))
  {
    hide Due, Tidy, Timed, SlotsDone, IsFlagFor, Climbing;
    var p, obs, token := step.player, step.obs, step.token;
    var slot := CurrentSlot(w, p);
    SlotsDoneKept(cfg, w, step);
    ScoreTouches(cfg, w.db, slot, w.phase.workers[p].inGrace, obs, token, step.earlier);
    hide ScoreRung;
    CurrentIsDue(w, p);
    DueIsFree(w, slot);
    NeverStolen(cfg, w, token);
    if obs.healthy && cfg.Carries(slot.rung) && obs.planted.Some? {
      PlantKeeps(cfg, w.db, w.past, slot, token, obs.planted.value);
      SameFlags(cfg, Plant(w.db, slot, token, obs.planted.value, cfg.K), Next(cfg, w, step).db,
                PlantedIn(w.past, slot, token));
    } else {
      SkipKeeps(cfg, w.db, Next(cfg, w, step).db, w.past, token);
    }
  }

  lemma FlagsKeptByDeath(cfg: Config, w: World, step: Step)
    requires FlagInv(cfg, w) && Enabled(cfg, w, step) && step.Raised?
    ensures FlagsOk(cfg, Next(cfg, w, step)) && TheftsOk(cfg, Next(cfg, w, step))
  {
    hide Due, Tidy, Timed, SlotsDone, Climbing, Plant, TheftsOk, Stored, RowsMatch;
    var token := step.token;
    var slot := CurrentSlot(w, step.player);
    SlotsDoneKept(cfg, w, step);
    CurrentIsDue(w, step.player);
    DueIsFree(w, slot);
    NeverStolen(cfg, w, token);
    if step.planted.Some? {
      PlantKeeps(cfg, w.db, w.past, slot, token, step.planted.value);
    } else {
      SkipKeeps(cfg, w.db, w.db, w.past, token);
    }
    TheftsKeptByDeath(cfg, w, step);
  }

  lemma TheftsKeptByDeath(cfg: Config, w: World, step: Step)
    requires TheftsOk(cfg, w) && Paired(w.past) && Enabled(cfg, w, step) && step.Raised?
    ensures TheftsOk(cfg, Next(cfg, w, step))
  {
    NotYet(w.past, step.token);
  }

  lemma DueIsFree(w: World, slot: Slot)
    requires SlotsDone(w) && Due(w, slot)
    ensures slot !in w.past.slots
  {
  }

  lemma NeverStolen(cfg: Config, w: World, token: Token)
    requires Paired(w.past) && TheftsOk(cfg, w) && token !in w.past.issued
    ensures token !in w.past.thefts && token !in w.past.planted
  {
  }

  lemma SameFlags(cfg: Config, db: Ledger, db': Ledger, past: History)
    requires Stored(cfg, db, past) && RowsMatch(cfg, db, past) && db'.flags == db.flags
    ensures Stored(cfg, db', past) && RowsMatch(cfg, db', past)
  {
  }

  lemma ExpireKeeps(cfg: Config, db: Ledger, past: History, tick: int)
    requires Stored(cfg, db, past) && RowsMatch(cfg, db, past) && past.expiredTo <= tick
    ensures Stored(cfg, Expire(db, tick), past.(expiredTo := tick))
    ensures RowsMatch(cfg, Expire(db, tick), past.(expiredTo := tick))
    ensures Expire(db, tick) == db.(flags := Expire(db, tick).flags)
  {
  }

  /** The first theft of a live flag is noted in its row and in the history; later ones change nothing. */
  lemma StealKeeps(cfg: Config, w: World, flag: Token, who: Name)
    requires Paired(w.past) && Stored(cfg, w.db, w.past) && RowsMatch(cfg, w.db, w.past)
    requires flag in w.db.flags
    ensures var theft := Theft(who, w.db.tick);
            var past' := if flag in w.past.thefts then w.past else w.past.(thefts := w.past.thefts[flag := theft]);
            var db' := MarkStolen(w.db, flag, who, w.db.tick);
            Paired(past') && Stored(cfg, db', past') && RowsMatch(cfg, db', past')
  {
    if flag in w.past.thefts {
      assert MarkStolen(w.db, flag, who, w.db.tick) == w.db;
    } else {
      FirstTheft(cfg, w.db, w.past, flag, who);
    }
  }

  lemma FirstTheft(cfg: Config, db: Ledger, past: History, flag: Token, who: Name)
    requires Paired(past) && Stored(cfg, db, past) && RowsMatch(cfg, db, past)
    requires flag in db.flags && flag !in past.thefts
    ensures var past' := past.(thefts := past.thefts[flag := Theft(who, db.tick)]);
            var db' := MarkStolen(db, flag, who, db.tick);
            Paired(past') && Stored(cfg, db', past') && RowsMatch(cfg, db', past')
  {
    hide Paired;
    var past' := past.(thefts := past.thefts[flag := Theft(who, db.tick)]);
    SamePairs(past, past');
    assert MarkStolen(db, flag, who, db.tick).flags.Keys == db.flags.Keys;
  }

  lemma TheftsKept(cfg: Config, w: World, flag: Token, who: Name)
    requires TheftsOk(cfg, w) && RowsMatch(cfg, w.db, w.past)
    requires flag in w.db.flags && w.db.flags[flag].expires > w.db.tick && w.past.planted[flag].tick <= w.db.tick
    ensures TheftsOk(cfg, w.(past := w.past.(thefts := w.past.thefts[flag := Theft(who, w.db.tick)])))
  {
  }

  /** Planted slots are in the past. */
  lemma PlantedBefore(w: World, f: Token)
    requires Paired(w.past) && SlotsDone(w) && f in w.past.planted
    ensures w.past.planted[f].tick <= w.db.tick
  {
    assert !Due(w, w.past.planted[f]);
  }

  lemma FlagsKeptBySubmit(cfg: Config, w: World, step: Step)
    requires FlagInv(cfg, w) && Enabled(cfg, w, step) && step.Submitted?
    ensures FlagsOk(cfg, Next(cfg, w, step)) && TheftsOk(cfg, Next(cfg, w, step))
  {
    hide Timed, Tidy, SlotsDone, Paired, Stored;
    var flag, who := step.flag, step.who;
    var outcome := Submit(cfg, w.db, who, flag, step.claimed, step.writeup).0;
    SlotsDoneKept(cfg, w, step);
    SubmitTouches(cfg, w.db, who, flag, step.claimed, step.writeup);
    hide Submit;
    if outcome == Recorded(Accepted) {
      assert flag in w.past.planted;
      PlantedBefore(w, flag);
      StealKeeps(cfg, w, flag, who);
      TheftsKept(cfg, w, flag, who);
      var w' := Next(cfg, w, step);
      SameFlags(cfg, MarkStolen(w.db, flag, who, w.db.tick), w'.db, w'.past);
    } else {
      SameFlags(cfg, w.db, Next(cfg, w, step).db, w.past);
    }
  }

  lemma FlagsKept(cfg: Config, w: World, step: Step)
    requires FlagInv(cfg, w) && Enabled(cfg, w, step) && Timely(w, step)
    ensures FlagInv(cfg, Next(cfg, w, step))
  {
    TimedKept(cfg, w, step);
    TidyKept(cfg, w, step);
    if step.Probe? {
      FlagsKeptByProbe(cfg, w, step);
    } else if step.Raised? {
      FlagsKeptByDeath(cfg, w, step);
    } else if step.Submitted? {
      FlagsKeptBySubmit(cfg, w, step);
    } else if !step.NewRound? {
      FlagsKeptOtherwise(cfg, w, step);
    }
  }

  lemma FlagsKeptOtherwise(cfg: Config, w: World, step: Step)
    requires FlagInv(cfg, w) && Enabled(cfg, w, step)
    requires Timely(w, step) && !step.Probe? && !step.Raised? && !step.Submitted? && !step.NewRound?
    ensures FlagsOk(cfg, Next(cfg, w, step)) && TheftsOk(cfg, Next(cfg, w, step))
  {
    hide Tidy, SlotsDone, Paired, Stored, RowsMatch, Settle, Review, Workers, Expire;
    var w' := Next(cfg, w, step);
    SlotsDoneKept(cfg, w, step);
    SamePairs(w.past, w'.past);
    match step
    case Finish => ExpireKeeps(cfg, w.db, w.past, w.phase.tick);
    case SettleBonus =>
      SettleTouchesUptime(cfg, w.db, w.phase.tick);
      SameFlags(cfg, w.db, w'.db, w'.past);
    case Reviewed(id, approve) =>
      ReviewTouchesSubmissions(cfg, w.db, id, approve);
      SameFlags(cfg, w.db, w'.db, w'.past);
    case Deployed(_, _, _) =>
      SameMatches(cfg, w.db, w.past, w'.past);
      SameFlags(cfg, w.db, w'.db, w'.past);
    case _ => SameFlags(cfg, w.db, w'.db, w'.past);
  }

  lemma SamePairs(past: History, past': History)
    requires Paired(past) && past'.planted == past.planted && past'.slots == past.slots && past'.issued == past.issued
    ensures Paired(past')
  {
  }

  lemma SameMatches(cfg: Config, db: Ledger, past: History, past': History)
    requires Stored(cfg, db, past) && RowsMatch(cfg, db, past)
    requires past' == past.(deploys := past'.deploys)
    ensures Stored(cfg, db, past') && RowsMatch(cfg, db, past')
  {
  }

  lemma FlagsStart(cfg: Config, w: World)
    requires Initial(cfg, w)
    ensures FlagInv(cfg, w)
  {
  }

  /** In every state of every run without a reset during a tick or a worker that outlives it. */
  lemma {:induction false} FlagsAlways(cfg: Config, w: World, steps: seq<Step>, end: World)
    requires FlagInv(cfg, w) && Reaches(cfg, w, steps, end) && Undisturbed(cfg, w, steps)
    ensures FlagInv(cfg, end)
    decreases |steps|
  {
    hide Enabled, Next, FlagInv, Timely;
    if steps != [] {
      FlagsKept(cfg, w, steps[0]);
      FlagsAlways(cfg, Next(cfg, w, steps[0]), steps[1..], end);
    }
  }

  // ----- what this means for a flag -----------------------------------------------------------

  /**
   * In every state an undisturbed run reaches, a planted flag is accepted exactly in ticks t .. t + K - 1, and is
   * stored exactly until an expiry at t + K or later; nothing else is ever accepted.
   */
  lemma FlagLifetime(cfg: Config, w: World, f: Token)
    requires FlagInv(cfg, w)
    ensures FindLive(w.db, f, w.db.tick).Some?
            <==> f in w.past.planted && w.past.planted[f].tick <= w.db.tick < w.past.planted[f].tick + cfg.K
    ensures FindLive(w.db, f, w.db.tick).Some? ==> FindLive(w.db, f, w.db.tick).value.slot == w.past.planted[f]
    ensures f in w.db.flags <==> f in w.past.planted && w.past.expiredTo < w.past.planted[f].tick + cfg.K
  {
    hide Due, Tidy, SlotsDone;
    if f in w.past.planted {
      PlantedBefore(w, f);
    }
  }

  /** After the expiry of tick T only flags of T - K + 1 .. T are stored, at most one per slot. */
  lemma FlagsAfterExpiry(cfg: Config, w: World)
    requires FlagInv(cfg, w) && Enabled(cfg, w, Finish)
    ensures var db := Next(cfg, w, Finish).db;
            && (forall f :: f in db.flags ==> w.phase.tick - cfg.K < db.flags[f].slot.tick <= w.phase.tick)
            && (forall f, g :: f in db.flags && g in db.flags && db.flags[f].slot == db.flags[g].slot ==> f == g)
  {
    hide Due, Tidy, SlotsDone;
    var db := Next(cfg, w, Finish).db;
    forall f | f in db.flags
      ensures w.phase.tick - cfg.K < db.flags[f].slot.tick <= w.phase.tick
    {
      assert f in w.db.flags;
      PlantedBefore(w, f);
    }
  }

  /** The tokens two flags of one slot would need are one and the same. */
  lemma OneFlagPerSlot(cfg: Config, w: World, slot: Slot, pick: Option<Token>)
    requires FlagInv(cfg, w) && IsFlagFor(w.db, slot, pick)
    ensures pick.Some? ==> slot in w.past.slots && pick.value == w.past.slots[slot]
    ensures pick.None? ==> slot !in w.past.slots || slot.tick + cfg.K <= w.past.expiredTo
  {
    hide Due, Tidy, SlotsDone;
    if pick.None? && slot in w.past.slots {
      var f := w.past.slots[slot];
      assert w.past.planted[f] == slot;
      assert f in w.db.flags <==> slot.tick + cfg.K > w.past.expiredTo;
    }
  }

  // ----- what this means for the bonus ----------------------------------------------------------

  /** A flag of this player and rung was first stolen in that tick, by the history. */
  ghost predicate LostBy(past: History, s: Slot, tick: int) {
    exists f :: f in past.thefts && f in past.planted && past.thefts[f].tick == tick
                && past.planted[f].player == s.player && past.planted[f].rung == s.rung
  }

  /**
   * When tick T + 1 settles T, every flag first stolen in T is still stored, although T's expiry
   * has run: the stored flags tell exactly what was first stolen in T.
   */
  lemma TheftsStillStored(cfg: Config, w: World, s: Slot)
    requires FlagInv(cfg, w) && w.phase.Begun?
    ensures forall f :: f in w.past.thefts && w.past.thefts[f].tick == w.phase.tick - 1 ==>
              f in w.db.flags && w.db.flags[f].stolen == Some(w.past.thefts[f])
    ensures LostIn(w.db, s, w.phase.tick - 1) <==> LostBy(w.past, s, w.phase.tick - 1)
  {
    hide Due, Tidy, SlotsDone;
    var t := w.phase.tick - 1;
    forall f | f in w.past.thefts && w.past.thefts[f].tick == t
      ensures f in w.db.flags && w.db.flags[f].stolen == Some(w.past.thefts[f])
      ensures w.db.flags[f].slot == w.past.planted[f]
    {
      assert w.past.planted[f].tick + cfg.K > t >= w.past.expiredTo;
    }
    if LostIn(w.db, s, t) {
      var f :| f in w.db.flags && w.db.flags[f].slot.player == s.player && w.db.flags[f].slot.rung == s.rung
               && w.db.flags[f].stolen.Some? && w.db.flags[f].stolen.value.tick == t;
      assert f in w.past.thefts;
    }
  }

  /**
   * Settlement pays what the rules say: in every state an undisturbed run reaches, settling a tick gives each ok row
   * of an active player its weight, plus the bonus exactly when no flag of that player and rung was
   * first stolen in that tick, and touches no other row.
   */
  lemma SettlementExact(cfg: Config, w: World, s: Slot)
    requires FlagInv(cfg, w) && w.phase.Begun? && Distinct(cfg.roster) && cfg.bonus != 0 && w.phase.tick >= 2
    requires s in w.db.uptime
    ensures Next(cfg, w, SettleBonus).db.uptime.Keys == w.db.uptime.Keys
    ensures var row, row' := w.db.uptime[s], Next(cfg, w, SettleBonus).db.uptime[s];
            var lost := LostBy(w.past, s, w.phase.tick - 1);
            row' == if s.tick == w.phase.tick - 1 && s.player in cfg.roster && Active(w.db, s.player) && row.ok
                    then row.(points := cfg.Weight(s.rung) + (if lost then 0 else cfg.bonus)) else row
  {
    hide Settle, Active, LostIn, LostBy, Timed, Tidy, FlagsOk;
    TheftsStillStored(cfg, w, s);
    SettlePays(cfg, w.db, w.phase.tick);
  }
}
