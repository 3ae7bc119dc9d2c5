// `ctfctl reset` while a tick is under way (bin/ctfctl, orchestrator/tick.py): exactly when the new
// round starts with something of the old one in its tables.
module Resets {
  import opened Bytes
  import opened Manifests
  import opened Ledgers
  import opened Rounds
  import opened FlagWindow
  import opened TickLoop

  /** The steps that see the tick under way to its end. */
  predicate OfTheTick(step: Step) {
    step.SettleBonus? || step.Launch? || step.Probe? || step.Raised? || step.Finish?
  }

  /** The tick under way runs to its end, and nothing else happens. */
  ghost predicate TickEnds(cfg: Config, w: World, steps: seq<Step>, end: World) {
    (forall i :: 0 <= i < |steps| ==> OfTheTick(steps[i])) && Reaches(cfg, w, steps, end) && end.phase.Idle?
  }

  /** A rung is still to be probed, by a worker that runs or that will be launched. */
  predicate StillDue(w: World, p: Name, r: Rung) {
    match w.phase
    case Idle => false
    case Begun(_) => Active(w.db, p) && DeclaresRung(w.db, p, r)
    case Settled(_) => Active(w.db, p) && DeclaresRung(w.db, p, r)
    case Scoring(_, workers) => p in workers && r in workers[p].todo
  }

  ghost predicate RungLeft(w: World) {
    exists p, r :: StillDue(w, p, r)
  }

  ghost predicate CarryingLeft(cfg: Config, w: World) {
    exists p, r :: StillDue(w, p, r) && cfg.Carries(r)
  }

  /** A row of a tick that the round has not come to. */
  ghost predicate StrayRow(db: Ledger) {
    exists s :: s in db.uptime && s.tick > db.tick
  }

  /** A flag that is accepted before the tick it was planted in. */
  ghost predicate StrayFlag(db: Ledger) {
    exists f :: f in db.flags && FindLive(db, f, db.tick).Some? && db.flags[f].slot.tick > db.tick
  }

  /**
   * What a reset keeps: who plays, with manifest, revision and status, and every token ever issued. It
   * unfreezes, ends all grace and empties the ledgers; the loop goes on where it is.
   */
  lemma ResetKeeps(cfg: Config, w: World)
    ensures var w' := Next(cfg, w, NewRound);
            && w'.db.tick == 0 && !w'.db.frozen
            && w'.db.flags == map[] && w'.db.uptime == map[] && w'.db.submissions == []
            && w'.db.players.Keys == w.db.players.Keys
            && (forall p :: p in w.db.players ==>
                  var before, after := w.db.players[p], w'.db.players[p];
                  && after.manifest == before.manifest && after.rev == before.rev && after.status == before.status
                  && after.graceUntil == 0)
            && w'.phase == w.phase && w'.past.issued == w.past.issued
            && w'.past.planted == map[] && w'.past.slots == map[] && w'.past.thefts == map[] && w'.past.deploys == {}
  {
  }

  // ----- nothing left: a clean round ---------------------------------------------------------------

  lemma {:induction false} SettleNothing(cfg: Config, db: Ledger, tick: int, players: seq<Name>)
    requires db.uptime == map[]
    ensures SettlePlayers(cfg, db, tick, players) == db
    decreases |players|
  {
    if players != [] {
      RungsNothing(cfg, db, tick, players[0], StolenDuring(db, players[0], tick), LADDER);
      SettleNothing(cfg, db, tick, players[1..]);
    }
  }

  lemma {:induction false} RungsNothing(
      cfg: Config, db: Ledger, tick: int, player: Name, stolen: set<Rung>, rungs: seq<Rung>)
    requires db.uptime == map[]
    ensures SettleRungs(cfg, db, tick, player, stolen, rungs) == db
    decreases |rungs|
  {
    if rungs != [] {
      RungsNothing(cfg, db, tick, player, stolen, rungs[1..]);
    }
  }

  /** Steps of the tick make nothing due that was not. */
  lemma StillDueShrinks(cfg: Config, w: World, step: Step, p: Name, r: Rung)
    requires Enabled(cfg, w, step) && OfTheTick(step) && StillDue(Next(cfg, w, step), p, r)
    ensures StillDue(w, p, r)
  {
    hide Settle, ScoreRung, Rungs, IsFlagFor, Planted;
    match step
    case SettleBonus => SettleTouchesUptime(cfg, w.db, w.phase.tick);
    case _ =>
  }

  lemma CleanStep(cfg: Config, w: World, step: Step)
    requires Enabled(cfg, w, step) && OfTheTick(step) && !RungLeft(w) && w.db.uptime == map[] && w.db.flags == map[]
    ensures Next(cfg, w, step).db == w.db && !RungLeft(Next(cfg, w, step))
  {
    hide SettlePlayers, StillDue, ScoreRung, Planted, IsFlagFor, Workers;
    forall p, r | StillDue(Next(cfg, w, step), p, r)
      ensures StillDue(w, p, r)
    {
      StillDueShrinks(cfg, w, step, p, r);
    }
    if step.Probe? || step.Raised? {
      HeadIsDue(w, step.player);
    }
    SettleNothing(cfg, w.db, if w.phase.Begun? then w.phase.tick - 1 else 0, cfg.roster);
  }

  lemma HeadIsDue(w: World, p: Name)
    requires w.phase.Scoring? && p in w.phase.workers && w.phase.workers[p].todo != []
    ensures StillDue(w, p, w.phase.workers[p].todo[0])
  {
  }

  lemma {:induction false} CleanRun(cfg: Config, w: World, steps: seq<Step>, end: World)
    requires TickEnds(cfg, w, steps, end) && !RungLeft(w) && w.db.uptime == map[] && w.db.flags == map[]
    ensures end.db == w.db
    decreases |steps|
  {
    hide Enabled, Next, RungLeft, OfTheTick;
    if steps != [] {
      CleanStep(cfg, w, steps[0]);
      assert forall i :: 0 <= i < |steps| - 1 ==> steps[1..][i] == steps[i + 1];
      CleanRun(cfg, Next(cfg, w, steps[0]), steps[1..], end);
    }
  }

  lemma FlaglessStep(cfg: Config, w: World, step: Step)
    requires Enabled(cfg, w, step) && OfTheTick(step) && !CarryingLeft(cfg, w) && w.db.flags == map[]
    ensures Next(cfg, w, step).db.flags == map[] && !CarryingLeft(cfg, Next(cfg, w, step))
  {
    hide Settle, StillDue, ScoreRung, IsFlagFor, Workers, Config.Carries;
    forall p, r | StillDue(Next(cfg, w, step), p, r)
      ensures StillDue(w, p, r)
    {
      StillDueShrinks(cfg, w, step, p, r);
    }
    match step
    case SettleBonus => SettleTouchesUptime(cfg, w.db, w.phase.tick);
    case Probe(p, obs, token, earlier) =>
      HeadIsDue(w, p);
      ScoreTouches(cfg, w.db, CurrentSlot(w, p), w.phase.workers[p].inGrace, obs, token, earlier);
    case Raised(p, _, _) => HeadIsDue(w, p);
    case _ =>
  }

  lemma {:induction false} FlaglessRun(cfg: Config, w: World, steps: seq<Step>, end: World)
    requires TickEnds(cfg, w, steps, end) && !CarryingLeft(cfg, w) && w.db.flags == map[]
    ensures end.db.flags == map[]
    decreases |steps|
  {
    hide Enabled, Next, CarryingLeft, OfTheTick;
    if steps != [] {
      FlaglessStep(cfg, w, steps[0]);
      assert forall i :: 0 <= i < |steps| - 1 ==> steps[1..][i] == steps[i + 1];
      FlaglessRun(cfg, Next(cfg, w, steps[0]), steps[1..], end);
    }
  }

  // ----- something left: a run that leaves a trace -------------------------------------------------

  lemma {:induction false} LongEnough(issued: set<Token>) returns (n: nat)
    ensures forall t :: t in issued ==> |t| <= n
    decreases |issued|
  {
    n := 0;
    if exists t :: t in issued {
      var t :| t in issued;
      var rest := LongEnough(issued - {t});
      n := if |t| > rest then |t| else rest;
    }
  }

  lemma NewToken(issued: set<Token>) returns (t: Token)
    ensures t !in issued
  {
    var n := LongEnough(issued);
    t := seq(n + 1, _ => 'F');
  }

  /** What stays when probes follow: rows, and flags under tokens that were issued. */
  ghost predicate Kept(w: World, end: World) {
    && w.db.flags.Keys <= w.past.issued && end.db.flags.Keys <= end.past.issued
    && w.db.uptime.Keys <= end.db.uptime.Keys
    && (forall f :: f in w.db.flags ==> f in end.db.flags && end.db.flags[f] == w.db.flags[f])
    && end.db == w.db.(uptime := end.db.uptime, flags := end.db.flags)
  }

  lemma KeptOn(a: World, b: World, c: World)
    requires Kept(a, b) && Kept(b, c)
    ensures Kept(a, c)
  {
  }

  /** The slot has its row, and a flag if flags are planted there. */
  ghost predicate Traced(cfg: Config, db: Ledger, s: Slot) {
    && s in db.uptime
    && (cfg.Carries(s.rung) ==>
          exists f :: f in db.flags && db.flags[f].slot == s && db.flags[f].expires == s.tick + cfg.K)
  }

  lemma TraceKept(cfg: Config, w: World, end: World, s: Slot)
    requires Kept(w, end) && Traced(cfg, w.db, s)
    ensures Traced(cfg, end.db, s)
  {
    if cfg.Carries(s.rung) {
      var f :| f in w.db.flags && w.db.flags[f].slot == s && w.db.flags[f].expires == s.tick + cfg.K;
      assert f in end.db.flags;
    }
  }

  lemma ScoreTraces(
      cfg: Config, db: Ledger, slot: Slot, inGrace: bool, ref: string, token: Token, earlier: Option<Token>)
    ensures Traced(cfg, ScoreRung(cfg, db, slot, inGrace, Observation(true, Some(ref), None), token, earlier), slot)
  {
    hide IsUp;
    var after := ScoreRung(cfg, db, slot, inGrace, Observation(true, Some(ref), None), token, earlier);
    if cfg.Carries(slot.rung) {
      assert after.flags[token] == Flag(slot, ref, slot.tick + cfg.K, None);
    }
  }

  /** A service that is up and takes its flag. */
  lemma ProbeTraces(cfg: Config, w: World, p: Name) returns (step: Step)
    requires w.phase.Scoring? && p in w.phase.workers && w.phase.workers[p].todo != []
    requires w.db.flags.Keys <= w.past.issued
    ensures step.Probe? && step.player == p && Enabled(cfg, w, step)
    ensures var w' := Next(cfg, w, step);
            && Kept(w, w') && Traced(cfg, w'.db, CurrentSlot(w, p))
            && w'.phase == Scoring(w.phase.tick, w.phase.workers[p :=
                             Worker(w.phase.workers[p].inGrace, w.phase.workers[p].todo[1..])])
  {
    hide IsUp, Traced;
    var slot := CurrentSlot(w, p);
    var token := NewToken(w.past.issued);
    var obs := Observation(true, Some(""), None);
    var earlier := SomeFlag(Planted(cfg, w.db, slot, obs, token), SlaSlot(cfg, slot));
    hide IsFlagFor;
    step := Probe(p, obs, token, earlier);
    ScoreKeys(cfg, w.db, slot, w.phase.workers[p].inGrace, obs, token, earlier);
    ScoreTouches(cfg, w.db, slot, w.phase.workers[p].inGrace, obs, token, earlier);
    ScoreTraces(cfg, w.db, slot, w.phase.workers[p].inGrace, "", token, earlier);
    hide ScoreRung;
  }

  predicate AllProbes(steps: seq<Step>) {
    forall i :: 0 <= i < |steps| ==> steps[i].Probe?
  }

  /** One worker is probed to its end. */
  lemma {:induction false} DrainOne(cfg: Config, w: World, p: Name) returns (steps: seq<Step>, end: World)
    requires w.phase.Scoring? && p in w.phase.workers && w.db.flags.Keys <= w.past.issued
    ensures AllProbes(steps) && Reaches(cfg, w, steps, end) && Kept(w, end)
    ensures end.phase == Scoring(w.phase.tick, w.phase.workers[p := Worker(w.phase.workers[p].inGrace, [])])
    ensures forall r :: r in w.phase.workers[p].todo ==> Traced(cfg, end.db, Slot(w.phase.tick, p, r))
    decreases |w.phase.workers[p].todo|
  {
    hide Enabled, Next, Traced, Kept, Reaches;
    KeptNow(w);
    EmptyRun(cfg, w);
    var todo := w.phase.workers[p].todo;
    if todo == [] {
      steps, end := [], w;
      assert w.phase.workers[p := Worker(w.phase.workers[p].inGrace, [])] == w.phase.workers;
    } else {
      var step := ProbeTraces(cfg, w, p);
      var mid := Next(cfg, w, step);
      KeptIssued(w, mid);
      var more: seq<Step>;
      more, end := DrainOne(cfg, mid, p);
      steps := [step] + more;
      StepThen(cfg, w, step, more, end);
      KeptOn(w, mid, end);
      TraceKept(cfg, mid, end, Slot(w.phase.tick, p, todo[0]));
      assert todo == [todo[0]] + todo[1..];
      assert mid.phase.workers[p := Worker(w.phase.workers[p].inGrace, [])]
          == w.phase.workers[p := Worker(w.phase.workers[p].inGrace, [])];
    }
  }

  lemma KeptNow(w: World)
    requires w.db.flags.Keys <= w.past.issued
    ensures Kept(w, w)
  {
  }

  lemma KeptIssued(w: World, end: World)
    requires Kept(w, end)
    ensures end.db.flags.Keys <= end.past.issued
  {
  }

  lemma StepThen(cfg: Config, w: World, step: Step, more: seq<Step>, end: World)
    requires Enabled(cfg, w, step) && Reaches(cfg, Next(cfg, w, step), more, end)
    ensures Reaches(cfg, w, [step] + more, end)
  {
    hide Enabled, Next;
    assert ([step] + more)[1..] == more;
  }

  /** Every worker is probed to its end. */
  lemma {:induction false} DrainAll(cfg: Config, w: World, names: set<Name>) returns (steps: seq<Step>, end: World)
    requires w.phase.Scoring? && names <= w.phase.workers.Keys && w.db.flags.Keys <= w.past.issued
    ensures AllProbes(steps) && Reaches(cfg, w, steps, end) && Kept(w, end)
    ensures end.phase.Scoring? && end.phase.tick == w.phase.tick && end.phase.workers.Keys == w.phase.workers.Keys
    ensures forall p :: p in w.phase.workers ==>
              if p in names then end.phase.workers[p].todo == [] else end.phase.workers[p] == w.phase.workers[p]
    ensures forall p, r :: p in names && r in w.phase.workers[p].todo ==> Traced(cfg, end.db, Slot(w.phase.tick, p, r))
    decreases |names|
  {
    hide Enabled, Next, Traced, Kept, Reaches;
    KeptNow(w);
    EmptyRun(cfg, w);
    steps, end := [], w;
    if exists p :: p in names {
      var p :| p in names;
      var first, mid := DrainOne(cfg, w, p);
      KeptIssued(w, mid);
      var more: seq<Step>;
      more, end := DrainAll(cfg, mid, names - {p});
      steps := first + more;
      ReachesThen(cfg, w, first, mid, more, end);
      KeptOn(w, mid, end);
      forall r | r in w.phase.workers[p].todo
        ensures Traced(cfg, end.db, Slot(w.phase.tick, p, r))
      {
        TraceKept(cfg, mid, end, Slot(w.phase.tick, p, r));
      }
    }
  }

  /** Launching the workers, if that is still to be done: what was due is due. */
  lemma ToScoring(cfg: Config, w: World) returns (steps: seq<Step>, end: World)
    requires !w.phase.Idle? && w.db.flags.Keys <= w.past.issued
    ensures (forall i :: 0 <= i < |steps| ==> OfTheTick(steps[i])) && Reaches(cfg, w, steps, end)
    ensures end.phase.Scoring? && end.phase.tick == w.phase.tick && end.db.flags.Keys <= end.past.issued
    ensures end.db.tick == w.db.tick
    ensures forall p, r :: StillDue(w, p, r) ==> StillDue(end, p, r)
    decreases if w.phase.Begun? then 2 else if w.phase.Settled? then 1 else 0
  {
    hide Settle, Rungs, Reaches;
    EmptyRun(cfg, w);
    if w.phase.Scoring? {
      steps, end := [], w;
    } else {
      var step := if w.phase.Begun? then SettleBonus else Launch;
      var mid := Next(cfg, w, step);
      SettleTouchesUptime(cfg, w.db, w.phase.tick);
      var more: seq<Step>;
      more, end := ToScoring(cfg, mid);
      steps := [step] + more;
      StepThen(cfg, w, step, more, end);
    }
  }

  /** A flag of this slot that lasts until its lifetime is over. */
  ghost predicate FlagOf(cfg: Config, db: Ledger, s: Slot) {
    exists f :: f in db.flags && db.flags[f].slot == s && db.flags[f].expires == s.tick + cfg.K
  }

  /** The tick can end with a row for every rung that is due, and a flag for every one that carries flags. */
  lemma TickLeaves(cfg: Config, w: World) returns (steps: seq<Step>, end: World)
    requires !w.phase.Idle? && w.db.flags.Keys <= w.past.issued
    ensures TickEnds(cfg, w, steps, end) && end.db.tick == w.db.tick
    ensures forall p, r :: StillDue(w, p, r) ==>
              var s := Slot(w.phase.tick, p, r);
              s in end.db.uptime && (cfg.K >= 1 && cfg.Carries(r) ==> FlagOf(cfg, end.db, s))
  {
    hide Enabled, Next, Reaches, Kept, Traced, FlagOf, StillDue;
    var start, launched := ToScoring(cfg, w);
    var probes, drained := DrainAll(cfg, launched, launched.phase.workers.Keys);
    FinishLeaves(cfg, drained);
    end := Next(cfg, drained, Finish);
    ReachesThen(cfg, w, start, launched, probes, drained);
    ReachesOne(cfg, w, start + probes, drained, Finish);
    steps := start + probes + [Finish];
    KeptTick(launched, drained);
    forall p, r | StillDue(w, p, r)
      ensures var s := Slot(w.phase.tick, p, r);
              s in end.db.uptime && (cfg.K >= 1 && cfg.Carries(r) ==> FlagOf(cfg, end.db, s))
    {
      DueWorker(launched, p, r);
      TraceLasts(cfg, drained, Slot(w.phase.tick, p, r));
    }
  }

  lemma KeptTick(w: World, end: World)
    requires Kept(w, end)
    ensures end.db.tick == w.db.tick
  {
  }

  lemma DueWorker(w: World, p: Name, r: Rung)
    requires w.phase.Scoring? && StillDue(w, p, r)
    ensures p in w.phase.workers && r in w.phase.workers[p].todo
  {
  }

  lemma FinishLeaves(cfg: Config, w: World)
    requires w.phase.Scoring? && forall p :: p in w.phase.workers ==> w.phase.workers[p].todo == []
    ensures Enabled(cfg, w, Finish) && Next(cfg, w, Finish).phase.Idle? && Next(cfg, w, Finish).db.tick == w.db.tick
  {
  }

  lemma TraceLasts(cfg: Config, w: World, s: Slot)
    requires w.phase.Scoring? && Enabled(cfg, w, Finish) && s.tick == w.phase.tick && Traced(cfg, w.db, s)
    ensures var db := Next(cfg, w, Finish).db;
            s in db.uptime && (cfg.K >= 1 && cfg.Carries(s.rung) ==> FlagOf(cfg, db, s))
  {
    if cfg.K >= 1 && cfg.Carries(s.rung) {
      var f :| f in w.db.flags && w.db.flags[f].slot == s && w.db.flags[f].expires == s.tick + cfg.K;
      assert f in Next(cfg, w, Finish).db.flags;
    }
  }

  // ----- the exact conditions -------------------------------------------------------------------------

  lemma ResetDue(w: World, p: Name, r: Rung)
    ensures StillDue(ResetWorld(w), p, r) <==> StillDue(w, p, r)
  {
  }

  lemma LateTick(w: World)
    requires Timed(w) && !w.phase.Idle?
    ensures w.phase.tick >= 1
  {
  }

  /**
   * A reset is clean, so that the tick under way can only end with the tables of a fresh round,
   * exactly when no rung is still to be probed: no worker has one left, and none is to be launched
   * for an active player that declares one. An operator can tell before the reset.
   */
  lemma ResetCleanIff(cfg: Config, w: World)
    requires FlagInv(cfg, w)
    ensures (forall steps, end :: TickEnds(cfg, ResetWorld(w), steps, end) ==> end.db == Reset(w.db)) <==> !RungLeft(w)
    ensures (exists steps, end :: TickEnds(cfg, ResetWorld(w), steps, end) && StrayRow(end.db)) <==> RungLeft(w)
    ensures exists steps, end :: TickEnds(cfg, ResetWorld(w), steps, end)
  {
    hide FlagInv, TickEnds, StillDue;
    var v := ResetWorld(w);
    SomehowEnds(cfg, v);
    forall p, r
      ensures StillDue(v, p, r) <==> StillDue(w, p, r)
    {
      ResetDue(w, p, r);
    }
    if RungLeft(w) {
      var p, r :| StillDue(w, p, r);
      RungMeansTick(cfg, w, p, r);
      var steps, end := TickLeaves(cfg, v);
      assert StrayRow(end.db) by {
        assert Slot(w.phase.tick, p, r) in end.db.uptime;
      }
    } else {
      forall steps, end | TickEnds(cfg, v, steps, end)
        ensures end.db == Reset(w.db)
      {
        CleanRun(cfg, v, steps, end);
      }
    }
  }

  lemma SomehowEnds(cfg: Config, w: World)
    requires w.db.flags == map[]
    ensures exists steps, end :: TickEnds(cfg, w, steps, end)
  {
    hide StillDue, FlagOf;
    if w.phase.Idle? {
      assert TickEnds(cfg, w, [], w);
    } else {
      var steps, end := TickLeaves(cfg, w);
    }
  }

  lemma RungMeansTick(cfg: Config, w: World, p: Name, r: Rung)
    requires FlagInv(cfg, w) && StillDue(w, p, r)
    ensures !w.phase.Idle? && w.phase.tick >= 1
  {
    hide Tidy, FlagsOk, TheftsOk;
    LateTick(w);
  }

  /**
   * For K >= 1 the tick under way can leave a flag that the new round accepts before its time
   * exactly when a rung that carries flags is still to be probed.
   */
  lemma StrayFlagIff(cfg: Config, w: World)
    requires FlagInv(cfg, w) && cfg.K >= 1
    ensures (exists steps, end :: TickEnds(cfg, ResetWorld(w), steps, end) && StrayFlag(end.db))
            <==> CarryingLeft(cfg, w)
  {
    hide FlagInv, TickEnds, StillDue, Config.Carries;
    var v := ResetWorld(w);
    forall p, r
      ensures StillDue(v, p, r) <==> StillDue(w, p, r)
    {
      ResetDue(w, p, r);
    }
    if CarryingLeft(cfg, w) {
      var p, r :| StillDue(w, p, r) && cfg.Carries(r);
      RungMeansTick(cfg, w, p, r);
      var steps, end := TickLeaves(cfg, v);
      var f :| f in end.db.flags && end.db.flags[f].slot == Slot(w.phase.tick, p, r)
               && end.db.flags[f].expires == w.phase.tick + cfg.K;
      assert StrayFlag(end.db);
    } else {
      forall steps, end | TickEnds(cfg, v, steps, end)
        ensures !StrayFlag(end.db)
      {
        FlaglessRun(cfg, v, steps, end);
      }
    }
  }

  /**
   * The witness: a worker of tick t whose next rung carries flags, at a service that takes its flag.
   * After a reset, this probe leaves a row of tick t and a flag that survives the expiry of its own
   * tick and is accepted in every tick below t + K, which is t more than any flag should have.
   */
  lemma StaleFlagOutlives(cfg: Config, w: World, step: Step)
    requires FlagInv(cfg, w) && cfg.K >= 1
    requires step.Probe? && Enabled(cfg, ResetWorld(w), step)
    requires cfg.Carries(CurrentSlot(w, step.player).rung) && step.obs.healthy && step.obs.planted.Some?
    ensures var db := Expire(Next(cfg, ResetWorld(w), step).db, w.phase.tick);
            && CurrentSlot(w, step.player) in db.uptime && db.tick == 0 < w.phase.tick
            && forall u :: FindLive(db, step.token, u).Some? <==> u < w.phase.tick + cfg.K
  {
    hide Tidy, FlagsOk, TheftsOk, IsFlagFor, IsUp;
    LateTick(w);
  }
}
