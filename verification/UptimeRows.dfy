// The uptime ledger over whole runs: what rows exist, what they are worth, and where grace applies.
module UptimeRows {
  import opened Bytes
  import opened Manifests
  import opened Ledgers
  import opened Rounds
  import opened FlagWindow
  import opened Bonus
  import opened Counting

  predicate Worth(cfg: Config, rung: Rung, row: Uptime) {
    if row.ok then row.points == cfg.Weight(rung) || row.points == cfg.Weight(rung) + cfg.bonus else row.points == 0
  }

  /** The tick lies in the grace of a deployment at tick `d`. */
  predicate GracedBy(cfg: Config, d: int, tick: int) {
    d <= tick <= d + cfg.graceTicks
  }

  ghost predicate RowOk(cfg: Config, w: World, s: Slot, row: Uptime) {
    && 1 <= s.tick && !Due(w, s) && s.player in cfg.roster
    && Worth(cfg, s.rung, row)
    && (row.ok && !row.grace && cfg.Carries(s.rung) ==> s in w.past.slots)
    && (row.grace ==> exists d :: (s.player, d) in w.past.deploys && GracedBy(cfg, d, s.tick))
    && (!row.ok ==> forall d :: (s.player, d) in w.past.deploys ==> !(d < s.tick <= d + cfg.graceTicks))
  }

  ghost predicate RowsOk(cfg: Config, w: World) {
    forall s :: s in w.db.uptime ==> RowOk(cfg, w, s, w.db.uptime[s])
  }

  /** The grace a player's row holds is that of the latest deployment. */
  ghost predicate GraceOk(cfg: Config, w: World) {
    && w.db.players.Keys == (set p | p in cfg.roster)
    && (forall p, d :: (p, d) in w.past.deploys ==>
          d <= w.db.tick && p in w.db.players && d + cfg.graceTicks <= w.db.players[p].graceUntil)
    && (forall p :: p in w.db.players && w.db.players[p].graceUntil > 0 ==>
          exists d :: (p, d) in w.past.deploys && w.db.players[p].graceUntil == d + cfg.graceTicks)
  }

  ghost predicate WorkerOk(cfg: Config, w: World, p: Name, worker: Worker)
    requires w.phase.Scoring?
  {
    var t := w.phase.tick;
    && p in cfg.roster
    && (worker.inGrace ==> exists d :: (p, d) in w.past.deploys && GracedBy(cfg, d, t))
    && (!worker.inGrace ==> forall d :: (p, d) in w.past.deploys ==> !(d < t <= d + cfg.graceTicks))
  }

  ghost predicate WorkersOk(cfg: Config, w: World) {
    w.phase.Scoring? ==> forall p :: p in w.phase.workers ==> WorkerOk(cfg, w, p, w.phase.workers[p])
  }

  ghost predicate RowInv(cfg: Config, w: World) {
    Timed(w) && Tidy(w) && Started(w) && RowsOk(cfg, w) && GraceOk(cfg, w) && WorkersOk(cfg, w)
  }

  /** Ticks under way count from 1. */
  predicate Started(w: World) {
    !w.phase.Idle? ==> w.db.tick >= 1
  }

  // ----- rows ------------------------------------------------------------------------------

  lemma RowKept(cfg: Config, w: World, step: Step, s: Slot, row: Uptime)
    requires RowOk(cfg, w, s, row) && Timed(w) && Tidy(w) && Enabled(cfg, w, step) && Timely(w, step) && !step.NewRound?
    ensures RowOk(cfg, Next(cfg, w, step), s, row)
  {
    hide Due, Timed, Tidy, Worth, ScoreRung, Settle, Submit, Review, IsFlagFor;
    var w' := Next(cfg, w, step);
    assert !Due(w', s) by {
      if Due(w', s) {
        DueShrinks(cfg, w, step, s);
      }
    }
    assert w.past.slots.Keys <= w'.past.slots.Keys;
    if step.Deployed? {
      assert s.tick <= w.db.tick by { NotDuePast(w, s); }
    }
  }

  lemma NotDuePast(w: World, s: Slot)
    requires !Due(w, s)
    ensures s.tick <= w.db.tick
  {
  }

  lemma RowsKept(cfg: Config, w: World, step: Step)
    requires RowInv(cfg, w) && Enabled(cfg, w, step) && Timely(w, step) && Distinct(cfg.roster)
    ensures RowsOk(cfg, Next(cfg, w, step))
  {
    hide RowOk, Enabled, Timed, Tidy, WorkersOk, GraceOk, Started;
    var w' := Next(cfg, w, step);
    if !step.NewRound? {
      forall s | s in w'.db.uptime
        ensures RowOk(cfg, w', s, w'.db.uptime[s])
      {
        OldOrNew(cfg, w, step, s);
        if s in w.db.uptime && w'.db.uptime[s] == w.db.uptime[s] {
          RowKept(cfg, w, step, s, w.db.uptime[s]);
        } else if step.SettleBonus? {
          var row := w.db.uptime[s];
          RowRepriced(cfg, w, s, row, w'.db.uptime[s]);
          RowKept(cfg, w, step, s, w'.db.uptime[s]);
        } else {
          RowScored(cfg, w, step);
        }
      }
    }
  }

  /** A row is as it was, or repriced by settling, or the one just scored. */
  lemma OldOrNew(cfg: Config, w: World, step: Step, s: Slot)
    requires Enabled(cfg, w, step) && Timely(w, step) && !step.NewRound? && Distinct(cfg.roster)
    requires s in Next(cfg, w, step).db.uptime
    ensures var w' := Next(cfg, w, step);
            || (s in w.db.uptime && w'.db.uptime[s] == w.db.uptime[s])
            || (step.SettleBonus? && s in w.db.uptime && SameButPoints(cfg, s.rung, w.db.uptime[s], w'.db.uptime[s]))
            || (step.Probe? && s == CurrentSlot(w, step.player))
  {
    hide IsFlagFor, Settle, Submit, Review, Planted, IsUp;
    match step
    case SettleBonus => SettledRow(cfg, w.db, w.phase.tick, s);
    case Submitted(who, flag, claimed, writeup) => SubmitTouches(cfg, w.db, who, flag, claimed, writeup);
    case Reviewed(id, approve) => ReviewTouchesSubmissions(cfg, w.db, id, approve);
    case Probe(p, obs, token, earlier) => PlantedTouchesFlags(cfg, w.db, CurrentSlot(w, p), obs, token);
    case _ =>
  }

  predicate SameButPoints(cfg: Config, rung: Rung, row: Uptime, row': Uptime) {
    && row.ok && row' == row.(points := row'.points)
    && (row'.points == cfg.Weight(rung) || row'.points == cfg.Weight(rung) + cfg.bonus)
  }

  lemma SettledRow(cfg: Config, db: Ledger, tick: int, s: Slot)
    requires Distinct(cfg.roster) && s in Settle(cfg, db, tick).uptime
    ensures s in db.uptime
    ensures var row, row' := db.uptime[s], Settle(cfg, db, tick).uptime[s];
            row' == row || SameButPoints(cfg, s.rung, row, row')
  {
    hide Active, StolenDuring;
    SettlePlayersReprices(cfg, db, tick - 1, cfg.roster);
  }

  lemma RowRepriced(cfg: Config, w: World, s: Slot, row: Uptime, row': Uptime)
    requires RowOk(cfg, w, s, row) && SameButPoints(cfg, s.rung, row, row')
    ensures RowOk(cfg, w, s, row')
  {
  }

  lemma RowScored(cfg: Config, w: World, step: Step)
    requires Timed(w) && Tidy(w) && Started(w) && WorkersOk(cfg, w) && Enabled(cfg, w, step) && step.Probe?
    ensures var w' := Next(cfg, w, step);
            var s := CurrentSlot(w, step.player);
            s in w'.db.uptime && RowOk(cfg, w', s, w'.db.uptime[s])
  {
    hide Due, Timed, Tidy, IsFlagFor, Planted;
    var w', s := Next(cfg, w, step), CurrentSlot(w, step.player);
    assert !Due(w', s) by {
      if Due(w', s) {
        DueShrinks(cfg, w, step, s);
      }
    }
    CurrentIsDue(w, step.player);
    assert WorkerOk(cfg, w, step.player, w.phase.workers[step.player]);
  }

  // ----- grace ---------------------------------------------------------------------------------

  lemma GraceKept(cfg: Config, w: World, step: Step)
    requires GraceOk(cfg, w) && Timed(w) && Enabled(cfg, w, step)
    ensures GraceOk(cfg, Next(cfg, w, step))
  {
    hide IsFlagFor, Settle, Submit, Review, ScoreRung, Planted, Probeable, Due, Tidy, GraceOk, Workers;
    var w' := Next(cfg, w, step);
    match step
    case SettleBonus =>
      SettleTouchesUptime(cfg, w.db, w.phase.tick);
      GraceStays(cfg, w, w');
    case Submitted(who, flag, claimed, writeup) =>
      SubmitTouches(cfg, w.db, who, flag, claimed, writeup);
      GraceStays(cfg, w, w');
    case Reviewed(id, approve) =>
      ReviewTouchesSubmissions(cfg, w.db, id, approve);
      GraceStays(cfg, w, w');
    case Probe(p, obs, token, earlier) =>
      ScoreTouches(cfg, w.db, CurrentSlot(w, p), w.phase.workers[p].inGrace, obs, token, earlier);
      GraceStays(cfg, w, w');
    case Late(_, _, _, _, _, _) =>
      LateTouches(cfg, w, step);
      GraceStays(cfg, w, w');
    case Deployed(_, _, _) => GraceMoves(cfg, w, step);
    case StatusSet(_, _) => GraceMoves(cfg, w, step);
    case NewRound => GraceMoves(cfg, w, step);
    case _ => GraceStays(cfg, w, w');
  }

  lemma GraceStays(cfg: Config, w: World, w': World)
    requires GraceOk(cfg, w) && w'.db.players == w.db.players && w'.past.deploys == w.past.deploys
    requires w'.db.tick >= w.db.tick
    ensures GraceOk(cfg, w')
  {
  }

  lemma GraceMoves(cfg: Config, w: World, step: Step)
    requires GraceOk(cfg, w) && Timed(w) && Enabled(cfg, w, step)
    requires step.Deployed? || step.StatusSet? || step.NewRound?
    ensures GraceOk(cfg, Next(cfg, w, step))
  {
    hide Probeable, Due, Tidy;
  }

  lemma WorkersKept(cfg: Config, w: World, step: Step)
    requires GraceOk(cfg, w) && WorkersOk(cfg, w) && Timed(w) && Started(w) && Enabled(cfg, w, step) && Timely(w, step)
    ensures WorkersOk(cfg, Next(cfg, w, step)) && Started(Next(cfg, w, step))
  {
    hide IsFlagFor, Settle, Submit, Review, ScoreRung, Probeable;
    match step
    case SettleBonus => SettleTouchesUptime(cfg, w.db, w.phase.tick);
    case Submitted(who, flag, claimed, writeup) => SubmitTouches(cfg, w.db, who, flag, claimed, writeup);
    case Reviewed(id, approve) => ReviewTouchesSubmissions(cfg, w.db, id, approve);
    case Probe(p, obs, token, earlier) =>
      ScoreTouches(cfg, w.db, CurrentSlot(w, p), w.phase.workers[p].inGrace, obs, token, earlier);
    case _ =>
  }

  lemma RowInvKept(cfg: Config, w: World, step: Step)
    requires RowInv(cfg, w) && Enabled(cfg, w, step) && Timely(w, step) && Distinct(cfg.roster)
    ensures RowInv(cfg, Next(cfg, w, step))
  {
    TimedKept(cfg, w, step);
    TidyKept(cfg, w, step);
    GraceKept(cfg, w, step);
    WorkersKept(cfg, w, step);
    RowsKept(cfg, w, step);
  }

  lemma RowsStart(cfg: Config, w: World)
    requires Initial(cfg, w)
    ensures RowInv(cfg, w)
  {
  }

  /** In every state of every run without a reset during a tick or a worker that outlives it. */
  lemma {:induction false} RowsAlways(cfg: Config, w: World, steps: seq<Step>, end: World)
    requires RowInv(cfg, w) && Reaches(cfg, w, steps, end) && Undisturbed(cfg, w, steps) && Distinct(cfg.roster)
    ensures RowInv(cfg, end)
    decreases |steps|
  {
    hide Enabled, Next, RowInv, Timely;
    if steps != [] {
      RowInvKept(cfg, w, steps[0]);
      RowsAlways(cfg, Next(cfg, w, steps[0]), steps[1..], end);
    }
  }

  // ----- what this means ---------------------------------------------------------------------------

  /**
   * The SLA check is never vacuous: a carrying rung that was up without grace K - 1 ticks earlier
   * has exactly one stored flag of that tick, and the probe finds it.
   */
  lemma SlaFindsFlag(cfg: Config, w: World, step: Step)
    requires FlagInv(cfg, w) && RowInv(cfg, w) && Enabled(cfg, w, step) && step.Probe? && cfg.K >= 1
    ensures var slot := CurrentSlot(w, step.player);
            var before := SlaSlot(cfg, slot);
            before in w.db.uptime && w.db.uptime[before].ok && !w.db.uptime[before].grace && cfg.Carries(slot.rung)
            ==> before in w.past.slots && step.earlier == Some(w.past.slots[before])
  {
    hide Due, Tidy, SlotsDone, Worth, GraceOk, WorkersOk;
    var slot := CurrentSlot(w, step.player);
    var before := SlaSlot(cfg, slot);
    if before in w.db.uptime && w.db.uptime[before].ok && !w.db.uptime[before].grace && cfg.Carries(slot.rung) {
      CurrentIsDue(w, step.player);
      assert RowOk(cfg, w, before, w.db.uptime[before]);
      assert before != slot;
      var f := w.past.slots[before];
      assert f in w.db.flags;
      assert f in Planted(cfg, w.db, slot, step.obs, step.token).flags;
    }
  }

  /** What a plant costs the service: with the flag found, the rung is up only if it gives it back. */
  lemma UpMeansFlagReturned(cfg: Config, w: World, step: Step)
    requires FlagInv(cfg, w) && RowInv(cfg, w) && Enabled(cfg, w, step) && step.Probe? && cfg.K >= 1
    ensures var slot := CurrentSlot(w, step.player);
            var before := SlaSlot(cfg, slot);
            var row := Next(cfg, w, step).db.uptime[slot];
            before in w.db.uptime && w.db.uptime[before].ok && !w.db.uptime[before].grace && cfg.Carries(slot.rung)
            && row.ok && !row.grace
            ==> before in w.past.slots && step.obs.fetched == Some(w.past.slots[before])
  {
    hide Due, Tidy, FlagInv, RowInv, IsFlagFor, Planted;
    SlaFindsFlag(cfg, w, step);
  }

  /** Rows under the grace of a deployment, from the tick after it on, are never down. */
  lemma GraceCovers(cfg: Config, w: World, s: Slot, d: int)
    requires RowInv(cfg, w) && s in w.db.uptime && (s.player, d) in w.past.deploys
    requires d < s.tick <= d + cfg.graceTicks
    ensures w.db.uptime[s].ok
  {
    hide Due, Tidy, GraceOk, WorkersOk;
    assert RowOk(cfg, w, s, w.db.uptime[s]);
  }

  function Span(d: int, n: nat): (r: set<int>)
    ensures |r| == n + 1 && forall t :: t in r <==> d <= t <= d + n
  {
    if n == 0 then {d} else Span(d, n - 1) + {d + n}
  }

  /** Some deployments, each with a span of graced ticks, cover at most that many ticks. */
  lemma {:induction false} SpansBounded(ticks: set<int>, ds: set<int>, n: nat)
    requires forall t :: t in ticks ==> exists d :: d in ds && d <= t <= d + n
    ensures |ticks| <= (n + 1) * |ds|
    decreases |ds|
  {
    if exists d :: d in ds {
      var d :| d in ds;
      var here := ticks * Span(d, n);
      var rest := ticks - here;
      forall t | t in rest
        ensures exists e :: e in ds - {d} && e <= t <= e + n
      {
        var e :| e in ds && e <= t <= e + n;
        assert e in ds - {d};
      }
      SpansBounded(rest, ds - {d}, n);
      SubsetSize(here, Span(d, n));
      assert ticks == here + rest;
      OneMore(n + 1, |ds|);
    } else if exists t :: t in ticks {
      assert false;
    }
  }

  /** Each deployment buys at most grace + 1 graced ticks. */
  lemma GracedTicksBounded(cfg: Config, w: World, p: Name, ticks: set<int>, ds: set<int>)
    requires RowInv(cfg, w)
    requires forall t :: t in ticks ==> exists r :: Slot(t, p, r) in w.db.uptime && w.db.uptime[Slot(t, p, r)].grace
    requires forall d :: d in ds <==> (p, d) in w.past.deploys
    ensures |ticks| <= (cfg.graceTicks + 1) * |ds|
  {
    hide Due, Tidy, GraceOk, WorkersOk;
    forall t | t in ticks
      ensures exists d :: d in ds && d <= t <= d + cfg.graceTicks
    {
      var r :| Slot(t, p, r) in w.db.uptime && w.db.uptime[Slot(t, p, r)].grace;
      assert RowOk(cfg, w, Slot(t, p, r), w.db.uptime[Slot(t, p, r)]);
    }
    SpansBounded(ticks, ds, cfg.graceTicks);
  }
}
