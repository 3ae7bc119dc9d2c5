// What a row of the uptime ledger pays, in the end: over whole runs, the price of the defence bonus
// (`apply_defense_bonus`, orchestrator/tick.py) by the history of first thefts.
module Settlements {
  import opened Ledgers
  import opened Rounds
  import opened FlagWindow
  import opened UptimeRows
  import opened Bonus

  /** The ticks of this round that were settled, and those whose settlement a crash of the loop left out. */
  datatype Books = Books(settled: set<int>, missed: set<int>)

  function Entered(w: World, step: Step, b: Books): Books {
    match step
    case SettleBonus => if w.phase.Begun? then b.(settled := b.settled + {w.phase.tick - 1}) else b
    case Restart => if w.phase.Begun? then b.(missed := b.missed + {w.phase.tick - 1}) else b
    case NewRound => Books({}, {})
    case _ => b
  }

  /** The books kept along a run. */
  ghost function BooksAfter(cfg: Config, w: World, steps: seq<Step>, end: World, b: Books): Books
    requires Reaches(cfg, w, steps, end)
    decreases |steps|
  {
    if steps == [] then b
    else BooksAfter(cfg, Next(cfg, w, steps[0]), steps[1..], end, Entered(w, steps[0], b))
  }

  /** The weight, and the bonus if the tick was settled and nothing was first stolen there in that tick. */
  ghost function Pay(cfg: Config, past: History, b: Books, s: Slot): int {
    cfg.Weight(s.rung) + (if s.tick in b.settled && !LostBy(past, s, s.tick) then cfg.bonus else 0)
  }

  ghost predicate RowPaid(cfg: Config, w: World, b: Books, s: Slot, row: Uptime) {
    row.points == if row.ok then Pay(cfg, w.past, b, s) else 0
  }

  ghost predicate RowsPaid(cfg: Config, w: World, b: Books) {
    forall s :: s in w.db.uptime ==> RowPaid(cfg, w, b, s, w.db.uptime[s])
  }

  /** Only the tick under way before its settlement is neither settled nor missed. */
  predicate Open(w: World, t: int) {
    w.phase.Begun? && w.phase.tick == t + 1
  }

  predicate Entry(w: World, b: Books, t: int) {
    && (t in b.settled ==> t !in b.missed && !Open(w, t))
    && (t in b.missed ==> !Open(w, t))
    && (t in b.settled || t in b.missed || Open(w, t) <==> 0 <= t < w.db.tick)
  }

  ghost predicate Booked(w: World, b: Books) {
    forall t :: Entry(w, b, t)
  }

  /** Nobody with a row or a worker is disabled. */
  ghost predicate RowsActive(w: World) {
    && (forall s :: s in w.db.uptime ==> Active(w.db, s.player))
    && (w.phase.Scoring? ==> forall p :: p in w.phase.workers ==> Active(w.db, p))
  }

  ghost predicate PaidInv(cfg: Config, w: World, b: Books) {
    Booked(w, b) && RowsActive(w) && RowsPaid(cfg, w, b)
  }

  lemma BookedKept(cfg: Config, w: World, step: Step, b: Books)
    requires Timed(w) && Enabled(cfg, w, step) && Timely(w, step) && Booked(w, b)
    ensures Booked(Next(cfg, w, step), Entered(w, step, b))
  {
    hide IsFlagFor, Settle, Submit, Review, ScoreRung, Workers;
    var w', b' := Next(cfg, w, step), Entered(w, step, b);
    match step {
      case SettleBonus => SettleTouchesUptime(cfg, w.db, w.phase.tick);
      case Submitted(who, flag, claimed, writeup) => SubmitTouches(cfg, w.db, who, flag, claimed, writeup);
      case Reviewed(id, approve) => ReviewTouchesSubmissions(cfg, w.db, id, approve);
      case Probe(p, obs, token, earlier) =>
        ScoreTouches(cfg, w.db, CurrentSlot(w, p), w.phase.workers[p].inGrace, obs, token, earlier);
      case _ =>
    }
    forall t
      ensures Entry(w', b', t)
    {
      assert Entry(w, b, t);
    }
  }

  lemma ActiveKept(cfg: Config, w: World, step: Step)
    requires RowsActive(w) && Enabled(cfg, w, step) && Timely(w, step) && Distinct(cfg.roster)
    ensures RowsActive(Next(cfg, w, step))
  {
    hide IsFlagFor, Settle, Submit, Review, Planted, IsUp;
    var w' := Next(cfg, w, step);
    match step {
      case SettleBonus => SettleTouchesUptime(cfg, w.db, w.phase.tick);
      case Submitted(who, flag, claimed, writeup) => SubmitTouches(cfg, w.db, who, flag, claimed, writeup);
      case Reviewed(id, approve) => ReviewTouchesSubmissions(cfg, w.db, id, approve);
      case Probe(p, obs, token, earlier) => PlantedTouchesFlags(cfg, w.db, CurrentSlot(w, p), obs, token);
      case _ =>
    }
    if !step.NewRound? {
      forall s | s in w'.db.uptime
        ensures Active(w'.db, s.player)
      {
        OldOrNew(cfg, w, step, s);
      }
    }
  }

  /** What was first stolen in a tick that is over does not change. */
  lemma LossesFixed(cfg: Config, w: World, step: Step, s: Slot, t: int)
    requires FlagInv(cfg, w) && Enabled(cfg, w, step) && Timely(w, step) && !step.NewRound? && t < w.db.tick
    ensures LostBy(Next(cfg, w, step).past, s, t) <==> LostBy(w.past, s, t)
  {
    hide Timed, Tidy, SlotsDone, Stored, RowsMatch, IsFlagFor, Settle, Submit, Review, ScoreRung, Planted, Workers;
    var past, past' := w.past, Next(cfg, w, step).past;
    forall f | f in past.thefts
      ensures f in past'.thefts && past'.thefts[f] == past.thefts[f]
      ensures f in past.planted && f in past'.planted && past'.planted[f] == past.planted[f]
    {
    }
    forall f | f in past'.thefts && past'.thefts[f].tick == t
      ensures f in past.thefts
    {
    }
  }

  lemma RowsPaidKept(cfg: Config, w: World, step: Step, b: Books)
    requires FlagInv(cfg, w) && RowInv(cfg, w) && PaidInv(cfg, w, b) && Distinct(cfg.roster)
    requires Enabled(cfg, w, step) && Timely(w, step) && !step.NewRound?
    ensures RowsPaid(cfg, Next(cfg, w, step), Entered(w, step, b))
  {
    hide IsFlagFor, FlagInv, RowInv, PaidInv, Next, RowPaid;
    var w', b' := Next(cfg, w, step), Entered(w, step, b);
    forall s | s in w'.db.uptime
      ensures RowPaid(cfg, w', b', s, w'.db.uptime[s])
    {
      if step.SettleBonus? {
        RowPaidBySettling(cfg, w, b, s);
      } else {
        RowPaidOtherwise(cfg, w, step, b, s);
      }
    }
  }

  lemma RowPaidBySettling(cfg: Config, w: World, b: Books, s: Slot)
    requires FlagInv(cfg, w) && RowInv(cfg, w) && PaidInv(cfg, w, b) && Distinct(cfg.roster) && w.phase.Begun?
    requires s in Next(cfg, w, SettleBonus).db.uptime
    ensures var w' := Next(cfg, w, SettleBonus);
            RowPaid(cfg, w', Entered(w, SettleBonus, b), s, w'.db.uptime[s])
  {
    hide FlagInv, RowInv, Booked, RowsActive, RowsPaid, Config.Weight, LostBy, Active, Settle, RowPaid;
    SettledRow(cfg, w.db, w.phase.tick, s);
    var row := w.db.uptime[s];
    RowKnown(cfg, w, b, s);
    SettledPays(cfg, w, s);
    SettleTouchesUptime(cfg, w.db, w.phase.tick);
    PaidNow(cfg, w, Next(cfg, w, SettleBonus), b, s, row, Next(cfg, w, SettleBonus).db.uptime[s]);
  }

  lemma RowKnown(cfg: Config, w: World, b: Books, s: Slot)
    requires RowInv(cfg, w) && PaidInv(cfg, w, b) && s in w.db.uptime
    ensures 1 <= s.tick && s.player in cfg.roster && Active(w.db, s.player) && RowPaid(cfg, w, b, s, w.db.uptime[s])
    ensures w.phase.Begun? ==> w.phase.tick - 1 !in b.settled
  {
    hide Due, Tidy, GraceOk, WorkersOk, RowPaid;
    assert UptimeRows.RowOk(cfg, w, s, w.db.uptime[s]);
    if w.phase.Begun? {
      assert Entry(w, b, w.phase.tick - 1);
    }
  }

  /** What settling makes of a row, with a bonus or without. */
  ghost function Settled(cfg: Config, past: History, tick: int, s: Slot, row: Uptime): Uptime {
    if cfg.bonus != 0 && s.tick == tick - 1 && row.ok
    then row.(points := cfg.Weight(s.rung) + (if LostBy(past, s, tick - 1) then 0 else cfg.bonus)) else row
  }

  lemma SettledPays(cfg: Config, w: World, s: Slot)
    requires FlagInv(cfg, w) && w.phase.Begun? && Distinct(cfg.roster) && s in w.db.uptime
    requires s.player in cfg.roster && Active(w.db, s.player) && 1 <= s.tick
    ensures s in Next(cfg, w, SettleBonus).db.uptime
    ensures Next(cfg, w, SettleBonus).db.uptime[s] == Settled(cfg, w.past, w.phase.tick, s, w.db.uptime[s])
  {
    hide FlagInv, LostBy, Active, SettlePlayers;
    if cfg.bonus != 0 && w.phase.tick >= 2 {
      hide Settle;
      SettlementExact(cfg, w, s);
    }
  }

  lemma PaidNow(cfg: Config, w: World, w': World, b: Books, s: Slot, row: Uptime, row': Uptime)
    requires w.phase.Begun? && RowPaid(cfg, w, b, s, row) && w.phase.tick - 1 !in b.settled && w'.past == w.past
    requires row' == Settled(cfg, w.past, w.phase.tick, s, row)
    ensures RowPaid(cfg, w', Entered(w, SettleBonus, b), s, row')
  {
    hide LostBy, Config.Weight;
  }

  lemma RowPaidOtherwise(cfg: Config, w: World, step: Step, b: Books, s: Slot)
    requires FlagInv(cfg, w) && RowInv(cfg, w) && PaidInv(cfg, w, b) && Distinct(cfg.roster)
    requires Enabled(cfg, w, step) && Timely(w, step) && !step.NewRound? && !step.SettleBonus?
    requires s in Next(cfg, w, step).db.uptime
    ensures RowPaid(cfg, Next(cfg, w, step), Entered(w, step, b), s, Next(cfg, w, step).db.uptime[s])
  {
    hide FlagInv, Tidy, GraceOk, WorkersOk, Config.Weight, LostBy, RowsActive, Enabled;
    var w', b' := Next(cfg, w, step), Entered(w, step, b);
    OldOrNew(cfg, w, step, s);
    assert Entry(w, b, s.tick);
    if s in w.db.uptime && w'.db.uptime[s] == w.db.uptime[s] {
      hide Next, Due;
      assert RowPaid(cfg, w, b, s, w.db.uptime[s]);
      assert UptimeRows.RowOk(cfg, w, s, w.db.uptime[s]);
      if s.tick in b.settled {
        LossesFixed(cfg, w, step, s, s.tick);
      }
    } else {
      ProbePays(cfg, w, step);
    }
  }

  /** The row of the tick under way: its tick is not settled. */
  lemma ProbePays(cfg: Config, w: World, step: Step)
    requires Timed(w) && Enabled(cfg, w, step) && step.Probe?
    ensures var s := CurrentSlot(w, step.player);
            var w' := Next(cfg, w, step);
            && s.tick == w.db.tick && s in w'.db.uptime
            && w'.db.uptime[s].points == if w'.db.uptime[s].ok then cfg.Weight(s.rung) else 0
  {
    hide IsFlagFor, IsUp, Planted, Config.Weight;
  }

  lemma PaidKept(cfg: Config, w: World, step: Step, b: Books)
    requires FlagInv(cfg, w) && RowInv(cfg, w) && PaidInv(cfg, w, b) && Distinct(cfg.roster)
    requires Enabled(cfg, w, step) && Timely(w, step)
    ensures PaidInv(cfg, Next(cfg, w, step), Entered(w, step, b))
  {
    hide Enabled, FlagsOk, TheftsOk, Tidy, UptimeRows.RowsOk, GraceOk, WorkersOk, Booked, RowsActive, RowsPaid, Timely;
    BookedKept(cfg, w, step, b);
    ActiveKept(cfg, w, step);
    if step.NewRound? {
      NothingPaid(cfg, Next(cfg, w, step), Entered(w, step, b));
    } else {
      RowsPaidKept(cfg, w, step, b);
    }
  }

  lemma NothingPaid(cfg: Config, w: World, b: Books)
    requires w.db.uptime == map[]
    ensures RowsPaid(cfg, w, b)
  {
  }

  /**
   * Over every run without a reset during a tick or a worker that outlives it, an ok row pays its
   * weight, plus the bonus exactly if its tick was settled and by the history nothing of its rung was
   * first stolen in that tick; a tick that is over was settled exactly unless the loop crashed between
   * advancing the counter and settling.
   */
  lemma {:induction false} PaidAlways(cfg: Config, w: World, steps: seq<Step>, end: World, b: Books)
    requires FlagInv(cfg, w) && RowInv(cfg, w) && PaidInv(cfg, w, b) && Distinct(cfg.roster)
    requires Reaches(cfg, w, steps, end) && Undisturbed(cfg, w, steps)
    ensures PaidInv(cfg, end, BooksAfter(cfg, w, steps, end, b))
    decreases |steps|
  {
    hide Enabled, Next, FlagInv, RowInv, PaidInv, Timely, Entered;
    if steps != [] {
      FlagsKept(cfg, w, steps[0]);
      RowInvKept(cfg, w, steps[0]);
      PaidKept(cfg, w, steps[0], b);
      PaidAlways(cfg, Next(cfg, w, steps[0]), steps[1..], end, Entered(w, steps[0], b));
    }
  }

  lemma PaidStart(cfg: Config, w: World)
    requires Initial(cfg, w)
    ensures PaidInv(cfg, w, Books({}, {}))
  {
  }
}
