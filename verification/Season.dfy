// What holds over every run of the referee that starts with a fresh round, through any number of
// ticks, submissions, reviews, deployments, crashes and resets. Scores and steals keep their laws
// wherever a reset falls and however long workers live; the laws of flags and rows need resets to fall
// between ticks and workers to end with their tick.
module Season {
  import opened Bytes
  import opened Manifests
  import opened Ledgers
  import opened Rounds
  import opened FlagWindow
  import opened UptimeRows
  import opened Steals
  import opened Scores
  import opened Accounting
  import opened Bonus
  import opened Settlements
  import opened Counting

  /** The recount of the ledgers is the total kept up step by step. */
  lemma ScoresNeverDrift(cfg: Config, w: World, steps: seq<Step>, end: World, p: Name)
    requires Initial(cfg, w) && Distinct(cfg.roster) && Reaches(cfg, w, steps, end)
    ensures ScoreOf(end.db, p) == Tally(cfg, w, steps, end, p, NIL)
  {
    hide FlagInv, Traceable, StealInv, Reaches, ScoreOf, Tally;
    FlagsStart(cfg, w);
    TraceableFrom(cfg, w);
    NoSteals(cfg, w);
    NilScored(w.db, p);
    NeverDrifts(cfg, w, steps, end, p);
  }

  /**
   * Captures add up to the accepted rows and losses to the distinct stolen flags, and captures are
   * at most N - 1 times the losses.
   */
  lemma StealsAlwaysBalance(cfg: Config, w: World, steps: seq<Step>, end: World)
    requires Initial(cfg, w) && Distinct(cfg.roster) && Reaches(cfg, w, steps, end) && Everyone(cfg) != {}
    ensures var captured := SumOver(Everyone(cfg), p => |CapturedBy(end.db.submissions, p)|);
            var lost := SumOver(Everyone(cfg), p => |StolenFrom(end.db.submissions, p)|);
            && captured == |AcceptedRows(end.db.submissions)|
            && lost == |StolenFlags(end.db.submissions)|
            && lost <= captured <= (|Everyone(cfg)| - 1) * lost
  {
    hide FlagInv, RowInv, Traceable, StealInv, OwnersKnown, Reaches, Undisturbed, Initial, Everyone, CapturedBy,
      StolenFrom;
    EveryRound(cfg, w, steps, end);
    StealsBalance(cfg, end);
  }

  /** A flag is accepted from others in exactly the K ticks from its planting on. */
  lemma FlagsLiveExactlyKTicks(cfg: Config, w: World, steps: seq<Step>, end: World, f: Token)
    requires Initial(cfg, w) && Reaches(cfg, w, steps, end) && Undisturbed(cfg, w, steps)
    ensures FindLive(end.db, f, end.db.tick).Some?
            <==> f in end.past.planted && end.past.planted[f].tick <= end.db.tick < end.past.planted[f].tick + cfg.K
  {
    hide FlagInv, Reaches, Undisturbed, Initial, FindLive;
    FlagsStart(cfg, w);
    FlagsAlways(cfg, w, steps, end);
    FlagLifetime(cfg, end, f);
  }

  /** A submission scores exactly when the rules say so. */
  lemma SubmissionsScoreByTheRules(
      cfg: Config, w: World, steps: seq<Step>, end: World, who: Name, flag: Token, claimed: Option<Klass>,
      writeup: string)
    requires Initial(cfg, w) && Reaches(cfg, w, steps, end) && Undisturbed(cfg, w, steps)
    ensures Submit(cfg, end.db, who, flag, claimed, writeup).0 == Recorded(Accepted)
            <==> Qualifies(cfg, end, who, flag, claimed, writeup)
  {
    hide FlagInv, Reaches, Undisturbed, Initial, Submit, Qualifies;
    FlagsStart(cfg, w);
    FlagsAlways(cfg, w, steps, end);
    AcceptedIff(cfg, end, who, flag, claimed, writeup);
  }

  /**
   * An ok row pays its weight, plus the bonus exactly if its tick was settled and nothing of its rung
   * was first stolen in that tick, and keeps that price whatever comes later in the round. A tick that
   * is over was settled exactly unless the loop crashed between beginning the next and settling.
   */
  lemma RowsPaidByHistory(cfg: Config, w: World, steps: seq<Step>, end: World)
    requires Initial(cfg, w) && Distinct(cfg.roster) && Reaches(cfg, w, steps, end) && Undisturbed(cfg, w, steps)
    ensures var b := BooksAfter(cfg, w, steps, end, Books({}, {}));
            && (forall s :: s in end.db.uptime ==>
                  end.db.uptime[s].points == if end.db.uptime[s].ok then Pay(cfg, end.past, b, s) else 0)
            && (forall t :: 0 <= t < end.db.tick && !Open(end, t) ==> (t in b.settled <==> t !in b.missed))
  {
    hide FlagInv, RowInv, Reaches, Undisturbed, Initial, BooksAfter, Pay, Open;
    FlagsStart(cfg, w);
    RowsStart(cfg, w);
    PaidStart(cfg, w);
    hide RowsActive;
    PaidAlways(cfg, w, steps, end, Books({}, {}));
    var b := BooksAfter(cfg, w, steps, end, Books({}, {}));
    forall s | s in end.db.uptime
      ensures end.db.uptime[s].points == if end.db.uptime[s].ok then Pay(cfg, end.past, b, s) else 0
    {
      assert RowPaid(cfg, end, b, s, end.db.uptime[s]);
    }
    forall t | 0 <= t < end.db.tick && !Open(end, t)
      ensures t in b.settled <==> t !in b.missed
    {
      assert Entry(end, b, t);
    }
  }

  /** Every row pays nothing, the weight, or the weight and the bonus, and a player's rows add up to no more. */
  lemma UptimeNeverExceeds(cfg: Config, w: World, steps: seq<Step>, end: World, p: Name)
    requires Initial(cfg, w) && Distinct(cfg.roster) && Reaches(cfg, w, steps, end) && Undisturbed(cfg, w, steps)
    requires WeightsNatural(cfg)
    ensures forall s :: s in end.db.uptime ==> Worth(cfg, s.rung, end.db.uptime[s])
    ensures UptimeOf(end.db.uptime, p) <= end.db.tick * MostPerTick(cfg, LADDER)
  {
    hide Reaches, Undisturbed, Initial, UptimeOf, MostPerTick, WeightsNatural, Worth, FlagInv, Traceable, StealInv, Due,
      GraceOk, WorkersOk, OwnersKnown;
    EveryRound(cfg, w, steps, end);
    UptimeBounded(cfg, end, p);
  }
}
