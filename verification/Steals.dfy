// The submissions ledger over whole runs: who may score, what a row is worth, and how claims settle.
module Steals {
  import opened Bytes
  import opened Manifests
  import opened Ledgers
  import opened Rounds
  import opened FlagWindow

  // ----- flag rows, whatever comes when ---------------------------------------------

  /**
   * What resets in the middle of a tick and workers that outlive theirs leave alone: rows are of flags
   * planted in this round and name their slot and first theft, and thefts are of such flags.
   */
  ghost predicate Traceable(w: World) {
    && w.past.planted.Keys <= w.past.issued
    && w.past.thefts.Keys <= w.past.planted.Keys
    && forall f :: f in w.db.flags ==>
         && f in w.past.planted && w.db.flags[f].slot == w.past.planted[f]
         && w.db.flags[f].stolen == if f in w.past.thefts then Some(w.past.thefts[f]) else None
  }

  lemma TraceableFrom(cfg: Config, w: World)
    requires FlagInv(cfg, w)
    ensures Traceable(w)
  {
    hide Timed, Tidy, SlotsDone, Stored;
  }

  /** A flag planted under a fresh token, or none. */
  lemma PlantTraceable(cfg: Config, w: World, slot: Slot, obs: Observation, token: Token, w': World)
    requires Traceable(w) && token !in w.past.issued && w'.db.flags == Planted(cfg, w.db, slot, obs, token).flags
    requires w'.past == Drawn(w.past, slot, token, obs.healthy && cfg.Carries(slot.rung) && obs.planted.Some?)
    ensures Traceable(w')
  {
    hide Config.Carries;
  }

  lemma TraceableKept(cfg: Config, w: World, step: Step)
    requires Traceable(w) && Enabled(cfg, w, step)
    ensures Traceable(Next(cfg, w, step))
  {
    hide Traceable, ScoreRung, Planted, IsFlagFor;
    var w' := Next(cfg, w, step);
    match step
    case Probe(p, obs, token, earlier) =>
      ScoreTouches(cfg, w.db, CurrentSlot(w, p), w.phase.workers[p].inGrace, obs, token, earlier);
      PlantTraceable(cfg, w, CurrentSlot(w, p), obs, token, w');
    case Late(slot, _, obs, token, _, _) =>
      LateTouches(cfg, w, step);
      PlantTraceable(cfg, w, slot, obs, token, w');
    case _ => TraceableOtherwise(cfg, w, step);
  }

  lemma TraceableOtherwise(cfg: Config, w: World, step: Step)
    requires Traceable(w) && Enabled(cfg, w, step) && !step.Probe? && !step.Late?
    ensures Traceable(Next(cfg, w, step))
  {
    hide IsFlagFor, Settle, Submit, Review, ScoreRung, Planted, Workers, AfterSubmit, Traceable;
    var w' := Next(cfg, w, step);
    match step
    case SettleBonus =>
      SettleTouchesUptime(cfg, w.db, w.phase.tick);
      SameTraceable(w, w');
    case Submitted(who, flag, claimed, writeup) => StealTraceable(cfg, w, who, flag, claimed, writeup);
    case Reviewed(id, approve) =>
      ReviewTouchesSubmissions(cfg, w.db, id, approve);
      SameTraceable(w, w');
    case Raised(p, planted, token) => DeathTraceable(cfg, w, CurrentSlot(w, p), planted, token, w');
    case NewRound => NothingTraceable(w');
    case _ => SameTraceable(w, w');
  }

  /** Rows may go, if the history stays. */
  lemma SameTraceable(w: World, w': World)
    requires Traceable(w) && w'.past.planted == w.past.planted && w'.past.thefts == w.past.thefts
    requires w'.past.issued == w.past.issued
    requires forall f :: f in w'.db.flags ==> f in w.db.flags && w'.db.flags[f] == w.db.flags[f]
    ensures Traceable(w')
  {
  }

  lemma NothingTraceable(w: World)
    requires w.past.planted == map[] && w.past.thefts == map[] && w.db.flags == map[]
    ensures Traceable(w)
  {
  }

  lemma StealTraceable(cfg: Config, w: World, who: Name, flag: Token, claimed: Option<Klass>, writeup: string)
    requires Traceable(w)
    ensures Traceable(AfterSubmit(cfg, w, who, flag, claimed, writeup))
  {
    hide Submit;
    SubmitTouches(cfg, w.db, who, flag, claimed, writeup);
  }

  lemma DeathTraceable(cfg: Config, w: World, slot: Slot, planted: Option<string>, token: Token, w': World)
    requires Traceable(w) && token !in w.past.issued
    requires w'.db == if planted.Some? then Plant(w.db, slot, token, planted.value, cfg.K) else w.db
    requires w'.past == Drawn(w.past, slot, token, planted.Some?)
    ensures Traceable(w')
  {
  }

  // ----- accepted rows ---------------------------------------------------------------

  /** Where a flag lived decides its floor: the UDP fixture is transport, every HTTP rung is app. */
  function FloorOf(r: Rung): Klass {
    if r == Udp then Transport else App
  }

  /** A claim that needs a review: rce always, transport on an HTTP rung. */
  predicate Above(claimed: Option<Klass>, floor: Klass) {
    claimed == Some(Rce) || (claimed == Some(Transport) && floor == App)
  }

  function Floor(s: Submission): Klass {
    if s.rung.Some? then FloorOf(s.rung.value) else App
  }

  function ApprovedPrice(cfg: Config, s: Submission): int {
    if s.claimed.Some? && s.claimed.value in cfg.prices then cfg.prices[s.claimed.value] else cfg.Price(Floor(s))
  }

  /** Pending: paid at the floor, claiming more, with a write-up. Settled: the floor's price or the approved one. */
  predicate Priced(cfg: Config, s: Submission) {
    var atFloor := s.klass == Some(Floor(s)) && s.points == cfg.Price(Floor(s));
    var approved := Above(s.claimed, Floor(s)) && s.klass == s.claimed && s.points == ApprovedPrice(cfg, s);
    if s.pending then atFloor && Above(s.claimed, Floor(s)) && !Blank(s.writeup) else atFloor || approved
  }

  ghost predicate RowOk(cfg: Config, past: History, s: Submission) {
    if s.verdict.Accepted? then
      && s.who in cfg.submitters && s.owner.Some? && s.rung.Some? && s.owner.value != s.who
      && s.flag in past.thefts && s.flag in past.planted
      && past.planted[s.flag].player == s.owner.value && past.planted[s.flag].rung == s.rung.value
      && Priced(cfg, s)
    else s.points == 0 && !s.pending
  }

  ghost predicate RowsOk(cfg: Config, past: History, subs: seq<Submission>) {
    forall i :: 0 <= i < |subs| ==> RowOk(cfg, past, subs[i])
  }

  predicate SameSteal(a: Submission, b: Submission) {
    a.verdict.Accepted? && b.verdict.Accepted? && a.flag == b.flag && a.who == b.who
  }

  /** Nobody scores twice for one flag. */
  predicate OncePerThief(subs: seq<Submission>) {
    forall i, j :: 0 <= i < j < |subs| ==> !SameSteal(subs[i], subs[j])
  }

  predicate FirstFor(subs: seq<Submission>, i: nat, f: Token, who: Name) {
    && i < |subs| && subs[i].verdict.Accepted? && subs[i].flag == f && subs[i].who == who
    && forall j :: 0 <= j < i && subs[j].verdict.Accepted? ==> subs[j].flag != f
  }

  /** The recorded thief of a flag is the first player it was accepted from. */
  ghost predicate ThievesFirst(past: History, subs: seq<Submission>) {
    forall f :: f in past.thefts ==> exists i: nat :: FirstFor(subs, i, f, past.thefts[f].thief)
  }

  ghost predicate StealInv(cfg: Config, w: World) {
    RowsOk(cfg, w.past, w.db.submissions) && OncePerThief(w.db.submissions) && ThievesFirst(w.past, w.db.submissions)
  }

  // ----- one submission -------------------------------------------------------------------

  /** Whether a submission scores, in the terms of the rules rather than of the tables. */
  ghost predicate Qualifies(cfg: Config, w: World, who: Name, flag: Token, claimed: Option<Klass>, writeup: string) {
    && flag in w.past.planted
    && w.past.planted[flag].tick <= w.db.tick < w.past.planted[flag].tick + cfg.K
    && w.past.planted[flag].player != who
    && DeclaresRung(w.db, w.past.planted[flag].player, w.past.planted[flag].rung)
    && !Already(w.db, who, flag)
    && (Above(claimed, FloorOf(w.past.planted[flag].rung)) ==> !Blank(writeup))
  }

  /**
   * In every state an undisturbed run reaches, a submission is accepted exactly when the flag was planted fewer than
   * K ticks ago into another player's declared rung, this player has not scored it before, and a
   * claim above the floor comes with a write-up.
   */
  lemma AcceptedIff(cfg: Config, w: World, who: Name, flag: Token, claimed: Option<Klass>, writeup: string)
    requires FlagInv(cfg, w)
    ensures Submit(cfg, w.db, who, flag, claimed, writeup).0 == Recorded(Accepted)
            <==> Qualifies(cfg, w, who, flag, claimed, writeup)
  {
    hide Already, DeclaresRung, FlagInv, Blank;
    FlagLifetime(cfg, w, flag);
  }

  /** What an accepted submission adds: one row, at the floor, and the theft if it is the first. */
  lemma AcceptedRow(cfg: Config, w: World, who: Name, flag: Token, claimed: Option<Klass>, writeup: string)
    requires Traceable(w) && who in cfg.submitters && |writeup| <= 4000
    requires Submit(cfg, w.db, who, flag, claimed, writeup).0 == Recorded(Accepted)
    ensures var w' := AfterSubmit(cfg, w, who, flag, claimed, writeup);
            && |w'.db.submissions| == |w.db.submissions| + 1
            && w'.db.submissions[..|w.db.submissions|] == w.db.submissions
            && var row := w'.db.submissions[|w.db.submissions|];
               row.verdict.Accepted? && row.who == who && row.flag == flag && RowOk(cfg, w'.past, row)
    ensures !Already(w.db, who, flag)
  {
    hide Already, DeclaresRung, Blank;
    SubmitTouches(cfg, w.db, who, flag, claimed, writeup);
  }

  /** One more refused row, at no points; an unexplained claim leaves no row. */
  predicate Refusal(subs: seq<Submission>, subs': seq<Submission>) {
    || subs' == subs
    || (|subs'| == |subs| + 1 && subs'[..|subs|] == subs
        && !subs'[|subs|].verdict.Accepted? && subs'[|subs|].points == 0 && !subs'[|subs|].pending)
  }

  lemma RefusedRow(cfg: Config, db: Ledger, who: Name, flag: Token, claimed: Option<Klass>, writeup: string)
    requires Submit(cfg, db, who, flag, claimed, writeup).0 != Recorded(Accepted)
    ensures Refusal(db.submissions, Submit(cfg, db, who, flag, claimed, writeup).1.submissions)
  {
    hide Already, DeclaresRung, Blank, FindLive, Refusal, Refuse;
    forall slot, v | v != Accepted
      ensures Refuse(db, who, flag, slot, v, claimed, Truncated(writeup)).0 == Recorded(v)
      ensures Refusal(db.submissions, Refuse(db, who, flag, slot, v, claimed, Truncated(writeup)).1.submissions)
    {
      RefuseRefuses(db, who, flag, slot, v, claimed, Truncated(writeup));
    }
    NoRefusal(db.submissions);
  }

  lemma RefuseRefuses(
      db: Ledger, who: Name, flag: Token, slot: Option<Slot>, v: Verdict, claimed: Option<Klass>, note: string)
    requires v != Accepted
    ensures Refuse(db, who, flag, slot, v, claimed, note).0 == Recorded(v)
    ensures Refusal(db.submissions, Refuse(db, who, flag, slot, v, claimed, note).1.submissions)
  {
  }

  lemma NoRefusal(subs: seq<Submission>)
    ensures Refusal(subs, subs)
  {
  }

  // ----- every run ------------------------------------------------------------------------

  lemma RowsStay(cfg: Config, past: History, past': History, subs: seq<Submission>)
    requires RowsOk(cfg, past, subs)
    requires past.thefts.Keys <= past'.thefts.Keys
    requires forall f :: f in past.planted ==> f in past'.planted && past'.planted[f] == past.planted[f]
    ensures RowsOk(cfg, past', subs)
  {
    forall i | 0 <= i < |subs|
      ensures RowOk(cfg, past', subs[i])
    {
      assert RowOk(cfg, past, subs[i]);
    }
  }

  lemma FirstStays(subs: seq<Submission>, subs': seq<Submission>, i: nat, f: Token, who: Name)
    requires FirstFor(subs, i, f, who) && |subs| <= |subs'|
    requires forall j :: 0 <= j < |subs| ==> SameButSettled(subs[j], subs'[j])
    ensures FirstFor(subs', i, f, who)
  {
  }

  lemma ThievesStay(past: History, subs: seq<Submission>, subs': seq<Submission>)
    requires ThievesFirst(past, subs) && |subs| <= |subs'|
    requires forall j :: 0 <= j < |subs| ==> SameButSettled(subs[j], subs'[j])
    ensures ThievesFirst(past, subs')
  {
    hide SameButSettled, FirstFor;
    forall f | f in past.thefts
      ensures exists i: nat :: FirstFor(subs', i, f, past.thefts[f].thief)
    {
      var i: nat :| FirstFor(subs, i, f, past.thefts[f].thief);
      FirstStays(subs, subs', i, f, past.thefts[f].thief);
    }
  }

  /** A row keeps who took what from whom; a pending claim may be settled, once. */
  predicate SameButSettled(s: Submission, s': Submission) {
    && s' == s.(klass := s'.klass, points := s'.points, pending := s'.pending)
    && (!s.pending ==> s' == s)
    && (s' != s ==> !s'.pending)
  }

  /** The rows of one ledger in a later one. */
  predicate Continues(subs: seq<Submission>, subs': seq<Submission>) {
    |subs| <= |subs'| && forall j :: 0 <= j < |subs| ==> SameButSettled(subs[j], subs'[j])
  }

  lemma ReviewSettles(cfg: Config, past: History, db: Ledger, id: nat, approve: bool)
    requires RowsOk(cfg, past, db.submissions)
    ensures var subs' := Review(cfg, db, id, approve).submissions;
            && |subs'| == |db.submissions| && Continues(db.submissions, subs') && RowsOk(cfg, past, subs')
            && (id < |subs'| && db.submissions[id].pending ==>
                  && !subs'[id].pending
                  && if approve
                     then subs'[id].klass == db.submissions[id].claimed
                          && subs'[id].points == ApprovedPrice(cfg, subs'[id])
                     else subs'[id].klass == Some(Floor(subs'[id])) && subs'[id].points == cfg.Price(Floor(subs'[id])))
  {
    hide Blank;
    var subs := db.submissions;
    var subs' := Review(cfg, db, id, approve).submissions;
    forall i | 0 <= i < |subs|
      ensures SameButSettled(subs[i], subs'[i]) && RowOk(cfg, past, subs'[i])
    {
      assert RowOk(cfg, past, subs[i]);
    }
  }

  lemma OnceStays(subs: seq<Submission>, subs': seq<Submission>)
    requires OncePerThief(subs) && |subs'| == |subs| && Continues(subs, subs')
    ensures OncePerThief(subs')
  {
    forall i, j | 0 <= i < j < |subs'|
      ensures !SameSteal(subs'[i], subs'[j])
    {
      assert SameButSettled(subs[i], subs'[i]) && SameButSettled(subs[j], subs'[j]);
      assert !SameSteal(subs[i], subs[j]);
    }
  }

  lemma AddAccepted(cfg: Config, w: World, w': World, row: Submission)
    requires StealInv(cfg, w) && w'.db.submissions == w.db.submissions + [row]
    requires row.verdict.Accepted? && RowOk(cfg, w'.past, row) && !Already(w.db, row.who, row.flag)
    requires w'.past.planted == w.past.planted
    requires w'.past.thefts == if row.flag in w.past.thefts then w.past.thefts
                               else w.past.thefts[row.flag := Theft(row.who, w.db.tick)]
    ensures StealInv(cfg, w')
  {
    hide RowOk, FirstFor;
    var subs, subs' := w.db.submissions, w'.db.submissions;
    RowsStay(cfg, w.past, w'.past, subs);
    assert OncePerThief(subs') by {
      forall i, j | 0 <= i < j < |subs'|
        ensures !SameSteal(subs'[i], subs'[j])
      {
        assert j < |subs| ==> !SameSteal(subs[i], subs[j]);
      }
    }
    ThievesStay(w.past, subs, subs');
    if row.flag !in w.past.thefts {
      FirstNow(cfg, w.past, subs, subs', row);
    }
  }

  lemma FirstNow(cfg: Config, past: History, subs: seq<Submission>, subs': seq<Submission>, row: Submission)
    requires RowsOk(cfg, past, subs) && subs' == subs + [row] && row.verdict.Accepted? && row.flag !in past.thefts
    ensures FirstFor(subs', |subs|, row.flag, row.who)
  {
    forall j | 0 <= j < |subs| && subs'[j].verdict.Accepted?
      ensures subs'[j].flag != row.flag
    {
      assert RowOk(cfg, past, subs[j]);
    }
  }

  lemma AddRefused(cfg: Config, w: World, w': World)
    requires StealInv(cfg, w) && Refusal(w.db.submissions, w'.db.submissions) && w'.past == w.past
    ensures StealInv(cfg, w')
  {
    hide FirstFor;
    var subs, subs' := w.db.submissions, w'.db.submissions;
    if subs' != subs {
      var row := subs'[|subs|];
      assert subs' == subs + [row];
      assert RowOk(cfg, w.past, row);
      forall i, j | 0 <= i < j < |subs'|
        ensures !SameSteal(subs'[i], subs'[j])
      {
        assert j < |subs| ==> !SameSteal(subs[i], subs[j]);
      }
      ThievesStay(w.past, subs, subs');
    }
  }

  lemma StealsKept(cfg: Config, w: World, step: Step)
    requires Traceable(w) && StealInv(cfg, w) && Enabled(cfg, w, step)
    ensures StealInv(cfg, Next(cfg, w, step))
  {
    hide Traceable, IsFlagFor, Settle, Submit, Review, ScoreRung, StealInv, AfterSubmit, Probed;
    var w' := Next(cfg, w, step);
    match step
    case Submitted(who, flag, claimed, writeup) => StealsKeptBySubmit(cfg, w, step);
    case Reviewed(id, approve) =>
      ReviewTouchesSubmissions(cfg, w.db, id, approve);
      StealsKeptByReview(cfg, w, w', id, approve);
    case Probe(p, obs, token, earlier) => StealsKeptByProbe(cfg, w, step);
    case Raised(_, _, _) => StealsKeptByDeath(cfg, w, step);
    case Late(_, _, _, _, _, _) => StealsKeptByLate(cfg, w, step);
    case SettleBonus =>
      SettleTouchesUptime(cfg, w.db, w.phase.tick);
      StealsSame(cfg, w, w');
    case NewRound => NoSteals(cfg, w');
    case _ => StealsSame(cfg, w, w');
  }

  lemma StealsKeptBySubmit(cfg: Config, w: World, step: Step)
    requires Traceable(w) && StealInv(cfg, w) && Enabled(cfg, w, step) && step.Submitted?
    ensures StealInv(cfg, Next(cfg, w, step))
  {
    hide Traceable, StealInv, Submit, RowOk;
    var w' := Next(cfg, w, step);
    var (outcome, db) := Submit(cfg, w.db, step.who, step.flag, step.claimed, step.writeup);
    if outcome == Recorded(Accepted) {
      AcceptedRow(cfg, w, step.who, step.flag, step.claimed, step.writeup);
      var row := db.submissions[|w.db.submissions|];
      assert db.submissions == w.db.submissions + [row];
      AddAccepted(cfg, w, w', row);
    } else {
      RefusedRow(cfg, w.db, step.who, step.flag, step.claimed, step.writeup);
      AddRefused(cfg, w, w');
    }
  }

  lemma StealsKeptByReview(cfg: Config, w: World, w': World, id: nat, approve: bool)
    requires StealInv(cfg, w) && w' == w.(db := Review(cfg, w.db, id, approve))
    ensures StealInv(cfg, w')
  {
    hide Review, RowOk, FirstFor, SameButSettled;
    ReviewSettles(cfg, w.past, w.db, id, approve);
    OnceStays(w.db.submissions, w'.db.submissions);
    ThievesStay(w.past, w.db.submissions, w'.db.submissions);
  }

  lemma StealsKeptByProbe(cfg: Config, w: World, step: Step)
    requires Traceable(w) && StealInv(cfg, w) && Enabled(cfg, w, step) && step.Probe?
    ensures StealInv(cfg, Next(cfg, w, step))
  {
    hide IsFlagFor, RowOk, FirstFor, Priced;
    var w' := Next(cfg, w, step);
    ScoreTouches(cfg, w.db, CurrentSlot(w, step.player), w.phase.workers[step.player].inGrace,
                 step.obs, step.token, step.earlier);
    hide ScoreRung;
    RowsStay(cfg, w.past, w'.past, w.db.submissions);
  }

  lemma StealsKeptByDeath(cfg: Config, w: World, step: Step)
    requires Traceable(w) && StealInv(cfg, w) && Enabled(cfg, w, step) && step.Raised?
    ensures StealInv(cfg, Next(cfg, w, step))
  {
    hide RowOk, FirstFor, Priced;
    RowsStay(cfg, w.past, Next(cfg, w, step).past, w.db.submissions);
  }

  lemma StealsKeptByLate(cfg: Config, w: World, step: Step)
    requires Traceable(w) && StealInv(cfg, w) && Enabled(cfg, w, step) && step.Late?
    ensures StealInv(cfg, Next(cfg, w, step))
  {
    hide IsFlagFor, RowOk, FirstFor, Priced;
    LateTouches(cfg, w, step);
    hide ScoreRung, Planted;
    RowsStay(cfg, w.past, Next(cfg, w, step).past, w.db.submissions);
  }

  lemma StealsSame(cfg: Config, w: World, w': World)
    requires StealInv(cfg, w) && w'.db.submissions == w.db.submissions
    requires w'.past.planted == w.past.planted && w'.past.thefts == w.past.thefts
    ensures StealInv(cfg, w')
  {
    hide FirstFor;
    RowsStay(cfg, w.past, w'.past, w.db.submissions);
  }

  lemma NoSteals(cfg: Config, w: World)
    requires w.db.submissions == [] && w.past.thefts == map[]
    ensures StealInv(cfg, w)
  {
  }

  /** In every state of every run, wherever its resets fall and however long its workers live. */
  lemma {:induction false} StealsAlways(cfg: Config, w: World, steps: seq<Step>, end: World)
    requires Traceable(w) && StealInv(cfg, w) && Reaches(cfg, w, steps, end)
    ensures Traceable(end) && StealInv(cfg, end)
    decreases |steps|
  {
    hide Enabled, Next, Traceable, StealInv;
    if steps != [] {
      TraceableKept(cfg, w, steps[0]);
      StealsKept(cfg, w, steps[0]);
      StealsAlways(cfg, Next(cfg, w, steps[0]), steps[1..], end);
    }
  }

  // ----- what never changes within a round --------------------------------------------------

  predicate SameRound(steps: seq<Step>) {
    forall i :: 0 <= i < |steps| ==> !steps[i].NewRound?
  }

  lemma StepContinues(cfg: Config, w: World, step: Step)
    requires Traceable(w) && StealInv(cfg, w) && Enabled(cfg, w, step) && !step.NewRound?
    ensures var w' := Next(cfg, w, step);
            && Continues(w.db.submissions, w'.db.submissions)
            && (forall f :: f in w.past.thefts ==> f in w'.past.thefts && w'.past.thefts[f] == w.past.thefts[f])
            && (forall f :: f in w.past.planted ==> f in w'.past.planted && w'.past.planted[f] == w.past.planted[f])
  {
    hide IsFlagFor, Settle, Submit, Review, RowOk, FirstFor, AfterSubmit, ScoreRung, Planted;
    match step
    case Submitted(who, flag, claimed, writeup) => SubmitContinues(cfg, w, who, flag, claimed, writeup);
    case Reviewed(id, approve) => ReviewSettles(cfg, w.past, w.db, id, approve);
    case Probe(p, obs, token, earlier) =>
      ScoreTouches(cfg, w.db, CurrentSlot(w, p), w.phase.workers[p].inGrace, obs, token, earlier);
    case Late(_, _, _, _, _, _) => LateTouches(cfg, w, step);
    case SettleBonus => SettleTouchesUptime(cfg, w.db, w.phase.tick);
    case _ =>
  }

  lemma SubmitContinues(cfg: Config, w: World, who: Name, flag: Token, claimed: Option<Klass>, writeup: string)
    requires Traceable(w) && who in cfg.submitters && |writeup| <= 4000
    ensures var w' := AfterSubmit(cfg, w, who, flag, claimed, writeup);
            && Continues(w.db.submissions, w'.db.submissions) && w'.past.planted == w.past.planted
            && (forall f :: f in w.past.thefts ==> f in w'.past.thefts && w'.past.thefts[f] == w.past.thefts[f])
  {
    hide Submit, RowOk, Traceable;
    if Submit(cfg, w.db, who, flag, claimed, writeup).0 == Recorded(Accepted) {
      AcceptedRow(cfg, w, who, flag, claimed, writeup);
    } else {
      RefusedRow(cfg, w.db, who, flag, claimed, writeup);
    }
  }

  lemma ContinuesOn(a: seq<Submission>, b: seq<Submission>, c: seq<Submission>)
    requires Continues(a, b) && Continues(b, c)
    ensures Continues(a, c)
  {
    forall j | 0 <= j < |a|
      ensures SameButSettled(a[j], c[j])
    {
      assert SameButSettled(a[j], b[j]) && SameButSettled(b[j], c[j]);
    }
  }

  /**
   * Over any part of a round: no submission row is lost or re-attributed, a claim is settled at
   * most once and a settled row never changes again, and the first thief of a flag, once
   * recorded, stays.
   */
  lemma {:induction false} LedgerOnlyGrows(cfg: Config, w: World, steps: seq<Step>, end: World)
    requires Traceable(w) && StealInv(cfg, w) && Reaches(cfg, w, steps, end) && SameRound(steps)
    ensures Continues(w.db.submissions, end.db.submissions)
    ensures forall f :: f in w.past.thefts ==> f in end.past.thefts && end.past.thefts[f] == w.past.thefts[f]
    decreases |steps|
  {
    hide Enabled, Next, Traceable, StealInv, Continues;
    if steps == [] {
      SameContinues(w.db.submissions);
    } else {
      var next := Next(cfg, w, steps[0]);
      TraceableKept(cfg, w, steps[0]);
      StealsKept(cfg, w, steps[0]);
      StepContinues(cfg, w, steps[0]);
      LedgerOnlyGrows(cfg, next, steps[1..], end);
      ContinuesOn(w.db.submissions, next.db.submissions, end.db.submissions);
    }
  }

  lemma SameContinues(subs: seq<Submission>)
    ensures Continues(subs, subs)
  {
  }

  /** While the flag is stored its row names the first player it was accepted from. */
  lemma StoredThiefIsFirst(cfg: Config, w: World, f: Token)
    requires Traceable(w) && StealInv(cfg, w) && f in w.db.flags && w.db.flags[f].stolen.Some?
    ensures exists i: nat :: FirstFor(w.db.submissions, i, f, w.db.flags[f].stolen.value.thief)
  {
    hide FirstFor;
    assert f in w.past.thefts;
  }

  // ----- the stored write-up ------------------------------------------------------------------

  /** Something other than white space stands among the first `n` characters. */
  predicate WrittenWithin(writeup: string, n: nat) {
    exists i :: 0 <= i < |writeup| && i < n && !White(writeup[i])
  }

  /**
   * `submit` checks the whole write-up but stores its first 4000 characters. An accepted claim above
   * the floor always came with something written; the row an operator reviews is non-blank exactly when
   * that stands among the first 4000 characters, as the HTTP handler's own limit guarantees.
   */
  lemma StoredWriteup(cfg: Config, db: Ledger, who: Name, flag: Token, claimed: Option<Klass>, writeup: string)
    requires Submit(cfg, db, who, flag, claimed, writeup).0 == Recorded(Accepted)
    ensures var subs := Submit(cfg, db, who, flag, claimed, writeup).1.submissions;
            |subs| > 0
            && var row := subs[|subs| - 1];
               && (row.pending <==> Above(claimed, FloorOf(db.flags[flag].slot.rung)))
               && (row.pending ==> WrittenWithin(writeup, |writeup|))
               && (!Blank(row.writeup) <==> WrittenWithin(writeup, 4000))
               && (row.pending && |writeup| <= 4000 ==> !Blank(row.writeup))
  {
    hide Already, DeclaresRung, Blank, WrittenWithin;
    BlankMeans(writeup);
    BlankMeans(Truncated(writeup));
    WrittenEarly(writeup);
  }

  lemma BlankMeans(s: string)
    ensures !Blank(s) <==> WrittenWithin(s, |s|)
  {
  }

  lemma WrittenEarly(s: string)
    ensures WrittenWithin(Truncated(s), |Truncated(s)|) <==> WrittenWithin(s, 4000)
  {
    var t := Truncated(s);
    assert forall i :: 0 <= i < |t| ==> t[i] == s[i];
  }

  /** A write-up that starts with 4000 spaces is accepted and stored blank. */
  lemma BlankWriteupStored(cfg: Config, db: Ledger, who: Name, flag: Token, claimed: Option<Klass>)
    requires Submit(cfg, db, who, flag, claimed, "because").0 == Recorded(Accepted)
    requires Above(claimed, FloorOf(db.flags[flag].slot.rung))
    ensures var writeup := seq(4000, i => ' ') + "because";
            var (outcome, db') := Submit(cfg, db, who, flag, claimed, writeup);
            && outcome == Recorded(Accepted) && |db'.submissions| > 0
            && db'.submissions[|db'.submissions| - 1].pending
            && Blank(db'.submissions[|db'.submissions| - 1].writeup)
  {
    hide Already, DeclaresRung;
    var writeup := seq(4000, i => ' ') + "because";
    assert writeup[4000] == 'b';
  }
}
