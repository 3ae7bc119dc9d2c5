// Scores are derived from the ledgers (`Store.totals`, orchestrator/state.py) and never drift from
// a total kept up step by step.
module Scores {
  import opened Bytes
  import opened Manifests
  import opened Ledgers
  import opened Rounds
  import opened FlagWindow
  import opened Bonus
  import opened Steals

  datatype Score = Score(attack: int, uptime: int, captured: int, stolenFrom: int, pending: int)
  {
    function Total(): int {
      attack + uptime
    }

    function Plus(more: Score): Score {
      Score(attack + more.attack, uptime + more.uptime, captured + more.captured,
            stolenFrom + more.stolenFrom, pending + more.pending)
    }
  }

  const NIL: Score := Score(0, 0, 0, 0, 0)

  // ----- the recount -------------------------------------------------------------------

  function PointsFor(s: Slot, row: Uptime, p: Name): int {
    if s.player == p then row.points else 0
  }

  /** The points of a player's rows. */
  ghost function UptimeOf(rows: map<Slot, Uptime>, p: Name): int
    decreases |rows|
  {
    if exists s :: s in rows then
      var s :| s in rows;
      PointsFor(s, rows[s], p) + UptimeOf(rows - {s}, p)
    else 0
  }

  predicate Took(s: Submission, p: Name) {
    s.verdict.Accepted? && s.who == p
  }

  predicate Lost(s: Submission, p: Name) {
    s.verdict.Accepted? && s.owner == Some(p)
  }

  function AttackOf(subs: seq<Submission>, p: Name): int {
    if subs == [] then 0
    else AttackOf(subs[..|subs| - 1], p) + (if Took(subs[|subs| - 1], p) then subs[|subs| - 1].points else 0)
  }

  function PendingOf(subs: seq<Submission>, p: Name): int {
    if subs == [] then 0
    else PendingOf(subs[..|subs| - 1], p)
         + (if Took(subs[|subs| - 1], p) && subs[|subs| - 1].pending then 1 else 0)
  }

  function CapturedBy(subs: seq<Submission>, p: Name): set<Token> {
    set i | 0 <= i < |subs| && Took(subs[i], p) :: subs[i].flag
  }

  function StolenFrom(subs: seq<Submission>, p: Name): set<Token> {
    set i | 0 <= i < |subs| && Lost(subs[i], p) :: subs[i].flag
  }

  ghost function ScoreOf(db: Ledger, p: Name): Score {
    Score(AttackOf(db.submissions, p), UptimeOf(db.uptime, p), |CapturedBy(db.submissions, p)|,
          |StolenFrom(db.submissions, p)|, PendingOf(db.submissions, p))
  }

  // ----- what each step is worth ----------------------------------------------------------

  function PointsNow(db: Ledger, s: Slot): int {
    if s in db.uptime then db.uptime[s].points else 0
  }

  function RungGain(cfg: Config, db: Ledger, s: Slot, stolen: set<Rung>): int {
    if s in db.uptime && db.uptime[s].ok
    then cfg.Weight(s.rung) + (if s.rung in stolen then 0 else cfg.bonus) - db.uptime[s].points else 0
  }

  function RungsGain(cfg: Config, db: Ledger, tick: int, p: Name, stolen: set<Rung>, rungs: seq<Rung>): int {
    if rungs == [] then 0
    else RungGain(cfg, db, Slot(tick, p, rungs[0]), stolen) + RungsGain(cfg, db, tick, p, stolen, rungs[1..])
  }

  /** Settling re-prices the six rungs of each active player on the roster. */
  function SettleGain(cfg: Config, db: Ledger, tick: int, p: Name): int {
    if cfg.bonus == 0 || tick < 2 || p !in cfg.roster || !Active(db, p) then 0
    else RungsGain(cfg, db, tick - 1, p, StolenDuring(db, p, tick - 1), LADDER)
  }

  /** The points a probe writes for its slot, less those it overwrites. */
  function ProbeGain(cfg: Config, db: Ledger, s: Slot, inGrace: bool, obs: Observation, earlier: Option<Token>): int {
    (if inGrace || IsUp(cfg, s, obs, earlier) then cfg.Weight(s.rung) else 0) - PointsNow(db, s)
  }

  /** An accepted steal pays its thief the floor, and counts against the owner the first time. */
  function StealGain(cfg: Config, past: History, who: Name, flag: Token, claimed: Option<Klass>, p: Name): Score
    requires flag in past.planted
  {
    var slot := past.planted[flag];
    var floor := FloorOf(slot.rung);
    Score(if p == who then cfg.Price(floor) else 0, 0, if p == who then 1 else 0,
          if p == slot.player && flag !in past.thefts then 1 else 0,
          if p == who && Above(claimed, floor) then 1 else 0)
  }

  /** Settling a claim: an approval pays the difference. */
  function ReviewGain(cfg: Config, db: Ledger, id: nat, approve: bool, p: Name): Score {
    if id < |db.submissions| && db.submissions[id].pending && db.submissions[id].who == p then
      var row := db.submissions[id];
      Score(if approve then ApprovedPrice(cfg, row) - row.points else 0, 0, 0, 0, -1)
    else NIL
  }

  /** An accepted steal of a flag this round has planted; in every reachable state accepted ones are. */
  ghost predicate ScoresBy(cfg: Config, w: World, who: Name, flag: Token, claimed: Option<Klass>, writeup: string) {
    flag in w.past.planted && Submit(cfg, w.db, who, flag, claimed, writeup).0 == Recorded(Accepted)
  }

  ghost function Gain(cfg: Config, w: World, step: Step, p: Name): Score
    requires Enabled(cfg, w, step)
  {
    match step
    case Probe(q, obs, token, earlier) =>
      if p == q
      then Score(0, ProbeGain(cfg, w.db, CurrentSlot(w, q), w.phase.workers[q].inGrace, obs, earlier), 0, 0, 0)
      else NIL
    case Late(slot, inGrace, obs, _, earlier, raises) =>
      if p == slot.player && !raises then Score(0, ProbeGain(cfg, w.db, slot, inGrace, obs, earlier), 0, 0, 0) else NIL
    case SettleBonus => Score(0, SettleGain(cfg, w.db, w.phase.tick, p), 0, 0, 0)
    case Submitted(who, flag, claimed, writeup) =>
      if ScoresBy(cfg, w, who, flag, claimed, writeup) then StealGain(cfg, w.past, who, flag, claimed, p) else NIL
    case Reviewed(id, approve) => ReviewGain(cfg, w.db, id, approve, p)
    case _ => NIL
  }

  /** A total kept up step by step, starting over with each round. */
  ghost function Tally(cfg: Config, w: World, steps: seq<Step>, end: World, p: Name, total: Score): Score
    requires Reaches(cfg, w, steps, end)
    decreases |steps|
  {
    if steps == [] then total
    else
      Tally(cfg, Next(cfg, w, steps[0]), steps[1..], end, p,
              if steps[0].NewRound? then NIL else total.Plus(Gain(cfg, w, steps[0], p)))
  }

  // ----- uptime ---------------------------------------------------------------------------------

  lemma {:induction false} UptimeWithout(rows: map<Slot, Uptime>, p: Name, s: Slot)
    requires s in rows
    ensures UptimeOf(rows, p) == PointsFor(s, rows[s], p) + UptimeOf(rows - {s}, p)
    decreases |rows|
  {
    var first :| first in rows && UptimeOf(rows, p) == PointsFor(first, rows[first], p) + UptimeOf(rows - {first}, p);
    if first != s {
      UptimeWithout(rows - {first}, p, s);
      UptimeWithout(rows - {s}, p, first);
      assert rows - {first} - {s} == rows - {s} - {first};
    }
  }

  lemma UptimeWith(rows: map<Slot, Uptime>, p: Name, s: Slot, row: Uptime)
    ensures UptimeOf(rows[s := row], p)
            == UptimeOf(rows, p) + PointsFor(s, row, p) - (if s in rows then PointsFor(s, rows[s], p) else 0)
  {
    UptimeWithout(rows[s := row], p, s);
    if s in rows {
      UptimeWithout(rows, p, s);
      assert rows[s := row] - {s} == rows - {s};
    } else {
      assert rows[s := row] - {s} == rows;
    }
  }

  predicate NoneOf(rows: map<Slot, Uptime>, p: Name) {
    forall s :: s in rows ==> s.player != p
  }

  lemma {:induction false} UptimeNone(rows: map<Slot, Uptime>, p: Name)
    requires NoneOf(rows, p)
    ensures UptimeOf(rows, p) == 0
    decreases |rows|
  {
    if exists s :: s in rows {
      var s :| s in rows;
      UptimeWithout(rows, p, s);
      UptimeNone(rows - {s}, p);
    }
  }

  lemma {:induction false} RungsGained(
      cfg: Config, db: Ledger, tick: int, player: Name, stolen: set<Rung>, rungs: seq<Rung>, p: Name)
    requires forall i, j :: 0 <= i < j < |rungs| ==> rungs[i] != rungs[j]
    ensures UptimeOf(SettleRungs(cfg, db, tick, player, stolen, rungs).uptime, p)
            == UptimeOf(db.uptime, p) + (if p == player then RungsGain(cfg, db, tick, player, stolen, rungs) else 0)
    decreases |rungs|
  {
    if rungs != [] {
      var s := Slot(tick, player, rungs[0]);
      var db1 := SettleRow(cfg, db, s, stolen);
      if s in db.uptime && db.uptime[s].ok {
        UptimeWith(db.uptime, p, s, db1.uptime[s]);
      }
      RungsGained(cfg, db1, tick, player, stolen, rungs[1..], p);
      GainElsewhere(cfg, db, db1, tick, player, stolen, rungs[1..]);
    }
  }

  /** What settling other rungs gains depends only on their rows. */
  lemma {:induction false} GainElsewhere(
      cfg: Config, db: Ledger, db': Ledger, tick: int, p: Name, stolen: set<Rung>, rungs: seq<Rung>)
    requires forall r :: r in rungs ==> (Slot(tick, p, r) in db.uptime <==> Slot(tick, p, r) in db'.uptime)
    requires forall r :: r in rungs && Slot(tick, p, r) in db.uptime ==>
               db.uptime[Slot(tick, p, r)] == db'.uptime[Slot(tick, p, r)]
    ensures RungsGain(cfg, db, tick, p, stolen, rungs) == RungsGain(cfg, db', tick, p, stolen, rungs)
    decreases |rungs|
  {
    if rungs != [] {
      assert rungs[0] in rungs;
      assert forall r :: r in rungs[1..] ==> r in rungs;
      GainElsewhere(cfg, db, db', tick, p, stolen, rungs[1..]);
    }
  }

  lemma {:induction false} PlayersGained(cfg: Config, db: Ledger, tick: int, players: seq<Name>, p: Name)
    requires Distinct(players)
    ensures UptimeOf(SettlePlayers(cfg, db, tick, players).uptime, p)
            == UptimeOf(db.uptime, p)
               + (if p in players && Active(db, p)
                  then RungsGain(cfg, db, tick, p, StolenDuring(db, p, tick), LADDER) else 0)
    decreases |players|
  {
    hide StolenDuring, Active, RungsGain, SettleRungs, UptimeOf;
    if players != [] {
      var q := players[0];
      var db1 := SettlePlayer(cfg, db, tick, q);
      assert players == [q] + players[1..];
      LadderComplete();
      SettlePlayerReprices(cfg, db, tick, q);
      SameStolen(db, db1);
      if Active(db, q) {
        RungsGained(cfg, db, tick, q, StolenDuring(db, q, tick), LADDER, p);
      }
      PlayersGained(cfg, db1, tick, players[1..], p);
      if p != q {
        GainElsewhere(cfg, db, db1, tick, p, StolenDuring(db, p, tick), LADDER);
      }
    }
  }

  lemma SettleGained(cfg: Config, db: Ledger, tick: int, p: Name)
    requires Distinct(cfg.roster)
    ensures UptimeOf(Settle(cfg, db, tick).uptime, p) == UptimeOf(db.uptime, p) + SettleGain(cfg, db, tick, p)
  {
    hide StolenDuring, Active, RungsGain, SettlePlayers, UptimeOf;
    PlayersGained(cfg, db, tick - 1, cfg.roster, p);
  }

  // ----- submissions ---------------------------------------------------------------------------------

  lemma TakenAppend(subs: seq<Submission>, row: Submission, p: Name)
    ensures CapturedBy(subs + [row], p) == CapturedBy(subs, p) + (if Took(row, p) then {row.flag} else {})
    ensures StolenFrom(subs + [row], p) == StolenFrom(subs, p) + (if Lost(row, p) then {row.flag} else {})
  {
    hide Took, Lost;
    var all := subs + [row];
    assert all[|subs|] == row;
    forall f | f in CapturedBy(subs, p)
      ensures f in CapturedBy(all, p)
    {
      var i :| 0 <= i < |subs| && Took(subs[i], p) && subs[i].flag == f;
      assert all[i] == subs[i];
    }
    forall f | f in StolenFrom(subs, p)
      ensures f in StolenFrom(all, p)
    {
      var i :| 0 <= i < |subs| && Lost(subs[i], p) && subs[i].flag == f;
      assert all[i] == subs[i];
    }
  }

  predicate NothingTaken(subs: seq<Submission>, p: Name) {
    forall i :: 0 <= i < |subs| ==> !Took(subs[i], p)
  }

  lemma {:induction false} NothingEarned(subs: seq<Submission>, p: Name)
    requires NothingTaken(subs, p)
    ensures AttackOf(subs, p) == 0 && PendingOf(subs, p) == 0 && CapturedBy(subs, p) == {}
  {
    if subs != [] {
      NothingEarned(subs[..|subs| - 1], p);
    }
  }

  lemma SumsAppend(subs: seq<Submission>, row: Submission, p: Name)
    ensures AttackOf(subs + [row], p) == AttackOf(subs, p) + (if Took(row, p) then row.points else 0)
    ensures PendingOf(subs + [row], p) == PendingOf(subs, p) + (if Took(row, p) && row.pending then 1 else 0)
  {
    assert (subs + [row])[..|subs|] == subs;
  }

  lemma {:induction false} SumsUpdate(subs: seq<Submission>, id: nat, row: Submission, p: Name)
    requires id < |subs| && row.who == subs[id].who && row.verdict == subs[id].verdict
    ensures AttackOf(subs[id := row], p)
            == AttackOf(subs, p) + (if Took(row, p) then row.points - subs[id].points else 0)
    ensures PendingOf(subs[id := row], p)
            == PendingOf(subs, p)
               + (if Took(row, p) then (if row.pending then 1 else 0) - (if subs[id].pending then 1 else 0) else 0)
    decreases |subs|
  {
    var n := |subs| - 1;
    if id == n {
      assert subs[id := row][..n] == subs[..n];
    } else {
      assert subs[id := row][..n] == subs[..n][id := row];
      SumsUpdate(subs[..n], id, row, p);
    }
  }

  lemma TakenUpdate(subs: seq<Submission>, subs': seq<Submission>, p: Name)
    requires |subs'| == |subs| && Continues(subs, subs')
    ensures CapturedBy(subs', p) == CapturedBy(subs, p)
    ensures StolenFrom(subs', p) == StolenFrom(subs, p)
  {
    assert forall i :: 0 <= i < |subs| ==> SameButSettled(subs[i], subs'[i]);
    forall f
      ensures f in CapturedBy(subs', p) <==> f in CapturedBy(subs, p)
      ensures f in StolenFrom(subs', p) <==> f in StolenFrom(subs, p)
    {
      assert f in CapturedBy(subs, p) <==> exists i :: 0 <= i < |subs| && Took(subs[i], p) && subs[i].flag == f;
      assert f in CapturedBy(subs', p) <==> exists i :: 0 <= i < |subs| && Took(subs'[i], p) && subs'[i].flag == f;
      assert f in StolenFrom(subs, p) <==> exists i :: 0 <= i < |subs| && Lost(subs[i], p) && subs[i].flag == f;
      assert f in StolenFrom(subs', p) <==> exists i :: 0 <= i < |subs| && Lost(subs'[i], p) && subs'[i].flag == f;
    }
  }

  /** The row `submit` writes for a steal of `slot`'s flag. */
  function StealRow(
      cfg: Config, who: Name, flag: Token, slot: Slot, claimed: Option<Klass>, writeup: string): Submission
  {
    var floor := FloorOf(slot.rung);
    Submission(who, flag, Some(slot.player), Some(slot.rung), Accepted, Some(floor), claimed,
               cfg.Price(floor), Above(claimed, floor), Truncated(writeup))
  }

  /** The row an accepted submission adds. */
  lemma RowAdded(cfg: Config, w: World, who: Name, flag: Token, claimed: Option<Klass>, writeup: string)
    requires Traceable(w) && ScoresBy(cfg, w, who, flag, claimed, writeup)
    ensures !Already(w.db, who, flag)
    ensures Submit(cfg, w.db, who, flag, claimed, writeup).1.submissions
            == w.db.submissions + [StealRow(cfg, who, flag, w.past.planted[flag], claimed, writeup)]
  {
    hide Already, DeclaresRung, Blank;
    SubmitTouches(cfg, w.db, who, flag, claimed, writeup);
  }

  /** A flag counts against its owner once it has been stolen at all. */
  lemma StolenIffTheft(cfg: Config, w: World, f: Token)
    requires StealInv(cfg, w) && f in w.past.planted
    ensures f in StolenFrom(w.db.submissions, w.past.planted[f].player) <==> f in w.past.thefts
    ensures forall p :: p != w.past.planted[f].player ==> f !in StolenFrom(w.db.submissions, p)
  {
    hide Priced;
    var subs := w.db.submissions;
    forall i | 0 <= i < |subs| && subs[i].verdict.Accepted? && subs[i].flag == f
      ensures f in w.past.thefts && Lost(subs[i], w.past.planted[f].player)
    {
      assert RowOk(cfg, w.past, subs[i]);
    }
    if f in w.past.thefts {
      var i: nat :| FirstFor(subs, i, f, w.past.thefts[f].thief);
      assert Lost(subs[i], w.past.planted[f].player);
    }
  }

  /** One row more, of a flag this player had not taken. */
  lemma RowScored(subs: seq<Submission>, row: Submission, p: Name)
    requires row.verdict.Accepted? && row.owner.Some? && row.flag !in CapturedBy(subs, row.who)
    ensures AttackOf(subs + [row], p) == AttackOf(subs, p) + (if p == row.who then row.points else 0)
    ensures PendingOf(subs + [row], p) == PendingOf(subs, p) + (if p == row.who && row.pending then 1 else 0)
    ensures |CapturedBy(subs + [row], p)| == |CapturedBy(subs, p)| + (if p == row.who then 1 else 0)
    ensures |StolenFrom(subs + [row], p)|
            == |StolenFrom(subs, p)| + (if p == row.owner.value && row.flag !in StolenFrom(subs, p) then 1 else 0)
  {
    hide AttackOf, PendingOf, CapturedBy, StolenFrom;
    TakenAppend(subs, row, p);
    SumsAppend(subs, row, p);
    var lost := StolenFrom(subs, p);
    assert row.flag in lost ==> lost + {row.flag} == lost;
  }

  lemma NotYetCaptured(db: Ledger, who: Name, flag: Token)
    requires !Already(db, who, flag)
    ensures flag !in CapturedBy(db.submissions, who)
  {
  }

  lemma StealGainParts(
      cfg: Config, past: History, who: Name, flag: Token, claimed: Option<Klass>, writeup: string, p: Name)
    requires flag in past.planted
    ensures var row := StealRow(cfg, who, flag, past.planted[flag], claimed, writeup);
            var gain := StealGain(cfg, past, who, flag, claimed, p);
            && row.verdict.Accepted? && row.flag == flag && row.who == who
            && row.owner == Some(past.planted[flag].player)
            && gain.attack == (if p == who then row.points else 0)
            && gain.pending == (if p == who && row.pending then 1 else 0)
            && gain.captured == (if p == who then 1 else 0)
            && gain.stolenFrom == (if p == past.planted[flag].player && flag !in past.thefts then 1 else 0)
            && gain.uptime == 0
  {
    hide Above, FloorOf, Truncated;
  }

  lemma StealRowScored(
      cfg: Config, past: History, subs: seq<Submission>, who: Name, flag: Token, claimed: Option<Klass>,
      writeup: string, p: Name)
    requires flag in past.planted && flag !in CapturedBy(subs, who)
    requires flag in past.thefts <==> flag in StolenFrom(subs, past.planted[flag].player)
    ensures var subs' := subs + [StealRow(cfg, who, flag, past.planted[flag], claimed, writeup)];
            var gain := StealGain(cfg, past, who, flag, claimed, p);
            && AttackOf(subs', p) == AttackOf(subs, p) + gain.attack
            && |CapturedBy(subs', p)| == |CapturedBy(subs, p)| + gain.captured
            && |StolenFrom(subs', p)| == |StolenFrom(subs, p)| + gain.stolenFrom
            && PendingOf(subs', p) == PendingOf(subs, p) + gain.pending
  {
    hide AttackOf, PendingOf, CapturedBy, StolenFrom, StealRow, StealGain;
    StealGainParts(cfg, past, who, flag, claimed, writeup, p);
    RowScored(subs, StealRow(cfg, who, flag, past.planted[flag], claimed, writeup), p);
  }

  lemma StealScored(cfg: Config, w: World, who: Name, flag: Token, claimed: Option<Klass>, writeup: string, p: Name)
    requires Traceable(w) && StealInv(cfg, w) && ScoresBy(cfg, w, who, flag, claimed, writeup)
    ensures ScoreOf(Submit(cfg, w.db, who, flag, claimed, writeup).1, p)
            == ScoreOf(w.db, p).Plus(StealGain(cfg, w.past, who, flag, claimed, p))
  {
    hide Traceable, StealInv, Submit, Already, DeclaresRung, UptimeOf, AttackOf, PendingOf, CapturedBy, StolenFrom,
      Above, Blank, StealGain, StealRow;
    RowAdded(cfg, w, who, flag, claimed, writeup);
    SubmitTouches(cfg, w.db, who, flag, claimed, writeup);
    NotYetCaptured(w.db, who, flag);
    StolenIffTheft(cfg, w, flag);
    StealRowScored(cfg, w.past, w.db.submissions, who, flag, claimed, writeup, p);
    StealGainParts(cfg, w.past, who, flag, claimed, writeup, p);
  }

  lemma RefusalScored(cfg: Config, w: World, who: Name, flag: Token, claimed: Option<Klass>, writeup: string, p: Name)
    requires Traceable(w) && !ScoresBy(cfg, w, who, flag, claimed, writeup)
    ensures ScoreOf(Submit(cfg, w.db, who, flag, claimed, writeup).1, p) == ScoreOf(w.db, p)
  {
    hide Submit, UptimeOf, AttackOf, PendingOf, StolenFrom, CapturedBy;
    var subs := w.db.submissions;
    var db := Submit(cfg, w.db, who, flag, claimed, writeup).1;
    SubmitTouches(cfg, w.db, who, flag, claimed, writeup);
    RefusedRow(cfg, w.db, who, flag, claimed, writeup);
    if db.submissions != subs {
      var row := db.submissions[|subs|];
      assert db.submissions == subs + [row];
      TakenAppend(subs, row, p);
      SumsAppend(subs, row, p);
    }
  }

  lemma ReviewScored(cfg: Config, w: World, id: nat, approve: bool, p: Name)
    requires StealInv(cfg, w)
    ensures ScoreOf(Review(cfg, w.db, id, approve), p) == ScoreOf(w.db, p).Plus(ReviewGain(cfg, w.db, id, approve, p))
  {
    hide UptimeOf, AttackOf, PendingOf, CapturedBy, StolenFrom, Blank, OncePerThief, ThievesFirst;
    var subs := w.db.submissions;
    var db := Review(cfg, w.db, id, approve);
    ReviewSettles(cfg, w.past, w.db, id, approve);
    ReviewTouchesSubmissions(cfg, w.db, id, approve);
    TakenUpdate(subs, db.submissions, p);
    if id < |subs| && subs[id].pending {
      assert RowOk(cfg, w.past, subs[id]);
      SumsUpdate(subs, id, db.submissions[id], p);
    }
  }

  // ----- every run ---------------------------------------------------------------------------------------

  lemma ProbeScored(cfg: Config, w: World, step: Step, p: Name)
    requires Enabled(cfg, w, step) && step.Probe?
    ensures ScoreOf(Next(cfg, w, step).db, p) == ScoreOf(w.db, p).Plus(Gain(cfg, w, step, p))
  {
    hide IsFlagFor, UptimeOf, AttackOf, PendingOf, CapturedBy, StolenFrom, IsUp, Planted;
    var s := CurrentSlot(w, step.player);
    var db' := Next(cfg, w, step).db;
    PlantedTouchesFlags(cfg, w.db, s, step.obs, step.token);
    assert db'.submissions == w.db.submissions;
    UptimeWith(w.db.uptime, p, s, db'.uptime[s]);
  }

  lemma LateScored(cfg: Config, w: World, step: Step, p: Name)
    requires Enabled(cfg, w, step) && step.Late?
    ensures ScoreOf(Next(cfg, w, step).db, p) == ScoreOf(w.db, p).Plus(Gain(cfg, w, step, p))
  {
    hide IsFlagFor, UptimeOf, AttackOf, PendingOf, CapturedBy, StolenFrom, IsUp, Planted;
    var db' := Next(cfg, w, step).db;
    PlantedTouchesFlags(cfg, w.db, step.slot, step.obs, step.token);
    if !step.raises {
      UptimeWith(w.db.uptime, p, step.slot, db'.uptime[step.slot]);
    }
  }

  lemma StepScored(cfg: Config, w: World, step: Step, p: Name)
    requires Traceable(w) && StealInv(cfg, w) && Distinct(cfg.roster) && Enabled(cfg, w, step) && !step.NewRound?
    ensures ScoreOf(Next(cfg, w, step).db, p) == ScoreOf(w.db, p).Plus(Gain(cfg, w, step, p))
  {
    hide Traceable, StealInv, IsFlagFor, Settle, Submit, Review, ScoresBy, SettleGain, StealGain, ReviewGain,
      UptimeOf, AttackOf, PendingOf, CapturedBy, StolenFrom, Probed, Straggled;
    match step
    case Probe(_, _, _, _) => ProbeScored(cfg, w, step, p);
    case Late(_, _, _, _, _, _) => LateScored(cfg, w, step, p);
    case SettleBonus =>
      SettleTouchesUptime(cfg, w.db, w.phase.tick);
      SettleGained(cfg, w.db, w.phase.tick, p);
    case Submitted(who, flag, claimed, writeup) =>
      if ScoresBy(cfg, w, who, flag, claimed, writeup) {
        StealScored(cfg, w, who, flag, claimed, writeup, p);
      } else {
        RefusalScored(cfg, w, who, flag, claimed, writeup, p);
      }
    case Reviewed(id, approve) => ReviewScored(cfg, w, id, approve, p);
    case _ =>
  }

  lemma NilScored(db: Ledger, p: Name)
    requires db.uptime == map[] && db.submissions == []
    ensures ScoreOf(db, p) == NIL
  {
    assert CapturedBy([], p) == {} && StolenFrom([], p) == {};
  }

  /**
   * Over every run, whatever mix of probes, settlements, submissions, reviews and resets it holds,
   * wherever in a tick a reset falls and however late a worker still writes, the recount of the ledgers
   * is the total kept up step by step.
   */
  lemma {:induction false} NeverDrifts(cfg: Config, w: World, steps: seq<Step>, end: World, p: Name)
    requires Traceable(w) && StealInv(cfg, w) && Distinct(cfg.roster) && Reaches(cfg, w, steps, end)
    ensures ScoreOf(end.db, p) == Tally(cfg, w, steps, end, p, ScoreOf(w.db, p))
    decreases |steps|
  {
    hide Enabled, Next, Traceable, StealInv, ScoreOf, Gain;
    if steps != [] {
      var next := Next(cfg, w, steps[0]);
      TraceableKept(cfg, w, steps[0]);
      StealsKept(cfg, w, steps[0]);
      if steps[0].NewRound? {
        ResetScored(cfg, w, p);
      } else {
        StepScored(cfg, w, steps[0], p);
      }
      NeverDrifts(cfg, next, steps[1..], end, p);
    }
  }

  lemma ResetScored(cfg: Config, w: World, p: Name)
    ensures ScoreOf(Next(cfg, w, NewRound).db, p) == NIL
  {
    NilScored(Next(cfg, w, NewRound).db, p);
  }
}
