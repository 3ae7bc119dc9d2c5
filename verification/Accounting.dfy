// What the scores of all players come to together, and how high one can get.
module Accounting {
  import opened Bytes
  import opened Manifests
  import opened Ledgers
  import opened Rounds
  import opened FlagWindow
  import opened UptimeRows
  import opened Steals
  import opened Scores
  import opened Bonus
  import opened Counting

  // ----- owners ------------------------------------------------------------------------

  /** Players, workers and the services that flags were planted into are on the roster. */
  ghost predicate OwnersKnown(cfg: Config, w: World) {
    && (forall p :: p in w.db.players ==> p in cfg.roster)
    && (w.phase.Scoring? ==> forall p :: p in w.phase.workers ==> p in cfg.roster)
    && (forall f :: f in w.past.planted ==> w.past.planted[f].player in cfg.roster)
  }

  lemma OwnersKept(cfg: Config, w: World, step: Step)
    requires OwnersKnown(cfg, w) && Enabled(cfg, w, step)
    ensures OwnersKnown(cfg, Next(cfg, w, step))
  {
    hide IsFlagFor, Settle, Submit, Review, ScoreRung;
    match step
    case SettleBonus => SettleTouchesUptime(cfg, w.db, w.phase.tick);
    case Submitted(who, flag, claimed, writeup) => SubmitTouches(cfg, w.db, who, flag, claimed, writeup);
    case Reviewed(id, approve) => ReviewTouchesSubmissions(cfg, w.db, id, approve);
    case Probe(p, obs, token, earlier) =>
      ScoreTouches(cfg, w.db, CurrentSlot(w, p), w.phase.workers[p].inGrace, obs, token, earlier);
    case Late(_, _, _, _, _, _) => LateTouches(cfg, w, step);
    case _ =>
  }

  lemma {:induction false} OwnersAlways(cfg: Config, w: World, steps: seq<Step>, end: World)
    requires OwnersKnown(cfg, w) && Reaches(cfg, w, steps, end)
    ensures OwnersKnown(cfg, end)
    decreases |steps|
  {
    hide Enabled, Next, OwnersKnown;
    if steps != [] {
      OwnersKept(cfg, w, steps[0]);
      OwnersAlways(cfg, Next(cfg, w, steps[0]), steps[1..], end);
    }
  }

  /**
   * Every state a fresh round can get to keeps the invariants of rows, thefts and owners; those of
   * flags and uptime are kept if no reset falls into a tick and no worker outlives it.
   */
  lemma EveryRound(cfg: Config, w: World, steps: seq<Step>, end: World)
    requires Initial(cfg, w) && Distinct(cfg.roster) && Reaches(cfg, w, steps, end)
    ensures Traceable(end) && StealInv(cfg, end) && OwnersKnown(cfg, end)
    ensures Undisturbed(cfg, w, steps) ==> FlagInv(cfg, end) && RowInv(cfg, end)
  {
    hide FlagInv, RowInv, StealInv, OwnersKnown, Traceable, Undisturbed, Reaches;
    FlagsStart(cfg, w);
    TraceableFrom(cfg, w);
    RowsStart(cfg, w);
    NoSteals(cfg, w);
    NobodyOwns(cfg, w);
    StealsAlways(cfg, w, steps, end);
    OwnersAlways(cfg, w, steps, end);
    if Undisturbed(cfg, w, steps) {
      FlagsAlways(cfg, w, steps, end);
      RowsAlways(cfg, w, steps, end);
    }
  }

  lemma NobodyOwns(cfg: Config, w: World)
    requires Initial(cfg, w)
    ensures OwnersKnown(cfg, w)
  {
  }

  // ----- steals ----------------------------------------------------------------------------

  function AcceptedRows(subs: seq<Submission>): set<int> {
    set i | 0 <= i < |subs| && subs[i].verdict.Accepted?
  }

  function StolenFlags(subs: seq<Submission>): set<Token> {
    set i | 0 <= i < |subs| && subs[i].verdict.Accepted? :: subs[i].flag
  }

  /** Every player that is on the roster or may submit. */
  function Everyone(cfg: Config): set<Name> {
    (set p | p in cfg.roster) + cfg.submitters
  }

  lemma OneRow(subs: seq<Submission>, i: int, j: int)
    requires OncePerThief(subs) && 0 <= i < |subs| && 0 <= j < |subs| && SameSteal(subs[i], subs[j])
    ensures i == j
  {
    assert SameSteal(subs[j], subs[i]);
  }

  /** A row's number, its flag and its thief name each other, player by player. */
  lemma CapturedRows(subs: seq<Submission>, key: int -> Name, p: Name)
    requires OncePerThief(subs)
    requires forall i :: 0 <= i < |subs| ==> key(i) == subs[i].who
    ensures |Fibre(AcceptedRows(subs), key, p)| == |CapturedBy(subs, p)|
  {
    var rows := Fibre(AcceptedRows(subs), key, p);
    var flagOf := i => if 0 <= i < |subs| then subs[i].flag else "";
    forall i, j | i in rows && j in rows && flagOf(i) == flagOf(j)
      ensures i == j
    {
      OneRow(subs, i, j);
    }
    forall f | f in CapturedBy(subs, p)
      ensures exists i :: i in rows && flagOf(i) == f
    {
      var i :| 0 <= i < |subs| && Took(subs[i], p) && subs[i].flag == f;
      assert i in rows && flagOf(i) == f;
    }
    forall i | i in rows
      ensures flagOf(i) in CapturedBy(subs, p)
    {
      assert Took(subs[i], p);
    }
    ImageSize(rows, flagOf, CapturedBy(subs, p));
  }

  /** All captures together are the accepted rows. */
  lemma CapturesAddUp(cfg: Config, w: World)
    requires StealInv(cfg, w)
    ensures SumOver(Everyone(cfg), p => |CapturedBy(w.db.submissions, p)|) == |AcceptedRows(w.db.submissions)|
  {
    hide OncePerThief, ThievesFirst, CapturedBy, Priced;
    var subs := w.db.submissions;
    var key := i => if 0 <= i < |subs| then subs[i].who else "";
    forall i | i in AcceptedRows(subs)
      ensures key(i) in Everyone(cfg)
    {
      assert Steals.RowOk(cfg, w.past, subs[i]);
    }
    forall p
      ensures |CapturedBy(subs, p)| == |Fibre(AcceptedRows(subs), key, p)|
    {
      CapturedRows(subs, key, p);
    }
    FibresSum(AcceptedRows(subs), key, Everyone(cfg), p => |CapturedBy(subs, p)|);
  }

  /** All losses together are the distinct stolen flags. */
  lemma LossesAddUp(cfg: Config, w: World)
    requires StealInv(cfg, w) && OwnersKnown(cfg, w)
    ensures SumOver(Everyone(cfg), p => |StolenFrom(w.db.submissions, p)|) == |StolenFlags(w.db.submissions)|
  {
    hide OncePerThief, ThievesFirst, Priced;
    var subs := w.db.submissions;
    var key := f => if f in w.past.planted then w.past.planted[f].player else "";
    forall i | 0 <= i < |subs| && subs[i].verdict.Accepted?
      ensures subs[i].flag in w.past.planted && subs[i].owner == Some(key(subs[i].flag))
      ensures key(subs[i].flag) in Everyone(cfg)
    {
      assert Steals.RowOk(cfg, w.past, subs[i]);
    }
    forall p
      ensures StolenFrom(subs, p) == Fibre(StolenFlags(subs), key, p)
    {
      forall f | f in Fibre(StolenFlags(subs), key, p)
        ensures f in StolenFrom(subs, p)
      {
        var i :| 0 <= i < |subs| && subs[i].verdict.Accepted? && subs[i].flag == f;
        assert Lost(subs[i], p);
      }
      forall f | f in StolenFrom(subs, p)
        ensures f in Fibre(StolenFlags(subs), key, p)
      {
        var i :| 0 <= i < |subs| && Lost(subs[i], p) && subs[i].flag == f;
        assert subs[i].verdict.Accepted?;
      }
    }
    FibresSum(StolenFlags(subs), key, Everyone(cfg), p => |StolenFrom(subs, p)|);
  }

  /** The thieves of one flag are players other than its owner, each once. */
  lemma ThievesFew(cfg: Config, w: World, key: int -> Token, f: Token)
    requires StealInv(cfg, w) && OwnersKnown(cfg, w)
    requires forall i :: 0 <= i < |w.db.submissions| ==> key(i) == w.db.submissions[i].flag
    requires f in StolenFlags(w.db.submissions)
    ensures |Everyone(cfg)| >= 1
    ensures |Fibre(AcceptedRows(w.db.submissions), key, f)| <= |Everyone(cfg)| - 1
  {
    hide ThievesFirst, Priced;
    var subs := w.db.submissions;
    var rows := Fibre(AcceptedRows(subs), key, f);
    var thief := i => if 0 <= i < |subs| then subs[i].who else "";
    forall i | i in rows
      ensures f in w.past.planted && w.past.planted[f].player in Everyone(cfg)
      ensures thief(i) in Everyone(cfg) - {w.past.planted[f].player}
    {
      assert Steals.RowOk(cfg, w.past, subs[i]);
    }
    forall i, j | i in rows && j in rows && thief(i) == thief(j)
      ensures i == j
    {
      OneRow(subs, i, j);
    }
    var thieves := set i | i in rows :: thief(i);
    ImageSize(rows, thief, thieves);
    var i :| 0 <= i < |subs| && subs[i].verdict.Accepted? && subs[i].flag == f;
    assert i in rows;
    SubsetSize(thieves, Everyone(cfg) - {w.past.planted[f].player});
  }

  /**
   * In every reachable state the captures add up to the accepted rows, the losses to the distinct
   * stolen flags, and no flag is captured by more than the N - 1 players that do not own it.
   */
  lemma StealsBalance(cfg: Config, w: World)
    requires StealInv(cfg, w) && OwnersKnown(cfg, w)
    ensures var captured := SumOver(Everyone(cfg), p => |CapturedBy(w.db.submissions, p)|);
            var lost := SumOver(Everyone(cfg), p => |StolenFrom(w.db.submissions, p)|);
            && captured == |AcceptedRows(w.db.submissions)|
            && lost == |StolenFlags(w.db.submissions)|
            && lost <= captured
            && (|Everyone(cfg)| >= 1 ==> captured <= (|Everyone(cfg)| - 1) * lost)
            && (|Everyone(cfg)| == 0 ==> captured == 0)
  {
    hide StealInv, OwnersKnown, CapturedBy, StolenFrom, Everyone;
    CapturesAddUp(cfg, w);
    LossesAddUp(cfg, w);
    var subs := w.db.submissions;
    var key := i => if 0 <= i < |subs| then subs[i].flag else "";
    FlagsAreFewer(subs);
    if |Everyone(cfg)| >= 1 {
      forall f | f in StolenFlags(subs)
        ensures |Fibre(AcceptedRows(subs), key, f)| <= |Everyone(cfg)| - 1
      {
        ThievesFew(cfg, w, key, f);
      }
      FibresBounded(AcceptedRows(subs), key, StolenFlags(subs), |Everyone(cfg)| - 1);
    }
  }

  lemma {:induction false} FlagsAreFewer(subs: seq<Submission>)
    ensures |StolenFlags(subs)| <= |AcceptedRows(subs)|
  {
    hide StolenFlags, AcceptedRows;
    if subs == [] {
      NoRows();
    } else {
      var n := |subs| - 1;
      FlagsAreFewer(subs[..n]);
      LastRow(subs);
    }
  }

  lemma NoRows()
    ensures StolenFlags([]) == {}
  {
  }

  lemma LastRow(subs: seq<Submission>)
    requires subs != []
    ensures var n := |subs| - 1;
            && AcceptedRows(subs) == AcceptedRows(subs[..n]) + (if subs[n].verdict.Accepted? then {n} else {})
            && n !in AcceptedRows(subs[..n])
            && StolenFlags(subs) <= StolenFlags(subs[..n]) + (if subs[n].verdict.Accepted? then {subs[n].flag} else {})
            && |StolenFlags(subs)| <= |StolenFlags(subs[..n])| + (if subs[n].verdict.Accepted? then 1 else 0)
  {
    var n := |subs| - 1;
    var most := StolenFlags(subs[..n]) + (if subs[n].verdict.Accepted? then {subs[n].flag} else {});
    forall f | f in StolenFlags(subs)
      ensures f in most
    {
      var i :| 0 <= i < |subs| && subs[i].verdict.Accepted? && subs[i].flag == f;
      assert i < n ==> subs[..n][i] == subs[i];
    }
    SubsetSize(StolenFlags(subs), most);
  }

  // ----- uptime -------------------------------------------------------------------------------

  /** The most one tick can bring on these rungs. */
  function MostPerTick(cfg: Config, rungs: seq<Rung>): int {
    if rungs == [] then 0 else cfg.Weight(rungs[0]) + cfg.bonus + MostPerTick(cfg, rungs[1..])
  }

  /** A player's rows lie in ticks 1 .. last, those of the last tick on some of the rungs. */
  predicate Within(cfg: Config, rows: map<Slot, Uptime>, p: Name, last: nat, rungs: seq<Rung>) {
    forall s :: s in rows && s.player == p ==>
      && 1 <= s.tick <= last && (s.tick == last ==> s.rung in rungs)
      && rows[s].points <= cfg.Weight(s.rung) + cfg.bonus
  }

  predicate WeightsNatural(cfg: Config) {
    cfg.bonus >= 0 && forall r: Rung :: cfg.Weight(r) >= 0
  }

  lemma {:induction false} UptimeWithin(cfg: Config, rows: map<Slot, Uptime>, p: Name, last: nat, rungs: seq<Rung>)
    requires WeightsNatural(cfg) && Within(cfg, rows, p, last, rungs) && (last == 0 ==> rungs == [])
    ensures UptimeOf(rows, p)
            <= (if last == 0 then 0 else (last - 1) * MostPerTick(cfg, LADDER) + MostPerTick(cfg, rungs))
    decreases last, |rungs|
  {
    if last == 0 {
      assert NoneOf(rows, p);
      UptimeNone(rows, p);
    } else if rungs != [] {
      var s := Slot(last, p, rungs[0]);
      assert rungs == [rungs[0]] + rungs[1..];
      if s in rows {
        UptimeWithout(rows, p, s);
        UptimeWithin(cfg, rows - {s}, p, last, rungs[1..]);
      } else {
        UptimeWithin(cfg, rows, p, last, rungs[1..]);
      }
    } else {
      LadderComplete();
      UptimeWithin(cfg, rows, p, last - 1, if last == 1 then [] else LADDER);
      OneTickMore(last, MostPerTick(cfg, LADDER));
    }
  }

  lemma OneTickMore(last: nat, most: int)
    requires last >= 1
    ensures last >= 2 ==> (last - 1) * most == (last - 2) * most + most
    ensures last == 1 ==> (last - 1) * most == 0
  {
  }

  /** After T ticks a player's uptime is at most T times the weights and bonuses of the six rungs. */
  lemma UptimeBounded(cfg: Config, w: World, p: Name)
    requires RowInv(cfg, w) && WeightsNatural(cfg)
    ensures UptimeOf(w.db.uptime, p) <= w.db.tick * MostPerTick(cfg, LADDER)
  {
    hide UptimeOf, MostPerTick, GraceOk, WorkersOk, Tidy, Config.Weight;
    LadderComplete();
    forall s | s in w.db.uptime
      ensures 1 <= s.tick <= w.db.tick && w.db.uptime[s].points <= cfg.Weight(s.rung) + cfg.bonus
    {
      assert UptimeRows.RowOk(cfg, w, s, w.db.uptime[s]);
      NotDuePast(w, s);
    }
    UptimeWithin(cfg, w.db.uptime, p, w.db.tick, if w.db.tick == 0 then [] else LADDER);
    TickTimes(w.db.tick, MostPerTick(cfg, LADDER));
  }

  lemma TickTimes(tick: nat, most: int)
    ensures tick >= 1 ==> (tick - 1) * most + most == tick * most
    ensures tick == 0 ==> tick * most == 0
  {
  }
}
