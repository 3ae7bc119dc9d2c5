// The tick loop (orchestrator/tick.py) over the store, proved to be a run of the state machine.
module TickLoop {
  import opened Bytes
  import opened Manifests
  import opened Ledgers
  import opened Rounds
  import opened Bonus
  import opened FlagWindow
  import opened Boards
  import opened Stores

  // ----- runs ----------------------------------------------------------------------------

  lemma {:induction false} ReachesThen(cfg: Config, w: World, a: seq<Step>, mid: World, b: seq<Step>, end: World)
    requires Reaches(cfg, w, a, mid) && Reaches(cfg, mid, b, end)
    ensures Reaches(cfg, w, a + b, end)
    decreases |a|
  {
    hide Enabled, Next;
    if a == [] {
      assert a + b == b;
    } else {
      assert (a + b)[1..] == a[1..] + b;
      ReachesThen(cfg, Next(cfg, w, a[0]), a[1..], mid, b, end);
    }
  }

  lemma ReachesOne(cfg: Config, w: World, a: seq<Step>, mid: World, step: Step)
    requires Reaches(cfg, w, a, mid) && Enabled(cfg, mid, step)
    ensures Reaches(cfg, w, a + [step], Next(cfg, mid, step))
  {
    hide Enabled, Next;
    assert [step][1..] == [];
    assert Reaches(cfg, Next(cfg, mid, step), [], Next(cfg, mid, step));
    ReachesThen(cfg, w, a, mid, [step], Next(cfg, mid, step));
  }

  // ----- one protocol ------------------------------------------------------------------------

  lemma SomeFlag(db: Ledger, slot: Slot) returns (pick: Option<Token>)
    ensures IsFlagFor(db, slot, pick)
  {
    if f :| f in db.flags && db.flags[f].slot == slot {
      return Some(f);
    }
    return None;
  }

  /**
   * What comes of one turn at a service: an observation, or an exception that nobody expects, raised
   * before anything is stored or once a flag was.
   */
  datatype Report = Seen(obs: Observation) | Raises(planted: Option<string>)

  /** A flag is stored before the exception only where flags are planted at all. */
  function StoredFirst(cfg: Config, slot: Slot, report: Report): Option<string>
    requires report.Raises?
  {
    if cfg.Carries(slot.rung) then report.planted else None
  }

  /** The loop body of `score_player`; `earlier` is the flag the SLA check would ask for. */
  method ScoreProtocol(db: Store, cfg: Config, slot: Slot, inGrace: bool, report: Report, token: Token)
    returns (raised: bool, ghost earlier: Option<Token>)
    requires token !in db.flags
    modifies db
    ensures raised <==> report.Raises?
    ensures report.Seen? ==>
              && IsFlagFor(Planted(cfg, old(db.State()), slot, report.obs, token), SlaSlot(cfg, slot), earlier)
              && db.State() == ScoreRung(cfg, old(db.State()), slot, inGrace, report.obs, token, earlier)
    ensures report.Raises? ==>
              db.State() == match StoredFirst(cfg, slot, report)
                            case None => old(db.State())
                            case Some(ref) => Plant(old(db.State()), slot, token, ref, cfg.K)
  {
    earlier := None;
    if report.Raises? {
      var stored := StoredFirst(cfg, slot, report);
      if stored.Some? {
        db.PlantFlag(slot, token, stored.value, cfg.K);
      }
      return true, None;
    }
    var obs := report.obs;
    var ok := obs.healthy;
    earlier := SomeFlag(Planted(cfg, db.State(), slot, obs, token), SlaSlot(cfg, slot));
    if ok && cfg.Carries(slot.rung) {
      if obs.planted.Some? {
        db.PlantFlag(slot, token, obs.planted.value, cfg.K);
      } else {
        ok := false;
      }
      if ok {
        var old_ := db.FlagForSla(SlaSlot(cfg, slot));
        earlier := old_;
        if old_.Some? && obs.fetched != old_ {
          ok := false;
        }
      }
    }
    var graced := inGrace && !ok;
    var awarded := if ok || graced then cfg.Weight(slot.rung) else 0;
    db.WriteUptime(slot, ok || graced, graced, awarded);
    raised := false;
  }

  // ----- one player ------------------------------------------------------------------------------

  /** Every slot has a token of its own. */
  ghost predicate OwnTokens(newFlag: Slot -> Token) {
    forall a: Slot, b: Slot :: newFlag(a) == newFlag(b) ==> a == b
  }

  /** The only tokens issued meanwhile are those of some slots of this tick. */
  ghost predicate IssuedFor(past: History, past': History, tick: int, newFlag: Slot -> Token, slots: set<Slot>) {
    forall t :: t in past'.issued && t !in past.issued ==> exists s :: s in slots && s.tick == tick && t == newFlag(s)
  }

  lemma NotStored(cfg: Config, w: World, token: Token)
    requires FlagInv(cfg, w) && token !in w.past.issued
    ensures token !in w.db.flags
  {
    hide Due, Tidy, SlotsDone;
  }

  function Slots(tick: int, p: Name, rungs: seq<Rung>): set<Slot> {
    set i | 0 <= i < |rungs| :: Slot(tick, p, rungs[i])
  }

  /** A probe's effect, in the terms of the run. */
  lemma ProbeStep(cfg: Config, w: World, p: Name, obs: Observation, token: Token, earlier: Option<Token>, db': Ledger)
    requires w.phase.Scoring? && p in w.phase.workers && w.phase.workers[p].todo != [] && token !in w.past.issued
    requires IsFlagFor(Planted(cfg, w.db, CurrentSlot(w, p), obs, token), SlaSlot(cfg, CurrentSlot(w, p)), earlier)
    requires db' == ScoreRung(cfg, w.db, CurrentSlot(w, p), w.phase.workers[p].inGrace, obs, token, earlier)
    ensures var step := Probe(p, obs, token, earlier);
            && Enabled(cfg, w, step)
            && var w' := Next(cfg, w, step);
               && w'.db == db'
               && w'.phase == Scoring(w.phase.tick, w.phase.workers[p :=
                                        Worker(w.phase.workers[p].inGrace, w.phase.workers[p].todo[1..])])
               && w'.past.issued == w.past.issued + {token}
               && w'.db.uptime.Keys == w.db.uptime.Keys + {CurrentSlot(w, p)}
               && w'.db == w.db.(uptime := w'.db.uptime, flags := w'.db.flags)
  {
    hide IsFlagFor, IsUp, Planted;
    ScoreKeys(cfg, w.db, CurrentSlot(w, p), w.phase.workers[p].inGrace, obs, token, earlier);
  }

  lemma ScoreKeys(
      cfg: Config, db: Ledger, slot: Slot, inGrace: bool, obs: Observation, token: Token, earlier: Option<Token>)
    ensures var db' := ScoreRung(cfg, db, slot, inGrace, obs, token, earlier);
            db'.uptime.Keys == db.uptime.Keys + {slot} && db' == db.(uptime := db'.uptime, flags := db'.flags)
  {
  }

  /**
   * Part of one player's pass: a run over the rungs tried, of which those done have their rows, with
   * some left.
   */
  ghost predicate Pass(
      cfg: Config, w: World, steps: seq<Step>, end: World, tick: int, p: Name, inGrace: bool,
      tried: seq<Rung>, done: seq<Rung>, left: seq<Rung>, newFlag: Slot -> Token)
  {
    && Reaches(cfg, w, steps, end) && FlagInv(cfg, end) && w.phase.Scoring?
    && end.phase == Scoring(tick, w.phase.workers[p := Worker(inGrace, left)])
    && IssuedFor(w.past, end.past, tick, newFlag, Slots(tick, p, tried))
    && end.db.uptime.Keys == w.db.uptime.Keys + Slots(tick, p, done)
    && end.db == w.db.(uptime := end.db.uptime, flags := end.db.flags)
  }

  /** Tokens for a player's rungs are unused. */
  ghost predicate Unused(past: History, tick: int, p: Name, rungs: seq<Rung>, newFlag: Slot -> Token) {
    forall r :: r in rungs ==> newFlag(Slot(tick, p, r)) !in past.issued
  }

  lemma PassStarts(cfg: Config, w: World, tick: int, p: Name, inGrace: bool, rungs: seq<Rung>, newFlag: Slot -> Token)
    requires FlagInv(cfg, w) && w.phase.Scoring? && w.phase.tick == tick && p in w.phase.workers
    requires w.phase.workers[p] == Worker(inGrace, rungs)
    ensures Pass(cfg, w, [], w, tick, p, inGrace, [], [], rungs, newFlag)
  {
    hide FlagInv, Enabled, Next;
    assert w.phase.workers[p := Worker(inGrace, rungs)] == w.phase.workers;
  }

  lemma PassReady(
      cfg: Config, w: World, steps: seq<Step>, end: World, tick: int, p: Name, inGrace: bool,
      done: seq<Rung>, left: seq<Rung>, newFlag: Slot -> Token, all: seq<Rung>)
    requires Pass(cfg, w, steps, end, tick, p, inGrace, done, done, left, newFlag) && left != []
    requires Climbing(all) && all == done + left && Unused(w.past, tick, p, all, newFlag) && OwnTokens(newFlag)
    ensures newFlag(Slot(tick, p, left[0])) !in end.past.issued
    ensures newFlag(Slot(tick, p, left[0])) !in end.db.flags
  {
    hide FlagInv, Reaches;
    assert all[|done|] == left[0] && forall i :: 0 <= i < |done| ==> all[i] == done[i];
    assert Slot(tick, p, left[0]) !in Slots(tick, p, done);
    NotStored(cfg, end, newFlag(Slot(tick, p, left[0])));
  }

  lemma PassGoesOn(
      cfg: Config, w: World, steps: seq<Step>, end: World, tick: int, p: Name, inGrace: bool,
      done: seq<Rung>, left: seq<Rung>, newFlag: Slot -> Token, obs: Observation, earlier: Option<Token>, db': Ledger)
    requires Pass(cfg, w, steps, end, tick, p, inGrace, done, done, left, newFlag) && left != []
    requires newFlag(Slot(tick, p, left[0])) !in end.past.issued
    requires var slot, token := Slot(tick, p, left[0]), newFlag(Slot(tick, p, left[0]));
             && IsFlagFor(Planted(cfg, end.db, slot, obs, token), SlaSlot(cfg, slot), earlier)
             && db' == ScoreRung(cfg, end.db, slot, inGrace, obs, token, earlier)
    ensures var step := Probe(p, obs, newFlag(Slot(tick, p, left[0])), earlier);
            && Enabled(cfg, end, step) && Next(cfg, end, step).db == db'
            && Pass(cfg, w, steps + [step], Next(cfg, end, step), tick, p, inGrace,
                    done + [left[0]], done + [left[0]], left[1..], newFlag)
  {
    hide FlagInv, Enabled, Next, ScoreRung, Planted, Reaches, IsFlagFor;
    var slot := Slot(tick, p, left[0]);
    var token := newFlag(slot);
    var step := Probe(p, obs, token, earlier);
    ProbeStep(cfg, end, p, obs, token, earlier, db');
    FlagsKept(cfg, end, step);
    ReachesOne(cfg, w, steps, end, step);
    SlotsMore(tick, p, done, left[0]);
    var workers := w.phase.workers;
    assert workers[p := Worker(inGrace, left)][p := Worker(inGrace, left[1..])]
        == workers[p := Worker(inGrace, left[1..])];
  }

  /** A worker that dies has tried its rung, has no row for it, and has nothing left. */
  lemma PassDies(
      cfg: Config, w: World, steps: seq<Step>, end: World, tick: int, p: Name, inGrace: bool,
      done: seq<Rung>, left: seq<Rung>, newFlag: Slot -> Token, stored: Option<string>, db': Ledger)
    requires Pass(cfg, w, steps, end, tick, p, inGrace, done, done, left, newFlag) && left != []
    requires newFlag(Slot(tick, p, left[0])) !in end.past.issued && (stored.Some? ==> cfg.Carries(left[0]))
    requires db' == match stored
                    case None => end.db
                    case Some(ref) => Plant(end.db, Slot(tick, p, left[0]), newFlag(Slot(tick, p, left[0])), ref, cfg.K)
    ensures var step := Raised(p, stored, newFlag(Slot(tick, p, left[0])));
            && Enabled(cfg, end, step) && Next(cfg, end, step).db == db'
            && Pass(cfg, w, steps + [step], Next(cfg, end, step), tick, p, inGrace, done + [left[0]], done, [], newFlag)
  {
    hide FlagInv, Reaches;
    var step := Raised(p, stored, newFlag(Slot(tick, p, left[0])));
    FlagsKept(cfg, end, step);
    ReachesOne(cfg, w, steps, end, step);
    SlotsMore(tick, p, done, left[0]);
    var workers := w.phase.workers;
    assert workers[p := Worker(inGrace, left)][p := Worker(inGrace, [])] == workers[p := Worker(inGrace, [])];
  }

  lemma SlotsMore(tick: int, p: Name, done: seq<Rung>, r: Rung)
    ensures Slots(tick, p, done + [r]) == Slots(tick, p, done) + {Slot(tick, p, r)}
  {
    assert (done + [r])[|done|] == r;
    forall s | s in Slots(tick, p, done)
      ensures s in Slots(tick, p, done + [r])
    {
      var i :| 0 <= i < |done| && s == Slot(tick, p, done[i]);
      assert (done + [r])[i] == done[i];
    }
  }

  /** One turn of `score_player`'s loop, as one step of the run. */
  method ScoreNext(
      db: Store, cfg: Config, name: Name, proto: Rung, inGrace: bool, tick: int,
      observe: Slot -> Report, newFlag: Slot -> Token,
      ghost w: World, ghost now: World, ghost sofar: seq<Step>, ghost done: seq<Rung>, ghost left: seq<Rung>)
    returns (raised: bool, ghost end: World, ghost steps: seq<Step>)
    requires now.db == db.State() && left != [] && left[0] == proto
    requires Pass(cfg, w, sofar, now, tick, name, inGrace, done, done, left, newFlag)
    requires Climbing(done + left) && Unused(w.past, tick, name, done + left, newFlag) && OwnTokens(newFlag)
    modifies db
    ensures raised <==> observe(Slot(tick, name, proto)).Raises?
    ensures end.db == db.State()
    ensures if raised then Pass(cfg, w, steps, end, tick, name, inGrace, done + [proto], done, [], newFlag)
            else Pass(cfg, w, steps, end, tick, name, inGrace, done + [proto], done + [proto], left[1..], newFlag)
  {
    hide FlagInv, Enabled, Next, ScoreRung, Planted, Reaches, IsFlagFor, Pass, OwnTokens, Unused, Climbing, Plant;
    var slot := Slot(tick, name, proto);
    var report, token := observe(slot), newFlag(slot);
    PassReady(cfg, w, sofar, now, tick, name, inGrace, done, left, newFlag, done + left);
    ghost var earlier: Option<Token>;
    raised, earlier := ScoreProtocol(db, cfg, slot, inGrace, report, token);
    if raised {
      ghost var stored := StoredFirst(cfg, slot, report);
      PassDies(cfg, w, sofar, now, tick, name, inGrace, done, left, newFlag, stored, db.State());
      steps, end := sofar + [Raised(name, stored, token)], Next(cfg, now, Raised(name, stored, token));
    } else {
      PassGoesOn(cfg, w, sofar, now, tick, name, inGrace, done, left, newFlag, report.obs, earlier, db.State());
      ghost var step := Probe(name, report.obs, token, earlier);
      steps, end := sofar + [step], Next(cfg, now, step);
    }
  }

  /** The rungs a player's worker gets through: those before the first at which it raises. */
  function Scored(observe: Slot -> Report, tick: int, p: Name, rungs: seq<Rung>): seq<Rung> {
    if rungs == [] || observe(Slot(tick, p, rungs[0])).Raises? then []
    else [rungs[0]] + Scored(observe, tick, p, rungs[1..])
  }

  lemma {:induction false} ScoredStops(observe: Slot -> Report, tick: int, p: Name, rungs: seq<Rung>) returns (k: nat)
    ensures k <= |rungs| && Scored(observe, tick, p, rungs) == rungs[..k]
    ensures forall j :: 0 <= j < k ==> observe(Slot(tick, p, rungs[j])).Seen?
    ensures k < |rungs| ==> observe(Slot(tick, p, rungs[k])).Raises?
  {
    if rungs == [] || observe(Slot(tick, p, rungs[0])).Raises? {
      k := 0;
    } else {
      var rest := ScoredStops(observe, tick, p, rungs[1..]);
      k := rest + 1;
      assert rungs[..k] == [rungs[0]] + rungs[1..][..rest];
      assert forall j :: 1 <= j < |rungs| ==> rungs[j] == rungs[1..][j - 1];
    }
  }

  /** A rung is among them exactly when neither it nor any rung before it raises. */
  lemma ScoredMeans(observe: Slot -> Report, tick: int, p: Name, rungs: seq<Rung>, i: nat)
    requires Climbing(rungs) && i < |rungs|
    ensures rungs[i] in Scored(observe, tick, p, rungs)
            <==> forall j :: 0 <= j <= i ==> observe(Slot(tick, p, rungs[j])).Seen?
  {
    hide Scored;
    var k := ScoredStops(observe, tick, p, rungs);
    assert i < k ==> rungs[..k][i] == rungs[i];
  }

  lemma {:induction false} ScoredFrom(observe: Slot -> Report, tick: int, p: Name, rungs: seq<Rung>, i: nat)
    requires i <= |rungs| && forall j :: 0 <= j < i ==> observe(Slot(tick, p, rungs[j])).Seen?
    ensures Scored(observe, tick, p, rungs) == rungs[..i] + Scored(observe, tick, p, rungs[i..])
    decreases |rungs|
  {
    if i == 0 {
      assert rungs[..0] == [] && rungs[0..] == rungs;
    } else {
      ScoredFrom(observe, tick, p, rungs[1..], i - 1);
      assert rungs[1..][i - 1..] == rungs[i..] && rungs[..i] == [rungs[0]] + rungs[1..][..i - 1];
    }
  }

  /** `score_player`'s loop. */
  method ScoreProtocols(
      db: Store, cfg: Config, name: Name, protos: seq<Rung>, inGrace: bool, tick: int,
      observe: Slot -> Report, newFlag: Slot -> Token, ghost w: World)
    returns (raised: bool, ghost end: World, ghost steps: seq<Step>, ghost tried: seq<Rung>)
    requires w.db == db.State() && Pass(cfg, w, [], w, tick, name, inGrace, [], [], protos, newFlag)
    requires Climbing(protos) && Unused(w.past, tick, name, protos, newFlag) && OwnTokens(newFlag)
    modifies db
    ensures end.db == db.State()
    ensures Pass(cfg, w, steps, end, tick, name, inGrace, tried, Scored(observe, tick, name, protos), [], newFlag)
  {
    hide FlagInv, Enabled, Next, Reaches, Pass, OwnTokens, Unused, Climbing, Scored;
    end, steps, tried, raised := w, [], [], false;
    assert protos[..0] == [] && protos[0..] == protos;
    for i := 0 to |protos|
      invariant end.db == db.State() && tried == protos[..i]
      invariant forall j :: 0 <= j < i ==> observe(Slot(tick, name, protos[j])).Seen?
      invariant Pass(cfg, w, steps, end, tick, name, inGrace, protos[..i], protos[..i], protos[i..], newFlag)
    {
      SplitAt(protos, i);
      raised, end, steps :=
        ScoreNext(db, cfg, name, protos[i], inGrace, tick, observe, newFlag, w, end, steps, protos[..i], protos[i..]);
      tried := protos[..i + 1];
      if raised {
        ScoredUpTo(observe, tick, name, protos, i);
        return;
      }
    }
    ScoredAll(observe, tick, name, protos);
  }

  /**
   * `score_player`: probes the declared protocols in order, until one raises. It is a run of steps
   * that uses up the player's worker, and leaves one row for every rung before that.
   */
  method ScorePlayer(
      db: Store, cfg: Config, name: Name, row: Player, tick: int,
      observe: Slot -> Report, newFlag: Slot -> Token, ghost w: World)
    returns (raised: bool, ghost end: World, ghost steps: seq<Step>, ghost tried: seq<Rung>)
    requires w.db == db.State() && FlagInv(cfg, w) && OwnTokens(newFlag)
    requires w.phase.Scoring? && w.phase.tick == tick && name in w.phase.workers
    requires w.phase.workers[name]
             == Worker(tick <= row.graceUntil, if row.manifest.Some? then Rungs(row.manifest.value) else [])
    requires Unused(w.past, tick, name, w.phase.workers[name].todo, newFlag)
    modifies db
    ensures end.db == db.State()
    ensures Pass(cfg, w, steps, end, tick, name, tick <= row.graceUntil,
                 tried, Scored(observe, tick, name, w.phase.workers[name].todo), [], newFlag)
  {
    hide FlagInv, Enabled, Next, ScoreRung, Planted, Reaches, IsFlagFor, Pass, OwnTokens, Unused, Climbing, Scored;
    end, steps, tried, raised := w, [], [], false;
    var inGrace := tick <= row.graceUntil;
    PassStarts(cfg, w, tick, name, inGrace, w.phase.workers[name].todo, newFlag);
    ScoredNone(observe, tick, name);
    if row.manifest.None? {
      return;
    }
    var protos := Protocols(row.manifest.value);
    DistinctRungs(cfg, w, name);
    raised, end, steps, tried := ScoreProtocols(db, cfg, name, protos, inGrace, tick, observe, newFlag, w);
  }

  lemma ScoredNone(observe: Slot -> Report, tick: int, p: Name)
    ensures Scored(observe, tick, p, []) == []
  {
  }

  lemma ScoredAll(observe: Slot -> Report, tick: int, p: Name, rungs: seq<Rung>)
    requires forall j :: 0 <= j < |rungs| ==> observe(Slot(tick, p, rungs[j])).Seen?
    ensures Scored(observe, tick, p, rungs) == rungs && rungs[..|rungs|] == rungs && rungs[|rungs|..] == []
  {
    ScoredFrom(observe, tick, p, rungs, |rungs|);
  }

  lemma ScoredUpTo(observe: Slot -> Report, tick: int, p: Name, rungs: seq<Rung>, i: nat)
    requires i < |rungs| && (forall j :: 0 <= j < i ==> observe(Slot(tick, p, rungs[j])).Seen?)
    requires observe(Slot(tick, p, rungs[i])).Raises?
    ensures Scored(observe, tick, p, rungs) == rungs[..i]
  {
    ScoredFrom(observe, tick, p, rungs, i);
    assert Scored(observe, tick, p, rungs[i..]) == [];
  }

  lemma SplitAt<T>(s: seq<T>, i: nat)
    requires i < |s|
    ensures s[..i] + s[i..] == s && s[i..] != [] && s[i..][0] == s[i]
    ensures s[..i + 1] == s[..i] + [s[i]] && s[i..][1..] == s[i + 1..]
  {
  }

  lemma DistinctRungs(cfg: Config, w: World, p: Name)
    requires FlagInv(cfg, w) && w.phase.Scoring? && p in w.phase.workers
    ensures Climbing(w.phase.workers[p].todo)
  {
  }

  // ----- the defence bonus ---------------------------------------------------------------------------

  /** `apply_defense_bonus`, row by row. */
  method ApplyDefenseBonus(db: Store, cfg: Config, tick: int)
    modifies db
    ensures db.State() == Settle(cfg, old(db.State()), tick)
  {
    var target := tick - 1;
    if cfg.bonus == 0 || target < 1 {
      return;
    }
    for i := 0 to |cfg.roster|
      invariant SettlePlayers(cfg, db.State(), target, cfg.roster[i..])
                == SettlePlayers(cfg, old(db.State()), target, cfg.roster)
    {
      SplitAt(cfg.roster, i);
      SettleActive(db, cfg, target, cfg.roster[i]);
    }
  }

  method SettleActive(db: Store, cfg: Config, target: int, name: Name)
    modifies db
    ensures db.State() == SettlePlayer(cfg, old(db.State()), target, name)
  {
    if name !in db.players || db.players[name].status.Disabled? {
      return;
    }
    var stolen := db.StolenThisTick(name, target);
    hide StolenDuring, SettleRow;
    for j := 0 to |LADDER|
      invariant SettleRungs(cfg, db.State(), target, name, stolen, LADDER[j..])
                == SettleRungs(cfg, old(db.State()), target, name, stolen, LADDER)
    {
      SplitAt(LADDER, j);
      SettleProtocol(db, cfg, Slot(target, name, LADDER[j]), stolen);
    }
  }

  method SettleProtocol(db: Store, cfg: Config, slot: Slot, stolen: set<Rung>)
    modifies db
    ensures db.State() == SettleRow(cfg, old(db.State()), slot, stolen)
  {
    if slot in db.uptime && db.uptime[slot].ok {
      var base := cfg.Weight(slot.rung);
      var points := if slot.rung in stolen then base else base + cfg.bonus;
      db.WriteUptime(slot, true, db.uptime[slot].grace, points);
    }
  }

  // ----- one tick ------------------------------------------------------------------------------------

  /** Every active player starts with unused tokens for this tick. */
  ghost predicate AllUnused(past: History, tick: int, newFlag: Slot -> Token) {
    forall s: Slot :: s.tick == tick ==> newFlag(s) !in past.issued
  }

  /** Part of `run_tick`: some players are done, the others have their whole pass before them. */
  ghost predicate Ticking(
      cfg: Config, w: World, steps: seq<Step>, end: World, tick: int, workers: map<Name, Worker>, done: set<Name>,
      observe: Slot -> Report, newFlag: Slot -> Token)
  {
    && Reaches(cfg, w, steps, end) && FlagInv(cfg, end)
    && end.phase.Scoring? && end.phase.tick == tick && end.phase.workers.Keys == workers.Keys
    && (forall p :: p in workers ==>
          if p in done then end.phase.workers[p].todo == [] else end.phase.workers[p] == workers[p])
    && (forall t :: t in end.past.issued && t !in w.past.issued ==>
          exists s: Slot :: s.player in done && s.tick == tick && t == newFlag(s))
    && (forall s :: s in end.db.uptime <==> s in w.db.uptime || Scheduled(s, tick, workers, done, observe))
    && end.db == w.db.(uptime := end.db.uptime, flags := end.db.flags)
  }

  /** A rung that one of these players' workers gets through. */
  predicate Scheduled(s: Slot, tick: int, workers: map<Name, Worker>, done: set<Name>, observe: Slot -> Report) {
    && s.tick == tick && s.player in done && s.player in workers
    && s.rung in Scored(observe, tick, s.player, workers[s.player].todo)
  }

  lemma TickingStarts(cfg: Config, w: World, tick: int, observe: Slot -> Report, newFlag: Slot -> Token)
    requires FlagInv(cfg, w) && w.phase == Settled(tick)
    ensures Enabled(cfg, w, Launch)
    ensures Ticking(cfg, w, [Launch], Next(cfg, w, Launch), tick, Workers(w.db, tick), {}, observe, newFlag)
  {
    hide FlagInv, WorkerFor, Workers;
    FlagsKept(cfg, w, Launch);
    ReachesOne(cfg, w, [], w, Launch);
    assert [] + [Launch] == [Launch];
  }

  lemma TickingUnused(
      cfg: Config, w: World, steps: seq<Step>, end: World, tick: int, workers: map<Name, Worker>, done: set<Name>,
      observe: Slot -> Report, newFlag: Slot -> Token, p: Name)
    requires Ticking(cfg, w, steps, end, tick, workers, done, observe, newFlag)
    requires AllUnused(w.past, tick, newFlag) && OwnTokens(newFlag) && p in workers && p !in done
    ensures Unused(end.past, tick, p, workers[p].todo, newFlag)
  {
    hide FlagInv, Reaches;
  }

  lemma PlayerDone(
      cfg: Config, w: World, steps: seq<Step>, mid: World, tick: int, workers: map<Name, Worker>, done: set<Name>,
      observe: Slot -> Report, newFlag: Slot -> Token, p: Name, more: seq<Step>, end: World, tried: seq<Rung>)
    requires Ticking(cfg, w, steps, mid, tick, workers, done, observe, newFlag) && p in workers && p !in done
    requires Pass(cfg, mid, more, end, tick, p, workers[p].inGrace, tried,
                  Scored(observe, tick, p, workers[p].todo), [], newFlag)
    ensures Ticking(cfg, w, steps + more, end, tick, workers, done + {p}, observe, newFlag)
  {
    hide FlagInv, Reaches, Slots, Scored;
    ReachesThen(cfg, w, steps, mid, more, end);
    var done' := Scored(observe, tick, p, workers[p].todo);
    forall s
      ensures s in Slots(tick, p, done') <==> s.tick == tick && s.player == p && s.rung in done'
      ensures s in Slots(tick, p, tried) ==> s.player == p
    {
      InSlots(tick, p, done', s);
      InSlots(tick, p, tried, s);
    }
  }

  lemma InSlots(tick: int, p: Name, rungs: seq<Rung>, s: Slot)
    ensures s in Slots(tick, p, rungs) <==> s.tick == tick && s.player == p && s.rung in rungs
  {
  }

  /**
   * `run_tick`: every active player is scored, in one order of the many the worker pool could take.
   * Each gets a row for exactly the rungs its worker gets through; one that raises costs no other.
   */
  method RunTick(
      db: Store, cfg: Config, tick: int, observe: Slot -> Report, newFlag: Slot -> Token, ghost w: World)
    returns (ghost end: World, ghost steps: seq<Step>)
    requires w.db == db.State() && FlagInv(cfg, w) && w.phase == Settled(tick)
    requires AllUnused(w.past, tick, newFlag) && OwnTokens(newFlag)
    modifies db
    ensures end.db == db.State()
    ensures Ticking(cfg, w, steps, end, tick, Workers(w.db, tick), Workers(w.db, tick).Keys, observe, newFlag)
  {
    hide FlagInv, Enabled, Next, Ticking, Pass, AllUnused, OwnTokens, Unused, Scored;
    var rows := map p | p in db.players && !db.players[p].status.Disabled? :: db.players[p];
    ghost var workers := Workers(w.db, tick);
    TickingStarts(cfg, w, tick, observe, newFlag);
    end, steps := Next(cfg, w, Launch), [Launch];
    LaunchKeeps(cfg, w);
    assert rows.Keys == workers.Keys;
    var done: set<Name> := {};
    while rows.Keys - done != {}
      invariant done <= rows.Keys && end.db == db.State()
      invariant Ticking(cfg, w, steps, end, tick, workers, done, observe, newFlag)
      decreases rows.Keys - done
    {
      var p :| p in rows.Keys - done;
      TickingUnused(cfg, w, steps, end, tick, workers, done, observe, newFlag, p);
      TickingAt(cfg, w, steps, end, tick, workers, done, observe, newFlag, p);
      ghost var end', more, tried;
      var raised: bool;
      raised, end', more, tried := ScorePlayer(db, cfg, p, rows[p], tick, observe, newFlag, end);
      PlayerDone(cfg, w, steps, end, tick, workers, done, observe, newFlag, p, more, end', tried);
      end, steps, done := end', steps + more, done + {p};
    }
    AllDone(done, rows.Keys);
  }

  lemma AllDone<T>(done: set<T>, all: set<T>)
    requires done <= all && all - done == {}
    ensures done == all
  {
    assert all == done + (all - done);
  }

  lemma LaunchKeeps(cfg: Config, w: World)
    requires Enabled(cfg, w, Launch)
    ensures Next(cfg, w, Launch).db == w.db
  {
  }

  lemma TickingAt(
      cfg: Config, w: World, steps: seq<Step>, end: World, tick: int, workers: map<Name, Worker>, done: set<Name>,
      observe: Slot -> Report, newFlag: Slot -> Token, p: Name)
    requires Ticking(cfg, w, steps, end, tick, workers, done, observe, newFlag) && p in workers && p !in done
    ensures FlagInv(cfg, end) && end.phase.Scoring? && end.phase.tick == tick
    ensures p in end.phase.workers && end.phase.workers[p] == workers[p]
  {
    hide FlagInv, Reaches;
  }

  /** A declared rung of an active player that its worker gets through. */
  predicate GotThrough(db: Ledger, s: Slot, observe: Slot -> Report) {
    && s.player in db.players && Active(db, s.player) && db.players[s.player].manifest.Some?
    && s.rung in Scored(observe, s.tick, s.player, Rungs(db.players[s.player].manifest.value))
  }

  /** What one round of the main loop leaves behind: above all, rows for exactly the rungs got through. */
  ghost predicate TickDone(w: World, end: World, observe: Slot -> Report) {
    && end.phase.Idle? && end.db.tick == w.db.tick + 1 && end.past.expiredTo == end.db.tick
    && end.db.submissions == w.db.submissions && end.db.players == w.db.players
    && forall s :: s in end.db.uptime <==> s in w.db.uptime || (s.tick == end.db.tick && GotThrough(w.db, s, observe))
  }

  /**
   * One round of `main`'s loop when nobody else steps in: frozen, it only renders; otherwise it is
   * a run of the state machine from idle to idle that leaves a row for exactly the declared rungs of
   * active players that come before a raise, so all that is proved of runs holds of it.
   */
  method Tick(
      db: Store, cfg: Config, observe: Slot -> Report, newFlag: Slot -> Token, clock: string, ghost w: World)
    returns (board: Board, ghost end: World, ghost steps: seq<Step>)
    requires w.db == db.State() && FlagInv(cfg, w) && w.phase.Idle? && Distinct(cfg.roster)
    requires AllUnused(w.past, w.db.tick + 1, newFlag) && OwnTokens(newFlag)
    modifies db
    ensures end.db == db.State() && FlagInv(cfg, end) && Reaches(cfg, w, steps, end)
    ensures if old(db.frozen) then end == w else TickDone(w, end, observe)
    ensures IsGridTick(db.State(), db.tick, board.gridTick)
    ensures board == BoardOf(db.State(), db.tick, board.gridTick, clock)
  {
    hide FlagInv, AllUnused, OwnTokens, Reaches, IsGridTick, BoardOf, TickDone;
    if db.frozen {
      end, steps := w, [];
      EmptyRun(cfg, w);
    } else {
      end, steps := PlayTick(db, cfg, observe, newFlag, w);
    }
    board := db.RenderBoard(db.tick, clock);
  }

  method PlayTick(db: Store, cfg: Config, observe: Slot -> Report, newFlag: Slot -> Token, ghost w: World)
    returns (ghost end: World, ghost steps: seq<Step>)
    requires w.db == db.State() && FlagInv(cfg, w) && w.phase.Idle? && !db.frozen && Distinct(cfg.roster)
    requires AllUnused(w.past, w.db.tick + 1, newFlag) && OwnTokens(newFlag)
    modifies db
    ensures end.db == db.State() && FlagInv(cfg, end) && Reaches(cfg, w, steps, end) && TickDone(w, end, observe)
  {
    hide FlagInv, Enabled, Next, Ticking, AllUnused, OwnTokens, Reaches, Settle, Expire, TickDone;
    var tick := db.tick + 1;
    db.tick := tick;
    ApplyDefenseBonus(db, cfg, tick);
    SettledRun(cfg, w, newFlag);
    end, steps := RunTick(db, cfg, tick, observe, newFlag, SettledWorld(cfg, w));
    var removed := db.ExpireFlags(tick);
    FinishRun(cfg, w, steps, end, observe, newFlag);
    end, steps := Next(cfg, end, Finish), [Advance, SettleBonus] + steps + [Finish];
  }

  lemma EmptyRun(cfg: Config, w: World)
    ensures Reaches(cfg, w, [], w)
  {
  }

  /** The world once a new tick has settled the one before. */
  ghost function SettledWorld(cfg: Config, w: World): World {
    var db := w.db.(tick := w.db.tick + 1);
    w.(db := Settle(cfg, db, db.tick), phase := Settled(db.tick))
  }

  lemma SettledRun(cfg: Config, w: World, newFlag: Slot -> Token)
    requires FlagInv(cfg, w) && w.phase.Idle? && !w.db.frozen && AllUnused(w.past, w.db.tick + 1, newFlag)
    ensures var end := SettledWorld(cfg, w);
            && Reaches(cfg, w, [Advance, SettleBonus], end) && FlagInv(cfg, end)
            && AllUnused(end.past, w.db.tick + 1, newFlag)
    ensures var end := SettledWorld(cfg, w); end.db == w.db.(tick := w.db.tick + 1, uptime := end.db.uptime)
  {
    hide FlagInv, Settle, AllUnused;
    var begun := Next(cfg, w, Advance);
    FlagsKept(cfg, w, Advance);
    FlagsKept(cfg, begun, SettleBonus);
    EmptyRun(cfg, w);
    ReachesOne(cfg, w, [], w, Advance);
    ReachesOne(cfg, w, [Advance], begun, SettleBonus);
    assert [] + [Advance] == [Advance] && [Advance] + [SettleBonus] == [Advance, SettleBonus];
    SettleTouchesUptime(cfg, begun.db, begun.phase.tick);
  }

  lemma FinishRun(
      cfg: Config, w: World, steps: seq<Step>, end: World, observe: Slot -> Report, newFlag: Slot -> Token)
    requires FlagInv(cfg, w) && w.phase.Idle? && !w.db.frozen && Distinct(cfg.roster)
    requires var mid := SettledWorld(cfg, w);
             && Reaches(cfg, w, [Advance, SettleBonus], mid)
             && mid.db == w.db.(tick := w.db.tick + 1, uptime := mid.db.uptime)
             && Ticking(cfg, mid, steps, end, w.db.tick + 1, Workers(mid.db, w.db.tick + 1),
                        Workers(mid.db, w.db.tick + 1).Keys, observe, newFlag)
    ensures Enabled(cfg, end, Finish)
    ensures var last := Next(cfg, end, Finish);
            && last.db == Expire(end.db, w.db.tick + 1) && FlagInv(cfg, last) && TickDone(w, last, observe)
            && Reaches(cfg, w, [Advance, SettleBonus] + steps + [Finish], last)
  {
    hide FlagInv, Settle, Reaches, SettledWorld, Scored;
    var mid := SettledWorld(cfg, w);
    ReachesThen(cfg, w, [Advance, SettleBonus], mid, steps, end);
    ReachesOne(cfg, w, [Advance, SettleBonus] + steps, end, Finish);
    FlagsKept(cfg, end, Finish);
    SettledKeys(cfg, w);
    var t := w.db.tick + 1;
    forall s
      ensures Scheduled(s, t, Workers(mid.db, t), Workers(mid.db, t).Keys, observe)
              <==> s.tick == t && GotThrough(w.db, s, observe)
    {
      ScoredNone(observe, t, s.player);
    }
  }

  lemma SettledKeys(cfg: Config, w: World)
    requires Distinct(cfg.roster)
    ensures SettledWorld(cfg, w).db.uptime.Keys == w.db.uptime.Keys
  {
    var db := w.db.(tick := w.db.tick + 1);
    SettlePlayersReprices(cfg, db, db.tick - 1, cfg.roster);
  }
}
