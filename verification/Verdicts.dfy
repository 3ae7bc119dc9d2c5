// The verdict on a submission (`Referee.submit`, orchestrator/submit.py) and the row of a probe
// (`score_player`, orchestrator/tick.py), by the rungs, classes and ticks themselves.
module Verdicts {
  import opened Bytes
  import opened Manifests
  import opened Ledgers
  import opened Rounds
  import opened FlagWindow

  // ----- submissions ------------------------------------------------------------------------

  /** The characters Python's `str` counts as white space. */
  const SPACES: set<int> := {
    9, 10, 11, 12, 13, 28, 29, 30, 31, 32, 133, 160, 5760, 8192, 8193, 8194, 8195, 8196, 8197, 8198, 8199, 8200,
    8201, 8202, 8232, 8233, 8239, 8287, 12288
  }

  predicate Unwritten(writeup: string) {
    forall i :: 0 <= i < |writeup| ==> writeup[i] as int in SPACES
  }

  /** The owner's manifest has the rung: a transport `udp`, or the HTTP version. */
  predicate Listed(db: Ledger, slot: Slot) {
    && slot.player in db.players && db.players[slot.player].manifest.Some?
    && var m := db.players[slot.player].manifest.value;
       slot.rung in m.versions || (slot.rung == Udp && "udp" in m.transports)
  }

  predicate ScoredBefore(db: Ledger, who: Name, flag: Token) {
    exists i :: 0 <= i < |db.submissions|
      && db.submissions[i].who == who && db.submissions[i].flag == flag && db.submissions[i].verdict == Accepted
  }

  function PriceOf(cfg: Config, k: Klass): int {
    if k in cfg.prices then cfg.prices[k] else 0
  }

  lemma UnwrittenIs(writeup: string)
    ensures Blank(writeup) <==> Unwritten(writeup)
  {
    forall c: char
      ensures White(c) <==> c as int in SPACES
    {
    }
  }

  /** The row a submission leaves: the first 4000 characters of its write-up, and no points unless it is accepted. */
  function RowOf(
      who: Name, flag: Token, slot: Option<Slot>, v: Verdict, claimed: Option<Klass>, writeup: string): Submission
  {
    Submission(who, flag, if slot.Some? then Some(slot.value.player) else None,
               if slot.Some? then Some(slot.value.rung) else None, v, None, claimed, 0, false,
               if |writeup| > 4000 then writeup[..4000] else writeup)
  }

  /**
   * The checks in their order: a flag that is not stored or has expired, one's own, one of a rung that is
   * no longer declared, one scored before, a claim that needs a write-up and has none. What passes is
   * accepted: from the UDP fixture as transport, from any HTTP rung as app, paid at that price; a claim
   * of rce, or of transport on an HTTP rung, waits for its review. The theft is noted if it is the first.
   */
  lemma VerdictExact(cfg: Config, db: Ledger, who: Name, flag: Token, claimed: Option<Klass>, writeup: string)
    ensures var (outcome, db') := Submit(cfg, db, who, flag, claimed, writeup);
            if flag !in db.flags || db.flags[flag].expires <= db.tick then
              && outcome == Recorded(InvalidOrExpired)
              && db' == db.(submissions :=
                     db.submissions + [RowOf(who, flag, None, InvalidOrExpired, claimed, writeup)])
            else
              var row := db.flags[flag];
              var slot, udp := row.slot, row.slot.rung == Udp;
              var high := claimed == Some(Rce) || (claimed == Some(Transport) && !udp);
              var refused := if slot.player == who then Some(OwnFlag)
                             else if !Listed(db, slot) then Some(Undeclared)
                             else if ScoredBefore(db, who, flag) then Some(Duplicate) else None;
              if refused.Some? then
                && outcome == Recorded(refused.value)
                && db' == db.(submissions :=
                       db.submissions + [RowOf(who, flag, Some(slot), refused.value, claimed, writeup)])
              else if high && Unwritten(writeup) then outcome == WriteupRequired && db' == db
              else
                && outcome == Recorded(Accepted)
                && db'.submissions == db.submissions
                     + [RowOf(who, flag, Some(slot), Accepted, claimed, writeup)
                          .(klass := Some(if udp then Transport else App),
                            points := PriceOf(cfg, if udp then Transport else App), pending := high)]
                && db'.flags == db.flags[flag := row.(stolen :=
                                   if row.stolen.Some? then row.stolen else Some(Theft(who, db.tick)))]
                && db' == db.(submissions := db'.submissions, flags := db'.flags)
  {
    hide Blank, Unwritten;
    UnwrittenIs(writeup);
    assert Already(db, who, flag) <==> ScoredBefore(db, who, flag);
    hide Already, ScoredBefore;
    if flag in db.flags {
      ListedIs(db, db.flags[flag].slot);
      hide DeclaresRung, Listed;
      assert flag in db.flags && db.flags[flag].stolen.Some? ==> db.flags[flag := db.flags[flag]] == db.flags;
    }
  }

  lemma ListedIs(db: Ledger, slot: Slot)
    ensures Listed(db, slot) <==> DeclaresRung(db, slot.player, slot.rung)
  {
  }

  // ----- probes --------------------------------------------------------------------------------

  /** Flags are planted on HTTP/1.0 and later, and on UDP if its fixture is there. */
  predicate TakesFlags(cfg: Config, r: Rung) {
    r in {Http10, Http11, Http2, Http3} || (r == Udp && cfg.udpFixture)
  }

  function WeightOf(cfg: Config, r: Rung): int {
    if r in cfg.weights then cfg.weights[r] else 0
  }

  /** A row of full weight, the same under grace, or a row of nothing. */
  function RowFor(cfg: Config, r: Rung, passed: bool, inGrace: bool): Uptime {
    if passed then Uptime(true, false, WeightOf(cfg, r))
    else if inGrace then Uptime(true, true, WeightOf(cfg, r))
    else Uptime(false, false, 0)
  }

  /**
   * What one probe leaves. A flag is stored, until K ticks later, where the service was healthy and took
   * it. The flag asked for is one of the slot K - 1 ticks earlier, if any is stored. The rung has passed if
   * the service was healthy and, where flags are planted, took its flag and gave back the one asked for.
   */
  lemma ProbeExact(cfg: Config, w: World, p: Name, obs: Observation, token: Token, earlier: Option<Token>)
    requires Enabled(cfg, w, Probe(p, obs, token, earlier))
    ensures var db, db' := w.db, Next(cfg, w, Probe(p, obs, token, earlier)).db;
            var tick, worker := w.phase.tick, w.phase.workers[p];
            var rung := worker.todo[0];
            var slot, asked := Slot(tick, p, rung), Slot(tick - cfg.K + 1, p, rung);
            var passed := obs.healthy
                          && (TakesFlags(cfg, rung) ==>
                                obs.planted.Some? && (earlier.Some? ==> obs.fetched == earlier));
            && db'.flags == (if obs.healthy && TakesFlags(cfg, rung) && obs.planted.Some?
                             then db.flags[token := Flag(slot, obs.planted.value, tick + cfg.K, None)] else db.flags)
            && (match earlier
                case Some(f) => f in db'.flags && db'.flags[f].slot == asked
                case None => forall f :: f in db'.flags ==> db'.flags[f].slot != asked)
            && db'.uptime == db.uptime[slot := RowFor(cfg, rung, passed, worker.inGrace)]
            && db' == db.(flags := db'.flags, uptime := db'.uptime)
  {
    TakesIs(cfg, w.phase.workers[p].todo[0]);
    hide Config.Carries, TakesFlags;
  }

  lemma TakesIs(cfg: Config, r: Rung)
    ensures cfg.Carries(r) <==> TakesFlags(cfg, r)
  {
  }

  /**
   * In every state an undisturbed run reaches: the rung is up without grace exactly if the service was
   * healthy and, where flags are planted, took its flag and gave back the flag planted K - 1 ticks earlier
   * if that is stored. Otherwise its row is graced or down.
   */
  lemma UpExactly(cfg: Config, w: World, p: Name, obs: Observation, token: Token, earlier: Option<Token>)
    requires FlagInv(cfg, w) && Enabled(cfg, w, Probe(p, obs, token, earlier))
    ensures var db' := Next(cfg, w, Probe(p, obs, token, earlier)).db;
            var tick, worker := w.phase.tick, w.phase.workers[p];
            var rung := worker.todo[0];
            var passed := obs.healthy
                          && (TakesFlags(cfg, rung) ==>
                                && obs.planted.Some?
                                && forall f ::
                                     f in db'.flags && db'.flags[f].slot == Slot(tick - cfg.K + 1, p, rung) ==>
                                       obs.fetched == Some(f));
            Slot(tick, p, rung) in db'.uptime
            && db'.uptime[Slot(tick, p, rung)] == RowFor(cfg, rung, passed, worker.inGrace)
  {
    hide FlagInv, RowFor, IsFlagFor, TakesFlags;
    var step := Probe(p, obs, token, earlier);
    ProbeExact(cfg, w, p, obs, token, earlier);
    FlagsKept(cfg, w, step);
    hide Enabled, Probed, ScoreRung;
    var w' := Next(cfg, w, step);
    var asked := Slot(w.phase.tick - cfg.K + 1, p, w.phase.workers[p].todo[0]);
    forall f, g | f in w'.db.flags && g in w'.db.flags && w'.db.flags[f].slot == asked && w'.db.flags[g].slot == asked
      ensures f == g
    {
      SameSlot(cfg, w', f, g);
    }
  }

  lemma SameSlot(cfg: Config, w: World, f: Token, g: Token)
    requires FlagInv(cfg, w) && f in w.db.flags && g in w.db.flags && w.db.flags[f].slot == w.db.flags[g].slot
    ensures f == g
  {
    hide Due, Tidy, SlotsDone;
  }
}
