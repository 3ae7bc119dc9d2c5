// The defence bonus (`apply_defense_bonus`, orchestrator/tick.py): what settling a tick comes to.
module Bonus {
  import opened Manifests
  import opened Ledgers

  /** A row after settling: an ok row gets its weight, plus the bonus unless its rung was stolen. */
  function Repriced(cfg: Config, row: Uptime, rung: Rung, stolen: set<Rung>): Uptime {
    if row.ok then row.(points := cfg.Weight(rung) + (if rung in stolen then 0 else cfg.bonus)) else row
  }

  /** The two ledgers have the same rows, and the same everything else. */
  predicate SameButUptime(db: Ledger, db': Ledger) {
    db' == db.(uptime := db'.uptime) && db'.uptime.Keys == db.uptime.Keys
  }

  lemma SettleRowReprices(cfg: Config, db: Ledger, slot: Slot, stolen: set<Rung>)
    ensures var db' := SettleRow(cfg, db, slot, stolen);
            && SameButUptime(db, db')
            && forall s :: s in db.uptime ==>
                 db'.uptime[s] == if s == slot then Repriced(cfg, db.uptime[s], s.rung, stolen) else db.uptime[s]
  {
  }

  lemma {:induction false} SettleRungsReprices(
      cfg: Config, db: Ledger, tick: int, player: Name, stolen: set<Rung>, rungs: seq<Rung>)
    requires forall i, j :: 0 <= i < j < |rungs| ==> rungs[i] != rungs[j]
    ensures var db' := SettleRungs(cfg, db, tick, player, stolen, rungs);
            && SameButUptime(db, db')
            && forall s :: s in db.uptime ==>
                 db'.uptime[s] == if s.tick == tick && s.player == player && s.rung in rungs
                                  then Repriced(cfg, db.uptime[s], s.rung, stolen) else db.uptime[s]
    decreases |rungs|
  {
    hide SettleRow, Repriced;
    if rungs != [] {
      var db1 := SettleRow(cfg, db, Slot(tick, player, rungs[0]), stolen);
      SettleRowReprices(cfg, db, Slot(tick, player, rungs[0]), stolen);
      SettleRungsReprices(cfg, db1, tick, player, stolen, rungs[1..]);
      assert rungs == [rungs[0]] + rungs[1..];
    }
  }

  lemma SettlePlayerReprices(cfg: Config, db: Ledger, tick: int, player: Name)
    ensures var db' := SettlePlayer(cfg, db, tick, player);
            && SameButUptime(db, db')
            && forall s :: s in db.uptime ==>
                 db'.uptime[s] == if s.tick == tick && s.player == player && Active(db, player)
                                  then Repriced(cfg, db.uptime[s], s.rung, StolenDuring(db, player, tick))
                                  else db.uptime[s]
  {
    hide StolenDuring, Repriced;
    LadderComplete();
    SettleRungsReprices(cfg, db, tick, player, StolenDuring(db, player, tick), LADDER);
  }

  lemma {:induction false} SettlePlayersReprices(cfg: Config, db: Ledger, tick: int, players: seq<Name>)
    requires Distinct(players)
    ensures var db' := SettlePlayers(cfg, db, tick, players);
            && SameButUptime(db, db')
            && forall s :: s in db.uptime ==>
                 db'.uptime[s] == if s.tick == tick && s.player in players && Active(db, s.player)
                                  then Repriced(cfg, db.uptime[s], s.rung, StolenDuring(db, s.player, tick))
                                  else db.uptime[s]
    decreases |players|
  {
    hide SettlePlayer, StolenDuring, Repriced, Active;
    if players != [] {
      var p := players[0];
      var db1 := SettlePlayer(cfg, db, tick, p);
      SettlePlayerReprices(cfg, db, tick, p);
      SettlePlayersReprices(cfg, db1, tick, players[1..]);
      assert players == [p] + players[1..];
      SameStolen(db, db1);
    }
  }

  lemma LadderComplete()
    ensures forall r: Rung :: r in LADDER
    ensures forall i, j :: 0 <= i < j < |LADDER| ==> LADDER[i] != LADDER[j]
  {
    forall r: Rung
      ensures r in LADDER
    {
      assert LADDER[Place(r)] == r;
    }
  }

  lemma SameStolen(db: Ledger, db1: Ledger)
    requires db1 == db.(uptime := db1.uptime)
    ensures forall p, t :: StolenDuring(db, p, t) == StolenDuring(db1, p, t)
    ensures forall p :: Active(db, p) == Active(db1, p)
  {
  }

  predicate Distinct(names: seq<Name>) {
    forall i, j :: 0 <= i < j < |names| ==> names[i] != names[j]
  }

  /** Some stored flag of this player and rung was stolen in that tick. */
  ghost predicate LostIn(db: Ledger, s: Slot, tick: int) {
    exists f :: f in db.flags && db.flags[f].slot.player == s.player && db.flags[f].slot.rung == s.rung
                && db.flags[f].stolen.Some? && db.flags[f].stolen.value.tick == tick
  }

  lemma StolenIsLost(db: Ledger, s: Slot, tick: int)
    ensures s.rung in StolenDuring(db, s.player, tick) <==> LostIn(db, s, tick)
  {
  }

  /**
   * Settling gives each ok row of an active player in the tick before its weight, plus the bonus
   * exactly when no flag of that player and rung was stolen in that tick, and changes nothing else.
   */
  lemma SettlePays(cfg: Config, db: Ledger, tick: int)
    requires Distinct(cfg.roster) && cfg.bonus != 0 && tick >= 2
    ensures var db' := Settle(cfg, db, tick);
            && SameButUptime(db, db')
            && forall s :: s in db.uptime ==>
                 db'.uptime[s] ==
                   if s.tick == tick - 1 && s.player in cfg.roster && Active(db, s.player) && db.uptime[s].ok then
                     db.uptime[s].(points := cfg.Weight(s.rung) + (if LostIn(db, s, tick - 1) then 0 else cfg.bonus))
                   else db.uptime[s]
  {
    hide Active, StolenDuring, LostIn;
    SettlePlayersReprices(cfg, db, tick - 1, cfg.roster);
    forall s | s in db.uptime
      ensures s.rung in StolenDuring(db, s.player, tick - 1) <==> LostIn(db, s, tick - 1)
    {
      StolenIsLost(db, s, tick - 1);
    }
  }

  /** Settling a tick again changes nothing. */
  lemma SettleIdempotent(cfg: Config, db: Ledger, tick: int)
    requires Distinct(cfg.roster)
    ensures Settle(cfg, Settle(cfg, db, tick), tick) == Settle(cfg, db, tick)
  {
    hide Active, StolenDuring, SettlePlayers;
    if cfg.bonus != 0 && tick >= 2 {
      var once := Settle(cfg, db, tick);
      var twice := Settle(cfg, once, tick);
      SettlePlayersReprices(cfg, db, tick - 1, cfg.roster);
      SettlePlayersReprices(cfg, once, tick - 1, cfg.roster);
      SameStolen(db, once);
      assert twice.uptime == once.uptime;
    }
  }
}
