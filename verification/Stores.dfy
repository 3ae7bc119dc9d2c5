// The store itself (class `Store`, orchestrator/state.py): tables that its methods change in place.
module Stores {
  import opened Bytes
  import opened Manifests
  import opened Ledgers
  import opened Bonus
  import opened Scores
  import opened Boards

  class Store {
    var tick: int
    var frozen: bool
    var players: map<Name, Player>
    var flags: map<Token, Flag>
    var uptime: map<Slot, Uptime>
    var submissions: seq<Submission>

    /** The tables as one value. */
    ghost function State(): Ledger
      reads this
    {
      Ledger(tick, frozen, players, flags, uptime, submissions)
    }

    constructor (roster: set<Name>)
      ensures State() == Ledger(0, false, map p | p in roster :: Player(None, "", Unknown, 0), map[], map[], [])
    {
      tick, frozen := 0, false;
      players := map p | p in roster :: Player(None, "", Unknown, 0);
      flags, uptime, submissions := map[], map[], [];
    }

    // ----- flags -------------------------------------------------------------------------

    /** The token is the table's key: it must be new. */
    method PlantFlag(slot: Slot, token: Token, ref: string, lifetime: nat)
      requires token !in flags
      modifies this`flags
      ensures State() == Plant(old(State()), slot, token, ref, lifetime)
    {
      flags := flags[token := Flag(slot, ref, slot.tick + lifetime, None)];
    }

    /** Finds a flag of the slot if there is one, whichever comes first. */
    method FlagForSla(slot: Slot) returns (pick: Option<Token>)
      ensures IsFlagFor(State(), slot, pick)
    {
      var rest := flags.Keys;
      while rest != {}
        invariant rest <= flags.Keys
        invariant forall f :: f in flags && f !in rest ==> flags[f].slot != slot
        decreases |rest|
      {
        var f :| f in rest;
        if flags[f].slot == slot {
          return Some(f);
        }
        rest := rest - {f};
      }
      return None;
    }

    /** Deletes what has expired, and says how many flags that was. */
    method ExpireFlags(now: int) returns (removed: nat)
      modifies this`flags
      ensures State() == Expire(old(State()), now)
      ensures removed == |old(flags.Keys) - flags.Keys|
    {
      var gone := set f | f in flags && flags[f].expires <= now;
      assert flags.Keys - (flags - gone).Keys == gone;
      flags, removed := flags - gone, |gone|;
    }

    method FindLiveFlag(token: Token, now: int) returns (row: Option<Flag>)
      ensures row == FindLive(State(), token, now)
    {
      if token in flags && flags[token].expires > now {
        return Some(flags[token]);
      }
      return None;
    }

    /** Only the first theft is written. */
    method NoteTheft(token: Token, who: Name, now: int)
      modifies this`flags
      ensures State() == MarkStolen(old(State()), token, who, now)
    {
      if token in flags && flags[token].stolen.None? {
        flags := flags[token := flags[token].(stolen := Some(Theft(who, now)))];
      }
    }

    method StolenThisTick(player: Name, now: int) returns (rungs: set<Rung>)
      ensures rungs == StolenDuring(State(), player, now)
    {
      rungs := {};
      var rest := flags.Keys;
      while rest != {}
        invariant rest <= flags.Keys
        invariant forall r :: r in rungs <==>
                    exists f :: f in flags.Keys - rest && flags[f].slot.player == player && flags[f].stolen.Some?
                                && flags[f].stolen.value.tick == now && flags[f].slot.rung == r
        decreases |rest|
      {
        var f :| f in rest;
        var row := flags[f];
        if row.slot.player == player && row.stolen.Some? && row.stolen.value.tick == now {
          rungs := rungs + {row.slot.rung};
        }
        rest := rest - {f};
      }
    }

    // ----- ledgers -------------------------------------------------------------------------

    method WriteUptime(slot: Slot, ok: bool, grace: bool, points: int)
      modifies this`uptime
      ensures State() == RecordUptime(old(State()), slot, ok, grace, points)
    {
      uptime := uptime[slot := Uptime(ok, grace, points)];
    }

    method Record(s: Submission)
      modifies this`submissions
      ensures State() == AddSubmission(old(State()), s)
    {
      submissions := submissions + [s];
    }

    method ReviewClaim(cfg: Config, id: nat, approve: bool)
      modifies this`submissions
      ensures State() == Review(cfg, old(State()), id, approve)
    {
      if id >= |submissions| || !submissions[id].pending {
        return;
      }
      var row := submissions[id];
      if approve && row.claimed.Some? {
        var points := if row.claimed.value in cfg.prices then cfg.prices[row.claimed.value] else row.points;
        submissions := submissions[id := row.(klass := row.claimed, points := points, pending := false)];
      } else {
        submissions := submissions[id := row.(pending := false)];
      }
    }

    method ChangeStatus(player: Name, status: Status)
      modifies this`players
      ensures State() == SetStatus(old(State()), player, status)
    {
      if player in players {
        players := players[player := players[player].(status := status)];
      }
    }

    /** The players-table half of `record_deploy`. */
    method RecordRelease(player: Name, manifest: Manifest, rev: string, graceUntil: int)
      modifies this`players
      ensures old(State()).tick == tick
      ensures State() == if player in old(players)
                         then old(State()).(players := old(players)[player :=
                                                        Player(Some(manifest), rev, Running, graceUntil)])
                         else old(State())
    {
      if player in players {
        players := players[player := Player(Some(manifest), rev, Running, graceUntil)];
      }
    }

    method Freeze(on: bool)
      modifies this`frozen
      ensures State() == old(State()).(frozen := on)
    {
      frozen := on;
    }

    method ResetRound()
      modifies this
      ensures State() == Reset(old(State()))
    {
      flags, uptime, submissions := map[], map[], [];
      tick, frozen := 0, false;
      players := map p | p in players :: players[p].(graceUntil := 0);
    }

    // ----- the scoreboard ----------------------------------------------------------------------

    method UptimeSum(p: Name) returns (sum: int)
      ensures sum == UptimeOf(uptime, p)
    {
      hide UptimeOf;
      sum := 0;
      var rest := uptime.Keys;
      NoRows(uptime - rest, p);
      while rest != {}
        invariant rest <= uptime.Keys
        invariant sum == UptimeOf(uptime - rest, p)
        decreases |rest|
      {
        var s :| s in rest;
        assert uptime - (rest - {s}) == (uptime - rest)[s := uptime[s]];
        UptimeWith(uptime - rest, p, s, uptime[s]);
        sum := sum + (if s.player == p then uptime[s].points else 0);
        rest := rest - {s};
      }
      assert uptime - rest == uptime;
    }

    /** What a player was awarded, how many flags it took, and how many of its claims wait. */
    method AttackSums(p: Name, acc: Score) returns (out: Score)
      ensures out == Captures(acc, submissions, p)
    {
      var points, pending := 0, 0;
      var taken: set<Token> := {};
      for i := 0 to |submissions|
        invariant points == AttackOf(submissions[..i], p) && pending == PendingOf(submissions[..i], p)
        invariant taken == CapturedBy(submissions[..i], p)
      {
        var row := submissions[i];
        assert submissions[..i + 1] == submissions[..i] + [row];
        SumsAppend(submissions[..i], row, p);
        TakenAppend(submissions[..i], row, p);
        if row.verdict.Accepted? && row.who == p {
          points, taken := points + row.points, taken + {row.flag};
          pending := pending + (if row.pending then 1 else 0);
        }
      }
      assert submissions[..|submissions|] == submissions;
      out := acc.(attack := points, captured := |taken|, pending := pending);
    }

    method LossCount(p: Name) returns (lost: nat)
      ensures lost == |StolenFrom(submissions, p)|
    {
      var taken: set<Token> := {};
      for i := 0 to |submissions|
        invariant taken == StolenFrom(submissions[..i], p)
      {
        var row := submissions[i];
        assert submissions[..i + 1] == submissions[..i] + [row];
        TakenAppend(submissions[..i], row, p);
        if row.verdict.Accepted? && row.owner == Some(p) {
          taken := taken + {row.flag};
        }
      }
      assert submissions[..|submissions|] == submissions;
      lost := |taken|;
    }

    /** Fills in the uptime points of some players. */
    method AddUptime(start: map<Name, Score>, names: set<Name>) returns (out: map<Name, Score>)
      ensures Filled(start, out, names, WithUptime(start, uptime))
    {
      hide Filled;
      ghost var value := WithUptime(start, uptime);
      out := start;
      var done: set<Name> := {};
      FilledNone(start, value);
      while names - done != {}
        invariant done <= names && Filled(start, out, done, value)
        decreases names - done
      {
        var n :| n in names - done;
        FillOne(start, out, done, value, n);
        var sum := UptimeSum(n);
        out := out[n := Get(out, n).(uptime := sum)];
        done := done + {n};
      }
      assert done == names;
    }

    /** Fills in what some players captured, and what it was worth. */
    method AddAttack(start: map<Name, Score>, names: set<Name>) returns (out: map<Name, Score>)
      ensures Filled(start, out, names, WithAttack(start, submissions))
    {
      hide Filled;
      ghost var value := WithAttack(start, submissions);
      out := start;
      var done: set<Name> := {};
      FilledNone(start, value);
      while names - done != {}
        invariant done <= names && Filled(start, out, done, value)
        decreases names - done
      {
        var n :| n in names - done;
        FillOne(start, out, done, value, n);
        var acc := AttackSums(n, Get(out, n));
        out := out[n := acc];
        done := done + {n};
      }
      assert done == names;
    }

    /** Fills in how many flags some players lost. */
    method AddLosses(start: map<Name, Score>, names: set<Name>) returns (out: map<Name, Score>)
      ensures Filled(start, out, names, WithLosses(start, submissions))
    {
      hide Filled;
      ghost var value := WithLosses(start, submissions);
      out := start;
      var done: set<Name> := {};
      FilledNone(start, value);
      while names - done != {}
        invariant done <= names && Filled(start, out, done, value)
        decreases names - done
      {
        var n :| n in names - done;
        FillOne(start, out, done, value, n);
        var lost := LossCount(n);
        out := out[n := Get(out, n).(stolenFrom := lost)];
        done := done + {n};
      }
      assert done == names;
    }

    /** Everyone's score, recounted from the ledgers. */
    method Totals() returns (out: map<Name, Score>)
      ensures out == TotalsOf(State())
    {
      hide UptimeOf, AttackOf, PendingOf, CapturedBy, StolenFrom, TotalsOf, Thieves, Victims, Boards.Scored;
      out := map p | p in players :: NIL;
      out := AddUptime(out, Boards.Scored(uptime));
      out := AddAttack(out, Thieves(submissions));
      out := AddLosses(out, Victims(submissions));
      forall n | n in out
        ensures out[n] == ScoreOf(State(), n)
      {
        Absent(State(), n);
      }
      SameTotals(State(), out);
    }

    // ----- the board --------------------------------------------------------------------------

    method GridTick(now: int) returns (grid: int)
      ensures IsGridTick(State(), now, grid)
    {
      grid := now;
      var found := false;
      var rest := uptime.Keys;
      while rest != {}
        invariant rest <= uptime.Keys
        invariant !found ==> grid == now && forall s :: s in uptime && s !in rest ==> s.tick > now
        invariant found ==> exists s :: s in uptime && s.tick == grid <= now
        invariant found ==> forall s :: s in uptime && s !in rest && s.tick <= now ==> s.tick <= grid
        decreases |rest|
      {
        var s :| s in rest;
        if s.tick <= now && (!found || s.tick > grid) {
          grid, found := s.tick, true;
        }
        rest := rest - {s};
      }
    }

    /** The state of each rung that has a row in the grid tick. */
    method GridRow(p: Name, grid: int) returns (up: map<Rung, Light>)
      ensures up == Lights(State(), p, grid)
    {
      up := map[];
      for i := 0 to |LADDER|
        invariant forall r :: r in up <==> r in LADDER[..i] && Slot(grid, p, r) in uptime
        invariant forall r :: r in up ==> up[r] == LightOf(uptime[Slot(grid, p, r)])
      {
        var s := Slot(grid, p, LADDER[i]);
        if s in uptime {
          up := up[LADDER[i] := if uptime[s].grace then Grace else if uptime[s].ok then Up else Down];
        }
      }
      LadderComplete();
      assert LADDER[..|LADDER|] == LADDER;
    }

    method RenderBoard(now: int, clock: string) returns (board: Board)
      ensures IsGridTick(State(), now, board.gridTick)
      ensures board == BoardOf(State(), now, board.gridTick, clock)
    {
      hide ScoreOf, Names, Lights, IsGridTick;
      var totals := Totals();
      var grid := GridTick(now);
      var panels: map<Name, Panel> := map[];
      var rest := players.Keys;
      while rest != {}
        invariant rest <= players.Keys
        invariant forall p :: p in panels <==> p in players && p !in rest && !players[p].status.Disabled?
        invariant forall p :: p in panels ==> panels[p] == PanelOf(State(), p, now, grid)
        decreases |rest|
      {
        var p :| p in rest;
        var row := players[p];
        if !row.status.Disabled? {
          var up := GridRow(p, grid);
          PlayersNamed(State(), p);
          var acc := totals[p];
          panels := panels[p := Panel(acc, acc.Total(),
                                      if row.manifest.Some? then row.manifest.value.transports else {},
                                      if row.manifest.Some? then row.manifest.value.versions else [],
                                      up, row.status, if |row.rev| > 12 then row.rev[..12] else row.rev,
                                      now <= row.graceUntil)];
        }
        rest := rest - {p};
      }
      board := Board(now, grid, clock, frozen, panels);
    }
  }

  function Get(m: map<Name, Score>, n: Name): Score {
    if n in m then m[n] else NIL
  }

  /** The scores as they were, but for some names that have a new one. */
  ghost predicate Filled(start: map<Name, Score>, out: map<Name, Score>, done: set<Name>, value: Name -> Score) {
    && (forall n :: n in out <==> n in start || n in done)
    && (forall n :: n in out ==> out[n] == if n in done then value(n) else start[n])
  }

  lemma FilledNone(start: map<Name, Score>, value: Name -> Score)
    ensures Filled(start, start, {}, value)
  {
  }

  lemma FillOne(start: map<Name, Score>, out: map<Name, Score>, done: set<Name>, value: Name -> Score, n: Name)
    requires Filled(start, out, done, value) && n !in done
    ensures Filled(start, out[n := value(n)], done + {n}, value)
    ensures Get(out, n) == Get(start, n)
  {
  }

  ghost function WithUptime(start: map<Name, Score>, rows: map<Slot, Uptime>): Name -> Score {
    n => Get(start, n).(uptime := UptimeOf(rows, n))
  }

  ghost function WithAttack(start: map<Name, Score>, subs: seq<Submission>): Name -> Score {
    n => Captures(Get(start, n), subs, n)
  }

  ghost function WithLosses(start: map<Name, Score>, subs: seq<Submission>): Name -> Score {
    n => Get(start, n).(stolenFrom := |StolenFrom(subs, n)|)
  }

  function Captures(acc: Score, subs: seq<Submission>, p: Name): Score {
    acc.(attack := AttackOf(subs, p), captured := |CapturedBy(subs, p)|, pending := PendingOf(subs, p))
  }

  lemma PlayersNamed(db: Ledger, p: Name)
    requires p in db.players
    ensures p in Names(db)
  {
  }

  /** A name no query mentions scores nothing there. */
  lemma Absent(db: Ledger, n: Name)
    ensures n !in Boards.Scored(db.uptime) ==> UptimeOf(db.uptime, n) == 0
    ensures n !in Thieves(db.submissions) ==> Captures(NIL, db.submissions, n) == NIL
    ensures n !in Victims(db.submissions) ==> |StolenFrom(db.submissions, n)| == 0
  {
    if n !in Boards.Scored(db.uptime) {
      UptimeNone(db.uptime, n);
    }
    if n !in Thieves(db.submissions) {
      NothingEarned(db.submissions, n);
    }
    if n !in Victims(db.submissions) {
      assert StolenFrom(db.submissions, n) == {};
    }
  }

  lemma SameTotals(db: Ledger, out: map<Name, Score>)
    requires out.Keys == Names(db) && forall n :: n in out ==> out[n] == ScoreOf(db, n)
    ensures out == TotalsOf(db)
  {
  }

  lemma NoRows(rows: map<Slot, Uptime>, p: Name)
    requires rows.Keys == {}
    ensures UptimeOf(rows, p) == 0
  {
  }
}
