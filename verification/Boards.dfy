// The scoreboard (`Store.totals` and `Store.render_board`, orchestrator/state.py) as a function of
// the tables, and what it does not depend on.
module Boards {
  import opened Bytes
  import opened Manifests
  import opened Ledgers
  import opened Rounds
  import opened FlagWindow
  import opened UptimeRows
  import opened Scores
  import opened Counting

  datatype Light = Up | Down | Grace

  /** What the board shows of a player. */
  datatype Panel = Panel(
    score: Score, total: int, transports: set<string>, versions: seq<Rung>, up: map<Rung, Light>,
    status: Status, rev: string, grace: bool)

  datatype Board = Board(tick: int, gridTick: int, updated: string, frozen: bool, players: map<Name, Panel>)

  function Scored(rows: map<Slot, Uptime>): set<Name> {
    set s | s in rows :: s.player
  }

  function Thieves(subs: seq<Submission>): set<Name> {
    set i | 0 <= i < |subs| && subs[i].verdict.Accepted? :: subs[i].who
  }

  /** Players' names are not empty (orchestrator/config.py:172), so only missing owners are passed over. */
  function Victims(subs: seq<Submission>): set<Name> {
    set i | 0 <= i < |subs| && subs[i].verdict.Accepted? && subs[i].owner.Some? :: subs[i].owner.value
  }

  /** Everyone with a score: the players table, and whoever the ledgers name. */
  function Names(db: Ledger): set<Name> {
    db.players.Keys + Scored(db.uptime) + Thieves(db.submissions)
    + Victims(db.submissions)
  }

  ghost function TotalsOf(db: Ledger): map<Name, Score> {
    map n | n in Names(db) :: ScoreOf(db, n)
  }

  /** Exactly these have a score: players, whoever has a row, took a flag or lost one; all others have none. */
  lemma TotalsName(db: Ledger, n: Name)
    ensures n in TotalsOf(db) <==>
              || n in db.players || (exists s :: s in db.uptime && s.player == n)
              || (exists i :: 0 <= i < |db.submissions| && db.submissions[i].verdict == Accepted
                              && (db.submissions[i].who == n || db.submissions[i].owner == Some(n)))
    ensures n in TotalsOf(db) ==> TotalsOf(db)[n] == ScoreOf(db, n)
    ensures n !in TotalsOf(db) ==> ScoreOf(db, n) == NIL
  {
    hide ScoreOf;
    var subs := db.submissions;
    if exists i :: 0 <= i < |subs| && subs[i].verdict == Accepted && (subs[i].who == n || subs[i].owner == Some(n)) {
      var i :| 0 <= i < |subs| && subs[i].verdict == Accepted && (subs[i].who == n || subs[i].owner == Some(n));
      assert subs[i].who == n ==> n in Thieves(subs);
      assert subs[i].owner == Some(n) ==> n in Victims(subs);
    }
    if n !in Names(db) {
      Unscored(db, n);
    }
  }

  lemma Unscored(db: Ledger, n: Name)
    requires n !in Scored(db.uptime) && n !in Thieves(db.submissions) && n !in Victims(db.submissions)
    ensures ScoreOf(db, n) == NIL
  {
    hide UptimeOf, AttackOf, PendingOf;
    var subs := db.submissions;
    forall s | s in db.uptime
      ensures s.player != n
    {
      assert s.player in Scored(db.uptime);
    }
    UptimeNone(db.uptime, n);
    forall i | 0 <= i < |subs|
      ensures !Took(subs[i], n) && !Lost(subs[i], n)
    {
      assert subs[i].verdict.Accepted? ==> subs[i].who in Thieves(subs);
      assert subs[i].verdict.Accepted? && subs[i].owner.Some? ==> subs[i].owner.value in Victims(subs);
    }
    NothingEarned(subs, n);
    assert StolenFrom(subs, n) == {};
  }

  /** The grid is that of the latest tick, up to the given one, that has rows at all. */
  ghost predicate IsGridTick(db: Ledger, tick: int, grid: int) {
    if exists s :: s in db.uptime && s.tick <= tick then
      && (exists s :: s in db.uptime && s.tick == grid <= tick)
      && (forall s :: s in db.uptime && s.tick <= tick ==> s.tick <= grid)
    else grid == tick
  }

  function LightOf(row: Uptime): Light {
    if row.grace then Grace else if row.ok then Up else Down
  }

  function Lights(db: Ledger, p: Name, grid: int): map<Rung, Light> {
    map s | s in db.uptime && s.player == p && s.tick == grid :: s.rung := LightOf(db.uptime[s])
  }

  ghost function PanelOf(db: Ledger, p: Name, tick: int, grid: int): Panel
    requires p in db.players
  {
    var row := db.players[p];
    Panel(ScoreOf(db, p), ScoreOf(db, p).Total(),
          if row.manifest.Some? then row.manifest.value.transports else {},
          if row.manifest.Some? then row.manifest.value.versions else [],
          Lights(db, p, grid), row.status, if |row.rev| > 12 then row.rev[..12] else row.rev, tick <= row.graceUntil)
  }

  ghost function BoardOf(db: Ledger, tick: int, grid: int, clock: string): Board {
    Board(tick, grid, clock, db.frozen, map p | p in db.players && Active(db, p) :: PanelOf(db, p, tick, grid))
  }

  /**
   * What a viewer sees: a panel for each player that is not disabled, and for each rung with a row in the
   * grid's tick whether it was graced, up or down; points of both ledgers, and grace while it lasts.
   */
  lemma BoardShows(db: Ledger, tick: int, grid: int, clock: string, p: Name, r: Rung)
    ensures var board := BoardOf(db, tick, grid, clock);
            var slot := Slot(grid, p, r);
            && board.tick == tick && board.gridTick == grid && board.updated == clock && board.frozen == db.frozen
            && (p in board.players <==> p in db.players && db.players[p].status != Disabled)
            && (p in board.players ==>
                  var panel, row := board.players[p], db.players[p];
                  && (r in panel.up <==> slot in db.uptime)
                  && (r in panel.up ==>
                        && (panel.up[r] == Grace <==> db.uptime[slot].grace)
                        && (panel.up[r] == Up <==> db.uptime[slot].ok && !db.uptime[slot].grace)
                        && (panel.up[r] == Down <==> !db.uptime[slot].ok && !db.uptime[slot].grace))
                  && panel.total == panel.score.attack + panel.score.uptime
                  && panel.status == row.status && (panel.grace <==> tick <= row.graceUntil)
                  && (match row.manifest
                      case None => panel.transports == {} && panel.versions == []
                      case Some(m) => panel.transports == m.transports && panel.versions == m.versions)
                  && panel.rev <= row.rev && |panel.rev| == if |row.rev| < 12 then |row.rev| else 12)
  {
    hide ScoreOf;
    if p in db.players {
      LightsAt(db, p, grid, r);
    }
  }

  lemma LightsAt(db: Ledger, p: Name, grid: int, r: Rung)
    ensures r in Lights(db, p, grid) <==> Slot(grid, p, r) in db.uptime
    ensures r in Lights(db, p, grid) ==> Lights(db, p, grid)[r] == LightOf(db.uptime[Slot(grid, p, r)])
  {
    var lights := Lights(db, p, grid);
    if Slot(grid, p, r) in db.uptime {
      assert Slot(grid, p, r).rung in lights;
    }
  }

  // ----- the grid ------------------------------------------------------------------------

  lemma OneGridTick(db: Ledger, tick: int, a: int, b: int)
    requires IsGridTick(db, tick, a) && IsGridTick(db, tick, b)
    ensures a == b
  {
    if exists s :: s in db.uptime && s.tick <= tick {
      var s :| s in db.uptime && s.tick == a <= tick;
      var t :| t in db.uptime && t.tick == b <= tick;
    }
  }

  /**
   * In every state an undisturbed run reaches, the grid rendered at the current tick shows the latest results there
   * are: it is blank only if no row was ever written in this round.
   */
  lemma GridShowsLatest(cfg: Config, w: World, grid: int)
    requires RowInv(cfg, w) && IsGridTick(w.db, w.db.tick, grid) && exists s :: s in w.db.uptime
    ensures exists s :: s in w.db.uptime && s.tick == grid && s.rung in Lights(w.db, s.player, grid)
    ensures forall s :: s in w.db.uptime ==> s.tick <= grid
  {
    hide Tidy, GraceOk, WorkersOk;
    forall s | s in w.db.uptime
      ensures s.tick <= w.db.tick
    {
      assert RowOk(cfg, w, s, w.db.uptime[s]);
      NotDuePast(w, s);
    }
    var s :| s in w.db.uptime;
    assert s.tick <= w.db.tick;
    var t :| t in w.db.uptime && t.tick == grid <= w.db.tick;
    assert t.rung in Lights(w.db, t.player, grid);
  }

  // ----- tokens do not show ----------------------------------------------------------------

  predicate InjectiveOn(name: Token -> Token, tokens: set<Token>) {
    forall f, g :: f in tokens && g in tokens && name(f) == name(g) ==> f == g
  }

  function TokensOf(db: Ledger): set<Token> {
    db.flags.Keys + (set i | 0 <= i < |db.submissions| :: db.submissions[i].flag)
  }

  function RenamedRows(subs: seq<Submission>, name: Token -> Token): seq<Submission> {
    if subs == [] then []
    else RenamedRows(subs[..|subs| - 1], name) + [subs[|subs| - 1].(flag := name(subs[|subs| - 1].flag))]
  }

  /** The same ledger under other tokens. */
  ghost function Renamed(db: Ledger, name: Token -> Token): Ledger
    requires InjectiveOn(name, TokensOf(db))
  {
    assert forall f, g :: f in db.flags && g in db.flags && name(f) == name(g) ==> f == g by {
      assert forall f :: f in db.flags ==> f in TokensOf(db);
    }
    db.(flags := map f | f in db.flags :: name(f) := db.flags[f], submissions := RenamedRows(db.submissions, name))
  }

  lemma {:induction false} RenamedRow(subs: seq<Submission>, name: Token -> Token)
    ensures |RenamedRows(subs, name)| == |subs|
    ensures forall i :: 0 <= i < |subs| ==> RenamedRows(subs, name)[i] == subs[i].(flag := name(subs[i].flag))
  {
    if subs != [] {
      RenamedRow(subs[..|subs| - 1], name);
    }
  }

  lemma {:induction false} SumsRenamed(subs: seq<Submission>, name: Token -> Token, p: Name)
    ensures AttackOf(RenamedRows(subs, name), p) == AttackOf(subs, p)
    ensures PendingOf(RenamedRows(subs, name), p) == PendingOf(subs, p)
  {
    if subs != [] {
      var front, last := subs[..|subs| - 1], subs[|subs| - 1];
      SumsRenamed(front, name, p);
      SumsAppend(RenamedRows(front, name), last.(flag := name(last.flag)), p);
    }
  }

  lemma TakenRenamed(db: Ledger, name: Token -> Token, p: Name)
    requires InjectiveOn(name, TokensOf(db))
    ensures var subs' := RenamedRows(db.submissions, name);
            && |CapturedBy(subs', p)| == |CapturedBy(db.submissions, p)|
            && |StolenFrom(subs', p)| == |StolenFrom(db.submissions, p)|
  {
    var subs, subs' := db.submissions, RenamedRows(db.submissions, name);
    RenamedRow(subs, name);
    forall i | 0 <= i < |subs|
      ensures Took(subs'[i], p) <==> Took(subs[i], p)
      ensures Lost(subs'[i], p) <==> Lost(subs[i], p)
      ensures subs'[i].flag == name(subs[i].flag) && subs[i].flag in TokensOf(db)
    {
    }
    hide Took, Lost, TokensOf, RenamedRows;
    CapturedRenamed(subs, subs', name, p);
    StolenRenamed(subs, subs', name, p);
    ImageSize(CapturedBy(subs, p), name, CapturedBy(subs', p));
    ImageSize(StolenFrom(subs, p), name, StolenFrom(subs', p));
  }

  lemma CapturedRenamed(subs: seq<Submission>, subs': seq<Submission>, name: Token -> Token, p: Name)
    requires |subs'| == |subs|
    requires forall i :: 0 <= i < |subs| ==>
               (Took(subs'[i], p) <==> Took(subs[i], p)) && subs'[i].flag == name(subs[i].flag)
    ensures forall f :: f in CapturedBy(subs, p) ==> name(f) in CapturedBy(subs', p)
    ensures forall g :: g in CapturedBy(subs', p) ==> exists f :: f in CapturedBy(subs, p) && name(f) == g
  {
    hide Took;
    forall f | f in CapturedBy(subs, p)
      ensures name(f) in CapturedBy(subs', p)
    {
      var i :| 0 <= i < |subs| && Took(subs[i], p) && subs[i].flag == f;
      assert Took(subs'[i], p);
    }
    forall g | g in CapturedBy(subs', p)
      ensures exists f :: f in CapturedBy(subs, p) && name(f) == g
    {
      var i :| 0 <= i < |subs'| && Took(subs'[i], p) && subs'[i].flag == g;
      assert subs[i].flag in CapturedBy(subs, p);
    }
  }

  lemma StolenRenamed(subs: seq<Submission>, subs': seq<Submission>, name: Token -> Token, p: Name)
    requires |subs'| == |subs|
    requires forall i :: 0 <= i < |subs| ==>
               (Lost(subs'[i], p) <==> Lost(subs[i], p)) && subs'[i].flag == name(subs[i].flag)
    ensures forall f :: f in StolenFrom(subs, p) ==> name(f) in StolenFrom(subs', p)
    ensures forall g :: g in StolenFrom(subs', p) ==> exists f :: f in StolenFrom(subs, p) && name(f) == g
  {
    hide Lost;
    forall f | f in StolenFrom(subs, p)
      ensures name(f) in StolenFrom(subs', p)
    {
      var i :| 0 <= i < |subs| && Lost(subs[i], p) && subs[i].flag == f;
      assert Lost(subs'[i], p);
    }
    forall g | g in StolenFrom(subs', p)
      ensures exists f :: f in StolenFrom(subs, p) && name(f) == g
    {
      var i :| 0 <= i < |subs'| && Lost(subs'[i], p) && subs'[i].flag == g;
      assert subs[i].flag in StolenFrom(subs, p);
    }
  }

  lemma ScoreRenamed(db: Ledger, name: Token -> Token, p: Name)
    requires InjectiveOn(name, TokensOf(db))
    ensures ScoreOf(Renamed(db, name), p) == ScoreOf(db, p)
  {
    hide AttackOf, PendingOf, CapturedBy, StolenFrom, UptimeOf, TokensOf, InjectiveOn, RenamedRows;
    SumsRenamed(db.submissions, name, p);
    TakenRenamed(db, name, p);
  }

  /**
   * The board says nothing about tokens: under any renaming that keeps them apart, the board
   * rendered at the same tick and time is the same board.
   */
  lemma TokensDoNotShow(db: Ledger, name: Token -> Token, tick: int, grid: int, clock: string)
    requires InjectiveOn(name, TokensOf(db))
    ensures IsGridTick(Renamed(db, name), tick, grid) <==> IsGridTick(db, tick, grid)
    ensures BoardOf(Renamed(db, name), tick, grid, clock) == BoardOf(db, tick, grid, clock)
  {
    hide TokensOf, InjectiveOn, BoardOf, IsGridTick;
    SameGrid(db, Renamed(db, name), tick, grid);
    forall p
      ensures ScoreOf(Renamed(db, name), p) == ScoreOf(db, p)
    {
      ScoreRenamed(db, name, p);
    }
    SameBoard(db, Renamed(db, name), tick, grid, clock);
  }

  lemma SameGrid(db: Ledger, db': Ledger, tick: int, grid: int)
    requires db'.uptime == db.uptime
    ensures IsGridTick(db', tick, grid) <==> IsGridTick(db, tick, grid)
  {
  }

  lemma SameBoard(db: Ledger, db': Ledger, tick: int, grid: int, clock: string)
    requires db' == db.(flags := db'.flags, submissions := db'.submissions)
    requires forall p :: ScoreOf(db', p) == ScoreOf(db, p)
    ensures BoardOf(db', tick, grid, clock) == BoardOf(db, tick, grid, clock)
  {
    hide ScoreOf, Lights;
    forall p | p in db.players && Active(db, p)
      ensures PanelOf(db', p, tick, grid) == PanelOf(db, p, tick, grid)
    {
      SameLights(db, db', p, grid);
    }
    assert BoardOf(db', tick, grid, clock).players == BoardOf(db, tick, grid, clock).players;
  }

  lemma SameLights(db: Ledger, db': Ledger, p: Name, grid: int)
    requires db'.uptime == db.uptime
    ensures Lights(db', p, grid) == Lights(db, p, grid)
  {
  }
}
