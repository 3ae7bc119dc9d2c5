// Deployments (`deploy`, orchestrator/deploy.py; `record_deploy` and `last_deploy_time`,
// orchestrator/state.py): the rate limit, and the grace a deployment earns.
module Deployments {
  import opened Bytes
  import opened Manifests
  import opened Ledgers
  import opened Rounds
  import opened Stores
  import opened TickLoop

  /** A row of the deploys table, which outlives rounds. */
  datatype Entry = Entry(ts: real, player: Name, ok: bool)

  /** What a checked-out revision holds: the two tables of its manifest file. */
  datatype Checkout = Checkout(rev: string, top: Table, service: Option<Table>)

  /** How an attempt to deploy ends. */
  datatype Attempt = TooSoon(wait: real) | Broken | Live(manifest: Manifest, rev: string)

  /** The latest successful deployment of a player, or the epoch. */
  ghost predicate IsLastOk(rows: seq<Entry>, p: Name, t: real) {
    if exists i :: 0 <= i < |rows| && rows[i].player == p && rows[i].ok then
      && (exists i :: 0 <= i < |rows| && rows[i].player == p && rows[i].ok && rows[i].ts == t)
      && (forall i :: 0 <= i < |rows| && rows[i].player == p && rows[i].ok ==> rows[i].ts <= t)
    else t == 0.0
  }

  /** A failed attempt, or one of another player, does not move a player's latest success; a success does. */
  lemma LastAfter(rows: seq<Entry>, row: Entry, p: Name, t: real)
    requires IsLastOk(rows, p, t)
    ensures row.ok && row.player == p && (forall i :: 0 <= i < |rows| && rows[i].ok ==> rows[i].ts <= row.ts) ==>
              IsLastOk(rows + [row], p, row.ts)
    ensures !row.ok || row.player != p ==> IsLastOk(rows + [row], p, t)
  {
    var rows' := rows + [row];
    assert rows'[|rows|] == row && forall i :: 0 <= i < |rows| ==> rows'[i] == rows[i];
    if exists i :: 0 <= i < |rows| && rows[i].player == p && rows[i].ok {
      var i :| 0 <= i < |rows| && rows[i].player == p && rows[i].ok && rows[i].ts == t;
      assert rows'[i].player == p && rows'[i].ok && rows'[i].ts == t;
    }
  }

  /** Each unforced success comes at least an interval after every earlier success of that player. */
  predicate Spaced(rows: seq<Entry>, forced: seq<bool>, interval: real) {
    && |forced| == |rows|
    && forall i, j :: 0 <= i < j < |rows| && rows[i].player == rows[j].player && rows[i].ok && rows[j].ok
                      && !forced[j] ==>
         rows[j].ts - rows[i].ts >= interval
  }

  lemma SpacedMore(rows: seq<Entry>, forced: seq<bool>, interval: real, row: Entry, force: bool, last: real)
    requires Spaced(rows, forced, interval) && IsLastOk(rows, row.player, last)
    requires row.ok && !force ==> row.ts - last >= interval
    ensures Spaced(rows + [row], forced + [force], interval)
  {
    var rows', forced' := rows + [row], forced + [force];
    forall i, j | 0 <= i < j < |rows'| && rows'[i].player == rows'[j].player && rows'[i].ok && rows'[j].ok
                  && !forced'[j]
      ensures rows'[j].ts - rows'[i].ts >= interval
    {
      assert rows'[i] == rows[i];
    }
  }

  class DeployLog {
    var rows: seq<Entry>
    const interval: real

    /** Which of the rows were forced past the limit. */
    ghost var forced: seq<bool>

    ghost predicate Valid()
      reads this
    {
      Spaced(rows, forced, interval)
    }

    constructor (redeployInterval: real)
      ensures Valid() && rows == [] && interval == redeployInterval
    {
      rows, forced, interval := [], [], redeployInterval;
    }

    method LastDeployTime(player: Name) returns (t: real)
      ensures IsLastOk(rows, player, t)
    {
      t := 0.0;
      var found := false;
      for i := 0 to |rows|
        invariant !found ==> t == 0.0 && forall j :: 0 <= j < i ==> !(rows[j].player == player && rows[j].ok)
        invariant found ==> exists j :: 0 <= j < i && rows[j].player == player && rows[j].ok && rows[j].ts == t
        invariant found ==> forall j :: 0 <= j < i && rows[j].player == player && rows[j].ok ==> rows[j].ts <= t
      {
        if rows[i].player == player && rows[i].ok && (!found || rows[i].ts > t) {
          t, found := rows[i].ts, true;
        }
      }
    }

    /**
     * `deploy`: refused exactly when it is not forced and too soon, and then nothing changes;
     * otherwise it is carried through and logged.
     */
    method Deploy(
        db: Store, cfg: Config, player: Name, checkout: Option<Checkout>, built: bool, healthy: bool,
        force: bool, started: real, ended: real, ghost w: World)
      returns (outcome: Attempt, ghost end: World, ghost steps: seq<Step>)
      requires Valid() && w.db == db.State() && player in w.db.players && started <= ended
      modifies this`rows, this`forced, db
      ensures Valid()
      ensures forall last :: IsLastOk(old(rows), player, last) ==>
                (outcome.TooSoon? <==> !force && started - last < interval)
      ensures outcome.TooSoon? ==> rows == old(rows) && forced == old(forced) && end == w
      ensures !outcome.TooSoon? ==>
                && rows == old(rows) + [Entry(ended, player, outcome.Live?)] && forced == old(forced) + [force]
                && outcome == Result(player, checkout, built, healthy) && Released(cfg, w, player, outcome, end)
      ensures end.db == db.State() && Reaches(cfg, w, steps, end)
    {
      hide Reaches, IsLastOk, Spaced, Released, Result, Enabled, Next;
      var last := LastDeployTime(player);
      OneLast(rows, player, last);
      if !force && started - last < interval {
        EmptyRun(cfg, w);
        return TooSoon(interval - (started - last)), w, [];
      }
      outcome, end, steps := Release(db, cfg, player, checkout, built, healthy, w);
      SpacedMore(rows, forced, interval, Entry(ended, player, outcome.Live?), force, last);
      rows, forced := rows + [Entry(ended, player, outcome.Live?)], forced + [force];
    }
  }

  /** A release needs a valid manifest in the player's own name, a build and a healthy machine. */
  function Result(player: Name, checkout: Option<Checkout>, built: bool, healthy: bool): Attempt {
    if checkout.None? then Broken
    else
      match Validate(checkout.value.top, checkout.value.service)
      case None => Broken
      case Some(m) => if m.name == player && built && healthy then Live(m, checkout.value.rev) else Broken
  }

  /**
   * Exactly this goes live: a checkout whose manifest is valid and in the player's own name, built, and
   * found healthy; then it is that manifest at the revision checked out.
   */
  lemma LiveExactly(player: Name, checkout: Option<Checkout>, built: bool, healthy: bool, m: Manifest, rev: string)
    ensures Result(player, checkout, built, healthy) == Live(m, rev)
            <==> && checkout.Some? && built && healthy
                 && Validate(checkout.value.top, checkout.value.service) == Some(m) && m.name == player
                 && rev == checkout.value.rev
    ensures Result(player, checkout, built, healthy).Live? || Result(player, checkout, built, healthy).Broken?
  {
    hide Validate;
  }

  /** The players table and the deployments of the round after an attempt that was let through. */
  ghost predicate Released(cfg: Config, w: World, player: Name, outcome: Attempt, end: World)
    requires player in w.db.players && !outcome.TooSoon?
  {
    && end.db == w.db.(players := w.db.players[player :=
                         if outcome.Live?
                         then Player(Some(outcome.manifest), outcome.rev, Running, w.db.tick + cfg.graceTicks)
                         else w.db.players[player].(status := Failed)])
    && end.phase == w.phase
    && end.past == w.past.(deploys := w.past.deploys + (if outcome.Live? then {(player, w.db.tick)} else {}))
  }

  /** Only the player's status has changed so far. */
  ghost predicate Underway(cfg: Config, w: World, steps: seq<Step>, end: World, player: Name)
    requires player in w.db.players
  {
    && Reaches(cfg, w, steps, end) && end.phase == w.phase && end.past == w.past
    && player in end.db.players
    && end.db == w.db.(players := w.db.players[player :=
                         w.db.players[player].(status := end.db.players[player].status)])
  }

  lemma MovesOn(cfg: Config, w: World, steps: seq<Step>, end: World, player: Name, status: Status)
    requires player in w.db.players && Underway(cfg, w, steps, end, player) && !status.Disabled?
    ensures Enabled(cfg, end, StatusSet(player, status))
    ensures var end' := Next(cfg, end, StatusSet(player, status));
            && end'.db == SetStatus(end.db, player, status) && end'.db.players[player].status == status
            && Underway(cfg, w, steps + [StatusSet(player, status)], end', player)
  {
    hide Reaches;
    ReachesOne(cfg, w, steps, end, StatusSet(player, status));
  }

  lemma GoesLive(
      cfg: Config, w: World, steps: seq<Step>, end: World, player: Name, m: Manifest, rev: string, db': Ledger)
    requires player in w.db.players && Underway(cfg, w, steps, end, player) && Probeable(m)
    requires db' == end.db.(players := end.db.players[player :=
                              Player(Some(m), rev, Running, end.db.tick + cfg.graceTicks)])
    ensures Enabled(cfg, end, Deployed(player, m, rev))
    ensures var end' := Next(cfg, end, Deployed(player, m, rev));
            && end'.db == db' && Released(cfg, w, player, Live(m, rev), end')
            && Reaches(cfg, w, steps + [Deployed(player, m, rev)], end')
  {
    hide Reaches, Probeable;
    ReachesOne(cfg, w, steps, end, Deployed(player, m, rev));
  }

  /** The body of `deploy` past its limit, with what git, the build and the machine did as inputs. */
  method Release(
      db: Store, cfg: Config, player: Name, checkout: Option<Checkout>, built: bool, healthy: bool,
      ghost w: World)
    returns (outcome: Attempt, ghost end: World, ghost steps: seq<Step>)
    requires w.db == db.State() && player in w.db.players
    modifies db
    ensures outcome == Result(player, checkout, built, healthy) && !outcome.TooSoon?
    ensures end.db == db.State() && Reaches(cfg, w, steps, end) && Released(cfg, w, player, outcome, end)
  {
    hide Validate, Probeable, Enabled, Next, Reaches;
    end, steps, outcome := w, [], Broken;
    EmptyRun(cfg, w);
    assert Underway(cfg, w, steps, end, player);
    db.ChangeStatus(player, Building);
    MovesOn(cfg, w, steps, end, player, Building);
    end, steps := Next(cfg, end, StatusSet(player, Building)), steps + [StatusSet(player, Building)];
    hide Underway, Released;
    if checkout.Some? {
      var manifest := Validate(checkout.value.top, checkout.value.service);
      if manifest.Some? && manifest.value.name == player && built {
        db.ChangeStatus(player, Deploying);
        MovesOn(cfg, w, steps, end, player, Deploying);
        end, steps := Next(cfg, end, StatusSet(player, Deploying)), steps + [StatusSet(player, Deploying)];
        if healthy {
          outcome := Live(manifest.value, checkout.value.rev);
          db.RecordRelease(player, manifest.value, checkout.value.rev, db.tick + cfg.graceTicks);
          ValidatedIsProbeable(checkout.value.top, checkout.value.service);
          GoesLive(cfg, w, steps, end, player, manifest.value, checkout.value.rev, db.State());
          ghost var live := Deployed(player, manifest.value, checkout.value.rev);
          end, steps := Next(cfg, end, live), steps + [live];
          return;
        }
      }
    }
    db.ChangeStatus(player, Failed);
    MovesOn(cfg, w, steps, end, player, Failed);
    end, steps := Next(cfg, end, StatusSet(player, Failed)), steps + [StatusSet(player, Failed)];
    FailsSo(cfg, w, steps, end, player);
  }

  lemma FailsSo(cfg: Config, w: World, steps: seq<Step>, end: World, player: Name)
    requires player in w.db.players && Underway(cfg, w, steps, end, player) && end.db.players[player].status.Failed?
    ensures Released(cfg, w, player, Broken, end) && Reaches(cfg, w, steps, end)
  {
    hide Reaches;
  }

  lemma OneLast(rows: seq<Entry>, p: Name, t: real)
    requires IsLastOk(rows, p, t)
    ensures forall u :: IsLastOk(rows, p, u) ==> u == t
  {
    forall u | IsLastOk(rows, p, u)
      ensures u == t
    {
      if exists i :: 0 <= i < |rows| && rows[i].player == p && rows[i].ok {
        var i :| 0 <= i < |rows| && rows[i].player == p && rows[i].ok && rows[i].ts == t;
        var j :| 0 <= j < |rows| && rows[j].player == p && rows[j].ok && rows[j].ts == u;
        assert rows[i].ts <= u && rows[j].ts <= t;
      }
    }
  }

  /** Some rows of the log, in order: unforced successes of one player. */
  predicate Unforced(rows: seq<Entry>, forced: seq<bool>, p: Name, picks: seq<nat>) {
    && |forced| == |rows|
    && (forall k :: 0 <= k < |picks| ==>
          picks[k] < |rows| && rows[picks[k]].player == p && rows[picks[k]].ok && !forced[picks[k]])
    && forall k :: 0 <= k < |picks| - 1 ==> picks[k] < picks[k + 1]
  }

  /**
   * Whatever rounds, failures and forced deployments come between, n unforced successes of one
   * player take at least n - 1 intervals.
   */
  lemma {:induction false} UnforcedTakeTime(
      rows: seq<Entry>, forced: seq<bool>, interval: real, p: Name, picks: seq<nat>)
    requires Spaced(rows, forced, interval) && Unforced(rows, forced, p, picks) && picks != []
    ensures rows[picks[|picks| - 1]].ts - rows[picks[0]].ts >= (|picks| - 1) as real * interval
    decreases |picks|
  {
    var n := |picks| - 1;
    if n > 0 {
      assert picks[..n][n - 1] == picks[n - 1] && picks[..n][0] == picks[0];
      UnforcedTakeTime(rows, forced, interval, p, picks[..n]);
      assert rows[picks[n]].ts - rows[picks[n - 1]].ts >= interval;
      assert n as real * interval == (n - 1) as real * interval + interval;
    }
  }
}
