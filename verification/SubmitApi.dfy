// The submission API (class `Referee`, orchestrator/submit.py) over the store.
module SubmitApi {
  import opened Bytes
  import opened Manifests
  import opened Ledgers
  import opened Rounds
  import opened Limiter
  import opened Stores
  import opened TickLoop

  datatype Reply = BadToken | RateLimited | MalformedFlag | UnknownClass | Answer(outcome: Outcome)

  predicate Alphanumeric(c: char) {
    'A' <= c <= 'Z' || 'a' <= c <= 'z' || '0' <= c <= '9'
  }

  /** What the flag pattern matches; its end anchor also admits one trailing newline. */
  predicate FlagShaped(s: string) {
    && (|s| == 37 || (|s| == 38 && s[37] == '\n'))
    && s[..5] == "FLAG_" && forall i :: 5 <= i < 37 ==> Alphanumeric(s[i])
  }

  /** Octets 48 to 57, 65 to 90 and 97 to 122. */
  predicate LettersAndDigits(s: string) {
    forall i :: 0 <= i < |s| ==>
      var n := s[i] as int; 48 <= n <= 57 || 65 <= n <= 90 || 97 <= n <= 122
  }

  /** A flag is FLAG_ and 32 letters and digits; a line feed behind them does no harm. */
  lemma ShapedExactly(s: string)
    ensures FlagShaped(s)
            <==> exists t :: |t| == 32 && LettersAndDigits(t) && (s == "FLAG_" + t || s == "FLAG_" + t + "\n")
  {
    if FlagShaped(s) {
      var t := s[5..37];
      assert forall i :: 0 <= i < 32 ==> t[i] == s[i + 5];
      assert s == "FLAG_" + t || s == "FLAG_" + t + "\n";
    }
    forall t | |t| == 32 && LettersAndDigits(t) && (s == "FLAG_" + t || s == "FLAG_" + t + "\n")
      ensures FlagShaped(s)
    {
      forall i | 5 <= i < 37
        ensures Alphanumeric(s[i])
      {
        assert s[i] == t[i - 5];
      }
    }
  }

  /** A missing or empty class is no claim. */
  lemma ClaimExactly(claimed: Option<string>, k: Klass)
    ensures ClaimOf(claimed) == Some(k)
            <==> && claimed.Some?
                 && ((claimed.value == "app" && k == App) || (claimed.value == "transport" && k == Transport)
                     || (claimed.value == "rce" && k == Rce))
  {
  }

  /** The three classes by their names; every other name is unknown. */
  lemma ClassesExactly(s: string, k: Klass)
    ensures ClassNamed(s) == Some(k)
            <==> (s == "app" && k == App) || (s == "transport" && k == Transport) || (s == "rce" && k == Rce)
  {
  }

  function ClassNamed(s: string): Option<Klass> {
    if s == "app" then Some(App)
    else if s == "transport" then Some(Transport)
    else if s == "rce" then Some(Rce)
    else None
  }

  /** An empty class is no claim. */
  function ClaimOf(claimed: Option<string>): Option<Klass> {
    if claimed.None? then None else ClassNamed(claimed.value)
  }

  method AcceptedBefore(db: Store, who: Name, flag: Token) returns (found: bool)
    ensures found <==> Already(db.State(), who, flag)
  {
    for i := 0 to |db.submissions|
      invariant forall j :: 0 <= j < i ==>
                  !(db.submissions[j].who == who && db.submissions[j].flag == flag
                    && db.submissions[j].verdict.Accepted?)
    {
      var row := db.submissions[i];
      if row.who == who && row.flag == flag && row.verdict.Accepted? {
        return true;
      }
    }
    return false;
  }

  method Declares(db: Store, owner: Name, rung: Rung) returns (declared: bool)
    ensures declared <==> DeclaresRung(db.State(), owner, rung)
  {
    if owner !in db.players || db.players[owner].manifest.None? {
      return false;
    }
    var rungs := Protocols(db.players[owner].manifest.value);
    return rung in rungs;
  }

  method Refused(
      db: Store, who: Name, flag: Token, slot: Option<Slot>, v: Verdict, claimed: Option<Klass>, writeup: string)
    returns (outcome: Outcome)
    modifies db
    ensures (outcome, db.State()) == Refuse(old(db.State()), who, flag, slot, v, claimed, Truncated(writeup))
  {
    db.Record(Submission(who, flag,
                         if slot.Some? then Some(slot.value.player) else None,
                         if slot.Some? then Some(slot.value.rung) else None,
                         v, None, claimed, 0, false, if |writeup| > 4000 then writeup[..4000] else writeup));
    outcome := Recorded(v);
  }

  /** The rest of `Referee.submit`, once the request itself is in order. */
  method Judge(db: Store, cfg: Config, who: Name, flag: Token, claimed: Option<Klass>, writeup: string)
    returns (outcome: Outcome)
    modifies db
    ensures (outcome, db.State()) == Submit(cfg, old(db.State()), who, flag, claimed, writeup)
  {
    hide Already, DeclaresRung, Blank;
    var live := db.FindLiveFlag(flag, db.tick);
    if live.None? {
      outcome := Refused(db, who, flag, None, InvalidOrExpired, claimed, writeup);
      return;
    }
    var slot := live.value.slot;
    if slot.player == who {
      outcome := Refused(db, who, flag, Some(slot), OwnFlag, claimed, writeup);
      return;
    }
    var declared := Declares(db, slot.player, slot.rung);
    if !declared {
      outcome := Refused(db, who, flag, Some(slot), Undeclared, claimed, writeup);
      return;
    }
    var before := AcceptedBefore(db, who, flag);
    if before {
      outcome := Refused(db, who, flag, Some(slot), Duplicate, claimed, writeup);
      return;
    }
    outcome := Accept(db, cfg, who, flag, slot, claimed, writeup);
  }

  /** A steal that counts: paid at the floor, with any higher claim left pending. */
  method Accept(db: Store, cfg: Config, who: Name, flag: Token, slot: Slot, claimed: Option<Klass>, writeup: string)
    returns (outcome: Outcome)
    modifies db
    ensures var auto := AutoClass(slot.rung);
            (outcome, db.State())
            == if ClaimsMore(claimed, auto) && Blank(writeup) then (WriteupRequired, old(db.State()))
               else (Recorded(Accepted),
                     AddSubmission(MarkStolen(old(db.State()), flag, who, old(db.State()).tick),
                       Submission(who, flag, Some(slot.player), Some(slot.rung), Accepted, Some(auto), claimed,
                                  cfg.Price(auto), ClaimsMore(claimed, auto), Truncated(writeup))))
  {
    var auto := if slot.rung.Udp? then Transport else App;
    var pending := false;
    if claimed.Some? && Rank(claimed.value) > Rank(auto) {
      if Blank(writeup) {
        return WriteupRequired;
      }
      pending := true;
    }
    db.NoteTheft(flag, who, db.tick);
    db.Record(Submission(who, flag, Some(slot.player), Some(slot.rung), Accepted, Some(auto), claimed,
                         cfg.Price(auto), pending, if |writeup| > 4000 then writeup[..4000] else writeup));
    outcome := Recorded(Accepted);
  }

  class Referee {
    const tokens: map<Name, string>
    var hits: map<Name, Window>

    ghost predicate Valid()
      reads this, hits.Values
    {
      && (forall n :: n in hits ==> hits[n].Valid())
      && (forall m, n :: m in hits && n in hits && m != n ==> hits[m] != hits[n])
    }

    /** When a player was let through. */
    ghost function Admissions(n: Name): seq<real>
      reads this, hits.Values
    {
      if n in hits then hits[n].history else []
    }

    /** The clock has not run backwards. */
    ghost predicate NotBefore(now: real)
      reads this, hits.Values
    {
      forall n :: n in hits && hits[n].history != [] ==> hits[n].clock <= now
    }

    constructor (submitTokens: map<Name, string>)
      ensures Valid() && tokens == submitTokens && hits == map[]
    {
      tokens, hits := submitTokens, map[];
    }

    /** The player's window, made empty on first use. */
    method WindowOf(who: Name) returns (q: Window)
      requires Valid()
      modifies this`hits
      ensures Valid() && who in hits && hits[who] == q
      ensures hits == old(hits)[who := q] && (who in old(hits) ==> q == old(hits)[who])
      ensures who !in old(hits) ==> fresh(q) && q.history == []
    {
      hide Window.Valid;
      if who !in hits {
        q := new Window();
        hits := hits[who := q];
      }
      q := hits[who];
    }

    method Limited(who: Name, now: real) returns (limited: bool)
      requires Valid() && NotBefore(now)
      modifies this, hits.Values
      ensures Valid() && NotBefore(now)
      ensures limited <==> |Recent(old(Admissions(who)), now)| >= RATE_MAX
      ensures forall n :: Admissions(n)
                          == if n == who && !limited then old(Admissions(n)) + [now] else old(Admissions(n))
      ensures fresh(hits.Values - old(hits.Values))
    {
      hide Window.Valid, Recent;
      var q := WindowOf(who);
      limited := q.RateLimited(now);
    }

    /**
     * `Referee.submit`: the token is checked first and costs nothing, then the rate, then the form
     * of the request; only a request that passes all of them reaches the ledger, as one step of the
     * state machine.
     */
    method Submit(
        db: Store, cfg: Config, who: Name, token: string, flag: string, claimed: Option<string>, writeup: string,
        now: real, ghost w: World)
      returns (reply: Reply, ghost end: World)
      requires Valid() && NotBefore(now) && w.db == db.State() && cfg.submitters == tokens.Keys
      modifies this, hits.Values, db
      ensures Valid() && NotBefore(now) && fresh(hits.Values - old(hits.Values))
      ensures reply.BadToken? <==> !(who in tokens && tokens[who] == token)
      ensures reply.RateLimited? <==> !reply.BadToken? && |Recent(old(Admissions(who)), now)| >= RATE_MAX
      ensures forall n ::
                Admissions(n) == if n == who && !reply.BadToken? && !reply.RateLimited?
                                 then old(Admissions(n)) + [now] else old(Admissions(n))
      ensures reply.MalformedFlag? <==> !reply.BadToken? && !reply.RateLimited? && !FlagShaped(flag)
      ensures reply.Answer? || reply.UnknownClass? ==> FlagShaped(flag)
      ensures reply.UnknownClass? ==> claimed.Some? && claimed.value !in {"", "app", "transport", "rce"}
      ensures reply.Answer? ==> claimed.None? || claimed.value in {"", "app", "transport", "rce"}
      ensures end.db == db.State()
      ensures !reply.Answer? ==> end == w
      ensures reply.Answer? ==>
                && reply.outcome == Ledgers.Submit(cfg, w.db, who, flag, ClaimOf(claimed), writeup).0
                && end == AfterSubmit(cfg, w, who, flag, ClaimOf(claimed), writeup)
                && (|writeup| <= 4000 ==> Reaches(cfg, w, [Submitted(who, flag, ClaimOf(claimed), writeup)], end))
    {
      hide Reaches, Ledgers.Submit, Window.Valid;
      end := w;
      if who !in tokens || tokens[who] != token {
        return BadToken, w;
      }
      var limited := Limited(who, now);
      if limited {
        return RateLimited, w;
      }
      if !FlagShaped(flag) {
        return MalformedFlag, w;
      }
      if claimed.Some? && claimed.value != "" && ClassNamed(claimed.value).None? {
        return UnknownClass, w;
      }
      var klass := ClaimOf(claimed);
      var outcome := Judge(db, cfg, who, flag, klass, writeup);
      end := AfterSubmit(cfg, w, who, flag, klass, writeup);
      if |writeup| <= 4000 {
        SubmittedRun(cfg, w, who, flag, klass, writeup);
      }
      reply := Answer(outcome);
    }
  }

  lemma SubmittedRun(cfg: Config, w: World, who: Name, flag: Token, claimed: Option<Klass>, writeup: string)
    requires who in cfg.submitters && |writeup| <= 4000
    ensures Reaches(cfg, w, [Submitted(who, flag, claimed, writeup)], AfterSubmit(cfg, w, who, flag, claimed, writeup))
  {
    hide AfterSubmit;
    var step := Submitted(who, flag, claimed, writeup);
    assert [step][1..] == [];
    EmptyRun(cfg, Next(cfg, w, step));
  }
}
