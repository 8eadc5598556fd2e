/** The tournament store and the four request handlers that change it:
    tournament creation, player registration (`join_submit`), match
    generation (`generate_tournament`) and winner recording (`set_winner`).
    Each handler is one atomic step over the four record sets; the database's
    constraints appear as explicit checks and as the store's invariant. */
module Store {
  import opened Base
  import opened Text
  import opened Model
  import opened Registration
  import opened Schedule
  import opened Ledger

  /** A generation request that is not refused either writes the matches or
      finds them already written. */
  datatype GenerateStatus = Generated | AlreadyGenerated

  /** The meta row of `tid` has its `generated_at_utc` set. */
  predicate IsGenerated(meta: map<nat, Meta>, tid: nat) {
    tid in meta && meta[tid].generatedAt.Some?
  }

  /** The meta row of `tid`, or the row that the lazy insert would create. */
  function MetaOrDefault(meta: map<nat, Meta>, tid: nat): Meta {
    if tid in meta then meta[tid] else DefaultMeta
  }

  /** How many rounds `range(1, rounds + 1)` runs. */
  function RoundsToPlay(rounds: int): (n: nat)
    ensures n == 0 <==> rounds <= 0
    ensures rounds > 0 ==> n == rounds
  {
    if rounds < 0 then 0 else rounds
  }

  /** Ids are the auto-incremented keys 1, 2, ...; codes are non-empty and
      unique; each deadline is 24 hours after creation. */
  ghost predicate ValidTournaments(ts: seq<Tournament>) {
    && (forall i :: 0 <= i < |ts| ==> ts[i].id == i + 1)
    && (forall i :: 0 <= i < |ts| ==> ts[i].code != [] && ts[i].deadline == ts[i].createdAt + RegistrationPeriod)
    && (forall i, j :: 0 <= i < j < |ts| ==> ts[i].code != ts[j].code)
  }

  /** Every player belongs to a stored tournament, and no gamertag is
      registered twice for one tournament. */
  ghost predicate ValidPlayers(ts: seq<Tournament>, ps: seq<Player>) {
    && (forall i :: 0 <= i < |ps| ==> 1 <= ps[i].tournamentId <= |ts|)
    && UniqueRegistrations(ps)
  }

  /** Meta rows belong to stored tournaments. */
  ghost predicate ValidMeta(ts: seq<Tournament>, meta: map<nat, Meta>) {
    forall tid :: tid in meta ==> 1 <= tid <= |ts|
  }

  /** Match ids increase and stay below the next key; every match belongs to a
      stored tournament and is a 3v3 drawn from its roster. */
  ghost predicate ValidMatches(ts: seq<Tournament>, ps: seq<Player>, ms: seq<Match>, nextId: nat) {
    && IncreasingIds(ms)
    && (forall i :: 0 <= i < |ms| ==> ms[i].id < nextId && 1 <= ms[i].tournamentId <= |ts|)
    && (forall i :: 0 <= i < |ms| ==> TeamsDrawnFrom(ms[i], Roster(ps, ms[i].tournamentId)))
  }

  /** The four tables together: their keys and constraints, the 24-hour
      deadline, and every match
      a 3v3 drawn from its tournament's roster. */
  ghost predicate ValidTables(ts: seq<Tournament>, ps: seq<Player>, meta: map<nat, Meta>, ms: seq<Match>, nextId: nat) {
    ValidTournaments(ts) && ValidPlayers(ts, ps) && ValidMeta(ts, meta) && ValidMatches(ts, ps, ms, nextId)
  }

  /** Storing a tournament with the next id, a fresh non-empty code and the
      24-hour deadline keeps every table valid. */
  lemma CreateKeepsValid(ts: seq<Tournament>, ps: seq<Player>, meta: map<nat, Meta>, ms: seq<Match>, nextId: nat, t: Tournament)
    requires ValidTables(ts, ps, meta, ms, nextId)
    requires t.id == |ts| + 1 && t.code != [] && t.deadline == t.createdAt + RegistrationPeriod
    requires FindTournament(ts, t.code).None?
    ensures ValidTables(ts + [t], ps, meta, ms, nextId)
  {
    var ts' := ts + [t];
    assert forall i :: 0 <= i < |ts| ==> ts'[i] == ts[i];
  }

  /** A gamertag not yet on its tournament's roster keeps registrations
      unique. */
  lemma AppendKeepsUnique(ps: seq<Player>, p: Player)
    requires UniqueRegistrations(ps)
    requires p.gamertag !in Roster(ps, p.tournamentId)
    ensures UniqueRegistrations(ps + [p])
  {
    var ps' := ps + [p];
    forall i, j | 0 <= i < j < |ps'| ensures ps'[i].tournamentId != ps'[j].tournamentId || ps'[i].gamertag != ps'[j].gamertag {
      if j == |ps| && ps[i].tournamentId == p.tournamentId {
        assert ps[i].gamertag in Roster(ps, p.tournamentId);
      }
    }
  }

  /** A player of a stored tournament under a gamertag not yet on its roster
      keeps the players table valid. */
  lemma AppendKeepsPlayersValid(ts: seq<Tournament>, ps: seq<Player>, p: Player)
    requires ValidPlayers(ts, ps)
    requires 1 <= p.tournamentId <= |ts|
    requires p.gamertag !in Roster(ps, p.tournamentId)
    ensures ValidPlayers(ts, ps + [p])
  {
    AppendKeepsUnique(ps, p);
    var ps' := ps + [p];
    forall i | 0 <= i < |ps'|
      ensures 1 <= ps'[i].tournamentId <= |ts|
    {
      if i < |ps| {
        assert ps'[i] == ps[i];
      }
    }
  }

  /** Rosters only grow, so matches drawn from them stay drawn from them. */
  lemma AppendKeepsMatchesValid(ts: seq<Tournament>, ps: seq<Player>, ms: seq<Match>, nextId: nat, p: Player)
    requires ValidMatches(ts, ps, ms, nextId)
    ensures ValidMatches(ts, ps + [p], ms, nextId)
  {
    forall i | 0 <= i < |ms| ensures TeamsDrawnFrom(ms[i], Roster(ps + [p], ms[i].tournamentId)) {
      RosterAfterAppend(ps, p, ms[i].tournamentId);
    }
  }

  /** Appending a player of a stored tournament under a gamertag not yet on
      its roster keeps every table valid. */
  lemma JoinKeepsValid(ts: seq<Tournament>, ps: seq<Player>, meta: map<nat, Meta>, ms: seq<Match>, nextId: nat, p: Player)
    requires ValidTables(ts, ps, meta, ms, nextId)
    requires 1 <= p.tournamentId <= |ts|
    requires p.gamertag !in Roster(ps, p.tournamentId)
    ensures ValidTables(ts, ps + [p], meta, ms, nextId)
  {
    AppendKeepsPlayersValid(ts, ps, p);
    AppendKeepsMatchesValid(ts, ps, ms, nextId, p);
  }

  /** Replacing a stored tournament's matches by the plan for its roster,
      numbered from the next key, keeps the matches table valid: with six or
      more players and a shuffle that only reorders, every round is a 3v3
      drawn from the roster. */
  lemma PlanKeepsMatchesValid(ts: seq<Tournament>, ps: seq<Player>, ms: seq<Match>, nextId: nat,
                              tid: nat, gameTypes: seq<string>, shuffle: Shuffle, n: nat)
    requires UniqueRegistrations(ps) && ValidMatches(ts, ps, ms, nextId)
    requires 1 <= tid <= |ts| && |Roster(ps, tid)| >= 6 && gameTypes != []
    requires IsShuffle(shuffle)
    ensures ValidMatches(ts, ps, MatchesExcept(ms, tid) + Plan(tid, nextId, Roster(ps, tid), gameTypes, shuffle, n), nextId + n)
  {
    var roster := Roster(ps, tid);
    var plan := Plan(tid, nextId, roster, gameTypes, shuffle, n);
    PlanShape(tid, nextId, roster, gameTypes, shuffle, n);
    RosterDistinct(ps, tid);
    PlanTeams(tid, nextId, roster, gameTypes, shuffle, n);
    var kept := MatchesExcept(ms, tid);
    assert forall i :: 0 <= i < |kept| ==> kept[i] in ms;
    var all := kept + plan;
    forall i | 0 <= i < |all|
      ensures all[i].id < nextId + |plan| && 1 <= all[i].tournamentId <= |ts|
      ensures TeamsDrawnFrom(all[i], Roster(ps, all[i].tournamentId))
    {
      if i >= |kept| {
        assert all[i] == plan[i - |kept|];
      }
    }
  }

  /** Stamping the meta row of a stored tournament and replacing its matches
      by the plan for its roster keeps every table valid. */
  lemma GenerateKeepsValid(ts: seq<Tournament>, ps: seq<Player>, meta: map<nat, Meta>, ms: seq<Match>, nextId: nat,
                           tid: nat, row: Meta, gameTypes: seq<string>, shuffle: Shuffle, n: nat)
    requires ValidTables(ts, ps, meta, ms, nextId)
    requires 1 <= tid <= |ts| && |Roster(ps, tid)| >= 6 && gameTypes != []
    requires IsShuffle(shuffle)
    ensures ValidTables(ts, ps, meta[tid := row], MatchesExcept(ms, tid) + Plan(tid, nextId, Roster(ps, tid), gameTypes, shuffle, n), nextId + n)
  {
    PlanKeepsMatchesValid(ts, ps, ms, nextId, tid, gameTypes, shuffle, n);
  }

  /** Recording a winner keeps every table valid: ids, tournaments and teams
      are untouched. */
  lemma SetWinnerKeepsValid(ts: seq<Tournament>, ps: seq<Player>, meta: map<nat, Meta>, ms: seq<Match>, nextId: nat,
                            matchId: nat, tid: nat, side: Side)
    requires ValidTables(ts, ps, meta, ms, nextId)
    ensures ValidTables(ts, ps, meta, RecordWinner(ms, matchId, tid, side), nextId)
  {
    var updated := RecordWinner(ms, matchId, tid, side);
    assert forall i :: 0 <= i < |ms| ==> updated[i] == ms[i].(winner := updated[i].winner);
  }

  /** The insertion loop of `generate_tournament`: one match per round
      `1..rounds` appended to `ms`, each under the next key of the matches
      table; answers the new table and the next key. Round `r` takes the first
      six players of that round's shuffle of the whole roster. */
  method InsertRounds(ms: seq<Match>, nextId: nat, tid: nat, roster: seq<string>, gameTypes: seq<string>, rounds: int, shuffle: Shuffle)
    returns (ms': seq<Match>, nextId': nat)
    requires gameTypes != []
    ensures ms' == ms + Plan(tid, nextId, roster, gameTypes, shuffle, RoundsToPlay(rounds))
    ensures nextId' == nextId + RoundsToPlay(rounds)
  {
    ms', nextId' := ms, nextId;
    var round := 1;
    while round <= rounds
      invariant 1 <= round <= RoundsToPlay(rounds) + 1
      invariant ms' == ms + Plan(tid, nextId, roster, gameTypes, shuffle, round - 1)
      invariant nextId' == nextId + round - 1
    {
      var picked := Shuffled(shuffle, round, roster);
      var teams := SplitTeams(Prefix(picked, 6));
      var m := Match(nextId', tid, round, GameTypeOf(gameTypes, round), teams.0, teams.1, None);
      assert Plan(tid, nextId, roster, gameTypes, shuffle, round) == Plan(tid, nextId, roster, gameTypes, shuffle, round - 1) + [m];
      ms' := ms' + [m];
      nextId' := nextId' + 1;
      round := round + 1;
    }
  }

  class Store {
    var tournaments: seq<Tournament>
    var players: seq<Player>
    var meta: map<nat, Meta>
    var matches: seq<Match>
    /** The next value of the matches table's AUTOINCREMENT key. */
    var nextMatchId: nat

    /** The store's invariant: its four tables are valid together. */
    ghost predicate Valid()
      reads this
    {
      ValidTables(tournaments, players, meta, matches, nextMatchId)
    }

    /** An empty store. */
    constructor ()
      ensures Valid()
      ensures tournaments == [] && players == [] && meta == map[] && matches == [] && nextMatchId == 1
    {
      tournaments, players, meta, matches, nextMatchId := [], [], map[], [], 1;
    }

    /** The stored tournament with exactly this id, given that it exists. */
    lemma TournamentAt(t: Tournament)
      requires Valid() && t in tournaments
      ensures 1 <= t.id <= |tournaments| && tournaments[t.id - 1] == t
    {
      var i :| 0 <= i < |tournaments| && tournaments[i] == t;
    }

    /** `create_tournament`: refuse an empty name or code, refuse a code that
        is taken, and otherwise store a tournament whose registration closes
        24 hours after `now`. */
    method CreateTournament(name: string, code: string, now: int) returns (r: Result<nat, Error>)
      requires Valid()
      modifies this
      ensures Valid()
      ensures r.Ok? || r == Err(MissingNameOrCode) || r == Err(DuplicateCode)
      ensures r == Err(MissingNameOrCode) <==> Blank(name) || Blank(code)
      ensures r == Err(DuplicateCode) <==>
        !Blank(name) && !Blank(code) && FindTournament(old(tournaments), Upper(Trim(code))).Some?
      ensures r.Ok? ==> r.value == |old(tournaments)| + 1
      ensures r.Ok? ==> tournaments == old(tournaments) + [NewTournament(r.value, Trim(name), Upper(Trim(code)), now)]
      ensures r.Ok? ==> FindTournament(tournaments, Upper(Trim(code))) == Some(tournaments[r.value - 1])
      ensures r.Err? ==> tournaments == old(tournaments)
      ensures players == old(players) && meta == old(meta) && matches == old(matches) && nextMatchId == old(nextMatchId)
    {
      var checked := CheckNewTournament(name, code);
      if checked.Err? {
        return Err(checked.error);
      }
      var (n, c) := checked.value;
      if FindTournament(tournaments, c).Some? {
        return Err(DuplicateCode);
      }
      var id := |tournaments| + 1;
      var t := NewTournament(id, n, c, now);
      FindAfterAppend(tournaments, t, c);
      CreateKeepsValid(tournaments, players, meta, matches, nextMatchId, t);
      tournaments := tournaments + [t];
      r := Ok(id);
    }

    /** `join_submit`: check the form, find the tournament, refuse when the
        window is closed, refuse a gamertag already on the roster, and
        otherwise append one player row. The handler reads the clock twice:
        `checkedAt` for the window check and `storedAt` for the row it
        stores, so a request checked just before the deadline can store a
        later instant. */
    method JoinSubmit(code: string, gamertag: string, days: seq<string>, window: string, notes: string,
                      checkedAt: int, storedAt: int)
      returns (r: Result<(), Error>)
      requires Valid()
      modifies this
      ensures Valid()
      ensures
        var form := CheckRegistration(gamertag, days, window, notes);
        var found := FindTournament(old(tournaments), Upper(code));
        r == if form.Err? then Err(form.error)
             else if found.None? then Err(NotFound)
             else if !RegistrationOpen(found.value, checkedAt) then Err(RegistrationClosed)
             else if form.value.gamertag in Roster(old(players), found.value.id) then Err(AlreadyRegistered)
             else Ok(())
      ensures r.Ok? ==>
        var form := CheckRegistration(gamertag, days, window, notes).value;
        var tid := FindTournament(old(tournaments), Upper(code)).value.id;
        players == old(players) + [Player(tid, form.gamertag, form.days, form.window, form.notes, storedAt)]
      ensures r.Err? ==> players == old(players)
      ensures tournaments == old(tournaments) && meta == old(meta) && matches == old(matches) && nextMatchId == old(nextMatchId)
    {
      var form := CheckRegistration(gamertag, days, window, notes);
      if form.Err? {
        return Err(form.error);
      }
      var found := FindTournament(tournaments, Upper(code));
      if found.None? {
        return Err(NotFound);
      }
      var t := found.value;
      if !RegistrationOpen(t, checkedAt) {
        return Err(RegistrationClosed);
      }
      var g := form.value.gamertag;
      if g in Roster(players, t.id) {
        return Err(AlreadyRegistered);
      }
      TournamentAt(t);
      AddPlayer(Player(t.id, g, form.value.days, form.value.window, form.value.notes, storedAt));
      r := Ok(());
    }

    /** The `INSERT INTO players` of `join_submit`, for a player of a stored
        tournament under a gamertag not yet on its roster. */
    method AddPlayer(p: Player)
      requires Valid()
      requires 1 <= p.tournamentId <= |tournaments|
      requires p.gamertag !in Roster(players, p.tournamentId)
      modifies this
      ensures Valid()
      ensures players == old(players) + [p]
      ensures tournaments == old(tournaments) && meta == old(meta) && matches == old(matches) && nextMatchId == old(nextMatchId)
    {
      JoinKeepsValid(tournaments, players, meta, matches, nextMatchId, p);
      players := players + [p];
    }

    /** `generate_tournament`: with at least six registered players and no
        earlier generation, create the meta row if missing, delete the
        tournament's matches, insert one match per round and stamp the meta
        row with `now`. */
    method Generate(code: string, shuffle: Shuffle, now: int) returns (r: Result<GenerateStatus, Error>)
      requires Valid()
      requires IsShuffle(shuffle)
      modifies this
      ensures Valid()
      ensures tournaments == old(tournaments) && players == old(players)
      ensures
        var found := FindTournament(old(tournaments), Upper(code));
        r == if found.None? then Err(NotFound)
             else if |Roster(old(players), found.value.id)| < 6 then Err(NotEnoughPlayers(|Roster(old(players), found.value.id)|))
             else if IsGenerated(old(meta), found.value.id) then Ok(AlreadyGenerated)
             else Ok(Generated)
      ensures r != Ok(Generated) ==> meta == old(meta) && matches == old(matches) && nextMatchId == old(nextMatchId)
      ensures r == Ok(Generated) ==>
        var tid := FindTournament(old(tournaments), Upper(code)).value.id;
        var m := MetaOrDefault(old(meta), tid);
        var plan := Plan(tid, old(nextMatchId), Roster(old(players), tid), ParseGameTypes(m.gameTypes), shuffle, RoundsToPlay(m.rounds));
        && meta == old(meta)[tid := m.(generatedAt := Some(now))]
        && matches == MatchesExcept(old(matches), tid) + plan
        && nextMatchId == old(nextMatchId) + |plan|
    {
      var found := FindTournament(tournaments, Upper(code));
      if found.None? {
        return Err(NotFound);
      }
      var tid := found.value.id;
      var roster := Roster(players, tid);
      if |roster| < 6 {
        return Err(NotEnoughPlayers(|roster|));
      }
      if tid in meta && meta[tid].generatedAt.Some? {
        return Ok(AlreadyGenerated);
      }
      TournamentAt(found.value);
      var m := MetaOrDefault(meta, tid);
      WriteMatches(tid, m, ParseGameTypes(m.gameTypes), shuffle, now);
      r := Ok(Generated);
    }

    /** The writing half of `generate_tournament`, given the tournament's meta
        row `m` (the stored one, or the defaults the lazy insert creates) and
        its parsed game types: delete the tournament's matches, insert one
        match per round, and store `m` stamped with `now`. */
    method WriteMatches(tid: nat, m: Meta, gameTypes: seq<string>, shuffle: Shuffle, now: int)
      requires Valid() && IsShuffle(shuffle)
      requires 1 <= tid <= |tournaments| && |Roster(players, tid)| >= 6 && gameTypes != []
      modifies this
      ensures Valid()
      ensures tournaments == old(tournaments) && players == old(players)
      ensures meta == old(meta)[tid := m.(generatedAt := Some(now))]
      ensures matches == MatchesExcept(old(matches), tid) + Plan(tid, old(nextMatchId), Roster(old(players), tid), gameTypes, shuffle, RoundsToPlay(m.rounds))
      ensures nextMatchId == old(nextMatchId) + RoundsToPlay(m.rounds)
    {
      var stamped := m.(generatedAt := Some(now));
      GenerateKeepsValid(tournaments, players, meta, matches, nextMatchId, tid, stamped, gameTypes, shuffle, RoundsToPlay(m.rounds));
      var ms, next := InsertRounds(MatchesExcept(matches, tid), nextMatchId, tid, Roster(players, tid), gameTypes, m.rounds, shuffle);
      matches, nextMatchId, meta := ms, next, meta[tid := stamped];
    }

    /** `set_winner`: refuse a side other than A or B, find the tournament,
        and set the winner of the match with this id in this tournament; when
        there is no such match nothing changes and the request still
        succeeds. */
    method SetWinner(code: string, matchId: nat, field: string) returns (r: Result<(), Error>)
      requires Valid()
      modifies this
      ensures Valid()
      ensures
        var found := FindTournament(old(tournaments), Upper(code));
        r == if ParseSide(field).None? then Err(InvalidSide)
             else if found.None? then Err(NotFound)
             else Ok(())
      ensures r.Ok? ==>
        var tid := FindTournament(old(tournaments), Upper(code)).value.id;
        matches == RecordWinner(old(matches), matchId, tid, ParseSide(field).value)
      ensures r.Err? ==> matches == old(matches)
      ensures tournaments == old(tournaments) && players == old(players) && meta == old(meta)
      ensures nextMatchId == old(nextMatchId)
    {
      var side := ParseSide(field);
      if side.None? {
        return Err(InvalidSide);
      }
      var found := FindTournament(tournaments, Upper(code));
      if found.None? {
        return Err(NotFound);
      }
      SetWinnerKeepsValid(tournaments, players, meta, matches, nextMatchId, matchId, found.value.id, side.value);
      matches := RecordWinner(matches, matchId, found.value.id, side.value);
      r := Ok(());
    }
  }

  /** Generation happens once: after a request that generated or found the
      matches generated, a second request is a no-op that leaves the matches
      as the first one left them. */
  method GenerateTwice(s: Store, code: string, shuffle: Shuffle, now1: int, now2: int)
    returns (first: Result<GenerateStatus, Error>, second: Result<GenerateStatus, Error>, ghost afterFirst: seq<Match>)
    requires s.Valid() && IsShuffle(shuffle)
    modifies s
    ensures s.Valid()
    ensures first.Ok? ==> second == Ok(AlreadyGenerated) && s.matches == afterFirst
  {
    first := s.Generate(code, shuffle, now1);
    afterFirst := s.matches;
    second := s.Generate(code, shuffle, now2);
  }
}
