/** Tournament creation checks, the 24-hour registration window, player
    registration checks, tournament lookup by code, and the roster of a
    tournament (its players' gamertags in registration order). */
module Registration {
  import opened Base
  import opened Text
  import opened Model

  /** Registration is open while the current instant has not passed the
      stored deadline; the deadline itself is still open. */
  predicate RegistrationOpen(t: Tournament, now: int) {
    now <= t.deadline
  }

  /** For a tournament whose deadline was fixed at creation plus 24 hours, the
      window is open exactly during the first 24 hours after creation, and
      once closed it stays closed at every later instant. */
  lemma WindowClosesOnceForAll(t: Tournament, now: int, later: int)
    requires t.deadline == t.createdAt + RegistrationPeriod
    ensures RegistrationOpen(t, now) <==> now - t.createdAt <= 24 * Hour
    ensures now <= later && !RegistrationOpen(t, now) ==> !RegistrationOpen(t, later)
  {
  }

  /** The form checks of tournament creation: the name stripped, the code
      stripped and upper-cased, both non-empty. */
  function CheckNewTournament(name: string, code: string): (r: Result<(string, string), Error>)
    ensures r.Err? <==> Blank(name) || Blank(code)
    ensures r.Err? ==> r.error == MissingNameOrCode
    ensures r.Ok? ==> r.value.0 == Trim(name) && r.value.0 != []
    ensures r.Ok? ==> r.value.1 == Upper(Trim(code)) && r.value.1 != []
  {
    var n := Trim(name);
    var c := Upper(Trim(code));
    if n == [] || c == [] then Err(MissingNameOrCode) else Ok((n, c))
  }

  /** The tournament row that creation stores. */
  function NewTournament(id: nat, name: string, code: string, now: int): (t: Tournament)
    ensures t.id == id && t.code == code && t.name == name
    ensures t.createdAt == now && t.deadline == now + RegistrationPeriod
    ensures t.deadline - t.createdAt == 24 * Hour
  {
    Tournament(id, code, name, now, now + RegistrationPeriod)
  }

  /** The validated fields of a registration form. */
  datatype RegistrationForm = RegistrationForm(gamertag: string, days: string, window: string, notes: string)

  /** The form checks of `join_submit`, in the order the handler makes them:
      gamertag, then days, then time window. The days are kept as submitted
      and joined with commas; the other fields are stripped. */
  function CheckRegistration(gamertag: string, days: seq<string>, window: string, notes: string)
    : (r: Result<RegistrationForm, Error>)
    ensures r == Err(MissingGamertag) <==> Blank(gamertag)
    ensures r == Err(MissingDays) <==> !Blank(gamertag) && days == []
    ensures r == Err(MissingTimeWindow) <==> !Blank(gamertag) && days != [] && Blank(window)
    ensures r.Ok? <==> !Blank(gamertag) && days != [] && !Blank(window)
    ensures r.Ok? ==> r.value.gamertag == Trim(gamertag) && r.value.gamertag != []
    ensures r.Ok? ==> r.value.window == Trim(window) && r.value.window != []
    ensures r.Ok? ==> r.value.days == Join(days, ',')
    ensures r.Ok? ==> r.value.notes == Trim(notes)
  {
    var g := Trim(gamertag);
    var w := Trim(window);
    if g == [] then Err(MissingGamertag)
    else if days == [] then Err(MissingDays)
    else if w == [] then Err(MissingTimeWindow)
    else Ok(RegistrationForm(g, Join(days, ','), w, Trim(notes)))
  }

  /** The stored days column splits back into the submitted days, provided
      no submitted day holds a comma. */
  lemma RegisteredDaysRoundTrip(gamertag: string, days: seq<string>, window: string, notes: string)
    requires CheckRegistration(gamertag, days, window, notes).Ok?
    requires forall i :: 0 <= i < |days| ==> ',' !in days[i]
    ensures Split(CheckRegistration(gamertag, days, window, notes).value.days, ',') == days
  {
    SplitJoin(days, ',');
  }

  /** The `SELECT ... WHERE code = ?` lookup: the first tournament stored
      under exactly this code, if any. */
  function FindTournament(ts: seq<Tournament>, code: string): (r: Option<Tournament>)
    ensures r.Some? ==> r.value in ts && r.value.code == code
    ensures r.None? <==> forall i :: 0 <= i < |ts| ==> ts[i].code != code
  {
    if ts == [] then None
    else if ts[0].code == code then Some(ts[0])
    else
      var r := FindTournament(ts[1..], code);
      assert forall i :: 1 <= i < |ts| ==> ts[i] == ts[1..][i - 1];
      r
  }

  /** A tournament appended under a fresh code is found by that code, and
      every other code finds what it found before. */
  lemma {:induction false} FindAfterAppend(ts: seq<Tournament>, t: Tournament, code: string)
    requires FindTournament(ts, t.code).None?
    ensures FindTournament(ts + [t], code) == if code == t.code then Some(t) else FindTournament(ts, code)
  {
    if ts != [] {
      assert (ts + [t])[1..] == ts[1..] + [t];
      FindAfterAppend(ts[1..], t, code);
    }
  }

  /** The gamertags registered for tournament `tid`, oldest first: the
      generator's `ORDER BY created_at_utc ASC` over the players table. */
  function Roster(ps: seq<Player>, tid: nat): (r: seq<string>)
    ensures |r| <= |ps|
    ensures forall g :: g in r <==> exists i :: 0 <= i < |ps| && ps[i].tournamentId == tid && ps[i].gamertag == g
  {
    if ps == [] then []
    else
      var init := ps[..|ps| - 1];
      var last := ps[|ps| - 1];
      assert forall i :: 0 <= i < |init| ==> init[i] == ps[i];
      Roster(init, tid) + (if last.tournamentId == tid then [last.gamertag] else [])
  }

  /** A roster keeps registration order: the roster of the players
      registered in two stretches is the roster of the first stretch followed
      by that of the second. */
  lemma {:induction false} RosterAppend(xs: seq<Player>, ys: seq<Player>, tid: nat)
    ensures Roster(xs + ys, tid) == Roster(xs, tid) + Roster(ys, tid)
  {
    if ys == [] {
      assert xs + ys == xs;
    } else {
      var init := ys[..|ys| - 1];
      var last := ys[|ys| - 1];
      assert (xs + ys)[..|xs + ys| - 1] == xs + init;
      assert (xs + ys)[|xs + ys| - 1] == last;
      RosterAppend(xs, init, tid);
      ConcatAssociates(Roster(xs, tid), Roster(init, tid), if last.tournamentId == tid then [last.gamertag] else []);
    }
  }

  /** Registering a player appends at most one gamertag to one roster. */
  lemma RosterAfterAppend(ps: seq<Player>, p: Player, tid: nat)
    ensures Roster(ps + [p], tid) == Roster(ps, tid) + (if p.tournamentId == tid then [p.gamertag] else [])
  {
    RosterAppend(ps, [p], tid);
    assert [p][..0] == [];
  }

  /** The `UNIQUE(tournament_id, gamertag)` constraint of the players table. */
  predicate UniqueRegistrations(ps: seq<Player>) {
    forall i, j :: 0 <= i < j < |ps| ==>
      ps[i].tournamentId != ps[j].tournamentId || ps[i].gamertag != ps[j].gamertag
  }

  /** Under the uniqueness constraint no gamertag occurs twice in a roster. */
  lemma {:induction false} RosterDistinct(ps: seq<Player>, tid: nat)
    requires UniqueRegistrations(ps)
    ensures Distinct(Roster(ps, tid))
  {
    if ps != [] {
      var init := ps[..|ps| - 1];
      var last := ps[|ps| - 1];
      assert ps == init + [last];
      assert UniqueRegistrations(init);
      RosterDistinct(init, tid);
      RosterAfterAppend(init, last, tid);
      if last.tournamentId == tid {
        var earlier := Roster(init, tid);
        assert last.gamertag !in earlier;
        assert Distinct(earlier + [last.gamertag]);
      }
    }
  }
}
