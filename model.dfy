/** The four record sets of the tournament store (tournaments, players,
    tournament meta, matches) and the outcomes a request can be refused with.
    Instants are integers counting microseconds, the resolution of the
    timestamps the application stores. */
module Model {
  import opened Base

  /** One hour and the registration window, in microseconds. */
  const Hour: int := 60 * 60 * 1_000_000
  const RegistrationPeriod: int := 24 * Hour

  /** A row of `tournaments`: the id is the auto-incremented key, the code is
      stored stripped and upper-cased, the deadline is fixed at creation. */
  datatype Tournament = Tournament(
    id: nat,
    code: string,
    name: string,
    createdAt: int,
    deadline: int)

  /** A row of `players`: availability days are stored as one comma-joined
      string, exactly as submitted. */
  datatype Player = Player(
    tournamentId: nat,
    gamertag: string,
    days: string,
    window: string,
    notes: string,
    registeredAt: int)

  /** A row of `tournament_meta`, created lazily with its column defaults. */
  datatype Meta = Meta(generatedAt: Option<int>, rounds: int, gameTypes: string)

  /** The column defaults of `tournament_meta`. */
  const DefaultRounds: int := 5
  const DefaultGameTypesColumn: string := "Type A,Type B,Type C"
  const DefaultMeta: Meta := Meta(None, DefaultRounds, DefaultGameTypesColumn)

  /** The side recorded as a match's winner. */
  datatype Side = A | B

  /** A row of `matches`: the two teams are the gamertag lists that the
      application stores comma-joined; `winner` is NULL until recorded. */
  datatype Match = Match(
    id: nat,
    tournamentId: nat,
    round: int,
    gameType: string,
    teamA: seq<string>,
    teamB: seq<string>,
    winner: Option<Side>)

  /** Why a request is refused. The first five are the HTTP 400 aborts on
      missing or malformed form fields. */
  datatype Error =
    | MissingNameOrCode
    | MissingGamertag
    | MissingDays
    | MissingTimeWindow
    | InvalidSide
    | NotFound
    | DuplicateCode
    | RegistrationClosed
    | AlreadyRegistered
    | NotEnoughPlayers(count: nat)
}
