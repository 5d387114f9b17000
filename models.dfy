/**
 * The rows of the relational schema, as values. Primary keys are not fields: each table is a
 * map from id to row in `Store.Database`. Nullable columns are `Option`s; timestamps are
 * seconds in the server's local time.
 */
module Models {
  import opened Common

  /** The rating every new user starts with. */
  const DefaultRating: int := 1200

  /**
   * The values an `Integer` column holds: the dialect's 4-byte integer. Inserting a row with a
   * value outside this range makes the commit fail.
   */
  predicate FitsInteger(x: int)
  {
    -0x8000_0000 <= x < 0x8000_0000
  }

  datatype User = User(
    telegramId: int,
    username: Option<string>,
    firstName: Option<string>,
    lastName: Option<string>,
    avatarUrl: Option<string>,
    isAdmin: bool,
    rating: int,
    createdAt: int)

  /** A user row as inserted with the column defaults: not an admin, rating 1200. */
  function NewUser(telegramId: int, username: Option<string>, firstName: Option<string>,
                   lastName: Option<string>, avatarUrl: Option<string>, now: int): User
  {
    User(telegramId, username, firstName, lastName, avatarUrl, false, DefaultRating, now)
  }

  /** The four values the `status` column of a challenge takes. */
  datatype ChallengeStatus = Pending | Accepted | Declined | Completed

  /** The self-reported results the web endpoint accepts for `challenger_result`/`challenged_result`. */
  const Won: string := "won"
  const Lost: string := "lost"

  datatype Challenge = Challenge(
    challenger: int,
    challenged: int,
    status: ChallengeStatus,
    createdAt: int,
    acceptedAt: Option<int>,
    completedAt: Option<int>,
    challengerResult: Option<string>,
    challengedResult: Option<string>,
    matchId: Option<int>)

  /** A freshly created challenge: pending, nothing reported, no match linked. */
  function NewChallenge(challenger: int, challenged: int, now: int): Challenge
  {
    Challenge(challenger, challenged, Pending, now, None, None, None, None, None)
  }

  /**
   * The status changes the handlers make: pending to accepted or declined, accepted to
   * completed. Declined and completed are final.
   */
  predicate ChallengeStep(from: ChallengeStatus, to: ChallengeStatus)
  {
    (from == Pending && (to == Accepted || to == Declined)) || (from == Accepted && to == Completed)
  }

  /** A result column is set in Python's sense: not null and not the empty string. */
  predicate Reported(r: Option<string>)
  {
    r.Some? && r.value != ""
  }

  datatype Match = Match(
    player1: int,
    player2: int,
    winner: Option<int>,
    loser: Option<int>,
    score: Option<string>,
    spotId: Option<int>,
    isRated: bool,
    tournamentId: Option<int>,
    createdAt: int)

  /** One ledger row per user per rated match. `change` may be negative. */
  datatype HistoryRow = HistoryRow(
    userId: int,
    matchId: int,
    ratingBefore: int,
    ratingAfter: int,
    change: int,
    createdAt: int)

  /** The three values of a tournament's `status` column: open, started, completed. */
  datatype TournamentStatus = Open | Started | Finished

  datatype Tournament = Tournament(
    title: string,
    spotId: int,
    when: int,
    description: Option<string>,
    createdBy: int,
    status: TournamentStatus,
    createdAt: int)

  datatype Participant = Participant(
    tournamentId: int,
    userId: int,
    resultPlace: Option<int>,
    registeredAt: int)

  datatype Location = Location(
    userId: int,
    latitude: real,
    longitude: real,
    name: string,
    description: string,
    tablesCount: int,
    netType: string,
    hasRoof: bool,
    createdAt: int)

  datatype Photo = Photo(id: int, locationId: int, filePath: string, createdAt: int)

  datatype Rating = Rating(
    userId: int,
    locationId: int,
    score: int,
    comment: Option<string>,
    createdAt: int)
}
