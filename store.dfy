/**
 * The database every handler shares, as one object whose tables the handlers update in place.
 * Each table with an autoincrement key is a map from id to row together with the next id to
 * hand out; the rating ledger, the tournament registrations and the photos are sequences in
 * insertion order.
 */
module Store {
  import opened Common
  import opened Models

  /** Every key of `m` is an id already handed out by an autoincrement counter at `next`. */
  predicate IdsBelow<V>(m: map<int, V>, next: int)
  {
    1 <= next && forall id :: id in m ==> 1 <= id < next
  }

  /** `users.telegram_id` is a unique column. */
  predicate UniqueTelegramIds(users: map<int, User>)
  {
    forall a, b :: a in users && b in users && users[a].telegramId == users[b].telegramId ==> a == b
  }

  /** No stored challenge has the same user on both sides. */
  predicate NoSelfChallenges(challenges: map<int, Challenge>)
  {
    forall id :: id in challenges ==> challenges[id].challenger != challenges[id].challenged
  }

  /** Every ledger row's `change` is exactly `rating_after - rating_before`. */
  predicate LedgerBalanced(history: seq<HistoryRow>)
  {
    forall i :: 0 <= i < |history| ==> history[i].change == history[i].ratingAfter - history[i].ratingBefore
  }

  /** A user is registered for a tournament at most once. */
  predicate UniqueRegistrations(participants: seq<Participant>)
  {
    forall i, j :: 0 <= i < j < |participants| ==>
      participants[i].tournamentId != participants[j].tournamentId || participants[i].userId != participants[j].userId
  }

  /** A user rates a location at most once. */
  predicate OneRatingPerPair(ratings: map<int, Rating>)
  {
    forall a, b ::
      (a in ratings && b in ratings && ratings[a].userId == ratings[b].userId
       && ratings[a].locationId == ratings[b].locationId) ==> a == b
  }

  predicate PhotoIdsBelow(photos: seq<Photo>, next: int)
  {
    1 <= next && forall i :: 0 <= i < |photos| ==> 1 <= photos[i].id < next
  }

  /**
   * SQL's `.first()` over a filtered table: the lowest id below `bound` whose row satisfies `p`,
   * or `None` when no row does.
   */
  function FirstKey<V>(m: map<int, V>, p: V -> bool, bound: int): (r: Option<int>)
    ensures r.Some? ==> r.value in m && p(m[r.value]) && 1 <= r.value < bound
    ensures r.Some? ==> forall k :: 1 <= k < r.value && k in m ==> !p(m[k])
    ensures r.None? ==> forall k :: 1 <= k < bound && k in m ==> !p(m[k])
    decreases bound
  {
    if bound <= 1 then None
    else
      match FirstKey(m, p, bound - 1)
      case Some(k) => Some(k)
      case None => if bound - 1 in m && p(m[bound - 1]) then Some(bound - 1) else None
  }

  /** The user with telegram id `tg`: the lowest such id below `next`, or `None`. */
  function ByTelegramId(users: map<int, User>, tg: int, next: int): (r: Option<int>)
    ensures r.Some? ==> r.value in users && users[r.value].telegramId == tg && 1 <= r.value < next
    ensures r.None? ==> forall id :: 1 <= id < next && id in users ==> users[id].telegramId != tg
  {
    FirstKey(users, (u: User) => u.telegramId == tg, next)
  }

  /** The first user whose username is `name`: the lowest such id below `next`, or `None`. */
  function ByUsername(users: map<int, User>, name: string, next: int): (r: Option<int>)
    ensures r.Some? ==> r.value in users && users[r.value].username == Some(name) && 1 <= r.value < next
    ensures r.Some? ==> forall id :: 1 <= id < r.value && id in users ==> users[id].username != Some(name)
    ensures r.None? ==> forall id :: 1 <= id < next && id in users ==> users[id].username != Some(name)
  {
    FirstKey(users, (u: User) => u.username == Some(name), next)
  }

  class Database {
    var users: map<int, User>
    var challenges: map<int, Challenge>
    var matches: map<int, Match>
    var history: seq<HistoryRow>
    var tournaments: map<int, Tournament>
    var participants: seq<Participant>
    var locations: map<int, Location>
    var photos: seq<Photo>
    var ratings: map<int, Rating>
    var nextUserId: int
    var nextChallengeId: int
    var nextMatchId: int
    var nextTournamentId: int
    var nextLocationId: int
    var nextPhotoId: int
    var nextRatingId: int

    /** The schema's constraints and the invariants the handlers keep. */
    ghost predicate Valid()
      reads this
    {
      && IdsBelow(users, nextUserId)
      && IdsBelow(challenges, nextChallengeId)
      && IdsBelow(matches, nextMatchId)
      && IdsBelow(tournaments, nextTournamentId)
      && IdsBelow(locations, nextLocationId)
      && IdsBelow(ratings, nextRatingId)
      && PhotoIdsBelow(photos, nextPhotoId)
      && UniqueTelegramIds(users)
      && NoSelfChallenges(challenges)
      && LedgerBalanced(history)
      && UniqueRegistrations(participants)
      && OneRatingPerPair(ratings)
    }

    constructor ()
      ensures Valid()
      ensures users == map[] && challenges == map[] && matches == map[] && history == []
      ensures tournaments == map[] && participants == [] && locations == map[]
      ensures photos == [] && ratings == map[]
    {
      users, challenges, matches, history := map[], map[], map[], [];
      tournaments, participants, locations, photos, ratings := map[], [], map[], [], map[];
      nextUserId, nextChallengeId, nextMatchId, nextTournamentId := 1, 1, 1, 1;
      nextLocationId, nextPhotoId, nextRatingId := 1, 1, 1;
    }

    /** `db.query(User).filter(User.username == name).first()`. */
    function UserByUsername(name: string): (r: Option<int>)
      reads this
      requires Valid()
      ensures r.Some? ==> r.value in users && users[r.value].username == Some(name)
      ensures r.None? <==> forall id :: id in users ==> users[id].username != Some(name)
    {
      ByUsername(users, name, nextUserId)
    }

    /** `db.query(User).filter(User.telegram_id == tg).first()`: the one user with that id. */
    function UserByTelegramId(tg: int): (r: Option<int>)
      reads this
      requires Valid()
      ensures r.Some? ==> r.value in users && users[r.value].telegramId == tg
      ensures r.Some? ==> forall id :: id in users && users[id].telegramId == tg ==> id == r.value
      ensures r.None? <==> forall id :: id in users ==> users[id].telegramId != tg
    {
      ByTelegramId(users, tg, nextUserId)
    }

    /** `db.query(User).first()`: the user the location endpoints act for. */
    function FirstUser(): (r: Option<int>)
      reads this
      requires Valid()
      ensures r.Some? ==> r.value in users
      ensures r.None? <==> users == map[]
    {
      FirstKey(users, (u: User) => true, nextUserId)
    }
  }
}
