/**
 * The challenge endpoints of the web API: create, accept, decline, submit a self-reported
 * result, and the Elo update that completes a challenge. The acting user and the clock are
 * parameters (`actor`, `now`); `ew` is the winner's Elo expectation the endpoint computes in
 * floating point.
 */
module ChallengesApi {
  import opened Common
  import opened Models
  import opened Store
  import Elo

  const SecondsPerDay: int := 86400

  /** `datetime.now().date()` as a timestamp: midnight of the day `now` falls in. */
  function DayStart(now: int): int
  {
    now - now % SecondsPerDay
  }

  const UserNotFound := HttpError(404, "User not found")
  const CannotChallengeYourself := HttpError(400, "Cannot challenge yourself")
  const OneChallengePerDay := HttpError(400, "You can only create one challenge per day")
  const ActiveChallengeExists := HttpError(400, "You already have an active challenge with this user")
  const ChallengeNotFound := HttpError(404, "Challenge not found")
  const OnlyChallengedAccepts := HttpError(403, "You can only accept challenges sent to you")
  const OnlyChallengedDeclines := HttpError(403, "You can only decline challenges sent to you")
  const NotPending := HttpError(400, "Challenge is not pending")
  const InvalidResult := HttpError(400, "Result must be 'won' or 'lost'")
  const NotAccepted := HttpError(400, "Challenge is not accepted")
  const NotParticipant := HttpError(403, "You are not part of this challenge")
  const SameResult := HttpError(400, "Both players cannot have the same result")

  /** The score every completed challenge's match is stored with. */
  const PlaceholderScore: string := "21:19"

  /** `challenger` created some challenge, whatever its status or target, since midnight. */
  predicate CreatedToday(challenges: map<int, Challenge>, challenger: int, now: int)
  {
    exists id :: id in challenges && challenges[id].challenger == challenger
      && challenges[id].createdAt >= DayStart(now)
  }

  /** A pending or accepted challenge from `challenger` to `challenged` (this direction only). */
  predicate ActiveBetween(challenges: map<int, Challenge>, challenger: int, challenged: int)
  {
    exists id :: id in challenges && challenges[id].challenger == challenger
      && challenges[id].challenged == challenged
      && (challenges[id].status == Pending || challenges[id].status == Accepted)
  }

  /** The actor's report stored on their side: the challenger's side when they are the challenger. */
  function WithReport(c: Challenge, actor: int, result: string): Challenge
  {
    if c.challenger == actor then c.(challengerResult := Some(result))
    else c.(challengedResult := Some(result))
  }

  /** The winner of a fully reported challenge: the challenger exactly when they reported "won". */
  function WinnerOf(c: Challenge): int
  {
    if c.challengerResult == Some(Won) then c.challenger else c.challenged
  }

  function LoserOf(c: Challenge): int
  {
    if c.challengerResult == Some(Won) then c.challenged else c.challenger
  }

  /**
   * How the challenge table may evolve: no challenge disappears, the two users of a challenge
   * never change, and a status either stays or takes one step of the state machine.
   */
  ghost predicate ChallengesEvolve(before: map<int, Challenge>, after: map<int, Challenge>)
  {
    && before.Keys <= after.Keys
    && forall id :: id in before ==>
         && after[id].challenger == before[id].challenger
         && after[id].challenged == before[id].challenged
         && (after[id].status == before[id].status || ChallengeStep(before[id].status, after[id].status))
  }

  /** The winner's and the loser's history rows as `update_ratings` writes them. */
  function LedgerRows(winner: int, loser: int, matchId: int, winnerBefore: int, loserBefore: int,
                      ew: real, now: int): seq<HistoryRow>
  {
    var w := Elo.WinnerChange(ew);
    var l := Elo.LoserChange(ew);
    [HistoryRow(winner, matchId, winnerBefore, winnerBefore + w, w, now),
     HistoryRow(loser, matchId, loserBefore, loserBefore + l, l, now)]
  }

  /** POST /challenges */
  method CreateChallenge(db: Database, actor: int, challengedUsername: string, now: int)
    returns (r: Result<int>)
    requires db.Valid()
    modifies db`challenges, db`nextChallengeId
    ensures db.Valid()
    ensures ChallengesEvolve(old(db.challenges), db.challenges)
    ensures var target := old(db.UserByUsername(challengedUsername));
      && (target.None? ==> r == Err(UserNotFound))
      && (target == Some(actor) ==> r == Err(CannotChallengeYourself))
      && (target.Some? && target.value != actor && old(CreatedToday(db.challenges, actor, now))
          ==> r == Err(OneChallengePerDay))
      && ((target.Some? && target.value != actor && !old(CreatedToday(db.challenges, actor, now))
           && old(ActiveBetween(db.challenges, actor, target.value))) ==> r == Err(ActiveChallengeExists))
      && (r.Ok? <==> (target.Some? && target.value != actor && !old(CreatedToday(db.challenges, actor, now))
                      && !old(ActiveBetween(db.challenges, actor, target.value))))
      && (r.Ok? ==>
          && target.Some? && target.value != actor
          && r.value == old(db.nextChallengeId) && r.value !in old(db.challenges)
          && db.challenges == old(db.challenges)[r.value := NewChallenge(actor, target.value, now)]
          && db.nextChallengeId == r.value + 1)
    ensures r.Err? ==> db.challenges == old(db.challenges) && db.nextChallengeId == old(db.nextChallengeId)
  {
    var target := db.UserByUsername(challengedUsername);
    if target.None? {
      return Err(UserNotFound);
    }
    var challenged := target.value;
    if challenged == actor {
      return Err(CannotChallengeYourself);
    }
    if CreatedToday(db.challenges, actor, now) {
      return Err(OneChallengePerDay);
    }
    if ActiveBetween(db.challenges, actor, challenged) {
      return Err(ActiveChallengeExists);
    }
    var id := db.nextChallengeId;
    db.challenges := db.challenges[id := NewChallenge(actor, challenged, now)];
    db.nextChallengeId := id + 1;
    return Ok(id);
  }

  /**
   * The effect of `update_ratings` on the user table and the rating ledger: when the winner or
   * the loser is not a user nothing changes; otherwise the winner gains and the loser loses their
   * Elo change, every other user is untouched, and the two ledger rows are appended.
   */
  ghost predicate EloRatingEffect(usersBefore: map<int, User>, usersAfter: map<int, User>,
                                  historyBefore: seq<HistoryRow>, historyAfter: seq<HistoryRow>,
                                  winner: int, loser: int, matchId: int, ew: real, now: int)
  {
    && (winner !in usersBefore || loser !in usersBefore ==>
          usersAfter == usersBefore && historyAfter == historyBefore)
    && (winner in usersBefore && loser in usersBefore && winner != loser ==>
          var wb := usersBefore[winner].rating;
          var lb := usersBefore[loser].rating;
          && usersAfter == usersBefore[winner := usersBefore[winner].(rating := wb + Elo.WinnerChange(ew))]
                                      [loser := usersBefore[loser].(rating := lb + Elo.LoserChange(ew))]
          && historyAfter == historyBefore + LedgerRows(winner, loser, matchId, wb, lb, ew, now))
  }

  /** POST /challenges/{id}/accept */
  method AcceptChallenge(db: Database, actor: int, id: int, now: int) returns (r: Result<()>)
    requires db.Valid()
    modifies db`challenges
    ensures db.Valid()
    ensures ChallengesEvolve(old(db.challenges), db.challenges)
    ensures id !in old(db.challenges) ==> r == Err(ChallengeNotFound)
    ensures id in old(db.challenges) && old(db.challenges[id].challenged) != actor ==> r == Err(OnlyChallengedAccepts)
    ensures (id in old(db.challenges) && old(db.challenges[id].challenged) == actor
             && old(db.challenges[id].status) != Pending) ==> r == Err(NotPending)
    ensures r.Ok? <==> (id in old(db.challenges) && old(db.challenges[id].challenged) == actor
                        && old(db.challenges[id].status) == Pending)
    ensures r.Err? ==> db.challenges == old(db.challenges)
    ensures r.Ok? ==> (id in old(db.challenges)
      && db.challenges == old(db.challenges)[id := old(db.challenges[id]).(status := Accepted, acceptedAt := Some(now))])
  {
    if id !in db.challenges {
      return Err(ChallengeNotFound);
    }
    var c := db.challenges[id];
    if c.challenged != actor {
      return Err(OnlyChallengedAccepts);
    }
    if c.status != Pending {
      return Err(NotPending);
    }
    db.challenges := db.challenges[id := c.(status := Accepted, acceptedAt := Some(now))];
    return Ok(());
  }

  /** POST /challenges/{id}/decline */
  method DeclineChallenge(db: Database, actor: int, id: int) returns (r: Result<()>)
    requires db.Valid()
    modifies db`challenges
    ensures db.Valid()
    ensures ChallengesEvolve(old(db.challenges), db.challenges)
    ensures id !in old(db.challenges) ==> r == Err(ChallengeNotFound)
    ensures id in old(db.challenges) && old(db.challenges[id].challenged) != actor ==> r == Err(OnlyChallengedDeclines)
    ensures (id in old(db.challenges) && old(db.challenges[id].challenged) == actor
             && old(db.challenges[id].status) != Pending) ==> r == Err(NotPending)
    ensures r.Ok? <==> (id in old(db.challenges) && old(db.challenges[id].challenged) == actor
                        && old(db.challenges[id].status) == Pending)
    ensures r.Err? ==> db.challenges == old(db.challenges)
    ensures r.Ok? ==> (id in old(db.challenges)
      && db.challenges == old(db.challenges)[id := old(db.challenges[id]).(status := Declined)])
  {
    if id !in db.challenges {
      return Err(ChallengeNotFound);
    }
    var c := db.challenges[id];
    if c.challenged != actor {
      return Err(OnlyChallengedDeclines);
    }
    if c.status != Pending {
      return Err(NotPending);
    }
    db.challenges := db.challenges[id := c.(status := Declined)];
    return Ok(());
  }

  /**
   * `update_ratings`: nothing happens unless both users exist; otherwise both ratings move by
   * the Elo changes and two ledger rows are appended.
   */
  method UpdateRatings(db: Database, winner: int, loser: int, matchId: int, ew: real, now: int)
    requires db.Valid()
    modifies db`users, db`history
    ensures db.Valid()
    ensures EloRatingEffect(old(db.users), db.users, old(db.history), db.history, winner, loser, matchId, ew, now)
    ensures db.users.Keys == old(db.users.Keys)
    ensures forall id :: id in db.users ==> db.users[id].telegramId == old(db.users[id].telegramId)
  {
    if winner !in db.users || loser !in db.users {
      return;
    }
    var winnerBefore := db.users[winner].rating;
    var loserBefore := db.users[loser].rating;
    db.users := db.users[winner := db.users[winner].(rating := winnerBefore + Elo.WinnerChange(ew))];
    db.users := db.users[loser := db.users[loser].(rating := db.users[loser].rating + Elo.LoserChange(ew))];
    var winnerAfter := db.users[winner].rating;
    var loserAfter := db.users[loser].rating;
    db.history := db.history + [
      HistoryRow(winner, matchId, winnerBefore, winnerAfter, winnerAfter - winnerBefore, now),
      HistoryRow(loser, matchId, loserBefore, loserAfter, loserAfter - loserBefore, now)];
  }

  /** POST /challenges/{id}/result */
  /**
   * The second report of `submit_result`: record the match, update the ratings and mark the
   * challenge completed with the match linked.
   */
  method CompleteChallenge(db: Database, id: int, c: Challenge, ew: real, now: int)
    requires db.Valid() && id in db.challenges && db.challenges[id].status == Accepted
    requires c.challenger == db.challenges[id].challenger && c.challenged == db.challenges[id].challenged
    modifies db`challenges, db`matches, db`nextMatchId, db`users, db`history
    ensures db.Valid()
    ensures ChallengesEvolve(old(db.challenges), db.challenges)
    ensures var mid := old(db.nextMatchId);
      && mid !in old(db.matches)
      && db.matches == old(db.matches)[mid := Match(c.challenger, c.challenged, Some(WinnerOf(c)),
           Some(LoserOf(c)), Some(PlaceholderScore), None, true, None, now)]
      && db.nextMatchId == mid + 1
      && db.challenges == old(db.challenges)[id := c.(status := Completed, completedAt := Some(now), matchId := Some(mid))]
    ensures WinnerOf(c) != LoserOf(c)
    ensures EloRatingEffect(old(db.users), db.users, old(db.history), db.history,
                            WinnerOf(c), LoserOf(c), old(db.nextMatchId), ew, now)
  {
    var winner := WinnerOf(c);
    var loser := LoserOf(c);
    var mid := db.nextMatchId;
    db.matches := db.matches[mid := Match(c.challenger, c.challenged, Some(winner), Some(loser),
                                          Some(PlaceholderScore), None, true, None, now)];
    db.nextMatchId := mid + 1;
    UpdateRatings(db, winner, loser, mid, ew, now);
    db.challenges := db.challenges[id := c.(status := Completed, completedAt := Some(now), matchId := Some(mid))];
  }

  method SubmitResult(db: Database, actor: int, id: int, result: string, ew: real, now: int)
    returns (r: Result<()>)
    requires db.Valid()
    modifies db`challenges, db`matches, db`nextMatchId, db`users, db`history
    ensures db.Valid()
    ensures ChallengesEvolve(old(db.challenges), db.challenges)
    ensures result != Won && result != Lost ==> r == Err(InvalidResult)
    ensures (result == Won || result == Lost) && id !in old(db.challenges) ==> r == Err(ChallengeNotFound)
    ensures ((result == Won || result == Lost) && id in old(db.challenges)
             && old(db.challenges[id].status) != Accepted) ==> r == Err(NotAccepted)
    ensures ((result == Won || result == Lost) && id in old(db.challenges)
             && old(db.challenges[id].status) == Accepted
             && actor != old(db.challenges[id].challenger) && actor != old(db.challenges[id].challenged))
      ==> r == Err(NotParticipant)
    ensures r.Err? ==> (db.challenges == old(db.challenges) && db.matches == old(db.matches)
      && db.nextMatchId == old(db.nextMatchId) && db.users == old(db.users) && db.history == old(db.history))
    ensures r.Ok? ==> id in old(db.challenges)
    ensures r.Ok? ==>
      var c := WithReport(old(db.challenges[id]), actor, result);
      && old(db.challenges[id].status) == Accepted
      && (actor == c.challenger || actor == c.challenged)
      && (!(Reported(c.challengerResult) && Reported(c.challengedResult)) ==>
          && db.challenges == old(db.challenges)[id := c]
          && db.matches == old(db.matches) && db.nextMatchId == old(db.nextMatchId)
          && db.users == old(db.users) && db.history == old(db.history))
      && (Reported(c.challengerResult) && Reported(c.challengedResult) ==>
          var mid := old(db.nextMatchId);
          && c.challengerResult != c.challengedResult
          && mid !in old(db.matches)
          && db.matches == old(db.matches)[mid := Match(c.challenger, c.challenged, Some(WinnerOf(c)),
               Some(LoserOf(c)), Some(PlaceholderScore), None, true, None, now)]
          && db.nextMatchId == mid + 1
          && db.challenges == old(db.challenges)[id := c.(status := Completed, completedAt := Some(now), matchId := Some(mid))])
    ensures (r.Ok? && db.matches != old(db.matches)) ==>
      var c := WithReport(old(db.challenges[id]), actor, result);
      && WinnerOf(c) != LoserOf(c)
      && EloRatingEffect(old(db.users), db.users, old(db.history), db.history,
                         WinnerOf(c), LoserOf(c), old(db.nextMatchId), ew, now)
    ensures ((result == Won || result == Lost) && id in old(db.challenges)
             && old(db.challenges[id].status) == Accepted
             && (actor == old(db.challenges[id].challenger) || actor == old(db.challenges[id].challenged))) ==>
      var c := WithReport(old(db.challenges[id]), actor, result);
      r == (if Reported(c.challengerResult) && Reported(c.challengedResult)
               && c.challengerResult == c.challengedResult
            then Err(SameResult) else Ok(()))
  {
    if result != Won && result != Lost {
      return Err(InvalidResult);
    }
    if id !in db.challenges {
      return Err(ChallengeNotFound);
    }
    var c := db.challenges[id];
    if c.status != Accepted {
      return Err(NotAccepted);
    }
    var isChallenger := c.challenger == actor;
    var isChallenged := c.challenged == actor;
    if !(isChallenger || isChallenged) {
      return Err(NotParticipant);
    }
    c := WithReport(c, actor, result);
    if Reported(c.challengerResult) && Reported(c.challengedResult) {
      if c.challengerResult == c.challengedResult {
        // The exception discards the session: the report above is never committed.
        return Err(SameResult);
      }
      CompleteChallenge(db, id, c, ew, now);
    } else {
      db.challenges := db.challenges[id := c];
    }
    return Ok(());
  }
}
