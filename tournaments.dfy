/**
 * The tournament endpoints: admins create tournaments at a spot, users register while a
 * tournament is open, and an admin starts it, which pairs the shuffled participants for a
 * single-elimination first round. The shuffle is an input: any permutation of the
 * registered user ids.
 */
module TournamentsApi {
  import opened Common
  import opened Models
  import opened Store

  const CreateForbidden := HttpError(403, "Only administrators can create tournaments")
  const StartForbidden := HttpError(403, "Only administrators can start tournaments")
  const SpotNotFound := HttpError(404, "Spot not found")
  const TournamentNotFound := HttpError(404, "Tournament not found")
  const RegistrationClosed := HttpError(400, "Tournament is not open for registration")
  const AlreadyRegistered := HttpError(400, "Already registered for this tournament")
  const NotOpen := HttpError(400, "Tournament is not open")
  const TooFewParticipants := HttpError(400, "Need at least 2 participants to start tournament")

  /** `is_admin`: the user exists and carries the admin flag. */
  predicate IsAdmin(users: map<int, User>, userId: int)
  {
    userId in users && users[userId].isAdmin
  }

  /** The user ids registered for `tid`, in registration order. */
  function ParticipantIds(participants: seq<Participant>, tid: int): (ids: seq<int>)
    ensures |ids| <= |participants|
    ensures forall u :: u in ids <==>
      (exists i :: 0 <= i < |participants| && participants[i].tournamentId == tid && participants[i].userId == u)
  {
    if |participants| == 0 then []
    else
      var rest := ParticipantIds(participants[..|participants| - 1], tid);
      var last := participants[|participants| - 1];
      assert forall i :: 0 <= i < |participants| - 1 ==> participants[..|participants| - 1][i] == participants[i];
      if last.tournamentId == tid then rest + [last.userId] else rest
  }

  /** Whether `userId` is registered for `tid`. */
  predicate Registered(participants: seq<Participant>, tid: int, userId: int)
  {
    exists i :: 0 <= i < |participants| && participants[i].tournamentId == tid && participants[i].userId == userId
  }

  predicate Distinct(ids: seq<int>)
  {
    forall i, j :: 0 <= i < j < |ids| ==> ids[i] != ids[j]
  }

  /** Unique registrations make the participant list of every tournament free of repeats. */
  lemma {:induction false} ParticipantIdsDistinct(participants: seq<Participant>, tid: int)
    requires UniqueRegistrations(participants)
    ensures Distinct(ParticipantIds(participants, tid))
  {
    if |participants| > 0 {
      var init := participants[..|participants| - 1];
      var last := participants[|participants| - 1];
      assert UniqueRegistrations(init) by {
        forall i, j | 0 <= i < j < |init|
          ensures init[i].tournamentId != init[j].tournamentId || init[i].userId != init[j].userId
        {
          assert init[i] == participants[i] && init[j] == participants[j];
        }
      }
      ParticipantIdsDistinct(init, tid);
      if last.tournamentId == tid {
        assert !Registered(init, tid, last.userId) by {
          forall i | 0 <= i < |init| && init[i].tournamentId == tid
            ensures init[i].userId != last.userId
          {
            assert init[i] == participants[i];
          }
        }
        var rest := ParticipantIds(init, tid);
        assert ParticipantIds(participants, tid) == rest + [last.userId];
        assert last.userId !in rest;
      }
    }
  }

  /** Registering a user who is not yet registered keeps registrations unique. */
  lemma RegisterKeepsUnique(participants: seq<Participant>, p: Participant)
    requires UniqueRegistrations(participants) && !Registered(participants, p.tournamentId, p.userId)
    ensures UniqueRegistrations(participants + [p])
  {
    var ps := participants + [p];
    forall i, j | 0 <= i < j < |ps|
      ensures ps[i].tournamentId != ps[j].tournamentId || ps[i].userId != ps[j].userId
    {
      if j == |participants| {
        assert ps[i] == participants[i];
      } else {
        assert ps[i] == participants[i] && ps[j] == participants[j];
      }
    }
  }

  /** POST /tournaments, acting as `actor`. */
  method CreateTournament(db: Database, actor: int, title: string, spotId: int, when: int,
                          description: Option<string>, now: int) returns (r: Result<int>)
    requires db.Valid()
    modifies db`tournaments, db`nextTournamentId
    ensures db.Valid()
    ensures !IsAdmin(db.users, actor) ==> r == Err(CreateForbidden)
    ensures IsAdmin(db.users, actor) && spotId !in db.locations ==> r == Err(SpotNotFound)
    ensures r.Ok? <==> IsAdmin(db.users, actor) && spotId in db.locations
    ensures r.Err? ==> db.tournaments == old(db.tournaments) && db.nextTournamentId == old(db.nextTournamentId)
    ensures r.Ok? ==>
      && r.value == old(db.nextTournamentId) && r.value !in old(db.tournaments)
      && db.nextTournamentId == r.value + 1
      && db.tournaments == old(db.tournaments)[r.value := Tournament(title, spotId, when, description, actor, Open, now)]
  {
    if !IsAdmin(db.users, actor) {
      return Err(CreateForbidden);
    }
    if spotId !in db.locations {
      return Err(SpotNotFound);
    }
    var id := db.nextTournamentId;
    db.tournaments := db.tournaments[id := Tournament(title, spotId, when, description, actor, Open, now)];
    db.nextTournamentId := id + 1;
    return Ok(id);
  }

  /** POST /tournaments/{id}/join, acting as `actor`. */
  method JoinTournament(db: Database, actor: int, tid: int, now: int) returns (r: Result<()>)
    requires db.Valid()
    modifies db`participants
    ensures db.Valid()
    ensures tid !in db.tournaments ==> r == Err(TournamentNotFound)
    ensures tid in db.tournaments && db.tournaments[tid].status != Open ==> r == Err(RegistrationClosed)
    ensures (tid in db.tournaments && db.tournaments[tid].status == Open
             && Registered(old(db.participants), tid, actor)) ==> r == Err(AlreadyRegistered)
    ensures r.Ok? <==> (tid in db.tournaments && db.tournaments[tid].status == Open
                        && !Registered(old(db.participants), tid, actor))
    ensures r.Err? ==> db.participants == old(db.participants)
    ensures r.Ok? ==>
      db.participants == old(db.participants) + [Participant(tid, actor, None, now)]
  {
    if tid !in db.tournaments {
      return Err(TournamentNotFound);
    }
    if db.tournaments[tid].status != Open {
      return Err(RegistrationClosed);
    }
    if exists i :: 0 <= i < |db.participants| && db.participants[i].tournamentId == tid && db.participants[i].userId == actor {
      return Err(AlreadyRegistered);
    }
    RegisterKeepsUnique(db.participants, Participant(tid, actor, None, now));
    db.participants := db.participants + [Participant(tid, actor, None, now)];
    return Ok(());
  }

  // ---------------------------------------------------------------------------------------
  // Bracket

  /** The first round: shuffled positions 2k and 2k + 1 play each other. */
  function Pairs(ids: seq<int>): (pairs: seq<(int, int)>)
  {
    if |ids| < 2 then [] else [(ids[0], ids[1])] + Pairs(ids[2..])
  }

  /** ⌊n/2⌋ pairs, the k-th made of positions 2k and 2k + 1. */
  lemma {:induction false} PairsShape(ids: seq<int>)
    ensures |Pairs(ids)| == |ids| / 2
    ensures forall k :: 0 <= k < |ids| / 2 ==> Pairs(ids)[k] == (ids[2 * k], ids[2 * k + 1])
  {
    if |ids| >= 2 {
      PairsShape(ids[2..]);
      forall k | 1 <= k < |ids| / 2
        ensures Pairs(ids)[k] == (ids[2 * k], ids[2 * k + 1])
      {
        assert Pairs(ids)[k] == Pairs(ids[2..])[k - 1];
        assert ids[2..][2 * (k - 1)] == ids[2 * k];
        assert ids[2..][2 * (k - 1) + 1] == ids[2 * k + 1];
      }
    }
  }

  /**
   * With distinct ids, nobody plays themselves and nobody is in two first-round matches; every
   * id before the last even position is matched; when n is odd the last id is not.
   */
  lemma PairsPartition(ids: seq<int>)
    requires Distinct(ids)
    ensures forall k :: 0 <= k < |Pairs(ids)| ==> Pairs(ids)[k].0 != Pairs(ids)[k].1
    ensures forall k, l :: 0 <= k < l < |Pairs(ids)| ==>
      && Pairs(ids)[k].0 != Pairs(ids)[l].0 && Pairs(ids)[k].0 != Pairs(ids)[l].1
      && Pairs(ids)[k].1 != Pairs(ids)[l].0 && Pairs(ids)[k].1 != Pairs(ids)[l].1
    ensures forall i :: 0 <= i < |ids| / 2 * 2 ==>
      exists k :: 0 <= k < |Pairs(ids)| && (ids[i] == Pairs(ids)[k].0 || ids[i] == Pairs(ids)[k].1)
    ensures |ids| % 2 == 1 ==>
      forall k :: 0 <= k < |Pairs(ids)| ==> ids[|ids| - 1] != Pairs(ids)[k].0 && ids[|ids| - 1] != Pairs(ids)[k].1
  {
    PairsShape(ids);
    forall i | 0 <= i < |ids| / 2 * 2
      ensures exists k :: 0 <= k < |Pairs(ids)| && (ids[i] == Pairs(ids)[k].0 || ids[i] == Pairs(ids)[k].1)
    {
      var k := i / 2;
      assert ids[i] == Pairs(ids)[k].0 || ids[i] == Pairs(ids)[k].1;
    }
  }

  /** The match created for a first-round pair: unrated, tagged with the tournament, undecided. */
  function BracketMatch(pair: (int, int), tid: int, now: int): Match
  {
    Match(pair.0, pair.1, None, None, None, None, false, Some(tid), now)
  }

  /** `m` with `rows[k]` inserted at id `first + k`. */
  function Inserted<V>(m: map<int, V>, first: int, rows: seq<V>): map<int, V>
  {
    if |rows| == 0 then m
    else Inserted(m, first, rows[..|rows| - 1])[first + |rows| - 1 := rows[|rows| - 1]]
  }

  lemma {:induction false} InsertedContents<V>(m: map<int, V>, first: int, rows: seq<V>)
    requires forall id :: id in m ==> id < first
    ensures forall id :: id in Inserted(m, first, rows) <==> id in m || first <= id < first + |rows|
    ensures forall id :: id in m ==> Inserted(m, first, rows)[id] == m[id]
    ensures forall k :: 0 <= k < |rows| ==> Inserted(m, first, rows)[first + k] == rows[k]
  {
    if |rows| > 0 {
      InsertedContents(m, first, rows[..|rows| - 1]);
      assert forall k :: 0 <= k < |rows| - 1 ==> rows[..|rows| - 1][k] == rows[k];
    }
  }

  /** The matches of the first round, in pairing order. */
  function BracketMatches(ids: seq<int>, tid: int, now: int): seq<Match>
  {
    seq(|Pairs(ids)|, k requires 0 <= k < |Pairs(ids)| => BracketMatch(Pairs(ids)[k], tid, now))
  }

  /** `generate_tournament_bracket` after the shuffle: one match per pair of positions. */
  method GenerateBracket(db: Database, tid: int, shuffled: seq<int>, now: int)
    requires db.Valid()
    modifies db`matches, db`nextMatchId
    ensures db.Valid()
    ensures db.nextMatchId == old(db.nextMatchId) + |shuffled| / 2
    ensures db.matches == Inserted(old(db.matches), old(db.nextMatchId), BracketMatches(shuffled, tid, now))
  {
    PairsShape(shuffled);
    ghost var first := db.nextMatchId;
    ghost var before := db.matches;
    ghost var all := BracketMatches(shuffled, tid, now);
    ghost var k, made := 0, 0;
    var i := 0;
    while i < |shuffled|
      invariant 0 <= i <= |shuffled| + 1 && i == 2 * k && 0 <= made <= k
      invariant i <= |shuffled| ==> made == k
      invariant i == |shuffled| + 1 ==> made == k - 1
      invariant first >= 1 && made <= |all|
      invariant db.nextMatchId == first + made
      invariant db.matches == Inserted(before, first, all[..made])
      invariant IdsBelow(db.matches, db.nextMatchId)
    {
      if i + 1 < |shuffled| {
        var row := BracketMatch((shuffled[i], shuffled[i + 1]), tid, now);
        assert all[..made + 1][..made] == all[..made];
        assert all[..made + 1][made] == row;
        db.matches := db.matches[db.nextMatchId := row];
        db.nextMatchId := db.nextMatchId + 1;
        made := made + 1;
      }
      i := i + 2;
      k := k + 1;
    }
    Halves(|shuffled|, k);
    assert all[..made] == all;
  }

  /** Stepping by two from 0 past `n` stops at `n` or `n + 1`, after `n / 2` full pairs. */
  lemma Halves(n: nat, k: nat)
    ensures 2 * k == n ==> n / 2 == k
    ensures 2 * k == n + 1 ==> n / 2 == k - 1
  {
  }

  /** POST /tournaments/{id}/start, acting as `actor`, with `shuffled` the shuffle's outcome. */
  method StartTournament(db: Database, actor: int, tid: int, shuffled: seq<int>, now: int) returns (r: Result<()>)
    requires db.Valid()
    requires multiset(shuffled) == multiset(ParticipantIds(db.participants, tid))
    modifies db`tournaments, db`matches, db`nextMatchId
    ensures db.Valid()
    ensures !IsAdmin(db.users, actor) ==> r == Err(StartForbidden)
    ensures IsAdmin(db.users, actor) && tid !in old(db.tournaments) ==> r == Err(TournamentNotFound)
    ensures (IsAdmin(db.users, actor) && tid in old(db.tournaments)
             && old(db.tournaments[tid].status) != Open) ==> r == Err(NotOpen)
    ensures (IsAdmin(db.users, actor) && tid in old(db.tournaments) && old(db.tournaments[tid].status) == Open
             && |ParticipantIds(db.participants, tid)| < 2) ==> r == Err(TooFewParticipants)
    ensures r.Ok? <==> (IsAdmin(db.users, actor) && tid in old(db.tournaments)
                        && old(db.tournaments[tid].status) == Open && |ParticipantIds(db.participants, tid)| >= 2)
    ensures r.Err? ==>
      db.tournaments == old(db.tournaments) && db.matches == old(db.matches) && db.nextMatchId == old(db.nextMatchId)
    ensures r.Ok? ==>
      && db.nextMatchId == old(db.nextMatchId) + |ParticipantIds(db.participants, tid)| / 2
      && db.tournaments == old(db.tournaments)[tid := old(db.tournaments[tid]).(status := Started)]
      && db.matches == Inserted(old(db.matches), old(db.nextMatchId), BracketMatches(shuffled, tid, now))
  {
    if !IsAdmin(db.users, actor) {
      return Err(StartForbidden);
    }
    if tid !in db.tournaments {
      return Err(TournamentNotFound);
    }
    if db.tournaments[tid].status != Open {
      return Err(NotOpen);
    }
    if |ParticipantIds(db.participants, tid)| < 2 {
      return Err(TooFewParticipants);
    }
    assert |shuffled| == |multiset(shuffled)| == |ParticipantIds(db.participants, tid)|;
    GenerateBracket(db, tid, shuffled, now);
    db.tournaments := db.tournaments[tid := db.tournaments[tid].(status := Started)];
    return Ok(());
  }

  /**
   * Whatever the shuffle, the first round of a started tournament pairs registered users only,
   * each at most once, with ⌊n/2⌋ matches that are unrated and carry the tournament's id.
   */
  lemma BracketOfParticipants(participants: seq<Participant>, tid: int, shuffled: seq<int>, now: int)
    requires UniqueRegistrations(participants)
    requires multiset(shuffled) == multiset(ParticipantIds(participants, tid))
    ensures |BracketMatches(shuffled, tid, now)| == |ParticipantIds(participants, tid)| / 2
    ensures forall k :: 0 <= k < |BracketMatches(shuffled, tid, now)| ==>
      var m := BracketMatches(shuffled, tid, now)[k];
      && Registered(participants, tid, m.player1) && Registered(participants, tid, m.player2)
      && m.player1 != m.player2
      && !m.isRated && m.tournamentId == Some(tid) && m.winner.None? && m.loser.None?
  {
    var ids := ParticipantIds(participants, tid);
    ParticipantIdsDistinct(participants, tid);
    ShuffleDistinct(ids, shuffled);
    PairsShape(shuffled);
    PairsPartition(shuffled);
    forall k | 0 <= k < |BracketMatches(shuffled, tid, now)|
      ensures Registered(participants, tid, BracketMatches(shuffled, tid, now)[k].player1)
      ensures Registered(participants, tid, BracketMatches(shuffled, tid, now)[k].player2)
    {
      assert BracketMatches(shuffled, tid, now)[k].player1 == shuffled[2 * k];
      assert BracketMatches(shuffled, tid, now)[k].player2 == shuffled[2 * k + 1];
      assert shuffled[2 * k] in multiset(ids) && shuffled[2 * k + 1] in multiset(ids);
      assert shuffled[2 * k] in ids && shuffled[2 * k + 1] in ids;
    }
  }

  /** A shuffle of a list without repeats has the same length and no repeats either. */
  lemma ShuffleDistinct(ids: seq<int>, shuffled: seq<int>)
    requires Distinct(ids) && multiset(shuffled) == multiset(ids)
    ensures |shuffled| == |ids| && Distinct(shuffled)
  {
    assert |shuffled| == |ids| by {
      assert |multiset(shuffled)| == |multiset(ids)|;
    }
    forall i, j | 0 <= i < j < |shuffled| ensures shuffled[i] != shuffled[j] {
      if shuffled[i] == shuffled[j] {
        DuplicateCount(shuffled, i, j);
        DistinctCount(ids, shuffled[i]);
      }
    }
  }

  /** Two equal entries at different positions count at least twice. */
  lemma {:induction false} DuplicateCount(s: seq<int>, i: int, j: int)
    requires 0 <= i < j < |s| && s[i] == s[j]
    ensures multiset(s)[s[i]] >= 2
  {
    assert s == s[..i] + [s[i]] + s[i + 1..j] + [s[j]] + s[j + 1..];
  }

  /** In a sequence without repeats every value counts at most once. */
  lemma {:induction false} DistinctCount(s: seq<int>, v: int)
    requires Distinct(s)
    ensures multiset(s)[v] <= 1
  {
    if |s| > 0 {
      var init := s[..|s| - 1];
      assert s == init + [s[|s| - 1]];
      assert Distinct(init);
      DistinctCount(init, v);
      if s[|s| - 1] == v {
        assert v !in init;
      }
    }
  }
}
