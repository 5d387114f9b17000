/**
 * The chat bot's handlers. They share the database with the web endpoints but run their own
 * copy of the challenge rules: no check for an active challenge between the pair, an
 * unvalidated result token, the participant check before the status check, and a flat
 * +10 / max(0, r - 10) rating change with no match and no ledger rows. A handler answers
 * with a message instead of raising; `Reply` names which message.
 */
module TelegramBot {
  import opened Common
  import opened Models
  import opened Store
  import opened Text
  import ChallengesApi

  /** The sender of a message or callback, as the chat platform describes them. */
  datatype TgUser = TgUser(id: int, username: Option<string>, firstName: Option<string>, lastName: Option<string>)

  /** A message entity: its type ("mention", "bot_command", ...) and where it sits in the text. */
  datatype Entity = Entity(kind: string, offset: int, length: int)

  /** Which answer a handler gives. `Crashed` is a handler that raised (a malformed callback). */
  datatype Reply =
    | Help(withAdminCommands: bool)
    | Usage
    | UserUnknown(name: string)
    | CannotChallengeSelf
    | AlreadyChallengedToday
    | ChallengeCreated(id: int)
    | NoSuchChallenge
    | NotAllowed
    | NoLongerPending
    | ChallengeAccepted
    | ChallengeDeclined
    | NotRegistered
    | NotInChallenge
    | NotAcceptedYet
    | ContradictoryResults
    | MatchFinished
    | ResultRecorded(result: string)
    | NoRights
    | AlreadyAdmin(name: string)
    | NotAnAdmin(name: string)
    | AdminGranted(name: string)
    | AdminRevoked(name: string)
    | Crashed

  /** The rating a winner gets on the bot path. */
  function FlatWin(rating: int): int
  {
    rating + 10
  }

  /** The rating a loser gets on the bot path: ten points less, but never below zero. */
  function FlatLoss(rating: int): (r: int)
    ensures r >= 0
    ensures r >= rating - 10 && (rating >= 0 ==> r <= rating)
    ensures rating >= 10 ==> r == rating - 10
  {
    if rating - 10 > 0 then rating - 10 else 0
  }

  // ---------------------------------------------------------------------------------------
  // Mention extraction

  /** The text of a mention entity without its '@': `text[offset + 1 : offset + length]`. */
  function MentionText(text: string, e: Entity): string
  {
    PySlice(text, e.offset + 1, e.offset + e.length)
  }

  /** The username of the first "mention" entity, if there is one. */
  function FirstMention(text: string, entities: seq<Entity>): Option<string>
  {
    if |entities| == 0 then None
    else if entities[0].kind == "mention" then Some(MentionText(text, entities[0]))
    else FirstMention(text, entities[1..])
  }

  /** The first mention is found exactly when some entity is a mention, and it is the earliest one. */
  lemma {:induction false} FirstMentionSpec(text: string, entities: seq<Entity>)
    ensures FirstMention(text, entities).None? <==> forall i :: 0 <= i < |entities| ==> entities[i].kind != "mention"
    ensures FirstMention(text, entities).Some? ==>
      exists i :: 0 <= i < |entities| && entities[i].kind == "mention"
        && (forall j :: 0 <= j < i ==> entities[j].kind != "mention")
        && FirstMention(text, entities).value == MentionText(text, entities[i])
  {
    if |entities| > 0 && entities[0].kind != "mention" {
      FirstMentionSpec(text, entities[1..]);
      if FirstMention(text, entities[1..]).Some? {
        var i :| 0 <= i < |entities[1..]| && entities[1..][i].kind == "mention"
          && (forall j :: 0 <= j < i ==> entities[1..][j].kind != "mention")
          && FirstMention(text, entities[1..]).value == MentionText(text, entities[1..][i]);
        assert entities[i + 1] == entities[1..][i];
        assert forall j :: 1 <= j < i + 1 ==> entities[j] == entities[1..][j - 1];
      } else {
        assert forall i :: 1 <= i < |entities| ==> entities[i] == entities[1..][i - 1];
      }
    } else if |entities| > 0 {
      assert entities[0].kind == "mention";
    }
  }

  /** `@name` written at position |before| with an entity covering it yields `name`. */
  lemma MentionOfWrittenName(before: string, name: string, after: string)
    ensures MentionText(before + "@" + name + after, Entity("mention", |before|, |name| + 1)) == name
  {
    var text := before + "@" + name + after;
    assert text[|before| + 1..|before| + 1 + |name|] == name;
  }

  /** The loop in the command handlers: scan the entities, stop at the first mention. */
  method ExtractMention(text: string, entities: seq<Entity>) returns (username: Option<string>)
    ensures username == FirstMention(text, entities)
  {
    username := None;
    var i := 0;
    while i < |entities|
      invariant 0 <= i <= |entities|
      invariant FirstMention(text, entities) == FirstMention(text, entities[i..])
    {
      assert entities[i..][1..] == entities[i + 1..];
      if entities[i].kind == "mention" {
        username := Some(MentionText(text, entities[i]));
        break;
      }
      i := i + 1;
    }
  }

  // ---------------------------------------------------------------------------------------
  // Callback data

  /** `int(data.split("_")[1])`; `None` when there is no second piece or it is not a number. */
  function ParseCallbackId(data: string): Option<int>
  {
    var parts := Split(data, '_');
    if |parts| < 2 then None else ParseInt(parts[1])
  }

  /** `parts = data.split("_")`, then `int(parts[1])` and `parts[2]`; `None` when either fails. */
  function ParseResultData(data: string): Option<(int, string)>
  {
    var parts := Split(data, '_');
    if |parts| < 3 then None
    else match ParseInt(parts[1])
      case None => None
      case Some(id) => Some((id, parts[2]))
  }

  /** The callback data of a button: `f"{action}_{id}"`. */
  function ButtonData(action: string, id: int): string
  {
    action + "_" + IntToString(id)
  }

  /** The callback data of a result button: `f"result_{id}_{result}"`. */
  function ResultButtonData(id: int, result: string): string
  {
    "result_" + IntToString(id) + "_" + result
  }

  /** Accept and decline buttons carry the id back to their handler. */
  lemma ButtonDataRoundTrip(action: string, id: int)
    requires '_' !in action
    ensures ParseCallbackId(ButtonData(action, id)) == Some(id)
  {
    IntToStringChars(id);
    var parts := [action, IntToString(id)];
    assert Join(parts, '_') == ButtonData(action, id) by {
      assert parts[1..] == [IntToString(id)];
    }
    SplitJoin(parts, '_');
    ParseIntRoundTrip(id);
  }

  /** Result buttons carry the id and the result token back, for any token without '_'. */
  lemma ResultButtonRoundTrip(id: int, result: string)
    requires '_' !in result
    ensures ParseResultData(ResultButtonData(id, result)) == Some((id, result))
  {
    IntToStringChars(id);
    var parts := ["result", IntToString(id), result];
    assert Join(parts, '_') == ResultButtonData(id, result) by {
      assert parts[1..] == [IntToString(id), result];
      assert parts[1..][1..] == [result];
      assert Join(parts[1..], '_') == IntToString(id) + "_" + result;
    }
    SplitJoin(parts, '_');
    ParseIntRoundTrip(id);
  }

  // ---------------------------------------------------------------------------------------
  // Users and admins

  /**
   * What `get_or_create_user` leaves in the user table: the table as it was when a user with
   * the sender's chat id exists, and otherwise the table plus one new user built from the
   * sender's profile, at the next id.
   */
  ghost predicate SenderRegistered(before: map<int, User>, nextBefore: int, after: map<int, User>,
                                   from: TgUser, now: int)
  {
    if exists id :: id in before && before[id].telegramId == from.id then after == before
    else after == before[nextBefore := NewUser(from.id, from.username, from.firstName, from.lastName, None, now)]
  }

  /**
   * The sender cannot be registered: nobody has their chat id and it does not fit the
   * `telegram_id` column, so the insert's commit raises.
   */
  predicate RegistrationFails(db: Database, from: TgUser)
    reads db
    requires db.Valid()
  {
    db.UserByTelegramId(from.id).None? && !FitsInteger(from.id)
  }

  /** `get_or_create_user`; `None` is the exception a failed insert raises. */
  method GetOrCreateUser(db: Database, from: TgUser, now: int) returns (id: Option<int>)
    requires db.Valid()
    modifies db`users, db`nextUserId
    ensures db.Valid()
    ensures id.None? <==> old(RegistrationFails(db, from))
    ensures id.None? ==> db.users == old(db.users) && db.nextUserId == old(db.nextUserId)
    ensures id.Some? ==>
      && SenderRegistered(old(db.users), old(db.nextUserId), db.users, from, now)
      && id.value in db.users && db.users[id.value].telegramId == from.id
    ensures old(db.UserByTelegramId(from.id)).Some? ==>
      id == old(db.UserByTelegramId(from.id)) && db.nextUserId == old(db.nextUserId)
    ensures id.Some? && old(db.UserByTelegramId(from.id)).None? ==>
      id.value == old(db.nextUserId) && db.nextUserId == id.value + 1
  {
    var found := db.UserByTelegramId(from.id);
    if found.Some? {
      return found;
    }
    if !FitsInteger(from.id) {
      return None;
    }
    var u := db.nextUserId;
    db.users := db.users[u := NewUser(from.id, from.username, from.firstName, from.lastName, None, now)];
    db.nextUserId := u + 1;
    return Some(u);
  }

  /** `is_admin`: a user with this chat id exists and has the admin flag. */
  function IsAdmin(db: Database, tg: int): (r: bool)
    reads db
    requires db.Valid()
    ensures r <==> exists id :: id in db.users && db.users[id].telegramId == tg && db.users[id].isAdmin
  {
    match db.UserByTelegramId(tg)
    case None => false
    case Some(id) => db.users[id].isAdmin
  }

  // ---------------------------------------------------------------------------------------
  // /start

  /**
   * `/start`: register the sender, then answer with the help text, which lists the admin
   * commands when the sender is an admin.
   */
  method StartCommand(db: Database, from: TgUser, now: int) returns (reply: Reply)
    requires db.Valid()
    modifies db`users, db`nextUserId
    ensures db.Valid()
    ensures old(RegistrationFails(db, from)) ==>
      reply == Crashed && db.users == old(db.users) && db.nextUserId == old(db.nextUserId)
    ensures !old(RegistrationFails(db, from)) ==>
      && SenderRegistered(old(db.users), old(db.nextUserId), db.users, from, now)
      && reply == Help(IsAdmin(db, from.id))
    ensures old(db.UserByTelegramId(from.id)).None? ==> reply == Help(false) || reply == Crashed
  {
    var user := GetOrCreateUser(db, from, now);
    if user.None? {
      return Crashed;
    }
    return Help(db.users[user.value].isAdmin);
  }

  // ---------------------------------------------------------------------------------------
  // /вызов @username

  /** The checks and the insert that follow `get_or_create_user` in the challenge command. */
  method OpenChallenge(db: Database, challenger: int, name: string, now: int) returns (reply: Reply)
    requires db.Valid() && challenger in db.users
    modifies db`challenges, db`nextChallengeId
    ensures db.Valid()
    ensures ChallengesApi.ChallengesEvolve(old(db.challenges), db.challenges)
    ensures db.UserByUsername(name).None? ==> reply == UserUnknown(name)
    ensures db.UserByUsername(name) == Some(challenger) ==> reply == CannotChallengeSelf
    ensures (db.UserByUsername(name).Some? && db.UserByUsername(name) != Some(challenger)
             && ChallengesApi.CreatedToday(old(db.challenges), challenger, now))
      ==> reply == AlreadyChallengedToday
    ensures reply == AlreadyChallengedToday ==> ChallengesApi.CreatedToday(old(db.challenges), challenger, now)
    ensures (db.UserByUsername(name).Some? && db.UserByUsername(name) != Some(challenger)
             && !ChallengesApi.CreatedToday(old(db.challenges), challenger, now)) ==> reply.ChallengeCreated?
    ensures !reply.ChallengeCreated? ==> db.challenges == old(db.challenges) && db.nextChallengeId == old(db.nextChallengeId)
    ensures reply.ChallengeCreated? ==>
      && db.nextChallengeId == old(db.nextChallengeId) + 1
      && db.UserByUsername(name).Some? && db.UserByUsername(name) != Some(challenger)
      && !ChallengesApi.CreatedToday(old(db.challenges), challenger, now)
      && reply.id == old(db.nextChallengeId)
      && db.challenges == old(db.challenges)[reply.id := NewChallenge(challenger, db.UserByUsername(name).value, now)]
    ensures reply.UserUnknown? || reply == CannotChallengeSelf || reply == AlreadyChallengedToday || reply.ChallengeCreated?
  {
    var target := db.UserByUsername(name);
    if target.None? {
      return UserUnknown(name);
    }
    var challenged := target.value;
    if challenger == challenged {
      return CannotChallengeSelf;
    }
    if ChallengesApi.CreatedToday(db.challenges, challenger, now) {
      return AlreadyChallengedToday;
    }
    var id := db.nextChallengeId;
    db.challenges := db.challenges[id := NewChallenge(challenger, challenged, now)];
    db.nextChallengeId := id + 1;
    return ChallengeCreated(id);
  }

  /** True when a command has no usable `@name`: no entities, no mention, or an empty one. */
  predicate NoTarget(text: string, entities: seq<Entity>)
  {
    |entities| == 0 || FirstMention(text, entities).None? || FirstMention(text, entities) == Some("")
  }

  /**
   * The challenge command: usage without a mention; otherwise the sender is registered first
   * (even when the command then fails), and `OpenChallenge` decides.
   */
  method ChallengeCommand(db: Database, from: TgUser, text: string, entities: seq<Entity>, now: int)
    returns (reply: Reply)
    requires db.Valid()
    modifies db`users, db`nextUserId, db`challenges, db`nextChallengeId
    ensures db.Valid()
    ensures ChallengesApi.ChallengesEvolve(old(db.challenges), db.challenges)
    ensures NoTarget(text, entities) ==>
      && reply == Usage && db.users == old(db.users) && db.nextUserId == old(db.nextUserId)
      && db.challenges == old(db.challenges)
    ensures !NoTarget(text, entities) && old(RegistrationFails(db, from)) ==>
      reply == Crashed && db.users == old(db.users) && db.nextUserId == old(db.nextUserId)
    ensures !NoTarget(text, entities) && !old(RegistrationFails(db, from)) ==>
      && SenderRegistered(old(db.users), old(db.nextUserId), db.users, from, now)
      && db.UserByTelegramId(from.id).Some?
      && var challenger := db.UserByTelegramId(from.id).value;
         var name := FirstMention(text, entities).value;
         && (db.UserByUsername(name).None? ==> reply == UserUnknown(name))
         && (db.UserByUsername(name) == Some(challenger) ==> reply == CannotChallengeSelf)
         && (reply.ChallengeCreated? ==>
               && db.UserByUsername(name).Some? && db.UserByUsername(name) != Some(challenger)
               && !ChallengesApi.CreatedToday(old(db.challenges), challenger, now)
               && reply.id == old(db.nextChallengeId)
               && db.challenges == old(db.challenges)[reply.id := NewChallenge(challenger, db.UserByUsername(name).value, now)])
         && (reply == AlreadyChallengedToday ==> ChallengesApi.CreatedToday(old(db.challenges), challenger, now))
         && ((db.UserByUsername(name).Some? && db.UserByUsername(name) != Some(challenger)
              && ChallengesApi.CreatedToday(old(db.challenges), challenger, now)) ==> reply == AlreadyChallengedToday)
         && ((db.UserByUsername(name).Some? && db.UserByUsername(name) != Some(challenger)
              && !ChallengesApi.CreatedToday(old(db.challenges), challenger, now)) ==> reply.ChallengeCreated?)
    ensures !reply.ChallengeCreated? ==> db.challenges == old(db.challenges) && db.nextChallengeId == old(db.nextChallengeId)
    ensures reply.ChallengeCreated? ==> db.nextChallengeId == old(db.nextChallengeId) + 1
  {
    if |entities| == 0 {
      return Usage;
    }
    var username := ExtractMention(text, entities);
    if username.None? || username.value == "" {
      return Usage;
    }
    var challenger := GetOrCreateUser(db, from, now);
    if challenger.None? {
      return Crashed;
    }
    reply := OpenChallenge(db, challenger.value, username.value, now);
  }

  // ---------------------------------------------------------------------------------------
  // Accept, decline and result buttons

  /** The callback of the accept button (`decline` = false) or the decline button (`decline` = true). */
  method AnswerInvitation(db: Database, fromTg: int, data: string, decline: bool, now: int)
    returns (reply: Reply)
    requires db.Valid()
    modifies db`challenges
    ensures db.Valid()
    ensures ChallengesApi.ChallengesEvolve(old(db.challenges), db.challenges)
    ensures ParseCallbackId(data).None? ==> reply == Crashed
    ensures ParseCallbackId(data).Some? ==>
      var id := ParseCallbackId(data).value;
      && (id !in old(db.challenges) ==> reply == NoSuchChallenge)
      && (id in old(db.challenges) && db.UserByTelegramId(fromTg) != Some(old(db.challenges[id].challenged))
          ==> reply == NotAllowed)
      && ((id in old(db.challenges) && db.UserByTelegramId(fromTg) == Some(old(db.challenges[id].challenged))
           && old(db.challenges[id].status) != Pending) ==> reply == NoLongerPending)
      && ((id in old(db.challenges) && db.UserByTelegramId(fromTg) == Some(old(db.challenges[id].challenged))
           && old(db.challenges[id].status) == Pending)
          ==> reply == (if decline then ChallengeDeclined else ChallengeAccepted))
    ensures !(reply == ChallengeAccepted || reply == ChallengeDeclined) ==> db.challenges == old(db.challenges)
    ensures reply == ChallengeAccepted || reply == ChallengeDeclined ==>
      && ParseCallbackId(data).Some? && ParseCallbackId(data).value in old(db.challenges)
      && var id := ParseCallbackId(data).value;
         var c := old(db.challenges[id]);
         && c.status == Pending
         && db.UserByTelegramId(fromTg) == Some(c.challenged)
         && (!decline ==>
               reply == ChallengeAccepted
               && db.challenges == old(db.challenges)[id := c.(status := Accepted, acceptedAt := Some(now))])
         && (decline ==> reply == ChallengeDeclined && db.challenges == old(db.challenges)[id := c.(status := Declined)])
  {
    var parsed := ParseCallbackId(data);
    if parsed.None? {
      return Crashed;
    }
    var id := parsed.value;
    if id !in db.challenges {
      return NoSuchChallenge;
    }
    var c := db.challenges[id];
    var user := db.UserByTelegramId(fromTg);
    if user.None? || user.value != c.challenged {
      return NotAllowed;
    }
    if c.status != Pending {
      return NoLongerPending;
    }
    if decline {
      db.challenges := db.challenges[id := c.(status := Declined)];
      return ChallengeDeclined;
    }
    db.challenges := db.challenges[id := c.(status := Accepted, acceptedAt := Some(now))];
    return ChallengeAccepted;
  }

  /**
   * The bot's rating change on completion, as a relation between the user table before and
   * after: when both users exist the winner gets `FlatWin` and the loser `FlatLoss`, applied
   * one after the other; otherwise nothing moves.
   */
  ghost predicate FlatRatingEffect(before: map<int, User>, after: map<int, User>, winner: int, loser: int)
  {
    if winner in before && loser in before then
      var mid := before[winner := before[winner].(rating := FlatWin(before[winner].rating))];
      after == mid[loser := mid[loser].(rating := FlatLoss(mid[loser].rating))]
    else after == before
  }

  method FlatRatingUpdate(db: Database, winner: int, loser: int)
    requires db.Valid()
    modifies db`users
    ensures db.Valid()
    ensures FlatRatingEffect(old(db.users), db.users, winner, loser)
    ensures db.users.Keys == old(db.users.Keys)
    ensures forall id :: id in db.users ==>
      db.users[id].telegramId == old(db.users[id].telegramId) && db.users[id].username == old(db.users[id].username)
  {
    if winner in db.users && loser in db.users {
      db.users := db.users[winner := db.users[winner].(rating := FlatWin(db.users[winner].rating))];
      db.users := db.users[loser := db.users[loser].(rating := FlatLoss(db.users[loser].rating))];
    }
  }

  /** What the result handler does once the guards have passed: store the report, maybe finish. */
  method RecordReport(db: Database, id: int, u: int, result: string, now: int) returns (reply: Reply)
    requires db.Valid() && id in db.challenges && db.challenges[id].status == Accepted
    requires u == db.challenges[id].challenger || u == db.challenges[id].challenged
    modifies db`challenges, db`users
    ensures db.Valid()
    ensures ChallengesApi.ChallengesEvolve(old(db.challenges), db.challenges)
    ensures db.users.Keys == old(db.users.Keys)
    ensures forall k :: k in db.users ==> db.users[k].telegramId == old(db.users[k].telegramId)
    ensures var c := ChallengesApi.WithReport(old(db.challenges[id]), u, result);
      && (!(Reported(c.challengerResult) && Reported(c.challengedResult)) ==>
            reply == ResultRecorded(result) && db.challenges == old(db.challenges)[id := c] && db.users == old(db.users))
      && (Reported(c.challengerResult) && Reported(c.challengedResult) && c.challengerResult == c.challengedResult ==>
            reply == ContradictoryResults && db.challenges == old(db.challenges) && db.users == old(db.users))
      && (Reported(c.challengerResult) && Reported(c.challengedResult) && c.challengerResult != c.challengedResult ==>
            && reply == MatchFinished
            && db.challenges == old(db.challenges)[id := c.(status := Completed, completedAt := Some(now))]
            && FlatRatingEffect(old(db.users), db.users, ChallengesApi.WinnerOf(c), ChallengesApi.LoserOf(c)))
  {
    var c := ChallengesApi.WithReport(db.challenges[id], u, result);
    if Reported(c.challengerResult) && Reported(c.challengedResult) {
      if c.challengerResult == c.challengedResult {
        return ContradictoryResults;
      }
      FlatRatingUpdate(db, ChallengesApi.WinnerOf(c), ChallengesApi.LoserOf(c));
      db.challenges := db.challenges[id := c.(status := Completed, completedAt := Some(now))];
      return MatchFinished;
    }
    db.challenges := db.challenges[id := c];
    return ResultRecorded(result);
  }

  /** The callback of a result button: its guards, in the handler's order, then `RecordReport`. */
  method ResultCallback(db: Database, fromTg: int, data: string, now: int) returns (reply: Reply)
    requires db.Valid()
    modifies db`challenges, db`users
    ensures db.Valid()
    ensures ChallengesApi.ChallengesEvolve(old(db.challenges), db.challenges)
    ensures ParseResultData(data).None? ==> reply == Crashed
    ensures ParseResultData(data).Some? ==>
      var id := ParseResultData(data).value.0;
      var sender := old(db.UserByTelegramId(fromTg));
      && (id !in old(db.challenges) ==> reply == NoSuchChallenge)
      && (id in old(db.challenges) && sender.None? ==> reply == NotRegistered)
      && ((id in old(db.challenges) && sender.Some?
           && sender.value != old(db.challenges[id].challenger) && sender.value != old(db.challenges[id].challenged))
          ==> reply == NotInChallenge)
      && ((id in old(db.challenges) && sender.Some?
           && (sender.value == old(db.challenges[id].challenger) || sender.value == old(db.challenges[id].challenged))
           && old(db.challenges[id].status) != Accepted)
          ==> reply == NotAcceptedYet)
      && ((id in old(db.challenges) && sender.Some?
           && (sender.value == old(db.challenges[id].challenger) || sender.value == old(db.challenges[id].challenged))
           && old(db.challenges[id].status) == Accepted)
          ==> var result := ParseResultData(data).value.1;
              var c := ChallengesApi.WithReport(old(db.challenges[id]), sender.value, result);
              && (!(Reported(c.challengerResult) && Reported(c.challengedResult)) ==> reply == ResultRecorded(result))
              && ((Reported(c.challengerResult) && Reported(c.challengedResult)
                   && c.challengerResult == c.challengedResult) ==> reply == ContradictoryResults)
              && ((Reported(c.challengerResult) && Reported(c.challengedResult)
                   && c.challengerResult != c.challengedResult) ==> reply == MatchFinished))
    ensures reply == Crashed || reply == NoSuchChallenge || reply == NotRegistered || reply == NotInChallenge
            || reply == NotAcceptedYet || reply == ContradictoryResults
      ==> db.challenges == old(db.challenges) && db.users == old(db.users)
    ensures reply == MatchFinished || reply.ResultRecorded? ==>
      && ParseResultData(data).Some?
      && var (id, result) := ParseResultData(data).value;
      && id in old(db.challenges) && old(db.challenges[id].status) == Accepted
      && old(db.UserByTelegramId(fromTg)).Some?
      && var c := ChallengesApi.WithReport(old(db.challenges[id]), old(db.UserByTelegramId(fromTg)).value, result);
      && (reply.ResultRecorded? ==> reply.result == result && db.challenges == old(db.challenges)[id := c])
      && (reply == MatchFinished ==>
            && c.challengerResult != c.challengedResult
            && db.challenges == old(db.challenges)[id := c.(status := Completed, completedAt := Some(now))]
            && FlatRatingEffect(old(db.users), db.users, ChallengesApi.WinnerOf(c), ChallengesApi.LoserOf(c)))
  {
    var parsed := ParseResultData(data);
    if parsed.None? {
      return Crashed;
    }
    var (id, result) := parsed.value;
    if id !in db.challenges {
      return NoSuchChallenge;
    }
    var user := db.UserByTelegramId(fromTg);
    if user.None? {
      return NotRegistered;
    }
    var u := user.value;
    var c := db.challenges[id];
    if !(c.challenger == u || c.challenged == u) {
      return NotInChallenge;
    }
    if c.status != Accepted {
      return NotAcceptedYet;
    }
    reply := RecordReport(db, id, u, result, now);
  }

  // ---------------------------------------------------------------------------------------
  // /addadmin and /removeadmin

  /** `/addadmin @name` (`grant` = true) and `/removeadmin @name` (`grant` = false). */
  method SetAdminCommand(db: Database, fromTg: int, text: string, entities: seq<Entity>, grant: bool)
    returns (reply: Reply)
    requires db.Valid()
    modifies db`users
    ensures db.Valid()
    ensures !old(IsAdmin(db, fromTg)) ==> reply == NoRights
    ensures old(IsAdmin(db, fromTg))
      && (|entities| == 0 || FirstMention(text, entities).None? || FirstMention(text, entities) == Some(""))
      ==> reply == Usage
    ensures reply.UserUnknown? ==>
      && old(IsAdmin(db, fromTg)) && FirstMention(text, entities) == Some(reply.name)
      && old(db.UserByUsername(reply.name)).None?
    ensures (old(IsAdmin(db, fromTg)) && |entities| > 0 && FirstMention(text, entities).Some?
             && FirstMention(text, entities) != Some("")) ==>
      var name := FirstMention(text, entities).value;
      var target := old(db.UserByUsername(name));
      && (target.None? ==> reply == UserUnknown(name))
      && (target.Some? && old(db.users[target.value].isAdmin) == grant ==>
            reply == (if grant then AlreadyAdmin(name) else NotAnAdmin(name)))
      && (target.Some? && old(db.users[target.value].isAdmin) != grant ==>
            reply == (if grant then AdminGranted(name) else AdminRevoked(name)))
    ensures reply.AlreadyAdmin? || reply.NotAnAdmin? ==>
      && old(db.UserByUsername(reply.name)).Some?
      && old(db.users[db.UserByUsername(reply.name).value].isAdmin) == grant
      && (reply.AlreadyAdmin? <==> grant)
    ensures !(reply.AdminGranted? || reply.AdminRevoked?) ==> db.users == old(db.users)
    ensures reply.AdminGranted? || reply.AdminRevoked? ==>
      && old(IsAdmin(db, fromTg))
      && FirstMention(text, entities) == Some(reply.name)
      && old(db.UserByUsername(reply.name)).Some?
      && var t := old(db.UserByUsername(reply.name)).value;
      && old(db.users[t].isAdmin) != grant
      && db.users == old(db.users)[t := old(db.users[t]).(isAdmin := grant)]
      && (reply.AdminGranted? <==> grant)
  {
    if !IsAdmin(db, fromTg) {
      return NoRights;
    }
    if |entities| == 0 {
      return Usage;
    }
    var username := ExtractMention(text, entities);
    if username.None? || username.value == "" {
      return Usage;
    }
    reply := SetAdminFlag(db, username.value, grant);
  }

  /** The lookup and the flag change that follow a valid `/addadmin` or `/removeadmin` mention. */
  method SetAdminFlag(db: Database, name: string, grant: bool) returns (reply: Reply)
    requires db.Valid()
    modifies db`users
    ensures db.Valid()
    ensures var target := old(db.UserByUsername(name));
      && (target.None? ==> reply == UserUnknown(name) && db.users == old(db.users))
      && (target.Some? && old(db.users[target.value].isAdmin) == grant ==>
            reply == (if grant then AlreadyAdmin(name) else NotAnAdmin(name)) && db.users == old(db.users))
      && (target.Some? && old(db.users[target.value].isAdmin) != grant ==>
            && reply == (if grant then AdminGranted(name) else AdminRevoked(name))
            && db.users == old(db.users)[target.value := old(db.users[target.value]).(isAdmin := grant)])
  {
    var target := db.UserByUsername(name);
    if target.None? {
      return UserUnknown(name);
    }
    var t := target.value;
    if db.users[t].isAdmin == grant {
      return if grant then AlreadyAdmin(name) else NotAnAdmin(name);
    }
    db.users := db.users[t := db.users[t].(isAdmin := grant)];
    return if grant then AdminGranted(name) else AdminRevoked(name);
  }

  // ---------------------------------------------------------------------------------------
  // /challenges listing

  /** The status column as stored. */
  function StatusName(s: ChallengeStatus): string
  {
    match s
    case Pending => "pending"
    case Accepted => "accepted"
    case Declined => "declined"
    case Completed => "completed"
  }

  const UnknownStatusEmoji: string := "\U{2753}"

  /** The emoji shown beside a challenge in the listing, with a question mark for anything else. */
  function StatusEmoji(status: string): string
  {
    if status == "pending" then "\U{23F3}"
    else if status == "accepted" then "\U{2705}"
    else if status == "declined" then "\U{274C}"
    else if status == "completed" then "\U{1F3C6}"
    else UnknownStatusEmoji
  }

  /** Every status the handlers write has its own emoji; only other strings get the question mark. */
  lemma StatusEmojiDistinct(s: ChallengeStatus, t: ChallengeStatus, other: string)
    requires other !in {"pending", "accepted", "declined", "completed"}
    ensures StatusEmoji(StatusName(s)) != UnknownStatusEmoji
    ensures StatusEmoji(StatusName(s)) == StatusEmoji(StatusName(t)) ==> s == t
    ensures StatusEmoji(other) == UnknownStatusEmoji
  {
  }
}
