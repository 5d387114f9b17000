/**
 * The authentication endpoints: the Telegram Login Widget check and the user upsert of
 * POST /auth/telegram, the leaderboard and a user's rating history.
 *
 * The widget's JSON object is a `Dict`: its entries in order, no key twice. The HMAC-SHA256
 * of the check is the parameter `sign`: `sign(token, message)` is the hex digest of `message`
 * under the SHA-256 of the bot token. The environment variables are parameters too, `None`
 * when unset.
 */
module AuthApi {
  import opened Common
  import opened Models
  import opened Store
  import opened Text

  const TokenNotConfigured := HttpError(500, "Bot token not configured")
  const InvalidSignature := HttpError(400, "Invalid Telegram signature")

  /** The JSON values the widget sends: strings, integers and null. */
  datatype JsonValue = JStr(s: string) | JInt(i: int) | JNull

  /** `str(v)`, as an f-string renders the value. */
  function Show(v: JsonValue): string
  {
    match v
    case JStr(s) => s
    case JInt(i) => IntToString(i)
    case JNull => "None"
  }

  type Entry = (string, JsonValue)

  predicate DistinctKeys(items: seq<Entry>)
  {
    forall i, j :: 0 <= i < j < |items| ==> items[i].0 != items[j].0
  }

  /** A parsed JSON object: its entries in order, no key twice. */
  type Dict = items: seq<Entry> | DistinctKeys(items) witness []

  predicate HasKey(items: seq<Entry>, k: string)
  {
    exists i :: 0 <= i < |items| && items[i].0 == k
  }

  /** `d.get(k)`. */
  function Get(items: seq<Entry>, k: string): (r: Option<JsonValue>)
    ensures r.None? <==> !HasKey(items, k)
    ensures r.Some? ==> exists i :: 0 <= i < |items| && items[i] == (k, r.value)
  {
    if |items| == 0 then None
    else if items[0].0 == k then Some(items[0].1)
    else
      var r := Get(items[1..], k);
      assert forall i :: 0 <= i < |items| - 1 ==> items[1..][i] == items[i + 1];
      assert items[0].0 != k ==> (HasKey(items, k) <==> HasKey(items[1..], k)) by {
        if HasKey(items, k) && items[0].0 != k {
          var i :| 0 <= i < |items| && items[i].0 == k;
          assert items[1..][i - 1] == items[i];
        }
      }
      r
  }

  // ---------------------------------------------------------------------------------------
  // Python's ordering of strings

  /** `a < b` on Python strings: code point by code point, a proper prefix first. */
  predicate LexLess(a: string, b: string)
  {
    |b| > 0 && (|a| == 0 || a[0] < b[0] || (a[0] == b[0] && LexLess(a[1..], b[1..])))
  }

  lemma {:induction false} LexIrreflexive(a: string)
    ensures !LexLess(a, a)
  {
    if |a| > 0 {
      LexIrreflexive(a[1..]);
    }
  }

  lemma {:induction false} LexTransitive(a: string, b: string, c: string)
    requires LexLess(a, b) && LexLess(b, c)
    ensures LexLess(a, c)
  {
    if |a| > 0 && a[0] == b[0] && b[0] == c[0] {
      LexTransitive(a[1..], b[1..], c[1..]);
    }
  }

  lemma {:induction false} LexTotal(a: string, b: string)
    requires a != b
    ensures LexLess(a, b) || LexLess(b, a)
  {
    if |a| > 0 && |b| > 0 && a[0] == b[0] {
      assert a == [a[0]] + a[1..] && b == [b[0]] + b[1..];
      LexTotal(a[1..], b[1..]);
    }
  }

  lemma LexAsymmetric(a: string, b: string)
    requires LexLess(a, b)
    ensures !LexLess(b, a)
  {
    if LexLess(b, a) {
      LexTransitive(a, b, a);
      LexIrreflexive(a);
    }
  }

  // ---------------------------------------------------------------------------------------
  // sorted(auth_data.items())

  /** Keys strictly ascending: the order `sorted` gives entries with distinct keys. */
  predicate KeySorted(items: seq<Entry>)
  {
    forall i, j :: 0 <= i < j < |items| ==> LexLess(items[i].0, items[j].0)
  }

  function Insert(x: Entry, items: seq<Entry>): seq<Entry>
  {
    if |items| == 0 then [x]
    else if LexLess(x.0, items[0].0) then [x] + items
    else [items[0]] + Insert(x, items[1..])
  }

  /** The entries in key order. */
  function SortByKey(items: seq<Entry>): seq<Entry>
  {
    if |items| == 0 then [] else Insert(items[0], SortByKey(items[1..]))
  }

  lemma {:induction false} InsertMultiset(x: Entry, items: seq<Entry>)
    ensures multiset(Insert(x, items)) == multiset(items) + multiset{x}
  {
    if |items| > 0 && !LexLess(x.0, items[0].0) {
      InsertMultiset(x, items[1..]);
      assert items == [items[0]] + items[1..];
    }
  }

  lemma {:induction false} InsertSpec(x: Entry, items: seq<Entry>)
    requires KeySorted(items)
    requires forall i :: 0 <= i < |items| ==> items[i].0 != x.0
    ensures multiset(Insert(x, items)) == multiset(items) + multiset{x}
    ensures KeySorted(Insert(x, items))
  {
    InsertMultiset(x, items);
    if |items| > 0 && !LexLess(x.0, items[0].0) {
      var rest := items[1..];
      InsertSpec(x, rest);
      LexTotal(x.0, items[0].0);
      var r := Insert(x, rest);
      InsertHead(items[0], r, x, rest);
    } else if |items| > 0 {
      forall j | 0 < j < |items| ensures LexLess(x.0, items[j].0) {
        LexTransitive(x.0, items[0].0, items[j].0);
      }
    }
  }

  /** `[h] + r` is key-sorted when `r` is and holds only `x` and entries after `h` in `rest`. */
  lemma InsertHead(h: Entry, r: seq<Entry>, x: Entry, rest: seq<Entry>)
    requires KeySorted(r) && KeySorted([h] + rest)
    requires multiset(r) == multiset(rest) + multiset{x}
    requires LexLess(h.0, x.0)
    ensures KeySorted([h] + r)
  {
    forall j | 0 <= j < |r| ensures LexLess(h.0, r[j].0) {
      assert r[j] in multiset(r);
      if r[j] != x {
        assert r[j] in multiset(rest);
        var m :| 0 <= m < |rest| && rest[m] == r[j];
        assert ([h] + rest)[0] == h && ([h] + rest)[m + 1] == r[j];
      }
    }
  }

  lemma {:induction false} SortByKeySpec(items: seq<Entry>)
    requires DistinctKeys(items)
    ensures multiset(SortByKey(items)) == multiset(items)
    ensures KeySorted(SortByKey(items))
  {
    if |items| > 0 {
      var rest := items[1..];
      assert items == [items[0]] + rest;
      assert DistinctKeys(rest) by {
        forall i, j | 0 <= i < j < |rest| ensures rest[i].0 != rest[j].0 {
          assert rest[i] == items[i + 1] && rest[j] == items[j + 1];
        }
      }
      SortByKeySpec(rest);
      var s := SortByKey(rest);
      forall i | 0 <= i < |s| ensures s[i].0 != items[0].0 {
        assert s[i] in multiset(rest);
        var m :| 0 <= m < |rest| && rest[m] == s[i];
        assert items[m + 1] == s[i];
      }
      InsertSpec(items[0], s);
    }
  }

  /** Two key-sorted sequences with the same entries are the same sequence. */
  lemma {:induction false} KeySortedUnique(a: seq<Entry>, b: seq<Entry>)
    requires KeySorted(a) && KeySorted(b)
    requires multiset(a) == multiset(b)
    ensures a == b
  {
    if |a| == 0 {
      assert |multiset(b)| == 0;
    } else {
      assert |b| == |multiset(b)| == |multiset(a)| == |a|;
      assert a[0] in multiset(b) && b[0] in multiset(a);
      if a[0] != b[0] {
        var j :| 0 <= j < |b| && b[j] == a[0];
        var i :| 0 <= i < |a| && a[i] == b[0];
        assert LexLess(b[0].0, a[0].0);
        assert LexLess(a[0].0, b[0].0);
        LexAsymmetric(a[0].0, b[0].0);
      }
      assert a == [a[0]] + a[1..] && b == [b[0]] + b[1..];
      assert multiset(a) == multiset{a[0]} + multiset(a[1..]);
      assert multiset(b) == multiset{b[0]} + multiset(b[1..]);
      assert a[0] == b[0];
      assert multiset(a[1..]) == multiset(a) - multiset{a[0]};
      assert multiset(b[1..]) == multiset(b) - multiset{b[0]};
      KeySortedUnique(a[1..], b[1..]);
    }
  }

  // ---------------------------------------------------------------------------------------
  // check_telegram_auth

  /** `auth_data.pop("hash", None)` on a copy: the entries without the "hash" key. */
  function WithoutHash(items: seq<Entry>): (r: seq<Entry>)
    ensures forall i :: 0 <= i < |r| ==> r[i].0 != "hash"
  {
    if |items| == 0 then []
    else
      var last := items[|items| - 1];
      WithoutHash(items[..|items| - 1]) + (if last.0 == "hash" then [] else [last])
  }

  /** Dropping the "hash" entry keeps exactly the other entries. */
  lemma {:induction false} WithoutHashCount(items: seq<Entry>, x: Entry)
    ensures multiset(WithoutHash(items))[x] == if x.0 == "hash" then 0 else multiset(items)[x]
  {
    if |items| > 0 {
      var n := |items| - 1;
      WithoutHashCount(items[..n], x);
      assert items == items[..n] + [items[n]];
    }
  }

  lemma {:induction false} WithoutHashDistinct(items: seq<Entry>)
    requires DistinctKeys(items)
    ensures DistinctKeys(WithoutHash(items))
  {
    if |items| > 0 {
      var n := |items| - 1;
      var init := items[..n];
      assert DistinctKeys(init) by {
        forall i, j | 0 <= i < j < n ensures init[i].0 != init[j].0 {
          assert init[i] == items[i] && init[j] == items[j];
        }
      }
      WithoutHashDistinct(init);
      var w := WithoutHash(init);
      forall i | 0 <= i < |w| ensures w[i].0 != items[n].0 {
        WithoutHashCount(init, w[i]);
        assert w[i] in multiset(w);
        var m :| 0 <= m < n && init[m] == w[i];
      }
    }
  }

  /** The line `f"{k}={v}"` of one entry. */
  function Line(e: Entry): string
  {
    e.0 + "=" + Show(e.1)
  }

  function Lines(items: seq<Entry>): (r: seq<string>)
    ensures |r| == |items|
  {
    seq(|items|, i requires 0 <= i < |items| => Line(items[i]))
  }

  /** The data-check-string: the entries other than "hash", in key order, one `k=v` line each. */
  function DataCheckString(d: Dict): string
  {
    Join(Lines(SortByKey(WithoutHash(d))), '\n')
  }

  /**
   * The string signs the entries, not their order: two objects with the same entries in any
   * order give the same string, and its lines are those entries (except "hash") in key order.
   */
  lemma DataCheckStringOrderFree(a: Dict, b: Dict)
    requires multiset(a) == multiset(b)
    ensures DataCheckString(a) == DataCheckString(b)
  {
    var wa, wb := WithoutHash(a), WithoutHash(b);
    assert multiset(wa) == multiset(wb) by {
      forall x ensures multiset(wa)[x] == multiset(wb)[x] {
        WithoutHashCount(a, x);
        WithoutHashCount(b, x);
      }
    }
    WithoutHashDistinct(a);
    WithoutHashDistinct(b);
    SortByKeySpec(wa);
    SortByKeySpec(wb);
    KeySortedUnique(SortByKey(wa), SortByKey(wb));
  }

  /** The lines of the string are the non-"hash" entries, each once, in strictly ascending key order. */
  lemma DataCheckStringLines(d: Dict)
    ensures var s := SortByKey(WithoutHash(d));
      && DataCheckString(d) == Join(Lines(s), '\n')
      && KeySorted(s)
      && (forall x :: x in multiset(s) <==> x in multiset(d) && x.0 != "hash")
  {
    var w := WithoutHash(d);
    WithoutHashDistinct(d);
    SortByKeySpec(w);
    forall x ensures x in multiset(SortByKey(w)) <==> x in multiset(d) && x.0 != "hash" {
      WithoutHashCount(d, x);
    }
  }

  /** A "hash" entry added to an object does not change the string it signs. */
  lemma HashNotSigned(d: Dict, h: JsonValue)
    requires !HasKey(d, "hash")
    ensures DistinctKeys(d + [("hash", h)])
    ensures DataCheckString(d + [("hash", h)]) == DataCheckString(d)
  {
    var e := d + [("hash", h)];
    assert e[..|d|] == d;
    assert WithoutHash(e) == WithoutHash(d);
  }

  /** `check_telegram_auth(data, bot_token)`. */
  function CheckTelegramAuth(d: Dict, botToken: string, sign: (string, string) -> string): (ok: bool)
  {
    match Get(d, "hash")
    case None => false
    case Some(h) => h == JStr(sign(botToken, DataCheckString(d)))
  }

  /**
   * The check passes exactly when the object holds a "hash" string equal to the digest of its
   * data-check-string; without a "hash" entry it never passes.
   */
  lemma CheckTelegramAuthSpec(d: Dict, botToken: string, sign: (string, string) -> string)
    ensures !HasKey(d, "hash") ==> !CheckTelegramAuth(d, botToken, sign)
    ensures CheckTelegramAuth(d, botToken, sign) <==>
      exists i :: 0 <= i < |d| && d[i] == ("hash", JStr(sign(botToken, DataCheckString(d))))
  {
    var r := Get(d, "hash");
    if exists i :: 0 <= i < |d| && d[i] == ("hash", JStr(sign(botToken, DataCheckString(d)))) {
      var i :| 0 <= i < |d| && d[i] == ("hash", JStr(sign(botToken, DataCheckString(d))));
      var j :| 0 <= j < |d| && d[j] == ("hash", r.value);
      assert i == j;
    }
  }

  /** An object the widget signed with the same token passes the check. */
  lemma SignedObjectPasses(d: Dict, botToken: string, sign: (string, string) -> string)
    requires !HasKey(d, "hash")
    ensures DistinctKeys(d + [("hash", JStr(sign(botToken, DataCheckString(d))))])
    ensures CheckTelegramAuth(d + [("hash", JStr(sign(botToken, DataCheckString(d))))], botToken, sign)
  {
    var h := JStr(sign(botToken, DataCheckString(d)));
    HashNotSigned(d, h);
    var e: Dict := d + [("hash", h)];
    assert e[|d|] == ("hash", h);
    CheckTelegramAuthSpec(e, botToken, sign);
  }

  // ---------------------------------------------------------------------------------------
  // POST /auth/telegram

  /** `os.getenv("SKIP_TELEGRAM_SIGNATURE", "true").lower() == "true"`. */
  function SkipSignature(env: Option<string>): (skip: bool)
  {
    TrueText(if env.Some? then env.value else "true")
  }

  /** Unless the variable is set to something other than "true", the signature is not checked. */
  lemma SkipSignatureCases(v: string)
    ensures SkipSignature(None)
    ensures SkipSignature(Some(v)) <==> TrueText(v)
    ensures !SkipSignature(Some("false")) && !SkipSignature(Some(""))
  {
    assert Lower("true") == "true";
    TrueTextCases("false");
  }

  /** What lets a login through to the upsert: a configured token and a skipped or passing check. */
  predicate Admitted(d: Dict, botToken: Option<string>, skipEnv: Option<string>, sign: (string, string) -> string)
  {
    botToken.Some? && botToken.value != ""
    && (SkipSignature(skipEnv) || CheckTelegramAuth(d, botToken.value, sign))
  }

  /** `int(data["id"])`, or `None` where Python raises: no "id" key, null, or text that is not a number. */
  function TelegramIdOf(d: Dict): Option<int>
  {
    match Get(d, "id")
    case None => None
    case Some(JInt(i)) => Some(i)
    case Some(JStr(s)) => ParseInt(s)
    case Some(JNull) => None
  }

  /** `data.get(k)` as stored in a text column: a missing key and null both give NULL. */
  function Field(d: Dict, k: string): Option<string>
  {
    match Get(d, k)
    case None => None
    case Some(JNull) => None
    case Some(v) => Some(Show(v))
  }

  /** An existing user after a login: the four profile columns overwritten from the object. */
  function Refreshed(u: User, d: Dict): (r: User)
  {
    u.(username := Field(d, "username"), firstName := Field(d, "first_name"),
       lastName := Field(d, "last_name"), avatarUrl := Field(d, "photo_url"))
  }

  /** The id counter after a login: one more when a row was inserted. */
  function NextAfterLogin(users: map<int, User>, next: int, tg: int): int
  {
    if ByTelegramId(users, tg, next).None? then next + 1 else next
  }

  /**
   * The users table after a login of telegram id `tg`, and the id of the user logged in. The
   * table has one row for `tg`, holding the object's profile fields; an existing row keeps its
   * rating, admin flag and creation time, a new one gets the defaults at the next id; every
   * other row is kept and telegram ids stay unique.
   */
  function LoggedIn(users: map<int, User>, next: int, tg: int, d: Dict, now: int): (r: (map<int, User>, int))
    requires IdsBelow(users, next) && UniqueTelegramIds(users)
    ensures var (after, id) := r;
      && id in after && after[id].telegramId == tg
      && after[id].username == Field(d, "username") && after[id].firstName == Field(d, "first_name")
      && after[id].lastName == Field(d, "last_name") && after[id].avatarUrl == Field(d, "photo_url")
      && (id in users ==> after[id] == users[id].(username := after[id].username,
            firstName := after[id].firstName, lastName := after[id].lastName, avatarUrl := after[id].avatarUrl))
      && (id !in users ==> after[id].rating == DefaultRating && !after[id].isAdmin && id == next)
      && after.Keys == users.Keys + {id}
      && (forall o :: o in users && o != id ==> after[o] == users[o])
      && IdsBelow(after, NextAfterLogin(users, next, tg))
      && UniqueTelegramIds(after)
  {
    match ByTelegramId(users, tg, next)
    case Some(id) => (users[id := Refreshed(users[id], d)], id)
    case None =>
      (users[next := NewUser(tg, Field(d, "username"), Field(d, "first_name"), Field(d, "last_name"),
                             Field(d, "photo_url"), now)], next)
  }

  /** Logging in twice with the same object leaves the table as one login does. */
  lemma LoginIdempotent(users: map<int, User>, next: int, tg: int, d: Dict, now: int, later: int)
    requires IdsBelow(users, next) && UniqueTelegramIds(users)
    ensures var (after, id) := LoggedIn(users, next, tg, d, now);
      LoggedIn(after, NextAfterLogin(users, next, tg), tg, d, later) == (after, id)
  {
    var (after, id) := LoggedIn(users, next, tg, d, now);
    var next' := NextAfterLogin(users, next, tg);
    var again := ByTelegramId(after, tg, next');
    assert 1 <= id < next';
    assert again == Some(id);
    assert Refreshed(after[id], d) == after[id];
    assert after[id := after[id]] == after;
  }

  /**
   * The upsert: refresh the user with telegram id `tg`, or insert one. The insert's commit
   * fails when `tg` does not fit the `telegram_id` column, and nothing is written.
   */
  method Login(db: Database, tg: int, d: Dict, now: int) returns (r: Result<int>)
    requires db.Valid()
    modifies db`users, db`nextUserId
    ensures db.Valid()
    ensures r.Err? <==> ByTelegramId(old(db.users), tg, old(db.nextUserId)).None? && !FitsInteger(tg)
    ensures r.Err? ==> r.error == InternalError && db.users == old(db.users) && db.nextUserId == old(db.nextUserId)
    ensures r.Ok? ==>
      && (db.users, r.value) == LoggedIn(old(db.users), old(db.nextUserId), tg, d, now)
      && db.nextUserId == NextAfterLogin(old(db.users), old(db.nextUserId), tg)
  {
    var found := db.UserByTelegramId(tg);
    if found.Some? {
      var id := found.value;
      db.users := db.users[id := Refreshed(db.users[id], d)];
      return Ok(id);
    }
    if !FitsInteger(tg) {
      return Err(InternalError);
    }
    var id := db.nextUserId;
    db.users := db.users[id := NewUser(tg, Field(d, "username"), Field(d, "first_name"), Field(d, "last_name"),
                                       Field(d, "photo_url"), now)];
    db.nextUserId := id + 1;
    return Ok(id);
  }

  /**
   * POST /auth/telegram. Returns the id of the user the access token is issued for (`sub`).
   */
  method TelegramAuth(db: Database, d: Dict, botToken: Option<string>, skipEnv: Option<string>,
                      sign: (string, string) -> string, now: int) returns (r: Result<int>)
    requires db.Valid()
    modifies db`users, db`nextUserId
    ensures db.Valid()
    ensures (botToken.None? || botToken.value == "") ==> r == Err(TokenNotConfigured)
    ensures (botToken.Some? && botToken.value != "" && !SkipSignature(skipEnv)
             && !CheckTelegramAuth(d, botToken.value, sign)) ==> r == Err(InvalidSignature)
    ensures Admitted(d, botToken, skipEnv, sign) && TelegramIdOf(d).None? ==> r == Err(InternalError)
    ensures (Admitted(d, botToken, skipEnv, sign) && TelegramIdOf(d).Some?
             && ByTelegramId(old(db.users), TelegramIdOf(d).value, old(db.nextUserId)).None?
             && !FitsInteger(TelegramIdOf(d).value)) ==> r == Err(InternalError)
    ensures r.Ok? <==> (Admitted(d, botToken, skipEnv, sign) && TelegramIdOf(d).Some?
                        && (ByTelegramId(old(db.users), TelegramIdOf(d).value, old(db.nextUserId)).Some?
                            || FitsInteger(TelegramIdOf(d).value)))
    ensures r.Err? ==> db.users == old(db.users) && db.nextUserId == old(db.nextUserId)
    ensures r.Ok? ==>
      var tg := TelegramIdOf(d).value;
      && (db.users, r.value) == LoggedIn(old(db.users), old(db.nextUserId), tg, d, now)
      && db.nextUserId == NextAfterLogin(old(db.users), old(db.nextUserId), tg)
  {
    if botToken.None? || botToken.value == "" {
      return Err(TokenNotConfigured);
    }
    var skip := SkipSignature(skipEnv);
    if !skip && !CheckTelegramAuth(d, botToken.value, sign) {
      return Err(InvalidSignature);
    }
    var tgId := TelegramIdOf(d);
    if tgId.None? {
      return Err(InternalError);
    }
    r := Login(db, tgId.value, d, now);
  }

  // ---------------------------------------------------------------------------------------
  // GET /leaderboard

  datatype LeaderboardEntry = LeaderboardEntry(
    id: int,
    username: Option<string>,
    firstName: Option<string>,
    lastName: Option<string>,
    avatarUrl: Option<string>,
    rating: int,
    place: int)

  /**
   * What `ORDER BY rating DESC` hands back: every user exactly once, ratings non-increasing.
   * The order among equal ratings is the database's.
   */
  predicate RankedByRating(users: map<int, User>, ranked: seq<int>)
  {
    && (forall i :: 0 <= i < |ranked| ==> ranked[i] in users)
    && (forall id :: id in users ==> id in ranked)
    && (forall i, j :: 0 <= i < j < |ranked| ==>
          ranked[i] != ranked[j] && users[ranked[i]].rating >= users[ranked[j]].rating)
  }

  /** `get_leaderboard` on the users in the order the query returns them. */
  function Leaderboard(users: map<int, User>, ranked: seq<int>): (board: seq<LeaderboardEntry>)
    requires forall i :: 0 <= i < |ranked| ==> ranked[i] in users
    ensures |board| == |ranked|
  {
    seq(|ranked|, i requires 0 <= i < |ranked| =>
      var u := users[ranked[i]];
      LeaderboardEntry(ranked[i], u.username, u.firstName, u.lastName, u.avatarUrl, u.rating, i + 1))
  }

  /**
   * Every user has exactly one entry carrying their rating; places run 1, 2, ... without gaps;
   * a strictly higher rating always has a better place, and a better place never a lower rating.
   */
  lemma LeaderboardPlaces(users: map<int, User>, ranked: seq<int>)
    requires RankedByRating(users, ranked)
    ensures var board := Leaderboard(users, ranked);
      && (forall k :: 0 <= k < |board| ==> board[k].place == k + 1)
      && (forall id :: id in users <==> exists k :: 0 <= k < |board| && board[k].id == id)
      && (forall k :: 0 <= k < |board| ==> board[k].rating == users[board[k].id].rating)
      && (forall k, l :: 0 <= k < |board| && 0 <= l < |board| && board[k].id == board[l].id ==> k == l)
      && (forall k, l :: 0 <= k < |board| && 0 <= l < |board| && board[k].rating > board[l].rating ==>
            board[k].place < board[l].place)
      && (forall k, l :: 0 <= k < |board| && 0 <= l < |board| && board[k].place < board[l].place ==>
            board[k].rating >= board[l].rating)
  {
    var board := Leaderboard(users, ranked);
    forall id | id in users ensures exists k :: 0 <= k < |board| && board[k].id == id {
      var k :| 0 <= k < |ranked| && ranked[k] == id;
      assert board[k].id == id;
    }
  }

  // ---------------------------------------------------------------------------------------
  // GET /user/{user_id}/history

  datatype HistoryEntry = HistoryEntry(
    date: int,
    opponentId: int,
    score: Option<string>,
    ratingBefore: int,
    ratingAfter: int,
    change: int,
    isWin: bool)

  /** The other player: player2 when the user is player1, player1 otherwise. */
  function Opponent(m: Match, userId: int): int
  {
    if m.player1 == userId then m.player2 else m.player1
  }

  /** In a match between two different players that the user played, the opponent is the other one. */
  lemma OpponentIsOther(m: Match, userId: int)
    requires m.player1 != m.player2 && (userId == m.player1 || userId == m.player2)
    ensures Opponent(m, userId) != userId
    ensures {userId, Opponent(m, userId)} == {m.player1, m.player2}
  {
  }

  function EntryOf(m: Match, h: HistoryRow, userId: int): HistoryEntry
  {
    HistoryEntry(m.createdAt, Opponent(m, userId), m.score, h.ratingBefore, h.ratingAfter, h.change,
                 m.winner == Some(userId))
  }

  /** The entries for the ledger rows `rows`, skipping the rows whose match does not exist. */
  function HistoryEntries(matches: map<int, Match>, userId: int, rows: seq<HistoryRow>): (r: seq<HistoryEntry>)
    ensures |r| <= |rows|
  {
    if |rows| == 0 then []
    else
      var h := rows[|rows| - 1];
      HistoryEntries(matches, userId, rows[..|rows| - 1])
        + (if h.matchId in matches then [EntryOf(matches[h.matchId], h, userId)] else [])
  }

  /**
   * Each entry comes from a row whose match exists, in row order, and each such row has its
   * entry: the result is the rows with a match, mapped one by one.
   */
  lemma {:induction false} HistoryEntriesSpec(matches: map<int, Match>, userId: int, rows: seq<HistoryRow>)
    ensures forall e :: e in HistoryEntries(matches, userId, rows) <==>
      exists i :: 0 <= i < |rows| && rows[i].matchId in matches
        && e == EntryOf(matches[rows[i].matchId], rows[i], userId)
    ensures (forall i :: 0 <= i < |rows| ==> rows[i].matchId in matches) ==>
      |HistoryEntries(matches, userId, rows)| == |rows|
  {
    if |rows| > 0 {
      var n := |rows| - 1;
      HistoryEntriesSpec(matches, userId, rows[..n]);
      assert forall i :: 0 <= i < n ==> rows[..n][i] == rows[i];
    }
  }

  /** A user's ledger rows: every entry built from them has `change == rating_after - rating_before`. */
  lemma HistoryChangesBalanced(matches: map<int, Match>, history: seq<HistoryRow>, userId: int, rows: seq<HistoryRow>)
    requires LedgerBalanced(history)
    requires forall i :: 0 <= i < |rows| ==> rows[i] in history
    ensures forall e :: e in HistoryEntries(matches, userId, rows) ==> e.change == e.ratingAfter - e.ratingBefore
  {
    HistoryEntriesSpec(matches, userId, rows);
  }

  /**
   * GET /user/{user_id}/history. `rows` is what the ledger query returns: the user's rows,
   * newest first.
   */
  method GetUserHistory(db: Database, userId: int, rows: seq<HistoryRow>) returns (result: seq<HistoryEntry>)
    requires db.Valid()
    requires forall i :: 0 <= i < |rows| ==> rows[i] in db.history && rows[i].userId == userId
    requires forall h :: h in db.history && h.userId == userId ==> h in rows
    requires forall i, j :: 0 <= i < j < |rows| ==> rows[i].createdAt >= rows[j].createdAt
    ensures result == HistoryEntries(db.matches, userId, rows)
  {
    result := [];
    var i := 0;
    while i < |rows|
      invariant 0 <= i <= |rows|
      invariant result == HistoryEntries(db.matches, userId, rows[..i])
    {
      assert rows[..i + 1][..i] == rows[..i];
      var h := rows[i];
      if h.matchId !in db.matches {
        i := i + 1;
        continue;
      }
      var m := db.matches[h.matchId];
      result := result + [EntryOf(m, h, userId)];
      i := i + 1;
    }
    assert rows[..i] == rows;
  }
}
