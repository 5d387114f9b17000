/**
 * The command-line script that makes an existing user an administrator:
 * `setup_admin.py <telegram_username>`.
 */
module SetupAdmin {
  import opened Common
  import opened Models
  import opened Store
  import opened Text

  /**
   * `setup_admin(username)` on the users table whose ids are below `next`: whether it reports
   * success, and the table afterwards.
   */
  function Promote(users: map<int, User>, next: int, name: string): (r: (bool, map<int, User>))
    requires IdsBelow(users, next)
    ensures r.0 <==> exists id :: id in users && users[id].username == Some(name)
    ensures !r.0 ==> r.1 == users
    ensures r.1.Keys == users.Keys
    ensures forall id :: id in users ==> r.1[id] == users[id].(isAdmin := r.1[id].isAdmin)
    ensures r.0 ==> exists id :: (id in users && users[id].username == Some(name)
                                  && (forall k :: k in users && k < id ==> users[k].username != Some(name))
                                  && r.1 == users[id := users[id].(isAdmin := true)])
  {
    match ByUsername(users, name, next)
    case None => (false, users)
    case Some(id) =>
      if users[id].isAdmin then
        assert users[id := users[id].(isAdmin := true)] == users;
        (true, users)
      else (true, users[id := users[id].(isAdmin := true)])
  }

  /** Running the script twice for the same name reports the same and writes nothing the second time. */
  lemma PromoteIdempotent(users: map<int, User>, next: int, name: string)
    requires IdsBelow(users, next)
    ensures IdsBelow(Promote(users, next, name).1, next)
    ensures Promote(Promote(users, next, name).1, next, name) == Promote(users, next, name)
  {
    var once := Promote(users, next, name).1;
    var found := ByUsername(users, name, next);
    if found.Some? {
      var id := found.value;
      var again := ByUsername(once, name, next);
      assert once[id].username == Some(name);
      assert again.Some?;
      var v := again.value;
      assert once[v].username == users[v].username;
      assert v == id;
      assert once[id].isAdmin;
      assert once[id := once[id].(isAdmin := true)] == once;
    }
  }

  /** Promoting keeps the table's invariants: ids and telegram ids are untouched. */
  lemma PromoteKeepsValid(users: map<int, User>, next: int, name: string)
    requires IdsBelow(users, next) && UniqueTelegramIds(users)
    ensures IdsBelow(Promote(users, next, name).1, next)
    ensures UniqueTelegramIds(Promote(users, next, name).1)
  {
    var after := Promote(users, next, name).1;
    forall a, b | a in after && b in after && after[a].telegramId == after[b].telegramId
      ensures a == b
    {
      assert after[a].telegramId == users[a].telegramId;
      assert after[b].telegramId == users[b].telegramId;
    }
  }

  /** `setup_admin(username)`: look the user up, and set `is_admin` unless it is already set. */
  method SetupAdmin(db: Database, name: string) returns (ok: bool)
    requires db.Valid()
    modifies db`users
    ensures db.Valid()
    ensures (ok, db.users) == Promote(old(db.users), db.nextUserId, name)
  {
    PromoteKeepsValid(db.users, db.nextUserId, name);
    var found := db.UserByUsername(name);
    if found.None? {
      return false;
    }
    var id := found.value;
    if db.users[id].isAdmin {
      return true;
    }
    db.users := db.users[id := db.users[id].(isAdmin := true)];
    ok := true;
  }

  /** The argument with one leading `@` removed, if it has one. */
  function AdminName(arg: string): (name: string)
    ensures StartsWith(arg, "@") ==> arg == "@" + name
    ensures !StartsWith(arg, "@") ==> name == arg
  {
    if StartsWith(arg, "@") then arg[1..] else arg
  }

  /** Only one `@` is removed: `@@name` names the user `@name`. */
  lemma AdminNameStripsOne(name: string)
    ensures AdminName("@" + name) == name
    ensures |name| > 0 && name[0] != '@' ==> AdminName(name) == name
  {
    assert StartsWith("@" + name, "@");
  }

  /**
   * `main()` with `sys.argv` as `argv`: the exit status and the users table afterwards.
   * A wrong number of arguments and an unknown user both exit with status 1.
   */
  function Script(users: map<int, User>, next: int, argv: seq<string>): (r: (int, map<int, User>))
    requires IdsBelow(users, next)
    ensures r.0 == 0 || r.0 == 1
    ensures r.0 == 0 <==> |argv| == 2 && exists id :: id in users && users[id].username == Some(AdminName(argv[1]))
    ensures |argv| != 2 ==> r.1 == users
    ensures |argv| == 2 ==> r.1 == Promote(users, next, AdminName(argv[1])).1
  {
    if |argv| != 2 then (1, users)
    else
      var r := Promote(users, next, AdminName(argv[1]));
      (if r.0 then 0 else 1, r.1)
  }

  /** The script as run: `argv[0]` is the script's own path. */
  method RunScript(db: Database, argv: seq<string>) returns (status: int)
    requires db.Valid()
    modifies db`users
    ensures db.Valid()
    ensures (status, db.users) == Script(old(db.users), db.nextUserId, argv)
  {
    if |argv| != 2 {
      return 1;
    }
    var name := argv[1];
    if StartsWith(name, "@") {
      name := name[1..];
    }
    var ok := SetupAdmin(db, name);
    status := if ok then 0 else 1;
  }
}
