/**
 * The location endpoints: the filtered listing, creating a location from a multipart form
 * (with its photos) and rating a location. Both write endpoints act for the first user in
 * the table. Uploaded bytes are not modelled: an upload is its file name, and the random
 * `uuid4().hex` of each upload is an input.
 */
module LocationsApi {
  import opened Common
  import opened Models
  import opened Store
  import opened Text

  const UserNotFound := HttpError(404, "User not found")
  const LocationNotFound := HttpError(404, "Location not found")
  const ScoreOutOfRange := HttpError(400, "Rating must be between 1 and 5")

  /** The URL prefix under which stored photos are served. */
  const PhotoUrlPrefix: string := "/static/photos/"

  // ---------------------------------------------------------------------------------------
  // Ratings

  /** `db.query(Rating).filter(user_id == u, location_id == l).first()`. */
  function ExistingRating(ratings: map<int, Rating>, userId: int, locId: int, bound: int): (r: Option<int>)
    ensures r.Some? ==> r.value in ratings && ratings[r.value].userId == userId && ratings[r.value].locationId == locId
    ensures r.None? && IdsBelow(ratings, bound) ==>
      forall id :: id in ratings ==> ratings[id].userId != userId || ratings[id].locationId != locId
  {
    var found := FirstKey(ratings, (x: Rating) => x.userId == userId && x.locationId == locId, bound);
    assert found.None? && IdsBelow(ratings, bound) ==>
      forall id :: id in ratings ==> !(ratings[id].userId == userId && ratings[id].locationId == locId);
    found
  }

  /**
   * The rating upsert on the table alone: overwrite score and comment of the pair's row when
   * there is one, otherwise add a row at `next`.
   */
  function Upsert(ratings: map<int, Rating>, next: int, userId: int, locId: int, score: int,
                  comment: Option<string>, now: int): map<int, Rating>
  {
    match ExistingRating(ratings, userId, locId, next)
    case Some(k) => ratings[k := ratings[k].(score := score, comment := comment)]
    case None => ratings[next := Rating(userId, locId, score, comment, now)]
  }

  /**
   * After an upsert the pair has exactly one row, holding the new score and comment; every
   * other pair's rows are untouched, and one rating per pair still holds.
   */
  lemma UpsertSpec(ratings: map<int, Rating>, next: int, userId: int, locId: int, score: int,
                   comment: Option<string>, now: int)
    requires IdsBelow(ratings, next) && OneRatingPerPair(ratings)
    ensures var after := Upsert(ratings, next, userId, locId, score, comment, now);
      && OneRatingPerPair(after)
      && (exists k :: k in after && after[k].userId == userId && after[k].locationId == locId
            && after[k].score == score && after[k].comment == comment)
      && (forall k :: k in ratings && (ratings[k].userId != userId || ratings[k].locationId != locId)
            ==> k in after && after[k] == ratings[k])
      && |after| <= |ratings| + 1
      && (ExistingRating(ratings, userId, locId, next).Some? ==>
            var k := ExistingRating(ratings, userId, locId, next).value;
            && after.Keys == ratings.Keys
            && after[k] == ratings[k].(score := score, comment := comment))
      && (ExistingRating(ratings, userId, locId, next).None? ==>
            && next !in ratings && after.Keys == ratings.Keys + {next}
            && after[next] == Rating(userId, locId, score, comment, now))
  {
    var after := Upsert(ratings, next, userId, locId, score, comment, now);
    match ExistingRating(ratings, userId, locId, next)
    case Some(k) =>
      assert after == ratings[k := ratings[k].(score := score, comment := comment)];
      assert after.Keys == ratings.Keys;
      forall a | a in after
        ensures after[a].userId == ratings[a].userId && after[a].locationId == ratings[a].locationId
      {
      }
      assert after[k].userId == userId && after[k].locationId == locId;
    case None =>
      assert after == ratings[next := Rating(userId, locId, score, comment, now)];
      assert next !in ratings;
      assert after.Keys == ratings.Keys + {next};
      forall a, b | a in after && b in after && after[a].userId == after[b].userId
                    && after[a].locationId == after[b].locationId
        ensures a == b
      {
        if a != next && b != next {
          assert after[a] == ratings[a] && after[b] == ratings[b];
        }
      }
      assert after[next].userId == userId && after[next].locationId == locId;
  }

  /**
   * POST /locations/{id}/ratings. After the guards the upsert is committed, but the handler
   * returns the ORM row, which the declared `RatingResponse` cannot be built from
   * (`created_at` is a datetime, not a string, and `user` an ORM object, not a dict), so
   * every request that gets that far is answered with a server error.
   */
  method CreateRating(db: Database, locId: int, score: int, comment: Option<string>, now: int)
    returns (r: Result<()>)
    requires db.Valid()
    modifies db`ratings, db`nextRatingId
    ensures db.Valid()
    ensures r.Err?
    ensures db.users == map[] ==> r == Err(UserNotFound)
    ensures db.users != map[] && locId !in db.locations ==> r == Err(LocationNotFound)
    ensures db.users != map[] && locId in db.locations && !(1 <= score <= 5) ==> r == Err(ScoreOutOfRange)
    ensures r == Err(InternalError) <==> db.users != map[] && locId in db.locations && 1 <= score <= 5
    ensures r != Err(InternalError) ==> db.ratings == old(db.ratings) && db.nextRatingId == old(db.nextRatingId)
    ensures r == Err(InternalError) ==>
      && db.FirstUser().Some?
      && db.ratings == Upsert(old(db.ratings), old(db.nextRatingId), db.FirstUser().value, locId, score, comment, now)
      && db.nextRatingId == (if ExistingRating(old(db.ratings), db.FirstUser().value, locId, old(db.nextRatingId)).Some?
                             then old(db.nextRatingId) else old(db.nextRatingId) + 1)
  {
    var user := db.FirstUser();
    if user.None? {
      return Err(UserNotFound);
    }
    if locId !in db.locations {
      return Err(LocationNotFound);
    }
    if !(1 <= score <= 5) {
      return Err(ScoreOutOfRange);
    }
    var _ := StoreRating(db, user.value, locId, score, comment, now);
    return Err(InternalError);
  }

  /** The upsert of `create_rating` once the user, the location and the score are known good. */
  method StoreRating(db: Database, userId: int, locId: int, score: int, comment: Option<string>, now: int)
    returns (id: int)
    requires db.Valid() && userId in db.users && locId in db.locations
    modifies db`ratings, db`nextRatingId
    ensures db.Valid()
    ensures var existing := ExistingRating(old(db.ratings), userId, locId, old(db.nextRatingId));
      && id == (if existing.Some? then existing.value else old(db.nextRatingId))
      && db.nextRatingId == (if existing.Some? then old(db.nextRatingId) else old(db.nextRatingId) + 1)
    ensures db.ratings == Upsert(old(db.ratings), old(db.nextRatingId), userId, locId, score, comment, now)
    ensures id in db.ratings && db.ratings[id].userId == userId && db.ratings[id].locationId == locId
    ensures db.ratings[id].score == score
  {
    UpsertSpec(db.ratings, db.nextRatingId, userId, locId, score, comment, now);
    var existing := ExistingRating(db.ratings, userId, locId, db.nextRatingId);
    if existing.Some? {
      var k := existing.value;
      db.ratings := db.ratings[k := db.ratings[k].(score := score, comment := comment)];
      return k;
    }
    id := db.nextRatingId;
    db.ratings := db.ratings[id := Rating(userId, locId, score, comment, now)];
    db.nextRatingId := id + 1;
  }

  // ---------------------------------------------------------------------------------------
  // Form coercion

  /** `tables_count`: the parsed integer when it is at least 1, otherwise 1 (also when it does not parse). */
  function TablesCount(form: string): (n: int)
    ensures n >= 1
    ensures ParseInt(form).None? ==> n == 1
    ensures ParseInt(form).Some? ==> n == (if ParseInt(form).value < 1 then 1 else ParseInt(form).value)
  {
    match ParseInt(form)
    case None => 1
    case Some(v) => if v < 1 then 1 else v
  }

  /** A count the form wrote as a number comes back unchanged when positive, as 1 otherwise. */
  lemma TablesCountOfNumber(n: int)
    ensures TablesCount(IntToString(n)) == (if n >= 1 then n else 1)
  {
    ParseIntRoundTrip(n);
  }

  // ---------------------------------------------------------------------------------------
  // Photo names

  /** `s.rfind(c)`: the last position of `c`, or -1. */
  function RFind(s: string, c: char): (i: int)
    ensures -1 <= i < |s|
    ensures i >= 0 ==> s[i] == c && c !in s[i + 1..]
    ensures i == -1 ==> c !in s
  {
    if |s| == 0 then -1
    else if s[|s| - 1] == c then |s| - 1
    else RFind(s[..|s| - 1], c)
  }

  /**
   * `os.path.splitext(p)[1]`: from the last '.' of the last path component to the end, unless
   * that component is only dots before it (a leading-dot name has no extension).
   */
  function Ext(p: string): string
  {
    var slash := RFind(p, '/');
    var dot := RFind(p, '.');
    if dot > slash && !OnlyDots(p[slash + 1..dot]) then p[dot..] else ""
  }

  predicate OnlyDots(s: string)
  {
    forall k :: 0 <= k < |s| ==> s[k] == '.'
  }

  /** An extension is empty or a suffix of the path that starts with its only dot and has no '/'. */
  lemma ExtSpec(p: string)
    ensures Ext(p) == "" || (EndsWith(p, Ext(p)) && Ext(p)[0] == '.' && '.' !in Ext(p)[1..] && '/' !in Ext(p))
  {
    var slash := RFind(p, '/');
    var dot := RFind(p, '.');
    if dot > slash && !OnlyDots(p[slash + 1..dot]) {
      var e := p[dot..];
      assert e == p[slash + 1..][dot - slash - 1..];
      assert e[1..] == p[dot + 1..];
      assert p[|p| - |e|..] == e;
    }
  }

  /** A name with a proper stem keeps the part after its last dot as extension. */
  lemma ExtOfName(stem: string, suffix: string)
    requires '/' !in stem && '.' !in suffix && '/' !in suffix
    requires exists k :: 0 <= k < |stem| && stem[k] != '.'
    ensures Ext(stem + "." + suffix) == "." + suffix
  {
    var p := stem + "." + suffix;
    assert p == stem + ['.'] + suffix;
    RFindLast(stem, '.', suffix);
    assert '/' !in p;
    var slash, dot := RFind(p, '/'), RFind(p, '.');
    assert slash == -1 && dot == |stem|;
    assert p[slash + 1..dot] == stem;
    var k :| 0 <= k < |stem| && stem[k] != '.';
    assert !OnlyDots(p[slash + 1..dot]);
    assert p[dot..] == "." + suffix;
  }

  /** The last `c` of `a + [c] + b` is the one after `a` when `b` has none. */
  lemma {:induction false} RFindLast(a: string, c: char, b: string)
    requires c !in b
    ensures RFind(a + [c] + b, c) == |a|
  {
    if |b| > 0 {
      var n := |b| - 1;
      RFindLast(a, c, b[..n]);
      assert (a + [c] + b)[..|a| + 1 + n] == a + [c] + b[..n];
    }
  }

  /** A hidden-file name such as ".png" (a dot, then a word) has no extension. */
  lemma ExtOfDotfile(suffix: string)
    requires '.' !in suffix && '/' !in suffix
    ensures Ext("." + suffix) == ""
  {
    var p := "." + suffix;
    assert p[1..] == suffix;
    assert RFind(p, '.') == 0;
    assert '/' !in p by {
      forall i | 1 <= i < |p| ensures p[i] != '/' {
        assert p[i] == suffix[i - 1];
      }
    }
  }

  /** The stored file name of an upload: `f"{location_id}_{hex}{ext}"`. */
  function PhotoName(locId: int, hex: string, filename: string): string
  {
    IntToString(locId) + "_" + hex + Ext(filename)
  }

  /** The URL under which a stored photo is served. */
  function PhotoUrl(filePath: string): string
  {
    PhotoUrlPrefix + filePath
  }

  /** The location id can be read back from a stored name: it is the text before the first '_'. */
  lemma PhotoNameLocation(locId: int, hex: string, filename: string)
    ensures Split(PhotoName(locId, hex, filename), '_')[0] == IntToString(locId)
    ensures ParseInt(Split(PhotoName(locId, hex, filename), '_')[0]) == Some(locId)
  {
    var id := IntToString(locId);
    var tail := hex + Ext(filename);
    assert PhotoName(locId, hex, filename) == id + ['_'] + tail;
    IntToStringChars(locId);
    SplitHead(id, '_', tail);
    ParseIntRoundTrip(locId);
  }

  // ---------------------------------------------------------------------------------------
  // POST /locations

  /** `s[i]`, or "" outside the sequence. */
  function At(s: seq<string>, i: int): string
  {
    if 0 <= i < |s| then s[i] else ""
  }

  /** The positions of the uploads that have a file name, in upload order. */
  function Named(filenames: seq<string>): (idx: seq<int>)
    ensures |idx| <= |filenames|
    ensures forall k :: 0 <= k < |idx| ==> 0 <= idx[k] < |filenames| && filenames[idx[k]] != ""
  {
    if |filenames| == 0 then []
    else
      var n := |filenames| - 1;
      assert forall i :: 0 <= i < n ==> filenames[..n][i] == filenames[i];
      Named(filenames[..n]) + (if filenames[n] == "" then [] else [n])
  }

  lemma NamedStep(filenames: seq<string>, i: int)
    requires 0 <= i < |filenames|
    ensures Named(filenames[..i + 1]) == Named(filenames[..i]) + (if filenames[i] == "" then [] else [i])
  {
    assert filenames[..i + 1][..i] == filenames[..i];
  }

  /**
   * Every upload with a file name is among the named positions, which ascend, so each such
   * upload is stored exactly once and in upload order.
   */
  lemma {:induction false} NamedComplete(filenames: seq<string>)
    ensures forall i :: 0 <= i < |filenames| && filenames[i] != "" ==> i in Named(filenames)
    ensures forall k, l :: 0 <= k < l < |Named(filenames)| ==> Named(filenames)[k] < Named(filenames)[l]
  {
    if |filenames| > 0 {
      var n := |filenames| - 1;
      var init := filenames[..n];
      NamedComplete(init);
      var prev := Named(init);
      var all := Named(filenames);
      assert all == prev + (if filenames[n] == "" then [] else [n]);
      forall i | 0 <= i < |filenames| && filenames[i] != ""
        ensures i in all
      {
        if i < n {
          assert init[i] == filenames[i];
          assert i in prev;
        }
      }
      forall k, l | 0 <= k < l < |all|
        ensures all[k] < all[l]
      {
        if l < |prev| {
          assert all[k] == prev[k] && all[l] == prev[l];
        } else {
          assert all[k] == prev[k] < n;
        }
      }
    }
  }

  /** Whether the form's uploads all have file names, all of them are named. */
  lemma {:induction false} AllNamed(filenames: seq<string>)
    requires forall i :: 0 <= i < |filenames| ==> filenames[i] != ""
    ensures |Named(filenames)| == |filenames|
    ensures forall k :: 0 <= k < |filenames| ==> Named(filenames)[k] == k
  {
    if |filenames| > 0 {
      var n := |filenames| - 1;
      assert forall i :: 0 <= i < n ==> filenames[..n][i] == filenames[i];
      AllNamed(filenames[..n]);
    }
  }

  /** The stored name of every upload, in upload order: `hexes[i]` is the random hex drawn for upload `i`. */
  function PhotoNames(locId: int, filenames: seq<string>, hexes: seq<string>): (names: seq<string>)
    requires |hexes| == |filenames|
    ensures |names| == |filenames|
    ensures forall i :: 0 <= i < |filenames| ==> names[i] == PhotoName(locId, hexes[i], filenames[i])
  {
    seq(|filenames|, i requires 0 <= i < |filenames| => PhotoName(locId, hexes[i], filenames[i]))
  }

  /** The photo rows stored for the uploads at positions `idx`, with consecutive ids from `firstId`. */
  function PhotoRows(locId: int, names: seq<string>, idx: seq<int>, firstId: int, now: int)
    : (rows: seq<Photo>)
    ensures |rows| == |idx|
  {
    if |idx| == 0 then []
    else
      PhotoRows(locId, names, idx[..|idx| - 1], firstId, now)
        + [Photo(firstId + |idx| - 1, locId, At(names, idx[|idx| - 1]), now)]
  }

  lemma PhotoRowsSnoc(locId: int, names: seq<string>, idx: seq<int>, i: int, firstId: int, now: int)
    ensures PhotoRows(locId, names, idx + [i], firstId, now)
      == PhotoRows(locId, names, idx, firstId, now) + [Photo(firstId + |idx|, locId, At(names, i), now)]
  {
    assert (idx + [i])[..|idx|] == idx;
  }

  /** Row `k` of the stored photos has id `firstId + k` and the stored name of upload `idx[k]`. */
  lemma {:induction false} PhotoRowsAt(locId: int, names: seq<string>, idx: seq<int>, firstId: int, now: int)
    ensures forall k :: 0 <= k < |idx| ==>
      PhotoRows(locId, names, idx, firstId, now)[k] == Photo(firstId + k, locId, At(names, idx[k]), now)
  {
    if |idx| > 0 {
      var n := |idx| - 1;
      PhotoRowsAt(locId, names, idx[..n], firstId, now);
      assert forall k :: 0 <= k < n ==> idx[..n][k] == idx[k];
    }
  }

  /**
   * Row `k` of the photos a location stores is the `k`-th upload with a file name, saved under
   * `f"{location_id}_{hex}{ext}"`, and its location id can be read back from that name.
   */
  lemma StoredPhotoRow(locId: int, filenames: seq<string>, hexes: seq<string>, firstId: int, now: int, k: int)
    requires |hexes| == |filenames|
    requires 0 <= k < |Named(filenames)|
    ensures var j := Named(filenames)[k];
      && 0 <= j < |filenames| && filenames[j] != ""
      && PhotoRows(locId, PhotoNames(locId, filenames, hexes), Named(filenames), firstId, now)[k]
         == Photo(firstId + k, locId, PhotoName(locId, hexes[j], filenames[j]), now)
      && ParseInt(Split(PhotoRows(locId, PhotoNames(locId, filenames, hexes), Named(filenames), firstId, now)[k].filePath, '_')[0])
         == Some(locId)
  {
    var names := PhotoNames(locId, filenames, hexes);
    var j := Named(filenames)[k];
    PhotoRowsAt(locId, names, Named(filenames), firstId, now);
    assert At(names, j) == names[j] == PhotoName(locId, hexes[j], filenames[j]);
    PhotoNameLocation(locId, hexes[j], filenames[j]);
  }

  /** Appending one row to `base + rows` gives `base` followed by the longer list of rows. */
  lemma SnocRows(base: seq<Photo>, rows: seq<Photo>, p: Photo, longer: seq<Photo>)
    requires longer == rows + [p]
    ensures (base + rows) + [p] == base + longer
  {
  }

  /** One iteration of `StorePhotos`: upload `i` is stored as the next photo row. */
  method StorePhoto(db: Database, locId: int, names: seq<string>, ghost stored: seq<int>, i: int,
                    ghost firstId: int, now: int, ghost base: seq<Photo>)
    requires 0 <= i < |names|
    requires PhotoIdsBelow(db.photos, db.nextPhotoId)
    requires db.photos == base + PhotoRows(locId, names, stored, firstId, now)
    requires db.nextPhotoId == firstId + |stored|
    modifies db`photos, db`nextPhotoId
    ensures PhotoIdsBelow(db.photos, db.nextPhotoId)
    ensures db.photos == base + PhotoRows(locId, names, stored + [i], firstId, now)
    ensures db.nextPhotoId == firstId + |stored + [i]|
  {
    ghost var rows := PhotoRows(locId, names, stored, firstId, now);
    assert At(names, i) == names[i];
    PhotoRowsSnoc(locId, names, stored, i, firstId, now);
    SnocRows(base, rows, Photo(db.nextPhotoId, locId, names[i], now),
             PhotoRows(locId, names, stored + [i], firstId, now));
    db.photos := db.photos + [Photo(db.nextPhotoId, locId, names[i], now)];
    db.nextPhotoId := db.nextPhotoId + 1;
  }

  /**
   * The upload loop: one photo row per upload with a non-empty file name, in upload order;
   * `names[i]` is the name upload `i` is saved under.
   */
  method StorePhotos(db: Database, locId: int, filenames: seq<string>, names: seq<string>, now: int)
    requires PhotoIdsBelow(db.photos, db.nextPhotoId) && |names| == |filenames|
    modifies db`photos, db`nextPhotoId
    ensures PhotoIdsBelow(db.photos, db.nextPhotoId)
    ensures db.photos == old(db.photos) + PhotoRows(locId, names, Named(filenames), old(db.nextPhotoId), now)
    ensures db.nextPhotoId == old(db.nextPhotoId) + |Named(filenames)|
  {
    ghost var firstId := db.nextPhotoId;
    ghost var stored: seq<int> := [];
    var i := 0;
    while i < |filenames|
      invariant 0 <= i <= |filenames|
      invariant PhotoIdsBelow(db.photos, db.nextPhotoId)
      invariant stored == Named(filenames[..i])
      invariant db.photos == old(db.photos) + PhotoRows(locId, names, stored, firstId, now)
      invariant db.nextPhotoId == firstId + |stored|
    {
      NamedStep(filenames, i);
      if filenames[i] == "" {
        i := i + 1;
        continue;
      }
      StorePhoto(db, locId, names, stored, i, firstId, now, old(db.photos));
      stored := stored + [i];
      i := i + 1;
    }
    assert filenames[..i] == filenames;
  }

  /** The location row, at the next location id. */
  method InsertLocation(db: Database, loc: Location) returns (locId: int)
    requires db.Valid()
    modifies db`locations, db`nextLocationId
    ensures db.Valid()
    ensures locId == old(db.nextLocationId) && locId !in old(db.locations)
    ensures db.locations == old(db.locations)[locId := loc] && db.nextLocationId == locId + 1
  {
    locId := db.nextLocationId;
    db.locations := db.locations[locId := loc];
    db.nextLocationId := locId + 1;
  }

  /** `StorePhotos` on the whole database: the other tables are left as they are. */
  method SavePhotos(db: Database, locId: int, filenames: seq<string>, names: seq<string>, now: int)
    requires db.Valid() && |names| == |filenames|
    modifies db`photos, db`nextPhotoId
    ensures db.Valid()
    ensures db.photos == old(db.photos) + PhotoRows(locId, names, Named(filenames), old(db.nextPhotoId), now)
    ensures db.nextPhotoId == old(db.nextPhotoId) + |Named(filenames)|
  {
    StorePhotos(db, locId, filenames, names, now);
  }

  /**
   * POST /locations. `hexes[i]` is the random hex drawn for upload `i`. The location is written
   * first, then the photos of the uploads with a file name. A `tables_count` the column cannot
   * hold makes the location's commit fail with a server error before anything is written.
   */
  method CreateLocation(db: Database, name: string, description: string, latitude: real, longitude: real,
                        tablesCount: string, netType: string, hasRoof: string,
                        filenames: seq<string>, hexes: seq<string>, now: int) returns (r: Result<int>)
    requires db.Valid()
    requires |hexes| == |filenames|
    modifies db`locations, db`nextLocationId, db`photos, db`nextPhotoId
    ensures db.Valid()
    ensures db.users == map[] <==> r == Err(UserNotFound)
    ensures db.users != map[] && !FitsInteger(TablesCount(tablesCount)) ==> r == Err(InternalError)
    ensures r.Ok? <==> db.users != map[] && FitsInteger(TablesCount(tablesCount))
    ensures r.Err? ==> (db.locations == old(db.locations) && db.photos == old(db.photos)
      && db.nextLocationId == old(db.nextLocationId) && db.nextPhotoId == old(db.nextPhotoId))
    ensures r.Ok? ==>
      && r.value == old(db.nextLocationId) && r.value !in old(db.locations)
      && db.nextLocationId == r.value + 1 && db.nextPhotoId == old(db.nextPhotoId) + |Named(filenames)|
      && db.FirstUser().Some?
      && db.locations == old(db.locations)[r.value := Location(db.FirstUser().value, latitude, longitude, name,
           description, TablesCount(tablesCount), netType, TrueText(hasRoof), now)]
      && db.photos == old(db.photos)
           + PhotoRows(r.value, PhotoNames(r.value, filenames, hexes), Named(filenames), old(db.nextPhotoId), now)
  {
    var user := db.FirstUser();
    if user.None? {
      return Err(UserNotFound);
    }
    if !FitsInteger(TablesCount(tablesCount)) {
      // The location's commit fails; no photo has been written yet.
      return Err(InternalError);
    }
    var locId := InsertLocation(db, Location(user.value, latitude, longitude, name, description,
                                             TablesCount(tablesCount), netType, TrueText(hasRoof), now));
    SavePhotos(db, locId, filenames, PhotoNames(locId, filenames, hexes), now);
    return Ok(locId);
  }

  // ---------------------------------------------------------------------------------------
  // GET /locations

  /** The query filters: `has_roof` applies when given, `net_type` when given and not empty. */
  predicate Matches(loc: Location, hasRoof: Option<bool>, netType: Option<string>)
  {
    (hasRoof.None? || loc.hasRoof == hasRoof.value)
    && (netType.None? || netType.value == "" || loc.netType == netType.value)
  }

  /** One entry of a listed location's `photos`: the photo id, its URL and its location id. */
  datatype PhotoItem = PhotoItem(id: int, url: string, locationId: int)

  /** A location's photos as the listing reports them, in insertion order. */
  function PhotoItems(photos: seq<Photo>, locId: int): (items: seq<PhotoItem>)
    ensures |items| <= |photos|
    ensures forall it :: it in items <==>
      exists p :: p in photos && p.locationId == locId && it == PhotoItem(p.id, PhotoUrl(p.filePath), locId)
  {
    if |photos| == 0 then []
    else
      var last := photos[|photos| - 1];
      PhotoItems(photos[..|photos| - 1], locId)
        + (if last.locationId == locId then [PhotoItem(last.id, PhotoUrl(last.filePath), locId)] else [])
  }

  /** The `author` object of a listed location: id, username and chat id of the row's user. */
  datatype Author = Author(id: int, username: Option<string>, telegramId: int)

  /**
   * The response model's default for `tables_count`. The listing never passes the stored
   * value, so every item reports this one; likewise `average_rating` and `ratings_count`
   * keep their defaults 0.0 and 0.
   */
  const DefaultTablesCount: int := 1

  /**
   * One item of the listing as the handler builds it: the stored row with `tables_count`
   * replaced by the default, the author when the row's user exists, the photos, and the
   * default rating summary. An item without an author fails the response model's validation.
   */
  datatype LocationView = LocationView(id: int, location: Location, author: Option<Author>,
                                       photos: seq<PhotoItem>, averageRating: real, ratingsCount: int)

  function View(db: Database, id: int): LocationView
    reads db
    requires id in db.locations
  {
    var loc := db.locations[id];
    var author := if loc.userId in db.users
      then Some(Author(loc.userId, db.users[loc.userId].username, db.users[loc.userId].telegramId))
      else None;
    LocationView(id, loc.(tablesCount := DefaultTablesCount), author, PhotoItems(db.photos, id), 0.0, 0)
  }

  /** The listing over ids below `bound`, in id order, of the locations the filters keep. */
  function Listing(db: Database, bound: int, hasRoof: Option<bool>, netType: Option<string>): seq<LocationView>
    reads db
    decreases bound
  {
    if bound <= 1 then []
    else
      Listing(db, bound - 1, hasRoof, netType)
        + (if bound - 1 in db.locations && Matches(db.locations[bound - 1], hasRoof, netType)
           then [View(db, bound - 1)] else [])
  }

  /**
   * The listing holds exactly the filtered locations: each item is a stored location that the
   * filters keep, shown with its own row, and ids ascend, so nothing appears twice.
   */
  lemma {:induction false} ListingSpec(db: Database, bound: int, hasRoof: Option<bool>, netType: Option<string>)
    ensures forall j :: 0 <= j < |Listing(db, bound, hasRoof, netType)| ==>
      var v := Listing(db, bound, hasRoof, netType)[j];
      && 1 <= v.id < bound && v.id in db.locations && Matches(db.locations[v.id], hasRoof, netType)
      && v.location == db.locations[v.id].(tablesCount := DefaultTablesCount)
      && v.averageRating == 0.0 && v.ratingsCount == 0
      && (v.author.Some? <==> db.locations[v.id].userId in db.users)
      && v == View(db, v.id)
    ensures forall j, l :: 0 <= j < l < |Listing(db, bound, hasRoof, netType)| ==>
      Listing(db, bound, hasRoof, netType)[j].id < Listing(db, bound, hasRoof, netType)[l].id
    ensures forall id :: 1 <= id < bound && id in db.locations && Matches(db.locations[id], hasRoof, netType) ==>
      exists j :: 0 <= j < |Listing(db, bound, hasRoof, netType)| && Listing(db, bound, hasRoof, netType)[j].id == id
    decreases bound
  {
    if bound > 1 {
      ListingSpec(db, bound - 1, hasRoof, netType);
      var prev := Listing(db, bound - 1, hasRoof, netType);
      var all := Listing(db, bound, hasRoof, netType);
      assert forall j :: 0 <= j < |prev| ==> all[j] == prev[j];
      if bound - 1 in db.locations && Matches(db.locations[bound - 1], hasRoof, netType) {
        assert all[|prev|].id == bound - 1;
      }
    }
  }

  /** A listing over a smaller bound is a prefix of the listing over a larger one. */
  lemma {:induction false} ListingPrefix(db: Database, lo: int, hi: int, hasRoof: Option<bool>, netType: Option<string>)
    requires lo <= hi
    ensures Listing(db, lo, hasRoof, netType) <= Listing(db, hi, hasRoof, netType)
    decreases hi - lo
  {
    if lo < hi {
      ListingPrefix(db, lo, hi - 1, hasRoof, netType);
      if hi <= 1 {
        assert Listing(db, lo, hasRoof, netType) == [];
      }
    }
  }

  /** Some item of the listing has no author, so building the response model fails. */
  predicate AuthorMissing(views: seq<LocationView>)
  {
    exists j :: 0 <= j < |views| && views[j].author.None?
  }

  /**
   * GET /locations: the filtered locations with their authors and photos. An item whose
   * author row is missing aborts the whole request with a server error.
   */
  method GetLocations(db: Database, hasRoof: Option<bool>, netType: Option<string>)
    returns (r: Result<seq<LocationView>>)
    requires db.Valid()
    ensures r.Err? <==> AuthorMissing(Listing(db, db.nextLocationId, hasRoof, netType))
    ensures r.Err? ==> r.error == InternalError
    ensures r.Ok? ==> r.value == Listing(db, db.nextLocationId, hasRoof, netType)
  {
    var views := [];
    var id := 1;
    while id < db.nextLocationId
      invariant 1 <= id <= db.nextLocationId
      invariant views == Listing(db, id, hasRoof, netType)
      invariant !AuthorMissing(views)
    {
      if id in db.locations && Matches(db.locations[id], hasRoof, netType) {
        var v := View(db, id);
        if v.author.None? {
          ListingPrefix(db, id + 1, db.nextLocationId, hasRoof, netType);
          assert Listing(db, db.nextLocationId, hasRoof, netType)[|views|] == v;
          return Err(InternalError);
        }
        views := views + [v];
      }
      id := id + 1;
    }
    return Ok(views);
  }
}
