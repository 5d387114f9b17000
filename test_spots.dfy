/**
 * The script that recreates the five test spots: it deletes every photo and location, then
 * spreads the image files of the photo directory over the spots, `max(1, n // 5)` files each
 * and the rest one by one from the first spot on. The directory listing and the shuffled order
 * are parameters.
 */
module TestSpots {
  import opened Common
  import opened Models
  import opened Store
  import opened Text

  /** The author every test spot is created for. */
  const SpotAuthor: int := 1

  /** `len(spots)`. */
  const SpotCount: nat := 5

  /** The test spots, as rows created at `now`. */
  function Spots(now: int): (s: seq<Location>)
    ensures |s| == SpotCount
  {
    [ Location(SpotAuthor, 55.729876, 37.603456, "Парк Горького", "Стол для настольного тенниса у главного входа.",
               2, "металлическая", true, now),
      Location(SpotAuthor, 55.794229, 37.678234, "Сокольники", "Несколько столов рядом с прудом.",
               3, "нормальная", false, now),
      Location(SpotAuthor, 55.829953, 37.633099, "ВДНХ", "Стол около павильона №1.",
               1, "металлическая", true, now),
      Location(SpotAuthor, 55.736667, 37.512222, "Парк Победы", "Стол для тенниса у фонтана.",
               2, "нет сетки", false, now),
      Location(SpotAuthor, 55.789444, 37.781111, "Измайловский парк", "Стол в глубине парка, рядом с детской площадкой.",
               1, "нормальная", false, now) ]
  }

  // ---------------------------------------------------------------------------------------
  // The image files

  /** `f.lower().endswith(('.jpg', '.jpeg', '.png'))`. */
  predicate IsImageFile(f: string)
  {
    var l := Lower(f);
    EndsWith(l, ".jpg") || EndsWith(l, ".jpeg") || EndsWith(l, ".png")
  }

  /** The image files of a directory listing, in listing order. */
  function ImageFiles(listing: seq<string>): seq<string>
  {
    if |listing| == 0 then []
    else
      var f := listing[|listing| - 1];
      ImageFiles(listing[..|listing| - 1]) + (if IsImageFile(f) then [f] else [])
  }

  /** Exactly the image files are kept, each as often as it is listed. */
  lemma {:induction false} ImageFilesSpec(listing: seq<string>, f: string)
    ensures multiset(ImageFiles(listing))[f] == if IsImageFile(f) then multiset(listing)[f] else 0
  {
    if |listing| > 0 {
      var n := |listing| - 1;
      ImageFilesSpec(listing[..n], f);
      assert listing == listing[..n] + [listing[n]];
    }
  }

  // ---------------------------------------------------------------------------------------
  // Chunks

  /** `photos_per_spot = max(1, total // len(spots))`. */
  function PhotosPerSpot(total: nat): (p: nat)
  {
    if total / SpotCount < 1 then 1 else total / SpotCount
  }

  /** `j * p`, counted up one slice at a time. */
  function Offset(j: nat, p: nat): nat
  {
    if j == 0 then 0 else Offset(j - 1, p) + p
  }

  lemma {:induction false} OffsetIsProduct(j: nat, p: nat)
    ensures Offset(j, p) == j * p
  {
    if j > 0 {
      OffsetIsProduct(j - 1, p);
      assert j * p == (j - 1) * p + p;
    }
  }

  lemma {:induction false} OffsetMono(a: nat, b: nat, p: nat)
    requires a <= b
    ensures Offset(a, p) <= Offset(b, p)
  {
    if a < b {
      OffsetMono(a, b - 1, p);
    }
  }

  /** `[photos[j*p:(j+1)*p] for j in range(k)]`. */
  function Slices(photos: seq<string>, p: nat, k: nat): (c: seq<seq<string>>)
    ensures |c| == k
  {
    if k == 0 then [] else Slices(photos, p, k - 1) + [PySlice(photos, Offset(k - 1, p), Offset(k, p))]
  }

  lemma {:induction false} SlicesAt(photos: seq<string>, p: nat, k: nat, j: nat)
    requires j < k
    ensures Slices(photos, p, k)[j] == PySlice(photos, Offset(j, p), Offset(j + 1, p))
  {
    if j < k - 1 {
      SlicesAt(photos, p, k - 1, j);
    }
  }

  /** `photos[len(spots)*p:]`: what the slices leave over. */
  function Leftovers(photos: seq<string>): seq<string>
  {
    PySlice(photos, SpotCount * PhotosPerSpot(|photos|), |photos|)
  }

  /** The leftover loop: leftover `i` appended to chunk `i % len(spots)`. */
  function Distribute(chunks: seq<seq<string>>, left: seq<string>): (r: seq<seq<string>>)
    requires |chunks| == SpotCount
    ensures |r| == SpotCount
  {
    if |left| == 0 then chunks
    else
      var m := |left| - 1;
      var c := Distribute(chunks, left[..m]);
      c[m % SpotCount := c[m % SpotCount] + [left[m]]]
  }

  /** The chunk of every spot. */
  function Chunks(photos: seq<string>): (c: seq<seq<string>>)
    ensures |c| == SpotCount
  {
    Distribute(Slices(photos, PhotosPerSpot(|photos|), SpotCount), Leftovers(photos))
  }

  /** The list comprehension of slices, `p` photos each. */
  method SliceAll(photos: seq<string>, p: nat) returns (chunks: seq<seq<string>>)
    ensures chunks == Slices(photos, p, SpotCount)
  {
    chunks := seq(SpotCount, j requires 0 <= j < SpotCount => PySlice(photos, j * p, (j + 1) * p));
    forall j | 0 <= j < SpotCount ensures chunks[j] == Slices(photos, p, SpotCount)[j] {
      SlicesAt(photos, p, SpotCount, j);
      OffsetIsProduct(j, p);
      OffsetIsProduct(j + 1, p);
    }
  }

  /** The chunking: the slices, then the loop over the leftovers. */
  method DistributePhotos(photos: seq<string>) returns (chunks: seq<seq<string>>)
    ensures chunks == Chunks(photos)
  {
    var p := if |photos| / SpotCount < 1 then 1 else |photos| / SpotCount;
    chunks := SliceAll(photos, p);
    var leftovers := PySlice(photos, SpotCount * p, |photos|);
    var i := 0;
    while i < |leftovers|
      invariant 0 <= i <= |leftovers|
      invariant chunks == Distribute(Slices(photos, p, SpotCount), leftovers[..i])
    {
      assert leftovers[..i + 1][..i] == leftovers[..i];
      chunks := chunks[i % SpotCount := chunks[i % SpotCount] + [leftovers[i]]];
      i := i + 1;
    }
    assert leftovers[..i] == leftovers;
  }

  /** Fewer leftovers than chunks: leftover `k` goes to chunk `k`, one each. */
  lemma {:induction false} DistributeFew(chunks: seq<seq<string>>, left: seq<string>)
    requires |chunks| == SpotCount && |left| <= SpotCount
    ensures forall k :: 0 <= k < SpotCount ==>
      Distribute(chunks, left)[k] == chunks[k] + (if k < |left| then [left[k]] else [])
  {
    if |left| > 0 {
      var m := |left| - 1;
      DistributeFew(chunks, left[..m]);
      assert m % SpotCount == m;
    }
  }

  /** `min(i, n)`: where a non-negative slice bound lands. */
  function Clamp(i: nat, n: nat): nat
  {
    if i <= n then i else n
  }

  lemma SliceClamped(s: seq<string>, lo: nat, hi: nat)
    ensures lo <= hi ==> PySlice(s, lo, hi) == s[Clamp(lo, |s|)..Clamp(hi, |s|)]
    ensures lo >= |s| ==> PySlice(s, lo, hi) == []
  {
  }

  /**
   * The arithmetic of `max(1, total // len(spots))`: with at least as many photos as spots the
   * slices cover all but `total % len(spots)` photos, otherwise they reach past the end.
   */
  lemma PerSpotArith(total: nat)
    ensures var p := PhotosPerSpot(total);
      && p >= 1 && Offset(SpotCount, p) == SpotCount * p
      && (total >= SpotCount ==> p == total / SpotCount && SpotCount * p + total % SpotCount == total)
      && (total < SpotCount ==> p == 1)
  {
    OffsetIsProduct(SpotCount, PhotosPerSpot(total));
  }

  /**
   * Chunk `k` is the `k`-th slice of `p` photos, plus the `k`-th leftover when there is one;
   * every leftover fits, since there are fewer of them than spots.
   */
  lemma ChunkContents(photos: seq<string>, k: nat)
    requires k < SpotCount
    ensures var p := PhotosPerSpot(|photos|);
      var left := Leftovers(photos);
      && |left| < SpotCount
      && Chunks(photos)[k]
         == PySlice(photos, Offset(k, p), Offset(k + 1, p))
            + (if k < |left| then [photos[SpotCount * p + k]] else [])
  {
    var p := PhotosPerSpot(|photos|);
    var left := Leftovers(photos);
    PerSpotArith(|photos|);
    SliceClamped(photos, SpotCount * p, |photos|);
    DistributeFew(Slices(photos, p, SpotCount), left);
    SlicesAt(photos, p, SpotCount, k);
    if k < |left| {
      assert left[k] == photos[SpotCount * p + k];
    }
  }

  /** The size of chunk `k`. */
  function ChunkSize(total: nat, k: nat): nat
  {
    if total >= SpotCount then total / SpotCount + (if k < total % SpotCount then 1 else 0)
    else if k < total then 1 else 0
  }

  lemma ChunkSizeAt(photos: seq<string>, k: nat)
    requires k < SpotCount
    ensures |Chunks(photos)[k]| == ChunkSize(|photos|, k)
  {
    var p := PhotosPerSpot(|photos|);
    var n := |photos|;
    ChunkContents(photos, k);
    PerSpotArith(n);
    var lo, hi := Offset(k, p), Offset(k + 1, p);
    OffsetMono(k + 1, SpotCount, p);
    SliceClamped(photos, lo, hi);
    SliceClamped(photos, SpotCount * p, n);
    if n >= SpotCount {
      assert hi <= n;
      assert |PySlice(photos, lo, hi)| == p;
    } else {
      OffsetIsProduct(k, 1);
      assert lo == k && hi == k + 1;
    }
  }

  /**
   * With at least as many photos as spots every chunk holds `n // len(spots)` or one more, the
   * larger ones first; with fewer photos the first `n` chunks hold one each and the rest none.
   * Either way chunk sizes differ by at most one and never grow from one spot to the next.
   */
  lemma ChunkSizes(photos: seq<string>)
    ensures forall k :: 0 <= k < SpotCount ==> |Chunks(photos)[k]| == ChunkSize(|photos|, k)
    ensures forall k, l :: 0 <= k < l < SpotCount ==>
      |Chunks(photos)[l]| <= |Chunks(photos)[k]| <= |Chunks(photos)[l]| + 1
  {
    forall k | 0 <= k < SpotCount ensures |Chunks(photos)[k]| == ChunkSize(|photos|, k) {
      ChunkSizeAt(photos, k);
    }
  }

  /** All the photos of a sequence of chunks, as a multiset. */
  function Union(chunks: seq<seq<string>>): multiset<string>
  {
    if |chunks| == 0 then multiset{} else Union(chunks[..|chunks| - 1]) + multiset(chunks[|chunks| - 1])
  }

  lemma {:induction false} UnionAppend(chunks: seq<seq<string>>, j: int, x: string)
    requires 0 <= j < |chunks|
    ensures Union(chunks[j := chunks[j] + [x]]) == Union(chunks) + multiset{x}
  {
    var c := chunks[j := chunks[j] + [x]];
    var n := |chunks| - 1;
    if j < n {
      assert c[..n] == chunks[..n][j := chunks[j] + [x]];
      UnionAppend(chunks[..n], j, x);
      assert Union(c) == Union(c[..n]) + multiset(c[n]);
    } else {
      assert c[..n] == chunks[..n];
      assert Union(c) == Union(c[..n]) + multiset(chunks[n] + [x]);
    }
  }

  lemma {:induction false} UnionDistribute(chunks: seq<seq<string>>, left: seq<string>)
    requires |chunks| == SpotCount
    ensures Union(Distribute(chunks, left)) == Union(chunks) + multiset(left)
  {
    if |left| > 0 {
      var m := |left| - 1;
      var c := Distribute(chunks, left[..m]);
      UnionDistribute(chunks, left[..m]);
      UnionAppend(c, m % SpotCount, left[m]);
      assert Distribute(chunks, left) == c[m % SpotCount := c[m % SpotCount] + [left[m]]];
      assert multiset(left) == multiset(left[..m]) + multiset{left[m]} by {
        assert left == left[..m] + [left[m]];
      }
    }
  }

  /** Cutting a sequence at `a` and again at `b` splits its multiset in two. */
  lemma TakeSplit(s: seq<string>, a: nat, b: nat)
    requires a <= b <= |s|
    ensures multiset(s[..b]) == multiset(s[..a]) + multiset(s[a..b])
  {
    assert s[..b] == s[..a] + s[a..b];
  }

  lemma {:induction false} UnionSlices(photos: seq<string>, p: nat, k: nat)
    ensures Union(Slices(photos, p, k)) == multiset(photos[..Clamp(Offset(k, p), |photos|)])
  {
    if k > 0 {
      UnionSlices(photos, p, k - 1);
      var lo, hi := Offset(k - 1, p), Offset(k, p);
      SliceClamped(photos, lo, hi);
      UnionSliceStep(Slices(photos, p, k - 1), photos, Clamp(lo, |photos|), Clamp(hi, |photos|));
    }
  }

  /** One more slice `s[a..b]` extends a union that covered `s[..a]` to one covering `s[..b]`. */
  lemma UnionSliceStep(prev: seq<seq<string>>, s: seq<string>, a: nat, b: nat)
    requires a <= b <= |s| && Union(prev) == multiset(s[..a])
    ensures Union(prev + [s[a..b]]) == multiset(s[..b])
  {
    UnionSnoc(prev, s[a..b]);
    TakeSplit(s, a, b);
  }

  lemma UnionSnoc(chunks: seq<seq<string>>, last: seq<string>)
    ensures Union(chunks + [last]) == Union(chunks) + multiset(last)
  {
    assert (chunks + [last])[..|chunks|] == chunks;
  }

  /** Every photo lands in exactly one chunk: together the chunks hold exactly the photos. */
  lemma ChunksPartition(photos: seq<string>)
    ensures Union(Chunks(photos)) == multiset(photos)
  {
    var p := PhotosPerSpot(|photos|);
    var n := |photos|;
    var slices, left := Slices(photos, p, SpotCount), Leftovers(photos);
    PerSpotArith(n);
    var cut := Clamp(SpotCount * p, n);
    UnionSlices(photos, p, SpotCount);
    UnionDistribute(slices, left);
    SliceClamped(photos, SpotCount * p, n);
    assert left == photos[cut..n];
    TakeSplit(photos, cut, n);
    assert photos[..n] == photos;
  }

  // ---------------------------------------------------------------------------------------
  // add_spots

  /** The locations table after inserting `spots` at consecutive ids from `first`. */
  function SpotTable(spots: seq<Location>, first: int): map<int, Location>
  {
    if |spots| == 0 then map[]
    else SpotTable(spots[..|spots| - 1], first)[first + |spots| - 1 := spots[|spots| - 1]]
  }

  /** Spot `i` is stored at id `first + i`, and there is nothing else in the table. */
  lemma {:induction false} SpotTableSpec(spots: seq<Location>, first: int)
    ensures forall id :: id in SpotTable(spots, first) <==> first <= id < first + |spots|
    ensures forall i :: 0 <= i < |spots| ==> SpotTable(spots, first)[first + i] == spots[i]
  {
    if |spots| > 0 {
      var n := |spots| - 1;
      SpotTableSpec(spots[..n], first);
    }
  }

  /** The photo rows of one spot: its chunk's files, at consecutive ids from `firstId`. */
  function ChunkRows(locId: int, files: seq<string>, firstId: int, now: int): (rows: seq<Photo>)
    ensures |rows| == |files|
  {
    seq(|files|, j requires 0 <= j < |files| => Photo(firstId + j, locId, files[j], now))
  }

  /** The photo rows of all spots: spot `i` is location `firstLoc + i` and gets chunk `i`. */
  function SpotPhotos(chunks: seq<seq<string>>, firstLoc: int, firstId: int, now: int): seq<Photo>
  {
    if |chunks| == 0 then []
    else
      var m := |chunks| - 1;
      var prev := SpotPhotos(chunks[..m], firstLoc, firstId, now);
      prev + ChunkRows(firstLoc + m, chunks[m], firstId + |prev|, now)
  }

  /** The file paths of the rows of location `locId`, in row order. */
  function FilesOf(rows: seq<Photo>, locId: int): seq<string>
  {
    if |rows| == 0 then []
    else
      var r := rows[|rows| - 1];
      FilesOf(rows[..|rows| - 1], locId) + (if r.locationId == locId then [r.filePath] else [])
  }

  lemma {:induction false} FilesOfAppend(a: seq<Photo>, b: seq<Photo>, locId: int)
    ensures FilesOf(a + b, locId) == FilesOf(a, locId) + FilesOf(b, locId)
  {
    if |b| > 0 {
      var n := |b| - 1;
      FilesOfAppend(a, b[..n], locId);
      assert (a + b)[..|a + b| - 1] == a + b[..n];
    } else {
      assert a + b == a;
    }
  }

  lemma {:induction false} FilesOfChunk(locId: int, files: seq<string>, firstId: int, now: int, other: int)
    ensures FilesOf(ChunkRows(locId, files, firstId, now), other) == if other == locId then files else []
  {
    if |files| > 0 {
      var n := |files| - 1;
      FilesOfChunk(locId, files[..n], firstId, now, other);
      assert ChunkRows(locId, files, firstId, now)[..n] == ChunkRows(locId, files[..n], firstId, now);
      if other == locId {
        assert files == files[..n] + [files[n]];
      }
    }
  }

  /** Spot `i` receives exactly the photos of chunk `i`, in chunk order, and no other spot's. */
  lemma {:induction false} SpotGetsItsChunk(chunks: seq<seq<string>>, firstLoc: int, firstId: int, now: int, i: int)
    requires 0 <= i < |chunks|
    ensures FilesOf(SpotPhotos(chunks, firstLoc, firstId, now), firstLoc + i) == chunks[i]
  {
    SpotFiles(chunks, firstLoc, firstId, now, i);
  }

  lemma {:induction false} SpotFiles(chunks: seq<seq<string>>, firstLoc: int, firstId: int, now: int, i: int)
    ensures FilesOf(SpotPhotos(chunks, firstLoc, firstId, now), firstLoc + i)
      == if 0 <= i < |chunks| then chunks[i] else []
  {
    if |chunks| > 0 {
      var m := |chunks| - 1;
      var prev := SpotPhotos(chunks[..m], firstLoc, firstId, now);
      var last := ChunkRows(firstLoc + m, chunks[m], firstId + |prev|, now);
      assert SpotPhotos(chunks, firstLoc, firstId, now) == prev + last;
      SpotFiles(chunks[..m], firstLoc, firstId, now, i);
      FilesSnoc(prev, firstLoc + m, chunks[m], firstId + |prev|, now, firstLoc + i);
      PickChunk(chunks, i, FilesOf(prev, firstLoc + i), FilesOf(prev + last, firstLoc + i));
    }
  }

  /** The files of spot `i` after one more chunk: what it had, plus the new chunk if it is spot `i`'s. */
  lemma PickChunk(chunks: seq<seq<string>>, i: int, before: seq<string>, after: seq<string>)
    requires |chunks| > 0
    requires before == if 0 <= i < |chunks| - 1 then chunks[..|chunks| - 1][i] else []
    requires after == before + (if i == |chunks| - 1 then chunks[|chunks| - 1] else [])
    ensures after == if 0 <= i < |chunks| then chunks[i] else []
  {
    if 0 <= i < |chunks| - 1 {
      assert after == chunks[i] + [];
    } else if i == |chunks| - 1 {
      assert after == [] + chunks[i];
    }
  }

  /** Appending one spot's rows adds that spot's files to its own list and to no other. */
  lemma FilesSnoc(prev: seq<Photo>, locId: int, files: seq<string>, firstId: int, now: int, other: int)
    ensures FilesOf(prev + ChunkRows(locId, files, firstId, now), other)
      == FilesOf(prev, other) + (if other == locId then files else [])
  {
    FilesOfAppend(prev, ChunkRows(locId, files, firstId, now), other);
    FilesOfChunk(locId, files, firstId, now, other);
  }

  /** The photo rows come with consecutive ids, one per photo of the chunks. */
  lemma {:induction false} SpotPhotosIds(chunks: seq<seq<string>>, firstLoc: int, firstId: int, now: int)
    ensures forall k :: 0 <= k < |SpotPhotos(chunks, firstLoc, firstId, now)| ==>
      SpotPhotos(chunks, firstLoc, firstId, now)[k].id == firstId + k
  {
    if |chunks| > 0 {
      var m := |chunks| - 1;
      var prev := SpotPhotos(chunks[..m], firstLoc, firstId, now);
      var last := ChunkRows(firstLoc + m, chunks[m], firstId + |prev|, now);
      SpotPhotosIds(chunks[..m], firstLoc, firstId, now);
      var rows := prev + last;
      assert SpotPhotos(chunks, firstLoc, firstId, now) == rows;
      forall k | 0 <= k < |rows| ensures rows[k].id == firstId + k {
        if k >= |prev| {
          assert rows[k] == last[k - |prev|];
          assert last[k - |prev|].id == firstId + |prev| + (k - |prev|);
        } else {
          assert rows[k] == prev[k];
          assert prev[k].id == firstId + k;
        }
      }
    }
  }

  /** One spot: the location row, then its photo rows. */
  method AddSpot(db: Database, spot: Location, files: seq<string>, now: int) returns (locId: int)
    requires db.Valid()
    modifies db`locations, db`nextLocationId, db`photos, db`nextPhotoId
    ensures db.Valid()
    ensures locId == old(db.nextLocationId) && db.nextLocationId == locId + 1
    ensures db.locations == old(db.locations)[locId := spot]
    ensures db.photos == old(db.photos) + ChunkRows(locId, files, old(db.nextPhotoId), now)
    ensures db.nextPhotoId == old(db.nextPhotoId) + |files|
  {
    locId := db.nextLocationId;
    db.locations := db.locations[locId := spot];
    db.nextLocationId := locId + 1;
    var j := 0;
    while j < |files|
      invariant 0 <= j <= |files|
      invariant db.Valid() && db.locations == old(db.locations)[locId := spot] && db.nextLocationId == locId + 1
      invariant db.photos == old(db.photos) + ChunkRows(locId, files[..j], old(db.nextPhotoId), now)
      invariant db.nextPhotoId == old(db.nextPhotoId) + j
    {
      assert ChunkRows(locId, files[..j + 1], old(db.nextPhotoId), now)
        == ChunkRows(locId, files[..j], old(db.nextPhotoId), now) + [Photo(db.nextPhotoId, locId, files[j], now)];
      db.photos := db.photos + [Photo(db.nextPhotoId, locId, files[j], now)];
      db.nextPhotoId := db.nextPhotoId + 1;
      j := j + 1;
    }
    assert files[..j] == files;
  }

  lemma SpotTableSnoc(spots: seq<Location>, first: int, i: int)
    requires 0 <= i < |spots|
    ensures SpotTable(spots[..i + 1], first) == SpotTable(spots[..i], first)[first + i := spots[i]]
  {
    assert spots[..i + 1][..i] == spots[..i];
  }

  lemma SpotPhotosSnoc(chunks: seq<seq<string>>, firstLoc: int, firstId: int, now: int, i: int)
    requires 0 <= i < |chunks|
    ensures SpotPhotos(chunks[..i + 1], firstLoc, firstId, now)
      == SpotPhotos(chunks[..i], firstLoc, firstId, now)
         + ChunkRows(firstLoc + i, chunks[i], firstId + |SpotPhotos(chunks[..i], firstLoc, firstId, now)|, now)
  {
    assert chunks[..i + 1][..i] == chunks[..i];
  }

  /** The loop of `add_spots`: spot `i` is added with chunk `i`, in order. */
  method AddAll(db: Database, spots: seq<Location>, chunks: seq<seq<string>>, now: int)
    requires db.Valid() && db.locations == map[] && db.photos == []
    requires |chunks| == |spots|
    modifies db`locations, db`nextLocationId, db`photos, db`nextPhotoId
    ensures db.Valid()
    ensures db.locations == SpotTable(spots, old(db.nextLocationId))
    ensures db.photos == SpotPhotos(chunks, old(db.nextLocationId), old(db.nextPhotoId), now)
    ensures db.nextLocationId == old(db.nextLocationId) + |spots|
    ensures db.nextPhotoId == old(db.nextPhotoId) + |db.photos|
  {
    ghost var firstLoc, firstId := db.nextLocationId, db.nextPhotoId;
    var i := 0;
    while i < |spots|
      invariant 0 <= i <= |spots|
      invariant db.Valid()
      invariant db.nextLocationId == firstLoc + i
      invariant db.locations == SpotTable(spots[..i], firstLoc)
      invariant db.photos == SpotPhotos(chunks[..i], firstLoc, firstId, now)
      invariant db.nextPhotoId == firstId + |db.photos|
    {
      SpotTableSnoc(spots, firstLoc, i);
      SpotPhotosSnoc(chunks, firstLoc, firstId, now, i);
      var locId := AddSpot(db, spots[i], chunks[i], now);
      i := i + 1;
    }
    assert spots[..i] == spots && chunks[..i] == chunks;
  }

  /**
   * `add_spots`. `shuffled` is the image files of `listing` in the order `random.shuffle`
   * left them.
   */
  method AddSpots(db: Database, listing: seq<string>, shuffled: seq<string>, now: int)
    requires db.Valid()
    requires multiset(shuffled) == multiset(ImageFiles(listing))
    modifies db`locations, db`nextLocationId, db`photos, db`nextPhotoId
    ensures db.Valid()
    ensures db.locations == SpotTable(Spots(now), old(db.nextLocationId))
    ensures db.photos == SpotPhotos(Chunks(shuffled), old(db.nextLocationId), old(db.nextPhotoId), now)
    ensures db.nextLocationId == old(db.nextLocationId) + |Spots(now)|
    ensures db.nextPhotoId == old(db.nextPhotoId) + |db.photos|
  {
    db.photos := [];
    db.locations := map[];
    var spots := Spots(now);
    var chunks := DistributePhotos(shuffled);
    AddAll(db, spots, chunks, now);
  }
}
