# sp_bot: a verified model of the table-tennis community back end

sp_bot runs a table-tennis community. It has three parts:

- a Telegram bot and a FastAPI web API, which share a relational database;
- a React map client;
- two maintenance scripts.

This project models, in Dafny, the logic the bot and the API run over that database:

- Players challenge each other, accept or decline, and report the result. The web path ends a challenge with a rated match, an Elo update and two ledger rows. The bot path ends it with a flat +10 / max(0, r − 10) rating change.
- Admins create tournaments. Users register while a tournament is open. Starting a tournament pairs the shuffled participants for the first round.
- Users rate locations (one row per user and location) and create locations with photos. The rating endpoint commits the rating and then answers with a server error, because its response model cannot be built from the stored row. The location listing can be filtered. It is modelled as the handler builds it: every item reports `tables_count` 1 and no ratings, and a location whose author row is missing makes the whole request fail with a server error.
- Login goes through the Telegram Login Widget: the data-check-string, the signature check and its skip flag, and the user upsert. The leaderboard and a user's rating history are modelled too.
- The script that recreates the five test spots spreads the photo files over them.
- The script that makes a user an admin.
- The map page filters markers and offers net-type choices. The filter panel has the two checkbox handlers.

The database is one object, `Store.Database`. Each table with an autoincrement key is a `map` from id to row plus the next id to hand out. The rating ledger, the tournament registrations and the photos are sequences in insertion order. `Database.Valid` collects the schema constraints the handlers maintain:

- keys below their counters;
- unique telegram ids;
- no self-challenges;
- `change == rating_after - rating_before` on every ledger row;
- unique tournament registrations;
- one rating per user and location.

Handlers that write are methods with field frames (`modifies db`challenges`). Each such method states the whole new state of what it may change. It also keeps `Valid` and, for challenges, the status machine `ChallengesEvolve`: pending → accepted | declined, accepted → completed. The pure parts (string handling, callback data, the data-check-string, Elo arithmetic, chunking, the map filter) are functions with lemmas.

Inputs that the source takes from its environment are parameters:

- the acting user (the source hard-codes `user_id = 1`);
- the clock `now`, in seconds of local time;
- environment variables;
- the shuffled order that `random.shuffle` produces, required to be a permutation;
- each upload's `uuid4().hex`;
- the directory listing;
- the HMAC-SHA256 digest, as a function `sign(token, message)`;
- the Elo expectation `E_w`, as a real number.

The row types and their defaults are in `models.dfy`:

- a new user has rating 1200 and is not an admin;
- the challenge status takes four values and the tournament status three;
- a match is rated by default, with a nullable winner and loser;
- the per-side challenge results are nullable strings.

These come from app/database/models.py:8-165.

Files:

| file | models |
|---|---|
| `common.dfy` | `Option`, `Result`, the HTTP error type |
| `models.dfy` | the rows of app/database/models.py |
| `store.dfy` | the shared database and its invariants, the `.first()` lookups |
| `text.dfy` | `str(int)`, `int(str)`, `split`/`join`, slicing, `lower()`, `startswith`/`endswith` |
| `elo.dfy` | the integer part of `update_ratings` |
| `challenges.dfy` | app/api/endpoints/challenges.py |
| `telegram_bot.dfy` | app/telegram_bot.py |
| `tournaments.dfy` | app/api/endpoints/tournaments.py |
| `locations.dfy` | app/api/endpoints/locations.py |
| `auth.dfy` | app/api/endpoints/auth.py |
| `test_spots.dfy` | app/database/add_test_spots.py |
| `setup_admin.dfy` | scripts/setup_admin.py |
| `map_view.dfy` | frontend/src/components/Map.tsx |
| `filter_panel.dfy` | frontend/src/components/FilterPanel.tsx |

## Model

| member | source | states |
|---|---|---|
| Store.FirstKey | app/api/endpoints/challenges.py:27 | `.first()` over a filtered table is the lowest matching id, and `None` only when no row matches |
| Store.ByTelegramId | app/telegram_bot.py:27 | the user found has the telegram id; `None` means no user below the counter has it |
| Store.ByUsername | app/telegram_bot.py:89 | the user found has the username and no lower id does; `None` means nobody has it |
| Store.Database.UserByUsername | app/api/endpoints/challenges.py:27 | on a valid database: `None` exactly when no user has that username, otherwise a user who has it |
| Store.Database.UserByTelegramId | app/api/endpoints/auth.py:51 | the found user is the only one with that telegram id (the column is unique); `None` exactly when none has it |
| Store.Database.FirstUser | app/api/endpoints/locations.py:154 | `None` exactly when the users table is empty |
| Store.Database.constructor | app/database/models.py:8-165 | an empty database satisfies every invariant |
| Text.NatToString | app/telegram_bot.py:123 | `str(n)` is a non-empty run of digits with no leading zero |
| Text.NatToStringValue | app/telegram_bot.py:123 | the digits of `str(n)` have value `n` |
| Text.ParseIntRoundTrip | app/telegram_bot.py:136 | `int(str(i)) == i` for every integer, negative ones included |
| Text.ParseIntRejectsNonDigit | app/api/endpoints/locations.py:218-223 | a string holding a character that is neither a digit nor a sign does not parse |
| Text.IndexOf | app/telegram_bot.py:198 | the first occurrence of the separator: it is there, and not before |
| Text.Split | app/telegram_bot.py:198 | `split` never returns an empty list, no piece holds the separator, and joining the pieces gives the string back |
| Text.SplitJoin | app/telegram_bot.py:198 | splitting a join gives the pieces back when none holds the separator |
| Text.SplitAround | app/telegram_bot.py:198 | splitting at the first separator yields the piece before it followed by the pieces of the rest |
| Text.SplitHead | app/telegram_bot.py:136 | the first piece is everything before the first separator |
| Text.IntToStringChars | app/telegram_bot.py:123 | `str(i)` holds only digits and a minus sign |
| Text.PyIndex | app/telegram_bot.py:80 | Python's reading of a slice bound stays within 0..n and keeps an in-range bound |
| Text.TrueTextCases | app/api/endpoints/locations.py:224 | `s.lower() == "true"` holds for every capitalisation of "true" and for nothing of another length; "false" and "" are not true |
| Elo.TruncBounds | app/api/endpoints/challenges.py:194-195 | `int()` truncates toward zero: it moves by less than one and keeps the sign, and `int(-x) == -int(x)` |
| Elo.ExpectedInRange | app/api/endpoints/challenges.py:186 | `1 / (1 + 10 ** d)` lies strictly between 0 and 1 |
| Elo.ChangesBounded | app/api/endpoints/challenges.py:185-195 | for `0 <= E_w <= 1` the winner gains 0..32, the loser loses 0..32, and the two changes cancel |
| Elo.UnderdogGainsMore | app/api/endpoints/challenges.py:194 | a less expected win never gains fewer points |
| Elo.EqualRatingsSwing | app/api/endpoints/challenges.py:186-195 | equal ratings give `E_w = 0.5` and changes +16 and −16 |
| Elo.UnderdogExample | app/api/endpoints/challenges.py:186-195 | a 1200 winner against a 1400 loser gains 24, and the loser drops 24 |
| ChallengesApi.CreateChallenge | app/api/endpoints/challenges.py:22-67 | the four guards in order: unknown target 404, self 400, any challenge created by the actor since midnight 400, a pending/accepted challenge to the same target in this direction 400; success exactly when all four pass, inserting one pending challenge with nothing reported at the next id and advancing the counter; on failure nothing changes |
| ChallengesApi.AcceptChallenge | app/api/endpoints/challenges.py:70-88 | missing challenge 404, actor not the challenged user 403, not pending 400, each leaving the table as it was; success exactly when the actor is the challenged user of a pending challenge, setting accepted and stamping `accepted_at` and touching nothing else |
| ChallengesApi.DeclineChallenge | app/api/endpoints/challenges.py:91-108 | the same guards as accept, and success exactly when they pass; success sets declined only |
| ChallengesApi.UpdateRatings | app/api/endpoints/challenges.py:176-216 | `EloRatingEffect`: nothing changes unless both users exist; otherwise exactly the two ratings move by the Elo changes and two ledger rows with `change == after - before` are appended |
| ChallengesApi.CompleteChallenge | app/api/endpoints/challenges.py:153-172 | the rated match (the "won" side as winner, score "21:19") is stored at the next match id, the users table and the ledger change exactly as `update_ratings` makes them (`EloRatingEffect`, including no change when a player is missing), and the challenge becomes completed with `completed_at` and `match_id` set |
| ChallengesApi.SubmitResult | app/api/endpoints/challenges.py:111-174 | guards in order: result not won/lost 400, missing 404, not accepted 400, non-participant 403; once they pass the answer is 400 exactly when both sides reported the same result and success otherwise; a single report is stored on the actor's side only and the challenge stays accepted; equal reports change nothing; complementary reports complete the challenge as above, users and ledger included |
| TelegramBot.FlatLoss | app/telegram_bot.py:252 | the loser's new rating is never negative, never more than ten below, and exactly ten below from 10 on |
| TelegramBot.FirstMentionSpec | app/telegram_bot.py:78-81 | a mention is found exactly when some entity is a mention, and it is the text of the earliest one without its '@' |
| TelegramBot.MentionOfWrittenName | app/telegram_bot.py:80 | an entity covering `@name` yields `name` |
| TelegramBot.ExtractMention | app/telegram_bot.py:77-81 | the loop with `break` returns the first mention |
| TelegramBot.ButtonDataRoundTrip | app/telegram_bot.py:123-136 | `int(f"{action}_{id}".split("_")[1]) == id` for any action without '_' |
| TelegramBot.ResultButtonRoundTrip | app/telegram_bot.py:160-200 | the result buttons' data parses back to the id and the result token |
| TelegramBot.GetOrCreateUser | app/telegram_bot.py:26-40 | an existing sender is returned with the table unchanged; a new sender whose chat id does not fit the 4-byte `telegram_id` column (app/database/models.py:12) makes the insert raise with nothing written, and exactly then; otherwise exactly one user with the sender's profile and the defaults is inserted at the next id |
| TelegramBot.StartCommand | app/telegram_bot.py:48-67 | `/start` registers the sender as `get_or_create_user` does and answers with the help text, listing the admin commands exactly when the sender is an admin (never for a new user); a registration that raises ends the handler with nothing written |
| TelegramBot.IsAdmin | app/telegram_bot.py:42-45 | true exactly when a user with that telegram id has the admin flag |
| TelegramBot.OpenChallenge | app/telegram_bot.py:89-118 | unknown target, self-target and a challenge already created today each insert nothing; when none of them applies one pending challenge is inserted and the challenge counter advances, otherwise it is kept; there is no active-pair check |
| TelegramBot.ChallengeCommand | app/telegram_bot.py:71-118 | without a usable mention it answers with usage and changes nothing; otherwise the sender is registered first, even when the command then fails; a registration that raises ends the handler with nothing written; then the mentioned name decides: unknown, self, created today, or created |
| TelegramBot.AnswerInvitation | app/telegram_bot.py:135-191 | the id is the integer after the first '_'; missing, not the registered challenged user, and not pending are refused with nothing changed; when the guards pass it accepts (stamping `accepted_at`) or declines |
| TelegramBot.FlatRatingUpdate | app/telegram_bot.py:247-253 | when both users exist the winner gets +10 and the loser `max(0, r - 10)`, otherwise nothing moves; ids and telegram ids are kept |
| TelegramBot.RecordReport | app/telegram_bot.py:225-267 | the report is stored on the sender's side; equal reports return before any write; complementary reports rate the "won" side as winner and complete the challenge with no match row |
| TelegramBot.ResultCallback | app/telegram_bot.py:197-223 | the guards in the handler's order (malformed data, missing challenge, unregistered sender, non-participant, then not accepted) leave everything unchanged; once they pass the reply is recorded, contradictory or finished as the two reports decide; the result token is not validated |
| TelegramBot.SetAdminCommand | app/telegram_bot.py:305-381 | non-admin senders are refused; without a usable mention it answers usage; otherwise the first mention decides: unknown user, already in the requested state, or exactly the target's flag flips |
| TelegramBot.SetAdminFlag | app/telegram_bot.py:327-341 | an unknown name changes nothing; a user already in the requested state (admin for `/addadmin`, not admin for `/removeadmin`, lines 367-381) changes nothing; otherwise exactly that user's flag is set |
| TelegramBot.StatusEmojiDistinct | app/telegram_bot.py:292-297 | the four statuses get four different emoji, and any other text gets the question mark |
| TournamentsApi.ParticipantIds | app/api/endpoints/tournaments.py:148 | the user ids of a tournament's registrations, and nothing else |
| TournamentsApi.ParticipantIdsDistinct | app/api/endpoints/tournaments.py:97-103 | unique registrations leave no user twice in a participant list |
| TournamentsApi.RegisterKeepsUnique | app/api/endpoints/tournaments.py:97-110 | registering a user not yet registered keeps registrations unique |
| TournamentsApi.CreateTournament | app/api/endpoints/tournaments.py:34-59 | non-admin 403, then a missing spot 404, with nothing inserted and the counter kept; success exactly when both pass, inserting one open tournament created by the actor at the next id |
| TournamentsApi.JoinTournament | app/api/endpoints/tournaments.py:85-112 | missing 404, not open 400, already registered 400; success exactly when none applies, appending exactly one registration, and registrations stay unique |
| TournamentsApi.PairsShape | app/api/endpoints/tournaments.py:154-161 | ⌊n/2⌋ pairs, the k-th made of shuffled positions 2k and 2k+1 |
| TournamentsApi.PairsPartition | app/api/endpoints/tournaments.py:154-155 | with distinct ids nobody plays themselves or twice, everyone before the last even position plays, and when n is odd the last id is unmatched |
| TournamentsApi.InsertedContents | app/api/endpoints/tournaments.py:162 | the matches inserted at consecutive ids are exactly the new rows, and old rows are kept |
| TournamentsApi.GenerateBracket | app/api/endpoints/tournaments.py:154-164 | the loop inserts exactly the first-round matches, one per pair, at consecutive ids, and advances the counter by ⌊n/2⌋ |
| TournamentsApi.Halves | app/api/endpoints/tournaments.py:154 | stepping by two from 0 stops after ⌊n/2⌋ full pairs |
| TournamentsApi.StartTournament | app/api/endpoints/tournaments.py:115-144 | guards in order: non-admin 403, missing 404, not open 400, fewer than 2 participants 400, each changing nothing; success exactly when all pass, inserting the bracket at consecutive match ids (⌊n/2⌋ of them) and setting started |
| TournamentsApi.BracketOfParticipants | app/api/endpoints/tournaments.py:148-161 | whatever the shuffle, the bracket has ⌊n/2⌋ unrated, undecided matches of the tournament, between two different registered users |
| TournamentsApi.ShuffleDistinct | app/api/endpoints/tournaments.py:151 | a permutation of a list without repeats has the same length and no repeats |
| LocationsApi.ExistingRating | app/api/endpoints/locations.py:167-170 | a found rating belongs to the user and the location; `None` means the pair has no rating |
| LocationsApi.UpsertSpec | app/api/endpoints/locations.py:167-190 | afterwards the pair has exactly one rating, with the new score and comment; an existing row keeps its id, user, location and `created_at` and only score and comment change, with the same keys; otherwise one row is added at the next id; other rows are untouched, and one rating per pair still holds |
| LocationsApi.CreateRating | app/api/endpoints/locations.py:146-190 | no user 404, missing location 404, score outside 1..5 400, all before any write; when all pass the upsert is committed (the id counter advances only when a row is added) and the answer is a 500, because the returned row fails `RatingResponse` (lines 44-52) |
| LocationsApi.StoreRating | app/api/endpoints/locations.py:167-190 | the rating table becomes `Upsert`; the returned id is the pair's existing row, or the next id, which only then is consumed |
| LocationsApi.TablesCount | app/api/endpoints/locations.py:218-223 | the parsed value when it is at least 1, otherwise 1, including when it does not parse |
| LocationsApi.TablesCountOfNumber | app/api/endpoints/locations.py:218-223 | a number written in the form comes back unchanged when positive, and as 1 otherwise |
| LocationsApi.RFind | app/api/endpoints/locations.py:246 | the last occurrence of a character, or −1 when it is absent |
| LocationsApi.ExtSpec | app/api/endpoints/locations.py:246 | an extension is empty, or a suffix of the name starting with its only dot and holding no '/' |
| LocationsApi.ExtOfName | app/api/endpoints/locations.py:246 | a name with a proper stem keeps its last dot and what follows as the extension |
| LocationsApi.RFindLast | app/api/endpoints/locations.py:246 | the last dot is found after the stem when the suffix has none |
| LocationsApi.ExtOfDotfile | app/api/endpoints/locations.py:246 | a hidden-file name such as ".png" has no extension |
| LocationsApi.PhotoNameLocation | app/api/endpoints/locations.py:247 | the location id can be read back from a stored name `{location_id}_{hex}{ext}` |
| LocationsApi.Named | app/api/endpoints/locations.py:243-245 | the positions of the uploads with a file name |
| LocationsApi.NamedComplete | app/api/endpoints/locations.py:243-245 | every upload with a file name is among them, in ascending order |
| LocationsApi.AllNamed | app/api/endpoints/locations.py:243-245 | when every upload has a file name, every upload is stored, in order |
| LocationsApi.PhotoNames | app/api/endpoints/locations.py:246-247 | upload i is stored as `f"{location_id}_{hexes[i]}{ext}"` |
| LocationsApi.StoredPhotoRow | app/api/endpoints/locations.py:243-252 | row k of a new location's photos is its k-th named upload, under the stored name, with the location id readable from that name |
| LocationsApi.StorePhotos | app/api/endpoints/locations.py:243-253 | the loop appends exactly one photo row per upload with a file name, in upload order, at consecutive ids |
| LocationsApi.CreateLocation | app/api/endpoints/locations.py:200-254 | no user 404 with nothing written; a coerced `tables_count` outside the 4-byte column (app/database/models.py:40) 500 with nothing written; success exactly when neither applies, writing one location row with the coerced `tables_count` and `has_roof` at the next id, followed by its photo rows, and advancing both counters |
| LocationsApi.PhotoItems | app/api/endpoints/locations.py:82-88 | a listed location's photos are exactly its own photos, each with its id, `"/static/photos/" + file_path` and the location id |
| LocationsApi.ListingSpec | app/api/endpoints/locations.py:60-105 | the listing holds exactly the stored locations the filters keep (`has_roof` when given, `net_type` when non-empty), each once, in ascending id; each item reports the stored row except `tables_count`, which is always 1, with `average_rating` 0.0 and `ratings_count` 0, and has an author exactly when the row's user exists |
| LocationsApi.GetLocations | app/api/endpoints/locations.py:55-105 | the response is that listing, or a 500 exactly when some listed location has no author |
| AuthApi.Get | app/api/endpoints/auth.py:56-59 | `data.get(k)` is `None` exactly when the key is absent, otherwise the value stored under it |
| AuthApi.LexIrreflexive | app/api/endpoints/auth.py:24 | Python's string order is irreflexive |
| AuthApi.LexTransitive | app/api/endpoints/auth.py:24 | Python's string order is transitive |
| AuthApi.LexTotal | app/api/endpoints/auth.py:24 | Python's string order is total on different strings |
| AuthApi.LexAsymmetric | app/api/endpoints/auth.py:24 | Python's string order is asymmetric |
| AuthApi.InsertSpec | app/api/endpoints/auth.py:24 | inserting an entry with a new key into a key-sorted list keeps it sorted and adds exactly that entry |
| AuthApi.SortByKeySpec | app/api/endpoints/auth.py:24 | `sorted(items)` with distinct keys is a key-sorted permutation |
| AuthApi.KeySortedUnique | app/api/endpoints/auth.py:24 | two key-sorted lists with the same entries are equal, so the sorted order is unique |
| AuthApi.WithoutHash | app/api/endpoints/auth.py:22-23 | no entry is keyed "hash" after the pop |
| AuthApi.WithoutHashCount | app/api/endpoints/auth.py:22-23 | popping "hash" keeps every other entry exactly as often as before |
| AuthApi.WithoutHashDistinct | app/api/endpoints/auth.py:22-23 | keys stay distinct after the pop |
| AuthApi.Lines | app/api/endpoints/auth.py:24 | one `k=v` line per entry |
| AuthApi.DataCheckStringOrderFree | app/api/endpoints/auth.py:22-24 | objects with the same entries in any order give the same data-check-string |
| AuthApi.DataCheckStringLines | app/api/endpoints/auth.py:22-24 | the string is the `k=v` lines of the entries other than "hash", each once, in ascending key order, joined by newlines |
| AuthApi.HashNotSigned | app/api/endpoints/auth.py:22-24 | adding a "hash" entry does not change the string that is signed |
| AuthApi.CheckTelegramAuthSpec | app/api/endpoints/auth.py:21-27 | the check passes exactly when the "hash" entry is a string equal to the digest of the data-check-string; with no hash it never passes |
| AuthApi.SignedObjectPasses | app/api/endpoints/auth.py:21-27 | an object signed with the same bot token passes |
| AuthApi.SkipSignatureCases | app/api/endpoints/auth.py:42 | an unset variable skips the check; a set one skips exactly when it is "true" in any capitalisation |
| AuthApi.LoggedIn | app/api/endpoints/auth.py:48-71 | the table has exactly one row for the telegram id, holding the object's profile fields; an existing row keeps its rating, admin flag and creation time; a new row gets the defaults at the next id; other rows are kept; telegram ids stay unique |
| AuthApi.LoginIdempotent | app/api/endpoints/auth.py:51-71 | logging in twice with the same object leaves the table as one login does, and gives the same user |
| AuthApi.Login | app/api/endpoints/auth.py:51-71 | the upsert performs exactly `LoggedIn`, except that inserting a telegram id outside the 4-byte column fails with a 500 and writes nothing, and exactly then |
| AuthApi.TelegramAuth | app/api/endpoints/auth.py:30-82 | a missing or empty bot token 500; a failed check when not skipped 400; a missing or non-numeric id 500; a new user whose id does not fit the 4-byte `telegram_id` column 500; each leaves the users unchanged; success exactly otherwise, with the login of `int(data["id"])` |
| AuthApi.Leaderboard | app/api/endpoints/auth.py:85-99 | one entry per user, in query order |
| AuthApi.LeaderboardPlaces | app/api/endpoints/auth.py:86-98 | each user has exactly one entry with their rating; places run 1..n; a higher rating always has a better place |
| AuthApi.OpponentIsOther | app/api/endpoints/auth.py:109 | in a match between two players the user played, the opponent is the other one |
| AuthApi.HistoryEntries | app/api/endpoints/auth.py:104-118 | never more entries than ledger rows |
| AuthApi.HistoryEntriesSpec | app/api/endpoints/auth.py:105-118 | an entry is exactly the mapping of a row whose match exists (rows with a missing match are skipped); when every match exists there is one entry per row |
| AuthApi.HistoryChangesBalanced | app/api/endpoints/auth.py:114-116 | every entry built from the ledger has `change == rating_after - rating_before` |
| AuthApi.GetUserHistory | app/api/endpoints/auth.py:102-119 | given exactly the user's ledger rows, newest first, the loop builds exactly those entries |
| TestSpots.Spots | app/database/add_test_spots.py:7-58 | there are five test spots |
| TestSpots.ImageFilesSpec | app/database/add_test_spots.py:71 | exactly the .jpg/.jpeg/.png files (in any case) are kept, each as often as listed |
| TestSpots.Slices | app/database/add_test_spots.py:76 | one slice per spot |
| TestSpots.SlicesAt | app/database/add_test_spots.py:76 | slice j is `photos[j*p:(j+1)*p]` |
| TestSpots.OffsetIsProduct | app/database/add_test_spots.py:76 | the slice offsets are `j*p` |
| TestSpots.Distribute | app/database/add_test_spots.py:79-80 | the leftover loop keeps one chunk per spot |
| TestSpots.Chunks | app/database/add_test_spots.py:75-80 | there are `len(spots)` chunks |
| TestSpots.SliceAll | app/database/add_test_spots.py:76 | the comprehension builds exactly the slices |
| TestSpots.DistributePhotos | app/database/add_test_spots.py:75-80 | the slicing and the leftover loop build exactly the chunks |
| TestSpots.DistributeFew | app/database/add_test_spots.py:79-80 | with fewer leftovers than spots, leftover k goes to chunk k |
| TestSpots.PerSpotArith | app/database/add_test_spots.py:75-78 | `max(1, n // 5)`: with at least five photos the slices cover all but `n % 5`, otherwise they reach past the end |
| TestSpots.ChunkContents | app/database/add_test_spots.py:76-80 | chunk k is the k-th slice plus the k-th leftover when there is one |
| TestSpots.ChunkSizeAt | app/database/add_test_spots.py:75-80 | the size of each chunk is `ChunkSize(n, k)` |
| TestSpots.ChunkSizes | app/database/add_test_spots.py:75-80 | chunk sizes are `n // 5` or one more, the larger first, never growing from one spot to the next and differing by at most one; with fewer photos than spots the first n chunks hold one each |
| TestSpots.UnionAppend | app/database/add_test_spots.py:80 | appending a photo to one chunk adds it once to the union |
| TestSpots.UnionDistribute | app/database/add_test_spots.py:79-80 | the leftover loop adds exactly the leftovers |
| TestSpots.UnionSlices | app/database/add_test_spots.py:76 | the slices together hold exactly the photos they cover |
| TestSpots.ChunksPartition | app/database/add_test_spots.py:75-80 | every photo lands in exactly one chunk: the chunks together hold exactly the photos |
| TestSpots.SpotTableSpec | app/database/add_test_spots.py:82-85 | spot i is stored at id `first + i`, and there is nothing else in the table |
| TestSpots.ChunkRows | app/database/add_test_spots.py:86-88 | one photo row per file of the chunk |
| TestSpots.FilesOfChunk | app/database/add_test_spots.py:86-88 | a chunk's rows carry its files, and only for its own location |
| TestSpots.SpotGetsItsChunk | app/database/add_test_spots.py:82-88 | spot i receives exactly the photos of chunk i, in chunk order, and no other spot's |
| TestSpots.SpotPhotosIds | app/database/add_test_spots.py:86-88 | the photo rows get consecutive ids |
| TestSpots.AddSpot | app/database/add_test_spots.py:83-88 | one location row at the next id, followed by its chunk's photo rows |
| TestSpots.AddAll | app/database/add_test_spots.py:82-89 | the loop stores spot i at consecutive location ids with chunk i; both id counters advance by the rows written |
| TestSpots.AddSpots | app/database/add_test_spots.py:63-90 | every old photo and location is deleted; afterwards the table holds exactly the five spots, and the photo rows are the chunks of the shuffled image files, spot by spot |
| SetupAdmin.Promote | scripts/setup_admin.py:16-37 | true exactly when some user has the username; an unknown user changes nothing; otherwise the first such user ends up with the admin flag, and only that flag of that row can change |
| SetupAdmin.PromoteIdempotent | scripts/setup_admin.py:28-37 | a second run reports the same and writes nothing |
| SetupAdmin.PromoteKeepsValid | scripts/setup_admin.py:33 | promoting keeps ids and unique telegram ids |
| SetupAdmin.SetupAdmin | scripts/setup_admin.py:16-37 | the method performs exactly `Promote` |
| SetupAdmin.AdminName | scripts/setup_admin.py:46-47 | one leading '@' is removed, and a name without one is kept |
| SetupAdmin.AdminNameStripsOne | scripts/setup_admin.py:46-47 | only one '@' is removed |
| SetupAdmin.Script | scripts/setup_admin.py:39-51 | exit status 0 exactly when there is one argument and the named user exists, 1 otherwise; a wrong argument count changes nothing |
| SetupAdmin.RunScript | scripts/setup_admin.py:39-51 | the method performs exactly `Script` |
| MapView.Filtered | frontend/src/components/Map.tsx:95-99 | a location is kept exactly when it is in the list and passes both checks; never more than the input |
| MapView.KeptIndices | frontend/src/components/Map.tsx:95 | the kept locations sit at increasing positions of the input |
| MapView.FilteredSubsequence | frontend/src/components/Map.tsx:95 | the filtered list is an order-preserving subsequence |
| MapView.FilteredIdentity | frontend/src/components/Map.tsx:95-99 | with the roof box clear and no net type selected, every location is drawn |
| MapView.FilteredSound | frontend/src/components/Map.tsx:96-97 | a drawn location has a roof when one is asked for, and a selected net type when any is |
| MapView.FilteredComplete | frontend/src/components/Map.tsx:96-98 | a location meeting both conditions is drawn |
| MapView.Dedup | frontend/src/components/Map.tsx:59 | `Array.from(new Set(xs))` has no repeats and the same values |
| MapView.TruthyValues | frontend/src/components/Map.tsx:59 | `.filter(Boolean)` keeps exactly the present, non-empty values, and no repeats |
| MapView.NetTypes | frontend/src/components/Map.tsx:59 | one net type per location, in order |
| MapView.AvailableNetTypesSpec | frontend/src/components/Map.tsx:59 | each present, non-empty net type is offered exactly once, and nothing else is |
| MapView.HasRoofAvailable | frontend/src/components/Map.tsx:60 | true exactly when some location has a roof |
| MapView.RoofFilterWithoutRoofs | frontend/src/components/Map.tsx:60-96 | asking for a roof when no location has one draws nothing |
| MapView.WithUrl | frontend/src/components/Map.tsx:110-113 | a photo keeps a truthy url, else gets `"/static/photos/" + file_path` when that is set, else ""; the id and path are kept |
| MapView.WithUrls | frontend/src/components/Map.tsx:110 | missing photos become an empty list; otherwise each photo gets its url, in order |
| MapView.AddLocation | frontend/src/components/Map.tsx:114-117 | the new location is appended at the end with its photos' urls filled in; the earlier ones are kept |
| MapView.WithUrlsIdempotent | frontend/src/components/Map.tsx:110-113 | filling in urls twice changes nothing |
| FilterPanel.Without | frontend/src/components/FilterPanel.tsx:32 | the type is gone, every other value is kept, and nothing is added |
| FilterPanel.WithoutAppend | frontend/src/components/FilterPanel.tsx:32 | the removal distributes over concatenation, so the other types keep their order |
| FilterPanel.WithoutAbsent | frontend/src/components/FilterPanel.tsx:32 | removing a type that is not selected changes nothing |
| FilterPanel.WithoutOnly | frontend/src/components/FilterPanel.tsx:32 | removing the only selected type leaves none |
| FilterPanel.WithoutCounts | frontend/src/components/FilterPanel.tsx:32 | every other type keeps its number of occurrences |
| FilterPanel.RoofChange | frontend/src/components/FilterPanel.tsx:22-27 | the roof box sets `hasRoof` to the box's state and leaves the net types alone |
| FilterPanel.NetTypeChange | frontend/src/components/FilterPanel.tsx:29-37 | checking appends the type at the end; unchecking removes every occurrence and keeps the counts of the others; `hasRoof` is kept |
| FilterPanel.CheckUncheck | frontend/src/components/FilterPanel.tsx:30-32 | checking a type that is not selected and then unchecking it restores the filters |
| FilterPanel.UncheckLastShowsAll | frontend/src/components/FilterPanel.tsx:32 | unchecking the only selected type, with the roof box clear, draws every location again |
| FilterPanel.CheckedTypeShown | frontend/src/components/FilterPanel.tsx:30-31 | after checking a type, every location of that type that meets the roof condition is drawn |

## Left out

- Elo.Expected: the float expectation `1 / (1 + 10 ** ((L - W) / 400))` is a real-number function of the power `10 ** ((L - W) / 400)`, which is itself a parameter. `ChallengesApi.UpdateRatings` takes `E_w` as a real input; only its truncation, signs and ledger arithmetic are proved. Float rounding is not modelled.
- AuthApi.CheckTelegramAuth: SHA-256, HMAC and the hex digest are the parameter `sign`. JWT creation (app/api/endpoints/auth.py:74-80) is not modelled, so `TelegramAuth` returns the user id that becomes `sub`, not a token.
- AuthApi.Show: the widget's JSON values are strings, integers and null. Booleans and floats, and their rendering in the f-string, are not modelled.
- Text.ParseInt: covers an optional sign followed by ASCII digits. Python's `int()` also accepts surrounding whitespace, underscores between digits and non-ASCII digits; those inputs are treated as not parsing.
- Text.Lower: lower-cases ASCII letters only. Full Unicode case mapping is not modelled.
- Strings are sequences of code points. The JavaScript client's UTF-16 view and the Telegram entity offsets in UTF-16 units are not distinguished.
- SQLAlchemy type coercion and the database's handling of `created_at >= date` comparisons are modelled by integer timestamps.
- Ids are counters in the model; PostgreSQL sequences, which can skip values, are not modelled.
- Integer columns are 4 bytes wide. The model enforces that range where a request can supply an out-of-range value: a user's `telegram_id` and a location's `tables_count` (`Models.FitsInteger`). Ids, ratings, scores and the other integer columns are unbounded in the model, because no handler lets a client push them past 2^31 − 1 short of billions of requests.
- Foreign keys and cascades are not checked. In particular, the deletes in `add_spots` ignore the ratings and tournaments that refer to deleted locations.
- Transactions are modelled by their committed effect. Concurrent requests (both players submitting at once) are not modelled.
- Store.FirstKey: `.first()` without an `ORDER BY` returns whichever matching row the database yields first. The model fixes that choice as the lowest matching id. Where more than one row can match, the database may pick another one. This applies to lookups by username, which is not a unique column (app/database/models.py:13): app/api/endpoints/challenges.py:27, app/telegram_bot.py:89, scripts/setup_admin.py:21. It also applies to the "first user" at app/api/endpoints/locations.py:154 and 214.
- Store.ByUsername: picks the lowest id among users sharing a username, for the reason given under `Store.FirstKey`.
- LocationsApi.ListingSpec: `query.all()` (app/api/endpoints/locations.py:69) and `loc.photos` have no `ORDER BY`. The model lists locations in ascending id and photos in insertion order. That is one order the database may return, not one the source guarantees.
- TournamentsApi.StartTournament: the order of `query.all()` and the outcome of `random.shuffle` are the input `shuffled`, required to be a permutation of the registered ids.
- AuthApi.Leaderboard: the order among equal ratings is the database's, given as input `ranked`. `GetUserHistory` likewise takes the ledger rows in the order the query returns them.
- LocationsApi.CreateLocation: one `uuid4().hex` per upload is the input `hexes`. File writes, the upload bytes, `latitude`/`longitude` as floats, and the logging are not modelled.
- TestSpots.AddSpots: the directory listing and the shuffled order are inputs. The latitude and longitude of the spots are kept as given; their float values play no part.
- MapView.MapLocation: the client's latitude, longitude, author and average rating fields are omitted; no filter reads them.
- MapView.AvailableNetTypesSpec: the choices come in order of first occurrence. That order is computed by `Dedup` but not stated as a lemma.
- React rendering, state hooks, axios requests and the map widget are not modelled. The handlers are functions from the old state to the new.
- The read-only listings `get_challenges` (app/api/endpoints/challenges.py:218-241), `get_tournaments` (app/api/endpoints/tournaments.py:61-82), `get_location` and `get_location_ratings` (app/api/endpoints/locations.py:107-144 and 192-197) are not modelled. They compute no more than lookups and field copies.
- The wording of the bot's `/start` help text (its greeting name), the `/challenges` listing beyond its status emoji, and the `/tournament` placeholder (app/telegram_bot.py:53-67, 270-301, 384-398) are not modelled. They only compose reply text; the replies themselves are names of messages in `TelegramBot.Reply`.
- Polling, keyboards and message sending of the bot framework, and FastAPI routing, are not modelled.
