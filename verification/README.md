# worship-manager: the in-memory store and its write rules, in Dafny

worship-manager is a small Express service for a church band. It keeps three
collections in memory: members, songs (with a default soloist) and rotation
schedules ("scales": a name, a date and an ordered list of song/soloist
assignments). This project models, as pure functions over an immutable `Store`
value:

- the store of `src/data/database.js`. Each collection has its own id counter, and
  each kind has list / getById / add / update (a shallow merge) / delete. There is
  also `resetDatabase`. The five operations are written once over a generic
  `Table<F>`.
- the route handlers of `src/routes/members.js`, `music.js` and `scales.js`. They
  check required fields with JavaScript truthiness, email uniqueness, access
  levels and cross-references. They build the "enriched" read views, which show
  `null` for a dangling reference. Each handler returns `(Reply, Store)`.
- the login handler of `src/routes/auth.js`, and the middleware of
  `src/middleware/auth.js`. The middleware covers reading the bearer token,
  verifying it, the administrator gate, the token payload, and the
  email/password check.
- `src/data/seed.js`, which seeds five members and five songs.

bcrypt and JSON Web Tokens are passed in as function parameters:

- `hash` for bcrypt.hash, as a fixed function (see "## Left out" for the salt);
- `matches` for bcrypt.compare;
- `sign` for jwt.sign;
- `verify` for jwt.verify.

A property that depends on them says what it assumes of them, for example
`forall p :: matches(p, hash(p))`.

Modules and files:

- `Wrappers`, `Table`, `Database`: the store.
- `Request`: how a JSON body field is read, where "" and 0 count as absent.
- `Http`: reply kinds.
- `Views`: response shapes.
- `MemberRoutes`, `MusicRoutes`, `ScaleRoutes`: the route files.
- `AuthMiddleware`, `AuthRoutes`: the middleware and POST /auth/login.
- `Seed`: the seed.
- `Scenario`: end-to-end runs over the seeded store.

Behaviours of the code worth knowing, all modelled as written:

- **An invalid token and a non-administrator get the same status.** A token that
  fails verification is answered with 403, the same status a valid token of a
  non-administrator gets on a write route; only the message text differs. A
  missing token is 401. `AuthRoutes.Gate` returns exactly those statuses.
- **Scale PUT can commit and then fail.** PUT /scales/:id commits the update first
  (src/routes/scales.js:460). It then reads `music.id` and `soloist.id` with no
  null check. So when the entry list is kept and one kept entry no longer
  resolves, the handler answers 500 with the store already changed.
  `ScaleRoutes.Update` models this, and `ScaleRoutes.UpdateFaultAfterCommit`
  exhibits it.
- **An update can overwrite a record's id.** `updateX` spreads the updates over
  the record, so an `id` key in the updates replaces the id
  (src/data/database.js:20). `Table.Update` takes a `Patch` with an optional id.
  "The id is preserved" is proved only for the patches the routes build, and
  those never carry one.

## Model

| member | source | states |
|---|---|---|
| Table.FirstWhere | src/data/database.js:18 | `findIndex`: the first position whose row satisfies the predicate, -1 exactly when no row does |
| Table.FindIndex | src/data/database.js:18 | the first position holding the id, -1 exactly when no row has it |
| Table.Find | src/data/database.js:11 | getById: absent exactly when no row has the id; otherwise a stored row with that id |
| Table.FindFirst | src/data/database.js:11 | `find` returns the first match: a row with the id that no earlier row shares it with is exactly what is found, whatever later rows hold |
| Table.Add | src/data/database.js:12-16 | add: the new row is appended at the end with the counter's value as id (any id the caller passed is discarded), and the counter advances by one |
| Table.Update | src/data/database.js:17-24 | update: absent with the table unchanged when the id is missing; otherwise the merged row replaces the first match at the same position, length and counter stay, every other row is unchanged |
| Table.Delete | src/data/database.js:25-32 | delete: true exactly when a row had the id, then that row is spliced out and the others keep their order; false with the table unchanged otherwise |
| Table.FindStored | src/data/database.js:11 | in a well-formed table every stored row is what its own id finds |
| Table.AddIssuesFreshId | src/data/database.js:5-16 | add keeps the table well formed, issues an id above every stored id, makes the new row findable and leaves every other lookup unchanged |
| Table.FindAppend | src/data/database.js:12-16 | appending a row with another id does not change what an id finds |
| Table.FindSplice | src/data/database.js:25-32 | splicing out a row with another id does not change what an id finds |
| Table.UpdateKeepsLookups | src/data/database.js:17-24 | an update without an `id` key leaves the updated row under its id and every other id's lookup unchanged |
| Table.UpdateKeepsIds | src/data/database.js:17-24 | an update without an `id` key keeps the table well formed and the updated row findable under its id |
| Table.DeleteRemovesExactly | src/data/database.js:25-32 | delete keeps the table well formed, removes exactly one row when the id was there, the id is no longer found, and every other lookup is unchanged |
| Table.ReplayNeverReusesIds | src/data/database.js:5-32 | over any history of adds, deletes and updates, whatever merge the updates use, the issued ids strictly increase, lie between the old and new counter, and well-formedness is kept: ids are never reused, even after deletes |
| Database.Over | src/data/database.js:20 | one key of `{ ...old, ...updates }`: the update's value when it carries the key, the old value otherwise |
| Database.ResetDatabase | src/data/database.js:85-92 | all three collections are empty and all three counters are 1 |
| Database.GetMembers | src/data/database.js:9 | the stored members themselves, position by position, so in insertion order: every member a lookup by id finds is listed, and every listed member can be looked up by its id |
| Database.GetMusic | src/data/database.js:34 | the same for the songs |
| Database.GetScales | src/data/database.js:59 | the same for the scales |
| Database.GetMemberById | src/data/database.js:11 | Table.Find over the members, so first match and null when absent as Table.Find and Table.FindFirst state; the member found carries the id |
| Database.GetMusicById | src/data/database.js:36 | the same over the songs; the song found carries the id |
| Database.GetScaleById | src/data/database.js:61 | the same over the scales; the scale found carries the id |
| Database.AddMember | src/data/database.js:12-16 | appends under the member counter, advances it by one, and leaves songs and scales untouched |
| Database.UpdateMember | src/data/database.js:17-24 | touches neither songs nor scales |
| Database.DeleteMember | src/data/database.js:25-32 | touches neither songs nor scales, so nothing cascades |
| Database.AddMusic | src/data/database.js:37-41 | appends under the song counter and leaves members and scales untouched |
| Database.UpdateMusic | src/data/database.js:42-49 | touches neither members nor scales |
| Database.DeleteMusic | src/data/database.js:50-57 | touches neither members nor scales |
| Database.AddScale | src/data/database.js:62-66 | appends under the scale counter and leaves members and songs untouched |
| Database.UpdateScale | src/data/database.js:67-74 | touches neither members nor songs |
| Database.DeleteScale | src/data/database.js:75-82 | touches neither members nor songs |
| Database.UpdateMemberMergeLaw | src/data/database.js:17-24 | merge law of the `{ ...member, ...updates }` that Database.MergeMember writes: each key the update carries takes its new value, every other field keeps its old one, same position and length, id changes only with an `id` key |
| Database.UpdateMusicMergeLaw | src/data/database.js:42-49 | the same merge law for songs, as Database.MergeSong writes it |
| Database.UpdateScaleMergeLaw | src/data/database.js:67-74 | the same merge law for scales, as Database.MergeScale writes it; the entry list is replaced wholesale or kept |
| Database.UpdateMissingMember | src/data/database.js:17-24 | updating an id no member has returns null and leaves the store as it was, whatever songs and scales hold |
| Database.UpdateMissingMusic | src/data/database.js:42-49 | the same for an id no song has, whatever members and scales hold |
| Database.UpdateMissingScale | src/data/database.js:67-74 | the same for an id no scale has, whatever members and songs hold |
| Database.DeleteMemberDoesNotCascade | src/data/database.js:25-32 | deleting a member leaves a song that names it stored and unchanged, and that soloist reference now finds nothing |
| Database.OperationsKeepValid | src/data/database.js:5-82 | every add, every update without an `id` key and every delete keeps all three collections well formed |
| Request.IfGiven | src/routes/members.js:333-335 | `if (field) updateData.key = field`: the key is set exactly when the field is truthy, and then to the field |
| Request.IfGivenId | src/routes/music.js:348-357 | the same for an id field, where 0 counts as not given |
| Views.Strip | src/routes/members.js:115-118 | the public member carries every stored field except the password |
| Views.SoloistOf | src/routes/music.js:115-124 | the soloist snapshot `{id, name, voiceType}` of the member, null exactly when the id does not resolve |
| Views.SongOf | src/routes/scales.js:128-138 | the song snapshot `{id, name, key, versionLink}`, null exactly when the id does not resolve |
| Views.ViewSong | src/routes/music.js:115-124 | a song as read (GET /music/:id and PUT repeat this enrichment): its stored fields unchanged, and the snapshot of the member it names, null exactly when that member is gone |
| Views.ViewEntry | src/routes/scales.js:127-144 | one entry as read: both ids as stored, the song snapshot null exactly when the song is gone, the soloist snapshot null exactly when the member is |
| Views.ViewScale | src/routes/scales.js:204-227 | the enriched scale keeps id, name, date and entry order, and each entry gets its two snapshots or null |
| Views.StrictEntry | src/routes/scales.js:464-480 | one entry enriched without null checks: it succeeds exactly when both references resolve, and then equals the null-safe entry view |
| Views.StrictEntries | src/routes/scales.js:463-481 | the `map` over the entries: it succeeds exactly when every entry succeeds, and then holds each entry's enrichment in order |
| Views.StrictViewScale | src/routes/scales.js:463-486 | the enrichment without null checks, built from the per-entry map, succeeds exactly when every entry resolves, and then equals the null-safe view |
| Views.StrictViewHasSnapshots | src/routes/scales.js:321-344 | when the strict enrichment succeeds, every entry carries both snapshots |
| MemberRoutes.List | src/routes/members.js:110-120 | every member in store order, none with its password |
| MemberRoutes.Get | src/routes/members.js:158-173 | 404 exactly when the id is missing; otherwise the member without its password |
| MemberRoutes.Create | src/routes/members.js:217-264 | 400 for missing fields, then for an email any member already has (plain equality), then for an access level other than admin/common, each exactly in its case and with nothing stored; a request passing all three checks is answered 201, exactly one member is appended with the hash of the password, and the reply omits it |
| MemberRoutes.UpdateData | src/routes/members.js:332-349 | only truthy fields enter the update; a given password enters hashed |
| MemberRoutes.Update | src/routes/members.js:317-371 | 404 exactly when the member is missing; an invalid access level is refused before the email check; a truthy new email that differs from the member's own and is taken is refused; the answer is 200 exactly when the member exists and neither refusal applies; nothing is stored otherwise, and on 200 the store is the committed merge and the reply the stripped merged member |
| MemberRoutes.Delete | src/routes/members.js:414-439 | 404 with no change exactly when the member is missing; otherwise the member is deleted; songs and scales are never touched |
| MemberRoutes.OwnEmailNeverDuplicate | src/routes/members.js:352-360 | sending a member's current email back never yields the duplicate-email refusal |
| MemberRoutes.CreateKeepsConsistent | src/routes/members.js:230-256 | creation keeps emails unique and access levels known, and GET of the new id returns what POST answered |
| MemberRoutes.UpdateKeepsConsistent | src/routes/members.js:336-363 | update keeps emails unique and access levels known, and GET of the id returns what PUT answered |
| MemberRoutes.DeleteKeepsConsistent | src/routes/members.js:419-433 | delete keeps the member invariant and the id is no longer found |
| MemberRoutes.SpliceKeepsMemberFacts | src/data/database.js:25-32 | splicing one member out of the array keeps emails unique and access levels known |
| MemberRoutes.EmailIdentifiesMember | src/routes/members.js:230-236 | under the invariant two members with the same email are the same member |
| MusicRoutes.List | src/routes/music.js:110-127 | every song in store order with its soloist snapshot or null |
| MusicRoutes.Get | src/routes/music.js:165-188 | 404 exactly when the song is missing; otherwise the enriched song |
| MusicRoutes.Create | src/routes/music.js:232-275 | 400 with nothing stored when any of the five fields is falsy, or when the soloist does not resolve, each exactly in its case; 201 exactly when all five are truthy and the soloist resolves, and then one song is appended under a fresh id with those fields and the reply is that song as a read of the new store shows it, with the found soloist's snapshot |
| MusicRoutes.UpdateData | src/routes/music.js:343-357 | only truthy fields enter the update |
| MusicRoutes.Update | src/routes/music.js:328-377 | 404 when the song is missing; 400 exactly when a truthy new soloist does not resolve, before anything is stored; 200 exactly when the song exists and that refusal does not apply, and then the store is the committed merge and the reply the enriched merged song |
| MusicRoutes.Delete | src/routes/music.js:420-445 | 404 with no change exactly when the song is missing; otherwise it is deleted; members and scales untouched |
| MusicRoutes.CreateThenGet | src/routes/music.js:254-270 | creation keeps the store well formed and GET of the new id returns what POST answered |
| MusicRoutes.UpdateThenGet | src/routes/music.js:361-372 | update keeps the store well formed, GET returns what PUT answered, and a newly named soloist resolves |
| MusicRoutes.UpdateSetsOnlyGivenFields | src/routes/music.js:343-361 | each truthy field takes the new value, every other field and the id keep the old ones |
| MusicRoutes.DanglingSoloistReadsAsNull | src/routes/music.js:115-124 | a song whose soloist is gone is still listed, with a null soloist and its soloistId unchanged |
| ScaleRoutes.EntryError | src/routes/scales.js:286-310 | the error for one entry: missing ids, else the unknown song (naming its id), else the unknown soloist (naming its id), else none |
| ScaleRoutes.FirstBadEntry | src/routes/scales.js:286-311 | the loop stops at the first entry that fails, every earlier one passes, and none is reported exactly when all pass |
| ScaleRoutes.Assignments | src/routes/scales.js:314-318 | the stored entries are the request's, in the request's order, and all resolve |
| ScaleRoutes.List | src/routes/scales.js:121-153 | every scale in store order, null-safely enriched |
| ScaleRoutes.Get | src/routes/scales.js:191-229 | 404 exactly when the scale is missing; otherwise its null-safe view |
| ScaleRoutes.Create | src/routes/scales.js:273-349 | 400 for a missing name or date or a songs value that is not a non-empty array, then the first failing entry's error, each with nothing stored; otherwise exactly one scale is appended under a fresh id with the given name, date and entries in order |
| ScaleRoutes.SongsUpdate | src/routes/scales.js:420-457 | songs absent keeps the list; a non-array or empty array is refused; otherwise refused with the first failing entry's error when an entry fails, and replaced by the request's entries, in order, when all pass |
| ScaleRoutes.CheckEntries | src/routes/scales.js:429-454 | no error exactly when every entry passes; otherwise the error of an entry that every earlier entry passed |
| ScaleRoutes.UpdateData | src/routes/scales.js:416-457 | a name or date key exactly when the body's value is truthy, the new entry list when there is one, no `id` |
| ScaleRoutes.Committed | src/routes/scales.js:416-460 | the committed store: members and songs untouched, the scale counter and the number of scales unchanged, every other scale's lookup unchanged, unchanged for a missing scale, otherwise the scale under its id with the truthy name and date and the kept or new entries |
| ScaleRoutes.CommitFaultsOnDangling | src/routes/scales.js:460-481 | after the commit the strict enrichment fails exactly when the entries were kept and one of them dangles |
| ScaleRoutes.Update | src/routes/scales.js:402-491 | 404 with no change exactly when the scale is missing; 400 with no change exactly when the songs value is refused; otherwise the merge is committed, and the answer is 500 exactly when songs was absent and a kept entry dangles |
| ScaleRoutes.Delete | src/routes/scales.js:534-559 | 404 with no change exactly when the scale is missing; otherwise it is deleted; members and songs untouched |
| ScaleRoutes.CreateReportsFirstFailure | src/routes/scales.js:294-310 | when entries before k pass and entry k fails, POST answers entry k's error and stores nothing |
| ScaleRoutes.UpdateChecksLikeCreate | src/routes/scales.js:429-454 | on an existing scale, PUT refuses an entry list exactly as POST does, with the same reason |
| ScaleRoutes.CreateThenGet | src/routes/scales.js:314-345 | creation keeps the store well formed, every new entry resolves, and GET returns what POST answered |
| ScaleRoutes.UpdateThenGet | src/routes/scales.js:460-491 | every PUT outcome keeps the store well formed, and on 200 GET returns what PUT answered |
| ScaleRoutes.UpdateFaultAfterCommit | src/routes/scales.js:460-481 | renaming a scale whose kept entries dangle answers 500, yet the store holds the new name |
| ScaleRoutes.DeletedSongReadsAsNull | src/routes/scales.js:127-144 | deleting a song leaves the scales that use it in place, and their reads show a null song for that entry |
| AuthMiddleware.GenerateToken | src/middleware/auth.js:50-61 | the payload is the member's id, email, name and access level (no password), with a 24h lifetime |
| AuthMiddleware.Split | src/middleware/auth.js:9 | `split(' ')` yields at least one piece and no piece contains the separator |
| AuthMiddleware.SplitAtFirst | src/middleware/auth.js:9 | splitting a separator-free piece, the separator and a remainder gives that piece followed by the remainder's pieces |
| AuthMiddleware.JoinSplit | src/middleware/auth.js:9 | joining the pieces of a split gives the header back |
| AuthMiddleware.SplitJoin | src/middleware/auth.js:9 | splitting a join of separator-free pieces gives the pieces back |
| AuthMiddleware.BearerToken | src/middleware/auth.js:8-9 | the token found is non-empty, has no space, and is the header's second space-separated piece after a space-free scheme; conversely, whatever the scheme, a non-empty second piece is found |
| AuthMiddleware.SplitCarried | src/middleware/auth.js:9 | a header of a space-free scheme, a space, a non-empty space-free token and a space-led or empty remainder splits with that token second |
| AuthMiddleware.BearerHeaderCarriesToken | src/middleware/auth.js:9 | the header `Bearer <token>` yields exactly that token for every non-empty space-free token |
| AuthMiddleware.AuthenticateToken | src/middleware/auth.js:7-28 | no token exactly when none is found (401); a bad token exactly when verification fails (403); otherwise the verified principal |
| AuthMiddleware.RequireAdmin | src/middleware/auth.js:31-47 | no principal, a non-admin principal and an admin principal give three different outcomes, each exactly in its case |
| AuthMiddleware.MemberWithEmail | src/middleware/auth.js:66 | absent exactly when no member has the email; otherwise the first member that has it |
| AuthMiddleware.AuthenticateUser | src/middleware/auth.js:64-79 | null exactly when no member has the email or the password check fails against that member's hash; otherwise that member |
| AuthRoutes.Login | src/routes/auth.js:114-145 | 400 exactly when email or password is falsy; one 401 for both an unknown email and a wrong password; otherwise the token signs the found member's payload and the user omits the password |
| AuthRoutes.Gate | src/middleware/auth.js:7-47 | in front of a handler: 401 exactly when no token is found, admitted exactly when the token verifies and (on write routes) the principal is an administrator, 403 otherwise |
| AuthRoutes.LoginIdentifiesMember | src/middleware/auth.js:66 | under the member invariant the logged-in user is the one member with that email |
| AuthRoutes.StoredMemberCanLogIn | src/routes/auth.js:119-145 | under the member invariant, a stored member's email with a password its hash accepts logs that member in |
| AuthRoutes.CreatedMemberCanLogIn | src/routes/members.js:247-256 | a member created through POST can log in with its password and gets back what creation returned |
| AuthRoutes.LoginTokenOpensGate | src/middleware/auth.js:7-61 | the token a login returns, sent as `Bearer <token>`, opens read routes, and opens write routes exactly for an administrator (403 otherwise) |
| Seed.SeedMembers | src/data/seed.js:9-45 | five members, all with the same password hash |
| Seed.SeedSongs | src/data/seed.js:55-91 | five songs with the seeded texts, song k sung by the k-th created member |
| Seed.AddMembers | src/data/seed.js:48-52 | the loop appends the members in order under consecutive ids and returns the created records |
| Seed.AddSongs | src/data/seed.js:94-98 | the same for songs |
| Seed.SeedDatabase | src/data/seed.js:4-107 | five members then five songs appended in order, both counters advanced by five, scales untouched, each song's soloist the id of the member created for it |
| Seed.AppendConsecutiveKeepsWellFormed | src/data/seed.js:49-52 | appending rows under consecutive ids from the counter keeps a table well formed and each appended row findable |
| Seed.SeedKeepsValid | src/data/seed.js:55-98 | seeding any well-formed store keeps it well formed, and each seeded song's soloist resolves to the member created for it |
| Seed.SeedMembersFacts | src/data/seed.js:9-45 | the five seeded emails are pairwise distinct, all access levels are known, and only the first member is an administrator |
| Seed.SeedFromResetConsistent | src/data/seed.js:48-52 | seeding the fresh store establishes email uniqueness and known access levels |
| Seed.SeedFromReset | src/data/seed.js:48-98 | from the fresh store: members and songs get ids 1 to 5, song k is sung by member k, all passwords are the hash of "123456", and only member 1 is an administrator |
| Scenario.Seeded | src/data/seed.js:4-107 | the seeded store satisfies the member invariant, holds five members and five songs under ids 1 to 5 and no scale |
| Scenario.SundayServiceLifeCycle | src/routes/scales.js:273-559 | create "Sunday Service" with one entry and get id 1; an update to an empty list is refused and changes nothing; delete succeeds, and GET is then 404 |
| Scenario.SundayCreated | src/routes/scales.js:273-349 | the creation step of that run: the reply is 201 for scale 1 with one entry, and scale 1 is stored |
| Scenario.EmptyListRefused | src/routes/scales.js:420-426 | an update of a stored scale that sends an empty entry list is 400 and leaves the store as it was |
| Scenario.SundayService | src/routes/scales.js:273-349 | the same run on the seeded store |
| Scenario.SeededLogins | src/routes/auth.js:114-145 | the seeded admin's token opens the write routes; a seeded common member's token opens the read routes but gets 403 on the write routes |

## Left out

- Express routing, helmet, CORS, rate limiting and Swagger (`src/server.js` and the
  JSDoc blocks) are not part of this model.
- bcrypt and jsonwebtoken are function parameters, not implementations:
  - no salt rounds;
  - no per-call salt. `bcrypt.hash` draws a fresh salt each time, so two equal
    passwords get different stored hashes; the model's `hash` is a fixed function,
    so equal passwords get equal hashes. No property here depends on this;
  - no signature format;
  - no expiry check. The 24h lifetime is only carried in the sign request.
- Table.Add: ids are unbounded integers. The source's counters are JS Numbers
  (doubles), and `nextMemberId++` (likewise for songs and scales) stops increasing
  at 2^53; from then on every add gets the same id and `find` returns only the first.
- Table.ReplayNeverReusesIds: holds for the source only while a collection's counter
  stays below 2^53, for the reason given in the line above.
- async/await is not modelled. Each handler is one atomic step. Two requests
  interleaving at the `await` of bcrypt (for example, two POST /members with the
  same email) are not modelled.
- Logging (`console.log`/`console.error`) is not modelled.
- The generic try/catch that turns an unexpected exception into 500 is not
  modelled. The one fault that matters, the scale PUT enrichment, is modelled.
- `parseInt` of path parameters is not modelled. Path ids are integers, and an id
  that does not parse would never match any record.
- JSON values of the wrong type are not modelled: a number in a text field, a
  string id, or a `null` element in a scale's `songs` array. A `null` element
  makes the source throw a TypeError, which becomes a 500. A number, string or
  array element has no `musicId`, so the source answers 400 as for missing ids;
  the model covers that case as an entry with neither id.
- Extra keys inside a scale entry are not modelled. The source stores and echoes
  them back; the model keeps only `musicId` and `soloistId`.
- Extra keys in POST bodies are not modelled. The source builds the stored record
  from the named fields only, so they never reach the store.
- Seed console output is not modelled. The `{ members, music }` object
  seedDatabase returns is modelled as the second and third components of
  `Seed.SeedDatabase`'s result.
