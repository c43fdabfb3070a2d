# Scrapbook store: a verified model of the scrapbook and song routes

The backend of the scrapbook application keeps scrapbooks, their pages, the elements laid
out on each page (photos, stickers, text), a song catalogue and the links between
scrapbooks and songs. The Express routers in `backend/src/routes/scrapbooks.ts` and
`backend/src/routes/songs.ts` read and write these tables through Prisma, after checking
each request body against a zod schema and checking ownership.

This project models that logic in Dafny:

- `json.dfy` (module `Json`): a parsed request body, JavaScript truthiness, `Number.isInteger`.
- `schemas.dfy` (module `Schemas`): the four zod schemas of the scrapbook router, and the
  inline `{ songId }` schema, as functions from a body to `Ok(value)` or `Err(message)`.
- `database.dfy` (module `Database`): the rows of the five tables, the referential
  integrity they keep (`Consistent`), lookups by key, and the ownership checks through the
  parent scrapbook.
- `scrapbooks.dfy` (module `Scrapbooks`): the two read handlers as functions of the tables,
  and, for every write handler that does more than append a row, the tables it leaves behind
  as a function (`PatchScrapbook`, `DeleteScrapbook`, `PutPage`), with the properties the
  routes promise proved about them.
- `songs.dfy` (module `Songs`): `createSongSchema` and the case-insensitive search of
  GET /songs, ordered by title.
- `sorting.dfy` (module `Sorting`): the `orderBy` clauses, as a stable insertion sort proved
  to return a sorted permutation of its input.
- `store.dfy` (module `Store`): the database as a class `Store` whose five table fields the
  handler methods update in place. Every handler method keeps `Valid()` (referential
  integrity) and states its status code and new tables; PATCH, DELETE and PUT page are proved equal to the
  functions above. The PUT transaction is written as the route runs it: background update,
  element delete, element validation in a loop, bulk insert, and a restore of the tables
  saved at the start when any step fails.

A handler's response is its status code plus, where the route returns one, the created or
read entity. The authenticated user is a parameter (`user`). Fresh row ids (`newId`) and
the storage clock (`now`) are parameters too. The read handlers do not change the store and
are functions of `Store.Tables()`.

Where the code differs from what one might expect, the model follows the code:

- PUT /pages/:pageId, POST /scrapbooks/:id/pages and POST /scrapbooks/:id/songs answer 403,
  not 404, when the page or scrapbook does not exist.
- PATCH and DELETE answer 404 both for a missing scrapbook and for another user's.
- PATCH answers 404 when the validated body names none of `title`, `themeCategory` and
  `isPrivate` (`{}`, or only keys the schema strips): the owner-scoped update has nothing to
  write and reports a count of 0.
- POST /scrapbooks/:id/songs has no branch for a schema failure, so an invalid `songId`
  answers 500.
- POST /scrapbooks/:id/pages checks the body's `scrapbookId` as a UUID but files the page
  under the scrapbook in the path.
- PUT /pages/:pageId does not validate the background fields: each present value goes to the
  storage layer as it is. A string stores it, `null` clears the column, and the update
  object `{ "set": v }` (v a string or `null`) does what `v` would. Any other value is
  taken to be refused inside the transaction (see "## Left out"), which answers 500 and
  rolls back.
- An `elements` value that is falsy (`null`, `false`, `0`, `""`) leaves the elements alone.
  A truthy value that is not an array makes `elements.map` throw, which answers 500 and
  rolls back.

## Model

| member | source | states |
|---|---|---|
| Schemas.ValidateCreateScrapbook | backend/src/routes/scrapbooks.ts:12-16 | accepts exactly an object with a string title of 1..200 UTF-16 code units (as JavaScript's `.length` counts), a string themeCategory and an optional boolean isPrivate; the value carries those fields, isPrivate false when absent |
| Schemas.ValidateUpdateScrapbook | backend/src/routes/scrapbooks.ts:18-22 | accepts exactly an object whose present keys have the right types (title 1..200 UTF-16 code units); each patch field is set iff its key is present, to that key's value |
| Schemas.EmojiTitleRefused | backend/src/routes/scrapbooks.ts:13 | a title of 101 emoji (202 code units) is refused and one of 100 emoji accepted |
| Schemas.ValidateCreatePage | backend/src/routes/scrapbooks.ts:24-29 | accepts exactly a UUID scrapbookId, a whole pageOrder >= 0, an optional string colour and an optional URL; the page value carries pageOrder and the two optional fields |
| Schemas.ValidateElement | backend/src/routes/scrapbooks.ts:31-39 | accepts exactly: type one of photo/sticker/text, numeric xPos and yPos, numeric rotation if present, positive numeric scale if present, whole zIndex, object properties; rotation defaults to 0 and scale to 1 |
| Schemas.ElementRoundTrip | backend/src/routes/scrapbooks.ts:31-39 | an element sent back with every field written out is accepted unchanged exactly when its scale is positive |
| Schemas.ValidateElements | backend/src/routes/scrapbooks.ts:262-265 | the batch is accepted iff every entry is, and then holds each entry's validated value in order |
| Schemas.ValidateAddSong | backend/src/routes/scrapbooks.ts:172 | accepts exactly an object whose songId is a UUID string, and returns it |
| Database.FindScrapbook | backend/src/routes/scrapbooks.ts:70-71 | `findUnique` by id: a position holding that id, or none iff no row has it |
| Database.FindPage | backend/src/routes/scrapbooks.ts:234-235 | `findUnique` by page id: a position holding that id, or none iff no row has it |
| Database.ResolveScrapbook | backend/src/routes/scrapbooks.ts:175-181 | the scrapbook is missing iff no row has the id, and allowed iff the caller owns it |
| Database.ResolvePage | backend/src/routes/scrapbooks.ts:234-241 | allowed iff the page exists and its scrapbook belongs to the caller |
| Database.ElementsOf | backend/src/routes/scrapbooks.ts:75-77 | exactly the element rows on the page |
| Database.ElementsOfCounts | backend/src/routes/scrapbooks.ts:75-77 | the page's rows keep every copy of each stored row on the page, and hold nothing else |
| Database.WithoutPageElements | backend/src/routes/scrapbooks.ts:259-261 | after `deleteMany({ pageId })` the page has no elements and every other page keeps its own |
| Scrapbooks.GetScrapbook | backend/src/routes/scrapbooks.ts:68-100 | 404 iff no scrapbook has the id, 403 iff it is private and not the caller's, else 200 with all its pages sorted by pageOrder, each page's elements sorted by zIndex (each a permutation of the stored rows) and its linked songs |
| Scrapbooks.ListScrapbooks | backend/src/routes/scrapbooks.ts:42-65 | exactly the caller's scrapbooks (as a multiset), most recently updated first, each with its lowest-pageOrder page, its page count and its songs |
| Scrapbooks.Summarize | backend/src/routes/scrapbooks.ts:47-56 | the first page is a page of the scrapbook with the least pageOrder, none iff it has no pages; the count is its number of pages; the songs are the ones its links name |
| Scrapbooks.LinkedSongs | backend/src/routes/scrapbooks.ts:51-53 | stored songs, each named by some link, at most one per link |
| Scrapbooks.LinkedSongsFollowLinks | backend/src/routes/scrapbooks.ts:51-53 | when every link names a stored song: one song per link, in link order, each the song its link names |
| Scrapbooks.UpdateOwned | backend/src/routes/scrapbooks.ts:128-134 | `updateMany` on (id, userId): count 0 iff the patch names no field or no row matches, and then nothing changes; otherwise matching rows get the supplied fields and the new timestamp; rows that do not match stay as they were |
| Scrapbooks.PatchScrapbook | backend/src/routes/scrapbooks.ts:124-147 | 400 iff the body is invalid; 404 iff it is valid but names no field, or the caller owns no scrapbook with that id; tables unchanged on both; on 200 the patch names a field and only the matched row changes, by the patch |
| Scrapbooks.PatchScrapbookKeepsConsistent | backend/src/routes/scrapbooks.ts:128-134 | a patch keeps every key, so referential integrity holds afterwards |
| Scrapbooks.DeleteOwned | backend/src/routes/scrapbooks.ts:152-157 | `deleteMany` on (id, userId): count 0 iff no row matches; the rows left are exactly the non-matching ones |
| Scrapbooks.DeleteScrapbook | backend/src/routes/scrapbooks.ts:150-167 | 404 iff the caller owns no scrapbook with that id, tables unchanged; on 200 exactly that scrapbook, its pages, their elements and its song links are gone, every other row stays, and the songs are kept |
| Scrapbooks.DeleteScrapbookCascades | backend/src/routes/scrapbooks.ts:150-167 | after a 200 DELETE, every surviving page keeps its element rows and every other scrapbook its pages and links, copies and order included; the deleted scrapbook and its pages have none left |
| Scrapbooks.ElementsOfNotOn | backend/src/routes/scrapbooks.ts:152-157 | the cascade empties the deleted pages and leaves every other page's element rows as they were |
| Scrapbooks.PagesOfNotOf | backend/src/routes/scrapbooks.ts:152-157 | the cascade removes the scrapbook's pages and leaves every other scrapbook's pages as they were |
| Scrapbooks.LinksOfNotOf | backend/src/routes/scrapbooks.ts:152-157 | the cascade removes the scrapbook's song links and leaves every other scrapbook's links as they were |
| Scrapbooks.DeleteScrapbookKeepsConsistent | backend/src/routes/scrapbooks.ts:150-167 | with the cascade, no page, element or link is left naming a deleted row |
| Scrapbooks.ParseFieldUpdate | backend/src/routes/scrapbooks.ts:249-252 | an absent key keeps the column; a present value is accepted iff the storage layer can write it, and then the update is the one it writes (`Writes`) |
| Scrapbooks.ParseBackground | backend/src/routes/scrapbooks.ts:246-253 | succeeds iff each present background key holds a writable value; a field is kept iff its key is absent, and a present key writes what its value says (a string stores it, null clears) |
| Scrapbooks.UpdateBackground | backend/src/routes/scrapbooks.ts:247-252 | only the target page's two background fields change, each by its update; every other column and page is unchanged |
| Scrapbooks.Tag | backend/src/routes/scrapbooks.ts:263-266 | every row is on the given page, and taking the page off the rows gives back the validated entries in order |
| Scrapbooks.ReplaceElements | backend/src/routes/scrapbooks.ts:257-267 | the page's elements become exactly the new rows, in order; every other page keeps its elements |
| Scrapbooks.Transaction | backend/src/routes/scrapbooks.ts:244-274 | 500 iff the background write fails or `elements` is not a list, 400 iff some entry is invalid, and the tables are unchanged on both; on 200 the background and elements are written as asked and no other table changes |
| Scrapbooks.PutPage | backend/src/routes/scrapbooks.ts:229-278 | 403 iff the page is missing or not the caller's; 500 and 400 exactly as for the transaction; every failure leaves the tables unchanged; on 200 pages keep id, scrapbook and order, only the target's background changes, its elements become the validated entries (or stay when `elements` is absent) and other pages' elements do not change |
| Scrapbooks.PutPageKeepsConsistent | backend/src/routes/scrapbooks.ts:229-278 | referential integrity holds after the update |
| Scrapbooks.PutPageIdempotent | backend/src/routes/scrapbooks.ts:229-278 | sending the same layout twice leaves the same tables, and answers the same, as sending it once |
| Scrapbooks.ResaveKeepsLayout | backend/src/routes/scrapbooks.ts:257-267 | saving a page's stored elements back to it succeeds and leaves every page's elements and every page row as they were |
| Scrapbooks.PutColourSetsColour | backend/src/routes/scrapbooks.ts:246-253 | sending only a colour to an owned page answers 200, stores exactly that colour on that page and changes no other column, page or element |
| Scrapbooks.ReplaceElementsTwice | backend/src/routes/scrapbooks.ts:257-267 | replacing a page's elements is idempotent |
| Scrapbooks.UpdateBackgroundTwice | backend/src/routes/scrapbooks.ts:246-253 | writing the same background twice is the same as once |
| Sorting.SortBy | backend/src/routes/scrapbooks.ts:58 | a permutation of the input, sorted by the given total preorder |
| Songs.ValidateCreateSong | backend/src/routes/songs.ts:10-15 | accepts exactly title and artist of 1..200 UTF-16 code units, a URL fileUrl and a positive whole durationSeconds, and keeps them |
| Songs.ContainsIffOccurs | backend/src/routes/songs.ts:25-26 | the substring test holds iff the term occurs at some position |
| Songs.Matching | backend/src/routes/songs.ts:23-28 | exactly the songs whose title or artist contains the term, ignoring case |
| Songs.LexLeTotal | backend/src/routes/songs.ts:29 | any two titles are ordered one way or the other |
| Songs.LexLeTransitive | backend/src/routes/songs.ts:29 | the title order is transitive |
| Songs.SearchSongs | backend/src/routes/songs.ts:18-36 | with no term or an empty one every song; otherwise exactly the songs matching it on title or artist, ignoring case; sorted by title |
| Songs.SearchIgnoresTermCase | backend/src/routes/songs.ts:25-26 | the search gives the same answer for a term and its lower-case form |
| Songs.MatchingIgnoresTermCase | backend/src/routes/songs.ts:25-26 | the filter gives the same songs for a term and its lower-case form |
| Store.ParseElements | backend/src/routes/scrapbooks.ts:262-266 | the loop over `elements` succeeds iff every entry validates, and then yields the rows tagged with the page, in order |
| Store.Store.CreateScrapbook | backend/src/routes/scrapbooks.ts:103-121 | 400 and no write for an invalid body; else 201 and exactly one new row owned by the caller, with the validated fields |
| Store.Store.PatchScrapbook | backend/src/routes/scrapbooks.ts:124-147 | status and new tables are those of `Scrapbooks.PatchScrapbook`; consistency is kept |
| Store.Store.DeleteScrapbook | backend/src/routes/scrapbooks.ts:150-167 | status and new tables are those of `Scrapbooks.DeleteScrapbook`; consistency is kept |
| Store.Store.AddSong | backend/src/routes/scrapbooks.ts:170-194 | 500 for an invalid songId, 403 for a missing or foreign scrapbook, 500 for an unknown song, all without writing; else 201 and exactly one new link |
| Store.Store.CreatePage | backend/src/routes/scrapbooks.ts:197-226 | 400 for an invalid body even for a non-owner, 403 for a missing or foreign scrapbook, both without writing; else 201 and exactly one new page under the scrapbook in the path |
| Store.Store.ReplacePageLayout | backend/src/routes/scrapbooks.ts:229-278 | status and new tables are those of `Scrapbooks.PutPage`; consistency is kept |
| Store.Store.RunTransaction | backend/src/routes/scrapbooks.ts:244-274 | status and new tables are those of `Scrapbooks.Transaction`, restoring the saved tables on every failure |
| Store.Store.AddElement | backend/src/routes/scrapbooks.ts:281-309 | 400 for an invalid body even for a non-owner, 403 for a missing or foreign page, both without writing; else 201 and exactly one new element on the page |
| Store.Store.CreateSong | backend/src/routes/songs.ts:39-54 | 400 and no write for an invalid body; else 201 and exactly one new song with the validated fields |

## Left out

- Authentication (`backend/src/middleware/auth.ts`, JWT verification): the caller's user id is a parameter.
- The frontend HTTP client (`frontend/src/services/api.ts`): it is request plumbing with no logic of its own.
- Concurrency: two requests racing on one page, and the gap between the ownership check and the transaction of PUT /pages/:pageId; the model runs one request at a time.
- The 500 answers for storage failures other than those named above (connection loss and the like): the storage layer is taken never to fail otherwise.
- The database schema is not part of this model. Fresh ids and timestamps are parameters. The schema is assumed to give `updatedAt` an automatic update on a PATCH that writes at least one field, a foreign key on a song link's song, and a cascade from a scrapbook to its pages, their elements and its song links.
- Scrapbooks.UpdateOwned: the storage engine is not part of this model; for a patch that names no field it is assumed to issue no write and report a count of 0, leaving `updatedAt` as it was.
- UUID and URL formats are abstract predicates (`Schemas.Formats`), not checked character by character.
- Songs.SearchSongs: folds case for ASCII letters only, and orders titles by character code; the database's collation may fold and order other characters differently. The term is matched literally; if the storage layer hands `%`, `_` or `\` in it to a LIKE pattern unescaped, the database treats them as wildcards or escapes, which the model does not.
- Numbers are reals: floating-point rounding, NaN and infinities are not modelled. No arithmetic is done on them.
- Response bodies are reduced to status codes and the created or read entities. Express routing and mounting are not modelled.
- A query string that repeats `search` (an array value) is not modelled; the term is a string or absent.
- Element rows have no id of their own, since no route reads or writes an element by id.
- Scrapbooks.LinkedSongs: skips a link whose song is missing, which cannot happen while the tables are consistent.
- Scrapbooks.ParseFieldUpdate: of the storage layer's update objects only `{ "set": v }` is modelled; any other object, the empty one included, is taken to be refused (500).
- The schema is assumed to have no unique key on a song link's (scrapbookId, songId) pair, so Store.Store.AddSong answers 201 to a link that already exists and stores it twice.
