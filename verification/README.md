# Film comment service — Dafny model

A model of the comment service of a film catalog: validating and creating
comments tied to a film, listing a film's comments newest first with
pagination, and counting comments for a batch of films, together with the thin
request handlers in front of it.

The MongoDB collection is an immutable value `Store`: a sequence of stored
`Comment` documents in insertion order. Saving, the sorted/skipped/limited
query and `countDocuments` are pure functions over it. The HTTP call that
checks whether a film exists is the oracle `fetch: int -> FetchOutcome`. Each
call yields a response status or a thrown error. What the world decides at save
time is a `SaveEnv` parameter: the generated `_id`, the clock reading, and
whether the database refuses the write. `InternalError` is the abstract
parameter `internal: string -> HttpError`. It maps a thrown error's message to
a status and a message.

Modules, following the program's files:

- `Wrappers` (wrappers.dfy): `Option`, `Result`, `Outcome`.
- `Js` (js.dfy): the JavaScript semantics the service relies on:
  - numbers that may be NaN and JSON request values;
  - `String.prototype.trim` over the ECMAScript whitespace set;
  - `Number(string)` restricted to decimal integers;
  - `${n}` rendering.
- `CommentStore` (comment_store.dfy): the `Comment` schema and the collection behind it:
  - required paths;
  - store-assigned `_id`, `createdAt`/`updatedAt` and version key;
  - insert, filtered newest-first query with skip/limit, and count.
- `CommentDtos` (comment_dtos.dfy): `CommentSaveDto` and `toCommentDto`.
- `CommentService` (comment_service.dfy): `validateComment`,
  `findFilmById`, `createComment`, `listComments`, `numberCommentsOfFilms`.
- `CommentController` (comment_controller.dfy): `saveComment`,
  `listComments`, `numberCommentsOfFilms` as functions from a request to a
  response.

Behaviour of the code that the model keeps as written:

- The listing handler calls the service as `listComments(id, from, size)`,
  whose parameters are `(filmId, size, from)`: the query's `from` becomes the
  limit and its `size` the skip (see Findings). `ListCommentsHandler` models
  that as written; `ListCommentsHandlerCorrected` swaps them back.
- The code accepts any film id that is a number and not NaN, including 0 and
  negative ids, and so does the model.
- The service sets `createdAt` to `new Date()` and the schema's `timestamps`
  option sets `createdAt` and `updatedAt` as well. The model uses one clock
  reading for all of them.

## Model

| member | source | states |
|---|---|---|
| Js.Trim | src/services/comments/index.ts:76-81 | the trimmed string neither starts nor ends with whitespace, and it is empty exactly when the input is all whitespace |
| Js.ParseNumber | src/services/comments/index.ts:23-25 | `Number` of a blank string is 0 |
| Js.NumberRoundTrip | src/services/comments/index.ts:23-25 | parsing the decimal rendering of any number (NaN included) gives that number back |
| Js.ParseDefaults | src/controllers/comments/index.ts:43-44 | the default bounds "0" and "10" parse to 0 and 10 |
| CommentStore.Save | src/model/comments.ts:10-31 | a save fails when filmId, nik or text is absent. It succeeds exactly when the schema holds, the database accepts the write and the `_id` is unused. The saved document has that fresh `_id`, the draft's three fields unchanged, non-empty nik and text, and `createdAt` set to the clock |
| CommentStore.SavePreservesWellFormed | src/model/comments.ts:3-22 | appending a saved document keeps `_id`s unique and every document within the schema |
| CommentStore.Matching | src/services/comments/index.ts:34 | the filter `{filmId}` keeps exactly the stored documents of that film |
| CommentStore.CountIsMatchingLength | src/services/comments/index.ts:48 | `countDocuments({filmId})` equals the number of documents the filter finds |
| CommentStore.SortNewestFirst | src/services/comments/index.ts:35 | sorting by `createdAt` descending yields a non-increasing order that is a permutation of its input |
| CommentStore.Find | src/services/comments/index.ts:34-37 | the query fails only for a negative skip. Its result is newest first and holds only stored documents of the requested film |
| CommentStore.FindLength | src/services/comments/index.ts:34-37 | with N matches and skip k >= 0, a nonzero limit L yields min(abs(L), max(0, N - k)) documents and limit 0 yields max(0, N - k) |
| CommentStore.FindPastEnd | src/services/comments/index.ts:36-37 | skipping at least as many documents as the film has gives an empty page, not an error |
| CommentStore.NewestFirstIsUnique | src/services/comments/index.ts:35 | when no two different documents share a `createdAt`, two newest-first orders of the same documents are equal |
| CommentStore.AnyNewestFirstOrderIsSorted | src/services/comments/index.ts:34-35 | when the film's documents have distinct `createdAt`, every newest-first order of them is the model's sorted result, so the result does not depend on how ties are broken |
| CommentStore.FindIsWindow | src/services/comments/index.ts:34-37 | for a film whose documents have distinct `createdAt`, the page at skip k and limit L is the contiguous run of the unpaginated result that starts at min(k, N) and has the length given by `FindLength` |
| CommentStore.FindPagesConcatenate | src/services/comments/index.ts:34-37 | for a film whose documents have distinct `createdAt`, consecutive pages joined equal the page spanning both, so paging neither repeats nor misses a comment |
| CommentStore.FindAllIsPermutation | src/services/comments/index.ts:34-35 | without skip or limit the query returns every matching document exactly once |
| CommentDtos.FromDataCopiesFields | src/dto/comment/commentSaveDto.ts:7-11 | the dto copies filmId, nik and text unchanged, and an absent field stays absent |
| CommentDtos.FromDataIgnoresOtherFields | src/dto/comment/commentSaveDto.ts:1-11 | two bodies that agree on filmId, nik and text give the same dto, so every other field is dropped |
| CommentDtos.ToCommentDtoDropsOnlyMetadata | src/services/comments/index.ts:109-117 | two documents project to the same dto exactly when they differ at most in `updatedAt` and the version key |
| CommentService.FindFilmById | src/services/comments/index.ts:97-106 | the film exists exactly when the request answers with an ok status; a thrown request or a non-ok status means it does not |
| CommentService.Validate | src/services/comments/index.ts:64-83 | the full decision table of the ordered checks (film id, existence, nik, text). Each error is reported exactly when every earlier check passed and its own failed. The not-found error carries the request's film id |
| CommentService.ValidateSkipsOracleOnBadId | src/services/comments/index.ts:67-71 | when the film id check fails, every oracle gives the same "Invalid film ID" verdict |
| CommentService.ValidateAsksOnlyAboutFilmId | src/services/comments/index.ts:71-74 | validation depends on the oracle only through its answer for the request's film id |
| CommentService.ValidateStopsAtMissingFilm | src/services/comments/index.ts:71-82 | when the oracle denies the film, changing nik and text changes nothing |
| CommentService.ValidatedDraftFitsSchema | src/model/comments.ts:10-22 | a request that passes validation always passes the schema's required checks |
| CommentService.CreateComment | src/services/comments/index.ts:6-20 | any failure leaves the store unchanged and its message starts with "Failed to create comment: ". A validation failure is the wrapped cause, and when validation passes but the save fails the store's error is the wrapped cause. Success happens exactly when validation passes, the write is accepted and the `_id` is fresh. On success exactly one document is appended, carrying the request's filmId, nik and text and the clock's `createdAt`, and its fresh `_id` is returned |
| CommentService.CreatePreservesWellFormed | src/services/comments/index.ts:6-20 | creation keeps `_id`s unique and every stored document within the schema |
| CommentService.ListComments | src/services/comments/index.ts:22-40 | a NaN skip or limit is "Invalid pagination parameters" whatever the film id. Only after that is a NaN film id "Invalid Film id". Success happens exactly when all three parse and the skip is non-negative. Every result has the parsed film id, is the projection of a stored document, and results are ordered by non-increasing `createdAt` |
| CommentService.ListCommentsLength | src/services/comments/index.ts:34-37 | for N comments, skip k >= 0 and limit L > 0 the listing returns min(L, max(0, N - k)) comments, so k >= N gives an empty list rather than an error |
| CommentService.CreateThenList | src/services/comments/index.ts:6-39 | after creating the first comment of a film, listing that film with size "10" and from "0" returns exactly that comment's dto |
| CommentService.NumberCommentsOfFilms | src/services/comments/index.ts:42-61 | the call fails exactly when some id is NaN, with no partial map. Otherwise its keys are exactly the input ids and each value is the film's number of stored comments |
| CommentService.CountsDependOnIdSet | src/services/comments/index.ts:54-57 | inputs with the same set of ids give the same outcome, so reordered or repeated ids collapse to one key |
| CommentService.CountIsListingLength | src/services/comments/index.ts:34-48 | each count equals the length of the film's unpaginated listing |
| CommentController.SaveComment | src/controllers/comments/index.ts:14-35 | only the dto's three fields reach the service. A success answers 201 with the new id. A failure answers the mapped status and message and leaves the store unchanged |
| CommentController.SaveCommentIgnoresOtherFields | src/controllers/comments/index.ts:18-20 | body fields other than filmId, nik and text have no effect on the response or the store |
| CommentController.SaveCommentFailureIsNotCreated | src/controllers/comments/index.ts:23-34 | if the error mapping never yields 201, a failed save never answers 201 or carries an id |
| CommentController.SaveCommentWithoutFilmId | src/test/integration/comments.test.ts:106-130 | a body without filmId is answered with the mapped "Failed to create comment: Error: Invalid film ID" and the store is unchanged, whatever the oracle says |
| CommentController.ListCommentsHandler | src/controllers/comments/index.ts:38-59 | a missing or empty id answers 400 with the fixed message and never reaches the service. Otherwise the service runs with the defaulted from and size in positions (id, from, size) |
| CommentController.ListHandlerSwapsBounds | src/controllers/comments/index.ts:42-53 | the handler as written skips Number(size) comments and keeps at most Number(from) |
| CommentController.DefaultListingSkipsTen | src/controllers/comments/index.ts:43-52 | with no from and no size, a film with at most ten comments lists as empty |
| CommentController.ListCommentsHandlerCorrected | src/controllers/comments/index.ts:38-59 | the corrected handler still answers 400 for a missing or empty id, and otherwise runs the service with the defaulted size in the limit's place and from in the skip's place |
| CommentController.CorrectedHandlerPages | src/controllers/comments/index.ts:42-53 | the corrected handler answers 200 with the page that skips Number(from) comments and keeps at most Number(size) |
| CommentController.CorrectedListingPages | src/controllers/comments/index.ts:42-53 | with the bounds in their intended places, from = k and size = L > 0 answer the film's newest-first comments from position k on, min(L, max(0, N - k)) of them |
| CommentController.NumberCommentsHandler | src/controllers/comments/index.ts:61-80 | a `filmIds` that is not an array answers 400 with the fixed message. For an array, a counts body comes back exactly when no element is NaN, and it is the service's map unchanged. Otherwise the answer is the mapped error |
| CommentController.CountsOfTwoFilms | src/test/integration/comments.test.ts:164-179 | one comment on film 1 and two on film 2 make `[1, 2]` answer 200 with `{1: 1, 2: 2}` |

## Findings

| source | as written | input that shows it | evidently intended | confidence | as-written member | corrected member |
|---|---|---|---|---|---|---|
| src/controllers/comments/index.ts:52 | `listCommentsApi(id, from, size)` fills the parameters `(filmId, size, from)`, so skip = Number(size) and limit = Number(from) | `GET ?id=1` for a film with 3 comments: skip 10 and limit 0 (no limit), so the answer is `[]` | skip = Number(from) = 0 and limit = Number(size) = 10, so the answer is the 3 comments | high; not executed | CommentController.DefaultListingSkipsTen | CommentController.CorrectedListingPages |

## Left out

- The HTTP request inside `findFilmById`, and its logging. Only the mapping from a response status or thrown error to a boolean is modelled.
- Logging (log4js), Express routing, process start-up, the Consul key lookup and the database connection.
- `Promise.all` concurrency in `numberCommentsOfFilms`. The counts are a sequential fold, and all-or-nothing failure is the only observable effect. The reads are not atomic across ids; that is not modelled.
- Floating point: a number is NaN or an integer.
- Js.ParseNumber: only an optional sign and decimal digits parse. Fractions, exponents, hex, `Infinity` and other forms JavaScript accepts read as NaN here.
- Js.ToNumber: arrays coerce to NaN here. JavaScript coerces `[]` to 0 and a one-element array through its string form.
- CommentController.FilmIdsOf: a non-number array element is keyed by its coerced number. JavaScript keys the map by the element's own string (`"true"`, `"null"`), and the count filter for `null` matches no document. The NaN error's text is always "NaN", not the element's own text.
- CommentStore.Save: Mongoose's lenient casting (a number in a string path, a numeric string in `filmId`) is treated as a cast failure. `CreateComment` never reaches it, because validation demands the exact types first.
- The exact text of store errors belongs to the database library. `StoreError.Describe` gives an approximation.
- CommentStore.Find: skip and limit follow MongoDB's documented conventions, not visible in the source: a negative skip is an error, limit 0 means no limit, and a negative limit counts by its magnitude. Only the order by `createdAt` is specified; ties keep a fixed but unpromised order.
- Read-side store failures (connectivity during `find` or `countDocuments`) are not modelled; reads always succeed.
- The clock and `Date`: `createdAt` and `updatedAt` are one natural-number reading. Which of the service's `new Date()` and the timestamps option wins is left open.
- `_id` generation: the id is an environment parameter, and a collision is a duplicate-key failure. ObjectId structure and hex strings are not modelled.
- `InternalError` is not part of this model. It is the abstract parameter `internal`.
- Repeated query keys, which Express turns into arrays, are not modelled; a query is a map from key to string.
- CommentStore.FindIsWindow: stated only for a film whose comments have distinct `createdAt`. MongoDB promises no order among ties, so with ties a page need not be a window of the unpaginated result.
- CommentStore.FindPagesConcatenate: stated only for a film whose comments have distinct `createdAt`, for the same reason: with ties consecutive pages may repeat or miss a comment.
