/**
 * The comment service: the validation policy, creation, listing and the
 * per-film count aggregation. The collection is the immutable `Store` value
 * and the HTTP lookup of a film is the `fetch` oracle.
 */
module CommentService {
  import opened Wrappers
  import Js
  import opened CommentStore
  import opened CommentDtos

  /** What the request for `/api/v1/films/{id}` ended in: a response status, or a thrown error. */
  datatype FetchOutcome = Responded(status: int) | Threw(reason: string)

  /** `response.ok`: a status in the 200 range. */
  predicate StatusOk(status: int) {
    200 <= status <= 299
  }

  /**
   * `findFilmById` with the request itself abstracted: only an ok response
   * confirms the film; a non-ok status and a thrown error both deny it.
   */
  function FindFilmById(fetch: int -> FetchOutcome, filmId: int): (found: bool)
    ensures found <==> fetch(filmId).Responded? && StatusOk(fetch(filmId).status)
    ensures fetch(filmId).Threw? ==> !found
  {
    match fetch(filmId)
    case Responded(status) => StatusOk(status)
    case Threw(_) => false
  }

  datatype ValidationError = InvalidFilmId | FilmNotFound(filmId: int) | EmptyNik | EmptyText
  {
    function Message(): string {
      match this
      case InvalidFilmId => "Invalid film ID"
      case FilmNotFound(id) => "Film with ID " + Js.NumberToString(Js.Int(id)) + " does not exist"
      case EmptyNik => "Nik cannot be empty"
      case EmptyText => "Comment description cannot be empty"
    }
  }

  /** `typeof filmId === 'number' && !isNaN(filmId)`. */
  predicate HasFilmId(dto: CommentSaveDto) {
    dto.filmId.Some? && dto.filmId.value.Num? && dto.filmId.value.x.Int?
  }

  /** A string field holding something besides whitespace. */
  predicate Filled(v: Option<Js.Value>) {
    v.Some? && v.value.Str? && !Js.AllWhitespace(v.value.s)
  }

  /**
   * `validateComment`: the film id, the film's existence, `nik`, then `text`;
   * the first failing check is the error. The oracle is asked only once the
   * film id is a number, and only about that number.
   */
  function Validate(dto: CommentSaveDto, fetch: int -> FetchOutcome): (r: Outcome<ValidationError>)
    ensures r == Fail(InvalidFilmId) <==> !HasFilmId(dto)
    ensures r.Fail? && r.error.FilmNotFound?
            <==> HasFilmId(dto) && !FindFilmById(fetch, dto.filmId.value.x.n)
    ensures r.Fail? && r.error.FilmNotFound? ==> r.error.filmId == dto.filmId.value.x.n
    ensures r == Fail(EmptyNik)
            <==> HasFilmId(dto) && FindFilmById(fetch, dto.filmId.value.x.n) && !Filled(dto.nik)
    ensures r == Fail(EmptyText)
            <==> HasFilmId(dto) && FindFilmById(fetch, dto.filmId.value.x.n) && Filled(dto.nik) && !Filled(dto.text)
    ensures r == Pass
            <==> HasFilmId(dto) && FindFilmById(fetch, dto.filmId.value.x.n) && Filled(dto.nik) && Filled(dto.text)
  {
    if !(dto.filmId.Some? && dto.filmId.value.Num? && dto.filmId.value.x.Int?) then Fail(InvalidFilmId)
    else if !FindFilmById(fetch, dto.filmId.value.x.n) then Fail(FilmNotFound(dto.filmId.value.x.n))
    else if !(dto.nik.Some? && dto.nik.value.Str?) || |Js.Trim(dto.nik.value.s)| == 0 then Fail(EmptyNik)
    else if !(dto.text.Some? && dto.text.value.Str?) || |Js.Trim(dto.text.value.s)| == 0 then Fail(EmptyText)
    else Pass
  }

  /** When the film id check fails, no oracle can change the verdict: it is never consulted. */
  lemma ValidateSkipsOracleOnBadId(dto: CommentSaveDto, f1: int -> FetchOutcome, f2: int -> FetchOutcome)
    requires !HasFilmId(dto)
    ensures Validate(dto, f1) == Validate(dto, f2) == Fail(InvalidFilmId)
  {
  }

  /** Validation depends on the oracle only through its answer for the request's own film id. */
  lemma ValidateAsksOnlyAboutFilmId(dto: CommentSaveDto, f1: int -> FetchOutcome, f2: int -> FetchOutcome)
    requires HasFilmId(dto)
    requires FindFilmById(f1, dto.filmId.value.x.n) == FindFilmById(f2, dto.filmId.value.x.n)
    ensures Validate(dto, f1) == Validate(dto, f2)
  {
  }

  /** When the oracle denies the film, `nik` and `text` are never looked at. */
  lemma ValidateStopsAtMissingFilm(dto: CommentSaveDto, nik: Option<Js.Value>, text: Option<Js.Value>, fetch: int -> FetchOutcome)
    requires HasFilmId(dto) && !FindFilmById(fetch, dto.filmId.value.x.n)
    ensures Validate(dto, fetch) == Validate(dto.(nik := nik, text := text), fetch)
  {
  }

  /** The reason creation failed: a validation error or a failed save. */
  datatype CreateFailure = Invalid(reason: ValidationError) | SaveFailed(cause: StoreError)
  {
    /** The message of the error `createComment` throws: the prefix, then the cause as `${error}` renders it. */
    function Message(): (m: string)
      ensures "Failed to create comment: " <= m
    {
      "Failed to create comment: " + match this
        case Invalid(v) => "Error: " + v.Message()
        case SaveFailed(e) => e.Describe()
    }
  }

  /** The outcome of `createComment` together with the collection after it. */
  datatype Created = Created(result: Result<ObjectId, CreateFailure>, store: Store)

  /** The document `createComment` hands to the model: the dto's fields as they are. */
  function DraftOf(dto: CommentSaveDto): Draft {
    Draft(dto.filmId, dto.nik, dto.text)
  }

  /** A dto that passes validation also passes the schema. */
  lemma ValidatedDraftFitsSchema(dto: CommentSaveDto, fetch: int -> FetchOutcome)
    requires Validate(dto, fetch) == Pass
    ensures SchemaErrors(DraftOf(dto)) == []
  {
  }

  /**
   * `createComment`: validate, then save with the current time. Any failure
   * leaves the collection as it was and is reported under one prefix; a
   * success appends exactly one document carrying the request's fields and
   * returns its fresh `_id`.
   */
  function CreateComment(store: Store, dto: CommentSaveDto, fetch: int -> FetchOutcome, env: SaveEnv): (out: Created)
    ensures out.result.Failure? ==> out.store == store
    ensures out.result.Failure? ==> "Failed to create comment: " <= out.result.error.Message()
    ensures Validate(dto, fetch).Fail? ==> out.result == Failure(Invalid(Validate(dto, fetch).error))
    ensures Validate(dto, fetch) == Pass && Save(store, DraftOf(dto), env).Failure?
            ==> out.result == Failure(SaveFailed(Save(store, DraftOf(dto), env).error))
    ensures out.result.Success?
            <==> Validate(dto, fetch) == Pass && env.fault.None? && !IdInUse(store, env.freshId)
    ensures out.result.Success? ==>
      && |out.store| == |store| + 1
      && out.store == store + [out.store[|store|]]
      && var c := out.store[|store|];
         && c.id == out.result.value
         && !IdInUse(store, c.id)
         && dto.filmId == Some(Js.Num(Js.Int(c.filmId)))
         && dto.nik == Some(Js.Str(c.nik))
         && dto.text == Some(Js.Str(c.text))
         && c.createdAt == env.now
  {
    match Validate(dto, fetch)
    case Fail(e) => Created(Failure(Invalid(e)), store)
    case Pass =>
      ValidatedDraftFitsSchema(dto, fetch);
      match Save(store, DraftOf(dto), env)
      case Failure(e) => Created(Failure(SaveFailed(e)), store)
      case Success(c) =>
        Created(Success(c.id), store + [c])
  }

  /** Creation keeps the collection well formed. */
  lemma CreatePreservesWellFormed(store: Store, dto: CommentSaveDto, fetch: int -> FetchOutcome, env: SaveEnv)
    requires WellFormed(store)
    ensures WellFormed(CreateComment(store, dto, fetch, env).store)
  {
    if CreateComment(store, dto, fetch, env).result.Success? {
      ValidatedDraftFitsSchema(dto, fetch);
      SavePreservesWellFormed(store, DraftOf(dto), env);
    }
  }

  datatype ListFailure = InvalidPagination | InvalidListFilmId | QueryFailed(cause: StoreError)
  {
    function Message(): string {
      match this
      case InvalidPagination => "Invalid pagination parameters"
      case InvalidListFilmId => "Invalid Film id"
      case QueryFailed(e) => e.Describe()
    }
  }

  /** Every document of a query result as `toCommentDto` projects it. */
  function Project(cs: seq<Comment>): (ds: seq<CommentDto>)
    ensures |ds| == |cs|
    ensures forall i :: 0 <= i < |cs| ==> ds[i] == ToCommentDto(cs[i])
  {
    seq(|cs|, i requires 0 <= i < |cs| => ToCommentDto(cs[i]))
  }

  /**
   * `listComments(filmId, size, from)`: skip is `Number(from)` and limit is
   * `Number(size)`; pagination is checked before the film id; the result is the
   * film's comments, newest first, projected to dtos.
   */
  function ListComments(store: Store, filmId: string, size: string, from: string): (r: Result<seq<CommentDto>, ListFailure>)
    ensures Js.ParseNumber(from).NaN? || Js.ParseNumber(size).NaN? <==> r == Failure(InvalidPagination)
    ensures r == Failure(InvalidListFilmId)
            <==> Js.ParseNumber(from).Int? && Js.ParseNumber(size).Int? && Js.ParseNumber(filmId).NaN?
    ensures r.Success?
            <==> Js.ParseNumber(from).Int? && Js.ParseNumber(size).Int? && Js.ParseNumber(filmId).Int?
                 && Js.ParseNumber(from).n >= 0
    ensures r.Success? ==> forall i :: 0 <= i < |r.value| ==>
              && r.value[i].filmId == Js.ParseNumber(filmId).n
              && exists c :: c in store && ToCommentDto(c) == r.value[i]
    ensures r.Success? ==> forall i, j :: 0 <= i < j < |r.value| ==> r.value[i].createdAt >= r.value[j].createdAt
  {
    var id := Js.ParseNumber(filmId);
    var skip := Js.ParseNumber(from);
    var limit := Js.ParseNumber(size);
    if skip.NaN? || limit.NaN? then Failure(InvalidPagination)
    else if id.NaN? then Failure(InvalidListFilmId)
    else match Find(store, id.n, skip.n, limit.n)
      case Failure(e) => Failure(QueryFailed(e))
      case Success(cs) =>
        assert forall i :: 0 <= i < |cs| ==> cs[i] in cs;
        Success(Project(cs))
  }

  /**
   * For N comments of the film and a positive limit L, listing with skip k >= 0
   * returns min(L, max(0, N - k)) comments, so k >= N gives an empty list.
   */
  lemma ListCommentsLength(store: Store, filmId: int, skip: nat, limit: nat)
    requires limit > 0
    ensures var r := ListComments(store, Js.NumberToString(Js.Int(filmId)),
                                  Js.NumberToString(Js.Int(limit)), Js.NumberToString(Js.Int(skip)));
            && r.Success?
            && |r.value| == Min(limit, Remaining(CountDocuments(store, filmId), skip))
  {
    Js.NumberRoundTrip(Js.Int(filmId));
    Js.NumberRoundTrip(Js.Int(limit));
    Js.NumberRoundTrip(Js.Int(skip));
    FindLength(store, filmId, skip, limit);
  }

  /** Listing with size "10" and from "0" is the store's query with skip 0 and limit 10. */
  lemma ListDefaultPage(store: Store, filmId: string, page: seq<Comment>)
    requires Js.ParseNumber(filmId).Int?
    requires Find(store, Js.ParseNumber(filmId).n, 0, 10) == Success(page)
    ensures ListComments(store, filmId, "10", "0") == Success(Project(page))
  {
    Js.ParseDefaults();
  }

  /** A film with exactly one stored comment lists just that comment on its default first page. */
  lemma ListSingleComment(store: Store, filmId: int, c: Comment)
    requires Matching(store, filmId) == [c]
    ensures ListComments(store, Js.NumberToString(Js.Int(filmId)), "10", "0") == Success([ToCommentDto(c)])
  {
    var id := Js.NumberToString(Js.Int(filmId));
    assert Js.ParseNumber(id) == Js.Int(filmId) by { Js.NumberRoundTrip(Js.Int(filmId)); }
    assert Find(store, filmId, 0, 10) == Success([c]) by { FindSingle(store, filmId, c); }
    assert Project([c]) == [ToCommentDto(c)];
    ListDefaultPage(store, id, [c]);
  }

  /**
   * A comment created for a film with no comments yet is then the whole first
   * page of that film's listing.
   */
  lemma CreateThenList(store: Store, dto: CommentSaveDto, fetch: int -> FetchOutcome, env: SaveEnv, filmId: int)
    requires dto.filmId == Some(Js.Num(Js.Int(filmId)))
    requires CountDocuments(store, filmId) == 0
    requires CreateComment(store, dto, fetch, env).result.Success?
    ensures var after := CreateComment(store, dto, fetch, env).store;
            ListComments(after, Js.NumberToString(Js.Int(filmId)), "10", "0")
              == Success([ToCommentDto(after[|store|])])
  {
    var after := CreateComment(store, dto, fetch, env).store;
    var c := after[|store|];
    assert Matching(after, filmId) == [c] by {
      assert after[..|after| - 1] == store;
      assert c.filmId == filmId;
      CountIsMatchingLength(store, filmId);
    }
    ListSingleComment(after, filmId, c);
  }

  datatype CountFailure = InvalidCountFilmId(filmId: Js.Number)
  {
    function Message(): string {
      "Failed to retrieve comment counts: Error: Invalid Film ID: " + Js.NumberToString(filmId)
    }
  }

  /**
   * `numberCommentsOfFilms`, folded left to right: any NaN id fails the whole
   * call; otherwise every input id is a key, and only those, mapped to its
   * number of stored comments.
   */
  function NumberCommentsOfFilms(store: Store, filmIds: seq<Js.Number>): (r: Result<map<int, nat>, CountFailure>)
    ensures r.Failure? <==> exists i :: 0 <= i < |filmIds| && filmIds[i].NaN?
    ensures r.Failure? ==> r.error == InvalidCountFilmId(Js.NaN)
    ensures r.Success? ==> forall k :: k in r.value <==> Js.Int(k) in filmIds
    ensures r.Success? ==> forall k :: k in r.value ==> r.value[k] == CountDocuments(store, k)
    decreases |filmIds|
  {
    if |filmIds| == 0 then Success(map[])
    else
      var prefix := filmIds[..|filmIds| - 1];
      var last := filmIds[|filmIds| - 1];
      assert filmIds == prefix + [last];
      match NumberCommentsOfFilms(store, prefix)
      case Failure(e) => Failure(e)
      case Success(acc) =>
        if last.NaN? then Failure(InvalidCountFilmId(last))
        else Success(acc[last.n := CountDocuments(store, last.n)])
  }

  /**
   * Only the set of requested ids matters: reordering or repeating ids gives
   * the same outcome, so duplicates collapse to one key.
   */
  lemma CountsDependOnIdSet(store: Store, ids1: seq<Js.Number>, ids2: seq<Js.Number>)
    requires forall x :: x in ids1 <==> x in ids2
    ensures NumberCommentsOfFilms(store, ids1) == NumberCommentsOfFilms(store, ids2)
  {
    var r1, r2 := NumberCommentsOfFilms(store, ids1), NumberCommentsOfFilms(store, ids2);
    assert r1.Failure? <==> Js.NaN in ids1;
    assert r2.Failure? <==> Js.NaN in ids2;
    if r1.Success? {
      forall k ensures k in r1.value <==> k in r2.value {
        assert Js.Int(k) in ids1 <==> Js.Int(k) in ids2;
      }
      assert r1.value.Keys == r2.value.Keys;
      forall k | k in r1.value ensures r1.value[k] == r2.value[k] {
      }
      assert r1.value == r2.value;
    }
  }

  /** Each count is the length of the film's unpaginated listing. */
  lemma CountIsListingLength(store: Store, filmIds: seq<Js.Number>, k: int)
    requires NumberCommentsOfFilms(store, filmIds).Success?
    requires Js.Int(k) in filmIds
    ensures NumberCommentsOfFilms(store, filmIds).value[k] == |Find(store, k, 0, 0).value|
  {
    FindLength(store, k, 0, 0);
  }
}
