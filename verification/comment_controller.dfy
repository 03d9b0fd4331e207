/**
 * The request handlers in front of the comment service, as pure functions from
 * a request to a response: field selection for saving, query defaults and the
 * missing-id check for listing, the array check for counting.
 */
module CommentController {
  import opened Wrappers
  import Js
  import opened CommentStore
  import opened CommentDtos
  import opened CommentService

  /** What `new InternalError(err)` makes of a thrown error's message: a status and a message. */
  datatype HttpError = HttpError(status: int, message: string)

  datatype Body =
    | IdBody(id: ObjectId)
    | MessageBody(message: string)
    | CommentsBody(comments: seq<CommentDto>)
    | CountsBody(counts: map<int, nat>)

  datatype Response = Response(status: int, body: Body)

  const OK: int := 200
  const CREATED: int := 201
  const BAD_REQUEST: int := 400

  const ID_REQUIRED: string := "Query parameter \"id\" is required"
  const IDS_NOT_ARRAY: string := "Film IDs must be provided as an array"

  /** The catch block: the mapped status with `{message}` as the body. */
  function ErrorResponse(internal: string -> HttpError, message: string): (res: Response)
    ensures res.body.MessageBody?
  {
    Response(internal(message).status, MessageBody(internal(message).message))
  }

  /** The response of `saveComment` together with the collection after it. */
  datatype Saved = Saved(response: Response, store: Store)

  /**
   * `saveComment`: builds a `CommentSaveDto` from the body, hands its three
   * fields to `createComment`, and answers 201 with `{id}` or the mapped error.
   */
  function SaveComment(store: Store, body: Js.Value, fetch: int -> FetchOutcome, env: SaveEnv,
                       internal: string -> HttpError): (out: Saved)
    ensures var created := CreateComment(store, FromData(body), fetch, env);
            && out.store == created.store
            && (created.result.Success? ==> out.response == Response(CREATED, IdBody(created.result.value)))
            && (created.result.Failure? ==>
                  && out.store == store
                  && out.response == ErrorResponse(internal, created.result.error.Message()))
  {
    var dto := FromData(body);
    var created := CreateComment(store, CommentSaveDto(dto.filmId, dto.nik, dto.text), fetch, env);
    match created.result
    case Success(id) => Saved(Response(CREATED, IdBody(id)), created.store)
    case Failure(e) => Saved(ErrorResponse(internal, e.Message()), created.store)
  }

  /** Fields of the body other than `filmId`, `nik` and `text` never reach the service. */
  lemma SaveCommentIgnoresOtherFields(store: Store, f1: map<string, Js.Value>, f2: map<string, Js.Value>,
                                      fetch: int -> FetchOutcome, env: SaveEnv, internal: string -> HttpError)
    requires forall k :: k in {"filmId", "nik", "text"} ==> (k in f1 <==> k in f2) && (k in f1 ==> f1[k] == f2[k])
    ensures SaveComment(store, Js.Obj(f1), fetch, env, internal) == SaveComment(store, Js.Obj(f2), fetch, env, internal)
  {
    FromDataIgnoresOtherFields(f1, f2);
  }

  /** If the error mapping never yields 201, a failed save never answers 201 or carries an id. */
  lemma SaveCommentFailureIsNotCreated(store: Store, body: Js.Value, fetch: int -> FetchOutcome, env: SaveEnv,
                                       internal: string -> HttpError)
    requires forall m :: internal(m).status != CREATED
    requires CreateComment(store, FromData(body), fetch, env).result.Failure?
    ensures var out := SaveComment(store, body, fetch, env, internal);
            out.response.status != CREATED && !out.response.body.IdBody? && out.store == store
  {
  }

  /**
   * A body without `filmId` is refused with the wrapped "Invalid film ID"
   * message, whatever the oracle says, and nothing is stored.
   */
  lemma SaveCommentWithoutFilmId(store: Store, fields: map<string, Js.Value>, fetch: int -> FetchOutcome,
                                 env: SaveEnv, internal: string -> HttpError)
    requires "filmId" !in fields
    ensures SaveComment(store, Js.Obj(fields), fetch, env, internal)
            == Saved(ErrorResponse(internal, "Failed to create comment: Error: Invalid film ID"), store)
  {
    var dto := FromData(Js.Obj(fields));
    assert !HasFilmId(dto);
    assert CreateComment(store, dto, fetch, env) == Created(Failure(Invalid(InvalidFilmId)), store);
    assert Invalid(InvalidFilmId).Message() == "Failed to create comment: Error: Invalid film ID";
  }

  /** `req.query[key]`; an absent key reads as the empty string, which is just as falsy. */
  function QueryParam(query: map<string, string>, key: string): (v: string)
    ensures key !in query ==> v == ""
    ensures key in query ==> v == query[key]
  {
    if key in query then query[key] else ""
  }

  /** `value || fallback` on a string. */
  function OrDefault(value: string, fallback: string): (v: string)
    ensures value == "" ==> v == fallback
    ensures value != "" ==> v == value
  {
    if value == "" then fallback else value
  }

  /** The success or failure of a listing as the handler sends it. */
  function ListResponse(r: Result<seq<CommentDto>, ListFailure>, internal: string -> HttpError): Response {
    match r
    case Success(comments) => Response(OK, CommentsBody(comments))
    case Failure(e) => ErrorResponse(internal, e.Message())
  }

  /**
   * `listComments` as written: `from` defaults to "0" and `size` to "10"; a
   * missing or empty `id` is refused before the service is called; otherwise
   * the service is called as `listCommentsApi(id, from, size)`, whose
   * parameters are `(filmId, size, from)`.
   */
  function ListCommentsHandler(store: Store, query: map<string, string>, internal: string -> HttpError): (res: Response)
    ensures QueryParam(query, "id") == "" ==> res == Response(BAD_REQUEST, MessageBody(ID_REQUIRED))
    ensures QueryParam(query, "id") != "" ==>
              res == ListResponse(ListComments(store, QueryParam(query, "id"),
                                               OrDefault(QueryParam(query, "from"), "0"),
                                               OrDefault(QueryParam(query, "size"), "10")), internal)
  {
    var id := QueryParam(query, "id");
    var from := OrDefault(QueryParam(query, "from"), "0");
    var size := OrDefault(QueryParam(query, "size"), "10");
    if id == "" then Response(BAD_REQUEST, MessageBody(ID_REQUIRED))
    else ListResponse(ListComments(store, id, from, size), internal)
  }

  /**
   * The handler as written skips `Number(size)` documents and keeps at most
   * `Number(from)`: the query's two bounds arrive in each other's place.
   */
  lemma ListHandlerSwapsBounds(store: Store, query: map<string, string>, internal: string -> HttpError,
                               filmId: int, skip: nat, limit: int)
    requires QueryParam(query, "id") != ""
    requires Js.ParseNumber(QueryParam(query, "id")) == Js.Int(filmId)
    requires Js.ParseNumber(OrDefault(QueryParam(query, "size"), "10")) == Js.Int(skip)
    requires Js.ParseNumber(OrDefault(QueryParam(query, "from"), "0")) == Js.Int(limit)
    ensures ListCommentsHandler(store, query, internal)
            == Response(OK, CommentsBody(Project(Find(store, filmId, skip, limit).value)))
  {
  }

  /**
   * With no `from` and no `size`, the handler as written skips ten comments
   * and sets no limit: a film with at most ten comments lists as empty.
   */
  lemma DefaultListingSkipsTen(store: Store, filmId: int, internal: string -> HttpError)
    requires CountDocuments(store, filmId) <= 10
    ensures var query := map["id" := Js.NumberToString(Js.Int(filmId))];
            ListCommentsHandler(store, query, internal) == Response(OK, CommentsBody([]))
  {
    var query := map["id" := Js.NumberToString(Js.Int(filmId))];
    assert Js.ParseNumber(QueryParam(query, "id")) == Js.Int(filmId) by {
      Js.NumberRoundTrip(Js.Int(filmId));
    }
    assert "from" !in query && "size" !in query;
    assert OrDefault(QueryParam(query, "size"), "10") == "10";
    assert OrDefault(QueryParam(query, "from"), "0") == "0";
    Js.ParseDefaults();
    FindPastEnd(store, filmId, 10, 0);
    ListHandlerSwapsBounds(store, query, internal, filmId, 10, 0);
    assert Project([]) == [];
  }

  /**
   * `listComments` with the service called as `(id, size, from)`, so that the
   * query's `from` is the skip and its `size` the limit.
   */
  function ListCommentsHandlerCorrected(store: Store, query: map<string, string>, internal: string -> HttpError): (res: Response)
    ensures QueryParam(query, "id") == "" ==> res == Response(BAD_REQUEST, MessageBody(ID_REQUIRED))
    ensures QueryParam(query, "id") != "" ==>
              res == ListResponse(ListComments(store, QueryParam(query, "id"),
                                               OrDefault(QueryParam(query, "size"), "10"),
                                               OrDefault(QueryParam(query, "from"), "0")), internal)
  {
    var id := QueryParam(query, "id");
    var from := OrDefault(QueryParam(query, "from"), "0");
    var size := OrDefault(QueryParam(query, "size"), "10");
    if id == "" then Response(BAD_REQUEST, MessageBody(ID_REQUIRED))
    else ListResponse(ListComments(store, id, size, from), internal)
  }

  /**
   * The corrected handler skips `Number(from)` documents and keeps at most
   * `Number(size)`: the page the query's bounds name.
   */
  lemma CorrectedHandlerPages(store: Store, query: map<string, string>, internal: string -> HttpError,
                              filmId: int, skip: nat, limit: int)
    requires QueryParam(query, "id") != ""
    requires Js.ParseNumber(QueryParam(query, "id")) == Js.Int(filmId)
    requires Js.ParseNumber(OrDefault(QueryParam(query, "from"), "0")) == Js.Int(skip)
    requires Js.ParseNumber(OrDefault(QueryParam(query, "size"), "10")) == Js.Int(limit)
    ensures ListCommentsHandlerCorrected(store, query, internal)
            == Response(OK, CommentsBody(Project(Find(store, filmId, skip, limit).value)))
  {
  }

  /**
   * With `from` = k and `size` = L > 0 the corrected handler answers the
   * film's newest-first comments from position k on, at most L of them, so
   * with N comments of the film the page holds min(L, max(0, N - k)) of them.
   */
  lemma CorrectedListingPages(store: Store, filmId: int, from: nat, size: nat, internal: string -> HttpError)
    requires size > 0
    ensures var query := map["id" := Js.NumberToString(Js.Int(filmId)),
                             "from" := Js.NumberToString(Js.Int(from)),
                             "size" := Js.NumberToString(Js.Int(size))];
            var res := ListCommentsHandlerCorrected(store, query, internal);
            && res == Response(OK, CommentsBody(Project(Find(store, filmId, from, size).value)))
            && |res.body.comments| == Min(size, Remaining(CountDocuments(store, filmId), from))
  {
    var query := map["id" := Js.NumberToString(Js.Int(filmId)),
                     "from" := Js.NumberToString(Js.Int(from)),
                     "size" := Js.NumberToString(Js.Int(size))];
    Js.NumberRoundTrip(Js.Int(filmId));
    Js.NumberRoundTrip(Js.Int(from));
    Js.NumberRoundTrip(Js.Int(size));
    assert QueryParam(query, "id") == Js.NumberToString(Js.Int(filmId));
    assert QueryParam(query, "from") == Js.NumberToString(Js.Int(from));
    assert QueryParam(query, "size") == Js.NumberToString(Js.Int(size));
    assert QueryParam(query, "id") != "";
    CorrectedHandlerPages(store, query, internal, filmId, from, size);
    FindLength(store, filmId, from, size);
  }

  /** The array elements as `isNaN` and the count query see them. */
  function FilmIdsOf(items: seq<Js.Value>): (ids: seq<Js.Number>)
    ensures |ids| == |items|
    ensures forall i :: 0 <= i < |items| ==> ids[i] == Js.ToNumber(items[i])
  {
    seq(|items|, i requires 0 <= i < |items| => Js.ToNumber(items[i]))
  }

  /**
   * `numberCommentsOfFilms`: a `filmIds` that is not an array is refused with
   * 400 before the service is called; an array's counts are sent back as the
   * service built them.
   */
  function NumberCommentsHandler(store: Store, body: Js.Value, internal: string -> HttpError): (res: Response)
    ensures !(Field(body, "filmIds").Some? && Field(body, "filmIds").value.Arr?)
            ==> res == Response(BAD_REQUEST, MessageBody(IDS_NOT_ARRAY))
    ensures Field(body, "filmIds").Some? && Field(body, "filmIds").value.Arr? ==>
              var ids := FilmIdsOf(Field(body, "filmIds").value.items);
              var counted := NumberCommentsOfFilms(store, ids);
              && (res.body.CountsBody? <==> Js.NaN !in ids)
              && (counted.Success? ==> res == Response(OK, CountsBody(counted.value)))
              && (counted.Failure? ==> res == ErrorResponse(internal, counted.error.Message()))
  {
    var filmIds := Field(body, "filmIds");
    if !(filmIds.Some? && filmIds.value.Arr?) then Response(BAD_REQUEST, MessageBody(IDS_NOT_ARRAY))
    else
      var ids := FilmIdsOf(filmIds.value.items);
      match NumberCommentsOfFilms(store, ids)
      case Success(counts) => Response(OK, CountsBody(counts))
      case Failure(e) => ErrorResponse(internal, e.Message())
  }

  /**
   * One comment on film 1 and two on film 2: asking for `[1, 2]` answers 200
   * with `{1: 1, 2: 2}`.
   */
  lemma CountsOfTwoFilms(store: Store, internal: string -> HttpError)
    requires CountDocuments(store, 1) == 1 && CountDocuments(store, 2) == 2
    ensures var body := Js.Obj(map["filmIds" := Js.Arr([Js.Num(Js.Int(1)), Js.Num(Js.Int(2))])]);
            NumberCommentsHandler(store, body, internal) == Response(OK, CountsBody(map[1 := 1, 2 := 2]))
  {
    var items := [Js.Num(Js.Int(1)), Js.Num(Js.Int(2))];
    var body := Js.Obj(map["filmIds" := Js.Arr(items)]);
    assert Field(body, "filmIds") == Some(Js.Arr(items));
    var ids := FilmIdsOf(items);
    assert ids == [Js.Int(1), Js.Int(2)];
    var counted := NumberCommentsOfFilms(store, ids);
    assert counted.Success?;
    assert counted.value.Keys == {1, 2} by {
      forall k ensures k in counted.value <==> k == 1 || k == 2 {
        assert Js.Int(k) in ids <==> k == 1 || k == 2;
      }
    }
    assert counted.value == map[1 := 1, 2 := 2];
  }
}
