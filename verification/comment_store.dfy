/**
 * The `Comment` model and the collection behind it, as the service uses it:
 * a sequence of stored documents in insertion order, an insert that runs the
 * schema's checks and assigns `_id` and the timestamps, a filtered query sorted
 * newest first with skip and limit, and a filtered count.
 */
module CommentStore {
  import opened Wrappers
  import Js

  type ObjectId = nat
  type Timestamp = nat

  /**
   * A stored comment: the schema's three fields, the `_id` every document
   * gets, the `createdAt`/`updatedAt` pair of the timestamps option and the
   * version key.
   */
  datatype Comment = Comment(
    id: ObjectId,
    filmId: int,
    nik: string,
    text: string,
    createdAt: Timestamp,
    updatedAt: Timestamp,
    version: nat)

  /** The collection, oldest insert first. */
  type Store = seq<Comment>

  /** The plain object handed to `new Comment(...).save()`: each field may be absent. */
  datatype Draft = Draft(filmId: Option<Js.Value>, nik: Option<Js.Value>, text: Option<Js.Value>)

  /**
   * What the world decides when a document is saved: the generated `_id`, the
   * clock reading, and whether the database refuses the write.
   */
  datatype SaveEnv = SaveEnv(freshId: ObjectId, now: Timestamp, fault: Option<string>)

  /** One failing schema path. */
  datatype PathError = Required(path: string) | CastFailed(path: string)

  datatype StoreError =
    | SchemaInvalid(paths: seq<PathError>)
    | DuplicateKey(id: ObjectId)
    | Unavailable(reason: string)
    | NegativeSkip(skip: int)
  {
    /** The error as `${error}` renders it. */
    function Describe(): string {
      match this
      case SchemaInvalid(_) => "ValidationError: Comment validation failed"
      case DuplicateKey(_) => "MongoServerError: E11000 duplicate key error"
      case Unavailable(reason) => reason
      case NegativeSkip(_) => "MongoServerError: Skip value must be non-negative"
    }
  }

  /** The check of a `required` Number path. */
  function NumberPathErrors(path: string, v: Option<Js.Value>): seq<PathError> {
    match v
    case None => [Required(path)]
    case Some(Null) => [Required(path)]
    case Some(Num(Int(_))) => []
    case Some(_) => [CastFailed(path)]
  }

  /** The check of a `required` String path; the empty string counts as missing. */
  function StringPathErrors(path: string, v: Option<Js.Value>): seq<PathError> {
    match v
    case None => [Required(path)]
    case Some(Null) => [Required(path)]
    case Some(Str(s)) => if s == "" then [Required(path)] else []
    case Some(_) => [CastFailed(path)]
  }

  /** Every failing path of the schema, in declaration order. */
  function SchemaErrors(d: Draft): seq<PathError> {
    NumberPathErrors("filmId", d.filmId) + StringPathErrors("nik", d.nik) + StringPathErrors("text", d.text)
  }

  predicate IdInUse(store: Store, id: ObjectId) {
    exists i :: 0 <= i < |store| && store[i].id == id
  }

  /**
   * The invariant of the collection: `_id` is unique and every document
   * satisfies the schema.
   */
  predicate WellFormed(store: Store) {
    && (forall i, j :: 0 <= i < j < |store| ==> store[i].id != store[j].id)
    && (forall i :: 0 <= i < |store| ==> store[i].nik != "" && store[i].text != "")
  }

  /**
   * `new Comment(draft).save()`: the schema is checked first, then the
   * database either refuses the write or rejects a duplicate `_id`; otherwise
   * the document gets its `_id` and both timestamps.
   */
  function Save(store: Store, d: Draft, env: SaveEnv): (r: Result<Comment, StoreError>)
    ensures d.filmId.None? || d.nik.None? || d.text.None? ==> r.Failure? && r.error.SchemaInvalid?
    ensures r.Success? <==> SchemaErrors(d) == [] && env.fault.None? && !IdInUse(store, env.freshId)
    ensures r.Success? ==>
      && r.value.id == env.freshId
      && d.filmId == Some(Js.Num(Js.Int(r.value.filmId)))
      && d.nik == Some(Js.Str(r.value.nik))
      && d.text == Some(Js.Str(r.value.text))
      && r.value.nik != "" && r.value.text != ""
      && r.value.createdAt == env.now
  {
    var errors := SchemaErrors(d);
    if errors != [] then Failure(SchemaInvalid(errors))
    else if env.fault.Some? then Failure(Unavailable(env.fault.value))
    else if IdInUse(store, env.freshId) then Failure(DuplicateKey(env.freshId))
    else Success(Comment(env.freshId, d.filmId.value.x.n, d.nik.value.s, d.text.value.s, env.now, env.now, 0))
  }

  /** A successful save keeps the collection well formed once its document is appended. */
  lemma SavePreservesWellFormed(store: Store, d: Draft, env: SaveEnv)
    requires WellFormed(store)
    requires Save(store, d, env).Success?
    ensures WellFormed(store + [Save(store, d, env).value])
  {
    var s' := store + [Save(store, d, env).value];
    forall i, j | 0 <= i < j < |s'| ensures s'[i].id != s'[j].id {
      if j == |store| {
        assert !IdInUse(store, env.freshId);
        assert store[i].id != env.freshId;
      }
    }
  }

  /** The documents whose `filmId` equals `filmId`, in collection order. */
  function Matching(store: Store, filmId: int): (r: seq<Comment>)
    ensures forall c :: c in r <==> c in store && c.filmId == filmId
    ensures multiset(r) <= multiset(store)
  {
    if |store| == 0 then []
    else
      var rest := Matching(store[..|store| - 1], filmId);
      var last := store[|store| - 1];
      assert store == store[..|store| - 1] + [last];
      if last.filmId == filmId then rest + [last] else rest
  }

  /** `countDocuments({filmId})`: one for each document of the film. */
  function CountDocuments(store: Store, filmId: int): (n: nat)
    ensures n <= |store|
  {
    if |store| == 0 then 0
    else CountDocuments(store[..|store| - 1], filmId) + (if store[|store| - 1].filmId == filmId then 1 else 0)
  }

  /** Counting the documents of a film agrees with finding them. */
  lemma {:induction false} CountIsMatchingLength(store: Store, filmId: int)
    ensures CountDocuments(store, filmId) == |Matching(store, filmId)|
  {
    if |store| > 0 {
      CountIsMatchingLength(store[..|store| - 1], filmId);
    }
  }

  /** Non-increasing `createdAt`: the order of `sort({createdAt: -1})`. */
  predicate NewestFirst(s: seq<Comment>) {
    forall i, j :: 0 <= i < j < |s| ==> s[i].createdAt >= s[j].createdAt
  }

  /** Puts `c` into a newest-first sequence ahead of every document not newer than it. */
  function InsertNewestFirst(c: Comment, s: seq<Comment>): (r: seq<Comment>)
    requires NewestFirst(s)
    ensures |r| == |s| + 1
    ensures NewestFirst(r)
    ensures forall x :: x in r <==> x == c || x in s
    ensures multiset(r) == multiset(s) + multiset{c}
  {
    if |s| == 0 || c.createdAt >= s[0].createdAt then [c] + s
    else
      var rest := InsertNewestFirst(c, s[1..]);
      assert s == [s[0]] + s[1..];
      assert forall i :: 0 <= i < |rest| ==> rest[i] == c || rest[i] in s[1..];
      [s[0]] + rest
  }

  /** The documents of `s` ordered newest first. */
  function SortNewestFirst(s: seq<Comment>): (r: seq<Comment>)
    ensures |r| == |s|
    ensures NewestFirst(r)
    ensures forall x :: x in r <==> x in s
    ensures multiset(r) == multiset(s)
  {
    if |s| == 0 then []
    else
      assert s == [s[0]] + s[1..];
      InsertNewestFirst(s[0], SortNewestFirst(s[1..]))
  }

  /** A slice of a newest-first sequence is newest first and holds only its elements. */
  lemma SliceNewestFirst(s: seq<Comment>, lo: nat, hi: nat)
    requires NewestFirst(s) && lo <= hi <= |s|
    ensures NewestFirst(s[lo..hi])
    ensures forall x :: x in s[lo..hi] ==> x in s
  {
    forall x | x in s[lo..hi] ensures x in s {
      var i :| 0 <= i < hi - lo && s[lo..hi][i] == x;
      assert s[lo + i] == x;
    }
  }

  function Min(a: int, b: int): int {
    if a <= b then a else b
  }

  function Abs(a: int): nat {
    if a < 0 then -a else a
  }

  /**
   * How many documents `limit(limit)` lets through when `available` remain:
   * a limit of 0 means no limit and a negative limit counts by its magnitude.
   */
  function LimitCount(limit: int, available: nat): (k: nat)
    ensures k <= available
    ensures limit == 0 ==> k == available
    ensures limit != 0 ==> k == Min(Abs(limit), available)
  {
    if limit == 0 then available else Min(Abs(limit), available)
  }

  /** The window `skip` and `limit` cut from an already sorted result. */
  function Page(all: seq<Comment>, skip: nat, limit: int): (r: seq<Comment>)
    ensures |r| == LimitCount(limit, |all| - Min(skip, |all|))
    ensures r == all[Min(skip, |all|)..Min(skip, |all|) + |r|]
    ensures NewestFirst(all) ==> NewestFirst(r)
    ensures forall c :: c in r ==> c in all
  {
    var from := Min(skip, |all|);
    var to := from + LimitCount(limit, |all| - from);
    assert NewestFirst(all) ==> NewestFirst(all[from..to]) by {
      if NewestFirst(all) { SliceNewestFirst(all, from, to); }
    }
    assert forall c :: c in all[from..to] ==> c in all;
    all[from..to]
  }

  /** The documents matching `filmId`, newest first, before skip and limit apply. */
  function Sorted(store: Store, filmId: int): (r: seq<Comment>)
    ensures |r| == CountDocuments(store, filmId)
    ensures NewestFirst(r)
    ensures forall c :: c in r <==> c in store && c.filmId == filmId
  {
    CountIsMatchingLength(store, filmId);
    SortNewestFirst(Matching(store, filmId))
  }

  /**
   * `find({filmId}).sort({createdAt: -1}).skip(skip).limit(limit)`: a negative
   * skip is refused by the database; otherwise the newest-first matches with
   * the first `skip` dropped and at most the limit kept.
   */
  function Find(store: Store, filmId: int, skip: int, limit: int): (r: Result<seq<Comment>, StoreError>)
    ensures r.Failure? <==> skip < 0
    ensures r.Failure? ==> r.error == NegativeSkip(skip)
    ensures r.Success? ==> NewestFirst(r.value)
    ensures r.Success? ==> forall c :: c in r.value ==> c in store && c.filmId == filmId
  {
    if skip < 0 then Failure(NegativeSkip(skip))
    else Success(Page(Sorted(store, filmId), skip, limit))
  }

  /** How many of `n` documents are left after skipping `skip`: max(0, n - skip). */
  function Remaining(n: nat, skip: nat): (k: nat)
    ensures k <= n
    ensures skip >= n ==> k == 0
    ensures skip < n ==> k + skip == n
  {
    if skip >= n then 0 else n - skip
  }

  /**
   * For N matching documents and skip k >= 0 the query returns
   * max(0, N - k) documents, cut to at most |L| by a nonzero limit L.
   */
  lemma FindLength(store: Store, filmId: int, skip: nat, limit: int)
    ensures |Find(store, filmId, skip, limit).value| == LimitCount(limit, Remaining(CountDocuments(store, filmId), skip))
  {
    var all := Sorted(store, filmId);
    assert Find(store, filmId, skip, limit).value == Page(all, skip, limit);
  }

  /** Skipping at least as many documents as match leaves an empty page. */
  lemma FindPastEnd(store: Store, filmId: int, skip: nat, limit: int)
    requires CountDocuments(store, filmId) <= skip
    ensures Find(store, filmId, skip, limit) == Success([])
  {
    FindLength(store, filmId, skip, limit);
  }

  /** No two different documents share a `createdAt`: the sort key leaves no ties. */
  predicate TimestampsDistinct(cs: seq<Comment>) {
    forall a, b :: a in cs && b in cs && a.createdAt == b.createdAt ==> a == b
  }

  /** Sequences that hold the same documents and start alike hold the same documents after the start. */
  lemma SameTails(s: seq<Comment>, t: seq<Comment>)
    requires |s| > 0 && |t| > 0 && s[0] == t[0]
    requires multiset(s) == multiset(t)
    ensures multiset(s[1..]) == multiset(t[1..])
  {
    assert s == [s[0]] + s[1..];
    assert t == [t[0]] + t[1..];
    assert multiset(s[1..]) == multiset(s) - multiset([s[0]]);
    assert multiset(t[1..]) == multiset(t) - multiset([t[0]]);
  }

  /** Without ties, two newest-first orders of the same documents start with the same document. */
  lemma SameNewest(s: seq<Comment>, t: seq<Comment>)
    requires NewestFirst(s) && NewestFirst(t)
    requires |s| > 0 && multiset(s) == multiset(t)
    requires TimestampsDistinct(s)
    ensures |t| > 0 && s[0] == t[0]
  {
    assert s[0] in multiset(t);
    var k :| 0 <= k < |t| && t[k] == s[0];
    assert t[0] in multiset(s);
    var m :| 0 <= m < |s| && s[m] == t[0];
    assert t[0].createdAt >= t[k].createdAt;
    assert s[0].createdAt >= s[m].createdAt;
  }

  /** Dropping the first document keeps a sequence newest first and free of ties. */
  lemma TailKeepsOrder(s: seq<Comment>)
    requires |s| > 0 && NewestFirst(s)
    ensures NewestFirst(s[1..])
    ensures TimestampsDistinct(s) ==> TimestampsDistinct(s[1..])
  {
    assert forall x :: x in s[1..] ==> x in s;
  }

  /** Without ties, two newest-first orders of the same documents are the same order. */
  lemma {:induction false} NewestFirstIsUnique(s: seq<Comment>, t: seq<Comment>)
    requires NewestFirst(s) && NewestFirst(t)
    requires multiset(s) == multiset(t)
    requires TimestampsDistinct(s)
    ensures s == t
    decreases |s|
  {
    if |s| == 0 {
      assert |t| == |multiset(t)| == 0;
    } else {
      SameNewest(s, t);
      SameTails(s, t);
      TailKeepsOrder(s);
      TailKeepsOrder(t);
      NewestFirstIsUnique(s[1..], t[1..]);
      assert s == [s[0]] + s[1..] && t == [t[0]] + t[1..];
    }
  }

  /**
   * MongoDB promises no order among documents with equal `createdAt`. When the
   * film's documents have distinct timestamps, every newest-first order of them
   * is the one `Sorted` picks, so the query's result does not depend on the
   * tie order the model fixes.
   */
  lemma AnyNewestFirstOrderIsSorted(store: Store, filmId: int, s: seq<Comment>)
    requires TimestampsDistinct(Matching(store, filmId))
    requires NewestFirst(s) && multiset(s) == multiset(Matching(store, filmId))
    ensures s == Sorted(store, filmId)
  {
    forall x | x in s ensures x in Matching(store, filmId) {
      assert x in multiset(s);
    }
    NewestFirstIsUnique(s, Sorted(store, filmId));
  }

  /**
   * Every page is the window that skip and limit cut from the unpaginated
   * result, for a film whose documents have distinct timestamps: with ties
   * MongoDB may order them differently from one query to the next.
   */
  lemma FindIsWindow(store: Store, filmId: int, skip: nat, limit: int)
    requires TimestampsDistinct(Matching(store, filmId))
    ensures Find(store, filmId, skip, limit).value == Page(Find(store, filmId, 0, 0).value, skip, limit)
  {
    var all := Sorted(store, filmId);
    assert Find(store, filmId, 0, 0).value == Page(all, 0, 0) == all[0..|all|] == all;
  }

  /** Consecutive windows of one sequence join into the window spanning both. */
  lemma PagesConcatenate(all: seq<Comment>, skip: nat, l1: nat, l2: nat)
    requires l1 > 0 && l2 > 0
    ensures Page(all, skip, l1) + Page(all, skip + l1, l2) == Page(all, skip, l1 + l2)
  {
    var n := |all|;
    var a, b, c := Min(skip, n), Min(skip + l1, n), Min(skip + l1 + l2, n);
    assert Page(all, skip, l1) == all[a..b];
    assert Page(all, skip + l1, l2) == all[b..c];
    assert Page(all, skip, l1 + l2) == all[a..c];
    assert all[a..b] + all[b..c] == all[a..c];
  }

  /**
   * Consecutive pages of a query join into the page that spans both, for a
   * film whose documents have distinct timestamps.
   */
  lemma FindPagesConcatenate(store: Store, filmId: int, skip: nat, l1: nat, l2: nat)
    requires TimestampsDistinct(Matching(store, filmId))
    requires l1 > 0 && l2 > 0
    ensures Find(store, filmId, skip, l1).value + Find(store, filmId, skip + l1, l2).value
            == Find(store, filmId, skip, l1 + l2).value
  {
    PagesConcatenate(Sorted(store, filmId), skip, l1, l2);
  }

  /**
   * Without skip or limit the query returns every document of the film exactly
   * once: a reordering of the matches, not just a sorted subset.
   */
  lemma FindAllIsPermutation(store: Store, filmId: int)
    ensures multiset(Find(store, filmId, 0, 0).value) == multiset(Matching(store, filmId))
  {
    var all := Sorted(store, filmId);
    assert Find(store, filmId, 0, 0).value == Page(all, 0, 0) == all[0..|all|] == all;
  }

  /** A film with a single stored comment finds just that comment on a first page. */
  lemma FindSingle(store: Store, filmId: int, c: Comment)
    requires Matching(store, filmId) == [c]
    ensures Find(store, filmId, 0, 10) == Success([c])
  {
    assert [c][1..] == [];
    assert SortNewestFirst([c]) == InsertNewestFirst(c, []) == [c];
    assert Page([c], 0, 10) == [c][0..1];
  }
}
