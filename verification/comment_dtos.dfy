/**
 * The two shapes comments travel in: `CommentSaveDto`, the three fields a
 * request may carry, and `CommentDto`, the projection of a stored document
 * that listing returns.
 */
module CommentDtos {
  import opened Wrappers
  import Js
  import CommentStore

  /** The fields a save request may carry; each one may be absent. */
  datatype CommentSaveDto = CommentSaveDto(filmId: Option<Js.Value>, nik: Option<Js.Value>, text: Option<Js.Value>)

  /** `data[key]` on a request body; anything but an object has no fields. */
  function Field(data: Js.Value, key: string): (v: Option<Js.Value>)
    ensures v.Some? <==> data.Obj? && key in data.fields
  {
    if data.Obj? && key in data.fields then Some(data.fields[key]) else None
  }

  /** `new CommentSaveDto(data)`: copies `filmId`, `nik` and `text` and nothing else. */
  function FromData(data: Js.Value): CommentSaveDto {
    CommentSaveDto(Field(data, "filmId"), Field(data, "nik"), Field(data, "text"))
  }

  /**
   * The constructor copies the three fields unchanged, keeps an absent field
   * absent, and is blind to every other field of its input.
   */
  lemma FromDataCopiesFields(fields: map<string, Js.Value>)
    ensures var dto := FromData(Js.Obj(fields));
            && (dto.filmId.Some? <==> "filmId" in fields)
            && (dto.nik.Some? <==> "nik" in fields)
            && (dto.text.Some? <==> "text" in fields)
            && ("filmId" in fields ==> dto.filmId.value == fields["filmId"])
            && ("nik" in fields ==> dto.nik.value == fields["nik"])
            && ("text" in fields ==> dto.text.value == fields["text"])
  {
  }

  /** Two bodies that agree on `filmId`, `nik` and `text` give the same dto. */
  lemma FromDataIgnoresOtherFields(f1: map<string, Js.Value>, f2: map<string, Js.Value>)
    requires forall k :: k in {"filmId", "nik", "text"} ==> (k in f1 <==> k in f2) && (k in f1 ==> f1[k] == f2[k])
    ensures FromData(Js.Obj(f1)) == FromData(Js.Obj(f2))
  {
    assert "filmId" in {"filmId", "nik", "text"};
    assert "nik" in {"filmId", "nik", "text"};
    assert "text" in {"filmId", "nik", "text"};
  }

  /** A stored comment as listing returns it: the document without its store metadata. */
  datatype CommentDto = CommentDto(id: CommentStore.ObjectId, filmId: int, nik: string, text: string, createdAt: CommentStore.Timestamp)

  /** `toCommentDto`: keeps `_id`, `filmId`, `nik`, `text` and `createdAt`, drops `updatedAt` and the version key. */
  function ToCommentDto(c: CommentStore.Comment): CommentDto {
    CommentDto(c.id, c.filmId, c.nik, c.text, c.createdAt)
  }

  /** Two documents project to the same dto exactly when they differ at most in store metadata. */
  lemma ToCommentDtoDropsOnlyMetadata(a: CommentStore.Comment, b: CommentStore.Comment)
    ensures ToCommentDto(a) == ToCommentDto(b)
            <==> a == b.(updatedAt := a.updatedAt, version := a.version)
  {
  }
}
