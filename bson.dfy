/** How a user document stores its soft-delete marker, and the
    `{"deleted_at": nil}` filter the user lookups and the listing use. */
module Bson {
  import opened Wrappers

  /** The values a `deleted_at` field can hold; a missing field reads as
      Null for the filter. A set marker carries the model's clock value. */
  datatype Value = Null | DateTime(at: int)

  /** `time.Time{}` (0001-01-01 UTC) as a BSON datetime, in milliseconds
      since the Unix epoch. */
  const ZeroTimeMillis: int := -62135596800000

  /** `{"deleted_at": nil}` matches a null or missing field, nothing else. */
  predicate MatchesNil(v: Value)
  {
    v.Null?
  }

  /** The field as the `DeletedAt time.Time` struct member encodes it: with
      no `omitempty`, the zero value of a live user is written as a date. */
  function DeletedAtAsWritten(deletedAt: Option<int>): (v: Value)
    ensures v.DateTime?
    ensures deletedAt.Some? ==> v == DateTime(deletedAt.value)
  {
    match deletedAt
    case None => DateTime(ZeroTimeMillis)
    case Some(t) => DateTime(t)
  }

  /** The field as a `*time.Time` with `omitempty` would encode it: absent
      while the user is live, the deletion time once it is set. */
  function DeletedAtField(deletedAt: Option<int>): (v: Value)
    ensures v.Null? <==> deletedAt.None?
    ensures deletedAt.Some? ==> v == DateTime(deletedAt.value)
  {
    match deletedAt
    case None => Null
    case Some(t) => DateTime(t)
  }

  /** As written, the nil filter matches no stored user, live or deleted. */
  lemma NilFilterMatchesNothingAsWritten(deletedAt: Option<int>)
    ensures !MatchesNil(DeletedAtAsWritten(deletedAt))
  {
  }

  /** With the corrected encoding the nil filter matches exactly the users
      that have no deletion marker. */
  lemma NilFilterMatchesLive(deletedAt: Option<int>)
    ensures MatchesNil(DeletedAtField(deletedAt)) <==> deletedAt.None?
  {
  }
}
