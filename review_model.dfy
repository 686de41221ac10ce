/** The Review schema: the reviewed shop, the reviewing user, a comment and a
    rating from 1 to 5, and a creation time that defaults to the clock. */
module ReviewModel {
  import opened Common

  const MinRating: real := 1.0
  const MaxRating: real := 5.0

  /** A request body as `Review.create` receives it; `rating` is already a
      Number. */
  datatype ReviewInput = ReviewInput(
    shop: Option<Id>, user: Option<Id>, comment: Option<string>,
    rating: Option<real>, createdAt: Option<int>)

  datatype Review = Review(shop: Id, user: Id, comment: string, rating: real, createdAt: int)

  /** What the schema guarantees of every stored review. */
  predicate ValidReview(r: Review) {
    r.comment != [] && MinRating <= r.rating <= MaxRating
  }

  /** A String path that is required: missing and empty text both fail. */
  function CommentErrors(c: Option<string>): (r: seq<FieldError>)
    ensures r == [] <==> c.Some? && c.value != []
    ensures |r| <= 1
  {
    if c.Some? && c.value != [] then [] else [FieldError("comment", Required, None)]
  }

  /** `rating`: required, then `min: 1`, then `max: 5`; one error at most. */
  function RatingErrors(v: Option<real>): (r: seq<FieldError>)
    ensures r == [] <==> v.Some? && MinRating <= v.value <= MaxRating
    ensures |r| <= 1
  {
    match v
    case None => [FieldError("rating", Required, None)]
    case Some(x) =>
      if x < MinRating then [FieldError("rating", BelowMin, None)]
      else if x > MaxRating then [FieldError("rating", AboveMax, None)]
      else []
  }

  function IdErrors(path: string, v: Option<Id>): (r: seq<FieldError>)
    ensures r == [] <==> v.Some?
  {
    if v.Some? then [] else [FieldError(path, Required, None)]
  }

  /** The errors of a body, in schema order. */
  function ReviewErrors(b: ReviewInput): (r: seq<FieldError>)
    ensures r == [] <==> && b.shop.Some? && b.user.Some? && b.comment.Some? && b.comment.value != []
                         && b.rating.Some? && MinRating <= b.rating.value <= MaxRating
  {
    IdErrors("shop", b.shop) + IdErrors("user", b.user) + CommentErrors(b.comment) + RatingErrors(b.rating)
  }

  /** `Review.create` minus the insert. */
  function CreateReview(b: ReviewInput, now: int): (r: Checked<Review>)
    ensures r.Rejected? <==> ReviewErrors(b) != []
    ensures r.Rejected? ==> r.errors == ReviewErrors(b)
    ensures r.Accepted? ==> ValidReview(r.doc)
    ensures r.Accepted? ==>
      && Some(r.doc.shop) == b.shop && Some(r.doc.user) == b.user
      && Some(r.doc.comment) == b.comment && Some(r.doc.rating) == b.rating
      && r.doc.createdAt == (if b.createdAt.Some? then b.createdAt.value else now)
  {
    var errs := ReviewErrors(b);
    if errs != [] then Rejected(errs)
    else Accepted(Review(b.shop.value, b.user.value, b.comment.value, b.rating.value, b.createdAt.GetOr(now)))
  }

  /** A rating outside 1..5 is refused with the bound it breaks. */
  lemma RatingOutOfRangeRefused(b: ReviewInput, now: int)
    requires b.rating.Some? && !(MinRating <= b.rating.value <= MaxRating)
    ensures CreateReview(b, now).Rejected?
    ensures var e := if b.rating.value < MinRating then BelowMin else AboveMax;
      FieldError("rating", e, None) in CreateReview(b, now).errors
  {
    var a := IdErrors("shop", b.shop) + IdErrors("user", b.user) + CommentErrors(b.comment);
    assert ReviewErrors(b) == a + RatingErrors(b.rating);
    assert ReviewErrors(b)[|a|] == RatingErrors(b.rating)[0];
  }

  /** The body of `findByIdAndUpdate`: every path it names, `createdAt`
      included, replaces the stored one. */
  datatype ReviewPatch = ReviewPatch(shop: Option<Id>, user: Option<Id>, comment: Option<string>,
                                     rating: Option<real>, createdAt: Option<int>)

  /** The update validators run on the paths the patch sets and only those. */
  function PatchErrors(p: ReviewPatch): (r: seq<FieldError>)
    ensures r == [] <==> (p.comment.Some? ==> p.comment.value != [])
                         && (p.rating.Some? ==> MinRating <= p.rating.value <= MaxRating)
  {
    (if p.comment.Some? then CommentErrors(p.comment) else [])
      + (if p.rating.Some? then RatingErrors(p.rating) else [])
  }

  /** The stored review after the update; `None` when a validator refuses.
      Each path the patch names takes the new value and every other path
      keeps the stored one. */
  function ApplyPatch(doc: Review, p: ReviewPatch): (r: Option<Review>)
    ensures r.None? <==> PatchErrors(p) != []
    ensures r.Some? ==>
      && (p.shop.Some? ==> r.value.shop == p.shop.value) && (p.shop.None? ==> r.value.shop == doc.shop)
      && (p.user.Some? ==> r.value.user == p.user.value) && (p.user.None? ==> r.value.user == doc.user)
      && (p.comment.Some? ==> r.value.comment == p.comment.value) && (p.comment.None? ==> r.value.comment == doc.comment)
      && (p.rating.Some? ==> r.value.rating == p.rating.value) && (p.rating.None? ==> r.value.rating == doc.rating)
      && (p.createdAt.Some? ==> r.value.createdAt == p.createdAt.value)
      && (p.createdAt.None? ==> r.value.createdAt == doc.createdAt)
  {
    if PatchErrors(p) != [] then None
    else Some(Review(p.shop.GetOr(doc.shop), p.user.GetOr(doc.user), p.comment.GetOr(doc.comment),
                     p.rating.GetOr(doc.rating), p.createdAt.GetOr(doc.createdAt)))
  }

  /** A patch that names no path changes nothing. */
  lemma EmptyPatchIsIdentity(doc: Review)
    ensures ApplyPatch(doc, ReviewPatch(None, None, None, None, None)) == Some(doc)
  {
  }

  /** Applying the same patch twice stores what applying it once does. */
  lemma PatchIdempotent(doc: Review, p: ReviewPatch)
    requires ApplyPatch(doc, p).Some?
    ensures ApplyPatch(ApplyPatch(doc, p).value, p) == ApplyPatch(doc, p)
  {
  }

  /** An accepted update keeps a valid review valid. */
  lemma PatchKeepsValid(doc: Review, p: ReviewPatch)
    requires ValidReview(doc)
    requires ApplyPatch(doc, p).Some?
    ensures ValidReview(ApplyPatch(doc, p).value)
  {
  }
}
