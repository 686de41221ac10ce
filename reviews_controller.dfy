/** The review handlers: listing, adding for an existing shop, and
    existence-then-owner-or-admin update and delete. */
module ReviewsController {
  import opened Common
  import opened Collection
  import opened ReviewModel
  import opened ShopModel

  /** Every stored review satisfies the schema. */
  ghost predicate AllValid(rs: seq<Stored<Review>>) {
    forall k :: 0 <= k < |rs| ==> ValidReview(rs[k].doc)
  }

  /** `getReviews`: every review, whoever asks. */
  method GetReviews(reviews: Store<Review>, who: Principal) returns (reply: Outcome<seq<Stored<Review>>>)
    ensures reply == Success(200, reviews.records)
  {
    reply := Success(200, reviews.records);
  }

  /** `getReview`. */
  method GetReview(reviews: Store<Review>, id: Id) returns (reply: Outcome<Review>)
    ensures reply.Success? <==> Find(reviews.records, id).Some?
    ensures reply.Success? ==> reply.status == 200 && Stored(id, reply.data) in reviews.records
    ensures reply.Failure? ==> reply == Failure(400, NoMessage)
  {
    var r := Find(reviews.records, id);
    if r.None? {
      return Failure(400, NoMessage);
    }
    reply := Success(200, r.value.doc);
  }

  /** What `addReview` answers for the fresh `_id` `id` at time `now`: the
      body's `user` is replaced by the caller, and the shop it names must
      exist. */
  function AddReviewReply(rs: seq<Stored<Review>>, shops: seq<Stored<Shop>>, who: Principal,
                          body: ReviewInput, id: Id, now: int): Outcome<Review>
  {
    if body.shop.None? || Find(shops, body.shop.value).None? then Failure(400, NoMessage)
    else match CreateReview(body.(user := Some(who.id)), now)
      case Rejected(errs) => Failure(400, Invalid(errs))
      case Accepted(doc) => if Find(rs, id).Some? then Failure(400, DuplicateKey("_id")) else Success(200, doc)
  }

  /** `addReview`. */
  method AddReview(reviews: Store<Review>, shops: Store<Shop>, who: Principal, body: ReviewInput, id: Id, now: int)
    returns (reply: Outcome<Review>)
    requires reviews.Valid()
    modifies reviews
    ensures reviews.Valid()
    ensures reply == AddReviewReply(old(reviews.records), shops.records, who, body, id, now)
    ensures reviews.records == if reply.Success? then old(reviews.records) + [Stored(id, reply.data)] else old(reviews.records)
  {
    var b := body.(user := Some(who.id));
    if b.shop.None? || Find(shops.records, b.shop.value).None? {
      return Failure(400, NoMessage);
    }
    var made := CreateReview(b, now);
    if made.Rejected? {
      return Failure(400, Invalid(made.errors));
    }
    var ok := reviews.Insert(id, made.doc);
    if !ok {
      return Failure(400, DuplicateKey("_id"));
    }
    reply := Success(200, made.doc);
  }

  /** An added review is the caller's, whatever the body said, is for an
      existing shop, and keeps every stored review valid. */
  lemma AddedReviewIsCallers(rs: seq<Stored<Review>>, shops: seq<Stored<Shop>>, who: Principal,
                             body: ReviewInput, id: Id, now: int)
    requires AllValid(rs)
    requires AddReviewReply(rs, shops, who, body, id, now).Success?
    ensures var doc := AddReviewReply(rs, shops, who, body, id, now).data;
      doc.user == who.id && Find(shops, doc.shop).Some? && AllValid(rs + [Stored(id, doc)])
  {
    var doc := AddReviewReply(rs, shops, who, body, id, now).data;
    var rs2 := rs + [Stored(id, doc)];
    forall k | 0 <= k < |rs2| ensures ValidReview(rs2[k].doc) {
      if k < |rs| {
        assert rs2[k] == rs[k];
      }
    }
  }

  /** A shop that is not stored, or none named, gives 400 and no review. */
  lemma UnknownShopRefused(rs: seq<Stored<Review>>, shops: seq<Stored<Shop>>, who: Principal,
                           body: ReviewInput, id: Id, now: int)
    requires body.shop.None? || Find(shops, body.shop.value).None?
    ensures AddReviewReply(rs, shops, who, body, id, now) == Failure(400, NoMessage)
  {
  }

  /** What `updateReview` answers: existence, then owner-or-admin, then the
      update validators. */
  function UpdateReviewReply(rs: seq<Stored<Review>>, who: Principal, id: Id, p: ReviewPatch): Outcome<Review> {
    match Find(rs, id)
    case None => Failure(400, NoMessage)
    case Some(r) =>
      if !MayModify(r.doc.user, who) then Failure(401, Text("Not authorized to update review"))
      else match ApplyPatch(r.doc, p)
        case None => Failure(400, NoMessage)
        case Some(doc) => Success(200, doc)
  }

  /** `updateReview`. */
  method UpdateReview(reviews: Store<Review>, who: Principal, id: Id, p: ReviewPatch) returns (reply: Outcome<Review>)
    requires reviews.Valid()
    modifies reviews
    ensures reviews.Valid()
    ensures reply == UpdateReviewReply(old(reviews.records), who, id, p)
    ensures reviews.records == if reply.Success? then Replace(old(reviews.records), id, reply.data) else old(reviews.records)
  {
    var found := Find(reviews.records, id);
    if found.None? {
      return Failure(400, NoMessage);
    }
    if found.value.doc.user != who.id && !IsAdmin(who) {
      return Failure(401, Text("Not authorized to update review"));
    }
    var updated := ApplyPatch(found.value.doc, p);
    if updated.None? {
      return Failure(400, NoMessage);
    }
    reviews.Update(id, updated.value);
    reply := Success(200, updated.value);
  }

  /** What `deleteReview` answers. */
  function DeleteReviewReply(rs: seq<Stored<Review>>, who: Principal, id: Id): Outcome<()> {
    match Find(rs, id)
    case None => Failure(400, NoMessage)
    case Some(r) =>
      if !MayModify(r.doc.user, who) then Failure(401, Text("Not authorized to delete review"))
      else Success(200, ())
  }

  /** `deleteReview`. */
  method DeleteReview(reviews: Store<Review>, who: Principal, id: Id) returns (reply: Outcome<()>)
    requires reviews.Valid()
    modifies reviews
    ensures reviews.Valid()
    ensures reply == DeleteReviewReply(old(reviews.records), who, id)
    ensures reviews.records == if reply.Success? then Without(old(reviews.records), id) else old(reviews.records)
  {
    var found := Find(reviews.records, id);
    if found.None? {
      return Failure(400, NoMessage);
    }
    if found.value.doc.user != who.id && !IsAdmin(who) {
      return Failure(401, Text("Not authorized to delete review"));
    }
    reviews.Delete(id);
    reply := Success(200, ());
  }

  /** An unknown id is answered 400 before anyone's rights are looked at:
      the answer is the same for every caller. */
  lemma UnknownIdBeforeAuthorization(rs: seq<Stored<Review>>, who: Principal, other: Principal, id: Id, p: ReviewPatch)
    requires Find(rs, id).None?
    ensures UpdateReviewReply(rs, who, id, p) == UpdateReviewReply(rs, other, id, p) == Failure(400, NoMessage)
    ensures DeleteReviewReply(rs, who, id) == DeleteReviewReply(rs, other, id) == Failure(400, NoMessage)
  {
  }

  /** A stored review and a caller who is neither its author nor an admin:
      401 on both handlers, so the review stays as it is. */
  lemma StrangerRefused(rs: seq<Stored<Review>>, who: Principal, id: Id, p: ReviewPatch)
    requires Find(rs, id).Some? && !MayModify(Find(rs, id).value.doc.user, who)
    ensures UpdateReviewReply(rs, who, id, p) == Failure(401, Text("Not authorized to update review"))
    ensures DeleteReviewReply(rs, who, id) == Failure(401, Text("Not authorized to delete review"))
  {
  }

  /** An accepted update keeps every stored review valid. */
  lemma UpdateKeepsValid(rs: seq<Stored<Review>>, who: Principal, id: Id, p: ReviewPatch)
    requires AllValid(rs)
    requires UpdateReviewReply(rs, who, id, p).Success?
    ensures AllValid(Replace(rs, id, UpdateReviewReply(rs, who, id, p).data))
  {
    var r := Find(rs, id).value;
    PatchKeepsValid(r.doc, p);
  }

  /** A delete by the author or an admin removes that review and no other. */
  lemma DeleteRemovesExactlyOne(rs: seq<Stored<Review>>, who: Principal, id: Id)
    requires DistinctIds(rs)
    requires DeleteReviewReply(rs, who, id).Success?
    ensures |Without(rs, id)| == |rs| - 1 && Find(Without(rs, id), id).None?
    ensures forall k :: 0 <= k < |rs| && rs[k].id != id ==> rs[k] in Without(rs, id)
  {
    WithoutRemovesOne(rs, id);
  }
}
