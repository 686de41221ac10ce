/** The reservation handlers: role-filtered listing, booking with the limit
    of three per shop, and owner-or-admin update and delete. */
module ReservationsController {
  import opened Common
  import opened Collection
  import opened ReservationModel
  import opened ShopModel

  const BookingLimit := 3

  /** The caller's own reservations, in stored order. */
  function OwnedBy(rs: seq<Stored<Reservation>>, user: Id): (r: seq<Stored<Reservation>>)
    ensures forall k :: 0 <= k < |r| ==> r[k] in rs && r[k].doc.user == user
    ensures forall k :: 0 <= k < |rs| && rs[k].doc.user == user ==> rs[k] in r
  {
    if rs == [] then []
    else if rs[0].doc.user == user then [rs[0]] + OwnedBy(rs[1..], user)
    else OwnedBy(rs[1..], user)
  }

  /** What `getReservations` lists: a caller whose role is exactly "user"
      sees only their own reservations, every other role sees them all. */
  function Visible(rs: seq<Stored<Reservation>>, who: Principal): (r: seq<Stored<Reservation>>)
    ensures who.role != "user" ==> r == rs
    ensures who.role == "user" ==> forall k :: 0 <= k < |r| ==> r[k] in rs && r[k].doc.user == who.id
    ensures who.role == "user" ==> forall k :: 0 <= k < |rs| && rs[k].doc.user == who.id ==> rs[k] in r
  {
    if who.role == "user" then OwnedBy(rs, who.id) else rs
  }

  /** `getReservations`. */
  method GetReservations(reservations: Store<Reservation>, who: Principal) returns (reply: Outcome<seq<Stored<Reservation>>>)
    ensures reply == Success(200, Visible(reservations.records, who))
  {
    var found := reservations.records;
    if who.role == "user" {
      found := OwnedBy(found, who.id);
    }
    reply := Success(200, found);
  }

  function NotFoundMessage(id: Id): string {
    "No reservation with the id of " + id
  }

  /** `getReservation`. */
  method GetReservation(reservations: Store<Reservation>, id: Id) returns (reply: Outcome<Reservation>)
    ensures reply.Success? <==> Find(reservations.records, id).Some?
    ensures reply.Success? ==> reply.status == 200 && Stored(id, reply.data) in reservations.records
    ensures reply.Failure? ==> reply == Failure(404, Text(NotFoundMessage(id)))
  {
    var r := Find(reservations.records, id);
    if r.None? {
      return Failure(404, Text(NotFoundMessage(id)));
    }
    reply := Success(200, r.value.doc);
  }

  function LimitMessage(user: Id): string {
    "The user with ID " + user + " has already made 3 reservations"
  }

  /** The booking limit: a caller who is no admin and already holds three
      reservations at the shop, on any dates. */
  predicate OverLimit(rs: seq<Stored<Reservation>>, who: Principal, shop: Id) {
    CountFor(rs, who.id, shop) >= BookingLimit && !IsAdmin(who)
  }

  /** The body after the handler overwrites `user` and `shop`. */
  function Overwritten(body: ReservationInput, who: Principal, shop: Id): (b: ReservationInput)
    ensures b.user == Some(who.id) && b.shop == Some(shop)
    ensures b.resvDate == body.resvDate && b.resvTime == body.resvTime && b.createdAt == body.createdAt
  {
    body.(user := Some(who.id), shop := Some(shop))
  }

  /** What `addReservation` answers, for the fresh `_id` `id` at time `now`:
      the limit first, then the shop, then the schema. */
  function AddReservationReply(rs: seq<Stored<Reservation>>, shops: seq<Stored<Shop>>, who: Principal,
                               shop: Id, body: ReservationInput, id: Id, now: int): Outcome<Reservation>
  {
    if OverLimit(rs, who, shop) then Failure(400, Text(LimitMessage(who.id)))
    else if Find(shops, shop).None? then Failure(404, Text("No shop with the id of " + shop))
    else match CreateReservation(Overwritten(body, who, shop), now)
      case Rejected(_) => Failure(500, Text("Cannot create Reservation"))
      case Accepted(doc) =>
        if Find(rs, id).Some? then Failure(500, Text("Cannot create Reservation")) else Success(201, doc)
  }

  /** `addReservation`. */
  method AddReservation(reservations: Store<Reservation>, shops: Store<Shop>, who: Principal,
                        shop: Id, body: ReservationInput, id: Id, now: int) returns (reply: Outcome<Reservation>)
    requires reservations.Valid()
    modifies reservations
    ensures reservations.Valid()
    ensures reply == AddReservationReply(old(reservations.records), shops.records, who, shop, body, id, now)
    ensures reservations.records == if reply.Success? then old(reservations.records) + [Stored(id, reply.data)]
                                    else old(reservations.records)
  {
    var b := Overwritten(body, who, shop);
    if CountFor(reservations.records, who.id, shop) >= BookingLimit && !IsAdmin(who) {
      return Failure(400, Text(LimitMessage(who.id)));
    }
    if Find(shops.records, shop).None? {
      return Failure(404, Text("No shop with the id of " + shop));
    }
    var made := CreateReservation(b, now);
    if made.Rejected? {
      return Failure(500, Text("Cannot create Reservation"));
    }
    var ok := reservations.Insert(id, made.doc);
    if !ok {
      return Failure(500, Text("Cannot create Reservation"));
    }
    reply := Success(201, made.doc);
  }

  /** A caller over the limit is refused with 400, before the shop is even
      looked up, so nothing is created. */
  lemma OverLimitRefused(rs: seq<Stored<Reservation>>, shops: seq<Stored<Shop>>, who: Principal,
                         shop: Id, body: ReservationInput, id: Id, now: int)
    requires !IsAdmin(who) && CountFor(rs, who.id, shop) >= BookingLimit
    ensures AddReservationReply(rs, shops, who, shop, body, id, now) == Failure(400, Text(LimitMessage(who.id)))
  {
  }

  /** An admin is never refused with 400, whatever the count. */
  lemma AdminNeverLimited(rs: seq<Stored<Reservation>>, shops: seq<Stored<Shop>>, who: Principal,
                          shop: Id, body: ReservationInput, id: Id, now: int)
    requires IsAdmin(who)
    ensures AddReservationReply(rs, shops, who, shop, body, id, now).status != 400
  {
  }

  /** The 404 of a missing shop comes only after the limit has passed. */
  lemma MissingShopAfterLimit(rs: seq<Stored<Reservation>>, shops: seq<Stored<Shop>>, who: Principal,
                              shop: Id, body: ReservationInput, id: Id, now: int)
    ensures AddReservationReply(rs, shops, who, shop, body, id, now).status == 404
            <==> !OverLimit(rs, who, shop) && Find(shops, shop).None?
  {
  }

  /** A booking the handler accepts belongs to the caller at the route's
      shop, whatever the body said, and raises that pair's count by one and
      no other count. */
  lemma BookingOverridesBody(rs: seq<Stored<Reservation>>, shops: seq<Stored<Shop>>, who: Principal,
                             shop: Id, body: ReservationInput, id: Id, now: int, u: Id, s: Id)
    requires AddReservationReply(rs, shops, who, shop, body, id, now).Success?
    ensures var doc := AddReservationReply(rs, shops, who, shop, body, id, now).data;
      && doc.user == who.id && doc.shop == shop && Find(shops, shop).Some?
      && CountFor(rs + [Stored(id, doc)], u, s) == CountFor(rs, u, s) + (if u == who.id && s == shop then 1 else 0)
  {
    var doc := AddReservationReply(rs, shops, who, shop, body, id, now).data;
    CountAfterAdd(rs, Stored(id, doc), u, s);
  }

  /** So booking keeps a non-admin at three reservations per shop at most. */
  lemma BookingKeepsLimit(rs: seq<Stored<Reservation>>, shops: seq<Stored<Shop>>, who: Principal,
                          shop: Id, body: ReservationInput, id: Id, now: int)
    requires !IsAdmin(who)
    requires AddReservationReply(rs, shops, who, shop, body, id, now).Success?
    ensures CountFor(rs + [Stored(id, AddReservationReply(rs, shops, who, shop, body, id, now).data)], who.id, shop) <= BookingLimit
  {
    BookingOverridesBody(rs, shops, who, shop, body, id, now, who.id, shop);
  }

  function UnauthorizedMessage(who: Principal): string {
    "User " + who.id + " is not authorized to update this reservation"
  }

  /** What `updateReservation` answers as written: the owner test reads
      `reservation.user` before the null test, so an unknown id throws a
      TypeError and ends in the 500 branch. */
  function UpdateReservationReply(rs: seq<Stored<Reservation>>, who: Principal, id: Id, p: ReservationPatch): Outcome<Reservation> {
    match Find(rs, id)
    case None => Failure(500, Text("Cannot update Reservation"))
    case Some(r) =>
      if !MayModify(r.doc.user, who) then Failure(401, Text(UnauthorizedMessage(who)))
      else match ApplyPatch(r.doc, p)
        case None => Failure(500, Text("Cannot update Reservation"))
        case Some(doc) => Success(200, doc)
  }

  /** `updateReservation`. */
  method UpdateReservation(reservations: Store<Reservation>, who: Principal, id: Id, p: ReservationPatch)
    returns (reply: Outcome<Reservation>)
    requires reservations.Valid()
    modifies reservations
    ensures reservations.Valid()
    ensures reply == UpdateReservationReply(old(reservations.records), who, id, p)
    ensures reservations.records == if reply.Success? then Replace(old(reservations.records), id, reply.data)
                                    else old(reservations.records)
  {
    var found := Find(reservations.records, id);
    if found.None? {
      return Failure(500, Text("Cannot update Reservation"));
    }
    if found.value.doc.user != who.id && !IsAdmin(who) {
      return Failure(401, Text(UnauthorizedMessage(who)));
    }
    var updated := ApplyPatch(found.value.doc, p);
    if updated.None? {
      return Failure(500, Text("Cannot update Reservation"));
    }
    reservations.Update(id, updated.value);
    reply := Success(200, updated.value);
  }

  /** What `deleteReservation` answers as written, with the same order of
      tests, and the update's text in its 401. */
  function DeleteReservationReply(rs: seq<Stored<Reservation>>, who: Principal, id: Id): Outcome<()> {
    match Find(rs, id)
    case None => Failure(500, Text("Cannot delete Reservation"))
    case Some(r) =>
      if !MayModify(r.doc.user, who) then Failure(401, Text(UnauthorizedMessage(who)))
      else Success(200, ())
  }

  /** `deleteReservation`. */
  method DeleteReservation(reservations: Store<Reservation>, who: Principal, id: Id) returns (reply: Outcome<()>)
    requires reservations.Valid()
    modifies reservations
    ensures reservations.Valid()
    ensures reply == DeleteReservationReply(old(reservations.records), who, id)
    ensures reservations.records == if reply.Success? then Without(old(reservations.records), id)
                                    else old(reservations.records)
  {
    var found := Find(reservations.records, id);
    if found.None? {
      return Failure(500, Text("Cannot delete Reservation"));
    }
    if found.value.doc.user != who.id && !IsAdmin(who) {
      return Failure(401, Text(UnauthorizedMessage(who)));
    }
    reservations.Delete(id);
    reply := Success(200, ());
  }

  /** Neither owner nor admin: both handlers answer 401, so the store is
      left as it was. */
  lemma StrangerRefused(rs: seq<Stored<Reservation>>, who: Principal, id: Id, p: ReservationPatch)
    requires Find(rs, id).Some? && !MayModify(Find(rs, id).value.doc.user, who)
    ensures UpdateReservationReply(rs, who, id, p) == Failure(401, Text(UnauthorizedMessage(who)))
    ensures DeleteReservationReply(rs, who, id) == Failure(401, Text(UnauthorizedMessage(who)))
  {
  }

  /** An unknown id ends in the 500 branch of both handlers, never in their
      404 branch. */
  lemma UnknownIdGives500(rs: seq<Stored<Reservation>>, who: Principal, id: Id, p: ReservationPatch)
    requires Find(rs, id).None?
    ensures UpdateReservationReply(rs, who, id, p) == Failure(500, Text("Cannot update Reservation"))
    ensures DeleteReservationReply(rs, who, id) == Failure(500, Text("Cannot delete Reservation"))
  {
  }

  /** The intended update: the null test comes first, so 404 means an
      unknown id and 401 a stranger, and a success is an owner's or an
      admin's accepted patch. */
  function UpdateReservationIntended(rs: seq<Stored<Reservation>>, who: Principal, id: Id, p: ReservationPatch): (r: Outcome<Reservation>)
    ensures r.status == 404 <==> Find(rs, id).None?
    ensures r.status == 401 <==> Find(rs, id).Some? && !MayModify(Find(rs, id).value.doc.user, who)
    ensures r.Success? <==> && Find(rs, id).Some? && MayModify(Find(rs, id).value.doc.user, who)
                            && ApplyPatch(Find(rs, id).value.doc, p).Some?
    ensures r.Success? ==> Some(r.data) == ApplyPatch(Find(rs, id).value.doc, p)
  {
    if Find(rs, id).None? then Failure(404, Text(NotFoundMessage(id))) else UpdateReservationReply(rs, who, id, p)
  }

  /** The intended delete: 404 means an unknown id, 401 a stranger, and
      success an owner or an admin. */
  function DeleteReservationIntended(rs: seq<Stored<Reservation>>, who: Principal, id: Id): (r: Outcome<()>)
    ensures r.status == 404 <==> Find(rs, id).None?
    ensures r.status == 401 <==> Find(rs, id).Some? && !MayModify(Find(rs, id).value.doc.user, who)
    ensures r.Success? <==> Find(rs, id).Some? && MayModify(Find(rs, id).value.doc.user, who)
  {
    if Find(rs, id).None? then Failure(404, Text(NotFoundMessage(id))) else DeleteReservationReply(rs, who, id)
  }

  /** The correction changes one thing: where the handlers as written answer
      500 for an unknown id, the intended ones answer 404 with the message
      naming the id; for a stored id they answer the same. */
  lemma IntendedDiffersOnlyOnUnknownId(rs: seq<Stored<Reservation>>, who: Principal, id: Id, p: ReservationPatch)
    ensures UpdateReservationIntended(rs, who, id, p) != UpdateReservationReply(rs, who, id, p) <==> Find(rs, id).None?
    ensures DeleteReservationIntended(rs, who, id) != DeleteReservationReply(rs, who, id) <==> Find(rs, id).None?
    ensures Find(rs, id).None? ==>
      && UpdateReservationReply(rs, who, id, p).status == 500
      && UpdateReservationIntended(rs, who, id, p) == Failure(404, Text(NotFoundMessage(id)))
      && DeleteReservationIntended(rs, who, id) == Failure(404, Text(NotFoundMessage(id)))
  {
  }

  /** A delete that succeeds removes exactly the one reservation and keeps
      every other. */
  lemma DeleteRemovesExactlyOne(rs: seq<Stored<Reservation>>, who: Principal, id: Id)
    requires DistinctIds(rs)
    requires DeleteReservationReply(rs, who, id).Success?
    ensures |Without(rs, id)| == |rs| - 1 && Find(Without(rs, id), id).None?
    ensures forall k :: 0 <= k < |rs| && rs[k].id != id ==> rs[k] in Without(rs, id)
  {
    WithoutRemovesOne(rs, id);
  }

  /** The update path has no limit: an owner may move a reservation to a
      shop where they already hold three, and then holds four there. */
  lemma UpdateBypassesLimit(rs: seq<Stored<Reservation>>, who: Principal, id: Id, shop: Id)
    requires DistinctIds(rs)
    requires Find(rs, id).Some? && Find(rs, id).value.doc.user == who.id && Find(rs, id).value.doc.shop != shop
    requires CountFor(rs, who.id, shop) == BookingLimit
    ensures var p := ReservationPatch(None, None, None, Some(shop), None);
      && UpdateReservationReply(rs, who, id, p).Success?
      && CountFor(Replace(rs, id, UpdateReservationReply(rs, who, id, p).data), who.id, shop) == BookingLimit + 1
  {
    var p := ReservationPatch(None, None, None, Some(shop), None);
    var doc := UpdateReservationReply(rs, who, id, p).data;
    MovedCount(rs, id, doc, who.id, shop);
  }

  /** Moving the one reservation under `id` into (user, shop) raises that
      count by one. */
  lemma {:induction false} MovedCount(rs: seq<Stored<Reservation>>, id: Id, doc: Reservation, user: Id, shop: Id)
    requires DistinctIds(rs)
    requires Find(rs, id).Some? && !HeldBy(Find(rs, id).value, user, shop)
    requires doc.user == user && doc.shop == shop
    ensures CountFor(Replace(rs, id, doc), user, shop) == CountFor(rs, user, shop) + 1
  {
    var r := Replace(rs, id, doc);
    assert r[1..] == Replace(rs[1..], id, doc);
    TailKeepsDistinct(rs);
    if rs[0].id == id {
      ReplaceAbsent(rs[1..], id, doc);
    } else {
      MovedCount(rs[1..], id, doc, user, shop);
    }
  }

  lemma ReplaceAbsent(rs: seq<Stored<Reservation>>, id: Id, doc: Reservation)
    requires Find(rs, id).None?
    ensures Replace(rs, id, doc) == rs
  {
  }
}
