/** The Reservation schema: a date, a time given as an operation record, the
    booking user and shop, and a creation time that defaults to the clock. */
module ReservationModel {
  import opened Common
  import opened JsValues
  import opened OperationSchema
  import opened Collection

  /** A request body as `Reservation.create` receives it. Dates are epoch
      milliseconds. */
  datatype ReservationInput = ReservationInput(
    resvDate: Option<int>, resvTime: Option<OperationInput>,
    user: Option<Id>, shop: Option<Id>, createdAt: Option<int>)

  /** A stored reservation. */
  datatype Reservation = Reservation(
    resvDate: int, resvTime: Operation, user: Id, shop: Id, createdAt: int)

  /** The error of a required path: none when the value is there. */
  function RequiredError<V>(path: string, v: Option<V>): (r: seq<FieldError>)
    ensures r == [] <==> v.Some?
    ensures r != [] ==> r == [FieldError(path, Required, None)]
  {
    if v.Some? then [] else [FieldError(path, Required, None)]
  }

  /** The errors of `resvTime`: required, and its record must cast. */
  function ResvTimeErrors(v: Option<OperationInput>): (r: seq<FieldError>)
    ensures r == [] <==> v.Some? && CastOperation(v.value).Some?
    ensures |r| <= 1
  {
    match v
    case None => [FieldError("resvTime", Required, None)]
    case Some(o) => if CastOperation(o).Some? then [] else [FieldError("resvTime", CastFailed, None)]
  }

  /** The errors of a body, in schema order. */
  function ReservationErrors(b: ReservationInput): (r: seq<FieldError>)
    ensures r == [] <==> && b.resvDate.Some? && b.resvTime.Some? && CastOperation(b.resvTime.value).Some?
                         && b.user.Some? && b.shop.Some?
    ensures |r| <= 4
  {
    RequiredError("resvDate", b.resvDate) + ResvTimeErrors(b.resvTime)
      + RequiredError("user", b.user) + RequiredError("shop", b.shop)
  }

  /** `Reservation.create` minus the insert: the document it stores, with
      `createdAt` defaulting to `now`, or the errors. */
  function CreateReservation(b: ReservationInput, now: int): (r: Checked<Reservation>)
    ensures r.Rejected? <==> ReservationErrors(b) != []
    ensures r.Rejected? ==> r.errors == ReservationErrors(b)
    ensures r.Accepted? ==>
      && Some(r.doc.resvDate) == b.resvDate && Some(r.doc.resvTime) == CastOperation(b.resvTime.value)
      && Some(r.doc.user) == b.user && Some(r.doc.shop) == b.shop
      && r.doc.createdAt == (if b.createdAt.Some? then b.createdAt.value else now)
  {
    var errs := ReservationErrors(b);
    if errs != [] then Rejected(errs)
    else Accepted(Reservation(b.resvDate.value, CastOperation(b.resvTime.value).value,
                              b.user.value, b.shop.value, b.createdAt.GetOr(now)))
  }

  /** A body that leaves out `createdAt` is stamped with the clock, and one
      that gives it keeps it. */
  lemma CreatedAtDefaultsToNow(b: ReservationInput, now: int)
    requires ReservationErrors(b) == []
    ensures b.createdAt.None? ==> CreateReservation(b, now).doc.createdAt == now
    ensures b.createdAt.Some? ==> CreateReservation(b, now).doc.createdAt == b.createdAt.value
  {
  }

  /** Each of the four required paths refuses the body on its own. */
  lemma EachRequiredPathRefuses(b: ReservationInput, now: int)
    requires b.resvDate.None? || b.resvTime.None? || b.user.None? || b.shop.None?
    ensures CreateReservation(b, now).Rejected?
    ensures b.resvDate.None? ==> FieldError("resvDate", Required, None) in CreateReservation(b, now).errors
    ensures b.resvTime.None? ==> FieldError("resvTime", Required, None) in CreateReservation(b, now).errors
    ensures b.user.None? ==> FieldError("user", Required, None) in CreateReservation(b, now).errors
    ensures b.shop.None? ==> FieldError("shop", Required, None) in CreateReservation(b, now).errors
  {
    var e1, e2, e3, e4 := RequiredError("resvDate", b.resvDate), ResvTimeErrors(b.resvTime),
                          RequiredError("user", b.user), RequiredError("shop", b.shop);
    assert ReservationErrors(b) == e1 + e2 + e3 + e4;
    if b.resvDate.None? { assert e1[0] in ReservationErrors(b); }
    if b.resvTime.None? { assert ReservationErrors(b)[|e1|] == e2[0]; }
    if b.user.None? { assert ReservationErrors(b)[|e1| + |e2|] == e3[0]; }
    if b.shop.None? { assert ReservationErrors(b)[|e1| + |e2| + |e3|] == e4[0]; }
  }

  /** Whether a stored reservation is one of `user`'s at `shop`: the filter
      `{ user, shop }` of the booking limit. */
  predicate HeldBy(r: Stored<Reservation>, user: Id, shop: Id) {
    r.doc.user == user && r.doc.shop == shop
  }

  /** How many reservations `user` holds at `shop`, on any date. */
  function CountFor(rs: seq<Stored<Reservation>>, user: Id, shop: Id): (n: nat)
    ensures n <= |rs|
    ensures n == 0 <==> forall k :: 0 <= k < |rs| ==> !HeldBy(rs[k], user, shop)
  {
    if rs == [] then 0
    else (if HeldBy(rs[0], user, shop) then 1 else 0) + CountFor(rs[1..], user, shop)
  }

  lemma {:induction false} CountConcat(a: seq<Stored<Reservation>>, b: seq<Stored<Reservation>>, user: Id, shop: Id)
    ensures CountFor(a + b, user, shop) == CountFor(a, user, shop) + CountFor(b, user, shop)
  {
    if a == [] {
      assert a + b == b;
    } else {
      assert (a + b)[0] == a[0] && (a + b)[1..] == a[1..] + b;
      CountConcat(a[1..], b, user, shop);
    }
  }

  /** Adding one reservation raises the count of its own (user, shop) pair by
      one and leaves every other pair's count as it was. */
  lemma CountAfterAdd(rs: seq<Stored<Reservation>>, x: Stored<Reservation>, user: Id, shop: Id)
    ensures CountFor(rs + [x], user, shop) == CountFor(rs, user, shop) + (if HeldBy(x, user, shop) then 1 else 0)
  {
    CountConcat(rs, [x], user, shop);
  }

  /** The count looks at `user` and `shop` only: rewriting a reservation's
      date and time in place does not change any count. */
  lemma {:induction false} CountIgnoresDateAndTime(rs: seq<Stored<Reservation>>, id: Id, doc: Reservation, user: Id, shop: Id)
    requires forall k :: 0 <= k < |rs| && rs[k].id == id ==> rs[k].doc.user == doc.user && rs[k].doc.shop == doc.shop
    ensures CountFor(Replace(rs, id, doc), user, shop) == CountFor(rs, user, shop)
  {
    if rs != [] {
      var r := Replace(rs, id, doc);
      assert r[1..] == Replace(rs[1..], id, doc);
      CountIgnoresDateAndTime(rs[1..], id, doc, user, shop);
    }
  }

  /** The reservations of all shops but `shop`, in order: what the Shop
      pre-remove hook leaves behind. */
  function WithoutShop(rs: seq<Stored<Reservation>>, shop: Id): (r: seq<Stored<Reservation>>)
    ensures forall k :: 0 <= k < |r| ==> r[k] in rs && r[k].doc.shop != shop
    ensures forall k :: 0 <= k < |rs| && rs[k].doc.shop != shop ==> rs[k] in r
    ensures |r| <= |rs|
  {
    if rs == [] then []
    else if rs[0].doc.shop == shop then WithoutShop(rs[1..], shop)
    else [rs[0]] + WithoutShop(rs[1..], shop)
  }

  /** After the cascade nobody holds a reservation at the removed shop, and
      every count at another shop is as before. */
  lemma {:induction false} CascadeCounts(rs: seq<Stored<Reservation>>, removed: Id, user: Id, shop: Id)
    ensures CountFor(WithoutShop(rs, removed), user, shop) == if shop == removed then 0 else CountFor(rs, user, shop)
  {
    if rs != [] {
      CascadeCounts(rs[1..], removed, user, shop);
      var tail := WithoutShop(rs[1..], removed);
      var head := if HeldBy(rs[0], user, shop) then 1 else 0;
      assert CountFor(rs, user, shop) == head + CountFor(rs[1..], user, shop);
      if rs[0].doc.shop == removed {
        assert WithoutShop(rs, removed) == tail;
        assert shop != removed ==> head == 0;
      } else {
        var w := [rs[0]] + tail;
        assert WithoutShop(rs, removed) == w;
        assert w[0] == rs[0] && w[1..] == tail;
        assert CountFor(w, user, shop) == head + CountFor(tail, user, shop);
        assert shop == removed ==> head == 0;
      }
    }
  }

  /** The cascade keeps the `_id` index unique. */
  lemma {:induction false} WithoutShopKeepsDistinct(rs: seq<Stored<Reservation>>, shop: Id)
    requires DistinctIds(rs)
    ensures DistinctIds(WithoutShop(rs, shop))
  {
    if rs != [] {
      WithoutShopKeepsDistinct(rs[1..], shop);
      var tail := WithoutShop(rs[1..], shop);
      forall k | 0 <= k < |tail| ensures tail[k].id != rs[0].id {
        assert tail[k] in rs[1..];
      }
    }
  }

  /** The body of `findOneAndUpdate`: each field it names replaces the
      stored one. */
  datatype ReservationPatch = ReservationPatch(
    resvDate: Option<int>, resvTime: Option<OperationInput>,
    user: Option<Id>, shop: Option<Id>, createdAt: Option<int>)

  /** The update with validators run on the paths it sets: `None` when the
      new time does not cast. */
  function ApplyPatch(doc: Reservation, p: ReservationPatch): (r: Option<Reservation>)
    ensures r.None? <==> p.resvTime.Some? && CastOperation(p.resvTime.value).None?
    ensures r.Some? ==>
      && r.value.resvDate == p.resvDate.GetOr(doc.resvDate)
      && r.value.user == p.user.GetOr(doc.user) && r.value.shop == p.shop.GetOr(doc.shop)
      && r.value.createdAt == p.createdAt.GetOr(doc.createdAt)
      && (p.resvTime.None? ==> r.value.resvTime == doc.resvTime)
      && (p.resvTime.Some? ==> Some(r.value.resvTime) == CastOperation(p.resvTime.value))
  {
    var time := if p.resvTime.Some? then CastOperation(p.resvTime.value) else Some(doc.resvTime);
    if time.None? then None
    else Some(Reservation(p.resvDate.GetOr(doc.resvDate), time.value, p.user.GetOr(doc.user),
                          p.shop.GetOr(doc.shop), p.createdAt.GetOr(doc.createdAt)))
  }

  /** A patch that names no field changes nothing. */
  lemma EmptyPatchIsIdentity(doc: Reservation)
    ensures ApplyPatch(doc, ReservationPatch(None, None, None, None, None)) == Some(doc)
  {
  }
}
