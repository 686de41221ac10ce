/** The shop handlers that decide something: `createShop`, with its check of
    the seven operation records, and `deleteShop`, with the cascade. */
module ShopsController {
  import opened Common
  import opened JsValues
  import opened OperationSchema
  import opened Collection
  import opened ReservationModel
  import opened ShopModel

  const DaysPerWeek := 7
  const LengthMessage := "Operation field must have 7 elements"
  const OrderMessage := "Start time must be less than end time"
  const RangeMessage := "Start and end time must be in between 0 - 1440 minutes format"

  /** `op.start > op.end` and the bounds test of one record, in that order,
      with JavaScript's comparison of whatever values the body holds: an
      inverted record gets the order message, and a record passes exactly
      when none of the five comparisons holds. */
  function EntryViolation(op: OperationInput): (r: Option<string>)
    ensures LessThan(op.end, op.start) ==> r == Some(OrderMessage)
    ensures r.None? <==> && !LessThan(op.end, op.start)
                         && !LessThan(op.start, Num(0)) && !LessThan(Num(MinutesPerDay), op.start)
                         && !LessThan(op.end, Num(0)) && !LessThan(Num(MinutesPerDay), op.end)
    ensures r.Some? ==> r.value in {OrderMessage, RangeMessage}
  {
    if LessThan(op.end, op.start) then Some(OrderMessage)
    else if || LessThan(op.start, Num(0)) || LessThan(Num(MinutesPerDay), op.start)
            || LessThan(op.end, Num(0)) || LessThan(Num(MinutesPerDay), op.end)
    then Some(RangeMessage)
    else None
  }

  /** What each record's callback sends, in `forEach` order: a 400 message or
      nothing. */
  function Verdicts(ops: seq<OperationInput>): seq<Option<string>> {
    seq(|ops|, k requires 0 <= k < |ops| => EntryViolation(ops[k]))
  }

  /** How many of the verdicts send a 400. */
  function SentCount(vs: seq<Option<string>>): (n: nat)
    ensures n <= |vs|
  {
    if vs == [] then 0 else (if vs[0].Some? then 1 else 0) + SentCount(vs[1..])
  }

  /** The first message among the verdicts. */
  function FirstSent(vs: seq<Option<string>>): (r: Option<string>)
    ensures r.Some? <==> SentCount(vs) > 0
  {
    if vs == [] then None else if vs[0].Some? then vs[0] else FirstSent(vs[1..])
  }

  /** How many records of `ops` send a 400. */
  function ViolationCount(ops: seq<OperationInput>): nat {
    SentCount(Verdicts(ops))
  }

  /** The message of the first record, in `forEach` order, that sends a 400. */
  function FirstViolation(ops: seq<OperationInput>): (r: Option<string>)
    ensures r.Some? <==> ViolationCount(ops) > 0
  {
    FirstSent(Verdicts(ops))
  }

  lemma {:induction false} FirstSentIsFirst(vs: seq<Option<string>>)
    ensures FirstSent(vs).Some? <==> exists k :: 0 <= k < |vs| && vs[k].Some?
    ensures FirstSent(vs).Some? ==>
      exists k :: 0 <= k < |vs| && vs[k] == FirstSent(vs) && forall j :: 0 <= j < k ==> vs[j].None?
  {
    if vs != [] {
      var tail := vs[1..];
      FirstSentIsFirst(tail);
      if vs[0].Some? {
        assert vs[0] == FirstSent(vs);
      } else if FirstSent(tail).Some? {
        var k :| 0 <= k < |tail| && tail[k] == FirstSent(tail) && forall j :: 0 <= j < k ==> tail[j].None?;
        assert tail[k] == vs[k + 1];
        forall j | 0 <= j < k + 1 ensures vs[j].None? {
          if j > 0 {
            assert vs[j] == tail[j - 1];
          }
        }
        assert vs[k + 1] == FirstSent(vs);
      } else {
        forall k | 0 <= k < |vs| ensures vs[k].None? {
          if k > 0 {
            assert vs[k] == tail[k - 1];
          }
        }
      }
    }
  }

  /** The message sent is that of a bad record with no bad record before it,
      and one is sent exactly when some record is bad. */
  lemma FirstViolationIsFirst(ops: seq<OperationInput>)
    ensures FirstViolation(ops).Some? <==> exists k :: 0 <= k < |ops| && EntryViolation(ops[k]).Some?
    ensures FirstViolation(ops).Some? ==>
      exists k :: 0 <= k < |ops| && EntryViolation(ops[k]) == FirstViolation(ops)
                  && forall j :: 0 <= j < k ==> EntryViolation(ops[j]).None?
  {
    var vs := Verdicts(ops);
    FirstSentIsFirst(vs);
    assert forall k :: 0 <= k < |ops| ==> vs[k] == EntryViolation(ops[k]);
  }

  lemma {:induction false} SentOfConcat(a: seq<Option<string>>, b: seq<Option<string>>)
    ensures SentCount(a + b) == SentCount(a) + SentCount(b)
    ensures FirstSent(a + b) == if FirstSent(a).Some? then FirstSent(a) else FirstSent(b)
  {
    if a == [] {
      assert a + b == b;
    } else {
      assert (a + b)[0] == a[0] && (a + b)[1..] == a[1..] + b;
      SentOfConcat(a[1..], b);
    }
  }

  /** Whether `Shop.create` runs: the `return` inside the `forEach` callback
      only leaves the callback, so creation is skipped only when the array
      has the wrong length, or when a second record tries to send its 400
      after the first one was sent and the send throws. */
  predicate CreationRuns(b: ShopInput) {
    b.operation.None? || (|b.operation.value| == DaysPerWeek && ViolationCount(b.operation.value) <= 1)
  }

  /** The response `createShop` sends: the first one wins; any later send
      throws and is lost. */
  function CreateShopReply(rs: seq<Stored<Shop>>, id: Id, b: ShopInput): Outcome<Shop> {
    if b.operation.Some? && |b.operation.value| != DaysPerWeek then Failure(400, Text(LengthMessage))
    else if b.operation.Some? && FirstViolation(b.operation.value).Some? then
      Failure(400, Text(FirstViolation(b.operation.value).value))
    else CreateOutcome(rs, id, b)
  }

  /** The stored shops after `createShop`. */
  function CreateShopStore(rs: seq<Stored<Shop>>, id: Id, b: ShopInput): seq<Stored<Shop>> {
    if CreationRuns(b) && CreateOutcome(rs, id, b).Success? then rs + [Stored(id, CreateOutcome(rs, id, b).data)]
    else rs
  }

  /** The `forEach` over the records: each bad record sends its 400, the
      first send goes out, and a second send throws out of the loop.
      `sent` is the message that went out and `thrown` says whether the loop
      was left by the exception. */
  method CheckOperations(ops: seq<OperationInput>) returns (sent: Option<string>, thrown: bool)
    ensures sent == FirstViolation(ops)
    ensures thrown <==> ViolationCount(ops) >= 2
  {
    ghost var vs := Verdicts(ops);
    sent := None;
    thrown := false;
    var i := 0;
    while i < |ops| && !thrown
      invariant 0 <= i <= |ops|
      invariant sent == FirstSent(vs[..i])
      invariant thrown <==> SentCount(vs[..i]) >= 2
      invariant SentCount(vs[..i]) <= 2
    {
      var v := EntryViolation(ops[i]);
      SentStep(vs, i);
      if v.Some? {
        if sent.Some? {
          thrown := true;
        } else {
          sent := v;
        }
      }
      i := i + 1;
    }
    SentRest(vs, i);
  }

  /** One more verdict: it adds to the count when it sends, and is the first
      message when none was sent before. */
  lemma SentStep(vs: seq<Option<string>>, i: nat)
    requires i < |vs|
    ensures SentCount(vs[..i + 1]) == SentCount(vs[..i]) + (if vs[i].Some? then 1 else 0)
    ensures FirstSent(vs[..i + 1]) == if FirstSent(vs[..i]).Some? then FirstSent(vs[..i]) else vs[i]
  {
    assert vs[..i + 1] == vs[..i] + [vs[i]];
    SentOfConcat(vs[..i], [vs[i]]);
    assert [vs[i]][1..] == [];
  }

  /** Verdicts after a second send change neither the first message nor the
      fact that two were sent. */
  lemma SentRest(vs: seq<Option<string>>, i: nat)
    requires i <= |vs|
    requires i < |vs| ==> SentCount(vs[..i]) >= 2
    ensures FirstSent(vs) == FirstSent(vs[..i])
    ensures SentCount(vs) >= 2 <==> SentCount(vs[..i]) >= 2
  {
    assert vs == vs[..i] + vs[i..];
    SentOfConcat(vs[..i], vs[i..]);
  }

  /** `createShop` (admin only). */
  method CreateShop(store: ShopStore, id: Id, b: ShopInput) returns (reply: Outcome<Shop>)
    requires store.Valid()
    modifies store.shops
    ensures store.Valid()
    ensures reply == CreateShopReply(old(store.shops.records), id, b)
    ensures store.shops.records == CreateShopStore(old(store.shops.records), id, b)
  {
    var sent: Option<string> := None;
    var thrown := false;
    if b.operation.Some? {
      if |b.operation.value| != DaysPerWeek {
        return Failure(400, Text(LengthMessage));
      }
      sent, thrown := CheckOperations(b.operation.value);
    }
    assert CreationRuns(b) <==> !thrown;
    assert sent == if b.operation.Some? then FirstViolation(b.operation.value) else None;
    if thrown {
      reply := Failure(400, Text(sent.value));
    } else {
      reply := store.Create(id, b);
      if sent.Some? {
        reply := Failure(400, Text(sent.value));
      }
    }
  }

  /** An array that does not have seven records is refused and nothing is
      stored. */
  lemma WrongLengthRefused(rs: seq<Stored<Shop>>, id: Id, b: ShopInput)
    requires b.operation.Some? && |b.operation.value| != DaysPerWeek
    ensures CreateShopReply(rs, id, b) == Failure(400, Text(LengthMessage))
    ensures CreateShopStore(rs, id, b) == rs
  {
  }

  /** On numbers, a record passes exactly when 0 <= start <= end <= 1440; in
      particular `start == end` passes. */
  lemma NumericEntryPassesIff(s: int, e: int, w: JsValue)
    ensures EntryViolation(OperationInput(Num(s), Num(e), w)).None? <==> 0 <= s <= e <= MinutesPerDay
  {
  }

  /** An inverted record is reported as inverted even when it is also out of
      range. */
  lemma OrderCheckedBeforeRange(s: int, e: int, w: JsValue)
    requires e < s
    ensures EntryViolation(OperationInput(Num(s), Num(e), w)) == Some(OrderMessage)
  {
  }

  /** A record in order but out of range gets the bounds message. */
  lemma OutOfRangeReported(s: int, e: int, w: JsValue)
    requires s <= e && (s < 0 || e > MinutesPerDay)
    ensures EntryViolation(OperationInput(Num(s), Num(e), w)) == Some(RangeMessage)
  {
  }

  /** A record without `start` and `end` passes: undefined compares false. */
  lemma MissingTimesPass(w: JsValue)
    ensures EntryViolation(OperationInput(Undefined, Undefined, w)).None?
  {
  }

  /** With exactly one bad record the client is told 400, yet the shop is
      stored when the body is otherwise valid. */
  lemma SingleViolationStillCreates(rs: seq<Stored<Shop>>, id: Id, b: ShopInput)
    requires b.operation.Some? && |b.operation.value| == DaysPerWeek && ViolationCount(b.operation.value) == 1
    requires CreateOutcome(rs, id, b).Success?
    ensures CreateShopReply(rs, id, b) == Failure(400, Text(FirstViolation(b.operation.value).value))
    ensures CreateShopStore(rs, id, b) == rs + [Stored(id, CreateOutcome(rs, id, b).data)]
  {
  }

  /** With two or more bad records the second send throws inside the loop,
      and the shop is not stored. */
  lemma SeveralViolationsCreateNothing(rs: seq<Stored<Shop>>, id: Id, b: ShopInput)
    requires b.operation.Some? && ViolationCount(b.operation.value) >= 2
    ensures CreateShopReply(rs, id, b).Failure?
    ensures CreateShopStore(rs, id, b) == rs
  {
  }

  /** The intended `createShop`: a bad record refuses the request before
      anything is stored. It answers as the handler does, and stores a shop
      exactly when that answer is success. */
  function CreateShopIntended(rs: seq<Stored<Shop>>, id: Id, b: ShopInput): (r: (Outcome<Shop>, seq<Stored<Shop>>))
    ensures r.0 == CreateShopReply(rs, id, b)
    ensures b.operation.Some? && FirstViolation(b.operation.value).Some? ==> r.0.Failure? && r.1 == rs
    ensures r.1 == rs <==> r.0.Failure?
    ensures r.0.Success? ==> |r.1| == |rs| + 1 && r.1[..|rs|] == rs && r.1[|rs|] == Stored(id, r.0.data)
  {
    var reply := CreateShopReply(rs, id, b);
    (reply, if reply.Success? then rs + [Stored(id, reply.data)] else rs)
  }

  /** Where the handler as written and as intended agree: with no bad record
      they answer and store the same. */
  lemma IntendedAgreesWithoutViolations(rs: seq<Stored<Shop>>, id: Id, b: ShopInput)
    requires b.operation.None? || FirstViolation(b.operation.value).None?
    ensures CreateShopIntended(rs, id, b) == (CreateShopReply(rs, id, b), CreateShopStore(rs, id, b))
  {
  }

  /** The documented input record `{"start":"600","end":"1200"}` is flagged:
      two strings compare character by character and "600" > "1200". */
  lemma DocumentedExampleFlagged(w: JsValue)
    ensures EntryViolation(OperationInput(Str("600"), Str("1200"), w)) == Some(OrderMessage)
  {
    TextsCompareByCharacter();
  }

  /** The intended check compares the numbers that the schema will store:
      each value goes through the Number cast first. */
  function EntryViolationIntended(op: OperationInput): (r: Option<string>)
    ensures op.start.Num? && op.end.Num? ==> r == EntryViolation(op)
  {
    var s := match CastNumber(op.start) case Some(Some(n)) => Num(n) case _ => Undefined;
    var e := match CastNumber(op.end) case Some(Some(n)) => Num(n) case _ => Undefined;
    EntryViolation(OperationInput(s, e, op.employee))
  }

  /** Numeric text is judged by its value under the intended check, so the
      documented record passes. */
  lemma IntendedReadsNumericText(s: int, e: int, w: JsValue)
    ensures EntryViolationIntended(OperationInput(Str(IntText(s)), Str(IntText(e)), w)).None?
            <==> 0 <= s <= e <= MinutesPerDay
  {
    CastReadsNumericText(s);
    CastReadsNumericText(e);
  }

  /** The answer of `deleteShop` (admin only). */
  function DeleteShopReply(rs: seq<Stored<Shop>>, id: Id): (r: Outcome<()>)
    ensures r.Success? <==> Find(rs, id).Some?
    ensures r.Failure? ==> r == Failure(400, Text("Bootcamp not found with id of " + id))
  {
    if Find(rs, id).None? then Failure(400, Text("Bootcamp not found with id of " + id)) else Success(200, ())
  }

  /** `deleteShop`: an unknown id changes nothing; a known one removes the
      shop and, through the pre-remove hook, its reservations. */
  method DeleteShop(store: ShopStore, reservations: Store<Reservation>, id: Id) returns (reply: Outcome<()>)
    requires store.Valid() && reservations.Valid()
    requires reservations != store.shops as object
    modifies store.shops, reservations
    ensures store.Valid() && reservations.Valid()
    ensures reply == DeleteShopReply(old(store.shops.records), id)
    ensures reply.Failure? ==> store.shops.records == old(store.shops.records) && reservations.records == old(reservations.records)
    ensures reply.Success? ==> store.shops.records == Without(old(store.shops.records), id)
                               && reservations.records == WithoutShop(old(reservations.records), id)
  {
    if Find(store.shops.records, id).None? {
      return Failure(400, Text("Bootcamp not found with id of " + id));
    }
    store.Remove(id, reservations);
    reply := Success(200, ());
  }

  /** After a successful delete, no reservation of the shop is left, the
      shop is gone, and every other shop's reservations are as before. */
  lemma DeleteShopEffect(shops: seq<Stored<Shop>>, rs: seq<Stored<Reservation>>, id: Id, user: Id, shop: Id)
    requires DistinctIds(shops) && Find(shops, id).Some?
    ensures Find(Without(shops, id), id).None?
    ensures |Without(shops, id)| == |shops| - 1
    ensures CountFor(WithoutShop(rs, id), user, shop) == if shop == id then 0 else CountFor(rs, user, shop)
  {
    WithoutRemovesOne(shops, id);
    CascadeCounts(rs, id, user, shop);
  }
}
