/** The Shop schema: its field validators, its unique trimmed name, the
    operation records of its week, and the pre-remove hook that cascades to
    the shop's reservations. */
module ShopModel {
  import opened Common
  import opened JsValues
  import opened OperationSchema
  import opened PhonePattern
  import opened Collection
  import opened ReservationModel

  const NameMaxLength := 50
  const AddressMaxLength := 150
  const MaxAverageRating: real := 5.0

  const NameRequiredMessage := "Please add a name"
  const NameLengthMessage := "Name can not be more than 50 characters"
  const AddressRequiredMessage := "Please add an address"
  /** The schema's text for the address limit; it names 50 although the
      limit is 150. */
  const AddressLengthMessage := "Address can not be more than 50 characters"
  const TelRequiredMessage := "Please add a phone number"
  const TelMatchMessage := "Please add a valid phone number"
  const RatingMaxMessage := "Rating can not be more than 5"

  /** A request body as `Shop.create` receives it; `averageRating` is already
      a Number. */
  datatype ShopInput = ShopInput(
    name: Option<string>, address: Option<string>, tel: Option<string>,
    operation: Option<seq<OperationInput>>, averageRating: Option<real>)

  datatype Shop = Shop(name: string, address: string, tel: string,
                       operation: seq<Operation>, averageRating: real)

  /** What the schema guarantees of every stored shop. */
  predicate ValidShop(s: Shop) {
    && s.name != [] && Trim(s.name) == s.name && Utf16Length(s.name) <= NameMaxLength
    && s.address != [] && Utf16Length(s.address) <= AddressMaxLength
    && s.tel != [] && TelMatches(s.tel)
    && 0.0 <= s.averageRating <= MaxAverageRating
  }

  /** `name`: trimmed first, then required, then `maxlength: 50`. */
  function NameErrors(v: Option<string>): (r: seq<FieldError>)
    ensures r == [] <==> v.Some? && Trim(v.value) != [] && Utf16Length(Trim(v.value)) <= NameMaxLength
    ensures |r| <= 1
  {
    if v.None? || Trim(v.value) == [] then [FieldError("name", Required, Some(NameRequiredMessage))]
    else if Utf16Length(Trim(v.value)) > NameMaxLength then [FieldError("name", MaxLength, Some(NameLengthMessage))]
    else []
  }

  /** `address`: required, then `maxlength: 150` (no trimming). */
  function AddressErrors(v: Option<string>): (r: seq<FieldError>)
    ensures r == [] <==> v.Some? && v.value != [] && Utf16Length(v.value) <= AddressMaxLength
    ensures |r| <= 1
  {
    if v.None? || v.value == [] then [FieldError("address", Required, Some(AddressRequiredMessage))]
    else if Utf16Length(v.value) > AddressMaxLength then [FieldError("address", MaxLength, Some(AddressLengthMessage))]
    else []
  }

  /** `tel`: required, then the pattern (with the `m` flag). */
  function TelErrors(v: Option<string>): (r: seq<FieldError>)
    ensures r == [] <==> v.Some? && v.value != [] && TelMatches(v.value)
    ensures |r| <= 1
  {
    if v.None? || v.value == [] then [FieldError("tel", Required, Some(TelRequiredMessage))]
    else if !TelMatches(v.value) then [FieldError("tel", Mismatch, Some(TelMatchMessage))]
    else []
  }

  /** `averageRating`: `min: 0` with Mongoose's own text, `max: 5` with the
      schema's; an absent value takes the default 0 and passes. */
  function AverageRatingErrors(v: Option<real>): (r: seq<FieldError>)
    ensures r == [] <==> v.None? || 0.0 <= v.value <= MaxAverageRating
    ensures |r| <= 1
  {
    if v.None? then []
    else if v.value < 0.0 then [FieldError("averageRating", BelowMin, None)]
    else if v.value > MaxAverageRating then [FieldError("averageRating", AboveMax, Some(RatingMaxMessage))]
    else []
  }

  /** The cast of the operation records, `None` when one of them fails. */
  function CastOperations(ops: seq<OperationInput>): (r: Option<seq<Operation>>)
    ensures r.Some? <==> forall k :: 0 <= k < |ops| ==> CastOperation(ops[k]).Some?
    ensures r.Some? ==> |r.value| == |ops| && forall k :: 0 <= k < |ops| ==> Some(r.value[k]) == CastOperation(ops[k])
  {
    if ops == [] then Some([])
    else match (CastOperation(ops[0]), CastOperations(ops[1..]))
      case (Some(o), Some(rest)) => Some([o] + rest)
      case _ => None
  }

  function OperationErrors(v: Option<seq<OperationInput>>): (r: seq<FieldError>)
    ensures r == [] <==> v.None? || CastOperations(v.value).Some?
  {
    if v.Some? && CastOperations(v.value).None? then [FieldError("operation", CastFailed, None)] else []
  }

  /** The errors of a body, in schema order. */
  function ShopErrors(b: ShopInput): seq<FieldError> {
    NameErrors(b.name) + AddressErrors(b.address) + TelErrors(b.tel)
      + OperationErrors(b.operation) + AverageRatingErrors(b.averageRating)
  }

  /** `Shop.create` minus the insert: the trimmed, defaulted document, or the
      errors. */
  function CreateShopDoc(b: ShopInput): (r: Checked<Shop>)
    ensures r.Rejected? <==> ShopErrors(b) != []
    ensures r.Rejected? ==> r.errors == ShopErrors(b)
    ensures r.Accepted? ==> ValidShop(r.doc)
    ensures r.Accepted? ==>
      && r.doc.name == Trim(b.name.value) && Some(r.doc.address) == b.address && Some(r.doc.tel) == b.tel
      && r.doc.averageRating == (if b.averageRating.Some? then b.averageRating.value else 0.0)
      && (b.operation.None? ==> r.doc.operation == [])
      && (b.operation.Some? ==> Some(r.doc.operation) == CastOperations(b.operation.value))
  {
    var errs := ShopErrors(b);
    if errs != [] then Rejected(errs)
    else
      TrimIdempotent(b.name.value);
      Accepted(Shop(Trim(b.name.value), b.address.value, b.tel.value,
                    if b.operation.Some? then CastOperations(b.operation.value).value else [],
                    b.averageRating.GetOr(0.0)))
  }

  /** A body is accepted exactly when every path passes its own validators. */
  lemma ShopAcceptedIff(b: ShopInput)
    ensures CreateShopDoc(b).Accepted? <==>
      && NameErrors(b.name) == [] && AddressErrors(b.address) == [] && TelErrors(b.tel) == []
      && OperationErrors(b.operation) == [] && AverageRatingErrors(b.averageRating) == []
  {
  }

  /** The address limit is 150 characters, whatever its message says: a
      51-character address is accepted. */
  lemma AddressLimitIs150(a: string)
    requires a != [] && Utf16Length(a) <= AddressMaxLength
    ensures AddressErrors(Some(a)) == []
  {
  }

  /** An address over 150 characters is refused with the text that names 50. */
  lemma LongAddressMessage(a: string)
    requires Utf16Length(a) > AddressMaxLength
    ensures AddressErrors(Some(a)) == [FieldError("address", MaxLength, Some(AddressLengthMessage))]
  {
  }

  /** Leading white space is not counted against the name limit: it is
      trimmed away before the check and before the value is stored. */
  lemma NameTrimmedBeforeLimit(b: ShopInput, pad: string)
    requires forall k :: 0 <= k < |pad| ==> IsJsSpace(pad[k])
    requires b.name.Some? && b.name.value != [] && !IsJsSpace(b.name.value[0])
    ensures NameErrors(Some(pad + b.name.value)) == NameErrors(b.name)
  {
    TrimStartPadding(pad, b.name.value);
  }

  lemma {:induction false} TrimStartPadding(pad: string, s: string)
    requires forall k :: 0 <= k < |pad| ==> IsJsSpace(pad[k])
    requires s != [] && !IsJsSpace(s[0])
    ensures TrimStart(pad + s) == TrimStart(s) == s
  {
    if pad != [] {
      assert (pad + s)[0] == pad[0] && (pad + s)[1..] == pad[1..] + s;
      TrimStartPadding(pad[1..], s);
    } else {
      assert pad + s == s;
    }
  }

  /** The unique index on `name`. */
  ghost predicate DistinctNames(rs: seq<Stored<Shop>>) {
    forall i, j :: 0 <= i < j < |rs| ==> rs[i].doc.name != rs[j].doc.name
  }

  /** Whether some stored shop already has `name`. */
  function NameTaken(rs: seq<Stored<Shop>>, name: string): (b: bool)
    ensures b <==> exists k :: 0 <= k < |rs| && rs[k].doc.name == name
  {
    if rs == [] then false
    else if rs[0].doc.name == name then true
    else
      assert forall k :: 0 < k < |rs| ==> rs[k] == rs[1..][k - 1];
      NameTaken(rs[1..], name)
  }

  /** What `Shop.create` answers over the stored shops `rs` for a new `_id`:
      the validation errors, the duplicate key, or the new document. */
  function CreateOutcome(rs: seq<Stored<Shop>>, id: Id, b: ShopInput): (r: Outcome<Shop>)
    ensures r.Success? <==> CreateShopDoc(b).Accepted? && Find(rs, id).None? && !NameTaken(rs, Trim(b.name.value))
    ensures r.Success? ==> r.status == 200 && r.data == CreateShopDoc(b).doc
    ensures r.Success? ==> Find(rs, id).None? && !NameTaken(rs, r.data.name)
    ensures r.Failure? ==> r.status == 400
  {
    match CreateShopDoc(b)
    case Rejected(errs) => Failure(400, Invalid(errs))
    case Accepted(doc) =>
      if Find(rs, id).Some? then Failure(400, DuplicateKey("_id"))
      else if NameTaken(rs, doc.name) then Failure(400, DuplicateKey("name"))
      else Success(200, doc)
  }

  /** A successful create keeps the names unique and every shop valid. */
  lemma CreateKeepsNamesDistinct(rs: seq<Stored<Shop>>, id: Id, b: ShopInput)
    requires DistinctNames(rs)
    requires CreateOutcome(rs, id, b).Success?
    ensures DistinctNames(rs + [Stored(id, CreateOutcome(rs, id, b).data)])
    ensures ValidShop(CreateOutcome(rs, id, b).data)
  {
    AppendKeepsNamesDistinct(rs, id, CreateOutcome(rs, id, b).data);
  }

  /** A shop whose name is not taken can be appended without a clash. */
  lemma AppendKeepsNamesDistinct(rs: seq<Stored<Shop>>, id: Id, doc: Shop)
    requires DistinctNames(rs) && !NameTaken(rs, doc.name)
    ensures DistinctNames(rs + [Stored(id, doc)])
  {
    var rs2 := rs + [Stored(id, doc)];
    forall i, j | 0 <= i < j < |rs2| ensures rs2[i].doc.name != rs2[j].doc.name {
      if j == |rs| {
        assert rs2[i] == rs[i];
      }
    }
  }

  /** The shops collection: ids are unique and so are names. */
  class ShopStore {
    var shops: Store<Shop>

    ghost predicate Valid()
      reads this, shops
    {
      shops.Valid() && DistinctNames(shops.records)
    }

    constructor ()
      ensures Valid() && fresh(shops) && shops.records == []
    {
      shops := new Store<Shop>();
    }

    /** `Shop.create(body)` under the fresh `_id` `id`. */
    method Create(id: Id, b: ShopInput) returns (r: Outcome<Shop>)
      requires Valid()
      modifies shops
      ensures Valid()
      ensures r == CreateOutcome(old(shops.records), id, b)
      ensures shops.records == if r.Success? then old(shops.records) + [Stored(id, r.data)] else old(shops.records)
    {
      r := CreateOutcome(shops.records, id, b);
      if r.Success? {
        InsertNew(id, r.data);
      }
    }

    /** The insert of a shop whose `_id` and name are both free. */
    method InsertNew(id: Id, doc: Shop)
      requires Valid()
      requires Find(shops.records, id).None? && !NameTaken(shops.records, doc.name)
      modifies shops
      ensures Valid()
      ensures shops.records == old(shops.records) + [Stored(id, doc)]
    {
      AppendKeepsNamesDistinct(shops.records, id, doc);
      var ok := shops.Insert(id, doc);
    }

    /** `shop.remove()`: the pre-remove hook deletes the shop's reservations,
        then the shop itself goes. */
    method Remove(id: Id, reservations: Store<Reservation>)
      requires Valid() && reservations.Valid()
      requires reservations != shops as object
      modifies shops, reservations
      ensures Valid() && reservations.Valid()
      ensures reservations.records == WithoutShop(old(reservations.records), id)
      ensures shops.records == Without(old(shops.records), id)
    {
      WithoutShopKeepsDistinct(reservations.records, id);
      reservations.records := WithoutShop(reservations.records, id);
      WithoutKeepsNames(shops.records, id);
      shops.Delete(id);
    }
  }

  /** Removal keeps the names unique. */
  lemma {:induction false} WithoutKeepsNames(rs: seq<Stored<Shop>>, id: Id)
    requires DistinctNames(rs)
    ensures DistinctNames(Without(rs, id))
  {
    if rs != [] {
      WithoutKeepsNames(rs[1..], id);
      var tail := Without(rs[1..], id);
      if rs[0].id != id {
        forall k | 0 <= k < |tail| ensures tail[k].doc.name != rs[0].doc.name {
          assert tail[k] in rs[1..];
        }
        var w := [rs[0]] + tail;
        forall i, j | 0 <= i < j < |w| ensures w[i].doc.name != w[j].doc.name {
          if i > 0 {
            assert w[i] == tail[i - 1] && w[j] == tail[j - 1];
          }
        }
      }
    }
  }
}
