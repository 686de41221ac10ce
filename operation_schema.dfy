/** The operation sub-schema: one `{start, end, employee}` record, used for a
    shop's weekly opening hours and for a reservation's time. */
module OperationSchema {
  import opened Common
  import opened JsValues

  const MinutesPerDay := 1440
  const SlotMinutes := 30

  /** An operation record as the request body gives it, before casting. */
  datatype OperationInput = OperationInput(start: JsValue, end: JsValue, employee: JsValue)

  /** An operation record as stored: every field is a plain optional Number. */
  datatype Operation = Operation(start: Option<int>, end: Option<int>, employee: Option<int>)

  /** The documented contract for `start` and `end`: a multiple of 30
      within 0..1440. */
  predicate DocumentedMinute(m: int) {
    0 <= m <= MinutesPerDay && m % SlotMinutes == 0
  }

  predicate MeetsDocumentedContract(op: Operation) {
    && op.start.Some? && DocumentedMinute(op.start.value)
    && op.end.Some? && DocumentedMinute(op.end.value)
  }

  /** Mongoose's cast of a value to a Number path: `None` is a CastError,
      `Some(None)` is no value (undefined, null or the empty string). */
  function CastNumber(v: JsValue): Option<Option<int>> {
    match v
    case Undefined => Some(None)
    case Null => Some(None)
    case Num(n) => Some(Some(n))
    case Str(s) =>
      if s == "" then Some(None)
      else match StringToNumber(s)
        case Some(n) => Some(Some(n))
        case None => None
  }

  /** The cast of a whole operation record; `None` when any field fails. */
  function CastOperation(o: OperationInput): (r: Option<Operation>)
    ensures r.Some? <==> CastNumber(o.start).Some? && CastNumber(o.end).Some? && CastNumber(o.employee).Some?
  {
    match (CastNumber(o.start), CastNumber(o.end), CastNumber(o.employee))
    case (Some(s), Some(e), Some(w)) => Some(Operation(s, e, w))
    case _ => None
  }

  /** The schema enforces nothing of the documented contract: every triple of
      numbers is stored as given. */
  lemma CastKeepsAnyNumbers(a: int, b: int, c: int)
    ensures CastOperation(OperationInput(Num(a), Num(b), Num(c))) == Some(Operation(Some(a), Some(b), Some(c)))
  {
  }

  /** In particular a record far outside the contract is stored. */
  lemma ContractNotEnforced()
    ensures var op := CastOperation(OperationInput(Num(7), Num(2000), Undefined));
      op.Some? && !MeetsDocumentedContract(op.value)
  {
  }

  /** Numeric text is cast to the number it spells, so the documented input
      example `{"start":"600", ...}` stores 600. */
  lemma CastReadsNumericText(n: int)
    ensures CastNumber(Str(IntText(n))) == Some(Some(n))
  {
    NumberTextRoundTrip(n);
  }

  /** Text that does not start like a number is a CastError. */
  lemma CastRejectsNonNumericText(s: string)
    requires s != [] && !IsJsSpace(s[0]) && !IsJsSpace(s[|s| - 1])
    requires !IsDigit(s[0]) && s[0] != '-' && s[0] != '+'
    ensures CastNumber(Str(s)) == None
  {
    TrimUnpadded(s);
  }
}
