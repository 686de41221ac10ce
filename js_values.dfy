/** The few JavaScript value semantics the handlers and schemas rely on:
    white space and `trim`, string length in UTF-16 code units, converting
    text to a number, and the `<`/`>` comparison of mixed values. */
module JsValues {
  import opened Common

  /** A request-body value as Express's JSON parser hands it over. Numbers
      are integers here. */
  datatype JsValue = Undefined | Null | Num(n: int) | Str(s: string)

  /** ECMAScript LineTerminator. */
  predicate IsLineTerminator(c: char) {
    c == '\n' || c == '\r' || c == '\U{2028}' || c == '\U{2029}'
  }

  /** ECMAScript WhiteSpace or LineTerminator: what `trim` strips and what
      `\s` matches in a regular expression. */
  predicate IsJsSpace(c: char) {
    || IsLineTerminator(c)
    || c == '\t' || c == '\U{000B}' || c == '\U{000C}' || c == ' '
    || c == '\U{00A0}' || c == '\U{1680}' || ('\U{2000}' <= c <= '\U{200A}')
    || c == '\U{202F}' || c == '\U{205F}' || c == '\U{3000}' || c == '\U{FEFF}'
  }

  /** `trimStart`: drops the leading white space and nothing else. */
  function TrimStart(s: string): (r: string)
    ensures |r| <= |s| && r == s[|s| - |r|..]
    ensures forall k :: 0 <= k < |s| - |r| ==> IsJsSpace(s[k])
    ensures r == [] || !IsJsSpace(r[0])
  {
    if s != [] && IsJsSpace(s[0]) then TrimStart(s[1..]) else s
  }

  /** `trimEnd`: drops the trailing white space and nothing else. */
  function TrimEnd(s: string): (r: string)
    ensures |r| <= |s| && r == s[..|r|]
    ensures forall k :: |r| <= k < |s| ==> IsJsSpace(s[k])
    ensures r == [] || !IsJsSpace(r[|r| - 1])
    ensures r != [] ==> r[0] == s[0]
  {
    if s != [] && IsJsSpace(s[|s| - 1]) then TrimEnd(s[..|s| - 1]) else s
  }

  /** `String.prototype.trim`. */
  function Trim(s: string): string {
    TrimEnd(TrimStart(s))
  }

  /** `trim` leaves text that neither starts nor ends with white space. */
  lemma TrimUnpaddedResult(s: string)
    ensures Trim(s) == [] || (!IsJsSpace(Trim(s)[0]) && !IsJsSpace(Trim(s)[|Trim(s)| - 1]))
  {
  }

  /** `trim` leaves the infix of its input that starts after the leading
      white space. */
  lemma TrimIsInfix(s: string)
    ensures var r, i := Trim(s), |s| - |TrimStart(s)|;
      0 <= i <= |s| - |r| && r == s[i..i + |r|]
  {
    var t := TrimStart(s);
    var r := TrimEnd(t);
    assert Trim(s) == r;
    SliceOfSuffix(s, |s| - |t|, |r|);
  }

  /** A prefix of a suffix is an infix. */
  lemma SliceOfSuffix(s: string, i: nat, n: nat)
    requires i + n <= |s|
    ensures s[i..][..n] == s[i..i + n]
  {
  }

  /** ... and only white space lies around it. */
  lemma TrimDropsOnlySpace(s: string)
    ensures var r, i := Trim(s), |s| - |TrimStart(s)|;
      && (forall k :: 0 <= k < i ==> IsJsSpace(s[k]))
      && (forall k :: i + |r| <= k < |s| ==> IsJsSpace(s[k]))
  {
    var t := TrimStart(s);
    var r := TrimEnd(t);
    var i := |s| - |t|;
    assert Trim(s) == r;
    forall k | i + |r| <= k < |s| ensures IsJsSpace(s[k]) {
      assert s[k] == t[k - i];
    }
  }

  /** Text that neither starts nor ends with white space is its own trim. */
  lemma TrimUnpadded(s: string)
    requires s != [] && !IsJsSpace(s[0]) && !IsJsSpace(s[|s| - 1])
    ensures Trim(s) == s
  {
  }

  /** Trimming twice is trimming once. */
  lemma TrimIdempotent(s: string)
    ensures Trim(Trim(s)) == Trim(s)
  {
    var r := Trim(s);
    TrimUnpaddedResult(s);
    if r != [] {
      TrimUnpadded(r);
    }
  }

  /** `s.length`: UTF-16 code units, two for a character outside the BMP. */
  function Utf16Length(s: string): (n: nat)
    ensures |s| <= n <= 2 * |s|
    ensures (forall k :: 0 <= k < |s| ==> s[k] as int <= 0xFFFF) ==> n == |s|
  {
    if s == [] then 0
    else (if s[0] as int > 0xFFFF then 2 else 1) + Utf16Length(s[1..])
  }

  predicate IsDigit(c: char) {
    '0' <= c <= '9'
  }

  predicate AllDigits(s: string) {
    forall k :: 0 <= k < |s| ==> IsDigit(s[k])
  }

  /** The value of a string of decimal digits. */
  function DecimalValue(s: string): nat
    requires AllDigits(s)
  {
    if s == [] then 0
    else DecimalValue(s[..|s| - 1]) * 10 + (s[|s| - 1] as int - '0' as int)
  }

  /** `Number(s)` for the decimal-integer texts: surrounding white space is
      ignored, blank text is 0, an optional sign may precede the digits, and
      anything else is NaN (`None`). */
  function StringToNumber(s: string): Option<int> {
    var t := Trim(s);
    if t == [] then Some(0)
    else if (t[0] == '-' || t[0] == '+') && |t| > 1 && AllDigits(t[1..]) then
      Some(if t[0] == '-' then -(DecimalValue(t[1..]) as int) else DecimalValue(t[1..]))
    else if AllDigits(t) then Some(DecimalValue(t))
    else None
  }

  /** ECMAScript ToNumber; `None` is NaN. */
  function ToNumber(v: JsValue): Option<int> {
    match v
    case Undefined => None
    case Null => Some(0)
    case Num(n) => Some(n)
    case Str(s) => StringToNumber(s)
  }

  /** Lexicographic comparison of two strings, character by character. `<`
      on two strings compares UTF-16 code units; the two orders agree within
      the Basic Multilingual Plane. */
  predicate StringLess(a: string, b: string) {
    if a == [] then b != []
    else if b == [] then false
    else if a[0] != b[0] then a[0] < b[0]
    else StringLess(a[1..], b[1..])
  }

  /** `x < y` (and `y > x`): character by character when both are strings, otherwise
      on numbers, and false whenever one side is NaN. */
  predicate LessThan(x: JsValue, y: JsValue) {
    if x.Str? && y.Str? then StringLess(x.s, y.s)
    else
      match (ToNumber(x), ToNumber(y))
      case (Some(a), Some(b)) => a < b
      case _ => false
  }

  /** The decimal digits of a natural number, most significant first. */
  function DecimalText(n: nat): (s: string)
    ensures s != [] && AllDigits(s)
  {
    if n < 10 then [('0' as int + n) as char]
    else DecimalText(n / 10) + [('0' as int + n % 10) as char]
  }

  /** `String(n)` for an integer. */
  function IntText(n: int): string {
    if n < 0 then "-" + DecimalText(-n) else DecimalText(n)
  }

  lemma {:induction false} DecimalValueOfText(n: nat)
    ensures DecimalValue(DecimalText(n)) == n
  {
    if n >= 10 {
      DecimalValueOfText(n / 10);
      var s := DecimalText(n);
      assert s[..|s| - 1] == DecimalText(n / 10);
    }
  }

  /** Reading back the text of an integer gives the integer. */
  lemma NumberTextRoundTrip(n: int)
    ensures StringToNumber(IntText(n)) == Some(n)
  {
    if n < 0 {
      NegativeTextRoundTrip(-n);
    } else {
      DigitsTextRoundTrip(n);
    }
  }

  lemma DigitsTextRoundTrip(n: nat)
    ensures StringToNumber(DecimalText(n)) == Some(n)
  {
    var d := DecimalText(n);
    assert IsDigit(d[0]) && IsDigit(d[|d| - 1]);
    TrimUnpadded(d);
    DecimalValueOfText(n);
  }

  lemma NegativeTextRoundTrip(m: nat)
    requires m > 0
    ensures StringToNumber("-" + DecimalText(m)) == Some(-(m as int))
  {
    var d := DecimalText(m);
    var s := "-" + d;
    assert IsDigit(d[|d| - 1]) && s[|s| - 1] == d[|d| - 1];
    TrimUnpadded(s);
    assert s[1..] == d;
    DecimalValueOfText(m);
  }

  /** On two numbers `<` is the integer order. */
  lemma NumbersCompareNumerically(a: int, b: int)
    ensures LessThan(Num(a), Num(b)) <==> a < b
  {
  }

  /** Two digit strings compare by their first differing digit, not by value:
      "1200" < "600". */
  lemma TextsCompareByCharacter()
    ensures LessThan(Str("1200"), Str("600"))
    ensures !LessThan(Str("600"), Str("1200"))
  {
  }

  /** A missing value makes every comparison false. */
  lemma UndefinedComparesFalse(v: JsValue)
    ensures !LessThan(Undefined, v) && !LessThan(v, Undefined)
  {
  }
}
