/** The phone-number pattern of the shop schema,
    `^[\+]?[(]?[0-9]{3}[)]?[-\s\.]?[0-9]{3}[-\s\.]?[0-9]{4,6}$` with the
    flags `i` and `m`, as a concatenation of quantified character classes. */
module PhonePattern {
  import opened JsValues

  datatype CharClass = Digit | Literal(c: char) | Separator

  /** A character class repeated between `min` and `max` times. */
  datatype Atom = Atom(cls: CharClass, min: nat, max: nat)

  /** The `i` flag changes nothing here: no class holds a letter. */
  predicate InClass(cls: CharClass, c: char) {
    match cls
    case Digit => IsDigit(c)
    case Literal(x) => c == x
    case Separator => c == '-' || IsJsSpace(c) || c == '.'
  }

  predicate AllIn(cls: CharClass, t: string) {
    forall k :: 0 <= k < |t| ==> InClass(cls, t[k])
  }

  /** Whether the whole of `t` matches the pattern `p`: the first atom takes
      some allowed number of characters of its class and the rest of the
      pattern matches what is left. */
  predicate Matches(p: seq<Atom>, t: string)
    decreases |p|, |t| + 2
  {
    if p == [] then t == [] else MatchesFrom(p, t, p[0].min)
  }

  /** The backtracking search of the first atom: it takes `k` characters, or
      failing that more, up to its maximum. */
  predicate MatchesFrom(p: seq<Atom>, t: string, k: nat)
    requires p != []
    decreases |p|, |t| + 1 - k
  {
    && k <= p[0].max && k <= |t|
    && ((AllIn(p[0].cls, t[..k]) && Matches(p[1..], t[k..])) || MatchesFrom(p, t, k + 1))
  }

  /** The first atom taking `k` characters. */
  predicate SplitAt(p: seq<Atom>, t: string, k: nat)
    requires p != []
  {
    p[0].min <= k <= p[0].max && k <= |t| && AllIn(p[0].cls, t[..k]) && Matches(p[1..], t[k..])
  }

  lemma {:induction false} SearchFinds(p: seq<Atom>, t: string, k: nat) returns (j: nat)
    requires p != [] && p[0].min <= k && MatchesFrom(p, t, k)
    ensures k <= j && SplitAt(p, t, j)
    decreases |t| + 1 - k
  {
    if AllIn(p[0].cls, t[..k]) && Matches(p[1..], t[k..]) {
      j := k;
    } else {
      j := SearchFinds(p, t, k + 1);
    }
  }

  lemma {:induction false} SearchReaches(p: seq<Atom>, t: string, k: nat, j: nat)
    requires p != [] && k <= j && SplitAt(p, t, j)
    ensures MatchesFrom(p, t, k)
    decreases j - k
  {
    if k < j {
      SearchReaches(p, t, k + 1, j);
    }
  }

  /** A match of a non-empty pattern is a split after an allowed number of
      characters of the first atom's class. */
  lemma MatchSplit(p: seq<Atom>, t: string) returns (k: nat)
    requires p != [] && Matches(p, t)
    ensures SplitAt(p, t, k)
  {
    k := SearchFinds(p, t, p[0].min);
  }

  /** ... and every such split is a match. */
  lemma MatchJoin(p: seq<Atom>, t: string, k: nat)
    requires p != [] && SplitAt(p, t, k)
    ensures Matches(p, t)
  {
    SearchReaches(p, t, p[0].min, k);
  }

  /** `[\+]? [(]? [0-9]{3} [)]? [-\s\.]? [0-9]{3} [-\s\.]? [0-9]{4,6}` */
  const TelPattern: seq<Atom> := [
    Atom(Literal('+'), 0, 1), Atom(Literal('('), 0, 1), Atom(Digit, 3, 3), Atom(Literal(')'), 0, 1),
    Atom(Separator, 0, 1), Atom(Digit, 3, 3), Atom(Separator, 0, 1), Atom(Digit, 4, 6)
  ]

  /** Where `^` matches under the `m` flag. */
  predicate LineStartAt(s: string, i: int) {
    i == 0 || (0 < i <= |s| && IsLineTerminator(s[i - 1]))
  }

  /** Where `$` matches under the `m` flag. */
  predicate LineEndAt(s: string, j: int) {
    j == |s| || (0 <= j < |s| && IsLineTerminator(s[j]))
  }

  /** `regex.test(tel)`: some infix between a line start and a line end
      matches the pattern. */
  predicate TelMatches(s: string) {
    exists i, j :: 0 <= i <= j <= |s| && LineStartAt(s, i) && LineEndAt(s, j) && Matches(TelPattern, s[i..j])
  }

  /** The same pattern tested without the `m` flag: the whole value must match. */
  predicate TelMatchesWhole(s: string) {
    Matches(TelPattern, s)
  }

  function DigitCount(t: string): nat {
    if t == [] then 0 else (if IsDigit(t[0]) then 1 else 0) + DigitCount(t[1..])
  }

  function MinDigits(p: seq<Atom>): nat {
    if p == [] then 0 else (if p[0].cls.Digit? then p[0].min else 0) + MinDigits(p[1..])
  }

  function MaxDigits(p: seq<Atom>): nat {
    if p == [] then 0 else (if p[0].cls.Digit? then p[0].max else 0) + MaxDigits(p[1..])
  }

  /** No literal of the pattern is a digit. */
  predicate DigitFreeLiterals(p: seq<Atom>) {
    forall k :: 0 <= k < |p| && p[k].cls.Literal? ==> !IsDigit(p[k].cls.c)
  }

  /** The characters a value matching the tel pattern may contain. */
  predicate PhoneChar(c: char) {
    IsDigit(c) || c == '+' || c == '(' || c == ')' || c == '-' || c == '.' || IsJsSpace(c)
  }

  predicate PhoneClass(cls: CharClass) {
    cls.Literal? ==> PhoneChar(cls.c)
  }

  lemma {:induction false} DigitCountConcat(a: string, b: string)
    ensures DigitCount(a + b) == DigitCount(a) + DigitCount(b)
  {
    if a != [] {
      assert (a + b)[0] == a[0] && (a + b)[1..] == a[1..] + b;
      DigitCountConcat(a[1..], b);
    } else {
      assert a + b == b;
    }
  }

  lemma {:induction false} ClassDigitCount(cls: CharClass, u: string)
    requires AllIn(cls, u)
    requires cls.Literal? ==> !IsDigit(cls.c)
    ensures DigitCount(u) == if cls.Digit? then |u| else 0
  {
    if u != [] {
      ClassDigitCount(cls, u[1..]);
    }
  }

  /** A value matching a pattern has between the pattern's least and greatest
      number of digits. */
  lemma {:induction false} MatchDigitCount(p: seq<Atom>, t: string)
    requires Matches(p, t)
    requires DigitFreeLiterals(p)
    ensures MinDigits(p) <= DigitCount(t) <= MaxDigits(p)
  {
    if p != [] {
      var k := MatchSplit(p, t);
      assert DigitFreeLiterals(p[1..]) by {
        forall m | 0 <= m < |p[1..]| && p[1..][m].cls.Literal? ensures !IsDigit(p[1..][m].cls.c) {
          assert p[1..][m] == p[m + 1];
        }
      }
      MatchDigitCount(p[1..], t[k..]);
      assert p[0].cls.Literal? ==> !IsDigit(p[0].cls.c);
      ClassDigitCount(p[0].cls, t[..k]);
      assert t == t[..k] + t[k..];
      DigitCountConcat(t[..k], t[k..]);
    }
  }

  /** A value matching a pattern holds only characters of its classes. */
  lemma {:induction false} MatchPhoneChars(p: seq<Atom>, t: string)
    requires Matches(p, t)
    requires forall m :: 0 <= m < |p| ==> PhoneClass(p[m].cls)
    ensures forall k :: 0 <= k < |t| ==> PhoneChar(t[k])
  {
    if p != [] {
      var k := MatchSplit(p, t);
      assert forall m :: 0 <= m < |p[1..]| ==> p[1..][m] == p[m + 1];
      MatchPhoneChars(p[1..], t[k..]);
      forall q | 0 <= q < |t| ensures PhoneChar(t[q]) {
        if q < k {
          assert InClass(p[0].cls, t[..k][q]);
        } else {
          assert t[q] == t[k..][q - k];
        }
      }
    }
  }

  /** One atom followed by the rest of a pattern. */
  lemma ConsMatch(a: Atom, rest: seq<Atom>, u: string, v: string)
    requires a.min <= |u| <= a.max && AllIn(a.cls, u) && Matches(rest, v)
    ensures Matches([a] + rest, u + v)
  {
    var t := u + v;
    assert t[..|u|] == u && t[|u|..] == v;
    assert ([a] + rest)[1..] == rest;
    MatchJoin([a] + rest, t, |u|);
  }

  /** Any eight pieces of the right classes and lengths, put together, match
      the tel pattern. */
  lemma PiecesMatch(plus: string, open: string, area: string, close: string,
                    sep1: string, exchange: string, sep2: string, line: string)
    requires |plus| <= 1 && AllIn(Literal('+'), plus)
    requires |open| <= 1 && AllIn(Literal('('), open)
    requires |area| == 3 && AllIn(Digit, area)
    requires |close| <= 1 && AllIn(Literal(')'), close)
    requires |sep1| <= 1 && AllIn(Separator, sep1)
    requires |exchange| == 3 && AllIn(Digit, exchange)
    requires |sep2| <= 1 && AllIn(Separator, sep2)
    requires 4 <= |line| <= 6 && AllIn(Digit, line)
    ensures TelMatchesWhole(plus + open + area + close + sep1 + exchange + sep2 + line)
  {
    var p := TelPattern;
    var r7 := [p[7]];
    assert Matches(r7, line) by {
      assert Matches([], []);
      ConsMatch(p[7], [], line, []);
      assert line + [] == line && [p[7]] + [] == r7;
    }
    var r6, t6 := [p[6]] + r7, sep2 + line;
    assert Matches(r6, t6) by { ConsMatch(p[6], r7, sep2, line); }
    var r5, t5 := [p[5]] + r6, exchange + t6;
    assert Matches(r5, t5) by { ConsMatch(p[5], r6, exchange, t6); }
    var r4, t4 := [p[4]] + r5, sep1 + t5;
    assert Matches(r4, t4) by { ConsMatch(p[4], r5, sep1, t5); }
    var r3, t3 := [p[3]] + r4, close + t4;
    assert Matches(r3, t3) by { ConsMatch(p[3], r4, close, t4); }
    var r2, t2 := [p[2]] + r3, area + t3;
    assert Matches(r2, t2) by { ConsMatch(p[2], r3, area, t3); }
    var r1, t1 := [p[1]] + r2, open + t2;
    assert Matches(r1, t1) by { ConsMatch(p[1], r2, open, t2); }
    var r0, t0 := [p[0]] + r1, plus + t1;
    assert Matches(r0, t0) by { ConsMatch(p[0], r1, plus, t1); }
    assert r0 == p;
    assert t0 == plus + open + area + close + sep1 + exchange + sep2 + line;
  }

  /** What the digit-count and character lemmas need to know of the pattern. */
  lemma TelPatternShape()
    ensures DigitFreeLiterals(TelPattern)
    ensures forall m :: 0 <= m < |TelPattern| ==> PhoneClass(TelPattern[m].cls)
    ensures MinDigits(TelPattern) == 10 && MaxDigits(TelPattern) == 12
  {
  }

  /** Every value the tel validator accepts holds between 10 and 12 digits
      in a span from a line start to a line end. Since `\s` matches line
      breaks, that span may run across several lines. */
  lemma TelDigitCount(s: string)
    requires TelMatches(s)
    ensures exists i, j :: 0 <= i <= j <= |s| && LineStartAt(s, i) && LineEndAt(s, j)
                           && 10 <= DigitCount(s[i..j]) <= 12
  {
    var i, j :| 0 <= i <= j <= |s| && LineStartAt(s, i) && LineEndAt(s, j) && Matches(TelPattern, s[i..j]);
    TelPatternShape();
    MatchDigitCount(TelPattern, s[i..j]);
  }

  /** Ten bare digits are a phone number. */
  lemma TenDigitsMatch(t: string)
    requires |t| == 10 && AllDigits(t)
    ensures TelMatchesWhole(t)
  {
    PiecesMatch([], [], t[..3], [], [], t[3..6], [], t[6..]);
    assert [] + [] + t[..3] + [] + [] + t[3..6] + [] + t[6..] == t;
  }

  /** `ddd-ddd-dddd` is a phone number. */
  lemma DashedMatch(a: string, b: string, c: string)
    requires |a| == 3 && |b| == 3 && |c| == 4 && AllDigits(a) && AllDigits(b) && AllDigits(c)
    ensures TelMatchesWhole(a + "-" + b + "-" + c)
  {
    PiecesMatch([], [], a, [], "-", b, "-", c);
    assert [] + [] + a + [] + "-" + b + "-" + c == a + "-" + b + "-" + c;
  }

  /** Under the `m` flag any text may come before a line holding a phone
      number, and the value is still accepted. */
  lemma AnyTextBeforeANumberLine(junk: string, t: string)
    requires |t| == 10 && AllDigits(t)
    ensures TelMatches(junk + "\n" + t)
  {
    var s := junk + "\n" + t;
    var i := |junk| + 1;
    TenDigitsMatch(t);
    assert s[i - 1] == '\n';
    assert s[i..|s|] == t;
    assert LineStartAt(s, i) && LineEndAt(s, |s|);
  }

  /** Without the `m` flag the pattern accepts only phone characters, so
      such a value is refused. */
  lemma WholeMatchHasPhoneCharsOnly(s: string)
    requires TelMatchesWhole(s)
    ensures forall k :: 0 <= k < |s| ==> PhoneChar(s[k])
    ensures 10 <= DigitCount(s) <= 12
  {
    TelPatternShape();
    MatchPhoneChars(TelPattern, s);
    MatchDigitCount(TelPattern, s);
  }

  /** The difference the `m` flag makes: a value with a character no phone
      number holds, followed by a line of ten digits, is accepted with the
      flag and would be refused without it. */
  lemma MultilineFlagAcceptsJunk(junk: string, t: string, k: nat)
    requires |t| == 10 && AllDigits(t)
    requires k < |junk| && !PhoneChar(junk[k])
    ensures TelMatches(junk + "\n" + t)
    ensures !TelMatchesWhole(junk + "\n" + t)
  {
    var s := junk + "\n" + t;
    AnyTextBeforeANumberLine(junk, t);
    assert s[k] == junk[k];
    ForeignCharRefused(s, k);
  }

  /** Without the flag, one character no phone number holds refuses the value. */
  lemma ForeignCharRefused(s: string, k: nat)
    requires k < |s| && !PhoneChar(s[k])
    ensures !TelMatchesWhole(s)
  {
    if TelMatchesWhole(s) {
      WholeMatchHasPhoneCharsOnly(s);
    }
  }

  /** For a value on one line the flag makes no difference. */
  lemma SingleLineSame(s: string)
    requires forall k :: 0 <= k < |s| ==> !IsLineTerminator(s[k])
    ensures TelMatches(s) <==> TelMatchesWhole(s)
  {
    if TelMatches(s) {
      var i, j :| 0 <= i <= j <= |s| && LineStartAt(s, i) && LineEndAt(s, j) && Matches(TelPattern, s[i..j]);
      assert i == 0 && j == |s|;
      assert s[i..j] == s;
    }
    if TelMatchesWhole(s) {
      assert s[0..|s|] == s;
      assert LineStartAt(s, 0) && LineEndAt(s, |s|);
    }
  }

  /** `\s` also matches a line break, so a match may span lines: the value
      below is accepted although none of its three lines would be on its own. */
  lemma MatchSpansLines()
    ensures TelMatches("123\n456\n7890")
    ensures !TelMatchesWhole("123") && !TelMatchesWhole("456") && !TelMatchesWhole("7890")
  {
    var s := "123\n456\n7890";
    PiecesMatch([], [], "123", [], "\n", "456", "\n", "7890");
    assert [] + [] + "123" + [] + "\n" + "456" + "\n" + "7890" == s;
    assert s[0..|s|] == s;
    assert LineStartAt(s, 0) && LineEndAt(s, |s|);
    ShortLineRefused("123");
    ShortLineRefused("456");
    ShortLineRefused("7890");
  }

  lemma {:induction false} DigitCountAtMostLength(t: string)
    ensures DigitCount(t) <= |t|
  {
    if t != [] {
      DigitCountAtMostLength(t[1..]);
    }
  }

  /** Fewer than ten characters can never be a phone number. */
  lemma ShortLineRefused(t: string)
    requires |t| < 10
    ensures !TelMatchesWhole(t)
  {
    if TelMatchesWhole(t) {
      WholeMatchHasPhoneCharsOnly(t);
      DigitCountAtMostLength(t);
    }
  }
}
