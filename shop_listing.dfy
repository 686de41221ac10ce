/** The helpers of the shop listing (`getShops`): the filter copy without
    its reserved keys, the `$` prefix of the comparison operators, the
    comma-separated field lists, and the pagination. */
module ShopListing {
  import opened Common

  /** The query keys that steer the listing instead of filtering it. */
  const ReservedKeys: seq<string> := ["select", "sort", "page", "limit"]

  /** The copy of the query with every reserved key deleted, one key after
      the other. */
  method RemoveReservedKeys<V>(query: map<string, V>) returns (filter: map<string, V>)
    ensures forall k :: k in filter <==> k in query && k !in ReservedKeys
    ensures forall k :: k in filter ==> filter[k] == query[k]
  {
    filter := query;
    var i := 0;
    while i < |ReservedKeys|
      invariant 0 <= i <= |ReservedKeys|
      invariant forall k :: k in filter <==> k in query && k !in ReservedKeys[..i]
      invariant forall k :: k in filter ==> filter[k] == query[k]
    {
      assert ReservedKeys[..i + 1] == ReservedKeys[..i] + [ReservedKeys[i]];
      filter := filter - {ReservedKeys[i]};
      i := i + 1;
    }
    assert ReservedKeys[..i] == ReservedKeys;
  }

  /** `\w` of a regular expression without the `u` flag. */
  predicate IsWordChar(c: char) {
    ('a' <= c <= 'z') || ('A' <= c <= 'Z') || ('0' <= c <= '9') || c == '_'
  }

  /** The length of the run of word characters `s` starts with. */
  function RunLength(s: string): (n: nat)
    ensures n <= |s|
    ensures forall k :: 0 <= k < n ==> IsWordChar(s[k])
    ensures n < |s| ==> !IsWordChar(s[n])
  {
    if s != [] && IsWordChar(s[0]) then 1 + RunLength(s[1..]) else 0
  }

  predicate IsOperator(w: string) {
    w == "gt" || w == "gte" || w == "lt" || w == "lte" || w == "in"
  }

  lemma OperatorIsWord(w: string)
    requires IsOperator(w)
    ensures w != [] && forall k :: 0 <= k < |w| ==> IsWordChar(w[k])
  {
  }

  /** One step of the rewrite over a run of word characters. */
  lemma AddOverRun(s: string)
    requires s != [] && IsWordChar(s[0])
    ensures var n := RunLength(s);
      AddOperatorPrefixes(s) == (if IsOperator(s[..n]) then "$" + s[..n] else s[..n]) + AddOperatorPrefixes(s[n..])
  {
  }

  /** `replace(/\b(gt|gte|lt|lte|in)\b/g, "$" + match)`. A match must start
      where a run of word characters starts and end where it ends, so the
      text is taken run by run: each run that is one of the five words gets
      a `$` in front, and everything else is copied. */
  function AddOperatorPrefixes(s: string): (r: string)
    ensures |s| <= |r|
    decreases |s|
  {
    if s == [] then []
    else if !IsWordChar(s[0]) then [s[0]] + AddOperatorPrefixes(s[1..])
    else
      var n := RunLength(s);
      (if IsOperator(s[..n]) then "$" + s[..n] else s[..n]) + AddOperatorPrefixes(s[n..])
  }

  /** The inverse: a `$` in front of a run that is one of the five words is
      dropped, everything else is copied. */
  function RemoveOperatorPrefixes(r: string): string
    decreases |r|
  {
    if r == [] then []
    else if IsWordChar(r[0]) then
      var n := RunLength(r);
      r[..n] + RemoveOperatorPrefixes(r[n..])
    else if r[0] == '$' && IsOperator(r[1..][..RunLength(r[1..])]) then
      var n := RunLength(r[1..]);
      r[1..1 + n] + RemoveOperatorPrefixes(r[1 + n..])
    else [r[0]] + RemoveOperatorPrefixes(r[1..])
  }

  /** A run of word characters followed by a non-word character or by
      nothing is a whole run. */
  lemma {:induction false} RunOfConcat(w: string, x: string)
    requires forall k :: 0 <= k < |w| ==> IsWordChar(w[k])
    requires x == [] || !IsWordChar(x[0])
    ensures RunLength(w + x) == |w|
  {
    if w != [] {
      assert (w + x)[1..] == w[1..] + x;
      RunOfConcat(w[1..], x);
    } else {
      assert w + x == x;
    }
  }

  /** Text that starts with a non-word character keeps it in front. */
  lemma PrefixesKeepHead(t: string)
    requires t != [] && !IsWordChar(t[0])
    ensures AddOperatorPrefixes(t) != [] && AddOperatorPrefixes(t)[0] == t[0]
  {
  }

  /** The rewritten text never starts with a run that is an operator word:
      every such run has the `$` in front. */
  lemma LeadingRunNotOperator(t: string)
    ensures var x := AddOperatorPrefixes(t);
      RunLength(x) == 0 || !IsOperator(x[..RunLength(x)])
  {
    if t != [] && IsWordChar(t[0]) {
      var n := RunLength(t);
      var w := t[..n];
      if !IsOperator(w) {
        var rest := AddOperatorPrefixes(t[n..]);
        if t[n..] != [] {
          PrefixesKeepHead(t[n..]);
        }
        RunOfConcat(w, rest);
        assert (w + rest)[..|w|] == w;
      }
    }
  }

  /** Deleting the inserted `$` characters gives back the original text. */
  lemma {:induction false} PrefixesRoundTrip(s: string)
    ensures RemoveOperatorPrefixes(AddOperatorPrefixes(s)) == s
    decreases |s|
  {
    if s == [] {
    } else if !IsWordChar(s[0]) {
      PrefixesRoundTrip(s[1..]);
      RoundTripAfterNonWord(s);
    } else {
      PrefixesRoundTrip(s[RunLength(s)..]);
      if IsOperator(s[..RunLength(s)]) {
        RoundTripAfterOperator(s);
      } else {
        RoundTripAfterWord(s);
      }
    }
  }

  /** `RemoveOperatorPrefixes` copies a non-word character that is not a
      `$` in front of an operator word. */
  lemma RemoveOverNonWord(c: char, x: string)
    requires !IsWordChar(c)
    requires c == '$' ==> RunLength(x) == 0 || !IsOperator(x[..RunLength(x)])
    ensures RemoveOperatorPrefixes([c] + x) == [c] + RemoveOperatorPrefixes(x)
  {
    var r := [c] + x;
    assert r[0] == c && r[1..] == x;
  }

  /** ... copies a whole run of word characters ... */
  lemma RemoveOverWord(w: string, x: string)
    requires w != [] && forall k :: 0 <= k < |w| ==> IsWordChar(w[k])
    requires x == [] || !IsWordChar(x[0])
    ensures RemoveOperatorPrefixes(w + x) == w + RemoveOperatorPrefixes(x)
  {
    RunOfConcat(w, x);
    var r := w + x;
    assert r[..|w|] == w && r[|w|..] == x;
  }

  /** ... and drops the `$` in front of a whole operator word. */
  lemma RemoveOverPrefixed(w: string, x: string)
    requires IsOperator(w)
    requires x == [] || !IsWordChar(x[0])
    ensures RemoveOperatorPrefixes("$" + w + x) == w + RemoveOperatorPrefixes(x)
  {
    OperatorIsWord(w);
    RunOfConcat(w, x);
    DollarSplit(w, x);
  }

  /** The pieces of `"$" + w + x`. */
  lemma DollarSplit(w: string, x: string)
    ensures var r := "$" + w + x;
      && r[0] == '$' && r[1..] == w + x && r[1..][..|w|] == w
      && r[1..1 + |w|] == w && r[1 + |w|..] == x
  {
    var r := "$" + w + x;
    assert r[1..] == w + x;
    assert (w + x)[..|w|] == w;
  }

  /** What follows a whole run in the rewritten text is a non-word
      character or nothing. */
  lemma RestAfterRun(s: string)
    requires s != [] && IsWordChar(s[0])
    ensures var x := AddOperatorPrefixes(s[RunLength(s)..]); x == [] || !IsWordChar(x[0])
  {
    var n := RunLength(s);
    if s[n..] != [] {
      PrefixesKeepHead(s[n..]);
    }
  }

  /** The step of the round trip over a non-word character. */
  lemma RoundTripAfterNonWord(s: string)
    requires s != [] && !IsWordChar(s[0])
    requires RemoveOperatorPrefixes(AddOperatorPrefixes(s[1..])) == s[1..]
    ensures RemoveOperatorPrefixes(AddOperatorPrefixes(s)) == s
  {
    assert AddOperatorPrefixes(s) == [s[0]] + AddOperatorPrefixes(s[1..]);
    LeadingRunNotOperator(s[1..]);
    RemoveOverNonWord(s[0], AddOperatorPrefixes(s[1..]));
    assert [s[0]] + s[1..] == s;
  }

  /** The step of the round trip over an operator word. */
  lemma RoundTripAfterOperator(s: string)
    requires s != [] && IsWordChar(s[0]) && IsOperator(s[..RunLength(s)])
    requires RemoveOperatorPrefixes(AddOperatorPrefixes(s[RunLength(s)..])) == s[RunLength(s)..]
    ensures RemoveOperatorPrefixes(AddOperatorPrefixes(s)) == s
  {
    var n := RunLength(s);
    RunStep(s);
    RestAfterRun(s);
    AddOverRun(s);
    RemovePrefixedStep(s[..n], s[n..], AddOperatorPrefixes(s[n..]), AddOperatorPrefixes(s));
  }

  /** The step of the round trip over any other word. */
  lemma RoundTripAfterWord(s: string)
    requires s != [] && IsWordChar(s[0]) && !IsOperator(s[..RunLength(s)])
    requires RemoveOperatorPrefixes(AddOperatorPrefixes(s[RunLength(s)..])) == s[RunLength(s)..]
    ensures RemoveOperatorPrefixes(AddOperatorPrefixes(s)) == s
  {
    var n := RunLength(s);
    RunStep(s);
    RestAfterRun(s);
    AddOverRun(s);
    RemoveWordStep(s[..n], s[n..], AddOperatorPrefixes(s[n..]), AddOperatorPrefixes(s));
  }

  /** The leading run of a text that starts with a word character is a
      non-empty word, and the text is that word followed by the rest. */
  lemma RunStep(s: string)
    requires s != [] && IsWordChar(s[0])
    ensures var n := RunLength(s); var w := s[..n];
      && w != [] && (forall k :: 0 <= k < |w| ==> IsWordChar(w[k]))
      && w + s[n..] == s
  {
    var n := RunLength(s);
    var w := s[..n];
    forall k | 0 <= k < |w| ensures IsWordChar(w[k]) {
      assert w[k] == s[k];
    }
    assert w + s[n..] == s;
  }

  /** Undoing the rewrite of an operator word, given the rest undone. */
  lemma RemovePrefixedStep(w: string, tail: string, rest: string, whole: string)
    requires IsOperator(w)
    requires rest == [] || !IsWordChar(rest[0])
    requires whole == "$" + w + rest
    requires RemoveOperatorPrefixes(rest) == tail
    ensures RemoveOperatorPrefixes(whole) == w + tail
  {
    RemoveOverPrefixed(w, rest);
  }

  /** Undoing the copy of another word, given the rest undone. */
  lemma RemoveWordStep(w: string, tail: string, rest: string, whole: string)
    requires w != [] && forall k :: 0 <= k < |w| ==> IsWordChar(w[k])
    requires rest == [] || !IsWordChar(rest[0])
    requires whole == w + rest
    requires RemoveOperatorPrefixes(rest) == tail
    ensures RemoveOperatorPrefixes(whole) == w + tail
  {
    RemoveOverWord(w, rest);
  }

  /** So no two filters are rewritten to the same text. */
  lemma PrefixesInjective(s: string, t: string)
    requires AddOperatorPrefixes(s) == AddOperatorPrefixes(t)
    ensures s == t
  {
    PrefixesRoundTrip(s);
    PrefixesRoundTrip(t);
  }

  /** An operator word standing alone gets its `$`. */
  lemma StandaloneOperatorPrefixed(w: string)
    requires IsOperator(w)
    ensures AddOperatorPrefixes(w) == "$" + w
  {
    OperatorIsWord(w);
    RunOfConcat(w, []);
    assert w + [] == w && w[..|w|] == w && w[|w|..] == [];
  }

  /** A word that only contains an operator word is left alone. */
  lemma WholeWordsOnly()
    ensures AddOperatorPrefixes("gtx") == "gtx"
    ensures AddOperatorPrefixes("min") == "min"
  {
    WordCopied("gtx");
    WordCopied("min");
  }

  /** A whole word that is not an operator word is copied as it is. */
  lemma WordCopied(w: string)
    requires w != [] && forall k :: 0 <= k < |w| ==> IsWordChar(w[k])
    requires !IsOperator(w)
    ensures AddOperatorPrefixes(w) == w
  {
    RunOfConcat(w, []);
    assert w + [] == w && w[..|w|] == w && w[|w|..] == [];
  }

  /** `s.split(c)`: the pieces between the occurrences of `c`; there is
      always one more piece than occurrences. */
  function Split(s: string, c: char): (parts: seq<string>)
    ensures |parts| >= 1
    ensures forall k :: 0 <= k < |parts| ==> c !in parts[k]
  {
    if s == [] then [[]]
    else
      var rest := Split(s[1..], c);
      if s[0] == c then [[]] + rest
      else
        assert c !in rest[0];
        [[s[0]] + rest[0]] + rest[1..]
  }

  /** `parts.join(d)`. */
  function Join(parts: seq<string>, d: string): string
    requires |parts| >= 1
  {
    if |parts| == 1 then parts[0] else parts[0] + d + Join(parts[1..], d)
  }

  /** `s` with every `c` replaced by `d`. */
  function ReplaceChar(s: string, c: char, d: char): (r: string)
    ensures |r| == |s|
    ensures forall k :: 0 <= k < |s| ==> r[k] == if s[k] == c then d else s[k]
  {
    if s == [] then [] else [if s[0] == c then d else s[0]] + ReplaceChar(s[1..], c, d)
  }

  lemma JoinCons(x: char, y: string, tail: seq<string>, d: string)
    ensures Join([[x] + y] + tail, d) == [x] + Join([y] + tail, d)
  {
    var p := [[x] + y] + tail;
    assert p[1..] == tail && ([y] + tail)[1..] == tail;
  }

  /** `split(",").join(" ")` replaces every comma by a space. */
  lemma {:induction false} SplitJoinReplaces(s: string, c: char, d: char)
    ensures Join(Split(s, c), [d]) == ReplaceChar(s, c, d)
  {
    if s != [] {
      var rest := Split(s[1..], c);
      SplitJoinReplaces(s[1..], c, d);
      if s[0] == c {
        var p := [[]] + rest;
        assert p[1..] == rest;
      } else {
        assert rest == [rest[0]] + rest[1..];
        JoinCons(s[0], rest[0], rest[1..], [d]);
      }
    }
  }

  /** `req.query.select` and `req.query.sort` count only when present and
      non-empty. */
  predicate Given(v: Option<string>) {
    v.Some? && v.value != []
  }

  /** The projection passed to `select`: the listed fields, space separated. */
  function SelectFields(select: Option<string>): (r: Option<string>)
    ensures r.Some? <==> Given(select)
    ensures r.Some? ==> r.value == ReplaceChar(select.value, ',', ' ')
  {
    if Given(select) then
      SplitJoinReplaces(select.value, ',', ' ');
      Some(Join(Split(select.value, ','), " "))
    else None
  }

  const DefaultSort := "-createdAt"

  /** The order passed to `sort`: the listed keys space separated, or newest
      first by default. */
  function SortFields(sort: Option<string>): (r: string)
    ensures Given(sort) ==> r == ReplaceChar(sort.value, ',', ' ')
    ensures !Given(sort) ==> r == DefaultSort
  {
    if Given(sort) then
      SplitJoinReplaces(sort.value, ',', ' ');
      Join(Split(sort.value, ','), " ")
    else DefaultSort
  }

  const DefaultPage := 1
  const DefaultLimit := 25

  /** `parseInt(v, 10) || d`: NaN (`None`) and 0 both fall back to `d`. */
  function OrDefault(parsed: Option<int>, d: int): (r: int)
    ensures r == d <==> parsed.None? || parsed.value == 0 || parsed.value == d
    ensures r != d ==> r == parsed.value
  {
    if parsed.None? || parsed.value == 0 then d else parsed.value
  }

  function StartIndex(page: int, limit: int): int {
    (page - 1) * limit
  }

  function EndIndex(page: int, limit: int): int {
    page * limit
  }

  datatype PageRef = PageRef(page: int, limit: int)

  /** The `pagination` object of the response. */
  datatype Pagination = Pagination(next: Option<PageRef>, prev: Option<PageRef>)

  function Paginate(page: int, limit: int, total: int): (r: Pagination)
    ensures r.next.Some? <==> EndIndex(page, limit) < total
    ensures r.prev.Some? <==> StartIndex(page, limit) > 0
    ensures r.next.Some? ==> r.next.value == PageRef(page + 1, limit)
    ensures r.prev.Some? ==> r.prev.value == PageRef(page - 1, limit)
  {
    Pagination(if EndIndex(page, limit) < total then Some(PageRef(page + 1, limit)) else None,
               if StartIndex(page, limit) > 0 then Some(PageRef(page - 1, limit)) else None)
  }

  /** On a real page, `prev` is there exactly when the page is not the first. */
  lemma PrevIffNotFirst(page: int, limit: int, total: int)
    requires page >= 1 && limit >= 1
    ensures Paginate(page, limit, total).prev.Some? <==> page > 1
  {
    assert (page - 1) * limit >= page - 1;
  }

  /** Consecutive pages abut: the window of one page ends where the next one
      starts, and each holds `limit` places. */
  lemma PagesTile(page: int, limit: int)
    ensures EndIndex(page, limit) == StartIndex(page + 1, limit)
    ensures EndIndex(page, limit) - StartIndex(page, limit) == limit
  {
  }

  /** Following `next` and then `prev` leads back to the same page, with the
      same limit. */
  lemma NextThenPrev(page: int, limit: int, total: int)
    requires page >= 1 && limit >= 1
    requires Paginate(page, limit, total).next.Some?
    ensures var n := Paginate(page, limit, total).next.value;
      Paginate(n.page, n.limit, total).prev == Some(PageRef(page, limit))
  {
    assert page * limit >= 1;
  }

  /** Every shop position 0 <= k < total is on exactly one page, the page
      `k / limit + 1`. */
  lemma EachPositionOnOnePage(k: nat, limit: int, page: int)
    requires limit >= 1
    ensures StartIndex(page, limit) <= k < EndIndex(page, limit) <==> page == k / limit + 1
  {
    var q := k / limit;
    assert q * limit <= k < (q + 1) * limit;
    if page <= q {
      assert page * limit <= q * limit;
    } else if page >= q + 2 {
      assert (page - 1) * limit >= (q + 1) * limit;
    }
  }

  /** The query that `getShops` builds, with the filter as text. */
  datatype ShopQuery = ShopQuery(filter: string, select: Option<string>, sort: string, skip: int, limit: int)

  /** The listing: the reserved keys go out of the filter copy; the filter's
      JSON text `filterText` gets its operator prefixes; then projection,
      order and window are set one after the other. `select` and `sort` are
      the query's own entries of those names. */
  method GetShops(query: map<string, string>, filterText: string, select: Option<string>, sort: Option<string>,
                  page: Option<int>, limit: Option<int>, total: int)
    returns (filter: map<string, string>, q: ShopQuery, pagination: Pagination)
    requires select == if "select" in query then Some(query["select"]) else None
    requires sort == if "sort" in query then Some(query["sort"]) else None
    ensures forall k :: k in filter <==> k in query && k !in ReservedKeys
    ensures forall k :: k in filter ==> filter[k] == query[k]
    ensures q.filter == AddOperatorPrefixes(filterText) && RemoveOperatorPrefixes(q.filter) == filterText
    ensures q.select == SelectFields(select) && q.sort == SortFields(sort)
    ensures var p, l := OrDefault(page, DefaultPage), OrDefault(limit, DefaultLimit);
      q.skip == StartIndex(p, l) && q.limit == l && pagination == Paginate(p, l, total)
  {
    filter := RemoveReservedKeys(query);
    var queryStr := AddOperatorPrefixes(filterText);
    PrefixesRoundTrip(filterText);
    q := ShopQuery(queryStr, None, DefaultSort, 0, 0);
    if Given(select) {
      q := q.(select := SelectFields(select));
    }
    q := q.(sort := SortFields(sort));
    var p := OrDefault(page, DefaultPage);
    var l := OrDefault(limit, DefaultLimit);
    q := q.(skip := StartIndex(p, l), limit := l);
    pagination := Paginate(p, l, total);
  }
}
