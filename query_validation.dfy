/** `validatePaperQueryParams` and `validateAuthorQueryParams`: checks of the list endpoints'
    query strings. They reject with one fixed 400 answer when any check fails, and rewrite
    `year`, `limit` and `offset` in `req.query` to their parsed integers as they go. */
module QueryValidation {
  import opened Text
  import opened Http

  /** A query-string value as the query parser gives it (a string, a list for a repeated key,
      a dictionary for bracketed keys), or a number a validator has written back, held as the
      digit value it was parsed from; `String()` of it is `NumberText`. */
  datatype QueryValue =
    | QStr(s: string)
    | QList(items: seq<QueryValue>)
    | QDict(entries: map<string, QueryValue>)
    | QNum(n: nat)

  /** `!!v` */
  predicate Truthy(v: QueryValue) {
    match v
    case QStr(s) => s != ""
    case QNum(n) => n != 0
    case QList(_) => true
    case QDict(_) => true
  }

  /** `parts.join(sep)` */
  function Join(parts: seq<string>, sep: string): string {
    if |parts| == 0 then ""
    else if |parts| == 1 then parts[0]
    else parts[0] + sep + Join(parts[1..], sep)
  }

  /** `String(v)`: what the regular-expression test and `parseInt` look at. */
  function Render(v: QueryValue): string {
    match v
    case QStr(s) => s
    case QNum(n) => NumberText(n)
    case QDict(_) => "[object Object]"
    case QList(items) => Join(seq(|items|, i requires 0 <= i < |items| => Render(items[i])), ",")
  }

  function Lookup(query: map<string, QueryValue>, key: string): Option<QueryValue> {
    if key in query then Some(query[key]) else None
  }

  // ---------------------------------------------------------------------------------------
  // Numeric parameters: year, limit, offset

  /** What a numeric parameter's check sees: nothing (absent or falsy, so not checked),
      text that is not all digits, or the value `parseInt` reads from a digit string. */
  datatype Reading = Skipped | Malformed | Parsed(n: nat)

  function ReadNumeric(v: Option<QueryValue>): Reading {
    if v.None? || !Truthy(v.value) then Skipped
    else if IsDigits(Render(v.value)) then Parsed(DecimalValue(Render(v.value)))
    else Malformed
  }

  datatype NumericRule = YearRule | LimitRule | OffsetRule

  /** The bound each numeric parameter must meet once parsed. */
  predicate InRange(rule: NumericRule, n: nat) {
    match rule
    case YearRule => n > 1900
    case LimitRule => 1 <= n <= 100
    case OffsetRule => true
  }

  /** The parameter passes its check. */
  predicate NumericAccepted(v: Option<QueryValue>, rule: NumericRule) {
    match ReadNumeric(v)
    case Skipped => true
    case Malformed => false
    case Parsed(n) => InRange(rule, n)
  }

  /** The entry the check writes back into the query: the parsed integer, and only when the
      parameter was given and passed. */
  function NumericWrite(key: string, v: Option<QueryValue>, rule: NumericRule): (w: map<string, QueryValue>)
    ensures w.Keys <= {key}
    ensures key in w <==> ReadNumeric(v).Parsed? && NumericAccepted(v, rule)
    ensures key in w ==> w[key] == QNum(DecimalValue(Render(v.value)))
  {
    match ReadNumeric(v)
    case Parsed(n) => if InRange(rule, n) then map[key := QNum(n)] else map[]
    case _ => map[]
  }

  // ---------------------------------------------------------------------------------------
  // Text filters: publishedIn, author, name, affiliation

  /** `!(v && (typeof v !== 'string' || v.trim().length === 0))` */
  predicate TextFilterAccepted(v: Option<QueryValue>) {
    v.None? || !Truthy(v.value) || (v.value.QStr? && HasText(v.value.s))
  }

  predicate AuthorEntryOk(v: QueryValue) {
    v.QStr? && HasText(v.s)
  }

  /** The `author` filter: a non-blank string, or a non-empty list of non-blank strings. */
  predicate AuthorFilterAccepted(v: Option<QueryValue>) {
    v.None? || !Truthy(v.value) ||
    match v.value
    case QStr(s) => HasText(s)
    case QList(items) => |items| > 0 && forall i :: 0 <= i < |items| ==> AuthorEntryOk(items[i])
    case _ => false
  }

  // ---------------------------------------------------------------------------------------
  // Specification of the two validators

  predicate PaperQueryAccepted(query: map<string, QueryValue>) {
    && NumericAccepted(Lookup(query, "year"), YearRule)
    && TextFilterAccepted(Lookup(query, "publishedIn"))
    && AuthorFilterAccepted(Lookup(query, "author"))
    && NumericAccepted(Lookup(query, "limit"), LimitRule)
    && NumericAccepted(Lookup(query, "offset"), OffsetRule)
  }

  /** `req.query` after `validatePaperQueryParams`: every key keeps its value except `year`,
      `limit` and `offset`, each of which becomes the decimal value of its own text when its
      own check passed (whether or not another check failed). No key is added. */
  function PaperQueryRewrite(query: map<string, QueryValue>): (r: map<string, QueryValue>)
    ensures r.Keys == query.Keys
    ensures forall k :: k in query && k != "year" && k != "limit" && k != "offset" ==> r[k] == query[k]
    ensures forall k :: k in query && r[k] != query[k] ==>
      && IsDigits(Render(query[k])) && r[k] == QNum(DecimalValue(Render(query[k])))
      && ((k == "year" && r[k].n > 1900) || (k == "limit" && 1 <= r[k].n <= 100) || k == "offset")
  {
    var w1 := NumericWrite("year", Lookup(query, "year"), YearRule);
    var w2 := NumericWrite("limit", Lookup(query, "limit"), LimitRule);
    var w3 := NumericWrite("offset", Lookup(query, "offset"), OffsetRule);
    OverwriteAt(query, w1, "year", Lookup(query, "year"), YearRule);
    OverwriteAt(query + w1, w2, "limit", Lookup(query, "limit"), LimitRule);
    OverwriteAt(query + w1 + w2, w3, "offset", Lookup(query, "offset"), OffsetRule);
    query + w1 + w2 + w3
  }

  predicate AuthorQueryAccepted(query: map<string, QueryValue>) {
    && TextFilterAccepted(Lookup(query, "name"))
    && TextFilterAccepted(Lookup(query, "affiliation"))
    && NumericAccepted(Lookup(query, "limit"), LimitRule)
    && NumericAccepted(Lookup(query, "offset"), OffsetRule)
  }

  /** `req.query` after `validateAuthorQueryParams`: only `limit` and `offset` can change,
      each to the decimal value of its own text when its own check passed. */
  function AuthorQueryRewrite(query: map<string, QueryValue>): (r: map<string, QueryValue>)
    ensures r.Keys == query.Keys
    ensures forall k :: k in query && k != "limit" && k != "offset" ==> r[k] == query[k]
    ensures forall k :: k in query && r[k] != query[k] ==>
      && IsDigits(Render(query[k])) && r[k] == QNum(DecimalValue(Render(query[k])))
      && ((k == "limit" && 1 <= r[k].n <= 100) || k == "offset")
  {
    var w1 := NumericWrite("limit", Lookup(query, "limit"), LimitRule);
    var w2 := NumericWrite("offset", Lookup(query, "offset"), OffsetRule);
    OverwriteAt(query, w1, "limit", Lookup(query, "limit"), LimitRule);
    OverwriteAt(query + w1, w2, "offset", Lookup(query, "offset"), OffsetRule);
    query + w1 + w2
  }

  /** Adding one check's write-back to a map: keys stay, only `key` can change. */
  lemma OverwriteAt(m: map<string, QueryValue>, w: map<string, QueryValue>, key: string, v: Option<QueryValue>, rule: NumericRule)
    requires w == NumericWrite(key, v, rule)
    requires v.Some? ==> key in m
    ensures (m + w).Keys == m.Keys
    ensures forall k :: k in m && k != key ==> (m + w)[k] == m[k]
    ensures key in w ==> (m + w)[key] == QNum(DecimalValue(Render(v.value))) && InRange(rule, (m + w)[key].n)
  {
  }

  // ---------------------------------------------------------------------------------------
  // The validators

  /** The part of an Express request the query validators read and update. */
  class Request {
    var query: map<string, QueryValue>

    constructor (query: map<string, QueryValue>)
      ensures this.query == query
    {
      this.query := query;
    }
  }

  /** One numeric parameter's check: test the text against `/^\d+$/`, parse it, compare it
      with the bound, and on success overwrite `req.query[key]` with the integer. */
  method CheckNumericParam(req: Request, key: string, value: Option<QueryValue>, rule: NumericRule)
    returns (failed: bool)
    modifies req
    ensures failed == !NumericAccepted(value, rule)
    ensures req.query == old(req.query) + NumericWrite(key, value, rule)
  {
    failed := false;
    if value.Some? && Truthy(value.value) {
      var text := Render(value.value);
      if !IsDigits(text) {
        failed := true;
      } else {
        // parseInt(text, 10) of a digit string is never NaN
        var parsed := DecimalValue(text);
        var outOfRange := match rule
          case YearRule => parsed <= 1900
          case LimitRule => parsed <= 0 || parsed > 100
          case OffsetRule => parsed < 0;
        if outOfRange {
          failed := true;
        } else {
          req.query := req.query[key := QNum(parsed)];
        }
      }
    }
  }

  /** The `author` filter check, with the source's scan over a list that flags every entry
      that is not a non-blank string. */
  method CheckAuthorFilter(author: Option<QueryValue>) returns (failed: bool)
    ensures failed == !AuthorFilterAccepted(author)
  {
    failed := false;
    if author.Some? && Truthy(author.value) {
      match author.value {
        case QStr(s) =>
          if !HasText(s) {
            failed := true;
          }
        case QList(items) =>
          if |items| == 0 {
            failed := true;
          }
          var i := 0;
          while i < |items|
            invariant 0 <= i <= |items|
            invariant failed <==> |items| == 0 || exists j :: 0 <= j < i && !AuthorEntryOk(items[j])
          {
            if !items[i].QStr? || !HasText(items[i].s) {
              failed := true;
            }
            i := i + 1;
          }
        case _ =>
          failed := true;
      }
    }
  }

  /** `validatePaperQueryParams(req, res, next)` */
  method ValidatePaperQueryParams(req: Request) returns (outcome: Outcome)
    modifies req
    ensures req.query == PaperQueryRewrite(old(req.query))
    ensures outcome == if PaperQueryAccepted(old(req.query)) then Next else Respond(InvalidQueryFormat)
  {
    var year, publishedIn, author, limit, offset :=
      Lookup(req.query, "year"), Lookup(req.query, "publishedIn"), Lookup(req.query, "author"),
      Lookup(req.query, "limit"), Lookup(req.query, "offset");
    var hasError := false;
    var failed := CheckNumericParam(req, "year", year, YearRule);
    hasError := hasError || failed;
    if publishedIn.Some? && Truthy(publishedIn.value) && (!publishedIn.value.QStr? || !HasText(publishedIn.value.s)) {
      hasError := true;
    }
    failed := CheckAuthorFilter(author);
    hasError := hasError || failed;
    failed := CheckNumericParam(req, "limit", limit, LimitRule);
    hasError := hasError || failed;
    failed := CheckNumericParam(req, "offset", offset, OffsetRule);
    hasError := hasError || failed;
    if hasError {
      return Respond(InvalidQueryFormat);
    }
    return Next;
  }

  /** `validateAuthorQueryParams(req, res, next)` */
  method ValidateAuthorQueryParams(req: Request) returns (outcome: Outcome)
    modifies req
    ensures req.query == AuthorQueryRewrite(old(req.query))
    ensures outcome == if AuthorQueryAccepted(old(req.query)) then Next else Respond(InvalidQueryFormat)
  {
    var name, affiliation, limit, offset :=
      Lookup(req.query, "name"), Lookup(req.query, "affiliation"),
      Lookup(req.query, "limit"), Lookup(req.query, "offset");
    var hasError := false;
    if name.Some? && Truthy(name.value) && (!name.value.QStr? || !HasText(name.value.s)) {
      hasError := true;
    }
    if affiliation.Some? && Truthy(affiliation.value) && (!affiliation.value.QStr? || !HasText(affiliation.value.s)) {
      hasError := true;
    }
    var failed := CheckNumericParam(req, "limit", limit, LimitRule);
    hasError := hasError || failed;
    failed := CheckNumericParam(req, "offset", offset, OffsetRule);
    hasError := hasError || failed;
    if hasError {
      return Respond(InvalidQueryFormat);
    }
    return Next;
  }

  // ---------------------------------------------------------------------------------------
  // Properties

  /** The number a check stores for `v` is spelled in plain digits by `String()`: `v` is not
      a parsed value that `parseInt` rounds to 1e21 or more. */
  predicate SpelledPlain(v: Option<QueryValue>) {
    !(ReadNumeric(v).Parsed? && ReadNumeric(v).n >= PlainDigitsBound)
  }

  /** A second check of a written-back value writes nothing new; and a value that passed
      passes again exactly when its stored number is spelled in plain digits (from 1e21 on,
      `String()` gives "1e+21" and the like, which fail `/^\d+$/`). */
  lemma {:induction false} NumericWriteStable(key: string, v: Option<QueryValue>, rule: NumericRule)
    ensures var w := NumericWrite(key, v, rule);
      var v' := if key in w then Some(w[key]) else v;
      && (key in NumericWrite(key, v', rule) ==> v'.Some? && NumericWrite(key, v', rule)[key] == v'.value)
      && (NumericAccepted(v, rule) ==> (NumericAccepted(v', rule) <==> SpelledPlain(v)))
  {
    var w := NumericWrite(key, v, rule);
    if key in w {
      var n := w[key].n;
      NumberTextReadsBack(n);
      assert Render(QNum(n)) == NumberText(n);
      if n != 0 && n < PlainDigitsBound {
        assert ReadNumeric(Some(QNum(n))) == Parsed(n);
      }
    }
  }

  /** `key` of `r` is left as it is by one more check. */
  predicate RewriteFixed(r: map<string, QueryValue>, key: string, rule: NumericRule) {
    key in NumericWrite(key, Lookup(r, key), rule) ==> NumericWrite(key, Lookup(r, key), rule)[key] == r[key]
  }

  /** One numeric key of a rewritten query: rewriting again leaves it, and if it passed
      before, it passes again exactly when its value is spelled in plain digits. */
  lemma StableAt(query: map<string, QueryValue>, r: map<string, QueryValue>, key: string, rule: NumericRule)
    requires r.Keys == query.Keys
    requires key in r ==> r[key] == (query + NumericWrite(key, Lookup(query, key), rule))[key]
    ensures RewriteFixed(r, key, rule)
    ensures NumericAccepted(Lookup(query, key), rule) ==>
      (NumericAccepted(Lookup(r, key), rule) <==> SpelledPlain(Lookup(query, key)))
  {
    NumericWriteStable(key, Lookup(query, key), rule);
  }

  /** `year`, `limit` and `offset` of a rewritten paper query, checked again. */
  lemma PaperNumericStable(query: map<string, QueryValue>)
    ensures var r := PaperQueryRewrite(query);
      && RewriteFixed(r, "year", YearRule) && RewriteFixed(r, "limit", LimitRule) && RewriteFixed(r, "offset", OffsetRule)
      && (NumericAccepted(Lookup(query, "year"), YearRule) ==>
          (NumericAccepted(Lookup(r, "year"), YearRule) <==> SpelledPlain(Lookup(query, "year"))))
      && (NumericAccepted(Lookup(query, "limit"), LimitRule) ==> NumericAccepted(Lookup(r, "limit"), LimitRule))
      && (NumericAccepted(Lookup(query, "offset"), OffsetRule) ==>
          (NumericAccepted(Lookup(r, "offset"), OffsetRule) <==> SpelledPlain(Lookup(query, "offset"))))
  {
    var w1 := NumericWrite("year", Lookup(query, "year"), YearRule);
    var w2 := NumericWrite("limit", Lookup(query, "limit"), LimitRule);
    var w3 := NumericWrite("offset", Lookup(query, "offset"), OffsetRule);
    var r := PaperQueryRewrite(query);
    assert r == query + w1 + w2 + w3;
    assert "year" in r ==> r["year"] == (query + w1)["year"];
    assert "limit" in r ==> r["limit"] == (query + w2)["limit"];
    assert "offset" in r ==> r["offset"] == (query + w3)["offset"];
    StableAt(query, r, "year", YearRule);
    StableAt(query, r, "limit", LimitRule);
    StableAt(query, r, "offset", OffsetRule);
  }

  /** A check that would write back what `r` already holds changes nothing. */
  lemma WriteFixedNoop(r: map<string, QueryValue>, key: string, rule: NumericRule)
    requires RewriteFixed(r, key, rule)
    ensures r + NumericWrite(key, Lookup(r, key), rule) == r
  {
    if key in NumericWrite(key, Lookup(r, key), rule) {
      assert key in r;
    }
  }

  /** Running `validatePaperQueryParams` twice leaves `req.query` as the first run left it,
      whatever the query. */
  lemma PaperRewriteIdempotent(query: map<string, QueryValue>)
    ensures PaperQueryRewrite(PaperQueryRewrite(query)) == PaperQueryRewrite(query)
  {
    var r := PaperQueryRewrite(query);
    PaperNumericStable(query);
    WriteFixedNoop(r, "year", YearRule);
    WriteFixedNoop(r, "limit", LimitRule);
    WriteFixedNoop(r, "offset", OffsetRule);
  }

  /** A paper query that was accepted is accepted again after its rewrite exactly when its
      `year` and `offset` values are below `PlainDigitsBound`, the least value stored as 1e21. */
  lemma PaperQueryAcceptedAgain(query: map<string, QueryValue>)
    requires PaperQueryAccepted(query)
    ensures PaperQueryAccepted(PaperQueryRewrite(query)) <==>
      SpelledPlain(Lookup(query, "year")) && SpelledPlain(Lookup(query, "offset"))
  {
    var r := PaperQueryRewrite(query);
    PaperNumericStable(query);
    assert Lookup(r, "publishedIn") == Lookup(query, "publishedIn");
    assert Lookup(r, "author") == Lookup(query, "author");
  }

  /** `limit` and `offset` of a rewritten author query, checked again. */
  lemma AuthorNumericStable(query: map<string, QueryValue>)
    ensures var r := AuthorQueryRewrite(query);
      && RewriteFixed(r, "limit", LimitRule) && RewriteFixed(r, "offset", OffsetRule)
      && (NumericAccepted(Lookup(query, "limit"), LimitRule) ==> NumericAccepted(Lookup(r, "limit"), LimitRule))
      && (NumericAccepted(Lookup(query, "offset"), OffsetRule) ==>
          (NumericAccepted(Lookup(r, "offset"), OffsetRule) <==> SpelledPlain(Lookup(query, "offset"))))
  {
    var w1 := NumericWrite("limit", Lookup(query, "limit"), LimitRule);
    var w2 := NumericWrite("offset", Lookup(query, "offset"), OffsetRule);
    var r := AuthorQueryRewrite(query);
    assert r == query + w1 + w2;
    assert "limit" in r ==> r["limit"] == (query + w1)["limit"];
    assert "offset" in r ==> r["offset"] == (query + w2)["offset"];
    StableAt(query, r, "limit", LimitRule);
    StableAt(query, r, "offset", OffsetRule);
  }

  /** Running `validateAuthorQueryParams` twice leaves `req.query` as the first run left it. */
  lemma AuthorRewriteIdempotent(query: map<string, QueryValue>)
    ensures AuthorQueryRewrite(AuthorQueryRewrite(query)) == AuthorQueryRewrite(query)
  {
    var r := AuthorQueryRewrite(query);
    AuthorNumericStable(query);
    WriteFixedNoop(r, "limit", LimitRule);
    WriteFixedNoop(r, "offset", OffsetRule);
  }

  /** An author query that was accepted is accepted again after its rewrite exactly when its
      `offset` value is below `PlainDigitsBound`. */
  lemma AuthorQueryAcceptedAgain(query: map<string, QueryValue>)
    requires AuthorQueryAccepted(query)
    ensures AuthorQueryAccepted(AuthorQueryRewrite(query)) <==> SpelledPlain(Lookup(query, "offset"))
  {
    var r := AuthorQueryRewrite(query);
    AuthorNumericStable(query);
    assert Lookup(r, "name") == Lookup(query, "name");
    assert Lookup(r, "affiliation") == Lookup(query, "affiliation");
  }

  /** `?offset=` or `?year=` with a value that `parseInt` rounds to 1e21 or more (21 nines
      included) passes once, but the stored number's text ("1e+21" and so on) is turned down
      by the next run. */
  lemma {:induction false} LargeValuesNotAcceptedTwice(n: nat)
    requires n >= PlainDigitsBound
    ensures var q := map["offset" := QStr(Show(n))];
      PaperQueryAccepted(q) && !PaperQueryAccepted(PaperQueryRewrite(q))
      && AuthorQueryAccepted(q) && !AuthorQueryAccepted(AuthorQueryRewrite(q))
    ensures var q := map["year" := QStr(Show(n))];
      PaperQueryAccepted(q) && !PaperQueryAccepted(PaperQueryRewrite(q))
  {
    DecimalValueOfShow(n);
    var q := map["offset" := QStr(Show(n))];
    PaperQueryAcceptedAgain(q);
    AuthorQueryAcceptedAgain(q);
    var p := map["year" := QStr(Show(n))];
    PaperQueryAcceptedAgain(p);
  }

  /** A single `limit` string is accepted exactly when it is empty (not checked) or a digit
      string whose value is between 1 and 100; every such value, spelled out, is accepted and
      written back as that integer. */
  lemma {:induction false} LimitAcceptance(s: string, n: nat)
    ensures NumericAccepted(Some(QStr(s)), LimitRule) <==> s == "" || (IsDigits(s) && 1 <= DecimalValue(s) <= 100)
    ensures 1 <= n <= 100 ==>
      NumericAccepted(Some(QStr(Show(n))), LimitRule)
      && NumericWrite("limit", Some(QStr(Show(n))), LimitRule) == map["limit" := QNum(n)]
  {
    DecimalValueOfShow(n);
  }

  /** A single `year` string is accepted exactly when it is empty or a digit string whose
      value is after 1900; every such year, spelled out, is written back as that integer. */
  lemma {:induction false} YearAcceptance(s: string, n: nat)
    ensures NumericAccepted(Some(QStr(s)), YearRule) <==> s == "" || (IsDigits(s) && DecimalValue(s) > 1900)
    ensures n > 1900 ==>
      NumericAccepted(Some(QStr(Show(n))), YearRule)
      && NumericWrite("year", Some(QStr(Show(n))), YearRule) == map["year" := QNum(n)]
  {
    DecimalValueOfShow(n);
  }

  /** Any digit string is an acceptable `offset`, so the `< 0` comparison never fires; any
      other non-empty text is rejected. */
  lemma OffsetAcceptance(s: string)
    ensures NumericAccepted(Some(QStr(s)), OffsetRule) <==> s == "" || IsDigits(s)
  {
  }

  /** Limits the check turns down: out of range, signed, with a decimal point, or with
      surrounding spaces. */
  lemma RejectedLimits()
    ensures !NumericAccepted(Some(QStr("0")), LimitRule)
    ensures !NumericAccepted(Some(QStr("101")), LimitRule)
    ensures !NumericAccepted(Some(QStr("-5")), LimitRule)
    ensures !NumericAccepted(Some(QStr("+5")), LimitRule)
    ensures !NumericAccepted(Some(QStr("5.0")), LimitRule)
    ensures !NumericAccepted(Some(QStr(" 5")), LimitRule)
  {
    assert !IsDigit('-') && !IsDigit('+') && !IsDigit('.') && !IsDigit(' ');
    assert DecimalValue("0") == 0;
    assert DecimalValue("101") == 101 by {
      assert "101"[..2] == "10" && "10"[..1] == "1" && "1"[..0] == "";
    }
  }

  /** A negative offset and the year 1900 are turned down. */
  lemma RejectedOffsetAndYear()
    ensures !NumericAccepted(Some(QStr("-1")), OffsetRule)
    ensures !NumericAccepted(Some(QStr("1900")), YearRule)
  {
    assert !IsDigit('-');
    assert DecimalValue("1900") == 1900 by {
      assert "1900"[..3] == "190" && "190"[..2] == "19" && "19"[..1] == "1" && "1"[..0] == "";
    }
  }

  /** A repeated key (`?limit=5&limit=6`) is a list whose text has a comma, so it is turned
      down; a list of one digit string (`?limit[]=5`) reads as that string and is accepted. */
  lemma ListValuedLimit()
    ensures !NumericAccepted(Some(QList([QStr("5"), QStr("6")])), LimitRule)
    ensures NumericWrite("limit", Some(QList([QStr("5")])), LimitRule) == map["limit" := QNum(5)]
  {
    assert Render(QList([QStr("5"), QStr("6")])) == "5,6" by {
      assert seq(2, i requires 0 <= i < 2 => Render([QStr("5"), QStr("6")][i])) == ["5", "6"];
      assert ["5", "6"][1..] == ["6"];
      assert Join(["5", "6"], ",") == "5" + "," + "6";
    }
    assert "5,6"[1] == ',' && !IsDigit(',');
    assert Render(QList([QStr("5")])) == "5" by {
      assert seq(1, i requires 0 <= i < 1 => Render([QStr("5")][i])) == ["5"];
    }
    assert DecimalValue("5") == 5;
  }

  /** The `author` filter passes a list exactly when the list is non-empty and every entry is
      a string with a character other than white space. */
  lemma AuthorListAcceptance(items: seq<QueryValue>)
    ensures AuthorFilterAccepted(Some(QList(items))) <==>
      |items| > 0 && forall i :: 0 <= i < |items| ==> items[i].QStr? && !IsBlank(items[i].s)
  {
    forall i | 0 <= i < |items| && items[i].QStr? {
      TrimEmptyIffBlank(items[i].s);
    }
  }

  /** A query without `limit` or `offset` keeps them absent: no default is filled in. */
  lemma NoDefaultsWritten(query: map<string, QueryValue>)
    ensures "limit" !in query ==> "limit" !in PaperQueryRewrite(query) && "limit" !in AuthorQueryRewrite(query)
    ensures "offset" !in query ==> "offset" !in PaperQueryRewrite(query) && "offset" !in AuthorQueryRewrite(query)
  {
  }
}
