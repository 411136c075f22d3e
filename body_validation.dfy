/** `validatePaperInput` and `validateAuthorInput`: checks of a JSON request body that return
    the list of error messages to send back (empty when the body is acceptable). */
module BodyValidation {
  import opened Text
  import opened JsValues

  const TitleRequired := "Title is required"
  const VenueRequired := "Published venue is required"
  const YearRequired := "Published year is required"
  const YearInvalid := "Valid year after 1900 is required"
  const AuthorsRequired := "At least one author is required"
  const AuthorNameRequired := "Author name is required"
  const NameRequired := "Name is required"

  /** The order in which `validatePaperInput` can report its messages. */
  const PaperMessageOrder := [TitleRequired, VenueRequired, YearRequired, YearInvalid, AuthorsRequired, AuthorNameRequired]

  // ---------------------------------------------------------------------------------------
  // Specification of validatePaperInput

  /** An author entry whose `name` is a non-blank string. */
  predicate NameOk(author: JsValue) {
    IsText(Get(author, "name"))
  }

  /** `Number(year)` is an integer greater than 1900. */
  predicate YearAfter1900(year: JsValue) {
    NumberOf(year).Integral? && NumberOf(year).n > 1900
  }

  /** A paper body the validator lets through, stated field by field. */
  predicate PaperIsValid(paper: JsValue) {
    && !Nullish(paper)
    && IsText(Get(paper, "title"))
    && IsText(Get(paper, "publishedIn"))
    && YearAfter1900(Get(paper, "year"))
    && Get(paper, "authors").Arr?
    && |Get(paper, "authors").items| > 0
    && forall a :: a in Get(paper, "authors").items ==> NameOk(a)
  }

  /** The position of the first author entry without a usable name (`|authors|` if none). */
  function FirstUnnamed(authors: seq<JsValue>): (k: nat)
    ensures k <= |authors|
    ensures forall j :: 0 <= j < k ==> NameOk(authors[j])
    ensures k < |authors| ==> !NameOk(authors[k])
  {
    if authors == [] || !NameOk(authors[0]) then 0 else 1 + FirstUnnamed(authors[1..])
  }

  /** Messages for title, venue and year, in the order they are checked. */
  function FieldErrors(paper: JsValue): seq<string> {
    var year := Get(paper, "year");
    (if IsText(Get(paper, "title")) then [] else [TitleRequired])
    + (if IsText(Get(paper, "publishedIn")) then [] else [VenueRequired])
    + (if Truthy(year) then [] else [YearRequired])
    + (if Truthy(year) && !YearAfter1900(year) then [YearInvalid] else [])
  }

  /** The outcome of the `authors` check as written: the scan stops at the first entry
      without a usable name, and reading `.name` of a null entry there throws. */
  function AuthorErrors(authors: JsValue): Completion<seq<string>> {
    if !authors.Arr? || |authors.items| == 0 then Normal([AuthorsRequired])
    else
      var k := FirstUnnamed(authors.items);
      if k == |authors.items| then Normal([])
      else if Nullish(authors.items[k]) then TypeError
      else Normal([AuthorNameRequired])
  }

  /** What `validatePaperInput(paper)` returns, or that it throws. */
  function PaperErrors(paper: JsValue): Completion<seq<string>> {
    if Nullish(paper) then TypeError
    else match AuthorErrors(Get(paper, "authors"))
      case TypeError => TypeError
      case Normal(tail) => Normal(FieldErrors(paper) + tail)
  }

  // ---------------------------------------------------------------------------------------
  // The validator

  /** `validatePaperInput`: checks the fields in order, pushing one message per failed
      check, and scans the authors until the first one without a name. */
  method ValidatePaperInput(paper: JsValue) returns (outcome: Completion<seq<string>>)
    ensures outcome == PaperErrors(paper)
  {
    if Nullish(paper) {
      // `const {title, publishedIn, year, authors} = paper` throws
      return TypeError;
    }
    var title, publishedIn, year, authors :=
      Get(paper, "title"), Get(paper, "publishedIn"), Get(paper, "year"), Get(paper, "authors");
    var errors: seq<string> := [];
    if !IsText(title) {
      errors := errors + [TitleRequired];
    }
    if !IsText(publishedIn) {
      errors := errors + [VenueRequired];
    }
    if !Truthy(year) {
      errors := errors + [YearRequired];
    }
    if Truthy(year) && (!NumberOf(year).Integral? || NumberOf(year).n <= 1900) {
      errors := errors + [YearInvalid];
    }
    if !authors.Arr? || |authors.items| == 0 {
      assert errors == FieldErrors(paper);
      errors := errors + [AuthorsRequired];
      assert PaperErrors(paper) == Normal(errors);
    } else {
      var i := 0;
      while i < |authors.items|
        invariant 0 <= i <= |authors.items|
        invariant forall j :: 0 <= j < i ==> NameOk(authors.items[j])
        invariant errors == FieldErrors(paper)
      {
        var name := Prop(authors.items[i], "name");
        if name.TypeError? {
          return TypeError;
        }
        if !IsText(name.value) {
          errors := errors + [AuthorNameRequired];
          FirstUnnamedAt(authors.items, i);
          assert PaperErrors(paper) == Normal(errors);
          break;
        }
        i := i + 1;
      }
      if i == |authors.items| {
        FirstUnnamedAt(authors.items, i);
        assert AuthorErrors(authors) == Normal([]);
        assert FieldErrors(paper) + [] == errors;
      }
    }
    return Normal(errors);
  }

  /** `FirstUnnamed` is the only position that has named authors before it and an
      unnamed one (or the end) at it. */
  lemma FirstUnnamedAt(authors: seq<JsValue>, i: nat)
    requires i <= |authors|
    requires forall j :: 0 <= j < i ==> NameOk(authors[j])
    requires i < |authors| ==> !NameOk(authors[i])
    ensures FirstUnnamed(authors) == i
  {
  }

  // ---------------------------------------------------------------------------------------
  // Properties of validatePaperInput

  /** The validator answers with no messages exactly for the bodies `PaperIsValid` describes. */
  lemma PaperAcceptedIffValid(paper: JsValue)
    ensures PaperErrors(paper) == Normal([]) <==> PaperIsValid(paper)
  {
    var authors := Get(paper, "authors");
    if PaperIsValid(paper) {
    } else if !Nullish(paper) && authors.Arr? && |authors.items| > 0 && FieldErrors(paper) == [] {
      var a :| a in authors.items && !NameOk(a);
      var k := FirstUnnamed(authors.items);
      assert k < |authors.items|;
    }
  }

  /** `xs` is `ys` with some elements left out (order kept). */
  predicate IsSubsequence(xs: seq<string>, ys: seq<string>)
    decreases |ys|
  {
    xs == [] || (ys != [] && ((xs[0] == ys[0] && IsSubsequence(xs[1..], ys[1..])) || IsSubsequence(xs, ys[1..])))
  }

  predicate Distinct(xs: seq<string>) {
    forall i, j :: 0 <= i < j < |xs| ==> xs[i] != xs[j]
  }

  lemma {:induction false} SubsequenceMembers(xs: seq<string>, ys: seq<string>, x: string)
    requires IsSubsequence(xs, ys) && x in xs
    ensures x in ys
    decreases |ys|
  {
    if xs[0] == ys[0] && IsSubsequence(xs[1..], ys[1..]) {
      if x != xs[0] {
        SubsequenceMembers(xs[1..], ys[1..], x);
      }
    } else {
      SubsequenceMembers(xs, ys[1..], x);
    }
  }

  /** Leaving elements out of a list without repeats cannot create a repeat. */
  lemma {:induction false} SubsequenceOfDistinct(xs: seq<string>, ys: seq<string>)
    requires IsSubsequence(xs, ys) && Distinct(ys)
    ensures Distinct(xs)
    decreases |ys|
  {
    if xs == [] {
    } else if xs[0] == ys[0] && IsSubsequence(xs[1..], ys[1..]) {
      assert Distinct(ys[1..]);
      SubsequenceOfDistinct(xs[1..], ys[1..]);
      forall j | 0 < j < |xs| ensures xs[0] != xs[j] {
        assert xs[j] in xs[1..];
        SubsequenceMembers(xs[1..], ys[1..], xs[j]);
        assert ys[0] !in ys[1..];
      }
    } else {
      assert Distinct(ys[1..]);
      SubsequenceOfDistinct(xs, ys[1..]);
    }
  }

  /** One optional message in front of a subsequence of the rest of the order. */
  lemma OptionalHead(b: bool, m: string, xs: seq<string>, ys: seq<string>)
    requires IsSubsequence(xs, ys)
    ensures IsSubsequence((if b then [m] else []) + xs, [m] + ys)
  {
    var zs := (if b then [m] else []) + xs;
    if b {
      assert zs[0] == m && zs[1..] == xs;
    } else {
      assert zs == xs;
      assert ([m] + ys)[1..] == ys;
    }
  }

  /** Messages come out in the fixed order title, venue, year required, valid year, authors,
      and none is reported twice — in particular "Author name is required" at most once,
      however many authors lack a name. */
  lemma PaperErrorsOrderedAndDistinct(paper: JsValue)
    requires PaperErrors(paper).Normal?
    ensures IsSubsequence(PaperErrors(paper).value, PaperMessageOrder)
    ensures Distinct(PaperErrors(paper).value)
  {
    var errors := PaperErrors(paper).value;
    var year := Get(paper, "year");
    var tail := AuthorErrors(Get(paper, "authors")).value;
    var order := PaperMessageOrder;
    PickedInOrder(!IsText(Get(paper, "title")), !IsText(Get(paper, "publishedIn")),
      !Truthy(year), Truthy(year) && !YearAfter1900(year), tail);
    MessageOrderDistinct();
    SubsequenceOfDistinct(errors, order);
  }

  /** Optional title, venue and year messages followed by at most one authors message keep
      the order of `PaperMessageOrder`. */
  lemma PickedInOrder(noTitle: bool, noVenue: bool, noYear: bool, badYear: bool, tail: seq<string>)
    requires tail == [] || tail == [AuthorsRequired] || tail == [AuthorNameRequired]
    ensures IsSubsequence(
      (if noTitle then [TitleRequired] else []) + (if noVenue then [VenueRequired] else [])
      + (if noYear then [YearRequired] else []) + (if badYear then [YearInvalid] else []) + tail,
      PaperMessageOrder)
  {
    var a := if noTitle then [TitleRequired] else [];
    var b := if noVenue then [VenueRequired] else [];
    var c := if noYear then [YearRequired] else [];
    var d := if badYear then [YearInvalid] else [];
    assert a + b + c + d + tail == a + (b + (c + (d + tail)));
    YearsAndAuthorsInOrder(noYear, badYear, tail);
    var o2 := [YearRequired, YearInvalid, AuthorsRequired, AuthorNameRequired];
    OptionalHead(noVenue, VenueRequired, c + (d + tail), o2);
    var o1 := [VenueRequired] + o2;
    OptionalHead(noTitle, TitleRequired, b + (c + (d + tail)), o1);
    assert [TitleRequired] + o1 == PaperMessageOrder;
  }

  lemma YearsAndAuthorsInOrder(noYear: bool, badYear: bool, tail: seq<string>)
    requires tail == [] || tail == [AuthorsRequired] || tail == [AuthorNameRequired]
    ensures IsSubsequence(
      (if noYear then [YearRequired] else []) + ((if badYear then [YearInvalid] else []) + tail),
      [YearRequired, YearInvalid, AuthorsRequired, AuthorNameRequired])
  {
    var d := if badYear then [YearInvalid] else [];
    var o4 := [AuthorsRequired, AuthorNameRequired];
    TailInOrder(tail);
    OptionalHead(badYear, YearInvalid, tail, o4);
    var o3 := [YearInvalid] + o4;
    OptionalHead(noYear, YearRequired, d + tail, o3);
    assert [YearRequired] + o3 == [YearRequired, YearInvalid, AuthorsRequired, AuthorNameRequired];
  }

  lemma TailInOrder(tail: seq<string>)
    requires tail == [] || tail == [AuthorsRequired] || tail == [AuthorNameRequired]
    ensures IsSubsequence(tail, [AuthorsRequired, AuthorNameRequired])
  {
    assert IsSubsequence([], []);
    OptionalHead(tail == [AuthorNameRequired], AuthorNameRequired, [], []);
    OptionalHead(tail == [AuthorsRequired], AuthorsRequired,
      if tail == [AuthorNameRequired] then tail else [], [AuthorNameRequired]);
  }

  lemma MessageOrderDistinct()
    ensures Distinct(PaperMessageOrder)
  {
  }

  /** The two year messages never appear together: a missing, false or zero year gets only
      "Published year is required", and a present year that is not an integer after 1900
      (1900 itself, say) gets only "Valid year after 1900 is required". */
  lemma YearMessagesExclusive(paper: JsValue)
    requires PaperErrors(paper).Normal?
    ensures var errors := PaperErrors(paper).value;
      && !(YearRequired in errors && YearInvalid in errors)
      && (YearRequired in errors <==> !Truthy(Get(paper, "year")))
      && (YearInvalid in errors <==> Truthy(Get(paper, "year")) && !YearAfter1900(Get(paper, "year")))
  {
    var errors := PaperErrors(paper).value;
    var year := Get(paper, "year");
    var tail := AuthorErrors(Get(paper, "authors")).value;
    var head := (if IsText(Get(paper, "title")) then [] else [TitleRequired])
      + (if IsText(Get(paper, "publishedIn")) then [] else [VenueRequired]);
    var y := (if Truthy(year) then [] else [YearRequired])
      + (if Truthy(year) && !YearAfter1900(year) then [YearInvalid] else []);
    assert errors == head + y + tail;
    assert YearRequired !in head && YearInvalid !in head;
    assert YearRequired !in tail && YearInvalid !in tail;
  }

  lemma MissingAndSmallYears()
    ensures YearAfter1900(Int(1901)) && !YearAfter1900(Int(1900))
    ensures !Truthy(Undefined) && !Truthy(Int(0)) && Truthy(Int(1900))
    ensures YearAfter1900(Str("2024")) && !YearAfter1900(Str("1900")) && !YearAfter1900(Fraction)
  {
    assert Trim("2024") == "2024";
    assert DecimalValue("2024") == 2024 by {
      assert "2024"[..3] == "202" && "202"[..2] == "20" && "20"[..1] == "2" && "2"[..0] == "";
    }
    assert Trim("1900") == "1900";
    assert DecimalValue("1900") == 1900 by {
      assert "1900"[..3] == "190" && "190"[..2] == "19" && "19"[..1] == "1" && "1"[..0] == "";
    }
  }

  /** A `year` string whose digits reach the double overflow bound is `Infinity` for
      `Number()`, so it is not a valid year. */
  lemma {:induction false} OverflowingYearRejected(n: nat)
    requires n >= DoubleOverflow
    ensures Truthy(Str(Show(n))) && !YearAfter1900(Str(Show(n)))
  {
    TrimDigits(Show(n));
    DecimalValueOfShow(n);
  }

  // ---------------------------------------------------------------------------------------
  // A null author entry: the scan throws instead of reporting the missing name

  /** The `authors` check as its comment describes it: a non-empty array whose every entry
      has a non-blank name, with one message when some entry has none. */
  function IntendedAuthorErrors(authors: JsValue): (errors: seq<string>)
    ensures errors == [] <==> authors.Arr? && |authors.items| > 0 && forall a :: a in authors.items ==> NameOk(a)
    ensures errors == [] || errors == [AuthorsRequired] || errors == [AuthorNameRequired]
  {
    if !authors.Arr? || |authors.items| == 0 then [AuthorsRequired]
    else if forall a :: a in authors.items ==> NameOk(a) then []
    else [AuthorNameRequired]
  }

  /** `validatePaperInput` with a null or undefined author entry counted as one without a
      name: it throws only when the body itself is null or undefined. */
  function IntendedPaperErrors(paper: JsValue): (r: Completion<seq<string>>)
    ensures r.TypeError? <==> Nullish(paper)
    ensures r == Normal([]) <==> PaperIsValid(paper)
  {
    if Nullish(paper) then TypeError
    else Normal(FieldErrors(paper) + IntendedAuthorErrors(Get(paper, "authors")))
  }

  /** Whenever the validator as written returns, it returns what the intended one does. */
  lemma AsWrittenAgreesWhenItReturns(paper: JsValue)
    requires PaperErrors(paper).Normal?
    ensures PaperErrors(paper) == IntendedPaperErrors(paper)
  {
    var authors := Get(paper, "authors");
    if authors.Arr? && |authors.items| > 0 {
      var k := FirstUnnamed(authors.items);
      if k < |authors.items| {
        assert authors.items[k] in authors.items;
      } else {
        forall a | a in authors.items ensures NameOk(a) {
          var j :| 0 <= j < |authors.items| && authors.items[j] == a;
        }
      }
    }
  }

  /** `{"title": "T", "publishedIn": "V", "year": 2020, "authors": [null]}` makes the validator
      throw, where a "Author name is required" answer was meant. */
  lemma NullAuthorThrows()
    ensures var paper := Obj(map["title" := Str("T"), "publishedIn" := Str("V"), "year" := Int(2020), "authors" := Arr([Null])]);
      PaperErrors(paper) == TypeError && IntendedPaperErrors(paper) == Normal([AuthorNameRequired])
  {
    var paper := Obj(map["title" := Str("T"), "publishedIn" := Str("V"), "year" := Int(2020), "authors" := Arr([Null])]);
    assert Trim("T") == "T" && Trim("V") == "V";
    assert FieldErrors(paper) == [];
    assert Null in [Null] && !NameOk(Null);
    assert IntendedAuthorErrors(Arr([Null])) == [AuthorNameRequired];
    assert FieldErrors(paper) + [AuthorNameRequired] == [AuthorNameRequired];
  }

  // ---------------------------------------------------------------------------------------
  // validateAuthorInput

  /** `validateAuthorInput`: no message, or exactly "Name is required" when the body has no
      non-blank string `name`; reading `.name` of a null body throws. */
  function ValidateAuthorInput(author: JsValue): (r: Completion<seq<string>>)
    ensures r.TypeError? <==> Nullish(author)
    ensures r.Normal? ==> (r.value == [] <==> NameOk(author))
    ensures r.Normal? ==> r.value == [] || r.value == [NameRequired]
  {
    match Prop(author, "name")
    case TypeError => TypeError
    case Normal(name) => Normal(if IsText(name) then [] else [NameRequired])
  }

  /** A name made only of white space (spaces, tabs, line breaks, no-break spaces …) is
      rejected, and one with any visible character is accepted. */
  lemma BlankNameRejected(name: string)
    ensures ValidateAuthorInput(Obj(map["name" := Str(name)]))
      == Normal(if IsBlank(name) then [NameRequired] else [])
  {
    TrimEmptyIffBlank(name);
  }
}
