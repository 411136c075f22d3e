/** `validateResourceId`: the `:id` path parameter of the paper and author endpoints must be
    a positive integer. */
module ResourceId {
  import opened Text
  import opened JsValues
  import opened Http

  /** `validateResourceId(req, res, next)` on `req.params`. `id` is `Number(params.id)` for a
      non-empty parameter and null otherwise; `!id` turns away null, 0 and NaN, and the
      remaining tests turn away fractions and negatives. */
  function ValidateResourceId(params: map<string, string>): (r: Outcome)
    ensures r == Next <==>
      "id" in params && IsDigits(Trim(params["id"])) && 0 < DecimalValue(Trim(params["id"])) < DoubleOverflow
    ensures r != Next ==> r == Respond(InvalidIdFormat)
  {
    var id: Option<NumView> := if "id" in params && params["id"] != "" then Some(NumberOfString(params["id"])) else None;
    if id.None? || !id.value.Integral? || id.value.n <= 0 then Respond(InvalidIdFormat) else Next
  }

  /** Every positive integer below the double overflow bound, spelled in decimal, is a valid
      id, also with white space around it as `Number` ignores it. */
  lemma {:induction false} EveryPositiveIdAccepted(n: nat)
    requires 0 < n < DoubleOverflow
    ensures ValidateResourceId(map["id" := Show(n)]) == Next
    ensures ValidateResourceId(map["id" := " " + Show(n) + "\n"]) == Next
  {
    var s := Show(n);
    TrimDigits(s);
    DecimalValueOfShow(n);
    var padded := " " + s + "\n";
    assert padded[1..] == s + "\n";
    assert TrimStart(padded) == s + "\n";
    assert (s + "\n")[..|s|] == s;
    assert TrimEnd(s + "\n") == TrimEnd(s);
  }

  /** Ids that are turned away: a missing or empty parameter, zero, and text that is not a
      run of digits. */
  lemma RejectedIds()
    ensures ValidateResourceId(map[]) == Respond(InvalidIdFormat)
    ensures ValidateResourceId(map["id" := ""]) == Respond(InvalidIdFormat)
    ensures ValidateResourceId(map["id" := "0"]) == Respond(InvalidIdFormat)
    ensures ValidateResourceId(map["id" := "00"]) == Respond(InvalidIdFormat)
    ensures ValidateResourceId(map["id" := "-3"]) == Respond(InvalidIdFormat)
    ensures ValidateResourceId(map["id" := "1.5"]) == Respond(InvalidIdFormat)
    ensures ValidateResourceId(map["id" := "abc"]) == Respond(InvalidIdFormat)
  {
    TrimDigits("0");
    TrimDigits("00");
    assert DecimalValue("00") == 0 by {
      assert "00"[..1] == "0" && "0"[..0] == "";
    }
    assert !IsDigit('-') && !IsDigit('.') && !IsDigit('a');
    assert TrimStart("-3") == "-3" && TrimStart("1.5") == "1.5" && TrimStart("abc") == "abc";
    assert TrimEnd("-3") == "-3" && TrimEnd("1.5") == "1.5" && TrimEnd("abc") == "abc";
  }

  /** A digit run too long for a double is `Infinity`, which `Number.isInteger` turns away. */
  lemma {:induction false} OverflowingIdRejected(n: nat)
    requires n >= DoubleOverflow
    ensures ValidateResourceId(map["id" := Show(n)]) == Respond(InvalidIdFormat)
  {
    TrimDigits(Show(n));
    DecimalValueOfShow(n);
  }
}
