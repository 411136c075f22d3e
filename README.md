# Request validation of the paper/author catalogue API

This project models the validation middleware of the catalogue's Express API
(`assignment2/src/middleware.js`). It covers these checks:

- the two request-body checks, which return ordered lists of error messages:
  `validatePaperInput` and `validateAuthorInput`;
- the two query-string checks of the list endpoints, which accept or reject the query and
  write the parsed `year`, `limit` and `offset` back into `req.query`;
- the `:id` path-parameter check;
- the mapping from typed errors to an HTTP status and a fixed body in `errorHandler`.

The middleware does not write a response here. It returns `Next` (the middleware calls
`next()`) or `Respond(Response(status, error, message))`. Request bodies are values of
`JsValues.JsValue`: what a parsed JSON body can hold, plus `undefined` for a missing property.
Query values are `QueryValue`: a string, a list, a dictionary, or a number written back by a
validator. `req.query` is the `query` field of a `Request` object, and the query validators
overwrite it in place.

Files:
- `text.dfy`: JavaScript white space, `trim()`, digit strings, and their decimal value.
- `js_values.dfy`: JSON-body values, truthiness, property reads that throw on null, and `Number()`.
- `http.dfy`: responses and outcomes.
- `body_validation.dfy`, `query_validation.dfy`, `resource_id.dfy`, `error_handler.dfy`: the middleware.

The wider design describes a persistence layer: deduplication of authors and a guard on
author deletion. In this version of the code `assignment2/src/database.js` contains only
comments, so there is nothing to model there. The model follows the code that exists. The
comments at `middleware.js:94` and `:98` promise defaults of 10 for `limit` and 0 for
`offset`. The code writes neither, and neither does the model (`NoDefaultsWritten`).

## Model

| member | source | states |
|---|---|---|
| `Text.TrimEmptyIffBlank` | assignment2/src/middleware.js:74-76 | `s.trim()` is empty exactly when every character of `s` is JavaScript white space |
| `Text.DecimalValueOfShow` | assignment2/src/middleware.js:114-117 | `parseInt` of the decimal spelling of `n` gives back `n` |
| `Text.NumberTextReadsBack` | assignment2/src/middleware.js:114-121 | the text of the number stored for digit value `n` passes `/^\d+$/` exactly when `n` is below 10^21 - 2^16, the least value `parseInt` rounds to 1e21, and then it reads back as `n` |
| `JsValues.IsTextIffVisible` | assignment2/src/middleware.js:31 | the "non-empty string" test holds exactly for strings with a character that is not white space |
| `JsValues.NumberOf` | assignment2/src/middleware.js:37-40 | a value whose `Number()` is a non-zero integer is truthy, so the year check reaches its second test |
| `JsValues.NumberOfString` | assignment2/src/middleware.js:263 | for the numerals the model reads (white space around a digit run), `Number(s)` is a positive integer exactly when the digit run's value is positive and below the double overflow bound 2^1024 - 2^970, and then it is that value |
| `BodyValidation.FirstUnnamed` | assignment2/src/middleware.js:47-52 | the scan stops at the first author entry without a non-blank name; all entries before it have one |
| `BodyValidation.ValidatePaperInput` | assignment2/src/middleware.js:9-56 | the loop with its `break` returns exactly the specified message list, or throws where the source throws |
| `BodyValidation.PaperAcceptedIffValid` | assignment2/src/middleware.js:28-55 | no messages exactly when title and venue are non-blank strings, `Number(year)` is an integer after 1900, and `authors` is a non-empty array whose every entry has a non-blank name |
| `BodyValidation.PaperErrorsOrderedAndDistinct` | assignment2/src/middleware.js:29-53 | messages keep the order title, venue, year required, valid year, authors, and none appears twice, so "Author name is required" appears at most once |
| `BodyValidation.YearMessagesExclusive` | assignment2/src/middleware.js:37-42 | the two year messages never come together: "required" exactly for a falsy year, "valid year" exactly for a truthy year that is not an integer after 1900 |
| `BodyValidation.MissingAndSmallYears` | assignment2/src/middleware.js:37-42 | 1901 and "2024" pass, but 1900, "1900" and a fraction do not; a missing year and 0 are falsy |
| `BodyValidation.OverflowingYearRejected` | assignment2/src/middleware.js:37-42 | a `year` string of digits at or above the double overflow bound is `Infinity` for `Number()` and gets "Valid year after 1900 is required" |
| `BodyValidation.NullAuthorThrows` | assignment2/src/middleware.js:47-48 | an author entry of `null` makes the check throw where the intended check reports "Author name is required" |
| `BodyValidation.IntendedAuthorErrors` | assignment2/src/middleware.js:44-53 | corrected authors check: no message exactly for a non-empty array of named entries, otherwise one of the two author messages |
| `BodyValidation.IntendedPaperErrors` | assignment2/src/middleware.js:9-56 | corrected paper check: throws only for a null body, and is empty exactly for valid papers |
| `BodyValidation.AsWrittenAgreesWhenItReturns` | assignment2/src/middleware.js:44-53 | whenever the check as written returns, its messages are the corrected check's |
| `BodyValidation.ValidateAuthorInput` | assignment2/src/middleware.js:59-79 | returns `[]` or exactly `["Name is required"]`, the empty list exactly when `name` is a non-blank string; throws only on a null body |
| `BodyValidation.BlankNameRejected` | assignment2/src/middleware.js:74-76 | a whitespace-only name is rejected and any other name is accepted |
| `QueryValidation.NumericWrite` | assignment2/src/middleware.js:149-160 | an integer is written back only when the parameter was given and passed its own check, and it is the parsed value |
| `QueryValidation.PaperQueryRewrite` | assignment2/src/middleware.js:113-173 | no key is added or removed; only `year`, `limit` and `offset` can change, each to the decimal value of its own digit text and within its bound |
| `QueryValidation.AuthorQueryRewrite` | assignment2/src/middleware.js:214-238 | no key is added or removed; only `limit` and `offset` can change, each to its parsed value within its bound |
| `QueryValidation.CheckNumericParam` | assignment2/src/middleware.js:149-160 | one numeric check fails exactly when its rule rejects the value, and the query gains exactly the specified write-back |
| `QueryValidation.CheckAuthorFilter` | assignment2/src/middleware.js:130-147 | the scan over an `author` list flags the filter exactly when the list is empty or some entry is not a non-blank string |
| `QueryValidation.ValidatePaperQueryParams` | assignment2/src/middleware.js:82-183 | `next()` exactly when every check passes, otherwise the fixed 400 answer; the new `req.query` is the specified rewrite of the old one |
| `QueryValidation.ValidateAuthorQueryParams` | assignment2/src/middleware.js:186-248 | the same for the author list endpoint, with `name` and `affiliation` as text filters |
| `QueryValidation.NumericWriteStable` | assignment2/src/middleware.js:113-124 | a second check of a written-back integer writes nothing different; a value that passed passes again exactly when it is below 10^21 - 2^16 |
| `QueryValidation.PaperRewriteIdempotent` | assignment2/src/middleware.js:113-173 | for every query, a second run of the paper validator leaves `req.query` as the first run left it |
| `QueryValidation.PaperQueryAcceptedAgain` | assignment2/src/middleware.js:113-173 | an accepted paper query is accepted again after its rewrite exactly when its `year` and `offset` values are below 10^21 - 2^16 |
| `QueryValidation.AuthorRewriteIdempotent` | assignment2/src/middleware.js:214-238 | for every query, a second run of the author validator leaves `req.query` as the first run left it |
| `QueryValidation.AuthorQueryAcceptedAgain` | assignment2/src/middleware.js:214-238 | an accepted author query is accepted again after its rewrite exactly when its `offset` value is below 10^21 - 2^16 |
| `QueryValidation.LargeValuesNotAcceptedTwice` | assignment2/src/middleware.js:113-173 | an `offset` or `year` of 10^21 - 2^16 or more (21 nines included) passes once, but the stored number prints as "1e+21" and so on, and the next run rejects it |
| `QueryValidation.LimitAcceptance` | assignment2/src/middleware.js:149-160 | a `limit` string passes exactly when it is empty or a digit string with value 1..100, and each such value written out is stored as that integer |
| `QueryValidation.YearAcceptance` | assignment2/src/middleware.js:113-124 | a `year` string passes exactly when it is empty or a digit string with value after 1900, and each such year written out is stored as that integer |
| `QueryValidation.OffsetAcceptance` | assignment2/src/middleware.js:162-173 | every digit string is an acceptable `offset`, so the `< 0` test never fires; any other non-empty text is rejected |
| `QueryValidation.RejectedLimits` | assignment2/src/middleware.js:149-160 | "0", "101", "-5", "+5", "5.0" and " 5" are rejected as limits |
| `QueryValidation.RejectedOffsetAndYear` | assignment2/src/middleware.js:113-124 | "-1" is rejected as an offset and "1900" as a year |
| `QueryValidation.ListValuedLimit` | assignment2/src/middleware.js:149-157 | a repeated `limit` key is rejected; a one-element list of digits is accepted and stored as its integer |
| `QueryValidation.AuthorListAcceptance` | assignment2/src/middleware.js:135-143 | an `author` list passes exactly when it is non-empty and every entry is a string with a character other than white space |
| `QueryValidation.NoDefaultsWritten` | assignment2/src/middleware.js:149-173 | an absent `limit` or `offset` stays absent: no default is filled in |
| `ResourceId.ValidateResourceId` | assignment2/src/middleware.js:252-275 | `next()` exactly when `id` is present and its trimmed text is a digit run with a positive value below the double overflow bound; otherwise the fixed 400 "Invalid ID format" answer |
| `ResourceId.EveryPositiveIdAccepted` | assignment2/src/middleware.js:263-272 | every positive integer below the double overflow bound, written in decimal, is a valid id, also with white space around it |
| `ResourceId.OverflowingIdRejected` | assignment2/src/middleware.js:263-265 | a digit run at or above the double overflow bound is `Infinity`, which is not an integer, so the id is rejected |
| `ResourceId.RejectedIds` | assignment2/src/middleware.js:263-272 | a missing or empty id, "0", "00", "-3", "1.5" and "abc" are rejected |
| `ErrorHandler.HandleError` | assignment2/src/middleware.js:278-304 | 404 exactly for `author_not_found` and `paper_not_found`, 400 exactly for `constraint`, 500 for every other type; only the 404 bodies have no message |
| `ErrorHandler.ResponsesIdentifyKnownErrors` | assignment2/src/middleware.js:281-303 | the three named error types get three different answers, and all other errors get the same generic one |

## Left out

- `requestLogger` and the `console.error` in `errorHandler` are logging only. The `res.status(...).json(...)` calls are modelled as returned `Outcome` and `Response` values.
- JSON parsing of the body and the query-string parser are not modelled. Their results are the inputs of the model.
- ValidateResourceId: the model's `Number()` of a string (`NumberOfString`) reads only white space around a run of decimal digits. The source's `Number` also reads signs, decimal points, exponents, radix prefixes and `Infinity`. So ids such as "+5", "5.0", "1e3" or "0x10" are accepted by the source but rejected by the model.
- ValidatePaperInput: for the same reason, a string `year` such as "2e3" or "+2000" passes the source's year check but gets "Valid year after 1900 is required" in the model. A numeric year in the JSON body is modelled exactly.
- NumericWrite: the source's `parseInt` keeps only 53 bits of precision, so a digit string above 2^53 is written back rounded, and one at or above the double overflow bound as `Infinity`. The model writes back the exact digit value. First-run acceptance does not change, because the `year` and `offset` checks only compare with a small bound and `limit` is at most 100. Second-run acceptance does not change either, because `NumberText` prints a stored value as the source prints the rounded one wherever the difference matters to `/^\d+$/`.
- PaperQueryRewrite, AuthorQueryRewrite, YearAcceptance: they state that the stored value is the exact digit value; the source stores the nearest double, as the line above says.
- NumberText: below 10^21 - 2^16 it prints the exact digit value where the source prints the rounded double. From 10^21 on it prints the exponent form of the exact value, where the source prints a double with at most 17 significant digits, or "Infinity". In every case the two texts agree on `/^\d+$/`, which is all the validators look at. ECMAScript also lets `parseInt` zero the digits after the 20th of a long numeral, which can move a value only for numerals within 10 of 10^21 - 2^16.
- NumberOfString: it reads only white space around a run of decimal digits. Signed, fractional, exponent and radix-prefix numerals ("+5", "5.0", "1e3", "0x10"), which `Number` reads as integers, are `NotInteger` here.
- NumberOfString: ECMAScript lets an engine convert a numeral with more than 20 significant digits after cutting it to 20 digits, rounded down or up. The model turns a digit run into `Infinity` exactly from 2^1024 - 2^970 on, so it can differ from an engine only for a numeral that close to the bound.
- `JsValues.Get` gives `undefined` for every key of a string, number or array. That is right for the keys the validators read (`title`, `publishedIn`, `year`, `authors`, `name`), but not for built-in properties such as `length`.
- `assignment2/src/database.js` and the routes in `assignment2/src/routes/` are not part of this model: their operation bodies are comments only. The unfinished copies `assignment2/backend/src/middleware.js` and `assignment1/src/middleware.js` and the `assignment3` front end are not part of this model either.

## Findings

| source | as written | input that shows it | evidently intended | confidence | as-written member | corrected member |
|---|---|---|---|---|---|---|
| assignment2/src/middleware.js:47-48 | the author scan reads `author.name` on each entry it reaches, so a `null` entry throws a TypeError and the route can only answer 500 | body `{"title":"T","publishedIn":"V","year":2020,"authors":[null]}` | an entry without a name, null included, gets the 400 message "Author name is required" | medium, not executed | `BodyValidation.NullAuthorThrows` | `BodyValidation.IntendedPaperErrors` |
