# Proptech price check and recommendations: a Dafny model

This project models the logic inside two React components of the Proptech
frontend.

- **Recommendations panel** (`PropertyRecommendations.jsx`). The user keeps a
  working set of regions: added text is trimmed, and blank text or an exact
  duplicate is ignored. A region's badge removes it. Asking for
  recommendations does nothing while the set is empty. Otherwise loading
  starts, the error is cleared and the set is sent to the estimation service.
  The service either returns a list, where a missing `recommendations` field
  reads as empty, or fails, and then the server's error text or a fixed
  message is shown. The grid displays at most the first six entries.
- **Price analysis card** (`PricePrediction.jsx`). The listing's price is
  stripped down to digits and points, read with `parseFloat` and divided by
  100000 to give lakhs. The bedroom field is read with `parseInt(…, 10)`, and
  NaN or 0 falls back to 1. Both go to the service with the city. The service's
  `price_variation` text then picks the trend icon and colour: "above" wins
  over "below", and anything else is neutral.

Layout:

- `js_text.dfy`: the JavaScript built-ins `trim` and `includes`.
  ECMAScript WhiteSpace and LineTerminator code points are what `trim` removes.
- `js_number.dfy`: JavaScript numbers (NaN, ±Infinity, finite) and the global
  parsers `parseFloat` and `parseInt` with radix 10.
- `service.dfy`: how an awaited call settles, and the `error || fallback`
  message rule.
- `property_recommendations.dfy`: the list operations as functions, and the
  component as a class whose handlers update its state fields.
- `price_prediction.dfy`: the price and bedroom normalisation, the variation
  classification, and the card's state as a class.

Each async handler is split in two. One method runs the part before `await`,
and another runs the part after the call settles. A third method composes
them, and takes the service's answer (`Reply`) as a parameter.

This is the code's behaviour, not an idealised version of it:

- A price with no readable number is sent onward as NaN.
- A negative bedroom count such as "-2" passes through unchanged.
- The recommendations are truncated but not de-duplicated.
- Removal drops every equal entry. Under the set's invariant there is only one.
- The price check is the service's text, tested with `includes`. The client
  has no threshold comparison.
- `parseFloat` reads ".5" as 0.5, so a leading point followed by a digit is a
  valid price.

## Model

| member | source | states |
|---|---|---|
| JsText.TrimStart | frontend/src/components/PropertyRecommendations.jsx:18 | the result is a suffix of the input, everything dropped is white space, and the result does not start with white space |
| JsText.TrimEnd | frontend/src/components/PropertyRecommendations.jsx:18 | the result is a prefix of the input, everything dropped is white space, and the result does not end with white space |
| JsText.Trim | frontend/src/components/PropertyRecommendations.jsx:18-19 | `trim()` gives a slice of the input with neither end white space |
| JsText.TrimPadding | frontend/src/components/PropertyRecommendations.jsx:18-19 | everything `trim()` removes, before and after the slice, is white space |
| JsText.TrimUnique | frontend/src/components/PropertyRecommendations.jsx:18-19 | white space, then a trimmed core, then white space trims to exactly that core |
| JsText.TrimStartOfPadded | frontend/src/components/PropertyRecommendations.jsx:18 | leading white space before a non-white-space start is dropped, and nothing else is |
| JsText.TrimEndOfPadded | frontend/src/components/PropertyRecommendations.jsx:18 | trailing white space after a non-white-space end is dropped, and nothing else is |
| JsText.TrimFixedIff | frontend/src/components/PropertyRecommendations.jsx:18-19 | a text is its own trim exactly when it is trimmed, so trimming is idempotent |
| JsText.TrimEmptyIff | frontend/src/components/PropertyRecommendations.jsx:18 | `searchInput.trim()` is falsy (empty) exactly when the input is all white space |
| JsText.Includes | frontend/src/components/PricePrediction.jsx:39-41 | `includes` holds exactly when the text occurs at some index |
| JsNumber.Truthy | frontend/src/components/PricePrediction.jsx:21 | the test behind the fallback to 1: NaN and zero are falsy, every other number truthy (definition only; its use is stated by `BedroomCount`) |
| JsNumber.DigitRun | frontend/src/components/PricePrediction.jsx:21 | the digit run at the start of a text: all digits, and followed by a non-digit or the end |
| JsNumber.LiteralValue | frontend/src/components/PricePrediction.jsx:19 | the value of an unsigned decimal literal is never negative |
| JsNumber.ScaleNonNegative | frontend/src/components/PricePrediction.jsx:19 | proof step: scaling a non-negative mantissa up or down by a power of ten keeps it non-negative |
| JsNumber.ScanExponent | frontend/src/components/PricePrediction.jsx:19 | an exponent part starts with `e` or `E` and spans at least two characters |
| JsNumber.ScanUnsigned | frontend/src/components/PricePrediction.jsx:19 | `parseFloat` finds a literal exactly when the text starts with a digit, or with a point and then a digit; the literal is well formed and lies inside the text |
| JsNumber.LiteralAt | frontend/src/components/PricePrediction.jsx:19 | the literal made of the leading digits, the optional point and fraction digits, and an optional exponent is well formed and inside the text |
| JsNumber.SplitSign | frontend/src/components/PricePrediction.jsx:19-21 | the white space and the one sign `parseFloat` and `parseInt` skip, and whether that sign was a minus (definition; stated by `SplitSignMeaning`) |
| JsNumber.SplitSignMeaning | frontend/src/components/PricePrediction.jsx:19-21 | what the parsers skip is a prefix of white space, optionally ending in one sign, and what is left is the rest of the text; without a sign the rest starts with neither white space nor a sign; the flag is set exactly when the skipped sign is a minus |
| JsNumber.ParseFloat | frontend/src/components/PricePrediction.jsx:19 | a finite result is non-negative exactly when no minus sign was read, or it is zero |
| JsNumber.ParseInt | frontend/src/components/PricePrediction.jsx:21 | `parseInt(s, 10)` is never infinite, is always integral, and is NaN exactly when no digit follows the white space and sign; its value is stated by `ParseIntOfShape` |
| JsNumber.DecimalString | frontend/src/components/PricePrediction.jsx:21 | the canonical spelling of a natural number: non-empty digits, no leading zero, and it denotes that number |
| JsNumber.DigitRunOfDigits | frontend/src/components/PricePrediction.jsx:21 | in an all-digit text the digit run is the whole text |
| JsNumber.ParseIntDecimalString | frontend/src/components/PricePrediction.jsx:21 | `parseInt` reads back the decimal spelling of every natural number |
| JsNumber.ParseIntOfDigits | frontend/src/components/PricePrediction.jsx:21 | `parseInt` of a text of digits is the number the digits denote |
| JsNumber.DigitRunOfPrefix | frontend/src/components/PricePrediction.jsx:21 | the digit run of digits followed by a non-digit or the end is exactly those digits |
| JsNumber.ParseIntOfShape | frontend/src/components/PricePrediction.jsx:21 | `parseInt` of white space, an optional sign, digits and then anything not starting with a digit is the digits' value, negated after a minus |
| JsNumber.SplitSignOfShape | frontend/src/components/PricePrediction.jsx:19-21 | proof step: on that shape the parsers skip exactly the white space and the sign |
| JsNumber.SplitSignOfTrimmed | frontend/src/components/PricePrediction.jsx:19-21 | proof step: the sign test looks only at what the white-space skip leaves |
| JsNumber.ParseIntSigned | frontend/src/components/PricePrediction.jsx:21 | proof step: `parseInt` is the value of the digit run after the sign, negated after a minus |
| JsNumber.ParseFloatDecimalString | frontend/src/components/PricePrediction.jsx:19 | `parseFloat` reads back the decimal spelling of every natural number |
| JsNumber.SplitSignOfDigits | frontend/src/components/PricePrediction.jsx:19-21 | proof step: a text that starts with a digit has no white space or sign for the parsers to skip |
| JsNumber.ScanUnsignedOfDigits | frontend/src/components/PricePrediction.jsx:19 | an all-digit text is one literal with no fraction and no exponent, whose value is its digits' value |
| Wrappers.Option.GetOr | frontend/src/components/PropertyRecommendations.jsx:36 | the empty-list default for `result.recommendations`: the present value, or the default when the field is absent (definition only; its use is stated by `EndGetRecommendations`) |
| Service.ErrorText | frontend/src/components/PropertyRecommendations.jsx:38 | the message shown on failure is the server's text when it is present and non-empty, and the fallback otherwise; it is never empty when the fallback is not |
| PropertyRecommendations.Accepts | frontend/src/components/PropertyRecommendations.jsx:18 | the add guard: the trimmed input is non-empty and not already present (definition; stated by `WithRegion`) |
| PropertyRecommendations.WithRegion | frontend/src/components/PropertyRecommendations.jsx:18-19 | the set grows by one exactly when the trimmed input is non-empty and absent, and then only by appending; earlier entries keep their order; membership is the old set plus the non-empty trim |
| PropertyRecommendations.WithoutRegion | frontend/src/components/PropertyRecommendations.jsx:25 | `filter((r) => r !== region)` never lengthens the set; what it keeps is stated by `WithoutMembers`, `WithoutCounts` and `WithoutConcat` |
| PropertyRecommendations.Shown | frontend/src/components/PropertyRecommendations.jsx:126 | `slice(0, 6)` is the first min(6, n) recommendations, in order |
| PropertyRecommendations.AddKeepsWellFormed | frontend/src/components/PropertyRecommendations.jsx:18-19 | adding keeps the entries distinct, non-empty and trimmed |
| PropertyRecommendations.AddTwiceIsAddOnce | frontend/src/components/PropertyRecommendations.jsx:18 | adding the same text a second time changes nothing |
| PropertyRecommendations.WithoutConcat | frontend/src/components/PropertyRecommendations.jsx:25 | `filter` distributes over concatenation, so it keeps the order of what it keeps |
| PropertyRecommendations.WithoutMembers | frontend/src/components/PropertyRecommendations.jsx:25 | the entries left are exactly the entries not equal to the removed region |
| PropertyRecommendations.WithoutCounts | frontend/src/components/PropertyRecommendations.jsx:25 | every copy of the region is dropped, and every other entry keeps its number of occurrences |
| PropertyRecommendations.WithoutChangesIff | frontend/src/components/PropertyRecommendations.jsx:25 | removing leaves the set as it was exactly when the region is not in it |
| PropertyRecommendations.RemoveAt | frontend/src/components/PropertyRecommendations.jsx:25 | in a set without duplicates, removing entry i leaves the entries before and after it, in order |
| PropertyRecommendations.RemoveKeepsWellFormed | frontend/src/components/PropertyRecommendations.jsx:25 | removing keeps the entries distinct, non-empty and trimmed |
| PropertyRecommendations.RemoveUndoesAdd | frontend/src/components/PropertyRecommendations.jsx:18-25 | removing the region just added gives back the previous set |
| PropertyRecommendations.AddTrimmed | frontend/src/components/PropertyRecommendations.jsx:18-19 | a trimmed, non-empty text that is not yet present is appended unchanged |
| PropertyRecommendations.AddTwoDistinct | frontend/src/components/PropertyRecommendations.jsx:18-19 | two different trimmed texts added to an empty set give both, in order |
| PropertyRecommendations.CaseSensitiveExample | frontend/src/components/PropertyRecommendations.jsx:18-19 | adding "Andheri" and then "andheri" gives two entries: the comparison is case-sensitive |
| PropertyRecommendations.AddPresent | frontend/src/components/PropertyRecommendations.jsx:18 | an input whose trim is already present leaves the set unchanged |
| PropertyRecommendations.AddPadded | frontend/src/components/PropertyRecommendations.jsx:18 | a present region typed with surrounding spaces is not added again |
| PropertyRecommendations.TrimmedDuplicateExample | frontend/src/components/PropertyRecommendations.jsx:18 | " Andheri " is a duplicate of "Andheri" |
| PropertyRecommendations.BlankInputExample | frontend/src/components/PropertyRecommendations.jsx:18 | a blank input adds nothing |
| PropertyRecommendations.ShownAllIff | frontend/src/components/PropertyRecommendations.jsx:126 | the grid shows every recommendation exactly when there are at most six, and capping twice is capping once |
| PropertyRecommendations.ShownKeepsDuplicates | frontend/src/components/PropertyRecommendations.jsx:126 | the cap does not de-duplicate: repeated recommendations are shown repeatedly |
| PropertyRecommendations.RecommendationsPanel.constructor | frontend/src/components/PropertyRecommendations.jsx:10-14 | the initial state: no recommendations, not loading, no error, empty input, empty set |
| PropertyRecommendations.RecommendationsPanel.SetSearchInput | frontend/src/components/PropertyRecommendations.jsx:62 | typing replaces the search input |
| PropertyRecommendations.RecommendationsPanel.HandleAddRegion | frontend/src/components/PropertyRecommendations.jsx:16-22 | the set becomes `WithRegion` of the old set and input; the input is cleared only when it was accepted and otherwise kept; the set invariant is preserved |
| PropertyRecommendations.RecommendationsPanel.HandleRemoveRegion | frontend/src/components/PropertyRecommendations.jsx:24-26 | the set becomes the filtered old set, and the invariant is preserved |
| PropertyRecommendations.RecommendationsPanel.BeginGetRecommendations | frontend/src/components/PropertyRecommendations.jsx:28-35 | with an empty set nothing changes and nothing is sent; otherwise loading starts, the error is cleared and the set is sent |
| PropertyRecommendations.RecommendationsPanel.EndGetRecommendations | frontend/src/components/PropertyRecommendations.jsx:35-41 | loading ends either way; a response replaces the list, and an absent field reads as empty; a failure sets the error text and keeps the list |
| PropertyRecommendations.RecommendationsPanel.HandleGetRecommendations | frontend/src/components/PropertyRecommendations.jsx:28-42 | the whole handler: no state change and no request for an empty set; otherwise not loading at the end, with the new list and no error, or the error text and the old list |
| PricePrediction.StripPrice | frontend/src/components/PricePrediction.jsx:19 | `replace(/[^0-9.]/g, '')` leaves only digits and points and never lengthens the text |
| PricePrediction.StripConcat | frontend/src/components/PricePrediction.jsx:19 | stripping works piece by piece: it distributes over concatenation |
| PricePrediction.StripKeepsPriceText | frontend/src/components/PricePrediction.jsx:19 | digits and points are kept as they are, so stripping is idempotent |
| PricePrediction.StripIgnoresNoise | frontend/src/components/PricePrediction.jsx:19 | a character other than a digit or point, wherever it stands, does not change the result |
| PricePrediction.PointIndex | frontend/src/components/PricePrediction.jsx:19 | the index of the first point, or the length when there is none |
| PricePrediction.PlainValue | frontend/src/components/PricePrediction.jsx:19 | the value of a plain decimal is never negative |
| PricePrediction.PriceTextSign | frontend/src/components/PricePrediction.jsx:19 | proof step: stripped price text has no white space, sign or "Infinity" for `parseFloat` to read |
| PricePrediction.ParsePriceText | frontend/src/components/PricePrediction.jsx:19 | on stripped text `parseFloat` is never infinite; it is NaN exactly when no prefix is a plain decimal ("" and "." included); otherwise it is the value of the longest plain-decimal prefix ("1.2.3" reads as 1.2) |
| PricePrediction.ParseFloatOfPriceText | frontend/src/components/PricePrediction.jsx:19 | proof step: on stripped text `parseFloat` reads an unsigned literal |
| PricePrediction.ValueWithoutExponent | frontend/src/components/PricePrediction.jsx:19 | proof step: a literal with no exponent is worth its whole digits plus its fraction digits |
| PricePrediction.ScanOfShape | frontend/src/components/PricePrediction.jsx:19 | proof step: when no exponent follows, the scanned literal is the leading digits plus the optional fraction |
| PricePrediction.NoExponentAtPoint | frontend/src/components/PricePrediction.jsx:19 | proof step: price text offers no exponent where the literal ends |
| PricePrediction.NoPlainPrefix | frontend/src/components/PricePrediction.jsx:19 | proof step: text that starts with neither a digit nor a point and then a digit has no plain-decimal prefix |
| PricePrediction.ShapeOfScan | frontend/src/components/PricePrediction.jsx:19 | proof step: the literal found in price text is digits, an optional point and digits, and then the end or a second point |
| PricePrediction.LeadingDigits | frontend/src/components/PricePrediction.jsx:19 | proof step: the characters of the leading run are digits |
| PricePrediction.FractionDigits | frontend/src/components/PricePrediction.jsx:19 | proof step: after the point come digits, then the end of the text or a second point |
| PricePrediction.PrefixIsPlain | frontend/src/components/PricePrediction.jsx:19 | proof step: the scanned prefix is a plain decimal |
| PricePrediction.PrefixIsLongest | frontend/src/components/PricePrediction.jsx:19 | proof step: no longer prefix is a plain decimal |
| PricePrediction.PlainValueOfPrefix | frontend/src/components/PricePrediction.jsx:19 | proof step: the plain-decimal value of the prefix equals the scanned literal's value |
| PricePrediction.ToLakhs | frontend/src/components/PricePrediction.jsx:20 | `/ 100000` keeps NaN and infinities, and a finite result times 100000 is the input |
| PricePrediction.PriceInLakhs | frontend/src/components/PricePrediction.jsx:19-20 | the price sent is NaN or a finite non-negative number of lakhs, and NaN exactly when the stripped price has no plain-decimal prefix |
| PricePrediction.PriceInLakhsMeaning | frontend/src/components/PricePrediction.jsx:19-20 | a finite price sent, times 100000, is the value of the longest plain-decimal prefix of the stripped price |
| PricePrediction.BedroomCount | frontend/src/components/PricePrediction.jsx:21 | the bedroom count is the parsed integer when that is truthy, and falls back to 1 exactly when the parse is NaN or 0; it is never 0 |
| PricePrediction.BedroomCountOfDecimal | frontend/src/components/PricePrediction.jsx:21 | a bedroom field spelt as a natural number gives that number, with 0 giving 1 |
| PricePrediction.BedroomCountOfShape | frontend/src/components/PricePrediction.jsx:21 | on the shape `parseInt` accepts, the count is the signed value of the digits, or 1 when they are worth zero |
| PricePrediction.NegativeBedroomExample | frontend/src/components/PricePrediction.jsx:21 | "-2" gives -2: a negative count is sent as it is |
| PricePrediction.SuffixBedroomExample | frontend/src/components/PricePrediction.jsx:21 | "3 BHK" gives 3: text after the digits is ignored |
| PricePrediction.Request | frontend/src/components/PricePrediction.jsx:19-27 | the arguments sent: the city as the region, exactly `BedroomCount` of the bedroom field (never 0), and exactly `PriceInLakhs` of the price, which is NaN or a finite non-negative number of lakhs that, times 100000, is the longest plain-decimal prefix of the stripped price |
| PricePrediction.Classify | frontend/src/components/PricePrediction.jsx:39-43 | Above exactly when "above" occurs; Below exactly when "above" does not occur and "below" does |
| PricePrediction.VariationIcon | frontend/src/components/PricePrediction.jsx:36-45 | null exactly when there is no prediction; otherwise red up, green down or gray flat, by the classification |
| PricePrediction.VariationColor | frontend/src/components/PricePrediction.jsx:47-53 | "" exactly when there is no prediction; otherwise red, green or gray text, by the classification |
| PricePrediction.IconAgreesWithColor | frontend/src/components/PricePrediction.jsx:36-53 | the icon and the colour always take the same branch |
| PricePrediction.PriceAnalysis.constructor | frontend/src/components/PricePrediction.jsx:9-11 | the initial state: no prediction, not loading, no error |
| PricePrediction.PriceAnalysis.BeginAnalyzePrice | frontend/src/components/PricePrediction.jsx:13-27 | loading starts, the error is cleared, and the normalised request is sent |
| PricePrediction.PriceAnalysis.EndAnalyzePrice | frontend/src/components/PricePrediction.jsx:28-33 | loading ends either way; a response becomes the prediction; a failure sets the error text and keeps the previous prediction |
| PricePrediction.PriceAnalysis.HandleAnalyzePrice | frontend/src/components/PricePrediction.jsx:13-34 | the whole handler: the request is `Request(listing)`, loading is off at the end, and there is either the new prediction with no error, or the error text with the old prediction |

## Left out

- The network calls (`predictPrice`, `getRecommendations` in `frontend/src/api/mlApi.js`) and the axios instance are not modelled. The service is a parameter of type `Reply`: a response body, or a rejection carrying the server's optional `error` text. Base URL, headers and console logging are not part of this model.
- Rendering: JSX, CSS classes other than those the two variation functions return, badges, and the disabled state of buttons. `VariationIcon` returns the glyph and class name, not a React element.
- Interleaving of `await`s: a second click before the first call settles, and state updates from a stale call. Each handler is modelled as running to completion, or as its two halves.
- IEEE-754 doubles: `parseFloat` and `/ 100000` are exact reals here. Rounding, overflow to Infinity for very long digit strings, and negative zero are not modelled. Negative zero is falsy like zero, so `BedroomCount` is unaffected.
- `String(property.basicInfo.price)` of a non-string price, for example a number printed in exponent form: the listing's price and bedroom fields are taken as strings.
- UTF-16: strings are sequences of Unicode scalar values, not UTF-16 code units.
- A response body of the wrong shape (a missing `price_variation`, a non-array `recommendations`, a non-string server `error`) is not modelled, nor the TypeError it would raise.
- A listing without `basicInfo`: reading `property.basicInfo.price` on line 19 of `PricePrediction.jsx` throws inside the `try`, and lines 29-30 catch it, so the fallback error is set, no request is sent and the previous prediction is kept. That path is not modelled: a `Listing` always carries the three fields.
- How the request is serialised, for example NaN sent as JSON `null`, is not modelled.
- Request fingerprints, an in-flight registry, a result cache, a threshold price comparator and de-duplicating ranking do not exist in these components and are not modelled.
- JsNumber.ParseFloat: its own contract states only the sign of the result. Its value on price text is stated by `PricePrediction.ParsePriceText`, and its general meaning is its definition, including the exponent and "Infinity" branches.
- PropertyRecommendations.WithoutRegion: its own contract states only that it never lengthens the set. Its meaning is stated by `WithoutMembers`, `WithoutCounts`, `WithoutConcat`, `WithoutChangesIff` and `RemoveAt`.
