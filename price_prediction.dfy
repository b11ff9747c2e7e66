/**
 * The price-analysis card: the listing's price and bedroom count are
 * normalised into a request for the estimation service, and the service's
 * `price_variation` text picks the trend icon and colour.
 */
module PricePrediction {
  import opened Wrappers
  import opened JsText
  import opened JsNumber
  import opened Service

  /** Rupees in one lakh: the unit the service expects prices in. */
  const RupeesPerLakh: real := 100000.0

  const AnalyzeFallback: string := "Unable to analyze price. Region may not be in our dataset."

  /** The fields of `property.basicInfo` the card reads, as the strings
      `String(...)` and `parseInt` see. */
  datatype Listing = Listing(city: string, price: string, bedroom: string)

  /** The arguments of `predictPrice(region, bhk, userPrice)`. */
  datatype EstimateRequest = EstimateRequest(region: string, bhk: int, userPrice: Number)

  /** The response body the card displays. */
  datatype Prediction = Prediction(predictedPrice: string, userPrice: string, priceVariation: string)

  // ---------------------------------------------------------------------
  // Price normalisation

  predicate IsPriceChar(c: char)
  {
    IsDigit(c) || c == '.'
  }

  predicate IsPriceText(s: string)
  {
    forall i :: 0 <= i < |s| ==> IsPriceChar(s[i])
  }

  /** `s.replace(/[^0-9.]/g, '')`: the digits and points of `s`, in order. */
  function StripPrice(s: string): (r: string)
    ensures IsPriceText(r) && |r| <= |s|
  {
    if s == [] then [] else (if IsPriceChar(s[0]) then [s[0]] else []) + StripPrice(s[1..])
  }

  lemma {:induction false} StripConcat(a: string, b: string)
    ensures StripPrice(a + b) == StripPrice(a) + StripPrice(b)
  {
    if a == [] {
      assert a + b == b;
    } else {
      assert (a + b)[0] == a[0] && (a + b)[1..] == a[1..] + b;
      StripConcat(a[1..], b);
    }
  }

  /** Text that is already digits and points is left alone, so stripping
      is idempotent. */
  lemma {:induction false} StripKeepsPriceText(s: string)
    requires IsPriceText(s)
    ensures StripPrice(s) == s
  {
    if s != [] {
      StripKeepsPriceText(s[1..]);
    }
  }

  /** Any character other than a digit or a point, wherever it stands, has
      no effect on the result. */
  lemma StripIgnoresNoise(a: string, c: char, b: string)
    requires !IsPriceChar(c)
    ensures StripPrice(a + [c] + b) == StripPrice(a + b)
  {
    StripConcat(a + [c], b);
    StripConcat(a, [c]);
    StripConcat(a, b);
    assert StripPrice([c]) == [] + StripPrice([]);
  }

  /** At most one point in `p`. */
  predicate AtMostOnePoint(p: string)
  {
    forall i, j :: 0 <= i < j < |p| && p[i] == '.' ==> p[j] != '.'
  }

  /** A decimal literal over digits and points, as `parseFloat` reads one:
      digits, digits and a point with optional digits after it, or a point
      followed by digits. */
  predicate IsPlainDecimal(p: string)
  {
    |p| > 0 && p != "." && IsPriceText(p) && AtMostOnePoint(p)
  }

  /** The index of the first point in `p`, or `|p|` when there is none. */
  function PointIndex(p: string): (k: nat)
    ensures k <= |p| && (k < |p| ==> p[k] == '.')
    ensures forall i :: 0 <= i < k ==> p[i] != '.'
  {
    if p == [] || p[0] == '.' then 0 else 1 + PointIndex(p[1..])
  }

  /** The value of a plain decimal: its whole digits plus its fraction
      digits scaled down by ten per digit. */
  function PlainValue(p: string): (v: real)
    requires IsPlainDecimal(p)
    ensures v >= 0.0
  {
    var k := PointIndex(p);
    var fraction := if k < |p| then p[k + 1..] else [];
    assert AllDigits(p[..k]) by {
      forall i | 0 <= i < k ensures IsDigit(p[..k][i]) {
        assert IsPriceChar(p[i]);
      }
    }
    assert AllDigits(fraction) by {
      forall i | 0 <= i < |fraction| ensures IsDigit(fraction[i]) {
        assert fraction[i] == p[k + 1 + i] && IsPriceChar(p[k + 1 + i]);
      }
    }
    DigitsValue(p[..k]) as real + DigitsValue(fraction) as real / Pow10(|fraction|) as real
  }

  /** `k` is the length of the longest prefix of `s` that is a plain decimal. */
  predicate IsLongestPlainPrefix(s: string, k: int)
  {
    0 < k <= |s| && IsPlainDecimal(s[..k]) &&
    forall k' :: k < k' <= |s| ==> !IsPlainDecimal(s[..k'])
  }

  /** `v` is the value of the longest plain decimal prefix of `s`. */
  predicate ReadsAs(s: string, v: real)
  {
    exists k :: 0 < k <= |s| && IsLongestPlainPrefix(s, k) && v == PlainValue(s[..k])
  }

  lemma PriceTextSign(s: string)
    requires IsPriceText(s)
    ensures SplitSign(s) == (false, s)
    ensures !(|s| >= 8 && s[..8] == "Infinity")
  {
    if s != [] {
      assert IsPriceChar(s[0]);
      assert !IsWhiteSpace(s[0]);
      if |s| >= 8 { assert s[..8][0] == s[0]; }
    }
  }

  /** On text of digits and points, `parseFloat` gives NaN exactly when no
      prefix is a plain decimal, and otherwise the value of the longest such
      prefix ("1.2.3" reads as 1.2). Nothing here can make it negative or
      infinite. */
  lemma ParsePriceText(s: string)
    requires IsPriceText(s)
    ensures ParseFloat(s).NaN? || ParseFloat(s).Finite?
    ensures ParseFloat(s).NaN? <==> forall k :: 0 < k <= |s| ==> !IsPlainDecimal(s[..k])
    ensures ParseFloat(s).Finite? ==>
      ReadsAs(s, ParseFloat(s).value)
  {
    ParseFloatOfPriceText(s);
    var a := DigitRun(s);
    var point := a < |s| && s[a] == '.';
    var b := if point then DigitRun(s[a + 1..]) else 0;
    if a == 0 && b == 0 {
      NoPlainPrefix(s);
    } else {
      var len := if point then a + 1 + b else a;
      ShapeOfScan(s, a, point, b, len);
      PrefixIsPlain(s, a, point, b, len);
      PrefixIsLongest(s, a, point, b, len);
      PlainValueOfPrefix(s, a, point, b, len);
      NoExponentAtPoint(s, len);
      ScanOfShape(s, a, point, b, len);
      var fraction := if point then s[a + 1..len] else [];
      assert ParseFloat(s) == Finite(LiteralValue(Literal(s[..a], fraction, 0, len)));
      ValueWithoutExponent(Literal(s[..a], fraction, 0, len));
      assert IsLongestPlainPrefix(s, len) && ParseFloat(s).value == PlainValue(s[..len]);
    }
  }

  /** Price text has no white space, sign or "Infinity" in front, so
      `parseFloat` reads it as an unsigned literal. */
  lemma ParseFloatOfPriceText(s: string)
    requires IsPriceText(s)
    ensures ParseFloat(s) == match ScanUnsigned(s)
      case None => NaN
      case Some(lit) => Finite(LiteralValue(lit))
  {
    PriceTextSign(s);
  }

  lemma ValueWithoutExponent(lit: Literal)
    requires WellFormedLiteral(lit) && lit.exponent == 0
    ensures LiteralValue(lit) == DigitsValue(lit.whole) as real
      + DigitsValue(lit.fraction) as real / Pow10(|lit.fraction|) as real
  {
    assert Pow10(0) == 1;
  }

  lemma ScanOfShape(s: string, a: nat, point: bool, b: nat, len: nat)
    requires a == DigitRun(s)
    requires point == (a < |s| && s[a] == '.')
    requires point ==> b == DigitRun(s[a + 1..])
    requires !point ==> b == 0
    requires a + b > 0
    requires len == (if point then a + 1 + b else a) && len <= |s|
    requires ScanExponent(s[len..]) == None
    ensures ScanUnsigned(s) == Some(Literal(s[..a], if point then s[a + 1..len] else [], 0, len))
  {
    assert ScanUnsigned(s) == Some(LiteralAt(s, a, point, b));
  }

  lemma NoExponentAtPoint(s: string, len: nat)
    requires len <= |s|
    requires len < |s| ==> s[len] == '.'
    ensures ScanExponent(s[len..]) == None
  {
    if len < |s| {
      assert s[len..][0] == s[len];
    }
  }

  lemma NoPlainPrefix(s: string)
    requires IsPriceText(s)
    requires DigitRun(s) == 0
    requires !(|s| > 1 && s[0] == '.' && IsDigit(s[1]))
    ensures forall k :: 0 < k <= |s| ==> !IsPlainDecimal(s[..k])
  {
    forall k | 0 < k <= |s| ensures !IsPlainDecimal(s[..k]) {
      assert IsPriceChar(s[0]) && s[0] == '.';
      if k == 1 {
        assert s[..k] == ".";
      } else {
        assert IsPriceChar(s[1]) && s[1] == '.';
        assert s[..k][0] == '.' && s[..k][1] == '.';
      }
    }
  }

  /** The shape of the literal the scanner finds at the start of price
      text: `a` digits, then, when `point`, a point and `b` more digits;
      the literal ends at `len`, where the text ends or a second point
      stands. */
  predicate ScannedShape(s: string, a: nat, point: bool, b: nat, len: nat)
  {
    IsPriceText(s) && a + b > 0 && (!point ==> b == 0) &&
    len == (if point then a + 1 + b else a) && len <= |s| &&
    (forall i :: 0 <= i < a ==> IsDigit(s[i])) &&
    (point ==> s[a] == '.' && (forall i :: a < i < len ==> IsDigit(s[i]))) &&
    (len < |s| ==> point && s[len] == '.')
  }

  lemma ShapeOfScan(s: string, a: nat, point: bool, b: nat, len: nat)
    requires IsPriceText(s)
    requires a == DigitRun(s)
    requires point == (a < |s| && s[a] == '.')
    requires point ==> b == DigitRun(s[a + 1..])
    requires !point ==> b == 0
    requires a > 0 || b > 0
    requires len == if point then a + 1 + b else a
    ensures ScannedShape(s, a, point, b, len)
  {
    LeadingDigits(s, a);
    if point {
      FractionDigits(s, a, b);
    }
  }

  lemma LeadingDigits(s: string, a: nat)
    requires a == DigitRun(s)
    ensures forall i :: 0 <= i < a ==> IsDigit(s[i])
  {
    assert forall i :: 0 <= i < a ==> s[i] == s[..a][i];
  }

  /** After the point come `b` digits, then the end of the text or a
      character that is neither a digit nor, in price text, anything but a
      second point. */
  lemma FractionDigits(s: string, a: nat, b: nat)
    requires IsPriceText(s)
    requires a < |s| && b == DigitRun(s[a + 1..])
    ensures a + 1 + b <= |s|
    ensures forall i :: a < i < a + 1 + b ==> IsDigit(s[i])
    ensures a + 1 + b < |s| ==> s[a + 1 + b] == '.'
  {
    var t := s[a + 1..];
    assert forall i :: a < i < a + 1 + b ==> s[i] == t[..b][i - a - 1];
    if a + 1 + b < |s| {
      assert s[a + 1 + b] == t[b];
      assert IsPriceChar(s[a + 1 + b]);
    }
  }

  lemma PrefixIsPlain(s: string, a: nat, point: bool, b: nat, len: nat)
    requires ScannedShape(s, a, point, b, len)
    ensures IsPlainDecimal(s[..len])
  {
    var p := s[..len];
    assert forall i :: 0 <= i < len ==> p[i] == s[i];
    assert forall i :: 0 <= i < len && p[i] == '.' ==> i == a;
    assert AtMostOnePoint(p) by {
      forall i, j | 0 <= i < j < |p| && p[i] == '.' ensures p[j] != '.' {
        assert i == a;
      }
    }
    assert IsPriceText(p) by {
      forall i | 0 <= i < len ensures IsPriceChar(p[i]) {
        assert IsPriceChar(s[i]);
      }
    }
    assert p[0] == '.' ==> a == 0 && point && len > 1;
  }

  lemma PrefixIsLongest(s: string, a: nat, point: bool, b: nat, len: nat)
    requires ScannedShape(s, a, point, b, len)
    ensures forall k :: len < k <= |s| ==> !IsPlainDecimal(s[..k])
  {
    forall k | len < k <= |s| ensures !AtMostOnePoint(s[..k]) {
      var q := s[..k];
      assert q[a] == '.' && q[len] == '.';
    }
  }

  lemma PlainValueOfPrefix(s: string, a: nat, point: bool, b: nat, len: nat)
    requires ScannedShape(s, a, point, b, len)
    requires IsPlainDecimal(s[..len])
    ensures var fraction := if point then s[a + 1..len] else [];
      AllDigits(s[..a]) && AllDigits(fraction) &&
      PlainValue(s[..len]) == DigitsValue(s[..a]) as real
        + DigitsValue(fraction) as real / Pow10(|fraction|) as real
  {
    var p := s[..len];
    var k := PointIndex(p);
    assert forall i :: 0 <= i < a ==> p[i] == s[i];
    if point {
      assert p[a] == '.';
      assert k == a;
      assert p[k + 1..] == s[a + 1..len];
    } else {
      assert k == a;
    }
    assert p[..k] == s[..a];
  }

  /** Prices are sent in lakhs: NaN stays NaN and an infinity stays
      infinite, as under JavaScript's `/`. */
  function ToLakhs(n: Number): (r: Number)
    ensures r.NaN? <==> n.NaN?
    ensures r.Infinity? <==> n.Infinity?
    ensures r.Infinity? ==> r == n
    ensures r.Finite? ==> n.Finite? && r.value * RupeesPerLakh == n.value
  {
    match n
    case Finite(v) => Finite(v / RupeesPerLakh)
    case _ => n
  }

  /** `parseFloat(String(price).replace(/[^0-9.]/g, '')) / 100000`. */
  function PriceInLakhs(price: string): (r: Number)
    ensures r.NaN? || (r.Finite? && r.value >= 0.0)
    ensures var s := StripPrice(price);
      r.NaN? <==> forall k :: 0 < k <= |s| ==> !IsPlainDecimal(s[..k])
  {
    ParsePriceText(StripPrice(price));
    ToLakhs(ParseFloat(StripPrice(price)))
  }

  /** A finite price sent is, scaled back to rupees, the value of the
      longest plain decimal prefix of the stripped price. (That it is NaN or
      finite and non-negative, and when it is NaN, `PriceInLakhs` itself
      states; NaN is not rejected: it is what gets sent.) */
  lemma PriceInLakhsMeaning(price: string)
    ensures var r, s := PriceInLakhs(price), StripPrice(price);
      r.Finite? ==> ReadsAs(s, r.value * RupeesPerLakh)
  {
    var s := StripPrice(price);
    var f := ParseFloat(s);
    var r := PriceInLakhs(price);
    assert r == ToLakhs(f);
    if r.Finite? {
      assert r.value * RupeesPerLakh == f.value;
      ParsePriceText(s);
    }
  }

  // ---------------------------------------------------------------------
  // Bedroom count

  /** `parseInt(bedroom, 10) || 1`: the parsed count when it is truthy
      (neither NaN nor zero), 1 otherwise. Negative counts pass through. */
  function BedroomCount(bedroom: string): (r: int)
    ensures r != 0
    ensures Truthy(ParseInt(bedroom)) ==> ParseInt(bedroom) == Finite(r as real)
    ensures !Truthy(ParseInt(bedroom)) ==> r == 1
  {
    var n := ParseInt(bedroom);
    if Truthy(n) then n.value.Floor else 1
  }

  /** The count of a listing whose bedroom field is spelt as a natural
      number is that number, zero falling back to 1. */
  lemma BedroomCountOfDecimal(n: nat)
    ensures BedroomCount(DecimalString(n)) == if n == 0 then 1 else n
  {
    ParseIntDecimalString(n);
  }

  /** `parseInt(bedroom, 10) || 1` on the shape `parseInt` accepts: the
      signed value of the digits, or 1 when they are worth zero. */
  lemma BedroomCountOfShape(lead: string, sign: string, d: string, rest: string)
    requires AllWhiteSpace(lead)
    requires sign == "" || sign == "+" || sign == "-"
    requires |d| > 0 && AllDigits(d)
    requires rest == [] || !IsDigit(rest[0])
    ensures BedroomCount(lead + sign + d + rest) ==
      if DigitsValue(d) == 0 then 1 else if sign == "-" then -(DigitsValue(d) as int) else DigitsValue(d)
  {
    ParseIntOfShape(lead, sign, d, rest);
  }

  /** A negative count passes through. */
  lemma NegativeBedroomExample()
    ensures BedroomCount("-2") == -2
  {
    var digits := "2";
    assert DigitsValue(digits) == 2 by {
      assert digits[..0] == [];
    }
    assert [] + "-" + digits + [] == "-2";
    BedroomCountOfShape([], "-", digits, []);
  }

  /** Text after the digits is ignored. */
  lemma SuffixBedroomExample()
    ensures BedroomCount("3 BHK") == 3
  {
    var digits := "3";
    assert DigitsValue(digits) == 3 by {
      assert digits[..0] == [];
    }
    assert [] + [] + digits + " BHK" == "3 BHK";
    BedroomCountOfShape([], [], digits, " BHK");
  }

  /** `predictPrice`'s arguments for a listing. */
  function Request(listing: Listing): (r: EstimateRequest)
    ensures r.region == listing.city
    ensures r.bhk == BedroomCount(listing.bedroom) && r.bhk != 0
    ensures r.userPrice == PriceInLakhs(listing.price)
    ensures r.userPrice.NaN? || (r.userPrice.Finite? && r.userPrice.value >= 0.0)
    ensures r.userPrice.Finite? ==>
      ReadsAs(StripPrice(listing.price), r.userPrice.value * RupeesPerLakh)
  {
    PriceInLakhsMeaning(listing.price);
    EstimateRequest(listing.city, BedroomCount(listing.bedroom), PriceInLakhs(listing.price))
  }

  // ---------------------------------------------------------------------
  // Variation icon and colour

  /** The reading of `price_variation`: "above" is tested first, then
      "below"; anything else is at market. */
  datatype Trend = Above | Below | AtMarket

  function Classify(variation: string): (t: Trend)
    ensures t == Above <==> exists i :: OccursAt(variation, "above", i)
    ensures t == Below <==>
      (forall i :: !OccursAt(variation, "above", i)) && exists i :: OccursAt(variation, "below", i)
  {
    if Includes(variation, "above") then Above
    else if Includes(variation, "below") then Below
    else AtMarket
  }

  datatype Glyph = TrendingUp | TrendingDown | Minus

  /** An icon element: which glyph and its CSS classes. */
  datatype Icon = Icon(glyph: Glyph, className: string)

  const UpIcon := Icon(TrendingUp, "h-5 w-5 text-red-500")
  const DownIcon := Icon(TrendingDown, "h-5 w-5 text-green-500")
  const FlatIcon := Icon(Minus, "h-5 w-5 text-gray-500")

  /** `getVariationIcon()`; None stands for `null`. */
  function VariationIcon(prediction: Option<Prediction>): (r: Option<Icon>)
    ensures r.None? <==> prediction.None?
    ensures prediction.Some? ==>
      r.value == match Classify(prediction.value.priceVariation)
                 case Above => UpIcon
                 case Below => DownIcon
                 case AtMarket => FlatIcon
  {
    match prediction
    case None => None
    case Some(p) =>
      var variation := p.priceVariation;
      if Includes(variation, "above") then Some(UpIcon)
      else if Includes(variation, "below") then Some(DownIcon)
      else Some(FlatIcon)
  }

  /** `getVariationColor()`. */
  function VariationColor(prediction: Option<Prediction>): (r: string)
    ensures r == "" <==> prediction.None?
    ensures prediction.Some? ==>
      r == match Classify(prediction.value.priceVariation)
           case Above => "text-red-600"
           case Below => "text-green-600"
           case AtMarket => "text-gray-600"
  {
    match prediction
    case None => ""
    case Some(p) =>
      var variation := p.priceVariation;
      if Includes(variation, "above") then "text-red-600"
      else if Includes(variation, "below") then "text-green-600"
      else "text-gray-600"
  }

  /** The icon and the colour always take the same branch. */
  lemma IconAgreesWithColor(prediction: Option<Prediction>)
    ensures VariationIcon(prediction) == Some(UpIcon) <==> VariationColor(prediction) == "text-red-600"
    ensures VariationIcon(prediction) == Some(DownIcon) <==> VariationColor(prediction) == "text-green-600"
    ensures VariationIcon(prediction) == Some(FlatIcon) <==> VariationColor(prediction) == "text-gray-600"
    ensures VariationIcon(prediction) == None <==> VariationColor(prediction) == ""
  {
  }

  // ---------------------------------------------------------------------
  // The component

  class PriceAnalysis {
    var prediction: Option<Prediction>
    var loading: bool
    var error: Option<string>

    /** The initial state of the `useState` hooks. */
    constructor ()
      ensures prediction == None && !loading && error == None
    {
      prediction := None;
      loading := false;
      error := None;
    }

    /** The part of `handleAnalyzePrice` before the service is awaited:
        loading starts, the error is cleared and the listing is normalised
        into the request. */
    method BeginAnalyzePrice(listing: Listing) returns (request: EstimateRequest)
      modifies this`loading, this`error
      ensures loading && error == None
      ensures request == Request(listing)
    {
      loading := true;
      error := None;
      var priceInLakhs := PriceInLakhs(listing.price);
      var bedroomCount := BedroomCount(listing.bedroom);
      request := EstimateRequest(listing.city, bedroomCount, priceInLakhs);
    }

    /** The part after the call settles: a response becomes the prediction,
        a rejection sets the error text and keeps the previous prediction;
        loading ends either way. */
    method EndAnalyzePrice(reply: Reply<Prediction>)
      modifies this`loading, this`error, this`prediction
      ensures !loading
      ensures reply.Resolved? ==> prediction == Some(reply.data) && error == old(error)
      ensures reply.Rejected? ==> prediction == old(prediction)
      ensures reply.Rejected? ==> error == Some(ErrorText(reply.serverError, AnalyzeFallback))
    {
      match reply {
        case Resolved(result) =>
          prediction := Some(result);
        case Rejected(serverError) =>
          error := Some(ErrorText(serverError, AnalyzeFallback));
      }
      loading := false;
    }

    /** `handleAnalyzePrice` run to completion, `reply` being how the
        service answers the request. */
    method HandleAnalyzePrice(listing: Listing, reply: Reply<Prediction>)
      returns (request: EstimateRequest)
      modifies this`loading, this`error, this`prediction
      ensures request == Request(listing)
      ensures !loading
      ensures reply.Resolved? ==> prediction == Some(reply.data) && error == None
      ensures reply.Rejected? ==> prediction == old(prediction)
      ensures reply.Rejected? ==> error == Some(ErrorText(reply.serverError, AnalyzeFallback))
    {
      request := BeginAnalyzePrice(listing);
      EndAnalyzePrice(reply);
    }
  }
}
