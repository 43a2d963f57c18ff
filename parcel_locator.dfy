/**
 * The dummy parcel tracking service `GET /api/parcel?parcel_num=...`: the raw
 * query value is parsed with `parseInt`; an absent, empty or unparseable value
 * is a client error (400), a number divisible by 13 is "unlucky" (404), and
 * any other number is answered with the entry of a fixed list of ten places at
 * index `parcel_num % 10`, computed with JavaScript's truncating `%`.
 */
module ParcelLocator {
  import opened JsSemantics

  /** The ten places, in the order of the source's `locations` array. */
  const Locations: seq<string> := [
    "Anfield", "Stamford Bridge", "Old Trafford", "Parkhead",
    "Hatfield, UK",
    "Heathrow Airport", "Westminister, London", "Buckingham Palace",
    "Lands End, Cornwall", "John O'Groats"
  ]

  /** A plain-text HTTP answer. `body == None` is `res.end(undefined)`: the status
      line is sent with an empty body. */
  datatype HttpReply = HttpReply(status: int, body: Option<string>)

  /** Reading `xs[i]` in JavaScript: `undefined` (None) outside `[0, |xs|)`. */
  function ElementAt(xs: seq<string>, i: int): (r: Option<string>)
    ensures 0 <= i < |xs| ==> r == Some(xs[i])
    ensures !(0 <= i < |xs|) ==> r == None
  {
    if 0 <= i < |xs| then Some(xs[i]) else None
  }

  /** `"" + v` for the query value: an absent parameter prints as `undefined`. */
  function RawText(raw: Option<string>): string
  {
    match raw
    case None => "undefined"
    case Some(s) => s
  }

  /** The 400 body: the prefix followed by the raw value, `undefined` when absent. */
  function InvalidMessage(raw: Option<string>): (m: string)
    ensures raw.Some? ==> m == "Not a valid parcel number " + raw.value
    ensures raw.None? ==> m == "Not a valid parcel number undefined"
  {
    "Not a valid parcel number " + RawText(raw)
  }

  /** The 404 body, naming the number in decimal. */
  function UnluckyMessage(n: int): string
  {
    "We can't find parcel number " + IntToString(n) + " it is unlucky!"
  }

  /** The handler of `GET /api/parcel`; `raw` is `req.query.parcel_num`
      (None when the parameter is absent). */
  function Locate(raw: Option<string>): (r: HttpReply)
    ensures r.status == 400 || r.status == 404 || r.status == 200
    ensures r.status == 200 && r.body.Some? ==> r.body.value in Locations
  {
    var parsed := if raw.Some? then ParseInt(raw.value) else None;
    if raw.None? || raw.value == "" || parsed.None? then
      HttpReply(400, Some(InvalidMessage(raw)))
    else if 0 == JsRem(parsed.value, 13) then
      HttpReply(404, Some(UnluckyMessage(parsed.value)))
    else
      HttpReply(200, ElementAt(Locations, JsRem(parsed.value, |Locations|)))
  }

  // ---------------------------------------------------------------------------
  // Lemmas
  // ---------------------------------------------------------------------------

  /** The 404 body names the number: different numbers give different messages. */
  lemma UnluckyMessageInjective(a: int, b: int)
    requires UnluckyMessage(a) == UnluckyMessage(b)
    ensures a == b
  {
    var p := "We can't find parcel number ";
    var q := " it is unlucky!";
    var x, y := IntToString(a), IntToString(b);
    assert |x| == |y|;
    assert x == UnluckyMessage(a)[|p|..|p| + |x|];
    assert y == UnluckyMessage(b)[|p|..|p| + |y|];
    IntToStringInjective(a, b);
  }

  /** 400 exactly when the parameter is absent, empty or not a number; the body
      repeats the raw value. */
  lemma LocateInvalid(raw: Option<string>)
    ensures Locate(raw).status == 400
            <==> raw.None? || raw.value == "" || ParseInt(raw.value).None?
    ensures Locate(raw).status == 400 ==> Locate(raw).body == Some(InvalidMessage(raw))
  {
  }

  /** An absent parameter is reported as `undefined`. */
  lemma LocateMissing()
    ensures Locate(None) == HttpReply(400, Some("Not a valid parcel number undefined"))
  {
    assert Locate(None) == HttpReply(400, Some(InvalidMessage(None)));
    assert InvalidMessage(None) == "Not a valid parcel number undefined";
  }

  /** 404 exactly when the parsed number is a multiple of 13, naming the number. */
  lemma LocateUnlucky(raw: Option<string>)
    ensures Locate(raw).status == 404
            <==> raw.Some? && ParseInt(raw.value).Some? && ParseInt(raw.value).value % 13 == 0
    ensures Locate(raw).status == 404 ==> Locate(raw).body == Some(UnluckyMessage(ParseInt(raw.value).value))
  {
    if raw.Some? && raw.value == "" {
      assert ParseInt(raw.value).None?;
    }
  }

  /** A non-negative number that is not a multiple of 13 is always located, at
      index `n % 10` of the list. */
  lemma LocateFound(raw: string, n: int)
    requires ParseInt(raw) == Some(n)
    requires 0 <= n && n % 13 != 0
    ensures 0 <= n % 10 < |Locations|
    ensures Locate(Some(raw)) == HttpReply(200, Some(Locations[n % 10]))
  {
    assert raw != "";
  }

  /** A negative number that is not a multiple of 13 gets a non-positive index:
      only a multiple of 10 (index `-0`, that is 0) is located, any other gets an
      empty 200 answer. */
  lemma LocateNegative(raw: string, n: int)
    requires ParseInt(raw) == Some(n)
    requires n < 0 && n % 13 != 0
    ensures n % 10 == 0 ==> Locate(Some(raw)) == HttpReply(200, Some("Anfield"))
    ensures n % 10 != 0 ==> Locate(Some(raw)) == HttpReply(200, None)
  {
    assert raw != "";
  }

  /** `String(n)` read back by the locator: the status depends only on `n`. */
  lemma LocateOfNumber(n: int)
    ensures n % 13 == 0 ==> Locate(Some(IntToString(n))) == HttpReply(404, Some(UnluckyMessage(n)))
    ensures n % 13 != 0 && 0 <= n ==> Locate(Some(IntToString(n))) == HttpReply(200, Some(Locations[n % 10]))
  {
    var s := IntToString(n);
    ParseIntOfIntToString(n, "");
    assert s + "" == s;
    if n % 13 == 0 {
      LocateUnlucky(Some(s));
    } else if 0 <= n {
      LocateFound(s, n);
    }
  }

  lemma OneDigit(n: nat, s: string)
    requires n < 10 && s == [DigitChar(n)]
    ensures IntToString(n) == s
  {
  }

  lemma TwoDigits(n: nat, s: string)
    requires 10 <= n < 100 && s == [DigitChar(n / 10), DigitChar(n % 10)]
    ensures IntToString(n) == s
  {
    assert NatToString(n) == NatToString(n / 10) + [DigitChar(n % 10)];
  }

  /** The 404 answer for the decimal text `s` of a multiple of 13, spelled out. */
  lemma LocateUnluckyText(n: nat, s: string)
    requires IntToString(n) == s && n % 13 == 0
    ensures Locate(Some(s)) == HttpReply(404, Some("We can't find parcel number " + s + " it is unlucky!"))
  {
    LocateOfNumber(n);
  }

  // The sample cases below take their query text as a parameter pinned by a
  // precondition, and bind their numbers with `:|`, so that the verifier does not
  // evaluate `Locate` on literals symbolically.

  /** The boundary case 0: zero is a multiple of 13. */
  lemma LocateZero(raw: string)
    requires raw == "0"
    ensures Locate(Some(raw)) == HttpReply(404, Some("We can't find parcel number " + "0" + " it is unlucky!"))
  {
    var zero: nat :| zero == 0;
    OneDigit(zero, raw);
    LocateUnluckyText(zero, raw);
  }

  /** The boundary case 13, the first positive multiple. */
  lemma LocateThirteen(raw: string)
    requires raw == "13"
    ensures Locate(Some(raw)) == HttpReply(404, Some("We can't find parcel number " + "13" + " it is unlucky!"))
  {
    var thirteen: nat :| thirteen == 13;
    TwoDigits(thirteen, raw);
    LocateUnluckyText(thirteen, raw);
  }

  /** 14 is past the end of the list and wraps to its fifth entry. */
  lemma LocateFourteen(raw: string)
    requires raw == "14"
    ensures Locate(Some(raw)) == HttpReply(200, Some("Hatfield, UK"))
  {
    var n: nat :| n == 14;
    TwoDigits(n, raw);
    LocateOfNumber(n);
  }

  /** -14 gives the index -4 and so an empty answer. */
  lemma LocateMinusFourteen(raw: string)
    requires raw == "-14"
    ensures Locate(Some(raw)) == HttpReply(200, None)
  {
    var n: nat :| n == 14;
    var digits := raw[1..];
    TwoDigits(n, digits);
    var m: int := -(n as int);
    ParseIntOfIntToString(m, "");
    assert IntToString(m) + "" == raw;
    LocateNegative(raw, m);
  }

  /** White space, a plus sign and trailing text around the digits are accepted:
      the answer is the one for the bare number. */
  lemma LocatePadded(w: string, n: nat, rest: string)
    requires forall i :: 0 <= i < |w| ==> IsWhiteSpace(w[i])
    requires |rest| == 0 || !IsDigit(rest[0])
    requires n % 13 != 0
    ensures Locate(Some(w + "+" + IntToString(n) + rest)) == HttpReply(200, Some(Locations[n % 10]))
  {
    ParseIntOfPaddedNumber(w, n, rest);
    var raw := w + "+" + IntToString(n) + rest;
    LocateFound(raw, n);
  }

  /** ` +27 parcels` splits into white space, `+`, `String(27)` and a non-digit tail. */
  lemma SplitPaddedSample(raw: string, n: nat)
    requires raw == " +27 parcels" && n == 27
    ensures raw == raw[..1] + "+" + IntToString(n) + raw[4..]
    ensures forall i :: 0 <= i < |raw[..1]| ==> IsWhiteSpace(raw[..1][i])
    ensures |raw[4..]| == 0 || !IsDigit(raw[4..][0])
    ensures n % 10 == 7
  {
    TwoDigits(n, raw[2..4]);
  }

  /** The sample query ` +27 parcels`. */
  lemma LocatePaddedSample(raw: string)
    requires raw == " +27 parcels"
    ensures Locate(Some(raw)) == HttpReply(200, Some("Buckingham Palace"))
  {
    var n: nat :| n == 27;
    SplitPaddedSample(raw, n);
    LocatePadded(raw[..1], n, raw[4..]);
    assert Locations[7] == "Buckingham Palace";
  }

  /** Text without digits is not a parcel number. */
  lemma LocateNotANumber()
    ensures Locate(Some("abc")) == HttpReply(400, Some("Not a valid parcel number abc"))
  {
    assert TrimStart("abc") == "abc";
    assert DropSign("abc") == "abc";
    assert DigitRun("abc") == 0;
    assert ParseInt("abc") == None;
    assert Locate(Some("abc")) == HttpReply(400, Some(InvalidMessage(Some("abc"))));
    assert InvalidMessage(Some("abc")) == "Not a valid parcel number abc";
  }
}
