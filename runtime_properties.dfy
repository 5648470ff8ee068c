/**
 * What the runtime codec promises: the exact set of wire strings it accepts,
 * the round trip through MarshalJSON and UnmarshalJSON, the int32 boundary,
 * and which accepted strings MarshalJSON reproduces.
 */
module RuntimeProperties {
  import opened Wrappers
  import Strings
  import Strconv
  import opened Data

  /** The wire form `"<numeral> mins"` (quotes included). */
  function Wire(numeral: string): string
  {
    ['"'] + numeral + " mins\""
  }

  /** Every numeral ParseInt(…, 10, 32) accepts, put in the wire form, decodes to its value. */
  lemma DecodeAccepts(t: string)
    requires Strconv.ParseInt32(t).Some?
    ensures Decode(Wire(t)) == Ok(Strconv.ParseInt32(t).value as Runtime)
  {
    var u := t + " mins";
    assert Strconv.Unquote(Wire(t)) == Some(u) by {
      Strconv.NumeralIsPlain(t);
      Strconv.NeedsNoEscapeConcat(t, " mins");
      Strconv.NeedsNoEscapeIsEscapeFree(u);
      assert Wire(t) == ['"'] + u + ['"'];
      Strconv.UnquoteExactly(Wire(t), u);
    }
    assert Strings.Split(u, ' ') == [t, "mins"] by {
      Strconv.NumeralIsPlain(t);
      assert u == t + [' '] + "mins";
      assert ' ' !in "mins";
      Strings.SplitInTwo(u, ' ', t, "mins");
    }
  }

  /** The wire form of a text ParseInt(…, 10, 32) refuses is rejected. */
  lemma DecodeRejectsBadNumeral(t: string)
    requires Strconv.ParseInt32(t).None?
    ensures Decode(Wire(t)) == Err(ErrInvalidRuntimeFormat)
  {
    if Decode(Wire(t)).Ok? {
      DecodeSound(Wire(t));
    }
  }

  /** Decode accepts nothing else: an accepted string is the wire form of a numeral ParseInt accepts. */
  lemma DecodeSound(s: string)
    requires Decode(s).Ok?
    ensures |s| >= 7 && s == Wire(s[1..|s| - 6])
    ensures Strconv.ParseInt32(s[1..|s| - 6]) == Some(Decode(s).value as int)
  {
    var u := Strconv.Unquote(s).value;
    var parts := Strings.Split(u, ' ');
    var t := parts[0];
    Strconv.UnquoteExactly(s, u);
    Strings.SplitPair(u, ' ');
    WireParts(s, u, t);
  }

  lemma WireParts(s: string, u: string, t: string)
    requires s == ['"'] + u + ['"'] && u == t + [' '] + "mins"
    ensures |s| >= 7 && s == Wire(t) && s[1..|s| - 6] == t
  {
    assert s == ['"'] + t + " mins\"";
  }

  /** MarshalJSON then UnmarshalJSON gives back every int32 value, zero and negatives included. */
  lemma RoundTrip(r: Runtime)
    ensures Decode(MarshalJSON(r).0) == Ok(r)
  {
    var s := MarshalJSON(r).0;
    assert s == Wire(s[1..|s| - 6]);
    DecodeAccepts(s[1..|s| - 6]);
  }

  /** MarshalJSON writes the canonical decimal spelling of the value. */
  lemma MarshalIsCanonicalWire(r: Runtime)
    ensures MarshalJSON(r).0 == Wire(Strconv.FormatInt(r as int))
  {
    var s := MarshalJSON(r).0;
    var t := s[1..|s| - 6];
    Strconv.FormatParse(t, r as int);
    assert s == Wire(t);
  }

  /** A decimal number in the wire form is accepted exactly when it fits in 32 bits. */
  lemma Int32Boundary(n: int)
    ensures Decode(Wire(Strconv.FormatInt(n))).Ok? <==> Strconv.MinInt32 <= n <= Strconv.MaxInt32
  {
    var t := Strconv.FormatInt(n);
    Strconv.ParseFormat(n);
    if Strconv.MinInt32 <= n <= Strconv.MaxInt32 {
      DecodeAccepts(t);
    } else {
      DecodeRejectsBadNumeral(t);
    }
  }

  /**
   * Re-encoding an accepted string reproduces it exactly when its numeral is
   * canonical (no `+`, no leading zero, no "-0").
   */
  lemma ReencodeCanonical(s: string)
    requires Decode(s).Ok?
    ensures |s| >= 7 && (MarshalJSON(Decode(s).value).0 == s <==> Strconv.IsCanonicalInt(s[1..|s| - 6]))
  {
    DecodeSound(s);
    var r := Decode(s).value;
    var t := s[1..|s| - 6];
    Strconv.FormatParse(t, r as int);
    MarshalIsCanonicalWire(r);
    var m := Wire(Strconv.FormatInt(r as int));
    if m == s {
      assert m[1..|m| - 6] == Strconv.FormatInt(r as int);
    }
  }

  /** An accepted string holds exactly one space, the one before "mins". */
  lemma DecodedHasOneSpace(s: string)
    requires Decode(s).Ok?
    ensures multiset(s)[' '] == 1
  {
    DecodeSound(s);
    var t := s[1..|s| - 6];
    Strconv.NumeralIsPlain(t);
    assert s == ['"'] + t + [' '] + "mins\"";
    assert multiset(s) == multiset(['"']) + multiset(t) + multiset([' ']) + multiset("mins\"");
  }

  /** Input that is not enclosed in double quotes is rejected. */
  lemma RejectsUnquoted(s: string)
    requires |s| < 2 || s[0] != '"' || s[|s| - 1] != '"'
    ensures Decode(s) == Err(ErrInvalidRuntimeFormat)
  {
    if Decode(s).Ok? {
      DecodeSound(s);
    }
  }

  /** The runtime without its double quotes, as a bare JSON value, is rejected. */
  lemma RejectsBareText()
    ensures Decode("102 mins") == Err(ErrInvalidRuntimeFormat)
  {
    RejectsUnquoted("102 mins");
  }

  /** Without the space there is one piece, not two. */
  lemma RejectsMissingSpace()
    ensures Decode("\"102mins\"") == Err(ErrInvalidRuntimeFormat)
  {
    var s := "\"102mins\"";
    if Decode(s).Ok? {
      DecodeSound(s);
    }
  }

  /** The unit must be exactly "mins". */
  lemma RejectsOtherUnit()
    ensures Decode("\"102 minutes\"") == Err(ErrInvalidRuntimeFormat)
  {
    var s := "\"102 minutes\"";
    if Decode(s).Ok? {
      DecodeSound(s);
    }
  }

  /** Two spaces make three pieces. */
  lemma RejectsDoubleSpace()
    ensures Decode("\"102  mins\"") == Err(ErrInvalidRuntimeFormat)
  {
    var s := "\"102  mins\"";
    if Decode(s).Ok? {
      DecodeSound(s);
    }
  }

  /** A leading space makes an empty first piece and three pieces in all. */
  lemma RejectsLeadingSpace()
    ensures Decode("\" 102 mins\"") == Err(ErrInvalidRuntimeFormat)
  {
    var s := "\" 102 mins\"";
    if Decode(s).Ok? {
      DecodeSound(s);
    }
  }

  /** A trailing space makes an empty last piece and three pieces in all. */
  lemma RejectsTrailingSpace()
    ensures Decode("\"102 mins \"") == Err(ErrInvalidRuntimeFormat)
  {
    var s := "\"102 mins \"";
    if Decode(s).Ok? {
      DecodeSound(s);
    }
  }

  /** A number part that is not decimal digits is rejected. */
  lemma RejectsLetters()
    ensures Decode("\"abc mins\"") == Err(ErrInvalidRuntimeFormat)
  {
    var s := "\"abc mins\"";
    if Decode(s).Ok? {
      DecodeSound(s);
    }
  }

  /** An empty number part is rejected. */
  lemma RejectsEmptyNumber()
    ensures Decode("\" mins\"") == Err(ErrInvalidRuntimeFormat)
  {
    var s := "\" mins\"";
    if Decode(s).Ok? {
      DecodeSound(s);
    }
  }

  /** "21474" denotes 21474: the first half of the digits of 2^31. */
  lemma DigitsOfTwoToThe31Prefix()
    ensures Strconv.AllDigits("21474") && Strconv.DigitsValue("21474") == 21474
  {
    Strconv.DigitsValueAppend("", '2');
    assert "2" == "" + ['2'];
    Strconv.DigitsValueAppend("2", '1');
    assert "21" == "2" + ['1'];
    Strconv.DigitsValueAppend("21", '4');
    assert "214" == "21" + ['4'];
    Strconv.DigitsValueAppend("214", '7');
    assert "2147" == "214" + ['7'];
    Strconv.DigitsValueAppend("2147", '4');
    assert "21474" == "2147" + ['4'];
  }

  /** "2147483648" denotes 2^31, one more than the largest int32. */
  lemma DigitsOfTwoToThe31()
    ensures Strconv.AllDigits("2147483648") && Strconv.DigitsValue("2147483648") == 0x8000_0000
  {
    DigitsOfTwoToThe31Prefix();
    Strconv.DigitsValueAppend("21474", '8');
    assert "214748" == "21474" + ['8'];
    Strconv.DigitsValueAppend("214748", '3');
    assert "2147483" == "214748" + ['3'];
    Strconv.DigitsValueAppend("2147483", '6');
    assert "21474836" == "2147483" + ['6'];
    Strconv.DigitsValueAppend("21474836", '4');
    assert "214748364" == "21474836" + ['4'];
    Strconv.DigitsValueAppend("214748364", '8');
    assert "2147483648" == "214748364" + ['8'];
  }

  /** 2^31 does not fit in int32, so ParseInt(…, 10, 32) rejects it. */
  lemma ParseRejectsTwoToThe31()
    ensures Strconv.ParseInt32("2147483648") == None
  {
    DigitsOfTwoToThe31();
    assert Strconv.Unsigned("2147483648") == "2147483648";
  }

  /** 2^31 minutes overflows int32 and is rejected. */
  lemma RejectsOverflow()
    ensures Decode("\"2147483648 mins\"") == Err(ErrInvalidRuntimeFormat)
  {
    ParseRejectsTwoToThe31();
    DecodeRejectsBadNumeral("2147483648");
    assert Wire("2147483648") == "\"2147483648 mins\"";
  }

  /** Zero minutes decodes: the codec does no range check of its own. */
  lemma AcceptsZero()
    ensures Decode("\"0 mins\"") == Ok(0)
  {
    assert Wire("0") == "\"0 mins\"";
    assert Strconv.ParseInt32("0") == Some(0);
    DecodeAccepts("0");
  }

  /** A negative runtime decodes. */
  lemma AcceptsNegative()
    ensures Decode("\"-5 mins\"") == Ok(-5)
  {
    assert Wire("-5") == "\"-5 mins\"";
    assert Strconv.Unsigned("-5") == "5";
    assert Strconv.ParseInt32("-5") == Some(-5);
    DecodeAccepts("-5");
  }

  /** The smallest int32 decodes. */
  lemma AcceptsInt32Min()
    ensures Decode("\"-2147483648 mins\"") == Ok(-0x8000_0000)
  {
    assert Wire("-2147483648") == "\"-2147483648 mins\"";
    assert Strconv.Unsigned("-2147483648") == "2147483648";
    DigitsOfTwoToThe31();
    assert Strconv.ParseInt32("-2147483648") == Some(-0x8000_0000);
    DecodeAccepts("-2147483648");
  }

  /** A `+` sign is accepted: "+5 mins" decodes to 5. */
  lemma AcceptsPlusSign()
    ensures Decode("\"+5 mins\"") == Ok(5)
  {
    assert Wire("+5") == "\"+5 mins\"";
    assert Strconv.Unsigned("+5") == "5";
    assert Strconv.ParseInt32("+5") == Some(5);
    DecodeAccepts("+5");
  }

  /** A leading zero is accepted: "05 mins" decodes to 5. */
  lemma AcceptsLeadingZero()
    ensures Decode("\"05 mins\"") == Ok(5)
  {
    assert Wire("05") == "\"05 mins\"";
    Strconv.DigitsValueAppend("0", '5');
    assert "05" == "0" + ['5'];
    assert Strconv.ParseInt32("05") == Some(5);
    DecodeAccepts("05");
  }

  /** 5 encodes as "5 mins", so "+5 mins" and "05 mins" do not survive a decode and re-encode. */
  lemma MarshalFive()
    ensures MarshalJSON(5).0 == "\"5 mins\""
  {
    MarshalIsCanonicalWire(5);
    assert Strconv.FormatInt(5) == "5";
    assert Wire("5") == "\"5 mins\"";
  }

  /** UnmarshalJSON on MarshalJSON's output succeeds and stores the marshalled value, whatever the variable held. */
  method ReceiverRoundTrip(previous: Runtime, r: Runtime) returns (err: Option<RuntimeError>, stored: Runtime)
    ensures err == None && stored == r
  {
    var v := new RuntimeVar(previous);
    var (data, _) := MarshalJSON(r);
    RoundTrip(r);
    err := v.UnmarshalJSON(data);
    stored := v.value;
  }

  /** A rejected input leaves the variable as it was and reports ErrInvalidRuntimeFormat. */
  method ReceiverKeepsValueOnError(previous: Runtime, jsonValue: string) returns (err: Option<RuntimeError>, stored: Runtime)
    requires Decode(jsonValue).Err?
    ensures err == Some(ErrInvalidRuntimeFormat) && stored == previous
  {
    var v := new RuntimeVar(previous);
    err := v.UnmarshalJSON(jsonValue);
    stored := v.value;
  }
}
