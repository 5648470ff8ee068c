/**
 * The movie runtime scalar of package `data`: a 32-bit minute count that
 * travels as the JSON string "<n> mins".
 */
module Data {
  import opened Wrappers
  import Strings
  import Strconv

  /** `type Runtime int32`. */
  newtype Runtime = n: int | -0x8000_0000 <= n < 0x8000_0000

  /** `ErrInvalidRuntimeFormat`: the one error decoding reports, whichever step failed. */
  datatype RuntimeError = ErrInvalidRuntimeFormat
  {
    function Message(): string { "invalid runtime format" }
  }

  /**
   * `Runtime.MarshalJSON`: the decimal value and " mins", in double quotes.
   * The error result is always nil.
   */
  function MarshalJSON(r: Runtime): (out: (string, Option<RuntimeError>))
    ensures out.1 == None
    ensures |out.0| >= 7 && out.0[0] == '"' && out.0[|out.0| - 6..] == " mins\""
    ensures Strconv.IsCanonicalInt(out.0[1..|out.0| - 6])
    ensures Strconv.ParseInt32(out.0[1..|out.0| - 6]) == Some(r as int)
  {
    var jsonValue := Strconv.FormatInt(r as int) + " mins";
    QuotedRuntimeText(r);
    assert Strconv.Quote(jsonValue) == ['"'] + Strconv.FormatInt(r as int) + " mins\"";
    (Strconv.Quote(jsonValue), None)
  }

  /** The text MarshalJSON quotes needs no escaping, and its numeral part is the canonical spelling of `r`. */
  lemma QuotedRuntimeText(r: Runtime)
    ensures Strconv.NeedsNoEscape(Strconv.FormatInt(r as int) + " mins")
    ensures var q := ['"'] + Strconv.FormatInt(r as int) + " mins\"";
      && q[0] == '"' && q[|q| - 6..] == " mins\""
      && Strconv.IsCanonicalInt(q[1..|q| - 6])
      && Strconv.ParseInt32(q[1..|q| - 6]) == Some(r as int)
  {
    var numeral := Strconv.FormatInt(r as int);
    Strconv.ParseFormat(r as int);
    Strconv.NumeralIsPlain(numeral);
    Strconv.NeedsNoEscapeConcat(numeral, " mins");
    var q := ['"'] + numeral + " mins\"";
    assert q[1..|q| - 6] == numeral;
    assert q[|q| - 6..] == " mins\"";
  }

  /**
   * The value `(*Runtime).UnmarshalJSON` stores, or the error it returns:
   * unquote, split on every space into exactly a number and "mins", and
   * parse the number as a base-10 int32.
   */
  function Decode(jsonValue: string): Result<Runtime, RuntimeError>
  {
    match Strconv.Unquote(jsonValue)
    case None => Err(ErrInvalidRuntimeFormat)
    case Some(unquoted) =>
      var parts := Strings.Split(unquoted, ' ');
      if |parts| != 2 || parts[1] != "mins" then Err(ErrInvalidRuntimeFormat)
      else match Strconv.ParseInt32(parts[0])
        case None => Err(ErrInvalidRuntimeFormat)
        case Some(i) => Ok(i as Runtime)
  }

  /** A `Runtime` variable that `UnmarshalJSON` writes through its pointer receiver. */
  class RuntimeVar {
    var value: Runtime

    constructor (v: Runtime)
      ensures value == v
    {
      value := v;
    }

    /**
     * `(*Runtime).UnmarshalJSON`: on success the variable becomes the decoded
     * value and the error is nil; on any failure the error is
     * ErrInvalidRuntimeFormat and the variable keeps its previous value.
     */
    method UnmarshalJSON(jsonValue: string) returns (err: Option<RuntimeError>)
      modifies this
      ensures err.None? <==> Decode(jsonValue).Ok?
      ensures err.None? ==> value == Decode(jsonValue).value
      ensures err.Some? ==> err.value == ErrInvalidRuntimeFormat && value == old(value)
    {
      var unquoted := Strconv.Unquote(jsonValue);
      if unquoted.None? {
        return Some(ErrInvalidRuntimeFormat);
      }
      var parts := Strings.Split(unquoted.value, ' ');
      if |parts| != 2 || parts[1] != "mins" {
        return Some(ErrInvalidRuntimeFormat);
      }
      var i := Strconv.ParseInt32(parts[0]);
      if i.None? {
        return Some(ErrInvalidRuntimeFormat);
      }
      value := i.value as Runtime;
      return None;
    }
  }
}
