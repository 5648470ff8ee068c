/**
 * The parts of Go's `fmt` and `strconv` packages the runtime codec uses:
 * decimal formatting (`%d`), `strconv.ParseInt(s, 10, 32)`, and
 * `strconv.Quote` / `strconv.Unquote` on double-quoted strings that need no
 * escape sequences.
 */
module Strconv {
  import opened Wrappers
  import Strings

  const MinInt32: int := -0x8000_0000
  const MaxInt32: int := 0x7fff_ffff

  predicate IsDigit(c: char) { '0' <= c <= '9' }

  predicate AllDigits(s: string)
  {
    forall i :: 0 <= i < |s| ==> IsDigit(s[i])
  }

  function DigitValue(c: char): nat
    requires IsDigit(c)
  {
    (c as int) - ('0' as int)
  }

  function DigitChar(d: nat): char
    requires d < 10
  {
    ((('0' as int) + d) as char)
  }

  /** The number a run of decimal digits denotes, most significant digit first. */
  function DigitsValue(s: string): nat
    requires AllDigits(s)
  {
    if |s| == 0 then 0 else 10 * DigitsValue(s[..|s| - 1]) + DigitValue(s[|s| - 1])
  }

  /** The shortest decimal spelling of `n`: digits only, no leading zero except for "0" itself. */
  predicate IsCanonicalNat(d: string)
  {
    |d| >= 1 && AllDigits(d) && (d[0] == '0' ==> |d| == 1)
  }

  /** The shortest decimal spelling of an integer: no `+`, no leading zero, no "-0". */
  predicate IsCanonicalInt(t: string)
  {
    IsCanonicalNat(t) || (|t| >= 2 && t[0] == '-' && t[1] != '0' && IsCanonicalNat(t[1..]))
  }

  /** Decimal digits of `n` without leading zeros. */
  function NatToDecimal(n: nat): string
  {
    if n < 10 then [DigitChar(n)] else NatToDecimal(n / 10) + [DigitChar(n % 10)]
  }

  /** `fmt.Sprintf("%d", n)`: a `-` for negative numbers, then the digits of the magnitude. */
  function FormatInt(n: int): string
  {
    if n < 0 then ['-'] + NatToDecimal(-n) else NatToDecimal(n)
  }

  /** The digits after an optional leading `+` or `-`. */
  function Unsigned(s: string): string
  {
    if |s| >= 1 && (s[0] == '+' || s[0] == '-') then s[1..] else s
  }

  /**
   * `strconv.ParseInt(s, 10, 32)`: one optional `+` or `-`, then one or more
   * decimal digits (leading zeros allowed), denoting a value in the int32 range.
   * Go's syntax and range errors are both `None` here.
   */
  function ParseInt32(s: string): (r: Option<int>)
    ensures r.Some? ==> MinInt32 <= r.value <= MaxInt32
    ensures r.Some? ==> |Unsigned(s)| >= 1 && AllDigits(Unsigned(s))
  {
    var digits := Unsigned(s);
    if |digits| == 0 || !AllDigits(digits) then None
    else
      var magnitude: int := DigitsValue(digits);
      var v := if |s| >= 1 && s[0] == '-' then 0 - magnitude else magnitude;
      if MinInt32 <= v <= MaxInt32 then Some(v) else None
  }

  /** Appending a digit multiplies the value by ten and adds the digit. */
  lemma DigitsValueAppend(p: string, c: char)
    requires AllDigits(p) && IsDigit(c)
    ensures AllDigits(p + [c]) && DigitsValue(p + [c]) == 10 * DigitsValue(p) + DigitValue(c)
  {
    assert (p + [c])[..|p|] == p;
  }

  lemma {:induction false} DigitsValueOfNonzeroLead(s: string)
    requires |s| >= 1 && AllDigits(s) && s[0] != '0'
    ensures DigitsValue(s) >= 1
  {
    if |s| > 1 {
      DigitsValueOfNonzeroLead(s[..|s| - 1]);
    }
  }

  /** NatToDecimal spells `n` canonically and its digits denote `n`. */
  lemma {:induction false} NatToDecimalCorrect(n: nat)
    ensures IsCanonicalNat(NatToDecimal(n))
    ensures DigitsValue(NatToDecimal(n)) == n
  {
    var d := NatToDecimal(n);
    if n >= 10 {
      NatToDecimalCorrect(n / 10);
      var p := NatToDecimal(n / 10);
      assert d[..|d| - 1] == p;
    }
  }

  /** A canonical spelling is the only one NatToDecimal produces for its value. */
  lemma {:induction false} CanonicalNatUnique(d: string)
    requires IsCanonicalNat(d)
    ensures NatToDecimal(DigitsValue(d)) == d
  {
    if |d| >= 2 {
      var p := d[..|d| - 1];
      DigitsValueOfNonzeroLead(p);
      CanonicalNatUnique(p);
      var v := DigitsValue(d);
      assert v / 10 == DigitsValue(p) && v % 10 == DigitValue(d[|d| - 1]);
      assert d == p + [d[|d| - 1]];
    }
  }

  /**
   * Formatting then parsing gives the number back exactly when it fits in 32
   * bits, and the formatted text is canonical.
   */
  lemma ParseFormat(n: int)
    ensures IsCanonicalInt(FormatInt(n))
    ensures ParseInt32(FormatInt(n)) == if MinInt32 <= n <= MaxInt32 then Some(n) else None
  {
    if n < 0 {
      NatToDecimalCorrect(-n);
      var d := NatToDecimal(-n);
      assert FormatInt(n)[1..] == d;
    } else {
      NatToDecimalCorrect(n);
    }
  }

  /** A parsed numeral is the formatting of its value exactly when it is canonical. */
  lemma FormatParse(t: string, v: int)
    requires ParseInt32(t) == Some(v)
    ensures FormatInt(v) == t <==> IsCanonicalInt(t)
  {
    ParseFormat(v);
    if IsCanonicalInt(t) {
      if IsCanonicalNat(t) {
        CanonicalNatUnique(t);
      } else {
        var d := t[1..];
        CanonicalNatUnique(d);
        DigitsValueOfNonzeroLead(d);
        assert t == ['-'] + d;
      }
    }
  }

  lemma {:induction false} LeadingZeroValue(d: string)
    requires AllDigits(d)
    ensures AllDigits(['0'] + d) && DigitsValue(['0'] + d) == DigitsValue(d)
    decreases |d|
  {
    if |d| > 0 {
      LeadingZeroValue(d[..|d| - 1]);
      assert (['0'] + d)[..|d|] == ['0'] + d[..|d| - 1];
    }
  }

  /** Leading zeros, with or without a `-` before them, and a `+` sign are accepted and change nothing. */
  lemma ParseIgnoresPlusAndLeadingZero(d: string)
    requires |d| >= 1 && AllDigits(d)
    ensures ParseInt32(['+'] + d) == ParseInt32(d)
    ensures ParseInt32(['0'] + d) == ParseInt32(d)
    ensures ParseInt32(['-', '0'] + d) == ParseInt32(['-'] + d)
  {
    assert (['+'] + d)[1..] == d;
    assert (['-'] + d)[1..] == d;
    assert (['-', '0'] + d)[1..] == ['0'] + d;
    LeadingZeroValue(d);
  }

  /** A sign must be followed by at least one digit. */
  lemma ParseRejectsLoneSign()
    ensures ParseInt32("+") == None && ParseInt32("-") == None
  {
  }

  /**
   * A `-` before accepted digits negates the value; the one magnitude that is
   * accepted only with a `-` is 2^31.
   */
  lemma ParseNegative(d: string)
    requires |d| >= 1 && AllDigits(d)
    ensures ParseInt32(d).Some? ==> ParseInt32(['-'] + d) == Some(-ParseInt32(d).value)
    ensures DigitsValue(d) == 0x8000_0000 ==> ParseInt32(d) == None && ParseInt32(['-'] + d) == Some(MinInt32)
  {
  }

  /**
   * Printable ASCII characters, other than `"` and `\`, that `strconv.Quote`
   * copies unchanged. Quote also keeps printable non-ASCII characters, which
   * MarshalJSON never produces.
   */
  predicate NeedsNoEscape(t: string)
  {
    forall i :: 0 <= i < |t| ==> ' ' <= t[i] <= '~' && t[i] != '"' && t[i] != '\\'
  }

  /** A numeral ParseInt32 accepts is plain text: no space, no quote, no backslash, no control character. */
  lemma NumeralIsPlain(t: string)
    requires ParseInt32(t).Some?
    ensures NeedsNoEscape(t) && ' ' !in t
  {
  }

  /** Quoting is safe on the concatenation of two texts that need no escaping. */
  lemma NeedsNoEscapeConcat(a: string, b: string)
    requires NeedsNoEscape(a) && NeedsNoEscape(b)
    ensures NeedsNoEscape(a + b)
  {
  }

  /** Text that may sit between double quotes without any escape sequence. */
  predicate EscapeFree(t: string)
  {
    '"' !in t && '\\' !in t && '\n' !in t
  }

  /**
   * `strconv.Unquote` on the double-quoted form: the first `"` after the
   * opening one must be the last character, and the text up to it must hold
   * no backslash and no newline. Everything else is `None`.
   */
  function Unquote(s: string): Option<string>
  {
    if |s| < 2 || s[0] != '"' then None
    else match Strings.IndexOf(s[1..], '"')
      case None => None
      case Some(k) =>
        var end := k + 2;
        if '\\' in s[..end] || '\n' in s[..end] || end != |s| then None
        else Some(s[1..end - 1])
  }

  /** Text Quote copies unchanged is also text Unquote gives back unchanged. */
  lemma NeedsNoEscapeIsEscapeFree(t: string)
    requires NeedsNoEscape(t)
    ensures EscapeFree(t)
  {
  }

  /** Unquote succeeds on exactly the escape-free text between two double quotes. */
  lemma UnquoteExactly(s: string, u: string)
    ensures Unquote(s) == Some(u) <==> (s == ['"'] + u + ['"'] && EscapeFree(u))
  {
    if Unquote(s) == Some(u) {
      var k := Strings.IndexOf(s[1..], '"').value;
      assert s[1..][..k] == u;
      assert s[..k + 2] == s;
      assert s == ['"'] + u + ['"'];
    }
    if s == ['"'] + u + ['"'] && EscapeFree(u) {
      assert s[1..] == u + ['"'];
      assert s[1..][..|u|] == u;
      assert Strings.IndexOf(s[1..], '"') == Some(|u|);
    }
  }

  /** `strconv.Quote` on text that needs no escaping: wrap it in double quotes. */
  function Quote(t: string): (q: string)
    requires NeedsNoEscape(t)
    ensures Unquote(q) == Some(t)
  {
    UnquoteExactly(['"'] + t + ['"'], t);
    ['"'] + t + ['"']
  }
}
