# Movie runtime codec

A Dafny model of the `Runtime` scalar of the movie API's `data` package
(`internal/data/runtime.go`). A movie runtime is a number of minutes, held
as a 32-bit signed integer, and travels in JSON as the string `"<n> mins"`.

- `MarshalJSON` writes the value in decimal (`fmt`'s `%d`), appends ` mins`
  and wraps the result in double quotes (`strconv.Quote`). Its error result
  is always nil.
- `UnmarshalJSON` unquotes its input (`strconv.Unquote`), splits the result
  on every single space (`strings.Split`), and demands exactly two pieces,
  the second being `mins`. It then parses the first piece with
  `strconv.ParseInt(…, 10, 32)`. Every failure returns the one sentinel
  `ErrInvalidRuntimeFormat` and leaves the receiver untouched. Only success
  writes through the pointer receiver.

Files:

- `wrappers.dfy`: module `Wrappers`, with `Option` and `Result`.
- `strings.dfy`: module `Strings`, with `IndexOf`, `Split`, `Join` and their
  laws.
- `strconv.dfy`: module `Strconv`, with decimal formatting (`FormatInt`),
  `ParseInt32`, `Quote`, `Unquote` and their laws.
- `runtime.dfy`: module `Data`, with the `Runtime` newtype (the int32
  range), `ErrInvalidRuntimeFormat`, `MarshalJSON`, and `Decode` (the
  outcome of `UnmarshalJSON` as a pure function). It also holds the class
  `RuntimeVar`: a `Runtime` variable whose `UnmarshalJSON` method updates it
  in place, as the Go pointer receiver does.
- `runtime_properties.dfy`: module `RuntimeProperties`, with the exact set
  of accepted wire strings, the round trip, the int32 boundary, canonical
  re-encoding, and worked accept/reject examples.

The codec round-trips every int32, negatives included (`RoundTrip`), and
accepts a leading `+` or `-` on the number (`AcceptsPlusSign`,
`AcceptsNegative`).

## Model

| member | source | states |
|---|---|---|
| `Data.Runtime` | internal/data/runtime.go:16 | A newtype over the integers from -2^31 to 2^31-1, the range of Go's int32; `RoundTrip` and `Int32Boundary` show the codec covers exactly that range. |
| `Data.RuntimeError` | internal/data/runtime.go:12 | The one error decoding reports, with the message "invalid runtime format"; `UnmarshalJSON`'s ensures return it on every failure and `DecodeRejectsBadNumeral` fixes it for a bad numeral. |
| `Data.Decode` | internal/data/runtime.go:43-65 | No contract of its own: `DecodeAccepts` and `DecodeSound` characterise it in both directions, and `DecodeRejectsBadNumeral` fixes its error result. |
| `Data.MarshalJSON` | internal/data/runtime.go:22-30 | Never fails (nil error). The output is a double quote, the canonical decimal spelling of the value (no `+`, no leading zero), ` mins`, and a closing double quote. |
| `Data.QuotedRuntimeText` | internal/data/runtime.go:24-27 | The text handed to `strconv.Quote` needs no escape sequence, and its number part parses back to the value. |
| `Data.RuntimeVar.UnmarshalJSON` | internal/data/runtime.go:43-65 | Returns nil exactly when the input decodes, and the receiver then holds the decoded value. Otherwise it returns `ErrInvalidRuntimeFormat` and the receiver keeps its previous value. |
| `Strconv.ParseInt32` | internal/data/runtime.go:58 | Any accepted value lies in the int32 range. An accepted text is an optional `+` or `-` followed by at least one decimal digit, so a lone sign is refused. |
| `Strconv.ParseRejectsLoneSign` | internal/data/runtime.go:58 | A `+` or `-` with no digit after it is refused. |
| `Strconv.FormatInt` | internal/data/runtime.go:24 | No contract of its own: `ParseFormat` shows its output is canonical and parses back to the number, and `FormatParse` that it is the only canonical spelling. |
| `Strconv.Unquote` | internal/data/runtime.go:47 | No contract of its own: `UnquoteExactly` characterises it in both directions. |
| `Strconv.Quote` | internal/data/runtime.go:27 | On text that needs no escaping, `Unquote` gives the quoted text back unchanged. |
| `Strconv.UnquoteExactly` | internal/data/runtime.go:47-50 | Unquoting succeeds exactly on `"` + text + `"` where the text has no `"`, backslash or newline, and it yields that text. |
| `Strconv.NatToDecimalCorrect` | internal/data/runtime.go:24 | The decimal digits written for `n` are canonical and denote `n`. |
| `Strconv.CanonicalNatUnique` | internal/data/runtime.go:24 | A canonical digit string is the one the formatter writes for its value. |
| `Strconv.ParseFormat` | internal/data/runtime.go:58 | The formatted text of any integer is canonical. Parsing it gives the integer back exactly when it fits in 32 bits, and fails otherwise. |
| `Strconv.FormatParse` | internal/data/runtime.go:58 | A parsed numeral equals the formatting of its value exactly when it is canonical. |
| `Strconv.ParseIgnoresPlusAndLeadingZero` | internal/data/runtime.go:58 | A leading `+` and leading zeros (after a `-` too) are accepted and do not change the parsed value. |
| `Strconv.ParseNegative` | internal/data/runtime.go:58 | A `-` in front of accepted digits negates the parsed value; `-2147483648` is accepted although `2147483648` is not. |
| `Strings.Split` | internal/data/runtime.go:52 | Always at least one piece; `JoinSplit`, `SplitJoin` and `SplitPiecesSeparatorFree` make it the inverse of joining with the separator, and `SplitCount` gives one piece more than there are separators. |
| `Strings.JoinSplit` | internal/data/runtime.go:52 | Splitting loses nothing: joining the pieces with the separator gives back the input. |
| `Strings.SplitPiecesSeparatorFree` | internal/data/runtime.go:52 | No piece contains the separator. |
| `Strings.SplitJoin` | internal/data/runtime.go:52 | Splitting the join of separator-free pieces gives back those pieces. |
| `Strings.SplitCount` | internal/data/runtime.go:52 | There is one piece more than there are separators, so every extra, leading or trailing space adds a piece. |
| `Strings.SplitPair` | internal/data/runtime.go:52-54 | The forward half of `SplitInTwo`, in the cheaper form decoding uses: two pieces means the input is the first piece, one separator, then the second piece, and neither piece contains the separator. |
| `Strings.SplitInTwo` | internal/data/runtime.go:52-54 | Splitting gives exactly `[a, b]` if and only if the input is `a`, one separator, `b`, and neither contains the separator. |
| `Strings.IndexOf` | internal/data/runtime.go:52 | The result is the first position of the character, or none when the character does not occur. |
| `RuntimeProperties.DecodeAccepts` | internal/data/runtime.go:43-65 | Every numeral that `ParseInt(…, 10, 32)` accepts, written as `"<numeral> mins"`, decodes to the parsed value. |
| `RuntimeProperties.DecodeSound` | internal/data/runtime.go:43-65 | Decoding accepts nothing else. An accepted input is `"<numeral> mins"`, and its numeral parses to the decoded value. |
| `RuntimeProperties.DecodeRejectsBadNumeral` | internal/data/runtime.go:58-61 | `"<t> mins"` is rejected with `ErrInvalidRuntimeFormat` whenever `ParseInt(t, 10, 32)` fails. |
| `RuntimeProperties.RoundTrip` | internal/data/runtime.go:22-65 | Decoding the output of `MarshalJSON` gives back every int32 value, zero and negatives included. |
| `RuntimeProperties.MarshalIsCanonicalWire` | internal/data/runtime.go:22-30 | The output of `MarshalJSON` is the wire form of the value's `%d` spelling. |
| `RuntimeProperties.Int32Boundary` | internal/data/runtime.go:58-61 | The wire form of a decimal integer is accepted if and only if the integer lies in [-2^31, 2^31-1]. |
| `RuntimeProperties.ReencodeCanonical` | internal/data/runtime.go:22-65 | Re-encoding a decoded value reproduces the input if and only if the input's numeral is canonical. So marshalling is not a left inverse of decoding. |
| `RuntimeProperties.DecodedHasOneSpace` | internal/data/runtime.go:52-56 | An accepted input contains exactly one space. |
| `RuntimeProperties.RejectsUnquoted` | internal/data/runtime.go:47-50 | Input that does not begin and end with a double quote is rejected with `ErrInvalidRuntimeFormat`. |
| `RuntimeProperties.RejectsBareText` | internal/data/runtime.go:47-50 | The unquoted `102 mins` is rejected. |
| `RuntimeProperties.RejectsMissingSpace` | internal/data/runtime.go:52-56 | `"102mins"` is rejected. |
| `RuntimeProperties.RejectsOtherUnit` | internal/data/runtime.go:52-56 | `"102 minutes"` is rejected. |
| `RuntimeProperties.RejectsDoubleSpace` | internal/data/runtime.go:52-56 | `"102  mins"` is rejected. |
| `RuntimeProperties.RejectsLeadingSpace` | internal/data/runtime.go:52-56 | `" 102 mins"` is rejected. |
| `RuntimeProperties.RejectsTrailingSpace` | internal/data/runtime.go:52-56 | `"102 mins "` is rejected. |
| `RuntimeProperties.RejectsLetters` | internal/data/runtime.go:58-61 | `"abc mins"` is rejected. |
| `RuntimeProperties.RejectsEmptyNumber` | internal/data/runtime.go:58-61 | `" mins"` (an empty number part) is rejected. |
| `RuntimeProperties.ParseRejectsTwoToThe31` | internal/data/runtime.go:58 | `2147483648` does not fit in 32 bits and fails to parse. |
| `RuntimeProperties.RejectsOverflow` | internal/data/runtime.go:58-61 | `"2147483648 mins"` is rejected. |
| `RuntimeProperties.AcceptsZero` | internal/data/runtime.go:58-65 | `"0 mins"` decodes to 0, because the codec applies no range rule of its own. |
| `RuntimeProperties.AcceptsNegative` | internal/data/runtime.go:58-65 | `"-5 mins"` decodes to -5. |
| `RuntimeProperties.AcceptsInt32Min` | internal/data/runtime.go:58-65 | `"-2147483648 mins"` decodes to the smallest int32. |
| `RuntimeProperties.AcceptsPlusSign` | internal/data/runtime.go:58-65 | `"+5 mins"` decodes to 5. |
| `RuntimeProperties.AcceptsLeadingZero` | internal/data/runtime.go:58-65 | `"05 mins"` decodes to 5. |
| `RuntimeProperties.MarshalFive` | internal/data/runtime.go:22-30 | 5 encodes as `"5 mins"`, not as `"+5 mins"` or `"05 mins"`. |
| `RuntimeProperties.ReceiverRoundTrip` | internal/data/runtime.go:22-65 | Calling `UnmarshalJSON` on the output of `MarshalJSON` succeeds, and the variable then holds the marshalled value, whatever it held before. |
| `RuntimeProperties.ReceiverKeepsValueOnError` | internal/data/runtime.go:43-65 | On a rejected input `UnmarshalJSON` returns `ErrInvalidRuntimeFormat`, and the variable keeps its earlier value. |

## Left out

- Unquote: `strconv.Unquote` is modelled only for double-quoted text with no backslash. Backquoted raw strings and double-quoted text with escape sequences give `None` in the model. Go can accept some of them, for example `` `5 mins` `` or `"5\u0020mins"`, which decode to 5 in Go. Single-quoted rune literals are rejected by both, since a single character never splits into a number and `mins`.
- Quote: escaping is not modelled. The function requires printable ASCII without `"` or backslash, which is all that `MarshalJSON` ever passes it (`QuotedRuntimeText`).
- ParseInt32: Go's two error kinds, `ErrSyntax` and `ErrRange`, are both `None`. `UnmarshalJSON` maps both to `ErrInvalidRuntimeFormat`, so nothing observable is lost.
- Bytes: Go's `[]byte` and `string` are sequences of bytes, while the model uses a `string` of Unicode characters. Input that is not valid UTF-8 is not modelled.
- Errors: the sentinel `ErrInvalidRuntimeFormat` is a datatype value with its message. Go's error identity (pointer equality from `errors.New`) is not modelled.
- JSON plumbing: `encoding/json` is not part of this model. That covers how it calls `MarshalJSON`/`UnmarshalJSON`, the `omitempty` rule that skips a zero runtime, and the struct tags in `internal/data/movie.go`.
- HTTP handlers, routes, validation and storage: `cmd/api/movies.go`, `cmd/api/routes.go` and `internal/data/models.go` are request plumbing and database access around the codec. The validator's source is not part of this model.
