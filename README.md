# base85 codec — a Dafny model

This project models the base85 codec of `encoding/base85/encoding.go`. An
`Encoding` binds a table of 85 symbols, called its `representation`; the
symbol of base-85 digit `i` is entry `i` of the table. The codec has three
operations:

- `Encode` packs every group of 4 bytes, big-endian, into a value. It writes
  that value as 5 base-85 digits, most significant first, and spells each
  digit through the table.
- `Decode` looks up the digit of every symbol and accumulates each group of 5
  digits as `value*85 + d`. It then writes the value's 4 low bytes,
  most significant first.
- `repToVal` finds a symbol's digit by a linear search of the table.

The source also defines three tables: Ascii85, Z85 (ZeroMQ) and RFC 1924.

The project has four modules:

- `Base85Spec` (`base85_spec.dfy`) is the pure specification.
  - `Encoded` is `Symbols ∘ EncodeDigits`. Each 4-byte group becomes
    `GroupDigits(BytesValue(group))`.
  - `Decoded` is `DecodeDigits ∘ LookupAll`. Each 5-digit group becomes
    `GroupBytes(DigitsValue(group))`.
  - `DigitOf` is the first position of a symbol in the table.
  - It also holds the properties of the codec and the loop-state predicates
    that the methods use.
- `Base85` (`encoding.dfy`) holds the `Encoding` datatype and its methods.
  - `Encode` and `Decode` keep the source's loops over counters
    (`dataCount`, `strCount`, `value`) and fill a preallocated array. The
    inner divisor loops are `PutSymbols` and `PutBytes`.
  - `RepToVal` is the scanning loop.
  - Each method is proved equal to its specification function.
- `Base85Tables` (`tables.dfy`) holds the three tables. It proves that each
  has 85 distinct symbols.
- `Base85Test` (`encoding_test.dfy`) holds the vectors of
  `encoding/base85/encoding_test.go`, stated as lemmas.

The two failure kinds become the datatype `Error`: `InvalidLength` and
`InvalidSymbol(symbol)`. Go's `uint` becomes `nat`:

- While encoding, a group's value is below 2^32.
- While decoding, a group's value is below 85^5 when the table has 85
  symbols.

Neither wraps around in a 64-bit `uint`. The `byte(...)` conversion of each
decoded byte is written out as `% 256`.

Decoding a group whose value is 2^32 or more keeps only the low 32 bits of
that value. So decode-then-encode is not the identity: `"uuuuu"` in Ascii85
decodes to `[8, 120, 14, 196]`, and those bytes encode to `"#^?it"`. Every
5 symbols of the table are accepted, so a group can be worth up to
85^5−1 > 2^32−1. The model states this (`GroupWraps`, `DecodeThenEncode`,
`Ascii85Wraps`).

## Model

| member | source | states |
|---|---|---|
| Base85.Encoding.Encode | encoding/base85/encoding.go:11-33 | the result is `Encoded(representation, data)`: `InvalidLength` when the length is not a multiple of 4, otherwise the symbols of every group in input order |
| Base85.Encoding.PutSymbols | encoding/base85/encoding.go:24-27 | the divisor loop appends exactly the 5 symbols `representation[value / 85^k % 85]`, k = 4 down to 0, after the symbols already written, and advances the count by 5 |
| Base85.Encoding.Decode | encoding/base85/encoding.go:35-63 | the result is `Decoded(representation, str)`: `InvalidLength` for a length that is not a multiple of 5, the first symbol missing from the table as `InvalidSymbol` with no partial output, otherwise 4 bytes per group |
| Base85.Encoding.PutBytes | encoding/base85/encoding.go:55-58 | the divisor loop appends exactly the 4 bytes `value / 256^k % 256`, k = 3 down to 0, after the bytes already written |
| Base85.Encoding.RepToVal | encoding/base85/encoding.go:65-73 | the result is `DigitOf(representation, b)`, the first position of `b` or `InvalidSymbol(b)` |
| Base85Spec.BytesValue | encoding/base85/encoding.go:20-21 | the value of a byte group, accumulated big-endian as `value*256 + b`, as the encode loop does |
| Base85Spec.DigitsValue | encoding/base85/encoding.go:52 | the value of a digit group, accumulated as `value*85 + d`, as the decode loop does |
| Base85Spec.GroupDigits | encoding/base85/encoding.go:24-25 | the 5 digits `v / 85^k % 85`, k = 4 down to 0, each below 85 |
| Base85Spec.Symbols | encoding/base85/encoding.go:25 | each digit spelled as `representation[d]`, one symbol per digit |
| Base85Spec.GroupBytes | encoding/base85/encoding.go:55-56 | the 4 bytes `v / 256^k % 256`, k = 3 down to 0 |
| Base85Spec.DigitOf | encoding/base85/encoding.go:65-73 | the digit of a symbol: its first position in the table, or `InvalidSymbol(b)`; a found digit is a position of the table |
| Base85Spec.LookupAll | encoding/base85/encoding.go:45-50 | the digits of the symbols in order, one per symbol, or the error of the first symbol that has none |
| Base85Spec.DigitOfFirst | encoding/base85/encoding.go:65-73 | a symbol has a digit exactly when it is in the table; the digit is a position holding the symbol with no earlier position holding it; otherwise the error names the symbol |
| Base85Spec.Encoded | encoding/base85/encoding.go:12-18 | encoding fails exactly when the length is not a multiple of 4, and then with `InvalidLength`; on success the text has 5·len/4 symbols |
| Base85Spec.EncodeDigits | encoding/base85/encoding.go:17-30 | 5 digits per 4-byte group |
| Base85Spec.EncodedInTable | encoding/base85/encoding.go:25 | every symbol that encoding emits is an entry of the table |
| Base85Spec.Decoded | encoding/base85/encoding.go:42-62 | a successful decode has 4·len/5 bytes |
| Base85Spec.DecodeDigits | encoding/base85/encoding.go:42-60 | 4 bytes per 5-digit group |
| Base85Spec.LookupAllDigits | encoding/base85/encoding.go:45-50 | the symbols are all looked up exactly when each is in the table, and then digit i is the digit of symbol i |
| Base85Spec.LookupAllFirstInvalid | encoding/base85/encoding.go:45-50 | a failed lookup names the first symbol that is not in the table, and every earlier symbol is in it |
| Base85Spec.DecodedErrors | encoding/base85/encoding.go:38-50 | decoding succeeds exactly when the length is a multiple of 5 and every symbol is in the table; a bad length gives `InvalidLength`; otherwise the failure names the first symbol outside the table |
| Base85Spec.DigitsOfValue | encoding/base85/encoding.go:20-27 | a value below 85^5 written as 5 digits, most significant first, reads back as that value |
| Base85Spec.ValueOfDigits | encoding/base85/encoding.go:52-53 | 5 digits below 85 accumulate to a value below 85^5 whose digits are those digits |
| Base85Spec.ValueOfBytes | encoding/base85/encoding.go:55-58 | the 4 bytes written for a value read back as that value mod 2^32 |
| Base85Spec.BytesOfValue | encoding/base85/encoding.go:20-21 | 4 bytes accumulated big-endian and written back give the same bytes |
| Base85Spec.DigitOfSymbol | encoding/base85/encoding.go:65-73 | with distinct symbols, the symbol of digit d is looked up as d |
| Base85Spec.LookupSymbols | encoding/base85/encoding.go:45-50 | with distinct symbols, looking up the symbols of a digit sequence gives back the digits |
| Base85Spec.DecodeEncodeDigits | encoding/base85/encoding.go:20-29 | decoding the digits of any whole-group byte sequence gives back the bytes |
| Base85Spec.RoundTrip | encoding/base85/encoding.go:11-63 | with a table of distinct symbols, decoding what encoding returns gives back the input |
| Base85Spec.EncodeDecodeDigits | encoding/base85/encoding.go:52-58 | digits below 85 whose groups are worth less than 2^32 survive bytes and back |
| Base85Spec.DecodeThenEncode | encoding/base85/encoding.go:52-58 | with a table of exactly 85 symbols, encoding what decoding returns gives back the text when no group is worth 2^32 or more |
| Base85Spec.GroupWraps | encoding/base85/encoding.go:52-58 | five copies of the last symbol decode to the low 32 bits of 85^5−1, `[8, 120, 14, 196]`, which do not encode back to those five symbols |
| Base85Spec.EncodingGroup | encoding/base85/encoding.go:21-28 | reading the fourth byte of a group appends that group's 5 symbols and starts a new group |
| Base85Spec.DecodingGroup | encoding/base85/encoding.go:52-59 | reading the fifth symbol of a group appends that group's 4 bytes and starts a new group |
| Base85Spec.DecodingFails | encoding/base85/encoding.go:46-50 | a symbol outside the table, after symbols inside it, makes the whole decode fail with that symbol |
| Base85Tables.Ascii85Run | encoding/base85/encoding.go:76-80 | the Ascii85 table is the consecutive characters from '!' (code 33) on |
| Base85Tables.Ascii85Table | encoding/base85/encoding.go:76-80 | the Ascii85 table has 85 distinct symbols |
| Base85Tables.Z85Table | encoding/base85/encoding.go:83-87 | the Z85 table has 85 distinct symbols |
| Base85Tables.RFC1924Table | encoding/base85/encoding.go:90-94 | the RFC 1924 table has 85 distinct symbols |
| Base85Tables.Ascii85Encoding | encoding/base85/encoding.go:76-80 | the Ascii85 codec has 85 distinct symbols |
| Base85Tables.Z85Encoding | encoding/base85/encoding.go:83-87 | the Z85 codec has 85 distinct symbols |
| Base85Tables.RFC1924Encoding | encoding/base85/encoding.go:90-94 | the RFC 1924 codec has 85 distinct symbols |
| Base85Tables.TablesRoundTrip | encoding/base85/encoding.go:76-94 | each of the three codecs decodes what it encodes |
| Base85Test.HelloWorldEncoded | encoding/base85/encoding_test.go:97-108 | the 8 test bytes have the base-85 digits 43 14 21 21 24 58 24 27 21 13 |
| Base85Test.Z85HelloWorld | encoding/base85/encoding_test.go:97-121 | Z85 encodes the test bytes as "HelloWorld" and decodes "HelloWorld" back to them |
| Base85Test.RFC1924HelloWorld | encoding/base85/encoding_test.go:123-146 | RFC 1924 encodes the test bytes as "hELLOwORLD" and decodes it back to them |
| Base85Test.Ascii85HelloWorld | encoding/base85/encoding_test.go:10-33 | Ascii85 encodes the test bytes as "L/669[9<6." and decodes it back to them |
| Base85Test.ManIsEncoded | encoding/base85/encoding_test.go:35-53 | "Man is d" has the base-85 digits 24 73 80 78 61 33 75 65 35 12 |
| Base85Test.Ascii85ManIs | encoding/base85/encoding_test.go:35-67 | Ascii85 encodes "Man is d" as "9jqo^BlbD-", the start of the expected text, and decodes it back |
| Base85Test.PartialGroups | encoding/base85/encoding.go:11-40 | 3 bytes are refused by encoding and 4 symbols by decoding, both with `InvalidLength` |
| Base85Test.RFC1924Tilde | encoding/base85/encoding.go:92 | entry 84, the last symbol of the RFC 1924 table, is '~' |
| Base85Test.Z85Tilde | encoding/base85/encoding.go:85 | '~' is not a symbol of the Z85 table |
| Base85Test.Z85InvalidSymbol | encoding/base85/encoding.go:46-50 | Z85 refuses "~elloWorld" with `InvalidSymbol('~')` |
| Base85Test.Ascii85Wraps | encoding/base85/encoding.go:52-58 | Ascii85 decodes "uuuuu", worth 85^5−1, to its low 32 bits `[8, 120, 14, 196]` |
| Base85Test.WrappedEncoded | encoding/base85/encoding.go:20-29 | those 4 bytes encode with Ascii85 as "#^?it", not as "uuuuu" |

## Left out

- The text of the `fmt.Errorf` messages (encoding.go:14, 39, 72). The two failure kinds are the `Error` datatype.
- The extra byte of `make([]byte, strLen+1)` (encoding.go:18). It is sliced away before the text is returned, and the model allocates exactly `strLen`.
- Base85.Encoding.Encode: requires a table of at least 85 symbols, so the model says nothing about encoding with a shorter table. With such a table the Go code panics only when a digit reaches the table's length. A bad length, empty data, or data whose digits all stay below the table's length is handled normally by the Go code, and those calls are outside the model too.
- Go's `uint` width: values are `nat`. Encoding values stay below 2^32 and decoding values below 85^5 for an 85-symbol table, so a 64-bit `uint` never wraps. A larger table could give larger digits, and no wrap-around of such values is modelled.
- Base85Spec.DecodeThenEncode: states only the direction "groups below 2^32 ⇒ the text comes back". `GroupWraps` and `Ascii85Wraps` show the other direction on the largest group, not for every group.
- Base85Test.Ascii85ManIs: the "Man is distinguished…" vector (encoding_test.go:35-67) is 268 bytes, 67 groups, and only its first two groups are proved. TestAscii85Encoding is covered for the first 10 symbols of the expected text and TestAscii85Decoding for the first 10 symbols of its input. The remaining 65 groups are not checked against the literal.
- The comparisons with Go's own `encoding/ascii85` package (encoding_test.go:4, 23-26, 47-48). That package is not part of this model.
- The all-zero `"z"` shorthand test (encoding_test.go:69-95). It is skipped in the source as not implemented, so it is not behaviour of the codec.
- The printing of `ExampleAllEncodings` (encoding_test.go:10-33) is I/O. Its three vectors are the `HelloWorld` lemmas.
