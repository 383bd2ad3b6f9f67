# Bencode decoder of a BitTorrent client, in Dafny

This project models the bencode decoder of `src/bencode.rs`. Bencode is the
"bencoding" format of BEP 3, the BitTorrent Protocol Specification. The decoder
reads one value from a cursor over the input text, which is a `&mut &str` that it
advances in place:

- `i…e` is an integer. The body runs up to the first `e` in the remaining input.
  A body that does not parse as a number becomes 0.
- `<len>:<bytes>` is a string. It is chosen when the first character is a
  decimal digit. The length is the text before the first `:`.
- `l…e` is a list. A loop decodes elements until the cursor is at an `e`.
  The branch is taken only when the whole remaining input ends with `e`.
- `d…e` is a dictionary. It is a `todo!()`, so the branch always fails.
  It is also guarded by "the remaining input ends with `e`".
- The empty input decodes to `Null`. Every other input panics.

The files:

- `results.dfy` (module `Results`) holds the error kinds, one per panic of the
  original. It also holds `Result`, the value-or-error handed to callers, and
  `Parsed`, a step's value plus the remaining input, or an error.
- `json_value.dfy` (module `Json`) holds the part of `serde_json::Value` that
  the decoder builds: `Null`, `Number`, `String` and `Array`.
- `text.dfy` (module `Text`) holds the library operations the decoder calls.
  These are `find`/`split_once` (first occurrence), `ends_with`,
  `usize::from_str` and `serde_json::Number::from_str`. It also holds
  `DecimalText` and `SignedText`, reference decimal renderings that the two
  number parsers are proved against.
- `bencode_spec.dfy` (module `BencodeSpec`) holds `ParseValue` and `ParseList`.
  They are what one call of `decode_bencoded_value` and the loop of
  `decode_benencoded_list` compute on the remaining input. The lemmas about
  each branch are here too.
- `bencode.dfy` (module `Bencode`) is the decoder itself, written imperatively.
  The input is a fixed string and the cursor is an index into it. Each method
  returns where the original leaves the cursor. The list method is the
  original's `while` loop. The integer and string arms of the original's
  `match` are methods of their own (`DecodeInteger`, `DecodeString`), as they
  are functions of their own in `BencodeSpec`. Each method is proved to
  compute the matching function of `BencodeSpec` on the input from the cursor
  on.
- `bencode_tests.dfy` (module `BencodeTests`) holds the unit tests of
  `src/bencode.rs`, as lemmas and as a method whose contract states the
  cursor-based decoder's results on the same inputs.

Panics are modelled as `Err`/`Fail` values. The errors are `InvalidInteger`,
`DictionaryNotImplemented`, `MissingColon`, `InvalidLength`,
`StringOutOfBounds`, `Unhandled` and `UnexpectedEndOfList`. `StringOutOfBounds`
stands for the out-of-range slice panic, and `DictionaryNotImplemented` for the
`todo!()`.

BEP 3 forbids leading zeros and `-0` in integers. `src/bencode.rs` checks for
neither, and it decodes no dictionaries. It has no encoder and no
nesting-depth bound. This model follows the code. For example, a length such
as `05` is accepted (`Text.LeadingZeroIgnored`). Integer bodies go through
`serde_json::Number::from_str`, which the model abstracts (see "## Left out"):
there the source decodes `i03e` to 0, the model to 3.
Dictionaries always fail. A list followed by input that does not end in `e`
is rejected.

## Model

| member | source | states |
|---|---|---|
| `Text.IsDigit` | src/bencode.rs:32 | `is_digit(10)` holds exactly for the ten ASCII characters `0` to `9` |
| `Text.EndsWith` | src/bencode.rs:22-27 | `ends_with('e')`, the guard of the dictionary and list arms, holds exactly when the one-character text `e` is a suffix of the remaining input |
| `Text.ParseUsize` | src/bencode.rs:35 | `usize::from_str`: accepts one or more ASCII digits whose value is below 2^64 and gives that value; anything else, the empty text included, is none |
| `Text.ParseNumber` | src/bencode.rs:14-15 | `Number::from_str`, on the integers: accepts one or more ASCII digits, optionally after one `-`, and gives their value, negated after `-`; anything else is none; a negative result always comes from a leading `-` |
| `Text.NumberOrZero` | src/bencode.rs:14-16 | `unwrap_or_else(\|_\| Number::from(0))`: the parsed number when `Number::from_str` accepts the body, 0 when it does not |
| `Text.FirstIndex` | src/bencode.rs:10 | `find`: the result is an index holding the character with no earlier occurrence; there is no result exactly when the character does not occur |
| `Text.FirstIndexIs` | src/bencode.rs:34 | the first occurrence is unique: an index holding the character with none before it is the one `find`/`split_once` return |
| `Text.DecimalTextValue` | src/bencode.rs:35 | reading back the decimal text of any natural number gives that number |
| `Text.LeadingZeroIgnored` | src/bencode.rs:35 | a leading `0` does not change the value of a digit run: leading zeros are not rejected |
| `Text.ParseUsizeDecimal` | src/bencode.rs:35 | `usize::from_str` reads back the decimal text of every length below 2^64 |
| `Text.ParseNumberSigned` | src/bencode.rs:14-16 | the integer parser reads back the decimal text of every integer, negative ones included |
| `Text.NumberOrZeroFallsBack` | src/bencode.rs:14-16 | an empty body, or one with a character other than a digit (or a leading `-`), yields 0 rather than an error |
| `BencodeSpec.ParseValue` | src/bencode.rs:7-54 | every successful decode of non-empty input consumes at least one character; the value is `Null` exactly when the input is empty |
| `BencodeSpec.ParseInteger` | src/bencode.rs:9-20 | a successful integer arm yields a number and consumes at least one character |
| `BencodeSpec.ParseString` | src/bencode.rs:32-45 | a successful string arm yields a string and consumes at least one character |
| `BencodeSpec.ParseList` | src/bencode.rs:60-81 | a successful list loop consumes at least the closing `e` and yields no `Null` element |
| `BencodeSpec.ValueLeavesSuffix` | src/bencode.rs:12 | what a successful decode leaves is a suffix of its input, a proper one when the input is not empty: the cursor only moves forward over consumed characters |
| `BencodeSpec.ListLeavesSuffix` | src/bencode.rs:78 | what a successful list loop leaves is a suffix of its input |
| `BencodeSpec.ListElement` | src/bencode.rs:63-75 | one turn of the loop keeps its invariant: a decoded element is appended after the elements so far, and a failing element fails the list |
| `BencodeSpec.ListEnd` | src/bencode.rs:77-80 | at a leading `e` the elements read so far are the list, and the input after that `e` remains |
| `BencodeSpec.ListAfterRun` | src/bencode.rs:60-81 | decoding a list over a run of decoded elements gives the run's elements, in input order, in front of the decode of what follows the run |
| `BencodeSpec.ListOfRun` | src/bencode.rs:63-80 | a run of elements followed by `e` is the whole list, and the input after that `e` remains |
| `BencodeSpec.ListRunAtEnd` | src/bencode.rs:63-66 | a run of elements that reaches the end of the input is an unterminated-list error |
| `BencodeSpec.ListIsRun` | src/bencode.rs:60-81 | conversely, every successful list decode is a run of element decodes, left to right, followed by an `e` that is consumed |
| `BencodeSpec.IntegerBranch` | src/bencode.rs:9-17 | with the first `e` at `k`, decoding yields the number read from the text strictly between `i` and `e` (0 if it does not parse), and the input after `e` remains |
| `BencodeSpec.IntegerUnterminated` | src/bencode.rs:18-20 | `i` with no `e` anywhere in the remaining input is an error |
| `BencodeSpec.IntegerLiteral` | src/bencode.rs:9-17 | `i`, the decimal text of any integer and `e` decode to that integer, whatever input follows |
| `BencodeSpec.StringBranch` | src/bencode.rs:32-38 | with the first `:` at `c` and a length `n` before it, the value is exactly the next `n` characters after `:` and the cursor moves past them; it is an error if fewer than `n` follow |
| `BencodeSpec.StringBadLength` | src/bencode.rs:39-41 | a length text before the first `:` that is not a `usize` is an error |
| `BencodeSpec.StringWithoutColon` | src/bencode.rs:42-44 | a leading digit with no `:` in the remaining input is an error |
| `BencodeSpec.StringLiteral` | src/bencode.rs:32-38 | any string preceded by its decimal length and `:` decodes to that string, whatever input follows |
| `BencodeSpec.ListBranch` | src/bencode.rs:27-31 | when the input ends with `e`, `l`, then a run of elements, then `e`, decodes to those elements in input order |
| `BencodeSpec.ListUnterminated` | src/bencode.rs:60-66 | inside `l`, a run of elements that reaches the end of the input is an error |
| `BencodeSpec.ContainerGuard` | src/bencode.rs:22-31 | a leading `l` or `d` when the remaining input does not end with `e` is an unhandled value; a leading `d` always fails |
| `BencodeSpec.Unrecognised` | src/bencode.rs:46-52 | the empty input is `Null` and consumes nothing; any other input not starting with `i`, `l`, `d` or a digit is an unhandled value |
| `Bencode.Decode` | src/bencode.rs:3-6 | `decode` succeeds exactly when one value decodes from the start of the input, and returns that value or error |
| `Bencode.DecodeBencodedValue` | src/bencode.rs:7-54 | from cursor `pos`, returns the value and moves the cursor to the remaining input given by `ParseValue`, or returns its error |
| `Bencode.DecodeInteger` | src/bencode.rs:9-20 | the integer arm: returns the number and moves the cursor past the first `e` as `ParseInteger` does, or returns its error |
| `Bencode.DecodeString` | src/bencode.rs:32-45 | the string arm: returns the string and moves the cursor past it as `ParseString` does, or returns its error |
| `Bencode.DecodeBencodedDictionary` | src/bencode.rs:56-58 | always fails |
| `Bencode.DecodeBencodedList` | src/bencode.rs:60-81 | the loop returns the elements and moves the cursor past the closing `e` as `ParseList` does, or returns its error; it stops because every element decode moves the cursor forward |
| `BencodeTests.IntegerExample` | src/bencode.rs:87-93 | `i123e` is 123 with nothing remaining |
| `BencodeTests.StringExample` | src/bencode.rs:95-101 | `5:hello` is `"hello"` with nothing remaining |
| `BencodeTests.EmptyStringExample` | src/bencode.rs:103-109 | `0:` is the empty string with nothing remaining |
| `BencodeTests.ListExample` | src/bencode.rs:111-118 | `l5:helloi52ee` is `["hello", 52]` with nothing remaining |
| `BencodeTests.InvalidExample` | src/bencode.rs:120-125 | `x123e` is an unhandled value |
| `BencodeTests.CursorDecoderOnTests` | src/bencode.rs:87-125 | the cursor-based decoder gives 123, `"hello"`, `""`, `["hello", 52]` and an unhandled-value error on the five test inputs, and leaves the cursor at the end of each input it decodes |

## Left out

- `src/main.rs` is not part of this model. It handles command-line arguments and prints the JSON rendering of the value, which is I/O.
- `src/torrent.rs` is not part of this model. Its file reading is `todo!()`, and the rest is an empty constructor and a field getter.
- Panics are errors in the model. The panic message text is not modelled, only which panic it is.
- `Bencode.DecodeBencodedValue`: says nothing about the cursor after an error, because the original panics there. For a dictionary the original steps over the `d` before its `todo!()`. The same holds for `Bencode.DecodeInteger`, `Bencode.DecodeString` and `Bencode.DecodeBencodedList`.
- `Text.ParseNumber`: `serde_json::Number::from_str` is a foreign library. It is modelled as an optional `-` followed by one or more ASCII digits. Its JSON number grammar is not modelled: the rejection of leading zeros, `-0` and out-of-range values becoming floats, and fractions and exponents. So the source decodes `i03e` to 0 and the model to 3, and the source decodes `i-0e` to the float -0.0 and the model to 0.
- `Text.NumberOrZero`, `Text.ParseNumberSigned` and `BencodeSpec.IntegerLiteral` inherit this abstraction. In the source, the round trip of `IntegerLiteral` holds only for integers within the `i64`/`u64` range; the model's holds for every integer.
- `Text.ParseUsizeDecimal`: `usize` is taken to be 64 bits wide. The optional `+` that `usize::from_str` accepts is not modelled, because the string branch only parses text that starts with a digit.
- The input is a sequence of characters, not UTF-8 bytes. The panic for slicing a `&str` off a character boundary is not modelled, nor the difference between byte and character lengths.
- Dictionary decoding has no semantics here, because the original has none (`todo!()`).
- There is no encoder, nesting-depth bound or torrent metadata mapping, and no error kinds beyond one per panic site of `src/bencode.rs`, because `src/bencode.rs` has none of them. `DecimalText` and `SignedText` exist only as reference renderings for the lemmas.
