# Bencode decoder of torrent_rs, modelled and verified in Dafny

This project models the Bencode decoder in `src/bencode.rs`. Bencode is the
encoding of the "bencoding" section of BEP 3, the BitTorrent protocol
specification. The decoder is a `Parser`: a byte buffer plus a cursor
`current`. Its recursive `parse` reads one value from the cursor on. The byte
under the cursor chooses the case:

- `d` starts a dictionary;
- `l` starts a list;
- `i` starts an integer;
- an ASCII digit starts a length-prefixed byte string;
- any other byte is a `panic!`.

The model follows the code as written, including its deviations from the
format:

- The list and dictionary loops stop on their closing `e` but never step over
  it.
- Reading past the end of the buffer is an index panic, not an error.
- `is_at_end` compares with `>`, so `advance` can move the cursor to one past
  the end.

Files:

- `numbers.dfy`: byte, `isize` and `usize` types. Also the language that
  Rust's `str::parse` accepts for `isize` and `usize` on a 64-bit target, and
  its inverse on decimal formatting.
- `utf8.dfy`: well-formed UTF-8 (section 3 of RFC 3629), which is what
  `String::from_utf8` checks.
- `bencode.dfy`:
  - the `Bencode` value type;
  - the three observable outcomes `Ok`, `Err` and `Panic`;
  - each `parse` case as a function from the bytes and a cursor position to
    an outcome and the new cursor position.
- `parser.dfy`: the `Parser` class. Its fields are a `data` array and a
  `current` cursor.
  - `peek`, `previous` and `is_at_end` read the state, so they are functions
    of the class.
  - `new` and `advance` are a constructor and a method whose contracts state
    the new cursor directly.
  - `advance_to`, `advance_exact` and the recursive `parse` are methods. Each
    is proved to give the result and the new cursor of its function in
    `bencode.dfy`: `SpanTo`, `TakeExact` and `DecodeAt`.
- `steps.dfy`: what one step of each case does, stated on the input bytes.
- `encoding.dfy`: a reference encoder (ghost) and lemmas about where each
  part of an encoding lies. `collections.dfy`: small sequence and map facts.
- `properties.dfy`: the as-written decoder on the encodings of integers, byte
  strings, and lists and dictionaries of those. Also a proof that every value
  it returns has UTF-8 keys and byte strings no longer than `usize::MAX`.
- `nesting.dfy`: what the unconsumed `e` does to nested containers and
  dictionary keys, with a concrete input that shows it.
- `fixed.dfy`: the decoder with the loops corrected to consume the `e`. It
  has a full round-trip proof, and the same proof about the values it returns.
- `samples.dfy`:
  - the inputs of the three unit tests;
  - edge cases: a sign, empty containers, empty input, an unknown marker, a
    missing `e`, a short payload, a non-string key, a container key, a
    duplicate key.

## Model

| member | source | states |
|---|---|---|
| Numbers.ParseInteger | src/bencode.rs:57 | a parsed literal lies in the target range, is ASCII and non-empty; a negative result needs a signed target and a leading `-` |
| Numbers.ParseFormatIsize | src/bencode.rs:57 | `str::parse::<isize>` reads back the decimal text of every `isize` |
| Numbers.ParseFormatUsize | src/bencode.rs:63 | `str::parse::<usize>` reads back the decimal text of every length up to `usize::MAX` |
| Utf8.EncodeWellFormed | src/bencode.rs:6 | the UTF-8 encoding of any sequence of scalar values (the bytes of a Rust `String`) is well-formed, so it passes `String::from_utf8` |
| Bencode.SpanTo | src/bencode.rs:84-91 | `advance_to` never returns an error; when it finishes, the cursor has moved forward and stays within the buffer |
| Bencode.SpanToFinds | src/bencode.rs:84-91 | `advance_to(c)` finishes exactly when a `c` remains; it then returns the bytes before that `c`, which contain no `c`, and leaves the cursor one past it |
| Bencode.SpanToFirst | src/bencode.rs:84-91 | with the first `c` at `j`, `advance_to(c)` returns the bytes from the cursor up to `j` and leaves the cursor at `j + 1` |
| Bencode.DecodeAt | src/bencode.rs:22-73 | a value or an error leaves the cursor strictly further on and within the buffer |
| Bencode.DecodeDict | src/bencode.rs:25-41 | a finished dictionary is a `Dictionary` and leaves the cursor on an `e` that it does not consume; an error moves the cursor forward |
| Bencode.DecodeList | src/bencode.rs:44-52 | a finished list is a `List` and leaves the cursor on an `e` that it does not consume; an error moves the cursor forward |
| Bencode.DecodeInteger | src/bencode.rs:55-59 | the integer case gives an `Integer` or an error, each with the cursor moved forward within the buffer |
| Bencode.DecodeBytes | src/bencode.rs:62-67 | the byte-string case gives `Bytes` or an error, each with the cursor moved forward within the buffer |
| BencodeParser.Parser.constructor | src/bencode.rs:18-20 | `new` holds exactly the given bytes with the cursor at 0 |
| BencodeParser.Parser.Peek | src/bencode.rs:108-110 | `peek` gives the byte under the cursor when there is one and panics otherwise; it never returns an error |
| BencodeParser.Parser.Previous | src/bencode.rs:100-102 | `previous` gives the byte before the cursor when the cursor is within 1..len, and panics otherwise (the subtraction at 0, the index past the end) |
| BencodeParser.Parser.IsAtEnd | src/bencode.rs:104-106 | `is_at_end` holds exactly when the cursor is beyond len, and then `peek` and `previous` both panic |
| BencodeParser.Parser.Advance | src/bencode.rs:93-98 | `advance` moves the cursor by exactly one unless it is already beyond len; it returns the byte passed over when that byte exists and panics otherwise |
| BencodeParser.Parser.AdvanceTo | src/bencode.rs:83-91 | `advance_to` gives the result and new cursor of `SpanTo`; the cursor never goes back |
| BencodeParser.Parser.AdvanceExact | src/bencode.rs:75-81 | `advance_exact(n)` gives the result and new cursor of `TakeExact`: the next `n` bytes, or a panic when fewer remain; the cursor never goes back |
| BencodeParser.Parser.Parse | src/bencode.rs:22-73 | `parse` gives exactly the outcome of `DecodeAt` from the old cursor, and on a value or an error its new cursor; the cursor never goes back |
| BencodeParser.ParseBytes | src/bencode.rs:120 | `Parser::new(bytes).parse()` is `Decode(bytes)` |
| BencodeSteps.TakeExactCase | src/bencode.rs:75-81 | `advance_exact(n)` gives the `n` bytes after the cursor when they exist, and panics otherwise |
| BencodeSteps.DispatchInteger | src/bencode.rs:55-57 | on `i`, `parse` steps over the marker and reads an integer literal |
| BencodeSteps.DispatchDigit | src/bencode.rs:62-63 | on a digit, `parse` reads a byte string starting at that digit, without consuming the digit first |
| BencodeSteps.DispatchList | src/bencode.rs:44-46 | on `l`, `parse` steps over the marker and runs the list loop from an empty list |
| BencodeSteps.DispatchDict | src/bencode.rs:25-27 | on `d`, `parse` steps over the marker and runs the dictionary loop from an empty map |
| BencodeSteps.UnknownMarkerPanics | src/bencode.rs:69-71 | a byte that is not `d`, `l`, `i` or an ASCII digit is a panic |
| BencodeSteps.DecodeIntegerOf | src/bencode.rs:57-58 | after `advance_to(b'e')`: `Integer(v)` when the text parses as `v`; otherwise `InvalidUtf8` for non-UTF-8 text and `InvalidNumber` for anything else |
| BencodeSteps.IntegerLiteral | src/bencode.rs:55-58 | with the first `e` after the `i` at `j`, the result is an `Integer` exactly when the bytes in between parse as an `isize`, and it is that value; otherwise an error; the cursor ends at `j + 1` either way |
| BencodeSteps.IntegerUnterminated | src/bencode.rs:84-88 | an `i` with no `e` after it panics |
| BencodeSteps.DecodeBytesOf | src/bencode.rs:63-66 | after the colon and a length that parses as `n`, the value is whatever `advance_exact(n)` returns, and a panic there is a panic of `parse` |
| BencodeSteps.BytesLiteral | src/bencode.rs:62-66 | with the first colon at `j` and length `n`, the value is exactly the `n` raw bytes after the colon with the cursor past them, and a panic when fewer remain; the payload is not checked for UTF-8 |
| BencodeSteps.BytesRead | src/bencode.rs:62-66 | a length prefix for `b` followed by `b` reads back `Bytes(b)` with the cursor just after it |
| BencodeSteps.MalformedLength | src/bencode.rs:63 | a length prefix that does not parse as a `usize` is an error, with the cursor just past the colon |
| BencodeSteps.ListEnd | src/bencode.rs:47 | on `e`, the list loop returns the elements so far and leaves the cursor on the `e` |
| BencodeSteps.ListItem | src/bencode.rs:47-50 | on any other byte, the list loop decodes one element, appends it at the end and continues after it |
| BencodeSteps.ListItemThen | src/bencode.rs:47-50 | the list loop's result is one element followed by the rest, in decoding order |
| BencodeSteps.DictEnd | src/bencode.rs:28 | on `e`, the dictionary loop returns the entries so far and leaves the cursor on the `e` |
| BencodeSteps.DictEntry | src/bencode.rs:28-34 | a UTF-8 byte-string key followed by a value inserts that entry, overwriting any earlier one, and the loop continues after the value |
| BencodeProperties.EncodedInteger | src/bencode.rs:55-58 | `i<n>e`, written for any `isize` `n`, reads back as `Integer(n)` with the cursor past the `e` |
| BencodeProperties.EncodedBytes | src/bencode.rs:62-66 | `<len>:<b>` reads back as `Bytes(b)` with the cursor past the payload |
| BencodeProperties.DecodeEncodedScalar | src/bencode.rs:22-73 | `parse` reads an encoded integer or byte string back exactly, and it never starts with `e` |
| BencodeProperties.DecodeScalarItems | src/bencode.rs:47-50 | the list loop over encoded integers and byte strings followed by `e` appends them in order, and the cursor ends on the `e` |
| BencodeProperties.DecodeScalarItem | src/bencode.rs:47-50 | one turn of that loop followed by the rest gives the elements in order |
| BencodeProperties.DecodeScalarList | src/bencode.rs:44-52 | `l...e` with such elements reads back as exactly those elements in order, and the cursor is left on the final `e` |
| BencodeProperties.DecodeScalarEntries | src/bencode.rs:28-38 | the dictionary loop over encoded key/value pairs inserts them in order, so a later duplicate key overwrites an earlier one; the cursor ends on the `e` |
| BencodeProperties.DecodeScalarEntry | src/bencode.rs:28-38 | one turn of that loop followed by the rest gives the map built by inserting the pairs in order |
| BencodeProperties.ScalarPairFacts | src/bencode.rs:29-30 | in a pair, the key is decoded first and the value after it |
| BencodeProperties.DecodeScalarDict | src/bencode.rs:25-41 | `d...e` with UTF-8 keys and scalar values reads back as the map built by inserting the pairs in order, with the cursor left on the final `e` |
| BencodeProperties.DecodedRepresentable | src/bencode.rs:22-73 | every value `parse` returns is one a Rust `Bencode` can hold: dictionary keys are well-formed UTF-8 and no byte string or key is longer than `usize::MAX` |
| BencodeProperties.DecodedItemsRepresentable | src/bencode.rs:44-52 | the list loop, started from representable elements, finishes with a representable list |
| BencodeProperties.DecodedEntriesRepresentable | src/bencode.rs:25-41 | the dictionary loop, started from UTF-8 keys with representable values, inserts only such entries and finishes with a representable dictionary |
| BencodeNesting.ContainerStopsOnEnd | src/bencode.rs:28-51 | a decoded list or dictionary leaves the cursor on an `e` |
| BencodeNesting.ContainerEndsList | src/bencode.rs:47-51 | after an element that is a container, the list loop stops: nothing after that element is read |
| BencodeNesting.ContainerValueEndsDict | src/bencode.rs:28-40 | after a value that is a container, the dictionary loop stops |
| BencodeNesting.ContainerKeyPanics | src/bencode.rs:29-30 | a key that is a list or dictionary panics instead of failing with a non-string-key error |
| BencodeNesting.KeyCheckedAfterValue | src/bencode.rs:29-36 | a key that is not a byte string fails only once its value is decoded; a panic or an error in the value wins |
| BencodeNesting.InvalidKeyAfterValue | src/bencode.rs:29-33 | a byte-string key that is not UTF-8 fails with `InvalidUtf8` only once its value is decoded; a panic or an error in the value wins |
| BencodeNesting.NestedListLosesElements | src/bencode.rs:47-51 | `llei1ee`, the encoding of `[[], 1]`, decodes to `[[]]` |
| BencodeNesting.NestedListReadBack | src/bencode.rs:44-52 | the corrected decoder reads `llei1ee` back as `[[], 1]` |
| BencodeFixed.DecodeAt | src/bencode.rs:22-73 | the corrected `parse`: a value or an error leaves the cursor strictly further on and within the buffer |
| BencodeFixed.DecodeDict | src/bencode.rs:25-41 | the corrected dictionary loop finishes one past an `e`, with a `Dictionary` |
| BencodeFixed.DecodeList | src/bencode.rs:44-52 | the corrected list loop finishes one past an `e`, with a `List` |
| BencodeFixed.KeyAt | src/bencode.rs:62-66 | an encoded byte string reads back exactly and does not start with `e` |
| BencodeFixed.DictEntryThen | src/bencode.rs:28-34 | one dictionary entry inserted, then the rest of the loop, gives the entries inserted so far extended by the remaining ones |
| BencodeFixed.RoundTripAt | src/bencode.rs:22-73 | the corrected `parse` reads back every representable value from its encoding, with the cursor just past it |
| BencodeFixed.RoundTripItems | src/bencode.rs:44-52 | the corrected list loop reads encoded elements back in order and steps over the `e` |
| BencodeFixed.RoundTripItem | src/bencode.rs:47-50 | one turn of that list loop followed by the rest gives the elements in order |
| BencodeFixed.RoundTripEntries | src/bencode.rs:25-41 | the corrected dictionary loop reads back the entries for the remaining keys of any map with UTF-8 keys, and steps over the `e` |
| BencodeFixed.RoundTripEntry | src/bencode.rs:28-38 | one turn of that dictionary loop followed by the rest gives those entries |
| BencodeFixed.EntryFacts | src/bencode.rs:29-33 | in an encoded entry the key reads back as a UTF-8 byte string, and the value's encoding follows it |
| BencodeFixed.ValueAt | src/bencode.rs:30 | a value's encoding reads back ending at the given position |
| BencodeFixed.EntriesAt | src/bencode.rs:28-38 | the remaining entries read back ending at the given position |
| BencodeFixed.DecodedRepresentable | src/bencode.rs:22-73 | every value the corrected `parse` returns is representable, so `RoundTrip` covers every decoded value |
| BencodeFixed.DecodedItemsRepresentable | src/bencode.rs:44-52 | the corrected list loop, started from representable elements, finishes with a representable list |
| BencodeFixed.DecodedEntriesRepresentable | src/bencode.rs:25-41 | the corrected dictionary loop, started from UTF-8 keys with representable values, finishes with a representable dictionary |
| BencodeFixed.RoundTrip | src/bencode.rs:22-73 | with the `e` consumed, `Decode(Encode(v)) == Ok(v)` for every value a Rust program can hold |
| BencodeSamples.IntegerSample | src/bencode.rs:134-141 | test `integer`: `i1234e` is `Integer(1234)` |
| BencodeSamples.ListSample | src/bencode.rs:143-154 | test `list`: `li2e3:fooe` is `[2, "foo"]` |
| BencodeSamples.DictSample | src/bencode.rs:117-132 | test `simple_dict`: `d5:monthi4e4:name5:aprile` is `{"month": 4, "name": "april"}` |
| BencodeSamples.NegativeSample | src/bencode.rs:55-58 | `i-42e` is `Integer(-42)` |
| BencodeSamples.PlusSignSample | src/bencode.rs:57 | `i+5e` is `Integer(5)`, since `str::parse` accepts a leading `+` |
| BencodeSamples.EmptyContainerSamples | src/bencode.rs:25-52 | `le` is the empty list and `de` the empty dictionary |
| BencodeSamples.EmptyInputPanics | src/bencode.rs:108-110 | empty input panics in `peek` |
| BencodeSamples.UnknownMarkerSample | src/bencode.rs:69-71 | `x` panics |
| BencodeSamples.UnterminatedIntegerSample | src/bencode.rs:84-88 | `i12` panics, because no `e` follows |
| BencodeSamples.ShortBytesSample | src/bencode.rs:75-81 | `5:ab` panics in `advance_exact` |
| BencodeSamples.NonStringKeySample | src/bencode.rs:32-37 | `di5e3:fooe` is the non-string-key error |
| BencodeSamples.ContainerKeySample | src/bencode.rs:29-30 | `dlei1ee` panics, because its value is read from the inner list's `e` |
| BencodeSamples.DuplicateKeySample | src/bencode.rs:34 | `d1:ai1e1:ai2ee` is `{"a": 2}`: the later entry wins |

## Left out

- `src/main.rs` is not part of this model. It reads a file and pretty-prints the result: I/O with no decoding logic.
- `anyhow` error values, their messages and `Debug` formatting. Errors are the three kinds `InvalidUtf8`, `InvalidNumber` and `NonStringKey`.
- `HashMap` hashing and iteration order. A dictionary is a Dafny `map` from the key's bytes (the bytes of the `String`) to the value.
- The internals of `str::parse` and `String::from_utf8`. The model states the languages they accept instead:
  - `isize`: an optional `+` or `-`, then one or more ASCII digits, in range;
  - `usize`: an optional `+`, then digits, in range;
  - UTF-8: well-formedness as in section 3 of RFC 3629.
- `isize` and `usize` are 64 bits wide, as on the usual targets. Narrower targets are not modelled.
- Stack exhaustion on deeply nested input is not modelled. Recursion is unbounded, as in the source.
- The cursor is a mathematical integer. A `usize` cursor cannot overflow before the buffer index panics, so nothing is lost.
- Differences from the format, modelled as the code does them:
  - the list and dictionary loops leave the closing `e` unconsumed;
  - a byte string longer than the input is a panic, not an error;
  - an unknown marker is a panic.
- The `Parser` class models the code as written. The corrected decoder of `fixed.dfy` exists only as functions, with no class of its own.
- Bencode's rules that the source does not enforce are not in the decoder model. These are sorted dictionary keys, no leading zeros and no `-0`. The reference encoder writes keys in an unspecified order.
- BencodeProperties.DecodeScalarList: as-written read-back of lists is proved only for integer and byte-string elements, because one container element stops the loop (see Findings).
- BencodeProperties.DecodeScalarDict: as-written read-back of dictionaries is proved only for scalar values, for the same reason.

## Findings

| source | as written | input that shows it | evidently intended | confidence | as-written member | corrected member |
|---|---|---|---|---|---|---|
| src/bencode.rs:28-51 | the list and dictionary loops stop on `e` and return without consuming it, so an enclosing loop, or the caller, sees that `e` next | `llei1ee` (a list holding `[]` and then `1`) decodes to `[[]]`; `dlei1ee` panics | each container consumes its closing `e`, as the format requires, so nested values read back | high (not executed) | BencodeNesting.NestedListLosesElements | BencodeFixed.RoundTrip |
