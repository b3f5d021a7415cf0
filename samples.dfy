/** The inputs of the unit tests of `src/bencode.rs`, and a few more that
    show the decoder's edge cases, with what `Parser::new(data).parse()`
    does on each. */
module BencodeSamples {
  import opened Numbers
  import opened Bencode
  import opened BencodeEncoding
  import opened BencodeSteps
  import opened BencodeProperties
  import BencodeNesting
  import Utf8

  /** The bytes of a string of ASCII characters (the low byte of each). */
  function Ascii(s: string): seq<u8> {
    seq(|s|, i requires 0 <= i < |s| => (s[i] as int % 0x100) as u8)
  }

  lemma FormatSmall()
    ensures FormatNat(1) == Ascii("1") && FormatNat(2) == Ascii("2") && FormatNat(3) == Ascii("3")
    ensures FormatNat(4) == Ascii("4") && FormatNat(5) == Ascii("5")
    ensures FormatNat(12) == Ascii("12") && FormatNat(42) == Ascii("42")
  {
    assert FormatNat(12) == FormatNat(1) + [ZERO + 2];
    assert FormatNat(42) == FormatNat(4) + [ZERO + 2];
  }

  /** Test `integer`: `i1234e` is the integer 1234. */
  lemma IntegerSample()
    ensures Decode(Ascii("i1234e")) == Ok(Integer(1234))
  {
    var data := Ascii("i1234e");
    FormatSmall();
    assert FormatNat(123) == FormatNat(12) + [ZERO + 3];
    assert FormatNat(1234) == FormatNat(123) + [ZERO + 4];
    assert data == EncodeInteger(1234);
    EncodedInteger(data, 0, 1234);
    DispatchInteger(data, 0);
  }

  /** Test `list`: `li2e3:fooe` is the list of 2 and `foo`; the cursor ends
      on the final `e`. */
  lemma ListSample()
    ensures Decode(Ascii("li2e3:fooe")) == Ok(List([Integer(2), Bytes(Ascii("foo"))]))
  {
    var data := Ascii("li2e3:fooe");
    var vs := [Integer(2), Bytes(Ascii("foo"))];
    FormatSmall();
    assert Encode(vs[0]) == Ascii("i2e");
    assert Encode(vs[1]) == Ascii("3:foo");
    assert EncodeAll(vs) == Encode(vs[0]) + (Encode(vs[1]) + EncodeAll([]));
    assert data == Encode(List(vs));
    DecodeScalarList(data, 0, vs);
  }

  const SIMPLE_DICT: seq<u8> :=  // d5:monthi4e4:name5:aprile
    [100, 53, 58, 109, 111, 110, 116, 104, 105, 52, 101, 52, 58, 110, 97, 109, 101, 53, 58, 97, 112, 114, 105, 108, 101]
  const MONTH: seq<u8> := [109, 111, 110, 116, 104]
  const NAME: seq<u8> := [110, 97, 109, 101]
  const APRIL: seq<u8> := [97, 112, 114, 105, 108]

  const SIMPLE_ENTRIES: seq<(seq<u8>, Bencode)> := [(MONTH, Integer(4)), (NAME, Bytes(APRIL))]

  lemma MonthEntry()
    ensures IsScalarEntry(SIMPLE_ENTRIES[0])
    ensures EncodeBytes(MONTH) + Encode(Integer(4)) == [53, 58, 109, 111, 110, 116, 104, 105, 52, 101]
  {
    FormatSmall();
    Utf8.AsciiWellFormed(MONTH);
  }

  lemma NameEntry()
    ensures IsScalarEntry(SIMPLE_ENTRIES[1])
    ensures EncodeBytes(NAME) + Encode(Bytes(APRIL)) == [52, 58, 110, 97, 109, 101, 53, 58, 97, 112, 114, 105, 108]
  {
    FormatSmall();
    Utf8.AsciiWellFormed(NAME);
  }

  lemma DictSamplePairs()
    ensures EncodePairs(SIMPLE_ENTRIES)
            == [53, 58, 109, 111, 110, 116, 104, 105, 52, 101] + [52, 58, 110, 97, 109, 101, 53, 58, 97, 112, 114, 105, 108]
  {
    MonthEntry();
    NameEntry();
    assert SIMPLE_ENTRIES[1..] == [(NAME, Bytes(APRIL))];
    assert EncodePairs(SIMPLE_ENTRIES[1..][1..]) == [];
  }

  lemma DictSampleLayout()
    ensures SIMPLE_DICT == [DICT] + (EncodePairs(SIMPLE_ENTRIES) + [END])
  {
    DictSamplePairs();
  }

  lemma DictSampleDecodes()
    ensures DecodeAt(SIMPLE_DICT, 0) == Done(Dictionary(InsertAll(map[], SIMPLE_ENTRIES)), 24)
  {
    MonthEntry();
    NameEntry();
    DictSampleLayout();
    DecodeScalarDict(SIMPLE_DICT, 0, SIMPLE_ENTRIES);
  }

  /** Test `simple_dict`: `d5:monthi4e4:name5:aprile` maps `month` to 4 and
      `name` to `april`. */
  lemma DictSample()
    ensures Decode(SIMPLE_DICT) == Ok(Dictionary(map[MONTH := Integer(4), NAME := Bytes(APRIL)]))
  {
    DictSampleDecodes();
    var rest := [(NAME, Bytes(APRIL))];
    assert SIMPLE_ENTRIES[1..] == rest && rest[1..] == [];
    assert InsertAll(map[], SIMPLE_ENTRIES) == InsertAll(map[MONTH := Integer(4)], rest);
    assert InsertAll(map[MONTH := Integer(4)], rest) == InsertAll(map[MONTH := Integer(4), NAME := Bytes(APRIL)], []);
  }

  /** `i-42e` is -42: the sign is part of the literal `str::parse` reads. */
  lemma NegativeSample()
    ensures Decode([INT, MINUS, 52, 50, END]) == Ok(Integer(-42))
  {
    NegativeLayout();
    EncodedInteger([INT, MINUS, 52, 50, END], 0, -42);
    DispatchInteger([INT, MINUS, 52, 50, END], 0);
  }

  lemma NegativeLayout()
    ensures [INT, MINUS, 52, 50, END] == EncodeInteger(-42)
  {
    FormatSmall();
    assert FormatInt(-42) == [MINUS] + FormatNat(42);
  }

  /** `i+5e` is 5: `str::parse` also accepts a leading `+`. */
  lemma PlusSignSample()
    ensures Decode([INT, PLUS, 53, END]) == Ok(Integer(5))
  {
    var data := [INT, PLUS, 53, END];
    FormatSmall();
    DecimalOfFormat(5);
    assert SplitSign([PLUS, 53], true) == (false, FormatNat(5));
    assert data[1..3] == [PLUS, 53];
    IntegerLiteral(data, 1, 3);
    DispatchInteger(data, 0);
  }

  /** `le` and `de` are the empty list and the empty dictionary. */
  lemma EmptyContainerSamples()
    ensures Decode([LIST, END]) == Ok(List([]))
    ensures Decode([DICT, END]) == Ok(Dictionary(map[]))
  {
    DispatchList([LIST, END], 0);
    ListEnd([LIST, END], 1, []);
    DispatchDict([DICT, END], 0);
    DictEnd([DICT, END], 1, map[]);
  }

  /** Empty input panics: `peek` indexes past the end. */
  lemma EmptyInputPanics()
    ensures Decode([]) == Panic
  {
  }

  /** `x`: a byte that starts no value panics. */
  lemma UnknownMarkerSample()
    ensures Decode([120]) == Panic
  {
    UnknownMarkerPanics([120], 0);
  }

  /** `i12`: an integer without its `e` panics once the bytes run out. */
  lemma UnterminatedIntegerSample()
    ensures Decode([INT, 49, 50]) == Panic
  {
    assert [INT, 49, 50][1..] == [49, 50];
    IntegerUnterminated([INT, 49, 50], 0);
  }

  /** `5:ab`: a length beyond the end of the input panics in `advance_exact`. */
  lemma ShortBytesSample()
    ensures Decode([53, COLON, 97, 98]) == Panic
  {
    var data := [53, COLON, 97, 98];
    FormatSmall();
    ParseFormatUsize(5);
    assert data[0..1] == FormatNat(5);
    BytesLiteral(data, 0, 1, 5);
    DispatchDigit(data, 0);
  }

  const INT_KEY: seq<u8> := [DICT, INT, 53, END, 51, COLON, 102, 111, 111, END]  // di5e3:fooe

  /** `di5e3:fooe`: a key that is an integer fails with `NonStringKey`. */
  lemma NonStringKeySample()
    ensures Decode(INT_KEY) == Err(NonStringKey)
  {
    FormatSmall();
    assert INT_KEY[1..4] == EncodeInteger(5);
    EncodedInteger(INT_KEY, 1, 5);
    DispatchInteger(INT_KEY, 1);
    assert INT_KEY[4..9] == EncodeBytes([102, 111, 111]);
    EncodedBytes(INT_KEY, 4, [102, 111, 111]);
    DispatchDigit(INT_KEY, 4);
    BencodeNesting.KeyCheckedAfterValue(INT_KEY, 1, map[], Integer(5), 4);
    DispatchDict(INT_KEY, 0);
  }

  const LIST_KEY: seq<u8> := [DICT, LIST, END, INT, 49, END, END]  // dlei1ee

  /** `dlei1ee`: a key that is a list panics rather than failing, since its
      value is read from the list's `e`. */
  lemma ContainerKeySample()
    ensures Decode(LIST_KEY) == Panic
  {
    DispatchList(LIST_KEY, 1);
    ListEnd(LIST_KEY, 2, []);
    BencodeNesting.ContainerKeyPanics(LIST_KEY, 1, map[], List([]), 2);
    DispatchDict(LIST_KEY, 0);
  }

  const DUPLICATE: seq<u8> := [DICT, 49, COLON, 97, INT, 49, END, 49, COLON, 97, INT, 50, END, END]  // d1:ai1e1:ai2ee
  const DUPLICATE_ENTRIES: seq<(seq<u8>, Bencode)> := [([97], Integer(1)), ([97], Integer(2))]

  lemma DuplicatePairs()
    ensures EncodePairs(DUPLICATE_ENTRIES) == [49, COLON, 97, INT, 49, END] + [49, COLON, 97, INT, 50, END]
  {
    FormatSmall();
    var rest := [([97], Integer(2))];
    assert DUPLICATE_ENTRIES[1..] == rest && rest[1..] == [];
    assert EncodeBytes([97]) + Encode(Integer(1)) == [49, COLON, 97, INT, 49, END];
    assert EncodeBytes([97]) + Encode(Integer(2)) == [49, COLON, 97, INT, 50, END];
  }

  lemma DuplicateLayout()
    ensures DUPLICATE == [DICT] + (EncodePairs(DUPLICATE_ENTRIES) + [END])
    ensures IsScalarEntry(DUPLICATE_ENTRIES[0]) && IsScalarEntry(DUPLICATE_ENTRIES[1])
  {
    DuplicatePairs();
    Utf8.AsciiWellFormed([97]);
  }

  /** `d1:ai1e1:ai2ee`: of two entries with the same key, the later wins. */
  lemma DuplicateKeySample()
    ensures Decode(DUPLICATE) == Ok(Dictionary(map[[97] := Integer(2)]))
  {
    DuplicateLayout();
    DecodeScalarDict(DUPLICATE, 0, DUPLICATE_ENTRIES);
    var rest := [([97], Integer(2))];
    assert DUPLICATE_ENTRIES[1..] == rest && rest[1..] == [];
    assert InsertAll(map[], DUPLICATE_ENTRIES) == InsertAll(map[[97] := Integer(1)], rest);
    assert InsertAll(map[[97] := Integer(1)], rest) == InsertAll(map[[97] := Integer(2)], []);
  }
}
