/** One step of the decoder of `src/bencode.rs` at a time: where `advance_to`
    stops, how many bytes `advance_exact` takes, and which case `parse`
    dispatches to. The properties of the whole decoder are put together from
    these. */
module BencodeSteps {
  import opened Numbers
  import opened Bencode
  import Utf8
  import Collections

  /** `advance_exact(n)` takes the next `n` bytes, or panics when fewer are left. */
  lemma TakeExactCase(data: seq<u8>, pos: nat, n: nat)
    requires pos <= |data|
    ensures TakeExact(data, pos, n) == if pos + n <= |data| then Done(data[pos..pos + n], pos + n) else Abort
  {
    if n == 0 {
      assert data[pos..pos] == [];
    }
  }

  lemma DispatchInteger(data: seq<u8>, pos: nat)
    requires pos < |data| && data[pos] == INT
    ensures DecodeAt(data, pos) == DecodeInteger(data, pos + 1)
  {
  }

  lemma DispatchDigit(data: seq<u8>, pos: nat)
    requires pos < |data| && IsDigit(data[pos])
    ensures DecodeAt(data, pos) == DecodeBytes(data, pos)
  {
  }

  lemma DispatchList(data: seq<u8>, pos: nat)
    requires pos < |data| && data[pos] == LIST
    ensures DecodeAt(data, pos) == DecodeList(data, pos + 1, [])
  {
  }

  lemma DispatchDict(data: seq<u8>, pos: nat)
    requires pos < |data| && data[pos] == DICT
    ensures DecodeAt(data, pos) == DecodeDict(data, pos + 1, map[])
  {
  }

  /** A marker other than `d`, `l`, `i` or a digit is a panic, not an error. */
  lemma UnknownMarkerPanics(data: seq<u8>, pos: nat)
    requires pos < |data|
    requires data[pos] != DICT && data[pos] != LIST && data[pos] != INT && !IsDigit(data[pos])
    ensures DecodeAt(data, pos) == Abort
  {
  }

  /** The integer literal after an `i`, once `advance_to` has found its `e`:
      a value when the text parses as an `isize`, an error otherwise. */
  lemma DecodeIntegerOf(data: seq<u8>, pos: nat, text: seq<u8>, next: nat)
    requires pos <= |data| && SpanTo(data, pos, END) == Done(text, next)
    ensures DecodeInteger(data, pos) == match ParseIsize(text)
                                        case Some(v) => Done(Integer(v), next)
                                        case None => Fail(if Utf8.WellFormed(text) then InvalidNumber else InvalidUtf8, next)
  {
    if ParseIsize(text).Some? {
      Utf8.AsciiWellFormed(text);
    }
  }

  /** The integer case with the first `e` after the `i` at `j`: the value is
      `Integer(v)` exactly when the bytes in between parse as an `isize` `v`;
      otherwise an error. Either way the cursor ends one past that `e`. */
  lemma IntegerLiteral(data: seq<u8>, pos: nat, j: nat)
    requires pos <= j < |data| && data[j] == END && END !in data[pos..j]
    ensures var s := DecodeInteger(data, pos);
            var literal := ParseIsize(data[pos..j]);
            (s.Done? <==> literal.Some?)
            && (s.Done? ==> s == Done(Integer(literal.value), j + 1))
            && (!s.Done? ==> s.Fail? && s.next == j + 1)
  {
    SpanToFirst(data, pos, j, END);
    DecodeIntegerOf(data, pos, data[pos..j], j + 1);
  }

  /** Without an `e` after the `i`, the integer case panics. */
  lemma IntegerUnterminated(data: seq<u8>, pos: nat)
    requires pos < |data| && data[pos] == INT && END !in data[pos + 1..]
    ensures DecodeAt(data, pos) == Abort
  {
    DispatchInteger(data, pos);
    SpanToFinds(data, pos + 1, END);
  }

  /** The byte string once `advance_to` has found the colon and the length
      has parsed as `n`. */
  lemma DecodeBytesOf(data: seq<u8>, pos: nat, text: seq<u8>, next: nat, n: nat)
    requires pos <= |data| && next <= |data| && SpanTo(data, pos, COLON) == Done(text, next)
    requires Utf8.WellFormed(text) && ParseUsize(text).Some? && ParseUsize(text).value as int == n
    ensures DecodeBytes(data, pos) == match TakeExact(data, next, n)
                                      case Done(content, after) => Done(Bytes(content), after)
                                      case _ => Abort
  {
  }

  /** The byte-string case with the first colon at `j` and a length prefix
      that parses as `n`: the value is exactly the `n` bytes after the colon,
      whatever they are; fewer than `n` left is a panic. */
  lemma BytesLiteral(data: seq<u8>, pos: nat, j: nat, n: nat)
    requires pos <= j < |data| && data[j] == COLON && COLON !in data[pos..j]
    requires ParseUsize(data[pos..j]).Some? && ParseUsize(data[pos..j]).value as int == n
    ensures DecodeBytes(data, pos) == if j + 1 + n <= |data|
                                      then Done(Bytes(data[j + 1..j + 1 + n]), j + 1 + n)
                                      else Abort
  {
    SpanToFirst(data, pos, j, COLON);
    Utf8.AsciiWellFormed(data[pos..j]);
    DecodeBytesOf(data, pos, data[pos..j], j + 1, n);
    TakeExactCase(data, j + 1, n);
  }

  /** `BytesLiteral` when enough bytes are left: they are the value. */
  lemma BytesRead(data: seq<u8>, pos: nat, j: nat, b: seq<u8>)
    requires pos <= j < |data| && data[j] == COLON && COLON !in data[pos..j]
    requires |b| <= USIZE_MAX && ParseUsize(data[pos..j]) == Some(|b| as usize)
    requires j + 1 + |b| <= |data| && data[j + 1..j + 1 + |b|] == b
    ensures DecodeBytes(data, pos) == Done(Bytes(b), j + 1 + |b|)
  {
    BytesLiteral(data, pos, j, |b|);
  }

  /** A length prefix that does not parse as a `usize` is an error, with the
      cursor just past the colon. */
  lemma MalformedLength(data: seq<u8>, pos: nat, j: nat)
    requires pos <= j < |data| && data[j] == COLON && COLON !in data[pos..j]
    requires ParseUsize(data[pos..j]).None?
    ensures DecodeBytes(data, pos).Fail? && DecodeBytes(data, pos).next == j + 1
  {
    SpanToFirst(data, pos, j, COLON);
  }

  /** The list loop on `e` stops, leaving the `e` under the cursor. */
  lemma ListEnd(data: seq<u8>, pos: nat, acc: seq<Bencode>)
    requires pos < |data| && data[pos] == END
    ensures DecodeList(data, pos, acc) == Done(List(acc), pos)
  {
  }

  /** One turn of the list loop: an element is decoded and pushed. */
  lemma ListItem(data: seq<u8>, pos: nat, acc: seq<Bencode>, v: Bencode, next: nat)
    requires pos < |data| && data[pos] != END && DecodeAt(data, pos) == Done(v, next)
    ensures DecodeList(data, pos, acc) == DecodeList(data, next, acc + [v])
  {
  }

  /** One turn of the list loop followed by the rest of the loop. */
  lemma ListItemThen(data: seq<u8>, pos: nat, acc: seq<Bencode>, vs: seq<Bencode>, next: nat, end: nat)
    requires vs != [] && pos < |data| && data[pos] != END && DecodeAt(data, pos) == Done(vs[0], next)
    requires DecodeList(data, next, acc + [vs[0]]) == Done(List(acc + [vs[0]] + vs[1..]), end)
    ensures DecodeList(data, pos, acc) == Done(List(acc + vs), end)
  {
    ListItem(data, pos, acc, vs[0], next);
    Collections.AppendAssoc(acc, [vs[0]], vs[1..]);
    Collections.HeadTail(vs);
  }

  /** The dictionary loop on `e` stops, leaving the `e` under the cursor. */
  lemma DictEnd(data: seq<u8>, pos: nat, acc: map<seq<u8>, Bencode>)
    requires pos < |data| && data[pos] == END
    ensures DecodeDict(data, pos, acc) == Done(Dictionary(acc), pos)
  {
  }

  /** One turn of the dictionary loop with a well-formed key: the pair is inserted. */
  lemma DictEntry(data: seq<u8>, pos: nat, acc: map<seq<u8>, Bencode>, k: seq<u8>, afterKey: nat, v: Bencode, next: nat)
    requires pos < |data| && data[pos] != END
    requires DecodeAt(data, pos) == Done(Bytes(k), afterKey) && DecodeAt(data, afterKey) == Done(v, next)
    requires Utf8.WellFormed(k)
    ensures DecodeDict(data, pos, acc) == DecodeDict(data, next, acc[k := v])
  {
  }
}
