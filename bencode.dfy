/** The Bencode value type of `src/bencode.rs` and, as functions, what the
    decoder does from a given cursor position: each function returns the
    outcome together with the cursor position it leaves behind. The class in
    parser.dfy runs the same algorithm on a mutable cursor and is proved to
    agree with these functions. */
module Bencode {
  import opened Numbers
  import Utf8

  /** A decoded value. Dictionary keys are the bytes of a Rust `String`; the
      map forgets the order of `HashMap` iteration. That the decoder only
      stores well-formed UTF-8 keys, and no byte string longer than a
      `usize` length, is `BencodeProperties.DecodedRepresentable`. */
  datatype Bencode =
    | Dictionary(entries: map<seq<u8>, Bencode>)
    | List(items: seq<Bencode>)
    | Integer(n: isize)
    | Bytes(bytes: seq<u8>)

  /** The recoverable errors that `parse` returns through `?`. */
  datatype Error =
    | InvalidUtf8    // `String::from_utf8` failed (a literal or a dictionary key)
    | InvalidNumber  // `str::parse` failed: malformed literal or out of range
    | NonStringKey   // a dictionary key decoded to something other than `Bytes`

  /** What a call observably does: returns a value, returns an error, or panics
      (an out-of-bounds index or the unknown-marker `panic!`). */
  datatype Outcome<T> = Ok(value: T) | Err(error: Error) | Panic

  /** An outcome together with the cursor left behind, for the two outcomes
      after which the parser can still be inspected. */
  datatype Step<T> = Done(value: T, next: nat) | Fail(error: Error, next: nat) | Abort
  {
    function Observed(): (r: Outcome<T>)
      ensures (r.Ok? <==> Done?) && (r.Panic? <==> Abort?)
      ensures Done? ==> r == Ok(value)
      ensures Fail? ==> r == Err(error)
    {
      match this
      case Done(v, _) => Ok(v)
      case Fail(e, _) => Err(e)
      case Abort => Panic
    }
  }

  const COLON: u8 := 58  // ':'
  const DICT: u8 := 100  // 'd'
  const END: u8 := 101   // 'e'
  const INT: u8 := 105   // 'i'
  const LIST: u8 := 108  // 'l'

  /** `advance_to(c)` from `pos`: the bytes before the first `c` at or after
      `pos`, with the cursor one past that `c`; a panic when there is none
      (the `peek` at the end of the buffer). */
  function SpanTo(data: seq<u8>, pos: nat, c: u8): (s: Step<seq<u8>>)
    requires pos <= |data| + 1
    ensures !s.Fail?
    ensures s.Done? ==> pos < s.next <= |data|
    decreases |data| + 1 - pos
  {
    if pos >= |data| then Abort
    else if data[pos] == c then Done([], pos + 1)
    else
      match SpanTo(data, pos + 1, c)
      case Done(v, next) => Done([data[pos]] + v, next)
      case _ => Abort
  }

  /** `advance_to(c)` finds a `c` exactly when there is one ahead; it stops
      at the first, returns the bytes before it and leaves the cursor one
      past it. */
  lemma {:induction false} SpanToFinds(data: seq<u8>, pos: nat, c: u8)
    requires pos <= |data| + 1
    ensures var s := SpanTo(data, pos, c);
            (s.Done? <==> pos <= |data| && c in data[pos..])
            && (s.Done? ==> data[s.next - 1] == c && s.value == data[pos..s.next - 1] && c !in s.value)
    decreases |data| + 1 - pos
  {
    if pos < |data| && data[pos] != c {
      SpanToFinds(data, pos + 1, c);
      assert data[pos..] == [data[pos]] + data[pos + 1..];
      var s := SpanTo(data, pos, c);
      if s.Done? {
        assert s.value == [data[pos]] + data[pos + 1..s.next - 1];
      }
    }
  }

  /** `advance_to(c)` stops at the first `c`: the span is everything before
      it and the cursor ends one past it. */
  lemma SpanToFirst(data: seq<u8>, pos: nat, j: nat, c: u8)
    requires pos <= j < |data| && data[j] == c && c !in data[pos..j]
    ensures SpanTo(data, pos, c) == Done(data[pos..j], j + 1)
  {
    SpanToFinds(data, pos, c);
    assert data[pos..][j - pos] == c;
  }

  /** `advance_exact(n)` from `pos`: `n` calls of `advance`, each of which
      panics once the cursor has passed the last byte. */
  function TakeExact(data: seq<u8>, pos: nat, n: nat): Step<seq<u8>>
    requires pos <= |data| + 1
  {
    if n == 0 then Done([], pos)
    else if pos + n <= |data| then Done(data[pos..pos + n], pos + n)
    else Abort
  }

  /** `parse` with the cursor at `pos`. */
  function DecodeAt(data: seq<u8>, pos: nat): (s: Step<Bencode>)
    requires pos <= |data| + 1
    ensures s.Done? || s.Fail? ==> pos < s.next <= |data|
    decreases |data| + 1 - pos, 0
  {
    if pos >= |data| then Abort
    else if data[pos] == DICT then DecodeDict(data, pos + 1, map[])
    else if data[pos] == LIST then DecodeList(data, pos + 1, [])
    else if data[pos] == INT then DecodeInteger(data, pos + 1)
    else if IsDigit(data[pos]) then DecodeBytes(data, pos)
    else Abort
  }

  /** The dictionary loop, with `acc` the entries inserted so far: while the
      byte under the cursor is not `e`, decode a key and then a value, and
      only then check that the key is a well-formed UTF-8 byte string. The
      final `e` is left under the cursor. */
  function DecodeDict(data: seq<u8>, pos: nat, acc: map<seq<u8>, Bencode>): (s: Step<Bencode>)
    requires pos <= |data| + 1
    ensures s.Done? ==> pos <= s.next < |data| && data[s.next] == END
    ensures s.Done? ==> s.value.Dictionary?
    ensures s.Fail? ==> pos < s.next <= |data|
    decreases |data| + 1 - pos, 1
  {
    if pos >= |data| then Abort
    else if data[pos] == END then Done(Dictionary(acc), pos)
    else
      match DecodeAt(data, pos)
      case Abort => Abort
      case Fail(e, next) => Fail(e, next)
      case Done(key, afterKey) =>
        match DecodeAt(data, afterKey)
        case Abort => Abort
        case Fail(e, next) => Fail(e, next)
        case Done(value, afterValue) =>
          if !key.Bytes? then Fail(NonStringKey, afterValue)
          else if !Utf8.WellFormed(key.bytes) then Fail(InvalidUtf8, afterValue)
          else DecodeDict(data, afterValue, acc[key.bytes := value])
  }

  /** The list loop, with `acc` the elements pushed so far. The final `e` is
      left under the cursor. */
  function DecodeList(data: seq<u8>, pos: nat, acc: seq<Bencode>): (s: Step<Bencode>)
    requires pos <= |data| + 1
    ensures s.Done? ==> pos <= s.next < |data| && data[s.next] == END
    ensures s.Done? ==> s.value.List?
    ensures s.Fail? ==> pos < s.next <= |data|
    decreases |data| + 1 - pos, 1
  {
    if pos >= |data| then Abort
    else if data[pos] == END then Done(List(acc), pos)
    else
      match DecodeAt(data, pos)
      case Abort => Abort
      case Fail(e, next) => Fail(e, next)
      case Done(value, next) => DecodeList(data, next, acc + [value])
  }

  /** The integer case, with the cursor just past the `i`. */
  function DecodeInteger(data: seq<u8>, pos: nat): (s: Step<Bencode>)
    requires pos <= |data| + 1
    ensures s.Done? || s.Fail? ==> pos < s.next <= |data|
    ensures s.Done? ==> s.value.Integer?
  {
    var span := SpanTo(data, pos, END);
    if !span.Done? then Abort
    else if !Utf8.WellFormed(span.value) then Fail(InvalidUtf8, span.next)
    else
      match ParseIsize(span.value)
      case None => Fail(InvalidNumber, span.next)
      case Some(v) => Done(Integer(v), span.next)
  }

  /** The byte-string case, with the cursor on the first digit of the length. */
  function DecodeBytes(data: seq<u8>, pos: nat): (s: Step<Bencode>)
    requires pos <= |data| + 1
    ensures s.Done? || s.Fail? ==> pos < s.next <= |data|
    ensures s.Done? ==> s.value.Bytes?
  {
    var span := SpanTo(data, pos, COLON);
    if !span.Done? then Abort
    else if !Utf8.WellFormed(span.value) then Fail(InvalidUtf8, span.next)
    else
      match ParseUsize(span.value)
      case None => Fail(InvalidNumber, span.next)
      case Some(n) =>
        match TakeExact(data, span.next, n as nat)
        case Done(content, next) => Done(Bytes(content), next)
        case _ => Abort
  }

  /** `Parser::new(data).parse()`. */
  function Decode(data: seq<u8>): Outcome<Bencode> {
    DecodeAt(data, 0).Observed()
  }
}
