/** `Parser` of `src/bencode.rs`: a byte buffer and a cursor that the
    methods move forward. Every method's new cursor and result are those of
    the corresponding function in module Bencode. */
module BencodeParser {
  import opened Numbers
  import opened Bencode
  import Utf8

  class Parser {
    const data: array<u8>
    var current: nat

    /** The cursor never goes beyond one past the end. It only gets there on
        the way to a panic: `advance` on the last-plus-one position still
        increments, because `is_at_end` compares with `>`. */
    ghost predicate Valid()
      reads this
    {
      current <= data.Length + 1
    }

    /** `Parser::new`: takes the bytes, cursor at 0. */
    constructor (bytes: seq<u8>)
      ensures Valid()
      ensures fresh(data) && data[..] == bytes && current == 0
    {
      data := new u8[|bytes|](i requires 0 <= i < |bytes| => bytes[i]);
      current := 0;
    }

    /** `peek`: the byte under the cursor; indexing past the end panics. */
    function Peek(): (r: Outcome<u8>)
      reads this, data
      ensures !r.Err?
      ensures r.Ok? <==> current < data.Length
      ensures r.Ok? ==> r.value == data[current]
    {
      if current < data.Length then Ok(data[current]) else Panic
    }

    /** `previous`: the byte just before the cursor; panics at 0 (the
        subtraction) and past the end (the index). */
    function Previous(): (r: Outcome<u8>)
      reads this, data
      ensures !r.Err?
      ensures r.Ok? <==> 0 < current <= data.Length
      ensures r.Ok? ==> r.value == data[current - 1]
    {
      if 0 < current <= data.Length then Ok(data[current - 1]) else Panic
    }

    /** `is_at_end`: true only once the cursor is strictly past one beyond
        the last byte, so when it holds there is nothing left to read. */
    function IsAtEnd(): (r: bool)
      reads this
      ensures r <==> current > data.Length
      ensures r ==> Peek().Panic? && Previous().Panic?
    {
      current > data.Length
    }

    /** `advance`: moves the cursor by one unless it is past the end, and
        returns the byte just passed. */
    method Advance() returns (r: Outcome<u8>)
      requires Valid()
      modifies this
      ensures Valid()
      ensures current == if old(current) > data.Length then old(current) else old(current) + 1
      ensures !r.Err?
      ensures r.Ok? <==> old(current) < data.Length
      ensures r.Ok? ==> r.value == data[old(current)]
    {
      if !IsAtEnd() {
        current := current + 1;
      }
      r := Previous();
    }

    /** `advance_to(c)`: the bytes up to the next `c`, which is consumed. */
    method AdvanceTo(c: u8) returns (r: Outcome<seq<u8>>)
      requires Valid()
      modifies this
      ensures Valid()
      ensures old(current) <= current
      ensures r == SpanTo(data[..], old(current), c).Observed()
      ensures r.Ok? ==> current == SpanTo(data[..], old(current), c).next
    {
      ghost var start := current;
      var span := [];
      while true
        invariant Valid() && start <= current
        invariant current <= data.Length ==> span == data[start..current] && c !in span
        invariant current > data.Length ==> current == start
        decreases data.Length + 1 - current
      {
        var p := Peek();
        if p.Panic? {
          SpanToFinds(data[..], start, c);
          return Panic;
        }
        if p.value == c {
          break;
        }
        var b := Advance();
        span := span + [b.value];
      }
      SpanToFirst(data[..], start, current, c);
      var consumed := Advance();
      r := Ok(span);
    }

    /** `advance_exact(size)`: `size` calls of `advance`. */
    method AdvanceExact(size: usize) returns (r: Outcome<seq<u8>>)
      requires Valid()
      modifies this
      ensures Valid()
      ensures old(current) <= current
      ensures r == TakeExact(data[..], old(current), size as nat).Observed()
      ensures r.Ok? ==> current == TakeExact(data[..], old(current), size as nat).next
    {
      ghost var start := current;
      var content := [];
      for i := 0 to size as nat
        invariant Valid() && current == start + i && |content| == i
        invariant i > 0 ==> current <= data.Length && content == data[start..current]
      {
        var b := Advance();
        if b.Panic? {
          return Panic;
        }
        content := content + [b.value];
      }
      r := Ok(content);
    }

    /** `parse`: decodes one value from the cursor on. */
    method Parse() returns (r: Outcome<Bencode>)
      requires Valid()
      modifies this
      ensures Valid()
      ensures old(current) <= current
      ensures r == DecodeAt(data[..], old(current)).Observed()
      ensures !r.Panic? ==> current == DecodeAt(data[..], old(current)).next
      decreases data.Length + 1 - current
    {
      var marker := Peek();
      if marker.Panic? {
        return Panic;
      }
      if marker.value == DICT {
        var consumed := Advance();
        var dict := map[];
        while true
          invariant Valid() && old(current) < current <= data.Length
          invariant DecodeDict(data[..], current, dict) == DecodeAt(data[..], old(current))
          decreases data.Length - current
        {
          var p := Peek();
          if p.Panic? {
            return Panic;
          }
          if p.value == END {
            break;
          }
          var key := Parse();
          if !key.Ok? {
            return key;
          }
          var value := Parse();
          if !value.Ok? {
            return value;
          }
          if !key.value.Bytes? {
            return Err(NonStringKey);
          }
          if !Utf8.WellFormed(key.value.bytes) {
            return Err(InvalidUtf8);
          }
          dict := dict[key.value.bytes := value.value];
        }
        return Ok(Dictionary(dict));
      } else if marker.value == LIST {
        var consumed := Advance();
        var list := [];
        while true
          invariant Valid() && old(current) < current <= data.Length
          invariant DecodeList(data[..], current, list) == DecodeAt(data[..], old(current))
          decreases data.Length - current
        {
          var p := Peek();
          if p.Panic? {
            return Panic;
          }
          if p.value == END {
            break;
          }
          var value := Parse();
          if !value.Ok? {
            return value;
          }
          list := list + [value.value];
        }
        return Ok(List(list));
      } else if marker.value == INT {
        var consumed := Advance();
        var text := AdvanceTo(END);
        if text.Panic? {
          return Panic;
        }
        if !Utf8.WellFormed(text.value) {
          return Err(InvalidUtf8);
        }
        var value := ParseIsize(text.value);
        if value.None? {
          return Err(InvalidNumber);
        }
        return Ok(Integer(value.value));
      } else if IsDigit(marker.value) {
        var text := AdvanceTo(COLON);
        if text.Panic? {
          return Panic;
        }
        if !Utf8.WellFormed(text.value) {
          return Err(InvalidUtf8);
        }
        var size := ParseUsize(text.value);
        if size.None? {
          return Err(InvalidNumber);
        }
        var content := AdvanceExact(size.value);
        if content.Panic? {
          return Panic;
        }
        return Ok(Bytes(content.value));
      } else {
        return Panic;
      }
    }
  }

  /** `Parser::new(bytes).parse()`, the use in `main`. */
  method ParseBytes(bytes: seq<u8>) returns (r: Outcome<Bencode>)
    ensures r == Decode(bytes)
  {
    var parser := new Parser(bytes);
    r := parser.Parse();
  }
}
