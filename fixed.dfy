/** The decoder with its list and dictionary loops corrected to consume the
    closing `e`, as the format requires: the same dispatch, the same literal
    cases (those of module Bencode, unchanged) and the same panics, but a
    container now ends one past its `e`. With this change every value a Rust
    program can hold reads back from its encoding. */
module BencodeFixed {
  import opened Numbers
  import opened Bencode
  import opened BencodeEncoding
  import BencodeProperties
  import Collections
  import Utf8

  /** `parse` with the corrected loops. */
  function DecodeAt(data: seq<u8>, pos: nat): (s: Step<Bencode>)
    requires pos <= |data| + 1
    ensures s.Done? || s.Fail? ==> pos < s.next <= |data|
    decreases |data| + 1 - pos, 0
  {
    if pos >= |data| then Abort
    else if data[pos] == DICT then DecodeDict(data, pos + 1, map[])
    else if data[pos] == LIST then DecodeList(data, pos + 1, [])
    else if data[pos] == INT then DecodeInteger(data, pos + 1)
    else if IsDigit(data[pos]) then DecodeBytes(data, pos)
    else Abort
  }

  /** The dictionary loop, which now steps over the final `e`. */
  function DecodeDict(data: seq<u8>, pos: nat, acc: map<seq<u8>, Bencode>): (s: Step<Bencode>)
    requires pos <= |data| + 1
    ensures s.Done? ==> pos < s.next <= |data| && data[s.next - 1] == END && s.value.Dictionary?
    ensures s.Fail? ==> pos < s.next <= |data|
    decreases |data| + 1 - pos, 1
  {
    if pos >= |data| then Abort
    else if data[pos] == END then Done(Dictionary(acc), pos + 1)
    else
      match DecodeAt(data, pos)
      case Abort => Abort
      case Fail(e, next) => Fail(e, next)
      case Done(key, afterKey) =>
        match DecodeAt(data, afterKey)
        case Abort => Abort
        case Fail(e, next) => Fail(e, next)
        case Done(value, afterValue) =>
          if !key.Bytes? then Fail(NonStringKey, afterValue)
          else if !Utf8.WellFormed(key.bytes) then Fail(InvalidUtf8, afterValue)
          else DecodeDict(data, afterValue, acc[key.bytes := value])
  }

  /** The list loop, which now steps over the final `e`. */
  function DecodeList(data: seq<u8>, pos: nat, acc: seq<Bencode>): (s: Step<Bencode>)
    requires pos <= |data| + 1
    ensures s.Done? ==> pos < s.next <= |data| && data[s.next - 1] == END && s.value.List?
    ensures s.Fail? ==> pos < s.next <= |data|
    decreases |data| + 1 - pos, 1
  {
    if pos >= |data| then Abort
    else if data[pos] == END then Done(List(acc), pos + 1)
    else
      match DecodeAt(data, pos)
      case Abort => Abort
      case Fail(e, next) => Fail(e, next)
      case Done(value, next) => DecodeList(data, next, acc + [value])
  }

  function Decode(data: seq<u8>): Outcome<Bencode> {
    DecodeAt(data, 0).Observed()
  }

  lemma DispatchInteger(data: seq<u8>, pos: nat)
    requires pos < |data| && data[pos] == INT
    ensures DecodeAt(data, pos) == DecodeInteger(data, pos + 1)
  {
  }

  lemma DispatchDigit(data: seq<u8>, pos: nat)
    requires pos < |data| && IsDigit(data[pos])
    ensures DecodeAt(data, pos) == DecodeBytes(data, pos)
  {
  }

  lemma DispatchList(data: seq<u8>, pos: nat)
    requires pos < |data| && data[pos] == LIST
    ensures DecodeAt(data, pos) == DecodeList(data, pos + 1, [])
  {
  }

  lemma DispatchDict(data: seq<u8>, pos: nat)
    requires pos < |data| && data[pos] == DICT
    ensures DecodeAt(data, pos) == DecodeDict(data, pos + 1, map[])
  {
  }

  lemma ListEnd(data: seq<u8>, pos: nat, acc: seq<Bencode>)
    requires pos < |data| && data[pos] == END
    ensures DecodeList(data, pos, acc) == Done(List(acc), pos + 1)
  {
  }

  lemma ListItem(data: seq<u8>, pos: nat, acc: seq<Bencode>, v: Bencode, next: nat)
    requires pos < |data| && data[pos] != END && DecodeAt(data, pos) == Done(v, next)
    ensures DecodeList(data, pos, acc) == DecodeList(data, next, acc + [v])
  {
  }

  /** One turn of the list loop followed by the rest of the loop. */
  lemma ListItemThen(data: seq<u8>, pos: nat, acc: seq<Bencode>, vs: seq<Bencode>, next: nat, end: nat)
    requires vs != [] && pos < |data| && data[pos] != END && DecodeAt(data, pos) == Done(vs[0], next)
    requires DecodeList(data, next, acc + [vs[0]]) == Done(List(acc + [vs[0]] + vs[1..]), end)
    ensures DecodeList(data, pos, acc) == Done(List(acc + vs), end)
  {
    ListItem(data, pos, acc, vs[0], next);
    Collections.AppendAssoc(acc, [vs[0]], vs[1..]);
    Collections.HeadTail(vs);
  }

  lemma DictEnd(data: seq<u8>, pos: nat, acc: map<seq<u8>, Bencode>)
    requires pos < |data| && data[pos] == END
    ensures DecodeDict(data, pos, acc) == Done(Dictionary(acc), pos + 1)
  {
  }

  lemma DictEntry(data: seq<u8>, pos: nat, acc: map<seq<u8>, Bencode>, k: seq<u8>, afterKey: nat, v: Bencode, next: nat)
    requires pos < |data| && data[pos] != END
    requires DecodeAt(data, pos) == Done(Bytes(k), afterKey) && DecodeAt(data, afterKey) == Done(v, next)
    requires Utf8.WellFormed(k)
    ensures DecodeDict(data, pos, acc) == DecodeDict(data, next, acc[k := v])
  {
  }

  /** One turn of the dictionary loop followed by the rest of the loop. */
  lemma DictEntryThen(data: seq<u8>, pos: nat, acc: map<seq<u8>, Bencode>, m: map<seq<u8>, Bencode>,
                      keys: set<seq<u8>>, k: seq<u8>, afterKey: nat, next: nat, end: nat)
    requires keys <= m.Keys && k in keys && pos < |data| && data[pos] != END && Utf8.WellFormed(k)
    requires DecodeAt(data, pos) == Done(Bytes(k), afterKey) && DecodeAt(data, afterKey) == Done(m[k], next)
    requires DecodeDict(data, next, acc[k := m[k]]) == Done(Dictionary(acc[k := m[k]] + Collections.Restrict(m, keys - {k})), end)
    ensures DecodeDict(data, pos, acc) == Done(Dictionary(acc + Collections.Restrict(m, keys)), end)
  {
    DictEntry(data, pos, acc, k, afterKey, m[k], next);
    Collections.RestrictInsert(acc, m, keys, k);
  }

  /** A byte string, and so a dictionary key, reads back from its encoding. */
  lemma KeyAt(data: seq<u8>, pos: nat, b: seq<u8>, next: nat)
    requires |b| <= USIZE_MAX && IsAt(data, pos, EncodeBytes(b)) && next == pos + |EncodeBytes(b)|
    ensures DecodeAt(data, pos) == Done(Bytes(b), next)
    ensures data[pos] != END
  {
    BencodeProperties.EncodedBytes(data, pos, b);
    DispatchDigit(data, pos);
  }

  /** The round trip: every representable value is read back from its
      encoding wherever that encoding starts, and the cursor ends just past
      it. Proved together with the two loops below, by induction on the value. */
  lemma {:induction false} RoundTripAt(data: seq<u8>, pos: nat, v: Bencode)
    requires Representable(v) && IsAt(data, pos, Encode(v))
    ensures DecodeAt(data, pos) == Done(v, pos + |Encode(v)|)
    ensures data[pos] != END
    decreases v, 1
  {
    match v
    case Integer(n) =>
      BencodeProperties.EncodedInteger(data, pos, n);
      DispatchInteger(data, pos);
    case Bytes(b) =>
      KeyAt(data, pos, b, pos + |EncodeBytes(b)|);
    case List(items) =>
      ListLayout(data, pos, items);
      DispatchList(data, pos);
      RoundTripItems(data, pos + 1, [], items);
      Collections.EmptyAppend(items);
    case Dictionary(m) =>
      DictLayout(data, pos, m);
      DispatchDict(data, pos);
      RoundTripEntries(data, pos + 1, map[], m, m.Keys);
      Collections.RestrictAll(m);
  }

  /** The list loop reads the encodings of `vs` back in order and steps over the `e`. */
  lemma {:induction false} RoundTripItems(data: seq<u8>, pos: nat, acc: seq<Bencode>, vs: seq<Bencode>)
    requires forall i :: 0 <= i < |vs| ==> Representable(vs[i])
    requires IsAt(data, pos, EncodeAll(vs) + [END])
    ensures DecodeList(data, pos, acc) == Done(List(acc + vs), pos + |EncodeAll(vs)| + 1)
    decreases vs, 1
  {
    if vs == [] {
      EmptyLayout(data, pos, [END]);
      ListEnd(data, pos, acc);
      Collections.AppendEmpty(acc);
    } else {
      RoundTripItem(data, pos, acc, vs, pos + |Encode(vs[0])|);
    }
  }

  /** One turn of the list loop on the encoding of `vs[0]`, then the rest. */
  lemma {:induction false} RoundTripItem(data: seq<u8>, pos: nat, acc: seq<Bencode>, vs: seq<Bencode>, next: nat)
    requires vs != [] && forall i :: 0 <= i < |vs| ==> Representable(vs[i])
    requires IsAt(data, pos, EncodeAll(vs) + [END]) && next == pos + |Encode(vs[0])|
    ensures DecodeList(data, pos, acc) == Done(List(acc + vs), pos + |EncodeAll(vs)| + 1)
    decreases vs, 0
  {
    AllLayout(data, pos, vs, [END], next);
    RoundTripAt(data, pos, vs[0]);
    RoundTripItems(data, next, acc + [vs[0]], vs[1..]);
    ListItemThen(data, pos, acc, vs, next, next + |EncodeAll(vs[1..])| + 1);
  }

  /** The dictionary loop reads the entries of `m` with keys in `keys` back,
      in the order they are written, and steps over the `e`. */
  lemma {:induction false} RoundTripEntries(data: seq<u8>, pos: nat, acc: map<seq<u8>, Bencode>,
                                            m: map<seq<u8>, Bencode>, keys: set<seq<u8>>)
    requires keys <= m.Keys && Representable(Dictionary(m))
    requires IsAt(data, pos, EncodeEntries(Dictionary(m), m, keys) + [END])
    ensures DecodeDict(data, pos, acc)
            == Done(Dictionary(acc + Collections.Restrict(m, keys)), pos + |EncodeEntries(Dictionary(m), m, keys)| + 1)
    decreases Dictionary(m), 0, keys, 1
  {
    if keys == {} {
      NoEntriesLayout(data, pos, m, [END]);
      DictEnd(data, pos, acc);
      Collections.RestrictNone(acc, m);
    } else {
      var k := PickKey(keys);
      RoundTripEntry(data, pos, acc, m, keys, k, pos + |EncodeBytes(k)|, pos + |EncodeBytes(k)| + |Encode(m[k])|);
    }
  }

  /** What the encoding of the entry written first gives the dictionary loop:
      a key read back, a value encoded and the rest of the entries after it. */
  lemma EntryFacts(data: seq<u8>, pos: nat, m: map<seq<u8>, Bencode>, keys: set<seq<u8>>,
                   k: seq<u8>, afterKey: nat, next: nat)
    requires keys <= m.Keys && keys != {} && k == PickKey(keys) && Representable(Dictionary(m))
    requires IsAt(data, pos, EncodeEntries(Dictionary(m), m, keys) + [END])
    requires afterKey == pos + |EncodeBytes(k)| && next == afterKey + |Encode(m[k])|
    ensures k in keys && pos < |data| && data[pos] != END && Utf8.WellFormed(k)
    ensures DecodeAt(data, pos) == Done(Bytes(k), afterKey)
    ensures Representable(m[k]) && IsAt(data, afterKey, Encode(m[k]))
    ensures IsAt(data, next, EncodeEntries(Dictionary(m), m, keys - {k}) + [END])
    ensures pos + |EncodeEntries(Dictionary(m), m, keys)| == next + |EncodeEntries(Dictionary(m), m, keys - {k})|
  {
    EntriesLayout(data, pos, m, keys, k, [END], afterKey, next);
    RepresentableEntry(m, k);
    KeyAt(data, pos, k, afterKey);
  }

  /** One turn of the dictionary loop on the entry written first, then the rest. */
  lemma {:induction false} RoundTripEntry(data: seq<u8>, pos: nat, acc: map<seq<u8>, Bencode>,
                                          m: map<seq<u8>, Bencode>, keys: set<seq<u8>>,
                                          k: seq<u8>, afterKey: nat, next: nat)
    requires keys <= m.Keys && keys != {} && k == PickKey(keys) && Representable(Dictionary(m))
    requires IsAt(data, pos, EncodeEntries(Dictionary(m), m, keys) + [END])
    requires afterKey == pos + |EncodeBytes(k)| && next == afterKey + |Encode(m[k])|
    ensures DecodeDict(data, pos, acc)
            == Done(Dictionary(acc + Collections.Restrict(m, keys)), pos + |EncodeEntries(Dictionary(m), m, keys)| + 1)
    decreases Dictionary(m), 0, keys, 0
  {
    EntryFacts(data, pos, m, keys, k, afterKey, next);
    assert m[k] in m.Values;
    ValueAt(data, afterKey, m[k], next);
    var end := next + |EncodeEntries(Dictionary(m), m, keys - {k})| + 1;
    EntriesAt(data, next, acc[k := m[k]], m, keys - {k}, end);
    DictEntryThen(data, pos, acc, m, keys, k, afterKey, next, end);
  }

  /** `RoundTripAt` with the position after the value given. */
  lemma {:induction false} ValueAt(data: seq<u8>, pos: nat, v: Bencode, next: nat)
    requires Representable(v) && IsAt(data, pos, Encode(v)) && next == pos + |Encode(v)|
    ensures DecodeAt(data, pos) == Done(v, next)
    decreases v, 2
  {
    RoundTripAt(data, pos, v);
  }

  /** `RoundTripEntries` with the position after the `e` given. */
  lemma {:induction false} EntriesAt(data: seq<u8>, pos: nat, acc: map<seq<u8>, Bencode>,
                                     m: map<seq<u8>, Bencode>, keys: set<seq<u8>>, end: nat)
    requires keys <= m.Keys && Representable(Dictionary(m))
    requires IsAt(data, pos, EncodeEntries(Dictionary(m), m, keys) + [END])
    requires end == pos + |EncodeEntries(Dictionary(m), m, keys)| + 1
    ensures DecodeDict(data, pos, acc) == Done(Dictionary(acc + Collections.Restrict(m, keys)), end)
    decreases Dictionary(m), 0, keys, 2
  {
    RoundTripEntries(data, pos, acc, m, keys);
  }

  /** `Decode(Encode(v)) == Ok(v)` for every value a Rust program can hold. */
  lemma RoundTrip(v: Bencode)
    requires Representable(v)
    ensures Decode(Encode(v)) == Ok(v)
  {
    var data := Encode(v);
    assert IsAt(data, 0, data);
    RoundTripAt(data, 0, v);
  }

  /** Every value the corrected decoder returns is one a Rust program holds:
      UTF-8 keys and byte strings no longer than a `usize` length. */
  lemma {:induction false} DecodedRepresentable(data: seq<u8>, pos: nat)
    requires pos <= |data| + 1
    ensures DecodeAt(data, pos).Done? ==> Representable(DecodeAt(data, pos).value)
    decreases |data| + 1 - pos, 0
  {
    if pos < |data| {
      if data[pos] == DICT {
        DecodedEntriesRepresentable(data, pos + 1, map[]);
      } else if data[pos] == LIST {
        DecodedItemsRepresentable(data, pos + 1, []);
      } else if data[pos] != INT && IsDigit(data[pos]) {
        DispatchDigit(data, pos);
        BencodeProperties.DecodedBytesRepresentable(data, pos);
      }
    }
  }

  /** The corrected list loop adds only representable elements. */
  lemma {:induction false} DecodedItemsRepresentable(data: seq<u8>, pos: nat, acc: seq<Bencode>)
    requires pos <= |data| + 1
    requires forall i :: 0 <= i < |acc| ==> Representable(acc[i])
    ensures DecodeList(data, pos, acc).Done? ==> Representable(DecodeList(data, pos, acc).value)
    decreases |data| + 1 - pos, 1
  {
    if pos < |data| && data[pos] != END {
      DecodedRepresentable(data, pos);
      match DecodeAt(data, pos)
      case Done(v, next) =>
        ListItem(data, pos, acc, v, next);
        DecodedItemsRepresentable(data, next, acc + [v]);
      case _ =>
    }
  }

  /** The corrected dictionary loop inserts only UTF-8 keys with
      representable values. */
  lemma {:induction false} DecodedEntriesRepresentable(data: seq<u8>, pos: nat, acc: map<seq<u8>, Bencode>)
    requires pos <= |data| + 1
    requires BencodeProperties.EntriesRepresentable(acc)
    ensures DecodeDict(data, pos, acc).Done? ==> Representable(DecodeDict(data, pos, acc).value)
    decreases |data| + 1 - pos, 1
  {
    if pos >= |data| || data[pos] == END {
      BencodeProperties.EntriesDictionary(acc);
    } else {
      DecodedRepresentable(data, pos);
      var first := DecodeAt(data, pos);
      if first.Done? {
        var key, afterKey := first.value, first.next;
        DecodedRepresentable(data, afterKey);
        var second := DecodeAt(data, afterKey);
        if second.Done? && key.Bytes? && Utf8.WellFormed(key.bytes) {
          DictEntry(data, pos, acc, key.bytes, afterKey, second.value, second.next);
          DecodedEntriesRepresentable(data, second.next, acc[key.bytes := second.value]);
        }
      }
    }
  }
}
