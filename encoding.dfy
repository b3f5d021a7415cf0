/** A reference encoder for Bencode values (the grammar of the "bencoding"
    section of BEP 3), used to state what the decoder does on well-formed
    input. The decoder's source has no encoder; this one exists only to
    write the properties down, and is ghost. */
module BencodeEncoding {
  import opened Numbers
  import opened Bencode
  import Utf8
  import Collections

  /** `w` occurs in `data` starting at `pos`. */
  predicate IsAt(data: seq<u8>, pos: nat, w: seq<u8>) {
    pos + |w| <= |data| && data[pos..pos + |w|] == w
  }

  lemma IsAtSplit(data: seq<u8>, pos: nat, a: seq<u8>, b: seq<u8>)
    requires IsAt(data, pos, a + b)
    ensures IsAt(data, pos, a) && IsAt(data, pos + |a|, b)
  {
    assert data[pos..pos + |a|] == (a + b)[..|a|];
    assert data[pos + |a|..pos + |a| + |b|] == (a + b)[|a|..];
  }

  /** `i<n>e` */
  function EncodeInteger(n: isize): seq<u8> {
    [INT] + FormatInt(n as int) + [END]
  }

  /** `<length>:<bytes>` */
  function EncodeBytes(b: seq<u8>): seq<u8> {
    FormatNat(|b|) + [COLON] + b
  }

  /** The key a dictionary's encoding writes next, out of those not yet written.
      Bencode asks for sorted keys; the decoder does not check the order, so
      any fixed choice will do here. */
  ghost function PickKey(keys: set<seq<u8>>): (k: seq<u8>)
    requires keys != {}
    ensures k in keys
  {
    var k :| k in keys; k
  }

  ghost function Encode(v: Bencode): seq<u8>
    decreases v, 1
  {
    match v
    case Integer(n) => EncodeInteger(n)
    case Bytes(b) => EncodeBytes(b)
    case List(items) => [LIST] + EncodeAll(items) + [END]
    case Dictionary(m) => [DICT] + EncodeEntries(v, m, m.Keys) + [END]
  }

  /** The encodings of `vs`, one after the other. */
  ghost function EncodeAll(vs: seq<Bencode>): seq<u8>
    decreases vs, 1
  {
    if vs == [] then [] else Encode(vs[0]) + EncodeAll(vs[1..])
  }

  /** The key/value encodings of the entries of `m` whose keys are in `keys`. */
  ghost function EncodeEntries(parent: Bencode, m: map<seq<u8>, Bencode>, keys: set<seq<u8>>): seq<u8>
    requires parent == Dictionary(m) && keys <= m.Keys
    decreases parent, 0, keys
  {
    if keys == {} then []
    else
      var k := PickKey(keys);
      assert m[k] in m.Values;
      EncodeBytes(k) + Encode(m[k]) + EncodeEntries(parent, m, keys - {k})
  }

  /** A value a Rust program can hold: dictionary keys are `String`s (so
      well-formed UTF-8) and no byte string is longer than `usize::MAX`. */
  ghost predicate Representable(v: Bencode)
    decreases v
  {
    match v
    case Integer(_) => true
    case Bytes(b) => |b| <= USIZE_MAX
    case List(items) => forall i :: 0 <= i < |items| ==> Representable(items[i])
    case Dictionary(m) =>
      (forall k :: k in m.Keys ==> Utf8.WellFormed(k) && |k| <= USIZE_MAX)
      && (forall w :: w in m.Values ==> Representable(w))
  }

  /** Every encoding starts with its marker byte, which is never `e`. */
  lemma EncodeMarker(v: Bencode)
    ensures |Encode(v)| >= 1
    ensures Encode(v)[0] == match v
                            case Integer(_) => INT
                            case Bytes(_) => FormatNat(|v.bytes|)[0]
                            case List(_) => LIST
                            case Dictionary(_) => DICT
  {
  }

  /** Where the parts of an integer's encoding lie: the `e` that ends it is
      the first one after the `i`, and the text in between parses back. */
  lemma IntegerLayout(data: seq<u8>, pos: nat, n: isize, j: nat)
    requires IsAt(data, pos, EncodeInteger(n))
    requires j == pos + 1 + |FormatInt(n as int)|
    ensures data[pos] == INT && j < |data| && data[j] == END && END !in data[pos + 1..j]
    ensures ParseIsize(data[pos + 1..j]) == Some(n)
    ensures pos + |EncodeInteger(n)| == j + 1
  {
    var digits := FormatInt(n as int);
    assert data[pos] == INT && data[pos + 1..j] == digits && data[j] == END by {
      IsAtSplit(data, pos, [INT] + digits, [END]);
      IsAtSplit(data, pos, [INT], digits);
    }
    assert END !in digits;
    ParseFormatIsize(n);
  }

  /** Where the parts of a byte string's encoding lie: the colon that ends
      the length is the first one, the length parses back, and the bytes
      follow it. */
  lemma BytesLayout(data: seq<u8>, pos: nat, b: seq<u8>, j: nat)
    requires |b| <= USIZE_MAX && IsAt(data, pos, EncodeBytes(b))
    requires j == pos + |FormatNat(|b|)|
    ensures IsDigit(data[pos]) && j < |data| && data[j] == COLON && COLON !in data[pos..j]
    ensures ParseUsize(data[pos..j]) == Some(|b| as usize)
    ensures j + 1 + |b| <= |data| && data[j + 1..j + 1 + |b|] == b
    ensures pos + |EncodeBytes(b)| == j + 1 + |b|
  {
    var digits := FormatNat(|b|);
    assert data[pos..j] == digits && data[j] == COLON by {
      IsAtSplit(data, pos, digits + [COLON], b);
      IsAtSplit(data, pos, digits, [COLON]);
    }
    assert data[j + 1..j + 1 + |b|] == b by {
      assert pos + |digits + [COLON]| == j + 1;
      IsAtSplit(data, pos, digits + [COLON], b);
    }
    assert COLON !in digits && IsDigit(digits[0]) by {
      assert AllDigits(digits);
    }
    ParseFormatUsize(|b|);
  }

  /** A list's encoding: its marker, then its elements and the `e`. */
  lemma ListLayout(data: seq<u8>, pos: nat, vs: seq<Bencode>)
    requires IsAt(data, pos, Encode(List(vs)))
    ensures data[pos] == LIST && IsAt(data, pos + 1, EncodeAll(vs) + [END])
    ensures |Encode(List(vs))| == |EncodeAll(vs)| + 2
  {
    assert Encode(List(vs)) == [LIST] + (EncodeAll(vs) + [END]);
    IsAtSplit(data, pos, [LIST], EncodeAll(vs) + [END]);
  }

  /** A dictionary's encoding: its marker, then its entries and the `e`. */
  lemma DictLayout(data: seq<u8>, pos: nat, m: map<seq<u8>, Bencode>)
    requires IsAt(data, pos, Encode(Dictionary(m)))
    ensures data[pos] == DICT && IsAt(data, pos + 1, EncodeEntries(Dictionary(m), m, m.Keys) + [END])
    ensures |Encode(Dictionary(m))| == |EncodeEntries(Dictionary(m), m, m.Keys)| + 2
  {
    var body := EncodeEntries(Dictionary(m), m, m.Keys);
    assert Encode(Dictionary(m)) == [DICT] + (body + [END]);
    IsAtSplit(data, pos, [DICT], body + [END]);
  }

  /** A non-empty run of encodings: the first one, then the rest. */
  lemma AllLayout(data: seq<u8>, pos: nat, vs: seq<Bencode>, tail: seq<u8>, next: nat)
    requires vs != [] && IsAt(data, pos, EncodeAll(vs) + tail)
    requires next == pos + |Encode(vs[0])|
    ensures IsAt(data, pos, Encode(vs[0])) && IsAt(data, next, EncodeAll(vs[1..]) + tail)
    ensures pos + |EncodeAll(vs)| == next + |EncodeAll(vs[1..])|
  {
    var first, rest := Encode(vs[0]), EncodeAll(vs[1..]);
    assert EncodeAll(vs) == first + rest;
    Collections.AppendAssoc(first, rest, tail);
    IsAtSplit(data, pos, first, rest + tail);
    assert pos + |first| == next;
  }

  /** What the next byte is once a run of encodings is finished: the tail. */
  lemma EmptyLayout(data: seq<u8>, pos: nat, tail: seq<u8>)
    requires tail != [] && IsAt(data, pos, EncodeAll([]) + tail)
    ensures data[pos] == tail[0]
  {
    assert data[pos] == data[pos..pos + |tail|][0];
  }

  /** Key/value pairs in the order an input writes them. */
  ghost function EncodePairs(entries: seq<(seq<u8>, Bencode)>): seq<u8> {
    if entries == [] then [] else EncodeBytes(entries[0].0) + Encode(entries[0].1) + EncodePairs(entries[1..])
  }

  /** A non-empty run of pairs: the first key, its value, then the rest. */
  lemma PairsLayout(data: seq<u8>, pos: nat, entries: seq<(seq<u8>, Bencode)>, tail: seq<u8>,
                    afterKey: nat, next: nat)
    requires entries != [] && IsAt(data, pos, EncodePairs(entries) + tail)
    requires afterKey == pos + |EncodeBytes(entries[0].0)| && next == afterKey + |Encode(entries[0].1)|
    ensures IsAt(data, pos, Encode(Bytes(entries[0].0)))
    ensures IsAt(data, afterKey, Encode(entries[0].1))
    ensures IsAt(data, next, EncodePairs(entries[1..]) + tail)
    ensures pos + |EncodePairs(entries)| == next + |EncodePairs(entries[1..])|
  {
    var key, value, rest := EncodeBytes(entries[0].0), Encode(entries[0].1), EncodePairs(entries[1..]);
    assert EncodePairs(entries) == key + value + rest;
    assert EncodePairs(entries) + tail == key + (value + (rest + tail)) by {
      Collections.AppendAssoc(key, value, rest);
      Collections.AppendAssoc(key, value + rest, tail);
      Collections.AppendAssoc(value, rest, tail);
    }
    IsAtSplit(data, pos, key, value + (rest + tail));
    IsAtSplit(data, afterKey, value, rest + tail);
    assert Encode(Bytes(entries[0].0)) == key;
  }

  /** The empty run of pairs: the next byte is the tail's. */
  lemma NoPairsLayout(data: seq<u8>, pos: nat, tail: seq<u8>)
    requires tail != [] && IsAt(data, pos, EncodePairs([]) + tail)
    ensures data[pos] == tail[0]
  {
    assert data[pos] == data[pos..pos + |tail|][0];
  }

  /** A dictionary's entries with `keys` left to write: the key picked
      first, its value, then the other keys' entries. */
  lemma EntriesLayout(data: seq<u8>, pos: nat, m: map<seq<u8>, Bencode>, keys: set<seq<u8>>, k: seq<u8>,
                      tail: seq<u8>, afterKey: nat, next: nat)
    requires keys <= m.Keys && keys != {} && k == PickKey(keys)
    requires IsAt(data, pos, EncodeEntries(Dictionary(m), m, keys) + tail)
    requires afterKey == pos + |EncodeBytes(k)| && next == afterKey + |Encode(m[k])|
    ensures IsAt(data, pos, EncodeBytes(k))
    ensures IsAt(data, afterKey, Encode(m[k]))
    ensures IsAt(data, next, EncodeEntries(Dictionary(m), m, keys - {k}) + tail)
    ensures pos + |EncodeEntries(Dictionary(m), m, keys)| == next + |EncodeEntries(Dictionary(m), m, keys - {k})|
  {
    var key, value, rest := EncodeBytes(k), Encode(m[k]), EncodeEntries(Dictionary(m), m, keys - {k});
    assert EncodeEntries(Dictionary(m), m, keys) == key + value + rest;
    assert EncodeEntries(Dictionary(m), m, keys) + tail == key + (value + (rest + tail)) by {
      Collections.AppendAssoc(key, value, rest);
      Collections.AppendAssoc(key, value + rest, tail);
      Collections.AppendAssoc(value, rest, tail);
    }
    IsAtSplit(data, pos, key, value + (rest + tail));
    IsAtSplit(data, afterKey, value, rest + tail);
  }

  /** No entries left to write: the next byte is the tail's. */
  lemma NoEntriesLayout(data: seq<u8>, pos: nat, m: map<seq<u8>, Bencode>, tail: seq<u8>)
    requires tail != [] && IsAt(data, pos, EncodeEntries(Dictionary(m), m, {}) + tail)
    ensures data[pos] == tail[0]
  {
    assert data[pos] == data[pos..pos + |tail|][0];
  }

  /** What `Representable` says of one entry of a dictionary. */
  lemma RepresentableEntry(m: map<seq<u8>, Bencode>, k: seq<u8>)
    requires Representable(Dictionary(m)) && k in m
    ensures Utf8.WellFormed(k) && |k| <= USIZE_MAX && Representable(m[k])
  {
    assert m[k] in m.Values;
  }
}
