/** What the decoder of `src/bencode.rs`, as written, does on encoded input:
    stated on the functions of module Bencode, which the methods of `Parser`
    are proved to compute. */
module BencodeProperties {
  import opened Numbers
  import opened Bencode
  import opened BencodeEncoding
  import opened BencodeSteps
  import Utf8
  import Collections

  /** Every `isize` reads back from its encoding, and the cursor ends just
      past the encoding. */
  lemma EncodedInteger(data: seq<u8>, pos: nat, n: isize)
    requires IsAt(data, pos, EncodeInteger(n))
    ensures data[pos] == INT
    ensures DecodeInteger(data, pos + 1) == Done(Integer(n), pos + |EncodeInteger(n)|)
  {
    var j := pos + 1 + |FormatInt(n as int)|;
    IntegerLayout(data, pos, n, j);
    IntegerLiteral(data, pos + 1, j);
  }

  /** Every byte string reads back from its encoding, valid text or not. */
  lemma EncodedBytes(data: seq<u8>, pos: nat, b: seq<u8>)
    requires |b| <= USIZE_MAX && IsAt(data, pos, EncodeBytes(b))
    ensures IsDigit(data[pos])
    ensures DecodeBytes(data, pos) == Done(Bytes(b), pos + |EncodeBytes(b)|)
  {
    var j := pos + |FormatNat(|b|)|;
    BytesLayout(data, pos, b, j);
    BytesRead(data, pos, j, b);
  }

  /** An integer or a byte string: the values whose encoding has no `e`
      left for an enclosing loop to stop at early. */
  ghost predicate IsScalar(v: Bencode) {
    v.Integer? || (v.Bytes? && |v.bytes| <= USIZE_MAX)
  }

  /** Integers and byte strings read back from their encodings. */
  lemma DecodeEncodedScalar(data: seq<u8>, pos: nat, v: Bencode)
    requires IsScalar(v) && IsAt(data, pos, Encode(v))
    ensures DecodeAt(data, pos) == Done(v, pos + |Encode(v)|)
    ensures data[pos] != END
  {
    if v.Integer? {
      EncodedInteger(data, pos, v.n);
      DispatchInteger(data, pos);
    } else {
      EncodedBytes(data, pos, v.bytes);
      DispatchDigit(data, pos);
    }
  }

  /** The list loop pushes the elements in the order it decodes them and
      stops on the `e`, which it leaves under the cursor. */
  lemma {:induction false} DecodeScalarItems(data: seq<u8>, pos: nat, acc: seq<Bencode>, vs: seq<Bencode>)
    requires forall i :: 0 <= i < |vs| ==> IsScalar(vs[i])
    requires IsAt(data, pos, EncodeAll(vs) + [END])
    ensures DecodeList(data, pos, acc) == Done(List(acc + vs), pos + |EncodeAll(vs)|)
    decreases vs, 1
  {
    if vs == [] {
      EmptyLayout(data, pos, [END]);
      ListEnd(data, pos, acc);
      Collections.AppendEmpty(acc);
    } else {
      DecodeScalarItem(data, pos, acc, vs, pos + |Encode(vs[0])|);
    }
  }

  /** One turn of the list loop on the encoding of `vs[0]`, then the rest. */
  lemma {:induction false} DecodeScalarItem(data: seq<u8>, pos: nat, acc: seq<Bencode>, vs: seq<Bencode>, next: nat)
    requires vs != [] && forall i :: 0 <= i < |vs| ==> IsScalar(vs[i])
    requires IsAt(data, pos, EncodeAll(vs) + [END]) && next == pos + |Encode(vs[0])|
    ensures DecodeList(data, pos, acc) == Done(List(acc + vs), pos + |EncodeAll(vs)|)
    decreases vs, 0
  {
    AllLayout(data, pos, vs, [END], next);
    DecodeEncodedScalar(data, pos, vs[0]);
    DecodeScalarItems(data, next, acc + [vs[0]], vs[1..]);
    ListItemThen(data, pos, acc, vs, next, next + |EncodeAll(vs[1..])|);
  }

  /** A list of integers and byte strings decodes to exactly those elements,
      in order; the cursor ends on the list's `e`, not past it. */
  lemma DecodeScalarList(data: seq<u8>, pos: nat, vs: seq<Bencode>)
    requires forall i :: 0 <= i < |vs| ==> IsScalar(vs[i])
    requires IsAt(data, pos, Encode(List(vs)))
    ensures DecodeAt(data, pos) == Done(List(vs), pos + |Encode(List(vs))| - 1)
  {
    ListLayout(data, pos, vs);
    DispatchList(data, pos);
    DecodeScalarItems(data, pos + 1, [], vs);
    Collections.EmptyAppend(vs);
  }

  /** `HashMap::insert` of each pair in turn: a later key overwrites an earlier one. */
  function InsertAll(acc: map<seq<u8>, Bencode>, entries: seq<(seq<u8>, Bencode)>): map<seq<u8>, Bencode>
    decreases entries
  {
    if entries == [] then acc else InsertAll(acc[entries[0].0 := entries[0].1], entries[1..])
  }

  ghost predicate IsScalarEntry(entry: (seq<u8>, Bencode)) {
    Utf8.WellFormed(entry.0) && |entry.0| <= USIZE_MAX && IsScalar(entry.1)
  }

  /** The dictionary loop decodes each key and then its value, inserts them,
      and stops on the `e`, which it leaves under the cursor. */
  lemma {:induction false} DecodeScalarEntries(data: seq<u8>, pos: nat, acc: map<seq<u8>, Bencode>,
                                               entries: seq<(seq<u8>, Bencode)>)
    requires forall i :: 0 <= i < |entries| ==> IsScalarEntry(entries[i])
    requires IsAt(data, pos, EncodePairs(entries) + [END])
    ensures DecodeDict(data, pos, acc) == Done(Dictionary(InsertAll(acc, entries)), pos + |EncodePairs(entries)|)
    decreases entries, 1
  {
    if entries == [] {
      NoPairsLayout(data, pos, [END]);
      DictEnd(data, pos, acc);
    } else {
      var afterKey := pos + |EncodeBytes(entries[0].0)|;
      DecodeScalarEntry(data, pos, acc, entries, afterKey, afterKey + |Encode(entries[0].1)|);
    }
  }

  /** One turn of the dictionary loop on the first pair, then the rest. */
  lemma {:induction false} DecodeScalarEntry(data: seq<u8>, pos: nat, acc: map<seq<u8>, Bencode>,
                                             entries: seq<(seq<u8>, Bencode)>, afterKey: nat, next: nat)
    requires entries != [] && forall i :: 0 <= i < |entries| ==> IsScalarEntry(entries[i])
    requires IsAt(data, pos, EncodePairs(entries) + [END])
    requires afterKey == pos + |EncodeBytes(entries[0].0)| && next == afterKey + |Encode(entries[0].1)|
    ensures DecodeDict(data, pos, acc) == Done(Dictionary(InsertAll(acc, entries)), pos + |EncodePairs(entries)|)
    decreases entries, 0
  {
    ScalarPairFacts(data, pos, entries, afterKey, next);
    DecodeScalarEntries(data, next, acc[entries[0].0 := entries[0].1], entries[1..]);
    DictEntry(data, pos, acc, entries[0].0, afterKey, entries[0].1, next);
  }

  /** What the encoding of the first pair gives the dictionary loop: a key
      and a value read back, and the other pairs after them. */
  lemma ScalarPairFacts(data: seq<u8>, pos: nat, entries: seq<(seq<u8>, Bencode)>, afterKey: nat, next: nat)
    requires entries != [] && IsScalarEntry(entries[0])
    requires IsAt(data, pos, EncodePairs(entries) + [END])
    requires afterKey == pos + |EncodeBytes(entries[0].0)| && next == afterKey + |Encode(entries[0].1)|
    ensures pos < |data| && data[pos] != END && Utf8.WellFormed(entries[0].0)
    ensures DecodeAt(data, pos) == Done(Bytes(entries[0].0), afterKey)
    ensures DecodeAt(data, afterKey) == Done(entries[0].1, next)
    ensures IsAt(data, next, EncodePairs(entries[1..]) + [END])
    ensures pos + |EncodePairs(entries)| == next + |EncodePairs(entries[1..])|
  {
    PairsLayout(data, pos, entries, [END], afterKey, next);
    DecodeEncodedScalar(data, pos, Bytes(entries[0].0));
    DecodeEncodedScalar(data, afterKey, entries[0].1);
  }

  /** A dictionary written as key/value pairs of byte-string keys and scalar
      values decodes to the map that inserting those pairs in order builds:
      with duplicate keys, the last one wins. The cursor ends on the `e`. */
  lemma DecodeScalarDict(data: seq<u8>, pos: nat, entries: seq<(seq<u8>, Bencode)>)
    requires forall i :: 0 <= i < |entries| ==> IsScalarEntry(entries[i])
    requires IsAt(data, pos, [DICT] + (EncodePairs(entries) + [END]))
    ensures DecodeAt(data, pos) == Done(Dictionary(InsertAll(map[], entries)), pos + |EncodePairs(entries)| + 1)
  {
    IsAtSplit(data, pos, [DICT], EncodePairs(entries) + [END]);
    assert data[pos] == DICT;
    DispatchDict(data, pos);
    DecodeScalarEntries(data, pos + 1, map[], entries);
  }

  /** The entries a dictionary loop has inserted so far, all of which a Rust
      `HashMap<String, Bencode>` can hold. */
  ghost predicate EntriesRepresentable(acc: map<seq<u8>, Bencode>) {
    forall k :: k in acc ==> Utf8.WellFormed(k) && |k| <= USIZE_MAX && Representable(acc[k])
  }

  lemma EntriesDictionary(acc: map<seq<u8>, Bencode>)
    requires EntriesRepresentable(acc)
    ensures Representable(Dictionary(acc))
  {
    forall w | w in acc.Values
      ensures Representable(w)
    {
      var k :| k in acc && acc[k] == w;
    }
  }

  /** Every value the decoder returns is one a Rust program holds: keys are
      UTF-8 (`String::from_utf8` succeeded) and no byte string is longer
      than a `usize` length. */
  lemma {:induction false} DecodedRepresentable(data: seq<u8>, pos: nat)
    requires pos <= |data| + 1
    ensures DecodeAt(data, pos).Done? ==> Representable(DecodeAt(data, pos).value)
    decreases |data| + 1 - pos, 0
  {
    if pos < |data| {
      if data[pos] == DICT {
        DecodedEntriesRepresentable(data, pos + 1, map[]);
      } else if data[pos] == LIST {
        DecodedItemsRepresentable(data, pos + 1, []);
      } else if data[pos] != INT && IsDigit(data[pos]) {
        DispatchDigit(data, pos);
        DecodedBytesRepresentable(data, pos);
      }
    }
  }

  /** A byte string is at most as long as the `usize` its length parses to. */
  lemma DecodedBytesRepresentable(data: seq<u8>, pos: nat)
    requires pos <= |data| + 1
    ensures DecodeBytes(data, pos).Done? ==> Representable(DecodeBytes(data, pos).value)
  {
  }

  /** The list loop adds only representable elements. */
  lemma {:induction false} DecodedItemsRepresentable(data: seq<u8>, pos: nat, acc: seq<Bencode>)
    requires pos <= |data| + 1
    requires forall i :: 0 <= i < |acc| ==> Representable(acc[i])
    ensures DecodeList(data, pos, acc).Done? ==> Representable(DecodeList(data, pos, acc).value)
    decreases |data| + 1 - pos, 1
  {
    if pos < |data| && data[pos] != END {
      DecodedRepresentable(data, pos);
      match DecodeAt(data, pos)
      case Done(v, next) =>
        ListItem(data, pos, acc, v, next);
        DecodedItemsRepresentable(data, next, acc + [v]);
      case _ =>
    }
  }

  /** The dictionary loop inserts only UTF-8 keys with representable values. */
  lemma {:induction false} DecodedEntriesRepresentable(data: seq<u8>, pos: nat, acc: map<seq<u8>, Bencode>)
    requires pos <= |data| + 1
    requires EntriesRepresentable(acc)
    ensures DecodeDict(data, pos, acc).Done? ==> Representable(DecodeDict(data, pos, acc).value)
    decreases |data| + 1 - pos, 1
  {
    if pos >= |data| || data[pos] == END {
      EntriesDictionary(acc);
    } else {
      DecodedRepresentable(data, pos);
      var first := DecodeAt(data, pos);
      if first.Done? {
        var key, afterKey := first.value, first.next;
        DecodedRepresentable(data, afterKey);
        var second := DecodeAt(data, afterKey);
        if second.Done? && key.Bytes? && Utf8.WellFormed(key.bytes) {
          DictEntry(data, pos, acc, key.bytes, afterKey, second.value, second.next);
          DecodedEntriesRepresentable(data, second.next, acc[key.bytes := second.value]);
        }
      }
    }
  }
}
