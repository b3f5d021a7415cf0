/** What the decoder does, as written, around nested containers and
    dictionary keys. The list and dictionary loops stop on an `e` without
    stepping over it, so a container decoded inside another one leaves its
    own `e` under the cursor, and the enclosing loop takes that `e` for its
    own end. */
module BencodeNesting {
  import opened Numbers
  import opened Bencode
  import opened BencodeSteps
  import BencodeEncoding
  import BencodeFixed
  import Utf8

  /** A decoded list or dictionary leaves the cursor on an `e`. */
  lemma ContainerStopsOnEnd(data: seq<u8>, pos: nat)
    requires pos <= |data| + 1 && DecodeAt(data, pos).Done?
    requires DecodeAt(data, pos).value.List? || DecodeAt(data, pos).value.Dictionary?
    ensures DecodeAt(data, pos).next < |data| && data[DecodeAt(data, pos).next] == END
  {
    if data[pos] == DICT {
      DispatchDict(data, pos);
    } else if data[pos] == LIST {
      DispatchList(data, pos);
    }
  }

  /** Once an element that is a container has been pushed, the list loop
      stops at once: whatever follows that element is never read. */
  lemma ContainerEndsList(data: seq<u8>, pos: nat, acc: seq<Bencode>, v: Bencode, next: nat)
    requires pos < |data| && data[pos] != END && DecodeAt(data, pos) == Done(v, next)
    requires v.List? || v.Dictionary?
    ensures DecodeList(data, pos, acc) == Done(List(acc + [v]), next)
  {
    ListItem(data, pos, acc, v, next);
    ContainerStopsOnEnd(data, pos);
    ListEnd(data, next, acc + [v]);
  }

  /** Once a value that is a container has been inserted, the dictionary
      loop stops at once. */
  lemma ContainerValueEndsDict(data: seq<u8>, pos: nat, acc: map<seq<u8>, Bencode>,
                               k: seq<u8>, afterKey: nat, v: Bencode, next: nat)
    requires pos < |data| && data[pos] != END && Utf8.WellFormed(k)
    requires DecodeAt(data, pos) == Done(Bytes(k), afterKey) && DecodeAt(data, afterKey) == Done(v, next)
    requires v.List? || v.Dictionary?
    ensures DecodeDict(data, pos, acc) == Done(Dictionary(acc[k := v]), next)
  {
    DictEntry(data, pos, acc, k, afterKey, v, next);
    ContainerStopsOnEnd(data, afterKey);
    DictEnd(data, next, acc[k := v]);
  }

  /** A key that is a container panics instead of failing with
      `NonStringKey`: the value is then decoded from the key's `e`, which is
      not a marker. */
  lemma ContainerKeyPanics(data: seq<u8>, pos: nat, acc: map<seq<u8>, Bencode>, key: Bencode, afterKey: nat)
    requires pos < |data| && data[pos] != END && DecodeAt(data, pos) == Done(key, afterKey)
    requires key.List? || key.Dictionary?
    ensures DecodeDict(data, pos, acc) == Abort
  {
    ContainerStopsOnEnd(data, pos);
    UnknownMarkerPanics(data, afterKey);
  }

  /** The key's type is checked only after the value is decoded: an error or
      a panic in the value wins over a key that is not a byte string. */
  lemma KeyCheckedAfterValue(data: seq<u8>, pos: nat, acc: map<seq<u8>, Bencode>, key: Bencode, afterKey: nat)
    requires pos < |data| && data[pos] != END && DecodeAt(data, pos) == Done(key, afterKey)
    requires !key.Bytes?
    ensures DecodeDict(data, pos, acc) == match DecodeAt(data, afterKey)
                                          case Abort => Abort
                                          case Fail(e, next) => Fail(e, next)
                                          case Done(_, next) => Fail(NonStringKey, next)
  {
  }

  /** A byte-string key that is not UTF-8 fails with `InvalidUtf8`, again
      only once its value has been decoded. */
  lemma InvalidKeyAfterValue(data: seq<u8>, pos: nat, acc: map<seq<u8>, Bencode>, k: seq<u8>, afterKey: nat)
    requires pos < |data| && data[pos] != END && DecodeAt(data, pos) == Done(Bytes(k), afterKey)
    requires !Utf8.WellFormed(k)
    ensures DecodeDict(data, pos, acc) == match DecodeAt(data, afterKey)
                                          case Abort => Abort
                                          case Fail(e, next) => Fail(e, next)
                                          case Done(_, next) => Fail(InvalidUtf8, next)
  {
  }

  /** `llei1ee`, the encoding of a list holding an empty list and then 1. */
  const NESTED: seq<u8> := [LIST, LIST, END, INT, 49, END, END]

  /** As written, the decoder reads `llei1ee` back as a list holding only the
      empty list: the `i1e` after the inner list is never read. */
  lemma NestedListLosesElements()
    ensures BencodeEncoding.Encode(List([List([]), Integer(1)])) == NESTED
    ensures Decode(NESTED) == Ok(List([List([])]))
    ensures Decode(NESTED) != Ok(List([List([]), Integer(1)]))
  {
    assert BencodeEncoding.EncodeAll([]) == [];
    assert BencodeEncoding.EncodeAll([Integer(1)]) == [INT, 49, END];
    DispatchList(NESTED, 0);
    DispatchList(NESTED, 1);
    ListEnd(NESTED, 2, []);
    ContainerEndsList(NESTED, 1, [], List([]), 2);
    assert [] + [List([])] == [List([])];
  }

  /** With the `e` stepped over, the same bytes read back as the value encoded. */
  lemma NestedListReadBack()
    ensures BencodeFixed.Decode(NESTED) == Ok(List([List([]), Integer(1)]))
  {
    NestedListLosesElements();
    BencodeFixed.RoundTrip(List([List([]), Integer(1)]));
  }
}
