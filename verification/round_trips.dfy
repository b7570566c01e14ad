/**
 * Encoding followed by decoding: the helpers' encoders and decoders are
 * inverse on the shapes the library's round-trip tests exercise.
 */
module RoundTrips {
  import opened Coding
  import opened AnyEncoding
  import opened ContainerWriters
  import opened EncoderHelpers
  import opened Readers
  import opened Decoders
  import opened UnkeyedDecoding
  import KeyedDecoding
  import opened DecoderHelpers

  /** Scalar documents, one per token. */
  function Scalars(ts: seq<Token>): (r: seq<Doc>)
    ensures |r| == |ts| && forall i :: 0 <= i < |ts| ==> r[i] == Scalar(ts[i])
  {
    seq(|ts|, i requires 0 <= i < |ts| => Scalar(ts[i]))
  }

  /** The same tokens as values whose own encoding writes the scalar. */
  function EncodedScalars(ts: seq<Token>): (r: seq<Val>)
    ensures |r| == |ts| && forall i :: 0 <= i < |ts| ==> r[i] == Enc(Scalar(ts[i]))
  {
    seq(|ts|, i requires 0 <= i < |ts| => Enc(Scalar(ts[i])))
  }

  /** An array of encodable scalars is accepted and written element for
      element. */
  lemma {:induction false} ScalarArrayDocs(ts: seq<Token>)
    ensures ItemsAccepted(EncodedScalars(ts))
    ensures ArrayDocs(EncodedScalars(ts)) == Scalars(ts)
  {
    var xs := EncodedScalars(ts);
    if ts != [] {
      assert xs[1..] == EncodedScalars(ts[1..]);
      ScalarArrayDocs(ts[1..]);
      assert xs[0] == Enc(Scalar(ts[0]));
      assert Scalars(ts) == [Scalar(ts[0])] + Scalars(ts[1..]);
    }
  }

  /** Draining scalar elements through the scalar decoder gives back the
      tokens. */
  lemma ScalarsDecode(path: Path, ts: seq<Token>)
    ensures DecodeAll(DecodeScalar, path, Scalars(ts), 0) == Ok(ts)
  {
    var xs := Scalars(ts);
    forall i | 0 <= i < |xs|
      ensures DecodeScalar(ElementAt(path, xs, i)) == Ok(ts[i])
    {
    }
    DecodeAllCorrect(DecodeScalar, path, xs, 0);
    var r := DecodeAll(DecodeScalar, path, xs, 0);
    assert r.value == ts;
  }

  /** `encodeToSingleOrArray` then `decodeFromSingleOrArray`: any number of
      scalars, one included, comes back as it was. */
  method SingleOrArrayRoundTrip(path: Path, ts: seq<Token>) returns (encodedAs: SingleOrArrayEncodedAs, r: Result<seq<Token>>)
    ensures encodedAs == if |ts| == 1 then Single else Array
    ensures r == Ok(ts)
  {
    var encoder := new Encoder(path);
    encodedAs := encoder.EncodeToSingleOrArray(Scalars(ts));
    var d := Plain(path, encoder.storage.value);
    r := DecodeFromSingleOrArray(d, DecodeScalar);
    if |ts| == 1 {
      assert SingleAttempt(d, DecodeScalar) == Ok(ts[0]);
      assert [ts[0]] == ts;
    } else {
      assert SingleAttempt(d, DecodeScalar) == Err(TypeMismatch(path));
      ScalarsDecode(path, ts);
    }
  }

  /** `encodeAnyArray(_:forKey:)` then the keyed array decode: the scalars
      come back in order. */
  method KeyedArrayRoundTrip(path: Path, key: Key, ts: seq<Token>) returns (err: Option<Error>, r: Result<seq<Token>>)
    ensures err == None
    ensures r == Ok(ts)
  {
    var writer := new KeyedWriter(path);
    err := writer.EncodeAnyArray(EncodedScalars(ts), key);
    ScalarArrayDocs(ts);
    var reader := KeyedReader(path, writer.entries, None);
    assert writer.entries == [(key, Unkeyed(Scalars(ts)))];
    assert reader.Lookup(key) == Some(Unkeyed(Scalars(ts)));
    r := KeyedDecoding.DecodeArray(reader, key, DecodeScalar);
    ScalarsDecode(path + [key], ts);
  }

  /** The decoding closure that keeps the decoder it is handed. */
  function Identity(d: Decoder): Result<Decoder> {
    Ok(d)
  }

  /** A decoder reads as a record: the element key reads as the record's
      name, and every other key reads what the record's own encoding wrote
      there. */
  ghost predicate ReadsAsRecord(view: Decoder, elementKey: string, name: string, ws: seq<FieldWrite>) {
    KeyedContainerOf(view).Ok? &&
    (forall k: Key :: k.str == elementKey ==> KeyedContainerOf(view).value.Lookup(k) == Some(Scalar(TStr(name)))) &&
    (forall k: Key :: k.str != elementKey ==> KeyedContainerOf(view).value.Lookup(k) == FindEntry(WritesDoc(ws), k.str))
  }

  /** With distinct key strings, each entry is the one found at its key. */
  lemma FindUnique(entries: seq<(Key, Doc)>, i: nat)
    requires i < |entries|
    requires forall j :: 0 <= j < |entries| && j != i ==> entries[j].0.str != entries[i].0.str
    ensures FindEntry(entries, entries[i].0.str) == Some(entries[i].1)
  {
  }

  /** Leaving out the key fields changes no read at any other key. */
  lemma {:induction false} KeyFieldsHideOnlyTheirKey(ws: seq<FieldWrite>, elementKey: string, s: string)
    requires s != elementKey
    ensures FindEntry(WritesDoc(WithoutKeyField(ws, elementKey)), s) == FindEntry(WritesDoc(ws), s)
  {
    if ws != [] {
      KeyFieldsHideOnlyTheirKey(ws[1..], elementKey, s);
      var rest := WritesDoc(ws[1..]);
      assert WritesDoc(ws)[1..] == rest;
      if !(ws[0].ValueWrite? && ws[0].key.str == elementKey) {
        var kept := WithoutKeyField(ws, elementKey);
        assert kept == [ws[0]] + WithoutKeyField(ws[1..], elementKey);
        assert kept[1..] == WithoutKeyField(ws[1..], elementKey);
        assert WritesDoc(kept)[1..] == WritesDoc(WithoutKeyField(ws[1..], elementKey));
        assert WritesDoc(kept)[0] == WritesDoc(ws)[0];
      }
    }
  }

  /** `dynamicElementEncoding` then `dynamicElementDecoding`: when every
      record encodes and the records' names differ, decoding gives one view
      per record, in the records' order, and each reads as its record, with
      its key field restored from its name. */
  lemma DynamicElementRoundTrip(path: Path, elementKey: string, records: seq<seq<FieldWrite>>)
    requires RecordsWrites(path, elementKey, records).failure.None?
    requires forall i, j :: 0 <= i < j < |records| ==>
               RecordName(path, elementKey, records[i]) != RecordName(path, elementKey, records[j])
    ensures var out := RecordsWrites(path, elementKey, records).out;
            var r := ElementsDecoded(Plain(path, Keyed(out)), elementKey, Identity);
            r.Ok? && |r.value| == |records| &&
            forall i :: 0 <= i < |records| ==>
              RecordName(path, elementKey, records[i]).Some? &&
              ReadsAsRecord(r.value[i], elementKey, RecordName(path, elementKey, records[i]).value, records[i])
  {
    var out := RecordsWrites(path, elementKey, records).out;
    RecordsWritesCorrect(path, elementKey, records);
    forall i | 0 <= i < |records|
      ensures RecordName(path, elementKey, records[i]).Some?
      ensures out[i] == (Key(RecordName(path, elementKey, records[i]).value, None),
                         Keyed(WritesDoc(WithoutKeyField(records[i], elementKey))))
    {
      RecordEntry(path, elementKey, records[i]);
    }
    var d := Plain(path, Keyed(out));
    var c := KeyedReader(path, out, None);
    assert KeyedContainerOf(d) == Ok(c);
    forall i | 0 <= i < |out|
      ensures RecordResult(c, elementKey, Identity, out[i].0) ==
                Ok(RecordView(KeyedReader(path + [out[i].0], out[i].1.entries, None), elementKey, out[i].0))
    {
      forall j | 0 <= j < |out| && j != i
        ensures out[j].0.str != out[i].0.str
      {
        if j < i {
          assert RecordName(path, elementKey, records[j]) != RecordName(path, elementKey, records[i]);
        } else {
          assert RecordName(path, elementKey, records[i]) != RecordName(path, elementKey, records[j]);
        }
      }
      FindUnique(out, i);
    }
    ElementsDecodedCorrect(d, elementKey, Identity);
    var r := ElementsDecoded(d, elementKey, Identity);
    forall i | 0 <= i < |records|
      ensures ReadsAsRecord(r.value[i], elementKey, RecordName(path, elementKey, records[i]).value, records[i])
    {
      var view := r.value[i];
      assert view == RecordView(KeyedReader(path + [out[i].0], out[i].1.entries, None), elementKey, out[i].0);
      forall k: Key | k.str != elementKey
        ensures KeyedContainerOf(view).value.Lookup(k) == FindEntry(WritesDoc(records[i]), k.str)
      {
        KeyFieldsHideOnlyTheirKey(records[i], elementKey, k.str);
      }
    }
  }
}
