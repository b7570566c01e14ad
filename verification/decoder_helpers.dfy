/**
 * The decoder helpers: `decodeFromSingleOrArray`, which accepts either one
 * value or an array of them, and `dynamicElementDecoding`, which reads a keyed
 * container of records back into a list, putting each record's outer key
 * back in as one of its fields.
 */
module DecoderHelpers {
  import opened Coding
  import opened Readers
  import opened WrappedKeyedDecoders
  import opened WrappedSingleValueDecoders
  import opened Decoders
  import opened UnkeyedDecoding

  /** The single value attempt: the closure over a wrapped single value
      decoder, or the error of opening the single value container. */
  function SingleAttempt<T>(d: Decoder, f: Decoder -> Result<T>): Result<T> {
    match SingleValueContainerOf(d)
    case Err(e) => Err(e)
    case Ok(s) => f(WrappedSingle(WrapSingle(s, NoModification)))
  }

  /** The unkeyed path alone: every element of the unkeyed container, in
      order, or the error of opening it. */
  function ArrayAttempt<T>(d: Decoder, f: Decoder -> Result<T>): Result<seq<T>> {
    match UnkeyedContainerOf(d)
    case Err(e) => Err(e)
    case Ok((p, xs)) => DecodeAll(f, p, xs, 0)
  }

  /** Reference for `decodeFromSingleOrArray`: a successful single value
      attempt gives a one element list; its failure is swallowed (`try?`) and
      the unkeyed path decides, except for an unsupported container method,
      which no `try?` recovers from. */
  function SingleOrArrayDecoded<T>(d: Decoder, f: Decoder -> Result<T>): Result<seq<T>> {
    var single := SingleAttempt(d, f);
    if single.Ok? then Ok([single.value])
    else if single.error == Unsupported then Err(Unsupported)
    else ArrayAttempt(d, f)
  }

  /** `decodeFromSingleOrArray(customDecoding:)`. */
  method DecodeFromSingleOrArray<T>(d: Decoder, f: Decoder -> Result<T>) returns (r: Result<seq<T>>)
    ensures r == SingleOrArrayDecoded(d, f)
  {
    var single := SingleValueContainerOf(d);
    if single.Err? && single.error == Unsupported {
      return Err(Unsupported);
    }
    if single.Ok? {
      var v := f(WrappedSingle(WrapSingle(single.value, NoModification)));
      if v.Ok? {
        return Ok([v.value]);
      }
      if v.error == Unsupported {
        return Err(Unsupported);
      }
    }
    var n := UnkeyedContainerOf(d);
    if n.Err? {
      return Err(n.error);
    }
    var (p, xs) := n.value;
    var container := new UnkeyedReader(p, xs);
    r := DrainElements(container, f);
  }

  /** What `decodeFromSingleOrArray` promises: the single value wins when it
      decodes; any other failure of it is swallowed and the unkeyed path's
      outcome is the result, one closure result per element in order, with
      the unkeyed path's own errors propagated. */
  lemma SingleOrArrayDecodedCorrect<T>(d: Decoder, f: Decoder -> Result<T>)
    ensures SingleAttempt(d, f).Ok? ==> SingleOrArrayDecoded(d, f) == Ok([SingleAttempt(d, f).value])
    ensures SingleAttempt(d, f).Err? && SingleAttempt(d, f).error != Unsupported ==>
              SingleOrArrayDecoded(d, f) == ArrayAttempt(d, f)
    ensures SingleAttempt(d, f).Err? && UnkeyedContainerOf(d).Err? ==>
              SingleOrArrayDecoded(d, f).Err?
    ensures SingleAttempt(d, f).Err? && SingleAttempt(d, f).error != Unsupported && UnkeyedContainerOf(d).Ok? ==>
              var (p, xs) := UnkeyedContainerOf(d).value;
              var r := SingleOrArrayDecoded(d, f);
              (r.Ok? <==> forall i :: 0 <= i < |xs| ==> f(ElementAt(p, xs, i)).Ok?) &&
              (r.Ok? ==> |r.value| == |xs| && forall i :: 0 <= i < |xs| ==> r.value[i] == f(ElementAt(p, xs, i)).value)
  {
    if UnkeyedContainerOf(d).Ok? {
      var (p, xs) := UnkeyedContainerOf(d).value;
      DecodeAllCorrect(f, p, xs, 0);
    }
  }

  /** Reference for the unkeyed path of `decodeFromSingleOrArray` as
      written: the loop tests `isAtEnd` on a copy of the container that the
      wrapped decoder's reads never advance. An empty array gives an empty
      list; otherwise the closure runs over every element and then once more
      past the end, where the read fails. */
  function ArrayAttemptAsWritten<T>(d: Decoder, f: Decoder -> Result<T>): Result<seq<T>> {
    match UnkeyedContainerOf(d)
    case Err(e) => Err(e)
    case Ok((p, xs)) =>
      if |xs| == 0 then Ok([])
      else
        match DecodeAll(f, p, xs, 0)
        case Err(e) => Err(e)
        case Ok(_) => Err(ValueNotFound(p + [IndexKey(|xs|)]))
  }

  /** `decodeFromSingleOrArray` as written, with the array path of
      `ArrayAttemptAsWritten`. */
  function SingleOrArrayAsWritten<T>(d: Decoder, f: Decoder -> Result<T>): Result<seq<T>> {
    var single := SingleAttempt(d, f);
    if single.Ok? then Ok([single.value])
    else if single.error == Unsupported then Err(Unsupported)
    else ArrayAttemptAsWritten(d, f)
  }

  /** `decodeFromSingleOrArray(customDecoding:)` as written: `container` is
      bound with `let` and the wrapped decoder is given its own copy, so the
      loop condition looks at a container whose index stays at zero while
      the closure reads through the copy. */
  method DecodeFromSingleOrArrayAsWritten<T>(d: Decoder, f: Decoder -> Result<T>) returns (r: Result<seq<T>>)
    ensures r == SingleOrArrayAsWritten(d, f)
  {
    var single := SingleValueContainerOf(d);
    if single.Err? && single.error == Unsupported {
      return Err(Unsupported);
    }
    if single.Ok? {
      var v := f(WrappedSingle(WrapSingle(single.value, NoModification)));
      if v.Ok? {
        return Ok([v.value]);
      }
      if v.error == Unsupported {
        return Err(Unsupported);
      }
    }
    var n := UnkeyedContainerOf(d);
    if n.Err? {
      return Err(n.error);
    }
    var (p, xs) := n.value;
    var container := new UnkeyedReader(p, xs);
    var wrapped := new UnkeyedReader(p, xs);
    var rtn: seq<T> := [];
    PrependNothing(DecodeAll(f, p, xs, 0));
    while !container.IsAtEnd()
      invariant container.currentIndex == 0 && container.items == xs
      invariant wrapped.Valid() && wrapped.path == p && wrapped.items == xs
      invariant DecodeAll(f, p, xs, 0) == Prepend(rtn, DecodeAll(f, p, xs, wrapped.currentIndex))
      decreases |xs| - wrapped.currentIndex
    {
      var v := Decode(wrapped, f);
      if v.Err? {
        return Err(v.error);
      }
      PrependTwice(rtn, [v.value], DecodeAll(f, p, xs, wrapped.currentIndex));
      rtn := rtn + [v.value];
    }
    return Ok(rtn);
  }

  /** The loop as written never returns a list for a non-empty array: when
      every element decodes, the closure is called once more past the end
      and fails, so it differs from the intended outcome exactly where that
      outcome is a list. */
  lemma AsWrittenRejectsNonEmptyArrays<T>(d: Decoder, f: Decoder -> Result<T>)
    ensures SingleAttempt(d, f).Err? && UnkeyedContainerOf(d).Ok? && |UnkeyedContainerOf(d).value.1| > 0 ==>
              SingleOrArrayAsWritten(d, f).Err?
    ensures SingleAttempt(d, f).Err? && UnkeyedContainerOf(d).Ok? && |UnkeyedContainerOf(d).value.1| > 0 &&
            SingleOrArrayDecoded(d, f).Ok? ==>
              var (p, xs) := UnkeyedContainerOf(d).value;
              SingleOrArrayAsWritten(d, f) == Err(ValueNotFound(p + [IndexKey(|xs|)])) != SingleOrArrayDecoded(d, f)
    ensures SingleAttempt(d, f).Err? && UnkeyedContainerOf(d).Ok? && |UnkeyedContainerOf(d).value.1| == 0 ==>
              SingleOrArrayAsWritten(d, f) == SingleOrArrayDecoded(d, f)
  {
  }

  /** A concrete input: the one element array `[1]`, read by a closure that
      decodes one scalar. The intended decode gives `[1]`; as written it
      fails with `valueNotFound` at index 1. */
  lemma AsWrittenLosesOneElementArray()
    ensures SingleOrArrayDecoded(Plain([], Unkeyed([Scalar(TInt(1))])), DecodeScalar) == Ok([TInt(1)])
    ensures SingleOrArrayAsWritten(Plain([], Unkeyed([Scalar(TInt(1))])), DecodeScalar) == Err(ValueNotFound([IndexKey(1)]))
  {
    var xs := [Scalar(TInt(1))];
    var d := Plain([], Unkeyed(xs));
    var s := WrapSingle(SingleReader([], Unkeyed(xs)), NoModification);
    assert SingleValueContainerOf(WrappedSingle(s)) == Ok(SingleReader([], Unkeyed(xs)));
    assert SingleAttempt(d, DecodeScalar) == Err(TypeMismatch([]));
    assert DecodeScalar(ElementAt([], xs, 0)) == Ok(TInt(1));
    assert DecodeAll(DecodeScalar, [], xs, 1) == Ok([]);
    assert [TInt(1)] + [] == [TInt(1)];
    assert DecodeAll(DecodeScalar, [], xs, 0) == Ok([TInt(1)]);
    assert [] + [IndexKey(1)] == [IndexKey(1)];
  }

  /** The view `dynamicElementDecoding` hands the closure for the record at
      key `k`: a keyed decoder over the nested container, with the element
      key injected and reading as `k`'s string form. */
  function RecordView(nested: KeyedReader, elementKey: string, k: Key): (d: Decoder)
    ensures d.WrappedKeyed? && d.keyed.codingPath == nested.path
    ensures KeyedContainerOf(d).Ok? && KeyedContainerOf(d).value.entries == nested.entries
    ensures forall key: Key :: key.str == elementKey ==> KeyedContainerOf(d).value.Lookup(key) == Some(Scalar(TStr(k.str)))
    ensures forall key: Key :: key.str != elementKey ==> KeyedContainerOf(d).value.Lookup(key) == FindEntry(nested.entries, key.str)
  {
    WrappedKeyed(WrapKeyedContainer(KeyedReader(nested.path, nested.entries, Some((elementKey, k.str)))))
  }

  /** One record: the nested keyed container at its key, decoded through
      the closure. */
  function RecordResult<T>(c: KeyedReader, elementKey: string, f: Decoder -> Result<T>, k: Key): Result<T> {
    match c.NestedKeyed(k)
    case Err(e) => Err(e)
    case Ok(nested) => f(RecordView(nested, elementKey, k))
  }

  /** Reference: `g` applied to the keys from position `from` on, in
      order, the first error ending it. */
  function DecodeKeys<T>(g: Key -> Result<T>, keys: seq<Key>, from: nat): Result<seq<T>>
    decreases |keys| - from
  {
    if from >= |keys| then Ok([])
    else
      match g(keys[from])
      case Err(e) => Err(e)
      case Ok(v) => Prepend([v], DecodeKeys(g, keys, from + 1))
  }

  /** Decoding succeeds exactly when `g` succeeds on every key. */
  lemma {:induction false} DecodeKeysOk<T>(g: Key -> Result<T>, keys: seq<Key>, from: nat)
    requires from <= |keys|
    decreases |keys| - from
    ensures DecodeKeys(g, keys, from).Ok? <==> forall i :: from <= i < |keys| ==> g(keys[i]).Ok?
  {
    if from < |keys| {
      DecodeKeysOk(g, keys, from + 1);
    }
  }

  /** A successful run gives exactly one element per key, in key order. */
  lemma {:induction false} DecodeKeysValues<T>(g: Key -> Result<T>, keys: seq<Key>, from: nat)
    requires from <= |keys|
    decreases |keys| - from
    ensures var r := DecodeKeys(g, keys, from);
            r.Ok? ==> |r.value| == |keys| - from &&
                      forall i :: from <= i < |keys| ==> g(keys[i]) == Ok(r.value[i - from])
  {
    if from < |keys| {
      DecodeKeysValues(g, keys, from + 1);
    }
  }

  /** A failed run fails with the error of the first key `g` fails on. */
  lemma {:induction false} DecodeKeysFirstError<T>(g: Key -> Result<T>, keys: seq<Key>, from: nat)
    requires from <= |keys|
    decreases |keys| - from
    ensures var r := DecodeKeys(g, keys, from);
            r.Err? ==> exists j :: from <= j < |keys| && g(keys[j]) == Err(r.error) &&
                                   forall i :: from <= i < j ==> g(keys[i]).Ok?
  {
    if from < |keys| && g(keys[from]).Ok? {
      var rest := DecodeKeys(g, keys, from + 1);
      if rest.Err? {
        DecodeKeysFirstError(g, keys, from + 1);
        var j :| from + 1 <= j < |keys| && g(keys[j]) == Err(rest.error) &&
                 forall i :: from + 1 <= i < j ==> g(keys[i]).Ok?;
        assert forall i :: from <= i < j ==> g(keys[i]).Ok?;
      }
    }
  }

  /** Exactly one element per key, in key order, each `g`'s result at that
      key; otherwise the error of the first key `g` fails on, and no list. */
  lemma DecodeKeysCorrect<T>(g: Key -> Result<T>, keys: seq<Key>, from: nat)
    requires from <= |keys|
    ensures DecodeKeys(g, keys, from).Ok? <==> forall i :: from <= i < |keys| ==> g(keys[i]).Ok?
    ensures var r := DecodeKeys(g, keys, from);
            r.Ok? ==> |r.value| == |keys| - from &&
                      forall i :: from <= i < |keys| ==> r.value[i - from] == g(keys[i]).value
    ensures var r := DecodeKeys(g, keys, from);
            r.Err? ==> exists j :: from <= j < |keys| && g(keys[j]) == Err(r.error) &&
                                   forall i :: from <= i < j ==> g(keys[i]).Ok?
  {
    DecodeKeysOk(g, keys, from);
    DecodeKeysValues(g, keys, from);
    DecodeKeysFirstError(g, keys, from);
  }

  /** The closure the loop applies to each key of the container. */
  function RecordAt<T>(c: KeyedReader, elementKey: string, f: Decoder -> Result<T>): Key -> Result<T> {
    k => RecordResult(c, elementKey, f, k)
  }

  /** The records of an opened keyed container, over `allKeys`. */
  function RecordsDecoded<T>(c: KeyedReader, elementKey: string, f: Decoder -> Result<T>): Result<seq<T>> {
    DecodeKeys(RecordAt(c, elementKey, f), c.AllKeys(), 0)
  }

  /** One element per entry of the container, in entry order, each the
      closure's result on the record at that entry's key, or the first
      record error and no list. */
  lemma RecordsDecodedCorrect<T>(c: KeyedReader, elementKey: string, f: Decoder -> Result<T>)
    ensures var r := RecordsDecoded(c, elementKey, f);
            (r.Ok? <==> forall i :: 0 <= i < |c.entries| ==> RecordResult(c, elementKey, f, c.entries[i].0).Ok?) &&
            (r.Ok? ==> |r.value| == |c.entries| &&
                       forall i :: 0 <= i < |c.entries| ==> r.value[i] == RecordResult(c, elementKey, f, c.entries[i].0).value)
  {
    var g := RecordAt(c, elementKey, f);
    var keys := c.AllKeys();
    var r := DecodeKeys(g, keys, 0);
    DecodeKeysOk(g, keys, 0);
    DecodeKeysValues(g, keys, 0);
    forall i | 0 <= i < |c.entries|
      ensures g(keys[i]) == RecordResult(c, elementKey, f, c.entries[i].0)
      ensures r.Ok? ==> RecordResult(c, elementKey, f, c.entries[i].0) == Ok(r.value[i])
    {
      assert keys[i] == c.entries[i].0;
      if r.Ok? {
        assert g(keys[i]) == Ok(r.value[i - 0]);
      }
    }
  }

  /** Reference for `dynamicElementDecoding`: the records of the keyed
      container the decoder gives, or the error of opening it. */
  function ElementsDecoded<T>(d: Decoder, elementKey: string, f: Decoder -> Result<T>): Result<seq<T>> {
    match KeyedContainerOf(d)
    case Err(e) => Err(e)
    case Ok(c) => RecordsDecoded(c, elementKey, f)
  }

  /** What `dynamicElementDecoding` promises: a keyed container the decoder
      cannot give fails the call; otherwise one element per key of
      `allKeys`, in that order, each the closure's result on the record at that
      key with the key injected, or the first record error and no list. */
  lemma ElementsDecodedCorrect<T>(d: Decoder, elementKey: string, f: Decoder -> Result<T>)
    ensures KeyedContainerOf(d).Err? ==> ElementsDecoded(d, elementKey, f) == Err(KeyedContainerOf(d).error)
    ensures KeyedContainerOf(d).Ok? ==>
              var c := KeyedContainerOf(d).value;
              var r := ElementsDecoded(d, elementKey, f);
              (r.Ok? <==> forall i :: 0 <= i < |c.entries| ==> RecordResult(c, elementKey, f, c.entries[i].0).Ok?) &&
              (r.Ok? ==> |r.value| == |c.entries| &&
                         forall i :: 0 <= i < |c.entries| ==> r.value[i] == RecordResult(c, elementKey, f, c.entries[i].0).value)
  {
    if KeyedContainerOf(d).Ok? {
      RecordsDecodedCorrect(KeyedContainerOf(d).value, elementKey, f);
    }
  }

  /** `dynamicElementDecoding(usingKey:decodingFunc:)`: the `for key in
      allKeys` loop, opening one nested container per key. */
  method DynamicElementDecoding<T>(d: Decoder, elementKey: string, f: Decoder -> Result<T>) returns (r: Result<seq<T>>)
    ensures r == ElementsDecoded(d, elementKey, f)
  {
    var cr := KeyedContainerOf(d);
    if cr.Err? {
      return Err(cr.error);
    }
    var container := cr.value;
    var keys := container.AllKeys();
    var list: seq<T> := [];
    ghost var g := RecordAt(container, elementKey, f);
    assert ElementsDecoded(d, elementKey, f) == DecodeKeys(g, keys, 0);
    PrependNothing(DecodeKeys(g, keys, 0));
    for i := 0 to |keys|
      invariant DecodeKeys(g, keys, 0) == Prepend(list, DecodeKeys(g, keys, i))
    {
      var key := keys[i];
      assert g(key) == RecordResult(container, elementKey, f, key);
      var elementContainer := container.NestedKeyed(key);
      if elementContainer.Err? {
        assert DecodeKeys(g, keys, i) == Err(elementContainer.error);
        return Err(elementContainer.error);
      }
      var injectable := KeyedReader(elementContainer.value.path, elementContainer.value.entries, Some((elementKey, key.str)));
      var subDecoder := WrappedKeyed(WrapKeyedContainer(injectable));
      assert subDecoder == RecordView(elementContainer.value, elementKey, key);
      var newElement := f(subDecoder);
      assert newElement == g(key);
      if newElement.Err? {
        assert DecodeKeys(g, keys, i) == Err(newElement.error);
        return Err(newElement.error);
      }
      PrependTwice(list, [newElement.value], DecodeKeys(g, keys, i + 1));
      list := list + [newElement.value];
    }
    assert list + [] == list;
    r := Ok(list);
  }
}
