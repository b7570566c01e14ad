/**
 * The keyed decoding helpers: decode the value at a key through a decoding
 * closure, or drain the array at a key into a list. The closure is handed a
 * pre-keyed decoder, whose reads go to the value at that key.
 */
module KeyedDecoding {
  import opened Coding
  import opened Readers
  import opened Decoders
  import opened UnkeyedDecoding

  /** `decode(forKey:decodingFunc:)`: the closure is handed a pre-keyed
      decoder over this container and the key. */
  function Decode<T>(c: KeyedReader, key: Key, f: Decoder -> Result<T>): Result<T> {
    f(PreKeyed(c, key))
  }

  /** What the pre-keyed decoder reads: every container it opens is over the
      value at the key, at the key's path; a missing key fails each of them
      with `keyNotFound` at that path. */
  lemma PreKeyedReadsAtKey(c: KeyedReader, key: Key)
    ensures c.Lookup(key).None? ==>
              KeyedContainerOf(PreKeyed(c, key)) == Err(KeyNotFound(c.path + [key])) &&
              UnkeyedContainerOf(PreKeyed(c, key)) == Err(KeyNotFound(c.path + [key])) &&
              SingleValueContainerOf(PreKeyed(c, key)) == Err(KeyNotFound(c.path + [key]))
    ensures c.Lookup(key).Some? ==>
              SingleValueContainerOf(PreKeyed(c, key)) == Ok(SingleReader(c.path + [key], c.Lookup(key).value))
    ensures c.Lookup(key).Some? && c.Lookup(key).value.Keyed? ==>
              KeyedContainerOf(PreKeyed(c, key)) == Ok(KeyedReader(c.path + [key], c.Lookup(key).value.entries, None))
    ensures c.Lookup(key).Some? && c.Lookup(key).value.Unkeyed? ==>
              UnkeyedContainerOf(PreKeyed(c, key)) == Ok((c.path + [key], c.Lookup(key).value.items))
  {
  }

  /** Decoding a primitive at a key reads the scalar stored there; a missing
      key is `keyNotFound` and any other document a type mismatch, both at
      the key's path. `decodeIfPresent` gives the same scalar, or nil when
      the key is missing. */
  lemma DecodeScalarAtKey(c: KeyedReader, key: Key)
    ensures c.Lookup(key).Some? && c.Lookup(key).value.Scalar? ==>
              Decode(c, key, DecodeScalar) == Ok(c.Lookup(key).value.token) &&
              DecodeIfPresent(c, key, DecodeScalar) == Ok(Some(c.Lookup(key).value.token))
    ensures c.Lookup(key).Some? && !c.Lookup(key).value.Scalar? ==>
              Decode(c, key, DecodeScalar) == Err(TypeMismatch(c.path + [key]))
    ensures c.Lookup(key).None? ==>
              Decode(c, key, DecodeScalar) == Err(KeyNotFound(c.path + [key])) &&
              DecodeIfPresent(c, key, DecodeScalar) == Ok(None)
  {
  }

  /** `decodeIfPresent(forKey:decodingFunc:)`: nil when the key is absent,
      without the closure being called; otherwise whatever `decode` gives. */
  function DecodeIfPresent<T>(c: KeyedReader, key: Key, f: Decoder -> Result<T>): (r: Result<Option<T>>)
    ensures !c.Contains(key) ==> r == Ok(None)
    ensures c.Contains(key) ==> r == Present(Decode(c, key, f))
  {
    if !c.Contains(key) then Ok(None)
    else Present(Decode(c, key, f))
  }

  /** An absent key gives nil whatever the closure is: the closure is never
      consulted. A present key gives exactly the value or the error of
      `decode`. */
  lemma DecodeIfPresentAgrees<T>(c: KeyedReader, key: Key, f: Decoder -> Result<T>, g: Decoder -> Result<T>)
    ensures !c.Contains(key) ==> DecodeIfPresent(c, key, f) == DecodeIfPresent(c, key, g) == Ok(None)
    ensures c.Contains(key) && Decode(c, key, f).Ok? ==> DecodeIfPresent(c, key, f) == Ok(Some(Decode(c, key, f).value))
    ensures c.Contains(key) && Decode(c, key, f).Err? ==> DecodeIfPresent(c, key, f) == Err(Decode(c, key, f).error)
  {
  }

  /** Reference for the array form: the closure over every element of the
      array at `key`, in order, or the error of opening it. */
  function ArrayAt<T>(c: KeyedReader, key: Key, f: Decoder -> Result<T>): Result<seq<T>> {
    match c.NestedUnkeyed(key)
    case Err(e) => Err(e)
    case Ok((p, xs)) => DecodeAll(f, p, xs, 0)
  }

  /** `decode(forKey:decodingFunc:)` for an array: the array at the key is
      opened as a nested unkeyed container and drained, one closure call per
      element, in order; an empty array gives an empty list and the first
      element error aborts. */
  method DecodeArray<T>(c: KeyedReader, key: Key, f: Decoder -> Result<T>) returns (r: Result<seq<T>>)
    ensures r == ArrayAt(c, key, f)
    ensures c.NestedUnkeyed(key).Err? ==> r == Err(c.NestedUnkeyed(key).error)
    ensures c.NestedUnkeyed(key).Ok? ==>
              var (p, xs) := c.NestedUnkeyed(key).value;
              (r.Ok? <==> forall i :: 0 <= i < |xs| ==> f(ElementAt(p, xs, i)).Ok?) &&
              (r.Ok? ==> |r.value| == |xs| && forall i :: 0 <= i < |xs| ==> r.value[i] == f(ElementAt(p, xs, i)).value)
    ensures c.NestedUnkeyed(key) == Ok((c.path + [key], [])) ==> r == Ok([])
  {
    var n := c.NestedUnkeyed(key);
    if n.Err? {
      return Err(n.error);
    }
    var (p, xs) := n.value;
    var container := new UnkeyedReader(p, xs);
    r := DrainElements(container, f);
    DecodeAllCorrect(f, p, xs, 0);
  }

  /** `decodeIfPresent(forKey:decodingFunc:)` for an array. */
  method DecodeArrayIfPresent<T>(c: KeyedReader, key: Key, f: Decoder -> Result<T>) returns (r: Result<Option<seq<T>>>)
    ensures !c.Contains(key) ==> r == Ok(None)
    ensures c.Contains(key) ==> r == Present(ArrayAt(c, key, f))
  {
    if !c.Contains(key) {
      return Ok(None);
    }
    var xs := DecodeArray(c, key, f);
    r := Present(xs);
  }
}
