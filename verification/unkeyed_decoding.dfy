/**
 * The unkeyed decoding helpers: decode one element through a decoding
 * closure, or drain a nested unkeyed container into a list. Each closure call
 * is handed the decoder of one element, which the container then moves past.
 */
module UnkeyedDecoding {
  import opened Coding
  import opened Readers
  import opened Decoders

  /** The decoder of element `i` of an unkeyed container at `path`. */
  function ElementAt(path: Path, items: seq<Doc>, i: nat): Decoder
    requires i < |items|
  {
    ElementDecoder((path + [IndexKey(i)], items[i]))
  }

  /** Reference: the closure applied to the elements from position `from`
      on, in order, the first error ending it. */
  function DecodeAll<T>(f: Decoder -> Result<T>, path: Path, items: seq<Doc>, from: nat): Result<seq<T>>
    decreases |items| - from
  {
    if from >= |items| then Ok([])
    else
      match f(ElementAt(path, items, from))
      case Err(e) => Err(e)
      case Ok(v) => Prepend([v], DecodeAll(f, path, items, from + 1))
  }

  /** A result lifted into an optional one: the value is wrapped, an error
      is kept. */
  function Present<T>(r: Result<T>): Result<Option<T>> {
    match r
    case Ok(v) => Ok(Some(v))
    case Err(e) => Err(e)
  }

  /** `xs` followed by a successful result; an error is kept. */
  function Prepend<T>(xs: seq<T>, r: Result<seq<T>>): Result<seq<T>> {
    match r
    case Err(e) => Err(e)
    case Ok(ys) => Ok(xs + ys)
  }

  lemma PrependNothing<T>(r: Result<seq<T>>)
    ensures Prepend([], r) == r
  {
    if r.Ok? {
      assert [] + r.value == r.value;
    }
  }

  lemma PrependTwice<T>(xs: seq<T>, ys: seq<T>, r: Result<seq<T>>)
    ensures Prepend(xs, Prepend(ys, r)) == Prepend(xs + ys, r)
  {
    if r.Ok? {
      assert xs + (ys + r.value) == (xs + ys) + r.value;
    }
  }

  /** Draining succeeds exactly when the closure succeeds on every element. */
  lemma {:induction false} DecodeAllOk<T>(f: Decoder -> Result<T>, path: Path, items: seq<Doc>, from: nat)
    requires from <= |items|
    decreases |items| - from
    ensures DecodeAll(f, path, items, from).Ok? <==>
              forall i :: from <= i < |items| ==> f(ElementAt(path, items, i)).Ok?
  {
    if from < |items| {
      DecodeAllOk(f, path, items, from + 1);
    }
  }

  /** A successful drain returns one result per element, in order. */
  lemma {:induction false} DecodeAllValues<T>(f: Decoder -> Result<T>, path: Path, items: seq<Doc>, from: nat)
    requires from <= |items|
    decreases |items| - from
    ensures var r := DecodeAll(f, path, items, from);
            r.Ok? ==> |r.value| == |items| - from &&
                      forall i :: from <= i < |items| ==> f(ElementAt(path, items, i)) == Ok(r.value[i - from])
  {
    if from < |items| {
      DecodeAllValues(f, path, items, from + 1);
    }
  }

  /** A failed drain fails with the error of the first element the closure
      rejects. */
  lemma {:induction false} DecodeAllFirstError<T>(f: Decoder -> Result<T>, path: Path, items: seq<Doc>, from: nat)
    requires from <= |items|
    decreases |items| - from
    ensures var r := DecodeAll(f, path, items, from);
            r.Err? ==> exists j :: from <= j < |items| && f(ElementAt(path, items, j)) == Err(r.error) &&
                                   forall i :: from <= i < j ==> f(ElementAt(path, items, i)).Ok?
  {
    if from < |items| && f(ElementAt(path, items, from)).Ok? {
      var rest := DecodeAll(f, path, items, from + 1);
      if rest.Err? {
        DecodeAllFirstError(f, path, items, from + 1);
        var j :| from + 1 <= j < |items| && f(ElementAt(path, items, j)) == Err(rest.error) &&
                 forall i :: from + 1 <= i < j ==> f(ElementAt(path, items, i)).Ok?;
        assert forall i :: from <= i < j ==> f(ElementAt(path, items, i)).Ok?;
      }
    }
  }

  /** Draining succeeds exactly when the closure succeeds on every element;
      it then returns one result per element, in order. Otherwise it fails
      with the error of the first element the closure rejects. */
  lemma DecodeAllCorrect<T>(f: Decoder -> Result<T>, path: Path, items: seq<Doc>, from: nat)
    requires from <= |items|
    ensures DecodeAll(f, path, items, from).Ok? <==>
              forall i :: from <= i < |items| ==> f(ElementAt(path, items, i)).Ok?
    ensures DecodeAll(f, path, items, from).Ok? ==>
              |DecodeAll(f, path, items, from).value| == |items| - from &&
              forall i :: from <= i < |items| ==>
                DecodeAll(f, path, items, from).value[i - from] == f(ElementAt(path, items, i)).value
    ensures DecodeAll(f, path, items, from).Err? ==>
              exists j :: from <= j < |items| && f(ElementAt(path, items, j)) == Err(DecodeAll(f, path, items, from).error) &&
                          forall i :: from <= i < j ==> f(ElementAt(path, items, i)).Ok?
  {
    DecodeAllOk(f, path, items, from);
    DecodeAllValues(f, path, items, from);
    DecodeAllFirstError(f, path, items, from);
  }

  /** The `while !container.isAtEnd` loop: each remaining element is handed
      to the closure and the results collected in order; the first error
      stops it. */
  method DrainElements<T>(c: UnkeyedReader, f: Decoder -> Result<T>) returns (r: Result<seq<T>>)
    requires c.Valid()
    modifies c
    ensures c.Valid()
    ensures r == DecodeAll(f, c.path, c.items, old(c.currentIndex))
    ensures r.Ok? ==> c.IsAtEnd()
  {
    ghost var start := c.currentIndex;
    var rtn: seq<T> := [];
    PrependNothing(DecodeAll(f, c.path, c.items, start));
    while !c.IsAtEnd()
      invariant c.Valid() && start <= c.currentIndex
      invariant DecodeAll(f, c.path, c.items, start) == Prepend(rtn, DecodeAll(f, c.path, c.items, c.currentIndex))
      decreases |c.items| - c.currentIndex
    {
      ghost var i := c.currentIndex;
      var element := c.SuperDecoder();
      var v := f(ElementDecoder(element.value));
      assert v == f(ElementAt(c.path, c.items, i));
      if v.Err? {
        return Err(v.error);
      }
      PrependTwice(rtn, [v.value], DecodeAll(f, c.path, c.items, c.currentIndex));
      rtn := rtn + [v.value];
    }
    assert rtn + [] == rtn;
    return Ok(rtn);
  }

  /** `decode(decodingFunc:)`: the next element's decoder is handed to the
      closure, and the element is consumed. */
  method Decode<T>(c: UnkeyedReader, f: Decoder -> Result<T>) returns (r: Result<T>)
    requires c.Valid()
    modifies c
    ensures c.Valid()
    ensures old(c.IsAtEnd()) ==>
              r == Err(ValueNotFound(c.path + [IndexKey(old(c.currentIndex))])) && c.currentIndex == old(c.currentIndex)
    ensures !old(c.IsAtEnd()) ==>
              c.currentIndex == old(c.currentIndex) + 1 && r == f(ElementAt(c.path, c.items, old(c.currentIndex)))
  {
    var element := c.SuperDecoder();
    if element.Err? {
      return Err(element.error);
    }
    r := f(ElementDecoder(element.value));
  }

  /** `decodeIfPresent(decodingFunc:)`: nil, with nothing consumed, once
      the container is at its end. */
  method DecodeIfPresent<T>(c: UnkeyedReader, f: Decoder -> Result<T>) returns (r: Result<Option<T>>)
    requires c.Valid()
    modifies c
    ensures c.Valid()
    ensures old(c.IsAtEnd()) ==> r == Ok(None) && c.currentIndex == old(c.currentIndex)
    ensures !old(c.IsAtEnd()) ==>
              c.currentIndex == old(c.currentIndex) + 1 &&
              var v := f(ElementAt(c.path, c.items, old(c.currentIndex)));
              (v.Ok? ==> r == Ok(Some(v.value))) && (v.Err? ==> r == Err(v.error))
  {
    if c.IsAtEnd() {
      return Ok(None);
    }
    var v := Decode(c, f);
    if v.Err? {
      return Err(v.error);
    }
    return Ok(Some(v.value));
  }

  /** `decode(decodingFunc:)` for an array: the next element is opened as a
      nested unkeyed container, which is drained. */
  method DecodeArray<T>(c: UnkeyedReader, f: Decoder -> Result<T>) returns (r: Result<seq<T>>)
    requires c.Valid()
    modifies c
    ensures c.Valid()
    ensures old(c.IsAtEnd()) ==>
              r == Err(ValueNotFound(c.path + [IndexKey(old(c.currentIndex))])) && c.currentIndex == old(c.currentIndex)
    ensures !old(c.IsAtEnd()) ==>
              var at := c.path + [IndexKey(old(c.currentIndex))];
              match c.items[old(c.currentIndex)]
              case Unkeyed(xs) => c.currentIndex == old(c.currentIndex) + 1 && r == DecodeAll(f, at, xs, 0)
              case Null => r == Err(ValueNotFound(at)) && c.currentIndex == old(c.currentIndex)
              case _ => r == Err(TypeMismatch(at)) && c.currentIndex == old(c.currentIndex)
  {
    var nested := c.NestedUnkeyedContainer();
    if nested.Err? {
      return Err(nested.error);
    }
    r := DrainElements(nested.value, f);
  }

  /** `decodeIfPresent(decodingFunc:)` for an array. */
  method DecodeArrayIfPresent<T>(c: UnkeyedReader, f: Decoder -> Result<T>) returns (r: Result<Option<seq<T>>>)
    requires c.Valid()
    modifies c
    ensures c.Valid()
    ensures old(c.IsAtEnd()) ==> r == Ok(None) && c.currentIndex == old(c.currentIndex)
    ensures !old(c.IsAtEnd()) ==>
              var at := c.path + [IndexKey(old(c.currentIndex))];
              match c.items[old(c.currentIndex)]
              case Unkeyed(xs) => c.currentIndex == old(c.currentIndex) + 1 && r == Present(DecodeAll(f, at, xs, 0))
              case Null => r == Err(ValueNotFound(at)) && c.currentIndex == old(c.currentIndex)
              case _ => r == Err(TypeMismatch(at)) && c.currentIndex == old(c.currentIndex)
  {
    if c.IsAtEnd() {
      return Ok(None);
    }
    var v := DecodeArray(c, f);
    r := Present(v);
  }
}
