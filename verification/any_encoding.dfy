/**
 * What the "any" encoders write. `_encodeAnyDictionary` (keyed containers)
 * and `_encodeAnyArray` (unkeyed containers) walk a value tree and dispatch
 * each value, first match wins, to one container write. The functions here
 * give, for a container at a given path, the writes a run makes in order and
 * the error that stops it; the container classes are proved to make exactly
 * these writes. Beside them stand reference definitions that ignore paths and
 * errors, and the lemmas that tie the two together.
 */
module AnyEncoding {
  import opened Coding

  /** What one encoding run leaves behind: its writes in order, and the error
      that stopped it, if any. Writes made before the error stay written. */
  datatype Written<T> = Written(out: seq<T>, failure: Option<Error>)

  /** Dictionary kinds the keyed dispatch recognises: every Swift
      `Dictionary`, and `SCDictionary`/`SCArrayOrderedDictionary` only with
      String or Int keys. */
  predicate KeyedRecognises(f: DictFlavour, k: KeyKind) {
    f == SwiftDictionary || k != BoolKeys
  }

  // ---------------------------------------------------------------------
  // The dispatch, as writes into a container at `path`
  // ---------------------------------------------------------------------

  /** One dictionary entry `(k, v)` written into a keyed container at `path`. */
  function KeyedEntry(path: Path, k: Key, v: Val): Written<(Key, Doc)>
    decreases v, 1
  {
    match v
    case Dict(f, kind, es) =>
      if KeyedRecognises(f, kind) then
        var w := KeyedWrites(path + [k], es);
        Written([(k, Keyed(w.out))], w.failure)
      else
        Written([], Some(InvalidValue(path + [k])))
    case Arr(_, xs) =>
      var w := UnkeyedWrites(path + [k], 0, xs, 0);
      Written([(k, Unkeyed(w.out))], w.failure)
    case Nil => Written([(k, Null)], None)
    case Enc(d) => Written([(k, d)], None)
    case NotEncodable => Written([], Some(InvalidValue(path + [k])))
  }

  /** `_encodeAnyDictionary`: the entries in iteration order, each under its
      `dynamicCodingKey`, stopping at the first error. */
  function KeyedWrites(path: Path, es: seq<(DictKey, Val)>): Written<(Key, Doc)>
    decreases es, 0
  {
    if es == [] then Written([], None)
    else
      var (k, v) := es[0];
      assert es[0] in es && v < es[0];
      var first := KeyedEntry(path, DynamicCodingKey(k), v);
      if first.failure.Some? then first
      else
        var rest := KeyedWrites(path, es[1..]);
        Written(first.out + rest.out, rest.failure)
  }

  /** One element `v`, found at position `index` of the array being iterated,
      written into an unkeyed container at `path` that already holds `count`
      values. A nested array is written into the SAME container. */
  function UnkeyedElement(path: Path, count: nat, v: Val, index: nat): Written<Doc>
    decreases v, 1, 0
  {
    match v
    case Dict(_, _, es) =>
      var w := KeyedWrites(path + [IndexKey(count)], es);
      Written([Keyed(w.out)], w.failure)
    case Arr(_, xs) => UnkeyedWrites(path, count, xs, 0)
    case Nil => Written([Null], None)
    case Enc(d) => Written([d], None)
    case NotEncodable => Written([], Some(InvalidValue(path + [IndexKey(index)])))
  }

  /** `_encodeAnyArray` over the elements of `xs` from position `from` on,
      into an unkeyed container at `path` that already holds `count` values.
      Each element's index is its position in `xs`. */
  function UnkeyedWrites(path: Path, count: nat, xs: seq<Val>, from: nat): Written<Doc>
    decreases xs, 0, |xs| - from
  {
    if from >= |xs| then Written([], None)
    else
      assert xs[from] in xs;
      var first := UnkeyedElement(path, count, xs[from], from);
      if first.failure.Some? then first
      else
        var rest := UnkeyedWrites(path, count + |first.out|, xs, from + 1);
        Written(first.out + rest.out, rest.failure)
  }

  /** A run `w` in a container that already received `done` in this run. */
  function After<T>(done: seq<T>, w: Written<T>): Written<T> {
    Written(done + w.out, w.failure)
  }

  // ---------------------------------------------------------------------
  // Which trees encode, and what a successful run writes
  // ---------------------------------------------------------------------

  /** A value the keyed dispatch writes without error, at any depth. */
  predicate KeyedAccepts(v: Val)
    decreases v, 1
  {
    match v
    case Dict(f, k, es) => KeyedRecognises(f, k) && EntriesAccepted(es)
    case Arr(_, xs) => ItemsAccepted(xs)
    case NotEncodable => false
    case _ => true
  }

  /** A value the unkeyed dispatch writes without error, at any depth. */
  predicate UnkeyedAccepts(v: Val)
    decreases v, 1
  {
    match v
    case Dict(_, _, es) => EntriesAccepted(es)
    case Arr(_, xs) => ItemsAccepted(xs)
    case NotEncodable => false
    case _ => true
  }

  predicate EntriesAccepted(es: seq<(DictKey, Val)>)
    decreases es, 0
  {
    if es == [] then true
    else
      var (_, v) := es[0];
      assert es[0] in es && v < es[0];
      KeyedAccepts(v) && EntriesAccepted(es[1..])
  }

  predicate ItemsAccepted(xs: seq<Val>)
    decreases xs, 0
  {
    if xs == [] then true
    else
      assert xs[0] in xs;
      UnkeyedAccepts(xs[0]) && ItemsAccepted(xs[1..])
  }

  /** Reference: the document a keyed container holds for a value. */
  function KeyedDoc(v: Val): Doc
    decreases v, 1
  {
    match v
    case Dict(_, _, es) => Keyed(DictDoc(es))
    case Arr(_, xs) => Unkeyed(ArrayDocs(xs))
    case Nil => Null
    case Enc(d) => d
    case NotEncodable => Null
  }

  /** Reference: the entries a dictionary becomes, one per dictionary entry,
      in iteration order, under the entry's `dynamicCodingKey`. */
  function DictDoc(es: seq<(DictKey, Val)>): (r: seq<(Key, Doc)>)
    decreases es, 0
    ensures |r| == |es|
    ensures forall i :: 0 <= i < |es| ==> r[i].0 == DynamicCodingKey(es[i].0)
  {
    if es == [] then []
    else
      var (k, v) := es[0];
      assert es[0] in es && v < es[0];
      [(DynamicCodingKey(k), KeyedDoc(v))] + DictDoc(es[1..])
  }

  /** Reference: the values an element adds to an unkeyed container. A nested
      array adds its own elements, not a container. */
  function ElementDocs(v: Val): seq<Doc>
    decreases v, 1
  {
    match v
    case Dict(_, _, es) => [Keyed(DictDoc(es))]
    case Arr(_, xs) => ArrayDocs(xs)
    case Nil => [Null]
    case Enc(d) => [d]
    case NotEncodable => []
  }

  function ArrayDocs(xs: seq<Val>): seq<Doc>
    decreases xs, 0
  {
    if xs == [] then []
    else
      assert xs[0] in xs;
      ElementDocs(xs[0]) + ArrayDocs(xs[1..])
  }

  // ---------------------------------------------------------------------
  // Lemmas
  // ---------------------------------------------------------------------

  /** Encoding `a + b` is encoding `a`, then, if that succeeded, `b`. */
  lemma {:induction false} KeyedWritesAppend(path: Path, a: seq<(DictKey, Val)>, b: seq<(DictKey, Val)>)
    ensures var wa := KeyedWrites(path, a);
            KeyedWrites(path, a + b) ==
              if wa.failure.Some? then wa
              else Written(wa.out + KeyedWrites(path, b).out, KeyedWrites(path, b).failure)
  {
    if a == [] {
      assert a + b == b;
    } else {
      var (k, v) := a[0];
      assert (a + b)[0] == a[0];
      assert (a + b)[1..] == a[1..] + b;
      var first := KeyedEntry(path, DynamicCodingKey(k), v);
      if first.failure.None? {
        KeyedWritesAppend(path, a[1..], b);
        var r1 := KeyedWrites(path, a[1..]);
        if r1.failure.None? {
          var rb := KeyedWrites(path, b);
          assert first.out + (r1.out + rb.out) == (first.out + r1.out) + rb.out;
        }
      }
    }
  }

  /** Sequence concatenation is associative; used to regroup the documents
      written before, at and after an element. */
  lemma AppendAssoc<T>(a: seq<T>, b: seq<T>, c: seq<T>)
    ensures a + b + c == a + (b + c)
  {
  }

  /** A keyed entry is written without error exactly when its value is
      accepted, and then exactly one entry is written: the value's document
      under the entry's key. */
  lemma {:induction false} KeyedEntryCorrect(path: Path, k: Key, v: Val)
    decreases v, 1
    ensures KeyedEntry(path, k, v).failure.None? <==> KeyedAccepts(v)
    ensures KeyedAccepts(v) ==> KeyedEntry(path, k, v).out == [(k, KeyedDoc(v))]
  {
    match v
    case Dict(f, kind, es) =>
      if KeyedRecognises(f, kind) {
        KeyedWritesCorrect(path + [k], es);
      }
    case Arr(_, xs) =>
      UnkeyedWritesCorrect(path + [k], 0, xs);
    case _ =>
  }

  /** `_encodeAnyDictionary` succeeds exactly when every value in the tree is
      accepted, and then writes exactly the reference entries: one per
      dictionary entry, in iteration order. */
  lemma {:induction false} KeyedWritesCorrect(path: Path, es: seq<(DictKey, Val)>)
    decreases es, 0
    ensures KeyedWrites(path, es).failure.None? <==> EntriesAccepted(es)
    ensures EntriesAccepted(es) ==> KeyedWrites(path, es).out == DictDoc(es)
  {
    if es != [] {
      var (k, v) := es[0];
      assert es[0] in es && v < es[0];
      KeyedEntryCorrect(path, DynamicCodingKey(k), v);
      KeyedWritesCorrect(path, es[1..]);
    }
  }

  /** An unkeyed element is written without error exactly when it is
      accepted, and then adds exactly its reference values. */
  lemma {:induction false} UnkeyedElementCorrect(path: Path, count: nat, v: Val, index: nat)
    decreases v, 1, 0
    ensures UnkeyedElement(path, count, v, index).failure.None? <==> UnkeyedAccepts(v)
    ensures UnkeyedAccepts(v) ==> UnkeyedElement(path, count, v, index).out == ElementDocs(v)
  {
    match v
    case Dict(_, _, es) =>
      KeyedWritesCorrect(path + [IndexKey(count)], es);
    case Arr(_, xs) =>
      UnkeyedWritesCorrect(path, count, xs);
    case _ =>
  }

  /** The run over `xs[from..]` succeeds exactly when those elements are
      accepted at every depth, and then writes their reference values. */
  lemma {:induction false} UnkeyedWritesFromCorrect(path: Path, count: nat, xs: seq<Val>, from: nat)
    requires from <= |xs|
    decreases xs, 0, |xs| - from
    ensures UnkeyedWrites(path, count, xs, from).failure.None? <==> ItemsAccepted(xs[from..])
    ensures ItemsAccepted(xs[from..]) ==> UnkeyedWrites(path, count, xs, from).out == ArrayDocs(xs[from..])
  {
    if from < |xs| {
      assert xs[from] in xs;
      var first := UnkeyedElement(path, count, xs[from], from);
      UnkeyedElementCorrect(path, count, xs[from], from);
      UnkeyedWritesFromCorrect(path, count + |first.out|, xs, from + 1);
      assert xs[from..][0] == xs[from];
      assert xs[from..][1..] == xs[from + 1..];
    } else {
      assert xs[from..] == [];
    }
  }

  /** `_encodeAnyArray` succeeds exactly when every value in the tree is
      accepted, and then writes exactly the reference values in order, nested
      arrays spliced in place. */
  lemma {:induction false} UnkeyedWritesCorrect(path: Path, count: nat, xs: seq<Val>)
    decreases xs, 1
    ensures UnkeyedWrites(path, count, xs, 0).failure.None? <==> ItemsAccepted(xs)
    ensures ItemsAccepted(xs) ==> UnkeyedWrites(path, count, xs, 0).out == ArrayDocs(xs)
  {
    UnkeyedWritesFromCorrect(path, count, xs, 0);
    assert xs[0..] == xs;
  }

  /** An accepted stretch `xs[from..k]` writes its reference values without
      error, and the run goes on at position `k` with the count grown by
      them. */
  lemma {:induction false} UnkeyedWritesAcceptedPrefix(path: Path, count: nat, xs: seq<Val>, from: nat, k: nat)
    requires from <= k <= |xs| && ItemsAccepted(xs[from..k])
    decreases k - from
    ensures var done := ArrayDocs(xs[from..k]);
            UnkeyedWrites(path, count, xs, from) == After(done, UnkeyedWrites(path, count + |done|, xs, k))
  {
    var done := ArrayDocs(xs[from..k]);
    if from == k {
      assert xs[from..k] == [];
      assert [] + UnkeyedWrites(path, count, xs, k).out == UnkeyedWrites(path, count, xs, k).out;
    } else {
      assert xs[from..k][0] == xs[from];
      assert xs[from..k][1..] == xs[from + 1..k];
      var first := UnkeyedElement(path, count, xs[from], from);
      UnkeyedElementCorrect(path, count, xs[from], from);
      var c1 := count + |first.out|;
      var rest := ArrayDocs(xs[from + 1..k]);
      UnkeyedWritesAcceptedPrefix(path, c1, xs, from + 1, k);
      assert done == first.out + rest;
      assert c1 + |rest| == count + |done|;
      var tail := UnkeyedWrites(path, count + |done|, xs, k);
      AppendAssoc(first.out, rest, tail.out);
    }
  }

  /** A value the keyed dispatch rejects on the spot: a non-encodable value,
      or a Bool-keyed `SCDictionary`/`SCArrayOrderedDictionary`. */
  predicate KeyedRejects(v: Val) {
    v.NotEncodable? || (v.Dict? && !KeyedRecognises(v.flavour, v.kind))
  }

  /** The first rejected entry stops `_encodeAnyDictionary` with
      `invalidValue` at the container path plus that entry's key; the entries
      before it are already written, and nothing after it is. */
  lemma {:induction false} KeyedStopsAtRejectedEntry(path: Path, es: seq<(DictKey, Val)>, j: nat)
    requires j < |es| && EntriesAccepted(es[..j]) && KeyedRejects(es[j].1)
    ensures KeyedWrites(path, es) ==
            Written(DictDoc(es[..j]), Some(InvalidValue(path + [DynamicCodingKey(es[j].0)])))
  {
    assert es == es[..j] + es[j..];
    KeyedWritesAppend(path, es[..j], es[j..]);
    KeyedWritesCorrect(path, es[..j]);
    assert es[j..][0] == es[j];
    assert DictDoc(es[..j]) + [] == DictDoc(es[..j]);
  }

  /** The first non-encodable element stops `_encodeAnyArray` with
      `invalidValue` at the container path plus that element's index; the
      elements before it are already written. */
  lemma UnkeyedStopsAtRejectedElement(path: Path, count: nat, xs: seq<Val>, j: nat)
    requires j < |xs| && ItemsAccepted(xs[..j]) && xs[j].NotEncodable?
    ensures UnkeyedWrites(path, count, xs, 0) ==
            Written(ArrayDocs(xs[..j]), Some(InvalidValue(path + [IndexKey(j)])))
  {
    assert xs[0..j] == xs[..j];
    UnkeyedWritesAcceptedPrefix(path, count, xs, 0, j);
    assert ArrayDocs(xs[..j]) + [] == ArrayDocs(xs[..j]);
  }

  /** A nested array is spliced: its elements are written into the same
      container, after the ones before it and with no container of its
      own. */
  lemma NestedArrayIsSpliced(path: Path, count: nat, pre: seq<Val>, f: ArrayFlavour, ys: seq<Val>)
    requires ItemsAccepted(pre) && ItemsAccepted(ys)
    ensures ItemsAccepted(pre + [Arr(f, ys)])
    ensures UnkeyedWrites(path, count, pre + [Arr(f, ys)], 0).out == ArrayDocs(pre) + ArrayDocs(ys)
  {
    var xs := pre + [Arr(f, ys)];
    assert [Arr(f, ys)][1..] == [];
    assert ArrayDocs([Arr(f, ys)]) == ArrayDocs(ys) + ArrayDocs([]);
    ItemsAcceptedAppend(pre, [Arr(f, ys)]);
    ArrayDocsAppend(pre, [Arr(f, ys)]);
    UnkeyedWritesCorrect(path, count, xs);
  }

  /** An error inside a nested array carries the index within the nested
      array, not the index of the nested array in the outer one; what the
      elements before it wrote stays written. */
  lemma NestedArrayErrorIndex(path: Path, count: nat, pre: seq<Val>, f: ArrayFlavour, ys: seq<Val>, j: nat)
    requires ItemsAccepted(pre)
    requires j < |ys| && ItemsAccepted(ys[..j]) && ys[j].NotEncodable?
    ensures UnkeyedWrites(path, count, pre + [Arr(f, ys)], 0) ==
            Written(ArrayDocs(pre) + ArrayDocs(ys[..j]), Some(InvalidValue(path + [IndexKey(j)])))
  {
    var xs := pre + [Arr(f, ys)];
    var k := |pre|;
    assert xs[0..k] == pre;
    UnkeyedWritesAcceptedPrefix(path, count, xs, 0, k);
    var c := count + |ArrayDocs(pre)|;
    assert xs[k] == Arr(f, ys);
    UnkeyedStopsAtRejectedElement(path, c, ys, j);
    assert UnkeyedWrites(path, c, xs, k) == UnkeyedWrites(path, c, ys, 0);
  }

  lemma {:induction false} ItemsAcceptedAppend(a: seq<Val>, b: seq<Val>)
    ensures ItemsAccepted(a + b) <==> ItemsAccepted(a) && ItemsAccepted(b)
  {
    if a == [] {
      assert a + b == b;
    } else {
      assert (a + b)[0] == a[0];
      assert (a + b)[1..] == a[1..] + b;
      ItemsAcceptedAppend(a[1..], b);
    }
  }

  lemma {:induction false} ArrayDocsAppend(a: seq<Val>, b: seq<Val>)
    ensures ArrayDocs(a + b) == ArrayDocs(a) + ArrayDocs(b)
  {
    if a == [] {
      assert a + b == b;
    } else {
      assert (a + b)[0] == a[0];
      assert (a + b)[1..] == a[1..] + b;
      ArrayDocsAppend(a[1..], b);
    }
  }

  /** The two dispatches differ on Bool-keyed class dictionaries: an unkeyed
      container writes one nested keyed container for it, a keyed container
      rejects it. */
  lemma BoolKeyedClassDictionary(path: Path, k: Key, count: nat, index: nat, f: DictFlavour, es: seq<(DictKey, Val)>)
    requires f != SwiftDictionary && EntriesAccepted(es)
    ensures KeyedEntry(path, k, Dict(f, BoolKeys, es)) == Written([], Some(InvalidValue(path + [k])))
    ensures UnkeyedElement(path, count, Dict(f, BoolKeys, es), index) == Written([Keyed(DictDoc(es))], None)
  {
    KeyedWritesCorrect(path + [IndexKey(count)], es);
  }
}
