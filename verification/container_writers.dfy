/**
 * The three encoding containers and their "any" helpers. A container is a
 * class whose contents the helpers extend in place. A nested container is a
 * fresh writer that is filled first and then added to its parent, so the
 * parent holds whatever the nested one held when the run ended, error or not.
 */
module ContainerWriters {
  import opened Coding
  import opened AnyEncoding

  lemma KeyedWritesOne(path: Path, e: (DictKey, Val))
    ensures KeyedWrites(path, [e]) == KeyedEntry(path, DynamicCodingKey(e.0), e.1)
  {
    var first := KeyedEntry(path, DynamicCodingKey(e.0), e.1);
    assert [e][1..] == [];
    assert first.out + [] == first.out;
  }

  /** One more entry of `_encodeAnyDictionary` after an error-free prefix:
      the prefix's writes followed by the entry's, and, when the entry fails,
      the outcome of the whole run. */
  lemma KeyedWritesStep(path: Path, es: seq<(DictKey, Val)>, i: nat)
    requires i < |es| && KeyedWrites(path, es[..i]).failure.None?
    ensures var done := KeyedWrites(path, es[..i]);
            var step := KeyedEntry(path, DynamicCodingKey(es[i].0), es[i].1);
            KeyedWrites(path, es[..i + 1]) == Written(done.out + step.out, step.failure) &&
            (step.failure.Some? ==> KeyedWrites(path, es) == Written(done.out + step.out, step.failure))
  {
    assert es[..i + 1] == es[..i] + [es[i]];
    KeyedWritesAppend(path, es[..i], [es[i]]);
    KeyedWritesOne(path, es[i]);
    var step := KeyedEntry(path, DynamicCodingKey(es[i].0), es[i].1);
    if step.failure.Some? {
      assert es == es[..i + 1] + es[i + 1..];
      KeyedWritesAppend(path, es[..i + 1], es[i + 1..]);
    }
  }

  /** One more element of `_encodeAnyArray`, at position `i`, in a run whose
      outcome is `whole` and which so far wrote `done` into a container now
      holding `n` values: either the element's error is the outcome, or the
      run goes on at `i + 1` after the element's writes. */
  lemma UnkeyedWritesStep(path: Path, n: nat, xs: seq<Val>, i: nat, done: seq<Doc>, whole: Written<Doc>)
    requires i < |xs|
    requires whole == After(done, UnkeyedWrites(path, n, xs, i))
    ensures var step := UnkeyedElement(path, n, xs[i], i);
            step.failure.Some? ==> whole == Written(done + step.out, step.failure)
    ensures var step := UnkeyedElement(path, n, xs[i], i);
            step.failure.None? ==> whole == After(done + step.out, UnkeyedWrites(path, n + |step.out|, xs, i + 1))
  {
    var step := UnkeyedElement(path, n, xs[i], i);
    if step.failure.None? {
      var rest := UnkeyedWrites(path, n + |step.out|, xs, i + 1);
      assert UnkeyedWrites(path, n, xs, i) == Written(step.out + rest.out, rest.failure);
      AppendAssoc(done, step.out, rest.out);
    }
  }

  /** A keyed encoding container at `path`, keyed by dynamic coding keys. */
  class KeyedWriter {
    const path: Path
    var entries: seq<(Key, Doc)>

    constructor (path: Path)
      ensures this.path == path && entries == []
    {
      this.path := path;
      entries := [];
    }

    /** One `(key, value)` of `_encodeAnyDictionary`, dispatched on the value. */
    method EncodeEntry(k: Key, v: Val) returns (err: Option<Error>)
      modifies this
      decreases v, 1
      ensures entries == old(entries) + KeyedEntry(path, k, v).out
      ensures err == KeyedEntry(path, k, v).failure
    {
      match v
      case Dict(f, kind, es) =>
        if KeyedRecognises(f, kind) {
          var nested := new KeyedWriter(path + [k]);
          err := nested.EncodeAnyEntries(es);
          assert nested.entries == KeyedWrites(path + [k], es).out;
          entries := entries + [(k, Keyed(nested.entries))];
        } else {
          err := Some(InvalidValue(path + [k]));
        }
      case Arr(_, xs) =>
        var nested := new UnkeyedWriter(path + [k]);
        err := nested.EncodeAnyElements(xs);
        assert nested.items == UnkeyedWrites(path + [k], 0, xs, 0).out;
        entries := entries + [(k, Unkeyed(nested.items))];
      case Nil =>
        entries := entries + [(k, Null)];
        err := None;
      case Enc(d) =>
        entries := entries + [(k, d)];
        err := None;
      case NotEncodable =>
        err := Some(InvalidValue(path + [k]));
    }

    /** `_encodeAnyDictionary`: every entry in iteration order under its
        dynamic coding key; the first error stops the run. */
    method EncodeAnyEntries(es: seq<(DictKey, Val)>) returns (err: Option<Error>)
      modifies this
      decreases es, 0
      ensures entries == old(entries) + KeyedWrites(path, es).out
      ensures err == KeyedWrites(path, es).failure
    {
      var i := 0;
      while i < |es|
        invariant 0 <= i <= |es|
        invariant entries == old(entries) + KeyedWrites(path, es[..i]).out
        invariant KeyedWrites(path, es[..i]).failure == None
      {
        var (k, v) := es[i];
        assert es[i] in es && v < es[i];
        ghost var done := KeyedWrites(path, es[..i]);
        err := EncodeEntry(DynamicCodingKey(k), v);
        KeyedWritesStep(path, es, i);
        AppendAssoc(old(entries), done.out, KeyedEntry(path, DynamicCodingKey(k), v).out);
        if err.Some? {
          return;
        }
        i := i + 1;
      }
      assert es[..i] == es;
      err := None;
    }

    /** `encodeAnyDictionary(_:forKey:)`: the dictionary goes into a nested
        keyed container under `key`. */
    method EncodeAnyDictionary(es: seq<(DictKey, Val)>, key: Key) returns (err: Option<Error>)
      modifies this
      ensures var w := KeyedWrites(path + [key], es);
              entries == old(entries) + [(key, Keyed(w.out))] && err == w.failure
      ensures err.None? <==> EntriesAccepted(es)
      ensures err.None? ==> entries == old(entries) + [(key, Keyed(DictDoc(es)))]
    {
      var nested := new KeyedWriter(path + [key]);
      err := nested.EncodeAnyEntries(es);
      assert nested.entries == KeyedWrites(path + [key], es).out;
      entries := entries + [(key, Keyed(nested.entries))];
      KeyedWritesCorrect(path + [key], es);
    }

    /** `encodeAnyDictionaryIfPresent(_:forKey:)`: nothing is written for an
        absent dictionary; `wrote` says whether one was. */
    method EncodeAnyDictionaryIfPresent(d: Option<seq<(DictKey, Val)>>, key: Key) returns (wrote: bool, err: Option<Error>)
      modifies this
      ensures d.None? ==> !wrote && err.None? && entries == old(entries)
      ensures d.Some? ==> wrote
      ensures d.Some? ==>
              (var w := KeyedWrites(path + [key], d.value);
              entries == old(entries) + [(key, Keyed(w.out))] && err == w.failure)
    {
      if d.None? {
        return false, None;
      }
      err := EncodeAnyDictionary(d.value, key);
      wrote := true;
    }

    /** `encodeAnyArray(_:forKey:)`: the array goes into a nested unkeyed
        container under `key`. */
    method EncodeAnyArray(xs: seq<Val>, key: Key) returns (err: Option<Error>)
      modifies this
      ensures var w := UnkeyedWrites(path + [key], 0, xs, 0);
              entries == old(entries) + [(key, Unkeyed(w.out))] && err == w.failure
      ensures err.None? <==> ItemsAccepted(xs)
      ensures err.None? ==> entries == old(entries) + [(key, Unkeyed(ArrayDocs(xs)))]
    {
      var nested := new UnkeyedWriter(path + [key]);
      err := nested.EncodeAnyElements(xs);
      assert nested.items == UnkeyedWrites(path + [key], 0, xs, 0).out;
      entries := entries + [(key, Unkeyed(nested.items))];
      UnkeyedWritesCorrect(path + [key], 0, xs);
    }

    /** `encodeAnyArrayIfPresent(_:forKey:)`. */
    method EncodeAnyArrayIfPresent(xs: Option<seq<Val>>, key: Key) returns (wrote: bool, err: Option<Error>)
      modifies this
      ensures xs.None? ==> !wrote && err.None? && entries == old(entries)
      ensures xs.Some? ==> wrote
      ensures xs.Some? ==>
              (var w := UnkeyedWrites(path + [key], 0, xs.value, 0);
              entries == old(entries) + [(key, Unkeyed(w.out))] && err == w.failure)
    {
      if xs.None? {
        return false, None;
      }
      err := EncodeAnyArray(xs.value, key);
      wrote := true;
    }
  }

  /** An unkeyed encoding container at `path`. */
  class UnkeyedWriter {
    const path: Path
    var items: seq<Doc>

    constructor (path: Path)
      ensures this.path == path && items == []
    {
      this.path := path;
      items := [];
    }

    /** The container's `count`. */
    function Count(): nat
      reads this
    {
      |items|
    }

    /** `encode(_:)` of an `Encodable` whose own encoding writes `d`. */
    method Encode(d: Doc)
      modifies this
      ensures items == old(items) + [d]
    {
      items := items + [d];
    }

    /** One element of `_encodeAnyArray`, at position `index` of the array
        being iterated, dispatched on its value. */
    method EncodeElement(v: Val, index: nat) returns (err: Option<Error>)
      modifies this
      decreases v, 1
      ensures items == old(items) + UnkeyedElement(path, |old(items)|, v, index).out
      ensures err == UnkeyedElement(path, |old(items)|, v, index).failure
    {
      match v
      case Dict(_, _, es) =>
        var nested := new KeyedWriter(path + [IndexKey(|items|)]);
        err := nested.EncodeAnyEntries(es);
        assert nested.entries == KeyedWrites(path + [IndexKey(|items|)], es).out;
        items := items + [Keyed(nested.entries)];
      case Arr(_, xs) =>
        err := EncodeAnyElements(xs);
      case Nil =>
        items := items + [Null];
        err := None;
      case Enc(d) =>
        items := items + [d];
        err := None;
      case NotEncodable =>
        err := Some(InvalidValue(path + [IndexKey(index)]));
    }

    /** `_encodeAnyArray`: every element in order, nested arrays into this
        same container; the first error stops the run. */
    method EncodeAnyElements(xs: seq<Val>) returns (err: Option<Error>)
      modifies this
      decreases xs, 0
      ensures items == old(items) + UnkeyedWrites(path, |old(items)|, xs, 0).out
      ensures err == UnkeyedWrites(path, |old(items)|, xs, 0).failure
    {
      ghost var whole := UnkeyedWrites(path, |items|, xs, 0);
      ghost var done: seq<Doc> := [];
      ghost var n := |items|;
      assert whole == After(done, UnkeyedWrites(path, n, xs, 0));
      var i := 0;
      while i < |xs|
        invariant 0 <= i <= |xs|
        invariant items == old(items) + done && n == |items|
        invariant whole == After(done, UnkeyedWrites(path, n, xs, i))
      {
        assert xs[i] in xs;
        ghost var step := UnkeyedElement(path, n, xs[i], i);
        UnkeyedWritesStep(path, n, xs, i, done, whole);
        ghost var before := items;
        err := EncodeElement(xs[i], i);
        assert err == step.failure && items == old(items) + (done + step.out) by {
          assert items == before + step.out;
          AppendAssoc(old(items), done, step.out);
        }
        if err.Some? {
          return;
        }
        done := done + step.out;
        n := n + |step.out|;
        i := i + 1;
      }
      assert done + [] == done;
      err := None;
    }

    /** `encodeAnyDictionary(_:)`: the dictionary goes into a nested keyed
        container, whose path ends with the next index. */
    method EncodeAnyDictionary(es: seq<(DictKey, Val)>) returns (err: Option<Error>)
      modifies this
      ensures var w := KeyedWrites(path + [IndexKey(|old(items)|)], es);
              items == old(items) + [Keyed(w.out)] && err == w.failure
      ensures err.None? <==> EntriesAccepted(es)
      ensures err.None? ==> items == old(items) + [Keyed(DictDoc(es))]
    {
      var nested := new KeyedWriter(path + [IndexKey(|items|)]);
      err := nested.EncodeAnyEntries(es);
      assert nested.entries == KeyedWrites(path + [IndexKey(|items|)], es).out;
      items := items + [Keyed(nested.entries)];
      KeyedWritesCorrect(path + [IndexKey(|old(items)|)], es);
    }

    /** `encodeAnyDictionaryIfPresent(_:)`. */
    method EncodeAnyDictionaryIfPresent(d: Option<seq<(DictKey, Val)>>) returns (wrote: bool, err: Option<Error>)
      modifies this
      ensures d.None? ==> !wrote && err.None? && items == old(items)
      ensures d.Some? ==> wrote
      ensures d.Some? ==>
              (var w := KeyedWrites(path + [IndexKey(|old(items)|)], d.value);
              items == old(items) + [Keyed(w.out)] && err == w.failure)
    {
      if d.None? {
        return false, None;
      }
      err := EncodeAnyDictionary(d.value);
      wrote := true;
    }

    /** `encodeAnyArray(_:)`: unlike a nested array met by `_encodeAnyArray`,
        this one goes into a nested unkeyed container. */
    method EncodeAnyArray(xs: seq<Val>) returns (err: Option<Error>)
      modifies this
      ensures var w := UnkeyedWrites(path + [IndexKey(|old(items)|)], 0, xs, 0);
              items == old(items) + [Unkeyed(w.out)] && err == w.failure
      ensures err.None? <==> ItemsAccepted(xs)
      ensures err.None? ==> items == old(items) + [Unkeyed(ArrayDocs(xs))]
    {
      var nested := new UnkeyedWriter(path + [IndexKey(|items|)]);
      err := nested.EncodeAnyElements(xs);
      assert nested.items == UnkeyedWrites(path + [IndexKey(|items|)], 0, xs, 0).out;
      items := items + [Unkeyed(nested.items)];
      UnkeyedWritesCorrect(path + [IndexKey(|old(items)|)], 0, xs);
    }

    /** `encodeIfPresent(_:)` for an array of `Any`. */
    method EncodeIfPresent(xs: Option<seq<Val>>) returns (wrote: bool, err: Option<Error>)
      modifies this
      ensures xs.None? ==> !wrote && err.None? && items == old(items)
      ensures xs.Some? ==> wrote
      ensures xs.Some? ==>
              (var w := UnkeyedWrites(path + [IndexKey(|old(items)|)], 0, xs.value, 0);
              items == old(items) + [Unkeyed(w.out)] && err == w.failure)
    {
      if xs.None? {
        return false, None;
      }
      err := EncodeAnyArray(xs.value);
      wrote := true;
    }
  }

  /** A single value encoding container at `path`. A dictionary or an array
      is written through a catcher value whose own encoding opens a keyed or
      unkeyed container at the same path. */
  class SingleWriter {
    const path: Path
    var value: Option<Doc>

    constructor (path: Path)
      ensures this.path == path && value == None
    {
      this.path := path;
      value := None;
    }

    /** `encodeAnyDictionary(_:)`. */
    method EncodeAnyDictionary(es: seq<(DictKey, Val)>) returns (err: Option<Error>)
      requires value == None
      modifies this
      ensures var w := KeyedWrites(path, es);
              value == Some(Keyed(w.out)) && err == w.failure
      ensures err.None? <==> EntriesAccepted(es)
      ensures err.None? ==> value == Some(Keyed(DictDoc(es)))
    {
      var nested := new KeyedWriter(path);
      err := nested.EncodeAnyEntries(es);
      assert nested.entries == KeyedWrites(path, es).out;
      value := Some(Keyed(nested.entries));
      KeyedWritesCorrect(path, es);
    }

    /** `encodeAnyDictionaryIfPresent(_:)`. */
    method EncodeAnyDictionaryIfPresent(d: Option<seq<(DictKey, Val)>>) returns (wrote: bool, err: Option<Error>)
      requires value == None
      modifies this
      ensures d.None? ==> !wrote && err.None? && value == None
      ensures d.Some? ==> wrote
      ensures d.Some? ==>
              (var w := KeyedWrites(path, d.value);
              value == Some(Keyed(w.out)) && err == w.failure)
    {
      if d.None? {
        return false, None;
      }
      err := EncodeAnyDictionary(d.value);
      wrote := true;
    }

    /** `encode(_:)` for an array of `Any`. */
    method EncodeArray(xs: seq<Val>) returns (err: Option<Error>)
      requires value == None
      modifies this
      ensures var w := UnkeyedWrites(path, 0, xs, 0);
              value == Some(Unkeyed(w.out)) && err == w.failure
      ensures err.None? <==> ItemsAccepted(xs)
      ensures err.None? ==> value == Some(Unkeyed(ArrayDocs(xs)))
    {
      var nested := new UnkeyedWriter(path);
      err := nested.EncodeAnyElements(xs);
      assert nested.items == UnkeyedWrites(path, 0, xs, 0).out;
      value := Some(Unkeyed(nested.items));
      UnkeyedWritesCorrect(path, 0, xs);
    }

    /** `encodeIfPresent(_:)` for an array of `Any`. */
    method EncodeArrayIfPresent(xs: Option<seq<Val>>) returns (wrote: bool, err: Option<Error>)
      requires value == None
      modifies this
      ensures xs.None? ==> !wrote && err.None? && value == None
      ensures xs.Some? ==> wrote
      ensures xs.Some? ==>
              (var w := UnkeyedWrites(path, 0, xs.value, 0);
              value == Some(Unkeyed(w.out)) && err == w.failure)
    {
      if xs.None? {
        return false, None;
      }
      err := EncodeArray(xs.value);
      wrote := true;
    }
  }
}
