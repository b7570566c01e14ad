/**
 * Decoding containers over the abstract document: a keyed container (a
 * value: reading it changes nothing), a single value container, and an
 * unkeyed container, a cursor that reading advances. Keys are matched by
 * their string form.
 */
module Readers {
  import opened Coding

  /** The document found at the first entry whose key has the string form
      `s`. */
  function FindEntry(entries: seq<(Key, Doc)>, s: string): (r: Option<Doc>)
    ensures r.None? <==> forall i :: 0 <= i < |entries| ==> entries[i].0.str != s
    ensures r.Some? ==> exists i :: 0 <= i < |entries| && entries[i].0.str == s && entries[i].1 == r.value &&
                         forall j :: 0 <= j < i ==> entries[j].0.str != s
  {
    if entries == [] then None
    else if entries[0].0.str == s then Some(entries[0].1)
    else
      var r := FindEntry(entries[1..], s);
      assert forall i :: 1 <= i < |entries| ==> entries[i] == entries[1..][i - 1];
      if r.Some? then
        var i :| 0 <= i < |entries[1..]| && entries[1..][i].0.str == s && entries[1..][i].1 == r.value &&
                 forall j :: 0 <= j < i ==> entries[1..][j].0.str != s;
        assert entries[i + 1] == entries[1..][i];
        r
      else r
  }

  /** A keyed decoding container at `path`. `injection`, when present, is a
      `(key, value)` pair laid over the entries: the key reads as the String
      value whatever the entries hold. */
  datatype KeyedReader = KeyedReader(path: Path, entries: seq<(Key, Doc)>, injection: Option<(string, string)>)
  {
    /** `allKeys`: the keys of the entries, in order. */
    function AllKeys(): (r: seq<Key>)
      ensures |r| == |entries| && forall i :: 0 <= i < |entries| ==> r[i] == entries[i].0
    {
      seq(|entries|, i requires 0 <= i < |entries| => entries[i].0)
    }

    /** The document read at `k`: the injected String first, then the first
        entry with that key. */
    function Lookup(k: Key): (r: Option<Doc>)
      ensures injection.Some? && injection.value.0 == k.str ==> r == Some(Scalar(TStr(injection.value.1)))
      ensures !(injection.Some? && injection.value.0 == k.str) ==> r == FindEntry(entries, k.str)
    {
      if injection.Some? && injection.value.0 == k.str then Some(Scalar(TStr(injection.value.1)))
      else FindEntry(entries, k.str)
    }

    /** `contains(_:)`. */
    predicate Contains(k: Key) {
      Lookup(k).Some?
    }

    /** `nestedContainer(keyedBy:forKey:)`. */
    function NestedKeyed(k: Key): (r: Result<KeyedReader>)
      ensures r.Ok? <==> Lookup(k).Some? && Lookup(k).value.Keyed?
      ensures r.Ok? ==> r.value == KeyedReader(path + [k], Lookup(k).value.entries, None)
      ensures Lookup(k).None? ==> r == Err(KeyNotFound(path + [k]))
    {
      match Lookup(k)
      case None => Err(KeyNotFound(path + [k]))
      case Some(Keyed(es)) => Ok(KeyedReader(path + [k], es, None))
      case Some(Null) => Err(ValueNotFound(path + [k]))
      case Some(_) => Err(TypeMismatch(path + [k]))
    }

    /** `nestedUnkeyedContainer(forKey:)`, as the path and the elements of
        the container it opens. */
    function NestedUnkeyed(k: Key): (r: Result<(Path, seq<Doc>)>)
      ensures r.Ok? <==> Lookup(k).Some? && Lookup(k).value.Unkeyed?
      ensures r.Ok? ==> r.value == (path + [k], Lookup(k).value.items)
      ensures Lookup(k).None? ==> r == Err(KeyNotFound(path + [k]))
    {
      match Lookup(k)
      case None => Err(KeyNotFound(path + [k]))
      case Some(Unkeyed(xs)) => Ok((path + [k], xs))
      case Some(Null) => Err(ValueNotFound(path + [k]))
      case Some(_) => Err(TypeMismatch(path + [k]))
    }
  }

  /** A single value decoding container at `path` holding `doc`. */
  datatype SingleReader = SingleReader(path: Path, doc: Doc)

  /** An unkeyed decoding container: its elements and the index of the next
      one to read. */
  class UnkeyedReader {
    const path: Path
    const items: seq<Doc>
    var currentIndex: nat

    constructor (path: Path, items: seq<Doc>)
      ensures this.path == path && this.items == items && currentIndex == 0
    {
      this.path := path;
      this.items := items;
      currentIndex := 0;
    }

    predicate Valid()
      reads this
    {
      currentIndex <= |items|
    }

    /** `isAtEnd`. */
    predicate IsAtEnd()
      reads this
    {
      currentIndex >= |items|
    }

    /** `superDecoder()`: the path and document of the next element, which
        is consumed. At the end nothing is consumed and the read fails. */
    method SuperDecoder() returns (r: Result<(Path, Doc)>)
      requires Valid()
      modifies this
      ensures Valid()
      ensures old(IsAtEnd()) ==> r == Err(ValueNotFound(path + [IndexKey(old(currentIndex))])) && currentIndex == old(currentIndex)
      ensures !old(IsAtEnd()) ==> r == Ok((path + [IndexKey(old(currentIndex))], items[old(currentIndex)])) &&
                                  currentIndex == old(currentIndex) + 1
    {
      if currentIndex >= |items| {
        return Err(ValueNotFound(path + [IndexKey(currentIndex)]));
      }
      r := Ok((path + [IndexKey(currentIndex)], items[currentIndex]));
      currentIndex := currentIndex + 1;
    }

    /** `nestedUnkeyedContainer()`: a fresh container over the next element,
        which must be an array; it is consumed only on success. */
    method NestedUnkeyedContainer() returns (r: Result<UnkeyedReader>)
      requires Valid()
      modifies this
      ensures Valid()
      ensures r.Ok? ==> fresh(r.value) && r.value.Valid() && r.value.currentIndex == 0
      ensures old(IsAtEnd()) ==> r == Err(ValueNotFound(path + [IndexKey(old(currentIndex))])) && currentIndex == old(currentIndex)
      ensures !old(IsAtEnd()) ==>
                var at := path + [IndexKey(old(currentIndex))];
                match items[old(currentIndex)]
                case Unkeyed(xs) => r.Ok? && r.value.path == at && r.value.items == xs && currentIndex == old(currentIndex) + 1
                case Null => r == Err(ValueNotFound(at)) && currentIndex == old(currentIndex)
                case _ => r == Err(TypeMismatch(at)) && currentIndex == old(currentIndex)
    {
      var at := path + [IndexKey(currentIndex)];
      if currentIndex >= |items| {
        return Err(ValueNotFound(at));
      }
      match items[currentIndex] {
        case Unkeyed(xs) =>
          var nested := new UnkeyedReader(at, xs);
          currentIndex := currentIndex + 1;
          r := Ok(nested);
        case Null =>
          r := Err(ValueNotFound(at));
        case _ =>
          r := Err(TypeMismatch(at));
      }
    }
  }
}
