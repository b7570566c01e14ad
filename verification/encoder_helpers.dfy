/**
 * The `Encoder` helpers: the value-capturing `_SimpleEncoder`, single-or-array
 * encoding, coding path comparison, the keyed-array transform
 * `dynamicElementEncoding`, and the top-level "any" entry points.
 */
module EncoderHelpers {
  import opened Coding
  import opened AnyEncoding
  import opened ContainerWriters

  // ---------------------------------------------------------------------
  // _SimpleEncoder
  // ---------------------------------------------------------------------

  /** A value `_SimpleEncoder` can hold: a String, or anything else. */
  datatype Captured = CapturedString(s: string) | CapturedOther(doc: Doc)

  /** What a value's own `encode(to:)` does to the encoder it is given: open a
      keyed container, open an unkeyed container, or make a series of
      single-value writes, each an `encodeNil` (None) or an `encode` (Some). */
  datatype SelfEncoding =
    | OpensKeyed
    | OpensUnkeyed
    | SingleValueWrites(writes: seq<Option<Captured>>)

  /** The value held after a series of single-value writes, applied one at a
      time to the value held before them. */
  function FinalValue(held: Option<Captured>, writes: seq<Option<Captured>>): Option<Captured>
    decreases writes
  {
    if writes == [] then held else FinalValue(writes[0], writes[1..])
  }

  /** Every write replaces the held value, so the last write wins. */
  lemma {:induction false} FinalValueIsLastWrite(held: Option<Captured>, writes: seq<Option<Captured>>)
    decreases writes
    ensures FinalValue(held, writes) == if writes == [] then held else writes[|writes| - 1]
  {
    if writes != [] {
      FinalValueIsLastWrite(writes[0], writes[1..]);
    }
  }

  /** The encoder the keyed-array transform uses to turn a key field into a
      string: it supports only its single value container, and keeps the
      last value written. */
  class SimpleEncoder {
    var codingPath: Path
    var value: Option<Captured>

    constructor (codingPath: Path)
      ensures this.codingPath == codingPath && value == None
    {
      this.codingPath := codingPath;
      value := None;
    }

    method EncodeNil()
      modifies this
      ensures value == None && codingPath == old(codingPath)
    {
      value := None;
    }

    method Encode(c: Captured)
      modifies this
      ensures value == Some(c) && codingPath == old(codingPath)
    {
      value := Some(c);
    }

    /** `eV.encode(to: simpleEncoder)`: a value that asks for a keyed or an
        unkeyed container hits the unsupported container methods. */
    method Run(e: SelfEncoding) returns (err: Option<Error>)
      modifies this
      ensures codingPath == old(codingPath)
      ensures e.SingleValueWrites? ==> err == None && value == FinalValue(old(value), e.writes)
      ensures !e.SingleValueWrites? ==> err == Some(Unsupported) && value == old(value)
    {
      if !e.SingleValueWrites? {
        return Some(Unsupported);
      }
      var i := 0;
      while i < |e.writes|
        invariant 0 <= i <= |e.writes| && codingPath == old(codingPath)
        invariant value == if i == 0 then old(value) else e.writes[i - 1]
      {
        match e.writes[i] {
          case None => EncodeNil();
          case Some(c) => Encode(c);
        }
        i := i + 1;
      }
      FinalValueIsLastWrite(old(value), e.writes);
      err := None;
    }
  }

  // ---------------------------------------------------------------------
  // encodeToSingleOrArray
  // ---------------------------------------------------------------------

  datatype SingleOrArrayEncodedAs = Single | Array

  /** A top-level encoder: what it holds once one container has been
      written into it. */
  class Encoder {
    const codingPath: Path
    var storage: Option<Doc>

    constructor (codingPath: Path)
      ensures this.codingPath == codingPath && storage == None
    {
      this.codingPath := codingPath;
      storage := None;
    }

    /** `encodeToSingleOrArray`: one element is written bare, any other
        number of elements (none included) as an array. */
    method EncodeToSingleOrArray(xs: seq<Doc>) returns (r: SingleOrArrayEncodedAs)
      requires storage == None
      modifies this
      ensures |xs| == 1 ==> r == Single && storage == Some(xs[0])
      ensures |xs| != 1 ==> r == Array && storage == Some(Unkeyed(xs))
    {
      if |xs| == 1 {
        storage := Some(xs[0]);
        return Single;
      }
      var container := new UnkeyedWriter(codingPath);
      var i := 0;
      while i < |xs|
        invariant 0 <= i <= |xs|
        invariant container.items == xs[..i]
      {
        container.Encode(xs[i]);
        assert xs[..i + 1] == xs[..i] + [xs[i]];
        i := i + 1;
      }
      assert xs[..i] == xs;
      storage := Some(Unkeyed(container.items));
      return Array;
    }

    /** `encodeAnyDictionary(_:)`: the dictionary is the top-level keyed
        container. */
    method EncodeAnyDictionary(es: seq<(DictKey, Val)>) returns (err: Option<Error>)
      requires storage == None
      modifies this
      ensures var w := KeyedWrites(codingPath, es);
              storage == Some(Keyed(w.out)) && err == w.failure
      ensures err.None? <==> EntriesAccepted(es)
      ensures err.None? ==> storage == Some(Keyed(DictDoc(es)))
    {
      var container := new KeyedWriter(codingPath);
      err := container.EncodeAnyEntries(es);
      assert container.entries == KeyedWrites(codingPath, es).out;
      storage := Some(Keyed(container.entries));
      KeyedWritesCorrect(codingPath, es);
    }

    /** `encodeAnyDictionaryIfPresent(_:)`. */
    method EncodeAnyDictionaryIfPresent(d: Option<seq<(DictKey, Val)>>) returns (wrote: bool, err: Option<Error>)
      requires storage == None
      modifies this
      ensures d.None? ==> !wrote && err.None? && storage == None
      ensures d.Some? ==> wrote
      ensures d.Some? ==>
              (var w := KeyedWrites(codingPath, d.value);
               storage == Some(Keyed(w.out)) && err == w.failure)
    {
      if d.None? {
        return false, None;
      }
      err := EncodeAnyDictionary(d.value);
      wrote := true;
    }

    /** `encode(_:)` for an array of `Any`: the array is the top-level
        unkeyed container. */
    method EncodeArray(xs: seq<Val>) returns (err: Option<Error>)
      requires storage == None
      modifies this
      ensures var w := UnkeyedWrites(codingPath, 0, xs, 0);
              storage == Some(Unkeyed(w.out)) && err == w.failure
      ensures err.None? <==> ItemsAccepted(xs)
      ensures err.None? ==> storage == Some(Unkeyed(ArrayDocs(xs)))
    {
      var container := new UnkeyedWriter(codingPath);
      err := container.EncodeAnyElements(xs);
      assert container.items == UnkeyedWrites(codingPath, 0, xs, 0).out;
      storage := Some(Unkeyed(container.items));
      UnkeyedWritesCorrect(codingPath, 0, xs);
    }

    /** `encodeIfPresent(_:)` for an array of `Any`. */
    method EncodeArrayIfPresent(xs: Option<seq<Val>>) returns (wrote: bool, err: Option<Error>)
      requires storage == None
      modifies this
      ensures xs.None? ==> !wrote && err.None? && storage == None
      ensures xs.Some? ==> wrote
      ensures xs.Some? ==>
              (var w := UnkeyedWrites(codingPath, 0, xs.value, 0);
               storage == Some(Unkeyed(w.out)) && err == w.failure)
    {
      if xs.None? {
        return false, None;
      }
      err := EncodeArray(xs.value);
      wrote := true;
    }

    /** `dynamicElementEncoding(_:usingKey:)`: each record is written into
        the top-level keyed container under the string its `elementKey` field
        coerces to, with that field left out. The first failing record stops
        the run. */
    method DynamicElementEncoding(records: seq<seq<FieldWrite>>, elementKey: string) returns (err: Option<Error>)
      requires storage == None
      modifies this
      ensures var w := RecordsWrites(codingPath, elementKey, records);
              storage == Some(Keyed(w.out)) && err == w.failure
    {
      var container := new KeyedWriter(codingPath);
      var i := 0;
      while i < |records|
        invariant 0 <= i <= |records|
        invariant container.path == codingPath
        invariant container.entries == RecordsWrites(codingPath, elementKey, records[..i]).out
        invariant RecordsWrites(codingPath, elementKey, records[..i]).failure == None
      {
        var w := EncodeRecord(codingPath, elementKey, records[i]);
        container.entries := container.entries + w.out;
        assert records[..i + 1] == records[..i] + [records[i]];
        RecordsWritesAppend(codingPath, elementKey, records[..i], [records[i]]);
        RecordsWritesOne(codingPath, elementKey, records[i]);
        if w.failure.Some? {
          assert records == records[..i + 1] + records[i + 1..];
          RecordsWritesAppend(codingPath, elementKey, records[..i + 1], records[i + 1..]);
          storage := Some(Keyed(container.entries));
          return w.failure;
        }
        i := i + 1;
      }
      assert records[..i] == records;
      storage := Some(Keyed(container.entries));
      err := None;
    }
  }

  // ---------------------------------------------------------------------
  // codingKeysMatch
  // ---------------------------------------------------------------------

  /** Reference: two coding paths match when their string forms are equal. */
  predicate PathsMatch(a: Path, b: Path) {
    StringPath(a) == StringPath(b)
  }

  /** `codingKeysMatch`: equal lengths and equal `stringValue` at every
      index. */
  method CodingKeysMatch(lhs: Path, rhs: Path) returns (r: bool)
    ensures r <==> |lhs| == |rhs| && forall i :: 0 <= i < |lhs| ==> lhs[i].str == rhs[i].str
    ensures r <==> PathsMatch(lhs, rhs)
  {
    if |lhs| != |rhs| {
      return false;
    }
    var i := 0;
    while i < |lhs|
      invariant 0 <= i <= |lhs|
      invariant forall j :: 0 <= j < i ==> lhs[j].str == rhs[j].str
    {
      if lhs[i].str != rhs[i].str {
        assert StringPath(lhs)[i] != StringPath(rhs)[i];
        return false;
      }
      i := i + 1;
    }
    assert StringPath(lhs) == StringPath(rhs);
    return true;
  }

  /** Paths of different lengths never match. */
  lemma PathsOfDifferentLengthDiffer(a: Path, b: Path)
    requires |a| != |b|
    ensures !PathsMatch(a, b)
  {
    assert |StringPath(a)| != |StringPath(b)|;
  }

  // ---------------------------------------------------------------------
  // dynamicElementEncoding
  // ---------------------------------------------------------------------

  /** The value of a field a record writes: a `String`, or another value with
      the document it writes into a real container and what it does to a
      `_SimpleEncoder`. */
  datatype FieldValue = Str(s: string) | Other(doc: Doc, selfEncoding: SelfEncoding)

  /** One write a record's `encode(to:)` makes into its keyed container: an
      `encodeNil`, an `encode` of a value, or a nested keyed container with
      its own writes. */
  datatype FieldWrite =
    | NilWrite(key: Key)
    | ValueWrite(key: Key, value: FieldValue)
    | NestedWrite(key: Key, writes: seq<FieldWrite>)

  /** What a field value writes into a real container. */
  function FieldDoc(v: FieldValue): Doc {
    match v
    case Str(s) => Scalar(TStr(s))
    case Other(d, _) => d
  }

  /** The filter's coercion of an intercepted value to the record's name.
      `at` is the field's path: its container's path plus its key. */
  function CoerceName(at: Path, v: FieldValue): Result<string>
  {
    match v
    case Str(s) => Ok(s)
    case Other(_, e) =>
      match e
      case SingleValueWrites(ws) =>
        (match FinalValue(None, ws)
         case Some(CapturedString(s)) => Ok(s)
         case _ => Err(TypeMismatch(at)))
      case _ => Err(Unsupported)
  }

  /** A String is used as is. Any other value is run through a fresh
      `_SimpleEncoder`: the last value written to it must be a String, and
      anything else (no write, a final `encodeNil`, a non-String) is a type
      mismatch at the field's path. */
  lemma CoercionUsesLastWrite(at: Path, v: FieldValue)
    ensures v.Str? ==> CoerceName(at, v) == Ok(v.s)
    ensures v.Other? && !v.selfEncoding.SingleValueWrites? ==> CoerceName(at, v) == Err(Unsupported)
    ensures v.Other? && v.selfEncoding.SingleValueWrites? ==>
              var ws := v.selfEncoding.writes;
              if ws != [] && ws[|ws| - 1].Some? && ws[|ws| - 1].value.CapturedString? then
                CoerceName(at, v) == Ok(ws[|ws| - 1].value.s)
              else
                CoerceName(at, v) == Err(TypeMismatch(at))
  {
    if v.Other? && v.selfEncoding.SingleValueWrites? {
      FinalValueIsLastWrite(None, v.selfEncoding.writes);
    }
  }

  /** The filter's coercion as the source performs it: a non-String value is
      encoded into a `_SimpleEncoder` at the container's path, whose captured
      value must then be a String. */
  method CoerceInterceptedValue(containerPath: Path, key: Key, v: FieldValue) returns (r: Result<string>)
    ensures r == CoerceName(containerPath + [key], v)
  {
    if v.Str? {
      return Ok(v.s);
    }
    var simple := new SimpleEncoder(containerPath);
    var err := simple.Run(v.selfEncoding);
    if err.Some? {
      return Err(err.value);
    }
    match simple.value {
      case Some(CapturedString(s)) => r := Ok(s);
      case _ => r := Err(TypeMismatch(containerPath + [key]));
    }
  }

  /** The filter's interception test: a non-nil value whose container path
      matches the outer container's and whose key is `elementKey`. */
  predicate Intercepts(outer: Path, at: Path, elementKey: string, k: Key) {
    PathsMatch(at, outer) && k.str == elementKey
  }

  /** The state of one record's encoding: the name set by the first
      intercepted field, the fields passed through, and the error that
      stopped it. */
  datatype Emitted = Emitted(name: Option<string>, fields: seq<(Key, Doc)>, failure: Option<Error>)

  /** One write of a record whose container is at `at`, the outer container
      being at `outer`. */
  function EmitWrite(outer: Path, at: Path, elementKey: string, w: FieldWrite, name: Option<string>): Emitted
    decreases w, 1
  {
    match w
    case NilWrite(k) => Emitted(name, [(k, Null)], None)
    case ValueWrite(k, v) =>
      if Intercepts(outer, at, elementKey, k) then
        match CoerceName(at + [k], v)
        case Err(e) => Emitted(name, [], Some(e))
        case Ok(s) => Emitted(if name.None? then Some(s) else name, [], None)
      else
        Emitted(name, [(k, FieldDoc(v))], None)
    case NestedWrite(k, ws) =>
      var r := EmitWrites(outer, at + [k], elementKey, ws, name);
      Emitted(r.name, [(k, Keyed(r.fields))], r.failure)
  }

  function EmitWrites(outer: Path, at: Path, elementKey: string, ws: seq<FieldWrite>, name: Option<string>): Emitted
    decreases ws, 0
  {
    if ws == [] then Emitted(name, [], None)
    else
      assert ws[0] in ws;
      var first := EmitWrite(outer, at, elementKey, ws[0], name);
      if first.failure.Some? then first
      else
        var rest := EmitWrites(outer, at, elementKey, ws[1..], first.name);
        Emitted(rest.name, first.fields + rest.fields, rest.failure)
  }

  /** Reference: what a record's writes put into an unfiltered container. */
  function WritesDoc(ws: seq<FieldWrite>): (r: seq<(Key, Doc)>)
    decreases ws
    ensures |r| == |ws|
    ensures forall i :: 0 <= i < |ws| ==> r[i].0 == ws[i].key
  {
    if ws == [] then []
    else
      assert ws[0] in ws;
      var d := match ws[0]
        case NilWrite(_) => Null
        case ValueWrite(_, v) => FieldDoc(v)
        case NestedWrite(_, inner) => Keyed(WritesDoc(inner));
      [(ws[0].key, d)] + WritesDoc(ws[1..])
  }

  /** The writes of a record at its top level that are not its key field. */
  function WithoutKeyField(ws: seq<FieldWrite>, elementKey: string): (r: seq<FieldWrite>)
    ensures |r| <= |ws|
    ensures forall w :: w in r ==> w in ws && !(w.ValueWrite? && w.key.str == elementKey)
  {
    if ws == [] then []
    else if ws[0].ValueWrite? && ws[0].key.str == elementKey then WithoutKeyField(ws[1..], elementKey)
    else [ws[0]] + WithoutKeyField(ws[1..], elementKey)
  }

  /** The key and value of the first key field of a record's top level. */
  function FirstKeyField(ws: seq<FieldWrite>, elementKey: string): Option<(Key, FieldValue)>
  {
    if ws == [] then None
    else if ws[0].ValueWrite? && ws[0].key.str == elementKey then Some((ws[0].key, ws[0].value))
    else FirstKeyField(ws[1..], elementKey)
  }

  /** Writes inside a nested container are never intercepted: their path is
      longer than the outer container's. The nested container receives all of
      them, and the record's name is untouched. */
  lemma {:induction false} NestedWritesPassThrough(outer: Path, at: Path, elementKey: string, ws: seq<FieldWrite>, name: Option<string>)
    requires |at| > |outer|
    decreases ws, 0
    ensures EmitWrites(outer, at, elementKey, ws, name) == Emitted(name, WritesDoc(ws), None)
  {
    if ws != [] {
      assert ws[0] in ws;
      NestedWritePassesThrough(outer, at, elementKey, ws[0], name);
      NestedWritesPassThrough(outer, at, elementKey, ws[1..], name);
    }
  }

  lemma {:induction false} NestedWritePassesThrough(outer: Path, at: Path, elementKey: string, w: FieldWrite, name: Option<string>)
    requires |at| > |outer|
    decreases w, 1
    ensures EmitWrite(outer, at, elementKey, w, name) == Emitted(name, WritesDoc([w]), None)
  {
    assert [w][1..] == [];
    PathsOfDifferentLengthDiffer(at, outer);
    match w
    case NestedWrite(k, inner) =>
      NestedWritesPassThrough(outer, at + [k], elementKey, inner, name);
    case _ =>
  }

  /** A record's top level, when no coercion fails: the fields are the
      record's writes without its key fields, nested containers written in
      full, and the name comes from the first key field. */
  lemma {:induction false} TopLevelEmission(outer: Path, elementKey: string, ws: seq<FieldWrite>, name: Option<string>)
    requires EmitWrites(outer, outer, elementKey, ws, name).failure.None?
    ensures EmitWrites(outer, outer, elementKey, ws, name).fields == WritesDoc(WithoutKeyField(ws, elementKey))
    ensures var r := EmitWrites(outer, outer, elementKey, ws, name);
            match FirstKeyField(ws, elementKey)
            case None => r.name == name
            case Some((k, v)) =>
              CoerceName(outer + [k], v).Ok? &&
              r.name == (if name.Some? then name else Some(CoerceName(outer + [k], v).value))
  {
    if ws != [] {
      var w := ws[0];
      assert ws[0] in ws;
      var first := EmitWrite(outer, outer, elementKey, w, name);
      assert PathsMatch(outer, outer);
      if w.NestedWrite? {
        NestedWritesPassThrough(outer, outer + [w.key], elementKey, w.writes, name);
        assert first == Emitted(name, [(w.key, Keyed(WritesDoc(w.writes)))], None);
      }
      TopLevelEmission(outer, elementKey, ws[1..], first.name);
      if w.ValueWrite? && w.key.str == elementKey {
        assert CoerceName(outer + [w.key], w.value).Ok?;
      } else {
        assert WithoutKeyField(ws, elementKey) == [w] + WithoutKeyField(ws[1..], elementKey);
        assert WritesDoc([w] + WithoutKeyField(ws[1..], elementKey))[1..] == WritesDoc(WithoutKeyField(ws[1..], elementKey));
      }
    }
  }

  /** One record of `dynamicElementEncoding`, as the entry it adds to the
      outer container. A record that never writes its key field fails with
      `realContainerNotSet` and adds nothing; a record whose key field does
      not coerce fails with that error, having added its entry only if an
      earlier key field already named it. */
  function EncodeRecord(outer: Path, elementKey: string, ws: seq<FieldWrite>): (r: Written<(Key, Doc)>)
    ensures |r.out| <= 1
    ensures r.failure.None? ==> |r.out| == 1 && r.out[0].1.Keyed?
  {
    var e := EmitWrites(outer, outer, elementKey, ws, None);
    if e.failure.Some? then
      Written(if e.name.Some? then [(Key(e.name.value, None), Keyed(e.fields))] else [], e.failure)
    else if e.name.None? then Written([], Some(RealContainerNotSet))
    else Written([(Key(e.name.value, None), Keyed(e.fields))], None)
  }

  /** All records in order, stopping at the first failing one. */
  function RecordsWrites(outer: Path, elementKey: string, records: seq<seq<FieldWrite>>): Written<(Key, Doc)>
  {
    if records == [] then Written([], None)
    else
      var first := EncodeRecord(outer, elementKey, records[0]);
      if first.failure.Some? then first
      else
        var rest := RecordsWrites(outer, elementKey, records[1..]);
        Written(first.out + rest.out, rest.failure)
  }

  lemma {:induction false} RecordsWritesAppend(outer: Path, elementKey: string, a: seq<seq<FieldWrite>>, b: seq<seq<FieldWrite>>)
    ensures var wa := RecordsWrites(outer, elementKey, a);
            RecordsWrites(outer, elementKey, a + b) ==
              if wa.failure.Some? then wa
              else
                var wb := RecordsWrites(outer, elementKey, b);
                Written(wa.out + wb.out, wb.failure)
  {
    if a == [] {
      assert a + b == b;
    } else {
      assert (a + b)[0] == a[0];
      assert (a + b)[1..] == a[1..] + b;
      RecordsWritesAppend(outer, elementKey, a[1..], b);
      var first := EncodeRecord(outer, elementKey, a[0]);
      if first.failure.None? {
        var r1 := RecordsWrites(outer, elementKey, a[1..]);
        if r1.failure.None? {
          var rb := RecordsWrites(outer, elementKey, b);
          assert first.out + (r1.out + rb.out) == (first.out + r1.out) + rb.out;
        }
      }
    }
  }

  lemma RecordsWritesOne(outer: Path, elementKey: string, ws: seq<FieldWrite>)
    ensures RecordsWrites(outer, elementKey, [ws]) == EncodeRecord(outer, elementKey, ws)
  {
    var first := EncodeRecord(outer, elementKey, ws);
    assert [ws][1..] == [];
    assert first.out + [] == first.out;
  }

  /** A record that succeeds has a name: its first key field coerced. */
  function RecordName(outer: Path, elementKey: string, ws: seq<FieldWrite>): Option<string>
  {
    match FirstKeyField(ws, elementKey)
    case None => None
    case Some((k, v)) =>
      match CoerceName(outer + [k], v)
      case Ok(s) => Some(s)
      case Err(_) => None
  }

  /** A record is encoded without error exactly when its writes raise no
      coercion error and it has a key field; it then adds one entry, under its
      name, holding its writes without the key field. */
  lemma RecordEntry(outer: Path, elementKey: string, ws: seq<FieldWrite>)
    ensures var e := EmitWrites(outer, outer, elementKey, ws, None);
            EncodeRecord(outer, elementKey, ws).failure.None? <==>
              e.failure.None? && FirstKeyField(ws, elementKey).Some?
    ensures EncodeRecord(outer, elementKey, ws).failure.None? ==>
              RecordName(outer, elementKey, ws).Some? &&
              EncodeRecord(outer, elementKey, ws).out ==
                [(Key(RecordName(outer, elementKey, ws).value, None), Keyed(WritesDoc(WithoutKeyField(ws, elementKey))))]
  {
    var e := EmitWrites(outer, outer, elementKey, ws, None);
    if e.failure.None? {
      TopLevelEmission(outer, elementKey, ws, None);
    }
  }

  /** The run succeeds exactly when every record does, and then adds one
      entry per record, in order. */
  lemma {:induction false} RecordsWritesCorrect(outer: Path, elementKey: string, records: seq<seq<FieldWrite>>)
    ensures RecordsWrites(outer, elementKey, records).failure.None? <==>
              forall i :: 0 <= i < |records| ==> EncodeRecord(outer, elementKey, records[i]).failure.None?
    ensures RecordsWrites(outer, elementKey, records).failure.None? ==>
              |RecordsWrites(outer, elementKey, records).out| == |records| &&
              forall i :: 0 <= i < |records| ==>
                RecordsWrites(outer, elementKey, records).out[i] == EncodeRecord(outer, elementKey, records[i]).out[0]
  {
    if records != [] {
      RecordsWritesCorrect(outer, elementKey, records[1..]);
      var first := EncodeRecord(outer, elementKey, records[0]);
      if first.failure.None? {
        var rest := RecordsWrites(outer, elementKey, records[1..]);
        if rest.failure.None? {
          forall i | 0 <= i < |records|
            ensures RecordsWrites(outer, elementKey, records).out[i] == EncodeRecord(outer, elementKey, records[i]).out[0]
          {
            if i > 0 {
              assert records[1..][i - 1] == records[i];
            }
          }
        } else {
          var j :| 0 <= j < |records[1..]| && EncodeRecord(outer, elementKey, records[1..][j]).failure.Some?;
          assert records[1..][j] == records[j + 1];
        }
      }
    }
  }

  /** A record without a key field stops the run with `realContainerNotSet`
      after the records before it, and adds nothing itself. */
  lemma RecordWithoutKeyField(outer: Path, elementKey: string, ws: seq<FieldWrite>)
    requires FirstKeyField(ws, elementKey).None?
    ensures EncodeRecord(outer, elementKey, ws) == Written([], Some(RealContainerNotSet))
  {
    NoKeyFieldNoFailure(outer, elementKey, ws, None);
  }

  lemma {:induction false} NoKeyFieldNoFailure(outer: Path, elementKey: string, ws: seq<FieldWrite>, name: Option<string>)
    requires FirstKeyField(ws, elementKey).None?
    ensures EmitWrites(outer, outer, elementKey, ws, name).failure.None?
    ensures EmitWrites(outer, outer, elementKey, ws, name).name == name
  {
    if ws != [] {
      assert ws[0] in ws;
      assert PathsMatch(outer, outer);
      if ws[0].NestedWrite? {
        NestedWritesPassThrough(outer, outer + [ws[0].key], elementKey, ws[0].writes, name);
      }
      NoKeyFieldNoFailure(outer, elementKey, ws[1..], name);
    }
  }
}
