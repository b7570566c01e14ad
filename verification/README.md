# AdvancedCodableHelpers in Dafny

A model of the format-independent core of the Swift package
AdvancedCodableHelpers, with proofs of what its helpers promise.

The package extends Swift's `Codable` machinery. The model covers these
parts of it:

- **The "any" encoders.** `_encodeAnyDictionary` and `_encodeAnyArray`
  write a tree of values of static type `Any` into keyed, unkeyed and
  single value encoding containers. Each value is dispatched on its
  runtime type, and the first matching branch wins.
- **The keyed-array transform.** `dynamicElementEncoding` stores a list
  of records as a keyed container, each record under the value of one of
  its own fields. `dynamicElementDecoding` reads them back and puts that
  field back in.
- **Single-or-array normalisation.** `encodeToSingleOrArray` and
  `decodeFromSingleOrArray`.
- **The decoding-closure helpers** of keyed and unkeyed decoding
  containers, including their `IfPresent` guards and the loops that drain
  a nested unkeyed container.
- **The adapters:**
  - the wrapping decoders and their coding-path modifiers;
  - the keyed-to-single-value container, which rejects every primitive;
  - the filter-gated unkeyed encoding container;
  - the `userInfo` selection in `ContainedCodableDictionary`.
- **The `AnyEquatable` comparison** used by the package's tests. It treats
  a Bool and an Int as equal through 0 and 1.

How Swift's constructs are represented:

- **Documents.** An encoder's output and a decoder's input are one
  abstract document, `Coding.Doc`:
  - null;
  - a scalar token;
  - a keyed container, as its entries in write order;
  - an unkeyed container, as its items.
- **Values of type `Any`.** The runtime casts `as?` become the closed
  datatype `Coding.Val`:
  - three dictionary flavours, each with three key kinds;
  - two array flavours;
  - a nil `Nillable`;
  - any other `Encodable`, written as the document its own encoding
    produces;
  - a value that is not encodable.
- **Errors.** A thrown error is a `Result`/`Option` error value.
  `fatalError("Unsupported method")` is the distinguished error
  `Unsupported`.
- **Encoding containers** are classes that the helpers extend in place.
- **The unkeyed decoding container** is a class whose cursor the helpers
  advance.
- **Loops.** Every loop of the source is a method proved against a
  reference function. Lemmas then state what the reference function
  means.

Modules, in dependency order:

- `Coding`
- `AnyEncoding`: the dispatch as functions, with the reference documents.
- `ContainerWriters`: the keyed, unkeyed and single value encoding
  containers.
- `EncoderHelpers`
- `Readers`
- `WrappedKeyedDecoders`
- `WrappedSingleValueDecoders`
- `Decoders`
- `KeyedToSingle`
- `UnkeyedDecoding`
- `KeyedDecoding`
- `DecoderHelpers`
- `FilteredUnkeyed`
- `ContainedDictionary`
- `AnyEquatable`
- `RoundTrips`: encoding followed by decoding.

## Model

| member | source | states |
|---|---|---|
| Coding.DynamicCodingKey | Sources/AdvancedCodableHelpers/extension/KeyedEncodingContainerProtocol+AdvancedCodableHelpers.swift:20-22 | A String dictionary key is written under its own string. An Int key's coding key carries that integer. |
| Coding.StringPath | Sources/AdvancedCodableHelpers/wrapped/WrappedKeyedToSingleValueDecodingContainer.swift:23 | A path's string form has one string per key, namely that key's `stringValue`. |
| AnyEncoding.DictDoc | Sources/AdvancedCodableHelpers/extension/KeyedEncodingContainerProtocol+AdvancedCodableHelpers.swift:20-52 | The reference document of a dictionary has exactly one entry per dictionary entry, in iteration order. Each entry sits under the entry's `dynamicCodingKey`. |
| AnyEncoding.KeyedWritesAppend | Sources/AdvancedCodableHelpers/extension/KeyedEncodingContainerProtocol+AdvancedCodableHelpers.swift:20-53 | Encoding the entries `a + b` is encoding `a`, then `b` only if `a` raised no error. Writes made before an error stay written. |
| AnyEncoding.UnkeyedWritesAcceptedPrefix | Sources/AdvancedCodableHelpers/extension/UnkeyedEncodingContainer+AdvancedCodableHelpers.swift:49-84 | A stretch of accepted elements writes exactly their reference items with no error. The run then goes on after them, with the container count grown by what they wrote. |
| AnyEncoding.KeyedEntryCorrect | Sources/AdvancedCodableHelpers/extension/KeyedEncodingContainerProtocol+AdvancedCodableHelpers.swift:21-52 | A keyed entry raises no error iff its whole value tree is accepted by the dispatch. It then writes exactly one entry at its key: a nested keyed container for a recognised dictionary, a nested unkeyed container for an array, null for nil, and the value's own document otherwise. |
| AnyEncoding.KeyedWritesCorrect | Sources/AdvancedCodableHelpers/extension/KeyedEncodingContainerProtocol+AdvancedCodableHelpers.swift:19-55 | `_encodeAnyDictionary` succeeds iff every value at every depth is accepted. It then writes exactly the reference entries, once each and in iteration order. |
| AnyEncoding.UnkeyedElementCorrect | Sources/AdvancedCodableHelpers/extension/UnkeyedEncodingContainer+AdvancedCodableHelpers.swift:50-83 | An element raises no error iff it is accepted. A dictionary of any of the nine kinds then adds one nested keyed container, a nested array adds its own elements, nil adds null, and an `Encodable` adds its document. |
| AnyEncoding.UnkeyedWritesCorrect | Sources/AdvancedCodableHelpers/extension/UnkeyedEncodingContainer+AdvancedCodableHelpers.swift:48-85 | `_encodeAnyArray` succeeds iff every element at every depth is accepted. It then writes exactly the reference items, in sequence order. |
| AnyEncoding.KeyedStopsAtRejectedEntry | Sources/AdvancedCodableHelpers/extension/KeyedEncodingContainerProtocol+AdvancedCodableHelpers.swift:49-52 | The first rejected entry fails the run with `invalidValue` at the container path plus that entry's key. The entries before it are written; nothing after it is. |
| AnyEncoding.UnkeyedStopsAtRejectedElement | Sources/AdvancedCodableHelpers/extension/UnkeyedEncodingContainer+AdvancedCodableHelpers.swift:80-82 | The first non-encodable element fails the run with `invalidValue` at the container path plus its index in the array. The elements before it are written. |
| AnyEncoding.NestedArrayIsSpliced | Sources/AdvancedCodableHelpers/extension/UnkeyedEncodingContainer+AdvancedCodableHelpers.swift:68-71 | A nested array is spliced into the same container: its elements follow the ones before it, with no nested container. |
| AnyEncoding.NestedArrayErrorIndex | Sources/AdvancedCodableHelpers/extension/UnkeyedEncodingContainer+AdvancedCodableHelpers.swift:68-71 | An error inside a nested array carries the index within the nested array, not the outer index. What was written before it stays written. |
| AnyEncoding.BoolKeyedClassDictionary | Sources/AdvancedCodableHelpers/extension/KeyedEncodingContainerProtocol+AdvancedCodableHelpers.swift:21-34 | A Bool-keyed `SCDictionary` or `SCArrayOrderedDictionary` is rejected with `invalidValue` as a keyed-container value. As an unkeyed element, it is written as one nested keyed container. |
| ContainerWriters.KeyedWriter.constructor | Sources/AdvancedCodableHelpers/extension/KeyedEncodingContainerProtocol+AdvancedCodableHelpers.swift:66 | A new nested keyed container is at the given path and empty. |
| ContainerWriters.KeyedWriter.EncodeEntry | Sources/AdvancedCodableHelpers/extension/KeyedEncodingContainerProtocol+AdvancedCodableHelpers.swift:21-52 | One dispatched entry appends exactly the entries and raises exactly the error of the reference dispatch. |
| ContainerWriters.KeyedWriter.EncodeAnyEntries | Sources/AdvancedCodableHelpers/extension/KeyedEncodingContainerProtocol+AdvancedCodableHelpers.swift:19-55 | The loop appends the reference writes of the whole dictionary and stops with the first error. |
| ContainerWriters.KeyedWriter.EncodeAnyDictionary | Sources/AdvancedCodableHelpers/extension/KeyedEncodingContainerProtocol+AdvancedCodableHelpers.swift:64-70 | Exactly one nested keyed container is added under the key, filled by `_encodeAnyDictionary`. The call succeeds iff the tree is accepted, and then the container holds the reference entries. |
| ContainerWriters.KeyedWriter.EncodeAnyDictionaryIfPresent | Sources/AdvancedCodableHelpers/extension/KeyedEncodingContainerProtocol+AdvancedCodableHelpers.swift:80-85 | For nil: returns false and writes nothing. Otherwise: returns true after `encodeAnyDictionary`. |
| ContainerWriters.KeyedWriter.EncodeAnyArray | Sources/AdvancedCodableHelpers/extension/KeyedEncodingContainerProtocol+AdvancedCodableHelpers.swift:99-103 | Exactly one nested unkeyed container is added under the key, filled by `_encodeAnyArray`. The call succeeds iff the array is accepted. |
| ContainerWriters.KeyedWriter.EncodeAnyArrayIfPresent | Sources/AdvancedCodableHelpers/extension/KeyedEncodingContainerProtocol+AdvancedCodableHelpers.swift:114-119 | For nil: returns false and writes nothing. Otherwise: returns true after `encodeAnyArray`. |
| ContainerWriters.UnkeyedWriter.constructor | Sources/AdvancedCodableHelpers/extension/UnkeyedEncodingContainer+AdvancedCodableHelpers.swift:95 | A new nested unkeyed container is at the given path and empty. |
| ContainerWriters.UnkeyedWriter.Encode | Sources/AdvancedCodableHelpers/extension/UnkeyedEncodingContainer+AdvancedCodableHelpers.swift:74-75 | Encoding a value appends its document and changes nothing else. |
| ContainerWriters.UnkeyedWriter.EncodeElement | Sources/AdvancedCodableHelpers/extension/UnkeyedEncodingContainer+AdvancedCodableHelpers.swift:50-83 | One dispatched element appends exactly the items and raises exactly the error of the reference dispatch, at the container's current count. |
| ContainerWriters.UnkeyedWriter.EncodeAnyElements | Sources/AdvancedCodableHelpers/extension/UnkeyedEncodingContainer+AdvancedCodableHelpers.swift:48-85 | The `enumerated()` loop appends the reference writes of the whole array and stops with the first error. |
| ContainerWriters.UnkeyedWriter.EncodeAnyDictionary | Sources/AdvancedCodableHelpers/extension/UnkeyedEncodingContainer+AdvancedCodableHelpers.swift:19-22 | Exactly one nested keyed container is appended, at the path ending in the next index. The call succeeds iff the tree is accepted, and then the container holds the reference entries. |
| ContainerWriters.UnkeyedWriter.EncodeAnyDictionaryIfPresent | Sources/AdvancedCodableHelpers/extension/UnkeyedEncodingContainer+AdvancedCodableHelpers.swift:31-35 | For nil: returns false and writes nothing. Otherwise: returns true after `encodeAnyDictionary`. |
| ContainerWriters.UnkeyedWriter.EncodeAnyArray | Sources/AdvancedCodableHelpers/extension/UnkeyedEncodingContainer+AdvancedCodableHelpers.swift:94-97 | The whole array is wrapped in exactly one new nested unkeyed container. The call succeeds iff the array is accepted. |
| ContainerWriters.UnkeyedWriter.EncodeIfPresent | Sources/AdvancedCodableHelpers/extension/UnkeyedEncodingContainer+AdvancedCodableHelpers.swift:108-112 | For nil: returns false and writes nothing. Otherwise: returns true after `encodeAnyArray`. |
| ContainerWriters.SingleWriter.EncodeAnyDictionary | Sources/AdvancedCodableHelpers/extension/SingleValueEncodingContainer+AdvancedCodableHelpers.swift:35-41 | The single value becomes one keyed container holding exactly what `_encodeAnyDictionary` writes at the same path. |
| ContainerWriters.SingleWriter.EncodeAnyDictionaryIfPresent | Sources/AdvancedCodableHelpers/extension/SingleValueEncodingContainer+AdvancedCodableHelpers.swift:49-53 | For nil: returns false and writes nothing. Otherwise: returns true after `encodeAnyDictionary`. |
| ContainerWriters.SingleWriter.EncodeArray | Sources/AdvancedCodableHelpers/extension/SingleValueEncodingContainer+AdvancedCodableHelpers.swift:67-71 | The single value becomes one unkeyed container holding exactly what `_encodeAnyArray` writes. |
| ContainerWriters.SingleWriter.EncodeArrayIfPresent | Sources/AdvancedCodableHelpers/extension/SingleValueEncodingContainer+AdvancedCodableHelpers.swift:82-86 | For nil: returns false and writes nothing. Otherwise: returns true after `encode`. |
| EncoderHelpers.FinalValueIsLastWrite | Sources/AdvancedCodableHelpers/extension/Encoder+AdvanedCodableHelpers.swift:67-234 | Since every single value write replaces the captured value, the value held after a series of writes is the last write. |
| EncoderHelpers.SimpleEncoder.constructor | Sources/AdvancedCodableHelpers/extension/Encoder+AdvanedCodableHelpers.swift:17-21 | A new `_SimpleEncoder` holds no value. |
| EncoderHelpers.SimpleEncoder.EncodeNil | Sources/AdvancedCodableHelpers/extension/Encoder+AdvanedCodableHelpers.swift:67-69 | `encodeNil` resets the captured value to nil. |
| EncoderHelpers.SimpleEncoder.Encode | Sources/AdvancedCodableHelpers/extension/Encoder+AdvanedCodableHelpers.swift:232-234 | `encode` overwrites the captured value. |
| EncoderHelpers.SimpleEncoder.Run | Sources/AdvancedCodableHelpers/extension/Encoder+AdvanedCodableHelpers.swift:32-46 | A value that opens a keyed or an unkeyed container fails as unsupported and leaves the captured value unchanged. Otherwise the captured value is the last of its single value writes. |
| EncoderHelpers.Encoder.EncodeToSingleOrArray | Sources/AdvancedCodableHelpers/extension/Encoder+AdvanedCodableHelpers.swift:254-267 | Exactly one element is written bare and gives `.single`. Any other count, zero included, writes an unkeyed container of all elements in order and gives `.array`. |
| EncoderHelpers.Encoder.EncodeAnyDictionary | Sources/AdvancedCodableHelpers/extension/Encoder+AdvanedCodableHelpers.swift:368-371 | The top-level keyed container holds what `_encodeAnyDictionary` writes. The call succeeds iff the tree is accepted. |
| EncoderHelpers.Encoder.EncodeAnyDictionaryIfPresent | Sources/AdvancedCodableHelpers/extension/Encoder+AdvanedCodableHelpers.swift:380-384 | For nil: returns false and writes nothing. Otherwise: returns true after `encodeAnyDictionary`. |
| EncoderHelpers.Encoder.EncodeArray | Sources/AdvancedCodableHelpers/extension/Encoder+AdvanedCodableHelpers.swift:393-396 | The top-level unkeyed container holds what `_encodeAnyArray` writes. The call succeeds iff the array is accepted. |
| EncoderHelpers.Encoder.EncodeArrayIfPresent | Sources/AdvancedCodableHelpers/extension/Encoder+AdvanedCodableHelpers.swift:407-411 | For nil: returns false and writes nothing. Otherwise: returns true after `encode`. |
| EncoderHelpers.Encoder.DynamicElementEncoding | Sources/AdvancedCodableHelpers/extension/Encoder+AdvanedCodableHelpers.swift:305-362 | The record loop leaves in the top-level keyed container exactly the entries of the reference run over the records, and returns its error. The properties of that run are proved in the lemmas below. |
| EncoderHelpers.CodingKeysMatch | Sources/AdvancedCodableHelpers/extension/Encoder+AdvanedCodableHelpers.swift:275-281 | True iff the paths have equal length and equal `stringValue` at every index, that is, iff their string forms are equal. |
| EncoderHelpers.PathsOfDifferentLengthDiffer | Sources/AdvancedCodableHelpers/extension/Encoder+AdvanedCodableHelpers.swift:276 | Paths of different lengths never match. |
| EncoderHelpers.CoercionUsesLastWrite | Sources/AdvancedCodableHelpers/extension/Encoder+AdvanedCodableHelpers.swift:319-338 | A String key field is used as is. Any other value gives the last String written to a `_SimpleEncoder`; no write, a final nil or a non-String is a type mismatch at the field's path. |
| EncoderHelpers.CoerceInterceptedValue | Sources/AdvancedCodableHelpers/extension/Encoder+AdvanedCodableHelpers.swift:319-338 | Running the value through a fresh `_SimpleEncoder` at the container's path gives exactly the coercion above. |
| EncoderHelpers.WithoutKeyField | Sources/AdvancedCodableHelpers/extension/Encoder+AdvanedCodableHelpers.swift:346 | The fields kept from a record are among its writes, none of them a key field. |
| EncoderHelpers.NestedWritesPassThrough | Sources/AdvancedCodableHelpers/extension/Encoder+AdvanedCodableHelpers.swift:318 | A write inside a nested container is never intercepted, even one under `elementKey`. Its path is longer than the outer container's, so it is written through and the record's name is untouched. |
| EncoderHelpers.TopLevelEmission | Sources/AdvancedCodableHelpers/extension/Encoder+AdvanedCodableHelpers.swift:315-351 | When no coercion fails, a record's fields are its writes without the key fields, with nested containers in full. Its name is the first key field, coerced. |
| EncoderHelpers.EncodeRecord | Sources/AdvancedCodableHelpers/extension/Encoder+AdvanedCodableHelpers.swift:354-360 | One record adds at most one entry. A record that succeeds adds exactly one, a keyed container. |
| EncoderHelpers.RecordEntry | Sources/AdvancedCodableHelpers/extension/Encoder+AdvanedCodableHelpers.swift:340-360 | A record succeeds iff no coercion fails and it has a key field. It then adds one entry under its name, holding its writes without the key field. |
| EncoderHelpers.RecordsWritesCorrect | Sources/AdvancedCodableHelpers/extension/Encoder+AdvanedCodableHelpers.swift:309-361 | The run succeeds iff every record does. It then adds exactly one entry per record, in record order. |
| EncoderHelpers.RecordWithoutKeyField | Sources/AdvancedCodableHelpers/extension/Encoder+AdvanedCodableHelpers.swift:357-360 | A record that never writes its key field fails with `realContainerNotSet` and adds nothing. |
| Readers.KeyedReader.AllKeys | Sources/AdvancedCodableHelpers/extension/Decoder+AdvanedCodableHelpers.swift:70 | `allKeys` is the container's keys, one per entry, in order. |
| Readers.KeyedReader.Lookup | Sources/AdvancedCodableHelpers/extension/Decoder+AdvanedCodableHelpers.swift:74-75 | An injected key reads as the injected String. Every other key reads the container's own entry. |
| Readers.KeyedReader.NestedKeyed | Sources/AdvancedCodableHelpers/extension/Decoder+AdvanedCodableHelpers.swift:71-72 | `nestedContainer(forKey:)` succeeds iff the key holds a keyed container. The nested container's path ends in the key. A missing key is `keyNotFound`. |
| Readers.KeyedReader.NestedUnkeyed | Sources/AdvancedCodableHelpers/extension/KeyedDecodingContainerProtocol+AdvancedCodableHelpers.swift:35 | `nestedUnkeyedContainer(forKey:)` succeeds iff the key holds an unkeyed container, and gives its elements. A missing key is `keyNotFound`. |
| Readers.UnkeyedReader.SuperDecoder | Sources/AdvancedCodableHelpers/extension/UnkeyedDecodingContainer+AdvancedCodingHelpers.swift:17 | `superDecoder()` gives the next element at its indexed path and consumes exactly it. At the end it fails and consumes nothing. |
| Readers.UnkeyedReader.NestedUnkeyedContainer | Sources/AdvancedCodableHelpers/extension/UnkeyedDecodingContainer+AdvancedCodingHelpers.swift:32 | The next element, if it is an array, is opened as a fresh container at index 0 and consumed. Otherwise an error is raised and nothing is consumed. |
| WrappedKeyedDecoders.Appending | Sources/AdvancedCodableHelpers/wrapped/WrappedKeyedDecoder.swift:20-22 | `appending(keys)` maps every container path `p` to `p + keys`. |
| WrappedKeyedDecoders.Overriding | Sources/AdvancedCodableHelpers/wrapped/WrappedKeyedDecoder.swift:24-26 | `overriding(keys)` maps every container path to `keys`. |
| WrappedKeyedDecoders.UpdateKeepsPrefix | Sources/AdvancedCodableHelpers/wrapped/WrappedKeyedDecoder.swift:28-37 | `.none` and `.append` keep the container path as a prefix, and `.append` adds exactly its keys. `.override` ignores the container path. |
| WrappedKeyedDecoders.AppendingComposes | Sources/AdvancedCodableHelpers/wrapped/WrappedKeyedDecoder.swift:20-37 | Appending `a` and then `b` is appending `a + b`. |
| WrappedKeyedDecoders.WrappedKeyedDecoder.UserInfo | Sources/AdvancedCodableHelpers/wrapped/WrappedKeyedDecoder.swift:40 | `userInfo` is empty. |
| WrappedKeyedDecoders.WrappedKeyedDecoder.Container | Sources/AdvancedCodableHelpers/wrapped/WrappedKeyedDecoder.swift:55-58 | `container(keyedBy:)` always gives a view of the same wrapped container. |
| WrappedKeyedDecoders.WrappedKeyedDecoder.UnkeyedContainer | Sources/AdvancedCodableHelpers/wrapped/WrappedKeyedDecoder.swift:60-62 | `unkeyedContainer()` is unsupported. |
| WrappedKeyedDecoders.WrappedKeyedDecoder.SingleValueContainer | Sources/AdvancedCodableHelpers/wrapped/WrappedKeyedDecoder.swift:64-66 | `singleValueContainer()` is unsupported. |
| WrappedKeyedDecoders.WrapKeyed | Sources/AdvancedCodableHelpers/wrapped/WrappedKeyedDecoder.swift:44-48 | The coding path is fixed at construction: the modifier applied to the container's path, or the container's own path when the modifier is `.none`. |
| WrappedKeyedDecoders.WrapKeyedContainer | Sources/AdvancedCodableHelpers/wrapped/WrappedKeyedDecoder.swift:50-53 | The generic initialiser uses the container's own path. It is the `.none` case of the other initialiser. |
| WrappedSingleValueDecoders.WrappedSingleValueDecoder.UserInfo | Sources/AdvancedCodableHelpers/wrapped/WrappedSingleValueDecoder.swift:40 | `userInfo` is empty. |
| WrappedSingleValueDecoders.WrappedSingleValueDecoder.Container | Sources/AdvancedCodableHelpers/wrapped/WrappedSingleValueDecoder.swift:50-53 | `container(keyedBy:)` is unsupported. |
| WrappedSingleValueDecoders.WrappedSingleValueDecoder.UnkeyedContainer | Sources/AdvancedCodableHelpers/wrapped/WrappedSingleValueDecoder.swift:55-58 | `unkeyedContainer()` is unsupported. |
| WrappedSingleValueDecoders.WrappedSingleValueDecoder.SingleValueContainer | Sources/AdvancedCodableHelpers/wrapped/WrappedSingleValueDecoder.swift:60-62 | `singleValueContainer()` is the wrapped container itself. |
| WrappedSingleValueDecoders.WrapSingle | Sources/AdvancedCodableHelpers/wrapped/WrappedSingleValueDecoder.swift:28-48 | The coding path is the modifier applied to the container's path. The single value decoder's `update` gives the same path as the keyed decoder's. |
| KeyedToSingle.KeyedToSingleValueContainer.DecodeNil | Sources/AdvancedCodableHelpers/wrapped/WrappedKeyedToSingleValueDecodingContainer.swift:26-28 | `decodeNil()` is always false. |
| KeyedToSingle.KeyedToSingleValueContainer.DecodePrimitive | Sources/AdvancedCodableHelpers/wrapped/WrappedKeyedToSingleValueDecodingContainer.swift:30-90 | Every primitive `decode` (Bool, String, Double, Float, all Int and UInt widths) is a type mismatch at the adapter's coding path. |
| KeyedToSingle.KeyedToSingleValueContainer.InnerDecoder | Sources/AdvancedCodableHelpers/wrapped/WrappedKeyedToSingleValueDecodingContainer.swift:92-94 | A generic `decode` builds its value from a keyed decoder over the same wrapped container. That decoder supports only keyed reads. |
| KeyedToSingle.MakeKeyedToSingle | Sources/AdvancedCodableHelpers/wrapped/WrappedKeyedToSingleValueDecodingContainer.swift:18-24 | The coding path is the custom path if one is given, else the container's. Repackaging is disabled iff no custom path was given or its string form equals the container's. |
| KeyedToSingle.AdapterReadsOnlyThroughKeyedDecoder | Sources/AdvancedCodableHelpers/wrapped/WrappedKeyedToSingleValueDecodingContainer.swift:26-94 | An adapter never reads nil and rejects every primitive at its own path. A keyed read through `decode` sees the wrapped container. |
| UnkeyedDecoding.DecodeAllCorrect | Sources/AdvancedCodableHelpers/extension/UnkeyedDecodingContainer+AdvancedCodingHelpers.swift:31-40 | Draining succeeds iff the closure succeeds on every remaining element. It then returns one result per element, in order; otherwise the error of the first element the closure rejects. |
| UnkeyedDecoding.DrainElements | Sources/AdvancedCodableHelpers/extension/UnkeyedDecodingContainer+AdvancedCodingHelpers.swift:33-40 | The `while !isAtEnd` loop gives exactly the reference drain of the remaining elements. On success the container is at its end. |
| UnkeyedDecoding.Decode | Sources/AdvancedCodableHelpers/extension/UnkeyedDecodingContainer+AdvancedCodingHelpers.swift:15-18 | The next element's decoder goes to the closure and exactly one element is consumed. At the end nothing is consumed and `valueNotFound` is raised. |
| UnkeyedDecoding.DecodeIfPresent | Sources/AdvancedCodableHelpers/extension/UnkeyedDecodingContainer+AdvancedCodingHelpers.swift:23-26 | At the end: nil, with nothing consumed and no closure call. Otherwise: what `decode` gives. |
| UnkeyedDecoding.DecodeArray | Sources/AdvancedCodableHelpers/extension/UnkeyedDecodingContainer+AdvancedCodingHelpers.swift:31-41 | The next element is opened as one nested unkeyed container and drained in order. A next element that is not an array fails without being consumed. |
| UnkeyedDecoding.DecodeArrayIfPresent | Sources/AdvancedCodableHelpers/extension/UnkeyedDecodingContainer+AdvancedCodingHelpers.swift:46-49 | At the end: nil, with nothing consumed. Otherwise the next element decides. An array is consumed and gives the closure's results over its elements, in order, or the first element error. Null gives `valueNotFound` and any other document a type mismatch, at the element's path, with nothing consumed. |
| KeyedDecoding.PreKeyedReadsAtKey | Sources/AdvancedCodableHelpers/extension/KeyedDecodingContainerProtocol+AdvancedCodableHelpers.swift:16-18 | The decoder handed to the closure opens every container over the value at the key, at the key's path. A missing key makes each container fail with `keyNotFound` at that path. |
| KeyedDecoding.DecodeScalarAtKey | Sources/AdvancedCodableHelpers/extension/KeyedDecodingContainerProtocol+AdvancedCodableHelpers.swift:16-26 | Decoding a primitive at a key gives the scalar stored there. A missing key gives `keyNotFound` (nil from `decodeIfPresent`), and a non-scalar a type mismatch. |
| KeyedDecoding.DecodeIfPresent | Sources/AdvancedCodableHelpers/extension/KeyedDecodingContainerProtocol+AdvancedCodableHelpers.swift:24-27 | An absent key gives nil. A present key gives `decode`'s value, wrapped, or its error. |
| KeyedDecoding.DecodeIfPresentAgrees | Sources/AdvancedCodableHelpers/extension/KeyedDecodingContainerProtocol+AdvancedCodableHelpers.swift:24-27 | For an absent key, the result is nil whatever the closure, so the closure is not consulted. For a present key, the result is exactly `decode`'s value or error. |
| KeyedDecoding.DecodeArray | Sources/AdvancedCodableHelpers/extension/KeyedDecodingContainerProtocol+AdvancedCodableHelpers.swift:34-45 | The array at the key is drained with one closure call per element, in order. It succeeds iff every element decodes, with as many results as elements. An empty array gives an empty list, and an unopenable key gives its error. |
| KeyedDecoding.DecodeArrayIfPresent | Sources/AdvancedCodableHelpers/extension/KeyedDecodingContainerProtocol+AdvancedCodableHelpers.swift:52-55 | An absent key gives nil. Otherwise: the array form's list or error. |
| DecoderHelpers.DecodeFromSingleOrArray | Sources/AdvancedCodableHelpers/extension/Decoder+AdvanedCodableHelpers.swift:21-39 | The method gives exactly the reference outcome: the single value attempt, its failure swallowed, then the unkeyed path. |
| DecoderHelpers.DecodeFromSingleOrArrayAsWritten | Sources/AdvancedCodableHelpers/extension/Decoder+AdvanedCodableHelpers.swift:21-39 | The method as written: the loop tests a container copy that never advances, while the closure reads through the wrapped copy. It gives the as-written reference outcome. |
| DecoderHelpers.AsWrittenRejectsNonEmptyArrays | Sources/AdvancedCodableHelpers/extension/Decoder+AdvanedCodableHelpers.swift:28-35 | As written, the unkeyed path fails on every non-empty array. When every element decodes, it fails with `valueNotFound` one past the end, where the intended result is a list. Empty arrays agree. |
| DecoderHelpers.AsWrittenLosesOneElementArray | Sources/AdvancedCodableHelpers/extension/Decoder+AdvanedCodableHelpers.swift:28-35 | For the array `[1]` and a scalar closure, the intended decode gives `[1]`; as written it fails with `valueNotFound` at index 1. |
| DecoderHelpers.SingleOrArrayDecodedCorrect | Sources/AdvancedCodableHelpers/extension/Decoder+AdvanedCodableHelpers.swift:24-37 | A successful single value attempt gives a one-element list. Any recoverable failure of it is swallowed, and the unkeyed path decides. That path succeeds iff every element decodes, and returns one result per element in order. Its own errors propagate. |
| DecoderHelpers.RecordView | Sources/AdvancedCodableHelpers/extension/Decoder+AdvanedCodableHelpers.swift:74-76 | The decoder handed to the closure is keyed, over the nested container at the record's path. `elementKey` reads as the record's outer key string, and every other key reads the nested container. |
| DecoderHelpers.DecodeKeysCorrect | Sources/AdvancedCodableHelpers/extension/Decoder+AdvanedCodableHelpers.swift:70-80 | The `for key in allKeys` loop succeeds iff every key succeeds, giving exactly one result per key in key order. Otherwise it gives the error of the first failing key. |
| DecoderHelpers.RecordsDecodedCorrect | Sources/AdvancedCodableHelpers/extension/Decoder+AdvanedCodableHelpers.swift:70-80 | Over an opened keyed container, the loop succeeds iff every record decodes. It then gives one element per entry, in entry order; otherwise it gives no list. |
| DecoderHelpers.ElementsDecodedCorrect | Sources/AdvancedCodableHelpers/extension/Decoder+AdvanedCodableHelpers.swift:65-83 | A keyed container that cannot be opened fails the call. Otherwise the result has one element per key of `allKeys`, in that order: the closure's result on the record at that key. Any error aborts the call with no partial list. |
| DecoderHelpers.DynamicElementDecoding | Sources/AdvancedCodableHelpers/extension/Decoder+AdvanedCodableHelpers.swift:65-83 | The loop gives exactly the reference outcome above. |
| FilteredUnkeyed.Gate | Sources/AdvancedCodableHelpers/filtered/FilteredUnkeyedEncodingContainer.swift:25-119 | A gated write adds the value iff the filter returns true. Otherwise nothing changes. A throwing filter's error is passed on, with nothing written. |
| FilteredUnkeyed.GateCount | Sources/AdvancedCodableHelpers/filtered/FilteredUnkeyedEncodingContainer.swift:18 | `count`, the wrapped container's, grows by one exactly when a write is allowed. |
| FilteredUnkeyed.FilteredUnkeyedEncodingContainer.constructor | Sources/AdvancedCodableHelpers/filtered/FilteredUnkeyedEncodingContainer.swift:20-23 | The coding path is taken from the wrapped container. The root and the filter are kept. |
| FilteredUnkeyed.FilteredUnkeyedEncodingContainer.Root | Sources/AdvancedCodableHelpers/filtered/FilteredUnkeyedEncodingContainer.swift:123 | The root handed on is `rootContainer ?? self`. |
| FilteredUnkeyed.FilteredUnkeyedEncodingContainer.EncodeNil | Sources/AdvancedCodableHelpers/filtered/FilteredUnkeyedEncodingContainer.swift:25-29 | The filter is asked with no value. A null is written exactly when it allows the write. |
| FilteredUnkeyed.FilteredUnkeyedEncodingContainer.Encode | Sources/AdvancedCodableHelpers/filtered/FilteredUnkeyedEncodingContainer.swift:31-119 | The filter is asked with the value. The value is written exactly when it allows the write. |
| FilteredUnkeyed.FilteredUnkeyedEncodingContainer.NestedContainer | Sources/AdvancedCodableHelpers/filtered/FilteredUnkeyedEncodingContainer.swift:121-125 | The nested keyed container takes the next slot. It carries the same filter and this container's root. |
| FilteredUnkeyed.FilteredUnkeyedEncodingContainer.NestedUnkeyedContainer | Sources/AdvancedCodableHelpers/filtered/FilteredUnkeyedEncodingContainer.swift:127-131 | The nested filtered unkeyed container takes the next slot. It carries the same filter and the same root, and its path ends in the next index. |
| FilteredUnkeyed.FilteredUnkeyedEncodingContainer.EncodeThroughSuperEncoder | Sources/AdvancedCodableHelpers/filtered/FilteredUnkeyedEncodingContainer.swift:133-135 | A write through `superEncoder()` bypasses the filter. |
| ContainedDictionary.SelectHook | Sources/AdvancedCodableHelpers/codable/ContainedCodableDictionary.swift:16-20 | A `userInfo` hook of the exact function type replaces the default. The default gives nil for every decoder. |
| ContainedDictionary.SelectExcludingKeys | Sources/AdvancedCodableHelpers/codable/ContainedCodableDictionary.swift:21-26 | A `[CodableKey]` list is used as is. Otherwise a list of the dictionary's key type is mapped through `dynamicCodingKey`. Otherwise nothing is excluded. |
| ContainedDictionary.DecodeContained | Sources/AdvancedCodableHelpers/codable/ContainedCodableDictionary.swift:15-33 | An unopenable keyed container fails the call. Otherwise the remapped entries, with the selected exclusions and hook, are re-encapsulated. A remapping error propagates. |
| ContainedDictionary.DefaultsWithoutUserInfo | Sources/AdvancedCodableHelpers/codable/ContainedCodableDictionary.swift:16-26 | Without a hook the remapping sees nil everywhere. A key list of the wrong key type excludes nothing. |
| ContainedDictionary.CodableKeyListIgnoresKind | Sources/AdvancedCodableHelpers/codable/ContainedCodableDictionary.swift:22-26 | A `[CodableKey]` list takes precedence: the dictionary's key type plays no part. |
| AnyEquatable.Equals | Tests/AdvancedCodableHelpersTests/AnyHelpers/AnyEquatable.swift:26-42 | A Bool on either side equals an Int iff the Int is 1 for true and 0 for false. A value of any other type equals only a value of its own type that is `==` to it. |
| AnyEquatable.EqualsIsEquivalence | Tests/AdvancedCodableHelpersTests/AnyHelpers/AnyEquatable.swift:29-38 | The comparison is reflexive, symmetric and transitive. |
| AnyEquatable.BoolEqualsOnlyItsInt | Tests/AdvancedCodableHelpersTests/AnyHelpers/AnyEquatable.swift:29-38 | A Bool equals exactly itself and its 0/1 Int. |
| AnyEquatable.IntBeyondBoolsEqualsOnlyItself | Tests/AdvancedCodableHelpersTests/AnyHelpers/AnyEquatable.swift:33-38 | An Int other than 0 and 1 equals only itself. |
| RoundTrips.SingleOrArrayRoundTrip | Sources/AdvancedCodableHelpers/extension/Encoder+AdvanedCodableHelpers.swift:254-267 | `encodeToSingleOrArray` followed by `decodeFromSingleOrArray` gives back any list of scalars, one element included. |
| RoundTrips.KeyedArrayRoundTrip | Sources/AdvancedCodableHelpers/extension/KeyedDecodingContainerProtocol+AdvancedCodableHelpers.swift:34-45 | `encodeAnyArray(_:forKey:)` followed by the keyed array decode gives back the scalars in order. |
| RoundTrips.KeyFieldsHideOnlyTheirKey | Sources/AdvancedCodableHelpers/extension/Encoder+AdvanedCodableHelpers.swift:340-349 | Leaving out a record's key fields changes what is read at no other key. |
| RoundTrips.DynamicElementRoundTrip | Tests/AdvancedCodableHelpersTests/AdvancedCodableHelpersTests.swift:198-244 | Take records that all encode and have distinct names. Encoding them, then decoding, gives one decoder per record, in record order. Each reads its record's name at the element key and the record's own writes at every other key. |

## Left out

- I/O, JSON and property-list encoding, `Data`, and the
  `EncoderType`/`DecoderType` wrappers are not modelled. Floating point
  values, dates and data are opaque scalar tokens.
- Swift's dictionary iteration order is unspecified. The model takes it
  as the order of an input sequence.
- `BasicCodableHelpers` is not part of this model. Its index key is
  taken to read `"Index i"`, and a Bool dictionary key to read
  `"true"`/`"false"`.
- `ContainedCodableDictionary.encode(to:)` (its `_encodeDictionary`),
  `ContainedCodableArray`, `decodeAndRemapDictionary`, `decodeAnyArray` and
  `reencapsulate` are not part of this model. The remapping and
  re-encapsulation are parameters of `DecodeContained`.
- ContainedDictionary.DecodeContained: does not show that excluded keys
  are absent from the result. That depends on the remapping, which is
  not part of this model.
- `FilteredDelayedKeyedEncodingContainer`, `WrappedKeyedEncoder` and
  `FilteredEncodingContainer` are not part of this model.
  `dynamicElementEncoding` is modelled by its effect: the record's
  top-level writes, filtered, become one entry under the intercepted
  name.
- EncoderHelpers.Encoder.DynamicElementEncoding: a second key field in
  the same record keeps the first name, since the behaviour of a second
  `initializeContainer` is not visible. Fields are kept in write order,
  whether they come before or after the key field.
- Errors thrown by a value's own `encode(to:)` are not modelled. Such a
  value writes its document and cannot fail, except through the
  `_SimpleEncoder`'s unsupported containers.
- `WrappedPreKeyedDecoder` is not part of this model beyond reading
  the value at its key. Its containers are the ones nested at that key.
- `WrappedInjectedKeyedDecodingContainer` is modelled as the injection of
  a `KeyedReader`. `allKeys` ignores the injection.
- DecoderHelpers.DecodeFromSingleOrArray: `WrappedUnkeyedDecoder` is not
  part of this model. Each closure call on the unkeyed path is taken to
  receive one element's decoder and to consume that element. This also
  excludes the non-terminating loop of a closure that consumes nothing.
  The loop stops when the wrapped decoder's container is at its end, as
  evidently intended; the loop as written is under "## Findings".
- The typed `dynamicElementDecoding(_:usingKey:)` overload is
  `DynamicElementDecoding` with `Element.init(from:)` as the closure. It
  has no member of its own.
- FilteredUnkeyed.FilteredUnkeyedEncodingContainer.NestedContainer: the
  nested container is a fresh writer plus a placeholder in the parent,
  not a live view. Later writes into it are not reflected in the parent.
  The same holds for `NestedUnkeyedContainer`.
- FilteredUnkeyed.FilteredUnkeyedEncodingContainer.Encode: every overload
  (Bool, String, the numeric types, generic `Encodable`) is one method on
  the value's document. The filter is asked with method name
  `"encode(_:)"`, which all the overloads share.
- `canEncode` is a parameter: `FilteredEncodingContainer` is not part of
  this model. The root container, the same for every container of one
  filtered tree, is folded into that function, not passed as an argument.
- ContainerWriters.SingleWriter.EncodeAnyDictionary: requires an empty
  single value container, because a single value container is written
  once. The same holds for the other `SingleWriter` methods.
- EncoderHelpers.Encoder.EncodeAnyDictionary: models only a fresh
  encoder, one with no container requested yet. In the source a keyed or
  unkeyed container can be requested again, and later writes add to the
  earlier ones; that case is not modelled. The same holds for
  `EncodeAnyDictionaryIfPresent`, `EncodeArray`, `EncodeArrayIfPresent`,
  `EncodeToSingleOrArray` and `DynamicElementEncoding`.
- EncoderHelpers.FieldWrite: a record's writes through
  `nestedUnkeyedContainer(forKey:)` and `superEncoder(forKey:)` have no
  constructor. Records that write through them are not modelled, and
  neither is the filtering of their contents.
- `userInfo` contents are modelled only for `ContainedCodableDictionary`.
  The wrapping decoders' `userInfo` is always empty.
- RoundTrips.DynamicElementRoundTrip: requires the records' names to be
  distinct, and shows what each decoder reads rather than rebuilding the
  record. The record type's own `init(from:)` and the sort before
  comparison are test code. "In record order" holds only because a keyed
  document here is an ordered write log; a dictionary-backed encoder
  promises no order, which is why the test sorts. A record that writes
  the same key twice reads its first write here, where a dictionary
  encoder keeps the last.
- AnyEquatable.Equals: values of the same non-Bool, non-Int type compare
  by structural equality of the model. Foundation's `NSNumber` bridging of
  Bool and Int is not modelled.
- The dictionary and polymorphic-class round trips of the package's tests
  go through `decodeAndRemapDictionary` and the class types' own coding,
  which are not part of this model. The scalar and keyed array round trips
  stand in for their shape.

## Findings

| source | as written | input that shows it | evidently intended | confidence | as-written member | corrected member |
|---|---|---|---|---|---|---|
| Sources/AdvancedCodableHelpers/extension/Decoder+AdvanedCodableHelpers.swift:28-35 | `container` is bound with `let` and copied into `WrappedUnkeyedDecoder`; the loop tests `container.isAtEnd`, which the closure's reads through the copy never change | the array `[1]`, read by a closure that decodes one `Int`: the closure runs once more past the end and `valueNotFound` is thrown instead of returning `[1]` | loop until the wrapped decoder's container is at its end, returning one element per array entry | medium, not executed; holds when the container is a value type, as Foundation's JSON and property-list unkeyed containers are | DecoderHelpers.DecodeFromSingleOrArrayAsWritten, DecoderHelpers.AsWrittenLosesOneElementArray | DecoderHelpers.DecodeFromSingleOrArray |
