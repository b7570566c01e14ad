/**
 * The decoders a decoding closure is handed, and the containers each one
 * gives out. `Plain` is an ordinary decoder over a document (the top-level
 * decoder, or a `superDecoder()`); the two wrapped decoders are modelled in
 * their own modules; `PreKeyed` is a `WrappedPreKeyedDecoder`, which is not
 * part of this model beyond reading the value at its key.
 */
module Decoders {
  import opened Coding
  import opened Readers
  import opened WrappedKeyedDecoders
  import opened WrappedSingleValueDecoders

  datatype Decoder =
    | Plain(path: Path, doc: Doc)
    | WrappedKeyed(keyed: WrappedKeyedDecoder)
    | WrappedSingle(single: WrappedSingleValueDecoder)
    | PreKeyed(parent: KeyedReader, preKey: Key)

  /** `container(keyedBy:)`. */
  function KeyedContainerOf(d: Decoder): Result<KeyedReader> {
    match d
    case Plain(p, doc) =>
      (match doc
       case Keyed(es) => Ok(KeyedReader(p, es, None))
       case Null => Err(ValueNotFound(p))
       case _ => Err(TypeMismatch(p)))
    case WrappedKeyed(w) => w.Container()
    case WrappedSingle(s) => s.Container()
    case PreKeyed(c, k) => c.NestedKeyed(k)
  }

  /** `unkeyedContainer()`, as the path and elements of the container. */
  function UnkeyedContainerOf(d: Decoder): Result<(Path, seq<Doc>)> {
    match d
    case Plain(p, doc) =>
      (match doc
       case Unkeyed(xs) => Ok((p, xs))
       case Null => Err(ValueNotFound(p))
       case _ => Err(TypeMismatch(p)))
    case WrappedKeyed(w) => w.UnkeyedContainer()
    case WrappedSingle(s) => s.UnkeyedContainer()
    case PreKeyed(c, k) => c.NestedUnkeyed(k)
  }

  /** `singleValueContainer()`. */
  function SingleValueContainerOf(d: Decoder): Result<SingleReader> {
    match d
    case Plain(p, doc) => Ok(SingleReader(p, doc))
    case WrappedKeyed(w) => w.SingleValueContainer()
    case WrappedSingle(s) => s.SingleValueContainer()
    case PreKeyed(c, k) =>
      (match c.Lookup(k)
       case None => Err(KeyNotFound(c.path + [k]))
       case Some(doc) => Ok(SingleReader(c.path + [k], doc)))
  }

  /** A decoding closure that reads one scalar through a single value
      container, as a primitive `Decodable` does. */
  function DecodeScalar(d: Decoder): Result<Token> {
    match SingleValueContainerOf(d)
    case Err(e) => Err(e)
    case Ok(SingleReader(p, doc)) =>
      if doc.Scalar? then Ok(doc.token) else Err(TypeMismatch(p))
  }

  /** The decoder `superDecoder()` gives for an element read from an unkeyed
      container. */
  function ElementDecoder(element: (Path, Doc)): Decoder {
    Plain(element.0, element.1)
  }
}
