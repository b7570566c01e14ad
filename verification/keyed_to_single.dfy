/**
 * `WrappedKeyedToSingleValueDecodingContainer`: a single value container
 * over a keyed container. It holds no primitive: every primitive read is a
 * type mismatch, and any other `Decodable` is built from a keyed decoder over
 * the same keyed container.
 */
module KeyedToSingle {
  import opened Coding
  import opened Readers
  import opened WrappedKeyedDecoders
  import opened Decoders

  /** The primitive types a single value container reads directly. */
  datatype PrimitiveType =
    | BoolType
    | StringType
    | DoubleType
    | FloatType
    | IntType(bits: nat)
    | UIntType(bits: nat)

  datatype KeyedToSingleValueContainer = KeyedToSingleValueContainer(
    container: KeyedReader,
    codingPath: Path,
    disableRepackagingErrors: bool)
  {
    /** `decodeNil()`: a keyed container is never nil. */
    function DecodeNil(): (r: bool)
      ensures !r
    {
      false
    }

    /** `decode(_:)` of a primitive type: a type mismatch at this
        container's coding path. */
    function DecodePrimitive(t: PrimitiveType): (r: Result<Token>)
      ensures r == Err(TypeMismatch(codingPath))
    {
      Err(TypeMismatch(codingPath))
    }

    /** The decoder a non-primitive `decode(_:)` hands to `init(from:)`. */
    function InnerDecoder(): (d: Decoder)
      ensures d.WrappedKeyed? && KeyedContainerOf(d) == Ok(container)
      ensures d.WrappedKeyed? && d.keyed.codingPath == container.path
      ensures SingleValueContainerOf(d) == Err(Unsupported) && UnkeyedContainerOf(d) == Err(Unsupported)
    {
      WrappedKeyed(WrapKeyed(container, NoModification))
    }

    /** `decode(_:)` of any other `Decodable`, given its `init(from:)`. */
    function Decode<T>(init: Decoder -> Result<T>): Result<T> {
      init(InnerDecoder())
    }
  }

  /** `init(_:customCodingPath:)`: the custom path if given, else the
      container's; repackaging is disabled unless a custom path with a
      different string form was given. */
  function MakeKeyedToSingle(container: KeyedReader, customCodingPath: Option<Path>): (r: KeyedToSingleValueContainer)
    ensures r.container == container
    ensures r.codingPath == if customCodingPath.Some? then customCodingPath.value else container.path
    ensures r.disableRepackagingErrors <==>
              customCodingPath.None? || StringPath(customCodingPath.value) == StringPath(container.path)
  {
    KeyedToSingleValueContainer(
      container,
      if customCodingPath.Some? then customCodingPath.value else container.path,
      customCodingPath.None? || StringPath(customCodingPath.value) == StringPath(container.path))
  }

  /** Every primitive read fails at the coding path the adapter was given,
      while a keyed read through a non-primitive `decode` sees the wrapped
      container. */
  lemma AdapterReadsOnlyThroughKeyedDecoder(container: KeyedReader, customCodingPath: Option<Path>, t: PrimitiveType)
    ensures var a := MakeKeyedToSingle(container, customCodingPath);
            !a.DecodeNil() &&
            a.DecodePrimitive(t) == Err(TypeMismatch(if customCodingPath.Some? then customCodingPath.value else container.path)) &&
            a.Decode(KeyedContainerOf) == Ok(container)
  {
  }
}
