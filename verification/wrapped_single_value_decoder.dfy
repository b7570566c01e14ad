/**
 * `WrappedSingleValueDecoder`: a decoder over a single value decoding
 * container. Only its single value container is supported.
 */
module WrappedSingleValueDecoders {
  import opened Coding
  import opened Readers
  import opened WrappedKeyedDecoders

  /** A `WrappedSingleValueDecoder`: the wrapped container and the fixed
      coding path. Its `userInfo` starts empty. */
  datatype WrappedSingleValueDecoder = WrappedSingleValueDecoder(container: SingleReader, codingPath: Path)
  {
    function UserInfo<K(==), V>(): (r: map<K, V>)
      ensures r == map[]
    {
      map[]
    }

    /** `container(keyedBy:)`: unsupported. */
    function Container(): (r: Result<KeyedReader>)
      ensures r == Err(Unsupported)
    {
      Err(Unsupported)
    }

    /** `unkeyedContainer()`: unsupported. */
    function UnkeyedContainer(): (r: Result<(Path, seq<Doc>)>)
      ensures r == Err(Unsupported)
    {
      Err(Unsupported)
    }

    /** `singleValueContainer()`: the wrapped container itself. */
    function SingleValueContainer(): (r: Result<SingleReader>)
      ensures r == Ok(container)
    {
      Ok(container)
    }
  }

  /** `init(_:codingPathModifier:)`: the modifier applied to the single
      value container's path, exactly as for the keyed decoder. */
  function WrapSingle(container: SingleReader, modifier: ModifyCodingPath): (d: WrappedSingleValueDecoder)
    ensures d.container == container
    ensures d.codingPath == modifier.Update(container.path)
    ensures d.codingPath == WrapKeyed(KeyedReader(container.path, [], None), modifier).codingPath
  {
    WrappedSingleValueDecoder(container, modifier.Update(container.path))
  }
}
