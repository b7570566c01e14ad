/**
 * `WrappedKeyedDecoder`: a decoder over a keyed decoding container, whose
 * coding path is fixed when it is made, optionally modified.
 */
module WrappedKeyedDecoders {
  import opened Coding
  import opened Readers

  /** How a wrapping decoder derives its coding path from its container's. */
  datatype ModifyCodingPath =
    | NoModification
    | Override(keys: Path)
    | Append(keys: Path)
  {
    /** `update(_:)`, given the container's coding path. */
    function Update(containerPath: Path): Path {
      match this
      case NoModification => containerPath
      case Override(keys) => keys
      case Append(keys) => containerPath + keys
    }
  }

  /** `ModifyCodingPath.appending(_:)`. */
  function Appending(keys: Path): (m: ModifyCodingPath)
    ensures forall p :: m.Update(p) == p + keys
  {
    Append(keys)
  }

  /** `ModifyCodingPath.overriding(_:)`. */
  function Overriding(keys: Path): (m: ModifyCodingPath)
    ensures forall p :: m.Update(p) == keys
  {
    Override(keys)
  }

  /** A modified path keeps the container's path as a prefix unless it is
      overridden, and appending twice is appending both key lists. */
  lemma UpdateKeepsPrefix(m: ModifyCodingPath, p: Path)
    ensures !m.Override? ==> |m.Update(p)| >= |p| && m.Update(p)[..|p|] == p
    ensures m.Append? ==> m.Update(p)[|p|..] == m.keys
    ensures m.Override? ==> forall q :: m.Update(q) == m.Update(p)
  {
  }

  lemma AppendingComposes(a: Path, b: Path, p: Path)
    ensures Appending(b).Update(Appending(a).Update(p)) == Appending(a + b).Update(p)
  {
    assert p + a + b == p + (a + b);
  }

  /** A `WrappedKeyedDecoder`: the wrapped container and the fixed coding
      path. Its `userInfo` starts empty. */
  datatype WrappedKeyedDecoder = WrappedKeyedDecoder(container: KeyedReader, codingPath: Path)
  {
    /** `userInfo`: never populated by the wrapper. */
    function UserInfo<K(==), V>(): (r: map<K, V>)
      ensures r == map[]
    {
      map[]
    }

    /** `container(keyedBy:)`: a view over the same wrapped container. */
    function Container(): (r: Result<KeyedReader>)
      ensures r == Ok(container)
    {
      Ok(container)
    }

    /** `unkeyedContainer()`: unsupported. */
    function UnkeyedContainer(): (r: Result<(Path, seq<Doc>)>)
      ensures r == Err(Unsupported)
    {
      Err(Unsupported)
    }

    /** `singleValueContainer()`: unsupported. */
    function SingleValueContainer(): (r: Result<SingleReader>)
      ensures r == Err(Unsupported)
    {
      Err(Unsupported)
    }
  }

  /** `init(_:codingPathModifier:)`. */
  function WrapKeyed(container: KeyedReader, modifier: ModifyCodingPath): (d: WrappedKeyedDecoder)
    ensures d.container == container
    ensures d.codingPath == modifier.Update(container.path)
    ensures modifier.NoModification? ==> d.codingPath == container.path
  {
    WrappedKeyedDecoder(container, modifier.Update(container.path))
  }

  /** The generic `init(_:)`: the container's own path. */
  function WrapKeyedContainer(container: KeyedReader): (d: WrappedKeyedDecoder)
    ensures d == WrapKeyed(container, NoModification)
    ensures d.codingPath == container.path
  {
    WrappedKeyedDecoder(container, container.path)
  }
}
