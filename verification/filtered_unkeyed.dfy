/**
 * `FilteredUnkeyedEncodingContainer`: an unkeyed encoding container that
 * asks a filter before every write and passes the write on to the container
 * it wraps only when the filter allows it.
 */
module FilteredUnkeyed {
  import opened Coding
  import opened AnyEncoding
  import opened ContainerWriters

  /** `canEncode(method:value:)` of the filtered container base class: the
      filter's verdict on a write, given the coding path, the calling
      method's name and the value (none for a nil). The filter also sees the
      root container; every container of one filtered tree has the same root
      (see `NestedUnkeyedContainer`), so the root is part of the verdict
      function rather than an argument. */
  type CanEncode = (Path, string, Option<Doc>) -> Result<bool>

  /** The wrapped container's items after a gated write of `d`: written
      when the filter allows it, unchanged when it refuses or throws; a
      thrown error is passed on. */
  function Gate(allowed: Result<bool>, items: seq<Doc>, d: Doc): (r: Written<Doc>)
    ensures r.out == items + [d] <==> allowed == Ok(true)
    ensures allowed != Ok(true) ==> r.out == items
    ensures allowed.Err? ==> r.failure == Some(allowed.error)
    ensures allowed.Ok? ==> r.failure == None
  {
    match allowed
    case Err(e) => Written(items, Some(e))
    case Ok(b) => if b then Written(items + [d], None) else Written(items, None)
  }

  /** Only an allowed write adds an item, so the count a filtered container
      reports grows by one exactly then. */
  lemma GateCount(allowed: Result<bool>, items: seq<Doc>, d: Doc)
    ensures |Gate(allowed, items, d).out| == if allowed == Ok(true) then |items| + 1 else |items|
  {
  }

  /** A filtered keyed container over a nested keyed container. */
  datatype FilteredKeyed = FilteredKeyed(container: KeyedWriter, rootContainer: object, canEncode: CanEncode)

  class FilteredUnkeyedEncodingContainer {
    const container: UnkeyedWriter
    const codingPath: Path
    const rootContainer: object?
    const canEncode: CanEncode

    /** The coding path is the wrapped container's. */
    predicate Valid() {
      codingPath == container.path
    }

    /** `init(_:rootContainer:filter:)`. */
    constructor (container: UnkeyedWriter, rootContainer: object?, canEncode: CanEncode)
      ensures Valid() && this.container == container && this.codingPath == container.path
      ensures this.rootContainer == rootContainer && this.canEncode == canEncode
    {
      this.container := container;
      this.codingPath := container.path;
      this.rootContainer := rootContainer;
      this.canEncode := canEncode;
    }

    /** The root handed to nested containers: `rootContainer ?? self`. */
    function Root(): (r: object)
      ensures rootContainer != null ==> r == rootContainer
      ensures rootContainer == null ==> r == this
    {
      if rootContainer != null then rootContainer else this
    }

    /** `count`: the wrapped container's. */
    function Count(): nat
      reads container
    {
      container.Count()
    }

    /** `encodeNil()`: the filter is asked with no value. */
    method EncodeNil() returns (err: Option<Error>)
      modifies container
      ensures var g := Gate(canEncode(codingPath, "encodeNil()", None), old(container.items), Null);
              container.items == g.out && err == g.failure
    {
      var allowed := canEncode(codingPath, "encodeNil()", None);
      if allowed.Err? {
        return Some(allowed.error);
      }
      if allowed.value {
        container.Encode(Null);
      }
      err := None;
    }

    /** `encode(_:)`, for a primitive (as its scalar document) or any other
        `Encodable` (as the document its own encoding writes). */
    method Encode(d: Doc) returns (err: Option<Error>)
      modifies container
      ensures var g := Gate(canEncode(codingPath, "encode(_:)", Some(d)), old(container.items), d);
              container.items == g.out && err == g.failure
    {
      var allowed := canEncode(codingPath, "encode(_:)", Some(d));
      if allowed.Err? {
        return Some(allowed.error);
      }
      if allowed.value {
        container.Encode(d);
      }
      err := None;
    }

    /** `nestedContainer(keyedBy:)`: a fresh keyed container in the next
        slot of the wrapped one, filtered with the same filter and this
        container's root. */
    method NestedContainer() returns (n: FilteredKeyed)
      requires Valid()
      modifies container
      ensures fresh(n.container) && n.container.entries == []
      ensures n.container.path == codingPath + [IndexKey(|old(container.items)|)]
      ensures n.rootContainer == Root() && n.canEncode == canEncode
      ensures container.items == old(container.items) + [Keyed([])]
    {
      var nested := new KeyedWriter(container.path + [IndexKey(|container.items|)]);
      container.Encode(Keyed([]));
      n := FilteredKeyed(nested, Root(), canEncode);
    }

    /** `nestedUnkeyedContainer()`: a fresh filtered unkeyed container in the
        next slot of the wrapped one, with the same filter and this
        container's root. */
    method NestedUnkeyedContainer() returns (n: FilteredUnkeyedEncodingContainer)
      requires Valid()
      modifies container
      ensures fresh(n) && fresh(n.container) && n.container.items == [] && n.Valid()
      ensures n.codingPath == codingPath + [IndexKey(|old(container.items)|)]
      ensures n.rootContainer == Root() && n.canEncode == canEncode
      ensures n.Root() == Root()
      ensures container.items == old(container.items) + [Unkeyed([])]
    {
      var nested := new UnkeyedWriter(container.path + [IndexKey(|container.items|)]);
      container.Encode(Unkeyed([]));
      n := new FilteredUnkeyedEncodingContainer(nested, Root(), canEncode);
    }

    /** A write through `superEncoder()`: the wrapped container's own super
        encoder, which the filter never sees. */
    method EncodeThroughSuperEncoder(d: Doc)
      modifies container
      ensures container.items == old(container.items) + [d]
    {
      container.Encode(d);
    }
  }
}
