/**
 * The shared vocabulary of the model: coding keys and paths, the abstract
 * document a structured writer produces and a structured reader walks, the
 * errors the helpers raise, and the closed value tree that replaces the
 * runtime `as?` casts of the "any" encoders.
 */
module Coding {

  datatype Option<+T> = None | Some(value: T)

  /** A coding key: its string form and, for integer keys, its integer form. */
  datatype Key = Key(str: string, num: Option<int>)

  /** A coding path, from the document root to the current container. */
  type Path = seq<Key>

  /** A scalar as a structured writer stores it. Floating point values, dates
      and data blobs are opaque tokens: nothing numeric is said about them. */
  datatype Token =
    | TBool(b: bool)
    | TInt(i: int)
    | TUInt(n: nat)
    | TStr(s: string)
    | TOpaque(tag: nat)

  /** The abstract document: what an encoder writes and a decoder reads.
      A keyed container keeps its entries in the order they were written. */
  datatype Doc =
    | Null
    | Scalar(token: Token)
    | Keyed(entries: seq<(Key, Doc)>)
    | Unkeyed(items: seq<Doc>)

  /** The failures the helpers report. `Unsupported` stands for a
      `fatalError("Unsupported method")`: it is never recovered from. */
  datatype Error =
    | InvalidValue(at: Path)
    | TypeMismatch(at: Path)
    | KeyNotFound(at: Path)
    | ValueNotFound(at: Path)
    | RealContainerNotSet
    | Unsupported
    | Thrown(code: int)

  datatype Result<+T> = Ok(value: T) | Err(error: Error)

  /** The key of a dictionary whose keys are `DictionaryKeyCodable`. */
  datatype DictKey = StrKey(s: string) | BoolKey(b: bool) | IntKey(i: int)

  /** The static key type of a dictionary value. */
  datatype KeyKind = StringKeys | BoolKeys | IntKeys

  /** The three dictionary types the dispatch knows: Swift's `Dictionary`,
      `SCDictionary` and `SCArrayOrderedDictionary`. */
  datatype DictFlavour = SwiftDictionary | ClassDictionary | ClassOrderedDictionary

  /** The two array types the dispatch knows: Swift's `Array` and `SCArray`. */
  datatype ArrayFlavour = SwiftArray | ClassArray

  /** A value of static type `Any` as the encoders see it. `Enc(d)` is any other
      `Encodable`; its own `encode(to:)` writes the document `d`. `Nil` is a
      `Nillable` that is nil. `NotEncodable` matches none of the casts. */
  datatype Val =
    | Dict(flavour: DictFlavour, kind: KeyKind, entries: seq<(DictKey, Val)>)
    | Arr(arrayFlavour: ArrayFlavour, items: seq<Val>)
    | Nil
    | Enc(doc: Doc)
    | NotEncodable

  function DigitChar(d: nat): char
    requires d < 10
  {
    "0123456789"[d]
  }

  /** Decimal rendering of a natural number. */
  function NatToString(n: nat): string
    decreases n
  {
    if n < 10 then [DigitChar(n)] else NatToString(n / 10) + [DigitChar(n % 10)]
  }

  function IntToString(i: int): string {
    if i < 0 then "-" + NatToString(-i) else NatToString(i)
  }

  /** `key.dynamicCodingKey`: the coding key a dictionary key is written under. */
  function DynamicCodingKey(k: DictKey): (r: Key)
    ensures k.StrKey? ==> r.str == k.s && r.num == None
    ensures k.IntKey? ==> r.num == Some(k.i)
  {
    match k
    case StrKey(s) => Key(s, None)
    case BoolKey(b) => Key(if b then "true" else "false", None)
    case IntKey(i) => Key(IntToString(i), Some(i))
  }

  /** The key `codingPath.appending(index:)` adds for position `i` of an
      unkeyed container. */
  function IndexKey(i: nat): Key {
    Key("Index " + NatToString(i), Some(i))
  }

  /** The string forms of a path, element by element. */
  function StringPath(p: Path): (r: seq<string>)
    ensures |r| == |p| && forall i :: 0 <= i < |p| ==> r[i] == p[i].str
  {
    if p == [] then [] else [p[0].str] + StringPath(p[1..])
  }
}
