/**
 * `ContainedCodableDictionary.init(from:)`: the custom decoding hook and
 * the keys to exclude are taken from the decoder's `userInfo`, then the keyed
 * container is decoded and remapped into an ordered dictionary, which is
 * re-encapsulated into the requested dictionary type.
 */
module ContainedDictionary {
  import opened Coding
  import opened Readers
  import opened Decoders

  /** The `userInfo` keys the initialiser reads, and any other key. */
  datatype UserInfoKey = CustomDecodingKey | ExcludingKeysKey | OtherKey(name: string)

  /** The `userInfo` values the initialiser can cast to: a decoding hook of
      the exact function type, a list of `CodableKey`s, a list of the
      dictionary's own keys (of the key kind given), or anything else. */
  datatype UserInfoValue =
    | DecodingHook(hook: Decoder -> Result<Option<Val>>)
    | CodableKeyList(keys: seq<Key>)
    | DictionaryKeyList(kind: KeyKind, dictKeys: seq<DictKey>)
    | OtherValue

  type UserInfo = map<UserInfoKey, UserInfoValue>

  /** The custom decoding hook: the one in `userInfo` when it has the
      hook's type, else the default, which gives nil for every decoder. */
  function SelectHook(info: UserInfo): (r: Decoder -> Result<Option<Val>>)
    ensures CustomDecodingKey in info && info[CustomDecodingKey].DecodingHook? ==>
              forall d :: r(d) == info[CustomDecodingKey].hook(d)
    ensures !(CustomDecodingKey in info && info[CustomDecodingKey].DecodingHook?) ==>
              forall d :: r(d) == Ok(None)
  {
    if CustomDecodingKey in info && info[CustomDecodingKey].DecodingHook? then info[CustomDecodingKey].hook
    else _ => Ok(None)
  }

  /** The keys to exclude: a `CodableKey` list as it is; else a list of the
      dictionary's own key kind, each through `dynamicCodingKey`; else
      none. */
  function SelectExcludingKeys(info: UserInfo, kind: KeyKind): (r: seq<Key>)
    ensures ExcludingKeysKey in info && info[ExcludingKeysKey].CodableKeyList? ==>
              r == info[ExcludingKeysKey].keys
    ensures ExcludingKeysKey in info && info[ExcludingKeysKey].DictionaryKeyList? && info[ExcludingKeysKey].kind == kind ==>
              var ks := info[ExcludingKeysKey].dictKeys;
              |r| == |ks| && forall i :: 0 <= i < |ks| ==> r[i] == DynamicCodingKey(ks[i])
    ensures !(ExcludingKeysKey in info && (info[ExcludingKeysKey].CodableKeyList? ||
                                            (info[ExcludingKeysKey].DictionaryKeyList? && info[ExcludingKeysKey].kind == kind))) ==>
              r == []
  {
    if ExcludingKeysKey in info && info[ExcludingKeysKey].CodableKeyList? then info[ExcludingKeysKey].keys
    else if ExcludingKeysKey in info && info[ExcludingKeysKey].DictionaryKeyList? && info[ExcludingKeysKey].kind == kind then
      var ks := info[ExcludingKeysKey].dictKeys;
      seq(|ks|, i requires 0 <= i < |ks| => DynamicCodingKey(ks[i]))
    else []
  }

  /** `decodeAndRemapDictionary(excludingKeys:customDecoding:)`, which is
      not part of this model: given the container, the keys to exclude and
      the hook, the ordered entries or an error. */
  type Remap = (KeyedReader, seq<Key>, Decoder -> Result<Option<Val>>) -> Result<seq<(DictKey, Val)>>

  /** `init(from:)`: the hook and the exclusion keys selected from
      `userInfo`, the keyed container opened, then remapped and
      re-encapsulated into the dictionary type `D`. */
  function DecodeContained<D>(d: Decoder, info: UserInfo, kind: KeyKind, remap: Remap,
                              reencapsulate: seq<(DictKey, Val)> -> D): (r: Result<D>)
    ensures KeyedContainerOf(d).Err? ==> r == Err(KeyedContainerOf(d).error)
    ensures KeyedContainerOf(d).Ok? ==>
              var m := remap(KeyedContainerOf(d).value, SelectExcludingKeys(info, kind), SelectHook(info));
              (m.Err? ==> r == Err(m.error)) && (m.Ok? ==> r == Ok(reencapsulate(m.value)))
  {
    match KeyedContainerOf(d)
    case Err(e) => Err(e)
    case Ok(container) =>
      match remap(container, SelectExcludingKeys(info, kind), SelectHook(info))
      case Err(e) => Err(e)
      case Ok(entries) => Ok(reencapsulate(entries))
  }

  /** Without a hook in `userInfo`, whatever the remapping asks of the hook
      is nil; a list of the wrong key kind excludes nothing. */
  lemma DefaultsWithoutUserInfo(info: UserInfo, kind: KeyKind, d: Decoder)
    requires CustomDecodingKey !in info
    requires ExcludingKeysKey in info ==> info[ExcludingKeysKey].DictionaryKeyList? && info[ExcludingKeysKey].kind != kind
    ensures SelectHook(info)(d) == Ok(None)
    ensures SelectExcludingKeys(info, kind) == []
  {
  }

  /** A `CodableKey` list is taken first: when `userInfo` holds one, the
      dictionary's key kind plays no part. */
  lemma CodableKeyListIgnoresKind(info: UserInfo, k1: KeyKind, k2: KeyKind)
    requires ExcludingKeysKey in info && info[ExcludingKeysKey].CodableKeyList?
    ensures SelectExcludingKeys(info, k1) == SelectExcludingKeys(info, k2) == info[ExcludingKeysKey].keys
  {
  }
}
