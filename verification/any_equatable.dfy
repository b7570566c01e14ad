/**
 * `AnyEquatableFromEquatable.equals(_:)`, the comparison the round-trip
 * tests use on decoded values: a Bool and an Int compare through 0 and 1,
 * values of one type compare with that type's `==`, and anything else is
 * unequal.
 */
module AnyEquatable {
  import opened Coding

  /** A value as the comparison sees it: a Bool, an Int, or a value of some
      other `Equatable` type, named, with its contents. */
  datatype AnyValue =
    | BoolValue(b: bool)
    | IntValue(i: int)
    | OtherValue(typeName: string, payload: Doc)

  function BoolAsInt(b: bool): int {
    if b then 1 else 0
  }

  /** `self.equals(value)`. */
  function Equals(self: AnyValue, value: AnyValue): (r: bool)
    ensures self.BoolValue? && value.IntValue? ==> (r <==> value.i == BoolAsInt(self.b))
    ensures self.IntValue? && value.BoolValue? ==> (r <==> self.i == BoolAsInt(value.b))
    ensures r && self.OtherValue? ==> value == self
    ensures r && value.OtherValue? ==> value == self
  {
    if self.BoolValue? && value.IntValue? then BoolAsInt(self.b) == value.i
    else if self.IntValue? && value.BoolValue? then self.i == BoolAsInt(value.b)
    else if self.BoolValue? && value.BoolValue? then self.b == value.b
    else if self.IntValue? && value.IntValue? then self.i == value.i
    else if self.OtherValue? && value.OtherValue? && self.typeName == value.typeName then self == value
    else false
  }

  /** The relation is an equivalence: every value equals itself, the
      Bool/Int rule is symmetric, and it chains. */
  lemma EqualsIsEquivalence(x: AnyValue, y: AnyValue, z: AnyValue)
    ensures Equals(x, x)
    ensures Equals(x, y) <==> Equals(y, x)
    ensures Equals(x, y) && Equals(y, z) ==> Equals(x, z)
  {
  }

  /** The classes it makes: `true` with 1, `false` with 0, every other Int
      alone, and values of other types only with themselves. */
  lemma BoolEqualsOnlyItsInt(b: bool, v: AnyValue)
    ensures Equals(BoolValue(b), v) <==> v == BoolValue(b) || v == IntValue(BoolAsInt(b))
  {
  }

  lemma IntBeyondBoolsEqualsOnlyItself(i: int, v: AnyValue)
    requires i != 0 && i != 1
    ensures Equals(IntValue(i), v) <==> v == IntValue(i)
  {
  }
}
