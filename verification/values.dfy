/**
 The value domain of the settings store: the four kinds of setting a name can
 hold, and the zero value each kind reads as when a name is absent.
 */
module Values {

  /** Some/None, used for map lookups and for XML attributes that may be missing. */
  datatype Option<+T> = None | Some(value: T) {

    /** The carried value, or `default` when there is none. */
    function GetOr(default: T): T {
      match this
      case Some(v) => v
      case None => default
    }
  }

  /** The store's integers are C++ `int`, 32 bits wide. */
  newtype int32 = x: int | -0x8000_0000 <= x < 0x8000_0000

  /** A single-precision float, kept as its IEEE 754 bit pattern and never
      interpreted: the store only copies float values around. The all-zero
      pattern is +0.0, the value a value-initialised `float` holds. */
  datatype Float32 = Float32(bits: bv32)

  const FloatZero: Float32 := Float32(0)

  /** Which of the four maps a setting lives in. */
  datatype Kind = BoolKind | IntKind | FloatKind | StringKind

  /** A setting's value, tagged with its kind. */
  datatype Value =
    | BoolValue(b: bool)
    | IntValue(i: int32)
    | FloatValue(f: Float32)
    | StringValue(s: string)
  {
    function KindOf(): Kind {
      match this
      case BoolValue(_) => BoolKind
      case IntValue(_) => IntKind
      case FloatValue(_) => FloatKind
      case StringValue(_) => StringKind
    }
  }

  /** What a `std::map<std::string, T>::operator[]` inserts for an absent key:
      false, 0, 0.0 or the empty string. */
  function Zero(k: Kind): (v: Value)
    ensures v.KindOf() == k
  {
    match k
    case BoolKind => BoolValue(false)
    case IntKind => IntValue(0)
    case FloatKind => FloatValue(FloatZero)
    case StringKind => StringValue("")
  }
}
