/**
 * An Android `Parcel` as the sequence of values written into it. Each slot
 * records the kind of write that produced it; a reader consumes slots from a
 * position and a slot of another kind is a decoding failure.
 */
module Parcels {
  import opened JavaLang

  datatype ParcelValue =
    | PString(s: Option<string>)
    | PInt(i: Int32)
    | PByte(b: int)
    | PLong(l: Int64)
    | PStringList(list: Option<seq<string>>)

  /** `writeByte` keeps the low eight bits of its argument as a signed byte. */
  predicate IsByte(v: ParcelValue)
  {
    v.PByte? && -128 <= v.b < 128
  }
}
