/**
 * Android `SharedPreferences` as a map from key to a typed value. A typed
 * getter returns its default for a missing key and throws
 * ClassCastException when the key holds a value of another type.
 */
module Preferences {
  import opened JavaLang

  datatype Pref =
    | BoolPref(b: bool)
    | IntPref(i: Int32)
    | LongPref(l: Int64)
    | StringPref(s: string)
    | StringSetPref(ss: set<string>)

  type Store = map<string, Pref>

  const CLASS_CAST: string := "ClassCastException"

  /** `getBoolean(key, def)`. */
  function GetBoolean(p: Store, key: string, def: bool): (r: Result<bool>)
    ensures key !in p ==> r == Ok(def)
    ensures key in p ==> (r.Ok? <==> p[key].BoolPref?)
    ensures key in p && r.Ok? ==> r.value == p[key].b
  {
    if key !in p then Ok(def)
    else match p[key]
      case BoolPref(b) => Ok(b)
      case _ => Thrown(CLASS_CAST)
  }

  /** `getInt(key, def)`. */
  function GetInt(p: Store, key: string, def: Int32): (r: Result<Int32>)
    ensures key !in p ==> r == Ok(def)
    ensures key in p ==> (r.Ok? <==> p[key].IntPref?)
    ensures key in p && r.Ok? ==> r.value == p[key].i
  {
    if key !in p then Ok(def)
    else match p[key]
      case IntPref(i) => Ok(i)
      case _ => Thrown(CLASS_CAST)
  }

  /** `getLong(key, def)`. */
  function GetLong(p: Store, key: string, def: Int64): (r: Result<Int64>)
    ensures key !in p ==> r == Ok(def)
    ensures key in p ==> (r.Ok? <==> p[key].LongPref?)
    ensures key in p && r.Ok? ==> r.value == p[key].l
  {
    if key !in p then Ok(def)
    else match p[key]
      case LongPref(l) => Ok(l)
      case _ => Thrown(CLASS_CAST)
  }

  /** `getString(key, def)`. */
  function GetString(p: Store, key: string, def: Option<string>): (r: Result<Option<string>>)
    ensures key !in p ==> r == Ok(def)
    ensures key in p ==> (r.Ok? <==> p[key].StringPref?)
    ensures key in p && r.Ok? ==> r.value == Some(p[key].s)
  {
    if key !in p then Ok(def)
    else match p[key]
      case StringPref(s) => Ok(Some(s))
      case _ => Thrown(CLASS_CAST)
  }

  /** `putString(key, v)`: storing null removes the key. */
  function PutString(p: Store, key: string, v: Option<string>): (r: Store)
    ensures v.Some? ==> key in r && r[key] == StringPref(v.value)
    ensures v.None? ==> key !in r
    ensures forall k :: k in p && k != key ==> k in r && r[k] == p[k]
    ensures forall k :: k in r && k != key ==> k in p
  {
    match v
    case None => p - {key}
    case Some(s) => p[key := StringPref(s)]
  }

  /** A string written with `putString` reads back with `getString`, whatever the default. */
  lemma PutGetString(p: Store, key: string, v: Option<string>, def: Option<string>)
    requires v.Some?
    ensures GetString(PutString(p, key, v), key, def) == Ok(v)
  {
  }
}
