/**
 * The parsed manifest: the value tree handed over by the JSON parser
 * (json_parse of json.h), with the seven value kinds of RFC 8259 section 3,
 * and the launcher's diagnostic names for those kinds.
 */
module Json {

  /** The kind tag of a JSON value (json_type_t). */
  datatype Kind = KString | KNumber | KObject | KArray | KTrue | KFalse | KNull

  /**
   * A JSON value. Object members keep document order and may repeat a key,
   * as the parser's linked list of members does. Numbers keep their text.
   */
  datatype Value =
    | JString(str: string)
    | JNumber(text: string)
    | JObject(members: seq<(string, Value)>)
    | JArray(elems: seq<Value>)
    | JTrue
    | JFalse
    | JNull

  function KindOf(v: Value): Kind {
    match v
    case JString(_) => KString
    case JNumber(_) => KNumber
    case JObject(_) => KObject
    case JArray(_) => KArray
    case JTrue => KTrue
    case JFalse => KFalse
    case JNull => KNull
  }

  /** The numeric value of each kind in the parser's enumeration. */
  function KindCode(k: Kind): (code: int)
    ensures 0 <= code < 7
  {
    match k
    case KString => 0
    case KNumber => 1
    case KObject => 2
    case KArray => 3
    case KTrue => 4
    case KFalse => 5
    case KNull => 6
  }

  const UnknownTypeName: string := "UNKNOWN_TYPE"

  /**
   * get_json_type_name: the enumerator's own spelling for each of the seven
   * codes, and "UNKNOWN_TYPE" for any other value of the enumeration type.
   */
  function TypeName(t: int): (name: string)
    ensures name == UnknownTypeName <==> !(0 <= t < 7)
    ensures 0 <= t < 7 ==> |name| > 10 && name[..10] == "json_type_"
  {
    match t
    case 0 => "json_type_string"
    case 1 => "json_type_number"
    case 2 => "json_type_object"
    case 3 => "json_type_array"
    case 4 => "json_type_true"
    case 5 => "json_type_false"
    case 6 => "json_type_null"
    case _ => UnknownTypeName
  }

  /** Distinct kinds get distinct codes and distinct printed names. */
  lemma TypeNamesDistinct(a: Kind, b: Kind)
    requires a != b
    ensures KindCode(a) != KindCode(b)
    ensures TypeName(KindCode(a)) != TypeName(KindCode(b))
  {
  }
}
