/** JSON values as Python's `json` module and pydantic's `model_dump(mode='json')`
    produce them. Floats are not part of this model; objects are unordered. */
module JsonValue {

  datatype Json =
    | JNull
    | JBool(b: bool)
    | JInt(i: int)
    | JStr(s: string)
    | JArr(items: seq<Json>)
    | JObj(fields: map<string, Json>)
}
