/** Values shared by every part of the model. */
module Common {

  datatype Option<+T> = None | Some(value: T) {
    function GetOr(default: T): T {
      if Some? then value else default
    }
  }

  datatype Result<+T, +E> = Ok(value: T) | Err(error: E)

  /** A parsed JSON document.  Objects compare without regard to key order, as serde_json's do. */
  datatype Json =
    | JNull
    | JBool(b: bool)
    | JInt(n: int)
    | JFloat(literal: string)
    | JString(s: string)
    | JArray(items: seq<Json>)
    | JObject(fields: map<string, Json>)
  {
    function Get(key: string): Option<Json> {
      if JObject? && key in fields then Some(fields[key]) else None
    }

    function AsString(): Option<string> {
      if JString? then Some(s) else None
    }

    function GetString(key: string): Option<string> {
      var field := Get(key);
      if field.Some? then field.value.AsString() else None
    }

    function AsU64(): Option<nat> {
      if JInt? && 0 <= n < 0x1_0000_0000_0000_0000 then Some(n) else None
    }
  }
}
