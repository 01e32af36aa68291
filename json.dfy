/** A decoded JSON response, as `NSJSONSerialization` hands it to the client, and the
    `as?` casts the client applies to its entries. */
module Json {
  import opened Basics

  /** A decoded JSON value. `JOther` stands for the values no cast below accepts
      (booleans, non-integral numbers, null). */
  datatype Value =
    | JString(text: string)
    | JInt(number: int)
    | JObject(fields: map<string, Value>)
    | JArray(items: seq<Value>)
    | JOther

  /** A `[String: AnyObject]` dictionary. */
  type Dictionary = map<string, Value>

  /** `d[key] as? String`: present only when the entry exists and is a string. */
  function StringAt(d: Dictionary, key: string): (r: Option<string>)
    ensures r.Some? <==> key in d && d[key].JString?
    ensures r.Some? ==> d[key] == JString(r.value)
  {
    if key in d && d[key].JString? then Some(d[key].text) else None
  }

  /** `d[key] as? Int`: present only when the entry exists and is an integer. */
  function IntAt(d: Dictionary, key: string): (r: Option<int>)
    ensures r.Some? <==> key in d && d[key].JInt?
    ensures r.Some? ==> d[key] == JInt(r.value)
  {
    if key in d && d[key].JInt? then Some(d[key].number) else None
  }

  /** `d[key] as? [String: AnyObject]`: present only when the entry is an object. */
  function DictionaryAt(d: Dictionary, key: string): (r: Option<Dictionary>)
    ensures r.Some? <==> key in d && d[key].JObject?
    ensures r.Some? ==> d[key] == JObject(r.value)
  {
    if key in d && d[key].JObject? then Some(d[key].fields) else None
  }

  /** Whether every item of an array is an object. */
  predicate AllObjects(items: seq<Value>) {
    forall i :: 0 <= i < |items| ==> items[i].JObject?
  }

  /** `d[key] as? [[String: AnyObject]]`: present only when the entry is an array whose
      every item is an object; the cast keeps the items' order. */
  function DictionaryArrayAt(d: Dictionary, key: string): (r: Option<seq<Dictionary>>)
    ensures r.Some? <==> key in d && d[key].JArray? && AllObjects(d[key].items)
    ensures r.Some? ==> |r.value| == |d[key].items|
    ensures r.Some? ==> forall i :: 0 <= i < |r.value| ==> d[key].items[i] == JObject(r.value[i])
  {
    if key in d && d[key].JArray? && AllObjects(d[key].items) then
      var items := d[key].items;
      Some(seq(|items|, i requires 0 <= i < |items| => items[i].fields))
    else
      None
  }
}
