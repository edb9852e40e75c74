/** JSON values, and the tolerant field readers of the codec. */
module Json {
  import opened Sequences
  import opened Integers

  /** Integers keep the library's distinction between signed and unsigned literals. */
  datatype Json =
    | JNull
    | JBool(b: bool)
    | JInt(n: Int64)
    | JUnsigned(u: UInt64)
    | JFloat(x: real)
    | JString(s: string)
    | JArray(items: seq<Json>)
    | JObject(fields: map<string, Json>)

  const EMPTY_OBJECT: Json := JObject(map[])

  function JsonObject(value: Json): Json {
    if value.JObject? then value else EMPTY_OBJECT
  }

  function JsonField(j: Json, key: string): Json {
    if j.JObject? && key in j.fields then j.fields[key] else JNull
  }

  function JsonString(j: Json, key: string): string {
    var value := JsonField(j, key);
    if value.JString? then value.s else ""
  }

  /** Reading an unsigned literal as a signed 64-bit number wraps around. */
  function AsInt64(value: Json): Int64
    requires value.JInt? || value.JUnsigned?
  {
    if value.JInt? then value.n
    else if value.u < 0x8000_0000_0000_0000 then value.u
    else value.u - 0x1_0000_0000_0000_0000
  }

  /** An integer field; out of range reads as zero, but an unsigned literal just below 2^64 wraps to
      a small negative number first. */
  function JsonInt(j: Json, key: string): Int32 {
    var value := JsonField(j, key);
    if (value.JInt? || value.JUnsigned?) && -0x8000_0000 <= AsInt64(value) <= 0x7fff_ffff then AsInt64(value)
    else if value.JUnsigned? && value.u <= 0x7fff_ffff then value.u
    else 0
  }

  /** A number field as `float`. */
  function JsonFloat(toFloat: real -> real, j: Json, key: string): real {
    match JsonField(j, key)
    case JInt(n) => toFloat(n as real)
    case JUnsigned(u) => toFloat(u as real)
    case JFloat(x) => toFloat(x)
    case _ => 0.0
  }

  predicate IsString(j: Json) {
    j.JString?
  }

  predicate IsObject(j: Json) {
    j.JObject?
  }

  function StringOf(j: Json): string {
    if j.JString? then j.s else ""
  }

  /** The strings of an array; other items are dropped, and a non-array has none. */
  function Strings(j: Json): seq<string> {
    if j.JArray? then Map(StringOf, Filter(IsString, j.items)) else []
  }

  method StringVectorFromJson(j: Json) returns (values: seq<string>)
    ensures values == Strings(j)
  {
    values := [];
    if !j.JArray? {
      return;
    }
    FilterEmpty(IsString);
    hide Filter, Map;
    for i := 0 to |j.items|
      invariant values == Map(StringOf, Filter(IsString, j.items[..i]))
    {
      FilterOneMore(IsString, j.items, i);
      MapAppend(StringOf, Filter(IsString, j.items[..i]), j.items[i]);
      if j.items[i].JString? {
        values := values + [j.items[i].s];
      }
    }
    assert j.items[..|j.items|] == j.items;
  }

  function StringArray(values: seq<string>): Json {
    JArray(Map((s: string) => JString(s), values))
  }

  lemma StringsRoundTrip(values: seq<string>)
    ensures Strings(StringArray(values)) == values
  {
    FilterAll(IsString, StringArray(values).items);
  }

  /** How integer literals read: signed ones are kept within 32 bits, unsigned ones also just below
      2^64, where they read as negative; everything else reads as zero. */
  lemma IntegersRead(key: string, n: Int64, u: UInt64)
    ensures JsonInt(JObject(map[key := JInt(n)]), key) == if -0x8000_0000 <= n < 0x8000_0000 then n else 0
    ensures JsonInt(JObject(map[key := JUnsigned(u)]), key)
         == if u < 0x8000_0000 then u
            else if 0xffff_ffff_8000_0000 <= u then u - 0x1_0000_0000_0000_0000
            else 0
  {
  }

  /** How numbers read as `float`: integer literals of both kinds are converted, everything else reads as
      zero. */
  lemma FloatsRead(toFloat: Rounding, fields: map<string, Json>, key: string, n: Int64, u: UInt64, x: real, s: string)
    ensures JsonFloat(toFloat, JObject(fields[key := JInt(n)]), key) == toFloat(n as real)
    ensures JsonFloat(toFloat, JObject(fields[key := JUnsigned(u)]), key) == toFloat(u as real)
    ensures JsonFloat(toFloat, JObject(fields[key := JFloat(x)]), key) == toFloat(x)
    ensures JsonFloat(toFloat, JObject(fields[key := JString(s)]), key) == 0.0
    ensures JsonFloat(toFloat, JObject(fields - {key}), key) == 0.0
  {
  }

  /** How texts and objects read: a value of another kind, an absent field and a non-object all read as
      empty. */
  lemma FieldsRead(j: Json, fields: map<string, Json>, key: string)
    ensures j.JString? ==> JsonString(JObject(fields[key := j]), key) == j.s
    ensures !j.JString? ==> JsonString(JObject(fields[key := j]), key) == ""
    ensures JsonString(JObject(fields - {key}), key) == ""
    ensures !j.JObject? ==> JsonString(j, key) == "" && JsonObject(j) == JObject(map[])
    ensures j.JObject? ==> JsonObject(j) == j
  {
  }

  /** The strings of an array, item by item. */
  lemma StringsOneMore(items: seq<Json>, item: Json, j: Json)
    ensures Strings(JArray([])) == []
    ensures Strings(JArray(items + [item])) == Strings(JArray(items)) + if item.JString? then [item.s] else []
    ensures !j.JArray? ==> Strings(j) == []
  {
    assert (items + [item])[..|items|] == items;
  }
}
