/** The context package codec. */
module ContextCodec {
  import opened Integers
  import opened Sequences
  import opened Json
  import opened Records

  datatype MemoryMessage = MemoryMessage(
    role: string,
    content: string,
    toolCallId: string,
    toolName: string,
    payloadRef: string)

  datatype MemoryContextPackage = MemoryContextPackage(
    messages: seq<MemoryMessage>,
    memoryText: string,
    entities: seq<MemoryEntity>,
    relations: seq<MemoryRelation>,
    payloadRefs: seq<MemoryPayloadRef>,
    citations: seq<string>,
    metadata: Json)

  const SCHEMA_VERSION: Int64 := 1

  ghost predicate Settles(toFloat: Rounding) {
    forall x: real :: toFloat(toFloat(x)) == toFloat(x)
  }

  function MessageToJson(m: MemoryMessage): Json {
    JObject(map["role" := JString(m.role), "content" := JString(m.content), "toolCallId" := JString(m.toolCallId),
                "toolName" := JString(m.toolName), "payloadRef" := JString(m.payloadRef)])
  }

  function MessageFromJson(j: Json): MemoryMessage {
    MemoryMessage(JsonString(j, "role"), JsonString(j, "content"), JsonString(j, "toolCallId"),
                  JsonString(j, "toolName"), JsonString(j, "payloadRef"))
  }

  function PayloadRefToJson(p: MemoryPayloadRef): Json {
    JObject(map["agentId" := JString(p.agentId), "sessionId" := JString(p.sessionId), "uri" := JString(p.uri),
                "contentType" := JString(p.contentType), "summary" := JString(p.summary),
                "toolName" := JString(p.toolName), "originalChars" := JInt(p.originalChars),
                "metadata" := JsonObject(p.metadata), "createdAt" := JString(p.createdAt)])
  }

  function PayloadRefFromJson(j: Json): MemoryPayloadRef {
    MemoryPayloadRef(JsonString(j, "agentId"), JsonString(j, "sessionId"), JsonString(j, "uri"),
                     JsonString(j, "contentType"), JsonString(j, "summary"), JsonString(j, "toolName"),
                     JsonInt(j, "originalChars"), JsonObject(JsonField(j, "metadata")), JsonString(j, "createdAt"))
  }

  /** The agent and the supersession state of an entity are not encoded. */
  function EntityToJson(e: MemoryEntity): Json {
    JObject(map["id" := JString(e.id), "entityType" := JString(e.entityType), "name" := JString(e.name),
                "summary" := JString(e.summary), "confidence" := JFloat(e.confidence),
                "sourceRefs" := StringArray(e.sourceRefs), "metadata" := JsonObject(e.metadata),
                "createdAt" := JString(e.createdAt), "updatedAt" := JString(e.updatedAt)])
  }

  function EntityFromJson(toFloat: Rounding, j: Json): MemoryEntity {
    MemoryEntity(JsonString(j, "id"), "", JsonString(j, "entityType"), JsonString(j, "name"), JsonString(j, "summary"),
                 JsonFloat(toFloat, j, "confidence"), true, "", "", Strings(JsonField(j, "sourceRefs")),
                 JsonObject(JsonField(j, "metadata")), JsonString(j, "createdAt"), JsonString(j, "updatedAt"))
  }

  function RelationToJson(r: MemoryRelation): Json {
    JObject(map["id" := JString(r.id), "fromEntityId" := JString(r.fromEntityId),
                "relationType" := JString(r.relationType), "toEntityId" := JString(r.toEntityId),
                "confidence" := JFloat(r.confidence), "sourceRefs" := StringArray(r.sourceRefs),
                "metadata" := JsonObject(r.metadata), "createdAt" := JString(r.createdAt),
                "updatedAt" := JString(r.updatedAt)])
  }

  function RelationFromJson(toFloat: Rounding, j: Json): MemoryRelation {
    MemoryRelation(JsonString(j, "id"), "", JsonString(j, "fromEntityId"), JsonString(j, "relationType"),
                   JsonString(j, "toEntityId"), JsonFloat(toFloat, j, "confidence"),
                   Strings(JsonField(j, "sourceRefs")), JsonObject(JsonField(j, "metadata")),
                   JsonString(j, "createdAt"), JsonString(j, "updatedAt"))
  }

  /** The decoded object items of an array; other items are dropped, and a non-array has none. */
  function Decoded<T>(decode: Json -> T, j: Json): seq<T> {
    if j.JArray? then Map(decode, Filter(IsObject, j.items)) else []
  }

  function Encoded<T>(encode: T -> Json, values: seq<T>): Json {
    JArray(Map(encode, values))
  }

  function Encode(p: MemoryContextPackage): Json {
    JObject(map["messages" := Encoded(MessageToJson, p.messages), "memoryText" := JString(p.memoryText),
                "entities" := Encoded(EntityToJson, p.entities), "relations" := Encoded(RelationToJson, p.relations),
                "payloadRefs" := Encoded(PayloadRefToJson, p.payloadRefs), "citations" := StringArray(p.citations),
                "metadata" := JsonObject(p.metadata), "schemaVersion" := JInt(SCHEMA_VERSION)])
  }

  function Decode(toFloat: Rounding, j: Json): MemoryContextPackage {
    MemoryContextPackage(
      Decoded(MessageFromJson, JsonField(j, "messages")),
      JsonString(j, "memoryText"),
      Decoded(item => EntityFromJson(toFloat, item), JsonField(j, "entities")),
      Decoded(item => RelationFromJson(toFloat, item), JsonField(j, "relations")),
      Decoded(PayloadRefFromJson, JsonField(j, "payloadRefs")),
      Strings(JsonField(j, "citations")),
      JsonObject(JsonField(j, "metadata")))
  }

  method EncodeItems<T>(encode: T -> Json, values: seq<T>) returns (j: Json)
    ensures j == Encoded(encode, values)
  {
    var items := [];
    for i := 0 to |values|
      invariant items == Map(encode, values[..i])
    {
      items := items + [encode(values[i])];
    }
    assert values[..|values|] == values;
    j := JArray(items);
  }

  method DecodeItems<T>(decode: Json -> T, j: Json) returns (values: seq<T>)
    ensures values == Decoded(decode, j)
  {
    values := [];
    if j.JArray? {
      FilterEmpty(IsObject);
      hide Filter, Map;
      for i := 0 to |j.items|
        invariant values == Map(decode, Filter(IsObject, j.items[..i]))
      {
        FilterOneMore(IsObject, j.items, i);
        MapAppend(decode, Filter(IsObject, j.items[..i]), j.items[i]);
        if j.items[i].JObject? {
          values := values + [decode(j.items[i])];
        }
      }
      assert j.items[..|j.items|] == j.items;
    }
  }

  method ContextPackageToJson(p: MemoryContextPackage) returns (j: Json)
    ensures j == Encode(p)
  {
    var messages := EncodeItems(MessageToJson, p.messages);
    var entities := EncodeItems(EntityToJson, p.entities);
    var relations := EncodeItems(RelationToJson, p.relations);
    var payloadRefs := EncodeItems(PayloadRefToJson, p.payloadRefs);
    var fields := map["messages" := messages, "memoryText" := JString(p.memoryText), "entities" := entities,
                      "relations" := relations, "payloadRefs" := payloadRefs, "citations" := StringArray(p.citations),
                      "metadata" := JsonObject(p.metadata)];
    j := JObject(fields["schemaVersion" := JInt(SCHEMA_VERSION)]);
  }

  method ContextPackageFromJson(toFloat: Rounding, j: Json) returns (p: MemoryContextPackage)
    ensures p == Decode(toFloat, j)
  {
    hide Decoded, JsonField, Strings;
    var citations := StringVectorFromJson(JsonField(j, "citations"));
    var messages := DecodeItems(MessageFromJson, JsonField(j, "messages"));
    var entities := DecodeItems(item => EntityFromJson(toFloat, item), JsonField(j, "entities"));
    var relations := DecodeItems(item => RelationFromJson(toFloat, item), JsonField(j, "relations"));
    var payloadRefs := DecodeItems(PayloadRefFromJson, JsonField(j, "payloadRefs"));
    p := MemoryContextPackage(messages, JsonString(j, "memoryText"), entities, relations, payloadRefs, citations,
                              JsonObject(JsonField(j, "metadata")));
  }

  // ----- The names on the wire -----

  lemma MessageNames(m: MemoryMessage)
    ensures var j := MessageToJson(m);
      && j.JObject? && j.fields.Keys == {"role", "content", "toolCallId", "toolName", "payloadRef"}
      && JsonString(j, "role") == m.role && JsonString(j, "content") == m.content
      && JsonString(j, "toolCallId") == m.toolCallId && JsonString(j, "toolName") == m.toolName
      && JsonString(j, "payloadRef") == m.payloadRef
  {
  }

  lemma PayloadRefNames(p: MemoryPayloadRef)
    ensures var j := PayloadRefToJson(p);
      && j.JObject? && j.fields.Keys == {"agentId", "sessionId", "uri", "contentType", "summary", "toolName",
                                         "originalChars", "metadata", "createdAt"}
      && JsonString(j, "agentId") == p.agentId && JsonString(j, "sessionId") == p.sessionId
      && JsonString(j, "uri") == p.uri && JsonString(j, "contentType") == p.contentType
      && JsonString(j, "summary") == p.summary && JsonString(j, "toolName") == p.toolName
      && j.fields["originalChars"] == JInt(p.originalChars)
      && j.fields["metadata"] == (if p.metadata.JObject? then p.metadata else JObject(map[]))
      && JsonString(j, "createdAt") == p.createdAt
  {
  }

  lemma EntityNames(e: MemoryEntity)
    ensures var j := EntityToJson(e);
      && j.JObject? && j.fields.Keys == {"id", "entityType", "name", "summary", "confidence", "sourceRefs",
                                         "metadata", "createdAt", "updatedAt"}
      && JsonString(j, "id") == e.id && JsonString(j, "entityType") == e.entityType
      && JsonString(j, "name") == e.name && JsonString(j, "summary") == e.summary
      && j.fields["confidence"] == JFloat(e.confidence) && Strings(j.fields["sourceRefs"]) == e.sourceRefs
      && j.fields["metadata"] == (if e.metadata.JObject? then e.metadata else JObject(map[]))
      && JsonString(j, "createdAt") == e.createdAt && JsonString(j, "updatedAt") == e.updatedAt
  {
    StringsRoundTrip(e.sourceRefs);
    hide Strings, StringArray;
  }

  lemma RelationNames(r: MemoryRelation)
    ensures var j := RelationToJson(r);
      && j.JObject? && j.fields.Keys == {"id", "fromEntityId", "relationType", "toEntityId", "confidence", "sourceRefs",
                                         "metadata", "createdAt", "updatedAt"}
      && JsonString(j, "id") == r.id && JsonString(j, "fromEntityId") == r.fromEntityId
      && JsonString(j, "relationType") == r.relationType && JsonString(j, "toEntityId") == r.toEntityId
      && j.fields["confidence"] == JFloat(r.confidence) && Strings(j.fields["sourceRefs"]) == r.sourceRefs
      && j.fields["metadata"] == (if r.metadata.JObject? then r.metadata else JObject(map[]))
      && JsonString(j, "createdAt") == r.createdAt && JsonString(j, "updatedAt") == r.updatedAt
  {
    StringsRoundTrip(r.sourceRefs);
    hide Strings, StringArray;
  }

  /** A package holds its lists item by item under their names, and the schema version. */
  lemma PackageNames(p: MemoryContextPackage)
    ensures var j := Encode(p);
      && j.JObject? && j.fields.Keys == {"messages", "memoryText", "entities", "relations", "payloadRefs", "citations",
                                         "metadata", "schemaVersion"}
      && j.fields["messages"].JArray? && j.fields["messages"].items == Map(MessageToJson, p.messages)
      && j.fields["entities"].JArray? && j.fields["entities"].items == Map(EntityToJson, p.entities)
      && j.fields["relations"].JArray? && j.fields["relations"].items == Map(RelationToJson, p.relations)
      && j.fields["payloadRefs"].JArray? && j.fields["payloadRefs"].items == Map(PayloadRefToJson, p.payloadRefs)
      && j.fields["memoryText"] == JString(p.memoryText) && Strings(j.fields["citations"]) == p.citations
      && j.fields["metadata"] == (if p.metadata.JObject? then p.metadata else JObject(map[]))
      && j.fields["schemaVersion"] == JInt(1)
  {
    StringsRoundTrip(p.citations);
    hide Strings, StringArray;
  }

  /** The object items of an array are decoded one by one, and other items dropped. */
  lemma DecodedOneMore<T>(decode: Json -> T, items: seq<Json>, item: Json, j: Json)
    ensures Decoded(decode, JArray([])) == []
    ensures Decoded(decode, JArray(items + [item]))
         == Decoded(decode, JArray(items)) + if item.JObject? then [decode(item)] else []
    ensures !j.JArray? ==> Decoded(decode, j) == []
  {
    assert (items + [item])[..|items|] == items;
  }

  // ----- What survives encoding -----

  /** An entity with nothing that its encoding drops. */
  predicate PlainEntity(toFloat: Rounding, e: MemoryEntity) {
    && e.agentId == "" && e.isActive && e.supersededByEntityId == "" && e.supersededEntityId == ""
    && e.metadata.JObject? && toFloat(e.confidence) == e.confidence
  }

  predicate PlainRelation(toFloat: Rounding, r: MemoryRelation) {
    r.agentId == "" && r.metadata.JObject? && toFloat(r.confidence) == r.confidence
  }

  predicate PlainPackage(toFloat: Rounding, p: MemoryContextPackage) {
    && (forall i :: 0 <= i < |p.entities| ==> PlainEntity(toFloat, p.entities[i]))
    && (forall i :: 0 <= i < |p.relations| ==> PlainRelation(toFloat, p.relations[i]))
    && (forall i :: 0 <= i < |p.payloadRefs| ==> p.payloadRefs[i].metadata.JObject?)
    && p.metadata.JObject?
  }

  lemma EntityRoundTrip(toFloat: Rounding, e: MemoryEntity)
    ensures EntityFromJson(toFloat, EntityToJson(e)) == e <==> PlainEntity(toFloat, e)
  {
    StringsRoundTrip(e.sourceRefs);
    hide Strings, StringArray;
  }

  lemma RelationRoundTrip(toFloat: Rounding, r: MemoryRelation)
    ensures RelationFromJson(toFloat, RelationToJson(r)) == r <==> PlainRelation(toFloat, r)
  {
    StringsRoundTrip(r.sourceRefs);
    hide Strings, StringArray;
  }

  lemma PayloadRefRoundTrip(p: MemoryPayloadRef)
    ensures PayloadRefFromJson(PayloadRefToJson(p)) == p <==> p.metadata.JObject?
  {
  }

  /** Encoding then decoding a list of records works item by item. */
  lemma ItemsRoundTrip<T>(encode: T -> Json, decode: Json -> T, values: seq<T>)
    requires forall v :: encode(v).JObject?
    ensures |Decoded(decode, Encoded(encode, values))| == |values|
    ensures forall i :: 0 <= i < |values| ==> Decoded(decode, Encoded(encode, values))[i] == decode(encode(values[i]))
  {
    FilterAll(IsObject, Map(encode, values));
  }

  /** A package is restored by decoding its encoding precisely when it holds nothing the encoding
      drops: no agent or supersession state, and object metadata throughout. */
  lemma EncodeThenDecodeIff(toFloat: Rounding, p: MemoryContextPackage)
    ensures Decode(toFloat, Encode(p)) == p <==> PlainPackage(toFloat, p)
  {
    EncodedFields(p);
    StringsRoundTrip(p.citations);
    MessagesSurvive(p.messages);
    EntitiesSurviveIff(toFloat, p.entities);
    RelationsSurviveIff(toFloat, p.relations);
    PayloadRefsSurviveIff(p.payloadRefs);
    hide Encode, JsonField, JsonString, Decoded, Encoded, Strings, StringArray, PlainEntity, PlainRelation;
  }

  lemma EncodedFields(p: MemoryContextPackage)
    ensures var j := Encode(p);
      && JsonField(j, "messages") == Encoded(MessageToJson, p.messages)
      && JsonField(j, "entities") == Encoded(EntityToJson, p.entities)
      && JsonField(j, "relations") == Encoded(RelationToJson, p.relations)
      && JsonField(j, "payloadRefs") == Encoded(PayloadRefToJson, p.payloadRefs)
      && JsonField(j, "citations") == StringArray(p.citations)
      && JsonField(j, "metadata") == JsonObject(p.metadata)
      && JsonString(j, "memoryText") == p.memoryText
  {
    hide Encoded, StringArray, JsonObject;
  }

  lemma MessagesSurvive(messages: seq<MemoryMessage>)
    ensures Decoded(MessageFromJson, Encoded(MessageToJson, messages)) == messages
  {
    ItemsRoundTrip(MessageToJson, MessageFromJson, messages);
  }

  lemma EntitiesSurviveIff(toFloat: Rounding, entities: seq<MemoryEntity>)
    ensures Decoded(item => EntityFromJson(toFloat, item), Encoded(EntityToJson, entities)) == entities
       <==> forall i :: 0 <= i < |entities| ==> PlainEntity(toFloat, entities[i])
  {
    var decoded := Decoded(item => EntityFromJson(toFloat, item), Encoded(EntityToJson, entities));
    ItemsRoundTrip(EntityToJson, item => EntityFromJson(toFloat, item), entities);
    forall i | 0 <= i < |entities| ensures decoded[i] == entities[i] <==> PlainEntity(toFloat, entities[i]) {
      EntityRoundTrip(toFloat, entities[i]);
    }
  }

  lemma RelationsSurviveIff(toFloat: Rounding, relations: seq<MemoryRelation>)
    ensures Decoded(item => RelationFromJson(toFloat, item), Encoded(RelationToJson, relations)) == relations
       <==> forall i :: 0 <= i < |relations| ==> PlainRelation(toFloat, relations[i])
  {
    var decoded := Decoded(item => RelationFromJson(toFloat, item), Encoded(RelationToJson, relations));
    ItemsRoundTrip(RelationToJson, item => RelationFromJson(toFloat, item), relations);
    forall i | 0 <= i < |relations| ensures decoded[i] == relations[i] <==> PlainRelation(toFloat, relations[i]) {
      RelationRoundTrip(toFloat, relations[i]);
    }
  }

  lemma PayloadRefsSurviveIff(payloads: seq<MemoryPayloadRef>)
    ensures Decoded(PayloadRefFromJson, Encoded(PayloadRefToJson, payloads)) == payloads
       <==> forall i :: 0 <= i < |payloads| ==> payloads[i].metadata.JObject?
  {
    var decoded := Decoded(PayloadRefFromJson, Encoded(PayloadRefToJson, payloads));
    ItemsRoundTrip(PayloadRefToJson, PayloadRefFromJson, payloads);
    forall i | 0 <= i < |payloads| ensures decoded[i] == payloads[i] <==> payloads[i].metadata.JObject? {
      PayloadRefRoundTrip(payloads[i]);
    }
  }

  /** Whatever is decoded holds nothing the encoding drops. */
  lemma DecodedIsPlain(toFloat: Rounding, j: Json)
    requires Settles(toFloat) && toFloat(0.0) == 0.0
    ensures PlainPackage(toFloat, Decode(toFloat, j))
  {
    var p := Decode(toFloat, j);
    hide Filter, JsonField, JsonString, Strings, EntityFromJson, RelationFromJson, PlainEntity, PlainRelation;
    forall i | 0 <= i < |p.entities| ensures PlainEntity(toFloat, p.entities[i]) {
      DecodedEntityIsPlain(toFloat, Filter(IsObject, JsonField(j, "entities").items)[i]);
    }
    forall i | 0 <= i < |p.relations| ensures PlainRelation(toFloat, p.relations[i]) {
      DecodedRelationIsPlain(toFloat, Filter(IsObject, JsonField(j, "relations").items)[i]);
    }
  }

  lemma DecodedEntityIsPlain(toFloat: Rounding, j: Json)
    requires Settles(toFloat) && toFloat(0.0) == 0.0
    ensures PlainEntity(toFloat, EntityFromJson(toFloat, j))
  {
    hide Strings, JsonString;
  }

  lemma DecodedRelationIsPlain(toFloat: Rounding, j: Json)
    requires Settles(toFloat) && toFloat(0.0) == 0.0
    ensures PlainRelation(toFloat, RelationFromJson(toFloat, j))
  {
    hide Strings, JsonString;
  }

  /** Decoding is a retraction: for every JSON value, decoding, encoding and decoding again gives
      the package of the first decoding. */
  lemma DecodeIsRetraction(toFloat: Rounding, j: Json)
    requires Settles(toFloat) && toFloat(0.0) == 0.0
    ensures Decode(toFloat, Encode(Decode(toFloat, j))) == Decode(toFloat, j)
  {
    hide Decode, Encode;
    DecodedIsPlain(toFloat, j);
    EncodeThenDecodeIff(toFloat, Decode(toFloat, j));
  }
}
