/** The records exchanged between runtime, consolidation and store. */
module Records {
  import opened Integers
  import opened Json

  datatype MemoryEventType =
    | SessionStarted
    | SessionEnded
    | MessageAppended
    | ToolCallStarted
    | ToolCallFinished
    | PayloadOffloaded
    | ConsolidationRequested
    | ConsolidationCompleted

  datatype MemoryEvent = MemoryEvent(
    kind: MemoryEventType,
    agentId: string,
    sessionId: string,
    role: string,
    content: string,
    toolCallId: string,
    toolName: string,
    payloadRef: string,
    storeCursor: string,
    metadata: Json)

  datatype MemoryEntity = MemoryEntity(
    id: string,
    agentId: string,
    entityType: string,
    name: string,
    summary: string,
    confidence: real,
    isActive: bool,
    supersededByEntityId: string,
    supersededEntityId: string,
    sourceRefs: seq<string>,
    metadata: Json,
    createdAt: string,
    updatedAt: string)

  datatype MemoryRelation = MemoryRelation(
    id: string,
    agentId: string,
    fromEntityId: string,
    relationType: string,
    toEntityId: string,
    confidence: real,
    sourceRefs: seq<string>,
    metadata: Json,
    createdAt: string,
    updatedAt: string)

  datatype MemoryConsolidationRequest = MemoryConsolidationRequest(
    agentId: string,
    sessionId: string,
    maxEvents: Int32,
    forceReprocess: bool,
    excludedSessionIds: seq<string>)

  /** The primary key of a consolidation cursor. */
  datatype Scope = Scope(agentId: string, sessionId: string)

  datatype LongTermMemoryBatch = LongTermMemoryBatch(events: seq<MemoryEvent>, sourceRefs: seq<string>)

  datatype LongTermMemoryUpdate = LongTermMemoryUpdate(
    entities: seq<MemoryEntity>,
    relations: seq<MemoryRelation>,
    profileSummaries: seq<string>,
    topicSummaries: seq<string>)

  const EMPTY_UPDATE := LongTermMemoryUpdate([], [], [], [])

  /** Metadata row of an offloaded payload. */
  datatype MemoryPayloadRef = MemoryPayloadRef(
    agentId: string,
    sessionId: string,
    uri: string,
    contentType: string,
    summary: string,
    toolName: string,
    originalChars: Int32,
    metadata: Json,
    createdAt: string)
}
