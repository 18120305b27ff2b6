/**
  The records the destination service reads and writes: the objects callers hand in
  (definitions, versions, breaking changes, destination connections) and the rows of the
  ACTOR_DEFINITION, ACTOR_DEFINITION_VERSION, ACTOR_DEFINITION_BREAKING_CHANGE, ACTOR and
  ACTOR_DEFINITION_WORKSPACE_GRANT tables they become.
 */
module Entities {
  import opened Wrappers
  import opened Versions

  /** Row identifiers (UUIDs). */
  type Uuid = nat

  /** A point in time, as stored in created_at / updated_at. */
  type Timestamp = int

  /** A JSON document the service stores without interpreting it (spec, configuration, ...). */
  datatype Doc = Doc(json: string)

  datatype ActorType = Source | Destination

  datatype ScopeType = Workspace | Organization

  /** The failures a call can raise; each aborts the enclosing transaction. */
  datatype Error =
    | InvalidVersion(tag: string)              // `new Version(tag)` rejected the tag
    | MissingVersionId                         // promoting a version that has no id
    | DuplicateVersionId(id: Uuid)             // primary-key clash when inserting a version
    | DefaultVersionNotFound(definitionId: Uuid) // `orElseThrow` on the default-version lookup
    | DefinitionNotFound(definitionId: Uuid)     // no destination definition with that id

  // ---------------------------------------------------------------- what callers pass in

  datatype StandardDestinationDefinition = StandardDestinationDefinition(
    destinationDefinitionId: Uuid,
    name: string,
    icon: string,
    tombstone: Option<bool>,
    isPublic: Option<bool>,
    custom: Option<bool>,
    resourceRequirements: Option<Doc>)

  /** An actor definition version; `versionId` is None until the version is stored. */
  datatype ActorDefinitionVersion = ActorDefinitionVersion(
    versionId: Option<Uuid>,
    actorDefinitionId: Uuid,
    dockerRepository: string,
    dockerImageTag: string,
    spec: Doc,
    details: Doc)   // documentation URL, protocol version, support level, release data, ...

  datatype ActorDefinitionBreakingChange = ActorDefinitionBreakingChange(
    actorDefinitionId: Uuid,
    version: Version,
    upgradeDeadline: string,
    message: string,
    migrationDocumentationUrl: string)

  datatype DestinationConnection = DestinationConnection(
    destinationId: Uuid,
    workspaceId: Uuid,
    destinationDefinitionId: Uuid,
    name: string,
    configuration: Doc,
    tombstone: Option<bool>)

  // ---------------------------------------------------------------- table rows

  /** An ACTOR_DEFINITION row (key: id). */
  datatype DefinitionRecord = DefinitionRecord(
    actorType: ActorType,
    name: string,
    icon: string,
    tombstone: Option<bool>,
    isPublic: Option<bool>,
    custom: Option<bool>,
    resourceRequirements: Option<Doc>,
    defaultVersionId: Option<Uuid>,
    createdAt: Timestamp,
    updatedAt: Timestamp)

  /** An ACTOR_DEFINITION_VERSION row (key: id). */
  datatype VersionRecord = VersionRecord(
    actorDefinitionId: Uuid,
    dockerRepository: string,
    dockerImageTag: string,
    spec: Doc,
    details: Doc,
    createdAt: Timestamp,
    updatedAt: Timestamp)

  /** The key of ACTOR_DEFINITION_BREAKING_CHANGE: (actor_definition_id, version). */
  datatype BreakingChangeKey = BreakingChangeKey(actorDefinitionId: Uuid, version: string)

  datatype BreakingChangeRecord = BreakingChangeRecord(
    upgradeDeadline: string,
    message: string,
    migrationDocumentationUrl: string,
    createdAt: Timestamp,
    updatedAt: Timestamp)

  /** An ACTOR row (key: id). */
  datatype ActorRecord = ActorRecord(
    workspaceId: Uuid,
    actorDefinitionId: Uuid,
    name: string,
    configuration: Doc,
    actorType: ActorType,
    tombstone: bool,
    defaultVersionId: Uuid,
    createdAt: Timestamp,
    updatedAt: Timestamp)

  /** An ACTOR_DEFINITION_WORKSPACE_GRANT row. */
  datatype GrantRecord = GrantRecord(
    actorDefinitionId: Uuid,
    scopeType: ScopeType,
    scopeId: Uuid,
    workspaceId: Option<Uuid>)
}
