/**
  The single-table writes and lookups of the destination service, as functions from a
  table (a map from primary key to row) to the table afterwards, with the consistency
  conditions the writes keep.
 */
module Tables {
  import opened Wrappers
  import opened Versions
  import opened Entities

  // ================================================================ ACTOR_DEFINITION

  /**
    One step of `writeStandardDestinationDefinition`: update the row if the id exists,
    insert it otherwise. An update keeps the row's default version and creation time and
    stores the given tombstone as it is; an insert starts with no default version and
    stores a missing tombstone as false.
   */
  function UpsertDefinition(defs: map<Uuid, DefinitionRecord>, d: StandardDestinationDefinition, now: Timestamp)
    : (r: map<Uuid, DefinitionRecord>)
    ensures r.Keys == defs.Keys + {d.destinationDefinitionId}
    ensures forall k | k in defs && k != d.destinationDefinitionId :: r[k] == defs[k]
    ensures var row := r[d.destinationDefinitionId];
      && row.actorType == Destination && row.name == d.name && row.icon == d.icon
      && row.isPublic == d.isPublic && row.custom == d.custom
      && row.resourceRequirements == d.resourceRequirements && row.updatedAt == now
    ensures d.destinationDefinitionId in defs ==>
      var row, was := r[d.destinationDefinitionId], defs[d.destinationDefinitionId];
      row.tombstone == d.tombstone && row.defaultVersionId == was.defaultVersionId && row.createdAt == was.createdAt
    ensures d.destinationDefinitionId !in defs ==>
      var row := r[d.destinationDefinitionId];
      row.tombstone == Some(d.tombstone == Some(true)) && row.defaultVersionId == None && row.createdAt == now
  {
    var id := d.destinationDefinitionId;
    if id in defs then
      defs[id := defs[id].(actorType := Destination, name := d.name, icon := d.icon, tombstone := d.tombstone,
                           isPublic := d.isPublic, custom := d.custom,
                           resourceRequirements := d.resourceRequirements, updatedAt := now)]
    else
      defs[id := DefinitionRecord(Destination, d.name, d.icon, Some(d.tombstone == Some(true)), d.isPublic, d.custom,
                                  d.resourceRequirements, None, now, now)]
  }

  /** `writeStandardDestinationDefinition`: the upserts of the list, in order. */
  function UpsertDefinitions(defs: map<Uuid, DefinitionRecord>, ds: seq<StandardDestinationDefinition>, now: Timestamp)
    : map<Uuid, DefinitionRecord>
    decreases |ds|
  {
    if |ds| == 0 then defs
    else UpsertDefinition(UpsertDefinitions(defs, ds[..|ds| - 1], now), ds[|ds| - 1], now)
  }

  /** The ids a list of definitions writes. */
  function DefinitionIds(ds: seq<StandardDestinationDefinition>): (r: set<Uuid>)
    ensures forall i | 0 <= i < |ds| :: ds[i].destinationDefinitionId in r
    decreases |ds|
  {
    if |ds| == 0 then {} else DefinitionIds(ds[..|ds| - 1]) + {ds[|ds| - 1].destinationDefinitionId}
  }

  /** Writing definitions adds exactly the listed ids. */
  lemma {:induction false} UpsertDefinitionsKeys(
    defs: map<Uuid, DefinitionRecord>, ds: seq<StandardDestinationDefinition>, now: Timestamp)
    ensures UpsertDefinitions(defs, ds, now).Keys == defs.Keys + DefinitionIds(ds)
    decreases |ds|
  {
    if |ds| > 0 {
      UpsertDefinitionsKeys(defs, ds[..|ds| - 1], now);
    }
  }

  /**
    Writing definitions never moves an existing default-version pointer or creation time,
    and leaves new definitions without a default version.
   */
  lemma {:induction false} UpsertDefinitionsKeepsPointers(
    defs: map<Uuid, DefinitionRecord>, ds: seq<StandardDestinationDefinition>, now: Timestamp, k: Uuid)
    requires k in UpsertDefinitions(defs, ds, now)
    ensures var row := UpsertDefinitions(defs, ds, now)[k];
      && (k in defs ==> row.defaultVersionId == defs[k].defaultVersionId && row.createdAt == defs[k].createdAt)
      && (k !in defs ==> row.defaultVersionId == None)
    decreases |ds|
  {
    if |ds| > 0 {
      var init := ds[..|ds| - 1];
      var before := UpsertDefinitions(defs, init, now);
      if k in before {
        UpsertDefinitionsKeepsPointers(defs, init, now, k);
      } else {
        UpsertDefinitionsKeys(defs, init, now);
      }
    }
  }

  /** Writing definitions keeps every default-version pointer resolving. */
  lemma UpsertDefinitionsKeepsDefaultsResolve(
    defs: map<Uuid, DefinitionRecord>, versions: map<Uuid, VersionRecord>, ds: seq<StandardDestinationDefinition>,
    now: Timestamp)
    requires DefaultsResolve(defs, versions)
    ensures DefaultsResolve(UpsertDefinitions(defs, ds, now), versions)
  {
    var r := UpsertDefinitions(defs, ds, now);
    forall k | k in r && r[k].defaultVersionId.Some?
      ensures r[k].defaultVersionId.value in versions && versions[r[k].defaultVersionId.value].actorDefinitionId == k
    {
      UpsertDefinitionsKeepsPointers(defs, ds, now, k);
    }
  }

  // ================================================================ ACTOR_DEFINITION_BREAKING_CHANGE

  /** The row key of a breaking change: its definition and its serialized version. */
  function BreakingChangeKeyOf(bc: ActorDefinitionBreakingChange): BreakingChangeKey
  {
    BreakingChangeKey(bc.actorDefinitionId, Serialize(bc.version))
  }

  /** Two breaking changes share a row exactly when they have the same definition and version. */
  lemma BreakingChangeKeyInjective(a: ActorDefinitionBreakingChange, b: ActorDefinitionBreakingChange)
    ensures BreakingChangeKeyOf(a) == BreakingChangeKeyOf(b)
        <==> a.actorDefinitionId == b.actorDefinitionId && a.version == b.version
  {
    SerializeInjective(a.version, b.version);
  }

  /**
    `upsertBreakingChangeQuery`: insert on a new (definition, version) key; on a conflict
    overwrite deadline, message, migration URL and updated_at, keeping created_at.
   */
  function UpsertBreakingChange(
    t: map<BreakingChangeKey, BreakingChangeRecord>, bc: ActorDefinitionBreakingChange, now: Timestamp)
    : (r: map<BreakingChangeKey, BreakingChangeRecord>)
    ensures r.Keys == t.Keys + {BreakingChangeKeyOf(bc)}
    ensures forall k | k in t && k != BreakingChangeKeyOf(bc) :: r[k] == t[k]
    ensures var row := r[BreakingChangeKeyOf(bc)];
      && row.upgradeDeadline == bc.upgradeDeadline && row.message == bc.message
      && row.migrationDocumentationUrl == bc.migrationDocumentationUrl && row.updatedAt == now
      && row.createdAt == (if BreakingChangeKeyOf(bc) in t then t[BreakingChangeKeyOf(bc)].createdAt else now)
  {
    var k := BreakingChangeKeyOf(bc);
    if k in t then
      t[k := t[k].(upgradeDeadline := bc.upgradeDeadline, message := bc.message,
                   migrationDocumentationUrl := bc.migrationDocumentationUrl, updatedAt := now)]
    else
      t[k := BreakingChangeRecord(bc.upgradeDeadline, bc.message, bc.migrationDocumentationUrl, now, now)]
  }

  /** `writeActorDefinitionBreakingChanges`: the batch of upserts, in list order. */
  function UpsertBreakingChanges(
    t: map<BreakingChangeKey, BreakingChangeRecord>, bcs: seq<ActorDefinitionBreakingChange>, now: Timestamp)
    : map<BreakingChangeKey, BreakingChangeRecord>
    decreases |bcs|
  {
    if |bcs| == 0 then t
    else UpsertBreakingChange(UpsertBreakingChanges(t, bcs[..|bcs| - 1], now), bcs[|bcs| - 1], now)
  }

  /** The row keys a list of breaking changes writes. */
  function KeysOf(bcs: seq<ActorDefinitionBreakingChange>): (r: set<BreakingChangeKey>)
    ensures forall i | 0 <= i < |bcs| :: BreakingChangeKeyOf(bcs[i]) in r
    decreases |bcs|
  {
    if |bcs| == 0 then {} else KeysOf(bcs[..|bcs| - 1]) + {BreakingChangeKeyOf(bcs[|bcs| - 1])}
  }

  /** After the batch the table holds the old keys plus one row per listed key. */
  lemma {:induction false} UpsertBreakingChangesKeys(
    t: map<BreakingChangeKey, BreakingChangeRecord>, bcs: seq<ActorDefinitionBreakingChange>, now: Timestamp)
    ensures UpsertBreakingChanges(t, bcs, now).Keys == t.Keys + KeysOf(bcs)
    decreases |bcs|
  {
    if |bcs| > 0 {
      UpsertBreakingChangesKeys(t, bcs[..|bcs| - 1], now);
    }
  }

  /**
    Rows of keys not listed are untouched; a listed key keeps its original created_at and
    has updated_at now.
   */
  lemma {:induction false} UpsertBreakingChangesRows(
    t: map<BreakingChangeKey, BreakingChangeRecord>, bcs: seq<ActorDefinitionBreakingChange>, now: Timestamp,
    k: BreakingChangeKey)
    requires k in t || k in KeysOf(bcs)
    ensures k in UpsertBreakingChanges(t, bcs, now)
    ensures var row := UpsertBreakingChanges(t, bcs, now)[k];
      && (k !in KeysOf(bcs) ==> row == t[k])
      && (k in KeysOf(bcs) ==> row.updatedAt == now && row.createdAt == (if k in t then t[k].createdAt else now))
    decreases |bcs|
  {
    UpsertBreakingChangesKeys(t, bcs, now);
    if |bcs| > 0 {
      var init := bcs[..|bcs| - 1];
      UpsertBreakingChangesKeys(t, init, now);
      if k in t || k in KeysOf(init) {
        UpsertBreakingChangesRows(t, init, now, k);
      }
    }
  }

  /** The last breaking change listed for a key decides its deadline, message and URL. */
  lemma {:induction false} UpsertBreakingChangesLastWins(
    t: map<BreakingChangeKey, BreakingChangeRecord>, bcs: seq<ActorDefinitionBreakingChange>, now: Timestamp, i: nat)
    requires i < |bcs|
    requires forall j | i < j < |bcs| :: BreakingChangeKeyOf(bcs[j]) != BreakingChangeKeyOf(bcs[i])
    ensures BreakingChangeKeyOf(bcs[i]) in UpsertBreakingChanges(t, bcs, now)
    ensures var row := UpsertBreakingChanges(t, bcs, now)[BreakingChangeKeyOf(bcs[i])];
      && row.upgradeDeadline == bcs[i].upgradeDeadline && row.message == bcs[i].message
      && row.migrationDocumentationUrl == bcs[i].migrationDocumentationUrl
    decreases |bcs|
  {
    var init := bcs[..|bcs| - 1];
    if i < |bcs| - 1 {
      UpsertBreakingChangesLastWins(t, init, now, i);
    }
  }

  // ================================================================ ACTOR_DEFINITION_VERSION

  /** No two versions of one definition share a docker image tag. */
  ghost predicate UniqueTags(versions: map<Uuid, VersionRecord>)
  {
    forall v, w | v in versions && w in versions
      && versions[v].actorDefinitionId == versions[w].actorDefinitionId
      && versions[v].dockerImageTag == versions[w].dockerImageTag :: v == w
  }

  /** The ids the query of `getActorDefinitionVersion` returns: rows of that definition and tag. */
  function VersionIdsWithTag(versions: map<Uuid, VersionRecord>, definitionId: Uuid, tag: string): (r: set<Uuid>)
    ensures forall v | v in r :: v in versions && versions[v].actorDefinitionId == definitionId && versions[v].dockerImageTag == tag
    ensures forall v | v in versions && versions[v].actorDefinitionId == definitionId && versions[v].dockerImageTag == tag :: v in r
    ensures UniqueTags(versions) ==> forall v, w | v in r && w in r :: v == w
  {
    set v | v in versions && versions[v].actorDefinitionId == definitionId && versions[v].dockerImageTag == tag
  }

  /** A version's row as inserted by `writeActorDefinitionVersion`. */
  function VersionRecordOf(adv: ActorDefinitionVersion, now: Timestamp): (r: VersionRecord)
    ensures forall id :: VersionOfRecord(id, r) == adv.(versionId := Some(id))
  {
    VersionRecord(adv.actorDefinitionId, adv.dockerRepository, adv.dockerImageTag, adv.spec, adv.details, now, now)
  }

  /** The version a stored row reads back as (the row converter). */
  function VersionOfRecord(id: Uuid, rec: VersionRecord): (adv: ActorDefinitionVersion)
    ensures adv.versionId == Some(id) && adv.actorDefinitionId == rec.actorDefinitionId
    ensures adv.dockerImageTag == rec.dockerImageTag
  {
    ActorDefinitionVersion(Some(id), rec.actorDefinitionId, rec.dockerRepository, rec.dockerImageTag, rec.spec, rec.details)
  }

  /** The id `writeActorDefinitionVersion` stores under: the supplied one, else a fresh one. */
  function ChosenVersionId(adv: ActorDefinitionVersion, freshId: Uuid): Uuid
  {
    if adv.versionId.Some? then adv.versionId.value else freshId
  }

  /**
    `writeActorDefinitionVersion`: insert one row under the chosen id; the insert fails when
    that id is already a key of the table.
   */
  function InsertVersion(versions: map<Uuid, VersionRecord>, adv: ActorDefinitionVersion, freshId: Uuid, now: Timestamp)
    : (r: Result<(Uuid, map<Uuid, VersionRecord>), Error>)
    ensures r.Err? <==> ChosenVersionId(adv, freshId) in versions
    ensures r.Err? ==> r.error == DuplicateVersionId(ChosenVersionId(adv, freshId))
    ensures r.Ok? ==> && r.value.0 == ChosenVersionId(adv, freshId)
                      && r.value.0 !in versions
                      && r.value.1 == versions[r.value.0 := VersionRecordOf(adv, now)]
                      && |r.value.1| == |versions| + 1
  {
    var id := ChosenVersionId(adv, freshId);
    if id in versions then Err(DuplicateVersionId(id)) else Ok((id, versions[id := VersionRecordOf(adv, now)]))
  }

  /** Inserting a tag the definition does not have yet keeps tags unique. */
  lemma InsertVersionKeepsTagsUnique(
    versions: map<Uuid, VersionRecord>, adv: ActorDefinitionVersion, freshId: Uuid, now: Timestamp)
    requires UniqueTags(versions)
    requires VersionIdsWithTag(versions, adv.actorDefinitionId, adv.dockerImageTag) == {}
    requires InsertVersion(versions, adv, freshId, now).Ok?
    ensures UniqueTags(InsertVersion(versions, adv, freshId, now).value.1)
  {
    var id := ChosenVersionId(adv, freshId);
    var vs := InsertVersion(versions, adv, freshId, now).value.1;
    forall v | v in versions && versions[v].actorDefinitionId == adv.actorDefinitionId
      ensures versions[v].dockerImageTag != adv.dockerImageTag
    {
      assert v !in VersionIdsWithTag(versions, adv.actorDefinitionId, adv.dockerImageTag);
    }
  }

  // ================================================================ default-version pointers

  /**
    `getDefaultVersionForActorDefinitionIdOptional`: the definition's default_version_id,
    joined with the version table (so a dangling pointer reads as absent).
   */
  function DefaultVersionId(defs: map<Uuid, DefinitionRecord>, versions: map<Uuid, VersionRecord>, definitionId: Uuid)
    : (r: Option<Uuid>)
    ensures r.Some? <==> && definitionId in defs && defs[definitionId].defaultVersionId.Some?
                         && defs[definitionId].defaultVersionId.value in versions
    ensures r.Some? ==> r == defs[definitionId].defaultVersionId
  {
    if definitionId in defs && defs[definitionId].defaultVersionId.Some?
       && defs[definitionId].defaultVersionId.value in versions
    then defs[definitionId].defaultVersionId
    else None
  }

  /** `updateActorDefinitionDefaultVersionId`: repoint one definition (no row, no change). */
  function SetDefaultPointer(defs: map<Uuid, DefinitionRecord>, definitionId: Uuid, versionId: Uuid, now: Timestamp)
    : (r: map<Uuid, DefinitionRecord>)
    ensures r.Keys == defs.Keys
    ensures definitionId in defs ==> r[definitionId] == defs[definitionId].(defaultVersionId := Some(versionId), updatedAt := now)
    ensures forall k | k in defs && k != definitionId :: r[k] == defs[k]
  {
    if definitionId in defs
    then defs[definitionId := defs[definitionId].(defaultVersionId := Some(versionId), updatedAt := now)]
    else defs
  }

  /**
    `updateDefaultVersionIdForActorsOnVersion`: the bulk update. Every actor on `from`
    moves to `to` (and gets updated_at now); every other actor is left exactly as it was.
   */
  function Repoint(actors: map<Uuid, ActorRecord>, from: Uuid, to: Uuid, now: Timestamp): (r: map<Uuid, ActorRecord>)
    ensures r.Keys == actors.Keys
    ensures forall a | a in actors && actors[a].defaultVersionId == from ::
      r[a] == actors[a].(defaultVersionId := to, updatedAt := now)
    ensures forall a | a in actors && actors[a].defaultVersionId != from :: r[a] == actors[a]
  {
    map a | a in actors :: if actors[a].defaultVersionId == from then actors[a].(defaultVersionId := to, updatedAt := now) else actors[a]
  }

  /** After a bulk update to a different version no actor is left on the old one. */
  lemma RepointEmptiesOldVersion(actors: map<Uuid, ActorRecord>, from: Uuid, to: Uuid, now: Timestamp)
    requires from != to
    ensures forall a | a in Repoint(actors, from, to, now) :: Repoint(actors, from, to, now)[a].defaultVersionId != from
  {
  }

  /** Running the bulk update twice is the same as running it once. */
  lemma RepointIdempotent(actors: map<Uuid, ActorRecord>, from: Uuid, to: Uuid, now: Timestamp)
    ensures Repoint(Repoint(actors, from, to, now), from, to, now) == Repoint(actors, from, to, now)
  {
    var once := Repoint(actors, from, to, now);
    var twice := Repoint(once, from, to, now);
    forall a | a in once ensures twice[a] == once[a] {
      if actors[a].defaultVersionId == from {
        assert once[a].defaultVersionId == to;
      }
    }
  }

  // ================================================================ ACTOR

  /**
    One step of `writeDestinationConnection`. An existing actor gets the caller's fields and
    keeps its default version and creation time; a new actor starts on its definition's
    current default version, and the write fails when that definition has none. A missing
    tombstone is stored as false.
   */
  function WriteDestination(
    actors: map<Uuid, ActorRecord>, defs: map<Uuid, DefinitionRecord>, versions: map<Uuid, VersionRecord>,
    c: DestinationConnection, now: Timestamp)
    : (r: Result<map<Uuid, ActorRecord>, Error>)
    ensures r.Err? <==> c.destinationId !in actors && DefaultVersionId(defs, versions, c.destinationDefinitionId).None?
    ensures r.Err? ==> r.error == DefaultVersionNotFound(c.destinationDefinitionId)
    ensures r.Ok? ==>
      && r.value.Keys == actors.Keys + {c.destinationId}
      && (forall a | a in actors && a != c.destinationId :: r.value[a] == actors[a])
      && var row := r.value[c.destinationId];
         && row.workspaceId == c.workspaceId && row.actorDefinitionId == c.destinationDefinitionId
         && row.name == c.name && row.configuration == c.configuration && row.actorType == Destination
         && row.tombstone == (c.tombstone == Some(true)) && row.updatedAt == now
         && (c.destinationId in actors ==>
               row.defaultVersionId == actors[c.destinationId].defaultVersionId
               && row.createdAt == actors[c.destinationId].createdAt)
         && (c.destinationId !in actors ==>
               Some(row.defaultVersionId) == DefaultVersionId(defs, versions, c.destinationDefinitionId)
               && row.createdAt == now)
  {
    var id := c.destinationId;
    var tombstone := c.tombstone == Some(true);
    if id in actors then
      Ok(actors[id := actors[id].(workspaceId := c.workspaceId, actorDefinitionId := c.destinationDefinitionId,
                                  name := c.name, configuration := c.configuration, actorType := Destination,
                                  tombstone := tombstone, updatedAt := now)])
    else match DefaultVersionId(defs, versions, c.destinationDefinitionId)
      case None => Err(DefaultVersionNotFound(c.destinationDefinitionId))
      case Some(v) =>
        Ok(actors[id := ActorRecord(c.workspaceId, c.destinationDefinitionId, c.name, c.configuration, Destination,
                                    tombstone, v, now, now)])
  }

  /** `writeDestinationConnection`: the writes of the list in order, stopping at the first failure. */
  function WriteDestinations(
    actors: map<Uuid, ActorRecord>, defs: map<Uuid, DefinitionRecord>, versions: map<Uuid, VersionRecord>,
    cs: seq<DestinationConnection>, now: Timestamp)
    : Result<map<Uuid, ActorRecord>, Error>
    decreases |cs|
  {
    if |cs| == 0 then Ok(actors)
    else match WriteDestinations(actors, defs, versions, cs[..|cs| - 1], now)
      case Err(e) => Err(e)
      case Ok(written) => WriteDestination(written, defs, versions, cs[|cs| - 1], now)
  }

  /** Every actor points at a stored version. */
  ghost predicate ActorsResolve(actors: map<Uuid, ActorRecord>, versions: map<Uuid, VersionRecord>)
  {
    forall a | a in actors :: actors[a].defaultVersionId in versions
  }

  /** The actor ids a list of destination connections writes. */
  function DestinationIds(cs: seq<DestinationConnection>): (r: set<Uuid>)
    ensures forall i | 0 <= i < |cs| :: cs[i].destinationId in r
    decreases |cs|
  {
    if |cs| == 0 then {} else DestinationIds(cs[..|cs| - 1]) + {cs[|cs| - 1].destinationId}
  }

  /**
    Writing destinations adds exactly the listed ids, never changes the version an existing
    actor runs, and leaves every actor on a stored version.
   */
  lemma {:induction false} WriteDestinationsKeepsVersions(
    actors: map<Uuid, ActorRecord>, defs: map<Uuid, DefinitionRecord>, versions: map<Uuid, VersionRecord>,
    cs: seq<DestinationConnection>, now: Timestamp)
    requires ActorsResolve(actors, versions)
    requires WriteDestinations(actors, defs, versions, cs, now).Ok?
    ensures var r := WriteDestinations(actors, defs, versions, cs, now).value;
      && r.Keys == actors.Keys + DestinationIds(cs)
      && (forall a | a in actors :: r[a].defaultVersionId == actors[a].defaultVersionId)
      && ActorsResolve(r, versions)
    decreases |cs|
  {
    if |cs| > 0 {
      WriteDestinationsKeepsVersions(actors, defs, versions, cs[..|cs| - 1], now);
    }
  }

  /** Once a prefix of the list fails, the whole write fails with the same error. */
  lemma {:induction false} WriteDestinationsStopsAtFailure(
    actors: map<Uuid, ActorRecord>, defs: map<Uuid, DefinitionRecord>, versions: map<Uuid, VersionRecord>,
    cs: seq<DestinationConnection>, now: Timestamp, j: nat)
    requires j <= |cs|
    requires WriteDestinations(actors, defs, versions, cs[..j], now).Err?
    ensures WriteDestinations(actors, defs, versions, cs, now) == WriteDestinations(actors, defs, versions, cs[..j], now)
    decreases |cs|
  {
    if j < |cs| {
      var init := cs[..|cs| - 1];
      assert init[..j] == cs[..j];
      WriteDestinationsStopsAtFailure(actors, defs, versions, init, now, j);
    } else {
      assert cs[..j] == cs;
    }
  }

  /** A failed write names a listed definition that has no default version. */
  lemma {:induction false} WriteDestinationsFailure(
    actors: map<Uuid, ActorRecord>, defs: map<Uuid, DefinitionRecord>, versions: map<Uuid, VersionRecord>,
    cs: seq<DestinationConnection>, now: Timestamp)
    requires WriteDestinations(actors, defs, versions, cs, now).Err?
    ensures exists i | 0 <= i < |cs| ::
      && WriteDestinations(actors, defs, versions, cs, now).error == DefaultVersionNotFound(cs[i].destinationDefinitionId)
      && DefaultVersionId(defs, versions, cs[i].destinationDefinitionId).None?
    decreases |cs|
  {
    var init := cs[..|cs| - 1];
    if WriteDestinations(actors, defs, versions, init, now).Err? {
      WriteDestinationsFailure(actors, defs, versions, init, now);
      var i :| 0 <= i < |init| && WriteDestinations(actors, defs, versions, init, now).error == DefaultVersionNotFound(init[i].destinationDefinitionId)
        && DefaultVersionId(defs, versions, init[i].destinationDefinitionId).None?;
      assert cs[i] == init[i];
    } else {
      assert cs[|cs| - 1] == cs[|cs| - 1];
    }
  }

  // ================================================================ consistency

  /** Every default-version pointer names a stored version of that same definition. */
  ghost predicate DefaultsResolve(defs: map<Uuid, DefinitionRecord>, versions: map<Uuid, VersionRecord>)
  {
    forall d | d in defs && defs[d].defaultVersionId.Some? ::
      defs[d].defaultVersionId.value in versions && versions[defs[d].defaultVersionId.value].actorDefinitionId == d
  }
}
