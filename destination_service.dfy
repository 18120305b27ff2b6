/**
  The destination service over its tables: each table is a field that the write methods
  update in place. Every method is specified by the corresponding function of Tables or
  Registry on the state before the call, and the transactional entry points restore the
  tables when a step fails.
 */
module DestinationService {
  import opened Wrappers
  import opened Versions
  import opened Entities
  import opened Upgrade
  import opened Tables
  import opened Registry

  class DestinationServiceJooqImpl {
    var definitions: map<Uuid, DefinitionRecord>
    var versions: map<Uuid, VersionRecord>
    var actors: map<Uuid, ActorRecord>
    var breakingChanges: map<BreakingChangeKey, BreakingChangeRecord>
    var grants: seq<GrantRecord>

    /** The tables as one value. */
    function State(): Db
      reads this
    {
      Db(definitions, versions, actors, breakingChanges, grants)
    }

    ghost predicate Valid()
      reads this
    {
      Consistent(State())
    }

    /** A service over a database and the rows it already holds. */
    constructor(db: Db)
      requires Consistent(db)
      ensures State() == db
      ensures Valid()
    {
      definitions, versions, actors, breakingChanges, grants :=
        db.definitions, db.versions, db.actors, db.breakingChanges, db.grants;
    }

    // ============================================================ lookups

    /**
      `getActorDefinitionVersion`: the stored version of a definition with a given tag, if
      any. The query is unordered, so with several matching rows any of them may come back;
      in a valid registry there is at most one.
     */
    method GetActorDefinitionVersion(definitionId: Uuid, dockerImageTag: string) returns (r: Option<ActorDefinitionVersion>)
      ensures r.None? <==> VersionIdsWithTag(versions, definitionId, dockerImageTag) == {}
      ensures r.Some? ==> && r.value.versionId.Some?
                          && r.value.versionId.value in VersionIdsWithTag(versions, definitionId, dockerImageTag)
                          && r.value == VersionOfRecord(r.value.versionId.value, versions[r.value.versionId.value])
      ensures Valid() ==> r == match TagOwner(versions, definitionId, dockerImageTag)
                               case None => None
                               case Some(v) => Some(VersionOfRecord(v, versions[v]))
    {
      var ids := VersionIdsWithTag(versions, definitionId, dockerImageTag);
      if ids == {} {
        return None;
      }
      var v :| v in ids;
      r := Some(VersionOfRecord(v, versions[v]));
      if Valid() {
        assert TagOwner(versions, definitionId, dockerImageTag) == Some(v);
      }
    }

    /**
      `getDefaultVersionForActorDefinitionIdOptional`: the definition's default version,
      joined with the version table. In a valid registry the join loses nothing, and the
      version belongs to the definition.
     */
    function GetDefaultVersionForActorDefinitionIdOptional(definitionId: Uuid): (r: Option<ActorDefinitionVersion>)
      reads this
      ensures r.Some? <==> DefaultVersionId(definitions, versions, definitionId).Some?
      ensures r.Some? ==> r.value == VersionOfRecord(DefaultVersionId(definitions, versions, definitionId).value,
                                                     versions[DefaultVersionId(definitions, versions, definitionId).value])
      ensures Valid() ==> (r.Some? <==> definitionId in definitions && definitions[definitionId].defaultVersionId.Some?)
      ensures Valid() && r.Some? ==> r.value.actorDefinitionId == definitionId
    {
      if definitionId !in definitions then None
      else match definitions[definitionId].defaultVersionId
        case None => None
        case Some(v) => if v in versions then Some(VersionOfRecord(v, versions[v])) else None
    }

    /** `getDefaultVersionForActorDefinitionId`: the same lookup, failing when there is no default. */
    function GetDefaultVersionForActorDefinitionId(definitionId: Uuid): (r: Result<ActorDefinitionVersion, Error>)
      reads this
      ensures r.Err? <==> DefaultVersionId(definitions, versions, definitionId).None?
      ensures r.Err? ==> r.error == DefaultVersionNotFound(definitionId)
      ensures r.Ok? ==> && r.value.versionId == DefaultVersionId(definitions, versions, definitionId)
                        && r.value == VersionOfRecord(r.value.versionId.value, versions[r.value.versionId.value])
    {
      match GetDefaultVersionForActorDefinitionIdOptional(definitionId)
      case None => Err(DefaultVersionNotFound(definitionId))
      case Some(adv) => Ok(adv)
    }

    // ============================================================ single-table writes

    /** `writeStandardDestinationDefinition`: insert or update each definition of the list, in order. */
    method WriteStandardDestinationDefinition(configs: seq<StandardDestinationDefinition>, now: Timestamp)
      requires Valid()
      modifies this
      ensures definitions == UpsertDefinitions(old(definitions), configs, now)
      ensures versions == old(versions) && actors == old(actors)
      ensures breakingChanges == old(breakingChanges) && grants == old(grants)
      ensures Valid()
    {
      var i := 0;
      while i < |configs|
        invariant 0 <= i <= |configs|
        invariant definitions == UpsertDefinitions(old(definitions), configs[..i], now)
        invariant versions == old(versions) && actors == old(actors)
        invariant breakingChanges == old(breakingChanges) && grants == old(grants)
      {
        var d := configs[i];
        var id := d.destinationDefinitionId;
        if id in definitions {
          definitions := definitions[id := definitions[id].(actorType := Destination, name := d.name, icon := d.icon,
                                                            tombstone := d.tombstone, isPublic := d.isPublic,
                                                            custom := d.custom,
                                                            resourceRequirements := d.resourceRequirements,
                                                            updatedAt := now)];
        } else {
          definitions := definitions[id := DefinitionRecord(Destination, d.name, d.icon, Some(d.tombstone == Some(true)),
                                                            d.isPublic, d.custom, d.resourceRequirements, None, now, now)];
        }
        assert configs[..i + 1][..i] == configs[..i];
        i := i + 1;
      }
      assert configs[..|configs|] == configs;
      UpsertDefinitionsKeepsDefaultsResolve(old(definitions), versions, configs, now);
    }

    /**
      `updateStandardDestinationDefinition`: the definition must already exist as a
      destination definition (tombstoned or not); then it is written like any other.
     */
    method UpdateStandardDestinationDefinition(d: StandardDestinationDefinition, now: Timestamp) returns (r: Outcome<Error>)
      requires Valid()
      modifies this
      ensures r.Fail? <==> !(d.destinationDefinitionId in old(definitions)
                             && old(definitions)[d.destinationDefinitionId].actorType == Destination)
      ensures r.Fail? ==> r.error == DefinitionNotFound(d.destinationDefinitionId) && State() == old(State())
      ensures r.Pass? ==> State() == old(State()).(definitions := UpsertDefinitions(old(definitions), [d], now))
      ensures Valid()
    {
      var id := d.destinationDefinitionId;
      if !(id in definitions && definitions[id].actorType == Destination) {
        return Fail(DefinitionNotFound(id));
      }
      WriteStandardDestinationDefinition([d], now);
      r := Pass;
    }

    /** `writeActorDefinitionBreakingChanges`: one upsert per breaking change, as one batch. */
    method WriteActorDefinitionBreakingChanges(bcs: seq<ActorDefinitionBreakingChange>, now: Timestamp)
      modifies this
      ensures breakingChanges == UpsertBreakingChanges(old(breakingChanges), bcs, now)
      ensures definitions == old(definitions) && versions == old(versions)
      ensures actors == old(actors) && grants == old(grants)
    {
      var i := 0;
      while i < |bcs|
        invariant 0 <= i <= |bcs|
        invariant breakingChanges == UpsertBreakingChanges(old(breakingChanges), bcs[..i], now)
        invariant definitions == old(definitions) && versions == old(versions)
        invariant actors == old(actors) && grants == old(grants)
      {
        var bc := bcs[i];
        var key := BreakingChangeKeyOf(bc);
        if key in breakingChanges {
          breakingChanges := breakingChanges[key := breakingChanges[key].(
            upgradeDeadline := bc.upgradeDeadline, message := bc.message,
            migrationDocumentationUrl := bc.migrationDocumentationUrl, updatedAt := now)];
        } else {
          breakingChanges := breakingChanges[key := BreakingChangeRecord(
            bc.upgradeDeadline, bc.message, bc.migrationDocumentationUrl, now, now)];
        }
        assert bcs[..i + 1][..i] == bcs[..i];
        i := i + 1;
      }
      assert bcs[..|bcs|] == bcs;
    }

    /**
      `writeActorDefinitionVersion`: insert the version under its own id, or a fresh one
      when it has none, and return it with that id. The insert fails on a taken id.
      A step of the transactional entry points; on its own it does not keep `Valid()`.
     */
    method WriteActorDefinitionVersion(adv: ActorDefinitionVersion, freshId: Uuid, now: Timestamp)
      returns (r: Result<ActorDefinitionVersion, Error>)
      modifies this
      ensures match InsertVersion(old(versions), adv, freshId, now)
              case Err(e) => r == Err(e) && versions == old(versions)
              case Ok((id, inserted)) => r == Ok(adv.(versionId := Some(id))) && versions == inserted
      ensures definitions == old(definitions) && actors == old(actors)
      ensures breakingChanges == old(breakingChanges) && grants == old(grants)
    {
      var id := if adv.versionId.Some? then adv.versionId.value else freshId;
      if id in versions {
        return Err(DuplicateVersionId(id));
      }
      versions := versions[id := VersionRecord(adv.actorDefinitionId, adv.dockerRepository, adv.dockerImageTag,
                                               adv.spec, adv.details, now, now)];
      r := Ok(adv.(versionId := Some(id)));
    }

    /**
      `updateActorDefinitionDefaultVersionId`: repoint one definition (a missing row is left alone).
      A step of the transactional entry points; on its own it does not keep `Valid()`.
     */
    method UpdateActorDefinitionDefaultVersionId(definitionId: Uuid, versionId: Uuid, now: Timestamp)
      modifies this
      ensures definitions == SetDefaultPointer(old(definitions), definitionId, versionId, now)
      ensures versions == old(versions) && actors == old(actors)
      ensures breakingChanges == old(breakingChanges) && grants == old(grants)
    {
      if definitionId in definitions {
        definitions := definitions[definitionId := definitions[definitionId].(defaultVersionId := Some(versionId),
                                                                              updatedAt := now)];
      }
    }

    /**
      `updateDefaultVersionIdForActorsOnVersion`: move every actor on one version to another.
      A step of the transactional entry points; on its own it does not keep `Valid()`.
     */
    method UpdateDefaultVersionIdForActorsOnVersion(previousDefaultVersionId: Uuid, newDefaultVersionId: Uuid,
                                                    now: Timestamp)
      modifies this
      ensures actors == Repoint(old(actors), previousDefaultVersionId, newDefaultVersionId, now)
      ensures definitions == old(definitions) && versions == old(versions)
      ensures breakingChanges == old(breakingChanges) && grants == old(grants)
    {
      actors := map a | a in actors ::
        if actors[a].defaultVersionId == previousDefaultVersionId
        then actors[a].(defaultVersionId := newDefaultVersionId, updatedAt := now)
        else actors[a];
    }

    /** `writeActorDefinitionWorkspaceGrant`: add one grant row for the scope. */
    method WriteActorDefinitionWorkspaceGrant(definitionId: Uuid, scopeId: Uuid, scopeType: ScopeType)
      modifies this
      ensures grants == old(grants) + [GrantFor(definitionId, scopeId, scopeType)]
      ensures definitions == old(definitions) && versions == old(versions)
      ensures actors == old(actors) && breakingChanges == old(breakingChanges)
    {
      var grant := GrantRecord(definitionId, scopeType, scopeId, None);
      if scopeType == Workspace {
        grant := grant.(workspaceId := Some(scopeId));
      }
      grants := grants + [grant];
    }

    // ============================================================ promotion

    /**
      `setActorDefinitionVersionAsDefaultVersion`: refuse a version without id; if the
      definition has a current default, let the decision say whether its actors follow;
      then move the definition's pointer. Every failure comes before the first write.
      A step of the transactional entry points; on its own it does not keep `Valid()`.
     */
    method SetActorDefinitionVersionAsDefaultVersion(adv: ActorDefinitionVersion, bcs: seq<ActorDefinitionBreakingChange>,
                                                    now: Timestamp)
      returns (r: Outcome<Error>)
      modifies this
      ensures Promote(old(State()), adv, bcs, now) == if r.Pass? then Ok(State()) else Err(r.error)
      ensures r.Fail? ==> State() == old(State())
    {
      if adv.versionId.None? {
        return Fail(MissingVersionId);
      }
      var newId := adv.versionId.value;
      var currentDefault := GetDefaultVersionForActorDefinitionIdOptional(adv.actorDefinitionId);
      if currentDefault.Some? {
        var decision := ShouldUpdateActorsDefaultVersionsDuringUpgrade(
          currentDefault.value.dockerImageTag, adv.dockerImageTag, bcs);
        if decision.Err? {
          return Fail(decision.error);
        }
        if decision.value {
          UpdateDefaultVersionIdForActorsOnVersion(currentDefault.value.versionId.value, newId, now);
        }
      }
      UpdateActorDefinitionDefaultVersionId(adv.actorDefinitionId, newId, now);
      r := Pass;
    }

    /**
      `setActorDefinitionVersionForTagAsDefault`: promote the stored version with the
      candidate's tag, or insert the candidate and promote that.
     */
    method SetActorDefinitionVersionForTagAsDefault(adv: ActorDefinitionVersion, bcs: seq<ActorDefinitionBreakingChange>,
                                                   freshId: Uuid, now: Timestamp)
      returns (r: Outcome<Error>)
      requires Valid()
      modifies this
      ensures SetForTagAsDefault(old(State()), adv, bcs, freshId, now) == if r.Pass? then Ok(State()) else Err(r.error)
      ensures r.Pass? ==> Valid()
    {
      ghost var before := State();
      var existing := GetActorDefinitionVersion(adv.actorDefinitionId, adv.dockerImageTag);
      if existing.Some? {
        r := SetActorDefinitionVersionAsDefaultVersion(existing.value, bcs, now);
      } else {
        var inserted := WriteActorDefinitionVersion(adv, freshId, now);
        if inserted.Err? {
          return Fail(inserted.error);
        }
        r := SetActorDefinitionVersionAsDefaultVersion(inserted.value, bcs, now);
      }
      if r.Pass? {
        SetForTagAsDefaultKeepsConsistent(before, adv, bcs, freshId, now);
      }
    }

    // ============================================================ publishing a release

    /** `writeConnectorMetadata` with a context: the three steps of one publish, in order. */
    method WriteConnectorMetadataInContext(def: StandardDestinationDefinition, adv: ActorDefinitionVersion,
                                           bcs: seq<ActorDefinitionBreakingChange>, freshId: Uuid, now: Timestamp)
      returns (r: Outcome<Error>)
      requires Valid()
      modifies this
      ensures Publish(old(State()), def, adv, bcs, freshId, now) == if r.Pass? then Ok(State()) else Err(r.error)
      ensures r.Pass? ==> Valid()
    {
      WriteStandardDestinationDefinition([def], now);
      WriteActorDefinitionBreakingChanges(bcs, now);
      assert State() == WriteDefinitionAndBreakingChanges(old(State()), def, bcs, now);
      r := SetActorDefinitionVersionForTagAsDefault(adv, bcs, freshId, now);
    }

    /**
      `writeConnectorMetadata`: publish a release as one transaction. It either has the
      effect of the publish or fails with its error and leaves every table as it was.
     */
    method WriteConnectorMetadata(def: StandardDestinationDefinition, adv: ActorDefinitionVersion,
                                  bcs: seq<ActorDefinitionBreakingChange>, freshId: Uuid, now: Timestamp)
      returns (r: Outcome<Error>)
      requires Valid()
      modifies this
      ensures Publish(old(State()), def, adv, bcs, freshId, now) == if r.Pass? then Ok(State()) else Err(r.error)
      ensures r.Fail? ==> State() == old(State())
      ensures Valid()
    {
      ghost var before := State();
      ghost var published := Publish(before, def, adv, bcs, freshId, now);
      var d0, v0, a0, b0, g0 := definitions, versions, actors, breakingChanges, grants;
      r := WriteConnectorMetadataInContext(def, adv, bcs, freshId, now);
      assert published == if r.Pass? then Ok(State()) else Err(r.error);
      if r.Fail? {
        definitions, versions, actors, breakingChanges, grants := d0, v0, a0, b0, g0;
        assert State() == before && Consistent(before);
      }
    }

    /**
      `writeCustomConnectorMetadata`: publish with no breaking changes and grant the scope
      access to the definition, as one transaction.
     */
    method WriteCustomConnectorMetadata(def: StandardDestinationDefinition, adv: ActorDefinitionVersion,
                                        scopeId: Uuid, scopeType: ScopeType, freshId: Uuid, now: Timestamp)
      returns (r: Outcome<Error>)
      requires Valid()
      modifies this
      ensures PublishCustom(old(State()), def, adv, scopeId, scopeType, freshId, now)
           == if r.Pass? then Ok(State()) else Err(r.error)
      ensures r.Fail? ==> State() == old(State())
      ensures Valid()
    {
      ghost var before := State();
      ghost var published := Publish(before, def, adv, [], freshId, now);
      var d0, v0, a0, b0, g0 := definitions, versions, actors, breakingChanges, grants;
      r := WriteConnectorMetadataInContext(def, adv, [], freshId, now);
      assert published == if r.Pass? then Ok(State()) else Err(r.error);
      if r.Fail? {
        definitions, versions, actors, breakingChanges, grants := d0, v0, a0, b0, g0;
        assert State() == before && Consistent(before);
        return;
      }
      WriteActorDefinitionWorkspaceGrant(def.destinationDefinitionId, scopeId, scopeType);
    }

    // ============================================================ actors

    /**
      `writeDestinationConnection`: insert or update each destination of the list, in
      order. A new destination starts on its definition's default version; the first one
      whose definition has none stops the loop, with the writes before it in place.
      A step of the transactional entry points; on its own it does not keep `Valid()`.
     */
    method WriteDestinationConnection(configs: seq<DestinationConnection>, now: Timestamp) returns (r: Outcome<Error>)
      modifies this
      ensures WriteDestinations(old(actors), definitions, versions, configs, now)
           == if r.Pass? then Ok(actors) else Err(r.error)
      ensures r.Fail? ==> exists i | 0 <= i < |configs| ::
        && WriteDestinations(old(actors), definitions, versions, configs[..i], now) == Ok(actors)
        && WriteDestination(actors, definitions, versions, configs[i], now) == Err(r.error)
      ensures definitions == old(definitions) && versions == old(versions)
      ensures breakingChanges == old(breakingChanges) && grants == old(grants)
    {
      var i := 0;
      while i < |configs|
        invariant 0 <= i <= |configs|
        invariant WriteDestinations(old(actors), definitions, versions, configs[..i], now) == Ok(actors)
        invariant definitions == old(definitions) && versions == old(versions)
        invariant breakingChanges == old(breakingChanges) && grants == old(grants)
      {
        var c := configs[i];
        var id := c.destinationId;
        assert configs[..i + 1][..i] == configs[..i];
        if id in actors {
          actors := actors[id := actors[id].(workspaceId := c.workspaceId, actorDefinitionId := c.destinationDefinitionId,
                                             name := c.name, configuration := c.configuration, actorType := Destination,
                                             tombstone := c.tombstone == Some(true), updatedAt := now)];
        } else {
          var defaultVersion := GetDefaultVersionForActorDefinitionId(c.destinationDefinitionId);
          if defaultVersion.Err? {
            WriteDestinationsStopsAtFailure(old(actors), definitions, versions, configs, now, i + 1);
            return Fail(defaultVersion.error);
          }
          actors := actors[id := ActorRecord(c.workspaceId, c.destinationDefinitionId, c.name, c.configuration,
                                             Destination, c.tombstone == Some(true),
                                             defaultVersion.value.versionId.value, now, now)];
        }
        i := i + 1;
      }
      assert configs[..|configs|] == configs;
      r := Pass;
    }

    /**
      `writeDestinationConnectionNoSecrets`: write one destination as a transaction; a
      new destination whose definition has no default version leaves the tables unchanged.
     */
    method WriteDestinationConnectionNoSecrets(c: DestinationConnection, now: Timestamp) returns (r: Outcome<Error>)
      requires Valid()
      modifies this
      ensures WriteDestination(old(actors), definitions, versions, c, now)
           == if r.Pass? then Ok(actors) else Err(r.error)
      ensures r.Fail? ==> State() == old(State())
      ensures r.Pass? ==> old(State()).(actors := actors) == State()
      ensures Valid()
    {
      var a0 := actors;
      r := WriteDestinationConnection([c], now);
      assert [c][..0] == [];
      if r.Fail? {
        actors := a0;
      } else {
        WriteDestinationsKeepsVersions(a0, definitions, versions, [c], now);
      }
    }
  }
}
