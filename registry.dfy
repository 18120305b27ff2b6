/**
  The version registry as a whole: the five tables as one value, the transaction that
  publishes a connector release (upsert the definition, upsert its breaking changes, resolve
  the release's tag to a stored version and promote it to default), and what publishing
  guarantees about default-version pointers and actors.
 */
module Registry {
  import opened Wrappers
  import opened Versions
  import opened Entities
  import opened Upgrade
  import opened Tables

  datatype Db = Db(
    definitions: map<Uuid, DefinitionRecord>,
    versions: map<Uuid, VersionRecord>,
    actors: map<Uuid, ActorRecord>,
    breakingChanges: map<BreakingChangeKey, BreakingChangeRecord>,
    grants: seq<GrantRecord>)

  /**
    What every write keeps: one version row per (definition, tag), every default pointer
    names a stored version of its own definition, and every actor runs a stored version.
   */
  ghost predicate Consistent(db: Db)
  {
    && UniqueTags(db.versions)
    && DefaultsResolve(db.definitions, db.versions)
    && ActorsResolve(db.actors, db.versions)
  }

  // ================================================================ the publish transaction

  /** The stored version (if any) of a definition with a given tag: `getActorDefinitionVersion`. */
  ghost function TagOwner(versions: map<Uuid, VersionRecord>, definitionId: Uuid, tag: string): (r: Option<Uuid>)
    ensures r.Some? ==> r.value in VersionIdsWithTag(versions, definitionId, tag)
    ensures r.None? <==> VersionIdsWithTag(versions, definitionId, tag) == {}
  {
    var ids := VersionIdsWithTag(versions, definitionId, tag);
    if ids == {} then None else var v :| v in ids; Some(v)
  }

  /**
    Tag resolution: reuse the stored version carrying the candidate's tag unchanged, or
    insert the candidate (with its own id, else the fresh one).
   */
  ghost function ResolveTag(versions: map<Uuid, VersionRecord>, adv: ActorDefinitionVersion, freshId: Uuid, now: Timestamp)
    : Result<(ActorDefinitionVersion, map<Uuid, VersionRecord>), Error>
  {
    match TagOwner(versions, adv.actorDefinitionId, adv.dockerImageTag)
    case Some(v) => Ok((VersionOfRecord(v, versions[v]), versions))
    case None =>
      match InsertVersion(versions, adv, freshId, now)
      case Err(e) => Err(e)
      case Ok((id, inserted)) => Ok((adv.(versionId := Some(id)), inserted))
  }

  /**
    The actors after promoting to `newId`: if the definition has a current default and the
    decision says the actors follow, the bulk update moves them; otherwise nobody moves.
   */
  function ActorsAfterPromotion(db: Db, adv: ActorDefinitionVersion, newId: Uuid,
                                bcs: seq<ActorDefinitionBreakingChange>, now: Timestamp)
    : Result<map<Uuid, ActorRecord>, Error>
  {
    match DefaultVersionId(db.definitions, db.versions, adv.actorDefinitionId)
    case None => Ok(db.actors)
    case Some(current) =>
      match ShouldUpdateActorsDefaultVersionsDuringUpgrade(db.versions[current].dockerImageTag, adv.dockerImageTag, bcs)
      case Err(e) => Err(e)
      case Ok(follow) => Ok(if follow then Repoint(db.actors, current, newId, now) else db.actors)
  }

  /**
    `setActorDefinitionVersionAsDefaultVersion`: refuse a version without id; otherwise
    decide about the actors, then always move the definition's pointer.
   */
  function Promote(db: Db, adv: ActorDefinitionVersion, bcs: seq<ActorDefinitionBreakingChange>, now: Timestamp)
    : Result<Db, Error>
  {
    if adv.versionId.None? then Err(MissingVersionId)
    else match ActorsAfterPromotion(db, adv, adv.versionId.value, bcs, now)
      case Err(e) => Err(e)
      case Ok(actors) =>
        Ok(db.(actors := actors,
               definitions := SetDefaultPointer(db.definitions, adv.actorDefinitionId, adv.versionId.value, now)))
  }

  /** `setActorDefinitionVersionForTagAsDefault`: resolve the tag, then promote. */
  ghost function SetForTagAsDefault(db: Db, adv: ActorDefinitionVersion, bcs: seq<ActorDefinitionBreakingChange>,
                                    freshId: Uuid, now: Timestamp)
    : Result<Db, Error>
  {
    match ResolveTag(db.versions, adv, freshId, now)
    case Err(e) => Err(e)
    case Ok((resolved, versions)) => Promote(db.(versions := versions), resolved, bcs, now)
  }

  /** The first two steps of a publish: upsert the definition, then its breaking changes. */
  function WriteDefinitionAndBreakingChanges(db: Db, def: StandardDestinationDefinition,
                                             bcs: seq<ActorDefinitionBreakingChange>, now: Timestamp): Db
  {
    db.(definitions := UpsertDefinitions(db.definitions, [def], now),
        breakingChanges := UpsertBreakingChanges(db.breakingChanges, bcs, now))
  }

  /** `writeConnectorMetadata`: the three steps of one publish, in order. */
  ghost function Publish(db: Db, def: StandardDestinationDefinition, adv: ActorDefinitionVersion,
                         bcs: seq<ActorDefinitionBreakingChange>, freshId: Uuid, now: Timestamp)
    : Result<Db, Error>
  {
    SetForTagAsDefault(WriteDefinitionAndBreakingChanges(db, def, bcs, now), adv, bcs, freshId, now)
  }

  /** `writeActorDefinitionWorkspaceGrant`: the grant row (workspace_id is set for workspace scopes). */
  function GrantFor(definitionId: Uuid, scopeId: Uuid, scopeType: ScopeType): (g: GrantRecord)
    ensures g.actorDefinitionId == definitionId && g.scopeId == scopeId && g.scopeType == scopeType
    ensures g.workspaceId == (if scopeType == Workspace then Some(scopeId) else None)
  {
    GrantRecord(definitionId, scopeType, scopeId, if scopeType == Workspace then Some(scopeId) else None)
  }

  /** `writeCustomConnectorMetadata`: publish with no breaking changes, then grant the scope. */
  ghost function PublishCustom(db: Db, def: StandardDestinationDefinition, adv: ActorDefinitionVersion,
                               scopeId: Uuid, scopeType: ScopeType, freshId: Uuid, now: Timestamp)
    : Result<Db, Error>
  {
    match Publish(db, def, adv, [], freshId, now)
    case Err(e) => Err(e)
    case Ok(published) =>
      Ok(published.(grants := published.grants + [GrantFor(def.destinationDefinitionId, scopeId, scopeType)]))
  }

  // ================================================================ the steps one by one

  /** The id the promotion makes default: the stored version of that tag, else the inserted one. */
  ghost function PromotedId(versions: map<Uuid, VersionRecord>, adv: ActorDefinitionVersion, freshId: Uuid): Uuid
  {
    match TagOwner(versions, adv.actorDefinitionId, adv.dockerImageTag)
    case Some(v) => v
    case None => ChosenVersionId(adv, freshId)
  }

  /**
    The definition and breaking-change writes touch neither versions, actors nor grants,
    always leave the definition's row in place, and do not change any current default.
   */
  lemma WriteDefinitionAndBreakingChangesFacts(db: Db, def: StandardDestinationDefinition,
                                               bcs: seq<ActorDefinitionBreakingChange>, now: Timestamp)
    ensures var w := WriteDefinitionAndBreakingChanges(db, def, bcs, now);
      && w.versions == db.versions && w.actors == db.actors && w.grants == db.grants
      && w.breakingChanges == UpsertBreakingChanges(db.breakingChanges, bcs, now)
      && def.destinationDefinitionId in w.definitions
      && (forall d :: DefaultVersionId(w.definitions, db.versions, d) == DefaultVersionId(db.definitions, db.versions, d))
      && (DefaultsResolve(db.definitions, db.versions) ==> DefaultsResolve(w.definitions, db.versions))
  {
    var defs := UpsertDefinitions(db.definitions, [def], now);
    UpsertDefinitionsKeys(db.definitions, [def], now);
    assert def.destinationDefinitionId in DefinitionIds([def]);
    forall d ensures DefaultVersionId(defs, db.versions, d) == DefaultVersionId(db.definitions, db.versions, d) {
      if d in defs {
        UpsertDefinitionsKeepsPointers(db.definitions, [def], now, d);
      }
    }
    if DefaultsResolve(db.definitions, db.versions) {
      UpsertDefinitionsKeepsDefaultsResolve(db.definitions, db.versions, [def], now);
    }
  }

  /** Resolution always yields a stored version of the candidate's definition and tag, under PromotedId. */
  lemma ResolveTagResult(versions: map<Uuid, VersionRecord>, adv: ActorDefinitionVersion, freshId: Uuid, now: Timestamp)
    requires ResolveTag(versions, adv, freshId, now).Ok?
    ensures var (resolved, after) := ResolveTag(versions, adv, freshId, now).value;
      && resolved.versionId == Some(PromotedId(versions, adv, freshId))
      && resolved.actorDefinitionId == adv.actorDefinitionId
      && resolved.dockerImageTag == adv.dockerImageTag
      && PromotedId(versions, adv, freshId) in after
      && after[PromotedId(versions, adv, freshId)].actorDefinitionId == adv.actorDefinitionId
      && after[PromotedId(versions, adv, freshId)].dockerImageTag == adv.dockerImageTag
      && versions.Keys <= after.Keys
      && (forall v | v in versions :: after[v] == versions[v])
  {
  }

  /** The decision on a table with more versions is the same when the old ones are unchanged. */
  lemma ActorsAfterPromotionOnGrownTable(db: Db, versions: map<Uuid, VersionRecord>, adv: ActorDefinitionVersion,
                                         resolved: ActorDefinitionVersion, newId: Uuid,
                                         bcs: seq<ActorDefinitionBreakingChange>, now: Timestamp)
    requires DefaultsResolve(db.definitions, db.versions)
    requires db.versions.Keys <= versions.Keys && forall v | v in db.versions :: versions[v] == db.versions[v]
    requires resolved.actorDefinitionId == adv.actorDefinitionId && resolved.dockerImageTag == adv.dockerImageTag
    ensures ActorsAfterPromotion(db.(versions := versions), resolved, newId, bcs, now)
         == ActorsAfterPromotion(db, adv, newId, bcs, now)
  {
    assert DefaultVersionId(db.definitions, versions, adv.actorDefinitionId)
        == DefaultVersionId(db.definitions, db.versions, adv.actorDefinitionId);
  }

  /**
    What resolving and promoting a tag does: the promoted id is a stored version of that
    definition and tag, no stored version changes, the definition points at the promoted id,
    and the actors are those of the promotion decision.
   */
  lemma SetForTagAsDefaultResult(db: Db, adv: ActorDefinitionVersion, bcs: seq<ActorDefinitionBreakingChange>,
                                 freshId: Uuid, now: Timestamp)
    requires DefaultsResolve(db.definitions, db.versions)
    requires SetForTagAsDefault(db, adv, bcs, freshId, now).Ok?
    ensures var after := SetForTagAsDefault(db, adv, bcs, freshId, now).value;
      var newId := PromotedId(db.versions, adv, freshId);
      && newId in after.versions
      && after.versions[newId].actorDefinitionId == adv.actorDefinitionId
      && after.versions[newId].dockerImageTag == adv.dockerImageTag
      && after.versions == ResolveTag(db.versions, adv, freshId, now).value.1
      && db.versions.Keys <= after.versions.Keys
      && (forall v | v in db.versions :: after.versions[v] == db.versions[v])
      && after.definitions == SetDefaultPointer(db.definitions, adv.actorDefinitionId, newId, now)
      && ActorsAfterPromotion(db, adv, newId, bcs, now).Ok?
      && after.actors == ActorsAfterPromotion(db, adv, newId, bcs, now).value
      && after.breakingChanges == db.breakingChanges
      && after.grants == db.grants
  {
    ResolveTagResult(db.versions, adv, freshId, now);
    var (resolved, versions) := ResolveTag(db.versions, adv, freshId, now).value;
    ActorsAfterPromotionOnGrownTable(db, versions, adv, resolved, PromotedId(db.versions, adv, freshId), bcs, now);
  }

  /** Resolving and promoting fails only on a duplicate version id or an unparseable tag. */
  lemma SetForTagAsDefaultFailures(db: Db, adv: ActorDefinitionVersion, bcs: seq<ActorDefinitionBreakingChange>,
                                   freshId: Uuid, now: Timestamp)
    requires SetForTagAsDefault(db, adv, bcs, freshId, now).Err?
    ensures SetForTagAsDefault(db, adv, bcs, freshId, now).error.DuplicateVersionId?
         || SetForTagAsDefault(db, adv, bcs, freshId, now).error.InvalidVersion?
  {
    if ResolveTag(db.versions, adv, freshId, now).Ok? {
      ResolveTagResult(db.versions, adv, freshId, now);
    }
  }

  /** Moving one definition's pointer to a stored version of it keeps every pointer resolving. */
  lemma PointerUpdateKeepsDefaultsResolve(defs: map<Uuid, DefinitionRecord>, versions: map<Uuid, VersionRecord>,
                                          grown: map<Uuid, VersionRecord>, definitionId: Uuid, versionId: Uuid,
                                          now: Timestamp)
    requires DefaultsResolve(defs, versions)
    requires versions.Keys <= grown.Keys && forall v | v in versions :: grown[v] == versions[v]
    requires versionId in grown && grown[versionId].actorDefinitionId == definitionId
    ensures DefaultsResolve(SetDefaultPointer(defs, definitionId, versionId, now), grown)
  {
  }

  /** After a bulk move to a stored version every actor still runs a stored version. */
  lemma RepointKeepsActorsResolve(actors: map<Uuid, ActorRecord>, versions: map<Uuid, VersionRecord>,
                                  grown: map<Uuid, VersionRecord>, from: Uuid, to: Uuid, now: Timestamp)
    requires ActorsResolve(actors, versions)
    requires versions.Keys <= grown.Keys && to in grown
    ensures ActorsResolve(actors, grown)
    ensures ActorsResolve(Repoint(actors, from, to, now), grown)
  {
  }

  /** Resolving a tag never duplicates one. */
  lemma ResolveTagKeepsTagsUnique(versions: map<Uuid, VersionRecord>, adv: ActorDefinitionVersion, freshId: Uuid,
                                  now: Timestamp)
    requires UniqueTags(versions)
    requires ResolveTag(versions, adv, freshId, now).Ok?
    ensures UniqueTags(ResolveTag(versions, adv, freshId, now).value.1)
  {
    if TagOwner(versions, adv.actorDefinitionId, adv.dockerImageTag).None? {
      InsertVersionKeepsTagsUnique(versions, adv, freshId, now);
    }
  }

  /** Resolving and promoting a tag keeps the registry consistent. */
  lemma SetForTagAsDefaultKeepsConsistent(db: Db, adv: ActorDefinitionVersion, bcs: seq<ActorDefinitionBreakingChange>,
                                          freshId: Uuid, now: Timestamp)
    requires Consistent(db)
    requires SetForTagAsDefault(db, adv, bcs, freshId, now).Ok?
    ensures Consistent(SetForTagAsDefault(db, adv, bcs, freshId, now).value)
  {
    SetForTagAsDefaultResult(db, adv, bcs, freshId, now);
    var after := SetForTagAsDefault(db, adv, bcs, freshId, now).value;
    var newId := PromotedId(db.versions, adv, freshId);
    ResolveTagKeepsTagsUnique(db.versions, adv, freshId, now);
    PointerUpdateKeepsDefaultsResolve(db.definitions, db.versions, after.versions, adv.actorDefinitionId, newId, now);
    match DefaultVersionId(db.definitions, db.versions, adv.actorDefinitionId)
    case None =>
      RepointKeepsActorsResolve(db.actors, db.versions, after.versions, newId, newId, now);
    case Some(current) =>
      RepointKeepsActorsResolve(db.actors, db.versions, after.versions, current, newId, now);
  }

  // ================================================================ guarantees of a publish

  /** A publish keeps the registry consistent; in particular it never duplicates a tag. */
  lemma PublishKeepsConsistent(db: Db, def: StandardDestinationDefinition, adv: ActorDefinitionVersion,
                               bcs: seq<ActorDefinitionBreakingChange>, freshId: Uuid, now: Timestamp)
    requires Consistent(db)
    requires Publish(db, def, adv, bcs, freshId, now).Ok?
    ensures Consistent(Publish(db, def, adv, bcs, freshId, now).value)
  {
    WriteDefinitionAndBreakingChangesFacts(db, def, bcs, now);
    SetForTagAsDefaultKeepsConsistent(WriteDefinitionAndBreakingChanges(db, def, bcs, now), adv, bcs, freshId, now);
  }

  /**
    The pointer always moves: after a publish the definition's default is the stored
    version carrying the published tag, whatever the decision about the actors was.
   */
  lemma PublishPointerAlwaysMoves(db: Db, def: StandardDestinationDefinition, adv: ActorDefinitionVersion,
                                  bcs: seq<ActorDefinitionBreakingChange>, freshId: Uuid, now: Timestamp)
    requires DefaultsResolve(db.definitions, db.versions)
    requires Publish(db, def, adv, bcs, freshId, now).Ok?
    requires adv.actorDefinitionId == def.destinationDefinitionId || adv.actorDefinitionId in db.definitions
    ensures var after := Publish(db, def, adv, bcs, freshId, now).value;
      var newId := PromotedId(db.versions, adv, freshId);
      && adv.actorDefinitionId in after.definitions
      && after.definitions[adv.actorDefinitionId].defaultVersionId == Some(newId)
      && newId in after.versions
      && after.versions[newId].actorDefinitionId == adv.actorDefinitionId
      && after.versions[newId].dockerImageTag == adv.dockerImageTag
  {
    WriteDefinitionAndBreakingChangesFacts(db, def, bcs, now);
    UpsertDefinitionsKeys(db.definitions, [def], now);
    SetForTagAsDefaultResult(WriteDefinitionAndBreakingChanges(db, def, bcs, now), adv, bcs, freshId, now);
  }

  /**
    Actors move exactly when the decision says so: with no current default nothing moves
    (a first publish changes no actor); otherwise the actors on the old default are bulk
    moved to the new one if the decision is yes, and all actors stay put if it is no.
   */
  lemma PublishMovesActorsOnDecision(db: Db, def: StandardDestinationDefinition, adv: ActorDefinitionVersion,
                                     bcs: seq<ActorDefinitionBreakingChange>, freshId: Uuid, now: Timestamp)
    requires DefaultsResolve(db.definitions, db.versions)
    requires Publish(db, def, adv, bcs, freshId, now).Ok?
    ensures var after := Publish(db, def, adv, bcs, freshId, now).value;
      match DefaultVersionId(db.definitions, db.versions, adv.actorDefinitionId)
      case None => after.actors == db.actors
      case Some(current) =>
        var decision := ShouldUpdateActorsDefaultVersionsDuringUpgrade(
          db.versions[current].dockerImageTag, adv.dockerImageTag, bcs);
        && decision.Ok?
        && after.actors == if decision.value then Repoint(db.actors, current, PromotedId(db.versions, adv, freshId), now)
                           else db.actors
  {
    var w := WriteDefinitionAndBreakingChanges(db, def, bcs, now);
    WriteDefinitionAndBreakingChangesFacts(db, def, bcs, now);
    SetForTagAsDefaultResult(w, adv, bcs, freshId, now);
    assert DefaultVersionId(w.definitions, w.versions, adv.actorDefinitionId)
        == DefaultVersionId(db.definitions, db.versions, adv.actorDefinitionId);
  }

  /**
    Actors are held back exactly when the upgrade crosses a breaking change: an actor on
    the old default keeps its version iff the decision is no; any other actor is untouched.
   */
  lemma PublishHoldsBackExactlyOnCrossing(db: Db, def: StandardDestinationDefinition, adv: ActorDefinitionVersion,
                                          bcs: seq<ActorDefinitionBreakingChange>, freshId: Uuid, now: Timestamp,
                                          a: Uuid)
    requires DefaultsResolve(db.definitions, db.versions)
    requires Publish(db, def, adv, bcs, freshId, now).Ok?
    requires a in db.actors
    ensures var after := Publish(db, def, adv, bcs, freshId, now).value;
      && a in after.actors
      && match DefaultVersionId(db.definitions, db.versions, adv.actorDefinitionId)
         case None => after.actors[a] == db.actors[a]
         case Some(current) =>
           if db.actors[a].defaultVersionId != current then after.actors[a] == db.actors[a]
           else
             var held := ShouldUpdateActorsDefaultVersionsDuringUpgrade(
               db.versions[current].dockerImageTag, adv.dockerImageTag, bcs) == Ok(false);
             && (held ==> after.actors[a] == db.actors[a])
             && (!held ==> after.actors[a] == db.actors[a].(defaultVersionId := PromotedId(db.versions, adv, freshId),
                                                              updatedAt := now))
  {
    PublishMovesActorsOnDecision(db, def, adv, bcs, freshId, now);
  }

  /** Re-publishing a tag the definition already has reuses its row and inserts nothing. */
  lemma RepublishReusesVersion(db: Db, def: StandardDestinationDefinition, adv: ActorDefinitionVersion,
                               bcs: seq<ActorDefinitionBreakingChange>, freshId: Uuid, now: Timestamp, v: Uuid)
    requires Consistent(db)
    requires v in db.versions
    requires db.versions[v].actorDefinitionId == adv.actorDefinitionId && db.versions[v].dockerImageTag == adv.dockerImageTag
    requires Publish(db, def, adv, bcs, freshId, now).Ok?
    ensures PromotedId(db.versions, adv, freshId) == v
    ensures Publish(db, def, adv, bcs, freshId, now).value.versions == db.versions
  {
    WriteDefinitionAndBreakingChangesFacts(db, def, bcs, now);
    SetForTagAsDefaultResult(WriteDefinitionAndBreakingChanges(db, def, bcs, now), adv, bcs, freshId, now);
    assert v in VersionIdsWithTag(db.versions, adv.actorDefinitionId, adv.dockerImageTag);
  }

  /**
    Publishing a new tag inserts exactly one row, under the supplied id or else the fresh
    one, and fails when that id is already taken.
   */
  lemma NewTagInsertsOneVersion(db: Db, def: StandardDestinationDefinition, adv: ActorDefinitionVersion,
                                bcs: seq<ActorDefinitionBreakingChange>, freshId: Uuid, now: Timestamp)
    requires DefaultsResolve(db.definitions, db.versions)
    requires VersionIdsWithTag(db.versions, adv.actorDefinitionId, adv.dockerImageTag) == {}
    ensures ChosenVersionId(adv, freshId) in db.versions ==>
      Publish(db, def, adv, bcs, freshId, now) == Err(DuplicateVersionId(ChosenVersionId(adv, freshId)))
    ensures Publish(db, def, adv, bcs, freshId, now).Ok? ==>
      Publish(db, def, adv, bcs, freshId, now).value.versions
        == db.versions[ChosenVersionId(adv, freshId) := VersionRecordOf(adv, now)]
  {
    var w := WriteDefinitionAndBreakingChanges(db, def, bcs, now);
    WriteDefinitionAndBreakingChangesFacts(db, def, bcs, now);
    if Publish(db, def, adv, bcs, freshId, now).Ok? {
      SetForTagAsDefaultResult(w, adv, bcs, freshId, now);
    }
  }

  /**
    The failures of a publish: a duplicate version id, or an unparseable tag in the
    decision; a version without id is never promoted on this path.
   */
  lemma PublishFailures(db: Db, def: StandardDestinationDefinition, adv: ActorDefinitionVersion,
                        bcs: seq<ActorDefinitionBreakingChange>, freshId: Uuid, now: Timestamp)
    requires Publish(db, def, adv, bcs, freshId, now).Err?
    ensures Publish(db, def, adv, bcs, freshId, now).error.DuplicateVersionId?
         || Publish(db, def, adv, bcs, freshId, now).error.InvalidVersion?
  {
    SetForTagAsDefaultFailures(WriteDefinitionAndBreakingChanges(db, def, bcs, now), adv, bcs, freshId, now);
  }

  /**
    A publish fails exactly when the new tag's row cannot be inserted under its id, or when
    the definition has a current default and the decision on the two tags fails; in the
    second case the publish fails with the decision's error.
   */
  lemma PublishFailsExactlyWhen(db: Db, def: StandardDestinationDefinition, adv: ActorDefinitionVersion,
                                bcs: seq<ActorDefinitionBreakingChange>, freshId: Uuid, now: Timestamp)
    requires DefaultsResolve(db.definitions, db.versions)
    ensures Publish(db, def, adv, bcs, freshId, now).Err? <==>
      || (VersionIdsWithTag(db.versions, adv.actorDefinitionId, adv.dockerImageTag) == {}
          && ChosenVersionId(adv, freshId) in db.versions)
      || (DefaultVersionId(db.definitions, db.versions, adv.actorDefinitionId).Some?
          && ShouldUpdateActorsDefaultVersionsDuringUpgrade(
               db.versions[DefaultVersionId(db.definitions, db.versions, adv.actorDefinitionId).value].dockerImageTag,
               adv.dockerImageTag, bcs).Err?)
    ensures && !(VersionIdsWithTag(db.versions, adv.actorDefinitionId, adv.dockerImageTag) == {}
                 && ChosenVersionId(adv, freshId) in db.versions)
            && DefaultVersionId(db.definitions, db.versions, adv.actorDefinitionId).Some? ==>
      var decision := ShouldUpdateActorsDefaultVersionsDuringUpgrade(
        db.versions[DefaultVersionId(db.definitions, db.versions, adv.actorDefinitionId).value].dockerImageTag,
        adv.dockerImageTag, bcs);
      decision.Err? ==> Publish(db, def, adv, bcs, freshId, now) == Err(decision.error)
  {
    var w := WriteDefinitionAndBreakingChanges(db, def, bcs, now);
    WriteDefinitionAndBreakingChangesFacts(db, def, bcs, now);
    assert DefaultVersionId(w.definitions, w.versions, adv.actorDefinitionId)
        == DefaultVersionId(db.definitions, db.versions, adv.actorDefinitionId);
    if ResolveTag(w.versions, adv, freshId, now).Ok? {
      ResolveTagResult(w.versions, adv, freshId, now);
      var (resolved, versions) := ResolveTag(w.versions, adv, freshId, now).value;
      ActorsAfterPromotionOnGrownTable(w, versions, adv, resolved, PromotedId(w.versions, adv, freshId), bcs, now);
    }
  }

  /** The other tables: breaking changes are the batch upsert, grants are untouched. */
  lemma PublishWritesBreakingChanges(db: Db, def: StandardDestinationDefinition, adv: ActorDefinitionVersion,
                                     bcs: seq<ActorDefinitionBreakingChange>, freshId: Uuid, now: Timestamp)
    requires DefaultsResolve(db.definitions, db.versions)
    requires Publish(db, def, adv, bcs, freshId, now).Ok?
    ensures Publish(db, def, adv, bcs, freshId, now).value.breakingChanges
         == UpsertBreakingChanges(db.breakingChanges, bcs, now)
    ensures Publish(db, def, adv, bcs, freshId, now).value.grants == db.grants
  {
    WriteDefinitionAndBreakingChangesFacts(db, def, bcs, now);
    SetForTagAsDefaultResult(WriteDefinitionAndBreakingChanges(db, def, bcs, now), adv, bcs, freshId, now);
  }

  /**
    A custom connector (no breaking changes) is never held back and never fails on a tag:
    its only failure is a duplicate version id, and actors on the old default always follow.
   */
  lemma CustomPublishAlwaysPropagates(db: Db, def: StandardDestinationDefinition, adv: ActorDefinitionVersion,
                                      scopeId: Uuid, scopeType: ScopeType, freshId: Uuid, now: Timestamp)
    requires DefaultsResolve(db.definitions, db.versions)
    ensures PublishCustom(db, def, adv, scopeId, scopeType, freshId, now).Err? ==>
      PublishCustom(db, def, adv, scopeId, scopeType, freshId, now) == Err(DuplicateVersionId(ChosenVersionId(adv, freshId)))
    ensures PublishCustom(db, def, adv, scopeId, scopeType, freshId, now).Ok? ==>
      var after := PublishCustom(db, def, adv, scopeId, scopeType, freshId, now).value;
      && after.grants == db.grants + [GrantFor(def.destinationDefinitionId, scopeId, scopeType)]
      && after.actors == match DefaultVersionId(db.definitions, db.versions, adv.actorDefinitionId)
                         case None => db.actors
                         case Some(current) => Repoint(db.actors, current, PromotedId(db.versions, adv, freshId), now)
  {
    if Publish(db, def, adv, [], freshId, now).Ok? {
      PublishMovesActorsOnDecision(db, def, adv, [], freshId, now);
      PublishWritesBreakingChanges(db, def, adv, [], freshId, now);
    } else {
      PublishFailsExactlyWhen(db, def, adv, [], freshId, now);
      NewTagInsertsOneVersion(db, def, adv, [], freshId, now);
    }
  }
}
