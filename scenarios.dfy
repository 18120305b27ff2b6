/**
  Worked publishes: a destination definition whose current default version has tag 1.0.0
  is republished, upgraded to 2.0.0 across or below a breaking change, or given a tag that
  is not a version; and a first publish of a definition with no default yet.
 */
module Scenarios {
  import opened Wrappers
  import opened Versions
  import opened Entities
  import opened Upgrade
  import opened Tables
  import opened Registry

  /** The registry state the upgrade scenarios start from. */
  ghost predicate OnRelease100(db: Db, adv: ActorDefinitionVersion, current: Uuid)
  {
    && DefaultsResolve(db.definitions, db.versions)
    && DefaultVersionId(db.definitions, db.versions, adv.actorDefinitionId) == Some(current)
    && db.versions[current].dockerImageTag == "1.0.0"
  }

  /** A release tagged 2.0.0 that is not stored yet and whose id is free. */
  ghost predicate NewRelease200(db: Db, adv: ActorDefinitionVersion, freshId: Uuid)
  {
    && adv.dockerImageTag == "2.0.0"
    && VersionIdsWithTag(db.versions, adv.actorDefinitionId, adv.dockerImageTag) == {}
    && ChosenVersionId(adv, freshId) !in db.versions
  }

  /**
    1.0.0 -> 2.0.0 across a breaking change at 1.5.0: the definition moves to the new 2.0.0
    row, while an actor on the old default stays on it.
   */
  lemma PublishAcrossBreakingChange(db: Db, def: StandardDestinationDefinition, adv: ActorDefinitionVersion,
                                    freshId: Uuid, now: Timestamp, current: Uuid, a: Uuid)
    requires OnRelease100(db, adv, current) && NewRelease200(db, adv, freshId)
    requires def.destinationDefinitionId == adv.actorDefinitionId
    requires a in db.actors && db.actors[a].defaultVersionId == current
    ensures var r := Publish(db, def, adv, [BreakingChangeAt(adv.actorDefinitionId, Version(1, 5, 0))], freshId, now);
      && r.Ok?
      && r.value.definitions[adv.actorDefinitionId].defaultVersionId == Some(ChosenVersionId(adv, freshId))
      && r.value.versions[ChosenVersionId(adv, freshId)].dockerImageTag == "2.0.0"
      && r.value.actors[a] == db.actors[a]
  {
    var bcs := [BreakingChangeAt(adv.actorDefinitionId, Version(1, 5, 0))];
    UpgradeAcrossBreakingChangeHeldBack(adv.actorDefinitionId);
    PublishFailsExactlyWhen(db, def, adv, bcs, freshId, now);
    PublishPointerAlwaysMoves(db, def, adv, bcs, freshId, now);
    PublishHoldsBackExactlyOnCrossing(db, def, adv, bcs, freshId, now, a);
  }

  /** The same upgrade with the breaking change at 2.5.0, beyond the target: the actor moves. */
  lemma PublishBelowBreakingChange(db: Db, def: StandardDestinationDefinition, adv: ActorDefinitionVersion,
                                   freshId: Uuid, now: Timestamp, current: Uuid, a: Uuid)
    requires OnRelease100(db, adv, current) && NewRelease200(db, adv, freshId)
    requires def.destinationDefinitionId == adv.actorDefinitionId
    requires a in db.actors && db.actors[a].defaultVersionId == current
    ensures var r := Publish(db, def, adv, [BreakingChangeAt(adv.actorDefinitionId, Version(2, 5, 0))], freshId, now);
      && r.Ok?
      && r.value.definitions[adv.actorDefinitionId].defaultVersionId == Some(ChosenVersionId(adv, freshId))
      && r.value.actors[a].defaultVersionId == ChosenVersionId(adv, freshId)
  {
    var bcs := [BreakingChangeAt(adv.actorDefinitionId, Version(2, 5, 0))];
    BreakingChangeBeyondTargetIgnored(adv.actorDefinitionId);
    PublishFailsExactlyWhen(db, def, adv, bcs, freshId, now);
    PublishPointerAlwaysMoves(db, def, adv, bcs, freshId, now);
    PublishHoldsBackExactlyOnCrossing(db, def, adv, bcs, freshId, now, a);
  }

  /** Re-publishing the current tag 1.0.0 reuses its row: nothing is inserted and no actor moves off it. */
  lemma RepublishSameTag(db: Db, def: StandardDestinationDefinition, adv: ActorDefinitionVersion,
                         freshId: Uuid, now: Timestamp, current: Uuid, a: Uuid)
    requires OnRelease100(db, adv, current) && Consistent(db)
    requires adv.dockerImageTag == "1.0.0" && def.destinationDefinitionId == adv.actorDefinitionId
    requires a in db.actors && db.actors[a].defaultVersionId == current
    ensures var r := Publish(db, def, adv, [BreakingChangeAt(adv.actorDefinitionId, Version(1, 5, 0))], freshId, now);
      && r.Ok?
      && r.value.versions == db.versions
      && r.value.definitions[adv.actorDefinitionId].defaultVersionId == Some(current)
      && r.value.actors[a].defaultVersionId == current
  {
    var bcs := [BreakingChangeAt(adv.actorDefinitionId, Version(1, 5, 0))];
    ScenarioTags();
    assert current in VersionIdsWithTag(db.versions, adv.actorDefinitionId, adv.dockerImageTag);
    PublishFailsExactlyWhen(db, def, adv, bcs, freshId, now);
    RepublishReusesVersion(db, def, adv, bcs, freshId, now, current);
    PublishPointerAlwaysMoves(db, def, adv, bcs, freshId, now);
    PublishHoldsBackExactlyOnCrossing(db, def, adv, bcs, freshId, now, a);
  }

  /**
    The first publish of a definition unknown to the registry sets its default to the new
    row, whatever breaking changes are declared, and touches no actor.
   */
  lemma FirstPublish(db: Db, def: StandardDestinationDefinition, adv: ActorDefinitionVersion,
                     bcs: seq<ActorDefinitionBreakingChange>, freshId: Uuid, now: Timestamp)
    requires Consistent(db)
    requires def.destinationDefinitionId == adv.actorDefinitionId && adv.actorDefinitionId !in db.definitions
    requires forall v | v in db.versions :: db.versions[v].actorDefinitionId != adv.actorDefinitionId
    requires ChosenVersionId(adv, freshId) !in db.versions
    ensures var r := Publish(db, def, adv, bcs, freshId, now);
      && r.Ok?
      && r.value.definitions[adv.actorDefinitionId].defaultVersionId == Some(ChosenVersionId(adv, freshId))
      && r.value.versions == db.versions[ChosenVersionId(adv, freshId) := VersionRecordOf(adv, now)]
      && r.value.actors == db.actors
  {
    assert VersionIdsWithTag(db.versions, adv.actorDefinitionId, adv.dockerImageTag) == {};
    PublishFailsExactlyWhen(db, def, adv, bcs, freshId, now);
    PublishPointerAlwaysMoves(db, def, adv, bcs, freshId, now);
    PublishMovesActorsOnDecision(db, def, adv, bcs, freshId, now);
    NewTagInsertsOneVersion(db, def, adv, bcs, freshId, now);
  }

  /** The tags of the scenarios: two versions and a tag that is none. */
  lemma ScenarioTags()
    ensures Parse("1.0.0") == Some(Version(1, 0, 0))
    ensures Parse("2.0.0") == Some(Version(2, 0, 0))
    ensures Parse("not-a-version").None?
  {
    assert Serialize(Version(1, 0, 0)) == "1.0.0";
    assert Serialize(Version(2, 0, 0)) == "2.0.0";
    ParseSerialize(Version(1, 0, 0));
    ParseSerialize(Version(2, 0, 0));
    NotAVersion();
  }

  /** "not-a-version" has no dot, so it is not a version. */
  lemma NotAVersion()
    ensures Parse("not-a-version").None?
  {
    var tag := "not-a-version";
    assert forall k | 0 <= k < |tag| :: tag[k] != '.';
    DotlessTagIsInvalid(tag);
  }

  /** Publishing the tag "not-a-version" over 1.0.0 with a breaking change declared fails validation. */
  lemma PublishNonVersionTag(db: Db, def: StandardDestinationDefinition, adv: ActorDefinitionVersion,
                             freshId: Uuid, now: Timestamp, current: Uuid)
    requires OnRelease100(db, adv, current)
    requires adv.dockerImageTag == "not-a-version"
    requires ChosenVersionId(adv, freshId) !in db.versions
    ensures Publish(db, def, adv, [BreakingChangeAt(adv.actorDefinitionId, Version(1, 5, 0))], freshId, now)
         == Err(InvalidVersion("not-a-version"))
  {
    var bcs := [BreakingChangeAt(adv.actorDefinitionId, Version(1, 5, 0))];
    ScenarioTags();
    PublishFailsExactlyWhen(db, def, adv, bcs, freshId, now);
  }
}
