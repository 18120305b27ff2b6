# Destination connector version registry, in Dafny

This project models the write side of Airbyte's `DestinationServiceJooqImpl`. That side
decides which connector version a destination definition points at whenever a new
release is published, and whether the existing destinations (actors) move with it. It
also models `PartialUserConfigMapper`, the mapping between the stored partial user config
and its model.

The tables the service writes are maps from primary key to row:

| table | key | row |
|---|---|---|
| ACTOR_DEFINITION | definition id | the definition, including its `default_version_id` |
| ACTOR_DEFINITION_VERSION | version id | definition id, docker repository and image tag, spec and the other details |
| ACTOR_DEFINITION_BREAKING_CHANGE | (definition id, serialized version) | deadline, message, migration URL |
| ACTOR | actor id | workspace, definition, name, configuration, tombstone, default version |
| ACTOR_DEFINITION_WORKSPACE_GRANT | (none) | a grant row |

The project has these modules:

- `Versions` (`versions.dfy`): connector versions `major.minor.patch`. It has a strict parser and the lexicographic order, and proves that parsing a serialized version gives it back.
- `Entities` (`entities.dfy`): what callers pass in, the table rows, and the errors.
- `Upgrade` (`upgrade.dfy`): the promotion decision `shouldUpdateActorsDefaultVersionsDuringUpgrade` as a pure function, with its properties.
- `Tables` (`tables.dfy`): each single-table write and lookup as a function from table to table. It also holds the consistency conditions those writes keep.
- `Registry` (`registry.dfy`): the whole publish transaction as a function on a `Db` value (all five tables), with the guarantees of a publish:
  - the pointer always moves;
  - actors are held back exactly when a breaking change is crossed;
  - no tag is duplicated;
  - untouched actors keep their row;
  - which errors are possible.
- `DestinationService` (`destination_service.dfy`): the class `DestinationServiceJooqImpl`. Each table is a field and each write is a method that updates it in place. Loops carry invariants tying them to the `Tables` functions. Every method is proved against the `Tables`/`Registry` function of the state before the call. The transactional entry points restore every table when a step fails.
- `Scenarios` (`scenarios.dfy`): worked publishes over any registry whose current default is 1.0.0:
  - an upgrade to 2.0.0 across a breaking change at 1.5.0;
  - the same upgrade with the breaking change at 2.5.0;
  - re-publishing 1.0.0;
  - the first publish of a definition;
  - publishing a tag that is not a version.
- `PartialUserConfigMapper` (`partial_user_config_mapper.dfy`): `toConfigModel`/`toEntity` and their round trips.

Inputs the code takes from its environment become parameters:
- the clock is a `now` timestamp;
- `UUID.randomUUID()` is a `freshId` supplied by the caller.

A failing step is an `Err`, or a `Fail` outcome, naming the error. The database's
transaction rollback is modelled by the entry points restoring the tables.

In these places the model follows the code, whose behaviour is easy to misread:

- **When the tags are parsed.** The decision parses the tags only when the breaking-change list is non-empty. An unparseable tag therefore fails a publish only when breaking changes are declared.
- **First publish.** The decision is consulted only when the definition already has a current default. Without one, no actor is touched, and the definition's pointer is still set.
- **Tombstone on update.** Updating an existing definition stores the given tombstone as it is, even when it is unset (`DestinationServiceJooqImpl.java:906`). Inserting a new definition stores an unset tombstone as false (922-923). The row therefore keeps the tombstone as an optional value.
- **Version without id.** Promoting a version without an id is an error value (`MissingVersionId`). It is proved never to arise from a publish.

## Model

Paths are relative to the repository root; `DestinationServiceJooqImpl.java` stands for
`airbyte-data/src/main/java/io/airbyte/data/services/impls/jooq/DestinationServiceJooqImpl.java`
in prose, and the table cites the full path.

| member | source | states |
|---|---|---|
| Versions.LessThan | airbyte-data/src/main/java/io/airbyte/data/services/impls/jooq/DestinationServiceJooqImpl.java:657 | `a.lessThan(b)`: the lexicographic order on (major, minor, patch); Versions.LessThanIsStrictTotalOrder proves it a strict total order |
| Versions.Parse | airbyte-data/src/main/java/io/airbyte/data/services/impls/jooq/DestinationServiceJooqImpl.java:648-649 | `new Version(tag)`: three numerals split at the first two dots, else no version; Versions.ParseSerialize, Versions.DotlessTagIsInvalid and Scenarios.ScenarioTags prove what it accepts and rejects |
| Versions.Serialize | airbyte-data/src/main/java/io/airbyte/data/services/impls/jooq/DestinationServiceJooqImpl.java:665 | `serialize()`: the numerals joined by dots; Versions.ParseSerialize and Versions.SerializeInjective prove it invertible |
| Versions.LessThanOrEqualTo | airbyte-data/src/main/java/io/airbyte/data/services/impls/jooq/DestinationServiceJooqImpl.java:651 | `target <= current` holds exactly when current is not below target (the order is total) |
| Versions.GreaterThanOrEqualTo | airbyte-data/src/main/java/io/airbyte/data/services/impls/jooq/DestinationServiceJooqImpl.java:657-658 | `target >= bc.version` holds exactly when target is not below the breaking change's version |
| Versions.LessThanIsStrictTotalOrder | airbyte-data/src/main/java/io/airbyte/data/services/impls/jooq/DestinationServiceJooqImpl.java:651-658 | the version order the decision compares with is irreflexive, transitive and total |
| Versions.ParseSerialize | airbyte-data/src/main/java/io/airbyte/data/services/impls/jooq/DestinationServiceJooqImpl.java:665 | parsing the serialized form of any version gives that version back |
| Versions.SerializeInjective | airbyte-data/src/main/java/io/airbyte/data/services/impls/jooq/DestinationServiceJooqImpl.java:665 | two versions have the same stored string exactly when they are equal |
| Versions.DotlessTagIsInvalid | airbyte-data/src/main/java/io/airbyte/data/services/impls/jooq/DestinationServiceJooqImpl.java:648-649 | a tag with no dot is rejected by the version parser |
| Upgrade.Crosses | airbyte-data/src/main/java/io/airbyte/data/services/impls/jooq/DestinationServiceJooqImpl.java:657-658 | the `anyMatch` predicate: current < version and target >= version; Upgrade.CrossingBoundaries proves the interval is (current, target] |
| Upgrade.AnyCrossed | airbyte-data/src/main/java/io/airbyte/data/services/impls/jooq/DestinationServiceJooqImpl.java:656-658 | the `anyMatch` is true exactly when some listed breaking change lies in (current, target] |
| Upgrade.ShouldUpdateActorsDefaultVersionsDuringUpgrade | airbyte-data/src/main/java/io/airbyte/data/services/impls/jooq/DestinationServiceJooqImpl.java:638-660 | empty list gives yes with no parsing; otherwise an unparseable current tag, then target tag, is an error naming it; a downgrade or same version gives yes; an upgrade gives yes iff no breaking change is crossed |
| Upgrade.HeldBackIffCrossing | airbyte-data/src/main/java/io/airbyte/data/services/impls/jooq/DestinationServiceJooqImpl.java:648-659 | the decision is "no" exactly when both tags parse, current < target and some breaking change has current < version <= target |
| Upgrade.FailsOnlyOnInvalidTag | airbyte-data/src/main/java/io/airbyte/data/services/impls/jooq/DestinationServiceJooqImpl.java:641-650 | the decision fails exactly when the list is non-empty and one of the two tags does not parse |
| Upgrade.MoreBreakingChangesHoldBackMore | airbyte-data/src/main/java/io/airbyte/data/services/impls/jooq/DestinationServiceJooqImpl.java:656-659 | appending breaking changes never turns a "hold back" into "move" |
| Upgrade.OrderOfBreakingChangesIrrelevant | airbyte-data/src/main/java/io/airbyte/data/services/impls/jooq/DestinationServiceJooqImpl.java:656-658 | two lists with the same members give the same decision, whatever their order or repetitions |
| Upgrade.CrossingBoundaries | airbyte-data/src/main/java/io/airbyte/data/services/impls/jooq/DestinationServiceJooqImpl.java:657-658 | on an upgrade, a breaking change at the target is crossed and one at the current version is not |
| Upgrade.UpgradeAcrossBreakingChangeHeldBack | airbyte-data/src/main/java/io/airbyte/data/services/impls/jooq/DestinationServiceJooqImpl.java:638-660 | 1.0.0 to 2.0.0 with a breaking change at 1.5.0 holds the actors back |
| Upgrade.BreakingChangeBeyondTargetIgnored | airbyte-data/src/main/java/io/airbyte/data/services/impls/jooq/DestinationServiceJooqImpl.java:638-660 | 1.0.0 to 2.0.0 with a breaking change at 2.5.0 only lets the actors follow |
| Upgrade.NonVersionTagRejected | airbyte-data/src/main/java/io/airbyte/data/services/impls/jooq/DestinationServiceJooqImpl.java:648 | a current tag "not-a-version" with a breaking change declared is a validation error naming that tag |
| Tables.UpsertDefinition | airbyte-data/src/main/java/io/airbyte/data/services/impls/jooq/DestinationServiceJooqImpl.java:895-931 | one definition write: other rows unchanged; name, icon, visibility, custom flag, resources, actor type and updated_at are the caller's; an update keeps default version and created_at and stores the tombstone as given; an insert has no default version, created_at now and an unset tombstone stored as false |
| Tables.UpsertDefinitions | airbyte-data/src/main/java/io/airbyte/data/services/impls/jooq/DestinationServiceJooqImpl.java:893-934 | the in-order fold of Tables.UpsertDefinition over the list; Tables.UpsertDefinitionsKeys, Tables.UpsertDefinitionsKeepsPointers and Tables.UpsertDefinitionsKeepsDefaultsResolve prove its keys, pointers and invariant |
| Tables.UpsertDefinitionsKeys | airbyte-data/src/main/java/io/airbyte/data/services/impls/jooq/DestinationServiceJooqImpl.java:893-934 | writing a list of definitions adds exactly the listed ids to the table |
| Tables.UpsertDefinitionsKeepsPointers | airbyte-data/src/main/java/io/airbyte/data/services/impls/jooq/DestinationServiceJooqImpl.java:900-931 | writing definitions never changes an existing default pointer or created_at; new definitions start without a default |
| Tables.UpsertDefinitionsKeepsDefaultsResolve | airbyte-data/src/main/java/io/airbyte/data/services/impls/jooq/DestinationServiceJooqImpl.java:893-934 | writing definitions keeps every default pointer naming a stored version of its definition |
| Tables.BreakingChangeKeyOf | airbyte-data/src/main/java/io/airbyte/data/services/impls/jooq/DestinationServiceJooqImpl.java:664-665 | the conflict key (definition id, serialized version); Tables.BreakingChangeKeyInjective proves distinct breaking changes have distinct keys |
| Tables.BreakingChangeKeyInjective | airbyte-data/src/main/java/io/airbyte/data/services/impls/jooq/DestinationServiceJooqImpl.java:664-671 | two breaking changes hit the same row exactly when they have the same definition and version |
| Tables.UpsertBreakingChange | airbyte-data/src/main/java/io/airbyte/data/services/impls/jooq/DestinationServiceJooqImpl.java:662-676 | a new key is inserted; an existing key gets the new deadline, message, URL and updated_at and keeps created_at; other rows unchanged |
| Tables.UpsertBreakingChanges | airbyte-data/src/main/java/io/airbyte/data/services/impls/jooq/DestinationServiceJooqImpl.java:469-475 | the in-order fold of Tables.UpsertBreakingChange over the batch; Tables.UpsertBreakingChangesKeys, Tables.UpsertBreakingChangesRows and Tables.UpsertBreakingChangesLastWins prove its keys and rows |
| Tables.UpsertBreakingChangesKeys | airbyte-data/src/main/java/io/airbyte/data/services/impls/jooq/DestinationServiceJooqImpl.java:469-475 | after the batch the table has the old keys plus one key per listed breaking change, so no duplicate rows arise |
| Tables.UpsertBreakingChangesRows | airbyte-data/src/main/java/io/airbyte/data/services/impls/jooq/DestinationServiceJooqImpl.java:469-475 | unlisted keys keep their row; listed keys have updated_at now and their original created_at (or now if new) |
| Tables.UpsertBreakingChangesLastWins | airbyte-data/src/main/java/io/airbyte/data/services/impls/jooq/DestinationServiceJooqImpl.java:469-475 | the last listed breaking change for a key decides its deadline, message and URL |
| Tables.VersionIdsWithTag | airbyte-data/src/main/java/io/airbyte/data/services/impls/jooq/DestinationServiceJooqImpl.java:487-497 | the lookup returns only rows of that definition and tag, and at most one when tags are unique |
| Tables.VersionRecordOf | airbyte-data/src/main/java/io/airbyte/data/services/impls/jooq/DestinationServiceJooqImpl.java:533-576 | an inserted version reads back as the candidate with the id it was stored under |
| Tables.VersionOfRecord | airbyte-data/src/main/java/io/airbyte/data/services/impls/jooq/DestinationServiceJooqImpl.java:496 | a row reads back with its id, definition and tag |
| Tables.ChosenVersionId | airbyte-data/src/main/java/io/airbyte/data/services/impls/jooq/DestinationServiceJooqImpl.java:533 | the version's own id, else the fresh one; Tables.InsertVersion and Registry.NewTagInsertsOneVersion state the row is stored under it |
| Tables.InsertVersion | airbyte-data/src/main/java/io/airbyte/data/services/impls/jooq/DestinationServiceJooqImpl.java:530-577 | the id is the supplied one or else the fresh one; the insert fails with that id exactly when it is taken; otherwise the table gains exactly that row |
| Tables.InsertVersionKeepsTagsUnique | airbyte-data/src/main/java/io/airbyte/data/services/impls/jooq/DestinationServiceJooqImpl.java:507-519 | inserting only a tag the definition does not have keeps one row per (definition, tag) |
| Tables.DefaultVersionId | airbyte-data/src/main/java/io/airbyte/data/services/impls/jooq/DestinationServiceJooqImpl.java:855-864 | the join gives the definition's pointer exactly when the definition exists, has one and it names a stored version |
| Tables.SetDefaultPointer | airbyte-data/src/main/java/io/airbyte/data/services/impls/jooq/DestinationServiceJooqImpl.java:612-618 | only that definition's pointer and updated_at change; a missing definition leaves the table as it is |
| Tables.Repoint | airbyte-data/src/main/java/io/airbyte/data/services/impls/jooq/DestinationServiceJooqImpl.java:620-626 | every actor on the old version moves to the new one with updated_at now; every other actor is unchanged in every field |
| Tables.RepointEmptiesOldVersion | airbyte-data/src/main/java/io/airbyte/data/services/impls/jooq/DestinationServiceJooqImpl.java:620-626 | after a bulk move to a different version no actor is left on the old one |
| Tables.RepointIdempotent | airbyte-data/src/main/java/io/airbyte/data/services/impls/jooq/DestinationServiceJooqImpl.java:620-626 | running the bulk move twice equals running it once |
| Tables.WriteDestination | airbyte-data/src/main/java/io/airbyte/data/services/impls/jooq/DestinationServiceJooqImpl.java:815-847 | fails exactly for a new actor whose definition has no default; copies the caller's fields, stores an unset tombstone as false; an existing actor keeps its version and created_at; a new one starts on the definition's default |
| Tables.WriteDestinations | airbyte-data/src/main/java/io/airbyte/data/services/impls/jooq/DestinationServiceJooqImpl.java:812-849 | the in-order fold of Tables.WriteDestination, stopping at the first error; Tables.WriteDestinationsKeepsVersions, Tables.WriteDestinationsStopsAtFailure and Tables.WriteDestinationsFailure prove its result |
| Tables.WriteDestinationsKeepsVersions | airbyte-data/src/main/java/io/airbyte/data/services/impls/jooq/DestinationServiceJooqImpl.java:812-849 | a successful write adds exactly the listed ids, never changes an existing actor's version and leaves every actor on a stored version |
| Tables.WriteDestinationsStopsAtFailure | airbyte-data/src/main/java/io/airbyte/data/services/impls/jooq/DestinationServiceJooqImpl.java:813-848 | once one destination of the list fails, the whole write fails with that error |
| Tables.WriteDestinationsFailure | airbyte-data/src/main/java/io/airbyte/data/services/impls/jooq/DestinationServiceJooqImpl.java:851-853 | a failed write names a listed definition that has no default version |
| Registry.ResolveTag | airbyte-data/src/main/java/io/airbyte/data/services/impls/jooq/DestinationServiceJooqImpl.java:507-519 | the stored row with the candidate's tag, else the candidate inserted; Registry.ResolveTagResult and Registry.ResolveTagKeepsTagsUnique prove what it yields |
| Registry.ActorsAfterPromotion | airbyte-data/src/main/java/io/airbyte/data/services/impls/jooq/DestinationServiceJooqImpl.java:586-596 | no current default: actors unchanged; else the decision's error, or the bulk move on yes, or no change on no; Registry.PublishMovesActorsOnDecision and Registry.PublishHoldsBackExactlyOnCrossing state it on a publish |
| Registry.Promote | airbyte-data/src/main/java/io/airbyte/data/services/impls/jooq/DestinationServiceJooqImpl.java:579-599 | a version without id is MissingVersionId; else the actors of Registry.ActorsAfterPromotion and the pointer moved; Registry.SetForTagAsDefaultResult and Registry.PublishPointerAlwaysMoves prove its effect |
| Registry.SetForTagAsDefault | airbyte-data/src/main/java/io/airbyte/data/services/impls/jooq/DestinationServiceJooqImpl.java:507-519 | Registry.ResolveTag then Registry.Promote on the grown version table; Registry.SetForTagAsDefaultResult, Registry.SetForTagAsDefaultFailures and Registry.SetForTagAsDefaultKeepsConsistent prove its effect, errors and invariant |
| Registry.Publish | airbyte-data/src/main/java/io/airbyte/data/services/impls/jooq/DestinationServiceJooqImpl.java:452-459 | definition upsert, breaking-change batch, then Registry.SetForTagAsDefault; Registry.PublishKeepsConsistent, Registry.PublishFailsExactlyWhen, Registry.PublishPointerAlwaysMoves and Registry.PublishHoldsBackExactlyOnCrossing prove its guarantees |
| Registry.PublishCustom | airbyte-data/src/main/java/io/airbyte/data/services/impls/jooq/DestinationServiceJooqImpl.java:380-392 | Registry.Publish with no breaking changes, then the grant appended; Registry.CustomPublishAlwaysPropagates proves it fails only on a taken id and always moves the actors |
| Registry.TagOwner | airbyte-data/src/main/java/io/airbyte/data/services/impls/jooq/DestinationServiceJooqImpl.java:487-497 | the lookup by (definition, tag) finds a row of that definition and tag, and finds none only when none exists |
| Registry.GrantFor | airbyte-data/src/main/java/io/airbyte/data/services/impls/jooq/DestinationServiceJooqImpl.java:435-450 | the grant row has the definition, scope and scope type, and its workspace id is the scope exactly for workspace scopes |
| Registry.WriteDefinitionAndBreakingChanges | airbyte-data/src/main/java/io/airbyte/data/services/impls/jooq/DestinationServiceJooqImpl.java:456-457 | the first two steps of a publish: the definition upserted, then the breaking-change batch; Registry.WriteDefinitionAndBreakingChangesFacts proves they touch no version, actor or grant and change no current default |
| Registry.WriteDefinitionAndBreakingChangesFacts | airbyte-data/src/main/java/io/airbyte/data/services/impls/jooq/DestinationServiceJooqImpl.java:452-458 | the first two publish steps touch no version, actor or grant, always leave the definition in place and change no current default |
| Registry.ResolveTagResult | airbyte-data/src/main/java/io/airbyte/data/services/impls/jooq/DestinationServiceJooqImpl.java:507-519 | tag resolution yields a stored version of the candidate's definition and tag, with an id, and changes no stored row |
| Registry.SetForTagAsDefaultResult | airbyte-data/src/main/java/io/airbyte/data/services/impls/jooq/DestinationServiceJooqImpl.java:507-519 | resolving and promoting: the definition points at the resolved id; actors are those of the decision; breaking changes and grants are unchanged |
| Registry.SetForTagAsDefaultFailures | airbyte-data/src/main/java/io/airbyte/data/services/impls/jooq/DestinationServiceJooqImpl.java:507-519 | resolving and promoting fails only with a duplicate version id or an invalid tag |
| Registry.ResolveTagKeepsTagsUnique | airbyte-data/src/main/java/io/airbyte/data/services/impls/jooq/DestinationServiceJooqImpl.java:507-519 | tag resolution never creates a second row for a (definition, tag) |
| Registry.PointerUpdateKeepsDefaultsResolve | airbyte-data/src/main/java/io/airbyte/data/services/impls/jooq/DestinationServiceJooqImpl.java:612-618 | moving a definition's pointer to a stored version of it keeps every pointer resolving |
| Registry.RepointKeepsActorsResolve | airbyte-data/src/main/java/io/airbyte/data/services/impls/jooq/DestinationServiceJooqImpl.java:620-626 | a bulk move to a stored version keeps every actor on a stored version |
| Registry.SetForTagAsDefaultKeepsConsistent | airbyte-data/src/main/java/io/airbyte/data/services/impls/jooq/DestinationServiceJooqImpl.java:507-519 | resolving and promoting keeps tags unique, pointers resolving and actors on stored versions |
| Registry.PublishKeepsConsistent | airbyte-data/src/main/java/io/airbyte/data/services/impls/jooq/DestinationServiceJooqImpl.java:452-459 | a successful publish keeps the registry consistent, in particular free of duplicate tags |
| Registry.PublishPointerAlwaysMoves | airbyte-data/src/main/java/io/airbyte/data/services/impls/jooq/DestinationServiceJooqImpl.java:586-598 | after a publish of a version of the published definition, or of one already registered, the definition's default is the stored row of that definition carrying the published tag, whatever the decision |
| Registry.PublishMovesActorsOnDecision | airbyte-data/src/main/java/io/airbyte/data/services/impls/jooq/DestinationServiceJooqImpl.java:586-596 | with no current default no actor changes; otherwise the actors are the bulk move when the decision is yes and unchanged when it is no |
| Registry.PublishHoldsBackExactlyOnCrossing | airbyte-data/src/main/java/io/airbyte/data/services/impls/jooq/DestinationServiceJooqImpl.java:586-596 | an actor on the old default stays exactly when the decision is no, else moves to the new id; every other actor is untouched |
| Registry.RepublishReusesVersion | airbyte-data/src/main/java/io/airbyte/data/services/impls/jooq/DestinationServiceJooqImpl.java:510-513 | re-publishing a stored tag promotes that row's id and inserts nothing |
| Registry.NewTagInsertsOneVersion | airbyte-data/src/main/java/io/airbyte/data/services/impls/jooq/DestinationServiceJooqImpl.java:514-517 | publishing a new tag inserts exactly one row under the supplied or fresh id, and fails when that id is taken |
| Registry.PublishFailsExactlyWhen | airbyte-data/src/main/java/io/airbyte/data/services/impls/jooq/DestinationServiceJooqImpl.java:452-459 | a publish fails exactly on a taken id for a new tag, or on a failing decision (then with its error) |
| Registry.PublishFailures | airbyte-data/src/main/java/io/airbyte/data/services/impls/jooq/DestinationServiceJooqImpl.java:452-459 | a publish fails only with a duplicate version id or an invalid tag, never for a missing version id |
| Registry.PublishWritesBreakingChanges | airbyte-data/src/main/java/io/airbyte/data/services/impls/jooq/DestinationServiceJooqImpl.java:452-459 | after a publish the breaking-change table is the batch upsert of the list and grants are unchanged |
| Registry.CustomPublishAlwaysPropagates | airbyte-data/src/main/java/io/airbyte/data/services/impls/jooq/DestinationServiceJooqImpl.java:380-392 | a custom publish fails only on a taken id; otherwise it adds the grant and always moves the actors on the old default |
| Scenarios.PublishAcrossBreakingChange | airbyte-data/src/main/java/io/airbyte/data/services/impls/jooq/DestinationServiceJooqImpl.java:452-459 | 1.0.0 to 2.0.0 across a breaking change at 1.5.0: the pointer moves to the new 2.0.0 row, an actor on 1.0.0 stays |
| Scenarios.PublishBelowBreakingChange | airbyte-data/src/main/java/io/airbyte/data/services/impls/jooq/DestinationServiceJooqImpl.java:452-459 | 1.0.0 to 2.0.0 with a breaking change at 2.5.0: the pointer and the actor on 1.0.0 move to the new row |
| Scenarios.RepublishSameTag | airbyte-data/src/main/java/io/airbyte/data/services/impls/jooq/DestinationServiceJooqImpl.java:452-459 | re-publishing 1.0.0 inserts nothing and leaves the pointer and the actor on the 1.0.0 row |
| Scenarios.FirstPublish | airbyte-data/src/main/java/io/airbyte/data/services/impls/jooq/DestinationServiceJooqImpl.java:452-459 | a definition's first publish inserts one row, points the definition at it and changes no actor |
| Scenarios.ScenarioTags | airbyte-data/src/main/java/io/airbyte/data/services/impls/jooq/DestinationServiceJooqImpl.java:648-649 | "1.0.0" and "2.0.0" parse as those versions and "not-a-version" does not parse |
| Scenarios.PublishNonVersionTag | airbyte-data/src/main/java/io/airbyte/data/services/impls/jooq/DestinationServiceJooqImpl.java:452-459 | publishing "not-a-version" over 1.0.0 with a breaking change declared fails with a validation error for that tag |
| DestinationService.DestinationServiceJooqImpl.constructor | airbyte-data/src/main/java/io/airbyte/data/services/impls/jooq/DestinationServiceJooqImpl.java:81-83 | a service over a consistent database holds exactly that database's rows and is valid |
| DestinationService.DestinationServiceJooqImpl.GetActorDefinitionVersion | airbyte-data/src/main/java/io/airbyte/data/services/impls/jooq/DestinationServiceJooqImpl.java:487-497 | returns a stored row of that definition and tag, or nothing exactly when there is none; in a valid registry it is the one such row |
| DestinationService.DestinationServiceJooqImpl.GetDefaultVersionForActorDefinitionIdOptional | airbyte-data/src/main/java/io/airbyte/data/services/impls/jooq/DestinationServiceJooqImpl.java:855-864 | returns the version the definition's pointer names; in a valid registry it is present exactly when the pointer is set, and belongs to that definition |
| DestinationService.DestinationServiceJooqImpl.GetDefaultVersionForActorDefinitionId | airbyte-data/src/main/java/io/airbyte/data/services/impls/jooq/DestinationServiceJooqImpl.java:851-853 | fails, with DefaultVersionNotFound, exactly when the definition has no default version; otherwise returns that version read back in full (id, definition, repository, tag, spec and details of its row) |
| DestinationService.DestinationServiceJooqImpl.WriteStandardDestinationDefinition | airbyte-data/src/main/java/io/airbyte/data/services/impls/jooq/DestinationServiceJooqImpl.java:893-934 | the loop leaves the definitions table as the in-order upserts of the list, touches no other table and keeps the registry consistent |
| DestinationService.DestinationServiceJooqImpl.UpdateStandardDestinationDefinition | airbyte-data/src/main/java/io/airbyte/data/services/impls/jooq/DestinationServiceJooqImpl.java:219-230 | fails, changing nothing, exactly when no destination definition has that id; otherwise writes it |
| DestinationService.DestinationServiceJooqImpl.WriteActorDefinitionBreakingChanges | airbyte-data/src/main/java/io/airbyte/data/services/impls/jooq/DestinationServiceJooqImpl.java:469-475 | the breaking-change table becomes the batch upsert of the list; no other table changes |
| DestinationService.DestinationServiceJooqImpl.WriteActorDefinitionVersion | airbyte-data/src/main/java/io/airbyte/data/services/impls/jooq/DestinationServiceJooqImpl.java:530-577 | inserts the row under the supplied or fresh id and returns the version with it, or fails on a taken id leaving the table as it was |
| DestinationService.DestinationServiceJooqImpl.UpdateActorDefinitionDefaultVersionId | airbyte-data/src/main/java/io/airbyte/data/services/impls/jooq/DestinationServiceJooqImpl.java:612-618 | the definitions table becomes the pointer update; nothing else changes |
| DestinationService.DestinationServiceJooqImpl.UpdateDefaultVersionIdForActorsOnVersion | airbyte-data/src/main/java/io/airbyte/data/services/impls/jooq/DestinationServiceJooqImpl.java:620-626 | the actors table becomes the bulk move; nothing else changes |
| DestinationService.DestinationServiceJooqImpl.WriteActorDefinitionWorkspaceGrant | airbyte-data/src/main/java/io/airbyte/data/services/impls/jooq/DestinationServiceJooqImpl.java:435-450 | appends exactly the grant row for the scope |
| DestinationService.DestinationServiceJooqImpl.SetActorDefinitionVersionAsDefaultVersion | airbyte-data/src/main/java/io/airbyte/data/services/impls/jooq/DestinationServiceJooqImpl.java:579-599 | has the effect of the promotion on the tables, or fails with its error before writing anything |
| DestinationService.DestinationServiceJooqImpl.SetActorDefinitionVersionForTagAsDefault | airbyte-data/src/main/java/io/airbyte/data/services/impls/jooq/DestinationServiceJooqImpl.java:507-519 | has the effect of resolving and promoting the tag, or fails with its error; on success the registry stays consistent |
| DestinationService.DestinationServiceJooqImpl.WriteConnectorMetadataInContext | airbyte-data/src/main/java/io/airbyte/data/services/impls/jooq/DestinationServiceJooqImpl.java:452-459 | the three steps have the effect of one publish, or fail with its error |
| DestinationService.DestinationServiceJooqImpl.WriteConnectorMetadata | airbyte-data/src/main/java/io/airbyte/data/services/impls/jooq/DestinationServiceJooqImpl.java:406-414 | as a transaction: the publish's effect, or its error with every table unchanged; the registry stays consistent |
| DestinationService.DestinationServiceJooqImpl.WriteCustomConnectorMetadata | airbyte-data/src/main/java/io/airbyte/data/services/impls/jooq/DestinationServiceJooqImpl.java:380-392 | as a transaction: a publish with no breaking changes plus the grant, or its error with every table unchanged |
| DestinationService.DestinationServiceJooqImpl.WriteDestinationConnection | airbyte-data/src/main/java/io/airbyte/data/services/impls/jooq/DestinationServiceJooqImpl.java:812-849 | the loop leaves the actors as the in-order writes of the list, or stops at the first new destination without a default with that destination's error, the writes before it in place |
| DestinationService.DestinationServiceJooqImpl.WriteDestinationConnectionNoSecrets | airbyte-data/src/main/java/io/airbyte/data/services/impls/jooq/DestinationServiceJooqImpl.java:261-267 | as a transaction: the write of one destination, or its error with every table unchanged; the registry stays consistent |
| PartialUserConfigMapper.ToConfigModel | airbyte-data/src/main/kotlin/io/airbyte/data/services/impls/data/mappers/PartialUserConfigMapper.kt:12-20 | fails exactly when the entity has no id; otherwise copies id, workspace, template and properties |
| PartialUserConfigMapper.ToEntity | airbyte-data/src/main/kotlin/io/airbyte/data/services/impls/data/mappers/PartialUserConfigMapper.kt:22-28 | total; the entity carries the model's id and its other three fields |
| PartialUserConfigMapper.ModelRoundTrip | airbyte-data/src/main/kotlin/io/airbyte/data/services/impls/data/mappers/PartialUserConfigMapper.kt:12-28 | mapping a model to an entity and back succeeds and gives the model |
| PartialUserConfigMapper.EntityRoundTrip | airbyte-data/src/main/kotlin/io/airbyte/data/services/impls/data/mappers/PartialUserConfigMapper.kt:12-28 | an entity with an id maps to a model and back to itself |
| PartialUserConfigMapper.ToEntityInjective | airbyte-data/src/main/kotlin/io/airbyte/data/services/impls/data/mappers/PartialUserConfigMapper.kt:22-28 | distinct models map to distinct entities |

## Left out

- The platform's `Version` class is not part of this model. `Versions` stands in for it:
  - a tag is a version when it is exactly three decimal numerals separated by dots;
  - pre-release suffixes and development tags, which the real class may accept or order differently, are not modelled.
- JSON documents are opaque `Doc` values and are never interpreted. This covers the spec, configuration, resource requirements, allowed hosts and suggested streams.
- The version details other than repository and tag are one opaque value. These are the documentation URL, protocol version, support level and state, release stage and date, the normalization fields and the dbt flag.
- Enum conversions and `LocalDate.parse` of the upgrade deadline and release date are not modelled. A malformed date would abort the transaction in the code; in the model dates are plain strings.
- The clock: each call takes one `now`. The code reads the clock separately for each step of a publish, so its timestamps may differ slightly between tables.
- `UUID.randomUUID()` is the caller-supplied `freshId`. The model does not assume it is unused; a clash is the `DuplicateVersionId` error of the primary key.
- Database constraints other than primary keys are not visible and are not modelled. These are the foreign keys and any uniqueness index on (definition, tag). The guarantees instead assume, as `Consistent`/`DefaultsResolve`, the invariants those constraints and the code maintain, and prove that every write keeps them.
- Storage failures (`IOException`), concurrency and transaction isolation are not modelled. Each transactional entry point is one atomic method.
- `UpdateStandardDestinationDefinition`: the code checks existence before opening its transaction. The model runs the check and the write as one step.
- Read-only queries are not modelled:
  - definition, destination and connection listings;
  - grant joins and the organisation lookup;
  - sync and operation listings.
- `WriteActorDefinitionWorkspaceGrant`: the row count the insert returns is not modelled; its callers ignore it.
- `DestinationService.DestinationServiceJooqImpl.GetActorDefinitionVersion`: when several rows share a (definition, tag), which row comes back is unspecified. It is tied to `Registry.TagOwner` only in a valid registry, where there is at most one such row.
- `DestinationService.DestinationServiceJooqImpl.SetActorDefinitionVersionForTagAsDefault`: it requires a valid registry, so that its lookup agrees with the one the publish function uses.
- `PartialUserConfigMapper`: the entity and model classes are not part of this model. Only the four fields the mapper copies are modelled.
