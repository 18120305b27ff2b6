/**
  The promotion decision: when a definition's default version moves from `currentTag` to
  `targetTag`, do the actors on the old default follow, or are they held back because the
  upgrade crosses a declared breaking change?
 */
module Upgrade {
  import opened Wrappers
  import opened Versions
  import opened Entities

  /** Upgrading from `current` to `target` crosses `bc` when current < bc.version <= target. */
  predicate Crosses(current: Version, target: Version, bc: ActorDefinitionBreakingChange)
  {
    LessThan(current, bc.version) && GreaterThanOrEqualTo(target, bc.version)
  }

  /** The `anyMatch` over the breaking changes: does the upgrade cross any of them? */
  function AnyCrossed(current: Version, target: Version, bcs: seq<ActorDefinitionBreakingChange>): (r: bool)
    ensures r <==> exists i | 0 <= i < |bcs| :: Crosses(current, target, bcs[i])
    decreases |bcs|
  {
    if |bcs| == 0 then false
    else
      var rest := AnyCrossed(current, target, bcs[1..]);
      assert forall i | 1 <= i < |bcs| :: bcs[1..][i - 1] == bcs[i];
      Crosses(current, target, bcs[0]) || rest
  }

  /**
    `shouldUpdateActorsDefaultVersionsDuringUpgrade`. An empty list says yes without parsing
    either tag; otherwise both tags are parsed (the current one first), a downgrade or
    re-publish says yes, and an upgrade says yes exactly when it crosses no breaking change.
   */
  function ShouldUpdateActorsDefaultVersionsDuringUpgrade(
    currentTag: string, targetTag: string, bcs: seq<ActorDefinitionBreakingChange>): (r: Result<bool, Error>)
    ensures |bcs| == 0 ==> r == Ok(true)
    ensures |bcs| > 0 && Parse(currentTag).None? ==> r == Err(InvalidVersion(currentTag))
    ensures |bcs| > 0 && Parse(currentTag).Some? && Parse(targetTag).None? ==> r == Err(InvalidVersion(targetTag))
    ensures |bcs| > 0 && Parse(currentTag).Some? && Parse(targetTag).Some? ==>
      var current, target := Parse(currentTag).value, Parse(targetTag).value;
      r == Ok(LessThanOrEqualTo(target, current) || forall i | 0 <= i < |bcs| :: !Crosses(current, target, bcs[i]))
  {
    if |bcs| == 0 then Ok(true)
    else match (Parse(currentTag), Parse(targetTag))
      case (None, _) => Err(InvalidVersion(currentTag))
      case (Some(_), None) => Err(InvalidVersion(targetTag))
      case (Some(current), Some(target)) =>
        if LessThanOrEqualTo(target, current) then Ok(true)
        else Ok(!AnyCrossed(current, target, bcs))
  }

  /** Actors are held back exactly when a genuine upgrade crosses some breaking change. */
  lemma HeldBackIffCrossing(currentTag: string, targetTag: string, bcs: seq<ActorDefinitionBreakingChange>)
    ensures ShouldUpdateActorsDefaultVersionsDuringUpgrade(currentTag, targetTag, bcs) == Ok(false)
      <==> && Parse(currentTag).Some? && Parse(targetTag).Some?
           && LessThan(Parse(currentTag).value, Parse(targetTag).value)
           && exists i | 0 <= i < |bcs| :: Crosses(Parse(currentTag).value, Parse(targetTag).value, bcs[i])
  {
  }

  /** The error cases: the decision fails only on a non-empty list with an unparseable tag. */
  lemma FailsOnlyOnInvalidTag(currentTag: string, targetTag: string, bcs: seq<ActorDefinitionBreakingChange>)
    ensures ShouldUpdateActorsDefaultVersionsDuringUpgrade(currentTag, targetTag, bcs).Err?
      <==> |bcs| > 0 && (Parse(currentTag).None? || Parse(targetTag).None?)
  {
  }

  /** Declaring more breaking changes can only hold actors back, never release them. */
  lemma {:induction false} MoreBreakingChangesHoldBackMore(
    currentTag: string, targetTag: string, bcs: seq<ActorDefinitionBreakingChange>, more: seq<ActorDefinitionBreakingChange>)
    requires ShouldUpdateActorsDefaultVersionsDuringUpgrade(currentTag, targetTag, bcs) == Ok(false)
    ensures ShouldUpdateActorsDefaultVersionsDuringUpgrade(currentTag, targetTag, bcs + more) == Ok(false)
  {
    var current, target := Parse(currentTag).value, Parse(targetTag).value;
    var i :| 0 <= i < |bcs| && Crosses(current, target, bcs[i]);
    assert (bcs + more)[i] == bcs[i];
  }

  /** Only which breaking changes are listed matters, not their order or repetition. */
  lemma {:induction false} OrderOfBreakingChangesIrrelevant(
    currentTag: string, targetTag: string, bcs: seq<ActorDefinitionBreakingChange>, others: seq<ActorDefinitionBreakingChange>)
    requires forall bc :: bc in bcs <==> bc in others
    ensures ShouldUpdateActorsDefaultVersionsDuringUpgrade(currentTag, targetTag, bcs)
         == ShouldUpdateActorsDefaultVersionsDuringUpgrade(currentTag, targetTag, others)
  {
    if |others| > 0 {
      assert others[0] in others;
    }
    if |bcs| > 0 {
      assert bcs[0] in bcs;
      if Parse(currentTag).Some? && Parse(targetTag).Some? {
        var current, target := Parse(currentTag).value, Parse(targetTag).value;
        if exists i | 0 <= i < |bcs| :: Crosses(current, target, bcs[i]) {
          var i :| 0 <= i < |bcs| && Crosses(current, target, bcs[i]);
          assert bcs[i] in others;
        }
        if exists i | 0 <= i < |others| :: Crosses(current, target, others[i]) {
          var i :| 0 <= i < |others| && Crosses(current, target, others[i]);
          assert others[i] in bcs;
        }
      }
    }
  }

  /** The range is half-open: a breaking change at the target is crossed, one at the current version is not. */
  lemma CrossingBoundaries(current: Version, target: Version, bc: ActorDefinitionBreakingChange)
    requires LessThan(current, target)
    ensures bc.version == target ==> Crosses(current, target, bc)
    ensures bc.version == current ==> !Crosses(current, target, bc)
  {
  }

  // ---------------------------------------------------------------- worked examples

  function BreakingChangeAt(definitionId: Uuid, v: Version): ActorDefinitionBreakingChange
  {
    ActorDefinitionBreakingChange(definitionId, v, "2024-01-01", "breaking", "https://docs")
  }

  /** 1.0.0 -> 2.0.0 with a breaking change at 1.5.0: the actors are held back. */
  lemma UpgradeAcrossBreakingChangeHeldBack(definitionId: Uuid)
    ensures ShouldUpdateActorsDefaultVersionsDuringUpgrade(
      "1.0.0", "2.0.0", [BreakingChangeAt(definitionId, Version(1, 5, 0))]) == Ok(false)
  {
    assert Serialize(Version(1, 0, 0)) == "1.0.0";
    assert Serialize(Version(2, 0, 0)) == "2.0.0";
    ParseSerialize(Version(1, 0, 0));
    ParseSerialize(Version(2, 0, 0));
  }

  /** 1.0.0 -> 2.0.0 with a breaking change at 2.5.0 only: the actors follow. */
  lemma BreakingChangeBeyondTargetIgnored(definitionId: Uuid)
    ensures ShouldUpdateActorsDefaultVersionsDuringUpgrade(
      "1.0.0", "2.0.0", [BreakingChangeAt(definitionId, Version(2, 5, 0))]) == Ok(true)
  {
    assert Serialize(Version(1, 0, 0)) == "1.0.0";
    assert Serialize(Version(2, 0, 0)) == "2.0.0";
    ParseSerialize(Version(1, 0, 0));
    ParseSerialize(Version(2, 0, 0));
  }

  /** A tag that is not a version fails the decision once breaking changes are declared. */
  lemma NonVersionTagRejected(definitionId: Uuid)
    ensures ShouldUpdateActorsDefaultVersionsDuringUpgrade(
      "not-a-version", "2.0.0", [BreakingChangeAt(definitionId, Version(1, 5, 0))]) == Err(InvalidVersion("not-a-version"))
  {
    var tag := "not-a-version";
    assert forall k | 0 <= k < |tag| :: tag[k] != '.';
    DotlessTagIsInvalid(tag);
  }
}
