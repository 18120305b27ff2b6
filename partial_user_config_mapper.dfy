/**
  The mapping between the persisted partial user config (whose id is unset until it is
  stored) and the config model (which always has one).
 */
module PartialUserConfigMapper {
  import opened Wrappers
  import opened Entities

  /** The repository entity: `id` is null before the row is saved. */
  datatype EntityPartialUserConfig = EntityPartialUserConfig(
    id: Option<Uuid>,
    workspaceId: Uuid,
    configTemplateId: Uuid,
    partialUserConfigProperties: Doc)

  /** The config model. */
  datatype ModelPartialUserConfig = ModelPartialUserConfig(
    id: Uuid,
    workspaceId: Uuid,
    configTemplateId: Uuid,
    partialUserConfigProperties: Doc)

  /** The IllegalStateException raised for an entity without id. */
  datatype MapperError = MissingId

  /** `toConfigModel`: fails exactly on an entity without id, and otherwise copies every field. */
  function ToConfigModel(e: EntityPartialUserConfig): (r: Result<ModelPartialUserConfig, MapperError>)
    ensures r.Err? <==> e.id.None?
    ensures r.Err? ==> r.error == MissingId
    ensures r.Ok? ==> && Some(r.value.id) == e.id
                      && r.value.workspaceId == e.workspaceId
                      && r.value.configTemplateId == e.configTemplateId
                      && r.value.partialUserConfigProperties == e.partialUserConfigProperties
  {
    match e.id
    case None => Err(MissingId)
    case Some(id) => Ok(ModelPartialUserConfig(id, e.workspaceId, e.configTemplateId, e.partialUserConfigProperties))
  }

  /** `toEntity`: total; the entity carries the model's id and every other field. */
  function ToEntity(m: ModelPartialUserConfig): (r: EntityPartialUserConfig)
    ensures r.id == Some(m.id)
    ensures r.workspaceId == m.workspaceId && r.configTemplateId == m.configTemplateId
    ensures r.partialUserConfigProperties == m.partialUserConfigProperties
  {
    EntityPartialUserConfig(Some(m.id), m.workspaceId, m.configTemplateId, m.partialUserConfigProperties)
  }

  /** A model survives the trip to an entity and back. */
  lemma ModelRoundTrip(m: ModelPartialUserConfig)
    ensures ToConfigModel(ToEntity(m)) == Ok(m)
  {
  }

  /** A stored entity (one with an id) survives the trip to a model and back. */
  lemma EntityRoundTrip(e: EntityPartialUserConfig)
    requires e.id.Some?
    ensures ToConfigModel(e).Ok?
    ensures ToEntity(ToConfigModel(e).value) == e
  {
  }

  /** Distinct models map to distinct entities. */
  lemma ToEntityInjective(m: ModelPartialUserConfig, n: ModelPartialUserConfig)
    ensures ToEntity(m) == ToEntity(n) <==> m == n
  {
    if ToEntity(m) == ToEntity(n) {
      ModelRoundTrip(m);
      ModelRoundTrip(n);
    }
  }
}
