/**
 * AZ::Component: the link to the owning entity, the component id, and the
 * configuration hooks.
 *
 * The id a component receives on attach comes from a random generator; here
 * it is the parameter `rand` of SetEntity.
 */
module Components {

  newtype u64 = x: int | 0 <= x < 0x1_0000_0000_0000_0000

  type ComponentId = u64

  /** InvalidComponentId (declared in Component.h, which is not part of this model). */
  const InvalidComponentId: ComponentId := 0

  /** An entity id; `DefaultEntityId` is what a default-constructed EntityId holds. */
  datatype EntityId = DefaultEntityId | EntityId(value: u64)

  /**
   * Entity::State, in declaration order (Entity.h is not part of this model):
   * constructed, initializing, init, activating, active, deactivating.
   */
  datatype EntityState = ES_CONSTRUCTED | ES_INITIALIZING | ES_INIT | ES_ACTIVATING | ES_ACTIVE | ES_DEACTIVATING

  function Ordinal(s: EntityState): nat
  {
    match s
    case ES_CONSTRUCTED => 0
    case ES_INITIALIZING => 1
    case ES_INIT => 2
    case ES_ACTIVATING => 3
    case ES_ACTIVE => 4
    case ES_DEACTIVATING => 5
  }

  /** A configuration object, identified by its type. */
  datatype ComponentConfig = ComponentConfig(typeId: nat)

  /** The base ReadInConfig: no configuration type is supported. */
  function BaseReadInConfig(config: ComponentConfig): (r: bool)
    ensures !r
  {
    false
  }

  /** The base WriteOutConfig: no configuration type is supported. */
  function BaseWriteOutConfig(config: ComponentConfig): (r: bool)
    ensures !r
  {
    false
  }

  /** The part of an entity a component looks at. */
  class Entity {
    var id: EntityId
    var state: EntityState

    constructor(id: EntityId)
      ensures this.id == id && state == ES_CONSTRUCTED
    {
      this.id, state := id, ES_CONSTRUCTED;
    }
  }

  /** The pair (m_entity, m_id). */
  datatype Attachment = Attachment(entity: Entity?, id: ComponentId)

  /** A detached component carries the invalid id. */
  predicate Consistent(a: Attachment)
  {
    a.entity == null ==> a.id == InvalidComponentId
  }

  /**
   * The attachment after SetEntity(entity) with `rand` as the random draw:
   * unchanged for the entity already held; on detach the id is reset; on
   * attach an invalid id is replaced by the draw and a valid one is kept.
   */
  function SetEntityStep(a: Attachment, entity: Entity?, rand: ComponentId): (r: Attachment)
    ensures r.entity == entity
    ensures Consistent(a) ==> Consistent(r)
    ensures a.entity == entity ==> r == a
    ensures a.entity != entity && entity == null ==> r.id == InvalidComponentId
    ensures entity != null && a.id != InvalidComponentId ==> r.id == a.id
    ensures a.entity != entity && entity != null && a.id == InvalidComponentId ==> r.id == rand
  {
    if a.entity != entity then
      if entity != null then
        Attachment(entity, if a.id == InvalidComponentId then rand else a.id)
      else
        Attachment(null, InvalidComponentId)
    else
      a
  }

  /** The attachment after a series of SetEntity calls, each with its own draw. */
  function SetEntitySteps(a: Attachment, calls: seq<(Entity?, ComponentId)>): Attachment
    decreases |calls|
  {
    if calls == [] then a
    else SetEntitySteps(SetEntityStep(a, calls[0].0, calls[0].1), calls[1..])
  }

  /**
   * Once a component has a valid id, moving it from entity to entity, without
   * detaching in between, never changes the id.
   */
  lemma {:induction false} MovesKeepId(a: Attachment, calls: seq<(Entity?, ComponentId)>)
    requires a.id != InvalidComponentId
    requires forall k :: 0 <= k < |calls| ==> calls[k].0 != null
    ensures SetEntitySteps(a, calls).id == a.id
    decreases |calls|
  {
    if calls != [] {
      var next := SetEntityStep(a, calls[0].0, calls[0].1);
      assert forall k :: 0 <= k < |calls[1..]| ==> calls[1..][k].0 == calls[k + 1].0;
      MovesKeepId(next, calls[1..]);
    }
  }

  /** A detached component that is attached again draws a fresh id. */
  lemma ReattachDrawsFreshId(a: Attachment, e: Entity, rand: ComponentId)
    requires a.entity != null
    ensures SetEntitySteps(a, [(null, 0), (e, rand)]).id == rand
  {
    var detached := SetEntityStep(a, null, 0);
    assert detached == Attachment(null, InvalidComponentId);
    var calls: seq<(Entity?, ComponentId)> := [(null, 0), (e, rand)];
    assert calls[1..] == [(e, rand)] && calls[1..][1..] == [];
    assert SetEntitySteps(a, calls) == SetEntitySteps(detached, [(e, rand)]);
    assert SetEntitySteps(detached, [(e, rand)]) == SetEntityStep(detached, e, rand);
  }

  /** Every series of SetEntity calls keeps a detached component's id invalid. */
  lemma {:induction false} StepsKeepConsistent(a: Attachment, calls: seq<(Entity?, ComponentId)>)
    requires Consistent(a)
    ensures Consistent(SetEntitySteps(a, calls))
    decreases |calls|
  {
    if calls != [] {
      StepsKeepConsistent(SetEntityStep(a, calls[0].0, calls[0].1), calls[1..]);
    }
  }

  class Component {
    /** m_entity: the owning entity, null while detached. */
    var entity: Entity?
    /** m_id */
    var id: ComponentId
    /** The ReadInConfig of the component's most derived type. */
    const readInConfig: ComponentConfig -> bool
    /** The WriteOutConfig of the component's most derived type. */
    const writeOutConfig: ComponentConfig -> bool

    ghost predicate Valid()
      reads this
    {
      Consistent(Attachment(entity, id))
    }

    /** A component with the base configuration hooks. */
    constructor()
      ensures entity == null && id == InvalidComponentId && Valid()
      ensures readInConfig == BaseReadInConfig && writeOutConfig == BaseWriteOutConfig
    {
      entity, id := null, InvalidComponentId;
      readInConfig, writeOutConfig := BaseReadInConfig, BaseWriteOutConfig;
    }

    /** A component of a derived type with its own configuration hooks. */
    constructor Derived(readIn: ComponentConfig -> bool, writeOut: ComponentConfig -> bool)
      ensures entity == null && id == InvalidComponentId && Valid()
      ensures readInConfig == readIn && writeOutConfig == writeOut
    {
      entity, id := null, InvalidComponentId;
      readInConfig, writeOutConfig := readIn, writeOut;
    }

    function EntityFrame(): set<object>
      reads this
    {
      if entity != null then {entity} else {}
    }

    /** The owning entity's id, or a default EntityId while detached. */
    function GetEntityId(): (r: EntityId)
      reads this, EntityFrame()
      ensures entity != null ==> r == entity.id
      ensures entity == null ==> r == DefaultEntityId
    {
      if entity != null then entity.id else DefaultEntityId
    }

    /** Components cannot be configured while activated: only detached or not past ES_INIT. */
    predicate Configurable()
      reads this, EntityFrame()
    {
      entity == null || Ordinal(entity.state) <= Ordinal(ES_INIT)
    }

    /** SetConfiguration: refused once the entity is past ES_INIT, else ReadInConfig's answer. */
    function SetConfiguration(config: ComponentConfig): (r: bool)
      reads this, EntityFrame()
      ensures r ==> readInConfig(config)
      ensures entity != null && entity.state in {ES_ACTIVATING, ES_ACTIVE, ES_DEACTIVATING} ==> !r
      ensures (entity == null || entity.state in {ES_CONSTRUCTED, ES_INITIALIZING, ES_INIT}) ==> r == readInConfig(config)
    {
      if Configurable() then readInConfig(config) else false
    }

    /** GetConfiguration: WriteOutConfig's answer, in every entity state. */
    function GetConfiguration(config: ComponentConfig): (r: bool)
      reads this
      ensures r <==> writeOutConfig(config)
      ensures writeOutConfig == BaseWriteOutConfig ==> !r
    {
      writeOutConfig(config)
    }

    /** SetEntity: called only by the entity itself. */
    method SetEntity(e: Entity?, rand: ComponentId)
      modifies this`entity, this`id
      ensures Attachment(entity, id) == SetEntityStep(old(Attachment(entity, id)), e, rand)
      ensures old(Valid()) ==> Valid()
    {
      if entity != e {
        entity := e;
        if e != null {
          if id == InvalidComponentId {
            id := rand;
          }
        } else {
          id := InvalidComponentId;
        }
      }
    }
  }

  /** A component with the base hooks can never be configured or queried for its configuration. */
  lemma BaseComponentHasNoConfiguration(c: Component, config: ComponentConfig)
    requires c.readInConfig == BaseReadInConfig && c.writeOutConfig == BaseWriteOutConfig
    ensures !c.SetConfiguration(config) && !c.GetConfiguration(config)
  {
  }
}
