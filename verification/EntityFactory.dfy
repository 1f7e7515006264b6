/** The entity factory: every entity is made here and indexed under its id. */
module EntityFactories {
  import opened Decimal
  import opened Registries
  import opened AsioTcpConnections
  import G = Ownership
  import opened GameSpec
  import opened Entities

  class EntityFactory {
    var entities: map<string, Entity>
    const uuid: Uuid
    ghost var history: seq<Call<Entity>>

    /** Every key is the id of the live entity under it, and the index is what the calls made so far leave. */
    ghost predicate Valid(w: World)
      reads this, uuid, w, w.entities, w.components
    {
      && w.Valid() && uuid.Valid()
      && (forall id :: id in entities ==>
            entities[id] in w.entities && !entities[id].destructed && entities[id].id == id)
      && entities == Replay(history)
    }

    /** No id still to be drawn is taken. */
    ghost predicate IdsAhead()
      reads this, uuid
    {
      forall i: nat :: i >= uuid.drawn ==> uuid.stream(i) !in entities
    }

    /** Setting entities up does not touch the index. */
    twostate lemma StaysValid(new w: World)
      requires old(allocated(w)) && old(Valid(w)) && w.Valid()
      requires unchanged(this) && unchanged(uuid) && w.entities == old(w.entities)
      requires forall d :: d in w.entities ==> d.destructed == old(d.destructed)
      ensures Valid(w)
      ensures old(IdsAhead()) ==> IdsAhead()
    {
    }

    constructor (stream: nat -> string, ghost w: World)
      requires w.Valid()
      ensures Valid(w) && IdsAhead() && entities == map[] && history == [] && fresh(uuid) && uuid.stream == stream
    {
      entities, history := map[], [];
      uuid := new Uuid(stream);
    }

    ghost function Snapshot(w: World): Game<Entity, Component, AsioTcpConnection>
      reads this, w, w.entities`components, w.entities`destructed,
            w.components`owner, w.components`connection, w.components`disconnectHandlers
    {
      Game(entities, w.Ids(), w.Graph(), w.Connections(), w.Handlers())
    }

    /** The entity found is the first one created under `id` since `id` was last destroyed. */
    method GetEntity(id: string, ghost w: World) returns (e: Entity?)
      requires Valid(w)
      ensures e == if id in entities then entities[id] else null
      ensures e != null ==> e.id == id && exists i: nat :: Current(history, id, i) && history[i].entity == e
      ensures e == null ==> forall i: nat :: !Current(history, id, i)
    {
      LookupFollowsHistory(history, id);
      if id in entities {
        return entities[id];
      }
      return null;
    }

    method GenerateId() returns (id: string)
      requires uuid.Valid()
      modifies uuid
      ensures uuid.Valid() && uuid.drawn == old(uuid.drawn) + 1 && id == uuid.stream(old(uuid.drawn))
    {
      id := uuid.Get();
    }

    /** The index keeps an older entity under the same id; the new one is returned all the same. */
    method CreateEntityWithId(id: string, entityType: EntityType, ip: string, port: Int32, ghost w: World)
      returns (e: Entity)
      requires Valid(w)
      modifies this, w
      ensures Valid(w) && fresh(e) && fresh(e.proxy) && e in w.entities
      ensures e.id == id && e.entityType == entityType && e.proxy.ip == ip && e.proxy.port == port
      ensures e.components == map[] && e.validate && !e.destructed
      ensures history == old(history) + [Created(id, e)]
      ensures Snapshot(w) == GameSpec.CreateEntity(old(Snapshot(w)), id, e)
      ensures w.entities == old(w.entities) + {e} && w.components == old(w.components)
      ensures old(IdsAhead()) && (forall i: nat :: i >= uuid.drawn ==> uuid.stream(i) != id) ==> IdsAhead()
    {
      ghost var before := Snapshot(w);
      e := new Entity(id, entityType, ip, port, w);
      label made:
      if id !in entities {
        entities := entities[id := e];
      }
      history := history + [Created(id, e)];
      w.Untouched@made();
      assert history[..|history| - 1] == old(history);
    }

    method CreateEntity(entityType: EntityType, ip: string, port: Int32, ghost w: World) returns (e: Entity)
      requires Valid(w) && IdsAhead() && Distinct(uuid.stream)
      modifies this, uuid, w
      ensures Valid(w) && IdsAhead() && uuid.drawn == old(uuid.drawn) + 1
      ensures fresh(e) && fresh(e.proxy) && e in w.entities
      ensures e.id == uuid.stream(old(uuid.drawn)) && e.id !in old(entities)
      ensures entities == old(entities)[e.id := e]
      ensures e.entityType == entityType && e.proxy.ip == ip && e.proxy.port == port
      ensures e.components == map[] && e.validate && !e.destructed
      ensures history == old(history) + [Created(e.id, e)]
      ensures Snapshot(w) == GameSpec.CreateEntity(old(Snapshot(w)), e.id, e)
      ensures w.entities == old(w.entities) + {e} && w.components == old(w.components)
    {
      var id := GenerateId();
      e := CreateEntityWithId(id, entityType, ip, port, w);
    }

    /** What becomes of an entity that has left the index: it is flagged if others hold it, and destructed if not. */
    static method Release(e: Entity, othersHold: bool, ghost w: World)
      requires e.In(w)
      modifies e`validate, e`components, e`destructed
      ensures w.Valid() && (e.destructed <==> !othersHold) && (othersHold ==> !e.validate)
      ensures w.Graph() == if othersHold then old(w.Graph()) else G.Destruct(old(w.Graph()), e)
      ensures w.Connections() == old(w.Connections()) && w.Handlers() == old(w.Handlers()) && w.Ids() == old(w.Ids())
    {
      if othersHold {
        e.validate := false;
      } else {
        e.Destruct(w);
      }
      w.ComponentsKept();
    }

    /** `othersHold` is owed by the caller: it is whether, once the entry is erased and its pointer taken out, the use
        count of the entity exceeds one, that is, whether a shared pointer outside the index holds the entity. A
        missing id is left alone. */
    method DestroyEntity(id: string, othersHold: bool, ghost w: World)
      requires Valid(w)
      modifies this, if id in entities then {entities[id]} else {}
      ensures Valid(w)
      ensures entities == old(entities) - {id}
      ensures history == old(history) + [Destroyed(id)]
      ensures Snapshot(w) == GameSpec.DestroyEntity(old(Snapshot(w)), id, othersHold)
      ensures id in old(entities) ==> (old(entities)[id].destructed <==> !othersHold)
      ensures id in old(entities) && othersHold ==> !old(entities)[id].validate
      ensures old(IdsAhead()) ==> IdsAhead()
    {
      ghost var before := Snapshot(w);
      var handle: Entity? := if id in entities then entities[id] else null;
      entities, history := entities - {id}, history + [Destroyed(id)];
      assert history[..|history| - 1] == old(history);
      w.Untouched();
      if handle != null {
        Release(handle, othersHold, w);
      }
      DestroyIs(before, id, othersHold, Snapshot(w));
    }
  }
}
