/** Entities and components as objects that point at each other. The class hierarchy is flattened: `Entity` is
    `Entity` with `ServerEntity`, and `Component` is `Component` with `NetworkComponent`. */
module Entities {
  import opened Options
  import opened Decimal
  import opened EntityProxies
  import opened DisconnectHandlers
  import opened AsioTcpConnections
  import G = Ownership
  import opened GameSpec

  datatype EntityType = MirrorEntity | PlayerEntity | ServiceEntity | AIEntity | FreelyCombinedEntity

  function TypeFromString(name: string): EntityType {
    if name == "kMirrorEntity" then MirrorEntity
    else if name == "kServiceEntity" then ServiceEntity
    else if name == "kPlayerEntity" then PlayerEntity
    else if name == "kAIEntity" then AIEntity
    else ServiceEntity
  }

  /** The enumerators by their own names. */
  function TypeName(t: EntityType): string {
    match t
    case MirrorEntity => "kMirrorEntity"
    case PlayerEntity => "kPlayerEntity"
    case ServiceEntity => "kServiceEntity"
    case AIEntity => "kAIEntity"
    case FreelyCombinedEntity => "kFreelyCombinedEntity"
  }

  /** A type is configured by its name, except that the name of the freely combined type is not recognised; and a
      name that is not one of the other four means a service entity. */
  lemma TypeNamesIff(t: EntityType, name: string)
    ensures TypeFromString(TypeName(t)) == t <==> t != FreelyCombinedEntity
    ensures TypeFromString(name) == t && t != ServiceEntity ==> name == TypeName(t)
    ensures TypeFromString(name) == MirrorEntity <==> name == "kMirrorEntity"
    ensures TypeFromString(name) == PlayerEntity <==> name == "kPlayerEntity"
    ensures TypeFromString(name) == AIEntity <==> name == "kAIEntity"
    ensures TypeFromString(name) == ServiceEntity <==> name !in {"kMirrorEntity", "kPlayerEntity", "kAIEntity"}
  {
    assert |"kFreelyCombinedEntity"| == 21;
    assert |"kMirrorEntity"| == 13 && |"kPlayerEntity"| == 13 && |"kServiceEntity"| == 14 && |"kAIEntity"| == 9;
    assert "kMirrorEntity"[1] != "kPlayerEntity"[1];
  }

  /** All entities and components there are, for stating what a method leaves alone. */
  class World {
    ghost var entities: set<Entity>
    ghost var components: set<Component>

    constructor ()
      ensures Valid() && Graph() == G.Empty()
    {
      entities, components := {}, {};
    }

    ghost predicate Valid()
      reads `entities, `components, entities`components, components`owner
    {
      && (forall e, k :: e in entities && k in e.components ==> e.components[k] in components)
      && (forall c :: c in components && c.owner != null ==> c.owner in entities)
    }

    ghost function Comps(): map<Entity, map<string, Component>>
      reads `entities, entities`components, entities`destructed
    {
      map e | e in entities && !e.destructed :: e.components
    }

    ghost function Owners(): map<Component, Option<Entity>>
      reads `components, components`owner
    {
      map c | c in components :: c.OwnerField()
    }

    ghost function Kinds(): map<Component, string>
      reads `components
    {
      map c | c in components :: c.kind
    }

    ghost function Graph(): G.Graph<Entity, Component>
      reads `entities, `components, entities`components, entities`destructed, components`owner
    {
      G.Graph(Comps(), Owners(), Kinds())
    }

    twostate lemma Untouched()
      requires old(Valid()) && unchanged(this)
      requires forall d :: d in components ==> unchanged(d)
      requires forall d :: d in entities ==> unchanged(d)
      ensures Valid()
      ensures Graph() == old(Graph()) && Ids() == old(Ids())
      ensures Connections() == old(Connections()) && Handlers() == old(Handlers())
    {
    }

    /** No component changed, and nothing came or went. */
    twostate lemma ComponentsKept()
      requires unchanged(this) && forall d :: d in components ==> unchanged(d)
      ensures Connections() == old(Connections()) && Handlers() == old(Handlers()) && Ids() == old(Ids())
    {
    }

    twostate lemma Joined(new e: Entity)
      requires old(Valid()) && entities == old(entities) + {e} && components == old(components)
      requires e !in old(entities) && e.components == map[] && !e.destructed
      requires forall d :: d in old(components) ==> unchanged(d)
      requires forall d :: d in old(entities) ==> unchanged(d)
      ensures Valid()
      ensures Graph() == G.NewEntity(old(Graph()), e)
      ensures Ids() == old(Ids())[e := e.id]
      ensures Connections() == old(Connections()) && Handlers() == old(Handlers())
    {
      assert Comps() == old(Comps())[e := map[]];
    }

    /** Only the component map of `e` changed. */
    twostate lemma Recomposed(new e: Entity)
      requires e in entities && entities == old(entities) && !e.destructed
      requires forall d :: d in entities ==> d.destructed == old(d.destructed)
      requires forall d :: d in entities && d != e ==> d.components == old(d.components)
      ensures Comps() == old(Comps())[e := e.components]
    {
    }

    /** Only the owner of `c` changed: it may be a new component. */
    twostate lemma Reowned(new c: Component)
      requires c in components && components == old(components) + {c}
      requires forall d :: d in old(components) && d != c ==> d.owner == old(d.owner)
      ensures Owners() == old(Owners())[c := c.OwnerField()]
      ensures Kinds() == old(Kinds())[c := c.kind]
    {
    }

    /** What only `c` changed: it may be a new component. */
    twostate lemma Networked(new c: Component)
      requires c in components && components == old(components) + {c}
      requires forall d :: d in old(components) && d != c ==>
                 d.connection == old(d.connection) && d.disconnectHandlers == old(d.disconnectHandlers)
      ensures Connections() == old(Connections())[c := c.ConnectionField()]
      ensures Handlers() == old(Handlers())[c := c.disconnectHandlers]
    {
    }

    ghost function Ids(): map<Entity, string>
      reads `entities
    {
      map e | e in entities :: e.id
    }

    ghost function Connections(): map<Component, Option<AsioTcpConnection>>
      reads `components, components`connection
    {
      map c | c in components :: c.ConnectionField()
    }

    ghost function Handlers(): map<Component, seq<Entry<Handler>>>
      reads `components, components`disconnectHandlers
    {
      map c | c in components :: c.disconnectHandlers
    }
  }

  class Component {
    const kind: string
    var owner: Entity?
    var connection: AsioTcpConnection?
    var disconnectHandlers: seq<Entry<Handler>>

    ghost function OwnerField(): Option<Entity>
      reads `owner
    {
      if owner == null then None else Some(owner)
    }

    ghost function ConnectionField(): Option<AsioTcpConnection>
      reads `connection
    {
      if connection == null then None else Some(connection)
    }

    constructor (kind: string, owner: Entity?)
      ensures this.kind == kind && this.owner == owner && connection == null && disconnectHandlers == []
    {
      this.kind, this.owner := kind, owner;
      connection, disconnectHandlers := null, [];
    }

    /** The weak owner, locked: null if it is unset or its entity is gone. */
    function GetOwner(): (o: Entity?)
      reads this, owner
      ensures o != null ==> o == owner
      ensures o == null <==> owner == null || owner.destructed
    {
      if owner == null || owner.destructed then null else owner
    }

    method SetConnection(connection: AsioTcpConnection)
      modifies this`connection
      ensures this.connection == connection
    {
      this.connection := connection;
    }

    method RegisterDisconnectHandler(name: string, handler: Handler) returns (ok: bool)
      modifies this`disconnectHandlers
      ensures disconnectHandlers == Register(old(disconnectHandlers), name, handler)
      ensures ok <==> forall i :: 0 <= i < |old(disconnectHandlers)| ==> old(disconnectHandlers)[i].0 != name
    {
      if Knows(disconnectHandlers, name) {
        return false;
      }
      disconnectHandlers := Register(disconnectHandlers, name, handler);
      return true;
    }

    /** Runs the handlers; `calls` is what it ran, in order, with the id it passed. */
    method HandleDisconnect() returns (calls: seq<(Handler, string)>)
      ensures calls == Calls(disconnectHandlers, if GetOwner() == null then None else Some(GetOwner().id))
      ensures owner == null || owner.destructed ==> calls == []
      ensures owner != null && !owner.destructed ==>
                && |calls| == |disconnectHandlers|
                && forall i :: 0 <= i < |calls| ==> calls[i] == (disconnectHandlers[i].1, owner.id)
    {
      calls := [];
      var o := GetOwner();
      if o == null {
        return;
      }
      var i := 0;
      while i < |disconnectHandlers|
        invariant 0 <= i <= |disconnectHandlers|
        invariant calls == Calls(disconnectHandlers[..i], Some(o.id))
      {
        calls := calls + [(disconnectHandlers[i].1, o.id)];
        i := i + 1;
      }
      assert disconnectHandlers[..i] == disconnectHandlers;
    }
  }

  class Entity {
    const id: string
    const entityType: EntityType
    const proxy: EntityProxy
    var components: map<string, Component>
    var validate: bool
    var destructed: bool

    constructor (id: string, entityType: EntityType, ip: string, port: Int32, ghost w: World)
      requires w.Valid()
      modifies w
      ensures w.Valid() && w.entities == old(w.entities) + {this} && w.components == old(w.components)
      ensures w.Graph() == G.NewEntity(old(w.Graph()), this)
      ensures w.Ids() == old(w.Ids())[this := id]
      ensures w.Connections() == old(w.Connections()) && w.Handlers() == old(w.Handlers())
      ensures this.id == id && this.entityType == entityType && components == map[] && validate && !destructed
      ensures fresh(proxy) && proxy.ip == ip && proxy.port == port && proxy.entityId == id && proxy.validate
    {
      this.id, this.entityType, components, validate, destructed := id, entityType, map[], true, false;
      var p := new EntityProxy();
      proxy := p;
      new;
      p.SetProxy(id, ip, port);
      w.entities := w.entities + {this};
      w.Joined(this);
    }

    /** A mirror entity is never local. */
    function IsLocal(ip: string, port: Int32): (local: bool)
      reads proxy
      ensures !local <==> entityType == MirrorEntity || proxy.ip != ip || proxy.port != port
    {
      entityType != MirrorEntity && proxy.ip == ip && proxy.port == port
    }

    function GetComponent(kind: string): Component?
      reads `components
    {
      if kind in components then components[kind] else null
    }

    ghost predicate In(w: World)
      reads w, w.entities, w.components, this
    {
      w.Valid() && this in w.entities && !destructed
    }

    twostate predicate Made(new c: Component)
      reads c
    {
      fresh(c) && c.connection == null && c.disconnectHandlers == [] && c.owner == this
    }

    method AddComponent(kind: string, ghost w: World) returns (c: Component)
      requires In(w)
      modifies this`components, w`components
      ensures In(w) && c == GetComponent(kind)
      ensures w.Graph() == G.Add(old(w.Graph()), this, kind, c)
      ensures components == if kind in old(components) then old(components) else old(components)[kind := c]
      ensures if kind in old(components) then unchanged(this) && unchanged(w)
              else Made(c) && w.components == old(w.components) + {c} &&
                   w.Connections() == old(w.Connections())[c := None] && w.Handlers() == old(w.Handlers())[c := []]
    {
      if kind in components {
        return components[kind];
      }
      ghost var g := w.Graph();
      c := new Component(kind, this);
      components := components[kind := c];
      w.components := w.components + {c};
      w.Recomposed(this);
      w.Reowned(c);
      w.Networked(c);
    }

    method AttachComponent(kind: string, c: Component, ghost w: World) returns (ok: bool)
      requires In(w) && c in w.components
      modifies this`components, c`owner
      ensures In(w)
      ensures ok <==> kind !in old(components)
      ensures w.Graph() == G.Attach(old(w.Graph()), this, kind, c)
    {
      if kind in components {
        return false;
      }
      c.owner := this;
      components := components[kind := c];
      w.Recomposed(this);
      w.Reowned(c);
      assert w.Kinds() == old(w.Kinds());
      return true;
    }

    method DeleteComponent(kind: string, ghost w: World) returns (ok: bool)
      requires In(w)
      modifies this`components, w.components`owner
      ensures In(w)
      ensures ok <==> kind in old(components)
      ensures w.Graph() == G.DeleteKind(old(w.Graph()), this, kind)
    {
      if kind !in components {
        return false;
      }
      var erased := components[kind];
      components := components - {kind};
      erased.owner := null;
      w.Recomposed(this);
      w.Reowned(erased);
      assert w.Kinds() == old(w.Kinds());
      return true;
    }

    method DeleteComponentHandle(kind: string, c: Component, ghost w: World) returns (ok: bool)
      requires In(w) && c in w.components
      modifies this`components, c`owner
      ensures In(w)
      ensures ok <==> kind in old(components) && old(components)[kind] == c
      ensures w.Graph() == G.DeleteHandle(old(w.Graph()), this, kind, c)
    {
      if kind !in components || components[kind] != c {
        return false;
      }
      components := components - {kind};
      c.owner := null;
      w.Recomposed(this);
      w.Reowned(c);
      assert w.Kinds() == old(w.Kinds());
      return true;
    }

    /** Owners are not released. */
    method DeleteAllComponents(ghost w: World)
      requires In(w)
      modifies this`components
      ensures In(w)
      ensures w.Graph() == G.DeleteAll(old(w.Graph()), this)
    {
      components := map[];
    }

    /** The destructor, which runs when the last shared pointer goes. */
    method Destruct(ghost w: World)
      requires In(w)
      modifies this`components, this`destructed
      ensures w.Valid() && destructed
      ensures w.Graph() == G.Destruct(old(w.Graph()), this)
      ensures w.Connections() == old(w.Connections()) && w.Handlers() == old(w.Handlers()) && w.Ids() == old(w.Ids())
    {
      DeleteAllComponents(w);
      destructed := true;
      w.ComponentsKept();
    }

    /** `c` is the network component made here, or null if none is. */
    method InitComponents(names: seq<string>, ghost w: World) returns (ghost c: Component?)
      requires In(w)
      modifies this`components, w`components
      ensures In(w)
      ensures c != null <==> G.NETWORK_COMPONENT in names && G.NETWORK_COMPONENT !in old(components)
      ensures c == null ==> unchanged(this) && unchanged(w) && w.Graph() == old(w.Graph()) &&
                            forall d: Component :: old(w.Graph()) == G.InitComponents(old(w.Graph()), this, names, d)
      ensures c != null ==> Equipped(c, w) && w.Graph() == G.InitComponents(old(w.Graph()), this, names, c)
    {
      ghost var g0 := w.Graph();
      c := null;
      var i := 0;
      while i < |names|
        invariant 0 <= i <= |names|
        invariant In(w)
        invariant c != null <==> G.NETWORK_COMPONENT in names[..i] && G.NETWORK_COMPONENT !in old(components)
        invariant if c == null then unchanged(this) && unchanged(w) else Equipped(c, w)
        invariant w.Graph() == if c == null then g0 else G.Add(g0, this, G.NETWORK_COMPONENT, c)
      {
        if names[i] == G.NETWORK_COMPONENT {
          label before:
          var got := AddComponent(G.NETWORK_COMPONENT, w);
          c := if c == null && !old@before(G.NETWORK_COMPONENT in components) then got else c;
        }
        i := i + 1;
      }
      assert names[..i] == names;
      forall d: Component ensures G.InitComponents(g0, this, names, d) ==
        if G.NETWORK_COMPONENT in names then G.Add(g0, this, G.NETWORK_COMPONENT, d) else g0
      {
        G.InitComponentsIs(g0, this, names, d);
      }
    }

    /** `c` is the one component made since, and this entity's network component. */
    twostate predicate Equipped(new c: Component, w: World)
      reads this, c, w, w.components
    {
      && Made(c) && w.components == old(w.components) + {c}
      && components == old(components)[G.NETWORK_COMPONENT := c]
      && w.Connections() == old(w.Connections())[c := None]
      && w.Handlers() == old(w.Handlers())[c := []]
    }
  }
}
