/** Which entity holds which component, and which entity a component points back to. A `Graph` is a snapshot
    of all entities and components; `E` and `C` are their identities. Owners are weak pointers: they read as
    null once the entity is destructed, that is, no longer in `comps`. */
module Ownership {
  import opened Options

  datatype Graph<E(==), C(==)> = Graph(
    comps: map<E, map<string, C>>,
    owner: map<C, Option<E>>,
    kind: map<C, string>)

  function Empty<E, C>(): Graph<E, C> { Graph(map[], map[], map[]) }

  // ---------------------------------------------------------------- operations

  function NewEntity<E(==), C(==)>(g: Graph<E, C>, e: E): Graph<E, C> { g.(comps := g.comps[e := map[]]) }

  /** A component that some code constructs without an owner, to attach it later. */
  function NewLoose<E(==), C(==)>(g: Graph<E, C>, kind: string, c: C): Graph<E, C> {
    g.(owner := g.owner[c := None], kind := g.kind[c := kind])
  }

  function SetOwner<E(==), C(==)>(g: Graph<E, C>, c: C, owner: Option<E>): Graph<E, C> {
    g.(owner := g.owner[c := owner])
  }

  function Has<E(==), C(==)>(g: Graph<E, C>, e: E, kind: string): bool { e in g.comps && kind in g.comps[e] }

  function Put<E(==), C(==)>(g: Graph<E, C>, e: E, kind: string, c: C): Graph<E, C>
    requires e in g.comps
  {
    g.(comps := g.comps[e := g.comps[e][kind := c]])
  }

  function Erase<E(==), C(==)>(g: Graph<E, C>, e: E, kind: string): Graph<E, C>
    requires e in g.comps
  {
    g.(comps := g.comps[e := g.comps[e] - {kind}])
  }

  /** `add_component<T>`; `c` is the object made when the entity has none of that type yet. */
  function Add<E(==), C(==)>(g: Graph<E, C>, e: E, kind: string, c: C): Graph<E, C>
    requires e in g.comps
  {
    if Has(g, e, kind) then g
    else Put(g.(owner := g.owner[c := Some(e)], kind := g.kind[c := kind]), e, kind, c)
  }

  /** `attach_component<T>`, where T is the pointer type the caller holds the component by. */
  function Attach<E(==), C(==)>(g: Graph<E, C>, e: E, kind: string, c: C): Graph<E, C>
    requires e in g.comps
  {
    if Has(g, e, kind) then g else Put(SetOwner(g, c, Some(e)), e, kind, c)
  }

  /** `delete_component<T>()`, releasing the owner of the component it erased. */
  function DeleteKind<E(==), C(==)>(g: Graph<E, C>, e: E, kind: string): Graph<E, C>
    requires e in g.comps
  {
    if Has(g, e, kind) then SetOwner(Erase(g, e, kind), g.comps[e][kind], None) else g
  }

  /** `delete_component<T>(component)`. */
  function DeleteHandle<E(==), C(==)>(g: Graph<E, C>, e: E, kind: string, c: C): Graph<E, C>
    requires e in g.comps
  {
    if Has(g, e, kind) && g.comps[e][kind] == c then SetOwner(Erase(g, e, kind), c, None) else g
  }

  /** `delete_all_components`: the map is cleared, the owners stay. */
  function DeleteAll<E(==), C(==)>(g: Graph<E, C>, e: E): Graph<E, C> { g.(comps := g.comps[e := map[]]) }

  function Destruct<E(==), C(==)>(g: Graph<E, C>, e: E): Graph<E, C> { g.(comps := g.comps - {e}) }

  /** `init_components`: of the configured names only "NetworkComponent" is known. */
  const NETWORK_COMPONENT := "NetworkComponent"

  function InitComponents<E(==), C(==)>(g: Graph<E, C>, e: E, names: seq<string>, c: C): Graph<E, C>
    requires e in g.comps
    decreases names
  {
    if names == [] then g
    else InitComponents(if names[0] == NETWORK_COMPONENT then Add(g, e, NETWORK_COMPONENT, c) else g, e, names[1..], c)
  }

  /** `get_owner`: a weak pointer that is locked if its entity still lives. */
  function VisibleOwner<E(==), C(==)>(g: Graph<E, C>, c: C): Option<E> {
    if c in g.owner && g.owner[c].Some? && g.owner[c].value in g.comps then g.owner[c] else None
  }

  // ---------------------------------------------------------------- invariants

  /** A component in a map sits under its own type and points back to the entity of that map. */
  ghost predicate Owned<E, C>(g: Graph<E, C>) {
    && g.kind.Keys == g.owner.Keys
    && forall e, k :: e in g.comps && k in g.comps[e] ==>
         var c := g.comps[e][k]; c in g.owner && g.owner[c] == Some(e) && g.kind[c] == k
  }

  /** And conversely: a component whose owner can be seen sits in that owner's map. */
  ghost predicate Tight<E, C>(g: Graph<E, C>) {
    && g.kind.Keys == g.owner.Keys
    && forall c :: c in g.owner && VisibleOwner(g, c).Some? ==>
         var e := g.owner[c].value; g.kind[c] in g.comps[e] && g.comps[e][g.kind[c]] == c
  }

  ghost predicate HeldAt<E, C>(g: Graph<E, C>, c: C, e: E, k: string) {
    e in g.comps && k in g.comps[e] && g.comps[e][k] == c
  }

  ghost predicate Held<E(!new), C>(g: Graph<E, C>, c: C) { exists e, k :: HeldAt(g, c, e, k) }

  /** No component is in two maps, or twice in one. */
  lemma HeldOnce<E, C>(g: Graph<E, C>, c: C, e: E, k: string, e': E, k': string)
    requires Owned(g) && HeldAt(g, c, e, k) && HeldAt(g, c, e', k')
    ensures e == e' && k == k'
  {
    assert g.comps[e][k] == g.comps[e'][k'];
  }

  // ---------------------------------------------------------------- runs

  datatype Op<E, C> =
    | OpNewEntity(e: E)
    | OpNewLoose(kind: string, c: C)
    | OpAdd(e: E, kind: string, c: C)
    | OpAttach(e: E, kind: string, c: C)
    | OpDeleteKind(e: E, kind: string)
    | OpDeleteHandle(e: E, kind: string, c: C)
    | OpDeleteAll(e: E)
    | OpDestruct(e: E)

  /** What a caller can do: new objects are new, the entity it works on lives, and the component it passes exists. */
  ghost predicate Possible<E, C>(g: Graph<E, C>, op: Op<E, C>) {
    match op
    case OpNewEntity(e) => e !in g.comps && forall c :: c in g.owner ==> g.owner[c] != Some(e)
    case OpNewLoose(_, c) => c !in g.owner
    case OpAdd(e, kind, c) => e in g.comps && c !in g.owner
    case OpAttach(e, kind, c) => e in g.comps && c in g.owner
    case OpDeleteKind(e, _) => e in g.comps
    case OpDeleteHandle(e, _, c) => e in g.comps && c in g.owner
    case OpDeleteAll(e) => e in g.comps
    case OpDestruct(e) => e in g.comps
  }

  ghost function Apply<E, C>(g: Graph<E, C>, op: Op<E, C>): Graph<E, C>
    requires Possible(g, op)
  {
    match op
    case OpNewEntity(e) => NewEntity(g, e)
    case OpNewLoose(kind, c) => NewLoose(g, kind, c)
    case OpAdd(e, kind, c) => Add(g, e, kind, c)
    case OpAttach(e, kind, c) => Attach(g, e, kind, c)
    case OpDeleteKind(e, kind) => DeleteKind(g, e, kind)
    case OpDeleteHandle(e, kind, c) => DeleteHandle(g, e, kind, c)
    case OpDeleteAll(e) => DeleteAll(g, e)
    case OpDestruct(e) => Destruct(g, e)
  }

  /** An attach that cannot do harm: it is refused, or the component comes under its own type and is held nowhere. */
  ghost predicate Careful<E(!new), C>(g: Graph<E, C>, op: Op<E, C>) {
    op.OpAttach? && op.c in g.kind ==> Has(g, op.e, op.kind) || (g.kind[op.c] == op.kind && !Held(g, op.c))
  }

  ghost predicate PossibleRun<E, C>(g: Graph<E, C>, run: seq<Op<E, C>>)
    decreases |run|
  {
    run != [] ==> Possible(g, run[0]) && PossibleRun(Apply(g, run[0]), run[1..])
  }

  ghost function ApplyAll<E, C>(g: Graph<E, C>, run: seq<Op<E, C>>): Graph<E, C>
    requires PossibleRun(g, run)
    decreases |run|
  {
    if run == [] then g else ApplyAll(Apply(g, run[0]), run[1..])
  }

  ghost predicate CarefulRun<E(!new), C>(g: Graph<E, C>, run: seq<Op<E, C>>)
    requires PossibleRun(g, run)
    decreases |run|
  {
    run != [] ==> Careful(g, run[0]) && CarefulRun(Apply(g, run[0]), run[1..])
  }

  /** An operation that cannot leave an owner behind either. */
  ghost predicate Tidy<E(!new), C>(g: Graph<E, C>, op: Op<E, C>) {
    Careful(g, op) && (op.OpDeleteAll? && op.e in g.comps ==> g.comps[op.e] == map[])
  }

  ghost predicate TidyRun<E(!new), C>(g: Graph<E, C>, run: seq<Op<E, C>>)
    requires PossibleRun(g, run)
    decreases |run|
  {
    run != [] ==> Tidy(g, run[0]) && TidyRun(Apply(g, run[0]), run[1..])
  }

  ghost predicate OwnedThroughout<E, C>(g: Graph<E, C>, run: seq<Op<E, C>>)
    requires PossibleRun(g, run)
    decreases |run|
  {
    Owned(g) && (run != [] ==> OwnedThroughout(Apply(g, run[0]), run[1..]))
  }

  ghost predicate TightThroughout<E, C>(g: Graph<E, C>, run: seq<Op<E, C>>)
    requires PossibleRun(g, run)
    decreases |run|
  {
    Owned(g) && Tight(g) && (run != [] ==> TightThroughout(Apply(g, run[0]), run[1..]))
  }

  // ---------------------------------------------------------------- what each operation does

  /** The places after an operation, in terms of the places before it. */
  ghost predicate HeldAfter<E, C>(g: Graph<E, C>, op: Op<E, C>, c: C, e: E, k: string) {
    match op
    case OpAdd(e', kind, c') => HeldAt(g, c, e, k) || (!Has(g, e', kind) && c == c' && e == e' && k == kind)
    case OpAttach(e', kind, c') => HeldAt(g, c, e, k) || (!Has(g, e', kind) && c == c' && e == e' && k == kind)
    case OpDeleteKind(e', kind) => HeldAt(g, c, e, k) && !(e == e' && k == kind)
    case OpDeleteHandle(e', kind, c') => HeldAt(g, c, e, k) && !(e == e' && k == kind && c == c')
    case OpDeleteAll(e') => HeldAt(g, c, e, k) && e != e'
    case OpDestruct(e') => HeldAt(g, c, e, k) && e != e'
    case _ => HeldAt(g, c, e, k)
  }

  /** The operation writes the owner of `c`. */
  ghost predicate Reowns<E, C>(g: Graph<E, C>, op: Op<E, C>, c: C) {
    match op
    case OpNewLoose(_, c') => c == c'
    case OpAdd(e, kind, c') => c == c' && !Has(g, e, kind)
    case OpAttach(e, kind, c') => c == c' && !Has(g, e, kind)
    case OpDeleteKind(e, kind) => HeldAt(g, c, e, kind)
    case OpDeleteHandle(e, kind, c') => c == c' && HeldAt(g, c, e, kind)
    case _ => false
  }

  /** Every operation, by its places: which entities there are and what is held where. */
  lemma PlacesAre<E(!new), C(!new)>(g: Graph<E, C>, op: Op<E, C>)
    requires Possible(g, op)
    ensures forall e :: e in Apply(g, op).comps <==> op == OpNewEntity(e) || (e in g.comps && op != OpDestruct(e))
    ensures forall c, e, k :: HeldAt(Apply(g, op), c, e, k) <==> HeldAfter(g, op, c, e, k)
  {
  }

  /** Every operation, by its components: whose owner is set, to what, and of which type they are. */
  lemma OwnersAre<E(!new), C(!new)>(g: Graph<E, C>, op: Op<E, C>)
    requires Possible(g, op)
    ensures var g' := Apply(g, op);
            && (forall c :: Reowns(g, op, c) ==>
                  c in g'.owner && g'.owner[c] == if op.OpAdd? || op.OpAttach? then Some(op.e) else None)
            && (forall c :: !Reowns(g, op, c) ==>
                  (c in g'.owner <==> c in g.owner) && (c in g.owner ==> g'.owner[c] == g.owner[c]))
            && (forall c :: Reowns(g, op, c) && (op.OpNewLoose? || op.OpAdd?) ==> c in g'.kind && g'.kind[c] == op.kind)
            && (forall c :: c in g.kind && !(Reowns(g, op, c) && (op.OpNewLoose? || op.OpAdd?)) ==>
                  c in g'.kind && g'.kind[c] == g.kind[c])
  {
  }

  lemma AddKeepsOwned<E, C>(g: Graph<E, C>, e: E, kind: string, c: C)
    requires Owned(g) && e in g.comps && c !in g.owner
    ensures Owned(Add(g, e, kind, c))
  {
  }

  lemma AttachUnheldKeepsOwned<E(!new), C>(g: Graph<E, C>, e: E, kind: string, c: C)
    requires Owned(g) && e in g.comps && c in g.owner && g.kind[c] == kind && !Held(g, c)
    ensures Owned(Attach(g, e, kind, c))
  {
    forall e', k | e' in g.comps && k in g.comps[e'] ensures g.comps[e'][k] != c {
      assert !HeldAt(g, c, e', k);
    }
  }

  lemma EraseKeepsOwned<E(!new), C>(g: Graph<E, C>, e: E, kind: string)
    requires Owned(g) && Has(g, e, kind)
    ensures Owned(SetOwner(Erase(g, e, kind), g.comps[e][kind], None))
  {
    var c := g.comps[e][kind];
    forall e', k | e' in g.comps && k in g.comps[e'] && g.comps[e'][k] == c ensures e' == e && k == kind {
      HeldOnce(g, c, e', k, e, kind);
    }
  }

  lemma ApplyKeepsOwned<E(!new), C>(g: Graph<E, C>, op: Op<E, C>)
    requires Owned(g) && Possible(g, op) && Careful(g, op)
    ensures Owned(Apply(g, op))
  {
    match op
    case OpAttach(e, kind, c) =>
      if !Has(g, e, kind) { AttachUnheldKeepsOwned(g, e, kind, c); }
    case OpDeleteKind(e, kind) =>
      if Has(g, e, kind) { EraseKeepsOwned(g, e, kind); }
    case OpDeleteHandle(e, kind, c) =>
      if Has(g, e, kind) && g.comps[e][kind] == c { EraseKeepsOwned(g, e, kind); }
    case _ =>
  }

  lemma ApplyKeepsTight<E(!new), C>(g: Graph<E, C>, op: Op<E, C>)
    requires Owned(g) && Tight(g) && Possible(g, op) && Careful(g, op)
    requires op.OpDeleteAll? ==> g.comps[op.e] == map[]
    ensures Tight(Apply(g, op))
  {
    match op
    case OpDeleteKind(e, kind) =>
      if Has(g, e, kind) { EraseKeepsTight(g, e, kind); }
    case OpDeleteHandle(e, kind, c) =>
      if Has(g, e, kind) && g.comps[e][kind] == c { EraseKeepsTight(g, e, kind); }
    case _ =>
  }

  lemma EraseKeepsTight<E, C>(g: Graph<E, C>, e: E, kind: string)
    requires Owned(g) && Tight(g) && Has(g, e, kind)
    ensures Tight(SetOwner(Erase(g, e, kind), g.comps[e][kind], None))
  {
    var c := g.comps[e][kind];
    var g' := SetOwner(Erase(g, e, kind), c, None);
    forall d | d in g'.owner && VisibleOwner(g', d).Some?
      ensures g'.kind[d] in g'.comps[g'.owner[d].value] && g'.comps[g'.owner[d].value][g'.kind[d]] == d
    {
      assert d != c && VisibleOwner(g, d) == VisibleOwner(g', d);
    }
  }

  // ---------------------------------------------------------------- what a deletion frees

  /** A deleted component is held nowhere and has no owner, and no other place in any map has changed. */
  lemma DeletedIsFree<E(!new), C>(g: Graph<E, C>, e: E, kind: string)
    requires Owned(g) && Has(g, e, kind)
    ensures var c, g' := g.comps[e][kind], DeleteKind(g, e, kind);
            && !Held(g', c) && VisibleOwner(g', c) == None
            && DeleteHandle(g, e, kind, c) == g'
            && forall d, e', k :: HeldAt(g', d, e', k) <==> HeldAt(g, d, e', k) && d != c
  {
    var c, g' := g.comps[e][kind], DeleteKind(g, e, kind);
    forall d, e', k ensures HeldAt(g', d, e', k) <==> HeldAt(g, d, e', k) && d != c {
      if HeldAt(g, c, e', k) { HeldOnce(g, c, e', k, e, kind); }
    }
  }

  /** Deleting a component and attaching it elsewhere moves it: it is then held there and only there, and the
      graph is as sound as before. */
  lemma DeleteThenAttachMoves<E(!new), C>(g: Graph<E, C>, e: E, kind: string, to: E)
    requires Owned(g) && Has(g, e, kind) && to in g.comps && (to == e || !Has(g, to, kind))
    ensures var c, g' := g.comps[e][kind], Attach(DeleteKind(g, e, kind), to, kind, g.comps[e][kind]);
            && Owned(g') && VisibleOwner(g', c) == Some(to)
            && forall e', k :: HeldAt(g', c, e', k) <==> e' == to && k == kind
  {
    var c, g1 := g.comps[e][kind], DeleteKind(g, e, kind);
    DeletedIsFree(g, e, kind);
    EraseKeepsOwned(g, e, kind);
    AttachKeepsOwnedIff(g1, to, kind, c);
    var g' := Attach(g1, to, kind, c);
    assert HeldAt(g', c, to, kind);
    forall e', k | HeldAt(g', c, e', k) ensures e' == to && k == kind {
      HeldOnce(g', c, e', k, to, kind);
    }
  }

  // ---------------------------------------------------------------- where it breaks, exactly

  /** Attaching keeps the graph sound if and only if it is refused, or the component is held nowhere and comes
      under its own type. */
  lemma AttachKeepsOwnedIff<E(!new), C>(g: Graph<E, C>, e: E, kind: string, c: C)
    requires Owned(g) && e in g.comps && c in g.owner
    ensures Owned(Attach(g, e, kind, c)) <==> Has(g, e, kind) || (g.kind[c] == kind && !Held(g, c))
  {
    if !Has(g, e, kind) {
      var g' := Attach(g, e, kind, c);
      assert HeldAt(g', c, e, kind);
      if g.kind[c] == kind && !Held(g, c) {
        AttachUnheldKeepsOwned(g, e, kind, c);
      } else if Owned(g') && Held(g, c) {
        var e', k :| HeldAt(g, c, e', k);
        assert HeldAt(g', c, e', k);
        HeldOnce(g', c, e, kind, e', k);
        assert false;
      }
    }
  }

  /** Clearing an entity breaks the converse if and only if it held anything: the owners are left behind. */
  lemma DeleteAllKeepsTightIff<E(!new), C>(g: Graph<E, C>, e: E)
    requires Owned(g) && Tight(g) && e in g.comps
    ensures Tight(DeleteAll(g, e)) <==> g.comps[e] == map[]
  {
    if g.comps[e] != map[] {
      var k :| k in g.comps[e];
      var c := g.comps[e][k];
      assert VisibleOwner(DeleteAll(g, e), c) == Some(e);
    } else {
      ApplyKeepsTight(g, OpDeleteAll(e));
    }
  }

  lemma ApplyKeepsOwnedIff<E(!new), C>(g: Graph<E, C>, op: Op<E, C>)
    requires Owned(g) && Possible(g, op)
    ensures Owned(Apply(g, op)) <==> Careful(g, op)
  {
    if Careful(g, op) {
      ApplyKeepsOwned(g, op);
    } else {
      AttachKeepsOwnedIff(g, op.e, op.kind, op.c);
    }
  }

  lemma ApplyKeepsTightIff<E(!new), C>(g: Graph<E, C>, op: Op<E, C>)
    requires Owned(g) && Tight(g) && Possible(g, op)
    ensures Owned(Apply(g, op)) && Tight(Apply(g, op)) <==> Tidy(g, op)
  {
    ApplyKeepsOwnedIff(g, op);
    if op.OpDeleteAll? {
      DeleteAllKeepsTightIff(g, op.e);
    } else if Careful(g, op) {
      ApplyKeepsTight(g, op);
    }
  }

  /** The ownership graph over every run on any number of entities, destructions included: it is sound in all its
      states if and only if no attach was careless. */
  lemma {:induction false} OwnedIffCareful<E(!new), C>(g: Graph<E, C>, run: seq<Op<E, C>>)
    requires Owned(g) && PossibleRun(g, run)
    ensures OwnedThroughout(g, run) <==> CarefulRun(g, run)
    ensures CarefulRun(g, run) ==> Owned(ApplyAll(g, run))
    decreases |run|
  {
    if run != [] {
      ApplyKeepsOwnedIff(g, run[0]);
      if Careful(g, run[0]) {
        OwnedIffCareful(Apply(g, run[0]), run[1..]);
      }
    }
  }

  /** In all its states an owner that can be seen also holds the component, if and only if, besides, nothing was
      cleared by `delete_all_components` that held anything. */
  lemma {:induction false} TightIffTidy<E(!new), C>(g: Graph<E, C>, run: seq<Op<E, C>>)
    requires Owned(g) && Tight(g) && PossibleRun(g, run)
    ensures TightThroughout(g, run) <==> TidyRun(g, run)
    ensures TidyRun(g, run) ==> Tight(ApplyAll(g, run))
    decreases |run|
  {
    if run != [] {
      ApplyKeepsTightIff(g, run[0]);
      if Tidy(g, run[0]) {
        TightIffTidy(Apply(g, run[0]), run[1..]);
      }
    }
  }

  /** `delete_component<T>()` as written: the owner release stands on the miss branch, behind `end()`; a miss
      is undefined (`None`) and a hit leaves the owner in place. */
  function LiteralDeleteKind<E(==), C(==)>(g: Graph<E, C>, e: E, kind: string): Option<Graph<E, C>>
    requires e in g.comps
  {
    if Has(g, e, kind) then Some(Erase(g, e, kind)) else None
  }

  /** So every call that is defined leaves a component pointing at an entity that no longer holds it. */
  lemma LiteralDeleteNeverTight<E(!new), C>(g: Graph<E, C>, e: E, kind: string)
    requires Owned(g) && Tight(g) && e in g.comps
    ensures var r := LiteralDeleteKind(g, e, kind);
            r.Some? ==> Owned(r.value) && !Tight(r.value) && VisibleOwner(r.value, g.comps[e][kind]) == Some(e)
  {
  }

  /** A run in which a held component is attached elsewhere: it ends up in two maps. */
  lemma AttachingHeldBreaks()
    ensures var g := Add(NewEntity(NewEntity(Empty<nat, nat>(), 0), 1), 0, "T", 7);
            && Owned(g) && Held(g, 7)
            && !Owned(Attach(g, 1, "T", 7))
            && HeldAt(Attach(g, 1, "T", 7), 7, 0, "T") && HeldAt(Attach(g, 1, "T", 7), 7, 1, "T")
  {
    var g := Add(NewEntity(NewEntity(Empty<nat, nat>(), 0), 1), 0, "T", 7);
    assert HeldAt(g, 7, 0, "T");
    AttachKeepsOwnedIff(g, 1, "T", 7);
  }

  // ---------------------------------------------------------------- configuration

  /** Listing the component any number of times, among any other names, adds it once. */
  lemma {:induction false} InitComponentsIs<E, C>(g: Graph<E, C>, e: E, names: seq<string>, c: C)
    requires e in g.comps
    ensures InitComponents(g, e, names, c) ==
            if "NetworkComponent" in names then Add(g, e, "NetworkComponent", c) else g
    decreases names
  {
    if names != [] {
      var g1 := if names[0] == NETWORK_COMPONENT then Add(g, e, NETWORK_COMPONENT, c) else g;
      InitComponentsIs(g1, e, names[1..], c);
    }
  }
}
