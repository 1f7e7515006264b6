/** The index of the entity factory, and what its lookups mean in terms of the history of calls. */
module Registries {
  import opened Options

  type Registry<E> = map<string, E>

  /** `std::map::emplace`: an id that is taken keeps the entity it has. */
  function Emplace<E>(r: Registry<E>, id: string, e: E): Registry<E> {
    if id in r then r else r[id := e]
  }

  function Lookup<E>(r: Registry<E>, id: string): Option<E> { if id in r then Some(r[id]) else None }

  /** The calls that change the index. `Created` stands for both `create_entity`, whose id is generated, and
      `create_entity_with_id`. */
  datatype Call<E> = Created(id: string, entity: E) | Destroyed(id: string)

  function After<E>(r: Registry<E>, call: Call<E>): Registry<E> {
    match call
    case Created(id, e) => Emplace(r, id, e)
    case Destroyed(id) => r - {id}
  }

  function Replay<E>(history: seq<Call<E>>): Registry<E> {
    if history == [] then map[] else After(Replay(history[..|history| - 1]), history[|history| - 1])
  }

  /** Call `i` is the first creation under `id` since the last time `id` was destroyed. */
  ghost predicate Current<E>(history: seq<Call<E>>, id: string, i: nat) {
    && i < |history| && history[i].Created? && history[i].id == id
    && (forall j :: i < j < |history| ==> history[j] != Destroyed(id))
    && (forall j :: 0 <= j < i && history[j].Created? && history[j].id == id ==>
          exists k :: j < k < i && history[k] == Destroyed(id))
  }

  lemma CurrentSurvives<E>(history: seq<Call<E>>, call: Call<E>, id: string, i: nat)
    requires i < |history|
    ensures Current(history + [call], id, i) <==> Current(history, id, i) && call != Destroyed(id)
  {
    var h := history + [call];
    assert h[|history|] == call;
    assert forall j :: 0 <= j < |history| ==> h[j] == history[j];
    if Current(h, id, i) {
      forall j | 0 <= j < i && history[j].Created? && history[j].id == id
        ensures exists k :: j < k < i && history[k] == Destroyed(id)
      {
        assert h[j].Created? && h[j].id == id;
        var k :| j < k < i && h[k] == Destroyed(id);
        assert history[k] == Destroyed(id);
      }
    }
    if Current(history, id, i) && call != Destroyed(id) {
      forall j | 0 <= j < i && h[j].Created? && h[j].id == id
        ensures exists k :: j < k < i && h[k] == Destroyed(id)
      {
        assert history[j].Created? && history[j].id == id;
        var k :| j < k < i && history[k] == Destroyed(id);
        assert h[k] == Destroyed(id);
      }
    }
  }

  /** Nothing is current under `id` only if every creation under it was destroyed again. */
  lemma {:induction false} NoneCurrent<E>(history: seq<Call<E>>, id: string, j: nat)
    requires forall i: nat :: !Current(history, id, i)
    requires j < |history| && history[j].Created? && history[j].id == id
    ensures exists k :: j < k < |history| && history[k] == Destroyed(id)
    decreases |history|
  {
    var n := |history| - 1;
    var front, last := history[..n], history[n];
    assert history == front + [last];
    if last == Destroyed(id) {
      assert j < n;
    } else {
      forall i: nat ensures !Current(front, id, i) {
        if i < |front| { CurrentSurvives(front, last, id, i); }
      }
      if j < n {
        NoneCurrent(front, id, j);
        var k :| j < k < |front| && front[k] == Destroyed(id);
        assert history[k] == Destroyed(id);
      } else {
        forall j' | 0 <= j' < n && history[j'].Created? && history[j'].id == id
          ensures exists k :: j' < k < n && history[k] == Destroyed(id)
        {
          NoneCurrent(front, id, j');
          var k :| j' < k < |front| && front[k] == Destroyed(id);
          assert history[k] == Destroyed(id);
        }
        assert Current(history, id, n);
      }
    }
  }

  /** A creation under an id with nothing current is current. */
  lemma CreatedIsCurrent<E>(front: seq<Call<E>>, last: Call<E>, id: string)
    requires last.Created? && last.id == id && forall i: nat :: !Current(front, id, i)
    ensures Current(front + [last], id, |front|)
  {
    var history := front + [last];
    forall j | 0 <= j < |front| && history[j].Created? && history[j].id == id
      ensures exists k :: j < k < |front| && history[k] == Destroyed(id)
    {
      NoneCurrent(front, id, j);
      var k :| j < k < |front| && front[k] == Destroyed(id);
      assert history[k] == Destroyed(id);
    }
  }

  lemma {:induction false} LookupFollowsHistory<E>(history: seq<Call<E>>, id: string)
    ensures id in Replay(history) ==>
              exists i: nat :: Current(history, id, i) && history[i].entity == Replay(history)[id]
    ensures forall i: nat :: Current(history, id, i) ==> Lookup(Replay(history), id) == Some(history[i].entity)
    decreases |history|
  {
    if history != [] {
      var n := |history| - 1;
      var front, last := history[..n], history[n];
      assert history == front + [last];
      LookupFollowsHistory(front, id);
      forall i: nat | i < n ensures Current(history, id, i) <==> Current(front, id, i) && last != Destroyed(id) {
        CurrentSurvives(front, last, id, i);
      }
      if last.Created? && last.id == id {
        if id in Replay(front) {
          var i: nat :| Current(front, id, i) && front[i].entity == Replay(front)[id];
          assert Current(history, id, i);
          assert forall k :: i < k < n ==> history[k] == front[k] != Destroyed(id);
          assert history[i].Created? && history[i].id == id;
          assert !Current(history, id, n);
        } else {
          CreatedIsCurrent(front, last, id);
        }
      } else if id in Replay(history) {
        var i: nat :| Current(front, id, i) && front[i].entity == Replay(front)[id];
        assert Current(history, id, i);
      }
    }
  }

  /** Registry refinement: over every history of calls, looking an id up finds `e` exactly when `e` is the first
      entity created under that id since its last destruction, and null exactly when there is no such creation. */
  lemma LookupIsHistory<E(!new)>(history: seq<Call<E>>, id: string)
    ensures forall e :: Lookup(Replay(history), id) == Some(e) <==>
              exists i: nat :: Current(history, id, i) && history[i].entity == e
    ensures Lookup(Replay(history), id) == None <==> forall i: nat :: !Current(history, id, i)
  {
    LookupFollowsHistory(history, id);
  }

  // ---------------------------------------------------------------- generated ids

  /** The ids the generator draws, in order. Random generation is taken to never repeat itself. */
  ghost predicate Distinct(stream: nat -> string) { forall i, j :: stream(i) == stream(j) ==> i == j }

  /** `UUID`: the constructor draws an id, and `get` draws the next one. Contrary to its comment, `get` returns
      the id it has just drawn, because the reference it keeps is to the field it overwrites. */
  class Uuid {
    const stream: nat -> string
    var id: string
    var drawn: nat

    constructor (stream: nat -> string)
      ensures this.stream == stream && drawn == 1 && Valid()
    {
      this.stream, id, drawn := stream, stream(0), 1;
    }

    ghost predicate Valid()
      reads this
    {
      drawn > 0 && id == stream(drawn - 1)
    }

    method Get() returns (got: string)
      requires Valid()
      modifies this
      ensures Valid() && drawn == old(drawn) + 1
      ensures got == id == stream(old(drawn))
      ensures Distinct(stream) ==> forall i: nat :: i < old(drawn) ==> stream(i) != got
    {
      id := stream(drawn);
      drawn := drawn + 1;
      return id;
    }
  }
}
