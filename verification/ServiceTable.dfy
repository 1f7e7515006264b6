/** The service table that initialisation builds, as a fold over the configured names. */
module ServiceTables {
  import opened Options

  type Table<E> = map<string, seq<E>>

  /** Initialisation passes over empty names and throws at the first other name it has no handler for: here. */
  function AcceptedPrefix(names: seq<string>, known: set<string>): (k: nat)
    ensures k <= |names|
    ensures forall i :: 0 <= i < k ==> names[i] == "" || names[i] in known
    ensures k < |names| ==> names[k] != "" && names[k] !in known
  {
    if names == [] || (names[0] != "" && names[0] !in known) then 0 else 1 + AcceptedPrefix(names[1..], known)
  }

  /** `record_game_service`: a fresh list replaces whatever the name had. */
  function Record<E>(table: Table<E>, name: string, e: E): Table<E> { table[name := [e]] }

  /** One pass over `names`, where `made[i]` is the service created for the `i`-th, if one was. */
  function Fold<E>(table: Table<E>, names: seq<string>, made: seq<Option<E>>): Table<E>
    requires |names| == |made|
  {
    if names == [] then table
    else
      var n := |names| - 1;
      var t := Fold(table, names[..n], made[..n]);
      match made[n]
      case None => t
      case Some(e) => Record(t, names[n], e)
  }

  ghost predicate MadeForNames<E>(names: seq<string>, made: seq<Option<E>>) {
    |names| == |made| && forall i :: 0 <= i < |names| ==> (made[i].Some? <==> names[i] != "")
  }

  lemma FoldStep<E>(table: Table<E>, names: seq<string>, i: nat, made: seq<Option<E>>, one: Option<E>)
    requires i < |names| && MadeForNames(names[..i], made) && (one.Some? <==> names[i] != "")
    ensures MadeForNames(names[..i + 1], made + [one])
    ensures var t := Fold(table, names[..i], made);
            Fold(table, names[..i + 1], made + [one]) == if one.Some? then Record(t, names[i], one.value) else t
  {
    assert names[..i + 1][..i] == names[..i] && (made + [one])[..i] == made;
  }

  /** `i` is the last place `name` is configured at. */
  ghost predicate LastAt(names: seq<string>, name: string, i: nat) {
    i < |names| && names[i] == name && forall j :: i < j < |names| ==> names[j] != name
  }

  lemma {:induction false} LastExists(names: seq<string>, name: string)
    requires name in names
    ensures exists i: nat :: LastAt(names, name, i)
    decreases |names|
  {
    var n := |names| - 1;
    if names[n] == name {
      assert LastAt(names, name, n);
    } else {
      LastExists(names[..n], name);
      var i: nat :| LastAt(names[..n], name, i);
      assert LastAt(names, name, i);
    }
  }

  /** The table maps a name to the one service created last for it. */
  lemma {:induction false} FoldIsLastCreated<E>(table: Table<E>, names: seq<string>, made: seq<Option<E>>,
                                                name: string, i: nat)
    requires MadeForNames(names, made) && name != "" && LastAt(names, name, i)
    ensures name in Fold(table, names, made) && Fold(table, names, made)[name] == [made[i].value]
    decreases |names|
  {
    var n := |names| - 1;
    if i < n {
      FoldIsLastCreated(table, names[..n], made[..n], name, i);
    }
  }

  /** A name that is not configured keeps what it had. */
  lemma {:induction false} FoldKeepsOthers<E>(table: Table<E>, names: seq<string>, made: seq<Option<E>>, name: string)
    requires MadeForNames(names, made) && name !in names
    ensures name in Fold(table, names, made) <==> name in table
    ensures name in table ==> Fold(table, names, made)[name] == table[name]
    decreases |names|
  {
    if names != [] {
      var n := |names| - 1;
      assert names[n] in names;
      FoldKeepsOthers(table, names[..n], made[..n], name);
    }
  }

  /** Starting from an empty table: what is in it is exactly what the last creations put there. */
  lemma {:induction false} TableIsLastCreated<E>(names: seq<string>, made: seq<Option<E>>, name: string,
                                                 services: seq<E>)
    requires MadeForNames(names, made)
    ensures name in Fold(map[], names, made) && Fold(map[], names, made)[name] == services <==>
            name != "" && exists i: nat :: LastAt(names, name, i) && services == [made[i].value]
  {
    var t := Fold(map[], names, made);
    if name == "" {
      FoldIsSingletons(map[], names, made);
    } else if name in names {
      LastExists(names, name);
      forall i: nat | LastAt(names, name, i) ensures name in t && t[name] == [made[i].value] {
        FoldIsLastCreated(map[], names, made, name, i);
      }
    } else {
      FoldKeepsOthers(map[], names, made, name);
    }
  }

  /** The names in the table are the configured ones, and each has the one service made for its last place. */
  ghost predicate HoldsLastCreated<E>(table: Table<E>, names: seq<string>, made: seq<Option<E>>)
    requires MadeForNames(names, made)
  {
    && (forall name :: name in table <==> name != "" && name in names)
    && (forall name, i: nat :: name != "" && LastAt(names, name, i) ==>
          name in table && table[name] == [made[i].value])
  }

  lemma FoldHoldsLastCreated<E>(names: seq<string>, made: seq<Option<E>>)
    requires MadeForNames(names, made)
    ensures HoldsLastCreated(Fold(map[], names, made), names, made)
  {
    var t := Fold(map[], names, made);
    forall name ensures name in t <==> name != "" && name in names {
      if name in t { TableIsLastCreated(names, made, name, t[name]); }
      if name != "" && name in names {
        LastExists(names, name);
        var i: nat :| LastAt(names, name, i);
        TableIsLastCreated(names, made, name, [made[i].value]);
      }
    }
    forall name, i: nat | name != "" && LastAt(names, name, i) ensures name in t && t[name] == [made[i].value] {
      TableIsLastCreated(names, made, name, [made[i].value]);
    }
  }

  /** The empty name never gets into the table, and every list in it has one element. */
  lemma {:induction false} FoldIsSingletons<E>(table: Table<E>, names: seq<string>, made: seq<Option<E>>)
    requires MadeForNames(names, made)
    requires forall n :: n in table ==> |table[n]| == 1
    ensures forall n :: n in Fold(table, names, made) ==> |Fold(table, names, made)[n]| == 1
    ensures "" !in table ==> "" !in Fold(table, names, made)
    decreases |names|
  {
    if names != [] {
      FoldIsSingletons(table, names[..|names| - 1], made[..|names| - 1]);
    }
  }
}
