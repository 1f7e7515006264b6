/** The disconnect handlers of a network component: a `std::map` from names to functions, kept as the sequence
    of its entries in key order. `H` stands for the functions. */
module DisconnectHandlers {
  import opened Options

  /** `std::string::compare` orders bytes lexicographically. */
  predicate Less(a: string, b: string) {
    b != "" && (a == "" || a[0] < b[0] || (a[0] == b[0] && Less(a[1..], b[1..])))
  }

  lemma {:induction false} LessIsTotal(a: string, b: string)
    ensures a != b ==> Less(a, b) || Less(b, a)
    ensures !(Less(a, b) && Less(b, a))
    ensures Less(a, b) ==> a != b
  {
    if a != "" && b != "" && a[0] == b[0] {
      assert a == [a[0]] + a[1..] && b == [b[0]] + b[1..];
      LessIsTotal(a[1..], b[1..]);
    }
  }

  /** The order is the one of a dictionary: at the first difference the lesser character decides, and a text comes
      before its continuations. */
  lemma {:induction false} LessIsLexicographic(a: string, b: string)
    ensures Less(a, b) <==>
              exists i: nat :: i <= |a| && i < |b| && a[..i] == b[..i] && (i == |a| || a[i] < b[i])
  {
    if a != "" && b != "" && a[0] == b[0] {
      LessIsLexicographic(a[1..], b[1..]);
      if i: nat :| i <= |a[1..]| && i < |b[1..]| && a[1..][..i] == b[1..][..i] &&
                   (i == |a[1..]| || a[1..][i] < b[1..][i]) {
        assert a[..i + 1] == [a[0]] + a[1..][..i] && b[..i + 1] == [b[0]] + b[1..][..i];
      }
      if i: nat :| i <= |a| && i < |b| && a[..i] == b[..i] && (i == |a| || a[i] < b[i]) {
        assert i > 0;
        assert a[1..][..i - 1] == a[..i][1..] && b[1..][..i - 1] == b[..i][1..];
      }
    } else if a == "" && b != "" {
      assert a[..0] == b[..0];
    } else if a != "" && b != "" && a[0] < b[0] {
      assert a[..0] == b[..0];
    }
  }

  lemma {:induction false} LessIsTransitive(a: string, b: string, c: string)
    requires Less(a, b) && Less(b, c)
    ensures Less(a, c)
  {
    if a != "" && a[0] == b[0] && b[0] == c[0] {
      LessIsTransitive(a[1..], b[1..], c[1..]);
    }
  }

  type Entry<H> = (string, H)

  ghost predicate InKeyOrder<H>(entries: seq<Entry<H>>) {
    forall i, j :: 0 <= i < j < |entries| ==> Less(entries[i].0, entries[j].0)
  }

  predicate Knows<H>(entries: seq<Entry<H>>, name: string) {
    exists i :: 0 <= i < |entries| && entries[i].0 == name
  }

  /** Where `name` belongs: before the first entry with a greater key. */
  function Slot<H>(entries: seq<Entry<H>>, name: string): (k: nat)
    ensures k <= |entries|
    ensures forall i :: 0 <= i < k ==> !Less(name, entries[i].0)
    ensures k < |entries| ==> Less(name, entries[k].0)
  {
    if entries == [] || Less(name, entries[0].0) then 0 else 1 + Slot(entries[1..], name)
  }

  /** `register_disconnect_handler`: a name that is taken is refused. */
  function Register<H>(entries: seq<Entry<H>>, name: string, handler: H): seq<Entry<H>> {
    if Knows(entries, name) then entries
    else
      var k := Slot(entries, name);
      entries[..k] + [(name, handler)] + entries[k..]
  }

  function RegisterAll<H>(asked: seq<Entry<H>>): seq<Entry<H>> {
    if asked == [] then []
    else
      var last := asked[|asked| - 1];
      Register(RegisterAll(asked[..|asked| - 1]), last.0, last.1)
  }

  lemma SlotParts<H>(entries: seq<Entry<H>>, name: string, i: nat)
    requires InKeyOrder(entries) && !Knows(entries, name) && i < |entries|
    ensures if i < Slot(entries, name) then Less(entries[i].0, name) else Less(name, entries[i].0)
  {
    var k := Slot(entries, name);
    LessIsTotal(entries[i].0, name);
    if i > k { LessIsTransitive(name, entries[k].0, entries[i].0); }
  }

  lemma JoinKeepsOrder<H>(a: seq<Entry<H>>, e: Entry<H>, b: seq<Entry<H>>)
    requires InKeyOrder(a + b)
    requires forall i :: 0 <= i < |a| ==> Less(a[i].0, e.0)
    requires forall i :: 0 <= i < |b| ==> Less(e.0, b[i].0)
    ensures InKeyOrder(a + [e] + b)
  {
    var r, n := a + [e] + b, |a|;
    forall i, j | 0 <= i < j < |r| ensures Less(r[i].0, r[j].0) {
      if i != n && j != n {
        var i', j' := if i < n then i else i - 1, if j < n then j else j - 1;
        assert r[i] == (a + b)[i'] && r[j] == (a + b)[j'];
      }
    }
  }

  lemma RegisterKeepsOrder<H>(entries: seq<Entry<H>>, name: string, handler: H)
    requires InKeyOrder(entries)
    ensures InKeyOrder(Register(entries, name, handler))
  {
    if !Knows(entries, name) {
      var k := Slot(entries, name);
      forall i | 0 <= i < |entries| ensures if i < k then Less(entries[i].0, name) else Less(name, entries[i].0) {
        SlotParts(entries, name, i);
      }
      assert entries[..k] + entries[k..] == entries;
      JoinKeepsOrder(entries[..k], (name, handler), entries[k..]);
    }
  }

  lemma RegisterKeepsEntries<H>(entries: seq<Entry<H>>, name: string, handler: H, e: Entry<H>)
    ensures e in Register(entries, name, handler) <==> e in entries || (!Knows(entries, name) && e == (name, handler))
  {
    if !Knows(entries, name) {
      var k := Slot(entries, name);
      assert entries == entries[..k] + entries[k..];
    }
  }

  /** `e` is the first entry of `asked` under its name. */
  ghost predicate FirstAsked<H>(asked: seq<Entry<H>>, e: Entry<H>) {
    exists i :: 0 <= i < |asked| && asked[i] == e && forall j :: 0 <= j < i ==> asked[j].0 != e.0
  }

  /** After any sequence of registrations the entries stand in key order, and a name has the handler of its
      first registration. */
  lemma {:induction false} FirstRegistrationWins<H(!new)>(asked: seq<Entry<H>>)
    ensures InKeyOrder(RegisterAll(asked))
    ensures forall e :: e in RegisterAll(asked) <==> FirstAsked(asked, e)
    decreases |asked|
  {
    if asked != [] {
      var n := |asked| - 1;
      var front, last := asked[..n], asked[n];
      var before := RegisterAll(front);
      FirstRegistrationWins(front);
      RegisterKeepsOrder(before, last.0, last.1);
      KnownIffAsked(front, last.0);
      forall e ensures e in RegisterAll(asked) <==> FirstAsked(asked, e) {
        RegisterKeepsEntries(before, last.0, last.1, e);
        FirstAskedExtends(front, last, e);
        assert asked == front + [last];
      }
    }
  }

  lemma FirstAskedExtends<H>(front: seq<Entry<H>>, last: Entry<H>, e: Entry<H>)
    ensures FirstAsked(front + [last], e) <==> FirstAsked(front, e) || (last == e && !Knows(front, e.0))
  {
    var all := front + [last];
    assert forall j :: 0 <= j < |front| ==> all[j] == front[j];
    assert all[|front|] == last;
    if FirstAsked(front, e) {
      var i :| 0 <= i < |front| && front[i] == e && forall j :: 0 <= j < i ==> front[j].0 != e.0;
      assert all[i] == e;
    }
  }

  lemma {:induction false} FirstExists<H>(asked: seq<Entry<H>>, k: nat) returns (e: Entry<H>)
    requires k < |asked|
    ensures FirstAsked(asked, e) && e.0 == asked[k].0
    decreases k
  {
    if j :| 0 <= j < k && asked[j].0 == asked[k].0 {
      e := FirstExists(asked, j);
    } else {
      e := asked[k];
    }
  }

  lemma KnownIffAsked<H(!new)>(asked: seq<Entry<H>>, name: string)
    requires forall e :: e in RegisterAll(asked) <==> FirstAsked(asked, e)
    ensures Knows(RegisterAll(asked), name) <==> Knows(asked, name)
  {
    var entries := RegisterAll(asked);
    if Knows(entries, name) {
      var i :| 0 <= i < |entries| && entries[i].0 == name;
      assert FirstAsked(asked, entries[i]);
    }
    if Knows(asked, name) {
      var k :| 0 <= k < |asked| && asked[k].0 == name;
      var e := FirstExists(asked, k);
      assert e in entries;
    }
  }

  /** In key order no name comes twice. */
  lemma NamesAreDistinct<H>(entries: seq<Entry<H>>)
    requires InKeyOrder(entries)
    ensures forall i, j :: 0 <= i < j < |entries| ==> entries[i].0 != entries[j].0
  {
    forall i, j | 0 <= i < j < |entries| ensures entries[i].0 != entries[j].0 {
      LessIsTotal(entries[i].0, entries[j].0);
    }
  }

  /** `handle_disconnect`: the handlers run, in order, each with the id of the owner; none without an owner. */
  function Calls<H>(entries: seq<Entry<H>>, owner: Option<string>): (calls: seq<(H, string)>) {
    match owner
    case None => []
    case Some(id) => seq(|entries|, i requires 0 <= i < |entries| => (entries[i].1, id))
  }

  /** Call `i` of a disconnect runs the handler registered first under the `i`-th name, with the owner's id. */
  ghost predicate RightCall<H>(asked: seq<Entry<H>>, entries: seq<Entry<H>>, calls: seq<(H, string)>, id: string,
                               i: nat)
    requires i < |entries| == |calls|
  {
    calls[i].1 == id && FirstAsked(asked, (entries[i].0, calls[i].0))
  }

  /** Fan-out: after any registrations, a disconnect with a live owner makes one call for each registered name and
      none twice, in key order, of the handler registered first under it, with that owner's id; and none without. */
  lemma FanOut<H(!new)>(asked: seq<Entry<H>>, id: string)
    ensures var entries, calls := RegisterAll(asked), Calls(RegisterAll(asked), Some(id));
            && InKeyOrder(entries)
            && (forall i, j :: 0 <= i < j < |entries| ==> entries[i].0 != entries[j].0)
            && |calls| == |entries| && Calls(entries, None) == []
            && (forall i: nat :: i < |entries| ==> RightCall(asked, entries, calls, id, i))
            && (forall name :: Knows(entries, name) <==> exists i :: 0 <= i < |asked| && asked[i].0 == name)
  {
    var entries, calls := RegisterAll(asked), Calls(RegisterAll(asked), Some(id));
    FirstRegistrationWins(asked);
    NamesAreDistinct(entries);
    forall name ensures Knows(asked, name) <==> Knows(entries, name) {
      KnownIffAsked(asked, name);
    }
    forall i: nat | i < |entries| ensures RightCall(asked, entries, calls, id, i) {
      assert entries[i] in entries && entries[i] == (entries[i].0, calls[i].0);
    }
  }
}
