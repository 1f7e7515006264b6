/** `EntityProxy`: the printed position `ip_port_id` of a server entity, and the parser that reads it back.
    `size_t` is modelled with its width: a missing underscore is `NPOS`, and index arithmetic wraps around.
    A `std::string` is always shorter than `NPOS`; that is the one requirement below on its length. */
module EntityProxies {
  import opened Options
  import opened Decimal

  const SIZE_MODULUS: int := 0x1_0000_0000_0000_0000
  const NPOS: nat := SIZE_MODULUS - 1

  /** The `size_t` congruent to the result of one addition or subtraction. */
  function Wrap(x: int): (r: nat)
    requires -SIZE_MODULUS <= x < 2 * SIZE_MODULUS
    ensures r < SIZE_MODULUS
    ensures r in {x - SIZE_MODULUS, x, x + SIZE_MODULUS}
  {
    if x < 0 then x + SIZE_MODULUS else if x < SIZE_MODULUS then x else x - SIZE_MODULUS
  }

  /** `std::string::find` of one character. */
  function Find(s: string, c: char): (r: nat)
    requires |s| < NPOS
    ensures if c in s then r < |s| && s[r] == c && c !in s[..r] else r == NPOS
  {
    if c !in s then NPOS
    else if s[0] == c then 0
    else
      var r := Find(s[1..], c);
      assert s[..r + 1] == [s[0]] + s[1..][..r];
      r + 1
  }

  /** `std::string::rfind` of one character. */
  function Rfind(s: string, c: char): (r: nat)
    requires |s| < NPOS
    ensures if c in s then r < |s| && s[r] == c && c !in s[r + 1..] else r == NPOS
  {
    if c !in s then NPOS
    else if s[|s| - 1] == c then |s| - 1
    else
      var r := Rfind(s[..|s| - 1], c);
      assert s[r + 1..] == s[..|s| - 1][r + 1..] + [s[|s| - 1]];
      r
  }

  /** `std::string::substr`; `None` is the `out_of_range` it throws for a start past the end. */
  function Substr(s: string, start: nat, count: nat): Option<string> {
    if start > |s| then None
    else Some(if count <= |s| - start then s[start..start + count] else s[start..])
  }

  /** What one call of `parse_pos` comes to: the fields it assigns, or the exception it catches. */
  datatype Outcome =
    | Parsed(ip: string, port: Int32, id: string)
    | SubstrThrew
    | StoiThrew(ip: string, reason: StoiResult)

  function GetPos(ip: string, port: Int32, id: string): string { ip + "_" + ToString(port) + "_" + id }

  function IpPart(pos: string, pos1: nat): Option<string> { Substr(pos, 0, pos1) }

  function PortPart(pos: string, pos1: nat, pos2: nat): Option<string>
    requires pos1 <= NPOS && pos2 <= NPOS
  {
    Substr(pos, Wrap(pos1 + 1), Wrap(pos2 as int - pos1 - 1))
  }

  function IdPart(pos: string, pos2: nat): Option<string>
    requires pos2 <= NPOS
  {
    Substr(pos, Wrap(pos2 + 1), NPOS)
  }

  /** The parser as written: first and last underscore, and `size_t` arithmetic that wraps. */
  function RawParse(pos: string): Outcome
    requires |pos| < NPOS
  {
    var pos1 := Find(pos, '_');
    var pos2 := Rfind(pos, '_');
    match IpPart(pos, pos1)
    case None => SubstrThrew
    case Some(ip) =>
      match PortPart(pos, pos1, pos2)
      case None => SubstrThrew
      case Some(portText) =>
        match Stoi(portText)
        case InvalidArgument => StoiThrew(ip, InvalidArgument)
        case OutOfRange => StoiThrew(ip, OutOfRange)
        case Number(port) =>
          match IdPart(pos, pos2)
          case None => SubstrThrew
          case Some(id) => Parsed(ip, port, id)
  }

  // ---------------------------------------------------------------- what the three fields are

  datatype Shape = Bare | Pair | Triple

  /** `pos` cut at its first and its last underscore. With one underscore the port text and the id are both
      what follows it; with none, all three fields are the whole text. */
  ghost predicate Cuts(pos: string, shape: Shape, ip: string, portText: string, id: string) {
    && '_' !in ip && '_' !in id
    && match shape
       case Bare => pos == ip && pos == portText && pos == id
       case Pair => pos == ip + "_" + id && portText == id
       case Triple => pos == ip + "_" + (portText + "_" + id)
  }

  /** The three calls of `substr` in the parser return, and return these texts. */
  ghost predicate ExtractsAt(pos: string, pos1: nat, pos2: nat, ip: string, portText: string, id: string)
    requires pos1 <= NPOS && pos2 <= NPOS
  {
    IpPart(pos, pos1) == Some(ip) && PortPart(pos, pos1, pos2) == Some(portText) && IdPart(pos, pos2) == Some(id)
  }

  ghost predicate Extracts(pos: string, ip: string, portText: string, id: string)
    requires |pos| < NPOS
  {
    ExtractsAt(pos, Find(pos, '_'), Rfind(pos, '_'), ip, portText, id)
  }

  lemma CutAt(pos: string, k: nat, a: string, b: string)
    requires k < |pos| && pos[k] == '_' && a == pos[..k] && b == pos[k + 1..]
    ensures pos == a + "_" + b
  {
  }

  lemma SubstrIs(s: string, start: nat, count: nat, end: nat)
    requires start + count == end <= |s|
    ensures Substr(s, start, count) == Some(s[start..end])
  {
  }

  lemma SubstrsOfNone(pos: string)
    requires |pos| < NPOS
    ensures ExtractsAt(pos, NPOS, NPOS, pos, pos, pos)
  {
    assert pos[0..] == pos;
  }

  lemma SubstrsOfOne(pos: string, k: nat)
    requires k < |pos| < NPOS
    ensures ExtractsAt(pos, k, k, pos[..k], pos[k + 1..], pos[k + 1..])
  {
    SubstrIs(pos, 0, k, k);
    assert pos[0..k] == pos[..k];
  }

  lemma SubstrsOfMore(pos: string, k: nat, l: nat)
    requires k < l < |pos| < NPOS
    ensures ExtractsAt(pos, k, l, pos[..k], pos[k + 1..l], pos[l + 1..])
  {
    SubstrIs(pos, k + 1, l - k - 1, l);
    SubstrIs(pos, 0, k, k);
    assert pos[0..k] == pos[..k];
  }

  lemma CutTwice(pos: string, k: nat, l: nat)
    requires k < l < |pos| && pos[k] == '_' && pos[l] == '_'
    ensures pos == pos[..k] + "_" + (pos[k + 1..l] + "_" + pos[l + 1..])
  {
    var rest := pos[k + 1..];
    assert rest == pos[k + 1..l] + "_" + pos[l + 1..];
    CutAt(pos, k, pos[..k], rest);
  }

  /** No call of `substr` throws, on any string: the port text and the id always start within the string,
      because `NPOS + 1` wraps to zero. */
  lemma FieldsOf(pos: string) returns (shape: Shape, ip: string, portText: string, id: string)
    requires |pos| < NPOS
    ensures Cuts(pos, shape, ip, portText, id) && Extracts(pos, ip, portText, id)
  {
    var k, l := Find(pos, '_'), Rfind(pos, '_');
    if k == NPOS {
      SubstrsOfNone(pos);
      shape, ip, portText, id := Bare, pos, pos, pos;
    } else if k == l {
      CutAt(pos, k, pos[..k], pos[k + 1..]);
      SubstrsOfOne(pos, k);
      shape, ip, portText, id := Pair, pos[..k], pos[k + 1..], pos[k + 1..];
    } else {
      assert k < l by { assert forall i :: 0 <= i < k ==> pos[i] == pos[..k][i]; }
      CutTwice(pos, k, l);
      SubstrsOfMore(pos, k, l);
      shape, ip, portText, id := Triple, pos[..k], pos[k + 1..l], pos[l + 1..];
    }
  }

  /** The first underscore of `a + "_" + b` is where `a` ends, when `a` has none. */
  lemma CutPoint(a: string, b: string, a': string, b': string)
    requires a + "_" + b == a' + "_" + b'
    requires '_' !in a && '_' !in a'
    ensures a == a' && b == b'
  {
    var s := a + "_" + b;
    assert s[|a|] == '_' && s[|a'|] == '_';
    assert forall i :: 0 <= i < |a| ==> s[i] == a[i];
    assert forall i :: 0 <= i < |a'| ==> s[i] == a'[i];
    assert a == s[..|a|] && a' == s[..|a'|];
    assert b == s[|a| + 1..] && b' == s[|a'| + 1..];
  }

  /** The last underscore of `a + "_" + b` is where `b` starts, when `b` has none. */
  lemma CutPointLast(a: string, b: string, a': string, b': string)
    requires a + "_" + b == a' + "_" + b'
    requires '_' !in b && '_' !in b'
    ensures a == a' && b == b'
  {
    var s := a + "_" + b;
    assert s[|a|] == '_' && s[|a'|] == '_';
    assert forall i :: |a| < i < |s| ==> s[i] == b[i - |a| - 1];
    assert forall i :: |a'| < i < |s| ==> s[i] == b'[i - |a'| - 1];
    assert a == s[..|a|] && a' == s[..|a'|];
    assert b == s[|a| + 1..] && b' == s[|a'| + 1..];
  }

  lemma Reassociate(ip: string, portText: string, id: string)
    ensures ip + "_" + portText + "_" + id == ip + "_" + (portText + "_" + id)
  {
  }

  lemma HasUnderscoreAt(a: string, b: string)
    ensures '_' in a + "_" + b
  {
    assert (a + "_" + b)[|a|] == '_';
  }

  /** A string can be cut in only one way, so `Cuts` determines the three fields. */
  lemma CutsOnce(pos: string, shape: Shape, ip: string, portText: string, id: string,
                 shape': Shape, ip': string, portText': string, id': string)
    requires Cuts(pos, shape, ip, portText, id) && Cuts(pos, shape', ip', portText', id')
    ensures shape == shape' && ip == ip' && portText == portText' && id == id'
  {
    var rest := if shape.Triple? then portText + "_" + id else id;
    var rest' := if shape'.Triple? then portText' + "_" + id' else id';
    HasUnderscoreAt(ip, rest);
    HasUnderscoreAt(ip', rest');
    HasUnderscoreAt(portText, id);
    HasUnderscoreAt(portText', id');
    if !shape.Bare? && !shape'.Bare? {
      CutPoint(ip, rest, ip', rest');
      if shape.Triple? && shape'.Triple? {
        CutPointLast(portText, id, portText', id');
      }
    }
  }

  lemma RawParseOfExtracts(pos: string, ip: string, portText: string, id: string)
    requires |pos| < NPOS && Extracts(pos, ip, portText, id)
    ensures RawParse(pos) == match Stoi(portText)
                             case Number(port) => Parsed(ip, port, id)
                             case failure => StoiThrew(ip, failure)
  {
  }

  /** Totality: `parse_pos` never fails in `substr`. It succeeds exactly when the port text has a decimal
      prefix in the range of `int`, and then yields the fields the cut determines. */
  lemma ParseFailsOnlyOnThePort(pos: string, shape: Shape, ip: string, portText: string, id: string)
    requires |pos| < NPOS && Cuts(pos, shape, ip, portText, id)
    ensures !RawParse(pos).SubstrThrew?
    ensures forall port: Int32 :: HasDecimalPrefix(portText, port) <==> RawParse(pos) == Parsed(ip, port, id)
    ensures RawParse(pos).StoiThrew? <==> forall port: Int32 :: !HasDecimalPrefix(portText, port)
    ensures RawParse(pos).StoiThrew? ==> RawParse(pos).ip == ip
  {
    var shape', ip', portText', id' := FieldsOf(pos);
    CutsOnce(pos, shape, ip, portText, id, shape', ip', portText', id');
    RawParseOfExtracts(pos, ip, portText, id);
    StoiIsTheGrammar(portText);
  }

  // ---------------------------------------------------------------- round trips

  lemma PosParses(ip: string, port: Int32, id: string)
    requires '_' !in ip && '_' !in id && |GetPos(ip, port, id)| < NPOS
    ensures RawParse(GetPos(ip, port, id)) == Parsed(ip, port, id)
  {
    Reassociate(ip, ToString(port), id);
    var shape, ip', portText, id' := FieldsOf(GetPos(ip, port, id));
    CutsOnce(GetPos(ip, port, id), Triple, ip, ToString(port), id, shape, ip', portText, id');
    RawParseOfExtracts(GetPos(ip, port, id), ip, ToString(port), id);
    StoiUndoesToString(port, "");
    assert ToString(port) + "" == ToString(port);
  }

  /** Exact round trip: parsing what `get_pos` printed recovers the triple if and only if neither the ip nor
      the id contains an underscore. */
  lemma RoundTripIff(ip: string, port: Int32, id: string)
    requires |GetPos(ip, port, id)| < NPOS
    ensures RawParse(GetPos(ip, port, id)) == Parsed(ip, port, id) <==> '_' !in ip && '_' !in id
  {
    var pos := GetPos(ip, port, id);
    if '_' !in ip && '_' !in id {
      PosParses(ip, port, id);
    } else {
      var _, ip', portText, id' := FieldsOf(pos);
      RawParseOfExtracts(pos, ip', portText, id');
    }
  }

  /** Normal form: whatever string `parse_pos` accepts, with any number of underscores, printing the fields
      and parsing again gives the same fields. */
  lemma ParsedIsNormal(pos: string)
    requires |pos| < NPOS && RawParse(pos).Parsed?
    requires |GetPos(RawParse(pos).ip, RawParse(pos).port, RawParse(pos).id)| < NPOS
    ensures RawParse(GetPos(RawParse(pos).ip, RawParse(pos).port, RawParse(pos).id)) == RawParse(pos)
  {
    var _, ip, portText, id := FieldsOf(pos);
    RawParseOfExtracts(pos, ip, portText, id);
    PosParses(ip, RawParse(pos).port, id);
  }

  lemma PrintsOnce(port: Int32, port': Int32)
    requires ToString(port) == ToString(port')
    ensures port == port'
  {
    StoiUndoesToString(port, "");
    StoiUndoesToString(port', "");
    assert ToString(port) + "" == ToString(port') + "";
  }

  /** What stands where in a printed position. */
  lemma GetPosLayout(ip: string, port: Int32, id: string)
    ensures var s, n, m := GetPos(ip, port, id), |ip|, |ip| + 1 + |ToString(port)|;
            && |s| == m + 1 + |id|
            && s[..n] == ip && s[n] == '_' && s[n + 1..m] == ToString(port) && s[m] == '_' && s[m + 1..] == id
  {
  }

  // ---------------------------------------------------------------- which positions are shared

  /** Another triple prints the same position. */
  ghost predicate Shares(ip: string, port: Int32, id: string) {
    exists ip': string, port': Int32, id': string ::
      (ip' != ip || port' != port || id' != id) && GetPos(ip', port', id') == GetPos(ip, port, id)
  }

  /** `a`, an underscore, a port, and then the end or another underscore. */
  ghost predicate PortWithin(ip: string, a: string, port: Int32, tail: string) {
    ip == a + "_" + ToString(port) + tail && (tail == "" || tail[0] == '_')
  }

  /** The start or an underscore, then a port, an underscore, and `b`. */
  ghost predicate PortBefore(id: string, head: string, port: Int32, b: string) {
    id == head + (ToString(port) + "_" + b) && (head == "" || head[|head| - 1] == '_')
  }

  /** A port could be read out of the ip or out of the id, beside the one that is there. */
  ghost predicate HoldsAnotherPort(ip: string, id: string) {
    || (exists a: string, port: Int32, tail: string :: PortWithin(ip, a, port, tail))
    || (exists head: string, port: Int32, b: string :: PortBefore(id, head, port, b))
  }

  lemma PrintedHasNoUnderscore(port: Int32)
    ensures '_' !in ToString(port)
  {
  }

  /** What is left of `r` once it is matched against a text without underscores. */
  lemma Peel(r: string, rest: string, text: string, tail: string) returns (left: string)
    requires r + "_" + rest == text + "_" + tail && '_' !in text
    ensures r == text + left && (left == "" || left[0] == '_')
    ensures left + "_" + rest == "_" + tail
  {
    var s, n := r + "_" + rest, |text|;
    assert s[n] == '_' && s[|r|] == '_';
    assert forall i :: 0 <= i < n ==> s[i] == text[i];
    assert |r| >= n;
    left := r[n..];
    assert s[..n] == text && s[n..] == "_" + tail;
    assert r == s[..n] + left;
    assert s[n..] == left + "_" + rest;
  }

  lemma LongerBy(ip: string, x: string, ip': string, x': string) returns (r: string)
    requires ip + "_" + x == ip' + "_" + x' && |ip'| < |ip|
    ensures ip == ip' + "_" + r && r + "_" + x == x'
  {
    var s, n := ip + "_" + x, |ip'|;
    r := ip[n + 1..];
    assert s[n] == '_' && ip[n] == s[n];
    assert s[..n] == ip' && ip[..n] == s[..n];
    assert s[n + 1..] == x' && s[n + 1..] == r + "_" + x;
  }

  /** Of two triples with the same print, the longer ip holds the other port, and the shorter id begins where the
      longer ip ends. */
  lemma LongerHoldsPort(ip: string, port: Int32, id: string, ip': string, port': Int32, id': string)
    returns (tail: string)
    requires GetPos(ip, port, id) == GetPos(ip', port', id') && |ip'| < |ip|
    ensures PortWithin(ip, ip', port', tail)
    ensures tail + "_" + (ToString(port) + "_" + id) == "_" + id'
  {
    Reassociate(ip, ToString(port), id);
    Reassociate(ip', ToString(port'), id');
    var r := LongerBy(ip, ToString(port) + "_" + id, ip', ToString(port') + "_" + id');
    PrintedHasNoUnderscore(port');
    tail := Peel(r, ToString(port) + "_" + id, ToString(port'), id');
    assert ip' + "_" + (ToString(port') + tail) == ip' + "_" + ToString(port') + tail;
  }

  lemma SameLengthIsSame(ip: string, port: Int32, id: string, ip': string, port': Int32, id': string)
    requires GetPos(ip, port, id) == GetPos(ip', port', id') && |ip'| == |ip|
    ensures ip == ip' && port == port' && id == id'
  {
    Reassociate(ip, ToString(port), id);
    Reassociate(ip', ToString(port'), id');
    var s, x, x' := GetPos(ip, port, id), ToString(port) + "_" + id, ToString(port') + "_" + id';
    assert s[..|ip|] == ip && s[..|ip|] == ip';
    assert s[|ip| + 1..] == x && s[|ip| + 1..] == x';
    PrintedHasNoUnderscore(port);
    PrintedHasNoUnderscore(port');
    CutPoint(ToString(port), id, ToString(port'), id');
    PrintsOnce(port, port');
  }

  lemma TailOpensId(tail: string, port: Int32, id: string, id': string) returns (head: string)
    requires tail + "_" + (ToString(port) + "_" + id) == "_" + id' && (tail == "" || tail[0] == '_')
    ensures PortBefore(id', head, port, id)
  {
    var x := ToString(port) + "_" + id;
    head := if tail == "" then "" else tail[1..] + "_";
    assert id' == ("_" + id')[1..] == (tail + "_" + x)[1..];
    assert tail == "" ==> (tail + "_" + x)[1..] == head + x;
    assert tail != "" ==> (tail + "_" + x)[1..] == tail[1..] + "_" + x;
  }

  lemma SharesWith(ip: string, port: Int32, id: string, ip': string, port': Int32, id': string)
    requires GetPos(ip', port', id') == GetPos(ip, port, id) && |ip'| != |ip|
    ensures Shares(ip, port, id)
  {
  }

  lemma DropFirst(tail: string, x: string)
    requires tail == "" || tail[0] == '_'
    ensures tail + "_" + x == "_" + (tail + "_" + x)[1..]
  {
  }

  lemma MoveRight(a: string, text: string, tail: string, x: string, id': string)
    requires tail + "_" + x == "_" + id'
    ensures a + "_" + text + tail + "_" + x == a + "_" + text + "_" + id'
  {
    assert a + "_" + text + tail + "_" + x == a + "_" + text + (tail + "_" + x);
    assert a + "_" + text + "_" + id' == a + "_" + text + ("_" + id');
  }

  /** A port within the ip may be read as the port: the rest of the ip then goes to the id. */
  lemma ReadsEarlier(ip: string, port: Int32, id: string, a: string, port': Int32, tail: string)
    requires PortWithin(ip, a, port', tail)
    ensures Shares(ip, port, id)
  {
    var x := ToString(port) + "_" + id;
    var id' := (tail + "_" + x)[1..];
    DropFirst(tail, x);
    Reassociate(ip, ToString(port), id);
    MoveRight(a, ToString(port'), tail, x, id');
    SharesWith(ip, port, id, a, port', id');
  }

  lemma MoveLeft(front: string, x: string)
    requires front != "" && front[|front| - 1] == '_'
    ensures front + x == front[..|front| - 1] + "_" + x
  {
    assert front == front[..|front| - 1] + "_";
  }

  /** A port before the rest of the id may be read as the port: what comes before it then goes to the ip. */
  lemma ReadsLater(ip: string, port: Int32, id: string, head: string, port': Int32, b: string)
    requires PortBefore(id, head, port', b)
    ensures Shares(ip, port, id)
  {
    var x := ToString(port') + "_" + b;
    var printed := ip + "_" + ToString(port) + "_";
    var front := printed + head;
    assert printed + (head + x) == front + x;
    MoveLeft(front, x);
    var ip' := front[..|front| - 1];
    Reassociate(ip', ToString(port'), b);
    SharesWith(ip, port, id, ip', port', b);
  }

  lemma PortFollows(ip: string, a: string, port: Int32, tail: string)
    requires PortWithin(ip, a, port, tail)
    ensures |a| + 1 < |ip| && ip[|a|] == '_' && (IsDigit(ip[|a| + 1]) || ip[|a| + 1] == '-')
  {
    assert ip[|a| + 1] == ToString(port)[0];
  }

  lemma SharedHoldsPort(ip: string, port: Int32, id: string, ip': string, port': Int32, id': string)
    requires GetPos(ip', port', id') == GetPos(ip, port, id)
    ensures (ip' == ip && port' == port && id' == id) || HoldsAnotherPort(ip, id)
  {
    if |ip'| < |ip| {
      var tail := LongerHoldsPort(ip, port, id, ip', port', id');
    } else if |ip| < |ip'| {
      var tail := LongerHoldsPort(ip', port', id', ip, port, id);
      var head := TailOpensId(tail, port', id', id);
    } else {
      SameLengthIsSame(ip, port, id, ip', port', id');
    }
  }

  /** Exact condition: an entity shares its position with another one if and only if a port stands in its ip behind
      an underscore, up to the end or the next underscore, or in its id before an underscore, from the start or the
      last underscore. */
  lemma SharesIff(ip: string, port: Int32, id: string)
    ensures Shares(ip, port, id) <==> HoldsAnotherPort(ip, id)
  {
    if Shares(ip, port, id) {
      var ip': string, port': Int32, id': string :|
        (ip' != ip || port' != port || id' != id) && GetPos(ip', port', id') == GetPos(ip, port, id);
      SharedHoldsPort(ip, port, id, ip', port', id');
    }
    if a: string, port': Int32, tail: string :| PortWithin(ip, a, port', tail) {
      ReadsEarlier(ip, port, id, a, port', tail);
    }
    if head: string, port': Int32, b: string :| PortBefore(id, head, port', b) {
      ReadsLater(ip, port, id, head, port', b);
    }
  }

  /** An entity without underscores in ip and id shares its position with no other entity at all. */
  lemma GetPosInjective(ip: string, port: Int32, id: string, ip': string, port': Int32, id': string)
    requires '_' !in ip && '_' !in id && GetPos(ip, port, id) == GetPos(ip', port', id')
    ensures ip == ip' && port == port' && id == id'
  {
    if a: string, p: Int32, tail: string :| PortWithin(ip, a, p, tail) {
      PortFollows(ip, a, p, tail);
    }
    SharedHoldsPort(ip, port, id, ip', port', id');
  }

  /** Two entities that share a position, by the port 1 within the ip of the first; and underscores alone are
      harmless. */
  lemma GetPosCollides()
    ensures GetPos("a_1", 2, "b") == GetPos("a", 1, "2_b")
    ensures Shares("a_1", 2, "b") && !Shares("a_b", 1, "c")
  {
    assert ToString(1) == "1" && ToString(2) == "2";
    assert GetPos("a_1", 2, "b") == "a_1_2_b";
    assert GetPos("a", 1, "2_b") == "a_1_2_b";
    assert PortWithin("a_1", "a", 1, "");
    SharesIff("a_1", 2, "b");
    NoPortInside();
    SharesIff("a_b", 1, "c");
  }

  lemma NoPortInside()
    ensures !HoldsAnotherPort("a_b", "c")
  {
    forall a: string, port: Int32, tail: string ensures !PortWithin("a_b", a, port, tail) {
      if PortWithin("a_b", a, port, tail) {
        PortFollows("a_b", a, port, tail);
        assert false;
      }
    }
    forall head: string, port: Int32, b: string ensures !PortBefore("c", head, port, b) {
    }
  }

  // ---------------------------------------------------------------- ids of the factory

  predicate IsHex(c: char) { IsDigit(c) || 'a' <= c <= 'f' }

  /** The text form of section 3 of RFC 4122: groups of 8, 4, 4, 4 and 12 hexadecimal digits joined by dashes. */
  predicate IsUuidText(s: string) {
    && |s| == 36
    && forall i :: 0 <= i < 36 ==> if i in {8, 13, 18, 23} then s[i] == '-' else IsHex(s[i])
  }

  /** An entity created under a generated id is recovered from its position when its ip has no underscore. */
  lemma FactoryIdsRoundTrip(ip: string, port: Int32, id: string)
    requires IsUuidText(id) && '_' !in ip && |GetPos(ip, port, id)| < NPOS
    ensures RawParse(GetPos(ip, port, id)) == Parsed(ip, port, id)
  {
    assert '_' !in id;
    PosParses(ip, port, id);
  }

  // ---------------------------------------------------------------- the object

  class EntityProxy {
    var ip: string
    var port: Int32
    var entityId: string
    var validate: bool

    constructor ()
      ensures ip == "" && port == 0 && entityId == "" && !validate
    {
      ip, port, entityId, validate := "", 0, "", false;
    }

    /** `get_pos` */
    function Pos(): string
      reads this
    {
      GetPos(ip, port, entityId)
    }

    method SetProxy(id: string, ip: string, port: Int32)
      modifies this
      ensures this.ip == ip && this.port == port && this.entityId == id && validate
      ensures |Pos()| < NPOS ==> (RawParse(Pos()) == Parsed(ip, port, id) <==> '_' !in ip && '_' !in id)
    {
      this.entityId, this.ip, this.port, validate := id, ip, port, true;
      if |Pos()| < NPOS { RoundTripIff(ip, port, id); }
    }

    /** On failure the ip is already overwritten; port, id and the valid flag keep their old values. */
    method ParsePos(pos: string) returns (ok: bool)
      requires |pos| < NPOS
      modifies this
      ensures ok <==> RawParse(pos).Parsed?
      ensures ok ==> RawParse(pos) == Parsed(ip, port, entityId) && validate
      ensures !ok ==> RawParse(pos).StoiThrew? && ip == RawParse(pos).ip
      ensures !ok ==> port == old(port) && entityId == old(entityId) && validate == old(validate)
      ensures ok && |Pos()| < NPOS ==> RawParse(Pos()) == Parsed(ip, port, entityId)
    {
      ghost var _, ip', portText', id' := FieldsOf(pos);
      RawParseOfExtracts(pos, ip', portText', id');
      var pos1, pos2 := Find(pos, '_'), Rfind(pos, '_');
      assert ExtractsAt(pos, pos1, pos2, ip', portText', id');
      var ipText := IpPart(pos, pos1);
      ip := ipText.value;
      var portText := PortPart(pos, pos1, pos2);
      var number := StoiLoop(portText.value);
      if !number.Number? {
        assert RawParse(pos) == StoiThrew(ip', number);
        return false;
      }
      assert RawParse(pos) == Parsed(ip', number.value, id');
      port := number.value;
      var idText := IdPart(pos, pos2);
      entityId := idText.value;
      validate := true;
      if |Pos()| < NPOS { ParsedIsNormal(pos); }
      return true;
    }
  }
}
