/** The two decimal conversions behind an entity position: `std::to_string(int)` and `std::stoi`.
    `Scanned` and `Stoi` are the conversions as they run; `HasDecimalPrefix` is the grammar they implement. */
module Decimal {
  const INT_MIN: int := -0x8000_0000
  const INT_MAX: int := 0x7fff_ffff

  type Int32 = x: int | INT_MIN <= x <= INT_MAX

  /** The magnitudes an `int` can have. */
  type Magnitude = x: nat | x <= -INT_MIN

  predicate IsDigit(c: char) { '0' <= c <= '9' }

  /** `isspace` in the "C" locale: blank, and the five control characters from tab to carriage return. */
  predicate IsSpace(c: char) { c == ' ' || '\t' <= c <= '\r' }

  predicate AllDigits(s: string) { forall i :: 0 <= i < |s| ==> IsDigit(s[i]) }

  predicate AllSpaces(s: string) { forall i :: 0 <= i < |s| ==> IsSpace(s[i]) }

  predicate StartsWithDigit(s: string) { s != "" && IsDigit(s[0]) }

  predicate IsSign(s: string) { s == "" || s == "+" || s == "-" }

  function DigitValue(c: char): (d: nat)
    requires IsDigit(c)
    ensures d < 10
  {
    c as int - '0' as int
  }

  function DigitChar(d: nat): (c: char)
    requires d < 10
    ensures IsDigit(c) && DigitValue(c) == d
  {
    (d + '0' as int) as char
  }

  /** The number a digit string denotes, most significant digit first. */
  function Value(ds: string): nat
    requires AllDigits(ds)
  {
    if ds == "" then 0 else Value(ds[..|ds| - 1]) * 10 + DigitValue(ds[|ds| - 1])
  }

  function Signed(sign: string, magnitude: int): int { if sign == "-" then -magnitude else magnitude }

  // ---------------------------------------------------------------- printing

  function NatToString(n: nat): (s: string)
    ensures s != "" && AllDigits(s) && Value(s) == n
  {
    if n < 10 then [DigitChar(n)]
    else
      var front := NatToString(n / 10);
      var s := front + [DigitChar(n % 10)];
      assert s[..|s| - 1] == front;
      s
  }

  function ToString(n: int): string { if n < 0 then "-" + NatToString(-n) else NatToString(n) }

  // ---------------------------------------------------------------- scanning

  function SpaceRun(s: string): (n: nat)
    ensures n <= |s| && AllSpaces(s[..n])
    ensures n < |s| ==> !IsSpace(s[n])
  {
    if s == "" || !IsSpace(s[0]) then 0 else 1 + SpaceRun(s[1..])
  }

  function DigitRun(s: string): (n: nat)
    ensures n <= |s| && AllDigits(s[..n])
    ensures !StartsWithDigit(s[n..])
  {
    if s == "" || !IsDigit(s[0]) then 0 else 1 + DigitRun(s[1..])
  }

  function SignOf(s: string): (sign: string)
    ensures IsSign(sign) && sign <= s
  {
    if s != "" && (s[0] == '-' || s[0] == '+') then s[..1] else ""
  }

  datatype Scan = Scan(spaces: string, sign: string, digits: string)

  function Scanned(s: string): Scan {
    var spaces := s[..SpaceRun(s)];
    var s1 := s[|spaces|..];
    var sign := SignOf(s1);
    var s2 := s1[|sign|..];
    Scan(spaces, sign, s2[..DigitRun(s2)])
  }

  datatype StoiResult = Number(value: Int32) | InvalidArgument | OutOfRange

  function Stoi(s: string): StoiResult {
    var scan := Scanned(s);
    if scan.digits == "" then InvalidArgument
    else
      var v := Signed(scan.sign, Value(scan.digits));
      if INT_MIN <= v <= INT_MAX then Number(v) else OutOfRange
  }

  // ---------------------------------------------------------------- the grammar

  /** `s` reads as blanks, a sign, one or more digits and a rest in which the number does not go on. */
  ghost predicate Reads(s: string, spaces: string, sign: string, digits: string, rest: string) {
    && s == spaces + sign + digits + rest
    && AllSpaces(spaces) && IsSign(sign)
    && digits != "" && AllDigits(digits) && !StartsWithDigit(rest)
  }

  /** `v`, of any size, is the number some decimal prefix of `s` denotes. */
  ghost predicate HasDecimalPrefix(s: string, v: int) {
    exists spaces, sign, digits, rest ::
      Reads(s, spaces, sign, digits, rest) && v == Signed(sign, Value(digits))
  }

  lemma {:induction false} RunLength(s: string, run: string, rest: string, digits: bool)
    requires s == run + rest
    requires if digits then AllDigits(run) && !StartsWithDigit(rest)
             else AllSpaces(run) && (rest != "" ==> !IsSpace(rest[0]))
    ensures (if digits then DigitRun(s) else SpaceRun(s)) == |run|
    decreases |run|
  {
    if run != "" {
      assert s[0] == run[0];
      assert s[1..] == run[1..] + rest;
      RunLength(s[1..], run[1..], rest, digits);
    }
  }

  lemma Regroup(a: string, b: string, c: string, d: string)
    ensures a + b + c + d == a + (b + (c + d))
  {
  }

  lemma Rejoin(s: string, k: nat)
    requires k <= |s|
    ensures s[..k] + s[k..] == s
  {
  }

  lemma TakeDrop(a: string, b: string)
    ensures (a + b)[..|a|] == a && (a + b)[|a|..] == b
  {
  }

  /** The grammar is unambiguous, and the scanner finds the one reading there is. */
  lemma ScannedIsTheReading(s: string, spaces: string, sign: string, digits: string, rest: string)
    requires Reads(s, spaces, sign, digits, rest)
    ensures Scanned(s) == Scan(spaces, sign, digits)
  {
    var s2 := digits + rest;
    var s1 := sign + s2;
    Regroup(spaces, sign, digits, rest);
    assert s2[0] == digits[0];
    RunLength(s, spaces, s1, false);
    RunLength(s2, digits, rest, true);
    TakeDrop(spaces, s1);
    TakeDrop(sign, s2);
    TakeDrop(digits, rest);
    assert SignOf(s1) == sign;
  }

  lemma ScannedReads(s: string) returns (rest: string)
    requires Scanned(s).digits != ""
    ensures Reads(s, Scanned(s).spaces, Scanned(s).sign, Scanned(s).digits, rest)
  {
    var scan := Scanned(s);
    var s1 := s[|scan.spaces|..];
    var s2 := s1[|scan.sign|..];
    rest := s2[|scan.digits|..];
    Rejoin(s, |scan.spaces|);
    Rejoin(s1, |scan.sign|);
    Rejoin(s2, |scan.digits|);
    Regroup(scan.spaces, scan.sign, scan.digits, rest);
  }

  /** `std::stoi` accepts exactly the texts whose decimal prefix lies in `int`, with that number; it throws
      `out_of_range` exactly when the prefix lies outside, and `invalid_argument` exactly when there is none. */
  lemma StoiIsTheGrammar(s: string)
    ensures forall v: Int32 :: Stoi(s) == Number(v) <==> HasDecimalPrefix(s, v)
    ensures Stoi(s) == OutOfRange <==> exists v :: HasDecimalPrefix(s, v) && !(INT_MIN <= v <= INT_MAX)
    ensures Stoi(s) == InvalidArgument <==> forall v :: !HasDecimalPrefix(s, v)
  {
    var scan := Scanned(s);
    forall v | HasDecimalPrefix(s, v) ensures scan.digits != "" && v == Signed(scan.sign, Value(scan.digits)) {
      var spaces, sign, digits, rest :|
        Reads(s, spaces, sign, digits, rest) && v == Signed(sign, Value(digits));
      ScannedIsTheReading(s, spaces, sign, digits, rest);
    }
    if scan.digits != "" {
      var rest := ScannedReads(s);
      assert HasDecimalPrefix(s, Signed(scan.sign, Value(scan.digits)));
    }
  }

  lemma StoiOfReading(s: string, spaces: string, sign: string, digits: string, rest: string, v: Int32)
    requires Reads(s, spaces, sign, digits, rest) && v == Signed(sign, Value(digits))
    ensures Stoi(s) == Number(v)
  {
    ScannedIsTheReading(s, spaces, sign, digits, rest);
  }

  lemma PrintedReads(n: int, sign: string, digits: string, tail: string)
    requires !StartsWithDigit(tail)
    requires if n < 0 then sign == "-" && digits == NatToString(-n) else sign == "" && digits == NatToString(n)
    ensures Reads(ToString(n) + tail, "", sign, digits, tail) && Signed(sign, Value(digits)) == n
  {
    assert ToString(n) == sign + digits;
    assert "" + sign == sign;
  }

  /** `std::stoi` undoes `std::to_string` on every `int`, the least one included, whatever non-digit follows. */
  lemma StoiUndoesToString(n: Int32, tail: string)
    requires !StartsWithDigit(tail)
    ensures Stoi(ToString(n) + tail) == Number(n)
  {
    var m: int := n;
    var sign := if m < 0 then "-" else "";
    var digits := if m < 0 then NatToString(-m) else NatToString(m);
    PrintedReads(m, sign, digits, tail);
    StoiOfReading(ToString(n) + tail, "", sign, digits, tail, n);
  }

  // ---------------------------------------------------------------- the alphabet and the notation, written out

  /** The characters and bounds the two conversions are about. */
  lemma AlphabetIs()
    ensures forall c :: IsDigit(c) <==> c in "0123456789"
    ensures forall d: nat :: d < 10 ==> DigitChar(d) == "0123456789"[d] && DigitValue("0123456789"[d]) == d
    ensures forall c :: IsSpace(c) <==> c in {' ', '\t', '\n', '\U{0B}', '\U{0C}', '\r'}
    ensures forall s :: IsSign(s) <==> s in {"", "+", "-"}
    ensures forall m :: Signed("", m) == m && Signed("+", m) == m && Signed("-", m) == -m
    ensures INT_MIN == -2147483648 && INT_MAX == 2147483647
  {
    forall c ensures IsDigit(c) <==> c in "0123456789" {
      if IsDigit(c) { assert "0123456789"[c as int - '0' as int] == c; }
    }
  }

  ghost function PowerOfTen(k: nat): nat { if k == 0 then 1 else 10 * PowerOfTen(k - 1) }

  /** The sum of the digits, each times the power of ten of its place. */
  ghost function Places(ds: string): nat
    requires AllDigits(ds)
  {
    if ds == "" then 0 else (ds[0] as int - 48) * PowerOfTen(|ds| - 1) + Places(ds[1..])
  }

  lemma {:induction false} PlacesAppend(ds: string, c: char)
    requires AllDigits(ds) && IsDigit(c)
    ensures AllDigits(ds + [c]) && Places(ds + [c]) == 10 * Places(ds) + (c as int - 48)
  {
    var all := ds + [c];
    if ds == "" {
      assert all == [c] && [c][1..] == "";
    } else {
      assert all[0] == ds[0] && all[1..] == ds[1..] + [c];
      PlacesAppend(ds[1..], c);
      var d, p := ds[0] as int - 48, PowerOfTen(|ds| - 1);
      assert d * (10 * p) == 10 * (d * p);
    }
  }

  /** The value the conversions work with is the sum over the places. */
  lemma {:induction false} ValueIsPlaces(ds: string)
    requires AllDigits(ds)
    ensures Value(ds) == Places(ds)
    decreases |ds|
  {
    if ds != "" {
      var front, c := ds[..|ds| - 1], ds[|ds| - 1];
      assert ds == front + [c];
      ValueIsPlaces(front);
      PlacesAppend(front, c);
    }
  }

  /** A decimal text without superfluous zeros. */
  predicate Canonical(s: string) { s != "" && AllDigits(s) && (|s| > 1 ==> s[0] != '0') }

  lemma {:induction false} CanonicalIsPositive(s: string)
    requires Canonical(s) && s[0] != '0'
    ensures Value(s) > 0
    decreases |s|
  {
    if |s| > 1 {
      CanonicalIsPositive(s[..|s| - 1]);
    } else {
      assert s[..0] == "";
    }
  }

  lemma {:induction false} CanonicalIsPrinted(s: string)
    requires Canonical(s)
    ensures NatToString(Value(s)) == s
    decreases |s|
  {
    var front, c := s[..|s| - 1], s[|s| - 1];
    assert s == front + [c];
    if |s| == 1 {
      assert front == "" && Value(s) == DigitValue(c);
    } else {
      CanonicalIsPositive(front);
      CanonicalIsPrinted(front);
      assert Value(s) / 10 == Value(front) && Value(s) % 10 == DigitValue(c);
    }
    assert DigitChar(DigitValue(c)) == c;
  }

  lemma {:induction false} PrintedIsCanonical(n: nat)
    ensures Canonical(NatToString(n)) && (n > 0 ==> NatToString(n)[0] != '0')
  {
    if n >= 10 { PrintedIsCanonical(n / 10); }
  }

  /** The printed text of an `int`: a minus sign exactly if it is negative, and then the one canonical decimal text
      of its magnitude. */
  lemma PrintedIff(n: int, s: string)
    ensures s == ToString(n) <==>
              var digits := if n < 0 && s != "" then s[1..] else s;
              (n < 0 ==> s != "" && s[0] == '-') && Canonical(digits) && Places(digits) == if n < 0 then -n else n
  {
    var m: nat := if n < 0 then -n else n;
    var digits := if n < 0 && s != "" then s[1..] else s;
    PrintedIsCanonical(m);
    ValueIsPlaces(NatToString(m));
    if Canonical(digits) {
      CanonicalIsPrinted(digits);
      ValueIsPlaces(digits);
    }
    assert n < 0 && s != "" && s[0] == '-' ==> s == "-" + digits;
  }

  lemma PrefixIsScanned(s: string, v: int)
    ensures HasDecimalPrefix(s, v) <==>
              Scanned(s).digits != "" && v == Signed(Scanned(s).sign, Value(Scanned(s).digits))
  {
    if HasDecimalPrefix(s, v) {
      var spaces, sign, digits, rest :| Reads(s, spaces, sign, digits, rest) && v == Signed(sign, Value(digits));
      ScannedIsTheReading(s, spaces, sign, digits, rest);
    }
    if Scanned(s).digits != "" { var rest := ScannedReads(s); }
  }

  lemma BlankIsSkipped(s: string, blank: char)
    requires IsSpace(blank)
    ensures Scanned([blank] + s).sign == Scanned(s).sign && Scanned([blank] + s).digits == Scanned(s).digits
  {
    var all := [blank] + s;
    assert all[1..] == s && SpaceRun(all) == 1 + SpaceRun(s);
    assert all[..SpaceRun(all)] == [blank] + s[..SpaceRun(s)];
    assert all[SpaceRun(all)..] == s[SpaceRun(s)..];
  }

  lemma SignComesFirst(s: string, sign: string)
    requires IsSign(sign) && StartsWithDigit(s)
    ensures SpaceRun(sign + s) == 0 && SignOf(sign + s) == sign
  {
    var all := sign + s;
    if sign == "" {
      assert all == s;
    } else {
      assert all[0] == sign[0] && all[..1] == sign;
    }
  }

  lemma SignIsScanned(s: string, sign: string)
    requires IsSign(sign) && StartsWithDigit(s)
    ensures Scanned(sign + s) == Scan("", sign, s[..DigitRun(s)]) && s[..DigitRun(s)] != ""
  {
    var all := sign + s;
    SignComesFirst(s, sign);
    assert all[..0] == "" && all[0..] == all;
    TakeDrop(sign, s);
    assert DigitRun(s) > 0;
  }

  lemma StoiFollowsScan(s: string, t: string)
    requires Scanned(s).digits == Scanned(t).digits && (Scanned(s).sign == "-" <==> Scanned(t).sign == "-")
    ensures Stoi(s) == Stoi(t)
  {
  }

  lemma StoiIsScanned(s: string, v: int)
    requires INT_MIN <= v <= INT_MAX
    ensures Stoi(s) == Number(v) <==> Scanned(s).digits != "" && v == Signed(Scanned(s).sign, Value(Scanned(s).digits))
  {
  }

  /** A leading blank or a plus sign before a digit changes nothing. */
  lemma LeadingIsIgnored(s: string, blank: char)
    requires IsSpace(blank)
    ensures Stoi([blank] + s) == Stoi(s)
    ensures StartsWithDigit(s) ==> Stoi("+" + s) == Stoi(s)
  {
    hide Scanned, Stoi;
    BlankIsSkipped(s, blank);
    StoiFollowsScan([blank] + s, s);
    if StartsWithDigit(s) {
      SignIsScanned(s, "");
      SignIsScanned(s, "+");
      assert "" + s == s;
      StoiFollowsScan("+" + s, s);
    }
  }

  /** A minus sign before a digit negates. */
  lemma MinusNegates(s: string, v: int)
    requires StartsWithDigit(s) && INT_MIN <= v <= INT_MAX
    ensures Stoi("-" + s) == Number(v) <==> HasDecimalPrefix(s, -v)
  {
    hide Scanned, Stoi;
    SignIsScanned(s, "");
    SignIsScanned(s, "-");
    assert "" + s == s;
    StoiIsScanned("-" + s, v);
    PrefixIsScanned(s, -v);
  }

  lemma {:induction false} ValueGrows(ds: string, k: nat)
    requires AllDigits(ds) && k <= |ds|
    ensures Value(ds[..k]) <= Value(ds)
    decreases |ds| - k
  {
    if k < |ds| {
      assert ds[..k + 1][..k] == ds[..k];
      ValueGrows(ds, k + 1);
    } else {
      assert ds[..k] == ds;
    }
  }

  /** The digit loop inside the conversion: the accumulator never leaves the range of `int` magnitudes,
      because the overflow test comes before the multiplication. */
  method DigitLoop(ds: string, negative: bool) returns (overflow: bool, acc: Magnitude)
    requires AllDigits(ds)
    ensures overflow <==> Value(ds) > (if negative then -INT_MIN else INT_MAX)
    ensures !overflow ==> acc == Value(ds)
  {
    var limit := if negative then -INT_MIN else INT_MAX;
    overflow, acc := false, 0;
    var i := 0;
    while i < |ds|
      invariant 0 <= i <= |ds|
      invariant 0 <= acc <= limit
      invariant overflow ==> Value(ds) > limit
      invariant !overflow ==> acc == Value(ds[..i])
    {
      var d := DigitValue(ds[i]);
      assert ds[..i + 1][..i] == ds[..i];
      if !overflow && acc > (limit - d) / 10 {
        ValueGrows(ds, i + 1);
        overflow := true;
      } else if !overflow {
        acc := acc * 10 + d;
      }
      i := i + 1;
    }
    assert ds[..|ds|] == ds;
  }

  /** The conversion as the library runs it, with bounded arithmetic. */
  method StoiLoop(s: string) returns (r: StoiResult)
    ensures r == Stoi(s)
  {
    var scan := Scanned(s);
    if scan.digits == "" {
      return InvalidArgument;
    }
    var overflow, magnitude := DigitLoop(scan.digits, scan.sign == "-");
    if overflow {
      return OutOfRange;
    }
    return Number(Signed(scan.sign, magnitude));
  }
}
