/** Integer block coordinates and the two helpers of VectorUtils that the core uses:
    component equality and the comma-separated key under which the flood fill
    remembers visited locations. */
module VectorUtils {
  import opened Wrappers
  import opened Lists

  /** A block location. Block coordinates are integers. */
  datatype Vector3 = Vector3(x: int, y: int, z: int)

  /** `AreEqual`: component-wise equality. */
  function AreEqual(a: Vector3, b: Vector3): (r: bool)
    ensures r <==> a == b
  {
    a.x == b.x && a.y == b.y && a.z == b.z
  }

  lemma AreEqualReflexive(a: Vector3)
    ensures AreEqual(a, a)
  {
  }

  lemma AreEqualSymmetric(a: Vector3, b: Vector3)
    ensures AreEqual(a, b) == AreEqual(b, a)
  {
  }

  predicate IsDigit(c: char) { '0' <= c <= '9' }

  function DigitChar(d: nat): (c: char)
    requires d < 10
    ensures IsDigit(c) && c as int - '0' as int == d
  {
    ('0' as int + d) as char
  }

  /** Decimal digits of a natural number, as a JavaScript template literal prints it. */
  function NatToString(n: nat): (s: string)
    ensures |s| >= 1
    ensures forall i :: 0 <= i < |s| ==> IsDigit(s[i])
  {
    if n < 10 then [DigitChar(n)] else NatToString(n / 10) + [DigitChar(n % 10)]
  }

  /** Decimal form of an integer, with a leading '-' when negative. */
  function IntToString(n: int): (s: string)
    ensures |s| >= 1
    ensures ',' !in s && ' ' !in s
  {
    if n < 0 then "-" + NatToString(-n) else NatToString(n)
  }

  /** `GetAsString`: the location formatted as "x, y, z". */
  function GetAsString(v: Vector3): string {
    IntToString(v.x) + ", " + IntToString(v.y) + ", " + IntToString(v.z)
  }

  /** Value of a non-empty string of decimal digits; None for anything else. */
  function ParseDigits(s: string): Option<nat> {
    if |s| == 0 || !IsDigit(s[|s| - 1]) then None
    else
      var d := s[|s| - 1] as int - '0' as int;
      if |s| == 1 then Some(d)
      else match ParseDigits(s[..|s| - 1])
        case None => None
        case Some(p) => Some(p * 10 + d)
  }

  function ParseInt(s: string): Option<int> {
    if |s| > 0 && s[0] == '-' then
      match ParseDigits(s[1..])
      case None => None
      case Some(n) => Some(-(n as int))
    else
      match ParseDigits(s)
      case None => None
      case Some(n) => Some(n)
  }

  /** Splits `s` at its first ", ": the part before and the part after. */
  function SplitField(s: string): Option<(string, string)> {
    var i := IndexOf(s, ',');
    if i < 0 || i + 1 >= |s| || s[i + 1] != ' ' then None
    else Some((s[..i], s[i + 2..]))
  }

  /** Reads back a key produced by GetAsString. */
  function ParseVector(s: string): Option<Vector3> {
    match SplitField(s)
    case None => None
    case Some((xs, rest)) =>
      match SplitField(rest)
      case None => None
      case Some((ys, zs)) =>
        match (ParseInt(xs), ParseInt(ys), ParseInt(zs))
        case (Some(x), Some(y), Some(z)) => Some(Vector3(x, y, z))
        case _ => None
  }

  lemma {:induction false} ParseNatToString(n: nat)
    ensures ParseDigits(NatToString(n)) == Some(n)
  {
    if n >= 10 {
      var s := NatToString(n);
      assert s[..|s| - 1] == NatToString(n / 10);
      ParseNatToString(n / 10);
    }
  }

  lemma ParseIntToString(n: int)
    ensures ParseInt(IntToString(n)) == Some(n)
  {
    var s := IntToString(n);
    if n < 0 {
      var t := NatToString(-n);
      assert s == "-" + t;
      assert s[0] == '-' && s[1..] == t;
      ParseNatToString(-n);
    } else {
      var t := NatToString(n);
      assert s == t;
      assert IsDigit(t[0]);
      ParseNatToString(n);
    }
  }

  lemma SplitFieldAfter(w: string, rest: string)
    requires ',' !in w
    ensures SplitField(w + ", " + rest) == Some((w, rest))
  {
    var s := w + ", " + rest;
    var i := IndexOf(s, ',');
    assert s[|w|] == ',' && s[..|w|] == w;
    assert i == |w|;
    assert s[..i] == w;
    assert s[i + 2..] == rest;
  }

  /** The key round-trips: GetAsString loses nothing. */
  lemma GetAsStringRoundTrip(v: Vector3)
    ensures ParseVector(GetAsString(v)) == Some(v)
  {
    var xs, ys, zs := IntToString(v.x), IntToString(v.y), IntToString(v.z);
    assert GetAsString(v) == xs + ", " + (ys + ", " + zs);
    SplitFieldAfter(xs, ys + ", " + zs);
    SplitFieldAfter(ys, zs);
    ParseIntToString(v.x);
    ParseIntToString(v.y);
    ParseIntToString(v.z);
  }

  /** Distinct locations have distinct keys, so a dictionary keyed by GetAsString
      is a set of locations. */
  lemma GetAsStringInjective(a: Vector3, b: Vector3)
    requires GetAsString(a) == GetAsString(b)
    ensures a == b
  {
    GetAsStringRoundTrip(a);
    GetAsStringRoundTrip(b);
  }
}
