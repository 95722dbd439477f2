/**
 * IP endpoints and their display form (what `inet_ntop` produces), and the
 * range title `"<start> - <end>"` derived from them.
 */
module IpAddress {
  import opened Wrappers
  import opened PhpArrays

  type Byte = x: int | 0 <= x < 256

  /**
   * A stored endpoint. IPv4 endpoints are four bytes; an IPv6 endpoint carries
   * the text `inet_ntop` renders for it.
   */
  datatype Address = IPv4(a: Byte, b: Byte, c: Byte, d: Byte) | IPv6(text: string)

  function DigitChar(n: nat): (c: char)
    requires n < 10
    ensures '0' <= c <= '9'
  {
    ('0' as int + n) as char
  }

  function DigitValue(c: char): nat {
    if '0' <= c <= '9' then (c as int - '0' as int) else 0
  }

  predicate AllDigits(s: string) {
    forall i :: 0 <= i < |s| ==> '0' <= s[i] <= '9'
  }

  /** Decimal rendering of a natural number, without leading zeros. */
  function Decimal(n: nat): (s: string)
    ensures |s| >= 1 && AllDigits(s)
  {
    if n < 10 then [DigitChar(n)] else Decimal(n / 10) + [DigitChar(n % 10)]
  }

  /** The value of a string of decimal digits. */
  function ParseDecimal(s: string): nat {
    if s == [] then 0 else 10 * ParseDecimal(s[..|s| - 1]) + DigitValue(s[|s| - 1])
  }

  lemma {:induction false} DecimalRoundTrip(n: nat)
    ensures ParseDecimal(Decimal(n)) == n
  {
    if n >= 10 {
      var s := Decimal(n);
      assert s[..|s| - 1] == Decimal(n / 10);
      DecimalRoundTrip(n / 10);
      assert DigitValue(DigitChar(n % 10)) == n % 10 by {
        var k := n % 10;
        assert k == 0 || k == 1 || k == 2 || k == 3 || k == 4 || k == 5 || k == 6 || k == 7 || k == 8 || k == 9;
      }
    } else {
      assert n == 0 || n == 1 || n == 2 || n == 3 || n == 4 || n == 5 || n == 6 || n == 7 || n == 8 || n == 9;
    }
  }

  /** `inet_ntop` of an endpoint: dotted decimal for IPv4. */
  function Format(x: Address): (s: string)
    ensures x.IPv4? ==> ' ' !in s
  {
    match x
    case IPv4(a, b, c, d) => Decimal(a) + "." + Decimal(b) + "." + Decimal(c) + "." + Decimal(d)
    case IPv6(t) => t
  }

  /** Reads one dotted-decimal octet. */
  function ParseOctet(s: string): Option<Byte> {
    if |s| >= 1 && AllDigits(s) && ParseDecimal(s) < 256 then Some(ParseDecimal(s)) else None
  }

  /** Reads a dotted-decimal IPv4 address. */
  function ParseIPv4(s: string): Option<Address> {
    var parts := Explode('.', s);
    if |parts| != 4 then None
    else match (ParseOctet(parts[0]), ParseOctet(parts[1]), ParseOctet(parts[2]), ParseOctet(parts[3]))
      case (Some(a), Some(b), Some(c), Some(d)) => Some(IPv4(a, b, c, d))
      case _ => None
  }

  lemma OctetRoundTrip(n: Byte)
    ensures ParseOctet(Decimal(n)) == Some(n)
  {
    DecimalRoundTrip(n);
  }

  /** The dotted-decimal text of an IPv4 endpoint reads back as that endpoint. */
  lemma FormatRoundTrip(x: Address)
    requires x.IPv4?
    ensures ParseIPv4(Format(x)) == Some(x)
  {
    var parts := [Decimal(x.a), Decimal(x.b), Decimal(x.c), Decimal(x.d)];
    forall i | 0 <= i < |parts| ensures '.' !in parts[i] {
      assert AllDigits(parts[i]);
    }
    assert Format(x) == Implode(".", parts) by {
      var p1, p2, p3 := Decimal(x.b), Decimal(x.c), Decimal(x.d);
      assert parts[1..] == [p1, p2, p3];
      assert parts[1..][1..] == [p2, p3];
      assert Implode(".", [p2, p3]) == p2 + "." + p3;
      assert Implode(".", [p1, p2, p3]) == p1 + "." + (p2 + "." + p3);
    }
    ExplodeImplode('.', parts);
    OctetRoundTrip(x.a);
    OctetRoundTrip(x.b);
    OctetRoundTrip(x.c);
    OctetRoundTrip(x.d);
  }

  /** The title every range gets from its endpoints. */
  function RangeTitle(start: Address, end: Address): string {
    Format(start) + " - " + Format(end)
  }

  /** Reads a title of two IPv4 endpoints back into the endpoints. */
  function ParseRangeTitle(t: string): Option<(Address, Address)> {
    var parts := Explode(' ', t);
    if |parts| != 3 || parts[1] != "-" then None
    else match (ParseIPv4(parts[0]), ParseIPv4(parts[2]))
      case (Some(s), Some(e)) => Some((s, e))
      case _ => None
  }

  /** A range title is its two endpoints and the dash, joined by spaces. */
  lemma TitleImplode(start: Address, end: Address)
    ensures RangeTitle(start, end) == Implode(" ", [Format(start), "-", Format(end)])
  {
    var parts := [Format(start), "-", Format(end)];
    assert parts[1..] == ["-", Format(end)];
    assert Implode(" ", parts[1..]) == "-" + " " + Format(end);
  }

  /** Splitting an IPv4 range title at spaces gives the two endpoints around the dash. */
  lemma TitleParts(start: Address, end: Address)
    requires start.IPv4? && end.IPv4?
    ensures Explode(' ', RangeTitle(start, end)) == [Format(start), "-", Format(end)]
  {
    var parts := [Format(start), "-", Format(end)];
    TitleImplode(start, end);
    assert ' ' !in parts[0] && ' ' !in parts[2];
    assert forall i :: 0 <= i < |parts| ==> ' ' !in parts[i];
    ExplodeImplode(' ', parts);
  }

  /** The title of an IPv4 range determines its endpoints. */
  lemma TitleRoundTrip(start: Address, end: Address)
    requires start.IPv4? && end.IPv4?
    ensures ParseRangeTitle(RangeTitle(start, end)) == Some((start, end))
  {
    TitleParts(start, end);
    FormatRoundTrip(start);
    FormatRoundTrip(end);
  }

  /** Two IPv4 ranges with the same title have the same endpoints. */
  lemma TitleInjective(s1: Address, e1: Address, s2: Address, e2: Address)
    requires s1.IPv4? && e1.IPv4? && s2.IPv4? && e2.IPv4?
    requires RangeTitle(s1, e1) == RangeTitle(s2, e2)
    ensures s1 == s2 && e1 == e2
  {
    TitleRoundTrip(s1, e1);
    TitleRoundTrip(s2, e2);
  }
}
