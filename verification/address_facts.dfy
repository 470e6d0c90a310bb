/**
 * What `validate_ip` of ip_config.py accepts: every canonical dotted quad
 * with octets up to 255, nothing with a larger octet, and also texts that
 * are not dotted quads in the usual sense.
 */
module AddressFacts {
  import opened Text
  import opened NetplanInput

  /** The `all(...)` over four parts, spelt out. */
  lemma AllOctetsFour(p0: string, p1: string, p2: string, p3: string)
    ensures AllOctets([p0, p1, p2, p3]) <==>
              ValidOctet(p0) && ValidOctet(p1) && ValidOctet(p2) && ValidOctet(p3)
  {
    assert [p0, p1, p2, p3][1..] == [p1, p2, p3];
    assert [p1, p2, p3][1..] == [p2, p3];
    assert [p2, p3][1..] == [p3];
    assert [p3][1..] == [];
    assert AllOctets([p3]) <==> ValidOctet(p3);
    assert AllOctets([p2, p3]) <==> ValidOctet(p2) && AllOctets([p3]);
    assert AllOctets([p1, p2, p3]) <==> ValidOctet(p1) && AllOctets([p2, p3]);
  }

  /** Four parts without '.' joined by dots are accepted exactly when each
      part is an octet. */
  lemma ValidateIpJoin(p0: string, p1: string, p2: string, p3: string)
    requires '.' !in p0 && '.' !in p1 && '.' !in p2 && '.' !in p3
    ensures ValidateIp(Join([p0, p1, p2, p3], '.')) <==>
              ValidOctet(p0) && ValidOctet(p1) && ValidOctet(p2) && ValidOctet(p3)
  {
    SplitJoin([p0, p1, p2, p3], '.');
    AllOctetsFour(p0, p1, p2, p3);
  }

  /** A canonical decimal has no '.', and it is an octet exactly when at most 255. */
  lemma OctetText(n: nat)
    ensures '.' !in NatToString(n)
    ensures ValidOctet(NatToString(n)) <==> n <= 255
  {
    assert AllDigits(NatToString(n));
    ParseIntToString(n);
  }

  /** Every canonical address is accepted, and an octet above 255 is not. */
  lemma ValidateIpDottedQuad(a: nat, b: nat, c: nat, d: nat)
    ensures ValidateIp(DottedQuad(a, b, c, d)) <==> a <= 255 && b <= 255 && c <= 255 && d <= 255
  {
    OctetText(a);
    OctetText(b);
    OctetText(c);
    OctetText(d);
    ValidateIpJoin(NatToString(a), NatToString(b), NatToString(c), NatToString(d));
  }

  /** The check is looser than the dotted-quad grammar of RFC 3986
      (section 3.2.2): octets may carry a sign, leading zeros or
      surrounding blanks. */
  lemma ValidateIpAcceptsPythonIntSyntax(a: nat, b: nat, c: nat, d: nat)
    requires a <= 255 && b <= 255 && c <= 255 && d <= 255
    ensures ValidateIp(Join(["+" + NatToString(a), "0" + NatToString(b), " " + NatToString(c), NatToString(d)], '.'))
  {
    LooseOctet(a);
    LooseOctet(b);
    LooseOctet(c);
    OctetText(d);
    ValidateIpJoin("+" + NatToString(a), "0" + NatToString(b), " " + NatToString(c), NatToString(d));
  }

  lemma LooseOctet(n: nat)
    requires n <= 255
    ensures var s := NatToString(n);
            && ValidOctet("+" + s) && ValidOctet("0" + s) && ValidOctet(" " + s)
            && '.' !in "+" + s && '.' !in "0" + s && '.' !in " " + s
  {
    OctetText(n);
    ParseIntSigned(n);
    ParseIntLeadingZero(n);
    ParseIntPadded(n);
  }
}
