/**
 * The checks `NetplanConfigurator` applies to what the user types
 * (ip_config.py): `validate_ip`, the subnet prefix range, the DNS list with
 * its default, and the `address/prefix` text the static entry stores.
 */
module NetplanInput {
  import opened Maybe
  import opened Text

  // ----------------------------------------------------------- validate_ip

  /** One part of a dotted quad: `0 <= int(part) <= 255`, `int` raising
      being a rejection. */
  predicate ValidOctet(part: string) {
    var v := ParseInt(part);
    v.Some? && 0 <= v.value <= 255
  }

  /** `all(0 <= int(part) <= 255 for part in parts)`, left to right. */
  predicate AllOctets(parts: seq<string>) {
    parts == [] || (ValidOctet(parts[0]) && AllOctets(parts[1..]))
  }

  /** `all` holds for each part. */
  lemma {:induction false} AllOctetsEach(parts: seq<string>, i: int)
    requires AllOctets(parts) && 0 <= i < |parts|
    ensures ValidOctet(parts[i])
    decreases |parts|
  {
    if i > 0 {
      AllOctetsEach(parts[1..], i - 1);
    }
  }

  /** `validate_ip`: four dot-separated parts, each an octet. */
  predicate ValidateIp(ip: string) {
    var parts := Split(ip, '.');
    |parts| == 4 && AllOctets(parts)
  }

  /** The canonical dotted quad `a.b.c.d`. */
  function DottedQuad(a: nat, b: nat, c: nat, d: nat): string {
    Join([NatToString(a), NatToString(b), NatToString(c), NatToString(d)], '.')
  }

  // ----------------------------------------------------- prompt parsing

  /** The DNS servers used when none is entered. */
  function DefaultDns(): seq<string> {
    ["8.8.8.8", "8.8.4.4"]
  }

  /** Every part strips to the empty string. */
  predicate AllBlank(parts: seq<string>) {
    forall i :: 0 <= i < |parts| ==> Strip(parts[i]) == []
  }

  /** `[dns.strip() for dns in parts if dns.strip()]`. */
  function NonBlank(parts: seq<string>): (r: seq<string>)
    ensures forall i :: 0 <= i < |r| ==> r[i] != [] && Strip(r[i]) == r[i]
    ensures |r| <= |parts|
  {
    if parts == [] then []
    else
      var s := Strip(parts[0]);
      (if s != [] then [s] else []) + NonBlank(parts[1..])
  }

  /** The DNS list `get_user_input` returns for the text entered. */
  function ParseDns(input: string): (servers: seq<string>)
    ensures |servers| >= 1
    ensures forall i :: 0 <= i < |servers| ==> servers[i] != [] && Strip(servers[i]) == servers[i]
  {
    var parts := Split(Strip(input), ',');
    var entered := NonBlank(parts);
    if entered == [] then DefaultDns() else entered
  }

  /** The default servers are used exactly when every comma-separated part
      is blank; otherwise the list is the kept entries. */
  lemma ParseDnsCases(input: string)
    ensures var parts := Split(Strip(input), ',');
            && (AllBlank(parts) ==> ParseDns(input) == DefaultDns())
            && (!AllBlank(parts) ==> ParseDns(input) == NonBlank(parts))
  {
    NonBlankEmpty(Split(Strip(input), ','));
  }

  /** Nothing is kept exactly when every part is blank. */
  lemma NonBlankEmpty(parts: seq<string>)
    ensures NonBlank(parts) == [] <==> AllBlank(parts)
  {
    NonBlankExact(parts);
    if !AllBlank(parts) {
      var i :| 0 <= i < |parts| && Strip(parts[i]) != [];
      assert Strip(parts[i]) in NonBlank(parts);
    }
  }

  /** The kept entries of a concatenation are those of each half, in order. */
  lemma {:induction false} NonBlankAppend(a: seq<string>, b: seq<string>)
    ensures NonBlank(a + b) == NonBlank(a) + NonBlank(b)
    decreases |a|
  {
    if a == [] {
      assert a + b == b;
    } else {
      assert (a + b)[1..] == a[1..] + b;
      NonBlankAppend(a[1..], b);
    }
  }

  /** An entry is kept exactly when some part strips to it and it is not
      empty. */
  lemma {:induction false} NonBlankExact(parts: seq<string>)
    ensures forall s :: s in NonBlank(parts) <==> s != [] && exists i :: 0 <= i < |parts| && Strip(parts[i]) == s
    decreases |parts|
  {
    if parts != [] {
      NonBlankExact(parts[1..]);
      forall s | s != [] && exists i :: 0 <= i < |parts| && Strip(parts[i]) == s
        ensures s in NonBlank(parts)
      {
        var i :| 0 <= i < |parts| && Strip(parts[i]) == s;
        if i > 0 {
          assert parts[1..][i - 1] == parts[i];
        }
      }
      forall s | s in NonBlank(parts)
        ensures exists i :: 0 <= i < |parts| && Strip(parts[i]) == s
      {
        if s in NonBlank(parts[1..]) {
          var i :| 0 <= i < |parts[1..]| && Strip(parts[1..][i]) == s;
          assert Strip(parts[i + 1]) == s;
        } else {
          assert Strip(parts[0]) == s;
        }
      }
    }
  }

  /** A clean server name: non-empty, no comma, no surrounding blanks. */
  predicate CleanEntry(s: string) {
    s != [] && ',' !in s && Strip(s) == s
  }

  lemma {:induction false} NonBlankClean(entries: seq<string>)
    requires forall i :: 0 <= i < |entries| ==> CleanEntry(entries[i])
    ensures NonBlank(entries) == entries
    decreases |entries|
  {
    if entries != [] {
      NonBlankClean(entries[1..]);
    }
  }

  /** Typing a comma-separated list of clean names gives back that list. */
  lemma ParseDnsJoin(entries: seq<string>)
    requires |entries| >= 1
    requires forall i :: 0 <= i < |entries| ==> CleanEntry(entries[i])
    ensures ParseDns(Join(entries, ',')) == entries
  {
    var text := Join(entries, ',');
    JoinEnds(entries, ',');
    CleanEnds(entries[0]);
    CleanEnds(entries[|entries| - 1]);
    assert Strip(text) == text;
    SplitJoin(entries, ',');
    NonBlankClean(entries);
  }

  /** A clean entry neither starts nor ends with whitespace. */
  lemma CleanEnds(s: string)
    requires CleanEntry(s)
    ensures !IsSpace(s[0]) && !IsSpace(s[|s| - 1])
  {
  }

  lemma {:induction false} JoinEnds(parts: seq<string>, sep: char)
    requires |parts| >= 1 && forall i :: 0 <= i < |parts| ==> parts[i] != []
    ensures var t := Join(parts, sep);
            t != [] && t[0] == parts[0][0] && t[|t| - 1] == parts[|parts| - 1][|parts[|parts| - 1]| - 1]
    decreases |parts|
  {
    if |parts| > 1 {
      JoinEnds(parts[1..], sep);
    }
  }

  /** The subnet prefix prompt accepts `int(text)` only within 1..32. */
  function AcceptPrefix(text: string): (prefix: Option<nat>)
    ensures prefix.Some? <==> ParseInt(text).Some? && 1 <= ParseInt(text).value <= 32
    ensures prefix.Some? ==> prefix.value == ParseInt(text).value
  {
    match ParseInt(text)
    case Some(p) => if 1 <= p <= 32 then Some(p) else None
    case None => None
  }

  /** The `ip` field of the request: `f"{ip_input}/{prefix}"`. */
  function IpWithPrefix(ip: string, prefix: nat): string {
    ip + "/" + NatToString(prefix)
  }

  lemma NotInStrip(s: string, c: char)
    requires c in s && !IsSpace(c)
    ensures c in Strip(s)
  {
    var i :| 0 <= i < |s| && s[i] == c;
    var a, b := SkipSpaces(s, 0), SkipSpacesBack(s, |s|);
    assert a <= i < b;
    assert Strip(s)[i - a] == c;
  }

  lemma {:induction false} InJoin(parts: seq<string>, sep: char, c: char)
    requires |parts| >= 1 && c != sep && c in Join(parts, sep)
    ensures exists i :: 0 <= i < |parts| && c in parts[i]
    decreases |parts|
  {
    if |parts| > 1 {
      if c !in parts[0] {
        InJoin(parts[1..], sep, c);
        var i :| 0 <= i < |parts| - 1 && c in parts[1..][i];
        assert c in parts[i + 1];
      }
    }
  }

  /** An accepted address has no '/', so the `ip/prefix` text splits back
      into the address and the prefix. */
  lemma IpWithPrefixSplits(ip: string, prefix: nat)
    requires ValidateIp(ip) && 1 <= prefix <= 32
    ensures Split(IpWithPrefix(ip, prefix), '/') == [ip, NatToString(prefix)]
    ensures ParseInt(Split(IpWithPrefix(ip, prefix), '/')[1]) == Some(prefix as int)
  {
    var parts := Split(ip, '.');
    if '/' in ip {
      JoinSplit(ip, '.');
      InJoin(parts, '.', '/');
      var i :| 0 <= i < |parts| && '/' in parts[i];
      NotInStrip(parts[i], '/');
      AllOctetsEach(parts, i);
      ParseIntNoSeparator(parts[i], '/');
      assert false;
    }
    assert '/' !in NatToString(prefix) by { assert AllDigits(NatToString(prefix)); }
    SplitJoin([ip, NatToString(prefix)], '/');
    ParseIntToString(prefix);
  }
}
