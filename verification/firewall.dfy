/**
 * The iptables front end of firewall.py (`SimpleFirewall`). One table of
 * the kernel is the state: a map from chain name to its rule list. The
 * python-iptables calls become updates of that map: `append_rule` appends,
 * and `delete_rule` removes the first rule equal to the one given, as
 * libiptc does. Reading a chain the table does not have gives no rules;
 * appending to one makes the library raise.
 */
module Firewall {
  import opened Maybe
  import opened Text
  import opened JsonValue

  // ---------------------------------------------------------------- tables

  datatype Table = Filter | Nat | Mangle

  /** The table `__init__` opens; `None` is the `ValueError` it raises. */
  function SelectTable(name: string): (t: Option<Table>)
    ensures t == Some(Filter) <==> Lower(name) == "filter"
    ensures t == Some(Nat) <==> Lower(name) == "nat"
    ensures t == Some(Mangle) <==> Lower(name) == "mangle"
    ensures t.None? <==> Lower(name) !in {"filter", "nat", "mangle"}
  {
    if Lower(name) == "filter" then Some(Filter)
    else if Lower(name) == "nat" then Some(Nat)
    else if Lower(name) == "mangle" then Some(Mangle)
    else None
  }

  // ----------------------------------------------------------------- rules

  /** A match module of a rule; `dport` is `None` when the module has no
      destination port attribute. */
  datatype Match = Match(name: string, dport: Option<string>)

  datatype Rule = Rule(protocol: string, matches: seq<Match>, target: string)

  type Chains = map<string, seq<Rule>>

  /** The rules of a chain as python-iptables reads them. */
  function RulesOf(chains: Chains, name: string): seq<Rule> {
    if name in chains then chains[name] else []
  }

  predicate ValidChain(name: string) {
    Upper(name) in {"INPUT", "OUTPUT", "FORWARD"}
  }

  predicate ValidProtocol(protocol: string) {
    Lower(protocol) in {"tcp", "udp", "icmp"}
  }

  predicate NeedsPort(protocol: string) {
    Lower(protocol) in {"tcp", "udp"}
  }

  predicate ValidAction(action: string) {
    Upper(action) in {"ACCEPT", "DROP", "REJECT"}
  }

  /** The rule `add_rule` builds: lower-cased protocol, a match carrying
      `str(port)` for tcp and udp only, upper-cased target. */
  function NewRule(protocol: string, port: Json, action: string): (r: Rule)
    ensures r.protocol == Lower(protocol) && r.target == Upper(action)
    ensures LastDport(r.matches) == if NeedsPort(protocol) then Some(PyStr(port)) else None
  {
    var p := Lower(protocol);
    Rule(p, if NeedsPort(protocol) then [Match(p, Some(PyStr(port)))] else [], Upper(action))
  }

  /** `s` without its element at `i`. */
  function RemoveAt<T>(s: seq<T>, i: nat): (r: seq<T>)
    requires i < |s|
    ensures |r| == |s| - 1
    ensures forall j :: 0 <= j < i ==> r[j] == s[j]
    ensures forall j :: i <= j < |r| ==> r[j] == s[j + 1]
  {
    s[..i] + s[i + 1..]
  }

  /** libiptc's delete: the first rule equal to `r` goes. */
  function DeleteFirst(s: seq<Rule>, r: Rule): (out: seq<Rule>)
    ensures r !in s ==> out == s
    ensures r in s ==> |out| == |s| - 1
  {
    if s == [] then []
    else if s[0] == r then s[1..]
    else [s[0]] + DeleteFirst(s[1..], r)
  }

  /** The delete takes away exactly one copy of the rule. */
  lemma {:induction false} DeleteFirstRemovesOne(s: seq<Rule>, r: Rule)
    requires r in s
    ensures multiset(DeleteFirst(s, r)) == multiset(s) - multiset{r}
  {
    assert s == [s[0]] + s[1..];
    if s[0] != r {
      DeleteFirstRemovesOne(s[1..], r);
    }
  }

  /** Deleting a rule that has no equal copy before it removes that very position. */
  lemma {:induction false} DeleteFirstAt(s: seq<Rule>, i: nat)
    requires i < |s| && s[i] !in s[..i]
    ensures DeleteFirst(s, s[i]) == RemoveAt(s, i)
    decreases i
  {
    if i > 0 {
      assert s[1..][i - 1] == s[i];
      assert s[1..][..i - 1] == s[..i][1..];
      DeleteFirstAt(s[1..], i - 1);
      assert s[0] == s[..i][0];
    }
  }

  // ------------------------------------------------------------ add_rule

  datatype AddStatus = Added | InvalidChain | InvalidProtocol | PortRequired | InvalidAction | ChainError

  /** The four checks of `add_rule`, in their order: the first that fails
      is reported. */
  function AddCheck(chain: string, protocol: string, port: Json, action: string): (s: AddStatus)
    ensures s == InvalidChain <==> !ValidChain(chain)
    ensures s == InvalidProtocol <==> ValidChain(chain) && !ValidProtocol(protocol)
    ensures s == PortRequired <==> ValidChain(chain) && NeedsPort(protocol) && !Truthy(port)
    ensures s == InvalidAction <==>
              ValidChain(chain) && ValidProtocol(protocol) && (NeedsPort(protocol) ==> Truthy(port)) && !ValidAction(action)
    ensures s == Added <==>
              ValidChain(chain) && ValidProtocol(protocol) && (NeedsPort(protocol) ==> Truthy(port)) && ValidAction(action)
    ensures s != ChainError
  {
    if !ValidChain(chain) then InvalidChain
    else if !ValidProtocol(protocol) then InvalidProtocol
    else if NeedsPort(protocol) && !Truthy(port) then PortRequired
    else if !ValidAction(action) then InvalidAction
    else Added
  }

  // ------------------------------------------------------ remove_rule_by_spec

  /** What `remove_rule_by_spec` looks for: protocol and target equal, and
      some match whose destination port equals `dport`. */
  predicate MatchesSpec(r: Rule, protocol: string, dport: string, target: string) {
    r.protocol == protocol && r.target == target
    && exists k :: 0 <= k < |r.matches| && r.matches[k].dport == Some(dport)
  }

  /** The position of the first rule matching the spec. */
  function FirstMatch(rules: seq<Rule>, protocol: string, dport: string, target: string): (i: Option<nat>)
    ensures i.Some? ==> i.value < |rules| && MatchesSpec(rules[i.value], protocol, dport, target)
    ensures i.Some? ==> forall j :: 0 <= j < i.value ==> !MatchesSpec(rules[j], protocol, dport, target)
    ensures i.None? ==> forall j :: 0 <= j < |rules| ==> !MatchesSpec(rules[j], protocol, dport, target)
  {
    if rules == [] then None
    else if MatchesSpec(rules[0], protocol, dport, target) then Some(0)
    else match FirstMatch(rules[1..], protocol, dport, target)
      case None => None
      case Some(i) => Some(i + 1)
  }

  /** A rule without a destination port never matches, so an icmp rule
      built by `add_rule` cannot be removed by spec. */
  lemma IcmpRuleNeverMatches(port: Json, action: string, protocol: string, p: Json, a: string)
    requires Lower(protocol) == "icmp"
    ensures !MatchesSpec(NewRule(protocol, port, action), Lower(protocol), PyStr(p), Upper(a))
  {
  }

  // ---------------------------------------------------- remove_rule_by_number

  /** Python's `rules[n - 1]`: the position it reads, `None` for `IndexError`. */
  function PyIndex(n: int, len: nat): (i: Option<nat>)
    ensures i.Some? ==> i.value < len
    ensures 1 <= n <= len ==> i == Some(n - 1)
    ensures n > len ==> i.None?
    ensures n <= 0 && len + n - 1 >= 0 ==> i == Some(len + n - 1)
    ensures n <= 0 && len + n - 1 < 0 ==> i.None?
  {
    var k := n - 1;
    if 0 <= k < len then Some(k)
    else if -(len as int) <= k < 0 then Some(len + k)
    else None
  }

  /** `remove_rule_by_number` as written: the rule read at the position is
      handed to `delete_rule`, which removes the first rule equal to it. */
  function RemoveByNumberAsWritten(rules: seq<Rule>, n: int): (out: seq<Rule>)
    ensures PyIndex(n, |rules|).None? ==> out == rules
    ensures PyIndex(n, |rules|).Some? ==>
              multiset(out) == multiset(rules) - multiset{rules[PyIndex(n, |rules|).value]}
  {
    match PyIndex(n, |rules|)
    case None => rules
    case Some(i) =>
      DeleteFirstRemovesOne(rules, rules[i]);
      DeleteFirst(rules, rules[i])
  }

  /** What the method is documented to do: remove the rule at that position. */
  function RemoveByNumber(rules: seq<Rule>, n: int): (out: seq<Rule>)
    ensures PyIndex(n, |rules|).None? ==> out == rules
    ensures PyIndex(n, |rules|).Some? ==> out == RemoveAt(rules, PyIndex(n, |rules|).value)
  {
    match PyIndex(n, |rules|)
    case None => rules
    case Some(i) => RemoveAt(rules, i)
  }

  /** The two agree unless an equal rule sits before the numbered one. */
  lemma RemoveByNumberAgrees(rules: seq<Rule>, n: int)
    requires PyIndex(n, |rules|).Some? ==> rules[PyIndex(n, |rules|).value] !in rules[..PyIndex(n, |rules|).value]
    ensures RemoveByNumberAsWritten(rules, n) == RemoveByNumber(rules, n)
  {
    if PyIndex(n, |rules|).Some? {
      DeleteFirstAt(rules, PyIndex(n, |rules|).value);
    }
  }

  /** With a duplicate earlier in the chain, asking for rule 3 of [A, B, A]
      removes rule 1 as written, changing the order to [B, A]. */
  lemma RemoveByNumberAsWrittenDuplicate()
    ensures var a := Rule("tcp", [Match("tcp", Some("22"))], "ACCEPT");
            var b := Rule("icmp", [], "DROP");
            && RemoveByNumberAsWritten([a, b, a], 3) == [b, a]
            && RemoveByNumber([a, b, a], 3) == [a, b]
  {
    var a := Rule("tcp", [Match("tcp", Some("22"))], "ACCEPT");
    var b := Rule("icmp", [], "DROP");
    assert [a, b, a][1..] == [b, a];
    assert [a, b, a][..2] == [a, b];
  }

  // ------------------------------------------------------------ list_rules

  /** The port `list_rules` shows: the last match that has one. */
  function LastDport(matches: seq<Match>): (d: Option<string>)
    ensures d.Some? ==> exists k :: (0 <= k < |matches| && matches[k].dport == d
                                      && forall j :: k < j < |matches| ==> matches[j].dport.None?)
    ensures d.None? ==> forall j :: 0 <= j < |matches| ==> matches[j].dport.None?
    decreases |matches|
  {
    if matches == [] then None
    else
      var last := matches[|matches| - 1];
      if last.dport.Some? then last.dport else LastDport(matches[..|matches| - 1])
  }

  /** The line for rule number `n`. */
  function RuleLine(n: nat, r: Rule): string {
    var d := LastDport(r.matches);
    if d.Some? && d.value != [] then
      NatToString(n) + ". -p " + r.protocol + " --dport " + d.value + " -j " + r.target
    else NatToString(n) + ". -p " + r.protocol + " -j " + r.target
  }

  /** The numbered lines for the first `|rules|` rules. */
  function RuleLines(rules: seq<Rule>): (lines: seq<string>)
    ensures |lines| == |rules|
    decreases |rules|
  {
    if rules == [] then []
    else RuleLines(rules[..|rules| - 1]) + [RuleLine(|rules|, rules[|rules| - 1])]
  }

  /** What `list_rules` prints for a chain. */
  function Listing(name: string, rules: seq<Rule>): (lines: seq<string>)
    ensures rules == [] ==> lines == ["No rules in " + name + " chain."]
    ensures rules != [] ==> |lines| == |rules| + 1 && lines[0] == "Rules in " + name + " chain:"
    ensures forall i :: 0 <= i < |rules| ==> lines[i + 1] == RuleLine(i + 1, rules[i])
  {
    if rules == [] then ["No rules in " + name + " chain."]
    else
      RuleLinesAllNumbered(rules);
      ["Rules in " + name + " chain:"] + RuleLines(rules)
  }

  /** Every line carries its rule's number. */
  lemma RuleLinesAllNumbered(rules: seq<Rule>)
    ensures forall i :: 0 <= i < |rules| ==> RuleLines(rules)[i] == RuleLine(i + 1, rules[i])
  {
    forall i | 0 <= i < |rules| ensures RuleLines(rules)[i] == RuleLine(i + 1, rules[i]) {
      RuleLinesNumbered(rules, i);
    }
  }

  /** Rule `i` (from 0) is on line `i + 1` and carries the number `i + 1`. */
  lemma {:induction false} RuleLinesNumbered(rules: seq<Rule>, i: nat)
    requires i < |rules|
    ensures RuleLines(rules)[i] == RuleLine(i + 1, rules[i])
    decreases |rules|
  {
    if i < |rules| - 1 {
      RuleLinesNumbered(rules[..|rules| - 1], i);
    }
  }

  /** The number at the head of a rule line reads back as the rule's position. */
  lemma RuleLineNumber(n: nat, r: Rule)
    ensures ParseInt(Split(RuleLine(n, r), '.')[0]) == Some(n)
  {
    var num := NatToString(n);
    assert '.' !in num by { assert AllDigits(num); }
    var rest := if LastDport(r.matches).Some? && LastDport(r.matches).value != [] then
                  " -p " + r.protocol + " --dport " + LastDport(r.matches).value + " -j " + r.target
                else " -p " + r.protocol + " -j " + r.target;
    assert RuleLine(n, r) == num + ['.'] + rest;
    SplitAfterPrefix(num, '.', rest);
    ParseIntToString(n);
  }

  /** Listing after an append: the old lines, then one line for the new rule. */
  lemma ListingAfterAppend(name: string, rules: seq<Rule>, r: Rule)
    ensures Listing(name, rules + [r]) ==
              ["Rules in " + name + " chain:"] + RuleLines(rules) + [RuleLine(|rules| + 1, r)]
  {
    assert (rules + [r])[..|rules|] == rules;
  }

  // ------------------------------------------------------------- the class

  datatype RemoveAllStatus = Cleared | NothingToRemove | InvalidChainName

  class SimpleFirewall {
    var table: Table
    var chains: Chains

    constructor (t: Table, kernel: Chains)
      ensures table == t && chains == kernel
    {
      table := t;
      chains := kernel;
    }

    /** `add_rule`: the checks, then one rule appended to the upper-cased chain. */
    method AddRule(chain: string, protocol: string, port: Json, action: string) returns (status: AddStatus)
      modifies this
      ensures table == old(table)
      ensures AddCheck(chain, protocol, port, action) != Added ==>
                status == AddCheck(chain, protocol, port, action) && chains == old(chains)
      ensures AddCheck(chain, protocol, port, action) == Added && Upper(chain) !in old(chains) ==>
                status == ChainError && chains == old(chains)
      ensures AddCheck(chain, protocol, port, action) == Added && Upper(chain) in old(chains) ==>
                status == Added
                && chains == old(chains)[Upper(chain) := old(chains)[Upper(chain)] + [NewRule(protocol, port, action)]]
    {
      status := AddCheck(chain, protocol, port, action);
      if status != Added {
        return;
      }
      var name := Upper(chain);
      var rule := NewRule(protocol, port, action);
      if name !in chains {
        status := ChainError;
        return;
      }
      chains := chains[name := chains[name] + [rule]];
    }

    /** `remove_rule_by_spec`: scans the chain in order and deletes the first
        rule whose protocol, target and some match's port equal the spec. */
    method RemoveRuleBySpec(chain: string, protocol: string, port: Json, action: string) returns (removed: bool)
      modifies this
      ensures table == old(table)
      ensures var name := Upper(chain);
              var found := FirstMatch(RulesOf(old(chains), name), Lower(protocol), PyStr(port), Upper(action));
              && removed == found.Some?
              && chains == if found.Some?
                           then old(chains)[name := RemoveAt(old(chains)[name], found.value)]
                           else old(chains)
    {
      var name := Upper(chain);
      var p, d, a := Lower(protocol), PyStr(port), Upper(action);
      var rules := RulesOf(chains, name);
      var i := 0;
      while i < |rules|
        invariant 0 <= i <= |rules|
        invariant forall j :: 0 <= j < i ==> !MatchesSpec(rules[j], p, d, a)
        invariant chains == old(chains)
      {
        var rule := rules[i];
        if rule.protocol == p && rule.target == a {
          var k := 0;
          while k < |rule.matches|
            invariant 0 <= k <= |rule.matches|
            invariant forall j :: 0 <= j < k ==> rule.matches[j].dport != Some(d)
          {
            if rule.matches[k].dport == Some(d) {
              assert MatchesSpec(rules[i], p, d, a);
              FirstMatchIs(rules, p, d, a, i);
              assert rule !in rules[..i];
              DeleteFirstAt(rules, i);
              chains := chains[name := DeleteFirst(rules, rule)];
              removed := true;
              return;
            }
            k := k + 1;
          }
        }
        i := i + 1;
      }
      FirstMatchIs(rules, p, d, a, i);
      removed := false;
    }

    /** `remove_rule_by_number`, deleting the numbered position (Python
        negative indexing included); out of range changes nothing. */
    method RemoveRuleByNumber(chain: string, n: int) returns (removed: bool)
      modifies this
      ensures table == old(table)
      ensures var name := Upper(chain);
              && removed == PyIndex(n, |RulesOf(old(chains), name)|).Some?
              && chains == if removed then old(chains)[name := RemoveByNumber(old(chains)[name], n)]
                           else old(chains)
    {
      var name := Upper(chain);
      var rules := RulesOf(chains, name);
      var k := n - 1;
      if -|rules| <= k < |rules| {
        var i := if k < 0 then |rules| + k else k;
        chains := chains[name := rules[..i] + rules[i + 1..]];
        removed := true;
      } else {
        removed := false;
      }
    }

    /** `list_rules`: the lines printed for the chain; nothing changes. */
    method ListRules(chain: string) returns (lines: seq<string>)
      ensures lines == Listing(Upper(chain), RulesOf(chains, Upper(chain)))
    {
      var name := Upper(chain);
      var rules := RulesOf(chains, name);
      if rules == [] {
        return ["No rules in " + name + " chain."];
      }
      lines := ["Rules in " + name + " chain:"];
      var i := 0;
      while i < |rules|
        invariant 0 <= i <= |rules|
        invariant lines == ["Rules in " + name + " chain:"] + RuleLines(rules[..i])
      {
        var rule := rules[i];
        var dport: Option<string> := None;
        var k := 0;
        while k < |rule.matches|
          invariant 0 <= k <= |rule.matches|
          invariant dport == LastDport(rule.matches[..k])
        {
          assert rule.matches[..k + 1][..k] == rule.matches[..k];
          if rule.matches[k].dport.Some? {
            dport := rule.matches[k].dport;
          }
          k := k + 1;
        }
        assert rule.matches[..k] == rule.matches;
        var line;
        if dport.Some? && dport.value != [] {
          line := NatToString(i + 1) + ". -p " + rule.protocol + " --dport " + dport.value + " -j " + rule.target;
        } else {
          line := NatToString(i + 1) + ". -p " + rule.protocol + " -j " + rule.target;
        }
        assert line == RuleLine(i + 1, rule);
        assert rules[..i + 1][..i] == rules[..i];
        assert RuleLines(rules[..i + 1]) == RuleLines(rules[..i]) + [line];
        lines := lines + [line];
        i := i + 1;
      }
      assert rules[..i] == rules;
    }

    /** `remove_all_rules`: after a valid chain name, every rule of the
        chain is handed to `delete_rule` in turn, leaving it empty. */
    method RemoveAllRules(chain: string) returns (status: RemoveAllStatus)
      modifies this
      ensures table == old(table)
      ensures !ValidChain(chain) ==> status == InvalidChainName && chains == old(chains)
      ensures ValidChain(chain) && RulesOf(old(chains), Upper(chain)) == [] ==>
                status == NothingToRemove && chains == old(chains)
      ensures ValidChain(chain) && RulesOf(old(chains), Upper(chain)) != [] ==>
                status == Cleared && chains == old(chains)[Upper(chain) := []]
    {
      if !ValidChain(chain) {
        return InvalidChainName;
      }
      var name := Upper(chain);
      var snapshot := RulesOf(chains, name);
      if snapshot == [] {
        return NothingToRemove;
      }
      var i := 0;
      while i < |snapshot|
        invariant 0 <= i <= |snapshot|
        invariant table == old(table)
        invariant chains == old(chains)[name := snapshot[i..]]
      {
        DeleteHead(snapshot, i);
        chains := chains[name := DeleteFirst(chains[name], snapshot[i])];
        i := i + 1;
      }
      status := Cleared;
    }
  }

  /** One step of `remove_all_rules`: the chain is what is left of the
      snapshot, so the next rule of the snapshot is its first rule. */
  lemma DeleteHead(snapshot: seq<Rule>, i: nat)
    requires i < |snapshot|
    ensures DeleteFirst(snapshot[i..], snapshot[i]) == snapshot[i + 1..]
  {
    assert snapshot[i..][0] == snapshot[i];
    assert snapshot[i..][1..] == snapshot[i + 1..];
  }

  /** The rule `add_rule` builds for tcp or udp matches its own spec. */
  lemma NewRuleMatches(protocol: string, port: Json, action: string)
    requires NeedsPort(protocol)
    ensures MatchesSpec(NewRule(protocol, port, action), Lower(protocol), PyStr(port), Upper(action))
  {
    assert NewRule(protocol, port, action).matches[0].dport == Some(PyStr(port));
  }

  /** Appending a rule and removing the last position gives the rules back. */
  lemma RemoveAppended(rules: seq<Rule>, r: Rule)
    ensures RemoveAt(rules + [r], |rules|) == rules
  {
  }

  /** `FirstMatch` is the position the scan stops at. */
  lemma FirstMatchIs(rules: seq<Rule>, protocol: string, dport: string, target: string, i: nat)
    requires i <= |rules|
    requires forall j :: 0 <= j < i ==> !MatchesSpec(rules[j], protocol, dport, target)
    requires i < |rules| ==> MatchesSpec(rules[i], protocol, dport, target)
    ensures FirstMatch(rules, protocol, dport, target) == if i < |rules| then Some(i) else None
  {
    var f := FirstMatch(rules, protocol, dport, target);
    if f.Some? {
      assert f.value >= i;
    }
  }

  /** `add_rule` then `remove_rule_by_spec` with the same arguments gives the
      chain back, when no rule already in it matches that spec. */
  method AddThenRemove(fw: SimpleFirewall, chain: string, protocol: string, port: Json, action: string)
    returns (added: AddStatus, removed: bool)
    requires NeedsPort(protocol)
    requires Upper(chain) in fw.chains
    requires FirstMatch(fw.chains[Upper(chain)], Lower(protocol), PyStr(port), Upper(action)).None?
    modifies fw
    ensures added == AddCheck(chain, protocol, port, action)
    ensures added == Added ==> removed
    ensures fw.chains == old(fw.chains)
  {
    added := fw.AddRule(chain, protocol, port, action);
    if added != Added {
      removed := false;
      return;
    }
    ghost var before := old(fw.chains)[Upper(chain)];
    ghost var rule := NewRule(protocol, port, action);
    NewRuleMatches(protocol, port, action);
    FirstMatchIs(before + [rule], Lower(protocol), PyStr(port), Upper(action), |before|);
    removed := fw.RemoveRuleBySpec(chain, protocol, port, action);
    RemoveAppended(before, rule);
  }

  /** `remove_all_rules` twice: the second call finds nothing to remove and
      changes nothing. */
  method RemoveAllTwice(fw: SimpleFirewall, chain: string) returns (first: RemoveAllStatus, second: RemoveAllStatus)
    modifies fw
    ensures second != Cleared
    ensures ValidChain(chain) ==> second == NothingToRemove
    ensures ValidChain(chain) && RulesOf(old(fw.chains), Upper(chain)) != [] ==>
              first == Cleared && fw.chains == old(fw.chains)[Upper(chain) := []]
    ensures RulesOf(old(fw.chains), Upper(chain)) == [] || !ValidChain(chain) ==> fw.chains == old(fw.chains)
  {
    first := fw.RemoveAllRules(chain);
    second := fw.RemoveAllRules(chain);
  }
}
