/**
 * The replay path of persistence.py (`apply_network_configuration` and its
 * two helpers): a loaded configuration is driven onto the system, interface
 * steps first, then firewall rules. Commands are recorded as argument lists;
 * whether a command exits with status 0 is an input (`Runner`). Wrongly
 * shaped JSON makes Python raise outside the `try` blocks; that is the
 * `Raised` outcome.
 */
module Replay {
  import opened Maybe
  import opened Text
  import opened JsonValue
  import Store

  /** An argument list given to `subprocess.run`. */
  type Argv = seq<string>

  /** The system as the replay sees it: whether a command exits with status 0. */
  type Runner = Argv -> bool

  /** How a Python call ends: it returns a flag, or an exception escapes it. */
  datatype Outcome = Returned(flag: bool) | Raised

  /** A call's outcome and the commands it issued, in order. */
  datatype Run = Run(outcome: Outcome, issued: seq<Argv>)

  // -------------------------------------------------------- interface steps

  /** `ip link set <name> up` or `... down`. */
  function LinkCommand(name: string, up: bool): Argv {
    ["ip", "link", "set", name, if up then "up" else "down"]
  }

  /** `settings.get('enabled', True)`, by its truth value: absent means enabled. */
  predicate Enabled(settings: Object) {
    Truthy(Get(settings, "enabled", JBool(true)))
  }

  /** A static address is configured only for `type == 'static'` with an `address`. */
  predicate WantsAddress(settings: Object) {
    Get(settings, "type", JNull) == JStr("static") && "address" in settings
  }

  /** `ip addr add <address>/<netmask> dev <name>`, the netmask defaulting to "24". */
  function AddressCommand(name: string, settings: Object): Argv
    requires "address" in settings
  {
    var addr := PyStr(settings["address"]) + "/" + PyStr(Get(settings, "netmask", JStr("24")));
    ["ip", "addr", "add", addr, "dev", name]
  }

  /** `_apply_interface_config` for one interface whose settings are a dict. */
  function InterfaceStep(name: string, settings: Object, run: Runner): (r: Run)
    ensures r.outcome.Returned?
    ensures 1 <= |r.issued| <= 2 && r.issued[0] == LinkCommand(name, Enabled(settings))
    ensures r.outcome.flag <==> run(LinkCommand(name, Enabled(settings)))
    ensures |r.issued| == 2 <==> Enabled(settings) && run(LinkCommand(name, true)) && WantsAddress(settings)
    ensures |r.issued| == 2 ==> r.issued[1] == AddressCommand(name, settings)
  {
    if Enabled(settings) then
      var up := LinkCommand(name, true);
      if !run(up) then Run(Returned(false), [up])
      else if WantsAddress(settings) then Run(Returned(true), [up, AddressCommand(name, settings)])
      else Run(Returned(true), [up])
    else
      var down := LinkCommand(name, false);
      Run(Returned(run(down)), [down])
  }

  /** `order` lists every key of `keys` exactly once (Python's dict iteration). */
  predicate Enumerates(order: seq<string>, keys: set<string>) {
    && (forall i :: 0 <= i < |order| ==> order[i] in keys)
    && (forall k :: k in keys ==> k in order)
    && (forall i, j :: 0 <= i < j < |order| ==> order[i] != order[j])
  }

  /** The interface loop of `apply_network_configuration` over the first
      interfaces of `order`: every interface gets its step, a failed step
      only clears the success flag, a settings value that is not a dict
      raises (`.get` on it). */
  function InterfacesPhase(ifaces: Object, order: seq<string>, run: Runner): Run
    requires forall i :: 0 <= i < |order| ==> order[i] in ifaces
    decreases |order|
  {
    if order == [] then Run(Returned(true), [])
    else
      var prev := InterfacesPhase(ifaces, order[..|order| - 1], run);
      var name := order[|order| - 1];
      if prev.outcome.Raised? then prev
      else match ifaces[name]
        case JObj(settings) =>
          var step := InterfaceStep(name, settings, run);
          Run(Returned(prev.outcome.flag && step.outcome.flag), prev.issued + step.issued)
        case _ => Run(Raised, prev.issued)
  }

  /** The link command of the interface `name` of the `interfaces` dict. */
  function LinkCommandOf(ifaces: Object, name: string): Argv
    requires name in ifaces && ifaces[name].JObj?
  {
    LinkCommand(name, Enabled(ifaces[name].fields))
  }

  /** With dict settings the interface loop never raises, and it succeeds
      iff every interface's link command succeeded. */
  lemma {:induction false} InterfacesPhaseFlag(ifaces: Object, order: seq<string>, run: Runner)
    requires forall i :: 0 <= i < |order| ==> order[i] in ifaces && ifaces[order[i]].JObj?
    ensures var r := InterfacesPhase(ifaces, order, run);
            && r.outcome.Returned?
            && (r.outcome.flag <==> forall i :: 0 <= i < |order| ==> run(LinkCommandOf(ifaces, order[i])))
    decreases |order|
  {
    if order != [] {
      var n := |order| - 1;
      var front := order[..n];
      InterfacesPhaseFlag(ifaces, front, run);
      assert (forall i :: 0 <= i < |order| ==> run(LinkCommandOf(ifaces, order[i])))
        <==> (forall i :: 0 <= i < n ==> run(LinkCommandOf(ifaces, front[i])))
             && run(LinkCommandOf(ifaces, order[n]));
    }
  }

  /** With dict settings every interface's link command is issued, whatever
      the earlier ones did. */
  lemma {:induction false} InterfacesPhaseIssuesLinks(ifaces: Object, order: seq<string>, run: Runner)
    requires forall i :: 0 <= i < |order| ==> order[i] in ifaces && ifaces[order[i]].JObj?
    ensures var r := InterfacesPhase(ifaces, order, run);
            forall i :: 0 <= i < |order| ==> LinkCommandOf(ifaces, order[i]) in r.issued
    decreases |order|
  {
    if order != [] {
      var n := |order| - 1;
      var front := order[..n];
      InterfacesPhaseIssuesLinks(ifaces, front, run);
      InterfacesPhaseFlag(ifaces, front, run);
      var prev := InterfacesPhase(ifaces, front, run);
      var step := InterfaceStep(order[n], ifaces[order[n]].fields, run);
      assert InterfacesPhase(ifaces, order, run).issued == prev.issued + step.issued;
      forall i | 0 <= i < |order|
        ensures LinkCommandOf(ifaces, order[i]) in prev.issued + step.issued
      {
        if i < n {
          assert order[i] == front[i];
        } else {
          assert step.issued[0] in step.issued;
        }
      }
    }
  }

  /** Every interface step runs, whatever the earlier ones did: the phase
      succeeds iff every interface's link command succeeded, and each
      interface's link command is issued. */
  lemma InterfacesPhaseRunsEveryStep(ifaces: Object, order: seq<string>, run: Runner)
    requires forall i :: 0 <= i < |order| ==> order[i] in ifaces && ifaces[order[i]].JObj?
    ensures var r := InterfacesPhase(ifaces, order, run);
            && r.outcome.Returned?
            && (r.outcome.flag <==> forall i :: 0 <= i < |order| ==> run(LinkCommandOf(ifaces, order[i])))
            && (forall i :: 0 <= i < |order| ==> LinkCommandOf(ifaces, order[i]) in r.issued)
  {
    InterfacesPhaseFlag(ifaces, order, run);
    InterfacesPhaseIssuesLinks(ifaces, order, run);
  }

  /** Once the interface loop has raised, later interfaces change nothing. */
  lemma {:induction false} InterfacesPhaseStaysRaised(ifaces: Object, order: seq<string>, run: Runner, m: nat)
    requires forall i :: 0 <= i < |order| ==> order[i] in ifaces
    requires m <= |order| && InterfacesPhase(ifaces, order[..m], run).outcome.Raised?
    ensures InterfacesPhase(ifaces, order, run) == InterfacesPhase(ifaces, order[..m], run)
    decreases |order|
  {
    if m < |order| {
      var n := |order| - 1;
      assert order[..n][..m] == order[..m];
      InterfacesPhaseStaysRaised(ifaces, order[..n], run, m);
    } else {
      assert order[..m] == order;
    }
  }

  /** A settings value that is not a dict makes the loop raise, unless an
      earlier one already did. */
  lemma {:induction false} InterfacesPhaseRaisesOnBadSettings(ifaces: Object, order: seq<string>, run: Runner, k: nat)
    requires forall i :: 0 <= i < |order| ==> order[i] in ifaces
    requires k < |order| && !ifaces[order[k]].JObj?
    ensures InterfacesPhase(ifaces, order, run).outcome.Raised?
    decreases |order|
  {
    var n := |order| - 1;
    if k < n {
      InterfacesPhaseRaisesOnBadSettings(ifaces, order[..n], run, k);
    }
  }

  // ------------------------------------------------------------ rule steps

  /** The `iptables` argument list `_apply_firewall_rules` builds from a rule
      dict, before `subprocess.run` sees it: chain (default INPUT), then
      `-p`, `--dport` (as `str(port)`), `-s` for the keys present, then `-j`
      with the action (default ACCEPT). Values are taken as they are, so a
      non-string chain, protocol, source or action stays non-string. */
  function RuleArgv(rule: Object): seq<Json> {
    [JStr("iptables"), JStr("-A"), Get(rule, "chain", JStr("INPUT"))]
    + ProtocolFlag(rule) + PortFlag(rule) + SourceFlag(rule)
    + [JStr("-j"), Get(rule, "action", JStr("ACCEPT"))]
  }

  function ProtocolFlag(rule: Object): seq<Json> {
    if "protocol" in rule then [JStr("-p"), rule["protocol"]] else []
  }

  function PortFlag(rule: Object): seq<Json> {
    if "port" in rule then [JStr("--dport"), JStr(PyStr(rule["port"]))] else []
  }

  function SourceFlag(rule: Object): seq<Json> {
    if "source" in rule then [JStr("-s"), rule["source"]] else []
  }

  predicate AllStrings(argv: seq<Json>) {
    forall i :: 0 <= i < |argv| ==> argv[i].JStr?
  }

  function Texts(argv: seq<Json>): (r: Argv)
    requires AllStrings(argv)
    ensures |r| == |argv| && forall i :: 0 <= i < |argv| ==> argv[i] == JStr(r[i])
  {
    seq(|argv|, i requires 0 <= i < |argv| => argv[i].s)
  }

  /** A rule `subprocess.run` accepts: a dict whose argument list is all
      strings (anything else raises `TypeError`, which is not caught). */
  predicate Submittable(rule: Json) {
    rule.JObj? && AllStrings(RuleArgv(rule.fields))
  }

  function RuleCommand(rule: Json): Argv
    requires Submittable(rule)
  {
    Texts(RuleArgv(rule.fields))
  }

  /** The fields of a rule that reach the command line, with the defaults. */
  datatype RuleFields = RuleFields(chain: Json, protocol: Option<Json>, port: Option<Json>,
                                   source: Option<Json>, action: Json)

  function FieldsOf(rule: Object): RuleFields {
    RuleFields(Get(rule, "chain", JStr("INPUT")),
               if "protocol" in rule then Some(rule["protocol"]) else None,
               if "port" in rule then Some(JStr(PyStr(rule["port"]))) else None,
               if "source" in rule then Some(rule["source"]) else None,
               Get(rule, "action", JStr("ACCEPT")))
  }

  /** Reads an optional `flag value` pair off the front of an argument list. */
  function TakeFlag(args: seq<Json>, flag: string): (Option<Json>, seq<Json>) {
    if |args| >= 2 && args[0] == JStr(flag) then (Some(args[1]), args[2..]) else (None, args)
  }

  /** Reads an argument list back: the chain, then the flags. */
  function DecodeArgv(argv: seq<Json>): Option<RuleFields> {
    if |argv| < 5 || argv[0] != JStr("iptables") || argv[1] != JStr("-A") then None
    else
      match DecodeFlags(argv[3..])
      case None => None
      case Some((protocol, port, source, action)) => Some(RuleFields(argv[2], protocol, port, source, action))
  }

  /** Reads the flags after the chain, one by one, in the order the builder
      writes them, up to the closing `-j <action>`. */
  function DecodeFlags(args: seq<Json>): Option<(Option<Json>, Option<Json>, Option<Json>, Json)> {
    var (protocol, rest1) := TakeFlag(args, "-p");
    var (port, rest2) := TakeFlag(rest1, "--dport");
    var (source, rest3) := TakeFlag(rest2, "-s");
    if |rest3| == 2 && rest3[0] == JStr("-j") then Some((protocol, port, source, rest3[1]))
    else None
  }

  lemma TakePair(pair: seq<Json>, tail: seq<Json>, flag: string, value: Option<Json>)
    requires pair == if value.Some? then [JStr(flag), value.value] else []
    requires |tail| >= 2 && tail[0] != JStr(flag)
    ensures TakeFlag(pair + tail, flag) == (value, tail)
  {
    if value.Some? {
      assert (pair + tail)[2..] == tail;
    } else {
      assert pair + tail == tail;
    }
  }

  /** The command line carries every field of the rule that matters, and
      nothing is lost or confused in the flag order. */
  lemma RuleArgvDecodes(rule: Object)
    ensures DecodeArgv(RuleArgv(rule)) == Some(FieldsOf(rule))
  {
    var f := FieldsOf(rule);
    var p, d, s := ProtocolFlag(rule), PortFlag(rule), SourceFlag(rule);
    var j := [JStr("-j"), f.action];
    assert RuleArgv(rule) == [JStr("iptables"), JStr("-A"), f.chain] + (p + (d + (s + j)));
    DecodeParts(f, p, d, s);
  }

  /** `DecodeArgv` reads back an argument list laid out as the builder lays it out. */
  lemma DecodeParts(f: RuleFields, p: seq<Json>, d: seq<Json>, s: seq<Json>)
    requires p == if f.protocol.Some? then [JStr("-p"), f.protocol.value] else []
    requires d == if f.port.Some? then [JStr("--dport"), f.port.value] else []
    requires s == if f.source.Some? then [JStr("-s"), f.source.value] else []
    ensures DecodeArgv([JStr("iptables"), JStr("-A"), f.chain] + (p + (d + (s + [JStr("-j"), f.action]))))
            == Some(f)
  {
    var tail := p + (d + (s + [JStr("-j"), f.action]));
    var argv := [JStr("iptables"), JStr("-A"), f.chain] + tail;
    assert argv[3..] == tail;
    FlagsParts(f, p, d, s);
  }

  /** The flags part of the layout reads back as the rule's fields. */
  lemma FlagsParts(f: RuleFields, p: seq<Json>, d: seq<Json>, s: seq<Json>)
    requires p == if f.protocol.Some? then [JStr("-p"), f.protocol.value] else []
    requires d == if f.port.Some? then [JStr("--dport"), f.port.value] else []
    requires s == if f.source.Some? then [JStr("-s"), f.source.value] else []
    ensures DecodeFlags(p + (d + (s + [JStr("-j"), f.action])))
            == Some((f.protocol, f.port, f.source, f.action))
  {
    var j := [JStr("-j"), f.action];
    TakePair(s, j, "-s", f.source);
    TakePair(d, s + j, "--dport", f.port);
    TakePair(p, d + (s + j), "-p", f.protocol);
  }

  /** The rule's `description` never reaches the command. */
  lemma RuleArgvIgnoresDescription(rule: Object)
    ensures RuleArgv(rule) == RuleArgv(rule - {"description"})
  {
  }

  /** The rule loop over the first rules: stops at the first failing command
      (returning false) and raises on a rule it cannot submit. */
  function RulesLoop(rules: seq<Json>, run: Runner): Run
    decreases |rules|
  {
    if rules == [] then Run(Returned(true), [])
    else
      var prev := RulesLoop(rules[..|rules| - 1], run);
      var rule := rules[|rules| - 1];
      if prev.outcome != Returned(true) then prev
      else if !Submittable(rule) then Run(Raised, prev.issued)
      else Run(Returned(run(RuleCommand(rule))), prev.issued + [RuleCommand(rule)])
  }

  /** Once the loop has stopped, later rules change nothing. */
  lemma {:induction false} RulesLoopStaysStopped(rules: seq<Json>, run: Runner, m: nat)
    requires m <= |rules| && RulesLoop(rules[..m], run).outcome != Returned(true)
    ensures RulesLoop(rules, run) == RulesLoop(rules[..m], run)
    decreases |rules|
  {
    if m < |rules| {
      var n := |rules| - 1;
      assert rules[..n][..m] == rules[..m];
      RulesLoopStaysStopped(rules[..n], run, m);
    } else {
      assert rules[..m] == rules;
    }
  }

  /** `_apply_firewall_rules` for any JSON value: a list is looped over; an
      empty string or dict loops zero times; a non-empty string or dict
      yields keys or characters, on which `.get` raises; `None`, a boolean or
      a number is not iterable and raises. */
  function RulesPhase(rules: Json, run: Runner): (r: Run)
    ensures !rules.JArr? ==> r.issued == [] && r.outcome != Returned(false)
  {
    match rules
    case JArr(items) => RulesLoop(items, run)
    case JObj(m) => if m == map[] then Run(Returned(true), []) else Run(Raised, [])
    case JStr(s) => if s == [] then Run(Returned(true), []) else Run(Raised, [])
    case _ => Run(Raised, [])
  }

  /** When every rule goes through, every rule's command is issued in list order. */
  lemma {:induction false} RulesLoopAllApplied(rules: seq<Json>, run: Runner)
    requires forall i :: 0 <= i < |rules| ==> Submittable(rules[i]) && run(RuleCommand(rules[i]))
    ensures RulesLoop(rules, run) == Run(Returned(true), seq(|rules|, i requires 0 <= i < |rules| => RuleCommand(rules[i])))
    decreases |rules|
  {
    if rules != [] {
      var n := |rules| - 1;
      RulesLoopAllApplied(rules[..n], run);
    }
  }

  /** The first failing rule ends the loop: the loop returns false, the rules
      before it and the failing one were submitted (and stay applied), and no
      later rule is. */
  lemma {:induction false} RulesLoopStopsAtFirstFailure(rules: seq<Json>, run: Runner, k: nat)
    requires k < |rules| && forall i :: 0 <= i <= k ==> Submittable(rules[i])
    requires !run(RuleCommand(rules[k]))
    requires forall i :: 0 <= i < k ==> run(RuleCommand(rules[i]))
    ensures RulesLoop(rules, run) == Run(Returned(false), seq(k + 1, i requires 0 <= i <= k => RuleCommand(rules[i])))
    decreases |rules|
  {
    var n := |rules| - 1;
    if k < n {
      RulesLoopStopsAtFirstFailure(rules[..n], run, k);
    } else {
      RulesLoopAllApplied(rules[..n], run);
    }
  }

  // ---------------------------------------------------------- whole replay

  /** The iteration order used for the `interfaces` dict fits that dict. */
  predicate OrderFits(config: Option<Object>, order: seq<string>) {
    config.Some? && "interfaces" in config.value && config.value["interfaces"].JObj? ==>
      Enumerates(order, config.value["interfaces"].fields.Keys)
  }

  /** `apply_network_configuration`: nothing for an absent or empty
      configuration; otherwise the interface loop, then the rules, the flag
      being the conjunction of both. */
  function Apply(config: Option<Object>, order: seq<string>, run: Runner): (r: Run)
    requires OrderFits(config, order)
    ensures config.None? || config.value == map[] ==> r == Run(Returned(false), [])
    ensures (config.Some? && config.value != map[] && "interfaces" !in config.value
             && "firewall_rules" !in config.value) ==> r == Run(Returned(true), [])
  {
    if config.None? || config.value == map[] then Run(Returned(false), [])
    else
      var cfg := config.value;
      var ifs :=
        if "interfaces" !in cfg then Run(Returned(true), [])
        else match cfg["interfaces"]
          case JObj(ifaces) => InterfacesPhase(ifaces, order, run)
          case _ => Run(Raised, []);
      if ifs.outcome.Raised? then ifs
      else
        var rs := if "firewall_rules" in cfg then RulesPhase(cfg["firewall_rules"], run) else Run(Returned(true), []);
        Run(if rs.outcome.Raised? then Raised else Returned(ifs.outcome.flag && rs.outcome.flag),
            ifs.issued + rs.issued)
  }

  /** For a well-shaped configuration the replay returns true exactly when
      every interface's link command and every rule succeeded; a failing
      interface neither stops the later interfaces nor the rules. */
  lemma ApplySucceedsIffEveryStep(cfg: Object, order: seq<string>, run: Runner)
    requires "interfaces" in cfg && cfg["interfaces"].JObj?
    requires Enumerates(order, cfg["interfaces"].fields.Keys)
    requires forall i :: 0 <= i < |order| ==> cfg["interfaces"].fields[order[i]].JObj?
    requires "firewall_rules" in cfg && cfg["firewall_rules"].JArr?
    requires forall i :: 0 <= i < |cfg["firewall_rules"].items| ==> Submittable(cfg["firewall_rules"].items[i])
    ensures var ifaces := cfg["interfaces"].fields;
            var rules := cfg["firewall_rules"].items;
            var r := Apply(Some(cfg), order, run);
            && r.outcome.Returned?
            && (r.outcome.flag <==>
                  (forall i :: 0 <= i < |order| ==> run(LinkCommandOf(ifaces, order[i])))
                  && (forall j :: 0 <= j < |rules| ==> run(RuleCommand(rules[j]))))
            && (forall i :: 0 <= i < |order| ==> LinkCommandOf(ifaces, order[i]) in r.issued)
            && r.issued == InterfacesPhase(ifaces, order, run).issued + RulesLoop(rules, run).issued
  {
    var ifaces := cfg["interfaces"].fields;
    var rules := cfg["firewall_rules"].items;
    InterfacesPhaseRunsEveryStep(ifaces, order, run);
    RulesLoopFlag(rules, run);
    ApplyComposes(cfg, order, run);
  }

  /** With every rule submittable, the rule loop returns whether all of
      them succeeded. */
  lemma {:induction false} RulesLoopFlag(rules: seq<Json>, run: Runner)
    requires forall i :: 0 <= i < |rules| ==> Submittable(rules[i])
    ensures RulesLoop(rules, run).outcome.Returned?
    ensures RulesLoop(rules, run).outcome.flag <==> forall j :: 0 <= j < |rules| ==> run(RuleCommand(rules[j]))
    decreases |rules|
  {
    if rules != [] {
      var n := |rules| - 1;
      var front := rules[..n];
      RulesLoopFlag(front, run);
      assert (forall j :: 0 <= j < |rules| ==> run(RuleCommand(rules[j])))
        <==> (forall j :: 0 <= j < n ==> run(RuleCommand(front[j]))) && run(RuleCommand(rules[n]));
    }
  }

  /** When neither phase raises, the replay issues the interface commands,
      then the rule commands, and returns the conjunction of both flags. */
  lemma ApplyComposes(cfg: Object, order: seq<string>, run: Runner)
    requires "interfaces" in cfg && cfg["interfaces"].JObj?
    requires Enumerates(order, cfg["interfaces"].fields.Keys)
    requires InterfacesPhase(cfg["interfaces"].fields, order, run).outcome.Returned?
    requires "firewall_rules" in cfg && cfg["firewall_rules"].JArr?
    requires RulesLoop(cfg["firewall_rules"].items, run).outcome.Returned?
    ensures var ifs := InterfacesPhase(cfg["interfaces"].fields, order, run);
            var rs := RulesLoop(cfg["firewall_rules"].items, run);
            Apply(Some(cfg), order, run) == Run(Returned(ifs.outcome.flag && rs.outcome.flag), ifs.issued + rs.issued)
  {
  }

  /** Replaying what `get_current_configuration` captures issues no command
      and reports success. */
  lemma ReplayOfCapturedConfiguration(run: Runner)
    ensures Apply(Some(Store.CurrentConfiguration()), [], run) == Run(Returned(true), [])
  {
    var cfg := Store.CurrentConfiguration();
    assert cfg["interfaces"] == JObj(map[]);
    assert cfg["firewall_rules"] == JArr([]);
  }

  // ---------------------------------------------------------------- methods

  /** `_apply_interface_config`. */
  method ApplyInterfaceConfig(name: string, settings: Object, run: Runner) returns (ok: bool, issued: seq<Argv>)
    ensures Run(Returned(ok), issued) == InterfaceStep(name, settings, run)
  {
    if Truthy(Get(settings, "enabled", JBool(true))) {
      var up := ["ip", "link", "set", name, "up"];
      issued := [up];
      if !run(up) {
        return false, issued;
      }
      if Get(settings, "type", JNull) == JStr("static") && "address" in settings {
        var addr := PyStr(settings["address"]) + "/" + PyStr(Get(settings, "netmask", JStr("24")));
        issued := issued + [["ip", "addr", "add", addr, "dev", name]];
      }
      ok := true;
    } else {
      var down := ["ip", "link", "set", name, "down"];
      issued := [down];
      ok := run(down);
    }
  }

  /** The command building inside `_apply_firewall_rules`' loop, one
      `extend` per present field. */
  method BuildRuleArgv(r: Object) returns (cmd: seq<Json>)
    ensures cmd == RuleArgv(r)
    ensures |cmd| >= 5 && cmd[..2] == [JStr("iptables"), JStr("-A")] && cmd[|cmd| - 2] == JStr("-j")
  {
    cmd := [JStr("iptables")];
    cmd := cmd + [JStr("-A"), Get(r, "chain", JStr("INPUT"))];
    if "protocol" in r {
      cmd := cmd + [JStr("-p"), r["protocol"]];
    }
    if "port" in r {
      cmd := cmd + [JStr("--dport"), JStr(PyStr(r["port"]))];
    }
    if "source" in r {
      cmd := cmd + [JStr("-s"), r["source"]];
    }
    cmd := cmd + [JStr("-j"), Get(r, "action", JStr("ACCEPT"))];
  }

  /** `_apply_firewall_rules`: builds each command by successive extends and
      submits the rules in list order, stopping at the first failure. */
  method ApplyFirewallRules(rules: Json, run: Runner) returns (outcome: Outcome, issued: seq<Argv>)
    ensures Run(outcome, issued) == RulesPhase(rules, run)
  {
    match rules {
      case JArr(items) =>
        outcome, issued := ApplyRuleList(items, run);
      case JObj(m) =>
        outcome, issued := if m == map[] then Returned(true) else Raised, [];
      case JStr(s) =>
        outcome, issued := if s == [] then Returned(true) else Raised, [];
      case _ =>
        outcome, issued := Raised, [];
    }
  }

  /** The `for rule in rules` loop over a list: stops at the first rule
      that raises or fails. */
  method ApplyRuleList(items: seq<Json>, run: Runner) returns (outcome: Outcome, issued: seq<Argv>)
    ensures Run(outcome, issued) == RulesLoop(items, run)
  {
    issued := [];
    var i := 0;
    while i < |items|
      invariant 0 <= i <= |items|
      invariant RulesLoop(items[..i], run) == Run(Returned(true), issued)
    {
      assert items[..i + 1][..i] == items[..i];
      var rule := items[i];
      if !rule.JObj? {
        RulesLoopStaysStopped(items, run, i + 1);
        return Raised, issued;
      }
      var cmd := BuildRuleArgv(rule.fields);
      if !AllStrings(cmd) {
        RulesLoopStaysStopped(items, run, i + 1);
        return Raised, issued;
      }
      var argv := Texts(cmd);
      issued := issued + [argv];
      if !run(argv) {
        RulesLoopStaysStopped(items, run, i + 1);
        return Returned(false), issued;
      }
      i := i + 1;
    }
    assert items[..i] == items;
    outcome := Returned(true);
  }

  /** The interface loop of `apply_network_configuration`: a failed step
      clears the flag and the loop goes on. */
  method ApplyInterfaces(ifaces: Object, order: seq<string>, run: Runner)
    returns (outcome: Outcome, issued: seq<Argv>)
    requires forall i :: 0 <= i < |order| ==> order[i] in ifaces
    ensures Run(outcome, issued) == InterfacesPhase(ifaces, order, run)
  {
    var success := true;
    issued := [];
    var i := 0;
    while i < |order|
      invariant 0 <= i <= |order|
      invariant InterfacesPhase(ifaces, order[..i], run) == Run(Returned(success), issued)
    {
      assert order[..i + 1][..i] == order[..i];
      var settings := ifaces[order[i]];
      if !settings.JObj? {
        InterfacesPhaseStaysRaised(ifaces, order, run, i + 1);
        return Raised, issued;
      }
      var ok, cmds := ApplyInterfaceConfig(order[i], settings.fields, run);
      issued := issued + cmds;
      if !ok {
        success := false;
      }
      i := i + 1;
    }
    assert order[..i] == order;
    outcome := Returned(success);
  }

  /** `apply_network_configuration`. */
  method ApplyNetworkConfiguration(config: Option<Object>, order: seq<string>, run: Runner)
    returns (outcome: Outcome, issued: seq<Argv>)
    requires OrderFits(config, order)
    ensures Run(outcome, issued) == Apply(config, order, run)
    ensures config.None? || config == Some(map[]) ==> outcome == Returned(false) && issued == []
  {
    if config.None? || config.value == map[] {
      return Returned(false), [];
    }
    var cfg := config.value;
    var success := true;
    issued := [];
    if "interfaces" in cfg {
      match cfg["interfaces"] {
        case JObj(ifaces) =>
          var ifaceOutcome;
          ifaceOutcome, issued := ApplyInterfaces(ifaces, order, run);
          if ifaceOutcome.Raised? {
            return Raised, issued;
          }
          success := ifaceOutcome.flag;
        case _ =>
          return Raised, [];
      }
    }
    if "firewall_rules" in cfg {
      var rulesOutcome, ruleCmds := ApplyFirewallRules(cfg["firewall_rules"], run);
      issued := issued + ruleCmds;
      if rulesOutcome.Raised? {
        return Raised, issued;
      }
      if !rulesOutcome.flag {
        success := false;
      }
    }
    outcome := Returned(success);
  }
}
