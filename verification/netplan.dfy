/**
 * The netplan document logic of ip_config.py (`NetplanConfigurator`): the
 * normalisation done when the YAML file is loaded, the DHCP and static
 * edits of one interface's entry, and the parsing of `ip link show`
 * output. Reading and writing files and running `netplan apply` are left
 * to the callers; the parsed YAML and the command output are inputs.
 */
module Netplan {
  import opened Maybe
  import opened Text
  import opened JsonValue

  // ------------------------------------------------------------- loading

  /** What reading `/etc/netplan/01-netcfg.yaml` gives: no file, a YAML
      error, or a parsed value (`JNull` for an empty file). */
  datatype YamlSource = Missing | Unparseable | Parsed(value: Json)

  /** `{'network': {'version': 2, 'ethernets': {}}}`. */
  function DefaultDocument(): Object {
    map["network" := JObj(map["version" := JInt(2), "ethernets" := JObj(map[])])]
  }

  /** A document in which `network` is a dict holding `version` and `ethernets`. */
  predicate WellStructured(doc: Object) {
    "network" in doc && doc["network"].JObj?
    && "version" in doc["network"].fields && "ethernets" in doc["network"].fields
  }

  /** `network` is a dict that has an `ethernets` key. */
  predicate HasEthernets(doc: Object) {
    "network" in doc && doc["network"].JObj? && "ethernets" in doc["network"].fields
  }

  /** `text` occurs in `s` starting at index `i`. */
  predicate OccursAt(s: string, text: string, i: int) {
    0 <= i && i + |text| <= |s| && s[i..i + |text|] == text
  }

  /** `text in s` for two strings: substring search. */
  predicate Contains(s: string, text: string) {
    exists i :: 0 <= i <= |s| && OccursAt(s, text, i)
  }

  /** Python's `key in container` for a string key: dict membership, list
      membership, substring search in a string; `None` stands for the
      `TypeError` raised for any other container. */
  function PyIn(key: string, container: Json): Option<bool> {
    match container
    case JObj(m) => Some(key in m)
    case JArr(items) => Some(JStr(key) in items)
    case JStr(s) => Some(Contains(s, key))
    case _ => None
  }

  /** The normalisation of `load_config` exactly as written: inside the
      `try`, an empty file counts as `{}`; `'network'`, then `'version'` and
      `'ethernets'` inside it, are added when the `in` test says they are
      missing. Any `TypeError` on the way (a non-dict document, or an
      assignment into a non-dict `network`) falls back to the default
      document. A non-dict `network` for which both `in` tests succeed is
      returned as it is. The result always has a `network` key; it is a
      dict exactly when the corrected normalisation gives the same document. */
  function LoadConfigAsWritten(src: YamlSource): (doc: Object)
    ensures "network" in doc
    ensures doc["network"].JObj? <==> doc == LoadConfig(src)
  {
    match src
    case Missing => DefaultDocument()
    case Unparseable => DefaultDocument()
    case Parsed(value) =>
      match value
      case JNull => DefaultDocument()
      case JObj(config) =>
        var net := if "network" in config then config["network"] else JObj(map[]);
        (match (PyIn("version", net), PyIn("ethernets", net))
         case (Some(hasVersion), Some(hasEthernets)) =>
           if net.JObj? then
             var n1 := if hasVersion then net.fields else net.fields["version" := JInt(2)];
             var n2 := if "ethernets" in n1 then n1 else n1["ethernets" := JObj(map[])];
             config["network" := JObj(n2)]
           else if hasVersion && hasEthernets then config
           else DefaultDocument()
         case _ => DefaultDocument())
      case _ => DefaultDocument()
  }

  /** The evident intent of "Ensure proper structure": a `network` that is
      not a dict is treated like every other unusable document. */
  function LoadConfig(src: YamlSource): (doc: Object)
    ensures WellStructured(doc)
    ensures src.Missing? || src.Unparseable? ==> doc == DefaultDocument()
  {
    match src
    case Parsed(JObj(config)) =>
      var net := if "network" in config then config["network"] else JObj(map[]);
      if net.JObj? then
        var n1 := if "version" in net.fields then net.fields else net.fields["version" := JInt(2)];
        var n2 := if "ethernets" in n1 then n1 else n1["ethernets" := JObj(map[])];
        config["network" := JObj(n2)]
      else DefaultDocument()
    case _ => DefaultDocument()
  }

  /** Loading keeps everything that was already there: `network` becomes
      `{}`, `version` 2 and `ethernets` `{}` only when absent, and every
      other key, at the top or inside `network`, is untouched. */
  lemma LoadConfigKeepsPresentKeys(config: Object)
    requires "network" in config ==> config["network"].JObj?
    ensures var doc := LoadConfig(Parsed(JObj(config)));
            var net := if "network" in config then config["network"].fields else map[];
            var net' := doc["network"].fields;
            && doc.Keys == config.Keys + {"network"}
            && (forall k :: k in config && k != "network" ==> doc[k] == config[k])
            && net'.Keys == net.Keys + {"version", "ethernets"}
            && (forall k :: k in net ==> net'[k] == net[k])
            && ("version" !in net ==> net'["version"] == JInt(2))
            && ("ethernets" !in net ==> net'["ethernets"] == JObj(map[]))
  {
  }

  /** On every document whose `network` is a dict (or missing), the code as
      written and the corrected normalisation agree. */
  lemma LoadConfigAgreesOnDicts(src: YamlSource)
    requires src.Parsed? && src.value.JObj? && "network" in src.value.fields ==> src.value.fields["network"].JObj?
    ensures LoadConfigAsWritten(src) == LoadConfig(src)
  {
  }

  /** The structure promise fails as written: a `network` string that
      mentions both words passes both `in` tests and is kept. */
  lemma LoadConfigAsWrittenKeepsStringNetwork()
    ensures var src := Parsed(JObj(map["network" := JStr("version ethernets")]));
            && LoadConfigAsWritten(src) == map["network" := JStr("version ethernets")]
            && !WellStructured(LoadConfigAsWritten(src))
  {
    var s := "version ethernets";
    assert OccursAt(s, "version", 0);
    assert OccursAt(s, "ethernets", 8);
  }

  /** Both edits then fail on that document: `config['network']['ethernets']`
      indexes a string. */
  lemma EditsAsWrittenRaiseOnStringNetwork(iface: string, req: StaticRequest)
    ensures var src := Parsed(JObj(map["network" := JStr("version ethernets")]));
            ConfigureDhcp(src, iface) == Raises && ConfigureStatic(src, req) == Raises
  {
    LoadConfigAsWrittenKeepsStringNetwork();
  }

  // ----------------------------------------------------------- the edits

  /** How an edit ends: a new document, or an exception that escapes
      (`.get`, `.pop` or item assignment on a value that is not a dict). */
  datatype Edit = Done(doc: Object) | Raises

  /** The per-interface keys `configure_dhcp` pops. */
  const StaticKeys: set<string> := {"addresses", "gateway4", "nameservers", "routes"}

  /** The "ensure structure" lines both edits start with. */
  function EnsureStructure(config: Object): Object {
    if "network" !in config then config["network" := JObj(map["version" := JInt(2), "ethernets" := JObj(map[])])]
    else match config["network"]
      case JObj(net) =>
        if "ethernets" in net then config else config["network" := JObj(net["ethernets" := JObj(map[])])]
      case _ => config
  }

  /** Replaces the entry of `iface` under `network.ethernets` by `entry`. */
  function PutEntry(config: Object, iface: string, entry: Object): Object
    requires HasEthernets(config) && config["network"].fields["ethernets"].JObj?
  {
    var net := config["network"].fields;
    config["network" := JObj(net["ethernets" := JObj(net["ethernets"].fields[iface := JObj(entry)])])]
  }

  /** `configure_dhcp` on a loaded document: the interface's entry (or `{}`)
      loses its static keys and gets `dhcp4: true`. */
  function DhcpEdit(config: Object, iface: string): Edit {
    var c := EnsureStructure(config);
    if !HasEthernets(c) then Raises
    else match c["network"].fields["ethernets"]
      case JObj(eth) =>
        (match Get(eth, iface, JObj(map[]))
         case JObj(entry) => Done(PutEntry(c, iface, (entry - StaticKeys)["dhcp4" := JBool(true)]))
         case _ => Raises)
      case _ => Raises
  }

  /** `configure_dhcp(interface)`. */
  function ConfigureDhcp(src: YamlSource, iface: string): Edit {
    DhcpEdit(LoadConfigAsWritten(src), iface)
  }

  /** The dict `get_user_input` hands to `configure_static`. */
  datatype StaticRequest = StaticRequest(iface: string, ip: string, gateway: string, dns: seq<string>)

  function Strings(items: seq<string>): (r: seq<Json>)
    ensures |r| == |items| && forall i :: 0 <= i < |items| ==> r[i] == JStr(items[i])
  {
    seq(|items|, i requires 0 <= i < |items| => JStr(items[i]))
  }

  /** The entry `configure_static` builds. */
  function StaticEntry(req: StaticRequest): Object {
    map["dhcp4" := JBool(false),
        "addresses" := JArr([JStr(req.ip)]),
        "routes" := JArr([JObj(map["to" := JStr("default"), "via" := JStr(req.gateway)])]),
        "nameservers" := JObj(map["addresses" := JArr(Strings(req.dns))])]
  }

  /** `configure_static` on a loaded document: the interface's entry is
      replaced wholesale. */
  function StaticEdit(config: Object, req: StaticRequest): Edit {
    var c := EnsureStructure(config);
    if !HasEthernets(c) then Raises
    else match c["network"].fields["ethernets"]
      case JObj(eth) => Done(PutEntry(c, req.iface, StaticEntry(req)))
      case _ => Raises
  }

  /** `configure_static(config_data)`. */
  function ConfigureStatic(src: YamlSource, req: StaticRequest): Edit {
    StaticEdit(LoadConfigAsWritten(src), req)
  }

  /** Everything except `network.ethernets[iface]` is the same in both documents. */
  predicate SameExceptEntry(before: Object, after: Object, iface: string)
    requires HasEthernets(before) && HasEthernets(after)
    requires before["network"].fields["ethernets"].JObj? && after["network"].fields["ethernets"].JObj?
  {
    var net := before["network"].fields;
    var net' := after["network"].fields;
    var eth := net["ethernets"].fields;
    var eth' := net'["ethernets"].fields;
    && after.Keys == before.Keys
    && (forall k :: k in before && k != "network" ==> after[k] == before[k])
    && net'.Keys == net.Keys
    && (forall k :: k in net && k != "ethernets" ==> net'[k] == net[k])
    && eth'.Keys == eth.Keys + {iface}
    && (forall k :: k in eth && k != iface ==> eth'[k] == eth[k])
  }

  /** `configure_dhcp` raises when the loaded `network` is not a dict.
      Otherwise the loaded document is the well-structured one, and the edit
      succeeds exactly when `ethernets` and the interface's entry (if any)
      are dicts; the entry then holds `dhcp4: true`, none of the static
      keys, and its other keys unchanged, and nothing else in the document
      changes. */
  lemma DhcpEditEffect(src: YamlSource, iface: string)
    ensures !LoadConfigAsWritten(src)["network"].JObj? ==> ConfigureDhcp(src, iface) == Raises
    ensures LoadConfigAsWritten(src)["network"].JObj? ==>
            var c := LoadConfig(src);
            var eth := c["network"].fields["ethernets"];
            && (ConfigureDhcp(src, iface).Done? <==>
                 eth.JObj? && (iface in eth.fields ==> eth.fields[iface].JObj?))
            && (ConfigureDhcp(src, iface).Done? ==>
                 var after := ConfigureDhcp(src, iface).doc;
                 var old_entry := if iface in eth.fields then eth.fields[iface].fields else map[];
                 && WellStructured(after)
                 && after["network"].fields["ethernets"].JObj?
                 && SameExceptEntry(c, after, iface)
                 && var entry := after["network"].fields["ethernets"].fields[iface];
                 && entry.JObj?
                 && entry.fields.Keys == (old_entry.Keys - StaticKeys) + {"dhcp4"}
                 && entry.fields["dhcp4"] == JBool(true)
                 && (forall k :: k in old_entry && k !in StaticKeys && k != "dhcp4" ==> entry.fields[k] == old_entry[k]))
  {
    var c := LoadConfig(src);
    assert EnsureStructure(c) == c;
  }

  /** Switching to DHCP twice is the same as once. */
  lemma DhcpEditIdempotent(config: Object, iface: string)
    requires DhcpEdit(config, iface).Done?
    ensures DhcpEdit(DhcpEdit(config, iface).doc, iface) == DhcpEdit(config, iface)
  {
    var c := EnsureStructure(config);
    var once := DhcpEdit(config, iface).doc;
    assert EnsureStructure(once) == once;
    var eth := c["network"].fields["ethernets"].fields;
    var entry := Get(eth, iface, JObj(map[])).fields;
    var e1 := (entry - StaticKeys)["dhcp4" := JBool(true)];
    assert (e1 - StaticKeys)["dhcp4" := JBool(true)] == e1;
    var eth' := once["network"].fields["ethernets"].fields;
    assert eth' == eth[iface := JObj(e1)];
    assert eth'[iface := JObj(e1)] == eth';
    var net' := once["network"].fields;
    assert net'["ethernets" := JObj(eth')] == net';
    assert once["network" := JObj(net')] == once;
    assert PutEntry(once, iface, e1) == once;
  }

  /** `configure_static` raises when the loaded `network` is not a dict.
      Otherwise it succeeds exactly when `ethernets` is a dict; the
      interface's entry is then exactly the static entry, and nothing else
      in the document changes. */
  lemma StaticEditEffect(src: YamlSource, req: StaticRequest)
    ensures !LoadConfigAsWritten(src)["network"].JObj? ==> ConfigureStatic(src, req) == Raises
    ensures LoadConfigAsWritten(src)["network"].JObj? ==>
            var c := LoadConfig(src);
            var eth := c["network"].fields["ethernets"];
            && (ConfigureStatic(src, req).Done? <==> eth.JObj?)
            && (ConfigureStatic(src, req).Done? ==>
                 var after := ConfigureStatic(src, req).doc;
                 && WellStructured(after)
                 && after["network"].fields["ethernets"].JObj?
                 && SameExceptEntry(c, after, req.iface)
                 && after["network"].fields["ethernets"].fields[req.iface] == JObj(StaticEntry(req)))
  {
    var c := LoadConfig(src);
    assert EnsureStructure(c) == c;
  }

  /** Switching a statically configured interface to DHCP leaves only
      `dhcp4: true` in its entry. */
  lemma DhcpAfterStatic(config: Object, req: StaticRequest)
    requires StaticEdit(config, req).Done?
    ensures var after := DhcpEdit(StaticEdit(config, req).doc, req.iface);
            && after.Done?
            && HasEthernets(after.doc)
            && after.doc["network"].fields["ethernets"].JObj?
            && after.doc["network"].fields["ethernets"].fields[req.iface] == JObj(map["dhcp4" := JBool(true)])
  {
    var s := StaticEdit(config, req).doc;
    assert EnsureStructure(s) == s;
    assert (StaticEntry(req) - StaticKeys)["dhcp4" := JBool(true)] == map["dhcp4" := JBool(true)];
  }

  // ------------------------------------------------------- get_interfaces

  /** A line of `ip link show` that names an interface: it has a ':' and
      does not start with a space. */
  predicate IsLinkLine(line: string) {
    ':' in line && !(|line| > 0 && line[0] == ' ')
  }

  /** The stripped text between the first and second ':'. */
  function LinkName(line: string): string
    requires ':' in line
  {
    Strip(Split(line, ':')[1])
  }

  /** The names `get_interfaces` collects from the first `lines`, in order. */
  function LinkNames(lines: seq<string>): seq<string>
    decreases |lines|
  {
    if lines == [] then []
    else
      var prev := LinkNames(lines[..|lines| - 1]);
      var line := lines[|lines| - 1];
      if IsLinkLine(line) && LinkName(line) != "lo" then prev + [LinkName(line)] else prev
  }

  /** Every name comes from an interface line and is not `lo`; every
      interface line other than loopback's contributes its name. */
  lemma {:induction false} LinkNamesExact(lines: seq<string>)
    ensures forall n :: n in LinkNames(lines) ==> n != "lo" && exists l :: l in lines && IsLinkLine(l) && LinkName(l) == n
    ensures forall l :: l in lines && IsLinkLine(l) && LinkName(l) != "lo" ==> LinkName(l) in LinkNames(lines)
    decreases |lines|
  {
    if lines != [] {
      var front := lines[..|lines| - 1];
      LinkNamesExact(front);
      assert lines == front + [lines[|lines| - 1]];
      forall n | n in LinkNames(lines)
        ensures n != "lo" && exists l :: l in lines && IsLinkLine(l) && LinkName(l) == n
      {
        if n in LinkNames(front) {
          var l :| l in front && IsLinkLine(l) && LinkName(l) == n;
          assert l in lines;
        } else {
          assert lines[|lines| - 1] in lines;
        }
      }
    }
  }

  /** `get_interfaces`, given the captured output of `ip link show`. */
  method GetInterfaces(stdout: string) returns (interfaces: seq<string>)
    ensures interfaces == LinkNames(Split(stdout, '\n'))
    ensures "lo" !in interfaces
  {
    var lines := Split(stdout, '\n');
    interfaces := [];
    var i := 0;
    while i < |lines|
      invariant 0 <= i <= |lines|
      invariant interfaces == LinkNames(lines[..i])
    {
      assert lines[..i + 1][..i] == lines[..i];
      var line := lines[i];
      if ':' in line && !(|line| > 0 && line[0] == ' ') {
        var name := LinkName(line);
        if name != "lo" {
          interfaces := interfaces + [name];
        }
      }
      i := i + 1;
    }
    assert lines[..i] == lines;
    LinkNamesExact(lines);
  }

}
