# Network tool core, modelled in Dafny

A model of the logic of a small Linux network administration tool written in
Python. It has four components:

- **Configuration store and replay** (`NetworkConfigManager`, persistence.py)
  - Saves one JSON document, `network_config.json`.
  - Before overwriting that document, copies it to a timestamped backup.
  - Loads the document back.
  - Replays a loaded configuration onto the system: `ip link` / `ip addr`
    commands for interfaces, then `iptables` commands for rules.
- **Netplan document editing** (`NetplanConfigurator`, ip_config.py)
  - Normalises the loaded netplan YAML document.
  - Switches one interface to DHCP or to a static address.
  - Validates dotted-quad addresses, the prefix and the DNS list typed at
    the prompts.
  - Parses the output of `ip link show`.
- **Firewall chains** (`SimpleFirewall`, firewall.py)
  - Selects a table.
  - Adds rules after four checks.
  - Removes rules by specification, by number, or all of them.
  - Lists a chain as numbered lines.
- **Interface inventory** (`NetworkManager`, Network.py)
  - Folds psutil's address records and up/down flags into one record per
    interface.
  - Brings an existing interface up or down.
  - Turns a command's outcome into a message.

Files and modules:

| file | module | what it holds |
|---|---|---|
| `maybe.dfy` | `Maybe` | `Option` |
| `text.dfy` | `Text` | Python's `str.strip`, `split`, `join`, `upper`, `lower`, `str(int)` and a decimal `int()` |
| `json.dfy` | `JsonValue` | Parsed JSON/YAML values; Python truthiness, `dict.get` and `str()` |
| `store.dfy` | `Store` | The store as a class whose fields are the file and the backup directory |
| `replay.dfy` | `Replay` | The replay path as specification functions, with methods with loops proved against them |
| `netplan.dfy` | `Netplan` | `load_config`, `configure_dhcp`, `configure_static` and `get_interfaces` |
| `netplan_input.dfy` | `NetplanInput` | `validate_ip` and the prefix and DNS prompts |
| `address_facts.dfy` | `AddressFacts` | What `validate_ip` accepts |
| `firewall.dfy` | `Firewall` | The firewall as a class whose field maps chain names to rule lists |
| `inventory.dfy` | `Inventory` | `run_command`, `get_interfaces`, `enable`/`disable` |

The operating system is abstracted as follows:

- **Files**: class fields.
  - The config file is `Option<FileContent>`, where `FileContent` is either a well-formed JSON document or bytes that do not parse.
  - The backup directory is a map from file name to content.
- **Clock**: each reading of `datetime.now()` is a `DateTime` parameter.
- **Commands run through `subprocess`**: a `Runner` function that says whether an argument list exits with status 0.
  - Replay methods return the commands they issue, in order.
- **`python-iptables`**: one table is a map from chain name to rule list.
  - `append_rule` appends.
  - `delete_rule` removes the first rule equal to its argument, as libiptc does.
- **psutil**: its address records and up/down flags are inputs.
- **Python exceptions** that escape a function are explicit results, for example when `.get` is called on a list:
  - `Raised` in `Replay`.
  - `Raises` in `Netplan`.
  - `ChainError` in `Firewall`.

## Model

| member | source | states |
|---|---|---|
| Store.SaveStamp | persistence.py:68 | The `timestamp` text is 19 characters with `-`, `-`, ` `, `:`, `:` at the `%Y-%m-%d %H:%M:%S` positions |
| Store.BackupName | persistence.py:120-121 | A backup name is `network_config_` + 15-character stamp + `.json` |
| Store.BackupStamp | persistence.py:120 | The backup stamp is 15 characters, with `_` between the date and the time |
| Store.BackupStampRoundTrip | persistence.py:120 | The backup stamp can be read back into exactly the clock reading it was made from |
| Store.BackupNameInjective | persistence.py:120-126 | Two backup names are equal iff the two saves fell in the same second, so a later backup in that second replaces the earlier one |
| Store.Stamped | persistence.py:68-69 | The saved dict has the caller's keys plus `timestamp` and `version`; `version` is "1.0"; every other entry is unchanged |
| Store.LoadFrom | persistence.py:94-113 | Load gives a document iff the file exists, can be read, parses and holds a dict; then it is exactly the file's document; in every other case `None` |
| Store.SaveLoadRoundTrip | persistence.py:323-352 | Loading a saved dict gives back every caller entry unchanged, with the save stamp and version "1.0" |
| Store.CurrentConfiguration | persistence.py:250-278 | The captured configuration has exactly the keys `interfaces` and `firewall_rules` |
| Store.EnsureDirectories | persistence.py:36-49 | Preparing the directories succeeds iff creating is permitted or both already exist; then both exist; otherwise the `PermissionError` escapes (`None`) |
| Store.EnsureDirectoriesSettles | persistence.py:36-49 | Once the directories are ready, preparing them again needs no permission and gives the same result |
| Store.NetworkConfigManager.constructor | persistence.py:20-34 | A manager over ready directories holds exactly the given file and backups |
| Store.NetworkConfigManager.Create | persistence.py:20-49 | Construction fails iff `_ensure_directories` raises; otherwise a fresh manager holds the file and backups on disk, with nothing in a directory it had to create |
| Store.NetworkConfigManager.CreateBackup | persistence.py:115-129 | A successful copy stores the current file verbatim under the stamped name; a failed copy changes nothing; the config file is never touched |
| Store.NetworkConfigManager.SaveConfiguration | persistence.py:66-85 | Returns true iff the write went through. A backup is made only when a file existed (and the copy worked). The file then holds the stamped dict, is unchanged (open refused) or is corrupt (write cut short) |
| Store.NetworkConfigManager.LoadConfiguration | persistence.py:94-113 | Never raises; equals `LoadFrom`; `None` for a missing and for a corrupt file |
| Store.SaveThenLoad | persistence.py:323-352 | After a save and a load, `interfaces` and `firewall_rules` equal what was saved |
| Store.SaveTwice | persistence.py:71-78 | Two saves into an empty store leave one backup, holding the first save's document, and the second document in the file |
| Replay.InterfaceStep | persistence.py:171-197 | A missing `enabled` means up. The step succeeds iff its link command does. The address command is issued only after a successful `up` for `type == 'static'` with an `address`, and its outcome is ignored |
| Replay.InterfacesPhaseFlag | persistence.py:149-153 | With dict settings the interface loop never raises, and it succeeds iff every interface's link command succeeds |
| Replay.InterfacesPhaseIssuesLinks | persistence.py:149-153 | With dict settings every interface's link command is issued, even after earlier failures |
| Replay.InterfacesPhaseRunsEveryStep | persistence.py:149-153 | With dict settings, every interface's link command is issued, whatever earlier ones did; the phase succeeds iff all of them succeed |
| Replay.InterfacesPhaseStaysRaised | persistence.py:151-153 | Once a settings value has raised, later interfaces issue nothing |
| Replay.InterfacesPhaseRaisesOnBadSettings | persistence.py:151-173 | A settings value that is not a dict makes the replay raise |
| Replay.RuleArgvDecodes | persistence.py:212-230 | The `iptables` argument list decodes back to chain (default INPUT), protocol, `str(port)`, source and action (default ACCEPT) in that flag order |
| Replay.RuleArgvIgnoresDescription | persistence.py:212-230 | A rule's `description` has no effect on its command |
| Replay.RulesLoopStaysStopped | persistence.py:206-240 | Once the rule loop has failed or raised, later rules change nothing |
| Replay.RulesLoopAllApplied | persistence.py:210-236 | When every rule succeeds, every rule's command is issued, in list order, and the loop returns true |
| Replay.RulesLoopStopsAtFirstFailure | persistence.py:210-240 | The first failing rule ends the loop with false; exactly the rules up to and including it were submitted, in order, whatever the later rules hold |
| Replay.RulesLoopFlag | persistence.py:206-240 | With every rule a dict, the rule loop never raises, and it returns true iff every rule's command succeeds |
| Replay.RulesPhase | persistence.py:199-240 | A value other than a list issues no command, and the phase then either raises or returns true, never false |
| Replay.ApplySucceedsIffEveryStep | persistence.py:142-161 | For a well-shaped configuration, replay returns true iff every link command and every rule succeeded; every interface's link command is issued even after failures; the commands are the interface loop's followed by the rule loop's |
| Replay.ApplyComposes | persistence.py:142-161 | When neither loop raises, the replay's commands are the interface loop's then the rule loop's, and it returns true iff both loops do |
| Replay.Apply | persistence.py:131-161 | `None` or an empty dict gives false with no command; a non-empty configuration without `interfaces` and `firewall_rules` gives true with no command |
| Replay.ReplayOfCapturedConfiguration | persistence.py:142-161 | Replaying the captured configuration issues nothing and returns true |
| Replay.ApplyInterfaceConfig | persistence.py:163-197 | The method's flag and commands are those of `InterfaceStep` |
| Replay.ApplyInterfaces | persistence.py:149-153 | The interface loop's outcome and commands are those of `InterfacesPhase` |
| Replay.BuildRuleArgv | persistence.py:212-230 | The successive `extend`s build `RuleArgv`, which starts `iptables -A` and ends `-j <action>` |
| Replay.ApplyFirewallRules | persistence.py:199-240 | The loop's outcome and commands are `RulesPhase`, for any JSON value passed as the rules |
| Replay.ApplyRuleList | persistence.py:210-240 | The `for rule in rules` loop's outcome and commands are those of `RulesLoop` |
| Replay.ApplyNetworkConfiguration | persistence.py:131-161 | The outcome and commands are `Apply`; `None` or an empty dict gives false with no command |
| Netplan.LoadConfig | ip_config.py:28-56 | The loaded document always has a dict `network` with `version` and `ethernets`; a missing file or a parse error gives exactly the default document |
| Netplan.LoadConfigAsWritten | ip_config.py:28-56 | As written, the loaded document always has a `network` key, and it equals the normalised document exactly when that `network` is a dict |
| Netplan.LoadConfigKeepsPresentKeys | ip_config.py:42-51 | For a dict `network` or none: the top keys are the old ones plus `network`; `version` is set to 2 and `ethernets` to `{}` only when absent; every key already present, at the top or in `network`, is kept |
| Netplan.LoadConfigAgreesOnDicts | ip_config.py:36-56 | Where `network` is a dict or missing, the code as written and the corrected normalisation agree |
| Netplan.LoadConfigAsWrittenKeepsStringNetwork | ip_config.py:44-51 | As written, a document whose `network` is the string "version ethernets" is returned unnormalised |
| Netplan.EditsAsWrittenRaiseOnStringNetwork | ip_config.py:182-186 | On that document `configure_dhcp` and `configure_static` both raise |
| Netplan.DhcpEditEffect | ip_config.py:172-198 | `configure_dhcp` raises when the loaded `network` is not a dict. Otherwise it succeeds iff `ethernets` and the interface's entry are dicts. The entry then has `dhcp4: true` and no static key, and keeps its other keys. Every other entry and `network` key is unchanged |
| Netplan.DhcpEditIdempotent | ip_config.py:186-196 | Switching to DHCP twice gives the same document as once |
| Netplan.StaticEditEffect | ip_config.py:200-231 | `configure_static` raises when the loaded `network` is not a dict. Otherwise it succeeds iff `ethernets` is a dict; the entry is then exactly the static entry, and nothing else changes |
| Netplan.DhcpAfterStatic | ip_config.py:189-193 | DHCP after a static configuration leaves the entry as exactly `{dhcp4: true}` |
| Netplan.LinkNamesExact | ip_config.py:90-94 | Each name comes from a line with ':' not starting with a space, and is not `lo`; every such line other than loopback's contributes its name |
| Netplan.GetInterfaces | ip_config.py:86-95 | The line loop collects `LinkNames` of the output in line order, and never `lo` |
| NetplanInput.AllOctetsEach | ip_config.py:103 | If `all(...)` holds, each part is an octet |
| NetplanInput.NonBlank | ip_config.py:160 | The kept DNS entries are non-empty and stripped, and there are no more of them than parts |
| NetplanInput.ParseDns | ip_config.py:159-163 | The DNS list is never empty and its entries are non-empty and stripped |
| NetplanInput.ParseDnsCases | ip_config.py:159-163 | The default servers 8.8.8.8 and 8.8.4.4 are used iff every comma-separated part is blank; otherwise the list is exactly the kept entries |
| NetplanInput.NonBlankExact | ip_config.py:160 | A string is kept iff it is non-empty and some part strips to it |
| NetplanInput.NonBlankAppend | ip_config.py:160 | Kept entries stay in order: those of a concatenation are the first half's followed by the second's |
| NetplanInput.NonBlankEmpty | ip_config.py:160 | Nothing is kept iff every part is blank |
| NetplanInput.ParseDnsJoin | ip_config.py:159-163 | Typing a comma-separated list of clean names gives that list back |
| NetplanInput.AcceptPrefix | ip_config.py:142-149 | The prefix is accepted iff `int()` parses it to a value in 1..32, and the value is that integer |
| NetplanInput.IpWithPrefixSplits | ip_config.py:167 | For an accepted address, `ip/prefix` splits on '/' into exactly the address and the prefix, which parses back |
| AddressFacts.ValidateIpJoin | ip_config.py:97-105 | Four dot-free parts joined by '.' are accepted iff each part is an octet |
| AddressFacts.AllOctetsFour | ip_config.py:103 | `all(...)` over four parts holds iff each of the four is an octet |
| AddressFacts.OctetText | ip_config.py:103 | A canonical decimal is an octet iff it is at most 255 |
| AddressFacts.ValidateIpDottedQuad | ip_config.py:97-105 | `a.b.c.d` is accepted iff every number is at most 255 |
| AddressFacts.LooseOctet | ip_config.py:103 | An octet is still accepted with a leading '+', a leading '0' or a leading blank |
| AddressFacts.ValidateIpAcceptsPythonIntSyntax | ip_config.py:97-105 | Addresses such as `+1.010. 3.4` are accepted, so the check is looser than the dotted-quad grammar |
| Firewall.SelectTable | firewall.py:5-14 | "filter", "nat", "mangle" in any case select the corresponding table; every other name is the `ValueError` |
| Firewall.DeleteFirst | firewall.py:60 | `delete_rule` leaves the chain one rule shorter when the rule is present, and otherwise changes nothing |
| Firewall.DeleteFirstRemovesOne | firewall.py:60 | What `delete_rule` removes is exactly one copy of the rule: the remaining rules are the old ones minus that copy, as a multiset |
| Firewall.DeleteFirstAt | firewall.py:56-60 | Deleting a rule with no equal copy before it removes exactly its position |
| Firewall.AddCheck | firewall.py:24-36 | The four checks run in order: chain, protocol, port for tcp/udp (falsy port), action; the first failure is reported, and `Added` iff all pass |
| Firewall.NewRule | firewall.py:38-48 | The rule's protocol is the lower-cased protocol and its target the upper-cased action; its port is `str(port)` for tcp and udp and absent otherwise |
| Firewall.FirstMatch | firewall.py:56-62 | The position found is the first rule with equal protocol and target and some match with the port; `None` iff no rule has them |
| Firewall.IcmpRuleNeverMatches | firewall.py:40-59 | An icmp rule built by `add_rule` has no port, so no spec matches it |
| Firewall.NewRuleMatches | firewall.py:40-59 | A tcp/udp rule built by `add_rule` matches the spec given by the same protocol, port and action |
| Firewall.PyIndex | firewall.py:71 | `rules[n - 1]`: 1..len reads position n-1, 0 and below count from the end, anything else is `IndexError` |
| Firewall.RemoveByNumber | firewall.py:65-74 | The numbered rule is removed; out of range nothing changes |
| Firewall.RemoveByNumberAgrees | firewall.py:69-71 | The code as written removes the numbered rule whenever no equal rule comes before it |
| Firewall.RemoveByNumberAsWrittenDuplicate | firewall.py:71 | As written, removing rule 3 of [A, B, A] removes rule 1 |
| Firewall.RemoveByNumberAsWritten | firewall.py:69-71 | As written: out of range nothing changes; otherwise exactly one rule equal to the numbered one is removed, as a multiset |
| Firewall.LastDport | firewall.py:88-91 | The port shown is the last match that has one; `None` iff no match has one |
| Firewall.RuleLines | firewall.py:85-95 | One line per rule |
| Firewall.RuleLinesNumbered | firewall.py:85-95 | Line i (from 0) shows rule i numbered i + 1 |
| Firewall.RuleLinesAllNumbered | firewall.py:85-95 | Every line shows its rule with the rule's number |
| Firewall.Listing | firewall.py:80-95 | An empty chain gives the single "No rules in" line; otherwise a "Rules in" header and then line i + 1 shows rule i numbered i + 1, one line per rule |
| Firewall.RuleLineNumber | firewall.py:92-95 | The number before the first '.' of a rule line parses back to that number |
| Firewall.ListingAfterAppend | firewall.py:120-123 | After an append, the listing is the old lines plus one line for the new rule, numbered last |
| Firewall.SimpleFirewall.constructor | firewall.py:5-14 | The firewall is over the selected table and the kernel's chains |
| Firewall.SimpleFirewall.AddRule | firewall.py:16-49 | A failed check changes nothing. On success, exactly one rule is appended to the upper-cased chain: lower-cased protocol, port match for tcp/udp only, upper-cased target. A missing chain raises |
| Firewall.SimpleFirewall.RemoveRuleBySpec | firewall.py:51-63 | Removes exactly the first matching rule of the chain and reports it; with no match nothing changes |
| Firewall.SimpleFirewall.RemoveRuleByNumber | firewall.py:65-74 | Removes exactly the numbered position, with Python negative indexing; out of range changes nothing; other chains are untouched |
| Firewall.SimpleFirewall.ListRules | firewall.py:76-95 | The lines are `Listing` of the upper-cased chain, and nothing changes |
| Firewall.SimpleFirewall.RemoveAllRules | firewall.py:97-112 | An invalid name or an empty chain changes nothing; otherwise the chain is empty and other chains are untouched |
| Firewall.FirstMatchIs | firewall.py:56-62 | `FirstMatch` is the position where the scan stops |
| Firewall.AddThenRemove | firewall.py:119-126 | Adding a rule and removing it by the same spec restores the chain, when no earlier rule matched that spec |
| Firewall.RemoveAllTwice | firewall.py:97-112 | Clearing a chain twice: the second call finds nothing and changes nothing |
| Inventory.RunCommand | Network.py:19-31 | "Command executed successfully!" iff exit code 0; otherwise "Command failed: " + stripped stderr or "Unknown error."; "Exception: " + the error when the run raises |
| Inventory.RunCommandKinds | Network.py:23-31 | The failure and exception prefixes appear exactly on the failure and exception messages |
| Inventory.AddressesOf | Network.py:55-62 | There are never more rendered addresses than records |
| Inventory.MacOfAppend | Network.py:52-54 | The last link-family record sets `mac`; other families leave it alone |
| Inventory.MacOfNoLink | Network.py:47-54 | With no link-family record `mac` stays "N/A" |
| Inventory.MacOfLastLink | Network.py:52-54 | `mac` is the address of the last link-family record |
| Inventory.StatusOf | Network.py:50-64 | "UP" iff the flags say up, "DOWN" iff they say down, "Down" when there are no flags for the interface |
| Inventory.AddressesOfAppend | Network.py:55-62 | The address lists keep record order |
| Inventory.AddressesOfExact | Network.py:55-62 | A rendered `address/netmask` is in the list iff a record of that family renders to it |
| Inventory.GetInterfaces | Network.py:33-65 | One record per interface reported by `net_if_addrs` (the key set `get_interface_names` returns, loopback included), each built by `Entry` from that interface's records and flags |
| Inventory.SetLink | Network.py:67-76 | An unknown interface gives the error message and runs nothing; otherwise `sudo ip link set dev <iface> up/down` is run and its message returned |
| Inventory.LinkCommandWords | Network.py:71-76 | For a name without spaces the command's words are exactly `sudo ip link set dev <iface> up/down` |

## Left out

- main_CLI.py is not part of this model. It is an interactive dispatcher with no logic of its own.
- Serialising and parsing JSON and YAML. A document is saved and loaded as a value. The config file and the backup directory are class fields, the outcome of `shutil.copy2` is a parameter, and `mkdir` is `EnsureDirectories` over which directories exist and whether creating them is permitted.
- Floating-point JSON numbers are not modelled: a value is `null`, a boolean, an integer, a string, a list or a dict.
- Store.NetworkConfigManager.constructor starts from directories that are ready. The directory preparation and its `PermissionError` are `Create` and `EnsureDirectories`, and the only failure of `mkdir` modelled is a missing permission.
- The replay catches only `CalledProcessError`. Other exceptions from `subprocess.run` (such as `FileNotFoundError` when `ip` or `iptables` is missing) would escape, and the `Runner` parameter, which only says whether a command exits with status 0, cannot express them.
- `NetplanConfigurator.save_config`, `apply_config` (the `netplan apply` run and its 10-second timeout) and `check_root`. They only perform I/O.
- The interactive loops of `get_user_input`, `display_config` and `run`. Only the prefix and DNS rules and the `ip/prefix` text are modelled. So is `validate_ip`, which the address and gateway prompts use.
- All console messages except the lines `list_rules` prints. `show_interfaces` and the module-level calls at the end of Network.py are left out too.
- Python's `int()` is modelled as a decimal parser that accepts surrounding ASCII blanks, one sign and leading zeros. Underscores and non-ASCII digits are not modelled, and neither is Unicode whitespace in `strip()` nor Unicode case mapping in `upper()`/`lower()`.
- Store.SaveStamp: years before 1000 are excluded, because `%Y` pads them differently across platforms.
- `str()` of a list or dict value is a fixed placeholder, because Python's `repr` is not modelled.
- Dict iteration order is not modelled. The replay takes the order of the `interfaces` dict as an input `order`. `get_interface_names` is the key set, without its list order.
- Store.NetworkConfigManager.SaveConfiguration: a failure of the backup copy is a parameter, and other failures before the write (such as the clock) are not modelled.
- Firewall.SimpleFirewall.constructor takes the selected table. The name check and its `ValueError` are `SelectTable`.
- Errors of `python-iptables` other than appending to a chain the table does not have are not modelled. Neither is the kernel rewriting a port when it stores a rule (for example a service name).
- The rule read back for `remove_rule_by_spec` is compared as the model stores it. The library's own rule equality is taken to be structural.
- Firewall.SimpleFirewall.RemoveRuleByNumber deletes the numbered position, which is the documented intent. The code as written is `RemoveByNumberAsWritten` (see Findings).
- The replay path stops the rule loop at the first failure, runs no declarative step and has no separate "corrupt" result, because that is what persistence.py does.
- Inventory.RunCommand takes the `subprocess.run` outcome as input, and the text of `str(e)` as given.

## Findings

| source | as written | input that shows it | evidently intended | confidence | as-written member | corrected member |
|---|---|---|---|---|---|---|
| firewall.py:71 | `chain.delete_rule(chain.rules[rule_number - 1])` deletes the first rule equal to the numbered one | chain [A, B, A], rule number 3: the chain becomes [B, A] | remove the rule at that position: [A, B] | not executed | Firewall.RemoveByNumberAsWrittenDuplicate | Firewall.RemoveByNumber |
| ip_config.py:44-51 | the structure checks use `in`, which on a string `network` is substring search | `network: "version ethernets"` is returned as it is, with no `version` or `ethernets` keys, and both edits then raise | every loaded document has a dict `network` holding both keys | not executed | Netplan.LoadConfigAsWrittenKeepsStringNetwork | Netplan.LoadConfig |
