/**
 * The interface inventory of Network.py (`NetworkManager`). What psutil
 * reports is an input: the address records per interface
 * (`net_if_addrs`) and the up/down flag per interface (`net_if_stats`).
 * The shell is an input too: the outcome of the one command run.
 */
module Inventory {
  import opened Maybe
  import opened Text

  // ----------------------------------------------------------- run_command

  /** What `subprocess.run` gives back, or the exception it raises. */
  datatype CommandResult = Completed(returncode: int, stderr: string) | Crashed(error: string)

  const Succeeded := "Command executed successfully!"
  const FailedPrefix := "Command failed: "
  const ExceptionPrefix := "Exception: "

  /** The message `run_command` returns. */
  function RunCommand(result: CommandResult): (message: string)
    ensures message == Succeeded <==> result.Completed? && result.returncode == 0
    ensures result.Completed? && result.returncode != 0 ==>
              && |message| > |FailedPrefix|
              && message[..|FailedPrefix|] == FailedPrefix
              && (Strip(result.stderr) != [] ==> message[|FailedPrefix|..] == Strip(result.stderr))
              && (Strip(result.stderr) == [] ==> message[|FailedPrefix|..] == "Unknown error.")
    ensures result.Crashed? ==> message == ExceptionPrefix + result.error
  {
    match result
    case Completed(code, stderr) =>
      if code == 0 then Succeeded
      else
        var detail := if Strip(stderr) != [] then Strip(stderr) else "Unknown error.";
        var m := FailedPrefix + detail;
        assert m[..|FailedPrefix|] == FailedPrefix && m[|FailedPrefix|..] == detail;
        m
    case Crashed(error) =>
      var m := ExceptionPrefix + error;
      assert m[0] != Succeeded[0];
      m
  }

  /** The three kinds of message cannot be mistaken for one another. */
  lemma RunCommandKinds(result: CommandResult)
    ensures var m := RunCommand(result);
            && (|m| >= |FailedPrefix| && m[..|FailedPrefix|] == FailedPrefix <==>
                  result.Completed? && result.returncode != 0)
            && (|m| >= |ExceptionPrefix| && m[..|ExceptionPrefix|] == ExceptionPrefix <==> result.Crashed?)
  {
    var m := RunCommand(result);
    match result
    case Completed(code, _) =>
      if code == 0 {
        assert m[8] != FailedPrefix[8];
        assert m[0] != ExceptionPrefix[0];
      } else {
        assert m[0] != ExceptionPrefix[0];
      }
    case Crashed(_) =>
      assert m[..|ExceptionPrefix|] == ExceptionPrefix;
      assert m[0] != FailedPrefix[0];
  }

  // -------------------------------------------------------- get_interfaces

  /** Address families: `AF_LINK`, `AF_INET`, `AF_INET6` and the rest. */
  datatype Family = Link | Inet | Inet6 | OtherFamily(code: int)

  /** One `snicaddr` record. */
  datatype Address = Address(family: Family, address: string, netmask: Option<string>)

  datatype InterfaceInfo = InterfaceInfo(mac: string, ipv4: seq<string>, ipv6: seq<string>, status: string)

  /** `f"{address.address}/{address.netmask}"`, a missing mask printing as `None`. */
  function Render(a: Address): string {
    a.address + "/" + (if a.netmask.Some? then a.netmask.value else "None")
  }

  /** The `mac` field after the first records: the last link address, else "N/A". */
  function MacOf(records: seq<Address>): string
    decreases |records|
  {
    if records == [] then "N/A"
    else
      var r := records[|records| - 1];
      if r.family == Link then r.address else MacOf(records[..|records| - 1])
  }

  /** With no link record `mac` stays "N/A". */
  lemma {:induction false} MacOfNoLink(records: seq<Address>)
    requires forall i :: 0 <= i < |records| ==> records[i].family != Link
    ensures MacOf(records) == "N/A"
    decreases |records|
  {
    if records != [] {
      MacOfNoLink(records[..|records| - 1]);
    }
  }

  /** `mac` is the address of the last link record. */
  lemma {:induction false} MacOfLastLink(records: seq<Address>, i: int)
    requires 0 <= i < |records| && records[i].family == Link
    requires forall j :: i < j < |records| ==> records[j].family != Link
    ensures MacOf(records) == records[i].address
    decreases |records|
  {
    if i < |records| - 1 {
      MacOfLastLink(records[..|records| - 1], i);
    }
  }

  /** The rendered addresses of one family, in record order. */
  function AddressesOf(records: seq<Address>, family: Family): (out: seq<string>)
    ensures |out| <= |records|
    decreases |records|
  {
    if records == [] then []
    else
      var r := records[|records| - 1];
      var front := AddressesOf(records[..|records| - 1], family);
      if r.family == family then front + [Render(r)] else front
  }

  /** The `status` field. */
  function StatusOf(iface: string, stats: map<string, bool>): (status: string)
    ensures status == "UP" <==> iface in stats && stats[iface]
    ensures status == "DOWN" <==> iface in stats && !stats[iface]
    ensures iface !in stats ==> status == "Down"
  {
    if iface !in stats then "Down" else if stats[iface] then "UP" else "DOWN"
  }

  /** The record `get_interfaces` builds for one interface. */
  function Entry(iface: string, records: seq<Address>, stats: map<string, bool>): InterfaceInfo {
    InterfaceInfo(MacOf(records), AddressesOf(records, Inet), AddressesOf(records, Inet6), StatusOf(iface, stats))
  }

  /** The last link record wins the `mac` field; records of other
      families leave it alone. */
  lemma {:induction false} MacOfAppend(a: seq<Address>, b: seq<Address>)
    ensures MacOf(a + b) == if exists i :: 0 <= i < |b| && b[i].family == Link then MacOf(b) else MacOf(a)
    decreases |b|
  {
    if b == [] {
      assert a + b == a;
    } else {
      var front := b[..|b| - 1];
      assert (a + b)[..|a + b| - 1] == a + front;
      MacOfAppend(a, front);
      if b[|b| - 1].family != Link {
        assert (exists i :: 0 <= i < |b| && b[i].family == Link) <==>
               (exists i :: 0 <= i < |front| && front[i].family == Link) by {
          forall i | 0 <= i < |b| && b[i].family == Link ensures i < |front| && front[i].family == Link {
          }
        }
        if exists i :: 0 <= i < |front| && front[i].family == Link {
          var i :| 0 <= i < |front| && front[i].family == Link;
          assert b[i].family == Link;
        }
      }
    }
  }

  /** The address lists keep record order: the records of `a` come first. */
  lemma {:induction false} AddressesOfAppend(a: seq<Address>, b: seq<Address>, family: Family)
    ensures AddressesOf(a + b, family) == AddressesOf(a, family) + AddressesOf(b, family)
    decreases |b|
  {
    if b == [] {
      assert a + b == a;
    } else {
      var front := b[..|b| - 1];
      assert (a + b)[..|a + b| - 1] == a + front;
      AddressesOfAppend(a, front, family);
    }
  }

  /** Each rendered address comes from a record of that family, and each
      record of that family is rendered. */
  lemma {:induction false} AddressesOfExact(records: seq<Address>, family: Family)
    ensures forall s :: s in AddressesOf(records, family) <==>
              exists i :: 0 <= i < |records| && records[i].family == family && Render(records[i]) == s
    decreases |records|
  {
    if records != [] {
      var front := records[..|records| - 1];
      AddressesOfExact(front, family);
      forall s | (exists i :: 0 <= i < |records| && records[i].family == family && Render(records[i]) == s)
        ensures s in AddressesOf(records, family)
      {
        var i :| 0 <= i < |records| && records[i].family == family && Render(records[i]) == s;
        if i < |front| {
          assert front[i] == records[i];
        }
      }
      forall s | s in AddressesOf(records, family)
        ensures exists i :: 0 <= i < |records| && records[i].family == family && Render(records[i]) == s
      {
        if s in AddressesOf(front, family) {
          var i :| 0 <= i < |front| && front[i].family == family && Render(front[i]) == s;
          assert records[i] == front[i];
        } else {
          assert records[|records| - 1].family == family && Render(records[|records| - 1]) == s;
        }
      }
    }
  }

  /** `get_interface_names`: the interfaces `net_if_addrs` reports. The list
      order is the dictionary's and is not modelled. */
  function InterfaceNames(addrs: map<string, seq<Address>>): set<string> {
    addrs.Keys
  }

  /** `get_interfaces`: one record per interface `net_if_addrs` reports,
      loopback included. */
  method GetInterfaces(addrs: map<string, seq<Address>>, stats: map<string, bool>)
    returns (interfaces: map<string, InterfaceInfo>)
    ensures interfaces.Keys == InterfaceNames(addrs)
    ensures forall iface :: iface in addrs ==> interfaces[iface] == Entry(iface, addrs[iface], stats)
  {
    interfaces := map[];
    var pending := addrs.Keys;
    while pending != {}
      invariant pending <= addrs.Keys
      invariant interfaces.Keys == addrs.Keys - pending
      invariant forall iface :: iface in interfaces ==> interfaces[iface] == Entry(iface, addrs[iface], stats)
      decreases pending
    {
      var iface :| iface in pending;
      var records := addrs[iface];
      var info := InterfaceInfo("N/A", [], [], "Down");
      var i := 0;
      while i < |records|
        invariant 0 <= i <= |records|
        invariant info == InterfaceInfo(MacOf(records[..i]), AddressesOf(records[..i], Inet),
                                        AddressesOf(records[..i], Inet6), "Down")
      {
        var address := records[i];
        assert records[..i + 1][..i] == records[..i];
        if address.family == Link {
          info := info.(mac := address.address);
        } else if address.family == Inet {
          info := info.(ipv4 := info.ipv4 + [Render(address)]);
        } else if address.family == Inet6 {
          info := info.(ipv6 := info.ipv6 + [Render(address)]);
        }
        i := i + 1;
      }
      assert records[..i] == records;
      if iface in stats {
        info := info.(status := if stats[iface] then "UP" else "DOWN");
      }
      interfaces := interfaces[iface := info];
      pending := pending - {iface};
    }
  }

  // ------------------------------------------------------ enable / disable

  /** The shell command `enable` (`up`) or `disable` (`down`) runs:
      `sudo ip link set dev <iface> up|down`, words joined by spaces. */
  function LinkCommand(iface: string, up: bool): string {
    Join(["sudo", "ip", "link", "set", "dev", iface, if up then "up" else "down"], ' ')
  }

  /** What `enable`/`disable` did: the command run, if any, and the message. */
  datatype Toggle = Toggle(issued: Option<string>, message: string)

  /** `enable(iface)` when `up`, `disable(iface)` otherwise; `result` is what
      running the command gives. */
  function SetLink(iface: string, up: bool, addrs: map<string, seq<Address>>, result: CommandResult): (t: Toggle)
    ensures iface !in InterfaceNames(addrs) ==>
              t == Toggle(None, "Error: interface '" + iface + "' does not exist.")
    ensures iface in InterfaceNames(addrs) ==>
              t.issued == Some(LinkCommand(iface, up)) && t.message == RunCommand(result)
  {
    if iface !in InterfaceNames(addrs) then Toggle(None, "Error: interface '" + iface + "' does not exist.")
    else Toggle(Some(LinkCommand(iface, up)), RunCommand(result))
  }

  /** The command names the interface as its sixth word and the direction
      as its last, for an interface name without spaces. */
  lemma LinkCommandWords(iface: string, up: bool)
    requires ' ' !in iface
    ensures Split(LinkCommand(iface, up), ' ') == ["sudo", "ip", "link", "set", "dev", iface, if up then "up" else "down"]
  {
    var words := ["sudo", "ip", "link", "set", "dev", iface, if up then "up" else "down"];
    assert forall i :: 0 <= i < |words| ==> ' ' !in words[i];
    SplitJoin(words, ' ');
  }
}
