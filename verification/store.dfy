/**
 * The configuration store of persistence.py (`NetworkConfigManager`): one
 * persisted JSON document, `network_config.json`, plus a `backups` directory
 * that receives a verbatim copy of the previous document each time a save
 * overwrites it. The file system is the state of a class; the clock and the
 * outcome of each file operation are parameters.
 */
module Store {
  import opened Maybe
  import opened Text
  import opened JsonValue

  // ------------------------------------------------------------------ clock

  /** A reading of `datetime.now()`, to the second. */
  datatype DateTime = DateTime(year: nat, month: nat, day: nat, hour: nat, minute: nat, second: nat)
  {
    predicate Valid() {
      1000 <= year <= 9999 && 1 <= month <= 12 && 1 <= day <= 31
      && hour < 24 && minute < 60 && second < 60
    }
  }

  /** Two decimal digits, zero-padded (`%m`, `%d`, `%H`, `%M`, `%S`). */
  function Pad2(n: nat): string
    requires n < 100
  {
    [DigitChar(n / 10), DigitChar(n % 10)]
  }

  /** Four decimal digits (`%Y` for a four-digit year). */
  function Pad4(n: nat): string
    requires n < 10000
  {
    Pad2(n / 100) + Pad2(n % 100)
  }

  /** Reads back two digits written by `Pad2`. */
  function Read2(s: string, at: nat): nat
    requires at + 2 <= |s| && IsDigit(s[at]) && IsDigit(s[at + 1])
  {
    DigitValue(s[at]) * 10 + DigitValue(s[at + 1])
  }

  /** `strftime("%Y-%m-%d %H:%M:%S")`, the `timestamp` field a save stamps. */
  function SaveStamp(t: DateTime): (s: string)
    requires t.Valid()
    ensures |s| == 19
    ensures s[4] == '-' && s[7] == '-' && s[10] == ' ' && s[13] == ':' && s[16] == ':'
  {
    Pad4(t.year) + "-" + Pad2(t.month) + "-" + Pad2(t.day) + " "
    + Pad2(t.hour) + ":" + Pad2(t.minute) + ":" + Pad2(t.second)
  }

  /** `strftime("%Y%m%d_%H%M%S")`, the varying part of a backup file name. */
  function BackupStamp(t: DateTime): (s: string)
    requires t.Valid()
    ensures |s| == 15 && s[8] == '_'
  {
    Pad4(t.year) + Pad2(t.month) + Pad2(t.day) + "_"
    + Pad2(t.hour) + Pad2(t.minute) + Pad2(t.second)
  }

  /** The backup file name `network_config_<stamp>.json`. */
  function BackupName(t: DateTime): (name: string)
    requires t.Valid()
    ensures |name| == 35
    ensures name[..15] == "network_config_" && name[30..] == ".json"
  {
    "network_config_" + BackupStamp(t) + ".json"
  }

  /** Reads the clock back from a backup stamp. */
  function ParseBackupStamp(s: string): (t: Option<DateTime>)
    ensures t.Some? ==> |s| == 15
  {
    if |s| == 15 && s[8] == '_' && AllDigits(s[..8]) && AllDigits(s[9..]) then
      Some(DateTime(Read2(s, 0) * 100 + Read2(s, 2), Read2(s, 4), Read2(s, 6),
                    Read2(s, 9), Read2(s, 11), Read2(s, 13)))
    else None
  }

  lemma Pad2Read(n: nat, s: string, at: nat)
    requires n < 100 && at + 2 <= |s| && s[at..at + 2] == Pad2(n)
    ensures IsDigit(s[at]) && IsDigit(s[at + 1]) && Read2(s, at) == n
  {
    assert s[at] == s[at..at + 2][0] && s[at + 1] == s[at..at + 2][1];
  }

  /** The backup stamp keeps every field of the clock reading. */
  lemma {:induction false} BackupStampRoundTrip(t: DateTime)
    requires t.Valid()
    ensures ParseBackupStamp(BackupStamp(t)) == Some(t)
  {
    var s := BackupStamp(t);
    Pad2Read(t.year / 100, s, 0);
    Pad2Read(t.year % 100, s, 2);
    Pad2Read(t.month, s, 4);
    Pad2Read(t.day, s, 6);
    Pad2Read(t.hour, s, 9);
    Pad2Read(t.minute, s, 11);
    Pad2Read(t.second, s, 13);
    assert AllDigits(s[..8]) by {
      forall i | 0 <= i < 8 ensures IsDigit(s[..8][i]) {
        assert s[..8][i] == s[i];
      }
    }
    assert AllDigits(s[9..]) by {
      forall i | 0 <= i < 6 ensures IsDigit(s[9..][i]) {
        assert s[9..][i] == s[9 + i];
      }
    }
  }

  /** Backup names collide exactly when two saves happen within the same
      second; the later backup then replaces the earlier one. */
  lemma BackupNameInjective(t1: DateTime, t2: DateTime)
    requires t1.Valid() && t2.Valid()
    ensures BackupName(t1) == BackupName(t2) <==> t1 == t2
  {
    if BackupName(t1) == BackupName(t2) {
      assert BackupStamp(t1) == BackupName(t1)[15..30];
      assert BackupStamp(t2) == BackupName(t2)[15..30];
      BackupStampRoundTrip(t1);
      BackupStampRoundTrip(t2);
    }
  }

  // ------------------------------------------------------------------ files

  /** What a file holds: a well-formed JSON document, or bytes that
      `json.load` rejects (for instance a file cut short by a failed write). */
  datatype FileContent = WellFormed(doc: Json) | Malformed

  /** How the `open(..., 'w')` + `json.dump` of a save ends: written in full;
      refused at `open` (the file is untouched); or failing after `open` has
      truncated it (the file is left partial). */
  datatype WriteOutcome = Written | OpenFailed | WriteFailed

  /** The caller's dict after `save_configuration` stamped it in place. */
  function Stamped(config: Object, now: DateTime): (r: Object)
    requires now.Valid()
    ensures r.Keys == config.Keys + {"timestamp", "version"}
    ensures r["timestamp"] == JStr(SaveStamp(now)) && r["version"] == JStr("1.0")
    ensures forall k :: k in config && k != "timestamp" && k != "version" ==> r[k] == config[k]
  {
    config["timestamp" := JStr(SaveStamp(now))]["version" := JStr("1.0")]
  }

  /** What `load_configuration` returns: the document when the file exists,
      can be read, parses, and holds a JSON object (for any other document
      the `.get` call in the success message raises inside the `try`);
      `None` in every other case. */
  function LoadFrom(file: Option<FileContent>, readable: bool): (r: Option<Object>)
    ensures r.Some? <==> readable && file.Some? && file.value.WellFormed? && file.value.doc.JObj?
    ensures r.Some? ==> file == Some(WellFormed(JObj(r.value)))
  {
    match file
    case None => None
    case Some(Malformed) => None
    case Some(WellFormed(doc)) => if readable && doc.JObj? then Some(doc.fields) else None
  }

  /** A document saved and then loaded comes back with the caller's entries
      (`interfaces`, `firewall_rules`, ...) unchanged, stamped with the save
      time and version "1.0". */
  lemma SaveLoadRoundTrip(config: Object, now: DateTime)
    requires now.Valid()
    ensures var loaded := LoadFrom(Some(WellFormed(JObj(Stamped(config, now)))), true);
            && loaded.Some?
            && loaded.value["timestamp"] == JStr(SaveStamp(now))
            && loaded.value["version"] == JStr("1.0")
            && forall k :: k in config && k != "timestamp" && k != "version" ==>
                 k in loaded.value && loaded.value[k] == config[k]
  {
  }

  /** What `get_current_configuration` returns: its probes of `ip addr show`
      and `iptables -L -n` parse nothing, so it is always this document. */
  function CurrentConfiguration(): (config: Object)
    ensures config.Keys == {"interfaces", "firewall_rules"}
  {
    map["interfaces" := JObj(map[]), "firewall_rules" := JArr([])]
  }

  // ---------------------------------------------------------------- manager

  /** Which of the two directories exist: the configuration directory and
      its `backups` subdirectory. */
  datatype Directories = Directories(configDir: bool, backupDir: bool)

  /** `_ensure_directories`: both `mkdir(parents=True, exist_ok=True)` calls
      succeed on a directory that exists; a missing one needs permission to
      create it (`mayCreate`), else the `PermissionError` is re-raised,
      here `None`. */
  function EnsureDirectories(dirs: Directories, mayCreate: bool): (r: Option<Directories>)
    ensures r.Some? <==> mayCreate || (dirs.configDir && dirs.backupDir)
    ensures r.Some? ==> r.value == Directories(true, true)
  {
    if !dirs.configDir && !mayCreate then None
    else if !dirs.backupDir && !mayCreate then None
    else Some(Directories(true, true))
  }

  /** Once the directories are ready, a later manager needs no permission. */
  lemma EnsureDirectoriesSettles(dirs: Directories, mayCreate: bool)
    requires EnsureDirectories(dirs, mayCreate).Some?
    ensures EnsureDirectories(EnsureDirectories(dirs, mayCreate).value, false) == EnsureDirectories(dirs, mayCreate)
  {
  }

  class NetworkConfigManager {
    /** `network_config.json`; `None` while it does not exist. */
    var configFile: Option<FileContent>
    /** The `backups` directory: file name to content. */
    var backups: map<string, FileContent>

    /** A manager over directories that are ready, starting from the file
        and the backups on disk. */
    constructor (file: Option<FileContent>, existingBackups: map<string, FileContent>)
      ensures configFile == file && backups == existingBackups
    {
      configFile := file;
      backups := existingBackups;
    }

    /** `NetworkConfigManager(config_dir)`: prepares the directories, then
        works on what is on disk. A directory it had to create starts
        empty. `None` stands for the `PermissionError` that escapes when a
        missing directory cannot be created. */
    static method Create(dirs: Directories, mayCreate: bool,
                         file: Option<FileContent>, existingBackups: map<string, FileContent>)
      returns (m: Option<NetworkConfigManager>)
      ensures m.None? <==> EnsureDirectories(dirs, mayCreate).None?
      ensures m.Some? ==> fresh(m.value)
      ensures m.Some? ==> m.value.configFile == (if dirs.configDir then file else None)
      ensures m.Some? ==> m.value.backups == (if dirs.backupDir then existingBackups else map[])
    {
      if EnsureDirectories(dirs, mayCreate).None? {
        return None;
      }
      var manager := new NetworkConfigManager(if dirs.configDir then file else None,
                                              if dirs.backupDir then existingBackups else map[]);
      m := Some(manager);
    }

    /** `_create_backup`: copies the current file verbatim under the name
        stamped with `now`, replacing a backup of the same name; a failing
        copy (`copyOk` false, or no file to copy) is only a warning. */
    method CreateBackup(now: DateTime, copyOk: bool)
      requires now.Valid()
      modifies this
      ensures configFile == old(configFile)
      ensures backups == if copyOk && old(configFile).Some?
                         then old(backups)[BackupName(now) := old(configFile).value]
                         else old(backups)
    {
      if copyOk && configFile.Some? {
        backups := backups[BackupName(now) := configFile.value];
      }
    }

    /** `save_configuration`: stamps the caller's dict, backs up the existing
        file (only if there is one), then overwrites the file. Returns true
        exactly when the write went through. */
    method SaveConfiguration(config: Object, now: DateTime, backupTime: DateTime,
                             copyOk: bool, write: WriteOutcome)
      returns (ok: bool, stamped: Object)
      requires now.Valid() && backupTime.Valid()
      modifies this
      ensures stamped == Stamped(config, now)
      ensures ok <==> write == Written
      ensures backups == if copyOk && old(configFile).Some?
                         then old(backups)[BackupName(backupTime) := old(configFile).value]
                         else old(backups)
      ensures configFile == match write
                            case Written => Some(WellFormed(JObj(stamped)))
                            case OpenFailed => old(configFile)
                            case WriteFailed => Some(Malformed)
    {
      stamped := config["timestamp" := JStr(SaveStamp(now))];
      stamped := stamped["version" := JStr("1.0")];
      if configFile.Some? {
        CreateBackup(backupTime, copyOk);
      }
      match write {
        case Written =>
          configFile := Some(WellFormed(JObj(stamped)));
          ok := true;
        case OpenFailed =>
          ok := false;
        case WriteFailed =>
          configFile := Some(Malformed);
          ok := false;
      }
    }

    /** `load_configuration`: never raises; `None` for a missing, unreadable
        or corrupt file. */
    method LoadConfiguration(readable: bool) returns (loaded: Option<Object>)
      ensures loaded == LoadFrom(configFile, readable)
      ensures configFile.None? ==> loaded.None?
      ensures configFile == Some(Malformed) ==> loaded.None?
    {
      if configFile.None? {
        return None;
      }
      match configFile.value {
        case Malformed =>
          loaded := None;
        case WellFormed(doc) =>
          loaded := if readable && doc.JObj? then Some(doc.fields) else None;
      }
    }
  }

  /** The module's own test (save, then load, then compare `interfaces` and
      `firewall_rules`), stated for every document and clock reading. */
  method SaveThenLoad(m: NetworkConfigManager, config: Object, now: DateTime,
                      backupTime: DateTime, copyOk: bool)
    returns (loaded: Option<Object>)
    requires now.Valid() && backupTime.Valid()
    modifies m
    ensures loaded.Some?
    ensures "interfaces" in config ==> "interfaces" in loaded.value
                                       && loaded.value["interfaces"] == config["interfaces"]
    ensures "firewall_rules" in config ==> "firewall_rules" in loaded.value
                                           && loaded.value["firewall_rules"] == config["firewall_rules"]
  {
    var ok, stamped := m.SaveConfiguration(config, now, backupTime, copyOk, Written);
    loaded := m.LoadConfiguration(true);
  }

  /** Two saves into an empty store leave exactly one backup, holding what the
      first save wrote. */
  method SaveTwice(c1: Object, c2: Object, t1: DateTime, t2: DateTime, b2: DateTime)
    returns (m: NetworkConfigManager)
    requires t1.Valid() && t2.Valid() && b2.Valid()
    ensures m.backups == map[BackupName(b2) := WellFormed(JObj(Stamped(c1, t1)))]
    ensures m.configFile == Some(WellFormed(JObj(Stamped(c2, t2))))
  {
    m := new NetworkConfigManager(None, map[]);
    var ok1, s1 := m.SaveConfiguration(c1, t1, t1, true, Written);
    var ok2, s2 := m.SaveConfiguration(c2, t2, b2, true, Written);
  }
}
