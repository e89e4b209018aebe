/** The settings reader of the dashboard: the summary drawn from the user's
    settings file (model, enabled plugins, MCP servers, allowed permissions)
    and a reader that keeps the summary for thirty seconds. Finding, reading
    and parsing the file are not part of this model: each read is given what
    the file holds at that moment, already parsed. */
module Settings {
  import opened Text

  /** An entry of `mcpServers`. */
  datatype McpServer = McpServer(kind: string, url: string)

  datatype Permissions = Permissions(allow: Option<seq<string>>)

  /** The parsed settings document. A missing (or falsy) field is None; an
      object's entries are listed in the order the document gives them. */
  datatype ClaudeSettings = ClaudeSettings(
    model: Option<string>,
    enabledPlugins: Option<seq<(string, bool)>>,
    mcpServers: Option<seq<(string, McpServer)>>,
    permissions: Option<Permissions>)

  /** What the settings path holds when it is read. */
  datatype SettingsFile = Missing | Unparsable | Parsed(settings: ClaudeSettings)

  datatype SettingsData = SettingsData(
    model: string,
    pluginCount: nat,
    pluginNames: seq<string>,
    mcpCount: nat,
    mcpNames: seq<string>,
    allowedPermissions: seq<string>)

  /** `name.split('@')[0]`: a plugin key up to its first `@`. */
  function BeforeAt(name: string): (r: string)
    ensures StartsWith(name, r)
    ensures '@' !in r
    ensures r == name || name[|r|] == '@'
  {
    JoinSplit(name, '@');
    var pieces := Split(name, '@');
    if |pieces| == 1 then
      assert Join(pieces, "@") == pieces[0];
      pieces[0]
    else
      assert name == pieces[0] + "@" + Join(pieces[1..], "@");
      assert name[..|pieces[0]|] == pieces[0];
      pieces[0]
  }

  /** The names of the enabled plugins, in entry order: the entries whose
      value is true, each key cut at its first `@`. */
  function EnabledNames(entries: seq<(string, bool)>): (r: seq<string>)
    ensures |r| <= |entries|
    ensures (forall i :: 0 <= i < |entries| ==> !entries[i].1) ==> r == []
    ensures (forall i :: 0 <= i < |entries| ==> entries[i].1) ==> |r| == |entries|
  {
    if entries == [] then []
    else
      var last := entries[|entries| - 1];
      EnabledNames(entries[..|entries| - 1]) + (if last.1 then [BeforeAt(last.0)] else [])
  }

  /** `Object.keys`: the keys in entry order. */
  function Keys<V>(entries: seq<(string, V)>): (keys: seq<string>)
    ensures |keys| == |entries|
    ensures forall i :: 0 <= i < |entries| ==> keys[i] == entries[i].0
  {
    if entries == [] then [] else Keys(entries[..|entries| - 1]) + [entries[|entries| - 1].0]
  }

  /** `readSettings`: None where the file is missing or cannot be parsed;
      otherwise the summary of the settings. */
  function ReadSettings(file: SettingsFile): (r: Option<SettingsData>)
    ensures r.Some? <==> file.Parsed?
    ensures r.Some? ==> r.value.pluginCount == |r.value.pluginNames| && r.value.mcpCount == |r.value.mcpNames|
    ensures file.Parsed? ==>
      var settings := file.settings;
      (settings.model.Some? && settings.model.value != "" ==> r.value.model == settings.model.value)
      && (settings.model.None? || settings.model.value == "" ==> r.value.model == "unknown")
    ensures file.Parsed? ==>
      var settings := file.settings;
      (settings.mcpServers.None? ==> r.value.mcpNames == [])
      && (settings.mcpServers.Some? ==>
            r.value.mcpCount == |settings.mcpServers.value|
            && forall i :: 0 <= i < r.value.mcpCount ==> r.value.mcpNames[i] == settings.mcpServers.value[i].0)
    ensures file.Parsed? ==>
      var settings := file.settings;
      (settings.permissions.Some? && settings.permissions.value.allow.Some? ==>
         r.value.allowedPermissions == settings.permissions.value.allow.value)
      && (settings.permissions.None? || settings.permissions.value.allow.None? ==> r.value.allowedPermissions == [])
    ensures file.Parsed? && file.settings.enabledPlugins.None? ==> r.value.pluginNames == []
    ensures file.Parsed? && file.settings.enabledPlugins.Some? ==>
      r.value.pluginNames == EnabledNames(file.settings.enabledPlugins.value)
  {
    match file
    case Parsed(settings) =>
      var pluginNames := EnabledNames(if settings.enabledPlugins.Some? then settings.enabledPlugins.value else []);
      var mcpNames := Keys(if settings.mcpServers.Some? then settings.mcpServers.value else []);
      Some(SettingsData(
        if settings.model.Some? && settings.model.value != "" then settings.model.value else "unknown",
        |pluginNames|,
        pluginNames,
        |mcpNames|,
        mcpNames,
        if settings.permissions.Some? && settings.permissions.value.allow.Some?
        then settings.permissions.value.allow.value else []))
    case _ => None
  }

  /** The enabled names of two runs of entries are those of each run, in order. */
  lemma {:induction false} EnabledNamesAppend(a: seq<(string, bool)>, b: seq<(string, bool)>)
    ensures EnabledNames(a + b) == EnabledNames(a) + EnabledNames(b)
    decreases |b|
  {
    if b == [] {
      assert a + b == a;
    } else {
      assert (a + b)[..|a + b| - 1] == a + b[..|b| - 1];
      EnabledNamesAppend(a, b[..|b| - 1]);
    }
  }

  /** One entry contributes its cut name when enabled and nothing otherwise. */
  lemma EnabledNamesSingle(name: string, enabled: bool)
    ensures EnabledNames([(name, enabled)]) == if enabled then [BeforeAt(name)] else []
  {
    assert [(name, enabled)][..0] == [];
  }

  /** Every enabled entry is named, and every name is the cut key of an enabled entry. */
  lemma {:induction false} EnabledNamesMembers(entries: seq<(string, bool)>)
    ensures forall i :: 0 <= i < |entries| && entries[i].1 ==> BeforeAt(entries[i].0) in EnabledNames(entries)
    ensures forall n :: n in EnabledNames(entries) ==>
      exists i :: 0 <= i < |entries| && entries[i].1 && n == BeforeAt(entries[i].0)
  {
    if entries != [] {
      var init := entries[..|entries| - 1];
      EnabledNamesMembers(init);
      forall i | 0 <= i < |entries| && entries[i].1
        ensures BeforeAt(entries[i].0) in EnabledNames(entries)
      {
        if i < |init| {
          assert entries[i] == init[i];
        }
      }
      forall n | n in EnabledNames(entries)
        ensures exists i :: 0 <= i < |entries| && entries[i].1 && n == BeforeAt(entries[i].0)
      {
        if n in EnabledNames(init) {
          var i :| 0 <= i < |init| && init[i].1 && n == BeforeAt(init[i].0);
          assert entries[i] == init[i];
        } else {
          assert entries[|entries| - 1].1 && n == BeforeAt(entries[|entries| - 1].0);
        }
      }
    }
  }

  /** Two enabled plugins, one disabled, from the same marketplace-qualified keys. */
  lemma PluginExample()
    ensures EnabledNames([("a@m", true), ("b@m", false), ("c", true)]) == ["a", "c"]
  {
    var entries := [("a@m", true), ("b@m", false), ("c", true)];
    assert entries == [("a@m", true)] + [("b@m", false)] + [("c", true)];
    EnabledNamesAppend([("a@m", true)] + [("b@m", false)], [("c", true)]);
    EnabledNamesAppend([("a@m", true)], [("b@m", false)]);
    EnabledNamesSingle("a@m", true);
    EnabledNamesSingle("b@m", false);
    EnabledNamesSingle("c", true);
    assert BeforeAt("a@m") == "a" by {
      assert StartsWith("a@m", BeforeAt("a@m"));
    }
    assert BeforeAt("c") == "c";
  }

  // ---------------------------------------------------------------------
  // The caching reader

  /** A summary younger than this (in milliseconds) is reused. */
  const REFRESH_INTERVAL: int := 30000

  /** `SettingsReader`: the summary of the last read and when it was made. */
  class SettingsReader {
    var data: Option<SettingsData>
    var lastRead: int
    const settingsPath: string

    constructor(settingsPath: string)
      ensures data == None && lastRead == 0 && this.settingsPath == settingsPath
    {
      data := None;
      lastRead := 0;
      this.settingsPath := settingsPath;
    }

    /** The summary must be read again at time `now`: there is none, or it
        is more than thirty seconds old. */
    predicate Stale(now: int)
      reads this
    {
      data.None? || now - lastRead > REFRESH_INTERVAL
    }

    /** `read` at time `now`, when the file holds `file`: re-reads only when
        the summary is stale, and answers with the summary. */
    method Read(now: int, file: SettingsFile) returns (r: Option<SettingsData>)
      modifies this
      ensures old(Stale(now)) ==> data == ReadSettings(file) && lastRead == now
      ensures !old(Stale(now)) ==> data == old(data) && lastRead == old(lastRead)
      ensures r == data
    {
      if data.None? || now - lastRead > REFRESH_INTERVAL {
        data := ReadSettings(file);
        lastRead := now;
      }
      r := data;
    }

    /** `forceRefresh`: re-reads whatever the age of the summary. */
    method ForceRefresh(now: int, file: SettingsFile) returns (r: Option<SettingsData>)
      modifies this
      ensures data == ReadSettings(file) && lastRead == now
      ensures r == data
    {
      data := ReadSettings(file);
      lastRead := now;
      r := data;
    }
  }

  /** Within thirty seconds of a successful read the same summary is
      returned, even if the file has changed in between. */
  method ReadWithinInterval(t0: int, t1: int, f0: SettingsFile, f1: SettingsFile)
    returns (first: Option<SettingsData>, second: Option<SettingsData>)
    requires f0.Parsed? && t1 - t0 <= REFRESH_INTERVAL
    ensures first == ReadSettings(f0) && second == first
  {
    var reader := new SettingsReader("settings.json");
    first := reader.Read(t0, f0);
    second := reader.Read(t1, f1);
  }

  /** A read that found no file leaves nothing cached: the next read, however
      soon, looks at the file again. */
  method ReadAfterMissing(t0: int, t1: int, f1: SettingsFile)
    returns (first: Option<SettingsData>, second: Option<SettingsData>)
    ensures first == None && second == ReadSettings(f1)
  {
    var reader := new SettingsReader("settings.json");
    first := reader.Read(t0, Missing);
    second := reader.Read(t1, f1);
  }

  /** After a forced refresh the next read within thirty seconds reuses it. */
  method RefreshThenRead(t0: int, t1: int, f0: SettingsFile, f1: SettingsFile)
    returns (refreshed: Option<SettingsData>, second: Option<SettingsData>)
    requires f0.Parsed? && t1 - t0 <= REFRESH_INTERVAL
    ensures refreshed == ReadSettings(f0) && second == refreshed
  {
    var reader := new SettingsReader("settings.json");
    refreshed := reader.ForceRefresh(t0, f0);
    second := reader.Read(t1, f1);
  }
}
