/** The plugin configuration endpoint: the registry lookup it performs when a
    plugin is installed, and the four request handlers that change the
    stored configuration (add a plugin, save a whole configuration, update
    one plugin, remove one plugin). The configuration file is the object
    `ConfigFile`; its `plugins` map is what the handlers write back. */
module PluginConfig {
  import opened Wrappers
  import opened Json
  import opened JsText
  import opened Versions
  import opened Registry

  // ------------------------------------------------------ registry lookup

  /** What `fetchPluginDataFromRegistry` returns for a plugin it can
      resolve. */
  datatype Resolution = Resolution(version: string, environment: Option<map<string, Json>>, settings: Option<Json>)

  /** The metadata's `environment` is taken only when it is a non-array
      object. */
  function AcceptedEnvironment(e: Option<Json>): (r: Option<map<string, Json>>)
    ensures r.Some? <==> e.Some? && e.value.JObj?
    ensures r.Some? ==> e == Some(JObj(r.value))
  {
    if e.Some? && e.value.JObj? then Some(e.value.fields) else None
  }

  /** The metadata's `settings` is taken when it is an object of any kind,
      arrays included. */
  function AcceptedSettings(s: Option<Json>): (r: Option<Json>)
    ensures r.Some? <==> s.Some? && (s.value.JObj? || s.value.JArr?)
    ensures r.Some? ==> r == s
  {
    if s.Some? && (s.value.JObj? || s.value.JArr?) then s else None
  }

  /** `fetchPluginDataFromRegistry`: the latest version, with the
      environment and settings of its metadata document when that document
      can be read. */
  function FetchPluginData(remote: Remote, name: string): Option<Resolution>
  {
    match LatestVersion(remote.registry, name)
    case None => None
    case Some(v) =>
      if (name, v) in remote.documents then
        var m := remote.documents[(name, v)];
        Some(Resolution(v, AcceptedEnvironment(m.environment), AcceptedSettings(m.settings)))
      else
        Some(Resolution(v, None, None))
  }

  /** A plugin resolves exactly when it has a latest version; a metadata
      document that is missing or unreadable still yields that version, with
      neither environment nor settings; a readable document gives its
      accepted environment and settings. */
  lemma FetchPluginDataSpec(remote: Remote, name: string)
    ensures FetchPluginData(remote, name).None? <==> LatestVersion(remote.registry, name).None?
    ensures FetchPluginData(remote, name).Some? ==>
      var r := FetchPluginData(remote, name).value;
      var v := LatestVersion(remote.registry, name).value;
      && r.version == v
      && ((name, v) !in remote.documents ==> r.environment.None? && r.settings.None?)
      && (r.environment.Some? ==> (name, v) in remote.documents && remote.documents[(name, v)].environment == Some(JObj(r.environment.value)))
      && (r.settings.Some? ==> (name, v) in remote.documents && remote.documents[(name, v)].settings == r.settings)
      && ((name, v) in remote.documents ==>
            && r.environment == AcceptedEnvironment(remote.documents[(name, v)].environment)
            && r.settings == AcceptedSettings(remote.documents[(name, v)].settings))
  {
  }

  // ------------------------------------------------------------- records

  /** One value of the configuration's `plugins` map. */
  datatype PluginRecord = PluginRecord(
    version: string,
    enabled: bool,
    installedAt: string,
    environment: Option<map<string, Json>>,
    settings: Option<map<string, Json>>,
    dependencies: Option<seq<Dependency>>,
    isDependency: bool,
    dependentPlugin: Option<string>)

  datatype ConfigMetadata = ConfigMetadata(lastUpdated: string, version: string)

  /** The metadata every successful write stores: the time of the write,
      and the previous version or "1.0.0" when there is none. */
  function NextMetadata(previousVersion: Option<string>, now: string): (m: ConfigMetadata)
    ensures m.lastUpdated == now
    ensures m.version != ""
    ensures previousVersion.Some? && previousVersion.value != "" ==> m.version == previousVersion.value
  {
    ConfigMetadata(now, if previousVersion.Some? && previousVersion.value != "" then previousVersion.value else "1.0.0")
  }

  function VersionOf(m: Option<ConfigMetadata>): Option<string>
  {
    if m.Some? then Some(m.value.version) else None
  }

  /** An HTTP status and the `error` text of the response body. */
  datatype HttpError = HttpError(status: nat, message: string)

  /** A request field used only when it is a non-empty string. */
  predicate Given(p: Option<string>)
  {
    p.Some? && p.value != ""
  }

  /** `{ ...base, ...top }`: the keys of both, `top` winning. */
  function Overlay(base: map<string, Json>, top: map<string, Json>): (r: map<string, Json>)
    ensures r.Keys == base.Keys + top.Keys
    ensures forall k :: k in top ==> r[k] == top[k]
    ensures forall k :: k in base && k !in top ==> r[k] == base[k]
  {
    base + top
  }

  function OrEmptyMap(m: Option<map<string, Json>>): map<string, Json>
  {
    if m.Some? then m.value else map[]
  }

  // ----------------------------------------------------------- add-plugin

  /** The `plugin` of an add-plugin request. */
  datatype AddRequest = AddRequest(
    name: Option<string>,
    version: Option<string>,
    enabled: Option<bool>,
    settings: Option<map<string, Json>>,
    environment: Option<map<string, Json>>,
    dependencies: Option<seq<Dependency>>)

  datatype AddReply = AddReply(message: string, name: string, plugin: PluginRecord, dependenciesInstalled: nat)

  /** The record stored for the requested plugin. */
  function NewPluginRecord(req: AddRequest, resolved: Option<Resolution>, now: string): PluginRecord
    requires Given(req.version)
  {
    var registryEnvironment := if resolved.Some? then resolved.value.environment else None;
    PluginRecord(
      version := if resolved.Some? && resolved.value.version != "" then resolved.value.version else req.version.value,
      enabled := if req.enabled.Some? then req.enabled.value else true,
      installedAt := now,
      environment :=
        if registryEnvironment.Some? || req.environment.Some? then
          Some(Overlay(OrEmptyMap(registryEnvironment), OrEmptyMap(req.environment)))
        else None,
      settings := if req.settings.Some? && |req.settings.value| > 0 then req.settings else None,
      dependencies := None,
      isDependency := false,
      dependentPlugin := None)
  }

  /** The record stored for an installed dependency: enabled, at the
      registry's version, with the registry's environment when it has keys,
      and without any dependency tag. */
  function DependencyRecord(resolved: Resolution, now: string): PluginRecord
  {
    PluginRecord(
      version := resolved.version,
      enabled := true,
      installedAt := now,
      environment :=
        if resolved.environment.Some? && |resolved.environment.value| > 0 then resolved.environment else None,
      settings := None,
      dependencies := None,
      isDependency := false,
      dependentPlugin := None)
  }

  /** A stored pair that a dependency entry may produce: a name absent from
      `present` that `lookup` resolves, with its dependency record. */
  predicate Installable(p: (string, PluginRecord), present: map<string, PluginRecord>, lookup: string -> Option<Resolution>, now: string)
  {
    p.0 !in present && lookup(p.0).Some? && p.1 == DependencyRecord(lookup(p.0).value, now)
  }

  /** What one dependency entry contributes: nothing when its name is
      already present or `lookup` cannot resolve it, otherwise its
      record. */
  function InstallStep(d: Dependency, present: map<string, PluginRecord>, lookup: string -> Option<Resolution>, now: string): (r: seq<(string, PluginRecord)>)
    ensures |r| <= 1
    ensures r != [] ==> r[0].0 == d.name && Installable(r[0], present, lookup, now)
    ensures r == [] <==> d.name in present || lookup(d.name).None?
  {
    if d.name in present then []
    else match lookup(d.name)
         case None => []
         case Some(res) => [(d.name, DependencyRecord(res, now))]
  }

  /** The dependencies that get installed, in request order. */
  function Resolved(deps: seq<Dependency>, present: map<string, PluginRecord>, lookup: string -> Option<Resolution>, now: string): seq<(string, PluginRecord)>
  {
    if deps == [] then []
    else Resolved(deps[..|deps| - 1], present, lookup, now) + InstallStep(deps[|deps| - 1], present, lookup, now)
  }

  /** Some entry of `deps` is named `n`. */
  predicate Declared(deps: seq<Dependency>, n: string)
  {
    exists j :: 0 <= j < |deps| && deps[j].name == n
  }

  /** Stores each pair in turn, so a later pair for the same name wins. */
  function InsertAll(m: map<string, PluginRecord>, pairs: seq<(string, PluginRecord)>): map<string, PluginRecord>
  {
    if pairs == [] then m
    else InsertAll(m, pairs[..|pairs| - 1])[pairs[|pairs| - 1].0 := pairs[|pairs| - 1].1]
  }

  /** Why an add-plugin request is refused, checked before anything is
      written. */
  function AddError(plugins: map<string, PluginRecord>, req: AddRequest): Option<HttpError>
  {
    if !Given(req.name) || !Given(req.version) then
      Some(HttpError(400, "Invalid plugin data: name and version are required"))
    else if req.name.value in plugins then
      Some(HttpError(409, "Plugin already installed"))
    else None
  }

  /** The registry lookup made for each dependency. */
  function Lookup(remote: Remote): string -> Option<Resolution>
  {
    n => FetchPluginData(remote, n)
  }

  function Deps(req: AddRequest): seq<Dependency>
  {
    if req.dependencies.Some? then req.dependencies.value else []
  }

  /** The plugin map after an accepted add-plugin request, `lookup` being
      the registry lookup. */
  function AfterAdd(plugins: map<string, PluginRecord>, req: AddRequest, lookup: string -> Option<Resolution>, now: string): map<string, PluginRecord>
    requires AddError(plugins, req).None?
  {
    var name := req.name.value;
    var withPrimary := plugins[name := NewPluginRecord(req, lookup(name), now)];
    InsertAll(withPrimary, Resolved(Deps(req), withPrimary, lookup, now))
  }

  /** The response to an add-plugin request. */
  function AddResponse(plugins: map<string, PluginRecord>, req: AddRequest, lookup: string -> Option<Resolution>, now: string): Result<AddReply, HttpError>
  {
    match AddError(plugins, req)
    case Some(e) => Failure(e)
    case None =>
      var name := req.name.value;
      Success(AddReply(
        "Plugin " + name + " installed successfully",
        name,
        NewPluginRecord(req, lookup(name), now),
        |Deps(req)|))
  }

  /** A request without a name or version is refused with 400, a name that
      is already installed with 409; the registry is not consulted for
      either. */
  lemma AddErrorSpec(plugins: map<string, PluginRecord>, req: AddRequest, lookup: string -> Option<Resolution>, now: string)
    ensures AddError(plugins, req).Some? <==> !Given(req.name) || !Given(req.version) || req.name.value in plugins
    ensures AddError(plugins, req).Some? ==>
      AddError(plugins, req).value.status == (if !Given(req.name) || !Given(req.version) then 400 else 409)
    ensures AddResponse(plugins, req, lookup, now).Failure? <==> AddError(plugins, req).Some?
    ensures AddResponse(plugins, req, lookup, now).Success? ==>
      var reply := AddResponse(plugins, req, lookup, now).value;
      reply.name == req.name.value && reply.dependenciesInstalled == |Deps(req)|
  {
  }

  /** The stored record: the registry's version when it resolves to a
      non-empty one, otherwise the requested version; enabled unless the
      request says otherwise; an environment exactly when the registry or
      the request supplies one, holding the request's keys and, under the
      other keys, the registry's defaults; settings only when the request
      has some; no dependency list and no dependency tag. */
  lemma NewPluginRecordSpec(req: AddRequest, resolved: Option<Resolution>, now: string)
    requires Given(req.version)
    ensures var r := NewPluginRecord(req, resolved, now);
      && (resolved.Some? && resolved.value.version != "" ==> r.version == resolved.value.version)
      && (resolved.None? || resolved.value.version == "" ==> r.version == req.version.value)
      && (r.enabled <==> req.enabled != Some(false))
      && r.installedAt == now
      && (r.environment.Some? <==> (resolved.Some? && resolved.value.environment.Some?) || req.environment.Some?)
      && (r.environment.Some? && req.environment.Some? ==>
            forall k :: k in req.environment.value ==> k in r.environment.value && r.environment.value[k] == req.environment.value[k])
      && (r.environment.Some? && resolved.Some? && resolved.value.environment.Some? ==>
            forall k :: k in resolved.value.environment.value && (req.environment.None? || k !in req.environment.value) ==>
              k in r.environment.value && r.environment.value[k] == resolved.value.environment.value[k])
      && (r.environment.Some? ==> forall k :: k in r.environment.value ==>
            (req.environment.Some? && k in req.environment.value) || (resolved.Some? && resolved.value.environment.Some? && k in resolved.value.environment.value))
      && (r.settings.Some? <==> req.settings.Some? && req.settings.value != map[])
      && (r.settings.Some? ==> r.settings == req.settings)
      && r.dependencies.None? && !r.isDependency && r.dependentPlugin.None?
  {
    var r := NewPluginRecord(req, resolved, now);
    if req.settings.Some? && req.settings.value != map[] {
      var k :| k in req.settings.value;
    }
  }

  /** Every installed pair is installable and comes from a declared
      dependency. */
  lemma {:induction false} ResolvedSound(deps: seq<Dependency>, present: map<string, PluginRecord>, lookup: string -> Option<Resolution>, now: string)
    ensures forall p :: p in Resolved(deps, present, lookup, now) ==> Installable(p, present, lookup, now) && Declared(deps, p.0)
  {
    if deps != [] {
      var init := deps[..|deps| - 1];
      ResolvedSound(init, present, lookup, now);
      forall n | Declared(init, n) ensures Declared(deps, n) {
        var j :| 0 <= j < |init| && init[j].name == n;
        assert deps[j] == init[j];
      }
      var step := InstallStep(deps[|deps| - 1], present, lookup, now);
      if step != [] {
        assert Declared(deps, step[0].0) by { assert deps[|deps| - 1].name == step[0].0; }
      }
    }
  }

  /** Every declared dependency that is absent and resolvable is
      installed. */
  lemma {:induction false} ResolvedComplete(deps: seq<Dependency>, present: map<string, PluginRecord>, lookup: string -> Option<Resolution>, now: string)
    ensures forall j :: 0 <= j < |deps| && InstallStep(deps[j], present, lookup, now) != [] ==>
      InstallStep(deps[j], present, lookup, now)[0] in Resolved(deps, present, lookup, now)
  {
    if deps != [] {
      var init := deps[..|deps| - 1];
      ResolvedComplete(init, present, lookup, now);
      assert forall j :: 0 <= j < |init| ==> init[j] == deps[j];
    }
  }

  lemma {:induction false} InsertAllSpec(m: map<string, PluginRecord>, pairs: seq<(string, PluginRecord)>)
    ensures forall k :: k in InsertAll(m, pairs) <==> k in m || exists i :: 0 <= i < |pairs| && pairs[i].0 == k
    ensures forall k :: k in m && (forall i :: 0 <= i < |pairs| ==> pairs[i].0 != k) ==> InsertAll(m, pairs)[k] == m[k]
    ensures forall k :: k in InsertAll(m, pairs) && (exists i :: 0 <= i < |pairs| && pairs[i].0 == k) ==>
      exists i :: 0 <= i < |pairs| && pairs[i] == (k, InsertAll(m, pairs)[k])
  {
    if pairs != [] {
      var init := pairs[..|pairs| - 1];
      InsertAllSpec(m, init);
      assert forall i :: 0 <= i < |init| ==> init[i] == pairs[i];
    }
  }

  /** An accepted add-plugin request stores the new record under its name,
      leaves every existing entry as it was, and adds exactly the declared
      dependencies that were absent and that the registry resolves, each
      with its dependency record. */
  lemma AfterAddSpec(plugins: map<string, PluginRecord>, req: AddRequest, lookup: string -> Option<Resolution>, now: string)
    requires AddError(plugins, req).None?
    ensures var after := AfterAdd(plugins, req, lookup, now);
      var name := req.name.value;
      && name in after && after[name] == NewPluginRecord(req, lookup(name), now)
      && (forall k :: k in plugins ==> k in after && after[k] == plugins[k])
      && (forall k :: k in after <==>
            || k in plugins || k == name
            || (lookup(k).Some? && Declared(Deps(req), k)))
      && (forall k :: k in after && k !in plugins && k != name ==>
            && lookup(k).Some?
            && after[k] == DependencyRecord(lookup(k).value, now)
            && !after[k].isDependency)
  {
    var name := req.name.value;
    var withPrimary := plugins[name := NewPluginRecord(req, lookup(name), now)];
    assert AfterAdd(plugins, req, lookup, now) == InsertAll(withPrimary, Resolved(Deps(req), withPrimary, lookup, now));
    InsertResolvedKeeps(Deps(req), withPrimary, lookup, now);
    InsertResolvedKeys(Deps(req), withPrimary, lookup, now);
    InsertResolvedRecords(Deps(req), withPrimary, lookup, now);
  }

  /** Installing the resolved dependencies keeps every present entry. */
  lemma InsertResolvedKeeps(deps: seq<Dependency>, present: map<string, PluginRecord>, lookup: string -> Option<Resolution>, now: string)
    ensures var after := InsertAll(present, Resolved(deps, present, lookup, now));
      forall k :: k in present ==> k in after && after[k] == present[k]
  {
    var pairs := Resolved(deps, present, lookup, now);
    ResolvedSound(deps, present, lookup, now);
    InsertAllSpec(present, pairs);
    forall k | k in present ensures forall i :: 0 <= i < |pairs| ==> pairs[i].0 != k {
      forall i | 0 <= i < |pairs| ensures pairs[i].0 != k {
        assert pairs[i] in pairs;
      }
    }
  }

  /** Installing the resolved dependencies adds exactly the declared names
      that were absent and resolvable. */
  lemma InsertResolvedKeys(deps: seq<Dependency>, present: map<string, PluginRecord>, lookup: string -> Option<Resolution>, now: string)
    ensures var after := InsertAll(present, Resolved(deps, present, lookup, now));
      forall k :: k in after <==> k in present || (lookup(k).Some? && Declared(deps, k))
  {
    var pairs := Resolved(deps, present, lookup, now);
    var after := InsertAll(present, pairs);
    ResolvedSound(deps, present, lookup, now);
    ResolvedComplete(deps, present, lookup, now);
    InsertAllSpec(present, pairs);
    forall k | lookup(k).Some? && Declared(deps, k) && k !in present
      ensures k in after
    {
      var j :| 0 <= j < |deps| && deps[j].name == k;
      var p := InstallStep(deps[j], present, lookup, now)[0];
      var i :| 0 <= i < |pairs| && pairs[i] == p;
    }
    forall k | k in after && k !in present
      ensures lookup(k).Some? && Declared(deps, k)
    {
      var i :| 0 <= i < |pairs| && pairs[i].0 == k;
      assert pairs[i] in pairs;
    }
  }

  /** Every entry the installation adds is the dependency record of what
      `lookup` resolved. */
  lemma InsertResolvedRecords(deps: seq<Dependency>, present: map<string, PluginRecord>, lookup: string -> Option<Resolution>, now: string)
    ensures var after := InsertAll(present, Resolved(deps, present, lookup, now));
      forall k :: k in after && k !in present ==>
        lookup(k).Some? && after[k] == DependencyRecord(lookup(k).value, now)
  {
    var pairs := Resolved(deps, present, lookup, now);
    var after := InsertAll(present, pairs);
    ResolvedSound(deps, present, lookup, now);
    InsertAllSpec(present, pairs);
    forall k | k in after && k !in present
      ensures lookup(k).Some? && after[k] == DependencyRecord(lookup(k).value, now)
    {
      var i :| 0 <= i < |pairs| && pairs[i] == (k, after[k]);
      assert pairs[i] in pairs;
    }
  }

  /** Removing a plugin that was just added without dependencies restores
      the plugin map, provided no stored record was tagged as its
      dependency. */
  lemma AddThenRemove(plugins: map<string, PluginRecord>, req: AddRequest, lookup: string -> Option<Resolution>, now: string)
    requires AddError(plugins, req).None? && Deps(req) == []
    requires forall k :: k in plugins ==> !TaggedFor(plugins[k], req.name.value)
    ensures AfterRemove(AfterAdd(plugins, req, lookup, now), req.name.value) == plugins
  {
    var name := req.name.value;
    var after := AfterAdd(plugins, req, lookup, now);
    AfterAddSpec(plugins, req, lookup, now);
    var back := AfterRemove(after, name);
    assert forall k :: k in back <==> k in plugins;
  }

  /** Dependencies installed by add-plugin carry no tag, so removing the
      plugin that pulled them in keeps them. */
  lemma AddedDependenciesOutliveRemoval(plugins: map<string, PluginRecord>, req: AddRequest, lookup: string -> Option<Resolution>, now: string, k: string)
    requires AddError(plugins, req).None?
    requires k in AfterAdd(plugins, req, lookup, now) && k !in plugins && k != req.name.value
    ensures k in AfterRemove(AfterAdd(plugins, req, lookup, now), req.name.value)
  {
    AfterAddSpec(plugins, req, lookup, now);
  }

  // ------------------------------------------------------ full-config save

  /** A submitted plugin record; `version` is whatever JSON value the
      field holds, if any. */
  datatype SubmittedRecord = SubmittedRecord(
    version: Option<Json>,
    enabled: bool,
    installedAt: string,
    environment: Option<map<string, Json>>,
    settings: Option<map<string, Json>>,
    dependencies: Option<seq<Dependency>>,
    isDependency: bool,
    dependentPlugin: Option<string>)

  /** A value of the submitted `plugins` object. */
  datatype SubmittedValue =
    | RecordValue(record: SubmittedRecord)
    | ArrayValue(items: seq<Json>)
    | ScalarValue(scalar: Scalar)

  predicate DistinctKeys(es: seq<(string, SubmittedValue)>)
  {
    forall i, j :: 0 <= i < j < |es| ==> es[i].0 != es[j].0
  }

  type SubmittedEntries = es: seq<(string, SubmittedValue)> | DistinctKeys(es)

  /** The submitted `plugins` field. */
  datatype SubmittedPlugins =
    | PluginsObject(entries: SubmittedEntries)
    | PluginsArray(items: seq<Json>)
    | PluginsScalar(scalar: Scalar)

  /** A submitted configuration: its `plugins` field, if present, and its
      `metadata.version`, if present. */
  datatype SubmittedConfig = SubmittedConfig(plugins: Option<SubmittedPlugins>, metadataVersion: Option<string>)

  const PluginsRequired := "Invalid configuration: plugins object is required"
  const PluginsIsArray := "Invalid configuration: plugins must be an object, not an array"
  const NameInvalid := "Invalid plugin structure: plugin name must be a valid string"

  function NotAnObject(name: string): string
  {
    "Invalid plugin structure for " + name + ": plugin data must be an object"
  }

  function VersionInvalid(name: string): string
  {
    "Invalid plugin structure for " + name + ": version is required and must be a string"
  }

  /** A submitted record whose version is a non-empty string. */
  predicate HasVersion(v: SubmittedValue)
  {
    v.RecordValue? && v.record.version.Some? && v.record.version.value.JStr? && v.record.version.value.s != ""
  }

  /** The check of one entry, in the order the handler makes it. */
  function EntryError(name: string, v: SubmittedValue): (e: Option<string>)
    ensures e.None? <==> name != "" && HasVersion(v)
  {
    if name == "" then Some(NameInvalid)
    else if v.ScalarValue? then Some(NotAnObject(name))
    else if !HasVersion(v) then Some(VersionInvalid(name))
    else None
  }

  /** The error of the first entry that fails its check. */
  function FirstEntryError(es: seq<(string, SubmittedValue)>): Option<string>
  {
    if es == [] then None
    else if EntryError(es[0].0, es[0].1).Some? then EntryError(es[0].0, es[0].1)
    else FirstEntryError(es[1..])
  }

  /** The entries pass exactly when each does; otherwise the error is that
      of the first failing entry. */
  lemma {:induction false} FirstEntryErrorSpec(es: seq<(string, SubmittedValue)>)
    ensures FirstEntryError(es).None? <==> forall i :: 0 <= i < |es| ==> EntryError(es[i].0, es[i].1).None?
    ensures FirstEntryError(es).Some? ==>
      exists i :: 0 <= i < |es| && FirstEntryError(es) == EntryError(es[i].0, es[i].1)
                  && forall j :: 0 <= j < i ==> EntryError(es[j].0, es[j].1).None?
  {
    if es != [] {
      FirstEntryErrorSpec(es[1..]);
      if EntryError(es[0].0, es[0].1).None? && FirstEntryError(es[1..]).Some? {
        var i :| 0 <= i < |es[1..]| && FirstEntryError(es[1..]) == EntryError(es[1..][i].0, es[1..][i].1)
          && forall j :: 0 <= j < i ==> EntryError(es[1..][j].0, es[1..][j].1).None?;
        assert FirstEntryError(es) == EntryError(es[i + 1].0, es[i + 1].1);
        assert forall j :: 1 <= j < i + 1 ==> es[j] == es[1..][j - 1];
      }
      assert forall i :: 1 <= i < |es| ==> es[i] == es[1..][i - 1];
    }
  }

  /** The `for ... of Object.entries(plugins)` loop that returns the first
      error it meets. */
  method CheckEntries(es: seq<(string, SubmittedValue)>) returns (err: Option<string>)
    ensures err == FirstEntryError(es)
  {
    for i := 0 to |es|
      invariant FirstEntryError(es[i..]) == FirstEntryError(es)
    {
      assert es[i..][1..] == es[i + 1..];
      var e := EntryError(es[i].0, es[i].1);
      if e.Some? {
        return e;
      }
    }
    return None;
  }

  /** The checks of the handler as written. A truthy number or boolean for
      `plugins` has no entries, so it passes; a non-empty string has one
      entry per character, the first of which, named "0", is not an
      object. */
  function ValidateAsWritten(c: SubmittedConfig): Option<string>
  {
    match c.plugins
    case None => Some(PluginsRequired)
    case Some(PluginsArray(_)) => Some(PluginsIsArray)
    case Some(PluginsObject(es)) => FirstEntryError(es)
    case Some(PluginsScalar(s)) =>
      if !Truthy(s) then Some(PluginsRequired)
      else if s.SStr? then Some(NotAnObject("0"))
      else None
  }

  /** The checks as the messages intend them: anything but an object is
      refused before the entries are looked at. */
  function Validate(c: SubmittedConfig): Option<string>
  {
    match c.plugins
    case None => Some(PluginsRequired)
    case Some(PluginsArray(_)) => Some(PluginsIsArray)
    case Some(PluginsScalar(_)) => Some(PluginsRequired)
    case Some(PluginsObject(es)) => FirstEntryError(es)
  }

  /** The handler as written stores `plugins: 5`, which is not a plugin
      map. */
  lemma NumberPluginsAccepted()
    ensures ValidateAsWritten(SubmittedConfig(Some(PluginsScalar(SNum(5))), None)).None?
    ensures !SubmittedConfig(Some(PluginsScalar(SNum(5))), None).plugins.value.PluginsObject?
  {
  }

  /** A configuration passes the corrected checks exactly when `plugins` is
      an object whose every entry has a non-empty name and a record with a
      non-empty string version. */
  lemma ValidateSpec(c: SubmittedConfig)
    ensures Validate(c).None? <==>
      && c.plugins.Some? && c.plugins.value.PluginsObject?
      && forall i :: 0 <= i < |c.plugins.value.entries| ==>
           c.plugins.value.entries[i].0 != "" && HasVersion(c.plugins.value.entries[i].1)
    ensures ValidateAsWritten(c).None? && c.plugins.Some? && c.plugins.value.PluginsObject? ==> Validate(c).None?
    ensures Validate(c).None? ==> ValidateAsWritten(c).None?
  {
    if c.plugins.Some? && c.plugins.value.PluginsObject? {
      FirstEntryErrorSpec(c.plugins.value.entries);
    }
  }

  /** The record stored for a checked entry. */
  function StoredRecord(v: SubmittedValue): PluginRecord
    requires HasVersion(v)
  {
    var r := v.record;
    PluginRecord(r.version.value.s, r.enabled, r.installedAt, r.environment, r.settings, r.dependencies, r.isDependency, r.dependentPlugin)
  }

  predicate AllValid(es: seq<(string, SubmittedValue)>)
  {
    forall i :: 0 <= i < |es| ==> es[i].0 != "" && HasVersion(es[i].1)
  }

  /** The plugin map a checked `plugins` object denotes. */
  function StoredPlugins(es: seq<(string, SubmittedValue)>): map<string, PluginRecord>
    requires AllValid(es)
  {
    if es == [] then map[]
    else StoredPlugins(es[..|es| - 1])[es[|es| - 1].0 := StoredRecord(es[|es| - 1].1)]
  }

  /** The stored map has one entry per submitted key, holding that key's
      record, and every stored name and version is non-empty. */
  lemma StoredPluginsSpec(es: seq<(string, SubmittedValue)>)
    requires AllValid(es) && DistinctKeys(es)
    ensures forall k :: k in StoredPlugins(es) <==> exists i :: 0 <= i < |es| && es[i].0 == k
    ensures forall i :: 0 <= i < |es| ==> StoredPlugins(es)[es[i].0] == StoredRecord(es[i].1)
    ensures forall k :: k in StoredPlugins(es) ==> k != "" && StoredPlugins(es)[k].version != ""
  {
    StoredPluginsKeys(es);
    StoredPluginsValues(es);
    forall k | k in StoredPlugins(es) ensures k != "" && StoredPlugins(es)[k].version != "" {
      var i :| 0 <= i < |es| && es[i].0 == k;
    }
  }

  lemma {:induction false} StoredPluginsKeys(es: seq<(string, SubmittedValue)>)
    requires AllValid(es)
    ensures forall k :: k in StoredPlugins(es) <==> exists i :: 0 <= i < |es| && es[i].0 == k
  {
    if es != [] {
      var init := es[..|es| - 1];
      assert forall i :: 0 <= i < |init| ==> init[i] == es[i];
      StoredPluginsKeys(init);
    }
  }

  lemma {:induction false} StoredPluginsValues(es: seq<(string, SubmittedValue)>)
    requires AllValid(es) && DistinctKeys(es)
    ensures forall i :: 0 <= i < |es| ==> es[i].0 in StoredPlugins(es) && StoredPlugins(es)[es[i].0] == StoredRecord(es[i].1)
  {
    if es != [] {
      var init := es[..|es| - 1];
      assert forall i :: 0 <= i < |init| ==> init[i] == es[i];
      StoredPluginsKeys(init);
      StoredPluginsValues(init);
    }
  }

  // ------------------------------------------------------------ PUT update

  /** How a request changes one field: the key is absent (`Keep`), it is
      `null`/`undefined` or not usable (`Clear`), or it carries a value. */
  datatype FieldUpdate<T> = Keep | Clear | Set(value: T)

  /** The `updates` of a PUT request. */
  datatype PluginUpdates = PluginUpdates(
    environment: FieldUpdate<map<string, Json>>,
    settings: FieldUpdate<map<string, Json>>,
    enabled: Option<bool>,
    dependencies: FieldUpdate<seq<Dependency>>)

  function UpdatedEnvironment(current: Option<map<string, Json>>, u: FieldUpdate<map<string, Json>>): Option<map<string, Json>>
  {
    match u
    case Keep => current
    case Clear => None
    case Set(m) => if |m| > 0 then Some(Overlay(OrEmptyMap(current), m)) else None
  }

  function UpdatedSettings(current: Option<map<string, Json>>, u: FieldUpdate<map<string, Json>>): Option<map<string, Json>>
  {
    match u
    case Keep => current
    case Clear => None
    case Set(m) => if |m| > 0 then Some(m) else None
  }

  function UpdatedDependencies(current: Option<seq<Dependency>>, u: FieldUpdate<seq<Dependency>>): Option<seq<Dependency>>
  {
    match u
    case Keep => current
    case Clear => None
    case Set(ds) => if |ds| > 0 then Some(ds) else None
  }

  /** The record a PUT request writes back: rebuilt from version, enabled
      and installedAt, then the three optional fields. */
  function UpdatedRecord(current: PluginRecord, u: PluginUpdates): PluginRecord
  {
    PluginRecord(
      version := current.version,
      enabled := if u.enabled.Some? then u.enabled.value else current.enabled,
      installedAt := current.installedAt,
      environment := UpdatedEnvironment(current.environment, u.environment),
      settings := UpdatedSettings(current.settings, u.settings),
      dependencies := UpdatedDependencies(current.dependencies, u.dependencies),
      isDependency := false,
      dependentPlugin := None)
  }

  function UpdateError(plugins: map<string, PluginRecord>, name: Option<string>): Option<HttpError>
  {
    if !Given(name) then Some(HttpError(400, "Plugin name is required"))
    else if name.value !in plugins then Some(HttpError(404, "Plugin not found"))
    else None
  }

  /** The plugin map after an accepted update. */
  function AfterUpdate(plugins: map<string, PluginRecord>, name: string, u: PluginUpdates): (r: map<string, PluginRecord>)
    requires name in plugins
  {
    plugins[name := UpdatedRecord(plugins[name], u)]
  }

  /** The field rules of an update: an environment with keys is merged over
      the current one, the update winning; settings and dependencies with
      content replace the current ones; an empty value or `null` removes
      the field; an absent key keeps it; enabled changes only when given;
      version and installation time never change and the dependency tags
      are dropped. Other entries of the map are untouched. */
  lemma UpdateSpec(plugins: map<string, PluginRecord>, name: string, u: PluginUpdates)
    requires name in plugins
    ensures var after := AfterUpdate(plugins, name, u);
      var cur := plugins[name];
      var r := after[name];
      && after.Keys == plugins.Keys
      && (forall k :: k in plugins && k != name ==> after[k] == plugins[k])
      && r.version == cur.version && r.installedAt == cur.installedAt
      && r.enabled == (if u.enabled.Some? then u.enabled.value else cur.enabled)
      && !r.isDependency && r.dependentPlugin.None?
      && (u.environment.Keep? ==> r.environment == cur.environment)
      && (u.environment.Clear? || (u.environment.Set? && u.environment.value == map[]) ==> r.environment.None?)
      && (u.environment.Set? && u.environment.value != map[] ==>
            && r.environment.Some?
            && r.environment.value.Keys == OrEmptyMap(cur.environment).Keys + u.environment.value.Keys
            && (forall k :: k in u.environment.value ==> r.environment.value[k] == u.environment.value[k])
            && (forall k :: k in OrEmptyMap(cur.environment) && k !in u.environment.value ==>
                  r.environment.value[k] == OrEmptyMap(cur.environment)[k]))
      && (u.settings.Keep? ==> r.settings == cur.settings)
      && (u.settings.Set? && u.settings.value != map[] ==> r.settings == Some(u.settings.value))
      && (u.settings.Clear? || (u.settings.Set? && u.settings.value == map[]) ==> r.settings.None?)
      && (u.dependencies.Keep? ==> r.dependencies == cur.dependencies)
      && (u.dependencies.Set? && u.dependencies.value != [] ==> r.dependencies == Some(u.dependencies.value))
      && (u.dependencies.Clear? || (u.dependencies.Set? && u.dependencies.value == []) ==> r.dependencies.None?)
  {
    if u.environment.Set? && u.environment.value != map[] {
      var k :| k in u.environment.value;
    }
    if u.settings.Set? && u.settings.value != map[] {
      var k :| k in u.settings.value;
    }
  }

  /** Applying the same update twice has the effect of applying it once. */
  lemma UpdateIdempotent(plugins: map<string, PluginRecord>, name: string, u: PluginUpdates)
    requires name in plugins
    ensures AfterUpdate(AfterUpdate(plugins, name, u), name, u) == AfterUpdate(plugins, name, u)
  {
    var once := UpdatedRecord(plugins[name], u);
    EnvironmentUpdateIdempotent(plugins[name].environment, u.environment);
    assert UpdatedRecord(once, u) == once;
  }

  /** Merging the same environment twice has the effect of merging it
      once. */
  lemma EnvironmentUpdateIdempotent(current: Option<map<string, Json>>, u: FieldUpdate<map<string, Json>>)
    ensures UpdatedEnvironment(UpdatedEnvironment(current, u), u) == UpdatedEnvironment(current, u)
  {
    if u.Set? && |u.value| > 0 {
      OverlayTwice(OrEmptyMap(current), u.value);
    }
  }

  lemma OverlayTwice(base: map<string, Json>, top: map<string, Json>)
    ensures Overlay(Overlay(base, top), top) == Overlay(base, top)
  {
    var once := Overlay(base, top);
    var twice := Overlay(once, top);
    assert twice.Keys == once.Keys;
    forall k | k in twice ensures twice[k] == once[k] {
    }
  }

  // -------------------------------------------------------------- DELETE

  /** The record is tagged as a dependency installed for `name`. */
  predicate TaggedFor(r: PluginRecord, name: string)
  {
    r.isDependency && r.dependentPlugin == Some(name)
  }

  function RemoveError(plugins: map<string, PluginRecord>, name: Option<string>): Option<HttpError>
  {
    if !Given(name) then Some(HttpError(400, "Plugin name is required"))
    else if name.value !in plugins then Some(HttpError(404, "Plugin not found"))
    else None
  }

  /** The plugin map after removing `name` and the records tagged as its
      dependencies. */
  function AfterRemove(plugins: map<string, PluginRecord>, name: string): map<string, PluginRecord>
  {
    map k | k in plugins && k != name && !TaggedFor(plugins[k], name) :: plugins[k]
  }

  /** The keys of the records tagged as dependencies of `name`. */
  function Dependents(plugins: map<string, PluginRecord>, name: string): set<string>
  {
    set k | k in plugins && k != name && TaggedFor(plugins[k], name)
  }

  /** The success message, naming the number of dependencies removed with
      the plugin when there are any. */
  function RemovalMessage(removedCount: int): string
  {
    "Plugin removed successfully" +
      (if removedCount > 1 then " (" + Decimal(removedCount - 1) + " dependencies also removed)" else "")
  }

  /** Removal drops the plugin and exactly the records tagged as its
      dependencies, one level deep, keeps every other record as it was, and
      the count it reports is one plus the number of those dependents. */
  lemma RemoveSpec(plugins: map<string, PluginRecord>, name: string)
    requires name in plugins
    ensures var after := AfterRemove(plugins, name);
      && name !in after
      && (forall k :: k in after <==> k in plugins && k != name && !TaggedFor(plugins[k], name))
      && (forall k :: k in after ==> after[k] == plugins[k])
      && |plugins| - |after| == 1 + |Dependents(plugins, name)|
  {
    var after := AfterRemove(plugins, name);
    var deps := Dependents(plugins, name);
    assert plugins.Keys == after.Keys + deps + {name};
    assert after.Keys * deps == {};
    assert (after.Keys + deps) * {name} == {};
    assert |plugins| == |plugins.Keys|;
    assert |after| == |after.Keys|;
  }

  /** Removing the same plugin again finds nothing. */
  lemma RemoveIsFinal(plugins: map<string, PluginRecord>, name: string)
    requires Given(Some(name))
    ensures RemoveError(AfterRemove(plugins, name), Some(name)) == Some(HttpError(404, "Plugin not found"))
  {
  }

  /** The dependency lookups of add-plugin, each against the plugin map
      as it stood before any dependency was stored. */
  method ResolveDependencies(deps: seq<Dependency>, present: map<string, PluginRecord>, lookup: string -> Option<Resolution>, now: string)
    returns (resolved: seq<(string, PluginRecord)>)
    ensures resolved == Resolved(deps, present, lookup, now)
  {
    resolved := [];
    for i := 0 to |deps|
      invariant resolved == Resolved(deps[..i], present, lookup, now)
    {
      assert deps[..i + 1][..i] == deps[..i];
      var dep := deps[i];
      if dep.name !in present {
        var depData := lookup(dep.name);
        if depData.Some? {
          resolved := resolved + [(dep.name, DependencyRecord(depData.value, now))];
        }
      }
    }
    assert deps[..|deps|] == deps;
  }

  // ------------------------------------------------------ the config file

  /** The stored configuration. A missing file reads as an empty plugin map
      without metadata. */
  class ConfigFile {
    var plugins: map<string, PluginRecord>
    var metadata: Option<ConfigMetadata>

    constructor ()
      ensures plugins == map[] && metadata.None?
    {
      plugins := map[];
      metadata := None;
    }

    /** `POST` with `action: "add-plugin"`; `lookup` is the registry
        lookup, `Lookup(remote)` for the registry as it answers. */
    method AddPlugin(req: AddRequest, lookup: string -> Option<Resolution>, now: string) returns (r: Result<AddReply, HttpError>)
      modifies this
      ensures r == AddResponse(old(plugins), req, lookup, now)
      ensures r.Failure? ==> plugins == old(plugins) && metadata == old(metadata)
      ensures r.Success? ==>
        && plugins == AfterAdd(old(plugins), req, lookup, now)
        && metadata == Some(NextMetadata(VersionOf(old(metadata)), now))
    {
      if !Given(req.name) || !Given(req.version) {
        return Failure(HttpError(400, "Invalid plugin data: name and version are required"));
      }
      var name := req.name.value;
      if name in plugins {
        return Failure(HttpError(409, "Plugin already installed"));
      }
      var previousVersion := VersionOf(metadata);
      var registryData := lookup(name);
      var record := NewPluginRecord(req, registryData, now);
      plugins := plugins[name := record];
      var deps := Deps(req);
      if |deps| > 0 {
        var present := plugins;
        var resolved := ResolveDependencies(deps, present, lookup, now);
        for i := 0 to |resolved|
          invariant plugins == InsertAll(present, resolved[..i])
        {
          assert resolved[..i + 1][..i] == resolved[..i];
          plugins := plugins[resolved[i].0 := resolved[i].1];
        }
        assert resolved[..|resolved|] == resolved;
      }
      metadata := Some(NextMetadata(previousVersion, now));
      r := Success(AddReply("Plugin " + name + " installed successfully", name, record, |deps|));
    }

    /** `POST` of a whole configuration, with the corrected checks. */
    method SaveConfig(c: SubmittedConfig, now: string) returns (r: Result<string, HttpError>)
      modifies this
      ensures r.Failure? <==> Validate(c).Some?
      ensures r.Failure? ==> r.error == HttpError(400, Validate(c).value) && plugins == old(plugins) && metadata == old(metadata)
      ensures r.Success? ==>
        && AllValid(c.plugins.value.entries)
        && plugins == StoredPlugins(c.plugins.value.entries)
        && metadata == Some(NextMetadata(c.metadataVersion, now))
        && r.value == "Configuration saved successfully"
    {
      if c.plugins.None? {
        return Failure(HttpError(400, PluginsRequired));
      }
      match c.plugins.value
      case PluginsArray(_) =>
        return Failure(HttpError(400, PluginsIsArray));
      case PluginsScalar(_) =>
        return Failure(HttpError(400, PluginsRequired));
      case PluginsObject(es) =>
        var err := CheckEntries(es);
        if err.Some? {
          return Failure(HttpError(400, err.value));
        }
        FirstEntryErrorSpec(es);
        plugins := StoredPlugins(es);
        metadata := Some(NextMetadata(c.metadataVersion, now));
        return Success("Configuration saved successfully");
    }

    /** `PUT`: update one plugin, field by field. */
    method UpdatePlugin(name: Option<string>, u: PluginUpdates, now: string) returns (r: Result<PluginRecord, HttpError>)
      modifies this
      ensures r.Failure? <==> UpdateError(old(plugins), name).Some?
      ensures r.Failure? ==> r.error == UpdateError(old(plugins), name).value && plugins == old(plugins) && metadata == old(metadata)
      ensures r.Success? ==>
        && name.value in old(plugins)
        && plugins == AfterUpdate(old(plugins), name.value, u)
        && r.value == plugins[name.value]
        && metadata == Some(NextMetadata(VersionOf(old(metadata)), now))
    {
      if !Given(name) {
        return Failure(HttpError(400, "Plugin name is required"));
      }
      var key := name.value;
      if key !in plugins {
        return Failure(HttpError(404, "Plugin not found"));
      }
      var current := plugins[key];
      var environment: Option<map<string, Json>> := None;
      match u.environment {
        case Keep => environment := current.environment;
        case Clear =>
        case Set(m) =>
          if |m| > 0 {
            environment := Some(Overlay(OrEmptyMap(current.environment), m));
          }
      }
      assert environment == UpdatedEnvironment(current.environment, u.environment);
      var settings: Option<map<string, Json>> := None;
      match u.settings {
        case Keep => settings := current.settings;
        case Clear =>
        case Set(m) =>
          if |m| > 0 {
            settings := Some(m);
          }
      }
      assert settings == UpdatedSettings(current.settings, u.settings);
      var enabled := current.enabled;
      if u.enabled.Some? {
        enabled := u.enabled.value;
      }
      var dependencies: Option<seq<Dependency>> := None;
      match u.dependencies {
        case Keep => dependencies := current.dependencies;
        case Clear =>
        case Set(ds) =>
          if |ds| > 0 {
            dependencies := Some(ds);
          }
      }
      assert dependencies == UpdatedDependencies(current.dependencies, u.dependencies);
      var updated := PluginRecord(current.version, enabled, current.installedAt, environment, settings, dependencies, false, None);
      assert updated == UpdatedRecord(current, u);
      plugins := plugins[key := updated];
      metadata := Some(NextMetadata(VersionOf(metadata), now));
      return Success(updated);
    }

    /** `DELETE`: remove one plugin and the records tagged as its
      dependencies. */
    method RemovePlugin(name: Option<string>, now: string) returns (r: Result<string, HttpError>)
      modifies this
      ensures r.Failure? <==> RemoveError(old(plugins), name).Some?
      ensures r.Failure? ==> r.error == RemoveError(old(plugins), name).value && plugins == old(plugins) && metadata == old(metadata)
      ensures r.Success? ==>
        && plugins == AfterRemove(old(plugins), name.value)
        && r.value == RemovalMessage(|old(plugins)| - |plugins|)
        && metadata == Some(NextMetadata(VersionOf(old(metadata)), now))
    {
      if !Given(name) {
        return Failure(HttpError(400, "Plugin name is required"));
      }
      var key := name.value;
      if key !in plugins {
        return Failure(HttpError(404, "Plugin not found"));
      }
      var originalCount := |plugins|;
      var remaining := plugins - {key};
      var keep: map<string, PluginRecord> := map[];
      var todo := remaining.Keys;
      while todo != {}
        invariant todo <= remaining.Keys
        invariant forall k :: k in keep <==> k in remaining && k !in todo && !TaggedFor(remaining[k], key)
        invariant forall k :: k in keep ==> keep[k] == remaining[k]
        decreases |todo|
      {
        var k :| k in todo;
        if !TaggedFor(remaining[k], key) {
          keep := keep[k := remaining[k]];
        }
        todo := todo - {k};
      }
      assert keep == AfterRemove(plugins, key);
      plugins := keep;
      var removedCount := originalCount - |plugins|;
      metadata := Some(NextMetadata(VersionOf(metadata), now));
      return Success(RemovalMessage(removedCount));
    }
  }
}
