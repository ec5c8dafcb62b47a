/** The plugin registry as both the dashboard and the configuration endpoint
    read it: the `plugins.json` index, the per-version `metadata.json`
    documents, and the latest-version lookup they share. */
module Registry {
  import opened Wrappers
  import opened Json
  import opened Versions

  /** One element of a `dependencies` list. */
  datatype Dependency = Dependency(name: string, url: Option<string>, version: Option<string>)

  /** One value of the registry's `plugins` object. `versions` is `None`
      when the field is missing or is not an array. */
  datatype RegistryEntry = RegistryEntry(
    description: Option<string>,
    versions: Option<seq<VersionEntry>>,
    deprecated: bool,
    deprecatedReason: Option<string>,
    updateTime: Option<string>)

  /** The keys of a parsed JSON object are distinct. */
  predicate DistinctNames(ps: seq<(string, RegistryEntry)>)
  {
    forall i, j :: 0 <= i < j < |ps| ==> ps[i].0 != ps[j].0
  }

  /** The registry's `plugins` object, in `Object.entries` order. */
  type PluginTable = ps: seq<(string, RegistryEntry)> | DistinctNames(ps)

  datatype Registry = Registry(plugins: PluginTable)

  /** A plugin version's `metadata.json`. */
  datatype Metadata = Metadata(
    description: Option<string>,
    authors: Option<seq<string>>,
    license: Option<string>,
    homepage: Option<string>,
    documentation: Option<string>,
    repository: Option<string>,
    tags: Option<seq<string>>,
    pluginDeprecated: bool,
    pluginDeprecationReason: Option<string>,
    updateTime: Option<string>,
    environment: Option<Json>,
    settings: Option<Json>,
    dependencies: Option<seq<Dependency>>)

  /** What the network answers. `registry` is `None` when `plugins.json`
      cannot be fetched, is not JSON, or has no `plugins` object;
      `documents` holds the metadata documents that can be fetched and
      parsed, by plugin name and version. Every fetch of the registry is
      answered with the same value. */
  datatype Remote = Remote(registry: Option<Registry>, documents: map<(string, string), Metadata>)

  /** The first entry named `name`. */
  function Find(ps: seq<(string, RegistryEntry)>, name: string): (e: Option<RegistryEntry>)
    ensures e.None? <==> forall i :: 0 <= i < |ps| ==> ps[i].0 != name
    ensures e.Some? ==> exists i :: 0 <= i < |ps| && ps[i] == (name, e.value)
  {
    if ps == [] then None
    else if ps[0].0 == name then Some(ps[0].1)
    else
      var e := Find(ps[1..], name);
      assert forall i :: 1 <= i < |ps| ==> ps[i] == ps[1..][i - 1];
      e
  }

  /** `registry.plugins[name]`: with distinct keys, the entry stored under
      `name`, wherever it sits. */
  lemma LookupFindsEntry(r: Registry, i: int)
    requires 0 <= i < |r.plugins|
    ensures Find(r.plugins, r.plugins[i].0) == Some(r.plugins[i].1)
  {
    var e := Find(r.plugins, r.plugins[i].0);
    var j :| 0 <= j < |r.plugins| && r.plugins[j] == (r.plugins[i].0, e.value);
    assert i == j;
  }

  /** The latest non-deprecated version of a plugin: `None` when the
      registry is unavailable, the plugin is absent, its `versions` is
      missing, not an array or empty, or every version is deprecated. */
  function LatestVersion(registry: Option<Registry>, name: string): Option<string>
  {
    if registry.None? then None
    else
      match Find(registry.value.plugins, name)
      case None => None
      case Some(entry) =>
        if entry.versions.None? || |entry.versions.value| == 0 then None
        else
          match SelectLatest(entry.versions.value)
          case None => None
          case Some(v) => Some(v.version)
  }

  /** The version the lookup returns is one the registry lists, not
      deprecated and exceeded by none of the plugin's other non-deprecated
      versions; there is none exactly in the cases listed above. */
  lemma LatestVersionSpec(registry: Option<Registry>, name: string)
    ensures LatestVersion(registry, name).None? <==>
      || registry.None?
      || Find(registry.value.plugins, name).None?
      || Find(registry.value.plugins, name).value.versions.None?
      || forall v :: v in Find(registry.value.plugins, name).value.versions.value ==> v.deprecated
    ensures LatestVersion(registry, name).Some? ==>
      var vs := Find(registry.value.plugins, name).value.versions.value;
      exists e :: e in vs && !e.deprecated && e.version == LatestVersion(registry, name).value
        && forall w :: w in vs && !w.deprecated ==> Compare(w.version, e.version) <= 0
  {
    if registry.Some? {
      var found := Find(registry.value.plugins, name);
      if found.Some? && found.value.versions.Some? {
        var vs := found.value.versions.value;
        SelectLatestNone(vs);
        if SelectLatest(vs).Some? {
          SelectLatestSome(vs);
          var e := SelectLatest(vs).value;
          assert e in vs;
        }
      }
    }
  }

  /** Versions that differ only by trailing zero segments ("1.0" and
      "1.0.0") compare equal, so neither is preferred by value. */
  lemma TrailingZerosCompareEqual()
    ensures Compare(Render([1, 0]), Render([1, 0, 0])) == 0
  {
    SegmentsOfRender([1, 0]);
    SegmentsOfRender([1, 0, 0]);
    assert CompareFrom([1, 0], [1, 0, 0], 2) == 0;
  }
}
