/** The dashboard's view of the registry (the git-backed branch of the
    client API module): latest-version lookup, the per-plugin metadata
    fetch, the merged plugin list, search and tag collection. */
module RegistryView {
  import opened Wrappers
  import opened Json
  import opened JsText
  import opened Versions
  import opened Registry

  /** A plugin as the dashboard lists it. */
  datatype RegistryPlugin = RegistryPlugin(
    name: string,
    description: Option<string>,
    versions: seq<VersionEntry>,
    deprecated: bool,
    deprecatedReason: Option<string>,
    updateTime: Option<string>,
    authors: seq<string>,
    license: Option<string>,
    homepage: Option<string>,
    documentation: Option<string>,
    repository: Option<string>,
    tags: seq<string>,
    environment: Option<Json>,
    settings: Option<Json>,
    dependencies: seq<Dependency>)

  /** `getLatestPluginVersion`: every failure, including an unreachable
      registry, reads as "no version". */
  function GetLatestPluginVersion(remote: Remote, name: string): Option<string>
  {
    LatestVersion(remote.registry, name)
  }

  /** `fetchPluginMetadata`: the metadata document of the latest version;
      `None` stands for the error it throws when there is no version, the
      version is the empty string (`!latestVersion`), or the document cannot
      be fetched or parsed. */
  function FetchPluginMetadata(remote: Remote, name: string): Option<Metadata>
  {
    var v := GetLatestPluginVersion(remote, name);
    if v.Some? && v.value != "" && (name, v.value) in remote.documents then Some(remote.documents[(name, v.value)])
    else None
  }

  /** A fetched document is the one stored under the plugin's latest
      version: a non-empty version the registry lists, not deprecated and
      exceeded by none of the plugin's other available versions. */
  lemma FetchPluginMetadataSpec(remote: Remote, name: string)
    ensures FetchPluginMetadata(remote, name).Some? ==>
      && remote.registry.Some?
      && Find(remote.registry.value.plugins, name).Some?
      && Find(remote.registry.value.plugins, name).value.versions.Some?
      && var vs := Find(remote.registry.value.plugins, name).value.versions.value;
         exists e :: e in vs && !e.deprecated && e.version != ""
           && (forall w :: w in vs && !w.deprecated ==> Compare(w.version, e.version) <= 0)
           && (name, e.version) in remote.documents
           && FetchPluginMetadata(remote, name).value == remote.documents[(name, e.version)]
    ensures LatestVersion(remote.registry, name).None? ==> FetchPluginMetadata(remote, name).None?
    ensures LatestVersion(remote.registry, name) == Some("") ==> FetchPluginMetadata(remote, name).None?
  {
    LatestVersionSpec(remote.registry, name);
  }

  /** A plugin whose latest version is the empty string is listed from its
      registry entry alone, whatever documents exist. */
  lemma EmptyVersionFallsBack(remote: Remote, item: (string, RegistryEntry))
    ensures LatestVersion(remote.registry, item.0) == Some("") ==> RecordFor(remote, item) == Fallback(item.0, item.1)
  {
  }

  /** JavaScript `a || b` on two optional strings: `b` unless `a` is a
      non-empty string. */
  function Or(a: Option<string>, b: Option<string>): Option<string>
  {
    if a.Some? && a.value != "" then a else b
  }

  /** `x || []` on an optional list. */
  function OrEmpty<T>(x: Option<seq<T>>): seq<T>
  {
    if x.Some? then x.value else []
  }

  /** The record built from a registry entry and its metadata. */
  function Merged(name: string, entry: RegistryEntry, m: Metadata): RegistryPlugin
  {
    RegistryPlugin(
      name := name,
      description := Or(entry.description, m.description),
      versions := OrEmpty(entry.versions),
      deprecated := entry.deprecated || m.pluginDeprecated,
      deprecatedReason := Or(entry.deprecatedReason, m.pluginDeprecationReason),
      updateTime := Or(entry.updateTime, m.updateTime),
      authors := OrEmpty(m.authors),
      license := m.license,
      homepage := m.homepage,
      documentation := m.documentation,
      repository := m.repository,
      tags := OrEmpty(m.tags),
      environment := m.environment,
      settings := m.settings,
      dependencies := OrEmpty(m.dependencies))
  }

  /** The record built from the registry entry alone when the metadata
      fetch fails. */
  function Fallback(name: string, entry: RegistryEntry): RegistryPlugin
  {
    RegistryPlugin(
      name := name,
      description := entry.description,
      versions := OrEmpty(entry.versions),
      deprecated := entry.deprecated,
      deprecatedReason := entry.deprecatedReason,
      updateTime := entry.updateTime,
      authors := [],
      license := Some("Unknown"),
      homepage := None,
      documentation := None,
      repository := None,
      tags := [],
      environment := None,
      settings := None,
      dependencies := [])
  }

  /** The record `fetchAvailable` pushes for one registry entry. */
  function RecordFor(remote: Remote, item: (string, RegistryEntry)): RegistryPlugin
  {
    match FetchPluginMetadata(remote, item.0)
    case Some(m) => Merged(item.0, item.1, m)
    case None => Fallback(item.0, item.1)
  }

  /** Where each field of a listed plugin comes from: the registry entry
      first for description, deprecation and update time, the metadata for
      the rest, and fixed defaults when the metadata is unavailable. */
  lemma RecordSources(remote: Remote, item: (string, RegistryEntry))
    ensures var r := RecordFor(remote, item);
      var m := FetchPluginMetadata(remote, item.0);
      && r.name == item.0
      && r.versions == (if item.1.versions.Some? then item.1.versions.value else [])
      && (r.deprecated <==> item.1.deprecated || (m.Some? && m.value.pluginDeprecated))
      && (item.1.description.Some? && item.1.description.value != "" ==> r.description == item.1.description)
      && (item.1.updateTime.Some? && item.1.updateTime.value != "" ==> r.updateTime == item.1.updateTime)
      && (item.1.deprecatedReason.Some? && item.1.deprecatedReason.value != "" ==> r.deprecatedReason == item.1.deprecatedReason)
      && (m.Some? ==>
            && (item.1.description.None? || item.1.description.value == "" ==> r.description == m.value.description)
            && (item.1.updateTime.None? || item.1.updateTime.value == "" ==> r.updateTime == m.value.updateTime)
            && (item.1.deprecatedReason.None? || item.1.deprecatedReason.value == "" ==>
                  r.deprecatedReason == m.value.pluginDeprecationReason)
            && r.authors == OrEmpty(m.value.authors)
            && r.dependencies == OrEmpty(m.value.dependencies)
            && r.license == m.value.license
            && r.homepage == m.value.homepage && r.documentation == m.value.documentation
            && r.repository == m.value.repository
            && r.environment == m.value.environment && r.settings == m.value.settings
            && (m.value.tags.Some? ==> r.tags == m.value.tags.value)
            && (m.value.tags.None? ==> r.tags == []))
      && (m.None? ==>
            && r.description == item.1.description
            && r.authors == [] && r.tags == [] && r.dependencies == []
            && r.license == Some("Unknown")
            && r.environment.None? && r.settings.None?)
  {
  }

  /** The listing of every registry entry, or `None` when the registry
      itself cannot be loaded (the error `fetchAvailable` rethrows). */
  method FetchAvailable(remote: Remote) returns (r: Option<seq<RegistryPlugin>>)
    ensures r.None? <==> remote.registry.None?
    ensures r.Some? ==>
      && |r.value| == |remote.registry.value.plugins|
      && forall i :: 0 <= i < |r.value| ==> r.value[i] == RecordFor(remote, remote.registry.value.plugins[i])
  {
    if remote.registry.None? {
      return None;
    }
    var entries := remote.registry.value.plugins;
    var plugins: seq<RegistryPlugin> := [];
    for i := 0 to |entries|
      invariant |plugins| == i
      invariant forall k :: 0 <= k < i ==> plugins[k] == RecordFor(remote, entries[k])
    {
      var name := entries[i].0;
      var entry := entries[i].1;
      var metadata := FetchPluginMetadata(remote, name);
      var plugin;
      if metadata.Some? {
        plugin := Merged(name, entry, metadata.value);
      } else {
        plugin := Fallback(name, entry);
      }
      assert plugin == RecordFor(remote, entries[i]);
      var next := plugins + [plugin];
      assert forall k :: 0 <= k < i ==> next[k] == plugins[k];
      plugins := next;
    }
    return Some(plugins);
  }

  /** The listing names the registry's plugins once each, in registry
      order. */
  lemma AvailableKeepsOrder(remote: Remote, listing: seq<RegistryPlugin>)
    requires remote.registry.Some?
    requires |listing| == |remote.registry.value.plugins|
    requires forall i :: 0 <= i < |listing| ==> listing[i] == RecordFor(remote, remote.registry.value.plugins[i])
    ensures forall i :: 0 <= i < |listing| ==> listing[i].name == remote.registry.value.plugins[i].0
    ensures forall i, j :: 0 <= i < j < |listing| ==> listing[i].name != listing[j].name
  {
    var ps := remote.registry.value.plugins;
    forall i | 0 <= i < |listing| ensures listing[i].name == ps[i].0 {
      RecordSources(remote, ps[i]);
    }
  }

  // ---------------------------------------------------------------- search

  /** A search parameter is used only when it is a non-empty string. */
  predicate Given(p: Option<string>)
  {
    p.Some? && p.value != ""
  }

  /** Some tag of `p` contains the (lower-cased) query. */
  predicate SomeTagContains(p: RegistryPlugin, q: string)
  {
    exists i :: 0 <= i < |p.tags| && Contains(Lower(p.tags[i]), q)
  }

  /** The query test on a plugin whose description is present or whose name
      already matches. */
  predicate QueryMatches(p: RegistryPlugin, q: string)
  {
    || Contains(Lower(p.name), q)
    || (p.description.Some? && Contains(Lower(p.description.value), q))
    || SomeTagContains(p, q)
  }

  /** The query test throws on this plugin: its description is missing and
      its name does not match, so `description.toLowerCase()` is reached. */
  predicate QueryThrows(p: RegistryPlugin, q: string)
  {
    !Contains(Lower(p.name), q) && p.description.None?
  }

  datatype SearchResult = SearchResult(count: nat, plugins: seq<RegistryPlugin>)

  datatype SearchError =
    | RegistryUnavailable
    | MissingDescription(name: string)

  /** `plugins.filter(p => p.tags?.includes(tag))`. */
  function FilterByTag(ps: seq<RegistryPlugin>, tag: string): seq<RegistryPlugin>
  {
    if ps == [] then []
    else (if tag in ps[0].tags then [ps[0]] else []) + FilterByTag(ps[1..], tag)
  }

  /** The query filter, failing at the first plugin the test throws on. */
  function FilterByQuery(ps: seq<RegistryPlugin>, q: string): Result<seq<RegistryPlugin>, SearchError>
  {
    if ps == [] then Success([])
    else if QueryThrows(ps[0], q) then Failure(MissingDescription(ps[0].name))
    else
      match FilterByQuery(ps[1..], q)
      case Failure(e) => Failure(e)
      case Success(rest) => Success((if QueryMatches(ps[0], q) then [ps[0]] else []) + rest)
  }

  /** `searchPlugins` on the git registry: the listing filtered by tag, then
      by the lower-cased query; a listing that could not be loaded makes the
      search fail. */
  function SearchPlugins(available: Option<seq<RegistryPlugin>>, tag: Option<string>, query: Option<string>): Result<SearchResult, SearchError>
  {
    if available.None? then Failure(RegistryUnavailable)
    else
      var byTag := if Given(tag) then FilterByTag(available.value, tag.value) else available.value;
      if !Given(query) then Success(SearchResult(|byTag|, byTag))
      else
        match FilterByQuery(byTag, Lower(query.value))
        case Failure(e) => Failure(e)
        case Success(found) => Success(SearchResult(|found|, found))
  }

  /** `a` is `b` with some elements dropped, the rest kept in order. */
  predicate IsSubsequence<T(==)>(a: seq<T>, b: seq<T>)
  {
    if a == [] then true
    else if b == [] then false
    else if a[0] == b[0] then IsSubsequence(a[1..], b[1..])
    else IsSubsequence(a, b[1..])
  }

  /** A subsequence of `b` stays one when `b` grows at the front. */
  lemma {:induction false} SubsequenceSkip<T>(a: seq<T>, x: T, b: seq<T>)
    requires IsSubsequence(a, b)
    ensures IsSubsequence(a, [x] + b)
    decreases |b|, 3
  {
    assert ([x] + b)[1..] == b;
    if a != [] && a[0] == x {
      SubsequenceDropFirst(a, b);
    }
  }

  lemma {:induction false} SubsequenceDropFirst<T>(a: seq<T>, b: seq<T>)
    requires a != [] && IsSubsequence(a, b)
    ensures IsSubsequence(a[1..], b)
    decreases |b|, 2
  {
    assert [b[0]] + b[1..] == b;
    if a[0] == b[0] {
      SubsequenceSkip(a[1..], b[0], b[1..]);
    } else {
      SubsequenceDropFirst(a, b[1..]);
      SubsequenceSkip(a[1..], b[0], b[1..]);
    }
  }

  /** Keeping the first element of both keeps the relation. */
  lemma SubsequenceKeep<T>(a: seq<T>, x: T, b: seq<T>)
    requires IsSubsequence(a, b)
    ensures IsSubsequence([x] + a, [x] + b)
  {
    assert ([x] + b)[1..] == b;
    assert ([x] + a)[1..] == a;
  }

  lemma {:induction false} SubsequenceTransitive<T>(a: seq<T>, b: seq<T>, c: seq<T>)
    requires IsSubsequence(a, b) && IsSubsequence(b, c)
    ensures IsSubsequence(a, c)
    decreases |c|
  {
    if a != [] {
      if b[0] == c[0] {
        if a[0] == b[0] {
          SubsequenceTransitive(a[1..], b[1..], c[1..]);
        } else {
          assert IsSubsequence(a, b[1..]) && IsSubsequence(b[1..], c[1..]);
          SubsequenceTransitive(a, b[1..], c[1..]);
          assert a[0] != c[0];
        }
      } else {
        SubsequenceTransitive(a, b, c[1..]);
        if a[0] == c[0] {
          SubsequenceDropFirst(a, c[1..]);
        }
      }
    }
  }

  lemma {:induction false} SubsequenceMembers<T>(a: seq<T>, b: seq<T>)
    requires IsSubsequence(a, b)
    ensures forall x :: x in a ==> x in b
    decreases |b|
  {
    if a != [] {
      if a[0] == b[0] {
        SubsequenceMembers(a[1..], b[1..]);
        assert forall x :: x in a ==> x == a[0] || x in a[1..];
      } else {
        SubsequenceMembers(a, b[1..]);
      }
    }
  }

  /** The tag filter keeps exactly the plugins carrying the tag, in order. */
  lemma {:induction false} FilterByTagSpec(ps: seq<RegistryPlugin>, tag: string)
    ensures IsSubsequence(FilterByTag(ps, tag), ps)
    ensures forall p :: p in FilterByTag(ps, tag) <==> p in ps && tag in p.tags
  {
    if ps != [] {
      FilterByTagSpec(ps[1..], tag);
      var rest := FilterByTag(ps[1..], tag);
      assert [ps[0]] + ps[1..] == ps;
      assert forall p :: p in ps <==> p == ps[0] || p in ps[1..];
      if tag in ps[0].tags {
        SubsequenceKeep(rest, ps[0], ps[1..]);
        assert forall p :: p in [ps[0]] + rest <==> p == ps[0] || p in rest;
      } else {
        SubsequenceSkip(rest, ps[0], ps[1..]);
        assert [] + rest == rest;
      }
    }
  }

  /** The query filter fails exactly when some plugin throws; otherwise it
      keeps exactly the matching plugins, in order. */
  lemma {:induction false} FilterByQuerySpec(ps: seq<RegistryPlugin>, q: string)
    ensures FilterByQuery(ps, q).Failure? <==> exists p :: p in ps && QueryThrows(p, q)
    ensures FilterByQuery(ps, q).Success? ==>
      var found := FilterByQuery(ps, q).value;
      && IsSubsequence(found, ps)
      && forall p :: p in found <==> p in ps && QueryMatches(p, q)
  {
    if ps != [] {
      FilterByQuerySpec(ps[1..], q);
      assert forall p :: p in ps <==> p == ps[0] || p in ps[1..];
      if !QueryThrows(ps[0], q) && FilterByQuery(ps[1..], q).Success? {
        var rest := FilterByQuery(ps[1..], q).value;
        assert [ps[0]] + ps[1..] == ps;
        if QueryMatches(ps[0], q) {
          SubsequenceKeep(rest, ps[0], ps[1..]);
          assert forall p :: p in [ps[0]] + rest <==> p == ps[0] || p in rest;
        } else {
          SubsequenceSkip(rest, ps[0], ps[1..]);
          assert [] + rest == rest;
        }
      }
    }
  }

  /** A plugin the search returns. */
  predicate Matches(p: RegistryPlugin, tag: Option<string>, query: Option<string>)
  {
    && (Given(tag) ==> tag.value in p.tags)
    && (Given(query) ==> QueryMatches(p, Lower(query.value)))
  }

  /** A successful search returns, in listing order, exactly the plugins that
      carry the tag and match the query, and counts them; it fails exactly
      when the listing is unavailable or a plugin with the tag has no
      description and a name that misses the query. */
  lemma SearchPluginsSpec(available: Option<seq<RegistryPlugin>>, tag: Option<string>, query: Option<string>)
    ensures var r := SearchPlugins(available, tag, query);
      && (r.Failure? <==>
            || available.None?
            || (Given(query) && exists p :: p in available.value && (Given(tag) ==> tag.value in p.tags) && QueryThrows(p, Lower(query.value))))
      && (r.Success? ==>
            && r.value.count == |r.value.plugins|
            && IsSubsequence(r.value.plugins, available.value)
            && forall p :: p in r.value.plugins <==> p in available.value && Matches(p, tag, query))
  {
    if available.Some? {
      var ps := available.value;
      var byTag := if Given(tag) then FilterByTag(ps, tag.value) else ps;
      assert IsSubsequence(byTag, ps) && forall p :: p in byTag <==> p in ps && (Given(tag) ==> tag.value in p.tags) by {
        if Given(tag) {
          FilterByTagSpec(ps, tag.value);
        } else {
          SubsequenceReflexive(ps);
        }
      }
      if Given(query) {
        FilterByQuerySpec(byTag, Lower(query.value));
        if FilterByQuery(byTag, Lower(query.value)).Success? {
          SubsequenceTransitive(FilterByQuery(byTag, Lower(query.value)).value, byTag, ps);
        }
      }
    }
  }

  lemma {:induction false} SubsequenceReflexive<T>(a: seq<T>)
    ensures IsSubsequence(a, a)
  {
    if a != [] {
      SubsequenceReflexive(a[1..]);
    }
  }

  // ------------------------------------------------------------------ tags

  predicate StrictlySorted(s: seq<string>)
  {
    forall i, j :: 0 <= i < j < |s| ==> StrLess(s[i], s[j])
  }

  /** Inserts a new string into a strictly sorted list. */
  function InsertSorted(s: seq<string>, x: string): (r: seq<string>)
    requires StrictlySorted(s) && x !in s
    ensures StrictlySorted(r)
    ensures forall t :: t in r <==> t in s || t == x
  {
    if s == [] then [x]
    else if StrLess(x, s[0]) then
      assert forall j :: 0 <= j < |s| ==> StrLess(x, s[j]) by {
        forall j | 0 <= j < |s| ensures StrLess(x, s[j]) {
          if j > 0 {
            StrLessTransitive(x, s[0], s[j]);
          }
        }
      }
      [x] + s
    else
      StrLessTotal(x, s[0]);
      assert s[0] in s;
      var rest := InsertSorted(s[1..], x);
      assert forall t :: t in s <==> t == s[0] || t in s[1..];
      assert forall j :: 0 <= j < |rest| ==> StrLess(s[0], rest[j]) by {
        forall j | 0 <= j < |rest| ensures StrLess(s[0], rest[j]) {
          assert rest[j] in rest;
          if rest[j] != x {
            var k :| 1 <= k < |s| && s[k] == rest[j];
          }
        }
      }
      [s[0]] + rest
  }

  /** Some plugin of the listing carries tag `t`. */
  ghost predicate IsTagOf(t: string, ps: seq<RegistryPlugin>)
  {
    exists k :: 0 <= k < |ps| && t in ps[k].tags
  }

  /** `fetchTags`: every tag of the listing once, in ascending order; `[]`
      when the listing cannot be loaded. */
  method FetchTags(available: Option<seq<RegistryPlugin>>) returns (tags: seq<string>)
    ensures available.None? ==> tags == []
    ensures available.Some? ==> StrictlySorted(tags) && forall t :: t in tags <==> IsTagOf(t, available.value)
  {
    if available.None? {
      return [];
    }
    var ps := available.value;
    var all: set<string> := {};
    for i := 0 to |ps|
      invariant forall t :: t in all <==> exists k :: 0 <= k < i && t in ps[k].tags
    {
      var ts := ps[i].tags;
      for j := 0 to |ts|
        invariant forall t :: t in all <==> (exists k :: 0 <= k < i && t in ps[k].tags) || t in ts[..j]
      {
        assert ts[..j + 1] == ts[..j] + [ts[j]];
        all := all + {ts[j]};
      }
      assert ts[..|ts|] == ts;
    }
    tags := [];
    var rest := all;
    while rest != {}
      invariant rest <= all
      invariant StrictlySorted(tags)
      invariant forall t :: t in tags <==> t in all && t !in rest
      decreases |rest|
    {
      var t :| t in rest;
      tags := InsertSorted(tags, t);
      rest := rest - {t};
    }
  }

  /** Two strictly sorted lists with the same elements are equal, so the
      tag list is determined by the set of tags. */
  lemma {:induction false} SortedIsUnique(a: seq<string>, b: seq<string>)
    requires StrictlySorted(a) && StrictlySorted(b)
    requires forall t :: t in a <==> t in b
    ensures a == b
    decreases |a|
  {
    assert a != [] ==> a[0] in a;
    assert b != [] ==> b[0] in b;
    if a != [] && b != [] {
      assert a[0] in b && b[0] in a;
      if a[0] != b[0] {
        var i :| 0 <= i < |a| && a[i] == b[0];
        var j :| 0 <= j < |b| && b[j] == a[0];
        StrLessIrreflexive(a[0]);
        StrLessIrreflexive(b[0]);
        StrLessTransitive(a[0], b[0], a[0]);
      }
      forall t ensures t in a[1..] <==> t in b[1..] {
        if t in a[1..] {
          var i :| 1 <= i < |a| && a[i] == t;
          StrLessIrreflexive(t);
          assert t in b;
        }
        if t in b[1..] {
          var j :| 1 <= j < |b| && b[j] == t;
          StrLessIrreflexive(t);
          assert t in a;
        }
      }
      SortedIsUnique(a[1..], b[1..]);
      assert a == [a[0]] + a[1..] && b == [b[0]] + b[1..];
    }
  }
}
