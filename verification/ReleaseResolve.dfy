/** Resolving a valid catalog against published releases: which asset is chosen, in what order the
    result comes, and what a reviewed pin guarantees. */
module ReleaseResolve {
  import opened Order
  import opened ReleaseCatalog

  datatype Result<+T> = Ok(value: T) | Err(reason: string)

  /** A release asset as GitHub reports it; a missing or ill-typed key is `None`. */
  datatype RawAsset = RawAsset(
    name: Option<string>,
    state: Option<string>,
    digest: Option<string>,
    size: Option<int>,
    assetId: Option<int>,
    url: Option<string>)

  datatype Release = Release(
    draft: Option<bool>,
    prerelease: Option<bool>,
    tagName: Option<string>,
    assets: Option<seq<RawAsset>>)

  datatype RAsset = RAsset(arch: string, pattern: string, assetId: int, name: string, size: int, sha256: string,
      url: string)

  /** A resolved application: the catalog entry without its asset patterns, the release it was
      resolved to, and the assets found there. */
  datatype RApp = RApp(entry: App, tag: string, prerelease: bool, assets: seq<RAsset>)

  /** fnmatch.fnmatchcase, and the release that a repository (and pinned tag) resolves to. */
  type Matcher = (string, string) -> bool
  type Fetcher = (string, Option<string>) -> Option<Release>

  // ----- selecting one asset

  function Matching(assets: seq<RawAsset>, pattern: string, m: Matcher): seq<RawAsset> {
    if assets == [] then []
    else
      (if assets[0].name.Some? && m(assets[0].name.value, pattern) then [assets[0]] else [])
      + Matching(assets[1..], pattern, m)
  }

  const SHA256_PREFIX := "sha256:"

  function SelectReleaseAsset(release: Release, repository: string, arch: string, pattern: string, pin: Option<Pin>,
      m: Matcher)
    : (r: Result<RAsset>)
    ensures r.Ok? ==>
      && r.value.arch == arch && r.value.pattern == pattern && m(r.value.name, pattern)
      && IsSha256(r.value.sha256) && r.value.size > 0 && r.value.assetId > 0
      && IsHttps(r.value.url) && HasPrefix(r.value.url, "https://github.com/" + repository + "/releases/download/")
    ensures r.Ok? && pin.Some? ==>
      && release.tagName == Some(pin.value.tag)
      && arch in pin.value.assetSha256 && r.value.sha256 == pin.value.assetSha256[arch]
    ensures r.Ok? && pin.None? ==> release.prerelease == Some(false)
  {
    if release.draft != Some(false) ||
       (release.prerelease != Some(false) && !(pin.Some? && release.prerelease == Some(true))) then
      Err("not a stable published release")
    else if release.tagName.None? || !NonBlank(release.tagName.value) then Err("no tag")
    else if pin.Some? && release.tagName.value != pin.value.tag then Err("tag does not match the reviewed pin")
    else if release.assets.None? then Err("no assets")
    else
      var matches := Matching(release.assets.value, pattern, m);
      if |matches| != 1 then Err("must match exactly one asset")
      else
        var a := matches[0];
        MatchingMatches(release.assets.value, pattern, m);
        if a.state != Some("uploaded") then Err("not fully uploaded")
        else if a.digest.None? || !HasPrefix(a.digest.value, SHA256_PREFIX) then Err("no digest")
        else
          var digest := a.digest.value[|SHA256_PREFIX|..];
          if !IsSha256(digest) then Err("no valid digest")
          else if pin.Some? && (arch !in pin.value.assetSha256 || digest != pin.value.assetSha256[arch]) then
            Err("digest does not match the reviewed pin")
          else if a.size.None? || a.size.value <= 0 then Err("invalid size")
          else if a.assetId.None? || a.assetId.value <= 0 then Err("invalid id")
          else if a.url.None? || !IsHttps(a.url.value) then Err("invalid URL")
          else if !HasPrefix(a.url.value, "https://github.com/" + repository + "/releases/download/") then
            Err("outside its release path")
          else Ok(RAsset(arch, pattern, a.assetId.value, a.name.value, a.size.value, digest, a.url.value))
  }

  lemma {:induction false} MatchingMatches(assets: seq<RawAsset>, pattern: string, m: Matcher)
    ensures forall a :: a in Matching(assets, pattern, m) ==> a in assets && a.name.Some? && m(a.name.value, pattern)
  {
    if assets != [] {
      MatchingMatches(assets[1..], pattern, m);
    }
  }

  lemma {:induction false} MatchingMultiset(assets: seq<RawAsset>, pattern: string, m: Matcher, a: RawAsset)
    ensures multiset(Matching(assets, pattern, m))[a] ==
              if a.name.Some? && m(a.name.value, pattern) then multiset(assets)[a] else 0
  {
    if assets != [] {
      MatchingMultiset(assets[1..], pattern, m, a);
      assert assets == [assets[0]] + assets[1..];
    }
  }

  predicate Named(a: RawAsset, pattern: string, m: Matcher) {
    a.name.Some? && m(a.name.value, pattern)
  }

  /** Asset `i` matches the pattern and no other asset does. */
  ghost predicate OnlyMatch(assets: seq<RawAsset>, pattern: string, m: Matcher, i: int) {
    && 0 <= i < |assets| && Named(assets[i], pattern, m)
    && forall j :: 0 <= j < |assets| && j != i ==> !Named(assets[j], pattern, m)
  }

  lemma {:induction false} NothingMatches(assets: seq<RawAsset>, pattern: string, m: Matcher)
    ensures Matching(assets, pattern, m) == [] <==> forall j :: 0 <= j < |assets| ==> !Named(assets[j], pattern, m)
  {
    if assets != [] {
      NothingMatches(assets[1..], pattern, m);
      assert forall j :: 1 <= j < |assets| ==> assets[j] == assets[1..][j-1];
    }
  }

  lemma {:induction false} OneMatches(assets: seq<RawAsset>, pattern: string, m: Matcher)
    ensures |Matching(assets, pattern, m)| == 1 <==> exists i :: OnlyMatch(assets, pattern, m, i)
    ensures forall i :: OnlyMatch(assets, pattern, m, i) ==> Matching(assets, pattern, m) == [assets[i]]
  {
    if assets != [] {
      hide Named;
      var rest := assets[1..];
      OneMatches(rest, pattern, m);
      NothingMatches(rest, pattern, m);
      assert forall j :: 1 <= j < |assets| ==> assets[j] == rest[j-1];
      MatchingFirst(assets, pattern, m);
      if Named(assets[0], pattern, m) {
        if Matching(rest, pattern, m) == [] {
          assert OnlyMatch(assets, pattern, m, 0);
        }
      } else {
        forall i | OnlyMatch(assets, pattern, m, i)
          ensures OnlyMatch(rest, pattern, m, i - 1)
        {
        }
        forall i | OnlyMatch(rest, pattern, m, i)
          ensures OnlyMatch(assets, pattern, m, i + 1)
        {
        }
      }
    }
  }

  lemma MatchingFirst(assets: seq<RawAsset>, pattern: string, m: Matcher)
    requires assets != []
    ensures Matching(assets, pattern, m)
         == (if Named(assets[0], pattern, m) then [assets[0]] else []) + Matching(assets[1..], pattern, m)
  {
  }

  /** The release is published, and stable or pinned, under a tag that the pin names. */
  ghost predicate Acceptable(release: Release, pin: Option<Pin>) {
    && release.draft == Some(false) && release.assets.Some?
    && (release.prerelease == Some(false) || (release.prerelease == Some(true) && pin.Some?))
    && release.tagName.Some? && NonBlank(release.tagName.value)
    && (pin.Some? ==> release.tagName.value == pin.value.tag)
  }

  /** The asset is complete, has a digest that the pin, if any, names, and is where it should be. */
  ghost predicate Usable(a: RawAsset, repository: string, arch: string, pin: Option<Pin>) {
    && a.state == Some("uploaded")
    && a.digest.Some? && HasPrefix(a.digest.value, SHA256_PREFIX) && IsSha256(a.digest.value[|SHA256_PREFIX|..])
    && (pin.Some? ==>
         arch in pin.value.assetSha256 && a.digest.value[|SHA256_PREFIX|..] == pin.value.assetSha256[arch])
    && a.size.Some? && a.size.value > 0 && a.assetId.Some? && a.assetId.value > 0
    && a.url.Some? && IsHttps(a.url.value)
    && HasPrefix(a.url.value, "https://github.com/" + repository + "/releases/download/")
  }

  /** Selection succeeds exactly for an acceptable release with one matching asset that is sound, and
      gives that asset. */
  lemma SelectMeaning(release: Release, repository: string, arch: string, pattern: string, pin: Option<Pin>, m: Matcher)
    ensures SelectReleaseAsset(release, repository, arch, pattern, pin, m).Ok? <==>
      && Acceptable(release, pin)
      && exists i | OnlyMatch(release.assets.value, pattern, m, i) ::
           Usable(release.assets.value[i], repository, arch, pin)
    ensures var r := SelectReleaseAsset(release, repository, arch, pattern, pin, m);
            r.Ok? ==> forall i :: OnlyMatch(release.assets.value, pattern, m, i) ==>
              var a := release.assets.value[i];
              && a.name == Some(r.value.name) && a.size == Some(r.value.size) && a.assetId == Some(r.value.assetId)
              && a.url == Some(r.value.url) && a.digest == Some(SHA256_PREFIX + r.value.sha256)
  {
    hide IsHttps, IsSha256, NonBlank, Matching, OnlyMatch;
    if release.assets.Some? {
      OneMatches(release.assets.value, pattern, m);
      MatchingMatches(release.assets.value, pattern, m);
      var matches := Matching(release.assets.value, pattern, m);
      if |matches| == 1 && matches[0].digest.Some? {
        PrefixAndRest(matches[0].digest.value, SHA256_PREFIX);
      }
    }
  }

  lemma PrefixAndRest(s: string, prefix: string)
    ensures HasPrefix(s, prefix) ==> s == prefix + s[|prefix|..]
  {
  }

  ghost predicate PermutedRelease(a: Release, b: Release) {
    && a.(assets := None) == b.(assets := None) && a.assets.Some? == b.assets.Some?
    && (a.assets.Some? ==> multiset(a.assets.value) == multiset(b.assets.value))
  }

  /** The order in which GitHub lists the assets does not matter. */
  lemma SelectPermuted(a: Release, b: Release, repository: string, arch: string, pattern: string, pin: Option<Pin>,
      m: Matcher)
    requires PermutedRelease(a, b)
    ensures SelectReleaseAsset(a, repository, arch, pattern, pin, m)
         == SelectReleaseAsset(b, repository, arch, pattern, pin, m)
  {
    hide IsHttps, IsSha256, HasPrefix, NonBlank;
    if a.assets.Some? {
      MatchingPermuted(a.assets.value, b.assets.value, pattern, m);
    }
  }

  lemma MatchingPermuted(s: seq<RawAsset>, t: seq<RawAsset>, pattern: string, m: Matcher)
    requires multiset(s) == multiset(t)
    ensures |Matching(s, pattern, m)| == |Matching(t, pattern, m)|
    ensures |Matching(s, pattern, m)| == 1 ==> Matching(s, pattern, m)[0] == Matching(t, pattern, m)[0]
  {
    hide Matching;
    var x, y := Matching(s, pattern, m), Matching(t, pattern, m);
    forall a
      ensures multiset(x)[a] == multiset(y)[a]
    {
      MatchingMultiset(s, pattern, m, a);
      MatchingMultiset(t, pattern, m, a);
    }
    assert multiset(x) == multiset(y);
    OnlyElement(x, y);
  }

  lemma OnlyElement<T>(x: seq<T>, y: seq<T>)
    requires multiset(x) == multiset(y)
    ensures |x| == |y| && (|x| == 1 ==> x[0] == y[0])
  {
    SameMembers(x, y);
    if |x| == 1 {
      assert x[0] in y;
    }
  }

  // ----- resolving one application

  predicate ArchLeq(a: AssetSpec, b: AssetSpec) {
    Leq(a.arch, b.arch)
  }

  predicate IdLeq(a: App, b: App) {
    Leq(a.id, b.id)
  }

  function PinTag(a: App): Option<string> {
    if a.pin.Some? then Some(a.pin.value.tag) else None
  }

  function ResolveAssets(release: Release, app: App, specs: seq<AssetSpec>, m: Matcher): Result<seq<RAsset>> {
    if specs == [] then Ok([])
    else
      var before := ResolveAssets(release, app, specs[..|specs|-1], m);
      if before.Err? then before
      else
        var last := specs[|specs|-1];
        var r := SelectReleaseAsset(release, app.repository, last.arch, last.pattern, app.pin, m);
        if r.Err? then Err(r.reason) else Ok(before.value + [r.value])
  }

  function ResolveApp(app: App, fetch: Fetcher, m: Matcher): Result<RApp> {
    match fetch(app.repository, PinTag(app))
    case None => Err("release request failed")
    case Some(release) =>
      var assets := ResolveAssets(release, app, Sort(ArchLeq, app.assets), m);
      if assets.Err? then Err(assets.reason)
      else Ok(RApp(Entry(app), OptString(release.tagName), release.prerelease == Some(true), assets.value))
  }

  function Entry(a: App): App {
    a.(assets := [])
  }

  function OptString(s: Option<string>): string {
    if s.Some? then s.value else ""
  }

  function ResolveAll(apps: seq<App>, fetch: Fetcher, m: Matcher): Result<seq<RApp>> {
    if apps == [] then Ok([])
    else
      var before := ResolveAll(apps[..|apps|-1], fetch, m);
      if before.Err? then before
      else
        var r := ResolveApp(apps[|apps|-1], fetch, m);
        if r.Err? then Err(r.reason) else Ok(before.value + [r.value])
  }

  const INVALID := "invalid catalog"

  /** What resolve_catalog gives: a catalog is validated before anything is fetched. */
  ghost function Resolved(c: Catalog, fetch: Fetcher, m: Matcher): Result<seq<RApp>> {
    if ValidCatalog(c) then ResolveAll(Sort(IdLeq, c.apps), fetch, m) else Err(INVALID)
  }

  method ResolveCatalog(c: Catalog, fetch: Fetcher, m: Matcher) returns (r: Result<seq<RApp>>)
    ensures r == Resolved(c, fetch, m)
  {
    hide ValidCatalog, ResolveApp;
    var ok := ValidateCatalog(c);
    if !ok {
      return Err(INVALID);
    }
    var apps := Sort(IdLeq, c.apps);
    var resolved: seq<RApp> := [];
    for i := 0 to |apps|
      invariant Ok(resolved) == ResolveAll(apps[..i], fetch, m)
    {
      PrefixStep(apps, i);
      var one := ResolveApp(apps[i], fetch, m);
      if one.Err? {
        ErrorStays(apps, i + 1, fetch, m);
        return Err(one.reason);
      }
      resolved := resolved + [one.value];
    }
    assert apps[..|apps|] == apps;
    r := Ok(resolved);
  }

  lemma {:induction false} ErrorStays(apps: seq<App>, n: nat, fetch: Fetcher, m: Matcher)
    requires n <= |apps| && ResolveAll(apps[..n], fetch, m).Err?
    ensures ResolveAll(apps, fetch, m) == ResolveAll(apps[..n], fetch, m)
    decreases |apps|
  {
    hide ResolveApp;
    if n == |apps| {
      assert apps[..n] == apps;
    } else {
      assert apps[..|apps|-1][..n] == apps[..n];
      ErrorStays(apps[..|apps|-1], n, fetch, m);
    }
  }

  // ----- what a resolved catalog looks like

  ghost predicate Before(a: string, b: string) {
    Leq(a, b) && a != b
  }

  /** One asset for each architecture of the entry, sorted by architecture. */
  ghost predicate OneAssetPerArch(app: App, assets: seq<RAsset>) {
    && |assets| == |app.assets|
    && (forall i, j :: 0 <= i < j < |assets| ==> Before(assets[i].arch, assets[j].arch))
    && (forall s | s in app.assets ::
         exists i :: 0 <= i < |assets| && assets[i].arch == s.arch && assets[i].pattern == s.pattern)
    && (forall i :: 0 <= i < |assets| ==> assets[i].arch in Arches(app.assets))
  }

  /** Digests are SHA-256; under a pin they are the pinned ones, and so is the tag; without a pin
      the release is not a prerelease. */
  ghost predicate Reviewed(r: RApp) {
    && (forall i :: 0 <= i < |r.assets| ==> IsSha256(r.assets[i].sha256))
    && (r.entry.pin.Some? ==>
          && r.tag == r.entry.pin.value.tag
          && forall i :: 0 <= i < |r.assets| ==>
               r.assets[i].arch in r.entry.pin.value.assetSha256 &&
                   r.assets[i].sha256 == r.entry.pin.value.assetSha256[r.assets[i].arch])
    && (r.entry.pin.None? ==> !r.prerelease)
  }

  /** A resolved application is faithful to its catalog entry. */
  ghost predicate Faithful(app: App, r: RApp) {
    r.entry == Entry(app) && OneAssetPerArch(app, r.assets) && Reviewed(r)
  }

  lemma {:induction false} ResolveAssetsPointwise(release: Release, app: App, specs: seq<AssetSpec>, m: Matcher)
    ensures var r := ResolveAssets(release, app, specs, m); r.Ok? ==>
      && |r.value| == |specs|
      && forall i :: 0 <= i < |specs| ==>
           SelectReleaseAsset(release, app.repository, specs[i].arch, specs[i].pattern, app.pin, m) == Ok(r.value[i])
  {
    hide SelectReleaseAsset;
    if specs != [] {
      ResolveAssetsPointwise(release, app, specs[..|specs|-1], m);
    }
  }

  lemma ArchOrder()
    ensures TotalPreorder(ArchLeq)
  {
    forall a: AssetSpec, b: AssetSpec
      ensures ArchLeq(a, b) || ArchLeq(b, a)
    {
      LeqTotal(a.arch, b.arch);
    }
    forall a: AssetSpec, b: AssetSpec, c: AssetSpec | ArchLeq(a, b) && ArchLeq(b, c)
      ensures ArchLeq(a, c)
    {
      LeqTransitive(a.arch, b.arch, c.arch);
    }
  }

  lemma IdOrder()
    ensures TotalPreorder(IdLeq)
  {
    forall a: App, b: App
      ensures IdLeq(a, b) || IdLeq(b, a)
    {
      LeqTotal(a.id, b.id);
    }
    forall a: App, b: App, c: App | IdLeq(a, b) && IdLeq(b, c)
      ensures IdLeq(a, c)
    {
      LeqTransitive(a.id, b.id, c.id);
    }
  }

  ghost predicate DistinctArches(assets: seq<AssetSpec>) {
    forall i, j :: 0 <= i < j < |assets| ==> assets[i].arch != assets[j].arch
  }

  ghost predicate DistinctIds(apps: seq<App>) {
    forall i, j :: 0 <= i < j < |apps| ==> apps[i].id != apps[j].id
  }

  /** Sorted by architecture, with every entry of the list once. */
  lemma SortedArches(assets: seq<AssetSpec>)
    requires DistinctArches(assets)
    ensures var s := Sort(ArchLeq, assets);
            && |s| == |assets| && (forall x :: x in s <==> x in assets)
            && forall i, j :: 0 <= i < j < |s| ==> Before(s[i].arch, s[j].arch)
  {
    var s := Sort(ArchLeq, assets);
    ArchOrder();
    SortSorted(ArchLeq, assets);
    SameMembers(assets, s);
    MultisetNoDuplicates(assets, s);
    forall i, j | 0 <= i < j < |s|
      ensures Before(s[i].arch, s[j].arch)
    {
      assert s[i] in assets && s[j] in assets && s[i] != s[j];
    }
  }

  lemma SortedIds(apps: seq<App>)
    requires DistinctIds(apps)
    ensures var s := Sort(IdLeq, apps);
            && |s| == |apps| && (forall x :: x in s <==> x in apps)
            && forall i, j :: 0 <= i < j < |s| ==> Before(s[i].id, s[j].id)
  {
    var s := Sort(IdLeq, apps);
    IdOrder();
    SortSorted(IdLeq, apps);
    SameMembers(apps, s);
    MultisetNoDuplicates(apps, s);
    hide Sort, DistinctIds, TotalPreorder;
    forall i, j | 0 <= i < j < |s|
      ensures Before(s[i].id, s[j].id)
    {
      assert s[i] in apps && s[j] in apps && s[i] != s[j] && IdLeq(s[i], s[j]);
      OneId(apps, s[i], s[j]);
    }
  }

  lemma OneId(apps: seq<App>, a: App, b: App)
    requires DistinctIds(apps) && a in apps && b in apps && a != b
    ensures a.id != b.id
  {
    var i :| 0 <= i < |apps| && apps[i] == a;
    var j :| 0 <= j < |apps| && apps[j] == b;
  }

  ghost predicate Selected(release: Release, app: App, specs: seq<AssetSpec>, m: Matcher, assets: seq<RAsset>) {
    && |assets| == |specs|
    && forall i :: 0 <= i < |specs| ==>
         SelectReleaseAsset(release, app.repository, specs[i].arch, specs[i].pattern, app.pin, m) == Ok(assets[i])
  }

  lemma SelectedArches(release: Release, app: App, specs: seq<AssetSpec>, m: Matcher, assets: seq<RAsset>)
    requires Selected(release, app, specs, m, assets)
    ensures |assets| == |specs|
    ensures forall i :: 0 <= i < |specs| ==> assets[i].arch == specs[i].arch && assets[i].pattern == specs[i].pattern
  {
    hide IsSha256, IsHttps, HasPrefix, SelectReleaseAsset;
  }

  lemma SelectedOneAssetPerArch(release: Release, app: App, m: Matcher, assets: seq<RAsset>)
    requires DistinctArches(app.assets) && Selected(release, app, Sort(ArchLeq, app.assets), m, assets)
    ensures OneAssetPerArch(app, assets)
  {
    hide *;
    var specs := Sort(ArchLeq, app.assets);
    SortedArches(app.assets);
    SelectedArches(release, app, specs, m, assets);
    SortedOneAssetPerArch(app, specs, assets);
  }

  lemma SortedOneAssetPerArch(app: App, specs: seq<AssetSpec>, assets: seq<RAsset>)
    requires |specs| == |app.assets| == |assets| && forall s :: s in specs <==> s in app.assets
    requires forall i, j :: 0 <= i < j < |specs| ==> Before(specs[i].arch, specs[j].arch)
    requires forall i :: 0 <= i < |specs| ==> assets[i].arch == specs[i].arch && assets[i].pattern == specs[i].pattern
    ensures OneAssetPerArch(app, assets)
  {
    hide Before;
    EverySpecSelected(app, specs, assets);
    forall i | 0 <= i < |assets|
      ensures assets[i].arch in Arches(app.assets)
    {
      assert specs[i] in app.assets;
    }
  }

  lemma EverySpecSelected(app: App, specs: seq<AssetSpec>, assets: seq<RAsset>)
    requires |assets| == |specs| && forall s :: s in app.assets ==> s in specs
    requires forall i :: 0 <= i < |specs| ==> assets[i].arch == specs[i].arch && assets[i].pattern == specs[i].pattern
    ensures forall s | s in app.assets ::
              exists i :: 0 <= i < |assets| && assets[i].arch == s.arch && assets[i].pattern == s.pattern
  {
    forall s | s in app.assets
      ensures exists i :: 0 <= i < |assets| && assets[i].arch == s.arch && assets[i].pattern == s.pattern
    {
      var i :| 0 <= i < |specs| && specs[i] == s;
      assert assets[i].arch == s.arch;
    }
  }

  lemma SelectedReviewed(release: Release, app: App, specs: seq<AssetSpec>, m: Matcher, assets: seq<RAsset>)
    requires Selected(release, app, specs, m, assets) && specs != []
    ensures Reviewed(RApp(Entry(app), OptString(release.tagName), release.prerelease == Some(true), assets))
  {
    hide IsSha256, IsHttps, HasPrefix, SelectReleaseAsset;
    forall i | 0 <= i < |assets|
      ensures IsSha256(assets[i].sha256)
      ensures app.pin.Some? ==>
        && release.tagName == Some(app.pin.value.tag)
        && assets[i].arch in app.pin.value.assetSha256 && assets[i].sha256 == app.pin.value.assetSha256[assets[i].arch]
    {
      assert SelectReleaseAsset(release, app.repository, specs[i].arch, specs[i].pattern, app.pin, m) == Ok(assets[i]);
    }
    assert SelectReleaseAsset(release, app.repository, specs[0].arch, specs[0].pattern, app.pin, m) == Ok(assets[0]);
    assert IsSha256(assets[0].sha256);
  }

  lemma ResolvedAppFaithful(app: App, fetch: Fetcher, m: Matcher)
    requires DistinctArches(app.assets) && app.assets != [] && ResolveApp(app, fetch, m).Ok?
    ensures Faithful(app, ResolveApp(app, fetch, m).value)
  {
    hide DistinctArches, Selected, ResolveAssets, OneAssetPerArch, Reviewed;
    var release := fetch(app.repository, PinTag(app)).value;
    var specs := Sort(ArchLeq, app.assets);
    SortedArches(app.assets);
    ResolveAssetsSelected(release, app, specs, m);
    var assets := ResolveApp(app, fetch, m).value.assets;
    SelectedOneAssetPerArch(release, app, m, assets);
    SelectedReviewed(release, app, specs, m, assets);
  }

  lemma ResolveAssetsSelected(release: Release, app: App, specs: seq<AssetSpec>, m: Matcher)
    requires ResolveAssets(release, app, specs, m).Ok?
    ensures Selected(release, app, specs, m, ResolveAssets(release, app, specs, m).value)
    ensures |ResolveAssets(release, app, specs, m).value| == |specs|
  {
    hide SelectReleaseAsset;
    ResolveAssetsPointwise(release, app, specs, m);
  }

  lemma {:induction false} ResolveAllPointwise(apps: seq<App>, fetch: Fetcher, m: Matcher)
    ensures var r := ResolveAll(apps, fetch, m); r.Ok? ==>
      |r.value| == |apps| && forall i :: 0 <= i < |apps| ==> ResolveApp(apps[i], fetch, m) == Ok(r.value[i])
  {
    hide ResolveApp;
    if apps != [] {
      ResolveAllPointwise(apps[..|apps|-1], fetch, m);
    }
  }

  lemma ValidDistinct(c: Catalog)
    requires ValidCatalog(c)
    ensures DistinctIds(c.apps) && forall a :: a in c.apps ==> DistinctArches(a.assets) && a.assets != []
  {
  }

  /** A resolved catalog has every catalog application once, strictly sorted by id, each faithful
      to its entry. */
  lemma ResolvedCatalog(c: Catalog, fetch: Fetcher, m: Matcher)
    requires ValidCatalog(c) && ResolveAll(Sort(IdLeq, c.apps), fetch, m).Ok?
    ensures var sorted := Sort(IdLeq, c.apps);
            var r := ResolveAll(sorted, fetch, m).value;
            && multiset(sorted) == multiset(c.apps) && |r| == |sorted|
            && (forall i, j :: 0 <= i < j < |r| ==> Before(r[i].entry.id, r[j].entry.id))
            && (forall i :: 0 <= i < |r| ==> Faithful(sorted[i], r[i]))
  {
    hide ValidCatalog, OneAssetPerArch, Reviewed, ResolveApp, ResolveAll;
    var sorted := Sort(IdLeq, c.apps);
    var r := ResolveAll(sorted, fetch, m).value;
    ValidDistinct(c);
    SortedIds(c.apps);
    ResolveAllPointwise(sorted, fetch, m);
    forall i | 0 <= i < |r|
      ensures Faithful(sorted[i], r[i])
    {
      assert sorted[i] in c.apps;
      ResolvedAppFaithful(sorted[i], fetch, m);
    }
  }

  // ----- when a catalog resolves, and to what, told from the answers of GitHub alone

  function Answer(app: App, fetch: Fetcher): Option<Release> {
    fetch(app.repository, if app.pin.Some? then Some(app.pin.value.tag) else None)
  }

  /** Exactly one asset of the release matches the pattern of the entry, and it is usable. */
  ghost predicate HasAsset(release: Release, app: App, s: AssetSpec, m: Matcher) {
    release.assets.Some? && exists i | OnlyMatch(release.assets.value, s.pattern, m, i) ::
                              Usable(release.assets.value[i], app.repository, s.arch, app.pin)
  }

  /** The fetch answers with an acceptable release that has an asset for each entry. */
  ghost predicate Resolvable(app: App, fetch: Fetcher, m: Matcher) {
    && Answer(app, fetch).Some? && Acceptable(Answer(app, fetch).value, app.pin)
    && forall s :: s in app.assets ==> HasAsset(Answer(app, fetch).value, app, s, m)
  }

  ghost predicate SameAsset(a: RawAsset, r: RAsset) {
    && a.name == Some(r.name) && a.size == Some(r.size) && a.assetId == Some(r.assetId) && a.url == Some(r.url)
    && a.digest == Some("sha256:" + r.sha256)
  }

  /** What is known of the application comes from its entry and from the release that was fetched. */
  ghost predicate ComesFrom(app: App, fetch: Fetcher, m: Matcher, r: RApp) {
    && Answer(app, fetch).Some?
    && var release := Answer(app, fetch).value;
    && r.entry.assets == [] && r.entry.(assets := app.assets) == app
    && release.tagName == Some(r.tag) && (r.prerelease <==> release.prerelease == Some(true))
    && release.assets.Some?
    && forall i :: 0 <= i < |r.assets| ==> ComesFromAsset(release.assets.value, m, r.assets[i])
  }

  ghost predicate ComesFromAsset(assets: seq<RawAsset>, m: Matcher, r: RAsset) {
    exists j :: OnlyMatch(assets, r.pattern, m, j) && SameAsset(assets[j], r)
  }

  lemma SelectExactly(release: Release, app: App, s: AssetSpec, m: Matcher)
    ensures var r := SelectReleaseAsset(release, app.repository, s.arch, s.pattern, app.pin, m);
      && (r.Ok? <==> Acceptable(release, app.pin) && HasAsset(release, app, s, m))
      && (r.Ok? ==> release.assets.Some? && ComesFromAsset(release.assets.value, m, r.value))
  {
    SelectMeaning(release, app.repository, s.arch, s.pattern, app.pin, m);
    var r := SelectReleaseAsset(release, app.repository, s.arch, s.pattern, app.pin, m);
    assert r.Ok? ==> r.value.pattern == s.pattern;
    hide OnlyMatch, Usable, SelectReleaseAsset;
    if r.Ok? {
      var i :| OnlyMatch(release.assets.value, s.pattern, m, i);
      assert SameAsset(release.assets.value[i], r.value);
    }
  }

  ghost predicate HasAssets(release: Release, app: App, specs: seq<AssetSpec>, m: Matcher) {
    Acceptable(release, app.pin) && forall i :: 0 <= i < |specs| ==> HasAsset(release, app, specs[i], m)
  }

  ghost predicate ComeFromAssets(release: Release, m: Matcher, assets: seq<RAsset>) {
    release.assets.Some? && forall i :: 0 <= i < |assets| ==> ComesFromAsset(release.assets.value, m, assets[i])
  }

  lemma {:induction false} AssetsExactly(release: Release, app: App, specs: seq<AssetSpec>, m: Matcher)
    requires specs != []
    ensures var r := ResolveAssets(release, app, specs, m);
            (r.Ok? <==> HasAssets(release, app, specs, m)) && (r.Ok? ==> ComeFromAssets(release, m, r.value))
  {
    hide SelectReleaseAsset, Acceptable, HasAsset, ComesFromAsset, ResolveAssets;
    var n := |specs| - 1;
    SelectExactly(release, app, specs[n], m);
    AssetsStep(release, app, specs, m);
    assert forall i :: 0 <= i < n ==> specs[..n][i] == specs[i];
    if n > 0 {
      AssetsExactly(release, app, specs[..n], m);
    } else {
      NoAssets(release, app, m);
      assert specs[..n] == [];
    }
  }

  lemma AssetsStep(release: Release, app: App, specs: seq<AssetSpec>, m: Matcher)
    requires specs != []
    ensures var n := |specs| - 1;
            var before, r := ResolveAssets(release, app, specs[..n], m), ResolveAssets(release, app, specs, m);
            var last := SelectReleaseAsset(release, app.repository, specs[n].arch, specs[n].pattern, app.pin, m);
            (r.Ok? <==> before.Ok? && last.Ok?) && (r.Ok? ==> r.value == before.value + [last.value])
  {
    hide SelectReleaseAsset;
  }

  lemma NoAssets(release: Release, app: App, m: Matcher)
    ensures ResolveAssets(release, app, [], m) == Ok([])
  {
  }

  /** An application resolves exactly when its answer allows it, and then to what was answered. */
  lemma AppExactly(app: App, fetch: Fetcher, m: Matcher)
    requires app.assets != []
    ensures var r := ResolveApp(app, fetch, m);
      && (r.Ok? <==> Resolvable(app, fetch, m))
      && (r.Ok? ==> ComesFrom(app, fetch, m, r.value))
  {
    hide ResolveAssets, HasAsset, ComesFromAsset;
    if Answer(app, fetch).Some? {
      var release := Answer(app, fetch).value;
      var specs := Sort(ArchLeq, app.assets);
      SameMembers(app.assets, specs);
      hide Sort;
      assert app.assets[0] in specs;
      AssetsExactly(release, app, specs, m);
    }
  }

  lemma {:induction false} AllExactly(apps: seq<App>, fetch: Fetcher, m: Matcher)
    requires forall a :: a in apps ==> a.assets != []
    ensures ResolveAll(apps, fetch, m).Ok? <==> forall i :: 0 <= i < |apps| ==> Resolvable(apps[i], fetch, m)
  {
    hide ResolveApp, Resolvable;
    if apps != [] {
      var n := |apps| - 1;
      assert apps[n] in apps && forall i :: 0 <= i < n ==> apps[..n][i] == apps[i];
      AllExactly(apps[..n], fetch, m);
      AppExactly(apps[n], fetch, m);
    }
  }

  /** A catalog resolves exactly when it is valid and each of its applications can be resolved; each
      resolved application is then what its entry and its release say. */
  lemma ResolvesExactly(c: Catalog, fetch: Fetcher, m: Matcher)
    ensures var r := Resolved(c, fetch, m);
      && (r.Ok? <==> ValidCatalog(c) && forall a :: a in c.apps ==> Resolvable(a, fetch, m))
      && (r.Ok? ==>
            && |r.value| == |c.apps|
            && forall i :: 0 <= i < |r.value| ==>
                 exists a :: a in c.apps && ComesFrom(a, fetch, m, r.value[i]))
  {
    hide ValidCatalog, ResolveAll, ResolveApp, Resolvable, ComesFrom, Answer;
    if ValidCatalog(c) {
      var sorted := Sort(IdLeq, c.apps);
      SameMembers(c.apps, sorted);
      ValidDistinct(c);
      AllExactly(sorted, fetch, m);
      ResolveAllPointwise(sorted, fetch, m);
      if ResolveAll(sorted, fetch, m).Ok? {
        var r := ResolveAll(sorted, fetch, m).value;
        forall i | 0 <= i < |r|
          ensures exists a :: a in c.apps && ComesFrom(a, fetch, m, r[i])
        {
          assert sorted[i] in c.apps;
          AppExactly(sorted[i], fetch, m);
        }
      }
    }
  }

  // ----- nothing depends on the order of the inputs

  lemma ApartPermuted(s: seq<App>, t: seq<App>)
    requires AllApart(s) && multiset(s) == multiset(t)
    ensures AllApart(t)
  {
    hide Apart;
    SameMembers(s, t);
    ApartIsSymmetric();
    forall i, j | 0 <= i < j < |s|
      ensures s[i] != s[j]
    {
      DifferentIds(s[i], s[j]);
    }
    MultisetNoDuplicates(s, t);
    forall i, j | 0 <= i < j < |t|
      ensures Apart(t[i], t[j])
    {
      assert t[i] in t && t[j] in t;
      var k :| 0 <= k < |s| && s[k] == t[i];
      var l :| 0 <= l < |s| && s[l] == t[j];
      assert k != l;
    }
  }

  lemma DifferentIds(a: App, b: App)
    requires Apart(a, b)
    ensures a != b
  {
  }

  lemma ApartIsSymmetric()
    ensures forall a, b :: Apart(a, b) ==> Apart(b, a)
  {
  }

  /** Permuting the applications of a catalog keeps it valid. */
  lemma ValidPermuted(c: Catalog, d: Catalog)
    requires ValidCatalog(c) && c.(apps := []) == d.(apps := []) && multiset(c.apps) == multiset(d.apps)
    ensures ValidCatalog(d)
  {
    hide ValidTexts, ValidRetires, ValidPin, ValidScreenshots, ValidAssets, AllApart, NonBlank;
    SameMembers(c.apps, d.apps);
    ApartPermuted(c.apps, d.apps);
    assert c.(apps := []).owner == d.owner && c.(apps := []).channel == d.channel;
    assert c.(apps := []).schemaVersion == d.schemaVersion;
    assert c.apps[0] in d.apps;
  }

  /** Permuting the applications of a catalog changes nothing of what resolving it gives. */
  lemma AppOrderIrrelevant(c: Catalog, d: Catalog, fetch: Fetcher, m: Matcher)
    requires c.(apps := []) == d.(apps := []) && multiset(c.apps) == multiset(d.apps)
    ensures ValidCatalog(c) <==> ValidCatalog(d)
    ensures Resolved(c, fetch, m) == Resolved(d, fetch, m)
  {
    hide ValidCatalog, ResolveAll;
    if ValidCatalog(c) {
      ValidPermuted(c, d);
      SortedAlike(c, d, fetch, m);
    }
    if ValidCatalog(d) {
      ValidPermuted(d, c);
    }
  }

  lemma SortedAlike(c: Catalog, d: Catalog, fetch: Fetcher, m: Matcher)
    requires ValidCatalog(c) && multiset(c.apps) == multiset(d.apps)
    ensures ResolveAll(Sort(IdLeq, c.apps), fetch, m) == ResolveAll(Sort(IdLeq, d.apps), fetch, m)
  {
    hide ResolveAll, ValidCatalog;
    ValidDistinct(c);
    IdOrder();
    forall x, y | x in c.apps && y in c.apps && IdLeq(x, y) && IdLeq(y, x)
      ensures x == y
    {
      LeqAntisymmetric(x.id, y.id);
      var i :| 0 <= i < |c.apps| && c.apps[i] == x;
      var j :| 0 <= j < |c.apps| && c.apps[j] == y;
    }
    SortPermutation(IdLeq, c.apps, d.apps);
  }

  /** The same entry with its assets in another order. */
  ghost predicate PermutedAssets(a: App, b: App) {
    a.(assets := []) == b.(assets := []) && multiset(a.assets) == multiset(b.assets)
  }

  lemma ValidAssetsPermuted(s: seq<AssetSpec>, t: seq<AssetSpec>)
    requires multiset(s) == multiset(t) && ValidAssets(s)
    ensures ValidAssets(t) && Arches(s) == Arches(t)
  {
    hide NonBlank, IsArch, IsPattern;
    SameMembers(s, t);
    assert s[0] in t;
    assert NoDuplicates(s);
    MultisetNoDuplicates(s, t);
    forall i, j | 0 <= i < j < |t|
      ensures t[i].arch != t[j].arch
    {
      assert t[i] in t && t[j] in t;
      var k :| 0 <= k < |s| && s[k] == t[i];
      var l :| 0 <= l < |s| && s[l] == t[j];
      assert k != l;
    }
  }

  lemma ValidAppPermuted(c: Catalog, d: Catalog, a: App, b: App)
    requires c.owner == d.owner && c.channel == d.channel && PermutedAssets(a, b) && ValidApp(c, a)
    ensures ValidApp(d, b)
  {
    hide NonBlank, IsAppId, IsRepository, HasPrefix, IsHttps, ValidAssets, ValidDigests, ValidShot, Arches;
    ValidAssetsPermuted(a.assets, b.assets);
    var x := a.(assets := []);
    assert x == b.(assets := []);
    assert x.pin == b.pin && x.retires == b.retires && x.screenshots == b.screenshots && x.id == b.id;
  }

  /** Permuting the assets of the entries of a catalog keeps it valid. */
  lemma ValidAssetOrder(c: Catalog, d: Catalog)
    requires ValidCatalog(c) && c.(apps := []) == d.(apps := []) && AllPermutedAssets(c.apps, d.apps)
    ensures ValidCatalog(d)
  {
    hide ValidApp, NonBlank, AllApart, RetiredAreGone, SameKeys;
    assert c.(apps := []).owner == d.owner && c.(apps := []).channel == d.channel;
    assert c.(apps := []).schemaVersion == d.schemaVersion;
    forall i | 0 <= i < |c.apps|
      ensures ValidApp(d, d.apps[i])
      ensures Entry(c.apps[i]) == Entry(d.apps[i])
    {
      assert c.apps[i] in c.apps;
      ValidAppPermuted(c, d, c.apps[i], d.apps[i]);
    }
    SameEntries(c.apps, d.apps);
    SameKeysApart(c.apps, d.apps);
    SameKeysGone(c.apps, d.apps);
  }

  ghost predicate SameKeys(s: seq<App>, t: seq<App>) {
    && |s| == |t|
    && forall i :: 0 <= i < |s| ==>
         s[i].id == t[i].id && s[i].repository == t[i].repository && Retires(s[i]) == Retires(t[i])
  }

  lemma SameEntries(s: seq<App>, t: seq<App>)
    requires |s| == |t| && forall i :: 0 <= i < |s| ==> Entry(s[i]) == Entry(t[i])
    ensures SameKeys(s, t)
  {
    forall i | 0 <= i < |s|
      ensures s[i].id == t[i].id && s[i].repository == t[i].repository && Retires(s[i]) == Retires(t[i])
    {
      assert Entry(s[i]).id == t[i].id && Entry(s[i]).repository == t[i].repository;
      assert Entry(s[i]).retires == t[i].retires;
    }
  }

  lemma SameKeysApart(s: seq<App>, t: seq<App>)
    requires SameKeys(s, t) && AllApart(s)
    ensures AllApart(t)
  {
    hide Fold, Retires;
    forall i, j | 0 <= i < j < |t|
      ensures Apart(t[i], t[j])
    {
      assert Apart(s[i], s[j]);
    }
  }

  lemma SameKeysGone(s: seq<App>, t: seq<App>)
    requires SameKeys(s, t) && RetiredAreGone(s)
    ensures RetiredAreGone(t)
  {
    hide Retires;
    forall a, b | a in t && b in t
      ensures a.id !in Retires(b)
    {
      var i :| 0 <= i < |t| && t[i] == a;
      var j :| 0 <= j < |t| && t[j] == b;
      assert s[i] in s && s[j] in s;
    }
  }

  ghost predicate PermutedFetch(f: Fetcher, g: Fetcher) {
    forall repository, tag :: f(repository, tag).Some? == g(repository, tag).Some? &&
      (f(repository, tag).Some? ==> PermutedRelease(f(repository, tag).value, g(repository, tag).value))
  }

  lemma {:induction false} ResolveAssetsPermuted(a: Release, b: Release, x: App, y: App, specs: seq<AssetSpec>,
      m: Matcher)
    requires PermutedRelease(a, b) && x.repository == y.repository && x.pin == y.pin
    ensures ResolveAssets(a, x, specs, m) == ResolveAssets(b, y, specs, m)
  {
    hide SelectReleaseAsset;
    if specs != [] {
      ResolveAssetsPermuted(a, b, x, y, specs[..|specs|-1], m);
      var last := specs[|specs|-1];
      SelectPermuted(a, b, x.repository, last.arch, last.pattern, x.pin, m);
    }
  }

  lemma ArchesAntisymmetric(assets: seq<AssetSpec>)
    requires DistinctArches(assets)
    ensures AntisymmetricOn(ArchLeq, assets)
  {
    forall x, y | x in assets && y in assets && ArchLeq(x, y) && ArchLeq(y, x)
      ensures x == y
    {
      LeqAntisymmetric(x.arch, y.arch);
      var i :| 0 <= i < |assets| && assets[i] == x;
      var j :| 0 <= j < |assets| && assets[j] == y;
    }
  }

  lemma PermutedAppResolves(a: App, b: App, f: Fetcher, g: Fetcher, m: Matcher)
    requires DistinctArches(a.assets) && PermutedAssets(a, b) && PermutedFetch(f, g)
    ensures ResolveApp(a, f, m) == ResolveApp(b, g, m)
  {
    hide ResolveAssets;
    assert f(a.repository, PinTag(a)).Some? == g(a.repository, PinTag(a)).Some?;
    assert Entry(a).repository == b.repository && Entry(a).pin == b.pin;
    ArchOrder();
    ArchesAntisymmetric(a.assets);
    SortPermutation(ArchLeq, a.assets, b.assets);
    if f(a.repository, PinTag(a)).Some? {
      ResolveAssetsPermuted(f(a.repository, PinTag(a)).value,
                            g(a.repository, PinTag(a)).value, a, b,
                            Sort(ArchLeq, a.assets), m);
    }
  }

  ghost predicate AllPermutedAssets(s: seq<App>, t: seq<App>) {
    |s| == |t| && forall i :: 0 <= i < |s| ==> PermutedAssets(s[i], t[i])
  }

  lemma {:induction false} InsertPermuted(a: App, b: App, s: seq<App>, t: seq<App>)
    requires PermutedAssets(a, b) && AllPermutedAssets(s, t)
    ensures AllPermutedAssets(Insert(IdLeq, a, s), Insert(IdLeq, b, t))
  {
    hide PermutedAssets, IdLeq;
    if s == [] {
      PermutedMore(a, b, s, t);
    } else {
      SameId(a, b, s[0], t[0]);
      PermutedRest(s, t);
      if IdLeq(a, s[0]) {
        PermutedMore(a, b, s, t);
      } else {
        InsertPermuted(a, b, s[1..], t[1..]);
        PermutedMore(s[0], t[0], Insert(IdLeq, a, s[1..]), Insert(IdLeq, b, t[1..]));
      }
    }
  }

  lemma PermutedMore(a: App, b: App, s: seq<App>, t: seq<App>)
    requires PermutedAssets(a, b) && AllPermutedAssets(s, t)
    ensures AllPermutedAssets([a] + s, [b] + t)
  {
    hide PermutedAssets;
  }

  lemma PermutedRest(s: seq<App>, t: seq<App>)
    requires s != [] && AllPermutedAssets(s, t)
    ensures AllPermutedAssets(s[1..], t[1..])
  {
    hide PermutedAssets;
  }

  lemma SameId(a: App, b: App, x: App, y: App)
    requires PermutedAssets(a, b) && PermutedAssets(x, y)
    ensures IdLeq(a, x) <==> IdLeq(b, y)
  {
    assert Entry(a).id == b.id && Entry(x).id == y.id;
  }

  lemma {:induction false} SortPermuted(s: seq<App>, t: seq<App>)
    requires AllPermutedAssets(s, t)
    ensures AllPermutedAssets(Sort(IdLeq, s), Sort(IdLeq, t))
  {
    if s != [] {
      SortPermuted(s[1..], t[1..]);
      InsertPermuted(s[0], t[0], Sort(IdLeq, s[1..]), Sort(IdLeq, t[1..]));
    }
  }

  lemma {:induction false} ResolveAllPermuted(s: seq<App>, t: seq<App>, f: Fetcher, g: Fetcher, m: Matcher)
    requires AllPermutedAssets(s, t) && PermutedFetch(f, g) && forall a :: a in s ==> DistinctArches(a.assets)
    ensures ResolveAll(s, f, m) == ResolveAll(t, g, m)
  {
    hide ResolveApp, PermutedFetch, PermutedAssets, DistinctArches;
    if s != [] {
      var n := |s| - 1;
      assert forall a :: a in s[..n] ==> a in s;
      assert s[n] in s;
      ResolveAllPermuted(s[..n], t[..n], f, g, m);
      PermutedAppResolves(s[n], t[n], f, g, m);
    }
  }

  /** Permuting the assets of every catalog entry and of every release changes nothing of what
      resolving the catalog gives. */
  lemma AssetOrderIrrelevant(c: Catalog, d: Catalog, f: Fetcher, g: Fetcher, m: Matcher)
    requires c.(apps := []) == d.(apps := []) && AllPermutedAssets(c.apps, d.apps) && PermutedFetch(f, g)
    ensures ValidCatalog(c) <==> ValidCatalog(d)
    ensures Resolved(c, f, m) == Resolved(d, g, m)
  {
    hide ValidCatalog, ResolveAll, PermutedFetch;
    if ValidCatalog(c) {
      ValidAssetOrder(c, d);
      AssetsAlike(c, d, f, g, m);
    }
    if ValidCatalog(d) {
      ValidAssetOrder(d, c);
    }
  }

  lemma AssetsAlike(c: Catalog, d: Catalog, f: Fetcher, g: Fetcher, m: Matcher)
    requires ValidCatalog(c) && AllPermutedAssets(c.apps, d.apps) && PermutedFetch(f, g)
    ensures ResolveAll(Sort(IdLeq, c.apps), f, m) == ResolveAll(Sort(IdLeq, d.apps), g, m)
  {
    hide ValidCatalog, PermutedFetch, DistinctArches;
    ValidDistinct(c);
    SameMembers(c.apps, Sort(IdLeq, c.apps));
    SortPermuted(c.apps, d.apps);
    ResolveAllPermuted(Sort(IdLeq, c.apps), Sort(IdLeq, d.apps), f, g, m);
  }
}
