/** The curated catalog of the release repository and the validator that guards it. */
module ReleaseCatalog {
  import opened Order

  datatype AssetSpec = AssetSpec(arch: string, pattern: string)
  datatype Pin = Pin(tag: string, assetSha256: map<string, string>)
  datatype Shot = Shot(url: string, caption: string, sha256: string)
  datatype Runtime = Runtime(id: string, branch: string, repository: string)

  /** One application of the catalog; an optional key that is absent is `None`. */
  datatype App = App(
    id: string,
    name: string,
    summary: string,
    repository: string,
    homepage: string,
    branch: string,
    runtime: Runtime,
    publish: bool,
    blockedReason: Option<string>,
    pin: Option<Pin>,
    screenshots: seq<Shot>,
    retires: Option<seq<string>>,
    assets: seq<AssetSpec>)

  datatype Catalog = Catalog(schemaVersion: int, owner: string, channel: string, apps: seq<App>)

  // ----- strings

  /** The characters that str.strip () removes. */
  predicate IsPySpace(c: char) {
    || '\U{0009}' <= c <= '\U{000D}' || '\U{001C}' <= c <= '\U{0020}'
    || c == '\U{0085}' || c == '\U{00A0}' || c == '\U{1680}'
    || '\U{2000}' <= c <= '\U{200A}'
    || c == '\U{2028}' || c == '\U{2029}' || c == '\U{202F}' || c == '\U{205F}' || c == '\U{3000}'
  }

  predicate NonBlank(s: string) {
    exists i :: 0 <= i < |s| && !IsPySpace(s[i])
  }

  predicate IsHttps(s: string) {
    NonBlank(s) && HasPrefix(s, "https://")
  }

  predicate IsIdChar(c: char) {
    'A' <= c <= 'Z' || 'a' <= c <= 'z' || '0' <= c <= '9' || c == '_' || c == '-'
  }

  /** At least two non-empty components, separated by dots. */
  predicate IsAppId(s: string) {
    && (forall i :: 0 <= i < |s| ==> IsIdChar(s[i]) || s[i] == '.')
    && '.' in s && s[0] != '.' && s[|s|-1] != '.'
    && (forall i :: 0 < i < |s| ==> s[i] != '.' || s[i-1] != '.')
  }

  ghost predicate Word(s: string) {
    s != "" && forall i :: 0 <= i < |s| ==> IsIdChar(s[i])
  }

  /** A word, a dot, and another word or more of that. */
  ghost predicate DottedWords(s: string)
    decreases |s|
  {
    exists i :: 0 <= i < |s| && s[i] == '.' && Word(s[..i]) && (Word(s[i+1..]) || DottedWords(s[i+1..]))
  }

  /** The regular expression of application ids: words with dots between them. */
  lemma {:induction false} AppIdIsDottedWords(s: string)
    ensures IsAppId(s) <==> DottedWords(s)
    decreases |s|
  {
    if IsAppId(s) {
      var i := FirstDot(s);
      if '.' in s[i+1..] {
        AppIdRest(s, i);
        AppIdIsDottedWords(s[i+1..]);
      }
    }
    if i :| 0 <= i < |s| && s[i] == '.' && Word(s[..i]) && (Word(s[i+1..]) || DottedWords(s[i+1..])) {
      AppIdIsDottedWords(s[i+1..]);
      AppIdMore(s, i);
    }
  }

  lemma FirstDot(s: string) returns (i: nat)
    requires IsAppId(s)
    ensures 0 < i < |s| - 1 && s[i] == '.' && Word(s[..i]) && ('.' !in s[i+1..] ==> Word(s[i+1..]))
  {
    i := 0;
    while s[i] != '.'
      invariant i < |s| && '.' !in s[..i] && exists k :: i <= k < |s| && s[k] == '.'
      decreases |s| - i
    {
      i := i + 1;
    }
    assert s[..i] != "";
  }

  lemma AppIdRest(s: string, i: nat)
    requires IsAppId(s) && 0 < i < |s| - 1 && s[i] == '.' && '.' in s[i+1..]
    ensures IsAppId(s[i+1..])
  {
    var r := s[i+1..];
    assert r[0] == s[i+1] && r[|r|-1] == s[|s|-1];
    assert forall k :: 0 <= k < |r| ==> r[k] == s[i+1+k];
  }

  lemma AppIdMore(s: string, i: nat)
    requires i < |s| && s[i] == '.' && Word(s[..i]) && (Word(s[i+1..]) || IsAppId(s[i+1..]))
    ensures IsAppId(s)
  {
    var r := s[i+1..];
    assert s[..i][0] == s[0];
    assert forall k :: 0 <= k < i ==> s[..i][k] == s[k];
    assert forall k :: i < k < |s| ==> s[k] == r[k-i-1];
  }

  predicate IsRepository(s: string) {
    && HasPrefix(s, "crhy/") && |s| > 5
    && forall i :: 5 <= i < |s| ==> IsIdChar(s[i]) || s[i] == '.'
  }

  predicate IsSha256(s: string) {
    |s| == 64 && forall i :: 0 <= i < |s| ==> '0' <= s[i] <= '9' || 'a' <= s[i] <= 'f'
  }

  /** str.casefold () on the characters a repository name may have. */
  function Fold(s: string): string {
    if s == "" then ""
    else [if 'A' <= s[0] <= 'Z' then ((s[0] as int) + 32) as char else s[0]] + Fold(s[1..])
  }

  predicate IsArch(s: string) {
    s == "aarch64" || s == "x86_64"
  }

  predicate IsPattern(s: string) {
    NonBlank(s) && HasSuffix(s, ".flatpak") && '/' !in s && '\\' !in s
  }

  // ----- what a valid catalog is

  const LATEST := "latest-stable"
  const WITH_PINS := "latest-stable-with-reviewed-pins"

  function Retires(a: App): seq<string> {
    if a.retires.Some? then a.retires.value else []
  }

  function Arches(assets: seq<AssetSpec>): set<string> {
    set s | s in assets :: s.arch
  }

  ghost predicate ValidRetires(a: App) {
    && (a.retires.Some? ==> a.retires.value != [])
    && (forall r :: r in Retires(a) ==> NonBlank(r) && IsAppId(r) && r != a.id)
    && NoDuplicates(Retires(a))
  }

  ghost predicate ValidDigests(d: map<string, string>) {
    d != map[] && forall arch :: arch in d ==> IsArch(arch) && IsSha256(d[arch])
  }

  ghost predicate ValidPin(channel: string, a: App) {
    a.pin.Some? ==>
      && channel == WITH_PINS && NonBlank(a.pin.value.tag)
      && ValidDigests(a.pin.value.assetSha256) && a.pin.value.assetSha256.Keys == Arches(a.assets)
  }

  ghost predicate ValidShot(s: Shot) {
    IsHttps(s.url) && NonBlank(s.caption) && IsSha256(s.sha256)
  }

  ghost predicate ValidScreenshots(a: App) {
    (a.publish ==> a.screenshots != []) && forall s :: s in a.screenshots ==> ValidShot(s)
  }

  ghost predicate ValidAssets(assets: seq<AssetSpec>) {
    && assets != []
    && (forall s :: s in assets ==> NonBlank(s.arch) && IsArch(s.arch) && IsPattern(s.pattern))
    && (forall i, j :: 0 <= i < j < |assets| ==> assets[i].arch != assets[j].arch)
  }

  ghost predicate ValidTexts(owner: string, a: App) {
    && NonBlank(a.id) && IsAppId(a.id)
    && NonBlank(a.name) && NonBlank(a.summary) && NonBlank(a.branch)
    && NonBlank(a.repository) && IsRepository(a.repository) && HasPrefix(a.repository, owner + "/")
    && IsHttps(a.homepage)
    && NonBlank(a.runtime.id) && NonBlank(a.runtime.branch) && IsHttps(a.runtime.repository)
    && (if a.publish then a.blockedReason.None? else a.blockedReason.Some? && NonBlank(a.blockedReason.value))
  }

  ghost predicate ValidApp(c: Catalog, a: App) {
    ValidTexts(c.owner, a) && ValidRetires(a) && ValidPin(c.channel, a) && ValidScreenshots(a) && ValidAssets(a.assets)
  }

  ghost predicate Apart(a: App, b: App) {
    && a.id != b.id && Fold(a.repository) != Fold(b.repository)
    && forall r :: r in Retires(a) ==> r !in Retires(b)
  }

  ghost predicate AllApart(apps: seq<App>) {
    forall i, j :: 0 <= i < j < |apps| ==> Apart(apps[i], apps[j])
  }

  /** No id that some application retires is itself in the catalog. */
  ghost predicate RetiredAreGone(apps: seq<App>) {
    forall a, b :: a in apps && b in apps ==> a.id !in Retires(b)
  }

  ghost predicate ValidCatalog(c: Catalog) {
    && c.schemaVersion == 1 && NonBlank(c.owner) && (c.channel == LATEST || c.channel == WITH_PINS)
    && c.apps != []
    && (forall a :: a in c.apps ==> ValidApp(c, a))
    && AllApart(c.apps)
    && RetiredAreGone(c.apps)
  }

  // ----- the validator

  function Ids(apps: seq<App>): set<string> {
    set a | a in apps :: a.id
  }

  function Repositories(apps: seq<App>): set<string> {
    set a | a in apps :: Fold(a.repository)
  }

  function Retired(apps: seq<App>): set<string> {
    set a, r | a in apps && r in Retires(a) :: r
  }

  lemma ApartStep(apps: seq<App>, a: App)
    ensures AllApart(apps + [a]) <==>
      && AllApart(apps) && a.id !in Ids(apps) && Fold(a.repository) !in Repositories(apps)
      && forall r :: r in Retires(a) ==> r !in Retired(apps)
  {
    hide Fold, Retires;
    var all := apps + [a];
    if AllApart(all) {
      forall i, j | 0 <= i < j < |apps|
        ensures Apart(apps[i], apps[j])
      {
        assert Apart(all[i], all[j]);
      }
      forall b | b in apps
        ensures Apart(b, a)
      {
        var i :| 0 <= i < |apps| && apps[i] == b;
        assert Apart(all[i], all[|apps|]);
      }
    }
  }

  lemma AllApartPrefix(apps: seq<App>, n: nat)
    requires n <= |apps| && AllApart(apps)
    ensures AllApart(apps[..n])
  {
  }

  lemma StepSets(apps: seq<App>, a: App)
    ensures Ids(apps + [a]) == Ids(apps) + {a.id}
    ensures Repositories(apps + [a]) == Repositories(apps) + {Fold(a.repository)}
    ensures Retired(apps + [a]) == Retired(apps) + set r | r in Retires(a)
  {
  }

  /** The validator accepts exactly the valid catalogs. */
  method ValidateCatalog(c: Catalog) returns (ok: bool)
    ensures ok <==> ValidCatalog(c)
  {
    hide ValidApp, AllApart, RetiredAreGone, Ids, Repositories, Retired;
    if c.schemaVersion != 1 || !NonBlank(c.owner) || (c.channel != LATEST && c.channel != WITH_PINS) || c.apps == [] {
      return false;
    }
    var seenIds, seenRepositories, retiredIds := {}, {}, {};
    NothingSeen();
    var i := 0;
    while i < |c.apps|
      invariant 0 <= i <= |c.apps|
      invariant forall a :: a in c.apps[..i] ==> ValidApp(c, a)
      invariant AllApart(c.apps[..i])
      invariant seenIds == Ids(c.apps[..i]) && seenRepositories == Repositories(c.apps[..i])
      invariant retiredIds == Retired(c.apps[..i])
    {
      PrefixStep(c.apps, i);
      var app := c.apps[i];
      ApartStep(c.apps[..i], app);
      StepSets(c.apps[..i], app);
      var valid, added := ValidateApp(c, app, seenIds, seenRepositories, retiredIds);
      if !valid {
        if AllApart(c.apps) {
          AllApartPrefix(c.apps, i + 1);
        }
        return false;
      }
      seenIds := seenIds + {app.id};
      seenRepositories := seenRepositories + {Fold(app.repository)};
      retiredIds := retiredIds + added;
      i := i + 1;
    }
    assert c.apps[..|c.apps|] == c.apps;
    RetiredMeaning(c.apps);
    return retiredIds * seenIds == {};
  }

  lemma NothingSeen()
    ensures AllApart([]) && Ids([]) == {} && Repositories([]) == {} && Retired([]) == {}
  {
  }

  lemma RetiredMeaning(apps: seq<App>)
    ensures RetiredAreGone(apps) <==> Retired(apps) * Ids(apps) == {}
  {
    hide Retires;
    if !RetiredAreGone(apps) {
      var a, b :| a in apps && b in apps && a.id in Retires(b);
      assert a.id in Retired(apps) * Ids(apps);
    }
  }

  method ValidateApp(c: Catalog, a: App, seenIds: set<string>, seenRepositories: set<string>, retiredIds: set<string>)
    returns (ok: bool, added: set<string>)
    ensures ok <==> ValidApp(c, a) && a.id !in seenIds && Fold(a.repository) !in seenRepositories
                    && forall r :: r in Retires(a) ==> r !in retiredIds
    ensures ok ==> added == set r | r in Retires(a)
  {
    hide NonBlank, IsAppId, IsRepository, IsHttps, IsSha256, Fold, HasPrefix, Arches;
    added := {};
    var retiresOk, names := ValidateRetires(a, retiredIds);
    var shotsOk := ValidateScreenshots(a);
    var assetsOk, arches := ValidateAssets(a.assets);
    var digestsOk := true;
    if a.pin.Some? {
      digestsOk := ValidateDigests(a.pin.value.assetSha256);
    }
    if !NonBlank(a.id) || !IsAppId(a.id) || a.id in seenIds
    {
      return false, {};
    }
    if !NonBlank(a.name) || !NonBlank(a.summary) || !NonBlank(a.branch) {
      return false, {};
    }
    if !NonBlank(a.repository) || !IsRepository(a.repository) || !HasPrefix(a.repository, c.owner + "/") ||
        Fold(a.repository) in seenRepositories {
      return false, {};
    }
    if !IsHttps(a.homepage) || !retiresOk {
      return false, {};
    }
    if a.pin.Some? && (c.channel != WITH_PINS || !NonBlank(a.pin.value.tag) || !digestsOk) {
      return false, {};
    }
    if !shotsOk || !NonBlank(a.runtime.id) || !NonBlank(a.runtime.branch) || !IsHttps(a.runtime.repository) {
      return false, {};
    }
    if !a.publish && (a.blockedReason.None? || !NonBlank(a.blockedReason.value)) {
      return false, {};
    }
    if a.publish && a.blockedReason.Some? {
      return false, {};
    }
    if !assetsOk || (a.pin.Some? && a.pin.value.assetSha256.Keys != arches) {
      return false, {};
    }
    return true, names;
  }

  method ValidateRetires(a: App, retiredIds: set<string>) returns (ok: bool, names: set<string>)
    ensures ok <==> ValidRetires(a) && forall r :: r in Retires(a) ==> r !in retiredIds
    ensures ok ==> names == set r | r in Retires(a)
  {
    hide NonBlank, IsAppId;
    names := {};
    if a.retires == Some([]) {
      return false, {};
    }
    var replaced := Retires(a);
    for k := 0 to |replaced|
      invariant forall r :: r in replaced[..k] ==> NonBlank(r) && IsAppId(r) && r != a.id && r !in retiredIds
      invariant NoDuplicates(replaced[..k])
      invariant names == set r | r in replaced[..k]
    {
      var r := replaced[k];
      assert r in replaced;
      if !NonBlank(r) || !IsAppId(r) || r == a.id || r in retiredIds || r in names {
        if r in replaced[..k] {
          var j :| 0 <= j < k && replaced[..k][j] == r;
          assert replaced[j] == replaced[k];
        }
        return false, {};
      }
      PrefixStep(replaced, k);
      names := names + {r};
    }
    assert replaced[..|replaced|] == replaced;
    ok := true;
  }

  method ValidateDigests(d: map<string, string>) returns (ok: bool)
    ensures ok <==> ValidDigests(d)
  {
    hide IsArch, IsSha256;
    if d == map[] {
      return false;
    }
    var rest := d.Keys;
    while rest != {}
      invariant rest <= d.Keys
      invariant forall arch :: arch in d && arch !in rest ==> IsArch(arch) && IsSha256(d[arch])
      decreases rest
    {
      var arch: string :| arch in rest;
      if !IsArch(arch) || !IsSha256(d[arch]) {
        return false;
      }
      rest := rest - {arch};
    }
    ok := true;
  }

  method ValidateScreenshots(a: App) returns (ok: bool)
    ensures ok <==> ValidScreenshots(a)
  {
    hide NonBlank, IsHttps, IsSha256;
    if a.publish && a.screenshots == [] {
      return false;
    }
    for k := 0 to |a.screenshots|
      invariant forall s :: s in a.screenshots[..k] ==> ValidShot(s)
    {
      var shot := a.screenshots[k];
      if !IsHttps(shot.url) || !NonBlank(shot.caption) || !IsSha256(shot.sha256) {
        assert shot in a.screenshots && !ValidShot(shot);
        return false;
      }
    }
    assert a.screenshots[..|a.screenshots|] == a.screenshots;
    ok := true;
  }

  method ValidateAssets(assets: seq<AssetSpec>) returns (ok: bool, seenArches: set<string>)
    ensures ok <==> ValidAssets(assets)
    ensures ok ==> seenArches == Arches(assets)
  {
    hide NonBlank, IsArch, IsPattern;
    seenArches := {};
    if assets == [] {
      return false, {};
    }
    for k := 0 to |assets|
      invariant forall s :: s in assets[..k] ==> NonBlank(s.arch) && IsArch(s.arch) && IsPattern(s.pattern)
      invariant forall i, j :: 0 <= i < j < k ==> assets[i].arch != assets[j].arch
      invariant seenArches == Arches(assets[..k])
    {
      var spec := assets[k];
      assert spec in assets;
      if !NonBlank(spec.arch) || !IsArch(spec.arch) || spec.arch in seenArches || !IsPattern(spec.pattern) {
        if spec.arch in seenArches {
          var s :| s in assets[..k] && s.arch == spec.arch;
          var j :| 0 <= j < k && assets[j] == s;
          assert assets[j].arch == assets[k].arch;
        }
        return false, {};
      }
      PrefixStep(assets, k);
      seenArches := seenArches + {spec.arch};
    }
    assert assets[..|assets|] == assets;
    ok := true;
  }
}
