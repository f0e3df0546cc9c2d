/** Marking retired application ids as end-of-life in favour of the ones that took their place. */
module ReleaseEndOfLife {
  import opened Order
  import opened ReleaseCatalog
  import opened ReleaseResolve

  function Ref(id: string, arch: string, branch: string): string {
    "app/" + id + "/" + arch + "/" + branch
  }

  /** One `flatpak build-commit-from` call: the published ref it commits from, the retired id, the
      id it is rebased to, and the ref it commits to. */
  datatype Command = Command(srcRef: string, from: string, to: string, targetRef: string)

  function AssetCommands(r: RApp, arch: string, n: nat): seq<Command>
    requires n <= |Retires(r.entry)|
  {
    if n == 0 then []
    else
      var old_id := Retires(r.entry)[n - 1];
      AssetCommands(r, arch, n - 1)
      + [Command(Ref(r.entry.id, arch, r.entry.branch), old_id, r.entry.id, Ref(old_id, arch, r.entry.branch))]
  }

  function AppCommands(r: RApp, n: nat): seq<Command>
    requires n <= |r.assets|
  {
    if n == 0 then [] else AppCommands(r, n - 1) + AssetCommands(r, r.assets[n - 1].arch, |Retires(r.entry)|)
  }

  function Commands(apps: seq<RApp>): seq<Command> {
    if apps == [] then []
    else
      var last := apps[|apps|-1];
      Commands(apps[..|apps|-1]) + if last.entry.publish then AppCommands(last, |last.assets|) else []
  }

  method EndOfLifeRebaseCommands(apps: seq<RApp>) returns (commands: seq<Command>)
    ensures commands == Commands(apps)
  {
    hide AppCommands;
    commands := [];
    for i := 0 to |apps|
      invariant commands == Commands(apps[..i])
    {
      PrefixStep(apps, i);
      assert commands + [] == commands;
      if apps[i].entry.publish {
        var added := RebaseCommandsOf(apps[i]);
        commands := commands + added;
      }
    }
    assert apps[..|apps|] == apps;
  }

  method RebaseCommandsOf(app: RApp) returns (commands: seq<Command>)
    ensures commands == AppCommands(app, |app.assets|)
  {
    hide Ref;
    commands := [];
    if Retires(app.entry) == [] {
      NoRetiredNoCommands(app, |app.assets|);
      return;
    }
    for j := 0 to |app.assets|
      invariant commands == AppCommands(app, j)
    {
      var arch := app.assets[j].arch;
      var srcRef := Ref(app.entry.id, arch, app.entry.branch);
      var more: seq<Command> := [];
      for k := 0 to |Retires(app.entry)|
        invariant more == AssetCommands(app, arch, k)
      {
        var retiredId := Retires(app.entry)[k];
        more := more + [Command(srcRef, retiredId, app.entry.id, Ref(retiredId, arch, app.entry.branch))];
      }
      commands := commands + more;
    }
  }

  lemma {:induction false} NoRetiredNoCommands(r: RApp, n: nat)
    requires n <= |r.assets| && Retires(r.entry) == []
    ensures AppCommands(r, n) == []
  {
    if n > 0 {
      NoRetiredNoCommands(r, n - 1);
    }
  }

  // ----- refs are unambiguous

  /** A ref names its id, architecture and branch, as long as the first two have no slash; the
      branch may have one. */
  lemma RefInjective(id: string, arch: string, branch: string, id': string, arch': string, branch': string)
    requires '/' !in id && '/' !in id' && '/' !in arch && '/' !in arch'
    requires Ref(id, arch, branch) == Ref(id', arch', branch')
    ensures id == id' && arch == arch' && branch == branch'
  {
    var s, t := id + "/" + (arch + "/" + branch), id' + "/" + (arch' + "/" + branch');
    assert Ref(id, arch, branch) == "app/" + s && Ref(id', arch', branch') == "app/" + t;
    assert ("app/" + s)[4..] == s && ("app/" + t)[4..] == t;
    SplitAtFirst('/', id, id', arch + "/" + branch, arch' + "/" + branch');
    SplitAtFirst('/', arch, arch', branch, branch');
  }

  lemma AppIdHasNoSlash(id: string)
    requires IsAppId(id)
    ensures '/' !in id
  {
  }

  lemma ArchHasNoSlash(arch: string)
    requires IsArch(arch)
    ensures '/' !in arch
  {
  }

  // ----- what the resolved applications of a valid catalog are like

  ghost predicate Sound(r: RApp) {
    && '/' !in r.entry.id
    && (forall s :: s in Retires(r.entry) ==> '/' !in s)
    && (forall i :: 0 <= i < |r.assets| ==> '/' !in r.assets[i].arch)
    && (forall i, j :: 0 <= i < j < |r.assets| ==> r.assets[i].arch != r.assets[j].arch)
    && NoDuplicates(Retires(r.entry))
  }

  /** Ids are distinct, no id is retired by two applications, and no retired id is in the catalog. */
  ghost predicate Ready(apps: seq<RApp>) {
    && (forall r :: r in apps ==> Sound(r))
    && (forall i, j :: 0 <= i < j < |apps| ==> apps[i].entry.id != apps[j].entry.id && NothingShared(apps[i], apps[j]))
    && (forall a, b :: a in apps && b in apps ==> a.entry.id !in Retires(b.entry))
  }

  ghost predicate NothingShared(a: RApp, b: RApp) {
    forall s :: s in Retires(a.entry) ==> s !in Retires(b.entry)
  }

  lemma SoundApp(c: Catalog, a: App, r: RApp)
    requires ValidApp(c, a) && Faithful(a, r)
    ensures Sound(r)
  {
    hide NonBlank, IsRepository, IsHttps, IsSha256, ValidPin, ValidScreenshots, Reviewed, IsPattern, IsArch, IsAppId,
        HasPrefix;
    AppIdHasNoSlash(a.id);
    forall s | s in Retires(r.entry)
      ensures '/' !in s
    {
      AppIdHasNoSlash(s);
    }
    forall i | 0 <= i < |r.assets|
      ensures '/' !in r.assets[i].arch
    {
      assert r.assets[i].arch in Arches(a.assets);
      var s :| s in a.assets && s.arch == r.assets[i].arch;
      ArchHasNoSlash(s.arch);
    }
  }

  lemma TwoResolvedApart(c: Catalog, a: App, b: App, r: RApp, q: RApp)
    requires ValidCatalog(c) && a in c.apps && b in c.apps && Faithful(a, r) && Faithful(b, q)
    requires r.entry.id != q.entry.id
    ensures NothingShared(r, q)
  {
    hide ValidCatalog, Reviewed, Retires;
    TwoAreApart(c, a, b);
    RetiresOfEntry(a);
    RetiresOfEntry(b);
  }

  lemma NotRetired(c: Catalog, a: App, b: App, r: RApp, q: RApp)
    requires ValidCatalog(c) && a in c.apps && b in c.apps && Faithful(a, r) && Faithful(b, q)
    ensures r.entry.id !in Retires(q.entry)
  {
    hide ValidApp, Apart, Reviewed, Retires;
    RetiresOfEntry(b);
  }

  lemma ResolvedReady(c: Catalog, fetch: Fetcher, m: Matcher)
    requires ValidCatalog(c) && ResolveAll(Sort(IdLeq, c.apps), fetch, m).Ok?
    ensures Ready(ResolveAll(Sort(IdLeq, c.apps), fetch, m).value)
  {
    hide ValidApp, Apart, Sound, ResolveAll, Faithful, NothingShared, NonBlank, Retires;
    ResolvedCatalog(c, fetch, m);
    var sorted := Sort(IdLeq, c.apps);
    var apps := ResolveAll(sorted, fetch, m).value;
    SameMembers(c.apps, sorted);
    forall r | r in apps
      ensures Sound(r)
    {
      var i :| 0 <= i < |apps| && apps[i] == r;
      SoundApp(c, sorted[i], r);
    }
    forall i, j | 0 <= i < j < |apps|
      ensures apps[i].entry.id != apps[j].entry.id && NothingShared(apps[i], apps[j])
    {
      TwoResolvedApart(c, sorted[i], sorted[j], apps[i], apps[j]);
    }
    forall a, b | a in apps && b in apps
      ensures a.entry.id !in Retires(b.entry)
    {
      var i :| 0 <= i < |apps| && apps[i] == a;
      var j :| 0 <= j < |apps| && apps[j] == b;
      NotRetired(c, sorted[i], sorted[j], a, b);
    }
  }

  lemma RetiresOfEntry(a: App)
    ensures Retires(Entry(a)) == Retires(a) && Entry(a).id == a.id
  {
  }

  lemma TwoAreApart(c: Catalog, a: App, b: App)
    requires ValidCatalog(c) && a in c.apps && b in c.apps && a.id != b.id
    ensures forall s :: s in Retires(a) ==> s !in Retires(b)
  {
    hide ValidApp, NonBlank, Retires;
    var i :| 0 <= i < |c.apps| && c.apps[i] == a;
    var j :| 0 <= j < |c.apps| && c.apps[j] == b;
    assert if i < j then Apart(c.apps[i], c.apps[j]) else Apart(c.apps[j], c.apps[i]);
  }

  // ----- what the commands do

  /** The refs of the published applications. */
  ghost predicate Published(apps: seq<RApp>, ref: string) {
    exists r, i :: r in apps && r.entry.publish && 0 <= i < |r.assets| &&
        ref == Ref(r.entry.id, r.assets[i].arch, r.entry.branch)
  }

  /** The command `c` retires `old_id` for asset number `i` of the application `r`. */
  ghost predicate Retiring(r: RApp, i: int, c: Command) {
    && 0 <= i < |r.assets| && c.from in Retires(r.entry)
    && c == Command(Ref(r.entry.id, r.assets[i].arch, r.entry.branch), c.from, r.entry.id,
                    Ref(c.from, r.assets[i].arch, r.entry.branch))
  }

  lemma {:induction false} AssetCommandsMembers(r: RApp, i: nat, n: nat, c: Command)
    requires i < |r.assets| && n <= |Retires(r.entry)|
    ensures c in AssetCommands(r, r.assets[i].arch, n) ==> c.from in Retires(r.entry)[..n] && Retiring(r, i, c)
    ensures Retiring(r, i, c) && c.from in Retires(r.entry)[..n] ==> c in AssetCommands(r, r.assets[i].arch, n)
  {
    hide Ref, Retires;
    if n > 0 {
      AssetCommandsMembers(r, i, n - 1, c);
      PrefixStep(Retires(r.entry), n - 1);
    }
  }

  lemma {:induction false} AppCommandsMembers(r: RApp, n: nat, c: Command)
    requires n <= |r.assets|
    ensures c in AppCommands(r, n) <==> exists i :: 0 <= i < n && Retiring(r, i, c)
  {
    hide AssetCommands, Retiring;
    if n > 0 {
      AppCommandsMembers(r, n - 1, c);
      AssetCommandsMembers(r, n - 1, |Retires(r.entry)|, c);
      assert Retires(r.entry)[..|Retires(r.entry)|] == Retires(r.entry);
      assert Retiring(r, n - 1, c) ==> c.from in Retires(r.entry) by {
        RetiringFrom(r, n - 1, c);
      }
    }
  }

  lemma RetiringFrom(r: RApp, i: int, c: Command)
    ensures Retiring(r, i, c) ==> c.from in Retires(r.entry)
  {
  }

  lemma {:induction false} CommandsMembers(apps: seq<RApp>, c: Command)
    ensures c in Commands(apps) <==> exists r, i :: r in apps && r.entry.publish && Retiring(r, i, c)
  {
    hide AppCommands, Retiring;
    if apps != [] {
      var last, before := apps[|apps|-1], apps[..|apps|-1];
      CommandsMembers(before, c);
      AppCommandsMembers(last, |last.assets|, c);
      assert apps == before + [last];
      RetiringBound(last, c);
      assert forall r :: r in apps <==> r in before || r == last;
    }
  }

  lemma RetiringBound(r: RApp, c: Command)
    ensures forall i :: Retiring(r, i, c) ==> 0 <= i < |r.assets|
  {
  }

  /** For some architecture and branch the command copies the ref of the id it rebases to, which is
      published, to the ref of the id it retires, which is not. */
  ghost predicate BetweenRefs(apps: seq<RApp>, c: Command) {
    && Published(apps, c.srcRef) && !Published(apps, c.targetRef)
    && exists arch, branch :: c.srcRef == Ref(c.to, arch, branch) && c.targetRef == Ref(c.from, arch, branch)
  }

  /** The rebase is one step: no application and no command retires the id it goes to, and no command
      rebases the same id elsewhere. */
  ghost predicate OneStep(apps: seq<RApp>, c: Command) {
    && (forall a :: a in apps ==> c.to !in Retires(a.entry))
    && (forall d :: d in Commands(apps) ==> c.to != d.from && (d.from == c.from ==> d.to == c.to))
  }

  /** Every command goes, in one step, from a ref that is published onto a ref that is not; and the
      id it rebases to is never retired itself. */
  lemma RebaseIsSafe(apps: seq<RApp>, c: Command)
    requires Ready(apps) && c in Commands(apps)
    ensures BetweenRefs(apps, c) && OneStep(apps, c)
  {
    hide Commands, AppCommands, Ref, Retires;
    CommandsMembers(apps, c);
    var r, i :| r in apps && r.entry.publish && Retiring(r, i, c);
    assert Sound(r);
    if Published(apps, c.targetRef) {
      var q, j :| q in apps && q.entry.publish && 0 <= j < |q.assets| &&
          c.targetRef == Ref(q.entry.id, q.assets[j].arch, q.entry.branch);
      assert Sound(q);
      RefInjective(c.from, r.assets[i].arch, r.entry.branch, q.entry.id, q.assets[j].arch, q.entry.branch);
    }
    forall d | d in Commands(apps)
      ensures c.to != d.from
      ensures d.from == c.from ==> d.to == c.to
    {
      CommandsMembers(apps, d);
      var q, j :| q in apps && q.entry.publish && Retiring(q, j, d);
      if d.from == c.from {
        SameRetirer(apps, r, q, c.from);
      }
    }
  }

  lemma SameRetirer(apps: seq<RApp>, a: RApp, b: RApp, s: string)
    requires Ready(apps) && a in apps && b in apps && s in Retires(a.entry) && s in Retires(b.entry)
    ensures a == b
  {
  }

  /** And nothing that should be retired is forgotten. */
  lemma RebaseIsComplete(apps: seq<RApp>, r: RApp, i: nat, s: string)
    requires r in apps && r.entry.publish && i < |r.assets| && s in Retires(r.entry)
    ensures Command(Ref(r.entry.id, r.assets[i].arch, r.entry.branch), s, r.entry.id,
                    Ref(s, r.assets[i].arch, r.entry.branch))
         in Commands(apps)
  {
    hide Commands, Ref, Retires;
    var c := Command(Ref(r.entry.id, r.assets[i].arch, r.entry.branch), s, r.entry.id,
                     Ref(s, r.assets[i].arch, r.entry.branch));
    CommandsMembers(apps, c);
    assert Retiring(r, i, c);
  }

  // ----- no two commands write the same ref

  function Targets(commands: seq<Command>): seq<string> {
    seq(|commands|, i requires 0 <= i < |commands| => commands[i].targetRef)
  }

  lemma AppendDistinct(s: seq<string>, t: seq<string>)
    requires NoDuplicates(s) && NoDuplicates(t) && forall x :: x in s ==> x !in t
    ensures NoDuplicates(s + t)
  {
    forall i, j | 0 <= i < j < |s + t|
      ensures (s + t)[i] != (s + t)[j]
    {
      if i < |s| <= j {
        assert s[i] in s && t[j - |s|] in t;
      }
    }
  }

  lemma TargetsAppend(a: seq<Command>, b: seq<Command>)
    ensures Targets(a + b) == Targets(a) + Targets(b)
  {
  }

  lemma TargetsMembers(a: seq<Command>)
    ensures forall x :: x in Targets(a) <==> exists c :: c in a && c.targetRef == x
  {
    forall x
      ensures x in Targets(a) <==> exists c :: c in a && c.targetRef == x
    {
      if x in Targets(a) {
        var i :| 0 <= i < |a| && Targets(a)[i] == x;
        assert a[i] in a && a[i].targetRef == x;
      }
      if exists c :: c in a && c.targetRef == x {
        var c :| c in a && c.targetRef == x;
        var i :| 0 <= i < |a| && a[i] == c;
        assert Targets(a)[i] == x;
      }
    }
  }

  lemma {:induction false} AssetTargetsDistinct(r: RApp, i: nat, n: nat)
    requires Sound(r) && i < |r.assets| && n <= |Retires(r.entry)|
    ensures NoDuplicates(Targets(AssetCommands(r, r.assets[i].arch, n)))
  {
    hide Ref, Retires;
    if n > 0 {
      AssetTargetsDistinct(r, i, n - 1);
      var arch, s := r.assets[i].arch, Retires(r.entry)[n - 1];
      var before := AssetCommands(r, arch, n - 1);
      var last := [Command(Ref(r.entry.id, arch, r.entry.branch), s, r.entry.id, Ref(s, arch, r.entry.branch))];
      TargetsAppend(before, last);
      forall x | x in Targets(before)
        ensures x !in Targets(last)
      {
        TargetsMembers(before);
        var c :| c in before && c.targetRef == x;
        AssetCommandsMembers(r, i, n - 1, c);
        assert s in Retires(r.entry);
        if x == last[0].targetRef {
          RefInjective(c.from, arch, r.entry.branch, s, arch, r.entry.branch);
        }
      }
      AppendDistinct(Targets(before), Targets(last));
    }
  }

  lemma {:induction false} AppTargetsDistinct(r: RApp, n: nat)
    requires Sound(r) && n <= |r.assets|
    ensures NoDuplicates(Targets(AppCommands(r, n)))
  {
    hide Ref, Retires, AssetCommands, Targets;
    if n > 0 {
      AppTargetsDistinct(r, n - 1);
      AssetTargetsDistinct(r, n - 1, |Retires(r.entry)|);
      var before, last := AppCommands(r, n - 1), AssetCommands(r, r.assets[n - 1].arch, |Retires(r.entry)|);
      TargetsAppend(before, last);
      TargetsMembers(before);
      TargetsMembers(last);
      forall x | x in Targets(before)
        ensures x !in Targets(last)
      {
        if x in Targets(last) {
          var c :| c in before && c.targetRef == x;
          var d :| d in last && d.targetRef == x;
          AppCommandsMembers(r, n - 1, c);
          var i :| 0 <= i < n - 1 && Retiring(r, i, c);
          AssetCommandsMembers(r, n - 1, |Retires(r.entry)|, d);
          RefInjective(c.from, r.assets[i].arch, r.entry.branch, d.from, r.assets[n - 1].arch, r.entry.branch);
        }
      }
      AppendDistinct(Targets(before), Targets(last));
    } else {
      NoTargets();
    }
  }

  lemma NoTargets()
    ensures Targets([]) == []
  {
  }

  lemma ReadyPrefix(apps: seq<RApp>)
    requires apps != [] && Ready(apps)
    ensures Ready(apps[..|apps|-1])
  {
  }

  /** The end-of-life refs are pairwise distinct: no two commands commit to the same ref. */
  lemma {:induction false} TargetsDistinct(apps: seq<RApp>)
    requires Ready(apps)
    ensures NoDuplicates(Targets(Commands(apps)))
  {
    hide Ref, Retires, AppCommands, Targets, Sound;
    if apps == [] {
      NoTargets();
    } else {
      var r, before := apps[|apps|-1], apps[..|apps|-1];
      ReadyPrefix(apps);
      TargetsDistinct(before);
      if r.entry.publish {
        AppTargetsDistinct(r, |r.assets|);
        TargetsAppend(Commands(before), AppCommands(r, |r.assets|));
        forall x | x in Targets(Commands(before))
          ensures x !in Targets(AppCommands(r, |r.assets|))
        {
          if x in Targets(AppCommands(r, |r.assets|)) {
            LastTargetIsNew(apps, x);
          }
        }
        AppendDistinct(Targets(Commands(before)), Targets(AppCommands(r, |r.assets|)));
      } else {
        assert Commands(before) + [] == Commands(before);
      }
    }
  }

  lemma LastTargetIsNew(apps: seq<RApp>, x: string)
    requires apps != [] && Ready(apps)
    requires x in Targets(AppCommands(apps[|apps|-1], |apps[|apps|-1].assets|))
    ensures x !in Targets(Commands(apps[..|apps|-1]))
  {
    hide Ref, Retires, AppCommands, Targets, Commands;
    var r, before := apps[|apps|-1], apps[..|apps|-1];
    TargetsMembers(Commands(before));
    TargetsMembers(AppCommands(r, |r.assets|));
    var d :| d in AppCommands(r, |r.assets|) && d.targetRef == x;
    AppCommandsMembers(r, |r.assets|, d);
    var j :| 0 <= j < |r.assets| && Retiring(r, j, d);
    if x in Targets(Commands(before)) {
      var c :| c in Commands(before) && c.targetRef == x;
      CommandsMembers(before, c);
      var q, i :| q in before && q.entry.publish && Retiring(q, i, c);
      assert Sound(q) && Sound(r) && q in apps;
      RefInjective(c.from, q.assets[i].arch, q.entry.branch, d.from, r.assets[j].arch, r.entry.branch);
    }
  }

  /** From catalog to commands: whatever valid catalog is resolved, against whatever releases, the
      rebase commands write distinct refs, none of them published. */
  lemma ValidCatalogRebasesSafely(c: Catalog, fetch: Fetcher, m: Matcher)
    requires ValidCatalog(c) && ResolveAll(Sort(IdLeq, c.apps), fetch, m).Ok?
    ensures var apps := ResolveAll(Sort(IdLeq, c.apps), fetch, m).value;
            && NoDuplicates(Targets(Commands(apps)))
            && forall x :: x in Commands(apps) ==> BetweenRefs(apps, x) && OneStep(apps, x)
  {
    hide ValidCatalog, ResolveAll, Commands, BetweenRefs, OneStep, Targets, Ready;
    var apps := ResolveAll(Sort(IdLeq, c.apps), fetch, m).value;
    ResolvedReady(c, fetch, m);
    TargetsDistinct(apps);
    forall x | x in Commands(apps)
      ensures BetweenRefs(apps, x) && OneStep(apps, x)
    {
      RebaseIsSafe(apps, x);
    }
  }
}
