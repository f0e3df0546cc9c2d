/** What the object read from a metadata file says, told from the words of the file alone. */
module AppPermissionsMeaning {
  import opened Order
  import opened AppPermissions
  import opened AppPermissionsMetadata

  // ----- which path a token names

  /** `p` is the token up to its last colon, or all of it. */
  ghost predicate UpToMode(t: string, p: string) {
    (':' !in t && p == t) || exists mode :: ':' !in mode && t == p + ":" + mode
  }

  ghost predicate Begins(p: string, prefix: string) {
    exists rest :: p == prefix + rest
  }

  /** The root has what follows its slash as subpath, others what follows their first slash. */
  ghost predicate SubpathIs(p: string, kind: FsType, subpath: Option<string>) {
    match subpath
    case None => if kind == SystemRoot then p == "/" else '/' !in p
    case Some(s) =>
      if kind == SystemRoot then s != "" && p == "/" + s
      else exists d :: '/' !in d && p == d + "/" + s
  }

  /** The first prefix of the table that `p` begins with gives the kind; without one it is Custom. */
  ghost predicate Locates(p: string, path: FsPath) {
    || (exists i | 0 <= i < |FILESYSTEMS_OTHER| ::
          && Begins(p, FILESYSTEMS_OTHER[i].0)
          && (forall j :: 0 <= j < i ==> !Begins(p, FILESYSTEMS_OTHER[j].0))
          && path.kind == FILESYSTEMS_OTHER[i].1 && SubpathIs(p, path.kind, path.subpath))
    || ((forall i :: 0 <= i < |FILESYSTEMS_OTHER| ==> !Begins(p, FILESYSTEMS_OTHER[i].0))
        && path == FsPath(Custom, Some(p)))
  }

  ghost predicate Names(t: string, path: FsPath) {
    exists p :: UpToMode(t, p) && Locates(p, path)
  }

  ghost predicate ReadOnly(t: string) {
    exists p :: t == p + ":ro"
  }

  lemma BeginsExactly(s: string, prefix: string)
    ensures Begins(s, prefix) <==> HasPrefix(s, prefix)
  {
    if HasPrefix(s, prefix) {
      assert s == prefix + s[|prefix|..];
    }
  }

  lemma ReadOnlyExactly(t: string)
    ensures ReadOnly(t) <==> HasSuffix(t, ":ro")
  {
    if HasSuffix(t, ":ro") {
      assert t == t[..|t| - 3] + ":ro";
    }
  }

  lemma {:induction false} CutIs(t: string)
    ensures UpToMode(t, CutLastColon(t))
  {
    if ':' in t {
      var n := |t| - 1;
      if t[n] == ':' {
        assert t == t[..n] + ":" + "";
      } else {
        CutIs(t[..n]);
        var mode :| ':' !in mode && t[..n] == CutLastColon(t[..n]) + ":" + mode;
        assert t == CutLastColon(t) + ":" + (mode + [t[n]]);
      }
    }
  }

  lemma UpToModeUnique(t: string, p: string, q: string)
    requires UpToMode(t, p) && UpToMode(t, q)
    ensures p == q
  {
    if ':' in t {
      var a :| ':' !in a && t == p + ":" + a;
      var b :| ':' !in b && t == q + ":" + b;
      assert t[|p|] == ':' && t[|q|] == ':';
      assert forall i :: |p| < i < |t| ==> t[i] == a[i - |p| - 1];
      assert forall i :: |q| < i < |t| ==> t[i] == b[i - |q| - 1];
      assert p == t[..|p|] && q == t[..|q|];
    } else if p != q {
      NoColon(t, if p == t then q else p);
    }
  }

  lemma NoColon(t: string, p: string)
    requires ':' !in t && UpToMode(t, p)
    ensures p == t
  {
    forall mode
      ensures t != p + ":" + mode
    {
      assert (p + ":" + mode)[|p|] == ':';
    }
  }

  lemma {:induction false} FirstSlash(s: string)
    ensures var i := IndexOfChar(s, '/');
            '/' !in s[..i] && (i < |s| ==> s[i] == '/')
  {
    if s != [] && s[0] != '/' {
      FirstSlash(s[1..]);
      var i := IndexOfChar(s, '/');
      assert s[..i] == [s[0]] + s[1..][..i - 1];
    }
  }

  lemma {:induction false} OtherTypeExactly(p: string, i: nat)
    requires i <= |FILESYSTEMS_OTHER|
    ensures OtherType(p, i).None? ==> forall j :: i <= j < |FILESYSTEMS_OTHER| ==> !HasPrefix(p, FILESYSTEMS_OTHER[j].0)
    ensures OtherType(p, i).Some? ==>
      exists k | i <= k < |FILESYSTEMS_OTHER| ::
        && HasPrefix(p, FILESYSTEMS_OTHER[k].0) && OtherType(p, i) == Some(FILESYSTEMS_OTHER[k].1)
        && forall j :: i <= j < k ==> !HasPrefix(p, FILESYSTEMS_OTHER[j].0)
    decreases |FILESYSTEMS_OTHER| - i
  {
    hide FILESYSTEMS_OTHER, HasPrefix;
    if i < |FILESYSTEMS_OTHER| && !HasPrefix(p, FILESYSTEMS_OTHER[i].0) {
      OtherTypeExactly(p, i + 1);
    }
  }

  lemma SubpathExactly(p: string, kind: FsType, subpath: Option<string>)
    requires kind == SystemRoot ==> Begins(p, "/")
    requires kind != SystemRoot ==> !Begins(p, "/")
    ensures SubpathIs(p, kind, subpath) <==> subpath == Subpath(p, kind)
  {
    if kind == SystemRoot {
      assert p == "/" + p[1..];
      if subpath.Some? && p == "/" + subpath.value {
        assert p[1..] == subpath.value;
      }
    } else {
      BeginsExactly(p, "/");
      FirstSlash(p);
      var i := IndexOfChar(p, '/');
      if i < |p| {
        assert p == p[..i] + "/" + p[i + 1..];
      } else {
        assert p[..i] == p;
      }
      if subpath.Some? && SubpathIs(p, kind, subpath) {
        var d :| '/' !in d && p == d + "/" + subpath.value;
        assert p[|d|] == '/' && d == p[..|d|];
        assert |d| == i;
        assert subpath.value == p[i + 1..];
      }
    }
  }

  lemma RootIsFirst(i: nat)
    requires i < |FILESYSTEMS_OTHER|
    ensures FILESYSTEMS_OTHER[i].1 == SystemRoot <==> i == 0
    ensures FILESYSTEMS_OTHER[0].0 == "/"
  {
  }

  lemma LocatesExactly(p: string, path: FsPath)
    ensures Locates(p, path) <==> path == PathOf(p)
  {
    hide HasPrefix, SubpathIs, Begins, Subpath, FILESYSTEMS_OTHER;
    forall i | 0 <= i < |FILESYSTEMS_OTHER|
      ensures Begins(p, FILESYSTEMS_OTHER[i].0) <==> HasPrefix(p, FILESYSTEMS_OTHER[i].0)
      ensures FILESYSTEMS_OTHER[i].1 == SystemRoot <==> i == 0
      ensures FILESYSTEMS_OTHER[0].0 == "/"
    {
      BeginsExactly(p, FILESYSTEMS_OTHER[i].0);
      RootIsFirst(i);
    }
    OtherTypeExactly(p, 0);
    if OtherType(p, 0).Some? {
      SubpathExactly(p, OtherType(p, 0).value, path.subpath);
    }
  }

  /** A token names exactly one path: the one its builder call is for. */
  lemma NamesExactly(t: string, path: FsPath)
    ensures Names(t, path) <==> path == PathOf(CutLastColon(t))
  {
    hide UpToMode, Locates, CutLastColon, PathOf;
    CutIs(t);
    forall p | UpToMode(t, p)
      ensures p == CutLastColon(t)
    {
      UpToModeUnique(t, p, CutLastColon(t));
    }
    LocatesExactly(CutLastColon(t), path);
  }

  /** The object read from any file is sealed and canonical. A path has full access exactly when a
      token that the access table leaves names it without ":ro" at its end, and read access exactly
      when only such tokens with ":ro" do. */
  lemma MetadataMeaning(k: KeyFile, path: FsPath)
    ensures Canonical(FromMetadata(k)) && FromMetadata(k).isSealed
    ensures Level(FromMetadata(k), path) ==
            if exists t :: Left(Tokens(k), t) && Names(t, path) && !ReadOnly(t) then FullAccess
            else if exists t :: Left(Tokens(k), t) && Names(t, path) && ReadOnly(t) then ReadAccess
            else NoAccess
  {
    LevelByCalls(k, path);
    hide FromMetadata, Left, Names, ReadOnly, PathOf, CutLastColon, HasSuffix, Canonical, Level;
    forall t
      ensures Names(t, path) <==> path == PathOf(CutLastColon(t))
      ensures ReadOnly(t) <==> HasSuffix(t, ":ro")
    {
      NamesExactly(t, path);
      ReadOnlyExactly(t);
    }
    assert forall t :: TokenCall(t) == CallFull(path) <==> Names(t, path) && !ReadOnly(t);
    assert forall t :: TokenCall(t) == CallRead(path) <==> Names(t, path) && ReadOnly(t);
  }

  // ----- which bus names a file asks for

  /** The id itself, a name below it, or the media player of the id. */
  ghost predicate OwnName(name: string, id: string) {
    name == id || (exists rest :: name == id + "." + rest) || name == "org.mpris.MediaPlayer2." + id
  }

  /** Session bus names that every application may talk to, or that are its own; an application in
      development also has those of the released one. */
  ghost predicate Granted(busType: int, name: string, appId: Option<string>) {
    && busType == BUS_SESSION && appId.Some?
    && (|| OwnName(name, appId.value)
        || (exists id :: appId.value == id + ".Devel" && OwnName(name, id))
        || name == "org.freedesktop.DBus"
        || Begins(name, "org.freedesktop.portal."))
  }

  function Word(p: BusPermission): string {
    match p
    case PermUnknown => "unknown"
    case PermNone => "none"
    case See => "see"
    case Talk => "talk"
    case Own => "own"
  }

  /** Talking to some session bus names is a flag of its own. */
  ghost predicate NameHasFlag(name: string, f: nat) {
    || (name == "ca.desrt.dconf" && f == SETTINGS)
    || (name in {"org.freedesktop.Flatpak", "org.freedesktop.impl.portal.PermissionStore"} && f == ESCAPE_SANDBOX)
    || (Begins(name, "org.gtk.vfs.") && f == FILESYSTEM_FULL)
  }

  ghost predicate IsFlag(busType: int, name: string, p: BusPermission) {
    busType == BUS_SESSION && p in {Talk, Own} && exists f :: NameHasFlag(name, f)
  }

  /** Asking for the permission on the name sets the flag: its own one, or that for other names. */
  ghost predicate SetsFlag(busType: int, name: string, p: BusPermission, f: nat) {
    if IsFlag(busType, name, p) then NameHasFlag(name, f) else f == BUS_POLICY_OTHER
  }

  /** The key asks for the permission on its name: it is known, and not granted anyway. */
  ghost predicate KeyAsks(busType: int, key: (string, string), appId: Option<string>, p: BusPermission) {
    p != PermUnknown && key.1 == Word(p) && !Granted(busType, key.0, appId)
  }

  lemma OwnNameExactly(name: string, id: string)
    ensures OwnName(name, id) <==> BelongsTo(name, id)
  {
    if HasPrefix(name, id) && |id| < |name| && name[|id|] == '.' {
      assert name == id + "." + name[|id| + 1..];
    }
  }

  lemma DevelExactly(appId: string, id: string)
    ensures appId == id + ".Devel" <==> HasSuffix(appId, DEVEL) && id == appId[..|appId| - |DEVEL|]
  {
    if HasSuffix(appId, DEVEL) {
      assert appId == appId[..|appId| - |DEVEL|] + ".Devel";
    }
  }

  lemma GrantedExactly(busType: int, name: string, appId: Option<string>)
    ensures Granted(busType, name, appId) <==> Implied(busType, name, appId)
  {
    hide BelongsTo, OwnName, HasPrefix, Begins;
    BeginsExactly(name, "org.freedesktop.portal.");
    if appId.Some? {
      OwnNameExactly(name, appId.value);
      forall id
        ensures appId.value == id + ".Devel" <==>
                  HasSuffix(appId.value, DEVEL) && id == appId.value[..|appId.value| - |DEVEL|]
        ensures OwnName(name, id) <==> BelongsTo(name, id)
      {
        DevelExactly(appId.value, id);
        OwnNameExactly(name, id);
      }
    }
  }

  lemma WordExactly(s: string, p: BusPermission)
    requires p != PermUnknown
    ensures s == Word(p) <==> PermissionOf(s) == p
  {
  }

  lemma NamesApart(name: string)
    ensures HasPrefix(name, "org.gtk.vfs.") ==>
      name !in {"ca.desrt.dconf", "org.freedesktop.Flatpak", "org.freedesktop.impl.portal.PermissionStore"}
    ensures name == "ca.desrt.dconf" ==>
      name !in {"org.freedesktop.Flatpak", "org.freedesktop.impl.portal.PermissionStore"}
  {
    if HasPrefix(name, "org.gtk.vfs.") {
      assert name[0] == name[..12][0] == 'o' && name[4] == name[..12][4] == 'g';
      assert "ca.desrt.dconf"[0] == 'c' && "org.freedesktop.Flatpak"[4] == 'f';
      assert "org.freedesktop.impl.portal.PermissionStore"[4] == 'f';
    }
    assert "ca.desrt.dconf"[0] == 'c' && "org.freedesktop.Flatpak"[0] == 'o';
    assert "org.freedesktop.impl.portal.PermissionStore"[0] == 'o';
  }

  lemma SomeFlag(name: string)
    ensures (exists f :: NameHasFlag(name, f)) <==>
      || name in {"ca.desrt.dconf", "org.freedesktop.Flatpak", "org.freedesktop.impl.portal.PermissionStore"}
      || HasPrefix(name, "org.gtk.vfs.")
  {
    BeginsExactly(name, "org.gtk.vfs.");
    hide Begins, HasPrefix;
    assert name == "ca.desrt.dconf" ==> NameHasFlag(name, SETTINGS);
    assert name in {"org.freedesktop.Flatpak", "org.freedesktop.impl.portal.PermissionStore"} ==>
      NameHasFlag(name, ESCAPE_SANDBOX);
    assert Begins(name, "org.gtk.vfs.") ==> NameHasFlag(name, FILESYSTEM_FULL);
  }

  lemma ListedSteps(busType: int, name: string, p: BusPermission)
    ensures var j := ListedIndex(busType, name, p, 0);
            var heard := busType == BUS_SESSION && p in {Talk, Own};
            j == if heard && name == "ca.desrt.dconf" then 0
                 else if heard && name == "org.freedesktop.Flatpak" then 1
                 else if heard && name == "org.freedesktop.impl.portal.PermissionStore" then 2
                 else if heard && HasPrefix(name, "org.gtk.vfs.") then 3 else 4
  {
    hide HasPrefix;
    assert ListedIndex(busType, name, p, 4) == 4;
    assert ListedIndex(busType, name, p, 3) == if Listed(BUS_POLICY_PERMISSIONS[3], busType, name, p) then 3 else 4;
  }

  lemma ListedExactly(busType: int, name: string, p: BusPermission, f: nat)
    ensures var j := ListedIndex(busType, name, p, 0);
      && (j < |BUS_POLICY_PERMISSIONS| <==> IsFlag(busType, name, p))
      && (j < |BUS_POLICY_PERMISSIONS| ==> (f in BUS_POLICY_PERMISSIONS[j].flags <==> NameHasFlag(name, f)))
  {
    BeginsExactly(name, "org.gtk.vfs.");
    NamesApart(name);
    SomeFlag(name);
    ListedSteps(busType, name, p);
    hide HasPrefix, Begins, ListedIndex;
  }

  lemma KeyExactly(busType: int, key: (string, string), appId: Option<string>, c: Call, f: nat)
    ensures c in KeyCalls(busType, key, appId) <==>
      exists p | KeyAsks(busType, key, appId, p) && !IsFlag(busType, key.0, p) :: c == CallBus(busType, key.0, p)
    ensures f in KeyFlags(busType, key, appId) <==>
      exists p :: KeyAsks(busType, key, appId, p) && SetsFlag(busType, key.0, p, f)
  {
    hide Granted, Implied, ListedIndex, IsFlag, NameHasFlag, PermissionOf, Word;
    GrantedExactly(busType, key.0, appId);
    var permission := PermissionOf(key.1);
    forall p | p != PermUnknown
      ensures key.1 == Word(p) <==> permission == p
    {
      WordExactly(key.1, p);
    }
    ListedExactly(busType, key.0, permission, f);
    if permission != PermUnknown && !Granted(busType, key.0, appId) {
      assert KeyAsks(busType, key, appId, permission);
    }
  }

  /** The keys of the policy group of a bus. */
  function KeysOf(k: KeyFile, busType: int): BusGroup {
    if busType == BUS_SESSION && k.sessionBus.Some? then k.sessionBus.value
    else if busType == BUS_SYSTEM && k.systemBus.Some? then k.systemBus.value
    else []
  }

  /** A key of the file asks for the permission, and no socket opens a whole bus. */
  ghost predicate FileAsks(k: KeyFile, busType: int, name: string, p: BusPermission) {
    && !Contains(k.sockets, "system-bus") && !Contains(k.sockets, "session-bus")
    && exists key :: key in KeysOf(k, busType) && key.0 == name && KeyAsks(busType, key, k.appId, p)
  }

  ghost predicate BusFlag(k: KeyFile, f: nat) {
    exists busType, name, p :: FileAsks(k, busType, name, p) && SetsFlag(busType, name, p, f)
  }

  // ----- which flags a file sets

  ghost predicate ContextFlag(k: KeyFile, f: nat) {
    || (f == NETWORK && Contains(k.shared, "network"))
    || (f == SYSTEM_BUS && Contains(k.sockets, "system-bus"))
    || (f == SESSION_BUS && Contains(k.sockets, "session-bus"))
    || (f == ESCAPE_SANDBOX && (Contains(k.sockets, "system-bus") || Contains(k.sockets, "session-bus")
                                || Contains(k.sockets, "gpg-agent")))
    || (f == X11 && if Contains(k.sockets, "fallback-x11") then !Contains(k.sockets, "wayland")
                    else Contains(k.sockets, "x11"))
    || (f == AUDIO_DEVICES && Contains(k.sockets, "pulseaudio"))
    || (f == DEVICES && Contains(k.devices, "all"))
    || (f == INPUT_DEVICES && Contains(k.devices, "input"))
    || (f == SYSTEM_DEVICES && (Contains(k.devices, "shm") || Contains(k.devices, "kvm")))
  }

  predicate AnyOf(tokens: seq<string>, keys: set<string>) {
    exists t :: t in keys && t in tokens
  }

  /** The tokens that set a flag by themselves. */
  function FlagTokens(f: nat): set<string> {
    if f == HOME_FULL then {"home", "home:rw", "~", "~:rw"}
    else if f == HOME_READ then {"home:ro", "~:ro"}
    else if f == FILESYSTEM_FULL then {"host", "host:rw", "xdg-run/gvfsd"}
    else if f == FILESYSTEM_READ then {"host:ro"}
    else if f == DOWNLOADS_FULL then {"xdg-download", "xdg-download:rw"}
    else if f == DOWNLOADS_READ then {"xdg-download:ro"}
    else if f == ESCAPE_SANDBOX then {"xdg-data/flatpak/overrides:create"}
    else if f == SCREEN || f == AUDIO_DEVICES then
      {"xdg-run/pipewire-0", "xdg-run/pipewire-0:rw", "xdg-run/pipewire-0:ro"}
    else {}
  }

  /** A token sets the flag, unless it is one to read what another token opens in full; the flag for
      other paths is set when a token is left, or an empty one is there. */
  ghost predicate TokenFlag(tokens: seq<string>, f: nat) {
    || (AnyOf(tokens, FlagTokens(f))
        && (f == HOME_READ ==> !AnyOf(tokens, FlagTokens(HOME_FULL)))
        && (f == FILESYSTEM_READ ==> !AnyOf(tokens, FlagTokens(FILESYSTEM_FULL)))
        && (f == DOWNLOADS_READ ==> !AnyOf(tokens, FlagTokens(DOWNLOADS_FULL))))
    || (f == FILESYSTEM_OTHER && ("" in tokens || exists t :: Left(tokens, t)))
  }

  lemma ContextFlagExactly(k: KeyFile, f: nat)
    ensures f in ContextFlags(k) <==> ContextFlag(k, f)
  {
    hide Contains;
  }

  lemma TableExactly(i: nat, f: nat)
    requires i < |FILESYSTEMS_ACCESS|
    ensures f in FILESYSTEMS_ACCESS[i].1 <==> FILESYSTEMS_ACCESS[i].0 in FlagTokens(f)
  {
  }

  lemma TableComplete(t: string, f: nat)
    requires t in FlagTokens(f)
    ensures exists i :: 0 <= i < |FILESYSTEMS_ACCESS| && FILESYSTEMS_ACCESS[i].0 == t
  {
    var table := FILESYSTEMS_ACCESS;
    assert table[0].0 == "home" && table[1].0 == "home:rw" && table[2].0 == "home:ro";
    assert table[3].0 == "~" && table[4].0 == "~:rw" && table[5].0 == "~:ro";
    assert table[6].0 == "host" && table[7].0 == "host:rw" && table[8].0 == "host:ro";
    assert table[10].0 == "xdg-download" && table[11].0 == "xdg-download:rw" && table[12].0 == "xdg-download:ro";
    assert table[13].0 == "xdg-data/flatpak/overrides:create" && table[17].0 == "xdg-run/gvfsd";
    assert table[14].0 == "xdg-run/pipewire-0" && table[15].0 == "xdg-run/pipewire-0:rw";
    assert table[16].0 == "xdg-run/pipewire-0:ro";
  }

  lemma AccessFlagExactly(tokens: seq<string>, f: nat)
    ensures f in AccessFlags(tokens, |FILESYSTEMS_ACCESS|) <==> AnyOf(tokens, FlagTokens(f))
  {
    hide FILESYSTEMS_ACCESS, AccessFlags, Hits, FlagTokens;
    AccessExactly(tokens, |FILESYSTEMS_ACCESS|);
    if i :| i in Occurring(tokens, |FILESYSTEMS_ACCESS|) && f in FILESYSTEMS_ACCESS[i].1 {
      TableExactly(i, f);
      assert FILESYSTEMS_ACCESS[i].0 in FlagTokens(f) && FILESYSTEMS_ACCESS[i].0 in tokens;
    }
    if t :| t in FlagTokens(f) && t in tokens {
      TableComplete(t, f);
      var i :| 0 <= i < |FILESYSTEMS_ACCESS| && FILESYSTEMS_ACCESS[i].0 == t;
      TableExactly(i, f);
      assert i in Occurring(tokens, |FILESYSTEMS_ACCESS|);
    }
  }

  /** A list has more tokens than hits exactly when one is left or an empty one is there. */
  lemma OtherExactly(tokens: seq<string>)
    ensures |tokens| > Hits(tokens, |FILESYSTEMS_ACCESS|) <==> "" in tokens || exists t :: Left(tokens, t)
  {
    hide FILESYSTEMS_ACCESS, Blanked, Hits, Left;
    var n := |FILESYSTEMS_ACCESS|;
    var rest := Blanked(tokens, n);
    BlanksExactly(tokens, n);
    CountBound(rest, "");
    assert "" in tokens <==> multiset(tokens)[""] > 0;
    if t :| t in rest && t != "" {
      LeftExactly(tokens, t);
      CountBelow(rest, "", t);
    } else {
      CountAll(rest, "");
      forall t
        ensures !Left(tokens, t)
      {
        LeftExactly(tokens, t);
      }
    }
  }

  lemma {:induction false} CountAll(s: seq<string>, x: string)
    requires forall t :: t in s ==> t == x
    ensures multiset(s)[x] == |s|
  {
    if s != [] {
      assert s == [s[0]] + s[1..] && s[0] in s;
      assert forall t :: t in s[1..] ==> t in s;
      CountAll(s[1..], x);
    }
  }

  lemma {:induction false} BlanksExactly(tokens: seq<string>, n: nat)
    requires n <= |FILESYSTEMS_ACCESS|
    ensures multiset(Blanked(tokens, n))[""] == multiset(tokens)[""] + Hits(tokens, n)
  {
    hide FILESYSTEMS_ACCESS, BlankFirst, Hit;
    if n == 0 {
      NothingBlanked(tokens);
    } else {
      BlanksExactly(tokens, n - 1);
      BlankNext(tokens, n - 1);
      KeysNotBlank(n - 1);
      BlankFirstCount(Blanked(tokens, n - 1), FILESYSTEMS_ACCESS[n - 1].0);
    }
  }

  lemma {:induction false} CountBelow(s: seq<string>, x: string, y: string)
    requires y in s && y != x
    ensures multiset(s)[x] < |s|
  {
    assert s == [s[0]] + s[1..];
    if s[0] == x {
      CountBelow(s[1..], x, y);
    } else {
      CountBound(s[1..], x);
    }
  }

  lemma FilesystemFlagsExactly(k: KeyFile, f: nat)
    ensures f in FlagsBeforeBus(k) <==> ContextFlag(k, f) || TokenFlag(Tokens(k), f)
  {
    hide FILESYSTEMS_ACCESS, ContextFlags, ContextFlag, AccessFlags, Hits, Left, FlagTokens, AnyOf;
    var tokens := Tokens(k);
    forall g
      ensures g in ContextFlags(k) <==> ContextFlag(k, g)
      ensures g in AccessFlags(tokens, |FILESYSTEMS_ACCESS|) <==> AnyOf(tokens, FlagTokens(g))
    {
      ContextFlagExactly(k, g);
      AccessFlagExactly(tokens, g);
    }
    NeverInContext(k);
    if k.filesystems.Some? {
      OtherExactly(tokens);
    } else {
      NoTokens(f);
    }
  }

  lemma NoTokens(f: nat)
    ensures !TokenFlag([], f)
  {
  }

  lemma NeverInContext(k: KeyFile)
    ensures forall f: nat | HOME_FULL <= f <= DOWNLOADS_READ || f == FILESYSTEM_OTHER :: !ContextFlag(k, f)
  {
  }

  lemma FilteredExactly(k: KeyFile)
    ensures Filtered(k) <==> !Contains(k.sockets, "system-bus") && !Contains(k.sockets, "session-bus")
  {
    FilesystemFlagsExactly(k, SYSTEM_BUS);
    FilesystemFlagsExactly(k, SESSION_BUS);
    hide FlagsBeforeBus, Contains;
  }

  lemma GroupExactly(k: KeyFile, f: nat, c: Call)
    requires c.CallBus?
    ensures f in OptGroupFlags(BUS_SESSION, k.sessionBus, k.appId) + OptGroupFlags(BUS_SYSTEM, k.systemBus, k.appId)
       <==> exists t, key | key in KeysOf(k, t) :: f in KeyFlags(t, key, k.appId)
    ensures c in OptGroupCalls(BUS_SESSION, k.sessionBus, k.appId) + OptGroupCalls(BUS_SYSTEM, k.systemBus, k.appId)
       <==> exists key :: key in KeysOf(k, c.busType) && c in KeyCalls(c.busType, key, k.appId)
  {
    hide KeyFlags;
    if k.sessionBus.Some? {
      GroupMembers(BUS_SESSION, k.sessionBus.value, k.appId, c, f);
    }
    if k.systemBus.Some? {
      GroupMembers(BUS_SYSTEM, k.systemBus.value, k.appId, c, f);
    }
    hide GroupCalls, GroupFlags, ListedIndex, Implied, PermissionOf;
  }

  lemma BusFlagExactly(k: KeyFile, f: nat)
    ensures f in AllFlags(k) <==> f in FlagsBeforeBus(k) || BusFlag(k, f)
  {
    FilteredExactly(k);
    GroupExactly(k, f, CallBus(0, "", PermNone));
    hide FlagsBeforeBus, OptGroupFlags, Filtered, Contains, KeyFlags, KeysOf, KeyAsks, SetsFlag;
    if f in AllFlags(k) && f !in FlagsBeforeBus(k) {
      var t, key :| key in KeysOf(k, t) && f in KeyFlags(t, key, k.appId);
      KeyExactly(t, key, k.appId, CallFlags({}), f);
      var p :| KeyAsks(t, key, k.appId, p) && SetsFlag(t, key.0, p, f);
      assert FileAsks(k, t, key.0, p);
    }
    if t, name, p :| FileAsks(k, t, name, p) && SetsFlag(t, name, p, f) {
      var key :| key in KeysOf(k, t) && key.0 == name && KeyAsks(t, key, k.appId, p);
      KeyExactly(t, key, k.appId, CallFlags({}), f);
    }
  }

  /** The flags of the object read from any file, exactly. */
  lemma MetadataFlags(k: KeyFile, f: nat)
    ensures f in FromMetadata(k).flags <==> ContextFlag(k, f) || TokenFlag(Tokens(k), f) || BusFlag(k, f)
  {
    assert FromMetadata(k).flags == AllFlags(k);
    hide *;
    FilesystemFlagsExactly(k, f);
    BusFlagExactly(k, f);
  }

  lemma BusCallExactly(k: KeyFile, t: int, n: string, p: BusPermission)
    ensures CallBus(t, n, p) in AllCalls(k) <==> FileAsks(k, t, n, p) && !IsFlag(t, n, p)
  {
    var c := CallBus(t, n, p);
    FilteredExactly(k);
    GroupExactly(k, 0, c);
    assert c !in CallsBeforeBus(k) by {
      TokenCallsMembers(Blanked(Tokens(k), |FILESYSTEMS_ACCESS|), c);
    }
    hide CallsBeforeBus, OptGroupCalls, Filtered, Contains, KeyCalls, KeysOf, KeyAsks, IsFlag;
    forall key | key in KeysOf(k, t)
      ensures c in KeyCalls(t, key, k.appId) <==> key.0 == n && KeyAsks(t, key, k.appId, p) && !IsFlag(t, n, p)
    {
      KeyExactly(t, key, k.appId, c, 0);
    }
  }

  lemma SealedBus(p: Perms, t: int, n: string)
    requires Wf(p) && !p.isSealed
    ensures BusLevel(Sealed(p), t, n) == BusLevel(p, t, n)
  {
    SealedMeaning(p);
    var s := Sealed(p);
    hide Sealed;
    var i, j := BusIndex(p.bus, t, n), BusIndex(s.bus, t, n);
    if i < |p.bus| {
      assert p.bus[i] in s.bus;
      var m :| 0 <= m < |s.bus| && s.bus[m] == p.bus[i];
      BusIndexUnique(s.bus, m);
    } else {
      assert forall b :: b in p.bus ==> b.busType != t || b.name != n;
      assert forall b :: b in s.bus ==> b.busType != t || b.name != n;
    }
  }

  lemma BusOfCalls(k: KeyFile, busType: int, name: string, r: BusPermission)
    requires r in {See, Talk, Own}
    ensures Rank(BusLevel(FromMetadata(k), busType, name)) >= Rank(r) <==>
      exists c :: c in AllCalls(k) && AskedBus(c, busType, name) && Rank(c.permission) >= Rank(r)
  {
    var calls := AllCalls(k);
    var p := ApplyAll(EMPTY, calls).(flags := AllFlags(k));
    NeverSealed(calls);
    RunBusPermission(EMPTY, calls, busType, name, r);
    RunAccess(EMPTY, calls, FsPath(Custom, None));
    SealedBus(p, busType, name);
    assert BusLevel(EMPTY, busType, name) == PermNone;
    hide AllCalls, ApplyAll, Sealed, AllFlags, Wf, BusLevel, AskedBus;
  }

  /** The permission on a bus name is at least `r` exactly when a key of the file asks for as much
      on it and is not one that is a flag instead. */
  lemma MetadataBus(k: KeyFile, busType: int, name: string, r: BusPermission)
    requires r in {See, Talk, Own}
    ensures Rank(BusLevel(FromMetadata(k), busType, name)) >= Rank(r) <==>
      name != "" && exists p | FileAsks(k, busType, name, p) :: Rank(p) >= Rank(r) && !IsFlag(busType, name, p)
  {
    var calls := AllCalls(k);
    BusOfCalls(k, busType, name, r);
    hide AllCalls, FromMetadata, BusLevel, FileAsks, IsFlag;
    if c :| c in calls && AskedBus(c, busType, name) && Rank(c.permission) >= Rank(r) {
      BusCallExactly(k, busType, name, c.permission);
    }
    if q :| FileAsks(k, busType, name, q) && Rank(q) >= Rank(r) && !IsFlag(busType, name, q) {
      BusCallExactly(k, busType, name, q);
      AsksOnlyBuses(k, busType, name, q);
      assert name != "" ==> AskedBus(CallBus(busType, name, q), busType, name);
    }
  }

  lemma AsksOnlyBuses(k: KeyFile, busType: int, name: string, p: BusPermission)
    requires FileAsks(k, busType, name, p)
    ensures busType != BUS_NONE && p != PermUnknown
  {
  }

  // ----- the order of the arrays

  const KINDS: seq<FsType> := [
    SystemRoot, HomeSubdir, HostOs, HostEtc, XdgDesktop, XdgDocuments, XdgMusic, XdgPictures,
    XdgPublicShare, XdgVideos, XdgTemplates, XdgCache, XdgConfig, XdgData, XdgRun, Custom
  ]

  /** After a common beginning the first one ends, or has the smaller character. */
  ghost predicate Earlier(a: string, b: string) {
    exists k | 0 <= k <= |a| && k < |b| :: a[..k] == b[..k] && (k == |a| || a[k] < b[k])
  }

  ghost predicate EarlierKind(a: FsType, b: FsType) {
    exists i, j :: 0 <= i < j < |KINDS| && KINDS[i] == a && KINDS[j] == b
  }

  /** By kind, then the path without a subpath, then by subpath. */
  ghost predicate PathBefore(a: FsPath, b: FsPath) {
    || EarlierKind(a.kind, b.kind)
    || (a.kind == b.kind && b.subpath.Some? && (a.subpath.None? || Earlier(a.subpath.value, b.subpath.value)))
  }

  ghost predicate PolicyBefore(a: BusPolicy, b: BusPolicy) {
    a.busType < b.busType || (a.busType == b.busType && Earlier(a.name, b.name))
  }

  lemma {:induction false} LeqIsEarlier(a: string, b: string)
    ensures Leq(a, b) <==> a == b || Earlier(a, b)
  {
    if a == "" || b == "" || a[0] != b[0] {
      if b != "" {
        assert a[..0] == b[..0];
      }
    } else {
      LeqIsEarlier(a[1..], b[1..]);
      assert a == [a[0]] + a[1..] && b == [b[0]] + b[1..];
      EarlierRest(a, b);
    }
  }

  lemma EarlierRest(a: string, b: string)
    requires a != "" && b != "" && a[0] == b[0]
    ensures Earlier(a, b) <==> Earlier(a[1..], b[1..])
  {
    if k :| 0 <= k <= |a| && k < |b| && a[..k] == b[..k] && (k == |a| || a[k] < b[k]) {
      assert k > 0;
      assert a[1..][..k-1] == a[..k][1..] && b[1..][..k-1] == b[..k][1..];
    }
    var c, d := a[1..], b[1..];
    if k :| 0 <= k <= |c| && k < |d| && c[..k] == d[..k] && (k == |c| || c[k] < d[k]) {
      assert a[..k+1] == [a[0]] + c[..k] && b[..k+1] == [b[0]] + d[..k];
    }
  }

  lemma OrdIsPlace(t: FsType)
    ensures Ord(t) < |KINDS| && KINDS[Ord(t)] == t
    ensures forall i :: 0 <= i < |KINDS| && KINDS[i] == t ==> i == Ord(t)
  {
  }

  lemma PathLeqIsBefore(a: FsPath, b: FsPath)
    ensures PathLeq(a, b) <==> a == b || PathBefore(a, b)
  {
    hide Earlier, KINDS, Ord, Leq;
    OrdIsPlace(a.kind);
    OrdIsPlace(b.kind);
    if a.subpath.Some? && b.subpath.Some? {
      LeqIsEarlier(a.subpath.value, b.subpath.value);
    }
  }

  /** Sealing puts paths and policies in order, each before the next. */
  lemma SealedOrder(p: Perms)
    requires Wf(p) && !p.isSealed
    ensures var s := Sealed(p);
      && (forall i, j :: 0 <= i < j < |s.read| ==> PathBefore(s.read[i], s.read[j]))
      && (forall i, j :: 0 <= i < j < |s.full| ==> PathBefore(s.full[i], s.full[j]))
      && (forall i, j :: 0 <= i < j < |s.bus| ==> PolicyBefore(s.bus[i], s.bus[j]))
  {
    SealedMeaning(p);
    var s := Sealed(p);
    hide Sealed, PathLeq, PathBefore, Leq, Earlier, StoredPolicy;
    forall i, j | 0 <= i < j < |s.read|
      ensures PathBefore(s.read[i], s.read[j])
    {
      PathLeqIsBefore(s.read[i], s.read[j]);
    }
    forall i, j | 0 <= i < j < |s.full|
      ensures PathBefore(s.full[i], s.full[j])
    {
      PathLeqIsBefore(s.full[i], s.full[j]);
    }
    forall i, j | 0 <= i < j < |s.bus|
      ensures PolicyBefore(s.bus[i], s.bus[j])
    {
      LeqIsEarlier(s.bus[i].name, s.bus[j].name);
    }
  }
}
