/** Reading permissions out of a Flatpak metadata key file: which tokens become flags, which
    become array entries, and why the order of tokens and keys does not matter. */
module AppPermissionsMetadata {
  import opened Order
  import opened AppPermissions

  // bit numbers of BzAppPermissionsFlags
  const NETWORK: nat := 0
  const SYSTEM_BUS: nat := 1
  const SESSION_BUS: nat := 2
  const DEVICES: nat := 3
  const HOME_FULL: nat := 4
  const HOME_READ: nat := 5
  const FILESYSTEM_FULL: nat := 6
  const FILESYSTEM_READ: nat := 7
  const DOWNLOADS_FULL: nat := 8
  const DOWNLOADS_READ: nat := 9
  const SETTINGS: nat := 10
  const X11: nat := 11
  const ESCAPE_SANDBOX: nat := 12
  const FILESYSTEM_OTHER: nat := 13
  const BUS_POLICY_OTHER: nat := 14
  const AUDIO_DEVICES: nat := 15
  const INPUT_DEVICES: nat := 16
  const SYSTEM_DEVICES: nat := 17
  const SCREEN: nat := 18

  /** A bus policy group: its keys in file order, each with the string it is set to. */
  type BusGroup = seq<(string, string)>

  /** The parts of the key file that are read; `None` is a missing key or group. */
  datatype KeyFile = KeyFile(
    appId: Option<string>,
    sockets: Option<seq<string>>,
    devices: Option<seq<string>>,
    shared: Option<seq<string>>,
    filesystems: Option<seq<string>>,
    sessionBus: Option<BusGroup>,
    systemBus: Option<BusGroup>)

  // ----- sockets, devices, shared

  predicate Contains(strv: Option<seq<string>>, s: string) {
    strv.Some? && s in strv.value
  }

  function When(condition: bool, flags: set<nat>): set<nat> {
    if condition then flags else {}
  }

  function ContextFlags(k: KeyFile): set<nat> {
    When(Contains(k.sockets, "system-bus"), {SYSTEM_BUS, ESCAPE_SANDBOX})
    + When(Contains(k.sockets, "session-bus"), {SESSION_BUS, ESCAPE_SANDBOX})
    + When(!Contains(k.sockets, "fallback-x11") && Contains(k.sockets, "x11"), {X11})
    + When(Contains(k.sockets, "fallback-x11") && !Contains(k.sockets, "wayland"), {X11})
    + When(Contains(k.sockets, "pulseaudio"), {AUDIO_DEVICES})
    + When(Contains(k.sockets, "gpg-agent"), {ESCAPE_SANDBOX})
    + When(Contains(k.devices, "all"), {DEVICES})
    + When(Contains(k.devices, "input"), {INPUT_DEVICES})
    + When(Contains(k.devices, "shm") || Contains(k.devices, "kvm"), {SYSTEM_DEVICES})
    + When(Contains(k.shared, "network"), {NETWORK})
  }

  // ----- filesystems: the tokens that are flags

  const FILESYSTEMS_ACCESS: seq<(string, set<nat>)> := [
    ("home", {HOME_FULL}),
    ("home:rw", {HOME_FULL}),
    ("home:ro", {HOME_READ}),
    ("~", {HOME_FULL}),
    ("~:rw", {HOME_FULL}),
    ("~:ro", {HOME_READ}),
    ("host", {FILESYSTEM_FULL}),
    ("host:rw", {FILESYSTEM_FULL}),
    ("host:ro", {FILESYSTEM_READ}),
    ("xdg-config/kdeglobals:ro", {}),
    ("xdg-download", {DOWNLOADS_FULL}),
    ("xdg-download:rw", {DOWNLOADS_FULL}),
    ("xdg-download:ro", {DOWNLOADS_READ}),
    ("xdg-data/flatpak/overrides:create", {ESCAPE_SANDBOX}),
    ("xdg-run/pipewire-0", {SCREEN, AUDIO_DEVICES}),
    ("xdg-run/pipewire-0:rw", {SCREEN, AUDIO_DEVICES}),
    ("xdg-run/pipewire-0:ro", {SCREEN, AUDIO_DEVICES}),
    ("xdg-run/gvfsd", {FILESYSTEM_FULL})
  ]

  function BlankFirst(tokens: seq<string>, key: string): seq<string> {
    var i := FirstIndex(tokens, key);
    if i < |tokens| then tokens[i := ""] else tokens
  }

  /** The token list after the first `n` entries of the table have each blanked the first
      occurrence of their key. */
  function Blanked(tokens: seq<string>, n: nat): (r: seq<string>)
    requires n <= |FILESYSTEMS_ACCESS|
    ensures |r| == |tokens|
  {
    if n == 0 then tokens
    else BlankFirst(Blanked(tokens, n - 1), FILESYSTEMS_ACCESS[n - 1].0)
  }

  function Hit(tokens: seq<string>, n: nat): bool
    requires n < |FILESYSTEMS_ACCESS|
  {
    FILESYSTEMS_ACCESS[n].0 in Blanked(tokens, n)
  }

  function Hits(tokens: seq<string>, n: nat): nat
    requires n <= |FILESYSTEMS_ACCESS|
  {
    if n == 0 then 0 else Hits(tokens, n - 1) + if Hit(tokens, n - 1) then 1 else 0
  }

  function AccessFlags(tokens: seq<string>, n: nat): set<nat>
    requires n <= |FILESYSTEMS_ACCESS|
  {
    if n == 0 then {} else AccessFlags(tokens, n - 1) + When(Hit(tokens, n - 1), FILESYSTEMS_ACCESS[n - 1].1)
  }

  function FullHidesRead(flags: set<nat>): set<nat> {
    flags
    - When(HOME_FULL in flags, {HOME_READ})
    - When(FILESYSTEM_FULL in flags, {FILESYSTEM_READ})
    - When(DOWNLOADS_FULL in flags, {DOWNLOADS_READ})
  }

  // ----- filesystems: the other tokens

  const FILESYSTEMS_OTHER: seq<(string, FsType)> := [
    ("/", SystemRoot),
    ("home/", HomeSubdir),
    ("~/", HomeSubdir),
    ("host-os", HostOs),
    ("host-etc", HostEtc),
    ("xdg-desktop", XdgDesktop),
    ("xdg-documents", XdgDocuments),
    ("xdg-music", XdgMusic),
    ("xdg-pictures", XdgPictures),
    ("xdg-public-share", XdgPublicShare),
    ("xdg-videos", XdgVideos),
    ("xdg-templates", XdgTemplates),
    ("xdg-cache", XdgCache),
    ("xdg-config", XdgConfig),
    ("xdg-data", XdgData),
    ("xdg-run", XdgRun)
  ]

  /** The string up to its last colon, or all of it. */
  function CutLastColon(s: string): string {
    if ':' !in s then s
    else if s[|s|-1] == ':' then s[..|s|-1]
    else CutLastColon(s[..|s|-1])
  }

  function IndexOfChar(s: string, c: char): (i: nat)
    ensures i <= |s|
  {
    if s == [] || s[0] == c then 0 else 1 + IndexOfChar(s[1..], c)
  }

  /** The first entry, at or after `i`, whose prefix the token has. */
  function OtherType(perm: string, i: nat): Option<FsType>
    requires i <= |FILESYSTEMS_OTHER|
    decreases |FILESYSTEMS_OTHER| - i
  {
    if i == |FILESYSTEMS_OTHER| then None
    else if HasPrefix(perm, FILESYSTEMS_OTHER[i].0) then Some(FILESYSTEMS_OTHER[i].1)
    else OtherType(perm, i + 1)
  }

  function Subpath(perm: string, kind: FsType): Option<string> {
    if kind == SystemRoot then (if |perm| > 1 then Some(perm[1..]) else None)
    else
      var slash := IndexOfChar(perm, '/');
      if 0 < slash < |perm| then Some(perm[slash + 1..]) else None
  }

  function PathOf(perm: string): FsPath {
    match OtherType(perm, 0)
    case Some(kind) => FsPath(kind, Subpath(perm, kind))
    case None => FsPath(Custom, Some(perm))
  }

  /** The builder call a token asks for. */
  function TokenCall(token: string): Call {
    var path := PathOf(CutLastColon(token));
    if HasSuffix(token, ":ro") then CallRead(path) else CallFull(path)
  }

  function TokenCalls(tokens: seq<string>): seq<Call> {
    if tokens == [] then []
    else
      var last := tokens[|tokens|-1];
      TokenCalls(tokens[..|tokens|-1]) + if last == "" then [] else [TokenCall(last)]
  }

  function FilesystemFlags(flags: set<nat>, tokens: seq<string>): set<nat> {
    FullHidesRead(flags + AccessFlags(tokens, |FILESYSTEMS_ACCESS|))
    + When(|tokens| > Hits(tokens, |FILESYSTEMS_ACCESS|), {FILESYSTEM_OTHER})
  }

  function FilesystemCalls(tokens: seq<string>): seq<Call> {
    if |tokens| > Hits(tokens, |FILESYSTEMS_ACCESS|) then TokenCalls(Blanked(tokens, |FILESYSTEMS_ACCESS|)) else []
  }

  // ----- bus policies

  datatype ListedName = ListedName(busType: int, name: string, isPrefix: bool, atLeast: BusPermission, flags: set<nat>)

  const BUS_POLICY_PERMISSIONS: seq<ListedName> := [
    ListedName(BUS_SESSION, "ca.desrt.dconf", false, Talk, {SETTINGS}),
    ListedName(BUS_SESSION, "org.freedesktop.Flatpak", false, Talk, {ESCAPE_SANDBOX}),
    ListedName(BUS_SESSION, "org.freedesktop.impl.portal.PermissionStore", false, Talk, {ESCAPE_SANDBOX}),
    ListedName(BUS_SESSION, "org.gtk.vfs.", true, Talk, {FILESYSTEM_FULL})
  ]

  function PermissionOf(s: string): BusPermission {
    if s == "none" then PermNone
    else if s == "see" then See
    else if s == "talk" then Talk
    else if s == "own" then Own
    else PermUnknown
  }

  const MPRIS := "org.mpris.MediaPlayer2."
  const DEVEL := ".Devel"

  predicate BelongsTo(name: string, id: string) {
    || name == id
    || (HasPrefix(name, id) && |id| < |name| && name[|id|] == '.')
    || name == MPRIS + id
  }

  /** Session bus names every application may talk to, or owns. */
  predicate Implied(busType: int, name: string, appId: Option<string>) {
    && busType == BUS_SESSION
    && appId.Some?
    && (|| BelongsTo(name, appId.value)
        || name == "org.freedesktop.DBus"
        || HasPrefix(name, "org.freedesktop.portal.")
        || (HasSuffix(appId.value, DEVEL) && BelongsTo(name, appId.value[..|appId.value| - |DEVEL|])))
  }

  predicate Listed(l: ListedName, busType: int, name: string, permission: BusPermission) {
    && l.busType == busType
    && (if l.isPrefix then HasPrefix(name, l.name) else name == l.name)
    && Rank(permission) >= Rank(l.atLeast)
  }

  function ListedIndex(busType: int, name: string, permission: BusPermission, j: nat): (r: nat)
    requires j <= |BUS_POLICY_PERMISSIONS|
    ensures r <= |BUS_POLICY_PERMISSIONS|
    decreases |BUS_POLICY_PERMISSIONS| - j
  {
    if j == |BUS_POLICY_PERMISSIONS| || Listed(BUS_POLICY_PERMISSIONS[j], busType, name, permission) then j
    else ListedIndex(busType, name, permission, j + 1)
  }

  /** What one key of a bus policy group adds: flags, and perhaps a builder call. */
  function KeyFlags(busType: int, key: (string, string), appId: Option<string>): set<nat> {
    var permission := PermissionOf(key.1);
    if permission == PermUnknown || Implied(busType, key.0, appId) then {}
    else
      var j := ListedIndex(busType, key.0, permission, 0);
      if j < |BUS_POLICY_PERMISSIONS| then BUS_POLICY_PERMISSIONS[j].flags else {BUS_POLICY_OTHER}
  }

  function KeyCalls(busType: int, key: (string, string), appId: Option<string>): seq<Call> {
    var permission := PermissionOf(key.1);
    if permission == PermUnknown || Implied(busType, key.0, appId) then []
    else if ListedIndex(busType, key.0, permission, 0) < |BUS_POLICY_PERMISSIONS| then []
    else [CallBus(busType, key.0, permission)]
  }

  function GroupFlags(busType: int, keys: BusGroup, appId: Option<string>): set<nat> {
    if keys == [] then {}
    else GroupFlags(busType, keys[..|keys|-1], appId) + KeyFlags(busType, keys[|keys|-1], appId)
  }

  function GroupCalls(busType: int, keys: BusGroup, appId: Option<string>): seq<Call> {
    if keys == [] then []
    else GroupCalls(busType, keys[..|keys|-1], appId) + KeyCalls(busType, keys[|keys|-1], appId)
  }

  function OptGroupFlags(busType: int, g: Option<BusGroup>, appId: Option<string>): set<nat> {
    if g.None? then {} else GroupFlags(busType, g.value, appId)
  }

  function OptGroupCalls(busType: int, g: Option<BusGroup>, appId: Option<string>): seq<Call> {
    if g.None? then [] else GroupCalls(busType, g.value, appId)
  }

  // ----- the whole file

  function FlagsBeforeBus(k: KeyFile): set<nat> {
    if k.filesystems.None? then ContextFlags(k) else FilesystemFlags(ContextFlags(k), k.filesystems.value)
  }

  function CallsBeforeBus(k: KeyFile): seq<Call> {
    if k.filesystems.None? then [] else FilesystemCalls(k.filesystems.value)
  }

  predicate Filtered(k: KeyFile) {
    SYSTEM_BUS !in FlagsBeforeBus(k) && SESSION_BUS !in FlagsBeforeBus(k)
  }

  function AllFlags(k: KeyFile): set<nat>
  {
    FlagsBeforeBus(k)
    + (if Filtered(k)
       then OptGroupFlags(BUS_SESSION, k.sessionBus, k.appId)
            + OptGroupFlags(BUS_SYSTEM, k.systemBus, k.appId)
       else {})
  }

  function AllCalls(k: KeyFile): seq<Call>
  {
    CallsBeforeBus(k)
    + if Filtered(k)
      then OptGroupCalls(BUS_SESSION, k.sessionBus, k.appId)
           + OptGroupCalls(BUS_SYSTEM, k.systemBus, k.appId)
      else []
  }

  function FromMetadata(k: KeyFile): Perms
  {
    Sealed(ApplyAll(EMPTY, AllCalls(k)).(flags := AllFlags(k)))
  }

  // ----- what the access table does to a list of tokens

  lemma KeysNotBlank(i: nat)
    requires i < |FILESYSTEMS_ACCESS|
    ensures FILESYSTEMS_ACCESS[i].0 != ""
  {
  }

  lemma AccessKeysDistinct()
    ensures forall i, j :: 0 <= i < j < |FILESYSTEMS_ACCESS| ==> FILESYSTEMS_ACCESS[i].0 != FILESYSTEMS_ACCESS[j].0
  {
  }

  /** The token is one of the first `n` keys of the table. */
  ghost predicate AccessKey(t: string, n: nat)
    requires n <= |FILESYSTEMS_ACCESS|
  {
    exists i :: 0 <= i < n && FILESYSTEMS_ACCESS[i].0 == t
  }

  lemma AccessKeyNext(t: string, n: nat)
    requires n < |FILESYSTEMS_ACCESS|
    ensures AccessKey(t, n + 1) <==> AccessKey(t, n) || t == FILESYSTEMS_ACCESS[n].0
    ensures !AccessKey(FILESYSTEMS_ACCESS[n].0, n)
  {
    AccessKeysDistinct();
    hide FILESYSTEMS_ACCESS;
  }

  lemma BlankFirstCounts(tokens: seq<string>, key: string, t: string)
    requires key != "" && t != ""
    ensures multiset(BlankFirst(tokens, key))[t]
         == multiset(tokens)[t] - if t == key && key in tokens then 1 else 0
  {
    BlankFirstMultiset(tokens, key);
    hide BlankFirst;
    assert key in tokens <==> multiset(tokens)[key] > 0;
  }

  /** Each key of the table takes exactly one occurrence of itself, if there is one, and nothing else. */
  lemma {:induction false} BlankedExactly(tokens: seq<string>, n: nat, t: string)
    requires n <= |FILESYSTEMS_ACCESS| && t != ""
    ensures multiset(Blanked(tokens, n))[t]
         == multiset(tokens)[t] - if t in tokens && AccessKey(t, n) then 1 else 0
  {
    hide FILESYSTEMS_ACCESS, BlankFirst;
    if n > 0 {
      BlankedExactly(tokens, n - 1, t);
      KeysNotBlank(n - 1);
      BlankFirstCounts(Blanked(tokens, n - 1), FILESYSTEMS_ACCESS[n - 1].0, t);
      AccessKeyNext(t, n - 1);
      assert t in Blanked(tokens, n - 1) <==> multiset(Blanked(tokens, n - 1))[t] > 0;
      assert t in tokens <==> multiset(tokens)[t] > 0;
    }
  }

  /** An entry of the table hits exactly when its key occurs in the list. */
  lemma HitExactly(tokens: seq<string>, n: nat)
    requires n < |FILESYSTEMS_ACCESS|
    ensures Hit(tokens, n) <==> FILESYSTEMS_ACCESS[n].0 in tokens
  {
    hide FILESYSTEMS_ACCESS, Blanked;
    var key := FILESYSTEMS_ACCESS[n].0;
    KeysNotBlank(n);
    BlankedExactly(tokens, n, key);
    AccessKeyNext(key, n);
    assert key in Blanked(tokens, n) <==> multiset(Blanked(tokens, n))[key] > 0;
    assert key in tokens <==> multiset(tokens)[key] > 0;
  }

  /** The entries of the table, among the first `n`, whose keys occur in the list. */
  function Occurring(tokens: seq<string>, n: nat): set<nat>
    requires n <= |FILESYSTEMS_ACCESS|
  {
    set i: nat | i < n && FILESYSTEMS_ACCESS[i].0 in tokens
  }

  lemma OccurringNext(tokens: seq<string>, n: nat)
    requires n < |FILESYSTEMS_ACCESS|
    ensures n !in Occurring(tokens, n)
    ensures Occurring(tokens, n + 1)
         == Occurring(tokens, n) + if FILESYSTEMS_ACCESS[n].0 in tokens then {n} else {}
  {
    hide FILESYSTEMS_ACCESS;
  }

  /** The hits are the keys that occur, and the flags are those of the keys that occur. */
  lemma {:induction false} AccessExactly(tokens: seq<string>, n: nat)
    requires n <= |FILESYSTEMS_ACCESS|
    ensures Hits(tokens, n) == |Occurring(tokens, n)|
    ensures forall f :: f in AccessFlags(tokens, n) <==>
      exists i :: i in Occurring(tokens, n) && f in FILESYSTEMS_ACCESS[i].1
  {
    hide FILESYSTEMS_ACCESS, Blanked, BlankFirst, Hits, AccessFlags, Occurring;
    if n == 0 {
      NothingBlanked(tokens);
      NothingOccurring(tokens);
    } else {
      AccessExactly(tokens, n - 1);
      OccurringNext(tokens, n - 1);
      BlankNext(tokens, n - 1);
      HitExactly(tokens, n - 1);
    }
  }

  lemma NothingOccurring(tokens: seq<string>)
    ensures Occurring(tokens, 0) == {}
  {
  }

  /** A token is left for the arrays: it occurs, and it is no key of the table or occurs again. */
  ghost predicate Left(tokens: seq<string>, t: string) {
    t != "" && t in tokens && (AccessKey(t, |FILESYSTEMS_ACCESS|) ==> multiset(tokens)[t] > 1)
  }

  lemma LeftExactly(tokens: seq<string>, t: string)
    ensures Left(tokens, t) <==> t != "" && t in Blanked(tokens, |FILESYSTEMS_ACCESS|)
  {
    hide FILESYSTEMS_ACCESS, Blanked, AccessKey;
    if t != "" {
      var rest := Blanked(tokens, |FILESYSTEMS_ACCESS|);
      BlankedExactly(tokens, |FILESYSTEMS_ACCESS|, t);
      assert t in rest <==> multiset(rest)[t] > 0;
      assert t in tokens <==> multiset(tokens)[t] > 0;
    }
  }

  // ----- permutation invariance

  lemma BlankFirstMultiset(tokens: seq<string>, key: string)
    ensures multiset(BlankFirst(tokens, key))
         == if key in tokens then multiset(tokens) - multiset{key} + multiset{""} else multiset(tokens)
  {
  }

  lemma {:induction false} BlankedPermutation(a: seq<string>, b: seq<string>, n: nat)
    requires n <= |FILESYSTEMS_ACCESS| && multiset(a) == multiset(b)
    ensures multiset(Blanked(a, n)) == multiset(Blanked(b, n))
    ensures Hits(a, n) == Hits(b, n) && AccessFlags(a, n) == AccessFlags(b, n)
  {
    hide BlankFirst;
    if n == 0 {
      NothingBlanked(a);
      NothingBlanked(b);
    } else {
      BlankedPermutation(a, b, n - 1);
      BlankNext(a, n - 1);
      BlankNext(b, n - 1);
      hide FILESYSTEMS_ACCESS, Blanked, Hits, AccessFlags;
      SameMembers(Blanked(a, n - 1), Blanked(b, n - 1));
      BlankFirstMultiset(Blanked(a, n - 1), FILESYSTEMS_ACCESS[n - 1].0);
      BlankFirstMultiset(Blanked(b, n - 1), FILESYSTEMS_ACCESS[n - 1].0);
    }
  }

  lemma {:induction false} TokenCallsMembers(tokens: seq<string>, c: Call)
    ensures c in TokenCalls(tokens) <==> exists t :: t in tokens && t != "" && c == TokenCall(t)
  {
    if tokens != [] {
      var last, before := tokens[|tokens|-1], tokens[..|tokens|-1];
      TokenCallsMembers(before, c);
      assert tokens == before + [last];
      assert forall t :: t in tokens <==> t in before || t == last;
    }
  }

  lemma {:induction false} GroupMembers(busType: int, keys: BusGroup, appId: Option<string>, c: Call, f: nat)
    ensures c in GroupCalls(busType, keys, appId) <==> exists key :: key in keys && c in KeyCalls(busType, key, appId)
    ensures f in GroupFlags(busType, keys, appId) <==> exists key :: key in keys && f in KeyFlags(busType, key, appId)
  {
    if keys != [] {
      var last, before := keys[|keys|-1], keys[..|keys|-1];
      assert keys == before + [last];
      assert forall t :: t in keys <==> t in before || t == last;
      GroupMembers(busType, before, appId, c, f);
    }
  }

  lemma GroupPermutation(busType: int, a: Option<BusGroup>, b: Option<BusGroup>, appId: Option<string>)
    requires PermutedList(a, b)
    ensures OptGroupFlags(busType, a, appId) == OptGroupFlags(busType, b, appId)
    ensures forall c :: c in OptGroupCalls(busType, a, appId) <==> c in OptGroupCalls(busType, b, appId)
  {
    if a.Some? {
      SameMembers(a.value, b.value);
      var s, t := a.value, b.value;
      forall c
        ensures c in OptGroupCalls(busType, a, appId) <==> c in OptGroupCalls(busType, b, appId)
      {
        GroupMembers(busType, s, appId, c, 0);
        GroupMembers(busType, t, appId, c, 0);
      }
      forall f: nat
        ensures f in OptGroupFlags(busType, a, appId) <==> f in OptGroupFlags(busType, b, appId)
      {
        GroupMembers(busType, s, appId, CallFlags({}), f);
        GroupMembers(busType, t, appId, CallFlags({}), f);
      }
    }
  }

  ghost predicate PermutedList<T>(a: Option<seq<T>>, b: Option<seq<T>>) {
    a.Some? == b.Some? && (a.Some? ==> multiset(a.value) == multiset(b.value))
  }

  /** The same file with its lists and its bus policy keys in another order. */
  ghost predicate Permuted(a: KeyFile, b: KeyFile) {
    && a.appId == b.appId
    && PermutedList(a.sockets, b.sockets)
    && PermutedList(a.devices, b.devices)
    && PermutedList(a.shared, b.shared)
    && PermutedList(a.filesystems, b.filesystems)
    && PermutedList(a.sessionBus, b.sessionBus)
    && PermutedList(a.systemBus, b.systemBus)
  }

  lemma SameContents(a: Option<seq<string>>, b: Option<seq<string>>)
    requires PermutedList(a, b)
    ensures forall s :: Contains(a, s) == Contains(b, s)
  {
    if a.Some? {
      SameMembers(a.value, b.value);
    }
  }

  lemma ContextPermutation(a: KeyFile, b: KeyFile)
    requires Permuted(a, b)
    ensures ContextFlags(a) == ContextFlags(b)
  {
    SameContents(a.sockets, b.sockets);
    SameContents(a.devices, b.devices);
    SameContents(a.shared, b.shared);
    hide Contains, When;
  }

  lemma BeforeBusPermutation(a: KeyFile, b: KeyFile)
    requires Permuted(a, b)
    ensures FlagsBeforeBus(a) == FlagsBeforeBus(b)
    ensures forall c :: c in CallsBeforeBus(a) <==> c in CallsBeforeBus(b)
  {
    ContextPermutation(a, b);
    if a.filesystems.Some? {
      var n := |FILESYSTEMS_ACCESS|;
      var s, t := a.filesystems.value, b.filesystems.value;
      BlankedPermutation(s, t, n);
      SameMembers(s, t);
      SameMembers(Blanked(s, n), Blanked(t, n));
      forall c
        ensures c in TokenCalls(Blanked(s, n)) <==> c in TokenCalls(Blanked(t, n))
      {
        TokenCallsMembers(Blanked(s, n), c);
        TokenCallsMembers(Blanked(t, n), c);
      }
    }
  }

  lemma CallsPermutation(a: KeyFile, b: KeyFile)
    requires Permuted(a, b)
    ensures AllFlags(a) == AllFlags(b)
    ensures forall c :: c in AllCalls(a) <==> c in AllCalls(b)
  {
    BeforeBusPermutation(a, b);
    GroupPermutation(BUS_SESSION, a.sessionBus, b.sessionBus, a.appId);
    GroupPermutation(BUS_SYSTEM, a.systemBus, b.systemBus, a.appId);
  }

  /** Only the set of calls made matters for the sealed object. */
  lemma SameCallsSameObject(a: seq<Call>, b: seq<Call>, flags: set<nat>)
    requires forall c :: c in a <==> c in b
    ensures Sealed(ApplyAll(EMPTY, a).(flags := flags)) == Sealed(ApplyAll(EMPTY, b).(flags := flags))
  {
    hide ApplyAll, Sealed, Wf, Level, BusLevel;
    var x, y := ApplyAll(EMPTY, a), ApplyAll(EMPTY, b);
    var p, q := x.(flags := flags), y.(flags := flags);
    NeverSealed(a);
    NeverSealed(b);
    FlagsApart(x, flags);
    FlagsApart(y, flags);
    SameLevel(a, b, FsPath(Custom, None));
    forall path
      ensures Level(p, path) == Level(q, path)
    {
      SameLevel(a, b, path);
    }
    forall t, n
      ensures BusLevel(p, t, n) == BusLevel(q, t, n)
    {
      SameBusLevel(a, b, t, n);
    }
    CanonicalForm(p, q);
  }

  lemma FlagsApart(x: Perms, flags: set<nat>)
    ensures var p := x.(flags := flags);
            && (Wf(p) <==> Wf(x))
            && (forall path :: Level(p, path) == Level(x, path))
            && forall t, n :: BusLevel(p, t, n) == BusLevel(x, t, n)
  {
    hide BusIndex;
  }

  lemma SameLevel(a: seq<Call>, b: seq<Call>, path: FsPath)
    requires forall c :: c in a <==> c in b
    ensures Wf(ApplyAll(EMPTY, a)) && Wf(ApplyAll(EMPTY, b))
    ensures Level(ApplyAll(EMPTY, a), path) == Level(ApplyAll(EMPTY, b), path)
  {
    hide ApplyAll;
    RunAccess(EMPTY, a, path);
    RunAccess(EMPTY, b, path);
  }

  lemma SameBusLevel(a: seq<Call>, b: seq<Call>, t: int, n: string)
    requires forall c :: c in a <==> c in b
    ensures BusLevel(ApplyAll(EMPTY, a), t, n) == BusLevel(ApplyAll(EMPTY, b), t, n)
  {
    var x, y := BusLevel(ApplyAll(EMPTY, a), t, n), BusLevel(ApplyAll(EMPTY, b), t, n);
    RunBusPermission(EMPTY, a, t, n, x);
    RunBusPermission(EMPTY, b, t, n, x);
    RunBusPermission(EMPTY, a, t, n, y);
    RunBusPermission(EMPTY, b, t, n, y);
    assert Rank(x) == Rank(y);
  }

  lemma {:induction false} NeverSealed(calls: seq<Call>)
    ensures !ApplyAll(EMPTY, calls).isSealed
  {
    if calls != [] {
      NeverSealed(calls[..|calls|-1]);
    }
  }

  /** Permuting the tokens of any list of the file, or the keys of a bus policy group, leaves
      the sealed object identical: same flags, same arrays in the same order. */
  lemma PermutationInvariance(a: KeyFile, b: KeyFile)
    requires Permuted(a, b)
    ensures FromMetadata(a) == FromMetadata(b)
  {
    CallsPermutation(a, b);
    SameCallsSameObject(AllCalls(a), AllCalls(b), AllFlags(a));
  }

  /** The calls about paths are those of the tokens that are left. */
  lemma PathCalls(k: KeyFile, c: Call)
    requires !c.CallBus?
    ensures c in AllCalls(k) <==> exists t :: Left(Tokens(k), t) && c == TokenCall(t)
  {
    hide Blanked, TokenCalls, TokenCall, OptGroupCalls, Left;
    var tokens, n := Tokens(k), |FILESYSTEMS_ACCESS|;
    BusCallsOnly(BUS_SESSION, k.sessionBus, k.appId, c);
    BusCallsOnly(BUS_SYSTEM, k.systemBus, k.appId, c);
    HitsAreBlank(tokens, n);
    TokenCallsMembers(Blanked(tokens, n), c);
    forall t
      ensures Left(tokens, t) <==> t != "" && t in Blanked(tokens, n)
    {
      LeftExactly(tokens, t);
    }
  }

  function Tokens(k: KeyFile): seq<string> {
    if k.filesystems.Some? then k.filesystems.value else []
  }

  /** The object read from any file is sealed, canonical, and grants on a path the largest
      access that a token left over by the access table asks for. */
  lemma LevelByCalls(k: KeyFile, path: FsPath)
    ensures Canonical(FromMetadata(k)) && FromMetadata(k).isSealed
    ensures Level(FromMetadata(k), path) ==
            if exists t :: Left(Tokens(k), t) && TokenCall(t) == CallFull(path) then FullAccess
            else if exists t :: Left(Tokens(k), t) && TokenCall(t) == CallRead(path) then ReadAccess
            else NoAccess
  {
    var p := ApplyAll(EMPTY, AllCalls(k)).(flags := AllFlags(k));
    NeverSealed(AllCalls(k));
    RunAccess(EMPTY, AllCalls(k), path);
    SealedMeaning(p);
    hide AllCalls, AllFlags, ApplyAll, Wf, Left, TokenCall;
    PathCalls(k, CallFull(path));
    PathCalls(k, CallRead(path));
    assert forall c :: c in AllCalls(k) && Asked(c, path) == FullAccess ==> c == CallFull(path);
    assert forall c :: c in AllCalls(k) && Asked(c, path) != NoAccess ==> c == CallFull(path) || c == CallRead(path);
    assert CallFull(path) in AllCalls(k) ==> Asked(CallFull(path), path) == FullAccess;
    assert CallRead(path) in AllCalls(k) ==> Asked(CallRead(path), path) == ReadAccess;
  }

  lemma TableFlagsInRange(i: nat, f: nat)
    requires i < |FILESYSTEMS_ACCESS| && f in FILESYSTEMS_ACCESS[i].1
    ensures f <= SCREEN
  {
  }

  lemma GroupFlagsInRange(busType: int, g: Option<BusGroup>, appId: Option<string>, f: nat)
    requires f in OptGroupFlags(busType, g, appId)
    ensures f <= SCREEN
  {
    hide Implied, PermissionOf;
    GroupMembers(busType, g.value, appId, CallFlags({}), f);
  }

  lemma ContextFlagsInRange(k: KeyFile, f: nat)
    requires f in ContextFlags(k)
    ensures f <= SCREEN
  {
    hide Contains;
  }

  lemma AccessFlagsInRange(tokens: seq<string>, f: nat)
    requires f in AccessFlags(tokens, |FILESYSTEMS_ACCESS|)
    ensures f <= SCREEN
  {
    hide FILESYSTEMS_ACCESS, AccessFlags, Hits;
    AccessExactly(tokens, |FILESYSTEMS_ACCESS|);
    var i :| i in Occurring(tokens, |FILESYSTEMS_ACCESS|) && f in FILESYSTEMS_ACCESS[i].1;
    TableFlagsInRange(i, f);
  }

  lemma FlagsBeforeBusInRange(k: KeyFile, f: nat)
    requires f in FlagsBeforeBus(k)
    ensures f <= SCREEN
  {
    hide FILESYSTEMS_ACCESS, ContextFlags, AccessFlags, Hits;
    if f in ContextFlags(k) {
      ContextFlagsInRange(k, f);
    } else if f in AccessFlags(Tokens(k), |FILESYSTEMS_ACCESS|) {
      AccessFlagsInRange(Tokens(k), f);
    }
  }

  /** The reader sets no other bits than those of BzAppPermissionsFlags. */
  lemma FlagsInRange(k: KeyFile)
    ensures forall f :: f in AllFlags(k) ==> f <= SCREEN
  {
    hide FlagsBeforeBus, OptGroupFlags;
    forall f | f in AllFlags(k)
      ensures f <= SCREEN
    {
      if f in FlagsBeforeBus(k) {
        FlagsBeforeBusInRange(k, f);
      } else if f in OptGroupFlags(BUS_SESSION, k.sessionBus, k.appId) {
        GroupFlagsInRange(BUS_SESSION, k.sessionBus, k.appId, f);
      } else {
        GroupFlagsInRange(BUS_SYSTEM, k.systemBus, k.appId, f);
      }
    }
  }

  lemma BusCallsOnly(busType: int, g: Option<BusGroup>, appId: Option<string>, c: Call)
    requires !c.CallBus?
    ensures c !in OptGroupCalls(busType, g, appId)
  {
    if g.Some? {
      GroupMembers(busType, g.value, appId, c, 0);
    }
  }

  lemma BlankFirstCount(tokens: seq<string>, key: string)
    requires key != ""
    ensures multiset(BlankFirst(tokens, key))[""] == multiset(tokens)[""] + if key in tokens then 1 else 0
  {
  }

  lemma {:induction false} HitsBlank(tokens: seq<string>, n: nat)
    requires n <= |FILESYSTEMS_ACCESS|
    ensures Hits(tokens, n) <= multiset(Blanked(tokens, n))[""]
  {
    hide FILESYSTEMS_ACCESS, BlankFirst, Hit;
    if n > 0 {
      HitsBlank(tokens, n - 1);
      BlankNext(tokens, n - 1);
      KeysNotBlank(n - 1);
      BlankFirstCount(Blanked(tokens, n - 1), FILESYSTEMS_ACCESS[n - 1].0);
    }
  }

  /** Each hit blanks a token of its own, so a list with as many hits as tokens has no token left. */
  lemma HitsAreBlank(tokens: seq<string>, n: nat)
    requires n <= |FILESYSTEMS_ACCESS|
    ensures Hits(tokens, n) <= |tokens|
    ensures Hits(tokens, n) == |tokens| ==> forall t :: t in Blanked(tokens, n) ==> t == ""
  {
    HitsBlank(tokens, n);
    CountBound(Blanked(tokens, n), "");
  }

  lemma {:induction false} CountBound(s: seq<string>, x: string)
    ensures multiset(s)[x] <= |s|
    ensures multiset(s)[x] == |s| ==> forall t :: t in s ==> t == x
  {
    if s != [] {
      CountBound(s[1..], x);
      assert s == [s[0]] + s[1..];
    }
  }

  // ----- the reader itself

  lemma ApplyOne(p: Perms, calls: seq<Call>, c: Call)
    ensures ApplyAll(p, calls + [c]) == Apply(ApplyAll(p, calls), c)
  {
  }

  method NewFromMetadata(k: KeyFile) returns (permissions: BzAppPermissions)
    ensures fresh(permissions) && permissions.Value() == FromMetadata(k)
  {
    permissions := new BzAppPermissions();
    var flags := ContextFlags(k);
    if k.filesystems.Some? {
      flags := ReadFilesystems(k.filesystems.value, flags, permissions);
    }
    flags := ReadBusPolicies(k, flags, permissions);
    NeverSealed(AllCalls(k));
    permissions.SetFlags(flags);
    permissions.Seal();
  }

  method ReadFilesystems(tokens: seq<string>, flags0: set<nat>, permissions: BzAppPermissions) returns (flags: set<nat>)
    requires permissions.Value() == EMPTY
    modifies permissions
    ensures flags == FilesystemFlags(flags0, tokens)
    ensures permissions.Value() == ApplyAll(EMPTY, FilesystemCalls(tokens))
  {
    hide FILESYSTEMS_ACCESS, Blanked, Hits, AccessFlags, Occurring, TokenCalls;
    var strv := new string[|tokens|](i requires 0 <= i < |tokens| => tokens[i]);
    assert strv[..] == tokens;
    var access, hits := BlankAccessTokens(strv);
    flags := flags0 + access;
    if HOME_FULL in flags {
      flags := flags - {HOME_READ};
    }
    if FILESYSTEM_FULL in flags {
      flags := flags - {FILESYSTEM_READ};
    }
    if DOWNLOADS_FULL in flags {
      flags := flags - {DOWNLOADS_READ};
    }
    assert flags == FullHidesRead(flags0 + access);
    if strv.Length > hits {
      flags := flags + {FILESYSTEM_OTHER};
      AddOtherTokens(strv, permissions);
    }
  }

  lemma NothingBlanked(tokens: seq<string>)
    ensures Blanked(tokens, 0) == tokens && Hits(tokens, 0) == 0 && AccessFlags(tokens, 0) == {}
  {
  }

  lemma BlankNext(tokens: seq<string>, n: nat)
    requires n < |FILESYSTEMS_ACCESS|
    ensures var (key, flags) := FILESYSTEMS_ACCESS[n];
            && Blanked(tokens, n + 1) == BlankFirst(Blanked(tokens, n), key)
            && Hits(tokens, n + 1) == Hits(tokens, n) + (if key in Blanked(tokens, n) then 1 else 0)
            && AccessFlags(tokens, n + 1) == AccessFlags(tokens, n) + (if key in Blanked(tokens, n) then flags else {})
  {
    hide FILESYSTEMS_ACCESS;
  }

  method BlankAccessTokens(strv: array<string>) returns (flags: set<nat>, hits: nat)
    modifies strv
    ensures strv[..] == Blanked(old(strv[..]), |FILESYSTEMS_ACCESS|)
    ensures flags == AccessFlags(old(strv[..]), |FILESYSTEMS_ACCESS|)
    ensures hits == Hits(old(strv[..]), |FILESYSTEMS_ACCESS|)
    ensures hits == |Occurring(old(strv[..]), |FILESYSTEMS_ACCESS|)|
    ensures forall f :: f in flags <==>
      exists i :: i in Occurring(old(strv[..]), |FILESYSTEMS_ACCESS|) && f in FILESYSTEMS_ACCESS[i].1
  {
    hide *;
    ghost var tokens := strv[..];
    flags, hits := {}, 0;
    var i := 0;
    NothingBlanked(tokens);
    while i < |FILESYSTEMS_ACCESS|
      invariant 0 <= i <= |FILESYSTEMS_ACCESS|
      invariant strv[..] == Blanked(tokens, i)
      invariant hits == Hits(tokens, i)
      invariant flags == AccessFlags(tokens, i)
    {
      BlankNext(tokens, i);
      var entry := FILESYSTEMS_ACCESS[i];
      var found := BlankToken(strv, entry.0);
      if found {
        flags := flags + entry.1;
        hits := hits + 1;
      }
      i := i + 1;
    }
    AccessExactly(tokens, i);
  }

  method BlankToken(strv: array<string>, key: string) returns (found: bool)
    modifies strv
    ensures strv[..] == BlankFirst(old(strv[..]), key) && (found <==> key in old(strv[..]))
  {
    hide FILESYSTEMS_ACCESS, FirstIndex;
    var index := FindToken(strv, key);
    found := index < strv.Length;
    if found {
      strv[index] := "";
    }
  }

  method FindToken(strv: array<string>, value: string) returns (index: nat)
    ensures index == FirstIndex(strv[..], value)
  {
    index := 0;
    while index < strv.Length
      invariant index <= strv.Length && value !in strv[..index]
    {
      if strv[index] == value {
        FirstIndexUnique(strv[..], value, index);
        return;
      }
      index := index + 1;
    }
    assert strv[..] == strv[..index];
  }

  method AddOtherTokens(strv: array<string>, permissions: BzAppPermissions)
    requires permissions.Value() == EMPTY
    modifies strv, permissions
    ensures permissions.Value() == ApplyAll(EMPTY, TokenCalls(old(strv[..])))
  {
    ghost var tokens := strv[..];
    for j := 0 to strv.Length
      invariant forall m :: j <= m < strv.Length ==> strv[m] == tokens[m]
      invariant permissions.Value() == ApplyAll(EMPTY, TokenCalls(tokens[..j]))
    {
      PrefixStep(tokens, j);
      ghost var calls := TokenCalls(tokens[..j]);
      NeverSealed(calls);
      var perm := strv[j];
      if perm != "" {
        ApplyOne(EMPTY, calls, TokenCall(perm));
        var isReadonly := HasSuffix(perm, ":ro");
        strv[j] := CutLastColon(perm);
        var path := PathOf(strv[j]);
        if isReadonly {
          permissions.AddFilesystemRead(path);
        } else {
          permissions.AddFilesystemFull(path);
        }
      } else {
        assert calls + [] == calls;
      }
    }
    assert tokens[..strv.Length] == tokens;
  }

  method ReadBusPolicies(k: KeyFile, flags0: set<nat>, permissions: BzAppPermissions) returns (flags: set<nat>)
    requires flags0 == FlagsBeforeBus(k)
    requires permissions.Value() == ApplyAll(EMPTY, CallsBeforeBus(k))
    modifies permissions
    ensures flags == AllFlags(k) && permissions.Value() == ApplyAll(EMPTY, AllCalls(k))
  {
    flags := flags0;
    ghost var before := CallsBeforeBus(k);
    assert before + [] == before;
    if SYSTEM_BUS !in flags && SESSION_BUS !in flags {
      flags := ReadBothGroups(k.sessionBus, k.systemBus, k.appId, flags, permissions, before);
    }
  }

  method ReadBothGroups(session: Option<BusGroup>, system: Option<BusGroup>, appId: Option<string>, flags0: set<nat>,
                        permissions: BzAppPermissions, ghost before: seq<Call>)
    returns (flags: set<nat>)
    requires SYSTEM_BUS !in flags0 && SESSION_BUS !in flags0
    requires permissions.Value() == ApplyAll(EMPTY, before)
    modifies permissions
    ensures flags == flags0 + (OptGroupFlags(BUS_SESSION, session, appId) + OptGroupFlags(BUS_SYSTEM, system, appId))
    ensures permissions.Value() ==
      ApplyAll(EMPTY, before + (OptGroupCalls(BUS_SESSION, session, appId) + OptGroupCalls(BUS_SYSTEM, system, appId)))
  {
    hide OptGroupFlags, OptGroupCalls, ApplyAll;
    flags := flags0;
    GroupFlagsFiltered(BUS_SESSION, session, appId);
    ghost var c1 := OptGroupCalls(BUS_SESSION, session, appId);
    ghost var c2 := OptGroupCalls(BUS_SYSTEM, system, appId);
    if SESSION_BUS !in flags {
      flags := ReadOptBusGroup(BUS_SESSION, session, appId, flags, permissions, before);
    }
    if SYSTEM_BUS !in flags {
      flags := ReadOptBusGroup(BUS_SYSTEM, system, appId, flags, permissions, before + c1);
    }
    assert (before + c1) + c2 == before + (c1 + c2);
  }

  /** No bus key turns on a flag that would stop the other group from being read. */
  lemma GroupFlagsFiltered(busType: int, g: Option<BusGroup>, appId: Option<string>)
    ensures SYSTEM_BUS !in OptGroupFlags(busType, g, appId) && SESSION_BUS !in OptGroupFlags(busType, g, appId)
  {
    if g.Some? {
      GroupMembers(busType, g.value, appId, CallFlags({}), SYSTEM_BUS);
      GroupMembers(busType, g.value, appId, CallFlags({}), SESSION_BUS);
    }
  }

  method ReadOptBusGroup(busType: int, g: Option<BusGroup>, appId: Option<string>, flags0: set<nat>,
                         permissions: BzAppPermissions, ghost before: seq<Call>)
    returns (flags: set<nat>)
    requires permissions.Value() == ApplyAll(EMPTY, before)
    modifies permissions
    ensures flags == flags0 + OptGroupFlags(busType, g, appId)
    ensures permissions.Value() == ApplyAll(EMPTY, before + OptGroupCalls(busType, g, appId))
  {
    flags := flags0;
    assert before + [] == before;
    if g.Some? {
      flags := ReadBusGroup(busType, g.value, appId, flags, permissions, before);
    }
  }

  method ReadBusGroup(busType: int, keys: BusGroup, appId: Option<string>, flags0: set<nat>,
                      permissions: BzAppPermissions, ghost before: seq<Call>)
    returns (flags: set<nat>)
    requires permissions.Value() == ApplyAll(EMPTY, before)
    modifies permissions
    ensures flags == flags0 + GroupFlags(busType, keys, appId)
    ensures permissions.Value() == ApplyAll(EMPTY, before + GroupCalls(busType, keys, appId))
  {
    hide KeyFlags, KeyCalls, ApplyAll;
    flags := flags0;
    assert before + [] == before;
    var i := 0;
    while i < |keys|
      invariant 0 <= i <= |keys|
      invariant flags == flags0 + GroupFlags(busType, keys[..i], appId)
      invariant permissions.Value() == ApplyAll(EMPTY, before + GroupCalls(busType, keys[..i], appId))
    {
      PrefixStep(keys, i);
      ghost var done := GroupCalls(busType, keys[..i], appId);
      flags := ReadBusKey(busType, keys[i], appId, flags, permissions, before + done);
      assert before + (done + KeyCalls(busType, keys[i], appId)) == (before + done) + KeyCalls(busType, keys[i], appId);
      i := i + 1;
    }
    assert keys[..|keys|] == keys;
  }

  method ReadBusKey(busType: int, key: (string, string), appId: Option<string>, flags0: set<nat>,
                    permissions: BzAppPermissions, ghost calls: seq<Call>)
    returns (flags: set<nat>)
    requires permissions.Value() == ApplyAll(EMPTY, calls)
    modifies permissions
    ensures flags == flags0 + KeyFlags(busType, key, appId)
    ensures permissions.Value() == ApplyAll(EMPTY, calls + KeyCalls(busType, key, appId))
  {
    hide PermissionOf, Implied, Listed;
    flags := flags0;
    assert calls + [] == calls;
    var (name, value) := key;
    var permission := PermissionOf(value);
    if permission == PermUnknown || Implied(busType, name, appId) {
      return;
    }
    var j := 0;
    while j < |BUS_POLICY_PERMISSIONS|
      invariant 0 <= j <= |BUS_POLICY_PERMISSIONS|
      invariant ListedIndex(busType, name, permission, 0) == ListedIndex(busType, name, permission, j)
    {
      if Listed(BUS_POLICY_PERMISSIONS[j], busType, name, permission) {
        flags := flags + BUS_POLICY_PERMISSIONS[j].flags;
        return;
      }
      j := j + 1;
    }
    NeverSealed(calls);
    ApplyOne(EMPTY, calls, CallBus(busType, name, permission));
    flags := flags + {BUS_POLICY_OTHER};
    permissions.AddBusPolicy(busType, name, permission);
  }
}
