/** Saving permissions to a variant dictionary and reading them back. */
module AppPermissionsSerial {
  import opened Order
  import opened AppPermissions
  import Metadata = AppPermissionsMetadata
  import Meaning = AppPermissionsMeaning

  /** A registered GEnumClass or GFlagsClass: its nicks and their values, in the same order. */
  datatype EnumClass<T> = EnumClass(nicks: seq<string>, values: seq<T>)

  /** The three classes the two functions look up; a flags value is a set of bit numbers. */
  datatype Classes = Classes(flags: EnumClass<set<nat>>, paths: EnumClass<FsType>,
      permissions: EnumClass<BusPermission>)

  const CLASSES := Classes(
    EnumClass(
      ["none", "network", "system-bus", "session-bus", "devices", "home-full", "home-read",
       "filesystem-full", "filesystem-read", "downloads-full", "downloads-read", "settings", "x11",
       "escape-sandbox", "filesystem-other", "bus-policy-other", "audio-devices", "input-devices",
       "system-devices", "screen"],
      [{}, {0}, {1}, {2}, {3}, {4}, {5}, {6}, {7}, {8}, {9}, {10}, {11}, {12}, {13}, {14}, {15}, {16}, {17}, {18}]),
    EnumClass(
      ["system-root", "home-subdir", "host-os", "host-etc", "xdg-desktop", "xdg-documents", "xdg-music",
       "xdg-pictures", "xdg-public-share", "xdg-videos", "xdg-templates", "xdg-cache", "xdg-config",
       "xdg-data", "xdg-run", "custom"],
      [SystemRoot, HomeSubdir, HostOs, HostEtc, XdgDesktop, XdgDocuments, XdgMusic, XdgPictures,
       XdgPublicShare, XdgVideos, XdgTemplates, XdgCache, XdgConfig, XdgData, XdgRun, Custom]),
    EnumClass(
      ["unknown", "none", "see", "talk", "own"],
      [PermUnknown, PermNone, See, Talk, Own]))

  ghost predicate Registered<T(!new)>(c: EnumClass<T>) {
    |c.nicks| == |c.values| && NoDuplicates(c.nicks)
  }

  ghost predicate AtMostOneBit(v: set<nat>) {
    forall x, y :: x in v && y in v ==> x == y
  }

  ghost predicate AllRegistered(c: Classes) {
    && Registered(c.flags) && (forall v :: v in c.flags.values ==> AtMostOneBit(v))
    && Registered(c.paths) && (forall t :: t in c.paths.values)
    && Registered(c.permissions) && (forall p :: p in c.permissions.values)
  }

  lemma FlagNicksApart()
    ensures forall i, j :: 0 <= i < j < 20 && i < 6 ==> CLASSES.flags.nicks[i] != CLASSES.flags.nicks[j]
  {
  }

  lemma FlagNicksDistinct()
    ensures NoDuplicates(CLASSES.flags.nicks)
  {
    FlagNicksApart();
    assert forall i, j :: 6 <= i < j < 20 ==> CLASSES.flags.nicks[i] != CLASSES.flags.nicks[j];
  }

  lemma FsNicksDistinct()
    ensures NoDuplicates(CLASSES.paths.nicks)
  {
  }

  lemma EveryFsTypeListed(t: FsType)
    ensures t in CLASSES.paths.values
  {
  }

  lemma EveryPermissionListed(p: BusPermission)
    ensures p in CLASSES.permissions.values
  {
  }

  lemma FlagValuesSingle(v: set<nat>)
    requires v in CLASSES.flags.values
    ensures AtMostOneBit(v)
  {
  }

  /** The application's own classes: every enumerator has a nick of its own. */
  lemma ClassesRegistered()
    ensures AllRegistered(CLASSES)
  {
    FlagNicksDistinct();
    FsNicksDistinct();
    forall v | v in CLASSES.flags.values ensures AtMostOneBit(v) { FlagValuesSingle(v); }
    forall t ensures t in CLASSES.paths.values { EveryFsTypeListed(t); }
    forall p ensures p in CLASSES.permissions.values { EveryPermissionListed(p); }
  }

  /** One entry of the dictionary; keys other than the four known ones are ignored. */
  datatype Item =
    | FlagsItem(nicks: seq<string>)
    | ReadItem(readPaths: seq<(string, string)>)
    | FullItem(fullPaths: seq<(string, string)>)
    | BusItem(policies: seq<(int, string, string)>)
    | OtherItem(key: string)

  // ----- writing

  function ValueIndex<T(==)>(values: seq<T>, v: T): (i: nat)
    ensures v in values ==> i < |values| && values[i] == v
  {
    if values == [] || values[0] == v then 0 else 1 + ValueIndex(values[1..], v)
  }

  /** The nick of an enumerator, as g_enum_get_value finds it. */
  function NickOf<T(==)>(c: EnumClass<T>, v: T): string {
    var i := ValueIndex(c.values, v);
    if i < |c.nicks| then c.nicks[i] else ""
  }

  /** The nicks of the first `n` enumerators that overlap the flags. */
  function FlagNicks(c: EnumClass<set<nat>>, flags: set<nat>, n: nat): seq<string>
    requires n <= |c.nicks| && n <= |c.values|
  {
    if n == 0 then []
    else FlagNicks(c, flags, n - 1) + if flags * c.values[n - 1] != {} then [c.nicks[n - 1]] else []
  }

  function AllFlagNicks(c: EnumClass<set<nat>>, flags: set<nat>): seq<string> {
    FlagNicks(c, flags, if |c.nicks| <= |c.values| then |c.nicks| else |c.values|)
  }

  function EncodePath(c: EnumClass<FsType>, p: FsPath): (string, string) {
    (NickOf(c, p.kind), if p.subpath.Some? then p.subpath.value else "")
  }

  function EncodePaths(c: EnumClass<FsType>, s: seq<FsPath>): (r: seq<(string, string)>)
    ensures |r| == |s|
  {
    if s == [] then [] else EncodePaths(c, s[..|s|-1]) + [EncodePath(c, s[|s|-1])]
  }

  function EncodePolicy(c: EnumClass<BusPermission>, b: BusPolicy): (int, string, string) {
    (b.busType, b.name, NickOf(c, b.permission))
  }

  function EncodePolicies(c: EnumClass<BusPermission>, s: seq<BusPolicy>): (r: seq<(int, string, string)>)
    ensures |r| == |s|
  {
    if s == [] then [] else EncodePolicies(c, s[..|s|-1]) + [EncodePolicy(c, s[|s|-1])]
  }

  function When(present: bool, item: Item): seq<Item> {
    if present then [item] else []
  }

  function Serialized(c: Classes, p: Perms): seq<Item> {
    When(p.flags != {}, FlagsItem(AllFlagNicks(c.flags, p.flags)))
    + When(|p.read| > 0, ReadItem(EncodePaths(c.paths, p.read)))
    + When(|p.full| > 0, FullItem(EncodePaths(c.paths, p.full)))
    + When(|p.bus| > 0, BusItem(EncodePolicies(c.permissions, p.bus)))
  }

  // ----- reading

  /** The value of the first enumerator with this nick; an unknown nick is skipped. */
  function Lookup<T>(c: EnumClass<T>, nick: string): Option<T> {
    var i := FirstIndex(c.nicks, nick);
    if i < |c.nicks| && i < |c.values| then Some(c.values[i]) else None
  }

  function NickFlags(c: EnumClass<set<nat>>, nicks: seq<string>): set<nat> {
    if nicks == [] then {}
    else
      var v := Lookup(c, nicks[|nicks|-1]);
      NickFlags(c, nicks[..|nicks|-1]) + if v.Some? then v.value else {}
  }

  function DecodePath(c: EnumClass<FsType>, item: (string, string)): seq<FsPath> {
    var kind := Lookup(c, item.0);
    if kind.Some? then [FsPath(kind.value, if item.1 == "" then None else Some(item.1))] else []
  }

  function DecodePaths(c: EnumClass<FsType>, items: seq<(string, string)>): seq<FsPath> {
    if items == [] then [] else DecodePaths(c, items[..|items|-1]) + DecodePath(c, items[|items|-1])
  }

  function DecodePolicy(c: EnumClass<BusPermission>, item: (int, string, string)): seq<BusPolicy> {
    var permission := Lookup(c, item.2);
    if permission.Some? then [BusPolicy(item.0, item.1, permission.value)] else []
  }

  function DecodePolicies(c: EnumClass<BusPermission>, items: seq<(int, string, string)>): seq<BusPolicy> {
    if items == [] then [] else DecodePolicies(c, items[..|items|-1]) + DecodePolicy(c, items[|items|-1])
  }

  function ReadOne(c: Classes, p: Perms, item: Item): Perms {
    match item
    case FlagsItem(nicks) => p.(flags := NickFlags(c.flags, nicks))
    case ReadItem(paths) => p.(read := p.read + DecodePaths(c.paths, paths))
    case FullItem(paths) => p.(full := p.full + DecodePaths(c.paths, paths))
    case BusItem(policies) => p.(bus := p.bus + DecodePolicies(c.permissions, policies))
    case OtherItem(_) => p
  }

  function ReadItems(c: Classes, p: Perms, items: seq<Item>): Perms {
    if items == [] then p else ReadOne(c, ReadItems(c, p, items[..|items|-1]), items[|items|-1])
  }

  function Deserialized(c: Classes, p: Perms, items: seq<Item>): Perms {
    Sealed(ReadItems(c, p, items))
  }

  // ----- what the entries say

  /** The first enumerator with this nick has this value. */
  ghost predicate Nicked<T(!new)>(c: EnumClass<T>, nick: string, v: T) {
    exists i | 0 <= i < |c.nicks| && i < |c.values| ::
      c.nicks[i] == nick && c.values[i] == v && forall j :: 0 <= j < i ==> c.nicks[j] != nick
  }

  /** The entry of a path: the nick of its type, and its subpath or nothing. */
  ghost predicate SaysPath(c: EnumClass<FsType>, p: FsPath, entry: (string, string)) {
    Nicked(c, entry.0, p.kind) && entry.1 == if p.subpath.Some? then p.subpath.value else ""
  }

  ghost predicate SaysPaths(c: EnumClass<FsType>, paths: seq<FsPath>, entries: seq<(string, string)>) {
    |entries| == |paths| && forall i :: 0 <= i < |paths| ==> SaysPath(c, paths[i], entries[i])
  }

  ghost predicate SaysPolicies(c: EnumClass<BusPermission>, bus: seq<BusPolicy>, entries: seq<(int, string, string)>) {
    && |entries| == |bus|
    && forall i :: 0 <= i < |bus| ==>
         entries[i].0 == bus[i].busType && entries[i].1 == bus[i].name && Nicked(c, entries[i].2, bus[i].permission)
  }

  ghost predicate SaysFlags(c: EnumClass<set<nat>>, flags: set<nat>, nicks: seq<string>) {
    forall nick :: nick in nicks <==>
      exists i :: 0 <= i < |c.nicks| && i < |c.values| && c.nicks[i] == nick && flags * c.values[i] != {}
  }

  ghost predicate Says(c: Classes, p: Perms, item: Item) {
    match item
    case FlagsItem(nicks) => p.flags != {} && SaysFlags(c.flags, p.flags, nicks)
    case ReadItem(entries) => p.read != [] && SaysPaths(c.paths, p.read, entries)
    case FullItem(entries) => p.full != [] && SaysPaths(c.paths, p.full, entries)
    case BusItem(entries) => p.bus != [] && SaysPolicies(c.permissions, p.bus, entries)
    case OtherItem(_) => false
  }

  lemma ValueNicked<T(!new)>(c: EnumClass<T>, v: T)
    requires Registered(c) && v in c.values
    ensures Nicked(c, NickOf(c, v), v)
  {
    var i := ValueIndex(c.values, v);
    assert c.nicks[i] == NickOf(c, v) && c.values[i] == v;
  }

  lemma {:induction false} EncodedAt(c: EnumClass<FsType>, s: seq<FsPath>, i: nat)
    requires i < |s|
    ensures EncodePaths(c, s)[i] == EncodePath(c, s[i])
  {
    hide EncodePath;
    if i < |s| - 1 {
      EncodedAt(c, s[..|s|-1], i);
    }
  }

  lemma {:induction false} EncodedPolicyAt(c: EnumClass<BusPermission>, s: seq<BusPolicy>, i: nat)
    requires i < |s|
    ensures EncodePolicies(c, s)[i] == EncodePolicy(c, s[i])
  {
    hide EncodePolicy;
    if i < |s| - 1 {
      EncodedPolicyAt(c, s[..|s|-1], i);
    }
  }

  lemma PathsSay(c: EnumClass<FsType>, s: seq<FsPath>)
    requires Registered(c) && forall t: FsType :: t in c.values
    ensures SaysPaths(c, s, EncodePaths(c, s))
  {
    hide EncodePaths, Nicked, NickOf, Registered;
    forall i | 0 <= i < |s|
      ensures SaysPath(c, s[i], EncodePaths(c, s)[i])
    {
      EncodedAt(c, s, i);
      ValueNicked(c, s[i].kind);
    }
  }

  lemma PoliciesSay(c: EnumClass<BusPermission>, s: seq<BusPolicy>)
    requires Registered(c) && forall p: BusPermission :: p in c.values
    ensures SaysPolicies(c, s, EncodePolicies(c, s))
  {
    hide EncodePolicies, Nicked, NickOf, Registered;
    forall i | 0 <= i < |s|
      ensures EncodePolicies(c, s)[i] == EncodePolicy(c, s[i]) && Nicked(c, NickOf(c, s[i].permission), s[i].permission)
    {
      EncodedPolicyAt(c, s, i);
      ValueNicked(c, s[i].permission);
    }
  }

  lemma {:induction false} FlagNicksSay(c: EnumClass<set<nat>>, flags: set<nat>, n: nat)
    requires n <= |c.nicks| && n <= |c.values|
    ensures forall nick :: nick in FlagNicks(c, flags, n) <==>
      exists i :: 0 <= i < n && c.nicks[i] == nick && flags * c.values[i] != {}
  {
    if n > 0 {
      FlagNicksSay(c, flags, n - 1);
    }
  }

  /** What is saved: an entry for each part that is not empty, and none else; the flags by the nicks
      of the enumerators that overlap them, every path and policy in order by its nick and texts. */
  lemma SerializedSays(c: Classes, p: Perms)
    requires AllRegistered(c)
    ensures var items := Serialized(c, p);
      && (forall item :: item in items ==> Says(c, p, item))
      && InOrder(items, 4)
      && ((exists item :: item in items && item.FlagsItem?) <==> p.flags != {})
      && ((exists item :: item in items && item.ReadItem?) <==> p.read != [])
      && ((exists item :: item in items && item.FullItem?) <==> p.full != [])
      && ((exists item :: item in items && item.BusItem?) <==> p.bus != [])
  {
    FlagNicksSay(c.flags, p.flags, |c.flags.nicks|);
    PathsSay(c.paths, p.read);
    PathsSay(c.paths, p.full);
    PoliciesSay(c.permissions, p.bus);
    hide SaysPaths, SaysPolicies, EncodePaths, EncodePolicies, FlagNicks, Registered;
    var i1, i2 := FlagsItem(AllFlagNicks(c.flags, p.flags)), ReadItem(EncodePaths(c.paths, p.read));
    var i3, i4 := FullItem(EncodePaths(c.paths, p.full)), BusItem(EncodePolicies(c.permissions, p.bus));
    assert Says(c, p, i1) <==> p.flags != {};
    hide SaysFlags, AllFlagNicks;
    FourItems(c, p, i1, i2, i3, i4);
  }

  function ItemOrder(item: Item): nat {
    match item
    case FlagsItem(_) => 0
    case ReadItem(_) => 1
    case FullItem(_) => 2
    case BusItem(_) => 3
    case OtherItem(_) => 4
  }

  lemma FourItems(c: Classes, p: Perms, i1: Item, i2: Item, i3: Item, i4: Item)
    requires i1.FlagsItem? && i2.ReadItem? && i3.FullItem? && i4.BusItem?
    requires (p.flags != {} ==> Says(c, p, i1)) && (p.read != [] ==> Says(c, p, i2))
    requires (p.full != [] ==> Says(c, p, i3)) && (p.bus != [] ==> Says(c, p, i4))
    ensures var items := When(p.flags != {}, i1) + When(|p.read| > 0, i2) + When(|p.full| > 0, i3)
                         + When(|p.bus| > 0, i4);
      && (forall item :: item in items ==> Says(c, p, item))
      && InOrder(items, 4)
      && (i1 in items <==> p.flags != {}) && (i2 in items <==> p.read != [])
      && (i3 in items <==> p.full != []) && (i4 in items <==> p.bus != [])
      && (forall item :: item in items ==> item in [i1, i2, i3, i4])
  {
    hide Says, When, InOrder;
    NoItems();
    OneItemMore([], p.flags != {}, i1);
    var s1 := When(p.flags != {}, i1);
    assert [] + s1 == s1;
    OneItemMore(s1, |p.read| > 0, i2);
    var s2 := s1 + When(|p.read| > 0, i2);
    OneItemMore(s2, |p.full| > 0, i3);
    var s3 := s2 + When(|p.full| > 0, i3);
    OneItemMore(s3, |p.bus| > 0, i4);
  }

  ghost predicate InOrder(items: seq<Item>, below: nat) {
    && (forall i :: 0 <= i < |items| ==> ItemOrder(items[i]) < below)
    && (forall i, j :: 0 <= i < j < |items| ==> ItemOrder(items[i]) < ItemOrder(items[j]))
  }

  lemma NoItems()
    ensures InOrder([], 0)
  {
  }

  lemma OneItemMore(items: seq<Item>, present: bool, item: Item)
    requires InOrder(items, ItemOrder(item))
    ensures InOrder(items + When(present, item), ItemOrder(item) + 1)
    ensures forall x :: x in items + When(present, item) <==> x in items || (present && x == item)
  {
  }

  /** Reading entries from anywhere: a nick means the first enumerator that has it, and an entry with
      an unknown nick gives nothing. */
  lemma EntriesMean(c: Classes, path: (string, string), policy: (int, string, string))
    ensures var s := DecodePath(c.paths, path);
            if s == [] then forall t :: !Nicked(c.paths, path.0, t)
            else |s| == 1 && Nicked(c.paths, path.0, s[0].kind)
                 && s[0].subpath == if path.1 == "" then None else Some(path.1)
    ensures var s := DecodePolicy(c.permissions, policy);
            if s == [] then forall p :: !Nicked(c.permissions, policy.2, p)
            else |s| == 1 && Nicked(c.permissions, policy.2, s[0].permission)
                 && s[0].busType == policy.0 && s[0].name == policy.1
  {
    LookupMeans(c.paths, path.0);
    LookupMeans(c.permissions, policy.2);
    hide Lookup, Nicked;
  }

  lemma LookupMeans<T(!new)>(c: EnumClass<T>, nick: string)
    ensures forall v :: Nicked(c, nick, v) <==> Lookup(c, nick) == Some(v)
  {
    var i := FirstIndex(c.nicks, nick);
    assert forall j :: 0 <= j < i ==> c.nicks[..i][j] == c.nicks[j];
  }

  // ----- the round trip

  /** The bits that the first `n` flag enumerators stand for. */
  function Bits(values: seq<set<nat>>, n: nat): set<nat>
    requires n <= |values|
  {
    if n == 0 then {} else Bits(values, n - 1) + values[n - 1]
  }

  function KnownBits(c: Classes): set<nat> {
    Bits(c.flags.values, |c.flags.values|)
  }

  function Normal(p: FsPath): FsPath {
    if p.subpath == Some("") then FsPath(p.kind, None) else p
  }

  function NormalPaths(s: seq<FsPath>): (r: seq<FsPath>)
    ensures |r| == |s| && forall i :: 0 <= i < |s| ==> r[i] == Normal(s[i])
  {
    if s == [] then [] else NormalPaths(s[..|s|-1]) + [Normal(s[|s|-1])]
  }

  /** What survives saving: flags with a nick, and paths in which "" has become absent. */
  function Normalised(c: Classes, p: Perms): Perms {
    p.(flags := p.flags * KnownBits(c), read := NormalPaths(p.read), full := NormalPaths(p.full))
  }

  lemma OverlapStep(flags: set<nat>, u: set<nat>, v: set<nat>)
    requires AtMostOneBit(v)
    ensures flags * (u + v) == flags * u + if flags * v != {} then v else {}
  {
  }

  lemma NickFlagsStep(c: EnumClass<set<nat>>, nicks: seq<string>, i: nat)
    requires Registered(c) && i < |c.nicks|
    ensures NickFlags(c, nicks + [c.nicks[i]]) == NickFlags(c, nicks) + c.values[i]
  {
  }

  lemma {:induction false} FlagsSurvive(c: EnumClass<set<nat>>, flags: set<nat>, n: nat)
    requires Registered(c) && n <= |c.nicks|
    requires forall v :: v in c.values ==> AtMostOneBit(v)
    ensures NickFlags(c, FlagNicks(c, flags, n)) == flags * Bits(c.values, n)
  {
    hide NickFlags;
    if n > 0 {
      FlagsSurvive(c, flags, n - 1);
      var before, v := FlagNicks(c, flags, n - 1), c.values[n - 1];
      NickFlagsStep(c, before, n - 1);
      assert v in c.values;
      OverlapStep(flags, Bits(c.values, n - 1), v);
      assert FlagNicks(c, flags, n) == if flags * v != {} then before + [c.nicks[n - 1]] else before;
    } else {
      NoNicksNoFlags(c);
    }
  }

  lemma NoNicksNoFlags(c: EnumClass<set<nat>>)
    ensures NickFlags(c, []) == {}
  {
  }

  lemma PathSurvives(c: EnumClass<FsType>, p: FsPath)
    requires Registered(c) && p.kind in c.values
    ensures DecodePath(c, EncodePath(c, p)) == [Normal(p)]
  {
  }

  lemma {:induction false} PathsSurvive(c: EnumClass<FsType>, s: seq<FsPath>)
    requires Registered(c) && forall t: FsType :: t in c.values
    ensures DecodePaths(c, EncodePaths(c, s)) == NormalPaths(s)
  {
    if s != [] {
      var n := |s| - 1;
      PathsSurvive(c, s[..n]);
      PathSurvives(c, s[n]);
      assert EncodePaths(c, s)[..n] == EncodePaths(c, s[..n]);
    }
  }

  lemma PolicySurvives(c: EnumClass<BusPermission>, b: BusPolicy)
    requires Registered(c) && b.permission in c.values
    ensures DecodePolicy(c, EncodePolicy(c, b)) == [b]
  {
  }

  lemma {:induction false} PoliciesSurvive(c: EnumClass<BusPermission>, s: seq<BusPolicy>)
    requires Registered(c) && forall p: BusPermission :: p in c.values
    ensures DecodePolicies(c, EncodePolicies(c, s)) == s
  {
    if s != [] {
      var n := |s| - 1;
      PoliciesSurvive(c, s[..n]);
      PolicySurvives(c, s[n]);
      assert EncodePolicies(c, s)[..n] == EncodePolicies(c, s[..n]);
      assert s == s[..n] + [s[n]];
    }
  }

  /** Reading a list of entries, then one more entry that is only there under a condition. */
  lemma ReadMore(c: Classes, items: seq<Item>, present: bool, item: Item)
    ensures ReadItems(c, EMPTY, items + When(present, item))
         == if present then ReadOne(c, ReadItems(c, EMPTY, items), item) else ReadItems(c, EMPTY, items)
  {
    if present {
      assert (items + [item])[..|items|] == items;
    } else {
      assert items + [] == items;
    }
  }

  lemma ReadBack(c: Classes, p: Perms)
    requires AllRegistered(c)
    ensures ReadItems(c, EMPTY, Serialized(c, p)) == Normalised(c, p).(isSealed := false)
  {
    var i1, i2 := FlagsItem(AllFlagNicks(c.flags, p.flags)), ReadItem(EncodePaths(c.paths, p.read));
    var i3, i4 := FullItem(EncodePaths(c.paths, p.full)), BusItem(EncodePolicies(c.permissions, p.bus));
    var n := Normalised(c, p);
    FlagsSurvive(c.flags, p.flags, |c.flags.nicks|);
    PathsSurvive(c.paths, p.read);
    PathsSurvive(c.paths, p.full);
    PoliciesSurvive(c.permissions, p.bus);
    Reassemble(c, p, n, i1, i2, i3, i4);
    assert [] + When(p.flags != {}, i1) == When(p.flags != {}, i1);
  }

  lemma NothingRead(c: Classes)
    ensures ReadItems(c, EMPTY, []) == EMPTY
  {
  }

  /** Four optional entries read in order, given what each decodes to. */
  lemma Reassemble(c: Classes, p: Perms, n: Perms, i1: Item, i2: Item, i3: Item, i4: Item)
    requires i1.FlagsItem? && i2.ReadItem? && i3.FullItem? && i4.BusItem?
    requires NickFlags(c.flags, i1.nicks) == n.flags && DecodePaths(c.paths, i2.readPaths) == n.read
    requires DecodePaths(c.paths, i3.fullPaths) == n.full && DecodePolicies(c.permissions, i4.policies) == n.bus
    requires p.flags == {} ==> n.flags == {}
    requires |p.read| == |n.read| && |p.full| == |n.full| && |p.bus| == |n.bus|
    ensures ReadItems(c, EMPTY,
                      [] + When(p.flags != {}, i1) + When(|p.read| > 0, i2)
                      + When(|p.full| > 0, i3) + When(|p.bus| > 0, i4))
         == n.(isSealed := false)
  {
    hide NickFlags, DecodePaths, DecodePolicies, ReadItems;
    assert EMPTY.flags == {} && EMPTY.read == [] && EMPTY.full == [] && EMPTY.bus == [];
    NothingRead(c);
    var s1 := [] + When(p.flags != {}, i1);
    var s2 := s1 + When(|p.read| > 0, i2);
    var s3 := s2 + When(|p.full| > 0, i3);
    ReadMore(c, [], p.flags != {}, i1);
    var p1 := EMPTY.(flags := n.flags);
    assert ReadItems(c, EMPTY, s1) == p1;
    ReadMore(c, s1, |p.read| > 0, i2);
    var p2 := p1.(read := n.read);
    assert ReadItems(c, EMPTY, s2) == p2 by { assert [] + n.read == n.read; }
    ReadMore(c, s2, |p.full| > 0, i3);
    var p3 := p2.(full := n.full);
    assert ReadItems(c, EMPTY, s3) == p3 by { assert [] + n.full == n.full; }
    ReadMore(c, s3, |p.bus| > 0, i4);
    assert [] + n.bus == n.bus;
  }

  lemma NormalKeepsOrder(s: seq<FsPath>)
    requires Sorted(PathLeq, s)
    ensures Sorted(PathLeq, NormalPaths(s))
  {
  }

  lemma NormalUnchanged(s: seq<FsPath>)
    ensures NormalPaths(s) == s <==> forall q :: q in s ==> q.subpath != Some("")
  {
  }

  ghost predicate NoEmptySubpath(p: Perms) {
    forall q :: q in p.read || q in p.full ==> q.subpath != Some("")
  }

  /** Deserializing a serialized sealed object into a fresh one gives that object with ""
      subpaths made absent and flag bits without a nick dropped: so it gives the very object
      back exactly when it has neither. */
  lemma RoundTrip(c: Classes, p: Perms)
    requires AllRegistered(c) && Canonical(p) && p.isSealed
    ensures Deserialized(c, EMPTY, Serialized(c, p)) == Normalised(c, p)
    ensures Deserialized(c, EMPTY, Serialized(c, p)) == p <==> p.flags <= KnownBits(c) && NoEmptySubpath(p)
  {
    var n := Normalised(c, p);
    ReadBack(c, p);
    assert Sort(PathLeq, n.read) == n.read by {
      SortNormal(p.read);
    }
    assert Sort(PathLeq, n.full) == n.full by {
      SortNormal(p.full);
    }
    assert Sort(PolicyLeq, p.bus) == p.bus by {
      PolicyOrder();
      OneEntryAntisymmetric(p.bus);
      SortOfSorted(PolicyLeq, p.bus);
    }
    NormalUnchanged(p.read);
    NormalUnchanged(p.full);
    assert n.flags == p.flags <==> p.flags <= KnownBits(c);
  }

  lemma SortNormal(s: seq<FsPath>)
    requires Sorted(PathLeq, s)
    ensures Sort(PathLeq, NormalPaths(s)) == NormalPaths(s)
  {
    PathOrder();
    NormalKeepsOrder(s);
    SortOfSorted(PathLeq, NormalPaths(s));
  }

  /** The token names a path with an empty subpath. */
  ghost predicate EmptySubpath(token: string) {
    exists path :: Meaning.Names(token, path) && path.subpath == Some("")
  }

  lemma {:induction false} BitsOf(values: seq<set<nat>>, n: nat, i: nat)
    requires i < n <= |values|
    ensures values[i] <= Bits(values, n)
  {
    if i < n - 1 {
      BitsOf(values, n - 1, i);
    }
  }

  /** The reader sets only bits that have an enumerator. */
  lemma ReadFlagsKnown(k: Metadata.KeyFile)
    ensures Metadata.AllFlags(k) <= KnownBits(CLASSES)
  {
    hide Metadata.AllFlags, Bits;
    Metadata.FlagsInRange(k);
    forall f | f in Metadata.AllFlags(k)
      ensures f in KnownBits(CLASSES)
    {
      assert CLASSES.flags.values[f + 1] == {f};
      BitsOf(CLASSES.flags.values, 20, f + 1);
    }
  }

  lemma ReadSubpaths(k: Metadata.KeyFile)
    ensures NoEmptySubpath(Metadata.FromMetadata(k))
       <==> forall t :: Metadata.Left(Metadata.Tokens(k), t) ==> !EmptySubpath(t)
  {
    hide Metadata.FromMetadata, Metadata.Left, Meaning.Names, Meaning.ReadOnly, Canonical;
    var p, tokens := Metadata.FromMetadata(k), Metadata.Tokens(k);
    if q :| (q in p.read || q in p.full) && q.subpath == Some("") {
      Meaning.MetadataMeaning(k, q);
      var t :| Metadata.Left(tokens, t) && Meaning.Names(t, q);
      assert EmptySubpath(t);
    }
    if t :| Metadata.Left(tokens, t) && EmptySubpath(t) {
      var q :| Meaning.Names(t, q) && q.subpath == Some("");
      Meaning.MetadataMeaning(k, q);
      assert Level(p, q) != NoAccess;
    }
  }

  /** An object read from a metadata file is restored by saving and loading exactly when no token
      that the access table leaves names an empty subpath. */
  lemma FileSurvivesExactly(k: Metadata.KeyFile)
    ensures Deserialized(CLASSES, EMPTY, Serialized(CLASSES, Metadata.FromMetadata(k))) == Metadata.FromMetadata(k)
       <==> forall t :: Metadata.Left(Metadata.Tokens(k), t) ==> !EmptySubpath(t)
  {
    var p := Metadata.FromMetadata(k);
    assert p.flags == Metadata.AllFlags(k);
    hide *;
    ClassesRegistered();
    ReadFlagsKnown(k);
    Meaning.MetadataMeaning(k, FsPath(Custom, None));
    RoundTrip(CLASSES, p);
    ReadSubpaths(k);
  }

  /** A file can have such a token: "xdg-run/" names an empty subpath, which comes back as the whole
      directory. No file with that token survives, under any classes. */
  lemma EmptySubpathIsLost(c: Classes, k: Metadata.KeyFile)
    requires AllRegistered(c) && k.filesystems.Some? && "xdg-run/" in k.filesystems.value
    ensures var p := Metadata.FromMetadata(k);
            Deserialized(c, EMPTY, Serialized(c, p)) != p
  {
    hide Metadata.FromMetadata, Meaning.Names, Deserialized, Serialized, Normalised;
    XdgRunNames();
    NotAnAccessKey();
    assert Metadata.Left(Metadata.Tokens(k), "xdg-run/");
    Meaning.MetadataMeaning(k, FsPath(XdgRun, Some("")));
    RoundTrip(c, Metadata.FromMetadata(k));
  }

  lemma NotAnAccessKey()
    ensures forall i :: 0 <= i < |Metadata.FILESYSTEMS_ACCESS| ==> Metadata.FILESYSTEMS_ACCESS[i].0 != "xdg-run/"
  {
  }

  lemma XdgRunNames()
    ensures Meaning.Names("xdg-run/", FsPath(XdgRun, Some("")))
  {
    hide Meaning.Begins;
    var t := "xdg-run/";
    var table := Metadata.FILESYSTEMS_OTHER;
    assert t == "xdg-run" + "/" + "" && t == "xdg-run" + "/";
    Meaning.BeginsExactly(t, "xdg-run");
    assert t[0] == 'x' && t[4] == 'r' && t[5] == 'u';
    forall k | 0 <= k < 15
      ensures !Meaning.Begins(t, table[k].0)
    {
      var p := table[k].0;
      assert p[0] != 'x' || (|p| > 4 && p[4] != 'r');
      NotPrefix(t, p, if p[0] != 'x' then 0 else 4);
      Meaning.BeginsExactly(t, p);
    }
    assert Meaning.UpToMode(t, t);
    assert table[15] == ("xdg-run", XdgRun);
    assert Meaning.SubpathIs(t, XdgRun, Some(""));
    assert Meaning.Locates(t, FsPath(XdgRun, Some("")));
  }

  lemma NotPrefix(t: string, p: string, k: nat)
    requires k < |p| && k < |t| && t[k] != p[k]
    ensures !HasPrefix(t, p)
  {
  }

  // ----- the two functions themselves

  method Serialize(self: BzAppPermissions, c: Classes) returns (builder: seq<Item>)
    requires |c.flags.nicks| == |c.flags.values|
    ensures builder == Serialized(c, self.Value())
  {
    hide AllFlagNicks, EncodePaths, EncodePolicies;
    var nicks, read, full := [], [], [];
    var policies: seq<(int, string, string)> := [];
    builder := [];
    if self.flags != {} {
      nicks := WriteFlags(self.flags, c.flags);
      builder := builder + [FlagsItem(nicks)];
    }
    if |self.filesystemRead| > 0 {
      read := WritePaths(self.filesystemRead, c.paths);
      builder := builder + [ReadItem(read)];
    }
    if |self.filesystemFull| > 0 {
      full := WritePaths(self.filesystemFull, c.paths);
      builder := builder + [FullItem(full)];
    }
    if |self.busPolicies| > 0 {
      policies := WritePolicies(self.busPolicies, c.permissions);
      builder := builder + [BusItem(policies)];
    }
    assert builder == When(self.flags != {}, FlagsItem(nicks)) + When(|self.filesystemRead| > 0, ReadItem(read))
      + When(|self.filesystemFull| > 0, FullItem(full)) + When(|self.busPolicies| > 0, BusItem(policies));
  }

  method WriteFlags(flags: set<nat>, c: EnumClass<set<nat>>) returns (nicks: seq<string>)
    requires |c.nicks| == |c.values|
    ensures nicks == AllFlagNicks(c, flags)
  {
    nicks := [];
    for i := 0 to |c.nicks|
      invariant nicks == FlagNicks(c, flags, i)
    {
      if flags * c.values[i] != {} {
        nicks := nicks + [c.nicks[i]];
      }
    }
  }

  method WritePaths(a: seq<FsPath>, c: EnumClass<FsType>) returns (r: seq<(string, string)>)
    ensures r == EncodePaths(c, a)
  {
    r := [];
    for i := 0 to |a|
      invariant r == EncodePaths(c, a[..i])
    {
      PrefixStep(a, i);
      r := r + [EncodePath(c, a[i])];
    }
    assert a[..|a|] == a;
  }

  method WritePolicies(a: seq<BusPolicy>, c: EnumClass<BusPermission>) returns (r: seq<(int, string, string)>)
    ensures r == EncodePolicies(c, a)
  {
    r := [];
    for i := 0 to |a|
      invariant r == EncodePolicies(c, a[..i])
    {
      PrefixStep(a, i);
      r := r + [EncodePolicy(c, a[i])];
    }
    assert a[..|a|] == a;
  }

  /** bz_bus_policy_new makes a policy of the entry; for others it gives NULL. Entries with an unknown
      nick never get there. */
  predicate Makes(c: EnumClass<BusPermission>, b: (int, string, string)) {
    Lookup(c, b.2).Some? ==> b.0 != BUS_NONE && b.1 != ""
  }

  /** No policy in the variant is one that cannot be made. */
  predicate MakesPolicies(c: EnumClass<BusPermission>, items: seq<Item>) {
    forall item :: item in items && item.BusItem? ==> forall b :: b in item.policies ==> Makes(c, b)
  }

  /** The result is false where the array of policies would get a NULL; nothing is said then. */
  method Deserialize(self: BzAppPermissions, c: Classes, items: seq<Item>) returns (ok: bool)
    requires |c.flags.nicks| == |c.flags.values|
    requires |c.paths.nicks| == |c.paths.values| && |c.permissions.nicks| == |c.permissions.values|
    modifies self
    ensures ok <==> MakesPolicies(c.permissions, items)
    ensures ok ==> self.Value() == Deserialized(c, old(self.Value()), items)
  {
    ghost var p := self.Value();
    for i := 0 to |items|
      invariant self.Value() == ReadItems(c, p, items[..i])
      invariant MakesPolicies(c.permissions, items[..i])
    {
      PrefixStep(items, i);
      hide Makes, NickFlags, DecodePaths, DecodePolicies;
      match items[i] {
        case FlagsItem(nicks) =>
          var flags := ReadFlags(nicks, c.flags);
          self.flags := flags;
        case ReadItem(paths) =>
          var added := ReadPaths(paths, c.paths);
          self.filesystemRead := self.filesystemRead + added;
        case FullItem(paths) =>
          var added := ReadPaths(paths, c.paths);
          self.filesystemFull := self.filesystemFull + added;
        case BusItem(policies) =>
          var added;
          added, ok := ReadPolicies(policies, c.permissions);
          if !ok {
            assert items[i] in items;
            return;
          }
          self.busPolicies := self.busPolicies + added;
        case OtherItem(_) =>
      }
    }
    assert items[..|items|] == items;
    self.Seal();
    ok := true;
  }

  method FindNick<T>(c: EnumClass<T>, nick: string) returns (v: Option<T>)
    requires |c.nicks| == |c.values|
    ensures v == Lookup(c, nick)
  {
    for i := 0 to |c.nicks|
      invariant nick !in c.nicks[..i]
    {
      if c.nicks[i] == nick {
        FirstIndexUnique(c.nicks, nick, i);
        return Some(c.values[i]);
      }
    }
    assert c.nicks[..|c.nicks|] == c.nicks;
    return None;
  }

  method ReadFlags(nicks: seq<string>, c: EnumClass<set<nat>>) returns (flags: set<nat>)
    requires |c.nicks| == |c.values|
    ensures flags == NickFlags(c, nicks)
  {
    flags := {};
    for i := 0 to |nicks|
      invariant flags == NickFlags(c, nicks[..i])
    {
      PrefixStep(nicks, i);
      var v := FindNick(c, nicks[i]);
      if v.Some? {
        flags := flags + v.value;
      }
    }
    assert nicks[..|nicks|] == nicks;
  }

  method ReadPaths(items: seq<(string, string)>, c: EnumClass<FsType>) returns (a: seq<FsPath>)
    requires |c.nicks| == |c.values|
    ensures a == DecodePaths(c, items)
  {
    a := [];
    for i := 0 to |items|
      invariant a == DecodePaths(c, items[..i])
    {
      PrefixStep(items, i);
      var kind := FindNick(c, items[i].0);
      if kind.Some? {
        a := a + [FsPath(kind.value, if items[i].1 == "" then None else Some(items[i].1))];
      }
    }
    assert items[..|items|] == items;
  }

  method ReadPolicies(items: seq<(int, string, string)>, c: EnumClass<BusPermission>)
    returns (a: seq<BusPolicy>, made: bool)
    requires |c.nicks| == |c.values|
    ensures made <==> forall b :: b in items ==> Makes(c, b)
    ensures made ==> a == DecodePolicies(c, items)
  {
    a := [];
    for i := 0 to |items|
      invariant a == DecodePolicies(c, items[..i]) && forall b :: b in items[..i] ==> Makes(c, b)
    {
      PrefixStep(items, i);
      var permission := FindNick(c, items[i].2);
      if permission.Some? {
        if items[i].0 == BUS_NONE || items[i].1 == "" {
          assert items[i] in items && !Makes(c, items[i]);
          return a, false;
        }
        a := a + [BusPolicy(items[i].0, items[i].1, permission.value)];
      }
    }
    assert items[..|items|] == items;
    return a, true;
  }
}
