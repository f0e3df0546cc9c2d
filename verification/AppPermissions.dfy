/** The sealed record of what an application may touch: its builder calls, and the canonical
    form that sealing gives it. */
module AppPermissions {
  import opened Order

  datatype FsType =
    | SystemRoot | HomeSubdir | HostOs | HostEtc
    | XdgDesktop | XdgDocuments | XdgMusic | XdgPictures
    | XdgPublicShare | XdgVideos | XdgTemplates | XdgCache
    | XdgConfig | XdgData | XdgRun | Custom

  /** The position of an enumerator in its C enumeration. */
  function Ord(t: FsType): nat {
    match t
    case SystemRoot => 0
    case HomeSubdir => 1
    case HostOs => 2
    case HostEtc => 3
    case XdgDesktop => 4
    case XdgDocuments => 5
    case XdgMusic => 6
    case XdgPictures => 7
    case XdgPublicShare => 8
    case XdgVideos => 9
    case XdgTemplates => 10
    case XdgCache => 11
    case XdgConfig => 12
    case XdgData => 13
    case XdgRun => 14
    case Custom => 15
  }

  /** `subpath` is NULL (`None`) or a string; the empty string is different from NULL. */
  datatype FsPath = FsPath(kind: FsType, subpath: Option<string>)

  datatype BusPermission = PermUnknown | PermNone | See | Talk | Own

  function Rank(p: BusPermission): nat {
    match p
    case PermUnknown => 0
    case PermNone => 1
    case See => 2
    case Talk => 3
    case Own => 4
  }

  function MaxPermission(a: BusPermission, b: BusPermission): BusPermission {
    if Rank(a) > Rank(b) then a else b
  }

  /** A GBusType: STARTER is -1, NONE 0, SYSTEM 1, SESSION 2. */
  const BUS_NONE: int := 0
  const BUS_SYSTEM: int := 1
  const BUS_SESSION: int := 2

  datatype BusPolicy = BusPolicy(busType: int, name: string, permission: BusPermission)

  /** The value of a BzAppPermissions; `flags` is the set of bit numbers that are 1. */
  datatype Perms = Perms(
    isSealed: bool,
    flags: set<nat>,
    read: seq<FsPath>,
    full: seq<FsPath>,
    bus: seq<BusPolicy>)

  const EMPTY := Perms(false, {}, [], [], [])

  // ----- what the arrays mean

  datatype Access = NoAccess | ReadAccess | FullAccess

  function MaxAccess(a: Access, b: Access): Access {
    if a == FullAccess || b == FullAccess then FullAccess
    else if a == ReadAccess || b == ReadAccess then ReadAccess
    else NoAccess
  }

  /** The access that the two filesystem arrays grant on a path. */
  function Level(p: Perms, path: FsPath): Access {
    if path in p.full then FullAccess
    else if path in p.read then ReadAccess
    else NoAccess
  }

  ghost predicate OneEntryPerName(bus: seq<BusPolicy>) {
    forall i, j :: 0 <= i < j < |bus| ==> bus[i].busType != bus[j].busType || bus[i].name != bus[j].name
  }

  function BusIndex(bus: seq<BusPolicy>, busType: int, name: string): (i: nat)
    ensures i <= |bus|
    ensures i < |bus| ==> bus[i].busType == busType && bus[i].name == name
    ensures forall k :: 0 <= k < i ==> bus[k].busType != busType || bus[k].name != name
  {
    if bus == [] || (bus[0].busType == busType && bus[0].name == name) then 0
    else 1 + BusIndex(bus[1..], busType, name)
  }

  /** The permission granted on a bus name; a name with no entry has none. */
  function BusLevel(p: Perms, busType: int, name: string): BusPermission {
    var i := BusIndex(p.bus, busType, name);
    if i < |p.bus| then p.bus[i].permission else PermNone
  }

  ghost predicate StoredPolicy(b: BusPolicy) {
    b.busType != BUS_NONE && b.name != "" && Rank(b.permission) >= Rank(See)
  }

  /** What every builder call keeps: keys unique in each array, the arrays disjoint, one bus
      entry per name, none of them granting nothing. */
  ghost predicate Wf(p: Perms) {
    && NoDuplicates(p.read)
    && NoDuplicates(p.full)
    && (forall q :: q in p.read ==> q !in p.full)
    && OneEntryPerName(p.bus)
    && (forall i :: 0 <= i < |p.bus| ==> StoredPolicy(p.bus[i]))
  }

  // ----- builder calls, as functions of the old value

  function Remove(s: seq<FsPath>, path: FsPath): (r: seq<FsPath>) {
    if s == [] then []
    else if s[0] == path then s[1..]
    else [s[0]] + Remove(s[1..], path)
  }

  function AddRead(p: Perms, path: FsPath): Perms {
    if path in p.read || path in p.full then p else p.(read := p.read + [path])
  }

  function AddFull(p: Perms, path: FsPath): Perms {
    if path in p.full then p
    else p.(full := p.full + [path], read := Remove(p.read, path))
  }

  function AddBus(p: Perms, busType: int, name: string, permission: BusPermission): Perms {
    if busType == BUS_NONE || name == "" || permission == PermUnknown then p
    else
      var i := BusIndex(p.bus, busType, name);
      if i < |p.bus| then p.(bus := p.bus[i := p.bus[i].(permission := MaxPermission(p.bus[i].permission, permission))])
      else if permission == PermNone then p
      else p.(bus := p.bus + [BusPolicy(busType, name, permission)])
  }

  lemma {:induction false} RemoveMeaning(s: seq<FsPath>, path: FsPath)
    requires NoDuplicates(s)
    ensures NoDuplicates(Remove(s, path))
    ensures forall q :: q in Remove(s, path) <==> q in s && q != path
  {
    if s != [] {
      assert s == [s[0]] + s[1..];
      if s[0] != path {
        RemoveMeaning(s[1..], path);
        assert s[0] !in s[1..];
        assert s[0] !in Remove(s[1..], path);
      }
    }
  }

  lemma AddReadMeaning(p: Perms, path: FsPath)
    requires Wf(p)
    ensures Wf(AddRead(p, path))
    ensures forall q :: Level(AddRead(p, path), q) ==
              if q == path then MaxAccess(Level(p, q), ReadAccess) else Level(p, q)
  {
  }

  lemma AddFullMeaning(p: Perms, path: FsPath)
    requires Wf(p)
    ensures Wf(AddFull(p, path))
    ensures forall q :: Level(AddFull(p, path), q) == if q == path then FullAccess else Level(p, q)
  {
    RemoveMeaning(p.read, path);
  }

  lemma {:induction false} BusIndexUnique(bus: seq<BusPolicy>, i: nat)
    requires OneEntryPerName(bus) && i < |bus|
    ensures BusIndex(bus, bus[i].busType, bus[i].name) == i
  {
  }

  lemma BusIndexAppended(bus: seq<BusPolicy>, b: BusPolicy, t: int, n: string)
    ensures var i := BusIndex(bus, t, n);
            BusIndex(bus + [b], t, n) == if i == |bus| && (b.busType != t || b.name != n) then i + 1 else i
  {
    hide BusIndex;
    var i, j := BusIndex(bus, t, n), BusIndex(bus + [b], t, n);
    assert (bus + [b])[..|bus|] == bus;
    assert j < |bus| ==> (bus + [b])[j] == bus[j];
    assert i < |bus| ==> (bus + [b])[i] == bus[i];
    assert (bus + [b])[|bus|] == b;
  }

  lemma BusIndexSameName(bus: seq<BusPolicy>, k: nat, b: BusPolicy, t: int, n: string)
    requires k < |bus| && b.busType == bus[k].busType && b.name == bus[k].name
    ensures BusIndex(bus[k := b], t, n) == BusIndex(bus, t, n)
  {
    hide BusIndex;
    var i, j := BusIndex(bus, t, n), BusIndex(bus[k := b], t, n);
    assert j < |bus| ==> bus[k := b][j].name == bus[j].name;
    assert i < |bus| ==> bus[k := b][i].name == bus[i].name;
  }

  ghost predicate Accepted(busType: int, name: string, permission: BusPermission) {
    busType != BUS_NONE && name != "" && permission != PermUnknown
  }

  lemma AddBusWf(p: Perms, t: int, n: string, permission: BusPermission)
    requires Wf(p)
    ensures Wf(AddBus(p, t, n, permission))
  {
  }

  lemma AddBusMeaning(p: Perms, t: int, n: string, permission: BusPermission, t': int, n': string)
    requires Wf(p)
    ensures Wf(AddBus(p, t, n, permission))
    ensures BusLevel(AddBus(p, t, n, permission), t', n')
         == if t' == t && n' == n && Accepted(t, n, permission) then MaxPermission(BusLevel(p, t, n), permission)
            else BusLevel(p, t', n')
  {
    AddBusWf(p, t, n, permission);
    var i := BusIndex(p.bus, t, n);
    if Accepted(t, n, permission) {
      if i < |p.bus| {
        assert StoredPolicy(p.bus[i]);
        hide Wf, BusIndex;
        BusIndexSameName(p.bus, i, p.bus[i].(permission := MaxPermission(p.bus[i].permission, permission)), t', n');
      } else {
        hide Wf, BusIndex;
        BusIndexAppended(p.bus, BusPolicy(t, n, permission), t', n');
      }
    }
  }

  // ----- whole runs of builder calls

  datatype Call =
    | CallRead(path: FsPath)
    | CallFull(path: FsPath)
    | CallBus(busType: int, name: string, permission: BusPermission)
    | CallFlags(flags: set<nat>)

  function Apply(p: Perms, c: Call): Perms {
    match c
    case CallRead(path) => AddRead(p, path)
    case CallFull(path) => AddFull(p, path)
    case CallBus(t, n, permission) => AddBus(p, t, n, permission)
    case CallFlags(flags) => p.(flags := flags)
  }

  function ApplyAll(p: Perms, calls: seq<Call>): Perms {
    if calls == [] then p
    else Apply(ApplyAll(p, calls[..|calls|-1]), calls[|calls|-1])
  }

  function Asked(c: Call, path: FsPath): Access {
    if c == CallFull(path) then FullAccess
    else if c == CallRead(path) then ReadAccess
    else NoAccess
  }

  ghost predicate AskedBus(c: Call, t: int, n: string) {
    c.CallBus? && c.busType == t && c.name == n && Accepted(t, n, c.permission)
  }

  /** After any run of builder calls the arrays represent, on every path, the largest access
      any call asked for. */
  lemma {:induction false} RunAccess(p: Perms, calls: seq<Call>, path: FsPath)
    requires Wf(p)
    ensures Wf(ApplyAll(p, calls))
    ensures Level(ApplyAll(p, calls), path) == FullAccess
       <==> Level(p, path) == FullAccess || exists c :: c in calls && Asked(c, path) == FullAccess
    ensures Level(ApplyAll(p, calls), path) != NoAccess
       <==> Level(p, path) != NoAccess || exists c :: c in calls && Asked(c, path) != NoAccess
  {
    if calls != [] {
      var last, before := calls[|calls|-1], calls[..|calls|-1];
      RunAccess(p, before, path);
      assert calls == before + [last];
      assert forall c :: c in calls <==> c in before || c == last;
      ApplyMeaning(ApplyAll(p, before), last, path);
    }
  }

  lemma ApplyMeaning(p: Perms, c: Call, path: FsPath)
    requires Wf(p)
    ensures Wf(Apply(p, c))
    ensures Level(Apply(p, c), path) == MaxAccess(Level(p, path), Asked(c, path))
  {
    match c {
      case CallRead(a) => AddReadMeaning(p, a);
      case CallFull(a) => AddFullMeaning(p, a);
      case CallBus(t, n, permission) => AddBusWf(p, t, n, permission);
      case CallFlags(_) =>
    }
  }

  /** After any run of builder calls every bus name has the largest permission any accepted
      call asked for: at least `r` exactly when it had it before or some call asked for it. */
  lemma {:induction false} RunBusPermission(p: Perms, calls: seq<Call>, t: int, n: string, r: BusPermission)
    requires Wf(p)
    ensures Rank(BusLevel(ApplyAll(p, calls), t, n)) >= Rank(r)
       <==> Rank(BusLevel(p, t, n)) >= Rank(r)
            || exists c :: c in calls && AskedBus(c, t, n) && Rank(c.permission) >= Rank(r)
  {
    if calls != [] {
      var last, before := calls[|calls|-1], calls[..|calls|-1];
      RunBusPermission(p, before, t, n, r);
      assert calls == before + [last];
      assert forall c :: c in calls <==> c in before || c == last;
      RunAccess(p, before, FsPath(SystemRoot, None));
      ApplyBusMeaning(ApplyAll(p, before), last, t, n);
    }
  }

  lemma ApplyBusMeaning(p: Perms, c: Call, t: int, n: string)
    requires Wf(p)
    ensures BusLevel(Apply(p, c), t, n)
         == if AskedBus(c, t, n) then MaxPermission(BusLevel(p, t, n), c.permission) else BusLevel(p, t, n)
  {
    if c.CallBus? {
      AddBusMeaning(p, c.busType, c.name, c.permission, t, n);
    }
  }

  // ----- sealing

  predicate SubpathLeq(a: Option<string>, b: Option<string>) {
    a.None? || (b.Some? && Leq(a.value, b.value))
  }

  predicate PathLeq(a: FsPath, b: FsPath) {
    Ord(a.kind) < Ord(b.kind) || (a.kind == b.kind && SubpathLeq(a.subpath, b.subpath))
  }

  predicate PolicyLeq(a: BusPolicy, b: BusPolicy) {
    a.busType < b.busType || (a.busType == b.busType && Leq(a.name, b.name))
  }

  lemma OrdInjective(a: FsType, b: FsType)
    ensures Ord(a) == Ord(b) ==> a == b
  {
  }

  /** The comparator of the filesystem arrays is a total order on paths. */
  lemma PathOrder()
    ensures TotalPreorder(PathLeq)
    ensures forall a, b :: PathLeq(a, b) && PathLeq(b, a) ==> a == b
  {
    forall a, b
      ensures PathLeq(a, b) || PathLeq(b, a)
      ensures PathLeq(a, b) && PathLeq(b, a) ==> a == b
    {
      OrdInjective(a.kind, b.kind);
      if a.subpath.Some? && b.subpath.Some? {
        LeqTotal(a.subpath.value, b.subpath.value);
        if PathLeq(a, b) && PathLeq(b, a) {
          LeqAntisymmetric(a.subpath.value, b.subpath.value);
        }
      }
    }
    forall a, b, c | PathLeq(a, b) && PathLeq(b, c)
      ensures PathLeq(a, c)
    {
      if a.kind == b.kind == c.kind && a.subpath.Some? {
        LeqTransitive(a.subpath.value, b.subpath.value, c.subpath.value);
      }
    }
  }

  /** The comparator of the bus policies ignores the permission, so it is only a total order
      when each name has one entry. */
  lemma PolicyOrder()
    ensures TotalPreorder(PolicyLeq)
    ensures forall a, b :: PolicyLeq(a, b) && PolicyLeq(b, a) ==> a.busType == b.busType && a.name == b.name
  {
    forall a, b
      ensures PolicyLeq(a, b) || PolicyLeq(b, a)
      ensures PolicyLeq(a, b) && PolicyLeq(b, a) ==> a.busType == b.busType && a.name == b.name
    {
      LeqTotal(a.name, b.name);
      if PolicyLeq(a, b) && PolicyLeq(b, a) {
        LeqAntisymmetric(a.name, b.name);
      }
    }
    forall a, b, c | PolicyLeq(a, b) && PolicyLeq(b, c)
      ensures PolicyLeq(a, c)
    {
      if a.busType == b.busType == c.busType {
        LeqTransitive(a.name, b.name, c.name);
      }
    }
  }

  function Sealed(p: Perms): Perms {
    if p.isSealed then p
    else p.(isSealed := true,
            read := Sort(PathLeq, p.read), full := Sort(PathLeq, p.full),
            bus := Sort(PolicyLeq, p.bus))
  }

  /** Sealed arrays are in the order their comparators say. */
  ghost predicate Canonical(p: Perms) {
    Wf(p) && Sorted(PathLeq, p.read) && Sorted(PathLeq, p.full) && Sorted(PolicyLeq, p.bus)
  }

  lemma OneEntryAntisymmetric(bus: seq<BusPolicy>)
    requires OneEntryPerName(bus)
    ensures NoDuplicates(bus) && AntisymmetricOn(PolicyLeq, bus)
  {
    PolicyOrder();
  }

  lemma {:induction false} OneEntryPermutation(a: seq<BusPolicy>, b: seq<BusPolicy>)
    requires OneEntryPerName(a) && multiset(a) == multiset(b)
    ensures OneEntryPerName(b)
  {
    OneEntryAntisymmetric(a);
    MultisetNoDuplicates(a, b);
    SameMembers(a, b);
    forall i, j | 0 <= i < j < |b|
      ensures b[i].busType != b[j].busType || b[i].name != b[j].name
    {
      assert b[i] in a && b[j] in a && b[i] != b[j];
    }
  }

  /** Sealing keeps what the arrays mean and puts them in canonical form. */
  lemma SealedMeaning(p: Perms)
    requires Wf(p) && !p.isSealed
    ensures Canonical(Sealed(p)) && Sealed(p).isSealed && Sealed(p).flags == p.flags
    ensures forall q :: Level(Sealed(p), q) == Level(p, q)
    ensures forall b :: b in Sealed(p).bus <==> b in p.bus
  {
    PathOrder();
    PolicyOrder();
    SortSorted(PathLeq, p.read);
    SortSorted(PathLeq, p.full);
    SortSorted(PolicyLeq, p.bus);
    var s := Sealed(p);
    MultisetNoDuplicates(p.read, s.read);
    MultisetNoDuplicates(p.full, s.full);
    SameMembers(p.read, s.read);
    SameMembers(p.full, s.full);
    SameMembers(p.bus, s.bus);
    OneEntryPermutation(p.bus, s.bus);
    forall i | 0 <= i < |s.bus|
      ensures StoredPolicy(s.bus[i])
    {
      assert s.bus[i] in p.bus;
    }
  }

  ghost predicate SameBusLevels(p: Perms, q: Perms) {
    forall t, n :: BusLevel(p, t, n) == BusLevel(q, t, n)
  }

  lemma SameBusEntries(p: Perms, q: Perms)
    requires Wf(p) && Wf(q) && SameBusLevels(p, q)
    ensures forall b :: b in p.bus ==> b in q.bus
  {
    forall b | b in p.bus
      ensures b in q.bus
    {
      var i :| 0 <= i < |p.bus| && p.bus[i] == b;
      BusIndexUnique(p.bus, i);
      assert BusLevel(q, b.busType, b.name) == b.permission;
      var j := BusIndex(q.bus, b.busType, b.name);
      assert StoredPolicy(p.bus[i]);
      assert j < |q.bus| && q.bus[j] == b;
    }
  }

  /** The canonical form theorem: what the arrays mean determines the sealed object, array
      for array, however and in whatever order it was built. */
  lemma CanonicalForm(p: Perms, q: Perms)
    requires Wf(p) && Wf(q) && !p.isSealed && !q.isSealed && p.flags == q.flags
    requires forall path :: Level(p, path) == Level(q, path)
    requires SameBusLevels(p, q)
    ensures Sealed(p) == Sealed(q)
  {
    PathOrder();
    PolicyOrder();
    forall path
      ensures path in p.read <==> path in q.read
      ensures path in p.full <==> path in q.full
    {
      assert Level(p, path) == Level(q, path);
    }
    SameSetSameMultiset(p.read, q.read);
    SameSetSameMultiset(p.full, q.full);
    SortPermutation(PathLeq, p.read, q.read);
    SortPermutation(PathLeq, p.full, q.full);
    SameBusEntries(p, q);
    SameBusEntries(q, p);
    OneEntryAntisymmetric(p.bus);
    OneEntryAntisymmetric(q.bus);
    SameSetSameMultiset(p.bus, q.bus);
    SortPermutation(PolicyLeq, p.bus, q.bus);
  }

  // ----- the object

  class BzAppPermissions {
    var isSealed: bool
    var flags: set<nat>
    var filesystemRead: seq<FsPath>
    var filesystemFull: seq<FsPath>
    var busPolicies: seq<BusPolicy>

    function Value(): Perms
      reads this
    {
      Perms(isSealed, flags, filesystemRead, filesystemFull, busPolicies)
    }

    constructor ()
      ensures Value() == EMPTY
    {
      isSealed, flags, filesystemRead, filesystemFull, busPolicies := false, {}, [], [], [];
    }

    method SetFlags(newFlags: set<nat>)
      requires !isSealed
      modifies this
      ensures Value() == old(Value()).(flags := newFlags)
    {
      flags := newFlags;
    }

    method AddFilesystemRead(path: FsPath)
      requires !isSealed
      modifies this
      ensures Value() == AddRead(old(Value()), path)
      ensures old(Wf(Value())) ==>
                Wf(Value()) && Level(Value(), path) == MaxAccess(old(Level(Value(), path)), ReadAccess)
      ensures old(Wf(Value())) ==> forall q :: q != path ==> Level(Value(), q) == old(Level(Value(), q))
    {
      if Wf(Value()) {
        AddReadMeaning(Value(), path);
      }
      var inRead := ArrayIndex(filesystemRead, path);
      var inFull := ArrayIndex(filesystemFull, path);
      if inRead.Some? || inFull.Some? {
        return;
      }
      filesystemRead := filesystemRead + [path];
    }

    method AddFilesystemFull(path: FsPath)
      requires !isSealed
      modifies this
      ensures Value() == AddFull(old(Value()), path)
      ensures old(Wf(Value())) ==> Wf(Value()) && Level(Value(), path) == FullAccess
      ensures old(Wf(Value())) ==> forall q :: q != path ==> Level(Value(), q) == old(Level(Value(), q))
    {
      if Wf(Value()) {
        AddFullMeaning(Value(), path);
      }
      var inFull := ArrayIndex(filesystemFull, path);
      if inFull.Some? {
        return;
      }
      filesystemFull := filesystemFull + [path];
      var inRead := ArrayIndex(filesystemRead, path);
      RemoveAtIndex(filesystemRead, path, inRead);
      if inRead.Some? {
        filesystemRead := filesystemRead[..inRead.value] + filesystemRead[inRead.value+1..];
      }
    }

    method AddBusPolicy(busType: int, name: string, permission: BusPermission)
      requires !isSealed
      modifies this
      ensures Value() == AddBus(old(Value()), busType, name, permission)
      ensures old(Wf(Value())) ==> Wf(Value())
    {
      if Wf(Value()) {
        AddBusWf(Value(), busType, name, permission);
      }
      if busType == BUS_NONE || name == "" || permission == PermUnknown {
        return;
      }
      var i := 0;
      while i < |busPolicies|
        invariant 0 <= i <= |busPolicies|
        invariant forall k :: 0 <= k < i ==> busPolicies[k].busType != busType || busPolicies[k].name != name
        invariant Value() == old(Value())
      {
        if busPolicies[i].busType == busType && busPolicies[i].name == name {
          var largest := MaxPermission(busPolicies[i].permission, permission);
          busPolicies := busPolicies[i := busPolicies[i].(permission := largest)];
          return;
        }
        i := i + 1;
      }
      if permission == PermNone {
        return;
      }
      busPolicies := busPolicies + [BusPolicy(busType, name, permission)];
    }

    method Seal()
      modifies this
      ensures Value() == Sealed(old(Value()))
      ensures old(Wf(Value())) && !old(isSealed) ==> Canonical(Value())
    {
      hide Wf, Canonical, Sort, PathLeq, PolicyLeq;
      if Wf(Value()) && !isSealed {
        SealedMeaning(Value());
      }
      if isSealed {
        return;
      }
      isSealed := true;
      filesystemRead := Sort(PathLeq, filesystemRead);
      filesystemFull := Sort(PathLeq, filesystemFull);
      busPolicies := Sort(PolicyLeq, busPolicies);
    }
  }

  /** The index of the first entry equal to `path`, or `None` for DOES_NOT_CONTAIN. */
  method ArrayIndex(a: seq<FsPath>, path: FsPath) returns (index: Option<nat>)
    ensures index.None? <==> path !in a
    ensures index.Some? ==> index.value < |a| && a[index.value] == path && path !in a[..index.value]
  {
    for i := 0 to |a|
      invariant path !in a[..i]
    {
      if a[i] == path {
        return Some(i);
      }
    }
    return None;
  }

  lemma {:induction false} RemoveAtIndex(s: seq<FsPath>, path: FsPath, index: Option<nat>)
    requires index.None? ==> path !in s
    requires index.Some? ==> index.value < |s| && s[index.value] == path && path !in s[..index.value]
    ensures Remove(s, path) == if index.Some? then s[..index.value] + s[index.value+1..] else s
  {
    if s != [] && s[0] != path {
      if index.Some? {
        var i := index.value;
        assert s[..i] == [s[0]] + s[1..][..i-1];
        RemoveAtIndex(s[1..], path, Some(i - 1));
        assert s[1..][i..] == s[i+1..];
      } else {
        RemoveAtIndex(s[1..], path, None);
      }
    }
  }
}
