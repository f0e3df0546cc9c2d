/** The Library list: `installed_apps` is updated a little by every backend notification and must
    always be the list a recomputation from `installed_set` would give. */
module InstalledApps {
  import opened Order

  type Id = string
  type Uid = string

  /** An entry as the notification handlers see it. `isAppAddon`: an add-on, not a debug or locale
      one, that extends an application. */
  datatype Entry = Entry(id: Id, uid: Uid, isApplication: bool, isAppAddon: bool)

  /** `groups` maps an id to the unique ids of its members; `listed` is the contents of
      `installed_apps`; `cache` is what the entry cache would give if a read succeeds. */
  datatype State = State(
    installed: map<Uid, string>,
    groups: map<Id, set<Uid>>,
    listed: set<Id>,
    cache: map<Uid, Entry>)

  /** `decached` says whether the read from the entry cache succeeds (for an external change: for
      which unique ids). `retrieved` is the installed set the backend reports, or a failure. */
  datatype Event =
    | ReplaceEntry(entry: Entry)
    | InstallDone(uid: Uid, version: string, decached: bool)
    | UpdateDone(uid: Uid, version: string, rebased: bool, decached: bool)
    | RemoveDone(uid: Uid, rebased: bool, decached: bool)
    | ExternalChange(retrieved: Option<map<Uid, string>>, readable: set<Uid>)

  // ----- what each notification does

  /** bz_entry_group_reconcile_with_installed_set: some member is installed. */
  predicate AnyInstalled(members: set<Uid>, installed: map<Uid, string>) {
    exists u :: u in members && u in installed
  }

  function Get(s: State, uid: Uid, succeeds: bool): Option<Entry> {
    if succeeds && uid in s.cache then Some(s.cache[uid]) else None
  }

  function EnsureGroup(s: State, id: Id, uid: Uid, installed: bool): State {
    s.(groups := s.groups[id := (if id in s.groups then s.groups[id] else {}) + {uid}],
       listed := if installed then s.listed + {id} else s.listed)
  }

  function Replace(s: State, e: Entry): State {
    var isInstalled := e.uid in s.installed;
    var s1 := if e.isApplication then EnsureGroup(s, e.id, e.uid, isInstalled) else s;
    var s2 := if e.isAppAddon then EnsureGroup(s1, e.id, e.uid, isInstalled) else s1;
    s2.(cache := s2.cache[e.uid := e])
  }

  function Install(s: State, e: Entry, uid: Uid, version: string): State {
    s.(installed := s.installed[uid := version],
       listed := if e.isApplication && e.id in s.groups then s.listed + {e.id} else s.listed)
  }

  function Uninstall(s: State, e: Entry, uid: Uid, rebased: bool): State {
    var installed := s.installed - {uid};
    s.(installed := installed,
       listed := if e.isApplication && e.id in s.groups && (rebased || !AnyInstalled(s.groups[e.id], installed))
                 then s.listed - {e.id} else s.listed)
  }

  /** The groups that losing `u` takes off the list, and the groups that gaining `u` puts on it. */
  function Dropped(s: State, lost: set<Uid>, installed: map<Uid, string>): set<Id> {
    set u | u in lost && u in s.cache && s.cache[u].id in s.groups && !AnyInstalled(s.groups[s.cache[u].id], installed)
      :: s.cache[u].id
  }

  function Gained(s: State, won: set<Uid>): set<Id> {
    set u | u in won && u in s.cache && s.cache[u].id in s.groups :: s.cache[u].id
  }

  function Replaced(s: State, installed: map<Uid, string>, readable: set<Uid>): State {
    var lost := (s.installed.Keys - installed.Keys) * readable;
    var won := (installed.Keys - s.installed.Keys) * readable;
    s.(installed := installed, listed := s.listed - Dropped(s, lost, installed) + Gained(s, won))
  }

  function Step(s: State, ev: Event): State {
    match ev
    case ReplaceEntry(e) => Replace(s, e)
    case InstallDone(uid, version, decached) =>
      var e := Get(s, uid, decached);
      if e.None? then s else Install(s, e.value, uid, version)
    case UpdateDone(uid, version, rebased, decached) =>
      var e := Get(s, uid, decached);
      if e.None? then s
      else if rebased then Uninstall(s, e.value, uid, true)
      else s.(installed := s.installed[uid := version])
    case RemoveDone(uid, rebased, decached) =>
      var e := Get(s, uid, decached);
      if e.None? then s else Uninstall(s, e.value, uid, rebased)
    case ExternalChange(retrieved, readable) =>
      if retrieved.None? then s else Replaced(s, retrieved.value, readable)
  }

  // ----- the same, field by field

  /** The entry joins the group of its id, which is listed if the entry is installed. */
  lemma ReplaceFields(s: State, e: Entry)
    ensures var t := Step(s, ReplaceEntry(e));
            var filed := e.isApplication || e.isAppAddon;
      && t.installed == s.installed && t.cache == s.cache[e.uid := e]
      && t.groups.Keys == s.groups.Keys + (if filed then {e.id} else {})
      && (forall g <- t.groups :: t.groups[g] ==
           (if g in s.groups then s.groups[g] else {}) + (if filed && g == e.id then {e.uid} else {}))
      && (forall g :: g in t.listed <==> g in s.listed || (filed && g == e.id && e.uid in s.installed))
  {
  }

  /** `u` came into the installed set, or left it, and its entry of the group `g` can be read. */
  ghost predicate Moved(s: State, readable: set<Uid>, u: Uid, g: Id) {
    u in readable && u in s.cache && s.cache[u].id == g && g in s.groups
  }

  /** The set is replaced. A group is listed if a readable member came into the set, and otherwise
      taken off the list if a readable member left the set and no member is left in it. */
  lemma ExternalChangeFields(s: State, installed: map<Uid, string>, readable: set<Uid>)
    ensures var t := Step(s, ExternalChange(Some(installed), readable));
      && t.installed == installed && t.groups == s.groups && t.cache == s.cache
      && forall g :: g in t.listed <==>
           || (exists u :: Moved(s, readable, u, g) && u in installed && u !in s.installed)
           || (g in s.listed && !exists u :: Moved(s, readable, u, g) && u !in installed && u in s.installed
                                              && s.groups[g] !! installed.Keys)
  {
  }

  // ----- the invariant

  /** Unique ids belong to one id each, the entry cache and the groups agree about it, and every
      cached application entry is in its group: `owner` gives the id a unique id belongs to, `isApp`
      tells application ids. */
  ghost predicate Consistent(s: State, owner: Uid -> Id, isApp: Id -> bool) {
    && (forall u :: u in s.cache ==> s.cache[u].uid == u && Fits(s.cache[u], owner, isApp))
    && (forall u :: u in s.cache && isApp(owner(u)) ==> owner(u) in s.groups && u in s.groups[owner(u)])
    && (forall g, u :: g in s.groups && isApp(g) && u in s.groups[g] ==> owner(u) == g)
    && s.listed <= s.groups.Keys
  }
  /** An entry is filed under its own id, and only applications use application ids. */
  ghost predicate Fits(e: Entry, owner: Uid -> Id, isApp: Id -> bool) {
    e.id == owner(e.uid) && (e.isApplication <==> isApp(e.id)) && (e.isAppAddon ==> !isApp(e.id))
  }

  ghost predicate EventFits(ev: Event, owner: Uid -> Id, isApp: Id -> bool) {
    ev.ReplaceEntry? ==> Fits(ev.entry, owner, isApp)
  }

  /** Every application group is listed exactly when one of its members is installed. */
  ghost predicate ListedRight(s: State, isApp: Id -> bool) {
    forall g :: g in s.groups && isApp(g) ==> (g in s.listed <==> AnyInstalled(s.groups[g], s.installed))
  }

  /** The group a successful read leads to. */
  ghost predicate Reaches(s: State, uid: Uid, decached: bool, g: Id) {
    decached && uid in s.cache && s.cache[uid].isApplication && s.cache[uid].id == g && g in s.groups
  }

  /** A group with these members becomes installed, or stops being so. */
  ghost predicate Turns(members: set<Uid>, before: map<Uid, string>, after: map<Uid, string>) {
    AnyInstalled(members, before) != AnyInstalled(members, after)
  }

  /** When the list stays right. A plain update must name a group with an installed member; a
      rebase must leave the group no other installed member; and after an external change every
      application group that became installed, or stopped being so, must have a member that
      changed and can be read from the cache. */
  ghost predicate Benign(s: State, ev: Event, isApp: Id -> bool) {
    match ev
    case ReplaceEntry(_) => true
    case InstallDone(_, _, _) => true
    case UpdateDone(uid, _, rebased, decached) =>
      forall g :: Reaches(s, uid, decached, g) ==>
        if rebased then !AnyInstalled(s.groups[g], s.installed - {uid}) else AnyInstalled(s.groups[g], s.installed)
    case RemoveDone(uid, rebased, decached) =>
      forall g :: Reaches(s, uid, decached, g) && rebased ==> !AnyInstalled(s.groups[g], s.installed - {uid})
    case ExternalChange(retrieved, readable) =>
      retrieved.Some? ==>
        forall g | g in s.groups && isApp(g) && Turns(s.groups[g], s.installed, retrieved.value) ::
          exists u :: u in s.groups[g] && u in readable && u in s.cache && (u in s.installed) != (u in retrieved.value)
  }

  lemma StepConsistent(s: State, ev: Event, owner: Uid -> Id, isApp: Id -> bool)
    requires Consistent(s, owner, isApp) && EventFits(ev, owner, isApp)
    ensures Consistent(Step(s, ev), owner, isApp)
  {
    if ev.ReplaceEntry? {
      ReplaceConsistent(s, ev.entry, owner, isApp);
    }
    hide Replace, Fits, AnyInstalled;
  }

  lemma ReplaceConsistent(s: State, e: Entry, owner: Uid -> Id, isApp: Id -> bool)
    requires Consistent(s, owner, isApp) && Fits(e, owner, isApp)
    ensures Consistent(Replace(s, e), owner, isApp)
  {
  }

  /** Whatever the notification, the list stays right exactly when the notification is benign. */
  lemma StepKeeps(s: State, ev: Event, owner: Uid -> Id, isApp: Id -> bool)
    requires Consistent(s, owner, isApp) && ListedRight(s, isApp) && EventFits(ev, owner, isApp)
    ensures ListedRight(Step(s, ev), isApp) <==> Benign(s, ev, isApp)
  {
  }

  // ----- runs

  function Run(s: State, events: seq<Event>): State {
    if events == [] then s else Step(Run(s, events[..|events|-1]), events[|events|-1])
  }

  ghost predicate BenignRun(s: State, events: seq<Event>, isApp: Id -> bool) {
    forall i :: 0 <= i < |events| ==> Benign(Run(s, events[..i]), events[i], isApp)
  }

  /** The table of groups after reading them in order. */
  function Saved(saved: seq<(Id, set<Uid>)>): map<Id, set<Uid>> {
    if saved == [] then map[] else Saved(saved[..|saved|-1])[saved[|saved|-1].0 := saved[|saved|-1].1]
  }

  /** The ids that reading the saved groups lists: one for each saved group with an installed member. */
  function InstalledIds(saved: seq<(Id, set<Uid>)>, installed: map<Uid, string>): seq<Id> {
    if saved == [] then []
    else
      var last := saved[|saved|-1];
      InstalledIds(saved[..|saved|-1], installed) + if AnyInstalled(last.1, installed) then [last.0] else []
  }

  /** No saved group with an installed member is followed by another of its id. */
  ghost predicate SavedOnce(saved: seq<(Id, set<Uid>)>, installed: map<Uid, string>) {
    forall i, j :: 0 <= i < j < |saved| && saved[i].0 == saved[j].0 ==> !AnyInstalled(saved[i].1, installed)
  }

  lemma {:induction false} InstalledIdsMembers(saved: seq<(Id, set<Uid>)>, installed: map<Uid, string>, g: Id)
    ensures g in InstalledIds(saved, installed) <==>
      exists i :: 0 <= i < |saved| && saved[i].0 == g && AnyInstalled(saved[i].1, installed)
  {
    hide AnyInstalled;
    if saved != [] {
      InstalledIdsMembers(saved[..|saved|-1], installed, g);
    }
  }

  lemma {:induction false} InstalledIdsOnce(saved: seq<(Id, set<Uid>)>, installed: map<Uid, string>)
    ensures NoDuplicates(InstalledIds(saved, installed)) <==>
      forall i, j :: 0 <= i < j < |saved| && saved[i].0 == saved[j].0 && AnyInstalled(saved[i].1, installed) ==>
        !AnyInstalled(saved[j].1, installed)
  {
    hide AnyInstalled, NoDuplicates;
    if saved == [] {
      NoneTwice();
    } else {
      var n := |saved| - 1;
      var id := saved[n].0;
      InstalledIdsOnce(saved[..n], installed);
      InstalledIdsMembers(saved[..n], installed, id);
      NoDuplicatesMore(InstalledIds(saved[..n], installed), id);
      assert InstalledIds(saved[..n], installed) + [] == InstalledIds(saved[..n], installed);
      assert forall i :: 0 <= i < n ==> saved[..n][i] == saved[i];
    }
  }

  lemma NoneTwice()
    ensures NoDuplicates<Id>([])
  {
  }

  lemma NoDuplicatesMore(s: seq<Id>, x: Id)
    ensures NoDuplicates(s + [x]) <==> NoDuplicates(s) && x !in s
  {
    assert (s + [x])[..|s|] == s && (s + [x])[|s|] == x;
    assert forall i :: 0 <= i < |s| ==> (s + [x])[i] == s[i];
  }

  /** The last saved group of its id. */
  ghost predicate LastSaved(saved: seq<(Id, set<Uid>)>, i: nat) {
    i < |saved| && forall j :: i < j < |saved| ==> saved[j].0 != saved[i].0
  }

  lemma SavedStep(saved: seq<(Id, set<Uid>)>)
    requires saved != []
    ensures var n := |saved| - 1; Saved(saved) == Saved(saved[..n])[saved[n].0 := saved[n].1]
  {
  }

  /** The table keeps the last saved group of each id. */
  lemma {:induction false} SavedLast(saved: seq<(Id, set<Uid>)>, i: nat)
    requires LastSaved(saved, i)
    ensures saved[i].0 in Saved(saved) && Saved(saved)[saved[i].0] == saved[i].1
  {
    hide Saved;
    var n := |saved| - 1;
    SavedStep(saved);
    if i < n {
      assert forall j :: 0 <= j < n ==> saved[..n][j] == saved[j];
      SavedLast(saved[..n], i);
    }
  }

  lemma {:induction false} FindLast(saved: seq<(Id, set<Uid>)>, i: nat) returns (k: nat)
    requires i < |saved|
    ensures i <= k && LastSaved(saved, k) && saved[k].0 == saved[i].0
    decreases |saved| - i
  {
    k := i;
    if j :| i < j < |saved| && saved[j].0 == saved[i].0 {
      k := FindLast(saved, j);
    }
  }

  lemma {:induction false} SavedKeys(saved: seq<(Id, set<Uid>)>, g: Id)
    requires g in Saved(saved)
    ensures exists i :: 0 <= i < |saved| && saved[i].0 == g
  {
    hide Saved;
    if saved == [] {
      NothingSaved();
    } else {
      var n := |saved| - 1;
      SavedStep(saved);
      if saved[n].0 != g {
        SavedKeys(saved[..n], g);
        var i :| 0 <= i < n && saved[..n][i].0 == g;
        assert saved[i].0 == g;
      }
    }
  }

  lemma NothingSaved()
    ensures Saved([]) == map[]
  {
  }

  /** Reading the saved groups lists every installed group of the table once, and no other, exactly
      when no saved group with an installed member is followed by another of its id. */
  lemma SavedRightExactly(saved: seq<(Id, set<Uid>)>, installed: map<Uid, string>)
    ensures SavedOnce(saved, installed) <==>
      && NoDuplicates(InstalledIds(saved, installed))
      && forall g :: g in InstalledIds(saved, installed) <==>
           g in Saved(saved) && AnyInstalled(Saved(saved)[g], installed)
  {
    hide AnyInstalled, InstalledIds, Saved, NoDuplicates;
    InstalledIdsOnce(saved, installed);
    var ids := InstalledIds(saved, installed);
    if SavedOnce(saved, installed) {
      forall g
        ensures g in ids <==> g in Saved(saved) && AnyInstalled(Saved(saved)[g], installed)
      {
        InstalledIdsMembers(saved, installed, g);
        if i :| 0 <= i < |saved| && saved[i].0 == g && AnyInstalled(saved[i].1, installed) {
          SavedLast(saved, i);
        } else if g in Saved(saved) {
          SavedKeys(saved, g);
          var i :| 0 <= i < |saved| && saved[i].0 == g;
          var k := FindLast(saved, i);
          SavedLast(saved, k);
        }
      }
    } else {
      var i, j :| 0 <= i < j < |saved| && saved[i].0 == saved[j].0 && AnyInstalled(saved[i].1, installed);
      InstalledIdsMembers(saved, installed, saved[i].0);
      var k := FindLast(saved, j);
      SavedLast(saved, k);
    }
  }

  /** The same for a list that holds those ids in any order. */
  lemma StartListExactly(apps: seq<Id>, saved: seq<(Id, set<Uid>)>, installed: map<Uid, string>,
      cache: map<Uid, Entry>)
    requires multiset(apps) == multiset(InstalledIds(saved, installed))
    ensures SavedOnce(saved, installed) <==>
      NoDuplicates(apps) && (set g | g in apps) == Initial(installed, Saved(saved), cache).listed
  {
    hide AnyInstalled, InstalledIds, Saved, NoDuplicates, SavedOnce;
    SavedRightExactly(saved, installed);
    SameMembers(apps, InstalledIds(saved, installed));
    SameNoDuplicates(apps, InstalledIds(saved, installed));
    var s := set g | g in apps;
    var t := Initial(installed, Saved(saved), cache).listed;
    assert forall g :: g in s <==> g in InstalledIds(saved, installed);
    assert forall g :: g in t <==> g in Saved(saved) && AnyInstalled(Saved(saved)[g], installed);
    assert s == t <==> forall g :: g in s <==> g in t;
  }

  /** The startup state: every group restored from disk is reconciled and listed accordingly. */
  function Initial(installed: map<Uid, string>, groups: map<Id, set<Uid>>, cache: map<Uid, Entry>): State {
    State(installed, groups, (set g | g in groups && AnyInstalled(groups[g], installed)), cache)
  }

  /** In every run of benign notifications an application group is on the list exactly when one
      of its members is installed. */
  lemma {:induction false} RunKeeps(s: State, events: seq<Event>, owner: Uid -> Id, isApp: Id -> bool)
    requires Consistent(s, owner, isApp) && ListedRight(s, isApp)
    requires forall ev :: ev in events ==> EventFits(ev, owner, isApp)
    requires BenignRun(s, events, isApp)
    ensures Consistent(Run(s, events), owner, isApp) && ListedRight(Run(s, events), isApp)
  {
    if events != [] {
      var n := |events| - 1;
      var before := events[..n];
      forall i | 0 <= i < n
        ensures Benign(Run(s, before[..i]), before[i], isApp)
      {
        assert before[..i] == events[..i];
      }
      RunKeeps(s, before, owner, isApp);
      StepConsistent(Run(s, before), events[n], owner, isApp);
      StepKeeps(Run(s, before), events[n], owner, isApp);
    }
  }

  /** What a caller can see of a notification: nothing is rebased, an update names an installed
      entry, and every entry that an external change affects can be read. */
  ghost predicate Ordinary(s: State, ev: Event, isApp: Id -> bool) {
    match ev
    case UpdateDone(uid, _, rebased, _) => !rebased && uid in s.installed
    case RemoveDone(_, rebased, _) => !rebased
    case ExternalChange(retrieved, readable) =>
      retrieved.Some? ==>
        forall g, u :: g in s.groups && isApp(g) && u in s.groups[g] && (u in s.installed) != (u in retrieved.value) ==>
          u in readable && u in s.cache
    case _ => true
  }

  lemma OrdinaryIsBenign(s: State, ev: Event, owner: Uid -> Id, isApp: Id -> bool)
    requires Consistent(s, owner, isApp) && Ordinary(s, ev, isApp)
    ensures Benign(s, ev, isApp)
  {
  }

  /** In every run of ordinary notifications, from any state in which the list is right, it stays
      right. */
  lemma {:induction false} OrdinaryRunKeeps(s: State, events: seq<Event>, owner: Uid -> Id, isApp: Id -> bool)
    requires Consistent(s, owner, isApp) && ListedRight(s, isApp)
    requires forall ev :: ev in events ==> EventFits(ev, owner, isApp)
    requires forall i :: 0 <= i < |events| ==> Ordinary(Run(s, events[..i]), events[i], isApp)
    ensures Consistent(Run(s, events), owner, isApp) && ListedRight(Run(s, events), isApp)
  {
    hide Consistent, ListedRight, Ordinary, Benign, Step;
    if events != [] {
      var n := |events| - 1;
      var before := events[..n];
      forall i | 0 <= i < n
        ensures Ordinary(Run(s, before[..i]), before[i], isApp)
      {
        assert before[..i] == events[..i];
      }
      OrdinaryRunKeeps(s, before, owner, isApp);
      OrdinaryIsBenign(Run(s, before), events[n], owner, isApp);
      StepConsistent(Run(s, before), events[n], owner, isApp);
      StepKeeps(Run(s, before), events[n], owner, isApp);
    }
  }

  // ----- what a run leaves behind, told from its notifications alone

  /** Before notification `i` the entry cache has an entry under this unique id. */
  ghost predicate CachedBefore(s: State, events: seq<Event>, i: nat, uid: Uid) {
    uid in s.cache || exists j :: 0 <= j < i && j < |events| && events[j].ReplaceEntry? && events[j].entry.uid == uid
  }

  /** The notification decides whether `uid` is installed: it names the unique id and the entry can
      be read from the cache, or it brings a whole set. */
  predicate Deciding(ev: Event, uid: Uid, cached: bool) {
    match ev
    case ReplaceEntry(_) => false
    case InstallDone(u, _, decached) => u == uid && decached && cached
    case UpdateDone(u, _, _, decached) => u == uid && decached && cached
    case RemoveDone(u, _, decached) => u == uid && decached && cached
    case ExternalChange(retrieved, _) => retrieved.Some?
  }

  ghost predicate Decides(s: State, events: seq<Event>, i: nat, uid: Uid) {
    i < |events| && Deciding(events[i], uid, CachedBefore(s, events, i, uid))
  }

  function VersionIn(installed: map<Uid, string>, uid: Uid): Option<string> {
    if uid in installed then Some(installed[uid]) else None
  }

  /** The version that a deciding notification leaves installed, or none. */
  function Verdict(ev: Event, uid: Uid): Option<string> {
    match ev
    case ReplaceEntry(_) => None
    case InstallDone(_, version, _) => Some(version)
    case UpdateDone(_, version, rebased, _) => if rebased then None else Some(version)
    case RemoveDone(_, _, _) => None
    case ExternalChange(retrieved, _) => if retrieved.Some? then VersionIn(retrieved.value, uid) else None
  }

  lemma {:induction false} CacheOfRun(s: State, events: seq<Event>, uid: Uid)
    ensures uid in Run(s, events).cache <==> CachedBefore(s, events, |events|, uid)
  {
    if events != [] {
      var n := |events| - 1;
      CacheOfRun(s, events[..n], uid);
      CacheStep(Run(s, events[..n]), events[n], uid);
      hide Step;
      assert forall j :: 0 <= j < n ==> events[..n][j] == events[j];
    }
  }

  lemma CacheStep(s: State, ev: Event, uid: Uid)
    ensures uid in Step(s, ev).cache <==> uid in s.cache || (ev.ReplaceEntry? && ev.entry.uid == uid)
  {
  }

  lemma InstalledStep(s: State, ev: Event, uid: Uid)
    ensures VersionIn(Step(s, ev).installed, uid)
         == if Deciding(ev, uid, uid in s.cache) then Verdict(ev, uid) else VersionIn(s.installed, uid)
  {
  }

  /** Notification `i` is the last one that decides about `uid`; none does if `i` is -1. */
  ghost predicate LastToDecide(s: State, events: seq<Event>, i: int, uid: Uid) {
    i >= -1 && (i >= 0 ==> Decides(s, events, i, uid)) && forall j: nat :: i < j ==> !Decides(s, events, j, uid)
  }

  /** After any run a unique id is installed, and in which version, as the last notification says
      that decided it; if none did, as at the start. */
  lemma {:induction false} LastDecides(s: State, events: seq<Event>, i: int, uid: Uid)
    requires LastToDecide(s, events, i, uid)
    ensures VersionIn(Run(s, events).installed, uid)
         == if i == -1 then VersionIn(s.installed, uid) else Verdict(events[i], uid)
  {
    hide Step, Verdict, VersionIn, Deciding, CachedBefore;
    if events != [] {
      var n := |events| - 1;
      var before := events[..n];
      CacheOfRun(s, before, uid);
      InstalledStep(Run(s, before), events[n], uid);
      DecidesBefore(s, events, n, uid);
      if i < n {
        assert !Decides(s, events, n, uid);
        forall j: nat | j < n
          ensures Decides(s, events, j, uid) <==> Decides(s, before, j, uid)
        {
          DecidesBefore(s, events, j, uid);
        }
        LastDecides(s, before, i, uid);
      }
    }
  }

  lemma DecidesBefore(s: State, events: seq<Event>, i: nat, uid: Uid)
    requires events != []
    ensures var n := |events| - 1;
            Decides(s, events, i, uid) <==>
              if i == n then Deciding(events[n], uid, CachedBefore(s, events[..n], n, uid))
              else Decides(s, events[..n], i, uid)
  {
    hide Deciding;
    if i < |events| {
      assert forall j :: 0 <= j < i ==> events[..|events|-1][j] == events[j];
      assert CachedBefore(s, events[..|events|-1], i, uid) <==> CachedBefore(s, events, i, uid);
    }
  }

  /** Replacing the entry files it in the group `g`. */
  ghost predicate Files(ev: Event, uid: Uid, g: Id) {
    ev.ReplaceEntry? && ev.entry.uid == uid && ev.entry.id == g && (ev.entry.isApplication || ev.entry.isAppAddon)
  }

  /** After any run a group has the members it had, and those that were filed in it. */
  lemma {:induction false} GroupsOfRun(s: State, events: seq<Event>, uid: Uid, g: Id)
    ensures (g in Run(s, events).groups && uid in Run(s, events).groups[g]) <==>
      (g in s.groups && uid in s.groups[g]) || exists ev :: ev in events && Files(ev, uid, g)
  {
    if events != [] {
      var n := |events| - 1;
      GroupsOfRun(s, events[..n], uid, g);
      GroupsStep(Run(s, events[..n]), events[n], uid, g);
      hide Step, Files;
      assert events == events[..n] + [events[n]];
      assert forall ev :: ev in events <==> ev in events[..n] || ev == events[n];
    }
  }

  lemma GroupsStep(s: State, ev: Event, uid: Uid, g: Id)
    ensures var t := Step(s, ev);
            (g in t.groups && uid in t.groups[g]) <==> (g in s.groups && uid in s.groups[g]) || Files(ev, uid, g)
  {
    if ev.ReplaceEntry? {
      ReplaceFields(s, ev.entry);
    }
    hide Replace;
  }

  // ----- from startup

  /** What the saved groups and the entry cache must agree about at the start: cached entries are
      under their own unique id and fit, each cached application is in its saved group, and the
      members of a saved application group belong to it. */
  ghost predicate SavedFits(groups: map<Id, set<Uid>>, cache: map<Uid, Entry>, owner: Uid -> Id, isApp: Id -> bool) {
    && (forall u :: u in cache ==> cache[u].uid == u && Fits(cache[u], owner, isApp))
    && (forall u :: u in cache && cache[u].isApplication ==> cache[u].id in groups && u in groups[cache[u].id])
    && (forall g, u :: g in groups && isApp(g) && u in groups[g] ==> owner(u) == g)
  }

  lemma StartsRight(installed: map<Uid, string>, groups: map<Id, set<Uid>>, cache: map<Uid, Entry>, owner: Uid -> Id,
      isApp: Id -> bool)
    ensures ListedRight(Initial(installed, groups, cache), isApp)
    ensures SavedFits(groups, cache, owner, isApp) ==> Consistent(Initial(installed, groups, cache), owner, isApp)
  {
  }

  lemma {:induction false} RunConsistent(s: State, events: seq<Event>, owner: Uid -> Id, isApp: Id -> bool)
    requires Consistent(s, owner, isApp)
    requires forall ev :: ev in events ==> EventFits(ev, owner, isApp)
    ensures Consistent(Run(s, events), owner, isApp)
  {
    hide Consistent, EventFits, Step;
    if events != [] {
      var n := |events| - 1;
      RunConsistent(s, events[..n], owner, isApp);
      StepConsistent(Run(s, events[..n]), events[n], owner, isApp);
    }
  }

  /** The list is right throughout a run exactly when every notification of the run is benign. */
  lemma RunExactly(s: State, events: seq<Event>, owner: Uid -> Id, isApp: Id -> bool)
    requires Consistent(s, owner, isApp) && ListedRight(s, isApp)
    requires forall ev :: ev in events ==> EventFits(ev, owner, isApp)
    ensures BenignRun(s, events, isApp) <==>
              forall i :: 0 <= i <= |events| ==> ListedRight(Run(s, events[..i]), isApp)
  {
    hide Consistent, ListedRight, EventFits, Benign, Step;
    if BenignRun(s, events, isApp) {
      forall i | 0 <= i <= |events|
        ensures ListedRight(Run(s, events[..i]), isApp)
      {
        assert forall j :: 0 <= j < i ==> events[..i][..j] == events[..j];
        RunKeeps(s, events[..i], owner, isApp);
      }
    } else {
      var i :| 0 <= i < |events| && !Benign(Run(s, events[..i]), events[i], isApp);
      assert events[..i+1][..i] == events[..i] && events[..i+1][i] == events[i];
      RunConsistent(s, events[..i], owner, isApp);
      if ListedRight(Run(s, events[..i]), isApp) {
        StepKeeps(Run(s, events[..i]), events[i], owner, isApp);
      }
    }
  }

  /** From startup, with saved groups and a cache that agree: the list is right throughout a run
      exactly when the run is benign, and so it is after every run of ordinary notifications. */
  lemma RunFromStartup(installed: map<Uid, string>, groups: map<Id, set<Uid>>, cache: map<Uid, Entry>,
      events: seq<Event>, owner: Uid -> Id, isApp: Id -> bool)
    requires SavedFits(groups, cache, owner, isApp)
    requires forall ev :: ev in events ==> EventFits(ev, owner, isApp)
    ensures var s := Initial(installed, groups, cache);
      && (BenignRun(s, events, isApp) <==> forall i :: 0 <= i <= |events| ==> ListedRight(Run(s, events[..i]), isApp))
      && ((forall i :: 0 <= i < |events| ==> Ordinary(Run(s, events[..i]), events[i], isApp)) ==>
            ListedRight(Run(s, events), isApp))
  {
    hide Consistent, ListedRight, EventFits, Ordinary, BenignRun, SavedFits, Step;
    var s := Initial(installed, groups, cache);
    StartsRight(installed, groups, cache, owner, isApp);
    RunExactly(s, events, owner, isApp);
    if forall i :: 0 <= i < |events| ==> Ordinary(Run(s, events[..i]), events[i], isApp) {
      OrdinaryRunKeeps(s, events, owner, isApp);
    }
  }

  /** The symmetric-difference walk of an external change ends with the very list that rebuilding
      from the new set gives, when every changed unique id of a group can be read. */
  lemma ExternalChangeRebuilds(s: State, installed: map<Uid, string>, readable: set<Uid>, owner: Uid -> Id,
      isApp: Id -> bool)
    requires Consistent(s, owner, isApp) && ListedRight(s, isApp)
    requires forall g, u :: g in s.groups && isApp(g) && u in s.groups[g] && (u in s.installed) != (u in installed) ==>
               u in readable && u in s.cache
    ensures var t := Step(s, ExternalChange(Some(installed), readable));
            forall g :: g in s.groups && isApp(g) ==> (g in t.listed <==>
                g in Initial(installed, s.groups, s.cache).listed)
  {
  }

  /** Two ways the list goes wrong: an update of something not known to be installed, and an
      external change whose only changed member cannot be read. */
  lemma NotBenign()
    ensures var app := Entry("org.app", "u", true, false);
            var s := State(map[], map["org.app" := {"u"}], {}, map["u" := app]);
            var isApp := (g: Id) => g == "org.app";
            && Consistent(s, (u: Uid) => "org.app", isApp) && ListedRight(s, isApp)
            && !ListedRight(Step(s, UpdateDone("u", "2", false, true)), isApp)
            && !ListedRight(Step(s, ExternalChange(Some(map["u" := "1"]), {})), isApp)
  {
  }

  /** A third way: a rebase of one of two installed members. */
  lemma RebaseNotBenign()
    ensures var u, v := Entry("org.app", "u", true, false), Entry("org.app", "v", true, false);
            var s := State(map["u" := "1", "v" := "1"], map["org.app" := {"u", "v"}], {"org.app"},
                           map["u" := u, "v" := v]);
            var isApp := (g: Id) => g == "org.app";
            && Consistent(s, (u: Uid) => "org.app", isApp) && ListedRight(s, isApp)
            && !ListedRight(Step(s, UpdateDone("u", "2", true, true)), isApp)
  {
    var u, v := Entry("org.app", "u", true, false), Entry("org.app", "v", true, false);
    var s := State(map["u" := "1", "v" := "1"], map["org.app" := {"u", "v"}], {"org.app"}, map["u" := u, "v" := v]);
    var t := Step(s, UpdateDone("u", "2", true, true));
    assert "v" in t.groups["org.app"] && "v" in t.installed && t.listed == {};
  }

  // ----- the application object

  class BzApplication {
    var installedSet: map<Uid, string>
    var idsToGroups: map<Id, set<Uid>>
    var installedApps: seq<Id>
    var cache: map<Uid, Entry>

    ghost function Abs(): State
      reads this
    {
      State(installedSet, idsToGroups, (set g | g in installedApps), cache)
    }

    ghost predicate Valid()
      reads this
    {
      NoDuplicates(installedApps) && forall u :: u in cache ==> cache[u].uid == u
    }

    /** g_list_store_find followed by g_list_store_insert_sorted. */
    method InsertIfMissing(g: Id)
      requires Valid()
      modifies this`installedApps
      ensures Valid() && Abs() == old(Abs()).(listed := old(Abs()).listed + {g})
      ensures g in old(installedApps) ==> installedApps == old(installedApps)
      ensures g !in old(installedApps) ==>
        exists k | 0 <= k <= |old(installedApps)| ::
          installedApps == old(installedApps)[..k] + [g] + old(installedApps)[k..]
    {
      if g !in installedApps {
        InsertSorted(g);
      }
    }

    method RemoveIfFound(g: Id)
      requires Valid()
      modifies this`installedApps
      ensures Valid() && Abs() == old(Abs()).(listed := old(Abs()).listed - {g})
      ensures g !in old(installedApps) ==> installedApps == old(installedApps)
      ensures g in old(installedApps) ==>
        exists k | 0 <= k < |old(installedApps)| ::
          installedApps == old(installedApps)[..k] + old(installedApps)[k+1..]
    {
      var k := 0;
      while k < |installedApps|
        invariant k <= |installedApps| && g !in installedApps[..k]
        invariant installedApps == old(installedApps)
      {
        if installedApps[k] == g {
          installedApps := installedApps[..k] + installedApps[k+1..];
          return;
        }
        k := k + 1;
      }
      assert installedApps[..k] == installedApps;
    }

    /** g_list_store_insert_sorted, wherever the title comparison puts the group. */
    method InsertSorted(g: Id)
      modifies this`installedApps
      ensures exists k | 0 <= k <= |old(installedApps)| ::
          installedApps == old(installedApps)[..k] + [g] + old(installedApps)[k..]
      ensures multiset(installedApps) == multiset(old(installedApps)) + multiset{g}
    {
      var k: nat :| k <= |installedApps|;
      assert installedApps == installedApps[..k] + installedApps[k..];
      installedApps := installedApps[..k] + [g] + installedApps[k..];
    }

    /** enumerate_disk_groups_fiber: the saved groups with their members, in file order. */
    method EnumerateDiskGroups(saved: seq<(Id, set<Uid>)>)
      requires Valid() && idsToGroups == map[] && installedApps == []
      modifies this`idsToGroups, this`installedApps
      ensures idsToGroups == Saved(saved) && multiset(installedApps) == multiset(InstalledIds(saved, installedSet))
      ensures SavedOnce(saved, installedSet) <==> Valid() && Abs() == Initial(installedSet, Saved(saved), cache)
    {
      for n := 0 to |saved|
        invariant idsToGroups == Saved(saved[..n])
        invariant multiset(installedApps) == multiset(InstalledIds(saved[..n], installedSet))
      {
        hide AnyInstalled;
        var (id, members) := saved[n];
        PrefixStep(saved, n);
        idsToGroups := idsToGroups[id := members];
        if AnyInstalled(members, installedSet) {
          InsertSorted(id);
        }
      }
      assert saved[..|saved|] == saved;
      hide AnyInstalled, Saved, InstalledIds, NoDuplicates, SavedOnce;
      StartListExactly(installedApps, saved, installedSet, cache);
    }

    method EnsureGroupAndAdd(id: Id, entry: Entry, installed: bool)
      requires Valid()
      modifies this`idsToGroups, this`installedApps
      ensures Valid() && Abs() == EnsureGroup(old(Abs()), id, entry.uid, installed)
    {
      if id in idsToGroups {
        idsToGroups := idsToGroups[id := idsToGroups[id] + {entry.uid}];
      } else {
        idsToGroups := idsToGroups[id := {} + {entry.uid}];
      }
      if installed {
        InsertIfMissing(id);
      }
    }

    method OnReplaceEntry(entry: Entry)
      requires Valid()
      modifies this
      ensures Valid() && Abs() == Step(old(Abs()), ReplaceEntry(entry))
      ensures installedSet == old(installedSet) && cache == old(cache)[entry.uid := entry]
      ensures var filed := entry.isApplication || entry.isAppAddon;
              && idsToGroups.Keys == old(idsToGroups).Keys + (if filed then {entry.id} else {})
              && (forall g <- idsToGroups :: idsToGroups[g] ==
                   (if g in old(idsToGroups) then old(idsToGroups)[g] else {}) +
                   (if filed && g == entry.id then {entry.uid} else {}))
              && (forall g :: g in installedApps <==>
                   g in old(installedApps) || (filed && g == entry.id && entry.uid in installedSet))
    {
      var installed := entry.uid in installedSet;
      if entry.isApplication {
        EnsureGroupAndAdd(entry.id, entry, installed);
      }
      if entry.isAppAddon {
        EnsureGroupAndAdd(entry.id, entry, installed);
      }
      cache := cache[entry.uid := entry];
      ReplaceFields(old(Abs()), entry);
      assert Abs() == Step(old(Abs()), ReplaceEntry(entry));
      hide Step, Replace, EnsureGroup;
      assert forall g :: g in installedApps <==> g in Abs().listed;
      assert forall g :: g in old(installedApps) <==> g in old(Abs()).listed;
    }

    method OnInstallDone(uid: Uid, version: string, decached: bool)
      requires Valid()
      modifies this
      ensures Valid() && Abs() == Step(old(Abs()), InstallDone(uid, version, decached))
      ensures idsToGroups == old(idsToGroups) && cache == old(cache)
      ensures !decached || uid !in cache ==> installedSet == old(installedSet) && installedApps == old(installedApps)
      ensures decached && uid in cache ==>
        && installedSet == old(installedSet)[uid := version]
        && forall g :: g in installedApps <==>
             g in old(installedApps) || (cache[uid].isApplication && g == cache[uid].id && g in idsToGroups)
    {
      var entry := if decached && uid in cache then Some(cache[uid]) else None;
      if entry.None? {
        return;
      }
      installedSet := installedSet[uid := version];
      if entry.value.isApplication && entry.value.id in idsToGroups {
        InsertIfMissing(entry.value.id);
      }
    }

    method OnUpdateOrRemoveDone(isUpdate: bool, uid: Uid, version: string, rebased: bool, decached: bool)
      requires Valid()
      modifies this
      ensures Valid()
      ensures Abs() == Step(old(Abs()),
                              if isUpdate then UpdateDone(uid, version, rebased, decached)
                              else RemoveDone(uid, rebased, decached))
      ensures idsToGroups == old(idsToGroups) && cache == old(cache)
      ensures !decached || uid !in cache ==> installedSet == old(installedSet) && installedApps == old(installedApps)
      ensures decached && uid in cache && isUpdate && !rebased ==>
        installedSet == old(installedSet)[uid := version] && installedApps == old(installedApps)
      ensures decached && uid in cache && (rebased || !isUpdate) ==>
        && installedSet == old(installedSet) - {uid}
        && forall g :: g in installedApps <==>
             && g in old(installedApps)
             && !(cache[uid].isApplication && g == cache[uid].id && g in idsToGroups
                  && (rebased || idsToGroups[g] !! installedSet.Keys))
    {
      var entry := if decached && uid in cache then Some(cache[uid]) else None;
      if entry.None? {
        return;
      }
      if isUpdate {
        installedSet := installedSet[uid := version];
      }
      if !isUpdate || rebased {
        installedSet := installedSet - {uid};
        assert installedSet == old(installedSet) - {uid};
        var id := entry.value.id;
        if entry.value.isApplication && id in idsToGroups {
          if rebased || !AnyInstalled(idsToGroups[id], installedSet) {
            RemoveIfFound(id);
          }
        }
      }
    }

    /** The handler of INVALIDATE_REMOTES and EXTERNAL_CHANGE. The ids that left the set are
        walked first, in hash order, then the ids that entered it. */
    method OnExternalChange(retrieved: Option<map<Uid, string>>, readable: set<Uid>)
      requires Valid()
      modifies this
      ensures Valid() && Abs() == Step(old(Abs()), ExternalChange(retrieved, readable))
      ensures idsToGroups == old(idsToGroups) && cache == old(cache)
      ensures retrieved.None? ==> installedSet == old(installedSet) && installedApps == old(installedApps)
      ensures retrieved.Some? ==>
        && installedSet == retrieved.value
        && forall g :: g in installedApps <==>
             || (exists u :: Moved(old(Abs()), readable, u, g) && u in installedSet && u !in old(installedSet))
             || (g in old(installedApps) &&
                 !exists u :: Moved(old(Abs()), readable, u, g) && u !in installedSet && u in old(installedSet)
                              && idsToGroups[g] !! installedSet.Keys)
    {
      if retrieved.None? {
        return;
      }
      ExternalChangeFields(Abs(), retrieved.value, readable);
      var newSet := retrieved.value;
      var lost := (installedSet.Keys - newSet.Keys) * readable;
      var won := (newSet.Keys - installedSet.Keys) * readable;
      WalkLost(lost, newSet);
      WalkWon(won, newSet);
      installedSet := newSet;
      hide Step;
      assert forall g :: g in installedApps <==> g in Abs().listed;
      assert forall g :: g in old(installedApps) <==> g in old(Abs()).listed;
    }

    method WalkLost(lost: set<Uid>, newSet: map<Uid, string>)
      requires Valid() && lost !! newSet.Keys
      modifies this`installedApps
      ensures Valid() && Abs() == old(Abs()).(listed := old(Abs()).listed - Dropped(old(Abs()), lost, newSet))
    {
      ghost var s := Abs();
      var remaining := lost;
      while remaining != {}
        invariant remaining <= lost && Valid()
        invariant Abs() == s.(listed := s.listed - Dropped(s, lost - remaining, newSet))
        decreases remaining
      {
        ghost var seen := lost - remaining;
        var uid: Uid :| uid in remaining;
        remaining := remaining - {uid};
        assert lost - remaining == seen + {uid};
        if uid in cache {
          var id := cache[uid].id;
          if id in idsToGroups && id in installedApps && !AnyInstalled(idsToGroups[id], newSet) {
            RemoveIfFound(id);
          }
        }
        assert forall g :: g in Dropped(s, seen + {uid}, newSet) <==>
          g in Dropped(s, seen, newSet) ||
          (uid in s.cache && g == s.cache[uid].id && g in s.groups && !AnyInstalled(s.groups[g], newSet));
      }
      assert lost - remaining == lost;
    }

    method WalkWon(won: set<Uid>, newSet: map<Uid, string>)
      requires Valid() && won <= newSet.Keys
      modifies this`installedApps
      ensures Valid() && Abs() == old(Abs()).(listed := old(Abs()).listed + Gained(old(Abs()), won))
    {
      ghost var s := Abs();
      var remaining := won;
      while remaining != {}
        invariant remaining <= won && Valid()
        invariant Abs() == s.(listed := s.listed + Gained(s, won - remaining))
        decreases remaining
      {
        ghost var seen := won - remaining;
        var uid: Uid :| uid in remaining;
        remaining := remaining - {uid};
        assert won - remaining == seen + {uid};
        if uid in cache && cache[uid].id in idsToGroups {
          InsertIfMissing(cache[uid].id);
        }
        assert forall g :: g in Gained(s, seen + {uid}) <==>
          g in Gained(s, seen) || (uid in s.cache && g == s.cache[uid].id && g in s.groups);
      }
      assert won - remaining == won;
    }
  }
}
