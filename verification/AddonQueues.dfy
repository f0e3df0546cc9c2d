/** Add-on ids on their way to the group of the application they extend: appended at once when the
    group exists, kept in a pending queue of their installation kind when it does not. */
module AddonQueues {
  import opened Order

  type Id = string

  /** `user` is the installation kind; `extensionOf` is the ref an add-on extends. */
  datatype Entry = Entry(id: Id, user: bool, isApplication: bool, isAddon: bool, extensionOf: Option<string>)

  /** Add-on ids of every existing group, and the two tables of pending queues. */
  datatype State = State(groups: map<Id, seq<Id>>, usr: map<Id, seq<Id>>, sys: map<Id, seq<Id>>)

  // ----- which entries are add-ons of which application

  predicate HasSubstring(s: string, needle: string) {
    |needle| <= |s| && (s[..|needle|] == needle || (s != [] && HasSubstring(s[1..], needle)))
  }

  function UpToSlash(s: string): string {
    if s == [] || s[0] == '/' then [] else [s[0]] + UpToSlash(s[1..])
  }

  predicate IsAppAddon(e: Entry) {
    && e.isAddon && !HasSubstring(e.id, ".Debug") && !HasSubstring(e.id, ".Locale")
    && e.extensionOf.Some? && |e.extensionOf.value| >= 4 && e.extensionOf.value[..4] == "app/"
  }

  /** The second component of an "app/…" ref. */
  function ExtendedApp(e: Entry): Id
    requires IsAppAddon(e)
  {
    UpToSlash(e.extensionOf.value[4..])
  }

  predicate AddonFor(e: Entry, x: Id) {
    IsAppAddon(e) && ExtendedApp(e) == x
  }

  /** An add-on, none of debug symbols or translations, that extends a ref whose second component is
      the application: "app/" and the application, and perhaps a slash and more. */
  ghost predicate Extends(e: Entry, x: Id) {
    && e.isAddon && !Inside(".Debug", e.id) && !Inside(".Locale", e.id) && e.extensionOf.Some? && '/' !in x
    && (e.extensionOf.value == "app/" + x || exists rest :: e.extensionOf.value == "app/" + x + "/" + rest)
  }

  ghost predicate Inside(needle: string, s: string) {
    exists before, after :: s == before + needle + after
  }

  lemma {:induction false} SubstringExactly(s: string, needle: string)
    ensures HasSubstring(s, needle) <==> Inside(needle, s)
  {
    if |needle| <= |s| && s[..|needle|] == needle {
      assert s == "" + needle + s[|needle|..];
    } else if s != [] {
      SubstringExactly(s[1..], needle);
      if before, after :| s[1..] == before + needle + after {
        assert s == ([s[0]] + before) + needle + after;
      }
      if before, after :| s == before + needle + after {
        AtStartOrLater(s, needle, before, after);
      }
    }
  }

  lemma AtStartOrLater(s: string, needle: string, before: string, after: string)
    requires s == before + needle + after
    ensures before == "" ==> |needle| <= |s| && s[..|needle|] == needle
    ensures before != "" ==> s[1..] == before[1..] + needle + after
  {
    assert before == "" ==> s == needle + after;
  }

  ghost predicate FirstPart(s: string, x: string) {
    '/' !in x && (s == x || exists rest :: s == x + "/" + rest)
  }

  lemma {:induction false} UpToSlashExactly(s: string, x: string)
    ensures UpToSlash(s) == x <==> FirstPart(s, x)
  {
    if s == "" || s[0] == '/' {
      assert s != "" ==> s == "" + "/" + s[1..];
      if x != "" {
        NoPart(s, x);
      }
    } else if x == "" {
      SlashFirst(s);
    } else {
      UpToSlashExactly(s[1..], x[1..]);
      assert s == [s[0]] + s[1..] && x == [x[0]] + x[1..];
      MorePart(s, x);
    }
  }

  lemma NoPart(s: string, x: string)
    requires (s == "" || s[0] == '/') && x != ""
    ensures !FirstPart(s, x)
  {
    forall rest | '/' !in x
      ensures s != x + "/" + rest
    {
      assert (x + "/" + rest)[0] == x[0];
    }
  }

  lemma SlashFirst(s: string)
    requires s != "" && s[0] != '/'
    ensures !FirstPart(s, "")
  {
    forall rest
      ensures s != "" + "/" + rest
    {
      assert ("" + "/" + rest)[0] == '/';
    }
  }

  lemma MorePart(s: string, x: string)
    requires s != "" && x != "" && s[0] != '/'
    ensures FirstPart(s, x) <==> s[0] == x[0] && FirstPart(s[1..], x[1..])
  {
    if rest :| s == x + "/" + rest {
      assert s[0] == x[0] && s[1..] == x[1..] + "/" + rest;
    }
    if rest :| s[0] == x[0] && s[1..] == x[1..] + "/" + rest {
      assert s == x + "/" + rest;
    }
    if s[0] == x[0] && s[1..] == x[1..] {
      assert s == x;
    }
    assert x[0] == '/' || ('/' in x <==> '/' in x[1..]);
  }

  /** The queue or group that an add-on goes to is that of the application its ref names. */
  lemma AddonForExactly(e: Entry, x: Id)
    ensures AddonFor(e, x) <==> Extends(e, x)
  {
    hide HasSubstring, Inside, UpToSlash;
    SubstringExactly(e.id, ".Debug");
    SubstringExactly(e.id, ".Locale");
    if e.extensionOf.Some? {
      var ref := e.extensionOf.value;
      if |ref| >= 4 && ref[..4] == "app/" {
        UpToSlashExactly(ref[4..], x);
        assert ref == "app/" + ref[4..];
      }
      RefParts(ref, x);
    }
  }

  lemma RefParts(ref: string, x: Id)
    ensures '/' !in x && (ref == "app/" + x || exists rest :: ref == "app/" + x + "/" + rest) <==>
              |ref| >= 4 && ref[..4] == "app/" && FirstPart(ref[4..], x)
  {
    if ref == "app/" + x {
      assert ref[..4] == "app/" && ref[4..] == x;
    }
    if rest :| ref == "app/" + x + "/" + rest {
      assert ref[..4] == "app/" && ref[4..] == x + "/" + rest;
    }
    if |ref| >= 4 && ref[..4] == "app/" && FirstPart(ref[4..], x) {
      assert ref == "app/" + ref[4..];
      if rest :| ref[4..] == x + "/" + rest {
        assert ref == "app/" + x + "/" + rest;
      }
    }
  }

  /** Processing the entry makes sure that the group `x` exists. */
  predicate Creates(e: Entry, x: Id) {
    e.id == x && (e.isApplication || IsAppAddon(e))
  }

  predicate AppOf(e: Entry, x: Id, user: bool) {
    e.isApplication && e.id == x && e.user == user
  }

  // ----- processing one entry

  function Queues(s: State, user: bool): map<Id, seq<Id>> {
    if user then s.usr else s.sys
  }

  function SetQueues(s: State, user: bool, q: map<Id, seq<Id>>): State {
    if user then s.(usr := q) else s.(sys := q)
  }

  function Pending(s: State, user: bool, x: Id): seq<Id> {
    if x in Queues(s, user) then Queues(s, user)[x] else []
  }

  function AddonIds(s: State, x: Id): seq<Id> {
    if x in s.groups then s.groups[x] else []
  }

  /** bz_entry_group_append_addon_group_id: an id already there is not appended again. */
  function Append(ids: seq<Id>, id: Id): seq<Id> {
    if id in ids then ids else ids + [id]
  }

  function AppendAll(ids: seq<Id>, more: seq<Id>): seq<Id> {
    if more == [] then ids else Append(AppendAll(ids, more[..|more|-1]), more[|more|-1])
  }

  function Ensure(s: State, id: Id): State {
    if id in s.groups then s else s.(groups := s.groups[id := []])
  }

  function ProcessApp(s: State, e: Entry): State {
    var s1 := Ensure(s, e.id);
    var q := Queues(s1, e.user);
    if e.id !in q then s1
    else SetQueues(s1.(groups := s1.groups[e.id := AppendAll(s1.groups[e.id], q[e.id])]), e.user, q - {e.id})
  }

  function ProcessAddon(s: State, e: Entry): State
    requires IsAppAddon(e)
  {
    var s1 := Ensure(s, e.id);
    var x := ExtendedApp(e);
    if x in s1.groups then s1.(groups := s1.groups[x := Append(s1.groups[x], e.id)])
    else SetQueues(s1, e.user, Queues(s1, e.user)[x := Pending(s1, e.user, x) + [e.id]])
  }

  function Step(s: State, e: Entry): State {
    var s1 := if e.isApplication then ProcessApp(s, e) else s;
    if IsAppAddon(e) then ProcessAddon(s1, e) else s1
  }

  function Run(s: State, es: seq<Entry>): State {
    if es == [] then s else Step(Run(s, es[..|es|-1]), es[|es|-1])
  }

  // ----- where an add-on id must be

  /** When entry `i` is looked at, the group of `x` exists. */
  ghost predicate GroupThere(s: State, es: seq<Entry>, i: int, x: Id) {
    x in s.groups || exists j :: 0 <= j <= i && j < |es| && Creates(es[j], x)
  }

  /** The add-on that arrived as entry `i` has reached the group of `x`: the group was there, or
      an application entry of the same installation kind came later. */
  ghost predicate Delivered(s: State, es: seq<Entry>, i: nat, x: Id) {
    && i < |es| && AddonFor(es[i], x)
    && (GroupThere(s, es, i, x) || exists j :: i < j < |es| && AppOf(es[j], x, es[i].user))
  }

  ghost predicate Waiting(s: State, es: seq<Entry>, i: nat, x: Id, user: bool) {
    i < |es| && AddonFor(es[i], x) && es[i].user == user && !Delivered(s, es, i, x)
  }

  lemma {:induction false} AppendAllMembers(ids: seq<Id>, more: seq<Id>)
    ensures forall a :: a in AppendAll(ids, more) <==> a in ids || a in more
    ensures NoDuplicates(ids) ==> NoDuplicates(AppendAll(ids, more))
  {
    if more != [] {
      var n := |more| - 1;
      AppendAllMembers(ids, more[..n]);
      assert more == more[..n] + [more[n]];
    }
  }

  lemma StepGroups(s: State, e: Entry, x: Id)
    ensures x in Step(s, e).groups <==> x in s.groups || Creates(e, x)
  {
  }

  lemma ProcessAppMoves(s: State, e: Entry, x: Id, a: Id, user: bool)
    ensures var t := ProcessApp(s, e);
      && (x in t.groups <==> x in s.groups || e.id == x)
      && (a in AddonIds(t, x) <==> a in AddonIds(s, x) || (e.id == x && a in Pending(s, e.user, x)))
      && Pending(t, user, x) == if e.id == x && e.user == user then [] else Pending(s, user, x)
  {
    if e.id in Queues(s, e.user) {
      AppendAllMembers(Ensure(s, e.id).groups[e.id], Queues(s, e.user)[e.id]);
    }
  }

  lemma ProcessAddonMoves(s: State, e: Entry, x: Id, a: Id, user: bool)
    requires IsAppAddon(e)
    ensures var t := ProcessAddon(s, e);
      && (a in AddonIds(t, x) <==>
            a in AddonIds(s, x) || (ExtendedApp(e) == x && e.id == a && (x in s.groups || e.id == x)))
      && Pending(t, user, x) ==
           Pending(s, user, x) +
             (if ExtendedApp(e) == x && e.user == user && x !in s.groups && e.id != x
              then [e.id] else [])
  {
  }

  lemma StepAddons(s: State, e: Entry, x: Id, a: Id)
    ensures a in AddonIds(Step(s, e), x) <==>
      || a in AddonIds(s, x)
      || (e.isApplication && e.id == x && a in Pending(s, e.user, x))
      || (AddonFor(e, x) && e.id == a && (x in s.groups || Creates(e, x)))
  {
    hide ProcessApp, ProcessAddon, AddonIds, Pending;
    var s1 := if e.isApplication then ProcessApp(s, e) else s;
    ProcessAppMoves(s, e, x, a, e.user);
    if IsAppAddon(e) {
      ProcessAddonMoves(s1, e, x, a, e.user);
    }
  }

  lemma StepPending(s: State, e: Entry, x: Id, user: bool)
    ensures Pending(Step(s, e), user, x) ==
      (if AppOf(e, x, user) then [] else Pending(s, user, x))
      + (if AddonFor(e, x) && e.user == user && x !in s.groups && !Creates(e, x) then [e.id] else [])
  {
    hide ProcessApp, ProcessAddon, AddonIds, Pending;
    var s1 := if e.isApplication then ProcessApp(s, e) else s;
    ProcessAppMoves(s, e, x, x, user);
    if IsAppAddon(e) {
      ProcessAddonMoves(s1, e, x, x, user);
    }
  }

  lemma {:induction false} RunGroups(s: State, es: seq<Entry>, x: Id)
    ensures x in Run(s, es).groups <==> GroupThere(s, es, |es| - 1, x)
  {
    if es != [] {
      var n := |es| - 1;
      RunGroups(s, es[..n], x);
      StepGroups(Run(s, es[..n]), es[n], x);
    }
  }

  /** What one more entry changes about a past arrival. */
  lemma DeliveredLater(s: State, es: seq<Entry>, i: nat, x: Id)
    requires es != [] && i < |es| - 1
    ensures var before, last := es[..|es|-1], es[|es|-1];
      && before[i] == es[i]
      && (Delivered(s, es, i, x) <==>
            Delivered(s, before, i, x) || (AppOf(last, x, last.user) && Waiting(s, before, i, x, last.user)))
      && forall user :: Waiting(s, es, i, x, user) <==> Waiting(s, before, i, x, user) && !AppOf(last, x, user)
  {
  }

  lemma DeliveredNow(s: State, es: seq<Entry>, x: Id)
    requires es != []
    ensures var n := |es| - 1;
            Delivered(s, es, n, x) <==> AddonFor(es[n], x) && (x in Run(s, es[..n]).groups || Creates(es[n], x))
  {
    var n := |es| - 1;
    RunGroups(s, es[..n], x);
    if GroupThere(s, es, n, x) && x !in s.groups && !Creates(es[n], x) {
      var j :| 0 <= j <= n && Creates(es[j], x);
      assert Creates(es[..n][j], x);
    }
  }

  /** After any run, of any mixture of installation kinds, an add-on id is in the group of `x`
      exactly when it was there at the start or some arrival of it was delivered, and it is in a
      pending queue of `x` exactly when some arrival of that kind still waits. */
  lemma {:induction false} Places(s: State, es: seq<Entry>, x: Id, a: Id, user: bool)
    requires s.usr == map[] && s.sys == map[]
    ensures a in AddonIds(Run(s, es), x) <==>
      a in AddonIds(s, x) || exists i :: 0 <= i < |es| && es[i].id == a && Delivered(s, es, i, x)
    ensures a in Pending(Run(s, es), user, x) <==>
      exists i :: 0 <= i < |es| && es[i].id == a && Waiting(s, es, i, x, user)
  {
    if es != [] {
      var n := |es| - 1;
      var before, last := es[..n], es[n];
      Places(s, before, x, a, user);
      Places(s, before, x, a, last.user);
      InGroup(s, es, x, a);
      InQueue(s, es, x, a, user);
    }
  }

  /** The induction step of Places, for the group. */
  lemma InGroup(s: State, es: seq<Entry>, x: Id, a: Id)
    requires es != []
    requires var n := |es| - 1; var before, last := es[..n], es[n];
      && (a in AddonIds(Run(s, before), x) <==>
          a in AddonIds(s, x) || exists i :: 0 <= i < n && before[i].id == a && Delivered(s, before, i, x))
      && (a in Pending(Run(s, before), last.user, x) <==>
          exists i :: 0 <= i < n && before[i].id == a && Waiting(s, before, i, x, last.user))
    ensures a in AddonIds(Run(s, es), x) <==>
      a in AddonIds(s, x) || exists i :: 0 <= i < |es| && es[i].id == a && Delivered(s, es, i, x)
  {
    var n := |es| - 1;
    var before, last := es[..n], es[n];
    StepAddons(Run(s, before), last, x, a);
    DeliveredNow(s, es, x);
    hide Step, AddonIds, Pending, Creates, AddonFor, Delivered, Waiting;
    if i :| 0 <= i < n && before[i].id == a && Delivered(s, before, i, x) {
      DeliveredLater(s, es, i, x);
      assert es[i].id == a && Delivered(s, es, i, x);
    }
    if AppOf(last, x, last.user) && a in Pending(Run(s, before), last.user, x) {
      var i :| 0 <= i < n && before[i].id == a && Waiting(s, before, i, x, last.user);
      DeliveredLater(s, es, i, x);
      assert es[i].id == a && Delivered(s, es, i, x);
    }
    if i :| 0 <= i < n && es[i].id == a && Delivered(s, es, i, x) {
      DeliveredLater(s, es, i, x);
      assert before[i].id == a;
    }
  }

  /** The induction step of Places, for a queue. */
  lemma InQueue(s: State, es: seq<Entry>, x: Id, a: Id, user: bool)
    requires es != []
    requires var n := |es| - 1; var before := es[..n];
      a in Pending(Run(s, before), user, x) <==>
        exists i :: 0 <= i < n && before[i].id == a && Waiting(s, before, i, x, user)
    ensures a in Pending(Run(s, es), user, x) <==>
      exists i :: 0 <= i < |es| && es[i].id == a && Waiting(s, es, i, x, user)
  {
    var n := |es| - 1;
    var before, last := es[..n], es[n];
    StepPending(Run(s, before), last, x, user);
    DeliveredNow(s, es, x);
    assert Waiting(s, es, n, x, user) <==> AddonFor(last, x) && last.user == user && !Delivered(s, es, n, x);
    hide Step, AddonIds, Pending, Creates, AddonFor, Delivered, Waiting, AppOf;
    if i :| 0 <= i < n && before[i].id == a && Waiting(s, before, i, x, user) && !AppOf(last, x, user) {
      DeliveredLater(s, es, i, x);
      assert es[i].id == a && Waiting(s, es, i, x, user);
    }
    if i :| 0 <= i < n && es[i].id == a && Waiting(s, es, i, x, user) {
      DeliveredLater(s, es, i, x);
      assert before[i].id == a;
    }
  }

  lemma ProcessAppNoDuplicates(s: State, e: Entry, x: Id)
    requires NoDuplicates(AddonIds(s, x))
    ensures NoDuplicates(AddonIds(ProcessApp(s, e), x))
  {
    if e.id in Queues(s, e.user) {
      AppendAllMembers(AddonIds(s, e.id), Queues(s, e.user)[e.id]);
    }
  }

  lemma ProcessAddonNoDuplicates(s: State, e: Entry, x: Id)
    requires IsAppAddon(e) && NoDuplicates(AddonIds(s, x))
    ensures NoDuplicates(AddonIds(ProcessAddon(s, e), x))
  {
  }

  /** No group ever lists an add-on id twice. */
  lemma {:induction false} NeverTwice(s: State, es: seq<Entry>, x: Id)
    requires NoDuplicates(AddonIds(s, x))
    ensures NoDuplicates(AddonIds(Run(s, es), x))
  {
    if es != [] {
      var n := |es| - 1;
      NeverTwice(s, es[..n], x);
      var s0, e := Run(s, es[..n]), es[n];
      ProcessAppNoDuplicates(s0, e, x);
      if IsAppAddon(e) {
        ProcessAddonNoDuplicates(if e.isApplication then ProcessApp(s0, e) else s0, e, x);
      }
    }
  }

  /** No add-on is lost, whatever the order and the kinds: what arrived for `x` is what is in its
      group or in one of its two queues. */
  lemma NothingLost(s: State, es: seq<Entry>, x: Id, a: Id)
    requires s.usr == map[] && s.sys == map[]
    ensures a in AddonIds(Run(s, es), x) || a in Pending(Run(s, es), true, x) || a in Pending(Run(s, es), false, x)
       <==> a in AddonIds(s, x) || exists i :: 0 <= i < |es| && AddonFor(es[i], x) && es[i].id == a
  {
    Places(s, es, x, a, true);
    Places(s, es, x, a, false);
    if exists i :: 0 <= i < |es| && AddonFor(es[i], x) && es[i].id == a {
      var i :| 0 <= i < |es| && AddonFor(es[i], x) && es[i].id == a;
      assert Delivered(s, es, i, x) || Waiting(s, es, i, x, es[i].user);
    }
  }

  /** The arrivals of `a` for `x`, of one kind, that still wait. */
  ghost function WaitingArrivals(s: State, es: seq<Entry>, x: Id, a: Id, user: bool): set<nat> {
    set i: nat | i < |es| && es[i].id == a && Waiting(s, es, i, x, user)
  }

  lemma WaitingLater(s: State, es: seq<Entry>, x: Id, a: Id, user: bool)
    requires es != [] && !AppOf(es[|es|-1], x, user)
    ensures var n := |es| - 1;
            var now := AddonFor(es[n], x) && es[n].id == a && es[n].user == user
                       && x !in Run(s, es[..n]).groups && !Creates(es[n], x);
            WaitingArrivals(s, es, x, a, user) ==
              WaitingArrivals(s, es[..n], x, a, user) + if now then {n} else {}
  {
    hide Delivered, AppOf, Run;
    var n := |es| - 1;
    DeliveredNow(s, es, x);
    forall i: nat | i < n
      ensures es[..n][i] == es[i] && (Waiting(s, es, i, x, user) <==> Waiting(s, es[..n], i, x, user))
    {
      DeliveredLater(s, es, i, x);
    }
  }

  lemma NoneWaitsAfterApp(s: State, es: seq<Entry>, x: Id, a: Id, user: bool)
    requires es != [] && AppOf(es[|es|-1], x, user)
    ensures WaitingArrivals(s, es, x, a, user) == {}
  {
    assert Creates(es[|es|-1], x);
  }

  /** The exact multiplicity: a queue has an id once for every arrival of it that still waits. */
  lemma {:induction false} QueueCounts(s: State, es: seq<Entry>, x: Id, a: Id, user: bool)
    requires s.usr == map[] && s.sys == map[]
    ensures multiset(Pending(Run(s, es), user, x))[a] == |WaitingArrivals(s, es, x, a, user)|
    decreases |es|
  {
    hide WaitingArrivals, Step, AddonFor;
    if es == [] {
      NoneWaitsAtFirst(s, x, a, user);
    } else {
      var n := |es| - 1;
      QueueCounts(s, es[..n], x, a, user);
      StepPending(Run(s, es[..n]), es[n], x, user);
      if AppOf(es[n], x, user) {
        NoneWaitsAfterApp(s, es, x, a, user);
      } else {
        WaitingLater(s, es, x, a, user);
        WaitingBelow(s, es[..n], x, a, user);
      }
    }
  }

  lemma NoneWaitsAtFirst(s: State, x: Id, a: Id, user: bool)
    ensures WaitingArrivals(s, [], x, a, user) == {}
  {
  }

  lemma WaitingBelow(s: State, es: seq<Entry>, x: Id, a: Id, user: bool)
    ensures |es| !in WaitingArrivals(s, es, x, a, user)
  {
  }

  /** An id is in the group and in a queue at once exactly when one arrival of it was delivered and
      another one, of the kind of the queue, still waits. */
  lemma InTwoPlaces(s: State, es: seq<Entry>, x: Id, a: Id, user: bool)
    requires s.usr == map[] && s.sys == map[]
    ensures a in AddonIds(Run(s, es), x) && a in Pending(Run(s, es), user, x) <==>
      && (exists i :: 0 <= i < |es| && es[i].id == a && Delivered(s, es, i, x))
      && (exists i :: 0 <= i < |es| && es[i].id == a && Waiting(s, es, i, x, user))
  {
    hide Run, Pending;
    Places(s, es, x, a, user);
  }

  /** Each arrival is in exactly one place: delivered, then the group has its id once; or waiting,
      then the queue of its kind has its id once for it. So an id is in two places exactly when some
      arrival of it was delivered and another one waits. */
  lemma ExactlyOnePlace(s: State, es: seq<Entry>, x: Id, a: Id, user: bool)
    requires s.usr == map[] && s.sys == map[] && NoDuplicates(AddonIds(s, x))
    ensures forall i: nat :: i < |es| && AddonFor(es[i], x) ==>
              Delivered(s, es, i, x) == !Waiting(s, es, i, x, es[i].user)
    ensures multiset(AddonIds(Run(s, es), x))[a] ==
              if a in AddonIds(s, x) || exists i :: 0 <= i < |es| && es[i].id == a && Delivered(s, es, i, x)
              then 1 else 0
    ensures multiset(Pending(Run(s, es), user, x))[a] == |WaitingArrivals(s, es, x, a, user)|
    ensures a in AddonIds(Run(s, es), x) && a in Pending(Run(s, es), user, x) <==>
      && (exists i :: 0 <= i < |es| && es[i].id == a && Delivered(s, es, i, x))
      && (exists i :: 0 <= i < |es| && es[i].id == a && Waiting(s, es, i, x, user))
  {
    hide Run, Pending, NoDuplicates, AddonIds;
    Places(s, es, x, a, user);
    NeverTwice(s, es, x);
    NoDuplicatesMultiset(AddonIds(Run(s, es), x));
    QueueCounts(s, es, x, a, user);
    InTwoPlaces(s, es, x, a, user);
  }

  /** With one installation kind no id is ever in two places. */
  lemma OneKindOnePlace(s: State, es: seq<Entry>, x: Id, a: Id, user: bool, queue: bool)
    requires s.usr == map[] && s.sys == map[] && OneKind(es, x, user)
    ensures a in AddonIds(Run(s, es), x) ==> a !in Pending(Run(s, es), queue, x)
  {
    hide Run, Pending;
    InTwoPlaces(s, es, x, a, queue);
    if exists i :: 0 <= i < |es| && es[i].id == a && Delivered(s, es, i, x) {
      OneDeliveredAllDelivered(s, es, x, user);
    }
  }

  /** With one installation kind the group gets every add-on or none. */
  lemma OneDeliveredAllDelivered(s: State, es: seq<Entry>, x: Id, user: bool)
    requires OneKind(es, x, user) && exists i :: 0 <= i < |es| && Delivered(s, es, i, x)
    ensures forall j: nat :: j < |es| && AddonFor(es[j], x) ==> Delivered(s, es, j, x)
  {
    if x !in s.groups {
      var i :| 0 <= i < |es| && Delivered(s, es, i, x);
      SomeCreator(s, es, i, x);
      var e :| e in es && Creates(e, x);
      var k :| 0 <= k < |es| && es[k] == e;
      assert e.isApplication && e.id == x && e.user == user;
      forall j: nat | j < |es| && AddonFor(es[j], x)
        ensures Delivered(s, es, j, x)
      {
        assert es[j] in es;
        assert AppOf(es[k], x, es[j].user) && Creates(es[k], x);
      }
    }
  }

  /** Entries of one installation kind, among which `x` is only ever an application. */
  ghost predicate OneKind(es: seq<Entry>, x: Id, user: bool) {
    forall e :: e in es ==> e.user == user && (e.id == x ==> !IsAppAddon(e))
  }

  lemma NothingWaits(s: State, es: seq<Entry>, x: Id, user: bool, queue: bool)
    requires s.usr == map[] && s.sys == map[]
    requires OneKind(es, x, user) && exists j :: 0 <= j < |es| && es[j].isApplication && es[j].id == x
    ensures Pending(Run(s, es), queue, x) == []
  {
    hide Run, Pending;
    var j :| 0 <= j < |es| && es[j].isApplication && es[j].id == x;
    forall i: nat | i < |es| && AddonFor(es[i], x)
      ensures Delivered(s, es, i, x)
    {
      assert es[i] in es && es[j] in es;
      assert Creates(es[j], x) && AppOf(es[j], x, es[i].user);
    }
    forall a
      ensures a !in Pending(Run(s, es), queue, x)
    {
      Places(s, es, x, a, queue);
    }
    EmptyOrFirst(Pending(Run(s, es), queue, x));
  }

  lemma EmptyOrFirst(q: seq<Id>)
    ensures q == [] || q[0] in q
  {
  }

  lemma ArrivedAppHasAll(s: State, es: seq<Entry>, x: Id, user: bool, a: Id)
    requires s.usr == map[] && s.sys == map[]
    requires OneKind(es, x, user) && exists j :: 0 <= j < |es| && es[j].isApplication && es[j].id == x
    ensures a in AddonIds(Run(s, es), x)
       <==> a in AddonIds(s, x) || exists e :: e in es && AddonFor(e, x) && e.id == a
    ensures Pending(Run(s, es), true, x) == [] && Pending(Run(s, es), false, x) == []
  {
    NothingWaits(s, es, x, user, true);
    NothingWaits(s, es, x, user, false);
    Places(s, es, x, a, user);
    var j :| 0 <= j < |es| && es[j].isApplication && es[j].id == x;
    assert es[j] in es && Creates(es[j], x);
    if exists e :: e in es && AddonFor(e, x) && e.id == a {
      var e :| e in es && AddonFor(e, x) && e.id == a;
      var i :| 0 <= i < |es| && es[i] == e;
      assert j <= i || AppOf(es[j], x, es[i].user);
      assert Delivered(s, es, i, x);
    }
  }

  /** With one installation kind the add-ons that an arrived application ends with do not depend
      on the order in which entries arrive. */
  lemma OrderIndependent(s: State, es: seq<Entry>, fs: seq<Entry>, x: Id, user: bool)
    requires s.usr == map[] && s.sys == map[] && NoDuplicates(AddonIds(s, x))
    requires multiset(es) == multiset(fs)
    requires OneKind(es, x, user) && exists j :: 0 <= j < |es| && es[j].isApplication && es[j].id == x
    ensures multiset(AddonIds(Run(s, es), x)) == multiset(AddonIds(Run(s, fs), x))
  {
    SameMembers(es, fs);
    var j :| 0 <= j < |es| && es[j].isApplication && es[j].id == x;
    assert es[j] in fs;
    var k :| 0 <= k < |fs| && fs[k] == es[j];
    assert fs[k].isApplication && fs[k].id == x;
    NeverTwice(s, es, x);
    NeverTwice(s, fs, x);
    forall a
      ensures a in AddonIds(Run(s, es), x) <==> a in AddonIds(Run(s, fs), x)
    {
      ArrivedAppHasAll(s, es, x, user, a);
      ArrivedAppHasAll(s, fs, x, user, a);
    }
    SameSetSameMultiset(AddonIds(Run(s, es), x), AddonIds(Run(s, fs), x));
  }

  // ----- when the order matters

  /** In whatever order the entries arrive, some arrival of `a` reaches the group of `x`: one that
      creates the group, or one that has an application entry of its own kind. */
  ghost predicate Settles(es: seq<Entry>, x: Id, a: Id) {
    exists e :: e in es && AddonFor(e, x) && e.id == a && (Creates(e, x) || exists f :: f in es && AppOf(f, x, e.user))
  }

  ghost predicate Arrives(es: seq<Entry>, x: Id, a: Id) {
    exists e :: e in es && AddonFor(e, x) && e.id == a
  }

  /** The group is there from the start, or never, or every add-on settles in any order. */
  ghost predicate OrderFree(s: State, es: seq<Entry>, x: Id) {
    || x in s.groups
    || (forall e :: e in es ==> !Creates(e, x))
    || (forall a :: Arrives(es, x, a) ==> Settles(es, x, a))
  }

  lemma GroupIfFree(s: State, es: seq<Entry>, x: Id, a: Id)
    requires s.usr == map[] && s.sys == map[] && OrderFree(s, es, x)
    ensures a in AddonIds(Run(s, es), x) <==>
      a in AddonIds(s, x) || (Arrives(es, x, a) && (x in s.groups || exists e :: e in es && Creates(e, x)))
  {
    hide Run, OrderFree;
    Places(s, es, x, a, true);
    if i :| 0 <= i < |es| && es[i].id == a && Delivered(s, es, i, x) {
      assert es[i] in es;
      SomeCreator(s, es, i, x);
    }
    if Arrives(es, x, a) && (x in s.groups || exists e :: e in es && Creates(e, x)) {
      var i := SettledArrival(s, es, x, a);
    }
  }

  lemma SomeCreator(s: State, es: seq<Entry>, i: nat, x: Id)
    requires Delivered(s, es, i, x)
    ensures x in s.groups || exists e :: e in es && Creates(e, x)
  {
    if x !in s.groups {
      var j :| 0 <= j < |es| && Creates(es[j], x);
      assert es[j] in es;
    }
  }

  lemma SettledArrival(s: State, es: seq<Entry>, x: Id, a: Id) returns (i: nat)
    requires OrderFree(s, es, x) && Arrives(es, x, a) && (x in s.groups || exists e :: e in es && Creates(e, x))
    ensures i < |es| && es[i].id == a && Delivered(s, es, i, x)
  {
    if x in s.groups {
      i :| 0 <= i < |es| && AddonFor(es[i], x) && es[i].id == a;
    } else {
      assert Settles(es, x, a);
      var e :| e in es && AddonFor(e, x) && e.id == a && (Creates(e, x) || exists f :: f in es && AppOf(f, x, e.user));
      i :| 0 <= i < |es| && es[i] == e;
      if !Creates(e, x) {
        var f :| f in es && AppOf(f, x, e.user);
        var j :| 0 <= j < |es| && es[j] == f;
        assert Creates(es[j], x);
      }
    }
  }

  lemma FreePermuted(s: State, es: seq<Entry>, fs: seq<Entry>, x: Id)
    requires multiset(es) == multiset(fs)
    ensures OrderFree(s, es, x) <==> OrderFree(s, fs, x)
    ensures forall a :: Arrives(es, x, a) <==> Arrives(fs, x, a)
  {
    hide IsAppAddon, ExtendedApp;
    SameMembers(es, fs);
    assert forall a :: Settles(es, x, a) <==> Settles(fs, x, a);
  }

  function Of(es: seq<Entry>, x: Id, a: Id, arrivals: bool): seq<Entry> {
    if es == [] then []
    else
      (if (AddonFor(es[0], x) && es[0].id == a) == arrivals then [es[0]] else []) + Of(es[1..], x, a, arrivals)
  }

  lemma {:induction false} OfMembers(es: seq<Entry>, x: Id, a: Id)
    ensures forall e :: e in Of(es, x, a, true) <==> e in es && AddonFor(e, x) && e.id == a
    ensures forall e :: e in Of(es, x, a, false) <==> e in es && !(AddonFor(e, x) && e.id == a)
    ensures multiset(Of(es, x, a, true) + Of(es, x, a, false)) == multiset(es)
  {
    hide AddonFor;
    if es != [] {
      OfMembers(es[1..], x, a);
      assert es == [es[0]] + es[1..];
    }
  }

  /** An add-on that does not settle: with its arrivals first it stays in the queues, with them
      last it is in the group. */
  lemma TwoOrders(s: State, es: seq<Entry>, x: Id, a: Id)
    requires s.usr == map[] && s.sys == map[] && x !in s.groups
    requires Arrives(es, x, a) && !Settles(es, x, a) && exists e :: e in es && Creates(e, x)
    ensures var arrivals, others := Of(es, x, a, true), Of(es, x, a, false);
            && a !in AddonIds(Run(s, arrivals + others), x)
            && a in AddonIds(Run(s, others + arrivals), x)
  {
    hide Run;
    var arrivals, others := Of(es, x, a, true), Of(es, x, a, false);
    OfMembers(es, x, a);
    Places(s, arrivals + others, x, a, true);
    Places(s, others + arrivals, x, a, true);
    ArrivalsFirst(s, es, x, a);
    ArrivalsLast(s, es, x, a);
  }

  lemma ArrivalsFirst(s: State, es: seq<Entry>, x: Id, a: Id)
    requires x !in s.groups && !Settles(es, x, a)
    ensures var fs := Of(es, x, a, true) + Of(es, x, a, false);
            forall i: nat :: i < |fs| && fs[i].id == a ==> !Delivered(s, fs, i, x)
  {
    hide Of, IsAppAddon, ExtendedApp;
    var arrivals, others := Of(es, x, a, true), Of(es, x, a, false);
    var fs := arrivals + others;
    OfMembers(es, x, a);
    forall i: nat | i < |fs| && fs[i].id == a && AddonFor(fs[i], x)
      ensures !Delivered(s, fs, i, x)
    {
      InFirstPart(arrivals, others, i);
      assert forall j :: 0 <= j < |fs| ==> fs[j] in es;
      assert forall j :: 0 <= j <= i ==> fs[j] in arrivals;
    }
  }

  lemma InFirstPart(a: seq<Entry>, b: seq<Entry>, i: nat)
    requires i < |a + b|
    ensures i < |a| || (a + b)[i] in b
  {
    if i >= |a| {
      assert (a + b)[i] == b[i-|a|];
    }
  }

  lemma ArrivalsLast(s: State, es: seq<Entry>, x: Id, a: Id)
    requires Arrives(es, x, a) && !Settles(es, x, a) && exists e :: e in es && Creates(e, x)
    ensures var fs := Of(es, x, a, false) + Of(es, x, a, true);
            exists i :: 0 <= i < |fs| && fs[i].id == a && Delivered(s, fs, i, x)
  {
    hide Of, IsAppAddon, ExtendedApp;
    var arrivals, others := Of(es, x, a, true), Of(es, x, a, false);
    var fs := others + arrivals;
    OfMembers(es, x, a);
    var c :| c in es && Creates(c, x);
    assert c in others;
    var j :| 0 <= j < |others| && others[j] == c;
    var e :| e in es && AddonFor(e, x) && e.id == a;
    assert e in arrivals;
    var i :| 0 <= i < |arrivals| && arrivals[i] == e;
    assert fs[|others| + i] == e && fs[j] == c;
    assert Delivered(s, fs, |others| + i, x);
  }

  /** The exact condition: the add-ons that the application ends with are the same for every order
      of arrival exactly when the group was there from the start, or is never made, or every
      add-on for it has an arrival that settles in any order. */
  lemma OrderIrrelevantExactly(s: State, es: seq<Entry>, x: Id)
    requires s.usr == map[] && s.sys == map[] && NoDuplicates(AddonIds(s, x))
    ensures OrderFree(s, es, x) <==>
      forall fs | multiset(fs) == multiset(es) :: multiset(AddonIds(Run(s, fs), x)) == multiset(AddonIds(Run(s, es), x))
  {
    hide Run, AddonIds, NoDuplicates, Settles, Arrives, IsAppAddon, ExtendedApp, Of;
    if OrderFree(s, es, x) {
      forall fs | multiset(fs) == multiset(es)
        ensures multiset(AddonIds(Run(s, fs), x)) == multiset(AddonIds(Run(s, es), x))
      {
        FreeOrder(s, es, fs, x);
      }
    } else {
      var a :| Arrives(es, x, a) && !Settles(es, x, a);
      TwoOrders(s, es, x, a);
      OfMembers(es, x, a);
      var arrivals, others := Of(es, x, a, true), Of(es, x, a, false);
      assert multiset(others + arrivals) == multiset(arrivals + others) == multiset(es);
      assert a in multiset(AddonIds(Run(s, others + arrivals), x));
      assert a !in multiset(AddonIds(Run(s, arrivals + others), x));
    }
  }

  lemma FreeOrder(s: State, es: seq<Entry>, fs: seq<Entry>, x: Id)
    requires s.usr == map[] && s.sys == map[] && NoDuplicates(AddonIds(s, x))
    requires OrderFree(s, es, x) && multiset(fs) == multiset(es)
    ensures multiset(AddonIds(Run(s, fs), x)) == multiset(AddonIds(Run(s, es), x))
  {
    hide Run, AddonIds, NoDuplicates, OrderFree, Arrives;
    FreePermuted(s, es, fs, x);
    SameMembers(es, fs);
    NeverTwice(s, es, x);
    NeverTwice(s, fs, x);
    forall a
      ensures a in AddonIds(Run(s, fs), x) <==> a in AddonIds(Run(s, es), x)
    {
      GroupIfFree(s, es, x, a);
      GroupIfFree(s, fs, x, a);
    }
    SameSetSameMultiset(AddonIds(Run(s, fs), x), AddonIds(Run(s, es), x));
  }

  const NOTHING := State(map[], map[], map[])

  /** Nothing guards a queue against an id that is already in it: the same add-on from two remotes,
      before its application, is queued twice. */
  lemma QueuedTwice(addon: Entry)
    requires IsAppAddon(addon) && !addon.isApplication && addon.id != ExtendedApp(addon)
    ensures Pending(Run(NOTHING, [addon, addon]), addon.user, ExtendedApp(addon)) == [addon.id, addon.id]
  {
    var x := ExtendedApp(addon);
    assert [addon, addon][..1] == [addon] && [addon][..0] == [];
    assert Run(NOTHING, []) == NOTHING;
    assert Run(NOTHING, [addon]) == Step(NOTHING, addon);
    var s := Run(NOTHING, [addon]);
    StepPending(NOTHING, addon, x, addon.user);
    StepGroups(NOTHING, addon, x);
    StepPending(s, addon, x, addon.user);
    assert Run(NOTHING, [addon, addon]) == Step(s, addon);
  }

  /** And with two kinds an id can be in two places: a user add-on that came before the system
      application still waits when the system add-on of the same id is delivered. */
  lemma TwoPlacesAtOnce(addon: Entry, app: Entry)
    requires IsAppAddon(addon) && addon.user && !addon.isApplication && addon.id != app.id
    requires app.isApplication && !IsAppAddon(app) && !app.user && ExtendedApp(addon) == app.id
    ensures var s := Run(NOTHING, [addon, app, addon.(user := false)]);
            addon.id in AddonIds(s, app.id) && Pending(s, true, app.id) == [addon.id]
  {
    var x, other := app.id, addon.(user := false);
    var es := [addon, app, other];
    assert es[..2] == [addon, app] && IsAppAddon(other) && ExtendedApp(other) == x;
    MixedKindsDependOnOrder(addon, app);
    var s := Run(NOTHING, [addon, app]);
    RunGroups(NOTHING, [addon, app], x);
    assert GroupThere(NOTHING, [addon, app], 1, x) by {
      assert Creates([addon, app][1], x);
    }
    StepAddons(s, other, x, addon.id);
    StepPending(s, other, x, true);
  }

  /** With two kinds it does: a user add-on that comes before a system application is left behind
      in the user queue, while coming after it, it is shown. */
  lemma MixedKindsDependOnOrder(addon: Entry, app: Entry)
    requires IsAppAddon(addon) && addon.user && !addon.isApplication && addon.id != app.id
    requires app.isApplication && !IsAppAddon(app) && !app.user && ExtendedApp(addon) == app.id
    ensures AddonIds(Run(NOTHING, [addon, app]), app.id) == []
    ensures Pending(Run(NOTHING, [addon, app]), true, app.id) == [addon.id]
    ensures AddonIds(Run(NOTHING, [app, addon]), app.id) == [addon.id]
  {
    var x := app.id;
    var early, late := [addon, app], [app, addon];
    assert early[..1] == [addon] && late[..1] == [app];
    assert [addon][..0] == [] && [app][..0] == [];
    assert Run(NOTHING, [addon]) == Step(NOTHING, addon);
    assert Run(NOTHING, [app]) == Step(NOTHING, app);
    StepPending(NOTHING, addon, x, true);
    StepPending(Run(NOTHING, [addon]), app, x, true);
  }

  // ----- the application object

  class BzApplication {
    var addonGroupIds: map<Id, seq<Id>>
    var usrRefToAddonGroupIds: map<Id, seq<Id>>
    var sysRefToAddonGroupIds: map<Id, seq<Id>>

    ghost function Abs(): State
      reads this
    {
      State(addonGroupIds, usrRefToAddonGroupIds, sysRefToAddonGroupIds)
    }

    method EnsureGroupAndAdd(id: Id)
      modifies this`addonGroupIds
      ensures Abs() == Ensure(old(Abs()), id)
    {
      if id !in addonGroupIds {
        addonGroupIds := addonGroupIds[id := []];
      }
    }

    method AppendAddonGroupId(x: Id, id: Id)
      requires x in addonGroupIds
      modifies this`addonGroupIds
      ensures addonGroupIds == old(addonGroupIds)[x := Append(old(addonGroupIds)[x], id)]
    {
      if id !in addonGroupIds[x] {
        addonGroupIds := addonGroupIds[x := addonGroupIds[x] + [id]];
      }
    }

    method DrainInto(x: Id, pending: seq<Id>)
      requires x in addonGroupIds
      modifies this`addonGroupIds
      ensures addonGroupIds == old(addonGroupIds)[x := AppendAll(old(addonGroupIds)[x], pending)]
    {
      ghost var g := addonGroupIds;
      for i := 0 to |pending|
        invariant addonGroupIds == g[x := AppendAll(g[x], pending[..i])]
      {
        PrefixStep(pending, i);
        AppendAddonGroupId(x, pending[i]);
      }
      assert pending[..|pending|] == pending;
    }

    method ReplaceEntry(entry: Entry)
      modifies this
      ensures Abs() == Step(old(Abs()), entry)
    {
      if entry.isApplication {
        EnsureGroupAndAdd(entry.id);
        if entry.user {
          if entry.id in usrRefToAddonGroupIds {
            DrainInto(entry.id, usrRefToAddonGroupIds[entry.id]);
            usrRefToAddonGroupIds := usrRefToAddonGroupIds - {entry.id};
          }
        } else if entry.id in sysRefToAddonGroupIds {
          DrainInto(entry.id, sysRefToAddonGroupIds[entry.id]);
          sysRefToAddonGroupIds := sysRefToAddonGroupIds - {entry.id};
        }
      }
      if IsAppAddon(entry) {
        EnsureGroupAndAdd(entry.id);
        var x := ExtendedApp(entry);
        if x in addonGroupIds {
          AppendAddonGroupId(x, entry.id);
        } else if entry.user {
          var pending := if x in usrRefToAddonGroupIds then usrRefToAddonGroupIds[x] else [];
          usrRefToAddonGroupIds := usrRefToAddonGroupIds[x := pending + [entry.id]];
        } else {
          var pending := if x in sysRefToAddonGroupIds then sysRefToAddonGroupIds[x] else [];
          sysRefToAddonGroupIds := sysRefToAddonGroupIds[x := pending + [entry.id]];
        }
      }
    }
  }
}
