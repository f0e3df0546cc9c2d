/** Putting the reviewed screenshots into the generated AppStream tree, and the check that refuses
    a tree whose screenshots differ from them. */
module ReleaseScreenshots {
  import opened Order

  /** An XML element; `text` is `None` when it has none. */
  datatype Elem = Elem(tag: string, attrib: map<string, string>, text: Option<string>, children: seq<Elem>)

  /** A staged screenshot, with its size already in decimal. */
  datatype Shot = Shot(url: string, caption: string, width: string, height: string)

  datatype Outcome = Fine(root: Elem) | Refused(reason: string)

  // ----- finding components

  /** findtext: the text of the first child with the tag, "" when that child has no text. */
  function FindText(e: Elem, tag: string): Option<string> {
    FindTextFrom(e.children, tag)
  }

  function FindTextFrom(children: seq<Elem>, tag: string): Option<string> {
    if children == [] then None
    else if children[0].tag == tag then Some(if children[0].text.Some? then children[0].text.value else "")
    else FindTextFrom(children[1..], tag)
  }

  function FindAll(children: seq<Elem>, tag: string): seq<Elem> {
    if children == [] then []
    else FindAll(children[..|children|-1], tag)
         + if children[|children|-1].tag == tag then [children[|children|-1]] else []
  }

  function Without(children: seq<Elem>, tag: string): seq<Elem> {
    if children == [] then []
    else Without(children[..|children|-1], tag)
         + if children[|children|-1].tag == tag then [] else [children[|children|-1]]
  }

  predicate IsComponent(e: Elem, appId: string) {
    e.tag == "component" && FindText(e, "id") == Some(appId)
  }

  /** The position of the component that the dictionary holds for an id: the last of several. */
  function ComponentIndex(children: seq<Elem>, appId: string): (r: Option<nat>)
    ensures r.Some? ==> r.value < |children| && IsComponent(children[r.value], appId)
    ensures forall k :: (if r.Some? then r.value else -1) < k < |children| ==> !IsComponent(children[k], appId)
  {
    if children == [] then None
    else if IsComponent(children[|children|-1], appId) then Some(|children| - 1)
    else ComponentIndex(children[..|children|-1], appId)
  }

  // ----- the container that replaces the old screenshots

  function ShotElem(shot: Shot, first: bool): Elem {
    Elem("screenshot", if first then map["type" := "default"] else map[], None,
         [Elem("caption", map[], Some(shot.caption), []),
          Elem("image", map["type" := "source", "width" := shot.width, "height" := shot.height], Some(shot.url), [])])
  }

  function ShotElems(shots: seq<Shot>, n: nat): seq<Elem>
    requires n <= |shots|
  {
    if n == 0 then [] else ShotElems(shots, n - 1) + [ShotElem(shots[n - 1], n == 1)]
  }

  const SCREENSHOTS := "screenshots"

  function Container(shots: seq<Shot>): Elem {
    Elem(SCREENSHOTS, map[], None, ShotElems(shots, |shots|))
  }

  function WithShots(component: Elem, shots: seq<Shot>): Elem {
    component.(children := Without(component.children, SCREENSHOTS) + [Container(shots)])
  }

  /** The items of a dictionary, in order: no id twice. */
  type Selection = seq<(string, seq<Shot>)>

  ghost predicate DistinctKeys(s: Selection) {
    forall i, j :: 0 <= i < j < |s| ==> s[i].0 != s[j].0
  }

  function ApplyTo(root: Elem, selection: Selection): Outcome {
    if selection == [] then Fine(root)
    else
      var before := ApplyTo(root, selection[..|selection|-1]);
      if before.Refused? then before
      else
        var (appId, shots) := selection[|selection|-1];
        var i := ComponentIndex(root.children, appId);
        if i.None? || shots == [] then Refused(appId)
        else if i.value >= |before.root.children| then Refused(appId)
        else Fine(before.root.(children :=
                                before.root.children[i.value := WithShots(before.root.children[i.value], shots)]))
  }

  // ----- the check

  /** The texts of component/screenshots/screenshot/image. */
  function ImageTexts(component: Elem): seq<Option<string>> {
    InScreenshots(FindAll(component.children, SCREENSHOTS))
  }

  function InScreenshots(containers: seq<Elem>): seq<Option<string>> {
    if containers == [] then []
    else InScreenshots(containers[..|containers|-1])
         + InShots(FindAll(containers[|containers|-1].children, "screenshot"))
  }

  function InShots(shots: seq<Elem>): seq<Option<string>> {
    if shots == [] then []
    else InShots(shots[..|shots|-1]) + Texts(FindAll(shots[|shots|-1].children, "image"))
  }

  function Texts(images: seq<Elem>): seq<Option<string>> {
    if images == [] then [] else Texts(images[..|images|-1]) + [images[|images|-1].text]
  }

  function Expected(shots: seq<Shot>, n: nat): seq<Option<string>>
    requires n <= |shots|
  {
    if n == 0 then [] else Expected(shots, n - 1) + [Some(shots[n - 1].url)]
  }

  /** The screenshot part of validate_appstream_checkout for one application. */
  predicate Accepts(root: Elem, appId: string, shots: seq<Shot>) {
    var i := ComponentIndex(root.children, appId);
    i.Some? && shots != [] && ImageTexts(root.children[i.value]) == Expected(shots, |shots|)
  }

  // ----- one component

  lemma AppendFound(children: seq<Elem>, e: Elem, tag: string)
    ensures FindAll(children + [e], tag) == FindAll(children, tag) + if e.tag == tag then [e] else []
    ensures Without(children + [e], tag) == Without(children, tag) + if e.tag == tag then [] else [e]
  {
  }

  lemma {:induction false} FindAllWithout(children: seq<Elem>, tag: string, other: string)
    ensures FindAll(Without(children, tag), other) == if other == tag then [] else FindAll(children, other)
    ensures Without(Without(children, tag), tag) == Without(children, tag)
  {
    if children != [] {
      var before, last := children[..|children|-1], children[|children|-1];
      assert children == before + [last];
      FindAllWithout(before, tag, other);
      var rest := Without(before, tag);
      AppendFound(before, last, other);
      AppendFound(before, last, tag);
      AppendFound(rest, last, other);
      AppendFound(rest, last, tag);
      assert rest + [] == rest && FindAll(before, other) + [] == FindAll(before, other);
    }
  }

  lemma {:induction false} FindTextSame(a: seq<Elem>, b: seq<Elem>, tag: string)
    requires FindAll(a, tag) == FindAll(b, tag)
    ensures FindTextFrom(a, tag) == FindTextFrom(b, tag)
  {
    FirstFound(a, tag);
    FirstFound(b, tag);
  }

  lemma {:induction false} FirstFound(a: seq<Elem>, tag: string)
    ensures FindTextFrom(a, tag) ==
      if FindAll(a, tag) == [] then None
      else Some(if FindAll(a, tag)[0].text.Some? then FindAll(a, tag)[0].text.value else "")
  {
    if a != [] {
      FirstFound(a[1..], tag);
      FindAllFront(a, tag);
    }
  }

  lemma {:induction false} FindAllFront(a: seq<Elem>, tag: string)
    requires a != []
    ensures FindAll(a, tag) == (if a[0].tag == tag then [a[0]] else []) + FindAll(a[1..], tag)
  {
    if |a| > 1 {
      var n := |a| - 1;
      FindAllFront(a[..n], tag);
      assert a[..n][1..] == a[1..][..n-1];
    }
  }

  /** Replacing the screenshots of a component keeps every other child, its id, its attributes. */
  lemma WithShotsKeeps(c: Elem, shots: seq<Shot>, tag: string)
    requires tag != SCREENSHOTS
    ensures Without(WithShots(c, shots).children, SCREENSHOTS) == Without(c.children, SCREENSHOTS)
    ensures FindAll(WithShots(c, shots).children, tag) == FindAll(c.children, tag)
    ensures FindText(WithShots(c, shots), tag) == FindText(c, tag)
    ensures WithShots(c, shots).(children := c.children) == c
  {
    var kept := Without(c.children, SCREENSHOTS);
    FindAllWithout(c.children, SCREENSHOTS, tag);
    AppendFound(kept, Container(shots), tag);
    AppendFound(kept, Container(shots), SCREENSHOTS);
    assert kept + [] == kept;
    assert FindAll(c.children, tag) + [] == FindAll(c.children, tag);
    FindTextSame(c.children, WithShots(c, shots).children, tag);
  }

  lemma {:induction false} ShotElemsFound(shots: seq<Shot>, n: nat)
    requires n <= |shots|
    ensures FindAll(ShotElems(shots, n), "screenshot") == ShotElems(shots, n)
    ensures InShots(ShotElems(shots, n)) == Expected(shots, n)
  {
    if n > 0 {
      ShotElemsFound(shots, n - 1);
      var before, last := ShotElems(shots, n - 1), ShotElem(shots[n - 1], n == 1);
      AppendFound(before, last, "screenshot");
      assert (before + [last])[..|before|] == before;
      var caption, image := last.children[0], last.children[1];
      assert last.children == [caption] + [image];
      AppendFound([caption], image, "image");
      AppendFound([], caption, "image");
      assert [] + [caption] == [caption];
      assert FindAll([], "image") + [] == [];
      assert [] + [image] == [image];
      TextsOne(image);
    }
  }

  lemma TextsOne(image: Elem)
    ensures Texts([image]) == [image.text]
  {
  }

  /** The check finds in a rewritten component exactly the reviewed set, in order. */
  lemma WithShotsAccepted(c: Elem, shots: seq<Shot>)
    ensures ImageTexts(WithShots(c, shots)) == Expected(shots, |shots|)
  {
    hide Container, Expected, ShotElems;
    var kept := Without(c.children, SCREENSHOTS);
    FindAllWithout(c.children, SCREENSHOTS, SCREENSHOTS);
    AppendFound(kept, Container(shots), SCREENSHOTS);
    ContainerTag(shots);
    assert [] + [Container(shots)] == [Container(shots)];
    InOneContainer(Container(shots));
    ShotElemsFound(shots, |shots|);
  }

  lemma ContainerTag(shots: seq<Shot>)
    ensures Container(shots).tag == SCREENSHOTS && Container(shots).children == ShotElems(shots, |shots|)
  {
  }

  lemma InOneContainer(c: Elem)
    ensures InScreenshots([c]) == InShots(FindAll(c.children, "screenshot"))
  {
  }

  lemma WithShotsTwice(c: Elem, old_shots: seq<Shot>, shots: seq<Shot>)
    ensures WithShots(WithShots(c, old_shots), shots) == WithShots(c, shots)
  {
    var kept := Without(c.children, SCREENSHOTS);
    FindAllWithout(c.children, SCREENSHOTS, SCREENSHOTS);
    AppendFound(kept, Container(old_shots), SCREENSHOTS);
    assert kept + [] == kept;
  }

  // ----- the whole tree

  /** The reviewed set for the component at position `k`, if it is a selected one. */
  ghost predicate SelectedAt(root: Elem, selection: Selection, k: int, j: int) {
    && 0 <= j < |selection| && ComponentIndex(root.children, selection[j].0).Some?
    && ComponentIndex(root.children, selection[j].0).value == k
  }

  /** `r` is the tree with each selected component rewritten with its reviewed set, and nothing
      else changed. */
  ghost predicate Rewritten(root: Elem, selection: Selection, r: Elem) {
    && r.(children := root.children) == root && |r.children| == |root.children|
    && (forall k, j :: SelectedAt(root, selection, k, j) ==>
         r.children[k] == WithShots(root.children[k], selection[j].1))
    && (forall k :: 0 <= k < |root.children| && (forall j :: !SelectedAt(root, selection, k, j)) ==>
         r.children[k] == root.children[k])
  }

  lemma SameComponents(a: Elem, b: Elem, appId: string)
    requires |a.children| == |b.children|
    requires forall k :: 0 <= k < |a.children| ==>
               IsComponent(a.children[k], appId) == IsComponent(b.children[k], appId)
    ensures ComponentIndex(a.children, appId) == ComponentIndex(b.children, appId)
  {
  }

  lemma TwoIdsTwoComponents(root: Elem, selection: Selection, k: int, i: int, j: int)
    requires DistinctKeys(selection) && SelectedAt(root, selection, k, i) && SelectedAt(root, selection, k, j)
    ensures i == j
  {
  }

  /** Success rewrites each selected component with its reviewed set and nothing else; failure is
      exactly a selected id with no component or no screenshots. */
  lemma {:induction false} ApplyMeaning(root: Elem, selection: Selection)
    requires DistinctKeys(selection)
    ensures ApplyTo(root, selection).Fine? <==>
      forall j :: 0 <= j < |selection| ==> ComponentIndex(root.children, selection[j].0).Some? && selection[j].1 != []
    ensures ApplyTo(root, selection).Fine? ==> Rewritten(root, selection, ApplyTo(root, selection).root)
  {
    hide WithShots, Rewritten, ComponentIndex;
    if selection != [] {
      var n := |selection| - 1;
      var before := selection[..n];
      assert forall j :: 0 <= j < n ==> selection[j] == before[j];
      ApplyMeaning(root, before);
      if ApplyTo(root, before).Fine? {
        SameLength(root, before, ApplyTo(root, before).root);
      }
      ApplyLast(root, selection);
      hide ApplyTo;
      if ApplyTo(root, selection).Fine? {
        ApplyStep(root, selection);
      }
    } else {
      NothingRewritten(root);
    }
  }

  lemma ApplyLast(root: Elem, selection: Selection)
    requires selection != []
    requires var before := ApplyTo(root, selection[..|selection|-1]);
      before.Fine? ==> |before.root.children| == |root.children|
    ensures var (appId, shots) := selection[|selection|-1];
            ApplyTo(root, selection).Fine? <==>
              && ApplyTo(root, selection[..|selection|-1]).Fine?
              && ComponentIndex(root.children, appId).Some? && shots != []
  {
    hide WithShots;
  }

  lemma SameLength(root: Elem, selection: Selection, r: Elem)
    requires Rewritten(root, selection, r)
    ensures |r.children| == |root.children|
  {
  }

  lemma NothingRewritten(root: Elem)
    ensures Rewritten(root, [], root)
  {
  }

  /** Which components the last selected id, at `i`, adds to those selected before. */
  lemma SelectedLast(root: Elem, selection: Selection, i: nat)
    requires DistinctKeys(selection) && selection != []
    requires SelectedAt(root, selection, i, |selection| - 1)
    ensures forall k, j :: SelectedAt(root, selection, k, j) && j < |selection| - 1 ==>
      SelectedAt(root, selection[..|selection|-1], k, j) && k != i
    ensures forall k, j :: SelectedAt(root, selection[..|selection|-1], k, j) ==>
        SelectedAt(root, selection, k, j) && k != i
  {
    hide ComponentIndex;
    var n := |selection| - 1;
    forall k, j | 0 <= j < n
      ensures SelectedAt(root, selection, k, j) <==> SelectedAt(root, selection[..n], k, j)
      ensures SelectedAt(root, selection, k, j) ==> k != i
    {
      assert selection[j] == selection[..n][j];
      if SelectedAt(root, selection, k, j) && k == i {
        TwoIdsTwoComponents(root, selection, i, j, n);
      }
    }
  }

  lemma RewriteOne(root: Elem, selection: Selection, q: Elem, i: nat)
    requires DistinctKeys(selection) && selection != [] && SelectedAt(root, selection, i, |selection| - 1) &&
        i < |q.children|
    requires Rewritten(root, selection[..|selection|-1], q)
    ensures Rewritten(root, selection,
                      q.(children := q.children[i := WithShots(q.children[i], selection[|selection|-1].1)]))
  {
    hide WithShots, ComponentIndex;
    var n := |selection| - 1;
    var r := q.(children := q.children[i := WithShots(q.children[i], selection[n].1)]);
    SelectedLast(root, selection, i);
    assert q.children[i] == root.children[i];
    forall k, j | SelectedAt(root, selection, k, j)
      ensures r.children[k] == WithShots(root.children[k], selection[j].1)
    {
      if j < n {
        assert selection[j] == selection[..n][j];
      }
    }
    forall k | 0 <= k < |root.children| && forall j :: !SelectedAt(root, selection, k, j)
      ensures r.children[k] == root.children[k]
    {
      assert !SelectedAt(root, selection, k, n);
      forall j
        ensures !SelectedAt(root, selection[..n], k, j)
      {
        assert !SelectedAt(root, selection, k, j);
      }
    }
  }

  /** The last selected component of ApplyMeaning. */
  lemma ApplyStep(root: Elem, selection: Selection)
    requires DistinctKeys(selection) && selection != [] && ApplyTo(root, selection).Fine?
    requires ApplyTo(root, selection[..|selection|-1]).Fine?
    requires Rewritten(root, selection[..|selection|-1], ApplyTo(root, selection[..|selection|-1]).root)
    ensures Rewritten(root, selection, ApplyTo(root, selection).root)
  {
    hide WithShots, Rewritten, ComponentIndex;
    var i := ComponentIndex(root.children, selection[|selection|-1].0).value;
    RewriteOne(root, selection, ApplyTo(root, selection[..|selection|-1]).root, i);
  }

  lemma ComponentsKept(root: Elem, selection: Selection, appId: string)
    requires DistinctKeys(selection) && ApplyTo(root, selection).Fine?
    ensures |ApplyTo(root, selection).root.children| == |root.children|
    ensures ComponentIndex(ApplyTo(root, selection).root.children, appId) == ComponentIndex(root.children, appId)
  {
    hide WithShots, ComponentIndex;
    ApplyMeaning(root, selection);
    var r := ApplyTo(root, selection).root;
    forall k | 0 <= k < |root.children|
      ensures IsComponent(r.children[k], appId) == IsComponent(root.children[k], appId)
    {
      if exists j :: SelectedAt(root, selection, k, j) {
        var j :| SelectedAt(root, selection, k, j);
        ComponentStays(root.children[k], selection[j].1, appId);
      }
    }
    SameComponents(r, root, appId);
  }

  lemma ComponentStays(c: Elem, shots: seq<Shot>, appId: string)
    ensures IsComponent(WithShots(c, shots), appId) == IsComponent(c, appId)
  {
    WithShotsKeeps(c, shots, "id");
  }

  /** After success the check accepts every selected application, even when the tree has several
      components of the same id. */
  lemma AppliedIsAccepted(root: Elem, selection: Selection, j: nat)
    requires DistinctKeys(selection) && ApplyTo(root, selection).Fine? && j < |selection|
    ensures Accepts(ApplyTo(root, selection).root, selection[j].0, selection[j].1)
  {
    hide WithShots, ComponentIndex, ImageTexts, Expected;
    ApplyMeaning(root, selection);
    ComponentsKept(root, selection, selection[j].0);
    var i := ComponentIndex(root.children, selection[j].0).value;
    assert SelectedAt(root, selection, i, j);
    WithShotsAccepted(root.children[i], selection[j].1);
  }

  /** A screenshot element says all that was reviewed; the first one is the default. */
  ghost predicate IsShot(e: Elem, shot: Shot, first: bool) {
    && e.tag == "screenshot" && e.text.None? && |e.children| == 2
    && e.attrib == (if first then map["type" := "default"] else map[])
    && e.children[0] == Elem("caption", map[], Some(shot.caption), [])
    && e.children[1].tag == "image" && e.children[1].text == Some(shot.url) && e.children[1].children == []
    && e.children[1].attrib == map["type" := "source", "width" := shot.width, "height" := shot.height]
  }

  ghost predicate HoldsShots(container: Elem, shots: seq<Shot>) {
    && container.tag == "screenshots" && container.attrib == map[] && container.text.None?
    && |container.children| == |shots|
    && forall n :: 0 <= n < |shots| ==> IsShot(container.children[n], shots[n], n == 0)
  }

  lemma {:induction false} ShotElemsAre(shots: seq<Shot>, n: nat)
    requires n <= |shots|
    ensures |ShotElems(shots, n)| == n
    ensures forall i :: 0 <= i < n ==> IsShot(ShotElems(shots, n)[i], shots[i], i == 0)
  {
    if n > 0 {
      ShotElemsAre(shots, n - 1);
    }
  }

  lemma {:induction false} WithoutTag(children: seq<Elem>, tag: string)
    ensures forall e :: e in Without(children, tag) <==> e in children && e.tag != tag
  {
    if children != [] {
      var n := |children| - 1;
      WithoutTag(children[..n], tag);
      assert children == children[..n] + [children[n]];
    }
  }

  /** After success the component of a selected id ends with a container that holds the reviewed
      screenshots, in order and with all they say; before it are the children that were no
      screenshots. */
  lemma ShotsWritten(root: Elem, selection: Selection, j: nat)
    requires DistinctKeys(selection) && ApplyTo(root, selection).Fine? && j < |selection|
    ensures var i := ComponentIndex(root.children, selection[j].0);
            var r := ApplyTo(root, selection).root;
      && i.Some? && |r.children| == |root.children| && r.children[i.value].children != []
      && var written := r.children[i.value].children;
      && HoldsShots(written[|written|-1], selection[j].1)
      && forall e :: e in written[..|written|-1] <==> e in root.children[i.value].children && e.tag != "screenshots"
  {
    hide ComponentIndex, ShotElem, HoldsShots, Without;
    ApplyMeaning(root, selection);
    var i := ComponentIndex(root.children, selection[j].0).value;
    assert SelectedAt(root, selection, i, j);
    ContainerHolds(selection[j].1);
    WithoutTag(root.children[i].children, SCREENSHOTS);
  }

  lemma ContainerHolds(shots: seq<Shot>)
    ensures HoldsShots(Container(shots), shots)
  {
    ShotElemsAre(shots, |shots|);
    hide IsShot;
  }

  /** Every component keeps all its children but the screenshots, and every component that was not
      selected keeps those too. */
  lemma RestUnchanged(root: Elem, selection: Selection, k: nat)
    requires DistinctKeys(selection) && ApplyTo(root, selection).Fine? && k < |root.children|
    ensures var r := ApplyTo(root, selection).root;
      && r.(children := root.children) == root && |r.children| == |root.children|
      && Without(r.children[k].children, SCREENSHOTS) == Without(root.children[k].children, SCREENSHOTS)
      && r.children[k].(children := root.children[k].children) == root.children[k]
      && ((forall j :: !SelectedAt(root, selection, k, j)) ==> r.children[k] == root.children[k])
  {
    hide WithShots, ComponentIndex;
    ApplyMeaning(root, selection);
    if exists j :: SelectedAt(root, selection, k, j) {
      var j :| SelectedAt(root, selection, k, j);
      WithShotsKeeps(root.children[k], selection[j].1, "id");
    }
  }

  /** Applying the same selection again changes nothing. */
  lemma ApplyTwice(root: Elem, selection: Selection)
    requires DistinctKeys(selection) && ApplyTo(root, selection).Fine?
    ensures ApplyTo(ApplyTo(root, selection).root, selection) == ApplyTo(root, selection)
  {
    hide WithShots, ComponentIndex;
    var r := ApplyTo(root, selection).root;
    ApplyMeaning(root, selection);
    forall j | 0 <= j < |selection|
      ensures ComponentIndex(r.children, selection[j].0) == ComponentIndex(root.children, selection[j].0)
    {
      ComponentsKept(root, selection, selection[j].0);
    }
    ApplyMeaning(r, selection);
    var t := ApplyTo(r, selection).root;
    forall k | 0 <= k < |r.children|
      ensures t.children[k] == r.children[k]
    {
      assert forall j :: SelectedAt(r, selection, k, j) <==> SelectedAt(root, selection, k, j);
      if exists j :: SelectedAt(root, selection, k, j) {
        var j :| SelectedAt(root, selection, k, j);
        WithShotsTwice(root.children[k], selection[j].1, selection[j].1);
      }
    }
    assert t.children == r.children;
  }

  // ----- the function that edits the tree

  class Checkout {
    var root: Elem

    /** Looks all components up before the first edit, then edits them one by one in place. */
    method ApplyScreenshots(selection: Selection) returns (ok: bool)
      requires DistinctKeys(selection)
      modifies this
      ensures ok <==> ApplyTo(old(root), selection).Fine?
      ensures ok ==> root == ApplyTo(old(root), selection).root
    {
      hide ComponentIndex, WithShots;
      ghost var r := root;
      var components := root.children;
      for i := 0 to |selection|
        invariant ApplyTo(r, selection[..i]) == Fine(root)
        invariant |root.children| == |components| && components == r.children
      {
        PrefixStep(selection, i);
        var (appId, shots) := selection[i];
        var k := FindComponent(components, appId);
        if k.None? || shots == [] {
          RefusalStays(r, selection, i + 1);
          return false;
        }
        var component := SetScreenshots(root.children[k.value], shots);
        root := root.(children := root.children[k.value := component]);
      }
      assert selection[..|selection|] == selection;
      ok := true;
    }

    lemma {:induction false} RefusalStays(r: Elem, selection: Selection, n: nat)
      requires n <= |selection| && ApplyTo(r, selection[..n]).Refused?
      ensures ApplyTo(r, selection).Refused?
    {
      hide ComponentIndex, WithShots;
      if n < |selection| {
        assert selection[..|selection|-1][..n] == selection[..n];
        RefusalStays(r, selection[..|selection|-1], n);
      } else {
        assert selection[..n] == selection;
      }
    }
  }

  method FindComponent(children: seq<Elem>, appId: string) returns (k: Option<nat>)
    ensures k == ComponentIndex(children, appId)
  {
    k := None;
    for i := 0 to |children|
      invariant k == ComponentIndex(children[..i], appId)
    {
      PrefixStep(children, i);
      if children[i].tag == "component" && FindText(children[i], "id") == Some(appId) {
        k := Some(i);
      }
    }
    assert children[..|children|] == children;
  }

  /** Removes the old containers, then appends the new one shot by shot. */
  method SetScreenshots(component: Elem, shots: seq<Shot>) returns (r: Elem)
    ensures r == WithShots(component, shots)
  {
    var kept: seq<Elem> := [];
    for i := 0 to |component.children|
      invariant kept == Without(component.children[..i], SCREENSHOTS)
    {
      PrefixStep(component.children, i);
      if component.children[i].tag != SCREENSHOTS {
        kept := kept + [component.children[i]];
      }
    }
    assert component.children[..|component.children|] == component.children;
    var items: seq<Elem> := [];
    for index := 0 to |shots|
      invariant items == ShotElems(shots, index)
    {
      items := items + [ShotElem(shots[index], index == 0)];
    }
    r := component.(children := kept + [Elem(SCREENSHOTS, map[], None, items)]);
  }
}
