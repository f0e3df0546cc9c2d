/** The tree walk that compiles an AppStream description into the text buffer. */
module DescriptionRender {
  import opened Order
  import opened DescriptionText

  /** An XML node and, with each child, the text that follows the child. */
  datatype Node = Node(element: Option<string>, text: Option<string>, children: seq<Child>)
  datatype Child = Child(node: Node, tail: Option<string>)

  datatype Kind = NoElement | Paragraph | OrderedList | UnorderedList | ListItem | Code | EmphasisKind

  function KindOf(element: Option<string>): Kind {
    match element
    case None => NoElement
    case Some(e) =>
      if e == "p" then Paragraph
      else if e == "ol" then OrderedList
      else if e == "ul" then UnorderedList
      else if e == "li" then ListItem
      else if e == "code" then Code
      else if e == "em" then EmphasisKind
      else NoElement
  }

  /** Kinds whose text starts afresh. */
  predicate IsBlock(k: Kind) {
    k.Paragraph? || k.ListItem?
  }

  predicate IsInline(k: Kind) {
    k.NoElement? || k.Code? || k.EmphasisKind?
  }

  // ----- what the walk puts into the buffer

  function OptText(t: Option<string>): string {
    if t.Some? then t.value else ""
  }

  /** A text or tail, normalised with the shared flags and inserted. */
  function TextSegments(t: Option<string>, ws: Ws): (seq<Segment>, Ws) {
    var (out, w) := Normalize(OptText(t), ws);
    (Segments(out), w)
  }

  function Prefix(kind: Kind, parent: Kind, idx: nat): seq<Segment> {
    if !kind.ListItem? then []
    else if parent.OrderedList? then Piece(Decimal(idx + 1) + ".", {ListNumber})
    else Piece("• ", {})
  }

  function Suffix(kind: Kind, childCount: nat, isLast: bool): seq<Segment> {
    if kind.ListItem? then Piece("\n", {})
    else if kind.Paragraph? && !isLast then Piece("\n", {})
    else if (kind.OrderedList? || kind.UnorderedList?) && !isLast && childCount > 0 then Piece("\n", {})
    else []
  }

  function KindTags(kind: Kind, parent: Kind): set<Tag> {
    match kind
    case Code => {CodeTag}
    case EmphasisKind => {Emphasis}
    case Paragraph => {ParagraphTag}
    case ListItem => if parent.OrderedList? then {ItemOl} else {ItemUl}
    case _ => {}
  }

  function TagAll(segs: seq<Segment>, tags: set<Tag>): (r: seq<Segment>)
    ensures |r| == |segs| && forall i :: 0 <= i < |segs| ==> r[i] == Segment(segs[i].text, segs[i].tags + tags)
  {
    if segs == [] then []
    else TagAll(segs[..|segs|-1], tags) + [Segment(segs[|segs|-1].text, segs[|segs|-1].tags + tags)]
  }

  /** The segments a node adds, and the flags after it. */
  function Render(node: Node, parent: Kind, idx: nat, isLast: bool, ws: Ws): (seq<Segment>, Ws)
    decreases node, |node.children| + 1
  {
    var kind := KindOf(node.element);
    var (text, w1) := TextSegments(node.text, if IsBlock(kind) then FRESH else ws);
    var (kids, w2) := RenderKids(node, |node.children|, kind, w1);
    (TagAll(Prefix(kind, parent, idx) + text + kids, KindTags(kind, parent)) + Suffix(kind, |node.children|, isLast),
     if IsBlock(kind) then ws else w2)
  }

  /** The same for the first `n` children and their tails. */
  function RenderKids(node: Node, n: nat, kind: Kind, ws: Ws): (seq<Segment>, Ws)
    requires n <= |node.children|
    decreases node, n
  {
    if n == 0 then ([], ws)
    else
      var (before, w) := RenderKids(node, n - 1, kind, ws);
      var (child, w1) := Render(node.children[n-1].node, kind, n - 1, n == |node.children|, w);
      var (tail, w2) := TextSegments(node.children[n-1].tail, w1);
      (before + child + tail, w2)
  }

  // ----- flattened text

  /** The text of a node and its descendants with the tags left out. */
  function FlatText(node: Node): string
    decreases node, |node.children| + 1
  {
    OptText(node.text) + FlatKids(node, |node.children|)
  }

  function FlatKids(node: Node, n: nat): string
    requires n <= |node.children|
    decreases node, n
  {
    if n == 0 then ""
    else FlatKids(node, n - 1) + FlatText(node.children[n-1].node) + OptText(node.children[n-1].tail)
  }

  ghost predicate InlineChildren(node: Node)
    decreases node, 0
  {
    forall i :: 0 <= i < |node.children| ==> InlineNode(node.children[i].node)
  }

  ghost predicate InlineNode(node: Node)
    decreases node, 1
  {
    IsInline(KindOf(node.element)) && InlineChildren(node)
  }

  /** The normalised runs the walk inserts, one for each text and tail. */
  function Runs(node: Node, ws: Ws): (seq<string>, Ws)
    decreases node, |node.children| + 1
  {
    var (text, w1) := Normalize(OptText(node.text), ws);
    var (kids, w2) := RunsKids(node, |node.children|, w1);
    ([text] + kids, w2)
  }

  function RunsKids(node: Node, n: nat, ws: Ws): (seq<string>, Ws)
    requires n <= |node.children|
    decreases node, n
  {
    if n == 0 then ([], ws)
    else
      var (before, w) := RunsKids(node, n - 1, ws);
      var (child, w1) := Runs(node.children[n-1].node, w);
      var (tail, w2) := Normalize(OptText(node.children[n-1].tail), w1);
      (before + child + [tail], w2)
  }

  /** What inserting the runs one by one leaves of them. */
  function Inserted(runs: seq<string>): string {
    if runs == [] then "" else WithoutStars(runs[0]) + Inserted(runs[1..])
  }

  lemma {:induction false} ConcatAppend(a: seq<string>, b: seq<string>)
    ensures Concat(a + b) == Concat(a) + Concat(b)
    ensures Inserted(a + b) == Inserted(a) + Inserted(b)
  {
    hide WithoutStars;
    if a == [] {
      assert a + b == b;
    } else {
      assert (a + b)[1..] == a[1..] + b;
      ConcatAppend(a[1..], b);
    }
  }

  lemma ConcatOne(s: string)
    ensures Concat([s]) == s && Inserted([s]) == WithoutStars(s)
  {
  }

  /** The runs of a node are one normalisation of its flattened text, cut into pieces. */
  lemma {:induction false} RunsAreNormal(node: Node, ws: Ws)
    ensures (Concat(Runs(node, ws).0), Runs(node, ws).1) == Normalize(FlatText(node), ws)
    decreases node, |node.children| + 1
  {
    hide Normalize;
    var (text, w1) := Normalize(OptText(node.text), ws);
    RunsKidsAreNormal(node, |node.children|, w1);
    NormalizeConcat(OptText(node.text), FlatKids(node, |node.children|), ws);
    ConcatOne(text);
    ConcatAppend([text], RunsKids(node, |node.children|, w1).0);
  }

  lemma {:induction false} RunsKidsAreNormal(node: Node, n: nat, ws: Ws)
    requires n <= |node.children|
    ensures (Concat(RunsKids(node, n, ws).0), RunsKids(node, n, ws).1) == Normalize(FlatKids(node, n), ws)
    decreases node, n
  {
    if n == 0 {
    } else {
      RunsKidsStep(node, n, ws);
    }
  }

  lemma {:induction false} RunsKidsStep(node: Node, n: nat, ws: Ws)
    requires 0 < n <= |node.children|
    ensures (Concat(RunsKids(node, n, ws).0), RunsKids(node, n, ws).1) == Normalize(FlatKids(node, n), ws)
    decreases node, n, 0
  {
    hide Normalize, Concat;
    var c := node.children[n-1];
    var (before, w) := RunsKids(node, n - 1, ws);
    RunsKidsAreNormal(node, n - 1, ws);
    var (child, w1) := Runs(c.node, w);
    RunsAreNormal(c.node, w);
    var (tail, w2) := Normalize(OptText(c.tail), w1);
    NormalizeConcat(FlatKids(node, n - 1), FlatText(c.node), ws);
    NormalizeConcat(FlatKids(node, n - 1) + FlatText(c.node), OptText(c.tail), ws);
    ConcatAppend(before, child);
    ConcatAppend(before + child, [tail]);
    ConcatOne(tail);
  }

  lemma {:induction false} TagAllText(segs: seq<Segment>, tags: set<Tag>)
    ensures TextOf(TagAll(segs, tags)) == TextOf(segs)
  {
    if segs != [] {
      TagAllText(segs[..|segs|-1], tags);
      assert TagAll(segs, tags)[..|segs|-1] == TagAll(segs[..|segs|-1], tags);
    }
  }

  lemma TextSegmentsText(t: Option<string>, ws: Ws)
    ensures TextOf(TextSegments(t, ws).0) == WithoutStars(Normalize(OptText(t), ws).0)
    ensures TextSegments(t, ws).1 == Normalize(OptText(t), ws).1
  {
    hide Segments, WithoutStars;
    SegmentsConserve(Normalize(OptText(t), ws).0);
  }

  lemma {:induction false} AssembledText(a: seq<Segment>, b: seq<Segment>, c: seq<Segment>, tags: set<Tag>,
      d: seq<Segment>)
    ensures TextOf(TagAll(a + b + c, tags) + d) == TextOf(a) + (TextOf(b) + TextOf(c)) + TextOf(d)
  {
    hide TextOf, TagAll;
    TextOfConcat(a, b);
    TextOfConcat(a + b, c);
    TagAllText(a + b + c, tags);
    TextOfConcat(TagAll(a + b + c, tags), d);
    assert TextOf(a) + TextOf(b) + TextOf(c) == TextOf(a) + (TextOf(b) + TextOf(c));
  }

  /** The own text and the children of a node, started with the flags `ws`. */
  function Inner(node: Node, ws: Ws): (seq<Segment>, seq<Segment>, Ws) {
    var (text, w1) := TextSegments(node.text, ws);
    var (kids, w2) := RenderKids(node, |node.children|, KindOf(node.element), w1);
    (text, kids, w2)
  }

  lemma RenderInner(node: Node, parent: Kind, idx: nat, isLast: bool, ws: Ws)
    ensures var kind := KindOf(node.element);
            var (text, kids, w2) := Inner(node, if IsBlock(kind) then FRESH else ws);
            Render(node, parent, idx, isLast, ws)
            == (TagAll(Prefix(kind, parent, idx) + text + kids, KindTags(kind, parent))
                + Suffix(kind, |node.children|, isLast),
                if IsBlock(kind) then ws else w2)
  {
    hide Prefix, TextSegments, RenderKids, KindTags, Suffix, KindOf, IsBlock, TagAll;
  }

  lemma {:induction false} InnerText(node: Node, ws: Ws)
    requires InlineChildren(node)
    ensures TextOf(Inner(node, ws).0) + TextOf(Inner(node, ws).1) == Inserted(Runs(node, ws).0)
    ensures Inner(node, ws).2 == Runs(node, ws).1
    decreases node, |node.children| + 1, 0
  {
    hide WithoutStars, Normalize, TextSegments, RenderKids, RunsKids, KindOf, TextOf, Inserted;
    var w1 := TextSegments(node.text, ws).1;
    TextSegmentsText(node.text, ws);
    KidsText(node, |node.children|, KindOf(node.element), w1);
    var run := Normalize(OptText(node.text), ws).0;
    ConcatOne(run);
    ConcatAppend([run], RunsKids(node, |node.children|, w1).0);
  }

  /** An inline node puts its runs into the buffer, and moves the flags as they do. */
  lemma {:induction false} InlineText(node: Node, parent: Kind, idx: nat, isLast: bool, ws: Ws)
    requires InlineNode(node)
    ensures TextOf(Render(node, parent, idx, isLast, ws).0) == Inserted(Runs(node, ws).0)
    ensures Render(node, parent, idx, isLast, ws).1 == Runs(node, ws).1
    decreases node, |node.children| + 1, 1
  {
    hide Inner, Runs, Render, KindOf, TextOf, TagAll, KindTags, Inserted;
    RenderInner(node, parent, idx, isLast, ws);
    InnerText(node, ws);
    var (text, kids, w2) := Inner(node, ws);
    AssembledText([], text, kids, KindTags(KindOf(node.element), parent), []);
    NoText();
    assert "" + (TextOf(text) + TextOf(kids)) + "" == TextOf(text) + TextOf(kids);
  }

  lemma NoText()
    ensures TextOf([]) == ""
  {
  }

  lemma {:induction false} KidsText(node: Node, n: nat, kind: Kind, ws: Ws)
    requires InlineChildren(node) && n <= |node.children|
    ensures TextOf(RenderKids(node, n, kind, ws).0) == Inserted(RunsKids(node, n, ws).0)
    ensures RenderKids(node, n, kind, ws).1 == RunsKids(node, n, ws).1
    decreases node, n
  {
    if n > 0 {
      KidsTextStep(node, n, kind, ws);
    }
  }

  lemma {:induction false} KidsTextStep(node: Node, n: nat, kind: Kind, ws: Ws)
    requires InlineChildren(node) && 0 < n <= |node.children|
    ensures TextOf(RenderKids(node, n, kind, ws).0) == Inserted(RunsKids(node, n, ws).0)
    ensures RenderKids(node, n, kind, ws).1 == RunsKids(node, n, ws).1
    decreases node, n, 0
  {
    hide WithoutStars, Normalize, TextSegments, Render, Runs, TextOf, Inserted;
    var c := node.children[n-1];
    KidsText(node, n - 1, kind, ws);
    var (before, w) := RenderKids(node, n - 1, kind, ws);
    var runs := RunsKids(node, n - 1, ws).0;
    InlineText(c.node, kind, n - 1, n == |node.children|, w);
    var (child, w1) := Render(c.node, kind, n - 1, n == |node.children|, w);
    TextSegmentsText(c.tail, w1);
    var (tail, w2) := TextSegments(c.tail, w1);
    TextOfConcat(before, child);
    TextOfConcat(before + child, tail);
    var tailRun := Normalize(OptText(c.tail), w1).0;
    ConcatAppend(runs, Runs(c.node, w).0);
    ConcatAppend(runs + Runs(c.node, w).0, [tailRun]);
    ConcatOne(tailRun);
  }

  /** A paragraph or list item whose descendants are all inline puts into the buffer its prefix,
      its runs from a fresh start, and its suffix, and leaves the flags around it alone. */
  lemma BlockText(node: Node, parent: Kind, idx: nat, isLast: bool, ws: Ws)
    requires IsBlock(KindOf(node.element)) && InlineChildren(node)
    ensures var kind := KindOf(node.element);
            TextOf(Render(node, parent, idx, isLast, ws).0)
            == TextOf(Prefix(kind, parent, idx)) + Inserted(Runs(node, FRESH).0)
               + TextOf(Suffix(kind, |node.children|, isLast))
    ensures Render(node, parent, idx, isLast, ws).1 == ws
  {
    hide Inner, Runs, Render, KindOf, TextOf, TagAll, KindTags, Inserted, Prefix, Suffix;
    var kind := KindOf(node.element);
    RenderInner(node, parent, idx, isLast, ws);
    InnerText(node, FRESH);
    var (text, kids, w2) := Inner(node, FRESH);
    AssembledText(Prefix(kind, parent, idx), text, kids, KindTags(kind, parent), Suffix(kind, |node.children|, isLast));
  }

  ghost predicate NoStars(runs: seq<string>) {
    forall i :: 0 <= i < |runs| ==> Find(runs[i], STARS).None?
  }

  lemma {:induction false} InsertedLength(runs: seq<string>)
    ensures |Inserted(runs)| <= |Concat(runs)|
    ensures |Inserted(runs)| == |Concat(runs)| <==> NoStars(runs)
    ensures NoStars(runs) ==> Inserted(runs) == Concat(runs)
  {
    hide WithoutStars, Find;
    if runs != [] {
      InsertedLength(runs[1..]);
      WithoutStarsShorter(runs[0]);
      assert NoStars(runs) <==> Find(runs[0], STARS).None? && NoStars(runs[1..]) by {
        assert forall i :: 1 <= i < |runs| ==> runs[i] == runs[1..][i-1];
      }
    }
  }

  lemma {:induction false} WithoutStarsShorter(s: string)
    ensures Find(s, STARS).None? ==> WithoutStars(s) == s
    ensures Find(s, STARS).Some? ==> |WithoutStars(s)| < |s|
  {
    WithoutStarsSame(s);
    if Find(s, STARS).Some? {
      var i := Find(s, STARS).value;
      WithoutStarsUpTo(s, i);
      assert |WithoutStars(s[i..])| <= |s[i..][2..]|;
    }
  }

  lemma NoStarsConcat(a: seq<string>, b: seq<string>)
    ensures NoStars(a + b) <==> NoStars(a) && NoStars(b)
  {
    hide Find;
    if NoStars(a + b) {
      assert forall i :: 0 <= i < |a| ==> a[i] == (a + b)[i];
      assert forall i :: 0 <= i < |b| ==> b[i] == (a + b)[|a|+i];
    }
  }

  predicate Plain(t: Option<string>) {
    Find(OptText(t), STARS).None?
  }

  /** No text and no tail inside the node has a "**". */
  ghost predicate PlainTexts(node: Node)
    decreases node, 1
  {
    Plain(node.text) && PlainKids(node, |node.children|)
  }

  ghost predicate PlainKids(node: Node, n: nat)
    requires n <= |node.children|
    decreases node, 0
  {
    forall i :: 0 <= i < n ==> PlainTexts(node.children[i].node) && Plain(node.children[i].tail)
  }

  lemma RunPlain(t: Option<string>, ws: Ws)
    ensures NoStars([Normalize(OptText(t), ws).0]) <==> Plain(t)
  {
    hide Find, Normalize;
    var run := Normalize(OptText(t), ws).0;
    assert [run][0] == run;
    StarsAreFound(OptText(t));
    StarsAreFound(run);
    NormalizeKeepsStars(OptText(t), ws);
  }

  lemma {:induction false} RunsPlain(node: Node, ws: Ws)
    ensures NoStars(Runs(node, ws).0) <==> PlainTexts(node)
    decreases node, |node.children| + 1
  {
    hide Normalize, NoStars, Plain, PlainKids;
    var (text, w1) := Normalize(OptText(node.text), ws);
    RunPlain(node.text, ws);
    RunsKidsPlain(node, |node.children|, w1);
    NoStarsConcat([text], RunsKids(node, |node.children|, w1).0);
  }

  lemma {:induction false} RunsKidsPlain(node: Node, n: nat, ws: Ws)
    requires n <= |node.children|
    ensures NoStars(RunsKids(node, n, ws).0) <==> PlainKids(node, n)
    decreases node, n
  {
    hide Normalize, Plain, PlainTexts, Find;
    if n > 0 {
      var c := node.children[n-1];
      var (before, w) := RunsKids(node, n - 1, ws);
      RunsKidsPlain(node, n - 1, ws);
      var (child, w1) := Runs(c.node, w);
      RunsPlain(c.node, w);
      RunPlain(c.tail, w1);
      var tail := Normalize(OptText(c.tail), w1).0;
      NoStarsConcat(before, child);
      NoStarsConcat(before + child, [tail]);
      hide NoStars;
      assert PlainKids(node, n) <==> PlainKids(node, n - 1) && PlainTexts(c.node) && Plain(c.tail);
    }
  }

  /** The paragraph theorem. The text put into the buffer between prefix and suffix is the words
      of the flattened text joined by single spaces, with nothing at either end, exactly when no
      text and no tail inside the node has a "**". */
  lemma BlockIsWords(node: Node, parent: Kind, idx: nat, isLast: bool, ws: Ws)
    requires IsBlock(KindOf(node.element)) && InlineChildren(node)
    ensures var kind := KindOf(node.element);
            var prefix, suffix := TextOf(Prefix(kind, parent, idx)), TextOf(Suffix(kind, |node.children|, isLast));
            TextOf(Render(node, parent, idx, isLast, ws).0) == prefix + JoinWords(Words(FlatText(node))) + suffix
            <==> PlainTexts(node)
  {
    RunsPlain(node, FRESH);
    hide PlainTexts;
    hide Render, Runs, FlatText, Normalize, Words, JoinWords, Prefix, Suffix, Concat, Inserted, NoStars, TextOf;
    BlockText(node, parent, idx, isLast, ws);
    RunsAreNormal(node, FRESH);
    NormalizeFresh(FlatText(node));
    InsertedLength(Runs(node, FRESH).0);
    var kind := KindOf(node.element);
    var prefix, suffix := TextOf(Prefix(kind, parent, idx)), TextOf(Suffix(kind, |node.children|, isLast));
    var got, want := Inserted(Runs(node, FRESH).0), JoinWords(Words(FlatText(node)));
    if prefix + got + suffix == prefix + want + suffix {
      assert |got| == |want|;
    }
  }

  /** A paragraph for which it fails. */
  lemma StarsAreDropped(parent: Kind, isLast: bool, ws: Ws)
    ensures var node := Node(Some("p"), Some("a**b"), []);
            var suffix := TextOf(Suffix(Paragraph, 0, isLast));
            !PlainTexts(node) && TextOf(Render(node, parent, 0, isLast, ws).0) != JoinWords(Words("a**b")) + suffix
  {
    hide Render, Words, JoinWords, TextOf, Suffix;
    var node := Node(Some("p"), Some("a**b"), []);
    var s := "a**b";
    assert s[1] == '*' == s[1+1];
    StarsAreFound(s);
    assert OptText(node.text) == s;
    BlockIsWords(node, parent, 0, isLast, ws);
    assert FlatText(node) == s;
    EmptyPrefix(parent);
    var suffix := TextOf(Suffix(Paragraph, 0, isLast));
    assert "" + JoinWords(Words(s)) + suffix == JoinWords(Words(s)) + suffix;
  }

  lemma EmptyPrefix(parent: Kind)
    ensures TextOf(Prefix(Paragraph, parent, 0)) == ""
  {
  }

  // ----- the walk itself

  /** Tags everything from segment `start` on, as applying a tag from a mark to the end does. */
  method ApplyTags(buffer: TextBuffer, start: nat, tags: set<Tag>)
    requires start <= |buffer.segments|
    modifies buffer
    ensures buffer.segments == old(buffer.segments)[..start] + TagAll(old(buffer.segments)[start..], tags)
  {
    var tagged := TagAll(buffer.segments[start..], tags);
    buffer.segments := buffer.segments[..start] + tagged;
  }

  method InsertNormalized(buffer: TextBuffer, t: Option<string>, ws: WsState)
    modifies buffer, ws
    ensures buffer.segments == old(buffer.segments) + TextSegments(t, old(ws.Value())).0
    ensures ws.Value() == TextSegments(t, old(ws.Value())).1
  {
    hide Segments;
    assert Normalize("", ws.Value()) == ("", ws.Value());
    NoSegments();
    assert buffer.segments + [] == buffer.segments;
    if t.Some? {
      var normalized := NormalizeWhitespace(t.value, ws);
      if normalized != "" {
        InsertText(buffer, normalized);
      }
    }
  }

  lemma NoSegments()
    ensures Segments("") == []
  {
  }

  method Compile(node: Node, buffer: TextBuffer, parent: Kind, idx: nat, isLast: bool, ws: WsState)
    modifies buffer, ws
    ensures buffer.segments == old(buffer.segments) + Render(node, parent, idx, isLast, old(ws.Value())).0
    ensures ws.Value() == Render(node, parent, idx, isLast, old(ws.Value())).1
    decreases node, |node.children| + 1
  {
    hide Prefix, TextSegments, RenderKids, KindTags, Suffix, Render, KindOf, TagAll;
    var kind := KindOf(node.element);
    ghost var s, w := buffer.segments, ws.Value();
    RenderInner(node, parent, idx, isLast, w);
    var start := |buffer.segments|;
    InsertPrefix(buffer, kind, parent, idx);
    var state := ws;
    if IsBlock(kind) {
      state := new WsState();
    }
    ghost var w0 := state.Value();
    InsertNormalized(buffer, node.text, state);
    CompileChildren(node, buffer, kind, state);
    ghost var prefix, text, kids := Prefix(kind, parent, idx), Inner(node, w0).0, Inner(node, w0).1;
    assert ((s + prefix) + text) + kids == s + (prefix + text + kids);
    assert buffer.segments[..start] == s && buffer.segments[start..] == prefix + text + kids;
    ApplyTags(buffer, start, KindTags(kind, parent));
    InsertSuffix(buffer, kind, |node.children|, isLast);
    assert (s + TagAll(prefix + text + kids, KindTags(kind, parent))) + Suffix(kind, |node.children|, isLast)
        == s + (TagAll(prefix + text + kids, KindTags(kind, parent)) + Suffix(kind, |node.children|, isLast));
  }

  method InsertPrefix(buffer: TextBuffer, kind: Kind, parent: Kind, idx: nat)
    modifies buffer
    ensures buffer.segments == old(buffer.segments) + Prefix(kind, parent, idx)
  {
    if kind == ListItem {
      if parent == OrderedList {
        buffer.Insert(Decimal(idx + 1) + ".", {ListNumber});
      } else {
        buffer.Insert("• ", {});
      }
    }
  }

  method InsertSuffix(buffer: TextBuffer, kind: Kind, childCount: nat, isLast: bool)
    modifies buffer
    ensures buffer.segments == old(buffer.segments) + Suffix(kind, childCount, isLast)
  {
    if kind == ListItem {
      buffer.Insert("\n", {});
    }
    if kind == Paragraph && !isLast {
      buffer.Insert("\n", {});
    } else if (kind == OrderedList || kind == UnorderedList) && !isLast && childCount > 0 {
      buffer.Insert("\n", {});
    }
  }

  method CompileChildren(node: Node, buffer: TextBuffer, kind: Kind, ws: WsState)
    modifies buffer, ws
    ensures buffer.segments == old(buffer.segments) + RenderKids(node, |node.children|, kind, old(ws.Value())).0
    ensures ws.Value() == RenderKids(node, |node.children|, kind, old(ws.Value())).1
    decreases node, |node.children|
  {
    hide Render, TextSegments;
    ghost var s, w := buffer.segments, ws.Value();
    var i := 0;
    while i < |node.children|
      invariant 0 <= i <= |node.children|
      invariant buffer.segments == s + RenderKids(node, i, kind, w).0
      invariant ws.Value() == RenderKids(node, i, kind, w).1
    {
      ghost var before, w0 := RenderKids(node, i, kind, w).0, ws.Value();
      var child := node.children[i];
      Compile(child.node, buffer, kind, i, i + 1 == |node.children|, ws);
      ghost var r, w1 := Render(child.node, kind, i, i + 1 == |node.children|, w0).0, ws.Value();
      InsertNormalized(buffer, child.tail, ws);
      assert ((s + before) + r) + TextSegments(child.tail, w1).0 == s + (before + r + TextSegments(child.tail, w1).0);
      i := i + 1;
    }
  }
}
