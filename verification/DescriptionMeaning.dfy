/** What a compiled description reads like: paragraphs are lines of words, list items are lines
    with their number or a bullet, and which tags a text carries. */
module DescriptionMeaning {
  import opened Order
  import opened DescriptionText
  import opened DescriptionRender

  // ----- paragraphs and lists, line by line

  predicate Blank(t: Option<string>) {
    forall i :: 0 <= i < |OptText(t)| ==> IsSpace(OptText(t)[i])
  }

  /** The words of a node, joined by single spaces. */
  function WordsOf(node: Node): string {
    JoinWords(Words(FlatText(node)))
  }

  /** The lines of the first `n` items of a list; those of an ordered list count from 1. */
  function Lines(list: Node, n: nat): string
    requires n <= |list.children|
  {
    if n == 0 then ""
    else
      Lines(list, n - 1) + (if list.element == Some("ol") then Decimal(n) + "." else "• ")
      + WordsOf(list.children[n-1].node) + "\n"
  }

  /** Text of inline nodes without stars, and nothing but white space around the items. */
  ghost predicate SimpleList(list: Node) {
    && list.element in {Some("ol"), Some("ul")} && Blank(list.text)
    && forall i :: 0 <= i < |list.children| ==> SimpleItem(list.children[i])
  }

  ghost predicate SimpleItem(c: Child) {
    c.node.element == Some("li") && InlineChildren(c.node) && PlainTexts(c.node) && Blank(c.tail)
  }

  lemma {:induction false} BlankNormal(s: string, ws: Ws)
    requires forall i :: 0 <= i < |s| ==> IsSpace(s[i])
    ensures Normalize(s, ws).0 == ""
  {
    if s != [] {
      BlankNormal(s[..|s|-1], ws);
    }
  }

  lemma BlankNothing(t: Option<string>, ws: Ws)
    requires Blank(t)
    ensures TextSegments(t, ws).0 == []
  {
    BlankNormal(OptText(t), ws);
    NoSegments();
    hide Segments, Normalize;
  }

  lemma PrefixText(parent: Kind, idx: nat)
    ensures TextOf(Prefix(ListItem, parent, idx)) == if parent.OrderedList? then Decimal(idx + 1) + "." else "• "
  {
    hide Decimal;
    PieceText(Decimal(idx + 1) + ".", {ListNumber});
    PieceText("• ", {});
  }

  lemma SuffixText(kind: Kind, childCount: nat, isLast: bool)
    ensures TextOf(Suffix(kind, childCount, isLast)) ==
      if kind.ListItem? || (kind.Paragraph? && !isLast)
         || ((kind.OrderedList? || kind.UnorderedList?) && !isLast && childCount > 0) then "\n" else ""
  {
    PieceText("\n", {});
  }

  /** A paragraph without stars is a line of its words; the last one has no newline. */
  lemma ParagraphIsALine(node: Node, parent: Kind, idx: nat, isLast: bool, ws: Ws)
    requires node.element == Some("p") && InlineChildren(node) && PlainTexts(node)
    ensures TextOf(Render(node, parent, idx, isLast, ws).0) == WordsOf(node) + if isLast then "" else "\n"
  {
    hide Render, TextOf, Words, JoinWords, FlatText, PlainTexts, Suffix;
    BlockIsWords(node, parent, idx, isLast, ws);
    SuffixText(Paragraph, |node.children|, isLast);
    EmptyAnyPrefix(parent, idx);
    assert "" + WordsOf(node) == WordsOf(node);
  }

  lemma EmptyAnyPrefix(parent: Kind, idx: nat)
    ensures TextOf(Prefix(Paragraph, parent, idx)) == ""
  {
  }

  lemma ItemText(node: Node, parent: Kind, idx: nat, isLast: bool, ws: Ws)
    requires node.element == Some("li") && InlineChildren(node) && PlainTexts(node)
    ensures TextOf(Render(node, parent, idx, isLast, ws).0)
         == (if parent.OrderedList? then Decimal(idx + 1) + "." else "• ") + WordsOf(node) + "\n"
  {
    hide Render, TextOf, Words, JoinWords, FlatText, PlainTexts, Suffix, Prefix, Decimal;
    BlockIsWords(node, parent, idx, isLast, ws);
    SuffixText(ListItem, |node.children|, isLast);
    PrefixText(parent, idx);
  }

  lemma {:induction false} KidsAreLines(list: Node, n: nat, ws: Ws)
    requires SimpleList(list) && n <= |list.children|
    ensures TextOf(RenderKids(list, n, KindOf(list.element), ws).0) == Lines(list, n)
    decreases n
  {
    hide Render, TextOf, TextSegments, Decimal, PlainTexts, WordsOf;
    if n == 0 {
      NoText();
    } else {
      var c := list.children[n-1];
      var kind := KindOf(list.element);
      KidsAreLines(list, n - 1, ws);
      assert SimpleItem(c);
      var (before, w) := RenderKids(list, n - 1, kind, ws);
      var (child, w1) := Render(c.node, kind, n - 1, n == |list.children|, w);
      ItemText(c.node, kind, n - 1, n == |list.children|, w);
      BlankNothing(c.tail, w1);
      TextOfConcat(before, child);
      assert before + child + [] == before + child;
      var head := if kind.OrderedList? then Decimal(n) + "." else "• ";
      assert Lines(list, n - 1) + (head + WordsOf(c.node) + "\n") == Lines(list, n - 1) + head + WordsOf(c.node) + "\n";
    }
  }

  /** A simple list reads as the lines of its items; after the lines of a list with items comes an
      empty line unless it is the last of its siblings. */
  lemma ListIsLines(list: Node, parent: Kind, idx: nat, isLast: bool, ws: Ws)
    requires SimpleList(list)
    ensures TextOf(Render(list, parent, idx, isLast, ws).0)
         == Lines(list, |list.children|) + if isLast || list.children == [] then "" else "\n"
  {
    hide TextOf, TextSegments, Lines, RenderKids, TagAll, Suffix;
    var kind := KindOf(list.element);
    RenderInner(list, parent, idx, isLast, ws);
    BlankNothing(list.text, ws);
    var (text, kids, w) := Inner(list, ws);
    KidsAreLines(list, |list.children|, TextSegments(list.text, ws).1);
    AssembledText([], [], kids, KindTags(kind, parent), Suffix(kind, |list.children|, isLast));
    NoText();
    SuffixText(kind, |list.children|, isLast);
    assert [] + [] + kids == Prefix(kind, parent, idx) + text + kids;
    assert "" + ("" + TextOf(kids)) == TextOf(kids);
  }

  // ----- tags

  /** The tags of an element; those of a list item depend on the list. */
  function ElementTags(element: Option<string>, inOl: bool): set<Tag> {
    if element == Some("p") then {ParagraphTag}
    else if element == Some("li") then (if inOl then {ItemOl} else {ItemUl})
    else if element == Some("code") then {CodeTag}
    else if element == Some("em") then {Emphasis}
    else {}
  }

  lemma KindTagsAre(element: Option<string>, parent: Kind)
    ensures KindTags(KindOf(element), parent) == ElementTags(element, parent.OrderedList?)
  {
  }

  /** All that a node adds has the tags of its element, but for a newline at the end, which has none. */
  lemma NodeIsTagged(node: Node, parent: Kind, idx: nat, isLast: bool, ws: Ws)
    returns (body: seq<Segment>, end: seq<Segment>)
    ensures Render(node, parent, idx, isLast, ws).0 == body + end && (end == [] || end == [Segment("\n", {})])
    ensures forall s :: s in body ==> ElementTags(node.element, parent.OrderedList?) <= s.tags
  {
    hide Prefix, KindOf;
    var kind := KindOf(node.element);
    RenderInner(node, parent, idx, isLast, ws);
    KindTagsAre(node.element, parent);
    var (text, kids, w) := Inner(node, if IsBlock(kind) then FRESH else ws);
    hide Render, Inner, KindTags, RenderKids;
    body := TagAll(Prefix(kind, parent, idx) + text + kids, KindTags(kind, parent));
    end := Suffix(kind, |node.children|, isLast);
  }

  /** An item begins with its number, which is tagged as one, or with a bullet. */
  lemma ItemHead(node: Node, parent: Kind, idx: nat, isLast: bool, ws: Ws)
    requires node.element == Some("li")
    ensures var r := Render(node, parent, idx, isLast, ws).0;
            r != [] && r[0] == if parent.OrderedList? then Segment(Decimal(idx + 1) + ".", {ListNumber, ItemOl})
                               else Segment("• ", {ItemUl})
  {
    hide Decimal;
    RenderInner(node, parent, idx, isLast, ws);
    var (text, kids, w) := Inner(node, FRESH);
    hide Render, Inner, RenderKids, Suffix;
    assert KindOf(node.element) == ListItem;
  }

  /** The tag comes from the element or from one inside it. */
  ghost predicate Gives(node: Node, inOl: bool, tag: Tag)
    decreases node
  {
    || tag in ElementTags(node.element, inOl)
    || exists i :: 0 <= i < |node.children| && Gives(node.children[i].node, node.element == Some("ol"), tag)
  }

  /** A text finds its own links and emphasis, and an item its number. */
  predicate FoundInText(tag: Tag) {
    tag.Link? || tag == Emphasis || tag == ListNumber
  }

  ghost predicate OnlyTags(segs: seq<Segment>, node: Node, inOl: bool) {
    forall s, tag :: s in segs && tag in s.tags ==> FoundInText(tag) || Gives(node, inOl, tag)
  }

  lemma {:induction false} ChunkTags(p: string)
    ensures forall s, tag :: s in Chunk(p) && tag in s.tags ==> FoundInText(tag)
    decreases |p|
  {
    hide StartsUrl, UrlStart, UrlAt;
    if UrlStart(p).None? {
      ChunkWithoutUrl(p);
    } else {
      var i, url, rest := ChunkStep(p);
      hide Chunk;
      ChunkTags(rest);
    }
  }

  lemma {:induction false} PartsTags(parts: seq<string>, j: nat)
    requires j <= |parts|
    ensures forall s, tag :: s in Parts(parts, j) && tag in s.tags ==> FoundInText(tag)
    decreases |parts| - j
  {
    hide Chunk;
    if j < |parts| {
      ChunkTags(parts[j]);
      PartsTags(parts, j + 1);
    }
  }

  lemma TextTags(t: Option<string>, ws: Ws)
    ensures forall s, tag :: s in TextSegments(t, ws).0 && tag in s.tags ==> FoundInText(tag)
  {
    hide Normalize, Split, Parts;
    PartsTags(Split(Normalize(OptText(t), ws).0), 0);
  }

  lemma ChildGives(node: Node, i: nat, inOl: bool, segs: seq<Segment>)
    requires i < |node.children| && OnlyTags(segs, node.children[i].node, node.element == Some("ol"))
    ensures OnlyTags(segs, node, inOl)
  {
    hide FoundInText, ElementTags;
  }

  lemma {:induction false} KidsTags(node: Node, n: nat, ws: Ws, inOl: bool)
    requires n <= |node.children|
    ensures OnlyTags(RenderKids(node, n, KindOf(node.element), ws).0, node, inOl)
    decreases node, n
  {
    hide TextSegments, Render, Gives, FoundInText;
    if n > 0 {
      var c := node.children[n-1];
      var kind := KindOf(node.element);
      KidsTags(node, n - 1, ws, inOl);
      var (before, w) := RenderKids(node, n - 1, kind, ws);
      OnlyGivenTags(c.node, kind, n - 1, n == |node.children|, w);
      var (child, w1) := Render(c.node, kind, n - 1, n == |node.children|, w);
      TextTags(c.tail, w1);
      assert kind.OrderedList? <==> node.element == Some("ol");
      ChildGives(node, n - 1, inOl, child);
      hide KindOf;
    }
  }

  /** No text carries a tag that neither an element around it nor the text itself gives. */
  lemma {:induction false} OnlyGivenTags(node: Node, parent: Kind, idx: nat, isLast: bool, ws: Ws)
    ensures OnlyTags(Render(node, parent, idx, isLast, ws).0, node, parent.OrderedList?)
    decreases node, |node.children| + 1
  {
    hide TextSegments, RenderKids, KindOf, Render, FoundInText, Decimal;
    var kind := KindOf(node.element);
    var ws1 := if IsBlock(kind) then FRESH else ws;
    var w1 := TextSegments(node.text, ws1).1;
    RenderInner(node, parent, idx, isLast, ws);
    TextTags(node.text, ws1);
    KidsTags(node, |node.children|, w1, parent.OrderedList?);
    KindTagsAre(node.element, parent);
    var text, kids := TextSegments(node.text, ws1).0, RenderKids(node, |node.children|, kind, w1).0;
    PrefixTags(kind, parent, idx);
    hide Prefix, KindTags, ElementTags;
    AssembledTags(node, parent.OrderedList?, Prefix(kind, parent, idx) + text + kids, KindTags(kind, parent),
                  Suffix(kind, |node.children|, isLast));
  }

  lemma PrefixTags(kind: Kind, parent: Kind, idx: nat)
    ensures forall s, tag :: s in Prefix(kind, parent, idx) && tag in s.tags ==> FoundInText(tag)
  {
    hide Decimal;
  }

  lemma AssembledTags(node: Node, inOl: bool, segs: seq<Segment>, tags: set<Tag>, end: seq<Segment>)
    requires OnlyTags(segs, node, inOl) && tags == ElementTags(node.element, inOl)
    requires forall s :: s in end ==> s.tags == {}
    ensures OnlyTags(TagAll(segs, tags) + end, node, inOl)
  {
    hide FoundInText, ElementTags;
    var all := TagAll(segs, tags);
    hide TagAll;
    forall s, tag | s in all && tag in s.tags
      ensures FoundInText(tag) || Gives(node, inOl, tag)
    {
      var i :| 0 <= i < |all| && all[i] == s;
      assert segs[i] in segs;
    }
  }

  // ----- emphasis

  function PartAt(p: string, odd: bool): seq<Segment> {
    if odd then Piece(p, {Emphasis}) else Chunk(p)
  }

  lemma PartsStep(parts: seq<string>, j: nat)
    requires j < |parts|
    ensures Parts(parts, j) == PartAt(parts[j], j % 2 != 0) + Parts(parts, j + 1)
  {
    hide Chunk, Piece;
  }

  lemma PartsEnd(parts: seq<string>)
    ensures Parts(parts, |parts|) == []
  {
  }

  lemma {:induction false} PartsLater(parts: seq<string>, rest: seq<string>, j: nat)
    requires j <= |rest| && |parts| == |rest| + 2 && parts[2..] == rest
    ensures Parts(parts, j + 2) == Parts(rest, j)
    decreases |rest| - j
  {
    hide Parts, PartAt;
    if j < |rest| {
      PartsLater(parts, rest, j + 1);
      PartsStep(parts, j + 2);
      PartsStep(rest, j);
      assert parts[j + 2] == rest[j] && (j + 2) % 2 == j % 2;
    } else {
      PartsEnd(parts);
      PartsEnd(rest);
    }
  }

  lemma SplitRestStep(text: string)
    ensures SplitRest(text) == match Find(text, STARS)
                               case None => [text]
                               case Some(i) => [text[..i]] + SplitRest(text[i + 2..])
  {
    hide Find;
  }

  lemma OnePart(p: string)
    ensures Parts([p], 0) == Chunk(p)
  {
    hide Chunk, Parts;
    PartsStep([p], 0);
    PartsEnd([p]);
  }

  lemma TwoParts(p: string, q: string, rest: seq<string>)
    ensures Parts([p] + ([q] + rest), 0) == Chunk(p) + Piece(q, {Emphasis}) + Parts(rest, 0)
  {
    hide Chunk, Piece, Parts;
    var parts := [p] + ([q] + rest);
    PartsStep(parts, 0);
    PartsStep(parts, 1);
    PartsLater(parts, rest, 0);
  }

  lemma NoParts()
    ensures Parts([], 0) == []
  {
  }

  lemma SegmentsAre(text: string)
    ensures Segments(text) == Parts(SplitRest(text), 0)
  {
    hide Parts, Chunk, Find, UrlStart;
    if text == "" {
      SplitRestStep("");
      assert Find("", STARS).None?;
      OnePart("");
      NothingToChunk();
      NoParts();
    }
  }

  lemma NothingToChunk()
    ensures Chunk("") == []
  {
    hide StartsUrl;
    ChunkWithoutUrl("");
  }

  /** Which texts are emphasised, read from left to right: none before the first "**"; what follows
      it up to the next one, or to the end; and after that one as from the start. */
  lemma EmphasisLaw(text: string)
    ensures match Find(text, STARS)
            case None => Segments(text) == Chunk(text)
            case Some(i) =>
              i + 2 <= |text| && match Find(text[i + 2..], STARS)
              case None => Segments(text) == Chunk(text[..i]) + Piece(text[i + 2..], {Emphasis})
              case Some(j) =>
                && j + 2 <= |text[i + 2..]|
                && Segments(text)
                   == Chunk(text[..i]) + Piece(text[i + 2..][..j], {Emphasis}) + Segments(text[i + 2..][j + 2..])
  {
    hide Chunk, Piece, Segments, SplitRest, Find, Parts;
    match Find(text, STARS)
    case None =>
      SegmentsAre(text);
      SplitRestStep(text);
      OnePart(text);
    case Some(i) =>
      StarsFit(text);
      StarsFit(text[i + 2..]);
      AfterStars(text, i, text[i + 2..]);
  }

  lemma StarsFit(text: string)
    ensures Find(text, STARS).Some? ==> Find(text, STARS).value + 2 <= |text|
  {
  }

  lemma AfterStars(text: string, i: nat, rest: string)
    requires i + 2 <= |text| && rest == text[i + 2..] && Find(text, STARS) == Some(i)
    requires Find(rest, STARS).Some? ==> Find(rest, STARS).value + 2 <= |rest|
    ensures match Find(rest, STARS)
            case None => Segments(text) == Chunk(text[..i]) + Piece(rest, {Emphasis})
            case Some(j) =>
              Segments(text) == Chunk(text[..i]) + Piece(rest[..j], {Emphasis}) + Segments(rest[j + 2..])
  {
    hide Chunk, Piece, Segments, SplitRest, Find, Parts;
    SegmentsAre(text);
    SplitRestStep(text);
    SplitRestStep(rest);
    match Find(rest, STARS)
    case None =>
      TwoParts(text[..i], rest, []);
      NoParts();
      assert [rest] + [] == [rest];
      assert Chunk(text[..i]) + Piece(rest, {Emphasis}) + [] == Chunk(text[..i]) + Piece(rest, {Emphasis});
    case Some(j) =>
      TwoParts(text[..i], rest[..j], SplitRest(rest[j + 2..]));
      SegmentsAre(rest[j + 2..]);
  }
}
