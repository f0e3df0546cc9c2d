/** What a rendered document shows: the texts of its labels, told from its inline events alone, and
    the tree of widgets in its boxes. */
module MarkdownLabels {
  import opened Order
  import opened MarkdownRender

  // ----- the markup of a label

  function InlinesOf(c: seq<Content>): seq<Inline> {
    if c == [] then []
    else (if c[0].Text? then [c[0].i] else []) + InlinesOf(c[1..])
  }

  function Joined(pieces: seq<string>): string {
    if pieces == [] then "" else pieces[0] + Joined(pieces[1..])
  }

  function Element(span: Span): string {
    match span
    case Em => "i"
    case Strong => "b"
    case A(_, _) => "a"
    case CodeSpan => "span"
    case Del => "s"
    case U => "u"
  }

  const MONOSPACE := "<span font_family=\"monospace\" size=\"small\" background=\"#808080\" bgalpha=\"20%\">"

  /** A link without a title has its address as title. */
  function OpeningTag(span: Span): string {
    match span
    case A(href, None) => "<a href=\"" + href + "\" title=\"" + href + "\">"
    case A(href, Some(title)) => "<a href=\"" + href + "\" title=\"" + title + "\">"
    case CodeSpan => MONOSPACE
    case _ => "<" + Element(span) + ">"
  }

  function Written(env: Env, code: bool, buf: string): string {
    if code then buf else env.escape(buf)
  }

  /** What one inline event adds: a text as it is in a code block and escaped elsewhere, a break as
      a space or a newline once something precedes it, a span as its tags. */
  ghost predicate PieceOf(env: Env, code: bool, i: Inline, atStart: bool, piece: string) {
    match i
    case EnterSpan(span) => piece == OpeningTag(span)
    case LeaveSpan(span) => piece == "</" + Element(span) + ">"
    case Chars(buf) => piece == Written(env, code, buf)
    case SoftBreak(buf) => piece == if atStart then Written(env, code, buf) else " "
    case HardBreak(buf) => piece == if atStart then Written(env, code, buf) else "\n"
  }

  /** Each event adds its piece to what came before. */
  ghost predicate PiecesOf(env: Env, code: bool, before: string, inlines: seq<Inline>, pieces: seq<string>)
    decreases inlines
  {
    && |pieces| == |inlines|
    && (inlines != [] ==>
          && PieceOf(env, code, inlines[0], before == "", pieces[0])
          && PiecesOf(env, code, before + pieces[0], inlines[1..], pieces[1..]))
  }

  /** The markup of a block: the pieces of its inline events, in order. */
  ghost predicate MarkupOf(env: Env, code: bool, inlines: seq<Inline>, markup: string) {
    exists pieces :: PiecesOf(env, code, "", inlines, pieces) && markup == Joined(pieces)
  }

  lemma Tags(span: Span)
    ensures SpanMarkup(span, true) == OpeningTag(span)
    ensures SpanMarkup(span, false) == "</" + Element(span) + ">"
  {
  }

  lemma PieceAdded(env: Env, t: BlockType, markup: string, i: Inline) returns (piece: string)
    ensures PieceOf(env, t.Code?, i, markup == "", piece) && AppendInline(env, t, markup, i) == markup + piece
  {
    hide SpanMarkup, Element, OpeningTag;
    match i
    case EnterSpan(span) =>
      Tags(span);
      piece := SpanMarkup(span, true);
    case LeaveSpan(span) =>
      Tags(span);
      piece := SpanMarkup(span, false);
    case Chars(buf) =>
      piece := Written(env, t.Code?, buf);
    case SoftBreak(buf) =>
      piece := if markup == "" then Written(env, t.Code?, buf) else " ";
    case HardBreak(buf) =>
      piece := if markup == "" then Written(env, t.Code?, buf) else "\n";
  }

  lemma OnePieceMore(env: Env, code: bool, before: string, i: Inline, piece: string, inlines: seq<Inline>,
      pieces: seq<string>)
    requires PieceOf(env, code, i, before == "", piece) && PiecesOf(env, code, before + piece, inlines, pieces)
    ensures PiecesOf(env, code, before, [i] + inlines, [piece] + pieces)
    ensures before + Joined([piece] + pieces) == before + piece + Joined(pieces)
  {
    hide PieceOf;
    assert ([i] + inlines)[1..] == inlines && ([piece] + pieces)[1..] == pieces;
    assert before + (piece + Joined(pieces)) == before + piece + Joined(pieces);
  }

  lemma {:induction false} TextIsPieces(env: Env, t: BlockType, markup: string, c: seq<Content>)
    returns (pieces: seq<string>)
    ensures PiecesOf(env, t.Code?, markup, InlinesOf(c), pieces)
    ensures OwnText(env, t, markup, c) == markup + Joined(pieces)
    decreases c
  {
    hide AppendInline, PieceOf, PiecesOf, Joined;
    if c == [] {
      pieces := [];
      NoPieces(env, t.Code?, markup);
    } else if c[0].Text? {
      var piece := PieceAdded(env, t, markup, c[0].i);
      var rest := TextIsPieces(env, t, markup + piece, c[1..]);
      pieces := [piece] + rest;
      OnePieceMore(env, t.Code?, markup, c[0].i, piece, InlinesOf(c[1..]), rest);
    } else {
      pieces := TextIsPieces(env, t, markup, c[1..]);
      assert InlinesOf(c) == InlinesOf(c[1..]);
    }
  }

  lemma NoPieces(env: Env, code: bool, markup: string)
    ensures PiecesOf(env, code, markup, [], []) && markup + Joined([]) == markup
  {
  }

  lemma OwnTextIsMarkup(env: Env, t: BlockType, c: seq<Content>)
    ensures MarkupOf(env, t.Code?, InlinesOf(c), OwnText(env, t, "", c))
  {
    hide PiecesOf, OwnText;
    var pieces := TextIsPieces(env, t, "", c);
    assert "" + Joined(pieces) == Joined(pieces);
  }

  // ----- what each block shows for itself

  /** The markup without a last character that is not graphic. */
  ghost predicate Shown(env: Env, markup: string, shown: string) {
    if markup == "" || env.isGraph(markup[|markup|-1]) then shown == markup
    else |shown| + 1 == |markup| && shown <= markup
  }

  /** The widget for a text that is not empty, by the type of its block. */
  ghost predicate IsWidget(t: BlockType, shown: string, w: Widget) {
    match t
    case Doc => w == Label("", shown)
    case Quote => w == QuoteBox(shown)
    case Code(lang) => w == CodeFrame(lang, shown)
    case H(level) =>
      && w.Label? && w.markup == shown
      && (if 1 <= level <= 4 then w.cssClass == "title-" + Decimal(level)
          else w.cssClass == if level == 5 then "heading" else "caption-heading")
    case _ => w == Label("body", shown)
  }

  /** A rule shows a separator, a list nothing, any other block its text if there is some. */
  ghost predicate OwnShown(env: Env, b: Block, w: seq<Widget>) {
    match b.t
    case Hr => w == [Separator]
    case Ul(_) => w == []
    case Ol(_) => w == []
    case _ =>
      exists markup, shown | MarkupOf(env, b.t.Code?, InlinesOf(b.content), markup) && Shown(env, markup, shown) ::
        if shown == "" then w == [] else |w| == 1 && IsWidget(b.t, shown, w[0])
  }

  lemma HeadingClasses(level: int)
    ensures 1 <= level <= 4 ==> HeadingClass(level) == "title-" + Decimal(level)
  {
    assert Decimal(1) == "1" && Decimal(2) == "2" && Decimal(3) == "3" && Decimal(4) == "4";
  }

  lemma TrimIsShown(env: Env, markup: string)
    ensures Shown(env, markup, Trim(env, markup))
  {
  }

  lemma OwnIsShown(env: Env, b: Block)
    ensures OwnShown(env, b, OwnWidgets(env, b.t, OwnText(env, b.t, "", b.content)))
  {
    hide OwnText, MarkupOf, Trim, HeadingClass, Decimal;
    OwnTextIsMarkup(env, b.t, b.content);
    var markup := OwnText(env, b.t, "", b.content);
    TrimIsShown(env, markup);
    if b.t.H? {
      HeadingClasses(b.t.level);
      HeadingOthers(b.t.level);
    }
  }

  lemma HeadingOthers(level: int)
    ensures !(1 <= level <= 4) ==> HeadingClass(level) == if level == 5 then "heading" else "caption-heading"
  {
  }

  /** Terminating a block, in any context. Without a type the pending markup only loses its last
      character. With one, the pending markup is gone and shown; without pending markup, only a rule
      shows something, a list is left, and what cannot be without text fails. A heading or a code
      block cannot be shown without its detail. */
  lemma TerminateMeaning(env: Env, s: Ctx, t: Option<BlockType>, detail: bool)
    requires s.blockStack != []
    ensures var r := OnTerminate(env, s, t, detail);
      match t
      case None =>
        r.Some? && if s.markup.None? then r.value == s
                   else exists shown :: Shown(env, s.markup.value, shown) && r.value == s.(markup := Some(shown))
      case Some(t) =>
        if s.markup.None? then
          && (r.None? <==> t.Doc? || t.Quote? || t.P? || t.H? || t.Code?)
          && (t.Li? ==> r.value == s)
          && (t.Ul? || t.Ol? ==> r.value == s.(indent := s.indent - 1))
          && (t.Hr? ==> r.value == s.(appended := s.appended + [Show(CurrentContainer(s), Separator)]))
        else
          exists shown :: Shown(env, s.markup.value, shown)
            && (r.None? <==> shown != "" && !detail && (t.H? || t.Code?))
            && (r.Some? ==> exists w :: r.value == s.(markup := None, appended := s.appended + w)
                                        && ShownIn(CurrentContainer(s), t, shown, w))
  {
    hide HeadingClass, Decimal;
    if s.markup.Some? {
      var shown := Trim(env, s.markup.value);
      TrimIsShown(env, s.markup.value);
      hide Trim, Shown;
      if t.Some? && OnTerminate(env, s, t, detail).Some? {
        if t.value.H? {
          HeadingClasses(t.value.level);
          HeadingOthers(t.value.level);
        }
        var own := OwnWidgets(env, t.value, s.markup.value);
        var w := ShowAll(CurrentContainer(s), own);
        if own != [] {
          ShowOne(CurrentContainer(s), own[0]);
          assert own == [own[0]];
        }
        assert ShownIn(CurrentContainer(s), t.value, shown, w);
      }
    }
  }

  /** When entering or leaving a block fails, in any context: entering, when markup is pending outside
      every block, or is that of a heading or a code block and not empty; leaving, outside every
      block, or when no child ended the block, nothing is pending, and its type needs a text. */
  lemma WhenBlocksFail(env: Env, s: Ctx, t: BlockType)
    ensures OnEnter(env, s, t).None? <==>
      s.markup.Some? && (s.blockStack == [] || (Top(s).Some? && (Top(s).value.H? || Top(s).value.Code?)
                                                && !Shown(env, s.markup.value, "")))
    ensures OnLeave(env, s, t).None? <==>
      s.blockStack == [] || (Top(s).Some? && s.markup.None? && (t.Doc? || t.Quote? || t.P? || t.H? || t.Code?))
  {
    if s.markup.Some? {
      TrimIsShown(env, s.markup.value);
      assert Shown(env, s.markup.value, "") <==> Trim(env, s.markup.value) == "";
    }
    hide OwnWidgets, ShowAll, Trim, Shown, OpenItem;
  }

  ghost predicate ShownIn(box: nat, t: BlockType, shown: string, w: seq<Append>) {
    match t
    case Hr => w == [Show(box, Separator)]
    case Ul(_) => w == []
    case Ol(_) => w == []
    case _ =>
      if shown == "" then w == [] else |w| == 1 && w[0].Show? && w[0].box == box && IsWidget(t, shown, w[0].widget)
  }

  // ----- what a whole document shows

  /** The blocks in document order. */
  function Blocks(b: Block): seq<Block>
    decreases b, 0
  {
    [b] + BlocksIn(b.content)
  }

  function BlocksIn(c: seq<Content>): seq<Block>
    decreases c
  {
    if c == [] then []
    else (match c[0] case Text(_) => [] case Sub(b) => assert b < c[0]; Blocks(b)) + BlocksIn(c[1..])
  }

  /** The widgets that are no rows, in order. */
  function Leaves(w: seq<Widget>): seq<Widget>
    decreases w
  {
    if w == [] then []
    else
      var head := w[0];
      (match head case Row(_, children) => Leaves(children) case _ => [head]) + Leaves(w[1..])
  }

  function JoinedWidgets(ws: seq<seq<Widget>>): seq<Widget> {
    if ws == [] then [] else ws[0] + JoinedWidgets(ws[1..])
  }

  /** Each block shows what it shows for itself, one after the other. */
  ghost predicate ShowsInOrder(env: Env, blocks: seq<Block>, w: seq<Widget>) {
    exists ws :: EachShown(env, blocks, ws) && w == JoinedWidgets(ws)
  }

  ghost predicate EachShown(env: Env, blocks: seq<Block>, ws: seq<seq<Widget>>) {
    |ws| == |blocks| && forall i :: 0 <= i < |blocks| ==> OwnShown(env, blocks[i], ws[i])
  }

  lemma {:induction false} LeavesConcat(a: seq<Widget>, b: seq<Widget>)
    ensures Leaves(a + b) == Leaves(a) + Leaves(b)
    decreases a
  {
    if a == [] {
      assert a + b == b;
    } else {
      assert (a + b)[1..] == a[1..] + b;
      LeavesConcat(a[1..], b);
    }
  }

  lemma {:induction false} JoinedWidgetsConcat(a: seq<seq<Widget>>, b: seq<seq<Widget>>)
    ensures JoinedWidgets(a + b) == JoinedWidgets(a) + JoinedWidgets(b)
  {
    if a == [] {
      assert a + b == b;
    } else {
      assert (a + b)[1..] == a[1..] + b;
      JoinedWidgetsConcat(a[1..], b);
    }
  }

  lemma ShowsConcat(env: Env, a: seq<Block>, v: seq<Widget>, b: seq<Block>, w: seq<Widget>)
    requires ShowsInOrder(env, a, v) && ShowsInOrder(env, b, w)
    ensures ShowsInOrder(env, a + b, v + w)
  {
    hide OwnShown, JoinedWidgets;
    var x :| EachShown(env, a, x) && v == JoinedWidgets(x);
    var y :| EachShown(env, b, y) && w == JoinedWidgets(y);
    JoinedWidgetsConcat(x, y);
    assert EachShown(env, a + b, x + y);
  }

  lemma ShowsOne(env: Env, b: Block, w: seq<Widget>)
    requires OwnShown(env, b, w)
    ensures ShowsInOrder(env, [b], w)
  {
    hide OwnShown;
    assert [w][1..] == [] && w + [] == w;
    assert EachShown(env, [b], [w]) && JoinedWidgets([w]) == w;
  }

  lemma ShowsNone(env: Env)
    ensures ShowsInOrder(env, [], [])
  {
    assert EachShown(env, [], []) && JoinedWidgets([]) == [];
  }

  lemma OwnLeaves(env: Env, b: Block)
    ensures var w := OwnWidgets(env, b.t, OwnText(env, b.t, "", b.content)); Leaves(w) == w
  {
    hide OwnText, Trim;
    var w := OwnWidgets(env, b.t, OwnText(env, b.t, "", b.content));
    if w != [] {
      assert w[1..] == [] && [w[0]] + [] == w;
    }
  }

  /** Apart from rows, a rendered block shows each block inside it, in document order. */
  lemma {:induction false} BlockShown(env: Env, b: Block, underOl: bool, k: Counter)
    ensures ShowsInOrder(env, Blocks(b), Leaves(Render(env, b, underOl, k).0))
    decreases b, 0
  {
    hide OwnText, OwnWidgets, OwnShown, ShowsInOrder, RenderSubs, BlocksIn;
    var own := OwnWidgets(env, b.t, OwnText(env, b.t, "", b.content));
    OwnIsShown(env, b);
    OwnLeaves(env, b);
    ShowsOne(env, b, own);
    var (under, k1) :=
      match b.t
      case Li => (false, k.(index := k.index + 1))
      case Ul(mark) => (false, Counter(0, mark))
      case Ol(delimiter) => (true, Counter(0, delimiter))
      case _ => (false, k);
    SubsShown(env, b.content, under, k1);
    var w := RenderSubs(env, b.content, under, k1).0;
    LeavesConcat(own, w);
    ShowsConcat(env, [b], own, BlocksIn(b.content), Leaves(w));
    RenderedLeaves(env, b, underOl, k, own, w);
  }

  lemma RenderedLeaves(env: Env, b: Block, underOl: bool, k: Counter, own: seq<Widget>, w: seq<Widget>)
    requires own == OwnWidgets(env, b.t, OwnText(env, b.t, "", b.content))
    requires b.t.Li? ==> w == RenderSubs(env, b.content, false, k.(index := k.index + 1)).0
    requires b.t.Ul? ==> w == RenderSubs(env, b.content, false, Counter(0, b.t.mark)).0
    requires b.t.Ol? ==> w == RenderSubs(env, b.content, true, Counter(0, b.t.delimiter)).0
    requires !b.t.Li? && !b.t.Ul? && !b.t.Ol? ==> w == RenderSubs(env, b.content, false, k).0
    ensures Leaves(Render(env, b, underOl, k).0) == Leaves(own + w)
  {
    hide OwnText, Trim, RenderSubs;
    if b.t.Li? {
      var r := Render(env, b, underOl, k).0;
      assert r[1..] == [] && Leaves(own + w) + [] == Leaves(own + w);
    } else if b.t.Ul? || b.t.Ol? {
      assert own + w == w;
    }
  }

  lemma {:induction false} SubsShown(env: Env, c: seq<Content>, underOl: bool, k: Counter)
    ensures ShowsInOrder(env, BlocksIn(c), Leaves(RenderSubs(env, c, underOl, k).0))
    decreases c
  {
    hide ShowsInOrder, Render, Blocks;
    if c == [] {
      ShowsNone(env);
    } else if c[0].Text? {
      SubsShown(env, c[1..], underOl, k);
      assert BlocksIn(c) == BlocksIn(c[1..]);
    } else {
      assert c[0].b < c[0];
      BlockShown(env, c[0].b, underOl, k);
      var (w, k1) := Render(env, c[0].b, underOl, k);
      SubsShown(env, c[1..], underOl, k1);
      var ws := RenderSubs(env, c[1..], underOl, k1).0;
      LeavesConcat(w, ws);
      ShowsConcat(env, Blocks(c[0].b), Leaves(w), BlocksIn(c[1..]), Leaves(ws));
    }
  }

  // ----- what the boxes hold in the end

  /** The widgets in a box after all appends; a row holds those of its own box. */
  function Contents(a: seq<Append>, box: nat): seq<Widget>
    decreases |a|
  {
    if a == [] then []
    else
      (match a[0]
       case Show(b, w) => if b == box then [w] else []
       case OpenRow(b, prefix, inner) => if b == box then [Row(prefix, Contents(a[1..], inner))] else [])
      + Contents(a[1..], box)
  }

  ghost predicate Outside(a: seq<Append>, low: nat, high: nat) {
    forall x :: x in a ==> !(low <= x.box < high)
  }

  lemma {:induction false} OutsideEmpty(a: seq<Append>, low: nat, high: nat, box: nat)
    requires Outside(a, low, high) && low <= box < high
    ensures Contents(a, box) == []
  {
    if a != [] {
      assert a[0] in a;
      assert forall x :: x in a[1..] ==> x in a;
      OutsideEmpty(a[1..], low, high, box);
    }
  }

  ghost predicate PlacedBefore(w: seq<Widget>, a: seq<Append>, rest: seq<Append>, box: nat, next: nat, n: nat) {
    && next <= n
    && (forall x :: x in a ==> x.box == box || next <= x.box < n)
    && Contents(a + rest, box) == w + Contents(rest, box)
    && (forall other: nat | other != box && !(next <= other < n) :: Contents(a + rest, other) == Contents(rest, other))
  }

  lemma {:induction false} NextGrows(w: seq<Widget>, box: nat, next: nat)
    ensures next <= Place(w, box, next).1
    decreases w
  {
    if w != [] {
      NextGrowsOne(w[0], box, next);
      NextGrows(w[1..], box, PlaceOne(w[0], box, next).1);
    }
  }

  lemma {:induction false} NextGrowsOne(w: Widget, box: nat, next: nat)
    ensures next <= PlaceOne(w, box, next).1
    decreases w, 0
  {
    if w.Row? {
      NextGrows(w.children, next, next + 1);
    }
  }

  /** Placing widgets into a box puts those widgets there, and changes no other box but new ones. */
  lemma {:induction false} PlaceContents(w: seq<Widget>, box: nat, next: nat, rest: seq<Append>)
    requires box < next && Outside(rest, next, Place(w, box, next).1)
    ensures var (a, n) := Place(w, box, next); PlacedBefore(w, a, rest, box, next, n)
    decreases w
  {
    hide PlaceOne, PlacedBefore;
    if w == [] {
      NothingPlaced(rest, box, next);
    } else {
      var (o, m) := PlaceOne(w[0], box, next);
      var (b, n) := Place(w[1..], box, m);
      NextGrowsOne(w[0], box, next);
      NextGrows(w[1..], box, m);
      PlaceContents(w[1..], box, m, rest);
      RestOutside(w[1..], b, rest, box, next, m, n);
      PlaceOneContents(w[0], box, next, b + rest);
      PlacedTogether(w[0], w[1..], o, b, rest, box, next, m, n);
      assert [w[0]] + w[1..] == w;
    }
  }

  lemma NothingPlaced(rest: seq<Append>, box: nat, next: nat)
    ensures PlacedBefore([], [], rest, box, next, next)
  {
    assert [] + rest == rest;
    assert [] + Contents(rest, box) == Contents(rest, box);
  }

  lemma RestOutside(w: seq<Widget>, b: seq<Append>, rest: seq<Append>, box: nat, next: nat, m: nat, n: nat)
    requires PlacedBefore(w, b, rest, box, m, n) && box < next <= m && Outside(rest, next, n)
    ensures Outside(b + rest, next, m)
  {
    hide Contents;
  }

  lemma PlacedTogether(x: Widget, w: seq<Widget>, o: seq<Append>, b: seq<Append>, rest: seq<Append>, box: nat,
      next: nat, m: nat, n: nat)
    requires PlacedBefore([x], o, b + rest, box, next, m) && PlacedBefore(w, b, rest, box, m, n)
    ensures PlacedBefore([x] + w, o + b, rest, box, next, n)
  {
    hide Contents;
    assert (o + b) + rest == o + (b + rest);
    assert ([x] + w) + Contents(rest, box) == [x] + (w + Contents(rest, box));
  }

  lemma {:induction false} PlaceOneContents(w: Widget, box: nat, next: nat, rest: seq<Append>)
    requires box < next && Outside(rest, next, PlaceOne(w, box, next).1)
    ensures var (a, n) := PlaceOne(w, box, next); PlacedBefore([w], a, rest, box, next, n)
    decreases w, 0
  {
    hide Place, Outside;
    if w.Row? {
      var (a, n) := Place(w.children, next, next + 1);
      NextGrows(w.children, next, next + 1);
      OutsideLess(rest, next, n);
      PlaceContents(w.children, next, next + 1, rest);
      OutsideEmpty(rest, next, n, next);
      RowPlaced(w, a, rest, box, next, n);
    } else {
      assert ([Show(box, w)] + rest)[1..] == rest;
    }
  }

  lemma OutsideLess(a: seq<Append>, low: nat, high: nat)
    requires Outside(a, low, high)
    ensures Outside(a, low + 1, high)
  {
  }

  lemma RowPlaced(w: Widget, a: seq<Append>, rest: seq<Append>, box: nat, next: nat, n: nat)
    requires w.Row? && box < next < n && Contents(rest, next) == []
    requires PlacedBefore(w.children, a, rest, next, next + 1, n)
    ensures PlacedBefore([w], [OpenRow(box, w.prefix, next)] + a, rest, box, next, n)
  {
    var all := [OpenRow(box, w.prefix, next)] + a;
    assert (all + rest)[1..] == a + rest;
    assert w.children + [] == w.children;
  }

  /** The boxes hold in the end the very tree of widgets that was placed. */
  lemma BoxesHoldTree(w: seq<Widget>)
    ensures Contents(Place(w, 0, 1).0, 0) == w
  {
    var (a, n) := Place(w, 0, 1);
    PlaceContents(w, 0, 1, []);
    assert a + [] == a && w + [] == w;
  }

  /** The row of an item holds what the item shows, and no other block's; only items of an ordered
      list have a number. */
  lemma ItemRow(env: Env, item: Block, underOl: bool, k: Counter)
    requires item.t.Li?
    ensures var w := Render(env, item, underOl, k).0;
      && |w| == 1 && w[0].Row? && (w[0].prefix.Number? <==> underOl)
      && ShowsInOrder(env, Blocks(item), Leaves(w[0].children))
  {
    hide OwnWidgets, OwnText, ShowsInOrder, Blocks, RenderSubs;
    BlockShown(env, item, underOl, k);
    var w := Render(env, item, underOl, k).0;
    assert w[1..] == [] && Leaves(w[0].children) + [] == Leaves(w[0].children);
  }

  /** A list shows one row for each item, in order, which holds what that item shows. */
  lemma {:induction false} RowsHoldItems(env: Env, c: seq<Content>, underOl: bool, k: Counter)
    requires Items(c)
    ensures var rows := RenderSubs(env, c, underOl, k).0;
      && |rows| == |c|
      && forall i :: 0 <= i < |rows| ==>
           && rows[i].Row? && (rows[i].prefix.Number? <==> underOl)
           && ShowsInOrder(env, Blocks(c[i].b), Leaves(rows[i].children))
    decreases c
  {
    hide Render, Leaves, Blocks, ShowsInOrder;
    if c != [] {
      var (w, k1) := Render(env, c[0].b, underOl, k);
      ItemRow(env, c[0].b, underOl, k);
      RowsHoldItems(env, c[1..], underOl, k1);
      assert forall i :: 0 < i < |c| ==> c[i] == c[1..][i-1];
    }
  }

  /** Every well-formed document whose own texts come first ends with boxes that show, in document
      order, each of its blocks: its text, put together from its inline events, in the widget for
      its type. */
  lemma DocumentShown(env: Env, doc: Block)
    requires WellFormed(doc) && TextFirst(doc)
    ensures var r := Run(env, START, Events(doc));
            r.Some? && ShowsInOrder(env, Blocks(doc), Leaves(Contents(r.value.appended, 0)))
  {
    hide *;
    DocumentRendered(env, doc);
    var w := Render(env, doc, false, Counter(0, '\0')).0;
    BoxesHoldTree(w);
    BlockShown(env, doc, false, Counter(0, '\0'));
  }
}
