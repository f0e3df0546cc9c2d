/** The markdown renderer: callbacks of an event parser change one context, and together must lay
    out the document as a recursive walk over its tree would. */
module MarkdownRender {
  import opened Order

  // ----- events and documents

  datatype BlockType =
    | Doc | Quote | Ul(mark: char) | Ol(delimiter: char) | Li
    | Hr | H(level: int) | Code(lang: Option<string>) | P

  datatype Span = Em | Strong | A(href: string, title: Option<string>) | CodeSpan | Del | U

  datatype Inline =
    | EnterSpan(span: Span)
    | LeaveSpan(span: Span)
    | Chars(buf: string)
    | SoftBreak(buf: string)
    | HardBreak(buf: string)

  datatype Event = Enter(t: BlockType) | Leave(t: BlockType) | InlineEvent(i: Inline)

  /** A block and, in document order, its own inline content and its child blocks. */
  datatype Block = Block(t: BlockType, content: seq<Content>)
  datatype Content = Text(i: Inline) | Sub(b: Block)

  function Events(b: Block): seq<Event>
    decreases b, 0
  {
    [Enter(b.t)] + (ContentEvents(b.content) + [Leave(b.t)])
  }

  function ContentEvents(c: seq<Content>): seq<Event>
    decreases c
  {
    if c == [] then []
    else (match c[0] case Text(i) => [InlineEvent(i)] case Sub(b) => assert b < c[0]; Events(b)) + ContentEvents(c[1..])
  }

  // ----- the context

  datatype Prefix = Bullet | Number(n: int, delimiter: char)

  /** What is shown. A row is a list item: its prefix and the box its content goes to. */
  datatype Widget =
    | Label(cssClass: string, markup: string)
    | QuoteBox(markup: string)
    | Separator
    | CodeFrame(lang: Option<string>, source: string)
    | Row(prefix: Prefix, children: seq<Widget>)

  /** One gtk_box_append: into which box, and what; the content box of a row has its own number. */
  datatype Append = Show(box: nat, widget: Widget) | OpenRow(box: nat, prefix: Prefix, inner: nat)

  /** Library calls: g_markup_escape_text and g_unichar_isgraph. */
  datatype Env = Env(escape: string -> string, isGraph: char -> bool)

  /** A stack entry of -1 is `None`. Box 0 is the widget's own box. */
  datatype Ctx = Ctx(
    blockStack: seq<Option<BlockType>>,
    containerStack: seq<nat>,
    markup: Option<string>,
    indent: int,
    listIndex: int,
    listPrefix: char,
    appended: seq<Append>,
    nextBox: nat)

  const START := Ctx([], [], None, 0, 0, '\0', [], 1)

  function Top(s: Ctx): Option<BlockType> {
    if s.blockStack == [] then None else s.blockStack[|s.blockStack|-1]
  }

  function CurrentContainer(s: Ctx): nat {
    if s.containerStack == [] then 0 else s.containerStack[|s.containerStack|-1]
  }

  function SpanMarkup(span: Span, enter: bool): string {
    match span
    case Em => if enter then "<i>" else "</i>"
    case Strong => if enter then "<b>" else "</b>"
    case A(href, title) =>
      if enter then "<a href=\"" + href + "\" title=\"" + (if title.Some? then title.value else href) + "\">"
      else "</a>"
    case CodeSpan =>
      if enter then "<span font_family=\"monospace\" size=\"small\" background=\"#808080\" bgalpha=\"20%\">"
      else "</span>"
    case Del => if enter then "<s>" else "</s>"
    case U => if enter then "<u>" else "</u>"
  }

  /** The markup after one more inline event; code blocks take their text as it is. */
  function AppendInline(env: Env, t: BlockType, markup: string, i: Inline): string {
    markup +
    match i
    case EnterSpan(span) => SpanMarkup(span, true)
    case LeaveSpan(span) => SpanMarkup(span, false)
    case Chars(buf) => if t.Code? then buf else env.escape(buf)
    case SoftBreak(buf) => if markup != "" then " " else if t.Code? then buf else env.escape(buf)
    case HardBreak(buf) => if markup != "" then "\n" else if t.Code? then buf else env.escape(buf)
  }

  /** A last character that is not graphic is dropped. */
  function Trim(env: Env, markup: string): string {
    if markup != "" && !env.isGraph(markup[|markup|-1]) then markup[..|markup|-1] else markup
  }

  function HeadingClass(level: int): string {
    if level == 1 then "title-1" else if level == 2 then "title-2" else if level == 3 then "title-3"
    else if level == 4 then "title-4" else if level == 5 then "heading" else "caption-heading"
  }

  /** What a block shows for its own markup when it is terminated. */
  function OwnWidgets(env: Env, t: BlockType, markup: string): seq<Widget> {
    var m := Trim(env, markup);
    match t
    case Hr => [Separator]
    case Ul(_) => []
    case Ol(_) => []
    case _ =>
      if m == "" then []
      else
        match t
        case Doc => [Label("", m)]
        case Quote => [QuoteBox(m)]
        case H(level) => [Label(HeadingClass(level), m)]
        case Code(lang) => [CodeFrame(lang, m)]
        case _ => [Label("body", m)]
  }

  function ShowAll(box: nat, w: seq<Widget>): seq<Append> {
    if w == [] then [] else ShowAll(box, w[..|w|-1]) + [Show(box, w[|w|-1])]
  }

  lemma ShowOne(box: nat, w: Widget)
    ensures ShowAll(box, [w]) == [Show(box, w)]
  {
  }

  // ----- the callbacks, as functions; `None` is a failed assertion or a NULL dereference

  /** terminate_block; `detail` is false when it is called with a NULL detail. */
  function OnTerminate(env: Env, s: Ctx, t: Option<BlockType>, detail: bool): Option<Ctx> {
    if s.blockStack == [] then None
    else
      match t
      case None => Some(if s.markup.Some? then s.(markup := Some(Trim(env, s.markup.value))) else s)
      case Some(t) =>
        if s.markup.None? then
          match t
          case Ul(_) => Some(s.(indent := s.indent - 1))
          case Ol(_) => Some(s.(indent := s.indent - 1))
          case Li => Some(s)
          case Hr => Some(s.(appended := s.appended + [Show(CurrentContainer(s), Separator)]))
          case _ => None
        else if !detail && (t.H? || t.Code?) && Trim(env, s.markup.value) != "" then None
        else
          Some(s.(markup := None,
                  appended := s.appended + ShowAll(CurrentContainer(s), OwnWidgets(env, t, s.markup.value))))
  }

  /** The start of enter_block: a block with pending markup is ended by its first child block. */
  function Interrupt(env: Env, s: Ctx): Option<Ctx> {
    if s.markup.None? then Some(s)
    else
      match OnTerminate(env, s, Top(s), false)
      case None => None
      case Some(s1) => Some(s1.(blockStack := s1.blockStack[..|s.blockStack|-1] + [None]))
  }

  function Push(s: Ctx, t: BlockType): Ctx {
    s.(blockStack := s.blockStack + [Some(t)])
  }

  function OpenItem(s: Ctx): Ctx {
    var prefix := if Top(s).Some? && Top(s).value.Ol? then Number(s.listIndex, s.listPrefix) else Bullet;
    s.(appended := s.appended + [OpenRow(CurrentContainer(s), prefix, s.nextBox)],
       containerStack := s.containerStack + [s.nextBox],
       nextBox := s.nextBox + 1,
       listIndex := s.listIndex + 1,
       markup := Some(""))
  }

  function OnEnter(env: Env, s: Ctx, t: BlockType): Option<Ctx> {
    match Interrupt(env, s)
    case None => None
    case Some(s1) =>
      match t
      case Ul(mark) => Some(Push(s1.(indent := s1.indent + 1, listIndex := 0, listPrefix := mark), t))
      case Ol(delimiter) => Some(Push(s1.(indent := s1.indent + 1, listIndex := 0, listPrefix := delimiter), t))
      case Li => Some(Push(OpenItem(s1), t))
      case _ => Some(Push(s1.(markup := Some("")), t))
  }

  function DropLast<T>(s: seq<T>): seq<T> {
    if s == [] then s else s[..|s|-1]
  }

  function OnLeave(env: Env, s: Ctx, t: BlockType): Option<Ctx> {
    if s.blockStack == [] then None
    else
      var ended :=
        if t.Li? then (if s.markup.Some? then OnTerminate(env, s, Some(t), true) else Some(s))
        else if Top(s).Some? then OnTerminate(env, s, Some(t), true)
        else Some(s);
      match ended
      case None => None
      case Some(s1) =>
        Some(s1.(blockStack := DropLast(s1.blockStack),
                 containerStack := if t.Li? then DropLast(s1.containerStack) else s1.containerStack))
  }

  function OnInline(env: Env, s: Ctx, i: Inline): Option<Ctx> {
    if s.markup.None? then None
    else
      var t := if Top(s).Some? then Top(s).value else P;
      Some(s.(markup := Some(AppendInline(env, t, s.markup.value, i))))
  }

  function Step(env: Env, s: Ctx, e: Event): Option<Ctx> {
    match e
    case Enter(t) => OnEnter(env, s, t)
    case Leave(t) => OnLeave(env, s, t)
    case InlineEvent(i) => OnInline(env, s, i)
  }

  function Run(env: Env, s: Ctx, es: seq<Event>): Option<Ctx>
    decreases es
  {
    if es == [] then Some(s)
    else
      match Step(env, s, es[0])
      case None => None
      case Some(s1) => Run(env, s1, es[1..])
  }

  // ----- the recursive rendering

  /** The number and delimiter that the next item of an ordered list would show. */
  datatype Counter = Counter(index: int, delimiter: char)

  function OwnText(env: Env, t: BlockType, markup: string, c: seq<Content>): string
    decreases c
  {
    if c == [] then markup
    else if c[0].Text? then OwnText(env, t, AppendInline(env, t, markup, c[0].i), c[1..])
    else OwnText(env, t, markup, c[1..])
  }

  /** A block shows its own text, then its child blocks; a list item puts both into a row of its
      own. The counter is threaded through as the context threads it. */
  function Render(env: Env, b: Block, underOl: bool, k: Counter): (seq<Widget>, Counter)
    decreases b, 0
  {
    match b.t
    case Li =>
      var (w, k1) := RenderSubs(env, b.content, false, k.(index := k.index + 1));
      ([Row(if underOl then Number(k.index, k.delimiter) else Bullet,
            OwnWidgets(env, Li, OwnText(env, Li, "", b.content)) + w)],
       k1)
    case Ul(mark) => RenderSubs(env, b.content, false, Counter(0, mark))
    case Ol(delimiter) => RenderSubs(env, b.content, true, Counter(0, delimiter))
    case t =>
      var (w, k1) := RenderSubs(env, b.content, false, k);
      (OwnWidgets(env, t, OwnText(env, t, "", b.content)) + w, k1)
  }

  function RenderSubs(env: Env, c: seq<Content>, underOl: bool, k: Counter): (seq<Widget>, Counter)
    decreases c
  {
    if c == [] then ([], k)
    else if c[0].Text? then RenderSubs(env, c[1..], underOl, k)
    else
      assert c[0].b < c[0];
      var (w, k1) := Render(env, c[0].b, underOl, k);
      var (ws, k2) := RenderSubs(env, c[1..], underOl, k1);
      (w + ws, k2)
  }

  /** Placing widgets into a box, first to last; each row opens a box with the next number and
      places its children there. */
  function Place(w: seq<Widget>, box: nat, next: nat): (seq<Append>, nat)
    decreases w
  {
    if w == [] then ([], next)
    else
      var (a, n) := PlaceOne(w[0], box, next);
      var (b, m) := Place(w[1..], box, n);
      (a + b, m)
  }

  function PlaceOne(w: Widget, box: nat, next: nat): (seq<Append>, nat)
    decreases w, 0
  {
    match w
    case Row(prefix, children) =>
      var (a, n) := Place(children, next, next + 1);
      ([OpenRow(box, prefix, next)] + a, n)
    case _ => ([Show(box, w)], next)
  }

  // ----- which documents are safe

  predicate IsLeaf(t: BlockType) {
    t.P? || t.H? || t.Code? || t.Hr?
  }

  /** Leaf blocks have no child blocks, as in CommonMark. */
  ghost predicate WellFormed(b: Block)
    decreases b, 0
  {
    && (IsLeaf(b.t) ==> forall i :: 0 <= i < |b.content| ==> b.content[i].Text?)
    && WellFormedContent(b.content)
  }

  ghost predicate WellFormedContent(c: seq<Content>)
    decreases c
  {
    c != [] ==> (c[0].Sub? ==> assert c[0].b < c[0]; WellFormed(c[0].b)) && WellFormedContent(c[1..])
  }

  /** In every block the own text comes before the first child block; a list has none. */
  predicate TextFirst(b: Block)
    decreases b, 0
  {
    TextFirstContent(b.content, b.t.Ul? || b.t.Ol?)
  }

  predicate TextFirstContent(c: seq<Content>, subsOnly: bool)
    decreases c
  {
    c == [] || match c[0]
               case Text(_) => !subsOnly && TextFirstContent(c[1..], false)
               case Sub(b) => assert b < c[0]; TextFirst(b) && TextFirstContent(c[1..], true)
  }

  // ----- running and placing, in pieces

  lemma {:induction false} RunConcat(env: Env, s: Ctx, a: seq<Event>, b: seq<Event>)
    ensures Run(env, s, a + b) == match Run(env, s, a) case None => None case Some(t) => Run(env, t, b)
    decreases a
  {
    hide Step;
    if a == [] {
      assert a + b == b;
    } else {
      assert (a + b)[1..] == a[1..] + b;
      match Step(env, s, a[0])
      case None =>
      case Some(t) => RunConcat(env, t, a[1..], b);
    }
  }

  lemma RunOne(env: Env, s: Ctx, e: Event)
    ensures Run(env, s, [e]) == Step(env, s, e)
  {
    hide Step;
  }

  lemma {:induction false} PlaceConcat(a: seq<Widget>, b: seq<Widget>, box: nat, next: nat)
    ensures var (x, n) := Place(a, box, next); var (y, m) := Place(b, box, n);
            Place(a + b, box, next) == (x + y, m)
  {
    hide PlaceOne;
    if a == [] {
      assert a + b == b;
      var (y, _) := Place(b, box, next);
      assert [] + y == y;
    } else {
      assert (a + b)[1..] == a[1..] + b;
      var (o, n) := PlaceOne(a[0], box, next);
      PlaceConcat(a[1..], b, box, n);
      var (x, l) := Place(a[1..], box, n);
      var (y, m) := Place(b, box, l);
      assert (o + x) + y == o + (x + y);
    }
  }

  lemma {:induction false} PlaceOwn(env: Env, t: BlockType, markup: string, box: nat, next: nat)
    ensures Place(OwnWidgets(env, t, markup), box, next) == (ShowAll(box, OwnWidgets(env, t, markup)), next)
  {
    var w := OwnWidgets(env, t, markup);
    if w != [] {
      assert |w| == 1 && w[1..] == [] && w[..0] == [];
      assert PlaceOne(w[0], box, next) == ([Show(box, w[0])], next);
      assert [Show(box, w[0])] + [] == [Show(box, w[0])] && [] + [Show(box, w[0])] == [Show(box, w[0])];
    }
  }

  // ----- a block inside a context

  /** The context with more widgets placed in its current container. */
  function After(s: Ctx, w: seq<Widget>, k: Counter): Ctx {
    var (a, n) := Place(w, CurrentContainer(s), s.nextBox);
    s.(appended := s.appended + a, nextBox := n, listIndex := k.index, listPrefix := k.delimiter, markup := None)
  }

  function CounterOf(s: Ctx): Counter {
    Counter(s.listIndex, s.listPrefix)
  }

  lemma AfterAfter(s: Ctx, a: seq<Widget>, k: Counter, b: seq<Widget>, l: Counter)
    ensures After(After(s, a, k), b, l) == After(s, a + b, l)
  {
    hide Place;
    PlaceConcat(a, b, CurrentContainer(s), s.nextBox);
  }

  lemma AfterNothing(s: Ctx)
    requires s.markup.None?
    ensures After(s, [], CounterOf(s)) == s
  {
  }

  /** Blocks that a child block may interrupt. */
  predicate CanInterrupt(t: BlockType) {
    t.Doc? || t.Quote? || t.Li?
  }

  /** A context in which a block may start: nothing is pending, or the markup of a container is. */
  ghost predicate Ready(s: Ctx) {
    s.markup.Some? ==> s.blockStack != [] && Top(s).Some? && CanInterrupt(Top(s).value)
  }

  /** The context right after the pending markup, if any, was shown. */
  function Interrupted(env: Env, s: Ctx): Ctx {
    if s.markup.None? || s.blockStack == [] || Top(s).None? then s
    else
      After(s, OwnWidgets(env, Top(s).value, s.markup.value), CounterOf(s))
        .(blockStack := s.blockStack[..|s.blockStack|-1] + [None])
  }

  lemma InterruptShows(env: Env, s: Ctx)
    requires Ready(s)
    ensures Interrupt(env, s) == Some(Interrupted(env, s))
  {
    hide OwnWidgets, Place, ShowAll;
    if s.markup.Some? {
      PlaceOwn(env, Top(s).value, s.markup.value, CurrentContainer(s), s.nextBox);
    }
  }

  /** Leaving a block: its stack entry, and an item's container, are popped. */
  function Popped(s: Ctx, t: BlockType): Ctx {
    s.(blockStack := DropLast(s.blockStack),
       containerStack := if t.Li? then DropLast(s.containerStack) else s.containerStack,
       indent := if t.Ul? || t.Ol? then s.indent - 1 else s.indent)
  }

  /** Inside a block that is not a list: its own markup is pending, or was already shown. */
  ghost predicate Inside(s: Ctx, t: BlockType) {
    && s.blockStack != []
    && if t.Ul? || t.Ol? then s.markup.None? && Top(s) == Some(t)
       else if s.markup.Some? then Top(s) == Some(t)
       else Top(s).None?
  }

  lemma LeaveShows(env: Env, s: Ctx, t: BlockType)
    requires Inside(s, t)
    ensures OnLeave(env, s, t) ==
      Some(Popped(if s.markup.Some? then After(s, OwnWidgets(env, t, s.markup.value), CounterOf(s)) else s, t))
  {
    hide OwnWidgets, Place, ShowAll;
    if s.markup.Some? {
      PlaceOwn(env, t, s.markup.value, CurrentContainer(s), s.nextBox);
    }
  }

  /** The widgets still to come from the rest of a block's content, given its pending markup. */
  function Remaining(env: Env, t: BlockType, markup: Option<string>, c: seq<Content>, k: Counter)
    : (seq<Widget>, Counter) {
    var (w, k1) := RenderSubs(env, c, t.Ol?, k);
    ((if markup.Some? then OwnWidgets(env, t, OwnText(env, t, markup.value, c)) else []) + w, k1)
  }

  /** What running the rest of a block's content and leaving the block must give. */
  ghost predicate ContentRuns(env: Env, s: Ctx, t: BlockType, c: seq<Content>) {
    var r := Run(env, s, ContentEvents(c) + [Leave(t)]);
    && (r.Some? <==> TextFirstContent(c, s.markup.None?))
    && (r.Some? ==> r == Some(Popped(After(s, Remaining(env, t, s.markup, c, CounterOf(s)).0,
                                           Remaining(env, t, s.markup, c, CounterOf(s)).1), t)))
  }

  ghost predicate BlockRuns(env: Env, s: Ctx, b: Block) {
    var r := Run(env, s, Events(b));
    var i := Interrupted(env, s);
    var underOl := Top(i).Some? && Top(i).value.Ol?;
    && (r.Some? <==> TextFirst(b))
    && (r.Some? ==> r == Some(
                             After(i, Render(env, b, underOl, CounterOf(i)).0,
                                      Render(env, b, underOl, CounterOf(i)).1)))
  }

  lemma ContentEnds(env: Env, s: Ctx, t: BlockType)
    requires Inside(s, t)
    ensures ContentRuns(env, s, t, [])
  {
    hide OwnWidgets, Place, After, OnLeave, Popped;
    assert [] + [Leave(t)] == [Leave(t)];
    RunOne(env, s, Leave(t));
    LeaveShows(env, s, t);
    if s.markup.Some? {
      var w := OwnWidgets(env, t, s.markup.value);
      assert w + [] == w;
    } else {
      var none: seq<Widget> := [];
      assert none + none == none;
      AfterNothing(s);
    }
  }

  lemma RemainingText(env: Env, t: BlockType, markup: string, c: seq<Content>, k: Counter)
    requires c != [] && c[0].Text?
    ensures Remaining(env, t, Some(markup), c, k)
         == Remaining(env, t, Some(AppendInline(env, t, markup, c[0].i)), c[1..], k)
  {
    hide AppendInline, OwnWidgets;
  }

  /** One more inline event of a block. */
  lemma ContentText(env: Env, s: Ctx, t: BlockType, c: seq<Content>)
    requires Inside(s, t) && c != [] && c[0].Text?
    requires s.markup.Some? ==>
      var s1 := s.(markup := Some(AppendInline(env, t, s.markup.value, c[0].i)));
      ContentRuns(env, s1, t, c[1..])
    ensures ContentRuns(env, s, t, c)
  {
    hide AppendInline, Remaining, Popped;
    var rest := ContentEvents(c[1..]) + [Leave(t)];
    assert ContentEvents(c) + [Leave(t)] == [InlineEvent(c[0].i)] + rest;
    RunConcat(env, s, [InlineEvent(c[0].i)], rest);
    RunOne(env, s, InlineEvent(c[0].i));
    if s.markup.Some? {
      RemainingText(env, t, s.markup.value, c, CounterOf(s));
    }
  }

  lemma {:induction false} NoMoreText(env: Env, t: BlockType, markup: string, c: seq<Content>)
    requires TextFirstContent(c, true)
    ensures OwnText(env, t, markup, c) == markup
  {
    hide TextFirst;
    if c != [] {
      NoMoreText(env, t, markup, c[1..]);
    }
  }

  /** What Remaining gives when a child block comes next. */
  lemma RemainingSub(env: Env, t: BlockType, markup: Option<string>, c: seq<Content>, k: Counter)
    requires c != [] && c[0].Sub? && TextFirstContent(c[1..], true)
    ensures var own := if markup.Some? then OwnWidgets(env, t, markup.value) else [];
            var (w, k1) := Render(env, c[0].b, t.Ol?, k);
            var (ws, k2) := Remaining(env, t, None, c[1..], k1);
            Remaining(env, t, markup, c, k) == (own + w + ws, k2)
  {
    hide OwnWidgets, Render;
    if markup.Some? {
      NoMoreText(env, t, markup.value, c[1..]);
    }
    var own := if markup.Some? then OwnWidgets(env, t, markup.value) else [];
    var (w, k1) := Render(env, c[0].b, t.Ol?, k);
    var ws := RenderSubs(env, c[1..], t.Ol?, k1).0;
    assert own + (w + ws) == own + w + ([] + ws);
  }

  /** One more child block: the pending markup is shown, then the block, then the rest. */
  lemma ContentSub(env: Env, s: Ctx, t: BlockType, c: seq<Content>)
    requires Inside(s, t) && Ready(s) && c != [] && c[0].Sub?
    requires BlockRuns(env, s, c[0].b)
    requires var i := Interrupted(env, s);
      var (w, k1) := Render(env, c[0].b, t.Ol?, CounterOf(i));
      TextFirst(c[0].b) ==> ContentRuns(env, After(i, w, k1), t, c[1..])
    ensures ContentRuns(env, s, t, c)
  {
    hide OwnWidgets, Render, Remaining, Popped, Events, TextFirst, Place;
    var rest := ContentEvents(c[1..]) + [Leave(t)];
    assert ContentEvents(c) + [Leave(t)] == Events(c[0].b) + rest;
    RunConcat(env, s, Events(c[0].b), rest);
    if TextFirst(c[0].b) && TextFirstContent(c[1..], true) {
      ContentSubState(env, s, t, c);
    }
  }

  /** The contexts of ContentSub agree. */
  lemma ContentSubState(env: Env, s: Ctx, t: BlockType, c: seq<Content>)
    requires Inside(s, t) && c != [] && c[0].Sub? && TextFirstContent(c[1..], true)
    ensures var i := Interrupted(env, s);
      var (w, k1) := Render(env, c[0].b, t.Ol?, CounterOf(i));
      var s1 := After(i, w, k1);
      var (ws, k2) := Remaining(env, t, None, c[1..], CounterOf(s1));
      var (all, k3) := Remaining(env, t, s.markup, c, CounterOf(s));
      CounterOf(i) == CounterOf(s) && Popped(After(s1, ws, k2), t) == Popped(After(s, all, k3), t)
  {
    hide OwnWidgets, Render, Remaining, Place;
    RemainingSub(env, t, s.markup, c, CounterOf(s));
    var own := if s.markup.Some? then OwnWidgets(env, t, s.markup.value) else [];
    var (w, k1) := Render(env, c[0].b, t.Ol?, CounterOf(s));
    var (ws, k2) := Remaining(env, t, None, c[1..], k1);
    AfterAfter(s, own, CounterOf(s), w, k1);
    AfterAfter(s, own + w, k1, ws, k2);
    if s.markup.None? {
      AfterNothing(s);
    }
    StackIrrelevant(s, own, CounterOf(s), w, k1, ws, k2, t);
  }

  /** What is placed does not depend on the entry on top of the block stack. */
  lemma StackIrrelevant(s: Ctx, a: seq<Widget>, k: Counter, b: seq<Widget>, l: Counter, c: seq<Widget>, m: Counter,
      t: BlockType)
    requires s.blockStack != []
    ensures var i := After(s, a, k).(blockStack := s.blockStack[..|s.blockStack|-1] + [None]);
            Popped(After(After(i, b, l), c, m), t) == Popped(After(After(After(s, a, k), b, l), c, m), t)
  {
    hide Place;
  }

  // ----- the induction over the document

  lemma {:induction false} ContentCorrect(env: Env, s: Ctx, t: BlockType, c: seq<Content>)
    requires Inside(s, t) && WellFormedContent(c)
    requires IsLeaf(t) ==> s.markup.Some? && forall i :: 0 <= i < |c| ==> c[i].Text?
    ensures ContentRuns(env, s, t, c)
    decreases c
  {
    hide ContentRuns, BlockRuns, WellFormed, AppendInline, Render, After, Interrupted;
    if c == [] {
      ContentEnds(env, s, t);
    } else if c[0].Text? {
      if s.markup.Some? {
        ContentCorrect(env, s.(markup := Some(AppendInline(env, t, s.markup.value, c[0].i))), t, c[1..]);
      }
      ContentText(env, s, t, c);
    } else {
      assert c[0].b < c[0];
      BlockCorrect(env, s, c[0].b);
      var i := Interrupted(env, s);
      var (w, k1) := Render(env, c[0].b, t.Ol?, CounterOf(i));
      StillInside(env, s, t, w, k1);
      ContentCorrect(env, After(i, w, k1), t, c[1..]);
      ContentSub(env, s, t, c);
    }
  }

  lemma StillInside(env: Env, s: Ctx, t: BlockType, w: seq<Widget>, k: Counter)
    requires Inside(s, t)
    ensures Inside(After(Interrupted(env, s), w, k), t) && After(Interrupted(env, s), w, k).markup.None?
  {
    hide Place, OwnWidgets;
  }

  /** The context in which the content of a block runs. */
  function Entered(s: Ctx, t: BlockType): Ctx {
    match t
    case Ul(mark) => Push(s.(indent := s.indent + 1, listIndex := 0, listPrefix := mark), t)
    case Ol(delimiter) => Push(s.(indent := s.indent + 1, listIndex := 0, listPrefix := delimiter), t)
    case Li => Push(OpenItem(s), t)
    case _ => Push(s.(markup := Some("")), t)
  }

  lemma {:induction false} BlockCorrect(env: Env, s: Ctx, b: Block)
    requires Ready(s) && WellFormed(b)
    ensures BlockRuns(env, s, b)
    decreases b, 1
  {
    hide *;
    var i := Interrupted(env, s);
    var e := Entered(i, b.t);
    InterruptedHasNoMarkup(env, s);
    EnteredIsInside(i, b);
    RunEnter(env, s, b);
    WellFormedInside(b);
    ContentCorrect(env, e, b.t, b.content);
    BlockFromContent(env, s, b, i, e);
  }

  lemma WellFormedInside(b: Block)
    requires WellFormed(b)
    ensures WellFormedContent(b.content)
    ensures IsLeaf(b.t) ==> forall i :: 0 <= i < |b.content| ==> b.content[i].Text?
  {
  }

  lemma EnteredIsInside(i: Ctx, b: Block)
    requires i.markup.None?
    ensures Inside(Entered(i, b.t), b.t)
    ensures IsLeaf(b.t) ==> Entered(i, b.t).markup.Some?
  {
  }

  /** Entering a block shows what is pending and opens the block. */
  lemma RunEnter(env: Env, s: Ctx, b: Block)
    requires Ready(s)
    ensures Run(env, s, Events(b)) == Run(env, Entered(Interrupted(env, s), b.t),
        ContentEvents(b.content) + [Leave(b.t)])
  {
    hide Interrupt, Interrupted, OwnWidgets, After, ContentEvents, Run;
    InterruptShows(env, s);
    var rest := ContentEvents(b.content) + [Leave(b.t)];
    RunConcat(env, s, [Enter(b.t)], rest);
    RunOne(env, s, Enter(b.t));
    assert Step(env, s, Enter(b.t)) == Some(Entered(Interrupted(env, s), b.t));
  }

  lemma InterruptedHasNoMarkup(env: Env, s: Ctx)
    requires Ready(s)
    ensures Interrupted(env, s).markup.None?
  {
    hide Place, OwnWidgets;
  }

  lemma BlockFromContent(env: Env, s: Ctx, b: Block, i: Ctx, e: Ctx)
    requires i == Interrupted(env, s) && i.markup.None? && e == Entered(i, b.t)
    requires Run(env, s, Events(b)) == Run(env, e, ContentEvents(b.content) + [Leave(b.t)])
    requires ContentRuns(env, e, b.t, b.content)
    ensures BlockRuns(env, s, b)
  {
    hide Interrupted, Events, Run, TextFirstContent, Place, After, Popped, Remaining, Render;
    BlockState(env, b, i);
    assert e.markup.None? <==> b.t.Ul? || b.t.Ol?;
  }

  /** The context after a block's content is the context before it with the block's rendering. */
  lemma BlockState(env: Env, b: Block, i: Ctx)
    requires i.markup.None?
    ensures var e := Entered(i, b.t);
      var (w, k) := Remaining(env, b.t, e.markup, b.content, CounterOf(e));
      var underOl := Top(i).Some? && Top(i).value.Ol?;
      var (r, k1) := Render(env, b, underOl, CounterOf(i));
      Popped(After(e, w, k), b.t) == After(i, r, k1)
  {
    hide OwnWidgets, RenderSubs, OwnText;
    var e := Entered(i, b.t);
    var (w, k) := Remaining(env, b.t, e.markup, b.content, CounterOf(e));
    if b.t.Li? {
      ItemState(i, w, k);
    } else {
      var subs := RenderSubs(env, b.content, b.t.Ol?, CounterOf(e)).0;
      assert [] + subs == subs;
      OtherState(i, b.t, w, k);
    }
  }

  lemma ItemState(i: Ctx, w: seq<Widget>, k: Counter)
    requires i.markup.None?
    ensures var prefix := if Top(i).Some? && Top(i).value.Ol? then Number(i.listIndex, i.listPrefix) else Bullet;
            Popped(After(Entered(i, Li), w, k), Li) == After(i, [Row(prefix, w)], k)
  {
    var prefix := if Top(i).Some? && Top(i).value.Ol? then Number(i.listIndex, i.listPrefix) else Bullet;
    var (a, n) := Place(w, i.nextBox, i.nextBox + 1);
    var row := [Row(prefix, w)];
    assert row[1..] == [];
    var open := [OpenRow(CurrentContainer(i), prefix, i.nextBox)];
    assert Place(row, CurrentContainer(i), i.nextBox) == (open + a + [], n);
    assert open + a + [] == open + a;
    assert (i.appended + open) + a == i.appended + (open + a);
    assert CurrentContainer(Entered(i, Li)) == i.nextBox;
  }

  lemma OtherState(i: Ctx, t: BlockType, w: seq<Widget>, k: Counter)
    requires i.markup.None? && !t.Li?
    ensures Popped(After(Entered(i, t), w, k), t) == After(i, w, k)
  {
    hide Place;
  }

  // ----- the main theorem

  /** For every well-formed document no assertion of the callbacks fails exactly when in every
      block the own text comes before the child blocks. Then both stacks end empty, the indent is
      back to 0, nothing is pending, and what was appended, box by box and in order, is the
      recursive rendering of the document with each list item's content in its own row. */
  lemma DocumentRendered(env: Env, doc: Block)
    requires WellFormed(doc)
    ensures var r := Run(env, START, Events(doc));
            && (r.Some? <==> TextFirst(doc))
            && (r.Some? ==>
                  && r.value.blockStack == [] && r.value.containerStack == [] && r.value.indent == 0 &&
                      r.value.markup.None?
                  && (r.value.appended, r.value.nextBox) == Place(Render(env, doc, false, Counter(0, '\0')).0, 0, 1))
  {
    hide Render, Place, Events, Run, TextFirst, WellFormed;
    BlockCorrect(env, START, doc);
    var a := Place(Render(env, doc, false, Counter(0, '\0')).0, 0, 1).0;
    assert [] + a == a;
  }

  /** The documents that fail are real: a tight list item whose heading is followed by more text. */
  lemma TextAfterHeadingAborts(env: Env)
    ensures var heading := Block(H(1), [Text(Chars("b"))]);
            var item := Block(Li, [Text(Chars("a")), Sub(heading), Text(Chars("c"))]);
            var doc := Block(Doc, [Sub(Block(Ul('-'), [Sub(item)]))]);
            WellFormed(doc) && Run(env, START, Events(doc)).None?
  {
    var heading := Block(H(1), [Text(Chars("b"))]);
    var content := [Text(Chars("a")), Sub(heading), Text(Chars("c"))];
    var item := Block(Li, content);
    var items := [Sub(item)];
    var list := Block(Ul('-'), items);
    var lists := [Sub(list)];
    var doc := Block(Doc, lists);
    assert content[1..] == [Sub(heading), Text(Chars("c"))];
    assert content[1..][1..] == [Text(Chars("c"))];
    assert WellFormedContent(content[1..][1..]) && WellFormedContent(content[1..]);
    assert items[1..] == [] && lists[1..] == [];
    assert WellFormed(item);
    assert WellFormedContent(items);
    assert WellFormed(list);
    assert WellFormedContent(lists);
    assert WellFormed(doc);
    assert !TextFirstContent(content[1..][1..], true);
    assert !TextFirstContent(content[1..], false);
    assert !TextFirst(item);
    assert !TextFirstContent(items, true);
    assert !TextFirst(list);
    assert !TextFirstContent(lists, false);
    DocumentRendered(env, doc);
  }

  // ----- the numbers of ordered lists

  /** The counter that a block leaves behind; it depends on the shape of the document only. */
  function Left(b: Block, k: Counter): Counter
    decreases b, 0
  {
    match b.t
    case Li => LeftSubs(b.content, k.(index := k.index + 1))
    case Ul(mark) => LeftSubs(b.content, Counter(0, mark))
    case Ol(delimiter) => LeftSubs(b.content, Counter(0, delimiter))
    case _ => LeftSubs(b.content, k)
  }

  function LeftSubs(c: seq<Content>, k: Counter): Counter
    decreases c
  {
    if c == [] then k
    else if c[0].Text? then LeftSubs(c[1..], k)
    else
      assert c[0].b < c[0];
      LeftSubs(c[1..], Left(c[0].b, k))
  }

  lemma {:induction false} RenderLeaves(env: Env, b: Block, underOl: bool, k: Counter)
    ensures Render(env, b, underOl, k).1 == Left(b, k)
    decreases b, 1
  {
    hide OwnWidgets, OwnText, RenderSubs, LeftSubs;
    match b.t
    case Li => RenderSubsLeaves(env, b.content, false, k.(index := k.index + 1));
    case Ul(mark) => RenderSubsLeaves(env, b.content, false, Counter(0, mark));
    case Ol(delimiter) => RenderSubsLeaves(env, b.content, true, Counter(0, delimiter));
    case _ => RenderSubsLeaves(env, b.content, false, k);
  }

  lemma {:induction false} RenderSubsLeaves(env: Env, c: seq<Content>, underOl: bool, k: Counter)
    ensures RenderSubs(env, c, underOl, k).1 == LeftSubs(c, k)
    decreases c
  {
    hide Render, Left;
    if c != [] {
      if c[0].Sub? {
        assert c[0].b < c[0];
        RenderLeaves(env, c[0].b, underOl, k);
        RenderSubsLeaves(env, c[1..], underOl, Left(c[0].b, k));
      } else {
        RenderSubsLeaves(env, c[1..], underOl, k);
      }
    }
  }

  predicate Items(c: seq<Content>) {
    forall i :: 0 <= i < |c| ==> c[i].Sub? && c[i].b.t.Li?
  }

  predicate NumberedFrom(w: seq<Widget>, index: int, delimiter: char) {
    forall i :: 0 <= i < |w| ==> w[i].Row? && w[i].prefix == Number(index + i, delimiter)
  }

  /** From this number on, the item leaves the counter one further. */
  predicate OneMore(item: Block, index: int, delimiter: char) {
    Left(item, Counter(index, delimiter)) == Counter(index + 1, delimiter)
  }

  /** Every item but the last leaves the counter one further, whatever lists it holds. */
  predicate LeavesOneMore(c: seq<Content>, index: int, delimiter: char)
    requires Items(c)
  {
    forall i :: 0 <= i < |c| - 1 ==> OneMore(c[i].b, index + i, delimiter)
  }

  /** The rows of an ordered list, one for each item, are numbered in order exactly when every item
      but the last leaves the counter one further. */
  lemma {:induction false} RowsNumbered(env: Env, c: seq<Content>, k: Counter)
    requires Items(c)
    ensures |RenderSubs(env, c, true, k).0| == |c|
    ensures c != [] ==> RenderSubs(env, c, true, k).0[0].Row?
    ensures c != [] ==> RenderSubs(env, c, true, k).0[0].prefix == Number(k.index, k.delimiter)
    ensures NumberedFrom(RenderSubs(env, c, true, k).0, k.index, k.delimiter)
         <==> LeavesOneMore(c, k.index, k.delimiter)
    decreases c
  {
    hide OwnWidgets, OwnText, Left, NumberedFrom, LeavesOneMore;
    if c == [] {
      NoRows(k);
    } else {
      RenderLeaves(env, c[0].b, true, k);
      var k1 := Left(c[0].b, k);
      RowsNumbered(env, c[1..], k1);
      var rows := RenderSubs(env, c, true, k).0;
      assert rows[1..] == RenderSubs(env, c[1..], true, k1).0;
      FirstRow(rows, k);
      FirstItem(c, k);
      if |c| == 1 {
        assert rows[1..] == [];
        NoRows(k.(index := k.index + 1));
      } else {
        FirstNumber(rows[1..], k.index + 1, k.delimiter);
      }
    }
  }

  lemma NoRows(k: Counter)
    ensures NumberedFrom([], k.index, k.delimiter) && LeavesOneMore([], k.index, k.delimiter)
  {
  }

  lemma FirstNumber(w: seq<Widget>, index: int, delimiter: char)
    requires w != [] && w[0].Row?
    ensures NumberedFrom(w, index, delimiter) ==> w[0].prefix == Number(index, delimiter)
  {
  }

  lemma FirstRow(rows: seq<Widget>, k: Counter)
    requires rows != [] && rows[0].Row? && rows[0].prefix == Number(k.index, k.delimiter)
    ensures NumberedFrom(rows, k.index, k.delimiter) <==> NumberedFrom(rows[1..], k.index + 1, k.delimiter)
  {
    if NumberedFrom(rows[1..], k.index + 1, k.delimiter) {
      forall i | 0 < i < |rows|
        ensures rows[i].Row? && rows[i].prefix == Number(k.index + i, k.delimiter)
      {
        assert rows[i] == rows[1..][i-1];
      }
    }
  }

  lemma FirstItem(c: seq<Content>, k: Counter)
    requires c != [] && Items(c)
    ensures LeavesOneMore(c, k.index, k.delimiter) <==>
      |c| == 1 || (OneMore(c[0].b, k.index, k.delimiter) && LeavesOneMore(c[1..], k.index + 1, k.delimiter))
  {
    hide OneMore;
    if |c| > 1 && OneMore(c[0].b, k.index, k.delimiter) && LeavesOneMore(c[1..], k.index + 1, k.delimiter) {
      forall i | 0 < i < |c| - 1
        ensures OneMore(c[i].b, k.index + i, k.delimiter)
      {
        assert c[i] == c[1..][i-1];
      }
    }
    if LeavesOneMore(c, k.index, k.delimiter) && |c| > 1 {
      assert OneMore(c[0].b, k.index + 0, k.delimiter);
      forall i | 0 <= i < |c[1..]| - 1
        ensures OneMore(c[1..][i].b, k.index + 1 + i, k.delimiter)
      {
        assert c[1..][i] == c[i+1];
      }
    }
  }

  /** The condition is needed: after an item with a bullet list of two, the second item of the
      ordered list is shown as "2-" and not as "1.". */
  lemma NestedListRenumbers(env: Env)
    ensures var bullets := Block(Ul('-'), [Sub(Block(Li, [])), Sub(Block(Li, []))]);
            var ol := Block(Ol('.'), [Sub(Block(Li, [Sub(bullets)])), Sub(Block(Li, []))]);
            var rows := Render(env, ol, false, Counter(0, '\0')).0;
            |rows| == 2 && rows[1] == Row(Number(2, '-'), [])
  {
    var empty := Block(Li, []);
    var two := [Sub(empty), Sub(empty)];
    var bullets := Block(Ul('-'), two);
    var inner := [Sub(bullets)];
    var first := Block(Li, inner);
    var items := [Sub(first), Sub(empty)];
    assert two[1..] == [Sub(empty)] && two[1..][1..] == [];
    assert inner[1..] == [] && items[1..] == [Sub(empty)] && items[1..][1..] == [];
    var zero := Counter(0, '-');
    EmptyItem(env, false, zero);
    EmptyItem(env, false, Counter(1, '-'));
    assert RenderSubs(env, two, false, zero).1 == Counter(2, '-');
    assert RenderSubs(env, inner, false, Counter(1, '.')).1 == Counter(2, '-');
    EmptyItem(env, true, Counter(2, '-'));
    var (w, k) := Render(env, first, true, Counter(0, '.'));
    assert |w| == 1 && k == Counter(2, '-');
    var last := [Sub(empty)];
    assert items[1..] == last && last[1..] == [];
    var (x, l) := Render(env, last[0].b, true, k);
    var rest := RenderSubs(env, last, true, k).0;
    assert rest == x + RenderSubs(env, last[1..], true, l).0;
    assert rest == [Row(Number(2, '-'), [])] + [];
    assert RenderSubs(env, items, true, Counter(0, '.')).0 == w + rest;
  }

  lemma EmptyItem(env: Env, underOl: bool, k: Counter)
    ensures Render(env, Block(Li, []), underOl, k)
         == ([Row(if underOl then Number(k.index, k.delimiter) else Bullet, [])], Counter(k.index + 1, k.delimiter))
  {
    var none: seq<Widget> := [];
    assert none + none == none;
  }

  // ----- the context that the callbacks change

  class ParseCtx {
    var blockStack: seq<Option<BlockType>>
    var containerStack: seq<nat>
    var markup: Option<string>
    var indent: int
    var listIndex: int
    var listPrefix: char
    var appended: seq<Append>
    var nextBox: nat

    function State(): Ctx
      reads this
    {
      Ctx(blockStack, containerStack, markup, indent, listIndex, listPrefix, appended, nextBox)
    }

    constructor ()
      ensures State() == START
    {
      blockStack, containerStack, markup, indent := [], [], None, 0;
      listIndex, listPrefix, appended, nextBox := 0, '\0', [], 1;
    }

    method Append(w: Widget)
      modifies this`appended
      ensures appended == old(appended) + [Show(CurrentContainer(State()), w)]
    {
      var box := if |containerStack| > 0 then containerStack[|containerStack|-1] else 0;
      appended := appended + [Show(box, w)];
    }

    /** The result is false where an assertion fails or a NULL detail is read. */
    method TerminateBlock(env: Env, t: Option<BlockType>, detail: bool) returns (ok: bool)
      modifies this
      ensures ok <==> OnTerminate(env, old(State()), t, detail).Some?
      ensures ok ==> OnTerminate(env, old(State()), t, detail) == Some(State())
    {
      if blockStack == [] {
        return false;
      }
      if markup.Some? && markup.value != "" && !env.isGraph(markup.value[|markup.value|-1]) {
        markup := Some(markup.value[..|markup.value|-1]);
      }
      if t == None {
        return true;
      }
      var child: Option<Widget> := None;
      match t.value {
        case Ul(_) =>
          if markup.None? { indent := indent - 1; }
        case Ol(_) =>
          if markup.None? { indent := indent - 1; }
        case Li =>
          if markup.Some? && markup.value != "" {
            ShowOne(CurrentContainer(State()), Label("body", markup.value));
            Append(Label("body", markup.value));
          }
        case Hr =>
          child := Some(Separator);
        case Doc =>
          if markup.None? { return false; }
          if markup.value != "" { child := Some(Label("", markup.value)); }
        case Quote =>
          if markup.None? { return false; }
          if markup.value != "" { child := Some(QuoteBox(markup.value)); }
        case P =>
          if markup.None? { return false; }
          if markup.value != "" { child := Some(Label("body", markup.value)); }
        case H(level) =>
          if markup.None? { return false; }
          if markup.value != "" {
            if !detail { return false; }
            child := Some(Label(HeadingClass(level), markup.value));
          }
        case Code(lang) =>
          if markup.None? { return false; }
          if markup.value != "" {
            if !detail { return false; }
            child := Some(CodeFrame(lang, markup.value));
          }
      }
      if child.Some? {
        ShowOne(CurrentContainer(State()), child.value);
        Append(child.value);
      }
      assert old(appended) + [] == old(appended);
      markup := None;
      return true;
    }

    /** The first lines of enter_block. */
    method InterruptBlock(env: Env) returns (ok: bool)
      modifies this
      ensures ok <==> Interrupt(env, old(State())).Some?
      ensures ok ==> Interrupt(env, old(State())) == Some(State())
    {
      hide Trim, OwnWidgets, ShowAll;
      if markup.Some? {
        if blockStack == [] {
          return false;
        }
        ok := TerminateBlock(env, blockStack[|blockStack|-1], false);
        if !ok {
          return;
        }
        blockStack := blockStack[..|blockStack|-1] + [None];
      }
      return true;
    }

    method EnterBlock(env: Env, t: BlockType) returns (ok: bool)
      modifies this
      ensures ok <==> OnEnter(env, old(State()), t).Some?
      ensures ok ==> OnEnter(env, old(State()), t) == Some(State())
    {
      hide Interrupt;
      ok := InterruptBlock(env);
      if !ok {
        return;
      }
      match t {
        case Ul(mark) =>
          indent, listIndex, listPrefix := indent + 1, 0, mark;
        case Ol(delimiter) =>
          indent, listIndex, listPrefix := indent + 1, 0, delimiter;
        case Li =>
          var parent := if blockStack == [] then None else blockStack[|blockStack|-1];
          var prefix := if parent.Some? && parent.value.Ol? then Number(listIndex, listPrefix) else Bullet;
          var box := if |containerStack| > 0 then containerStack[|containerStack|-1] else 0;
          appended := appended + [OpenRow(box, prefix, nextBox)];
          containerStack := containerStack + [nextBox];
          nextBox, listIndex, markup := nextBox + 1, listIndex + 1, Some("");
        case _ =>
          markup := Some("");
      }
      blockStack := blockStack + [Some(t)];
      return true;
    }

    method LeaveBlock(env: Env, t: BlockType) returns (ok: bool)
      modifies this
      ensures ok <==> OnLeave(env, old(State()), t).Some?
      ensures ok ==> OnLeave(env, old(State()), t) == Some(State())
    {
      if blockStack == [] {
        return false;
      }
      ok := true;
      if t.Li? {
        if markup.Some? {
          ok := TerminateBlock(env, Some(t), true);
        }
        if !ok {
          return;
        }
        if |containerStack| > 0 {
          containerStack := containerStack[..|containerStack|-1];
        }
      } else if blockStack[|blockStack|-1].Some? {
        ok := TerminateBlock(env, Some(t), true);
        if !ok {
          return;
        }
      }
      blockStack := blockStack[..|blockStack|-1];
    }

    /** enter_span, leave_span and text. */
    method Inlines(env: Env, i: Inline) returns (ok: bool)
      modifies this
      ensures ok <==> OnInline(env, old(State()), i).Some?
      ensures ok ==> OnInline(env, old(State()), i) == Some(State())
    {
      if markup.None? {
        return false;
      }
      var m := markup.value;
      var code := |blockStack| > 0 && blockStack[|blockStack|-1].Some? && blockStack[|blockStack|-1].value.Code?;
      match i {
        case EnterSpan(span) =>
          m := m + SpanMarkup(span, true);
        case LeaveSpan(span) =>
          m := m + SpanMarkup(span, false);
        case Chars(buf) =>
          m := m + if code then buf else env.escape(buf);
        case SoftBreak(buf) =>
          m := m + if m != "" then " " else if code then buf else env.escape(buf);
        case HardBreak(buf) =>
          m := m + if m != "" then "\n" else if code then buf else env.escape(buf);
      }
      markup := Some(m);
      return true;
    }

    /** md_parse feeds the callbacks and stops at the first failure. */
    method Regenerate(env: Env, es: seq<Event>) returns (ok: bool)
      modifies this
      ensures ok <==> Run(env, old(State()), es).Some?
      ensures ok ==> Run(env, old(State()), es) == Some(State())
    {
      hide OnEnter, OnLeave, OnInline;
      var i := 0;
      while i < |es|
        invariant 0 <= i <= |es|
        invariant Run(env, State(), es[i..]) == Run(env, old(State()), es)
      {
        match es[i] {
          case Enter(t) => ok := EnterBlock(env, t);
          case Leave(t) => ok := LeaveBlock(env, t);
          case InlineEvent(inline) => ok := Inlines(env, inline);
        }
        if !ok {
          return;
        }
        assert es[i..][1..] == es[i+1..];
        i := i + 1;
      }
      return true;
    }
  }
}
