/** The carousel: a strip of slots around the selected one, the end of a drag, and the list of
    widgets that follows the model. */
module Carousel {
  import opened Order

  // ----- measures

  datatype Measure = Measure(minimum: nat, natural: nat)

  /** A child: whether it expands, and what gtk_widget_measure answers for a height. */
  datatype Child = Child(expands: bool, measure: int -> Measure)

  datatype Rect = Rect(x: int, y: int, width: int, height: int)

  function Max(a: int, b: int): int {
    if a > b then a else b
  }

  /** CLAMP: the upper bound is looked at first. */
  function Clamp(x: int, low: int, high: int): int {
    if x > high then high else if x < low then low else x
  }

  function SlotWidth(c: Child, width: nat, height: int): nat {
    var m := c.measure(height);
    if c.expands then Max(m.minimum, width) else Clamp(m.natural, m.minimum, width)
  }

  /** A child that expands gets at least its minimum and the width of the view, and no more; another
      child gets at least its minimum and its natural width, and no more, if the view has room for
      the natural width, and else the width of the view. */
  lemma SlotWidthMeaning(c: Child, width: nat, height: int)
    ensures var m, w := c.measure(height), SlotWidth(c, width, height);
      && (c.expands ==> m.minimum <= w && width <= w && (w == m.minimum || w == width))
      && (!c.expands && m.natural <= width ==>
            m.minimum <= w && m.natural <= w && (w == m.minimum || w == m.natural))
      && (!c.expands && width < m.natural ==> w == width)
  {
  }

  /** The C library's round: half away from zero. */
  function Round(x: real): int {
    if x >= 0.0 then (x + 0.5).Floor else -((-x + 0.5).Floor)
  }

  /** Conversion of a double to int. */
  function Truncate(x: real): int {
    if x >= 0.0 then x.Floor else -((-x).Floor)
  }

  /** The nearest whole number, and of two the one further from zero. */
  lemma RoundMeaning(x: real)
    ensures -0.5 <= Round(x) as real - x <= 0.5
    ensures x >= 0.0 ==> Round(x) as real - x > -0.5
    ensures x <= 0.0 ==> Round(x) as real - x < 0.5
  {
  }

  /** The fraction is dropped, towards zero. */
  lemma TruncateMeaning(x: real)
    ensures x >= 0.0 ==> 0.0 <= Truncate(x) as real <= x && x < Truncate(x) as real + 1.0
    ensures x <= 0.0 ==> x <= Truncate(x) as real <= 0.0 && Truncate(x) as real - 1.0 < x
  {
  }

  const RAISE_FACTOR := 0.025

  /** The size of the carousel, how far its strip is moved by a scroll and by a drag, and whether
      children are drawn smaller until the pointer is over them. */
  datatype View = View(width: nat, height: nat, scroll: int, drag: real, raises: bool)

  /** Where the middle of the selected slot goes. */
  function Center(v: View): int {
    Truncate((v.width / 2 + v.scroll) as real + v.drag)
  }

  // ----- the strip

  function Total(ws: seq<nat>): nat {
    if ws == [] then 0 else Total(ws[..|ws|-1]) + ws[|ws|-1]
  }

  /** Where slot i starts, seen from the selected slot: the slots in between fill the space. */
  function SlotStart(ws: seq<nat>, selected: nat, center: int, i: nat): int
    requires selected < |ws| && i <= |ws|
  {
    var middle := center - ws[selected] / 2;
    if i <= selected then middle - Total(ws[i..selected]) else middle + Total(ws[selected..i])
  }

  lemma {:induction false} TotalSplit(a: seq<nat>, b: seq<nat>)
    ensures Total(a + b) == Total(a) + Total(b)
  {
    if b == [] {
      assert a + b == a;
    } else {
      var all := a + b;
      assert all[..|all|-1] == a + b[..|b|-1];
      TotalSplit(a, b[..|b|-1]);
    }
  }

  lemma TotalOne(w: nat)
    ensures Total([w]) == w
  {
  }

  /** Every slot starts where the one before it ends. */
  lemma SlotsAdjacent(ws: seq<nat>, selected: nat, center: int, i: nat)
    requires selected < |ws| && i < |ws|
    ensures SlotStart(ws, selected, center, i + 1) == SlotStart(ws, selected, center, i) + ws[i]
  {
    TotalOne(ws[i]);
    if i < selected {
      assert ws[i..selected] == [ws[i]] + ws[i+1..selected];
      TotalSplit([ws[i]], ws[i+1..selected]);
    } else {
      assert ws[selected..i+1] == ws[selected..i] + [ws[i]];
      TotalSplit(ws[selected..i], [ws[i]]);
      assert ws[i..i] == [];
    }
  }

  lemma {:induction false} SlotsApart(ws: seq<nat>, selected: nat, center: int, i: nat, j: nat)
    requires selected < |ws| && i < j <= |ws|
    ensures SlotStart(ws, selected, center, i) + ws[i] <= SlotStart(ws, selected, center, j)
    decreases j - i
  {
    hide SlotStart;
    SlotsAdjacent(ws, selected, center, i);
    if i + 1 < j {
      SlotsApart(ws, selected, center, i + 1, j);
    }
  }

  ghost predicate InSlot(ws: seq<nat>, selected: nat, center: int, i: nat, x: int)
    requires selected < |ws| && i < |ws|
  {
    SlotStart(ws, selected, center, i) <= x < SlotStart(ws, selected, center, i) + ws[i]
  }

  lemma {:induction false} SlotAt(ws: seq<nat>, selected: nat, center: int, n: nat, x: int) returns (i: nat)
    requires selected < |ws| && n <= |ws|
    requires SlotStart(ws, selected, center, 0) <= x < SlotStart(ws, selected, center, n)
    ensures i < n && InSlot(ws, selected, center, i, x)
    decreases n
  {
    hide SlotStart;
    i := n - 1;
    SlotsAdjacent(ws, selected, center, i);
    if x < SlotStart(ws, selected, center, i) {
      i := SlotAt(ws, selected, center, i, x);
    }
  }

  /** The slots tile the strip: every pixel from the first start to the last end is in exactly one. */
  lemma SlotsTile(ws: seq<nat>, selected: nat, center: int, x: int)
    requires selected < |ws|
    requires SlotStart(ws, selected, center, 0) <= x < SlotStart(ws, selected, center, |ws|)
    ensures exists i :: 0 <= i < |ws| && InSlot(ws, selected, center, i, x)
    ensures forall i, j | 0 <= i < |ws| && 0 <= j < |ws| ::
              InSlot(ws, selected, center, i, x) && InSlot(ws, selected, center, j, x) ==> i == j
  {
    hide SlotStart;
    var k := SlotAt(ws, selected, center, |ws|, x);
    forall i, j | 0 <= i < j < |ws| && InSlot(ws, selected, center, i, x)
      ensures !InSlot(ws, selected, center, j, x)
    {
      SlotsApart(ws, selected, center, i, j);
    }
  }

  function SlotWidths(cs: seq<Child>, v: View): (ws: seq<nat>)
    ensures |ws| == |cs| && forall i :: 0 <= i < |cs| ==> ws[i] == SlotWidth(cs[i], v.width, v.height)
  {
    seq(|cs|, i requires 0 <= i < |cs| => SlotWidth(cs[i], v.width, v.height))
  }

  /** Where a child is drawn, given the start of its slot. */
  function Target(v: View, c: Child, raised: bool, start: int): Rect {
    var slot := SlotWidth(c, v.width, v.height);
    if raised || !v.raises then Rect(start, 0, slot, v.height)
    else
      var height := Round(v.height as real * (1.0 - RAISE_FACTOR));
      var m := c.measure(height);
      var width := Clamp(m.natural, m.minimum, v.width);
      Rect(start + Round((slot - width) as real * 0.5), Round(v.height as real * (0.5 * RAISE_FACTOR)), width, height)
  }

  /** A child under the pointer, or where none is raised, fills its slot. Another one is 97.5 percent
      as high as the view, has the width it wants for that height, as SlotWidthMeaning says it of one
      that does not expand, and leaves as much room above as below, up to the rounding of both. */
  lemma TargetMeaning(v: View, c: Child, raised: bool, start: int)
    ensures var t := Target(v, c, raised, start);
      if raised || !v.raises then t == Rect(start, 0, SlotWidth(c, v.width, v.height), v.height)
      else
        && -0.5 <= t.height as real - v.height as real * 0.975 <= 0.5
        && t.width == SlotWidth(Child(false, c.measure), v.width, t.height)
        && -1.5 <= (2 * t.y + t.height - v.height) as real <= 1.5
  {
    RoundMeaning(v.height as real * (1.0 - RAISE_FACTOR));
    RoundMeaning(v.height as real * (0.5 * RAISE_FACTOR));
    hide Round;
  }

  /** A child fills its slot or is centred in it, up to half a pixel. */
  lemma DrawnInTheMiddle(v: View, c: Child, raised: bool, start: int)
    ensures var t := Target(v, c, raised, start);
            -1 <= (2 * t.x + t.width) - (2 * start + SlotWidth(c, v.width, v.height)) <= 1
  {
  }

  // ----- moving to a child

  class CarouselWidget {
    const child: Child
    var width: int
    var rect: Rect
    var target: Rect
    var springs: Option<Rect>
    var raised: bool

    constructor (child: Child)
      ensures this.child == child && Heads() && !raised && width == 0
    {
      this.child := child;
      width, rect, target, springs, raised := 0, Rect(0, 0, 0, 0), Rect(0, 0, 0, 0), None, false;
    }

    /** It is at its target, or its four springs end there. */
    ghost predicate Heads()
      reads this
    {
      rect == target || springs == Some(target)
    }

    /** The child jumps to its target if its slot has another width, or if it must not be animated and
        has another target; otherwise it stays where it is drawn, for the springs to move it. */
    twostate predicate Moved(damping: real)
      reads this
    {
      rect == if width != old(width) || (damping < 0.0 && target != old(target)) then target else old(rect)
    }

    /** Giving the child a new target, at once or by springs. */
    method Aim(slot: int, to: Rect, damping: real)
      requires Heads()
      modifies this`width, this`rect, this`target, this`springs
      ensures Heads() && target == to && width == slot
      ensures Moved(damping)
      ensures old(width) == slot && to == old(target) ==> springs == old(springs)
    {
      if width != slot || (damping < 0.0 && to != target) {
        width := slot;
        rect := to;
        springs := None;
      } else if to != target {
        springs := Some(to);
      }
      target := to;
    }
  }

  /** The start of slot 0, as the first loop leaves it: the center less the slots before the middle. */
  lemma FirstStart(ws: seq<nat>, selected: nat, center: int)
    requires selected < |ws|
    ensures SlotStart(ws, selected, center, 0) == center - Total(ws[..selected]) - ws[selected] / 2
  {
  }

  lemma TotalNone(ws: seq<nat>)
    ensures Total(ws[..0]) == 0
  {
  }

  lemma TotalNext(ws: seq<nat>, i: nat)
    requires i < |ws|
    ensures Total(ws[..i+1]) == Total(ws[..i]) + ws[i]
  {
    assert ws[..i+1][..i] == ws[..i];
  }

  // ----- the end of a gesture

  /** A drawn child in the middle of an animation: any numbers. */
  datatype Span = Span(x: real, width: real)

  function Apart(a: real, b: real): int {
    Truncate(if a > b then a - b else b - a)
  }

  /** The distance that counts: from the middle of the view to the nearer of the two edges. */
  function Distance(s: Span, middle: real): int {
    var left := Apart(s.x, middle);
    var right := Apart(s.x + s.width, middle);
    if left < right then left else right
  }

  /** The first of the nearest. */
  ghost predicate Nearest(spans: seq<Span>, middle: real, r: nat) {
    && r < |spans|
    && (forall i :: 0 <= i < |spans| ==> Distance(spans[r], middle) <= Distance(spans[i], middle))
    && (forall i :: 0 <= i < r ==> Distance(spans[r], middle) < Distance(spans[i], middle))
  }

  /** A drag of more than 15 pixels leaves the child even if it is still the nearest. */
  function Snap(nearest: nat, selected: nat, offset: int, n: nat): int {
    if nearest != selected then nearest
    else if offset > 15 && selected > 0 then nearest - 1
    else if offset < -15 && selected + 1 < n then nearest + 1
    else nearest
  }

  /** Only the selected child is left for a neighbour: the one before it after more than 15 pixels to
      the right, the one after it after more than 15 to the left. */
  lemma SnapMeaning(nearest: nat, selected: nat, offset: int, n: nat)
    requires nearest < n && selected < n
    ensures var r := Snap(nearest, selected, offset, n);
      && 0 <= r < n
      && (nearest != selected || -15 <= offset <= 15 ==> r == nearest)
      && (nearest == selected && offset > 15 ==> r + 1 == selected || r == selected == 0)
      && (nearest == selected && offset < -15 ==> r == selected + 1 || r == selected == n - 1)
  {
  }

  /** finish_horizontal_gesture: which child is selected afterwards. */
  method FinishHorizontalGesture(spans: seq<Span>, width: nat, selected: nat, offset: int) returns (r: nat)
    requires spans != [] ==> selected < |spans|
    ensures offset == 0 ==> r == selected
    ensures (forall i :: 0 <= i < |spans| ==> Distance(spans[i], width as real / 2.0) >= G_MAXINT) ==> r == selected
    ensures offset != 0 && (exists i :: 0 <= i < |spans| && Distance(spans[i], width as real / 2.0) < G_MAXINT) ==>
              && r < |spans|
              && exists k :: Nearest(spans, width as real / 2.0, k) && r == Snap(k, selected, offset, |spans|)
  {
    hide Truncate;
    if spans == [] || offset == 0 {
      return selected;
    }
    var middle := width as real / 2.0;
    var minDistance := G_MAXINT;
    var i := 0;
    r := G_MAXUINT;
    while i < |spans|
      invariant 0 <= i <= |spans| && minDistance <= G_MAXINT
      invariant minDistance < G_MAXINT ==> r < i && minDistance == Distance(spans[r], middle)
      invariant forall j :: 0 <= j < i ==> minDistance <= Distance(spans[j], middle)
      invariant minDistance < G_MAXINT ==> forall j :: 0 <= j < r ==> minDistance < Distance(spans[j], middle)
      invariant minDistance == G_MAXINT ==> r == G_MAXUINT
    {
      var left := if spans[i].x > middle then Truncate(spans[i].x - middle) else Truncate(middle - spans[i].x);
      var end := spans[i].x + spans[i].width;
      var right := if end > middle then Truncate(end - middle) else Truncate(middle - end);
      var distance := if left < right then left else right;
      if distance < minDistance {
        r, minDistance := i, distance;
      }
      i := i + 1;
    }
    if minDistance == G_MAXINT {
      return selected;
    }
    ghost var nearest := r;
    assert Nearest(spans, middle, nearest);
    if r == selected {
      if offset > 15 && selected > 0 {
        r := r - 1;
      } else if offset < -15 && selected < |spans| - 1 {
        r := r + 1;
      }
    }
    assert r == Snap(nearest, selected, offset, |spans|);
  }

  ghost predicate Adjacent(spans: seq<Span>) {
    forall i :: 0 < i < |spans| ==> spans[i].x == spans[i-1].x + spans[i-1].width
  }

  /** In a strip without gaps, a child other than the first is only the nearest by its right edge:
      its left edge is also the right edge of the child before it, which is looked at earlier. */
  lemma NearestByRightEdge(spans: seq<Span>, middle: real, r: nat)
    requires Adjacent(spans) && Nearest(spans, middle, r) && r > 0
    ensures Apart(spans[r].x + spans[r].width, middle) < Apart(spans[r].x, middle)
  {
    hide Truncate;
    assert spans[r].x == spans[r-1].x + spans[r-1].width;
    assert Distance(spans[r-1], middle) <= Apart(spans[r].x, middle);
  }

  /** A strip as a layout without raising leaves it. */
  ghost predicate Strip(spans: seq<Span>) {
    Adjacent(spans) && forall i :: 0 <= i < |spans| ==> spans[i].width >= 0.0
  }

  lemma {:induction false} EdgesOrdered(spans: seq<Span>, i: nat, j: nat)
    requires Strip(spans) && i < j < |spans|
    ensures spans[i].x + spans[i].width <= spans[j].x
    decreases j - i
  {
    assert spans[j].x == spans[j-1].x + spans[j-1].width;
    if i + 1 < j {
      EdgesOrdered(spans, i, j - 1);
    }
  }

  lemma ApartMonotone(a: real, b: real, middle: real)
    requires middle <= a <= b || b <= a <= middle
    ensures Apart(a, middle) <= Apart(b, middle)
  {
  }

  /** How far the middle of a child is to the right of the middle of the view. */
  function OffCenter(s: Span, middle: real): real {
    s.x + s.width / 2.0 - middle
  }

  /** Moved to the right, the left edge of a child is the nearer one. */
  lemma LeftEdgeNearer(s: Span, middle: real)
    requires s.width >= 0.0 && OffCenter(s, middle) > 0.0
    ensures Apart(s.x, middle) <= Apart(s.x + s.width, middle)
  {
    var half := s.width / 2.0;
    assert s.x - middle == OffCenter(s, middle) - half && s.x + s.width - middle == OffCenter(s, middle) + half;
  }

  /** Moved to the left, the right edge of a child is the nearer one. */
  lemma RightEdgeNearer(s: Span, middle: real)
    requires s.width >= 0.0 && OffCenter(s, middle) < 0.0
    ensures Apart(s.x + s.width, middle) <= Apart(s.x, middle)
  {
    var half := s.width / 2.0;
    assert s.x - middle == OffCenter(s, middle) - half && s.x + s.width - middle == OffCenter(s, middle) + half;
  }

  /** It is nearer by a pixel when the child is moved by half a pixel or more and is not empty. */
  lemma RightEdgeNearerByOne(s: Span, middle: real)
    requires OffCenter(s, middle) <= -0.5 && s.width >= 1.0
    ensures Apart(s.x + s.width, middle) < Apart(s.x, middle)
  {
    var half := s.width / 2.0;
    assert s.x - middle == OffCenter(s, middle) - half && s.x + s.width - middle == OffCenter(s, middle) + half;
    var end := s.x + s.width;
    TruncateFurther(if end > middle then end - middle else middle - end, middle - s.x);
  }

  lemma TruncateFurther(a: real, b: real)
    requires 0.0 <= a && a + 1.0 <= b
    ensures Truncate(a) < Truncate(b)
  {
  }

  /** No child after `r` has a right edge nearer than `distance`. */
  ghost predicate NoLaterNearer(spans: seq<Span>, middle: real, r: nat, distance: int) {
    forall j :: r < j < |spans| ==> distance <= Apart(spans[j].x + spans[j].width, middle)
  }

  /** In a strip without gaps, of any widths: the nearest child is the first one or has its right
      edge nearer than its left one, and no later right edge is nearer. */
  lemma NearestExactly(spans: seq<Span>, middle: real, r: nat)
    requires Strip(spans) && r < |spans|
    ensures Nearest(spans, middle, r) <==>
      && (r == 0 || Apart(spans[r].x + spans[r].width, middle) < Apart(spans[r].x, middle))
      && NoLaterNearer(spans, middle, r, Distance(spans[r], middle))
  {
    hide Truncate, Apart;
    var s := spans[r];
    if Nearest(spans, middle, r) {
      if r > 0 {
        NearestByRightEdge(spans, middle, r);
      }
    } else if NoLaterNearer(spans, middle, r, Distance(s, middle)) {
      LaterAreFurther(spans, middle, r);
      if r > 0 && Apart(s.x + s.width, middle) < Apart(s.x, middle) {
        EarlierAreFurther(spans, middle, r);
      }
    }
  }

  lemma LaterAreFurther(spans: seq<Span>, middle: real, r: nat)
    requires Strip(spans) && r < |spans|
    requires NoLaterNearer(spans, middle, r, Distance(spans[r], middle))
    ensures forall j :: r < j < |spans| ==> Distance(spans[r], middle) <= Distance(spans[j], middle)
  {
    hide Truncate, Apart;
    forall j | r < j < |spans|
      ensures Distance(spans[r], middle) <= Distance(spans[j], middle)
    {
      assert spans[j].x == spans[j-1].x + spans[j-1].width;
    }
  }

  lemma EarlierAreFurther(spans: seq<Span>, middle: real, r: nat)
    requires Strip(spans) && r < |spans|
    requires Apart(spans[r].x + spans[r].width, middle) < Apart(spans[r].x, middle)
    ensures forall i :: 0 <= i < r ==> Distance(spans[r], middle) < Distance(spans[i], middle)
  {
    hide Truncate, Apart;
    var s := spans[r];
    if middle <= s.x {
      ApartMonotone(s.x, s.x + s.width, middle);
    }
    forall i | 0 <= i < r
      ensures Distance(s, middle) < Distance(spans[i], middle)
    {
      EdgesOrdered(spans, i, r);
      ApartMonotone(s.x, spans[i].x + spans[i].width, middle);
      ApartMonotone(s.x, spans[i].x, middle);
    }
  }

  lemma NearestUnique(spans: seq<Span>, middle: real, r: nat, k: nat)
    requires Nearest(spans, middle, r) && Nearest(spans, middle, k)
    ensures r == k
  {
    hide Distance;
    assert Distance(spans[r], middle) == Distance(spans[k], middle);
  }

  /** Right edges further to the right are no nearer once the middle is to the left of one. */
  lemma NoneNearerAfter(spans: seq<Span>, middle: real, r: nat)
    requires Strip(spans) && r < |spans| && middle <= spans[r].x + spans[r].width
    ensures NoLaterNearer(spans, middle, r, Apart(spans[r].x + spans[r].width, middle))
  {
    hide Truncate, Apart;
    forall j | r < j < |spans|
      ensures Apart(spans[r].x + spans[r].width, middle) <= Apart(spans[j].x + spans[j].width, middle)
    {
      EdgesOrdered(spans, r, j);
      ApartMonotone(spans[r].x + spans[r].width, spans[j].x + spans[j].width, middle);
    }
  }

  /** When a gesture keeps the selected page. To the right by any amount, however small, it keeps
      only the first page. To the left it keeps a page exactly when it is of at most 15 pixels, or
      the page is the last one, and the right edge of the page is still the nearest edge: nearer
      than its left one, which the page before shares, and not further than the right edge of any
      later page. */
  lemma PageKept(spans: seq<Span>, middle: real, selected: nat, offset: int, k: nat)
    requires Strip(spans) && Nearest(spans, middle, k) && selected < |spans| && offset != 0
    requires if offset > 0 then OffCenter(spans[selected], middle) > 0.0 else OffCenter(spans[selected], middle) < 0.0
    ensures var left, right := spans[selected].x, spans[selected].x + spans[selected].width;
      Snap(k, selected, offset, |spans|) == selected <==>
        if offset > 0 then selected == 0
        else
          && (offset >= -15 || selected + 1 == |spans|)
          && (selected == 0 || Apart(right, middle) < Apart(left, middle))
          && NoLaterNearer(spans, middle, selected, Apart(right, middle))
  {
    hide Nearest, Strip, NoLaterNearer, Apart, OffCenter;
    var s := spans[selected];
    assert s.width >= 0.0 by {
      StripWidth(spans, selected);
    }
    if Nearest(spans, middle, selected) {
      NearestUnique(spans, middle, selected, k);
    }
    NearestExactly(spans, middle, selected);
    if offset > 0 {
      LeftEdgeNearer(s, middle);
      if selected == 0 {
        FirstMovedRight(spans, middle);
      }
    } else {
      RightEdgeNearer(s, middle);
    }
  }

  lemma StripWidth(spans: seq<Span>, i: nat)
    requires Strip(spans) && i < |spans|
    ensures spans[i].width >= 0.0
  {
  }

  lemma FirstMovedRight(spans: seq<Span>, middle: real)
    requires Strip(spans) && spans != [] && OffCenter(spans[0], middle) > 0.0
    ensures NoLaterNearer(spans, middle, 0, Distance(spans[0], middle))
  {
    hide Truncate, Apart;
    var s := spans[0];
    assert s.x + s.width - middle == OffCenter(s, middle) + s.width / 2.0;
    NoneNearerAfter(spans, middle, 0);
  }

  /** The strip of a layout without raising. */
  function Spans(ws: seq<nat>, selected: nat, center: int): (spans: seq<Span>)
    requires selected < |ws|
    ensures |spans| == |ws|
  {
    seq(|ws|, i requires 0 <= i < |ws| => Span(SlotStart(ws, selected, center, i) as real, ws[i] as real))
  }

  lemma LaidOutStrip(ws: seq<nat>, selected: nat, center: int)
    requires selected < |ws|
    ensures Strip(Spans(ws, selected, center))
  {
    hide SlotStart;
    forall i | 0 < i < |ws|
      ensures SlotStart(ws, selected, center, i) == SlotStart(ws, selected, center, i - 1) + ws[i-1]
    {
      SlotsAdjacent(ws, selected, center, i - 1);
    }
  }

  /** The same for the strip that the carousel itself laid out under a scroll, or under a drag by
      any real number: the gesture then ends with the whole pixels of that number. An empty page
      is only kept in the first place, and while the middle of the view is still inside the page
      no later one is nearer, whatever the widths of the others. */
  lemma LaidOutPageKept(ws: seq<nat>, selected: nat, v: View, k: nat)
    requires selected < |ws| && (v.scroll == 0 || v.drag == 0.0)
    requires Nearest(Spans(ws, selected, Center(v)), v.width as real / 2.0, k)
    ensures var offset := v.scroll + Truncate(v.drag);
            var spans, middle := Spans(ws, selected, Center(v)), v.width as real / 2.0;
            var kept := Snap(k, selected, offset, |ws|) == selected;
            var near := Apart(spans[selected].x + spans[selected].width, middle);
      && (offset > 0 ==> (kept <==> selected == 0))
      && (offset < 0 ==>
           (kept <==>
              && (offset >= -15 || selected + 1 == |ws|)
              && (selected == 0 || ws[selected] > 0)
              && NoLaterNearer(spans, middle, selected, near)))
      && (offset < 0 && ws[selected] >= 3 - 2 * offset ==> (kept <==> offset >= -15 || selected + 1 == |ws|))
  {
    hide Nearest, Strip, NoLaterNearer, Apart, Truncate;
    var offset := v.scroll + Truncate(v.drag);
    var spans, middle := Spans(ws, selected, Center(v)), v.width as real / 2.0;
    var s := spans[selected];
    LaidOutStrip(ws, selected, Center(v));
    if offset != 0 {
      MovedByTheGesture(ws, selected, v);
      PageKept(spans, middle, selected, offset, k);
      if offset < 0 && ws[selected] > 0 {
        RightEdgeNearerByOne(s, middle);
        if ws[selected] >= 3 - 2 * offset {
          NoneNearerAfter(spans, middle, selected);
        }
      }
    }
  }

  /** A gesture to the right moves the page to the right, one to the left moves it by half a pixel
      at least and by a pixel and a half more than its length at most. */
  lemma MovedByTheGesture(ws: seq<nat>, selected: nat, v: View)
    requires selected < |ws| && (v.scroll == 0 || v.drag == 0.0)
    ensures var offset := v.scroll + Truncate(v.drag);
            var s := Spans(ws, selected, Center(v))[selected];
            var off := OffCenter(s, v.width as real / 2.0);
      && s.width == ws[selected] as real
      && (offset > 0 ==> off > 0.0)
      && (offset < 0 ==> offset as real - 1.5 <= off <= -0.5)
  {
    var s := Spans(ws, selected, Center(v))[selected];
    assert ws[selected..selected] == [];
    Halves(ws[selected]);
    Halves(v.width);
    assert s.x == (Center(v) - ws[selected] / 2) as real;
    CenterMoved(v);
  }

  lemma CenterMoved(v: View)
    requires v.scroll == 0 || v.drag == 0.0
    ensures var offset := v.scroll + Truncate(v.drag);
      && (offset > 0 ==> Center(v) >= v.width / 2 + 1)
      && (offset < 0 ==> v.width / 2 + offset - 1 <= Center(v) <= v.width / 2 + offset)
  {
  }

  lemma Halves(n: nat)
    ensures 0.0 <= n as real / 2.0 - (n / 2) as real <= 0.5
  {
    assert n == 2 * (n / 2) + n % 2;
  }

  /** Three pages as wide as the view: one pixel to the right turns back a page, one pixel to the
      left does not turn. */
  lemma OnePixel()
    ensures var right := [Span(-99.0, 100.0), Span(1.0, 100.0), Span(101.0, 100.0)];
            Nearest(right, 50.0, 0) && Snap(0, 1, 1, 3) == 0
    ensures var left := [Span(-101.0, 100.0), Span(-1.0, 100.0), Span(99.0, 100.0)];
            Nearest(left, 50.0, 1) && Snap(1, 1, -1, 3) == 1
  {
    assert Distance(Span(-99.0, 100.0), 50.0) == 49 && Distance(Span(1.0, 100.0), 50.0) == 49;
    assert Distance(Span(101.0, 100.0), 50.0) == 51 && Distance(Span(-101.0, 100.0), 50.0) == 51;
    assert Distance(Span(-1.0, 100.0), 50.0) == 49 && Distance(Span(99.0, 100.0), 50.0) == 49;
  }

  // ----- the list of widgets

  type Item = nat

  /** What a list model says when it changes: at `position`, `removed` items gave way to `added`. */
  ghost predicate Changed(before: seq<Item>, after: seq<Item>, position: nat, removed: nat, added: nat) {
    && position + removed <= |before| && position + added <= |after|
    && |after| == |before| - removed + added
    && after[..position] == before[..position]
    && after[position+added..] == before[position+removed..]
  }

  function Spliced<T>(s: seq<T>, position: nat, removed: nat, added: seq<T>): seq<T>
    requires position + removed <= |s|
  {
    s[..position] + added + s[position+removed..]
  }

  lemma SplicedMore<T>(s: seq<T>, position: nat, removed: nat, added: seq<T>, x: T)
    requires position + removed <= |s|
    ensures var t := Spliced(s, position, removed, added);
            t[..position+|added|] + [x] + t[position+|added|..] == Spliced(s, position, removed, added + [x])
  {
  }

  /** If the list follows the model before a change, it follows it afterwards. */
  lemma MirrorFollows(before: seq<Item>, after: seq<Item>, position: nat, removed: nat, added: nat)
    requires Changed(before, after, position, removed, added)
    ensures Spliced(before, position, removed, after[position..position+added]) == after
  {
  }

  datatype Change = Change(position: nat, removed: nat, added: nat, after: seq<Item>)

  /** The changes a model goes through, one after the other. */
  ghost predicate Emitted(before: seq<Item>, cs: seq<Change>)
    decreases cs
  {
    cs != [] ==>
      Changed(before, cs[0].after, cs[0].position, cs[0].removed, cs[0].added) && Emitted(cs[0].after, cs[1..])
  }

  /** The list after the handler ran for every change. */
  ghost function Followed(mirror: seq<Item>, cs: seq<Change>): seq<Item>
    requires Emitted(mirror, cs)
    decreases cs
  {
    if cs == [] then mirror
    else
      var c := cs[0];
      MirrorFollows(mirror, c.after, c.position, c.removed, c.added);
      Followed(Spliced(mirror, c.position, c.removed, c.after[c.position..c.position+c.added]), cs[1..])
  }

  /** In every run of changes the list ends up equal to the model. */
  lemma {:induction false} MirrorIsTheModel(before: seq<Item>, cs: seq<Change>)
    requires Emitted(before, cs)
    ensures Followed(before, cs) == if cs == [] then before else cs[|cs|-1].after
    decreases cs
  {
    hide Changed;
    if cs != [] {
      var c := cs[0];
      MirrorFollows(before, c.after, c.position, c.removed, c.added);
      MirrorIsTheModel(c.after, cs[1..]);
    }
  }

  ghost function ChildrenOf(ws: seq<CarouselWidget>): (cs: seq<Child>)
    ensures |cs| == |ws| && forall i :: 0 <= i < |ws| ==> cs[i] == ws[i].child
  {
    seq(|ws|, i requires 0 <= i < |ws| => ws[i].child)
  }

  lemma TruncateWhole(i: int)
    ensures Truncate(i as real) == i && Truncate(i as real + 0.0) == i
  {
  }

  class BgeCarousel {
    var mirror: seq<Item>
    var widgets: seq<CarouselWidget>
    var scrolling: bool
    var hscrollStart: int
    var hscrollCurrent: int
    var dragging: bool
    var dragX: real
    var allowRaise: bool

    ghost predicate Valid()
      reads this, widgets
    {
      && |mirror| == |widgets|
      && (forall i, j :: 0 <= i < j < |widgets| ==> widgets[i] != widgets[j])
      && (forall i :: 0 <= i < |widgets| ==> widgets[i].Heads())
    }

    constructor ()
      ensures Valid() && mirror == []
    {
      mirror, widgets, scrolling, hscrollStart, hscrollCurrent := [], [], false, -1, -1;
      dragging, dragX, allowRaise := false, 0.0, false;
    }

    method RemoveRange(position: nat, removed: nat)
      requires Valid() && position + removed <= |mirror|
      modifies this`mirror, this`widgets
      ensures Valid()
      ensures mirror == old(mirror)[..position] + old(mirror)[position+removed..]
      ensures widgets == old(widgets)[..position] + old(widgets)[position+removed..]
    {
      mirror := mirror[..position] + mirror[position+removed..];
      widgets := widgets[..position] + widgets[position+removed..];
    }

    method InsertWidget(at: nat, item: Item, child: Child) returns (data: CarouselWidget)
      requires Valid() && at <= |mirror|
      modifies this`mirror, this`widgets
      ensures Valid() && fresh(data) && data.child == child
      ensures mirror == old(mirror)[..at] + [item] + old(mirror)[at..]
      ensures widgets == old(widgets)[..at] + [data] + old(widgets)[at..]
    {
      data := new CarouselWidget(child);
      mirror := mirror[..at] + [item] + mirror[at..];
      widgets := widgets[..at] + [data] + widgets[at..];
    }

    /** One item more in the middle of the splice. */
    method InsertNext(ghost before: seq<Item>, ghost were: seq<CarouselWidget>, position: nat, ghost removed: nat,
                      ghost items: seq<Item>, ghost made: seq<CarouselWidget>, i: nat, item: Item, child: Child)
        returns (data: CarouselWidget)
      requires Valid() && position + removed <= |before| == |were| && |items| == |made| == i
      requires mirror == Spliced(before, position, removed, items) && widgets == Spliced(were, position, removed, made)
      modifies this`mirror, this`widgets
      ensures Valid() && fresh(data) && data.child == child
      ensures mirror == Spliced(before, position, removed, items + [item])
      ensures widgets == Spliced(were, position, removed, made + [data])
    {
      SplicedMore(before, position, removed, items, item);
      data := InsertWidget(position + i, item, child);
      hide Spliced;
      SplicedMore(were, position, removed, made, data);
    }

    /** The handler of items-changed; `create` answers the create-widget signal. Widgets of items
        that stay are kept. */
    method ItemsChanged(position: nat, removed: nat, added: nat, model: seq<Item>, create: Item -> Child)
        returns (ghost made: seq<CarouselWidget>)
      requires Valid() && position + removed <= |mirror| && position + added <= |model|
      modifies this`mirror, this`widgets
      ensures Valid()
      ensures mirror == Spliced(old(mirror), position, removed, model[position..position+added])
      ensures |old(widgets)| == |old(mirror)|
      ensures widgets == Spliced(old(widgets), position, removed, made) && |made| == added
      ensures forall k :: 0 <= k < added ==> fresh(made[k]) && made[k].child == create(model[position+k])
    {
      ghost var before, were := mirror, widgets;
      assert |before| == |were|;
      hide Valid;
      made := [];
      if removed > 0 {
        RemoveRange(position, removed);
      }
      assert mirror == Spliced(before, position, removed, model[position..position]);
      assert widgets == Spliced(were, position, removed, made);
      var i := 0;
      hide Spliced;
      while i < added
        invariant 0 <= i <= added && |made| == i
        invariant Valid()
        invariant mirror == Spliced(before, position, removed, model[position..position+i])
        invariant widgets == Spliced(were, position, removed, made)
        invariant forall k :: 0 <= k < i ==> fresh(made[k]) && made[k].child == create(model[position+k])
      {
        ghost var items := model[position..position+i];
        assert items + [model[position+i]] == model[position..position+i+1];
        var data := InsertNext(before, were, position, removed, items, made, i, model[position+i],
            create(model[position+i]));
        made := made + [data];
        i := i + 1;
      }
    }

    function ViewOf(width: nat, height: nat): View
      reads this
    {
      View(width, height,
           if scrolling then hscrollStart - hscrollCurrent else 0,
           if dragging then dragX else 0.0,
           allowRaise)
    }

    /** The child has the target that belongs to its place in the strip. */
    ghost predicate Placed(ws: seq<nat>, v: View, idx: nat, i: nat)
      requires |ws| == |widgets| && idx < |ws| && i < |ws|
      reads this, widgets[i]
    {
      var w := widgets[i];
      w.width == ws[i] && w.target == Target(v, w.child, w.raised, SlotStart(ws, idx, Center(v), i))
    }

    /** The first loop of move_to_idx: where the strip begins. */
    method StripStart(idx: nat, width: nat, height: nat) returns (offset: int)
      requires idx < |widgets|
      ensures var v := ViewOf(width, height);
              offset == SlotStart(SlotWidths(ChildrenOf(widgets), v), idx, Center(v), 0)
    {
      hide SlotWidth, Total, SlotStart;
      ghost var v := ViewOf(width, height);
      ghost var ws := SlotWidths(ChildrenOf(widgets), v);
      offset := width / 2;
      if scrolling {
        offset := offset + (hscrollStart - hscrollCurrent);
      }
      TruncateWhole(offset);
      if dragging {
        offset := Truncate(offset as real + dragX);
      }
      assert offset == Center(v);
      TotalNone(ws);
      var i := 0;
      while i <= idx
        invariant 0 <= i <= idx + 1
        invariant offset == Center(v) - (if i <= idx then Total(ws[..i]) else Total(ws[..idx]) + ws[idx] / 2)
      {
        var childWidth := SlotWidth(widgets[i].child, width, height);
        assert ws[i] == childWidth;
        TotalNext(ws, i);
        if i == idx {
          offset := offset - childWidth / 2;
        } else {
          offset := offset - childWidth;
        }
        i := i + 1;
      }
      FirstStart(ws, idx, Center(v));
    }

    /** One turn of the second loop. */
    method PlaceChild(ghost ws: seq<nat>, v: View, ghost idx: nat, i: nat, offset: int, damping: real)
      requires ws == SlotWidths(ChildrenOf(widgets), v) && idx < |widgets| && i < |widgets|
      requires offset == SlotStart(ws, idx, Center(v), i) && widgets[i].Heads()
      modifies widgets[i]
      ensures Placed(ws, v, idx, i) && widgets[i].Heads() && widgets[i].raised == old(widgets[i].raised)
      ensures widgets[i].Moved(damping)
    {
      hide SlotWidth, SlotStart, Target, Center, CarouselWidget.Heads;
      var w := widgets[i];
      w.Aim(SlotWidth(w.child, v.width, v.height), Target(v, w.child, w.raised, offset), damping);
    }

    /** The second loop: every child gets its place in the strip that starts at `start`. */
    method PlaceChildren(ghost ws: seq<nat>, v: View, ghost idx: nat, start: int, damping: real)
      requires Valid() && ws == SlotWidths(ChildrenOf(widgets), v) && idx < |widgets|
      requires start == SlotStart(ws, idx, Center(v), 0)
      modifies widgets
      ensures Valid()
      ensures forall w <- widgets :: w.raised == old(w.raised) && w.Moved(damping)
      ensures forall i :: 0 <= i < |widgets| ==> Placed(ws, v, idx, i)
    {
      hide SlotWidth, SlotStart, Target, Center, CarouselWidget.Heads, ChildrenOf;
      var offset := start;
      var i := 0;
      while i < |widgets|
        invariant 0 <= i <= |widgets| && offset == SlotStart(ws, idx, Center(v), i)
        invariant forall k :: 0 <= k < |widgets| ==> widgets[k].Heads()
        invariant forall w <- widgets :: w.raised == old(w.raised) && w.Moved(damping)
        invariant forall k :: i <= k < |widgets| ==>
                    widgets[k].width == old(widgets[k].width) && widgets[k].target == old(widgets[k].target)
                    && widgets[k].rect == old(widgets[k].rect)
        invariant forall k :: 0 <= k < i ==> Placed(ws, v, idx, k)
      {
        SlotsAdjacent(ws, idx, Center(v), i);
        PlaceChild(ws, v, idx, i, offset, damping);
        offset := offset + SlotWidth(widgets[i].child, v.width, v.height);
        i := i + 1;
      }
    }

    /** The child is drawn over its whole slot. */
    predicate Fills(i: nat)
      requires i < |widgets|
      reads this, widgets[i]
    {
      widgets[i].raised || !allowRaise
    }

    /** Where the two loops meet: the middle of the selected child is in the middle of the view,
        moved by the gesture, and every child starts where the one before it ends. */
    ghost predicate Laid(v: View, idx: nat)
      requires idx < |widgets|
      reads this, widgets
    {
      && (Fills(idx) ==> widgets[idx].target.x + widgets[idx].target.width / 2 == Center(v))
      && (forall i: nat :: i + 1 < |widgets| && Fills(i) && Fills(i + 1) ==>
           widgets[i+1].target.x == widgets[i].target.x + widgets[i].target.width)
    }

    lemma PlacedIsLaid(ws: seq<nat>, v: View, idx: nat)
      requires |ws| == |widgets| && idx < |ws| && v.raises == allowRaise
      requires ws == SlotWidths(ChildrenOf(widgets), v)
      requires forall i :: 0 <= i < |widgets| ==> Placed(ws, v, idx, i)
      ensures Laid(v, idx)
    {
      hide SlotWidth, Center;
      if Fills(idx) {
        assert Placed(ws, v, idx, idx);
        assert ws[idx..idx] == [];
      }
      forall i: nat | i + 1 < |widgets| && Fills(i) && Fills(i + 1)
        ensures widgets[i+1].target.x == widgets[i].target.x + widgets[i].target.width
      {
        hide SlotStart;
        assert Placed(ws, v, idx, i) && Placed(ws, v, idx, i + 1);
        SlotsAdjacent(ws, idx, Center(v), i);
      }
    }

    /** The result is false where the source would read the array of widgets past its end. */
    method MoveToIdx(idx: nat, width: nat, height: nat, damping: real) returns (ok: bool)
      requires Valid()
      modifies widgets
      ensures Valid()
      ensures ok <==> width == 0 || height == 0 || idx < |widgets|
      ensures forall w <- widgets :: w.raised == old(w.raised) && w.Moved(damping)
      ensures !ok || width == 0 || height == 0 ==>
                forall w <- widgets :: w.target == old(w.target) && w.rect == old(w.rect) && w.width == old(w.width)
      ensures ok && width > 0 && height > 0 ==> Laid(ViewOf(width, height), idx)
      ensures ok && width > 0 && height > 0 ==>
                forall i :: 0 <= i < |widgets| ==>
                  Placed(SlotWidths(ChildrenOf(widgets), ViewOf(width, height)), ViewOf(width, height), idx, i)
    {
      hide Valid, Placed, SlotWidths, Laid;
      if width == 0 || height == 0 {
        return true;
      }
      if idx >= |widgets| {
        return false;
      }
      ghost var ws := SlotWidths(ChildrenOf(widgets), ViewOf(width, height));
      var start := StripStart(idx, width, height);
      PlaceChildren(ws, ViewOf(width, height), idx, start, damping);
      PlacedIsLaid(ws, ViewOf(width, height), idx);
      return true;
    }

    /** `selected` is None for G_MAXUINT: then the first item is selected. */
    method EnsureViewport(items: nat, selected: Option<nat>, width: nat, height: nat, damping: real) returns (ok: bool)
      requires Valid()
      modifies widgets
      ensures Valid()
      ensures var idx := if selected.Some? then selected.value else 0;
              ok <==> items == 0 || width == 0 || height == 0 || idx < |widgets|
      ensures forall w <- widgets :: w.raised == old(w.raised) && w.Moved(damping)
      ensures !ok || items == 0 || width == 0 || height == 0 ==>
                forall w <- widgets :: w.target == old(w.target) && w.rect == old(w.rect) && w.width == old(w.width)
      ensures ok && items > 0 && width > 0 && height > 0 ==>
                var idx := if selected.Some? then selected.value else 0;
                && Laid(ViewOf(width, height), idx)
                && forall i :: 0 <= i < |widgets| ==>
                     Placed(SlotWidths(ChildrenOf(widgets), ViewOf(width, height)), ViewOf(width, height), idx, i)
    {
      hide Valid, Laid, Placed, SlotWidths, ChildrenOf;
      ok := true;
      if items > 0 {
        ok := MoveToIdx(if selected.Some? then selected.value else 0, width, height, damping);
      }
    }

    method RemoveAll(before: seq<Item>, create: Item -> Child)
      requires Valid() && mirror == before
      modifies this`mirror, this`widgets
      ensures Valid() && mirror == [] && widgets == []
    {
      ghost var none := ItemsChanged(0, |before|, 0, before, create);
    }

    method AddAll(model: seq<Item>, create: Item -> Child)
      requires Valid() && mirror == [] && widgets == []
      modifies this`mirror, this`widgets
      ensures Valid() && mirror == model && |widgets| == |model|
      ensures forall i :: 0 <= i < |widgets| ==> fresh(widgets[i]) && widgets[i].child == create(model[i])
    {
      ghost var made := ItemsChanged(0, 0, |model|, model, create);
      assert model[0..|model|] == model;
      assert widgets == made;
    }

    /** bge_carousel_set_model: `before` is the model that the list follows, empty if there is none,
        with its selection; `model` is the new one. While the old model still has items, its
        removal moves to an index that has no widget any more. */
    method SetModel(before: seq<Item>, was: Option<nat>, model: seq<Item>, selected: Option<nat>,
                    create: Item -> Child, width: nat, height: nat)
        returns (ok: bool)
      requires Valid() && mirror == before
      requires selected.Some? ==> selected.value < |model|
      modifies this`mirror, this`widgets
      ensures Valid()
      ensures ok <==> before == [] || width == 0 || height == 0
      ensures ok ==> mirror == model && |widgets| == |model|
      ensures ok ==> forall i :: 0 <= i < |widgets| ==> fresh(widgets[i]) && widgets[i].child == create(model[i])
      ensures ok && model != [] && width > 0 && height > 0 ==>
                Laid(ViewOf(width, height), if selected.Some? then selected.value else 0)
    {
      hide Valid, CarouselWidget.Heads, Laid, Placed;
      RemoveAll(before, create);
      ok := EnsureViewport(|before|, was, width, height, -1.0);
      if ok {
        AddAll(model, create);
        assert forall i :: 0 <= i < |widgets| ==> fresh(widgets[i]);
        ok := EnsureViewport(|model|, selected, width, height, -1.0);
      }
    }
  }
}
