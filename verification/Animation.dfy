/** The registry of spring animations: who owns the user data of each added spring, what its
    callback is told last, and when the tick callback is registered. */
module Animation {
  import opened Order

  // ----- springs

  /** One call of bge_animation_add_spring. `owned`: neither the user data nor its destroy function
      is NULL. `duration` and `animates` are the answers of spring_calculate_duration and
      bge_should_animate. */
  datatype Addition = Addition(
    key: Option<string>,
    from: real,
    to: real,
    duration: real,
    owned: bool,
    cancellable: Option<nat>,
    animates: bool)

  /** A SpringData in use: the number of the addition that filled it, and whether its timer runs. */
  datatype Spring = Spring(id: nat, a: Addition, started: bool)

  /** What happens to the user data of one addition. */
  datatype Action = Called(value: real) | Released

  /** What a frame brings: whether the widget should not animate, which cancellables are cancelled,
      and for a spring whose timer runs the elapsed time and the value of the spring formula. */
  datatype Frame = Frame(cancel: bool, cancelled: set<nat>, elapsed: nat -> real, value: nat -> real)

  /** `live` has every SpringData by the number of its addition; `history` has, for every addition
      so far, what was done with its user data. */
  datatype State = State(live: map<nat, Spring>, ticking: bool, alive: bool, history: seq<seq<Action>>)

  datatype Event =
    | Add(a: Addition)
    | Cancel(key: string)
    | CancelAll
    | Tick(f: Frame)
    | WidgetDies

  const START := State(map[], false, true, [])

  // ----- one step

  function Release(a: Addition): seq<Action> {
    if a.owned then [Released] else []
  }

  function Recorded(h: seq<seq<Action>>, acts: map<nat, seq<Action>>): seq<seq<Action>> {
    seq(|h|, i requires 0 <= i < |h| => if i in acts then h[i] + acts[i] else h[i])
  }

  function DropActions(s: Spring, call: bool): seq<Action> {
    (if call then [Called(s.a.to)] else []) + Release(s.a)
  }

  function DropActs(live: map<nat, Spring>, gone: set<nat>, call: bool): map<nat, seq<Action>> {
    map i | i in live && i in gone :: DropActions(live[i], call)
  }

  /** Destroying the springs in `gone`, after telling their callbacks the final value if `call`. */
  function Dropped(s: State, gone: set<nat>, call: bool): State {
    s.(live := s.live - gone,
       history := Recorded(s.history, DropActs(s.live, gone, call)))
  }

  function WithKey(live: map<nat, Spring>, key: Option<string>): set<nat> {
    set i | i in live && key.Some? && live[i].a.key == key
  }

  function Named(live: map<nat, Spring>): set<nat> {
    set i | i in live && live[i].a.key.Some?
  }

  function Added(s: State, a: Addition): State {
    var id := |s.history|;
    if !s.alive then s.(history := s.history + [Release(a)])
    else if !a.animates then s.(history := s.history + [[Called(a.to)] + Release(a)])
    else
      var d := Dropped(s, WithKey(s.live, a.key), false);
      d.(live := d.live[id := Spring(id, a, false)], history := d.history + [[Called(a.from)]], ticking := true)
  }

  predicate Stops(f: Frame, s: Spring) {
    f.cancel || (s.a.cancellable.Some? && s.a.cancellable.value in f.cancelled)
  }

  predicate Finished(f: Frame, s: Spring) {
    Stops(f, s) || (if s.started then f.elapsed(s.id) else 0.0) >= s.a.duration
  }

  function TickActions(f: Frame, s: Spring): seq<Action> {
    (if Stops(f, s) && !f.cancel then []
     else [Called(if Finished(f, s) then s.a.to else if s.started then f.value(s.id) else s.a.from)])
    + (if Finished(f, s) then Release(s.a) else [])
  }

  function TickActs(f: Frame, live: map<nat, Spring>, done: set<nat>): map<nat, seq<Action>> {
    map i | i in live && i in done :: TickActions(f, live[i])
  }

  /** The springs in `done` were updated for a frame. */
  function TickedLive(f: Frame, live: map<nat, Spring>, done: set<nat>): map<nat, Spring> {
    map i | i in live && !(i in done && Finished(f, live[i]))
      :: if i in done then live[i].(started := true) else live[i]
  }

  function Ticked(s: State, f: Frame): State {
    if !s.ticking || !s.alive then s
    else
      var live := TickedLive(f, s.live, s.live.Keys);
      State(live, live != map[], true, Recorded(s.history, TickActs(f, s.live, s.live.Keys)))
  }

  function Step(s: State, e: Event): State {
    match e
    case Add(a) => Added(s, a)
    case Cancel(key) => Dropped(s, WithKey(s.live, Some(key)), s.alive)
    case CancelAll => Dropped(s, Named(s.live), s.alive)
    case Tick(f) => Ticked(s, f)
    case WidgetDies => s.(alive := false)
  }

  function Disposed(s: State): State {
    Dropped(s, s.live.Keys, false).(ticking := s.ticking && !s.alive)
  }

  function Run(s: State, es: seq<Event>): State
    decreases es
  {
    if es == [] then s else Run(Step(s, es[0]), es[1..])
  }

  function Additions(es: seq<Event>): seq<Addition> {
    if es == [] then []
    else (if es[0].Add? then [es[0].a] else []) + Additions(es[1..])
  }

  // ----- each event, told by what becomes of one addition

  /** The callback was told these values, and then the user data was released. */
  ghost predicate EndedWith(s: State, t: State, i: nat, values: seq<real>)
    requires i in s.live && i < |s.history|
  {
    && i !in t.live && |t.history| > i
    && var calls := seq(|values|, n requires 0 <= n < |values| => Called(values[n]));
       t.history[i] == s.history[i] + calls + (if s.live[i].a.owned then [Released] else [])
  }

  ghost predicate Untold(s: State, t: State, i: nat)
    requires i < |s.history|
  {
    && |t.history| > i && t.history[i] == s.history[i]
    && (i in s.live <==> i in t.live) && (i in s.live ==> t.live[i] == s.live[i])
  }

  /** A frame: a spring goes on exactly when nothing cancels it and it has not run out; its first
      frame starts its timer and tells the start value, later ones tell the value of the formula. One
      that runs out, or that must not animate, is told its end value; a cancelled one nothing. */
  lemma FrameMeaning(s: State, f: Frame, i: nat)
    requires s.ticking && s.alive && i in s.live && i < |s.history|
    ensures var t := Step(s, Tick(f));
            var sp := s.live[i];
            var cancelled := sp.a.cancellable.Some? && sp.a.cancellable.value in f.cancelled;
            var elapsed := if sp.started then f.elapsed(sp.id) else 0.0;
      if !f.cancel && !cancelled && elapsed < sp.a.duration then
        && i in t.live && t.live[i] == Spring(sp.id, sp.a, true) && |t.history| > i
        && t.history[i] == s.history[i] + [Called(if sp.started then f.value(sp.id) else sp.a.from)]
      else EndedWith(s, t, i, if !f.cancel && cancelled then [] else [sp.a.to])
  {
  }

  /** Nothing cancels the spring in this frame, and its time has not run out. */
  ghost predicate GoesOn(f: Frame, sp: Spring, first: bool) {
    && !f.cancel && (sp.a.cancellable.Some? ==> sp.a.cancellable.value !in f.cancelled)
    && (if first then 0.0 else f.elapsed(sp.id)) < sp.a.duration
  }

  function Frames(fs: seq<Frame>): seq<Event> {
    seq(|fs|, n requires 0 <= n < |fs| => Tick(fs[n]))
  }

  /** Through any number of frames in which it goes on, a spring is told its start value once and
      then, frame by frame, the value of the formula, and it is still there. */
  lemma {:induction false} GoesOnThrough(s: State, fs: seq<Frame>, i: nat)
    requires s.ticking && s.alive && i in s.live && i < |s.history|
    requires forall n :: 0 <= n < |fs| ==> GoesOn(fs[n], s.live[i], n == 0 && !s.live[i].started)
    ensures var t := Run(s, Frames(fs));
            var sp := s.live[i];
      && i in t.live && t.live[i].id == sp.id && t.live[i].a == sp.a && |t.history| == |s.history|
      && |t.history[i]| == |s.history[i]| + |fs| && t.history[i][..|s.history[i]|] == s.history[i]
      && forall n :: 0 <= n < |fs| ==>
           t.history[i][|s.history[i]| + n] == Called(if n == 0 && !sp.started then sp.a.from else fs[n].value(sp.id))
    decreases fs
  {
    hide Step;
    if fs != [] {
      assert Frames(fs)[1..] == Frames(fs[1..]);
      FrameMeaning(s, fs[0], i);
      FrameElsewhere(s, fs[0]);
      var t := Step(s, Tick(fs[0]));
      forall n | 0 <= n < |fs[1..]|
        ensures GoesOn(fs[1..][n], t.live[i], false)
      {
        assert GoesOn(fs[n + 1], s.live[i], false);
      }
      GoesOnThrough(t, fs[1..], i);
      var r := Run(s, Frames(fs));
      assert r == Run(t, Frames(fs[1..]));
      assert r.history[i][..|s.history[i]|] == r.history[i][..|t.history[i]|][..|s.history[i]|];
      assert r.history[i][|s.history[i]|] == r.history[i][..|t.history[i]|][|s.history[i]|];
      forall n | 0 < n < |fs|
        ensures r.history[i][|s.history[i]| + n] == Called(fs[n].value(s.live[i].id))
      {
        assert r.history[i][|t.history[i]| + (n - 1)] == Called(fs[1..][n - 1].value(s.live[i].id));
      }
    }
  }

  /** Springs that are not in use hear nothing of a frame; the tick goes on while one is in use. */
  lemma FrameElsewhere(s: State, f: Frame)
    ensures var t := Step(s, Tick(f));
      && t.alive == s.alive && |t.history| == |s.history|
      && (s.ticking && s.alive ==> (t.ticking <==> t.live != map[]))
      && (!(s.ticking && s.alive) ==> t == s)
      && forall i: nat | i < |s.history| && i !in s.live :: Untold(s, t, i)
  {
  }

  /** Cancelling a key ends the springs of that key, with their end value while the widget lives. */
  lemma CancelMeaning(s: State, key: string, i: nat)
    requires i < |s.history|
    ensures var t := Step(s, Cancel(key));
      && t.ticking == s.ticking && t.alive == s.alive && |t.history| == |s.history|
      && if i in s.live && s.live[i].a.key == Some(key)
         then EndedWith(s, t, i, if s.alive then [s.live[i].a.to] else []) else Untold(s, t, i)
  {
  }

  lemma CancelAllMeaning(s: State, i: nat)
    requires i < |s.history|
    ensures var t := Step(s, CancelAll);
      && t.ticking == s.ticking && t.alive == s.alive && |t.history| == |s.history|
      && if i in s.live && s.live[i].a.key.Some?
         then EndedWith(s, t, i, if s.alive then [s.live[i].a.to] else []) else Untold(s, t, i)
  {
  }

  /** An addition that animates on a living widget starts with its start value and ends a running
      spring of its key silently; one that does not animate is told its end value, and on a dead
      widget nothing. */
  lemma AddMeaning(s: State, a: Addition)
    requires forall i <- s.live :: i < |s.history|
    ensures var t := Step(s, Add(a));
            var id := |s.history|;
            var release := if a.owned then [Released] else [];
      && t.alive == s.alive && |t.history| == id + 1
      && (t.ticking <==> s.ticking || (s.alive && a.animates))
      && (id in t.live <==> s.alive && a.animates)
      && (id in t.live ==> t.live[id] == Spring(id, a, false))
      && t.history[id] == (if !s.alive then release else if !a.animates then [Called(a.to)] + release
                           else [Called(a.from)])
      && forall i: nat | i < id ::
           if s.alive && a.animates && a.key.Some? && i in s.live && s.live[i].a.key == a.key
           then EndedWith(s, t, i, []) else Untold(s, t, i)
  {
  }

  /** The death of the widget tells nothing to anyone, and is for good. */
  lemma DeathMeaning(s: State, e: Event)
    ensures Step(s, WidgetDies) == s.(alive := false)
    ensures Step(s, e).alive <==> s.alive && !e.WidgetDies?
  {
    hide Recorded, DropActs, TickActs, TickedLive;
  }

  // ----- ownership: the user data of each addition is released once, and last

  ghost predicate Closed(h: seq<Action>, owned: bool) {
    if owned then h != [] && h[|h|-1] == Released && Released !in h[..|h|-1]
    else Released !in h
  }

  /** The callback was told the start value before anything else. */
  predicate BeganAt(h: seq<Action>, from: real) {
    h != [] && h[0] == Called(from)
  }

  /** What is kept of one addition: in use, begun and not released, or closed. */
  ghost predicate EntryKept(s: State, adds: seq<Addition>, i: nat)
    requires i < |s.history| == |adds|
  {
    if i in s.live then
      && s.live[i].id == i && s.live[i].a == adds[i]
      && BeganAt(s.history[i], adds[i].from) && Released !in s.history[i]
    else Closed(s.history[i], adds[i].owned)
  }

  ghost predicate Ledger(s: State, adds: seq<Addition>) {
    && |s.history| == |adds|
    && (forall i <- s.live :: i < |adds|)
    && (forall i: nat :: i < |adds| ==> EntryKept(s, adds, i))
    && (forall i, j | i in s.live && j in s.live ::
         s.live[i].a.key == s.live[j].a.key && s.live[i].a.key.Some? ==> i == j)
    && (s.alive && s.live != map[] ==> s.ticking)
  }

  lemma ClosedBy(h: seq<Action>, calls: seq<Action>, a: Addition)
    requires Released !in h && Released !in calls
    ensures Closed(h + (calls + Release(a)), a.owned)
  {
  }

  lemma DroppedLedger(s: State, adds: seq<Addition>, gone: set<nat>, call: bool)
    requires Ledger(s, adds)
    ensures Ledger(Dropped(s, gone, call), adds)
  {
    hide Closed;
    var d := Dropped(s, gone, call);
    forall i: nat | i < |adds|
      ensures EntryKept(d, adds, i)
    {
      assert EntryKept(s, adds, i);
      if i in s.live && i in gone {
        ClosedBy(s.history[i], if call then [Called(adds[i].to)] else [], adds[i]);
      }
    }
    assert s.live == map[] ==> d.live == map[];
  }

  lemma TickedEntry(s: State, adds: seq<Addition>, f: Frame, i: nat)
    requires Ledger(s, adds) && s.ticking && s.alive && i < |adds|
    ensures EntryKept(Ticked(s, f), adds, i)
  {
    hide Closed;
    assert EntryKept(s, adds, i);
    if i in s.live && Finished(f, s.live[i]) {
      ClosedBy(s.history[i], if Stops(f, s.live[i]) && !f.cancel then [] else [Called(adds[i].to)], adds[i]);
    }
  }

  lemma TickedLedger(s: State, adds: seq<Addition>, f: Frame)
    requires Ledger(s, adds)
    ensures Ledger(Ticked(s, f), adds)
  {
    hide EntryKept, TickActions, Finished;
    if s.ticking && s.alive {
      forall i: nat | i < |adds|
        ensures EntryKept(Ticked(s, f), adds, i)
      {
        TickedEntry(s, adds, f, i);
      }
    }
  }

  lemma AddedLedger(s: State, adds: seq<Addition>, a: Addition)
    requires Ledger(s, adds)
    ensures Ledger(Added(s, a), adds + [a])
  {
    hide Recorded, DropActions, WithKey, Ledger, Closed;
    if s.alive && a.animates {
      var d := Dropped(s, WithKey(s.live, a.key), false);
      DroppedLedger(s, adds, WithKey(s.live, a.key), false);
      NoLongerLive(s, a.key);
      assert |s.history| == |d.history| by { SameHistory(s, d, adds); }
      StartedLedger(d, adds, a);
    } else {
      var calls := if s.alive then [Called(a.to)] else [];
      ClosedBy([], calls, a);
      assert [] + (calls + Release(a)) == calls + Release(a);
      assert [] + Release(a) == Release(a);
      ClosedLedger(s, adds, a, calls + Release(a));
    }
  }

  lemma SameHistory(s: State, d: State, adds: seq<Addition>)
    requires Ledger(s, adds) && Ledger(d, adds)
    ensures |s.history| == |d.history|
  {
  }

  /** An addition that is closed at once. */
  lemma ClosedLedger(s: State, adds: seq<Addition>, a: Addition, h: seq<Action>)
    requires Ledger(s, adds) && Closed(h, a.owned)
    ensures Ledger(s.(history := s.history + [h]), adds + [a])
  {
    hide Closed;
    var now := s.(history := s.history + [h]);
    assert |adds| !in s.live;
    forall i: nat | i < |adds|
      ensures EntryKept(now, adds + [a], i)
    {
      assert EntryKept(s, adds, i);
    }
  }

  /** An addition that starts a spring. */
  lemma StartedLedger(d: State, adds: seq<Addition>, a: Addition)
    requires Ledger(d, adds) && forall i <- d.live :: a.key.Some? ==> d.live[i].a.key != a.key
    ensures var id := |d.history|;
            Ledger(d.(live := d.live[id := Spring(id, a, false)], history := d.history + [[Called(a.from)]],
                      ticking := true), adds + [a])
  {
    hide Closed;
    var id := |d.history|;
    var live := d.live[id := Spring(id, a, false)];
    var now := d.(live := live, history := d.history + [[Called(a.from)]], ticking := true);
    assert id !in d.live;
    assert EntryKept(now, adds + [a], id);
    forall i: nat | i < |adds|
      ensures EntryKept(now, adds + [a], i)
    {
      assert EntryKept(d, adds, i);
    }
  }

  lemma NoLongerLive(s: State, key: Option<string>)
    ensures forall i <- Dropped(s, WithKey(s.live, key), false).live ::
              i in s.live && (key.Some? ==> s.live[i].a.key != key)
  {
  }

  lemma StepLedger(s: State, adds: seq<Addition>, e: Event)
    requires Ledger(s, adds)
    ensures Ledger(Step(s, e), adds + if e.Add? then [e.a] else [])
  {
    hide EntryKept, Dropped, Added, Ticked;
    assert adds + [] == adds;
    match e
    case Add(a) => AddedLedger(s, adds, a);
    case Cancel(key) => DroppedLedger(s, adds, WithKey(s.live, Some(key)), s.alive);
    case CancelAll => DroppedLedger(s, adds, Named(s.live), s.alive);
    case Tick(f) => TickedLedger(s, adds, f);
    case WidgetDies =>
      forall i: nat | i < |adds|
        ensures EntryKept(s.(alive := false), adds, i)
      {
        WidgetIrrelevant(s, adds, i);
      }
  }

  lemma WidgetIrrelevant(s: State, adds: seq<Addition>, i: nat)
    requires i < |s.history| == |adds| && EntryKept(s, adds, i)
    ensures EntryKept(s.(alive := false), adds, i)
  {
  }

  lemma {:induction false} RunLedger(s: State, adds: seq<Addition>, es: seq<Event>)
    requires Ledger(s, adds)
    ensures Ledger(Run(s, es), adds + Additions(es))
    decreases es
  {
    hide Ledger, Step;
    if es == [] {
      assert adds + Additions(es) == adds;
    } else {
      var one := if es[0].Add? then [es[0].a] else [];
      StepLedger(s, adds, es[0]);
      RunLedger(Step(s, es[0]), adds + one, es[1..]);
      assert (adds + one) + Additions(es[1..]) == adds + Additions(es);
    }
  }

  lemma StartLedger()
    ensures Ledger(START, [])
  {
  }

  /** In every run, the callback of a spring in use began at its start value and its user data was
      not released, the data of every other
      addition was released (if it has a destroy function), once and after its last use, and a tick
      is registered as long as springs remain on a living widget. */
  lemma RunsOwnUserData(es: seq<Event>)
    ensures var s := Run(START, es);
            var adds := Additions(es);
            && |s.history| == |adds|
            && (forall i <- s.live :: i < |adds| && BeganAt(s.history[i], adds[i].from) && Released !in s.history[i])
            && (forall i :: 0 <= i < |adds| && i !in s.live ==> Closed(s.history[i], adds[i].owned))
            && (s.alive && s.live != map[] ==> s.ticking)
  {
    hide Closed, Run;
    StartLedger();
    RunLedger(START, [], es);
    assert [] + Additions(es) == Additions(es);
    var s := Run(START, es);
    var adds := Additions(es);
    forall i | 0 <= i < |adds|
      ensures if i in s.live then BeganAt(s.history[i], adds[i].from) && Released !in s.history[i]
              else Closed(s.history[i], adds[i].owned)
    {
      assert EntryKept(s, adds, i);
    }
  }

  /** After dispose nothing is left: every user data with a destroy function was released exactly
      once, and never used afterwards. */
  lemma DisposedReleasesAll(es: seq<Event>)
    ensures var s := Run(START, es); Disposed(s).live == map[] && (Disposed(s).ticking <==> s.ticking && !s.alive)
    ensures var s := Disposed(Run(START, es));
            var adds := Additions(es);
            && s.live == map[] && |s.history| == |adds|
            && forall i :: 0 <= i < |adds| ==> Closed(s.history[i], adds[i].owned)
  {
    hide Closed, Run;
    StartLedger();
    RunLedger(START, [], es);
    assert [] + Additions(es) == Additions(es);
    var r := Run(START, es);
    DroppedLedger(r, Additions(es), r.live.Keys, false);
    var s := Disposed(r);
    assert s.live == map[];
    forall i | 0 <= i < |Additions(es)|
      ensures Closed(s.history[i], Additions(es)[i].owned)
    {
      assert EntryKept(Dropped(r, r.live.Keys, false), Additions(es), i);
    }
  }

  // ----- the final value

  function LastValue(h: seq<Action>): Option<real> {
    if h == [] then None
    else match h[|h|-1]
         case Called(v) => Some(v)
         case Released => LastValue(h[..|h|-1])
  }

  /** The additions that a step ends without telling their callback the final value: replaced under
      the same key, stopped by their own cancellable while the widget animates, or ended when the
      widget is gone. */
  function Excused(s: State, e: Event): set<nat> {
    match e
    case Add(a) =>
      if !s.alive then {|s.history|}
      else if a.animates then WithKey(s.live, a.key)
      else {}
    case Cancel(key) => if s.alive then {} else WithKey(s.live, Some(key))
    case CancelAll => if s.alive then {} else Named(s.live)
    case Tick(f) => set i | i in s.live && s.ticking && s.alive && !f.cancel && Stops(f, s.live[i])
    case WidgetDies => {}
  }

  function AllExcused(s: State, es: seq<Event>): set<nat>
    decreases es
  {
    if es == [] then {} else Excused(s, es[0]) + AllExcused(Step(s, es[0]), es[1..])
  }

  ghost predicate FinalValues(s: State, adds: seq<Addition>, excused: set<nat>) {
    && |s.history| == |adds|
    && forall i :: 0 <= i < |adds| && i !in s.live && i !in excused ==> LastValue(s.history[i]) == Some(adds[i].to)
  }

  lemma LastValueOf(h: seq<Action>, v: real, a: Addition)
    ensures LastValue(h + ([Called(v)] + Release(a))) == Some(v)
  {
  }

  lemma DroppedFinal(s: State, adds: seq<Addition>, excused: set<nat>, gone: set<nat>, call: bool)
    requires Ledger(s, adds) && FinalValues(s, adds, excused)
    ensures FinalValues(Dropped(s, gone, call), adds, excused + if call then {} else s.live.Keys * gone)
  {
    hide LastValue, Closed;
    var d := Dropped(s, gone, call);
    forall i | 0 <= i < |adds| && i !in d.live && i !in excused && (call || i !in s.live.Keys * gone)
      ensures LastValue(d.history[i]) == Some(adds[i].to)
    {
      assert EntryKept(s, adds, i);
      if i in s.live {
        LastValueOf(s.history[i], adds[i].to, adds[i]);
      }
    }
  }

  lemma TickedFinal(s: State, adds: seq<Addition>, excused: set<nat>, f: Frame)
    requires Ledger(s, adds) && FinalValues(s, adds, excused)
    ensures FinalValues(Ticked(s, f), adds, excused + Excused(s, Tick(f)))
  {
    hide LastValue, Closed;
    var d := Ticked(s, f);
    forall i | 0 <= i < |adds| && i !in d.live && i !in excused && i !in Excused(s, Tick(f))
      ensures LastValue(d.history[i]) == Some(adds[i].to)
    {
      assert EntryKept(s, adds, i);
      if i in s.live {
        LastValueOf(s.history[i], adds[i].to, adds[i]);
      }
    }
  }

  lemma AddedFinal(s: State, adds: seq<Addition>, excused: set<nat>, a: Addition)
    requires Ledger(s, adds) && FinalValues(s, adds, excused)
    ensures FinalValues(Added(s, a), adds + [a], excused + Excused(s, Add(a)))
  {
  }

  lemma StepFinal(s: State, adds: seq<Addition>, excused: set<nat>, e: Event)
    requires Ledger(s, adds) && FinalValues(s, adds, excused)
    ensures FinalValues(Step(s, e), adds + (if e.Add? then [e.a] else []), excused + Excused(s, e))
  {
    hide LastValue, EntryKept, Dropped, Added, Ticked;
    assert adds + [] == adds;
    match e
    case Add(a) => AddedFinal(s, adds, excused, a);
    case Cancel(key) => DroppedFinal(s, adds, excused, WithKey(s.live, Some(key)), s.alive);
    case CancelAll => DroppedFinal(s, adds, excused, Named(s.live), s.alive);
    case Tick(f) => TickedFinal(s, adds, excused, f);
    case WidgetDies =>
  }

  lemma {:induction false} RunFinal(s: State, adds: seq<Addition>, excused: set<nat>, es: seq<Event>)
    requires Ledger(s, adds) && FinalValues(s, adds, excused)
    ensures FinalValues(Run(s, es), adds + Additions(es), excused + AllExcused(s, es))
    decreases es
  {
    hide Ledger, FinalValues, Step, Excused;
    if es == [] {
      assert adds + Additions(es) == adds;
      assert excused + {} == excused;
    } else {
      var one := if es[0].Add? then [es[0].a] else [];
      StepLedger(s, adds, es[0]);
      StepFinal(s, adds, excused, es[0]);
      RunFinal(Step(s, es[0]), adds + one, excused + Excused(s, es[0]), es[1..]);
      assert (adds + one) + Additions(es[1..]) == adds + Additions(es);
      assert (excused + Excused(s, es[0])) + AllExcused(Step(s, es[0]), es[1..]) == excused + AllExcused(s, es);
    }
  }

  /** In every run, a spring that has ended has its end value as the last one delivered, unless a
      step excused it. */
  lemma EndedAtTheEnd(es: seq<Event>)
    ensures var s := Run(START, es);
            var adds := Additions(es);
            |s.history| == |adds|
            && forall i :: 0 <= i < |adds| && i !in s.live && i !in AllExcused(START, es) ==>
                LastValue(s.history[i]) == Some(adds[i].to)
  {
    hide Run, AllExcused, LastValue;
    StartLedger();
    RunFinal(START, [], {}, es);
    assert [] + Additions(es) == Additions(es);
    assert {} + AllExcused(START, es) == AllExcused(START, es);
  }

  // ----- where the documentation promises more

  /** "Cancel all animations": true exactly when no anonymous one is running. */
  lemma CancelAllCancelsNamed(s: State)
    ensures Step(s, CancelAll).live == map[] <==> forall i <- s.live :: s.live[i].a.key.Some?
    ensures forall i <- s.live :: i in Step(s, CancelAll).live <==> s.live[i].a.key.None?
  {
    hide Recorded;
    var d := Step(s, CancelAll);
    assert forall i <- s.live :: i in d.live <==> s.live[i].a.key.None?;
    if forall i <- s.live :: s.live[i].a.key.Some? {
      assert d.live.Keys == {};
    } else {
      var i :| i in s.live && s.live[i].a.key.None?;
      assert i in d.live;
    }
  }

  lemma AnonymousSurvives()
    ensures exists es: seq<Event> :: Step(Run(START, es), CancelAll).live != map[]
  {
    var a := Addition(None, 0.0, 1.0, 5.0, false, None, true);
    var es := [Add(a)];
    var s := Run(START, es);
    assert Run(Step(START, es[0]), es[1..]) == Step(START, es[0]);
    assert 0 in s.live && s.live[0].a == a;
    CancelAllCancelsNamed(s);
  }

  /** "If key is already running, then the old animation is replaced": true exactly when the widget
      animates or nothing runs under the key. */
  lemma ReplacedWhenAnimating(s: State, a: Addition)
    requires s.alive && a.key.Some?
    requires forall i <- s.live :: i < |s.history|
    ensures WithKey(s.live, a.key) * Step(s, Add(a)).live.Keys == {} <==> a.animates || WithKey(s.live, a.key) == {}
  {
  }

  /** A run in which it is not replaced: when animations are off at the next frame, the old target is
      delivered after the new one. */
  lemma OldTargetComesLast(f: Frame)
    requires f.cancel
    ensures var old_ := Addition(Some("k"), 0.0, 1.0, 5.0, false, None, true);
            var new_ := Addition(Some("k"), 1.0, 2.0, 5.0, false, None, false);
            var s := Run(START, [Add(old_), Add(new_)]);
            && s.history == [[Called(0.0)], [Called(2.0)]] && 0 in s.live && |Step(s, Tick(f)).history| == 2
            && Step(s, Tick(f)).history[0] == [Called(0.0), Called(1.0)] && Step(s, Tick(f)).history[1] == [Called(2.0)]
  {
    var old_ := Addition(Some("k"), 0.0, 1.0, 5.0, false, None, true);
    var new_ := Addition(Some("k"), 1.0, 2.0, 5.0, false, None, false);
    var es := [Add(old_), Add(new_)];
    var s1 := Step(START, es[0]);
    var s2 := Step(s1, es[1]);
    assert es[1..] == [Add(new_)] && es[1..][1..] == [];
    assert Run(s1, es[1..]) == s2;
    assert Run(START, es) == s2;
    assert s1.live == map[0 := Spring(0, old_, false)] && s1.history == [[Called(0.0)]];
    assert [Called(2.0)] + Release(new_) == [Called(2.0)];
    assert s2.history == [[Called(0.0)], [Called(2.0)]];
    var t := Step(s2, Tick(f));
    assert TickActions(f, s2.live[0]) == [Called(1.0)] + [];
    assert t.history[0] == [Called(0.0)] + [Called(1.0)] && t.history[1] == [Called(2.0)] && |t.history| == 2;
    assert [Called(0.0)] + [Called(1.0)] == [Called(0.0), Called(1.0)];
  }

  // ----- the object

  /** The two containers together hold the live springs, each once. */
  ghost predicate Holds(named: map<string, Spring>, anonymous: seq<Spring>, live: map<nat, Spring>) {
    && (forall i <- live :: live[i].id == i)
    && (forall k <- named :: named[k].a.key == Some(k) && named[k].id in live && live[named[k].id] == named[k])
    && (forall j :: 0 <= j < |anonymous| ==>
         anonymous[j].a.key.None? && anonymous[j].id in live && live[anonymous[j].id] == anonymous[j])
    && (forall i | i in live && live[i].a.key.Some? ::
         live[i].a.key.value in named && named[live[i].a.key.value] == live[i])
    && (forall i <- live :: live[i].a.key.None? ==> live[i] in anonymous)
    && (forall j, k :: 0 <= j < k < |anonymous| ==> anonymous[j].id != anonymous[k].id)
  }

  lemma HoldsWithoutNamed(named: map<string, Spring>, anonymous: seq<Spring>, live: map<nat, Spring>, k: string)
    requires Holds(named, anonymous, live) && k in named
    ensures Holds(named - {k}, anonymous, live - {named[k].id})
  {
  }

  lemma HoldsPutNamed(named: map<string, Spring>, anonymous: seq<Spring>, live: map<nat, Spring>, s: Spring)
    requires Holds(named, anonymous, live) && s.a.key.Some?
    requires if s.id in live then live[s.id].a.key == s.a.key else s.a.key.value !in named
    ensures Holds(named[s.a.key.value := s], anonymous, live[s.id := s])
  {
  }

  lemma HoldsWithoutAnonymous(named: map<string, Spring>, anonymous: seq<Spring>, live: map<nat, Spring>, j: nat)
    requires Holds(named, anonymous, live) && j < |anonymous|
    ensures Holds(named, anonymous[..j] + anonymous[j+1..], live - {anonymous[j].id})
  {
  }

  lemma HoldsPutAnonymous(named: map<string, Spring>, anonymous: seq<Spring>, live: map<nat, Spring>, j: nat, s: Spring)
    requires Holds(named, anonymous, live) && j < |anonymous| && s.id == anonymous[j].id && s.a.key.None?
    ensures Holds(named, anonymous[j := s], live[s.id := s])
  {
    var put := anonymous[j := s];
    var now := live[s.id := s];
    forall i | i in now && now[i].a.key.None?
      ensures now[i] in put
    {
      if i == s.id {
        assert put[j] == s;
      } else {
        var k :| 0 <= k < |anonymous| && anonymous[k] == live[i];
        assert put[k] == live[i];
      }
    }
  }

  lemma HoldsAddAnonymous(named: map<string, Spring>, anonymous: seq<Spring>, live: map<nat, Spring>, s: Spring)
    requires Holds(named, anonymous, live) && s.id !in live && s.a.key.None?
    ensures Holds(named, anonymous + [s], live[s.id := s])
  {
  }

  lemma NoneDropped(s: State, call: bool)
    ensures Dropped(s, {}, call) == s
  {
  }

  /** Destroying springs one at a time. */
  lemma DroppedMore(s: State, done: set<nat>, call: bool, i: nat)
    requires i in s.live && i !in done && i < |s.history|
    ensures var d := Dropped(s, done, call);
            && |d.history| == |s.history|
            && Dropped(s, done + {i}, call) ==
               d.(live := d.live - {i}, history := d.history[i := d.history[i] + DropActions(s.live[i], call)])
  {
    hide DropActions;
    var d, e := Dropped(s, done, call), Dropped(s, done + {i}, call);
    assert e.live == d.live - {i};
    assert |e.history| == |d.history|;
    assert e.history[i] == d.history[i] + DropActions(s.live[i], call);
    assert e.history == d.history[i := d.history[i] + DropActions(s.live[i], call)];
  }

  lemma DroppedLive(s: State, done: set<nat>, call: bool)
    ensures var d := Dropped(s, done, call);
            d.live == s.live - done && |d.history| == |s.history| && d.alive == s.alive && d.ticking == s.ticking
  {
    hide DropActions;
  }

  lemma OneDropped(s: State, i: nat, call: bool)
    requires i in s.live && i < |s.history|
    ensures Dropped(s, {i}, call) ==
            s.(live := s.live - {i}, history := s.history[i := s.history[i] + DropActions(s.live[i], call)])
  {
  }

  /** A frame in which only the springs in `done` were updated so far. */
  function TickedSome(s: State, f: Frame, done: set<nat>): State {
    s.(live := TickedLive(f, s.live, done),
       history := Recorded(s.history, TickActs(f, s.live, done)))
  }

  lemma NoneTicked(s: State, f: Frame)
    ensures TickedSome(s, f, {}) == s
  {
  }

  lemma AllTicked(s: State, f: Frame)
    requires s.ticking && s.alive
    ensures var t := TickedSome(s, f, s.live.Keys); Ticked(s, f) == t.(ticking := t.live != map[])
  {
    hide Recorded, TickActions, Finished;
  }

  /** Updating springs one at a time. */
  lemma TickedMore(s: State, f: Frame, done: set<nat>, i: nat)
    requires i in s.live && i !in done && i < |s.history|
    ensures var t := TickedSome(s, f, done);
            && |t.history| == |s.history|
            && TickedSome(s, f, done + {i}) ==
               t.(live := if Finished(f, s.live[i]) then t.live - {i} else t.live[i := s.live[i].(started := true)],
                  history := t.history[i := t.history[i] + TickActions(f, s.live[i])])
  {
  }

  lemma Untouched(s: State, f: Frame, done: set<nat>)
    ensures var t := TickedSome(s, f, done);
            && |t.history| == |s.history|
            && (forall i <- t.live ::
                 i in s.live && t.live[i].a == s.live[i].a && (i !in done ==> t.live[i] == s.live[i]))
            && (forall i <- s.live :: i !in done ==> i in t.live)
  {
    hide TickActions, Finished;
  }

  lemma NothingHeld(named: map<string, Spring>, anonymous: seq<Spring>, live: map<nat, Spring>)
    requires Holds(named, anonymous, live)
    ensures live == map[] <==> named == map[] && anonymous == []
  {
    if anonymous != [] {
      AnonymousHeld(named, anonymous, live, 0);
    } else if named != map[] {
      var k :| k in named;
      NamedHeld(named, anonymous, live, k);
    } else {
      assert live.Keys == {};
    }
  }

  lemma NamedHeld(named: map<string, Spring>, anonymous: seq<Spring>, live: map<nat, Spring>, k: string)
    requires Holds(named, anonymous, live) && k in named
    ensures var s := named[k]; s.id in live && live[s.id] == s && s.a.key == Some(k)
  {
  }

  lemma AnonymousHeld(named: map<string, Spring>, anonymous: seq<Spring>, live: map<nat, Spring>, j: nat)
    requires Holds(named, anonymous, live) && j < |anonymous|
    ensures var s := anonymous[j]; s.id in live && live[s.id] == s && s.a.key.None?
    ensures forall k :: 0 <= k < |anonymous| && k != j ==> anonymous[k].id != anonymous[j].id
  {
  }

  lemma NamedApart(named: map<string, Spring>, anonymous: seq<Spring>, live: map<nat, Spring>, k: string)
    requires Holds(named, anonymous, live) && k in named
    ensures forall l <- named :: l != k ==> named[l].id != named[k].id
  {
  }

  lemma AnonymousNotNamed(named: map<string, Spring>, anonymous: seq<Spring>, live: map<nat, Spring>)
    requires Holds(named, anonymous, live)
    ensures forall j :: 0 <= j < |anonymous| ==> anonymous[j].id in live && live[anonymous[j].id].a.key.None?
  {
  }

  lemma NamedGone(anonymous: seq<Spring>, live: map<nat, Spring>)
    requires Holds(map[], anonymous, live)
    ensures Named(live) == {}
  {
  }

  lemma AllNamedDone(named: map<string, Spring>, anonymous: seq<Spring>, live: map<nat, Spring>, done: set<nat>)
    requires Holds(named, anonymous, live) && forall k <- named :: named[k].id in done
    ensures Named(live) <= done
  {
  }

  lemma AllAnonymousDone(named: map<string, Spring>, anonymous: seq<Spring>, live: map<nat, Spring>, done: set<nat>)
    requires Holds(named, anonymous, live) && forall j :: 0 <= j < |anonymous| ==> anonymous[j].id in done
    ensures forall i <- live :: live[i].a.key.None? ==> i in done
  {
  }

  lemma DroppedTicking(s: State, gone: set<nat>)
    ensures Dropped(s.(ticking := s.ticking && !s.alive), gone, false)
         == Dropped(s, gone, false).(ticking := s.ticking && !s.alive)
  {
  }

  lemma TickedTicking(s: State, f: Frame, done: set<nat>)
    ensures TickedSome(s, f, done).alive == s.alive
  {
    hide TickActions;
  }

  class BgeAnimation {
    var named: map<string, Spring>
    var anonymous: seq<Spring>
    var tag: nat
    var widget: bool
    var history: seq<seq<Action>>
    ghost var live: map<nat, Spring>

    ghost predicate Valid()
      reads this
    {
      Holds(named, anonymous, live) && forall i <- live :: i < |history|
    }

    ghost function Abs(): State
      reads this
    {
      State(live, tag > 0, widget, history)
    }

    constructor ()
      ensures Valid() && Abs() == START
    {
      named, anonymous, tag, widget, history, live := map[], [], 0, true, [], map[];
    }

    method Log(id: nat, a: Action)
      requires id < |history|
      modifies this`history
      ensures history == old(history)[id := old(history)[id] + [a]]
    {
      history := history[id := history[id] + [a]];
    }

    /** What removing a SpringData from its container does to its user data. */
    method DestroySpringData(s: Spring)
      requires s.id < |history|
      modifies this`history
      ensures history == old(history)[s.id := old(history)[s.id] + Release(s.a)]
    {
      if s.a.owned {
        Log(s.id, Released);
      } else {
        assert history[s.id] + [] == history[s.id];
      }
    }

    /** The final value if `call`, then the destruction. */
    method End(s: Spring, call: bool)
      requires s.id < |history|
      modifies this`history
      ensures history == old(history)[s.id := old(history)[s.id] + DropActions(s, call)]
    {
      hide Release;
      ghost var h := history[s.id];
      if call {
        Log(s.id, Called(s.a.to));
        assert h + ([Called(s.a.to)] + Release(s.a)) == h + [Called(s.a.to)] + Release(s.a);
      } else {
        assert h + ([] + Release(s.a)) == h + Release(s.a);
      }
      DestroySpringData(s);
    }

    method AddSpring(a: Addition)
      requires Valid()
      modifies this
      ensures Valid() && Abs() == Step(old(Abs()), Add(a))
    {
      hide Holds, Dropped, WithKey;
      var id := |history|;
      DroppedLive(Abs(), WithKey(live, a.key), false);
      if !widget {
        history := history + [Release(a)];
      } else if !a.animates {
        history := history + [[Called(a.to)] + Release(a)];
      } else {
        var s := Spring(id, a, false);
        if a.key.Some? && a.key.value in named {
          Reuse(s);
        } else {
          AddNew(s);
        }
        history := history + [[Called(a.from)]];
        if tag == 0 {
          tag := 1;
        }
      }
    }

    /** The SpringData that runs under the key is given to the new addition. */
    method Reuse(s: Spring)
      requires Valid() && s.id == |history| && s.a.key.Some? && s.a.key.value in named
      modifies this`history, this`named, this`live
      ensures Holds(named, anonymous, live)
      ensures var d := Dropped(old(Abs()), WithKey(old(live), s.a.key), false);
              history == d.history && live == d.live[s.id := s]
    {
      hide Dropped, DropActions;
      var data := named[s.a.key.value];
      assert WithKey(live, s.a.key) == {data.id};
      OneDropped(Abs(), data.id, false);
      End(data, false);
      HoldsWithoutNamed(named, anonymous, live, s.a.key.value);
      HoldsPutNamed(named - {s.a.key.value}, anonymous, live - {data.id}, s);
      assert (named - {s.a.key.value})[s.a.key.value := s] == named[s.a.key.value := s];
      named := named[s.a.key.value := s];
      live := (live - {data.id})[s.id := s];
    }

    method AddNew(s: Spring)
      requires Valid() && s.id == |history| && (s.a.key.Some? ==> s.a.key.value !in named)
      modifies this`named, this`anonymous, this`live
      ensures Holds(named, anonymous, live)
      ensures var d := Dropped(old(Abs()), WithKey(old(live), s.a.key), false);
              history == d.history && live == d.live[s.id := s]
    {
      hide Dropped;
      assert WithKey(live, s.a.key) == {};
      NoneDropped(Abs(), false);
      if s.a.key.Some? {
        HoldsPutNamed(named, anonymous, live, s);
        named := named[s.a.key.value := s];
      } else {
        HoldsAddAnonymous(named, anonymous, live, s);
        anonymous := anonymous + [s];
      }
      live := live[s.id := s];
    }

    method CancelKey(key: string)
      requires Valid()
      modifies this
      ensures Valid() && Abs() == Step(old(Abs()), Cancel(key))
    {
      hide DropActions, Dropped;
      if key !in named {
        assert WithKey(live, Some(key)) == {};
        NoneDropped(Abs(), widget);
        return;
      }
      var s := named[key];
      assert WithKey(live, Some(key)) == {s.id};
      OneDropped(Abs(), s.id, widget);
      End(s, widget);
      HoldsWithoutNamed(named, anonymous, live, key);
      named := named - {key};
      live := live - {s.id};
    }

    /** Ending every named spring, in any order. */
    method EndNamed(call: bool)
      requires Valid()
      modifies this`history, this`named, this`live
      ensures Valid() && named == map[] && Abs() == Dropped(old(Abs()), Named(old(live)), call)
    {
      hide Holds, DropActions, Dropped;
      ghost var was := Abs();
      ghost var done: set<nat> := {};
      NoneDropped(was, call);
      while named != map[]
        invariant Holds(named, anonymous, live) && done <= Named(was.live)
        invariant Abs() == Dropped(was, done, call)
        decreases |named|
      {
        var k :| k in named;
        var s := named[k];
        NamedHeld(named, anonymous, live, k);
        DroppedLive(was, done, call);
        DroppedMore(was, done, call, s.id);
        End(s, call);
        HoldsWithoutNamed(named, anonymous, live, k);
        assert |named.Keys - {k}| < |named.Keys|;
        named := named - {k};
        live := live - {s.id};
        done := done + {s.id};
      }
      DroppedLive(was, done, call);
      NamedGone(anonymous, live);
      assert done == Named(was.live);
    }

    method CancelAllSprings()
      requires Valid()
      modifies this
      ensures Valid() && Abs() == Step(old(Abs()), CancelAll)
    {
      hide Dropped, Holds;
      EndNamed(widget);
    }

    method Dispose()
      requires Valid()
      modifies this
      ensures Valid() && named == map[] && anonymous == [] && Abs() == Disposed(old(Abs()))
    {
      hide Dropped, Holds, DropActions;
      DroppedTicking(Abs(), live.Keys);
      if widget {
        tag := 0;
      }
      ghost var was := Abs();
      EndNamed(false);
      ghost var done := Named(was.live);
      while anonymous != []
        invariant named == map[] && Holds(named, anonymous, live) && done <= was.live.Keys
        invariant Abs() == Dropped(was, done, false)
        decreases |anonymous|
      {
        var s := anonymous[0];
        AnonymousHeld(named, anonymous, live, 0);
        DroppedLive(was, done, false);
        DroppedMore(was, done, false, s.id);
        End(s, false);
        HoldsWithoutAnonymous(named, anonymous, live, 0);
        assert anonymous[..0] + anonymous[1..] == anonymous[1..];
        anonymous := anonymous[1..];
        live := live - {s.id};
        done := done + {s.id};
      }
      NothingHeld(named, anonymous, live);
      DroppedLive(was, done, false);
      assert live.Keys == was.live.Keys - done;
      assert live.Keys == {};
      assert forall i :: i in was.live.Keys && i !in done ==> i in was.live.Keys - done;
      assert done == was.live.Keys;
    }

    /** One spring in a frame: its callback, and its destruction when it has finished. */
    method UpdateSpring(f: Frame, s: Spring) returns (finished: bool)
      requires s.id < |history|
      modifies this`history
      ensures finished == Finished(f, s)
      ensures finished <==> f.cancel || (s.a.cancellable.Some? && s.a.cancellable.value in f.cancelled)
                            || (if s.started then f.elapsed(s.id) else 0.0) >= s.a.duration
      ensures history == old(history)[s.id := old(history)[s.id] + TickActions(f, s)]
    {
      hide Release;
      var cancelled := false;
      var value := 0.0;
      if f.cancel || (s.a.cancellable.Some? && s.a.cancellable.value in f.cancelled) {
        finished, cancelled := true, true;
      } else {
        var elapsed := 0.0;
        if !s.started {
          value := s.a.from;
        } else {
          elapsed := f.elapsed(s.id);
          value := f.value(s.id);
        }
        finished := elapsed >= s.a.duration;
      }
      if finished {
        value := s.a.to;
      }
      ghost var h := history[s.id];
      ghost var call: seq<Action> := if !cancelled || f.cancel then [Called(value)] else [];
      if !cancelled || f.cancel {
        Log(s.id, Called(value));
      }
      assert history[s.id] == h + call;
      if finished {
        DestroySpringData(s);
      }
      assert TickActions(f, s) == call + if finished then Release(s.a) else [];
      assert h + (call + if finished then Release(s.a) else []) == history[s.id];
    }

    method TickNamed(f: Frame)
      requires Valid()
      modifies this`history, this`named, this`live
      ensures Valid() && Abs() == TickedSome(old(Abs()), f, Named(old(live)))
    {
      hide Holds, TickActions, TickedSome, Finished;
      ghost var was := Abs();
      ghost var done: set<nat> := {};
      NoneTicked(was, f);
      var todo := named.Keys;
      while todo != {}
        invariant Holds(named, anonymous, live) && todo <= named.Keys && done <= Named(was.live)
        invariant Abs() == TickedSome(was, f, done)
        invariant forall k <- named :: k in todo <==> named[k].id !in done
        decreases |todo|
      {
        var k :| k in todo;
        var s := named[k];
        NamedHeld(named, anonymous, live, k);
        Untouched(was, f, done);
        TickedMore(was, f, done, s.id);
        NamedApart(named, anonymous, live, k);
        var finished := UpdateSpring(f, s);
        if finished {
          HoldsWithoutNamed(named, anonymous, live, k);
          named := named - {k};
          live := live - {s.id};
        } else {
          var next := s.(started := true);
          HoldsPutNamed(named, anonymous, live, next);
          named := named[k := next];
          live := live[s.id := next];
        }
        todo := todo - {k};
        done := done + {s.id};
      }
      Untouched(was, f, done);
      AllNamedDone(named, anonymous, live, done);
      assert done == Named(was.live);
    }

    /** One turn of the loop over the anonymous springs. */
    method TickOneAnonymous(f: Frame, i: nat) returns (finished: bool)
      requires Valid() && i < |anonymous|
      modifies this`history, this`anonymous, this`live
      ensures Holds(named, anonymous, live)
      ensures var s := old(anonymous)[i];
              && finished == Finished(f, s)
              && history == old(history)[s.id := old(history)[s.id] + TickActions(f, s)]
              && live == (if finished then old(live) - {s.id} else old(live)[s.id := s.(started := true)])
              && anonymous == (if finished then old(anonymous)[..i] + old(anonymous)[i+1..]
                               else old(anonymous)[i := s.(started := true)])
    {
      hide Holds, TickActions, Finished;
      var s := anonymous[i];
      AnonymousHeld(named, anonymous, live, i);
      finished := UpdateSpring(f, s);
      if finished {
        HoldsWithoutAnonymous(named, anonymous, live, i);
        anonymous := anonymous[..i] + anonymous[i+1..];
        live := live - {s.id};
      } else {
        var next := s.(started := true);
        HoldsPutAnonymous(named, anonymous, live, i, next);
        anonymous := anonymous[i := next];
        live := live[s.id := next];
      }
    }

    method TickAnonymous(f: Frame, ghost was: State)
      requires Valid() && Abs() == TickedSome(was, f, Named(was.live))
      requires forall i <- was.live :: i < |was.history|
      modifies this`history, this`anonymous, this`live
      ensures Valid() && Abs() == TickedSome(was, f, was.live.Keys)
    {
      hide Holds, TickActions, TickedSome, Finished;
      ghost var done := Named(was.live);
      Untouched(was, f, done);
      AnonymousNotNamed(named, anonymous, live);
      var i := 0;
      while i < |anonymous|
        invariant 0 <= i <= |anonymous| && Holds(named, anonymous, live)
        invariant Named(was.live) <= done <= was.live.Keys
        invariant Abs() == TickedSome(was, f, done)
        invariant forall j :: 0 <= j < |anonymous| ==> (anonymous[j].id in done <==> j < i)
        decreases |anonymous| - i
      {
        ghost var id := anonymous[i].id;
        AnonymousHeld(named, anonymous, live, i);
        Untouched(was, f, done);
        TickedMore(was, f, done, id);
        var finished := TickOneAnonymous(f, i);
        if !finished {
          i := i + 1;
        }
        done := done + {id};
      }
      Untouched(was, f, done);
      AllAnonymousDone(named, anonymous, live, done);
      assert done == was.live.Keys;
    }

    /** tick_cb. It is only called while a tick is registered on a living widget. */
    method TickCallback(f: Frame)
      requires Valid()
      modifies this
      ensures Valid() && Abs() == Step(old(Abs()), Tick(f))
    {
      hide Holds, TickedSome, TickActions, Finished, TickedLive;
      if tag == 0 || !widget {
        return;
      }
      AllTicked(Abs(), f);
      TickNamed(f);
      TickAnonymous(f, old(Abs()));
      NothingHeld(named, anonymous, live);
      TickedTicking(old(Abs()), f, old(live).Keys);
      if named == map[] && anonymous == [] {
        tag := 0;
      }
    }
  }
}
