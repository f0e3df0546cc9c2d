/** The chain of fibers that empties the backend's notification channel: each run handles what it
    can within a batch timer and hands its unfinished read to the next run. */
module NotificationLoop {

  /** The one outstanding receive of the channel. */
  datatype Read<T> = Pending | Ready(notif: T)

  datatype Timer = Counting | Expired

  /** Where the chain is: waiting for the read that starts the next fiber, or at a point of the
      fiber's loop. */
  datatype Phase = Watching | AtTop | Racing | Processing | Checking

  /** `taken` is how many sent notifications a receive has taken off the channel. */
  datatype State<T> = State(sent: seq<T>, taken: nat, read: Read<T>, timer: Timer, phase: Phase, processed: seq<T>)

  /** What can happen next, anywhere in the system. */
  datatype Action<T> =
    | Send(n: T)   // the backend puts a notification on the channel
    | Deliver      // the outstanding receive takes the next one
    | Expire       // 100 ms have passed since the fiber started
    | StartFiber   // the loop callback spawns a fiber for the notification that was read
    | LookAtRead   // top of the fiber's loop
    | WakeUp       // the race between timer and read is over
    | Handle       // the switch over the notification's kind, then the next receive
    | LookAtTimer  // end of the loop body

  predicate Enabled<T>(s: State<T>, a: Action<T>) {
    match a
    case Send(_) => true
    case Deliver => s.read.Pending? && s.taken < |s.sent|
    case Expire => s.timer.Counting? && !s.phase.Watching?
    case StartFiber => s.phase.Watching? && s.read.Ready?
    case LookAtRead => s.phase.AtTop?
    case WakeUp => s.phase.Racing? && (s.read.Ready? || s.timer.Expired?)
    case Handle => s.phase.Processing? && s.read.Ready?
    case LookAtTimer => s.phase.Checking?
  }

  function Next<T>(s: State<T>, a: Action<T>): State<T>
    requires Enabled(s, a)
    requires a.Deliver? ==> s.taken < |s.sent|
  {
    match a
    case Send(n) => s.(sent := s.sent + [n])
    case Deliver => s.(read := Ready(s.sent[s.taken]), taken := s.taken + 1)
    case Expire => s.(timer := Expired)
    case StartFiber => s.(timer := Counting, phase := AtTop)
    case LookAtRead => s.(phase := if s.read.Ready? then Processing else Racing)
    case WakeUp => s.(phase := if s.timer.Expired? then Watching else Processing)
    case Handle => s.(processed := s.processed + [s.read.notif], read := Pending, phase := Checking)
    case LookAtTimer => s.(phase := if s.timer.Expired? then Watching else AtTop)
  }

  const ARBITRARY_TIMER := Counting

  function Start<T>(): State<T> {
    State([], 0, Pending, ARBITRARY_TIMER, Watching, [])
  }

  /** The states a schedule can reach. */
  ghost predicate Schedule<T>(s: State<T>, actions: seq<Action<T>>, t: State<T>)
    decreases |actions|
  {
    if actions == [] then s == t
    else Enabled(s, actions[0]) && Schedule(Next(s, actions[0]), actions[1..], t)
  }

  /** What has been handled, followed by what has been read and not handled, is exactly what has
      been taken off the channel, in channel order. */
  ghost predicate InOrder<T>(s: State<T>) {
    && s.taken <= |s.sent|
    && s.processed + (if s.read.Ready? then [s.read.notif] else []) == s.sent[..s.taken]
    && (s.phase.Processing? ==> s.read.Ready?)
  }

  lemma StepInOrder<T>(s: State<T>, a: Action<T>)
    requires InOrder(s) && Enabled(s, a)
    ensures InOrder(Next(s, a)) && s.processed <= Next(s, a).processed && s.sent <= Next(s, a).sent
  {
  }

  /** In every schedule of sends, timer expiries and fiber steps the chain has handled a prefix of
      what was sent: each notification at most once, in order. */
  lemma {:induction false} EveryScheduleInOrder<T>(s: State<T>, actions: seq<Action<T>>, t: State<T>)
    requires InOrder(s) && Schedule(s, actions, t)
    ensures InOrder(t) && t.processed <= t.sent && s.processed <= t.processed
    decreases |actions|
  {
    if actions != [] {
      StepInOrder(s, actions[0]);
      EveryScheduleInOrder(Next(s, actions[0]), actions[1..], t);
    } else {
      assert t.processed <= t.sent[..t.taken];
    }
  }

  lemma StartsInOrder<T>()
    ensures InOrder(Start<T>())
  {
  }

  /** From the start of the program on: whatever the schedule, what was handled is a prefix of what
      was sent, and when nothing but the backend and the clock can move, it is all of it. */
  lemma FromTheStart<T(!new)>(actions: seq<Action<T>>, t: State<T>)
    requires Schedule(Start<T>(), actions, t)
    ensures t.processed <= t.sent
    ensures Quiet(t) ==> t.processed == t.sent
  {
    StartsInOrder<T>();
    EveryScheduleInOrder(Start<T>(), actions, t);
    if Quiet(t) {
      RestMeansDone(t);
    }
  }

  /** Nothing but the backend and the clock can move any more. */
  ghost predicate Quiet<T(!new)>(s: State<T>) {
    forall a :: Enabled(s, a) ==> a.Send? || a.Expire?
  }

  /** When the chain comes to rest, everything that was sent has been handled: no read is ever
      abandoned, whether the timer or the channel won the race. */
  lemma RestMeansDone<T(!new)>(s: State<T>)
    requires InOrder(s) && Quiet(s)
    ensures s.processed == s.sent
    ensures s.phase.Watching? || (s.phase.Racing? && s.timer.Counting?)
  {
    assert !Enabled(s, Deliver) && !Enabled(s, StartFiber) && !Enabled(s, LookAtRead);
    assert !Enabled(s, WakeUp) && !Enabled(s, Handle) && !Enabled(s, LookAtTimer);
    assert s.sent[..|s.sent|] == s.sent;
  }

  function PhaseWork(p: Phase): nat {
    match p
    case Watching => 5
    case Checking => 4
    case AtTop => 3
    case Racing => 2
    case Processing => 1
  }

  /** How much is left to do for what is on the channel. */
  function Work<T>(s: State<T>): (nat, nat)
    requires s.taken <= |s.sent|
  {
    (2 * (|s.sent| - s.taken) + (if s.read.Ready? then 1 else 0),
     if s.phase.Watching? && s.read.Pending? then 0
     else PhaseWork(s.phase) + if s.timer.Expired? && !s.phase.Watching? then 5 else 0)
  }

  /** And it does come to rest: between two events of the backend or the clock every step leaves
      strictly less to do. */
  lemma StepsRunOut<T>(s: State<T>, a: Action<T>)
    requires InOrder(s) && Enabled(s, a) && !a.Send? && !a.Expire?
    ensures InOrder(Next(s, a))
    ensures var (m, n) := Work(s); var (m', n') := Work(Next(s, a)); m' < m || (m' == m && n' < n)
  {
  }
}
