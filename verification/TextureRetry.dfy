/** When a texture is loaded, and loaded again after a failure. */
module TextureRetry {
  import opened Order

  const MAX_LOAD_RETRIES := 3

  /** `loading`: a task is pending; `armed`: the timer of a retry runs; `attempts` counts the loads
      that were started. */
  datatype State = State(retries: nat, loading: bool, armed: bool, loaded: bool, attempts: nat)

  const START := State(0, false, false, false, 0)

  /** `cached` is whether the texture cache has the texture at that moment. */
  datatype Event =
    | Ensure(cached: bool)
    | LoadEnds(ok: bool)
    | TimerEnds(cached: bool)
    | Cancel

  function MaybeLoad(s: State, cached: bool): State {
    if s.loaded || s.loading || s.retries >= MAX_LOAD_RETRIES then s
    else if cached then s.(loaded := true)
    else s.(loading := true, attempts := s.attempts + 1)
  }

  function Finally(s: State, ok: bool): State {
    var t := s.(loading := false);
    if ok then t.(loaded := true)
    else if s.retries < MAX_LOAD_RETRIES then t.(retries := s.retries + 1, armed := true)
    else t
  }

  /** A load that was cancelled may still end; another one cannot. */
  function Step(s: State, e: Event): State {
    match e
    case Ensure(cached) => MaybeLoad(s, cached)
    case LoadEnds(ok) => if s.loading || s.retries == G_MAXINT then Finally(s, ok) else s
    case TimerEnds(cached) => if s.armed then MaybeLoad(s.(armed := false), cached) else s
    case Cancel => s.(loading := false, retries := G_MAXINT)
  }

  function Run(s: State, es: seq<Event>): State
    decreases es
  {
    if es == [] then s else Run(Step(s, es[0]), es[1..])
  }

  /** Until it is cancelled, every failed load is counted. */
  ghost predicate Counted(s: State) {
    && s.attempts <= MAX_LOAD_RETRIES
    && (s.retries <= MAX_LOAD_RETRIES || (s.retries == G_MAXINT && !s.loading))
    && (s.loading ==> s.retries < MAX_LOAD_RETRIES && s.attempts == s.retries + 1)
    && (!s.loading && !s.loaded && s.retries <= MAX_LOAD_RETRIES ==> s.attempts == s.retries)
  }

  lemma {:induction false} RunCounted(s: State, es: seq<Event>)
    requires Counted(s)
    ensures Counted(Run(s, es))
    decreases es
  {
    if es != [] {
      RunCounted(Step(s, es[0]), es[1..]);
    }
  }

  /** However often and by whomever a texture is asked for, it is loaded at most three times. */
  lemma AtMostThreeLoads(es: seq<Event>)
    ensures Run(START, es).attempts <= MAX_LOAD_RETRIES
  {
    RunCounted(START, es);
  }

  lemma {:induction false} CancelledForGood(s: State, es: seq<Event>)
    requires s.retries == G_MAXINT && !s.loading
    ensures Run(s, es).attempts == s.attempts && !Run(s, es).loading
    decreases es
  {
    if es != [] {
      CancelledForGood(Step(s, es[0]), es[1..]);
    }
  }

  /** Every failure announces another attempt, and arms its timer; the attempt is made exactly when
      this was not the failure whose announcement calls it the last retry. */
  lemma AnnouncedRetryIsMade(s: State)
    requires Counted(s) && s.loading && !s.loaded
    ensures var failed := Step(s, LoadEnds(false));
            && failed.armed
            && (Step(failed, TimerEnds(false)).attempts == s.attempts + 1 <==> s.retries != MAX_LOAD_RETRIES - 1)
  {
  }

  /** A load may start: the texture is not there, no load is pending, and retries are left. */
  predicate MayLoad(s: State) {
    !s.loaded && !s.loading && s.retries < 3
  }

  /** Asking for the texture, by hand or by the timer: from the cache it is there at once, otherwise a
      load starts; when no load may start nothing happens. */
  lemma AskingMeans(s: State, e: Event)
    requires e.Ensure? || (e.TimerEnds? && s.armed)
    ensures var t := Step(s, e);
      && t.retries == s.retries && t.armed == (s.armed && e.Ensure?)
      && t.loaded == (s.loaded || (MayLoad(s) && e.cached))
      && t.loading == (s.loading || (MayLoad(s) && !e.cached))
      && t.attempts == s.attempts + if MayLoad(s) && !e.cached then 1 else 0
  {
  }

  /** The end of a pending load: with a texture it is there; without one the failure is counted and
      the timer of a retry armed, while retries are left. */
  lemma EndMeans(s: State, ok: bool)
    requires s.loading
    ensures var t := Step(s, LoadEnds(ok));
            var counted := !ok && s.retries < 3;
      && !t.loading && t.attempts == s.attempts && t.loaded == (s.loaded || ok)
      && t.retries == s.retries + (if counted then 1 else 0) && t.armed == (s.armed || counted)
  {
  }

  /** This event makes the texture available. */
  ghost predicate Delivers(s: State, e: Event) {
    || (e == LoadEnds(true) && (s.loading || s.retries == G_MAXINT))
    || ((e == Ensure(true) || (e == TimerEnds(true) && s.armed)) && MayLoad(s))
  }

  /** In every run the texture is there in the end exactly when it was at the start or some event
      delivered it. */
  lemma {:induction false} ThereExactly(s: State, es: seq<Event>)
    ensures Run(s, es).loaded <==> s.loaded || exists i :: 0 <= i < |es| && Delivers(Run(s, es[..i]), es[i])
    decreases es
  {
    if es != [] {
      var t := Step(s, es[0]);
      ThereExactly(t, es[1..]);
      assert t.loaded <==> s.loaded || Delivers(s, es[0]);
      assert Run(s, es[..0]) == s;
      hide Step, Delivers;
      forall i | 0 <= i < |es[1..]|
        ensures Run(s, es[..i + 1]) == Run(t, es[1..][..i]) && es[i + 1] == es[1..][i]
      {
        assert es[..i + 1][1..] == es[1..][..i] && es[..i + 1][0] == es[0];
      }
      if i :| 0 <= i < |es| && Delivers(Run(s, es[..i]), es[i]) && i > 0 {
        assert es[1..][i - 1] == es[i];
        assert Delivers(Run(t, es[1..][..i - 1]), es[1..][i - 1]);
      }
    }
  }

  /** The last announced retry is never made: three failures, then the timer ends. */
  lemma LastRetryIsNeverMade()
    ensures var fail := [TimerEnds(false), LoadEnds(false)];
            var s := Run(START, [Ensure(false), LoadEnds(false)] + fail + fail);
            s.armed && s.retries == MAX_LOAD_RETRIES && Step(s, TimerEnds(false)) == s.(armed := false)
  {
    var fail := [TimerEnds(false), LoadEnds(false)];
    var es := [Ensure(false), LoadEnds(false)] + fail + fail;
    assert es == [Ensure(false), LoadEnds(false), TimerEnds(false), LoadEnds(false), TimerEnds(false), LoadEnds(false)];
    assert es[1..][1..] == es[2..] && es[2..][1..] == es[3..] && es[3..][1..] == es[4..] && es[4..][1..] == es[5..];
    assert es[5..][1..] == [];
    var s1 := Step(START, es[0]);
    var s2 := Step(s1, es[1]);
    var s3 := Step(s2, es[2]);
    var s4 := Step(s3, es[3]);
    var s5 := Step(s4, es[4]);
    assert Run(s5, es[5..]) == Step(s5, es[5]);
    assert Run(s4, es[4..]) == Run(s5, es[5..]);
    assert Run(s3, es[3..]) == Run(s4, es[4..]);
    assert Run(s2, es[2..]) == Run(s3, es[3..]);
    assert Run(s1, es[1..]) == Run(s2, es[2..]);
    assert Run(START, es) == Run(s1, es[1..]);
  }

  class BzAsyncTexture {
    var retries: nat
    var loading: bool
    var armed: bool
    var loaded: bool
    ghost var attempts: nat

    ghost function Abs(): State
      reads this
    {
      State(retries, loading, armed, loaded, attempts)
    }

    constructor ()
      ensures Abs() == START
    {
      retries, loading, armed, loaded, attempts := 0, false, false, false, 0;
    }

    method Load(cached: bool)
      modifies this
      ensures Abs() == MaybeLoad(old(Abs()), cached)
    {
      if loaded || loading || retries >= MAX_LOAD_RETRIES {
        return;
      }
      if cached {
        loaded := true;
        return;
      }
      loading := true;
      attempts := attempts + 1;
    }

    method LoadFinally(ok: bool)
      modifies this
      ensures Abs() == Finally(old(Abs()), ok)
    {
      loading := false;
      if ok {
        loaded := true;
      } else if retries < MAX_LOAD_RETRIES {
        retries := retries + 1;
        armed := true;
      }
    }

    method RetryCallback(cached: bool)
      requires armed
      modifies this
      ensures Abs() == Step(old(Abs()), TimerEnds(cached))
    {
      armed := false;
      Load(cached);
    }

    method CancelLoad()
      modifies this
      ensures Abs() == Step(old(Abs()), Cancel)
    {
      loading := false;
      retries := G_MAXINT;
    }
  }
}
