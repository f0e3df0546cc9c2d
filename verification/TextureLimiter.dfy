/** The rate limiter of the texture loader: fibers that queue for slots, in every interleaving. */
module TextureLimiter {
  import opened Order

  const MAX_CONCURRENT_IO := 8
  const MAX_CONCURRENT_GLYCIN := 32
  datatype Kind = Io | Glycin

  /** RATE_LIMIT_BEGIN and RATE_LIMIT_END. */
  datatype Op = Begin(kind: Kind) | End

  function ConcurrentGlycin(processors: nat): (n: nat)
    ensures 1 <= n <= MAX_CONCURRENT_GLYCIN
  {
    var half := if processors / 2 > 1 then processors / 2 else 1;
    if half < MAX_CONCURRENT_GLYCIN then half else MAX_CONCURRENT_GLYCIN
  }

  /** The number of decoding slots is the largest of 1 to 32 that is at most half the processors,
      and 1 where none is. */
  lemma GlycinIsHalf(processors: nat)
    ensures var n := ConcurrentGlycin(processors);
      && 1 <= n <= 32 && (n == 1 || 2 * n <= processors)
      && forall m: nat :: m <= 32 && 2 * m <= processors ==> m <= n
  {
  }

  // ----- what one load does

  /** The answers that decide the path of load_fiber_work. */
  datatype Answers = Answers(
    cacheInto: bool,
    http: bool,
    cached: bool,
    dated: bool,
    recent: bool,
    revived: bool,
    directoryFails: bool,
    temporaryFails: bool,
    downloadFails: bool,
    copyFails: bool,
    decodeFails: bool)

  /** The limiter operations of a load, in order; returning early while a slot is held ends it. */
  function LoadOps(a: Answers): seq<Op> {
    var revives := a.cacheInto && a.cached && a.dated && a.recent;
    (if a.cacheInto then [Begin(Io)] + (if revives then [End, Begin(Glycin), End, Begin(Io)] else []) + [End] else [])
    + if revives && a.revived then [] else FetchOps(a)
  }

  function FetchOps(a: Answers): seq<Op> {
    if a.cacheInto then
      [Begin(Io), End] +
      if a.directoryFails then []
      else if a.http then if a.downloadFails then [] else DecodeOps(a)
      else [Begin(Io), End] + if a.copyFails then [] else DecodeOps(a)
    else if a.http then
      [Begin(Io), End] + if a.temporaryFails || a.downloadFails then [] else DecodeOps(a)
    else DecodeOps(a)
  }

  function DecodeOps(a: Answers): seq<Op> {
    [Begin(Glycin), End] + if a.cacheInto && !a.decodeFails then [Begin(Io), End] else []
  }

  /** The load has a cached copy that is worth trying, and the copy can be shown. */
  predicate TriesCache(a: Answers) {
    a.cacheInto && a.cached && a.dated && a.recent
  }

  /** Nothing on the way to the file to decode fails: the directory of the cache, and the download or
      the copy; a download without a cache needs a temporary file. */
  predicate HasFile(a: Answers) {
    && (a.cacheInto ==> !a.directoryFails)
    && (a.http ==> !a.downloadFails && (!a.cacheInto ==> !a.temporaryFails))
    && (!a.http && a.cacheInto ==> !a.copyFails)
  }

  /** So many decoding slots and so many io slots, each given back. */
  ghost predicate AsksFor(ops: seq<Op>, glycin: nat, io: nat) {
    && multiset(ops)[Begin(Glycin)] == glycin && multiset(ops)[Begin(Io)] == io
    && multiset(ops)[End] == glycin + io
  }

  function One(condition: bool): nat {
    if condition then 1 else 0
  }

  /** Which slots a load asks for, counted: a decoding slot to try a cached copy, and one to decode
      what it fetched when the copy did not do; an io slot to look at the cache, once more after
      trying the copy, for the directory, for a temporary file, for a copy, and to date what was
      decoded. */
  lemma LoadSections(a: Answers)
    ensures var fetches := !(TriesCache(a) && a.revived);
            var decodes := fetches && HasFile(a);
            AsksFor(LoadOps(a), One(TriesCache(a)) + One(decodes),
                    One(a.cacheInto) + One(TriesCache(a)) + One(fetches && a.cacheInto)
                    + One(fetches && a.http && !a.cacheInto)
                    + One(fetches && !a.http && a.cacheInto && !a.directoryFails)
                    + One(decodes && a.cacheInto && !a.decodeFails))
  {
    hide *;
    FetchSections(a);
    LookSections(a);
    LoadParts(a);
    OneMeans();
    CacheFirst(a);
    NoSections();
    var tries := One(TriesCache(a));
    if TriesCache(a) && a.revived {
      Sections(Looks(a), tries, One(a.cacheInto) + tries, [], 0, 0);
    } else {
      Sections(Looks(a), tries, One(a.cacheInto) + tries, FetchOps(a), One(HasFile(a)),
               One(a.cacheInto) + One(a.http && !a.cacheInto) + One(!a.http && a.cacheInto && !a.directoryFails)
               + One(HasFile(a) && a.cacheInto && !a.decodeFails));
    }
  }

  lemma OneMeans()
    ensures One(true) == 1 && One(false) == 0
  {
  }

  lemma CacheFirst(a: Answers)
    ensures TriesCache(a) ==> a.cacheInto
  {
  }

  lemma Sections(a: seq<Op>, glycin: nat, io: nat, b: seq<Op>, glycin': nat, io': nat)
    requires AsksFor(a, glycin, io) && AsksFor(b, glycin', io')
    ensures AsksFor(a + b, glycin + glycin', io + io')
  {
    assert multiset(a + b) == multiset(a) + multiset(b);
  }

  lemma NoSections()
    ensures AsksFor([], 0, 0)
  {
  }

  lemma LoadParts(a: Answers)
    ensures LoadOps(a) == Looks(a) + if TriesCache(a) && a.revived then [] else FetchOps(a)
  {
    hide FetchOps;
    assert [Begin(Io)] + [End, Begin(Glycin), End, Begin(Io)] + [End]
        == [Begin(Io), End, Begin(Glycin), End, Begin(Io), End];
    assert [Begin(Io)] + [] + [End] == [Begin(Io), End];
  }

  /** What the look at the cache asks for. */
  function Looks(a: Answers): seq<Op> {
    if !a.cacheInto then []
    else if TriesCache(a) then [Begin(Io), End, Begin(Glycin), End, Begin(Io), End]
    else [Begin(Io), End]
  }

  lemma LookSections(a: Answers)
    ensures AsksFor(Looks(a), One(TriesCache(a)), One(a.cacheInto) + One(TriesCache(a)))
  {
  }

  lemma DecodeSections(a: Answers)
    ensures AsksFor(DecodeOps(a), 1, One(a.cacheInto && !a.decodeFails))
  {
  }

  lemma FetchSections(a: Answers)
    ensures AsksFor(FetchOps(a), One(HasFile(a)),
                    One(a.cacheInto) + One(a.http && !a.cacheInto) + One(!a.http && a.cacheInto && !a.directoryFails)
                    + One(HasFile(a) && a.cacheInto && !a.decodeFails))
  {
    hide *;
    OneMeans();
    FetchParts(a);
    FileSections(a);
    var io := One(a.cacheInto) + One(a.http && !a.cacheInto) + One(!a.http && a.cacheInto && !a.directoryFails);
    if HasFile(a) {
      DecodeSections(a);
      Sections(Files(a), 0, io, DecodeOps(a), 1, One(a.cacheInto && !a.decodeFails));
    } else {
      NoSections();
      Sections(Files(a), 0, io, [], 0, 0);
    }
  }

  /** What getting at the file to decode asks for. */
  function Files(a: Answers): seq<Op> {
    if a.cacheInto && !a.http && !a.directoryFails then [Begin(Io), End, Begin(Io), End]
    else if a.cacheInto || a.http then [Begin(Io), End]
    else []
  }

  lemma FileSections(a: Answers)
    ensures AsksFor(Files(a), 0,
                    One(a.cacheInto) + One(a.http && !a.cacheInto) + One(!a.http && a.cacheInto && !a.directoryFails))
  {
  }

  lemma FetchParts(a: Answers)
    ensures FetchOps(a) == Files(a) + if HasFile(a) then DecodeOps(a) else []
  {
    hide DecodeOps;
    var rest := if HasFile(a) then DecodeOps(a) else [];
    assert [Begin(Io), End] + ([Begin(Io), End] + rest) == [Begin(Io), End, Begin(Io), End] + rest;
    assert [Begin(Io), End] + [] == [Begin(Io), End];
  }

  /** Every slot is given back before the next one is asked for, and before the end. */
  predicate Alternates(ops: seq<Op>) {
    ops == [] || (|ops| >= 2 && ops[0].Begin? && ops[1].End? && Alternates(ops[2..]))
  }

  lemma {:induction false} AlternatesConcat(a: seq<Op>, b: seq<Op>)
    requires Alternates(a) && Alternates(b)
    ensures Alternates(a + b)
    decreases a
  {
    if a == [] {
      assert a + b == b;
    } else {
      AlternatesConcat(a[2..], b);
      assert (a + b)[2..] == a[2..] + b;
    }
  }

  lemma OnePair(k: Kind)
    ensures Alternates([Begin(k), End])
  {
  }

  lemma DecodeAlternates(a: Answers)
    ensures Alternates(DecodeOps(a))
  {
  }

  lemma FetchAlternates(a: Answers)
    ensures Alternates(FetchOps(a))
  {
    hide DecodeOps;
    DecodeAlternates(a);
    OnePair(Io);
    var one := [Begin(Io), End];
    AlternatesConcat(one, []);
    AlternatesConcat(one, DecodeOps(a));
    AlternatesConcat(one, one);
    AlternatesConcat(one, one + DecodeOps(a));
    assert one + one == one + (one + []);
  }

  /** On every path a load holds at most one slot at a time and gives all of them back. */
  lemma LoadAlternates(a: Answers)
    ensures Alternates(LoadOps(a))
  {
    hide FetchOps;
    FetchAlternates(a);
    OnePair(Io);
    OnePair(Glycin);
    var io := [Begin(Io), End];
    var three := io + ([Begin(Glycin), End] + io);
    AlternatesConcat([Begin(Glycin), End], io);
    AlternatesConcat(io, [Begin(Glycin), End] + io);
    assert [Begin(Io)] + [End, Begin(Glycin), End, Begin(Io)] + [End] == three;
    assert [Begin(Io)] + [] + [End] == io;
    var first: seq<Op> := if !a.cacheInto then [] else if a.cached && a.dated && a.recent then three else io;
    AlternatesConcat(first, []);
    AlternatesConcat(first, FetchOps(a));
  }

  // ----- choosing a slot

  /** The loop of FIND_LOCK from slot i on: a slot with fewer queued than seen so far is taken. */
  function Scan(queued: seq<nat>, i: nat, slot: nat, fewest: nat): (nat, nat)
    requires i <= |queued|
    decreases |queued| - i
  {
    if i == |queued| then (slot, fewest)
    else if queued[i] < fewest then Scan(queued, i + 1, i, queued[i])
    else Scan(queued, i + 1, slot, fewest)
  }

  function Pick(queued: seq<nat>, slotQueued: nat): (nat, nat) {
    Scan(queued, 0, 0, slotQueued)
  }

  ghost predicate LeastLoaded(queued: seq<nat>, slot: nat) {
    slot < |queued| && forall i :: 0 <= i < |queued| ==> queued[slot] <= queued[i]
  }

  lemma {:induction false} ScanMeaning(queued: seq<nat>, i: nat, slot: nat, fewest: nat)
    requires i <= |queued|
    ensures var (s, f) := Scan(queued, i, slot, fewest);
            && f <= fewest
            && (forall j :: i <= j < |queued| ==> f <= queued[j])
            && (if f < fewest then i <= s < |queued| && queued[s] == f else s == slot)
    decreases |queued| - i
  {
    if i < |queued| {
      if queued[i] < fewest {
        ScanMeaning(queued, i + 1, i, queued[i]);
      } else {
        ScanMeaning(queued, i + 1, slot, fewest);
      }
    }
  }

  lemma PickInRange(queued: seq<nat>, slotQueued: nat)
    requires queued != []
    ensures Pick(queued, slotQueued).0 < |queued| && Pick(queued, slotQueued).1 <= slotQueued
  {
    hide Scan;
    ScanMeaning(queued, 0, 0, slotQueued);
  }

  /** The slot that is chosen has the fewest queued exactly when some slot has fewer than the fiber
      saw when it last chose, or slot 0 happens to have the fewest. */
  lemma PickIsLeastLoaded(queued: seq<nat>, slotQueued: nat)
    requires queued != []
    ensures LeastLoaded(queued, Pick(queued, slotQueued).0) <==>
            (exists i :: 0 <= i < |queued| && queued[i] < slotQueued) || LeastLoaded(queued, 0)
  {
    hide Scan;
    ScanMeaning(queued, 0, 0, slotQueued);
  }

  /** The first choice of a fiber is a least loaded slot. */
  lemma FirstPickIsLeastLoaded(queued: seq<nat>)
    requires queued != [] && queued[0] < G_MAXUINT
    ensures LeastLoaded(queued, Pick(queued, G_MAXUINT).0)
  {
    hide Scan, LeastLoaded;
    PickIsLeastLoaded(queued, G_MAXUINT);
  }

  /** The count is kept between choices: once a fiber has seen an empty slot it asks for slot 0 ever
      after, however many queue there. */
  lemma AfterAnEmptySlotAlwaysZero(queued: seq<nat>)
    requires queued != []
    ensures Pick(queued, 0) == (0, 0)
  {
    hide Scan;
    ScanMeaning(queued, 0, 0, 0);
  }

  // ----- fibers and the shared slots

  /** Where a fiber is: between operations; counted in a queue; its guard in the gate and waiting
      for the guard that was there; past the wait but still counted; holding the slot. */
  datatype Phase =
    | Idle
    | Found(kind: Kind, slot: nat)
    | Waiting(kind: Kind, slot: nat, guard: nat, on: Option<nat>)
    | Woken(kind: Kind, slot: nat, guard: nat)
    | Holding(kind: Kind, slot: nat, guard: nat)

  datatype Fiber = Fiber(todo: seq<Op>, slotQueued: nat, phase: Phase)

  datatype Pool = Pool(queued: seq<nat>, gates: seq<Option<nat>>)

  /** Guards are promises, numbered as they are made; `resolved` has those that were cleared. */
  datatype State = State(io: Pool, glycin: Pool, fibers: seq<Fiber>, nextGuard: nat, resolved: set<nat>)

  function PoolOf(s: State, k: Kind): Pool {
    if k.Io? then s.io else s.glycin
  }

  function WithPool(s: State, k: Kind, p: Pool): State {
    if k.Io? then s.(io := p) else s.(glycin := p)
  }

  /** guint arithmetic of the counters. */
  function Increment(n: nat): nat {
    if n == G_MAXUINT then 0 else n + 1
  }

  function Decrement(n: nat): nat {
    if n == 0 then G_MAXUINT else n - 1
  }

  function Enqueued(p: Pool, slot: nat): Pool
    requires slot < |p.queued|
  {
    p.(queued := p.queued[slot := Increment(p.queued[slot])])
  }

  function Dequeued(p: Pool, slot: nat): Pool
    requires slot < |p.queued|
  {
    p.(queued := p.queued[slot := Decrement(p.queued[slot])])
  }

  function Gated(p: Pool, slot: nat, guard: nat): Pool
    requires slot < |p.gates|
  {
    p.(gates := p.gates[slot := Some(guard)])
  }

  /** The guard to wait for: the one in the gate, if it is pending. */
  function WaitFor(gate: Option<nat>, resolved: set<nat>): Option<nat> {
    if gate.Some? && gate.value !in resolved then gate else None
  }

  predicate Blocked(s: State, p: Phase) {
    p.Waiting? && p.on.Some? && p.on.value !in s.resolved
  }

  function Put(s: State, j: nat, f: Fiber): State
    requires j < |s.fibers|
  {
    s.(fibers := s.fibers[j := f])
  }

  predicate Sized(s: State, glycin: nat) {
    && |s.io.queued| == |s.io.gates| == MAX_CONCURRENT_IO
    && |s.glycin.queued| == |s.glycin.gates| == glycin
    && glycin > 0
  }

  function SlotsOf(glycin: nat, k: Kind): nat {
    if k.Io? then MAX_CONCURRENT_IO else glycin
  }

  predicate SlotsInRange(s: State) {
    forall j :: 0 <= j < |s.fibers| && !s.fibers[j].phase.Idle? ==> 
      s.fibers[j].phase.slot < |PoolOf(s, s.fibers[j].phase.kind).queued|
  }

  /** FIND_LOCK. */
  function Find(s: State, j: nat, k: Kind): State
    requires j < |s.fibers| && PoolOf(s, k).queued != [] && s.fibers[j].todo != []
  {
    var f := s.fibers[j];
    var p := PoolOf(s, k);
    PickInRange(p.queued, f.slotQueued);
    var (slot, seen) := Pick(p.queued, f.slotQueued);
    Put(WithPool(s, k, Enqueued(p, slot)), j, Fiber(f.todo[1..], seen, Found(k, slot)))
  }

  /** The locked part of BZ_BEGIN_GUARD_WITH_CONTEXT: a new guard goes into the gate. */
  function Exchange(s: State, j: nat): State
    requires j < |s.fibers| && s.fibers[j].phase.Found?
    requires s.fibers[j].phase.slot < |PoolOf(s, s.fibers[j].phase.kind).gates|
  {
    var f := s.fibers[j];
    var (k, slot) := (f.phase.kind, f.phase.slot);
    var p := PoolOf(s, k);
    Put(WithPool(s, k, Gated(p, slot, s.nextGuard)), j,
        f.(phase := Waiting(k, slot, s.nextGuard, WaitFor(p.gates[slot], s.resolved)))).(nextGuard := s.nextGuard + 1)
  }

  /** FINISH_LOCK. */
  function Finish(s: State, j: nat): State
    requires j < |s.fibers| && s.fibers[j].phase.Woken?
    requires s.fibers[j].phase.slot < |PoolOf(s, s.fibers[j].phase.kind).queued|
  {
    var f := s.fibers[j];
    var (k, slot) := (f.phase.kind, f.phase.slot);
    var p := PoolOf(s, k);
    Put(WithPool(s, k, Dequeued(p, slot)), j,
        f.(phase := Holding(k, slot, f.phase.guard)))
  }

  function Clear(s: State, j: nat): State
    requires j < |s.fibers| && s.fibers[j].phase.Holding? && s.fibers[j].todo != []
  {
    var f := s.fibers[j];
    Put(s, j, f.(todo := f.todo[1..], phase := Idle)).(resolved := s.resolved + {f.phase.guard})
  }

  /** The next step of fiber j, if it can take one. A fiber that asks for a slot while it holds one
      waits for itself. */
  function Step(s: State, j: nat): Option<State>
    requires s.io.queued != [] && s.glycin.queued != [] && |s.io.gates| == |s.io.queued| &&
        |s.glycin.gates| == |s.glycin.queued|
    requires SlotsInRange(s)
  {
    if j >= |s.fibers| then None
    else
      var f := s.fibers[j];
      match f.phase
      case Idle =>
        if f.todo == [] then None
        else if f.todo[0].Begin? then Some(Find(s, j, f.todo[0].kind))
        else Some(Put(s, j, f.(todo := f.todo[1..])))
      case Found(_, _) => Some(Exchange(s, j))
      case Waiting(k, slot, g, _) =>
        if Blocked(s, f.phase) then None else Some(Put(s, j, f.(phase := Woken(k, slot, g))))
      case Woken(_, _, _) => Some(Finish(s, j))
      case Holding(_, _, _) =>
        if f.todo == [] || f.todo[0].Begin? then None else Some(Clear(s, j))
  }

  // ----- the invariant

  /** The fiber's guard is in line at the slot. */
  predicate At(f: Fiber, k: Kind, slot: nat) {
    (f.phase.Waiting? || f.phase.Woken? || f.phase.Holding?) && f.phase.kind == k && f.phase.slot == slot
  }

  predicate InLine(f: Fiber) {
    f.phase.Waiting? || f.phase.Woken? || f.phase.Holding?
  }

  predicate Queued(f: Fiber, k: Kind, slot: nat) {
    (f.phase.Found? || f.phase.Waiting? || f.phase.Woken?) && f.phase.kind == k && f.phase.slot == slot
  }

  /** The number of fibers between FIND_LOCK and FINISH_LOCK of a slot. */
  function Count(fibers: seq<Fiber>, k: Kind, slot: nat): nat {
    if fibers == [] then 0
    else Count(fibers[..|fibers|-1], k, slot) + if Queued(fibers[|fibers|-1], k, slot) then 1 else 0
  }

  lemma {:induction false} CountPut(fibers: seq<Fiber>, j: nat, f: Fiber, k: Kind, slot: nat)
    requires j < |fibers|
    ensures Count(fibers[j := f], k, slot) ==
            Count(fibers, k, slot)
              - (if Queued(fibers[j], k, slot) then 1 else 0)
              + (if Queued(f, k, slot) then 1 else 0)
    decreases |fibers|
  {
    hide Queued;
    var last := |fibers| - 1;
    var now := fibers[j := f];
    if j == last {
      assert now[..last] == fibers[..last];
    } else {
      assert now[..last] == fibers[..last][j := f];
      CountPut(fibers[..last], j, f, k, slot);
    }
  }

  lemma {:induction false} CountAtMost(fibers: seq<Fiber>, k: Kind, slot: nat)
    ensures Count(fibers, k, slot) <= |fibers|
  {
    hide Queued;
    if fibers != [] {
      CountAtMost(fibers[..|fibers|-1], k, slot);
    }
  }

  ghost predicate CountersExact(s: State) {
    forall k: Kind, i :: 0 <= i < |PoolOf(s, k).queued| ==> PoolOf(s, k).queued[i] == Count(s.fibers, k, i)
  }

  /** What a fiber still has to do fits its phase. */
  predicate Orderly(f: Fiber) {
    if f.phase.Idle? then Alternates(f.todo)
    else f.todo != [] && f.todo[0].End? && Alternates(f.todo[1..])
  }

  /** Of two fibers in line at one slot: one that is not blocked has the older guard, and one that is
      blocked waits for the guard right before its own. */
  ghost predicate Before(s: State, x: Fiber, y: Fiber)
    requires InLine(x) && InLine(y)
  {
    if Blocked(s, x.phase) then y.phase.guard <= x.phase.on.value || y.phase.guard > x.phase.guard
    else x.phase.guard < y.phase.guard
  }

  ghost predicate LinesOrdered(s: State) {
    forall x, y, k: Kind, i: nat | 0 <= x < |s.fibers| && 0 <= y < |s.fibers| && x != y ::
      At(s.fibers[x], k, i) && At(s.fibers[y], k, i) ==> Before(s, s.fibers[x], s.fibers[y])
  }

  ghost predicate GuardsPending(s: State) {
    && (forall x :: 0 <= x < |s.fibers| && InLine(s.fibers[x]) ==>
         s.fibers[x].phase.guard < s.nextGuard && s.fibers[x].phase.guard !in s.resolved)
    && (forall x, y | 0 <= x < |s.fibers| && 0 <= y < |s.fibers| && x != y ::
         InLine(s.fibers[x]) && InLine(s.fibers[y]) ==> s.fibers[x].phase.guard != s.fibers[y].phase.guard)
    && (forall g <- s.resolved :: g < s.nextGuard)
  }

  ghost predicate Owner(s: State, k: Kind, i: nat, g: nat, x: int) {
    0 <= x < |s.fibers| && At(s.fibers[x], k, i) && s.fibers[x].phase.guard == g
  }

  /** A blocked fiber waits for an older guard of a fiber in line at its slot. */
  ghost predicate WaitsForOwner(s: State, x: int)
    requires 0 <= x < |s.fibers| && Blocked(s, s.fibers[x].phase)
  {
    var p := s.fibers[x].phase;
    p.on.value < p.guard && exists y :: Owner(s, p.kind, p.slot, p.on.value, y)
  }

  ghost predicate WaitsAreOwned(s: State) {
    forall x :: 0 <= x < |s.fibers| && Blocked(s, s.fibers[x].phase) ==> WaitsForOwner(s, x)
  }

  /** A gate has the youngest guard of its line; with no fiber in line it has none that is pending. */
  ghost predicate GateRight(s: State, k: Kind, i: nat)
    requires i < |PoolOf(s, k).gates|
  {
    var gate := PoolOf(s, k).gates[i];
    && (forall x :: 0 <= x < |s.fibers| && At(s.fibers[x], k, i) ==>
         gate.Some? && gate.value !in s.resolved && s.fibers[x].phase.guard <= gate.value)
    && (gate.Some? && gate.value !in s.resolved ==>
         gate.value < s.nextGuard && exists y :: Owner(s, k, i, gate.value, y))
  }

  ghost predicate GatesRight(s: State) {
    forall k: Kind, i: nat :: i < |PoolOf(s, k).gates| ==> GateRight(s, k, i)
  }

  ghost predicate Inv(s: State, glycin: nat) {
    && Sized(s, glycin) && SlotsInRange(s)
    && |s.fibers| < G_MAXUINT
    && (forall j :: 0 <= j < |s.fibers| ==> Orderly(s.fibers[j]))
    && CountersExact(s) && LinesOrdered(s) && GuardsPending(s) && WaitsAreOwned(s) && GatesRight(s)
  }

  // ----- each step keeps it

  lemma CountersFound(s: State, j: nat, k: Kind, glycin: nat)
    requires Sized(s, glycin) && CountersExact(s) && |s.fibers| < G_MAXUINT
    requires j < |s.fibers| && s.fibers[j].phase.Idle? && s.fibers[j].todo != []
    ensures CountersExact(Find(s, j, k))
  {
    hide Pick, Count;
    PickInRange(PoolOf(s, k).queued, s.fibers[j].slotQueued);
    var t := Find(s, j, k);
    forall l: Kind, i | 0 <= i < |PoolOf(t, l).queued|
      ensures PoolOf(t, l).queued[i] == Count(t.fibers, l, i)
    {
      CountPut(s.fibers, j, t.fibers[j], l, i);
      CountAtMost(s.fibers, l, i);
    }
  }

  lemma CountersFinish(s: State, j: nat, glycin: nat)
    requires Sized(s, glycin) && SlotsInRange(s) && CountersExact(s)
    requires j < |s.fibers| && s.fibers[j].phase.Woken?
    ensures PoolOf(s, s.fibers[j].phase.kind).queued[s.fibers[j].phase.slot] > 0
    ensures CountersExact(Finish(s, j))
  {
    hide Count;
    var t := Finish(s, j);
    CountPut(s.fibers, j, t.fibers[j], s.fibers[j].phase.kind, s.fibers[j].phase.slot);
    forall l: Kind, i | 0 <= i < |PoolOf(t, l).queued|
      ensures PoolOf(t, l).queued[i] == Count(t.fibers, l, i)
    {
      CountPut(s.fibers, j, t.fibers[j], l, i);
    }
  }

  /** Steps that change no counter and leave the fiber as queued as it was. */
  lemma CountersKept(s: State, t: State, j: nat)
    requires CountersExact(s) && j < |s.fibers| && |t.fibers| == |s.fibers| && t.fibers == s.fibers[j := t.fibers[j]]
    requires t.io.queued == s.io.queued && t.glycin.queued == s.glycin.queued
    requires forall l: Kind, i: nat :: Queued(t.fibers[j], l, i) <==> Queued(s.fibers[j], l, i)
    ensures CountersExact(t)
  {
    hide Count, Queued;
    forall l: Kind, i | 0 <= i < |PoolOf(t, l).queued|
      ensures PoolOf(t, l).queued[i] == Count(t.fibers, l, i)
    {
      CountPut(s.fibers, j, t.fibers[j], l, i);
    }
  }

  /** The part of the invariant that is about guards and gates. */
  ghost predicate Lines(s: State) {
    LinesOrdered(s) && GuardsPending(s) && WaitsAreOwned(s) && GatesRight(s)
  }

  predicate SameLine(x: Fiber, y: Fiber) {
    && (InLine(x) <==> InLine(y))
    && (InLine(x) ==> x.phase.kind == y.phase.kind && x.phase.slot == y.phase.slot && x.phase.guard == y.phase.guard)
    && (x.phase.Waiting? && y.phase.Waiting? ==> x.phase == y.phase)
  }

  /** Two states with the same gates, guards and lines. */
  ghost predicate SameLines(s: State, t: State) {
    && |t.fibers| == |s.fibers| && t.nextGuard == s.nextGuard && t.resolved == s.resolved
    && t.io.gates == s.io.gates && t.glycin.gates == s.glycin.gates
    && forall x :: 0 <= x < |s.fibers| ==>
         SameLine(s.fibers[x], t.fibers[x]) && (Blocked(s, s.fibers[x].phase) <==> Blocked(t, t.fibers[x].phase))
  }

  lemma OwnersKept(s: State, t: State, k: Kind, i: nat, g: nat)
    requires SameLines(s, t)
    ensures (exists y :: Owner(s, k, i, g, y)) ==> (exists y :: Owner(t, k, i, g, y))
  {
    hide Blocked;
    if y :| Owner(s, k, i, g, y) {
      assert SameLine(s.fibers[y], t.fibers[y]);
      assert Owner(t, k, i, g, y);
    }
  }

  lemma OrderKept(s: State, t: State)
    requires SameLines(s, t) && LinesOrdered(s) && GuardsPending(s)
    ensures LinesOrdered(t) && GuardsPending(t)
  {
    forall x, y, k: Kind, i: nat | 0 <= x < |t.fibers| && 0 <= y < |t.fibers| && x != y &&
        At(t.fibers[x], k, i) && At(t.fibers[y], k, i)
      ensures Before(t, t.fibers[x], t.fibers[y])
    {
      assert SameLine(s.fibers[x], t.fibers[x]) && SameLine(s.fibers[y], t.fibers[y]);
      assert At(s.fibers[x], k, i) && At(s.fibers[y], k, i);
      assert Before(s, s.fibers[x], s.fibers[y]);
    }
    assert forall x :: 0 <= x < |s.fibers| ==> SameLine(s.fibers[x], t.fibers[x]);
  }

  lemma LinesKept(s: State, t: State)
    requires Lines(s) && SameLines(s, t)
    ensures Lines(t)
  {
    hide At, LinesOrdered, GuardsPending, Owner;
    OrderKept(s, t);
    forall x | 0 <= x < |t.fibers| && Blocked(t, t.fibers[x].phase)
      ensures WaitsForOwner(t, x)
    {
      assert SameLine(s.fibers[x], t.fibers[x]) && WaitsForOwner(s, x);
      OwnersKept(s, t, s.fibers[x].phase.kind, s.fibers[x].phase.slot, s.fibers[x].phase.on.value);
    }
    forall k: Kind, i: nat | i < |PoolOf(t, k).gates|
      ensures GateRight(t, k, i)
    {
      GateKept(s, t, k, i);
    }
  }

  lemma GateKept(s: State, t: State, k: Kind, i: nat)
    requires SameLines(s, t) && i < |PoolOf(s, k).gates| && GateRight(s, k, i)
    ensures GateRight(t, k, i)
  {
    hide Owner, Blocked;
    var gate := PoolOf(s, k).gates[i];
    forall x | 0 <= x < |t.fibers| && At(t.fibers[x], k, i)
      ensures gate.Some? && gate.value !in t.resolved && t.fibers[x].phase.guard <= gate.value
    {
      assert SameLine(s.fibers[x], t.fibers[x]) && At(s.fibers[x], k, i);
    }
    if gate.Some? {
      OwnersKept(s, t, k, i, gate.value);
    }
  }

  // ----- a guard enters a gate

  lemma ExchangeOrder(s: State, t: State, j: nat)
    requires Lines(s) && j < |s.fibers| && s.fibers[j].phase.Found?
    requires s.fibers[j].phase.slot < |PoolOf(s, s.fibers[j].phase.kind).gates|
    requires t == Exchange(s, j)
    ensures LinesOrdered(t) && GuardsPending(t)
  {
    hide WaitsAreOwned, Owner;
    var (k, i) := (s.fibers[j].phase.kind, s.fibers[j].phase.slot);
    assert GateRight(s, k, i);
    forall x, y, l: Kind, m: nat | 0 <= x < |t.fibers| && 0 <= y < |t.fibers| && x != y &&
        At(t.fibers[x], l, m) && At(t.fibers[y], l, m)
      ensures Before(t, t.fibers[x], t.fibers[y])
    {
      if x != j && y != j {
        assert Before(s, s.fibers[x], s.fibers[y]);
      } else if x == j {
        assert At(s.fibers[y], k, i);
      } else {
        assert At(s.fibers[x], k, i);
      }
    }
  }

  lemma ExchangeWaits(s: State, t: State, j: nat)
    requires Lines(s) && j < |s.fibers| && s.fibers[j].phase.Found?
    requires s.fibers[j].phase.slot < |PoolOf(s, s.fibers[j].phase.kind).gates|
    requires t == Exchange(s, j)
    ensures WaitsAreOwned(t)
  {
    hide LinesOrdered;
    var (k, i) := (s.fibers[j].phase.kind, s.fibers[j].phase.slot);
    forall x | 0 <= x < |t.fibers| && Blocked(t, t.fibers[x].phase)
      ensures WaitsForOwner(t, x)
    {
      var p := t.fibers[x].phase;
      if x == j {
        assert GateRight(s, k, i);
      } else {
        assert WaitsForOwner(s, x);
      }
      var y :| Owner(s, p.kind, p.slot, p.on.value, y);
      assert Owner(t, p.kind, p.slot, p.on.value, y);
    }
  }

  lemma ExchangeGates(s: State, t: State, j: nat)
    requires Lines(s) && j < |s.fibers| && s.fibers[j].phase.Found?
    requires s.fibers[j].phase.slot < |PoolOf(s, s.fibers[j].phase.kind).gates|
    requires t == Exchange(s, j)
    ensures GatesRight(t)
  {
    hide LinesOrdered, WaitsAreOwned;
    var (k, i) := (s.fibers[j].phase.kind, s.fibers[j].phase.slot);
    forall l: Kind, m: nat | m < |PoolOf(t, l).gates|
      ensures GateRight(t, l, m)
    {
      if l == k && m == i {
        assert Owner(t, k, i, s.nextGuard, j);
      } else {
        ExchangeOtherGate(s, t, j, l, m);
      }
    }
  }

  lemma ExchangeOtherGate(s: State, t: State, j: nat, l: Kind, m: nat)
    requires Lines(s) && j < |s.fibers| && s.fibers[j].phase.Found?
    requires s.fibers[j].phase.slot < |PoolOf(s, s.fibers[j].phase.kind).gates|
    requires t == Exchange(s, j) && m < |PoolOf(s, l).gates| &&
        (l, m) != (s.fibers[j].phase.kind, s.fibers[j].phase.slot)
    ensures GateRight(t, l, m)
  {
    hide LinesOrdered, WaitsAreOwned;
    assert GateRight(s, l, m);
    var gate := PoolOf(s, l).gates[m];
    assert PoolOf(t, l).gates[m] == gate;
    if gate.Some? && gate.value !in s.resolved {
      var y :| Owner(s, l, m, gate.value, y);
      assert Owner(t, l, m, gate.value, y);
    }
  }

  // ----- a guard is resolved

  lemma ClearOrder(s: State, t: State, j: nat)
    requires Lines(s) && j < |s.fibers| && s.fibers[j].phase.Holding? && s.fibers[j].todo != [] && t == Clear(s, j)
    ensures LinesOrdered(t) && GuardsPending(t)
  {
  }

  lemma ClearWaits(s: State, t: State, j: nat)
    requires Lines(s) && j < |s.fibers| && s.fibers[j].phase.Holding? && s.fibers[j].todo != [] && t == Clear(s, j)
    ensures WaitsAreOwned(t)
  {
    hide GatesRight, LinesOrdered;
    forall x | 0 <= x < |t.fibers| && Blocked(t, t.fibers[x].phase)
      ensures WaitsForOwner(t, x)
    {
      var p := t.fibers[x].phase;
      assert WaitsForOwner(s, x);
      var y :| Owner(s, p.kind, p.slot, p.on.value, y);
      assert Owner(t, p.kind, p.slot, p.on.value, y);
    }
  }

  lemma ClearGates(s: State, t: State, j: nat)
    requires Lines(s) && j < |s.fibers| && s.fibers[j].phase.Holding? && s.fibers[j].todo != [] && t == Clear(s, j)
    ensures GatesRight(t)
  {
    hide LinesOrdered, GuardsPending, WaitsAreOwned;
    forall k: Kind, i: nat | i < |PoolOf(t, k).gates|
      ensures GateRight(t, k, i)
    {
      ClearGate(s, t, j, k, i);
    }
  }

  lemma ClearGate(s: State, t: State, j: nat, k: Kind, i: nat)
    requires Lines(s) && j < |s.fibers| && s.fibers[j].phase.Holding? && s.fibers[j].todo != [] && t == Clear(s, j)
    requires i < |PoolOf(s, k).gates|
    ensures GateRight(t, k, i)
  {
    hide WaitsAreOwned;
    assert GateRight(s, k, i);
    var gate := PoolOf(s, k).gates[i];
    var h := s.fibers[j].phase.guard;
    forall x | 0 <= x < |t.fibers| && At(t.fibers[x], k, i)
      ensures gate.Some? && gate.value !in t.resolved && t.fibers[x].phase.guard <= gate.value
    {
      assert At(s.fibers[x], k, i);
      GateNotHeldBefore(s, k, i, j, x);
    }
    if gate.Some? && gate.value !in t.resolved {
      var y :| Owner(s, k, i, gate.value, y);
      assert Owner(t, k, i, gate.value, y);
    }
  }

  /** While another fiber is in line, the gate does not have the guard of the holder. */
  lemma GateNotHeldBefore(s: State, k: Kind, i: nat, j: nat, x: nat)
    requires Lines(s) && j < |s.fibers| && s.fibers[j].phase.Holding? && x < |s.fibers| && x != j &&
        At(s.fibers[x], k, i)
    requires i < |PoolOf(s, k).gates|
    ensures var gate := PoolOf(s, k).gates[i]; gate.Some? ==> gate.value != s.fibers[j].phase.guard
  {
    hide WaitsAreOwned;
    assert GateRight(s, k, i);
    if At(s.fibers[j], k, i) {
      assert Before(s, s.fibers[j], s.fibers[x]);
    } else {
      var gate := PoolOf(s, k).gates[i];
      var y :| Owner(s, k, i, gate.value, y);
      assert InLine(s.fibers[y]) && InLine(s.fibers[j]) && y != j;
    }
  }

  // ----- every step, every run

  lemma StepShape(s: State, j: nat, glycin: nat)
    requires Sized(s, glycin) && SlotsInRange(s) && |s.fibers| < G_MAXUINT
    requires forall x :: 0 <= x < |s.fibers| ==> Orderly(s.fibers[x])
    requires Step(s, j).Some?
    ensures var t := Step(s, j).value;
            && Sized(t, glycin) && SlotsInRange(t) && |t.fibers| == |s.fibers|
            && forall x :: 0 <= x < |t.fibers| ==> Orderly(t.fibers[x])
  {
    hide Pick, Alternates;
    var f := s.fibers[j];
    PickInRange(s.io.queued, f.slotQueued);
    PickInRange(s.glycin.queued, f.slotQueued);
    OrderlyAhead(f);
  }

  lemma OrderlyAhead(f: Fiber)
    requires Orderly(f)
    ensures f.phase.Idle? && f.todo != [] ==>
      f.todo[0].Begin? && f.todo[1..] != [] && f.todo[1..][0].End? && Alternates(f.todo[1..][1..])
  {
  }

  lemma CountersStep(s: State, j: nat, glycin: nat)
    requires Sized(s, glycin) && SlotsInRange(s) && |s.fibers| < G_MAXUINT && CountersExact(s)
    requires j < |s.fibers| && Orderly(s.fibers[j]) && Step(s, j).Some?
    ensures CountersExact(Step(s, j).value)
  {
    hide CountersExact, Find, Alternates;
    var t := Step(s, j).value;
    match s.fibers[j].phase
    case Idle =>
      OrderlyAhead(s.fibers[j]);
      CountersFound(s, j, s.fibers[j].todo[0].kind, glycin);
    case Found(k, i) =>
      assert t.fibers[j].phase.Waiting? && t.fibers[j].phase.kind == k && t.fibers[j].phase.slot == i;
      CountersKept(s, t, j);
    case Waiting(_, _, _, _) => CountersKept(s, t, j);
    case Woken(_, _, _) => CountersFinish(s, j, glycin);
    case Holding(_, _, _) => CountersKept(s, t, j);
  }

  lemma LinesStep(s: State, j: nat, glycin: nat)
    requires Sized(s, glycin) && SlotsInRange(s) && Lines(s)
    requires j < |s.fibers| && Orderly(s.fibers[j]) && Step(s, j).Some?
    ensures Lines(Step(s, j).value)
  {
    hide Pick, Alternates, LinesOrdered, GuardsPending, WaitsAreOwned, GatesRight;
    var t := Step(s, j).value;
    match s.fibers[j].phase
    case Found(_, _) =>
      ExchangeOrder(s, t, j);
      ExchangeWaits(s, t, j);
      ExchangeGates(s, t, j);
    case Holding(_, _, _) =>
      ClearOrder(s, t, j);
      ClearWaits(s, t, j);
      ClearGates(s, t, j);
    case Idle =>
      OrderlyAhead(s.fibers[j]);
      LinesKept(s, t);
    case _ => LinesKept(s, t);
  }

  lemma StepKeeps(s: State, j: nat, glycin: nat)
    requires Inv(s, glycin) && Step(s, j).Some?
    ensures Inv(Step(s, j).value, glycin)
  {
    hide Step, CountersExact, LinesOrdered, GuardsPending, WaitsAreOwned, GatesRight, Orderly, SlotsInRange;
    StepInRange(s, j);
    StepShape(s, j, glycin);
    CountersStep(s, j, glycin);
    LinesStep(s, j, glycin);
  }

  lemma StepInRange(s: State, j: nat)
    requires s.io.queued != [] && s.glycin.queued != [] && |s.io.gates| == |s.io.queued| &&
        |s.glycin.gates| == |s.glycin.queued|
    requires SlotsInRange(s) && Step(s, j).Some?
    ensures j < |s.fibers|
  {
  }

  /** A schedule names the fiber that runs next; a fiber that cannot run is passed over. */
  ghost function Run(s: State, glycin: nat, schedule: seq<nat>): (t: State)
    requires Inv(s, glycin)
    ensures Inv(t, glycin)
    decreases schedule
  {
    if schedule == [] then s
    else
      match Step(s, schedule[0])
      case None => Run(s, glycin, schedule[1..])
      case Some(t) =>
        StepKeeps(s, schedule[0], glycin);
        Run(t, glycin, schedule[1..])
  }

  function EmptyPool(n: nat): Pool {
    Pool(seq(n, i => 0), seq(n, i => None))
  }

  /** No load has begun. */
  function Start(loads: seq<Answers>, glycin: nat): State {
    State(EmptyPool(MAX_CONCURRENT_IO), EmptyPool(glycin),
          seq(|loads|, i requires 0 <= i < |loads| => Fiber(LoadOps(loads[i]), G_MAXUINT, Idle)), 0, {})
  }

  lemma {:induction false} NoneQueued(fibers: seq<Fiber>, k: Kind, slot: nat)
    requires forall j :: 0 <= j < |fibers| ==> fibers[j].phase.Idle?
    ensures Count(fibers, k, slot) == 0
  {
    if fibers != [] {
      NoneQueued(fibers[..|fibers|-1], k, slot);
    }
  }

  lemma StartsRight(loads: seq<Answers>, processors: nat)
    requires |loads| < G_MAXUINT
    ensures Inv(Start(loads, ConcurrentGlycin(processors)), ConcurrentGlycin(processors))
  {
    hide LoadOps, ConcurrentGlycin;
    var s := Start(loads, ConcurrentGlycin(processors));
    forall j | 0 <= j < |s.fibers|
      ensures Orderly(s.fibers[j])
    {
      LoadAlternates(loads[j]);
    }
    forall k: Kind, i | 0 <= i < |PoolOf(s, k).queued|
      ensures PoolOf(s, k).queued[i] == Count(s.fibers, k, i)
    {
      NoneQueued(s.fibers, k, i);
    }
  }

  // ----- a run in which a load joins the longer queue

  /** A load into a cache file that is not there yet. */
  const INTO_CACHE := Answers(true, false, false, false, false, false, false, false, false, false, false)

  lemma FirstOps()
    ensures var ops := LoadOps(INTO_CACHE);
            |ops| > 3 && ops[..2] == [Begin(Io), End] && ops[2] == Begin(Io)
  {
  }

  lemma PickOfEmpty(queued: seq<nat>)
    requires queued != [] && forall i :: 0 <= i < |queued| ==> queued[i] == 0
    ensures Pick(queued, G_MAXUINT) == (0, 0)
  {
    ScanMeaning(queued, 1, 0, 0);
  }

  lemma RunStep(s: State, glycin: nat, schedule: seq<nat>)
    requires Inv(s, glycin) && schedule != [] && Step(s, schedule[0]).Some?
    ensures Inv(Step(s, schedule[0]).value, glycin)
    ensures Run(s, glycin, schedule) == Run(Step(s, schedule[0]).value, glycin, schedule[1..])
  {
    hide Inv, Step;
    StepKeeps(s, schedule[0], glycin);
  }

  /** One fiber takes an empty slot 0 and gives it back; every counter is 0 again, and the fiber has
      seen a count of 0. */
  lemma OneTurn(s: State, glycin: nat)
    requires Inv(s, glycin) && |s.fibers| > 0
    requires s.fibers[0].phase.Idle? && |s.fibers[0].todo| > 2 && s.fibers[0].todo[..2] == [Begin(Io), End]
    requires s.fibers[0].slotQueued == G_MAXUINT && s.io.gates[0].None?
    requires forall i :: 0 <= i < |s.io.queued| ==> s.io.queued[i] == 0
    ensures var t := Run(s, glycin, [0, 0, 0, 0, 0]);
            && t.fibers == s.fibers[0 := Fiber(s.fibers[0].todo[2..], 0, Idle)]
            && t.io.queued == s.io.queued
  {
    hide CountersExact, LinesOrdered, GuardsPending, WaitsAreOwned, GatesRight, Orderly, Pick, Run;
    var f := s.fibers[0];
    assert f.todo[..2][0] == Begin(Io) && f.todo[..2][1] == End;
    assert f.todo[0] == Begin(Io) && f.todo[1..][0] == End && f.todo[1..][1..] == f.todo[2..];
    PickOfEmpty(s.io.queued);
    var s1 := Step(s, 0).value;
    assert s1 == Find(s, 0, Io) && s1.fibers[0] == Fiber(f.todo[1..], 0, Found(Io, 0));
    StepKeeps(s, 0, glycin);
    var s2 := Step(s1, 0).value;
    assert s2.fibers[0] == Fiber(f.todo[1..], 0, Waiting(Io, 0, s.nextGuard, None));
    StepKeeps(s1, 0, glycin);
    var s3 := Step(s2, 0).value;
    StepKeeps(s2, 0, glycin);
    var s4 := Step(s3, 0).value;
    assert s4.io.queued == s.io.queued;
    StepKeeps(s3, 0, glycin);
    var s5 := Step(s4, 0).value;
    StepKeeps(s4, 0, glycin);
    assert s5.fibers == s.fibers[0 := Fiber(f.todo[2..], 0, Idle)];
    FiveSteps(s, s1, s2, s3, s4, s5, glycin);
  }

  lemma FiveSteps(s: State, s1: State, s2: State, s3: State, s4: State, s5: State, glycin: nat)
    requires Inv(s, glycin) && Inv(s1, glycin) && Inv(s2, glycin)
         && Inv(s3, glycin) && Inv(s4, glycin) && Inv(s5, glycin)
    requires Step(s, 0) == Some(s1) && Step(s1, 0) == Some(s2) && Step(s2, 0) == Some(s3)
    requires Step(s3, 0) == Some(s4) && Step(s4, 0) == Some(s5)
    ensures Run(s, glycin, [0, 0, 0, 0, 0]) == s5
  {
    hide Inv, Step;
    var z := [0, 0, 0, 0, 0];
    assert z[1..] == z[..4] && z[1..][1..] == z[..3] && z[1..][1..][1..] == z[..2];
    assert z[1..][1..][1..][1..] == z[..1] && z[1..][1..][1..][1..][1..] == [];
    RunStep(s, glycin, z);
    RunStep(s1, glycin, z[1..]);
    RunStep(s2, glycin, z[1..][1..]);
    RunStep(s3, glycin, z[1..][1..][1..]);
    RunStep(s4, glycin, z[1..][1..][1..][1..]);
  }

  /** The first fiber is about to choose an io slot that is not a least loaded one. */
  ghost predicate JoinsALongerQueue(s: State) {
    && s.fibers != [] && s.fibers[0].phase.Idle?
    && s.fibers[0].todo != [] && s.fibers[0].todo[0] == Begin(Io)
    && !LeastLoaded(s.io.queued, Pick(s.io.queued, s.fibers[0].slotQueued).0)
  }

  /** Two loads on any machine: the first takes slot 0 and gives it back, the second queues for slot
      0, and the next choice of the first is slot 0 again, though the other slots are empty. */
  lemma LaterPickIsNotLeastLoaded(glycin: nat, s0: State)
    requires Inv(s0, glycin) && s0 == Start([INTO_CACHE, INTO_CACHE], glycin)
    ensures JoinsALongerQueue(Run(Run(s0, glycin, [0, 0, 0, 0, 0]), glycin, [1]))
  {
    hide LoadOps, Run, CountersExact, LinesOrdered, GuardsPending, WaitsAreOwned, GatesRight, Orderly;
    FirstOps();
    OneTurn(s0, glycin);
    var s := Run(s0, glycin, [0, 0, 0, 0, 0]);
    var ops := LoadOps(INTO_CACHE);
    assert s.fibers[0].todo[0] == ops[2];
    assert s.fibers[1] == s0.fibers[1] && s0.fibers[1].todo[0] == ops[..2][0];
    PickOfEmpty(s.io.queued);
    var t := Step(s, 1).value;
    assert [1][1..] == [];
    RunStep(s, glycin, [1]);
    RunNothing(t, glycin);
    AfterAnEmptySlotAlwaysZero(t.io.queued);
    assert t.io.queued[1] < t.io.queued[0];
  }

  lemma RunNothing(s: State, glycin: nat)
    requires Inv(s, glycin)
    ensures Run(s, glycin, []) == s
  {
  }

  // ----- what every run guarantees

  predicate Inside(f: Fiber, k: Kind) {
    (f.phase.Woken? || f.phase.Holding?) && f.phase.kind == k
  }

  /** At most one fiber is past the gate of a slot, and the fibers behind it came later. */
  lemma OneInsideASlot(s: State, glycin: nat, x: nat, y: nat)
    requires Inv(s, glycin) && x < |s.fibers| && y < |s.fibers| && x != y
    requires InLine(s.fibers[x]) && !s.fibers[x].phase.Waiting?
    requires At(s.fibers[y], s.fibers[x].phase.kind, s.fibers[x].phase.slot)
    ensures s.fibers[y].phase.Waiting? && s.fibers[x].phase.guard < s.fibers[y].phase.guard
  {
  }

  ghost function InsideBelow(s: State, k: Kind, n: nat): set<nat> {
    set j: nat | j < |s.fibers| && Inside(s.fibers[j], k) && s.fibers[j].phase.slot < n
  }

  lemma SameSlotSameFiber(s: State, glycin: nat, k: Kind, x: nat, y: nat)
    requires Inv(s, glycin) && x < |s.fibers| && y < |s.fibers|
    requires Inside(s.fibers[x], k) && Inside(s.fibers[y], k) && s.fibers[x].phase.slot == s.fibers[y].phase.slot
    ensures x == y
  {
    hide Inv;
    if x != y {
      OneInsideASlot(s, glycin, x, y);
    }
  }

  lemma {:induction false} InsideBelowAtMost(s: State, glycin: nat, k: Kind, n: nat)
    requires Inv(s, glycin)
    ensures |InsideBelow(s, k, n)| <= n
  {
    hide Inv;
    if n == 0 {
      assert InsideBelow(s, k, 0) == {};
    } else {
      InsideBelowAtMost(s, glycin, k, n - 1);
      var less := InsideBelow(s, k, n - 1);
      var all := InsideBelow(s, k, n);
      if all != less {
        var x :| x in all && x !in less;
        forall y | y in all && y !in less
          ensures y == x
        {
          SameSlotSameFiber(s, glycin, k, x, y);
        }
        assert all == less + {x};
      }
    }
  }

  /** At most 8 fibers are inside an io section, and at most `glycin` inside a glycin section. */
  lemma AtMostTheSlots(s: State, glycin: nat, k: Kind)
    requires Inv(s, glycin)
    ensures |(set j: nat | j < |s.fibers| && Inside(s.fibers[j], k))| <= SlotsOf(glycin, k)
  {
    hide CountersExact, LinesOrdered, GuardsPending, WaitsAreOwned, GatesRight;
    InsideBelowAtMost(s, glycin, k, SlotsOf(glycin, k));
    assert (set j: nat | j < |s.fibers| && Inside(s.fibers[j], k)) == InsideBelow(s, k, SlotsOf(glycin, k));
  }

  predicate Unfinished(f: Fiber) {
    !f.phase.Idle? || f.todo != []
  }

  /** Following the waits from any unfinished fiber leads to one that can run. */
  lemma {:induction false} SomeFiberCanRun(s: State, glycin: nat, x: nat) returns (j: nat)
    requires Inv(s, glycin) && x < |s.fibers| && Unfinished(s.fibers[x])
    ensures Step(s, j).Some?
    decreases if Blocked(s, s.fibers[x].phase) then s.fibers[x].phase.guard + 1 else 0
  {
    hide CountersExact, LinesOrdered, GuardsPending, GatesRight, Find, Exchange, Finish, Clear, Alternates;
    var p := s.fibers[x].phase;
    if Blocked(s, p) {
      assert WaitsForOwner(s, x);
      var y :| Owner(s, p.kind, p.slot, p.on.value, y);
      j := SomeFiberCanRun(s, glycin, y);
    } else {
      assert Orderly(s.fibers[x]);
      j := x;
    }
  }

  // ----- every load ends

  /** The steps a fiber has left. */
  function StepsLeft(f: Fiber): nat {
    5 * (|f.todo| / 2) +
    match f.phase
    case Idle => 0
    case Found(_, _) => 4
    case Waiting(_, _, _, _) => 3
    case Woken(_, _, _) => 2
    case Holding(_, _, _) => 1
  }

  function AllStepsLeft(fibers: seq<Fiber>): nat {
    if fibers == [] then 0 else AllStepsLeft(fibers[..|fibers|-1]) + StepsLeft(fibers[|fibers|-1])
  }

  lemma {:induction false} StepsPut(fibers: seq<Fiber>, j: nat, f: Fiber)
    requires j < |fibers|
    ensures AllStepsLeft(fibers[j := f]) == AllStepsLeft(fibers) - StepsLeft(fibers[j]) + StepsLeft(f)
    decreases |fibers|
  {
    hide StepsLeft;
    var last := |fibers| - 1;
    var now := fibers[j := f];
    if j == last {
      assert now[..last] == fibers[..last];
    } else {
      assert now[..last] == fibers[..last][j := f];
      StepsPut(fibers[..last], j, f);
    }
  }

  lemma {:induction false} AlternatesEven(ops: seq<Op>)
    requires Alternates(ops)
    ensures |ops| % 2 == 0
  {
    if ops != [] {
      AlternatesEven(ops[2..]);
    }
  }

  /** Every step of every fiber brings the end nearer by one. */
  lemma EachStepCounts(s: State, glycin: nat, j: nat)
    requires Inv(s, glycin) && Step(s, j).Some?
    ensures AllStepsLeft(Step(s, j).value.fibers) == AllStepsLeft(s.fibers) - 1
  {
    hide CountersExact, LinesOrdered, GuardsPending, WaitsAreOwned, GatesRight, AllStepsLeft, Pick, Alternates;
    StepInRange(s, j);
    var f := s.fibers[j];
    var t := Step(s, j).value;
    assert Orderly(f);
    OrderlyAhead(f);
    PickInRange(s.io.queued, f.slotQueued);
    PickInRange(s.glycin.queued, f.slotQueued);
    assert t.fibers == s.fibers[j := t.fibers[j]];
    StepsPut(s.fibers, j, t.fibers[j]);
    AlternatesEven(if f.phase.Idle? then f.todo else f.todo[1..]);
  }

  lemma {:induction false} NoStepsLeft(fibers: seq<Fiber>)
    requires forall j :: 0 <= j < |fibers| ==> Orderly(fibers[j])
    ensures AllStepsLeft(fibers) == 0 <==> forall j :: 0 <= j < |fibers| ==> !Unfinished(fibers[j])
  {
    hide Alternates;
    if fibers != [] {
      var last := fibers[|fibers|-1];
      NoStepsLeft(fibers[..|fibers|-1]);
      if last.phase.Idle? {
        AlternatesEven(last.todo);
      }
    }
  }

  /** For any loads on any machine and any schedule: each counter is the number of fibers in its
      queue, no more fibers are inside than there are slots, and as long as a load is unfinished
      some fiber can run. */
  lemma EveryInterleaving(loads: seq<Answers>, processors: nat, schedule: seq<nat>)
    requires |loads| < G_MAXUINT
    ensures var glycin := ConcurrentGlycin(processors);
            Inv(Start(loads, glycin), glycin)
    ensures var glycin := ConcurrentGlycin(processors);
            var s := Run(Start(loads, glycin), glycin, schedule);
            && CountersExact(s)
            && |(set j: nat | j < |s.fibers| && Inside(s.fibers[j], Io))| <= MAX_CONCURRENT_IO
            && |(set j: nat | j < |s.fibers| && Inside(s.fibers[j], Glycin))| <= glycin
            && (AllStepsLeft(s.fibers) > 0 <==> exists j :: Step(s, j).Some?)
  {
    hide Run, Step, Start, ConcurrentGlycin, Count, AllStepsLeft, Orderly, LinesOrdered, GuardsPending,
        WaitsAreOwned, GatesRight, Inside;
    StartsRight(loads, processors);
    var glycin := ConcurrentGlycin(processors);
    var s := Run(Start(loads, glycin), glycin, schedule);
    AtMostTheSlots(s, glycin, Io);
    AtMostTheSlots(s, glycin, Glycin);
    NoStepsLeft(s.fibers);
    if AllStepsLeft(s.fibers) > 0 {
      var x :| 0 <= x < |s.fibers| && Unfinished(s.fibers[x]);
      var j := SomeFiberCanRun(s, glycin, x);
    }
    if j :| Step(s, j).Some? {
      EachStepCounts(s, glycin, j);
    }
  }

  // ----- the static arrays

  /** The counters and gates of one kind; only the first `concurrent` slots are used. */
  class Slots {
    const queued: array<nat>
    const gates: array<Option<nat>>
    const concurrent: nat

    ghost predicate Valid() {
      0 < concurrent <= queued.Length == gates.Length
    }

    ghost function Abs(): Pool
      requires Valid()
      reads queued, gates
    {
      Pool(queued[..concurrent], gates[..concurrent])
    }

    constructor (max: nat, concurrent: nat)
      requires 0 < concurrent <= max
      ensures Valid() && fresh(queued) && fresh(gates) && this.concurrent == concurrent
      ensures Abs() == EmptyPool(concurrent)
    {
      this.concurrent := concurrent;
      queued := new nat[max](_ => 0);
      gates := new Option<nat>[max](_ => None);
    }

    method FindLock(slotQueued: nat) returns (slot: nat, seen: nat)
      requires Valid()
      modifies queued
      ensures slot < concurrent && (slot, seen) == Pick(old(Abs()).queued, slotQueued)
      ensures Abs() == Enqueued(old(Abs()), slot)
    {
      slot, seen := 0, slotQueued;
      var i := 0;
      while i < concurrent
        invariant 0 <= i <= concurrent && slot < concurrent
        invariant Pick(Abs().queued, slotQueued) == Scan(Abs().queued, i, slot, seen)
      {
        if queued[i] < seen {
          seen, slot := queued[i], i;
        }
        i := i + 1;
      }
      queued[slot] := Increment(queued[slot]);
    }

    method ExchangeGuard(slot: nat, guard: nat, resolved: set<nat>) returns (on: Option<nat>)
      requires Valid() && slot < concurrent
      modifies gates
      ensures on == WaitFor(old(Abs()).gates[slot], resolved)
      ensures Abs() == Gated(old(Abs()), slot, guard)
    {
      on := None;
      if gates[slot].Some? {
        if gates[slot].value !in resolved {
          on := gates[slot];
        }
        gates[slot] := None;
      }
      gates[slot] := Some(guard);
    }

    method FinishLock(slot: nat)
      requires Valid() && slot < concurrent
      modifies queued
      ensures Abs() == Dequeued(old(Abs()), slot)
    {
      queued[slot] := Decrement(queued[slot]);
    }
  }
}
