/**
 The agent's job executor as a transition system.

 One coordinator goroutine runs the memory modules in order, then starts one goroutine per
 remaining module; those compete for a counting semaphore, retry a bounded number of times and
 post one result each to a buffered channel that the collector drains.  A step below is one
 atomic action of one goroutine; every interleaving of enabled steps is a run.  Cancellation
 checks, module executions and the life of the context are decided by the environment.
 */
module JobExecutor {
  import opened Strings

  // ----- Data model -----

  /** The error value a module occurrence ends with; only `Success` is nil. */
  datatype Outcome = Success | Exhausted | Cancelled | ContextDone

  /** Where the goroutine responsible for one module occurrence stands. */
  datatype Pc =
    | Idle                                // not reached by the coordinator yet
    | Waiting                             // started; selecting on a semaphore slot or the context
    | Checking(k: nat)                    // attempt k: before the cancellation check
    | Executing(k: nat)                   // attempt k: inside executeModule
    | Sending(out: Outcome, slot: bool)   // about to send its result
    | Releasing(out: Outcome)             // result sent, slot still held
    | Leaving(out: Outcome)               // slot given back, WaitGroup not yet decremented
    | Finished(out: Outcome)

  /** One module occurrence; `runs` counts calls of executeModule made for it. */
  datatype Occurrence = Occurrence(pc: Pc, runs: nat)

  datatype Coordinator = Sequential(next: nat) | Spawning(next: nat) | Joining | Closed

  datatype Post = Post(who: nat, out: Outcome)

  /** Occurrences 0..volatile-1 are memory modules, the following `disk` ones are the others. */
  datatype Config = Config(volatile: nat, disk: nat, limit: nat, attempts: nat) {
    ghost predicate Valid() { 1 <= limit && 1 <= attempts }
    function Total(): nat { volatile + disk }
  }

  /**
   The shared state.  `log` is a history variable: every result ever sent, in order.  No step
   reads it.
   */
  datatype State = State(
    ctxDone: bool,
    coord: Coordinator,
    mods: seq<Occurrence>,
    sem: nat,
    wg: nat,
    chan: seq<Post>,
    closed: bool,
    completed: nat,
    failed: seq<nat>,
    progress: int,
    collecting: bool,
    log: seq<Post>)

  /** What one module goroutine does on its own, apart from sending its result. */
  datatype Action =
    | Acquire
    | GiveUp
    | CheckPasses
    | CheckFails
    | ExecSucceeds
    | ExecFails
    | Release
    | Leave

  datatype Step =
    | CancelContext
    | BeginVolatile
    | StartSpawning
    | Spawn
    | StartJoining
    | Close
    | Local(i: nat, act: Action)
    | Send(i: nat)
    | Receive
    | Drain

  // ----- Run parameters -----

  const DEFAULT_CONCURRENCY := 4
  const MAX_INT64 := 0x7FFF_FFFF_FFFF_FFFF

  function EffectiveLimit(concurrencyLimit: int): (r: nat)
    ensures r >= 1
    ensures concurrencyLimit > 0 ==> r == concurrencyLimit
    ensures concurrencyLimit <= 0 ==> r == 4
  {
    if concurrencyLimit <= 0 then DEFAULT_CONCURRENCY else concurrencyLimit
  }

  /** `retryAttempts + 1` in 64-bit arithmetic, at least one. */
  function EffectiveAttempts(retryAttempts: int): (r: nat)
    ensures r >= 1
    ensures 0 <= retryAttempts < MAX_INT64 ==> r == retryAttempts + 1
    ensures retryAttempts < 0 || retryAttempts == MAX_INT64 ==> r == 1
  {
    var attempts := if retryAttempts == MAX_INT64 then -MAX_INT64 - 1 else retryAttempts + 1;
    if attempts < 1 then 1 else attempts
  }

  /** `int(completed / total * 100)` over the reals. */
  function Progress(completed: nat, total: nat): int
    requires total > 0
  {
    (completed as real / total as real * 100.0).Floor
  }

  // ----- Steps -----

  function Initial(c: Config): State {
    State(false, Sequential(0), seq(c.Total(), _ => Occurrence(Idle, 0)), 0, 0, [], false, 0, [], 0, true, [])
  }

  /** Disk modules run inside a semaphore slot, memory modules do not. */
  predicate IsDisk(c: Config, i: nat) {
    c.volatile <= i
  }

  predicate CanAct(c: Config, s: State, pc: Pc, act: Action) {
    match act
    case Acquire => pc.Waiting? && s.sem < c.limit
    case GiveUp => pc.Waiting? && s.ctxDone
    case CheckPasses => pc.Checking?
    case CheckFails => pc.Checking?
    case ExecSucceeds => pc.Executing?
    case ExecFails => pc.Executing?
    case Release => pc.Releasing? && s.sem > 0
    case Leave => pc.Leaving? && s.wg > 0
  }

  function Act(c: Config, i: nat, m: Occurrence, act: Action): Occurrence {
    match (act, m.pc)
    case (Acquire, _) => m.(pc := Checking(1))
    case (GiveUp, _) => m.(pc := Sending(ContextDone, false))
    case (CheckPasses, Checking(k)) => Occurrence(Executing(k), m.runs + 1)
    case (CheckFails, _) => m.(pc := Sending(Cancelled, IsDisk(c, i)))
    case (ExecSucceeds, _) => m.(pc := Sending(Success, IsDisk(c, i)))
    case (ExecFails, Executing(k)) =>
      m.(pc := if k < c.attempts then Checking(k + 1) else Sending(Exhausted, IsDisk(c, i)))
    case (Release, Releasing(out)) => m.(pc := Leaving(out))
    case (Leave, Leaving(out)) => m.(pc := Finished(out))
    case _ => m
  }

  predicate Enabled(c: Config, s: State, step: Step) {
    match step
    case CancelContext => !s.ctxDone
    case BeginVolatile =>
      s.coord.Sequential? && s.coord.next < c.volatile && s.coord.next < |s.mods| && s.mods[s.coord.next].pc.Idle?
    case StartSpawning => s.coord == Sequential(c.volatile)
    case Spawn => s.coord.Spawning? && s.coord.next < c.Total() && s.coord.next < |s.mods|
    case StartJoining => s.coord == Spawning(c.Total())
    case Close => s.coord.Joining? && s.wg == 0
    case Local(i, act) => i < |s.mods| && CanAct(c, s, s.mods[i].pc, act)
    case Send(i) => i < |s.mods| && s.mods[i].pc.Sending? && !s.closed && |s.chan| < c.Total()
    case Receive => s.collecting && s.chan != [] && c.Total() > 0
    case Drain => s.collecting && s.chan == [] && s.closed
  }

  function Update(s: State, i: nat, m: Occurrence): State
    requires i < |s.mods|
  {
    s.(mods := s.mods[i := m])
  }

  function BeginOccurrence(s: State, m: Occurrence): Occurrence {
    m.(pc := if s.ctxDone then Sending(ContextDone, false) else Checking(1))
  }

  function SentOccurrence(c: Config, i: nat, m: Occurrence): Occurrence
    requires m.pc.Sending?
  {
    var Sending(out, slot) := m.pc;
    m.(pc := if !IsDisk(c, i) then Finished(out) else if slot then Releasing(out) else Leaving(out))
  }

  function Next(c: Config, s: State, step: Step): State
    requires Enabled(c, s, step)
  {
    match step
    case CancelContext => s.(ctxDone := true)
    case BeginVolatile => Update(s, s.coord.next, BeginOccurrence(s, s.mods[s.coord.next]))
    case StartSpawning => s.(coord := Spawning(c.volatile))
    case Spawn =>
      Update(s, s.coord.next, s.mods[s.coord.next].(pc := Waiting))
        .(coord := Spawning(s.coord.next + 1), wg := s.wg + 1)
    case StartJoining => s.(coord := Joining)
    case Close => s.(coord := Closed, closed := true)
    case Local(i, act) =>
      Update(s, i, Act(c, i, s.mods[i], act))
        .(sem := if act.Acquire? then s.sem + 1 else if act.Release? then s.sem - 1 else s.sem,
          wg := if act.Leave? then s.wg - 1 else s.wg)
    case Send(i) =>
      var post := Post(i, s.mods[i].pc.out);
      Update(s, i, SentOccurrence(c, i, s.mods[i]))
        .(chan := s.chan + [post],
          log := s.log + [post],
          coord := if IsDisk(c, i) then s.coord else Sequential(i + 1))
    case Receive =>
      var p := s.chan[0];
      s.(chan := s.chan[1..],
         completed := s.completed + 1,
         failed := if p.out.Success? then s.failed else s.failed + [p.who],
         progress := Progress(s.completed + 1, c.Total()))
    case Drain => s.(collecting := false)
  }

  /** A run: any sequence of states that starts initially and takes enabled steps. */
  ghost predicate IsRun(c: Config, run: seq<State>) {
    && run != []
    && run[0] == Initial(c)
    && forall j: nat :: j < |run| - 1 ==> StepAt(c, run, j)
  }

  ghost predicate StepAt(c: Config, run: seq<State>, j: nat)
    requires j < |run| - 1
  {
    CanStep(c, run[j], run[j + 1])
  }

  ghost predicate CanStep(c: Config, s: State, s': State) {
    exists step :: Enabled(c, s, step) && s' == Next(c, s, step)
  }

  /** The executor's own steps; the context may be cancelled from outside only. */
  ghost predicate CanProceed(c: Config, s: State) {
    exists step: Step :: step != CancelContext && Enabled(c, s, step)
  }

  // ----- Invariant -----

  predicate Posted(pc: Pc) { pc.Releasing? || pc.Leaving? || pc.Finished? }

  predicate InAttempt(pc: Pc) { pc.Checking? || pc.Executing? }

  predicate HasSlot(c: Config, i: nat, pc: Pc) {
    || (IsDisk(c, i) && InAttempt(pc))
    || (pc.Sending? && pc.slot)
    || pc.Releasing?
  }

  /** A goroutine that still owes a WaitGroup decrement. */
  predicate Counted(c: Config, i: nat, pc: Pc) {
    IsDisk(c, i) && !pc.Idle? && !pc.Finished?
  }

  function Holders(c: Config, mods: seq<Occurrence>): set<nat> {
    set i: nat | i < |mods| && HasSlot(c, i, mods[i].pc)
  }

  function Live(c: Config, mods: seq<Occurrence>): set<nat> {
    set i: nat | i < |mods| && Counted(c, i, mods[i].pc)
  }

  /** What an outcome says about the number of executions behind it. */
  predicate OutcomeOk(c: Config, out: Outcome, runs: nat) {
    match out
    case Success => 1 <= runs <= c.attempts
    case Exhausted => runs == c.attempts
    case Cancelled => runs < c.attempts
    case ContextDone => runs == 0
  }

  ghost predicate OccurrenceOk(c: Config, i: nat, m: Occurrence) {
    match m.pc
    case Idle => m.runs == 0
    case Waiting => IsDisk(c, i) && m.runs == 0
    case Checking(k) => 1 <= k <= c.attempts && m.runs == k - 1
    case Executing(k) => 1 <= k <= c.attempts && m.runs == k
    case Sending(out, slot) =>
      OutcomeOk(c, out, m.runs) && slot == (IsDisk(c, i) && out != ContextDone)
    case Releasing(out) => OutcomeOk(c, out, m.runs) && IsDisk(c, i)
    case Leaving(out) => OutcomeOk(c, out, m.runs) && IsDisk(c, i)
    case Finished(out) => OutcomeOk(c, out, m.runs)
  }

  ghost predicate OccurrencesOk(c: Config, mods: seq<Occurrence>) {
    |mods| == c.Total() && forall i: nat :: i < |mods| ==> OccurrenceOk(c, i, mods[i])
  }

  /** The coordinator's position fixes which occurrences are untouched and which have posted. */
  ghost predicate CoordinatorOk(c: Config, s: State)
    requires |s.mods| == c.Total()
  {
    match s.coord
    case Sequential(v) =>
      && v <= c.volatile
      && (forall i: nat :: i < v ==> s.mods[i].pc.Finished?)
      && (forall i: nat :: v < i < |s.mods| ==> s.mods[i].pc.Idle?)
      && (v == c.volatile && v < |s.mods| ==> s.mods[v].pc.Idle?)
      && (v < c.volatile ==> !s.mods[v].pc.Finished?)
    case Spawning(d) =>
      && c.volatile <= d <= c.Total()
      && VolatileFinished(c, s.mods)
      && (forall i: nat :: d <= i < |s.mods| ==> s.mods[i].pc.Idle?)
      && (forall i: nat :: c.volatile <= i < d ==> !s.mods[i].pc.Idle?)
    case Joining =>
      VolatileFinished(c, s.mods) && forall i: nat :: i < |s.mods| ==> !s.mods[i].pc.Idle?
    case Closed => forall i: nat :: i < |s.mods| ==> s.mods[i].pc.Finished?
  }

  ghost predicate VolatileFinished(c: Config, mods: seq<Occurrence>)
    requires c.volatile <= |mods|
  {
    forall i: nat :: i < c.volatile ==> mods[i].pc.Finished?
  }

  ghost predicate CountersOk(c: Config, s: State) {
    && s.sem == |Holders(c, s.mods)|
    && s.sem <= c.limit
    && s.wg == |Live(c, s.mods)|
    && (s.closed <==> s.coord.Closed?)
  }

  function PostedSet(mods: seq<Occurrence>): set<nat> {
    set i: nat | i < |mods| && Posted(mods[i].pc)
  }

  /** Every log entry is a posted occurrence with its own outcome. */
  ghost predicate LogSound(mods: seq<Occurrence>, log: seq<Post>) {
    forall p :: 0 <= p < |log| ==>
      && log[p].who < |mods|
      && Posted(mods[log[p].who].pc)
      && mods[log[p].who].pc.out == log[p].out
  }

  /** Every posted occurrence is logged. */
  ghost predicate LogComplete(mods: seq<Occurrence>, log: seq<Post>) {
    forall i: nat :: i < |mods| && Posted(mods[i].pc) ==> Post(i, mods[i].pc.out) in log
  }

  /** No occurrence posts twice. */
  ghost predicate LogDistinct(log: seq<Post>) {
    forall p, q :: 0 <= p < q < |log| ==> log[p].who != log[q].who
  }

  /** The first results are those of the memory modules, in list order. */
  ghost predicate LogOrdered(c: Config, log: seq<Post>) {
    forall p :: 0 <= p < |log| && p < c.volatile ==> log[p].who == p
  }

  ghost predicate LogOk(c: Config, mods: seq<Occurrence>, log: seq<Post>) {
    && LogSound(mods, log)
    && LogComplete(mods, log)
    && LogDistinct(log)
    && LogOrdered(c, log)
    && |log| == |PostedSet(mods)|
  }

  function FailedIn(posts: seq<Post>): seq<nat> {
    if posts == [] then []
    else
      var last := posts[|posts| - 1];
      FailedIn(posts[..|posts| - 1]) + (if last.out.Success? then [] else [last.who])
  }

  ghost predicate CollectorOk(c: Config, s: State) {
    && s.completed <= |s.log|
    && s.chan == s.log[s.completed..]
    && s.failed == FailedIn(s.log[..s.completed])
    && (if s.completed == 0 then s.progress == 0
        else c.Total() > 0 && s.progress == Progress(s.completed, c.Total()))
    && (!s.collecting ==> s.closed && s.chan == [])
  }

  ghost predicate Inv(c: Config, s: State) {
    && OccurrencesOk(c, s.mods)
    && CoordinatorOk(c, s)
    && CountersOk(c, s)
    && LogOk(c, s.mods, s.log)
    && CollectorOk(c, s)
  }

  // ----- Preservation -----

  lemma InitialInv(c: Config)
    requires c.Valid()
    ensures Inv(c, Initial(c))
  {
    var s := Initial(c);
    assert Holders(c, s.mods) == {};
    assert Live(c, s.mods) == {};
    assert PostedSet(s.mods) == {};
  }

  function Indices(n: nat): (r: set<nat>)
    ensures |r| == n
    ensures forall i: nat :: i in r <==> i < n
  {
    if n == 0 then {} else Indices(n - 1) + {n - 1}
  }

  lemma SubsetSize(a: set<nat>, b: set<nat>)
    requires a <= b
    ensures |a| <= |b|
    ensures |a| == |b| ==> a == b
  {
    assert |b - a| == |b| - |a|;
    if |a| == |b| { assert b - a == {}; }
  }

  // Rewriting one occurrence moves only that occurrence in or out of the counted sets.

  lemma HoldersAfterUpdate(c: Config, mods: seq<Occurrence>, i: nat, m: Occurrence)
    requires i < |mods|
    ensures |Holders(c, mods[i := m])| == |Holders(c, mods)|
            + (if HasSlot(c, i, m.pc) then 1 else 0) - (if HasSlot(c, i, mods[i].pc) then 1 else 0)
  {
    var rest := Holders(c, mods) - {i};
    assert Holders(c, mods) == if HasSlot(c, i, mods[i].pc) then rest + {i} else rest;
    assert Holders(c, mods[i := m]) == if HasSlot(c, i, m.pc) then rest + {i} else rest;
  }

  lemma LiveAfterUpdate(c: Config, mods: seq<Occurrence>, i: nat, m: Occurrence)
    requires i < |mods|
    ensures |Live(c, mods[i := m])| == |Live(c, mods)|
            + (if Counted(c, i, m.pc) then 1 else 0) - (if Counted(c, i, mods[i].pc) then 1 else 0)
  {
    var rest := Live(c, mods) - {i};
    assert Live(c, mods) == if Counted(c, i, mods[i].pc) then rest + {i} else rest;
    assert Live(c, mods[i := m]) == if Counted(c, i, m.pc) then rest + {i} else rest;
  }

  lemma PostedAfterUpdate(mods: seq<Occurrence>, i: nat, m: Occurrence)
    requires i < |mods|
    ensures |PostedSet(mods[i := m])| == |PostedSet(mods)|
            + (if Posted(m.pc) then 1 else 0) - (if Posted(mods[i].pc) then 1 else 0)
  {
    var rest := PostedSet(mods) - {i};
    assert PostedSet(mods) == if Posted(mods[i].pc) then rest + {i} else rest;
    assert PostedSet(mods[i := m]) == if Posted(m.pc) then rest + {i} else rest;
  }

  /** Progress of one goroutine that does not post leaves the log consistent. */
  lemma LogAfterUpdate(c: Config, mods: seq<Occurrence>, log: seq<Post>, i: nat, m: Occurrence)
    requires i < |mods| && LogOk(c, mods, log)
    requires Posted(m.pc) == Posted(mods[i].pc)
    requires Posted(m.pc) ==> m.pc.out == mods[i].pc.out
    ensures LogOk(c, mods[i := m], log)
  {
    PostedAfterUpdate(mods, i, m);
  }

  /** Appending the result of an occurrence that had not posted. */
  lemma LogAfterPost(c: Config, mods: seq<Occurrence>, log: seq<Post>, i: nat, m: Occurrence)
    requires i < |mods| && LogOk(c, mods, log)
    requires !Posted(mods[i].pc) && Posted(m.pc)
    requires |log| < c.volatile ==> i == |log|
    ensures LogOk(c, mods[i := m], log + [Post(i, m.pc.out)])
  {
    PostedAfterUpdate(mods, i, m);
    var mods', log' := mods[i := m], log + [Post(i, m.pc.out)];
    assert LogSound(mods', log');
    assert LogDistinct(log');
    forall j: nat | j < |mods'| && Posted(mods'[j].pc)
      ensures Post(j, mods'[j].pc.out) in log'
    {
      if j == i {
        assert log'[|log|] == Post(i, m.pc.out);
      } else {
        assert Post(j, mods[j].pc.out) in log;
      }
    }
  }

  /** The log is as long as the number of memory modules before i while i is in flight ... */
  lemma PostedBeforeVolatile(c: Config, s: State, i: nat)
    requires OccurrencesOk(c, s.mods) && CoordinatorOk(c, s)
    requires s.coord == Sequential(i) && i < c.volatile && !Posted(s.mods[i].pc)
    ensures |PostedSet(s.mods)| == i
  {
    assert PostedSet(s.mods) == Indices(i);
  }

  /** ... and at least as long as all of them once a disk module has started. */
  lemma PostedBeforeDisk(c: Config, s: State, i: nat)
    requires OccurrencesOk(c, s.mods) && CoordinatorOk(c, s)
    requires i < |s.mods| && IsDisk(c, i) && !s.mods[i].pc.Idle?
    ensures VolatileFinished(c, s.mods)
    ensures |PostedSet(s.mods)| >= c.volatile
  {
    assert VolatileFinished(c, s.mods);
    assert Indices(c.volatile) <= PostedSet(s.mods);
    SubsetSize(Indices(c.volatile), PostedSet(s.mods));
  }

  lemma RoomForOneMore(mods: seq<Occurrence>, i: nat)
    requires i < |mods| && !Posted(mods[i].pc)
    ensures |PostedSet(mods)| < |mods|
  {
    var posted := PostedSet(mods);
    SubsetSize(posted + {i}, Indices(|mods|));
  }

  /** A send finds room in the channel, and the channel still open. */
  lemma SendNeverBlocks(c: Config, s: State, i: nat)
    requires c.Valid() && Inv(c, s) && i < |s.mods| && s.mods[i].pc.Sending?
    ensures !s.closed && |s.chan| < c.Total()
    ensures Enabled(c, s, Send(i))
  {
    hide PostedSet, OccurrenceOk, FailedIn, Progress;
    RoomForOneMore(s.mods, i);
  }

  // ----- Preservation, one goroutine at a time -----

  /** One local action, seen from the occurrence alone. */
  lemma ActOk(c: Config, s: State, i: nat, m: Occurrence, act: Action)
    requires c.Valid() && OccurrenceOk(c, i, m) && CanAct(c, s, m.pc, act)
    ensures var m' := Act(c, i, m, act);
      && OccurrenceOk(c, i, m')
      && !m.pc.Idle? && !m.pc.Finished? && !m'.pc.Idle?
      && (m'.pc.Finished? ==> IsDisk(c, i))
      && Posted(m'.pc) == Posted(m.pc)
      && (Posted(m.pc) ==> m'.pc.out == m.pc.out)
      && (HasSlot(c, i, m'.pc) <==> (HasSlot(c, i, m.pc) || act.Acquire?) && !act.Release?)
      && (act.Acquire? ==> !HasSlot(c, i, m.pc))
      && (act.Release? ==> HasSlot(c, i, m.pc))
      && (Counted(c, i, m'.pc) <==> Counted(c, i, m.pc) && !act.Leave?)
      && (act.Leave? ==> Counted(c, i, m.pc))
  {
  }

  /** The coordinator's promise survives any change of an occurrence that is under way. */
  lemma CoordinatorAfterUpdate(c: Config, s: State, i: nat, m: Occurrence)
    requires |s.mods| == c.Total() && CoordinatorOk(c, s) && i < |s.mods|
    requires !s.mods[i].pc.Idle? && !s.mods[i].pc.Finished? && !m.pc.Idle?
    requires m.pc.Finished? ==> IsDisk(c, i)
    ensures CoordinatorOk(c, Update(s, i, m))
  {
  }

  lemma OccurrencesAfterUpdate(c: Config, mods: seq<Occurrence>, i: nat, m: Occurrence)
    requires OccurrencesOk(c, mods) && i < |mods| && OccurrenceOk(c, i, m)
    ensures OccurrencesOk(c, mods[i := m])
  {
  }

  lemma CountersAfterLocal(c: Config, s: State, i: nat, act: Action)
    requires c.Valid() && OccurrencesOk(c, s.mods) && CountersOk(c, s) && Enabled(c, s, Local(i, act))
    ensures CountersOk(c, Next(c, s, Local(i, act)))
  {
    var m := Act(c, i, s.mods[i], act);
    ActOk(c, s, i, s.mods[i], act);
    HoldersAfterUpdate(c, s.mods, i, m);
    LiveAfterUpdate(c, s.mods, i, m);
  }

  lemma LocalInv(c: Config, s: State, i: nat, act: Action)
    requires c.Valid() && Inv(c, s) && Enabled(c, s, Local(i, act))
    ensures Inv(c, Next(c, s, Local(i, act)))
  {
    var m := Act(c, i, s.mods[i], act);
    ActOk(c, s, i, s.mods[i], act);
    OccurrencesAfterUpdate(c, s.mods, i, m);
    CoordinatorAfterUpdate(c, s, i, m);
    CountersAfterLocal(c, s, i, act);
    LogAfterUpdate(c, s.mods, s.log, i, m);
  }

  lemma BeginVolatileInv(c: Config, s: State)
    requires c.Valid() && Inv(c, s) && Enabled(c, s, BeginVolatile)
    ensures Inv(c, Next(c, s, BeginVolatile))
  {
    var i := s.coord.next;
    var m := BeginOccurrence(s, s.mods[i]);
    assert OccurrenceOk(c, i, s.mods[i]);
    OccurrencesAfterUpdate(c, s.mods, i, m);
    HoldersAfterUpdate(c, s.mods, i, m);
    LiveAfterUpdate(c, s.mods, i, m);
    LogAfterUpdate(c, s.mods, s.log, i, m);
  }

  lemma CoordinatorAfterSpawn(c: Config, s: State)
    requires |s.mods| == c.Total() && CoordinatorOk(c, s) && Enabled(c, s, Spawn)
    ensures CoordinatorOk(c, Next(c, s, Spawn))
  {
  }

  lemma CountersAfterSpawn(c: Config, s: State)
    requires |s.mods| == c.Total() && CoordinatorOk(c, s) && CountersOk(c, s) && Enabled(c, s, Spawn)
    ensures CountersOk(c, Next(c, s, Spawn))
  {
    var i := s.coord.next;
    var m := s.mods[i].(pc := Waiting);
    HoldersAfterUpdate(c, s.mods, i, m);
    LiveAfterUpdate(c, s.mods, i, m);
  }

  lemma SpawnInv(c: Config, s: State)
    requires c.Valid() && Inv(c, s) && Enabled(c, s, Spawn)
    ensures Inv(c, Next(c, s, Spawn))
  {
    var i := s.coord.next;
    var m := s.mods[i].(pc := Waiting);
    assert OccurrenceOk(c, i, s.mods[i]);
    OccurrencesAfterUpdate(c, s.mods, i, m);
    LogAfterUpdate(c, s.mods, s.log, i, m);
    CoordinatorAfterSpawn(c, s);
    CountersAfterSpawn(c, s);
  }

  lemma CloseInv(c: Config, s: State)
    requires c.Valid() && Inv(c, s) && Enabled(c, s, Close)
    ensures Inv(c, Next(c, s, Close))
  {
    forall i: nat | i < |s.mods| ensures s.mods[i].pc.Finished? {
      assert i !in Live(c, s.mods);
    }
  }

  lemma CoordinatorAfterSend(c: Config, s: State, i: nat, m: Occurrence)
    requires |s.mods| == c.Total() && CoordinatorOk(c, s) && i < |s.mods|
    requires s.mods[i].pc.Sending? && !IsDisk(c, i) && m.pc.Finished?
    ensures s.coord == Sequential(i)
    ensures CoordinatorOk(c, Update(s, i, m).(coord := Sequential(i + 1)))
  {
  }

  lemma SendLog(c: Config, s: State, i: nat)
    requires c.Valid() && Inv(c, s) && Enabled(c, s, Send(i))
    ensures LogOk(c, Next(c, s, Send(i)).mods, Next(c, s, Send(i)).log)
  {
    var m := SentOccurrence(c, i, s.mods[i]);
    if IsDisk(c, i) {
      PostedBeforeDisk(c, s, i);
    } else {
      CoordinatorAfterSend(c, s, i, m);
      PostedBeforeVolatile(c, s, i);
    }
    LogAfterPost(c, s.mods, s.log, i, m);
  }

  lemma CollectorAfterSend(c: Config, s: State, i: nat)
    requires Enabled(c, s, Send(i)) && CollectorOk(c, s)
    ensures CollectorOk(c, Next(c, s, Send(i)))
  {
    var log' := Next(c, s, Send(i)).log;
    assert log'[..s.completed] == s.log[..s.completed];
    assert s.chan + [Post(i, s.mods[i].pc.out)] == log'[s.completed..];
  }

  lemma CountersAfterSend(c: Config, s: State, i: nat)
    requires OccurrencesOk(c, s.mods) && CountersOk(c, s) && Enabled(c, s, Send(i))
    requires !IsDisk(c, i) ==> s.coord == Sequential(i)
    ensures CountersOk(c, Next(c, s, Send(i)))
  {
    var m := SentOccurrence(c, i, s.mods[i]);
    assert OccurrenceOk(c, i, s.mods[i]);
    HoldersAfterUpdate(c, s.mods, i, m);
    LiveAfterUpdate(c, s.mods, i, m);
  }

  lemma SendInv(c: Config, s: State, i: nat)
    requires c.Valid() && Inv(c, s) && Enabled(c, s, Send(i))
    ensures Inv(c, Next(c, s, Send(i)))
  {
    hide Holders, Live, PostedSet, FailedIn, Progress;
    var m := SentOccurrence(c, i, s.mods[i]);
    assert OccurrenceOk(c, i, s.mods[i]);
    OccurrencesAfterUpdate(c, s.mods, i, m);
    if IsDisk(c, i) { CoordinatorAfterUpdate(c, s, i, m); } else { CoordinatorAfterSend(c, s, i, m); }
    CountersAfterSend(c, s, i);
    SendLog(c, s, i);
    CollectorAfterSend(c, s, i);
  }

  lemma ReceiveCollector(c: Config, s: State)
    requires CollectorOk(c, s) && Enabled(c, s, Receive)
    ensures CollectorOk(c, Next(c, s, Receive))
  {
    hide FailedIn, Progress;
    var k := s.completed;
    assert s.chan[0] == s.log[k];
    FailedInNext(s.log, k);
  }

  lemma FailedInNext(log: seq<Post>, k: nat)
    requires k < |log|
    ensures FailedIn(log[..k + 1]) == FailedIn(log[..k]) + (if log[k].out.Success? then [] else [log[k].who])
  {
    assert log[..k + 1][..k] == log[..k];
  }

  /** Steps that leave every occurrence, the log and the collected results alone. */
  lemma ControlInv(c: Config, s: State, step: Step)
    requires c.Valid() && Inv(c, s) && Enabled(c, s, step)
    requires step.CancelContext? || step.StartSpawning? || step.StartJoining? || step.Drain?
    ensures Inv(c, Next(c, s, step))
  {
    if step.StartSpawning? || step.StartJoining? { CoordinatorAfterPhase(c, s, step); }
  }

  lemma CoordinatorAfterPhase(c: Config, s: State, step: Step)
    requires |s.mods| == c.Total() && CoordinatorOk(c, s) && Enabled(c, s, step)
    requires step.StartSpawning? || step.StartJoining?
    ensures CoordinatorOk(c, Next(c, s, step))
  {
  }

  lemma ReceiveInv(c: Config, s: State)
    requires c.Valid() && Inv(c, s) && Enabled(c, s, Receive)
    ensures Inv(c, Next(c, s, Receive))
  {
    ReceiveCollector(c, s);
    assert CoordinatorOk(c, Next(c, s, Receive));
  }

  lemma StepInv(c: Config, s: State, step: Step)
    requires c.Valid() && Inv(c, s) && Enabled(c, s, step)
    ensures Inv(c, Next(c, s, step))
  {
    match step
    case BeginVolatile => BeginVolatileInv(c, s);
    case Spawn => SpawnInv(c, s);
    case Close => CloseInv(c, s);
    case Local(i, act) => LocalInv(c, s, i, act);
    case Send(i) => SendInv(c, s, i);
    case Receive => ReceiveInv(c, s);
    case _ => ControlInv(c, s, step);
  }

  lemma CanStepInv(c: Config, s: State, s': State)
    requires c.Valid() && Inv(c, s) && CanStep(c, s, s')
    ensures Inv(c, s')
  {
    var step :| Enabled(c, s, step) && s' == Next(c, s, step);
    StepInv(c, s, step);
  }

  lemma {:induction false} RunInv(c: Config, run: seq<State>, j: nat)
    requires c.Valid() && IsRun(c, run) && j < |run|
    ensures Inv(c, run[j])
  {
    if j == 0 {
      InitialInv(c);
    } else {
      RunInv(c, run, j - 1);
      assert StepAt(c, run, j - 1);
      CanStepInv(c, run[j - 1], run[j]);
    }
  }

  // ----- Safety over every run -----

  predicate InFlight(pc: Pc) { !pc.Idle? && !Posted(pc) }

  /**
   Order of volatility and bounded concurrency: whenever a disk module has been touched at all,
   every memory module has posted; at most one memory module is in flight; and no more than
   `limit` disk modules hold a slot.
   */
  lemma OrderOfVolatility(c: Config, run: seq<State>, j: nat)
    requires c.Valid() && IsRun(c, run) && j < |run|
    ensures |run[j].mods| == c.Total()
    ensures forall d: nat :: d < c.Total() && IsDisk(c, d) && !run[j].mods[d].pc.Idle? ==>
              forall v: nat :: v < c.volatile ==> Posted(run[j].mods[v].pc)
    ensures forall v: nat, w: nat | v < c.volatile && w < c.volatile ::
              InFlight(run[j].mods[v].pc) && InFlight(run[j].mods[w].pc) ==> v == w
    ensures |set d: nat | d < c.Total() && IsDisk(c, d) && InAttempt(run[j].mods[d].pc)| <= c.limit
    ensures |Holders(c, run[j].mods)| <= c.limit
  {
    var s := run[j];
    RunInv(c, run, j);
    var busy := set d: nat | d < c.Total() && IsDisk(c, d) && InAttempt(s.mods[d].pc);
    assert busy <= Holders(c, s.mods);
    SubsetSize(busy, Holders(c, s.mods));
  }

  /** Each occurrence is executed at most `attempts` times and posts at most once, as it ended. */
  lemma BoundedRetriesOnePost(c: Config, run: seq<State>, j: nat)
    requires c.Valid() && IsRun(c, run) && j < |run|
    ensures |run[j].mods| == c.Total()
    ensures forall i: nat :: i < c.Total() ==> run[j].mods[i].runs <= c.attempts
    ensures forall p, q :: 0 <= p < q < |run[j].log| ==> run[j].log[p].who != run[j].log[q].who
    ensures forall p :: 0 <= p < |run[j].log| ==>
              && run[j].log[p].who < c.Total()
              && OutcomeOk(c, run[j].log[p].out, run[j].mods[run[j].log[p].who].runs)
    ensures forall p :: 0 <= p < |run[j].log| && p < c.volatile ==> run[j].log[p].who == p
  {
    RunInv(c, run, j);
    var s := run[j];
    forall i: nat | i < c.Total() ensures s.mods[i].runs <= c.attempts {
      assert OccurrenceOk(c, i, s.mods[i]);
    }
    forall p | 0 <= p < |s.log| ensures OutcomeOk(c, s.log[p].out, s.mods[s.log[p].who].runs) {
      assert OccurrenceOk(c, s.log[p].who, s.mods[s.log[p].who]);
    }
  }

  // ----- Termination -----

  function Rank(c: Config, pc: Pc): nat {
    match pc
    case Idle => 2 * c.attempts + 8
    case Waiting => 2 * c.attempts + 7
    case Checking(k) => if k <= c.attempts then 2 * (c.attempts - k) + 6 else 6
    case Executing(k) => if k <= c.attempts then 2 * (c.attempts - k) + 5 else 5
    case Sending(_, _) => 4
    case Releasing(_) => 2
    case Leaving(_) => 1
    case Finished(_) => 0
  }

  function RankSum(c: Config, mods: seq<Occurrence>): nat {
    if mods == [] then 0 else RankSum(c, mods[..|mods| - 1]) + Rank(c, mods[|mods| - 1].pc)
  }

  function CoordinatorRank(c: Config, coord: Coordinator): nat {
    match coord
    case Sequential(v) => (if v <= c.volatile then c.volatile - v else 0) + c.disk + 3
    case Spawning(d) => (if d <= c.Total() then c.Total() - d else 0) + 2
    case Joining => 1
    case Closed => 0
  }

  /** Strictly decreased by every step, including the one cancellation of the context. */
  function Measure(c: Config, s: State): nat {
    RankSum(c, s.mods) + CoordinatorRank(c, s.coord) + |s.chan|
    + (if s.collecting then 1 else 0) + (if s.ctxDone then 0 else 1)
  }

  lemma {:induction false} RankSumAfterUpdate(c: Config, mods: seq<Occurrence>, i: nat, m: Occurrence)
    requires i < |mods|
    ensures RankSum(c, mods[i := m]) == RankSum(c, mods) - Rank(c, mods[i].pc) + Rank(c, m.pc)
  {
    var n := |mods| - 1;
    if i == n {
      assert mods[i := m][..n] == mods[..n];
    } else {
      RankSumAfterUpdate(c, mods[..n], i, m);
      assert mods[i := m][..n] == mods[..n][i := m];
    }
  }

  lemma {:induction false} RankSumInitial(c: Config, n: nat)
    ensures RankSum(c, seq(n, _ => Occurrence(Idle, 0))) == n * (2 * c.attempts + 8)
  {
    if n > 0 {
      RankSumInitial(c, n - 1);
      assert seq(n, _ => Occurrence(Idle, 0))[..n - 1] == seq(n - 1, _ => Occurrence(Idle, 0));
    }
  }

  lemma ActDecreases(c: Config, s: State, i: nat, m: Occurrence, act: Action)
    requires c.Valid() && OccurrenceOk(c, i, m) && CanAct(c, s, m.pc, act)
    ensures Rank(c, Act(c, i, m, act).pc) < Rank(c, m.pc)
  {
  }

  lemma ModuleStepDecreases(c: Config, s: State, step: Step)
    requires c.Valid() && OccurrencesOk(c, s.mods) && Enabled(c, s, step)
    requires step.Local? || step.BeginVolatile? || step.Spawn?
    requires step.Spawn? ==> s.mods[s.coord.next].pc.Idle?
    ensures Measure(c, Next(c, s, step)) < Measure(c, s)
  {
    match step
    case BeginVolatile =>
      RankSumAfterUpdate(c, s.mods, s.coord.next, BeginOccurrence(s, s.mods[s.coord.next]));
    case Spawn =>
      RankSumAfterUpdate(c, s.mods, s.coord.next, s.mods[s.coord.next].(pc := Waiting));
    case Local(i, act) =>
      ActDecreases(c, s, i, s.mods[i], act);
      RankSumAfterUpdate(c, s.mods, i, Act(c, i, s.mods[i], act));
  }

  lemma SendDecreases(c: Config, s: State, i: nat)
    requires Enabled(c, s, Send(i))
    requires !IsDisk(c, i) ==> s.coord == Sequential(i)
    ensures Measure(c, Next(c, s, Send(i))) < Measure(c, s)
  {
    RankSumAfterUpdate(c, s.mods, i, SentOccurrence(c, i, s.mods[i]));
  }

  lemma StepDecreases(c: Config, s: State, step: Step)
    requires c.Valid() && Inv(c, s) && Enabled(c, s, step)
    ensures Measure(c, Next(c, s, step)) < Measure(c, s)
  {
    hide RankSum, LogOk, CountersOk, FailedIn, Progress;
    match step
    case BeginVolatile => ModuleStepDecreases(c, s, step);
    case Spawn => ModuleStepDecreases(c, s, step);
    case Local(i, act) => ModuleStepDecreases(c, s, step);
    case Send(i) =>
      if !IsDisk(c, i) { CoordinatorAfterSend(c, s, i, SentOccurrence(c, i, s.mods[i])); }
      SendDecreases(c, s, i);
    case _ =>
  }

  lemma CanStepDecreases(c: Config, s: State, s': State)
    requires c.Valid() && Inv(c, s) && CanStep(c, s, s')
    ensures Measure(c, s') < Measure(c, s)
  {
    var step :| Enabled(c, s, step) && s' == Next(c, s, step);
    StepDecreases(c, s, step);
  }

  lemma {:induction false} MeasureAlongRun(c: Config, run: seq<State>, j: nat)
    requires c.Valid() && IsRun(c, run) && j < |run|
    ensures Measure(c, run[j]) + j <= Measure(c, run[0])
  {
    hide Measure, Inv, CanStep;
    if j > 0 {
      MeasureAlongRun(c, run, j - 1);
      RunInv(c, run, j - 1);
      assert StepAt(c, run, j - 1);
      CanStepDecreases(c, run[j - 1], run[j]);
    }
  }

  /** No run takes more than this many steps, whatever the interleaving. */
  lemma RunsAreBounded(c: Config, run: seq<State>)
    requires c.Valid() && IsRun(c, run)
    ensures |run| - 1 <= c.Total() * (2 * c.attempts + 8) + c.Total() + 5
  {
    MeasureAlongRun(c, run, |run| - 1);
    RankSumInitial(c, c.Total());
  }

  // ----- Deadlock freedom -----

  /** A goroutine that is inside its slot can always move. */
  lemma HolderCanProceed(c: Config, s: State, i: nat)
    requires c.Valid() && Inv(c, s) && i < |s.mods|
    requires s.mods[i].pc.Checking? || s.mods[i].pc.Executing? || s.mods[i].pc.Sending? || s.mods[i].pc.Releasing?
    ensures CanProceed(c, s)
  {
    match s.mods[i].pc
    case Checking(_) => assert Enabled(c, s, Local(i, CheckPasses));
    case Executing(_) => assert Enabled(c, s, Local(i, ExecSucceeds));
    case Sending(_, _) => SendNeverBlocks(c, s, i);
    case Releasing(_) =>
      assert i in Holders(c, s.mods);
      assert Enabled(c, s, Local(i, Release));
  }

  lemma JoiningCanProceed(c: Config, s: State)
    requires c.Valid() && Inv(c, s) && s.coord.Joining?
    ensures CanProceed(c, s)
  {
    if s.wg == 0 {
      assert Enabled(c, s, Close);
    } else {
      var i :| i in Live(c, s.mods);
      match s.mods[i].pc
      case Waiting =>
        if s.sem < c.limit {
          assert Enabled(c, s, Local(i, Acquire));
        } else {
          var h :| h in Holders(c, s.mods);
          HolderCanProceed(c, s, h);
        }
      case Leaving(_) => assert Enabled(c, s, Local(i, Leave));
      case Idle => assert false;
      case Finished(_) => assert false;
      case _ => HolderCanProceed(c, s, i);
    }
  }

  lemma SequentialCanProceed(c: Config, s: State)
    requires c.Valid() && Inv(c, s) && s.coord.Sequential? && s.collecting
    ensures CanProceed(c, s)
  {
    hide OutcomeOk, CountersOk, LogOk, CollectorOk;
    var v := s.coord.next;
    if v == c.volatile {
      assert Enabled(c, s, StartSpawning);
    } else if s.mods[v].pc.Idle? {
      assert Enabled(c, s, BeginVolatile);
    } else {
      assert OccurrenceOk(c, v, s.mods[v]);
      HolderCanProceed(c, s, v);
    }
  }

  lemma ClosedCanProceed(c: Config, s: State)
    requires CollectorOk(c, s) && LogSound(s.mods, s.log) && |s.mods| == c.Total()
    requires s.coord.Closed? && s.closed && s.collecting
    ensures CanProceed(c, s)
  {
    hide FailedIn, Progress;
    if s.chan == [] {
      assert Enabled(c, s, Drain);
    } else {
      assert s.chan[0] == s.log[s.completed];
      assert Enabled(c, s, Receive);
    }
  }

  lemma DoneCannotProceed(c: Config, s: State)
    requires c.Valid() && Inv(c, s) && !s.collecting
    ensures !CanProceed(c, s)
  {
    hide Holders, Live, LogOk, FailedIn, Progress, OccurrenceOk;
    forall step: Step | step != CancelContext ensures !Enabled(c, s, step) {
    }
  }

  /** Until the collector has drained the closed channel some goroutine can take a step. */
  lemma NeverDeadlocks(c: Config, s: State)
    requires c.Valid() && Inv(c, s)
    ensures s.collecting <==> CanProceed(c, s)
  {
    hide Holders, Live, PostedSet, FailedIn, Progress, OccurrenceOk;
    if !s.collecting {
      DoneCannotProceed(c, s);
    } else {
      match s.coord
      case Sequential(_) => SequentialCanProceed(c, s);
      case Spawning(d) =>
        assert Enabled(c, s, if d < c.Total() then Spawn else StartJoining);
      case Joining => JoiningCanProceed(c, s);
      case Closed => ClosedCanProceed(c, s);
    }
  }

  // ----- Verdict -----

  /** The collector's test after its loop. */
  predicate AllFailedVerdict(c: Config, s: State) {
    |s.failed| == c.Total() && c.Total() > 0
  }

  lemma {:induction false} FailedCount(posts: seq<Post>)
    ensures |FailedIn(posts)| <= |posts|
    ensures |FailedIn(posts)| == |posts| <==> forall p :: 0 <= p < |posts| ==> !posts[p].out.Success?
  {
    if posts != [] {
      var init := posts[..|posts| - 1];
      FailedCount(init);
      assert forall p :: 0 <= p < |init| ==> init[p] == posts[p];
      assert posts[|posts| - 1] in posts;
    }
  }

  lemma QuotientTimes(a: real, t: real)
    requires t > 0.0
    ensures a / t * t == a
  {
  }

  lemma DifferenceTimes(x: real, y: real, t: real)
    ensures (y - x) * t == y * t - x * t
  {
  }

  lemma SignOfFactor(x: real, t: real)
    requires t > 0.0
    ensures x * t >= 0.0 ==> x >= 0.0
    ensures x * t > 0.0 ==> x > 0.0
    ensures x * t == 0.0 ==> x == 0.0
  {
  }

  lemma FractionOrder(a: nat, b: nat, total: nat)
    requires a <= b <= total && total > 0
    ensures 0.0 <= a as real / total as real <= b as real / total as real <= 1.0
    ensures b == total <==> b as real / total as real == 1.0
  {
    var t := total as real;
    var x, y := a as real / t, b as real / t;
    QuotientTimes(a as real, t);
    QuotientTimes(b as real, t);
    DifferenceTimes(x, y, t);
    DifferenceTimes(y, 1.0, t);
    SignOfFactor(x, t);
    SignOfFactor(y - x, t);
    SignOfFactor(1.0 - y, t);
  }

  lemma ProgressBounds(a: nat, b: nat, total: nat)
    requires a <= b <= total && total > 0
    ensures 0 <= Progress(a, total) <= Progress(b, total) <= 100
    ensures Progress(b, total) == 100 <==> b == total
  {
    FractionOrder(a, b, total);
  }

  lemma VerdictFromLog(c: Config, mods: seq<Occurrence>, log: seq<Post>)
    requires LogSound(mods, log) && LogComplete(mods, log)
    requires |mods| == c.Total() == |log|
    requires forall i: nat :: i < |mods| ==> mods[i].pc.Finished?
    ensures |FailedIn(log)| == c.Total() <==> forall i: nat :: i < c.Total() ==> !mods[i].pc.out.Success?
  {
    FailedCount(log);
    if forall p :: 0 <= p < |log| ==> !log[p].out.Success? {
      forall i: nat | i < c.Total() ensures !mods[i].pc.out.Success? {
        assert Post(i, mods[i].pc.out) in log;
      }
    }
    if forall i: nat :: i < c.Total() ==> !mods[i].pc.out.Success? {
      forall p | 0 <= p < |log| ensures !log[p].out.Success? {
        assert mods[log[p].who].pc.out == log[p].out;
      }
    }
  }

  lemma AllPosted(mods: seq<Occurrence>)
    requires forall i: nat :: i < |mods| ==> mods[i].pc.Finished?
    ensures |PostedSet(mods)| == |mods|
  {
    assert PostedSet(mods) == Indices(|mods|);
  }

  /** Where no goroutine can move any more, everything has been collected and the verdict is right. */
  lemma FinalState(c: Config, s: State)
    requires c.Valid() && Inv(c, s) && !s.collecting
    ensures s.completed == c.Total() == |s.log|
    ensures forall i: nat :: i < c.Total() ==> s.mods[i].pc.Finished? && Post(i, s.mods[i].pc.out) in s.log
    ensures AllFailedVerdict(c, s) <==>
            c.Total() > 0 && forall i: nat :: i < c.Total() ==> !s.mods[i].pc.out.Success?
    ensures c.Total() > 0 ==> s.progress == 100
  {
    hide PostedSet, Holders, Live, OccurrenceOk, FailedIn, Progress;
    AllPosted(s.mods);
    assert s.log[..s.completed] == s.log;
    VerdictFromLog(c, s.mods, s.log);
    if c.Total() > 0 { ProgressBounds(s.completed, s.completed, c.Total()); }
  }

  /**
   Every run that cannot be continued by the executor has collected one result per occurrence,
   shows 100 percent, and is judged "all modules failed" exactly when no module succeeded.
   */
  lemma MaximalRunVerdict(c: Config, run: seq<State>)
    requires c.Valid() && IsRun(c, run) && !CanProceed(c, run[|run| - 1])
    ensures var s := run[|run| - 1];
      && !s.collecting
      && |s.mods| == c.Total() && s.completed == c.Total() == |s.log|
      && (forall i: nat :: i < c.Total() ==> s.mods[i].pc.Finished? && Post(i, s.mods[i].pc.out) in s.log)
      && (AllFailedVerdict(c, s) <==>
          c.Total() > 0 && forall i: nat :: i < c.Total() ==> !s.mods[i].pc.out.Success?)
      && (c.Total() > 0 ==> s.progress == 100)
  {
    RunInv(c, run, |run| - 1);
    NeverDeadlocks(c, run[|run| - 1]);
    FinalState(c, run[|run| - 1]);
  }

  lemma CompletedBounded(c: Config, s: State)
    requires c.Valid() && Inv(c, s)
    ensures s.completed + |s.chan| <= c.Total()
  {
    assert PostedSet(s.mods) <= Indices(c.Total());
    SubsetSize(PostedSet(s.mods), Indices(c.Total()));
  }

  lemma StepProgress(c: Config, s: State, step: Step)
    requires c.Valid() && Enabled(c, s, step)
    requires CollectorOk(c, s) && s.completed < c.Total()
    ensures s.completed <= Next(c, s, step).completed
    ensures s.progress <= Next(c, s, step).progress
  {
    if step.Receive? { ProgressBounds(s.completed, s.completed + 1, c.Total()); }
  }

  lemma ProgressInRange(c: Config, s: State)
    requires c.Valid() && Inv(c, s)
    ensures 0 <= s.progress <= 100
  {
    CompletedBounded(c, s);
    if s.completed > 0 { ProgressBounds(s.completed, s.completed, c.Total()); }
  }

  lemma ProgressOfOneStep(c: Config, run: seq<State>, j: nat)
    requires c.Valid() && IsRun(c, run) && j + 1 < |run|
    ensures run[j].completed <= run[j + 1].completed
    ensures run[j].progress <= run[j + 1].progress
  {
    RunInv(c, run, j);
    CompletedBounded(c, run[j]);
    assert StepAt(c, run, j);
    var step :| Enabled(c, run[j], step) && run[j + 1] == Next(c, run[j], step);
    if run[j].completed < c.Total() {
      StepProgress(c, run[j], step);
    } else if step.Receive? {
      assert false;
    }
  }

  /** Reported progress never goes back and never exceeds 100. */
  lemma {:induction false} ProgressMonotone(c: Config, run: seq<State>, j: nat, k: nat)
    requires c.Valid() && IsRun(c, run) && j <= k < |run|
    ensures run[j].completed <= run[k].completed
    ensures 0 <= run[j].progress <= run[k].progress <= 100
    decreases k - j
  {
    if j < k {
      ProgressMonotone(c, run, j, k - 1);
      ProgressOfOneStep(c, run, k - 1);
    }
    ProgressWithinRun(c, run, k);
  }

  lemma ProgressWithinRun(c: Config, run: seq<State>, k: nat)
    requires c.Valid() && IsRun(c, run) && k < |run|
    ensures 0 <= run[k].progress <= 100
  {
    RunInv(c, run, k);
    ProgressInRange(c, run[k]);
  }

  // ----- The sequential pieces of Run -----

  /** Memory modules are recognised by name. */
  predicate IsVolatileId(id: string) {
    Contains(Lower(id), "memory_acquisition") || Contains(Lower(id), "memdump")
  }

  /** A memory module names one of two tools anywhere in its id, in any case. */
  lemma VolatileMeans(id: string)
    ensures IsVolatileId(id) <==>
            exists a, b :: Lower(id) == a + "memory_acquisition" + b || Lower(id) == a + "memdump" + b
  {
    ContainsMeans(Lower(id), "memory_acquisition");
    ContainsMeans(Lower(id), "memdump");
  }

  /** The modules of one kind, in order. */
  function Part(ids: seq<string>, volatile: bool): seq<string> {
    if ids == [] then []
    else
      var n := |ids| - 1;
      Part(ids[..n], volatile) + if IsVolatileId(ids[n]) == volatile then [ids[n]] else []
  }

  lemma PartNext(ids: seq<string>, volatile: bool, id: string)
    ensures Part(ids + [id], volatile) == Part(ids, volatile) + if IsVolatileId(id) == volatile then [id] else []
  {
    assert (ids + [id])[..|ids|] == ids;
  }

  /** Splits the module list: every occurrence lands in exactly one part, order kept. */
  method Partition(ids: seq<string>) returns (volatile: seq<string>, disk: seq<string>)
    ensures multiset(volatile) + multiset(disk) == multiset(ids)
    ensures forall id :: id in volatile ==> IsVolatileId(id)
    ensures forall id :: id in disk ==> !IsVolatileId(id)
    ensures Subsequence(volatile, ids) && Subsequence(disk, ids)
    ensures volatile == Part(ids, true) && disk == Part(ids, false)
    ensures forall id :: id in volatile <==>
              id in ids && exists a, b :: Lower(id) == a + "memory_acquisition" + b || Lower(id) == a + "memdump" + b
    ensures forall id :: id in disk <==>
              id in ids && !exists a, b :: Lower(id) == a + "memory_acquisition" + b || Lower(id) == a + "memdump" + b
  {
    hide IsVolatileId, Subsequence, Part;
    volatile, disk := [], [];
    NothingLeftOut();
    NoPart();
    assert ids[..0] == [];
    for i := 0 to |ids|
      invariant multiset(volatile) + multiset(disk) == multiset(ids[..i])
      invariant forall id :: id in volatile ==> IsVolatileId(id)
      invariant forall id :: id in disk ==> !IsVolatileId(id)
      invariant Subsequence(volatile, ids[..i]) && Subsequence(disk, ids[..i])
      invariant volatile == Part(ids[..i], true) && disk == Part(ids[..i], false)
    {
      PartNext(ids[..i], true, ids[i]);
      PartNext(ids[..i], false, ids[i]);
      assert ids[..i + 1] == ids[..i] + [ids[i]];
      LongerSubsequence(volatile, ids[..i], ids[i]);
      LongerSubsequence(disk, ids[..i], ids[i]);
      if IsVolatileId(ids[i]) {
        volatile := volatile + [ids[i]];
      } else {
        disk := disk + [ids[i]];
      }
    }
    assert ids[..|ids|] == ids;
    WhichIsWhich(ids, volatile, disk);
  }

  lemma WhichIsWhich(ids: seq<string>, volatile: seq<string>, disk: seq<string>)
    requires multiset(volatile) + multiset(disk) == multiset(ids)
    requires (forall id :: id in volatile ==> IsVolatileId(id)) && (forall id :: id in disk ==> !IsVolatileId(id))
    ensures forall id :: id in volatile <==>
              id in ids && exists a, b :: Lower(id) == a + "memory_acquisition" + b || Lower(id) == a + "memdump" + b
    ensures forall id :: id in disk <==>
              id in ids && !exists a, b :: Lower(id) == a + "memory_acquisition" + b || Lower(id) == a + "memdump" + b
  {
    hide IsVolatileId;
    forall id ensures id in ids <==> id in volatile || id in disk {
      assert id in ids <==> id in multiset(ids);
      assert id in volatile <==> id in multiset(volatile);
      assert id in disk <==> id in multiset(disk);
    }
    forall id
      ensures IsVolatileId(id) <==> exists a, b :: Lower(id) == a + "memory_acquisition" + b || Lower(id) == a + "memdump" + b
    {
      VolatileMeans(id);
    }
  }

  lemma NoPart()
    ensures forall volatile :: Part([], volatile) == []
  {
  }

  lemma NothingLeftOut()
    ensures Subsequence([], [])
  {
  }

  lemma LongerSubsequence(part: seq<string>, whole: seq<string>, x: string)
    requires Subsequence(part, whole)
    ensures Subsequence(part, whole + [x]) && Subsequence(part + [x], whole + [x])
  {
    assert (whole + [x])[..|whole|] == whole && (part + [x])[..|part|] == part;
  }

  /** `part` is `whole` with some elements left out. */
  ghost predicate Subsequence(part: seq<string>, whole: seq<string>) {
    if whole == [] then part == []
    else
      var n := |whole| - 1;
      || Subsequence(part, whole[..n])
      || (part != [] && part[|part| - 1] == whole[n] && Subsequence(part[..|part| - 1], whole[..n]))
  }

  /** How a module's attempts end, with the cancellation check and the run at attempt k given as oracles. */
  ghost predicate Retried(attempts: nat, passes: nat -> bool, runs: nat -> bool, out: Outcome, executed: nat) {
    && executed <= attempts
    && (forall k: nat :: 1 <= k <= executed ==> passes(k))
    && (forall k: nat :: 1 <= k < executed ==> !runs(k))
    && match out
       case Success => executed >= 1 && runs(executed)
       case Exhausted => executed == attempts && (executed >= 1 ==> !runs(executed))
       case Cancelled => executed < attempts && !passes(executed + 1) && (executed >= 1 ==> !runs(executed))
       case ContextDone => false
  }

  /**
   The retry loop of one module, with the cancellation check and the module's own run at attempt
   k given as oracles: it succeeds exactly when some attempt succeeds before any check fails.
   */
  method RunWithRetries(retryAttempts: int, passes: nat -> bool, runs: nat -> bool)
    returns (out: Outcome, executed: nat)
    ensures executed <= EffectiveAttempts(retryAttempts)
    ensures forall k: nat :: 1 <= k <= executed ==> passes(k)
    ensures forall k: nat :: 1 <= k < executed ==> !runs(k)
    ensures out.Success? <==> executed >= 1 && runs(executed)
    ensures out.Cancelled? <==> executed < EffectiveAttempts(retryAttempts) && !out.Success? && !passes(executed + 1)
    ensures out.Exhausted? <==> executed == EffectiveAttempts(retryAttempts) && !out.Success?
    ensures !out.ContextDone?
    ensures Retried(EffectiveAttempts(retryAttempts), passes, runs, out, executed)
  {
    var attempts := EffectiveAttempts(retryAttempts);
    executed := 0;
    out := Exhausted;
    var attempt := 1;
    while attempt <= attempts
      invariant 1 <= attempt <= attempts + 1
      invariant executed == attempt - 1 && out.Exhausted?
      invariant forall k: nat :: 1 <= k <= executed ==> passes(k) && !runs(k)
    {
      if !passes(attempt) {
        out := Cancelled;
        break;
      }
      executed := executed + 1;
      if runs(attempt) {
        out := Success;
        break;
      }
      attempt := attempt + 1;
    }
  }

  /** What the collector holds after these results. */
  ghost predicate Collected(results: seq<Post>, total: nat, completed: nat, failed: seq<nat>, progress: int) {
    && completed == |results| && failed == FailedIn(results)
    && if results == [] then progress == 0 else total > 0 && progress == Progress(|results|, total)
  }

  /** The collector's loop over everything received before the channel was drained. */
  method Collect(results: seq<Post>, total: nat)
    returns (completed: nat, failed: seq<nat>, progress: int, allFailed: bool)
    requires |results| <= total
    ensures completed == |results|
    ensures failed == FailedIn(results)
    ensures results == [] ==> progress == 0
    ensures results != [] ==> progress == Progress(|results|, total)
    ensures Collected(results, total, completed, failed, progress)
    ensures |results| == total ==>
              (allFailed <==> total > 0 && forall p :: 0 <= p < |results| ==> !results[p].out.Success?)
  {
    completed, failed, progress := 0, [], 0;
    for i := 0 to |results|
      invariant completed == i && failed == FailedIn(results[..i])
      invariant if i == 0 then progress == 0 else progress == Progress(i, total)
    {
      completed := completed + 1;
      progress := Progress(completed, total);
      assert results[..i + 1][..i] == results[..i];
      if !results[i].out.Success? { failed := failed + [results[i].who]; }
    }
    assert results[..|results|] == results;
    FailedCount(results);
    allFailed := |failed| == total && total > 0;
  }

  // ----- The transition system on the inputs of Run -----

  /** The order in which the executor goes through the module list. */
  function Ordered(ids: seq<string>): seq<string> {
    Part(ids, true) + Part(ids, false)
  }

  function ConfigOf(ids: seq<string>, retryAttempts: int, concurrencyLimit: int): Config {
    Config(|Part(ids, true)|, |Part(ids, false)|, EffectiveLimit(concurrencyLimit), EffectiveAttempts(retryAttempts))
  }

  lemma {:induction false} PartIsOfKind(ids: seq<string>, volatile: bool)
    ensures forall i :: 0 <= i < |Part(ids, volatile)| ==> IsVolatileId(Part(ids, volatile)[i]) == volatile
  {
    hide IsVolatileId;
    if ids != [] { PartIsOfKind(ids[..|ids| - 1], volatile); }
  }

  lemma {:induction false} PartsMakeUp(ids: seq<string>)
    ensures multiset(Part(ids, true)) + multiset(Part(ids, false)) == multiset(ids)
    ensures |Part(ids, true)| + |Part(ids, false)| == |ids|
  {
    hide IsVolatileId;
    if ids != [] {
      var n := |ids| - 1;
      PartsMakeUp(ids[..n]);
      assert multiset(ids) == multiset(ids[..n]) + multiset{ids[n]} by { assert ids == ids[..n] + [ids[n]]; }
    }
  }

  /** Whatever the inputs, the configuration is valid and has one occurrence for each listed module. */
  lemma ConfigMeans(ids: seq<string>, retryAttempts: int, concurrencyLimit: int)
    ensures var c := ConfigOf(ids, retryAttempts, concurrencyLimit);
      && c.Valid() && c.Total() == |ids| == |Ordered(ids)|
      && forall i: nat :: i < |ids| ==> (IsDisk(c, i) <==> !IsVolatileId(Ordered(ids)[i]))
    ensures multiset(Ordered(ids)) == multiset(ids)
  {
    hide IsVolatileId, Part;
    PartsMakeUp(ids);
    PartIsOfKind(ids, true);
    PartIsOfKind(ids, false);
  }

  /**
   Order of volatility on the inputs of Run: a module that is not a memory module is touched only after all
   memory modules have posted, memory modules run one at a time, and no more other modules are inside
   an attempt than the effective limit.
   */
  lemma JobOrder(ids: seq<string>, retryAttempts: int, concurrencyLimit: int, run: seq<State>, j: nat)
    requires IsRun(ConfigOf(ids, retryAttempts, concurrencyLimit), run) && j < |run|
    ensures |run[j].mods| == |ids| == |Ordered(ids)|
    ensures forall d: nat, v: nat | d < |ids| && v < |ids| ::
              !IsVolatileId(Ordered(ids)[d]) && IsVolatileId(Ordered(ids)[v]) && !run[j].mods[d].pc.Idle? ==>
                Posted(run[j].mods[v].pc)
    ensures forall v: nat, w: nat |
              && v < |ids| && IsVolatileId(Ordered(ids)[v]) && InFlight(run[j].mods[v].pc)
              && w < |ids| && IsVolatileId(Ordered(ids)[w]) && InFlight(run[j].mods[w].pc) :: v == w
    ensures |set d: nat | d < |ids| && !IsVolatileId(Ordered(ids)[d]) && InAttempt(run[j].mods[d].pc)|
            <= EffectiveLimit(concurrencyLimit)
    ensures |Holders(ConfigOf(ids, retryAttempts, concurrencyLimit), run[j].mods)| <= EffectiveLimit(concurrencyLimit)
  {
    hide IsVolatileId, Part, IsRun, Posted, InFlight, InAttempt, Ordered;
    var c := ConfigOf(ids, retryAttempts, concurrencyLimit);
    ConfigMeans(ids, retryAttempts, concurrencyLimit);
    OrderOfVolatility(c, run, j);
    assert (set d: nat | d < |ids| && !IsVolatileId(Ordered(ids)[d]) && InAttempt(run[j].mods[d].pc))
        == (set d: nat | d < c.Total() && IsDisk(c, d) && InAttempt(run[j].mods[d].pc));
  }

  /** Each listed module is executed at most the effective number of attempts and posts at most once. */
  lemma JobBounded(ids: seq<string>, retryAttempts: int, concurrencyLimit: int, run: seq<State>, j: nat)
    requires IsRun(ConfigOf(ids, retryAttempts, concurrencyLimit), run) && j < |run|
    ensures |run| - 1 <= |ids| * (2 * EffectiveAttempts(retryAttempts) + 8) + |ids| + 5
    ensures |run[j].mods| == |ids|
    ensures forall i: nat :: i < |ids| ==> run[j].mods[i].runs <= EffectiveAttempts(retryAttempts)
    ensures forall p, q :: 0 <= p < q < |run[j].log| ==> run[j].log[p].who != run[j].log[q].who
    ensures forall p :: 0 <= p < |run[j].log| ==>
              && run[j].log[p].who < |ids|
              && OutcomeOk(ConfigOf(ids, retryAttempts, concurrencyLimit), run[j].log[p].out, run[j].mods[run[j].log[p].who].runs)
    ensures forall p :: 0 <= p < |run[j].log| && p < |Part(ids, true)| ==> run[j].log[p].who == p
  {
    hide Part, IsRun;
    var c := ConfigOf(ids, retryAttempts, concurrencyLimit);
    ConfigMeans(ids, retryAttempts, concurrencyLimit);
    RunsAreBounded(c, run);
    BoundedRetriesOnePost(c, run, j);
  }

  /**
   Where the executor cannot go on, one result of each listed module has been collected, and the job
   is judged failed exactly when modules were listed and none succeeded.
   */
  lemma JobVerdict(ids: seq<string>, retryAttempts: int, concurrencyLimit: int, run: seq<State>)
    requires IsRun(ConfigOf(ids, retryAttempts, concurrencyLimit), run)
    requires !CanProceed(ConfigOf(ids, retryAttempts, concurrencyLimit), run[|run| - 1])
    ensures var s := run[|run| - 1];
      && !s.collecting
      && |s.mods| == |ids| == s.completed == |s.log|
      && (forall i: nat :: i < |ids| ==> s.mods[i].pc.Finished? && Post(i, s.mods[i].pc.out) in s.log)
      && (AllFailedVerdict(ConfigOf(ids, retryAttempts, concurrencyLimit), s) <==>
          ids != [] && forall i: nat :: i < |ids| ==> !s.mods[i].pc.out.Success?)
      && (ids != [] ==> s.progress == 100)
  {
    hide Part, IsRun, CanProceed, AllFailedVerdict;
    ConfigMeans(ids, retryAttempts, concurrencyLimit);
    MaximalRunVerdict(ConfigOf(ids, retryAttempts, concurrencyLimit), run);
  }

  /** In every state the collector holds what its loop makes of the results received so far. */
  lemma CollectorIsTheLoop(c: Config, run: seq<State>, j: nat)
    requires c.Valid() && IsRun(c, run) && j < |run|
    ensures var s := run[j];
      s.completed <= |s.log| && Collected(s.log[..s.completed], c.Total(), s.completed, s.failed, s.progress)
  {
    hide IsRun, FailedIn, Progress;
    RunInv(c, run, j);
  }

  /** The next local action of a module that is inside its attempts, as the oracles decide it. */
  function NextAction(pc: Pc, passes: nat -> bool, runs: nat -> bool): Action
    requires InAttempt(pc)
  {
    if pc.Checking? then (if passes(pc.k) then CheckPasses else CheckFails)
    else (if runs(pc.k) then ExecSucceeds else ExecFails)
  }

  /** The local actions of a module, one after the other, until it is about to send. */
  function Attempted(c: Config, i: nat, m: Occurrence, passes: nat -> bool, runs: nat -> bool): Occurrence
    requires InAttempt(m.pc) ==> OccurrenceOk(c, i, m)
    decreases Rank(c, m.pc)
  {
    if InAttempt(m.pc) then Attempted(c, i, Act(c, i, m, NextAction(m.pc, passes, runs)), passes, runs) else m
  }

  /** The oracles leave one way for the attempts to end. */
  lemma RetriedUnique(
    attempts: nat, passes: nat -> bool, runs: nat -> bool, out: Outcome, executed: nat, out': Outcome, executed': nat)
    requires attempts >= 1
    requires Retried(attempts, passes, runs, out, executed) && Retried(attempts, passes, runs, out', executed')
    ensures out == out' && executed == executed'
  {
  }

  lemma {:induction false} ActionsRetry(c: Config, i: nat, m: Occurrence, passes: nat -> bool, runs: nat -> bool)
    requires InAttempt(m.pc) && OccurrenceOk(c, i, m)
    requires forall k: nat :: 1 <= k < m.pc.k ==> passes(k) && !runs(k)
    requires m.pc.Executing? ==> passes(m.pc.k)
    ensures var r := Attempted(c, i, m, passes, runs);
      r.pc.Sending? && Retried(c.attempts, passes, runs, r.pc.out, r.runs)
    decreases Rank(c, m.pc)
  {
    var next := Act(c, i, m, NextAction(m.pc, passes, runs));
    if InAttempt(next.pc) { ActionsRetry(c, i, next, passes, runs); }
  }

  /** The attempts of the transition system end as the retry loop does, after as many executions. */
  lemma ActionsAreTheLoop(
    c: Config, i: nat, passes: nat -> bool, runs: nat -> bool, out: Outcome, executed: nat)
    requires c.attempts >= 1 && Retried(c.attempts, passes, runs, out, executed)
    ensures var r := Attempted(c, i, Occurrence(Checking(1), 0), passes, runs);
      r.pc.Sending? && r.pc.out == out && r.runs == executed
  {
    hide Attempted, Retried;
    var m := Occurrence(Checking(1), 0);
    ActionsRetry(c, i, m, passes, runs);
    var r := Attempted(c, i, m, passes, runs);
    RetriedUnique(c.attempts, passes, runs, out, executed, r.pc.out, r.runs);
  }

  // ----- In plain terms -----

  lemma TimesPositive(x: real, y: real, t: real)
    requires t > 0.0
    ensures x <= y ==> x * t <= y * t
    ensures x < y ==> x * t < y * t
  {
  }

  /** Progress is the whole percentage, rounded down. */
  lemma ProgressMeans(completed: nat, total: nat)
    requires total > 0
    ensures var p, q, t := Progress(completed, total) as real, (Progress(completed, total) + 1) as real, total as real;
      p * t <= 100.0 * completed as real < q * t
  {
    var t, x := total as real, completed as real / total as real;
    QuotientTimes(completed as real, t);
    HundredTimes(x, t);
    var p := Progress(completed, total);
    FloorTimes(x * 100.0, 100.0 * completed as real, p as real, (p + 1) as real, t);
  }

  lemma HundredTimes(x: real, t: real)
    ensures x * 100.0 * t == 100.0 * (x * t)
  {
  }

  lemma FloorTimes(v: real, w: real, p: real, q: real, t: real)
    requires t > 0.0 && v * t == w && p <= v < q
    ensures p * t <= w < q * t
  {
    TimesPositive(p, v, t);
    TimesPositive(v, q, t);
  }

  lemma {:induction false} FailedInMeans(posts: seq<Post>, i: nat)
    ensures i in FailedIn(posts) <==> exists p :: 0 <= p < |posts| && posts[p].who == i && !posts[p].out.Success?
  {
    if posts != [] {
      var n := |posts| - 1;
      FailedInMeans(posts[..n], i);
      assert i in FailedIn(posts) <==> i in FailedIn(posts[..n]) || (posts[n].who == i && !posts[n].out.Success?);
      assert forall p :: 0 <= p < n ==> posts[..n][p] == posts[p];
    }
  }

  /** In the end the failed list names exactly the modules that did not succeed. */
  lemma FailedAreListed(c: Config, run: seq<State>, i: nat)
    requires c.Valid() && IsRun(c, run) && !CanProceed(c, run[|run| - 1]) && i < c.Total()
    ensures var s := run[|run| - 1];
      |s.mods| == c.Total() && s.mods[i].pc.Finished? && (i in s.failed <==> !s.mods[i].pc.out.Success?)
  {
    hide FailedIn, Progress, CountersOk, OccurrenceOk, CanProceed;
    var s := run[|run| - 1];
    MaximalRunVerdict(c, run);
    RunInv(c, run, |run| - 1);
    assert s.log[..s.completed] == s.log;
    FailedInMeans(s.log, i);
    assert Post(i, s.mods[i].pc.out) in s.log;
    forall p | 0 <= p < |s.log| && s.log[p].who == i ensures s.log[p].out == s.mods[i].pc.out {
    }
  }

  /** A waiting module can take a slot exactly when fewer than the limit are held, and give up exactly when the context is done. */
  lemma SlotsAreUsable(c: Config, run: seq<State>, j: nat, i: nat)
    requires c.Valid() && IsRun(c, run) && j < |run| && i < |run[j].mods| && run[j].mods[i].pc.Waiting?
    ensures Enabled(c, run[j], Local(i, Acquire)) <==> |Holders(c, run[j].mods)| < c.limit
    ensures Enabled(c, run[j], Local(i, GiveUp)) <==> run[j].ctxDone
  {
    RunInv(c, run, j);
  }

  /** Never executed, and never will be. */
  predicate Skipped(m: Occurrence) {
    m.runs == 0 && match m.pc
                   case Idle => true
                   case Sending(out, _) => out.ContextDone?
                   case Finished(out) => out.ContextDone?
                   case _ => false
  }

  lemma StaysSkipped(c: Config, s: State, step: Step, i: nat)
    requires c.Valid() && Inv(c, s) && Enabled(c, s, step) && i < c.volatile
    requires |s.mods| == c.Total() && s.ctxDone && Skipped(s.mods[i])
    ensures Next(c, s, step).ctxDone && i < |Next(c, s, step).mods| && Skipped(Next(c, s, step).mods[i])
  {
    hide Holders, Live, LogOk, CollectorOk, OutcomeOk;
  }

  /** A memory module that has not begun when the context is done is never executed. */
  lemma {:induction false} CancelledBeforeBegin(c: Config, run: seq<State>, j: nat, k: nat, i: nat)
    requires c.Valid() && IsRun(c, run) && j <= k < |run| && i < c.volatile
    requires run[j].ctxDone && |run[j].mods| == c.Total() && run[j].mods[i].pc.Idle?
    ensures run[k].ctxDone && |run[k].mods| == c.Total() && run[k].mods[i].runs == 0 && Skipped(run[k].mods[i])
    decreases k - j
  {
    hide Enabled, Next, Inv, Skipped;
    RunInv(c, run, k);
    InvLength(c, run[k]);
    if j < k {
      CancelledBeforeBegin(c, run, j, k - 1, i);
      RunInv(c, run, k - 1);
      assert StepAt(c, run, k - 1);
      var step :| Enabled(c, run[k - 1], step) && run[k] == Next(c, run[k - 1], step);
      StaysSkipped(c, run[k - 1], step, i);
      SkippedMeans(run[k].mods[i]);
    } else {
      RunInv(c, run, j);
      IdleIsSkipped(c, run[j], i);
      SkippedMeans(run[k].mods[i]);
    }
  }

  lemma InvLength(c: Config, s: State)
    requires Inv(c, s)
    ensures |s.mods| == c.Total()
  {
  }

  lemma SkippedMeans(m: Occurrence)
    requires Skipped(m)
    ensures m.runs == 0
  {
  }

  lemma IdleIsSkipped(c: Config, s: State, i: nat)
    requires Inv(c, s) && i < c.Total() && s.mods[i].pc.Idle?
    ensures Skipped(s.mods[i])
  {
    assert OccurrenceOk(c, i, s.mods[i]);
  }
}
