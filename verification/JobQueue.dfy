/**
 The collection job queue: agents claim their own pending jobs in transactions that skip locked rows,
 operators and agents overwrite statuses, and a retry resets a job to pending.
 */
module JobQueue {
  import opened Options

  // ----- Data model -----

  datatype Job = Job(agent: Option<string>, status: string, created: int)

  /**
   A transaction that polls for a job of `agent`.  Its query sees the rows that waited when it began and
   goes through them from the oldest on: it passes over rows that are locked or that wait no more, and
   locks the first other one, its pick.  `since` is the length of the log when the query began, `held` and
   `taken` say which rows were passed over because they were locked by a transaction that does not poll
   and by one that does; no step reads these three.
   */
  datatype Poll = Poll(
    agent: string, seen: set<string>, passed: set<string>, pick: Option<string>,
    since: nat, held: set<string>, taken: set<string>)

  /** What has been committed, in order; a history variable no step reads. */
  datatype Event =
    | Created(job: string)
    | Reset(job: string)
    | Claimed(job: string, agent: string, since: nat, held: set<string>, taken: set<string>)

  /** `locks` are the row locks of transactions that do not poll. */
  datatype State = State(jobs: map<string, Job>, open: map<nat, Poll>, locks: map<nat, string>, log: seq<Event>)

  /**
   `Begin`, `Pass` and `Select` are the locking query of one poll; ties in creation time may be broken
   either way.  `Hold` is any other row lock: of a query for update, or of a write that is not committed.
   `Update` is the commit of a status write, which no poll's lock lets through.
   */
  datatype Step =
    | Create(job: string, agent: Option<string>, at: int)
    | Begin(tx: nat, who: string)
    | Pass(tx: nat, row: string)
    | Select(tx: nat, row: string)
    | Commit(tx: nat)
    | Rollback(tx: nat)
    | Hold(tx: nat, row: string)
    | Release(tx: nat)
    | Update(job: string, status: string)

  predicate Picked(open: map<nat, Poll>, job: string) {
    exists tx :: tx in open && open[tx].pick == Some(job)
  }

  predicate Held(locks: map<nat, string>, job: string) {
    exists tx :: tx in locks && locks[tx] == job
  }

  predicate WaitsFor(jobs: map<string, Job>, who: string, job: string) {
    job in jobs && jobs[job].agent == Some(who) && jobs[job].status == "pending"
  }

  function WaitingFor(jobs: map<string, Job>, who: string): set<string> {
    set job | job in jobs && WaitsFor(jobs, who, job)
  }

  predicate Selects(s: State, poll: Poll, row: string) {
    && poll.pick.None? && row in poll.seen
    && WaitsFor(s.jobs, poll.agent, row) && !Picked(s.open, row) && !Held(s.locks, row)
    && forall other :: other in poll.seen && other in s.jobs && s.jobs[other].created < s.jobs[row].created ==>
         other in poll.passed
  }

  predicate Enabled(s: State, step: Step) {
    match step
    case Create(job, _, _) => job !in s.jobs
    case Begin(tx, _) => tx !in s.open
    case Pass(tx, row) =>
      && tx in s.open && s.open[tx].pick.None? && row in s.open[tx].seen
      && (Picked(s.open, row) || Held(s.locks, row) || !WaitsFor(s.jobs, s.open[tx].agent, row))
    case Select(tx, row) => tx in s.open && Selects(s, s.open[tx], row)
    case Commit(tx) => tx in s.open && s.open[tx].pick.Some? && s.open[tx].pick.value in s.jobs
    case Rollback(tx) => tx in s.open
    case Hold(tx, row) => tx !in s.locks && !Picked(s.open, row)
    case Release(tx) => tx in s.locks
    case Update(job, _) => job in s.jobs && !Picked(s.open, job)
  }

  function Passed(s: State, poll: Poll, row: string): Poll {
    var past := poll.(passed := poll.passed + {row});
    if Picked(s.open, row) then past.(taken := poll.taken + {row})
    else if Held(s.locks, row) then past.(held := poll.held + {row})
    else past
  }

  function ClaimEvent(poll: Poll): Event
    requires poll.pick.Some?
  {
    Claimed(poll.pick.value, poll.agent, poll.since, poll.held, poll.taken)
  }

  function Next(s: State, step: Step): State
    requires Enabled(s, step)
  {
    match step
    case Create(job, agent, at) =>
      s.(jobs := s.jobs[job := Job(agent, "pending", at)], log := s.log + [Created(job)])
    case Begin(tx, who) =>
      s.(open := s.open[tx := Poll(who, WaitingFor(s.jobs, who), {}, None, |s.log|, {}, {})])
    case Pass(tx, row) => s.(open := s.open[tx := Passed(s, s.open[tx], row)])
    case Select(tx, row) => s.(open := s.open[tx := s.open[tx].(pick := Some(row))])
    case Commit(tx) =>
      var job := s.open[tx].pick.value;
      s.(jobs := s.jobs[job := s.jobs[job].(status := "assigned")],
         open := s.open - {tx},
         log := s.log + [ClaimEvent(s.open[tx])])
    case Rollback(tx) => s.(open := s.open - {tx})
    case Hold(tx, row) => s.(locks := s.locks[tx := row])
    case Release(tx) => s.(locks := s.locks - {tx})
    case Update(job, status) =>
      s.(jobs := s.jobs[job := s.jobs[job].(status := status)],
         log := if status == "pending" then s.log + [Reset(job)] else s.log)
  }

  const EMPTY := State(map[], map[], map[], [])

  /** What ends a poll: a rollback forgets it, a commit assigns its row; a release gives a row lock back. */
  lemma EndsMean(s: State, tx: nat)
    ensures Enabled(s, Rollback(tx)) ==> Next(s, Rollback(tx)) == s.(open := s.open - {tx})
    ensures Enabled(s, Commit(tx)) ==>
              var after, job := Next(s, Commit(tx)), s.open[tx].pick.value;
              && after.open == s.open - {tx} && after.locks == s.locks && after.jobs.Keys == s.jobs.Keys
              && after.jobs[job] == s.jobs[job].(status := "assigned")
              && forall other :: other in s.jobs && other != job ==> after.jobs[other] == s.jobs[other]
    ensures Enabled(s, Release(tx)) ==> Next(s, Release(tx)) == s.(locks := s.locks - {tx})
  {
  }

  /** Any interleaving: a step that is not enabled when its turn comes has no effect. */
  function After(steps: seq<Step>): State {
    if steps == [] then EMPTY
    else
      var s := After(steps[..|steps| - 1]);
      if Enabled(s, steps[|steps| - 1]) then Next(s, steps[|steps| - 1]) else s
  }

  // ----- Claims -----

  /** The latest event of the job is its creation or a reset, not a claim. */
  ghost predicate Armed(log: seq<Event>, job: string) {
    if log == [] then false
    else
      var last := log[|log| - 1];
      if last.job == job then !last.Claimed? else Armed(log[..|log| - 1], job)
  }

  /** Between two claims of a job lies a reset of that job. */
  ghost predicate Alternates(log: seq<Event>) {
    forall p, q :: 0 <= p < q < |log| && log[p].Claimed? && log[q].Claimed? && log[p].job == log[q].job ==>
      exists r :: p < r < q && log[r] == Reset(log[q].job)
  }

  /** A job is created once, and it is claimed by the agent it is assigned to. */
  ghost predicate LogOk(jobs: map<string, Job>, log: seq<Event>) {
    && (forall p :: 0 <= p < |log| ==> log[p].job in jobs)
    && (forall p :: 0 <= p < |log| && log[p].Claimed? ==> jobs[log[p].job].agent == Some(log[p].agent))
    && CreatedFirst(log)
    && Alternates(log)
  }

  ghost predicate CreatedFirst(log: seq<Event>) {
    forall p, q :: 0 <= p < q < |log| && log[q].Created? ==> log[p].job != log[q].job
  }

  ghost predicate PendingArmed(jobs: map<string, Job>, log: seq<Event>) {
    forall job :: job in jobs && jobs[job].status == "pending" ==> Armed(log, job)
  }

  /** What a poll saw is of its agent, and what it picked waits for it. */
  ghost predicate PollOk(jobs: map<string, Job>, poll: Poll) {
    && (forall job :: job in poll.seen ==> job in jobs && jobs[job].agent == Some(poll.agent))
    && (poll.pick.Some? ==> WaitsFor(jobs, poll.agent, poll.pick.value))
  }

  ghost predicate OpenOk(jobs: map<string, Job>, open: map<nat, Poll>) {
    && (forall tx :: tx in open ==> PollOk(jobs, open[tx]))
    && (forall t, u :: t in open && u in open && t != u && open[t].pick.Some? ==> open[t].pick != open[u].pick)
  }

  ghost predicate Inv(s: State) {
    OpenOk(s.jobs, s.open) && PendingArmed(s.jobs, s.log) && LogOk(s.jobs, s.log)
  }

  lemma ArmedAppend(log: seq<Event>, e: Event, job: string)
    ensures Armed(log + [e], job) <==> if e.job == job then !e.Claimed? else Armed(log, job)
  {
    assert (log + [e])[..|log|] == log;
  }

  /** An armed job that was claimed before has been reset since. */
  lemma {:induction false} ArmedSinceClaim(log: seq<Event>, job: string, p: nat) returns (r: nat)
    requires Armed(log, job) && p < |log| && log[p].Claimed? && log[p].job == job && CreatedFirst(log)
    ensures p < r < |log| && log[r] == Reset(job)
  {
    var n := |log| - 1;
    if log[n].job == job {
      r := n;
    } else {
      r := ArmedSinceClaim(log[..n], job, p);
    }
  }

  lemma AlternatesAppend(log: seq<Event>, e: Event)
    requires Alternates(log) && CreatedFirst(log)
    requires e.Claimed? ==> Armed(log, e.job)
    ensures Alternates(log + [e])
  {
    var log' := log + [e];
    forall p, q | 0 <= p < q < |log'| && log'[p].Claimed? && log'[q].Claimed? && log'[p].job == log'[q].job
      ensures exists r :: p < r < q && log'[r] == Reset(log'[q].job)
    {
      if q == |log| {
        var r := ArmedSinceClaim(log, e.job, p);
        assert log'[r] == Reset(log'[q].job);
      } else {
        var r :| p < r < q && log[r] == Reset(log[q].job);
        assert log'[r] == Reset(log'[q].job);
      }
    }
  }

  /** No step removes a job or changes its agent or creation time. */
  ghost predicate Evolves(jobs: map<string, Job>, jobs': map<string, Job>) {
    forall job :: job in jobs ==>
      job in jobs' && jobs'[job].agent == jobs[job].agent && jobs'[job].created == jobs[job].created
  }

  lemma LogOkAppend(jobs: map<string, Job>, jobs': map<string, Job>, log: seq<Event>, e: Event)
    requires LogOk(jobs, log) && Evolves(jobs, jobs') && e.job in jobs'
    requires e.Created? ==> e.job !in jobs
    requires e.Claimed? ==> Armed(log, e.job) && jobs'[e.job].agent == Some(e.agent)
    ensures LogOk(jobs', log + [e])
  {
    hide Alternates, Armed;
    AlternatesAppend(log, e);
  }

  lemma ArmedAppendAll(jobs: map<string, Job>, jobs': map<string, Job>, log: seq<Event>, e: Event)
    requires PendingArmed(jobs, log)
    requires forall job :: job in jobs' && jobs'[job].status == "pending" ==>
               if job == e.job then !e.Claimed? else job in jobs && jobs[job].status == "pending"
    ensures PendingArmed(jobs', log + [e])
  {
    forall job | job in jobs' && jobs'[job].status == "pending" ensures Armed(log + [e], job) {
      ArmedAppend(log, e, job);
    }
  }

  lemma CreateInv(s: State, step: Step)
    requires Inv(s) && step.Create? && Enabled(s, step)
    ensures Inv(Next(s, step))
  {
    hide LogOk, PendingArmed;
    var s' := Next(s, step);
    ArmedAppendAll(s.jobs, s'.jobs, s.log, Created(step.job));
    LogOkAppend(s.jobs, s'.jobs, s.log, Created(step.job));
  }

  lemma UpdateInv(s: State, step: Step)
    requires Inv(s) && step.Update? && Enabled(s, step)
    ensures Inv(Next(s, step))
  {
    hide LogOk, PendingArmed;
    var s' := Next(s, step);
    if step.status == "pending" {
      ArmedAppendAll(s.jobs, s'.jobs, s.log, Reset(step.job));
      LogOkAppend(s.jobs, s'.jobs, s.log, Reset(step.job));
    } else {
      StatusOnly(s.jobs, s'.jobs, s.log);
    }
  }

  lemma StatusOnly(jobs: map<string, Job>, jobs': map<string, Job>, log: seq<Event>)
    requires PendingArmed(jobs, log) && LogOk(jobs, log) && Evolves(jobs, jobs')
    requires forall job :: job in jobs' && jobs'[job].status == "pending" ==>
               job in jobs && jobs[job].status == "pending"
    ensures PendingArmed(jobs', log) && LogOk(jobs', log)
  {
    hide Alternates, Armed, CreatedFirst;
  }

  lemma CommitInv(s: State, tx: nat)
    requires Inv(s) && Enabled(s, Commit(tx))
    ensures Inv(Next(s, Commit(tx)))
  {
    hide LogOk, PendingArmed;
    var s', e := Next(s, Commit(tx)), ClaimEvent(s.open[tx]);
    assert PollOk(s.jobs, s.open[tx]);
    PendingIsArmed(s.jobs, s.log, e.job);
    ArmedAppendAll(s.jobs, s'.jobs, s.log, e);
    LogOkAppend(s.jobs, s'.jobs, s.log, e);
    CommitOpenOk(s.jobs, s.open, tx);
  }

  lemma PendingIsArmed(jobs: map<string, Job>, log: seq<Event>, job: string)
    requires PendingArmed(jobs, log) && job in jobs && jobs[job].status == "pending"
    ensures Armed(log, job)
  {
  }

  lemma CommitOpenOk(jobs: map<string, Job>, open: map<nat, Poll>, tx: nat)
    requires OpenOk(jobs, open) && tx in open && open[tx].pick.Some? && open[tx].pick.value in jobs
    ensures var job := open[tx].pick.value;
      OpenOk(jobs[job := jobs[job].(status := "assigned")], open - {tx})
  {
    var job := open[tx].pick.value;
    var jobs' := jobs[job := jobs[job].(status := "assigned")];
    forall t | t in open - {tx} ensures PollOk(jobs', open[t]) {
      assert PollOk(jobs, open[t]);
    }
  }

  lemma PollInv(s: State, step: Step)
    requires Inv(s) && Enabled(s, step) && (step.Begin? || step.Pass? || step.Select?)
    ensures Inv(Next(s, step))
  {
    hide LogOk, PendingArmed;
    var s' := Next(s, step);
    assert step.tx in s.open ==> PollOk(s.jobs, s.open[step.tx]);
    assert PollOk(s'.jobs, s'.open[step.tx]);
    if step.Select? {
      forall t | t in s.open ensures s.open[t].pick != Some(step.row) {
      }
    }
  }

  lemma StepInv(s: State, step: Step)
    requires Inv(s) && Enabled(s, step)
    ensures Inv(Next(s, step))
  {
    hide LogOk, PendingArmed;
    match step
    case Create(_, _, _) => CreateInv(s, step);
    case Update(_, _) => UpdateInv(s, step);
    case Commit(tx) => CommitInv(s, tx);
    case Rollback(_) =>
    case Hold(_, _) =>
    case Release(_) =>
    case _ => PollInv(s, step);
  }

  lemma {:induction false} AfterInv(steps: seq<Step>)
    ensures Inv(After(steps))
  {
    if steps != [] {
      AfterInv(steps[..|steps| - 1]);
      var s := After(steps[..|steps| - 1]);
      if Enabled(s, steps[|steps| - 1]) { StepInv(s, steps[|steps| - 1]); }
    }
  }

  /**
   Over every interleaving: a job claimed again has been reset in between, every claim went to the
   agent the job was assigned to, and no two open polls have locked the same job.
   */
  lemma ClaimsAreExclusive(steps: seq<Step>)
    ensures var s := After(steps);
      && Alternates(s.log)
      && (forall p :: 0 <= p < |s.log| && s.log[p].Claimed? ==>
            s.log[p].job in s.jobs && s.jobs[s.log[p].job].agent == Some(s.log[p].agent))
      && (forall t, u :: t in s.open && u in s.open && t != u && s.open[t].pick.Some? ==> s.open[t].pick != s.open[u].pick)
  {
    AfterInv(steps);
  }

  ghost predicate ClaimedTwice(log: seq<Event>, job: string) {
    exists p, q :: 0 <= p < q < |log| && log[p].Claimed? && log[q].Claimed? && log[p].job == job == log[q].job
  }

  /** Without a reset of the job, it is claimed at most once. */
  lemma ClaimedOnce(steps: seq<Step>, job: string)
    requires Reset(job) !in After(steps).log
    ensures !ClaimedTwice(After(steps).log, job)
  {
    AfterInv(steps);
  }

  /** The proviso is needed: a reset, which the retry endpoint performs, lets the job be claimed again. */
  lemma ResetAllowsSecondClaim(job: string, who: string, at: int) returns (steps: seq<Step>)
    ensures After(steps).log ==
            [Created(job), Claimed(job, who, 1, {}, {}), Reset(job), Claimed(job, who, 3, {}, {})]
  {
    hide Enabled, Next;
    steps := RunCreate([], job, who, at);
    steps := RunClaim(steps, job, who, None);
    steps := RunUpdate(steps, job, "failed");
    steps := RunUpdate(steps, job, "pending");
    steps := RunClaim(steps, job, who, None);
  }

  /**
   All runs considered claim the job at most once if and only if those in which it is reset are left out.
   On a given run a reset is necessary for a second claim, not sufficient.
   */
  lemma ClaimedOnceExactly(job: string, resetsAllowed: bool)
    ensures (forall steps :: resetsAllowed || Reset(job) !in After(steps).log ==> !ClaimedTwice(After(steps).log, job))
            <==> !resetsAllowed
  {
    if resetsAllowed {
      var steps := ResetAllowsSecondClaim(job, "", 0);
      assert After(steps).log[1].Claimed? && After(steps).log[3].Claimed?;
    } else {
      forall steps | Reset(job) !in After(steps).log ensures !ClaimedTwice(After(steps).log, job) {
        ClaimedOnce(steps, job);
      }
    }
  }

  // ----- Oldest first -----

  /** The job was created or reset at a position of the log from `since` up to `until`. */
  ghost predicate Arrived(log: seq<Event>, job: string, since: nat, until: nat) {
    exists r: nat :: since <= r < until && r < |log| && log[r].job == job && !log[r].Claimed?
  }

  /**
   The second job is no older than the first, or it arrived after the first one's query began, or it
   was locked when that query passed over it.
   */
  ghost predicate InOrder(
    jobs: map<string, Job>, log: seq<Event>, first: string, since: nat, over: set<string>, second: string, until: nat)
  {
    && first in jobs && second in jobs
    && (|| jobs[first].created <= jobs[second].created
        || Arrived(log, second, since, until)
        || second in over)
  }

  ghost predicate ClaimedBy(log: seq<Event>, who: string, p: nat) {
    p < |log| && log[p].Claimed? && log[p].agent == who
  }

  /** What waits is in order behind `job`. */
  ghost predicate BeforeWaiting(
    jobs: map<string, Job>, log: seq<Event>, who: string, job: string, since: nat, over: set<string>)
  {
    && job in jobs && since <= |log|
    && forall other :: WaitsFor(jobs, who, other) ==> InOrder(jobs, log, job, since, over, other, |log|)
  }

  /** The query has seen what waits and passed over it only if it was locked, but for what arrived since. */
  ghost predicate Surveys(jobs: map<string, Job>, log: seq<Event>, poll: Poll) {
    && poll.since <= |log|
    && forall other :: WaitsFor(jobs, poll.agent, other) && !Arrived(log, other, poll.since, |log|) ==>
         other in poll.seen && (other in poll.passed ==> other in poll.held + poll.taken)
  }

  ghost predicate PollFirst(jobs: map<string, Job>, log: seq<Event>, poll: Poll) {
    && Surveys(jobs, log, poll)
    && (poll.pick.Some? ==>
          BeforeWaiting(jobs, log, poll.agent, poll.pick.value, poll.since, poll.held + poll.taken))
  }

  ghost predicate OpenFirst(s: State) {
    forall t :: t in s.open ==> PollFirst(s.jobs, s.log, s.open[t])
  }

  /** What waits is in order behind all that has been claimed. */
  ghost predicate ClaimedFirst(jobs: map<string, Job>, log: seq<Event>, who: string) {
    forall p: nat :: ClaimedBy(log, who, p) ==>
      log[p].since <= p && BeforeWaiting(jobs, log, who, log[p].job, log[p].since, log[p].held + log[p].taken)
  }

  ghost predicate ClaimsSorted(jobs: map<string, Job>, log: seq<Event>, who: string) {
    forall p: nat, q: nat :: p < q && ClaimedBy(log, who, p) && ClaimedBy(log, who, q) ==>
      InOrder(jobs, log, log[p].job, log[p].since, log[p].held + log[p].taken, log[q].job, q)
  }

  ghost predicate Fifo(s: State, who: string) {
    OpenFirst(s) && ClaimedFirst(s.jobs, s.log, who) && ClaimsSorted(s.jobs, s.log, who)
  }

  /** What starts to wait arrives. */
  ghost predicate ArrivesToWait(
    jobs: map<string, Job>, log: seq<Event>, jobs': map<string, Job>, log': seq<Event>)
  {
    && Evolves(jobs, jobs') && log <= log'
    && forall job, who :: WaitsFor(jobs', who, job) && !WaitsFor(jobs, who, job) ==> Arrived(log', job, |log|, |log'|)
  }

  lemma StillArrived(log: seq<Event>, log': seq<Event>, job: string, since: nat, until: nat, until': nat)
    requires log <= log' && until <= until' && Arrived(log, job, since, until)
    ensures Arrived(log', job, since, until')
  {
    var r: nat :| since <= r < until && r < |log| && log[r].job == job && !log[r].Claimed?;
    assert log'[r] == log[r];
  }

  lemma ArrivedLater(log: seq<Event>, job: string, since: nat, since': nat)
    requires since' <= since && Arrived(log, job, since, |log|)
    ensures Arrived(log, job, since', |log|)
  {
    var r: nat :| since <= r < |log| && log[r].job == job && !log[r].Claimed?;
  }

  lemma StillInOrder(
    jobs: map<string, Job>, log: seq<Event>, jobs': map<string, Job>, log': seq<Event>,
    first: string, since: nat, over: set<string>, second: string, until: nat, until': nat)
    requires Evolves(jobs, jobs') && log <= log' && until <= until'
    requires InOrder(jobs, log, first, since, over, second, until)
    ensures InOrder(jobs', log', first, since, over, second, until')
  {
    hide Arrived;
    if Arrived(log, second, since, until) { StillArrived(log, log', second, since, until, until'); }
  }

  lemma StillBeforeWaiting(
    jobs: map<string, Job>, log: seq<Event>, jobs': map<string, Job>, log': seq<Event>,
    who: string, job: string, since: nat, over: set<string>)
    requires ArrivesToWait(jobs, log, jobs', log') && BeforeWaiting(jobs, log, who, job, since, over)
    ensures BeforeWaiting(jobs', log', who, job, since, over)
  {
    hide Arrived;
    forall other | WaitsFor(jobs', who, other) ensures InOrder(jobs', log', job, since, over, other, |log'|) {
      if WaitsFor(jobs, who, other) {
        StillInOrder(jobs, log, jobs', log', job, since, over, other, |log|, |log'|);
      } else {
        ArrivedLater(log', other, |log|, since);
      }
    }
  }

  lemma StillSurveys(
    jobs: map<string, Job>, log: seq<Event>, jobs': map<string, Job>, log': seq<Event>, poll: Poll)
    requires ArrivesToWait(jobs, log, jobs', log') && Surveys(jobs, log, poll)
    ensures Surveys(jobs', log', poll)
  {
    hide Arrived;
    forall other | WaitsFor(jobs', poll.agent, other) && !Arrived(log', other, poll.since, |log'|)
      ensures other in poll.seen && (other in poll.passed ==> other in poll.held + poll.taken)
    {
      if !WaitsFor(jobs, poll.agent, other) {
        ArrivedLater(log', other, |log|, poll.since);
      } else if Arrived(log, other, poll.since, |log|) {
        StillArrived(log, log', other, poll.since, |log|, |log'|);
      }
    }
  }

  lemma StillPollFirst(
    jobs: map<string, Job>, log: seq<Event>, jobs': map<string, Job>, log': seq<Event>, poll: Poll)
    requires ArrivesToWait(jobs, log, jobs', log') && PollFirst(jobs, log, poll)
    ensures PollFirst(jobs', log', poll)
  {
    hide ArrivesToWait, Surveys, BeforeWaiting;
    StillSurveys(jobs, log, jobs', log', poll);
    if poll.pick.Some? {
      StillBeforeWaiting(
        jobs, log, jobs', log', poll.agent, poll.pick.value, poll.since, poll.held + poll.taken);
    }
  }

  lemma StillSorted(jobs: map<string, Job>, log: seq<Event>, jobs': map<string, Job>, log': seq<Event>, who: string)
    requires ArrivesToWait(jobs, log, jobs', log') && ClaimsSorted(jobs, log, who)
    requires forall p: nat :: ClaimedBy(log', who, p) ==> p < |log|
    ensures ClaimsSorted(jobs', log', who)
  {
    hide InOrder;
    forall p: nat, q: nat | p < q && ClaimedBy(log', who, p) && ClaimedBy(log', who, q)
      ensures InOrder(jobs', log', log'[p].job, log'[p].since, log'[p].held + log'[p].taken, log'[q].job, q)
    {
      assert log'[p] == log[p] && log'[q] == log[q];
      assert ClaimedBy(log, who, p) && ClaimedBy(log, who, q);
      StillInOrder(jobs, log, jobs', log', log[p].job, log[p].since, log[p].held + log[p].taken, log[q].job, q, q);
    }
  }

  lemma StillClaimedFirst(jobs: map<string, Job>, log: seq<Event>, jobs': map<string, Job>, log': seq<Event>, who: string)
    requires ArrivesToWait(jobs, log, jobs', log') && ClaimedFirst(jobs, log, who)
    requires forall p: nat :: ClaimedBy(log', who, p) ==> p < |log|
    ensures ClaimedFirst(jobs', log', who)
  {
    forall p: nat | ClaimedBy(log', who, p)
      ensures log'[p].since <= p
      ensures BeforeWaiting(jobs', log', who, log'[p].job, log'[p].since, log'[p].held + log'[p].taken)
    {
      assert log'[p] == log[p] && ClaimedBy(log, who, p);
      StillBeforeWaiting(jobs, log, jobs', log', who, log[p].job, log[p].since, log[p].held + log[p].taken);
    }
  }

  /** A step that claims nothing for the agent; `touched` is the poll it works on, if any. */
  lemma QuietFifo(s: State, s': State, who: string, touched: set<nat>)
    requires Fifo(s, who) && ArrivesToWait(s.jobs, s.log, s'.jobs, s'.log)
    requires forall p: nat :: ClaimedBy(s'.log, who, p) ==> p < |s.log|
    requires forall t :: t in s'.open && t !in touched ==> t in s.open && s'.open[t] == s.open[t]
    requires forall t :: t in s'.open && t in touched ==> PollFirst(s'.jobs, s'.log, s'.open[t])
    ensures Fifo(s', who)
  {
    hide InOrder, ArrivesToWait, PollFirst, BeforeWaiting, ClaimedBy;
    StillSorted(s.jobs, s.log, s'.jobs, s'.log, who);
    StillClaimedFirst(s.jobs, s.log, s'.jobs, s'.log, who);
    forall t | t in s'.open && t !in touched ensures PollFirst(s'.jobs, s'.log, s'.open[t]) {
      StillPollFirst(s.jobs, s.log, s'.jobs, s'.log, s.open[t]);
    }
  }

  lemma CreateFifo(s: State, who: string, step: Step)
    requires Fifo(s, who) && step.Create? && Enabled(s, step)
    ensures Fifo(Next(s, step), who)
  {
    hide Fifo;
    var s' := Next(s, step);
    assert s'.log[|s.log|] == Created(step.job);
    QuietFifo(s, s', who, {});
  }

  lemma UpdateFifo(s: State, who: string, step: Step)
    requires Fifo(s, who) && step.Update? && Enabled(s, step)
    ensures Fifo(Next(s, step), who)
  {
    hide Fifo;
    var s' := Next(s, step);
    if step.status == "pending" { assert s'.log[|s.log|] == Reset(step.job); }
    QuietFifo(s, s', who, {});
  }

  lemma BeginFifo(s: State, who: string, step: Step)
    requires Fifo(s, who) && step.Begin? && Enabled(s, step)
    ensures Fifo(Next(s, step), who)
  {
    hide Fifo;
    QuietFifo(s, Next(s, step), who, {step.tx});
  }

  lemma PassFifo(s: State, who: string, step: Step)
    requires Fifo(s, who) && step.Pass? && Enabled(s, step)
    ensures Fifo(Next(s, step), who)
  {
    assert PollFirst(s.jobs, s.log, s.open[step.tx]);
    hide Fifo;
    QuietFifo(s, Next(s, step), who, {step.tx});
  }

  /** Every older row that waits has been passed over, hence was locked, or has arrived since. */
  lemma SelectFifo(s: State, who: string, step: Step)
    requires Inv(s) && Fifo(s, who) && step.Select? && Enabled(s, step)
    ensures Fifo(Next(s, step), who)
  {
    hide Fifo, Arrived, LogOk, PendingArmed;
    var s', poll := Next(s, step), s.open[step.tx];
    FifoPoll(s, who, step.tx);
    forall other | WaitsFor(s.jobs, poll.agent, other)
      ensures InOrder(s.jobs, s.log, step.row, poll.since, poll.held + poll.taken, other, |s.log|)
    {
    }
    QuietFifo(s, s', who, {step.tx});
  }

  lemma FifoPoll(s: State, who: string, tx: nat)
    requires Fifo(s, who) && tx in s.open
    ensures PollFirst(s.jobs, s.log, s.open[tx])
  {
  }

  /** The claim of the agent enters the log behind the earlier ones and before what waits. */
  lemma CommitFifo(s: State, who: string, tx: nat)
    requires Inv(s) && Fifo(s, who) && Enabled(s, Commit(tx))
    ensures Fifo(Next(s, Commit(tx)), who)
  {
    hide LogOk, PendingArmed, Arrived, InOrder, Surveys;
    var s', poll := Next(s, Commit(tx)), s.open[tx];
    assert PollOk(s.jobs, poll) && PollFirst(s.jobs, s.log, poll);
    assert ArrivesToWait(s.jobs, s.log, s'.jobs, s'.log);
    if poll.agent == who {
      LogClaim(s.jobs, s.log, s'.jobs, poll);
      forall t | t in s'.open ensures PollFirst(s'.jobs, s'.log, s'.open[t]) {
        StillPollFirst(s.jobs, s.log, s'.jobs, s'.log, s.open[t]);
      }
    } else {
      QuietFifo(s, s', who, {});
    }
  }

  lemma LogClaim(jobs: map<string, Job>, log: seq<Event>, jobs': map<string, Job>, poll: Poll)
    requires ClaimedFirst(jobs, log, poll.agent) && ClaimsSorted(jobs, log, poll.agent)
    requires poll.pick.Some? && WaitsFor(jobs, poll.agent, poll.pick.value) && PollFirst(jobs, log, poll)
    requires ArrivesToWait(jobs, log, jobs', log + [ClaimEvent(poll)])
    ensures var log' := log + [ClaimEvent(poll)];
      ClaimedFirst(jobs', log', poll.agent) && ClaimsSorted(jobs', log', poll.agent)
  {
    hide InOrder, ArrivesToWait, Surveys;
    var who, log' := poll.agent, log + [ClaimEvent(poll)];
    StillPollFirst(jobs, log, jobs', log', poll);
    forall p: nat | ClaimedBy(log', who, p)
      ensures log'[p].since <= p
      ensures BeforeWaiting(jobs', log', who, log'[p].job, log'[p].since, log'[p].held + log'[p].taken)
    {
      if p < |log| {
        assert log'[p] == log[p] && ClaimedBy(log, who, p);
        StillBeforeWaiting(jobs, log, jobs', log', who, log[p].job, log[p].since, log[p].held + log[p].taken);
      }
    }
    forall p: nat, q: nat | p < q && ClaimedBy(log', who, p) && ClaimedBy(log', who, q)
      ensures InOrder(jobs', log', log'[p].job, log'[p].since, log'[p].held + log'[p].taken, log'[q].job, q)
    {
      ClaimBefore(jobs, log, jobs', poll, p, q);
    }
  }

  lemma ClaimBefore(jobs: map<string, Job>, log: seq<Event>, jobs': map<string, Job>, poll: Poll, p: nat, q: nat)
    requires ClaimedFirst(jobs, log, poll.agent) && ClaimsSorted(jobs, log, poll.agent)
    requires poll.pick.Some? && WaitsFor(jobs, poll.agent, poll.pick.value)
    requires ArrivesToWait(jobs, log, jobs', log + [ClaimEvent(poll)])
    requires var log' := log + [ClaimEvent(poll)];
      p < q && ClaimedBy(log', poll.agent, p) && ClaimedBy(log', poll.agent, q)
    ensures var log' := log + [ClaimEvent(poll)];
      InOrder(jobs', log', log'[p].job, log'[p].since, log'[p].held + log'[p].taken, log'[q].job, q)
  {
    hide InOrder, Arrived;
    var who, log' := poll.agent, log + [ClaimEvent(poll)];
    assert log'[p] == log[p] && ClaimedBy(log, who, p);
    if q < |log| {
      assert log'[q] == log[q] && ClaimedBy(log, who, q);
    } else {
      assert BeforeWaiting(jobs, log, who, log[p].job, log[p].since, log[p].held + log[p].taken);
    }
    StillInOrder(jobs, log, jobs', log', log[p].job, log[p].since, log[p].held + log[p].taken, log'[q].job, q, q);
  }

  lemma StepFifo(s: State, who: string, step: Step)
    requires Inv(s) && Fifo(s, who) && Enabled(s, step)
    ensures Fifo(Next(s, step), who)
  {
    hide Fifo, Inv;
    match step
    case Create(_, _, _) => CreateFifo(s, who, step);
    case Begin(_, _) => BeginFifo(s, who, step);
    case Pass(_, _) => PassFifo(s, who, step);
    case Select(_, _) => SelectFifo(s, who, step);
    case Commit(tx) => CommitFifo(s, who, tx);
    case Update(_, _) => UpdateFifo(s, who, step);
    case _ => QuietFifo(s, Next(s, step), who, {});
  }

  lemma {:induction false} AfterFifo(steps: seq<Step>, who: string)
    ensures Fifo(After(steps), who)
  {
    hide Inv, Enabled, Next;
    if steps != [] {
      var s, step := After(steps[..|steps| - 1]), steps[|steps| - 1];
      AfterFifo(steps[..|steps| - 1], who);
      AfterInv(steps[..|steps| - 1]);
      if Enabled(s, step) { StepFifo(s, who, step); }
    }
  }

  /**
   Over every interleaving an agent receives its jobs oldest first, with these exceptions: a job older
   than one claimed before it was created or reset after the query for that one had begun, or it was
   locked when that query passed over it.
   */
  lemma ClaimsAreOldestFirst(steps: seq<Step>, who: string, p: nat, q: nat)
    requires p < q && ClaimedBy(After(steps).log, who, p) && ClaimedBy(After(steps).log, who, q)
    ensures var s := After(steps);
      && s.log[p].job in s.jobs && s.log[q].job in s.jobs && s.log[p].since <= p
      && (|| s.jobs[s.log[p].job].created <= s.jobs[s.log[q].job].created
          || (exists r: nat :: s.log[p].since <= r < q && s.log[r].job == s.log[q].job && !s.log[r].Claimed?)
          || s.log[q].job in s.log[p].held
          || s.log[q].job in s.log[p].taken)
  {
    AfterFifo(steps, who);
    var s := After(steps);
    assert InOrder(
      s.jobs, s.log, s.log[p].job, s.log[p].since, s.log[p].held + s.log[p].taken, s.log[q].job, q);
  }

  // ----- An agent that polls one at a time -----

  /** The agent begins a poll only when it has none open. */
  ghost predicate SerialStep(s: State, who: string, step: Step) {
    step.Begin? && step.who == who && Enabled(s, step) ==> forall tx :: tx in s.open ==> s.open[tx].agent != who
  }

  ghost predicate SerialRun(steps: seq<Step>, who: string) {
    steps == [] ||
    (SerialRun(steps[..|steps| - 1], who) && SerialStep(After(steps[..|steps| - 1]), who, steps[|steps| - 1]))
  }

  ghost predicate NothingTaken(s: State, who: string) {
    && (forall t, u :: t in s.open && u in s.open && s.open[t].agent == who && s.open[u].agent == who ==> t == u)
    && (forall t :: t in s.open && s.open[t].agent == who ==> s.open[t].taken == {})
    && (forall p: nat :: ClaimedBy(s.log, who, p) ==> s.log[p].taken == {})
  }

  /** A row another poll has locked is of that poll's agent. */
  lemma PassTakesNothing(s: State, who: string, step: Step)
    requires Inv(s) && NothingTaken(s, who) && step.Pass? && Enabled(s, step)
    ensures NothingTaken(Next(s, step), who)
  {
    hide LogOk, PendingArmed;
    var poll := s.open[step.tx];
    assert PollOk(s.jobs, poll);
    if poll.agent == who {
      forall u | u in s.open && u != step.tx ensures s.open[u].pick != Some(step.row) {
        assert PollOk(s.jobs, s.open[u]);
      }
    }
  }

  lemma CommitTakesNothing(s: State, who: string, tx: nat)
    requires NothingTaken(s, who) && Enabled(s, Commit(tx))
    ensures NothingTaken(Next(s, Commit(tx)), who)
  {
    var s' := Next(s, Commit(tx));
    forall p: nat | ClaimedBy(s'.log, who, p) ensures s'.log[p].taken == {} {
      if p < |s.log| { assert ClaimedBy(s.log, who, p); }
    }
  }

  lemma StepTakesNothing(s: State, who: string, step: Step)
    requires Inv(s) && NothingTaken(s, who) && Enabled(s, step) && SerialStep(s, who, step)
    ensures NothingTaken(Next(s, step), who)
  {
    hide Inv;
    var s' := Next(s, step);
    if step.Pass? {
      PassTakesNothing(s, who, step);
    } else if step.Commit? {
      CommitTakesNothing(s, who, step.tx);
    } else {
      forall p: nat | ClaimedBy(s'.log, who, p) ensures s'.log[p].taken == {} {
        assert p < |s.log| && ClaimedBy(s.log, who, p);
      }
    }
  }

  /** Where the agent polls one at a time, what its polls passed over was locked by other transactions. */
  lemma {:induction false} SerialPollsTakeNothing(steps: seq<Step>, who: string)
    requires SerialRun(steps, who)
    ensures NothingTaken(After(steps), who)
  {
    hide Inv, Enabled, Next;
    if steps != [] {
      var s, step := After(steps[..|steps| - 1]), steps[|steps| - 1];
      SerialPollsTakeNothing(steps[..|steps| - 1], who);
      AfterInv(steps[..|steps| - 1]);
      if Enabled(s, step) { StepTakesNothing(s, who, step); }
    }
  }

  /** Then only an arrival, or a lock of a transaction that does not poll, can bring an older job behind a younger one. */
  lemma SerialClaimsAreOldestFirst(steps: seq<Step>, who: string, p: nat, q: nat)
    requires SerialRun(steps, who)
    requires p < q && ClaimedBy(After(steps).log, who, p) && ClaimedBy(After(steps).log, who, q)
    ensures var s := After(steps);
      && s.log[p].job in s.jobs && s.log[q].job in s.jobs && s.log[p].since <= p
      && (|| s.jobs[s.log[p].job].created <= s.jobs[s.log[q].job].created
          || (exists r: nat :: s.log[p].since <= r < q && s.log[r].job == s.log[q].job && !s.log[r].Claimed?)
          || s.log[q].job in s.log[p].held)
  {
    ClaimsAreOldestFirst(steps, who, p, q);
    SerialPollsTakeNothing(steps, who);
  }

  // ----- Each exception occurs -----

  lemma Then(steps: seq<Step>, step: Step)
    ensures var s := After(steps);
      After(steps + [step]) == if Enabled(s, step) then Next(s, step) else s
    ensures forall who :: SerialRun(steps + [step], who) <==> SerialRun(steps, who) && SerialStep(After(steps), who, step)
  {
    assert (steps + [step])[..|steps|] == steps;
  }

  lemma RunCreate(steps: seq<Step>, job: string, who: string, at: int) returns (steps': seq<Step>)
    requires After(steps).open == map[] && job !in After(steps).jobs
    ensures var s := After(steps);
      After(steps') == s.(jobs := s.jobs[job := Job(Some(who), "pending", at)], log := s.log + [Created(job)])
    ensures SerialRun(steps, who) ==> SerialRun(steps', who)
  {
    Then(steps, Create(job, Some(who), at));
    steps' := steps + [Create(job, Some(who), at)];
  }

  lemma RunUpdate(steps: seq<Step>, job: string, status: string) returns (steps': seq<Step>)
    requires After(steps).open == map[] && job in After(steps).jobs
    ensures var s := After(steps);
      After(steps') == s.(jobs := s.jobs[job := s.jobs[job].(status := status)],
                          log := s.log + if status == "pending" then [Reset(job)] else [])
    ensures forall who :: SerialRun(steps, who) ==> SerialRun(steps', who)
  {
    Then(steps, Update(job, status));
    steps' := steps + [Update(job, status)];
  }

  lemma RunBegin(steps: seq<Step>, tx: nat, who: string) returns (steps': seq<Step>)
    requires tx !in After(steps).open
    ensures var s := After(steps);
      After(steps') == s.(open := s.open[tx := Poll(who, WaitingFor(s.jobs, who), {}, None, |s.log|, {}, {})])
    ensures SerialRun(steps, who) && (forall t :: t in After(steps).open ==> After(steps).open[t].agent != who) ==>
              SerialRun(steps', who)
  {
    Then(steps, Begin(tx, who));
    steps' := steps + [Begin(tx, who)];
  }

  lemma RunPass(steps: seq<Step>, tx: nat, row: string) returns (steps': seq<Step>)
    requires Enabled(After(steps), Pass(tx, row))
    ensures var s := After(steps); After(steps') == s.(open := s.open[tx := Passed(s, s.open[tx], row)])
    ensures forall who :: SerialRun(steps, who) ==> SerialRun(steps', who)
  {
    Then(steps, Pass(tx, row));
    steps' := steps + [Pass(tx, row)];
  }

  lemma RunSelect(steps: seq<Step>, tx: nat, row: string) returns (steps': seq<Step>)
    requires Enabled(After(steps), Select(tx, row))
    ensures var s := After(steps); After(steps') == s.(open := s.open[tx := s.open[tx].(pick := Some(row))])
    ensures forall who :: SerialRun(steps, who) ==> SerialRun(steps', who)
  {
    Then(steps, Select(tx, row));
    steps' := steps + [Select(tx, row)];
  }

  function AsSet(row: Option<string>): set<string> {
    if row.Some? then {row.value} else {}
  }

  lemma PickedSame(open: map<nat, Poll>, tx: nat, poll: Poll, row: string)
    requires poll.pick.None? && (tx in open ==> open[tx].pick.None?)
    ensures Picked(open[tx := poll], row) <==> Picked(open, row)
  {
    var open' := open[tx := poll];
    if Picked(open, row) {
      var t :| t in open && open[t].pick == Some(row);
      assert open'[t].pick == Some(row);
    }
  }

  /** The query of a poll, for which `locked` is the only older row. */
  lemma RunQuery(steps: seq<Step>, tx: nat, row: string, who: string, locked: Option<string>)
    returns (steps': seq<Step>)
    requires var s := After(steps);
      && tx !in s.open && WaitsFor(s.jobs, who, row) && !Picked(s.open, row) && !Held(s.locks, row)
      && (locked.Some? ==>
            WaitsFor(s.jobs, who, locked.value) && (Picked(s.open, locked.value) || Held(s.locks, locked.value)))
      && forall x :: WaitsFor(s.jobs, who, x) && s.jobs[x].created < s.jobs[row].created ==> locked == Some(x)
    ensures var s := After(steps);
      var taken := locked.Some? && Picked(s.open, locked.value);
      After(steps') == s.(open := s.open[tx := Poll(
        who, WaitingFor(s.jobs, who), AsSet(locked), Some(row), |s.log|,
        if taken then {} else AsSet(locked), if taken then AsSet(locked) else {})])
    ensures SerialRun(steps, who) && (forall t :: t in After(steps).open ==> After(steps).open[t].agent != who) ==>
              SerialRun(steps', who)
  {
    hide After, Next, SerialRun, Picked, Held;
    var s := After(steps);
    steps' := RunBegin(steps, tx, who);
    PickedSame(s.open, tx, After(steps').open[tx], row);
    if locked.Some? {
      PickedSame(s.open, tx, After(steps').open[tx], locked.value);
      var begun := After(steps');
      steps' := RunPass(steps', tx, locked.value);
      PickedSame(begun.open, tx, After(steps').open[tx], row);
      assert After(steps').open[tx].passed == AsSet(locked);
    }
    steps' := RunSelect(steps', tx, row);
    assert After(steps').open == s.open[tx := After(steps').open[tx]];
  }

  lemma RunCommit(steps: seq<Step>, tx: nat) returns (steps': seq<Step>)
    requires var s := After(steps); tx in s.open && s.open[tx].pick.Some? && s.open[tx].pick.value in s.jobs
    ensures var s := After(steps);
      After(steps') == s.(jobs := s.jobs[s.open[tx].pick.value := s.jobs[s.open[tx].pick.value].(status := "assigned")],
                          open := s.open - {tx}, log := s.log + [ClaimEvent(s.open[tx])])
    ensures forall who :: SerialRun(steps, who) ==> SerialRun(steps', who)
  {
    Then(steps, Commit(tx));
    steps' := steps + [Commit(tx)];
  }

  /** A poll and its commit, with no other poll open. */
  lemma RunClaim(steps: seq<Step>, job: string, who: string, locked: Option<string>) returns (steps': seq<Step>)
    requires var s := After(steps);
      && s.open == map[] && WaitsFor(s.jobs, who, job) && !Held(s.locks, job)
      && (locked.Some? ==> WaitsFor(s.jobs, who, locked.value) && Held(s.locks, locked.value))
      && forall x :: WaitsFor(s.jobs, who, x) && s.jobs[x].created < s.jobs[job].created ==> locked == Some(x)
    ensures var s := After(steps);
      After(steps') == s.(jobs := s.jobs[job := s.jobs[job].(status := "assigned")],
                          log := s.log + [Claimed(job, who, |s.log|, AsSet(locked), {})])
    ensures SerialRun(steps, who) ==> SerialRun(steps', who)
  {
    hide Enabled, Next, After, SerialRun;
    steps' := RunQuery(steps, 0, job, who, locked);
    steps' := RunCommit(steps', 0);
    assert After(steps').open == map[];
  }

  lemma TwoJobs(who: string, older: string, younger: string) returns (steps: seq<Step>)
    requires older != younger
    ensures SerialRun(steps, who)
    ensures After(steps) == EMPTY.(jobs := map[older := Job(Some(who), "pending", 1), younger := Job(Some(who), "pending", 2)],
                                   log := [Created(older), Created(younger)])
  {
    hide Enabled, Next;
    steps := RunCreate([], older, who, 1);
    steps := RunCreate(steps, younger, who, 2);
  }

  /** A retried job comes behind a younger one in a serial run. */
  lemma ResetComesLate(who: string, older: string, younger: string) returns (steps: seq<Step>)
    requires older != younger
    ensures var s := After(steps);
      && SerialRun(steps, who)
      && s.log == [Created(older), Created(younger), Claimed(younger, who, 2, {}, {}), Reset(older),
                   Claimed(older, who, 4, {}, {})]
      && older in s.jobs && younger in s.jobs && s.jobs[older].created < s.jobs[younger].created
  {
    hide Enabled, Next, After, SerialRun;
    steps := TwoJobs(who, older, younger);
    steps := RunUpdate(steps, older, "failed");
    steps := RunClaim(steps, younger, who, None);
    steps := RunUpdate(steps, older, "pending");
    steps := RunClaim(steps, older, who, None);
  }

  /** A job that is neither created nor reset meanwhile comes behind a younger one, since a transaction held its row. */
  lemma HeldComesLate(who: string, older: string, younger: string) returns (steps: seq<Step>)
    requires older != younger
    ensures var s := After(steps);
      && SerialRun(steps, who)
      && s.log == [Created(older), Created(younger), Claimed(younger, who, 2, {older}, {}), Claimed(older, who, 3, {}, {})]
      && older in s.jobs && younger in s.jobs && s.jobs[older].created < s.jobs[younger].created
  {
    hide Enabled, Next, After, SerialRun;
    steps := TwoJobs(who, older, younger);
    steps := RunHold(steps, older);
    steps := RunClaim(steps, younger, who, Some(older));
    steps := RunRelease(steps);
    steps := RunClaim(steps, older, who, None);
  }

  lemma RunHold(steps: seq<Step>, row: string) returns (steps': seq<Step>)
    requires After(steps).open == map[] && After(steps).locks == map[]
    ensures After(steps') == After(steps).(locks := map[0 := row])
    ensures Held(After(steps').locks, row)
    ensures forall who :: SerialRun(steps, who) ==> SerialRun(steps', who)
  {
    Then(steps, Hold(0, row));
    steps' := steps + [Hold(0, row)];
  }

  lemma RunRelease(steps: seq<Step>) returns (steps': seq<Step>)
    requires 0 in After(steps).locks
    ensures After(steps') == After(steps).(locks := After(steps).locks - {0})
    ensures forall who :: SerialRun(steps, who) ==> SerialRun(steps', who)
  {
    Then(steps, Release(0));
    steps' := steps + [Release(0)];
  }

  /** Two polls of one agent that overlap may commit the younger job first. */
  lemma OverlapComesLate(who: string, older: string, younger: string) returns (steps: seq<Step>)
    requires older != younger
    ensures var s := After(steps);
      && s.log == [Created(older), Created(younger), Claimed(younger, who, 2, {}, {older}), Claimed(older, who, 2, {}, {})]
      && older in s.jobs && younger in s.jobs && s.jobs[older].created < s.jobs[younger].created
  {
    hide Enabled, Next, After, SerialRun;
    steps := TwoJobs(who, older, younger);
    steps := RunQuery(steps, 0, older, who, None);
    assert Picked(After(steps).open, older);
    steps := RunQuery(steps, 1, younger, who, Some(older));
    steps := RunCommit(steps, 1);
    steps := RunCommit(steps, 0);
  }
}
