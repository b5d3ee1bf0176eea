/**
 The collection status of an incident: the aggregate of its jobs' statuses, and the transactions of agents
 that finish their jobs at the same time, each updating the incident from what it can see.
 */
module IncidentSync {
  import opened Options
  import opened Strings

  // ----- The aggregate -----

  function Normalized(status: Option<string>): string {
    Lower(Strip(if status.Some? then status.value else ""))
  }

  /** Without the white space around it and in lower case; a missing status is empty. */
  lemma NormalizedMeans(s: string) returns (a: string, middle: string, b: string)
    ensures s == a + middle + b && Normalized(Some(s)) == Lower(middle) && Normalized(None) == ""
    ensures (forall c :: c in a ==> IsSpace(c)) && (forall c :: c in b ==> IsSpace(c))
    ensures middle != "" ==> !IsSpace(middle[0]) && !IsSpace(middle[|middle| - 1])
  {
    a, b := StripMeans(s);
    middle := Strip(s);
  }

  const SUCCESSFUL: seq<string> := ["complete", "completed", "done"]
  const UNSUCCESSFUL: seq<string> := ["failed", "cancelled", "canceled", "error"]

  predicate IsSuccessful(status: Option<string>) { Normalized(status) in SUCCESSFUL }

  predicate IsTerminal(status: Option<string>) { IsSuccessful(status) || Normalized(status) in UNSUCCESSFUL }

  /** The words that end a job, well or not. */
  lemma WordsMean(status: Option<string>)
    ensures IsSuccessful(status) <==> Normalized(status) in {"complete", "completed", "done"}
    ensures IsTerminal(status) <==>
            Normalized(status) in {"complete", "completed", "done", "failed", "cancelled", "canceled", "error"}
  {
  }

  lemma SuccessfulIsTerminal(status: Option<string>)
    ensures IsSuccessful(status) ==> IsTerminal(status)
  {
  }

  method Summarize(jobs: seq<Option<string>>) returns (allTerminal: bool, allSuccessful: bool)
    ensures allTerminal <==> forall j :: 0 <= j < |jobs| ==> IsTerminal(jobs[j])
    ensures allSuccessful <==> forall j :: 0 <= j < |jobs| ==> IsSuccessful(jobs[j])
    ensures allSuccessful ==> allTerminal
  {
    hide IsTerminal, IsSuccessful;
    allTerminal, allSuccessful := true, true;
    for i := 0 to |jobs|
      invariant allTerminal <==> forall j :: 0 <= j < i ==> IsTerminal(jobs[j])
      invariant allSuccessful <==> forall j :: 0 <= j < i ==> IsSuccessful(jobs[j])
      invariant allSuccessful ==> allTerminal
    {
      SuccessfulIsTerminal(jobs[i]);
      allTerminal := allTerminal && IsTerminal(jobs[i]);
      allSuccessful := allSuccessful && IsSuccessful(jobs[i]);
    }
  }

  datatype Aggregate = Complete | SomeFailed | InProgress

  /** The three-way aggregate, each way characterised on its own. */
  ghost predicate IsAggregate(jobs: seq<Option<string>>, a: Aggregate) {
    && (a.Complete? <==> forall i :: 0 <= i < |jobs| ==> IsSuccessful(jobs[i]))
    && (a.SomeFailed? <==>
          && (forall i :: 0 <= i < |jobs| ==> IsTerminal(jobs[i]))
          && (exists i :: 0 <= i < |jobs| && !IsSuccessful(jobs[i])))
    && (a.InProgress? <==> exists i :: 0 <= i < |jobs| && !IsTerminal(jobs[i]))
  }

  function AggregateStatus(a: Aggregate): string {
    match a
    case Complete => "COLLECTION_COMPLETE"
    case SomeFailed => "COLLECTION_FAILED"
    case InProgress => "COLLECTION_IN_PROGRESS"
  }

  /** The aggregate in the words of the statuses. */
  lemma AggregateInWords(jobs: seq<Option<string>>, a: Aggregate)
    requires IsAggregate(jobs, a)
    ensures var good, bad := {"complete", "completed", "done"}, {"failed", "cancelled", "canceled", "error"};
      && (AggregateStatus(a) == "COLLECTION_COMPLETE" <==> forall i :: 0 <= i < |jobs| ==> Normalized(jobs[i]) in good)
      && (AggregateStatus(a) == "COLLECTION_FAILED" <==>
            && (forall i :: 0 <= i < |jobs| ==> Normalized(jobs[i]) in good + bad)
            && exists i :: 0 <= i < |jobs| && Normalized(jobs[i]) in bad)
      && (AggregateStatus(a) == "COLLECTION_IN_PROGRESS" <==>
            exists i :: 0 <= i < |jobs| && Normalized(jobs[i]) !in good + bad)
  {
    hide Normalized, IsSuccessful, IsTerminal;
    forall i | 0 <= i < |jobs|
      ensures IsSuccessful(jobs[i]) <==> Normalized(jobs[i]) in {"complete", "completed", "done"}
      ensures IsTerminal(jobs[i]) <==>
              Normalized(jobs[i]) in {"complete", "completed", "done"} + {"failed", "cancelled", "canceled", "error"}
    {
      WordsMean(jobs[i]);
    }
  }

  class Incident {
    var status: string
    var progress: int
    var phase: string

    /** Closed incidents and incidents without jobs are left alone; others show their aggregate. */
    method SyncCollectionStatus(jobs: seq<Option<string>>) returns (ghost a: Aggregate)
      modifies this
      ensures old(status) == "CLOSED" || jobs == [] ==> unchanged(this)
      ensures old(status) != "CLOSED" && jobs != [] ==>
        && IsAggregate(jobs, a)
        && status == AggregateStatus(a)
        && progress == (if a.Complete? then 100 else old(progress))
        && phase == (match a case Complete => "uploading" case InProgress => "collecting" case SomeFailed => old(phase))
      ensures old(status) != "CLOSED" && jobs != [] ==>
        var good, bad := {"complete", "completed", "done"}, {"failed", "cancelled", "canceled", "error"};
        && (status == "COLLECTION_COMPLETE" <==> forall i :: 0 <= i < |jobs| ==> Normalized(jobs[i]) in good)
        && (status == "COLLECTION_FAILED" <==>
              && (forall i :: 0 <= i < |jobs| ==> Normalized(jobs[i]) in good + bad)
              && exists i :: 0 <= i < |jobs| && Normalized(jobs[i]) in bad)
        && (status == "COLLECTION_IN_PROGRESS" <==> exists i :: 0 <= i < |jobs| && Normalized(jobs[i]) !in good + bad)
        && (status == "COLLECTION_COMPLETE" ==> progress == 100 && phase == "uploading")
        && (status == "COLLECTION_IN_PROGRESS" ==> progress == old(progress) && phase == "collecting")
        && (status == "COLLECTION_FAILED" ==> progress == old(progress) && phase == old(phase))
    {
      hide Normalized, IsTerminal, IsSuccessful;
      a := InProgress;
      if status == "CLOSED" || jobs == [] { return; }
      var allTerminal, allSuccessful := Summarize(jobs);
      if allTerminal {
        if allSuccessful {
          a := Complete;
          status, progress, phase := "COLLECTION_COMPLETE", 100, "uploading";
        } else {
          a := SomeFailed;
          status := "COLLECTION_FAILED";
        }
      } else {
        status, phase := "COLLECTION_IN_PROGRESS", "collecting";
      }
      AggregateInWords(jobs, a);
    }
  }

  /** The aggregate as a function. */
  function AggregateOf(jobs: seq<Option<string>>): Aggregate {
    if forall i :: 0 <= i < |jobs| ==> IsSuccessful(jobs[i]) then Complete
    else if AllTerminal(jobs) then SomeFailed
    else InProgress
  }

  predicate AllTerminal(jobs: seq<Option<string>>) {
    forall i :: 0 <= i < |jobs| ==> IsTerminal(jobs[i])
  }

  lemma AggregateMeans(jobs: seq<Option<string>>, a: Aggregate)
    ensures IsAggregate(jobs, a) <==> a == AggregateOf(jobs)
    ensures AggregateOf(jobs).InProgress? <==> !AllTerminal(jobs)
  {
    hide IsTerminal, IsSuccessful;
    forall i | 0 <= i < |jobs| ensures IsSuccessful(jobs[i]) ==> IsTerminal(jobs[i]) {
      SuccessfulIsTerminal(jobs[i]);
    }
  }

  // ----- Transactions that update the incident at the same time -----

  /**
   A transaction that gives a job a status and then updates the incident.  `writes` is false when it found the
   job in that status already, for then the row is not written.  `loaded` is the incident status it found,
   `shown` the one it computed: the aggregate of the committed statuses and its own if its own is terminal, and in
   progress otherwise.  A transaction that does not update the incident loads and shows nothing.  The lengths of
   the log at its beginning, at its load and at its read are history variables, which no step reads.
   */
  datatype Tx = Tx(
    job: nat, status: string, writes: bool, loaded: Option<string>, shown: Option<Aggregate>,
    beganAt: nat, loadedAt: nat, readAt: nat)

  /** What is committed, the open transactions, and the committed ones in order, a history variable. */
  datatype State = State(jobs: seq<Option<string>>, incident: string, open: map<nat, Tx>, log: seq<Tx>)

  /** `Write` is the commit of a status alone.  Row locks are not relied upon. */
  datatype Step =
    | Write(job: nat, status: string)
    | Begin(tx: nat, job: nat, status: string, writes: bool)
    | Load(tx: nat)
    | Read(tx: nat)
    | Commit(tx: nat)
    | Rollback(tx: nat)

  const IN_PROGRESS := AggregateStatus(InProgress)
  const CLOSED := "CLOSED"

  predicate Enabled(s: State, step: Step) {
    match step
    case Write(job, _) => job < |s.jobs|
    case Begin(tx, job, status, writes) =>
      tx !in s.open && job < |s.jobs| && (writes || s.jobs[job] == Some(status))
    case Load(tx) => tx in s.open && s.open[tx].loaded.None?
    case Read(tx) => tx in s.open && s.open[tx].loaded.Some? && s.open[tx].shown.None?
    case Commit(tx) => tx in s.open && s.open[tx].shown.Some?
    case Rollback(tx) => tx in s.open
  }

  /** What the transaction computes from the committed statuses. */
  function Seen(jobs: seq<Option<string>>, t: Tx): Aggregate {
    if IsTerminal(Some(t.status)) && t.job < |jobs| then AggregateOf(jobs[t.job := Some(t.status)]) else InProgress
  }

  function WithJob(jobs: seq<Option<string>>, t: Tx): (r: seq<Option<string>>)
    ensures |r| == |jobs|
  {
    if t.writes && t.job < |jobs| then jobs[t.job := Some(t.status)] else jobs
  }

  /** The incident row is written only if its status differs from the one loaded, and never if that is closed. */
  predicate Updates(t: Tx) {
    t.shown.Some? && t.loaded.Some? && t.loaded.value != CLOSED && t.loaded.value != AggregateStatus(t.shown.value)
  }

  function WithIncident(incident: string, t: Tx): string {
    if Updates(t) then AggregateStatus(t.shown.value) else incident
  }

  function Next(s: State, step: Step): State
    requires Enabled(s, step)
  {
    match step
    case Write(job, status) =>
      var t := Tx(job, status, true, None, None, |s.log|, 0, 0);
      s.(jobs := WithJob(s.jobs, t), log := s.log + [t])
    case Begin(tx, job, status, writes) =>
      s.(open := s.open[tx := Tx(job, status, writes, None, None, |s.log|, 0, 0)])
    case Load(tx) => s.(open := s.open[tx := s.open[tx].(loaded := Some(s.incident), loadedAt := |s.log|)])
    case Read(tx) =>
      s.(open := s.open[tx := s.open[tx].(shown := Some(Seen(s.jobs, s.open[tx])), readAt := |s.log|)])
    case Commit(tx) =>
      var t := s.open[tx];
      State(WithJob(s.jobs, t), WithIncident(s.incident, t), s.open - {tx}, s.log + [t])
    case Rollback(tx) => s.(open := s.open - {tx})
  }

  /** Any interleaving; a step that is not enabled when its turn comes has no effect. */
  function After(jobs: seq<Option<string>>, incident: string, steps: seq<Step>): State {
    if steps == [] then State(jobs, incident, map[], [])
    else
      var s := After(jobs, incident, steps[..|steps| - 1]);
      if Enabled(s, steps[|steps| - 1]) then Next(s, steps[|steps| - 1]) else s
  }

  /** A commit gives the job its status if it was not found with it; no other job is touched, by a rollback none. */
  lemma EndsMean(s: State, tx: nat)
    ensures Enabled(s, Commit(tx)) && s.open[tx].job < |s.jobs| ==>
              var after, t := Next(s, Commit(tx)), s.open[tx];
              && |after.jobs| == |s.jobs| && after.open == s.open - {tx}
              && after.jobs[t.job] == (if t.writes then Some(t.status) else s.jobs[t.job])
              && forall j :: 0 <= j < |s.jobs| && j != t.job ==> after.jobs[j] == s.jobs[j]
    ensures Enabled(s, Rollback(tx)) ==> Next(s, Rollback(tx)) == s.(open := s.open - {tx})
  {
  }

  // ----- What the committed transactions determine -----

  function JobsAfter(jobs: seq<Option<string>>, log: seq<Tx>): (r: seq<Option<string>>)
    ensures |r| == |jobs|
  {
    if log == [] then jobs else WithJob(JobsAfter(jobs, log[..|log| - 1]), log[|log| - 1])
  }

  function IncidentAfter(incident: string, log: seq<Tx>): string {
    if log == [] then incident else WithIncident(IncidentAfter(incident, log[..|log| - 1]), log[|log| - 1])
  }

  /** What the transaction found was what the commits before its begin, its load and its read had left. */
  ghost predicate Faithful(jobs: seq<Option<string>>, incident: string, log: seq<Tx>, t: Tx, n: nat)
    requires n <= |log|
  {
    && t.job < |jobs| && t.beganAt <= n
    && (!t.writes ==> JobsAfter(jobs, log[..t.beganAt])[t.job] == Some(t.status))
    && (t.loaded.Some? ==>
          t.beganAt <= t.loadedAt <= n && t.loaded.value == IncidentAfter(incident, log[..t.loadedAt]))
    && (t.shown.Some? ==>
          && t.loaded.Some? && t.loadedAt <= t.readAt <= n
          && t.shown.value == Seen(JobsAfter(jobs, log[..t.readAt]), t))
  }

  ghost predicate AllFaithful(jobs: seq<Option<string>>, incident: string, log: seq<Tx>) {
    forall p: nat :: p < |log| ==> Faithful(jobs, incident, log, log[p], p)
  }

  ghost predicate Inv(jobs: seq<Option<string>>, incident: string, s: State) {
    && s.jobs == JobsAfter(jobs, s.log) && s.incident == IncidentAfter(incident, s.log)
    && AllFaithful(jobs, incident, s.log)
    && forall tx :: tx in s.open ==> Faithful(jobs, incident, s.log, s.open[tx], |s.log|)
  }

  lemma FaithfulLonger(jobs: seq<Option<string>>, incident: string, log: seq<Tx>, e: Tx, t: Tx, n: nat, n': nat)
    requires n <= |log| && n <= n' <= |log| + 1 && Faithful(jobs, incident, log, t, n)
    ensures Faithful(jobs, incident, log + [e], t, n')
  {
    hide JobsAfter, IncidentAfter, Seen;
    assert (log + [e])[..t.beganAt] == log[..t.beganAt];
    if t.loaded.Some? { assert (log + [e])[..t.loadedAt] == log[..t.loadedAt]; }
    if t.shown.Some? { assert (log + [e])[..t.readAt] == log[..t.readAt]; }
  }

  lemma AfterOneMore(jobs: seq<Option<string>>, incident: string, log: seq<Tx>, t: Tx)
    ensures JobsAfter(jobs, log + [t]) == WithJob(JobsAfter(jobs, log), t)
    ensures IncidentAfter(incident, log + [t]) == WithIncident(IncidentAfter(incident, log), t)
  {
    assert (log + [t])[..|log|] == log;
  }

  /** A transaction is committed. */
  lemma LogInv(jobs: seq<Option<string>>, incident: string, s: State, t: Tx, open: map<nat, Tx>)
    requires Inv(jobs, incident, s) && Faithful(jobs, incident, s.log, t, |s.log|)
    requires forall tx :: tx in open ==> tx in s.open && open[tx] == s.open[tx]
    ensures Inv(jobs, incident, State(WithJob(s.jobs, t), WithIncident(s.incident, t), open, s.log + [t]))
  {
    hide Faithful, JobsAfter, IncidentAfter;
    var log := s.log + [t];
    AfterOneMore(jobs, incident, s.log, t);
    forall p: nat | p < |log| ensures Faithful(jobs, incident, log, log[p], p) {
      FaithfulLonger(jobs, incident, s.log, t, log[p], p, p);
    }
    forall tx | tx in open ensures Faithful(jobs, incident, log, open[tx], |log|) {
      FaithfulLonger(jobs, incident, s.log, t, open[tx], |s.log|, |log|);
    }
  }

  lemma OpenInv(jobs: seq<Option<string>>, incident: string, s: State, tx: nat, t: Tx)
    requires Inv(jobs, incident, s) && Faithful(jobs, incident, s.log, t, |s.log|)
    ensures Inv(jobs, incident, s.(open := s.open[tx := t]))
  {
    hide Faithful, AllFaithful;
  }

  lemma StepInv(jobs: seq<Option<string>>, incident: string, s: State, step: Step)
    requires Inv(jobs, incident, s) && Enabled(s, step)
    ensures Inv(jobs, incident, Next(s, step))
  {
    hide JobsAfter, IncidentAfter, AggregateOf, IsTerminal, AllFaithful;
    assert s.log[..|s.log|] == s.log;
    var s' := Next(s, step);
    match step
    case Write(_, _) => LogInv(jobs, incident, s, s'.log[|s.log|], s.open);
    case Commit(tx) => LogInv(jobs, incident, s, s.open[tx], s'.open);
    case Rollback(_) =>
    case Begin(tx, _, _, _) => OpenInv(jobs, incident, s, tx, s'.open[tx]);
    case Load(tx) => OpenInv(jobs, incident, s, tx, s'.open[tx]);
    case Read(tx) => OpenInv(jobs, incident, s, tx, s'.open[tx]);
  }

  /** The committed statuses follow from the committed transactions, and each of these found what was committed then. */
  lemma {:induction false} AfterInv(jobs: seq<Option<string>>, incident: string, steps: seq<Step>)
    ensures Inv(jobs, incident, After(jobs, incident, steps))
  {
    hide Enabled, Next;
    if steps != [] {
      AfterInv(jobs, incident, steps[..|steps| - 1]);
      var s, step := After(jobs, incident, steps[..|steps| - 1]), steps[|steps| - 1];
      if Enabled(s, step) { StepInv(jobs, incident, s, step); }
    }
  }

  /** Position w holds the last transaction that wrote the incident. */
  ghost predicate LastToUpdate(log: seq<Tx>, w: nat) {
    w < |log| && Updates(log[w]) && forall q: nat :: w < q < |log| ==> !Updates(log[q])
  }

  lemma {:induction false} IncidentIsLastUpdate(incident: string, log: seq<Tx>, w: nat)
    requires LastToUpdate(log, w)
    ensures IncidentAfter(incident, log) == AggregateStatus(log[w].shown.value)
  {
    hide Updates;
    var n := |log| - 1;
    if w < n {
      assert !Updates(log[n]);
      IncidentIsLastUpdate(incident, log[..n], w);
    }
  }

  /**
   Over every interleaving, whatever is written to the jobs: the incident shows the aggregate of its jobs if and
   only if that aggregate is the same as of the jobs committed before the read of the transaction that wrote
   the incident last, with that transaction's own status.
   */
  lemma LastUpdateDecides(jobs: seq<Option<string>>, incident: string, steps: seq<Step>, w: nat)
    requires LastToUpdate(After(jobs, incident, steps).log, w)
    ensures var s := After(jobs, incident, steps);
      && s.log[w].readAt <= w
      && (s.incident == AggregateStatus(AggregateOf(s.jobs)) <==>
          AggregateOf(s.jobs) == Seen(JobsAfter(jobs, s.log[..s.log[w].readAt]), s.log[w]))
  {
    hide JobsAfter, IncidentAfter, Seen, AggregateOf;
    var s := After(jobs, incident, steps);
    AfterInv(jobs, incident, steps);
    assert Faithful(jobs, incident, s.log, s.log[w], w);
    IncidentIsLastUpdate(incident, s.log, w);
  }

  /** While no transaction has written it, the incident is as it was. */
  lemma {:induction false} NothingUpdated(incident: string, log: seq<Tx>)
    requires forall q: nat :: q < |log| ==> !Updates(log[q])
    ensures IncidentAfter(incident, log) == incident
  {
    hide Updates;
    if log != [] {
      assert !Updates(log[|log| - 1]);
      NothingUpdated(incident, log[..|log| - 1]);
    }
  }

  /** A closed incident is left alone by every run. */
  lemma {:induction false} StaysClosed(jobs: seq<Option<string>>, steps: seq<Step>)
    ensures After(jobs, "CLOSED", steps).incident == "CLOSED"
    ensures forall tx :: tx in After(jobs, "CLOSED", steps).open ==>
              var t := After(jobs, "CLOSED", steps).open[tx]; t.loaded.Some? ==> t.loaded == Some("CLOSED")
  {
    if steps != [] { StaysClosed(jobs, steps[..|steps| - 1]); }
  }

  lemma {:induction false} NeverClosed(incident: string, log: seq<Tx>)
    requires incident != CLOSED
    ensures IncidentAfter(incident, log) != CLOSED
  {
    if log != [] { NeverClosed(incident, log[..|log| - 1]); }
  }

  /** A status that is not terminal makes the aggregate what its transaction shows without reading. */
  lemma SeenIsAggregate(jobs: seq<Option<string>>, t: Tx)
    requires t.job < |jobs|
    ensures Seen(jobs, t) == AggregateOf(jobs[t.job := Some(t.status)])
  {
    hide IsTerminal, IsSuccessful;
    var own := jobs[t.job := Some(t.status)];
    assert own[t.job] == Some(t.status);
    AggregateMeans(own, InProgress);
  }

  lemma UndisturbedCommit(jobs: seq<Option<string>>, incident: string, before: seq<Tx>, t: Tx)
    requires incident != CLOSED && t.job < |jobs| && t.shown.Some? && t.loaded == Some(IncidentAfter(incident, before))
    requires !t.writes ==> JobsAfter(jobs, before)[t.job] == Some(t.status)
    requires t.shown.value == Seen(JobsAfter(jobs, before), t)
    ensures WithIncident(IncidentAfter(incident, before), t)
         == AggregateStatus(AggregateOf(WithJob(JobsAfter(jobs, before), t)))
  {
    hide JobsAfter, IncidentAfter, Seen, AggregateOf;
    NeverClosed(incident, before);
    SeenIsAggregate(JobsAfter(jobs, before), t);
    assert WithJob(JobsAfter(jobs, before), t) == JobsAfter(jobs, before)[t.job := Some(t.status)];
  }

  /** Over every interleaving: a transaction in whose time no other committed leaves the aggregate. */
  lemma UndisturbedShowsAggregate(jobs: seq<Option<string>>, incident: string, steps: seq<Step>)
    requires incident != CLOSED
    requires var log := After(jobs, incident, steps).log;
      log != [] && log[|log| - 1].shown.Some? && log[|log| - 1].beganAt == |log| - 1
    ensures var s := After(jobs, incident, steps); s.incident == AggregateStatus(AggregateOf(s.jobs))
  {
    hide After, JobsAfter, IncidentAfter, Seen, AggregateOf, WithJob, WithIncident;
    var s := After(jobs, incident, steps);
    var n := |s.log| - 1;
    var before, t := s.log[..n], s.log[n];
    AfterInv(jobs, incident, steps);
    assert Faithful(jobs, incident, s.log, t, n);
    assert s.log == before + [t];
    AfterOneMore(jobs, incident, before, t);
    UndisturbedCommit(jobs, incident, before, t);
  }

  // ----- Runs in which finished jobs stay finished -----

  predicate SameClass(a: Option<string>, b: Option<string>) {
    IsTerminal(a) && IsTerminal(b) && (IsSuccessful(a) <==> IsSuccessful(b))
  }

  /** No transaction gives a finished job a status that is not terminal or that turns success into failure or back. */
  ghost predicate Settling(jobs: seq<Option<string>>, log: seq<Tx>) {
    forall p: nat :: p < |log| ==> SettlesAt(jobs, log, p)
  }

  ghost predicate SettlesAt(jobs: seq<Option<string>>, log: seq<Tx>, p: nat)
    requires p < |log|
  {
    var before := JobsAfter(jobs, log[..p]);
    log[p].job < |jobs| && IsTerminal(before[log[p].job]) ==> SameClass(before[log[p].job], Some(log[p].status))
  }

  /** When the transaction read, all jobs but its own were finished, which it finishes itself or finds finished. */
  ghost predicate SawAllFinished(jobs: seq<Option<string>>, log: seq<Tx>, p: nat) {
    && p < |log| && log[p].shown.Some? && log[p].readAt <= |log| && IsTerminal(Some(log[p].status))
    && forall j: nat :: j < |jobs| && j != log[p].job ==> IsTerminal(JobsAfter(jobs, log[..log[p].readAt])[j])
  }

  lemma PrefixStep(jobs: seq<Option<string>>, incident: string, log: seq<Tx>, n: nat)
    requires n < |log|
    ensures JobsAfter(jobs, log[..n + 1]) == WithJob(JobsAfter(jobs, log[..n]), log[n])
    ensures IncidentAfter(incident, log[..n + 1]) == WithIncident(IncidentAfter(incident, log[..n]), log[n])
  {
    assert log[..n + 1] == log[..n] + [log[n]];
    AfterOneMore(jobs, incident, log[..n], log[n]);
  }

  lemma {:induction false} StaysFinished(jobs: seq<Option<string>>, log: seq<Tx>, j: nat, k: nat, n: nat)
    requires Settling(jobs, log) && j < |jobs| && k <= n <= |log|
    requires IsTerminal(JobsAfter(jobs, log[..k])[j])
    ensures SameClass(JobsAfter(jobs, log[..k])[j], JobsAfter(jobs, log[..n])[j])
    decreases n - k
  {
    hide JobsAfter, IsTerminal, IsSuccessful;
    if k < n {
      StaysFinished(jobs, log, j, k, n - 1);
      assert SettlesAt(jobs, log, n - 1);
      PrefixStep(jobs, "", log, n - 1);
    }
  }

  /** The transaction's own job is in the class of its status from its commit on. */
  lemma OwnClass(jobs: seq<Option<string>>, incident: string, log: seq<Tx>, p: nat, n: nat)
    requires AllFaithful(jobs, incident, log) && Settling(jobs, log) && p < n <= |log|
    requires IsTerminal(Some(log[p].status))
    ensures log[p].job < |jobs| && SameClass(Some(log[p].status), JobsAfter(jobs, log[..n])[log[p].job])
  {
    hide JobsAfter, IncidentAfter, IsTerminal, IsSuccessful, Seen;
    assert Faithful(jobs, incident, log, log[p], p);
    PrefixStep(jobs, incident, log, p);
    StaysFinished(jobs, log, log[p].job, if log[p].writes then p + 1 else log[p].beganAt, n);
  }

  lemma SameAggregate(a: seq<Option<string>>, b: seq<Option<string>>)
    requires |a| == |b| && forall j: nat :: j < |a| ==> SameClass(a[j], b[j])
    ensures AllTerminal(a) && AllTerminal(b) && AggregateOf(a) == AggregateOf(b)
  {
    hide IsTerminal, IsSuccessful;
    forall i | 0 <= i < |a| ensures SameClass(a[i], b[i]) { var j: nat := i; }
  }

  /** From then on all jobs are finished, and what the transaction saw remains the aggregate. */
  lemma SawTheAggregate(jobs: seq<Option<string>>, incident: string, log: seq<Tx>, p: nat, n: nat)
    requires AllFaithful(jobs, incident, log) && Settling(jobs, log) && p < n <= |log| && SawAllFinished(jobs, log, p)
    ensures AllTerminal(JobsAfter(jobs, log[..n])) && AggregateOf(JobsAfter(jobs, log[..n])) == log[p].shown.value
  {
    hide JobsAfter, IncidentAfter, IsTerminal, IsSuccessful, AggregateOf;
    var t := log[p];
    assert Faithful(jobs, incident, log, t, p);
    var seen := JobsAfter(jobs, log[..t.readAt])[t.job := Some(t.status)];
    var now := JobsAfter(jobs, log[..n]);
    OwnClass(jobs, incident, log, p, n);
    forall j: nat | j < |jobs| ensures SameClass(seen[j], now[j]) {
      if j != t.job { StaysFinished(jobs, log, j, t.readAt, n); }
    }
    SameAggregate(seen, now);
  }

  lemma SawUnfinished(jobs: seq<Option<string>>, incident: string, log: seq<Tx>, p: nat)
    requires AllFaithful(jobs, incident, log) && p < |log| && log[p].shown.Some? && !SawAllFinished(jobs, log, p)
    ensures log[p].shown.value == InProgress
  {
    hide JobsAfter, IncidentAfter, IsTerminal, IsSuccessful, AggregateOf;
    var t := log[p];
    assert Faithful(jobs, incident, log, t, p);
    if IsTerminal(Some(t.status)) {
      var j: nat :| j < |jobs| && j != t.job && !IsTerminal(JobsAfter(jobs, log[..t.readAt])[j]);
      var seen := JobsAfter(jobs, log[..t.readAt])[t.job := Some(t.status)];
      assert !IsTerminal(seen[j]);
      AggregateMeans(seen, InProgress);
    }
  }

  ghost predicate SomeSawAllFinished(jobs: seq<Option<string>>, log: seq<Tx>, n: nat) {
    exists p: nat :: p < n && SawAllFinished(jobs, log, p)
  }

  /** The last of the first n commits, when the others have left the incident as they should. */
  lemma OneMoreCommit(jobs: seq<Option<string>>, log: seq<Tx>, n: nat)
    requires AllFaithful(jobs, IN_PROGRESS, log) && Settling(jobs, log) && n < |log|
    requires forall k: nat :: k <= n ==> ShowsUpTo(jobs, log, k)
    ensures ShowsUpTo(jobs, log, n + 1)
  {
    hide JobsAfter, IncidentAfter, IsTerminal, IsSuccessful, AggregateOf, AllFaithful, Settling, SawAllFinished;
    var t := log[n];
    FaithfulAt(jobs, log, n);
    PrefixStep(jobs, IN_PROGRESS, log, n);
    assert ShowsUpTo(jobs, log, n);
    if t.shown.Some? {
      assert ShowsUpTo(jobs, log, t.loadedAt);
      if SomeSawAllFinished(jobs, log, t.loadedAt) {
        var p: nat :| p < t.loadedAt && SawAllFinished(jobs, log, p);
        FinishedWhenRead(jobs, log, p, n);
        SawTheAggregate(jobs, IN_PROGRESS, log, p, |log|);
      }
      if SawAllFinished(jobs, log, n) {
        SawTheAggregate(jobs, IN_PROGRESS, log, n, |log|);
      } else {
        SawUnfinished(jobs, IN_PROGRESS, log, n);
      }
    } else {
      NothingSeen(jobs, log, n);
    }
  }

  /** The incident is in progress until some transaction has seen all jobs finished, and shows their aggregate then. */
  ghost predicate ShowsUpTo(jobs: seq<Option<string>>, log: seq<Tx>, n: nat)
    requires n <= |log|
  {
    IncidentAfter(IN_PROGRESS, log[..n]) ==
      if SomeSawAllFinished(jobs, log, n) then AggregateStatus(AggregateOf(JobsAfter(jobs, log[..|log|]))) else IN_PROGRESS
  }

  lemma FaithfulAt(jobs: seq<Option<string>>, log: seq<Tx>, n: nat)
    requires AllFaithful(jobs, IN_PROGRESS, log) && n < |log|
    ensures Faithful(jobs, IN_PROGRESS, log, log[n], n)
  {
  }

  lemma NothingSeen(jobs: seq<Option<string>>, log: seq<Tx>, n: nat)
    requires n < |log| && log[n].shown.None?
    ensures !SawAllFinished(jobs, log, n)
  {
  }

  /** Once all jobs are finished every transaction that loads sees them so. */
  lemma FinishedWhenRead(jobs: seq<Option<string>>, log: seq<Tx>, p: nat, n: nat)
    requires AllFaithful(jobs, IN_PROGRESS, log) && Settling(jobs, log) && n < |log| && log[n].shown.Some?
    requires SawAllFinished(jobs, log, p) && p < log[n].loadedAt
    ensures SawAllFinished(jobs, log, n)
  {
    hide JobsAfter, IncidentAfter, IsTerminal, IsSuccessful, AggregateOf;
    FaithfulAt(jobs, log, n);
    SawTheAggregate(jobs, IN_PROGRESS, log, p, log[n].readAt);
    SawTheAggregate(jobs, IN_PROGRESS, log, p, n);
    assert SettlesAt(jobs, log, n);
  }

  lemma {:induction false} AllCommits(jobs: seq<Option<string>>, log: seq<Tx>, n: nat)
    requires AllFaithful(jobs, IN_PROGRESS, log) && Settling(jobs, log) && n <= |log|
    ensures forall k: nat :: k <= n ==> ShowsUpTo(jobs, log, k)
  {
    hide AllFaithful, Settling, JobsAfter, AggregateOf, SawAllFinished;
    if n == 0 {
      assert log[..0] == [];
    } else {
      AllCommits(jobs, log, n - 1);
      OneMoreCommit(jobs, log, n - 1);
    }
  }

  /**
   Over every interleaving from an incident in progress in which finished jobs stay finished, though their agents
   may report again and again: the incident shows the aggregate of its jobs if and only if some job is
   unfinished or some committed transaction had seen all of them finished, its own by itself.
   */
  lemma ShowsAggregateExactly(jobs: seq<Option<string>>, steps: seq<Step>)
    requires Settling(jobs, After(jobs, IN_PROGRESS, steps).log)
    ensures var s := After(jobs, IN_PROGRESS, steps);
      s.incident == AggregateStatus(AggregateOf(s.jobs)) <==>
      !AllTerminal(s.jobs) || exists p: nat :: SawAllFinished(jobs, s.log, p)
  {
    hide JobsAfter, IncidentAfter, IsTerminal, IsSuccessful, AggregateOf, SawAllFinished, Settling, AllFaithful;
    var s := After(jobs, IN_PROGRESS, steps);
    AfterInv(jobs, IN_PROGRESS, steps);
    AllCommits(jobs, s.log, |s.log|);
    assert s.log[..|s.log|] == s.log;
    assert ShowsUpTo(jobs, s.log, |s.log|);
    AggregateMeans(s.jobs, InProgress);
    if p: nat :| SawAllFinished(jobs, s.log, p) {
      SawBeforeEnd(jobs, s.log, p);
      SawTheAggregate(jobs, IN_PROGRESS, s.log, p, |s.log|);
    }
  }

  lemma SawBeforeEnd(jobs: seq<Option<string>>, log: seq<Tx>, p: nat)
    requires SawAllFinished(jobs, log, p)
    ensures p < |log|
  {
  }

  // ----- The condition can fail -----

  lemma Then(jobs: seq<Option<string>>, steps: seq<Step>, step: Step)
    ensures var s := After(jobs, IN_PROGRESS, steps);
      After(jobs, IN_PROGRESS, steps + [step]) == if Enabled(s, step) then Next(s, step) else s
  {
    assert (steps + [step])[..|steps|] == steps;
  }

  /** Gives a job a status and reads, but does not commit yet. */
  lemma RunFinish(jobs: seq<Option<string>>, steps: seq<Step>, tx: nat, job: nat, status: string) returns (steps': seq<Step>)
    requires tx !in After(jobs, IN_PROGRESS, steps).open && job < |After(jobs, IN_PROGRESS, steps).jobs|
    ensures var s := After(jobs, IN_PROGRESS, steps);
      var t := Tx(job, status, true, None, None, |s.log|, 0, 0);
      After(jobs, IN_PROGRESS, steps') == s.(open := s.open[tx := t.(
        loaded := Some(s.incident), loadedAt := |s.log|, shown := Some(Seen(s.jobs, t)), readAt := |s.log|)])
  {
    hide IsTerminal, AggregateOf;
    Then(jobs, steps, Begin(tx, job, status, true));
    steps' := steps + [Begin(tx, job, status, true)];
    Then(jobs, steps', Load(tx));
    steps' := steps' + [Load(tx)];
    Then(jobs, steps', Read(tx));
    steps' := steps' + [Read(tx)];
  }

  /** Two agents finish at once, each missing the other: the incident stays in progress with all jobs finished. */
  lemma OverlapStaysInProgress(jobs: seq<Option<string>>, status: string) returns (steps: seq<Step>)
    requires |jobs| == 2 && !IsTerminal(jobs[0]) && !IsTerminal(jobs[1]) && IsTerminal(Some(status))
    ensures var s := After(jobs, IN_PROGRESS, steps);
      && Settling(jobs, s.log) && AllTerminal(s.jobs) && s.open == map[]
      && s.incident == IN_PROGRESS != AggregateStatus(AggregateOf(s.jobs))
  {
    hide IsTerminal, IsSuccessful;
    assert !IsTerminal(jobs[0 := Some(status)][1]) && !IsTerminal(jobs[1 := Some(status)][0]);
    AggregateMeans(jobs[0 := Some(status)], InProgress);
    AggregateMeans(jobs[1 := Some(status)], InProgress);
    steps := RunFinish(jobs, [], 0, 0, status);
    steps := RunFinish(jobs, steps, 1, 1, status);
    Then(jobs, steps, Commit(0));
    steps := steps + [Commit(0)];
    Then(jobs, steps, Commit(1));
    steps := steps + [Commit(1)];
    var s := After(jobs, IN_PROGRESS, steps);
    assert s.open == map[];
    assert s.incident == IN_PROGRESS;
    AggregateMeans(s.jobs, InProgress);
    BothSettle(jobs, s.log);
  }

  lemma BothSettle(jobs: seq<Option<string>>, log: seq<Tx>)
    requires |jobs| == 2 && !IsTerminal(jobs[0]) && !IsTerminal(jobs[1])
    requires |log| == 2 && log[0].job == 0 && log[1].job == 1
    ensures Settling(jobs, log)
  {
    hide IsTerminal, IsSuccessful;
    PrefixStep(jobs, "", log, 0);
    assert log[..0] == [];
    assert SettlesAt(jobs, log, 0) && SettlesAt(jobs, log, 1);
  }
}
