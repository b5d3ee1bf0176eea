/**
 The parser stages as concurrent tasks: each goes through its inputs in order and holds one of four
 semaphore slots while its tool runs.  Every interleaving ends with the reports of running the
 tasks one after the other.
 */
module ParserTasks {
  import opened ParsingPipeline

  const SLOTS := 4

  /** A configured stage and its sorted, distinct inputs. */
  datatype Work = Work(key: string, inputs: seq<string>)

  /** How far a task has got; `running` while it holds a slot for the input at `done`. */
  datatype Task = Task(done: nat, running: bool, succeeded: nat, errors: seq<string>)

  datatype Step = Start(t: nat) | Finish(t: nat)

  type Tasks = seq<Task>

  function InFlight(tasks: Tasks): set<nat> {
    set t: nat | t < |tasks| && tasks[t].running
  }

  predicate Enabled(plan: seq<Work>, tasks: Tasks, step: Step) {
    match step
    case Start(t) =>
      t < |plan| == |tasks| && !tasks[t].running && tasks[t].done < |plan[t].inputs| && |InFlight(tasks)| < SLOTS
    case Finish(t) => t < |plan| == |tasks| && tasks[t].running && tasks[t].done < |plan[t].inputs|
  }

  /** `produces` says whether a stage's tool exits cleanly with CSV output for an input. */
  function Next(plan: seq<Work>, produces: (string, string) -> bool, tasks: Tasks, step: Step): Tasks
    requires Enabled(plan, tasks, step)
  {
    match step
    case Start(t) => tasks[t := tasks[t].(running := true)]
    case Finish(t) =>
      var task, input := tasks[t], plan[t].inputs[tasks[t].done];
      tasks[t := if produces(plan[t].key, input) then Task(task.done + 1, false, task.succeeded + 1, task.errors)
                 else Task(task.done + 1, false, task.succeeded, task.errors + [input])]
  }

  /** Any interleaving; a step that is not enabled when its turn comes has no effect. */
  function After(plan: seq<Work>, produces: (string, string) -> bool, steps: seq<Step>): (r: Tasks)
    ensures |r| == |plan|
  {
    if steps == [] then seq(|plan|, _ => Task(0, false, 0, []))
    else
      var tasks := After(plan, produces, steps[..|steps| - 1]);
      if Enabled(plan, tasks, steps[|steps| - 1]) then Next(plan, produces, tasks, steps[|steps| - 1]) else tasks
  }

  ghost predicate TaskOk(w: Work, produces: (string, string) -> bool, task: Task) {
    && task.done <= |w.inputs|
    && (task.running ==> task.done < |w.inputs|)
    && task.errors == FailedInputs(w.inputs[..task.done], input => produces(w.key, input))
    && task.succeeded + |task.errors| == task.done
  }

  ghost predicate Inv(plan: seq<Work>, produces: (string, string) -> bool, tasks: Tasks) {
    && |tasks| == |plan|
    && (forall t :: 0 <= t < |plan| ==> TaskOk(plan[t], produces, tasks[t]))
    && |InFlight(tasks)| <= SLOTS
  }

  lemma InFlightAfter(tasks: Tasks, t: nat, task: Task)
    requires t < |tasks|
    ensures |InFlight(tasks[t := task])| ==
            |InFlight(tasks)| + (if task.running then 1 else 0) - (if tasks[t].running then 1 else 0)
  {
    var rest := InFlight(tasks) - {t};
    assert InFlight(tasks) == if tasks[t].running then rest + {t} else rest;
    assert InFlight(tasks[t := task]) == if task.running then rest + {t} else rest;
  }

  lemma FinishOk(w: Work, produces: (string, string) -> bool, task: Task)
    requires TaskOk(w, produces, task) && task.running
    ensures var input := w.inputs[task.done];
      TaskOk(w, produces, if produces(w.key, input) then Task(task.done + 1, false, task.succeeded + 1, task.errors)
                          else Task(task.done + 1, false, task.succeeded, task.errors + [input]))
  {
    assert w.inputs[..task.done + 1][..task.done] == w.inputs[..task.done];
  }

  lemma StepInv(plan: seq<Work>, produces: (string, string) -> bool, tasks: Tasks, step: Step)
    requires Inv(plan, produces, tasks) && Enabled(plan, tasks, step)
    ensures Inv(plan, produces, Next(plan, produces, tasks, step))
  {
    assert TaskOk(plan[step.t], produces, tasks[step.t]);
    if step.Finish? { FinishOk(plan[step.t], produces, tasks[step.t]); }
    InFlightAfter(tasks, step.t, Next(plan, produces, tasks, step)[step.t]);
  }

  lemma {:induction false} AfterInv(plan: seq<Work>, produces: (string, string) -> bool, steps: seq<Step>)
    ensures Inv(plan, produces, After(plan, produces, steps))
  {
    if steps == [] {
      assert InFlight(After(plan, produces, [])) == {};
    } else {
      var n := |steps| - 1;
      var tasks := After(plan, produces, steps[..n]);
      AfterInv(plan, produces, steps[..n]);
      if Enabled(plan, tasks, steps[n]) { StepInv(plan, produces, tasks, steps[n]); }
    }
  }

  predicate Complete(plan: seq<Work>, tasks: Tasks) {
    |tasks| == |plan| && forall t :: 0 <= t < |plan| ==> tasks[t].done == |plan[t].inputs|
  }

  /** Never more than four tools at a time, and whoever is not finished can be continued by someone. */
  lemma FourSlotsNoDeadlock(plan: seq<Work>, produces: (string, string) -> bool, steps: seq<Step>)
    ensures var tasks := After(plan, produces, steps);
      && |InFlight(tasks)| <= 4
      && (forall t: nat :: t < |plan| && !tasks[t].running && tasks[t].done < |plan[t].inputs| ==>
            (Enabled(plan, tasks, Start(t)) <==> |InFlight(tasks)| < 4))
      && (!Complete(plan, tasks) <==> exists step :: Enabled(plan, tasks, step))
  {
    var tasks := After(plan, produces, steps);
    AfterInv(plan, produces, steps);
    if InFlight(tasks) != {} {
      var t :| t in InFlight(tasks);
      assert TaskOk(plan[t], produces, tasks[t]);
      assert Enabled(plan, tasks, Finish(t));
    } else if !Complete(plan, tasks) {
      var t: nat :| t < |plan| && tasks[t].done != |plan[t].inputs|;
      assert TaskOk(plan[t], produces, tasks[t]);
      assert t !in InFlight(tasks) && |InFlight(tasks)| == 0;
      assert Enabled(plan, tasks, Start(t));
    }
  }

  /** The report of a finished task. */
  function FinalReport(w: Work, task: Task): Report {
    Report(if task.errors != [] then Failed else Success, "", |w.inputs|, task.succeeded, task.errors)
  }

  /** The report of the task alone, with every input counted once. */
  ghost predicate SequentialReport(w: Work, produces: (string, string) -> bool, r: Report) {
    && r.inputs == |w.inputs| == r.count + |r.errors|
    && r.errors == FailedInputs(w.inputs, input => produces(w.key, input))
    && r.status == (if exists p :: p in w.inputs && !produces(w.key, p) then Failed else Success)
  }

  lemma {:induction false} FailedInputsEmpty(inputs: seq<string>, produces: string -> bool)
    ensures FailedInputs(inputs, produces) == [] <==> forall p :: p in inputs ==> produces(p)
  {
    if inputs != [] {
      var n := |inputs| - 1;
      FailedInputsEmpty(inputs[..n], produces);
      assert inputs == inputs[..n] + [inputs[n]];
    }
  }

  /**
   However the tasks were interleaved, the reports are those of running them one after the other: a
   corollary of the invariant, since tasks share nothing but the semaphore.
   */
  lemma InterleavingDoesNotMatter(plan: seq<Work>, produces: (string, string) -> bool, steps: seq<Step>, t: nat)
    requires Complete(plan, After(plan, produces, steps)) && t < |plan|
    ensures SequentialReport(plan[t], produces, FinalReport(plan[t], After(plan, produces, steps)[t]))
  {
    AfterInv(plan, produces, steps);
    var w, task := plan[t], After(plan, produces, steps)[t];
    assert TaskOk(w, produces, task);
    assert w.inputs[..task.done] == w.inputs;
    FailedInputsEmpty(w.inputs, input => produces(w.key, input));
  }

  function Pending(plan: seq<Work>, tasks: Tasks): nat
    requires |plan| == |tasks|
  {
    if plan == [] then 0
    else
      var n := |plan| - 1;
      var left: int := |plan[n].inputs| - tasks[n].done;
      Pending(plan[..n], tasks[..n]) + (if left <= 0 then 0 else if tasks[n].running then 2 * left - 1 else 2 * left)
  }

  lemma {:induction false} PendingDrops(plan: seq<Work>, tasks: Tasks, t: nat, task: Task)
    requires |plan| == |tasks| && t < |plan| && tasks[t].done < |plan[t].inputs|
    requires (task.done == tasks[t].done && task.running && !tasks[t].running) || (task.done == tasks[t].done + 1 && !task.running)
    ensures Pending(plan, tasks[t := task]) < Pending(plan, tasks)
  {
    var n := |plan| - 1;
    if t < n {
      PendingDrops(plan[..n], tasks[..n], t, task);
      assert tasks[t := task][..n] == tasks[..n][t := task];
    } else {
      assert tasks[t := task][..n] == tasks[..n];
    }
  }

  /** Every step brings the run closer to its end, so no interleaving goes on for ever. */
  lemma StepsDecrease(plan: seq<Work>, produces: (string, string) -> bool, tasks: Tasks, step: Step)
    requires |plan| == |tasks| && Enabled(plan, tasks, step)
    ensures Pending(plan, Next(plan, produces, tasks, step)) < Pending(plan, tasks)
  {
    PendingDrops(plan, tasks, step.t, Next(plan, produces, tasks, step)[step.t]);
  }
}
