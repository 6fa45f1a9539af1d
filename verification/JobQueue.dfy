/** The in-memory job queue as a state machine: callers of enqueue, worker threads and completion
    callbacks interleave at their critical sections. */
module QueueSpec {
  import opened PyText

  datatype Status = Queued | Running | Completed | Failed

  datatype Entry = Entry(status: Status, completedAt: Option<real>)

  type Jobs = map<string, Entry>

  // ---- the critical sections -------------------------------------------------------------------

  function Registered(jobs: Jobs, id: string): Jobs {
    jobs[id := Entry(Queued, None)]
  }

  function Started(jobs: Jobs, id: string): Jobs {
    if id in jobs then jobs[id := jobs[id].(status := Running)] else jobs
  }

  function Outcome(ok: bool): Status {
    if ok then Completed else Failed
  }

  function Finished(jobs: Jobs, id: string, ok: bool, now: real): Jobs {
    if id in jobs then jobs[id := Entry(Outcome(ok), Some(now))] else jobs
  }

  predicate IsFinished(status: Status) {
    status.Completed? || status.Failed?
  }

  predicate Outdated(entry: Entry, cutoff: real) {
    IsFinished(entry.status) && entry.completedAt.Some? && entry.completedAt.value < cutoff
  }

  function WithoutFailed(jobs: Jobs): Jobs {
    map id | id in jobs && !jobs[id].status.Failed? :: jobs[id]
  }

  function WithoutOutdated(jobs: Jobs, cutoff: real): Jobs {
    map id | id in jobs && !Outdated(jobs[id], cutoff) :: jobs[id]
  }

  // Seen at a time `now`, cleanup with the cutoff of so many seconds ago removes exactly the entries that have been
  // finished for longer, and changes no other.
  lemma CleanupByAge(jobs: Jobs, now: real, seconds: real, id: string)
    requires id in jobs
    ensures var left, entry := WithoutOutdated(jobs, now - seconds), jobs[id];
      if (entry.status == Completed || entry.status == Failed)
        && entry.completedAt.Some? && now - entry.completedAt.value > seconds
      then id !in left
      else id in left && left[id] == entry
  {
  }

  // ---- threads ---------------------------------------------------------------------------------

  // How far a call of enqueue has got: entry written; handed to the pool; found the future already done and
  // about to run the callback itself; callback taken care of; returned.
  datatype Phase = Entered | Submitted | Late | Hooked | Returned

  // What has become of its work: not handed over; waiting; taken by a worker; running; done, callbacks
  // still to be run by the worker; worker free again.
  datatype Work = Idle | Pending | Picked | Executing | Finishing(ok: bool) | Retired(ok: bool)

  // hooked: the callback was registered before the future was done, so the worker runs it.
  datatype Call = Call(id: string, phase: Phase, hooked: bool, work: Work)

  datatype State = State(jobs: Jobs, calls: seq<Call>, maxWorkers: nat)

  function Initial(maxWorkers: nat): State {
    State(map[], [], maxWorkers)
  }

  datatype Step =
    | Enqueue(id: string)
    | Submit(k: nat)
    | AddCallback(k: nat)
    | RunLate(k: nat, now: real)
    | Return(k: nat)
    | Pick(k: nat)
    | Start(k: nat)
    | Finish(k: nat, ok: bool)
    | Retire(k: nat, now: real)
    | ClearFailed
    | Cleanup(cutoff: real)

  predicate Done(work: Work) {
    work.Finishing? || work.Retired?
  }

  predicate IsBusy(call: Call) {
    call.work.Picked? || call.work.Executing? || call.work.Finishing?
  }

  // The calls whose work occupies a worker thread.
  function Busy(calls: seq<Call>): set<nat> {
    set k: nat | k < |calls| && IsBusy(calls[k])
  }

  // The calls of enqueue between submit and the end of add_done_callback.
  function InFlight(calls: seq<Call>): set<nat> {
    set k: nat | k < |calls| && (calls[k].phase.Submitted? || calls[k].phase.Late?)
  }

  predicate Enabled(s: State, step: Step) {
    match step
    case Enqueue(_) | ClearFailed | Cleanup(_) => true
    case Submit(k) => k < |s.calls| && s.calls[k].phase.Entered?
    case AddCallback(k) => k < |s.calls| && s.calls[k].phase.Submitted?
    case RunLate(k, _) => k < |s.calls| && s.calls[k].phase.Late? && Done(s.calls[k].work)
    case Return(k) => k < |s.calls| && s.calls[k].phase.Hooked?
    case Pick(k) => k < |s.calls| && s.calls[k].work.Pending? && |Busy(s.calls)| < s.maxWorkers
    case Start(k) => k < |s.calls| && s.calls[k].work.Picked?
    case Finish(k, _) => k < |s.calls| && s.calls[k].work.Executing?
    case Retire(k, _) => k < |s.calls| && s.calls[k].work.Finishing?
  }

  function Next(s: State, step: Step): State
    requires Enabled(s, step)
  {
    match step
    case Enqueue(id) => s.(jobs := Registered(s.jobs, id), calls := s.calls + [Call(id, Entered, false, Idle)])
    case ClearFailed => s.(jobs := WithoutFailed(s.jobs))
    case Cleanup(cutoff) => s.(jobs := WithoutOutdated(s.jobs, cutoff))
    case Submit(k) => s.(calls := s.calls[k := s.calls[k].(phase := Submitted, work := Pending)])
    case AddCallback(k) =>
      var call := s.calls[k];
      s.(calls := s.calls[k :=
        if Done(call.work) then call.(phase := Late) else call.(phase := Hooked, hooked := true)])
    case RunLate(k, now) =>
      var call := s.calls[k];
      s.(jobs := Finished(s.jobs, call.id, call.work.ok, now), calls := s.calls[k := call.(phase := Hooked)])
    case Return(k) => s.(calls := s.calls[k := s.calls[k].(phase := Returned)])
    case Pick(k) => s.(calls := s.calls[k := s.calls[k].(work := Picked)])
    case Start(k) =>
      s.(jobs := Started(s.jobs, s.calls[k].id), calls := s.calls[k := s.calls[k].(work := Executing)])
    case Finish(k, ok) => s.(calls := s.calls[k := s.calls[k].(work := Finishing(ok))])
    case Retire(k, now) =>
      var call := s.calls[k];
      s.(jobs := if call.hooked then Finished(s.jobs, call.id, call.work.ok, now) else s.jobs,
         calls := s.calls[k := call.(work := Retired(call.work.ok))])
  }

  // ---- what holds whatever the job ids -----------------------------------------------------------

  predicate CallOk(call: Call) {
    && (call.work.Idle? <==> call.phase.Entered?)
    && (call.hooked ==> call.phase.Hooked? || call.phase.Returned?)
    && (!call.hooked && (call.phase.Late? || call.phase.Hooked? || call.phase.Returned?) ==> Done(call.work))
  }

  // The completion callback has run.
  predicate CalledBack(call: Call) {
    if call.hooked then call.work.Retired? else call.phase.Hooked? || call.phase.Returned?
  }

  // The work has started, and the callback has not run yet.
  predicate IsLive(call: Call) {
    !CalledBack(call) && (call.work.Executing? || Done(call.work))
  }

  predicate HasLiveCall(s: State, id: string) {
    exists k :: 0 <= k < |s.calls| && s.calls[k].id == id && IsLive(s.calls[k])
  }

  predicate IsRunning(jobs: Jobs, id: string) {
    id in jobs && jobs[id].status.Running?
  }

  predicate CallsOk(calls: seq<Call>) {
    forall k :: 0 <= k < |calls| ==> CallOk(calls[k])
  }

  // Workers are not overbooked, and whatever reads RUNNING is the work of some call.
  ghost predicate Sane(s: State) {
    && CallsOk(s.calls)
    && |Busy(s.calls)| <= s.maxWorkers
    && (forall id :: IsRunning(s.jobs, id) ==> HasLiveCall(s, id))
  }

  lemma InitialSane(maxWorkers: nat)
    ensures Sane(Initial(maxWorkers))
  {
  }

  // The worker pool never runs more work than it has threads.
  lemma {:induction false} StepBusy(s: State, step: Step)
    requires Enabled(s, step) && |Busy(s.calls)| <= s.maxWorkers
    ensures |Busy(Next(s, step).calls)| <= s.maxWorkers
  {
    var before, after := Busy(s.calls), Busy(Next(s, step).calls);
    if step.Pick? {
      assert after == before + {step.k};
    } else {
      assert after <= before;
      SubsetSize(after, before);
    }
  }

  lemma {:induction false} SubsetSize(a: set<nat>, b: set<nat>)
    requires a <= b
    ensures |a| <= |b|
  {
    assert b == a + (b - a);
  }

  // The steps that take a call further.
  predicate Advances(step: Step) {
    !(step.Enqueue? || step.ClearFailed? || step.Cleanup?)
  }

  // What such a step leaves alone: all other calls, and all other entries.
  lemma {:induction false} MovesOnlyItsOwn(s: State, step: Step)
    requires Enabled(s, step) && Advances(step)
    ensures Next(s, step).calls == s.calls[step.k := Next(s, step).calls[step.k]]
    ensures Next(s, step).calls[step.k].id == s.calls[step.k].id
    ensures Next(s, step).maxWorkers == s.maxWorkers && Next(s, step).jobs.Keys == s.jobs.Keys
    ensures forall id :: id in s.jobs && id != s.calls[step.k].id ==> Next(s, step).jobs[id] == s.jobs[id]
  {
  }

  lemma {:induction false} MovedCallOk(s: State, step: Step)
    requires Enabled(s, step) && Advances(step) && CallOk(s.calls[step.k])
    ensures CallOk(Next(s, step).calls[step.k])
  {
  }

  lemma {:induction false} StepCallsOk(s: State, step: Step)
    requires Enabled(s, step) && CallsOk(s.calls)
    ensures CallsOk(Next(s, step).calls)
  {
    if Advances(step) {
      MovedCallOk(s, step);
      MovesOnlyItsOwn(s, step);
    }
  }

  // While the entry of its id reads RUNNING, a live call stays live.
  lemma {:induction false} MovedStaysLive(s: State, step: Step)
    requires Enabled(s, step) && Advances(step) && CallOk(s.calls[step.k]) && IsLive(s.calls[step.k])
    requires IsRunning(Next(s, step).jobs, s.calls[step.k].id)
    ensures IsLive(Next(s, step).calls[step.k])
  {
  }

  // Only the start of a call makes an entry read RUNNING.
  lemma {:induction false} OnlyStartRuns(s: State, step: Step, id: string)
    requires Enabled(s, step) && IsRunning(Next(s, step).jobs, id) && !IsRunning(s.jobs, id)
    ensures step.Start? && s.calls[step.k].id == id
  {
  }

  lemma {:induction false} StepLive(s: State, step: Step, id: string)
    requires Enabled(s, step) && CallsOk(s.calls)
    requires IsRunning(s.jobs, id) ==> HasLiveCall(s, id)
    requires IsRunning(Next(s, step).jobs, id)
    ensures HasLiveCall(Next(s, step), id)
  {
    var next := Next(s, step);
    if IsRunning(s.jobs, id) {
      var j :| 0 <= j < |s.calls| && s.calls[j].id == id && IsLive(s.calls[j]);
      if Advances(step) {
        hide IsRunning, IsLive, CallOk, Enabled, Next;
        MovesOnlyItsOwn(s, step);
        if j == step.k {
          MovedStaysLive(s, step);
        }
        assert next.calls[j].id == id && IsLive(next.calls[j]);
      } else {
        assert next.calls[j] == s.calls[j];
      }
    } else {
      OnlyStartRuns(s, step, id);
      assert CallOk(s.calls[step.k]);
      assert next.calls[step.k].id == id && IsLive(next.calls[step.k]);
    }
  }

  // Every step keeps a queue sane, an enqueue under a used id included.
  lemma {:induction false} StepSane(s: State, step: Step)
    requires Sane(s) && Enabled(s, step)
    ensures Sane(Next(s, step))
  {
    hide CallsOk, Enabled, IsRunning, HasLiveCall;
    StepBusy(s, step);
    StepCallsOk(s, step);
    forall id | IsRunning(Next(s, step).jobs, id)
      ensures HasLiveCall(Next(s, step), id)
    {
      StepLive(s, step, id);
    }
    StepKeepsWorkers(s, step);
  }

  lemma StepKeepsWorkers(s: State, step: Step)
    requires Enabled(s, step)
    ensures Next(s, step).maxWorkers == s.maxWorkers
  {
  }

  // ---- runs ------------------------------------------------------------------------------------

  // Any interleaving: every step is possible.
  ghost predicate IsRun(s: State, steps: seq<Step>)
    decreases |steps|
  {
    steps == [] || (Enabled(s, steps[0]) && IsRun(Next(s, steps[0]), steps[1..]))
  }

  ghost function After(s: State, steps: seq<Step>): State
    requires IsRun(s, steps)
    decreases |steps|
  {
    if steps == [] then s else After(Next(s, steps[0]), steps[1..])
  }

  lemma RunFrom(s: State, step: Step, rest: seq<Step>)
    requires Enabled(s, step) && IsRun(Next(s, step), rest)
    ensures IsRun(s, [step] + rest) && After(s, [step] + rest) == After(Next(s, step), rest)
  {
    assert ([step] + rest)[1..] == rest;
  }

  lemma {:induction false} RunsJoin(s: State, a: seq<Step>, b: seq<Step>)
    requires IsRun(s, a) && IsRun(After(s, a), b)
    ensures IsRun(s, a + b) && After(s, a + b) == After(After(s, a), b)
    decreases |a|
  {
    hide Enabled, Next;
    if a == [] {
      assert a + b == b;
    } else {
      RunsJoin(Next(s, a[0]), a[1..], b);
      assert a + b == [a[0]] + (a[1..] + b);
      RunFrom(s, a[0], a[1..] + b);
    }
  }

  lemma {:induction false} RunSane(s: State, steps: seq<Step>)
    requires Sane(s) && IsRun(s, steps)
    ensures Sane(After(s, steps)) && After(s, steps).maxWorkers == s.maxWorkers
    decreases |steps|
  {
    hide Sane, Enabled, Next;
    if steps == [] {
    } else {
      StepSane(s, steps[0]);
      StepKeepsWorkers(s, steps[0]);
      RunSane(Next(s, steps[0]), steps[1..]);
    }
  }

  // ---- at most max_workers running, plus the callers that have not hooked their callback yet ----

  function RunningIds(s: State): set<string> {
    set id | id in s.jobs && s.jobs[id].status.Running?
  }

  lemma {:induction false} RunningCall(s: State, id: string) returns (k: nat)
    requires Sane(s) && id in RunningIds(s)
    ensures k < |s.calls| && s.calls[k].id == id && k in Busy(s.calls) + InFlight(s.calls)
  {
    assert IsRunning(s.jobs, id);
    k :| k < |s.calls| && s.calls[k].id == id && IsLive(s.calls[k]);
    assert CallOk(s.calls[k]);
  }

  // As many job ids as calls, at most.
  lemma {:induction false} IdsOfCalls(calls: seq<Call>, ks: set<nat>, ids: set<string>)
    requires forall k :: k in ks ==> k < |calls|
    requires forall id :: id in ids ==> exists k :: k in ks && calls[k].id == id
    ensures |ids| <= |ks|
    decreases |ks|
  {
    if ids != {} {
      var id :| id in ids;
      var k :| k in ks && calls[k].id == id;
      forall other | other in ids - {id}
        ensures exists j :: j in ks - {k} && calls[j].id == other
      {
        var j :| j in ks && calls[j].id == other;
        assert j in ks - {k};
      }
      IdsOfCalls(calls, ks - {k}, ids - {id});
    }
  }

  lemma {:induction false} RunningBounded(s: State)
    requires Sane(s)
    ensures |RunningIds(s)| <= s.maxWorkers + |InFlight(s.calls)|
  {
    hide RunningIds;
    var busy, flying := Busy(s.calls), InFlight(s.calls);
    forall id | id in RunningIds(s)
      ensures exists k :: k in busy + flying && s.calls[k].id == id
    {
      var k := RunningCall(s, id);
    }
    IdsOfCalls(s.calls, busy + flying, RunningIds(s));
    assert |busy + flying| == |busy| + |flying| - |busy * flying|;
  }

  // Over every interleaving, and whatever ids are used how often: the number of entries that read RUNNING.
  lemma {:induction false} RunningBoundedAlways(maxWorkers: nat, steps: seq<Step>)
    requires IsRun(Initial(maxWorkers), steps)
    ensures var s := After(Initial(maxWorkers), steps); |RunningIds(s)| <= maxWorkers + |InFlight(s.calls)|
  {
    InitialSane(maxWorkers);
    RunSane(Initial(maxWorkers), steps);
    RunningBounded(After(Initial(maxWorkers), steps));
  }

  // ---- nothing is stuck ------------------------------------------------------------------------

  predicate Quiet(call: Call) {
    call.phase.Returned? && call.work.Retired?
  }

  predicate AllQuiet(s: State) {
    forall k :: 0 <= k < |s.calls| ==> Quiet(s.calls[k])
  }

  // The first n calls are through, and the others have not begun.
  predicate QuietBelow(calls: seq<Call>, n: nat) {
    n <= |calls| && forall k :: 0 <= k < n ==> Quiet(calls[k])
  }

  predicate IdleFrom(calls: seq<Call>, n: nat) {
    n <= |calls| && forall k :: n <= k < |calls| ==> calls[k].work.Idle?
  }

  // With at least one worker, some call can always go on until all are quiet.
  lemma {:induction false} NeverStuck(s: State, n: nat, k: nat) returns (step: Step)
    requires Sane(s) && s.maxWorkers >= 1 && IdleFrom(s.calls, n) && k < n && !Quiet(s.calls[k])
    ensures Advances(step) && Enabled(s, step) && step.k < n
  {
    var call := s.calls[k];
    assert CallOk(call);
    if call.phase.Entered? {
      step := Submit(k);
    } else if call.phase.Submitted? {
      step := AddCallback(k);
    } else if call.phase.Late? {
      step := RunLate(k, 0.0);
    } else if call.phase.Hooked? {
      step := Return(k);
    } else if call.work.Pending? && |Busy(s.calls)| < s.maxWorkers {
      step := Pick(k);
    } else {
      var j := k;
      if call.work.Pending? {
        j :| j in Busy(s.calls);
      }
      step := match s.calls[j].work
        case Picked => Start(j)
        case Executing => Finish(j, true)
        case _ => Retire(j, 0.0);
    }
  }

  // The steps a call still has in front of it.
  function Ahead(call: Call): nat {
    (match call.phase case Entered => 5 case Submitted => 3 case Late => 2 case Hooked => 1 case Returned => 0)
    + (match call.work case Idle => 5 case Pending => 5 case Picked => 4 case Executing => 3 case Finishing(_) => 1
       case Retired(_) => 0)
  }

  function TotalAhead(calls: seq<Call>): nat {
    if calls == [] then 0 else TotalAhead(calls[..|calls| - 1]) + Ahead(calls[|calls| - 1])
  }

  lemma {:induction false} AheadUpdate(calls: seq<Call>, k: nat, call: Call)
    requires k < |calls|
    ensures TotalAhead(calls[k := call]) == TotalAhead(calls) - Ahead(calls[k]) + Ahead(call)
  {
    var n := |calls| - 1;
    if k < n {
      AheadUpdate(calls[..n], k, call);
      assert calls[k := call][..n] == calls[..n][k := call];
    } else {
      assert calls[k := call][..n] == calls[..n];
    }
  }

  lemma CallDrains(s: State, step: Step)
    requires Enabled(s, step) && Advances(step) && CallOk(s.calls[step.k])
    ensures Ahead(Next(s, step).calls[step.k]) < Ahead(s.calls[step.k])
  {
  }

  // Every such step brings the calls closer to being quiet, so without new calls the queue drains.
  lemma {:induction false} StepDrains(s: State, step: Step)
    requires Sane(s) && Enabled(s, step) && Advances(step)
    ensures TotalAhead(Next(s, step).calls) < TotalAhead(s.calls)
  {
    var next := Next(s, step);
    assert step.k < |s.calls| && CallOk(s.calls[step.k]);
    hide Enabled, Next, TotalAhead, Ahead, CallOk;
    CallDrains(s, step);
    MovesOnlyItsOwn(s, step);
    AheadUpdate(s.calls, step.k, next.calls[step.k]);
  }

  // Steps of the first n calls only.
  predicate AllAdvanceBelow(steps: seq<Step>, n: nat) {
    forall i :: 0 <= i < |steps| ==> Advances(steps[i]) && steps[i].k < n
  }

  // The first n calls can be brought to an end, in no more steps than the measure says, while the others wait.
  lemma {:induction false} CanFinish(s: State, n: nat) returns (steps: seq<Step>)
    requires Sane(s) && s.maxWorkers >= 1 && IdleFrom(s.calls, n)
    ensures IsRun(s, steps) && AllAdvanceBelow(steps, n) && |steps| <= TotalAhead(s.calls)
    ensures Sane(After(s, steps)) && After(s, steps).maxWorkers == s.maxWorkers
    ensures QuietBelow(After(s, steps).calls, n) && After(s, steps).calls[n..] == s.calls[n..]
    decreases TotalAhead(s.calls)
  {
    hide Sane, Enabled, Next, Quiet, TotalAhead;
    if QuietBelow(s.calls, n) {
      steps := [];
    } else {
      var k :| 0 <= k < n && !Quiet(s.calls[k]);
      var step := NeverStuck(s, n, k);
      StepSane(s, step);
      StepDrains(s, step);
      MovesOnlyItsOwn(s, step);
      var next := Next(s, step);
      assert next.calls[n..] == s.calls[n..];
      IdleSuffix(s.calls, next.calls, n);
      var rest := CanFinish(next, n);
      steps := [step] + rest;
      RunFrom(s, step, rest);
    }
  }

  lemma IdleSuffix(a: seq<Call>, b: seq<Call>, n: nat)
    requires IdleFrom(a, n) && |b| == |a| && b[n..] == a[n..]
    ensures IdleFrom(b, n)
  {
    assert forall k :: n <= k < |b| ==> b[k] == b[n..][k - n] == a[n..][k - n];
  }

  // Then nothing is running any more.
  lemma QuietRunsNothing(s: State)
    requires Sane(s) && AllQuiet(s)
    ensures RunningIds(s) == {}
  {
    if id :| id in RunningIds(s) {
      var k := RunningCall(s, id);
      assert false;
    }
  }

  // So wherever an interleaving has got to, it can be continued to an end.
  lemma {:induction false} CanAlwaysFinish(maxWorkers: nat, steps: seq<Step>) returns (more: seq<Step>)
    requires maxWorkers >= 1 && IsRun(Initial(maxWorkers), steps)
    ensures var s := After(Initial(maxWorkers), steps);
      && IsRun(s, more) && AllAdvanceBelow(more, |s.calls|) && |more| <= TotalAhead(s.calls)
      && AllQuiet(After(s, more)) && RunningIds(After(s, more)) == {}
  {
    hide Sane, RunningIds, Quiet;
    InitialSane(maxWorkers);
    RunSane(Initial(maxWorkers), steps);
    var s := After(Initial(maxWorkers), steps);
    more := CanFinish(s, |s.calls|);
    var end := After(s, more);
    assert |end.calls| == |s.calls|;
    QuietRunsNothing(end);
  }

  // ---- when ids are free: every entry belongs to the last call of its id ------------------------------------

  // The job id has no entry when it is enqueued.
  predicate Untaken(s: State, step: Step) {
    step.Enqueue? ==> step.id !in s.jobs
  }

  // No entry is replaced over the whole run. An id may come back once its entry has been removed.
  ghost predicate AllUntaken(s: State, steps: seq<Step>)
    requires IsRun(s, steps)
    decreases |steps|
  {
    steps == [] || (Untaken(s, steps[0]) && AllUntaken(Next(s, steps[0]), steps[1..]))
  }

  predicate IsLast(calls: seq<Call>, k: nat)
    requires k < |calls|
  {
    forall b :: k < b < |calls| ==> calls[b].id != calls[k].id
  }

  // A call is over when another one takes its id.
  predicate EarlierDone(calls: seq<Call>) {
    forall a, b :: 0 <= a < b < |calls| && calls[a].id == calls[b].id ==> CalledBack(calls[a])
  }

  function StatusOf(work: Work): Status {
    if work.Executing? || Done(work) then Running else Queued
  }

  // What the entry of a call looks like.
  predicate EntryOk(jobs: Jobs, call: Call) {
    if CalledBack(call) then
      call.id in jobs ==>
        && Done(call.work) && jobs[call.id].status == Outcome(call.work.ok)
        && jobs[call.id].completedAt.Some?
    else
      call.id in jobs && jobs[call.id] == Entry(StatusOf(call.work), None)
  }

  predicate EntriesOk(s: State) {
    forall k :: 0 <= k < |s.calls| && IsLast(s.calls, k) ==> EntryOk(s.jobs, s.calls[k])
  }

  predicate Known(s: State, id: string) {
    exists k :: 0 <= k < |s.calls| && s.calls[k].id == id
  }

  ghost predicate Inv(s: State) {
    Sane(s) && EarlierDone(s.calls) && EntriesOk(s) && forall id :: id in s.jobs ==> Known(s, id)
  }

  lemma InitialInv(maxWorkers: nat)
    ensures Inv(Initial(maxWorkers))
  {
  }

  // The call that takes the step.
  lemma {:induction false} MovedEntry(s: State, step: Step)
    requires Enabled(s, step) && Advances(step)
    requires CallOk(s.calls[step.k]) && EntryOk(s.jobs, s.calls[step.k])
    ensures EntryOk(Next(s, step).jobs, Next(s, step).calls[step.k])
  {
  }

  // A call whose callback has run changes no entry any more, and stays called back.
  lemma {:induction false} CalledBackIsOver(s: State, step: Step)
    requires Enabled(s, step) && Advances(step)
    requires CallOk(s.calls[step.k]) && CalledBack(s.calls[step.k])
    ensures Next(s, step).jobs == s.jobs && CalledBack(Next(s, step).calls[step.k])
  {
  }

  // Removals spare the entries of calls that are not over.
  lemma {:induction false} RemovalEntry(s: State, step: Step, call: Call)
    requires Enabled(s, step) && (step.ClearFailed? || step.Cleanup?) && EntryOk(s.jobs, call)
    ensures EntryOk(Next(s, step).jobs, call)
  {
  }

  lemma LiveIsLast(calls: seq<Call>, k: nat)
    requires k < |calls| && EarlierDone(calls) && !CalledBack(calls[k])
    ensures IsLast(calls, k)
  {
  }

  lemma OtherEntry(s: State, next: State, call: Call)
    requires EntryOk(s.jobs, call) && next.jobs.Keys == s.jobs.Keys
    requires call.id in s.jobs ==> next.jobs[call.id] == s.jobs[call.id]
    ensures EntryOk(next.jobs, call)
  {
  }

  lemma {:induction false} StepEntry(s: State, step: Step, k: nat)
    requires Inv(s) && Enabled(s, step) && Advances(step) && k < |s.calls| && IsLast(s.calls, k)
    ensures EntryOk(Next(s, step).jobs, Next(s, step).calls[k])
  {
    assert step.k < |s.calls| && CallOk(s.calls[step.k]) && EntryOk(s.jobs, s.calls[k]);
    hide Enabled, Next, EntryOk, CallOk, CalledBack, Sane;
    MovesOnlyItsOwn(s, step);
    if k == step.k {
      MovedEntry(s, step);
    } else if s.calls[step.k].id == s.calls[k].id {
      assert CalledBack(s.calls[step.k]);
      CalledBackIsOver(s, step);
    } else {
      OtherEntry(s, Next(s, step), s.calls[k]);
    }
  }

  lemma {:induction false} NewEntry(s: State, id: string)
    ensures EntryOk(Registered(s.jobs, id), Call(id, Entered, false, Idle))
  {
  }

  lemma {:induction false} StepEntries(s: State, step: Step)
    requires Inv(s) && Enabled(s, step)
    ensures EntriesOk(Next(s, step))
  {
    var next := Next(s, step);
    forall k | 0 <= k < |next.calls| && IsLast(next.calls, k)
      ensures EntryOk(next.jobs, next.calls[k])
    {
      if Advances(step) {
        MovesOnlyItsOwn(s, step);
        assert forall b :: 0 <= b < |s.calls| ==> next.calls[b].id == s.calls[b].id;
        assert IsLast(s.calls, k);
        StepEntry(s, step, k);
      } else if step.Enqueue? {
        if k == |s.calls| {
          NewEntry(s, step.id);
        } else {
          assert next.calls[|s.calls|].id == step.id != s.calls[k].id;
          assert IsLast(s.calls, k) by {
            assert forall b :: k < b < |s.calls| ==> next.calls[b].id == s.calls[b].id;
          }
        }
      } else {
        RemovalEntry(s, step, s.calls[k]);
      }
    }
  }

  // Unless an id is taken, all calls that had it before are over.
  lemma {:induction false} UntakenIsOver(s: State, id: string, a: nat)
    requires Inv(s) && id !in s.jobs && a < |s.calls| && s.calls[a].id == id
    ensures CalledBack(s.calls[a])
  {
    if !CalledBack(s.calls[a]) {
      LiveIsLast(s.calls, a);
      assert false;
    }
  }

  lemma {:induction false} StepEarlier(s: State, step: Step)
    requires Inv(s) && Enabled(s, step) && Untaken(s, step)
    ensures EarlierDone(Next(s, step).calls)
  {
    var next := Next(s, step);
    forall a, b | 0 <= a < b < |next.calls| && next.calls[a].id == next.calls[b].id
      ensures CalledBack(next.calls[a])
    {
      if Advances(step) {
        MovesOnlyItsOwn(s, step);
        assert CalledBack(s.calls[a]);
        if a == step.k {
          assert CallOk(s.calls[a]);
          CalledBackIsOver(s, step);
        }
      } else if b == |s.calls| {
        UntakenIsOver(s, step.id, a);
      } else {
        assert next.calls[a] == s.calls[a] && next.calls[b] == s.calls[b];
      }
    }
  }

  lemma {:induction false} StepKnown(s: State, step: Step, id: string)
    requires Enabled(s, step) && id in Next(s, step).jobs && (id in s.jobs ==> Known(s, id))
    ensures Known(Next(s, step), id)
  {
    if id in s.jobs {
      var k :| 0 <= k < |s.calls| && s.calls[k].id == id;
      assert Next(s, step).calls[k].id == id;
    } else {
      assert step == Enqueue(id) && Next(s, step).calls[|s.calls|].id == id;
    }
  }

  lemma {:induction false} StepInv(s: State, step: Step)
    requires Inv(s) && Enabled(s, step) && Untaken(s, step)
    ensures Inv(Next(s, step))
  {
    StepSane(s, step);
    StepEntries(s, step);
    StepEarlier(s, step);
    hide Sane, Enabled, Next, Known, EarlierDone, EntriesOk;
    forall id | id in Next(s, step).jobs
      ensures Known(Next(s, step), id)
    {
      StepKnown(s, step, id);
    }
  }

  lemma {:induction false} RunInv(s: State, steps: seq<Step>)
    requires Inv(s) && IsRun(s, steps) && AllUntaken(s, steps)
    ensures Inv(After(s, steps))
    decreases |steps|
  {
    hide Inv, Enabled, Next, Untaken;
    if steps == [] {
    } else {
      StepInv(s, steps[0]);
      RunInv(Next(s, steps[0]), steps[1..]);
    }
  }

  // When all calls have returned and all workers are free, every entry still kept is finished, and shows the
  // outcome of the last call of its id.
  lemma {:induction false} QuietMeansFinished(s: State)
    requires Inv(s) && AllQuiet(s)
    ensures forall id :: id in s.jobs ==> IsFinished(s.jobs[id].status)
    ensures forall k | 0 <= k < |s.calls| && s.calls[k].id in s.jobs && IsLast(s.calls, k) ::
      && Quiet(s.calls[k])
      && s.jobs[s.calls[k].id].status == (if s.calls[k].work.ok then Completed else Failed)
      && s.jobs[s.calls[k].id].completedAt.Some?
    ensures RunningIds(s) == {}
  {
    QuietRunsNothing(s);
    forall id | id in s.jobs
      ensures IsFinished(s.jobs[id].status)
    {
      assert Known(s, id);
      var k :| 0 <= k < |s.calls| && s.calls[k].id == id;
      var last := LastOf(s.calls, k);
      assert Quiet(s.calls[last]) && EntryOk(s.jobs, s.calls[last]);
    }
  }

  lemma {:induction false} StepKeepsOutcome(s: State, step: Step, k: nat)
    requires Enabled(s, step) && CallsOk(s.calls) && k < |s.calls| && Done(s.calls[k].work)
    ensures k < |Next(s, step).calls| && Done(Next(s, step).calls[k].work)
    ensures Next(s, step).calls[k].work.ok == s.calls[k].work.ok && Next(s, step).calls[k].id == s.calls[k].id
  {
    assert CallOk(s.calls[k]);
  }

  // And that outcome is the one with which the work was done, whatever happened since.
  lemma {:induction false} OutcomeKept(s: State, steps: seq<Step>, k: nat)
    requires IsRun(s, steps) && CallsOk(s.calls) && k < |s.calls| && Done(s.calls[k].work)
    ensures var end := After(s, steps).calls;
      k < |end| && Done(end[k].work) && end[k].work.ok == s.calls[k].work.ok && end[k].id == s.calls[k].id
    decreases |steps|
  {
    hide Enabled, Next, CallsOk;
    if steps == [] {
    } else {
      StepKeepsOutcome(s, steps[0], k);
      StepCallsOk(s, steps[0]);
      OutcomeKept(Next(s, steps[0]), steps[1..], k);
    }
  }

  // From the step that finishes a job to a quiet queue: if nothing has replaced or removed its entry, the entry
  // shows how the job finished.
  lemma {:induction false} FinishedAsShown(s: State, k: nat, ok: bool, steps: seq<Step>)
    requires Inv(s) && Enabled(s, Finish(k, ok))
    requires IsRun(s, [Finish(k, ok)] + steps) && AllUntaken(s, [Finish(k, ok)] + steps)
    requires var end := After(s, [Finish(k, ok)] + steps);
      AllQuiet(end) && k < |end.calls| && IsLast(end.calls, k)
    ensures var end, id := After(s, [Finish(k, ok)] + steps), s.calls[k].id;
      id in end.jobs ==> end.jobs[id].status == if ok then Completed else Failed
  {
    var run := [Finish(k, ok)] + steps;
    assert run[1..] == steps;
    var next := Next(s, Finish(k, ok));
    assert Done(next.calls[k].work) && next.calls[k].work.ok == ok && next.calls[k].id == s.calls[k].id;
    StepCallsOk(s, Finish(k, ok));
    hide Inv, Next, Enabled, CallsOk, IsLast, AllQuiet;
    OutcomeKept(next, steps, k);
    RunInv(s, run);
    QuietMeansFinished(After(s, run));
  }

  lemma {:induction false} LastOf(calls: seq<Call>, k: nat) returns (last: nat)
    requires k < |calls|
    ensures k <= last < |calls| && calls[last].id == calls[k].id && IsLast(calls, last)
    decreases |calls| - k
  {
    last := k;
    if b :| k < b < |calls| && calls[b].id == calls[k].id {
      last := LastOf(calls, b);
    }
  }

  // ---- statuses only move forward --------------------------------------------------------------

  predicate Forward(before: Status, after: Status) {
    || before == after
    || (before.Queued? && after.Running?)
    || (before.Running? && IsFinished(after))
  }

  // What one step may do to the entry of a job.
  predicate Legal(s: State, next: State, id: string) {
    id in s.jobs ==>
      if id in next.jobs then Forward(s.jobs[id].status, next.jobs[id].status) else IsFinished(s.jobs[id].status)
  }

  ghost predicate AllLegal(s: State, steps: seq<Step>)
    requires IsRun(s, steps)
    decreases |steps|
  {
    steps == [] ||
      ((forall id :: Legal(s, Next(s, steps[0]), id)) && AllLegal(Next(s, steps[0]), steps[1..]))
  }

  lemma {:induction false} MovedLegal(s: State, step: Step, id: string)
    requires Enabled(s, step) && Advances(step) && CallOk(s.calls[step.k])
    requires !CalledBack(s.calls[step.k]) ==> EntryOk(s.jobs, s.calls[step.k])
    ensures Legal(s, Next(s, step), id)
  {
  }

  lemma {:induction false} StepLegal(s: State, step: Step, id: string)
    requires Inv(s) && Enabled(s, step) && Untaken(s, step)
    ensures Legal(s, Next(s, step), id)
  {
    if Advances(step) {
      hide Enabled, Next, EntryOk, CalledBack, CallOk, Legal;
      assert CallOk(s.calls[step.k]);
      if !CalledBack(s.calls[step.k]) {
        LiveIsLast(s.calls, step.k);
        assert EntryOk(s.jobs, s.calls[step.k]);
      }
      MovedLegal(s, step, id);
    }
  }

  // As long as no entry is replaced, every step of every run moves statuses only forward and removes only
  // finished entries.
  lemma {:induction false} UntakenRunsLegal(s: State, steps: seq<Step>)
    requires Inv(s) && IsRun(s, steps) && AllUntaken(s, steps)
    ensures AllLegal(s, steps)
    decreases |steps|
  {
    hide Inv, Enabled, Next, Legal, Untaken;
    if steps == [] {
    } else {
      forall id
        ensures Legal(s, Next(s, steps[0]), id)
      {
        StepLegal(s, steps[0], id);
      }
      StepInv(s, steps[0]);
      UntakenRunsLegal(Next(s, steps[0]), steps[1..]);
    }
  }

  // So it is from the empty queue on.
  lemma UntakenAlwaysLegal(maxWorkers: nat, steps: seq<Step>)
    requires IsRun(Initial(maxWorkers), steps) && AllUntaken(Initial(maxWorkers), steps)
    ensures AllLegal(Initial(maxWorkers), steps) && Inv(After(Initial(maxWorkers), steps))
  {
    hide Inv;
    InitialInv(maxWorkers);
    RunInv(Initial(maxWorkers), steps);
    UntakenRunsLegal(Initial(maxWorkers), steps);
  }

  // A single step that replaces an entry is itself legal exactly when the entry is still queued; what it does to
  // the steps that follow is another matter.
  lemma {:induction false} StepForward(s: State, step: Step)
    requires Inv(s) && Enabled(s, step)
    ensures (forall id :: Legal(s, Next(s, step), id))
      <==> !(step.Enqueue? && step.id in s.jobs && !s.jobs[step.id].status.Queued?)
  {
    if step.Enqueue? {
      if step.id in s.jobs && !s.jobs[step.id].status.Queued? {
        assert !Legal(s, Next(s, step), step.id);
      }
    } else {
      forall id
        ensures Legal(s, Next(s, step), id)
      {
        StepLegal(s, step, id);
      }
    }
  }

  // ---- replacing an entry goes wrong, now or later -----------------------------------------------------------

  // Once the work of call k has started, the entry of its id is not queued any more.
  predicate Woken(s: State, k: nat)
    requires k < |s.calls|
  {
    s.calls[k].work.Executing? || Done(s.calls[k].work) ==>
      s.calls[k].id in s.jobs && !s.jobs[s.calls[k].id].status.Queued?
  }

  lemma {:induction false} StepWoken(s: State, step: Step, k: nat)
    requires Enabled(s, step) && Advances(step) && k < |s.calls| && s.calls[k].id in s.jobs && Woken(s, k)
    ensures k < |Next(s, step).calls| && Next(s, step).calls[k].id == s.calls[k].id
    ensures s.calls[k].id in Next(s, step).jobs
    ensures Woken(Next(s, step), k)
  {
  }

  lemma {:induction false} RunWoken(s: State, steps: seq<Step>, n: nat, k: nat)
    requires IsRun(s, steps) && AllAdvanceBelow(steps, n) && k < |s.calls| && s.calls[k].id in s.jobs && Woken(s, k)
    ensures var end := After(s, steps);
      k < |end.calls| && end.calls[k].id == s.calls[k].id && s.calls[k].id in end.jobs && Woken(end, k)
    decreases |steps|
  {
    hide Enabled, Next, Woken;
    if steps == [] {
    } else {
      StepWoken(s, steps[0], k);
      RunWoken(Next(s, steps[0]), steps[1..], n, k);
    }
  }

  // Runs without any enqueue replace nothing.
  lemma {:induction false} AdvancesUntaken(s: State, steps: seq<Step>, n: nat)
    requires IsRun(s, steps) && AllAdvanceBelow(steps, n)
    ensures AllUntaken(s, steps)
    decreases |steps|
  {
    hide Enabled, Next;
    if steps == [] {
    } else {
      AdvancesUntaken(Next(s, steps[0]), steps[1..], n);
    }
  }

  lemma {:induction false} IllegalEnd(s: State, a: seq<Step>, b: seq<Step>)
    requires IsRun(s, a) && IsRun(After(s, a), b) && IsRun(s, a + b) && !AllLegal(After(s, a), b)
    ensures !AllLegal(s, a + b)
    decreases |a|
  {
    hide Enabled, Next, Legal;
    if a == [] {
      assert a + b == b;
    } else {
      assert (a + b)[1..] == a[1..] + b;
      IllegalEnd(Next(s, a[0]), a[1..], b);
    }
  }

  // A finished entry whose id has a fresh call is set back to RUNNING when that call starts.
  lemma {:induction false} StartsAgain(s: State, n: nat) returns (steps: seq<Step>)
    requires s.maxWorkers >= 1 && |s.calls| == n + 1 && QuietBelow(s.calls, n)
    requires s.calls[n] == Call(s.calls[n].id, Entered, false, Idle)
    requires s.calls[n].id in s.jobs && IsFinished(s.jobs[s.calls[n].id].status)
    ensures IsRun(s, steps) && AllAdvanceBelow(steps, n + 1) && !AllLegal(s, steps)
  {
    var id := s.calls[n].id;
    var s1 := Next(s, Submit(n));
    NobodyBusy(s1, n);
    var s2 := Next(s1, Pick(n));
    var s3 := Next(s2, Start(n));
    assert Enabled(s2, Start(n)) && !Legal(s2, s3, id);
    hide Enabled, Next, Legal;
    IllegalFrom(s2, Start(n), [], id);
    IllegalFrom(s1, Pick(n), [Start(n)] + [], id);
    steps := [Submit(n)] + ([Pick(n)] + ([Start(n)] + []));
    IllegalFrom(s, Submit(n), [Pick(n)] + ([Start(n)] + []), id);
    assert steps == [Submit(n), Pick(n), Start(n)];
  }

  lemma {:induction false} IllegalFrom(s: State, step: Step, rest: seq<Step>, id: string)
    requires Enabled(s, step) && IsRun(Next(s, step), rest)
    requires !Legal(s, Next(s, step), id) || !AllLegal(Next(s, step), rest)
    ensures IsRun(s, [step] + rest) && !AllLegal(s, [step] + rest)
  {
    assert ([step] + rest)[1..] == rest;
  }

  lemma NobodyBusy(s: State, n: nat)
    requires |s.calls| == n + 1 && QuietBelow(s.calls, n) && s.calls[n].work.Pending?
    ensures |Busy(s.calls)| == 0
  {
    assert Busy(s.calls) == {};
  }

  // With a worker, replacing a queued entry has a continuation without any further enqueue that goes back: the
  // first job finishes, and the second one starts.
  lemma {:induction false} QueuedGoesBack(s: State, id: string) returns (steps: seq<Step>)
    requires Inv(s) && s.maxWorkers >= 1 && id in s.jobs && s.jobs[id].status.Queued?
    ensures var next := Next(s, Enqueue(id));
      IsRun(next, steps) && AllAdvanceBelow(steps, |next.calls|) && !AllLegal(next, steps)
  {
    var n := |s.calls|;
    var k := QueuedCall(s, id);
    var next := Next(s, Enqueue(id));
    StepSane(s, Enqueue(id));
    assert next.calls[k] == s.calls[k];
    assert IdleFrom(next.calls, n) && Woken(next, k);
    var drain := CanFinish(next, n);
    RunWoken(next, drain, n, k);
    var end := After(next, drain);
    assert end.calls[n] == end.calls[n..][0] == next.calls[n..][0] == Call(id, Entered, false, Idle);
    assert |end.calls| == n + |end.calls[n..]| == n + 1;
    DrainedIsFinished(end, n, k);
    var again := StartsAgain(end, n);
    RunsJoin(next, drain, again);
    steps := drain + again;
    IllegalEnd(next, drain, again);
  }

  // A queued entry belongs to a call that has not started.
  lemma {:induction false} QueuedCall(s: State, id: string) returns (k: nat)
    requires Inv(s) && id in s.jobs && s.jobs[id].status.Queued?
    ensures k < |s.calls| && s.calls[k].id == id && !(s.calls[k].work.Executing? || Done(s.calls[k].work))
  {
    assert Known(s, id);
    var j :| 0 <= j < |s.calls| && s.calls[j].id == id;
    k := LastOf(s.calls, j);
    assert EntryOk(s.jobs, s.calls[k]);
  }

  lemma {:induction false} DrainedIsFinished(s: State, n: nat, k: nat)
    requires Sane(s) && |s.calls| == n + 1 && QuietBelow(s.calls, n) && s.calls[n].work.Idle?
    requires k < n && s.calls[k].id in s.jobs && Woken(s, k)
    ensures IsFinished(s.jobs[s.calls[k].id].status)
  {
    var id := s.calls[k].id;
    assert Quiet(s.calls[k]);
    if IsRunning(s.jobs, id) {
      var j :| 0 <= j < |s.calls| && s.calls[j].id == id && IsLive(s.calls[j]);
      assert false;
    }
  }

  // Exactly when enqueueing is safe: with a worker, every continuation that replaces no entry is legal, the
  // enqueue included, if and only if the id has no entry.
  lemma {:induction false} EnqueueSafeExactly(s: State, id: string)
    requires Inv(s) && s.maxWorkers >= 1
    ensures (forall steps: seq<Step> ::
        IsRun(s, [Enqueue(id)] + steps) && AllUntaken(Next(s, Enqueue(id)), steps)
        ==> AllLegal(s, [Enqueue(id)] + steps))
      <==> id !in s.jobs
  {
    hide Inv, Legal;
    if id !in s.jobs {
      forall steps: seq<Step> | IsRun(s, [Enqueue(id)] + steps) && AllUntaken(Next(s, Enqueue(id)), steps)
        ensures AllLegal(s, [Enqueue(id)] + steps)
      {
        assert ([Enqueue(id)] + steps)[1..] == steps;
        UntakenRunsLegal(s, [Enqueue(id)] + steps);
      }
    } else {
      var steps := GoesBack(s, id);
    }
  }

  lemma {:induction false} GoesBack(s: State, id: string) returns (steps: seq<Step>)
    requires Inv(s) && s.maxWorkers >= 1 && id in s.jobs
    ensures IsRun(s, [Enqueue(id)] + steps) && AllUntaken(Next(s, Enqueue(id)), steps)
    ensures !AllLegal(s, [Enqueue(id)] + steps)
  {
    var next := Next(s, Enqueue(id));
    if s.jobs[id].status.Queued? {
      steps := QueuedGoesBack(s, id);
      AdvancesUntaken(next, steps, |next.calls|);
    } else {
      steps := [];
      assert !Legal(s, next, id);
    }
    RunFrom(s, Enqueue(id), steps);
    assert ([Enqueue(id)] + steps)[1..] == steps;
  }

  // ---- over a whole run ----------------------------------------------------------------------------------------

  // The id has an entry all the time.
  ghost predicate Stays(s: State, steps: seq<Step>, id: string)
    requires IsRun(s, steps)
    decreases |steps|
  {
    id in s.jobs && (steps == [] || Stays(Next(s, steps[0]), steps[1..], id))
  }

  // As long as it is kept, the status of an entry never moves backwards, and a finished one keeps its outcome.
  lemma {:induction false} RunForward(s: State, steps: seq<Step>, id: string)
    requires Inv(s) && IsRun(s, steps) && AllUntaken(s, steps) && Stays(s, steps, id)
    ensures var end := After(s, steps).jobs;
      && id in end
      && (s.jobs[id].status == Running ==> end[id].status != Queued)
      && (s.jobs[id].status in {Completed, Failed} ==> end[id].status == s.jobs[id].status)
    decreases |steps|
  {
    hide Inv, Enabled, Next, Untaken;
    if steps == [] {
    } else {
      StepLegal(s, steps[0], id);
      StepInv(s, steps[0]);
      RunForward(Next(s, steps[0]), steps[1..], id);
    }
  }

  // A job id that no call has had.
  predicate Fresh(s: State, step: Step) {
    step.Enqueue? ==> forall k :: 0 <= k < |s.calls| ==> s.calls[k].id != step.id
  }

  ghost predicate AllFresh(s: State, steps: seq<Step>)
    requires IsRun(s, steps)
    decreases |steps|
  {
    steps == [] || (Fresh(s, steps[0]) && AllFresh(Next(s, steps[0]), steps[1..]))
  }

  // When no id is used twice, a removed entry never comes back, late callbacks included.
  lemma {:induction false} GoneForGood(s: State, steps: seq<Step>, id: string)
    requires IsRun(s, steps) && AllFresh(s, steps) && Known(s, id) && id !in s.jobs
    ensures id !in After(s, steps).jobs
    decreases |steps|
  {
    if steps != [] {
      var k :| 0 <= k < |s.calls| && s.calls[k].id == id;
      assert Next(s, steps[0]).calls[k].id == id;
      GoneForGood(Next(s, steps[0]), steps[1..], id);
    }
  }

  // So an entry that is there in the end was there all the time, and moved forward.
  lemma {:induction false} FreshStays(s: State, steps: seq<Step>, id: string)
    requires Inv(s) && IsRun(s, steps) && AllFresh(s, steps) && id in s.jobs && id in After(s, steps).jobs
    ensures Stays(s, steps, id) && AllUntaken(s, steps)
    decreases |steps|
  {
    if steps == [] {
    } else {
      var next := Next(s, steps[0]);
      FreshIsUntaken(s, steps[0]);
      StepInv(s, steps[0]);
      KnownStays(s, steps[0], id);
      hide Inv, Enabled, Next, Known;
      if id in next.jobs {
        FreshStays(next, steps[1..], id);
      } else {
        GoneForGood(next, steps[1..], id);
      }
    }
  }

  lemma FreshIsUntaken(s: State, step: Step)
    requires Inv(s) && Fresh(s, step)
    ensures Untaken(s, step)
  {
    hide Sane, EarlierDone, EntriesOk;
  }

  lemma KnownStays(s: State, step: Step, id: string)
    requires Inv(s) && Enabled(s, step) && id in s.jobs
    ensures Known(Next(s, step), id)
  {
    hide Sane, EarlierDone, EntriesOk;
    assert Known(s, id);
    var k :| 0 <= k < |s.calls| && s.calls[k].id == id;
    if Advances(step) {
      hide Enabled, Next;
      MovesOnlyItsOwn(s, step);
    }
    assert Next(s, step).calls[k].id == id;
  }

  // ---- reusing a job id ------------------------------------------------------------------------

  lemma {:induction false} FirstJobPicked() returns (s: State)
    ensures s == State(map["a" := Entry(Queued, None)], [Call("a", Hooked, true, Picked)], 1)
    ensures var steps := [Enqueue("a"), Submit(0), AddCallback(0), Pick(0)];
      IsRun(Initial(1), steps) && After(Initial(1), steps) == s
  {
    var s1 := Next(Initial(1), Enqueue("a"));
    var s2 := Next(s1, Submit(0));
    var s3 := Next(s2, AddCallback(0));
    NobodyBusy(s3, 0);
    s := Next(s3, Pick(0));
    hide Enabled, Next;
    RunFrom(s3, Pick(0), []);
    RunFrom(s2, AddCallback(0), [Pick(0)]);
    RunFrom(s1, Submit(0), [AddCallback(0), Pick(0)]);
    RunFrom(Initial(1), Enqueue("a"), [Submit(0), AddCallback(0), Pick(0)]);
    assert [Enqueue("a")] + [Submit(0), AddCallback(0), Pick(0)] == [Enqueue("a"), Submit(0), AddCallback(0), Pick(0)];
    assert [Submit(0)] + [AddCallback(0), Pick(0)] == [Submit(0), AddCallback(0), Pick(0)];
    assert [AddCallback(0)] + [Pick(0)] == [AddCallback(0), Pick(0)] && [Pick(0)] + [] == [Pick(0)];
  }

  // A custom job id used twice sends a running job back to QUEUED.
  lemma {:induction false} ReusedIdGoesBack()
    ensures var steps := [Enqueue("a"), Submit(0), AddCallback(0), Pick(0), Start(0)];
      && IsRun(Initial(1), steps)
      && After(Initial(1), steps).jobs == map["a" := Entry(Running, None)]
      && Next(After(Initial(1), steps), Enqueue("a")).jobs == map["a" := Entry(Queued, None)]
  {
    var s4 := FirstJobPicked();
    var s5 := Next(s4, Start(0));
    assert Enabled(s4, Start(0)) && s5.jobs == map["a" := Entry(Running, None)];
    assert Next(s5, Enqueue("a")).jobs == map["a" := Entry(Queued, None)];
    hide Enabled, Next;
    RunFrom(s4, Start(0), []);
    RunsJoin(Initial(1), [Enqueue("a"), Submit(0), AddCallback(0), Pick(0)], [Start(0)]);
    assert [Enqueue("a"), Submit(0), AddCallback(0), Pick(0)] + [Start(0)]
      == [Enqueue("a"), Submit(0), AddCallback(0), Pick(0), Start(0)];
    assert [Start(0)] + [] == [Start(0)];
  }
}

/** The queue object: the job table and its critical sections. */
module MemoryJobQueue {
  import opened PyText
  import opened QueueSpec

  const RETENTION_SECONDS := 86400.0
  const CLEANUP_INTERVAL := 50

  class JobQueue {
    var jobs: map<string, Entry>
    var enqueueCount: nat

    constructor ()
      ensures jobs == map[] && enqueueCount == 0
    {
      jobs, enqueueCount := map[], 0;
    }

    method Register(id: string)
      modifies this`jobs
      ensures jobs == QueueSpec.Registered(old(jobs), id)
    {
      jobs := jobs[id := Entry(Queued, None)];
    }

    method MarkRunning(id: string)
      modifies this`jobs
      ensures jobs == Started(old(jobs), id)
    {
      if id in jobs {
        jobs := jobs[id := jobs[id].(status := Running)];
      }
    }

    method OnComplete(id: string, ok: bool, now: real)
      modifies this`jobs
      ensures jobs == QueueSpec.Finished(old(jobs), id, ok, now)
      ensures id in old(jobs) ==>
        jobs == old(jobs)[id := Entry(if ok then Completed else Failed, Some(now))]
    {
      if id !in jobs {
        return;
      }
      jobs := jobs[id := jobs[id].(completedAt := Some(now))];
      if ok {
        jobs := jobs[id := jobs[id].(status := Completed)];
      } else {
        jobs := jobs[id := jobs[id].(status := Failed)];
      }
    }

    method DeleteIds(ids: set<string>)
      requires ids <= jobs.Keys
      modifies this`jobs
      ensures jobs == old(jobs) - ids
    {
      var left := ids;
      while left != {}
        invariant left <= ids && jobs == old(jobs) - (ids - left)
        decreases left
      {
        var id :| id in left;
        jobs := jobs - {id};
        left := left - {id};
      }
    }

    method ClearFailedJobs() returns (count: nat)
      modifies this`jobs
      ensures jobs == WithoutFailed(old(jobs))
      ensures count == |set id | id in old(jobs) && old(jobs)[id].status.Failed?|
    {
      var failedIds := set id | id in jobs && jobs[id].status.Failed?;
      DeleteIds(failedIds);
      count := |failedIds|;
    }

    // A finished entry stays for a day; entries that are not finished stay.
    method CleanupOldJobs(now: real)
      modifies this`jobs
      ensures jobs == WithoutOutdated(old(jobs), now - RETENTION_SECONDS)
      ensures forall id :: id in jobs ==> id in old(jobs) && jobs[id] == old(jobs)[id]
      ensures forall id :: id in old(jobs) ==>
        var entry := old(jobs)[id];
        id !in jobs <==>
          && (entry.status == Completed || entry.status == Failed)
          && entry.completedAt.Some? && now - entry.completedAt.value > 86_400.0
    {
      var cutoff := now - RETENTION_SECONDS;
      var oldIds := set id | id in jobs && Outdated(jobs[id], cutoff);
      DeleteIds(oldIds);
    }

    // The end of enqueue: every fiftieth call cleans up.
    method CountEnqueue(now: real)
      modifies this
      ensures enqueueCount == old(enqueueCount) + 1
      ensures jobs == if enqueueCount % CLEANUP_INTERVAL == 0
        then WithoutOutdated(old(jobs), now - RETENTION_SECONDS) else old(jobs)
    {
      enqueueCount := enqueueCount + 1;
      if enqueueCount % CLEANUP_INTERVAL == 0 {
        CleanupOldJobs(now);
      }
    }
  }
}
