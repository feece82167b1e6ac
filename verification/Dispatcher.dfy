/**
 The Internet Explorer plugins' dispatcher: one thread hands the URLs of a group to sixty worker
 threads through shared flags and auto-reset events. A state machine with one step for each access
 to shared state, interleaved freely.
 */
module Dispatcher {
  import opened Basics

  const MAX_WORKER_THREADS := 60

  /** Where a worker thread is in its loop. */
  datatype WorkerAt =
    | Waiting             // for worker_has_data
    | Woken               // has_data taken, worker_thread_data not read yet
    | Visiting(url: nat)  // inside visitUrl
    | Returned            // visitUrl is over, busy not cleared yet
    | Cleared             // busy cleared, worker_finished not set yet

  /** A worker thread and the shared variables of its index. */
  datatype Worker = Worker(at: WorkerAt, busy: bool, data: Option<nat>, hasData: bool, finished: bool)

  /** Where the dispatcher is in visitGroup's loop; the number is the worker it is dealing with. */
  datatype DispatcherAt =
    | Check(i: nat)     // the for loop is about to look at worker i, or at its end
    | Fill(i: nat)      // worker i found idle, about to point it at a URL
    | MarkBusy(i: nat)
    | Signal(i: nat)    // about to count and to set has_data
    | Wait              // at WaitForMultipleObjects
    | Counting(i: nat)  // woken by worker i's finished event, about to look at its busy flag
    | Left              // out of the loop; the instances are deleted next

  /** `begun` and `returned` record the visitUrl calls made and ended. */
  datatype State = State(
    workers: seq<Worker>, at: DispatcherAt, urls: nat, toVisit: nat, visiting: nat, visited: nat,
    begun: set<nat>, returned: nat)

  datatype Step = Dispatch | Work(k: nat)

  /** The smallest index with a finished event set, as WaitForMultipleObjects returns; the count if none. */
  function LowestFinished(ws: seq<Worker>): (k: nat)
    ensures k <= |ws|
    ensures k < |ws| ==> ws[k].finished
    ensures forall j :: 0 <= j < k ==> !ws[j].finished
  {
    if ws == [] || ws[0].finished then 0 else 1 + LowestFinished(ws[1..])
  }

  function LoopHead(s: State): State
  {
    s.(at := if s.visited < s.urls then Check(0) else Left)
  }

  predicate Shape(s: State)
  {
    && |s.workers| == MAX_WORKER_THREADS
    && (s.at.Check? ==> s.at.i <= MAX_WORKER_THREADS)
    && (s.at.Fill? || s.at.MarkBusy? || s.at.Signal? || s.at.Counting? ==> s.at.i < MAX_WORKER_THREADS)
  }

  predicate Enabled(s: State, step: Step)
  {
    match step
    case Dispatch => !s.at.Left?
    case Work(k) => k < |s.workers| && (s.workers[k].at.Waiting? ==> s.workers[k].hasData)
  }

  function Set(s: State, k: nat, w: Worker): State
    requires k < |s.workers|
  {
    s.(workers := s.workers[k := w])
  }

  function DispatchStep(s: State): State
    requires Shape(s)
  {
    match s.at
    case Check(i) =>
      if i == MAX_WORKER_THREADS then s.(at := Wait)
      else if !s.workers[i].busy && s.visiting < s.urls then s.(at := Fill(i))
      else s.(at := Check(i + 1))
    case Fill(i) => Set(s, i, s.workers[i].(data := Some(s.toVisit))).(toVisit := s.toVisit + 1, at := MarkBusy(i))
    case MarkBusy(i) => Set(s, i, s.workers[i].(busy := true)).(at := Signal(i))
    case Signal(i) => Set(s, i, s.workers[i].(hasData := true)).(visiting := s.visiting + 1, at := Check(i + 1))
    case Wait =>
      var k := LowestFinished(s.workers);
      // without a finished event the wait times out
      if k == MAX_WORKER_THREADS then LoopHead(s) else Set(s, k, s.workers[k].(finished := false)).(at := Counting(k))
    case Counting(k) => LoopHead(if s.workers[k].busy then s else s.(visited := s.visited + 1))
    case Left => s
  }

  function WorkStep(s: State, k: nat): State
    requires k < |s.workers|
  {
    var w := s.workers[k];
    match w.at
    case Waiting => Set(s, k, w.(hasData := false, at := Woken))
    case Woken =>
      (match w.data
       case Some(url) => Set(s, k, w.(at := Visiting(url))).(begun := s.begun + {url})
       case None => Set(s, k, w.(at := Waiting)))
    case Visiting(_) => Set(s, k, w.(at := Returned)).(returned := s.returned + 1)
    case Returned => Set(s, k, w.(busy := false, at := Cleared))
    case Cleared => Set(s, k, w.(finished := true, at := Waiting))
  }

  function Next(s: State, step: Step): State
    requires Shape(s) && Enabled(s, step)
  {
    match step
    case Dispatch => DispatchStep(s)
    case Work(k) => WorkStep(s, k)
  }

  predicate Idle(w: Worker)
  {
    w.at.Waiting? && !w.busy && !w.hasData && !w.finished
  }

  /** visitGroup is called with all workers idle and no finished signal pending. */
  predicate Init(s: State)
  {
    && |s.workers| == MAX_WORKER_THREADS && (forall k :: 0 <= k < |s.workers| ==> Idle(s.workers[k]))
    && s.toVisit == s.visiting == s.visited == s.returned == 0 && s.begun == {}
    && s == LoopHead(s)
  }

  // ---------------------------------------------------------------- runs

  lemma StepKeepsShape(s: State, step: Step)
    requires Shape(s) && Enabled(s, step)
    ensures Shape(Next(s, step)) && Next(s, step).urls == s.urls
  {
  }

  predicate Run(s: State, steps: seq<Step>)
    requires Shape(s)
    decreases |steps|
  {
    steps == [] || (Enabled(s, steps[0]) && (StepKeepsShape(s, steps[0]); Run(Next(s, steps[0]), steps[1..])))
  }

  function After(s: State, steps: seq<Step>): (s': State)
    requires Shape(s) && Run(s, steps)
    ensures Shape(s') && s'.urls == s.urls
    decreases |steps|
  {
    if steps == [] then
      s
    else
      StepKeepsShape(s, steps[0]);
      After(Next(s, steps[0]), steps[1..])
  }

  // ---------------------------------------------------------------- counting over the workers

  function One(b: bool): nat
  {
    if b then 1 else 0
  }

  // ---------------------------------------------------------------- safety, for groups of any size

  /** Visits of this worker that have returned and may still be counted. */
  function Ripe(w: Worker): nat
  {
    One(w.at.Returned? || w.at.Cleared?) + One(w.finished)
  }

  function InVisit(w: Worker): nat
  {
    One(w.at.Visiting?)
  }

  /** Worker k has been pointed at a URL that it has not begun to visit. */
  predicate Holding(s: State, k: nat)
    requires k < |s.workers|
  {
    s.workers[k].hasData || s.workers[k].at.Woken? || s.at == MarkBusy(k) || s.at == Signal(k)
  }

  /** The busy flag is up exactly from the assignment of a URL to the end of its visit. */
  predicate BusyRight(s: State, k: nat)
    requires k < |s.workers|
  {
    var w := s.workers[k];
    && (w.busy <==> w.hasData || w.at.Woken? || w.at.Visiting? || w.at.Returned? || s.at == Signal(k))
    && (w.hasData ==> w.at.Waiting? || w.at.Cleared?)
    && (s.at == Fill(k) || s.at == MarkBusy(k) ==> !w.busy)
    && (s.at == Signal(k) ==> !w.hasData && (w.at.Waiting? || w.at.Cleared?))
  }

  predicate HoldsRight(s: State, k: nat)
    requires k < |s.workers|
  {
    Holding(s, k) ==> s.workers[k].data.Some? && s.workers[k].data.value < s.toVisit && s.workers[k].data.value !in s.begun
  }

  predicate HoldApart(s: State, k: nat, l: nat)
    requires k < |s.workers| && l < |s.workers|
  {
    Holding(s, k) && Holding(s, l) && k != l ==> s.workers[k].data != s.workers[l].data
  }

  predicate Handed(s: State)
  {
    && (forall k :: 0 <= k < |s.workers| ==> BusyRight(s, k))
    && (forall k :: 0 <= k < |s.workers| ==> HoldsRight(s, k))
    && (forall k, l :: 0 <= k < |s.workers| && 0 <= l < |s.workers| ==> HoldApart(s, k, l))
    && (forall u :: u in s.begun ==> u < s.toVisit)
    && s.toVisit == s.visiting + One(s.at.MarkBusy? || s.at.Signal?) && s.toVisit <= s.urls
    && (s.at.Fill? ==> s.visiting < s.urls)
  }

  predicate Counted(s: State)
  {
    && s.visited + Sum(s.workers, Ripe) + One(s.at.Counting?) <= s.returned
    && |s.begun| == s.returned + Sum(s.workers, InVisit)
    && (s.at.Left? ==> s.visited >= s.urls)
  }

  predicate Safe(s: State)
  {
    Shape(s) && Handed(s) && Counted(s)
  }

  lemma InitSafe(s: State)
    requires Init(s)
    ensures Safe(s)
  {
    SumZero(s.workers, Ripe);
    SumZero(s.workers, InVisit);
  }

  lemma DispatchKeepsApart(s: State, k: nat, l: nat)
    requires Safe(s) && !s.at.Left? && k < |s.workers| && l < |s.workers|
    ensures HoldApart(DispatchStep(s), k, l)
  {
    hide Counted;
    assert HoldApart(s, k, l) && HoldsRight(s, k) && HoldsRight(s, l) && BusyRight(s, k) && BusyRight(s, l);
  }

  lemma DispatchKeepsRight(s: State, k: nat)
    requires Safe(s) && !s.at.Left? && k < |s.workers|
    ensures BusyRight(DispatchStep(s), k) && HoldsRight(DispatchStep(s), k)
  {
    hide Counted;
    assert BusyRight(s, k) && HoldsRight(s, k);
  }

  lemma DispatchKeepsHanded(s: State)
    requires Safe(s) && !s.at.Left?
    ensures Handed(DispatchStep(s))
  {
    var s' := DispatchStep(s);
    hide Counted, BusyRight, HoldsRight, HoldApart;
    forall k | 0 <= k < |s'.workers|
      ensures BusyRight(s', k) && HoldsRight(s', k)
    {
      DispatchKeepsRight(s, k);
    }
    forall k, l | 0 <= k < |s'.workers| && 0 <= l < |s'.workers|
      ensures HoldApart(s', k, l)
    {
      DispatchKeepsApart(s, k, l);
    }
  }

  lemma WorkKeepsRight(s: State, k: nat, j: nat)
    requires Safe(s) && Enabled(s, Work(k)) && j < |s.workers|
    ensures BusyRight(WorkStep(s, k), j) && HoldsRight(WorkStep(s, k), j)
  {
    hide Counted;
    assert BusyRight(s, k) && HoldsRight(s, k) && BusyRight(s, j) && HoldsRight(s, j) && HoldApart(s, j, k);
  }

  lemma WorkKeepsApart(s: State, k: nat, j: nat, l: nat)
    requires Safe(s) && Enabled(s, Work(k)) && j < |s.workers| && l < |s.workers|
    ensures HoldApart(WorkStep(s, k), j, l)
  {
    hide Counted;
    assert BusyRight(s, k) && HoldsRight(s, k) && HoldApart(s, j, l);
  }

  lemma WorkKeepsBegun(s: State, k: nat)
    requires Safe(s) && Enabled(s, Work(k))
    ensures forall u :: u in WorkStep(s, k).begun ==> u < s.toVisit
  {
    hide Counted;
    assert HoldsRight(s, k);
  }

  lemma WorkKeepsHanded(s: State, k: nat)
    requires Safe(s) && Enabled(s, Work(k))
    ensures Handed(WorkStep(s, k))
  {
    var s' := WorkStep(s, k);
    hide Counted, BusyRight, HoldApart, HoldsRight;
    WorkKeepsBegun(s, k);
    forall j, l | 0 <= j < |s'.workers| && 0 <= l < |s'.workers|
      ensures HoldApart(s', j, l)
    {
      WorkKeepsApart(s, k, j, l);
    }
    forall j | 0 <= j < |s'.workers|
      ensures BusyRight(s', j) && HoldsRight(s', j)
    {
      WorkKeepsRight(s, k, j);
    }
  }

  lemma DispatchKeepsCounted(s: State)
    requires Safe(s) && !s.at.Left?
    ensures Counted(DispatchStep(s))
  {
    var s', ws := DispatchStep(s), s.workers;
    hide Handed;
    if s'.workers != ws {
      var k := if s.at.Wait? then LowestFinished(ws) else s.at.i;
      SumSet(ws, k, s'.workers[k], Ripe);
      SumSet(ws, k, s'.workers[k], InVisit);
    }
  }

  lemma WorkKeepsCounted(s: State, k: nat)
    requires Safe(s) && Enabled(s, Work(k))
    ensures Counted(WorkStep(s, k))
  {
    var s' := WorkStep(s, k);
    assert BusyRight(s, k) && HoldsRight(s, k);
    SumSet(s.workers, k, s'.workers[k], Ripe);
    SumSet(s.workers, k, s'.workers[k], InVisit);
  }

  /** Every step, of the dispatcher or of any worker, keeps the protocol safe. */
  lemma StepKeepsSafe(s: State, step: Step)
    requires Safe(s) && Enabled(s, step)
    ensures Safe(Next(s, step))
  {
    StepKeepsShape(s, step);
    if step.Dispatch? {
      hide Handed, Counted, DispatchStep;
      DispatchKeepsHanded(s);
      DispatchKeepsCounted(s);
    } else {
      hide Handed, Counted, WorkStep;
      WorkKeepsHanded(s, step.k);
      WorkKeepsCounted(s, step.k);
    }
  }

  lemma {:induction false} RunKeepsSafe(s: State, steps: seq<Step>)
    requires Safe(s) && Run(s, steps)
    ensures Safe(After(s, steps))
    decreases |steps|
  {
    hide Handed, Counted, Enabled, Next;
    if steps != [] {
      StepKeepsSafe(s, steps[0]);
      RunKeepsSafe(Next(s, steps[0]), steps[1..]);
    }
  }

  /** The URL of every visitUrl call about to be made is one of the group's and has not been visited before. */
  lemma VisitsAreNew(s: State, steps: seq<Step>, k: nat)
    requires Init(s) && Run(s, steps) && k < MAX_WORKER_THREADS && After(s, steps).workers[k].at.Woken?
    ensures var s' := After(s, steps); var w := s'.workers[k];
      && w.data.Some? && w.data.value < s.urls && w.data.value !in s'.begun
      && (forall l :: 0 <= l < MAX_WORKER_THREADS && l != k && s'.workers[l].at.Woken? ==> s'.workers[l].data != w.data)
  {
    InitSafe(s);
    RunKeepsSafe(s, steps);
    var s' := After(s, steps);
    hide After, Run, Counted;
    assert Holding(s', k) && HoldsRight(s', k);
    forall l | 0 <= l < MAX_WORKER_THREADS && l != k && s'.workers[l].at.Woken?
      ensures s'.workers[l].data != s'.workers[k].data
    {
      assert Holding(s', l) && HoldApart(s', l, k);
    }
  }

  lemma {:induction false} AllBelow(begun: set<nat>, n: nat)
    requires forall u :: u in begun ==> u < n
    ensures |begun| <= n
    ensures |begun| == n ==> forall u :: 0 <= u < n ==> u in begun
    decreases n
  {
    if n > 0 {
      var rest := begun - {n - 1};
      AllBelow(rest, n - 1);
      assert n - 1 in begun ==> begun == rest + {n - 1};
      assert n - 1 !in begun ==> begun == rest;
    } else {
      assert begun == {};
    }
  }

  /**
   n_visited_urls never exceeds the visits that have returned; so when the dispatcher leaves the loop
   every URL has been visited, every visit has returned, and no worker is inside one.
   */
  lemma LeavesAfterAllReturned(s: State, steps: seq<Step>)
    requires Init(s) && Run(s, steps)
    ensures var s' := After(s, steps);
      && s'.visited <= s'.returned <= s.urls
      && (s'.at.Left? ==>
            && s'.returned == s.urls && (forall u :: 0 <= u < s.urls ==> u in s'.begun)
            && (forall k :: 0 <= k < MAX_WORKER_THREADS ==> !s'.workers[k].at.Visiting?))
  {
    InitSafe(s);
    RunKeepsSafe(s, steps);
    var s' := After(s, steps);
    hide After, Run;
    AllBelow(s'.begun, s'.toVisit);
    if s'.at.Left? {
      forall k | 0 <= k < MAX_WORKER_THREADS
        ensures !s'.workers[k].at.Visiting?
      {
        SumAtLeast(s'.workers, k, InVisit);
      }
    }
  }

  // ---------------------------------------------------------------- can every visit still be counted?

  /** Signals still on their way from this worker, or to it. */
  function Tokens(w: Worker): nat
  {
    One(w.hasData) + One(!w.at.Waiting?) + One(w.finished)
  }

  /** A bound on what n_visited_urls can still reach, which CanStillLeave shows to be met where it is the number of URLs. */
  function Potential(s: State): int
  {
    s.visited + (s.urls - s.visiting) + Sum(s.workers, Tokens) + One(s.at.Counting?)
  }

  lemma InitPotential(s: State)
    requires Init(s)
    ensures Potential(s) == s.urls
  {
    SumZero(s.workers, Tokens);
  }

  /** The steps at which a signal is lost: an event set twice, or a worker reused before it was counted. */
  predicate Loses(s: State, step: Step)
    requires Shape(s) && Enabled(s, step)
  {
    match step
    case Dispatch => (s.at.Signal? && s.workers[s.at.i].hasData) || (s.at.Counting? && s.workers[s.at.i].busy)
    case Work(k) => (s.workers[k].at.Cleared? && s.workers[k].finished) || (s.workers[k].at.Woken? && s.workers[k].data.None?)
  }

  lemma DispatchPotential(s: State)
    requires Shape(s) && !s.at.Left?
    ensures Potential(DispatchStep(s)) == Potential(s) - One(Loses(s, Dispatch))
  {
    var s', ws := DispatchStep(s), s.workers;
    if s'.workers != ws {
      var k := if s.at.Wait? then LowestFinished(ws) else s.at.i;
      SumSet(ws, k, s'.workers[k], Tokens);
    }
  }

  lemma WorkPotential(s: State, k: nat)
    requires Shape(s) && Enabled(s, Work(k))
    ensures Potential(WorkStep(s, k)) == Potential(s) - One(Loses(s, Work(k)))
  {
    hide Sum;
    var w, w' := s.workers[k], WorkStep(s, k).workers[k];
    assert WorkStep(s, k).workers == s.workers[k := w'];
    SumSet(s.workers, k, w', Tokens);
    assert Tokens(w') == Tokens(w) - One(Loses(s, Work(k)));
  }

  /** Exactly the losing steps lower the potential, by one. */
  lemma StepPotential(s: State, step: Step)
    requires Shape(s) && Enabled(s, step)
    ensures Potential(Next(s, step)) == Potential(s) - One(Loses(s, step))
  {
    hide Potential, Loses, DispatchStep, WorkStep;
    if step.Dispatch? {
      DispatchPotential(s);
    } else {
      WorkPotential(s, step.k);
    }
  }

  lemma {:induction false} RunPotential(s: State, steps: seq<Step>)
    requires Shape(s) && Run(s, steps)
    ensures Potential(After(s, steps)) <= Potential(s)
    decreases |steps|
  {
    hide Potential, Next, Enabled, Loses;
    if steps != [] {
      StepPotential(s, steps[0]);
      StepKeepsShape(s, steps[0]);
      RunPotential(Next(s, steps[0]), steps[1..]);
    }
  }

  // ---------------------------------------------------------------- at most sixty URLs: no signal is lost

  /** A worker of a small group: its finished event is only ever set once its one visit is over. */
  predicate Clean(s: State, k: nat)
    requires k < |s.workers|
  {
    var w := s.workers[k];
    && (w.finished ==> w.at.Waiting? && !w.hasData && !w.busy)
    && (!w.at.Waiting? ==> !w.hasData && !w.finished)
    && (s.at == Counting(k) ==> w.at.Waiting? && !w.hasData && !w.finished && !w.busy)
  }

  predicate Untouched(s: State, i: nat)
  {
    forall k :: i <= k < |s.workers| ==> Idle(s.workers[k])
  }

  /** While URLs are left, the dispatcher is in its first scan and the workers ahead of it are idle. */
  predicate FirstScan(s: State)
  {
    s.visiting < s.urls ==>
      match s.at
      case Check(i) => i == s.visiting && Untouched(s, i)
      case Fill(i) => i == s.visiting && Untouched(s, i)
      case MarkBusy(i) => i == s.visiting && Untouched(s, i)
      case Signal(i) =>
        i == s.visiting < |s.workers| && Untouched(s, i + 1)
        && s.workers[i].at.Waiting? && !s.workers[i].hasData && !s.workers[i].finished
      case _ => false
  }

  predicate Small(s: State)
  {
    && Safe(s) && s.urls <= MAX_WORKER_THREADS && FirstScan(s)
    && (forall k :: 0 <= k < |s.workers| ==> Clean(s, k))
  }

  lemma DispatchKeepsSmall(s: State)
    requires Small(s) && !s.at.Left?
    ensures FirstScan(DispatchStep(s)) && !Loses(s, Dispatch)
    ensures forall k :: 0 <= k < |s.workers| ==> Clean(DispatchStep(s), k)
  {
    hide Counted, HoldsRight, HoldApart;
    var s' := DispatchStep(s);
    if s.at.Signal? || s.at.Counting? {
      assert BusyRight(s, s.at.i) && Clean(s, s.at.i);
    }
    forall k | 0 <= k < |s.workers|
      ensures Clean(s', k)
    {
      assert Clean(s, k) && BusyRight(s, k);
    }
  }

  lemma WorkKeepsSmall(s: State, k: nat)
    requires Small(s) && Enabled(s, Work(k))
    ensures FirstScan(WorkStep(s, k)) && !Loses(s, Work(k))
    ensures forall j :: 0 <= j < |s.workers| ==> Clean(WorkStep(s, k), j)
  {
    hide Counted, HoldApart;
    var s' := WorkStep(s, k);
    assert BusyRight(s, k) && HoldsRight(s, k) && Clean(s, k);
    forall j | 0 <= j < |s.workers|
      ensures Clean(s', j)
    {
      assert Clean(s, j);
    }
  }

  lemma StepKeepsSmall(s: State, step: Step)
    requires Small(s) && Enabled(s, step)
    ensures Small(Next(s, step)) && !Loses(s, step)
  {
    StepKeepsSafe(s, step);
    StepKeepsShape(s, step);
    hide Safe, FirstScan, Loses, Clean, DispatchStep, WorkStep;
    if step.Dispatch? {
      DispatchKeepsSmall(s);
    } else {
      WorkKeepsSmall(s, step.k);
    }
  }

  lemma {:induction false} RunKeepsSmall(s: State, steps: seq<Step>)
    requires Small(s) && Run(s, steps)
    ensures Small(After(s, steps)) && Potential(After(s, steps)) == Potential(s)
    decreases |steps|
  {
    hide FirstScan, Clean, Handed, Counted, Next, Enabled, Loses, Potential;
    if steps != [] {
      StepKeepsSmall(s, steps[0]);
      StepPotential(s, steps[0]);
      RunKeepsSmall(Next(s, steps[0]), steps[1..]);
    }
  }

  /** Nothing is going on any more and nothing will: all workers idle, no event pending, the dispatcher waiting. */
  predicate Quiet(s: State)
  {
    (s.at.Wait? || s.at.Left?) && forall k :: 0 <= k < |s.workers| ==> Tokens(s.workers[k]) == 0
  }

  /** For at most sixty URLs no signal is lost: once all is quiet every URL has been counted. */
  lemma SmallGroupsAreCounted(s: State, steps: seq<Step>)
    requires Init(s) && Run(s, steps) && s.urls <= MAX_WORKER_THREADS
    ensures Potential(After(s, steps)) == s.urls
    ensures Quiet(After(s, steps)) ==> After(s, steps).visited == s.urls
  {
    InitSafe(s);
    InitPotential(s);
    RunKeepsSmall(s, steps);
    var s' := After(s, steps);
    hide After, Run, Init, Handed, Counted;
    if Quiet(s') {
      SumZero(s'.workers, Tokens);
      assert s'.visiting >= s'.urls;
      VisitingBound(s');
    }
  }

  lemma VisitingBound(s: State)
    requires Handed(s)
    ensures s.visiting <= s.urls
  {
  }

  // ---------------------------------------------------------------- more than sixty: a signal can be lost

  /** `t` can be reached from `s`. */
  ghost predicate Reaches(s: State, t: State)
    requires Shape(s)
  {
    exists steps :: Run(s, steps) && After(s, steps) == t
  }

  lemma {:induction false} RunAppend(s: State, a: seq<Step>, b: seq<Step>)
    requires Shape(s) && Run(s, a) && Run(After(s, a), b)
    ensures Run(s, a + b) && After(s, a + b) == After(After(s, a), b)
    decreases |a|
  {
    if a == [] {
      assert a + b == b;
    } else {
      assert (a + b)[0] == a[0] && (a + b)[1..] == a[1..] + b;
      StepKeepsShape(s, a[0]);
      RunAppend(Next(s, a[0]), a[1..], b);
    }
  }

  lemma ReachesStays(s: State)
    requires Shape(s)
    ensures Reaches(s, s)
  {
    assert Run(s, []) && After(s, []) == s;
  }

  lemma ReachesMore(s: State, t: State, step: Step)
    requires Shape(s) && Shape(t) && Reaches(s, t) && Enabled(t, step)
    ensures Shape(Next(t, step)) && Reaches(s, Next(t, step))
  {
    var steps :| Run(s, steps) && After(s, steps) == t;
    StepKeepsShape(t, step);
    assert Run(Next(t, step), []) && After(Next(t, step), []) == Next(t, step);
    assert [step][1..] == [];
    assert Run(t, [step]) && After(t, [step]) == Next(t, step);
    RunAppend(s, steps, [step]);
  }

  /** A worker that has just been given the URL of its own number. */
  predicate JustGiven(w: Worker)
  {
    w.at.Waiting? && w.busy && w.hasData && !w.finished && w.data.Some?
  }

  ghost predicate ScannedTo(s0: State, s: State, i: nat)
  {
    && Shape(s0) && Shape(s) && Reaches(s0, s) && s.urls == s0.urls
    && i <= MAX_WORKER_THREADS && s.at == Check(i) && s.visiting == i && s.visited == 0
    && (forall k :: 0 <= k < i ==> JustGiven(s.workers[k]))
    && (forall k :: i <= k < MAX_WORKER_THREADS ==> Idle(s.workers[k]))
  }

  /** The dispatcher gives one more worker its URL. */
  lemma ScanOne(s0: State, s: State, i: nat) returns (s': State)
    requires ScannedTo(s0, s, i) && i < MAX_WORKER_THREADS < s0.urls
    ensures ScannedTo(s0, s', i + 1)
  {
    hide Reaches, Run, After;
    assert Idle(s.workers[i]);
    ReachesMore(s0, s, Dispatch);
    var filling := Next(s, Dispatch);
    ReachesMore(s0, filling, Dispatch);
    var marking := Next(filling, Dispatch);
    ReachesMore(s0, marking, Dispatch);
    var signalling := Next(marking, Dispatch);
    ReachesMore(s0, signalling, Dispatch);
    s' := Next(signalling, Dispatch);
  }

  lemma {:induction false} ScanAll(s0: State, s: State, i: nat) returns (s': State)
    requires ScannedTo(s0, s, i) && MAX_WORKER_THREADS < s0.urls
    ensures ScannedTo(s0, s', MAX_WORKER_THREADS)
    decreases MAX_WORKER_THREADS - i
  {
    if i == MAX_WORKER_THREADS {
      s' := s;
    } else {
      var t := ScanOne(s0, s, i);
      s' := ScanAll(s0, t, i + 1);
    }
  }

  ghost predicate At(s0: State, s: State)
  {
    Shape(s0) && Shape(s) && Reaches(s0, s) && s.urls == s0.urls
  }

  /** One step further along a run. */
  lemma Go(s0: State, s: State, step: Step) returns (s': State)
    requires At(s0, s) && Enabled(s, step)
    ensures At(s0, s') && s' == Next(s, step)
  {
    hide Reaches;
    ReachesMore(s0, s, step);
    StepKeepsShape(s, step);
    s' := Next(s, step);
  }

  /** Worker k visits its URL and clears its busy flag, but has not set its event yet. */
  lemma WorkerClears(s0: State, s: State, k: nat) returns (s': State)
    requires At(s0, s) && k < MAX_WORKER_THREADS && JustGiven(s.workers[k])
    ensures At(s0, s') && s' == s.(workers := s'.workers, begun := s'.begun, returned := s'.returned)
    ensures s'.workers == s.workers[k := Worker(Cleared, false, s.workers[k].data, false, false)]
  {
    hide Reaches;
    s' := Go(s0, s, Work(k));
    s' := Go(s0, s', Work(k));
    s' := Go(s0, s', Work(k));
    s' := Go(s0, s', Work(k));
  }

  /** The dispatcher counts worker 1 while worker 0 has cleared its flag but not set its event. */
  lemma CountOther(s0: State, s: State) returns (s': State)
    requires ScannedTo(s0, s, MAX_WORKER_THREADS) && MAX_WORKER_THREADS < s0.urls
    ensures At(s0, s') && s'.at == Check(0) && s'.visiting == MAX_WORKER_THREADS && s'.visited == 1
    ensures var w := s'.workers[0]; w.at.Cleared? && !w.busy && !w.hasData && !w.finished
  {
    hide Reaches;
    assert JustGiven(s.workers[0]) && JustGiven(s.workers[1]);
    s' := WorkerClears(s0, s, 0);
    s' := WorkerClears(s0, s', 1);
    s' := Go(s0, s', Work(1));
    s' := Go(s0, s', Dispatch);
    assert s'.workers[1].finished && !s'.workers[0].finished && LowestFinished(s'.workers) == 1;
    s' := Go(s0, s', Dispatch);
    s' := Go(s0, s', Dispatch);
  }

  /** Worker 0 as it is once it has been reused before its first visit was counted. */
  predicate Reused(w: Worker)
  {
    w.at.Waiting? && w.busy && w.hasData && w.finished
  }

  lemma ReuseZero(s0: State, s: State) returns (s': State)
    requires At(s0, s) && s.at == Check(0) && s.visiting < s.urls
    requires var w := s.workers[0]; w.at.Cleared? && !w.busy && !w.hasData && !w.finished
    ensures At(s0, s') && s'.at == Check(1) && Reused(s'.workers[0])
  {
    hide Reaches;
    s' := Go(s0, s, Dispatch);
    s' := Go(s0, s', Dispatch);
    s' := Go(s0, s', Dispatch);
    s' := Go(s0, s', Dispatch);
    s' := Go(s0, s', Work(0));
  }

  /** The rest of the scan, whatever it hands out, leaves worker 0 alone. */
  lemma {:induction false} ScanOn(s0: State, s: State, i: nat) returns (s': State)
    requires At(s0, s) && 0 < i <= MAX_WORKER_THREADS && s.at == Check(i)
    ensures At(s0, s') && s'.at == Wait && s'.workers[0] == s.workers[0]
    decreases MAX_WORKER_THREADS - i
  {
    hide Reaches;
    s' := Go(s0, s, Dispatch);
    if i < MAX_WORKER_THREADS {
      if s'.at.Fill? {
        s' := Go(s0, s', Dispatch);
        s' := Go(s0, s', Dispatch);
        s' := Go(s0, s', Dispatch);
      }
      s' := ScanOn(s0, s', i + 1);
    }
  }

  /** Worker 0's signal is taken while it is busy again, and not counted. */
  lemma LoseSignal(s0: State, s: State) returns (s': State)
    requires At(s0, s) && s.at == Wait && Reused(s.workers[0])
    ensures At(s0, s') && Potential(s') < Potential(s0)
  {
    hide Potential;
    var t := Go(s0, s, Dispatch);
    assert t.at == Counting(0) && t.workers[0].busy;
    s' := Go(s0, t, Dispatch);
    StepPotential(t, Dispatch);
    var steps :| Run(s0, steps) && After(s0, steps) == t;
    RunPotential(s0, steps);
  }

  /** For every group of more than sixty URLs there is a run in which a signal is lost. */
  lemma LargeGroupsCanLose(s0: State) returns (steps: seq<Step>)
    requires Init(s0) && s0.urls > MAX_WORKER_THREADS
    ensures Run(s0, steps) && Potential(After(s0, steps)) < s0.urls
  {
    hide Potential;
    ReachesStays(s0);
    InitPotential(s0);
    var s := ScanAll(s0, s0, 0);
    s := CountOther(s0, s);
    s := ReuseZero(s0, s);
    s := ScanOn(s0, s, 1);
    s := LoseSignal(s0, s);
    steps :| Run(s0, steps) && After(s0, steps) == s;
  }

  /** Every visit stays countable in every run exactly for groups of at most sixty URLs. */
  lemma CountableExactly(s0: State)
    requires Init(s0)
    ensures s0.urls <= MAX_WORKER_THREADS <==> forall steps :: Run(s0, steps) ==> Potential(After(s0, steps)) == s0.urls
  {
    if s0.urls <= MAX_WORKER_THREADS {
      forall steps | Run(s0, steps)
        ensures Potential(After(s0, steps)) == s0.urls
      {
        SmallGroupsAreCounted(s0, steps);
      }
    } else {
      var steps := LargeGroupsCanLose(s0);
    }
  }

  /** Once a signal is lost the dispatcher never leaves its loop, whatever the workers do. */
  lemma NeverLeaves(s0: State, steps: seq<Step>, more: seq<Step>)
    requires Init(s0) && Run(s0, steps) && Potential(After(s0, steps)) < s0.urls
    requires Run(After(s0, steps), more)
    ensures !After(After(s0, steps), more).at.Left?
  {
    InitSafe(s0);
    RunKeepsSafe(s0, steps);
    RunKeepsSafe(After(s0, steps), more);
    RunPotential(After(s0, steps), more);
    var t := After(After(s0, steps), more);
    hide After, Run, Init;
    VisitingBound(t);
  }

  // ---------------------------------------------------------------- as long as none is lost, the loop can be left

  /** While worker k's event is looked at, a second one is set only after k has taken up its next URL. */
  predicate CountingRight(s: State)
    requires Shape(s)
  {
    s.at.Counting? ==> var w := s.workers[s.at.i]; !(w.at.Cleared? && w.hasData && w.finished)
  }

  /** Reached from `s0` by a run, safe, and no signal lost. */
  ghost predicate Good(s0: State, s: State)
  {
    At(s0, s) && Safe(s) && CountingRight(s) && Potential(s) == s.urls
  }

  lemma StepKeepsCounting(s: State, step: Step)
    requires Safe(s) && Enabled(s, step) && CountingRight(s)
    ensures Shape(Next(s, step)) && CountingRight(Next(s, step))
  {
    hide Counted, HoldsRight, HoldApart;
    StepKeepsShape(s, step);
    if s.at.Counting? {
      assert BusyRight(s, s.at.i);
    }
  }

  lemma {:induction false} RunKeepsCounting(s: State, steps: seq<Step>)
    requires Safe(s) && CountingRight(s) && Run(s, steps)
    ensures CountingRight(After(s, steps))
    decreases |steps|
  {
    hide Safe, CountingRight, Enabled, Next;
    if steps != [] {
      SafeShape(s);
      StepKeepsSafe(s, steps[0]);
      StepKeepsCounting(s, steps[0]);
      RunKeepsCounting(Next(s, steps[0]), steps[1..]);
    }
  }

  lemma SafeShape(s: State)
    requires Safe(s)
    ensures Shape(s)
  {
  }

  /** One step further along a run without a loss. */
  lemma GoWell(s0: State, s: State, step: Step) returns (s': State)
    requires Good(s0, s) && Enabled(s, step) && !Loses(s, step)
    ensures Good(s0, s') && s' == Next(s, step)
  {
    s' := Go(s0, s, step);
    hide At, Safe, CountingRight, Next, Potential, Enabled, Loses;
    StepKeepsSafe(s, step);
    StepKeepsCounting(s, step);
    StepPotential(s, step);
  }

  /** What a worker's or the dispatcher's next step can rely on. */
  lemma WorkerFacts(s: State, k: nat)
    requires Safe(s) && k < MAX_WORKER_THREADS
    ensures |s.workers| == MAX_WORKER_THREADS && BusyRight(s, k)
    ensures s.workers[k].at.Woken? ==> s.workers[k].data.Some?
    ensures s.visiting <= s.urls && s.toVisit <= s.urls
  {
    hide Counted, BusyRight, HoldApart;
    assert HoldsRight(s, k);
  }

  lemma GoodFacts(s0: State, s: State, k: nat)
    requires Good(s0, s) && k < |s.workers|
    ensures |s.workers| == MAX_WORKER_THREADS && Shape(s) && BusyRight(s, k)
    ensures s.workers[k].at.Woken? ==> s.workers[k].data.Some?
    ensures s.visiting <= s.urls
  {
    hide BusyRight, At, Potential;
    WorkerFacts(s, k);
  }

  lemma GoodShape(s0: State, s: State)
    requires Good(s0, s)
    ensures Shape(s) && (s.at.Fill? ==> s.visiting < s.urls)
    ensures Potential(s) == s.urls && s.visiting <= s.urls
  {
  }

  /** A worker that has a URL, on its way to the end of its visit: its event is not set in between. */
  lemma VisitEnds(s0: State, s: State, k: nat) returns (s': State)
    requires Good(s0, s) && k < |s.workers|
    requires var w := s.workers[k]; (w.at.Waiting? && w.hasData) || w.at.Woken? || w.at.Visiting? || w.at.Returned?
    ensures Good(s0, s') && k < |s'.workers| && s'.at == s.at && s'.visited == s.visited
    ensures var w := s'.workers[k]; w.at.Cleared? && !w.busy && !w.hasData && w.finished == s.workers[k].finished
    decreases match s.workers[k].at case Waiting => 3 case Woken => 2 case Visiting(_) => 1 case _ => 0
  {
    hide Good, Handed, Counted, Potential;
    GoodFacts(s0, s, k);
    s' := GoWell(s0, s, Work(k));
    if !s.workers[k].at.Returned? {
      s' := VisitEnds(s0, s', k);
    }
  }

  /** The worker whose event has been taken becomes idle, so that its visit is counted. */
  lemma BecomesIdle(s0: State, s: State) returns (s': State)
    requires Good(s0, s) && s.at.Counting?
    ensures Good(s0, s') && s'.at == s.at && s'.visited == s.visited
    ensures s.at.i < |s'.workers| && !s'.workers[s.at.i].busy
  {
    hide Handed, Counted, Potential, At;
    var k := s.at.i;
    GoodShape(s0, s);
    GoodFacts(s0, s, k);
    s' := s;
    if s.workers[k].at.Cleared? && s.workers[k].hasData {
      s' := GoWell(s0, s', Work(k));
    }
    if s'.workers[k].busy {
      GoodFacts(s0, s', k);
      s' := VisitEnds(s0, s', k);
    }
  }

  /** The rest of the scan: no signal is lost, and the workers already passed are left alone. */
  lemma {:induction false} ScanEnds(s0: State, s: State) returns (s': State)
    requires Good(s0, s) && s.at.Check?
    ensures Good(s0, s') && s'.at == Wait && s'.visited == s.visited
    ensures |s'.workers| == |s.workers| && forall k :: 0 <= k < s.at.i && k < |s.workers| ==> s'.workers[k] == s.workers[k]
    decreases MAX_WORKER_THREADS - s.at.i
  {
    hide Good, Safe, Potential;
    GoodShape(s0, s);
    s' := GoWell(s0, s, Dispatch);
    if s.at.i < MAX_WORKER_THREADS {
      s' := HandOver(s0, s');
      s' := ScanEnds(s0, s');
    }
  }

  /** From anywhere in giving a worker its URL to looking at the next worker. */
  lemma HandOver(s0: State, s: State) returns (s': State)
    requires Good(s0, s) && (s.at.Check? || s.at.Fill? || s.at.MarkBusy? || s.at.Signal?)
    ensures Good(s0, s') && s'.visited == s.visited && |s'.workers| == |s.workers|
    ensures s'.at == if s.at.Check? then s.at else Check(s.at.i + 1)
    ensures forall k :: 0 <= k < |s.workers| && k != s.at.i ==> s'.workers[k] == s.workers[k]
    ensures !s.at.Check? ==> s.at.i < |s'.workers| && s'.workers[s.at.i].hasData
    ensures s.at.Check? ==> s' == s
  {
    hide Good, Safe, Potential;
    s' := s;
    GoodShape(s0, s');
    if s'.at.Fill? {
      s' := GoWell(s0, s', Dispatch);
    }
    if s'.at.MarkBusy? {
      s' := GoWell(s0, s', Dispatch);
    }
    if s'.at.Signal? {
      GoodShape(s0, s');
      GoodFacts(s0, s', s'.at.i);
      s' := GoWell(s0, s', Dispatch);
    }
  }

  /** The dispatcher gets to its wait, or leaves, from wherever it is. */
  lemma GetsToWait(s0: State, s: State) returns (s': State)
    requires Good(s0, s)
    ensures Good(s0, s') && (s'.at.Wait? || s'.at.Left?) && s'.visited >= s.visited
  {
    hide Good, Safe, Potential;
    s' := s;
    GoodShape(s0, s');
    if s'.at.Counting? {
      s' := BecomesIdle(s0, s');
      GoodShape(s0, s');
      s' := GoWell(s0, s', Dispatch);
    }
    if s'.at.Check? || s'.at.Fill? || s'.at.MarkBusy? || s'.at.Signal? {
      s' := HandOver(s0, s');
      s' := ScanEnds(s0, s');
    }
  }

  /** A worker that has been given a URL, or is ending a visit, sets its event. */
  lemma EventIsSet(s0: State, s: State, k: nat) returns (s': State)
    requires Good(s0, s) && k < |s.workers| && (s.at.Wait? || s.at.Check?)
    requires s.workers[k].hasData || !s.workers[k].at.Waiting? || s.workers[k].finished
    ensures Good(s0, s') && s'.at == s.at && s'.visited == s.visited && k < |s'.workers| && s'.workers[k].finished
  {
    hide Good, Handed, Counted, Potential;
    GoodFacts(s0, s, k);
    s' := s;
    if !s'.workers[k].finished {
      if !s'.workers[k].at.Cleared? {
        s' := VisitEnds(s0, s', k);
      }
      s' := GoWell(s0, s', Work(k));
    }
  }

  /** Nobody has anything to do: the dispatcher gives the next URL to worker 0, which visits it. */
  lemma NextUrl(s0: State, s: State) returns (s': State)
    requires Good(s0, s) && s.at.Wait? && s.visited < s.urls
    requires forall k :: 0 <= k < |s.workers| ==> Tokens(s.workers[k]) == 0
    ensures Good(s0, s') && s'.at.Wait? && s'.visited == s.visited && 0 < |s'.workers| && s'.workers[0].finished
  {
    hide Good, Safe;
    GoodShape(s0, s);
    GoodFacts(s0, s, 0);
    SumZero(s.workers, Tokens);
    assert LowestFinished(s.workers) == MAX_WORKER_THREADS;
    hide Potential;
    s' := GoWell(s0, s, Dispatch);
    s' := GoWell(s0, s', Dispatch);
    s' := HandOver(s0, s');
    s' := EventIsSet(s0, s', 0);
    s' := ScanEnds(s0, s');
  }

  /** At the wait with URLs not yet counted: some worker's event can be set. */
  lemma SomeEvent(s0: State, s: State) returns (s': State)
    requires Good(s0, s) && s.at.Wait? && s.visited < s.urls
    ensures Good(s0, s') && s'.at.Wait? && s'.visited == s.visited && LowestFinished(s'.workers) < MAX_WORKER_THREADS
  {
    hide Good, Safe, Potential;
    GoodShape(s0, s);
    if k :| 0 <= k < |s.workers| && Tokens(s.workers[k]) > 0 {
      s' := EventIsSet(s0, s, k);
    } else {
      s' := NextUrl(s0, s);
    }
    GoodShape(s0, s');
  }

  /** One more visit is counted. */
  lemma OneCounted(s0: State, s: State) returns (s': State)
    requires Good(s0, s) && s.at.Wait? && s.visited < s.urls
    ensures Good(s0, s') && s'.visited == s.visited + 1
  {
    hide Good, Safe, Potential;
    s' := SomeEvent(s0, s);
    GoodShape(s0, s');
    s' := GoWell(s0, s', Dispatch);
    s' := BecomesIdle(s0, s');
    GoodShape(s0, s');
    s' := GoWell(s0, s', Dispatch);
  }

  /** With every URL counted no event is pending, and the next look at the loop's condition ends it. */
  lemma AllCounted(s0: State, s: State) returns (s': State)
    requires Good(s0, s) && s.at.Wait? && s.visited >= s.urls
    ensures Good(s0, s') && s'.at.Left?
  {
    hide Good, Safe;
    GoodShape(s0, s);
    if k :| 0 <= k < |s.workers| && s.workers[k].finished {
      SumAtLeast(s.workers, k, Tokens);
    }
    assert LowestFinished(s.workers) == MAX_WORKER_THREADS;
    hide Potential;
    s' := GoWell(s0, s, Dispatch);
  }

  /** Without a loss so far, the run can be continued until the dispatcher leaves its loop. */
  lemma {:induction false} CanLeave(s0: State, s: State) returns (s': State)
    requires Good(s0, s)
    ensures Good(s0, s') && s'.at.Left?
    decreases s.urls - s.visited
  {
    hide Good, Safe, Potential;
    s' := GetsToWait(s0, s);
    GoodUrls(s0, s);
    GoodUrls(s0, s');
    if s'.at.Wait? {
      if s'.visited < s'.urls {
        s' := OneCounted(s0, s');
        GoodUrls(s0, s');
        s' := CanLeave(s0, s');
      } else {
        s' := AllCounted(s0, s');
      }
    }
  }

  lemma GoodUrls(s0: State, s: State)
    requires Good(s0, s)
    ensures s.urls == s0.urls && s.visited <= s.urls
  {
  }

  /** The dispatcher can still leave its loop. */
  ghost predicate Leavable(s: State)
    requires Shape(s)
  {
    exists more :: Run(s, more) && After(s, more).at.Left?
  }

  /** At every point of every run, for groups of any size: the loop can still be left iff no signal has been lost. */
  lemma CanStillLeave(s0: State, steps: seq<Step>)
    requires Init(s0) && Run(s0, steps)
    ensures Leavable(After(s0, steps)) <==> Potential(After(s0, steps)) == s0.urls
  {
    InitSafe(s0);
    InitPotential(s0);
    RunKeepsSafe(s0, steps);
    RunKeepsCounting(s0, steps);
    RunPotential(s0, steps);
    var s := After(s0, steps);
    hide After, Run, Init, Safe, Potential;
    if Potential(s) == s0.urls {
      ReachesStays(s);
      var s' := CanLeave(s, s);
      var more :| Run(s, more) && After(s, more) == s';
    } else if Leavable(s) {
      var more :| Run(s, more) && After(s, more).at.Left?;
      NeverLeaves(s0, steps, more);
    }
  }

  lemma InitShape(s: State)
    requires Init(s)
    ensures Shape(s)
  {
  }

  /** No run gets stuck exactly for groups of at most sixty URLs. */
  lemma NeverStuckExactly(s0: State)
    requires Init(s0)
    ensures s0.urls <= MAX_WORKER_THREADS <==> forall steps :: Run(s0, steps) ==> Leavable(After(s0, steps))
  {
    hide Init, Potential, Leavable, Run, After, Shape;
    InitShape(s0);
    CountableExactly(s0);
    forall steps | Run(s0, steps)
      ensures Leavable(After(s0, steps)) <==> Potential(After(s0, steps)) == s0.urls
    {
      CanStillLeave(s0, steps);
    }
  }
}
