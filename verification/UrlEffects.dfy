/**
 What the scheduler's steps do, said of URLs, groups and counters one by one: states, codes, verdicts,
 counters, the groups put back, and the size of groups.
 */
module UrlEffects {
  import opened Basics
  import opened UrlJobs

  // ---------------------------------------------------------------- error codes

  /** Known codes are kept, all others become the one for invalid codes; only code 0 means no error. */
  lemma CodeMeaning(code: int)
    ensures code in ERROR_CODES ==> Code(code) == code
    ensures code !in ERROR_CODES ==> Code(code) == 0x10006000
    ensures Code(code) in ERROR_CODES && Code(Code(code)) == Code(code)
    ensures Code(code) == OK <==> code == 0
  {
  }

  // ---------------------------------------------------------------- the URLs of a group

  lemma TurnOneEffect(r: UrlRec, s: Stats, to: Stage)
    ensures Turn(r, s, to).0 == r.(stage := to)
  {
  }

  /** The state and code of every URL after setUrlGroupState. */
  lemma {:induction false} TurnAllEffect<U>(urls: seq<U>, recs: map<U, UrlRec>, s: Stats, to: Stage, code: int)
    requires forall u :: u in urls ==> u in recs
    ensures var recs' := TurnAll(urls, recs, s, to, code).0;
      forall u :: u in recs ==>
        recs'[u] == (
          if u !in urls || to == Idle then recs[u]
          else if to == Visiting then recs[u].(stage := Visiting)
          else if to == Visited then recs[u].(stage := if recs[u].code == OK then Visited else Error)
          else recs[u].(stage := Error, code := if recs[u].code == OK then Code(code) else recs[u].code))
  {
    hide Code, Turn;
    if urls != [] {
      var one := GroupTurn(recs[urls[0]], s, to, code);
      TurnOneEffect(recs[urls[0]], s, Visiting);
      TurnOneEffect(recs[urls[0]], s, Visited);
      TurnOneEffect(recs[urls[0]], s, Error);
      TurnOneEffect(recs[urls[0]].(code := Code(code)), s, Error);
      TurnAllEffect(urls[1..], recs[urls[0] := one.0], one.1, to, code);
      assert urls == [urls[0]] + urls[1..];
    }
  }

  /** The state and code of every URL after update has gone over a group that ended in an error. */
  lemma {:induction false} FailAllEffect<U>(urls: seq<U>, recs: map<U, UrlRec>, s: Stats, code: int)
    requires forall u :: u in urls ==> u in recs
    ensures var recs' := FailAll(urls, recs, s, code).0;
      forall u :: u in recs ==> recs'[u] == if u in urls then recs[u].(stage := Error, code := Code(code)) else recs[u]
  {
    hide Code;
    if urls != [] {
      var one := FailTurn(recs[urls[0]], s, code);
      FailAllEffect(urls[1..], recs[urls[0] := one.0], one.1, code);
      assert urls == [urls[0]] + urls[1..];
    }
  }

  /**
   The verdict of every URL after a visit has finished or failed. Only bulk reports can call one URL of
   several malicious; without them a malicious visit of several URLs says nothing of any.
   */
  lemma EndVerdict<U>(w: World<U>, step: Step<U>, u: U)
    requires WellFormed(w) && Enabled(w, step) && (step.Finish? || step.Fail?) && u in w.recs
    ensures u in Next(w, step).recs
    ensures var g := w.visiting[step.i];
      Next(w, step).recs[u].verdict ==
        if u !in g.urls then w.recs[u].verdict
        else if g.algorithm == Bulk then Known(if step.own.Some? then step.own.value[u] else step.malicious)
        else if !step.malicious then Known(false)
        else if |g.urls| == 1 then Known(true)
        else w.recs[u].verdict
  {
    hide TurnAll, FailAll, Code;
    var before := w.visiting[step.i];
    assert before in GroupsOf(w);
    var g := Ended(w, step);
    var judged := JudgeAll(g.urls, w.recs, g.algorithm, g.malicious, step.own);
    TurnAllEffect(g.urls, judged, w.stats, g.stage, g.code);
    if step.Fail? {
      var turned := TurnAll(g.urls, judged, w.stats, Error, g.code);
      FailAllEffect(g.urls, turned.0, turned.1, g.code);
    }
  }

  /** No other step says anything of a verdict. */
  lemma VerdictStays<U>(w: World<U>, step: Step<U>, u: U)
    requires WellFormed(w) && Enabled(w, step) && !step.Finish? && !step.Fail? && u in w.recs
    ensures u in Next(w, step).recs && Next(w, step).recs[u].verdict == w.recs[u].verdict
  {
    hide TurnAll, FailAll, Code;
    if step.Start? {
      var g := Begun(w.taken[step.i], step.algorithm);
      assert w.taken[step.i] in GroupsOf(w);
      TurnAllEffect(g.urls, w.recs, w.stats, Visiting, g.code);
    } else if step.Drop? {
      var g := Ended(w, step);
      assert w.taken[step.i] in GroupsOf(w);
      TurnAllEffect(g.urls, w.recs, w.stats, Error, g.code);
      var turned := TurnAll(g.urls, w.recs, w.stats, Error, g.code);
      FailAllEffect(g.urls, turned.0, turned.1, g.code);
    }
  }

  // ---------------------------------------------------------------- the groups put back

  /** A group's two halves, the second on top of the first, neither visited nor failed yet. */
  ghost predicate HalvesOnTop<U>(queue: seq<Group<U>>, urls: seq<U>, rest: seq<Group<U>>)
  {
    && |queue| == |rest| + 2 && queue[2..] == rest
    && queue[1].urls + queue[0].urls == urls
    && |queue[1].urls| == |urls| / 2
    && queue[0].errors == queue[1].errors == 0 && !queue[0].initial && !queue[1].initial
  }

  /**
   What the end of a visit, or of a group before its visit, puts on the queue: halves if a dac group of
   several URLs was malicious, else the group itself if this was its first error, else nothing.
   */
  lemma EndOutcome<U>(w: World<U>, step: Step<U>)
    requires WellFormed(w) && Enabled(w, step) && (step.Finish? || step.Fail? || step.Drop?)
    ensures var g, queue' := if step.Drop? then w.taken[step.i] else w.visiting[step.i], Next(w, step).queue;
      var malicious := if step.Drop? then g.malicious else step.malicious;
      if g.algorithm == Dac && malicious && |g.urls| > 1 then HalvesOnTop(queue', g.urls, w.queue)
      else if !step.Finish? && g.errors == 0 then
        |queue'| == |w.queue| + 1 && queue'[1..] == w.queue && queue'[0].urls == g.urls && queue'[0].errors == 1
      else queue' == w.queue
  {
    hide TurnAll, FailAll, JudgeAll, Code, WellFormed;
    EndGroups(w, step);
    hide Next;
    var g := Ended(w, step);
    if Splits(g) {
      HalvesSplit(g);
      var queue' := Next(w, step).queue;
      assert queue' == Halves(g) + w.queue;
      assert queue'[0] == NewGroup(SecondHalf(g.urls), false) && queue'[1] == NewGroup(FirstHalf(g.urls), false);
    }
  }

  // ---------------------------------------------------------------- the size of groups

  /** No group, whatever has become of it, has more than m URLs. */
  ghost predicate SizesAtMost<U>(w: World<U>, m: nat)
  {
    forall g :: g in GroupsOf(w) + w.visited ==> |g.urls| <= m
  }

  predicate TakesAtMost<U>(steps: seq<Step<U>>, m: nat)
  {
    forall i :: 0 <= i < |steps| && steps[i].TakeNew? ==> steps[i].groupSize <= m
  }

  lemma PushedSizes<U>(g: Group<U>, h: Group<U>)
    requires h in Requeued(g) || h in Retried(g)
    ensures |h.urls| <= |g.urls|
  {
  }

  lemma StepKeepsSizes<U>(w: World<U>, step: Step<U>, m: nat)
    requires WellFormed(w) && Enabled(w, step) && SizesAtMost(w, m) && m >= 1
    requires step.TakeNew? ==> step.groupSize <= m
    ensures SizesAtMost(Next(w, step), m)
  {
    hide Requeued, Retried, TurnAll, FailAll, JudgeAll, WellFormed, Code;
    var w' := Next(w, step);
    forall h | h in GroupsOf(w') + w'.visited
      ensures |h.urls| <= m
    {
      if h !in GroupsOf(w) + w.visited {
        NewGroupSize(w, step, h, m);
      }
    }
  }

  lemma NewGroupSize<U>(w: World<U>, step: Step<U>, h: Group<U>, m: nat)
    requires WellFormed(w) && Enabled(w, step) && SizesAtMost(w, m) && m >= 1
    requires step.TakeNew? ==> step.groupSize <= m
    requires h in GroupsOf(Next(w, step)) + Next(w, step).visited && h !in GroupsOf(w) + w.visited
    ensures |h.urls| <= m
  {
    hide Requeued, Retried, TurnAll, FailAll, JudgeAll, WellFormed, Code, Turn;
    match step
    case TakeNew(groupSize) =>
    case TakeOld =>
    case Start(i, _) =>
      assert w.taken[i] in GroupsOf(w);
    case Finish(i, malicious, _) =>
      assert w.visiting[i] in GroupsOf(w);
      if h in Requeued(FinishedGroup(w.visiting[i], malicious)) {
        PushedSizes(FinishedGroup(w.visiting[i], malicious), h);
      }
    case Fail(i, malicious, _, code) =>
      assert w.visiting[i] in GroupsOf(w);
      PushedSizes(FailedGroup(w.visiting[i], malicious, code), h);
    case Drop(i, code) =>
      assert w.taken[i] in GroupsOf(w);
      PushedSizes(FailedGroup(w.taken[i], w.taken[i].malicious, code), h);
    case UrlCode(_, _) =>
  }

  /** If the configured group size never exceeds m, no group ever in the server has more than m URLs, or more than one if m is 0. */
  lemma {:induction false} RunKeepsSizes<U>(w: World<U>, steps: seq<Step<U>>, m: nat)
    requires WellFormed(w) && Run(w, steps) && TakesAtMost(steps, m) && SizesAtMost(w, if m == 0 then 1 else m)
    ensures SizesAtMost(After(w, steps), if m == 0 then 1 else m)
    decreases steps
  {
    hide Next, Enabled, WellFormed, SizesAtMost;
    if steps != [] {
      StepKeepsWellFormed(w, steps[0]);
      StepKeepsSizes(w, steps[0], if m == 0 then 1 else m);
      assert forall i :: 0 <= i < |steps[1..]| ==> steps[1..][i] == steps[i + 1];
      RunKeepsSizes(Next(w, steps[0]), steps[1..], m);
    }
  }
}
