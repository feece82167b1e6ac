/**
 The counters of Stats over any run, errors and retries included: how often URLs have begun to be
 visited and how often they have been reported visited.
 */
module UrlCounters {
  import opened Basics
  import opened UrlJobs
  import opened UrlEffects
  import opened UrlVerdicts

  function One(b: bool): nat
  {
    if b then 1 else 0
  }

  /** A count over the URLs of a group. */
  function Total<U>(urls: seq<U>, recs: map<U, UrlRec>, f: UrlRec -> nat): nat
    requires forall u :: u in urls ==> u in recs
  {
    if urls == [] then 0 else f(recs[urls[0]]) + Total(urls[1..], recs, f)
  }

  lemma {:induction false} TotalElsewhere<U>(urls: seq<U>, recs: map<U, UrlRec>, u: U, r: UrlRec, f: UrlRec -> nat)
    requires (forall v :: v in urls ==> v in recs) && u !in urls
    ensures Total(urls, recs[u := r], f) == Total(urls, recs, f)
  {
    if urls != [] {
      TotalElsewhere(urls[1..], recs, u, r, f);
    }
  }

  lemma {:induction false} TotalAll<U>(urls: seq<U>, recs: map<U, UrlRec>, f: UrlRec -> nat)
    requires forall u :: u in urls ==> u in recs && f(recs[u]) == 1
    ensures Total(urls, recs, f) == |urls|
  {
    if urls != [] {
      TotalAll(urls[1..], recs, f);
    }
  }

  function Begins(r: UrlRec): nat
  {
    One(r.stage != Visiting)
  }

  /** The counter of visits begun: it goes up by one for each URL of the group that was not being visited. */
  lemma {:induction false} BeginCounts<U>(urls: seq<U>, recs: map<U, UrlRec>, s: Stats, code: int)
    requires Unique(multiset(urls)) && forall u :: u in urls ==> u in recs
    ensures TurnAll(urls, recs, s, Visiting, code).1 == s.(visiting := s.visiting + Total(urls, recs, Begins))
  {
    if urls != [] {
      FirstIsNew(urls);
      var one := GroupTurn(recs[urls[0]], s, Visiting, code);
      BeginCounts(urls[1..], recs[urls[0] := one.0], one.1, code);
      TotalElsewhere(urls[1..], recs, urls[0], one.0, Begins);
    }
  }

  function Passes(r: UrlRec): nat
  {
    One(r.code == OK && r.stage != Visited)
  }

  function Breaks(r: UrlRec): nat
  {
    One(r.code != OK && r.stage != Error && r.verdict != Unknown)
  }

  /**
   The end of a visit: the URLs without an error count as visited, those with one as errors, if
   anything is known of them.
   */
  lemma {:induction false} FinishCounts<U>(urls: seq<U>, recs: map<U, UrlRec>, s: Stats, code: int)
    requires Unique(multiset(urls)) && forall u :: u in urls ==> u in recs
    ensures var s' := TurnAll(urls, recs, s, Visited, code).1;
      && s'.visiting == s.visiting
      && s'.visited == s.visited + Total(urls, recs, Passes)
      && s'.urlError == s.urlError + Total(urls, recs, Breaks)
  {
    if urls != [] {
      FirstIsNew(urls);
      var one := GroupTurn(recs[urls[0]], s, Visited, code);
      FinishCounts(urls[1..], recs[urls[0] := one.0], one.1, code);
      TotalElsewhere(urls[1..], recs, urls[0], one.0, Passes);
      TotalElsewhere(urls[1..], recs, urls[0], one.0, Breaks);
    }
  }

  function Errs(r: UrlRec): nat
  {
    One(r.stage != Error && r.verdict != Unknown)
  }

  function ErrsMalicious(r: UrlRec): nat
  {
    One(r.stage != Error && r.verdict == Known(true))
  }

  /**
   A group's error: the URLs not in error yet count as errors if anything is known of them, and as
   malicious if that is what they are; what update does after that changes no counter.
   */
  lemma {:induction false} ErrorCounts<U>(urls: seq<U>, recs: map<U, UrlRec>, s: Stats, code: int)
    requires Unique(multiset(urls)) && forall u :: u in urls ==> u in recs
    ensures TurnAll(urls, recs, s, Error, code).1
         == s.(urlError := s.urlError + Total(urls, recs, Errs), malicious := s.malicious + Total(urls, recs, ErrsMalicious))
  {
    hide Code;
    if urls != [] {
      FirstIsNew(urls);
      var one := GroupTurn(recs[urls[0]], s, Error, code);
      ErrorCounts(urls[1..], recs[urls[0] := one.0], one.1, code);
      TotalElsewhere(urls[1..], recs, urls[0], one.0, Errs);
      TotalElsewhere(urls[1..], recs, urls[0], one.0, ErrsMalicious);
    }
  }

  lemma {:induction false} UpdateCountsNothing<U>(urls: seq<U>, recs: map<U, UrlRec>, s: Stats, code: int)
    requires forall u :: u in urls ==> u in recs && recs[u].stage == Error
    ensures FailAll(urls, recs, s, code).1 == s
  {
    hide Code;
    if urls != [] {
      var one := FailTurn(recs[urls[0]], s, code);
      UpdateCountsNothing(urls[1..], recs[urls[0] := one.0], one.1, code);
    }
  }

  // ---------------------------------------------------------------- runs

  /** The URLs in state VISITING are exactly those of the groups being visited. */
  ghost predicate InStep<U>(w: World<U>)
  {
    && BeingVisited(w)
    && (forall u :: u in w.recs && w.recs[u].stage == Visiting ==> u in Bag(w.visiting))
  }

  function Unbroken(r: UrlRec): nat
  {
    One(r.code == OK)
  }

  /** How many URLs a step begins to visit, and how many without an error a finished visit has. */
  function UrlsBegun<U>(w: World<U>, step: Step<U>): nat
    requires Enabled(w, step)
  {
    if step.Start? then |w.taken[step.i].urls| else 0
  }

  function UrlsPassed<U>(w: World<U>, step: Step<U>): nat
    requires WellFormed(w) && Enabled(w, step)
  {
    if step.Finish? then
      assert w.visiting[step.i] in GroupsOf(w);
      Total(w.visiting[step.i].urls, w.recs, Unbroken)
    else 0
  }

  /** After the end of a group's visit, or its loss, its URLs are not being visited; no other URL's state changes. */
  lemma EndStages<U>(w: World<U>, step: Step<U>)
    requires WellFormed(w) && Enabled(w, step) && Ends(step)
    ensures var w', urls := Next(w, step), Leaving(w, step).urls;
      forall u :: u in w.recs ==> u in w'.recs && if u in urls then w'.recs[u].stage != Visiting else w'.recs[u].stage == w.recs[u].stage
  {
    hide TurnAll, FailAll, Code, Requeued, Retried;
    var g := Ended(w, step);
    assert Leaving(w, step) in GroupsOf(w);
    var recs := if step.Drop? then w.recs else JudgeAll(g.urls, w.recs, g.algorithm, g.malicious, step.own);
    TurnAllEffect(g.urls, recs, w.stats, g.stage, g.code);
    if !step.Finish? {
      var turned := TurnAll(g.urls, recs, w.stats, Error, g.code);
      FailAllEffect(g.urls, turned.0, turned.1, g.code);
    }
  }

  lemma ApartInBags<U>(w: World<U>, u: U, i: nat)
    requires Unique(Pending(w)) && i < |w.taken| && u in w.taken[i].urls
    ensures u !in Bag(w.visiting)
  {
    hide Bag;
    GroupInBag(w.taken, i);
    assert multiset(w.taken[i].urls)[u] >= 1 && Bag(w.taken)[u] >= 1;
    assert u in Pending(w);
  }

  lemma VisitingInBag<U>(w: World<U>, g: Group<U>, u: U)
    requires g in w.visiting && u in g.urls
    ensures u in Bag(w.visiting)
  {
    hide Bag;
    var i :| 0 <= i < |w.visiting| && w.visiting[i] == g;
    GroupInBag(w.visiting, i);
    assert u in multiset(g.urls);
  }

  lemma StartInStep<U>(w: World<U>, step: Step<U>)
    requires WellFormed(w) && Enabled(w, step) && Unique(Pending(w)) && InStep(w) && step.Start?
    ensures InStep(Next(w, step))
    ensures Next(w, step).stats == w.stats.(visiting := w.stats.visiting + UrlsBegun(w, step))
  {
    hide TurnAll, Bag, Pending, Unique;
    var g := w.taken[step.i];
    var g' := Begun(g, step.algorithm);
    assert g in GroupsOf(w);
    TurnAllEffect(g.urls, w.recs, w.stats, Visiting, g.code);
    TakenPending(w, step.i);
    UniqueLess(Pending(w), multiset(g.urls));
    BeginCounts(g.urls, w.recs, w.stats, g.code);
    forall u | u in g.urls
      ensures u in w.recs && Begins(w.recs[u]) == 1
    {
      ApartInBags(w, u, step.i);
    }
    TotalAll(g.urls, w.recs, Begins);
    BagAppend(w.visiting, [g']);
    BagOf(g');
  }

  /** One visit, or one group before its visit, less: the rest are still in step. */
  lemma EndInStep<U>(w: World<U>, step: Step<U>)
    requires WellFormed(w) && Enabled(w, step) && Unique(Pending(w)) && InStep(w) && Ends(step)
    ensures InStep(Next(w, step))
  {
    hide Next, Bag, Pending, Unique, Ended, Pushed;
    var w', urls := Next(w, step), Leaving(w, step).urls;
    EndGroups(w, step);
    EndStages(w, step);
    StepKeepsWellFormed(w, step);
    forall g, u | g in w'.visiting && u in g.urls && u in w'.recs
      ensures w'.recs[u].stage == Visiting
    {
      if step.Drop? {
        VisitingInBag(w, g, u);
        if u in urls {
          ApartInBags(w, u, step.i);
        }
      } else {
        VisitingApart(w, step.i, g, u);
        InWithout(w.visiting, step.i, g);
      }
    }
    if !step.Drop? {
      BagWithout(w.visiting, step.i);
    }
    forall u | u in w'.recs && w'.recs[u].stage == Visiting
      ensures u in Bag(w'.visiting)
    {
      assert u !in urls && u in Bag(w.visiting);
      assert u in urls <==> u in multiset(urls);
    }
  }

  lemma {:induction false} TotalSame<U>(urls: seq<U>, recs: map<U, UrlRec>, recs': map<U, UrlRec>, f: UrlRec -> nat, f': UrlRec -> nat)
    requires forall u :: u in urls ==> u in recs && u in recs' && f(recs[u]) == f'(recs'[u])
    ensures Total(urls, recs, f) == Total(urls, recs', f')
  {
    if urls != [] {
      TotalSame(urls[1..], recs, recs', f, f');
    }
  }

  lemma FinishInStep<U>(w: World<U>, step: Step<U>)
    requires WellFormed(w) && Enabled(w, step) && Unique(Pending(w)) && InStep(w) && step.Finish?
    ensures Next(w, step).stats.visiting == w.stats.visiting
    ensures Next(w, step).stats.visited == w.stats.visited + UrlsPassed(w, step)
  {
    hide TurnAll, Bag, Pending, Unique, Requeued;
    var g := w.visiting[step.i];
    assert g in GroupsOf(w) && g in w.visiting;
    var judged := JudgeAll(g.urls, w.recs, g.algorithm, step.malicious, step.own);
    VisitingPending(w, step.i);
    UniqueLess(Pending(w), multiset(g.urls));
    FinishCounts(g.urls, judged, w.stats, g.code);
    TotalSame(g.urls, judged, w.recs, Passes, Unbroken);
  }

  lemma ErrorInStep<U>(w: World<U>, step: Step<U>)
    requires WellFormed(w) && Enabled(w, step) && Unique(Pending(w)) && InStep(w) && (step.Fail? || step.Drop?)
    ensures Next(w, step).stats.visiting == w.stats.visiting && Next(w, step).stats.visited == w.stats.visited
  {
    hide TurnAll, FailAll, Bag, Pending, Unique, Retried, Code;
    var g := Ended(w, step);
    assert Leaving(w, step) in GroupsOf(w);
    var recs := if step.Drop? then w.recs else JudgeAll(g.urls, w.recs, g.algorithm, g.malicious, step.own);
    if step.Drop? {
      TakenPending(w, step.i);
    } else {
      VisitingPending(w, step.i);
    }
    UniqueLess(Pending(w), multiset(g.urls));
    ErrorCounts(g.urls, recs, w.stats, g.code);
    TurnAllEffect(g.urls, recs, w.stats, Error, g.code);
    var turned := TurnAll(g.urls, recs, w.stats, Error, g.code);
    UpdateCountsNothing(g.urls, turned.0, turned.1, g.code);
  }

  lemma StepCounts<U>(w: World<U>, step: Step<U>)
    requires WellFormed(w) && Enabled(w, step) && Unique(Pending(w)) && InStep(w)
    ensures InStep(Next(w, step)) && Unique(Pending(Next(w, step)))
    ensures Next(w, step).stats.visiting == w.stats.visiting + UrlsBegun(w, step)
    ensures Next(w, step).stats.visited == w.stats.visited + UrlsPassed(w, step)
  {
    hide Pending, Settled, Unique, InStep, Next, UrlsPassed, Enabled, WellFormed;
    StepConserves(w, step);
    UniqueLess(Pending(w), Pending(Next(w, step)));
    if step.Finish? {
      EndInStep(w, step);
      FinishInStep(w, step);
    } else {
      NothingPassed(w, step);
      if step.Start? {
        StartInStep(w, step);
      } else if Ends(step) {
        EndInStep(w, step);
        ErrorInStep(w, step);
      } else {
        OtherInStep(w, step);
      }
    }
  }

  lemma OtherInStep<U>(w: World<U>, step: Step<U>)
    requires WellFormed(w) && Enabled(w, step) && InStep(w) && !step.Start? && !Ends(step)
    ensures InStep(Next(w, step)) && Next(w, step).stats == w.stats
  {
    hide Code, Bag, WellFormed;
  }

  lemma NothingPassed<U>(w: World<U>, step: Step<U>)
    requires WellFormed(w) && Enabled(w, step) && !step.Finish?
    ensures UrlsPassed(w, step) == 0
  {
  }

  /** The URL visits begun in a run, and the URLs without an error in the visits finished. */
  function AllBegun<U>(w: World<U>, steps: seq<Step<U>>): nat
    requires WellFormed(w) && Run(w, steps)
    decreases steps
  {
    if steps == [] then
      0
    else
      StepKeepsWellFormed(w, steps[0]);
      UrlsBegun(w, steps[0]) + AllBegun(Next(w, steps[0]), steps[1..])
  }

  function AllPassed<U>(w: World<U>, steps: seq<Step<U>>): nat
    requires WellFormed(w) && Run(w, steps)
    decreases steps
  {
    if steps == [] then
      0
    else
      StepKeepsWellFormed(w, steps[0]);
      UrlsPassed(w, steps[0]) + AllPassed(Next(w, steps[0]), steps[1..])
  }

  lemma {:induction false} RunKeepsCounts<U>(w: World<U>, steps: seq<Step<U>>)
    requires WellFormed(w) && Unique(Pending(w)) && InStep(w) && Run(w, steps)
    ensures After(w, steps).stats.visiting == w.stats.visiting + AllBegun(w, steps)
    ensures After(w, steps).stats.visited == w.stats.visited + AllPassed(w, steps)
    decreases steps
  {
    hide Pending, Unique, InStep, Next, Enabled, WellFormed, UrlsBegun, UrlsPassed;
    if steps != [] {
      StepKeepsWellFormed(w, steps[0]);
      StepCounts(w, steps[0]);
      RunKeepsCounts(Next(w, steps[0]), steps[1..]);
    }
  }

  /**
   In any run of the whole server, errors, retries and splits included, `visiting` counts the URL
   visits begun, and `visited` the URLs without an error in the visits that finished.
   */
  lemma CountersAreRight<U>(w: World<U>, steps: seq<Step<U>>)
    requires Fresh(w) && WellFormed(w) && Run(w, steps)
    ensures After(w, steps).stats.visiting == w.stats.visiting + AllBegun(w, steps)
    ensures After(w, steps).stats.visited == w.stats.visited + AllPassed(w, steps)
  {
    FreshDeciding(w, {});
    hide Run, After, AllBegun, AllPassed;
    RunKeepsCounts(w, steps);
  }
}
