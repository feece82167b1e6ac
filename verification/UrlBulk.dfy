/**
 What a bulk run finds out: every URL of a finished visit gets the verdict that its own state changes
 call for, and is counted once as what it is. And what a visit's end makes of verdicts under each algorithm.
 */
module UrlBulk {
  import opened Basics
  import opened UrlJobs
  import opened UrlBounds
  import opened UrlEffects
  import opened UrlVerdicts

  predicate AllBulk<U>(w: World<U>)
  {
    forall g :: g in w.visiting ==> g.algorithm.Bulk?
  }

  /** What a client reports of each URL of the group agrees with `bad`: its own state changes if it sends them, else the flag. */
  ghost predicate Reported<U>(urls: seq<U>, malicious: bool, own: Option<map<U, bool>>, bad: set<U>)
  {
    forall u :: u in urls ==>
      if own.Some? then u in own.value && (own.value[u] <==> u in bad) else (malicious <==> u in bad)
  }

  /** An error-free step of a bulk run with true reports. */
  ghost predicate TruthfulBulk<U>(w: World<U>, step: Step<U>, bad: set<U>)
    requires Enabled(w, step)
  {
    match step
    case Start(_, algorithm) => algorithm.Bulk?
    case Finish(i, malicious, own) => Reported(w.visiting[i].urls, malicious, own, bad)
    case Fail(_, _, _, _) => false
    case Drop(_, _) => false
    case UrlCode(_, _) => false
    case _ => true
  }

  ghost predicate TruthfulBulkRun<U>(w: World<U>, steps: seq<Step<U>>, bad: set<U>)
    requires WellFormed(w) && Run(w, steps)
    decreases steps
  {
    if steps == [] then
      true
    else
      StepKeepsWellFormed(w, steps[0]);
      TruthfulBulk(w, steps[0], bad) && TruthfulBulkRun(Next(w, steps[0]), steps[1..], bad)
  }

  // ---------------------------------------------------------------- the effect of a finished visit

  lemma {:induction false} MixedCounts<U>(urls: seq<U>, recs: map<U, UrlRec>, s: Stats, code: int, bad: set<U>)
    requires Unique(multiset(urls))
    requires forall u :: u in urls ==> u in recs && recs[u] == UrlRec(Visiting, Known(u in bad), OK)
    ensures var k := CountBad(urls, bad);
      k <= |urls|
      && TurnAll(urls, recs, s, Visited, code).1
      == s.(visited := s.visited + |urls|, malicious := s.malicious + k, safe := s.safe + (|urls| - k))
  {
    if urls != [] {
      FirstIsNew(urls);
      var one := GroupTurn(recs[urls[0]], s, Visited, code);
      MixedCounts(urls[1..], recs[urls[0] := one.0], one.1, code, bad);
    }
  }

  lemma OneMore<U>(rest: set<U>, u: U, bad: set<U>)
    requires u !in rest
    ensures |({u} + rest) * bad| == |rest * bad| + (if u in bad then 1 else 0)
    ensures |({u} + rest) - bad| == |rest - bad| + (if u in bad then 0 else 1)
  {
    if u in bad {
      assert ({u} + rest) * bad == {u} + rest * bad;
      assert ({u} + rest) - bad == rest - bad;
    } else {
      assert ({u} + rest) * bad == rest * bad;
      assert ({u} + rest) - bad == {u} + (rest - bad);
    }
  }

  lemma {:induction false} BadOnes<U>(urls: seq<U>, bad: set<U>)
    requires Unique(multiset(urls))
    ensures var all := set u | u in urls;
      |all * bad| == CountBad(urls, bad) && |all - bad| + CountBad(urls, bad) == |urls|
  {
    var all := set u | u in urls;
    if urls == [] {
      assert all * bad == {} && all - bad == {};
    } else {
      var first, rest := urls[0], urls[1..];
      FirstIsNew(urls);
      BadOnes(rest, bad);
      assert urls == [first] + rest;
      var others := set u | u in rest;
      assert all == {first} + others;
      hide Unique;
      OneMore(others, first, bad);
    }
  }

  lemma BulkEffect<U>(w: World<U>, step: Step<U>, bad: set<U>)
    requires Deciding(w, bad) && AllBulk(w) && Enabled(w, step) && step.Finish? && TruthfulBulk(w, step, bad)
    ensures var w', urls := Next(w, step), w.visiting[step.i].urls; var k := CountBad(urls, bad);
      && k <= |urls|
      && w'.stats == w.stats.(visited := w.stats.visited + |urls|, malicious := w.stats.malicious + k, safe := w.stats.safe + (|urls| - k))
      && (forall u :: u in w.recs ==> u in w'.recs && w'.recs[u] == if u in urls then UrlRec(Visited, Known(u in bad), OK) else w.recs[u])
  {
    hide TurnAll, CountsTrue, Requeued, Pending, Bag;
    var g := w.visiting[step.i];
    var urls := g.urls;
    assert g in w.visiting && g in GroupsOf(w);
    var judged := JudgeAll(urls, w.recs, g.algorithm, step.malicious, step.own);
    VisitingPending(w, step.i);
    UniqueLess(Pending(w), multiset(urls));
    forall u | u in urls
      ensures u in judged && judged[u] == UrlRec(Visiting, Known(u in bad), OK)
    {
      assert u in multiset(urls) && u in Pending(w);
      assert RecTrue<U>(w.recs[u], u in Pending(w), u in bad);
    }
    TurnAllEffect(urls, judged, w.stats, Visited, g.code);
    MixedCounts(urls, judged, w.stats, g.code, bad);
  }

  /** A finished bulk visit settles its whole group. */
  lemma BulkSettles<U>(w: World<U>, step: Step<U>, bad: set<U>)
    requires WellFormed(w) && AllBulk(w) && Enabled(w, step) && step.Finish?
    ensures Settled(w, step) == multiset(w.visiting[step.i].urls)
  {
    assert w.visiting[step.i] in w.visiting;
  }

  lemma BulkVerdicts<U>(w: World<U>, step: Step<U>, bad: set<U>)
    requires Deciding(w, bad) && AllBulk(w) && Enabled(w, step) && step.Finish? && TruthfulBulk(w, step, bad)
    ensures VerdictsTrue(Next(w, step), bad)
  {
    hide Next, CountsTrue, Pending, Settled, TruthfulBulk, BeingVisited, AllBulk;
    var w', urls := Next(w, step), w.visiting[step.i].urls;
    BulkEffect(w, step, bad);
    BulkSettles(w, step, bad);
    StepConserves(w, step);
    StepKeepsWellFormed(w, step);
    VisitingPending(w, step.i);
    forall u | u in w'.recs
      ensures RecTrue<U>(w'.recs[u], u in Pending(w'), u in bad)
    {
      assert RecTrue<U>(w.recs[u], u in Pending(w), u in bad);
      assert u in urls <==> u in multiset(urls);
      assert Pending(w')[u] + Settled(w, step)[u] == Pending(w)[u];
      assert u in urls ==> Pending(w)[u] == 1;
    }
  }

  lemma CountBoth<U>(done: set<U>, settled: set<U>, bad: set<U>)
    requires done !! settled
    ensures |(done + settled) - bad| == |done - bad| + |settled - bad|
    ensures |(done + settled) * bad| == |done * bad| + |settled * bad|
  {
    assert (done + settled) - bad == (done - bad) + (settled - bad);
    assert (done + settled) * bad == done * bad + settled * bad;
  }

  lemma BulkCounts<U>(w: World<U>, step: Step<U>, bad: set<U>)
    requires Deciding(w, bad) && AllBulk(w) && Enabled(w, step) && step.Finish? && TruthfulBulk(w, step, bad)
    ensures CountsTrue(Next(w, step), bad)
  {
    hide Next, Pending, TruthfulBulk, BeingVisited, AllBulk, WellFormed, VerdictsTrue, Done, Unique, Settled;
    var urls := w.visiting[step.i].urls;
    BulkEffect(w, step, bad);
    BulkSettles(w, step, bad);
    DoneAfter(w, step);
    VisitingPending(w, step.i);
    UniqueLess(Pending(w), multiset(urls));
    BadOnes(urls, bad);
    var settled := set u | u in Settled(w, step);
    assert settled == set u | u in urls;
    CountBoth(Done(w), settled, bad);
  }

  lemma BulkKeepsVisiting<U>(w: World<U>, step: Step<U>, bad: set<U>)
    requires Deciding(w, bad) && AllBulk(w) && Enabled(w, step) && step.Finish? && TruthfulBulk(w, step, bad)
    ensures BeingVisited(Next(w, step))
  {
    var w', i := Next(w, step), step.i;
    hide Next, Pending, Settled, TruthfulBulk, AllBulk, VerdictsTrue, CountsTrue, Unique;
    BulkEffect(w, step, bad);
    EndGroups(w, step);
    StepKeepsWellFormed(w, step);
    forall g, u | g in w'.visiting && u in g.urls && u in w'.recs
      ensures w'.recs[u].stage == Visiting
    {
      VisitingApart(w, i, g, u);
      InWithout(w.visiting, i, g);
    }
  }

  // ---------------------------------------------------------------- runs

  lemma StepKeepsBulk<U>(w: World<U>, step: Step<U>, bad: set<U>)
    requires WellFormed(w) && Enabled(w, step) && AllBulk(w) && TruthfulBulk(w, step, bad)
    ensures AllBulk(Next(w, step))
  {
    hide TurnAll, JudgeAll, Requeued, Reported;
  }

  /** Every truthful bulk step keeps the invariant of the search. */
  lemma StepKeepsDeciding<U>(w: World<U>, step: Step<U>, bad: set<U>)
    requires Deciding(w, bad) && AllBulk(w) && Enabled(w, step) && TruthfulBulk(w, step, bad)
    ensures Deciding(Next(w, step), bad) && AllBulk(Next(w, step))
  {
    StepKeepsWellFormed(w, step);
    StepKeepsBulk(w, step, bad);
    DoneAfter(w, step);
    hide Next, WellFormed, AllBulk, Unique, VerdictsTrue, CountsTrue, BeingVisited, Pending;
    if step.Finish? {
      BulkVerdicts(w, step, bad);
      BulkCounts(w, step, bad);
      BulkKeepsVisiting(w, step, bad);
    } else if step.Start? {
      StartKeepsDeciding(w, step, bad);
    } else {
      TakeKeepsDeciding(w, step, bad);
    }
  }

  lemma {:induction false} RunKeepsDeciding<U>(w: World<U>, steps: seq<Step<U>>, bad: set<U>)
    requires WellFormed(w) && Deciding(w, bad) && AllBulk(w) && Run(w, steps) && TruthfulBulkRun(w, steps, bad)
    ensures Deciding(After(w, steps), bad)
    decreases steps
  {
    hide Deciding, AllBulk, WellFormed, Next, TruthfulBulk, Enabled;
    if steps != [] {
      StepKeepsWellFormed(w, steps[0]);
      StepKeepsDeciding(w, steps[0], bad);
      RunKeepsDeciding(Next(w, steps[0]), steps[1..], bad);
    }
  }

  /**
   At every point of an error-free bulk run of the whole server what has been decided is right and
   counted once; when nothing is waiting or in a group any more, everything has been decided.
   */
  lemma BulkVerdictsAreTrue<U>(w: World<U>, steps: seq<Step<U>>, bad: set<U>)
    requires Fresh(w) && WellFormed(w) && Run(w, steps) && TruthfulBulkRun(w, steps, bad)
    ensures var w' := After(w, steps);
      && w'.stats.safe == |Done(w') - bad| && w'.stats.malicious == |Done(w') * bad| && w'.stats.urlError == 0
      && (forall u :: u in Done(w') ==> w'.recs[u].verdict == Known(u in bad) && w'.recs[u].stage == Visited)
      && (forall u :: u in w'.recs && u !in Done(w') ==> w'.recs[u].verdict == Unknown)
    ensures var w' := After(w, steps);
      w'.waiting == [] && GroupsOf(w') == [] ==>
        && (forall u :: u in w.recs ==> u in w'.recs && w'.recs[u].verdict == Known(u in bad))
        && w'.stats.safe == |w.recs.Keys - bad| && w'.stats.malicious == |w.recs.Keys * bad|
  {
    hide Fresh, WellFormed, TruthfulBulkRun, Run, After, Done, Unique, BeingVisited, VerdictsTrue;
    var w' := After(w, steps);
    FreshDeciding(w, bad);
    RunKeepsDeciding(w, steps, bad);
    RunKeepsKeys(w, steps);
    DecidingIsRight(w', bad);
    if w'.waiting == [] && GroupsOf(w') == [] {
      NothingPending(w');
    }
  }
}
