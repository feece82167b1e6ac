/**
 What the divide-and-conquer search finds out: in an error-free dac run every URL ends with its true
 verdict and is counted exactly once, although a malicious group of several URLs says nothing about
 any one of them.
 */
module UrlVerdicts {
  import opened Basics
  import opened UrlJobs
  import opened UrlBounds
  import opened UrlEffects

  /** The URLs the server is done with. */
  function Done<U>(w: World<U>): set<U>
  {
    set u | u in w.recs && u !in Pending(w)
  }

  ghost predicate Unique<U>(m: multiset<U>)
  {
    forall u :: u in m ==> m[u] == 1
  }

  /** A URL still pending is undecided; one done with has its true verdict. */
  ghost predicate RecTrue<U>(r: UrlRec, pending: bool, malicious: bool)
  {
    && r.code == OK
    && (if pending then r.verdict == Unknown else r.verdict == Known(malicious) && r.stage == Visited)
  }

  ghost predicate VerdictsTrue<U>(w: World<U>, bad: set<U>)
  {
    forall u :: u in w.recs ==> RecTrue<U>(w.recs[u], u in Pending(w), u in bad)
  }

  /** Every URL done with is counted once, as what it is. */
  ghost predicate CountsTrue<U>(w: World<U>, bad: set<U>)
  {
    w.stats.safe == |Done(w) - bad| && w.stats.malicious == |Done(w) * bad| && w.stats.urlError == 0
  }

  ghost predicate BeingVisited<U>(w: World<U>)
  {
    forall g, u :: g in w.visiting && u in g.urls && u in w.recs ==> w.recs[u].stage == Visiting
  }

  ghost predicate Deciding<U>(w: World<U>, bad: set<U>)
  {
    && WellFormed(w)
    && Unique(Pending(w))
    && VerdictsTrue(w, bad)
    && CountsTrue(w, bad)
    && BeingVisited(w)
  }

  ghost predicate Searching<U>(w: World<U>, bad: set<U>)
  {
    Deciding(w, bad) && AllDac(w)
  }

  // ---------------------------------------------------------------- the effect on URLs and counters

  function Counted(s: Stats, v: Verdict, n: nat): Stats
  {
    match v
    case Unknown => s.(visited := s.visited + n)
    case Known(false) => s.(visited := s.visited + n, safe := s.safe + n)
    case Known(true) => s.(visited := s.visited + n, malicious := s.malicious + n)
  }

  lemma {:induction false} StartCounts<U>(urls: seq<U>, recs: map<U, UrlRec>, s: Stats, code: int)
    requires forall u :: u in urls ==> u in recs
    ensures var s' := TurnAll(urls, recs, s, Visiting, code).1;
      s'.safe == s.safe && s'.malicious == s.malicious && s'.urlError == s.urlError
  {
    if urls != [] {
      var one := GroupTurn(recs[urls[0]], s, Visiting, code);
      StartCounts(urls[1..], recs[urls[0] := one.0], one.1, code);
    }
  }

  lemma FirstIsNew<U>(urls: seq<U>)
    requires urls != [] && Unique(multiset(urls))
    ensures urls[0] !in urls[1..] && Unique(multiset(urls[1..]))
  {
    var rest := urls[1..];
    assert urls == [urls[0]] + rest;
    assert multiset(urls) == multiset{urls[0]} + multiset(rest);
    assert multiset(urls)[urls[0]] == 1;
    assert multiset(rest)[urls[0]] == 0;
    forall u | u in multiset(rest)
      ensures multiset(rest)[u] == 1
    {
      assert u in multiset(urls);
    }
  }

  lemma {:induction false} VisitedCounts<U>(urls: seq<U>, recs: map<U, UrlRec>, s: Stats, code: int, v: Verdict)
    requires Unique(multiset(urls))
    requires forall u :: u in urls ==> u in recs && recs[u] == UrlRec(Visiting, v, OK)
    ensures TurnAll(urls, recs, s, Visited, code).1 == Counted(s, v, |urls|)
  {
    if urls != [] {
      FirstIsNew(urls);
      var one := GroupTurn(recs[urls[0]], s, Visited, code);
      VisitedCounts(urls[1..], recs[urls[0] := one.0], one.1, code, v);
    }
  }

  lemma {:induction false} DistinctCount<U>(urls: seq<U>)
    requires Unique(multiset(urls))
    ensures |set u | u in urls| == |urls|
  {
    if urls == [] {
      assert (set u | u in urls) == {};
    } else {
      FirstIsNew(urls);
      DistinctCount(urls[1..]);
      assert urls == [urls[0]] + urls[1..];
      assert (set u | u in urls) == {urls[0]} + set u | u in urls[1..];
    }
  }

  // ---------------------------------------------------------------- pending URLs and the groups they are in

  lemma {:induction false} GroupInBag<U>(gs: seq<Group<U>>, i: nat)
    requires i < |gs|
    ensures multiset(gs[i].urls) <= Bag(gs)
  {
    BagWithout(gs, i);
  }

  lemma {:induction false} BagMember<U>(gs: seq<Group<U>>, u: U)
    requires u in Bag(gs)
    ensures exists g :: g in gs && u in g.urls
  {
    if u in gs[0].urls {
      assert gs[0] in gs;
    } else {
      BagMember(gs[1..], u);
      var g :| g in gs[1..] && u in g.urls;
      assert g in gs;
    }
  }

  lemma PendingKnown<U>(w: World<U>, u: U)
    requires WellFormed(w) && u in Pending(w)
    ensures u in w.recs
  {
    if u !in w.waiting {
      BagAppend(w.queue, w.taken);
      BagAppend(w.queue + w.taken, w.visiting);
      BagMember(GroupsOf(w), u);
    }
  }

  lemma VisitingPending<U>(w: World<U>, i: nat)
    requires i < |w.visiting|
    ensures multiset(w.visiting[i].urls) <= Pending(w)
  {
    hide Bag;
    GroupInBag(w.visiting, i);
  }

  /** A URL of one group being visited is in no other. */
  lemma VisitingApart<U>(w: World<U>, i: nat, g: Group<U>, u: U)
    requires i < |w.visiting| && Unique(Pending(w)) && g in Without(w.visiting, i) && u in g.urls
    ensures u !in w.visiting[i].urls
  {
    hide Bag;
    var others := Without(w.visiting, i);
    var j :| 0 <= j < |others| && others[j] == g;
    GroupInBag(others, j);
    BagWithout(w.visiting, i);
    assert multiset(g.urls) <= Bag(others);
    assert multiset(g.urls)[u] >= 1;
    var all := Bag(w.visiting);
    assert all == Bag(others) + multiset(w.visiting[i].urls);
    assert all <= Pending(w);
    assert u in Pending(w) && Pending(w)[u] == 1;
    assert multiset(w.visiting[i].urls)[u] == 0;
  }

  lemma UniqueLess<U>(m: multiset<U>, n: multiset<U>)
    requires Unique(m) && n <= m
    ensures Unique(n)
  {
    forall u | u in n
      ensures n[u] == 1
    {
      assert u in m && n[u] <= m[u];
    }
  }

  // ---------------------------------------------------------------- what a visit's end does

  /** The verdict a dac visit gives every URL of its group. */
  function Finding<U>(urls: seq<U>, malicious: bool): Verdict
  {
    if !malicious then Known(false) else if |urls| == 1 then Known(true) else Unknown
  }

  lemma FinishEffect<U>(w: World<U>, step: Step<U>, bad: set<U>)
    requires Searching(w, bad) && Enabled(w, step) && step.Finish? && Truthful(w, step, bad)
    ensures var w', urls := Next(w, step), w.visiting[step.i].urls; var v := Finding(urls, step.malicious);
      && w'.stats == Counted(w.stats, v, |urls|)
      && (forall u :: u in w.recs ==> u in w'.recs && w'.recs[u] == if u in urls then UrlRec(Visited, v, OK) else w.recs[u])
  {
    hide TurnAll, CountsTrue, Counted, Requeued, Pending, Bag, Truthful;
    var g, malicious := w.visiting[step.i], step.malicious;
    var urls := g.urls;
    var v := Finding(urls, malicious);
    assert g in w.visiting && g in GroupsOf(w);
    var judged := JudgeAll(urls, w.recs, g.algorithm, malicious, step.own);
    VisitingPending(w, step.i);
    UniqueLess(Pending(w), multiset(urls));
    forall u | u in urls
      ensures u in judged && judged[u] == UrlRec(Visiting, v, OK)
    {
      assert u in multiset(urls) && u in Pending(w);
      assert RecTrue<U>(w.recs[u], u in Pending(w), u in bad);
    }
    TurnAllEffect(urls, judged, w.stats, Visited, g.code);
    VisitedCounts(urls, judged, w.stats, g.code, v);
  }

  lemma WhatFinishSettles<U>(w: World<U>, step: Step<U>, bad: set<U>)
    requires Searching(w, bad) && Enabled(w, step) && step.Finish? && Truthful(w, step, bad)
    ensures var urls := w.visiting[step.i].urls; var v := Finding(urls, step.malicious);
      && Settled(w, step) == (if v == Unknown then multiset{} else multiset(urls))
      && (v != Unknown ==> forall u :: u in urls ==> v == Known(u in bad))
  {
    hide Unique, VerdictsTrue, CountsTrue, BeingVisited;
    var g := w.visiting[step.i];
    assert g in w.visiting && g in GroupsOf(w);
    assert |g.urls| == 1 ==> g.urls == [g.urls[0]];
  }

  lemma FinishVerdicts<U>(w: World<U>, step: Step<U>, bad: set<U>)
    requires Searching(w, bad) && Enabled(w, step) && step.Finish? && Truthful(w, step, bad)
    ensures VerdictsTrue(Next(w, step), bad)
  {
    hide Next, CountsTrue, Counted, Pending, Settled, Truthful, BeingVisited, AllDac, Finding;
    var w', urls := Next(w, step), w.visiting[step.i].urls;
    var v := Finding(urls, step.malicious);
    FinishEffect(w, step, bad);
    WhatFinishSettles(w, step, bad);
    StepConserves(w, step);
    StepKeepsWellFormed(w, step);
    VisitingPending(w, step.i);
    forall u | u in w'.recs
      ensures RecTrue<U>(w'.recs[u], u in Pending(w'), u in bad)
    {
      assert RecTrue<U>(w.recs[u], u in Pending(w), u in bad);
      assert u in urls <==> u in multiset(urls);
      assert Pending(w')[u] + Settled(w, step)[u] == Pending(w)[u];
      assert u in urls ==> Pending(w)[u] == 1;
    }
  }

  lemma DoneAfter<U>(w: World<U>, step: Step<U>)
    requires WellFormed(w) && Enabled(w, step) && Unique(Pending(w))
    ensures var settled := set u | u in Settled(w, step);
      Done(Next(w, step)) == Done(w) + settled && Done(w) !! settled
    ensures Unique(Pending(Next(w, step)))
  {
    hide Next, Pending, Settled, Enabled;
    var w', s := Next(w, step), Settled(w, step);
    StepConserves(w, step);
    StepKeepsWellFormed(w, step);
    UniqueLess(Pending(w), Pending(w'));
    forall u | u in s
      ensures u in w.recs && u in Pending(w) && u !in Pending(w')
    {
      assert Pending(w')[u] + s[u] == Pending(w)[u];
      assert u in Pending(w);
      PendingKnown(w, u);
    }
    forall u | u in w.recs
      ensures u in Done(w') <==> u in Done(w) || u in s
    {
      assert Pending(w')[u] + s[u] == Pending(w)[u];
    }
  }

  /** The URLs a finished visit decides. */
  lemma Decided<U>(w: World<U>, step: Step<U>, bad: set<U>) returns (decided: set<U>)
    requires Searching(w, bad) && Enabled(w, step) && step.Finish? && Truthful(w, step, bad)
    ensures var urls := w.visiting[step.i].urls; var v := Finding(urls, step.malicious);
      && (v == Unknown ==> decided == {})
      && (v != Unknown ==> |decided| == |urls| && forall u :: u in decided ==> v == Known(u in bad))
    ensures Done(Next(w, step)) == Done(w) + decided && Done(w) !! decided
  {
    hide Next, Pending, Settled, Truthful, BeingVisited, AllDac, Finding, WellFormed, VerdictsTrue, CountsTrue, Done, Unique;
    var urls := w.visiting[step.i].urls;
    var v := Finding(urls, step.malicious);
    WhatFinishSettles(w, step, bad);
    DoneAfter(w, step);
    VisitingPending(w, step.i);
    UniqueLess(Pending(w), multiset(urls));
    DistinctCount(urls);
    decided := set u | u in Settled(w, step);
    assert v != Unknown ==> decided == set u | u in urls;
  }

  lemma FinishCounts<U>(w: World<U>, step: Step<U>, bad: set<U>)
    requires Searching(w, bad) && Enabled(w, step) && step.Finish? && Truthful(w, step, bad)
    ensures CountsTrue(Next(w, step), bad)
  {
    hide Next, Pending, Truthful, BeingVisited, AllDac, Finding, WellFormed, VerdictsTrue, Done, Unique;
    var urls := w.visiting[step.i].urls;
    var v := Finding(urls, step.malicious);
    FinishEffect(w, step, bad);
    var decided := Decided(w, step, bad);
    if v != Unknown {
      CountMore(Done(w), decided, bad, v.malicious);
    } else {
      assert Done(w) + decided == Done(w);
    }
  }

  lemma CountMore<U>(done: set<U>, settled: set<U>, bad: set<U>, malicious: bool)
    requires done !! settled && forall u :: u in settled ==> (u in bad) == malicious
    ensures |(done + settled) - bad| == |done - bad| + (if malicious then 0 else |settled|)
    ensures |(done + settled) * bad| == |done * bad| + (if malicious then |settled| else 0)
  {
    if malicious {
      assert (done + settled) - bad == done - bad;
      assert (done + settled) * bad == done * bad + settled;
    } else {
      assert (done + settled) - bad == (done - bad) + settled;
      assert (done + settled) * bad == done * bad;
    }
  }

  lemma FinishKeepsVisiting<U>(w: World<U>, step: Step<U>, bad: set<U>)
    requires Searching(w, bad) && Enabled(w, step) && step.Finish? && Truthful(w, step, bad)
    ensures BeingVisited(Next(w, step))
  {
    var w', i := Next(w, step), step.i;
    hide Next, Pending, Settled, Truthful, AllDac, VerdictsTrue, CountsTrue, Unique, Finding;
    FinishEffect(w, step, bad);
    EndGroups(w, step);
    StepKeepsWellFormed(w, step);
    forall g, u | g in w'.visiting && u in g.urls && u in w'.recs
      ensures w'.recs[u].stage == Visiting
    {
      VisitingApart(w, i, g, u);
      InWithout(w.visiting, i, g);
    }
  }

  // ---------------------------------------------------------------- what the other steps do

  lemma StartEffect<U>(w: World<U>, step: Step<U>, bad: set<U>)
    requires Deciding(w, bad) && Enabled(w, step) && step.Start?
    ensures var w', g := Next(w, step), w.taken[step.i];
      && w'.stats.safe == w.stats.safe && w'.stats.malicious == w.stats.malicious && w'.stats.urlError == w.stats.urlError
      && w'.recs.Keys == w.recs.Keys && w'.visiting == w.visiting + [Begun(g, step.algorithm)]
      && (forall u :: u in g.urls ==> u in Pending(w))
      && (forall u :: u in w.recs ==> w'.recs[u] == if u in g.urls then w.recs[u].(stage := Visiting) else w.recs[u])
  {
    hide Pending, TurnAll, Unique, AllDac, Without, CountsTrue, BeingVisited;
    var g := w.taken[step.i];
    assert g in GroupsOf(w);
    TakenPending(w, step.i);
    forall u | u in g.urls
      ensures u in Pending(w) && w.recs[u].code == OK
    {
      assert u in multiset(g.urls) && u in Pending(w);
      assert RecTrue<U>(w.recs[u], u in Pending(w), u in bad);
    }
    var g' := Begun(g, step.algorithm);
    TurnAllEffect(g'.urls, w.recs, w.stats, Visiting, g'.code);
    StartCounts(g'.urls, w.recs, w.stats, g'.code);
  }

  lemma StartKeepsDeciding<U>(w: World<U>, step: Step<U>, bad: set<U>)
    requires Deciding(w, bad) && Enabled(w, step) && step.Start?
    ensures VerdictsTrue(Next(w, step), bad) && CountsTrue(Next(w, step), bad) && BeingVisited(Next(w, step))
  {
    hide Pending, Next, Unique, AllDac, Truthful;
    var w' := Next(w, step);
    StepConserves(w, step);
    StartEffect(w, step, bad);
    forall u | u in w'.recs
      ensures RecTrue<U>(w'.recs[u], u in Pending(w'), u in bad)
    {
      assert RecTrue<U>(w.recs[u], u in Pending(w), u in bad);
    }
    assert Done(w') == Done(w);
  }

  lemma TakenPending<U>(w: World<U>, i: nat)
    requires i < |w.taken|
    ensures multiset(w.taken[i].urls) <= Pending(w)
  {
    hide Bag;
    GroupInBag(w.taken, i);
  }

  lemma TakeKeepsDeciding<U>(w: World<U>, step: Step<U>, bad: set<U>)
    requires Deciding(w, bad) && Enabled(w, step) && (step.TakeNew? || step.TakeOld?)
    ensures VerdictsTrue(Next(w, step), bad) && CountsTrue(Next(w, step), bad) && BeingVisited(Next(w, step))
  {
    hide Pending, Unique, AllDac, WellFormed, RecTrue;
    StepConserves(w, step);
    assert Done(Next(w, step)) == Done(w);
  }

  /** Every error-free, truthful dac step keeps the search invariant. */
  lemma StepKeepsSearching<U>(w: World<U>, step: Step<U>, bad: set<U>)
    requires Searching(w, bad) && Enabled(w, step) && Truthful(w, step, bad)
    ensures Searching(Next(w, step), bad)
  {
    StepKeepsWellFormed(w, step);
    StepKeepsDac(w, step, bad);
    DoneAfter(w, step);
    if step.Finish? {
      hide Next, WellFormed, AllDac, Unique, VerdictsTrue, CountsTrue, BeingVisited, Pending;
      FinishVerdicts(w, step, bad);
      FinishCounts(w, step, bad);
      FinishKeepsVisiting(w, step, bad);
    } else if step.Start? {
      hide Next, WellFormed, AllDac, Unique, VerdictsTrue, CountsTrue, BeingVisited, Pending;
      StartKeepsDeciding(w, step, bad);
    } else {
      hide Next, WellFormed, AllDac, Unique, VerdictsTrue, CountsTrue, BeingVisited, Pending;
      TakeKeepsDeciding(w, step, bad);
    }
  }

  lemma {:induction false} RunKeepsSearching<U>(w: World<U>, steps: seq<Step<U>>, bad: set<U>)
    requires Searching(w, bad) && Run(w, steps) && TruthfulRun(w, steps, bad)
    ensures Searching(After(w, steps), bad)
    decreases steps
  {
    hide Searching, Next, Truthful, Enabled;
    if steps != [] {
      KnownWellFormed(w, bad);
      StepKeepsWellFormed(w, steps[0]);
      StepKeepsSearching(w, steps[0], bad);
      RunKeepsSearching(Next(w, steps[0]), steps[1..], bad);
    }
  }

  lemma KnownWellFormed<U>(w: World<U>, bad: set<U>)
    requires Searching(w, bad)
    ensures WellFormed(w)
  {
  }

  /** A server whose URLs have all just been read in: none visited, none twice. */
  ghost predicate Fresh<U>(w: World<U>)
  {
    && GroupsOf(w) == [] && Unique(multiset(w.waiting))
    && (forall u :: u in w.recs ==> u in w.waiting)
    && (forall u :: u in w.recs ==> w.recs[u] == UrlRec(Idle, Unknown, OK))
    && w.stats.safe == 0 && w.stats.malicious == 0 && w.stats.urlError == 0
  }

  lemma FreshDeciding<U>(w: World<U>, bad: set<U>)
    requires Fresh(w) && WellFormed(w)
    ensures Deciding(w, bad) && w.visiting == []
  {
    assert w.queue == [] && w.taken == [] && w.visiting == [];
    assert Pending(w) == multiset(w.waiting);
    assert Done(w) == {};
  }

  lemma FreshSearching<U>(w: World<U>, bad: set<U>)
    requires Fresh(w) && WellFormed(w)
    ensures Searching(w, bad)
  {
    FreshDeciding(w, bad);
  }

  /** Every URL is undecided or has its true verdict, and the decided ones are counted once each. */
  ghost predicate SoFarRight<U>(w: World<U>, bad: set<U>)
  {
    && w.stats.safe + w.stats.malicious == |Done(w)| && w.stats.urlError == 0
    && (forall u :: u in Done(w) ==> w.recs[u].verdict == Known(u in bad) && w.recs[u].stage == Visited)
    && (forall u :: u in w.recs && u !in Done(w) ==> w.recs[u].verdict == Unknown)
  }

  lemma CountParts<U>(done: set<U>, bad: set<U>)
    ensures |done - bad| + |done * bad| == |done|
  {
    assert done == (done - bad) + (done * bad);
  }

  lemma DecidingIsRight<U>(w: World<U>, bad: set<U>)
    requires Deciding(w, bad)
    ensures SoFarRight(w, bad)
  {
    hide WellFormed, AllDac, Unique, BeingVisited, Pending;
    CountParts(Done(w), bad);
    forall u | u in w.recs
      ensures RecTrue<U>(w.recs[u], u in Pending(w), u in bad)
    {
    }
  }

  lemma NothingPending<U>(w: World<U>)
    requires w.waiting == [] && GroupsOf(w) == []
    ensures Done(w) == w.recs.Keys
  {
    assert w.queue == [] && w.taken == [] && w.visiting == [];
    assert Pending(w) == multiset{};
  }

  /**
   At every point of an error-free dac run of the whole server what has been decided is right and
   counted once; when nothing is waiting or in a group any more, everything has been decided.
   */
  lemma VerdictsAreTrue<U>(w: World<U>, steps: seq<Step<U>>, bad: set<U>)
    requires Fresh(w) && WellFormed(w) && Run(w, steps) && TruthfulRun(w, steps, bad)
    ensures SoFarRight(After(w, steps), bad)
    ensures var w' := After(w, steps);
      w'.waiting == [] && GroupsOf(w') == [] ==>
        && (forall u :: u in w.recs ==> u in w'.recs && w'.recs[u].verdict == Known(u in bad))
        && w'.stats.safe == |w.recs.Keys - bad| && w'.stats.malicious == |w.recs.Keys * bad|
  {
    hide Fresh, WellFormed, TruthfulRun, Run, After, Done, AllDac, Unique, BeingVisited, VerdictsTrue;
    var w' := After(w, steps);
    FreshSearching(w, bad);
    RunKeepsSearching(w, steps, bad);
    RunKeepsKeys(w, steps);
    DecidingIsRight(w', bad);
    if w'.waiting == [] && GroupsOf(w') == [] {
      NothingPending(w');
    }
  }

  lemma {:induction false} RunKeepsKeys<U>(w: World<U>, steps: seq<Step<U>>)
    requires WellFormed(w) && Run(w, steps)
    ensures After(w, steps).recs.Keys == w.recs.Keys
    decreases steps
  {
    hide Next, Enabled, WellFormed;
    if steps != [] {
      StepKeepsWellFormed(w, steps[0]);
      RunKeepsKeys(Next(w, steps[0]), steps[1..]);
    }
  }

  // ---------------------------------------------------------------- with errors: what a visit's end reports

  /** A visit that finishes reports a URL as visited iff the URL has no error code. */
  lemma FinishReports<U>(w: World<U>, step: Step<U>, u: U)
    requires WellFormed(w) && Enabled(w, step) && step.Finish? && u in w.visiting[step.i].urls
    ensures u in w.recs && u in Next(w, step).recs
    ensures Next(w, step).recs[u].stage == (if w.recs[u].code == OK then Visited else Error)
    ensures Next(w, step).recs[u].code == w.recs[u].code
  {
    hide TurnAll;
    var g := w.visiting[step.i];
    assert g in GroupsOf(w);
    var judged := JudgeAll(g.urls, w.recs, g.algorithm, step.malicious, step.own);
    TurnAllEffect(g.urls, judged, w.stats, Visited, g.code);
  }

  /** A visit that fails marks every URL of its group with the group's code. */
  lemma FailReports<U>(w: World<U>, step: Step<U>, u: U)
    requires WellFormed(w) && Enabled(w, step) && step.Fail? && u in w.visiting[step.i].urls
    ensures u in w.recs && u in Next(w, step).recs
    ensures Next(w, step).recs[u].stage == Error && Next(w, step).recs[u].code == Code(step.code)
  {
    hide TurnAll, FailAll;
    var g := FailedGroup(w.visiting[step.i], step.malicious, step.code);
    assert w.visiting[step.i] in GroupsOf(w);
    assert Code(Code(step.code)) == Code(step.code);
    hide Code;
    var judged := JudgeAll(g.urls, w.recs, g.algorithm, step.malicious, step.own);
    var turned := TurnAll(g.urls, judged, w.stats, Error, g.code);
    FailAllEffect(g.urls, turned.0, turned.1, g.code);
  }

  /**
   Neither a new visit nor its success takes a URL's error code away: so a URL that failed is
   reported as failed by a successful retry too.
   */
  lemma CodesStay<U>(w: World<U>, step: Step<U>, u: U)
    requires WellFormed(w) && Enabled(w, step) && !step.Fail? && !step.Drop? && !step.UrlCode? && u in w.recs
    ensures u in Next(w, step).recs && Next(w, step).recs[u].code == w.recs[u].code
  {
    hide TurnAll;
    if step.Finish? {
      var g := w.visiting[step.i];
      assert g in GroupsOf(w);
      var judged := JudgeAll(g.urls, w.recs, g.algorithm, step.malicious, step.own);
      TurnAllEffect(g.urls, judged, w.stats, Visited, g.code);
    } else if step.Start? {
      var g := w.taken[step.i];
      assert g in GroupsOf(w);
      TurnAllEffect(g.urls, w.recs, w.stats, Visiting, g.code);
    }
  }

  // ---------------------------------------------------------------- over a whole run: the last code written decides

  /** The error code that a step writes to a URL, if it does, as it was sent. */
  function Written<U>(w: World<U>, step: Step<U>, u: U): Option<int>
    requires Enabled(w, step)
  {
    match step
    case Fail(i, _, _, code) => if u in w.visiting[i].urls then Some(code) else None
    case Drop(i, code) => if u in w.taken[i].urls then Some(code) else None
    case UrlCode(v, code) => if u == v then Some(code) else None
    case _ => None
  }

  /** The last error code written to a URL in the course of a run. */
  function LastWritten<U>(w: World<U>, steps: seq<Step<U>>, u: U): Option<int>
    requires WellFormed(w) && Run(w, steps)
    decreases steps
  {
    if steps == [] then
      None
    else
      StepKeepsWellFormed(w, steps[0]);
      var later := LastWritten(Next(w, steps[0]), steps[1..], u);
      if later.Some? then later else Written(w, steps[0], u)
  }

  /** A group's URLs after setUrlGroupState(ERROR) and update: each has the group's code. */
  lemma ErrorCodes<U>(g: Group<U>, recs: map<U, UrlRec>, s: Stats, u: U)
    requires (forall v :: v in g.urls ==> v in recs) && u in recs
    ensures u in DropUrls(g, recs, s).0
    ensures u in g.urls ==> DropUrls(g, recs, s).0[u].stage == Error && DropUrls(g, recs, s).0[u].code == Code(g.code)
    ensures u !in g.urls ==> DropUrls(g, recs, s).0[u] == recs[u]
  {
    hide TurnAll, FailAll, Code;
    var turned := TurnAll(g.urls, recs, s, Error, g.code);
    FailAllEffect(g.urls, turned.0, turned.1, g.code);
    TurnAllEffect(g.urls, recs, s, Error, g.code);
  }

  /** A group lost before its visit marks its URLs with its code too. */
  lemma DropReports<U>(w: World<U>, step: Step<U>, u: U)
    requires WellFormed(w) && Enabled(w, step) && step.Drop? && u in w.recs
    ensures u in Next(w, step).recs
    ensures Next(w, step).recs[u].code == (if u in w.taken[step.i].urls then Code(step.code) else w.recs[u].code)
    ensures u in w.taken[step.i].urls ==> Next(w, step).recs[u].stage == Error
  {
    hide DropUrls;
    assert Code(Code(step.code)) == Code(step.code);
    hide Code;
    var g := w.taken[step.i];
    assert g in GroupsOf(w);
    ErrorCodes(FailedGroup(g, g.malicious, step.code), w.recs, w.stats, u);
  }

  lemma FailLeaves<U>(w: World<U>, step: Step<U>, u: U)
    requires WellFormed(w) && Enabled(w, step) && step.Fail? && u in w.recs && u !in w.visiting[step.i].urls
    ensures u in Next(w, step).recs && Next(w, step).recs[u].code == w.recs[u].code
  {
    hide TurnAll, FailAll, Code;
    var before := w.visiting[step.i];
    assert before in GroupsOf(w);
    var g := FailedGroup(before, step.malicious, step.code);
    ErrorCodes(g, JudgeAll(g.urls, w.recs, g.algorithm, step.malicious, step.own), w.stats, u);
  }

  lemma StepWrites<U>(w: World<U>, step: Step<U>, u: U)
    requires WellFormed(w) && Enabled(w, step) && u in w.recs
    ensures u in Next(w, step).recs
    ensures var c := Written(w, step, u);
      Next(w, step).recs[u].code == if c.Some? then Code(c.value) else w.recs[u].code
  {
    StepKeepsWellFormed(w, step);
    if step.Fail? {
      hide Next, Code, WellFormed;
      if u in w.visiting[step.i].urls {
        FailReports(w, step, u);
      } else {
        FailLeaves(w, step, u);
      }
    } else if step.Drop? {
      hide Next, Code, WellFormed;
      DropReports(w, step, u);
    } else if !step.UrlCode? {
      hide Next, Code, WellFormed;
      CodesStay(w, step, u);
    }
  }

  /** At every point of every run a URL's error code is the last one sent for it, unknown codes turned into one. */
  lemma {:induction false} CodeIsLastWritten<U>(w: World<U>, steps: seq<Step<U>>, u: U)
    requires WellFormed(w) && Run(w, steps) && u in w.recs
    ensures u in After(w, steps).recs
    ensures var c := LastWritten(w, steps, u);
      After(w, steps).recs[u].code == if c.Some? then Code(c.value) else w.recs[u].code
    decreases steps
  {
    hide Next, Enabled, WellFormed, Written;
    if steps != [] {
      StepKeepsWellFormed(w, steps[0]);
      StepWrites(w, steps[0], u);
      CodeIsLastWritten(Next(w, steps[0]), steps[1..], u);
    }
  }

  /**
   Over any run from a server whose URLs carry no error yet: a visit that finishes reports a URL as
   visited iff the last error code sent for the URL was 0, or none ever was. Successful
   visits in between make no difference.
   */
  lemma RunReports<U>(w: World<U>, steps: seq<Step<U>>, step: Step<U>, u: U)
    requires WellFormed(w) && Run(w, steps) && u in w.recs && w.recs[u].code == OK
    requires Enabled(After(w, steps), step) && step.Finish? && u in After(w, steps).visiting[step.i].urls
    ensures u in Next(After(w, steps), step).recs
    ensures Next(After(w, steps), step).recs[u].stage == (if LastWritten(w, steps, u) in {None, Some(0)} then Visited else Error)
  {
    hide Next, After, Run, LastWritten, WellFormed;
    CodeIsLastWritten(w, steps, u);
    var c := LastWritten(w, steps, u);
    if c.Some? {
      CodeMeaning(c.value);
    }
    FinishReports(After(w, steps), step, u);
  }

  // ---------------------------------------------------------------- the run in which a successful retry is reported as failed

  lemma RunOneMore<U>(w: World<U>, step: Step<U>, rest: seq<Step<U>>)
    requires WellFormed(w) && Enabled(w, step)
    requires WellFormed(Next(w, step)) && Run(Next(w, step), rest)
    ensures Run(w, [step] + rest) && After(w, [step] + rest) == After(Next(w, step), rest)
  {
    hide Next, Enabled, WellFormed;
    assert ([step] + rest)[0] == step && ([step] + rest)[1..] == rest;
  }

  lemma RunNone<U>(w: World<U>)
    requires WellFormed(w)
    ensures Run(w, []) && After(w, []) == w
  {
  }

  /** The group's visit fails, the group is taken again at once, visited, and this visit finishes. */
  function Retry<U>(w: World<U>, i: nat, malicious: bool, code: int, algorithm: Algorithm, malicious': bool): seq<Step<U>>
    requires i < |w.visiting|
  {
    [Fail(i, malicious, None, code)] + ([TakeOld] + ([Start(|w.taken|, algorithm)] + ([Finish(|w.visiting| - 1, malicious', None)] + [])))
  }

  /** The server after the first two steps: the client holds the failed group again. */
  lemma FailedAndTaken<U>(w: World<U>, i: nat, malicious: bool, code: int) returns (w': World<U>)
    requires WellFormed(w) && i < |w.visiting| && w.visiting[i].errors == 0
    requires !Splits(FailedGroup(w.visiting[i], malicious, code))
    ensures var fail, g := Fail(i, malicious, None, code), w.visiting[i];
      && Enabled(w, fail) && WellFormed(Next(w, fail)) && Enabled(Next(w, fail), TakeOld) && w' == Next(Next(w, fail), TakeOld)
      && WellFormed(w') && w'.taken == w.taken + [FailedGroup(g, malicious, code)]
      && |w'.visiting| == |w.visiting| - 1 && w'.visited == w.visited
      && forall u :: u in g.urls ==> u in w'.recs && w'.recs[u].code == Code(code)
  {
    hide Code, TurnAll, FailAll, JudgeAll, WellFormed;
    var fail, g := Fail(i, malicious, None, code), w.visiting[i];
    StepKeepsWellFormed(w, fail);
    var failed := Next(w, fail);
    StepKeepsWellFormed(failed, TakeOld);
    w' := Next(failed, TakeOld);
    forall u | u in g.urls
      ensures u in w'.recs && w'.recs[u].code == Code(code)
    {
      FailReports(w, fail, u);
    }
  }

  /** The last group taken is visited, and the visit finishes: what it says of the group's URLs. */
  lemma VisitLastTaken<U>(w: World<U>, algorithm: Algorithm, malicious: bool) returns (w': World<U>)
    requires WellFormed(w) && w.taken != []
    ensures var start, finish, g := Start(|w.taken| - 1, algorithm), Finish(|w.visiting|, malicious, None), w.taken[|w.taken| - 1];
      && Enabled(w, start) && WellFormed(Next(w, start)) && Enabled(Next(w, start), finish) && w' == Next(Next(w, start), finish)
      && WellFormed(w') && w'.visited == w.visited + [FinishedGroup(Begun(g, algorithm), malicious)]
      && forall u :: u in g.urls ==> u in w.recs && u in w'.recs && w'.recs[u].stage == if w.recs[u].code == OK then Visited else Error
  {
    hide Code, TurnAll, FailAll, JudgeAll, WellFormed, Without;
    var start, finish, g := Start(|w.taken| - 1, algorithm), Finish(|w.visiting|, malicious, None), w.taken[|w.taken| - 1];
    StepKeepsWellFormed(w, start);
    var started := Next(w, start);
    StepKeepsWellFormed(started, finish);
    w' := Next(started, finish);
    forall u | u in g.urls
      ensures u in w.recs && u in w'.recs && w'.recs[u].stage == if w.recs[u].code == OK then Visited else Error
    {
      FinishReports(started, finish, u);
      CodesStay(w, start, u);
    }
  }

  /**
   Wherever a group that has not failed before fails with an error and is not split, this run is
   possible, its second visit finishes, and that visit reports every URL of the group as failed.
   */
  lemma RetryReportsError<U>(w: World<U>, i: nat, malicious: bool, code: int, algorithm: Algorithm, malicious': bool)
    requires WellFormed(w) && i < |w.visiting| && w.visiting[i].errors == 0 && Code(code) != OK
    requires !Splits(FailedGroup(w.visiting[i], malicious, code))
    ensures var steps, g := Retry(w, i, malicious, code, algorithm, malicious'), w.visiting[i];
      && Run(w, steps)
      && var w' := After(w, steps);
      && |w'.visited| == |w.visited| + 1 && w'.visited[|w.visited|].urls == g.urls && w'.visited[|w.visited|].stage == Visited
      && (forall u :: u in g.urls ==> u in w'.recs && w'.recs[u].stage == Error)
  {
    hide Code, WellFormed, Next, Enabled, Run, After, Splits;
    var fail, start, finish := Fail(i, malicious, None, code), Start(|w.taken|, algorithm), Finish(|w.visiting| - 1, malicious', None);
    var taken := FailedAndTaken(w, i, malicious, code);
    var end := VisitLastTaken(taken, algorithm, malicious');
    RunNone(end);
    RunOneMore(Next(taken, start), finish, []);
    RunOneMore(taken, start, [finish] + []);
    RunOneMore(Next(w, fail), TakeOld, [start] + ([finish] + []));
    RunOneMore(w, fail, [TakeOld] + ([start] + ([finish] + [])));
  }

  /** The smallest such run: one client visiting one URL. */
  lemma RetryOfOneUrl<U>(u: U)
    ensures var g := Group([u], true, Visiting, Dac, false, 0, OK);
      var w := World(map[u := UrlRec(Visiting, Unknown, OK)], Stats(1, 0, 0, 0, 0), [], [], [], [g], []);
      var steps := [Fail(0, false, None, INVALID_ERROR_CODE_FROM_CLIENT), TakeOld, Start(0, Dac), Finish(0, false, None)];
      WellFormed(w) && Run(w, steps) && u in After(w, steps).recs && After(w, steps).recs[u].stage == Error
  {
    var g := Group([u], true, Visiting, Dac, false, 0, OK);
    var w := World(map[u := UrlRec(Visiting, Unknown, OK)], Stats(1, 0, 0, 0, 0), [], [], [], [g], []);
    var steps := [Fail(0, false, None, INVALID_ERROR_CODE_FROM_CLIENT), TakeOld, Start(0, Dac), Finish(0, false, None)];
    assert GroupsOf(w) == [g];
    hide Run, After, Next;
    RetryReportsError(w, 0, false, INVALID_ERROR_CODE_FROM_CLIENT, Dac, false);
    assert Retry(w, 0, false, INVALID_ERROR_CODE_FROM_CLIENT, Dac, false) == steps;
    assert u in g.urls;
  }
}
