/**
 How many group visits the scheduler makes: an exact count for error-free divide-and-conquer runs,
 the usual bounds on it, and a bound for every run, errors and retries included.
 */
module UrlBounds {
  import opened Basics
  import opened UrlJobs

  lemma SumWithout<U>(gs: seq<Group<U>>, i: nat, f: Group<U> -> nat)
    requires i < |gs|
    ensures Sum(gs, f) == Sum(Without(gs, i), f) + f(gs[i])
  {
    hide Sum;
    assert gs == gs[..i] + ([gs[i]] + gs[i + 1..]);
    SumAppend(gs[..i], [gs[i]] + gs[i + 1..], f);
    SumAppend(gs[..i], gs[i + 1..], f);
    SumOne(gs[i], gs[i + 1..], f);
  }

  // ---------------------------------------------------------------- visits still allowed for

  /** What the groups in the server still account for; a visit begun has already been counted. */
  function Left<U>(w: World<U>, f: Group<U> -> nat): int
  {
    Sum(w.queue, f) + Sum(w.taken, f) + Sum(w.visiting, f) - |w.visiting|
  }

  /** The measure does not look at how or whether a group is being visited. */
  ghost predicate Steady<U>(w: World<U>, f: Group<U> -> nat)
  {
    forall i, algorithm :: 0 <= i < |w.taken| ==> f(Begun(w.taken[i], algorithm)) == f(w.taken[i])
  }

  function Began<U>(step: Step<U>): nat
  {
    if step.Start? then 1 else 0
  }

  /** What a step adds to the account: new groups, and what the end of a visit puts back. */
  function Added<U>(w: World<U>, step: Step<U>, f: Group<U> -> nat): int
    requires Enabled(w, step)
  {
    match step
    case TakeNew(groupSize) => f(NewGroup(w.waiting[..BatchSize(groupSize, |w.waiting|)], true))
    case Finish(i, _, _) => Sum(Pushed(w, step), f) + 1 - f(w.visiting[i])
    case Fail(i, _, _, _) => Sum(Pushed(w, step), f) + 1 - f(w.visiting[i])
    case Drop(i, _) => Sum(Pushed(w, step), f) - f(w.taken[i])
    case _ => 0
  }

  lemma TakeAccounts<U>(w: World<U>, step: Step<U>, f: Group<U> -> nat)
    requires WellFormed(w) && Enabled(w, step) && (step.TakeNew? || step.TakeOld?)
    ensures Left(Next(w, step), f) == Left(w, f) + Added(w, step, f)
  {
    hide Sum, WellFormed;
    if step.TakeNew? {
      var g := NewGroup(w.waiting[..BatchSize(step.groupSize, |w.waiting|)], true);
      SumAppend(w.taken, [g], f);
      SumOne(g, [], f);
    } else {
      SumAppend(w.taken, [w.queue[0]], f);
      assert w.queue == [w.queue[0]] + w.queue[1..];
      SumOne(w.queue[0], w.queue[1..], f);
    }
  }

  lemma StartAccounts<U>(w: World<U>, step: Step<U>, f: Group<U> -> nat)
    requires WellFormed(w) && Enabled(w, step) && step.Start? && Steady(w, f)
    ensures Left(Next(w, step), f) + 1 == Left(w, f)
  {
    hide Sum, TurnAll;
    var g := Begun(w.taken[step.i], step.algorithm);
    SumWithout(w.taken, step.i, f);
    SumAppend(w.visiting, [g], f);
    SumOne(g, [], f);
  }

  lemma EndAccounts<U>(w: World<U>, step: Step<U>, f: Group<U> -> nat)
    requires WellFormed(w) && Enabled(w, step) && Ends(step)
    ensures Left(Next(w, step), f) == Left(w, f) + Added(w, step, f)
  {
    hide Sum, Next, Pushed;
    EndGroups(w, step);
    SumWithout(if step.Drop? then w.taken else w.visiting, step.i, f);
    SumAppend(Pushed(w, step), w.queue, f);
  }

  /** The account balances at every step, whatever the measure. */
  lemma StepAccounts<U>(w: World<U>, step: Step<U>, f: Group<U> -> nat)
    requires WellFormed(w) && Enabled(w, step) && Steady(w, f)
    ensures Began(step) + Left(Next(w, step), f) == Left(w, f) + Added(w, step, f)
  {
    if step.UrlCode? {
    } else if step.TakeNew? || step.TakeOld? {
      hide Left, Next, Added;
      TakeAccounts(w, step, f);
    } else if step.Start? {
      hide Left, Next;
      StartAccounts(w, step, f);
    } else {
      hide Left, Next, Added;
      EndAccounts(w, step, f);
    }
  }

  // ---------------------------------------------------------------- with errors: 4n - 2 visits

  /** 4n - 2 for a group that has not failed yet, 4n - 3 for one that has. */
  function Quota<U>(g: Group<U>): nat
  {
    if |g.urls| == 0 then 0 else if g.errors == 0 then 4 * |g.urls| - 2 else 4 * |g.urls| - 3
  }

  /**
   However a visit ends, what is put back is worth less than the visited group by at least the visit;
   what is put back of a group that was never visited is worth no more than the group.
   */
  lemma EndLowersQuota<U>(w: World<U>, step: Step<U>)
    requires WellFormed(w) && Enabled(w, step) && Ends(step)
    ensures Sum(Pushed(w, step), Quota) + (if step.Drop? then 0 else 1) <= Quota(Leaving(w, step))
  {
    hide Sum;
    var g, before := Ended(w, step), Leaving(w, step);
    assert before in GroupsOf(w);
    if Splits(g) {
      HalvesSplit(g);
      var second, first := NewGroup(SecondHalf(g.urls), false), NewGroup(FirstHalf(g.urls), false);
      assert Halves(g) == [second] + [first];
      SumOne(second, [first], Quota);
      SumOne(first, [], Quota);
    } else if Pushed(w, step) != [] {
      SumOne(g, [], Quota);
    } else {
      SumNone<Group<U>>(Quota);
    }
  }

  /** Group visits begun in the course of a run. */
  function Visits<U>(steps: seq<Step<U>>): nat
  {
    if steps == [] then 0 else Began(steps[0]) + Visits(steps[1..])
  }

  /** What the groups newly made in the course of a run account for. */
  function Issued<U>(w: World<U>, steps: seq<Step<U>>, f: Group<U> -> nat): nat
    requires WellFormed(w) && Run(w, steps)
    decreases steps
  {
    if steps == [] then
      0
    else
      StepKeepsWellFormed(w, steps[0]);
      (if steps[0].TakeNew? then f(NewGroup(w.waiting[..BatchSize(steps[0].groupSize, |w.waiting|)], true)) else 0)
      + Issued(Next(w, steps[0]), steps[1..], f)
  }

  lemma QuotaSteady<U>(w: World<U>)
    ensures Steady(w, Quota)
  {
  }

  lemma StepLowersQuota<U>(w: World<U>, step: Step<U>)
    requires WellFormed(w) && Enabled(w, step)
    ensures Began(step) + Left(Next(w, step), Quota)
         <= Left(w, Quota) + (if step.TakeNew? then Quota(NewGroup(w.waiting[..BatchSize(step.groupSize, |w.waiting|)], true)) else 0)
  {
    hide Next, Left, Pushed, WellFormed;
    QuotaSteady(w);
    StepAccounts(w, step, Quota);
    if Ends(step) {
      EndLowersQuota(w, step);
    }
  }

  /** In every run, with any outcomes, the visits made and those still allowed stay within the account. */
  lemma {:induction false} RunWithinQuota<U>(w: World<U>, steps: seq<Step<U>>)
    requires WellFormed(w) && Run(w, steps)
    ensures Visits(steps) + Left(After(w, steps), Quota) <= Left(w, Quota) + Issued(w, steps, Quota)
    decreases steps
  {
    hide Next, Left, Quota, WellFormed, Enabled;
    if steps != [] {
      StepKeepsWellFormed(w, steps[0]);
      StepLowersQuota(w, steps[0]);
      RunWithinQuota(Next(w, steps[0]), steps[1..]);
    }
  }

  lemma LeftNotNegative<U>(w: World<U>)
    requires WellFormed(w)
    ensures Left(w, Quota) >= 0
  {
    forall g | g in w.visiting
      ensures Quota(g) >= 1
    {
      assert g in GroupsOf(w);
    }
    SumAtLeastLength(w.visiting, Quota);
  }

  /** A server with nothing to do but one fresh group. */
  ghost predicate OneGroup<U>(w: World<U>, urls: seq<U>)
  {
    && w.waiting == [] && w.queue == [] && w.visiting == []
    && |w.taken| == 1 && w.taken[0].urls == urls && w.taken[0].errors == 0
  }

  lemma NothingWaits<U>(w: World<U>, steps: seq<Step<U>>, f: Group<U> -> nat)
    requires WellFormed(w) && Run(w, steps) && w.waiting == []
    ensures Issued(w, steps, f) == 0
    decreases steps
  {
    if steps != [] {
      StepKeepsWellFormed(w, steps[0]);
      NothingWaits(Next(w, steps[0]), steps[1..], f);
    }
  }

  /** From one group of n URLs no run makes more than 4n - 2 group visits, whatever goes wrong. */
  lemma GroupStops<U>(w: World<U>, urls: seq<U>, steps: seq<Step<U>>)
    requires WellFormed(w) && Run(w, steps) && OneGroup(w, urls)
    ensures Visits(steps) <= 4 * |urls| - 2
  {
    RunWithinQuota(w, steps);
    NothingWaits(w, steps, Quota);
    LeftNotNegative(After(w, steps));
    assert w.taken[0] in GroupsOf(w);
    assert w.taken == [w.taken[0]];
    hide WellFormed, Run, After, Issued;
    SumOne(w.taken[0], [], Quota);
  }

  lemma {:induction false} IssuedFromWaiting<U>(w: World<U>, steps: seq<Step<U>>)
    requires WellFormed(w) && Run(w, steps)
    ensures Issued(w, steps, Quota) + 4 * |After(w, steps).waiting| <= 4 * |w.waiting|
    decreases steps
  {
    if steps != [] {
      hide WellFormed, Pushed, Started, Finished, Failed, Dropped;
      StepKeepsWellFormed(w, steps[0]);
      WaitingAfter(w, steps[0]);
      IssuedFromWaiting(Next(w, steps[0]), steps[1..]);
    }
  }

  lemma WaitingAfter<U>(w: World<U>, step: Step<U>)
    requires WellFormed(w) && Enabled(w, step)
    ensures var w' := Next(w, step);
      if step.TakeNew? then
        |w'.waiting| + BatchSize(step.groupSize, |w.waiting|) == |w.waiting|
      else
        w'.waiting == w.waiting
  {
  }

  /** A whole server run over N URLs makes at most 4N group visits. */
  lemma ServerStops<U>(w: World<U>, steps: seq<Step<U>>)
    requires WellFormed(w) && Run(w, steps) && GroupsOf(w) == []
    ensures Visits(steps) <= 4 * |w.waiting|
  {
    RunWithinQuota(w, steps);
    IssuedFromWaiting(w, steps);
    LeftNotNegative(After(w, steps));
  }

  // ---------------------------------------------------------------- without errors: the exact count

  predicate Clean<U>(urls: seq<U>, bad: set<U>)
  {
    forall u :: u in urls ==> u !in bad
  }

  /** Visits that a group of these URLs takes in all, its parts included. */
  function Cost<U>(urls: seq<U>, bad: set<U>): (n: nat)
    ensures n >= 1
    decreases |urls|
  {
    if |urls| <= 1 || Clean(urls, bad) then 1 else 1 + Cost(FirstHalf(urls), bad) + Cost(SecondHalf(urls), bad)
  }

  function CostWith<U>(bad: set<U>): Group<U> -> nat
  {
    (g: Group<U>) => Cost(g.urls, bad)
  }

  /** An error-free step of a dac run in which a visit is malicious exactly if the group has a malicious URL. */
  predicate Truthful<U>(w: World<U>, step: Step<U>, bad: set<U>)
    requires Enabled(w, step)
  {
    match step
    case Start(_, algorithm) => algorithm.Dac?
    case Finish(i, malicious, _) => malicious == !Clean(w.visiting[i].urls, bad)
    case Fail(_, _, _, _) => false
    case Drop(_, _) => false
    case UrlCode(_, _) => false
    case _ => true
  }

  predicate AllDac<U>(w: World<U>)
  {
    forall g :: g in w.visiting ==> g.algorithm.Dac?
  }

  predicate TruthfulRun<U>(w: World<U>, steps: seq<Step<U>>, bad: set<U>)
    requires WellFormed(w) && Run(w, steps)
    decreases steps
  {
    if steps == [] then
      true
    else
      StepKeepsWellFormed(w, steps[0]);
      Truthful(w, steps[0], bad) && TruthfulRun(Next(w, steps[0]), steps[1..], bad)
  }

  lemma StepKeepsDac<U>(w: World<U>, step: Step<U>, bad: set<U>)
    requires WellFormed(w) && Enabled(w, step) && AllDac(w) && Truthful(w, step, bad)
    ensures AllDac(Next(w, step))
  {
    hide TurnAll, JudgeAll, Requeued;
  }

  lemma EndSpendsCost<U>(w: World<U>, step: Step<U>, bad: set<U>)
    requires WellFormed(w) && Enabled(w, step) && AllDac(w) && step.Finish? && Truthful(w, step, bad)
    ensures Sum(Pushed(w, step), CostWith(bad)) + 1 == Cost(w.visiting[step.i].urls, bad)
  {
    hide Sum;
    var g, f := Ended(w, step), CostWith(bad);
    assert w.visiting[step.i] in GroupsOf(w) && w.visiting[step.i] in w.visiting;
    if Splits(g) {
      var second, first := NewGroup(SecondHalf(g.urls), false), NewGroup(FirstHalf(g.urls), false);
      assert Halves(g) == [second] + [first];
      SumOne(second, [first], f);
      SumOne(first, [], f);
    } else {
      SumNone(f);
    }
  }

  lemma StepSpendsCost<U>(w: World<U>, step: Step<U>, bad: set<U>)
    requires WellFormed(w) && Enabled(w, step) && AllDac(w) && Truthful(w, step, bad)
    ensures Began(step) + Left(Next(w, step), CostWith(bad))
         == Left(w, CostWith(bad)) + (if step.TakeNew? then Cost(w.waiting[..BatchSize(step.groupSize, |w.waiting|)], bad) else 0)
  {
    hide Next, Left, Pushed, WellFormed;
    StepAccounts(w, step, CostWith(bad));
    if step.Finish? {
      EndSpendsCost(w, step, bad);
    }
  }

  /** In an error-free dac run the visits made and those still to come add up to exactly the groups' cost. */
  lemma {:induction false} RunSpendsCost<U>(w: World<U>, steps: seq<Step<U>>, bad: set<U>)
    requires WellFormed(w) && Run(w, steps) && AllDac(w) && TruthfulRun(w, steps, bad)
    ensures AllDac(After(w, steps))
    ensures Visits(steps) + Left(After(w, steps), CostWith(bad)) == Left(w, CostWith(bad)) + Issued(w, steps, CostWith(bad))
    decreases steps
  {
    hide Next, Left, WellFormed, Enabled, AllDac, Truthful;
    if steps != [] {
      StepKeepsWellFormed(w, steps[0]);
      StepKeepsDac(w, steps[0], bad);
      StepSpendsCost(w, steps[0], bad);
      RunSpendsCost(Next(w, steps[0]), steps[1..], bad);
    }
  }

  // ---------------------------------------------------------------- the usual bounds on the count

  /** The least e with 2^e >= n. */
  function CeilLog2(n: nat): nat
  {
    if n <= 1 then 0 else 1 + CeilLog2((n + 1) / 2)
  }

  function Pow2(e: nat): nat
  {
    if e == 0 then 1 else 2 * Pow2(e - 1)
  }

  lemma {:induction false} CeilLog2Meaning(n: nat)
    requires n >= 1
    ensures n <= Pow2(CeilLog2(n))
    ensures n > 1 ==> Pow2(CeilLog2(n) - 1) < n
  {
    if n > 1 {
      CeilLog2Meaning((n + 1) / 2);
    }
  }

  lemma {:induction false} CeilLog2Monotone(m: nat, n: nat)
    requires m <= n
    ensures CeilLog2(m) <= CeilLog2(n)
    decreases n
  {
    if m > 1 {
      CeilLog2Monotone((m + 1) / 2, (n + 1) / 2);
    }
  }

  /** How many of the URLs are malicious. */
  function CountBad<U>(urls: seq<U>, bad: set<U>): nat
  {
    if urls == [] then 0 else (if urls[0] in bad then 1 else 0) + CountBad(urls[1..], bad)
  }

  lemma {:induction false} CountBadAppend<U>(a: seq<U>, b: seq<U>, bad: set<U>)
    ensures CountBad(a + b, bad) == CountBad(a, bad) + CountBad(b, bad)
  {
    if a == [] {
      assert a + b == b;
    } else {
      assert (a + b)[0] == a[0] && (a + b)[1..] == a[1..] + b;
      CountBadAppend(a[1..], b, bad);
    }
  }

  lemma {:induction false} CleanMeansNone<U>(urls: seq<U>, bad: set<U>)
    ensures Clean(urls, bad) <==> CountBad(urls, bad) == 0
  {
    if urls != [] {
      CleanMeansNone(urls[1..], bad);
      assert urls == [urls[0]] + urls[1..];
    }
  }

  lemma {:induction false} CostLinear<U>(urls: seq<U>, bad: set<U>)
    requires urls != []
    ensures Cost(urls, bad) <= 2 * |urls| - 1
    decreases |urls|
  {
    if |urls| > 1 {
      CostLinear(FirstHalf(urls), bad);
      CostLinear(SecondHalf(urls), bad);
    }
  }

  lemma Scaled(k: nat, a: nat, b: nat)
    requires a <= b
    ensures k * a <= k * b
  {
  }

  lemma SplitCost(ca: nat, cb: nat, ka: nat, kb: nat, la: nat, lb: nat, l: nat)
    requires ca <= 1 + 2 * (ka * la) && cb <= 1 + 2 * (kb * lb)
    requires la <= l && lb <= l && ka + kb >= 1
    ensures 1 + ca + cb <= 1 + 2 * ((ka + kb) * (l + 1))
  {
    Scaled(ka, la, l);
    Scaled(kb, lb, l);
    assert (ka + kb) * (l + 1) == ka * l + kb * l + ka + kb;
  }

  lemma {:induction false} CostLogarithmic<U>(urls: seq<U>, bad: set<U>)
    requires urls != []
    ensures Cost(urls, bad) <= 1 + 2 * (CountBad(urls, bad) * CeilLog2(|urls|))
    decreases |urls|
  {
    hide CountBad, CeilLog2, Clean;
    if |urls| > 1 && !Clean(urls, bad) {
      var a, b := FirstHalf(urls), SecondHalf(urls);
      CostLogarithmic(a, bad);
      CostLogarithmic(b, bad);
      assert urls == a + b;
      CountBadAppend(a, b, bad);
      CleanMeansNone(urls, bad);
      LogOfHalves(|urls|);
      SplitCost(Cost(a, bad), Cost(b, bad), CountBad(a, bad), CountBad(b, bad), CeilLog2(|a|), CeilLog2(|b|), CeilLog2(|urls|) - 1);
    }
  }

  lemma LogOfHalves(n: nat)
    requires n > 1
    ensures CeilLog2(n / 2) <= CeilLog2(n - n / 2) == CeilLog2(n) - 1
  {
    assert n - n / 2 == (n + 1) / 2;
    CeilLog2Monotone(n / 2, (n + 1) / 2);
  }

  /**
   An error-free dac run over one group of n URLs, k of them malicious, takes at most
   min(2n - 1, 1 + 2k ceil(log2 n)) visits, and exactly Cost of them once no group is left.
   */
  lemma GroupCost<U>(w: World<U>, urls: seq<U>, steps: seq<Step<U>>, bad: set<U>)
    requires WellFormed(w) && Run(w, steps) && OneGroup(w, urls) && TruthfulRun(w, steps, bad)
    ensures GroupsOf(After(w, steps)) == [] ==> Visits(steps) == Cost(urls, bad)
    ensures Visits(steps) <= 2 * |urls| - 1
    ensures Visits(steps) <= 1 + 2 * (CountBad(urls, bad) * CeilLog2(|urls|))
  {
    var w' := After(w, steps);
    RunSpendsCost(w, steps, bad);
    NothingWaits(w, steps, CostWith(bad));
    assert w.taken[0] in GroupsOf(w);
    assert w.taken == [w.taken[0]];
    hide WellFormed, Run, After, Issued, TruthfulRun;
    SumOne(w.taken[0], [], CostWith(bad));
    SumAtLeastLength(w'.visiting, CostWith(bad));
    CostLinear(urls, bad);
    CostLogarithmic(urls, bad);
  }
}
