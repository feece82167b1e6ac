/**
 The server's visitation scheduler as a state machine on values: URLs and their statistics
 (Url.java), groups of URLs (UrlGroup.java), and the queue of groups with its divide-and-conquer
 splits and its one retry (UrlGroupsController.java).
 */
module UrlJobs {
  import opened Basics

  /** URL_STATE and URL_GROUP_STATE; QUEUED is never set. */
  datatype Stage = Idle | Visiting | Visited | Error

  /** The Boolean `malicious` of a URL; null until something is known. */
  datatype Verdict = Unknown | Known(malicious: bool)

  datatype Algorithm = Dac | Seq | Bulk

  /** ERROR_CODES by value. */
  const OK := 0
  const INVALID_ERROR_CODE_FROM_CLIENT := 0x10006000
  const ERROR_CODES: set<int> := {
    0, 0x10000101, 0x10000102, 0x10000103, 0x10000104, 0x10000110, 0x10000111, 0x10000112, 0x10000114, 0x10000113,
    0x10000200, 0x10000300, 0x10004000, 0x10004100, 0x10004200, 0x10004300, 0x10007000, 0x10005000, 0x10005001,
    0x10005002, 0x10005003, 0x10006000}

  /** setMajorErrorCode: unknown codes become one of their own. */
  function Code(code: int): (c: int)
  {
    if code in ERROR_CODES then code else INVALID_ERROR_CODE_FROM_CLIENT
  }

  datatype UrlRec = UrlRec(stage: Stage, verdict: Verdict, code: int)

  /** The counters of Stats that a URL's state changes bump. */
  datatype Stats = Stats(visiting: nat, visited: nat, safe: nat, malicious: nat, urlError: nat)

  datatype Group<U> = Group(urls: seq<U>, initial: bool, stage: Stage, algorithm: Algorithm, malicious: bool, errors: nat, code: int)

  // ---------------------------------------------------------------- one URL

  /** Url.setUrlState. */
  function Turn(r: UrlRec, s: Stats, to: Stage): (UrlRec, Stats)
  {
    if r.stage == to then
      (r, s)
    else
      var r' := r.(stage := to);
      match to
      case Visiting => (r', s.(visiting := s.visiting + 1))
      case Visited =>
        if r.verdict == Known(true) then (r', s.(visited := s.visited + 1, malicious := s.malicious + 1))
        else if r.verdict == Known(false) then (r', s.(visited := s.visited + 1, safe := s.safe + 1))
        else (r', s.(visited := s.visited + 1))
      case Error =>
        if r.verdict == Known(true) then (r', s.(malicious := s.malicious + 1, urlError := s.urlError + 1))
        else if r.verdict == Known(false) then (r', s.(urlError := s.urlError + 1))
        else (r', s)
      case Idle => (r', s)
  }

  /** What setUrlGroupState does to one URL of the group. */
  function GroupTurn(r: UrlRec, s: Stats, to: Stage, code: int): (UrlRec, Stats)
  {
    match to
    case Visiting => Turn(r, s, Visiting)
    case Visited => if r.code == OK then Turn(r, s, Visited) else Turn(r, s, Error)
    case Error => Turn(if r.code == OK then r.(code := Code(code)) else r, s, Error)
    case Idle => (r, s)
  }

  /** What update does to one URL of a group that ended in an error. */
  function FailTurn(r: UrlRec, s: Stats, code: int): (UrlRec, Stats)
  {
    Turn(r.(code := Code(code)), s, Error)
  }

  /** What setMalicious does to one URL; `own` tells, under bulk, the URL's own state changes. */
  function Judged<U>(r: UrlRec, u: U, size: nat, algorithm: Algorithm, malicious: bool, own: Option<map<U, bool>>): UrlRec
    requires algorithm.Bulk? && own.Some? ==> u in own.value
  {
    if !algorithm.Bulk? then
      if !malicious then r.(verdict := Known(false))
      else if size == 1 then r.(verdict := Known(true))
      else r
    else if own.None? then
      r.(verdict := Known(malicious))
    else
      r.(verdict := Known(own.value[u]))
  }

  // ---------------------------------------------------------------- all URLs of a group, in list order

  function TurnAll<U>(urls: seq<U>, recs: map<U, UrlRec>, s: Stats, to: Stage, code: int): (r: (map<U, UrlRec>, Stats))
    requires forall u :: u in urls ==> u in recs
    ensures r.0.Keys == recs.Keys
  {
    if urls == [] then
      (recs, s)
    else
      var one := GroupTurn(recs[urls[0]], s, to, code);
      TurnAll(urls[1..], recs[urls[0] := one.0], one.1, to, code)
  }

  function FailAll<U>(urls: seq<U>, recs: map<U, UrlRec>, s: Stats, code: int): (r: (map<U, UrlRec>, Stats))
    requires forall u :: u in urls ==> u in recs
    ensures r.0.Keys == recs.Keys
  {
    if urls == [] then
      (recs, s)
    else
      var one := FailTurn(recs[urls[0]], s, code);
      FailAll(urls[1..], recs[urls[0] := one.0], one.1, code)
  }

  function JudgeAll<U>(urls: seq<U>, recs: map<U, UrlRec>, algorithm: Algorithm, malicious: bool, own: Option<map<U, bool>>): (r: map<U, UrlRec>)
    requires algorithm.Bulk? && own.Some? ==> forall u :: u in urls ==> u in own.value
    ensures r.Keys == recs.Keys
  {
    map u | u in recs :: if u in urls then Judged(recs[u], u, |urls|, algorithm, malicious, own) else recs[u]
  }

  // ---------------------------------------------------------------- the controller

  datatype World<U> = World(
    recs: map<U, UrlRec>,
    stats: Stats,
    waiting: seq<U>,           // UrlsController's queue
    queue: seq<Group<U>>,      // urlGroupQueue, top first
    taken: seq<Group<U>>,   // popped by a client, visit not begun
    visiting: seq<Group<U>>,   // visitingList
    visited: seq<Group<U>>)    // visitedList

  function NewGroup<U>(urls: seq<U>, initial: bool): Group<U>
  {
    Group(urls, initial, Idle, Seq, false, 0, OK)
  }

  /** How many URLs takeUrlGroup takes for a new group. */
  function BatchSize(groupSize: nat, available: nat): (n: nat)
    ensures available > 0 ==> 1 <= n <= available
  {
    var n := if available < groupSize then available else groupSize;
    if n == 0 then 1 else n
  }

  predicate Splits<U>(g: Group<U>)
  {
    g.algorithm.Dac? && g.malicious && |g.urls| > 1
  }

  function FirstHalf<U>(urls: seq<U>): seq<U>
  {
    urls[..|urls| / 2]
  }

  function SecondHalf<U>(urls: seq<U>): seq<U>
  {
    urls[|urls| / 2..]
  }

  /** The two groups a split pushes, top of the stack first. */
  function Halves<U>(g: Group<U>): seq<Group<U>>
  {
    [NewGroup(SecondHalf(g.urls), false), NewGroup(FirstHalf(g.urls), false)]
  }

  function Without<T>(s: seq<T>, i: nat): seq<T>
    requires i < |s|
  {
    s[..i] + s[i + 1..]
  }

  datatype Step<U> =
    | TakeNew(groupSize: nat)
    | TakeOld
    | Start(i: nat, algorithm: Algorithm)
    | Finish(i: nat, malicious: bool, own: Option<map<U, bool>>)
    | Fail(i: nat, malicious: bool, own: Option<map<U, bool>>, code: int)
    | Drop(i: nat, code: int)   // an error before the visit has begun
    | UrlCode(u: U, code: int)

  function GroupsOf<U>(w: World<U>): seq<Group<U>>
  {
    w.queue + w.taken + w.visiting
  }

  predicate WellFormed<U>(w: World<U>)
  {
    && (forall u :: u in w.waiting ==> u in w.recs)
    && (forall g, u :: g in GroupsOf(w) && u in g.urls ==> u in w.recs)
    && (forall g :: g in GroupsOf(w) ==> |g.urls| > 0)
    && (forall g :: g in GroupsOf(w) ==> g.errors <= 1)
  }

  /** The bulk map names every URL of the group, as its lookup needs. */
  predicate OwnFits<U>(g: Group<U>, own: Option<map<U, bool>>)
  {
    g.algorithm.Bulk? && own.Some? ==> forall u :: u in g.urls ==> u in own.value
  }

  predicate Enabled<U>(w: World<U>, step: Step<U>)
  {
    match step
    case TakeNew(_) => w.queue == [] && w.waiting != []
    case TakeOld => w.queue != []
    case Start(i, _) => i < |w.taken|
    case Finish(i, _, own) => i < |w.visiting| && OwnFits(w.visiting[i], own)
    case Fail(i, _, own, _) => i < |w.visiting| && OwnFits(w.visiting[i], own)
    case Drop(i, _) => i < |w.taken|
    case UrlCode(u, _) => u in w.recs
  }

  /** update on a group that has been VISITED: what it puts on the queue. */
  function Requeued<U>(g: Group<U>): seq<Group<U>>
  {
    if Splits(g) then Halves(g) else []
  }

  /** update on a group that ended in an ERROR: what it puts on the queue. */
  function Retried<U>(g: Group<U>): seq<Group<U>>
  {
    if Splits(g) then Halves(g) else if g.errors <= 1 then [g] else []
  }

  /** The group as it is once its visit has begun, finished or failed. */
  function Begun<U>(g: Group<U>, algorithm: Algorithm): Group<U>
  {
    g.(algorithm := algorithm, stage := Visiting)
  }

  function FinishedGroup<U>(g: Group<U>, malicious: bool): Group<U>
  {
    g.(malicious := malicious, stage := Visited)
  }

  function FailedGroup<U>(g: Group<U>, malicious: bool, code: int): Group<U>
  {
    g.(malicious := malicious, code := Code(code), stage := Error, errors := g.errors + 1)
  }

  /** URLs and counters after the group `g` has been visited, by way of setMalicious and setUrlGroupState. */
  function FinishUrls<U>(g: Group<U>, recs: map<U, UrlRec>, s: Stats, own: Option<map<U, bool>>): (r: (map<U, UrlRec>, Stats))
    requires (forall u :: u in g.urls ==> u in recs) && OwnFits(g, own)
    ensures r.0.Keys == recs.Keys
  {
    TurnAll(g.urls, JudgeAll(g.urls, recs, g.algorithm, g.malicious, own), s, Visited, g.code)
  }

  /** The same after `g` has ended in an error, by way of setMalicious, setUrlGroupState and update. */
  function FailUrls<U>(g: Group<U>, recs: map<U, UrlRec>, s: Stats, own: Option<map<U, bool>>): (r: (map<U, UrlRec>, Stats))
    requires (forall u :: u in g.urls ==> u in recs) && OwnFits(g, own)
    ensures r.0.Keys == recs.Keys
  {
    var turned := TurnAll(g.urls, JudgeAll(g.urls, recs, g.algorithm, g.malicious, own), s, Error, g.code);
    FailAll(g.urls, turned.0, turned.1, g.code)
  }

  /** The same after `g` has ended in an error before its visit: nothing has been said about its URLs. */
  function DropUrls<U>(g: Group<U>, recs: map<U, UrlRec>, s: Stats): (r: (map<U, UrlRec>, Stats))
    requires forall u :: u in g.urls ==> u in recs
    ensures r.0.Keys == recs.Keys
  {
    var turned := TurnAll(g.urls, recs, s, Error, g.code);
    FailAll(g.urls, turned.0, turned.1, g.code)
  }

  function Started<U>(w: World<U>, i: nat, algorithm: Algorithm): World<U>
    requires WellFormed(w) && i < |w.taken|
  {
    var g := Begun(w.taken[i], algorithm);
    assert w.taken[i] in GroupsOf(w);
    var turned := TurnAll(g.urls, w.recs, w.stats, Visiting, g.code);
    w.(recs := turned.0, stats := turned.1, taken := Without(w.taken, i), visiting := w.visiting + [g])
  }

  function Finished<U>(w: World<U>, i: nat, malicious: bool, own: Option<map<U, bool>>): World<U>
    requires WellFormed(w) && i < |w.visiting| && OwnFits(w.visiting[i], own)
  {
    var g := FinishedGroup(w.visiting[i], malicious);
    assert w.visiting[i] in GroupsOf(w);
    var turned := FinishUrls(g, w.recs, w.stats, own);
    w.(recs := turned.0, stats := turned.1, visiting := Without(w.visiting, i), visited := w.visited + [g],
       queue := Requeued(g) + w.queue)
  }

  function Failed<U>(w: World<U>, i: nat, malicious: bool, own: Option<map<U, bool>>, code: int): World<U>
    requires WellFormed(w) && i < |w.visiting| && OwnFits(w.visiting[i], own)
  {
    var g := FailedGroup(w.visiting[i], malicious, code);
    assert w.visiting[i] in GroupsOf(w);
    var turned := FailUrls(g, w.recs, w.stats, own);
    w.(recs := turned.0, stats := turned.1, visiting := Without(w.visiting, i), queue := Retried(g) + w.queue)
  }

  function Dropped<U>(w: World<U>, i: nat, code: int): World<U>
    requires WellFormed(w) && i < |w.taken|
  {
    var g := FailedGroup(w.taken[i], w.taken[i].malicious, code);
    assert w.taken[i] in GroupsOf(w);
    var turned := DropUrls(g, w.recs, w.stats);
    w.(recs := turned.0, stats := turned.1, taken := Without(w.taken, i), queue := Retried(g) + w.queue)
  }

  function Next<U>(w: World<U>, step: Step<U>): World<U>
    requires WellFormed(w) && Enabled(w, step)
  {
    match step
    case TakeNew(groupSize) =>
      var n := BatchSize(groupSize, |w.waiting|);
      w.(waiting := w.waiting[n..], taken := w.taken + [NewGroup(w.waiting[..n], true)])
    case TakeOld =>
      w.(queue := w.queue[1..], taken := w.taken + [w.queue[0]])
    case Start(i, algorithm) => Started(w, i, algorithm)
    case Finish(i, malicious, own) => Finished(w, i, malicious, own)
    case Fail(i, malicious, own, code) => Failed(w, i, malicious, own, code)
    case Drop(i, code) => Dropped(w, i, code)
    case UrlCode(u, code) => w.(recs := w.recs[u := w.recs[u].(code := Code(code))])
  }

  // ---------------------------------------------------------------- the invariant of every step

  lemma InWithout<T>(s: seq<T>, i: nat, x: T)
    requires i < |s| && x in Without(s, i)
    ensures x in s
  {
  }

  lemma HalvesSplit<U>(g: Group<U>)
    requires |g.urls| > 1
    ensures FirstHalf(g.urls) + SecondHalf(g.urls) == g.urls
    ensures 0 < |FirstHalf(g.urls)| < |g.urls| && 0 < |SecondHalf(g.urls)| < |g.urls|
  {
  }

  /** What an end of a visit puts on the queue is made of the group's own URLs. */
  lemma RequeuedFits<U>(g: Group<U>, h: Group<U>)
    requires |g.urls| > 0 && (h in Requeued(g) || h in Retried(g))
    ensures |h.urls| > 0 && h.errors <= 1 && forall u :: u in h.urls ==> u in g.urls
  {
    if |g.urls| > 1 {
      HalvesSplit(g);
    }
  }

  /** Every step keeps the groups non-empty, retried at most once, and made of known URLs. */
  lemma StepKeepsWellFormed<U>(w: World<U>, step: Step<U>)
    requires WellFormed(w) && Enabled(w, step)
    ensures WellFormed(Next(w, step)) && Next(w, step).recs.Keys == w.recs.Keys
  {
    hide Requeued, Retried, TurnAll, FailAll, JudgeAll, Without;
    var w' := Next(w, step);
    forall h | h in GroupsOf(w')
      ensures |h.urls| > 0 && h.errors <= 1 && forall u :: u in h.urls ==> u in w.recs
    {
      if h !in GroupsOf(w) {
        NewGroupFits(w, step, h);
      }
    }
  }

  lemma NewGroupFits<U>(w: World<U>, step: Step<U>, h: Group<U>)
    requires WellFormed(w) && Enabled(w, step) && h in GroupsOf(Next(w, step)) && h !in GroupsOf(w)
    ensures |h.urls| > 0 && h.errors <= 1 && forall u :: u in h.urls ==> u in w.recs
  {
    hide Requeued, Retried, TurnAll, FailAll, JudgeAll, Turn;
    match step
    case TakeNew(groupSize) =>
      assert forall u :: u in h.urls ==> u in w.waiting;
    case TakeOld =>
    case Start(i, _) =>
      assert w.taken[i] in GroupsOf(w);
    case Finish(i, malicious, _) =>
      assert w.visiting[i] in GroupsOf(w);
      RequeuedFits(FinishedGroup(w.visiting[i], malicious), h);
    case Fail(i, malicious, _, code) =>
      assert w.visiting[i] in GroupsOf(w);
      RequeuedFits(FailedGroup(w.visiting[i], malicious, code), h);
    case Drop(i, code) =>
      assert w.taken[i] in GroupsOf(w);
      RequeuedFits(FailedGroup(w.taken[i], w.taken[i].malicious, code), h);
    case UrlCode(_, _) =>
  }

  // ---------------------------------------------------------------- no URL is lost or duplicated

  function Bag<U>(gs: seq<Group<U>>): multiset<U>
  {
    if gs == [] then multiset{} else multiset(gs[0].urls) + Bag(gs[1..])
  }

  /** The URLs that wait or are in some group not yet done with. */
  function Pending<U>(w: World<U>): multiset<U>
  {
    multiset(w.waiting) + Bag(w.queue) + Bag(w.taken) + Bag(w.visiting)
  }

  lemma {:induction false} BagAppend<U>(a: seq<Group<U>>, b: seq<Group<U>>)
    ensures Bag(a + b) == Bag(a) + Bag(b)
  {
    if a == [] {
      assert a + b == b;
    } else {
      assert (a + b)[0] == a[0] && (a + b)[1..] == a[1..] + b;
      BagAppend(a[1..], b);
    }
  }

  lemma BagWithout<U>(gs: seq<Group<U>>, i: nat)
    requires i < |gs|
    ensures Bag(gs) == Bag(Without(gs, i)) + multiset(gs[i].urls)
  {
    hide Bag;
    assert gs == gs[..i] + ([gs[i]] + gs[i + 1..]);
    BagAppend(gs[..i], [gs[i]] + gs[i + 1..]);
    BagAppend(gs[..i], gs[i + 1..]);
    BagOne(gs[i], gs[i + 1..]);
  }

  lemma BagOne<U>(g: Group<U>, rest: seq<Group<U>>)
    ensures Bag([g] + rest) == multiset(g.urls) + Bag(rest)
  {
    assert ([g] + rest)[1..] == rest;
  }

  lemma BagOf<U>(g: Group<U>)
    ensures Bag([g]) == multiset(g.urls)
  {
    BagOne(g, []);
    assert [g] + [] == [g];
  }

  lemma BagHalves<U>(g: Group<U>)
    requires |g.urls| > 1
    ensures Bag(Halves(g)) == multiset(g.urls)
  {
    HalvesSplit(g);
    var second, first := NewGroup(SecondHalf(g.urls), false), NewGroup(FirstHalf(g.urls), false);
    BagOne(second, [first]);
    BagOf(first);
    assert [second] + [first] == Halves(g);
    assert multiset(FirstHalf(g.urls) + SecondHalf(g.urls)) == multiset(FirstHalf(g.urls)) + multiset(SecondHalf(g.urls));
  }

  /** The steps after which the server no longer counts on the client that has the group. */
  predicate Ends<U>(step: Step<U>)
  {
    step.Finish? || step.Fail? || step.Drop?
  }

  /** The group the step takes from its client. */
  function Leaving<U>(w: World<U>, step: Step<U>): Group<U>
    requires Enabled(w, step) && Ends(step)
  {
    if step.Drop? then w.taken[step.i] else w.visiting[step.i]
  }

  /** That group as update sees it. */
  function Ended<U>(w: World<U>, step: Step<U>): Group<U>
    requires Enabled(w, step) && Ends(step)
  {
    var g := Leaving(w, step);
    match step
    case Finish(_, malicious, _) => FinishedGroup(g, malicious)
    case Fail(_, malicious, _, code) => FailedGroup(g, malicious, code)
    case Drop(_, code) => FailedGroup(g, g.malicious, code)
  }

  /** The groups the step puts on the queue. */
  function Pushed<U>(w: World<U>, step: Step<U>): seq<Group<U>>
    requires Enabled(w, step) && Ends(step)
  {
    if step.Finish? then Requeued(Ended(w, step)) else Retried(Ended(w, step))
  }

  /** The URLs the server is done with after the step. */
  function Settled<U>(w: World<U>, step: Step<U>): multiset<U>
    requires Enabled(w, step)
  {
    if Ends(step) && Pushed(w, step) == [] then multiset(Leaving(w, step).urls) else multiset{}
  }

  lemma PushedBag<U>(w: World<U>, step: Step<U>)
    requires Enabled(w, step) && Ends(step)
    ensures Bag(Pushed(w, step)) + Settled(w, step) == multiset(Leaving(w, step).urls)
  {
    var g := Ended(w, step);
    if Splits(g) {
      BagHalves(g);
    } else if Pushed(w, step) != [] {
      BagOf(g);
    }
  }

  lemma TakenBag<U>(w: World<U>, n: nat)
    requires n <= |w.waiting|
    ensures multiset(w.waiting[n..]) + multiset(w.waiting[..n]) == multiset(w.waiting)
  {
    assert w.waiting[..n] + w.waiting[n..] == w.waiting;
  }

  lemma TakeConserves<U>(w: World<U>, step: Step<U>)
    requires WellFormed(w) && Enabled(w, step) && (step.TakeNew? || step.TakeOld?)
    ensures Pending(Next(w, step)) == Pending(w)
  {
    hide Bag, WellFormed;
    if step.TakeNew? {
      var n := BatchSize(step.groupSize, |w.waiting|);
      var g := NewGroup(w.waiting[..n], true);
      TakenBag(w, n);
      BagAppend(w.taken, [g]);
      BagOf(g);
    } else {
      BagAppend(w.taken, [w.queue[0]]);
      BagOf(w.queue[0]);
      assert w.queue == [w.queue[0]] + w.queue[1..];
      BagOne(w.queue[0], w.queue[1..]);
    }
  }

  lemma StartConserves<U>(w: World<U>, step: Step<U>)
    requires WellFormed(w) && Enabled(w, step) && step.Start?
    ensures Pending(Next(w, step)) == Pending(w)
  {
    hide Bag, Without, TurnAll;
    var g := Begun(w.taken[step.i], step.algorithm);
    BagWithout(w.taken, step.i);
    BagAppend(w.visiting, [g]);
    BagOf(g);
  }

  /** The groups after the step. */
  lemma EndGroups<U>(w: World<U>, step: Step<U>)
    requires WellFormed(w) && Enabled(w, step) && Ends(step)
    ensures var w' := Next(w, step);
      && w'.waiting == w.waiting && w'.queue == Pushed(w, step) + w.queue
      && w'.taken == (if step.Drop? then Without(w.taken, step.i) else w.taken)
      && w'.visiting == (if step.Drop? then w.visiting else Without(w.visiting, step.i))
  {
    hide Without, Requeued, Retried, TurnAll, FailAll, JudgeAll;
  }

  lemma EndConserves<U>(w: World<U>, step: Step<U>)
    requires WellFormed(w) && Enabled(w, step) && Ends(step)
    ensures Pending(Next(w, step)) + Settled(w, step) == Pending(w)
  {
    hide Bag, Without, Next, Pushed, Settled;
    EndGroups(w, step);
    BagWithout(if step.Drop? then w.taken else w.visiting, step.i);
    BagAppend(Pushed(w, step), w.queue);
    PushedBag(w, step);
  }

  /** Every URL pending before a step is pending after it or settled by it, exactly as often. */
  lemma StepConserves<U>(w: World<U>, step: Step<U>)
    requires WellFormed(w) && Enabled(w, step)
    ensures Pending(Next(w, step)) + Settled(w, step) == Pending(w)
  {
    if step.TakeNew? || step.TakeOld? {
      hide Pending, Next;
      TakeConserves(w, step);
    } else if step.Start? {
      hide Pending, Next;
      StartConserves(w, step);
    } else if step.UrlCode? {
    } else {
      hide Pending, Next, Settled;
      EndConserves(w, step);
    }
  }

  // ---------------------------------------------------------------- runs

  predicate Run<U>(w: World<U>, steps: seq<Step<U>>)
    requires WellFormed(w)
    decreases steps
  {
    if steps == [] then
      true
    else
      Enabled(w, steps[0]) && (StepKeepsWellFormed(w, steps[0]); Run(Next(w, steps[0]), steps[1..]))
  }

  function After<U>(w: World<U>, steps: seq<Step<U>>): (w': World<U>)
    requires WellFormed(w) && Run(w, steps)
    ensures WellFormed(w')
    decreases steps
  {
    if steps == [] then
      w
    else
      StepKeepsWellFormed(w, steps[0]);
      After(Next(w, steps[0]), steps[1..])
  }

  /** All URLs settled in the course of a run. */
  function AllSettled<U>(w: World<U>, steps: seq<Step<U>>): multiset<U>
    requires WellFormed(w) && Run(w, steps)
    decreases steps
  {
    if steps == [] then
      multiset{}
    else
      StepKeepsWellFormed(w, steps[0]);
      Settled(w, steps[0]) + AllSettled(Next(w, steps[0]), steps[1..])
  }

  /** Over any run every URL is settled once or still pending. */
  lemma {:induction false} RunConserves<U>(w: World<U>, steps: seq<Step<U>>)
    requires WellFormed(w) && Run(w, steps)
    ensures AllSettled(w, steps) + Pending(After(w, steps)) == Pending(w)
    decreases steps
  {
    hide Pending, Settled, Next, Enabled;
    if steps != [] {
      StepKeepsWellFormed(w, steps[0]);
      StepConserves(w, steps[0]);
      RunConserves(Next(w, steps[0]), steps[1..]);
    }
  }
}
