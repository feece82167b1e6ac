/**
 The server's scheduler objects as they are: URLs, the statistics, groups, and the controller that
 queues them. The controller's state is a World of UrlJobs, and each of its operations takes the step
 of that World it is named after.
 */
module UrlGroups {
  import opened Basics
  import opened UrlEffects
  import opened UrlJobs

  const CAPTURE_CLIENT_INACTIVITY := 0x10004000
  const VM_STALLED := 0x10004100
  const CAPTURE_CLIENT_CONNECTION_RESET := 0x10004200

  /** The static counters of Stats. */
  class Counters {
    var visiting: nat
    var visited: nat
    var safe: nat
    var malicious: nat
    var urlError: nat

    constructor ()
      ensures Value() == Stats(0, 0, 0, 0, 0)
    {
      visiting, visited, safe, malicious, urlError := 0, 0, 0, 0, 0;
    }

    function Value(): Stats
      reads this
    {
      Stats(visiting, visited, safe, malicious, urlError)
    }
  }

  class Url {
    var stage: Stage
    var verdict: Verdict
    var code: int

    constructor ()
      ensures Rec() == UrlRec(Idle, Unknown, OK)
    {
      stage, verdict, code := Idle, Unknown, OK;
    }

    function Rec(): UrlRec
      reads this
    {
      UrlRec(stage, verdict, code)
    }

    method SetUrlState(stats: Counters, to: Stage)
      modifies this`stage, stats
      ensures (Rec(), stats.Value()) == Turn(old(Rec()), old(stats.Value()), to)
      ensures stage == to && (old(stage) == to ==> stats.Value() == old(stats.Value()))
      ensures old(stage) != to ==>
        && stats.visiting == old(stats.visiting) + (if to == Visiting then 1 else 0)
        && stats.visited == old(stats.visited) + (if to == Visited then 1 else 0)
        && stats.safe == old(stats.safe) + (if to == Visited && verdict == Known(false) then 1 else 0)
        && stats.malicious == old(stats.malicious) + (if (to == Visited || to == Error) && verdict == Known(true) then 1 else 0)
        && stats.urlError == old(stats.urlError) + (if to == Error && verdict != Unknown then 1 else 0)
    {
      if stage == to {
        return;
      }
      stage := to;
      if stage == Visiting {
        stats.visiting := stats.visiting + 1;
      } else if stage == Visited {
        stats.visited := stats.visited + 1;
        if verdict != Unknown && verdict.malicious {
          stats.malicious := stats.malicious + 1;
        } else if verdict != Unknown && !verdict.malicious {
          stats.safe := stats.safe + 1;
        }
      } else if stage == Error {
        if verdict != Unknown {
          if verdict.malicious {
            stats.malicious := stats.malicious + 1;
          }
          stats.urlError := stats.urlError + 1;
        }
      }
    }

    method SetMalicious(malicious: bool)
      modifies this`verdict
      ensures Rec() == old(Rec()).(verdict := Known(malicious))
    {
      verdict := Known(malicious);
    }

    method SetMajorErrorCode(majorErrorCode: int)
      modifies this`code
      ensures Rec() == old(Rec()).(code := Code(majorErrorCode))
      ensures code == if majorErrorCode in ERROR_CODES then majorErrorCode else 0x10006000
    {
      code := if majorErrorCode in ERROR_CODES then majorErrorCode else INVALID_ERROR_CODE_FROM_CLIENT;
    }
  }

  function Recs(all: set<Url>): (m: map<Url, UrlRec>)
    reads all
    ensures m.Keys == all
  {
    map u | u in all :: u.Rec()
  }

  class UrlGroup {
    const urlList: seq<Url>
    var initial: bool
    var stage: Stage
    var errorCount: nat
    var malicious: bool
    var majorErrorCode: int
    var algorithm: Algorithm

    constructor (urlList: seq<Url>, initial: bool)
      requires urlList != []
      ensures Value() == NewGroup(urlList, initial)
    {
      this.urlList, this.initial := urlList, initial;
      stage, errorCount, malicious, majorErrorCode, algorithm := Idle, 0, false, OK, Seq;
    }

    function Value(): Group<Url>
      reads this
    {
      Group(urlList, initial, stage, algorithm, malicious, errorCount, majorErrorCode)
    }

    /** The body of setUrlGroupState's loop. */
    method TurnUrl(url: Url, stats: Counters, ghost all: set<Url>)
      requires url in all
      modifies url, stats
      ensures var one := GroupTurn(old(Recs(all))[url], old(stats.Value()), stage, majorErrorCode);
        Recs(all) == old(Recs(all))[url := one.0] && stats.Value() == one.1
    {
      hide Turn;
      if stage == Visiting {
        url.SetUrlState(stats, Visiting);
      } else if stage == Visited {
        if url.code == OK {
          url.SetUrlState(stats, Visited);
        } else {
          url.SetUrlState(stats, Error);
        }
      } else if stage == Error {
        if url.code == OK {
          url.SetMajorErrorCode(majorErrorCode);
        }
        url.SetUrlState(stats, Error);
      }
    }

    /** setUrlGroupState up to its notification of the controller. */
    method SetUrlGroupState(stats: Counters, newState: Stage, ghost all: set<Url>)
      requires forall u :: u in urlList ==> u in all
      modifies this`stage, this`errorCount, urlList, stats
      ensures Value() == old(Value()).(stage := newState, errors := old(errorCount) + (if newState.Error? then 1 else 0))
      ensures (Recs(all), stats.Value()) == TurnAll(urlList, old(Recs(all)), old(stats.Value()), newState, majorErrorCode)
      ensures forall u :: u in all && u !in urlList ==> Recs(all)[u] == old(Recs(all))[u]
      ensures forall u :: u in urlList ==>
        var r := old(Recs(all))[u];
        Recs(all)[u] == (
          if newState == Visiting then r.(stage := Visiting)
          else if newState == Visited then r.(stage := if r.code == 0 then Visited else Error)
          else if newState == Error then r.(stage := Error, code := if r.code == 0 then Code(majorErrorCode) else r.code)
          else r)
    {
      hide TurnAll, Turn, GroupTurn, Recs, Code;
      stage := newState;
      if stage == Error {
        errorCount := errorCount + 1;
      }
      ghost var code := majorErrorCode;
      assert urlList[0..] == urlList;
      for i := 0 to |urlList|
        invariant TurnAll(urlList[i..], Recs(all), stats.Value(), newState, code)
               == TurnAll(urlList, old(Recs(all)), old(stats.Value()), newState, code)
        invariant Recs(all).Keys == all
        modifies urlList, stats
      {
        var url := urlList[i];
        ghost var recs, s := Recs(all), stats.Value();
        assert urlList[i..][1..] == urlList[i + 1..] && urlList[i..][0] == url;
        TurnUrl(url, stats, all);
        TurnOne(urlList[i..], recs, s, newState, code);
      }
      TurnNone(Recs(all), stats.Value(), newState, code);
      TurnAllEffect(urlList, old(Recs(all)), old(stats.Value()), newState, code);
    }

    /** The loop of setMalicious on a harmless visit. */
    method SetMaliciousAll(ghost all: set<Url>)
      modifies urlList
      ensures Recs(all) == JudgeAll(urlList, old(Recs(all)), Dac, false, None)
    {
      for i := 0 to |urlList|
        invariant forall u :: u in all ==> u.Rec() == if u in urlList[..i] then old(u.Rec()).(verdict := Known(false)) else old(u.Rec())
      {
        urlList[i].SetMalicious(false);
      }
    }

    /** The loop of setMalicious under bulk. */
    method SetMaliciousOwn(malicious: bool, own: Option<map<Url, bool>>, ghost all: set<Url>)
      requires own.Some? ==> forall u :: u in urlList ==> u in own.value
      modifies urlList
      ensures Recs(all) == JudgeAll(urlList, old(Recs(all)), Bulk, malicious, own)
    {
      for i := 0 to |urlList|
        invariant forall u :: u in all ==>
          u.Rec() == if u in urlList[..i] then Judged(old(u.Rec()), u, |urlList|, Bulk, malicious, own) else old(u.Rec())
      {
        var url := urlList[i];
        if own == None {
          url.SetMalicious(malicious);
        } else {
          url.SetMalicious(own.value[url]);
        }
      }
    }

    method SetMaliciousOnly(ghost all: set<Url>)
      requires |urlList| == 1
      modifies urlList
      ensures Recs(all) == JudgeAll(urlList, old(Recs(all)), Dac, true, None)
    {
      urlList[0].SetMalicious(true);
    }

    method SetMalicious(algorithm: Algorithm, malicious: bool, own: Option<map<Url, bool>>, ghost all: set<Url>)
      requires algorithm.Bulk? && own.Some? ==> forall u :: u in urlList ==> u in own.value
      modifies this`malicious, urlList
      ensures Value() == old(Value()).(malicious := malicious)
      ensures Recs(all) == JudgeAll(urlList, old(Recs(all)), algorithm, malicious, own)
      ensures forall u :: u in all && u !in urlList ==> Recs(all)[u] == old(Recs(all))[u]
      ensures forall u :: u in all && u in urlList ==>
        Recs(all)[u] == old(Recs(all))[u].(verdict :=
          if algorithm == Bulk then Known(if own.Some? then own.value[u] else malicious)
          else if !malicious then Known(false)
          else if |urlList| == 1 then Known(true)
          else old(Recs(all))[u].verdict)
    {
      hide JudgeAll, Recs;
      JudgeAllEffect(urlList, Recs(all), algorithm, malicious, own);
      this.malicious := malicious;
      if algorithm != Bulk {
        JudgedWithoutBulk(urlList, Recs(all), algorithm, malicious, own);
        if !this.malicious {
          SetMaliciousAll(all);
        } else if |urlList| == 1 {
          SetMaliciousOnly(all);
        }
      } else {
        SetMaliciousOwn(malicious, own, all);
      }
    }

    method SetMajorErrorCode(majorErrorCode: int)
      modifies this`majorErrorCode
      ensures Value() == old(Value()).(code := Code(majorErrorCode))
      ensures this.majorErrorCode == if majorErrorCode in ERROR_CODES then majorErrorCode else 0x10006000
    {
      this.majorErrorCode := if majorErrorCode in ERROR_CODES then majorErrorCode else INVALID_ERROR_CODE_FROM_CLIENT;
    }
  }

  /** The verdicts setMalicious gives. */
  lemma JudgeAllEffect(urls: seq<Url>, recs: map<Url, UrlRec>, algorithm: Algorithm, malicious: bool, own: Option<map<Url, bool>>)
    requires algorithm.Bulk? && own.Some? ==> forall u :: u in urls ==> u in own.value
    ensures forall u :: u in recs ==>
      JudgeAll(urls, recs, algorithm, malicious, own)[u] == (
        if u !in urls then recs[u]
        else recs[u].(verdict :=
          if algorithm == Bulk then Known(if own.Some? then own.value[u] else malicious)
          else if !malicious then Known(false)
          else if |urls| == 1 then Known(true)
          else recs[u].verdict))
  {
  }

  /** Without bulk, the map of own state changes is not looked at; a malicious visit of several URLs tells nothing. */
  lemma JudgedWithoutBulk(urls: seq<Url>, recs: map<Url, UrlRec>, algorithm: Algorithm, malicious: bool, own: Option<map<Url, bool>>)
    requires !algorithm.Bulk?
    ensures JudgeAll(urls, recs, algorithm, malicious, own) == JudgeAll(urls, recs, Dac, malicious, None)
    ensures malicious && |urls| != 1 ==> JudgeAll(urls, recs, Dac, malicious, None) == recs
  {
  }

  lemma TurnNone(recs: map<Url, UrlRec>, s: Stats, to: Stage, code: int)
    ensures forall urls: seq<Url> :: |urls| == 0 ==> TurnAll(urls, recs, s, to, code) == (recs, s)
  {
  }

  lemma TurnOne(urls: seq<Url>, recs: map<Url, UrlRec>, s: Stats, to: Stage, code: int)
    requires urls != [] && forall u :: u in urls ==> u in recs
    ensures var one := GroupTurn(recs[urls[0]], s, to, code);
      TurnAll(urls, recs, s, to, code) == TurnAll(urls[1..], recs[urls[0] := one.0], one.1, to, code)
  {
  }

  // ---------------------------------------------------------------- the controller

  /** The loop of update that halves a group. */
  method Halve(urls: seq<Url>) returns (urls1: seq<Url>, urls2: seq<Url>)
    ensures urls1 == FirstHalf(urls) && urls2 == SecondHalf(urls)
  {
    urls1, urls2 := [], [];
    var b := |urls| / 2;
    for i := 0 to |urls|
      invariant urls1 == if i < b then urls[..i] else urls[..b]
      invariant urls2 == if i < b then [] else urls[b..i]
    {
      if i < b {
        urls1 := urls1 + [urls[i]];
      } else {
        urls2 := urls2 + [urls[i]];
      }
    }
  }

  /** Where a list holds a group for the first time, if it does. */
  predicate FoundAt(list: seq<UrlGroup>, group: UrlGroup, at: Option<nat>)
  {
    if at.Some? then at.value < |list| && list[at.value] == group && group !in list[..at.value] else group !in list
  }

  function Removed(list: seq<UrlGroup>, at: Option<nat>): seq<UrlGroup>
    requires at.Some? ==> at.value < |list|
  {
    if at.Some? then Without(list, at.value) else list
  }

  /** List.remove: the first occurrence, if there is one. */
  method Remove(list: seq<UrlGroup>, group: UrlGroup, ghost at: Option<nat>) returns (rest: seq<UrlGroup>)
    requires FoundAt(list, group, at)
    ensures rest == Removed(list, at)
  {
    for i := 0 to |list|
      invariant group !in list[..i]
    {
      if list[i] == group {
        return list[..i] + list[i + 1..];
      }
    }
    rest := list;
  }

  /** The two groups a split makes of a group, or none if it is not split. */
  ghost predicate AreHalves(halves: seq<UrlGroup>, group: UrlGroup)
    reads halves, group
  {
    if Splits(group.Value()) then
      |halves| == 2 && halves[0] != halves[1] && [halves[0].Value(), halves[1].Value()] == Halves(group.Value())
    else
      halves == []
  }

  // ---------------------------------------------------------------- the values of lists of groups

  /** What the groups of a list are. */
  ghost function Values(gs: seq<UrlGroup>): (vs: seq<Group<Url>>)
    reads gs
    ensures |vs| == |gs|
  {
    seq(|gs|, i requires 0 <= i < |gs| reads gs => gs[i].Value())
  }

  lemma ValuesAppend(gs: seq<UrlGroup>, hs: seq<UrlGroup>)
    ensures Values(gs + hs) == Values(gs) + Values(hs)
  {
  }

  lemma ValuesOne(g: UrlGroup)
    ensures Values([g]) == [g.Value()]
  {
  }

  lemma ValuesWithout(gs: seq<UrlGroup>, i: nat)
    requires i < |gs|
    ensures Values(gs)[i] == gs[i].Value()
    ensures Values(Without(gs, i)) == Without(Values(gs), i)
  {
  }

  lemma ValuesOfHalves(halves: seq<UrlGroup>, group: UrlGroup)
    requires AreHalves(halves, group)
    ensures Values(halves) == if Splits(group.Value()) then Halves(group.Value()) else []
    ensures halves == [] || (|halves| == 2 && halves[0] != halves[1])
  {
  }

  ghost predicate Once(m: multiset<UrlGroup>)
  {
    forall g :: g in m ==> m[g] == 1
  }

  /** No group is in two places, or in one place twice. */
  ghost predicate Apart(queue: seq<UrlGroup>, taken: seq<UrlGroup>, visiting: seq<UrlGroup>, visited: seq<UrlGroup>)
  {
    Once(multiset(queue) + multiset(taken) + multiset(visiting) + multiset(visited))
  }

  ghost predicate Nowhere(gs: seq<UrlGroup>, queue: seq<UrlGroup>, taken: seq<UrlGroup>, visiting: seq<UrlGroup>, visited: seq<UrlGroup>)
  {
    forall g :: g in gs ==> g !in queue && g !in taken && g !in visiting && g !in visited
  }

  lemma WithoutBag(gs: seq<UrlGroup>, i: nat)
    requires i < |gs|
    ensures multiset(gs) == multiset(Without(gs, i)) + multiset{gs[i]}
  {
    assert gs == gs[..i] + ([gs[i]] + gs[i + 1..]);
  }

  lemma NotAgain(m: multiset<UrlGroup>, rest: multiset<UrlGroup>, g: UrlGroup)
    requires Once(m) && m == rest + multiset{g}
    ensures g !in rest
  {
    assert m[g] == rest[g] + 1;
  }

  /** A group is in no other place than the one it is in. */
  lemma OnePlaceTaken(queue: seq<UrlGroup>, taken: seq<UrlGroup>, visiting: seq<UrlGroup>, visited: seq<UrlGroup>, i: nat)
    requires Apart(queue, taken, visiting, visited) && i < |taken|
    ensures taken[i] !in queue && taken[i] !in Without(taken, i) && taken[i] !in visiting && taken[i] !in visited
  {
    WithoutBag(taken, i);
    NotAgain(multiset(queue) + multiset(taken) + multiset(visiting) + multiset(visited),
             multiset(queue) + multiset(Without(taken, i)) + multiset(visiting) + multiset(visited), taken[i]);
  }

  lemma OnePlaceVisiting(queue: seq<UrlGroup>, taken: seq<UrlGroup>, visiting: seq<UrlGroup>, visited: seq<UrlGroup>, i: nat)
    requires Apart(queue, taken, visiting, visited) && i < |visiting|
    ensures visiting[i] !in queue && visiting[i] !in taken && visiting[i] !in Without(visiting, i) && visiting[i] !in visited
    ensures FoundAt(visiting, visiting[i], Some(i))
  {
    WithoutBag(visiting, i);
    NotAgain(multiset(queue) + multiset(taken) + multiset(visiting) + multiset(visited),
             multiset(queue) + multiset(taken) + multiset(Without(visiting, i)) + multiset(visited), visiting[i]);
    forall j | 0 <= j < i
      ensures visiting[j] != visiting[i]
    {
      assert Without(visiting, i)[j] == visiting[j];
    }
  }

  /** The step Start moves a group. */
  lemma ApartStart(queue: seq<UrlGroup>, taken: seq<UrlGroup>, visiting: seq<UrlGroup>, visited: seq<UrlGroup>, i: nat)
    requires Apart(queue, taken, visiting, visited) && i < |taken|
    ensures Apart(queue, Without(taken, i), visiting + [taken[i]], visited)
  {
    WithoutBag(taken, i);
    assert multiset(queue) + multiset(Without(taken, i)) + multiset(visiting + [taken[i]]) + multiset(visited)
        == multiset(queue) + multiset(taken) + multiset(visiting) + multiset(visited);
  }

  lemma ApartTakeOld(queue: seq<UrlGroup>, taken: seq<UrlGroup>, visiting: seq<UrlGroup>, visited: seq<UrlGroup>)
    requires Apart(queue, taken, visiting, visited) && queue != []
    ensures Apart(queue[1..], taken + [queue[0]], visiting, visited)
  {
    WithoutBag(queue, 0);
    assert Without(queue, 0) == queue[1..];
    assert multiset(queue[1..]) + multiset(taken + [queue[0]]) + multiset(visiting) + multiset(visited)
        == multiset(queue) + multiset(taken) + multiset(visiting) + multiset(visited);
  }

  lemma OnceMore(m: multiset<UrlGroup>, g: UrlGroup)
    requires Once(m) && g !in m
    ensures Once(m + multiset{g})
  {
  }

  lemma ApartTakeNew(queue: seq<UrlGroup>, taken: seq<UrlGroup>, visiting: seq<UrlGroup>, visited: seq<UrlGroup>, g: UrlGroup)
    requires Apart(queue, taken, visiting, visited) && Nowhere([g], queue, taken, visiting, visited)
    ensures Apart(queue, taken + [g], visiting, visited)
  {
    assert g in [g];
    var m := multiset(queue) + multiset(taken) + multiset(visiting) + multiset(visited);
    OnceMore(m, g);
    assert multiset(queue) + multiset(taken + [g]) + multiset(visiting) + multiset(visited) == m + multiset{g};
  }

  /** A new group on top of the queue. */
  lemma ApartPush(queue: seq<UrlGroup>, taken: seq<UrlGroup>, visiting: seq<UrlGroup>, visited: seq<UrlGroup>, g: UrlGroup)
    requires Apart(queue, taken, visiting, visited) && Nowhere([g], queue, taken, visiting, visited)
    ensures Apart([g] + queue, taken, visiting, visited)
  {
    assert g in [g];
    var m := multiset(queue) + multiset(taken) + multiset(visiting) + multiset(visited);
    OnceMore(m, g);
    assert multiset([g] + queue) + multiset(taken) + multiset(visiting) + multiset(visited) == m + multiset{g};
  }

  /** The halves of a group, none or two new ones, on top of the queue. */
  lemma ApartHalves(halves: seq<UrlGroup>, queue: seq<UrlGroup>, taken: seq<UrlGroup>, visiting: seq<UrlGroup>, visited: seq<UrlGroup>)
    requires Apart(queue, taken, visiting, visited) && Nowhere(halves, queue, taken, visiting, visited)
    requires halves == [] || (|halves| == 2 && halves[0] != halves[1])
    ensures Apart(halves + queue, taken, visiting, visited)
  {
    if halves == [] {
      assert halves + queue == queue;
    } else {
      assert halves[0] in halves && halves[1] in halves;
      ApartPush(queue, taken, visiting, visited, halves[1]);
      ApartPush([halves[1]] + queue, taken, visiting, visited, halves[0]);
      assert halves + queue == [halves[0]] + ([halves[1]] + queue);
    }
  }

  /** A group leaves visitingList for good, or for visitedList. */
  lemma ApartLeave(queue: seq<UrlGroup>, taken: seq<UrlGroup>, visiting: seq<UrlGroup>, visited: seq<UrlGroup>, i: nat)
    requires Apart(queue, taken, visiting, visited) && i < |visiting|
    ensures Apart(queue, taken, Without(visiting, i), visited) && Apart(queue, taken, Without(visiting, i), visited + [visiting[i]])
  {
    WithoutBag(visiting, i);
    var m := multiset(queue) + multiset(taken) + multiset(visiting) + multiset(visited);
    assert multiset(queue) + multiset(taken) + multiset(Without(visiting, i)) + multiset(visited + [visiting[i]]) == m;
    OnceLess(m, multiset(queue) + multiset(taken) + multiset(Without(visiting, i)) + multiset(visited));
  }

  lemma OnceLess(m: multiset<UrlGroup>, n: multiset<UrlGroup>)
    requires Once(m) && n <= m
    ensures Once(n)
  {
    forall g | g in n
      ensures n[g] == 1
    {
      assert g in m && n[g] <= m[g];
    }
  }

  /** A group leaves its client before its visit. */
  lemma ApartDrop(queue: seq<UrlGroup>, taken: seq<UrlGroup>, visiting: seq<UrlGroup>, visited: seq<UrlGroup>, i: nat)
    requires Apart(queue, taken, visiting, visited) && i < |taken|
    ensures Apart(queue, Without(taken, i), visiting, visited)
  {
    WithoutBag(taken, i);
    OnceLess(multiset(queue) + multiset(taken) + multiset(visiting) + multiset(visited),
             multiset(queue) + multiset(Without(taken, i)) + multiset(visiting) + multiset(visited));
  }

  class UrlGroupsController {
    const stats: Counters
    // the URLs still in UrlsController
    var waiting: seq<Url>
    var urlGroupQueue: seq<UrlGroup>
    var visitingList: seq<UrlGroup>
    var visitedList: seq<UrlGroup>
    // all URLs there are
    ghost const all: set<Url>

    /** The scheduler as a state of UrlJobs; `taken` are the groups clients hold whose visit has not begun. */
    ghost function World(taken: seq<UrlGroup>): World<Url>
      reads this, stats, all, urlGroupQueue, taken, visitingList, visitedList
    {
      UrlJobs.World(Recs(all), stats.Value(), waiting, Values(urlGroupQueue), Values(taken), Values(visitingList), Values(visitedList))
    }

    /** Every group is in one place, and the state satisfies the invariant of the steps. */
    ghost predicate Valid(taken: seq<UrlGroup>)
      reads this, stats, all, urlGroupQueue, taken, visitingList, visitedList
    {
      Apart(urlGroupQueue, taken, visitingList, visitedList) && WellFormed(World(taken))
    }

    constructor (urls: seq<Url>)
      ensures Valid([])
      ensures World([]) == UrlJobs.World(old(Recs(set u | u in urls)), Stats(0, 0, 0, 0, 0), urls, [], [], [], [])
      ensures waiting == urls && urlGroupQueue == visitingList == visitedList == [] && all == set u | u in urls
      ensures fresh(stats) && stats.Value() == Stats(0, 0, 0, 0, 0)
    {
      stats := new Counters();
      waiting, urlGroupQueue, visitingList, visitedList := urls, [], [], [];
      all := set u | u in urls;
    }

    /** The branch of takeUrlGroup that makes a group. */
    method NewUrlGroup(groupSize: nat) returns (group: UrlGroup)
      requires waiting != []
      modifies this`waiting
      ensures var n := BatchSize(groupSize, old(|waiting|));
        fresh(group) && waiting == old(waiting)[n..] && group.Value() == NewGroup(old(waiting)[..n], true)
    {
      var initialUrlGroupSize := groupSize;
      if |waiting| < initialUrlGroupSize {
        initialUrlGroupSize := |waiting|;
      }
      if initialUrlGroupSize == 0 {
        initialUrlGroupSize := 1;
      }
      var urlList := [];
      for i := 0 to initialUrlGroupSize
        invariant urlList == old(waiting)[..i] && waiting == old(waiting)[i..]
      {
        urlList := urlList + [waiting[0]];
        waiting := waiting[1..];
      }
      group := new UrlGroup(urlList, true);
    }

    /** takeUrlGroup on the lists. */
    method NextUrlGroup(groupSize: nat) returns (group: UrlGroup)
      requires urlGroupQueue != [] || waiting != []
      modifies this`waiting, this`urlGroupQueue
      ensures old(urlGroupQueue) == [] ==>
        var n := BatchSize(groupSize, old(|waiting|));
        && waiting == old(waiting)[n..] && urlGroupQueue == []
        && fresh(group) && group.Value() == NewGroup(old(waiting)[..n], true)
      ensures old(urlGroupQueue) != [] ==>
        waiting == old(waiting) && group == old(urlGroupQueue)[0] && urlGroupQueue == old(urlGroupQueue)[1..]
    {
      if |urlGroupQueue| == 0 {
        group := NewUrlGroup(groupSize);
      } else {
        group := urlGroupQueue[0];
        urlGroupQueue := urlGroupQueue[1..];
      }
    }

    /** update's split: the second half ends on top. */
    method PushHalves(urls: seq<Url>) returns (urlGroup1: UrlGroup, urlGroup2: UrlGroup)
      requires |urls| > 1
      modifies this`urlGroupQueue
      ensures fresh(urlGroup1) && fresh(urlGroup2) && urlGroup1 != urlGroup2
      ensures urlGroup1.Value() == NewGroup(FirstHalf(urls), false) && urlGroup2.Value() == NewGroup(SecondHalf(urls), false)
      ensures urlGroupQueue == [urlGroup2, urlGroup1] + old(urlGroupQueue)
    {
      var urls1, urls2 := Halve(urls);
      urlGroup1 := new UrlGroup(urls1, false);
      urlGroupQueue := [urlGroup1] + urlGroupQueue;
      urlGroup2 := new UrlGroup(urls2, false);
      urlGroupQueue := [urlGroup2] + urlGroupQueue;
    }

    /** The loop of update over the URLs of a group that ended in an error. */
    method FailAllUrls(group: UrlGroup)
      requires forall u :: u in group.urlList ==> u in all
      modifies stats, group.urlList
      ensures (Recs(all), stats.Value()) == FailAll(group.urlList, old(Recs(all)), old(stats.Value()), group.majorErrorCode)
    {
      hide FailAll, Recs;
      ghost var urls := group.urlList;
      assert urls[0..] == urls;
      for i := 0 to |group.urlList|
        invariant Recs(all).Keys == all
        invariant FailAll(urls[i..], Recs(all), stats.Value(), group.majorErrorCode)
               == FailAll(urls, old(Recs(all)), old(stats.Value()), group.majorErrorCode)
      {
        ghost var recs, s := Recs(all), stats.Value();
        assert urls[i..][1..] == urls[i + 1..] && urls[i..][0] == group.urlList[i];
        FailUrl(group.urlList[i], group.majorErrorCode);
        FailOne(urls[i..], recs, s, group.majorErrorCode);
      }
      FailNone(Recs(all), stats.Value(), group.majorErrorCode);
    }

    /** The split both branches of update make, if they do. */
    method Split(group: UrlGroup) returns (split: bool, ghost halves: seq<UrlGroup>)
      modifies this`urlGroupQueue
      ensures split == Splits(group.Value()) && urlGroupQueue == halves + old(urlGroupQueue)
      ensures AreHalves(halves, group) && forall h :: h in halves ==> fresh(h)
    {
      split, halves := false, [];
      if group.algorithm == Dac && group.malicious && |group.urlList| > 1 {
        var urlGroup1, urlGroup2 := PushHalves(group.urlList);
        split, halves := true, [urlGroup2, urlGroup1];
      }
    }

    /** What update puts back on the queue besides halves. */
    predicate Retries(group: UrlGroup)
      reads group
    {
      group.stage == Error && !Splits(group.Value()) && group.errorCount <= 1
    }

    /** The ERROR branch of update, once the group is out of visitingList. */
    method UpdateFailed(group: UrlGroup) returns (ghost halves: seq<UrlGroup>)
      requires group.stage == Error && forall u :: u in group.urlList ==> u in all
      modifies this`urlGroupQueue, stats, group.urlList
      ensures urlGroupQueue == halves + (if Retries(group) then [group] else []) + old(urlGroupQueue)
      ensures AreHalves(halves, group) && forall h :: h in halves ==> fresh(h)
      ensures (Recs(all), stats.Value()) == FailAll(group.urlList, old(Recs(all)), old(stats.Value()), group.majorErrorCode)
    {
      hide FailAll, Recs, FirstHalf, SecondHalf;
      var split;
      split, halves := Split(group);
      FailAllUrls(group);
      var networkReset := true;
      var retry := networkReset;
      if group.majorErrorCode == VM_STALLED || group.majorErrorCode == CAPTURE_CLIENT_INACTIVITY
         || group.majorErrorCode == CAPTURE_CLIENT_CONNECTION_RESET {
        retry := true;
      }
      if !split && retry && group.errorCount <= 1 {
        urlGroupQueue := [group] + urlGroupQueue;
      }
    }

    /** update, the controller's answer to a group's change of state; `at` is where the group is in visitingList. */
    method Update(group: UrlGroup, ghost at: Option<nat>) returns (ghost halves: seq<UrlGroup>)
      requires group.stage != Idle && forall u :: u in group.urlList ==> u in all
      requires group.stage != Visiting ==> FoundAt(visitingList, group, at)
      modifies this`urlGroupQueue, this`visitingList, this`visitedList, stats, group.urlList
      ensures visitingList == if group.stage == Visiting then old(visitingList) + [group] else Removed(old(visitingList), at)
      ensures visitedList == old(visitedList) + if group.stage == Visited then [group] else []
      ensures urlGroupQueue == halves + (if Retries(group) then [group] else []) + old(urlGroupQueue)
      ensures if group.stage == Visiting then halves == [] else AreHalves(halves, group) && forall h :: h in halves ==> fresh(h)
      ensures (Recs(all), stats.Value()) ==
        if group.stage == Error then FailAll(group.urlList, old(Recs(all)), old(stats.Value()), group.majorErrorCode)
        else (old(Recs(all)), old(stats.Value()))
    {
      hide FailAll, Recs, Removed, FoundAt, FirstHalf, SecondHalf, AreHalves, Splits;
      halves := [];
      if group.stage == Visiting {
        visitingList := visitingList + [group];
      } else if group.stage == Visited {
        visitingList := Remove(visitingList, group, at);
        visitedList := visitedList + [group];
        var split;
        split, halves := Split(group);
      } else if group.stage == Error {
        visitingList := Remove(visitingList, group, at);
        halves := UpdateFailed(group);
      }
    }

    /** What a client's visit-start message does to the group and the lists. */
    method GroupVisiting(group: UrlGroup, algorithm: Algorithm)
      requires forall u :: u in group.urlList ==> u in all
      modifies this`urlGroupQueue, this`visitingList, this`visitedList, stats, group, group.urlList
      ensures group.Value() == Begun(old(group.Value()), algorithm)
      ensures (Recs(all), stats.Value()) == TurnAll(group.urlList, old(Recs(all)), old(stats.Value()), Visiting, group.majorErrorCode)
      ensures visitingList == old(visitingList) + [group]
      ensures urlGroupQueue == old(urlGroupQueue) && visitedList == old(visitedList)
    {
      hide TurnAll, Recs;
      group.algorithm := algorithm;
      group.SetUrlGroupState(stats, Visiting, all);
      ghost var halves := Update(group, None);
    }

    /** What a client's visit-finish message does: verdict first. */
    method GroupVisited(group: UrlGroup, malicious: bool, own: Option<map<Url, bool>>, ghost i: nat) returns (ghost halves: seq<UrlGroup>)
      requires (forall u :: u in group.urlList ==> u in all) && OwnFits(group.Value(), own)
      requires FoundAt(visitingList, group, Some(i))
      modifies this`urlGroupQueue, this`visitingList, this`visitedList, stats, group, group.urlList
      ensures group.Value() == FinishedGroup(old(group.Value()), malicious)
      ensures (Recs(all), stats.Value()) == FinishUrls(group.Value(), old(Recs(all)), old(stats.Value()), own)
      ensures visitingList == Without(old(visitingList), i) && visitedList == old(visitedList) + [group]
      ensures urlGroupQueue == halves + old(urlGroupQueue) && AreHalves(halves, group)
      ensures forall h :: h in halves ==> fresh(h)
    {
      hide TurnAll, Recs, JudgeAll, Without, FirstHalf, SecondHalf, AreHalves, Splits;
      group.SetMalicious(group.algorithm, malicious, own, all);
      group.SetUrlGroupState(stats, Visited, all);
      halves := Update(group, Some(i));
    }

    /** What a client's visit-error message does. */
    method GroupFailed(group: UrlGroup, malicious: bool, own: Option<map<Url, bool>>, code: int, ghost i: nat)
      returns (ghost halves: seq<UrlGroup>)
      requires (forall u :: u in group.urlList ==> u in all) && OwnFits(group.Value(), own)
      requires FoundAt(visitingList, group, Some(i))
      modifies this`urlGroupQueue, this`visitingList, this`visitedList, stats, group, group.urlList
      ensures group.Value() == FailedGroup(old(group.Value()), malicious, code)
      ensures (Recs(all), stats.Value()) == UrlJobs.FailUrls(group.Value(), old(Recs(all)), old(stats.Value()), own)
      ensures visitingList == Without(old(visitingList), i) && visitedList == old(visitedList)
      ensures AreHalves(halves, group) && forall h :: h in halves ==> fresh(h)
      ensures urlGroupQueue == halves + (if Retries(group) then [group] else []) + old(urlGroupQueue)
    {
      hide TurnAll, FailAll, Recs, JudgeAll, Without, FirstHalf, SecondHalf;
      group.SetMalicious(group.algorithm, malicious, own, all);
      group.SetMajorErrorCode(code);
      group.SetUrlGroupState(stats, Error, all);
      halves := Update(group, Some(i));
    }

    /** What losing the client does before the visit has begun: the group is not in visitingList. */
    method GroupLost(group: UrlGroup, code: int) returns (ghost halves: seq<UrlGroup>)
      requires (forall u :: u in group.urlList ==> u in all) && group !in visitingList
      modifies this`urlGroupQueue, this`visitingList, this`visitedList, stats, group, group.urlList
      ensures group.Value() == FailedGroup(old(group.Value()), old(group.malicious), code)
      ensures (Recs(all), stats.Value()) == DropUrls(group.Value(), old(Recs(all)), old(stats.Value()))
      ensures visitingList == old(visitingList) && visitedList == old(visitedList)
      ensures AreHalves(halves, group) && forall h :: h in halves ==> fresh(h)
      ensures urlGroupQueue == halves + (if Retries(group) then [group] else []) + old(urlGroupQueue)
    {
      hide TurnAll, FailAll, Recs, FirstHalf, SecondHalf;
      group.SetMajorErrorCode(code);
      group.SetUrlGroupState(stats, Error, all);
      halves := Update(group, None);
    }

    lemma UrlsKnown(taken: seq<UrlGroup>, group: UrlGroup)
      requires Valid(taken) && (group in taken || group in visitingList)
      ensures forall u :: u in group.urlList ==> u in all
    {
      if group in taken {
        var i :| 0 <= i < |taken| && taken[i] == group;
        assert World(taken).taken[i] in GroupsOf(World(taken));
      } else {
        var i :| 0 <= i < |visitingList| && visitingList[i] == group;
        assert World(taken).visiting[i] in GroupsOf(World(taken));
      }
    }

    /** The step Start: a client's visit-start message. */
    method Begin(group: UrlGroup, algorithm: Algorithm, ghost taken: seq<UrlGroup>, ghost i: nat) returns (ghost taken': seq<UrlGroup>)
      requires Valid(taken) && i < |taken| && group == taken[i]
      modifies this`urlGroupQueue, this`visitingList, this`visitedList, stats, group, group.urlList
      ensures taken' == Without(taken, i)
      ensures Valid(taken') && World(taken') == Next(old(World(taken)), Start(i, algorithm))
    {
      hide Recs, TurnAll, Values, WellFormed, Apart;
      ghost var w := World(taken);
      UrlsKnown(taken, group);
      OnePlaceTaken(urlGroupQueue, taken, visitingList, visitedList, i);
      ApartStart(urlGroupQueue, taken, visitingList, visitedList, i);
      ValuesWithout(taken, i);
      taken' := Without(taken, i);
      GroupVisiting(group, algorithm);
      ValuesAppend(old(visitingList), [group]);
      ValuesOne(group);
      StepKeepsWellFormed(w, Start(i, algorithm));
    }

    /** The step TakeNew on an empty queue, TakeOld otherwise. */
    method TakeUrlGroup(groupSize: nat, ghost taken: seq<UrlGroup>) returns (group: UrlGroup, ghost taken': seq<UrlGroup>)
      requires Valid(taken) && (urlGroupQueue != [] || waiting != [])
      modifies this`waiting, this`urlGroupQueue
      ensures taken' == taken + [group]
      ensures Valid(taken')
      ensures old(urlGroupQueue) != [] ==>
        group == old(urlGroupQueue)[0] && urlGroupQueue == old(urlGroupQueue)[1..] && waiting == old(waiting)
      ensures old(urlGroupQueue) == [] ==>
        && urlGroupQueue == [] && group.urlList + waiting == old(waiting)
        && |group.urlList| == (if groupSize == 0 then 1 else if groupSize <= old(|waiting|) then groupSize else old(|waiting|))
      ensures World(taken') == Next(old(World(taken)), if old(urlGroupQueue) == [] then TakeNew(groupSize) else TakeOld)
    {
      hide Recs, Values, WellFormed, Apart;
      ghost var w := World(taken);
      if urlGroupQueue == [] {
        group := NextUrlGroup(groupSize);
        taken' := taken + [group];
        ApartTakeNew(urlGroupQueue, taken, visitingList, visitedList, group);
        StepKeepsWellFormed(w, TakeNew(groupSize));
      } else {
        ApartTakeOld(urlGroupQueue, taken, visitingList, visitedList);
        ValuesWithout(urlGroupQueue, 0);
        assert Without(urlGroupQueue, 0) == urlGroupQueue[1..] && Without(w.queue, 0) == w.queue[1..];
        group := NextUrlGroup(groupSize);
        taken' := taken + [group];
        StepKeepsWellFormed(w, TakeOld);
      }
      ValuesAppend(taken, [group]);
      ValuesOne(group);
    }

    /** The step Finish: a client's visit-finish message. */
    method Finish(group: UrlGroup, malicious: bool, own: Option<map<Url, bool>>, ghost taken: seq<UrlGroup>, ghost i: nat)
      requires Valid(taken) && i < |visitingList| && group == visitingList[i] && OwnFits(group.Value(), own)
      modifies this`urlGroupQueue, this`visitingList, this`visitedList, stats, group, group.urlList
      ensures old(Enabled(World(taken), Step.Finish(i, malicious, own)))
      ensures Valid(taken) && World(taken) == Next(old(World(taken)), Step.Finish(i, malicious, own))
    {
      hide Recs, FinishUrls, Values, WellFormed, Apart, AreHalves, Halves, OwnFits, Splits;
      ghost var w := World(taken);
      UrlsKnown(taken, group);
      OnePlaceVisiting(urlGroupQueue, taken, visitingList, visitedList, i);
      ApartLeave(urlGroupQueue, taken, visitingList, visitedList, i);
      ValuesWithout(visitingList, i);
      ghost var halves := GroupVisited(group, malicious, own, i);
      ValuesAppend(old(visitedList), [group]);
      ValuesOne(group);
      ValuesAppend(halves, old(urlGroupQueue));
      ValuesOfHalves(halves, group);
      ApartHalves(halves, old(urlGroupQueue), taken, visitingList, visitedList);
      StepKeepsWellFormed(w, Step.Finish(i, malicious, own));
    }

    /** Groups put back: halves, or the group itself, or nothing, on top of the queue. */
    lemma PutBack(halves: seq<UrlGroup>, group: UrlGroup, queue: seq<UrlGroup>, taken: seq<UrlGroup>)
      requires AreHalves(halves, group) && group.stage == Error
      requires Apart(queue, taken, visitingList, visitedList) && Nowhere(halves + [group], queue, taken, visitingList, visitedList)
      ensures var back := halves + if Retries(group) then [group] else [];
        Apart(back + queue, taken, visitingList, visitedList) && Values(back + queue) == Retried(group.Value()) + Values(queue)
    {
      hide Apart, Values, AreHalves, Halves;
      ValuesOfHalves(halves, group);
      ValuesOne(group);
      var back := halves + if Retries(group) then [group] else [];
      ValuesAppend(back, queue);
      assert group in halves + [group] && forall h :: h in halves ==> h in halves + [group];
      if Retries(group) {
        assert back == [group];
        ApartPush(queue, taken, visitingList, visitedList, group);
      } else {
        assert back == halves;
        ApartHalves(halves, queue, taken, visitingList, visitedList);
      }
    }

    /** The step Fail: a client's visit-error message. */
    method Fail(group: UrlGroup, malicious: bool, own: Option<map<Url, bool>>, code: int, ghost taken: seq<UrlGroup>, ghost i: nat)
      requires Valid(taken) && i < |visitingList| && group == visitingList[i] && OwnFits(group.Value(), own)
      modifies this`urlGroupQueue, this`visitingList, this`visitedList, stats, group, group.urlList
      ensures old(Enabled(World(taken), Step.Fail(i, malicious, own, code)))
      ensures Valid(taken) && World(taken) == Next(old(World(taken)), Step.Fail(i, malicious, own, code))
    {
      hide Recs, UrlJobs.FailUrls, Values, WellFormed, Apart, AreHalves, Retried, OwnFits, Splits, Retries, Code;
      ghost var w := World(taken);
      UrlsKnown(taken, group);
      OnePlaceVisiting(urlGroupQueue, taken, visitingList, visitedList, i);
      ApartLeave(urlGroupQueue, taken, visitingList, visitedList, i);
      ValuesWithout(visitingList, i);
      ghost var halves := GroupFailed(group, malicious, own, code, i);
      PutBack(halves, group, old(urlGroupQueue), taken);
      StepKeepsWellFormed(w, Step.Fail(i, malicious, own, code));
    }

    /** The step Drop: the client is lost before it has begun the visit. */
    method Drop(group: UrlGroup, code: int, ghost taken: seq<UrlGroup>, ghost i: nat) returns (ghost taken': seq<UrlGroup>)
      requires Valid(taken) && i < |taken| && group == taken[i]
      modifies this`urlGroupQueue, this`visitingList, this`visitedList, stats, group, group.urlList
      ensures taken' == Without(taken, i)
      ensures Valid(taken') && World(taken') == Next(old(World(taken)), Step.Drop(i, code))
    {
      hide Recs, DropUrls, Values, WellFormed, Apart, AreHalves, Retried, Splits, Retries, Code;
      ghost var w := World(taken);
      UrlsKnown(taken, group);
      OnePlaceTaken(urlGroupQueue, taken, visitingList, visitedList, i);
      ApartDrop(urlGroupQueue, taken, visitingList, visitedList, i);
      ValuesWithout(taken, i);
      taken' := Without(taken, i);
      ghost var halves := GroupLost(group, code);
      PutBack(halves, group, old(urlGroupQueue), taken');
      StepKeepsWellFormed(w, Step.Drop(i, code));
    }

    /** The step UrlCode: an error a client reports for one URL. */
    method SetUrlCode(url: Url, code: int, ghost taken: seq<UrlGroup>)
      requires Valid(taken) && url in all
      modifies url`code
      ensures Valid(taken) && World(taken) == Next(old(World(taken)), UrlCode(url, code))
    {
      hide Values, WellFormed, Apart, Code;
      ghost var w := World(taken);
      url.SetMajorErrorCode(code);
      assert Recs(all) == w.recs[url := w.recs[url].(code := Code(code))];
      StepKeepsWellFormed(w, UrlCode(url, code));
    }

    method FailUrl(url: Url, code: int)
      requires url in all
      modifies url, stats
      ensures var one := FailTurn(old(Recs(all))[url], old(stats.Value()), code);
        Recs(all) == old(Recs(all))[url := one.0] && stats.Value() == one.1
    {
      hide Turn;
      url.SetMajorErrorCode(code);
      url.SetUrlState(stats, Error);
    }
  }

  lemma FailNone(recs: map<Url, UrlRec>, s: Stats, code: int)
    ensures forall urls: seq<Url> :: |urls| == 0 ==> FailAll(urls, recs, s, code) == (recs, s)
  {
  }

  lemma FailOne(urls: seq<Url>, recs: map<Url, UrlRec>, s: Stats, code: int)
    requires urls != [] && forall u :: u in urls ==> u in recs
    ensures var one := FailTurn(recs[urls[0]], s, code);
      FailAll(urls, recs, s, code) == FailAll(urls[1..], recs[urls[0] := one.0], one.1, code)
  {
  }
}
