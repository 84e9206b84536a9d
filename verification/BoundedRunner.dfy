// allSettledBounded (worker/scan/manager.js): workers that share one index and one results array. A step
// is what one worker does without waiting: claim the next item and call, or store a settled call. Any
// worker may take the next step.
module BoundedRunner {
  import opened Common

  datatype Settlement<+R> = Fulfilled(value: R) | Rejected(reason: R)

  // Worker w is between calls, waits for the call on item i, or has left its loop.
  datatype Worker = Ready | InFlight(item: nat) | Finished

  // `claims` records the items in the order in which calls were made on them.
  datatype State<+R> = State(next: nat, workers: seq<Worker>, results: seq<Option<Settlement<R>>>, claims: seq<nat>)

  // outcomes[i] is what the call on item i settles with.
  predicate CanStep<R>(s: State<R>, w: nat) {
    w < |s.workers| && !s.workers[w].Finished?
  }

  function Step<R>(outcomes: seq<Settlement<R>>, s: State<R>, w: nat): State<R>
    requires CanStep(s, w) && |s.results| == |outcomes|
  {
    match s.workers[w]
    case InFlight(i) =>
      s.(results := if i < |outcomes| then s.results[i := Some(outcomes[i])] else s.results,
         workers := s.workers[w := Ready])
    case Ready =>
      if s.next < |outcomes|
      then s.(next := s.next + 1, workers := s.workers[w := InFlight(s.next)], claims := s.claims + [s.next])
      else s.(workers := s.workers[w := Finished])
    case Finished => s
  }

  function PoolSize(limit: int, items: nat): nat {
    if limit <= 0 then 0 else if limit < items then limit else items
  }

  function Idle(size: nat): seq<Worker> {
    seq(size, _ => Ready)
  }

  function Start<R>(size: nat, items: nat): State<R> {
    State(0, Idle(size), seq(items, _ => None), [])
  }

  // ---------------------------------------------------------------- what every step keeps

  ghost predicate ClaimedIsUnderWay<R>(s: State<R>) {
    forall i :: 0 <= i < |s.results| ==>
      ((i < s.next) <==> (s.results[i].Some? || InFlight(i) in s.workers))
  }

  ghost predicate OneWorkerPerCall<R>(s: State<R>) {
    && (forall v, w :: 0 <= v < w < |s.workers| && s.workers[v].InFlight? ==> s.workers[v] != s.workers[w])
    && (forall w :: 0 <= w < |s.workers| && s.workers[w].InFlight? ==>
          s.workers[w].item < |s.results| && s.results[s.workers[w].item].None?)
  }

  // Claimed items are 0, 1, 2, ... once each; each is either with exactly one worker or settled with its own
  // outcome; and no worker leaves while an item is unclaimed.
  ghost predicate Inv<R>(outcomes: seq<Settlement<R>>, s: State<R>) {
    && |s.results| == |outcomes| && s.next <= |outcomes|
    && s.claims == seq(s.next, i => i)
    && ClaimedIsUnderWay(s)
    && OneWorkerPerCall(s)
    && (forall i :: 0 <= i < |outcomes| && s.results[i].Some? ==> s.results[i].value == outcomes[i])
    && (Finished in s.workers ==> s.next == |outcomes|)
  }

  lemma StartKeepsInv<R>(outcomes: seq<Settlement<R>>, size: nat)
    ensures Inv(outcomes, Start(size, |outcomes|))
  {
  }

  lemma StepKeepsInv<R>(outcomes: seq<Settlement<R>>, s: State<R>, w: nat)
    requires Inv(outcomes, s) && CanStep(s, w)
    ensures Inv(outcomes, Step(outcomes, s, w))
  {
    var t := Step(outcomes, s, w);
    forall v | v in t.workers && v != t.workers[w] ensures v in s.workers {
    }
    assert t.workers[w] in t.workers;
    forall i | 0 <= i < |s.results|
      ensures (i < t.next) <==> (t.results[i].Some? || InFlight(i) in t.workers)
    {
      if InFlight(i) in s.workers && InFlight(i) != s.workers[w] {
        var v :| 0 <= v < |s.workers| && s.workers[v] == InFlight(i);
        assert t.workers[v] == InFlight(i);
      }
    }
  }

  // ---------------------------------------------------------------- termination

  function Weight(w: Worker): nat {
    match w case Ready => 1 case InFlight(_) => 2 case Finished => 0
  }

  function Weights(ws: seq<Worker>): nat {
    if ws == [] then 0 else Weight(ws[0]) + Weights(ws[1..])
  }

  lemma {:induction false} WeightsOfUpdate(ws: seq<Worker>, w: nat, x: Worker)
    requires w < |ws|
    ensures Weights(ws[w := x]) == Weights(ws) - Weight(ws[w]) + Weight(x)
  {
    if w == 0 {
      assert ws[w := x][1..] == ws[1..];
    } else {
      assert ws[w := x][1..] == ws[1..][w - 1 := x];
      WeightsOfUpdate(ws[1..], w - 1, x);
    }
  }

  lemma {:induction false} WeightsOfReady(size: nat)
    ensures Weights(Idle(size)) == size
  {
    if size == 0 {
      assert Idle(size) == [];
    } else {
      assert Idle(size)[1..] == Idle(size - 1);
      WeightsOfReady(size - 1);
    }
  }

  lemma {:induction false} NoWeightMeansFinished(ws: seq<Worker>)
    ensures Weights(ws) == 0 <==> forall w :: 0 <= w < |ws| ==> ws[w].Finished?
  {
    if ws != [] {
      NoWeightMeansFinished(ws[1..]);
      assert forall w :: 0 < w < |ws| ==> ws[w] == ws[1..][w - 1];
    }
  }

  function Left<R>(outcomes: seq<Settlement<R>>, s: State<R>): int {
    2 * (|outcomes| - s.next) + Weights(s.workers)
  }

  lemma StepUsesOne<R>(outcomes: seq<Settlement<R>>, s: State<R>, w: nat)
    requires Inv(outcomes, s) && CanStep(s, w)
    ensures Left(outcomes, Step(outcomes, s, w)) == Left(outcomes, s) - 1
  {
    WeightsOfUpdate(s.workers, w, Step(outcomes, s, w).workers[w]);
  }

  // ---------------------------------------------------------------- every schedule

  // The workers of the schedule step in turn.
  ghost predicate Runs<R>(outcomes: seq<Settlement<R>>, s: State<R>, schedule: seq<nat>, t: State<R>)
    decreases |schedule|
  {
    if schedule == [] then s == t
    else
      CanStep(s, schedule[0]) && |s.results| == |outcomes|
          && Runs(outcomes, Step(outcomes, s, schedule[0]), schedule[1..], t)
  }

  ghost predicate AllFinished<R>(s: State<R>) {
    forall w :: 0 <= w < |s.workers| ==> s.workers[w].Finished?
  }

  lemma {:induction false} ScheduleKeepsInv<R>(outcomes: seq<Settlement<R>>, s: State<R>, schedule: seq<nat>,
                                               t: State<R>)
    requires Inv(outcomes, s) && Runs(outcomes, s, schedule, t)
    ensures Inv(outcomes, t) && |t.workers| == |s.workers|
    ensures |schedule| + Left(outcomes, t) == Left(outcomes, s)
    decreases |schedule|
  {
    if schedule != [] {
      StepKeepsInv(outcomes, s, schedule[0]);
      StepUsesOne(outcomes, s, schedule[0]);
      ScheduleKeepsInv(outcomes, Step(outcomes, s, schedule[0]), schedule[1..], t);
    }
  }

  function InOrder<R>(outcomes: seq<Settlement<R>>): seq<Option<Settlement<R>>> {
    seq(|outcomes|, i requires 0 <= i < |outcomes| => Some(outcomes[i]))
  }

  lemma FinishedMeansSettled<R>(outcomes: seq<Settlement<R>>, s: State<R>)
    requires Inv(outcomes, s) && AllFinished(s) && s.workers != []
    ensures s.next == |outcomes| && s.results == InOrder(outcomes)
  {
    assert s.workers[0] in s.workers;
    forall i | 0 <= i < |outcomes| ensures s.results[i] == Some(outcomes[i]) {
      assert InFlight(i) !in s.workers;
    }
  }

  // Whatever the schedule, as far as it goes: the calls made are on items 0, 1, ..., once each, and no more
  // than `limit` of them are open at once.
  lemma EachItemClaimedOnce<R>(outcomes: seq<Settlement<R>>, limit: int, schedule: seq<nat>, t: State<R>)
    requires Runs(outcomes, Start(PoolSize(limit, |outcomes|), |outcomes|), schedule, t)
    ensures t.claims == seq(t.next, i => i) && t.next <= |outcomes| == |t.results|
    ensures limit >= 0 ==> |set i | 0 <= i < t.next && t.results[i].None?| <= limit
  {
    var start := Start(PoolSize(limit, |outcomes|), |outcomes|);
    StartKeepsInv(outcomes, PoolSize(limit, |outcomes|));
    ScheduleKeepsInv(outcomes, start, schedule, t);
    var open := set i | 0 <= i < t.next && t.results[i].None?;
    var held := set w | 0 <= w < |t.workers| && t.workers[w].InFlight? :: t.workers[w].item;
    assert open <= held;
    HeldItems(t.workers);
    Subset(open, held);
  }

  lemma {:induction false} HeldItems(ws: seq<Worker>)
    ensures |set w | 0 <= w < |ws| && ws[w].InFlight? :: ws[w].item| <= |ws|
  {
    var held := set w | 0 <= w < |ws| && ws[w].InFlight? :: ws[w].item;
    if ws == [] {
      assert held == {};
    } else {
      var front := ws[..|ws| - 1];
      var fewer := set w | 0 <= w < |front| && front[w].InFlight? :: front[w].item;
      HeldItems(front);
      if ws[|ws| - 1].InFlight? {
        assert held <= fewer + {ws[|ws| - 1].item};
        Subset(held, fewer + {ws[|ws| - 1].item});
      } else {
        assert held <= fewer;
        Subset(held, fewer);
      }
    }
  }

  lemma {:induction false} Subset<T>(a: set<T>, b: set<T>)
    requires a <= b
    ensures |a| <= |b|
  {
    if a != {} {
      var x :| x in a;
      Subset(a - {x}, b - {x});
    }
  }

  // Nothing waits while there is room: when an item is unclaimed and fewer than `limit` calls are open, a worker is
  // ready to claim it.
  lemma LimitIsUsed<R>(outcomes: seq<Settlement<R>>, limit: int, schedule: seq<nat>, t: State<R>)
    requires Runs(outcomes, Start(PoolSize(limit, |outcomes|), |outcomes|), schedule, t)
    requires t.next < |outcomes| == |t.results|
    requires |set i | 0 <= i < t.next && t.results[i].None?| < limit
    ensures Ready in t.workers
  {
    var start := Start(PoolSize(limit, |outcomes|), |outcomes|);
    StartKeepsInv(outcomes, PoolSize(limit, |outcomes|));
    ScheduleKeepsInv(outcomes, start, schedule, t);
    if Ready !in t.workers {
      assert forall w :: 0 <= w < |t.workers| ==> t.workers[w] in t.workers;
      var open := set i | 0 <= i < t.next && t.results[i].None?;
      var held := set w | 0 <= w < |t.workers| && t.workers[w].InFlight? :: t.workers[w].item;
      BusyWorkersHold(t.workers);
      assert held <= open;
      Subset(held, open);
      Below(open, t.next);
    }
  }

  // Workers that are all under way, on different items, hold as many items as there are workers.
  lemma {:induction false} BusyWorkersHold(ws: seq<Worker>)
    requires forall w :: 0 <= w < |ws| ==> ws[w].InFlight?
    requires forall v, w :: 0 <= v < w < |ws| ==> ws[v] != ws[w]
    ensures |set w | 0 <= w < |ws| && ws[w].InFlight? :: ws[w].item| == |ws|
  {
    var held := set w | 0 <= w < |ws| && ws[w].InFlight? :: ws[w].item;
    if ws == [] {
      assert held == {};
    } else {
      var front := ws[..|ws| - 1];
      var fewer := set w | 0 <= w < |front| && front[w].InFlight? :: front[w].item;
      BusyWorkersHold(front);
      var last := ws[|ws| - 1].item;
      assert forall w :: 0 <= w < |front| ==> ws[w] == front[w];
      assert ws[|ws| - 1].InFlight? && last in held;
      assert forall i :: i in held ==> i in fewer || i == last;
      assert held == fewer + {last};
    }
  }

  lemma {:induction false} Below(s: set<int>, n: nat)
    requires forall i :: i in s ==> 0 <= i < n
    ensures |s| <= n
  {
    if n == 0 {
      assert forall i :: i !in s;
      assert s == {};
    } else {
      Below(s - {n - 1}, n - 1);
    }
  }

  // No schedule is longer than twice the items plus the workers; one that can not go on has that length
  // exactly, and its results are the outcomes in the order of the items.
  lemma EveryScheduleAgrees<R>(outcomes: seq<Settlement<R>>, limit: int, schedule: seq<nat>, t: State<R>)
    requires Runs(outcomes, Start(PoolSize(limit, |outcomes|), |outcomes|), schedule, t)
    requires limit > 0 && outcomes != []
    ensures |schedule| <= 2 * |outcomes| + PoolSize(limit, |outcomes|)
    ensures AllFinished(t) <==> |schedule| == 2 * |outcomes| + PoolSize(limit, |outcomes|)
    ensures AllFinished(t) ==> t.results == InOrder(outcomes) && t.claims == seq(|outcomes|, i => i)
  {
    hide Runs, ClaimedIsUnderWay, OneWorkerPerCall, Weights, InOrder;
    var size := PoolSize(limit, |outcomes|);
    StartKeepsInv(outcomes, size);
    WeightsOfReady(size);
    ScheduleKeepsInv(outcomes, Start(size, |outcomes|), schedule, t);
    NoWeightMeansFinished(t.workers);
    if AllFinished(t) {
      FinishedMeansSettled(outcomes, t);
    }
  }

  // ---------------------------------------------------------------- the runner itself

  class Pool<R> {
    const outcomes: seq<Settlement<R>>
    var nextIdx: nat
    var workers: seq<Worker>
    var results: array<Option<Settlement<R>>>
    ghost var claims: seq<nat>

    ghost function View(): State<R>
      reads this, results
    {
      State(nextIdx, workers, results[..], claims)
    }

    constructor (outcomes: seq<Settlement<R>>, limit: int)
      ensures this.outcomes == outcomes && fresh(results)
      ensures View() == Start(PoolSize(limit, |outcomes|), |outcomes|)
    {
      this.outcomes := outcomes;
      nextIdx := 0;
      workers := Idle(PoolSize(limit, |outcomes|));
      results := new Option<Settlement<R>>[|outcomes|](_ => None);
      claims := [];
    }

    // What worker w does until it waits.
    method Advance(w: nat)
      requires Inv(outcomes, View()) && CanStep(View(), w)
      modifies this, results
      ensures results == old(results) && Inv(outcomes, View())
      ensures View() == Step(outcomes, old(View()), w)
    {
      StepKeepsInv(outcomes, View(), w);
      match workers[w]
      case InFlight(i) =>
        results[i] := Some(outcomes[i]);
        workers := workers[w := Ready];
      case Ready =>
        if nextIdx < |outcomes| {
          workers := workers[w := InFlight(nextIdx)];
          claims := claims + [nextIdx];
          nextIdx := nextIdx + 1;
        } else {
          workers := workers[w := Finished];
        }
      case Finished =>
    }
  }

  // Whichever worker is resumed next, the call ends, with the outcomes in the order of the items.
  method AllSettledBounded<R>(outcomes: seq<Settlement<R>>, limit: int) returns (results: seq<Option<Settlement<R>>>)
    ensures limit <= 0 || outcomes == [] ==> results == []
    ensures limit > 0 ==> results == InOrder(outcomes)
  {
    if limit <= 0 || |outcomes| == 0 {
      return [];
    }
    var pool := new Pool(outcomes, limit);
    StartKeepsInv(outcomes, PoolSize(limit, |outcomes|));
    while exists w :: 0 <= w < |pool.workers| && !pool.workers[w].Finished?
      invariant fresh(pool) && fresh(pool.results) && pool.outcomes == outcomes
      invariant Inv(outcomes, pool.View()) && |pool.workers| == PoolSize(limit, |outcomes|)
      decreases Left(outcomes, pool.View())
    {
      var w :| 0 <= w < |pool.workers| && !pool.workers[w].Finished?;
      StepUsesOne(outcomes, pool.View(), w);
      pool.Advance(w);
    }
    FinishedMeansSettled(outcomes, pool.View());
    results := pool.results[..];
  }
}
