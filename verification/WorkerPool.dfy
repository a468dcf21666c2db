/**
 * The bounded worker pool and its summary (src/main.cpp). Workers interleave at the shared
 * counter and at the result slots; `claims` and `writes` record what has happened so far.
 */
module WorkerPool {
  /** A `jthread`: not yet created, about to take an index, signing one, or past its loop. */
  datatype Worker = Unstarted | Polling | Signing(index: nat) | Finished

  datatype Claim = Claim(worker: nat, index: nat)
  datatype Write = Write(worker: nat, index: nat, ok: bool)

  datatype State = State(
    next: nat,               // the atomic counter
    workers: seq<Worker>,
    results: seq<bool>,      // each slot's `ok`, false until written
    claims: seq<Claim>,
    writes: seq<Write>)

  datatype Step = Spawn(w: nat) | Take(w: nat) | Store(w: nat, ok: bool)

  function Min(a: nat, b: nat): nat { if a < b then a else b }

  function Start(files: nat, maxParallel: nat): State
  {
    State(0, seq(Min(maxParallel, files), _ => Unstarted), seq(files, _ => false), [], [])
  }

  predicate Enabled(s: State, step: Step)
  {
    && step.w < |s.workers|
    && match step
       case Spawn(w) => s.workers[w].Unstarted? && forall v :: 0 <= v < w ==> !s.workers[v].Unstarted?
       case Take(w) => s.workers[w].Polling?
       case Store(w, _) => s.workers[w].Signing? && s.workers[w].index < |s.results|
  }

  function Apply(s: State, step: Step): State
    requires Enabled(s, step)
  {
    match step
    case Spawn(w) => s.(workers := s.workers[w := Polling])
    case Take(w) =>
      if s.next < |s.results| then
        s.(next := s.next + 1, workers := s.workers[w := Signing(s.next)], claims := s.claims + [Claim(w, s.next)])
      else
        s.(next := s.next + 1, workers := s.workers[w := Finished])
    case Store(w, ok) =>
      var i := s.workers[w].index;
      s.(workers := s.workers[w := Polling], results := s.results[i := ok], writes := s.writes + [Write(w, i, ok)])
  }

  /** The state after `steps`, when each of them was enabled in its turn. */
  ghost predicate Run(s: State, steps: seq<Step>, end: State)
    decreases |steps|
  {
    if steps == [] then s == end
    else Enabled(s, steps[0]) && Run(Apply(s, steps[0]), steps[1..], end)
  }

  /** The join: every worker has left its loop. */
  predicate Joined(s: State) { forall w :: 0 <= w < |s.workers| ==> s.workers[w].Finished? }

  // ----- what every step keeps

  ghost predicate IsWritten(s: State, i: nat) { exists k :: 0 <= k < |s.writes| && s.writes[k].index == i }

  ghost predicate ClaimsInOrder(s: State)
  {
    && |s.claims| == Min(s.next, |s.results|)
    && forall i :: 0 <= i < |s.claims| ==> s.claims[i].index == i && s.claims[i].worker < |s.workers|
  }

  ghost predicate WorkersOwn(s: State)
  {
    forall w :: 0 <= w < |s.workers| && s.workers[w].Signing? ==>
      var i := s.workers[w].index;
      i < |s.claims| && s.claims[i].worker == w && !IsWritten(s, i)
  }

  ghost predicate ClaimsProgress(s: State)
    requires ClaimsInOrder(s)
  {
    forall i :: 0 <= i < |s.claims| ==> IsWritten(s, i) || s.workers[s.claims[i].worker] == Signing(i)
  }

  ghost predicate WritesOnce(s: State)
    requires ClaimsInOrder(s)
  {
    && (forall k :: 0 <= k < |s.writes| ==>
          var u := s.writes[k];
          u.index < |s.claims| && s.claims[u.index] == Claim(u.worker, u.index) && s.results[u.index] == u.ok)
    && (forall k, l :: 0 <= k < l < |s.writes| ==> s.writes[k].index != s.writes[l].index)
  }

  ghost predicate FinishedLate(s: State)
  {
    && s.next == |s.claims| + FinishedCount(s.workers)
    && forall w :: 0 <= w < |s.workers| && s.workers[w].Finished? ==> s.next > |s.results|
  }

  ghost predicate Inv(s: State)
  {
    ClaimsInOrder(s) && WorkersOwn(s) && ClaimsProgress(s) && WritesOnce(s) && FinishedLate(s)
  }

  function FinishedCount(ws: seq<Worker>): (n: nat)
    ensures n <= |ws|
  {
    if ws == [] then 0 else (if ws[0].Finished? then 1 else 0) + FinishedCount(ws[1..])
  }

  lemma {:induction false} FinishedUpdate(ws: seq<Worker>, w: nat, x: Worker)
    requires w < |ws| && !ws[w].Finished?
    ensures FinishedCount(ws[w := x]) == FinishedCount(ws) + if x.Finished? then 1 else 0
  {
    if w == 0 {
      assert ws[0 := x][1..] == ws[1..];
    } else {
      assert ws[w := x][1..] == ws[1..][w - 1 := x];
      FinishedUpdate(ws[1..], w - 1, x);
    }
  }

  lemma {:induction false} NoneFinished(ws: seq<Worker>)
    requires forall w :: 0 <= w < |ws| ==> !ws[w].Finished?
    ensures FinishedCount(ws) == 0
  {
    if ws != [] { NoneFinished(ws[1..]); }
  }

  lemma StartHolds(files: nat, maxParallel: nat)
    ensures Inv(Start(files, maxParallel))
  {
    NoneFinished(Start(files, maxParallel).workers);
  }

  lemma StepKeepsInv(s: State, step: Step)
    requires Inv(s) && Enabled(s, step)
    ensures Inv(Apply(s, step))
  {
    match step
    case Spawn(w) => SpawnKeepsInv(s, w);
    case Take(w) => TakeKeepsInv(s, w);
    case Store(w, ok) => StoreKeepsInv(s, w, ok);
  }

  lemma SpawnKeepsInv(s: State, w: nat)
    requires Inv(s) && Enabled(s, Spawn(w))
    ensures Inv(Apply(s, Spawn(w)))
  {
    var t := Apply(s, Spawn(w));
    FinishedUpdate(s.workers, w, Polling);
    assert forall i: nat :: IsWritten(t, i) == IsWritten(s, i);
  }

  lemma TakeKeepsInv(s: State, w: nat)
    requires Inv(s) && Enabled(s, Take(w))
    ensures Inv(Apply(s, Take(w)))
  {
    var t := Apply(s, Take(w));
    FinishedUpdate(s.workers, w, t.workers[w]);
    assert forall i: nat :: IsWritten(t, i) == IsWritten(s, i);
    forall i | 0 <= i < |t.claims| ensures IsWritten(t, i) || t.workers[t.claims[i].worker] == Signing(i) {
      if i < |s.claims| { assert t.claims[i] == s.claims[i]; }
    }
  }

  lemma StoreWrites(s: State, w: nat, ok: bool, i: nat)
    requires Enabled(s, Store(w, ok))
    ensures IsWritten(Apply(s, Store(w, ok)), i) == (IsWritten(s, i) || i == s.workers[w].index)
  {
    var t := Apply(s, Store(w, ok));
    assert t.writes[|s.writes|].index == s.workers[w].index;
    if IsWritten(s, i) {
      var k :| 0 <= k < |s.writes| && s.writes[k].index == i;
      assert t.writes[k].index == i;
    }
  }

  lemma StoreKeepsInv(s: State, w: nat, ok: bool)
    requires Inv(s) && Enabled(s, Store(w, ok))
    ensures Inv(Apply(s, Store(w, ok)))
  {
    hide IsWritten;
    var i0 := s.workers[w].index;
    var t := Apply(s, Store(w, ok));
    FinishedUpdate(s.workers, w, Polling);
    forall i: nat ensures IsWritten(t, i) == (IsWritten(s, i) || i == i0) { StoreWrites(s, w, ok, i); }
    NotYetWritten(s, i0);
  }

  lemma NotYetWritten(s: State, i: nat)
    requires !IsWritten(s, i)
    ensures forall k :: 0 <= k < |s.writes| ==> s.writes[k].index != i
  {
  }

  lemma {:induction false} RunKeepsInv(s: State, steps: seq<Step>, end: State)
    requires Inv(s) && Run(s, steps, end)
    ensures Inv(end) && |end.workers| == |s.workers| && |end.results| == |s.results|
    decreases |steps|
  {
    if steps != [] {
      StepKeepsInv(s, steps[0]);
      RunKeepsInv(Apply(s, steps[0]), steps[1..], end);
    }
  }

  // ----- the main results

  /** How many workers are signing. */
  function InFlight(ws: seq<Worker>): (n: nat)
    ensures n <= |ws|
  {
    if ws == [] then 0 else (if ws[0].Signing? then 1 else 0) + InFlight(ws[1..])
  }

  /**
   * In every reachable state: no index is claimed twice, no slot is written twice, a slot is
   * written only by the worker that claimed it, workers sign distinct files, and at most
   * min(max_parallel, files) of them at once; the counter overshoots by at most one per worker.
   */
  lemma {:induction false} PoolIsSafe(files: nat, maxParallel: nat, steps: seq<Step>, s: State)
    requires Run(Start(files, maxParallel), steps, s)
    ensures forall i, j :: 0 <= i < j < |s.claims| ==> s.claims[i].index != s.claims[j].index
    ensures forall k, l :: 0 <= k < l < |s.writes| ==> s.writes[k].index != s.writes[l].index
    ensures forall k :: 0 <= k < |s.writes| ==> Claim(s.writes[k].worker, s.writes[k].index) in s.claims
    ensures forall v, w :: 0 <= v < w < |s.workers| && s.workers[v].Signing? && s.workers[w].Signing? ==>
              s.workers[v].index != s.workers[w].index
    ensures InFlight(s.workers) <= maxParallel && InFlight(s.workers) <= files
    ensures s.next <= files + Min(maxParallel, files)
  {
    StartHolds(files, maxParallel);
    RunKeepsInv(Start(files, maxParallel), steps, s);
    forall k | 0 <= k < |s.writes| ensures Claim(s.writes[k].worker, s.writes[k].index) in s.claims {
      assert s.claims[s.writes[k].index] in s.claims;
    }
  }

  // ----- the bound is reached

  /** The first `k` workers each sign a file. */
  function Filling(files: nat, maxParallel: nat, k: nat): State
  {
    Start(files, maxParallel).(
      next := k, claims := seq(k, i requires i >= 0 => Claim(i, i)),
      workers := seq(Min(maxParallel, files), w requires w >= 0 => if w < k then Signing(w) else Unstarted))
  }

  lemma {:induction false} RunSnoc(s: State, steps: seq<Step>, t: State, step: Step)
    requires Run(s, steps, t) && Enabled(t, step)
    ensures Run(s, steps + [step], Apply(t, step))
    decreases |steps|
  {
    if steps != [] {
      RunSnoc(Apply(s, steps[0]), steps[1..], t, step);
      assert (steps + [step])[1..] == steps[1..] + [step];
    } else {
      var none: seq<Step> := [];
      assert [step][1..] == none;
    }
  }

  lemma {:induction false} Fills(files: nat, maxParallel: nat, k: nat) returns (steps: seq<Step>)
    requires k <= Min(maxParallel, files)
    ensures Run(Start(files, maxParallel), steps, Filling(files, maxParallel, k))
  {
    hide Run;
    if k == 0 {
      steps := [];
      NoSteps(Start(files, maxParallel));
      assert Filling(files, maxParallel, 0) == Start(files, maxParallel);
    } else {
      var before := Fills(files, maxParallel, k - 1);
      var s := Filling(files, maxParallel, k - 1);
      RunSnoc(Start(files, maxParallel), before, s, Spawn(k - 1));
      var t := Apply(s, Spawn(k - 1));
      RunSnoc(Start(files, maxParallel), before + [Spawn(k - 1)], t, Take(k - 1));
      steps := before + [Spawn(k - 1)] + [Take(k - 1)];
      assert Apply(t, Take(k - 1)) == Filling(files, maxParallel, k);
    }
  }

  lemma {:induction false} NoSteps(s: State)
    ensures Run(s, [], s)
  {
  }

  lemma {:induction false} AllInFlight(ws: seq<Worker>)
    requires forall w :: 0 <= w < |ws| ==> ws[w].Signing?
    ensures InFlight(ws) == |ws|
  {
    if ws != [] { AllInFlight(ws[1..]); }
  }

  /** Some run has max_parallel files in flight at once, or all of them if there are fewer. */
  lemma {:induction false} BoundIsReached(files: nat, maxParallel: nat)
    ensures exists steps, s :: Run(Start(files, maxParallel), steps, s)
              && InFlight(s.workers) == if maxParallel <= files then maxParallel else files
  {
    hide Run;
    var n := Min(maxParallel, files);
    var steps := Fills(files, maxParallel, n);
    AllInFlight(Filling(files, maxParallel, n).workers);
  }

  ghost predicate ClaimedOnce(s: State, i: nat)
  {
    exists c :: 0 <= c < |s.claims| && s.claims[c].index == i &&
      forall d :: 0 <= d < |s.claims| && d != c ==> s.claims[d].index != i
  }

  ghost predicate WrittenOnce(s: State, i: nat)
  {
    exists k :: 0 <= k < |s.writes| && s.writes[k].index == i && i < |s.results| && s.results[i] == s.writes[k].ok &&
      forall l :: 0 <= l < |s.writes| && l != k ==> s.writes[l].index != i
  }

  /** At the join every file was claimed once and its slot holds the one result written to it. */
  lemma {:induction false} JoinIsComplete(files: nat, maxParallel: nat, steps: seq<Step>, s: State)
    requires maxParallel >= 1 && Run(Start(files, maxParallel), steps, s) && Joined(s)
    ensures |s.results| == files && |s.claims| == files
    ensures forall i :: 0 <= i < files ==> ClaimedOnce(s, i) && WrittenOnce(s, i)
  {
    StartHolds(files, maxParallel);
    RunKeepsInv(Start(files, maxParallel), steps, s);
    if files > 0 { assert s.workers[0].Finished?; }
    forall i | 0 <= i < files ensures ClaimedOnce(s, i) && WrittenOnce(s, i) {
      assert s.claims[i].index == i;
      assert s.workers[s.claims[i].worker].Finished?;
      assert IsWritten(s, i);
      var k :| 0 <= k < |s.writes| && s.writes[k].index == i;
    }
  }

  // ----- every run ends at the join

  function Weight(x: Worker): nat
  {
    match x case Unstarted => 2 case Polling => 1 case Signing(_) => 2 case Finished => 0
  }

  function TotalWeight(ws: seq<Worker>): nat { if ws == [] then 0 else Weight(ws[0]) + TotalWeight(ws[1..]) }

  function Remaining(s: State): nat
  {
    2 * (|s.results| - Min(s.next, |s.results|)) + TotalWeight(s.workers)
  }

  lemma {:induction false} WeightUpdate(ws: seq<Worker>, w: nat, x: Worker)
    requires w < |ws|
    ensures TotalWeight(ws[w := x]) == TotalWeight(ws) - Weight(ws[w]) + Weight(x)
  {
    if w == 0 {
      assert ws[0 := x][1..] == ws[1..];
    } else {
      assert ws[w := x][1..] == ws[1..][w - 1 := x];
      WeightUpdate(ws[1..], w - 1, x);
    }
  }

  lemma StepCountsDown(s: State, step: Step)
    requires Enabled(s, step)
    ensures Remaining(Apply(s, step)) == Remaining(s) - 1
  {
    WeightUpdate(s.workers, step.w, Apply(s, step).workers[step.w]);
  }

  lemma {:induction false} RunCountsDown(s: State, steps: seq<Step>, end: State)
    requires Run(s, steps, end)
    ensures Remaining(end) == Remaining(s) - |steps|
    decreases |steps|
  {
    if steps != [] {
      StepCountsDown(s, steps[0]);
      RunCountsDown(Apply(s, steps[0]), steps[1..], end);
    }
  }

  lemma {:induction false} UnstartedWeight(n: nat)
    ensures TotalWeight(seq(n, _ => Unstarted)) == 2 * n
  {
    if n > 0 {
      assert seq(n, _ => Unstarted)[1..] == seq(n - 1, _ => Unstarted);
      UnstartedWeight(n - 1);
    }
  }

  lemma {:induction false} WeightZero(ws: seq<Worker>)
    ensures TotalWeight(ws) == 0 <==> forall w :: 0 <= w < |ws| ==> ws[w].Finished?
  {
    if ws != [] {
      WeightZero(ws[1..]);
      assert ws == [ws[0]] + ws[1..];
    }
  }

  lemma SomeStepEnabled(s: State)
    requires Inv(s) && !Joined(s)
    ensures exists step :: Enabled(s, step)
  {
    var w :| 0 <= w < |s.workers| && !s.workers[w].Finished?;
    if s.workers[w].Polling? {
      assert Enabled(s, Take(w));
    } else if s.workers[w].Signing? {
      assert Enabled(s, Store(w, true));
    } else {
      var f := FirstUnstarted(s.workers, w);
      assert Enabled(s, Spawn(f));
    }
  }

  lemma {:induction false} FirstUnstarted(ws: seq<Worker>, w: nat) returns (f: nat)
    requires w < |ws| && ws[w].Unstarted?
    ensures f < |ws| && ws[f].Unstarted? && forall v :: 0 <= v < f ==> !ws[v].Unstarted?
  {
    if exists v :: 0 <= v < w && ws[v].Unstarted? {
      var v :| 0 <= v < w && ws[v].Unstarted?;
      f := FirstUnstarted(ws, v);
    } else {
      f := w;
    }
  }

  /**
   * No interleaving deadlocks or runs on: every run has at most 2 * (files + workers) steps, one
   * that has as many has joined, and any shorter one can go on.
   */
  lemma {:induction false} EveryRunJoins(files: nat, maxParallel: nat, steps: seq<Step>, s: State)
    requires maxParallel >= 1 && Run(Start(files, maxParallel), steps, s)
    ensures |steps| <= 2 * (files + Min(maxParallel, files))
    ensures Joined(s) <==> |steps| == 2 * (files + Min(maxParallel, files))
    ensures !Joined(s) ==> exists step :: Enabled(s, step)
  {
    var start := Start(files, maxParallel);
    StartHolds(files, maxParallel);
    RunKeepsInv(start, steps, s);
    RunCountsDown(start, steps, s);
    UnstartedWeight(Min(maxParallel, files));
    assert start.workers == seq(Min(maxParallel, files), _ => Unstarted);
    WeightZero(s.workers);
    if Joined(s) {
      if files > 0 { assert s.workers[0].Finished?; }
    } else {
      SomeStepEnabled(s);
    }
  }

  // ----- the summary

  function Failures(results: seq<bool>): seq<nat> { FailuresFrom(results, 0) }

  function FailuresFrom(results: seq<bool>, at: nat): (f: seq<nat>)
    requires at <= |results|
    ensures forall i :: i in f <==> at <= i < |results| && !results[i]
    decreases |results| - at
  {
    if at == |results| then [] else (if results[at] then [] else [at]) + FailuresFrom(results, at + 1)
  }

  method Summarize(results: seq<bool>) returns (status: int, okCount: nat, failures: seq<nat>)
    ensures status == 0 <==> forall i :: 0 <= i < |results| ==> results[i]
    ensures status in {0, 1}
    ensures okCount + |failures| == |results|
    ensures failures == Failures(results)
  {
    okCount, failures := 0, [];
    for i := 0 to |results|
      invariant okCount + |failures| == i
      invariant failures + FailuresFrom(results, i) == Failures(results)
    {
      if results[i] {
        okCount := okCount + 1;
      } else {
        assert failures + ([i] + FailuresFrom(results, i + 1)) == failures + [i] + FailuresFrom(results, i + 1);
        failures := failures + [i];
      }
    }
    assert failures + [] == failures;
    if failures == [] {
      assert forall i :: 0 <= i < |results| && !results[i] ==> i in failures;
      return 0, okCount, failures;
    }
    assert failures[0] in failures;
    status := 1;
  }

  predicate Ascend(f: seq<nat>) { forall a, b :: 0 <= a < b < |f| ==> f[a] < f[b] }

  /** The failures are listed in the order of the files. */
  lemma {:induction false} FailuresAscend(results: seq<bool>, at: nat)
    requires at <= |results|
    ensures Ascend(FailuresFrom(results, at))
    decreases |results| - at
  {
    if at < |results| {
      FailuresAscend(results, at + 1);
      var rest := FailuresFrom(results, at + 1);
      forall a | 0 <= a < |rest| ensures rest[a] > at { assert rest[a] in rest; }
      assert Ascend([at] + rest);
      assert [] + rest == rest;
    }
  }

  /** The signing of file `i` was recorded as a failure. */
  ghost predicate FailedAt(s: State, i: nat)
  {
    exists k :: 0 <= k < |s.writes| && s.writes[k].index == i && !s.writes[k].ok
  }

  /** The end of a run: the summary after the join. Status zero means that every signing succeeded, and all ran. */
  method ExitStatus(ghost files: nat, ghost maxParallel: nat, ghost steps: seq<Step>, s: State)
    returns (status: int, okCount: nat, failures: seq<nat>)
    requires maxParallel >= 1 && Run(Start(files, maxParallel), steps, s) && Joined(s)
    ensures status in {0, 1} && (status == 0 <==> forall k :: 0 <= k < |s.writes| ==> s.writes[k].ok)
    ensures forall i :: 0 <= i < files ==> WrittenOnce(s, i)
    ensures forall i: nat :: i in failures <==> i < files && FailedAt(s, i)
    ensures Ascend(failures)
    ensures okCount + |failures| == files
  {
    hide Run;
    StatusReflectsRun(files, maxParallel, steps, s);
    JoinIsComplete(files, maxParallel, steps, s);
    status, okCount, failures := Summarize(s.results);
    FailuresAscend(s.results, 0);
    forall i: nat ensures i in failures <==> i < files && FailedAt(s, i) {
      if i < files { assert WrittenOnce(s, i); }
    }
  }

  /** At the join the results are all good exactly when every signing succeeded, and all of them ran. */
  lemma {:induction false} StatusReflectsRun(files: nat, maxParallel: nat, steps: seq<Step>, s: State)
    requires maxParallel >= 1 && Run(Start(files, maxParallel), steps, s) && Joined(s)
    ensures (forall i :: 0 <= i < |s.results| ==> s.results[i]) <==> forall k :: 0 <= k < |s.writes| ==> s.writes[k].ok
    ensures forall i :: 0 <= i < files ==> IsWritten(s, i)
  {
    StartHolds(files, maxParallel);
    RunKeepsInv(Start(files, maxParallel), steps, s);
    JoinIsComplete(files, maxParallel, steps, s);
    forall i | 0 <= i < files ensures IsWritten(s, i) { assert WrittenOnce(s, i); }
    if forall i :: 0 <= i < |s.results| ==> s.results[i] {
      forall k | 0 <= k < |s.writes| ensures s.writes[k].ok { assert s.results[s.writes[k].index]; }
    }
    if forall k :: 0 <= k < |s.writes| ==> s.writes[k].ok {
      forall i | 0 <= i < |s.results| ensures s.results[i] { assert WrittenOnce(s, i); }
    }
  }
}
