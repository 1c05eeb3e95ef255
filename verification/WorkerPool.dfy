/** runBoundedWorkerPool of backlog-curation-source-first-audit.ts: a fixed number of
    runners share the next index and write their results by index. */
module WorkerPool {
  import opened Text

  const MAX_CONCURRENCY := 8
  const DEFAULT_CONCURRENCY := 4

  /** A concurrency setting of any type: an integer, or something that is not one. */
  datatype Setting = Integer(value: int) | NotAnInteger

  function Normalized(setting: Setting): (n: nat)
    ensures 1 <= n <= MAX_CONCURRENCY
    ensures setting.Integer? && 0 < setting.value <= 8 ==> n == setting.value
    ensures setting.Integer? && setting.value > 8 ==> n == 8
    ensures setting.NotAnInteger? || setting.value <= 0 ==> n == 4
  {
    if setting.Integer? && setting.value > 0 then
      if setting.value < MAX_CONCURRENCY then setting.value else MAX_CONCURRENCY
    else DEFAULT_CONCURRENCY
  }

  /** Ready: about to test the loop condition. Threw: aborted, or its worker failed. */
  datatype Runner = Ready | Busy(index: nat) | Finished | Threw

  datatype Pool<R> = Pool(next: nat, runners: seq<Runner>, claims: seq<nat>, results: seq<Option<R>>)

  function Width(n: nat, setting: Setting): (k: nat)
    ensures k <= n && k <= Normalized(setting)
  {
    if Normalized(setting) < n then Normalized(setting) else n
  }

  function Initial<R>(n: nat, setting: Setting): Pool<R> {
    Pool(0, seq(Width(n, setting), _ => Ready), [], seq(n, _ => None))
  }

  // ---- Steps ----

  datatype Event = Turn(r: nat) | Answer(r: nat) | Throw(r: nat)

  /** A runner throws when it is aborted between the loop test and the claim, or when
      its worker fails. */
  predicate Enabled<R(!new)>(p: Pool<R>, e: Event) {
    && e.r < |p.runners|
    && match e
       case Turn(r) => p.runners[r].Ready?
       case Answer(r) => p.runners[r].Busy? && p.runners[r].index < |p.results|
       case Throw(r) => p.runners[r].Busy? || (p.runners[r].Ready? && p.next < |p.results|)
  }

  function After<R(!new)>(p: Pool<R>, e: Event, answer: nat -> R): Pool<R>
    requires Enabled(p, e)
  {
    match e
    case Turn(r) =>
      if p.next < |p.results|
      then p.(next := p.next + 1, claims := p.claims + [p.next], runners := p.runners[r := Busy(p.next)])
      else p.(runners := p.runners[r := Finished])
    case Answer(r) => p.(results := p.results[p.runners[r].index := Some(answer(p.runners[r].index))], runners := p.runners[r := Ready])
    case Throw(r) => p.(runners := p.runners[r := Threw])
  }

  ghost predicate Step<R(!new)>(p: Pool<R>, q: Pool<R>, answer: nat -> R) {
    exists e :: Enabled(p, e) && q == After(p, e, answer)
  }

  ghost predicate IsRun<R(!new)>(run: seq<Pool<R>>, n: nat, setting: Setting, answer: nat -> R) {
    && run != [] && run[0] == Initial(n, setting)
    && forall i :: 0 <= i < |run| - 1 ==> Step(run[i], run[i + 1], answer)
  }

  // ---- Invariant ----

  /** Indexes are claimed in order, and every claimed index is answered, held by exactly
      one runner, or was lost to a runner that threw. */
  ghost predicate PoolInv<R(!new)>(p: Pool<R>, n: nat, answer: nat -> R) {
    && |p.results| == n && p.next <= n && |p.claims| == p.next
    && (forall i :: 0 <= i < p.next ==> p.claims[i] == i)
    && (forall i :: 0 <= i < n ==> p.results[i] == None || (i < p.next && p.results[i] == Some(answer(i))))
    && (forall r :: 0 <= r < |p.runners| && p.runners[r].Busy? ==> p.runners[r].index < p.next && p.results[p.runners[r].index] == None)
    && (forall r, q :: 0 <= r < q < |p.runners| && p.runners[r].Busy? && p.runners[q].Busy? ==> p.runners[r].index != p.runners[q].index)
    && (forall r :: 0 <= r < |p.runners| && p.runners[r].Finished? ==> p.next == n)
  }

  predicate SomeThrew(runners: seq<Runner>) {
    exists r :: 0 <= r < |runners| && runners[r].Threw?
  }

  predicate Held(runners: seq<Runner>, i: nat) {
    exists r :: 0 <= r < |runners| && runners[r] == Busy(i)
  }

  /** Without a throw, a claimed index is answered or in flight. */
  ghost predicate NothingLost<R(!new)>(p: Pool<R>) {
    SomeThrew(p.runners) || forall i :: 0 <= i < p.next && i < |p.results| ==> p.results[i].Some? || Held(p.runners, i)
  }

  lemma StepKeeps<R(!new)>(p: Pool<R>, e: Event, n: nat, answer: nat -> R)
    requires PoolInv(p, n, answer) && Enabled(p, e)
    ensures PoolInv(After(p, e, answer), n, answer) && |After(p, e, answer).runners| == |p.runners|
  {
  }

  lemma StepLosesNothing<R(!new)>(p: Pool<R>, e: Event, n: nat, answer: nat -> R)
    requires PoolInv(p, n, answer) && NothingLost(p) && Enabled(p, e)
    ensures NothingLost(After(p, e, answer))
  {
    var q := After(p, e, answer);
    if SomeThrew(p.runners) {
      var r :| 0 <= r < |p.runners| && p.runners[r].Threw?;
      assert q.runners[r].Threw?;
    } else if e.Throw? {
      assert q.runners[e.r].Threw?;
    } else {
      forall i | 0 <= i < q.next && i < n
        ensures q.results[i].Some? || Held(q.runners, i)
      {
        if i == p.next {
          assert q.runners[e.r] == Busy(i);
        } else if p.results[i].None? {
          var r :| 0 <= r < |p.runners| && p.runners[r] == Busy(i);
          if r != e.r {
            assert q.runners[r] == Busy(i);
          }
        }
      }
    }
  }

  lemma {:induction false} RunKeeps<R(!new)>(run: seq<Pool<R>>, n: nat, setting: Setting, answer: nat -> R)
    requires IsRun(run, n, setting, answer)
    ensures PoolInv(run[|run| - 1], n, answer) && NothingLost(run[|run| - 1]) && |run[|run| - 1].runners| == Width(n, setting)
  {
    if |run| > 1 {
      hide After, Enabled, PoolInv, NothingLost, Initial;
      var p, q := run[|run| - 2], run[|run| - 1];
      RunKeeps(run[..|run| - 1], n, setting, answer);
      assert Step(run[|run| - 2], run[|run| - 2 + 1], answer);
      var e :| Enabled(p, e) && q == After(p, e, answer);
      StepKeeps(p, e, n, answer);
      StepLosesNothing(p, e, n, answer);
    }
  }

  // ---- What the pool promises ----

  /** In every run, indexes are claimed once each and in order by as many runners as the
      setting and the items ask for, at most eight; no two of them work on the same index,
      and every result so far is the worker's answer for its own index. */
  lemma PoolIsBounded<R(!new)>(run: seq<Pool<R>>, n: nat, setting: Setting, answer: nat -> R)
    requires IsRun(run, n, setting, answer)
    ensures var p := run[|run| - 1];
            && p.next <= n && p.claims == seq(p.next, i => i)
            && |p.runners| == (if n < Normalized(setting) then n else Normalized(setting)) && |p.runners| <= 8
            && (forall r :: 0 <= r < |p.runners| && p.runners[r].Busy? ==> p.runners[r].index < p.next)
            && (forall r, q :: 0 <= r < q < |p.runners| && p.runners[r].Busy? && p.runners[q].Busy? ==> p.runners[r].index != p.runners[q].index)
            && |p.results| == n
            && forall i :: 0 <= i < n && p.results[i].Some? ==> i < p.next && p.results[i] == Some(answer(i))
  {
    hide Step, NothingLost;
    RunKeeps(run, n, setting, answer);
    assert run[|run| - 1].claims == seq(run[|run| - 1].next, i => i);
  }

  /** A runner throws at any time while its worker is at work, and between the loop test
      and the claim as long as indexes are left; at no other time, and it changes nothing else. */
  lemma ThrowsExactlyThen<R(!new)>(p: Pool<R>, answer: nat -> R, r: nat)
    requires r < |p.runners| && !p.runners[r].Threw?
    ensures (exists q :: Step(p, q, answer) && r < |q.runners| && q.runners[r].Threw?)
       <==> p.runners[r].Busy? || (p.runners[r].Ready? && p.next < |p.results|)
    ensures forall q :: Step(p, q, answer) && r < |q.runners| && q.runners[r].Threw? ==> q == p.(runners := p.runners[r := Threw])
  {
    if p.runners[r].Busy? || (p.runners[r].Ready? && p.next < |p.results|) {
      assert Enabled(p, Throw(r));
      assert Step(p, After(p, Throw(r), answer), answer);
    }
  }

  predicate AllFinished(runners: seq<Runner>) {
    forall r :: 0 <= r < |runners| ==> runners[r].Finished?
  }

  /** When every runner has returned, every item has its own answer. */
  lemma CompletedPoolHasEveryAnswer<R(!new)>(run: seq<Pool<R>>, n: nat, setting: Setting, answer: nat -> R)
    requires IsRun(run, n, setting, answer)
    requires AllFinished(run[|run| - 1].runners)
    ensures |run[|run| - 1].results| == n && forall i :: 0 <= i < n ==> run[|run| - 1].results[i] == Some(answer(i))
  {
    hide Step;
    RunKeeps(run, n, setting, answer);
    var p := run[|run| - 1];
    assert n > 0 ==> p.runners[0].Finished?;
    assert !SomeThrew(p.runners);
    forall i | 0 <= i < n
      ensures p.results[i] == Some(answer(i))
    {
      assert !Held(p.runners, i);
    }
  }

  // ---- Termination ----

  function Weight(r: Runner): nat {
    match r
    case Ready => 1
    case Busy(_) => 2
    case _ => 0
  }

  function Weights(runners: seq<Runner>): nat {
    if runners == [] then 0 else Weights(runners[..|runners| - 1]) + Weight(runners[|runners| - 1])
  }

  lemma {:induction false} WeightsUpdate(runners: seq<Runner>, r: nat, runner: Runner)
    requires r < |runners|
    ensures Weights(runners[r := runner]) == Weights(runners) - Weight(runners[r]) + Weight(runner)
  {
    var front, last := runners[..|runners| - 1], |runners| - 1;
    if r < last {
      assert runners[r := runner][..last] == front[r := runner];
      WeightsUpdate(front, r, runner);
    } else {
      assert runners[r := runner][..last] == front;
    }
  }

  lemma {:induction false} WeightsOfReady(runners: seq<Runner>)
    requires forall r :: 0 <= r < |runners| ==> runners[r].Ready?
    ensures Weights(runners) == |runners|
  {
    if runners != [] {
      WeightsOfReady(runners[..|runners| - 1]);
    }
  }

  function Remaining<R>(p: Pool<R>): int {
    2 * (|p.results| - p.next) + Weights(p.runners)
  }

  lemma StepShortens<R(!new)>(p: Pool<R>, e: Event, answer: nat -> R)
    requires Enabled(p, e)
    ensures Remaining(After(p, e, answer)) < Remaining(p)
  {
    hide Weights;
    WeightsUpdate(p.runners, e.r, After(p, e, answer).runners[e.r]);
  }

  lemma {:induction false} RunShortens<R(!new)>(run: seq<Pool<R>>, n: nat, setting: Setting, answer: nat -> R)
    requires IsRun(run, n, setting, answer)
    ensures Remaining(run[|run| - 1]) + |run| - 1 <= 2 * n + Width(n, setting)
  {
    if |run| == 1 {
      WeightsOfReady(run[0].runners);
    } else {
      hide After, Enabled, Remaining, Initial;
      var p, q := run[|run| - 2], run[|run| - 1];
      RunShortens(run[..|run| - 1], n, setting, answer);
      assert Step(run[|run| - 2], run[|run| - 2 + 1], answer);
      var e :| Enabled(p, e) && q == After(p, e, answer);
      StepShortens(p, e, answer);
    }
  }

  /** The pool always comes to an end: no run takes more than 2n + min(concurrency, n)
      steps, and as long as some runner is not done a runner can step. */
  lemma PoolTerminates<R(!new)>(run: seq<Pool<R>>, n: nat, setting: Setting, answer: nat -> R)
    requires IsRun(run, n, setting, answer)
    ensures |run| - 1 <= 2 * n + Width(n, setting)
    ensures forall r :: 0 <= r < |run[|run| - 1].runners| && !run[|run| - 1].runners[r].Finished? && !run[|run| - 1].runners[r].Threw? ==>
              Enabled(run[|run| - 1], Turn(r)) || Enabled(run[|run| - 1], Answer(r))
  {
    hide Step, Initial, Weights;
    RunKeeps(run, n, setting, answer);
    RunShortens(run, n, setting, answer);
  }

  // ---- Completion ----

  /** A runner tests the loop condition or takes the answer of its worker. */
  ghost predicate QuietStep<R(!new)>(p: Pool<R>, q: Pool<R>, answer: nat -> R) {
    exists e: Event :: !e.Throw? && Enabled(p, e) && q == After(p, e, answer)
  }

  ghost predicate CanGoOn<R(!new)>(p: Pool<R>, answer: nat -> R) {
    exists q :: QuietStep(p, q, answer)
  }

  /** No abort, and no worker fails. */
  ghost predicate IsQuietRun<R(!new)>(run: seq<Pool<R>>, n: nat, setting: Setting, answer: nat -> R) {
    && run != [] && run[0] == Initial(n, setting)
    && forall i :: 0 <= i < |run| - 1 ==> QuietStep(run[i], run[i + 1], answer)
  }

  lemma {:induction false} QuietRunKeeps<R(!new)>(run: seq<Pool<R>>, n: nat, setting: Setting, answer: nat -> R)
    requires IsQuietRun(run, n, setting, answer)
    ensures IsRun(run, n, setting, answer) && !SomeThrew(run[|run| - 1].runners)
  {
    if |run| > 1 {
      var p, q := run[|run| - 2], run[|run| - 1];
      QuietRunKeeps(run[..|run| - 1], n, setting, answer);
      assert QuietStep(run[|run| - 2], run[|run| - 2 + 1], answer);
      var e: Event :| !e.Throw? && Enabled(p, e) && q == After(p, e, answer);
      forall i | 0 <= i < |run| - 1
        ensures Step(run[i], run[i + 1], answer)
      {
        if i < |run| - 2 {
          assert Step(run[..|run| - 1][i], run[..|run| - 1][i + 1], answer);
        }
      }
    }
  }

  /** However the workers interleave, a run without aborts and failures that cannot go on
      has as many runners as the setting and the items ask for, all of them returned,
      and every item's own answer. */
  lemma QuietRunCompletes<R(!new)>(run: seq<Pool<R>>, n: nat, setting: Setting, answer: nat -> R)
    requires IsQuietRun(run, n, setting, answer) && !CanGoOn(run[|run| - 1], answer)
    ensures |run[|run| - 1].runners| == if n < Normalized(setting) then n else Normalized(setting)
    ensures AllFinished(run[|run| - 1].runners)
    ensures |run[|run| - 1].results| == n && forall i :: 0 <= i < n ==> run[|run| - 1].results[i] == Some(answer(i))
  {
    hide QuietStep;
    QuietRunKeeps(run, n, setting, answer);
    RunKeeps(run, n, setting, answer);
    var p := run[|run| - 1];
    forall r | 0 <= r < |p.runners|
      ensures p.runners[r].Finished?
    {
      if !p.runners[r].Finished? {
        RunnerCanStep(p, n, answer, r);
      }
    }
    CompletedPoolHasEveryAnswer(run, n, setting, answer);
  }

  lemma RunnerCanStep<R(!new)>(p: Pool<R>, n: nat, answer: nat -> R, r: nat)
    requires PoolInv(p, n, answer) && r < |p.runners| && !p.runners[r].Finished? && !p.runners[r].Threw?
    ensures CanGoOn(p, answer)
  {
    var e := if p.runners[r].Ready? then Turn(r) else Answer(r);
    assert Enabled(p, e) && !e.Throw?;
    assert QuietStep(p, After(p, e, answer), answer);
  }
}
