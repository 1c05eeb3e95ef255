/** The per-key promise chain shared by draft-plan-unit-store.ts, plan-revision-store.ts
    and plan-revision-actions.ts, as a state machine. A call chains its task after the
    promise the map holds for the key and stores its own promise there; a finished
    chain removes its map entry only when the entry is still its own. */
module PromiseChain {
  import opened Text

  datatype Phase = Waiting | Running | Settled | Cleaned

  datatype Task<Key> = Task(key: Key, prior: Option<nat>, phase: Phase)

  datatype Chain<Key> = Chain(tasks: seq<Task<Key>>, entries: map<Key, nat>)

  // ---- Steps ----

  function Called<Key(==)>(c: Chain<Key>, key: Key): Chain<Key> {
    var prior := if key in c.entries then Some(c.entries[key]) else None;
    Chain(c.tasks + [Task(key, prior, Waiting)], c.entries[key := |c.tasks|])
  }

  function WithPhase<Key>(c: Chain<Key>, t: nat, phase: Phase): Chain<Key>
    requires t < |c.tasks|
  {
    c.(tasks := c.tasks[t := c.tasks[t].(phase := phase)])
  }

  predicate InPhase<Key(!new)>(c: Chain<Key>, t: nat, phase: Phase) {
    t < |c.tasks| && c.tasks[t].phase == phase
  }

  /** A task may start once the promise it was chained to has settled, which is after
      that promise's cleanup ran. */
  predicate CanStart<Key(!new)>(c: Chain<Key>, t: nat) {
    && InPhase(c, t, Waiting)
    && (c.tasks[t].prior.None? || InPhase(c, c.tasks[t].prior.value, Cleaned))
  }

  function CleanedUp<Key(==)>(c: Chain<Key>, t: nat): Chain<Key>
    requires t < |c.tasks|
  {
    var key := c.tasks[t].key;
    var cleaned := WithPhase(c, t, Cleaned);
    if key in c.entries && c.entries[key] == t then cleaned.(entries := c.entries - {key}) else cleaned
  }

  ghost predicate Step<Key(!new)>(c: Chain<Key>, d: Chain<Key>) {
    || (exists key :: d == Called(c, key))
    || (exists t :: CanStart(c, t) && d == WithPhase(c, t, Running))
    || (exists t :: InPhase(c, t, Running) && d == WithPhase(c, t, Settled))
    || (exists t :: InPhase(c, t, Settled) && d == CleanedUp(c, t))
  }

  // ---- Invariant ----

  ghost predicate AllCleaned<Key(!new)>(c: Chain<Key>, key: Key, n: nat) {
    forall u :: 0 <= u < n && u < |c.tasks| && c.tasks[u].key == key ==> c.tasks[u].phase == Cleaned
  }

  /** No call for the key between p and t. */
  ghost predicate NextCall<Key(!new)>(c: Chain<Key>, key: Key, p: nat, t: nat) {
    && p < t && p < |c.tasks| && c.tasks[p].key == key
    && forall u :: p < u < t && u < |c.tasks| ==> c.tasks[u].key != key
  }

  /** Each task was chained to the call before it for its key, or found every earlier
      call cleaned; and once it runs every earlier call is cleaned. */
  ghost predicate TaskInv<Key(!new)>(c: Chain<Key>, t: nat)
    requires t < |c.tasks|
  {
    var task := c.tasks[t];
    && (task.prior.Some? ==> NextCall(c, task.key, task.prior.value, t))
    && (task.prior.None? || task.phase != Waiting ==> AllCleaned(c, task.key, t))
  }

  ghost predicate EntryInv<Key(!new)>(c: Chain<Key>, key: Key) {
    if key in c.entries then NextCall(c, key, c.entries[key], |c.tasks|) && c.tasks[c.entries[key]].phase != Cleaned
    else AllCleaned(c, key, |c.tasks|)
  }

  ghost predicate Inv<Key(!new)>(c: Chain<Key>) {
    (forall t :: 0 <= t < |c.tasks| ==> TaskInv(c, t)) && (forall key :: EntryInv(c, key))
  }

  lemma CallKeepsInv<Key(!new)>(c: Chain<Key>, key: Key)
    requires Inv(c)
    ensures Inv(Called(c, key))
  {
    var d := Called(c, key);
    var n := |c.tasks|;
    assert EntryInv(c, key);
    forall t | 0 <= t < |d.tasks|
      ensures TaskInv(d, t)
    {
      if t < n {
        assert TaskInv(c, t);
      }
    }
    forall k
      ensures EntryInv(d, k)
    {
      assert EntryInv(c, k);
    }
  }

  /** Everything before a task whose predecessor is cleaned is cleaned. */
  lemma EarlierCleaned<Key(!new)>(c: Chain<Key>, t: nat)
    requires Inv(c) && CanStart(c, t)
    ensures AllCleaned(c, c.tasks[t].key, t)
  {
    assert TaskInv(c, t);
    if c.tasks[t].prior.Some? {
      assert TaskInv(c, c.tasks[t].prior.value);
    }
  }

  lemma StartKeepsInv<Key(!new)>(c: Chain<Key>, t: nat)
    requires Inv(c) && CanStart(c, t)
    ensures Inv(WithPhase(c, t, Running))
  {
    EarlierCleaned(c, t);
    PhaseKeepsInv(c, t, Running);
  }

  /** A phase change short of Cleaned keeps the invariant, given that a task leaving
      Waiting has only cleaned tasks before it. */
  lemma PhaseKeepsInv<Key(!new)>(c: Chain<Key>, t: nat, phase: Phase)
    requires Inv(c) && t < |c.tasks| && c.tasks[t].phase != Cleaned && phase != Cleaned
    requires AllCleaned(c, c.tasks[t].key, t)
    ensures Inv(WithPhase(c, t, phase))
  {
    var d := WithPhase(c, t, phase);
    forall u | 0 <= u < |d.tasks|
      ensures TaskInv(d, u)
    {
      assert TaskInv(c, u);
    }
    forall k
      ensures EntryInv(d, k)
    {
      assert EntryInv(c, k);
    }
  }

  lemma CleanupKeepsInv<Key(!new)>(c: Chain<Key>, t: nat)
    requires Inv(c) && InPhase(c, t, Settled)
    ensures Inv(CleanedUp(c, t))
  {
    var d := CleanedUp(c, t);
    assert TaskInv(c, t);
    forall u | 0 <= u < |d.tasks|
      ensures TaskInv(d, u)
    {
      assert TaskInv(c, u);
    }
    forall k
      ensures EntryInv(d, k)
    {
      assert EntryInv(c, k);
    }
  }

  lemma StepKeepsInv<Key(!new)>(c: Chain<Key>, d: Chain<Key>)
    requires Inv(c) && Step(c, d)
    ensures Inv(d)
  {
    hide Inv;
    if key :| d == Called(c, key) {
      CallKeepsInv(c, key);
    } else if t :| CanStart(c, t) && d == WithPhase(c, t, Running) {
      StartKeepsInv(c, t);
    } else if t :| InPhase(c, t, Running) && d == WithPhase(c, t, Settled) {
      ActiveAlone(c, t);
      PhaseKeepsInv(c, t, Settled);
    } else {
      var t :| InPhase(c, t, Settled) && d == CleanedUp(c, t);
      CleanupKeepsInv(c, t);
    }
  }

  // ---- What the lock promises ----

  ghost predicate IsRun<Key(!new)>(run: seq<Chain<Key>>) {
    && run != [] && run[0] == Chain([], map[])
    && forall i :: 0 <= i < |run| - 1 ==> Step(run[i], run[i + 1])
  }

  lemma {:induction false} RunKeepsInv<Key(!new)>(run: seq<Chain<Key>>)
    requires IsRun(run)
    ensures Inv(run[|run| - 1])
  {
    hide Step;
    if |run| == 1 {
    } else {
      hide Inv;
      RunKeepsInv(run[..|run| - 1]);
      StepKeepsInv(run[|run| - 2], run[|run| - 1]);
    }
  }

  /** A task that has left Waiting has every earlier call for its key finished and
      cleaned up, and every later call for its key still waiting unless it is cleaned
      up itself. */
  lemma ActiveAlone<Key(!new)>(c: Chain<Key>, t: nat)
    requires Inv(c) && t < |c.tasks| && c.tasks[t].phase != Waiting
    ensures AllCleaned(c, c.tasks[t].key, t)
    ensures c.tasks[t].phase != Cleaned ==>
              forall u :: t < u < |c.tasks| && c.tasks[u].key == c.tasks[t].key ==> c.tasks[u].phase == Waiting
  {
    assert TaskInv(c, t);
    forall u | t < u < |c.tasks| && c.tasks[u].key == c.tasks[t].key && c.tasks[u].phase != Waiting
      ensures c.tasks[t].phase == Cleaned
    {
      assert TaskInv(c, u);
    }
  }

  /** In every run, at most one task per key is between its start and its cleanup, and
      a task only starts after every earlier call for its key is over: calls for one
      key run one at a time, in call order. */
  lemma RunsAreExclusiveAndOrdered<Key(!new)>(run: seq<Chain<Key>>, t: nat, u: nat)
    requires IsRun(run)
    requires t < u < |run[|run| - 1].tasks| && run[|run| - 1].tasks[t].key == run[|run| - 1].tasks[u].key
    ensures run[|run| - 1].tasks[u].phase != Waiting ==> run[|run| - 1].tasks[t].phase == Cleaned
  {
    hide Step;
    RunKeepsInv(run);
    if run[|run| - 1].tasks[u].phase != Waiting {
      ActiveAlone(run[|run| - 1], u);
    }
  }

  /** Only this task moves, to the phase that comes after its own. */
  ghost predicate Moves<Key(!new)>(c: Chain<Key>, d: Chain<Key>, u: nat) {
    && u < |c.tasks| == |d.tasks|
    && (forall v :: 0 <= v < |c.tasks| && v != u ==> d.tasks[v] == c.tasks[v])
    && d.tasks[u].key == c.tasks[u].key && d.tasks[u].prior == c.tasks[u].prior
    && match c.tasks[u].phase
       case Waiting => d.tasks[u].phase == Running
       case Running => d.tasks[u].phase == Settled
       case Settled => d.tasks[u].phase == Cleaned
       case Cleaned => false
  }

  ghost predicate CanMove<Key(!new)>(c: Chain<Key>, u: nat) {
    exists d :: Step(c, d) && Moves(c, d, u)
  }

  lemma TaskCanMove<Key(!new)>(c: Chain<Key>, t: nat)
    requires t < |c.tasks| && c.tasks[t].phase != Cleaned && (c.tasks[t].phase == Waiting ==> CanStart(c, t))
    ensures CanMove(c, t)
  {
    var phase := c.tasks[t].phase;
    var d := if phase == Waiting then WithPhase(c, t, Running) else if phase == Running then WithPhase(c, t, Settled) else CleanedUp(c, t);
    assert InPhase(c, t, c.tasks[t].phase);
    assert Step(c, d) && Moves(c, d, t);
  }

  lemma {:induction false} EarliestCanMove<Key(!new)>(c: Chain<Key>, t: nat) returns (u: nat)
    requires Inv(c) && t < |c.tasks| && c.tasks[t].phase != Cleaned
    ensures u <= t && c.tasks[u].key == c.tasks[t].key && CanMove(c, u)
    decreases t
  {
    hide Step, Moves, CanMove;
    assert TaskInv(c, t);
    var prior := c.tasks[t].prior;
    if c.tasks[t].phase == Waiting && prior.Some? && c.tasks[prior.value].phase != Cleaned {
      u := EarliestCanMove(c, prior.value);
    } else {
      u := t;
      TaskCanMove(c, t);
    }
  }

  /** Nothing blocks for ever: while a call of a key is not over, that call or an earlier
      one for the key can move on to its next phase. */
  lemma SomeTaskCanMove<Key(!new)>(run: seq<Chain<Key>>, t: nat)
    requires IsRun(run) && t < |run[|run| - 1].tasks| && run[|run| - 1].tasks[t].phase != Cleaned
    ensures var c := run[|run| - 1];
            exists u :: 0 <= u <= t && u < |c.tasks| && c.tasks[u].key == c.tasks[t].key && CanMove(c, u)
  {
    hide Step;
    RunKeepsInv(run);
    var u := EarliestCanMove(run[|run| - 1], t);
  }

  // ---- Every call comes to its end ----

  function PhasesLeft<Key>(tasks: seq<Task<Key>>): (n: nat) {
    if tasks == [] then 0
    else
      PhasesLeft(tasks[..|tasks| - 1])
      + match tasks[|tasks| - 1].phase case Waiting => 3 case Running => 2 case Settled => 1 case Cleaned => 0
  }

  lemma {:induction false} MoveShortens<Key(!new)>(c: Chain<Key>, d: Chain<Key>, u: nat)
    requires Moves(c, d, u)
    ensures PhasesLeft(d.tasks) + 1 == PhasesLeft(c.tasks)
    decreases |c.tasks|
  {
    var n := |c.tasks| - 1;
    var a, b := Chain(c.tasks[..n], map[]), Chain(d.tasks[..n], map[]);
    if u < n {
      MoveShortens(a, b, u);
    } else {
      assert a.tasks == b.tasks;
    }
  }

  /** The same calls, all over. */
  ghost predicate AllOver<Key(!new)>(c: Chain<Key>, d: Chain<Key>) {
    |d.tasks| == |c.tasks| && forall t :: 0 <= t < |d.tasks| ==> d.tasks[t] == c.tasks[t].(phase := Cleaned)
  }

  lemma OverAfterMove<Key(!new)>(c: Chain<Key>, d: Chain<Key>, u: nat, end: Chain<Key>)
    requires Moves(c, d, u) && AllOver(d, end)
    ensures AllOver(c, end)
  {
    forall t | 0 <= t < |end.tasks|
      ensures end.tasks[t] == c.tasks[t].(phase := Cleaned)
    {
      assert t != u ==> d.tasks[t] == c.tasks[t];
    }
  }

  /** However the calls so far have been interleaved, when no more come they can all come
      to their end, in as many steps as they have phases left, whatever their outcome. */
  lemma {:induction false} EveryCallCanEnd<Key(!new)>(run: seq<Chain<Key>>) returns (more: seq<Chain<Key>>)
    requires IsRun(run)
    ensures IsRun(run + more) && |more| == PhasesLeft(run[|run| - 1].tasks)
    ensures AllOver(run[|run| - 1], (run + more)[|run| + |more| - 1])
    decreases PhasesLeft(run[|run| - 1].tasks)
  {
    var c := run[|run| - 1];
    hide *;
    if t: nat :| t < |c.tasks| && c.tasks[t].phase != Cleaned {
      var d, u := NextMove(run, t);
      MoveShortens(c, d, u);
      RunGoesOn(run, d);
      var rest := EveryCallCanEnd(run + [d]);
      more := [d] + rest;
      OneMore(run, d, rest);
      OverAfterMove(c, d, u, (run + more)[|run| + |more| - 1]);
    } else {
      more := [];
      assert run + more == run;
      NothingLeft(c.tasks);
      OverAlready(c);
    }
  }

  lemma OneMore<T>(run: seq<T>, d: T, rest: seq<T>)
    ensures run + ([d] + rest) == run + [d] + rest
    ensures (run + [d] + rest)[|run| + |rest|] == (run + ([d] + rest))[|run| + |[d] + rest| - 1]
  {
  }

  lemma NextMove<Key(!new)>(run: seq<Chain<Key>>, t: nat) returns (d: Chain<Key>, u: nat)
    requires IsRun(run) && t < |run[|run| - 1].tasks| && run[|run| - 1].tasks[t].phase != Cleaned
    ensures Step(run[|run| - 1], d) && Moves(run[|run| - 1], d, u)
  {
    hide Step, Moves;
    SomeTaskCanMove(run, t);
    var c := run[|run| - 1];
    u :| 0 <= u <= t && u < |c.tasks| && c.tasks[u].key == c.tasks[t].key && CanMove(c, u);
    d :| Step(c, d) && Moves(c, d, u);
  }

  lemma OverAlready<Key(!new)>(c: Chain<Key>)
    requires forall t :: 0 <= t < |c.tasks| ==> c.tasks[t].phase == Cleaned
    ensures AllOver(c, c)
  {
  }

  lemma RunGoesOn<Key(!new)>(run: seq<Chain<Key>>, d: Chain<Key>)
    requires IsRun(run) && Step(run[|run| - 1], d)
    ensures IsRun(run + [d])
  {
    hide Step;
    var all := run + [d];
    forall i | 0 <= i < |all| - 1
      ensures Step(all[i], all[i + 1])
    {
      if i < |run| - 1 {
        assert Step(run[i], run[i + 1]);
      }
    }
  }

  lemma {:induction false} NothingLeft<Key(!new)>(tasks: seq<Task<Key>>)
    requires forall t :: 0 <= t < |tasks| ==> tasks[t].phase == Cleaned
    ensures PhasesLeft(tasks) == 0
  {
    if tasks != [] {
      NothingLeft(tasks[..|tasks| - 1]);
    }
  }

  /** The map entry of a key is gone exactly when every task of the key is over, so a
      call that finds no entry has nothing to wait for. */
  lemma EntryGoneIffAllOver<Key(!new)>(run: seq<Chain<Key>>, key: Key)
    requires IsRun(run)
    ensures key !in run[|run| - 1].entries <==> AllCleaned(run[|run| - 1], key, |run[|run| - 1].tasks|)
  {
    hide Step;
    RunKeepsInv(run);
    assert EntryInv(run[|run| - 1], key);
  }
}
