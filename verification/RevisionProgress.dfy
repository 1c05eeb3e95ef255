/** When a call may start a revision turn: it can whenever no recorded turn of its session
    is queued or running, and in no interleaving does it while one is. */
module RevisionProgress {
  import opened Text
  import PromiseChain
  import opened RevisionTurns

  /** The steps of call t. */
  predicate OwnStep(t: nat, e: Event) {
    match e
    case CheckParent(u, _) => u == t
    case Snapshot(u) => u == t
    case Check(u, _) => u == t
    case Abort(u) => u == t
    case StartTask(u) => u == t
    case Record(u) => u == t
    case RecordFails(u) => u == t
    case CancelStarted(u) => u == t
    case _ => false
  }

  /** Steps of call t alone that lead from s to r. */
  ghost predicate OwnRun(s: Turns, t: nat, events: seq<Event>, r: Turns)
    decreases |events|
  {
    if events == [] then r == s
    else OwnStep(t, events[0]) && Enabled(s, events[0]) && OwnRun(After(s, events[0]), t, events[1..], r)
  }

  lemma OneMore(s: Turns, t: nat, e: Event, events: seq<Event>, r: Turns)
    requires OwnStep(t, e) && Enabled(s, e) && OwnRun(After(s, e), t, events, r)
    ensures OwnRun(s, t, [e] + events, r)
  {
    hide Enabled, After;
    assert ([e] + events)[1..] == events;
  }

  lemma Alone(s: Turns, t: nat, e: Event)
    requires OwnStep(t, e) && Enabled(s, e)
    ensures OwnRun(s, t, [e], After(s, e))
  {
    hide Enabled, After;
    assert [e][1..] == [];
  }

  predicate Unfinished(status: Status) {
    status == Queued || status == Executing
  }

  /** No recorded turn of the session is queued or running. */
  ghost predicate Idle(s: Turns, session: string) {
    forall task :: session in s.recorded && task in s.recorded[session] && task < |s.tasks| ==> !Unfinished(s.tasks[task].status)
  }

  /** The call runs, and is about to be checked against its session's turns. */
  ghost predicate MayStart(s: Turns, t: nat, parent: Option<nat>) {
    && PromiseChain.InPhase(s.chain, t, PromiseChain.Running) && t < |s.stages| == |s.kinds|
    && (|| (s.stages[t].Entered? && s.kinds[t] == Start && parent == None)
        || s.stages[t] == Ready(parent)
        || (s.stages[t].Checking? && s.stages[t].parent == parent))
  }

  /** Call t has just had its task queued by the daemon, and nothing else changed. */
  ghost predicate HasStarted(s: Turns, t: nat, parent: Option<nat>, r: Turns)
    requires t < |s.chain.tasks| && t < |s.stages|
  {
    && r.chain == s.chain && r.kinds == s.kinds && r.recorded == s.recorded
    && r.stages == s.stages[t := Started(|s.tasks|)]
    && r.tasks == s.tasks + [AgentTask(Queued, false, s.chain.tasks[t].key, parent)]
  }

  // ---- It can ----

  /** Looking up finished turns, one after the other. */
  lemma {:induction false} ChecksPass(s: Turns, t: nat, parent: Option<nat>) returns (events: seq<Event>, r: Turns)
    requires PromiseChain.InPhase(s.chain, t, PromiseChain.Running) && t < |s.stages| == |s.kinds|
    requires s.stages[t].Checking? && s.stages[t].parent == parent
    requires forall task :: task in s.stages[t].left ==> task < |s.tasks| && !Unfinished(s.tasks[task].status)
    ensures OwnRun(s, t, events, r) && HasStarted(s, t, parent, r)
    decreases |s.stages[t].left|
  {
    if s.stages[t].left == {} {
      var e := StartTask(t);
      events, r := [e], After(s, e);
      Alone(s, t, e);
    } else {
      var task :| task in s.stages[t].left;
      var e := Check(t, task);
      var next := After(s, e);
      assert next == s.(stages := s.stages[t := Checking(s.stages[t].left - {task}, parent)]);
      var more: seq<Event>;
      more, r := ChecksPass(next, t, parent);
      events := [e] + more;
      OneMore(s, t, e, more, r);
    }
  }

  /** Every reachable state knows the daemon tasks it has recorded. */
  lemma RecordedAreKnown(run: seq<Turns>, t: nat)
    requires IsRun(run) && t < |run[|run| - 1].stages|
    ensures var s := run[|run| - 1];
            && |s.stages| == |s.kinds| == |s.chain.tasks|
            && (forall session, task :: task in Recorded(s, session) ==> task < |s.tasks|)
            && (forall task :: s.stages[t].Checking? && task in Recorded(s, s.chain.tasks[t].key) && task !in s.stages[t].left ==> !LiveTask(s, task))
  {
    hide Step;
    RunKeeps(run);
    var s := run[|run| - 1];
    hide PromiseChain.Inv, Accounted, FinishedParent;
    assert StageInv(s, t);
    forall session, task | task in Recorded(s, session)
      ensures task < |s.tasks|
    {
      assert RecordInv(s, session);
    }
  }

  /** The turns still to be looked up were recorded when the call began its lookups, and
      no turn is recorded for the session since. */
  ghost predicate LeftIsRecorded(s: Turns) {
    && |s.stages| == |s.chain.tasks|
    && forall t :: 0 <= t < |s.stages| && s.stages[t].Checking? ==> s.stages[t].left <= Recorded(s, s.chain.tasks[t].key)
  }

  lemma StepKeepsLeft(s: Turns, e: Event)
    requires LeftIsRecorded(s) && Enabled(s, e) && |s.stages| == |s.kinds|
    ensures LeftIsRecorded(After(s, e))
  {
  }

  lemma {:induction false} RunKeepsLeft(run: seq<Turns>)
    requires IsRun(run)
    ensures LeftIsRecorded(run[|run| - 1])
  {
    hide After, Enabled;
    if |run| > 1 {
      hide LeftIsRecorded;
      var s, r := run[|run| - 2], run[|run| - 1];
      RunKeepsLeft(run[..|run| - 1]);
      ShapeOfRun(run[..|run| - 1]);
      assert Step(run[|run| - 2], run[|run| - 2 + 1]);
      var e :| Enabled(s, e) && r == After(s, e);
      StepKeepsLeft(s, e);
    }
  }

  lemma ShapeOfRun(run: seq<Turns>)
    requires IsRun(run)
    ensures |run[|run| - 1].stages| == |run[|run| - 1].kinds| == |run[|run| - 1].chain.tasks|
  {
    hide Step, PromiseChain.Inv, StageInv, RecordInv, TaskInv;
    RunKeeps(run);
  }

  /** In every reachable state: when no recorded turn of the session is queued or running, a
      running call that is about to start, whose parent has been checked, can do so by its
      own steps, and can then record the turn. */
  lemma IdleSessionStarts(run: seq<Turns>, t: nat, parent: Option<nat>) returns (events: seq<Event>, r: Turns)
    requires IsRun(run) && MayStart(run[|run| - 1], t, parent) && Idle(run[|run| - 1], run[|run| - 1].chain.tasks[t].key)
    ensures OwnRun(run[|run| - 1], t, events, r) && HasStarted(run[|run| - 1], t, parent, r)
  {
    var s := run[|run| - 1];
    hide Step, IsRun;
    RecordedAreKnown(run, t);
    RunKeepsLeft(run);
    if s.stages[t].Checking? {
      events, r := ChecksPass(s, t, parent);
    } else {
      var e := Snapshot(t);
      var next := After(s, e);
      var more: seq<Event>;
      more, r := ChecksPass(next, t, parent);
      events := [e] + more;
      OneMore(s, t, e, more, r);
    }
  }

  /** A started turn is recorded by one more step, which ends the call. */
  lemma StartedTurnIsRecorded(s: Turns, t: nat, task: nat) returns (r: Turns)
    requires PromiseChain.InPhase(s.chain, t, PromiseChain.Running) && t < |s.stages| == |s.kinds| && s.stages[t] == Started(task)
    ensures OwnRun(s, t, [Record(t)], r) && PromiseChain.InPhase(r.chain, t, PromiseChain.Settled) && r.tasks == s.tasks
    ensures s.chain.tasks[t].key in r.recorded
    ensures forall session, u :: session in r.recorded && u in r.recorded[session]
              <==> (session in s.recorded && u in s.recorded[session]) || (session == s.chain.tasks[t].key && u == task)
  {
    var e := Record(t);
    r := After(s, e);
    Alone(s, t, e);
  }

  /** What a retry asks of its parent: a plain one that it failed or was cancelled, a redraft
      that it completed asking for input. */
  predicate ParentAllows(status: Status, redraft: bool) {
    match status
    case Failed => !redraft
    case Cancelled => !redraft
    case Completed(needsInput) => redraft && needsInput
    case _ => false
  }

  /** A retry of a recorded turn whose status allows it starts when the session is idle. */
  lemma RetryStarts(run: seq<Turns>, t: nat, parent: nat) returns (events: seq<Event>, r: Turns)
    requires IsRun(run) && PromiseChain.InPhase(run[|run| - 1].chain, t, PromiseChain.Running) && t < |run[|run| - 1].stages| == |run[|run| - 1].kinds|
    requires run[|run| - 1].stages[t] == Entered && run[|run| - 1].kinds[t].Retry?
    requires parent in Recorded(run[|run| - 1], run[|run| - 1].chain.tasks[t].key) && parent < |run[|run| - 1].tasks|
    requires ParentAllows(run[|run| - 1].tasks[parent].status, run[|run| - 1].kinds[t].redraft)
    requires Idle(run[|run| - 1], run[|run| - 1].chain.tasks[t].key)
    ensures OwnRun(run[|run| - 1], t, events, r) && HasStarted(run[|run| - 1], t, Some(parent), r)
  {
    var s := run[|run| - 1];
    var e := CheckParent(t, parent);
    var next := After(s, e);
    assert next == s.(stages := s.stages[t := Ready(Some(parent))]);
    RunGrows(run, e);
    hide Step, IsRun, After, Enabled;
    var more: seq<Event>;
    more, r := IdleSessionStarts(run + [next], t, Some(parent));
    events := [e] + more;
    OneMore(s, t, e, more, r);
    assert next.stages[t := Started(|s.tasks|)] == s.stages[t := Started(|s.tasks|)];
  }

  lemma RunGrows(run: seq<Turns>, e: Event)
    requires IsRun(run) && Enabled(run[|run| - 1], e)
    ensures IsRun(run + [After(run[|run| - 1], e)])
  {
    hide After, Enabled;
    var longer := run + [After(run[|run| - 1], e)];
    forall i | 0 <= i < |longer| - 1
      ensures Step(longer[i], longer[i + 1])
    {
      if i < |run| - 1 {
        assert Step(run[i], run[i + 1]);
        assert longer[i] == run[i] && longer[i + 1] == run[i + 1];
      } else {
        assert longer[i] == run[|run| - 1] && longer[i + 1] == After(run[|run| - 1], e);
      }
    }
  }

  // ---- It cannot ----

  predicate NotYetStarted(stage: Stage) {
    stage.Entered? || stage.Ready? || stage.Checking? || stage.Done?
  }

  /** Call t has not started a turn, and the other one is recorded for its session. */
  ghost predicate Blocked(s: Turns, t: nat, session: string, task: nat) {
    && t < |s.stages| && t < |s.chain.tasks| && s.chain.tasks[t].key == session && NotYetStarted(s.stages[t])
    && session in s.recorded && task in s.recorded[session]
  }

  lemma BlockedStep(s: Turns, e: Event, t: nat, session: string, task: nat)
    requires TurnsInv(s) && Enabled(s, e) && Blocked(s, t, session, task)
    requires task < |s.tasks| && Unfinished(s.tasks[task].status)
    ensures Blocked(After(s, e), t, session, task)
  {
    hide TurnsInv, Retriable, CanBecome;
    CannotStart(s, t, session, task);
  }

  lemma CannotStart(s: Turns, t: nat, session: string, task: nat)
    requires TurnsInv(s) && Blocked(s, t, session, task) && task < |s.tasks| && Unfinished(s.tasks[task].status)
    ensures !Enabled(s, StartTask(t))
  {
    hide PromiseChain.Inv, RecordInv, TaskInv;
    assert StageInv(s, t);
    assert LiveTask(s, task) && task in Recorded(s, session);
  }

  /** In no interleaving does a call start a turn while one recorded turn of its session
      stays queued or running: whatever the other calls and the daemon do, it is still
      waiting or checking, or over. */
  lemma {:induction false} LiveTurnBlocks(run: seq<Turns>, i: nat, j: nat, t: nat, session: string, task: nat)
    requires IsRun(run) && i <= j < |run| && Blocked(run[i], t, session, task)
    requires forall k :: i <= k <= j ==> task < |run[k].tasks| && Unfinished(run[k].tasks[task].status)
    ensures Blocked(run[j], t, session, task)
    decreases j
  {
    hide After, Enabled, TurnsInv, Blocked;
    if i < j {
      LiveTurnBlocks(run, i, j - 1, t, session, task);
      RunKeeps(run[..j]);
      assert run[..j][|run[..j]| - 1] == run[j - 1];
      assert Step(run[j - 1], run[j - 1 + 1]);
      var e :| Enabled(run[j - 1], e) && run[j] == After(run[j - 1], e);
      BlockedStep(run[j - 1], e, t, session, task);
    }
  }

  /** A checked call of kind start has no parent; a retry has a recorded turn of its session,
      with a status that allows it, or since forgotten by the daemon. */
  ghost predicate ParentFits(s: Turns, t: nat, parent: Option<nat>)
    requires t < |s.kinds| && t < |s.chain.tasks|
  {
    match s.kinds[t]
    case Start => parent == None
    case Retry(redraft) =>
      && parent.Some? && parent.value < |s.tasks| && parent.value in Recorded(s, s.chain.tasks[t].key)
      && (ParentAllows(s.tasks[parent.value].status, redraft) || s.tasks[parent.value].status == Missing)
  }

  ghost predicate ParentsFit(s: Turns) {
    && |s.stages| == |s.kinds| == |s.chain.tasks|
    && forall t :: 0 <= t < |s.stages| && (s.stages[t].Ready? || s.stages[t].Checking?) ==> ParentFits(s, t, s.stages[t].parent)
  }

  /** Nothing but the daemon forgetting it changes what was found of a parent. */
  lemma ParentStaysFit(s: Turns, e: Event, t: nat, parent: Option<nat>)
    requires Enabled(s, e) && t < |s.kinds| && t < |s.chain.tasks| && ParentFits(s, t, parent)
    ensures t < |After(s, e).kinds| && t < |After(s, e).chain.tasks| && ParentFits(After(s, e), t, parent)
  {
    hide After, Enabled, Recorded;
    CallStays(s, e, t);
    if parent.Some? && parent.value < |s.tasks| {
      ParentMoves(s, e, parent.value);
      RecordsStay(s, e, s.chain.tasks[t].key);
    }
  }

  lemma CallStays(s: Turns, e: Event, t: nat)
    requires Enabled(s, e) && t < |s.kinds| && t < |s.chain.tasks|
    ensures t < |After(s, e).kinds| && t < |After(s, e).chain.tasks|
    ensures After(s, e).kinds[t] == s.kinds[t] && After(s, e).chain.tasks[t].key == s.chain.tasks[t].key
  {
  }

  lemma ParentMoves(s: Turns, e: Event, task: nat)
    requires Enabled(s, e) && task < |s.tasks|
    ensures task < |After(s, e).tasks|
    ensures !Unfinished(s.tasks[task].status) ==>
              After(s, e).tasks[task].status == s.tasks[task].status || After(s, e).tasks[task].status == Missing
    ensures s.tasks[task].cancelRequested ==> After(s, e).tasks[task].cancelRequested
  {
  }

  lemma RecordsStay(s: Turns, e: Event, session: string)
    requires Enabled(s, e)
    ensures Recorded(s, session) <= Recorded(After(s, e), session)
  {
  }

  lemma StepKeepsParents(s: Turns, e: Event)
    requires ParentsFit(s) && Enabled(s, e)
    ensures ParentsFit(After(s, e))
  {
    var r := After(s, e);
    hide ParentFits;
    forall t | 0 <= t < |r.stages| && (r.stages[t].Ready? || r.stages[t].Checking?)
      ensures ParentFits(r, t, r.stages[t].parent)
    {
      assert t < |s.stages|;
      if s.stages[t].Ready? || s.stages[t].Checking? {
        ParentStaysFit(s, e, t, s.stages[t].parent);
      } else {
        CheckedParentFits(s, e, t);
      }
    }
  }

  lemma CheckedParentFits(s: Turns, e: Event, t: nat)
    requires Enabled(s, e) && |s.stages| == |s.kinds| == |s.chain.tasks| && t < |s.stages| && !s.stages[t].Ready? && !s.stages[t].Checking?
    requires After(s, e).stages[t].Ready? || After(s, e).stages[t].Checking?
    ensures ParentFits(After(s, e), t, After(s, e).stages[t].parent)
  {
    hide CanBecome;
  }

  lemma {:induction false} RunKeepsParents(run: seq<Turns>)
    requires IsRun(run)
    ensures ParentsFit(run[|run| - 1])
  {
    hide After, Enabled;
    if |run| > 1 {
      hide ParentsFit;
      var s, r := run[|run| - 2], run[|run| - 1];
      RunKeepsParents(run[..|run| - 1]);
      assert Step(run[|run| - 2], run[|run| - 2 + 1]);
      var e :| Enabled(s, e) && r == After(s, e);
      StepKeepsParents(s, e);
    }
  }

  /** When a call starts a turn, in any run, its daemon task is queued for its session with the
      parent that its kind asks for, and no recorded turn of the session is unfinished. */
  lemma StartsOnlyWhenAllowed(run: seq<Turns>, t: nat)
    requires IsRun(run) && |run| > 1
    requires t < |run[|run| - 2].stages| && !run[|run| - 2].stages[t].Started?
    requires t < |run[|run| - 1].stages| && run[|run| - 1].stages[t].Started?
    ensures var s, r := run[|run| - 2], run[|run| - 1];
            && t < |s.kinds| && t < |s.chain.tasks| && Idle(s, s.chain.tasks[t].key)
            && exists parent :: ParentFits(s, t, parent) && HasStarted(s, t, parent, r)
  {
    var s, r := run[|run| - 2], run[|run| - 1];
    assert run[..|run| - 1][|run[..|run| - 1]| - 1] == s;
    RunKeepsParents(run[..|run| - 1]);
    RunKeeps(run[..|run| - 1]);
    assert Step(run[|run| - 2], run[|run| - 2 + 1]);
    var e :| Enabled(s, e) && r == After(s, e);
    hide PromiseChain.Inv, RecordInv, TaskInv, Retriable, CanBecome, FinishedParent;
    assert StageInv(s, t);
    assert e == StartTask(t);
    assert HasStarted(s, t, s.stages[t].parent, r);
    forall task | s.chain.tasks[t].key in s.recorded && task in s.recorded[s.chain.tasks[t].key] && task < |s.tasks|
      ensures !Unfinished(s.tasks[task].status)
    {
      assert task in Recorded(s, s.chain.tasks[t].key) && !LiveTask(s, task);
    }
  }

  // ---- Calls, cancellations and the daemon ----

  /** Every call for the session is over and cleaned up. */
  ghost predicate AllOver(s: Turns, session: string) {
    forall u :: 0 <= u < |s.chain.tasks| && s.chain.tasks[u].key == session ==> s.chain.tasks[u].phase == PromiseChain.Cleaned
  }

  /** A call whose session has no other call under way gets to run at once. */
  lemma FreshCallRuns(run: seq<Turns>, session: string, kind: Kind) returns (longer: seq<Turns>)
    requires IsRun(run)
    requires AllOver(run[|run| - 1], session)
    ensures IsRun(longer) && run <= longer
    ensures var s, r := run[|run| - 1], longer[|longer| - 1];
            && r.stages == s.stages + [Entered] && r.kinds == s.kinds + [kind] && r.tasks == s.tasks && r.recorded == s.recorded
            && |r.chain.tasks| == |r.stages| && r.chain.tasks[|s.stages|].key == session
            && PromiseChain.InPhase(r.chain, |s.stages|, PromiseChain.Running)
  {
    var s := run[|run| - 1];
    RunKeeps(run);
    assert PromiseChain.EntryInv(s.chain, session);
    hide StageInv, RecordInv, TaskInv, Step;
    var called := After(s, Call(session, kind));
    RunGrows(run, Call(session, kind));
    var more := run + [called];
    assert more[|more| - 1] == called;
    RunGrows(more, Begin(|s.stages|));
    longer := more + [After(called, Begin(|s.stages|))];
  }

  /** The daemon may move a queued or running task to any status but queued. */
  lemma DaemonIsFree(run: seq<Turns>, task: nat, status: Status) returns (r: Turns)
    requires IsRun(run) && task < |run[|run| - 1].tasks| && Unfinished(run[|run| - 1].tasks[task].status) && status != Queued
    ensures IsRun(run + [r])
    ensures r == run[|run| - 1].(tasks := run[|run| - 1].tasks[task := run[|run| - 1].tasks[task].(status := status)])
  {
    r := After(run[|run| - 1], DaemonMoves(task, status));
    RunGrows(run, DaemonMoves(task, status));
  }

  /** A recorded turn can be cancelled at any time, by whoever, and the request stays. */
  lemma CancelIsRequested(run: seq<Turns>, session: string, task: nat) returns (r: Turns)
    requires IsRun(run) && session in run[|run| - 1].recorded && task in run[|run| - 1].recorded[session]
    ensures IsRun(run + [r]) && task < |r.tasks| && r.tasks[task].cancelRequested
    ensures forall u :: 0 <= u < |run[|run| - 1].tasks| && u != task ==> u < |r.tasks| && r.tasks[u] == run[|run| - 1].tasks[u]
    ensures r.stages == run[|run| - 1].stages && r.recorded == run[|run| - 1].recorded
  {
    RunKeeps(run);
    assert RecordInv(run[|run| - 1], session);
    hide TurnsInv;
    r := After(run[|run| - 1], CancelTurn(session, task));
    RunGrows(run, CancelTurn(session, task));
  }

  lemma {:induction false} CancellationStays(run: seq<Turns>, i: nat, j: nat, task: nat)
    requires IsRun(run) && i <= j < |run| && task < |run[i].tasks| && run[i].tasks[task].cancelRequested
    ensures task < |run[j].tasks| && run[j].tasks[task].cancelRequested
    decreases j
  {
    hide After, Enabled;
    if i < j {
      CancellationStays(run, i, j - 1, task);
      assert Step(run[j - 1], run[j - 1 + 1]);
      var e :| Enabled(run[j - 1], e) && run[j] == After(run[j - 1], e);
      ParentMoves(run[j - 1], e, task);
    }
  }
}
