/** The one-active-turn protocol of plan-revision-actions.ts: starts and retries of a
    session's revision turns behind a promise chain per session, cancellations outside
    it, and a daemon whose tasks move on their own. */
module RevisionTurns {
  import opened Text
  import opened PromiseChain

  // ---- The daemon ----

  /** Missing: a lookup fails because the daemon no longer knows it. */
  datatype Status = Queued | Executing | Completed(needsInput: bool) | Failed | Cancelled | Missing

  predicate Live(s: Status) {
    s.Queued? || s.Executing?
  }

  /** The daemon never revives a finished or forgotten task. */
  predicate CanBecome(s: Status, t: Status) {
    if Live(s) then t != Queued else t.Missing?
  }

  datatype AgentTask = AgentTask(status: Status, cancelRequested: bool, session: string, parent: Option<nat>)

  // ---- Calls ----

  datatype Kind = Start | Retry(redraft: bool)

  /** How far a call has come: Ready after its parent check, Checking with the recorded
      turns still to be looked up, Started between the daemon's answer and the record,
      Unrecorded once the record failed. */
  datatype Stage =
    | Entered
    | Ready(parent: Option<nat>)
    | Checking(left: set<nat>, parent: Option<nat>)
    | Started(task: nat)
    | Unrecorded(task: nat)
    | Done

  datatype Turns = Turns(chain: Chain<string>, kinds: seq<Kind>, stages: seq<Stage>, tasks: seq<AgentTask>, recorded: map<string, set<nat>>)

  function Recorded(s: Turns, session: string): set<nat> {
    if session in s.recorded then s.recorded[session] else {}
  }

  predicate LiveTask(s: Turns, task: nat) {
    task < |s.tasks| && Live(s.tasks[task].status)
  }

  // ---- Steps ----

  datatype Event =
    | Call(session: string, kind: Kind)
    | Begin(t: nat)
    | CheckParent(t: nat, parent: nat)
    | Snapshot(t: nat)
    | Check(t: nat, task: nat)
    | Abort(t: nat)
    | StartTask(t: nat)
    | Record(t: nat)
    | RecordFails(t: nat)
    | CancelStarted(t: nat)
    | Cleanup(t: nat)
    | CancelTurn(session: string, task: nat)
    | DaemonMoves(task: nat, status: Status)

  predicate At(s: Turns, t: nat) {
    InPhase(s.chain, t, Running) && t < |s.stages| && t < |s.kinds|
  }

  predicate Enabled(s: Turns, e: Event) {
    match e
    case Call(_, _) => true
    case Begin(t) => CanStart(s.chain, t)
    case CheckParent(t, parent) =>
      At(s, t) && s.stages[t].Entered? && s.kinds[t].Retry? && parent in Recorded(s, s.chain.tasks[t].key) && parent < |s.tasks|
    case Snapshot(t) => At(s, t) && (s.stages[t].Ready? || (s.stages[t].Entered? && s.kinds[t].Start?))
    case Check(t, task) => At(s, t) && s.stages[t].Checking? && task in s.stages[t].left && task < |s.tasks|
    case Abort(t) => At(s, t) && (s.stages[t].Entered? || s.stages[t].Ready? || s.stages[t].Checking?)
    case StartTask(t) => At(s, t) && s.stages[t].Checking? && s.stages[t].left == {}
    case Record(t) => At(s, t) && s.stages[t].Started?
    case RecordFails(t) => At(s, t) && s.stages[t].Started?
    case CancelStarted(t) => At(s, t) && s.stages[t].Unrecorded? && s.stages[t].task < |s.tasks|
    case Cleanup(t) => InPhase(s.chain, t, Settled)
    case CancelTurn(session, task) => task in Recorded(s, session) && task < |s.tasks|
    case DaemonMoves(task, status) => task < |s.tasks| && CanBecome(s.tasks[task].status, status)
  }

  /** The steps one running call takes. */
  predicate IsCallStep(e: Event) {
    e.CheckParent? || e.Snapshot? || e.Check? || e.Abort? || e.StartTask? || e.Record? || e.RecordFails? || e.CancelStarted?
  }

  function InStage(s: Turns, t: nat, stage: Stage): Turns
    requires t < |s.stages|
  {
    s.(stages := s.stages[t := stage])
  }

  /** The call is over, whether it returned or threw. */
  function Over(s: Turns, t: nat): Turns
    requires t < |s.stages| && t < |s.chain.tasks|
  {
    InStage(s, t, Done).(chain := WithPhase(s.chain, t, Settled))
  }

  function CancelRequested(s: Turns, task: nat): Turns
    requires task < |s.tasks|
  {
    s.(tasks := s.tasks[task := s.tasks[task].(cancelRequested := true)])
  }

  /** A plain retry needs a failed or cancelled parent, a redraft one that completed
      asking for input. */
  predicate Retriable(status: Status, redraft: bool) {
    if redraft then status == Completed(true) else status.Failed? || status.Cancelled?
  }

  function After(s: Turns, e: Event): Turns
    requires Enabled(s, e)
  {
    match e
    case Call(session, kind) =>
      s.(chain := Called(s.chain, session), kinds := s.kinds + [kind], stages := s.stages + [Entered])
    case Begin(t) => s.(chain := WithPhase(s.chain, t, Running))
    case CheckParent(t, parent) =>
      if Retriable(s.tasks[parent].status, s.kinds[t].redraft) then InStage(s, t, Ready(Some(parent))) else Over(s, t)
    case Snapshot(t) =>
      InStage(s, t, Checking(Recorded(s, s.chain.tasks[t].key), if s.stages[t].Ready? then s.stages[t].parent else None))
    case Check(t, task) =>
      if Live(s.tasks[task].status) then Over(s, t)
      else InStage(s, t, s.stages[t].(left := s.stages[t].left - {task}))
    case Abort(t) => Over(s, t)
    case StartTask(t) =>
      InStage(s, t, Started(|s.tasks|)).(tasks := s.tasks + [AgentTask(Queued, false, s.chain.tasks[t].key, s.stages[t].parent)])
    case Record(t) =>
      var session := s.chain.tasks[t].key;
      Over(s, t).(recorded := s.recorded[session := Recorded(s, session) + {s.stages[t].task}])
    case RecordFails(t) => InStage(s, t, Unrecorded(s.stages[t].task))
    case CancelStarted(t) => CancelRequested(Over(s, t), s.stages[t].task)
    case Cleanup(t) => s.(chain := CleanedUp(s.chain, t))
    case CancelTurn(session, task) => CancelRequested(s, task)
    case DaemonMoves(task, status) => s.(tasks := s.tasks[task := s.tasks[task].(status := status)])
  }

  // ---- Invariant ----

  predicate Holds(stage: Stage, task: nat) {
    (stage.Started? || stage.Unrecorded?) && stage.task == task
  }

  /** A parent is a finished recorded turn of the same session. */
  ghost predicate FinishedParent(s: Turns, session: string, parent: Option<nat>) {
    parent.Some? ==> parent.value < |s.tasks| && parent.value in Recorded(s, session) && !LiveTask(s, parent.value)
  }

  ghost predicate StageInv(s: Turns, t: nat)
    requires t < |s.stages| && |s.chain.tasks| == |s.stages|
  {
    var session, phase, stage := s.chain.tasks[t].key, s.chain.tasks[t].phase, s.stages[t];
    && (phase == Waiting ==> stage == Entered)
    && (phase == Running ==> stage != Done)
    && (phase == Settled || phase == Cleaned ==> stage == Done)
    && (stage.Ready? || stage.Checking? ==> FinishedParent(s, session, stage.parent))
    && (stage.Checking? ==> forall task :: task in Recorded(s, session) && task !in stage.left ==> !LiveTask(s, task))
    && (stage.Started? || stage.Unrecorded? ==>
          && stage.task < |s.tasks| && s.tasks[stage.task].session == session && stage.task !in Recorded(s, session)
          && forall task :: task in Recorded(s, session) ==> !LiveTask(s, task))
  }

  ghost predicate RecordInv(s: Turns, session: string) {
    && (forall task :: task in Recorded(s, session) ==> task < |s.tasks| && s.tasks[task].session == session)
    && (forall a, b :: a in Recorded(s, session) && b in Recorded(s, session) && LiveTask(s, a) && LiveTask(s, b) ==> a == b)
  }

  /** It is recorded, or its cancellation was requested, or its call is still on
      the way to one of the two. */
  ghost predicate Accounted(s: Turns, task: nat)
    requires task < |s.tasks|
  {
    || task in Recorded(s, s.tasks[task].session)
    || s.tasks[task].cancelRequested
    || exists t :: 0 <= t < |s.stages| && Holds(s.stages[t], task)
  }

  ghost predicate TaskInv(s: Turns, task: nat)
    requires task < |s.tasks|
  {
    && Accounted(s, task)
    && FinishedParent(s, s.tasks[task].session, s.tasks[task].parent)
    && (s.tasks[task].parent.Some? ==> s.tasks[task].parent.value < task)
  }

  ghost predicate Shaped(s: Turns) {
    |s.chain.tasks| == |s.stages| == |s.kinds|
  }

  ghost predicate TurnsInv(s: Turns) {
    && Inv(s.chain) && Shaped(s)
    && (forall t :: 0 <= t < |s.stages| ==> StageInv(s, t))
    && (forall session :: RecordInv(s, session))
    && (forall task :: 0 <= task < |s.tasks| ==> TaskInv(s, task))
  }

  // ---- Every step keeps it ----

  /** Daemon tasks only grow in number, keep their sessions and parents, and do not come back to life. */
  ghost predicate TasksProgress(s: Turns, r: Turns) {
    && |s.tasks| <= |r.tasks|
    && forall task :: 0 <= task < |s.tasks| ==>
         && r.tasks[task].session == s.tasks[task].session && r.tasks[task].parent == s.tasks[task].parent
         && (s.tasks[task].cancelRequested ==> r.tasks[task].cancelRequested)
         && (LiveTask(r, task) ==> LiveTask(s, task))
  }

  ghost predicate RecordsGrow(s: Turns, r: Turns) {
    forall session :: Recorded(s, session) <= Recorded(r, session)
  }

  lemma ParentStaysFinished(s: Turns, r: Turns, session: string, parent: Option<nat>)
    requires FinishedParent(s, session, parent) && TasksProgress(s, r) && RecordsGrow(s, r)
    ensures FinishedParent(r, session, parent)
  {
  }

  /** A stage that the step did not touch stays right, as long as nothing was recorded
      for its session. */
  lemma StageStays(s: Turns, r: Turns, t: nat)
    requires Shaped(s) && Shaped(r) && t < |s.stages| && t < |r.stages| && StageInv(s, t)
    requires r.stages[t] == s.stages[t] && r.chain.tasks[t].key == s.chain.tasks[t].key
    requires TasksProgress(s, r) && RecordsGrow(s, r) && Recorded(r, s.chain.tasks[t].key) == Recorded(s, s.chain.tasks[t].key)
    requires RecordInv(s, s.chain.tasks[t].key)
    requires || r.chain.tasks[t].phase == s.chain.tasks[t].phase
             || (s.chain.tasks[t].phase == Waiting && r.chain.tasks[t].phase == Running)
             || (s.chain.tasks[t].phase == Settled && r.chain.tasks[t].phase == Cleaned)
    ensures StageInv(r, t)
  {
    if s.stages[t].Ready? || s.stages[t].Checking? {
      ParentStaysFinished(s, r, s.chain.tasks[t].key, s.stages[t].parent);
    }
    hide FinishedParent;
  }

  lemma RecordStays(s: Turns, r: Turns, session: string)
    requires RecordInv(s, session) && TasksProgress(s, r) && Recorded(r, session) == Recorded(s, session)
    ensures RecordInv(r, session)
  {
  }

  lemma TaskStays(s: Turns, r: Turns, task: nat)
    requires task < |s.tasks| && TaskInv(s, task) && TasksProgress(s, r) && RecordsGrow(s, r)
    requires |s.stages| <= |r.stages|
    requires forall t :: 0 <= t < |s.stages| && Holds(s.stages[t], task) ==> Holds(r.stages[t], task) || Accounted(r, task)
    ensures TaskInv(r, task)
  {
    ParentStaysFinished(s, r, s.tasks[task].session, s.tasks[task].parent);
    hide FinishedParent;
  }

  /** Steps of the chain and the daemon: no stage changes and nothing is recorded. */
  lemma QuietStepKeeps(s: Turns, e: Event)
    requires TurnsInv(s) && Enabled(s, e) && !IsCallStep(e)
    ensures TurnsInv(After(s, e))
  {
    var r := After(s, e);
    QuietChain(s, e);
    assert Inv(r.chain) && Shaped(r);
    hide Inv;
    assert TasksProgress(s, r);
    assert r.recorded == s.recorded;
    hide After, Enabled, FinishedParent, Accounted;
    forall t | 0 <= t < |r.stages|
      ensures StageInv(r, t)
    {
      if t < |s.stages| {
        assert RecordInv(s, s.chain.tasks[t].key);
        StageStays(s, r, t);
      }
    }
    forall session
      ensures RecordInv(r, session)
    {
      RecordStays(s, r, session);
    }
    forall task | 0 <= task < |r.tasks|
      ensures TaskInv(r, task)
    {
      TaskStays(s, r, task);
    }
  }

  lemma QuietChain(s: Turns, e: Event)
    requires Inv(s.chain) && Shaped(s) && Enabled(s, e) && !IsCallStep(e)
    ensures var r := After(s, e);
            (&& Inv(r.chain) && Shaped(r) && TasksProgress(s, r) && r.recorded == s.recorded && |r.tasks| == |s.tasks|
             && |s.stages| <= |r.stages| <= |s.stages| + 1
             && (|r.stages| > |s.stages| ==> r.stages[|s.stages|] == Entered && r.chain.tasks[|s.stages|].phase == Waiting)
             && forall t :: 0 <= t < |s.stages| ==>
                  && r.stages[t] == s.stages[t] && r.chain.tasks[t].key == s.chain.tasks[t].key
                  && (|| r.chain.tasks[t].phase == s.chain.tasks[t].phase
                      || (s.chain.tasks[t].phase == Waiting && r.chain.tasks[t].phase == Running)
                      || (s.chain.tasks[t].phase == Settled && r.chain.tasks[t].phase == Cleaned)))
  {
    hide Inv;
    match e
    case Call(session, _) => CallKeepsInv(s.chain, session);
    case Begin(t) => StartKeepsInv(s.chain, t);
    case Cleanup(t) => CleanupKeepsInv(s.chain, t);
    case _ =>
  }

  /** Steps of one running call, with what they may change. */
  lemma CallStepKeeps(s: Turns, e: Event, r: Turns, t: nat)
    requires TurnsInv(s) && Enabled(s, e) && r == After(s, e) && IsCallStep(e) && t == e.t
    ensures TurnsInv(r)
  {
    CallStepFrame(s, e, r, t);
    OthersAreElsewhere(s, t);
    StageAfter(s, e, r, t);
    RecordAfter(s, e, r, t);
    hide Inv, FinishedParent, Accounted;
    assert Inv(r.chain) && Shaped(r);
    TasksAfter(s, e, r, t);
    hide After, Enabled;
    forall u | 0 <= u < |r.stages|
      ensures StageInv(r, u)
    {
      if u != t {
        assert StageInv(s, u);
        if s.chain.tasks[u].key == s.chain.tasks[t].key {
          assert s.stages[u] == Entered || s.stages[u] == Done;
        } else {
          assert RecordInv(s, s.chain.tasks[u].key);
          StageStays(s, r, u);
        }
      }
    }
  }

  /** What a call's step leaves alone. */
  lemma CallStepFrame(s: Turns, e: Event, r: Turns, t: nat)
    requires TurnsInv(s) && Enabled(s, e) && r == After(s, e) && IsCallStep(e) && t == e.t
    ensures Inv(r.chain) && Shaped(r) && At(s, t) && |r.stages| == |s.stages|
    ensures TasksProgress(s, r) && RecordsGrow(s, r)
    ensures forall u :: 0 <= u < |s.stages| ==> r.chain.tasks[u].key == s.chain.tasks[u].key
    ensures forall u :: 0 <= u < |s.stages| && u != t ==> r.stages[u] == s.stages[u] && r.chain.tasks[u].phase == s.chain.tasks[u].phase
    ensures forall session :: session != s.chain.tasks[t].key ==> Recorded(r, session) == Recorded(s, session)
  {
    ActiveAlone(s.chain, t);
    PhaseKeepsInv(s.chain, t, Settled);
    hide Inv, StageInv, RecordInv, TaskInv, Retriable, AllCleaned;
  }

  /** While a call runs, every other call of its session is before its first step or over. */
  lemma OthersAreElsewhere(s: Turns, t: nat)
    requires TurnsInv(s) && At(s, t)
    ensures forall u :: 0 <= u < |s.stages| && u != t && s.chain.tasks[u].key == s.chain.tasks[t].key ==>
              && (s.stages[u] == Entered || s.stages[u] == Done)
              && (s.stages[u] == Entered <==> s.chain.tasks[u].phase == Waiting)
              && (s.stages[u] == Done <==> s.chain.tasks[u].phase == Cleaned)
  {
    ActiveAlone(s.chain, t);
    hide Inv, RecordInv, TaskInv;
    forall u | 0 <= u < |s.stages| && u != t && s.chain.tasks[u].key == s.chain.tasks[t].key
      ensures s.chain.tasks[u].phase == Waiting || s.chain.tasks[u].phase == Cleaned
      ensures StageInv(s, u)
    {
    }
  }

  lemma StageAfter(s: Turns, e: Event, r: Turns, t: nat)
    requires TurnsInv(s) && Enabled(s, e) && r == After(s, e) && IsCallStep(e) && t == e.t
    ensures Shaped(r) && t < |r.stages| && StageInv(r, t)
  {
    hide Inv, TaskInv;
    var session := s.chain.tasks[t].key;
    assert StageInv(s, t);
    assert RecordInv(s, session);
    CallStepFrame(s, e, r, t);
    if s.stages[t].Ready? || s.stages[t].Checking? {
      ParentStaysFinished(s, r, session, s.stages[t].parent);
    }
    if e.StartTask? {
      assert Recorded(r, session) == Recorded(s, session);
      assert forall task :: task in Recorded(s, session) ==> !LiveTask(s, task);
    }
  }

  lemma RecordAfter(s: Turns, e: Event, r: Turns, t: nat)
    requires TurnsInv(s) && Enabled(s, e) && r == After(s, e) && IsCallStep(e) && t == e.t
    ensures forall session :: RecordInv(r, session)
  {
    CallStepFrame(s, e, r, t);
    hide Inv, TaskInv, FinishedParent;
    assert StageInv(s, t);
    forall session
      ensures RecordInv(r, session)
    {
      assert RecordInv(s, session);
      if session == s.chain.tasks[t].key && e.Record? {
        assert Recorded(r, session) == Recorded(s, session) + {s.stages[t].task};
      } else {
        RecordStays(s, r, session);
      }
    }
  }

  lemma TasksAfter(s: Turns, e: Event, r: Turns, t: nat)
    requires TurnsInv(s) && Enabled(s, e) && r == After(s, e) && IsCallStep(e) && t == e.t
    ensures forall task :: 0 <= task < |r.tasks| ==> TaskInv(r, task)
  {
    CallStepFrame(s, e, r, t);
    hide Inv, RecordInv;
    assert StageInv(s, t);
    forall task | 0 <= task < |r.tasks|
      ensures TaskInv(r, task)
    {
      if task < |s.tasks| {
        if Holds(s.stages[t], task) {
          HeldTaskAfter(s, e, r, t);
        }
        TaskStays(s, r, task);
      } else {
        assert Holds(r.stages[t], task);
        ParentStaysFinished(s, r, s.chain.tasks[t].key, s.stages[t].parent);
      }
    }
  }

  lemma HeldTaskAfter(s: Turns, e: Event, r: Turns, t: nat)
    requires Shaped(s) && Enabled(s, e) && r == After(s, e) && IsCallStep(e) && t == e.t && StageInv(s, t)
    requires s.stages[t].Started? || s.stages[t].Unrecorded?
    ensures s.stages[t].task < |r.tasks| && Accounted(r, s.stages[t].task)
  {
    if e.RecordFails? {
      assert Holds(r.stages[t], s.stages[t].task);
    }
  }

  // ---- Runs ----

  ghost predicate Step(s: Turns, r: Turns) {
    exists e :: Enabled(s, e) && r == After(s, e)
  }

  ghost predicate IsRun(run: seq<Turns>) {
    && run != [] && run[0] == Turns(Chain([], map[]), [], [], [], map[])
    && forall i :: 0 <= i < |run| - 1 ==> Step(run[i], run[i + 1])
  }

  lemma {:induction false} RunKeeps(run: seq<Turns>)
    requires IsRun(run)
    ensures TurnsInv(run[|run| - 1])
  {
    hide After, Enabled;
    if |run| > 1 {
      hide TurnsInv;
      var s, r := run[|run| - 2], run[|run| - 1];
      RunKeeps(run[..|run| - 1]);
      assert Step(run[|run| - 2], run[|run| - 2 + 1]);
      var e :| Enabled(s, e) && r == After(s, e);
      if IsCallStep(e) {
        CallStepKeeps(s, e, r, e.t);
      } else {
        QuietStepKeeps(s, e);
      }
    }
  }

  /** In every run of starts, retries, cancels and daemon steps, a session never has two
      recorded turns whose tasks are queued or running. */
  lemma OneActiveTurn(run: seq<Turns>, session: string, a: nat, b: nat)
    requires IsRun(run)
    requires var s := run[|run| - 1];
             && session in s.recorded && a in s.recorded[session] && b in s.recorded[session] && a < |s.tasks| && b < |s.tasks|
             && (s.tasks[a].status == Queued || s.tasks[a].status == Executing)
             && (s.tasks[b].status == Queued || s.tasks[b].status == Executing)
    ensures a == b
  {
    hide Step;
    RunKeeps(run);
    var s := run[|run| - 1];
    assert RecordInv(s, session);
    assert a in Recorded(s, session) && b in Recorded(s, session) && LiveTask(s, a) && LiveTask(s, b);
  }

  /** Every task ever started is recorded for its session, has had its cancellation
      requested, or belongs to a call that is still running; so once every call of the
      session is over, nothing it started is left unindexed and uncancelled. */
  lemma NoTaskIsForgotten(run: seq<Turns>, task: nat)
    requires IsRun(run) && task < |run[|run| - 1].tasks|
    ensures var s := run[|run| - 1];
            (|| (s.tasks[task].session in s.recorded && task in s.recorded[s.tasks[task].session])
             || s.tasks[task].cancelRequested
             || exists t :: 0 <= t < |s.stages| && InPhase(s.chain, t, Running)
                            && s.chain.tasks[t].key == s.tasks[task].session && Holds(s.stages[t], task))
  {
    hide Step;
    RunKeeps(run);
    var s := run[|run| - 1];
    assert TaskInv(s, task);
    if task !in Recorded(s, s.tasks[task].session) && !s.tasks[task].cancelRequested {
      var t :| 0 <= t < |s.stages| && Holds(s.stages[t], task);
      assert StageInv(s, t);
      assert InPhase(s.chain, t, Running);
    }
  }

  /** A retry or redraft descends from an earlier turn of the same session that was
      recorded and is over for good. */
  lemma RetriesFollowFinishedTurns(run: seq<Turns>, task: nat)
    requires IsRun(run) && task < |run[|run| - 1].tasks| && run[|run| - 1].tasks[task].parent.Some?
    ensures var s := run[|run| - 1];
            var parent := s.tasks[task].parent.value;
            && parent < task && s.tasks[parent].session == s.tasks[task].session
            && s.tasks[task].session in s.recorded && parent in s.recorded[s.tasks[task].session]
            && s.tasks[parent].status != Queued && s.tasks[parent].status != Executing
  {
    hide Step;
    RunKeeps(run);
    var s := run[|run| - 1];
    assert TaskInv(s, task);
    assert RecordInv(s, s.tasks[task].session);
    var parent := s.tasks[task].parent.value;
    assert parent in Recorded(s, s.tasks[task].session) && !LiveTask(s, parent);
  }
}
