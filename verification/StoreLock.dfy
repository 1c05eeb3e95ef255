/** Read-modify-write stores behind the promise chain: each call reads its key's index,
    applies one operation and writes the result, with other calls' steps in between.
    The final index is that of the successful calls in call order. */
module StoreLock {
  import opened Text
  import opened PromiseChain

  /** Pending until its turn settles. Rejected: the operation itself failed on what was
      read. IoFailed: reading or writing the file failed. */
  datatype Outcome = Pending | Succeeded | Rejected | IoFailed

  datatype Job<Op, Index> = Job(op: Op, snapshot: Option<Index>, outcome: Outcome)

  datatype Store<Key, Op, Index> = Store(chain: Chain<Key>, jobs: seq<Job<Op, Index>>, disk: map<Key, Index>)

  /** What an operation makes of an index (None: it throws), and the index of a key
      without a file. */
  datatype Meaning<!Op, !Index> = Meaning(apply: (Op, Index) -> Option<Index>, empty: Index)

  function Content<Key, Op, Index>(m: Meaning<Op, Index>, disk: map<Key, Index>, key: Key): Index {
    if key in disk then disk[key] else m.empty
  }

  // ---- Steps ----

  datatype Event<Key, Op> =
    | Call(key: Key, op: Op)
    | Start(t: nat)
    | Read(t: nat)
    | Write(t: nat)
    | Reject(t: nat)
    | IoFail(t: nat)
    | Cleanup(t: nat)

  predicate HasRead<Key(!new), Op(!new), Index(!new)>(s: Store<Key, Op, Index>, t: nat) {
    InPhase(s.chain, t, Running) && t < |s.jobs| && s.jobs[t].snapshot.Some?
  }

  predicate Enabled<Key(!new), Op(!new), Index(!new)>(m: Meaning<Op, Index>, s: Store<Key, Op, Index>, e: Event<Key, Op>) {
    match e
    case Call(_, _) => true
    case Start(t) => CanStart(s.chain, t)
    case Read(t) => InPhase(s.chain, t, Running) && t < |s.jobs| && s.jobs[t].snapshot.None?
    case Write(t) => HasRead(s, t) && m.apply(s.jobs[t].op, s.jobs[t].snapshot.value).Some?
    case Reject(t) => HasRead(s, t) && m.apply(s.jobs[t].op, s.jobs[t].snapshot.value).None?
    case IoFail(t) => InPhase(s.chain, t, Running) && t < |s.jobs|
    case Cleanup(t) => InPhase(s.chain, t, Settled)
  }

  function Ended<Key, Op, Index>(s: Store<Key, Op, Index>, t: nat, outcome: Outcome): Store<Key, Op, Index>
    requires t < |s.jobs| && t < |s.chain.tasks|
  {
    s.(chain := WithPhase(s.chain, t, Settled), jobs := s.jobs[t := s.jobs[t].(outcome := outcome)])
  }

  function After<Key(!new), Op(!new), Index(!new)>(m: Meaning<Op, Index>, s: Store<Key, Op, Index>, e: Event<Key, Op>): Store<Key, Op, Index>
    requires Enabled(m, s, e)
  {
    match e
    case Call(key, op) => s.(chain := Called(s.chain, key), jobs := s.jobs + [Job(op, None, Pending)])
    case Start(t) => s.(chain := WithPhase(s.chain, t, Running))
    case Read(t) => s.(jobs := s.jobs[t := s.jobs[t].(snapshot := Some(Content(m, s.disk, s.chain.tasks[t].key)))])
    case Write(t) =>
      Ended(s, t, Succeeded).(disk := s.disk[s.chain.tasks[t].key := m.apply(s.jobs[t].op, s.jobs[t].snapshot.value).value])
    case Reject(t) => Ended(s, t, Rejected)
    case IoFail(t) => Ended(s, t, IoFailed)
    case Cleanup(t) => s.(chain := CleanedUp(s.chain, t))
  }

  ghost predicate Step<Key(!new), Op(!new), Index(!new)>(m: Meaning<Op, Index>, s: Store<Key, Op, Index>, r: Store<Key, Op, Index>) {
    exists e :: Enabled(m, s, e) && r == After(m, s, e)
  }

  // ---- The serial meaning ----

  ghost predicate Shaped<Key(!new), Op(!new), Index(!new)>(s: Store<Key, Op, Index>) {
    |s.jobs| == |s.chain.tasks|
  }

  /** The index after one more call: a call that did not succeed changes nothing. */
  function Replayed<Op, Index>(m: Meaning<Op, Index>, job: Job<Op, Index>, index: Index): Index {
    if job.outcome == Succeeded && m.apply(job.op, index).Some? then m.apply(job.op, index).value else index
  }

  /** The successful operations of the key among the first n calls, applied one after
      the other in call order. */
  ghost function Replay<Key(!new), Op(!new), Index(!new)>(m: Meaning<Op, Index>, initial: map<Key, Index>, s: Store<Key, Op, Index>, key: Key, n: nat): Index
    requires Shaped(s) && n <= |s.jobs|
  {
    if n == 0 then Content(m, initial, key)
    else
      var before := Replay(m, initial, s, key, n - 1);
      if s.chain.tasks[n - 1].key == key then Replayed(m, s.jobs[n - 1], before) else before
  }

  lemma ReplayStep<Key(!new), Op(!new), Index(!new)>(m: Meaning<Op, Index>, initial: map<Key, Index>, s: Store<Key, Op, Index>, key: Key, n: nat)
    requires Shaped(s) && 0 < n <= |s.jobs|
    ensures Replay(m, initial, s, key, n) == Replay(m, initial, s, key, n - 1)
         || Replay(m, initial, s, key, n) == Replayed(m, s.jobs[n - 1], Replay(m, initial, s, key, n - 1))
  {
  }

  lemma {:induction false} ReplayAgrees<Key(!new), Op(!new), Index(!new)>(m: Meaning<Op, Index>, initial: map<Key, Index>, s: Store<Key, Op, Index>, r: Store<Key, Op, Index>, key: Key, n: nat)
    requires Shaped(s) && Shaped(r) && n <= |s.jobs| && n <= |r.jobs|
    requires forall u :: 0 <= u < n ==> s.chain.tasks[u].key == r.chain.tasks[u].key
    requires forall u :: 0 <= u < n && s.chain.tasks[u].key == key ==> s.jobs[u].op == r.jobs[u].op && s.jobs[u].outcome == r.jobs[u].outcome
    ensures Replay(m, initial, s, key, n) == Replay(m, initial, r, key, n)
  {
    if n > 0 {
      ReplayAgrees(m, initial, s, r, key, n - 1);
    }
  }

  /** Calls that did not succeed leave no trace. */
  lemma {:induction false} ReplaySkips<Key(!new), Op(!new), Index(!new)>(m: Meaning<Op, Index>, initial: map<Key, Index>, s: Store<Key, Op, Index>, key: Key, t: nat, n: nat)
    requires Shaped(s) && t <= n <= |s.jobs|
    requires forall u :: t <= u < n && s.chain.tasks[u].key == key ==> s.jobs[u].outcome != Succeeded
    ensures Replay(m, initial, s, key, n) == Replay(m, initial, s, key, t)
    decreases n
  {
    if n > t {
      ReplaySkips(m, initial, s, key, t, n - 1);
    }
  }

  // ---- Invariant ----

  ghost predicate JobInv<Key(!new), Op(!new), Index(!new)>(m: Meaning<Op, Index>, initial: map<Key, Index>, s: Store<Key, Op, Index>, t: nat)
    requires Shaped(s) && t < |s.jobs|
  {
    var job, task := s.jobs[t], s.chain.tasks[t];
    && (job.outcome == Pending <==> task.phase == Waiting || task.phase == Running)
    && (task.phase == Waiting ==> job.snapshot.None?)
    && (task.phase == Running && job.snapshot.Some? ==> job.snapshot.value == Content(m, s.disk, task.key))
    && (job.outcome == Succeeded ==> m.apply(job.op, Replay(m, initial, s, task.key, t)).Some?)
    && (job.outcome == Rejected ==> m.apply(job.op, Replay(m, initial, s, task.key, t)).None?)
  }

  ghost predicate DiskIsReplay<Key(!new), Op(!new), Index(!new)>(m: Meaning<Op, Index>, initial: map<Key, Index>, s: Store<Key, Op, Index>, key: Key)
    requires Shaped(s)
  {
    Content(m, s.disk, key) == Replay(m, initial, s, key, |s.jobs|)
  }

  ghost predicate StoreInv<Key(!new), Op(!new), Index(!new)>(m: Meaning<Op, Index>, initial: map<Key, Index>, s: Store<Key, Op, Index>) {
    && Inv(s.chain) && Shaped(s)
    && (forall t :: 0 <= t < |s.jobs| ==> JobInv(m, initial, s, t))
    && (forall key :: DiskIsReplay(m, initial, s, key))
  }

  lemma CallKeeps<Key(!new), Op(!new), Index(!new)>(m: Meaning<Op, Index>, initial: map<Key, Index>, s: Store<Key, Op, Index>, key: Key, op: Op)
    requires StoreInv(m, initial, s)
    ensures StoreInv(m, initial, After(m, s, Call(key, op)))
  {
    var r := After(m, s, Call(key, op));
    CallKeepsInv(s.chain, key);
    hide Inv, Replay;
    forall t | 0 <= t < |r.jobs|
      ensures JobInv(m, initial, r, t)
    {
      if t < |s.jobs| {
        assert JobInv(m, initial, s, t);
        ReplayAgrees(m, initial, s, r, s.chain.tasks[t].key, t);
      }
    }
    forall k
      ensures DiskIsReplay(m, initial, r, k)
    {
      assert DiskIsReplay(m, initial, s, k);
      ReplayAgrees(m, initial, s, r, k, |s.jobs|);
      ReplaySkips(m, initial, r, k, |s.jobs|, |r.jobs|);
    }
  }

  /** Steps that change only phases and keep every outcome. */
  lemma PhaseKeeps<Key(!new), Op(!new), Index(!new)>(m: Meaning<Op, Index>, initial: map<Key, Index>, s: Store<Key, Op, Index>, r: Store<Key, Op, Index>)
    requires StoreInv(m, initial, s) && Inv(r.chain) && Shaped(r) && r.jobs == s.jobs && r.disk == s.disk
    requires forall u :: 0 <= u < |s.jobs| ==> r.chain.tasks[u].key == s.chain.tasks[u].key
    requires forall u :: 0 <= u < |s.jobs| ==>
               || r.chain.tasks[u].phase == s.chain.tasks[u].phase
               || (s.chain.tasks[u].phase == Waiting && r.chain.tasks[u].phase == Running)
               || (s.chain.tasks[u].phase == Settled && r.chain.tasks[u].phase == Cleaned)
    ensures StoreInv(m, initial, r)
  {
    hide Inv, Replay;
    forall t | 0 <= t < |r.jobs|
      ensures JobInv(m, initial, r, t)
    {
      assert JobInv(m, initial, s, t);
      ReplayAgrees(m, initial, s, r, s.chain.tasks[t].key, t);
    }
    forall k
      ensures DiskIsReplay(m, initial, r, k)
    {
      assert DiskIsReplay(m, initial, s, k);
      ReplayAgrees(m, initial, s, r, k, |s.jobs|);
    }
  }

  lemma ReadKeeps<Key(!new), Op(!new), Index(!new)>(m: Meaning<Op, Index>, initial: map<Key, Index>, s: Store<Key, Op, Index>, t: nat)
    requires StoreInv(m, initial, s) && Enabled(m, s, Read(t))
    ensures StoreInv(m, initial, After(m, s, Read(t)))
  {
    var r := After(m, s, Read(t));
    hide Inv, Replay;
    forall u | 0 <= u < |r.jobs|
      ensures JobInv(m, initial, r, u)
    {
      assert JobInv(m, initial, s, u);
      ReplayAgrees(m, initial, s, r, s.chain.tasks[u].key, u);
    }
    forall k
      ensures DiskIsReplay(m, initial, r, k)
    {
      assert DiskIsReplay(m, initial, s, k);
      ReplayAgrees(m, initial, s, r, k, |s.jobs|);
    }
  }

  /** What a running task read is the replay of the calls before it, and no later call
      for its key has succeeded. */
  lemma RunningSeesReplay<Key(!new), Op(!new), Index(!new)>(m: Meaning<Op, Index>, initial: map<Key, Index>, s: Store<Key, Op, Index>, t: nat)
    requires StoreInv(m, initial, s) && InPhase(s.chain, t, Running)
    ensures Content(m, s.disk, s.chain.tasks[t].key) == Replay(m, initial, s, s.chain.tasks[t].key, t)
    ensures forall u :: t < u < |s.jobs| && s.chain.tasks[u].key == s.chain.tasks[t].key ==> s.jobs[u].outcome == Pending && s.chain.tasks[u].phase == Waiting
    ensures AllCleaned(s.chain, s.chain.tasks[t].key, t)
  {
    var key := s.chain.tasks[t].key;
    ActiveAlone(s.chain, t);
    hide Inv, Replay;
    assert DiskIsReplay(m, initial, s, key);
    forall u | t <= u < |s.jobs| && s.chain.tasks[u].key == key
      ensures s.jobs[u].outcome == Pending
    {
      assert JobInv(m, initial, s, u);
    }
    ReplaySkips(m, initial, s, key, t, |s.jobs|);
  }

  /** A task that ends, with the disk as its outcome says. */
  lemma EndKeeps<Key(!new), Op(!new), Index(!new)>(m: Meaning<Op, Index>, initial: map<Key, Index>, s: Store<Key, Op, Index>, e: Event<Key, Op>)
    requires StoreInv(m, initial, s) && (e.Write? || e.Reject? || e.IoFail?) && Enabled(m, s, e)
    ensures StoreInv(m, initial, After(m, s, e))
  {
    var r, t := After(m, s, e), e.t;
    var key := s.chain.tasks[t].key;
    RunningSeesReplay(m, initial, s, t);
    PhaseKeepsInv(s.chain, t, Settled);
    hide Inv, Replay, AllCleaned;
    forall u | 0 <= u < |r.jobs|
      ensures JobInv(m, initial, r, u)
    {
      assert JobInv(m, initial, s, u);
      if u <= t || s.chain.tasks[u].key != key {
        ReplayAgrees(m, initial, s, r, s.chain.tasks[u].key, u);
      }
      if u < t && s.chain.tasks[u].key == key {
        EarlierIsOver(s.chain, key, u, t);
      }
    }
    DiskAfterEnd(m, initial, s, e);
  }

  lemma EarlierIsOver<Key(!new)>(c: Chain<Key>, key: Key, u: nat, t: nat)
    requires AllCleaned(c, key, t) && u < t && u < |c.tasks| && c.tasks[u].key == key
    ensures c.tasks[u].phase == Cleaned
  {
  }

  lemma DiskAfterEnd<Key(!new), Op(!new), Index(!new)>(m: Meaning<Op, Index>, initial: map<Key, Index>, s: Store<Key, Op, Index>, e: Event<Key, Op>)
    requires StoreInv(m, initial, s) && (e.Write? || e.Reject? || e.IoFail?) && Enabled(m, s, e)
    ensures forall key :: DiskIsReplay(m, initial, After(m, s, e), key)
  {
    var r, t := After(m, s, e), e.t;
    var key := s.chain.tasks[t].key;
    RunningSeesReplay(m, initial, s, t);
    hide Inv;
    assert JobInv(m, initial, s, t);
    forall k
      ensures DiskIsReplay(m, initial, r, k)
    {
      assert DiskIsReplay(m, initial, s, k);
      if k == key {
        ReplayAgrees(m, initial, s, r, k, t);
        ReplaySkips(m, initial, r, k, t + 1, |r.jobs|);
      } else {
        ReplayAgrees(m, initial, s, r, k, |s.jobs|);
      }
    }
  }

  lemma StepKeeps<Key(!new), Op(!new), Index(!new)>(m: Meaning<Op, Index>, initial: map<Key, Index>, s: Store<Key, Op, Index>, e: Event<Key, Op>)
    requires StoreInv(m, initial, s) && Enabled(m, s, e)
    ensures StoreInv(m, initial, After(m, s, e))
  {
    match e
    case Call(key, op) => CallKeeps(m, initial, s, key, op);
    case Start(t) =>
      StartKeepsInv(s.chain, t);
      PhaseKeeps(m, initial, s, After(m, s, e));
    case Read(t) => ReadKeeps(m, initial, s, t);
    case Cleanup(t) =>
      CleanupKeepsInv(s.chain, t);
      PhaseKeeps(m, initial, s, After(m, s, e));
    case _ => EndKeeps(m, initial, s, e);
  }

  // ---- Every run is serial ----

  ghost predicate IsRun<Key(!new), Op(!new), Index(!new)>(m: Meaning<Op, Index>, initial: map<Key, Index>, run: seq<Store<Key, Op, Index>>) {
    && run != [] && run[0] == Store(Chain([], map[]), [], initial)
    && forall i :: 0 <= i < |run| - 1 ==> Step(m, run[i], run[i + 1])
  }

  lemma {:induction false} RunKeeps<Key(!new), Op(!new), Index(!new)>(m: Meaning<Op, Index>, initial: map<Key, Index>, run: seq<Store<Key, Op, Index>>)
    requires IsRun(m, initial, run)
    ensures StoreInv(m, initial, run[|run| - 1])
  {
    hide After, Enabled, Replay;
    if |run| == 1 {
      InitialInv(m, initial);
    } else {
      hide StoreInv;
      var s, r := run[|run| - 2], run[|run| - 1];
      RunKeeps(m, initial, run[..|run| - 1]);
      assert Step(m, run[|run| - 2], run[|run| - 2 + 1]);
      var e :| Enabled(m, s, e) && r == After(m, s, e);
      StepKeeps(m, initial, s, e);
    }
  }

  lemma InitialInv<Key(!new), Op(!new), Index(!new)>(m: Meaning<Op, Index>, initial: map<Key, Index>)
    ensures StoreInv(m, initial, Store(Chain([], map[]), [], initial))
  {
  }

  /** In every interleaving of calls, starts, reads, writes, failures and cleanups, each
      key's stored index is the one obtained by applying the successful operations one
      at a time in call order. A rejected operation is one that throws on exactly that
      serial index, and a successful one does not. */
  lemma Serializable<Key(!new), Op(!new), Index(!new)>(m: Meaning<Op, Index>, initial: map<Key, Index>, run: seq<Store<Key, Op, Index>>)
    requires IsRun(m, initial, run)
    ensures var s := run[|run| - 1];
            (&& Shaped(s)
             && (forall key :: Content(m, s.disk, key) == Replay(m, initial, s, key, |s.jobs|))
             && (forall t :: 0 <= t < |s.jobs| && s.jobs[t].outcome == Succeeded ==> m.apply(s.jobs[t].op, Replay(m, initial, s, s.chain.tasks[t].key, t)).Some?)
             && (forall t :: 0 <= t < |s.jobs| && s.jobs[t].outcome == Rejected ==> m.apply(s.jobs[t].op, Replay(m, initial, s, s.chain.tasks[t].key, t)).None?))
  {
    hide Step, Replay, Inv;
    RunKeeps(m, initial, run);
    var s := run[|run| - 1];
    forall key
      ensures Content(m, s.disk, key) == Replay(m, initial, s, key, |s.jobs|)
    {
      assert DiskIsReplay(m, initial, s, key);
    }
    forall t | 0 <= t < |s.jobs|
      ensures s.jobs[t].outcome == Succeeded ==> m.apply(s.jobs[t].op, Replay(m, initial, s, s.chain.tasks[t].key, t)).Some?
      ensures s.jobs[t].outcome == Rejected ==> m.apply(s.jobs[t].op, Replay(m, initial, s, s.chain.tasks[t].key, t)).None?
    {
      assert JobInv(m, initial, s, t);
    }
  }

  // ---- Every call gets its turn ----

  ghost predicate OnlyKeyChanges<Key(!new), Index(!new)>(before: map<Key, Index>, after: map<Key, Index>, key: Key) {
    forall k :: k != key ==> (k in after <==> k in before) && (k in before ==> after[k] == before[k])
  }

  /** A call is taken whenever it comes, behind those there are. */
  lemma CallIsTaken<Key(!new), Op(!new), Index(!new)>(m: Meaning<Op, Index>, s: Store<Key, Op, Index>, key: Key, op: Op) returns (r: Store<Key, Op, Index>)
    ensures Step(m, s, r) && r.disk == s.disk && r.jobs == s.jobs + [Job(op, None, Pending)]
    ensures |r.chain.tasks| == |s.chain.tasks| + 1 && r.chain.tasks[..|s.chain.tasks|] == s.chain.tasks
    ensures r.chain.tasks[|s.chain.tasks|].key == key && r.chain.tasks[|s.chain.tasks|].phase == Waiting
  {
    r := After(m, s, Call(key, op));
    assert Enabled(m, s, Call(key, op));
  }

  /** A waiting call whose predecessors are over can run its turn: it reads the index as
      it is then, and either stores what its operation makes of it and succeeds, or, if
      the operation throws on it, stores nothing and is rejected. Other files and other
      calls are left alone. */
  lemma CallRunsItsTurn<Key(!new), Op(!new), Index(!new)>(m: Meaning<Op, Index>, initial: map<Key, Index>, run: seq<Store<Key, Op, Index>>, t: nat)
      returns (more: seq<Store<Key, Op, Index>>)
    requires IsRun(m, initial, run) && var s := run[|run| - 1];
             && t < |s.jobs| == |s.chain.tasks| && s.chain.tasks[t].phase == Waiting
             && forall u :: 0 <= u < t && s.chain.tasks[u].key == s.chain.tasks[t].key ==> s.chain.tasks[u].phase == Cleaned
    ensures IsRun(m, initial, run + more) && |more| == 3
    ensures var s, r, key := run[|run| - 1], more[2], run[|run| - 1].chain.tasks[t].key;
            var result := m.apply(s.jobs[t].op, Content(m, s.disk, key));
            && r.jobs == s.jobs[t := Job(s.jobs[t].op, Some(Content(m, s.disk, key)), if result.Some? then Succeeded else Rejected)]
            && r.chain.tasks == s.chain.tasks[t := s.chain.tasks[t].(phase := Settled)]
            && (result.Some? ==> key in r.disk && r.disk[key] == result.value && OnlyKeyChanges(s.disk, r.disk, key))
            && (result.None? ==> r.disk == s.disk)
  {
    var s := run[|run| - 1];
    var key := s.chain.tasks[t].key;
    TurnComes(m, initial, run, t);
    var a := After(m, s, Start(t));
    var b := After(m, a, Read(t));
    var last := if m.apply(s.jobs[t].op, Content(m, s.disk, key)).Some? then Write(t) else Reject(t);
    assert Enabled(m, s, Start(t)) && Enabled(m, a, Read(t)) && Enabled(m, b, last);
    var c := After(m, b, last);
    more := [a, b, c];
    assert Step(m, s, a) && Step(m, a, b) && Step(m, b, c);
    hide Step, After, Enabled;
    RunGoesOnThrice(m, initial, run, a, b, c);
  }

  lemma TurnComes<Key(!new), Op(!new), Index(!new)>(m: Meaning<Op, Index>, initial: map<Key, Index>, run: seq<Store<Key, Op, Index>>, t: nat)
    requires IsRun(m, initial, run) && var s := run[|run| - 1];
             && t < |s.jobs| == |s.chain.tasks| && s.chain.tasks[t].phase == Waiting
             && forall u :: 0 <= u < t && s.chain.tasks[u].key == s.chain.tasks[t].key ==> s.chain.tasks[u].phase == Cleaned
    ensures var s := run[|run| - 1]; CanStart(s.chain, t) && s.jobs[t].snapshot.None? && s.jobs[t].outcome == Pending
  {
    hide Step, Replay;
    RunKeeps(m, initial, run);
    var s := run[|run| - 1];
    assert TaskInv(s.chain, t) && JobInv(m, initial, s, t);
  }

  lemma RunGoesOnThrice<Key(!new), Op(!new), Index(!new)>(m: Meaning<Op, Index>, initial: map<Key, Index>, run: seq<Store<Key, Op, Index>>,
                                                          a: Store<Key, Op, Index>, b: Store<Key, Op, Index>, c: Store<Key, Op, Index>)
    requires IsRun(m, initial, run) && Step(m, run[|run| - 1], a) && Step(m, a, b) && Step(m, b, c)
    ensures IsRun(m, initial, run + [a, b, c])
  {
    hide Step;
    var all := run + [a, b, c];
    forall i | 0 <= i < |all| - 1
      ensures Step(m, all[i], all[i + 1])
    {
      if i < |run| - 1 {
        assert Step(m, run[i], run[i + 1]);
      }
    }
  }
}
