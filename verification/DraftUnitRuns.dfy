/** Concurrent use of the draft plan unit store: its operations behind the lock. */
module DraftUnitRuns {
  import opened Text
  import opened DraftPlanUnits
  import opened StoreLock

  type Path = string

  type Index = seq<Unit>

  type UnitStore = Store<Path, Op, Index>

  function UnitMeaning(): Meaning<Op, Index> {
    Meaning((op, index) => Apply(op, index), [])
  }

  /** The ids that the first n calls obtained. */
  ghost function FreshIds(jobs: seq<Job<Op, Index>>, n: nat): set<string>
    requires n <= |jobs|
  {
    if n == 0 then {} else FreshIds(jobs, n - 1) + NewIds(jobs[n - 1].op)
  }

  /** Fresh ids are those of no unit in the initial index and of no other call. */
  ghost predicate IdsAreFresh(initial: Index, jobs: seq<Job<Op, Index>>) {
    forall t :: 0 <= t < |jobs| ==> NewIds(jobs[t].op) !! UnitIds(initial) + FreshIds(jobs, t)
  }

  lemma ReplayedIsValid(m: Meaning<Op, Index>, job: Job<Op, Index>, before: Index, ids: set<string>)
    requires m == UnitMeaning() && ValidIndex(before) && UnitIds(before) <= ids && NewIds(job.op) !! ids
    ensures ValidIndex(Replayed(m, job, before)) && UnitIds(Replayed(m, job, before)) <= ids + NewIds(job.op)
  {
    hide Apply, ValidIndex, UnitIds, NewIds;
    assert m.apply(job.op, before) == Apply(job.op, before);
    if Apply(job.op, before).Some? {
      ApplyKeepsValid(job.op, before);
    }
  }

  lemma {:induction false} ReplayIsValid(m: Meaning<Op, Index>, initial: map<Path, Index>, s: UnitStore, path: Path, n: nat)
    requires m == UnitMeaning() && Shaped(s) && n <= |s.jobs|
    requires ValidIndex(Content(m, initial, path)) && IdsAreFresh(Content(m, initial, path), s.jobs)
    ensures ValidIndex(Replay(m, initial, s, path, n))
    ensures UnitIds(Replay(m, initial, s, path, n)) <= UnitIds(Content(m, initial, path)) + FreshIds(s.jobs, n)
  {
    hide *;
    var start := Content(m, initial, path);
    if n == 0 {
      ReplayNothing(m, initial, s, path);
    } else {
      var ids := UnitIds(start) + FreshIds(s.jobs, n - 1);
      ReplayStep(m, initial, s, path, n);
      ReplayIsValid(m, initial, s, path, n - 1);
      FreshStep(start, s.jobs, n);
      ReplayedIsValid(m, s.jobs[n - 1], Replay(m, initial, s, path, n - 1), ids);
    }
  }

  lemma ReplayNothing(m: Meaning<Op, Index>, initial: map<Path, Index>, s: UnitStore, path: Path)
    requires Shaped(s)
    ensures Replay(m, initial, s, path, 0) == Content(m, initial, path)
  {
  }

  lemma FreshStep(start: Index, jobs: seq<Job<Op, Index>>, n: nat)
    requires 0 < n <= |jobs| && IdsAreFresh(start, jobs)
    ensures NewIds(jobs[n - 1].op) !! UnitIds(start) + FreshIds(jobs, n - 1)
    ensures FreshIds(jobs, n) == FreshIds(jobs, n - 1) + NewIds(jobs[n - 1].op)
  {
    hide NewIds, UnitIds;
  }

  /** In every interleaving of store calls, each index file that started with distinct
      unit ids and no duplicate items keeps them, given fresh ids: no interleaving
      brings back a removed unit or loses a created one. */
  lemma RunsKeepIndexesValid(m: Meaning<Op, Index>, initial: map<Path, Index>, run: seq<UnitStore>, path: Path)
    requires m == UnitMeaning() && IsRun(m, initial, run)
    requires ValidIndex(Content(m, initial, path)) && IdsAreFresh(Content(m, initial, path), run[|run| - 1].jobs)
    ensures var s := run[|run| - 1];
            (&& Shaped(s) && ValidIndex(Content(m, s.disk, path))
             && Content(m, s.disk, path) == Replay(m, initial, s, path, |s.jobs|))
  {
    hide Step, Replay, ValidIndex, Content, UnitMeaning, IdsAreFresh;
    Serializable(m, initial, run);
    var s := run[|run| - 1];
    ReplayIsValid(m, initial, s, path, |s.jobs|);
  }
}
