/**
 * The ordered per-path file I/O chain.
 *
 * `LastIOTask` maps a file path to the completion event of the last operation
 * scheduled on it.  Scheduling an operation swaps its own completion event
 * into the map and keeps the previous one as its prerequisite; the operation
 * waits for that prerequisite, performs its I/O, and only then signals its own
 * completion.  A save-state write is scheduled the same way but is also held
 * until the serialization step on the instance thread unlocks it.
 *
 * The task graph is modelled sequentially: event ids are the positions of the
 * scheduled operations in `ops`, `completed` holds the ids whose I/O has run,
 * and `Run` performs an operation only when everything it waits for is done.
 */
module OrderedIo {
  import opened Wrappers

  /**
   * A scheduled operation: its path, the completion event it waits for, and
   * whether it is a held task that also needs an explicit unlock.
   */
  datatype Op = Op(path: string, prereq: Option<nat>, held: bool)

  /** `prereq` is the latest of the first `n` operations on `path`, or none when there is none. */
  ghost predicate PredecessorOf(ops: seq<Op>, n: nat, path: string, prereq: Option<nat>)
    requires n <= |ops|
  {
    match prereq
    case None => forall j :: 0 <= j < n ==> ops[j].path != path
    case Some(p) => p < n && ops[p].path == path && forall j :: p < j < n ==> ops[j].path != path
  }

  /** Every operation waits for the operation scheduled just before it on its path. */
  ghost predicate ChainedToPredecessor(ops: seq<Op>)
  {
    forall i :: 0 <= i < |ops| ==> PredecessorOf(ops, i, ops[i].path, ops[i].prereq)
  }

  /** `LastIOTask` holds, for each path with operations, the last one scheduled on it. */
  ghost predicate LastIsLatest(ops: seq<Op>, last: map<string, nat>)
  {
    && (forall path :: path in last ==>
          last[path] < |ops| && ops[last[path]].path == path
          && forall j :: last[path] < j < |ops| ==> ops[j].path != path)
    && (forall i :: 0 <= i < |ops| ==> ops[i].path in last)
  }

  /** Run only once, each after the operation it waits for, and a held one only after its unlock. */
  ghost predicate OrderedLog(ops: seq<Op>, log: seq<nat>, unlocked: set<nat>)
  {
    && (forall k :: 0 <= k < |log| ==> log[k] < |ops|)
    && (forall k, k' :: 0 <= k < k' < |log| ==> log[k] != log[k'])
    && (forall k :: 0 <= k < |log| && ops[log[k]].prereq.Some? ==> ops[log[k]].prereq.value in log[..k])
    && (forall k :: 0 <= k < |log| && ops[log[k]].held ==> log[k] in unlocked)
  }

  /** Looking up the map gives exactly the predecessor the next operation on `path` must wait for. */
  lemma PreviousIsPredecessor(ops: seq<Op>, last: map<string, nat>, path: string)
    requires LastIsLatest(ops, last)
    ensures PredecessorOf(ops, |ops|, path, Lookup(last, path))
  {
    if path !in last {
      forall j | 0 <= j < |ops| ensures ops[j].path != path {
        assert ops[j].path in last;
      }
    }
  }

  /** Appending an operation on `path` and pointing `path` at it keeps the map's meaning. */
  lemma ScheduleKeepsInvariant(ops: seq<Op>, last: map<string, nat>, path: string, held: bool)
    requires LastIsLatest(ops, last) && ChainedToPredecessor(ops)
    ensures var ops' := ops + [Op(path, Lookup(last, path), held)];
      LastIsLatest(ops', last[path := |ops|]) && ChainedToPredecessor(ops')
  {
    var ops' := ops + [Op(path, Lookup(last, path), held)];
    PreviousIsPredecessor(ops, last, path);
    forall i | 0 <= i < |ops'| ensures PredecessorOf(ops', i, ops'[i].path, ops'[i].prereq) {
      assert PredecessorOf(ops, i, ops'[i].path, ops'[i].prereq);
    }
  }

  /**
   * Running a not-yet-run operation whose prerequisite has run, and which is
   * unlocked if held, extends an ordered log.
   */
  lemma RunKeepsOrdered(ops: seq<Op>, log: seq<nat>, unlocked: set<nat>, id: nat)
    requires OrderedLog(ops, log, unlocked)
    requires id < |ops| && id !in log
    requires ops[id].prereq.Some? ==> ops[id].prereq.value in log
    requires ops[id].held ==> id in unlocked
    ensures OrderedLog(ops, log + [id], unlocked)
  {
    var log' := log + [id];
    assert log'[..|log|] == log;
    forall k | 0 <= k < |log'| && ops[log'[k]].prereq.Some?
      ensures ops[log'[k]].prereq.value in log'[..k]
    {
      if k < |log| {
        assert log'[..k] == log[..k];
      }
    }
  }

  /**
   * Operations on one path run in scheduling order: by the time an operation
   * runs, every earlier operation on its path has run before it.
   */
  lemma {:induction false} SamePathRunsInOrder(ops: seq<Op>, log: seq<nat>, unlocked: set<nat>, i: nat, k: nat)
    requires ChainedToPredecessor(ops) && OrderedLog(ops, log, unlocked)
    requires k < |log| && i < log[k] && ops[i].path == ops[log[k]].path
    ensures i in log[..k]
    decreases k
  {
    var j := log[k];
    assert PredecessorOf(ops, j, ops[j].path, ops[j].prereq);
    var q := ops[j].prereq.value;
    assert i <= q;
    assert q in log[..k];
    var k' :| 0 <= k' < k && log[k'] == q;
    if i < q {
      SamePathRunsInOrder(ops, log, unlocked, i, k');
      var m :| 0 <= m < k' && log[m] == i;
      assert log[..k][m] == i;
    }
  }

  /** The sequential task graph and the global `LastIOTask` map. */
  class IoScheduler {
    var lastIOTask: map<string, nat>
    var ops: seq<Op>
    var completed: set<nat>
    var unlocked: set<nat>
    /** The order in which operations ran. */
    ghost var log: seq<nat>

    ghost predicate Valid()
      reads this
    {
      && LastIsLatest(ops, lastIOTask)
      && ChainedToPredecessor(ops)
      && OrderedLog(ops, log, unlocked)
      && (forall e :: e in completed <==> e in log)
    }

    constructor ()
      ensures Valid()
      ensures lastIOTask == map[] && ops == [] && completed == {} && unlocked == {} && log == []
    {
      lastIOTask := map[];
      ops := [];
      completed := {};
      unlocked := {};
      log := [];
    }

    /** Whether operation `id` can run now: not yet run, its prerequisite done, unlocked if held. */
    predicate Ready(id: nat)
      reads this
    {
      && id < |ops|
      && id !in completed
      && (ops[id].prereq.Some? ==> ops[id].prereq.value in completed)
      && (ops[id].held ==> id in unlocked)
    }

    /**
     * `Replace(LastIOTask.FindOrAdd(path), event)`: the entry for `path` now
     * holds `event`, and its previous event (none for a new entry) is returned.
     */
    method Replace(path: string, event: nat) returns (previous: Option<nat>)
      modifies this
      ensures lastIOTask == old(lastIOTask)[path := event]
      ensures previous == Lookup(old(lastIOTask), path)
      ensures ops == old(ops) && completed == old(completed) && unlocked == old(unlocked) && log == old(log)
    {
      previous := Lookup(lastIOTask, path);
      lastIOTask := lastIOTask[path := event];
    }

    /**
     * `MakeOrderedFileAccessOperation`: a new operation on `path` that waits
     * for the last one scheduled there; it becomes the last one itself.
     */
    method MakeOrderedFileAccessOperation(path: string) returns (id: nat)
      requires Valid()
      modifies this
      ensures Valid()
      ensures id == |old(ops)| && ops == old(ops) + [Op(path, Lookup(old(lastIOTask), path), false)]
      ensures PredecessorOf(ops, id, path, ops[id].prereq)
      ensures lastIOTask == old(lastIOTask)[path := id]
      ensures forall p :: p != path ==> Lookup(lastIOTask, p) == Lookup(old(lastIOTask), p)
      ensures completed == old(completed) && unlocked == old(unlocked) && log == old(log)
    {
      ScheduleKeepsInvariant(ops, lastIOTask, path, false);
      PreviousIsPredecessor(ops, lastIOTask, path);
      id := |ops|;
      var previous := Replace(path, id);
      ops := ops + [Op(path, previous, false)];
    }

    /**
     * The scheduling half of `SaveState`: a held file-write task whose
     * prerequisite is the current entry for `path`, which it then replaces.
     */
    method ScheduleHeldWrite(path: string) returns (id: nat)
      requires Valid()
      modifies this
      ensures Valid()
      ensures id == |old(ops)| && ops == old(ops) + [Op(path, Lookup(old(lastIOTask), path), true)]
      ensures PredecessorOf(ops, id, path, ops[id].prereq)
      ensures lastIOTask == old(lastIOTask)[path := id]
      ensures forall p :: p != path ==> Lookup(lastIOTask, p) == Lookup(old(lastIOTask), p)
      ensures completed == old(completed) && unlocked == old(unlocked) && log == old(log)
    {
      ScheduleKeepsInvariant(ops, lastIOTask, path, true);
      PreviousIsPredecessor(ops, lastIOTask, path);
      var prerequisite := Lookup(lastIOTask, path);
      id := |ops|;
      ops := ops + [Op(path, prerequisite, true)];
      lastIOTask := lastIOTask[path := id];
    }

    /** `SaveStateToFileTask->Unlock()`, called once serialization has filled the buffer. */
    method Unlock(id: nat)
      requires Valid()
      modifies this
      ensures Valid()
      ensures unlocked == old(unlocked) + {id}
      ensures lastIOTask == old(lastIOTask) && ops == old(ops) && completed == old(completed) && log == old(log)
    {
      unlocked := unlocked + {id};
    }

    /**
     * Performs operation `id` if it is ready (the wait, the I/O and the
     * completion signal of one operation), and says whether it did.
     */
    method Run(id: nat) returns (ran: bool)
      requires Valid()
      modifies this
      ensures Valid()
      ensures ran == old(Ready(id))
      ensures completed == if ran then old(completed) + {id} else old(completed)
      ensures log == if ran then old(log) + [id] else old(log)
      ensures lastIOTask == old(lastIOTask) && ops == old(ops) && unlocked == old(unlocked)
    {
      ran := Ready(id);
      if ran {
        RunKeepsOrdered(ops, log, unlocked, id);
        completed := completed + {id};
        log := log + [id];
      }
    }
  }

  /** In any reachable state, an operation has run only if every earlier one on its path has. */
  lemma CompletedInOrder(s: IoScheduler, i: nat, j: nat)
    requires s.Valid()
    requires i < j < |s.ops| && s.ops[i].path == s.ops[j].path
    requires j in s.completed
    ensures i in s.completed
  {
    var k :| 0 <= k < |s.log| && s.log[k] == j;
    SamePathRunsInOrder(s.ops, s.log, s.unlocked, i, k);
  }
}
